/** The v1 resolver: the same walk written a second time, on commit objects that carry the module digest
    (internal/service/graph_v1.go). */
module ResolverV1 {
  import opened Wrappers
  import opened Docstore
  import opened Graph
  import opened Resolvers

  class GraphV1 {
    const ids: Ids
    const store: Store
    var commits: map<string, Commit>
    var listed: seq<Commit>
    var edges: seq<Edge>
    ghost var expanded: seq<CommitId>
    ghost var met: seq<Edge>

    constructor (ids: Ids, store: Store)
      ensures this.ids == ids && this.store == store
      ensures commits == map[] && listed == [] && edges == [] && expanded == [] && met == []
    {
      this.ids, this.store := ids, store;
      commits, listed, edges, expanded, met := map[], [], [], [], [];
    }

    ghost function View(): State
      reads this
    {
      State(SelectedIds(commits), IdsOf(listed), edges, expanded, met)
    }

    ghost predicate Valid()
      reads this
    {
      Tables(ids, store) && AreObjects(V1, store, listed) && forall k :: k in commits ==>
        IsObjectOf(V1, store, commits[k])
    }

    method ReplaceListed(loser: CommitId, c: Commit)
      modifies this`listed
      ensures IdsOf(listed) == ReplaceFirst(IdsOf(old(listed)), loser, c.id)
      ensures forall x :: x in listed ==> x in old(listed) || x == c
    {
      for i := 0 to |listed|
        invariant listed == old(listed)
        invariant loser !in IdsOf(listed)[..i]
      {
        if listed[i].id == loser {
          ReplaceFirstAt(IdsOf(listed), i, loser, c.id);
          listed := listed[i := c];
          assert IdsOf(listed) == IdsOf(old(listed))[i := c.id];
          return;
        }
      }
      assert IdsOf(listed)[..|listed|] == IdsOf(listed);
    }

    method RedirectEdges(loser: CommitId, winner: CommitId)
      modifies this`edges
      ensures edges == Redirect(old(edges), loser, winner)
    {
      for i := 0 to |edges|
        invariant |edges| == |old(edges)|
        invariant forall j :: 0 <= j < i ==> edges[j] == Redirect(old(edges), loser, winner)[j]
        invariant forall j :: i <= j < |edges| ==> edges[j] == old(edges)[j]
      {
        if edges[i].to == loser {
          edges := edges[i := edges[i].(to := winner)];
        }
      }
    }

    // Enters a dependency's commit into the selection; the newer version of a module wins.
    method SelectDep(key: string, c: Commit)
      requires Valid() && IsObjectOf(V1, store, c) && Resolves(CatalogOf(store), c.id)
      requires key == KeyOf(CatalogOf(store), c.id)
      modifies this`commits, this`listed, this`edges
      ensures Valid() && View() == Select(CatalogOf(store), old(View()), c.id) && key in commits
    {
      hide IsObjectOf, Tables, ReplaceFirst, Redirect, CatalogOf;
      if key in commits {
        var existing := commits[key];
        if existing.id != c.id {
          if c.id > existing.id {
            commits := commits[key := c];
            ReplaceListed(existing.id, c);
            RedirectEdges(existing.id, c.id);
            assert SelectedIds(commits) == old(SelectedIds(commits))[key := c.id];
          }
        }
      } else {
        commits := commits[key := c];
        listed := listed + [c];
        assert SelectedIds(commits) == old(SelectedIds(commits))[key := c.id];
        assert IdsOf(listed) == old(IdsOf(listed)) + [c.id];
      }
    }

    method GetGraphForModule(owner: string, name: string, commit: Commit) returns (r: Result<()>)
      requires Valid()
      modifies this
      ensures Valid()
      ensures r.Ok? <==> IsCommitOf(ids, store, owner, name, commit.id)
      ensures View() == if r.Ok? then Visit(CatalogOf(store), commit.id, old(View())) else old(View())
      decreases Unselected(CatalogOf(store), View()), 1
    {
      var found := GetStoredDeps(ids, store, owner, name, commit.id);
      if found.Err? {
        return Err(found.error);
      }
      var deps := found.value;
      ghost var g, start := CatalogOf(store), View();
      expanded := expanded + [commit.id];
      ghost var all := VisitDeps(g, commit.id, Commits(deps), View());
      assert Commits(deps)[0..] == Commits(deps);
      for i := 0 to |deps|
        invariant Valid()
        invariant Unselected(g, View()) <= Unselected(g, start)
        invariant VisitDeps(g, commit.id, Commits(deps)[i..], View()) == all
      {
        DepsStep(g, commit.id, Commits(deps), i, View());
        ghost var before := View();
        ProcessDep(commit, deps[i]);
        UnselectedShrinks(g, before, View());
      }
      return Ok(());
    }

    method DepObject(dep: Dep) returns (c: Commit)
      requires Valid() && Resolves(CatalogOf(store), dep.commit) && dep == DepOf(store, dep.commit)
      ensures IsObjectOf(V1, store, c) && c.id == dep.commit
    {
      // createV1CommitFromDep: the lookup succeeds, so its fallback is never taken.
      DepObjectV1(ids, store, dep);
      var m := FindModule(ids, store, dep.owner, dep.repository);
      var cmt := CommitById(store, m.value, dep.commit).value;
      c := Commit(cmt.id, cmt.ownerId, cmt.moduleId, cmt.moduleDigest.value);
    }

    // The edge goes to whatever commit the module has by now. Where all edges meant what they should,
    // they still do.
    method AppendEdge(from: Commit, key: string, c: Commit)
      requires Valid() && key in commits && key == KeyOf(CatalogOf(store), c.id)
      modifies this`edges, this`met
      ensures Valid() && View() == Append(CatalogOf(store), old(View()), from.id, c.id)
      ensures MayAppend(CatalogOf(store), old(View()), from.id, c.id) ==> Graph.EdgesFollow(CatalogOf(store), View())
    {
      hide CatalogOf, KeyOf, MayAppend, Tables, IsObjectOf;
      if MayAppend(CatalogOf(store), View(), from.id, c.id) {
        AppendFollows(CatalogOf(store), View(), from.id, c.id);
      }
      edges := edges + [Edge(from.id, commits[key].id)];
      met := met + [Edge(from.id, c.id)];
    }

    // Enters a dependency and its edge; tells whether its module was known, and its commit object.
    method AbsorbDep(commit: Commit, dep: Dep) returns (alreadySeen: bool, c: Commit)
      requires Valid() && Resolves(CatalogOf(store), dep.commit) && dep == DepOf(store, dep.commit)
      modifies this
      ensures Valid() && View() == Absorb(CatalogOf(store), old(View()), commit.id, dep.commit)
      ensures alreadySeen == (KeyOf(CatalogOf(store), dep.commit) in old(View()).selected)
      ensures c.id == dep.commit
    {
      var key := dep.owner + "/" + dep.repository;
      DepKey(store, dep);
      c := DepObject(dep);
      hide IsObjectOf, Tables, CatalogOf, DepOf, Select;
      alreadySeen := key in commits;
      SelectDep(key, c);
      AppendEdge(commit, key, c);
    }

    // One round of the dependency loop.
    method ProcessDep(commit: Commit, dep: Dep)
      requires Valid() && Resolves(CatalogOf(store), dep.commit) && dep == DepOf(store, dep.commit)
      modifies this
      ensures Valid() && View() == AfterDep(CatalogOf(store), commit.id, dep.commit, old(View()))
      decreases Unselected(CatalogOf(store), View()), 0
    {
      DepObjectV1(ids, store, dep);
      var alreadySeen, c := AbsorbDep(commit, dep);
      hide IsObjectOf, Tables, CatalogOf, DepOf, Absorb, IsCommitOf;
      if !alreadySeen {
        KeyInKeys(CatalogOf(store), c.id);
        UnselectedShrinks(CatalogOf(store), old(View()), View());
        var r := GetGraphForModule(dep.owner, dep.repository, c);
        assert r.Ok?;
      }
    }

    // The first loop of GetGraph: resolve every reference, enter its commit.
    method EnterRoots(refs: seq<ResourceRef>) returns (r: Result<seq<Root>>)
      requires Valid() && View() == State(map[], [], [], [], [])
      modifies this
      ensures Valid()
      ensures r.Ok? <==> RefsResolve(ids, store, refs)
      ensures r.Ok? ==> r.value == Roots(ids, store, refs) && View() == Start(CatalogOf(store), RootIds(r.value))
    {
      var roots: seq<Root> := [];
      assert RootIds(roots) == [];
      StartEmpty(CatalogOf(store));
      NoRoots(ids, store, refs);
      hide CatalogOf, Start, ResolveRef, View, Valid, RootIds, AreRoots, RefsResolve, Roots;
      for i := 0 to |refs|
        invariant Valid() && AreRoots(ids, store, refs[..i], roots)
        invariant View() == Start(CatalogOf(store), RootIds(roots))
      {
        var root := EnterRef(roots, refs[i]);
        if root.Err? {
          RefFails(ids, store, refs, i);
          return Err(root.error);
        }
        MoreRoots(ids, store, refs, i, roots, root.value);
        roots := roots + [root.value];
      }
      AllRoots(ids, store, refs, roots);
      return Ok(roots);
    }

    method EnterRef(ghost roots: seq<Root>, ref: ResourceRef) returns (r: Result<Root>)
      requires Valid() && View() == Start(CatalogOf(store), RootIds(roots))
      modifies this
      ensures Valid() && r == ResolveRef(ids, store, ref)
      ensures r.Ok? ==> View() == Start(CatalogOf(store), RootIds(roots + [r.value]))
    {
      r := FindRoot(ids, store, ref);
      if r.Ok? {
        RootResolves(ids, store, ref);
        EnterRoot(roots, r.value);
      }
    }

    method EnterRoot(ghost roots: seq<Root>, root: Root)
      requires Valid() && View() == Start(CatalogOf(store), RootIds(roots)) && IsRoot(ids, store, root)
      modifies this
      ensures Valid() && View() == Start(CatalogOf(store), RootIds(roots + [root]))
    {
      hide DocToRecord, Tables, IsObjectOf;
      var c := RootObject(root);
      KnownKey(ids, store, root);
      StartAppend(CatalogOf(store), RootIds(roots), c.id);
      assert RootIds(roots + [root]) == RootIds(roots) + [c.id];
      hide CatalogOf, StartSelection, IsRoot, KeyOf;
      PutRoot(root.owner + "/" + root.name, c);
    }

    method PutRoot(key: string, c: Commit)
      requires Valid() && IsObjectOf(V1, store, c)
      modifies this`commits, this`listed
      ensures Valid()
      ensures var st := old(View()); View() == st.(selected := st.selected[key := c.id], listed := st.listed + [c.id])
    {
      hide IsObjectOf, Tables;
      commits := commits[key := c];
      listed := listed + [c];
      assert SelectedIds(commits) == old(SelectedIds(commits))[key := c.id];
      assert IdsOf(listed) == old(IdsOf(listed)) + [c.id];
    }

    method RootObject(root: Root) returns (c: Commit)
      requires IsRoot(ids, store, root)
      ensures IsObjectOf(V1, store, c) && c.id == root.commit.id
    {
      c := Commit(root.commit.id, root.commit.ownerId, root.commit.moduleId, root.commit.moduleDigest.value);
    }

    // GetGraph
    method GetGraph(refs: seq<ResourceRef>) returns (r: Result<()>)
      requires Valid() && View() == State(map[], [], [], [], [])
      modifies this
      ensures Valid()
      ensures r.Ok? <==> RefsResolve(ids, store, refs) && AllStay(ids, store, Roots(ids, store, refs))
      ensures r.Ok? ==> View() == Resolve(CatalogOf(store), RootIds(Roots(ids, store, refs)))
    {
      var entered := EnterRoots(refs);
      if entered.Err? {
        return Err(entered.error);
      }
      var roots := entered.value;
      ghost var g, start := CatalogOf(store), View();
      for i := 0 to |roots|
        invariant Valid() && |roots| <= |View().listed|
        invariant VisitRoots(g, |roots|, i, View()) == VisitRoots(g, |roots|, 0, start)
        invariant RootsStay(ids, store, roots, i, View()) == RootsStay(ids, store, roots, 0, start)
      {
        var walked := GetGraphForModule(roots[i].owner, roots[i].name, listed[i]);
        if walked.Err? {
          return Err(walked.error);
        }
      }
      return Ok(());
    }
  }
}
