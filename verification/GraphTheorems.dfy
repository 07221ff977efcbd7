/** What the resolved dependency graph is worth to its readers (internal/service/graph.go): exact and
    acyclic without version conflicts, and what conflicts cost. */
module GraphTheorems {
  import opened Docstore
  import opened Ordering
  import opened Graph

  // ----- Without version conflicts -----

  // No two commits that the roots lead to are versions of one module.
  ghost predicate NoConflict(g: Catalog, roots: seq<CommitId>) {
    forall c, d :: Reachable(g, roots, c) && Reachable(g, roots, d) && KeyOf(g, c) == KeyOf(g, d) ==> c == d
  }

  // The resolved graph is then the reachable part of the stored one: the listed commits are the
  // reachable commits, each once, and the edges are their stored dependency edges, each as often as stored.
  lemma ExactWithoutConflict(g: Catalog, roots: seq<CommitId>)
    requires AllResolve(g, roots) && DistinctModules(g, roots) && NoConflict(g, roots)
    ensures
      var st := Resolve(g, roots);
      && (forall c :: c in st.listed <==> Reachable(g, roots, c))
      && DistinctModules(g, st.listed)
      && multiset(st.edges) == multiset(StoredEdges(g, st.listed))
  {
    var st := Resolve(g, roots);
    ResolveConsistent(g, roots);
    ListedDistinct(g, st);
    hide Resolve, Grows;
    EdgesUnchanged(g, roots, st);
    ExpandedIsListed(g, roots, st);
    StoredEdgesPermuted(g, st.expanded, st.listed);
    forall c | Reachable(g, roots, c)
      ensures c in st.listed
    {
      var p :| IsPath(g, p) && p[0] in roots && p[|p| - 1] == c;
      PathListed(g, roots, p);
    }
  }

  // ... and only then: the listed commits are the reachable ones exactly when no two of these are versions
  // of one module.
  lemma ExactOnlyWithoutConflict(g: Catalog, roots: seq<CommitId>)
    requires AllResolve(g, roots) && DistinctModules(g, roots)
    ensures (forall c :: c in Resolve(g, roots).listed <==> Reachable(g, roots, c)) <==> NoConflict(g, roots)
  {
    var st := Resolve(g, roots);
    if NoConflict(g, roots) {
      ExactWithoutConflict(g, roots);
    }
    ResolveConsistent(g, roots);
    hide Resolve, Grows, Reachable, EdgesFollow, Founded;
    if forall c :: c in st.listed <==> Reachable(g, roots, c) {
      forall c, d | Reachable(g, roots, c) && Reachable(g, roots, d) && KeyOf(g, c) == KeyOf(g, d)
        ensures c == d
      {
        assert st.selected[KeyOf(g, c)] == c && st.selected[KeyOf(g, d)] == d;
      }
    }
  }

  // Without conflicts each edge ends where the stored dependency points.
  lemma EdgesUnchanged(g: Catalog, roots: seq<CommitId>, st: State)
    requires Consistent(g, st) && Founded(g, roots, st) && NoConflict(g, roots)
    requires multiset(st.met) == multiset(StoredEdges(g, st.expanded))
    ensures st.edges == st.met
  {
    forall i | 0 <= i < |st.met|
      ensures st.edges[i] == st.met[i]
    {
      var e := st.met[i];
      assert EdgeFollows(g, st, e, st.edges[i]);
      assert e in multiset(st.met) && e in StoredEdges(g, st.expanded);
      StoredEdgesMember(g, st.expanded, e);
      DepReachable(g, roots, e.from, e.to);
      assert KeyOf(g, st.selected[KeyOf(g, e.to)]) == KeyOf(g, e.to);
    }
  }

  lemma ExpandedIsListed(g: Catalog, roots: seq<CommitId>, st: State)
    requires Chosen(g, st) && ListedIsSelected(g, st) && Founded(g, roots, st) && NoConflict(g, roots)
    requires ExpandedOnce(g, st) && ExpandedKeys(g, st) == st.selected.Keys
    ensures forall c :: c in st.expanded <==> c in st.listed
    ensures DistinctModules(g, st.expanded)
  {
    forall c | c in st.expanded
      ensures c in st.listed
    {
      assert KeyOf(g, c) in ExpandedKeys(g, st);
      assert KeyOf(g, st.selected[KeyOf(g, c)]) == KeyOf(g, c);
    }
    forall c | c in st.listed
      ensures c in st.expanded
    {
      assert KeyOf(g, c) in ExpandedKeys(g, st);
      var e :| e in st.expanded && KeyOf(g, e) == KeyOf(g, c);
      assert st.selected[KeyOf(g, c)] == c;
    }
  }

  lemma DistinctElements(g: Catalog, a: seq<CommitId>, c: CommitId)
    requires DistinctModules(g, a)
    ensures multiset(a)[c] == if c in a then 1 else 0
  {
    hide KeyOf;
    if c in a {
      var i :| 0 <= i < |a| && a[i] == c;
      forall j | 0 <= j < |a| && j != i
        ensures a[j] != c
      {
        assert KeyOf(g, a[j]) != KeyOf(g, a[i]);
      }
      OnceIn(a, i);
    }
  }

  lemma OnceIn(a: seq<CommitId>, i: nat)
    requires i < |a| && forall j :: 0 <= j < |a| && j != i ==> a[j] != a[i]
    ensures multiset(a)[a[i]] == 1
  {
    assert a == a[..i] + [a[i]] + a[i + 1..];
    assert a[i] !in a[..i] && a[i] !in a[i + 1..];
  }

  lemma StoredEdgesPermuted(g: Catalog, a: seq<CommitId>, b: seq<CommitId>)
    requires DistinctModules(g, a) && DistinctModules(g, b) && forall c :: c in a <==> c in b
    ensures multiset(StoredEdges(g, a)) == multiset(StoredEdges(g, b))
  {
    forall c
      ensures multiset(a)[c] == multiset(b)[c]
    {
      DistinctElements(g, a, c);
      DistinctElements(g, b, c);
    }
    SameStoredEdges(g, a, b);
  }

  lemma {:induction false} StoredEdgesWithout(g: Catalog, b: seq<CommitId>, k: nat)
    requires k < |b|
    ensures forall e :: Times(StoredEdges(g, b), e)
                     == Times(EdgesTo(b[k], LocalDeps(g, b[k])), e) + Times(StoredEdges(g, Without(b, k)), e)
  {
    hide EdgesTo, LocalDeps, Times;
    TimesAppend(EdgesTo(b[0], LocalDeps(g, b[0])), StoredEdges(g, b[1..]));
    WithoutFirst(b, k);
    if k > 0 {
      hide Without;
      StoredEdgesWithout(g, b[1..], k - 1);
      TimesAppend(EdgesTo(b[0], LocalDeps(g, b[0])), StoredEdges(g, Without(b, k)[1..]));
    }
  }

  lemma WithoutFirst(b: seq<CommitId>, k: nat)
    requires k < |b|
    ensures if k == 0 then Without(b, k) == b[1..]
            else Without(b, k) != [] && Without(b, k)[0] == b[0] && Without(b, k)[1..] == Without(b[1..], k - 1)
  {
  }

  lemma {:induction false} SameStoredEdges(g: Catalog, a: seq<CommitId>, b: seq<CommitId>)
    requires multiset(a) == multiset(b)
    ensures multiset(StoredEdges(g, a)) == multiset(StoredEdges(g, b))
  {
    SameElements(a, b);
    if a != [] {
      assert a[0] in b;
      var k :| 0 <= k < |b| && b[k] == a[0];
      TailElements(a);
      WithoutElements(b, k);
      SameStoredEdges(g, a[1..], Without(b, k));
      StoredEdgesWithout(g, b, k);
      TimesAppend(EdgesTo(a[0], LocalDeps(g, a[0])), StoredEdges(g, a[1..]));
      forall e
        ensures multiset(StoredEdges(g, a))[e] == multiset(StoredEdges(g, b))[e]
      {
        assert Times(StoredEdges(g, a), e) == Times(StoredEdges(g, b), e);
      }
    }
  }

  // A reachable commit that was considered is listed: nothing else of its module can be.
  lemma ConsideredListed(g: Catalog, roots: seq<CommitId>, c: CommitId)
    requires AllResolve(g, roots) && DistinctModules(g, roots) && NoConflict(g, roots)
    requires Reachable(g, roots, c) && Considered(g, roots, Resolve(g, roots), c)
    ensures var st := Resolve(g, roots); c in st.listed && c in st.expanded
  {
    var st := Resolve(g, roots);
    ConsideredBelow(g, roots, c);
    ResolveConsistent(g, roots);
    hide Resolve, Grows, Considered, EdgesFollow;
    ExpandedIsListed(g, roots, st);
    assert KeyOf(g, st.selected[KeyOf(g, c)]) == KeyOf(g, c);
  }

  lemma {:induction false} PathListed(g: Catalog, roots: seq<CommitId>, p: seq<CommitId>)
    requires AllResolve(g, roots) && DistinctModules(g, roots) && NoConflict(g, roots)
    requires IsPath(g, p) && p[0] in roots
    ensures var st := Resolve(g, roots); p[|p| - 1] in st.listed && p[|p| - 1] in st.expanded
    decreases |p|
  {
    hide Resolve, NoConflict;
    var c := p[|p| - 1];
    assert Reachable(g, roots, c);
    if |p| > 1 {
      PathListed(g, roots, p[..|p| - 1]);
      assert c in LocalDeps(g, p[|p| - 2]);
    }
    ConsideredListed(g, roots, c);
  }

  // ----- On a store whose dependencies are older than their dependents -----

  ghost predicate Descending(g: Catalog) {
    forall c: CommitId, d: CommitId :: d in LocalDeps(g, c) ==> d < c
  }

  ghost predicate IsEdgePath(edges: seq<Edge>, p: seq<CommitId>) {
    |p| > 1 && forall i :: 0 <= i < |p| - 1 ==> Edge(p[i], p[i + 1]) in edges
  }

  ghost predicate Acyclic(edges: seq<Edge>) {
    forall p :: IsEdgePath(edges, p) ==> p[0] != p[|p| - 1]
  }

  lemma {:induction false} DescendingPath(edges: seq<Edge>, p: seq<CommitId>)
    requires IsEdgePath(edges, p) && forall e :: e in edges ==> e.to < e.from
    ensures p[|p| - 1] < p[0]
    decreases |p|
  {
    assert Edge(p[|p| - 2], p[|p| - 1]) in edges;
    if |p| > 2 {
      DescendingPath(edges, p[..|p| - 1]);
    }
  }

  // ... and without version conflicts, the resolved graph has no cycle.
  lemma AcyclicWithoutConflict(g: Catalog, roots: seq<CommitId>)
    requires AllResolve(g, roots) && DistinctModules(g, roots) && NoConflict(g, roots) && Descending(g)
    ensures Acyclic(Resolve(g, roots).edges)
  {
    var st := Resolve(g, roots);
    ExactWithoutConflict(g, roots);
    hide Resolve;
    forall e | e in st.edges
      ensures e.to < e.from
    {
      assert e in multiset(st.edges) && e in StoredEdges(g, st.listed);
      StoredEdgesMember(g, st.listed, e);
    }
    forall p | IsEdgePath(st.edges, p)
      ensures p[0] != p[|p| - 1]
    {
      DescendingPath(st.edges, p);
    }
  }

  // Below a commit only older commits are met, so only selections of older commits change.
  ghost predicate OnlyOlderSelected(st: State, st': State, bound: CommitId) {
    forall k :: k in st.selected ==>
      k in st'.selected && (st'.selected[k] == st.selected[k] || st'.selected[k] < bound)
  }

  // At each moment an edge from `from` is appended, `from` is a listed commit, here and below.
  ghost predicate AppendsFromListed(g: Catalog, from: CommitId, deps: seq<CommitId>, st: State)
    requires forall d :: d in deps ==> Resolves(g, d)
    decreases Unselected(g, st), 0, |deps|
  {
    if deps == [] then true
    else
      var d := deps[0];
      var st', next := Absorb(g, st, from, d), AfterDep(g, from, d, st);
      UnselectedShrinks(g, st, next);
      && from in st.listed && from in st'.listed
      && (KeyOf(g, d) in st.selected || AppendsBelow(g, d, st, st'))
      && AppendsFromListed(g, from, deps[1..], next)
  }

  ghost predicate AppendsBelow(g: Catalog, d: CommitId, st: State, st': State)
    requires Resolves(g, d) && KeyOf(g, d) !in st.selected && st'.selected.Keys == st.selected.Keys + {KeyOf(g, d)}
    decreases Unselected(g, st), 0, 0
  {
    KeyInKeys(g, d);
    UnselectedShrinks(g, st, st');
    AppendsFromListed(g, d, LocalDeps(g, d), st'.(expanded := st'.expanded + [d]))
  }

  lemma VisitKeepsOwn(g: Catalog, id: CommitId, st: State)
    requires Descending(g) && Consistent(g, st) && id in st.listed
    ensures OnlyOlderSelected(st, Visit(g, id, st), id) && id in Visit(g, id, st).listed
    ensures AppendsFromListed(g, id, LocalDeps(g, id), st.(expanded := st.expanded + [id]))
    decreases Unselected(g, st), 1, 0
  {
    VisitConsistent(g, id, st);
    var st' := st.(expanded := st.expanded + [id]);
    ExpandConsistent(g, st, id);
    VisitDepsKeepOwn(g, id, LocalDeps(g, id), st');
  }

  lemma ExpandConsistent(g: Catalog, st: State, id: CommitId)
    requires Consistent(g, st) && MayExpand(g, st, id)
    ensures Consistent(g, st.(expanded := st.expanded + [id])) && Grows(g, st, st.(expanded := st.expanded + [id]))
  {
    var st' := st.(expanded := st.expanded + [id]);
    forall i | 0 <= i < |st.met|
      ensures EdgeFollows(g, st', st.met[i], st.edges[i])
    {
      assert EdgeFollows(g, st, st.met[i], st.edges[i]);
    }
  }

  lemma StillListed(g: Catalog, st: State, st': State, from: CommitId)
    requires ListedIsSelected(g, st) && ListedIsSelected(g, st') && from in st.listed
    requires OnlyOlderSelected(st, st', from)
    requires Grows(g, st, st')
    ensures from in st'.listed
  {
    assert st.selected[KeyOf(g, from)] == from;
  }

  lemma AbsorbOnlyOlder(g: Catalog, st: State, from: CommitId, d: CommitId)
    requires d < from
    ensures OnlyOlderSelected(st, Absorb(g, st, from, d), from)
  {
  }

  lemma OlderTransitive(a: State, b: State, c: State, below: CommitId, bound: CommitId)
    requires OnlyOlderSelected(a, b, bound) && OnlyOlderSelected(b, c, below) && below <= bound
    ensures OnlyOlderSelected(a, c, bound)
  {
  }

  lemma AfterDepKeepsOwn(g: Catalog, from: CommitId, d: CommitId, st: State)
    requires Descending(g) && Consistent(g, st) && from in st.listed && from in st.expanded
    requires Resolves(g, d) && d < from
    ensures OnlyOlderSelected(st, AfterDep(g, from, d, st), from)
    ensures from in AfterDep(g, from, d, st).listed && from in AfterDep(g, from, d, st).expanded
    ensures from in Absorb(g, st, from, d).listed
    ensures KeyOf(g, d) in st.selected || AppendsBelow(g, d, st, Absorb(g, st, from, d))
    decreases Unselected(g, st), 0, 0
  {
    var st', next := Absorb(g, st, from, d), AfterDep(g, from, d, st);
    AbsorbConsistent(g, st, from, d);
    AbsorbOnlyOlder(g, st, from, d);
    StillListed(g, st, st', from);
    AfterDepConsistent(g, from, d, st);
    if KeyOf(g, d) !in st.selected {
      KeyInKeys(g, d);
      UnselectedShrinks(g, st, st');
      assert d in st'.listed;
      hide Consistent, EdgesFollow, ListedIsSelected, Chosen, ExpandedBelow, Grows, OnlyOlderSelected, Absorb, Visit;
      VisitKeepsOwn(g, d, st');
      OlderTransitive(st, st', next, d, from);
      KeepListed(g, st, next, from);
    }
  }

  lemma KeepListed(g: Catalog, st: State, st': State, from: CommitId)
    requires Consistent(g, st) && Consistent(g, st') && from in st.listed && OnlyOlderSelected(st, st', from)
    requires Grows(g, st, st')
    ensures from in st'.listed
  {
    StillListed(g, st, st', from);
  }

  lemma VisitDepsKeepOwn(g: Catalog, from: CommitId, deps: seq<CommitId>, st: State)
    requires Descending(g) && Consistent(g, st) && from in st.listed && from in st.expanded
    requires forall d :: d in deps ==> Resolves(g, d) && d < from
    ensures OnlyOlderSelected(st, VisitDeps(g, from, deps, st), from) && from in VisitDeps(g, from, deps, st).listed
    ensures AppendsFromListed(g, from, deps, st)
    decreases Unselected(g, st), 0, |deps|
  {
    hide Consistent, Grows, OnlyOlderSelected, Absorb, AfterDep, AppendsBelow, Descending, KeyOf, Unselected,
      AppendsFromListed;
    NothingSelected(st, from);
    if deps == [] {
      NoAppends(g, from, st);
    } else {
      var next := AfterDep(g, from, deps[0], st);
      AfterDepConsistent(g, from, deps[0], st);
      AfterDepKeepsOwn(g, from, deps[0], st);
      UnselectedShrinks(g, st, next);
      forall d | d in deps[1..]
        ensures Resolves(g, d) && d < from
      {
        assert d in deps;
      }
      VisitDepsKeepOwn(g, from, deps[1..], next);
      OlderTransitive(st, next, VisitDeps(g, from, deps, st), from, from);
      AppendsStep(g, from, deps, st);
    }
  }

  lemma NoAppends(g: Catalog, from: CommitId, st: State)
    ensures AppendsFromListed(g, from, [], st)
  {
  }

  lemma AppendsStep(g: Catalog, from: CommitId, deps: seq<CommitId>, st: State)
    requires deps != [] && (forall d :: d in deps ==> Resolves(g, d)) && from in st.listed
    requires from in Absorb(g, st, from, deps[0]).listed
    requires KeyOf(g, deps[0]) in st.selected || AppendsBelow(g, deps[0], st, Absorb(g, st, from, deps[0]))
    requires AppendsFromListed(g, from, deps[1..], AfterDep(g, from, deps[0], st))
    ensures AppendsFromListed(g, from, deps, st)
  {
  }

  lemma NothingSelected(st: State, bound: CommitId)
    ensures OnlyOlderSelected(st, st, bound)
  {
  }

  // From requested position `i` on, every edge is appended from a commit listed at that moment, and the
  // commit whose subtree was walked is still listed when that walk ends.
  ghost predicate OwnSelectionKept(g: Catalog, n: nat, i: nat, st: State)
    requires i <= n <= |st.listed|
    decreases n - i
  {
    i < n ==>
      var id := st.listed[i];
      && AppendsFromListed(g, id, LocalDeps(g, id), st.(expanded := st.expanded + [id]))
      && id in Visit(g, id, st).listed
      && OwnSelectionKept(g, n, i + 1, Visit(g, id, st))
  }

  lemma RootsKeepOwn(g: Catalog, n: nat, i: nat, st: State)
    requires i <= n <= |st.listed| && Consistent(g, st) && Descending(g)
    ensures OwnSelectionKept(g, n, i, st)
    decreases n - i
  {
    if i < n {
      ListedMayExpand(g, st, i);
      VisitConsistent(g, st.listed[i], st);
      VisitKeepsOwn(g, st.listed[i], st);
      hide Consistent, Grows, AppendsFromListed, Visit, Descending;
      RootsKeepOwn(g, n, i + 1, Visit(g, st.listed[i], st));
    }
  }

  lemma ListedMayExpand(g: Catalog, st: State, i: nat)
    requires i < |st.listed| && ListedIsSelected(g, st)
    ensures MayExpand(g, st, st.listed[i])
  {
  }

  // The whole run, on a store whose dependencies are older than their dependents.
  lemma ResolveKeepsOwn(g: Catalog, roots: seq<CommitId>)
    requires AllResolve(g, roots) && DistinctModules(g, roots) && Descending(g)
    ensures OwnSelectionKept(g, |roots|, 0, Start(g, roots))
  {
    StartConsistent(g, roots);
    RootsKeepOwn(g, |roots|, 0, Start(g, roots));
  }
}
