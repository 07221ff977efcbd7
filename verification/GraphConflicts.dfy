/** Version conflicts in the resolved dependency graph (internal/service/graph.go): which commits win,
    which edges there are, when the graph has a cycle, and when it loses dependencies. */
module GraphConflicts {
  import opened Docstore
  import opened Graph
  import opened GraphTheorems

  // ----- What conflicts cost -----

  // `c` loses to a newer version of its module.
  ghost predicate Superseded(g: Catalog, roots: seq<CommitId>, st: State, c: CommitId) {
    exists d: CommitId :: Considered(g, roots, st, d) && KeyOf(g, d) == KeyOf(g, c) && c < d
  }

  lemma ExpandedConsidered(g: Catalog, roots: seq<CommitId>, c: CommitId)
    requires AllResolve(g, roots) && DistinctModules(g, roots) && c in Resolve(g, roots).expanded
    ensures var st := Resolve(g, roots); c in st.listed <==> !Superseded(g, roots, st, c)
  {
    var st := Resolve(g, roots);
    ResolveConsistent(g, roots);
    hide Resolve, Founded, ExpandedOnce, Grows, EdgesFollow, Considered, KeyOf, AllResolve, DistinctModules;
    var k := KeyOf(g, c);
    assert k in st.selected && c <= st.selected[k] && KeyOf(g, st.selected[k]) == k;
    assert c in st.listed <==> c == st.selected[k];
    SelectedConsidered(g, roots, k);
    if Superseded(g, roots, st, c) {
      var d: CommitId :| Considered(g, roots, st, d) && KeyOf(g, d) == k && c < d;
      ConsideredBelow(g, roots, d);
    }
  }

  lemma EdgeSources(g: Catalog, roots: seq<CommitId>, c: CommitId)
    requires AllResolve(g, roots) && DistinctModules(g, roots)
    ensures var st := Resolve(g, roots);
      (exists i :: 0 <= i < |st.edges| && st.edges[i].from == c) <==> c in st.expanded && LocalDeps(g, c) != []
  {
    var st := Resolve(g, roots);
    ResolveConsistent(g, roots);
    hide Resolve, Founded, ExpandedOnce, Grows, Chosen, ListedIsSelected, ExpandedBelow, EdgesFollow, LocalDeps,
      AllResolve, DistinctModules;
    SourcesMet(g, st, c);
    forall e | e in st.met
      ensures e.from in st.expanded && e.to in LocalDeps(g, e.from)
    {
      MetMember(g, roots, e);
    }
    if c in st.expanded && LocalDeps(g, c) != [] {
      MetMember(g, roots, Edge(c, LocalDeps(g, c)[0]));
    }
  }

  // An edge starts where the stored dependency that it follows starts.
  lemma SourcesMet(g: Catalog, st: State, c: CommitId)
    requires EdgesFollow(g, st)
    ensures (exists i :: 0 <= i < |st.edges| && st.edges[i].from == c) <==> (exists e :: e in st.met && e.from == c)
  {
    hide KeyOf, Resolves;
    forall i | 0 <= i < |st.met|
      ensures st.edges[i].from == st.met[i].from && st.met[i] in st.met
    {
      assert EdgeFollows(g, st, st.met[i], st.edges[i]);
    }
    if e :| e in st.met && e.from == c {
      var i :| 0 <= i < |st.met| && st.met[i] == e;
      assert st.edges[i].from == c;
    }
  }

  // Only the ends of edges are redirected: all edges start at listed commits exactly when no expanded
  // commit that has dependencies lost to a newer version of its module.
  lemma EdgesStartListed(g: Catalog, roots: seq<CommitId>)
    requires AllResolve(g, roots) && DistinctModules(g, roots)
    ensures
      var st := Resolve(g, roots);
      (forall i :: 0 <= i < |st.edges| ==> st.edges[i].from in st.listed) <==>
      (forall c :: c in st.expanded && LocalDeps(g, c) != [] ==> !Superseded(g, roots, st, c))
  {
    var st := Resolve(g, roots);
    hide Resolve, Superseded, LocalDeps;
    forall c | c in st.expanded
      ensures c in st.listed <==> !Superseded(g, roots, st, c)
    {
      ExpandedConsidered(g, roots, c);
    }
    forall c
      ensures (exists i :: 0 <= i < |st.edges| && st.edges[i].from == c) <==> c in st.expanded && LocalDeps(g, c) != []
    {
      EdgeSources(g, roots, c);
    }
    if forall i :: 0 <= i < |st.edges| ==> st.edges[i].from in st.listed {
      forall c | c in st.expanded && LocalDeps(g, c) != []
        ensures !Superseded(g, roots, st, c)
      {
        var i :| 0 <= i < |st.edges| && st.edges[i].from == c;
      }
    }
  }

  // ----- What the edges mean -----

  // The version of its module that wins: considered, and no considered version is newer.
  ghost predicate Newest(g: Catalog, roots: seq<CommitId>, st: State, c: CommitId) {
    Considered(g, roots, st, c) && forall d: CommitId :: Considered(g, roots, st, d) && KeyOf(g, d) == KeyOf(g, c) ==>
      d <= c
  }

  // `a` was expanded and depends on some version of the module that `b` wins.
  ghost predicate LeadsTo(g: Catalog, roots: seq<CommitId>, st: State, a: CommitId, b: CommitId) {
    a in st.expanded && Newest(g, roots, st, b) && NeedsModule(g, a, KeyOf(g, b))
  }

  ghost predicate NeedsModule(g: Catalog, a: CommitId, key: string) {
    exists d :: d in LocalDeps(g, a) && KeyOf(g, d) == key
  }

  lemma ListedIsNewest(g: Catalog, roots: seq<CommitId>, c: CommitId)
    requires AllResolve(g, roots) && DistinctModules(g, roots)
    ensures var st := Resolve(g, roots); c in st.listed <==> Newest(g, roots, st, c)
  {
    hide Considered, KeyOf, Resolve, AllResolve, DistinctModules;
    NewestWins(g, roots, c);
  }

  // With or without conflicts, there is an edge from one commit to another if and only if the first was
  // expanded and needs the module that the second wins.
  lemma EdgeMeaning(g: Catalog, roots: seq<CommitId>, a: CommitId, b: CommitId)
    requires AllResolve(g, roots) && DistinctModules(g, roots)
    ensures var st := Resolve(g, roots); Edge(a, b) in st.edges <==> LeadsTo(g, roots, st, a, b)
  {
    var st := Resolve(g, roots);
    ResolveConsistent(g, roots);
    hide Resolve, Founded, ExpandedOnce, Grows, EdgesFollow, ListedIsSelected, Chosen, Newest, AllResolve,
      DistinctModules, KeyOf, LocalDeps;
    ListedIsNewest(g, roots, b);
    ListedWhenSelected(g, st, b);
    EdgeFromMet(g, st, a, b);
    forall d
      ensures Edge(a, d) in st.met <==> a in st.expanded && d in LocalDeps(g, a)
    {
      MetMember(g, roots, Edge(a, d));
    }
  }

  lemma EdgeFromMet(g: Catalog, st: State, a: CommitId, b: CommitId)
    requires EdgesFollow(g, st) && Chosen(g, st)
    ensures Edge(a, b) in st.edges <==>
      exists d :: Edge(a, d) in st.met && KeyOf(g, d) == KeyOf(g, b) && KeyOf(g, d) in st.selected
        && st.selected[KeyOf(g, d)] == b
  {
    hide KeyOf, Resolves;
    if Edge(a, b) in st.edges {
      var i :| 0 <= i < |st.edges| && st.edges[i] == Edge(a, b);
      assert EdgeFollows(g, st, st.met[i], st.edges[i]);
      assert st.met[i] == Edge(a, st.met[i].to) && st.met[i] in st.met;
    }
    if d :|
        Edge(a, d) in st.met && KeyOf(g, d) == KeyOf(g, b)
        && KeyOf(g, d) in st.selected && st.selected[KeyOf(g, d)] == b
    {
      var i :| 0 <= i < |st.met| && st.met[i] == Edge(a, d);
      assert EdgeFollows(g, st, st.met[i], st.edges[i]);
    }
  }

  // ----- Cycles -----

  // A cyclic sequence of expanded winners, each of a module that the one before it needs.
  ghost predicate IsDependencyCycle(g: Catalog, roots: seq<CommitId>, st: State, p: seq<CommitId>) {
    |p| > 1 && p[0] == p[|p| - 1] && forall i :: 0 <= i < |p| - 1 ==> LeadsTo(g, roots, st, p[i], p[i + 1])
  }

  // The resolved graph has a cycle exactly when there is a cycle of winning commits that were themselves
  // expanded; an expanded commit that was superseded is on none, because no edge leads to it.
  lemma CyclicExactly(g: Catalog, roots: seq<CommitId>)
    requires AllResolve(g, roots) && DistinctModules(g, roots)
    ensures var st := Resolve(g, roots); !Acyclic(st.edges) <==> exists p :: IsDependencyCycle(g, roots, st, p)
  {
    var st := Resolve(g, roots);
    hide Resolve, LeadsTo, AllResolve, DistinctModules;
    forall a, b
      ensures Edge(a, b) in st.edges <==> LeadsTo(g, roots, st, a, b)
    {
      EdgeMeaning(g, roots, a, b);
    }
    if !Acyclic(st.edges) {
      var p :| IsEdgePath(st.edges, p) && p[0] == p[|p| - 1];
      assert IsDependencyCycle(g, roots, st, p);
    }
    if p :| IsDependencyCycle(g, roots, st, p) {
      assert IsEdgePath(st.edges, p);
    }
  }

  // Every commit on such a cycle is a winner: expanded, listed, and not superseded.
  lemma OnCycleNotSuperseded(g: Catalog, roots: seq<CommitId>, p: seq<CommitId>, i: nat)
    requires AllResolve(g, roots) && DistinctModules(g, roots)
    requires IsDependencyCycle(g, roots, Resolve(g, roots), p) && i < |p|
    ensures var st := Resolve(g, roots); p[i] in st.expanded && p[i] in st.listed && !Superseded(g, roots, st, p[i])
  {
    var st := Resolve(g, roots);
    hide Resolve, Newest, NeedsModule, AllResolve, DistinctModules, Superseded;
    var last := |p| - 1;
    var j := if i == 0 then last - 1 else i - 1;
    assert LeadsTo(g, roots, st, p[j], p[j + 1]);
    var k := if i == last then 0 else i;
    assert LeadsTo(g, roots, st, p[k], p[k + 1]);
    ListedIsNewest(g, roots, p[i]);
    ExpandedConsidered(g, roots, p[i]);
  }

  // Some commit below the request of module `k` depends on some commit of module `k'`.
  ghost predicate ModuleNeeds(g: Catalog, roots: seq<CommitId>, k: string, k': string) {
    exists c, d :: Reachable(g, roots, c) && d in LocalDeps(g, c) && KeyOf(g, c) == k && KeyOf(g, d) == k'
  }

  ghost predicate IsModuleCycle(g: Catalog, roots: seq<CommitId>, p: seq<string>) {
    |p| > 1 && p[0] == p[|p| - 1] && forall i :: 0 <= i < |p| - 1 ==> ModuleNeeds(g, roots, p[i], p[i + 1])
  }

  function KeysOf(g: Catalog, p: seq<CommitId>): (r: seq<string>)
    ensures |r| == |p| && forall i :: 0 <= i < |r| ==> r[i] == KeyOf(g, p[i])
  {
    seq(|p|, i requires 0 <= i < |p| => KeyOf(g, p[i]))
  }

  lemma EdgeIsModuleNeed(g: Catalog, roots: seq<CommitId>, a: CommitId, b: CommitId)
    requires AllResolve(g, roots) && DistinctModules(g, roots) && Edge(a, b) in Resolve(g, roots).edges
    ensures ModuleNeeds(g, roots, KeyOf(g, a), KeyOf(g, b))
  {
    ResolveConsistent(g, roots);
    EdgeMeaning(g, roots, a, b);
    hide Resolve, Consistent, ExpandedOnce, Grows, Reachable, KeyOf, LocalDeps, Newest;
  }

  /** Conflicts or not, and whatever the ids are: when the modules below the request, all their reachable
      versions taken together, do not depend on each other in a circle, the resolved graph has no cycle. */
  lemma AcyclicModules(g: Catalog, roots: seq<CommitId>)
    requires AllResolve(g, roots) && DistinctModules(g, roots) && forall p :: !IsModuleCycle(g, roots, p)
    ensures Acyclic(Resolve(g, roots).edges)
  {
    var edges := Resolve(g, roots).edges;
    hide Resolve, ModuleNeeds, AllResolve, DistinctModules, KeyOf;
    if p :| IsEdgePath(edges, p) && p[0] == p[|p| - 1] {
      forall i | 0 <= i < |p| - 1
        ensures ModuleNeeds(g, roots, KeyOf(g, p[i]), KeyOf(g, p[i + 1]))
      {
        EdgeIsModuleNeed(g, roots, p[i], p[i + 1]);
      }
      assert IsModuleCycle(g, roots, KeysOf(g, p));
    }
  }

  // Modules that can be layered so that dependencies only go down do not depend on each other in a circle.
  ghost predicate Layered(g: Catalog, roots: seq<CommitId>, rank: string -> int) {
    forall c, d :: Reachable(g, roots, c) && d in LocalDeps(g, c) ==> rank(KeyOf(g, d)) < rank(KeyOf(g, c))
  }

  lemma {:induction false} LayeredPath(g: Catalog, roots: seq<CommitId>, rank: string -> int, p: seq<string>)
    requires Layered(g, roots, rank) && |p| > 1
    requires forall i :: 0 <= i < |p| - 1 ==> ModuleNeeds(g, roots, p[i], p[i + 1])
    ensures rank(p[|p| - 1]) < rank(p[0])
    decreases |p|
  {
    hide Reachable, LocalDeps, KeyOf;
    assert ModuleNeeds(g, roots, p[|p| - 2], p[|p| - 2 + 1]);
    if |p| > 2 {
      LayeredPath(g, roots, rank, p[..|p| - 1]);
    }
  }

  lemma AcyclicLayered(g: Catalog, roots: seq<CommitId>, rank: string -> int)
    requires AllResolve(g, roots) && DistinctModules(g, roots) && Layered(g, roots, rank)
    ensures Acyclic(Resolve(g, roots).edges)
  {
    hide Layered, ModuleNeeds, Acyclic, Resolve, AllResolve, DistinctModules;
    forall p
      ensures !IsModuleCycle(g, roots, p)
    {
      if IsModuleCycle(g, roots, p) {
        LayeredPath(g, roots, rank, p);
      }
    }
    AcyclicModules(g, roots);
  }

  // ----- Lost dependencies -----

  // Dependency `d` of listed commit `c` is in the answer: some listed version of its module, and an edge to it.
  ghost predicate Answered(g: Catalog, st: State, c: CommitId, d: CommitId) {
    exists b :: b in st.listed && KeyOf(g, b) == KeyOf(g, d) && Edge(c, b) in st.edges
  }

  // Each stored dependency of each listed commit is in the answer.
  ghost predicate DependenciesKept(g: Catalog, st: State) {
    forall c, d :: c in st.listed && d in LocalDeps(g, c) ==> Answered(g, st, c, d)
  }

  lemma AnsweredWhenExpanded(g: Catalog, roots: seq<CommitId>, c: CommitId, d: CommitId)
    requires AllResolve(g, roots) && DistinctModules(g, roots) && d in LocalDeps(g, c)
    ensures var st := Resolve(g, roots); Answered(g, st, c, d) <==> c in st.expanded
  {
    var st := Resolve(g, roots);
    ResolveConsistent(g, roots);
    hide Resolve, Founded, ExpandedOnce, Grows, EdgesFollow, Newest, AllResolve, DistinctModules, KeyOf, LocalDeps;
    if c in st.expanded {
      MetMember(g, roots, Edge(c, d));
      MetBelow(g, st, Edge(c, d));
      var b := st.selected[KeyOf(g, d)];
      ListedIsNewest(g, roots, b);
      EdgeMeaning(g, roots, c, b);
    }
    if Answered(g, st, c, d) {
      var b :| b in st.listed && KeyOf(g, b) == KeyOf(g, d) && Edge(c, b) in st.edges;
      EdgeMeaning(g, roots, c, b);
    }
  }

  // The answer keeps all dependencies exactly when every listed commit that has any was expanded.
  lemma KeptWhenExpanded(g: Catalog, roots: seq<CommitId>)
    requires AllResolve(g, roots) && DistinctModules(g, roots)
    ensures
      var st := Resolve(g, roots);
      DependenciesKept(g, st) <==> forall c :: c in st.listed && LocalDeps(g, c) != [] ==> c in st.expanded
  {
    var st := Resolve(g, roots);
    hide Resolve, Answered, LocalDeps, AllResolve, DistinctModules;
    forall c, d | d in LocalDeps(g, c)
      ensures Answered(g, st, c, d) <==> c in st.expanded
    {
      AnsweredWhenExpanded(g, roots, c, d);
    }
    if DependenciesKept(g, st) {
      forall c | c in st.listed && LocalDeps(g, c) != []
        ensures c in st.expanded
      {
        assert LocalDeps(g, c)[0] in LocalDeps(g, c);
        assert Answered(g, st, c, LocalDeps(g, c)[0]);
      }
    }
  }

  // The winner `c` came after its module had been expanded with the older version `e`.
  ghost predicate Overtakes(g: Catalog, roots: seq<CommitId>, st: State, c: CommitId, e: CommitId) {
    Newest(g, roots, st, c) && e in st.expanded && KeyOf(g, e) == KeyOf(g, c) && e < c
  }

  lemma ExpandedOrOvertaking(g: Catalog, roots: seq<CommitId>, c: CommitId)
    requires AllResolve(g, roots) && DistinctModules(g, roots) && c in Resolve(g, roots).listed
    ensures var st := Resolve(g, roots); c !in st.expanded <==> exists e :: Overtakes(g, roots, st, c, e)
  {
    hide Resolve, Consistent, ExpandedOnce, Founded, Grows, Newest, AllResolve, DistinctModules, KeyOf;
    ListedIsNewest(g, roots, c);
    var e := ExpandedVersion(g, roots, c);
    if c !in Resolve(g, roots).expanded {
      assert Overtakes(g, roots, Resolve(g, roots), c, e);
    }
  }

  // The version of a listed commit's module that was expanded: the commit itself or an older one.
  lemma ExpandedVersion(g: Catalog, roots: seq<CommitId>, c: CommitId) returns (e: CommitId)
    requires AllResolve(g, roots) && DistinctModules(g, roots) && c in Resolve(g, roots).listed
    ensures var st := Resolve(g, roots);
      && e in st.expanded && KeyOf(g, e) == KeyOf(g, c) && e <= c && (c in st.expanded <==> e == c)
      && forall x :: x in st.expanded && KeyOf(g, x) == KeyOf(g, c) ==> x == e
  {
    ResolveConsistent(g, roots);
    hide Resolve, ExpandedOnce, Founded, Grows, Chosen, EdgesFollow, ListedIsSelected, ExpandedBelow, AllResolve,
      DistinctModules, KeyOf;
    e := ExpandedForKey(g, Resolve(g, roots), c);
    SameKeySameCommit(g, Resolve(g, roots), c, e);
  }

  lemma ExpandedForKey(g: Catalog, st: State, c: CommitId) returns (e: CommitId)
    requires ListedIsSelected(g, st) && ExpandedKeys(g, st) == st.selected.Keys && c in st.listed
    ensures e in st.expanded && KeyOf(g, e) == KeyOf(g, c)
  {
    hide KeyOf;
    assert KeyOf(g, c) in ExpandedKeys(g, st);
    e :| e in st.expanded && KeyOf(g, e) == KeyOf(g, c);
  }

  // Of one module only one commit is expanded, and it is no newer than the selected one.
  lemma SameKeySameCommit(g: Catalog, st: State, c: CommitId, e: CommitId)
    requires ExpandedOnce(g, st) && ListedIsSelected(g, st) && ExpandedBelow(g, st)
    requires c in st.listed && e in st.expanded && KeyOf(g, e) == KeyOf(g, c)
    ensures e <= c && (c in st.expanded <==> e == c)
    ensures forall x :: x in st.expanded && KeyOf(g, x) == KeyOf(g, c) ==> x == e
  {
    hide KeyOf;
    forall x | x in st.expanded && KeyOf(g, x) == KeyOf(g, c)
      ensures x == e
    {
      var i :| 0 <= i < |st.expanded| && st.expanded[i] == x;
      var j :| 0 <= j < |st.expanded| && st.expanded[j] == e;
      assert i == j;
    }
  }

  /** The answer loses dependencies exactly when a newer version of a module that was already expanded
      wins and has dependencies: it is listed, but the version before it was expanded in its place. */
  lemma DependenciesLost(g: Catalog, roots: seq<CommitId>)
    requires AllResolve(g, roots) && DistinctModules(g, roots)
    ensures
      var st := Resolve(g, roots);
      DependenciesKept(g, st) <==> forall c, e :: Overtakes(g, roots, st, c, e) ==> LocalDeps(g, c) == []
  {
    var st := Resolve(g, roots);
    KeptWhenExpanded(g, roots);
    hide Resolve, DependenciesKept, Overtakes, LocalDeps, AllResolve, DistinctModules;
    forall c | c in st.listed
      ensures c !in st.expanded <==> exists e :: Overtakes(g, roots, st, c, e)
    {
      ExpandedOrOvertaking(g, roots, c);
    }
    forall c, e | Overtakes(g, roots, st, c, e)
      ensures c in st.listed
    {
      OvertakingListed(g, roots, c, e);
    }
  }

  lemma OvertakingListed(g: Catalog, roots: seq<CommitId>, c: CommitId, e: CommitId)
    requires AllResolve(g, roots) && DistinctModules(g, roots) && Overtakes(g, roots, Resolve(g, roots), c, e)
    ensures c in Resolve(g, roots).listed
  {
    hide Resolve, Newest, AllResolve, DistinctModules, KeyOf;
    ListedIsNewest(g, roots, c);
  }

  // Every listed commit was expanded exactly when no expanded commit was superseded.
  lemma ListedAllExpanded(g: Catalog, roots: seq<CommitId>)
    requires AllResolve(g, roots) && DistinctModules(g, roots)
    ensures
      var st := Resolve(g, roots);
      (forall c :: c in st.listed ==> c in st.expanded) <==>
        (forall c :: c in st.expanded ==> !Superseded(g, roots, st, c))
  {
    var st := Resolve(g, roots);
    hide Resolve, Superseded, AllResolve, DistinctModules, KeyOf;
    forall c | c in st.expanded
      ensures c in st.listed <==> !Superseded(g, roots, st, c)
    {
      ExpandedConsidered(g, roots, c);
    }
    if forall c :: c in st.listed ==> c in st.expanded {
      forall c | c in st.expanded
        ensures c in st.listed
      {
        var w := ListedVersion(g, roots, c);
        var e := ExpandedVersion(g, roots, w);
      }
    }
    if forall c :: c in st.expanded ==> c in st.listed {
      forall c | c in st.listed
        ensures c in st.expanded
      {
        var e := ExpandedVersion(g, roots, c);
        SameListed(g, roots, c, e);
      }
    }
  }

  // The winner of the module of an expanded commit.
  lemma ListedVersion(g: Catalog, roots: seq<CommitId>, c: CommitId) returns (w: CommitId)
    requires AllResolve(g, roots) && DistinctModules(g, roots) && c in Resolve(g, roots).expanded
    ensures w in Resolve(g, roots).listed && KeyOf(g, w) == KeyOf(g, c)
  {
    ResolveConsistent(g, roots);
    hide Resolve, ExpandedOnce, Founded, Grows, EdgesFollow, AllResolve, DistinctModules, KeyOf;
    w := Resolve(g, roots).selected[KeyOf(g, c)];
  }

  lemma SameListed(g: Catalog, roots: seq<CommitId>, c: CommitId, e: CommitId)
    requires AllResolve(g, roots) && DistinctModules(g, roots)
    requires c in Resolve(g, roots).listed && e in Resolve(g, roots).listed && KeyOf(g, c) == KeyOf(g, e)
    ensures c == e
  {
    ResolveConsistent(g, roots);
    hide Resolve, ExpandedOnce, Founded, Grows, EdgesFollow, AllResolve, DistinctModules, KeyOf;
  }

  // ----- Concrete conflicts -----

  // A module A whose second commit depends on module B, whose newer version in turn depends on A.
  const CYCLIC := Catalog(map[0 := "o/b", 1 := "o/a", 2 := "o/b"], map[0 := [], 1 := [0], 2 := [1]])

  // With a conflict the resolved graph can have a cycle although every stored dependency is older
  // than its dependent: the edge of commit 1 to commit 0 now ends at commit 2.
  lemma ConflictMakesCycle()
    ensures Descending(CYCLIC) && AllResolve(CYCLIC, [1, 2]) && DistinctModules(CYCLIC, [1, 2])
    ensures Resolve(CYCLIC, [1, 2]).edges == [Edge(1, 2), Edge(2, 1)]
    ensures !Acyclic(Resolve(CYCLIC, [1, 2]).edges)
  {
    CyclicDeps();
    var one, two := CyclicFirst(), CyclicSecond();
    CyclicSteps();
    hide Visit, Resolve;
    TwoRoots(CYCLIC, [1, 2], one, two);
    assert IsEdgePath(two.edges, [1, 2, 1]);
  }

  function CyclicFirst(): State {
    State(map["o/a" := 1, "o/b" := 2], [1, 2], [Edge(1, 2)], [1], [Edge(1, 0)])
  }

  function CyclicSecond(): State {
    State(map["o/a" := 1, "o/b" := 2], [1, 2], [Edge(1, 2), Edge(2, 1)], [1, 2], [Edge(1, 0), Edge(2, 1)])
  }

  lemma CyclicSteps()
    ensures Visit(CYCLIC, 1, Start(CYCLIC, [1, 2])) == CyclicFirst()
    ensures Visit(CYCLIC, 2, CyclicFirst()) == CyclicSecond()
  {
    CyclicDeps();
    CyclicStart();
    hide Visit;
    VisitSingle(CYCLIC, 1, 0, Start(CYCLIC, [1, 2]));
    VisitSingle(CYCLIC, 2, 1, CyclicFirst());
  }

  lemma CyclicStart()
    ensures StartSelection(CYCLIC, [1, 2]) == map["o/a" := 1, "o/b" := 2]
  {
    var roots := [1, 2];
    assert roots[..1] == [1] && [1][..0] == [];
    assert StartSelection(CYCLIC, [1]) == StartSelection(CYCLIC, [])["o/a" := 1];
  }

  lemma TwoRoots(g: Catalog, roots: seq<CommitId>, one: State, two: State)
    requires |roots| == 2 && one == Visit(g, roots[0], Start(g, roots)) && |one.listed| >= 2
    requires two == Visit(g, one.listed[1], one)
    ensures Resolve(g, roots) == two
  {
    hide Visit;
    assert VisitRoots(g, 2, 1, one) == VisitRoots(g, 2, 2, two);
  }

  lemma VisitSingle(g: Catalog, id: CommitId, d: CommitId, st: State)
    requires LocalDeps(g, id) == [d] && KeyOf(g, d) in st.selected
    ensures Visit(g, id, st) == Absorb(g, st.(expanded := st.expanded + [id]), id, d)
  {
    var deps, st' := LocalDeps(g, id), st.(expanded := st.expanded + [id]);
    var next := AfterDep(g, id, d, st');
    assert next == Absorb(g, st', id, d);
    assert deps[0] == d && deps[1..] == [];
    assert VisitDeps(g, id, deps, st') == VisitDeps(g, id, deps[1..], next);
  }

  lemma CyclicDeps()
    ensures LocalDeps(CYCLIC, 1) == [0] && LocalDeps(CYCLIC, 2) == [1]
    ensures forall c :: c != 1 && c != 2 ==> LocalDeps(CYCLIC, c) == []
  {
  }

  lemma VisitLeaf(g: Catalog, id: CommitId, st: State)
    requires LocalDeps(g, id) == []
    ensures Visit(g, id, st) == st.(expanded := st.expanded + [id])
  {
  }

  lemma VisitNew(g: Catalog, id: CommitId, d: CommitId, st: State)
    requires LocalDeps(g, id) == [d] && KeyOf(g, d) !in st.selected
    ensures Visit(g, id, st) == Visit(g, d, Absorb(g, st.(expanded := st.expanded + [id]), id, d))
  {
    var deps, st' := LocalDeps(g, id), st.(expanded := st.expanded + [id]);
    var next := AfterDep(g, id, d, st');
    assert deps[0] == d && deps[1..] == [];
    assert VisitDeps(g, id, deps, st') == VisitDeps(g, id, deps[1..], next);
  }

  // Modules x and y need versions 1 and 3 of b; the older one depends on d, the newer one on c.
  const OVERTAKEN := Catalog(
    map[0 := "o/d", 1 := "o/b", 2 := "o/c", 3 := "o/b", 4 := "o/x", 5 := "o/y"],
    map[0 := [], 1 := [0], 2 := [], 3 := [2], 4 := [1], 5 := [3]])

  function OvertakenEnd(): State {
    State(map["o/x" := 4, "o/y" := 5, "o/b" := 3, "o/d" := 0], [4, 5, 3, 0], [Edge(4, 3), Edge(1, 0), Edge(5, 3)],
      [4, 1, 0, 5], [Edge(4, 1), Edge(1, 0), Edge(5, 3)])
  }

  function OvertakenFirst(): State {
    State(map["o/x" := 4, "o/y" := 5, "o/b" := 1, "o/d" := 0], [4, 5, 1, 0], [Edge(4, 1), Edge(1, 0)],
      [4, 1, 0], [Edge(4, 1), Edge(1, 0)])
  }

  lemma OvertakenDeps()
    ensures LocalDeps(OVERTAKEN, 4) == [1] && LocalDeps(OVERTAKEN, 1) == [0] && LocalDeps(OVERTAKEN, 0) == []
    ensures LocalDeps(OVERTAKEN, 5) == [3] && LocalDeps(OVERTAKEN, 3) == [2] && LocalDeps(OVERTAKEN, 2) == []
    ensures forall c :: c !in OVERTAKEN.deps ==> LocalDeps(OVERTAKEN, c) == []
  {
  }

  lemma OvertakenStart()
    ensures StartSelection(OVERTAKEN, [4, 5]) == map["o/x" := 4, "o/y" := 5]
  {
    var roots := [4, 5];
    assert roots[..1] == [4] && [4][..0] == [];
    assert StartSelection(OVERTAKEN, [4]) == StartSelection(OVERTAKEN, [])["o/x" := 4];
  }

  lemma OvertakenSteps()
    ensures Visit(OVERTAKEN, 4, Start(OVERTAKEN, [4, 5])) == OvertakenFirst()
    ensures Visit(OVERTAKEN, 5, OvertakenFirst()) == OvertakenEnd()
  {
    OvertakenDeps();
    OvertakenStart();
    hide Visit, LocalDeps, Absorb;
    var start := Start(OVERTAKEN, [4, 5]);
    OvertakenAbsorbs(start);
    VisitNew(OVERTAKEN, 4, 1, start);
    VisitNew(OVERTAKEN, 1, 0, OvertakenOne());
    VisitLeaf(OVERTAKEN, 0, OvertakenTwo());
    VisitSingle(OVERTAKEN, 5, 3, OvertakenFirst());
    OvertakenLast();
  }

  function OvertakenOne(): State {
    State(map["o/x" := 4, "o/y" := 5, "o/b" := 1], [4, 5, 1], [Edge(4, 1)], [4], [Edge(4, 1)])
  }

  function OvertakenTwo(): State {
    OvertakenFirst().(expanded := [4, 1])
  }

  lemma OvertakenAbsorbs(start: State)
    requires start == State(map["o/x" := 4, "o/y" := 5], [4, 5], [], [], [])
    ensures Absorb(OVERTAKEN, start.(expanded := start.expanded + [4]), 4, 1) == OvertakenOne()
    ensures Absorb(OVERTAKEN, OvertakenOne().(expanded := OvertakenOne().expanded + [1]), 1, 0) == OvertakenTwo()
  {
  }

  lemma OvertakenLast()
    ensures Absorb(OVERTAKEN, OvertakenFirst().(expanded := OvertakenFirst().expanded + [5]), 5, 3) == OvertakenEnd()
  {
    ReplaceFirstAtTwo();
    hide ReplaceFirst;
  }

  lemma ReplaceFirstAtTwo()
    ensures ReplaceFirst([4, 5, 1, 0], 1, 3) == [4, 5, 3, 0]
  {
    assert [4, 5, 1, 0][1..] == [5, 1, 0] && [5, 1, 0][1..] == [1, 0] && [1, 0][1..] == [0];
    assert ReplaceFirst([1, 0], 1, 3) == [3, 0];
    assert ReplaceFirst([5, 1, 0], 1, 3) == [5, 3, 0];
  }

  /** The answer to a request for x and y lists version 3 of b but not the module c that it depends on,
      and has an edge from version 1 of b, which is not listed - although every stored dependency is
      older than its dependent. */
  lemma ConflictLosesDependency()
    ensures Descending(OVERTAKEN) && AllResolve(OVERTAKEN, [4, 5]) && DistinctModules(OVERTAKEN, [4, 5])
    ensures
      var st := Resolve(OVERTAKEN, [4, 5]);
      && st.listed == [4, 5, 3, 0] && st.edges == [Edge(4, 3), Edge(1, 0), Edge(5, 3)]
      && LocalDeps(OVERTAKEN, 3) == [2] && !DependenciesKept(OVERTAKEN, st)
      && (forall c :: c in st.listed ==> KeyOf(OVERTAKEN, c) != "o/c")
      && Edge(1, 0) in st.edges && 1 !in st.listed
  {
    hide Visit, Resolve, LocalDeps, DependenciesKept, Descending, AllResolve, DistinctModules;
    OvertakenPremises();
    OvertakenDeps();
    OvertakenSteps();
    TwoRoots(OVERTAKEN, [4, 5], OvertakenFirst(), OvertakenEnd());
    LostModule();
  }

  lemma OvertakenPremises()
    ensures Descending(OVERTAKEN) && AllResolve(OVERTAKEN, [4, 5]) && DistinctModules(OVERTAKEN, [4, 5])
  {
    OvertakenDeps();
    hide LocalDeps;
  }

  lemma LostModule()
    requires LocalDeps(OVERTAKEN, 3) == [2]
    ensures !DependenciesKept(OVERTAKEN, OvertakenEnd())
    ensures forall c :: c in OvertakenEnd().listed ==> KeyOf(OVERTAKEN, c) != "o/c"
  {
    hide LocalDeps;
    assert 2 in LocalDeps(OVERTAKEN, 3) && 3 in OvertakenEnd().listed;
    assert !Answered(OVERTAKEN, OvertakenEnd(), 3, 2);
  }
}
