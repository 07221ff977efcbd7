/** A dependency graph walk does not read the stores at one moment: uploads go on while it runs. Here each
    lookup of the walk (internal/service/graph.go) may see another state of the registry; the answer is
    still that of the state in which the request was resolved. */
module GraphReads {
  import opened Docstore
  import opened StoreInvariant
  import opened Uploads
  import opened Graph
  import opened UploadTheorems

  // What the n-th lookup of the walk sees.
  type Reads = nat -> Catalog

  // `h` knows what `g` knows, and agrees with it on that.
  ghost predicate Extends(h: Catalog, g: Catalog) {
    forall c :: Known(g, c) ==> Known(h, c) && h.key[c] == g.key[c] && h.deps[c] == g.deps[c]
  }

  ghost predicate Known(g: Catalog, c: CommitId) {
    c in g.key && c in g.deps
  }

  // Nothing known depends on anything unknown.
  ghost predicate Closed(g: Catalog) {
    forall c, d :: Known(g, c) && d in g.deps[c] ==> Known(g, d)
  }

  ghost predicate AllExtend(seen: Reads, g: Catalog) {
    Closed(g) && g.key.Keys == g.deps.Keys && forall n :: Extends(seen(n), g)
  }

  // A dependency found by getStoredDeps, with the lookup that found it and its module.
  datatype Found = Found(id: CommitId, at: nat)

  // The loop of getStoredDeps: one lookup for each stored dependency.
  function FindDeps(seen: Reads, n: nat, ids: seq<CommitId>): seq<Found>
    decreases |ids|
  {
    if ids == [] then []
    else (if Resolves(seen(n), ids[0]) then [Found(ids[0], n)] else []) + FindDeps(seen, n + 1, ids[1..])
  }

  ghost predicate AllKnown(g: Catalog, deps: seq<Found>) {
    forall d :: d in deps ==> Known(g, d.id)
  }

  function IdsOf(deps: seq<Found>): (r: seq<CommitId>)
    ensures |r| == |deps| && forall i :: 0 <= i < |r| ==> r[i] == deps[i].id
  {
    seq(|deps|, i requires 0 <= i < |deps| => deps[i].id)
  }

  lemma {:induction false} FindsAll(seen: Reads, g: Catalog, n: nat, ids: seq<CommitId>)
    requires AllExtend(seen, g) && forall d :: d in ids ==> Known(g, d)
    ensures AllKnown(g, FindDeps(seen, n, ids)) && IdsOf(FindDeps(seen, n, ids)) == ids && Locals(g, ids) == ids
    decreases |ids|
  {
    if ids != [] {
      hide AllKnown, Closed, IdsOf, Locals;
      FindsAll(seen, g, n + 1, ids[1..]);
      assert Extends(seen(n), g) && Known(g, ids[0]);
      hide AllExtend, Extends;
      FindsOne(g, Found(ids[0], n), FindDeps(seen, n + 1, ids[1..]), ids);
    } else {
      assert IdsOf([]) == [];
    }
  }

  lemma FindsOne(g: Catalog, first: Found, rest: seq<Found>, ids: seq<CommitId>)
    requires ids != [] && first.id == ids[0] && Known(g, ids[0])
    requires AllKnown(g, rest) && IdsOf(rest) == ids[1..] && Locals(g, ids[1..]) == ids[1..]
    ensures AllKnown(g, [first] + rest) && IdsOf([first] + rest) == ids && Locals(g, ids) == ids
  {
    assert ids == [ids[0]] + ids[1..];
  }

  // getGraphForModule with its `n`-th lookup next; the walk's state and the next lookup.
  ghost function VisitReading(seen: Reads, g: Catalog, n: nat, id: CommitId, st: State): (r: (State, nat))
    requires AllExtend(seen, g) && Known(g, id)
    ensures r.0 == Visit(g, id, st)
    decreases Unselected(g, st), 1, 0
  {
    assert Extends(seen(n), g);
    var ids := seen(n).deps[id];
    FindsAll(seen, g, n + 1, ids);
    var deps := FindDeps(seen, n + 1, ids);
    VisitDepsReading(seen, g, n + 1 + |ids|, id, deps, st.(expanded := st.expanded + [id]))
  }

  ghost function VisitDepsReading(seen: Reads, g: Catalog, n: nat, from: CommitId, deps: seq<Found>,
                                  st: State): (r: (State, nat))
    requires AllExtend(seen, g) && AllKnown(g, deps)
    ensures r.0 == VisitDeps(g, from, IdsOf(deps), st)
    decreases Unselected(g, st), 0, |deps|
  {
    assert deps != [] ==> IdsOf(deps)[1..] == IdsOf(deps[1..]);
    if deps == [] then (st, n)
    else
      var (next, m) := AfterDepReading(seen, g, n, from, deps[0], st);
      UnselectedShrinks(g, st, next);
      VisitDepsReading(seen, g, m, from, deps[1..], next)
  }

  // The key of the dependency's module is the one its lookup saw.
  ghost function AfterDepReading(seen: Reads, g: Catalog, n: nat, from: CommitId, d: Found,
                                 st: State): (r: (State, nat))
    requires AllExtend(seen, g) && Known(g, d.id)
    ensures r.0 == AfterDep(g, from, d.id, st)
    decreases Unselected(g, st), 0, 0
  {
    assert Extends(seen(d.at), g);
    var st' := Absorb(seen(d.at), st, from, d.id);
    assert st' == Absorb(g, st, from, d.id);
    if KeyOf(seen(d.at), d.id) in st.selected then (st', n)
    else
      KeyInKeys(g, d.id);
      UnselectedShrinks(g, st, st');
      VisitReading(seen, g, n, d.id, st')
  }

  // The second loop of GetGraph.
  ghost function VisitRootsReading(seen: Reads, g: Catalog, count: nat, i: nat, n: nat, st: State): (r: State)
    requires AllExtend(seen, g) && i <= count <= |st.listed| && Chosen(g, st) && AllListedKnown(g, st)
    ensures r == VisitRoots(g, count, i, st)
    decreases count - i
  {
    if i == count then st
    else
      var (next, m) := VisitReading(seen, g, n, st.listed[i], st);
      VisitLists(g, st.listed[i], st);
      ListedStaysKnown(g, st.listed[i], st);
      VisitRootsReading(seen, g, count, i + 1, m, next)
  }

  ghost predicate AllListedKnown(g: Catalog, st: State) {
    forall c :: c in st.listed ==> Known(g, c)
  }

  // Whatever is met is known, so only known commits are ever listed.
  lemma {:induction false} VisitListsKnown(g: Catalog, id: CommitId, st: State)
    requires AllResolve(g, st.listed)
    ensures AllResolve(g, Visit(g, id, st).listed)
    decreases Unselected(g, st), 1, 0
  {
    VisitDepsListsKnown(g, id, LocalDeps(g, id), st.(expanded := st.expanded + [id]));
  }

  lemma {:induction false} VisitDepsListsKnown(g: Catalog, from: CommitId, deps: seq<CommitId>, st: State)
    requires AllResolve(g, deps) && AllResolve(g, st.listed)
    ensures AllResolve(g, VisitDeps(g, from, deps, st).listed)
    decreases Unselected(g, st), 0, |deps|
  {
    if deps != [] {
      var d, next := deps[0], AfterDep(g, from, deps[0], st);
      var st' := Absorb(g, st, from, d);
      AbsorbListsKnown(g, st, from, d);
      if KeyOf(g, d) !in st.selected {
        KeyInKeys(g, d);
        UnselectedShrinks(g, st, st');
        VisitListsKnown(g, d, st');
      }
      UnselectedShrinks(g, st, next);
      VisitDepsListsKnown(g, from, deps[1..], next);
    }
  }

  lemma AbsorbListsKnown(g: Catalog, st: State, from: CommitId, d: CommitId)
    requires AllResolve(g, st.listed) && Resolves(g, d)
    ensures AllResolve(g, Absorb(g, st, from, d).listed)
  {
    hide Resolves;
  }

  lemma ListedStaysKnown(g: Catalog, id: CommitId, st: State)
    requires g.key.Keys == g.deps.Keys && AllListedKnown(g, st)
    ensures AllListedKnown(g, Visit(g, id, st))
  {
    hide Visit;
    VisitListsKnown(g, id, st);
  }

  ghost function ResolveReading(seen: Reads, g: Catalog, roots: seq<CommitId>): (r: State)
    requires AllExtend(seen, g) && forall c :: c in roots ==> Known(g, c)
    ensures r == Resolve(g, roots)
  {
    VisitRootsReading(seen, g, |roots|, 0, 0, Start(g, roots))
  }

  lemma LaterExtends(env: Env, run: seq<System>, i: nat, j: nat)
    requires IsRun(env, run) && i <= j < |run|
    ensures Extends(CatalogOf(run[j].store), CatalogOf(run[i].store))
  {
    hide IsRun, Later, CatalogOf;
    RunGrows(env, run, i, j);
    LaterCatalog(run[i].store, run[j].store);
  }

  lemma LaterCatalog(s: Store, s': Store)
    requires Later(s, s')
    ensures Extends(CatalogOf(s'), CatalogOf(s))
  {
    hide CatalogOf, GetCommit, Later;
    forall c | Known(CatalogOf(s), c)
      ensures Known(CatalogOf(s'), c) && CatalogOf(s').key[c] == CatalogOf(s).key[c]
      ensures CatalogOf(s').deps[c] == CatalogOf(s).deps[c]
    {
      LaterEntry(s, s', c);
    }
  }

  lemma LaterEntry(s: Store, s': Store, c: CommitId)
    requires Later(s, s') && Known(CatalogOf(s), c)
    ensures Known(CatalogOf(s'), c) && CatalogOf(s').key[c] == CatalogOf(s).key[c]
    ensures CatalogOf(s').deps[c] == CatalogOf(s).deps[c]
  {
    hide DocToRecord;
    LaterReads(s, s', c);
    hide GetCommit;
  }

  lemma StoredClosed(env: Env, run: seq<System>, i: nat)
    requires IsRun(env, run) && i < |run|
    ensures Closed(CatalogOf(run[i].store)) && CatalogOf(run[i].store).key.Keys == CatalogOf(run[i].store).deps.Keys
    ensures forall c :: c in run[i].store.commits <==> Known(CatalogOf(run[i].store), c)
  {
    StoredCatalog(env, run, i);
    hide IsRun, DocToRecord;
    var s, g := run[i].store, CatalogOf(run[i].store);
    forall c, d | Known(g, c) && d in g.deps[c]
      ensures Known(g, d)
    {
      assert d in LocalDeps(g, c);
    }
  }

  /** The answer to a request that was resolved in state `i` of a run of uploads: whichever later states
      the walk's lookups see, each another one if need be, it is the graph of state `i`. */
  lemma ReadsOfRun(env: Env, run: seq<System>, i: nat, roots: seq<CommitId>, states: nat -> nat)
    requires IsRun(env, run) && i < |run| && (forall n :: i <= states(n) < |run|)
    requires forall c :: c in roots ==> c in run[i].store.commits
    ensures
      var g := CatalogOf(run[i].store);
      var seen := Lookups(run, states);
      && AllExtend(seen, g) && (forall c :: c in roots ==> Known(g, c))
      && ResolveReading(seen, g, roots) == Resolve(g, roots)
  {
    StoredClosed(env, run, i);
    hide IsRun, CatalogOf;
    forall n
      ensures Extends(Lookups(run, states)(n), CatalogOf(run[i].store))
    {
      LaterExtends(env, run, i, states(n));
    }
  }

  ghost function Lookups(run: seq<System>, states: nat -> nat): Reads
    requires forall n :: states(n) < |run|
  {
    (n: nat) => CatalogOf(run[states(n)].store)
  }
}
