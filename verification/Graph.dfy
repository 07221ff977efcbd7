/** Dependency graph resolution (internal/service/graph.go and graph_v1.go): the walk as a function of
    the store, on commit ids. The two resolvers are proved against it in Resolvers. */
module Graph {
  import opened Docstore

  datatype Edge = Edge(from: CommitId, to: CommitId)

  /** What the walk updates: the selected commit per module, the listed commits and the edges. The last
      two fields are history, not data of the program: the commits whose dependencies were processed,
      and each dependency edge as it is stored, in the order they were met. */
  datatype State = State(
    selected: map<string, CommitId>, listed: seq<CommitId>, edges: seq<Edge>,
    expanded: seq<CommitId>, met: seq<Edge>)

  // ----- The store as the walk sees it -----

  function Key(m: ModuleRecord): string {
    m.owner + "/" + m.name
  }

  // The module key and the stored dependencies of every commit that ModuleByCommitID finds.
  datatype Catalog = Catalog(key: map<CommitId, string>, deps: map<CommitId, seq<CommitId>>)

  ghost function CatalogOf(s: Store): Catalog {
    Catalog(
      map id | id in s.commits && ModuleByCommitId(s, id).Ok? :: Key(ModuleByCommitId(s, id).value),
      map id | id in s.commits && ModuleByCommitId(s, id).Ok? :: GetCommit(s, id).value.deps)
  }

  predicate Resolves(g: Catalog, id: CommitId) {
    id in g.key
  }

  // The key of the module that a commit belongs to.
  function KeyOf(g: Catalog, id: CommitId): string {
    if id in g.key then g.key[id] else ""
  }

  function Locals(g: Catalog, ids: seq<CommitId>): (r: seq<CommitId>)
    ensures forall d :: d in r <==> d in ids && Resolves(g, d)
  {
    if ids == [] then []
    else if Resolves(g, ids[0]) then [ids[0]] + Locals(g, ids[1..])
    else Locals(g, ids[1..])
  }

  // getStoredDeps: the stored dependencies that can be looked up in this registry.
  function LocalDeps(g: Catalog, id: CommitId): (r: seq<CommitId>)
    ensures forall d :: d in r ==> Resolves(g, d)
  {
    if id in g.deps then Locals(g, g.deps[id]) else []
  }

  ghost function Keys(g: Catalog): set<string> {
    g.key.Values
  }

  lemma KeyInKeys(g: Catalog, id: CommitId)
    requires Resolves(g, id)
    ensures KeyOf(g, id) in Keys(g)
  {
  }

  // ----- The walk -----

  function ReplaceFirst(listed: seq<CommitId>, loser: CommitId, winner: CommitId): (r: seq<CommitId>)
    ensures loser !in listed ==> r == listed
    ensures loser in listed ==>
      exists j :: 0 <= j < |listed| && listed[j] == loser && loser !in listed[..j] && r == listed[j := winner]
  {
    if listed == [] then []
    else if listed[0] == loser then
      assert listed[..0] == [] && [winner] + listed[1..] == listed[0 := winner];
      [winner] + listed[1..]
    else
      var rest := ReplaceFirst(listed[1..], loser, winner);
      ReplacedBehind(listed, rest, loser, winner);
      [listed[0]] + rest
  }

  lemma ReplacedBehind(listed: seq<CommitId>, rest: seq<CommitId>, loser: CommitId, winner: CommitId)
    requires listed != [] && listed[0] != loser
    requires loser !in listed[1..] ==> rest == listed[1..]
    requires loser in listed[1..] ==>
      exists i :: 0 <= i < |listed| - 1 && listed[1..][i] == loser && loser !in listed[1..][..i]
        && rest == listed[1..][i := winner]
    ensures loser in listed <==> loser in listed[1..]
    ensures loser !in listed ==> [listed[0]] + rest == listed
    ensures loser in listed ==>
      exists j :: 0 <= j < |listed| && listed[j] == loser && loser !in listed[..j]
        && [listed[0]] + rest == listed[j := winner]
  {
    assert listed == [listed[0]] + listed[1..];
    if loser in listed[1..] {
      var i :| 0 <= i < |listed| - 1 && listed[1..][i] == loser && loser !in listed[1..][..i]
        && rest == listed[1..][i := winner];
      assert listed[..i + 1] == [listed[0]] + listed[1..][..i];
      assert listed[i + 1] == loser && [listed[0]] + rest == listed[i + 1 := winner];
    }
  }

  function Redirect(edges: seq<Edge>, loser: CommitId, winner: CommitId): (r: seq<Edge>)
    ensures |r| == |edges|
    ensures forall i :: 0 <= i < |r| ==>
      r[i] == if edges[i].to == loser then Edge(edges[i].from, winner) else edges[i]
  {
    seq(|edges|, i requires 0 <= i < |edges| => if edges[i].to == loser then Edge(edges[i].from, winner) else edges[i])
  }

  // The selection after a dependency on `d` was met: the larger id of a module wins, and what was
  // listed and pointed at gives way to it.
  function Select(g: Catalog, st: State, d: CommitId): State {
    var k := KeyOf(g, d);
    if k !in st.selected then
      st.(selected := st.selected[k := d], listed := st.listed + [d])
    else if d > st.selected[k] then
      var loser := st.selected[k];
      st.(selected := st.selected[k := d], listed := ReplaceFirst(st.listed, loser, d),
        edges := Redirect(st.edges, loser, d))
    else st
  }

  // One dependency of `from`: select, then append the edge to the selected commit.
  function Absorb(g: Catalog, st: State, from: CommitId, d: CommitId): (r: State)
    ensures r.selected.Keys == st.selected.Keys + {KeyOf(g, d)} && |st.listed| <= |r.listed|
  {
    Append(g, Select(g, st, d), from, d)
  }

  // An edge appended to the commit selected by then, with the stored dependency that it stands for.
  function Append(g: Catalog, st: State, from: CommitId, d: CommitId): State
    requires KeyOf(g, d) in st.selected
  {
    st.(edges := st.edges + [Edge(from, st.selected[KeyOf(g, d)])], met := st.met + [Edge(from, d)])
  }

  // How many modules are still to be selected; each recursion selects one.
  ghost function Unselected(g: Catalog, st: State): nat {
    |Keys(g) - st.selected.Keys|
  }

  lemma UnselectedShrinks(g: Catalog, st: State, st': State)
    requires st.selected.Keys <= st'.selected.Keys
    ensures Unselected(g, st') <= Unselected(g, st)
    ensures forall k :: k in Keys(g) && k in st'.selected && k !in st.selected ==>
      Unselected(g, st') < Unselected(g, st)
  {
    var a, b := Keys(g) - st.selected.Keys, Keys(g) - st'.selected.Keys;
    SubsetCard(b, a);
  }

  lemma SubsetCard<T>(b: set<T>, a: set<T>)
    requires b <= a
    ensures |b| <= |a| && (b != a ==> |b| < |a|)
  {
    if b != {} {
      var x :| x in b;
      SubsetCard(b - {x}, a - {x});
    }
  }

  // getGraphForModule
  function Visit(g: Catalog, id: CommitId, st: State): (r: State)
    ensures st.selected.Keys <= r.selected.Keys && |st.listed| <= |r.listed|
    decreases Unselected(g, st), 1, 0
  {
    VisitDeps(g, id, LocalDeps(g, id), st.(expanded := st.expanded + [id]))
  }

  function VisitDeps(g: Catalog, from: CommitId, deps: seq<CommitId>, st: State): (r: State)
    requires forall d :: d in deps ==> Resolves(g, d)
    ensures st.selected.Keys <= r.selected.Keys && |st.listed| <= |r.listed|
    decreases Unselected(g, st), 0, |deps|
  {
    if deps == [] then st
    else
      var next := AfterDep(g, from, deps[0], st);
      UnselectedShrinks(g, st, next);
      VisitDeps(g, from, deps[1..], next)
  }

  // One dependency and, when its module was not seen before, the whole walk below it.
  function AfterDep(g: Catalog, from: CommitId, d: CommitId, st: State): (r: State)
    requires Resolves(g, d)
    ensures st.selected.Keys <= r.selected.Keys && |st.listed| <= |r.listed|
    decreases Unselected(g, st), 0, 0
  {
    var st' := Absorb(g, st, from, d);
    if KeyOf(g, d) in st.selected then st'
    else
      KeyInKeys(g, d);
      UnselectedShrinks(g, st, st');
      Visit(g, d, st')
  }

  // ----- What every step keeps -----

  // Each module's selected commit belongs to that module.
  ghost predicate Chosen(g: Catalog, st: State) {
    forall k :: k in st.selected ==> Resolves(g, st.selected[k]) && KeyOf(g, st.selected[k]) == k
  }

  // The listed commits and the selected commits are the same, one per module.
  ghost predicate ListedIsSelected(g: Catalog, st: State) {
    && (forall i, j :: 0 <= i < j < |st.listed| ==> st.listed[i] != st.listed[j])
    && (forall c :: c in st.listed ==> KeyOf(g, c) in st.selected && st.selected[KeyOf(g, c)] == c)
    && (forall k :: k in st.selected ==> st.selected[k] in st.listed)
  }

  // Each edge leads from an expanded commit to the selected commit of the module that the stored
  // dependency names, which is no older than that dependency.
  ghost predicate EdgesFollow(g: Catalog, st: State) {
    && |st.edges| == |st.met|
    && forall i :: 0 <= i < |st.met| ==> EdgeFollows(g, st, st.met[i], st.edges[i])
  }

  ghost predicate EdgeFollows(g: Catalog, st: State, stored: Edge, e: Edge) {
    var k := KeyOf(g, stored.to);
    && stored.from in st.expanded && Resolves(g, stored.to)
    && k in st.selected && stored.to <= st.selected[k] && e == Edge(stored.from, st.selected[k])
  }

  // No commit is expanded that is newer than the selected commit of its module.
  ghost predicate ExpandedBelow(g: Catalog, st: State) {
    forall c :: c in st.expanded ==> KeyOf(g, c) in st.selected && c <= st.selected[KeyOf(g, c)]
  }

  ghost predicate Consistent(g: Catalog, st: State) {
    Chosen(g, st) && ListedIsSelected(g, st) && EdgesFollow(g, st) && ExpandedBelow(g, st)
  }

  // How one state of the walk follows another: selections only move up, listed positions keep their
  // module, expansions accumulate.
  ghost predicate Grows(g: Catalog, st: State, st': State) {
    && (forall k :: k in st.selected ==> k in st'.selected && st.selected[k] <= st'.selected[k])
    && |st.listed| <= |st'.listed|
    && (forall i :: 0 <= i < |st.listed| ==> KeyOf(g, st'.listed[i]) == KeyOf(g, st.listed[i]))
    && st.expanded <= st'.expanded
  }

  lemma GrowsTransitive(g: Catalog, a: State, b: State, c: State)
    requires Grows(g, a, b) && Grows(g, b, c)
    ensures Grows(g, a, c)
  {
  }

  lemma AbsorbGrows(g: Catalog, st: State, from: CommitId, d: CommitId)
    requires Chosen(g, st) && Resolves(g, d)
    ensures Chosen(g, Absorb(g, st, from, d)) && Grows(g, st, Absorb(g, st, from, d))
  {
  }

  lemma AbsorbListed(g: Catalog, st: State, from: CommitId, d: CommitId)
    requires Chosen(g, st) && ListedIsSelected(g, st) && Resolves(g, d)
    ensures ListedIsSelected(g, Absorb(g, st, from, d))
  {
    var k, st' := KeyOf(g, d), Absorb(g, st, from, d);
    if k in st.selected && d > st.selected[k] {
      var loser := st.selected[k];
      var j :| 0 <= j < |st.listed| && st.listed[j] == loser && st'.listed == st.listed[j := d];
      hide ReplaceFirst, Redirect, Resolves, KeyOf;
      ReplacedListed(g, st, st', k, d, j);
    }
  }

  // The winner takes the loser's place, in the selection and in the list.
  lemma ReplacedListed(g: Catalog, st: State, st': State, k: string, d: CommitId, j: nat)
    requires Chosen(g, st) && ListedIsSelected(g, st) && k == KeyOf(g, d) && k in st.selected && d > st.selected[k]
    requires j < |st.listed| && st.listed[j] == st.selected[k]
    requires st'.listed == st.listed[j := d] && st'.selected == st.selected[k := d]
    ensures ListedIsSelected(g, st')
  {
    hide KeyOf, Resolves;
    assert d !in st.listed;
    forall k' | k' in st'.selected
      ensures st'.selected[k'] in st'.listed
    {
      if k' == k {
        assert st'.listed[j] == d;
      } else {
        var i :| 0 <= i < |st.listed| && st.listed[i] == st.selected[k'];
        assert st'.listed[i] == st.listed[i];
      }
    }
  }

  lemma AbsorbEdges(g: Catalog, st: State, from: CommitId, d: CommitId)
    requires Chosen(g, st) && EdgesFollow(g, st) && Resolves(g, d) && from in st.expanded
    ensures EdgesFollow(g, Absorb(g, st, from, d))
  {
    var st' := Absorb(g, st, from, d);
    forall i | 0 <= i < |st.met|
      ensures EdgeFollows(g, st', st'.met[i], st'.edges[i])
    {
      assert EdgeFollows(g, st, st.met[i], st.edges[i]);
    }
    assert EdgeFollows(g, st', Edge(from, d), st'.edges[|st.met|]);
  }

  // All edges mean what they should, and `d` is a dependency of an expanded commit and no newer than the
  // commit selected for its module.
  ghost predicate MayAppend(g: Catalog, st: State, from: CommitId, d: CommitId) {
    EdgesFollow(g, st) && from in st.expanded && Resolves(g, d) && KeyOf(g, d) in st.selected
      && d <= st.selected[KeyOf(g, d)]
  }

  // Appending keeps what the edges mean.
  lemma AppendFollows(g: Catalog, st: State, from: CommitId, d: CommitId)
    requires MayAppend(g, st, from, d)
    ensures EdgesFollow(g, Append(g, st, from, d))
  {
    var st' := Append(g, st, from, d);
    hide Resolves, KeyOf;
    forall i | 0 <= i < |st'.met|
      ensures EdgeFollows(g, st', st'.met[i], st'.edges[i])
    {
      if i < |st.met| {
        assert EdgeFollows(g, st, st.met[i], st.edges[i]);
      }
    }
  }

  // The heart of the in-place update: selection, list and edges stay in step.
  lemma AbsorbConsistent(g: Catalog, st: State, from: CommitId, d: CommitId)
    requires Consistent(g, st) && Resolves(g, d) && from in st.expanded
    ensures Consistent(g, Absorb(g, st, from, d)) && Grows(g, st, Absorb(g, st, from, d))
  {
    AbsorbGrows(g, st, from, d);
    AbsorbListed(g, st, from, d);
    AbsorbEdges(g, st, from, d);
  }

  // A commit whose dependencies may be processed now.
  ghost predicate MayExpand(g: Catalog, st: State, id: CommitId) {
    KeyOf(g, id) in st.selected && id <= st.selected[KeyOf(g, id)]
  }

  lemma VisitConsistent(g: Catalog, id: CommitId, st: State)
    requires Consistent(g, st) && MayExpand(g, st, id)
    ensures Consistent(g, Visit(g, id, st)) && Grows(g, st, Visit(g, id, st))
    decreases Unselected(g, st), 1, 0
  {
    var st' := st.(expanded := st.expanded + [id]);
    forall i | 0 <= i < |st.met|
      ensures EdgeFollows(g, st', st.met[i], st.edges[i])
    {
      assert EdgeFollows(g, st, st.met[i], st.edges[i]);
    }
    VisitDepsConsistent(g, id, LocalDeps(g, id), st');
    GrowsTransitive(g, st, st', Visit(g, id, st));
  }

  lemma VisitDepsConsistent(g: Catalog, from: CommitId, deps: seq<CommitId>, st: State)
    requires forall d :: d in deps ==> Resolves(g, d)
    requires Consistent(g, st) && from in st.expanded
    ensures Consistent(g, VisitDeps(g, from, deps, st)) && Grows(g, st, VisitDeps(g, from, deps, st))
    decreases Unselected(g, st), 0, |deps|
  {
    if deps != [] {
      var next := AfterDep(g, from, deps[0], st);
      AfterDepConsistent(g, from, deps[0], st);
      UnselectedShrinks(g, st, next);
      VisitDepsConsistent(g, from, deps[1..], next);
      GrowsTransitive(g, st, next, VisitDeps(g, from, deps, st));
    }
  }

  lemma AfterDepConsistent(g: Catalog, from: CommitId, d: CommitId, st: State)
    requires Resolves(g, d) && Consistent(g, st) && from in st.expanded
    ensures Consistent(g, AfterDep(g, from, d, st)) && Grows(g, st, AfterDep(g, from, d, st))
    decreases Unselected(g, st), 0, 0
  {
    var st' := Absorb(g, st, from, d);
    AbsorbConsistent(g, st, from, d);
    if KeyOf(g, d) !in st.selected {
      KeyInKeys(g, d);
      UnselectedShrinks(g, st, st');
      VisitConsistent(g, d, st');
      GrowsTransitive(g, st, st', AfterDep(g, from, d, st));
    }
  }

  // ----- Every selected module is expanded once -----

  ghost function ExpandedKeys(g: Catalog, st: State): set<string> {
    set c | c in st.expanded :: KeyOf(g, c)
  }

  ghost predicate ExpandedOnce(g: Catalog, st: State) {
    && (forall i, j :: 0 <= i < j < |st.expanded| ==> KeyOf(g, st.expanded[i]) != KeyOf(g, st.expanded[j]))
    && ExpandedKeys(g, st) <= st.selected.Keys
  }

  // The modules selected on the way from `st` to `st'` are the modules expanded on that way.
  ghost predicate ExpandsSelected(g: Catalog, st: State, st': State) {
    && ExpandedOnce(g, st')
    && ExpandedKeys(g, st') == ExpandedKeys(g, st) + (st'.selected.Keys - st.selected.Keys)
  }

  lemma ExpandMore(g: Catalog, st: State, id: CommitId)
    requires ExpandedOnce(g, st) && KeyOf(g, id) in st.selected && KeyOf(g, id) !in ExpandedKeys(g, st)
    ensures
      var st' := st.(expanded := st.expanded + [id]);
      ExpandedOnce(g, st') && ExpandedKeys(g, st') == ExpandedKeys(g, st) + {KeyOf(g, id)}
  {
    var st' := st.(expanded := st.expanded + [id]);
    assert forall i :: 0 <= i < |st.expanded| ==> KeyOf(g, st.expanded[i]) in ExpandedKeys(g, st);
    assert forall c :: c in st'.expanded <==> c in st.expanded || c == id;
  }

  lemma ExpandsTransitive(g: Catalog, a: State, b: State, c: State)
    requires a.selected.Keys <= b.selected.Keys <= c.selected.Keys
    requires ExpandsSelected(g, a, b) && ExpandsSelected(g, b, c)
    ensures ExpandsSelected(g, a, c)
  {
  }

  lemma VisitOnce(g: Catalog, id: CommitId, st: State)
    requires ExpandedOnce(g, st) && KeyOf(g, id) in st.selected && KeyOf(g, id) !in ExpandedKeys(g, st)
    ensures
      var st' := Visit(g, id, st);
      && ExpandedOnce(g, st')
      && ExpandedKeys(g, st') == ExpandedKeys(g, st) + {KeyOf(g, id)} + (st'.selected.Keys - st.selected.Keys)
    decreases Unselected(g, st), 1, 0
  {
    ExpandMore(g, st, id);
    VisitDepsOnce(g, id, LocalDeps(g, id), st.(expanded := st.expanded + [id]));
  }

  lemma VisitDepsOnce(g: Catalog, from: CommitId, deps: seq<CommitId>, st: State)
    requires forall d :: d in deps ==> Resolves(g, d)
    requires ExpandedOnce(g, st)
    ensures ExpandsSelected(g, st, VisitDeps(g, from, deps, st))
    decreases Unselected(g, st), 0, |deps|
  {
    if deps != [] {
      var next := AfterDep(g, from, deps[0], st);
      AfterDepOnce(g, from, deps[0], st);
      UnselectedShrinks(g, st, next);
      VisitDepsOnce(g, from, deps[1..], next);
      ExpandsTransitive(g, st, next, VisitDeps(g, from, deps, st));
    }
  }

  lemma AfterDepOnce(g: Catalog, from: CommitId, d: CommitId, st: State)
    requires Resolves(g, d) && ExpandedOnce(g, st)
    ensures ExpandsSelected(g, st, AfterDep(g, from, d, st))
    decreases Unselected(g, st), 0, 0
  {
    var st' := Absorb(g, st, from, d);
    SameExpanded(g, st, st');
    if KeyOf(g, d) !in st.selected {
      KeyInKeys(g, d);
      UnselectedShrinks(g, st, st');
      VisitOnce(g, d, st');
      NewKey(ExpandedKeys(g, st), st.selected.Keys, KeyOf(g, d), Visit(g, d, st').selected.Keys);
    } else {
      assert st'.selected.Keys == st.selected.Keys;
    }
  }

  lemma SameExpanded(g: Catalog, st: State, st': State)
    requires ExpandedOnce(g, st) && st'.expanded == st.expanded && st.selected.Keys <= st'.selected.Keys
    ensures ExpandedOnce(g, st') && ExpandedKeys(g, st') == ExpandedKeys(g, st)
  {
  }

  lemma NewKey(expanded: set<string>, before: set<string>, k: string, after: set<string>)
    requires k !in before && before + {k} <= after
    ensures expanded + {k} + (after - (before + {k})) == expanded + (after - before)
  {
  }

  // ----- Every stored dependency of an expanded commit is met, and nothing else -----

  function EdgesTo(from: CommitId, deps: seq<CommitId>): (r: seq<Edge>)
    ensures |r| == |deps| && forall i :: 0 <= i < |r| ==> r[i] == Edge(from, deps[i])
  {
    seq(|deps|, i requires 0 <= i < |deps| => Edge(from, deps[i]))
  }

  // The stored, locally resolvable dependency edges of a list of commits.
  function StoredEdges(g: Catalog, commits: seq<CommitId>): seq<Edge> {
    if commits == [] then [] else EdgesTo(commits[0], LocalDeps(g, commits[0])) + StoredEdges(g, commits[1..])
  }

  lemma {:induction false} StoredEdgesAppend(g: Catalog, commits: seq<CommitId>, c: CommitId)
    ensures StoredEdges(g, commits + [c]) == StoredEdges(g, commits) + EdgesTo(c, LocalDeps(g, c))
  {
    if commits == [] {
      assert (commits + [c])[1..] == [];
    } else {
      assert (commits + [c])[1..] == commits[1..] + [c];
      StoredEdgesAppend(g, commits[1..], c);
    }
  }

  ghost function Times(edges: seq<Edge>, e: Edge): nat {
    multiset(edges)[e]
  }

  lemma TimesAppend(a: seq<Edge>, b: seq<Edge>)
    ensures forall e :: Times(a + b, e) == Times(a, e) + Times(b, e)
  {
  }

  // From `st` to `st'` the edges met are those of the commits expanded, besides `extra`.
  ghost predicate Accounts(g: Catalog, st: State, st': State, extra: seq<Edge>) {
    forall e :: Times(st'.met, e) + Times(StoredEdges(g, st.expanded), e)
             == Times(st.met, e) + Times(StoredEdges(g, st'.expanded), e) + Times(extra, e)
  }

  lemma AccountsTransitive(g: Catalog, a: State, b: State, c: State, x: seq<Edge>, y: seq<Edge>)
    requires Accounts(g, a, b, x) && Accounts(g, b, c, y)
    ensures Accounts(g, a, c, x + y)
  {
    TimesAppend(x, y);
  }

  lemma VisitAccounts(g: Catalog, id: CommitId, st: State)
    ensures Accounts(g, st, Visit(g, id, st), [])
    decreases Unselected(g, st), 1, 0
  {
    StoredEdgesAppend(g, st.expanded, id);
    var own := EdgesTo(id, LocalDeps(g, id));
    VisitDepsAccounts(g, id, LocalDeps(g, id), st.(expanded := st.expanded + [id]));
    TimesAppend(StoredEdges(g, st.expanded), own);
  }

  lemma VisitDepsAccounts(g: Catalog, from: CommitId, deps: seq<CommitId>, st: State)
    requires forall d :: d in deps ==> Resolves(g, d)
    ensures Accounts(g, st, VisitDeps(g, from, deps, st), EdgesTo(from, deps))
    decreases Unselected(g, st), 0, |deps|
  {
    if deps != [] {
      var next := AfterDep(g, from, deps[0], st);
      AfterDepAccounts(g, from, deps[0], st);
      UnselectedShrinks(g, st, next);
      VisitDepsAccounts(g, from, deps[1..], next);
      hide Accounts, AfterDep, LocalDeps, EdgesTo, Resolves;
      AccountsTransitive(g, st, next, VisitDeps(g, from, deps, st), [Edge(from, deps[0])], EdgesTo(from, deps[1..]));
      EdgesToFirst(from, deps);
    } else {
      NoEdges(g, from, st);
    }
  }

  lemma NoEdges(g: Catalog, from: CommitId, st: State)
    ensures Accounts(g, st, st, EdgesTo(from, []))
  {
    assert EdgesTo(from, []) == [];
  }

  lemma EdgesToFirst(from: CommitId, deps: seq<CommitId>)
    requires deps != []
    ensures EdgesTo(from, deps) == [Edge(from, deps[0])] + EdgesTo(from, deps[1..])
  {
  }

  lemma AfterDepAccounts(g: Catalog, from: CommitId, d: CommitId, st: State)
    requires Resolves(g, d)
    ensures Accounts(g, st, AfterDep(g, from, d, st), [Edge(from, d)])
    decreases Unselected(g, st), 0, 0
  {
    hide Accounts, KeyOf, Resolves;
    var st' := Absorb(g, st, from, d);
    AbsorbAccounts(g, st, from, d);
    if KeyOf(g, d) !in st.selected {
      KeyInKeys(g, d);
      UnselectedShrinks(g, st, st');
      VisitAccounts(g, d, st');
      AccountsTransitive(g, st, st', AfterDep(g, from, d, st), [Edge(from, d)], []);
      assert [Edge(from, d)] + [] == [Edge(from, d)];
    }
  }

  lemma AbsorbAccounts(g: Catalog, st: State, from: CommitId, d: CommitId)
    ensures Accounts(g, st, Absorb(g, st, from, d), [Edge(from, d)])
  {
    hide Times;
    TimesAppend(st.met, [Edge(from, d)]);
  }

  // ----- Nothing appears from nowhere -----

  ghost predicate IsPath(g: Catalog, p: seq<CommitId>) {
    p != [] && forall i :: 0 <= i < |p| - 1 ==> p[i + 1] in LocalDeps(g, p[i])
  }

  ghost predicate Reachable(g: Catalog, roots: seq<CommitId>, c: CommitId) {
    exists p :: IsPath(g, p) && p[0] in roots && p[|p| - 1] == c
  }

  lemma RootReachable(g: Catalog, roots: seq<CommitId>, c: CommitId)
    requires c in roots
    ensures Reachable(g, roots, c)
  {
    assert IsPath(g, [c]);
  }

  lemma DepReachable(g: Catalog, roots: seq<CommitId>, c: CommitId, d: CommitId)
    requires Reachable(g, roots, c) && d in LocalDeps(g, c)
    ensures Reachable(g, roots, d)
  {
    var p :| IsPath(g, p) && p[0] in roots && p[|p| - 1] == c;
    assert IsPath(g, p + [d]);
  }

  // Selected commits are roots or dependencies met; all commits involved can be reached from the roots.
  ghost predicate Founded(g: Catalog, roots: seq<CommitId>, st: State) {
    && (forall k :: k in st.selected ==> st.selected[k] in roots || MetAsTarget(st, st.selected[k]))
    && (forall k :: k in st.selected ==> Reachable(g, roots, st.selected[k]))
    && (forall c :: c in st.expanded ==> Reachable(g, roots, c))
  }

  ghost predicate MetAsTarget(st: State, c: CommitId) {
    exists i :: 0 <= i < |st.met| && st.met[i].to == c
  }

  lemma AbsorbFounded(g: Catalog, roots: seq<CommitId>, st: State, from: CommitId, d: CommitId)
    requires Founded(g, roots, st) && Reachable(g, roots, d)
    ensures Founded(g, roots, Absorb(g, st, from, d))
  {
    var st' := Absorb(g, st, from, d);
    assert st'.met[|st.met|].to == d;
    forall k | k in st'.selected && st'.selected[k] !in roots
      ensures MetAsTarget(st', st'.selected[k])
    {
      if k in st.selected && st'.selected[k] == st.selected[k] {
        var i :| 0 <= i < |st.met| && st.met[i].to == st.selected[k];
        assert st'.met[i].to == st'.selected[k];
      }
    }
  }

  lemma VisitFounded(g: Catalog, roots: seq<CommitId>, id: CommitId, st: State)
    requires Founded(g, roots, st) && Reachable(g, roots, id)
    ensures Founded(g, roots, Visit(g, id, st))
    decreases Unselected(g, st), 1, 0
  {
    forall d | d in LocalDeps(g, id)
      ensures Reachable(g, roots, d)
    {
      DepReachable(g, roots, id, d);
    }
    var st' := st.(expanded := st.expanded + [id]);
    assert forall c :: MetAsTarget(st, c) ==> MetAsTarget(st', c);
    VisitDepsFounded(g, roots, id, LocalDeps(g, id), st');
  }

  lemma VisitDepsFounded(g: Catalog, roots: seq<CommitId>, from: CommitId, deps: seq<CommitId>, st: State)
    requires forall d :: d in deps ==> Resolves(g, d) && Reachable(g, roots, d)
    requires Founded(g, roots, st)
    ensures Founded(g, roots, VisitDeps(g, from, deps, st))
    decreases Unselected(g, st), 0, |deps|
  {
    if deps != [] {
      var d, next := deps[0], AfterDep(g, from, deps[0], st);
      var st' := Absorb(g, st, from, d);
      AbsorbFounded(g, roots, st, from, d);
      if KeyOf(g, d) !in st.selected {
        KeyInKeys(g, d);
        UnselectedShrinks(g, st, st');
        VisitFounded(g, roots, d, st');
      }
      UnselectedShrinks(g, st, next);
      VisitDepsFounded(g, roots, from, deps[1..], next);
    }
  }

  // ----- The roots -----

  // The selection after all requested commits were entered; a later root of a module replaces an earlier.
  function StartSelection(g: Catalog, roots: seq<CommitId>): (r: map<string, CommitId>)
    ensures r.Keys == set c | c in roots :: KeyOf(g, c)
    ensures forall k :: k in r ==> r[k] in roots && KeyOf(g, r[k]) == k
  {
    if roots == [] then map[]
    else
      var last := roots[|roots| - 1];
      assert roots == roots[..|roots| - 1] + [last];
      StartSelection(g, roots[..|roots| - 1])[KeyOf(g, last) := last]
  }

  function Start(g: Catalog, roots: seq<CommitId>): State {
    State(StartSelection(g, roots), roots, [], [], [])
  }

  lemma {:induction false} VisitLists(g: Catalog, id: CommitId, st: State)
    requires Chosen(g, st)
    ensures Chosen(g, Visit(g, id, st)) && Grows(g, st, Visit(g, id, st))
    decreases Unselected(g, st), 1, 0
  {
    VisitDepsLists(g, LocalDeps(g, id), id, st.(expanded := st.expanded + [id]));
    GrowsTransitive(g, st, st.(expanded := st.expanded + [id]), Visit(g, id, st));
  }

  lemma {:induction false} VisitDepsLists(g: Catalog, deps: seq<CommitId>, from: CommitId, st: State)
    requires Chosen(g, st) && forall d :: d in deps ==> Resolves(g, d)
    ensures Chosen(g, VisitDeps(g, from, deps, st)) && Grows(g, st, VisitDeps(g, from, deps, st))
    decreases Unselected(g, st), 0, |deps|
  {
    if deps != [] {
      var d, next := deps[0], AfterDep(g, from, deps[0], st);
      var st' := Absorb(g, st, from, d);
      AbsorbGrows(g, st, from, d);
      if KeyOf(g, d) !in st.selected {
        KeyInKeys(g, d);
        UnselectedShrinks(g, st, st');
        VisitLists(g, d, st');
        GrowsTransitive(g, st, st', next);
      }
      UnselectedShrinks(g, st, next);
      VisitDepsLists(g, deps[1..], from, next);
      GrowsTransitive(g, st, next, VisitDeps(g, from, deps, st));
    }
  }

  // The loop of GetGraph: position `i` is expanded with whatever commit is listed there by then.
  function VisitRoots(g: Catalog, n: nat, i: nat, st: State): (r: State)
    requires i <= n <= |st.listed|
    decreases n - i
  {
    if i == n then st else VisitRoots(g, n, i + 1, Visit(g, st.listed[i], st))
  }

  // GetGraph for the commits that the request resolved to.
  function Resolve(g: Catalog, roots: seq<CommitId>): State {
    VisitRoots(g, |roots|, 0, Start(g, roots))
  }

  ghost predicate AllResolve(g: Catalog, ids: seq<CommitId>) {
    forall c :: c in ids ==> Resolves(g, c)
  }

  ghost predicate DistinctModules(g: Catalog, ids: seq<CommitId>) {
    forall i, j :: 0 <= i < j < |ids| ==> KeyOf(g, ids[i]) != KeyOf(g, ids[j])
  }

  lemma VisitRootsLists(g: Catalog, n: nat, i: nat, st: State)
    requires i <= n <= |st.listed| && Chosen(g, st)
    ensures Chosen(g, VisitRoots(g, n, i, st)) && Grows(g, st, VisitRoots(g, n, i, st))
    decreases n - i
  {
    if i < n {
      var next := Visit(g, st.listed[i], st);
      VisitLists(g, st.listed[i], st);
      VisitRootsLists(g, n, i + 1, next);
      GrowsTransitive(g, st, next, VisitRoots(g, n, i, st));
    }
  }

  lemma ListedDistinct(g: Catalog, st: State)
    requires ListedIsSelected(g, st)
    ensures DistinctModules(g, st.listed)
  {
    forall i, j | 0 <= i < j < |st.listed|
      ensures KeyOf(g, st.listed[i]) != KeyOf(g, st.listed[j])
    {
      assert st.selected[KeyOf(g, st.listed[i])] == st.listed[i];
      assert st.selected[KeyOf(g, st.listed[j])] == st.listed[j];
    }
  }

  // Every requested position keeps its module, so a module requested twice is listed twice.
  lemma ListedOncePerModule(g: Catalog, roots: seq<CommitId>)
    requires AllResolve(g, roots)
    ensures forall i :: 0 <= i < |roots| ==>
      i < |Resolve(g, roots).listed| && KeyOf(g, Resolve(g, roots).listed[i]) == KeyOf(g, roots[i])
    ensures DistinctModules(g, Resolve(g, roots).listed) <==> DistinctModules(g, roots)
  {
    var st := Resolve(g, roots);
    VisitRootsLists(g, |roots|, 0, Start(g, roots));
    hide Resolve, Start, Founded, ExpandedOnce, EdgesFollow;
    if DistinctModules(g, roots) {
      ResolveConsistent(g, roots);
      ListedDistinct(g, st);
    } else {
      var i, j :| 0 <= i < j < |roots| && KeyOf(g, roots[i]) == KeyOf(g, roots[j]);
      assert KeyOf(g, st.listed[i]) == KeyOf(g, st.listed[j]);
    }
  }

  lemma StartSelects(g: Catalog, roots: seq<CommitId>)
    requires DistinctModules(g, roots)
    ensures forall c :: c in roots ==>
      KeyOf(g, c) in StartSelection(g, roots) && StartSelection(g, roots)[KeyOf(g, c)] == c
  {
    var sel := StartSelection(g, roots);
    forall c | c in roots
      ensures KeyOf(g, c) in sel && sel[KeyOf(g, c)] == c
    {
      var i :| 0 <= i < |roots| && roots[i] == c;
      var j :| 0 <= j < |roots| && roots[j] == sel[KeyOf(g, c)];
      assert KeyOf(g, roots[i]) == KeyOf(g, roots[j]);
    }
  }

  lemma StartConsistent(g: Catalog, roots: seq<CommitId>)
    requires AllResolve(g, roots) && DistinctModules(g, roots)
    ensures Consistent(g, Start(g, roots)) && Founded(g, roots, Start(g, roots)) && ExpandedOnce(g, Start(g, roots))
  {
    StartSelects(g, roots);
    var st := Start(g, roots);
    forall i, j | 0 <= i < j < |roots|
      ensures roots[i] != roots[j]
    {
      assert KeyOf(g, roots[i]) != KeyOf(g, roots[j]);
    }
    forall k | k in st.selected
      ensures Reachable(g, roots, st.selected[k])
    {
      RootReachable(g, roots, st.selected[k]);
    }
  }

  // The modules of the requested positions that the loop has not reached yet.
  ghost function Pending(g: Catalog, st: State, i: nat, n: nat): set<string>
    requires i <= n <= |st.listed|
  {
    set j | i <= j < n :: KeyOf(g, st.listed[j])
  }

  lemma PendingFirst(g: Catalog, st: State, i: nat, n: nat)
    requires i < n <= |st.listed| && ListedIsSelected(g, st)
    ensures Pending(g, st, i, n) == Pending(g, st, i + 1, n) + {KeyOf(g, st.listed[i])}
    ensures KeyOf(g, st.listed[i]) !in Pending(g, st, i + 1, n)
    ensures Pending(g, st, i, n) <= st.selected.Keys
  {
    forall j | i < j < n
      ensures KeyOf(g, st.listed[j]) != KeyOf(g, st.listed[i])
    {
      assert st.selected[KeyOf(g, st.listed[j])] == st.listed[j];
      assert st.selected[KeyOf(g, st.listed[i])] == st.listed[i];
    }
  }

  lemma PendingKept(g: Catalog, st: State, st': State, i: nat, n: nat)
    requires i <= n <= |st.listed| && Grows(g, st, st')
    ensures Pending(g, st', i, n) == Pending(g, st, i, n)
  {
    assert forall j :: i <= j < n ==> KeyOf(g, st'.listed[j]) == KeyOf(g, st.listed[j]);
  }

  lemma OneLessPending(e: set<string>, before: set<string>, pending: set<string>, k: string, after: set<string>)
    requires e == before - (pending + {k}) && k !in pending && pending + {k} <= before <= after
    ensures e + {k} + (after - before) == after - pending
  {
  }

  lemma StandingStill(g: Catalog, st: State)
    ensures Grows(g, st, st) && Accounts(g, st, st, [])
  {
  }

  // The walk from position `i` on, when all selected modules but those of the positions still to come
  // are expanded.
  lemma VisitRootsConsistent(g: Catalog, roots: seq<CommitId>, i: nat, st: State)
    requires i <= |roots| <= |st.listed| && Consistent(g, st) && Founded(g, roots, st) && ExpandedOnce(g, st)
    requires ExpandedKeys(g, st) == st.selected.Keys - Pending(g, st, i, |roots|)
    ensures
      var r := VisitRoots(g, |roots|, i, st);
      && Consistent(g, r) && Founded(g, roots, r) && ExpandedOnce(g, r) && Grows(g, st, r)
      && ExpandedKeys(g, r) == r.selected.Keys && Accounts(g, st, r, [])
    decreases |roots| - i
  {
    hide Consistent, Founded, ExpandedOnce, Grows, ExpandedKeys, Accounts, Visit;
    StandingStill(g, st);
    if i < |roots| {
      VisitRootConsistent(g, roots, i, st);
      var next, r := Visit(g, st.listed[i], st), VisitRoots(g, |roots|, i, st);
      VisitRootsConsistent(g, roots, i + 1, next);
      GrowsTransitive(g, st, next, r);
      var none: seq<Edge> := [];
      AccountsTransitive(g, st, next, r, none, none);
      assert none + none == none;
    }
  }

  lemma RootMayVisit(g: Catalog, roots: seq<CommitId>, st: State, id: CommitId)
    requires Consistent(g, st) && Founded(g, roots, st) && id in st.listed
    ensures MayExpand(g, st, id) && Reachable(g, roots, id) && ListedIsSelected(g, st)
  {
    hide Reachable, KeyOf;
  }

  lemma RootExpands(g: Catalog, st: State, i: nat, n: nat)
    requires i < n <= |st.listed| && ListedIsSelected(g, st) && ExpandedOnce(g, st)
    requires ExpandedKeys(g, st) == st.selected.Keys - Pending(g, st, i, n)
    ensures
      var r := Visit(g, st.listed[i], st);
      ExpandedOnce(g, r) && ExpandedKeys(g, r) == r.selected.Keys - Pending(g, st, i + 1, n)
  {
    var id, rest := st.listed[i], Pending(g, st, i + 1, n);
    PendingFirst(g, st, i, n);
    hide ListedIsSelected, ExpandedOnce, Pending, Visit, ExpandedKeys, KeyOf;
    VisitOnce(g, id, st);
    OneLessPending(ExpandedKeys(g, st), st.selected.Keys, rest, KeyOf(g, id), Visit(g, id, st).selected.Keys);
  }

  lemma {:induction false} VisitRootConsistent(g: Catalog, roots: seq<CommitId>, i: nat, st: State)
    requires i < |roots| <= |st.listed| && Consistent(g, st) && Founded(g, roots, st) && ExpandedOnce(g, st)
    requires ExpandedKeys(g, st) == st.selected.Keys - Pending(g, st, i, |roots|)
    ensures
      var r := Visit(g, st.listed[i], st);
      && Consistent(g, r) && Founded(g, roots, r) && ExpandedOnce(g, r) && Grows(g, st, r)
      && ExpandedKeys(g, r) == r.selected.Keys - Pending(g, r, i + 1, |roots|) && Accounts(g, st, r, [])
  {
    var id, n := st.listed[i], |roots|;
    var next := Visit(g, id, st);
    hide Consistent, Founded, ExpandedOnce, Grows, Pending, Accounts, Visit, ExpandedKeys, MayExpand, Reachable, KeyOf,
      ListedIsSelected;
    RootMayVisit(g, roots, st, id);
    RootExpands(g, st, i, n);
    VisitConsistent(g, id, st);
    VisitFounded(g, roots, id, st);
    VisitAccounts(g, id, st);
    PendingKept(g, st, next, i + 1, n);
  }

  // ----- The theorems about the resolved graph -----

  /** For distinct requested modules, the resolved graph is fully determined:
      list and selection agree, one commit per module; each stored dependency of each expanded commit
      was met exactly as often as it is stored; the i-th edge leads from the i-th of these to the
      commit selected for its module; every selected module is expanded exactly once. */
  lemma ResolveConsistent(g: Catalog, roots: seq<CommitId>)
    requires AllResolve(g, roots) && DistinctModules(g, roots)
    ensures
      var st := Resolve(g, roots);
      && Consistent(g, st) && Founded(g, roots, st) && ExpandedOnce(g, st) && Grows(g, Start(g, roots), st)
      && ExpandedKeys(g, st) == st.selected.Keys
      && multiset(st.met) == multiset(StoredEdges(g, st.expanded))
  {
    var start, st := Start(g, roots), Resolve(g, roots);
    StartConsistent(g, roots);
    StartPending(g, roots);
    hide Consistent, Founded, ExpandedOnce, Grows, Pending, Accounts, VisitRoots;
    assert ExpandedKeys(g, start) == {};
    VisitRootsConsistent(g, roots, 0, start);
    AllMet(g, start, st);
  }

  lemma StartPending(g: Catalog, roots: seq<CommitId>)
    ensures Pending(g, Start(g, roots), 0, |roots|) == Start(g, roots).selected.Keys
  {
    var start := Start(g, roots);
    forall k | k in start.selected
      ensures k in Pending(g, start, 0, |roots|)
    {
      var i :| 0 <= i < |roots| && roots[i] == start.selected[k];
      assert KeyOf(g, start.listed[i]) == k;
    }
  }

  lemma AllMet(g: Catalog, start: State, st: State)
    requires Accounts(g, start, st, []) && start.met == [] && start.expanded == []
    ensures multiset(st.met) == multiset(StoredEdges(g, st.expanded))
  {
    forall e
      ensures multiset(st.met)[e] == multiset(StoredEdges(g, st.expanded))[e]
    {
      assert Times(st.met, e) + Times([], e) == Times([], e) + Times(StoredEdges(g, st.expanded), e) + Times([], e);
    }
  }

  // The walk ends after at most one expansion per module, cyclic or not, and leaves one edge per
  // stored, locally resolvable dependency of an expanded commit.
  lemma WalkSize(g: Catalog, roots: seq<CommitId>)
    requires AllResolve(g, roots) && DistinctModules(g, roots)
    ensures
      var st := Resolve(g, roots);
      |st.expanded| == |st.listed| == |st.selected| <= |Keys(g)| && |st.edges| == |StoredEdges(g, st.expanded)|
  {
    var st := Resolve(g, roots);
    ResolveConsistent(g, roots);
    hide Resolve, Founded, Grows;
    assert |st.met| == |multiset(st.met)| == |multiset(StoredEdges(g, st.expanded))| == |StoredEdges(g, st.expanded)|;
    SelectionSize(g, st);
  }

  lemma SelectionSize(g: Catalog, st: State)
    requires Chosen(g, st) && ListedIsSelected(g, st) && ExpandedOnce(g, st) && ExpandedKeys(g, st) == st.selected.Keys
    ensures |st.expanded| == |st.listed| == |st.selected| <= |Keys(g)|
  {
    DistinctCount(g, st.expanded);
    ListedDistinct(g, st);
    DistinctCount(g, st.listed);
    assert (set c | c in st.listed :: KeyOf(g, c)) == st.selected.Keys;
    forall k | k in st.selected
      ensures k in Keys(g)
    {
      KeyInKeys(g, st.selected[k]);
    }
    SubsetCard(st.selected.Keys, Keys(g));
  }

  lemma {:induction false} DistinctCount(g: Catalog, ids: seq<CommitId>)
    requires DistinctModules(g, ids)
    ensures |set c | c in ids :: KeyOf(g, c)| == |ids|
  {
    hide KeyOf;
    if ids != [] {
      var rest := ids[1..];
      DistinctCount(g, rest);
      FirstKey(g, ids);
    }
  }

  lemma FirstKey(g: Catalog, ids: seq<CommitId>)
    requires ids != [] && DistinctModules(g, ids)
    ensures KeyOf(g, ids[0]) !in (set c | c in ids[1..] :: KeyOf(g, c))
    ensures (set c | c in ids :: KeyOf(g, c)) == {KeyOf(g, ids[0])} + (set c | c in ids[1..] :: KeyOf(g, c))
  {
    hide KeyOf;
    var rest := ids[1..];
    assert ids == [ids[0]] + rest;
    forall c | c in rest
      ensures KeyOf(g, c) != KeyOf(g, ids[0])
    {
      var i :| 0 <= i < |rest| && rest[i] == c;
      assert ids[i + 1] == c;
    }
  }

  // `c` was requested, or is a stored dependency of an expanded commit.
  ghost predicate Considered(g: Catalog, roots: seq<CommitId>, st: State, c: CommitId) {
    c in roots || exists e :: e in st.expanded && c in LocalDeps(g, e)
  }

  lemma {:induction false} StoredEdgesMember(g: Catalog, commits: seq<CommitId>, e: Edge)
    ensures e in StoredEdges(g, commits) <==> e.from in commits && e.to in LocalDeps(g, e.from)
  {
    if commits != [] {
      StoredEdgesMember(g, commits[1..], e);
      var deps := LocalDeps(g, commits[0]);
      assert commits == [commits[0]] + commits[1..];
      assert e in EdgesTo(commits[0], deps) <==> e.from == commits[0] && e.to in deps by {
        if e.from == commits[0] && e.to in deps {
          var i :| 0 <= i < |deps| && deps[i] == e.to;
          assert EdgesTo(commits[0], deps)[i] == e;
        }
      }
    }
  }

  lemma MetMember(g: Catalog, roots: seq<CommitId>, e: Edge)
    requires AllResolve(g, roots) && DistinctModules(g, roots)
    ensures var st := Resolve(g, roots); e in st.met <==> e.from in st.expanded && e.to in LocalDeps(g, e.from)
  {
    var st := Resolve(g, roots);
    ResolveConsistent(g, roots);
    StoredEdgesMember(g, st.expanded, e);
    assert e in st.met <==> e in multiset(st.met);
    assert e in StoredEdges(g, st.expanded) <==> e in multiset(StoredEdges(g, st.expanded));
  }

  // Newest wins, whatever order the versions were met in: the listed commit of a module is the largest
  // among the one requested and all dependencies on that module of expanded commits.
  lemma NewestWins(g: Catalog, roots: seq<CommitId>, c: CommitId)
    requires AllResolve(g, roots) && DistinctModules(g, roots)
    ensures
      var st := Resolve(g, roots);
      c in st.listed <==>
        && Considered(g, roots, st, c)
        && forall d: CommitId :: Considered(g, roots, st, d) && KeyOf(g, d) == KeyOf(g, c) ==> d <= c
  {
    var st, k := Resolve(g, roots), KeyOf(g, c);
    ResolveConsistent(g, roots);
    hide Resolve, Founded, ExpandedOnce, Grows, EdgesFollow, Considered, AllResolve, DistinctModules, Chosen,
      ListedIsSelected, KeyOf;
    ListedWhenSelected(g, st, c);
    if Considered(g, roots, st, c) {
      ConsideredBelow(g, roots, c);
    }
    if k in st.selected {
      SelectedConsidered(g, roots, k);
    }
    forall d: CommitId | Considered(g, roots, st, d) && KeyOf(g, d) == k
      ensures k in st.selected && d <= st.selected[k]
    {
      ConsideredBelow(g, roots, d);
    }
  }

  lemma ListedWhenSelected(g: Catalog, st: State, c: CommitId)
    requires Chosen(g, st) && ListedIsSelected(g, st)
    ensures c in st.listed <==> KeyOf(g, c) in st.selected && st.selected[KeyOf(g, c)] == c
    ensures forall k :: k in st.selected ==> KeyOf(g, st.selected[k]) == k
  {
  }

  lemma ConsideredBelow(g: Catalog, roots: seq<CommitId>, d: CommitId)
    requires AllResolve(g, roots) && DistinctModules(g, roots) && Considered(g, roots, Resolve(g, roots), d)
    ensures var st := Resolve(g, roots); KeyOf(g, d) in st.selected && d <= st.selected[KeyOf(g, d)]
  {
    var st := Resolve(g, roots);
    ResolveConsistent(g, roots);
    if d in roots {
      StartSelects(g, roots);
    } else {
      var e :| e in st.expanded && d in LocalDeps(g, e);
      MetMember(g, roots, Edge(e, d));
      MetBelow(g, st, Edge(e, d));
    }
  }

  lemma MetBelow(g: Catalog, st: State, e: Edge)
    requires EdgesFollow(g, st) && e in st.met
    ensures KeyOf(g, e.to) in st.selected && e.to <= st.selected[KeyOf(g, e.to)]
  {
    var i :| 0 <= i < |st.met| && st.met[i] == e;
    assert EdgeFollows(g, st, st.met[i], st.edges[i]);
  }

  lemma SelectedConsidered(g: Catalog, roots: seq<CommitId>, k: string)
    requires AllResolve(g, roots) && DistinctModules(g, roots) && k in Resolve(g, roots).selected
    ensures var st := Resolve(g, roots); Considered(g, roots, st, st.selected[k])
  {
    var st := Resolve(g, roots);
    ResolveConsistent(g, roots);
    if st.selected[k] !in roots {
      var i :| 0 <= i < |st.met| && st.met[i].to == st.selected[k];
      assert st.met[i] in st.met;
      MetMember(g, roots, st.met[i]);
    }
  }
}
