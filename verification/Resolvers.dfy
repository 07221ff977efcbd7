/** The two resolvers of dependency graphs, which update a selection map, a commit list and an edge list
    in place (internal/service/graph.go for v1beta1, internal/service/graph_v1.go for v1). */
module Resolvers {
  import opened Wrappers
  import opened Digests
  import opened Docstore
  import opened Graph

  // bufLockDep, for dependencies found in this registry.
  datatype Dep = Dep(owner: string, repository: string, commit: CommitId, digest: string)

  // The wire commit objects differ in the digest they carry: of the files in v1beta1, of the whole
  // module in v1.
  datatype Commit = Commit(id: CommitId, ownerId: Id32, moduleId: Id32, digest: seq<byte>)

  datatype Api = V1Beta1 | V1

  // The commit object of a stored commit.
  ghost predicate IsObjectOf(api: Api, s: Store, c: Commit) {
    && GetCommit(s, c.id).Ok?
    && var r := GetCommit(s, c.id).value;
       c == Commit(r.id, r.ownerId, r.moduleId, if api.V1? then r.moduleDigest.value else r.filesDigest.value)
  }

  ghost predicate Tables(ids: Ids, s: Store) {
    ModuleTable(ids, s) && CommitTable(s)
  }

  function TrimPrefix(s: string, prefix: string): string {
    if prefix <= s then s[|prefix|..] else s
  }

  const SHAKE_PREFIX := SHAKE256 + ":"

  // What getStoredDeps reports for a dependency.
  ghost function DepOf(s: Store, id: CommitId): Dep
    requires Resolves(CatalogOf(s), id)
  {
    var m := ModuleByCommitId(s, id).value;
    Dep(m.owner, m.name, id, SHAKE_PREFIX + GetCommit(s, id).value.filesDigest.Hex())
  }

  function Commits(deps: seq<Dep>): (r: seq<CommitId>)
    ensures |r| == |deps| && forall i :: 0 <= i < |deps| ==> r[i] == deps[i].commit
  {
    seq(|deps|, i requires 0 <= i < |deps| => deps[i].commit)
  }

  // Commit `id` belongs to the module with this owner and name.
  ghost predicate IsCommitOf(ids: Ids, s: Store, owner: string, name: string, id: CommitId) {
    && ModuleByName(ids, s, owner, name).Ok?
    && CommitById(s, ModuleByName(ids, s, owner, name).value, id).Ok?
  }

  lemma LocalsAppend(g: Catalog, a: seq<CommitId>, d: CommitId)
    ensures Locals(g, a + [d]) == Locals(g, a) + if Resolves(g, d) then [d] else []
  {
    if a == [] {
      assert (a + [d])[1..] == [];
    } else {
      assert (a + [d])[1..] == a[1..] + [d];
      LocalsAppend(g, a[1..], d);
    }
  }

  // The dependency a commit id stands for, when its commit and module are known here.
  method LookupDep(s: Store, id: CommitId) returns (r: Option<Dep>)
    ensures r == if Resolves(CatalogOf(s), id) then Some(DepOf(s, id)) else None
  {
    var depMod := ModuleByCommitId(s, id);
    if depMod.Err? {
      return None;
    }
    var depCommit := GetCommit(s, id);
    return Some(Dep(depMod.value.owner, depMod.value.name, id, SHAKE_PREFIX + depCommit.value.filesDigest.Hex()));
  }

  ghost predicate AreDeps(s: Store, deps: seq<Dep>) {
    forall d :: d in deps ==> Resolves(CatalogOf(s), d.commit) && d == DepOf(s, d.commit)
  }

  // getStoredDeps: dependencies whose commit or module is unknown here are skipped.
  method GetStoredDeps(ids: Ids, s: Store, owner: string, name: string, id: CommitId) returns (r: Result<seq<Dep>>)
    requires Tables(ids, s)
    ensures r.Ok? <==> IsCommitOf(ids, s, owner, name, id)
    ensures r.Ok? ==> AreDeps(s, r.value) && Commits(r.value) == LocalDeps(CatalogOf(s), id)
  {
    var m := FindModule(ids, s, owner, name);
    if m.Err? {
      return Err(NotFound);
    }
    var commit := CommitById(s, m.value, id);
    if commit.Err? {
      return Err(NotFound);
    }
    var stored := commit.value.deps;
    StoredDepsKnown(ids, s, owner, name, id);
    var deps := ResolveDeps(s, stored);
    return Ok(deps);
  }

  lemma StoredDepsKnown(ids: Ids, s: Store, owner: string, name: string, id: CommitId)
    requires Tables(ids, s) && IsCommitOf(ids, s, owner, name, id)
    ensures var g := CatalogOf(s); id in g.deps && g.deps[id] == GetCommit(s, id).value.deps
  {
    assert ModuleByCommitId(s, id).Ok?;
  }

  method ResolveDeps(s: Store, stored: seq<CommitId>) returns (deps: seq<Dep>)
    ensures AreDeps(s, deps) && Commits(deps) == Locals(CatalogOf(s), stored)
  {
    hide ModuleByCommitId, CatalogOf;
    deps := [];
    for i := 0 to |stored|
      invariant AreDeps(s, deps) && Commits(deps) == Locals(CatalogOf(s), stored[..i])
    {
      LocalsAppend(CatalogOf(s), stored[..i], stored[i]);
      assert stored[..i + 1] == stored[..i] + [stored[i]];
      var dep := LookupDep(s, stored[i]);
      if dep.Some? {
        deps := deps + [dep.value];
      }
    }
    assert stored[..|stored|] == stored;
  }

  // getCommitObject: the digest comes as hex text and is decoded.
  function CommitObject(ownerId: Id32, moduleId: Id32, id: CommitId, digestHex: string): Result<Commit> {
    match DecodeHex(digestHex)
    case None => Err(InvalidDigest)
    case Some(digest) => Ok(Commit(id, ownerId, moduleId, digest))
  }

  // ----- The commit object of a dependency, as each interface builds it -----

  // v1beta1: ids are computed from the names, the digest is taken from the printed files digest.
  lemma DepObjectV1Beta1(ids: Ids, s: Store, d: Dep)
    requires Tables(ids, s) && Resolves(CatalogOf(s), d.commit) && d == DepOf(s, d.commit)
    ensures
      var owner := ids.ownerId(d.owner);
      var c := CommitObject(owner, ids.moduleId(owner, d.repository), d.commit, TrimPrefix(d.digest, SHAKE_PREFIX));
      c.Ok? && IsObjectOf(V1Beta1, s, c.value)
  {
    var r := GetCommit(s, d.commit).value;
    HexRoundTrip(r.filesDigest.value);
    assert d.digest[|SHAKE_PREFIX|..] == r.filesDigest.Hex();
  }

  lemma DepKey(s: Store, d: Dep)
    requires Resolves(CatalogOf(s), d.commit) && d == DepOf(s, d.commit)
    ensures d.owner + "/" + d.repository == KeyOf(CatalogOf(s), d.commit)
  {
  }

  // v1: the commit is looked up again to read its module digest; the lookup cannot fail.
  lemma DepObjectV1(ids: Ids, s: Store, d: Dep)
    requires Tables(ids, s) && Resolves(CatalogOf(s), d.commit) && d == DepOf(s, d.commit)
    ensures IsCommitOf(ids, s, d.owner, d.repository, d.commit)
  {
  }

  function IdsOf(cs: seq<Commit>): (r: seq<CommitId>)
    ensures |r| == |cs| && forall i :: 0 <= i < |cs| ==> r[i] == cs[i].id
  {
    seq(|cs|, i requires 0 <= i < |cs| => cs[i].id)
  }

  function SelectedIds(commits: map<string, Commit>): (r: map<string, CommitId>) {
    map k | k in commits :: commits[k].id
  }

  ghost predicate AreObjects(api: Api, s: Store, cs: seq<Commit>) {
    forall c :: c in cs ==> IsObjectOf(api, s, c)
  }

  lemma ReplaceFirstAt(listed: seq<CommitId>, j: nat, loser: CommitId, winner: CommitId)
    requires j < |listed| && listed[j] == loser && loser !in listed[..j]
    ensures ReplaceFirst(listed, loser, winner) == listed[j := winner]
  {
    var i :| 0 <= i < |listed| && listed[i] == loser && loser !in listed[..i]
      && ReplaceFirst(listed, loser, winner) == listed[i := winner];
    assert forall x :: 0 <= x < j ==> listed[..j][x] != loser;
    assert forall x :: 0 <= x < i ==> listed[..i][x] != loser;
  }

  // What the rest of a dependency loop does, once the part before it is done.
  lemma DepsStep(g: Catalog, from: CommitId, deps: seq<CommitId>, i: nat, st: State)
    requires i < |deps| && forall d :: d in deps ==> Resolves(g, d)
    ensures VisitDeps(g, from, deps[i..], st) == VisitDeps(g, from, deps[i + 1..], AfterDep(g, from, deps[i], st))
  {
    assert deps[i..][0] == deps[i] && deps[i..][1..] == deps[i + 1..];
  }

  // ----- The requested commits -----

  // The optional child of a named reference: a label, a commit id or label, or nothing. A text that
  // spells a commit id carries that id.
  datatype Child = LabelName(name: string) | RefName(id: Option<CommitId>, text: string) | NoChild

  datatype ResourceRef = ById(id: CommitId) | ByName(owner: string, name: string, child: Child)

  datatype Root = Root(owner: string, name: string, commit: CommitRecord)

  function ResolveChild(s: Store, m: ModuleRecord, child: Child): Result<CommitRecord> {
    match child
    case LabelName(name) => CommitByRef(s, m, name)
    case RefName(id, text) =>
      if id.Some? && CommitById(s, m, id.value).Ok? then CommitById(s, m, id.value) else CommitByRef(s, m, text)
    case NoChild => CommitByRef(s, m, "main")
  }

  // getModuleAndCommitByID and getModuleAndCommitByName
  function ResolveRef(ids: Ids, s: Store, ref: ResourceRef): Result<Root> {
    match ref
    case ById(id) =>
      var m :- ModuleByCommitId(s, id);
      var c :- CommitById(s, m, id);
      Ok(Root(m.owner, m.name, c))
    case ByName(owner, name, child) =>
      var m :- ModuleByName(ids, s, owner, name);
      var c :- ResolveChild(s, m, child);
      Ok(Root(owner, name, c))
  }

  // The label that a name stands for leads from this module to this commit.
  ghost predicate LabelLeads(s: Store, moduleId: Id32, tag: string, id: CommitId) {
    LabelKey(moduleId, tag) in s.labels && s.labels[LabelKey(moduleId, tag)].commitId == id
  }

  // What a reference denotes: a stored commit with its module's names. An id denotes that very commit. A
  // label of a module, the empty one standing for main, denotes the commit it leads to; without a child
  // the label is main; and a name that spells the id of one of the module's commits denotes that commit,
  // even if there is such a label too.
  ghost predicate Denotes(ids: Ids, s: Store, ref: ResourceRef, root: Root) {
    && GetCommit(s, root.commit.id) == Ok(root.commit) && IsCommitOf(ids, s, root.owner, root.name, root.commit.id)
    && match ref
       case ById(id) => root.commit.id == id
       case ByName(owner, name, child) =>
         && root.owner == owner && root.name == name
         && match child
            case LabelName(tag) => LabelLeads(s, ModuleIdFor(ids, owner, name), OrMain(tag), root.commit.id)
            case NoChild => LabelLeads(s, ModuleIdFor(ids, owner, name), "main", root.commit.id)
            case RefName(id, text) =>
              if id.Some? && IsCommitOf(ids, s, owner, name, id.value) then root.commit.id == id.value
              else LabelLeads(s, ModuleIdFor(ids, owner, name), OrMain(text), root.commit.id)
  }

  function OrMain(tag: string): string {
    if tag == "" then "main" else tag
  }

  lemma ChildDenotes(ids: Ids, s: Store, owner: string, name: string, child: Child, c: CommitRecord)
    requires Tables(ids, s) && ModuleByName(ids, s, owner, name).Ok?
    ensures
      ResolveChild(s, ModuleByName(ids, s, owner, name).value, child) == Ok(c) <==>
      Denotes(ids, s, ByName(owner, name, child), Root(owner, name, c))
  {
    var m := ModuleByName(ids, s, owner, name).value;
    hide DocToRecord, LabelKey;
    forall id: CommitId | CommitById(s, m, id).Ok?
      ensures CommitById(s, m, id).value.id == id
    {
      FoundCommit(ids, s, m, id);
    }
  }

  lemma IdDenotes(ids: Ids, s: Store, id: CommitId, root: Root)
    requires Tables(ids, s)
    ensures ResolveRef(ids, s, ById(id)) == Ok(root) <==> Denotes(ids, s, ById(id), root)
  {
    hide DocToRecord;
    if GetCommit(s, id).Ok? {
      DecodedCommit(ids, s, id);
    }
  }

  lemma DecodedCommit(ids: Ids, s: Store, id: CommitId)
    requires Tables(ids, s) && GetCommit(s, id).Ok?
    ensures GetCommit(s, id).value.id == id
  {
    DecodedFields(s.commits[id]);
  }

  // Resolution finds what a reference denotes, and nothing else.
  lemma ResolvesToDenoted(ids: Ids, s: Store, ref: ResourceRef, root: Root)
    requires Tables(ids, s)
    ensures ResolveRef(ids, s, ref) == Ok(root) <==> Denotes(ids, s, ref, root)
  {
    match ref
    case ById(id) => IdDenotes(ids, s, id, root);
    case ByName(owner, name, child) =>
      hide ResolveChild, DocToRecord, GetCommit;
      if ModuleByName(ids, s, owner, name).Ok? {
        ChildDenotes(ids, s, owner, name, child, root.commit);
      }
  }

  method FindRoot(ids: Ids, s: Store, ref: ResourceRef) returns (r: Result<Root>)
    requires Tables(ids, s)
    ensures r == ResolveRef(ids, s, ref)
    ensures forall root :: r == Ok(root) <==> Denotes(ids, s, ref, root)
  {
    hide Denotes, ResolveChild, CommitById, ModuleByCommitId, ModuleByName;
    forall root
      ensures ResolveRef(ids, s, ref) == Ok(root) <==> Denotes(ids, s, ref, root)
    {
      ResolvesToDenoted(ids, s, ref, root);
    }
    match ref
    case ById(id) =>
      var m := ModuleByCommitId(s, id);
      if m.Err? {
        return Err(m.error);
      }
      var c := CommitById(s, m.value, id);
      if c.Err? {
        return Err(c.error);
      }
      return Ok(Root(m.value.owner, m.value.name, c.value));
    case ByName(owner, name, child) =>
      var m := FindModule(ids, s, owner, name);
      if m.Err? {
        return Err(m.error);
      }
      var c := ResolveChild(s, m.value, child);
      if c.Err? {
        return Err(c.error);
      }
      return Ok(Root(owner, name, c.value));
  }

  ghost predicate RefsResolve(ids: Ids, s: Store, refs: seq<ResourceRef>) {
    forall i :: 0 <= i < |refs| ==> ResolveRef(ids, s, refs[i]).Ok?
  }

  ghost function Roots(ids: Ids, s: Store, refs: seq<ResourceRef>): (r: seq<Root>)
    requires RefsResolve(ids, s, refs)
    ensures |r| == |refs|
  {
    seq(|refs|, i requires 0 <= i < |refs| => ResolveRef(ids, s, refs[i]).value)
  }

  ghost predicate AreRoots(ids: Ids, s: Store, refs: seq<ResourceRef>, roots: seq<Root>) {
    |roots| == |refs| && forall i :: 0 <= i < |refs| ==> ResolveRef(ids, s, refs[i]) == Ok(roots[i])
  }

  lemma NoRoots(ids: Ids, s: Store, refs: seq<ResourceRef>)
    ensures AreRoots(ids, s, refs[..0], [])
  {
  }

  lemma MoreRoots(ids: Ids, s: Store, refs: seq<ResourceRef>, i: nat, roots: seq<Root>, root: Root)
    requires i < |refs| && AreRoots(ids, s, refs[..i], roots) && ResolveRef(ids, s, refs[i]) == Ok(root)
    ensures AreRoots(ids, s, refs[..i + 1], roots + [root])
  {
    hide ResolveRef;
  }

  lemma RefFails(ids: Ids, s: Store, refs: seq<ResourceRef>, i: nat)
    requires i < |refs| && ResolveRef(ids, s, refs[i]).Err?
    ensures !RefsResolve(ids, s, refs)
  {
  }

  lemma AllRoots(ids: Ids, s: Store, refs: seq<ResourceRef>, roots: seq<Root>)
    requires AreRoots(ids, s, refs[..|refs|], roots)
    ensures RefsResolve(ids, s, refs) && roots == Roots(ids, s, refs)
  {
    assert refs[..|refs|] == refs;
  }

  function RootIds(roots: seq<Root>): (r: seq<CommitId>)
    ensures |r| == |roots| && forall i :: 0 <= i < |r| ==> r[i] == roots[i].commit.id
  {
    seq(|roots|, i requires 0 <= i < |roots| => roots[i].commit.id)
  }

  lemma FoundCommit(ids: Ids, s: Store, m: ModuleRecord, id: CommitId)
    requires Tables(ids, s) && m.id in s.modules && s.modules[m.id] == m && CommitById(s, m, id).Ok?
    ensures GetCommit(s, id) == CommitById(s, m, id) && GetCommit(s, id).value.id == id
    ensures ModuleByCommitId(s, id) == Ok(m) && ModuleByName(ids, s, m.owner, m.name) == Ok(m)
    ensures Resolves(CatalogOf(s), id) && KeyOf(CatalogOf(s), id) == m.owner + "/" + m.name
  {
    assert s.commits[id].id == id;
  }

  // What a resolved reference stands for.
  ghost predicate IsRoot(ids: Ids, s: Store, root: Root) {
    var id := root.commit.id;
    && GetCommit(s, id) == Ok(root.commit) && IsCommitOf(ids, s, root.owner, root.name, id)
    && Resolves(CatalogOf(s), id) && KeyOf(CatalogOf(s), id) == root.owner + "/" + root.name
  }

  lemma RootResolves(ids: Ids, s: Store, ref: ResourceRef)
    requires Tables(ids, s) && ResolveRef(ids, s, ref).Ok?
    ensures IsRoot(ids, s, ResolveRef(ids, s, ref).value)
  {
    hide DocToRecord;
    match ref
    case ById(id) =>
      FoundCommit(ids, s, ModuleByCommitId(s, id).value, id);
    case ByName(owner, name, child) =>
      var m := ModuleByName(ids, s, owner, name).value;
      var id := ChildId(s, m, child);
      FoundCommit(ids, s, m, id);
  }

  lemma ChildId(s: Store, m: ModuleRecord, child: Child) returns (id: CommitId)
    requires ResolveChild(s, m, child).Ok?
    ensures ResolveChild(s, m, child) == CommitById(s, m, id)
  {
    hide DocToRecord, LabelKey;
    match child
    case LabelName(name) =>
      id := GetLabel(s, m.id, if name == "" then m.defaultLabelName else name).value.commitId;
    case RefName(asId, text) =>
      if asId.Some? && CommitById(s, m, asId.value).Ok? {
        id := asId.value;
      } else {
        id := GetLabel(s, m.id, if text == "" then m.defaultLabelName else text).value.commitId;
      }
    case NoChild =>
      id := GetLabel(s, m.id, "main").value.commitId;
  }

  // At each requested position the commit listed when its turn comes still belongs to the module that
  // was requested there; otherwise the resolver answers that the commit was not found.
  ghost predicate RootsStay(ids: Ids, s: Store, roots: seq<Root>, i: nat, st: State)
    requires i <= |roots| <= |st.listed|
    decreases |roots| - i
  {
    i < |roots| ==>
      && IsCommitOf(ids, s, roots[i].owner, roots[i].name, st.listed[i])
      && RootsStay(ids, s, roots, i + 1, Visit(CatalogOf(s), st.listed[i], st))
  }

  ghost predicate AllStay(ids: Ids, s: Store, roots: seq<Root>) {
    RootsStay(ids, s, roots, 0, Start(CatalogOf(s), RootIds(roots)))
  }

  ghost predicate SlashFreeOwners(s: Store) {
    forall id :: id in s.modules ==> '/' !in s.modules[id].owner
  }

  // Module keys tell modules apart when owner names hold no slash.
  lemma KeyInjective(m: ModuleRecord, n: ModuleRecord)
    requires '/' !in m.owner && '/' !in n.owner && Key(m) == Key(n)
    ensures m.owner == n.owner && m.name == n.name
  {
    assert Key(m) == m.owner + ['/'] + m.name && Key(n) == n.owner + ['/'] + n.name;
    CutUnique(m.owner, '/', m.name);
    CutUnique(n.owner, '/', n.name);
  }

  lemma SameKeySameModule(ids: Ids, s: Store, root: Root, c: CommitId)
    requires Tables(ids, s) && SlashFreeOwners(s) && IsRoot(ids, s, root)
    requires KeyOf(CatalogOf(s), c) == KeyOf(CatalogOf(s), root.commit.id)
    ensures IsCommitOf(ids, s, root.owner, root.name, c)
  {
    hide DocToRecord;
    assert KeyOf(CatalogOf(s), c) != "";
    KeyInjective(ModuleByCommitId(s, c).value, ModuleByCommitId(s, root.commit.id).value);
  }

  // With slash-free owner names every requested position keeps its module, so resolution cannot fail.
  lemma SlashFreeRootsStay(ids: Ids, s: Store, roots: seq<Root>, i: nat, st: State)
    requires Tables(ids, s) && SlashFreeOwners(s) && i <= |roots| <= |st.listed|
    requires forall j :: 0 <= j < |roots| ==> IsRoot(ids, s, roots[j])
    requires forall j :: 0 <= j < |roots| ==>
      KeyOf(CatalogOf(s), st.listed[j]) == KeyOf(CatalogOf(s), roots[j].commit.id)
    requires Graph.Chosen(CatalogOf(s), st)
    ensures RootsStay(ids, s, roots, i, st)
    decreases |roots| - i
  {
    if i < |roots| {
      SameKeySameModule(ids, s, roots[i], st.listed[i]);
      VisitLists(CatalogOf(s), st.listed[i], st);
      hide IsCommitOf, CatalogOf, Tables, Visit, IsRoot, KeyOf, Graph.Chosen, SlashFreeOwners;
      SlashFreeRootsStay(ids, s, roots, i + 1, Visit(CatalogOf(s), st.listed[i], st));
    }
  }

  lemma KnownKey(ids: Ids, s: Store, root: Root)
    requires IsRoot(ids, s, root)
    ensures KeyOf(CatalogOf(s), root.commit.id) == root.owner + "/" + root.name
  {
  }

  lemma StartEmpty(g: Catalog)
    ensures Start(g, []) == State(map[], [], [], [], [])
  {
  }

  lemma StartAppend(g: Catalog, roots: seq<CommitId>, c: CommitId)
    ensures Start(g, roots + [c]) == State(StartSelection(g, roots)[KeyOf(g, c) := c], roots + [c], [], [], [])
  {
    var all := roots + [c];
    assert all[..|all| - 1] == roots;
  }
}
