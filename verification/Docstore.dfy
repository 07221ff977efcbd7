/** Records, their documents, and the metadata collections (internal/storage/docstore.go), with the
    lookups the registry builds on them (internal/registry/registry.go and module.go). */
module Docstore {
  import opened Wrappers
  import opened Digests

  // Owner and module ids: the first 32 hex digits of a SHA-256 sum (internal/util/id.go).
  type Id32 = s: string | |s| == 32 witness "00000000000000000000000000000000"

  // Commit ids are UUIDs of version 7 (section 5.7 of RFC 9562) written as 32 lower-case hex digits.
  // Their string order is the order of the numbers they spell, so a commit id is that number.
  type CommitId = nat

  datatype ModuleRecord = ModuleRecord(id: Id32, ownerId: Id32, owner: string, name: string, defaultLabelName: string)

  datatype CommitRecord = CommitRecord(
    id: CommitId, moduleId: Id32, ownerId: Id32, filesDigest: Digest, moduleDigest: ModuleDigest, deps: seq<CommitId>)

  datatype CommitDoc = CommitDoc(
    id: CommitId, moduleId: Id32, ownerId: Id32, filesDigest: string, moduleDigest: string, deps: seq<CommitId>)

  datatype LabelDoc = LabelDoc(moduleId: Id32, name: string, commitId: CommitId)

  // ----- Commit records and documents -----

  function RecordToDoc(c: CommitRecord): CommitDoc {
    CommitDoc(c.id, c.moduleId, c.ownerId, c.filesDigest.String(), c.moduleDigest.String(), c.deps)
  }

  function DocToRecord(doc: CommitDoc): Result<CommitRecord> {
    var filesDigest :- ParseDigest(doc.filesDigest);
    var moduleDigest :- if doc.moduleDigest == "" then Ok(ModuleDigest(Unset, []))
      else ParseModuleDigest(doc.moduleDigest);
    Ok(CommitRecord(doc.id, doc.moduleId, doc.ownerId, filesDigest, moduleDigest, doc.deps))
  }

  predicate Storable(c: CommitRecord) {
    ':' !in c.filesDigest.algorithm && !c.moduleDigest.kind.Unset? && |c.moduleDigest.value| == 64
  }

  // A commit record is read back as it was written exactly when its files algorithm holds no colon
  // and its module digest is a full B4 or B5 digest.
  lemma RecordRoundTrip(c: CommitRecord)
    ensures DocToRecord(RecordToDoc(c)) == Ok(c) <==> Storable(c)
  {
    DigestRoundTrip(c.filesDigest);
    ModuleDigestRoundTrip(c.moduleDigest);
    assert c.moduleDigest.String() != "";
  }

  // Decoding only interprets the two digests.
  lemma DecodedFields(doc: CommitDoc)
    requires DocToRecord(doc).Ok?
    ensures var c := DocToRecord(doc).value;
      c.id == doc.id && c.moduleId == doc.moduleId && c.ownerId == doc.ownerId && c.deps == doc.deps
  {
  }

  // ----- Labels -----

  function LabelKey(moduleId: Id32, name: string): string {
    moduleId + "/" + name
  }

  // Labels of different modules, or with different names, never share a key.
  lemma LabelKeyInjective(m: Id32, a: string, n: Id32, b: string)
    ensures LabelKey(m, a) == LabelKey(n, b) <==> m == n && a == b
  {
    if LabelKey(m, a) == LabelKey(n, b) {
      assert LabelKey(m, a)[..32] == m && LabelKey(n, b)[..32] == n;
      assert LabelKey(m, a)[33..] == a && LabelKey(n, b)[33..] == b;
    }
  }

  // ----- The stores -----

  // The bucket holds blobs and manifests; the other fields are the document collections.
  datatype Store = Store(
    bucket: map<string, string>,
    modules: map<Id32, ModuleRecord>,
    commits: map<CommitId, CommitDoc>,
    labels: map<string, LabelDoc>)

  function GetCommit(s: Store, id: CommitId): Result<CommitRecord> {
    if id in s.commits then DocToRecord(s.commits[id]) else Err(NotFound)
  }

  function GetModule(s: Store, id: Id32): Result<ModuleRecord> {
    if id in s.modules then Ok(s.modules[id]) else Err(NotFound)
  }

  function GetLabel(s: Store, moduleId: Id32, name: string): Result<LabelDoc> {
    if LabelKey(moduleId, name) in s.labels then Ok(s.labels[LabelKey(moduleId, name)]) else Err(NotFound)
  }

  // Registry.ModuleByCommitID
  function ModuleByCommitId(s: Store, id: CommitId): Result<ModuleRecord> {
    var c :- GetCommit(s, id);
    GetModule(s, c.moduleId)
  }

  // Module.CommitByID
  function CommitById(s: Store, m: ModuleRecord, id: CommitId): Result<CommitRecord> {
    var c :- GetCommit(s, id);
    if c.moduleId != m.id then Err(NotFound) else Ok(c)
  }

  // Module.Commit: the empty reference stands for the default label.
  function CommitByRef(s: Store, m: ModuleRecord, ref: string): Result<CommitRecord> {
    var found :- GetLabel(s, m.id, if ref == "" then m.defaultLabelName else ref);
    CommitById(s, m, found.commitId)
  }

  // The functions that compute owner and module ids from names (internal/util/id.go).
  datatype Ids = Ids(ownerId: string -> Id32, moduleId: (Id32, string) -> Id32)

  function ModuleIdFor(ids: Ids, owner: string, name: string): Id32 {
    ids.moduleId(ids.ownerId(owner), name)
  }

  // The module table as CreateModule fills it: each record lies under the id computed from its names.
  ghost predicate ModuleTable(ids: Ids, s: Store) {
    forall id :: id in s.modules ==>
      var m := s.modules[id];
      m.id == id && m.ownerId == ids.ownerId(m.owner) && id == ModuleIdFor(ids, m.owner, m.name)
        && m.defaultLabelName == "main"
  }

  // The commit table as CreateCommit fills it.
  ghost predicate CommitTable(s: Store) {
    forall id :: id in s.commits ==>
      var doc := s.commits[id];
      doc.id == id && DocToRecord(doc).Ok?
        && (doc.moduleId in s.modules ==> doc.ownerId == s.modules[doc.moduleId].ownerId)
  }

  // Registry.Module: what GetModuleByName finds. Only the module under the computed id can match, so
  // two names whose ids collide shut each other out.
  function ModuleByName(ids: Ids, s: Store, owner: string, name: string): Result<ModuleRecord> {
    var id := ModuleIdFor(ids, owner, name);
    if id in s.modules && s.modules[id].owner == owner && s.modules[id].name == name then Ok(s.modules[id])
        else Err(NotFound)
  }

  // The query scans the table for a module with this owner and name.
  method FindModule(ids: Ids, s: Store, owner: string, name: string) returns (r: Result<ModuleRecord>)
    requires ModuleTable(ids, s)
    ensures r == ModuleByName(ids, s, owner, name)
  {
    if id :| id in s.modules && s.modules[id].owner == owner && s.modules[id].name == name {
      return Ok(s.modules[id]);
    }
    return Err(NotFound);
  }
}
