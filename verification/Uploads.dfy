/** Concurrent uploads, one store operation at a time (internal/service/upload.go, internal/registry/module.go
    and registry.go, internal/storage). A run interleaves any number of uploads; each may stop anywhere,
    because nothing obliges a run to step it again. */
module Uploads {
  import opened Wrappers
  import opened Digests
  import opened Manifests
  import opened Merkle
  import opened Buckets
  import opened Docstore
  import opened StoreInvariant

  // One content of an upload request, after labels were defaulted and dependencies detected.
  datatype Request = Request(owner: string, name: string, files: seq<File>, labels: seq<string>, deps: seq<CommitId>)

  // The store operation an upload does next.
  datatype Phase =
    | FindModule
    | CreateModule
    | RefindModule
    | ReadDeps
    | CheckBlob
    | WriteBlob
    | CheckManifest
    | WriteManifest
    | Lookup
    | Mint
    | InsertCommit(id: CommitId)
    | SetLabels(id: CommitId, count: nat)
    | Done(id: CommitId)
    | Failed

  datatype Upload = Upload(req: Request, digests: seq<ModuleDigest>, entries: seq<Entry>, phase: Phase)

  // `next` is below every commit id that will be minted and above every one that was.
  datatype System = System(store: Store, next: CommitId, uploads: map<nat, Upload>)

  function ModuleOf(env: Env, u: Upload): Id32 {
    ModuleIdFor(env.ids, u.req.owner, u.req.name)
  }

  function FilesDigestOf(env: Env, u: Upload): Digest {
    FilesDigest(env.hash, u.entries)
  }

  // ----- One step of one upload -----

  // What follows a stored manifest: the module digest is computed, which refuses dependencies without B5.
  function AfterManifest(u: Upload): Upload {
    u.(phase := if AllB5(u.digests) then Lookup else Failed)
  }

  function NewRecord(env: Env, u: Upload, id: CommitId): CommitRecord {
    Record(env, id, ModuleOf(env, u), env.ids.ownerId(u.req.owner), FilesDigestOf(env, u), u.digests, u.req.deps)
  }

  ghost predicate IsHit(env: Env, s: Store, u: Upload, hit: Option<CommitId>) {
    Finds(s, FilesDigestOf(env, u), hit)
  }

  predicate Reused(env: Env, s: Store, u: Upload, hit: Option<CommitId>) {
    Reusable(s, ModuleOf(env, u), hit)
  }

  function StoreStep(env: Env, s: Store, u: Upload): Store {
    match u.phase
    case CreateModule => if ModuleOf(env, u) in s.modules then s else AddModule(env, s, u.req.owner, u.req.name)
    case WriteBlob => if |u.entries| < |u.req.files| then PutBlob(env, s, u.req.files[|u.entries|].content) else s
    case WriteManifest => PutManifest(env, s, u.entries)
    case InsertCommit(id) => if id in s.commits then s else AddCommit(s, NewRecord(env, u, id))
    case SetLabels(id, count) =>
      if count < |u.req.labels| then MoveLabel(s, ModuleOf(env, u), u.req.labels[count], id) else s
    case _ => s
  }

  function UploadStep(env: Env, s: Store, next: CommitId, u: Upload, hit: Option<CommitId>): Upload {
    match u.phase
    case FindModule => u.(phase := if ModuleByName(env.ids, s, u.req.owner, u.req.name).Ok? then ReadDeps
      else CreateModule)
    case CreateModule => u.(phase := if ModuleOf(env, u) in s.modules then RefindModule else ReadDeps)
    case RefindModule => u.(phase := if ModuleByName(env.ids, s, u.req.owner, u.req.name).Ok? then ReadDeps else Failed)
    case ReadDeps =>
      if |u.digests| < |u.req.deps| then
        match GetCommit(s, u.req.deps[|u.digests|])
        case Ok(c) => u.(digests := u.digests + [c.moduleDigest])
        case Err(_) => u.(phase := Failed)
      else u.(phase := CheckBlob)
    case CheckBlob =>
      if |u.entries| < |u.req.files| then
        var f := u.req.files[|u.entries|];
        var d := SumOf(env.hash, f.content);
        if BlobKey(d) in s.bucket then u.(entries := u.entries + [Entry(d, f.path)]) else u.(phase := WriteBlob)
      else u.(phase := CheckManifest)
    case WriteBlob =>
      if |u.entries| < |u.req.files| then
        var f := u.req.files[|u.entries|];
        u.(entries := u.entries + [Entry(SumOf(env.hash, f.content), f.path)], phase := CheckBlob)
      else u.(phase := CheckBlob)
    case CheckManifest =>
      if ManifestKey(FilesDigestOf(env, u)) in s.bucket then AfterManifest(u) else u.(phase := WriteManifest)
    case WriteManifest => AfterManifest(u)
    case Lookup => u.(phase := if Reused(env, s, u, hit) then SetLabels(hit.value, 0) else Mint)
    case Mint => u.(phase := InsertCommit(next))
    case InsertCommit(id) => u.(phase := SetLabels(id, 0))
    case SetLabels(id, count) => u.(phase := if count < |u.req.labels| then SetLabels(id, count + 1) else Done(id))
    case Done(_) => u
    case Failed => u
  }

  function Advance(env: Env, sys: System, p: nat, hit: Option<CommitId>): System
    requires p in sys.uploads
  {
    var u := sys.uploads[p];
    System(
      StoreStep(env, sys.store, u),
      if u.phase.Mint? then sys.next + 1 else sys.next,
      sys.uploads[p := UploadStep(env, sys.store, sys.next, u, hit)])
  }

  // ----- Runs -----

  ghost predicate Begins(env: Env, sys: System, sys': System, p: nat, req: Request) {
    && p !in sys.uploads && (forall f :: f in req.files ==> env.pathOk(f.path))
    && sys' == sys.(uploads := sys.uploads[p := Upload(req, [], [], FindModule)])
  }

  ghost predicate Advances(env: Env, sys: System, sys': System, p: nat, hit: Option<CommitId>) {
    && p in sys.uploads && (sys.uploads[p].phase.Lookup? ==> IsHit(env, sys.store, sys.uploads[p], hit))
    && sys' == Advance(env, sys, p, hit)
  }

  ghost predicate Step(env: Env, sys: System, sys': System) {
    || (exists p, req :: Begins(env, sys, sys', p, req))
    || (exists p, hit :: Advances(env, sys, sys', p, hit))
  }

  const EMPTY := System(Store(map[], map[], map[], map[]), 0, map[])

  ghost predicate IsRun(env: Env, run: seq<System>) {
    run != [] && run[0] == EMPTY && forall i :: 0 < i < |run| ==> Step(env, run[i - 1], run[i])
  }

  // ----- What every reachable state keeps -----

  // How far an upload has come.
  function Rank(phase: Phase): nat {
    match phase
    case Failed => 0
    case FindModule => 0
    case CreateModule => 0
    case RefindModule => 0
    case ReadDeps => 1
    case CheckBlob => 2
    case WriteBlob => 2
    case CheckManifest => 3
    case WriteManifest => 3
    case Lookup => 4
    case Mint => 4
    case InsertCommit(_) => 4
    case SetLabels(_, _) => 5
    case Done(_) => 5
  }

  // What an upload has put in place so far.
  ghost predicate UploadOk(env: Env, s: Store, next: CommitId, u: Upload) {
    && (forall f :: f in u.req.files ==> env.pathOk(f.path))
    && DigestsRead(s, u) && EntriesPut(env, s, u)
    && (u.phase.RefindModule? ==> ModuleOf(env, u) in s.modules)
    && (Rank(u.phase) >= 1 ==> ModuleByName(env.ids, s, u.req.owner, u.req.name).Ok?)
    && (Rank(u.phase) >= 2 ==> |u.digests| == |u.req.deps|)
    && (Rank(u.phase) >= 3 ==> |u.entries| == |u.req.files|)
    && (Rank(u.phase) >= 4 ==> ManifestKey(FilesDigestOf(env, u)) in s.bucket && AllB5(u.digests))
    && (u.phase.InsertCommit? ==> u.phase.id < next && forall d: CommitId :: d in u.req.deps ==> d < u.phase.id)
    && (Rank(u.phase) == 5 ==> IsCommitOfUpload(env, s, u, u.phase.id))
  }

  ghost predicate DigestsRead(s: Store, u: Upload) {
    && |u.digests| <= |u.req.deps|
    && forall i :: 0 <= i < |u.digests| ==>
         u.req.deps[i] in s.commits && ModuleDigestOf(s, u.req.deps[i]) == u.digests[i]
  }

  ghost predicate EntriesPut(env: Env, s: Store, u: Upload) {
    && |u.entries| <= |u.req.files| && u.entries == Entries(env.hash, u.req.files[..|u.entries|])
    && forall e :: e in u.entries ==> BlobKey(e.digest) in s.bucket
  }

  // The commit an upload ends with: one of its module, with its files.
  ghost predicate IsCommitOfUpload(env: Env, s: Store, u: Upload, id: CommitId) {
    && id in s.commits && GetCommit(s, id).Ok?
    && GetCommit(s, id).value.moduleId == ModuleOf(env, u)
    && GetCommit(s, id).value.filesDigest == FilesDigestOf(env, u)
  }

  ghost predicate SystemOk(env: Env, sys: System) {
    && StoreOk(env, sys.store)
    && (forall id: CommitId :: id in sys.store.commits ==> id < sys.next)
    && (forall p :: p in sys.uploads ==> UploadOk(env, sys.store, sys.next, sys.uploads[p]))
    && MintedApart(sys)
  }

  // A minted id that is not stored yet belongs to one upload only.
  ghost predicate MintedApart(sys: System) {
    && (forall p :: p in sys.uploads && sys.uploads[p].phase.InsertCommit? ==>
         sys.uploads[p].phase.id !in sys.store.commits)
    && (forall p, q :: p in sys.uploads && q in sys.uploads && p != q ==>
         IdsApart(sys.uploads[p].phase, sys.uploads[q].phase))
  }

  ghost predicate IdsApart(a: Phase, b: Phase) {
    a.InsertCommit? && b.InsertCommit? ==> a.id != b.id
  }

  // Others' operations do not undo what an upload has put in place.
  lemma LaterUpload(env: Env, s: Store, next: CommitId, s': Store, next': CommitId, u: Upload)
    requires Later(s, s') && next <= next' && UploadOk(env, s, next, u)
    ensures UploadOk(env, s', next', u)
  {
    hide DocToRecord;
  }

  // ----- Each step keeps the promises of the store -----

  // The entries an upload prints are those of its files, whose blobs it has put.
  lemma EntriesStored(env: Env, s: Store, u: Upload)
    requires EntriesPut(env, s, u) && forall f :: f in u.req.files ==> env.pathOk(f.path)
    ensures Stored(s.bucket, env.pathOk, u.entries)
  {
    forall e | e in u.entries
      ensures env.pathOk(e.path)
    {
      var i :| 0 <= i < |u.entries| && u.entries[i] == e;
      assert u.req.files[i] in u.req.files;
    }
  }

  lemma NewRecordAddable(env: Env, s: Store, next: CommitId, u: Upload)
    requires ModuleTable(env.ids, s) && UploadOk(env, s, next, u) && u.phase.InsertCommit? && u.phase.id !in s.commits
    ensures Addable(env, s, NewRecord(env, u, u.phase.id))
  {
    hide B5Input, Serialize, ManifestKey, ModuleDigestOf;
    assert DepDigestsOf(s, u.req.deps) == u.digests;
  }

  lemma SetLabelKeeps(env: Env, s: Store, u: Upload)
    requires StoreOk(env, s) && u.phase.SetLabels? && u.phase.count < |u.req.labels|
    requires IsCommitOfUpload(env, s, u, u.phase.id) && ModuleByName(env.ids, s, u.req.owner, u.req.name).Ok?
    ensures Later(s, StoreStep(env, s, u)) && StoreOk(env, StoreStep(env, s, u))
  {
    hide StoreOk, DocToRecord, Later, MoveLabel;
    DecodedFields(s.commits[u.phase.id]);
    MoveLabelKeeps(env, s, ModuleOf(env, u), u.req.labels[u.phase.count], u.phase.id);
  }

  lemma StoreStepKeeps(env: Env, s: Store, next: CommitId, u: Upload)
    requires StoreOk(env, s) && UploadOk(env, s, next, u)
    requires u.phase.InsertCommit? ==> u.phase.id !in s.commits
    ensures Later(s, StoreStep(env, s, u)) && StoreOk(env, StoreStep(env, s, u))
  {
    hide StoreOk, AddModule, PutBlob, PutManifest, AddCommit, MoveLabel, NewRecord, IsCommitOfUpload, EntriesPut,
      DigestsRead, ModuleByName, ManifestKey, FilesDigest;
    if u.phase.InsertCommit? {
      TableOf(env, s);
      NewRecordAddable(env, s, next, u);
      AddCommitKeeps(env, s, NewRecord(env, u, u.phase.id));
    } else if u.phase.CreateModule? && ModuleOf(env, u) !in s.modules {
      AddModuleKeeps(env, s, u.req.owner, u.req.name);
    } else if u.phase.WriteBlob? && |u.entries| < |u.req.files| {
      PutBlobKeeps(env, s, u.req.files[|u.entries|].content);
    } else if u.phase.WriteManifest? {
      EntriesStored(env, s, u);
      PutManifestKeeps(env, s, u.entries);
    } else if u.phase.SetLabels? && u.phase.count < |u.req.labels| {
      SetLabelKeeps(env, s, u);
    }
  }

  lemma TableOf(env: Env, s: Store)
    requires StoreOk(env, s)
    ensures ModuleTable(env.ids, s)
  {
  }

  // ----- Each step keeps what the upload itself has put in place -----

  lemma AddEntry(env: Env, s: Store, u: Upload)
    requires EntriesPut(env, s, u) && |u.entries| < |u.req.files|
    requires BlobKey(SumOf(env.hash, u.req.files[|u.entries|].content)) in s.bucket
    ensures
      var f := u.req.files[|u.entries|];
      EntriesPut(env, s, u.(entries := u.entries + [Entry(SumOf(env.hash, f.content), f.path)]))
  {
    var n, files := |u.entries|, u.req.files;
    hide BlobKey;
    assert files[..n + 1] == files[..n] + [files[n]];
    assert Entries(env.hash, files[..n + 1]) ==
      Entries(env.hash, files[..n]) + [Entry(SumOf(env.hash, files[n].content), files[n].path)];
  }

  lemma StoredIsB5(env: Env, s: Store, id: CommitId)
    requires StoreOk(env, s) && id in s.commits
    ensures ModuleDigestOf(s, id).kind.B5?
  {
    hide DocToRecord, BucketOk, ModuleTable, LabelOk, B5Input;
    assert CommitOk(env, s, id);
  }

  lemma AllDigestsB5(env: Env, s: Store, u: Upload)
    requires StoreOk(env, s) && DigestsRead(s, u)
    ensures AllB5(u.digests)
  {
    hide StoreOk, ModuleDigestOf;
    forall d | d in u.digests
      ensures d.kind.B5?
    {
      var i :| 0 <= i < |u.digests| && u.digests[i] == d;
      StoredIsB5(env, s, u.req.deps[i]);
    }
  }

  // A commit found by the printed files digest has that files digest.
  lemma HitHasFiles(env: Env, s: Store, u: Upload, hit: Option<CommitId>)
    requires IsHit(env, s, u, hit) && Reused(env, s, u, hit)
    ensures IsCommitOfUpload(env, s, u, hit.value)
  {
    var d := FilesDigestOf(env, u);
    DigestRoundTrip(d);
    assert ':' !in d.algorithm;
    hide FilesDigest, ParseModuleDigest;
    assert ParseDigest(s.commits[hit.value].filesDigest) == Ok(d);
  }

  lemma ModulePhases(env: Env, s: Store, s': Store, next: CommitId, u: Upload)
    requires s' == StoreStep(env, s, u) && UploadOk(env, s', next, u)
    requires u.phase.FindModule? || u.phase.CreateModule? || u.phase.RefindModule?
    ensures UploadOk(env, s', next, UploadStep(env, s, next, u, None))
  {
    hide BlobKey, DigestsRead, EntriesPut, FilesDigestOf;
    SameProgress(env, s', u, UploadStep(env, s, next, u, None));
  }

  // Digests read and entries put do not depend on the phase.
  lemma SameProgress(env: Env, s: Store, u: Upload, u': Upload)
    requires u'.req == u.req
    ensures u'.digests == u.digests && DigestsRead(s, u) ==> DigestsRead(s, u')
    ensures u'.entries == u.entries && EntriesPut(env, s, u) ==> EntriesPut(env, s, u')
    ensures u'.entries == u.entries ==> FilesDigestOf(env, u') == FilesDigestOf(env, u)
    ensures u'.entries == u.entries ==> forall id :: IsCommitOfUpload(env, s, u, id) ==>
      IsCommitOfUpload(env, s, u', id)
  {
  }

  lemma DigestPhase(env: Env, s: Store, next: CommitId, u: Upload)
    requires UploadOk(env, s, next, u) && u.phase.ReadDeps?
    ensures UploadOk(env, s, next, UploadStep(env, s, next, u, None))
  {
    hide EntriesPut, DigestsRead, ModuleByName, FilesDigestOf, GetCommit, IsCommitOfUpload;
    SameProgress(env, s, u, UploadStep(env, s, next, u, None));
    if |u.digests| < |u.req.deps| && GetCommit(s, u.req.deps[|u.digests|]).Ok? {
      AddDigest(s, u);
    }
  }

  lemma AddDigest(s: Store, u: Upload)
    requires DigestsRead(s, u) && |u.digests| < |u.req.deps| && GetCommit(s, u.req.deps[|u.digests|]).Ok?
    ensures DigestsRead(s, u.(digests := u.digests + [GetCommit(s, u.req.deps[|u.digests|]).value.moduleDigest]))
  {
    hide DocToRecord;
  }

  lemma {:induction false} BlobPhases(env: Env, s: Store, s': Store, next: CommitId, u: Upload)
    requires s' == StoreStep(env, s, u) && UploadOk(env, s', next, u) && (u.phase.CheckBlob? || u.phase.WriteBlob?)
    ensures UploadOk(env, s', next, UploadStep(env, s, next, u, None))
  {
    hide BlobKey, EntriesPut, DigestsRead, ModuleByName, FilesDigestOf, IsCommitOfUpload, StoreStep;
    var u' := UploadStep(env, s, next, u, None);
    BlobEntries(env, s, s', next, u);
    SameProgress(env, s', u, u');
  }

  // A blob step leaves the entries as they are, or adds one whose blob is stored by then.
  lemma BlobEntries(env: Env, s: Store, s': Store, next: CommitId, u: Upload)
    requires s' == StoreStep(env, s, u) && EntriesPut(env, s', u) && (u.phase.CheckBlob? || u.phase.WriteBlob?)
    ensures EntriesPut(env, s', UploadStep(env, s, next, u, None))
  {
    hide BlobKey, EntriesPut;
    var u' := UploadStep(env, s, next, u, None);
    if |u'.entries| > |u.entries| {
      NextBlobStored(env, s, u);
      AddEntry(env, s', u);
      hide StoreStep, UploadStep;
      SameEntries(env, s', u.(entries := u'.entries), u');
    } else {
      hide StoreStep, UploadStep;
      SameEntries(env, s', u, u');
    }
  }

  lemma NextBlobStored(env: Env, s: Store, u: Upload)
    requires |u.entries| < |u.req.files| && (u.phase.CheckBlob? || u.phase.WriteBlob?)
    requires u.phase.CheckBlob? ==> BlobKey(SumOf(env.hash, u.req.files[|u.entries|].content)) in s.bucket
    ensures BlobKey(SumOf(env.hash, u.req.files[|u.entries|].content)) in StoreStep(env, s, u).bucket
  {
    hide BlobKey;
  }

  lemma SameEntries(env: Env, s: Store, u: Upload, u': Upload)
    requires u'.req == u.req && u'.entries == u.entries
    ensures EntriesPut(env, s, u) ==> EntriesPut(env, s, u')
  {
  }

  lemma ManifestPhases(env: Env, s: Store, s': Store, next: CommitId, u: Upload)
    requires s' == StoreStep(env, s, u) && UploadOk(env, s', next, u)
    requires (u.phase.CheckManifest? || u.phase.WriteManifest?)
    ensures UploadOk(env, s', next, UploadStep(env, s, next, u, None))
  {
    hide EntriesPut, DigestsRead, ModuleByName, FilesDigestOf, ManifestKey, IsCommitOfUpload, StoreStep;
    if u.phase.CheckManifest? {
      CheckingChangesNothing(env, s, u);
    } else {
      ManifestWritten(env, s, u);
    }
    SameProgress(env, s', u, UploadStep(env, s, next, u, None));
  }

  lemma ManifestWritten(env: Env, s: Store, u: Upload)
    requires u.phase.WriteManifest?
    ensures ManifestKey(FilesDigestOf(env, u)) in StoreStep(env, s, u).bucket
  {
    hide ManifestKey, Serialize;
  }

  lemma CheckingChangesNothing(env: Env, s: Store, u: Upload)
    requires u.phase.CheckManifest? || u.phase.CheckBlob? || u.phase.Lookup? || u.phase.Mint?
    ensures StoreStep(env, s, u) == s
  {
  }

  lemma LookupPhase(env: Env, s: Store, next: CommitId, u: Upload, hit: Option<CommitId>)
    requires UploadOk(env, s, next, u) && u.phase.Lookup? && IsHit(env, s, u, hit)
    ensures UploadOk(env, s, next, UploadStep(env, s, next, u, hit))
  {
    hide EntriesPut, DigestsRead, ModuleByName, FilesDigestOf, ManifestKey, GetCommit, IsHit, Reused, IsCommitOfUpload;
    SameProgress(env, s, u, UploadStep(env, s, next, u, hit));
    if Reused(env, s, u, hit) {
      HitHasFiles(env, s, u, hit);
    }
  }

  lemma MintPhase(env: Env, s: Store, next: CommitId, u: Upload)
    requires UploadOk(env, s, next, u) && u.phase.Mint? && forall id: CommitId :: id in s.commits ==> id < next
    ensures UploadOk(env, s, next + 1, UploadStep(env, s, next, u, None))
  {
    OlderDeps(s, next, u);
    hide EntriesPut, DigestsRead, ModuleByName, FilesDigestOf, ManifestKey, IsCommitOfUpload;
    SameProgress(env, s, u, UploadStep(env, s, next, u, None));
  }

  // Dependencies were stored when their digests were read, so their ids were minted before.
  lemma OlderDeps(s: Store, next: CommitId, u: Upload)
    requires DigestsRead(s, u) && |u.digests| == |u.req.deps| && forall id: CommitId :: id in s.commits ==> id < next
    ensures forall d: CommitId :: d in u.req.deps ==> d < next
  {
    hide ModuleDigestOf;
    forall d: CommitId | d in u.req.deps
      ensures d < next
    {
      var i :| 0 <= i < |u.req.deps| && u.req.deps[i] == d;
    }
  }

  lemma InsertedIsOwn(env: Env, s: Store, next: CommitId, u: Upload)
    requires ModuleTable(env.ids, s) && UploadOk(env, s, next, u) && u.phase.InsertCommit? && u.phase.id !in s.commits
    ensures IsCommitOfUpload(env, StoreStep(env, s, u), u, u.phase.id)
  {
    hide AddCommit, GetCommit, CommitOk, Addable, Later, FilesDigestOf, ModuleTable;
    NewRecordAddable(env, s, next, u);
    var c := NewRecord(env, u, u.phase.id);
    AddedCommit(env, s, c);
    hide UploadOk;
    assert StoreStep(env, s, u) == AddCommit(s, c);
    ReadsOk(AddCommit(s, c), c);
  }

  lemma ReadsOk(s: Store, c: CommitRecord)
    requires GetCommit(s, c.id) == Ok(c)
    ensures c.id in s.commits
  {
  }

  lemma InsertPhase(env: Env, s: Store, s': Store, next: CommitId, u: Upload)
    requires ModuleTable(env.ids, s) && UploadOk(env, s, next, u) && u.phase.InsertCommit? && u.phase.id !in s.commits
    requires s' == StoreStep(env, s, u) && UploadOk(env, s', next, u)
    ensures UploadOk(env, s', next, UploadStep(env, s, next, u, None))
  {
    hide EntriesPut, DigestsRead, ModuleByName, FilesDigestOf, ManifestKey, IsCommitOfUpload, StoreStep;
    InsertedIsOwn(env, s, next, u);
    SameProgress(env, s', u, UploadStep(env, s, next, u, None));
  }

  lemma LabelPhase(env: Env, s: Store, s': Store, next: CommitId, u: Upload)
    requires s' == StoreStep(env, s, u) && UploadOk(env, s', next, u) && u.phase.SetLabels?
    ensures UploadOk(env, s', next, UploadStep(env, s, next, u, None))
  {
    hide EntriesPut, DigestsRead, ModuleByName, FilesDigestOf, ManifestKey, IsCommitOfUpload, StoreStep;
    SameProgress(env, s', u, UploadStep(env, s, next, u, None));
  }

  lemma UploadStepKeeps(env: Env, sys: System, u: Upload, hit: Option<CommitId>)
    requires StoreOk(env, sys.store) && UploadOk(env, sys.store, sys.next, u)
    requires forall id: CommitId :: id in sys.store.commits ==> id < sys.next
    requires u.phase.InsertCommit? ==> u.phase.id !in sys.store.commits
    requires u.phase.Lookup? ==> IsHit(env, sys.store, u, hit)
    ensures
      var next := if u.phase.Mint? then sys.next + 1 else sys.next;
      UploadOk(env, StoreStep(env, sys.store, u), next, UploadStep(env, sys.store, sys.next, u, hit))
  {
    var s, next := sys.store, sys.next;
    var s' := StoreStep(env, s, u);
    hide UploadOk, StoreOk, Later, IsHit, ModuleTable, StoreStep, UploadStep;
    TableOf(env, s);
    StoreStepKeeps(env, s, next, u);
    LaterUpload(env, s, next, s', next, u);
    HitMatters(env, s, next, u, hit);
    match u.phase
    case Lookup => LookupPhases(env, s, next, u, hit);
    case InsertCommit(_) => InsertPhase(env, s, s', next, u);
    case SetLabels(_, _) => LabelPhase(env, s, s', next, u);
    case Mint => MintPhases(env, s, next, u);
    case Done(_) => EndPhases(env, s, next, u);
    case Failed => EndPhases(env, s, next, u);
    case _ => EarlyPhases(env, s, s', next, u);
  }

  // Only the lookup step asks for an answer.
  lemma HitMatters(env: Env, s: Store, next: CommitId, u: Upload, hit: Option<CommitId>)
    ensures !u.phase.Lookup? ==> UploadStep(env, s, next, u, hit) == UploadStep(env, s, next, u, None)
  {
    hide AfterManifest, ModuleByName, GetCommit, BlobKey, ManifestKey, FilesDigestOf;
  }

  lemma LookupPhases(env: Env, s: Store, next: CommitId, u: Upload, hit: Option<CommitId>)
    requires UploadOk(env, s, next, u) && u.phase.Lookup? && IsHit(env, s, u, hit)
    ensures UploadOk(env, StoreStep(env, s, u), next, UploadStep(env, s, next, u, hit))
  {
    hide UploadOk, UploadStep, IsHit;
    LookupPhase(env, s, next, u, hit);
    CheckingChangesNothing(env, s, u);
  }

  lemma MintPhases(env: Env, s: Store, next: CommitId, u: Upload)
    requires UploadOk(env, s, next, u) && u.phase.Mint? && forall id: CommitId :: id in s.commits ==> id < next
    ensures UploadOk(env, StoreStep(env, s, u), next + 1, UploadStep(env, s, next, u, None))
  {
    hide UploadOk, UploadStep;
    MintPhase(env, s, next, u);
    CheckingChangesNothing(env, s, u);
  }

  lemma EndPhases(env: Env, s: Store, next: CommitId, u: Upload)
    requires UploadOk(env, s, next, u) && (u.phase.Done? || u.phase.Failed?)
    ensures UploadOk(env, StoreStep(env, s, u), next, UploadStep(env, s, next, u, None))
  {
    hide UploadOk;
  }

  lemma EarlyPhases(env: Env, s: Store, s': Store, next: CommitId, u: Upload)
    requires StoreOk(env, s) && s' == StoreStep(env, s, u) && UploadOk(env, s', next, u)
    requires u.phase.FindModule? || u.phase.CreateModule? || u.phase.RefindModule? || u.phase.ReadDeps?
      || u.phase.CheckBlob?
          || u.phase.WriteBlob? || u.phase.CheckManifest? || u.phase.WriteManifest?
    ensures UploadOk(env, s', next, UploadStep(env, s, next, u, None))
  {
    hide UploadOk, StoreOk, UploadStep, AddModule, PutBlob, PutManifest, AddCommit, MoveLabel;
    match u.phase
    case ReadDeps => DigestPhase(env, s, next, u);
    case CheckBlob => BlobPhases(env, s, s', next, u);
    case WriteBlob => BlobPhases(env, s, s', next, u);
    case CheckManifest => ManifestPhases(env, s, s', next, u);
    case WriteManifest => ManifestPhases(env, s, s', next, u);
    case _ => ModulePhases(env, s, s', next, u);
  }

  lemma NewCommits(env: Env, s: Store, u: Upload)
    ensures StoreStep(env, s, u).commits.Keys == s.commits.Keys + if u.phase.InsertCommit? then {u.phase.id} else {}
  {
    hide RecordToDoc, FilesDigestOf, B5From, Serialize, BlobKey, ManifestKey, LabelKey;
  }

  lemma NewPhase(env: Env, s: Store, next: CommitId, u: Upload, hit: Option<CommitId>)
    ensures var phase := UploadStep(env, s, next, u, hit).phase; phase.InsertCommit? ==>
      u.phase.Mint? && phase.id == next
  {
    hide ModuleByName, GetCommit, BlobKey, ManifestKey, FilesDigestOf, Reused;
  }

  // Ids minted by different uploads differ from each other and from every stored id.
  lemma StillApart(env: Env, sys: System, sys': System, p: nat, hit: Option<CommitId>)
    requires SystemOk(env, sys) && Advances(env, sys, sys', p, hit)
    ensures MintedApart(sys') && forall id: CommitId :: id in sys'.store.commits ==> id < sys'.next
  {
    hide StoreOk, UploadOk, StoreStep, UploadStep, IsHit, MintedApart, SystemOk;
    NotStoredYet(env, sys, sys', p, hit);
    PairsApart(env, sys, sys', p, hit);
    JoinedApart(sys');
  }

  ghost predicate NoneStored(sys: System) {
    forall q :: q in sys.uploads && sys.uploads[q].phase.InsertCommit? ==> sys.uploads[q].phase.id !in sys.store.commits
  }

  ghost predicate AllApart(sys: System) {
    forall q, r :: q in sys.uploads && r in sys.uploads && q != r ==>
        IdsApart(sys.uploads[q].phase, sys.uploads[r].phase)
  }

  lemma JoinedApart(sys: System)
    requires NoneStored(sys) && AllApart(sys)
    ensures MintedApart(sys)
  {
  }

  lemma NotStoredYet(env: Env, sys: System, sys': System, p: nat, hit: Option<CommitId>)
    requires SystemOk(env, sys) && Advances(env, sys, sys', p, hit)
    ensures NoneStored(sys') && forall id: CommitId :: id in sys'.store.commits ==> id < sys'.next
  {
    hide StoreOk, UploadOk, StoreStep, UploadStep, IsHit;
    var u := sys.uploads[p];
    NewCommits(env, sys.store, u);
    NewPhase(env, sys.store, sys.next, u, hit);
    MintedBelow(env, sys);
    forall q | q in sys'.uploads && sys'.uploads[q].phase.InsertCommit?
      ensures sys'.uploads[q].phase.id !in sys'.store.commits
    {
      assert q != p && u.phase.InsertCommit? ==> IdsApart(sys.uploads[p].phase, sys.uploads[q].phase);
    }
  }

  lemma PairsApart(env: Env, sys: System, sys': System, p: nat, hit: Option<CommitId>)
    requires SystemOk(env, sys) && Advances(env, sys, sys', p, hit)
    ensures AllApart(sys')
  {
    hide StoreOk, UploadOk, StoreStep, UploadStep, IsHit;
    NewPhase(env, sys.store, sys.next, sys.uploads[p], hit);
    MintedBelow(env, sys);
    forall q, r | q in sys'.uploads && r in sys'.uploads && q != r
      ensures IdsApart(sys'.uploads[q].phase, sys'.uploads[r].phase)
    {
      assert IdsApart(sys.uploads[q].phase, sys.uploads[r].phase);
    }
  }

  lemma MintedBelow(env: Env, sys: System)
    requires SystemOk(env, sys)
    ensures forall q :: q in sys.uploads && sys.uploads[q].phase.InsertCommit? ==> sys.uploads[q].phase.id < sys.next
  {
    hide StoreOk, DigestsRead, EntriesPut, IsCommitOfUpload, ModuleByName, ManifestKey, FilesDigestOf;
    forall q | q in sys.uploads && sys.uploads[q].phase.InsertCommit?
      ensures sys.uploads[q].phase.id < sys.next
    {
      assert UploadOk(env, sys.store, sys.next, sys.uploads[q]);
    }
  }

  lemma AdvanceKeeps(env: Env, sys: System, sys': System, p: nat, hit: Option<CommitId>)
    requires SystemOk(env, sys) && Advances(env, sys, sys', p, hit)
    ensures SystemOk(env, sys') && Later(sys.store, sys'.store)
  {
    var u := sys.uploads[p];
    StillApart(env, sys, sys', p, hit);
    hide StoreOk, UploadOk, StoreStep, UploadStep, IsHit, Later, IdsApart;
    StoreStepKeeps(env, sys.store, sys.next, u);
    UploadStepKeeps(env, sys, u, hit);
    forall q | q in sys'.uploads
      ensures UploadOk(env, sys'.store, sys'.next, sys'.uploads[q])
    {
      if q != p {
        LaterUpload(env, sys.store, sys.next, sys'.store, sys'.next, sys.uploads[q]);
      }
    }
  }

  lemma BeginKeeps(env: Env, sys: System, sys': System, p: nat, req: Request)
    requires SystemOk(env, sys) && Begins(env, sys, sys', p, req)
    ensures SystemOk(env, sys') && Later(sys.store, sys'.store)
  {
    hide StoreOk, BlobKey, ManifestKey, ModuleByName;
    assert EntriesPut(env, sys.store, sys'.uploads[p]);
    forall q | q in sys'.uploads
      ensures UploadOk(env, sys'.store, sys'.next, sys'.uploads[q])
    {
    }
    forall q, r | q in sys'.uploads && r in sys'.uploads && q != r
      ensures IdsApart(sys'.uploads[q].phase, sys'.uploads[r].phase)
    {
      if q != p && r != p {
        assert IdsApart(sys.uploads[q].phase, sys.uploads[r].phase);
      }
    }
  }

  lemma StepKeeps(env: Env, sys: System, sys': System)
    requires SystemOk(env, sys) && Step(env, sys, sys')
    ensures SystemOk(env, sys') && Later(sys.store, sys'.store)
  {
    hide SystemOk, Later, Begins, Advances;
    if p, req :| Begins(env, sys, sys', p, req) {
      BeginKeeps(env, sys, sys', p, req);
    } else {
      var p, hit :| Advances(env, sys, sys', p, hit);
      AdvanceKeeps(env, sys, sys', p, hit);
    }
  }

  /** Every interleaving of uploads, stopped at any point, keeps every promise. */
  lemma {:induction false} RunKeeps(env: Env, run: seq<System>, i: nat)
    requires IsRun(env, run) && i < |run|
    ensures SystemOk(env, run[i])
  {
    if i > 0 {
      RunKeeps(env, run, i - 1);
      StepKeeps(env, run[i - 1], run[i]);
    }
  }

  /** Commits and modules, once stored, stay as they are; objects in the bucket stay. */
  lemma {:induction false} RunGrows(env: Env, run: seq<System>, i: nat, j: nat)
    requires IsRun(env, run) && i <= j < |run|
    ensures Later(run[i].store, run[j].store)
    decreases j
  {
    hide SystemOk, Step, Later;
    if i == j {
      LaterReflexive(run[i].store);
    } else {
      RunGrows(env, run, i, j - 1);
      RunKeeps(env, run, j - 1);
      StepKeeps(env, run[j - 1], run[j]);
      LaterTransitive(run[i].store, run[j - 1].store, run[j].store);
    }
  }

  // A run can go on with any step.
  lemma RunOneMore(env: Env, run: seq<System>, sys': System)
    requires IsRun(env, run) && Step(env, run[|run| - 1], sys')
    ensures IsRun(env, run + [sys'])
  {
    hide Step;
    var more := run + [sys'];
    forall i | 0 < i < |more|
      ensures Step(env, more[i - 1], more[i])
    {
      if i == |run| {
        assert more[i - 1] == run[|run| - 1];
      }
    }
  }

  // ----- Why an upload fails -----

  // The module id is taken by a module with another name.
  ghost predicate IdTaken(env: Env, s: Store, u: Upload) {
    && u.phase.RefindModule? && ModuleOf(env, u) in s.modules
    && !(s.modules[ModuleOf(env, u)].owner == u.req.owner && s.modules[ModuleOf(env, u)].name == u.req.name)
  }

  // The next dependency is not stored.
  ghost predicate DepMissing(s: Store, u: Upload) {
    u.phase.ReadDeps? && |u.digests| < |u.req.deps| && u.req.deps[|u.digests|] !in s.commits
  }

  ghost predicate MustFail(env: Env, s: Store, u: Upload) {
    IdTaken(env, s, u) || DepMissing(s, u)
  }

  lemma StoredReads(env: Env, s: Store, id: CommitId)
    requires StoreOk(env, s)
    ensures GetCommit(s, id).Ok? <==> id in s.commits
  {
    hide BucketOk, ModuleTable, LabelOk, DocToRecord, B5From, ManifestKey;
    if id in s.commits {
      assert CommitOk(env, s, id);
    }
  }

  lemma FailsInPhase(env: Env, s: Store, next: CommitId, u: Upload, hit: Option<CommitId>)
    requires StoreOk(env, s) && UploadOk(env, s, next, u) && !u.phase.Failed?
    ensures UploadStep(env, s, next, u, hit).phase.Failed? <==> MustFail(env, s, u)
  {
    hide StoreOk, DigestsRead, EntriesPut, IsCommitOfUpload, ManifestKey, FilesDigestOf, AllB5, GetCommit, UploadStep,
      ModuleByName, MustFail;
    match u.phase
    case RefindModule => RefindFails(env, s, next, u, hit);
    case ReadDeps => ReadFails(env, s, next, u, hit);
    case CheckManifest =>
      AllDigestsB5(env, s, u);
      OthersSucceed(env, s, next, u, hit);
    case WriteManifest =>
      AllDigestsB5(env, s, u);
      OthersSucceed(env, s, next, u, hit);
    case _ => OthersSucceed(env, s, next, u, hit);
  }

  lemma RefindFails(env: Env, s: Store, next: CommitId, u: Upload, hit: Option<CommitId>)
    requires u.phase.RefindModule? && ModuleOf(env, u) in s.modules
    ensures UploadStep(env, s, next, u, hit).phase.Failed? <==> MustFail(env, s, u)
  {
  }

  lemma ReadFails(env: Env, s: Store, next: CommitId, u: Upload, hit: Option<CommitId>)
    requires StoreOk(env, s) && u.phase.ReadDeps?
    ensures UploadStep(env, s, next, u, hit).phase.Failed? <==> MustFail(env, s, u)
  {
    if |u.digests| < |u.req.deps| {
      StoredReads(env, s, u.req.deps[|u.digests|]);
    }
    hide StoreOk, GetCommit;
  }

  lemma OthersSucceed(env: Env, s: Store, next: CommitId, u: Upload, hit: Option<CommitId>)
    requires !u.phase.RefindModule? && !u.phase.ReadDeps? && !u.phase.Failed?
    requires u.phase.CheckManifest? || u.phase.WriteManifest? ==> AllB5(u.digests)
    ensures !UploadStep(env, s, next, u, hit).phase.Failed? && !MustFail(env, s, u)
  {
    hide AllB5, GetCommit, ModuleByName, BlobKey, ManifestKey, FilesDigestOf, Reused;
  }

  // A step fails an upload exactly when its module id is taken or its next dependency is not stored; the
  // check for dependencies without B5 digests never fails, because all stored digests are B5.
  lemma FailureStep(env: Env, sys: System, sys': System, p: nat, hit: Option<CommitId>)
    requires SystemOk(env, sys) && Advances(env, sys, sys', p, hit) && !sys.uploads[p].phase.Failed?
    ensures sys'.uploads[p].phase.Failed? <==> MustFail(env, sys.store, sys.uploads[p])
  {
    hide StoreOk, UploadOk, StoreStep, UploadStep, IsHit, MustFail, MintedApart;
    FailsInPhase(env, sys.store, sys.next, sys.uploads[p], hit);
  }

  /** In every run, an upload that has failed did so in a state in which its module id was taken by
      another module, or one of its dependencies was not stored. */
  lemma {:induction false} FailureReason(env: Env, run: seq<System>, i: nat, p: nat)
    returns (k: nat)
    requires IsRun(env, run) && i < |run| && p in run[i].uploads && run[i].uploads[p].phase.Failed?
    ensures k < i && p in run[k].uploads && run[k].uploads[p].req == run[i].uploads[p].req
    ensures MustFail(env, run[k].store, run[k].uploads[p])
  {
    hide SystemOk, MustFail, StoreStep, UploadStep, IsHit;
    assert i > 0 && Step(env, run[i - 1], run[i]);
    RunKeeps(env, run, i - 1);
    SameRequest(env, run[i - 1], run[i], p);
    if p in run[i - 1].uploads && run[i - 1].uploads[p].phase.Failed? {
      k := FailureReason(env, run, i - 1, p);
    } else {
      k := i - 1;
      NowFailed(env, run[i - 1], run[i], p);
    }
  }

  lemma SameRequest(env: Env, sys: System, sys': System, p: nat)
    requires Step(env, sys, sys') && p in sys.uploads
    ensures p in sys'.uploads && sys'.uploads[p].req == sys.uploads[p].req
  {
    hide StoreStep, IsHit, UploadStep;
    if q, hit :| Advances(env, sys, sys', q, hit) {
      StepKeepsRequest(env, sys.store, sys.next, sys.uploads[q], hit);
    }
  }

  lemma StepKeepsRequest(env: Env, s: Store, next: CommitId, u: Upload, hit: Option<CommitId>)
    ensures UploadStep(env, s, next, u, hit).req == u.req
  {
    hide AllB5, GetCommit, ModuleByName, BlobKey, ManifestKey, FilesDigestOf, Reused;
  }

  lemma NowFailed(env: Env, sys: System, sys': System, p: nat)
    requires SystemOk(env, sys) && Step(env, sys, sys') && p in sys'.uploads && sys'.uploads[p].phase.Failed?
    requires p !in sys.uploads || !sys.uploads[p].phase.Failed?
    ensures p in sys.uploads && MustFail(env, sys.store, sys.uploads[p])
  {
    hide SystemOk, MustFail, StoreStep, UploadStep, IsHit;
    if q, hit :| Advances(env, sys, sys', q, hit) {
      if q == p {
        FailureStep(env, sys, sys', p, hit);
      }
    }
  }
}
