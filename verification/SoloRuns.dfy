/** The other half of the agreement between the step machine and the whole-call relation: wherever the
    steps of an undisturbed upload lead, they end only where `Commits.Pushed` ends. */
module SoloRuns {
  import opened Wrappers
  import opened Digests
  import opened Manifests
  import opened Merkle
  import opened Buckets
  import opened Docstore
  import opened StoreInvariant
  import opened Uploads
  import opened SoloUploads
  import Commits

  // Where the upload set out: the stores, the next id and the upload at its first blob.
  datatype Origin = Origin(store: Store, next: CommitId, mod: ModuleRecord, upload: Upload)

  function FilesStored(env: Env, o: Origin): Store {
    Commits.StoreFiles(env, o.store, o.upload.req.files)
  }

  // After `k` files.
  ghost predicate AtFile(env: Env, o: Origin, s: Store, v: Upload) {
    var k, files := |v.entries|, o.upload.req.files;
    k <= |files| && v.entries == Entries(env.hash, files[..k]) && s == Commits.EnsureBlobs(env, o.store, files[..k])
  }

  ghost predicate AllFiles(env: Env, o: Origin, s: Store, v: Upload) {
    v.entries == Entries(env.hash, o.upload.req.files) && s == Commits.EnsureBlobs(env, o.store, o.upload.req.files)
  }

  ghost predicate AllStored(env: Env, o: Origin, s: Store, v: Upload) {
    v.entries == Entries(env.hash, o.upload.req.files) && s == FilesStored(env, o)
  }

  // The lookup's answer, and the stores with the commit that it led to.
  ghost predicate Settled(env: Env, o: Origin, hit: Option<CommitId>, base: Store, next: CommitId, id: CommitId) {
    var p, stored := PushOf(o.mod, o.upload), FilesStored(env, o);
    && AllB5(o.upload.digests) && Commits.Answers(env, stored, p, hit)
    && base == WithCommit(env, o.mod, o.upload, stored, o.next, hit)
    && id == ChosenId(o.mod, o.upload, stored, o.next, hit)
    && next == if Commits.IsReused(stored, p, hit) then o.next else o.next + 1
  }

  // Nothing reusable was found.
  ghost predicate Missed(env: Env, o: Origin) {
    exists hit :: Misses(env, o, hit)
  }

  ghost predicate Misses(env: Env, o: Origin, hit: Option<CommitId>) {
    var p, stored := PushOf(o.mod, o.upload), FilesStored(env, o);
    AllB5(o.upload.digests) && Commits.Answers(env, stored, p, hit) && !Commits.IsReused(stored, p, hit)
  }

  ghost predicate Labelled(env: Env, o: Origin, s: Store, next: CommitId, id: CommitId, labels: seq<string>) {
    exists hit, base :: Settled(env, o, hit, base, next, id) && s == Commits.SetLabels(base, o.mod.id, labels, id)
  }

  ghost predicate OnTheWay(env: Env, o: Origin, s: Store, next: CommitId, v: Upload) {
    && v.req == o.upload.req && v.digests == o.upload.digests
    && match v.phase
       case CheckBlob => AtFile(env, o, s, v) && next == o.next
       case WriteBlob => AtFile(env, o, s, v) && next == o.next && |v.entries| < |v.req.files|
                         && BlobKey(SumOf(env.hash, v.req.files[|v.entries|].content)) !in s.bucket
       case CheckManifest => AllFiles(env, o, s, v) && next == o.next
       case WriteManifest => AllFiles(env, o, s, v) && next == o.next && ManifestKey(FilesDigestOf(env, v)) !in s.bucket
       case Lookup => AllStored(env, o, s, v) && next == o.next && AllB5(o.upload.digests)
       case Mint => AllStored(env, o, s, v) && next == o.next && Missed(env, o)
       case InsertCommit(id) => AllStored(env, o, s, v) && id == o.next && next == id + 1 && Missed(env, o)
       case SetLabels(id, count) => count <= |v.req.labels| && Labelled(env, o, s, next, id, v.req.labels[..count])
       case Done(id) => Labelled(env, o, s, next, id, v.req.labels)
       case Failed => !AllB5(o.upload.digests) && s == FilesStored(env, o) && next == o.next
       case _ => false
  }

  // ----- One step -----

  lemma CheckBlobStep(env: Env, o: Origin, s: Store, next: CommitId, v: Upload)
    requires OnTheWay(env, o, s, next, v) && v.phase.CheckBlob?
    ensures OnTheWay(env, o, StoreStep(env, s, v), next, UploadStep(env, s, next, v, None))
  {
    hide BlobKey, Entries, Commits.EnsureBlobs, ManifestKey;
    var k, files := |v.entries|, o.upload.req.files;
    if k < |files| {
      NextFile(env, o, s, v);
    } else {
      assert files[..k] == files;
    }
  }

  lemma WriteBlobStep(env: Env, o: Origin, s: Store, next: CommitId, v: Upload)
    requires OnTheWay(env, o, s, next, v) && v.phase.WriteBlob?
    ensures OnTheWay(env, o, StoreStep(env, s, v), next, UploadStep(env, s, next, v, None))
  {
    hide BlobKey, Entries, Commits.EnsureBlobs, PutBlob;
    NextFile(env, o, s, v);
  }

  // The file after those already put.
  lemma NextFile(env: Env, o: Origin, s: Store, v: Upload)
    requires AtFile(env, o, s, v) && |v.entries| < |o.upload.req.files|
    ensures
      var f := o.upload.req.files[|v.entries|];
      AtFile(env, o, Commits.EnsureBlob(env, s, f.content),
        v.(entries := v.entries + [Entry(SumOf(env.hash, f.content), f.path)], phase := CheckBlob))
  {
    hide Commits.EnsureBlob, Commits.EnsureBlobs, Entries;
    OneMoreFile(env, o.store, o.upload, |v.entries|);
  }

  lemma ManifestStep(env: Env, o: Origin, s: Store, next: CommitId, v: Upload)
    requires OnTheWay(env, o, s, next, v) && (v.phase.CheckManifest? || v.phase.WriteManifest?)
    ensures OnTheWay(env, o, StoreStep(env, s, v), next, UploadStep(env, s, next, v, None))
  {
    hide ManifestKey, FilesDigest, Serialize, Entries, Commits.EnsureBlobs, AllB5;
  }

  lemma LookupStepTo(env: Env, o: Origin, s: Store, next: CommitId, v: Upload, hit: Option<CommitId>)
    requires OnTheWay(env, o, s, next, v) && v.phase.Lookup? && IsHit(env, s, v, hit)
    requires IsModuleOf(env, o.mod, o.upload)
    ensures OnTheWay(env, o, StoreStep(env, s, v), next, UploadStep(env, s, next, v, hit))
  {
    hide Reused, IsHit, Labelled, Missed, FilesStored, Entries, IsModuleOf;
    assert v.req.labels[..0] == [];
    LookupSettles(env, o, v, hit);
  }

  // The lookup finds the commit to label, or nothing reusable.
  lemma LookupSettles(env: Env, o: Origin, v: Upload, hit: Option<CommitId>)
    requires v.req == o.upload.req && v.entries == Entries(env.hash, v.req.files) && IsModuleOf(env, o.mod, o.upload)
    requires AllB5(o.upload.digests) && IsHit(env, FilesStored(env, o), v, hit)
    ensures
      if Reused(env, FilesStored(env, o), v, hit) then hit.Some?
          && Labelled(env, o, FilesStored(env, o), o.next, hit.value, [])
      else Missed(env, o)
  {
    var stored := FilesStored(env, o);
    SameAnswer(env, o, stored, v, hit);
    hide Commits.Answers, IsHit, Commits.StoreFiles, Entries, AllB5, IsModuleOf, DocToRecord, FilesStored, AddCommit;
    if Reused(env, stored, v, hit) {
      assert Settled(env, o, hit, stored, o.next, hit.value);
    } else {
      assert Misses(env, o, hit);
    }
  }

  lemma SameAnswer(env: Env, o: Origin, s: Store, v: Upload, hit: Option<CommitId>)
    requires v.req == o.upload.req && v.entries == Entries(env.hash, v.req.files) && IsModuleOf(env, o.mod, o.upload)
    ensures IsHit(env, s, v, hit) <==> Commits.Answers(env, s, PushOf(o.mod, o.upload), hit)
    ensures Reused(env, s, v, hit) == Commits.IsReused(s, PushOf(o.mod, o.upload), hit)
  {
    hide DocToRecord, Serialize, Entries;
  }

  lemma InsertStepTo(env: Env, o: Origin, s: Store, next: CommitId, v: Upload)
    requires OnTheWay(env, o, s, next, v) && v.phase.InsertCommit? && IsModuleOf(env, o.mod, o.upload)
    ensures OnTheWay(env, o, StoreStep(env, s, v), next, UploadStep(env, s, next, v, None))
  {
    hide Commits.Answers, Commits.IsReused, Commits.StoreFiles, Entries, Commits.SetLabels, AllB5, AddCommit, B5From,
      FilesDigest;
    var hit :| Misses(env, o, hit);
    assert NewRecord(env, v, o.next) == Commits.NewCommit(env, PushOf(o.mod, o.upload), o.next);
    var s' := StoreStep(env, s, v);
    assert Settled(env, o, hit, s', next, o.next);
    NoLabels(s', o.mod.id, v.req.labels, o.next);
  }

  lemma LabelStepTo(env: Env, o: Origin, s: Store, next: CommitId, v: Upload)
    requires OnTheWay(env, o, s, next, v) && v.phase.SetLabels? && IsModuleOf(env, o.mod, o.upload)
    ensures OnTheWay(env, o, StoreStep(env, s, v), next, UploadStep(env, s, next, v, None))
  {
    hide Settled, MoveLabel;
    var id, count, labels := v.phase.id, v.phase.count, v.req.labels;
    var hit, base :| Settled(env, o, hit, base, next, id)
      && s == Commits.SetLabels(base, o.mod.id, labels[..count], id);
    if count < |labels| {
      assert labels[..count + 1][..count] == labels[..count];
    } else {
      assert labels[..count] == labels;
    }
  }

  lemma OneStepOnTheWay(env: Env, o: Origin, s: Store, next: CommitId, v: Upload, hit: Option<CommitId>)
    requires OnTheWay(env, o, s, next, v) && IsModuleOf(env, o.mod, o.upload)
    requires (v.phase.Lookup? ==> IsHit(env, s, v, hit))
    ensures
      OnTheWay(env, o, StoreStep(env, s, v), if v.phase.Mint? then next + 1 else next, UploadStep(env, s, next, v, hit))
  {
    hide OnTheWay, StoreStep, UploadStep, IsHit, IsModuleOf;
    if v.phase.Mint? {
      HitMatters(env, s, next, v, hit);
      MintStepTo(env, o, s, next, v);
    } else if v.phase.Done? || v.phase.Failed? {
      HitMatters(env, s, next, v, hit);
      NoStep(env, s, next, v);
    } else {
      OtherStep(env, o, s, next, v, hit);
    }
  }

  lemma MintStepTo(env: Env, o: Origin, s: Store, next: CommitId, v: Upload)
    requires OnTheWay(env, o, s, next, v) && v.phase.Mint?
    ensures OnTheWay(env, o, StoreStep(env, s, v), next + 1, UploadStep(env, s, next, v, None))
  {
    hide Missed, FilesStored, Entries;
  }

  lemma NoStep(env: Env, s: Store, next: CommitId, v: Upload)
    requires v.phase.Done? || v.phase.Failed?
    ensures StoreStep(env, s, v) == s && UploadStep(env, s, next, v, None) == v
  {
  }

  lemma OtherStep(env: Env, o: Origin, s: Store, next: CommitId, v: Upload, hit: Option<CommitId>)
    requires OnTheWay(env, o, s, next, v) && IsModuleOf(env, o.mod, o.upload)
    requires (v.phase.Lookup? ==> IsHit(env, s, v, hit))
    requires !v.phase.Mint? && !v.phase.Done? && !v.phase.Failed?
    ensures OnTheWay(env, o, StoreStep(env, s, v), next, UploadStep(env, s, next, v, hit))
  {
    HitMatters(env, s, next, v, hit);
    NotBefore(env, o, s, next, v);
    hide OnTheWay, StoreStep, UploadStep, IsHit, IsModuleOf;
    match v.phase
    case CheckBlob => CheckBlobStep(env, o, s, next, v);
    case WriteBlob => WriteBlobStep(env, o, s, next, v);
    case Lookup => LookupStepTo(env, o, s, next, v, hit);
    case InsertCommit(_) => InsertStepTo(env, o, s, next, v);
    case SetLabels(_, _) => LabelStepTo(env, o, s, next, v);
    case _ => ManifestStep(env, o, s, next, v);
  }

  lemma NotBefore(env: Env, o: Origin, s: Store, next: CommitId, v: Upload)
    requires OnTheWay(env, o, s, next, v)
    ensures !v.phase.FindModule? && !v.phase.CreateModule? && !v.phase.RefindModule? && !v.phase.ReadDeps?
  {
  }

  // ----- All steps -----

  lemma {:induction false} LeadsOnTheWay(env: Env, o: Origin, sys: System, sys': System, p: nat, n: nat)
    requires Leads(env, sys, sys', p, n) && p in sys.uploads && IsModuleOf(env, o.mod, o.upload)
    requires OnTheWay(env, o, sys.store, sys.next, sys.uploads[p])
    ensures p in sys'.uploads && OnTheWay(env, o, sys'.store, sys'.next, sys'.uploads[p])
    decreases n
  {
    hide OnTheWay, IsModuleOf, StoreStep, UploadStep, IsHit;
    if n > 0 {
      var hit := FirstStep(env, sys, sys', p, n);
      hide Leads;
      OneStepOnTheWay(env, o, sys.store, sys.next, sys.uploads[p], hit);
      LeadsOnTheWay(env, o, NextSystem(env, sys, p, hit), sys', p, n - 1);
    }
  }

  lemma Starting(env: Env, o: Origin)
    requires o.upload.phase == CheckBlob && o.upload.entries == []
    ensures OnTheWay(env, o, o.store, o.next, o.upload)
  {
    var files := o.upload.req.files;
    assert files[..0] == [] && Entries(env.hash, []) == [];
  }

  // The whole-call relation for an upload that ended.
  ghost predicate EndsAsPushed(env: Env, sys: System, u: Upload, m: ModuleRecord, sys': System, id: CommitId) {
    exists hit, c: CommitRecord ::
      c.id == id && Commits.Pushed(env, sys.store, sys.next, PushOf(m, u), hit, sys'.store, sys'.next, c)
  }

  /** However many steps an undisturbed upload takes: if it is done, the stores changed as the whole-call
      relation says and it names that relation's commit; if it failed, a dependency's digest was not B5,
      and only its files were stored. */
  lemma SoloEnds(env: Env, sys: System, sys': System, p: nat, m: ModuleRecord, n: nat)
    requires p in sys.uploads && sys.uploads[p].phase == CheckBlob && sys.uploads[p].entries == []
    requires IsModuleOf(env, m, sys.uploads[p]) && CommitTable(sys.store) && Leads(env, sys, sys', p, n)
    ensures p in sys'.uploads
    ensures var u, phase := sys.uploads[p], sys'.uploads[p].phase;
      && (phase.Done? ==> EndsAsPushed(env, sys, u, m, sys', phase.id))
      && (phase.Failed? ==>
            !AllB5(u.digests) && sys'.store == Commits.StoreFiles(env, sys.store, u.req.files) && sys'.next == sys.next)
  {
    var u := sys.uploads[p];
    var o := Origin(sys.store, sys.next, m, u);
    Starting(env, o);
    hide Leads, IsModuleOf, CommitTable, Commits.StoreFiles, AllB5, EndsAsPushed, Labelled;
    LeadsOnTheWay(env, o, sys, sys', p, n);
    if sys'.uploads[p].phase.Done? {
      LabelledIsPushed(env, sys, sys', m, u, sys'.uploads[p].phase.id);
    }
  }

  lemma LabelledIsPushed(env: Env, sys: System, sys': System, m: ModuleRecord, u: Upload, id: CommitId)
    requires CommitTable(sys.store)
    requires Labelled(env, Origin(sys.store, sys.next, m, u), sys'.store, sys'.next, id, u.req.labels)
    ensures EndsAsPushed(env, sys, u, m, sys', id)
  {
    var o := Origin(sys.store, sys.next, m, u);
    hide Settled, Commits.SetLabels, Commits.Pushed, CommitTable;
    var hit, base :| Settled(env, o, hit, base, sys'.next, id)
      && sys'.store == Commits.SetLabels(base, m.id, u.req.labels, id);
    var c := SettledIsPushed(env, o, hit, base, sys'.store, sys'.next, id);
  }

  lemma SettledIsPushed(env: Env, o: Origin, hit: Option<CommitId>, base: Store, s': Store, next': CommitId,
                        id: CommitId)
    returns (c: CommitRecord)
    requires CommitTable(o.store) && Settled(env, o, hit, base, next', id)
    requires s' == Commits.SetLabels(base, o.mod.id, o.upload.req.labels, id)
    ensures c.id == id && Commits.Pushed(env, o.store, o.next, PushOf(o.mod, o.upload), hit, s', next', c)
  {
    var p, stored := PushOf(o.mod, o.upload), FilesStored(env, o);
    Commits.StoreFilesStored(env, o.store, o.upload.req.files);
    hide Commits.StoreFiles, Commits.SetLabels, Commits.Answers, DocToRecord, AllB5, AddCommit, Commits.PushDigest,
      B5From;
    if Commits.IsReused(stored, p, hit) {
      DecodedFields(stored.commits[hit.value]);
      c := GetCommit(stored, hit.value).value;
    } else {
      c := Commits.NewCommit(env, p, o.next);
    }
  }
}
