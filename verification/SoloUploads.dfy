/** An upload that no other upload disturbs: the steps of the interleaved machine (module Uploads), taken
    one after the other, have exactly the effects of the whole-call relation `Commits.Pushed`, which the
    registry object's CreateCommit is proved against. */
module SoloUploads {
  import opened Wrappers
  import opened Digests
  import opened Manifests
  import opened Merkle
  import opened Buckets
  import opened Docstore
  import opened StoreInvariant
  import opened Uploads
  import Commits

  // `n` steps of upload `p` alone lead from one system to the other.
  ghost predicate Leads(env: Env, sys: System, sys': System, p: nat, n: nat)
    decreases n
  {
    if n == 0 then sys' == sys
    else
      exists hit ::
        && Advances(env, sys, NextSystem(env, sys, p, hit), p, hit)
        && Leads(env, NextSystem(env, sys, p, hit), sys', p, n - 1)
  }

  function NextSystem(env: Env, sys: System, p: nat, hit: Option<CommitId>): System {
    if p in sys.uploads then Advance(env, sys, p, hit) else sys
  }

  lemma OneStep(env: Env, sys: System, p: nat, hit: Option<CommitId>)
    requires p in sys.uploads && (sys.uploads[p].phase.Lookup? ==> IsHit(env, sys.store, sys.uploads[p], hit))
    ensures Leads(env, sys, Advance(env, sys, p, hit), p, 1)
  {
    hide StoreStep, UploadStep;
    var next := NextSystem(env, sys, p, hit);
    assert Leads(env, next, next, p, 0);
    assert Advances(env, sys, next, p, hit);
  }

  lemma {:induction false} LeadsTransitive(env: Env, a: System, b: System, c: System, p: nat, n: nat, m: nat)
    requires Leads(env, a, b, p, n) && Leads(env, b, c, p, m)
    ensures Leads(env, a, c, p, n + m)
    decreases n
  {
    hide Advances, NextSystem;
    if n > 0 {
      var hit := FirstStep(env, a, b, p, n);
      hide Leads;
      var next := NextSystem(env, a, p, hit);
      LeadsTransitive(env, next, b, c, p, n - 1, m);
      PutFirst(env, a, c, p, n - 1 + m, hit);
    }
  }

  lemma NoSteps(env: Env, sys: System, p: nat)
    ensures Leads(env, sys, sys, p, 0)
  {
  }

  lemma FirstStep(env: Env, a: System, b: System, p: nat, n: nat) returns (hit: Option<CommitId>)
    requires Leads(env, a, b, p, n) && n > 0
    ensures Advances(env, a, NextSystem(env, a, p, hit), p, hit) && Leads(env, NextSystem(env, a, p, hit), b, p, n - 1)
  {
    hide Advances, NextSystem;
    hit :| Advances(env, a, NextSystem(env, a, p, hit), p, hit) && Leads(env, NextSystem(env, a, p, hit), b, p, n - 1);
  }

  lemma PutFirst(env: Env, a: System, b: System, p: nat, n: nat, hit: Option<CommitId>)
    requires Advances(env, a, NextSystem(env, a, p, hit), p, hit) && Leads(env, NextSystem(env, a, p, hit), b, p, n)
    ensures Leads(env, a, b, p, n + 1)
  {
    hide Advances, NextSystem;
  }

  // The same system with other stores, other ids to mint, and another upload `p`.
  function With(sys: System, p: nat, s: Store, next: CommitId, u: Upload): System {
    System(s, next, sys.uploads[p := u])
  }

  // One step, its effects spelled out by the caller.
  lemma StepTo(env: Env, sys: System, p: nat, hit: Option<CommitId>, s: Store, next: CommitId, u: Upload)
    requires p in sys.uploads && (sys.uploads[p].phase.Lookup? ==> IsHit(env, sys.store, sys.uploads[p], hit))
    requires s == StoreStep(env, sys.store, sys.uploads[p])
    requires u == UploadStep(env, sys.store, sys.next, sys.uploads[p], hit)
    requires next == if sys.uploads[p].phase.Mint? then sys.next + 1 else sys.next
    ensures Leads(env, sys, With(sys, p, s, next, u), p, 1)
  {
    OneStep(env, sys, p, hit);
  }

  lemma StepWith(env: Env, sys: System, p: nat, s: Store, next: CommitId, u: Upload, hit: Option<CommitId>, s': Store,
                 next': CommitId, u': Upload)
    requires u.phase.Lookup? ==> IsHit(env, s, u, hit)
    requires s' == StoreStep(env, s, u) && u' == UploadStep(env, s, next, u, hit)
    requires next' == if u.phase.Mint? then next + 1 else next
    ensures Leads(env, With(sys, p, s, next, u), With(sys, p, s', next', u'), p, 1)
  {
    hide StoreStep, UploadStep, IsHit, Leads;
    var before := With(sys, p, s, next, u);
    StepTo(env, before, p, hit, s', next', u');
    assert With(before, p, s', next', u') == With(sys, p, s', next', u');
  }

  // ----- Blobs -----

  // The upload after its first `k` files are in the bucket.
  function PutSoFar(env: Env, u: Upload, k: nat): Upload
    requires k <= |u.req.files|
  {
    u.(entries := Entries(env.hash, u.req.files[..k]), phase := CheckBlob)
  }

  function AtBlob(env: Env, sys: System, p: nat, k: nat): System
    requires p in sys.uploads && k <= |sys.uploads[p].req.files|
  {
    var u := sys.uploads[p];
    With(sys, p, Commits.EnsureBlobs(env, sys.store, u.req.files[..k]), sys.next, PutSoFar(env, u, k))
  }

  lemma OneMoreFile(env: Env, s: Store, u: Upload, k: nat)
    requires k < |u.req.files|
    ensures
      var f := u.req.files[k];
      && PutSoFar(env, u, k + 1).entries == PutSoFar(env, u, k).entries + [Entry(SumOf(env.hash, f.content), f.path)]
      && Commits.EnsureBlobs(env, s, u.req.files[..k + 1])
         == Commits.EnsureBlob(env, Commits.EnsureBlobs(env, s, u.req.files[..k]), f.content)
  {
    hide Commits.EnsureBlob;
    assert u.req.files[..k + 1][..k] == u.req.files[..k];
    assert Entries(env.hash, u.req.files[..k + 1]) ==
      Entries(env.hash, u.req.files[..k]) + [Entry(SumOf(env.hash, u.req.files[k].content), u.req.files[k].path)];
  }

  // A blob that is there costs one step, a new one two.
  lemma {:induction false} BlobRun(env: Env, sys: System, p: nat, k: nat) returns (n: nat)
    requires p in sys.uploads && k < |sys.uploads[p].req.files|
    ensures Leads(env, AtBlob(env, sys, p, k), AtBlob(env, sys, p, k + 1), p, n)
  {
    var u, before, after := sys.uploads[p], AtBlob(env, sys, p, k), AtBlob(env, sys, p, k + 1);
    var v, v' := PutSoFar(env, u, k), PutSoFar(env, u, k + 1);
    OneMoreFile(env, sys.store, u, k);
    assert |v.entries| == k && v.phase == CheckBlob && v.req == u.req;
    hide BlobKey, Leads, Commits.EnsureBlobs, PutSoFar, Entries, With;
    var s, s' := before.store, after.store;
    if BlobKey(SumOf(env.hash, u.req.files[k].content)) in s.bucket {
      StepWith(env, sys, p, s, sys.next, v, None, s, sys.next, v');
      n := 1;
    } else {
      var w := v.(phase := WriteBlob);
      StepWith(env, sys, p, s, sys.next, v, None, s, sys.next, w);
      StepWith(env, sys, p, s, sys.next, w, None, s', sys.next, v');
      LeadsTransitive(env, before, With(sys, p, s, sys.next, w), after, p, 1, 1);
      n := 2;
    }
  }

  lemma {:induction false} BlobsRun(env: Env, sys: System, p: nat, k: nat) returns (n: nat)
    requires p in sys.uploads && k <= |sys.uploads[p].req.files|
    ensures Leads(env, AtBlob(env, sys, p, 0), AtBlob(env, sys, p, k), p, n)
  {
    hide AtBlob, Leads;
    if k == 0 {
      NoSteps(env, AtBlob(env, sys, p, 0), p);
      n := 0;
    } else {
      var a := BlobsRun(env, sys, p, k - 1);
      var b := BlobRun(env, sys, p, k - 1);
      LeadsTransitive(env, AtBlob(env, sys, p, 0), AtBlob(env, sys, p, k - 1), AtBlob(env, sys, p, k), p, a, b);
      n := a + b;
    }
  }

  // ----- The manifest -----

  function Printed(env: Env, u: Upload): Upload {
    u.(entries := Entries(env.hash, u.req.files), phase := CheckManifest)
  }

  // From the stored blobs to the stored manifest.
  lemma ManifestRun(env: Env, sys: System, p: nat, s: Store, u: Upload) returns (n: nat)
    requires p in sys.uploads && AllB5(u.digests)
    ensures
      Leads(env, With(sys, p, s, sys.next, Printed(env, u)),
        With(sys, p, Commits.EnsureManifest(env, s, Entries(env.hash, u.req.files)), sys.next,
          Printed(env, u).(phase := Lookup)), p, n)
  {
    var v := Printed(env, u);
    var before := With(sys, p, s, sys.next, v);
    var s' := Commits.EnsureManifest(env, s, v.entries);
    hide ManifestKey, Leads, FilesDigest, Serialize;
    if ManifestKey(FilesDigest(env.hash, v.entries)) in s.bucket {
      StepTo(env, before, p, None, s, sys.next, v.(phase := Lookup));
      n := 1;
      assert With(before, p, s, sys.next, v.(phase := Lookup)) == With(sys, p, s', sys.next, v.(phase := Lookup));
    } else {
      var writing := With(before, p, s, sys.next, v.(phase := WriteManifest));
      StepTo(env, before, p, None, s, sys.next, v.(phase := WriteManifest));
      StepTo(env, writing, p, None, s', sys.next, v.(phase := Lookup));
      assert With(writing, p, s', sys.next, v.(phase := Lookup)) == With(sys, p, s', sys.next, v.(phase := Lookup));
      LeadsTransitive(env, before, writing, With(writing, p, s', sys.next, v.(phase := Lookup)), p, 1, 1);
      n := 2;
    }
  }

  // ----- Labels -----

  function AtLabel(env: Env, sys: System, p: nat, id: CommitId, k: nat): System
    requires p in sys.uploads && k <= |sys.uploads[p].req.labels|
  {
    var u := sys.uploads[p];
    With(sys, p, Commits.SetLabels(sys.store, ModuleOf(env, u), u.req.labels[..k], id), sys.next,
      u.(phase := SetLabels(id, k)))
  }

  lemma {:induction false} LabelsRun(env: Env, sys: System, p: nat, id: CommitId, k: nat)
    requires p in sys.uploads && k <= |sys.uploads[p].req.labels|
    ensures Leads(env, AtLabel(env, sys, p, id, 0), AtLabel(env, sys, p, id, k), p, k)
  {
    hide Leads, AtLabel;
    if k == 0 {
      NoSteps(env, AtLabel(env, sys, p, id, 0), p);
    } else {
      LabelsRun(env, sys, p, id, k - 1);
      LabelStep(env, sys, p, id, k - 1);
      LeadsTransitive(env, AtLabel(env, sys, p, id, 0), AtLabel(env, sys, p, id, k - 1), AtLabel(env, sys, p, id, k),
        p, k - 1, 1);
    }
  }

  lemma LabelStep(env: Env, sys: System, p: nat, id: CommitId, k: nat)
    requires p in sys.uploads && k < |sys.uploads[p].req.labels|
    ensures Leads(env, AtLabel(env, sys, p, id, k), AtLabel(env, sys, p, id, k + 1), p, 1)
  {
    hide Leads, MoveLabel, With, ModuleOf;
    var u := sys.uploads[p];
    var names := u.req.labels;
    assert names[..k + 1][..k] == names[..k] && names[..k + 1][k] == names[k];
    var s := Commits.SetLabels(sys.store, ModuleOf(env, u), names[..k], id);
    SameModule(env, u, SetLabels(id, k));
    StepWith(env, sys, p, s, sys.next, u.(phase := SetLabels(id, k)), None,
      MoveLabel(s, ModuleOf(env, u), names[k], id), sys.next, u.(phase := SetLabels(id, k + 1)));
  }

  lemma SameModule(env: Env, u: Upload, phase: Phase)
    ensures ModuleOf(env, u.(phase := phase)) == ModuleOf(env, u)
  {
  }

  // All labels, and then the upload is done.
  lemma LabelsThenDone(env: Env, sys: System, p: nat, s: Store, next: CommitId, u: Upload, id: CommitId)
    returns (n: nat)
    requires p in sys.uploads && u.phase == SetLabels(id, 0)
    ensures
      Leads(env, With(sys, p, s, next, u),
        With(sys, p, Commits.SetLabels(s, ModuleOf(env, u), u.req.labels, id), next, u.(phase := Done(id))), p, n)
  {
    var start, k := With(sys, p, s, next, u), |u.req.labels|;
    LabelsRun(env, start, p, id, k);
    hide Leads, Commits.SetLabels;
    assert u.req.labels[..k] == u.req.labels;
    NoLabels(s, ModuleOf(env, u), u.req.labels, id);
    var last := AtLabel(env, start, p, id, k);
    assert AtLabel(env, start, p, id, 0) == start;
    StepTo(env, last, p, None, last.store, next, u.(phase := Done(id)));
    var done := With(sys, p, last.store, next, u.(phase := Done(id)));
    assert With(last, p, last.store, next, u.(phase := Done(id))) == done;
    LeadsTransitive(env, start, last, done, p, k, 1);
    n := k + 1;
  }

  lemma NoLabels(s: Store, moduleId: Id32, names: seq<string>, id: CommitId)
    ensures Commits.SetLabels(s, moduleId, names[..0], id) == s
  {
  }

  // ----- The commit: found, or minted and inserted -----

  // The push that an upload of module `m` amounts to.
  function PushOf(m: ModuleRecord, u: Upload): Commits.Push {
    Commits.Push(m, u.req.files, u.req.labels, u.req.deps, u.digests)
  }

  // The commit id an upload ends with, and the stores when it is in place.
  function ChosenId(m: ModuleRecord, u: Upload, s: Store, next: CommitId, hit: Option<CommitId>): CommitId {
    if Commits.IsReused(s, PushOf(m, u), hit) then hit.value else next
  }

  function WithCommit(env: Env, m: ModuleRecord, u: Upload, s: Store, next: CommitId, hit: Option<CommitId>): Store {
    if Commits.IsReused(s, PushOf(m, u), hit) || next in s.commits then s
        else AddCommit(s, Commits.NewCommit(env, PushOf(m, u), next))
  }

  ghost predicate IsModuleOf(env: Env, m: ModuleRecord, u: Upload) {
    m.id == ModuleOf(env, u) && m.ownerId == env.ids.ownerId(u.req.owner)
  }

  // The machine and the whole-call relation ask the same question and build the same record.
  lemma SameQuestion(env: Env, m: ModuleRecord, u: Upload, s: Store, next: CommitId, hit: Option<CommitId>)
    requires IsModuleOf(env, m, u) && u.entries == Entries(env.hash, u.req.files)
    requires Commits.Answers(env, s, PushOf(m, u), hit)
    ensures IsHit(env, s, u, hit) && Reused(env, s, u, hit) == Commits.IsReused(s, PushOf(m, u), hit)
    ensures NewRecord(env, u, next) == Commits.NewCommit(env, PushOf(m, u), next)
  {
    hide DocToRecord, Serialize, B5From, Entries;
  }

  lemma LookupStep(env: Env, sys: System, p: nat, s: Store, u: Upload, hit: Option<CommitId>)
    requires u.phase == Lookup && IsHit(env, s, u, hit)
    ensures
      Leads(env, With(sys, p, s, sys.next, u),
        With(sys, p, s, sys.next, u.(phase := if Reused(env, s, u, hit) then SetLabels(hit.value, 0) else Mint)), p, 1)
  {
    hide Leads, With, IsHit, GetCommit;
    StepWith(env, sys, p, s, sys.next, u, hit, s, sys.next,
      u.(phase := if Reused(env, s, u, hit) then SetLabels(hit.value, 0) else Mint));
  }

  lemma MintStep(env: Env, sys: System, p: nat, s: Store, next: CommitId, u: Upload)
    requires u.phase == Mint
    ensures Leads(env, With(sys, p, s, next, u), With(sys, p, s, next + 1, u.(phase := InsertCommit(next))), p, 1)
  {
    hide Leads, With;
    StepWith(env, sys, p, s, next, u, None, s, next + 1, u.(phase := InsertCommit(next)));
  }

  lemma InsertStep(env: Env, sys: System, p: nat, s: Store, next: CommitId, u: Upload)
    requires u.phase.InsertCommit?
    ensures
      var id := u.phase.id;
      Leads(env, With(sys, p, s, next, u),
        With(sys, p, if id in s.commits then s else AddCommit(s, NewRecord(env, u, id)), next,
          u.(phase := SetLabels(id, 0))),
        p, 1)
  {
    hide Leads, With, AddCommit, NewRecord;
    var id := u.phase.id;
    StepWith(env, sys, p, s, next, u, None,
      if id in s.commits then s else AddCommit(s, NewRecord(env, u, id)), next, u.(phase := SetLabels(id, 0)));
  }

  lemma SameRecord(env: Env, u: Upload, phase: Phase, id: CommitId)
    ensures NewRecord(env, u.(phase := phase), id) == NewRecord(env, u, id)
  {
  }

  lemma CommitRun(env: Env, sys: System, p: nat, m: ModuleRecord, u: Upload, s: Store, hit: Option<CommitId>)
    returns (n: nat)
    requires IsModuleOf(env, m, u) && u.phase == Lookup && u.entries == Entries(env.hash, u.req.files)
    requires Commits.Answers(env, s, PushOf(m, u), hit)
    ensures
      var reused := Commits.IsReused(s, PushOf(m, u), hit);
      Leads(env, With(sys, p, s, sys.next, u),
        With(sys, p, WithCommit(env, m, u, s, sys.next, hit), if reused then sys.next else sys.next + 1,
          u.(phase := SetLabels(ChosenId(m, u, s, sys.next, hit), 0))), p, n)
  {
    var id := sys.next;
    SameQuestion(env, m, u, s, id, hit);
    LookupStep(env, sys, p, s, u, hit);
    hide Leads, With, IsHit, Reused, Commits.IsReused, NewRecord, Commits.NewCommit, AddCommit, Entries,
      Commits.Answers, PushOf, IsModuleOf;
    n := 1;
    if !Commits.IsReused(s, PushOf(m, u), hit) {
      InsertRun(env, sys, p, u, s);
      LeadsTransitive(env, With(sys, p, s, id, u), With(sys, p, s, id, u.(phase := Mint)),
        With(sys, p, WithCommit(env, m, u, s, id, hit), id + 1, u.(phase := SetLabels(id, 0))), p, 1, 2);
      n := 3;
    }
  }

  lemma InsertRun(env: Env, sys: System, p: nat, u: Upload, s: Store)
    ensures
      var id := sys.next;
      Leads(env, With(sys, p, s, id, u.(phase := Mint)),
        With(sys, p, if id in s.commits then s else AddCommit(s, NewRecord(env, u, id)), id + 1,
          u.(phase := SetLabels(id, 0))),
        p, 2)
  {
    hide Leads, AddCommit, NewRecord, With;
    var id := sys.next;
    MintStep(env, sys, p, s, id, u.(phase := Mint));
    InsertStep(env, sys, p, s, id + 1, u.(phase := InsertCommit(id)));
    SameRecord(env, u, InsertCommit(id), id);
    LeadsTransitive(env, With(sys, p, s, id, u.(phase := Mint)), With(sys, p, s, id + 1, u.(phase := InsertCommit(id))),
      With(sys, p, if id in s.commits then s else AddCommit(s, NewRecord(env, u, id)), id + 1,
        u.(phase := SetLabels(id, 0))),
      p, 1, 1);
  }

  // ----- The whole call -----

  // All blobs are there; the manifest is printed.
  lemma BlobsDone(env: Env, sys: System, p: nat, s: Store, u: Upload)
    ensures
      Leads(env, With(sys, p, s, sys.next, PutSoFar(env, u, |u.req.files|)),
        With(sys, p, s, sys.next, Printed(env, u)), p, 1)
  {
    hide Leads, With, BlobKey;
    assert u.req.files[..|u.req.files|] == u.req.files;
    StepWith(env, sys, p, s, sys.next, PutSoFar(env, u, |u.req.files|), None, s, sys.next, Printed(env, u));
  }

  lemma AtBlobEnds(env: Env, sys: System, p: nat)
    requires p in sys.uploads && sys.uploads[p].phase == CheckBlob && sys.uploads[p].entries == []
    ensures
      var u := sys.uploads[p];
      && AtBlob(env, sys, p, 0) == sys
      && AtBlob(env, sys, p, |u.req.files|)
         == With(sys, p, Commits.EnsureBlobs(env, sys.store, u.req.files), sys.next, PutSoFar(env, u, |u.req.files|))
  {
    var u := sys.uploads[p];
    assert u.req.files[..0] == [] && u.req.files[..|u.req.files|] == u.req.files;
    assert Entries(env.hash, []) == [];
    assert PutSoFar(env, u, 0) == u;
  }

  // From the start of the blobs to the manifest in place.
  lemma {:induction false} FilesRun(env: Env, sys: System, p: nat) returns (n: nat)
    requires p in sys.uploads && sys.uploads[p].phase == CheckBlob && sys.uploads[p].entries == []
    requires AllB5(sys.uploads[p].digests)
    ensures
      var u := sys.uploads[p];
      Leads(env, sys,
        With(sys, p, Commits.StoreFiles(env, sys.store, u.req.files), sys.next, Printed(env, u).(phase := Lookup)),
        p, n)
  {
    hide Leads, With, Printed, Commits.EnsureBlobs, Commits.StoreFiles, AllB5;
    var u := sys.uploads[p];
    var blobs := PrintRun(env, sys, p);
    var manifest := StoreRun(env, sys, p, u);
    var mid := With(sys, p, Commits.EnsureBlobs(env, sys.store, u.req.files), sys.next, Printed(env, u));
    var end := With(sys, p, Commits.StoreFiles(env, sys.store, u.req.files), sys.next,
      Printed(env, u).(phase := Lookup));
    LeadsTransitive(env, sys, mid, end, p, blobs, manifest);
    n := blobs + manifest;
  }

  lemma StoreRun(env: Env, sys: System, p: nat, u: Upload) returns (n: nat)
    requires p in sys.uploads && AllB5(u.digests)
    ensures
      Leads(env, With(sys, p, Commits.EnsureBlobs(env, sys.store, u.req.files), sys.next, Printed(env, u)),
        With(sys, p, Commits.StoreFiles(env, sys.store, u.req.files), sys.next, Printed(env, u).(phase := Lookup)),
        p, n)
  {
    hide Leads, With, Printed, Commits.EnsureManifest, Commits.EnsureBlobs, Entries, AllB5;
    n := ManifestRun(env, sys, p, Commits.EnsureBlobs(env, sys.store, u.req.files), u);
  }

  lemma AllBlobsRun(env: Env, sys: System, p: nat) returns (n: nat)
    requires p in sys.uploads && sys.uploads[p].phase == CheckBlob && sys.uploads[p].entries == []
    ensures
      var u := sys.uploads[p];
      Leads(env, sys,
        With(sys, p, Commits.EnsureBlobs(env, sys.store, u.req.files), sys.next, PutSoFar(env, u, |u.req.files|)),
        p, n)
  {
    hide Leads, With, PutSoFar, Commits.EnsureBlobs, AtBlob;
    AtBlobEnds(env, sys, p);
    n := BlobsRun(env, sys, p, |sys.uploads[p].req.files|);
  }

  lemma PrintRun(env: Env, sys: System, p: nat) returns (n: nat)
    requires p in sys.uploads && sys.uploads[p].phase == CheckBlob && sys.uploads[p].entries == []
    ensures
      var u := sys.uploads[p];
      Leads(env, sys, With(sys, p, Commits.EnsureBlobs(env, sys.store, u.req.files), sys.next, Printed(env, u)), p, n)
  {
    hide Leads, With, PutSoFar, Printed, Commits.EnsureBlobs;
    var u := sys.uploads[p];
    var s := Commits.EnsureBlobs(env, sys.store, u.req.files);
    var blobs := AllBlobsRun(env, sys, p);
    BlobsDone(env, sys, p, s, u);
    LeadsTransitive(env, sys, With(sys, p, s, sys.next, PutSoFar(env, u, |u.req.files|)),
      With(sys, p, s, sys.next, Printed(env, u)), p, blobs, 1);
    n := blobs + 1;
  }

  // What `Pushed` says of the stores with the files, of the stores with the commit, and of the end.
  ghost predicate InParts(env: Env, sys: System, m: ModuleRecord, u: Upload, hit: Option<CommitId>, stored: Store,
                          base: Store, s': Store, next': CommitId, id: CommitId) {
    && AllB5(u.digests) && IsModuleOf(env, m, u) && stored == Commits.StoreFiles(env, sys.store, u.req.files)
    && Commits.Answers(env, stored, PushOf(m, u), hit) && id == ChosenId(m, u, stored, sys.next, hit)
    && next' == (if Commits.IsReused(stored, PushOf(m, u), hit) then sys.next else sys.next + 1)
    && base == WithCommit(env, m, u, stored, sys.next, hit)
    && s' == Commits.SetLabels(base, ModuleOf(env, u), u.req.labels, id)
  }

  /** Whatever the whole-call relation allows CreateCommit to do, the machine does step by step when the
      upload runs alone: same stores, same ids minted, and it ends with the same commit. */
  lemma SoloPush(env: Env, sys: System, p: nat, m: ModuleRecord, hit: Option<CommitId>, s': Store, next': CommitId,
                 c: CommitRecord)
    returns (n: nat)
    requires p in sys.uploads && sys.uploads[p].phase == CheckBlob && sys.uploads[p].entries == []
    requires IsModuleOf(env, m, sys.uploads[p]) && CommitTable(sys.store)
    requires Commits.Pushed(env, sys.store, sys.next, PushOf(m, sys.uploads[p]), hit, s', next', c)
    ensures
      var u := sys.uploads[p];
      Leads(env, sys, With(sys, p, s', next', u.(entries := Entries(env.hash, u.req.files), phase := Done(c.id))), p, n)
  {
    hide CommitTable, Leads, With, Commits.Pushed, IsModuleOf, InParts;
    var stored, base := PushedParts(env, sys, p, m, hit, s', next', c);
    n := PartsRun(env, sys, p, m, hit, stored, base, s', next', c.id);
  }

  lemma PushedParts(env: Env, sys: System, p: nat, m: ModuleRecord, hit: Option<CommitId>, s': Store, next': CommitId,
                    c: CommitRecord)
    returns (stored: Store, base: Store)
    requires p in sys.uploads && IsModuleOf(env, m, sys.uploads[p]) && CommitTable(sys.store)
    requires Commits.Pushed(env, sys.store, sys.next, PushOf(m, sys.uploads[p]), hit, s', next', c)
    ensures InParts(env, sys, m, sys.uploads[p], hit, stored, base, s', next', c.id)
  {
    var u := sys.uploads[p];
    PushedId(env, sys, p, m, hit, s', next', c);
    hide Commits.StoreFiles, Commits.SetLabels, Commits.Answers, AddCommit, Commits.NewCommit, Commits.IsReused,
      CommitTable;
    stored := Commits.StoreFiles(env, sys.store, u.req.files);
    base := WithCommit(env, m, u, stored, sys.next, hit);
  }

  lemma PartsRun(env: Env, sys: System, p: nat, m: ModuleRecord, hit: Option<CommitId>, stored: Store, base: Store,
                 s': Store, next': CommitId, id: CommitId)
    returns (n: nat)
    requires p in sys.uploads && sys.uploads[p].phase == CheckBlob && sys.uploads[p].entries == []
    requires InParts(env, sys, m, sys.uploads[p], hit, stored, base, s', next', id)
    ensures
      var u := sys.uploads[p];
      Leads(env, sys, With(sys, p, s', next', u.(entries := Entries(env.hash, u.req.files), phase := Done(id))), p, n)
  {
    hide Leads, With, Commits.StoreFiles, Commits.SetLabels, Commits.Answers, Commits.IsReused, WithCommit, ChosenId,
      AllB5, Entries;
    var u := sys.uploads[p];
    var v := u.(entries := Entries(env.hash, u.req.files), phase := Lookup);
    var w := v.(phase := SetLabels(id, 0));
    var files := FilesRun(env, sys, p);
    assert Printed(env, u).(phase := Lookup) == v;
    SameParts(env, sys, m, u, v, hit, stored, base, s', next', id);
    hide InParts, Printed, PushOf, IsModuleOf;
    var commit := CommitRunTo(env, sys, p, m, v, hit, stored, base, s', next', id);
    var labels := LabelsThenDone(env, sys, p, base, next', w, id);
    EndOfParts(env, sys, m, u, w, hit, stored, base, s', next', id);
    hide ModuleOf;
    ThreeRuns(env, sys, With(sys, p, stored, sys.next, v), With(sys, p, base, next', w),
      With(sys, p, s', next', w.(phase := Done(id))), p,
      files, commit, labels);
    n := files + commit + labels;
  }

  lemma ThreeRuns(env: Env, a: System, b: System, c: System, d: System, p: nat, n: nat, m: nat, k: nat)
    requires Leads(env, a, b, p, n) && Leads(env, b, c, p, m) && Leads(env, c, d, p, k)
    ensures Leads(env, a, d, p, n + m + k)
  {
    hide Leads;
    LeadsTransitive(env, a, b, c, p, n, m);
    LeadsTransitive(env, a, c, d, p, n + m, k);
  }

  lemma SameParts(env: Env, sys: System, m: ModuleRecord, u: Upload, v: Upload, hit: Option<CommitId>, stored: Store,
                  base: Store, s': Store, next': CommitId, id: CommitId)
    requires InParts(env, sys, m, u, hit, stored, base, s', next', id) && v.req == u.req && v.digests == u.digests
    ensures InParts(env, sys, m, v, hit, stored, base, s', next', id)
    ensures stored == Commits.StoreFiles(env, sys.store, u.req.files)
    ensures AllB5(u.digests)
  {
    hide Commits.StoreFiles, Commits.SetLabels, Commits.Answers, Commits.IsReused, AddCommit, Commits.NewCommit, AllB5;
    assert PushOf(m, v) == PushOf(m, u);
  }

  lemma EndOfParts(env: Env, sys: System, m: ModuleRecord, u: Upload, w: Upload, hit: Option<CommitId>, stored: Store,
                   base: Store, s': Store, next': CommitId, id: CommitId)
    requires InParts(env, sys, m, u, hit, stored, base, s', next', id) && w.req == u.req
    ensures s' == Commits.SetLabels(base, ModuleOf(env, w), w.req.labels, id)
  {
    hide Commits.StoreFiles, Commits.SetLabels, Commits.Answers, Commits.IsReused, WithCommit, ChosenId, AllB5;
  }

  lemma CommitRunTo(env: Env, sys: System, p: nat, m: ModuleRecord, v: Upload, hit: Option<CommitId>, stored: Store,
                    base: Store, s': Store, next': CommitId, id: CommitId) returns (n: nat)
    requires InParts(env, sys, m, v, hit, stored, base, s', next', id)
    requires v.phase == Lookup && v.entries == Entries(env.hash, v.req.files)
    ensures
      Leads(env, With(sys, p, stored, sys.next, v), With(sys, p, base, next', v.(phase := SetLabels(id, 0))), p, n)
  {
    hide Leads, With, Commits.StoreFiles, Commits.SetLabels, Commits.Answers, Commits.IsReused, WithCommit, ChosenId,
      AllB5, Entries, PushOf, IsModuleOf;
    n := CommitRun(env, sys, p, m, v, stored, hit);
  }

  lemma PushedId(env: Env, sys: System, p: nat, m: ModuleRecord, hit: Option<CommitId>, s': Store, next': CommitId,
                 c: CommitRecord)
    requires p in sys.uploads && CommitTable(sys.store)
    requires Commits.Pushed(env, sys.store, sys.next, PushOf(m, sys.uploads[p]), hit, s', next', c)
    ensures c.id == ChosenId(m, sys.uploads[p], Commits.StoreFiles(env, sys.store, sys.uploads[p].req.files), sys.next,
      hit)
  {
    var s, files := sys.store, sys.uploads[p].req.files;
    Commits.StoreFilesStored(env, s, files);
    var stored := Commits.StoreFiles(env, s, files);
    hide Commits.StoreFiles, Commits.SetLabels, DocToRecord, Serialize;
    if Commits.IsReused(stored, PushOf(m, sys.uploads[p]), hit) {
      DecodedFields(stored.commits[hit.value]);
    }
  }
}
