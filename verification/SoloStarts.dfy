/** The first steps of an upload that no other upload disturbs: its module is found or created, and the
    digests of its dependencies are read (internal/registry/registry.go, internal/service/upload.go). With
    modules SoloUploads and SoloRuns, the whole run of one upload and the method UploadContent of module
    RegistryObject come to the same. */
module SoloStarts {
  import opened Wrappers
  import opened Digests
  import opened Manifests
  import opened Merkle
  import opened Docstore
  import opened StoreInvariant
  import opened Uploads
  import opened SoloUploads
  import opened SoloRuns
  import UploadTheorems
  import Commits

  // The stores with the module of the request, unless its id is taken.
  function Opened(env: Env, s: Store, req: Request): Store {
    WithModule(env, s, req.owner, req.name)
  }

  ghost predicate DepsStored(s: Store, deps: seq<CommitId>) {
    forall d: CommitId :: d in deps ==> d in s.commits
  }

  // When the upload succeeds: the module is there, or its id was free, and all dependencies are stored.
  ghost predicate Accepts(env: Env, s: Store, req: Request) {
    ModuleByName(env.ids, Opened(env, s, req), req.owner, req.name).Ok? && DepsStored(s, req.deps)
  }

  // The upload on its way to its first blob, with the stores as they then are.
  ghost predicate Early(env: Env, s0: Store, req: Request, s: Store, v: Upload) {
    && v.req == req && v.entries == []
    && match v.phase
       case FindModule => s == s0 && v.digests == []
       case CreateModule => s == s0 && v.digests == [] && ModuleByName(env.ids, s0, req.owner, req.name).Err?
       case RefindModule => s == s0 && v.digests == [] && ModuleIdFor(env.ids, req.owner, req.name) in s0.modules
       case ReadDeps => DepsRead(env, s0, req, s, v)
       case CheckBlob => DepsRead(env, s0, req, s, v) && |v.digests| == |req.deps|
       case Failed => s == Opened(env, s0, req) && !Accepts(env, s0, req)
       case _ => false
  }

  ghost predicate DepsRead(env: Env, s0: Store, req: Request, s: Store, v: Upload) {
    var k := |v.digests|;
    && s == Opened(env, s0, req) && ModuleByName(env.ids, s, req.owner, req.name).Ok?
    && k <= |req.deps| && DepsStored(s0, req.deps[..k]) && v.digests == DepDigestsOf(s0, req.deps[..k])
  }

  // ----- One step -----

  lemma ModuleStep(env: Env, s0: Store, req: Request, s: Store, next: CommitId, v: Upload)
    requires Early(env, s0, req, s, v) && (v.phase.FindModule? || v.phase.CreateModule? || v.phase.RefindModule?)
    ensures Early(env, s0, req, StoreStep(env, s, v), UploadStep(env, s, next, v, None))
  {
    assert req.deps[..0] == [];
    assert DepDigestsOf(s0, []) == [];
    hide ModuleDigestOf;
  }

  lemma DigestStep(env: Env, s0: Store, req: Request, s: Store, next: CommitId, v: Upload)
    requires StoreOk(env, s0) && Early(env, s0, req, s, v) && v.phase.ReadDeps?
    ensures Early(env, s0, req, StoreStep(env, s, v), UploadStep(env, s, next, v, None))
  {
    hide StoreOk, GetCommit, ModuleByName, DepsStored;
    var k, deps := |v.digests|, req.deps;
    OpenedCommits(env, s0, req);
    if k < |deps| {
      StoredReads(env, s0, deps[k]);
      SameRead(s0, s, deps[k]);
      OneMoreRead(s0, deps, k);
      if deps[k] !in s0.commits {
        MissingDep(s0, deps, k);
      }
    } else {
      assert deps[..k] == deps;
    }
  }

  lemma OpenedCommits(env: Env, s: Store, req: Request)
    ensures Opened(env, s, req).commits == s.commits && Opened(env, s, req).bucket == s.bucket
  {
  }

  lemma SameRead(s: Store, s': Store, id: CommitId)
    requires s'.commits == s.commits
    ensures GetCommit(s', id) == GetCommit(s, id)
  {
  }

  lemma OneMoreRead(s: Store, deps: seq<CommitId>, k: nat)
    requires k < |deps|
    ensures DepsStored(s, deps[..k + 1]) <==> DepsStored(s, deps[..k]) && deps[k] in s.commits
    ensures DepDigestsOf(s, deps[..k + 1]) == DepDigestsOf(s, deps[..k]) + [ModuleDigestOf(s, deps[k])]
  {
    hide ModuleDigestOf;
    assert deps[..k + 1] == deps[..k] + [deps[k]];
  }

  lemma MissingDep(s: Store, deps: seq<CommitId>, k: nat)
    requires k < |deps| && deps[k] !in s.commits
    ensures !DepsStored(s, deps)
  {
    assert deps[k] in deps;
  }

  lemma EarlyStep(env: Env, s0: Store, req: Request, s: Store, next: CommitId, v: Upload, hit: Option<CommitId>)
    requires StoreOk(env, s0) && Early(env, s0, req, s, v) && !v.phase.CheckBlob?
    ensures Early(env, s0, req, StoreStep(env, s, v), UploadStep(env, s, next, v, hit)) && !v.phase.Mint?
  {
    EarlyPhase(env, s0, req, s, v);
    HitMatters(env, s, next, v, hit);
    hide StoreOk, Early, StoreStep, UploadStep;
    if v.phase.ReadDeps? {
      DigestStep(env, s0, req, s, next, v);
    } else if v.phase.Failed? {
      NoStep(env, s, next, v);
    } else {
      ModuleStep(env, s0, req, s, next, v);
    }
  }

  lemma EarlyPhase(env: Env, s0: Store, req: Request, s: Store, v: Upload)
    requires Early(env, s0, req, s, v) && !v.phase.CheckBlob?
    ensures v.phase.FindModule? || v.phase.CreateModule? || v.phase.RefindModule? || v.phase.ReadDeps?
      || v.phase.Failed?
  {
  }

  // ----- Wherever the steps lead -----

  // The upload is at its first blob.
  ghost predicate AtFirstBlob(env: Env, s0: Store, req: Request, sys: System, p: nat) {
    p in sys.uploads && sys.uploads[p].phase.CheckBlob? && Early(env, s0, req, sys.store, sys.uploads[p])
  }

  // Any number of steps leads to an early stage, or past the first blob.
  lemma {:induction false} LeadsEarly(env: Env, s0: Store, req: Request, sys: System, sys': System, p: nat, n: nat)
    returns (past: bool, mid: System, k: nat)
    requires StoreOk(env, s0) && p in sys.uploads && Early(env, s0, req, sys.store, sys.uploads[p])
    requires Leads(env, sys, sys', p, n)
    ensures !past ==> p in sys'.uploads && Early(env, s0, req, sys'.store, sys'.uploads[p]) && sys'.next == sys.next
    ensures past ==> AtFirstBlob(env, s0, req, mid, p) && mid.next == sys.next && Leads(env, mid, sys', p, k)
    decreases n
  {
    hide StoreOk, Early, StoreStep, UploadStep, IsHit;
    mid, k := sys, n;
    past := sys.uploads[p].phase.CheckBlob?;
    if !past && n > 0 {
      var hit := FirstStep(env, sys, sys', p, n);
      hide Leads;
      EarlyStep(env, s0, req, sys.store, sys.next, sys.uploads[p], hit);
      past, mid, k := LeadsEarly(env, s0, req, NextSystem(env, sys, p, hit), sys', p, n - 1);
    }
  }

  // ----- The steps do lead there -----

  // How many kinds of phases still lie before the first blob.
  function Before(phase: Phase): nat {
    match phase
    case FindModule => 4
    case CreateModule => 3
    case RefindModule => 2
    case ReadDeps => 1
    case _ => 0
  }

  lemma StepComesNearer(env: Env, s0: Store, req: Request, s: Store, next: CommitId, v: Upload)
    requires Early(env, s0, req, s, v) && Before(v.phase) > 0
    ensures
      var v' := UploadStep(env, s, next, v, None);
      && |v.digests| <= |req.deps|
      && (|| Before(v'.phase) < Before(v.phase)
          || (v'.phase == v.phase && |v.digests| < |v'.digests|))
  {
    hide GetCommit, DepDigestsOf, DepsStored, ModuleByName;
  }

  // From any early stage to the first blob, or to the failure.
  lemma {:induction false} EarlyRun(env: Env, s0: Store, req: Request, sys: System, p: nat)
    returns (sys': System, n: nat)
    requires StoreOk(env, s0) && p in sys.uploads && Early(env, s0, req, sys.store, sys.uploads[p])
    ensures Leads(env, sys, sys', p, n) && p in sys'.uploads
    ensures sys' == With(sys, p, sys'.store, sys.next, sys'.uploads[p])
    ensures Early(env, s0, req, sys'.store, sys'.uploads[p]) && Before(sys'.uploads[p].phase) == 0
    decreases Before(sys.uploads[p].phase), |req.deps| - |sys.uploads[p].digests|
  {
    hide StoreOk, Early, StoreStep, UploadStep, Leads;
    var u := sys.uploads[p];
    if Before(u.phase) == 0 {
      NoSteps(env, sys, p);
      sys', n := sys, 0;
    } else {
      var next := OneNearer(env, s0, req, sys, p);
      sys', n := EarlyRun(env, s0, req, next, p);
      LeadsTransitive(env, sys, next, sys', p, 1, n);
      n := n + 1;
    }
  }

  lemma OneNearer(env: Env, s0: Store, req: Request, sys: System, p: nat) returns (next: System)
    requires StoreOk(env, s0) && p in sys.uploads && Early(env, s0, req, sys.store, sys.uploads[p])
    requires Before(sys.uploads[p].phase) > 0
    ensures Leads(env, sys, next, p, 1) && p in next.uploads && Early(env, s0, req, next.store, next.uploads[p])
    ensures next == With(sys, p, next.store, sys.next, next.uploads[p]) && |sys.uploads[p].digests| <= |req.deps|
    ensures
      var u, v := sys.uploads[p], next.uploads[p];
      Before(v.phase) < Before(u.phase) || (v.phase == u.phase && |u.digests| < |v.digests|)
  {
    hide StoreOk, Early, StoreStep, UploadStep, Leads;
    var u := sys.uploads[p];
    StepComesNearer(env, s0, req, sys.store, sys.next, u);
    EarlyStep(env, s0, req, sys.store, sys.next, u, None);
    OneStep(env, sys, p, None);
    next := Advance(env, sys, p, None);
  }

  // ----- The whole upload -----

  // An upload that has not taken a step yet.
  function NewUpload(req: Request): Upload {
    Upload(req, [], [], FindModule)
  }

  ghost function PushFor(env: Env, s: Store, req: Request): Commits.Push
    requires Accepts(env, s, req)
  {
    Commits.Push(ModuleByName(env.ids, Opened(env, s, req), req.owner, req.name).value, req.files, req.labels, req.deps,
      DepDigestsOf(s, req.deps))
  }

  // The whole-call relation for an upload, its module included.
  ghost predicate UploadedAs(env: Env, sys: System, req: Request, hit: Option<CommitId>, s': Store, next': CommitId,
                             c: CommitRecord)
    requires Accepts(env, sys.store, req)
  {
    Commits.Pushed(env, Opened(env, sys.store, req), sys.next, PushFor(env, sys.store, req), hit, s', next', c)
  }

  lemma OpenedOk(env: Env, s: Store, req: Request)
    requires StoreOk(env, s)
    ensures StoreOk(env, Opened(env, s, req)) && Later(s, Opened(env, s, req)) && CommitTable(Opened(env, s, req))
  {
    LaterReflexive(s);
    hide StoreOk, Later, AddModule, CommitTable;
    if ModuleIdFor(env.ids, req.owner, req.name) !in s.modules {
      AddModuleKeeps(env, s, req.owner, req.name);
    }
    Commits.StoredTables(env, Opened(env, s, req));
  }

  // At the first blob all is known.
  lemma FirstBlobFacts(env: Env, s0: Store, req: Request, s: Store, v: Upload) returns (m: ModuleRecord)
    requires StoreOk(env, s0) && Early(env, s0, req, s, v) && v.phase.CheckBlob?
    ensures Accepts(env, s0, req) && s == Opened(env, s0, req) && CommitTable(s)
    ensures v == Upload(req, DepDigestsOf(s0, req.deps), [], CheckBlob) && AllB5(v.digests)
    ensures IsModuleOf(env, m, v) && PushOf(m, v) == PushFor(env, s0, req)
  {
    OpenedOk(env, s0, req);
    assert req.deps[..|v.digests|] == req.deps;
    UploadTheorems.DepDigestsB5(env, s0, req.deps);
    TableOf(env, Opened(env, s0, req));
    hide StoreOk, CommitTable, AllB5, Opened, DepDigestsOf, Later;
    m := ModuleByName(env.ids, s, req.owner, req.name).value;
  }

  lemma FailedFacts(env: Env, s0: Store, req: Request, s: Store, v: Upload)
    requires Early(env, s0, req, s, v) && Before(v.phase) == 0 && !v.phase.CheckBlob?
    ensures !Accepts(env, s0, req) && s == Opened(env, s0, req) && v.phase == Failed && v.req == req
  {
    hide Accepts, Opened;
  }

  lemma NewIsEarly(env: Env, s: Store, req: Request)
    ensures Early(env, s, req, s, NewUpload(req))
  {
  }

  /** Whatever the registry object's whole call may do with an upload that it accepts, the machine does step
      by step when the upload runs alone ... */
  lemma SoloUpload(env: Env, sys: System, p: nat, req: Request, hit: Option<CommitId>, s': Store, next': CommitId,
                   c: CommitRecord)
    returns (v: Upload, n: nat)
    requires StoreOk(env, sys.store) && p in sys.uploads && sys.uploads[p] == NewUpload(req)
    requires Accepts(env, sys.store, req) && UploadedAs(env, sys, req, hit, s', next', c)
    ensures Leads(env, sys, With(sys, p, s', next', v), p, n) && v.req == req && v.phase == Done(c.id)
  {
    NewIsEarly(env, sys.store, req);
    hide StoreOk, Early, Accepts, Leads, Commits.Pushed, Opened, PushOf, CommitTable, IsModuleOf;
    var mid, k := EarlyRun(env, sys.store, req, sys, p);
    if !mid.uploads[p].phase.CheckBlob? {
      FailedFacts(env, sys.store, req, mid.store, mid.uploads[p]);
    }
    var m := FirstBlobFacts(env, sys.store, req, mid.store, mid.uploads[p]);
    var more := SoloPush(env, mid, p, m, hit, s', next', c);
    v := mid.uploads[p].(entries := Entries(env.hash, req.files), phase := Done(c.id));
    hide Entries;
    assert With(mid, p, s', next', v) == With(sys, p, s', next', v);
    LeadsTransitive(env, sys, mid, With(sys, p, s', next', v), p, k, more);
    n := k + more;
  }

  // ... and it fails an upload that the whole call refuses, with the same effect on the stores.
  lemma SoloRefusal(env: Env, sys: System, p: nat, req: Request) returns (v: Upload, n: nat)
    requires StoreOk(env, sys.store) && p in sys.uploads && sys.uploads[p] == NewUpload(req)
    requires !Accepts(env, sys.store, req)
    ensures Leads(env, sys, With(sys, p, Opened(env, sys.store, req), sys.next, v), p, n) && v.req == req
    ensures v.phase == Failed
  {
    NewIsEarly(env, sys.store, req);
    hide StoreOk, Early, Accepts, Leads, Opened;
    var mid, k := EarlyRun(env, sys.store, req, sys, p);
    v, n := mid.uploads[p], k;
    if v.phase.CheckBlob? {
      var m := FirstBlobFacts(env, sys.store, req, mid.store, v);
    } else {
      FailedFacts(env, sys.store, req, mid.store, v);
    }
  }

  ghost predicate EndsAsUploaded(env: Env, sys: System, req: Request, sys': System, id: CommitId)
    requires Accepts(env, sys.store, req)
  {
    exists hit, c: CommitRecord :: c.id == id && UploadedAs(env, sys, req, hit, sys'.store, sys'.next, c)
  }

  /** The converse: however many steps an undisturbed upload takes, if it is done, it was to be accepted and
      the stores changed as the whole call says; if it failed, it was to be refused, and nothing but its
      module was added. */
  lemma SoloUploadEnds(env: Env, sys: System, sys': System, p: nat, req: Request, n: nat)
    requires StoreOk(env, sys.store) && p in sys.uploads && sys.uploads[p] == NewUpload(req)
    requires Leads(env, sys, sys', p, n)
    ensures p in sys'.uploads
    ensures
      var phase := sys'.uploads[p].phase;
      && (phase.Done? ==> Accepts(env, sys.store, req) && EndsAsUploaded(env, sys, req, sys', phase.id))
      && (phase.Failed? ==>
            !Accepts(env, sys.store, req) && sys'.store == Opened(env, sys.store, req) && sys'.next == sys.next)
  {
    NewIsEarly(env, sys.store, req);
    hide StoreOk, Early, Accepts, Leads, Opened, EndsAsUploaded, CommitTable, IsModuleOf, PushOf, PushFor;
    var past, mid, k := LeadsEarly(env, sys.store, req, sys, sys', p, n);
    if past {
      PastFirstBlob(env, sys, req, mid, sys', p, k);
    } else if Before(sys'.uploads[p].phase) == 0 && !sys'.uploads[p].phase.CheckBlob? {
      FailedFacts(env, sys.store, req, sys'.store, sys'.uploads[p]);
    }
  }

  lemma PastFirstBlob(env: Env, sys: System, req: Request, mid: System, sys': System, p: nat, k: nat)
    requires StoreOk(env, sys.store) && AtFirstBlob(env, sys.store, req, mid, p) && mid.next == sys.next
    requires Leads(env, mid, sys', p, k)
    ensures p in sys'.uploads && !sys'.uploads[p].phase.Failed? && Accepts(env, sys.store, req)
    ensures sys'.uploads[p].phase.Done? ==> EndsAsUploaded(env, sys, req, sys', sys'.uploads[p].phase.id)
  {
    hide StoreOk, Early, Accepts, Leads, Opened, CommitTable, IsModuleOf, PushOf, PushFor, Commits.Pushed, AllB5,
      DepDigestsOf, Commits.StoreFiles;
    var u := mid.uploads[p];
    var m := FirstBlobFacts(env, sys.store, req, mid.store, u);
    SoloEnds(env, mid, sys', p, m, k);
    if sys'.uploads[p].phase.Done? {
      var id := sys'.uploads[p].phase.id;
      var hit, c: CommitRecord :| c.id == id
        && Commits.Pushed(env, mid.store, mid.next, PushOf(m, u), hit, sys'.store, sys'.next, c);
      assert UploadedAs(env, sys, req, hit, sys'.store, sys'.next, c);
    }
  }

  // ----- Undisturbed uploads as parts of runs -----

  lemma {:induction false} LeadsToRun(env: Env, run: seq<System>, sys': System, p: nat, n: nat)
    returns (later: seq<System>)
    requires IsRun(env, run) && Leads(env, run[|run| - 1], sys', p, n)
    ensures IsRun(env, later) && run <= later && later[|later| - 1] == sys'
    decreases n
  {
    hide Step, Advances, NextSystem;
    later := run;
    if n > 0 {
      var hit := FirstStep(env, run[|run| - 1], sys', p, n);
      var next := NextSystem(env, run[|run| - 1], p, hit);
      AdvanceIsStep(env, run[|run| - 1], next, p, hit);
      RunOneMore(env, run, next);
      hide Leads;
      later := LeadsToRun(env, run + [next], sys', p, n - 1);
    }
  }

  lemma AdvanceIsStep(env: Env, sys: System, sys': System, p: nat, hit: Option<CommitId>)
    requires Advances(env, sys, sys', p, hit)
    ensures Step(env, sys, sys')
  {
    hide Advances;
  }

  // There is always an answer to the lookup.
  lemma SomeAnswer(s: Store, d: Digest) returns (hit: Option<CommitId>)
    ensures Finds(s, d, hit)
  {
    hide HasFiles;
    if id :| id in s.commits && HasFiles(s, d, id) {
      hit := Some(id);
    } else {
      hit := None;
    }
  }

  /** In every run, an upload can begin at the end and, undisturbed, come to its end: done exactly when it
      is to be accepted. */
  lemma UploadFromHere(env: Env, run: seq<System>, p: nat, req: Request) returns (later: seq<System>)
    requires IsRun(env, run) && p !in run[|run| - 1].uploads && forall f :: f in req.files ==> env.pathOk(f.path)
    ensures IsRun(env, later) && run <= later && p in later[|later| - 1].uploads
    ensures
      var s, u := run[|run| - 1].store, later[|later| - 1].uploads[p];
      && u.req == req && (u.phase.Done? || u.phase.Failed?)
      && (u.phase.Done? <==> Accepts(env, s, req))
  {
    var sys := run[|run| - 1];
    var begun := sys.(uploads := sys.uploads[p := NewUpload(req)]);
    assert Begins(env, sys, begun, p, req);
    RunKeeps(env, run, |run| - 1);
    RunOneMore(env, run, begun);
    hide IsRun, Begins, Leads, StoreOk, UploadOk, Accepts, MintedApart;
    var end, n := WholeRun(env, begun, p, req);
    later := LeadsToRun(env, run + [begun], end, p, n);
  }

  lemma WholeRun(env: Env, sys: System, p: nat, req: Request) returns (end: System, n: nat)
    requires StoreOk(env, sys.store) && p in sys.uploads && sys.uploads[p] == NewUpload(req)
    ensures Leads(env, sys, end, p, n) && p in end.uploads && end.uploads[p].req == req
    ensures end.uploads[p].phase == Failed || end.uploads[p].phase.Done?
    ensures end.uploads[p].phase.Done? <==> Accepts(env, sys.store, req)
  {
    hide Leads, StoreOk, Accepts, UploadedAs, Opened;
    if Accepts(env, sys.store, req) {
      var hit, s', next', c := AcceptedPush(env, sys, req);
      var v, k := SoloUpload(env, sys, p, req, hit, s', next', c);
      end, n := With(sys, p, s', next', v), k;
    } else {
      var v, k := SoloRefusal(env, sys, p, req);
      end, n := With(sys, p, Opened(env, sys.store, req), sys.next, v), k;
    }
  }

  lemma AcceptedPush(env: Env, sys: System, req: Request)
    returns (hit: Option<CommitId>, s': Store, next': CommitId, c: CommitRecord)
    requires StoreOk(env, sys.store) && Accepts(env, sys.store, req)
    ensures UploadedAs(env, sys, req, hit, s', next', c)
  {
    OpenedOk(env, sys.store, req);
    UploadTheorems.DepDigestsB5(env, sys.store, req.deps);
    hide StoreOk, Opened, CommitTable, Commits.Pushed, DepDigestsOf, AllB5;
    var s, push := Opened(env, sys.store, req), PushFor(env, sys.store, req);
    hit := SomeAnswer(s, Commits.PushDigest(env, push));
    s', next', c := Commits.PushExists(env, s, sys.next, push, hit);
  }
}
