/** Which dependency graphs arise at all: every one in which commits depend on older commits is the graph of
    some run of uploads, so the conflicts of module GraphConflicts do occur (internal/registry/module.go,
    internal/service/graph.go). */
module GraphRuns {
  import opened Wrappers
  import opened Digests
  import opened Manifests
  import opened Merkle
  import opened Docstore
  import opened StoreInvariant
  import opened Graph
  import opened GraphTheorems
  import opened GraphConflicts
  import opened Uploads
  import opened SoloUploads
  import opened SoloStarts
  import Commits
  import UploadTheorems

  function IdOf(env: Env, r: Request): Id32 {
    ModuleIdFor(env.ids, r.owner, r.name)
  }

  function DigestFor(env: Env, r: Request): Digest {
    FilesDigest(env.hash, Entries(env.hash, r.files))
  }

  function KeyText(r: Request): string {
    r.owner + "/" + r.name
  }

  // The graph of these uploads, one after the other: commit `i` is that of upload `i`.
  function CatalogFor(reqs: seq<Request>): Catalog {
    Catalog(
      map i: CommitId | i < |reqs| :: KeyText(reqs[i]),
      map i: CommitId | i < |reqs| :: reqs[i].deps)
  }

  ghost predicate OlderDeps(reqs: seq<Request>) {
    forall i, d: CommitId :: 0 <= i < |reqs| && d in reqs[i].deps ==> d < i
  }

  ghost predicate OtherFiles(env: Env, reqs: seq<Request>) {
    forall i, j :: 0 <= i < j < |reqs| ==> DigestFor(env, reqs[i]) != DigestFor(env, reqs[j])
  }

  ghost predicate OwnIds(env: Env, reqs: seq<Request>) {
    forall i, j :: 0 <= i < j < |reqs| && IdOf(env, reqs[i]) == IdOf(env, reqs[j]) ==>
      reqs[i].owner == reqs[j].owner && reqs[i].name == reqs[j].name
  }

  ghost predicate PathsOk(env: Env, r: Request) {
    forall f :: f in r.files ==> env.pathOk(f.path)
  }

  // Dependencies are older, no two uploads have the same files, and module ids do not clash.
  ghost predicate Orderly(env: Env, reqs: seq<Request>) {
    OlderDeps(reqs) && OtherFiles(env, reqs) && OwnIds(env, reqs) && forall r :: r in reqs ==> PathsOk(env, r)
  }

  ghost predicate IsCommitOf(env: Env, s: Store, r: Request, id: CommitId) {
    && id in s.commits && GetCommit(s, id).Ok? && GetCommit(s, id).value.deps == r.deps
    && GetCommit(s, id).value.moduleId == IdOf(env, r) && s.commits[id].filesDigest == DigestFor(env, r).String()
    && ModuleByName(env.ids, s, r.owner, r.name).Ok?
  }

  ghost predicate HasModules(env: Env, reqs: seq<Request>, s: Store) {
    forall id :: id in s.modules ==> exists r :: r in reqs && id == IdOf(env, r)
  }

  // What the uploads leave behind.
  ghost predicate Built(env: Env, reqs: seq<Request>, sys: System) {
    && sys.next == |reqs| && (forall p: nat :: p in sys.uploads <==> p < |reqs|)
    && (forall id: CommitId :: id in sys.store.commits <==> id < |reqs|)
    && (forall i: nat :: i < |reqs| ==> IsCommitOf(env, sys.store, reqs[i], i))
    && HasModules(env, reqs, sys.store)
  }

  // ----- One more upload -----

  lemma OrderlyLast(env: Env, reqs: seq<Request>, r: Request)
    requires Orderly(env, reqs + [r])
    ensures Orderly(env, reqs) && PathsOk(env, r)
    ensures forall d: CommitId :: d in r.deps ==> d < |reqs|
    ensures forall i: nat :: i < |reqs| ==> DigestFor(env, reqs[i]) != DigestFor(env, r)
    ensures forall q :: q in reqs && IdOf(env, q) == IdOf(env, r) ==> q.owner == r.owner && q.name == r.name
  {
    hide DigestFor, IdOf, PathsOk;
    var all := reqs + [r];
    assert all[|reqs|] == r && forall i: nat :: i < |reqs| ==> all[i] == reqs[i];
    assert r in all;
    forall q | q in reqs && IdOf(env, q) == IdOf(env, r)
      ensures q.owner == r.owner && q.name == r.name
    {
      var i :| 0 <= i < |reqs| && reqs[i] == q;
      assert all[i] == q;
    }
    forall i, j | 0 <= i < j < |reqs|
      ensures DigestFor(env, reqs[i]) != DigestFor(env, reqs[j])
    {
      assert DigestFor(env, all[i]) != DigestFor(env, all[j]);
    }
  }

  lemma NextAccepted(env: Env, reqs: seq<Request>, r: Request, sys: System)
    requires Orderly(env, reqs + [r]) && Built(env, reqs, sys)
    ensures Accepts(env, sys.store, r)
  {
    OrderlyLast(env, reqs, r);
    hide Orderly, GetCommit, DigestFor;
    if IdOf(env, r) in sys.store.modules {
      var q :| q in reqs && IdOf(env, r) == IdOf(env, q);
      var i :| 0 <= i < |reqs| && reqs[i] == q;
      assert IsCommitOf(env, sys.store, reqs[i], i);
    }
  }

  lemma NothingFound(env: Env, reqs: seq<Request>, r: Request, s: Store, s': Store)
    requires Orderly(env, reqs + [r]) && s'.commits == s.commits
    requires forall id: CommitId :: id in s.commits <==> id < |reqs|
    requires forall i: nat :: i < |reqs| ==> IsCommitOf(env, s, reqs[i], i)
    ensures Finds(s', DigestFor(env, r), None)
  {
    hide Orderly, DigestFor, IsCommitOf, HasFiles, IdOf, PathsOk;
    OrderlyLast(env, reqs, r);
    forall id | id in s'.commits
      ensures !HasFiles(s', DigestFor(env, r), id)
    {
      OtherCommit(env, s, s', reqs[id], r, id);
    }
  }

  lemma OtherCommit(env: Env, s: Store, s': Store, q: Request, r: Request, id: CommitId)
    requires IsCommitOf(env, s, q, id) && s'.commits == s.commits && DigestFor(env, q) != DigestFor(env, r)
    ensures !HasFiles(s', DigestFor(env, r), id)
  {
    hide GetCommit, ModuleByName, Serialize, Entries;
    assert ':' !in SHAKE256;
    if DigestFor(env, q).String() == DigestFor(env, r).String() {
      DigestStringInjective(DigestFor(env, q), DigestFor(env, r));
    }
  }

  lemma NextPrepared(env: Env, s: Store, r: Request)
    requires StoreOk(env, s) && Accepts(env, s, r) && PathsOk(env, r)
    ensures
      var base, p := Opened(env, s, r), PushFor(env, s, r);
      && Commits.Prepared(env, base, p) && AllB5(p.digests) && p.mod.id == IdOf(env, r)
      && p.files == r.files && p.deps == r.deps
  {
    hide StoreOk, CommitTable, DepDigestsOf, AllB5, Later, ModuleByName, Opened;
    OpenedOk(env, s, r);
    OpenedCommits(env, s, r);
    UploadTheorems.DepDigestsB5(env, s, r.deps);
    Commits.SameDepDigests(s, Opened(env, s, r), r.deps);
    FoundRecord(env, Opened(env, s, r), r);
  }

  lemma FoundRecord(env: Env, s: Store, r: Request)
    requires StoreOk(env, s) && ModuleByName(env.ids, s, r.owner, r.name).Ok?
    ensures
      var m := ModuleByName(env.ids, s, r.owner, r.name).value;
      m.id == IdOf(env, r) && m.id in s.modules && s.modules[m.id] == m
  {
    TableOf(env, s);
    hide StoreOk;
  }

  lemma NewlyStored(env: Env, s: Store, r: Request, id: CommitId, s': Store, c: CommitRecord, p: Commits.Push)
    requires c == Commits.NewCommit(env, p, id) && p.mod.id == IdOf(env, r) && p.files == r.files && p.deps == r.deps
    requires s'.commits == s.commits[id := RecordToDoc(c)] && ModuleByName(env.ids, s', r.owner, r.name).Ok?
    ensures IsCommitOf(env, s', r, id)
  {
    Commits.NewStorable(env, p, id);
    RecordRoundTrip(c);
    hide DocToRecord, Storable, ModuleByName, B5From, Serialize, Entries;
  }

  lemma StillCommitOf(env: Env, s: Store, s': Store, r: Request, id: CommitId)
    requires IsCommitOf(env, s, r, id) && id in s'.commits && s'.commits[id] == s.commits[id]
    requires forall m :: m in s.modules ==> m in s'.modules && s'.modules[m] == s.modules[m]
    ensures IsCommitOf(env, s', r, id)
  {
    hide DocToRecord, DigestFor;
  }

  lemma BuiltOneMore(env: Env, reqs: seq<Request>, r: Request, sys: System, s': Store, v: Upload)
    requires Built(env, reqs, sys) && IsCommitOf(env, s', r, |reqs|)
    requires s'.commits.Keys == sys.store.commits.Keys + {|reqs|}
    requires forall id :: id in sys.store.commits ==> s'.commits[id] == sys.store.commits[id]
    requires s'.modules == Opened(env, sys.store, r).modules
    ensures Built(env, reqs + [r], With(sys, |reqs|, s', sys.next + 1, v))
  {
    hide IsCommitOf;
    var all := reqs + [r];
    OpenedModules(env, sys.store, r);
    forall i: nat | i < |all|
      ensures IsCommitOf(env, s', all[i], i)
    {
      if i < |reqs| {
        StillCommitOf(env, sys.store, s', reqs[i], i);
      }
    }
    hide Opened;
    forall id | id in s'.modules
      ensures exists q :: q in all && id == IdOf(env, q)
    {
      assert r in all;
      if id != IdOf(env, r) {
        var q :| q in reqs && id == IdOf(env, q);
        assert q in all;
      }
    }
  }

  lemma OpenedModules(env: Env, s: Store, r: Request)
    ensures
      var s' := Opened(env, s, r);
      && s'.modules.Keys <= s.modules.Keys + {IdOf(env, r)}
      && forall m :: m in s.modules ==> m in s'.modules && s'.modules[m] == s.modules[m]
  {
  }

  lemma NextPush(env: Env, reqs: seq<Request>, r: Request, sys: System) returns (s': Store, c: CommitRecord)
    requires SystemOk(env, sys) && Orderly(env, reqs + [r]) && Built(env, reqs, sys)
    ensures Accepts(env, sys.store, r) && UploadedAs(env, sys, r, None, s', sys.next + 1, c)
    ensures s'.modules == Opened(env, sys.store, r).modules
    ensures s'.commits == sys.store.commits[sys.next := RecordToDoc(c)]
    ensures IsCommitOf(env, s', r, sys.next)
  {
    OrderlyLast(env, reqs, r);
    NextAccepted(env, reqs, r, sys);
    OpenedOk(env, sys.store, r);
    NextPrepared(env, sys.store, r);
    OpenedCommits(env, sys.store, r);
    var base, p := Opened(env, sys.store, r), PushFor(env, sys.store, r);
    NothingFound(env, reqs, r, sys.store, base);
    assert ModuleByName(env.ids, base, r.owner, r.name).Ok?;
    hide Orderly, Opened, Accepts, StoreOk, UploadOk, MintedApart, CommitTable, Commits.Prepared, DigestFor, Later,
      IsCommitOf, PushFor, Commits.Pushed, PathsOk, AllB5, Commits.NewCommit, RecordToDoc, GetCommit, GetLabel;
    NoneFound(env, base, p, r);
    s', c := Commits.FreshCommit(env, base, sys.next, p, None);
    SameModules(env, base, s', r);
    NewlyStored(env, base, r, sys.next, s', c, p);
  }

  lemma NoneFound(env: Env, s: Store, p: Commits.Push, r: Request)
    requires p.files == r.files && Finds(s, DigestFor(env, r), None)
    ensures Commits.Answers(env, s, p, None) && !Commits.IsReused(s, p, None)
  {
    hide HasFiles;
  }

  lemma SameModules(env: Env, s: Store, s': Store, r: Request)
    requires s'.modules == s.modules
    ensures ModuleByName(env.ids, s', r.owner, r.name) == ModuleByName(env.ids, s, r.owner, r.name)
  {
  }

  lemma OneMoreUpload(env: Env, reqs: seq<Request>, r: Request, run: seq<System>) returns (later: seq<System>)
    requires IsRun(env, run) && Orderly(env, reqs + [r]) && Built(env, reqs, run[|run| - 1])
    ensures IsRun(env, later) && Built(env, reqs + [r], later[|later| - 1])
  {
    hide Step, StoreOk, Leads, SystemOk, Orderly, Accepts, UploadedAs, IsCommitOf, Opened, Built, RecordToDoc;
    var sys, p := run[|run| - 1], |reqs|;
    RunKeeps(env, run, |run| - 1);
    SystemStore(env, sys);
    var s', c := NextPush(env, reqs, r, sys);
    var begun := BeginNext(env, reqs, r, run);
    SameUploadedAs(env, sys, begun, r, None, s', sys.next + 1, c);
    var v, n := SoloUpload(env, begun, p, r, None, s', sys.next + 1, c);
    later := LeadsToRun(env, run + [begun], With(begun, p, s', sys.next + 1, v), p, n);
    BuiltSize(env, reqs, sys);
    BuiltOneMore(env, reqs, r, sys, s', v);
    assert With(begun, p, s', sys.next + 1, v) == With(sys, p, s', sys.next + 1, v);
  }

  lemma BuiltSize(env: Env, reqs: seq<Request>, sys: System)
    requires Built(env, reqs, sys)
    ensures sys.next == |reqs|
  {
  }

  lemma BeginNext(env: Env, reqs: seq<Request>, r: Request, run: seq<System>) returns (begun: System)
    requires IsRun(env, run) && Orderly(env, reqs + [r]) && Built(env, reqs, run[|run| - 1])
    ensures IsRun(env, run + [begun])
    ensures var sys := run[|run| - 1]; begun == With(sys, |reqs|, sys.store, sys.next, NewUpload(r))
  {
    hide Step, Orderly, IsCommitOf, HasModules;
    var sys := run[|run| - 1];
    OrderlyLast(env, reqs, r);
    begun := With(sys, |reqs|, sys.store, sys.next, NewUpload(r));
    BeginIsStep(env, sys, begun, |reqs|, r);
    RunOneMore(env, run, begun);
  }

  lemma BeginIsStep(env: Env, sys: System, sys': System, p: nat, r: Request)
    requires p !in sys.uploads && PathsOk(env, r) && sys' == With(sys, p, sys.store, sys.next, NewUpload(r))
    ensures Step(env, sys, sys')
  {
    assert Begins(env, sys, sys', p, r);
  }

  lemma SystemStore(env: Env, sys: System)
    requires SystemOk(env, sys)
    ensures StoreOk(env, sys.store)
  {
  }

  lemma SameUploadedAs(env: Env, sys: System, begun: System, r: Request, hit: Option<CommitId>, s': Store,
                       next': CommitId, c: CommitRecord)
    requires begun.store == sys.store && begun.next == sys.next
    requires Accepts(env, sys.store, r) && UploadedAs(env, sys, r, hit, s', next', c)
    ensures UploadedAs(env, begun, r, hit, s', next', c)
  {
    hide Accepts, Commits.Pushed;
  }

  // ----- All uploads -----

  lemma {:induction false} UploadsInOrder(env: Env, reqs: seq<Request>) returns (run: seq<System>)
    requires Orderly(env, reqs)
    ensures IsRun(env, run) && Built(env, reqs, run[|run| - 1])
  {
    if reqs == [] {
      run := [EMPTY];
    } else {
      var before, r := reqs[..|reqs| - 1], reqs[|reqs| - 1];
      assert reqs == before + [r];
      OrderlyLast(env, before, r);
      hide Orderly, IsRun, Built;
      var earlier := UploadsInOrder(env, before);
      run := OneMoreUpload(env, before, r, earlier);
    }
  }

  lemma BuiltCatalog(env: Env, reqs: seq<Request>, sys: System)
    requires SystemOk(env, sys) && Built(env, reqs, sys)
    ensures CatalogOf(sys.store) == CatalogFor(reqs)
  {
    hide SystemOk, StoreOk, IsCommitOf, HasModules, CatalogOf;
    var s, g := sys.store, CatalogOf(sys.store);
    SystemStore(env, sys);
    CatalogDomain(s);
    forall id: CommitId | id < |reqs|
      ensures id in g.key && g.key[id] == KeyText(reqs[id])
      ensures id in g.deps && g.deps[id] == reqs[id].deps
    {
      assert IsCommitOf(env, s, reqs[id], id);
      CatalogEntryOf(env, s, reqs[id], id);
    }
    assert g.key == CatalogFor(reqs).key;
    assert g.deps == CatalogFor(reqs).deps;
  }

  lemma CatalogDomain(s: Store)
    ensures forall id :: id in CatalogOf(s).key || id in CatalogOf(s).deps ==> id in s.commits
  {
    hide GetCommit;
  }

  lemma CatalogEntryOf(env: Env, s: Store, r: Request, id: CommitId)
    requires StoreOk(env, s) && IsCommitOf(env, s, r, id)
    ensures var g := CatalogOf(s); id in g.key && g.key[id] == KeyText(r) && id in g.deps && g.deps[id] == r.deps
  {
    hide StoreOk, GetCommit, DigestFor;
  }

  /** Every graph in which commits depend on older ones, of uploads with different files, is the graph of
      some run of uploads. */
  lemma EveryGraphArises(env: Env, reqs: seq<Request>) returns (run: seq<System>)
    requires Orderly(env, reqs)
    ensures IsRun(env, run) && CatalogOf(run[|run| - 1].store) == CatalogFor(reqs)
  {
    hide Orderly, Built, CatalogOf;
    run := UploadsInOrder(env, reqs);
    RunKeeps(env, run, |run| - 1);
    BuiltCatalog(env, reqs, run[|run| - 1]);
  }

  // ----- The concrete conflicts -----

  // b, then a, which depends on b, then b again, which depends on a.
  function CyclicUploads(files: seq<seq<File>>): seq<Request>
    requires |files| == 3
  {
    [Request("o", "b", files[0], [], []), Request("o", "a", files[1], [], [0]), Request("o", "b", files[2], [], [1])]
  }

  lemma CyclicIsCatalog(files: seq<seq<File>>)
    requires |files| == 3
    ensures CatalogFor(CyclicUploads(files)) == CYCLIC
  {
    KeyTexts();
    var reqs := CyclicUploads(files);
    forall i: nat | i < 3
      ensures IsEntry(CYCLIC, i, reqs[i])
    {
    }
    SameCatalog(reqs, CYCLIC);
  }

  ghost predicate IsEntry(g: Catalog, i: nat, r: Request) {
    i in g.key && g.key[i] == KeyText(r) && i in g.deps && g.deps[i] == r.deps
  }

  lemma SameCatalog(reqs: seq<Request>, g: Catalog)
    requires forall i: nat :: i < |reqs| ==> IsEntry(g, i, reqs[i])
    requires forall i: CommitId :: i in g.key || i in g.deps ==> i < |reqs|
    ensures CatalogFor(reqs) == g
  {
    forall i: CommitId | i < |reqs|
      ensures i in g.key && g.key[i] == KeyText(reqs[i]) && i in g.deps && g.deps[i] == reqs[i].deps
    {
      assert IsEntry(g, i, reqs[i]);
    }
    hide IsEntry;
    assert CatalogFor(reqs).key == g.key;
    assert CatalogFor(reqs).deps == g.deps;
  }

  lemma KeyTexts()
    ensures "o" + "/" + "a" == "o/a" && "o" + "/" + "b" == "o/b" && "o" + "/" + "c" == "o/c"
    ensures "o" + "/" + "d" == "o/d" && "o" + "/" + "x" == "o/x" && "o" + "/" + "y" == "o/y"
  {
  }

  // Whatever the three uploads store, if they differ, there is a run whose graph has a cycle.
  lemma CycleArises(env: Env, files: seq<seq<File>>) returns (run: seq<System>)
    requires |files| == 3 && Orderly(env, CyclicUploads(files))
    ensures IsRun(env, run) && CatalogOf(run[|run| - 1].store) == CYCLIC
    ensures !Acyclic(Resolve(CatalogOf(run[|run| - 1].store), [1, 2]).edges)
  {
    hide IsRun, Orderly, CatalogOf, Resolve, Acyclic;
    run := EveryGraphArises(env, CyclicUploads(files));
    CyclicIsCatalog(files);
    ConflictMakesCycle();
  }

  // d, b with d, c, b with c, then x with the first b and y with the second.
  function OvertakenUploads(files: seq<seq<File>>): seq<Request>
    requires |files| == 6
  {
    [Request("o", "d", files[0], [], []), Request("o", "b", files[1], [], [0]), Request("o", "c", files[2], [], []),
     Request("o", "b", files[3], [], [2]), Request("o", "x", files[4], [], [1]), Request("o", "y", files[5], [], [3])]
  }

  lemma OvertakenIsCatalog(files: seq<seq<File>>)
    requires |files| == 6
    ensures CatalogFor(OvertakenUploads(files)) == OVERTAKEN
  {
    KeyTexts();
    var reqs := OvertakenUploads(files);
    forall i: nat | i < 6
      ensures IsEntry(OVERTAKEN, i, reqs[i])
    {
    }
    SameCatalog(reqs, OVERTAKEN);
  }

  // ... and a run whose graph lacks a dependency of a listed commit.
  lemma LossArises(env: Env, files: seq<seq<File>>) returns (run: seq<System>)
    requires |files| == 6 && Orderly(env, OvertakenUploads(files))
    ensures IsRun(env, run) && CatalogOf(run[|run| - 1].store) == OVERTAKEN
    ensures var g := CatalogOf(run[|run| - 1].store); !DependenciesKept(g, Resolve(g, [4, 5]))
  {
    hide IsRun, Orderly, CatalogOf, Resolve, DependenciesKept;
    run := EveryGraphArises(env, OvertakenUploads(files));
    OvertakenIsCatalog(files);
    ConflictLosesDependency();
  }
}
