/** Short sequences of pushes to a registry with two modules and no commits, for any hash and any files, at
    which the deduplication of commits and the labels do not do what one might expect
    (internal/registry/module.go, internal/storage/docstore.go). */
module PushExamples {
  import opened Wrappers
  import opened Digests
  import opened Manifests
  import opened Merkle
  import opened Docstore
  import opened StoreInvariant
  import opened Commits

  // Two modules of a registry, with files for each.
  datatype Setting = Setting(env: Env, app: ModuleRecord, lib: ModuleRecord, appFiles: seq<File>, libFiles: seq<File>)

  function Start(x: Setting): Store {
    Store(map[], map[x.app.id := x.app, x.lib.id := x.lib], map[], map[])
  }

  ghost predicate Fits(x: Setting) {
    && x.app.id != x.lib.id && ModuleTable(x.env.ids, Start(x))
    && forall f :: f in x.appFiles + x.libFiles ==> x.env.pathOk(f.path)
  }

  function AppDigest(x: Setting): Digest {
    FilesDigest(x.env.hash, Entries(x.env.hash, x.appFiles))
  }

  function LibDigest(x: Setting): Digest {
    FilesDigest(x.env.hash, Entries(x.env.hash, x.libFiles))
  }

  lemma StartOk(x: Setting)
    requires Fits(x)
    ensures StoreOk(x.env, Start(x))
  {
  }

  lemma PushDigests(x: Setting, p: Push)
    ensures p.files == x.appFiles ==> PushDigest(x.env, p) == AppDigest(x)
    ensures p.files == x.libFiles ==> PushDigest(x.env, p) == LibDigest(x)
  {
  }

  lemma PrintedApart(x: Setting)
    requires AppDigest(x) != LibDigest(x)
    ensures AppDigest(x).String() != LibDigest(x).String()
  {
    assert ':' !in SHAKE256;
    if AppDigest(x).String() == LibDigest(x).String() {
      DigestStringInjective(AppDigest(x), LibDigest(x));
    }
  }

  // Which files the commits of a store hold: `full` those of app, the others those of lib.
  ghost predicate Contains(x: Setting, s: Store, full: set<CommitId>) {
    && full <= s.commits.Keys
    && (forall id :: id in full ==> s.commits[id].filesDigest == AppDigest(x).String())
    && (forall id :: id in s.commits && id !in full ==> s.commits[id].filesDigest == LibDigest(x).String())
  }

  lemma HoldersOf(x: Setting, s: Store, full: set<CommitId>, p: Push)
    requires Contains(x, s, full) && p.files == x.appFiles
    ensures forall id :: id in full ==> Holds(x.env, s, p, id)
    ensures AppDigest(x) != LibDigest(x) ==> forall id :: Holds(x.env, s, p, id) <==> id in full
  {
    PushDigests(x, p);
    if AppDigest(x) != LibDigest(x) {
      PrintedApart(x);
    }
    hide PushDigest, AppDigest, LibDigest;
  }

  // What is needed for the next push.
  ghost predicate Ready(x: Setting, s: Store, next: CommitId, full: set<CommitId>) {
    StoreOk(x.env, s) && s.modules == Start(x).modules && Contains(x, s, full) && forall id: CommitId ::
      id in s.commits ==> id < next
  }

  // A push of some module with the files of app or of lib.
  ghost predicate Sound(x: Setting, s: Store, p: Push) {
    Prepared(x.env, s, p) && AllB5(p.digests) && (p.files == x.appFiles || p.files == x.libFiles)
  }

  // A push that reuses nothing adds its commit.
  lemma FreshPush(x: Setting, s: Store, next: CommitId, p: Push, hit: Option<CommitId>, full: set<CommitId>)
    returns (s': Store, c: CommitRecord)
    requires Ready(x, s, next, full) && Sound(x, s, p) && Answers(x.env, s, p, hit) && !IsReused(s, p, hit)
    ensures Pushed(x.env, s, next, p, hit, s', next + 1, c) && c == NewCommit(x.env, p, next)
    ensures Ready(x, s', next + 1, if p.files == x.appFiles then full + {next} else full)
    ensures s'.commits == s.commits[next := RecordToDoc(c)]
    ensures forall m, n ::
      GetLabel(s', m, n) ==
        if m == p.mod.id && n in p.labels then Ok(LabelDoc(m, n, next)) else GetLabel(s, m, n)
  {
    hide Pushed, StoreOk, Prepared, IsReused, NewCommit, Answers, RecordToDoc, GetLabel, Contains;
    s', c := FreshCommit(x.env, s, next, p, hit);
    ContainsMore(x, s, s', next, p, full, c);
  }

  lemma ContainsMore(x: Setting, s: Store, s': Store, next: CommitId, p: Push, full: set<CommitId>, c: CommitRecord)
    requires Contains(x, s, full) && (forall id: CommitId :: id in s.commits ==> id < next)
    requires (p.files == x.appFiles || p.files == x.libFiles)
    requires c == NewCommit(x.env, p, next) && s'.commits == s.commits[next := RecordToDoc(c)]
    ensures Contains(x, s', if p.files == x.appFiles then full + {next} else full)
  {
    NewText(x, next, p, c);
    hide NewCommit, RecordToDoc, Contains;
    ContainsNext(x, s, s', next, full, p.files == x.appFiles, RecordToDoc(c));
  }

  lemma ContainsNext(x: Setting, s: Store, s': Store, next: CommitId, full: set<CommitId>, filled: bool, doc: CommitDoc)
    requires Contains(x, s, full) && next !in s.commits && s'.commits == s.commits[next := doc]
    requires doc.filesDigest == (if filled then AppDigest(x) else LibDigest(x)).String()
    ensures Contains(x, s', if filled then full + {next} else full)
  {
    hide AppDigest, LibDigest;
  }

  lemma NewText(x: Setting, next: CommitId, p: Push, c: CommitRecord)
    requires c == NewCommit(x.env, p, next) && (p.files == x.appFiles || p.files == x.libFiles)
    ensures RecordToDoc(c).filesDigest == (if p.files == x.appFiles then AppDigest(x) else LibDigest(x)).String()
  {
    PushDigests(x, p);
    hide PushDigest, B5From;
  }

  // ----- Dependencies that a push does not record -----

  function LibPush(x: Setting): Push {
    Push(x.lib, x.libFiles, ["main"], [], [])
  }

  function AppPush(x: Setting): Push {
    Push(x.app, x.appFiles, ["main"], [], [])
  }

  // The same files of app, now with a dependency on the commit of lib.
  function UpdatedPush(x: Setting, lib: CommitRecord): Push {
    Push(x.app, x.appFiles, ["main"], [0], [lib.moduleDigest])
  }

  lemma NothingFound(x: Setting, s: Store, p: Push)
    requires Contains(x, s, {}) && p.files == x.appFiles && AppDigest(x) != LibDigest(x)
    ensures Answers(x.env, s, p, None) && !IsReused(s, p, None)
  {
    HoldersOf(x, s, {}, p);
    hide PushDigest, HasFiles;
    assert forall id :: Holds(x.env, s, p, id) <==> HasFiles(s, PushDigest(x.env, p), id);
  }

  lemma StartReady(x: Setting, p: Push)
    requires Fits(x)
    ensures Ready(x, Start(x), 0, {}) && Answers(x.env, Start(x), p, None) && !IsReused(Start(x), p, None)
  {
    StartOk(x);
    hide PushDigest, StoreOk;
  }

  lemma NoDepsSound(x: Setting, s: Store, p: Push)
    requires Fits(x) && s.modules == Start(x).modules && (p.mod == x.app || p.mod == x.lib) && p.deps == []
    requires p.digests == []
    requires p.files == x.appFiles || p.files == x.libFiles
    ensures Sound(x, s, p)
  {
    assert DepDigestsOf(s, []) == [];
    assert forall f :: f in p.files ==> f in x.appFiles + x.libFiles;
  }

  lemma FirstTwoPushes(x: Setting) returns (s1: Store, lib: CommitRecord, s2: Store, app: CommitRecord)
    requires Fits(x) && AppDigest(x) != LibDigest(x)
    ensures Pushed(x.env, Start(x), 0, LibPush(x), None, s1, 1, lib)
    ensures Pushed(x.env, s1, 1, AppPush(x), None, s2, 2, app)
    ensures StoreOk(x.env, s2) && TwoCommits(x, s2, lib, app)
  {
    hide Fits, Pushed, Ready, Sound, TwoCommits, NewCommit, Answers, IsReused, RecordToDoc, GetLabel, AppDigest,
      LibDigest;
    StartReady(x, LibPush(x));
    NoDepsSound(x, Start(x), LibPush(x));
    s1, lib := FirstPush(x);
    ReadyParts(x, s1, 1, {});
    NothingFound(x, s1, AppPush(x));
    NoDepsSound(x, s1, AppPush(x));
    s2, app := FreshPush(x, s1, 1, AppPush(x), None, {});
    assert {} + {1} == {1};
    ReadyParts(x, s2, 2, {1});
    TwoPushed(x, s2, lib, app);
  }

  lemma FirstPush(x: Setting) returns (s1: Store, lib: CommitRecord)
    requires Fits(x) && AppDigest(x) != LibDigest(x)
    ensures Pushed(x.env, Start(x), 0, LibPush(x), None, s1, 1, lib) && lib == NewCommit(x.env, LibPush(x), 0)
    ensures Ready(x, s1, 1, {}) && s1.commits == map[0 := RecordToDoc(lib)]
  {
    hide Fits, Pushed, Ready, Sound, NewCommit, Answers, IsReused, RecordToDoc, GetLabel, AppDigest, LibDigest;
    StartReady(x, LibPush(x));
    NoDepsSound(x, Start(x), LibPush(x));
    DifferentFiles(x);
    s1, lib := FreshPush(x, Start(x), 0, LibPush(x), None, {});
  }

  lemma DifferentFiles(x: Setting)
    requires AppDigest(x) != LibDigest(x)
    ensures x.appFiles != x.libFiles
  {
  }

  lemma ReadyParts(x: Setting, s: Store, next: CommitId, full: set<CommitId>)
    requires Ready(x, s, next, full)
    ensures StoreOk(x.env, s) && s.modules == Start(x).modules && Contains(x, s, full)
  {
    hide StoreOk, Contains;
  }

  lemma TwoPushed(x: Setting, s: Store, lib: CommitRecord, app: CommitRecord)
    requires s.modules == Start(x).modules && Contains(x, s, {1})
    requires lib == NewCommit(x.env, LibPush(x), 0) && app == NewCommit(x.env, AppPush(x), 1)
    requires s.commits == map[0 := RecordToDoc(lib)][1 := RecordToDoc(app)]
    ensures TwoCommits(x, s, lib, app)
  {
    hide Contains, NewCommit, RecordToDoc;
  }

  /** lib is pushed, then app, whose files digest differs, then app with the same files and a dependency on
      lib's commit. The last push succeeds, and it can only answer with the commit of the one before it, which
      has no dependencies. */
  lemma UpdatedDependencyIgnored(x: Setting) returns (s1: Store, lib: CommitRecord, s2: Store, app: CommitRecord)
    requires Fits(x) && AppDigest(x) != LibDigest(x)
    ensures Pushed(x.env, Start(x), 0, LibPush(x), None, s1, 1, lib)
    ensures Pushed(x.env, s1, 1, AppPush(x), None, s2, 2, app)
    ensures Prepared(x.env, s2, UpdatedPush(x, lib)) && AllB5(UpdatedPush(x, lib).digests)
    ensures exists hit, s3, next3, c :: Pushed(x.env, s2, 2, UpdatedPush(x, lib), hit, s3, next3, c)
    ensures forall hit, s3, next3, c :: Pushed(x.env, s2, 2, UpdatedPush(x, lib), hit, s3, next3, c) ==>
              c == app && app.deps == [] && UpdatedPush(x, lib).deps == [0]
  {
    s1, lib, s2, app := FirstTwoPushes(x);
    AppHasNoDeps(x, s2, lib, app);
    StoredTables(x.env, s2);
    UpdatedPrepared(x, s2, lib, app);
    OneCandidate(x, s2, lib, app, UpdatedPush(x, lib));
    hide Pushed, StoreOk, Prepared, NewCommit, CommitTable, Candidate, TwoCommits;
    var p := UpdatedPush(x, lib);
    var s3, next3, c := CandidateIsAnswer(x.env, s2, 2, p, 1);
    assert Pushed(x.env, s2, 2, p, Some(1), s3, next3, c);
    forall hit, s3, next3, c | Pushed(x.env, s2, 2, p, hit, s3, next3, c)
      ensures c == app
    {
      OnlyAnswer(x, s2, lib, app, p, hit, s3, next3, c);
    }
  }

  lemma AppHasNoDeps(x: Setting, s: Store, lib: CommitRecord, app: CommitRecord)
    requires TwoCommits(x, s, lib, app)
    ensures app.deps == []
  {
    hide PushDigest, B5From, Contains;
  }

  // What the two first pushes left: commit 0 of lib and commit 1 of app.
  ghost predicate TwoCommits(x: Setting, s: Store, lib: CommitRecord, app: CommitRecord) {
    && s.modules == Start(x).modules && Contains(x, s, {1})
    && lib == NewCommit(x.env, LibPush(x), 0) && app == NewCommit(x.env, AppPush(x), 1)
    && s.commits == map[0 := RecordToDoc(lib), 1 := RecordToDoc(app)]
  }

  lemma TwoCommitsRead(x: Setting, s: Store, lib: CommitRecord, app: CommitRecord)
    requires TwoCommits(x, s, lib, app)
    ensures GetCommit(s, 0) == Ok(lib) && GetCommit(s, 1) == Ok(app)
  {
    NewStorable(x.env, LibPush(x), 0);
    NewStorable(x.env, AppPush(x), 1);
    RecordRoundTrip(lib);
    RecordRoundTrip(app);
    hide DocToRecord, RecordToDoc, NewCommit, Storable;
  }

  lemma UpdatedPrepared(x: Setting, s: Store, lib: CommitRecord, app: CommitRecord)
    requires Fits(x) && TwoCommits(x, s, lib, app)
    ensures Prepared(x.env, s, UpdatedPush(x, lib)) && AllB5(UpdatedPush(x, lib).digests)
  {
    hide TwoCommits, DepDigestsOf, GetCommit, Prepared;
    TwoCommitsRead(x, s, lib, app);
    DepDigest(s, lib);
    LibIsB5(x, s, lib, app);
    AppModule(x, s, lib, app);
    LibThere(x, s, lib, app);
    PreparedByParts(x, s, UpdatedPush(x, lib), lib);
  }

  lemma PreparedByParts(x: Setting, s: Store, p: Push, lib: CommitRecord)
    requires p.mod.id in s.modules && s.modules[p.mod.id] == p.mod && Fits(x) && p.files == x.appFiles
    requires p.deps == [0] && 0 in s.commits && p.digests == [lib.moduleDigest]
    requires DepDigestsOf(s, [0]) == [lib.moduleDigest]
    requires lib.moduleDigest.kind.B5?
    ensures Prepared(x.env, s, p) && AllB5(p.digests)
  {
    hide DepDigestsOf;
    assert forall f :: f in p.files ==> f in x.appFiles + x.libFiles;
  }

  lemma AppModule(x: Setting, s: Store, lib: CommitRecord, app: CommitRecord)
    requires Fits(x) && TwoCommits(x, s, lib, app)
    ensures x.app.id in s.modules && s.modules[x.app.id] == x.app
  {
    hide Contains, NewCommit, RecordToDoc;
  }

  lemma LibThere(x: Setting, s: Store, lib: CommitRecord, app: CommitRecord)
    requires TwoCommits(x, s, lib, app)
    ensures 0 in s.commits
  {
    hide Contains, NewCommit, RecordToDoc;
  }

  lemma LibIsB5(x: Setting, s: Store, lib: CommitRecord, app: CommitRecord)
    requires TwoCommits(x, s, lib, app)
    ensures lib.moduleDigest.kind.B5?
  {
    hide PushDigest, B5Input, Contains;
  }

  lemma DepDigest(s: Store, lib: CommitRecord)
    requires GetCommit(s, 0) == Ok(lib)
    ensures DepDigestsOf(s, [0]) == [lib.moduleDigest]
  {
    hide GetCommit;
  }

  lemma OneCandidate(x: Setting, s: Store, lib: CommitRecord, app: CommitRecord, p: Push)
    requires TwoCommits(x, s, lib, app) && p.mod == x.app && p.files == x.appFiles && AppDigest(x) != LibDigest(x)
    ensures Candidate(x.env, s, p, 1) && forall id :: Holds(x.env, s, p, id) <==> id == 1
  {
    hide Holds, Contains, Candidate;
    HoldersOf(x, s, {1}, p);
    hide TwoCommits;
    OneDoc(x, s, lib, app);
    HolderOfModule(x, s, p, 1);
  }

  lemma HolderOfModule(x: Setting, s: Store, p: Push, id: CommitId)
    requires Holds(x.env, s, p, id) && id in s.commits && s.commits[id].moduleId == p.mod.id
    ensures Candidate(x.env, s, p, id)
  {
    hide Holds;
  }

  lemma OneDoc(x: Setting, s: Store, lib: CommitRecord, app: CommitRecord)
    requires TwoCommits(x, s, lib, app)
    ensures 1 in s.commits && s.commits[1].moduleId == x.app.id
  {
    hide PushDigest, Contains, B5From;
  }

  lemma OnlyAnswer(x: Setting, s: Store, lib: CommitRecord, app: CommitRecord, p: Push, hit: Option<CommitId>,
                   s': Store, next': CommitId, c: CommitRecord)
    requires AppDigest(x) != LibDigest(x)
    requires TwoCommits(x, s, lib, app) && p.mod == x.app && p.files == x.appFiles
    requires Pushed(x.env, s, 2, p, hit, s', next', c)
    ensures c == app
  {
    AnswerOrigin(x.env, s, 2, p, hit, s', next', c);
    OneCandidate(x, s, lib, app, p);
    TwoCommitsRead(x, s, lib, app);
    hide Pushed, PushDigest, DocToRecord, RecordToDoc, NewCommit, GetCommit, TwoCommits, Candidate, HasFiles;
    FoundOne(x, s, p, hit);
    CandidateReused(x, s, p, 1);
  }

  lemma FoundOne(x: Setting, s: Store, p: Push, hit: Option<CommitId>)
    requires Answers(x.env, s, p, hit) && forall id :: Holds(x.env, s, p, id) <==> id == 1
    ensures hit == Some(1)
  {
    hide PushDigest;
    assert Holds(x.env, s, p, 1);
    if hit.Some? {
      assert Holds(x.env, s, p, hit.value);
    }
  }

  lemma CandidateReused(x: Setting, s: Store, p: Push, id: CommitId)
    requires Candidate(x.env, s, p, id) && GetCommit(s, id).Ok?
    ensures IsReused(s, p, Some(id))
  {
    DecodedFields(s.commits[id]);
    hide PushDigest, DocToRecord;
  }

  // ----- A commit of another module in the way -----

  function LibCopy(x: Setting): Push {
    Push(x.lib, x.appFiles, ["main"], [], [])
  }

  lemma CopyHeld(x: Setting, s: Store, p: Push, full: set<CommitId>)
    requires Fits(x) && Contains(x, s, full) && 0 in full && p.mod == x.app && p.files == x.appFiles
    requires s.commits[0].moduleId == x.lib.id
    ensures Answers(x.env, s, p, Some(0)) && !IsReused(s, p, Some(0))
  {
    HoldersOf(x, s, full, p);
    hide PushDigest, DocToRecord, HasFiles, Contains;
    assert Holds(x.env, s, p, 0);
    if GetCommit(s, 0).Ok? {
      DecodedFields(s.commits[0]);
    }
  }

  /** lib and app are pushed with the same files, then app once more, unchanged: when the query yields
      lib's commit, app gets a second commit with the same files and no dependencies either. */
  lemma SecondCopyOfSameFiles(x: Setting)
    returns (s1: Store, lib: CommitRecord, s2: Store, app: CommitRecord, s3: Store, again: CommitRecord)
    requires Fits(x)
    ensures Pushed(x.env, Start(x), 0, LibCopy(x), None, s1, 1, lib)
    ensures Pushed(x.env, s1, 1, AppPush(x), Some(0), s2, 2, app)
    ensures Pushed(x.env, s2, 2, AppPush(x), Some(0), s3, 3, again)
    ensures app.id == 1 && again.id == 2 && again == app.(id := 2)
  {
    hide Pushed, StoreOk, Sound, Contains, Answers, IsReused, RecordToDoc, GetLabel, PushDigest, B5From;
    StartReady(x, LibCopy(x));
    NoDepsSound(x, Start(x), LibCopy(x));
    s1, lib := FreshPush(x, Start(x), 0, LibCopy(x), None, {});
    assert {} + {0} == {0};
    CopyOfLib(lib);
    CopyHeld(x, s1, AppPush(x), {0});
    NoDepsSound(x, s1, AppPush(x));
    s2, app := FreshPush(x, s1, 1, AppPush(x), Some(0), {0});
    CopyHeld(x, s2, AppPush(x), {0} + {1});
    NoDepsSound(x, s2, AppPush(x));
    s3, again := FreshPush(x, s2, 2, AppPush(x), Some(0), {0} + {1});
  }

  lemma CopyOfLib(lib: CommitRecord)
    ensures RecordToDoc(lib).moduleId == lib.moduleId
  {
  }

  // ----- The empty label -----

  function UnnamedPush(x: Setting): Push {
    Push(x.app, x.appFiles, [""], [], [])
  }

  // A push to the empty label succeeds, and then that label cannot be resolved.
  lemma EmptyLabelUnresolved(x: Setting) returns (s1: Store, app: CommitRecord)
    requires Fits(x)
    ensures Pushed(x.env, Start(x), 0, UnnamedPush(x), None, s1, 1, app)
    ensures GetLabel(s1, x.app.id, "") == Ok(LabelDoc(x.app.id, "", 0)) && CommitByRef(s1, x.app, "") == Err(NotFound)
  {
    hide Pushed, StoreOk, Sound, NewCommit, Contains, Answers, IsReused, RecordToDoc, GetLabel;
    StartReady(x, UnnamedPush(x));
    NoDepsSound(x, Start(x), UnnamedPush(x));
    s1, app := FreshPush(x, Start(x), 0, UnnamedPush(x), None, {});
    DefaultLabel(x);
    NoLabel(Start(x), x.app.id, "main");
    assert GetLabel(s1, x.app.id, "main") == GetLabel(Start(x), x.app.id, "main");
  }

  lemma DefaultLabel(x: Setting)
    requires Fits(x)
    ensures x.app.defaultLabelName == "main"
  {
    assert x.app.id in Start(x).modules;
  }

  lemma NoLabel(s: Store, m: Id32, n: string)
    requires s.labels == map[]
    ensures GetLabel(s, m, n) == Err(NotFound)
  {
  }
}
