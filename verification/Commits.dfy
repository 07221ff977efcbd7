/** Creating one commit, as a relation between the stores before and after, and what it does to labels
    and to files pushed again (internal/registry/module.go, CreateCommit). */
module Commits {
  import opened Wrappers
  import opened Ordering
  import opened Digests
  import opened Manifests
  import opened Merkle
  import opened Buckets
  import opened Retrieval
  import opened Docstore
  import opened StoreInvariant

  // BlobStoreImpl.Put: write once.
  function EnsureBlob(env: Env, s: Store, content: string): Store {
    if BlobKey(SumOf(env.hash, content)) in s.bucket then s else PutBlob(env, s, content)
  }

  function EnsureBlobs(env: Env, s: Store, files: seq<File>): Store {
    if files == [] then s else EnsureBlob(env, EnsureBlobs(env, s, files[..|files| - 1]), files[|files| - 1].content)
  }

  function EnsureManifest(env: Env, s: Store, entries: seq<Entry>): Store {
    if ManifestKey(FilesDigest(env.hash, entries)) in s.bucket then s else PutManifest(env, s, entries)
  }

  // The stores after the files of a push are in the bucket.
  function StoreFiles(env: Env, s: Store, files: seq<File>): Store {
    EnsureManifest(env, EnsureBlobs(env, s, files), Entries(env.hash, files))
  }

  function SetLabels(s: Store, moduleId: Id32, names: seq<string>, id: CommitId): Store {
    if names == [] then s
    else MoveLabel(SetLabels(s, moduleId, names[..|names| - 1], id), moduleId, names[|names| - 1], id)
  }

  datatype Push = Push(mod: ModuleRecord, files: seq<File>, labels: seq<string>, deps: seq<CommitId>,
    digests: seq<ModuleDigest>)

  function PushDigest(env: Env, p: Push): Digest {
    FilesDigest(env.hash, Entries(env.hash, p.files))
  }

  // A stored commit with the pushed files digest.
  predicate Holds(env: Env, s: Store, p: Push, id: CommitId) {
    HasFiles(s, PushDigest(env, p), id)
  }

  ghost predicate Answers(env: Env, s: Store, p: Push, hit: Option<CommitId>) {
    Finds(s, PushDigest(env, p), hit)
  }

  predicate IsReused(s: Store, p: Push, hit: Option<CommitId>) {
    Reusable(s, p.mod.id, hit)
  }

  function NewCommit(env: Env, p: Push, id: CommitId): CommitRecord {
    Record(env, id, p.mod.id, p.mod.ownerId, PushDigest(env, p), p.digests, p.deps)
  }

  // One push: files, then manifest, then the commit found or made, then the labels.
  ghost predicate Pushed(env: Env, s: Store, next: CommitId, p: Push, hit: Option<CommitId>, s': Store, next': CommitId,
                         c: CommitRecord) {
    var stored := StoreFiles(env, s, p.files);
    && AllB5(p.digests) && Answers(env, stored, p, hit)
    && if IsReused(stored, p, hit) then
         GetCommit(stored, hit.value) == Ok(c) && s' == SetLabels(stored, p.mod.id, p.labels, hit.value)
           && next' == next
       else
         c == NewCommit(env, p, next) && next' == next + 1
         && s' == SetLabels(if next in stored.commits then stored else AddCommit(stored, c), p.mod.id, p.labels, next)
  }

  // ----- Files -----

  lemma {:induction false} EnsureBlobsStored(env: Env, s: Store, files: seq<File>)
    ensures var s' := EnsureBlobs(env, s, files);
      && s.bucket.Keys <= s'.bucket.Keys && BlobsStored(env.hash, s'.bucket, files)
      && s' == s.(bucket := s'.bucket)
  {
    hide BlobKey;
    if files != [] {
      var last := |files| - 1;
      EnsureBlobsStored(env, s, files[..last]);
      assert files == files[..last] + [files[last]];
    }
  }

  lemma StoreFilesStored(env: Env, s: Store, files: seq<File>)
    ensures var s' := StoreFiles(env, s, files);
      && s.bucket.Keys <= s'.bucket.Keys && BlobsStored(env.hash, s'.bucket, files)
      && ManifestKey(FilesDigest(env.hash, Entries(env.hash, files))) in s'.bucket
      && s' == s.(bucket := s'.bucket)
  {
    EnsureBlobsStored(env, s, files);
    hide BlobKey, ManifestKey, Serialize;
  }

  // Files that are there already are not written again.
  lemma {:induction false} NothingToStore(env: Env, s: Store, files: seq<File>)
    requires BlobsStored(env.hash, s.bucket, files)
    ensures EnsureBlobs(env, s, files) == s
  {
    hide BlobKey;
    if files != [] {
      var last := |files| - 1;
      assert files[last] in files;
      NothingToStore(env, s, files[..last]);
    }
  }

  // ----- Labels -----

  // Where the labels point after a push: those named at the commit, all others where they did.
  lemma {:induction false} LabelsAfter(s: Store, moduleId: Id32, names: seq<string>, id: CommitId, m: Id32, n: string)
    ensures GetLabel(SetLabels(s, moduleId, names, id), m, n) ==
      if m == moduleId && n in names then Ok(LabelDoc(m, n, id)) else GetLabel(s, m, n)
    ensures var s' := SetLabels(s, moduleId, names, id); s' == s.(labels := s'.labels)
  {
    if names != [] {
      var last := |names| - 1;
      LabelsAfter(s, moduleId, names[..last], id, m, n);
      LabelKeyInjective(m, n, moduleId, names[last]);
      assert names == names[..last] + [names[last]];
      hide LabelKey;
    }
  }

  lemma PushedCommitStored(env: Env, s: Store, next: CommitId, p: Push, hit: Option<CommitId>, s': Store,
                           next': CommitId, c: CommitRecord)
    requires Pushed(env, s, next, p, hit, s', next', c) && next !in s.commits && CommitTable(s)
    ensures GetCommit(s', c.id) == Ok(c) && c.moduleId == p.mod.id
    ensures c.id == if IsReused(StoreFiles(env, s, p.files), p, hit) then hit.value else next
  {
    StoreFilesStored(env, s, p.files);
    LabelsAfter(StoreFiles(env, s, p.files), p.mod.id, p.labels, c.id, p.mod.id, "");
    var stored := StoreFiles(env, s, p.files);
    if IsReused(stored, p, hit) {
      DecodedFields(stored.commits[hit.value]);
    } else {
      LabelsAfter(AddCommit(stored, c), p.mod.id, p.labels, c.id, p.mod.id, "");
      NewStorable(env, p, next);
      AddedReadsBack(stored, c);
    }
    hide DocToRecord, StoreFiles, SetLabels, NewCommit;
  }

  lemma NewStorable(env: Env, p: Push, id: CommitId)
    ensures Storable(NewCommit(env, p, id))
  {
  }

  // The store before the labels move: the files are stored and the commit is there.
  lemma PushedBase(env: Env, s: Store, next: CommitId, p: Push, hit: Option<CommitId>, s': Store, next': CommitId,
                   c: CommitRecord)
    returns (base: Store)
    requires Pushed(env, s, next, p, hit, s', next', c) && next !in s.commits && CommitTable(s)
    ensures s' == SetLabels(base, p.mod.id, p.labels, c.id)
    ensures base.modules == s.modules && base.labels == s.labels && s.bucket.Keys <= base.bucket.Keys
    ensures base.commits == if IsReused(StoreFiles(env, s, p.files), p, hit) then s.commits
      else s.commits[next := RecordToDoc(c)]
  {
    var stored := StoreFiles(env, s, p.files);
    StoreFilesStored(env, s, p.files);
    hide StoreFiles, SetLabels, DocToRecord, RecordToDoc, PushDigest, B5From;
    if IsReused(stored, p, hit) {
      DecodedFields(stored.commits[hit.value]);
      base := stored;
    } else {
      base := AddCommit(stored, c);
    }
  }

  // What a push changes outside the bucket: it adds at most its commit and moves its labels.
  lemma PushedShape(env: Env, s: Store, next: CommitId, p: Push, hit: Option<CommitId>, s': Store, next': CommitId,
                    c: CommitRecord)
    requires Pushed(env, s, next, p, hit, s', next', c) && next !in s.commits && CommitTable(s)
    ensures s'.modules == s.modules && s.bucket.Keys <= s'.bucket.Keys
    ensures s'.commits == if IsReused(StoreFiles(env, s, p.files), p, hit) then s.commits
      else s.commits[next := RecordToDoc(c)]
    ensures forall m, n ::
      GetLabel(s', m, n) ==
        if m == p.mod.id && n in p.labels then Ok(LabelDoc(m, n, c.id)) else GetLabel(s, m, n)
  {
    var base := PushedBase(env, s, next, p, hit, s', next', c);
    LabelsAfter(base, p.mod.id, p.labels, c.id, p.mod.id, "");
    hide Pushed, CommitTable, StoreFiles, SetLabels, RecordToDoc, IsReused, GetLabel;
    forall m, n
      ensures GetLabel(s', m, n) ==
        if m == p.mod.id && n in p.labels then Ok(LabelDoc(m, n, c.id)) else GetLabel(s, m, n)
    {
      LabelsAfter(base, p.mod.id, p.labels, c.id, m, n);
      SameLabels(s, base, m, n);
    }
  }

  lemma SameLabels(s: Store, s': Store, m: Id32, n: string)
    requires s'.labels == s.labels
    ensures GetLabel(s', m, n) == GetLabel(s, m, n)
  {
  }

  // The label that a reference names.
  function Effective(m: ModuleRecord, ref: string): string {
    if ref == "" then m.defaultLabelName else ref
  }

  // A label that is found leads to a stored commit.
  lemma FoundLabel(env: Env, s: Store, m: Id32, n: string)
    requires StoreOk(env, s) && GetLabel(s, m, n).Ok?
    ensures GetLabel(s, m, n).value.commitId in s.commits
  {
    hide LabelKey, BucketOk, ModuleTable, CommitOk;
    assert LabelOk(s, LabelKey(m, n));
  }

  lemma RefFollowsLabel(s: Store, s': Store, m: ModuleRecord, ref: string)
    requires GetLabel(s', m.id, Effective(m, ref)) == GetLabel(s, m.id, Effective(m, ref))
    requires forall id :: id in s.commits ==> id in s'.commits && s'.commits[id] == s.commits[id]
    requires GetLabel(s, m.id, Effective(m, ref)).Ok? ==>
      GetLabel(s, m.id, Effective(m, ref)).value.commitId in s.commits
    ensures CommitByRef(s', m, ref) == CommitByRef(s, m, ref)
  {
    hide DocToRecord, GetLabel;
  }

  // Every reference of the registry that does not name a moved label resolves as before.
  lemma OtherRefsUnchanged(env: Env, s: Store, next: CommitId, p: Push, hit: Option<CommitId>, s': Store,
                           next': CommitId, c: CommitRecord, m: ModuleRecord, ref: string)
    requires StoreOk(env, s) && Pushed(env, s, next, p, hit, s', next', c) && next !in s.commits
    requires !(m.id == p.mod.id && Effective(m, ref) in p.labels)
    ensures CommitByRef(s', m, ref) == CommitByRef(s, m, ref)
  {
    hide Pushed, StoreOk, GetLabel, RecordToDoc, StoreFiles, IsReused, CommitByRef;
    StoredTables(env, s);
    PushedShape(env, s, next, p, hit, s', next', c);
    if GetLabel(s, m.id, Effective(m, ref)).Ok? {
      FoundLabel(env, s, m.id, Effective(m, ref));
    }
    RefFollowsLabel(s, s', m, ref);
  }

  lemma StoredTables(env: Env, s: Store)
    requires StoreOk(env, s)
    ensures CommitTable(s)
  {
    hide DocToRecord, BucketOk, LabelOk, B5From, ManifestKey;
    forall id | id in s.commits
      ensures s.commits[id].id == id && DocToRecord(s.commits[id]).Ok?
      ensures s.commits[id].moduleId in s.modules ==> s.commits[id].ownerId == s.modules[s.commits[id].moduleId].ownerId
    {
      assert CommitOk(env, s, id);
      DecodedFields(s.commits[id]);
    }
  }

  lemma PushedRef(env: Env, s: Store, next: CommitId, p: Push, hit: Option<CommitId>, s': Store, next': CommitId,
                  c: CommitRecord, ref: string)
    requires StoreOk(env, s) && Pushed(env, s, next, p, hit, s', next', c) && next !in s.commits
    requires Effective(p.mod, ref) in p.labels
    ensures CommitByRef(s', p.mod, ref) == Ok(c)
  {
    StoredTables(env, s);
    PushedShape(env, s, next, p, hit, s', next', c);
    PushedCommitStored(env, s, next, p, hit, s', next', c);
    hide Pushed, StoreOk, GetLabel, GetCommit;
    assert GetLabel(s', p.mod.id, Effective(p.mod, ref)) == Ok(LabelDoc(p.mod.id, Effective(p.mod, ref), c.id));
  }

  /** After a push every label it was given resolves to its commit - except that the empty label cannot
      be resolved, because the empty reference means the default label. So all given labels resolve to
      the commit exactly when none is empty, or the default label was given too, or the push reused the
      commit that the default label led to before. */
  lemma GivenLabelsResolve(env: Env, s: Store, next: CommitId, p: Push, hit: Option<CommitId>, s': Store,
                           next': CommitId, c: CommitRecord)
    requires StoreOk(env, s) && Pushed(env, s, next, p, hit, s', next', c) && next !in s.commits
    requires p.mod.defaultLabelName != ""
    ensures (forall n :: n in p.labels ==> CommitByRef(s', p.mod, n) == Ok(c)) <==>
      || "" !in p.labels || p.mod.defaultLabelName in p.labels
      || (IsReused(s, p, hit) && CommitByRef(s, p.mod, p.mod.defaultLabelName) == GetCommit(s, hit.value))
  {
    DefaultLedHere(env, s, next, p, hit, s', next', c);
    hide Pushed, StoreOk, CommitByRef, IsReused, GetCommit;
    var main := p.mod.defaultLabelName;
    forall n | n in p.labels && n != ""
      ensures CommitByRef(s', p.mod, n) == Ok(c)
    {
      PushedRef(env, s, next, p, hit, s', next', c, n);
    }
    EmptyRef(s', p.mod);
    if main in p.labels {
      PushedRef(env, s, next, p, hit, s', next', c, main);
    } else {
      OtherRefsUnchanged(env, s, next, p, hit, s', next', c, p.mod, main);
    }
  }

  // A label led to the commit of the push before it exactly when it led to the commit that was reused.
  lemma DefaultLedHere(env: Env, s: Store, next: CommitId, p: Push, hit: Option<CommitId>, s': Store, next': CommitId,
                       c: CommitRecord)
    requires StoreOk(env, s) && Pushed(env, s, next, p, hit, s', next', c) && next !in s.commits
    ensures var before := CommitByRef(s, p.mod, p.mod.defaultLabelName);
      before == Ok(c) <==> IsReused(s, p, hit) && before == GetCommit(s, hit.value)
  {
    StoredTables(env, s);
    AnswerOrigin(env, s, next, p, hit, s', next', c);
    hide Pushed, StoreOk, IsReused, PushDigest, RecordToDoc;
    if CommitByRef(s, p.mod, p.mod.defaultLabelName) == Ok(c) {
      RefStored(s, p.mod, p.mod.defaultLabelName);
    }
  }

  lemma RefStored(s: Store, m: ModuleRecord, ref: string)
    requires CommitTable(s) && CommitByRef(s, m, ref).Ok?
    ensures CommitByRef(s, m, ref).value.id in s.commits
  {
    hide LabelKey;
    var found := GetLabel(s, m.id, if ref == "" then m.defaultLabelName else ref).value;
    DecodedFields(s.commits[found.commitId]);
  }

  // Where the answer of a push comes from: the commit that was reused, or a new record.
  lemma AnswerOrigin(env: Env, s: Store, next: CommitId, p: Push, hit: Option<CommitId>, s': Store, next': CommitId,
                     c: CommitRecord)
    requires Pushed(env, s, next, p, hit, s', next', c)
    ensures Answers(env, s, p, hit)
    ensures if IsReused(s, p, hit) then GetCommit(s, hit.value) == Ok(c) && next' == next
      else c == NewCommit(env, p, next) && next' == next + 1
  {
    StoreFilesStored(env, s, p.files);
    SameCommitTable(env, s, StoreFiles(env, s, p.files), p, hit);
    hide StoreFiles, SetLabels, DocToRecord, PushDigest, NewCommit;
  }

  lemma SameCommitTable(env: Env, s: Store, s': Store, p: Push, hit: Option<CommitId>)
    requires s'.commits == s.commits
    ensures Answers(env, s', p, hit) <==> Answers(env, s, p, hit)
    ensures IsReused(s', p, hit) <==> IsReused(s, p, hit)
    ensures hit.Some? ==> GetCommit(s', hit.value) == GetCommit(s, hit.value)
  {
    hide DocToRecord, PushDigest;
  }

  lemma EmptyRef(s: Store, m: ModuleRecord)
    ensures CommitByRef(s, m, "") == CommitByRef(s, m, m.defaultLabelName)
  {
    hide DocToRecord, LabelKey;
  }

  // ----- Pushing the same files again -----

  // The query finds a commit of the pushing module for sure exactly when there is a commit with these
  // files and all such commits belong to that module: the lookup is global, the module is checked after it.
  lemma ReuseIsCertain(env: Env, s: Store, p: Push)
    requires CommitTable(s)
    ensures (forall hit :: Answers(env, s, p, hit) ==> IsReused(s, p, hit)) <==>
      (exists id :: Holds(env, s, p, id)) && (forall id :: Holds(env, s, p, id) ==> s.commits[id].moduleId == p.mod.id)
  {
    if forall hit :: Answers(env, s, p, hit) ==> IsReused(s, p, hit) {
      CertainHolders(env, s, p);
    }
    if (exists id :: Holds(env, s, p, id)) && forall id :: Holds(env, s, p, id) ==> s.commits[id].moduleId == p.mod.id {
      forall hit | Answers(env, s, p, hit)
        ensures IsReused(s, p, hit)
      {
        HoldersReused(env, s, p, hit);
      }
    }
  }

  lemma CertainHolders(env: Env, s: Store, p: Push)
    requires CommitTable(s) && forall hit :: Answers(env, s, p, hit) ==> IsReused(s, p, hit)
    ensures exists id :: Holds(env, s, p, id)
    ensures forall id :: Holds(env, s, p, id) ==> s.commits[id].moduleId == p.mod.id
  {
    hide PushDigest, DocToRecord;
    assert !IsReused(s, p, None);
    NoneFound(env, s, p);
    forall id | Holds(env, s, p, id)
      ensures s.commits[id].moduleId == p.mod.id
    {
      assert Answers(env, s, p, Some(id));
      DecodedFields(s.commits[id]);
    }
  }

  lemma NoneFound(env: Env, s: Store, p: Push)
    ensures (forall id :: !Holds(env, s, p, id)) ==> Answers(env, s, p, None)
  {
    hide PushDigest;
    assert forall id :: HasFiles(s, PushDigest(env, p), id) ==> Holds(env, s, p, id);
  }

  lemma HoldersReused(env: Env, s: Store, p: Push, hit: Option<CommitId>)
    requires CommitTable(s) && Answers(env, s, p, hit)
    requires exists id :: Holds(env, s, p, id)
    requires forall id :: Holds(env, s, p, id) ==> s.commits[id].moduleId == p.mod.id
    ensures IsReused(s, p, hit)
  {
    hide PushDigest, DocToRecord;
    var id :| Holds(env, s, p, id);
    assert hit.Some? && Holds(env, s, p, hit.value);
    DecodedFields(s.commits[hit.value]);
  }

  // Two orders of the same files have one files digest.
  lemma SameFilesSameDigest(env: Env, p: Push, q: Push)
    requires multiset(p.files) == multiset(q.files)
    requires forall i, j :: 0 <= i < j < |p.files| ==> p.files[i].path != p.files[j].path
    ensures PushDigest(env, p) == PushDigest(env, q)
  {
    EntriesFromFiles(env.hash, p.files, q.files);
    DistinctPathsInjective(Entries(env.hash, p.files));
    SortCanonical(Entries(env.hash, p.files), Entries(env.hash, q.files), PathOf);
  }

  lemma AlreadyStored(env: Env, s: Store, files: seq<File>, again: seq<File>)
    requires BlobsStored(env.hash, s.bucket, files) && multiset(files) == multiset(again)
    requires FilesDigest(env.hash, Entries(env.hash, files)) == FilesDigest(env.hash, Entries(env.hash, again))
    requires ManifestKey(FilesDigest(env.hash, Entries(env.hash, files))) in s.bucket
    ensures StoreFiles(env, s, again) == s
  {
    SameElements(files, again);
    hide FilesDigest, ManifestKey, BlobKey;
    NothingToStore(env, s, again);
  }

  /** Pushing the same files again, in any order and with any labels and dependencies, when every commit
      with these files is the module's own: one of these commits is returned as it is stored, bucket,
      modules and commit table stay as they are, and only the named labels move. */
  lemma RePush(env: Env, s: Store, next: CommitId, p: Push, q: Push, hit: Option<CommitId>, s': Store, next': CommitId,
               c: CommitRecord, id: CommitId)
    requires CommitTable(s) && Pushed(env, s, next, q, hit, s', next', c)
    requires q.mod == p.mod && multiset(p.files) == multiset(q.files)
    requires forall i, j :: 0 <= i < j < |p.files| ==> p.files[i].path != p.files[j].path
    requires BlobsStored(env.hash, s.bucket, p.files) && ManifestKey(PushDigest(env, p)) in s.bucket
    requires Holds(env, s, p, id) && forall other :: Holds(env, s, p, other) ==> s.commits[other].moduleId == p.mod.id
    ensures Holds(env, s, p, c.id) && GetCommit(s, c.id) == Ok(c) && next' == next
    ensures s'.bucket == s.bucket && s'.commits == s.commits && s'.modules == s.modules
    ensures forall m, n ::
      GetLabel(s', m, n) ==
        if m == p.mod.id && n in q.labels then Ok(LabelDoc(m, n, c.id)) else GetLabel(s, m, n)
  {
    SameFilesSameDigest(env, p, q);
    AlreadyStored(env, s, p.files, q.files);
    RePushHit(env, s, next, p, q, hit, s', next', c, id);
    hide Pushed, CommitTable, StoreFiles, SetLabels, GetLabel, PushDigest, BlobsStored, Holds;
    forall m, n
      ensures GetLabel(s', m, n) ==
        if m == p.mod.id && n in q.labels then Ok(LabelDoc(m, n, c.id)) else GetLabel(s, m, n)
    {
      LabelsAfter(s, p.mod.id, q.labels, c.id, m, n);
    }
    LabelsAfter(s, p.mod.id, q.labels, c.id, p.mod.id, "");
  }

  lemma RePushHit(env: Env, s: Store, next: CommitId, p: Push, q: Push, hit: Option<CommitId>, s': Store,
                  next': CommitId, c: CommitRecord, id: CommitId)
    requires CommitTable(s) && Pushed(env, s, next, q, hit, s', next', c)
    requires q.mod == p.mod && PushDigest(env, p) == PushDigest(env, q) && StoreFiles(env, s, q.files) == s
    requires Holds(env, s, p, id) && forall other :: Holds(env, s, p, other) ==> s.commits[other].moduleId == p.mod.id
    ensures hit == Some(c.id) && Holds(env, s, p, c.id) && GetCommit(s, c.id) == Ok(c) && next' == next
    ensures s' == SetLabels(s, p.mod.id, q.labels, c.id)
  {
    hide StoreFiles, PushDigest, DocToRecord, SetLabels;
    assert Holds(env, s, q, id);
    assert hit.Some? && Holds(env, s, p, hit.value);
    DecodedFields(s.commits[hit.value]);
  }

  /** ... and whatever happened to the registry since the first push: in any later state in which no other
      module has a commit with these files, the second push finds a commit of the module with these
      files; it is the first push's own when there is only one. */
  lemma RePushLater(env: Env, s: Store, next: CommitId, p: Push, s1: Store, next1: CommitId, first: CommitRecord,
                    s2: Store, next2: CommitId, q: Push, hit: Option<CommitId>, s3: Store, next3: CommitId,
                    c: CommitRecord)
    requires Outcome(env, s, next, p, s1, next1, first) && Later(s1, s2) && CommitTable(s2)
    requires Pushed(env, s2, next2, q, hit, s3, next3, c)
    requires q.mod == p.mod && multiset(p.files) == multiset(q.files)
    requires forall i, j :: 0 <= i < j < |p.files| ==> p.files[i].path != p.files[j].path
    requires forall other :: Holds(env, s2, p, other) ==> s2.commits[other].moduleId == p.mod.id
    ensures Holds(env, s2, p, c.id) && GetCommit(s2, c.id) == Ok(c) && next3 == next2
    ensures s3.bucket == s2.bucket && s3.commits == s2.commits && s3.modules == s2.modules
    ensures forall m, n ::
      GetLabel(s3, m, n) ==
        if m == p.mod.id && n in q.labels then Ok(LabelDoc(m, n, c.id)) else GetLabel(s2, m, n)
    ensures (forall other :: Holds(env, s2, p, other) ==> other == first.id) ==> c == first
  {
    OutcomeLater(env, s, next, p, s1, next1, first, s2);
    hide Outcome, Pushed, Later, CommitTable, GetLabel, GetCommit, Holds, PushDigest, BlobsStored;
    RePush(env, s2, next2, p, q, hit, s3, next3, c, first.id);
  }

  // What a push left behind is still there in every later state.
  lemma OutcomeLater(env: Env, s: Store, next: CommitId, p: Push, s1: Store, next1: CommitId, c: CommitRecord,
                     s2: Store)
    requires Outcome(env, s, next, p, s1, next1, c) && Later(s1, s2)
    ensures Holds(env, s2, p, c.id) && GetCommit(s2, c.id) == Ok(c)
    ensures BlobsStored(env.hash, s2.bucket, p.files) && ManifestKey(PushDigest(env, p)) in s2.bucket
  {
    hide PushDigest, BlobKey, ManifestKey, DocToRecord, GetLabel, RecordToDoc, NewCommit;
  }

  // ----- The dependencies of the answer -----

  // Any answer of the query leads to a push.
  lemma PushExists(env: Env, s: Store, next: CommitId, p: Push, hit: Option<CommitId>)
    returns (s': Store, next': CommitId, c: CommitRecord)
    requires AllB5(p.digests) && Answers(env, s, p, hit)
    ensures Pushed(env, s, next, p, hit, s', next', c)
  {
    hide StoreFiles, SetLabels, GetCommit, PushDigest, NewCommit, AddCommit, Answers, IsReused, AllB5, BlobsStored,
      ManifestKey;
    var stored := StoreFiles(env, s, p.files);
    StoreFilesStored(env, s, p.files);
    SameCommitTable(env, s, stored, p, hit);
    if IsReused(stored, p, hit) {
      ReusedFound(stored, p, hit);
      c, next', s' := GetCommit(stored, hit.value).value, next, SetLabels(stored, p.mod.id, p.labels, hit.value);
    } else {
      c, next' := NewCommit(env, p, next), next + 1;
      s' := SetLabels(if next in stored.commits then stored else AddCommit(stored, c), p.mod.id, p.labels, next);
    }
  }

  lemma ReusedFound(s: Store, p: Push, hit: Option<CommitId>)
    requires IsReused(s, p, hit)
    ensures hit.Some? && GetCommit(s, hit.value).Ok?
  {
    hide GetCommit;
  }

  // A commit of the pushing module with the pushed files: what the push may answer with.
  ghost predicate Candidate(env: Env, s: Store, p: Push, id: CommitId) {
    Holds(env, s, p, id) && s.commits[id].moduleId == p.mod.id
  }

  lemma CandidateIsAnswer(env: Env, s: Store, next: CommitId, p: Push, id: CommitId)
    returns (s': Store, next': CommitId, c: CommitRecord)
    requires CommitTable(s) && AllB5(p.digests) && Candidate(env, s, p, id)
    ensures Pushed(env, s, next, p, Some(id), s', next', c) && GetCommit(s, id) == Ok(c)
  {
    DecodedFields(s.commits[id]);
    hide Pushed, PushDigest, DocToRecord;
    assert Answers(env, s, p, Some(id)) && IsReused(s, p, Some(id));
    s', next', c := PushExists(env, s, next, p, Some(id));
    AnswerOrigin(env, s, next, p, Some(id), s', next', c);
  }

  lemma AnswerIsCandidate(env: Env, s: Store, next: CommitId, p: Push, hit: Option<CommitId>, s': Store,
                          next': CommitId, c: CommitRecord)
    requires CommitTable(s) && Pushed(env, s, next, p, hit, s', next', c)
    ensures c == NewCommit(env, p, next)
      || (hit.Some? && Candidate(env, s, p, hit.value) && GetCommit(s, hit.value) == Ok(c))
  {
    AnswerOrigin(env, s, next, p, hit, s', next', c);
    hide Pushed, PushDigest, B5From, DocToRecord;
    if IsReused(s, p, hit) {
      DecodedFields(s.commits[hit.value]);
    }
  }

  /** The lookup ignores dependencies. Every answer to a push carries the pushed dependencies exactly when
      each commit of the module with the same files was stored with the same dependencies. */
  lemma AnswerCarriesDeps(env: Env, s: Store, next: CommitId, p: Push)
    requires CommitTable(s) && AllB5(p.digests)
    ensures (forall hit, s', next', c :: Pushed(env, s, next, p, hit, s', next', c) ==> c.deps == p.deps) <==>
      (forall id :: Candidate(env, s, p, id) ==> s.commits[id].deps == p.deps)
  {
    hide Pushed, PushDigest, B5From, DocToRecord;
    forall id | Candidate(env, s, p, id) && forall hit, s', next', c :: Pushed(env, s, next, p, hit, s', next', c) ==>
        c.deps == p.deps
      ensures s.commits[id].deps == p.deps
    {
      var s', next', c := CandidateIsAnswer(env, s, next, p, id);
      DecodedFields(s.commits[id]);
    }
    forall hit, s', next', c | Pushed(env, s, next, p, hit, s', next', c) && forall id :: Candidate(env, s, p, id) ==>
        s.commits[id].deps == p.deps
      ensures c.deps == p.deps
    {
      AnswerIsCandidate(env, s, next, p, hit, s', next', c);
      if c != NewCommit(env, p, next) {
        DecodedFields(s.commits[hit.value]);
      }
    }
  }

  // The digest that commits to the pushed files and dependency digests.
  function PushedModuleDigest(env: Env, p: Push): ModuleDigest {
    B5From(env.hash, PushDigest(env, p), p.digests)
  }

  /** The same for the module digest: every answer's digest is the one of the pushed files and dependencies
      exactly when each commit of the module with the same files has that digest. */
  lemma AnswerCarriesDigest(env: Env, s: Store, next: CommitId, p: Push)
    requires CommitTable(s) && AllB5(p.digests)
    ensures (forall hit, s', next', c :: Pushed(env, s, next, p, hit, s', next', c) ==>
      c.moduleDigest == PushedModuleDigest(env, p)) <==>
      (forall id :: Candidate(env, s, p, id) ==> ModuleDigestOf(s, id) == PushedModuleDigest(env, p))
  {
    hide Pushed, Candidate, PushDigest, B5From, DocToRecord;
    forall id | Candidate(env, s, p, id)
             && forall hit, s', next', c :: Pushed(env, s, next, p, hit, s', next', c) ==>
                  c.moduleDigest == PushedModuleDigest(env, p)
      ensures ModuleDigestOf(s, id) == PushedModuleDigest(env, p)
    {
      var s', next', c := CandidateIsAnswer(env, s, next, p, id);
    }
    forall hit, s', next', c | Pushed(env, s, next, p, hit, s', next', c)
                            && forall id :: Candidate(env, s, p, id) ==>
                                 ModuleDigestOf(s, id) == PushedModuleDigest(env, p)
      ensures c.moduleDigest == PushedModuleDigest(env, p)
    {
      AnswerIsCandidate(env, s, next, p, hit, s', next', c);
    }
  }

  // ----- A push keeps the promises of the stores -----

  lemma {:induction false} EnsureBlobsKeep(env: Env, s: Store, files: seq<File>)
    requires StoreOk(env, s)
    ensures StoreOk(env, EnsureBlobs(env, s, files)) && Later(s, EnsureBlobs(env, s, files))
  {
    hide StoreOk, Later, BlobKey, PutBlob;
    LaterReflexive(s);
    if files != [] {
      var last := |files| - 1;
      var mid := EnsureBlobs(env, s, files[..last]);
      EnsureBlobsKeep(env, s, files[..last]);
      PutBlobKeeps(env, mid, files[last].content);
      LaterTransitive(s, mid, PutBlob(env, mid, files[last].content));
    }
  }

  lemma FileEntriesStored(env: Env, bucket: Bucket, files: seq<File>)
    requires BlobsStored(env.hash, bucket, files) && forall f :: f in files ==> env.pathOk(f.path)
    ensures Stored(bucket, env.pathOk, Entries(env.hash, files))
  {
    hide BlobKey;
    var entries := Entries(env.hash, files);
    forall e | e in entries
      ensures env.pathOk(e.path) && BlobKey(e.digest) in bucket
    {
      var i :| 0 <= i < |entries| && entries[i] == e;
      assert files[i] in files;
    }
  }

  lemma StoreFilesKeep(env: Env, s: Store, files: seq<File>)
    requires StoreOk(env, s) && forall f :: f in files ==> env.pathOk(f.path)
    ensures StoreOk(env, StoreFiles(env, s, files)) && Later(s, StoreFiles(env, s, files))
  {
    hide StoreOk, Later, ManifestKey, PutManifest, FilesDigest, BlobsStored, Stored;
    var mid, entries := EnsureBlobs(env, s, files), Entries(env.hash, files);
    EnsureBlobsKeep(env, s, files);
    EnsureBlobsStored(env, s, files);
    FileEntriesStored(env, mid.bucket, files);
    PutManifestKeeps(env, mid, entries);
    LaterTransitive(s, mid, PutManifest(env, mid, entries));
  }

  lemma {:induction false} SetLabelsKeep(env: Env, s: Store, moduleId: Id32, names: seq<string>, id: CommitId)
    requires StoreOk(env, s) && moduleId in s.modules && id in s.commits && s.commits[id].moduleId == moduleId
    ensures StoreOk(env, SetLabels(s, moduleId, names, id)) && Later(s, SetLabels(s, moduleId, names, id))
  {
    hide StoreOk, Later, LabelKey;
    LaterReflexive(s);
    if names != [] {
      var last := |names| - 1;
      var mid := SetLabels(s, moduleId, names[..last], id);
      LabelsAfter(s, moduleId, names[..last], id, moduleId, "");
      SetLabelsKeep(env, s, moduleId, names[..last], id);
      MoveLabelKeeps(env, mid, moduleId, names[last], id);
      LaterTransitive(s, mid, MoveLabel(mid, moduleId, names[last], id));
    }
  }

  // What uploadContent passes to CreateCommit: a stored module, stored dependencies and the module
  // digests stored for them; and paths that clients use.
  ghost predicate Prepared(env: Env, s: Store, p: Push) {
    && p.mod.id in s.modules && s.modules[p.mod.id] == p.mod && (forall f :: f in p.files ==> env.pathOk(f.path))
    && (forall d :: d in p.deps ==> d in s.commits) && p.digests == DepDigestsOf(s, p.deps)
  }

  lemma SameDepDigests(s: Store, s': Store, deps: seq<CommitId>)
    requires s'.commits == s.commits
    ensures DepDigestsOf(s', deps) == DepDigestsOf(s, deps)
  {
    hide DocToRecord;
  }

  lemma NewCommitAddable(env: Env, s: Store, next: CommitId, p: Push)
    requires Prepared(env, s, p) && forall id: CommitId :: id in s.commits ==> id < next
    ensures Addable(env, StoreFiles(env, s, p.files), NewCommit(env, p, next))
  {
    var stored := StoreFiles(env, s, p.files);
    hide Serialize, ManifestKey, B5Input, BlobsStored, DepDigestsOf, StoreFiles;
    StoreFilesStored(env, s, p.files);
    SameDepDigests(s, stored, p.deps);
  }

  lemma AddedKeeps(env: Env, s: Store, next: CommitId, p: Push)
    requires StoreOk(env, s) && (forall id: CommitId :: id in s.commits ==> id < next) && Prepared(env, s, p)
    ensures
      var s' := AddCommit(StoreFiles(env, s, p.files), NewCommit(env, p, next));
      StoreOk(env, s') && Later(s, s') && next in s'.commits && s'.commits[next].moduleId == p.mod.id
        && p.mod.id in s'.modules
  {
    var stored := StoreFiles(env, s, p.files);
    hide StoreFiles, StoreOk, Later, Addable, BlobsStored, PushDigest, B5From, DepDigestsOf;
    StoreFilesKeep(env, s, p.files);
    NewCommitAddable(env, s, next, p);
    StoreFilesStored(env, s, p.files);
    AddCommitKeeps(env, stored, NewCommit(env, p, next));
    LaterTransitive(s, stored, AddCommit(stored, NewCommit(env, p, next)));
  }

  // The store before the labels move keeps all promises and holds the commit.
  lemma BaseKeeps(env: Env, s: Store, next: CommitId, p: Push, hit: Option<CommitId>, s': Store, next': CommitId,
                  c: CommitRecord)
    returns (base: Store, id: CommitId)
    requires StoreOk(env, s) && (forall id: CommitId :: id in s.commits ==> id < next) && Prepared(env, s, p)
    requires Pushed(env, s, next, p, hit, s', next', c)
    ensures StoreOk(env, base) && Later(s, base) && s' == SetLabels(base, p.mod.id, p.labels, id)
    ensures id in base.commits && base.commits[id].moduleId == p.mod.id && p.mod.id in base.modules
    ensures forall id: CommitId :: id in base.commits ==> id < next'
  {
    var stored := StoreFiles(env, s, p.files);
    hide StoreFiles, StoreOk, Later, BlobsStored, PushDigest, B5From, DepDigestsOf, SetLabels, DocToRecord, RecordToDoc;
    StoreFilesKeep(env, s, p.files);
    StoreFilesStored(env, s, p.files);
    if IsReused(stored, p, hit) {
      DecodedFields(stored.commits[hit.value]);
      base, id := stored, hit.value;
    } else {
      AddedKeeps(env, s, next, p);
      base, id := AddCommit(stored, c), next;
    }
  }

  lemma PushedKeeps(env: Env, s: Store, next: CommitId, p: Push, hit: Option<CommitId>, s': Store, next': CommitId,
                    c: CommitRecord)
    requires StoreOk(env, s) && (forall id: CommitId :: id in s.commits ==> id < next) && Prepared(env, s, p)
    requires Pushed(env, s, next, p, hit, s', next', c)
    ensures StoreOk(env, s') && Later(s, s') && forall id: CommitId :: id in s'.commits ==> id < next'
  {
    var base, id := BaseKeeps(env, s, next, p, hit, s', next', c);
    hide StoreOk, Later, SetLabels, Pushed, Prepared;
    SetLabelsKeep(env, base, p.mod.id, p.labels, id);
    LabelsAfter(base, p.mod.id, p.labels, id, p.mod.id, "");
    LaterTransitive(s, base, s');
  }

  // ----- What a push comes to, for those who read the registry afterwards -----

  ghost predicate Outcome(env: Env, s: Store, next: CommitId, p: Push, s': Store, next': CommitId, c: CommitRecord) {
    && GetCommit(s', c.id) == Ok(c) && Holds(env, s', p, c.id) && c.moduleId == p.mod.id
    && c.filesDigest == PushDigest(env, p)
    && BlobsStored(env.hash, s'.bucket, p.files) && ManifestKey(PushDigest(env, p)) in s'.bucket
    && s'.modules == s.modules
    && (|| (s'.commits == s.commits && next' == next)
        || (c == NewCommit(env, p, next) && s'.commits == s.commits[next := RecordToDoc(c)] && next' == next + 1))
    && forall m, n ::
         GetLabel(s', m, n) == if m == p.mod.id && n in p.labels then Ok(LabelDoc(m, n, c.id)) else GetLabel(s, m, n)
  }

  lemma HolderHasFiles(env: Env, s: Store, p: Push, id: CommitId)
    requires Holds(env, s, p, id) && GetCommit(s, id).Ok?
    ensures GetCommit(s, id).value.filesDigest == PushDigest(env, p)
  {
    DigestRoundTrip(PushDigest(env, p));
    assert ':' !in PushDigest(env, p).algorithm;
    hide PushDigest, ParseModuleDigest;
    assert ParseDigest(s.commits[id].filesDigest) == Ok(PushDigest(env, p));
  }

  lemma PushedFiles(env: Env, s: Store, next: CommitId, p: Push, hit: Option<CommitId>, s': Store, next': CommitId,
                    c: CommitRecord)
    requires Pushed(env, s, next, p, hit, s', next', c) && next !in s.commits && CommitTable(s)
    ensures c.filesDigest == PushDigest(env, p)
    ensures s'.bucket == StoreFiles(env, s, p.files).bucket
    ensures if IsReused(StoreFiles(env, s, p.files), p, hit) then next' == next
      else c == NewCommit(env, p, next) && next' == next + 1
  {
    var stored := StoreFiles(env, s, p.files);
    hide StoreFiles, SetLabels, DocToRecord, RecordToDoc, PushDigest, B5From;
    if IsReused(stored, p, hit) {
      HolderHasFiles(env, stored, p, hit.value);
      LabelsAfter(stored, p.mod.id, p.labels, hit.value, p.mod.id, "");
    } else {
      var base := if next in stored.commits then stored else AddCommit(stored, c);
      LabelsAfter(base, p.mod.id, p.labels, next, p.mod.id, "");
    }
  }

  lemma PushedOutcome(env: Env, s: Store, next: CommitId, p: Push, hit: Option<CommitId>, s': Store, next': CommitId,
                      c: CommitRecord)
    requires Pushed(env, s, next, p, hit, s', next', c) && next !in s.commits && CommitTable(s)
    ensures Outcome(env, s, next, p, s', next', c)
  {
    PushedShape(env, s, next, p, hit, s', next', c);
    PushedCommitStored(env, s, next, p, hit, s', next', c);
    PushedFiles(env, s, next, p, hit, s', next', c);
    StoreFilesStored(env, s, p.files);
    DigestOfPush(env, p);
    hide Pushed, CommitTable, StoreFiles, BlobsStored, PushDigest, GetLabel, GetCommit, RecordToDoc, IsReused,
      ManifestKey, FilesDigest;
  }

  lemma DigestOfPush(env: Env, p: Push)
    ensures PushDigest(env, p) == FilesDigest(env.hash, Entries(env.hash, p.files))
  {
  }

  // A push that reuses nothing adds its commit.
  lemma FreshCommit(env: Env, s: Store, next: CommitId, p: Push, hit: Option<CommitId>)
    returns (s': Store, c: CommitRecord)
    requires StoreOk(env, s) && (forall id: CommitId :: id in s.commits ==> id < next) && Prepared(env, s, p)
    requires AllB5(p.digests)
    requires Answers(env, s, p, hit) && !IsReused(s, p, hit)
    ensures Pushed(env, s, next, p, hit, s', next + 1, c) && c == NewCommit(env, p, next) && c.id == next
    ensures StoreOk(env, s') && s'.modules == s.modules && s'.commits == s.commits[next := RecordToDoc(c)]
    ensures forall m, n ::
      GetLabel(s', m, n) ==
        if m == p.mod.id && n in p.labels then Ok(LabelDoc(m, n, next)) else GetLabel(s, m, n)
  {
    StoredTables(env, s);
    hide Pushed, StoreOk, Prepared, IsReused, CommitTable, Answers, GetLabel, RecordToDoc, StoreFiles, Later,
      PushDigest, B5From;
    var next';
    s', next', c := PushExists(env, s, next, p, hit);
    AnswerOrigin(env, s, next, p, hit, s', next', c);
    PushedKeeps(env, s, next, p, hit, s', next', c);
    PushedShape(env, s, next, p, hit, s', next', c);
    StoreFilesStored(env, s, p.files);
    SameCommitTable(env, s, StoreFiles(env, s, p.files), p, hit);
  }
}
