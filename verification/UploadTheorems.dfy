/** What the promises kept by every run of concurrent uploads mean to those who read the registry. */
module UploadTheorems {
  import opened Wrappers
  import opened Ordering
  import opened Digests
  import opened Manifests
  import opened Merkle
  import opened Buckets
  import opened Retrieval
  import opened Docstore
  import opened StoreInvariant
  import opened Uploads
  import opened Graph
  import opened GraphTheorems
  import opened GraphConflicts

  // ----- Nothing dangles -----

  // In every state of every run a label that is found leads to a commit of its own module.
  lemma LabelsLead(env: Env, run: seq<System>, i: nat, moduleId: Id32, name: string)
    requires IsRun(env, run) && i < |run| && GetLabel(run[i].store, moduleId, name).Ok?
    ensures
      var s := run[i].store;
      && moduleId in s.modules
      && CommitById(s, s.modules[moduleId], GetLabel(s, moduleId, name).value.commitId).Ok?
  {
    var s := run[i].store;
    RunKeeps(env, run, i);
    var key := LabelKey(moduleId, name);
    assert LabelOk(s, key);
    var l := s.labels[key];
    LabelKeyInjective(moduleId, name, l.moduleId, l.name);
    assert CommitOk(env, s, l.commitId);
    hide DocToRecord, LabelKey, BucketOk, B5From, ManifestKey;
    DecodedFields(s.commits[l.commitId]);
  }

  lemma StoredCommitOk(env: Env, run: seq<System>, i: nat, id: CommitId)
    requires IsRun(env, run) && i < |run| && id in run[i].store.commits
    ensures StoreOk(env, run[i].store) && CommitOk(env, run[i].store, id)
  {
    RunKeeps(env, run, i);
    hide CommitOk, BucketOk, LabelOk;
  }

  // ... and a stored commit's manifest is in the bucket, printed from entries whose blobs are all there.
  // So is every blob that a reader finds listed, unless the text lists digests that were not printed in it.
  lemma FilesStored(env: Env, run: seq<System>, i: nat, id: CommitId)
    requires IsRun(env, run) && i < |run| && id in run[i].store.commits
    ensures
      var s := run[i].store;
      && GetCommit(s, id).Ok? && ManifestKey(GetCommit(s, id).value.filesDigest) in s.bucket
      && var d := GetCommit(s, id).value.filesDigest;
         && IsManifest(s.bucket, env.pathOk, s.bucket[ManifestKey(d)])
         && (IsOwnManifest(s.bucket, env.pathOk, s.bucket[ManifestKey(d)]) ==> ListedStored(s.bucket, d))
  {
    var s := run[i].store;
    StoredCommitOk(env, run, i, id);
    StoredFacts(env, s, id);
    hide StoreOk, CommitOk, ManifestKey, B5From, IsManifest, IsOwnManifest, ListedStored, BucketOk, GetCommit, IsShake;
    var d := GetCommit(s, id).value.filesDigest;
    ManifestIntegrity(env.hash, env.pathOk, s.bucket, d);
    if IsOwnManifest(s.bucket, env.pathOk, s.bucket[ManifestKey(d)]) {
      ListedBlobsStored(env.pathOk, s.bucket, d);
    }
  }

  // ----- Dependencies and digests -----

  // Dependencies are stored and older, and the module digest is the one ComputeB5Digest gives for the
  // stored manifest and the stored digests of the dependencies.
  lemma StoredDigest(env: Env, run: seq<System>, i: nat, id: CommitId, entries: seq<Entry>)
    requires IsRun(env, run) && i < |run| && id in run[i].store.commits
    ensures
      var s := run[i].store;
      && GetCommit(s, id).Ok?
      && var c := GetCommit(s, id).value;
         && ManifestKey(c.filesDigest) in s.bucket
         && (forall d: CommitId :: d in c.deps ==> d in s.commits && d < id)
         && (s.bucket[ManifestKey(c.filesDigest)] == Serialize(entries) ==>
               ComputeB5(env.hash, entries, DepDigestsOf(s, c.deps)) == Ok(c.moduleDigest))
  {
    var s := run[i].store;
    StoredCommitOk(env, run, i, id);
    var c := GetCommit(s, id).value;
    DepDigestsB5(env, s, c.deps);
    hide DocToRecord, ManifestKey, LabelOk, Serialize, B5From, DepDigestsOf;
    ManifestIntegrity(env.hash, env.pathOk, s.bucket, c.filesDigest);
  }

  lemma DepDigestsB5(env: Env, s: Store, deps: seq<CommitId>)
    requires StoreOk(env, s) && forall d :: d in deps ==> d in s.commits
    ensures AllB5(DepDigestsOf(s, deps))
  {
    hide StoreOk, ModuleDigestOf;
    forall d | d in DepDigestsOf(s, deps)
      ensures d.kind.B5?
    {
      var i :| 0 <= i < |deps| && DepDigestsOf(s, deps)[i] == d;
      StoredIsB5(env, s, deps[i]);
    }
  }

  // The catalog that the graph walk works on: nothing is skipped, and dependencies are older.
  lemma StoredCatalog(env: Env, run: seq<System>, i: nat)
    requires IsRun(env, run) && i < |run|
    ensures
      var s, g := run[i].store, CatalogOf(run[i].store);
      && Descending(g) && (forall id :: id in s.commits <==> Graph.Resolves(g, id))
      && (forall id :: id in s.commits ==> LocalDeps(g, id) == GetCommit(s, id).value.deps)
  {
    var s, g := run[i].store, CatalogOf(run[i].store);
    RunKeeps(env, run, i);
    forall id | id in s.commits
      ensures id in g.key && LocalDeps(g, id) == GetCommit(s, id).value.deps
      ensures forall d: CommitId :: d in LocalDeps(g, id) ==> d < id
    {
      CatalogEntry(env, s, id);
    }
    hide SystemOk, CatalogOf;
    forall c: CommitId, d: CommitId | d in LocalDeps(g, c)
      ensures d < c
    {
      CatalogOnly(s, c, d);
    }
    forall id | Graph.Resolves(g, id)
      ensures id in s.commits
    {
      CatalogKeys(s, id);
    }
  }

  lemma CatalogKeys(s: Store, id: CommitId)
    requires id in CatalogOf(s).key
    ensures id in s.commits
  {
  }

  lemma CatalogOnly(s: Store, c: CommitId, d: CommitId)
    requires d in LocalDeps(CatalogOf(s), c)
    ensures c in s.commits
  {
  }

  lemma CatalogEntry(env: Env, s: Store, id: CommitId)
    requires StoreOk(env, s) && id in s.commits
    ensures var g := CatalogOf(s); id in g.key && LocalDeps(g, id) == GetCommit(s, id).value.deps
    ensures forall d: CommitId :: d in GetCommit(s, id).value.deps ==> d < id
  {
    var g := CatalogOf(s);
    assert CommitOk(env, s, id);
    hide DocToRecord, BucketOk, LabelOk, B5From, ManifestKey;
    var deps := GetCommit(s, id).value.deps;
    forall d: CommitId | d in deps
      ensures Graph.Resolves(g, d)
    {
      assert CommitOk(env, s, d);
    }
    AllLocal(g, deps);
  }

  lemma {:induction false} AllLocal(g: Catalog, deps: seq<CommitId>)
    requires forall d :: d in deps ==> Graph.Resolves(g, d)
    ensures Locals(g, deps) == deps
  {
    if deps != [] {
      AllLocal(g, deps[1..]);
    }
  }

  // The dependency graph of any reachable registry, for requested commits of different modules. With or
  // without version conflicts: what the edges are, when there is a cycle, when dependencies are lost.
  // Without conflicts, and only then, the answer is exactly what the request leads to.
  lemma RegistryGraph(env: Env, run: seq<System>, i: nat, roots: seq<CommitId>)
    requires IsRun(env, run) && i < |run| && forall c :: c in roots ==> c in run[i].store.commits
    requires DistinctModules(CatalogOf(run[i].store), roots)
    ensures
      var g := CatalogOf(run[i].store);
      var st := Resolve(g, roots);
      && (forall a, b :: Edge(a, b) in st.edges <==> LeadsTo(g, roots, st, a, b))
      && (!Acyclic(st.edges) <==> exists p :: IsDependencyCycle(g, roots, st, p))
      && ((forall p :: !IsModuleCycle(g, roots, p)) ==> Acyclic(st.edges))
      && (DependenciesKept(g, st) <==> forall c, e :: Overtakes(g, roots, st, c, e) ==> LocalDeps(g, c) == [])
      && ((forall c :: c in st.listed <==> Reachable(g, roots, c)) <==> NoConflict(g, roots))
      && (NoConflict(g, roots) ==> multiset(st.edges) == multiset(StoredEdges(g, st.listed)) && Acyclic(st.edges))
  {
    StoredCatalog(env, run, i);
    hide CatalogOf, Resolve, LeadsTo, IsDependencyCycle, IsModuleCycle, DependenciesKept, Overtakes, NoConflict,
      Reachable, Acyclic, DistinctModules, IsRun, Descending, LocalDeps, StoredEdges;
    var g := CatalogOf(run[i].store);
    forall a, b
      ensures Edge(a, b) in Resolve(g, roots).edges <==> LeadsTo(g, roots, Resolve(g, roots), a, b)
    {
      EdgeMeaning(g, roots, a, b);
    }
    CyclicExactly(g, roots);
    if forall p :: !IsModuleCycle(g, roots, p) {
      AcyclicModules(g, roots);
    }
    DependenciesLost(g, roots);
    ExactOnlyWithoutConflict(g, roots);
    if NoConflict(g, roots) {
      ExactWithoutConflict(g, roots);
      AcyclicWithoutConflict(g, roots);
    }
  }

  // ----- Reading back -----

  // downloadByCommitID
  function Download(s: Store, id: CommitId): Result<seq<ReadFile>> {
    var m :- ModuleByCommitId(s, id);
    var c :- CommitById(s, m, id);
    FilesOf(s.bucket, c.filesDigest)
  }

  lemma DownloadReadsFiles(env: Env, s: Store, id: CommitId)
    requires StoreOk(env, s) && id in s.commits
    ensures GetCommit(s, id).Ok? && Download(s, id) == FilesOf(s.bucket, GetCommit(s, id).value.filesDigest)
  {
    assert CommitOk(env, s, id);
    hide DocToRecord, BucketOk, LabelOk, B5From, ManifestKey, FilesOf;
  }

  /** An upload that ended with a commit, new or reused, can be read back by that commit's id in every
      later state: exactly its paths and contents, sorted by path, provided, and only when, its paths are
      legal - or a stored object collides with a string that was hashed to store the upload. */
  lemma ReadYourUpload(env: Env, run: seq<System>, i: nat, j: nat, p: nat)
    requires IsRun(env, run) && i <= j < |run|
    requires p in run[i].uploads && run[i].uploads[p].phase.Done?
    ensures
      var files, id, s := run[i].uploads[p].req.files, run[i].uploads[p].phase.id, run[j].store;
      || Collision(env.hash, Uploaded(env.hash, files), s.bucket.Values)
      || (Download(s, id) == Ok(Expected(env.hash, files)) <==> forall f :: f in files ==> LegalPath(f.path))
  {
    var u, s, s' := run[i].uploads[p], run[i].store, run[j].store;
    RunKeeps(env, run, i);
    RunKeeps(env, run, j);
    RunGrows(env, run, i, j);
    UploadEnded(env, run[i], p);
    LaterReads(s, s', u.phase.id);
    hide StoreOk, IsRun, DocToRecord, GetCommit, FilesOf, Expected, Uploaded, Download;
    DownloadReadsFiles(env, s', u.phase.id);
    StillStored(env, s, s', u);
    BucketOfSystem(env, run[j]);
    StoreThenRead(env.hash, env.pathOk, s'.bucket, u.req.files);
  }

  lemma BucketOfSystem(env: Env, sys: System)
    requires SystemOk(env, sys)
    ensures BucketOk(env.hash, env.pathOk, sys.store.bucket)
  {
  }

  lemma UploadEnded(env: Env, sys: System, p: nat)
    requires SystemOk(env, sys) && p in sys.uploads && sys.uploads[p].phase.Done?
    ensures
      var u := sys.uploads[p];
      && u.entries == Entries(env.hash, u.req.files) && EntriesPut(env, sys.store, u)
      && IsCommitOfUpload(env, sys.store, u, u.phase.id) && ManifestKey(FilesDigestOf(env, u)) in sys.store.bucket
  {
    hide StoreOk, BlobKey, DigestsRead, IsCommitOfUpload, FilesDigestOf, ManifestKey;
    var u := sys.uploads[p];
    assert UploadOk(env, sys.store, sys.next, u);
    assert u.req.files[..|u.req.files|] == u.req.files;
  }

  lemma LaterReads(s: Store, s': Store, id: CommitId)
    requires Later(s, s') && id in s.commits
    ensures GetCommit(s', id) == GetCommit(s, id)
  {
    hide DocToRecord;
  }

  lemma StillStored(env: Env, s: Store, s': Store, u: Upload)
    requires Later(s, s') && u.entries == Entries(env.hash, u.req.files) && EntriesPut(env, s, u)
    requires ManifestKey(FilesDigestOf(env, u)) in s.bucket
    ensures BlobsStored(env.hash, s'.bucket, u.req.files)
    ensures ManifestKey(FilesDigest(env.hash, Entries(env.hash, u.req.files))) in s'.bucket
  {
    hide BlobKey, ManifestKey, FilesDigest;
    forall f | f in u.req.files
      ensures BlobKey(SumOf(env.hash, f.content)) in s'.bucket
    {
      var k :| 0 <= k < |u.req.files| && u.req.files[k] == f;
      assert u.entries[k] in u.entries;
    }
  }

  // ----- The stored digests commit to stored trees -----

  // The manifest entries that a stored manifest text was printed from, without newlines if it can be.
  ghost function EntriesAt(env: Env, s: Store, d: Digest): (entries: seq<Entry>)
    requires BucketOk(env.hash, env.pathOk, s.bucket) && IsShake(d) && ManifestKey(d) in s.bucket
    ensures Serialize(entries) == s.bucket[ManifestKey(d)] && Stored(s.bucket, env.pathOk, entries)
    ensures IsPlainManifest(s.bucket, env.pathOk, s.bucket[ManifestKey(d)]) ==>
      StoredPlain(s.bucket, env.pathOk, entries)
  {
    ManifestIntegrity(env.hash, env.pathOk, s.bucket, d);
    if IsPlainManifest(s.bucket, env.pathOk, s.bucket[ManifestKey(d)]) then
      var entries :| Serialize(entries) == s.bucket[ManifestKey(d)] && StoredPlain(s.bucket, env.pathOk, entries);
      entries
    else
      var entries :| Serialize(entries) == s.bucket[ManifestKey(d)] && Stored(s.bucket, env.pathOk, entries);
      entries
  }

  ghost function FilesAt(s: Store, entries: seq<Entry>): (files: seq<File>)
    requires forall e :: e in entries ==> BlobKey(e.digest) in s.bucket
    ensures |files| == |entries|
  {
    seq(|entries|, i requires 0 <= i < |entries| => File(entries[i].path, s.bucket[BlobKey(entries[i].digest)]))
  }

  lemma StoredFacts(env: Env, s: Store, id: CommitId)
    requires StoreOk(env, s) && id in s.commits
    ensures GetCommit(s, id).Ok? && BucketOk(env.hash, env.pathOk, s.bucket)
    ensures
      var c := GetCommit(s, id).value;
      && IsShake(c.filesDigest) && ManifestKey(c.filesDigest) in s.bucket
      && (forall d: CommitId :: d in c.deps ==> d in s.commits && d < id)
      && c.moduleDigest == B5From(env.hash, c.filesDigest, DepDigestsOf(s, c.deps))
  {
    assert CommitOk(env, s, id);
    hide DocToRecord, LabelOk, BucketOk, ManifestKey, B5From;
  }

  ghost function StoredFiles(env: Env, s: Store, id: CommitId): seq<File>
    requires StoreOk(env, s) && id in s.commits
  {
    StoredFacts(env, s, id);
    FilesAt(s, EntriesAt(env, s, GetCommit(s, id).value.filesDigest))
  }

  ghost function StoredDeps(env: Env, s: Store, id: CommitId): (deps: seq<CommitId>)
    requires StoreOk(env, s) && id in s.commits
    ensures forall d: CommitId :: d in deps ==> d in s.commits && d < id
  {
    StoredFacts(env, s, id);
    GetCommit(s, id).value.deps
  }

  // The tree of a stored commit: its stored files and the trees of its stored dependencies.
  ghost function StoredTree(env: Env, s: Store, id: CommitId): Tree
    requires StoreOk(env, s) && id in s.commits
    decreases id
  {
    hide StoreOk, StoredDeps, StoredFiles;
    var deps := StoredDeps(env, s, id);
    Tree(StoredFiles(env, s, id), seq(|deps|, i requires 0 <= i < |deps| => StoredTree(env, s, deps[i])))
  }

  lemma EntriesOfStored(env: Env, s: Store, d: Digest)
    requires BucketOk(env.hash, env.pathOk, s.bucket) && IsShake(d) && ManifestKey(d) in s.bucket
    ensures
      var entries := EntriesAt(env, s, d);
      Entries(env.hash, FilesAt(s, entries)) == entries && FilesDigest(env.hash, entries) == d
  {
    var entries := EntriesAt(env, s, d);
    ManifestIntegrity(env.hash, env.pathOk, s.bucket, d);
    hide Serialize, BlobKey, ManifestKey;
    forall i | 0 <= i < |entries|
      ensures SumOf(env.hash, s.bucket[BlobKey(entries[i].digest)]) == entries[i].digest
    {
      assert entries[i] in entries;
      BlobIntegrity(env.hash, env.pathOk, s.bucket, entries[i].digest);
    }
  }

  // The stored module digest is the digest of the stored tree.
  lemma {:induction false} StoredTreeDigest(env: Env, s: Store, id: CommitId)
    requires StoreOk(env, s) && id in s.commits
    ensures GetCommit(s, id).Ok? && TreeDigest(env.hash, StoredTree(env, s, id)) == GetCommit(s, id).value.moduleDigest
    decreases id
  {
    StoredFacts(env, s, id);
    StoredTreeParts(env, s, id);
    var c, t := GetCommit(s, id).value, StoredTree(env, s, id);
    EntriesOfStored(env, s, c.filesDigest);
    hide StoreOk, StoredTree, TreeDigest, BucketOk, B5From, ManifestKey, FilesDigest, Entries, FilesAt, EntriesAt,
      GetCommit, ModuleDigestOf;
    forall i | 0 <= i < |c.deps|
      ensures TreeDigest(env.hash, StoredTree(env, s, c.deps[i])) == ModuleDigestOf(s, c.deps[i])
    {
      assert c.deps[i] in c.deps;
      StoredTreeDigest(env, s, c.deps[i]);
      DigestOfStored(s, c.deps[i]);
    }
    assert DepDigests(env.hash, t) == DepDigestsOf(s, c.deps);
    DigestOfTree(env.hash, t);
  }

  lemma DigestOfStored(s: Store, id: CommitId)
    requires GetCommit(s, id).Ok?
    ensures ModuleDigestOf(s, id) == GetCommit(s, id).value.moduleDigest
  {
    hide GetCommit;
  }

  lemma DigestOfTree(h: Hash, t: Tree)
    ensures TreeDigest(h, t) == B5From(h, FilesDigest(h, Entries(h, t.files)), DepDigests(h, t))
  {
    hide B5From, FilesDigest, Entries, DepDigests;
  }

  lemma StoredTreeParts(env: Env, s: Store, id: CommitId)
    requires StoreOk(env, s) && id in s.commits
    ensures
      && GetCommit(s, id).Ok? && BucketOk(env.hash, env.pathOk, s.bucket)
      && var c, t := GetCommit(s, id).value, StoredTree(env, s, id);
         && IsShake(c.filesDigest) && ManifestKey(c.filesDigest) in s.bucket
         && t.files == FilesAt(s, EntriesAt(env, s, c.filesDigest)) && |t.deps| == |c.deps|
         && forall i :: 0 <= i < |c.deps| ==> c.deps[i] in s.commits && t.deps[i] == StoredTree(env, s, c.deps[i])
  {
    StoredFacts(env, s, id);
    hide StoreOk, BucketOk, ManifestKey, GetCommit, FilesAt, EntriesAt, B5From;
  }

  // Trees of stored commits with the same files digest have the same files, from the same manifest.
  lemma SameStoredFiles(env: Env, s: Store, a: CommitId, b: CommitId)
    requires StoreOk(env, s) && a in s.commits && b in s.commits
    requires GetCommit(s, a).Ok? && GetCommit(s, b).Ok?
    requires GetCommit(s, a).value.filesDigest == GetCommit(s, b).value.filesDigest
    ensures StoredTree(env, s, a).files == StoredTree(env, s, b).files
  {
    StoredTreeParts(env, s, a);
    StoredTreeParts(env, s, b);
  }

  lemma StoredTreeFilesDigest(env: Env, s: Store, id: CommitId)
    requires StoreOk(env, s) && id in s.commits
    ensures GetCommit(s, id).Ok?
    ensures FilesDigest(env.hash, Entries(env.hash, StoredTree(env, s, id).files)) == GetCommit(s, id).value.filesDigest
  {
    StoredTreeParts(env, s, id);
    EntriesOfStored(env, s, GetCommit(s, id).value.filesDigest);
  }

  // The trees of two matched dependencies of two stored commits.
  lemma DepTree(env: Env, s: Store, id: CommitId, i: nat) returns (d: CommitId)
    requires StoreOk(env, s) && id in s.commits && i < |StoredTree(env, s, id).deps|
    ensures d in s.commits && d < id && StoredTree(env, s, id).deps[i] == StoredTree(env, s, d)
  {
    StoredTreeParts(env, s, id);
    StoredFacts(env, s, id);
    hide StoreOk, StoredTree, B5From;
    d := GetCommit(s, id).value.deps[i];
    assert d in GetCommit(s, id).value.deps;
  }

  lemma {:induction false} StoredSame(env: Env, s: Store, a: CommitId, b: CommitId)
    requires StoreOk(env, s) && a in s.commits && b in s.commits
    requires TreeDigest(env.hash, StoredTree(env, s, a)) == TreeDigest(env.hash, StoredTree(env, s, b))
    ensures
      var t, u := StoredTree(env, s, a), StoredTree(env, s, b);
      SameTree(t, u) || Collision(env.hash, Hashed(env.hash, t), Hashed(env.hash, u))
    decreases a
  {
    hide StoreOk, StoredTree, TreeDigest, B5Input, Serialize, FilesDigest, GetCommit, DepDigests, Entries, Contents;
    var h, t, u := env.hash, StoredTree(env, s, a), StoredTree(env, s, b);
    OwnDigests(h, t, u);
    if Collision(h, OwnHashed(h, t), OwnHashed(h, u)) {
      CollisionGrows(h, OwnHashed(h, t), OwnHashed(h, u), Hashed(h, t), Hashed(h, u));
    } else if !Collision(h, Hashed(h, t), Hashed(h, u)) {
      StoredTreeFilesDigest(env, s, a);
      StoredTreeFilesDigest(env, s, b);
      SameStoredFiles(env, s, a, b);
      hide OwnHashed, Hashed, Collision;
      StringsLength(DepDigests(h, t), DepDigests(h, u));
      var p := Matching(Strings(DepDigests(h, t)), Strings(DepDigests(h, u)));
      forall i | 0 <= i < |t.deps|
        ensures SameTree(t.deps[i], u.deps[p[i]])
      {
        DepDigestsEqual(h, t, i, u, p[i]);
        var c := DepTree(env, s, a, i);
        var d := DepTree(env, s, b, p[i]);
        StoredSame(env, s, c, d);
        DepCollision(h, t, i, u, p[i]);
      }
    }
  }

  /** Two stored commits with the same module digest have the same manifests and the same dependency trees,
      at every level, or two different strings that were hashed for them collide - whatever paths there are. */
  lemma StoredCommitment(env: Env, run: seq<System>, i: nat, a: CommitId, b: CommitId)
    requires IsRun(env, run) && i < |run| && a in run[i].store.commits && b in run[i].store.commits
    requires ModuleDigestOf(run[i].store, a) == ModuleDigestOf(run[i].store, b)
    ensures StoreOk(env, run[i].store)
    ensures
      var t, u := StoredTree(env, run[i].store, a), StoredTree(env, run[i].store, b);
      SameTree(t, u) || Collision(env.hash, Hashed(env.hash, t), Hashed(env.hash, u))
  {
    var s := run[i].store;
    RunKeeps(env, run, i);
    StoredTreeDigest(env, s, a);
    StoredTreeDigest(env, s, b);
    hide SystemOk, StoreOk, StoredTree, TreeDigest, Hashed, SameTree, DocToRecord;
    StoredSame(env, s, a, b);
  }

  /** ... and the files of the stored tree are those that were uploaded, when their paths hold no newline:
      for every upload that ended with this commit, in every later state. */
  lemma UploadedFiles(env: Env, run: seq<System>, i: nat, j: nat, p: nat)
    requires IsRun(env, run) && i <= j < |run| && p in run[i].uploads && run[i].uploads[p].phase.Done?
    requires forall f :: f in run[i].uploads[p].req.files ==> NewlineFree(f.path)
    ensures StoreOk(env, run[j].store) && run[i].uploads[p].phase.id in run[j].store.commits
    ensures
      var files, t := run[i].uploads[p].req.files, StoredTree(env, run[j].store, run[i].uploads[p].phase.id);
      || multiset(files) == multiset(t.files)
      || Collision(env.hash, Uploaded(env.hash, files), run[j].store.bucket.Values)
      || Collision(env.hash, Contents(files), Contents(t.files))
  {
    var u, s, s' := run[i].uploads[p], run[i].store, run[j].store;
    var id, files := u.phase.id, u.req.files;
    RunKeeps(env, run, i);
    RunKeeps(env, run, j);
    RunGrows(env, run, i, j);
    UploadEnded(env, run[i], p);
    LaterReads(s, s', id);
    StillStored(env, s, s', u);
    PathsOk(env, run[i], p);
    BucketOfSystem(env, run[j]);
    hide IsRun, SystemOk, StoreOk, DocToRecord, BucketOk, Serialize, Later, EntriesPut, GetCommit, StoredTree,
      FilesDigest, Contents, Uploaded;
    ManifestReadBack(env.hash, env.pathOk, s'.bucket, files);
    if !Collision(env.hash, Uploaded(env.hash, files), s'.bucket.Values) {
      PlainFiles(env, s', id, files);
    }
  }

  lemma PathsOk(env: Env, sys: System, p: nat)
    requires SystemOk(env, sys) && p in sys.uploads
    ensures forall f :: f in sys.uploads[p].req.files ==> env.pathOk(f.path)
  {
    hide StoreOk, DigestsRead, EntriesPut, MintedApart, IsCommitOfUpload;
    assert UploadOk(env, sys.store, sys.next, sys.uploads[p]);
  }

  lemma PlainFiles(env: Env, s: Store, id: CommitId, files: seq<File>)
    requires StoreOk(env, s) && id in s.commits && GetCommit(s, id).Ok? && BlobsStored(env.hash, s.bucket, files)
    requires forall f :: f in files ==> NewlineFree(f.path) && env.pathOk(f.path)
    requires
      var d := GetCommit(s, id).value.filesDigest;
      d == FilesDigest(env.hash, Entries(env.hash, files)) && ManifestKey(d) in s.bucket
      && s.bucket[ManifestKey(d)] == Serialize(Entries(env.hash, files))
    ensures
      var t := StoredTree(env, s, id);
      multiset(files) == multiset(t.files) || Collision(env.hash, Contents(files), Contents(t.files))
  {
    var d := GetCommit(s, id).value.filesDigest;
    StoredTreeParts(env, s, id);
    PlainEntries(env, s.bucket, files);
    assert IsPlainManifest(s.bucket, env.pathOk, s.bucket[ManifestKey(d)]);
    EntriesOfStored(env, s, d);
    var t := StoredTree(env, s, id);
    var entries := EntriesAt(env, s, d);
    hide StoreOk, BucketOk, GetCommit, StoredTree, Serialize, ManifestKey, BlobKey, FilesDigest, EntriesAt, NewlineFree,
      Contents, IsPlainManifest;
    PlainPaths(env, s, entries, t.files);
    FilesFromText(env.hash, files, t.files);
  }

  lemma PlainEntries(env: Env, bucket: Bucket, files: seq<File>)
    requires BlobsStored(env.hash, bucket, files)
    requires forall f :: f in files ==> NewlineFree(f.path) && env.pathOk(f.path)
    ensures StoredPlain(bucket, env.pathOk, Entries(env.hash, files))
  {
    hide BlobKey, NewlineFree;
    var entries := Entries(env.hash, files);
    forall e | e in entries
      ensures env.pathOk(e.path) && BlobKey(e.digest) in bucket && NewlineFree(e.path)
    {
      var k :| 0 <= k < |entries| && entries[k] == e;
      assert files[k] in files;
    }
  }

  lemma PlainPaths(env: Env, s: Store, entries: seq<Entry>, files: seq<File>)
    requires StoredPlain(s.bucket, env.pathOk, entries) && files == FilesAt(s, entries)
    ensures forall f :: f in files ==> NewlineFree(f.path)
  {
    hide NewlineFree, BlobKey;
    forall f | f in files
      ensures NewlineFree(f.path)
    {
      var k :| 0 <= k < |files| && files[k] == f;
      assert entries[k] in entries;
    }
  }
}
