/** What the stores keep: the operations that change them, one at a time, and the promises that survive
    each of them (internal/storage, internal/registry). */
module StoreInvariant {
  import opened Wrappers
  import opened Digests
  import opened Manifests
  import opened Buckets
  import opened Docstore

  // What the registry is given from outside: the hash, the id functions, and which paths clients use
  // (`_ => true` for any).
  datatype Env = Env(hash: Hash, ids: Ids, pathOk: string -> bool)

  // ----- The operations that change the stores -----

  function AddModule(env: Env, s: Store, owner: string, name: string): Store {
    var id := ModuleIdFor(env.ids, owner, name);
    s.(modules := s.modules[id := ModuleRecord(id, env.ids.ownerId(owner), owner, name, "main")])
  }

  // GetOrCreateModule: the stores with the module, unless its id is taken.
  function WithModule(env: Env, s: Store, owner: string, name: string): Store {
    if ModuleIdFor(env.ids, owner, name) in s.modules then s else AddModule(env, s, owner, name)
  }

  function PutBlob(env: Env, s: Store, content: string): Store {
    s.(bucket := s.bucket[BlobKey(SumOf(env.hash, content)) := content])
  }

  function PutManifest(env: Env, s: Store, entries: seq<Entry>): Store {
    s.(bucket := s.bucket[ManifestKey(FilesDigest(env.hash, entries)) := Serialize(entries)])
  }

  function AddCommit(s: Store, c: CommitRecord): Store {
    s.(commits := s.commits[c.id := RecordToDoc(c)])
  }

  function MoveLabel(s: Store, moduleId: Id32, name: string, id: CommitId): Store {
    s.(labels := s.labels[LabelKey(moduleId, name) := LabelDoc(moduleId, name, id)])
  }

  // ----- The commit that a push ends with -----

  // A stored commit with these files.
  predicate HasFiles(s: Store, d: Digest, id: CommitId) {
    id in s.commits && s.commits[id].filesDigest == d.String()
  }

  // The answer of the query by files digest: any one of the commits that have it, if there is one.
  ghost predicate Finds(s: Store, d: Digest, hit: Option<CommitId>) {
    match hit
    case Some(id) => HasFiles(s, d, id)
    case None => forall id :: id in s.commits ==> !HasFiles(s, d, id)
  }

  // A commit found is reused only when it belongs to the pushing module.
  predicate Reusable(s: Store, moduleId: Id32, hit: Option<CommitId>) {
    hit.Some? && GetCommit(s, hit.value).Ok? && GetCommit(s, hit.value).value.moduleId == moduleId
  }

  // The record of a commit that nothing was found for.
  function Record(env: Env, id: CommitId, moduleId: Id32, ownerId: Id32, d: Digest, digests: seq<ModuleDigest>,
                  deps: seq<CommitId>): CommitRecord {
    CommitRecord(id, moduleId, ownerId, d, B5From(env.hash, d, digests), deps)
  }

  // ----- What they keep -----

  function ModuleDigestOf(s: Store, id: CommitId): ModuleDigest {
    match GetCommit(s, id)
    case Ok(c) => c.moduleDigest
    case Err(_) => ModuleDigest(Unset, [])
  }

  function DepDigestsOf(s: Store, deps: seq<CommitId>): (r: seq<ModuleDigest>)
    ensures |r| == |deps| && forall i :: 0 <= i < |r| ==> r[i] == ModuleDigestOf(s, deps[i])
  {
    seq(|deps|, i requires 0 <= i < |deps| => ModuleDigestOf(s, deps[i]))
  }

  // A stored commit belongs to a stored module, its manifest is in the bucket, its dependencies are
  // stored and older, and its module digest is the B5 digest of its files and their digests.
  ghost predicate CommitOk(env: Env, s: Store, id: CommitId)
    requires id in s.commits
  {
    && s.commits[id].id == id && GetCommit(s, id).Ok?
    && var c := GetCommit(s, id).value;
       && c.moduleId in s.modules && c.ownerId == s.modules[c.moduleId].ownerId
       && IsShake(c.filesDigest) && ManifestKey(c.filesDigest) in s.bucket
       && (forall d: CommitId :: d in c.deps ==> d in s.commits && d < id)
       && c.moduleDigest == B5From(env.hash, c.filesDigest, DepDigestsOf(s, c.deps))
  }

  // A label lies under its own key and names a stored commit of its own module.
  ghost predicate LabelOk(s: Store, key: string)
    requires key in s.labels
  {
    var l := s.labels[key];
    && key == LabelKey(l.moduleId, l.name) && l.moduleId in s.modules
    && l.commitId in s.commits && s.commits[l.commitId].moduleId == l.moduleId
  }

  ghost predicate StoreOk(env: Env, s: Store) {
    && ModuleTable(env.ids, s) && BucketOk(env.hash, env.pathOk, s.bucket)
    && (forall id :: id in s.commits ==> CommitOk(env, s, id))
    && (forall key :: key in s.labels ==> LabelOk(s, key))
  }

  // ----- Stores only grow -----

  // Modules and commits are never changed or removed, objects never removed; labels may move.
  ghost predicate Later(s: Store, s': Store) {
    && (forall id :: id in s.modules ==> id in s'.modules && s'.modules[id] == s.modules[id])
    && (forall id :: id in s.commits ==> id in s'.commits && s'.commits[id] == s.commits[id])
    && s.bucket.Keys <= s'.bucket.Keys
  }

  lemma LaterReflexive(s: Store)
    ensures Later(s, s)
  {
  }

  lemma LaterTransitive(a: Store, b: Store, c: Store)
    requires Later(a, b) && Later(b, c)
    ensures Later(a, c)
  {
  }

  lemma LaterDigests(s: Store, s': Store, deps: seq<CommitId>)
    requires Later(s, s') && forall d :: d in deps ==> d in s.commits
    ensures DepDigestsOf(s', deps) == DepDigestsOf(s, deps)
  {
    hide DocToRecord;
  }

  lemma LaterCommit(env: Env, s: Store, s': Store, id: CommitId)
    requires Later(s, s') && id in s.commits && CommitOk(env, s, id)
    ensures id in s'.commits && CommitOk(env, s', id)
  {
    hide DocToRecord, B5From;
    LaterDigests(s, s', GetCommit(s, id).value.deps);
  }

  lemma SameCommits(env: Env, s: Store, s': Store)
    requires Later(s, s') && s'.commits == s.commits && forall id :: id in s.commits ==> CommitOk(env, s, id)
    ensures forall id :: id in s'.commits ==> CommitOk(env, s', id)
  {
    hide CommitOk;
    forall id | id in s'.commits
      ensures CommitOk(env, s', id)
    {
      LaterCommit(env, s, s', id);
    }
  }

  lemma AddModuleKeeps(env: Env, s: Store, owner: string, name: string)
    requires StoreOk(env, s) && ModuleIdFor(env.ids, owner, name) !in s.modules
    ensures Later(s, AddModule(env, s, owner, name)) && StoreOk(env, AddModule(env, s, owner, name))
  {
    hide CommitOk, BucketOk;
    SameCommits(env, s, AddModule(env, s, owner, name));
  }

  lemma PutBlobKeeps(env: Env, s: Store, content: string)
    requires StoreOk(env, s)
    ensures Later(s, PutBlob(env, s, content)) && StoreOk(env, PutBlob(env, s, content))
  {
    hide CommitOk, BucketOk, BlobKey;
    WriteBlob(env.hash, env.pathOk, s.bucket, content);
    SameCommits(env, s, PutBlob(env, s, content));
  }

  lemma PutManifestKeeps(env: Env, s: Store, entries: seq<Entry>)
    requires StoreOk(env, s) && Stored(s.bucket, env.pathOk, entries)
    ensures Later(s, PutManifest(env, s, entries)) && StoreOk(env, PutManifest(env, s, entries))
  {
    hide CommitOk, BucketOk, ManifestKey, Stored, Serialize;
    WriteManifest(env.hash, env.pathOk, s.bucket, entries);
    SameCommits(env, s, PutManifest(env, s, entries));
  }

  // A record that may be added: module, manifest and dependencies are there, the digest is right.
  ghost predicate Addable(env: Env, s: Store, c: CommitRecord) {
    && c.id !in s.commits && c.moduleId in s.modules && c.ownerId == s.modules[c.moduleId].ownerId
    && IsShake(c.filesDigest) && ManifestKey(c.filesDigest) in s.bucket
    && (forall d: CommitId :: d in c.deps ==> d in s.commits && d < c.id)
    && c.moduleDigest == B5From(env.hash, c.filesDigest, DepDigestsOf(s, c.deps))
  }

  lemma AddedReadsBack(s: Store, c: CommitRecord)
    requires Storable(c)
    ensures GetCommit(AddCommit(s, c), c.id) == Ok(c) && AddCommit(s, c).commits[c.id].id == c.id
  {
    RecordRoundTrip(c);
  }

  lemma AddableStorable(env: Env, s: Store, c: CommitRecord)
    requires Addable(env, s, c)
    ensures Storable(c)
  {
  }

  lemma AddLater(s: Store, c: CommitRecord)
    requires c.id !in s.commits
    ensures Later(s, AddCommit(s, c)) && AddCommit(s, c).commits.Keys == s.commits.Keys + {c.id}
    ensures AddCommit(s, c).bucket == s.bucket && AddCommit(s, c).modules == s.modules
  {
  }

  lemma AddedCommit(env: Env, s: Store, c: CommitRecord)
    requires Addable(env, s, c)
    ensures GetCommit(AddCommit(s, c), c.id) == Ok(c) && Later(s, AddCommit(s, c))
    ensures CommitOk(env, AddCommit(s, c), c.id)
  {
    AddableStorable(env, s, c);
    AddedReadsBack(s, c);
    AddLater(s, c);
    hide AddCommit, DocToRecord, B5From, ManifestKey, DepDigestsOf, Later, GetCommit, Storable;
    LaterDigests(s, AddCommit(s, c), c.deps);
  }

  lemma AddCommitKeeps(env: Env, s: Store, c: CommitRecord)
    requires StoreOk(env, s) && Addable(env, s, c)
    ensures Later(s, AddCommit(s, c)) && StoreOk(env, AddCommit(s, c))
  {
    hide CommitOk, BucketOk, AddCommit, Addable, LabelOk, Later, ModuleTable;
    AddedCommit(env, s, c);
    AddableNew(env, s, c);
    AddLater(s, c);
    AddedLabels(s, c);
    OldCommits(env, s, AddCommit(s, c), c.id);
    SameModules(env, s, AddCommit(s, c));
  }

  lemma AddableNew(env: Env, s: Store, c: CommitRecord)
    requires Addable(env, s, c)
    ensures c.id !in s.commits
  {
  }

  lemma OldCommits(env: Env, s: Store, s': Store, added: CommitId)
    requires Later(s, s') && s'.commits.Keys == s.commits.Keys + {added} && CommitOk(env, s', added)
    requires forall id :: id in s.commits ==> CommitOk(env, s, id)
    ensures forall id :: id in s'.commits ==> CommitOk(env, s', id)
  {
    hide CommitOk, Later;
    forall id | id in s'.commits
      ensures CommitOk(env, s', id)
    {
      if id in s.commits {
        LaterCommit(env, s, s', id);
      }
    }
  }

  lemma AddedLabels(s: Store, c: CommitRecord)
    requires c.id !in s.commits && forall key :: key in s.labels ==> LabelOk(s, key)
    ensures forall key :: key in AddCommit(s, c).labels ==> LabelOk(AddCommit(s, c), key)
  {
    hide RecordToDoc, LabelKey;
  }

  lemma SameModules(env: Env, s: Store, s': Store)
    requires s'.modules == s.modules && s'.bucket == s.bucket
    ensures ModuleTable(env.ids, s) ==> ModuleTable(env.ids, s')
    ensures BucketOk(env.hash, env.pathOk, s.bucket) ==> BucketOk(env.hash, env.pathOk, s'.bucket)
  {
    hide BucketOk;
  }

  lemma MoveLabelKeeps(env: Env, s: Store, moduleId: Id32, name: string, id: CommitId)
    requires StoreOk(env, s) && moduleId in s.modules && id in s.commits && s.commits[id].moduleId == moduleId
    ensures Later(s, MoveLabel(s, moduleId, name, id)) && StoreOk(env, MoveLabel(s, moduleId, name, id))
  {
    hide CommitOk, BucketOk, LabelKey;
    SameCommits(env, s, MoveLabel(s, moduleId, name, id));
  }
}
