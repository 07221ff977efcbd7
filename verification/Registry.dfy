/** The registry object: stores that its methods update in place (internal/registry/registry.go,
    internal/registry/module.go, internal/service/upload.go, internal/storage/blob.go). */
module RegistryObject {
  import opened Wrappers
  import opened Ordering
  import opened Digests
  import opened Manifests
  import opened Merkle
  import opened Buckets
  import opened Retrieval
  import opened Docstore
  import opened StoreInvariant
  import opened Commits
  import opened SoloStarts
  import Uploads

  class Registry {
    const env: Env
    var bucket: Bucket
    var modules: map<Id32, ModuleRecord>
    var commits: map<CommitId, CommitDoc>
    var labels: map<string, LabelDoc>
    var next: CommitId  // the next id the UUID generator gives

    constructor (env: Env)
      ensures this.env == env && View() == Store(map[], map[], map[], map[]) && next == 0 && Valid()
    {
      this.env := env;
      bucket, modules, commits, labels, next := map[], map[], map[], map[], 0;
    }

    function View(): Store
      reads this
    {
      Store(bucket, modules, commits, labels)
    }

    ghost predicate Valid()
      reads this
    {
      StoreOk(env, View()) && forall id: CommitId :: id in commits ==> id < next
    }

    // ----- Blobs and manifests -----

    /** Write once: no object changes and at most the blob's is added; and then the digest reads back as
        the content, unless an object that was there before collides with it. */
    method PutBlob(content: string) returns (d: Digest)
      modifies this`bucket
      ensures d == SumOf(env.hash, content) && View() == EnsureBlob(env, old(View()), content)
      ensures
        var hex := EncodeHex(env.hash(content));
        bucket.Keys == old(bucket).Keys + {"shake256/" + hex[..2] + "/" + hex}
      ensures forall k :: k in old(bucket) ==> bucket[k] == old(bucket)[k]
      ensures old(BucketOk(env.hash, env.pathOk, bucket)) ==>
        && BucketOk(env.hash, env.pathOk, bucket)
        && (GetBlob(bucket, d) == Ok(content) || Collision(env.hash, {content}, old(bucket).Values))
    {
      hide BlobKey, BucketOk;
      BlobKeyText(env.hash, content);
      BlobPut(env, bucket, content);
      d := SumOf(env.hash, content);
      var key := BlobKey(d);
      if key !in bucket {
        bucket := bucket[key := content];
      }
    }

    /** The same for manifests. When the blobs are there and the paths are legal, the digest reads back as
        the entries, sorted by path, unless an object that was there before collides with their text. */
    method PutManifest(entries: seq<Entry>) returns (d: Digest)
      modifies this`bucket
      ensures d == FilesDigest(env.hash, entries) && View() == EnsureManifest(env, old(View()), entries)
      ensures exists text ::
        && IsManifestText(text, entries) && d.value == env.hash(text)
        && bucket.Keys == old(bucket).Keys + {"manifests/shake256/" + EncodeHex(env.hash(text))}
      ensures forall k :: k in old(bucket) ==> bucket[k] == old(bucket)[k]
      ensures old(BucketOk(env.hash, env.pathOk, bucket)) && Stored(old(bucket), env.pathOk, entries) ==>
        && BucketOk(env.hash, env.pathOk, bucket)
        && ((forall e :: e in entries ==> LegalPath(e.path)) ==>
              || GetManifest(bucket, d) == Ok(Sort(entries, PathOf))
              || Collision(env.hash, {Serialize(entries)}, old(bucket).Values))
    {
      hide ManifestKey, BucketOk, Stored, LegalPath, Serialize, GetManifest, IsManifestText;
      ManifestPut(env, bucket, entries);
      var text := SerializeManifest(entries);
      ManifestKeyText(env.hash, text);
      d := SumOf(env.hash, text);
      var key := ManifestKey(d);
      if key !in bucket {
        bucket := bucket[key := text];
      }
    }

    method FilesForCommit(c: CommitRecord) returns (r: Result<seq<ReadFile>>)
      ensures r == FilesOf(bucket, c.filesDigest)
    {
      var key := ManifestKey(c.filesDigest);
      if key !in bucket {
        return Err(NotFound);
      }
      var manifest := ParseManifest(bucket[key]);
      if manifest.Err? {
        return Err(manifest.error);
      }
      var entries := manifest.value;
      var files: seq<ReadFile> := [];
      ReadStart(bucket, entries);
      for i := 0 to |entries|
        invariant ReadBlobs(bucket, entries) == Reading(files, ReadBlobs(bucket, entries[i..]))
      {
        var content := GetBlob(bucket, entries[i].digest);
        ReadStep(bucket, entries, i, files);
        if content.Err? {
          return Err(content.error);
        }
        files := files + [ReadFile(entries[i].path, content.value, entries[i].digest)];
      }
      assert files + [] == files;
      return Ok(files);
    }

    // ----- Modules -----

    method GetOrCreateModule(owner: string, name: string) returns (r: Result<ModuleRecord>)
      requires Valid()
      modifies this`modules
      ensures Valid() && Later(old(View()), View()) && View() == WithModule(env, old(View()), owner, name)
      ensures r == ModuleByName(env.ids, View(), owner, name)
      ensures r.Err? ==> modules == old(modules) && ModuleIdFor(env.ids, owner, name) in modules
    {
      hide BucketOk, CommitOk, LabelOk;
      LaterReflexive(View());
      r := FindModule(env.ids, View(), owner, name);
      if r.Err? {
        r := CreateModule(owner, name);
      }
    }

    // The create is refused when the id is taken; then the module is looked up by name again.
    method CreateModule(owner: string, name: string) returns (r: Result<ModuleRecord>)
      requires Valid()
      modifies this`modules
      ensures Valid() && Later(old(View()), View()) && View() == WithModule(env, old(View()), owner, name)
      ensures r == ModuleByName(env.ids, View(), owner, name)
      ensures r.Err? ==> modules == old(modules) && ModuleIdFor(env.ids, owner, name) in modules
    {
      var id := ModuleIdFor(env.ids, owner, name);
      hide BucketOk, CommitOk, LabelOk;
      if id in modules {
        LaterReflexive(View());
        r := FindModule(env.ids, View(), owner, name);
      } else {
        AddModuleKeeps(env, View(), owner, name);
        r := Ok(ModuleRecord(id, env.ids.ownerId(owner), owner, name, "main"));
        modules := modules[id := r.value];
        assert View() == AddModule(env, old(View()), owner, name);
      }
    }

    // ----- Commits -----

    // The query by files digest yields any one of the matching commits.
    method FindByFilesDigest(p: Push, d: Digest) returns (hit: Option<CommitId>)
      requires d == PushDigest(env, p)
      ensures Answers(env, View(), p, hit)
    {
      var text := d.String();
      if id :| id in commits && commits[id].filesDigest == text {
        return Some(id);
      }
      return None;
    }

    // The label leads to the commit; every other pair of module and label name leads where it did.
    method UpdateLabel(moduleId: Id32, name: string, id: CommitId)
      modifies this`labels
      ensures View() == MoveLabel(old(View()), moduleId, name, id)
      ensures forall m, n ::
        GetLabel(View(), m, n) ==
          if m == moduleId && n == name then Ok(LabelDoc(m, n, id)) else GetLabel(old(View()), m, n)
    {
      LabelMoved(View(), moduleId, name, id);
      labels := labels[LabelKey(moduleId, name) := LabelDoc(moduleId, name, id)];
    }

    method UpdateLabels(moduleId: Id32, names: seq<string>, id: CommitId)
      modifies this`labels
      ensures View() == SetLabels(old(View()), moduleId, names, id)
    {
      for i := 0 to |names|
        invariant View() == SetLabels(old(View()), moduleId, names[..i], id)
      {
        UpdateLabel(moduleId, names[i], id);
        assert names[..i + 1][..i] == names[..i];
      }
      assert names[..|names|] == names;
    }

    // Stores the blobs one by one and gathers the manifest.
    method PutFiles(files: seq<File>) returns (entries: seq<Entry>)
      modifies this`bucket
      ensures entries == Entries(env.hash, files) && View() == EnsureBlobs(env, old(View()), files)
    {
      hide EnsureBlob, BlobKey, BucketOk, Entries;
      entries := [];
      NoEntries(env);
      for i := 0 to |files|
        invariant entries == Entries(env.hash, files[..i]) && View() == EnsureBlobs(env, old(View()), files[..i])
      {
        var d := PutBlob(files[i].content);
        NextEntry(env, files, i);
        entries := entries + [Entry(d, files[i].path)];
        assert files[..i + 1][..i] == files[..i];
      }
      assert files[..|files|] == files;
    }

    method CreateCommit(p: Push) returns (r: Result<CommitRecord>)
      modifies this
      ensures r.Ok? <==> AllB5(p.digests)
      ensures r.Err? ==> View() == StoreFiles(env, old(View()), p.files) && next == old(next)
      ensures r.Ok? ==> exists hit :: Pushed(env, old(View()), old(next), p, hit, View(), next, r.value)
    {
      hide EnsureBlobs, EnsureManifest, SetLabels, RecordToDoc, DocToRecord, Serialize, Entries, B5Input, Pushed,
        IsB5Of, IsManifestText, StoreFiles, AllB5, B5From, HasFiles, BucketOk, Stored, LegalPath, GetManifest,
        Collision, ManifestKey;
      var entries := PutFiles(p.files);
      var filesDigest := PutManifest(entries);
      ghost var stored := View();
      FilesThenManifest(env, old(View()), p.files);
      assert stored == StoreFiles(env, old(View()), p.files);
      var moduleDigest := ComputeB5Digest(env.hash, entries, p.digests);
      if moduleDigest.Err? {
        return Err(moduleDigest.error);
      }
      var hit := FindByFilesDigest(p, filesDigest);
      if hit.Some? {
        var existing := GetCommit(View(), hit.value);
        if existing.Ok? && existing.value.moduleId == p.mod.id {
          UpdateLabels(p.mod.id, p.labels, hit.value);
          PushedReused(env, old(View()), next, p, hit, View(), existing.value);
          assert Pushed(env, old(View()), old(next), p, hit, View(), next, existing.value);
          return Ok(existing.value);
        }
      }
      var id := next;
      next := next + 1;
      var c := CommitRecord(id, p.mod.id, p.mod.ownerId, filesDigest, moduleDigest.value, p.deps);
      if id !in commits {
        commits := commits[id := RecordToDoc(c)];
      }
      UpdateLabels(p.mod.id, p.labels, id);
      PushedNew(env, old(View()), id, p, hit, View(), c);
      assert Pushed(env, old(View()), old(next), p, hit, View(), next, c);
      return Ok(c);
    }

    // GetDepModuleDigests: fails on the first dependency that is not stored.
    method GetDepModuleDigests(deps: seq<CommitId>) returns (r: Result<seq<ModuleDigest>>)
      requires Valid()
      ensures r.Ok? <==> forall d :: d in deps ==> d in commits
      ensures r.Ok? ==> r.value == DepDigestsOf(View(), deps) && AllB5(r.value)
    {
      hide DepDigestsOf, GetCommit, StoreOk;
      var digests: seq<ModuleDigest> := [];
      NoDeps(View());
      for i := 0 to |deps|
        invariant forall d :: d in deps[..i] ==> d in commits
        invariant digests == DepDigestsOf(View(), deps[..i]) && AllB5(digests)
      {
        StoredCommit(env, View(), deps[i]);
        var c := GetCommit(View(), deps[i]);
        if c.Err? {
          return Err(c.error);
        }
        digests := digests + [c.value.moduleDigest];
        assert deps[..i + 1] == deps[..i] + [deps[i]];
        OneMoreDep(View(), deps[..i], deps[i]);
      }
      assert deps[..|deps|] == deps;
      return Ok(digests);
    }

    /** uploadContent: labels default to "main"; without given dependencies the detected ones are used.
        It succeeds unless the module's id is taken by another name or a dependency is not stored. Then
        the commit it answers with holds the files, all its labels lead to it, all others lead where they
        did, and at most that commit was added. Acceptance, effects and answer are those of an undisturbed
        upload of the step machine (module SoloStarts). */
    method UploadContent(owner: string, name: string, files: seq<File>, given: seq<string>, depIds: seq<CommitId>,
                         detected: seq<CommitId>)
      returns (r: Result<CommitRecord>)
      requires Valid() && forall f :: f in files ==> env.pathOk(f.path)
      modifies this
      ensures Valid() && Later(old(View()), View())
      ensures r.Ok? <==>
        && (forall d :: d in (if depIds != [] then depIds else detected) ==> d in old(commits))
        && var id := ModuleIdFor(env.ids, owner, name);
           id in old(modules) ==> old(modules)[id].owner == owner && old(modules)[id].name == name
      ensures r.Ok? ==> forall m, n ::
        GetLabel(View(), m, n) ==
          if m == ModuleIdFor(env.ids, owner, name) && (if given == [] then n == "main" else n in given)
          then Ok(LabelDoc(m, n, r.value.id)) else GetLabel(old(View()), m, n)
      ensures r.Ok? && r.value.id !in old(commits) ==>
        && r.value.id == old(next) && commits.Keys == old(commits).Keys + {r.value.id}
        && GetCommit(View(), r.value.id) == Ok(r.value) && r.value.moduleId == ModuleIdFor(env.ids, owner, name)
        && r.value.deps == if depIds != [] then depIds else detected
      ensures r.Ok? && r.value.id in old(commits) ==>
        commits == old(commits) && GetCommit(old(View()), r.value.id) == Ok(r.value)
      ensures
        var req := Uploads.Request(owner, name, files, EffectiveLabels(given), EffectiveDeps(depIds, detected));
        var base := Opened(env, old(View()), req);
        && (r.Ok? <==> Accepts(env, old(View()), req))
        && (r.Err? ==> View() == base && next == old(next))
        && (r.Ok? ==>
              var p := PushFor(env, old(View()), req);
              && Outcome(env, base, old(next), p, View(), next, r.value)
              && exists hit :: Pushed(env, base, old(next), p, hit, View(), next, r.value))
    {
      hide GetLabel, GetCommit, Outcome, Pushed, WithModule, DepDigestsOf, StoreOk, Later, Accepts;
      ghost var req := Uploads.Request(owner, name, files, EffectiveLabels(given), EffectiveDeps(depIds, detected));
      AcceptsMeans(env, View(), req);
      var m := GetOrCreateModule(owner, name);
      if m.Err? {
        return Err(m.error);
      }
      var digests := GetDepModuleDigests(EffectiveDeps(depIds, detected));
      if digests.Err? {
        return Err(digests.error);
      }
      FoundModule(env, View(), owner, name);
      SameDepDigests(old(View()), View(), EffectiveDeps(depIds, detected));
      ghost var mid := View();
      r := Commit(Push(m.value, files, EffectiveLabels(given), EffectiveDeps(depIds, detected), digests.value));
      assert mid == old(View()).(modules := modules);
      LaterTransitive(old(View()), mid, View());
      UploadMeans(env, old(View()), old(next), req, View(), next, r.value);
    }

    method Commit(p: Push) returns (r: Result<CommitRecord>)
      requires Valid() && Prepared(env, View(), p) && AllB5(p.digests)
      modifies this
      ensures Valid() && Later(old(View()), View()) && modules == old(modules) && r.Ok?
      ensures Outcome(env, old(View()), old(next), p, View(), next, r.value)
      ensures exists hit :: Pushed(env, old(View()), old(next), p, hit, View(), next, r.value)
    {
      r := CreateCommit(p);
      ghost var hit :| Pushed(env, old(View()), old(next), p, hit, View(), next, r.value);
      StoredTables(env, old(View()));
      hide StoreOk, Pushed, Later, Outcome, Prepared, CommitTable;
      PushedKeeps(env, old(View()), old(next), p, hit, View(), next, r.value);
      PushedOutcome(env, old(View()), old(next), p, hit, View(), next, r.value);
      OutcomeModules(env, old(View()), old(next), p, View(), next, r.value);
    }
  }

  // When an upload is accepted: its dependencies are stored, and its module's id is free or its own.
  lemma AcceptsMeans(env: Env, s: Store, req: Uploads.Request)
    ensures Accepts(env, s, req) <==>
      && (forall d :: d in req.deps ==> d in s.commits)
      && var id := ModuleIdFor(env.ids, req.owner, req.name);
         id in s.modules ==> s.modules[id].owner == req.owner && s.modules[id].name == req.name
  {
  }

  // What an accepted upload comes to, in terms of what was uploaded.
  lemma UploadMeans(env: Env, s: Store, next: CommitId, req: Uploads.Request, s': Store, next': CommitId,
                    c: CommitRecord)
    requires StoreOk(env, s) && (forall id: CommitId :: id in s.commits ==> id < next) && Accepts(env, s, req)
    requires Outcome(env, Opened(env, s, req), next, PushFor(env, s, req), s', next', c)
    ensures forall m, n ::
      GetLabel(s', m, n) ==
        if m == ModuleIdFor(env.ids, req.owner, req.name) && n in req.labels then Ok(LabelDoc(m, n, c.id))
        else GetLabel(s, m, n)
    ensures GetCommit(s', c.id) == Ok(c) && c.moduleId == ModuleIdFor(env.ids, req.owner, req.name)
    ensures
      if c.id in s.commits then s'.commits == s.commits && GetCommit(s, c.id) == Ok(c)
      else c.id == next && s'.commits.Keys == s.commits.Keys + {c.id} && c.deps == req.deps
  {
    hide StoreOk, Opened, Accepts, GetLabel, GetCommit, Outcome, PushFor;
    OpenedModule(env, s, req);
    var base, p := Opened(env, s, req), PushFor(env, s, req);
    OutcomeParts(env, base, next, p, s', next', c);
    forall m, n
      ensures GetLabel(base, m, n) == GetLabel(s, m, n)
    {
      SameLabels(s, base, m, n);
    }
    SameCommit(s, s', c.id);
  }

  lemma SameCommit(s: Store, s': Store, id: CommitId)
    ensures s'.commits == s.commits ==> GetCommit(s', id) == GetCommit(s, id)
  {
  }

  lemma OutcomeParts(env: Env, s: Store, next: CommitId, p: Push, s': Store, next': CommitId, c: CommitRecord)
    requires Outcome(env, s, next, p, s', next', c)
    ensures GetCommit(s', c.id) == Ok(c) && c.moduleId == p.mod.id
    ensures s'.commits == s.commits
      || (c.id == next && c.deps == p.deps && s'.commits == s.commits[next := RecordToDoc(c)])
    ensures c.id in s'.commits
    ensures forall m, n ::
      GetLabel(s', m, n) ==
        if m == p.mod.id && n in p.labels then Ok(LabelDoc(m, n, c.id)) else GetLabel(s, m, n)
  {
    hide GetLabel, RecordToDoc, DocToRecord, BlobsStored, ManifestKey, PushDigest, HasFiles, B5From;
  }

  lemma OpenedModule(env: Env, s: Store, req: Uploads.Request)
    requires StoreOk(env, s) && Accepts(env, s, req)
    ensures Opened(env, s, req).commits == s.commits && Opened(env, s, req).labels == s.labels
    ensures
      var p := PushFor(env, s, req);
      p.mod.id == ModuleIdFor(env.ids, req.owner, req.name) && p.labels == req.labels && p.deps == req.deps
  {
    hide BucketOk, CommitOk, LabelOk;
  }

  lemma FilesThenManifest(env: Env, s: Store, files: seq<File>)
    ensures StoreFiles(env, s, files) == EnsureManifest(env, EnsureBlobs(env, s, files), Entries(env.hash, files))
  {
  }

  lemma PushedReused(env: Env, s: Store, next: CommitId, p: Push, hit: Option<CommitId>, s': Store, c: CommitRecord)
    requires AllB5(p.digests) && Answers(env, StoreFiles(env, s, p.files), p, hit)
    requires IsReused(StoreFiles(env, s, p.files), p, hit) && GetCommit(StoreFiles(env, s, p.files), hit.value) == Ok(c)
    requires s' == SetLabels(StoreFiles(env, s, p.files), p.mod.id, p.labels, hit.value)
    ensures Pushed(env, s, next, p, hit, s', next, c)
  {
    hide StoreFiles, SetLabels, Answers, IsReused, GetCommit, AllB5;
  }

  lemma PushedNew(env: Env, s: Store, next: CommitId, p: Push, hit: Option<CommitId>, s': Store, c: CommitRecord)
    requires AllB5(p.digests) && Answers(env, StoreFiles(env, s, p.files), p, hit)
    requires !IsReused(StoreFiles(env, s, p.files), p, hit) && c == NewCommit(env, p, next)
    requires
      var stored := StoreFiles(env, s, p.files);
      s' == SetLabels(if next in stored.commits then stored else AddCommit(stored, c), p.mod.id, p.labels, next)
    ensures Pushed(env, s, next, p, hit, s', next + 1, c)
  {
    hide StoreFiles, SetLabels, Answers, IsReused, AddCommit, NewCommit, AllB5;
  }

  lemma NoEntries(env: Env)
    ensures Entries(env.hash, []) == []
  {
  }

  lemma NextEntry(env: Env, files: seq<File>, i: nat)
    requires i < |files|
    ensures Entries(env.hash, files[..i + 1]) ==
      Entries(env.hash, files[..i]) + [Entry(SumOf(env.hash, files[i].content), files[i].path)]
  {
  }

  lemma LabelMoved(s: Store, moduleId: Id32, name: string, id: CommitId)
    ensures forall m, n ::
      GetLabel(MoveLabel(s, moduleId, name, id), m, n) ==
        if m == moduleId && n == name then Ok(LabelDoc(m, n, id)) else GetLabel(s, m, n)
  {
    forall m, n
      ensures GetLabel(MoveLabel(s, moduleId, name, id), m, n) ==
        if m == moduleId && n == name then Ok(LabelDoc(m, n, id)) else GetLabel(s, m, n)
    {
      LabelKeyInjective(m, n, moduleId, name);
      hide LabelKey;
    }
  }

  function BucketWith(bucket: Bucket, key: string, content: string): Bucket {
    if key in bucket then bucket else bucket[key := content]
  }

  lemma BlobPut(env: Env, bucket: Bucket, content: string)
    ensures
      var d := SumOf(env.hash, content);
      var bucket' := BucketWith(bucket, BlobKey(d), content);
      BucketOk(env.hash, env.pathOk, bucket) ==>
        && BucketOk(env.hash, env.pathOk, bucket')
        && (GetBlob(bucket', d) == Ok(content) || Collision(env.hash, {content}, bucket.Values))
  {
    hide BlobKey, BucketOk;
    var d := SumOf(env.hash, content);
    if BucketOk(env.hash, env.pathOk, bucket) {
      WriteBlob(env.hash, env.pathOk, bucket, content);
      if BlobKey(d) in bucket {
        BlobIntegrity(env.hash, env.pathOk, bucket, d);
        HashesApart(env.hash, content, bucket[BlobKey(d)], {content}, bucket.Values);
      }
    }
  }

  lemma ManifestPut(env: Env, bucket: Bucket, entries: seq<Entry>)
    ensures
      var d := FilesDigest(env.hash, entries);
      var bucket' := BucketWith(bucket, ManifestKey(d), Serialize(entries));
      BucketOk(env.hash, env.pathOk, bucket) && Stored(bucket, env.pathOk, entries) ==>
        && BucketOk(env.hash, env.pathOk, bucket')
        && ((forall e :: e in entries ==> LegalPath(e.path)) ==>
              || GetManifest(bucket', d) == Ok(Sort(entries, PathOf))
              || Collision(env.hash, {Serialize(entries)}, bucket.Values))
  {
    hide ManifestKey, BucketOk, Stored, LegalPath, Serialize, Parse, Sort;
    var d := FilesDigest(env.hash, entries);
    if BucketOk(env.hash, env.pathOk, bucket) && Stored(bucket, env.pathOk, entries) {
      StoredShake(bucket, env.pathOk, entries);
      WriteManifest(env.hash, env.pathOk, bucket, entries);
      ManifestRoundTrip(entries);
      if ManifestKey(d) in bucket {
        ManifestIntegrity(env.hash, env.pathOk, bucket, d);
        HashesApart(env.hash, Serialize(entries), bucket[ManifestKey(d)], {Serialize(entries)}, bucket.Values);
      }
    }
  }

  lemma StoredShake(bucket: Bucket, pathOk: string -> bool, entries: seq<Entry>)
    requires Stored(bucket, pathOk, entries)
    ensures AllShake(entries)
  {
  }

  lemma OutcomeModules(env: Env, s: Store, next: CommitId, p: Push, s': Store, next': CommitId, c: CommitRecord)
    requires Outcome(env, s, next, p, s', next', c)
    ensures s'.modules == s.modules
  {
  }

  lemma FoundModule(env: Env, s: Store, owner: string, name: string)
    requires StoreOk(env, s) && ModuleByName(env.ids, s, owner, name).Ok?
    ensures var m := ModuleByName(env.ids, s, owner, name).value; m.id in s.modules && s.modules[m.id] == m
  {
    hide BucketOk, CommitOk, LabelOk;
  }

  lemma NoDeps(s: Store)
    ensures DepDigestsOf(s, []) == []
  {
  }

  lemma OneMoreDep(s: Store, deps: seq<CommitId>, d: CommitId)
    ensures DepDigestsOf(s, deps + [d]) == DepDigestsOf(s, deps) + [ModuleDigestOf(s, d)]
  {
    hide ModuleDigestOf;
  }

  function EffectiveLabels(given: seq<string>): seq<string> {
    if given == [] then ["main"] else given
  }

  function EffectiveDeps(depIds: seq<CommitId>, detected: seq<CommitId>): seq<CommitId> {
    if depIds == [] then detected else depIds
  }

  lemma StoredCommit(env: Env, s: Store, id: CommitId)
    requires StoreOk(env, s)
    ensures GetCommit(s, id).Ok? <==> id in s.commits
    ensures id in s.commits ==>
      ModuleDigestOf(s, id) == GetCommit(s, id).value.moduleDigest && ModuleDigestOf(s, id).kind.B5?
  {
    hide DocToRecord, BucketOk, LabelOk, ManifestKey, ModuleTable;
    if id in s.commits {
      assert CommitOk(env, s, id);
    }
  }

  // The files read so far, followed by what remains to be read.
  function Reading(files: seq<ReadFile>, rest: Result<seq<ReadFile>>): Result<seq<ReadFile>> {
    var more :- rest;
    Ok(files + more)
  }

  lemma ReadStep(bucket: Bucket, entries: seq<Entry>, i: nat, files: seq<ReadFile>)
    requires i < |entries|
    ensures
      Reading(files, ReadBlobs(bucket, entries[i..])) ==
        var content :- GetBlob(bucket, entries[i].digest);
        Reading(files + [ReadFile(entries[i].path, content, entries[i].digest)], ReadBlobs(bucket, entries[i + 1..]))
  {
    assert entries[i..][0] == entries[i] && entries[i..][1..] == entries[i + 1..];
    var content, more := GetBlob(bucket, entries[i].digest), ReadBlobs(bucket, entries[i + 1..]);
    if content.Ok? && more.Ok? {
      var f := ReadFile(entries[i].path, content.value, entries[i].digest);
      assert files + ([f] + more.value) == (files + [f]) + more.value;
    }
  }

  lemma ReadStart(bucket: Bucket, entries: seq<Entry>)
    ensures ReadBlobs(bucket, entries) == Reading([], ReadBlobs(bucket, entries[0..]))
  {
    assert entries[0..] == entries;
    if ReadBlobs(bucket, entries).Ok? {
      assert [] + ReadBlobs(bucket, entries).value == ReadBlobs(bucket, entries).value;
    }
  }
}
