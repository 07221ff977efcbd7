/** Which uploads store a manifest that lists only stored blobs (internal/storage/blob.go,
    internal/storage/manifest.go)? */
module ListedBlobs {
  import opened Wrappers
  import opened Digests
  import opened Manifests
  import opened Merkle
  import opened Buckets
  import opened Retrieval
  import opened Docstore
  import opened StoreInvariant
  import opened Uploads
  import opened SoloUploads
  import opened SoloStarts
  import UploadTheorems
  import Commits

  // ----- Keys of blobs that were never printed -----

  // A manifest can list digests of any algorithm and length; their keys are those of stored blobs only if
  // they are the same digests.
  lemma LastSlash(a: string, x: string, b: string, y: string)
    requires '/' !in x && '/' !in y && a + "/" + x == b + "/" + y
    ensures a == b && x == y
  {
    if |a| < |b| {
      SlashWithin(a, x, b, y);
    } else if |a| > |b| {
      SlashWithin(b, y, a, x);
    } else {
      var whole := a + "/" + x;
      assert whole[..|a|] == a && whole[..|b|] == b;
      assert whole[|a| + 1..] == x && whole[|b| + 1..] == y;
    }
  }

  lemma SlashWithin(a: string, x: string, b: string, y: string)
    requires a + "/" + x == b + "/" + y && |a| < |b|
    ensures '/' in x
  {
    var whole := a + "/" + x;
    assert whole[|b|] == '/' && whole[|b|] == x[|b| - |a| - 1];
  }

  // The folder of a blob.
  function Folder(d: Digest): string {
    var hex := d.Hex();
    if |hex| < 2 then d.algorithm else d.algorithm + "/" + hex[..2]
  }

  lemma KeyParts(d: Digest)
    ensures BlobKey(d) == Folder(d) + "/" + d.Hex() && '/' !in d.Hex()
  {
  }

  lemma AnyBlobKeyInjective(d: Digest, e: Digest)
    requires IsShake(e) && BlobKey(d) == BlobKey(e)
    ensures d == e
  {
    KeyParts(d);
    KeyParts(e);
    hide BlobKey;
    LastSlash(Folder(d), d.Hex(), Folder(e), e.Hex());
    EncodeHexInjective(d.value, e.value);
    LastSlash(d.algorithm, d.Hex()[..2], e.algorithm, e.Hex()[..2]);
  }

  lemma AnyBlobIsNoManifest(d: Digest, e: Digest)
    requires IsShake(e)
    ensures BlobKey(d) != ManifestKey(e)
  {
    if BlobKey(d) == ManifestKey(e) {
      KeyParts(d);
      KeyParts(e);
      var folder := "manifests/" + e.algorithm;
      assert ManifestKey(e) == folder + "/" + e.Hex();
      hide BlobKey, ManifestKey;
      LastSlash(Folder(d), d.Hex(), folder, e.Hex());
      assert folder == "manifests" + "/" + "shake256";
      LastSlash(d.algorithm, d.Hex()[..2], "manifests", "shake256");
    }
  }

  // ----- The smallest bucket that holds the files -----

  // The bucket keeps its promises, and the files and their manifest are in it.
  ghost predicate HoldsUpload(env: Env, bucket: Bucket, files: seq<File>) {
    var key := ManifestKey(DigestOf(env, files));
    && BucketOk(env.hash, env.pathOk, bucket) && BlobsStored(env.hash, bucket, files)
    && key in bucket && bucket[key] == Serialize(Entries(env.hash, files))
  }

  function DigestOf(env: Env, files: seq<File>): Digest {
    FilesDigest(env.hash, Entries(env.hash, files))
  }

  // The bucket of a registry in which nothing but these files was ever stored.
  function UploadBucket(env: Env, files: seq<File>): Bucket {
    Commits.StoreFiles(env, EMPTY.store, files).bucket
  }

  lemma {:induction false} OnlyTheirBlobs(env: Env, files: seq<File>, key: string)
    requires key in Commits.EnsureBlobs(env, EMPTY.store, files).bucket
    ensures exists f :: f in files && key == BlobKey(SumOf(env.hash, f.content))
  {
    hide BlobKey;
    if files != [] {
      var last := |files| - 1;
      if key in Commits.EnsureBlobs(env, EMPTY.store, files[..last]).bucket {
        OnlyTheirBlobs(env, files[..last], key);
      }
      assert files == files[..last] + [files[last]];
    }
  }

  lemma EmptyStoreOk(env: Env)
    ensures StoreOk(env, EMPTY.store)
  {
  }

  lemma UploadBucketHolds(env: Env, files: seq<File>)
    requires forall f :: f in files ==> env.pathOk(f.path)
    ensures HoldsUpload(env, UploadBucket(env, files), files)
  {
    EmptyStoreOk(env);
    Commits.StoreFilesKeep(env, EMPTY.store, files);
    Commits.StoreFilesStored(env, EMPTY.store, files);
    ManifestIsNew(env, files);
    hide Commits.EnsureBlobs, BlobsStored, BucketOk, LabelOk, CommitOk, ModuleTable, Serialize, ManifestKey,
      FilesDigest, Entries;
  }

  lemma ManifestIsNew(env: Env, files: seq<File>)
    ensures ManifestKey(DigestOf(env, files)) !in Commits.EnsureBlobs(env, EMPTY.store, files).bucket
  {
    hide BlobKey, ManifestKey, Commits.EnsureBlobs, Serialize;
    var d := DigestOf(env, files);
    if ManifestKey(d) in Commits.EnsureBlobs(env, EMPTY.store, files).bucket {
      OnlyTheirBlobs(env, files, ManifestKey(d));
      var f :| f in files && ManifestKey(d) == BlobKey(SumOf(env.hash, f.content));
      BlobIsNoManifest(SumOf(env.hash, f.content), d);
    }
  }

  // A digest whose blob is in that bucket is the digest of one of the files.
  lemma OnlyOwnBlobs(env: Env, files: seq<File>, d: Digest)
    requires BlobKey(d) in UploadBucket(env, files)
    ensures HasDigest(Entries(env.hash, files), d)
  {
    hide BlobKey, ManifestKey, Commits.EnsureBlobs, Serialize;
    var entries := Entries(env.hash, files);
    AnyBlobIsNoManifest(d, DigestOf(env, files));
    OnlyTheirBlobs(env, files, BlobKey(d));
    var f :| f in files && BlobKey(d) == BlobKey(SumOf(env.hash, f.content));
    AnyBlobKeyInjective(d, SumOf(env.hash, f.content));
    var i :| 0 <= i < |files| && files[i] == f;
    assert entries[i] in entries;
  }

  // ----- The boundary -----

  lemma OwnListed(env: Env, bucket: Bucket, files: seq<File>)
    requires HoldsUpload(env, bucket, files) && ListsPrinted(Entries(env.hash, files))
    ensures ListedStored(bucket, DigestOf(env, files))
  {
    hide BlobKey, ManifestKey, Serialize, Parse, BucketOk, DigestOf;
    var entries := Entries(env.hash, files);
    var r := GetManifest(bucket, DigestOf(env, files));
    if r.Ok? {
      forall e | e in r.value
        ensures GetBlob(bucket, e.digest).Ok?
      {
        assert HasDigest(entries, e.digest);
        var i :| 0 <= i < |entries| && entries[i].digest == e.digest;
        assert files[i] in files;
      }
    }
  }

  lemma UnprintedMissing(env: Env, files: seq<File>)
    requires HoldsUpload(env, UploadBucket(env, files), files)
    requires ListedStored(UploadBucket(env, files), DigestOf(env, files))
    ensures ListsPrinted(Entries(env.hash, files))
  {
    hide BlobKey, UploadBucket, ManifestKey, Serialize, Parse, DigestOf, Entries, BucketOk, BlobsStored;
    var bucket, entries := UploadBucket(env, files), Entries(env.hash, files);
    var r := Parse(Serialize(entries));
    if r.Ok? {
      forall e | e in r.value
        ensures HasDigest(entries, e.digest)
      {
        assert GetBlob(bucket, e.digest).Ok?;
        OnlyOwnBlobs(env, files, e.digest);
      }
    }
  }

  /** Every bucket that holds an upload holds all that its manifest lists, exactly when the manifest, read
      back, lists only digests of the uploaded files - a condition on the upload alone. */
  lemma ListedExactly(env: Env, files: seq<File>)
    requires forall f :: f in files ==> env.pathOk(f.path)
    ensures
      (forall bucket :: HoldsUpload(env, bucket, files) ==> ListedStored(bucket, DigestOf(env, files)))
      <==> ListsPrinted(Entries(env.hash, files))
  {
    hide HoldsUpload, ListedStored, ListsPrinted, DigestOf, Entries, UploadBucket;
    if ListsPrinted(Entries(env.hash, files)) {
      forall bucket | HoldsUpload(env, bucket, files)
        ensures ListedStored(bucket, DigestOf(env, files))
      {
        OwnListed(env, bucket, files);
      }
    } else {
      UploadBucketHolds(env, files);
      if ListedStored(UploadBucket(env, files), DigestOf(env, files)) {
        UnprintedMissing(env, files);
      }
    }
  }

  // ----- The boundary over all runs -----

  // Upload `p` of these files is done, and the manifest under their digest is theirs: it may be another
  // text only if that has the same hash.
  ghost predicate HasUploaded(env: Env, sys: System, p: nat, files: seq<File>) {
    var key := ManifestKey(DigestOf(env, files));
    && p in sys.uploads && sys.uploads[p].phase.Done? && sys.uploads[p].req.files == files
    && (key in sys.store.bucket ==> sys.store.bucket[key] == Serialize(Entries(env.hash, files)))
  }

  lemma UploadedHolds(env: Env, run: seq<System>, i: nat, p: nat, files: seq<File>)
    requires IsRun(env, run) && i < |run| && HasUploaded(env, run[i], p, files)
    ensures HoldsUpload(env, run[i].store.bucket, files)
  {
    RunKeeps(env, run, i);
    var u, s := run[i].uploads[p], run[i].store;
    hide IsRun, StoreOk, EntriesPut, IsCommitOfUpload, Serialize, ManifestKey, FilesDigest, Entries, BucketOk,
      BlobsStored;
    UploadTheorems.UploadEnded(env, run[i], p);
    LaterReflexive(s);
    UploadTheorems.StillStored(env, s, s, u);
    UploadTheorems.BucketOfSystem(env, run[i]);
  }

  // In every run, while an upload that lists only its own digests is done, all it lists is stored, or the
  // text of another manifest has the hash of its own.
  lemma UploadListed(env: Env, run: seq<System>, i: nat, p: nat)
    requires IsRun(env, run) && i < |run| && p in run[i].uploads && run[i].uploads[p].phase.Done?
    requires ListsPrinted(Entries(env.hash, run[i].uploads[p].req.files))
    ensures
      var files, bucket := run[i].uploads[p].req.files, run[i].store.bucket;
      ListedStored(bucket, DigestOf(env, files))
        || Collision(env.hash, {Serialize(Entries(env.hash, files))}, bucket.Values)
  {
    var files, bucket := run[i].uploads[p].req.files, run[i].store.bucket;
    hide IsRun, ListsPrinted, ListedStored, Serialize, Entries, ManifestKey, BucketOk, SystemOk, Collision, DigestOf;
    if HasUploaded(env, run[i], p, files) {
      UploadedHolds(env, run, i, p, files);
      OwnListed(env, bucket, files);
    } else {
      RunKeeps(env, run, i);
      UploadTheorems.BucketOfSystem(env, run[i]);
      OtherText(env, bucket, files);
    }
  }

  // Another text under the key of a manifest has its hash.
  lemma OtherText(env: Env, bucket: Bucket, files: seq<File>)
    requires BucketOk(env.hash, env.pathOk, bucket) && ManifestKey(DigestOf(env, files)) in bucket
    requires bucket[ManifestKey(DigestOf(env, files))] != Serialize(Entries(env.hash, files))
    ensures Collision(env.hash, {Serialize(Entries(env.hash, files))}, bucket.Values)
  {
    hide BucketOk, ManifestKey, Serialize, Entries, IsManifest;
    ManifestIntegrity(env.hash, env.pathOk, bucket, DigestOf(env, files));
  }

  // The run in which nothing but these files is uploaded.
  lemma FirstUpload(env: Env, files: seq<File>) returns (run: seq<System>)
    requires forall f :: f in files ==> env.pathOk(f.path)
    ensures run != [] && IsRun(env, run) && run[|run| - 1].store.bucket == UploadBucket(env, files)
    ensures
      var last := run[|run| - 1];
      0 in last.uploads && last.uploads[0].phase.Done? && last.uploads[0].req.files == files
  {
    var req := Request("", "", files, [], []);
    var begun := EMPTY.(uploads := map[0 := NewUpload(req)]);
    assert Begins(env, EMPTY, begun, 0, req);
    RunOneMore(env, [EMPTY], begun);
    EmptyStoreOk(env);
    hide IsRun, StoreOk, Leads, Commits.Pushed, PushFor, Begins;
    var hit, s', next', c := AcceptedPush(env, begun, req);
    OnlyFiles(env, begun, req, hit, s', next', c);
    var v, n := SoloUpload(env, begun, 0, req, hit, s', next', c);
    run := LeadsToRun(env, [EMPTY] + [begun], With(begun, 0, s', next', v), 0, n);
  }

  lemma OnlyFiles(env: Env, sys: System, req: Request, hit: Option<CommitId>, s': Store, next': CommitId,
                  c: CommitRecord)
    requires Accepts(env, sys.store, req) && UploadedAs(env, sys, req, hit, s', next', c) && sys.store == EMPTY.store
    requires req.labels == []
    ensures s'.bucket == UploadBucket(env, req.files)
  {
    hide Commits.NewCommit, Commits.IsReused, Finds, RecordToDoc, AllB5, GetCommit;
    SameFilesStored(env, EMPTY.store, Opened(env, EMPTY.store, req), req.files);
  }

  lemma SameFilesStored(env: Env, s: Store, s': Store, files: seq<File>)
    requires s.bucket == s'.bucket
    ensures Commits.StoreFiles(env, s, files).bucket == Commits.StoreFiles(env, s', files).bucket
  {
    SameBlobsStored(env, s, s', files);
    hide ManifestKey, Serialize, Entries, Commits.EnsureBlobs;
  }

  lemma {:induction false} SameBlobsStored(env: Env, s: Store, s': Store, files: seq<File>)
    requires s.bucket == s'.bucket
    ensures Commits.EnsureBlobs(env, s, files).bucket == Commits.EnsureBlobs(env, s', files).bucket
  {
    hide BlobKey;
    if files != [] {
      SameBlobsStored(env, s, s', files[..|files| - 1]);
    }
  }

  // State `i` of the run has a finished upload of these files.
  ghost predicate ReachesUploaded(env: Env, run: seq<System>, i: nat, p: nat, files: seq<File>) {
    IsRun(env, run) && i < |run| && HasUploaded(env, run[i], p, files)
  }

  ghost predicate ListedAt(env: Env, sys: System, files: seq<File>) {
    ListedStored(sys.store.bucket, DigestOf(env, files))
  }

  /** The same over all runs of any uploads: in every one of their states in which an upload of these files
      is done, all that its manifest lists is stored - exactly when the manifest, read back, lists only
      digests of these files. */
  lemma ListedInRuns(env: Env, files: seq<File>)
    requires forall f :: f in files ==> env.pathOk(f.path)
    ensures
      (forall run, i: nat, p :: ReachesUploaded(env, run, i, p, files) ==> ListedAt(env, run[i], files))
      <==> ListsPrinted(Entries(env.hash, files))
  {
    hide ReachesUploaded, ListedAt, ListsPrinted, Entries;
    if ListsPrinted(Entries(env.hash, files)) {
      forall run, i: nat, p | ReachesUploaded(env, run, i, p, files)
        ensures i < |run| && ListedAt(env, run[i], files)
      {
        OwnListedAt(env, run, i, p, files);
      }
    } else {
      var run, i := UnprintedRun(env, files);
    }
  }

  lemma OwnListedAt(env: Env, run: seq<System>, i: nat, p: nat, files: seq<File>)
    requires ReachesUploaded(env, run, i, p, files) && ListsPrinted(Entries(env.hash, files))
    ensures i < |run| && ListedAt(env, run[i], files)
  {
    hide IsRun, HasUploaded, ListsPrinted, ListedStored, Entries, DigestOf;
    UploadedHolds(env, run, i, p, files);
    OwnListed(env, run[i].store.bucket, files);
  }

  lemma UnprintedRun(env: Env, files: seq<File>) returns (run: seq<System>, i: nat)
    requires (forall f :: f in files ==> env.pathOk(f.path)) && !ListsPrinted(Entries(env.hash, files))
    ensures ReachesUploaded(env, run, i, 0, files) && !ListedAt(env, run[i], files)
  {
    hide IsRun, HoldsUpload, ListedStored, ListsPrinted, DigestOf, Entries, UploadBucket;
    UploadBucketHolds(env, files);
    run := FirstUpload(env, files);
    i := |run| - 1;
    FirstHasUploaded(env, run[i], files);
    if ListedAt(env, run[i], files) {
      UnprintedMissing(env, files);
    }
  }

  lemma FirstHasUploaded(env: Env, sys: System, files: seq<File>)
    requires HoldsUpload(env, sys.store.bucket, files)
    requires 0 in sys.uploads && sys.uploads[0].phase.Done? && sys.uploads[0].req.files == files
    ensures HasUploaded(env, sys, 0, files)
  {
    hide BucketOk, BlobsStored, ManifestKey, Serialize, Entries;
  }

  // The condition fails, for instance, for one file whose path holds a newline and another digest.
  lemma ForgedNotPrinted(d: Digest, other: Digest)
    requires IsShake(d) && IsShake(other) && other != d
    ensures !ListsPrinted([Entry(d, ForgingPath(other))])
  {
    NewlineForgesEntry(d, other);
    hide Parse, Serialize, ForgingPath;
    var listed := [Entry(d, "a"), Entry(other, "b")];
    assert listed[1] in listed;
  }
}
