/** Reading the files of a commit back (internal/registry/module.go, filesForCommit). */
module Retrieval {
  import opened Wrappers
  import opened Ordering
  import opened Digests
  import opened Manifests
  import opened Merkle
  import opened Buckets

  // A file as it is handed out.
  datatype ReadFile = ReadFile(path: string, content: string, digest: Digest)

  function ReadBlobs(bucket: Bucket, entries: seq<Entry>): Result<seq<ReadFile>> {
    if entries == [] then Ok([])
    else
      var content :- GetBlob(bucket, entries[0].digest);
      var more :- ReadBlobs(bucket, entries[1..]);
      Ok([ReadFile(entries[0].path, content, entries[0].digest)] + more)
  }

  function FilesOf(bucket: Bucket, d: Digest): Result<seq<ReadFile>> {
    var entries :- GetManifest(bucket, d);
    ReadBlobs(bucket, entries)
  }

  function FilePath(f: File): string { f.path }

  function AsRead(h: Hash, files: seq<File>): (r: seq<ReadFile>)
    ensures |r| == |files|
    ensures forall i :: 0 <= i < |r| ==> r[i] == ReadFile(files[i].path, files[i].content, SumOf(h, files[i].content))
  {
    seq(|files|, i requires 0 <= i < |files| => ReadFile(files[i].path, files[i].content, SumOf(h, files[i].content)))
  }

  // The files of an upload as they should come back: sorted by path, each with its own digest.
  function Expected(h: Hash, files: seq<File>): seq<ReadFile> {
    AsRead(h, Sort(files, FilePath))
  }

  // The files, each once, in the byte order of their paths, each with the digest of its content.
  ghost predicate IsDownload(h: Hash, files: seq<File>, read: seq<ReadFile>) {
    exists arranged :: IsReadIn(h, files, read, arranged)
  }

  ghost predicate IsReadIn(h: Hash, files: seq<File>, read: seq<ReadFile>, arranged: seq<File>) {
    && multiset(arranged) == multiset(files) && Ascending(arranged, FilePath) && |read| == |arranged|
    && forall i :: 0 <= i < |read| ==>
         read[i] == ReadFile(arranged[i].path, arranged[i].content, Digest("shake256", h(arranged[i].content)))
  }

  lemma ExpectedIsDownload(h: Hash, files: seq<File>)
    ensures IsDownload(h, files, Expected(h, files))
  {
    SortedIsAscending(Sort(files, FilePath), FilePath);
    hide Ascending, Sorted;
    assert SHAKE256 == "shake256";
    assert IsReadIn(h, files, Expected(h, files), Sort(files, FilePath));
  }

  // For different paths nothing else is a download of the files.
  lemma DownloadExactly(h: Hash, files: seq<File>, read: seq<ReadFile>)
    requires forall i, j :: 0 <= i < j < |files| ==> files[i].path != files[j].path
    ensures IsDownload(h, files, read) <==> read == Expected(h, files)
  {
    ExpectedIsDownload(h, files);
    hide Ascending, Sorted;
    if arranged :| IsReadIn(h, files, read, arranged) {
      SortedIsAscending(arranged, FilePath);
      PathsTellFiles(files);
      SameElements(files, Sort(files, FilePath));
      SortedUnique(Sort(files, FilePath), arranged, FilePath);
      assert read == Expected(h, files);
    }
  }

  lemma PathsTellFiles(files: seq<File>)
    requires forall i, j :: 0 <= i < j < |files| ==> files[i].path != files[j].path
    ensures KeyInjective(Sort(files, FilePath), FilePath)
  {
    SameElements(files, Sort(files, FilePath));
  }

  // Everything that is hashed when the files are stored.
  ghost function Uploaded(h: Hash, files: seq<File>): set<string> {
    Contents(files) + {Serialize(Entries(h, files))}
  }

  function EntryOf(h: Hash, f: File): Entry {
    Entry(SumOf(h, f.content), f.path)
  }

  lemma EntriesFirst(h: Hash, f: File, rest: seq<File>)
    ensures Entries(h, [f] + rest) == [EntryOf(h, f)] + Entries(h, rest)
  {
    var all := [f] + rest;
    forall i | 0 <= i < |all|
      ensures Entries(h, all)[i] == ([EntryOf(h, f)] + Entries(h, rest))[i]
    {
      if i > 0 {
        assert all[i] == rest[i - 1];
      }
    }
  }

  lemma EntriesSplit(h: Hash, files: seq<File>)
    requires files != []
    ensures Entries(h, files)[0] == EntryOf(h, files[0]) && Entries(h, files)[1..] == Entries(h, files[1..])
  {
    EntriesFirst(h, files[0], files[1..]);
    assert files == [files[0]] + files[1..];
  }

  lemma {:induction false} InsertEntries(h: Hash, f: File, files: seq<File>)
    ensures Entries(h, Insert(f, files, FilePath)) == Insert(EntryOf(h, f), Entries(h, files), PathOf)
  {
    hide Entries, Leq;
    if files == [] {
      EntriesFirst(h, f, []);
      assert Entries(h, []) == [];
      assert [f] + [] == [f];
    } else {
      EntriesSplit(h, files);
      EntriesFirst(h, f, files);
      var rest := Insert(f, files[1..], FilePath);
      EntriesFirst(h, files[0], rest);
      InsertEntries(h, f, files[1..]);
    }
  }

  // Sorting the files and sorting their manifest entries is the same.
  lemma {:induction false} SortEntries(h: Hash, files: seq<File>)
    ensures Entries(h, Sort(files, FilePath)) == Sort(Entries(h, files), PathOf)
  {
    hide Entries, Insert, Leq;
    if files != [] {
      SortEntries(h, files[1..]);
      EntriesSplit(h, files);
      InsertEntries(h, files[0], Sort(files[1..], FilePath));
    }
  }

  ghost predicate BlobsStored(h: Hash, bucket: Bucket, files: seq<File>) {
    forall f :: f in files ==> BlobKey(SumOf(h, f.content)) in bucket
  }

  // Blobs read back as what was put in, or a stored object collides with an uploaded content.
  lemma {:induction false} ReadBack(h: Hash, pathOk: string -> bool, bucket: Bucket, files: seq<File>)
    requires BucketOk(h, pathOk, bucket) && BlobsStored(h, bucket, files)
    ensures
      || Collision(h, Contents(files), bucket.Values)
      || ReadBlobs(bucket, Entries(h, files)) == Ok(AsRead(h, files))
  {
    hide BucketOk, BlobKey, GetBlob, Entries, AsRead, Collision, Contents;
    if files == [] {
      assert AsRead(h, files) == [];
    } else {
      RestContents(files);
      if Collision(h, Contents(files[1..]), bucket.Values) {
        CollisionGrows(h, Contents(files[1..]), bucket.Values, Contents(files), bucket.Values);
      }
      ReadBack(h, pathOk, bucket, files[1..]);
      BlobReadBack(h, pathOk, bucket, files);
      EntriesSplit(h, files);
      AsReadSplit(h, files);
    }
  }

  lemma AsReadSplit(h: Hash, files: seq<File>)
    requires files != []
    ensures AsRead(h, files) ==
      [ReadFile(files[0].path, files[0].content, SumOf(h, files[0].content))] + AsRead(h, files[1..])
  {
  }

  lemma RestContents(files: seq<File>)
    requires files != []
    ensures Contents(files[1..]) <= Contents(files) && forall f :: f in files[1..] ==> f in files
  {
    forall c | c in Contents(files[1..])
      ensures c in Contents(files)
    {
      var i :| 0 <= i < |files| - 1 && files[1..][i].content == c;
      assert files[i + 1].content == c;
    }
  }

  lemma BlobReadBack(h: Hash, pathOk: string -> bool, bucket: Bucket, files: seq<File>)
    requires files != [] && BucketOk(h, pathOk, bucket) && BlobsStored(h, bucket, files)
    ensures
      || Collision(h, Contents(files), bucket.Values)
      || GetBlob(bucket, SumOf(h, files[0].content)) == Ok(files[0].content)
  {
    var d := SumOf(h, files[0].content);
    assert files[0] in files && files[0].content in Contents(files);
    BlobIntegrity(h, pathOk, bucket, d);
    HashesApart(h, files[0].content, bucket[BlobKey(d)], Contents(files), bucket.Values);
  }

  lemma {:induction false} ReadPathsAndDigests(bucket: Bucket, entries: seq<Entry>)
    requires ReadBlobs(bucket, entries).Ok?
    ensures var r := ReadBlobs(bucket, entries).value;
      |r| == |entries| && forall i :: 0 <= i < |r| ==> entries[i] == Entry(r[i].digest, r[i].path)
  {
    if entries != [] {
      ReadPathsAndDigests(bucket, entries[1..]);
    }
  }

  lemma LegalEntries(h: Hash, files: seq<File>)
    ensures (forall e :: e in Entries(h, files) ==> LegalPath(e.path)) <==>
      (forall f :: f in files ==> LegalPath(f.path))
  {
    var entries := Entries(h, files);
    forall f | f in files
      ensures exists e :: e in entries && e.path == f.path
    {
      var i :| 0 <= i < |files| && files[i] == f;
      assert entries[i] in entries;
    }
  }

  // The stored text under the manifest key is the uploaded manifest, or collides with it.
  lemma ManifestReadBack(h: Hash, pathOk: string -> bool, bucket: Bucket, files: seq<File>)
    requires BucketOk(h, pathOk, bucket) && ManifestKey(FilesDigest(h, Entries(h, files))) in bucket
    ensures
      || Collision(h, Uploaded(h, files), bucket.Values)
      || bucket[ManifestKey(FilesDigest(h, Entries(h, files)))] == Serialize(Entries(h, files))
  {
    var text, d := Serialize(Entries(h, files)), FilesDigest(h, Entries(h, files));
    ManifestIntegrity(h, pathOk, bucket, d);
    HashesApart(h, text, bucket[ManifestKey(d)], Uploaded(h, files), bucket.Values);
  }

  ghost predicate ReadsBack(h: Hash, bucket: Bucket, files: seq<File>) {
    FilesOf(bucket, FilesDigest(h, Entries(h, files))) == Ok(Expected(h, files))
  }

  /** Store, then read: once the blobs and the manifest of an upload are in the bucket, reading by its
      files digest returns exactly the uploaded paths and contents, sorted by path - provided, and only
      when, every path is legal - or a stored object and an uploaded string have the same hash. */
  lemma StoreThenRead(h: Hash, pathOk: string -> bool, bucket: Bucket, files: seq<File>)
    requires BucketOk(h, pathOk, bucket) && BlobsStored(h, bucket, files)
    requires ManifestKey(FilesDigest(h, Entries(h, files))) in bucket
    ensures
      || Collision(h, Uploaded(h, files), bucket.Values)
      || (ReadsBack(h, bucket, files) <==> forall f :: f in files ==> LegalPath(f.path))
  {
    ManifestReadBack(h, pathOk, bucket, files);
    SortedReadBack(h, pathOk, bucket, files);
    if !Collision(h, Uploaded(h, files), bucket.Values) {
      ManifestRoundTrip(Entries(h, files));
      LegalEntries(h, files);
      SortEntries(h, files);
      ReadsWhatParses(h, bucket, files);
    }
  }

  // Reading succeeds with the right files exactly when the manifest text parses to the right entries.
  lemma ReadsWhatParses(h: Hash, bucket: Bucket, files: seq<File>)
    requires
      var d := FilesDigest(h, Entries(h, files));
      ManifestKey(d) in bucket && bucket[ManifestKey(d)] == Serialize(Entries(h, files))
    requires ReadBlobs(bucket, Entries(h, Sort(files, FilePath))) == Ok(Expected(h, files))
    ensures ReadsBack(h, bucket, files) <==>
      Parse(Serialize(Entries(h, files))) == Ok(Entries(h, Sort(files, FilePath)))
  {
    var sorted := Sort(files, FilePath);
    hide Serialize, ReadBlobs, Parse, Sort, FilesDigest;
    if ReadsBack(h, bucket, files) {
      var parsed := Parse(Serialize(Entries(h, files))).value;
      ReadPathsAndDigests(bucket, parsed);
      assert parsed == Entries(h, sorted);
    }
  }

  lemma SortedReadBack(h: Hash, pathOk: string -> bool, bucket: Bucket, files: seq<File>)
    requires BucketOk(h, pathOk, bucket) && BlobsStored(h, bucket, files)
    ensures
      || Collision(h, Uploaded(h, files), bucket.Values)
      || ReadBlobs(bucket, Entries(h, Sort(files, FilePath))) == Ok(Expected(h, files))
  {
    var sorted := Sort(files, FilePath);
    SameElements(files, sorted);
    SortedContents(files, sorted);
    hide Sort, ReadBlobs, BucketOk;
    ReadBack(h, pathOk, bucket, sorted);
    if Collision(h, Contents(sorted), bucket.Values) {
      CollisionGrows(h, Contents(sorted), bucket.Values, Uploaded(h, files), bucket.Values);
    }
  }

  lemma SortedContents(files: seq<File>, sorted: seq<File>)
    requires forall f :: f in sorted ==> f in files
    ensures Contents(sorted) <= Contents(files)
  {
    forall c | c in Contents(sorted)
      ensures c in Contents(files)
    {
      var i :| 0 <= i < |sorted| && sorted[i].content == c;
      assert sorted[i] in files;
      var j :| 0 <= j < |files| && files[j] == sorted[i];
    }
  }
}
