/** The bucket that blobs and manifests share, and what its objects promise (internal/storage/blob.go,
    internal/storage/manifest.go). */
module Buckets {
  import opened Wrappers
  import opened Ordering
  import opened Digests
  import opened Manifests

  type Bucket = map<string, string>

  // blobKey: blobs are sharded by the first two hex digits.
  function BlobKey(d: Digest): string {
    var hex := d.Hex();
    if |hex| < 2 then d.algorithm + "/" + hex else d.algorithm + "/" + hex[..2] + "/" + hex
  }

  // manifestPath
  function ManifestKey(d: Digest): string {
    "manifests/" + d.algorithm + "/" + d.Hex()
  }

  // Where the objects lie, spelt out.
  lemma BlobKeyText(h: Hash, content: string)
    ensures
      var hex := EncodeHex(h(content));
      BlobKey(SumOf(h, content)) == "shake256/" + hex[..2] + "/" + hex
  {
    assert SHAKE256 + "/" == "shake256/";
  }

  lemma ManifestKeyText(h: Hash, text: string)
    ensures ManifestKey(SumOf(h, text)) == "manifests/shake256/" + EncodeHex(h(text))
  {
    assert "manifests/" + SHAKE256 + "/" == "manifests/shake256/";
  }

  lemma BlobKeyInjective(d: Digest, e: Digest)
    requires IsShake(d) && IsShake(e) && BlobKey(d) == BlobKey(e)
    ensures d == e
  {
    assert BlobKey(d)[12..] == d.Hex() && BlobKey(e)[12..] == e.Hex();
    EncodeHexInjective(d.value, e.value);
  }

  lemma ManifestKeyInjective(d: Digest, e: Digest)
    requires IsShake(d) && IsShake(e) && ManifestKey(d) == ManifestKey(e)
    ensures d == e
  {
    assert ManifestKey(d)[19..] == d.Hex() && ManifestKey(e)[19..] == e.Hex();
    EncodeHexInjective(d.value, e.value);
  }

  // Blobs and manifests never share a key, although they share the bucket.
  lemma BlobIsNoManifest(d: Digest, e: Digest)
    requires IsShake(d) && IsShake(e)
    ensures BlobKey(d) != ManifestKey(e)
  {
    assert BlobKey(d)[0] == 's' && ManifestKey(e)[0] == 'm';
  }

  // The text is a printed manifest of legal paths whose blobs are all in the bucket.
  ghost predicate IsManifest(bucket: Bucket, pathOk: string -> bool, text: string) {
    exists entries :: Serialize(entries) == text && Stored(bucket, pathOk, entries)
  }

  ghost predicate Stored(bucket: Bucket, pathOk: string -> bool, entries: seq<Entry>) {
    AllShake(entries) && forall e :: e in entries ==> pathOk(e.path) && BlobKey(e.digest) in bucket
  }

  // An object lies under a key computed from its own content.
  ghost predicate ObjectOk(h: Hash, pathOk: string -> bool, bucket: Bucket, key: string)
    requires key in bucket
  {
    var d := SumOf(h, bucket[key]);
    key == BlobKey(d) || (key == ManifestKey(d) && IsManifest(bucket, pathOk, bucket[key]))
  }

  ghost predicate BucketOk(h: Hash, pathOk: string -> bool, bucket: Bucket) {
    forall key :: key in bucket ==> ObjectOk(h, pathOk, bucket, key)
  }

  lemma MoreObjects(h: Hash, pathOk: string -> bool, bucket: Bucket, more: Bucket, key: string)
    requires key in bucket && bucket.Keys <= more.Keys && key in more && more[key] == bucket[key]
    requires ObjectOk(h, pathOk, bucket, key)
    ensures ObjectOk(h, pathOk, more, key)
  {
    if key != BlobKey(SumOf(h, bucket[key])) {
      var entries :| Serialize(entries) == bucket[key] && Stored(bucket, pathOk, entries);
      assert Stored(more, pathOk, entries);
    }
  }

  // Writing a blob, even over another one with the same key, keeps every promise.
  lemma WriteBlob(h: Hash, pathOk: string -> bool, bucket: Bucket, content: string)
    requires BucketOk(h, pathOk, bucket)
    ensures BucketOk(h, pathOk, bucket[BlobKey(SumOf(h, content)) := content])
  {
    var k := BlobKey(SumOf(h, content));
    var after := bucket[k := content];
    forall key | key in after
      ensures ObjectOk(h, pathOk, after, key)
    {
      if key != k {
        MoreObjects(h, pathOk, bucket, after, key);
      }
    }
  }

  lemma WriteManifest(h: Hash, pathOk: string -> bool, bucket: Bucket, entries: seq<Entry>)
    requires BucketOk(h, pathOk, bucket) && Stored(bucket, pathOk, entries)
    ensures BucketOk(h, pathOk, bucket[ManifestKey(FilesDigest(h, entries)) := Serialize(entries)])
  {
    var k := ManifestKey(FilesDigest(h, entries));
    var after := bucket[k := Serialize(entries)];
    assert Stored(after, pathOk, entries);
    forall key | key in after
      ensures ObjectOk(h, pathOk, after, key)
    {
      if key != k {
        MoreObjects(h, pathOk, bucket, after, key);
      }
    }
  }

  // ----- Reading -----

  function GetBlob(bucket: Bucket, d: Digest): Result<string> {
    if BlobKey(d) in bucket then Ok(bucket[BlobKey(d)]) else Err(NotFound)
  }

  function GetManifest(bucket: Bucket, d: Digest): Result<seq<Entry>> {
    if ManifestKey(d) in bucket then Parse(bucket[ManifestKey(d)]) else Err(NotFound)
  }

  // What lies under the key of a content digest has that digest.
  lemma BlobIntegrity(h: Hash, pathOk: string -> bool, bucket: Bucket, d: Digest)
    requires BucketOk(h, pathOk, bucket) && IsShake(d) && BlobKey(d) in bucket
    ensures h(bucket[BlobKey(d)]) == d.value
  {
    var found := SumOf(h, bucket[BlobKey(d)]);
    assert ObjectOk(h, pathOk, bucket, BlobKey(d));
    if BlobKey(d) == BlobKey(found) {
      BlobKeyInjective(d, found);
    } else {
      BlobIsNoManifest(d, found);
    }
  }

  lemma ManifestIntegrity(h: Hash, pathOk: string -> bool, bucket: Bucket, d: Digest)
    requires BucketOk(h, pathOk, bucket) && IsShake(d) && ManifestKey(d) in bucket
    ensures h(bucket[ManifestKey(d)]) == d.value && IsManifest(bucket, pathOk, bucket[ManifestKey(d)])
  {
    var found := SumOf(h, bucket[ManifestKey(d)]);
    assert ObjectOk(h, pathOk, bucket, ManifestKey(d));
    if ManifestKey(d) == BlobKey(found) {
      BlobIsNoManifest(found, d);
    } else {
      ManifestKeyInjective(d, found);
    }
  }

  // What the printed text lists, when it can be read at all, has the digests of the entries printed.
  ghost predicate ListsPrinted(entries: seq<Entry>) {
    var r := Parse(Serialize(entries));
    r.Ok? ==> forall e :: e in r.value ==> HasDigest(entries, e.digest)
  }

  ghost predicate HasDigest(entries: seq<Entry>, d: Digest) {
    exists e :: e in entries && e.digest == d
  }

  // The text was printed from entries whose blobs are all in the bucket, and lists no other digests.
  ghost predicate IsOwnManifest(bucket: Bucket, pathOk: string -> bool, text: string) {
    exists entries :: Serialize(entries) == text && Stored(bucket, pathOk, entries) && ListsPrinted(entries)
  }

  // Every blob that a readable manifest lists is in the bucket.
  ghost predicate ListedStored(bucket: Bucket, d: Digest) {
    GetManifest(bucket, d).Ok? ==> forall e :: e in GetManifest(bucket, d).value ==> GetBlob(bucket, e.digest).Ok?
  }

  lemma ListedBlobsStored(pathOk: string -> bool, bucket: Bucket, d: Digest)
    requires ManifestKey(d) in bucket ==> IsOwnManifest(bucket, pathOk, bucket[ManifestKey(d)])
    ensures ListedStored(bucket, d)
  {
    hide BlobKey, ManifestKey, Parse, Serialize;
    if ManifestKey(d) in bucket {
      var entries :| Serialize(entries) == bucket[ManifestKey(d)] && Stored(bucket, pathOk, entries)
        && ListsPrinted(entries);
    }
  }

  // Without newlines in the paths nothing else can be listed.
  lemma PlainListsPrinted(entries: seq<Entry>)
    requires AllShake(entries) && forall e :: e in entries ==> NewlineFree(e.path)
    ensures ListsPrinted(entries)
  {
    SortedEntries(entries);
    hide Parse, NewlineFree, IsShake, Sort;
    var sorted, r := Sort(entries, PathOf), Parse(Serialize(entries));
    ParsedDigests(sorted);
    if r.Ok? {
      forall e | e in r.value
        ensures HasDigest(entries, e.digest)
      {
        var i :| 0 <= i < |r.value| && r.value[i] == e;
        assert sorted[i] in entries;
      }
    }
  }

  // The text was printed from entries without newlines in their paths, whose blobs are all in the bucket.
  ghost predicate IsPlainManifest(bucket: Bucket, pathOk: string -> bool, text: string) {
    exists entries :: Serialize(entries) == text && StoredPlain(bucket, pathOk, entries)
  }

  ghost predicate StoredPlain(bucket: Bucket, pathOk: string -> bool, entries: seq<Entry>) {
    Stored(bucket, pathOk, entries) && forall e :: e in entries ==> NewlineFree(e.path)
  }
}
