/** The B5 digest as a commitment to a whole dependency tree: files plus, recursively, the trees of the
    dependencies (internal/storage/manifest.go, docs/hashing.md). */
module Merkle {
  import opened Ordering
  import opened Digests
  import opened Manifests

  datatype File = File(path: string, content: string)

  // The manifest entries of files put into the blob store.
  function Entries(h: Hash, files: seq<File>): (r: seq<Entry>)
    ensures |r| == |files| && AllShake(r)
    ensures forall i :: 0 <= i < |files| ==> r[i] == Entry(SumOf(h, files[i].content), files[i].path)
  {
    seq(|files|, i requires 0 <= i < |files| => Entry(SumOf(h, files[i].content), files[i].path))
  }

  datatype Tree = Tree(files: seq<File>, deps: seq<Tree>)

  function TreeDigest(h: Hash, t: Tree): ModuleDigest {
    B5From(h, FilesDigest(h, Entries(h, t.files)), DepDigests(h, t))
  }

  function DepDigests(h: Hash, t: Tree): (r: seq<ModuleDigest>)
    ensures |r| == |t.deps|
    decreases t, 0
  {
    seq(|t.deps|, i requires 0 <= i < |t.deps| => TreeDigest(h, t.deps[i]))
  }

  // Every string that is hashed while the digest of the tree is computed.
  ghost function Hashed(h: Hash, t: Tree): set<string> {
    OwnHashed(h, t) + (set i, x | 0 <= i < |t.deps| && x in Hashed(h, t.deps[i]) :: x)
  }

  ghost function OwnHashed(h: Hash, t: Tree): set<string> {
    var entries := Entries(h, t.files);
    Contents(t.files) + {Serialize(entries), B5Input(FilesDigest(h, entries), DepDigests(h, t))}
  }

  ghost function Contents(files: seq<File>): set<string> {
    set i | 0 <= i < |files| :: files[i].content
  }

  ghost predicate NewlineFreeTree(t: Tree) {
    && (forall f :: f in t.files ==> NewlineFree(f.path))
    && (forall i :: 0 <= i < |t.deps| ==> NewlineFreeTree(t.deps[i]))
  }

  ghost predicate DistinctPathsTree(t: Tree) {
    && (forall i, j :: 0 <= i < j < |t.files| ==> t.files[i].path != t.files[j].path)
    && (forall i :: 0 <= i < |t.deps| ==> DistinctPathsTree(t.deps[i]))
  }

  // The same files, and dependencies that match one to one, in any order, at every level.
  ghost predicate SameTree(t: Tree, u: Tree) {
    && multiset(t.files) == multiset(u.files)
    && |t.deps| == |u.deps|
    && exists p :: IsMatching(p, |t.deps|) && forall i :: 0 <= i < |t.deps| ==> SameTree(t.deps[i], u.deps[p[i]])
  }

  lemma CollisionGrows(h: Hash, xs: set<string>, ys: set<string>, xs': set<string>, ys': set<string>)
    requires Collision(h, xs, ys) && xs <= xs' && ys <= ys'
    ensures Collision(h, xs', ys')
  {
  }

  lemma HashesApart(h: Hash, x: string, y: string, xs: set<string>, ys: set<string>)
    requires x in xs && y in ys && h(x) == h(y)
    ensures x == y || Collision(h, xs, ys)
  {
  }

  lemma DepCollision(h: Hash, t: Tree, i: nat, u: Tree, j: nat)
    requires i < |t.deps| && j < |u.deps|
    ensures Collision(h, Hashed(h, t.deps[i]), Hashed(h, u.deps[j])) ==> Collision(h, Hashed(h, t), Hashed(h, u))
  {
    if Collision(h, Hashed(h, t.deps[i]), Hashed(h, u.deps[j])) {
      CollisionGrows(h, Hashed(h, t.deps[i]), Hashed(h, u.deps[j]), Hashed(h, t), Hashed(h, u));
    }
  }

  // One pair of matched dependencies.
  lemma DepDigestsEqual(h: Hash, t: Tree, i: nat, u: Tree, j: nat)
    requires i < |t.deps| && j < |u.deps|
    requires Strings(DepDigests(h, t))[i] == Strings(DepDigests(h, u))[j]
    ensures TreeDigest(h, t.deps[i]) == TreeDigest(h, u.deps[j])
  {
    ModuleDigestStringInjective(DepDigests(h, t)[i], DepDigests(h, u)[j]);
  }

  // Equal manifests of two sets of files: the files are equal too, unless two contents collide.
  lemma FilesFromEntries(h: Hash, a: seq<File>, b: seq<File>)
    requires multiset(Entries(h, a)) == multiset(Entries(h, b))
    ensures multiset(a) == multiset(b) || Collision(h, Contents(a), Contents(b))
  {
    var p := Matching(Entries(h, a), Entries(h, b));
    if !Collision(h, Contents(a), Contents(b)) {
      forall i | 0 <= i < |a|
        ensures a[i] == b[p[i]]
      {
        assert Entries(h, a)[i] == Entries(h, b)[p[i]];
        assert a[i].content in Contents(a) && b[p[i]].content in Contents(b);
        HashesApart(h, a[i].content, b[p[i]].content, Contents(a), Contents(b));
      }
      MatchedElements(a, b, p);
    }
  }

  // Equal serialized manifests of two sets of files.
  lemma FilesFromText(h: Hash, a: seq<File>, b: seq<File>)
    requires forall f :: f in a + b ==> NewlineFree(f.path)
    requires Serialize(Entries(h, a)) == Serialize(Entries(h, b))
    ensures multiset(a) == multiset(b) || Collision(h, Contents(a), Contents(b))
  {
    var ea, eb := Entries(h, a), Entries(h, b);
    forall e: Entry | e in ea + eb
      ensures NewlineFree(e.path)
    {
      if e in ea {
        var i :| 0 <= i < |ea| && ea[i] == e;
        assert a[i] in a + b;
      } else {
        var i :| 0 <= i < |eb| && eb[i] == e;
        assert b[i] in a + b;
      }
    }
    SerializeInjective(ea, eb);
    FilesFromEntries(h, a, b);
  }

  // The B4 digest commits to the files alone.
  lemma B4Commitment(h: Hash, a: seq<File>, b: seq<File>)
    requires forall f :: f in a + b ==> NewlineFree(f.path)
    requires ComputeB4(h, Entries(h, a)) == ComputeB4(h, Entries(h, b))
    ensures
      || multiset(a) == multiset(b)
      || Collision(h, Contents(a) + {Serialize(Entries(h, a))}, Contents(b) + {Serialize(Entries(h, b))})
  {
    var xs, ys := Contents(a) + {Serialize(Entries(h, a))}, Contents(b) + {Serialize(Entries(h, b))};
    HashesApart(h, Serialize(Entries(h, a)), Serialize(Entries(h, b)), xs, ys);
    if !Collision(h, xs, ys) {
      FilesFromText(h, a, b);
      if Collision(h, Contents(a), Contents(b)) {
        CollisionGrows(h, Contents(a), Contents(b), xs, ys);
      }
    }
  }

  // One level of the commitment: equal digests mean equal files and dependency digests that are equal
  // up to order, unless two strings hashed at this level collide.
  lemma OwnCommitment(h: Hash, t: Tree, u: Tree)
    requires forall f :: f in t.files + u.files ==> NewlineFree(f.path)
    requires TreeDigest(h, t) == TreeDigest(h, u)
    ensures
      || Collision(h, OwnHashed(h, t), OwnHashed(h, u))
      || (multiset(t.files) == multiset(u.files)
         && multiset(Strings(DepDigests(h, t))) == multiset(Strings(DepDigests(h, u))))
  {
    var xs, ys := OwnHashed(h, t), OwnHashed(h, u);
    var et, eu := Entries(h, t.files), Entries(h, u.files);
    OwnDigests(h, t, u);
    if !Collision(h, xs, ys) {
      HashesApart(h, Serialize(et), Serialize(eu), xs, ys);
      FilesFromText(h, t.files, u.files);
      if Collision(h, Contents(t.files), Contents(u.files)) {
        CollisionGrows(h, Contents(t.files), Contents(u.files), xs, ys);
      }
    }
  }

  // Whatever the paths: the files digest and, up to order, the dependency digests.
  lemma OwnDigests(h: Hash, t: Tree, u: Tree)
    requires TreeDigest(h, t) == TreeDigest(h, u)
    ensures
      || Collision(h, OwnHashed(h, t), OwnHashed(h, u))
      || (FilesDigest(h, Entries(h, t.files)) == FilesDigest(h, Entries(h, u.files))
          && multiset(Strings(DepDigests(h, t))) == multiset(Strings(DepDigests(h, u))))
  {
    var xs, ys := OwnHashed(h, t), OwnHashed(h, u);
    var ft, fu := FilesDigest(h, Entries(h, t.files)), FilesDigest(h, Entries(h, u.files));
    HashesApart(h, B5Input(ft, DepDigests(h, t)), B5Input(fu, DepDigests(h, u)), xs, ys);
    if !Collision(h, xs, ys) {
      B5InputInjective(ft, DepDigests(h, t), fu, DepDigests(h, u));
    }
  }

  // The commitment: two trees with the same B5 digest are the same tree, or two different strings
  // hashed on the way to the two digests have the same hash.
  lemma {:induction false} MerkleCommitment(h: Hash, t: Tree, u: Tree)
    requires NewlineFreeTree(t) && NewlineFreeTree(u)
    requires TreeDigest(h, t) == TreeDigest(h, u)
    ensures SameTree(t, u) || Collision(h, Hashed(h, t), Hashed(h, u))
    decreases t
  {
    OwnCommitment(h, t, u);
    if Collision(h, OwnHashed(h, t), OwnHashed(h, u)) {
      CollisionGrows(h, OwnHashed(h, t), OwnHashed(h, u), Hashed(h, t), Hashed(h, u));
    } else if !Collision(h, Hashed(h, t), Hashed(h, u)) {
      var p := Matching(Strings(DepDigests(h, t)), Strings(DepDigests(h, u)));
      forall i | 0 <= i < |t.deps|
        ensures SameTree(t.deps[i], u.deps[p[i]])
      {
        DepDigestsEqual(h, t, i, u, p[i]);
        MerkleCommitment(h, t.deps[i], u.deps[p[i]]);
        DepCollision(h, t, i, u, p[i]);
      }
    }
  }

  lemma EntriesFromFiles(h: Hash, a: seq<File>, b: seq<File>)
    requires multiset(a) == multiset(b)
    ensures multiset(Entries(h, a)) == multiset(Entries(h, b))
  {
    var p := Matching(a, b);
    MatchedElements(Entries(h, a), Entries(h, b), p);
  }

  // The other direction: the same tree, written down in any order, has the same digest.
  lemma {:induction false} SameTreeSameDigest(h: Hash, t: Tree, u: Tree)
    requires SameTree(t, u) && DistinctPathsTree(t)
    ensures TreeDigest(h, t) == TreeDigest(h, u)
    decreases t
  {
    var p :| IsMatching(p, |t.deps|) && forall i :: 0 <= i < |t.deps| ==> SameTree(t.deps[i], u.deps[p[i]]);
    forall i | 0 <= i < |t.deps|
      ensures TreeDigest(h, t.deps[i]) == TreeDigest(h, u.deps[p[i]])
    {
      SameTreeSameDigest(h, t.deps[i], u.deps[p[i]]);
    }
    MatchedElements(DepDigests(h, t), DepDigests(h, u), p);
    EntriesFromFiles(h, t.files, u.files);
    assert AllB5(DepDigests(h, t)) && AllB5(DepDigests(h, u));
    B5OrderInvariant(h, Entries(h, t.files), Entries(h, u.files), DepDigests(h, t), DepDigests(h, u));
  }
}
