/** What newlines in paths cost (internal/storage/manifest.go): manifests of different files with one text,
    and dependency trees with one B5 digest, without any hash collision. */
module Forgeries {
  import opened Ordering
  import opened Digests
  import opened Manifests
  import opened Merkle
  import opened Retrieval

  // ----- Sorting what is sorted -----

  lemma {:induction false} SortSorted(s: seq<Entry>)
    requires Sorted(s, PathOf)
    ensures Sort(s, PathOf) == s
  {
    hide Leq;
    if s != [] {
      SortedTail(s, PathOf);
      SortSorted(s[1..]);
      assert s == [s[0]] + s[1..];
      if |s| > 1 {
        assert Leq(s[0].path, s[1].path);
      }
    }
  }

  lemma {:induction false} PrefixLeq(a: string, b: string)
    ensures Leq(a, a + b)
  {
    if a != [] {
      PrefixLeq(a[1..], b);
      assert (a + b)[1..] == a[1..] + b;
    }
  }

  // ----- Two entries as one -----

  // What follows the path of an entry on the way to the end of the next one.
  function Tail(y: Entry): string {
    "\n" + (y.digest.String() + "  " + y.path)
  }

  function Joined(x: Entry, y: Entry): Entry {
    Entry(x.digest, x.path + Tail(y))
  }

  lemma JoinedLine(x: Entry, y: Entry)
    ensures Line(Joined(x, y)) == Line(x) + Line(y)
  {
    var d := x.digest.String() + "  ";
    var e := y.digest.String() + "  " + y.path;
    assert Line(Joined(x, y)) == d + (x.path + ("\n" + e)) + "\n";
    assert Line(x) == d + x.path + "\n" && Line(y) == e + "\n";
  }

  // The last two entries joined.
  function JoinLast(s: seq<Entry>): (r: seq<Entry>)
    requires |s| >= 2
    ensures |r| == |s| - 1
  {
    s[..|s| - 2] + [Joined(s[|s| - 2], s[|s| - 1])]
  }

  lemma JoinLastText(s: seq<Entry>)
    requires |s| >= 2
    ensures Text(JoinLast(s)) == Text(s)
  {
    hide Line, Text, Joined;
    var front, x, y := s[..|s| - 2], s[|s| - 2], s[|s| - 1];
    TextOfTwoMore(front, x, y);
    LastTwo(s, front, x, y);
  }

  lemma LastTwo(s: seq<Entry>, front: seq<Entry>, x: Entry, y: Entry)
    requires |s| >= 2 && front == s[..|s| - 2] && x == s[|s| - 2] && y == s[|s| - 1]
    ensures (front + [x]) + [y] == s
  {
  }

  lemma TextOfTwoMore(front: seq<Entry>, x: Entry, y: Entry)
    ensures Text(front + [Joined(x, y)]) == Text((front + [x]) + [y])
  {
    hide Line, Text, Joined;
    TextAppend(front + [x], y);
    TextAppend(front, x);
    TextAppend(front, Joined(x, y));
    JoinedLine(x, y);
  }

  lemma JoinLastSorted(s: seq<Entry>)
    requires |s| >= 2 && Sorted(s, PathOf)
    ensures Sorted(JoinLast(s), PathOf)
  {
    var n, r := |s|, JoinLast(s);
    PrefixLeq(s[n - 2].path, Tail(s[n - 1]));
    hide Leq, Tail;
    forall i | 0 <= i < n - 2
      ensures Leq(s[i].path, r[n - 2].path)
    {
      assert Leq(PathOf(s[i]), PathOf(s[n - 2]));
      LeqTransitive(s[i].path, s[n - 2].path, r[n - 2].path);
    }
  }

  // Every manifest of two or more entries is also the manifest of one entry fewer.
  lemma JoinedManifest(entries: seq<Entry>)
    requires |entries| >= 2
    ensures Serialize(JoinLast(Sort(entries, PathOf))) == Serialize(entries)
  {
    var s := Sort(entries, PathOf);
    JoinLastText(s);
    JoinLastSorted(s);
    SortSorted(JoinLast(s));
  }

  // ----- One entry as two -----

  // The path can be read as a smaller path and, after a newline, the line of an entry with a larger one.
  ghost predicate Splits(path: string) {
    exists a, d, q :: SplitsAt(path, a, d, q)
  }

  ghost predicate SplitsAt(path: string, a: string, d: Digest, q: string) {
    path == a + Tail(Entry(d, q)) && IsShake(d) && Leq(a, q)
  }

  lemma SplitManifest(e: Entry, a: string, d: Digest, q: string)
    requires SplitsAt(e.path, a, d, q)
    ensures Serialize([Entry(e.digest, a), Entry(d, q)]) == Serialize([e])
  {
    var x, y := Entry(e.digest, a), Entry(d, q);
    assert e == Joined(x, y);
    assert Sorted([x, y], PathOf);
    SortSorted([x, y]);
    SortSorted([e]);
    JoinLastText([x, y]);
    assert JoinLast([x, y]) == [e];
  }

  // All entries joined into one.
  function JoinAll(s: seq<Entry>): Entry
    requires s != []
  {
    if |s| == 1 then s[0] else Joined(s[0], JoinAll(s[1..]))
  }

  lemma {:induction false} JoinAllLine(s: seq<Entry>)
    requires s != []
    ensures Line(JoinAll(s)) == Text(s) && JoinAll(s).digest == s[0].digest && Leq(s[0].path, JoinAll(s).path)
  {
    hide Line, Joined, Leq;
    if |s| == 1 {
      assert s[1..] == [];
      PrefixLeq(s[0].path, "");
      assert s[0].path + "" == s[0].path;
    } else {
      JoinAllLine(s[1..]);
      JoinedLine(s[0], JoinAll(s[1..]));
      JoinedLeq(s[0], JoinAll(s[1..]));
    }
  }

  lemma JoinedLeq(x: Entry, y: Entry)
    ensures Joined(x, y).digest == x.digest && Leq(x.path, Joined(x, y).path)
  {
    PrefixLeq(x.path, Tail(y));
  }

  lemma LineInjective(x: Entry, y: Entry)
    requires IsShake(x.digest) && IsShake(y.digest) && Line(x) == Line(y)
    ensures x == y
  {
    ShakeStringShape(x.digest);
    ShakeStringShape(y.digest);
    assert Line(x)[..137] == x.digest.String() && Line(y)[..137] == y.digest.String();
    ShakeAlgorithm(x.digest);
    ShakeAlgorithm(y.digest);
    DigestStringInjective(x.digest, y.digest);
    assert Line(x)[139..|Line(x)| - 1] == x.path && Line(y)[139..|Line(y)| - 1] == y.path;
  }

  lemma SingleLine(e: Entry)
    ensures Text([e]) == Line(e) && Sort([e], PathOf) == [e]
  {
    hide Line;
    assert [e][1..] == [];
    SortSorted([e]);
  }

  // A single printed entry that is also the text of two or more sorted entries splits.
  lemma SharedTextSplits(e: Entry, s: seq<Entry>) returns (q: string)
    requires IsShake(e.digest) && AllShake(s) && Sorted(s, PathOf) && |s| >= 2 && Text(s) == Line(e)
    ensures SplitsAt(e.path, s[0].path, s[1].digest, q) && Splits(e.path)
  {
    hide Line, Text, Leq, Tail;
    JoinAllLine(s);
    JoinAllLine(s[1..]);
    assert s[0] in s && s[1] in s;
    LineInjective(e, JoinAll(s));
    var z := JoinAll(s[1..]);
    assert Leq(PathOf(s[0]), PathOf(s[1]));
    LeqTransitive(s[0].path, s[1].path, z.path);
    assert Entry(z.digest, z.path) == z;
    q := z.path;
    assert SplitsAt(e.path, s[0].path, s[1].digest, q);
  }

  // ----- Which manifests have their text to themselves -----

  // The text is the manifest of these entries and of no others.
  ghost predicate TextIsUnique(entries: seq<Entry>) {
    forall other :: AllShake(other) && Serialize(other) == Serialize(entries) ==> multiset(other) == multiset(entries)
  }

  ghost predicate OneWhole(entries: seq<Entry>) {
    entries == [] || (|entries| == 1 && !Splits(entries[0].path))
  }

  lemma SharesWithJoined(entries: seq<Entry>)
    requires AllShake(entries) && |entries| >= 2
    ensures !TextIsUnique(entries)
  {
    var s := Sort(entries, PathOf);
    SameElements(entries, s);
    JoinedManifest(entries);
    var other := JoinLast(s);
    hide Serialize, Sort, Joined;
    JoinedShake(s);
    assert |multiset(other)| == |other| && |multiset(entries)| == |entries|;
  }

  lemma JoinedShake(s: seq<Entry>)
    requires |s| >= 2 && AllShake(s)
    ensures AllShake(JoinLast(s))
  {
    assert s[|s| - 2] in s;
  }

  lemma SharesWithSplit(entries: seq<Entry>)
    requires AllShake(entries) && |entries| == 1 && Splits(entries[0].path)
    ensures !TextIsUnique(entries)
  {
    hide Serialize, SplitsAt;
    var e := entries[0];
    var a, d, q :| SplitsAt(e.path, a, d, q);
    assert entries == [e] && e in entries;
    SplitManifest(e, a, d, q);
    SplitShake(e, a, d, q);
    var other := [Entry(e.digest, a), Entry(d, q)];
    assert |multiset(other)| == 2 && |multiset(entries)| == 1;
  }

  lemma SplitShake(e: Entry, a: string, d: Digest, q: string)
    requires IsShake(e.digest) && SplitsAt(e.path, a, d, q)
    ensures AllShake([Entry(e.digest, a), Entry(d, q)])
  {
    hide Tail, Leq;
  }

  lemma WholeIsUnique(entries: seq<Entry>, other: seq<Entry>)
    requires AllShake(entries) && OneWhole(entries) && AllShake(other) && Serialize(other) == Serialize(entries)
    ensures multiset(other) == multiset(entries)
  {
    var s := Sort(other, PathOf);
    SameElements(other, s);
    if entries == [] {
      NoText(entries, s);
    } else {
      var e := entries[0];
      assert entries == [e] && e in entries;
      SingleLine(e);
      hide Sort, Line, SplitsAt;
      if |s| >= 2 {
        var q := SharedTextSplits(e, s);
      } else if |s| == 1 {
        assert s == [s[0]] && s[0] in s;
        SingleLine(s[0]);
        LineInjective(e, s[0]);
      } else {
        EmptyText(e);
      }
    }
  }

  lemma NoText(entries: seq<Entry>, s: seq<Entry>)
    requires entries == [] && Text(s) == Serialize(entries)
    ensures s == []
  {
    assert Serialize([]) == "";
  }

  lemma EmptyText(e: Entry)
    ensures Line(e) != Text([])
  {
  }

  /** A manifest has its text to itself exactly when it has no entries, or one whose path cannot be split. */
  lemma UniqueManifest(entries: seq<Entry>)
    requires AllShake(entries)
    ensures TextIsUnique(entries) <==> OneWhole(entries)
  {
    hide TextIsUnique, Splits;
    if |entries| >= 2 {
      SharesWithJoined(entries);
    } else if |entries| == 1 && Splits(entries[0].path) {
      SharesWithSplit(entries);
    } else {
      OnlyItself(entries);
    }
  }

  lemma OnlyItself(entries: seq<Entry>)
    requires AllShake(entries) && OneWhole(entries)
    ensures TextIsUnique(entries)
  {
    hide Serialize, OneWhole;
    forall other | AllShake(other) && Serialize(other) == Serialize(entries)
      ensures multiset(other) == multiset(entries)
    {
      WholeIsUnique(entries, other);
    }
  }

  // A path without a newline cannot be split.
  lemma PlainPathIsWhole(path: string)
    requires NewlineFree(path)
    ensures !Splits(path)
  {
    hide SplitsAt;
    if a, d, q :| SplitsAt(path, a, d, q) {
      SplitHasNewline(path, a, d, q);
    }
  }

  lemma SplitHasNewline(path: string, a: string, d: Digest, q: string)
    requires SplitsAt(path, a, d, q)
    ensures '\n' in path
  {
    assert path[|a|] == '\n';
  }

  // ----- Files -----

  // The last two files joined into one; its content is that of the first of the two.
  function JoinFiles(h: Hash, s: seq<File>): (r: seq<File>)
    requires |s| >= 2
    ensures |r| == |s| - 1
  {
    var x, y := s[|s| - 2], s[|s| - 1];
    s[..|s| - 2] + [File(x.path + Tail(EntryOf(h, y)), x.content)]
  }

  lemma JoinFilesEntries(h: Hash, s: seq<File>)
    requires |s| >= 2
    ensures Entries(h, JoinFiles(h, s)) == JoinLast(Entries(h, s))
  {
    hide Tail;
    var r, e := Entries(h, JoinFiles(h, s)), JoinLast(Entries(h, s));
    forall i | 0 <= i < |r|
      ensures r[i] == e[i]
    {
    }
  }

  lemma JoinFilesContents(h: Hash, s: seq<File>)
    requires |s| >= 2
    ensures Contents(JoinFiles(h, s)) <= Contents(s)
  {
    hide Tail;
    var r := JoinFiles(h, s);
    forall i | 0 <= i < |r|
      ensures r[i].content in Contents(s)
    {
      assert r[i].content == s[i].content;
    }
  }

  function TwinFiles(h: Hash, files: seq<File>): seq<File>
    requires |files| >= 2
  {
    JoinFiles(h, Sort(files, FilePath))
  }

  // Two or more files and one file fewer with the same manifest, and no new content.
  lemma TwinFilesAgree(h: Hash, files: seq<File>)
    requires |files| >= 2
    ensures |TwinFiles(h, files)| == |files| - 1 && Contents(TwinFiles(h, files)) <= Contents(files)
    ensures Serialize(Entries(h, TwinFiles(h, files))) == Serialize(Entries(h, files))
  {
    var s := Sort(files, FilePath);
    SortEntries(h, files);
    JoinFilesEntries(h, s);
    JoinFilesContents(h, s);
    SameElements(files, s);
    SortedContents(files, s);
    JoinedManifest(Entries(h, files));
  }

  // ----- Trees -----

  function Total(s: seq<nat>): nat {
    if s == [] then 0 else s[0] + Total(s[1..])
  }

  lemma {:induction false} TotalSplit(s: seq<nat>, k: nat)
    requires k < |s|
    ensures Total(s) == s[k] + Total(Without(s, k))
  {
    if k > 0 {
      TotalSplit(s[1..], k - 1);
      assert Without(s, k)[1..] == Without(s[1..], k - 1);
    } else {
      assert Without(s, k) == s[1..];
    }
  }

  lemma {:induction false} TotalPermuted(a: seq<nat>, b: seq<nat>)
    requires multiset(a) == multiset(b)
    ensures Total(a) == Total(b)
  {
    SameElements(a, b);
    if a != [] {
      assert a[0] in b;
      var k :| 0 <= k < |b| && b[k] == a[0];
      TailElements(a);
      WithoutElements(b, k);
      TotalPermuted(a[1..], Without(b, k));
      TotalSplit(b, k);
    }
  }

  // The number of files in a whole tree, module by module.
  function FileCount(t: Tree): nat {
    |t.files| + Total(DepCounts(t))
  }

  function DepCounts(t: Tree): (r: seq<nat>)
    ensures |r| == |t.deps|
    decreases t, 0
  {
    seq(|t.deps|, i requires 0 <= i < |t.deps| => FileCount(t.deps[i]))
  }

  lemma {:induction false} SameTreeSameCount(t: Tree, u: Tree)
    requires SameTree(t, u)
    ensures FileCount(t) == FileCount(u)
    decreases t
  {
    hide Total;
    var p :| IsMatching(p, |t.deps|) && forall i :: 0 <= i < |t.deps| ==> SameTree(t.deps[i], u.deps[p[i]]);
    forall i | 0 <= i < |t.deps|
      ensures DepCounts(t)[i] == DepCounts(u)[p[i]]
    {
      SameTreeSameCount(t.deps[i], u.deps[p[i]]);
    }
    MatchedElements(DepCounts(t), DepCounts(u), p);
    TotalPermuted(DepCounts(t), DepCounts(u));
    assert |multiset(t.files)| == |t.files| && |multiset(u.files)| == |u.files|;
  }

  // The same tree with other files of its own.
  lemma OtherFiles(h: Hash, t: Tree, files: seq<File>)
    requires Serialize(Entries(h, files)) == Serialize(Entries(h, t.files))
    ensures
      var u := Tree(files, t.deps);
      && TreeDigest(h, u) == TreeDigest(h, t) && FileCount(u) == FileCount(t) - |t.files| + |files|
      && Hashed(h, u) <= Hashed(h, t) + Contents(files)
  {
    var u := Tree(files, t.deps);
    hide Serialize, Total, B5Input;
    assert DepDigests(h, u) == DepDigests(h, t) && DepCounts(u) == DepCounts(t);
  }

  // The same tree with another tree for one of its dependencies.
  function WithDep(t: Tree, i: nat, v: Tree): Tree
    requires i < |t.deps|
  {
    Tree(t.files, t.deps[i := v])
  }

  lemma OtherDep(h: Hash, t: Tree, i: nat, v: Tree)
    requires i < |t.deps| && TreeDigest(h, v) == TreeDigest(h, t.deps[i])
    ensures
      var u := WithDep(t, i, v);
      && TreeDigest(h, u) == TreeDigest(h, t) && FileCount(u) == FileCount(t) - FileCount(t.deps[i]) + FileCount(v)
      && Hashed(h, u) <= Hashed(h, t) + Hashed(h, v)
  {
    OtherDepDigests(h, t, i, v);
    OtherDepCount(t, i, v);
    hide Hashed, DepDigests, FileCount, B5From;
    OtherDepHashed(h, t, i, v);
  }

  lemma OtherDepDigests(h: Hash, t: Tree, i: nat, v: Tree)
    requires i < |t.deps| && TreeDigest(h, v) == TreeDigest(h, t.deps[i])
    ensures DepDigests(h, WithDep(t, i, v)) == DepDigests(h, t)
  {
    hide TreeDigest;
  }

  lemma OtherDepCount(t: Tree, i: nat, v: Tree)
    requires i < |t.deps|
    ensures FileCount(WithDep(t, i, v)) == FileCount(t) - FileCount(t.deps[i]) + FileCount(v)
  {
    var u := WithDep(t, i, v);
    hide Total, Without;
    TotalSplit(DepCounts(t), i);
    TotalSplit(DepCounts(u), i);
    OtherCounts(t, i, v);
  }

  lemma OtherCounts(t: Tree, i: nat, v: Tree)
    requires i < |t.deps|
    ensures Without(DepCounts(WithDep(t, i, v)), i) == Without(DepCounts(t), i)
  {
    hide FileCount;
  }

  lemma OtherDepHashed(h: Hash, t: Tree, i: nat, v: Tree)
    requires i < |t.deps| && DepDigests(h, WithDep(t, i, v)) == DepDigests(h, t)
    ensures Hashed(h, WithDep(t, i, v)) <= Hashed(h, t) + Hashed(h, v)
  {
    var u := WithDep(t, i, v);
    hide Serialize, B5Input, FilesDigest, Entries;
    forall x | x in Hashed(h, u)
      ensures x in Hashed(h, t) + Hashed(h, v)
    {
      if x !in OwnHashed(h, u) {
        var j :| 0 <= j < |u.deps| && x in Hashed(h, u.deps[j]);
        assert j != i ==> u.deps[j] == t.deps[j];
      }
    }
  }

  // Some module of the tree has two or more files.
  ghost predicate HasMany(t: Tree) {
    |t.files| >= 2 || exists i :: 0 <= i < |t.deps| && HasMany(t.deps[i])
  }

  /** Every tree in which some module has two or more files has a twin: a different tree, of one file less,
      with the same B5 digest, for which nothing is hashed that is not hashed for the tree itself. */
  lemma {:induction false} TwinTree(h: Hash, t: Tree) returns (u: Tree)
    requires HasMany(t)
    ensures TreeDigest(h, u) == TreeDigest(h, t) && !SameTree(t, u) && Hashed(h, u) <= Hashed(h, t)
    ensures FileCount(u) == FileCount(t) - 1
    decreases t
  {
    hide TreeDigest, SameTree, FileCount, Serialize, Hashed, TwinFiles;
    if |t.files| >= 2 {
      var files := TwinFiles(h, t.files);
      TwinFilesAgree(h, t.files);
      OtherFiles(h, t, files);
      OwnContents(h, t);
      u := Tree(files, t.deps);
    } else {
      var i :| 0 <= i < |t.deps| && HasMany(t.deps[i]);
      var v := TwinTree(h, t.deps[i]);
      OtherDep(h, t, i, v);
      DepHashed(h, t, i);
      u := WithDep(t, i, v);
    }
    if SameTree(t, u) {
      SameTreeSameCount(t, u);
    }
  }

  lemma OwnContents(h: Hash, t: Tree)
    ensures Contents(t.files) <= Hashed(h, t)
  {
  }

  lemma DepHashed(h: Hash, t: Tree, i: nat)
    requires i < |t.deps|
    ensures Hashed(h, t.deps[i]) <= Hashed(h, t)
  {
  }

  // ----- Exactly which trees are committed to -----

  // The path can be read as two entries, the second of a content that collides with nothing known.
  ghost predicate Forges(h: Hash, known: set<string>, path: string) {
    exists a, c, q :: ForgesAt(h, known, path, a, c, q)
  }

  ghost predicate ForgesAt(h: Hash, known: set<string>, path: string, a: string, c: string, q: string) {
    SplitsAt(path, a, SumOf(h, c), q) && !Collision(h, known, known + {c})
  }

  ghost predicate SafeFiles(h: Hash, known: set<string>, files: seq<File>) {
    files == [] || (|files| == 1 && !Forges(h, known, files[0].path))
  }

  // Every module of the tree has at most one file, and no path forges another.
  ghost predicate SafeTree(h: Hash, known: set<string>, t: Tree) {
    SafeFiles(h, known, t.files) && forall i :: 0 <= i < |t.deps| ==> SafeTree(h, known, t.deps[i])
  }

  lemma SafeFilesAgree(h: Hash, xs: set<string>, ys: set<string>, a: seq<File>, b: seq<File>)
    requires SafeFiles(h, xs, a) && !Collision(h, xs, xs) && Contents(a) <= xs && Contents(b) <= ys
    requires Serialize(Entries(h, a)) == Serialize(Entries(h, b))
    ensures multiset(a) == multiset(b) || Collision(h, xs, ys)
  {
    var ea, eb := Entries(h, a), Entries(h, b);
    if |b| >= 2 {
      ManyIsForged(h, xs, ys, a, b);
    } else {
      AtMostOne(ea, eb);
      FilesFromEntries(h, a, b);
      if Collision(h, Contents(a), Contents(b)) {
        CollisionGrows(h, Contents(a), Contents(b), xs, ys);
      }
    }
  }

  lemma AtMostOne(a: seq<Entry>, b: seq<Entry>)
    requires AllShake(a) && AllShake(b) && |a| <= 1 && |b| <= 1 && Serialize(a) == Serialize(b)
    ensures a == b
  {
    hide Line;
    if a != [] {
      assert a == [a[0]] && a[0] in a;
      SingleLine(a[0]);
      EmptyText(a[0]);
    }
    if b != [] {
      assert b == [b[0]] && b[0] in b;
      SingleLine(b[0]);
      EmptyText(b[0]);
    }
    if a != [] && b != [] {
      LineInjective(a[0], b[0]);
    }
  }

  lemma ManyIsForged(h: Hash, xs: set<string>, ys: set<string>, a: seq<File>, b: seq<File>)
    requires SafeFiles(h, xs, a) && !Collision(h, xs, xs) && Contents(b) <= ys && |b| >= 2
    requires Serialize(Entries(h, a)) == Serialize(Entries(h, b))
    ensures Collision(h, xs, ys)
  {
    var s := Sort(Entries(h, b), PathOf);
    SameElements(s, Entries(h, b));
    hide Line, Text, Sort, SplitsAt, Collision;
    SomeText(s);
    if a == [] {
      NoEntriesText();
    } else {
      var e := Entries(h, a)[0];
      assert Entries(h, a) == [e];
      SingleLine(e);
      var q := SharedTextSplits(e, s);
      assert s[1] in Entries(h, b);
      var k :| 0 <= k < |b| && Entries(h, b)[k] == s[1];
      var c := b[k].content;
      assert !ForgesAt(h, xs, a[0].path, s[0].path, c, q);
      NewCollision(h, xs, ys, c);
    }
  }

  lemma NoEntriesText()
    ensures Serialize([]) == ""
  {
  }

  lemma SomeText(s: seq<Entry>)
    requires s != []
    ensures Text(s) != ""
  {
  }

  lemma NewCollision(h: Hash, xs: set<string>, ys: set<string>, c: string)
    requires Collision(h, xs, xs + {c}) && !Collision(h, xs, xs) && c in ys
    ensures Collision(h, xs, ys)
  {
    var x, y :| x in xs && y in xs + {c} && x != y && h(x) == h(y);
    assert y == c;
  }

  /** A safe tree is committed to by its digest, whatever the paths of the other tree. */
  lemma {:induction false} SafeCommitment(h: Hash, xs: set<string>, ys: set<string>, t: Tree, u: Tree)
    requires SafeTree(h, xs, t) && !Collision(h, xs, xs) && Hashed(h, t) <= xs && Hashed(h, u) <= ys
    requires TreeDigest(h, t) == TreeDigest(h, u)
    ensures SameTree(t, u) || Collision(h, xs, ys)
    decreases t
  {
    hide Collision, SafeFiles, Serialize, B5Input, FilesDigest, TreeDigest;
    OwnDigests(h, t, u);
    OwnPart(h, t);
    OwnPart(h, u);
    if Collision(h, OwnHashed(h, t), OwnHashed(h, u)) {
      CollisionGrows(h, OwnHashed(h, t), OwnHashed(h, u), xs, ys);
    } else if !Collision(h, xs, ys) {
      SameTexts(h, xs, ys, t, u);
      SafeFilesAgree(h, xs, ys, t.files, u.files);
      StringsLength(DepDigests(h, t), DepDigests(h, u));
      var p := Matching(Strings(DepDigests(h, t)), Strings(DepDigests(h, u)));
      forall i | 0 <= i < |t.deps|
        ensures SameTree(t.deps[i], u.deps[p[i]])
      {
        DepDigestsEqual(h, t, i, u, p[i]);
        DepHashed(h, t, i);
        DepHashed(h, u, p[i]);
        SafeCommitment(h, xs, ys, t.deps[i], u.deps[p[i]]);
      }
    }
  }

  lemma OwnPart(h: Hash, t: Tree)
    ensures OwnHashed(h, t) <= Hashed(h, t) && Contents(t.files) <= Hashed(h, t)
  {
  }

  lemma SameTexts(h: Hash, xs: set<string>, ys: set<string>, t: Tree, u: Tree)
    requires FilesDigest(h, Entries(h, t.files)) == FilesDigest(h, Entries(h, u.files)) && !Collision(h, xs, ys)
    requires OwnHashed(h, t) <= xs && OwnHashed(h, u) <= ys
    ensures Serialize(Entries(h, t.files)) == Serialize(Entries(h, u.files))
  {
    hide Serialize, B5Input;
    HashesApart(h, Serialize(Entries(h, t.files)), Serialize(Entries(h, u.files)), xs, ys);
  }

  // A tree that is not safe has a twin that collides with nothing known.
  lemma {:induction false} ForgedTwin(h: Hash, known: set<string>, t: Tree) returns (u: Tree)
    requires !SafeTree(h, known, t) && Hashed(h, t) <= known && !Collision(h, known, known)
    ensures TreeDigest(h, u) == TreeDigest(h, t) && FileCount(u) != FileCount(t) && !Collision(h, known, Hashed(h, u))
    decreases t
  {
    hide TreeDigest, FileCount, Serialize, Hashed, TwinFiles, Collision, Forges;
    if !SafeFiles(h, known, t.files) {
      OwnPart(h, t);
      var files := ForgedFiles(h, known, t.files);
      OtherFiles(h, t, files);
      u := Tree(files, t.deps);
      if Collision(h, known, Hashed(h, u)) {
        CollisionGrows(h, known, Hashed(h, u), known, known + Contents(files));
      }
    } else {
      var i :| 0 <= i < |t.deps| && !SafeTree(h, known, t.deps[i]);
      DepHashed(h, t, i);
      var v := ForgedTwin(h, known, t.deps[i]);
      OtherDep(h, t, i, v);
      u := WithDep(t, i, v);
      NoCollisionInEither(h, known, Hashed(h, v), Hashed(h, u));
    }
  }

  lemma NoCollisionInEither(h: Hash, known: set<string>, more: set<string>, all: set<string>)
    requires !Collision(h, known, known) && !Collision(h, known, more) && all <= known + more
    ensures !Collision(h, known, all)
  {
  }

  lemma ForgedFiles(h: Hash, known: set<string>, files: seq<File>) returns (other: seq<File>)
    requires !SafeFiles(h, known, files) && Contents(files) <= known && !Collision(h, known, known)
    ensures Serialize(Entries(h, other)) == Serialize(Entries(h, files)) && |other| != |files|
    ensures !Collision(h, known, known + Contents(other))
  {
    hide Serialize, TwinFiles, ForgesAt;
    if |files| >= 2 {
      other := TwinFiles(h, files);
      TwinFilesAgree(h, files);
      assert known + Contents(other) == known;
    } else {
      var a, c, q :| ForgesAt(h, known, files[0].path, a, c, q);
      other := SplitFiles(h, known, files, a, c, q);
    }
  }

  lemma SplitFiles(h: Hash, known: set<string>, files: seq<File>, a: string, c: string, q: string)
    returns (other: seq<File>)
    requires |files| == 1 && ForgesAt(h, known, files[0].path, a, c, q) && Contents(files) <= known
    ensures Serialize(Entries(h, other)) == Serialize(Entries(h, files)) && |other| == 2
    ensures !Collision(h, known, known + Contents(other))
  {
    var f := files[0];
    assert files == [f];
    other := [File(a, f.content), File(q, c)];
    SplitManifest(EntryOf(h, f), a, SumOf(h, c), q);
    hide Serialize, SplitsAt, Collision;
    assert Entries(h, files) == [EntryOf(h, f)];
    assert Entries(h, other) == [Entry(EntryOf(h, f).digest, a), Entry(SumOf(h, c), q)];
    assert f.content in Contents(files);
    assert known + Contents(other) == known + {c};
  }

  // Every tree with the digest of `t` is `t`, up to order, or a collision is at hand.
  ghost predicate Committed(h: Hash, t: Tree) {
    forall u :: TreeDigest(h, u) == TreeDigest(h, t) ==> SameTree(t, u) || Collision(h, Hashed(h, t), Hashed(h, u))
  }

  /** The B5 digest commits to a tree exactly when every module in it has at most one file and no path in
      it forges a second one - for every hash, when no two strings hashed for the tree itself collide. */
  lemma CommittedExactly(h: Hash, t: Tree)
    requires !Collision(h, Hashed(h, t), Hashed(h, t))
    ensures Committed(h, t) <==> SafeTree(h, Hashed(h, t), t)
  {
    hide SafeTree, TreeDigest, SameTree, Hashed, Collision, FileCount;
    if SafeTree(h, Hashed(h, t), t) {
      forall u | TreeDigest(h, u) == TreeDigest(h, t)
        ensures SameTree(t, u) || Collision(h, Hashed(h, t), Hashed(h, u))
      {
        SafeCommitment(h, Hashed(h, t), Hashed(h, u), t, u);
      }
    } else {
      var u := ForgedTwin(h, Hashed(h, t), t);
      if SameTree(t, u) {
        SameTreeSameCount(t, u);
      }
    }
  }

  // For trees without newlines in paths, that is: exactly when no module has two files.
  lemma {:induction false} PlainTreeSafe(h: Hash, known: set<string>, t: Tree)
    requires NewlineFreeTree(t)
    ensures SafeTree(h, known, t) <==> !HasMany(t)
    decreases t
  {
    hide Forges;
    if |t.files| == 1 {
      assert t.files[0] in t.files;
      PlainPathForgesNothing(h, known, t.files[0].path);
    }
    forall i | 0 <= i < |t.deps|
      ensures SafeTree(h, known, t.deps[i]) <==> !HasMany(t.deps[i])
    {
      PlainTreeSafe(h, known, t.deps[i]);
    }
  }

  lemma PlainPathForgesNothing(h: Hash, known: set<string>, path: string)
    requires NewlineFree(path)
    ensures !Forges(h, known, path)
  {
    hide SplitsAt, Collision;
    PlainPathIsWhole(path);
    if a, c, q :| ForgesAt(h, known, path, a, c, q) {
      ForgedSplits(h, known, path, a, c, q);
    }
  }

  lemma ForgedSplits(h: Hash, known: set<string>, path: string, a: string, c: string, q: string)
    requires ForgesAt(h, known, path, a, c, q)
    ensures Splits(path)
  {
    hide SplitsAt, Collision;
  }

  // ----- An example without any collision -----

  // With a newline in a path the commitment fails without any collision: one file with that path and two
  // files without have the same B5 digest.
  function ForgingTree(h: Hash, x: string, y: string): Tree {
    Tree([File(ForgingPath(SumOf(h, y)), x)], [])
  }

  function ForgedTree(x: string, y: string): Tree {
    Tree([File("a", x), File("b", y)], [])
  }

  lemma NewlineBreaksCommitment(h: Hash, x: string, y: string)
    ensures TreeDigest(h, ForgingTree(h, x, y)) == TreeDigest(h, ForgedTree(x, y))
    ensures !SameTree(ForgingTree(h, x, y), ForgedTree(x, y))
    ensures Hashed(h, ForgingTree(h, x, y)) <= Hashed(h, ForgedTree(x, y))
  {
    var t, u := ForgingTree(h, x, y), ForgedTree(x, y);
    var d, other := SumOf(h, x), SumOf(h, y);
    assert Entries(h, t.files) == [Entry(d, ForgingPath(other))];
    assert Entries(h, u.files) == [Entry(d, "a"), Entry(other, "b")];
    NewlineSharesText(d, other);
    hide Serialize, ForgingPath, B5Input;
    assert DepDigests(h, t) == DepDigests(h, u) == [];
    assert |multiset(t.files)| == 1 && |multiset(u.files)| == 2;
    assert u.files[0].content in Contents(u.files);
  }

  function Fill(b: byte): Sum {
    seq(64, _ => b)
  }

  // A hash that tells the strings of the example apart: the two contents, the manifest and the B5 input.
  function Telling(): Hash {
    (s: string) =>
      if s == "" then Fill(0) else if s == "y" then Fill(1) else if s[|s| - 1] == '\n' then Fill(2) else Fill(3)
  }

  lemma ForgedStrings(x: string)
    requires x in Hashed(Telling(), ForgedTree("", "y"))
    ensures
      var entries := Entries(Telling(), ForgedTree("", "y").files);
      x == "" || x == "y" || x == Serialize(entries) || x == B5Input(FilesDigest(Telling(), entries), [])
  {
    var t := ForgedTree("", "y");
    hide Serialize, B5Input, FilesDigest, Telling, Entries;
    assert DepDigests(Telling(), t) == [];
  }

  lemma NewlineNeedsNoCollision()
    ensures !Collision(Telling(), Hashed(Telling(), ForgingTree(Telling(), "", "y")),
      Hashed(Telling(), ForgedTree("", "y")))
  {
    var h, u := Telling(), ForgedTree("", "y");
    var entries := Entries(h, u.files);
    NewlineBreaksCommitment(h, "", "y");
    ManifestEnds(entries);
    InputEnds(FilesDigest(h, entries));
    hide Hashed, ForgingTree, ForgedTree, Serialize, B5Input, FilesDigest, TreeDigest;
    FillApart();
    forall a, b | a in Hashed(h, u) && b in Hashed(h, u) && h(a) == h(b)
      ensures a == b
    {
      ForgedStrings(a);
      ForgedStrings(b);
    }
  }

  lemma FillApart()
    ensures Fill(0) != Fill(1) && Fill(0) != Fill(2) && Fill(0) != Fill(3) && Fill(1) != Fill(2) && Fill(1) != Fill(3)
    ensures Fill(2) != Fill(3)
  {
    assert Fill(0)[0] == 0 && Fill(1)[0] == 1 && Fill(2)[0] == 2 && Fill(3)[0] == 3;
  }

  lemma ManifestEnds(entries: seq<Entry>)
    requires entries != []
    ensures var text := Serialize(entries); |text| > 1 && text[|text| - 1] == '\n'
  {
    TextEnds(Sort(entries, PathOf));
  }

  lemma {:induction false} TextEnds(entries: seq<Entry>)
    requires entries != []
    ensures var text := Text(entries); |text| > 1 && text[|text| - 1] == '\n'
  {
    if entries[1..] != [] {
      TextEnds(entries[1..]);
    }
  }

  lemma InputEnds(d: Digest)
    requires IsShake(d)
    ensures var input := B5Input(d, []); |input| > 1 && input[|input| - 1] != '\n'
  {
    ShakeStringShape(d);
    assert Sort(Strings([]), Self) == [];
    assert B5Input(d, []) == d.String();
    var s := d.String();
    assert s[|s| - 1] in s;
  }
}
