/** The byte order on strings that Go's `<`, `sort.Strings` and `sort.Slice` use, sorting by a string
    key, and the matching of two sequences that hold the same elements. A Go string is a sequence of
    bytes: here each `char` stands for one byte. */
module Ordering {

  predicate Leq(a: string, b: string) {
    a == [] || (b != [] && (a[0] < b[0] || (a[0] == b[0] && Leq(a[1..], b[1..]))))
  }

  // At position `k` the strings differ for the first time, and `a` has the smaller byte there.
  ghost predicate SmallerAt(a: string, b: string, k: nat) {
    k < |a| && k < |b| && a[..k] == b[..k] && a[k] < b[k]
  }

  // The order of strings by their bytes: a string comes before all it is a prefix of, and otherwise the
  // first difference decides.
  ghost predicate InByteOrder(a: string, b: string) {
    a <= b || exists k: nat :: SmallerAt(a, b, k)
  }

  lemma {:induction false} LeqIsByteOrder(a: string, b: string)
    ensures Leq(a, b) <==> InByteOrder(a, b)
  {
    if a != [] && b != [] {
      LeqIsByteOrder(a[1..], b[1..]);
      if a[0] < b[0] {
        assert SmallerAt(a, b, 0);
      } else if a[0] == b[0] {
        SameFirst(a, b);
      } else {
        LargerFirst(a, b);
      }
    }
  }

  // A first character in common decides nothing.
  lemma SameFirst(a: string, b: string)
    requires a != [] && b != [] && a[0] == b[0]
    ensures InByteOrder(a, b) <==> InByteOrder(a[1..], b[1..])
  {
    assert a == [a[0]] + a[1..] && b == [b[0]] + b[1..];
    if k: nat :| SmallerAt(a[1..], b[1..], k) {
      assert a[..k + 1] == [a[0]] + a[1..][..k] && b[..k + 1] == [b[0]] + b[1..][..k];
      assert SmallerAt(a, b, k + 1);
    }
    if k: nat :| SmallerAt(a, b, k) {
      assert k > 0;
      assert a[1..][..k - 1] == a[..k][1..] && b[1..][..k - 1] == b[..k][1..];
      assert SmallerAt(a[1..], b[1..], k - 1);
    }
  }

  lemma PrefixFirst(a: string, b: string, k: nat)
    requires SmallerAt(a, b, k)
    ensures a[0] <= b[0]
  {
    if k > 0 {
      assert a[..k][0] == b[..k][0];
    }
  }

  lemma LargerFirst(a: string, b: string)
    requires a != [] && b != [] && a[0] > b[0]
    ensures !InByteOrder(a, b)
  {
    if k: nat :| SmallerAt(a, b, k) {
      PrefixFirst(a, b, k);
    }
  }

  lemma LeqTotal(a: string, b: string)
    ensures Leq(a, b) || Leq(b, a)
  {
  }

  lemma LeqTransitive(a: string, b: string, c: string)
    requires Leq(a, b) && Leq(b, c)
    ensures Leq(a, c)
  {
  }

  lemma LeqAntisymmetric(a: string, b: string)
    requires Leq(a, b) && Leq(b, a)
    ensures a == b
  {
    if a != [] {
      LeqAntisymmetric(a[1..], b[1..]);
      assert a == [a[0]] + a[1..] && b == [b[0]] + b[1..];
    }
  }

  ghost predicate Sorted<T(!new)>(s: seq<T>, key: T -> string) {
    forall i, j :: 0 <= i < j < |s| ==> Leq(key(s[i]), key(s[j]))
  }

  // No element comes after one with a larger key.
  ghost predicate Ascending<T(!new)>(s: seq<T>, key: T -> string) {
    forall i, j :: 0 <= i < j < |s| ==> InByteOrder(key(s[i]), key(s[j]))
  }

  lemma SortedIsAscending<T(!new)>(s: seq<T>, key: T -> string)
    ensures Sorted(s, key) <==> Ascending(s, key)
  {
    hide Leq, InByteOrder;
    forall i, j | 0 <= i < j < |s|
      ensures Leq(key(s[i]), key(s[j])) <==> InByteOrder(key(s[i]), key(s[j]))
    {
      LeqIsByteOrder(key(s[i]), key(s[j]));
    }
  }

  // No two different elements share a key, so that the order of a sorted sequence is determined.
  ghost predicate KeyInjective<T(!new)>(s: seq<T>, key: T -> string) {
    forall x, y :: x in s && y in s && key(x) == key(y) ==> x == y
  }

  function Insert<T(!new)>(x: T, s: seq<T>, key: T -> string): (r: seq<T>)
    ensures multiset(r) == multiset{x} + multiset(s)
    ensures Sorted(s, key) ==> Sorted(r, key)
  {
    if s == [] then [x]
    else if Leq(key(x), key(s[0])) then
      SortedCons(x, s, key);
      [x] + s
    else
      var rest := Insert(x, s[1..], key);
      assert s == [s[0]] + s[1..];
      SortedConsLater(x, s, rest, key);
      [s[0]] + rest
  }

  lemma SortedCons<T(!new)>(x: T, s: seq<T>, key: T -> string)
    requires s != [] && Leq(key(x), key(s[0]))
    ensures Sorted(s, key) ==> Sorted([x] + s, key)
  {
    hide Leq;
    forall i | Sorted(s, key) && 0 < i < |s|
      ensures Leq(key(x), key(s[i]))
    {
      LeqTransitive(key(x), key(s[0]), key(s[i]));
    }
  }

  lemma SortedConsLater<T(!new)>(x: T, s: seq<T>, rest: seq<T>, key: T -> string)
    requires s != [] && !Leq(key(x), key(s[0])) && multiset(rest) == multiset{x} + multiset(s[1..])
    requires Sorted(s[1..], key) ==> Sorted(rest, key)
    ensures Sorted(s, key) ==> Sorted([s[0]] + rest, key)
  {
    hide Leq;
    LeqTotal(key(x), key(s[0]));
    if Sorted(s, key) {
      SortedTail(s, key);
      forall y | y in rest
        ensures Leq(key(s[0]), key(y))
      {
        assert y in multiset(rest);
        if y != x {
          assert y in s[1..];
          var i :| 0 <= i < |s| - 1 && s[1..][i] == y;
          assert s[i + 1] == y;
        }
      }
      var all := [s[0]] + rest;
      forall i, j | 0 <= i < j < |all|
        ensures Leq(key(all[i]), key(all[j]))
      {
        assert all[j] == rest[j - 1] && rest[j - 1] in rest;
      }
    }
  }

  // A sort that keeps equal keys in their given order.
  function Sort<T(!new)>(s: seq<T>, key: T -> string): (r: seq<T>)
    ensures multiset(r) == multiset(s) && |r| == |s|
    ensures Sorted(r, key)
  {
    if s == [] then []
    else
      assert s == [s[0]] + s[1..];
      assert |Insert(s[0], Sort(s[1..], key), key)| == |multiset(Insert(s[0], Sort(s[1..], key), key))| ==
        |multiset(s)|;
      Insert(s[0], Sort(s[1..], key), key)
  }

  lemma SameElements<T>(a: seq<T>, b: seq<T>)
    requires multiset(a) == multiset(b)
    ensures |a| == |b|
    ensures forall x :: x in a <==> x in b
  {
    assert |a| == |multiset(a)| && |b| == |multiset(b)|;
    assert forall x :: x in a <==> x in multiset(a);
    assert forall x :: x in b <==> x in multiset(b);
  }

  lemma SortedHead<T(!new)>(a: seq<T>, x: T, key: T -> string)
    requires Sorted(a, key) && x in a
    ensures Leq(key(a[0]), key(x))
  {
    LeqTotal(key(x), key(x));
  }

  lemma TailElements<T>(a: seq<T>)
    requires a != []
    ensures multiset(a[1..]) == multiset(a) - multiset{a[0]}
    ensures forall x :: x in a[1..] ==> x in a
  {
    assert a == [a[0]] + a[1..];
  }

  lemma SortedTail<T(!new)>(a: seq<T>, key: T -> string)
    requires a != [] && Sorted(a, key)
    ensures Sorted(a[1..], key)
  {
    hide Leq;
  }

  // Whatever algorithm sorts the elements, stable or not, the outcome is the same.
  lemma {:induction false} SortedUnique<T(!new)>(a: seq<T>, b: seq<T>, key: T -> string)
    requires multiset(a) == multiset(b)
    requires Sorted(a, key) && Sorted(b, key) && KeyInjective(a, key)
    ensures a == b
  {
    hide Sorted, KeyInjective;
    SameElements(a, b);
    if a != [] {
      SameHead(a, b, key);
      SortedTail(a, key);
      SortedTail(b, key);
      SortedUnique(a[1..], b[1..], key);
      assert a == [a[0]] + a[1..] && b == [b[0]] + b[1..];
    }
  }

  lemma SameHead<T(!new)>(a: seq<T>, b: seq<T>, key: T -> string)
    requires multiset(a) == multiset(b) && a != [] && b != []
    requires Sorted(a, key) && Sorted(b, key) && KeyInjective(a, key)
    ensures a[0] == b[0] && multiset(a[1..]) == multiset(b[1..]) && KeyInjective(a[1..], key)
  {
    SameElements(a, b);
    SortedHead(a, b[0], key);
    SortedHead(b, a[0], key);
    hide Sorted, Leq;
    LeqAntisymmetric(key(a[0]), key(b[0]));
    TailElements(a);
    TailElements(b);
  }

  // Sorting forgets the order the elements were given in.
  lemma SortCanonical<T(!new)>(a: seq<T>, b: seq<T>, key: T -> string)
    requires multiset(a) == multiset(b) && KeyInjective(a, key)
    ensures Sort(a, key) == Sort(b, key)
  {
    SameElements(a, Sort(a, key));
    SortedUnique(Sort(a, key), Sort(b, key), key);
  }

  function Self(s: string): string { s }

  lemma SortStringsCanonical(a: seq<string>, b: seq<string>)
    requires multiset(a) == multiset(b)
    ensures Sort(a, Self) == Sort(b, Self)
  {
    SortCanonical(a, b, Self);
  }

  // `p` matches the positions of a sequence of length `n` one to one with those of another.
  ghost predicate IsMatching(p: seq<nat>, n: nat) {
    |p| == n && (forall i :: 0 <= i < n ==> p[i] < n) && (forall i, j :: 0 <= i < j < n ==> p[i] != p[j])
  }

  function Without<T>(s: seq<T>, k: nat): (r: seq<T>)
    requires k < |s|
  {
    s[..k] + s[k + 1..]
  }

  lemma WithoutElements<T>(s: seq<T>, k: nat)
    requires k < |s|
    ensures multiset(Without(s, k)) == multiset(s) - multiset{s[k]}
  {
    assert s == s[..k] + [s[k]] + s[k + 1..];
    assert multiset(s) == multiset(s[..k]) + multiset{s[k]} + multiset(s[k + 1..]);
  }

  // Where position `i` of `Without(s, k)` lies in `s`.
  function Skip(k: nat, i: nat): nat {
    if i < k then i else i + 1
  }

  // Two sequences with the same elements, counted, match position by position.
  lemma {:induction false} Matching<T>(a: seq<T>, b: seq<T>) returns (p: seq<nat>)
    requires multiset(a) == multiset(b)
    ensures IsMatching(p, |a|) && |a| == |b|
    ensures forall i :: 0 <= i < |a| ==> a[i] == b[p[i]]
  {
    SameElements(a, b);
    if a == [] {
      p := [];
    } else {
      assert a[0] in b;
      var k :| 0 <= k < |b| && b[k] == a[0];
      TailElements(a);
      WithoutElements(b, k);
      var q := Matching(a[1..], Without(b, k));
      p := WithPair(k, q);
      MatchesWithPair(a, b, k, q);
    }
  }

  // A matching of the rest, and before it the pair of position 0 and `k`.
  function WithPair(k: nat, q: seq<nat>): (p: seq<nat>)
    ensures |p| == |q| + 1 && p[0] == k && forall i :: 0 <= i < |q| ==> p[i + 1] == Skip(k, q[i])
  {
    [k] + seq(|q|, i requires 0 <= i < |q| => Skip(k, q[i]))
  }

  lemma MatchesWithPair<T>(a: seq<T>, b: seq<T>, k: nat, q: seq<nat>)
    requires a != [] && |a| == |b| && k < |b| && a[0] == b[k] && IsMatching(q, |a| - 1)
    requires forall i :: 0 <= i < |q| ==> a[1..][i] == Without(b, k)[q[i]]
    ensures IsMatching(WithPair(k, q), |a|) && forall i :: 0 <= i < |a| ==> a[i] == b[WithPair(k, q)[i]]
  {
    hide WithPair;
    var p := WithPair(k, q);
    forall i | 0 < i < |a|
      ensures p[i] == Skip(k, q[i - 1]) && a[i] == b[p[i]]
    {
      assert p[i - 1 + 1] == Skip(k, q[i - 1]);
      assert a[1..][i - 1] == a[i];
    }
  }

  function Unskip(k: nat, i: nat): nat
    requires i != k
  {
    if i < k then i else i - 1
  }

  // A matching without its first pair.
  function RestMatching(p: seq<nat>): (q: seq<nat>)
    requires p != [] && IsMatching(p, |p|)
    ensures IsMatching(q, |p| - 1)
    ensures forall i :: 0 <= i < |q| ==> p[i + 1] == Skip(p[0], q[i])
  {
    assert forall i :: 0 < i < |p| ==> p[0] != p[i];
    seq(|p| - 1, i requires 0 <= i < |p| - 1 => Unskip(p[0], p[i + 1]))
  }

  // A position-by-position matching makes the elements, counted, the same.
  lemma {:induction false} MatchedElements<T>(a: seq<T>, b: seq<T>, p: seq<nat>)
    requires |a| == |b| && IsMatching(p, |a|)
    requires forall i :: 0 <= i < |a| ==> a[i] == b[p[i]]
    ensures multiset(a) == multiset(b)
  {
    if a != [] {
      var k, q := p[0], RestMatching(p);
      forall i | 0 <= i < |a| - 1
        ensures a[1..][i] == Without(b, k)[q[i]]
      {
        assert a[1..][i] == b[p[i + 1]];
      }
      MatchedElements(a[1..], Without(b, k), q);
      RestElements(a, b, k);
    }
  }

  lemma RestElements<T>(a: seq<T>, b: seq<T>, k: nat)
    requires a != [] && k < |b| && a[0] == b[k] && multiset(a[1..]) == multiset(Without(b, k))
    ensures multiset(a) == multiset(b)
  {
    assert a == [a[0]] + a[1..];
    assert b == b[..k] + [b[k]] + b[k + 1..];
  }
}
