/** Listing the commits of a module, newest first, page by page (internal/storage/docstore.go). */
module Listing {
  import opened Wrappers
  import opened Docstore
  import opened Ordering
  import Graph

  // ----- Descending sequences of ids -----

  ghost predicate Descending(ids: seq<CommitId>) {
    forall i, j :: 0 <= i < j < |ids| ==> ids[i] > ids[j]
  }

  lemma MaxExists(s: set<CommitId>)
    requires s != {}
    ensures exists m :: m in s && forall x: CommitId :: x in s ==> x <= m
  {
    var x: CommitId :| x in s;
    if s != {x} {
      MaxExists(s - {x});
      var m :| m in s - {x} && forall y: CommitId :: y in s - {x} ==> y <= m;
      var top := if x > m then x else m;
      assert top in s && forall y: CommitId :: y in s ==> y <= top by {
        forall y: CommitId | y in s
          ensures y <= top
        {
          assert y == x || y in s - {x};
        }
      }
    }
  }

  // The ids of a set, largest first.
  ghost function Desc(s: set<CommitId>): (r: seq<CommitId>)
    ensures Descending(r) && forall x :: x in r <==> x in s
  {
    if s == {} then []
    else
      MaxExists(s);
      var m :| m in s && forall x: CommitId :: x in s ==> x <= m;
      [m] + Desc(s - {m})
  }

  // There is only one such sequence, whatever algorithm or iteration order produced it.
  lemma {:induction false} DescendingUnique(a: seq<CommitId>, b: seq<CommitId>)
    requires Descending(a) && Descending(b) && forall x :: x in a <==> x in b
    ensures a == b
  {
    if b != [] {
      assert b[0] in b;
    }
    if a != [] {
      assert a[0] in b && b[0] in a;
      assert a[0] == b[0];
      forall x
        ensures x in a[1..] <==> x in b[1..]
      {
        assert x in a[1..] <==> x in a && x != a[0];
        assert x in b[1..] <==> x in b && x != b[0];
      }
      DescendingUnique(a[1..], b[1..]);
      assert a == [a[0]] + a[1..] && b == [b[0]] + b[1..];
    }
  }

  // ----- The exchange sort -----

  ghost predicate Ordered(a: seq<CommitRecord>) {
    forall i, j :: 0 <= i < j < |a| ==> a[i].id >= a[j].id
  }

  // Each of the first `i` elements is no smaller than all that follow it.
  ghost predicate Settled(a: seq<CommitRecord>, i: nat) {
    forall p, q :: 0 <= p < i && p < q < |a| ==> a[p].id >= a[q].id
  }

  // Element `i` is no smaller than those between it and `j`.
  ghost predicate LargestSoFar(a: seq<CommitRecord>, i: nat, j: nat) {
    forall q :: i < q < j <= |a| ==> a[i].id >= a[q].id
  }

  function Swap(a: seq<CommitRecord>, i: nat, j: nat): (r: seq<CommitRecord>)
    requires i < j < |a|
    ensures multiset(r) == multiset(a)
  {
    a[i := a[j]][j := a[i]]
  }

  lemma SwapSettles(a: seq<CommitRecord>, i: nat, j: nat)
    requires i < j < |a| && Settled(a, i) && LargestSoFar(a, i, j) && a[i].id < a[j].id
    ensures Settled(Swap(a, i, j), i) && LargestSoFar(Swap(a, i, j), i, j + 1)
  {
  }

  // Whenever a later element is larger, the two change places.
  method SortCommitsByIdDesc(a: array<CommitRecord>)
    modifies a
    ensures Ordered(a[..]) && multiset(a[..]) == multiset(old(a[..]))
  {
    for i := 0 to a.Length
      invariant multiset(a[..]) == multiset(old(a[..])) && Settled(a[..], i)
    {
      for j := i + 1 to a.Length
        invariant multiset(a[..]) == multiset(old(a[..])) && Settled(a[..], i) && LargestSoFar(a[..], i, j)
      {
        if a[i].id < a[j].id {
          ghost var before := a[..];
          SwapSettles(before, i, j);
          a[i], a[j] := a[j], a[i];
          assert a[..] == Swap(before, i, j);
        }
      }
    }
  }

  // ----- One page -----

  function IndexOf(ids: seq<CommitId>, id: CommitId): (r: Option<nat>)
    ensures r.None? ==> id !in ids
    ensures r.Some? ==> r.value < |ids| && ids[r.value] == id
  {
    if ids == [] then None
    else if ids[0] == id then Some(0)
    else match IndexOf(ids[1..], id)
      case None => None
      case Some(i) => Some(i + 1)
  }

  // The page after the token's commit; an unknown token starts at the first page again.
  function StartOf(ids: seq<CommitId>, token: Option<CommitId>): (r: nat)
    ensures r <= |ids|
  {
    if token.None? then 0
    else match IndexOf(ids, token.value)
      case None => 0
      case Some(i) => i + 1
  }

  function EndOf(ids: seq<CommitId>, limit: nat, token: Option<CommitId>): (r: nat)
    ensures StartOf(ids, token) <= r <= |ids|
  {
    var start := StartOf(ids, token);
    if start + limit < |ids| then start + limit else |ids|
  }

  function PageOf(ids: seq<CommitId>, limit: nat, token: Option<CommitId>): seq<CommitId> {
    ids[StartOf(ids, token)..EndOf(ids, limit, token)]
  }

  function NextToken(ids: seq<CommitId>, limit: nat, token: Option<CommitId>): Option<CommitId>
    requires limit > 0
  {
    if StartOf(ids, token) + limit < |ids| then Some(ids[StartOf(ids, token) + limit - 1]) else None
  }

  ghost function ModuleCommits(s: Store, moduleId: Id32): set<CommitId> {
    set id | id in s.commits && s.commits[id].moduleId == moduleId
  }

  function IdsOf(cs: seq<CommitRecord>): (r: seq<CommitId>)
    ensures |r| == |cs| && forall i :: 0 <= i < |r| ==> r[i] == cs[i].id
  {
    seq(|cs|, i requires 0 <= i < |cs| => cs[i].id)
  }

  // Collects the module's commits in whatever order the document store yields them; documents that
  // do not decode are skipped, and in a table that CreateCommit filled there are none.
  method CollectCommits(s: Store, moduleId: Id32) returns (all: seq<CommitRecord>)
    requires CommitTable(s)
    ensures forall i, j :: 0 <= i < j < |all| ==> all[i].id != all[j].id
    ensures forall c :: c in all ==> GetCommit(s, c.id) == Ok(c)
    ensures forall id :: id in ModuleCommits(s, moduleId) <==> id in IdsOf(all)
  {
    hide DocToRecord;
    var remaining := s.commits.Keys;
    all := [];
    while remaining != {}
      invariant remaining <= s.commits.Keys
      invariant forall c :: c in all ==> GetCommit(s, c.id) == Ok(c) && c.id !in remaining
      invariant forall i, j :: 0 <= i < j < |all| ==> all[i].id != all[j].id
      invariant forall id :: id in ModuleCommits(s, moduleId) <==>
        id in IdsOf(all) || (id in remaining && s.commits[id].moduleId == moduleId)
      decreases remaining
    {
      var id :| id in remaining;
      remaining := remaining - {id};
      if s.commits[id].moduleId == moduleId {
        var c := DocToRecord(s.commits[id]);
        if c.Ok? {
          DecodedId(s, id);
          assert IdsOf(all + [c.value]) == IdsOf(all) + [id];
          all := all + [c.value];
        }
      }
    }
  }

  lemma DecodedId(s: Store, id: CommitId)
    requires CommitTable(s) && id in s.commits
    ensures DocToRecord(s.commits[id]).Ok? && DocToRecord(s.commits[id]).value.id == id
  {
  }

  lemma DistinctCount(all: seq<CommitRecord>, i: nat)
    requires i < |all| && forall i, j :: 0 <= i < j < |all| ==> all[i].id != all[j].id
    ensures multiset(all)[all[i]] == 1
  {
    assert all == all[..i] + [all[i]] + all[i + 1..];
    assert all[i] !in all[..i] && all[i] !in all[i + 1..];
  }

  // Sorted records with different ids are strictly descending.
  lemma OrderedIds(a: seq<CommitRecord>, all: seq<CommitRecord>, s: set<CommitId>)
    requires Ordered(a) && multiset(a) == multiset(all)
    requires forall i, j :: 0 <= i < j < |all| ==> all[i].id != all[j].id
    requires forall id :: id in s <==> id in IdsOf(all)
    ensures IdsOf(a) == Desc(s)
  {
    SameElements(a, all);
    forall i, j | 0 <= i < j < |a|
      ensures a[i].id > a[j].id
    {
      DistinctRecords(a, all, i, j);
    }
    forall id
      ensures id in IdsOf(a) <==> id in s
    {
      SameIds(a, all, id);
    }
    DescendingUnique(IdsOf(a), Desc(s));
  }

  lemma DistinctRecords(a: seq<CommitRecord>, all: seq<CommitRecord>, i: nat, j: nat)
    requires multiset(a) == multiset(all) && i < j < |a|
    requires forall i, j :: 0 <= i < j < |all| ==> all[i].id != all[j].id
    ensures a[i].id != a[j].id
  {
    SameElements(a, all);
    assert a[i] in all && a[j] in all;
    if a[i] == a[j] {
      var k :| 0 <= k < |all| && all[k] == a[i];
      DistinctCount(all, k);
      TwiceIn(a, i, j);
    }
  }

  lemma TwiceIn(a: seq<CommitRecord>, i: nat, j: nat)
    requires i < j < |a| && a[i] == a[j]
    ensures multiset(a)[a[i]] >= 2
  {
    assert a == a[..i] + [a[i]] + a[i + 1..j] + [a[j]] + a[j + 1..];
  }

  lemma SameIds(a: seq<CommitRecord>, all: seq<CommitRecord>, id: CommitId)
    requires multiset(a) == multiset(all)
    ensures id in IdsOf(a) <==> id in IdsOf(all)
  {
    SameElements(a, all);
    if id in IdsOf(a) {
      var i :| 0 <= i < |a| && IdsOf(a)[i] == id;
      assert a[i] in all;
      var k :| 0 <= k < |all| && all[k] == a[i];
      assert IdsOf(all)[k] == id;
    }
    if id in IdsOf(all) {
      var i :| 0 <= i < |all| && IdsOf(all)[i] == id;
      assert all[i] in a;
      var k :| 0 <= k < |a| && a[k] == all[i];
      assert IdsOf(a)[k] == id;
    }
  }

  method StartIndex(all: array<CommitRecord>, token: Option<CommitId>) returns (start: nat)
    ensures start == StartOf(IdsOf(all[..]), token)
  {
    start := 0;
    if token.Some? {
      for i := 0 to all.Length
        invariant token.value !in IdsOf(all[..])[..i]
      {
        if all[i].id == token.value {
          FirstIndex(IdsOf(all[..]), i);
          return i + 1;
        }
      }
      assert IdsOf(all[..])[..all.Length] == IdsOf(all[..]);
    }
  }

  lemma FirstIndex(ids: seq<CommitId>, i: nat)
    requires i < |ids| && ids[i] !in ids[..i]
    ensures IndexOf(ids, ids[i]) == Some(i)
  {
    if i > 0 {
      assert ids[0] in ids[..i];
      assert ids[1..][..i - 1] == ids[..i][1..];
      FirstIndex(ids[1..], i - 1);
    }
  }

  // What there is still to return: the module's commits, only those below the token if it names one of them.
  ghost function Remaining(s: Store, moduleId: Id32, token: Option<CommitId>): set<CommitId> {
    set id | id in s.commits && s.commits[id].moduleId == moduleId
      && (NamesCommit(s, moduleId, token) ==> id < token.value)
  }

  ghost predicate NamesCommit(s: Store, moduleId: Id32, token: Option<CommitId>) {
    token.Some? && token.value in s.commits && s.commits[token.value].moduleId == moduleId
  }

  // The newest of these commits, newest first, as many as were asked for or as there are; the id of the
  // last one as the next token when, and only when, there are more.
  ghost predicate IsPage(s: Store, remaining: set<CommitId>, limit: int, page: seq<CommitRecord>,
                         next: Option<CommitId>) {
    var n := if limit <= 0 then 100 else limit;
    && |page| == (if |remaining| < n then |remaining| else n)
    && (forall i, j :: 0 <= i < j < |page| ==> page[i].id > page[j].id)
    && (forall c :: c in page ==> c.id in remaining && GetCommit(s, c.id) == Ok(c))
    && (forall c, id :: c in page && id in remaining && id > c.id ==> exists d :: d in page && d.id == id)
    && next == if |remaining| > n then Some(page[|page| - 1].id) else None
  }

  method ListCommits(s: Store, moduleId: Id32, limit: int, token: Option<CommitId>)
    returns (page: seq<CommitRecord>, next: Option<CommitId>)
    requires CommitTable(s)
    ensures IsPage(s, Remaining(s, moduleId, token), limit, page, next)
    ensures (IdsOf(page), next) == Request(ModuleCommits(s, moduleId), limit, token)
  {
    hide IsPage, Remaining, PageOf, NextToken, Desc, GetCommit;
    var n := if limit <= 0 then 100 else limit;
    var found := CollectCommits(s, moduleId);
    var all := new CommitRecord[|found|](i requires 0 <= i < |found| => found[i]);
    assert all[..] == found;
    SortCommitsByIdDesc(all);
    ghost var sorted := all[..];
    OrderedIds(sorted, found, ModuleCommits(s, moduleId));
    SameElements(sorted, found);
    page, next := TakePage(all, n, token);
    PageIsPage(s, moduleId, limit, token, page, next);
  }

  lemma {:induction false} DescendingCard(ids: seq<CommitId>, s: set<CommitId>)
    requires Descending(ids) && forall id :: id in ids <==> id in s
    ensures |s| == |ids|
  {
    if ids != [] {
      assert ids[0] in s;
      WithoutFirst(ids, s);
      DescendingCard(ids[1..], s - {ids[0]});
    } else {
      assert s == {};
    }
  }

  lemma WithoutFirst(ids: seq<CommitId>, s: set<CommitId>)
    requires ids != [] && Descending(ids) && forall id :: id in ids <==> id in s
    ensures Descending(ids[1..]) && forall id :: id in ids[1..] <==> id in s - {ids[0]}
  {
    forall id
      ensures id in ids[1..] <==> id in s - {ids[0]}
    {
      assert id in ids[1..] <==> id in ids && id != ids[0];
    }
  }

  lemma RemainingMember(s: Store, moduleId: Id32, token: Option<CommitId>, id: CommitId)
    ensures id in Remaining(s, moduleId, token) <==>
      id in ModuleCommits(s, moduleId) && (NamesCommit(s, moduleId, token) ==> id < token.value)
    ensures NamesCommit(s, moduleId, token) <==> token.Some? && token.value in ModuleCommits(s, moduleId)
  {
  }

  // The ids still to return are those from the start index on.
  lemma RemainingIds(s: Store, moduleId: Id32, token: Option<CommitId>)
    ensures
      var ids := Desc(ModuleCommits(s, moduleId));
      var rest := ids[StartOf(ids, token)..];
      && Descending(rest) && |rest| == |Remaining(s, moduleId, token)|
      && forall id :: id in rest <==> id in Remaining(s, moduleId, token)
  {
    hide Remaining, ModuleCommits, NamesCommit;
    var ids := Desc(ModuleCommits(s, moduleId));
    var start := StartOf(ids, token);
    var rest := ids[start..];
    RemainingMember(s, moduleId, token, 0);
    forall id
      ensures id in rest <==> id in Remaining(s, moduleId, token)
    {
      RemainingMember(s, moduleId, token, id);
      StartMember(ids, token, id);
    }
    DescendingCard(rest, Remaining(s, moduleId, token));
  }

  lemma StartMember(ids: seq<CommitId>, token: Option<CommitId>, id: CommitId)
    requires Descending(ids)
    ensures id in ids[StartOf(ids, token)..] <==> id in ids && (token.Some? && token.value in ids ==> id < token.value)
  {
    var start := StartOf(ids, token);
    if token.Some? && token.value in ids {
      StartPosition(ids, token);
      if id in ids && id < token.value {
        var i :| 0 <= i < |ids| && ids[i] == id;
        assert ids[start..][i - start] == id;
      }
    } else {
      assert ids[start..] == ids;
    }
  }

  lemma PageIsPage(s: Store, moduleId: Id32, limit: int, token: Option<CommitId>, page: seq<CommitRecord>,
                   next: Option<CommitId>)
    requires (IdsOf(page), next) == Request(ModuleCommits(s, moduleId), limit, token)
    requires forall c :: c in page ==> GetCommit(s, c.id) == Ok(c)
    ensures IsPage(s, Remaining(s, moduleId, token), limit, page, next)
  {
    hide Remaining, GetCommit, Desc, ModuleCommits, Descending;
    RemainingIds(s, moduleId, token);
    var ids := Desc(ModuleCommits(s, moduleId));
    var rest := ids[StartOf(ids, token)..];
    assert IdsOf(page) == rest[..|page|];
    hide StartOf;
    FrontIsPage(s, Remaining(s, moduleId, token), limit, rest, page, next);
  }

  lemma FrontIsPage(s: Store, remaining: set<CommitId>, limit: int, rest: seq<CommitId>, page: seq<CommitRecord>,
                    next: Option<CommitId>)
    requires Descending(rest) && |rest| == |remaining| && forall id :: id in rest <==> id in remaining
    requires forall c :: c in page ==> GetCommit(s, c.id) == Ok(c)
    requires |page| <= |rest| && IdsOf(page) == rest[..|page|]
    requires
      var n := EffectiveLimit(limit);
      && |page| == (if |rest| < n then |rest| else n)
      && next == if |rest| > n then Some(rest[n - 1]) else None
    ensures IsPage(s, remaining, limit, page, next)
  {
    hide GetCommit;
    assert forall i :: 0 <= i < |page| ==> page[i].id == rest[i];
    forall c | c in page
      ensures c.id in remaining
    {
      var k :| 0 <= k < |page| && page[k] == c;
      assert rest[k] in rest;
    }
    forall c, id | c in page && id in remaining && id > c.id
      ensures exists d :: d in page && d.id == id
    {
      var k :| 0 <= k < |page| && page[k] == c;
      var i :| 0 <= i < |rest| && rest[i] == id;
      assert i < k;
      assert page[i] in page && page[i].id == id;
    }
  }

  // The page loop: up to `n` commits from the start index, and a token when more follow.
  method TakePage(all: array<CommitRecord>, n: nat, token: Option<CommitId>)
    returns (page: seq<CommitRecord>, next: Option<CommitId>)
    requires n > 0
    ensures
      var start := StartOf(IdsOf(all[..]), token);
      && page == all[start..if start + n < all.Length then start + n else all.Length]
      && next == if start + n < all.Length then Some(all[start + n - 1].id) else None
    ensures IdsOf(page) == PageOf(IdsOf(all[..]), n, token) && next == NextToken(IdsOf(all[..]), n, token)
    ensures forall c :: c in page ==> c in all[..]
  {
    var start := StartIndex(all, token);
    var i := start;
    page, next := [], None;
    while i < all.Length && |page| < n
      invariant start <= i <= all.Length && |page| == i - start <= n && page == all[start..i]
      invariant next == if |page| == n && i < all.Length then Some(all[i - 1].id) else None
    {
      page := page + [all[i]];
      if |page| == n && i + 1 < all.Length {
        next := Some(all[i].id);
      }
      i := i + 1;
    }
    assert i == EndOf(IdsOf(all[..]), n, token);
    assert IdsOf(page) == IdsOf(all[..])[start..i];
  }

  // ----- Following the page tokens -----

  // What a listing with this token has still to return from a table.
  ghost function Rest(s: set<CommitId>, token: Option<CommitId>): set<CommitId> {
    set c | c in s && (token.None? || c < token.value)
  }

  // The page starts where the ids still to return start.
  lemma StartPosition(ids: seq<CommitId>, token: Option<CommitId>)
    requires Descending(ids) && (token.None? || token.value in ids)
    ensures StartOf(ids, token) <= |ids|
    ensures forall i :: 0 <= i < |ids| ==> (StartOf(ids, token) <= i <==> (token.None? || ids[i] < token.value))
  {
    if token.Some? {
      var k := IndexOf(ids, token.value).value;
      assert ids[k] == token.value;
    }
  }

  // A token that names no commit of the module gives the first page again.
  lemma UnknownTokenRestarts(ids: seq<CommitId>, limit: nat, token: Option<CommitId>)
    requires limit > 0 && token.Some? && token.value !in ids
    ensures PageOf(ids, limit, token) == PageOf(ids, limit, None)
    ensures NextToken(ids, limit, token) == NextToken(ids, limit, None)
  {
  }

  // One page: the largest ids still to return; what is left is below the next token.
  lemma PageTakesLargest(ids: seq<CommitId>, limit: nat, token: Option<CommitId>)
    requires limit > 0 && Descending(ids) && (token.None? || token.value in ids)
    ensures
      var page, next := PageOf(ids, limit, token), NextToken(ids, limit, token);
      && Descending(page)
      && (forall c: CommitId :: c in page <==>
         c in ids && (token.None? || c < token.value) && (next.None? || c >= next.value))
      && (next.Some? ==> next.value in page && exists c: CommitId :: c in ids && c < next.value)
  {
    var a, b := StartOf(ids, token), EndOf(ids, limit, token);
    StartPosition(ids, token);
    PageMembers(ids, a, b, token, NextToken(ids, limit, token));
  }

  lemma PageMembers(ids: seq<CommitId>, a: nat, b: nat, token: Option<CommitId>, next: Option<CommitId>)
    requires Descending(ids) && a <= b <= |ids|
    requires forall i :: 0 <= i < |ids| ==> (a <= i <==> (token.None? || ids[i] < token.value))
    requires if next.Some? then a < b < |ids| && next.value == ids[b - 1] else b == |ids|
    ensures Descending(ids[a..b])
    ensures forall c: CommitId :: c in ids[a..b] <==>
      c in ids && (token.None? || c < token.value) && (next.None? || c >= next.value)
    ensures next.Some? ==> next.value in ids[a..b] && exists c: CommitId :: c in ids && c < next.value
  {
    var page := ids[a..b];
    forall c: CommitId | c in ids && (token.None? || c < token.value) && (next.None? || c >= next.value)
      ensures c in page
    {
      var i :| 0 <= i < |ids| && ids[i] == c;
      assert page[i - a] == c;
    }
    if next.Some? {
      assert page[b - 1 - a] == next.value;
      assert ids[b] in ids && ids[b] < next.value;
    }
  }

  function EffectiveLimit(limit: int): (r: nat)
    ensures r > 0
  {
    if limit <= 0 then 100 else limit
  }

  // One request to a table: the page and the token for the next one.
  ghost function Request(s: set<CommitId>, limit: int, token: Option<CommitId>): (seq<CommitId>, Option<CommitId>) {
    (PageOf(Desc(s), EffectiveLimit(limit), token), NextToken(Desc(s), EffectiveLimit(limit), token))
  }

  lemma RequestTakesLargest(s: set<CommitId>, limit: int, token: Option<CommitId>)
    requires token.None? || token.value in s
    ensures
      var (page, next) := Request(s, limit, token);
      && Descending(page)
      && (forall c :: c in page <==> c in Rest(s, token) && (next.None? || c >= next.value))
      && (next.Some? ==> next.value in page && next.value in Rest(s, token) && Rest(s, next) != {})
  {
    var ids := Desc(s);
    var (page, next) := Request(s, limit, token);
    PageTakesLargest(ids, EffectiveLimit(limit), token);
    hide PageOf, NextToken, Desc;
    if next.Some? {
      var c: CommitId :| c in ids && c < next.value;
      assert c in Rest(s, next);
    }
  }

  // The ids returned by following the tokens, and whether the last page was reached; `tables[i]` are
  // the module's commits when page `i` is asked for, with limit `limits[i]`.
  ghost function Follow(tables: seq<set<CommitId>>, limits: seq<int>, token: Option<CommitId>): (seq<CommitId>, bool)
    requires |limits| == |tables|
  {
    if tables == [] then ([], false)
    else
      var (page, next) := Request(tables[0], limits[0], token);
      if next.None? then (page, true)
      else
        var (more, ended) := Follow(tables[1..], limits[1..], next);
        (page + more, ended)
  }

  // Commits are never deleted.
  ghost predicate Growing(tables: seq<set<CommitId>>) {
    |tables| > 1 ==> tables[0] <= tables[1] && Growing(tables[1..])
  }

  lemma {:induction false} GrowingLast(tables: seq<set<CommitId>>)
    requires tables != [] && Growing(tables)
    ensures tables[0] <= tables[|tables| - 1]
  {
    if |tables| > 1 {
      GrowingLast(tables[1..]);
    }
  }

  lemma DescendingAppend(a: seq<CommitId>, b: seq<CommitId>, bound: CommitId)
    requires Descending(a) && Descending(b)
    requires (forall c: CommitId :: c in a ==> c >= bound) && (forall c: CommitId :: c in b ==> c < bound)
    ensures Descending(a + b)
  {
    var all := a + b;
    forall i, j | 0 <= i < j < |all|
      ensures all[i] > all[j]
    {
      if i < |a| <= j {
        assert a[i] in a && b[j - |a|] in b;
      }
    }
  }

  /** Commits may be created between pages, with any ids: no id is returned twice or out of order, none
      is made up, every commit of the first page's table is returned by the end, and the end is reached
      within as many pages as there are commits to return (at least one). */
  lemma {:induction false} FollowComplete(tables: seq<set<CommitId>>, limits: seq<int>, token: Option<CommitId>)
    requires |limits| == |tables| && tables != [] && Growing(tables)
    requires token.None? || token.value in tables[0]
    ensures
      var (ids, ended) := Follow(tables, limits, token);
      && Descending(ids)
      && (forall c :: c in ids ==> c in Rest(tables[|tables| - 1], token))
      && (ended ==> forall c :: c in Rest(tables[0], token) ==> c in ids)
      && (|tables| >= |Rest(tables[|tables| - 1], token)| ==> ended)
    decreases |tables|
  {
    var last := tables[|tables| - 1];
    var (page, next) := Request(tables[0], limits[0], token);
    RequestTakesLargest(tables[0], limits[0], token);
    GrowingLast(tables);
    hide Request, Descending, Rest;
    RestGrows(tables[0], last, token);
    if next.Some? {
      var later := tables[1..];
      var (more, ended) := Follow(later, limits[1..], next);
      RestGrows(tables[0], last, next);
      SmallerRest(last, token, next.value);
      if later == [] {
        assert page + more == page;
      } else {
        RestMember(tables[0], token, next.value);
        assert tables[0] <= later[0];
        FollowComplete(later, limits[1..], next);
        assert later[|later| - 1] == last;
        PageThenMore(tables[0], later[0], last, token, next, page, more, ended);
      }
    }
  }

  lemma RestGrows(s: set<CommitId>, t: set<CommitId>, token: Option<CommitId>)
    requires s <= t
    ensures Rest(s, token) <= Rest(t, token)
  {
  }

  lemma RestMember(s: set<CommitId>, token: Option<CommitId>, c: CommitId)
    requires c in Rest(s, token)
    ensures c in s
  {
  }

  // A page of table `s`, then everything returned from later tables, down from the page's token.
  lemma PageThenMore(s: set<CommitId>, later: set<CommitId>, last: set<CommitId>, token: Option<CommitId>,
                     next: Option<CommitId>, page: seq<CommitId>, more: seq<CommitId>, ended: bool)
    requires s <= later && s <= last && next.Some? && next.value in Rest(s, token) && Descending(page)
    requires Descending(more)
    requires forall c :: c in page <==> c in Rest(s, token) && c >= next.value
    requires forall c :: c in more ==> c in Rest(last, next)
    requires ended ==> forall c :: c in Rest(later, next) ==> c in more
    ensures Descending(page + more) && forall c :: c in page + more ==> c in Rest(last, token)
    ensures ended ==> forall c :: c in Rest(s, token) ==> c in page + more
  {
    DescendingAppend(page, more, next.value);
    hide Descending;
  }

  // No commit that was created after a page was read, and before the next one, is below the page's token.
  ghost predicate NoneBelow(tables: seq<set<CommitId>>, limits: seq<int>, token: Option<CommitId>)
    requires |limits| == |tables|
  {
    |tables| > 1 ==>
      var next := Request(tables[0], limits[0], token).1;
      next.Some? ==> Rest(tables[1], next) <= tables[0] && NoneBelow(tables[1..], limits[1..], next)
  }

  /** A listing that ended is exactly the first page's table, newest first, when, and only when, no commit
      was created below the token then current. It then ends within as many pages as that table has
      commits (at least one). */
  lemma {:induction false} FollowExactly(tables: seq<set<CommitId>>, limits: seq<int>, token: Option<CommitId>)
    requires |limits| == |tables| && tables != [] && Growing(tables)
    requires token.None? || token.value in tables[0]
    ensures
      var (ids, ended) := Follow(tables, limits, token);
      && (ended ==> (ids == Desc(Rest(tables[0], token)) <==> NoneBelow(tables, limits, token)))
      && (NoneBelow(tables, limits, token) && |tables| >= |Rest(tables[0], token)| ==> ended)
    decreases |tables|
  {
    var (page, next) := Request(tables[0], limits[0], token);
    RequestTakesLargest(tables[0], limits[0], token);
    if next.None? {
      DescendingUnique(page, Desc(Rest(tables[0], token)));
    } else {
      hide Request, Desc, Rest, Descending;
      SmallerRest(tables[0], token, next.value);
      RestMember(tables[0], token, next.value);
      if |tables| > 1 {
        var later := tables[1..];
        FollowExactly(later, limits[1..], next);
        FollowComplete(later, limits[1..], next);
        var (more, ended) := Follow(later, limits[1..], next);
        SameRest(tables[0], later[0], next);
        if ended {
          WholeRest(tables[0], token, next, page, more);
          LaterAreMore(tables[0], later[0], next, more);
        }
      }
    }
  }

  lemma SameRest(s: set<CommitId>, later: set<CommitId>, token: Option<CommitId>)
    requires s <= later
    ensures Rest(later, token) <= s <==> Rest(later, token) == Rest(s, token)
  {
    if Rest(later, token) <= s {
      forall c | c in Rest(later, token)
        ensures c in Rest(s, token)
      {
        assert c in s;
      }
    }
  }

  // What a later listing returned shows all that was created meanwhile.
  lemma LaterAreMore(s: set<CommitId>, later: set<CommitId>, token: Option<CommitId>, more: seq<CommitId>)
    requires s <= later && forall c :: c in Rest(later, token) ==> c in more
    ensures more == Desc(Rest(s, token)) ==> Rest(later, token) == Rest(s, token)
  {
    RestGrows(s, later, token);
    hide Rest;
  }

  // Each commit created between two pages is newer than all the module had.
  ghost predicate OnlyNewer(tables: seq<set<CommitId>>) {
    |tables| > 1 ==> AllNewer(tables[0], tables[1]) && OnlyNewer(tables[1..])
  }

  ghost predicate AllNewer(before: set<CommitId>, after: set<CommitId>) {
    forall c: CommitId, d: CommitId :: c in after && c !in before && d in before ==> c > d
  }

  // With fresh, larger ids only, nothing comes in below a token.
  lemma {:induction false} NewerNotBelow(tables: seq<set<CommitId>>, limits: seq<int>, token: Option<CommitId>)
    requires |limits| == |tables| && tables != [] && Growing(tables) && OnlyNewer(tables)
    requires token.None? || token.value in tables[0]
    ensures NoneBelow(tables, limits, token)
    decreases |tables|
  {
    var next := Request(tables[0], limits[0], token).1;
    RequestTakesLargest(tables[0], limits[0], token);
    hide Request;
    if |tables| > 1 && next.Some? {
      NewerNotBelow(tables[1..], limits[1..], next);
    }
  }

  // A page and exactly what is below its token make up exactly what there was to return.
  lemma WholeRest(s: set<CommitId>, token: Option<CommitId>, next: Option<CommitId>, page: seq<CommitId>,
                  more: seq<CommitId>)
    requires next.Some? && next.value in Rest(s, token) && Descending(page)
    requires forall c :: c in page <==> c in Rest(s, token) && c >= next.value
    ensures page + more == Desc(Rest(s, token)) <==> more == Desc(Rest(s, next))
  {
    var whole := Desc(Rest(s, next));
    DescendingAppend(page, whole, next.value);
    DescendingUnique(page + whole, Desc(Rest(s, token)));
    if page + more == page + whole {
      assert (page + more)[|page|..] == more && (page + whole)[|page|..] == whole;
    }
  }

  lemma SmallerRest(s: set<CommitId>, token: Option<CommitId>, next: CommitId)
    requires next in Rest(s, token) && Rest(s, Some(next)) != {}
    ensures |Rest(s, Some(next))| < |Rest(s, token)| && |Rest(s, token)| >= 2
  {
    var a, b := Rest(s, Some(next)), Rest(s, token);
    Graph.SubsetCard(a, b);
    assert next in b && next !in a;
    var x :| x in a;
    Graph.SubsetCard({x}, a);
  }
}
