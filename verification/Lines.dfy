/** The lines of a text: what stands between its newlines. */
module Lines {
  import opened Wrappers
  import opened Digests

  function LinesOf(text: string): (lines: seq<string>)
    ensures lines != [] && forall line :: line in lines ==> '\n' !in line
    decreases |text|
  {
    match Cut(text, '\n')
    case None => [text]
    case Some((line, rest)) => [line] + LinesOf(rest)
  }

  lemma LinesFirst(line: string, rest: string)
    requires '\n' !in line
    ensures LinesOf(line + ['\n'] + rest) == [line] + LinesOf(rest)
  {
    CutUnique(line, '\n', rest);
  }

  lemma OneLine(line: string)
    requires '\n' !in line
    ensures LinesOf(line) == [line]
  {
  }

  // Where line `k` begins.
  function Offset(lines: seq<string>, k: nat): nat
    requires k <= |lines|
  {
    if k == 0 then 0 else Offset(lines, k - 1) + |lines[k - 1]| + 1
  }

  lemma OffsetAfter(line: string, more: seq<string>, k: nat)
    requires k <= |more| + 1
    ensures Offset([line] + more, k) == if k == 0 then 0 else |line| + 1 + Offset(more, k - 1)
  {
    if k > 0 {
      OffsetTail([line] + more, k);
      assert ([line] + more)[1..] == more;
    }
  }

  // The line is in the text at this place, with a newline after it unless it is the last.
  ghost predicate LiesAt(text: string, line: string, at: nat, last: bool) {
    && at + |line| <= |text| && text[at..at + |line|] == line
    && (!last ==> at + |line| < |text| && text[at + |line|] == '\n')
  }

  // The lines, one after the other, with a newline after each but the last, and nothing else.
  ghost predicate LaidOut(text: string, lines: seq<string>) {
    && Offset(lines, |lines|) == |text| + 1
    && forall k :: 0 <= k < |lines| ==> LiesAt(text, lines[k], Offset(lines, k), k == |lines| - 1)
  }

  lemma {:induction false} OffsetTail(lines: seq<string>, k: nat)
    requires 0 < k <= |lines|
    ensures Offset(lines, k) == |lines[0]| + 1 + Offset(lines[1..], k - 1)
  {
    if k > 1 {
      OffsetTail(lines, k - 1);
    }
  }

  lemma {:induction false} LinesLaidOut(text: string)
    ensures LaidOut(text, LinesOf(text))
    decreases |text|
  {
    if Cut(text, '\n').Some? {
      var (line, rest) := Cut(text, '\n').value;
      LinesLaidOut(rest);
      LayFirst(text, line, rest, LinesOf(rest));
    } else {
      var lines := LinesOf(text);
      assert Offset(lines, 0) == 0 && Offset(lines, 1) == Offset(lines, 0) + |text| + 1;
      assert LiesAt(text, text, 0, true);
    }
  }

  lemma LayFirst(text: string, line: string, rest: string, more: seq<string>)
    requires text == line + ['\n'] + rest && LaidOut(rest, more) && more != []
    ensures LaidOut(text, [line] + more)
  {
    hide LiesAt, Offset;
    var lines := [line] + more;
    OffsetAfter(line, more, |lines|);
    forall k | 0 <= k < |lines|
      ensures LiesAt(text, lines[k], Offset(lines, k), k == |lines| - 1)
    {
      OffsetAfter(line, more, k);
      if k > 0 {
        LiesLater(line, rest, more[k - 1], Offset(more, k - 1), k == |lines| - 1);
      } else {
        FirstLies(line, rest);
      }
    }
  }

  lemma FirstLies(line: string, rest: string)
    ensures LiesAt(line + ['\n'] + rest, line, 0, false)
  {
  }

  lemma LiesLater(line: string, rest: string, other: string, at: nat, last: bool)
    requires LiesAt(rest, other, at, last)
    ensures LiesAt(line + ['\n'] + rest, other, |line| + 1 + at, last)
  {
    var text := line + ['\n'] + rest;
    var from := |line| + 1 + at;
    assert text[|line| + 1..] == rest;
    assert text[from..from + |other|] == rest[at..at + |other|];
  }

  // The lines determine the text.
  lemma {:induction false} LinesInjective(a: string, b: string)
    requires LinesOf(a) == LinesOf(b)
    ensures a == b
    decreases |a|
  {
    var x, y := Cut(a, '\n'), Cut(b, '\n');
    if x.Some? && y.Some? {
      assert LinesOf(a)[1..] == LinesOf(x.value.1) && LinesOf(b)[1..] == LinesOf(y.value.1);
      LinesInjective(x.value.1, y.value.1);
    }
  }
}
