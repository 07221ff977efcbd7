/** The manifest text, its parser, and the B4 and B5 module digests (internal/storage/manifest.go). */
module Manifests {
  import opened Wrappers
  import opened Ordering
  import opened Digests
  import opened Lines

  datatype Entry = Entry(digest: Digest, path: string)

  function PathOf(e: Entry): string { e.path }

  // ----- Printing -----

  function Line(e: Entry): string {
    e.digest.String() + "  " + e.path + "\n"
  }

  function Text(entries: seq<Entry>): string {
    if entries == [] then "" else Line(entries[0]) + Text(entries[1..])
  }

  lemma {:induction false} TextAppend(entries: seq<Entry>, e: Entry)
    ensures Text(entries + [e]) == Text(entries) + Line(e)
  {
    if entries == [] {
      assert (entries + [e])[1..] == [];
    } else {
      assert (entries + [e])[1..] == entries[1..] + [e];
      TextAppend(entries[1..], e);
    }
  }

  lemma NoText()
    ensures Text([]) == ""
  {
  }

  function Serialize(entries: seq<Entry>): string {
    Text(Sort(entries, PathOf))
  }

  // What a manifest looks like: one line for each entry, in the byte order of the paths, with the digest's
  // algorithm, a colon, its Base16, two spaces, the path and a newline. Line `i` begins at `at[i]`.
  ghost predicate IsManifestText(text: string, entries: seq<Entry>) {
    exists sorted, at :: IsArranged(sorted, entries) && Prints(text, sorted, at)
  }

  ghost predicate IsArranged(sorted: seq<Entry>, entries: seq<Entry>) {
    multiset(sorted) == multiset(entries) && Ascending(sorted, PathOf)
  }

  ghost predicate Prints(text: string, entries: seq<Entry>, at: seq<nat>) {
    && |at| == |entries| + 1 && at[0] == 0 && at[|entries|] == |text|
    && forall i :: 0 <= i < |entries| ==> PrintedAt(text, entries[i], at[i], at[i + 1])
  }

  ghost predicate PrintedAt(text: string, e: Entry, from: nat, to: nat) {
    && from <= to <= |text|
    && text[from..to] == e.digest.algorithm + ":" + EncodeHex(e.digest.value) + "  " + e.path + "\n"
  }

  lemma {:induction false} TextPrints(entries: seq<Entry>) returns (at: seq<nat>)
    ensures Prints(Text(entries), entries, at)
  {
    hide Text, Line, PrintedAt;
    if entries == [] {
      NoText();
      at := [0];
    } else {
      var last := |entries| - 1;
      var before, e := entries[..last], entries[last];
      var begun := TextPrints(before);
      assert entries == before + [e];
      TextAppend(before, e);
      at := begun + [|Text(entries)|];
      LineIsPrinted(Text(before), e);
      forall i | 0 <= i < last
        ensures PrintedAt(Text(entries), entries[i], at[i], at[i + 1])
      {
        assert PrintedAt(Text(before), before[i], begun[i], begun[i + 1]);
        StaysPrinted(Text(before), Line(e), before[i], begun[i], begun[i + 1]);
      }
    }
  }

  lemma LineIsPrinted(text: string, e: Entry)
    ensures PrintedAt(text + Line(e), e, |text|, |text + Line(e)|)
  {
    assert (text + Line(e))[|text|..] == Line(e);
  }

  lemma StaysPrinted(text: string, more: string, e: Entry, from: nat, to: nat)
    requires PrintedAt(text, e, from, to)
    ensures PrintedAt(text + more, e, from, to)
  {
    assert (text + more)[from..to] == text[from..to];
  }

  // No other text is printed like this.
  lemma {:induction false} PrintsOnly(text: string, entries: seq<Entry>, at: seq<nat>)
    requires Prints(text, entries, at)
    ensures text == Text(entries)
  {
    if entries != [] {
      var last := |entries| - 1;
      var before, start := entries[..last], text[..at[last]];
      assert PrintedAt(text, entries[last], at[last], at[last + 1]);
      assert text == start + Line(entries[last]) by {
        assert text[at[last]..] == text[at[last]..at[last + 1]];
      }
      PrintsInOrder(text, entries, at, last);
      hide PrintedAt, Line, Text;
      forall i | 0 <= i < last
        ensures PrintedAt(start, before[i], at[i], at[i + 1])
      {
        assert PrintedAt(text, entries[i], at[i], at[i + 1]);
        PrintsInOrder(text, entries, at, i + 1);
        WasPrinted(text, at[last], entries[i], at[i], at[i + 1]);
      }
      PrintsOnly(start, before, at[..last + 1]);
      assert entries == before + [entries[last]];
      TextAppend(before, entries[last]);
    }
  }

  lemma {:induction false} PrintsInOrder(text: string, entries: seq<Entry>, at: seq<nat>, i: nat)
    requires Prints(text, entries, at) && i <= |entries|
    ensures at[i] <= |text| && forall j :: i <= j <= |entries| ==> at[i] <= at[j]
    decreases |entries| - i
  {
    if i < |entries| {
      assert PrintedAt(text, entries[i], at[i], at[i + 1]);
      PrintsInOrder(text, entries, at, i + 1);
    }
  }

  lemma WasPrinted(text: string, end: nat, e: Entry, from: nat, to: nat)
    requires PrintedAt(text, e, from, to) && to <= end <= |text|
    ensures PrintedAt(text[..end], e, from, to)
  {
    assert text[..end][from..to] == text[from..to];
  }

  lemma SerializedText(entries: seq<Entry>)
    ensures IsManifestText(Serialize(entries), entries)
  {
    hide Text, Prints;
    var sorted := Sort(entries, PathOf);
    SortedIsAscending(sorted, PathOf);
    var at := TextPrints(sorted);
    assert IsArranged(sorted, entries) && Prints(Serialize(entries), sorted, at);
  }

  // For different paths there is one such text, and it is what is printed.
  lemma ManifestTextExactly(text: string, entries: seq<Entry>)
    requires DistinctPaths(entries)
    ensures IsManifestText(text, entries) <==> text == Serialize(entries)
  {
    SerializedText(entries);
    hide Text, Prints;
    if sorted, at :| IsArranged(sorted, entries) && Prints(text, sorted, at) {
      PrintsOnly(text, sorted, at);
      SortedIsAscending(sorted, PathOf);
      DistinctPathsInjective(entries);
      SameElements(entries, Sort(entries, PathOf));
      SortedUnique(Sort(entries, PathOf), sorted, PathOf);
    }
  }

  method SerializeManifest(entries: seq<Entry>) returns (text: string)
    ensures text == Serialize(entries) && IsManifestText(text, entries)
  {
    hide Line, Text, Sort, IsManifestText;
    SerializedText(entries);
    var sorted := Sort(entries, PathOf);
    text := "";
    NoText();
    for i := 0 to |sorted|
      invariant text == Text(sorted[..i])
    {
      TextAppend(sorted[..i], sorted[i]);
      assert sorted[..i + 1] == sorted[..i] + [sorted[i]];
      text := text + Line(sorted[i]);
    }
    assert sorted[..|sorted|] == sorted;
  }

  // ----- Parsing -----

  // The longest line the default line scanner returns (its 64 KiB buffer also holds the newline).
  const MAX_LINE := 65535

  function DropCR(line: string): (r: string)
    ensures |r| <= |line|
  {
    if line != "" && line[|line| - 1] == '\r' then line[..|line| - 1] else line
  }

  // Splits at the first two-space separator.
  function CutSpaces(s: string): (r: Option<(string, string)>)
    ensures r.Some? ==> s == r.value.0 + "  " + r.value.1
  {
    if |s| < 2 then None
    else if s[0] == ' ' && s[1] == ' ' then Some(("", s[2..]))
    else match CutSpaces(s[1..])
      case None => None
      case Some((before, after)) => Some(([s[0]] + before, after))
  }

  function ParseLine(line: string): Result<Entry> {
    match CutSpaces(line)
    case None => Err(InvalidManifestLine)
    case Some((digestStr, path)) =>
      var digest :- ParseDigest(digestStr);
      Ok(Entry(digest, path))
  }

  // The first line of a text that is not empty, and what follows its newline.
  function NextLine(text: string): (r: (string, string))
    requires text != ""
    ensures |r.1| < |text| && '\n' !in r.0
  {
    match Cut(text, '\n')
    case None => (text, "")
    case Some((line, rest)) => (line, rest)
  }

  function Parse(text: string): Result<seq<Entry>>
    decreases |text|
  {
    if text == "" then Ok([])
    else
      var (raw, rest) := NextLine(text);
      if |raw| > MAX_LINE then Err(LineTooLong)
      else if DropCR(raw) == "" then Parse(rest)
      else
        var e :- ParseLine(DropCR(raw));
        var more :- Parse(rest);
        Ok([e] + more)
  }

  // The result of parsing `text` after the lines of `done` were read.
  function After(done: seq<Entry>, text: string): Result<seq<Entry>> {
    var more :- Parse(text);
    Ok(done + more)
  }

  lemma AfterNothing(text: string)
    ensures After([], text) == Parse(text)
  {
    if Parse(text).Ok? {
      assert [] + Parse(text).value == Parse(text).value;
    }
  }

  lemma AfterRead(done: seq<Entry>, text: string, e: Entry)
    requires text != "" && |NextLine(text).0| <= MAX_LINE && DropCR(NextLine(text).0) != ""
    requires ParseLine(DropCR(NextLine(text).0)) == Ok(e)
    ensures After(done, text) == After(done + [e], NextLine(text).1)
  {
    hide ParseLine, NextLine, DropCR;
    var more := Parse(NextLine(text).1);
    if more.Ok? {
      assert (done + [e]) + more.value == done + ([e] + more.value);
    }
  }

  method ParseManifest(text: string) returns (r: Result<seq<Entry>>)
    ensures r == Parse(text)
  {
    var entries: seq<Entry> := [];
    var rest := text;
    AfterNothing(text);
    while rest != ""
      invariant Parse(text) == After(entries, rest)
      decreases |rest|
    {
      var (raw, tail) := NextLine(rest);
      if |raw| > MAX_LINE {
        return Err(LineTooLong);
      }
      var line := DropCR(raw);
      if line != "" {
        var e := ParseLine(line);
        if e.Err? {
          return Err(e.error);
        }
        AfterRead(entries, rest, e.value);
        entries := entries + [e.value];
      }
      rest := tail;
    }
    assert entries + [] == entries;
    return Ok(entries);
  }

  // ----- What the parser accepts -----

  // Nothing is left of the line when a carriage return at its end is dropped.
  predicate Blank(line: string) {
    line == "" || line == "\r"
  }

  // The line without a carriage return at its end is a digest, the first two spaces in it, and the path.
  ghost predicate Says(line: string, e: Entry) {
    exists digest, said :: SaysAs(line, e, digest, said)
  }

  ghost predicate SaysAs(line: string, e: Entry, digest: string, said: string) {
    && (line == said + "\r" || (line == said && (said == "" || said[|said| - 1] != '\r')))
    && said == digest + "  " + e.path && ParseDigest(digest) == Ok(e.digest)
    && forall k :: 0 <= k < |digest| ==> said[k] != ' ' || said[k + 1] != ' '
  }

  // The lines that are not blank, in order.
  function Filled(lines: seq<string>): (r: seq<string>)
    ensures forall line :: line in r <==> line in lines && !Blank(line)
  {
    if lines == [] then []
    else if Blank(lines[0]) then Filled(lines[1..])
    else [lines[0]] + Filled(lines[1..])
  }

  // Each line that is not blank says one entry.
  ghost predicate Reads(lines: seq<string>, entries: seq<Entry>) {
    && |Filled(lines)| == |entries|
    && forall i :: 0 <= i < |entries| ==> Says(Filled(lines)[i], entries[i])
  }

  ghost predicate AllShort(lines: seq<string>) {
    forall line :: line in lines ==> |line| < 64 * 1024
  }

  lemma {:induction false} CutSpacesExactly(s: string, a: string, b: string)
    ensures CutSpaces(s) == Some((a, b)) <==>
      s == a + "  " + b && forall k :: 0 <= k < |a| ==> s[k] != ' ' || s[k + 1] != ' '
  {
    if |s| >= 2 && !(s[0] == ' ' && s[1] == ' ') && a != [] {
      CutSpacesExactly(s[1..], a[1..], b);
      assert a == [a[0]] + a[1..];
      SpacesLater(s, a, b);
    } else if |s| >= 2 && a == [] {
      assert s == "  " + b <==> s[0] == ' ' && s[1] == ' ' && s[2..] == b;
    }
  }

  lemma SpacesLater(s: string, a: string, b: string)
    requires |s| >= 2 && !(s[0] == ' ' && s[1] == ' ') && a != []
    ensures
      (s == a + "  " + b && forall k :: 0 <= k < |a| ==> s[k] != ' ' || s[k + 1] != ' ')
      <==>
      (s[0] == a[0] && s[1..] == a[1..] + "  " + b
       && forall k :: 0 <= k < |a[1..]| ==> s[1..][k] != ' ' || s[1..][k + 1] != ' ')
  {
    if s[0] == a[0] && s[1..] == a[1..] + "  " + b {
      assert s == [s[0]] + s[1..];
      if forall k :: 0 <= k < |a[1..]| ==> s[1..][k] != ' ' || s[1..][k + 1] != ' ' {
        forall k | 0 <= k < |a|
          ensures s[k] != ' ' || s[k + 1] != ' '
        {
          if k > 0 {
            assert s[1..][k - 1] == s[k] && s[1..][k] == s[k + 1];
          }
        }
      }
    }
  }

  lemma LineSays(line: string, e: Entry)
    ensures Says(line, e) <==> ParseLine(DropCR(line)) == Ok(e)
    ensures Blank(line) <==> DropCR(line) == ""
    ensures Blank(line) ==> !Says(line, e)
  {
    hide CutSpaces, ParseDigest;
    if ParseLine(DropCR(line)) == Ok(e) {
      var (digest, path) := CutSpaces(DropCR(line)).value;
      CutSpacesExactly(DropCR(line), digest, path);
      DroppedCR(line, DropCR(line));
      assert SaysAs(line, e, digest, DropCR(line));
    }
    if digest, said :| SaysAs(line, e, digest, said) {
      DroppedCR(line, said);
      CutSpacesExactly(said, digest, e.path);
    }
  }

  lemma DroppedCR(line: string, said: string)
    ensures said == DropCR(line) <==>
      line == said + "\r" || (line == said && (said == "" || said[|said| - 1] != '\r'))
  {
    if line != "" && line[|line| - 1] == '\r' {
      assert line == line[..|line| - 1] + "\r";
      if line == said + "\r" {
        assert said == line[..|line| - 1];
      }
    }
  }

  // One more line at the front.
  lemma ReadsFirst(line: string, more: seq<string>, entries: seq<Entry>)
    ensures
      Reads([line] + more, entries) <==>
        if Blank(line) then Reads(more, entries)
        else entries != [] && Says(line, entries[0]) && Reads(more, entries[1..])
  {
    hide Says, Blank;
    var lines, rest := [line] + more, Filled(more);
    assert lines[1..] == more;
    if !Blank(line) && entries != [] {
      assert Filled(lines) == [line] + rest;
      assert forall i :: 0 <= i < |rest| ==> Filled(lines)[i + 1] == rest[i];
      if Reads(lines, entries) {
        forall i | 0 <= i < |entries| - 1
          ensures Says(rest[i], entries[1..][i])
        {
          assert Says(Filled(lines)[i + 1], entries[i + 1]);
        }
      }
    }
  }

  lemma LinesOfText(text: string)
    requires text != ""
    ensures
      var (raw, rest) := NextLine(text);
      LinesOf(text) == if '\n' in text then [raw] + LinesOf(rest) else [raw]
  {
  }

  // The text in front of the reader, and the same text without its first line.
  lemma FirstLineParses(text: string, entries: seq<Entry>)
    requires text != ""
    ensures
      var (raw, rest) := NextLine(text);
      Parse(text) == Ok(entries) <==>
        && |raw| <= MAX_LINE
        && if Blank(raw) then Parse(rest) == Ok(entries)
           else entries != [] && Says(raw, entries[0]) && Parse(rest) == Ok(entries[1..])
  {
    var (raw, rest) := NextLine(text);
    hide NextLine, Says, Blank, ParseLine, DropCR;
    if entries != [] {
      LineSays(raw, entries[0]);
      assert entries == [entries[0]] + entries[1..];
    } else {
      LineSays(raw, Entry(Digest("", []), ""));
    }
    if Parse(text).Ok? && Parse(text).value == entries && entries != [] && DropCR(raw) != "" {
      assert Parse(rest).Ok? && entries == [ParseLine(DropCR(raw)).value] + Parse(rest).value;
      assert entries[1..] == Parse(rest).value;
    }
  }

  lemma ShortFirst(line: string, more: seq<string>)
    ensures AllShort([line] + more) <==> |line| <= MAX_LINE && AllShort(more)
  {
    var lines := [line] + more;
    assert forall other :: other in lines <==> other == line || other in more;
    assert line in lines;
  }

  lemma LastLine(text: string)
    requires text != "" && '\n' !in text
    ensures NextLine(text) == (text, "")
  {
  }

  // After the last line nothing is left to read.
  lemma EmptyRest(entries: seq<Entry>)
    ensures Parse("") == Ok(entries) <==> entries == []
    ensures Reads([], entries) <==> entries == []
  {
  }

  /** Exactly which texts the parser accepts, and as what: no line is too long, and each line that is not
      blank says one entry, in order. */
  lemma {:induction false} ParseExactly(text: string, entries: seq<Entry>)
    ensures Parse(text) == Ok(entries) <==> AllShort(LinesOf(text)) && Reads(LinesOf(text), entries)
    decreases |text|
  {
    if text == "" {
      ReadsFirst("", [], entries);
      assert LinesOf("") == [""] && [""] + [] == [""];
    } else {
      var (raw, rest) := NextLine(text);
      hide NextLine, Says, Blank, Parse, LinesOf, Reads;
      LinesOfText(text);
      FirstLineParses(text, entries);
      ParseExactly(rest, entries);
      if entries != [] {
        ParseExactly(rest, entries[1..]);
      }
      if '\n' in text {
        ReadsFirst(raw, LinesOf(rest), entries);
        ShortFirst(raw, LinesOf(rest));
      } else {
        LastLine(text);
        ReadsFirst(raw, [], entries);
        EmptyRest(entries);
        assert [raw] + [] == [raw];
      }
    }
  }

  // ----- Parsing what was printed -----

  // The entries that the blob store's digests give: `shake256` and 64 bytes.
  predicate AllShake(entries: seq<Entry>) {
    forall e :: e in entries ==> IsShake(e.digest)
  }

  predicate NewlineFree(path: string) {
    '\n' !in path
  }

  // 139 characters of digest and separator precede the path on its line.
  predicate LegalPath(path: string) {
    NewlineFree(path) && (path != "" ==> path[|path| - 1] != '\r') && |path| <= MAX_LINE - 139
  }

  lemma {:induction false} CutSpacesUnique(a: string, b: string)
    requires ' ' !in a
    ensures CutSpaces(a + "  " + b) == Some((a, b))
  {
    var s := a + "  " + b;
    if a == "" {
      assert s[2..] == b;
    } else {
      CutSpacesUnique(a[1..], b);
      assert s[1..] == a[1..] + "  " + b;
      assert a == [a[0]] + a[1..];
    }
  }

  lemma LineParses(d: Digest, path: string)
    requires IsShake(d)
    ensures ParseLine(d.String() + "  " + path) == Ok(Entry(d, path))
  {
    ShakeStringShape(d);
    CutSpacesUnique(d.String(), path);
    DigestRoundTrip(d);
  }

  // One step of the parser on a text that starts with a newline-free line.
  lemma ParseStep(line: string, rest: string)
    requires '\n' !in line && DropCR(line) != ""
    ensures Parse(line + ['\n'] + rest) ==
      if |line| > MAX_LINE then Err(LineTooLong)
      else var e :- ParseLine(DropCR(line)); After([e], rest)
  {
    CutUnique(line, '\n', rest);
    assert NextLine(line + ['\n'] + rest) == (line, rest);
  }

  // The part of a path that the parser finds on its first line, and what it leaves for the next.
  function FirstLine(path: string): (r: (string, Option<string>))
    ensures '\n' !in r.0
    ensures r.1.None? ==> r.0 == path
    ensures r.1.Some? ==> path == r.0 + ['\n'] + r.1.value
    ensures r.1.None? <==> NewlineFree(path)
  {
    match Cut(path, '\n')
    case None => (path, None)
    case Some((line, rest)) => (line, Some(rest))
  }

  function Left(path: string, tail: string): string {
    match FirstLine(path).1
    case None => tail
    case Some(rest) => rest + ['\n'] + tail
  }

  lemma PrintedLine(head: string, path: string, tail: string)
    ensures head + path + "\n" + tail == (head + FirstLine(path).0) + ['\n'] + Left(path, tail)
  {
    var (line, rest) := FirstLine(path);
    if rest.Some? {
      assert head + (line + ['\n'] + rest.value) + "\n" + tail == (head + line) + ['\n'] + (rest.value + ['\n'] + tail);
    } else {
      assert head + path + "\n" + tail == (head + path) + ['\n'] + tail;
    }
  }

  // How the parser sees the first printed entry: the path up to its first newline, without one
  // trailing carriage return; the rest of the path, if any, starts the next line.
  lemma ParseFirst(e: Entry, tail: string)
    requires IsShake(e.digest)
    ensures
      var shown := FirstLine(e.path).0;
      Parse(Line(e) + tail) ==
        if |shown| > MAX_LINE - 139 then Err(LineTooLong)
        else After([Entry(e.digest, DropCR(shown))], Left(e.path, tail))
  {
    var shown := FirstLine(e.path).0;
    var head := e.digest.String() + "  ";
    ShakeStringShape(e.digest);
    assert '\n' !in head && |head| == 139 && head[138] == ' ';
    PrintedLine(head, e.path, tail);
    assert Line(e) + tail == head + e.path + "\n" + tail;
    DropCRAppend(head, shown);
    ParseStep(head + shown, Left(e.path, tail));
    assert head + DropCR(shown) == e.digest.String() + "  " + DropCR(shown);
    LineParses(e.digest, DropCR(shown));
  }

  lemma DropCRAppend(head: string, path: string)
    requires head != "" && head[|head| - 1] != '\r'
    ensures DropCR(head + path) == head + DropCR(path)
  {
    if path != "" {
      assert (head + path)[|head + path| - 1] == path[|path| - 1];
      assert (head + path)[..|head + path| - 1] == head + path[..|path| - 1];
    } else {
      assert head + path == head;
    }
  }

  lemma ParseFirstLegal(e: Entry, tail: string)
    requires IsShake(e.digest) && LegalPath(e.path)
    ensures Parse(Line(e) + tail) == After([e], tail)
  {
    ParseFirst(e, tail);
    assert FirstLine(e.path) == (e.path, None);
    assert Left(e.path, tail) == tail;
  }

  lemma ParseFirstIllegal(e: Entry, tail: string)
    requires IsShake(e.digest) && !LegalPath(e.path)
    ensures var r := Parse(Line(e) + tail); r.Ok? ==> |r.value| > 0 && |r.value[0].path| < |e.path|
  {
    ParseFirst(e, tail);
    assert FirstLine(e.path).1.None? ==> FirstLine(e.path).0 == e.path;
  }

  // A printed list of entries parses to itself exactly when every path is legal.
  lemma {:induction false} TextRoundTrip(entries: seq<Entry>)
    requires AllShake(entries)
    ensures Parse(Text(entries)) == Ok(entries) <==> forall e :: e in entries ==> LegalPath(e.path)
  {
    if entries != [] {
      var e, more := entries[0], entries[1..];
      assert entries == [e] + more;
      if LegalPath(e.path) {
        TextRoundTrip(more);
        ParseFirstLegal(e, Text(more));
        var rest := Parse(Text(more));
        if rest.Ok? {
          assert ([e] + rest.value)[1..] == rest.value;
        }
      } else {
        ParseFirstIllegal(e, Text(more));
      }
    }
  }

  lemma SortedEntries(entries: seq<Entry>)
    ensures forall e :: e in entries <==> e in Sort(entries, PathOf)
  {
    SameElements(entries, Sort(entries, PathOf));
  }

  // The manifest round trip: what was stored is read back, sorted by path, exactly when the paths
  // hold no newline, do not end in a carriage return and fit the scanner's line.
  lemma ManifestRoundTrip(entries: seq<Entry>)
    requires AllShake(entries)
    ensures Parse(Serialize(entries)) == Ok(Sort(entries, PathOf))
       <==> forall e :: e in entries ==> LegalPath(e.path)
  {
    SortedEntries(entries);
    TextRoundTrip(Sort(entries, PathOf));
  }

  // The same for any arrangement by path, whatever order a sort leaves entries with equal paths in.
  lemma AnySortRoundTrip(entries: seq<Entry>, sorted: seq<Entry>)
    requires AllShake(entries) && multiset(sorted) == multiset(entries) && Sorted(sorted, PathOf)
    ensures Parse(Text(sorted)) == Ok(sorted) <==> forall e :: e in entries ==> LegalPath(e.path)
  {
    SameElements(entries, sorted);
    TextRoundTrip(sorted);
  }

  // With newline-free paths the parser may still fail (a line too long) or shorten a path (a trailing
  // carriage return), but it reads no digest that was not printed.
  lemma {:induction false} ParsedDigests(entries: seq<Entry>)
    requires AllShake(entries) && forall e :: e in entries ==> NewlineFree(e.path)
    ensures var r := Parse(Text(entries));
            r.Ok? ==> |r.value| == |entries| && forall i :: 0 <= i < |entries| ==>
              r.value[i].digest == entries[i].digest
  {
    if entries != [] {
      var more := entries[1..];
      assert entries == [entries[0]] + more;
      ParseFirst(entries[0], Text(more));
      ParsedDigests(more);
    }
  }

  function ForgingPath(other: Digest): string {
    "a" + ['\n'] + (other.String() + "  " + "b")
  }

  // A path with a newline makes the parser list a file that was never uploaded.
  lemma NewlineForgesEntry(d: Digest, other: Digest)
    requires IsShake(d) && IsShake(other)
    ensures Parse(Serialize([Entry(d, ForgingPath(other))])) == Ok([Entry(d, "a"), Entry(other, "b")])
  {
    var e, forged := Entry(d, ForgingPath(other)), Entry(other, "b");
    var rest := other.String() + "  " + "b";
    SingleText(e);
    CutUnique("a", '\n', rest);
    ParseFirst(e, "");
    assert Left(e.path, "") == Line(forged) + "" by {
      assert rest + ['\n'] + "" == Line(forged) + "";
    }
    assert DropCR("a") == "a";
    ParseFirstLegal(forged, "");
    AfterLast(Entry(d, "a"), forged, Line(forged) + "");
  }

  // ... and it is not one file that is printed, but two: the two manifests are one text.
  lemma NewlineSharesText(d: Digest, other: Digest)
    ensures Serialize([Entry(d, ForgingPath(other))]) == Serialize([Entry(d, "a"), Entry(other, "b")])
  {
    var e, x, y := Entry(d, ForgingPath(other)), Entry(d, "a"), Entry(other, "b");
    SingleText(e);
    AscendingPair(x, y);
    hide Sort;
    assert [x, y][1..] == [y] && [y][1..] == [];
    assert Text([y]) == Line(y) + Text([]);
    assert Text([x, y]) == Line(x) + Text([y]);
    hide Text;
    assert Line(e) == d.String() + "  " + ("a" + ['\n'] + (other.String() + "  " + "b")) + "\n";
    assert Line(e) == Line(x) + Line(y);
  }

  lemma AscendingPair(x: Entry, y: Entry)
    requires x.path == "a" && y.path == "b"
    ensures Sort([x, y], PathOf) == [x, y]
  {
    assert Sorted([x, y], PathOf);
    SortedUnique(Sort([x, y], PathOf), [x, y], PathOf);
  }

  lemma AfterLast(first: Entry, last: Entry, text: string)
    requires Parse(text) == After([last], "")
    ensures After([first], text) == Ok([first, last])
  {
    assert Parse("") == Ok([]);
    assert [last] + [] == [last];
    assert Parse(text) == Ok([last]);
    assert [first] + [last] == [first, last];
  }

  lemma SingleText(e: Entry)
    ensures Serialize([e]) == Line(e) + ""
  {
    assert Sort([e], PathOf) == [e] by {
      SortedUnique(Sort([e], PathOf), [e], PathOf);
    }
    assert [e][1..] == [];
    assert Text([e]) == Line(e) + Text([]);
  }

  // ----- The text as a canonical form -----

  lemma SplitAtNewline(a: string, b: string, c: string, d: string)
    requires '\n' !in a && '\n' !in c && a + ['\n'] + b == c + ['\n'] + d
    ensures a == c && b == d
  {
    CutUnique(a, '\n', b);
    CutUnique(c, '\n', d);
  }

  lemma {:induction false} TextInjective(a: seq<Entry>, b: seq<Entry>)
    requires AllShake(a) && AllShake(b)
    requires forall e :: e in a + b ==> NewlineFree(e.path)
    requires Text(a) == Text(b)
    ensures a == b
  {
    if a != [] && b != [] {
      var x, y := a[0], b[0];
      ShakeStringShape(x.digest);
      ShakeStringShape(y.digest);
      var lx, ly := x.digest.String() + "  " + x.path, y.digest.String() + "  " + y.path;
      assert Text(a) == lx + ['\n'] + Text(a[1..]);
      assert Text(b) == ly + ['\n'] + Text(b[1..]);
      assert x in a + b && y in a + b;
      SplitAtNewline(lx, Text(a[1..]), ly, Text(b[1..]));
      LineParses(x.digest, x.path);
      LineParses(y.digest, y.path);
      assert a == [x] + a[1..] && b == [y] + b[1..];
      TextInjective(a[1..], b[1..]);
    }
  }

  ghost predicate DistinctPaths(entries: seq<Entry>) {
    forall i, j :: 0 <= i < j < |entries| ==> entries[i].path != entries[j].path
  }

  lemma DistinctPathsInjective(entries: seq<Entry>)
    requires DistinctPaths(entries)
    ensures KeyInjective(entries, PathOf)
  {
  }

  // The text is a canonical form of a set of files: any order of the same entries prints the same
  // text, and different entries print different texts.
  lemma SerializeCanonical(a: seq<Entry>, b: seq<Entry>)
    requires AllShake(a) && AllShake(b) && DistinctPaths(a)
    requires forall e :: e in a + b ==> NewlineFree(e.path)
    ensures Serialize(a) == Serialize(b) <==> multiset(a) == multiset(b)
  {
    if multiset(a) == multiset(b) {
      DistinctPathsInjective(a);
      SortCanonical(a, b, PathOf);
    }
    if Serialize(a) == Serialize(b) {
      SerializeInjective(a, b);
    }
  }

  lemma SerializeInjective(a: seq<Entry>, b: seq<Entry>)
    requires AllShake(a) && AllShake(b)
    requires forall e :: e in a + b ==> NewlineFree(e.path)
    requires Serialize(a) == Serialize(b)
    ensures multiset(a) == multiset(b)
  {
    SortedEntries(a);
    SortedEntries(b);
    var sa, sb := Sort(a, PathOf), Sort(b, PathOf);
    assert forall e :: e in sa + sb ==> e in a || e in b;
    assert forall e :: e in a || e in b ==> e in a + b;
    TextInjective(sa, sb);
  }

  // ----- B4 and B5 -----

  function FilesDigest(h: Hash, entries: seq<Entry>): Digest {
    SumOf(h, Serialize(entries))
  }

  function ComputeB4(h: Hash, entries: seq<Entry>): ModuleDigest {
    ModuleDigest(B4, FilesDigest(h, entries).value)
  }

  function Strings(ds: seq<ModuleDigest>): (r: seq<string>)
    ensures |r| == |ds| && forall i :: 0 <= i < |ds| ==> r[i] == ds[i].String()
  {
    seq(|ds|, i requires 0 <= i < |ds| => ds[i].String())
  }

  lemma StringsLength(a: seq<ModuleDigest>, b: seq<ModuleDigest>)
    requires multiset(Strings(a)) == multiset(Strings(b))
    ensures |a| == |b|
  {
    SameElements(Strings(a), Strings(b));
  }

  // strings.Join(parts, "\n")
  function Join(parts: seq<string>): string {
    if parts == [] then ""
    else if |parts| == 1 then parts[0]
    else parts[0] + "\n" + Join(parts[1..])
  }

  // The string whose hash is the B5 digest.
  function B5Input(files: Digest, deps: seq<ModuleDigest>): string {
    Join([files.String()] + Sort(Strings(deps), Self))
  }

  function B5From(h: Hash, files: Digest, deps: seq<ModuleDigest>): ModuleDigest {
    ModuleDigest(B5, h(B5Input(files, deps)))
  }

  predicate AllB5(deps: seq<ModuleDigest>) {
    forall d :: d in deps ==> d.kind.B5?
  }

  function ComputeB5(h: Hash, entries: seq<Entry>, deps: seq<ModuleDigest>): Result<ModuleDigest> {
    if AllB5(deps) then Ok(B5From(h, FilesDigest(h, entries), deps)) else Err(DependencyNotB5)
  }

  // A B4 digest is the hash of such a manifest.
  lemma B4IsManifestHash(h: Hash, entries: seq<Entry>)
    ensures exists manifest ::
      IsManifestText(manifest, entries) && ComputeB4(h, entries) == ModuleDigest(B4, h(manifest))
  {
    hide IsManifestText, Serialize;
    SerializedText(entries);
  }

  // A B5 digest as it is printed.
  function B5Lines(deps: seq<ModuleDigest>): (r: seq<string>)
    ensures |r| == |deps| && forall i :: 0 <= i < |deps| ==> r[i] == "b5:" + EncodeHex(deps[i].value)
  {
    seq(|deps|, i requires 0 <= i < |deps| => "b5:" + EncodeHex(deps[i].value))
  }

  // What the hashed text looks like: the printed files digest on the first line, and on each of the others
  // one printed dependency digest, in byte order. No newline follows the last line.
  ghost predicate IsB5Text(text: string, files: Digest, deps: seq<ModuleDigest>) {
    var lines := LinesOf(text);
    && |lines| == 1 + |deps| && lines[0] == "shake256:" + EncodeHex(files.value)
    && multiset(lines[1..]) == multiset(B5Lines(deps)) && Ascending(lines[1..], Self)
  }

  lemma {:induction false} JoinedLines(parts: seq<string>)
    requires parts != [] && forall part :: part in parts ==> '\n' !in part
    ensures LinesOf(Join(parts)) == parts
  {
    if |parts| == 1 {
      OneLine(parts[0]);
    } else {
      JoinedLines(parts[1..]);
      LinesFirst(parts[0], Join(parts[1..]));
      assert Join(parts) == parts[0] + ['\n'] + Join(parts[1..]);
      assert parts == [parts[0]] + parts[1..];
    }
  }

  lemma PrintedB5(deps: seq<ModuleDigest>)
    requires AllB5(deps)
    ensures Strings(deps) == B5Lines(deps)
  {
    hide EncodeHex;
    var printed, lines := Strings(deps), B5Lines(deps);
    forall i | 0 <= i < |deps|
      ensures printed[i] == lines[i]
    {
      assert deps[i] in deps;
      assert "b5" + ":" == "b5:";
    }
  }

  // The hashed text looks like this, and no other text does.
  lemma B5TextExactly(text: string, files: Digest, deps: seq<ModuleDigest>)
    requires IsShake(files) && AllB5(deps)
    ensures IsB5Text(text, files, deps) <==> text == B5Input(files, deps)
  {
    hide Join, LinesOf, EncodeHex, Ascending, Sorted;
    var sorted := Sort(Strings(deps), Self);
    var parts := [files.String()] + sorted;
    StringsNewlineFree(files, deps);
    JoinedLines(parts);
    PrintedB5(deps);
    SortedIsAscending(sorted, Self);
    assert parts[1..] == sorted;
    ShakePrinted(files);
    if IsB5Text(text, files, deps) {
      var lines := LinesOf(text);
      SortedIsAscending(lines[1..], Self);
      OwnKeys(sorted);
      SortedUnique(sorted, lines[1..], Self);
      assert lines == [lines[0]] + lines[1..];
      LinesInjective(text, B5Input(files, deps));
    }
  }

  lemma ShakePrinted(d: Digest)
    requires IsShake(d)
    ensures d.String() == "shake256:" + EncodeHex(d.value)
  {
    assert SHAKE256 + ":" == "shake256:";
  }

  lemma OwnKeys(s: seq<string>)
    ensures KeyInjective(s, Self)
  {
  }

  // The digest is the hash of such a text, for the digest of such a manifest.
  ghost predicate IsB5Of(h: Hash, entries: seq<Entry>, deps: seq<ModuleDigest>, d: ModuleDigest) {
    exists manifest, text ::
      IsManifestText(manifest, entries) && IsB5Text(text, SumOf(h, manifest), deps) && d == ModuleDigest(B5, h(text))
  }

  lemma B5FromIsB5(h: Hash, entries: seq<Entry>, deps: seq<ModuleDigest>)
    requires AllB5(deps)
    ensures IsB5Of(h, entries, deps, B5From(h, FilesDigest(h, entries), deps))
  {
    hide IsManifestText, IsB5Text, Serialize, B5Input;
    SerializedText(entries);
    B5TextExactly(B5Input(FilesDigest(h, entries), deps), FilesDigest(h, entries), deps);
  }

  method ComputeB5Digest(h: Hash, entries: seq<Entry>, deps: seq<ModuleDigest>) returns (r: Result<ModuleDigest>)
    ensures r == ComputeB5(h, entries, deps)
    ensures r.Ok? <==> forall d :: d in deps ==> d.kind.B5?
    ensures r.Ok? ==> IsB5Of(h, entries, deps, r.value)
  {
    hide IsB5Of;
    if AllB5(deps) {
      B5FromIsB5(h, entries, deps);
    }
    var text := SerializeManifest(entries);
    var files := SumOf(h, text);
    var strings: seq<string> := [];
    for i := 0 to |deps|
      invariant strings == Strings(deps[..i])
      invariant AllB5(deps[..i])
    {
      if deps[i].kind != B5 {
        assert deps[i] in deps;
        return Err(DependencyNotB5);
      }
      strings := strings + [deps[i].String()];
      assert deps[..i + 1] == deps[..i] + [deps[i]];
    }
    assert deps[..|deps|] == deps;
    var combined := Join([files.String()] + Sort(strings, Self));
    return Ok(ModuleDigest(B5, h(combined)));
  }

  // The B5 digest does not depend on the order of files or of dependencies.
  lemma B5OrderInvariant(h: Hash, a: seq<Entry>, b: seq<Entry>, ds: seq<ModuleDigest>, es: seq<ModuleDigest>)
    requires DistinctPaths(a) && multiset(a) == multiset(b) && multiset(ds) == multiset(es)
    ensures ComputeB5(h, a, ds) == ComputeB5(h, b, es)
  {
    DistinctPathsInjective(a);
    SortCanonical(a, b, PathOf);
    StringsElements(ds, es);
    SortStringsCanonical(Strings(ds), Strings(es));
    SameElements(ds, es);
  }

  lemma StringsWithout(es: seq<ModuleDigest>, k: nat)
    requires k < |es|
    ensures multiset(Strings(es)) == multiset(Strings(Without(es, k))) + multiset{es[k].String()}
  {
    WithoutElements(Strings(es), k);
    assert Strings(Without(es, k)) == Without(Strings(es), k);
    assert Strings(es)[k] in multiset(Strings(es));
  }

  lemma {:induction false} StringsElements(ds: seq<ModuleDigest>, es: seq<ModuleDigest>)
    requires multiset(ds) == multiset(es)
    ensures multiset(Strings(ds)) == multiset(Strings(es))
  {
    SameElements(ds, es);
    if ds != [] {
      assert ds[0] in es;
      var k :| 0 <= k < |es| && es[k] == ds[0];
      TailElements(ds);
      WithoutElements(es, k);
      StringsElements(ds[1..], Without(es, k));
      StringsWithout(es, k);
      assert Without(ds, 0) == ds[1..];
      StringsWithout(ds, 0);
    }
  }

  lemma JoinHasNewline(a: seq<string>)
    requires |a| > 1
    ensures '\n' in Join(a)
  {
    assert Join(a)[|a[0]|] == '\n';
  }

  lemma {:induction false} JoinInjective(a: seq<string>, b: seq<string>)
    requires a != [] && b != []
    requires forall s :: s in a + b ==> '\n' !in s
    requires Join(a) == Join(b)
    ensures a == b
  {
    assert a[0] in a + b && b[0] in a + b;
    if |a| > 1 && |b| > 1 {
      assert Join(a) == a[0] + ['\n'] + Join(a[1..]);
      assert Join(b) == b[0] + ['\n'] + Join(b[1..]);
      SplitAtNewline(a[0], Join(a[1..]), b[0], Join(b[1..]));
      assert a == [a[0]] + a[1..] && b == [b[0]] + b[1..];
      assert forall s :: s in a[1..] + b[1..] ==> s in a + b;
      JoinInjective(a[1..], b[1..]);
    } else if |a| > 1 {
      JoinHasNewline(a);
    } else if |b| > 1 {
      JoinHasNewline(b);
    }
  }

  lemma StringsNewlineFree(f: Digest, ds: seq<ModuleDigest>)
    requires IsShake(f)
    ensures forall s :: s in [f.String()] + Sort(Strings(ds), Self) ==> '\n' !in s
  {
    ShakeStringShape(f);
    var sorted := Sort(Strings(ds), Self);
    SameElements(sorted, Strings(ds));
    forall s | s in sorted
      ensures '\n' !in s
    {
      var i :| 0 <= i < |ds| && Strings(ds)[i] == s;
      ModuleDigestStringShape(ds[i]);
    }
  }

  lemma ShakeAlgorithm(d: Digest)
    requires IsShake(d)
    ensures ':' !in d.algorithm
  {
  }

  // The hashed string determines the files digest and, up to order, the dependency digests.
  lemma B5InputInjective(f: Digest, ds: seq<ModuleDigest>, g: Digest, es: seq<ModuleDigest>)
    requires IsShake(f) && IsShake(g)
    requires B5Input(f, ds) == B5Input(g, es)
    ensures f == g && multiset(Strings(ds)) == multiset(Strings(es))
  {
    hide IsShake, Join, Strings, Sorted, Leq;
    var sd, se := Sort(Strings(ds), Self), Sort(Strings(es), Self);
    var a, b := [f.String()] + sd, [g.String()] + se;
    ShakeAlgorithm(f);
    ShakeAlgorithm(g);
    StringsNewlineFree(f, ds);
    StringsNewlineFree(g, es);
    JoinInjective(a, b);
    assert a[0] == b[0] && a[1..] == sd && b[1..] == se;
    DigestStringInjective(f, g);
  }
}
