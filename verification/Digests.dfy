/** Digests and their printed forms (internal/storage/storage.go): lower-case Base16 (section 8 of
    RFC 4648), `algorithm:hex` for content digests and `type:hex` for module digests. */
module Digests {
  import opened Wrappers

  newtype byte = b: int | 0 <= b < 256

  const SHAKE256 := "shake256"

  // The 64-byte output this registry reads from SHAKE256 (section 6.2 of FIPS 202).
  type Sum = v: seq<byte> | |v| == 64 witness seq(64, _ => 0 as byte)

  // The hash itself stays uninterpreted: every theorem holds for whatever function is passed.
  type Hash = string -> Sum

  // Some string of `xs` and a different string of `ys` have the same hash. Such a pair always exists
  // among all strings, so the theorems name the two finite sets that were really hashed.
  ghost predicate Collision(h: Hash, xs: set<string>, ys: set<string>) {
    exists x, y :: x in xs && y in ys && x != y && h(x) == h(y)
  }

  // ----- Base16 -----

  function HexDigit(n: nat): (c: char)
    requires n < 16
    ensures HexValue(c) == Some(n)
    ensures c != '\n' && c != '\r' && c != ' ' && c != ':' && c != '/'
  {
    if n < 10 then '0' + n as char else 'a' + (n - 10) as char
  }

  const HEX_DIGITS := "0123456789abcdef"

  // Both cases are read; only lower case is printed.
  function HexValue(c: char): (n: Option<nat>)
    ensures n.Some? ==> n.value < 16
  {
    if '0' <= c <= '9' then Some((c - '0') as nat)
    else if 'a' <= c <= 'f' then Some((c - 'a') as nat + 10)
    else if 'A' <= c <= 'F' then Some((c - 'A') as nat + 10)
    else None
  }

  function EncodeHex(v: seq<byte>): (s: string)
    ensures |s| == 2 * |v|
    ensures forall c :: c in s ==> c != '\n' && c != '\r' && c != ' ' && c != ':' && c != '/'
  {
    if v == [] then ""
    else [HexDigit(v[0] as nat / 16), HexDigit(v[0] as nat % 16)] + EncodeHex(v[1..])
  }

  // Byte `i` takes two digits, the higher four bits first.
  lemma {:induction false} HexDigits(v: seq<byte>, i: nat)
    requires i < |v|
    ensures EncodeHex(v)[2 * i] == HEX_DIGITS[v[i] as nat / 16]
    ensures EncodeHex(v)[2 * i + 1] == HEX_DIGITS[v[i] as nat % 16]
  {
    var hex := EncodeHex(v);
    if i == 0 {
      DigitIs(v[0] as nat / 16);
      DigitIs(v[0] as nat % 16);
    } else {
      HexDigits(v[1..], i - 1);
      assert hex[2..] == EncodeHex(v[1..]);
      assert hex[2..][2 * (i - 1)] == hex[2 * i] && hex[2..][2 * (i - 1) + 1] == hex[2 * i + 1];
    }
  }

  lemma DigitIs(n: nat)
    requires n < 16
    ensures HexDigit(n) == HEX_DIGITS[n]
  {
  }

  function DecodeHex(s: string): Option<seq<byte>> {
    if s == "" then Some([])
    else if |s| == 1 then None
    else match (HexValue(s[0]), HexValue(s[1]), DecodeHex(s[2..]))
      case (Some(hi), Some(lo), Some(rest)) => Some([(16 * hi + lo) as byte] + rest)
      case _ => None
  }

  lemma {:induction false} HexRoundTrip(v: seq<byte>)
    ensures DecodeHex(EncodeHex(v)) == Some(v)
  {
    if v != [] {
      HexRoundTrip(v[1..]);
      var s := EncodeHex(v);
      assert s[2..] == EncodeHex(v[1..]);
      assert v == [v[0]] + v[1..];
    }
  }

  function Lower(c: char): char {
    if 'A' <= c <= 'F' then 'a' + (c - 'A') else c
  }

  function LowerAll(s: string): (r: string)
    ensures |r| == |s|
  {
    if s == "" then "" else [Lower(s[0])] + LowerAll(s[1..])
  }

  lemma HexDigitOfValue(c: char)
    requires HexValue(c).Some?
    ensures HexDigit(HexValue(c).value) == Lower(c)
  {
  }

  // The decoder accepts exactly the strings that spell the printed form in either case.
  lemma {:induction false} HexDecodeExact(s: string, v: seq<byte>)
    ensures DecodeHex(s) == Some(v) <==> LowerAll(s) == EncodeHex(v)
  {
    if s == "" || |s| == 1 {
      if |s| == 1 {
        assert |LowerAll(s)| == 1;
      }
    } else if v != [] {
      HexDecodeExact(s[2..], v[1..]);
      assert s[1..][1..] == s[2..];
      var low, hex := LowerAll(s), EncodeHex(v);
      assert low == [Lower(s[0]), Lower(s[1])] + LowerAll(s[2..]);
      assert low[2..] == LowerAll(s[2..]) && hex[2..] == EncodeHex(v[1..]);
      assert low == hex <==> low[0] == hex[0] && low[1] == hex[1] && low[2..] == hex[2..] by {
        if low[0] == hex[0] && low[1] == hex[1] && low[2..] == hex[2..] {
          assert low == [low[0], low[1]] + low[2..] && hex == [hex[0], hex[1]] + hex[2..];
        }
      }
      HexPair(s[0], s[1], v[0]);
      assert v == [v[0]] + v[1..];
    }
  }

  lemma HexPair(a: char, b: char, v: byte)
    ensures (HexValue(a).Some? && HexValue(b).Some? && 16 * HexValue(a).value + HexValue(b).value == v as nat)
       <==> (Lower(a) == HexDigit(v as nat / 16) && Lower(b) == HexDigit(v as nat % 16))
  {
    if HexValue(a).Some? && HexValue(b).Some? {
      HexDigitOfValue(a);
      HexDigitOfValue(b);
    }
  }

  lemma EncodeHexInjective(v: seq<byte>, w: seq<byte>)
    requires EncodeHex(v) == EncodeHex(w)
    ensures v == w
  {
    HexRoundTrip(v);
    HexRoundTrip(w);
  }

  // ----- Scanning for the first separator -----

  // Splits at the first occurrence of `c`.
  function Cut(s: string, c: char): (r: Option<(string, string)>)
    ensures r.None? <==> c !in s
    ensures r.Some? ==> s == r.value.0 + [c] + r.value.1 && c !in r.value.0
  {
    if s == "" then None
    else if s[0] == c then Some(("", s[1..]))
    else match Cut(s[1..], c)
      case None => None
      case Some((before, after)) => Some(([s[0]] + before, after))
  }

  lemma {:induction false} CutUnique(a: string, c: char, b: string)
    requires c !in a
    ensures Cut(a + [c] + b, c) == Some((a, b))
  {
    var s := a + [c] + b;
    if a == "" {
      assert s[1..] == b;
    } else {
      CutUnique(a[1..], c, b);
      assert s[1..] == a[1..] + [c] + b;
      assert a == [a[0]] + a[1..];
    }
  }

  // ----- Content digests -----

  datatype Digest = Digest(algorithm: string, value: seq<byte>) {

    function Hex(): string {
      EncodeHex(value)
    }

    function String(): string {
      algorithm + ":" + Hex()
    }
  }

  function SumOf(h: Hash, content: string): Digest {
    Digest(SHAKE256, h(content))
  }

  // The digests that the stores compute.
  predicate IsShake(d: Digest) {
    d.algorithm == SHAKE256 && |d.value| == 64
  }

  function ParseDigest(s: string): Result<Digest> {
    match Cut(s, ':')
    case None => Err(InvalidDigest)
    case Some((algorithm, hex)) =>
      match DecodeHex(hex)
      case None => Err(InvalidDigest)
      case Some(value) => Ok(Digest(algorithm, value))
  }

  // A digest survives printing and parsing exactly when its algorithm holds no colon.
  lemma DigestRoundTrip(d: Digest)
    ensures ParseDigest(d.String()) == Ok(d) <==> ':' !in d.algorithm
  {
    if ':' !in d.algorithm {
      CutUnique(d.algorithm, ':', d.Hex());
      HexRoundTrip(d.value);
    }
  }

  // What the parser accepts: an algorithm, the first colon, and the Base16 of the value in either case.
  lemma DigestParsesExactly(s: string, d: Digest)
    ensures ParseDigest(s) == Ok(d) <==>
      ':' !in d.algorithm && exists hex :: s == d.algorithm + ":" + hex && LowerAll(hex) == EncodeHex(d.value)
  {
    if ParseDigest(s).Ok? {
      HexDecodeExact(Cut(s, ':').value.1, ParseDigest(s).value.value);
    }
    if hex :| ':' !in d.algorithm && s == d.algorithm + ":" + hex && LowerAll(hex) == EncodeHex(d.value) {
      CutUnique(d.algorithm, ':', hex);
      HexDecodeExact(hex, d.value);
      assert s == d.algorithm + [':'] + hex;
    }
  }

  // What the parser accepts prints back as itself, but for the case of the hex digits.
  lemma DigestParsePrint(s: string)
    requires ParseDigest(s).Ok?
    ensures ':' in s && Cut(s, ':').Some?
    ensures ParseDigest(s).value.String() == Cut(s, ':').value.0 + ":" + LowerAll(Cut(s, ':').value.1)
  {
    var d := ParseDigest(s).value;
    HexDecodeExact(Cut(s, ':').value.1, d.value);
  }

  lemma ShakeStringShape(d: Digest)
    requires IsShake(d)
    ensures |d.String()| == 137 && d.String()[0] == 's'
    ensures forall c :: c in d.String() ==> c != '\n' && c != '\r' && c != ' '
  {
  }

  lemma DigestStringInjective(d: Digest, e: Digest)
    requires ':' !in d.algorithm && ':' !in e.algorithm && d.String() == e.String()
    ensures d == e
  {
    DigestRoundTrip(d);
    DigestRoundTrip(e);
  }

  // ----- Module digests -----

  // `Unset` is the zero value of the source's enumeration.
  datatype DigestType = Unset | B4 | B5

  function TypeString(t: DigestType): string {
    match t
    case Unset => "unknown(0)"
    case B4 => SHAKE256
    case B5 => "b5"
  }

  function ParseDigestType(s: string): Result<DigestType> {
    if s == SHAKE256 then Ok(B4)
    else if s == "b5" then Ok(B5)
    else Err(UnknownDigestType)
  }

  datatype ModuleDigest = ModuleDigest(kind: DigestType, value: seq<byte>) {

    function String(): string {
      TypeString(kind) + ":" + EncodeHex(value)
    }
  }

  function ParseModuleDigest(s: string): Result<ModuleDigest> {
    match Cut(s, ':')
    case None => Err(InvalidDigest)
    case Some((typeStr, hexStr)) =>
      var kind :- ParseDigestType(typeStr);
      match DecodeHex(hexStr)
      case None => Err(InvalidDigest)
      case Some(value) => if |value| == 64 then Ok(ModuleDigest(kind, value)) else Err(InvalidDigest)
  }

  // A module digest survives printing and parsing exactly when it is a full B4 or B5 digest.
  lemma ModuleDigestRoundTrip(d: ModuleDigest)
    ensures ParseModuleDigest(d.String()) == Ok(d) <==> !d.kind.Unset? && |d.value| == 64
  {
    hide EncodeHex, DecodeHex, Cut;
    TypeRoundTrip(d.kind);
    HexRoundTrip(d.value);
    var t := TypeString(d.kind);
    CutUnique(t, ':', EncodeHex(d.value));
    hide TypeString, ParseDigestType;
    assert d.String() == t + [':'] + EncodeHex(d.value);
  }

  lemma TypeRoundTrip(t: DigestType)
    ensures ':' !in TypeString(t)
    ensures ParseDigestType(TypeString(t)) == if t.Unset? then Err(UnknownDigestType) else Ok(t)
  {
  }

  lemma ModuleDigestStringShape(d: ModuleDigest)
    ensures forall c :: c in d.String() ==> c != '\n'
  {
    assert forall c :: c in TypeString(d.kind) ==> c != '\n';
  }

  lemma ModuleDigestStringInjective(d: ModuleDigest, e: ModuleDigest)
    requires d.kind == e.kind && d.String() == e.String()
    ensures d == e
  {
    var n := |TypeString(d.kind)| + 1;
    assert d.String()[n..] == EncodeHex(d.value);
    assert e.String()[n..] == EncodeHex(e.value);
    EncodeHexInjective(d.value, e.value);
  }
}
