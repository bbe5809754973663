/** The base 64 encoding of section 4 of RFC 4648 (standard alphabet, `=`
    padding), as the browser's `btoa` applies it to a Latin-1 string, and the
    matching decoder. */
module Base64 {
  import opened Wrappers

  /** An octet, and the 6-bit value one base 64 character stands for. */
  type Byte = b: int | 0 <= b < 256
  type Sextet = v: int | 0 <= v < 64

  /** The character for a 6-bit value, by the alphabet table of section 4 of
      RFC 4648: 0-25 are A-Z, 26-51 are a-z, 52-61 are 0-9, then `+` and `/`. */
  function SextetChar(v: Sextet): (c: char)
    ensures c != '='
  {
    if v < 26 then ('A' as int + v) as char
    else if v < 52 then ('a' as int + (v - 26)) as char
    else if v < 62 then ('0' as int + (v - 52)) as char
    else if v == 62 then '+'
    else '/'
  }

  /** The 6-bit value a character stands for, or None outside the alphabet. */
  function CharSextet(c: char): (r: Option<Sextet>)
    ensures r.Some? ==> SextetChar(r.value) == c
    ensures r.None? <==> !('A' <= c <= 'Z' || 'a' <= c <= 'z' || '0' <= c <= '9' || c == '+' || c == '/')
  {
    if 'A' <= c <= 'Z' then Some(c as int - 'A' as int)
    else if 'a' <= c <= 'z' then Some(c as int - 'a' as int + 26)
    else if '0' <= c <= '9' then Some(c as int - '0' as int + 52)
    else if c == '+' then Some(62)
    else if c == '/' then Some(63)
    else None
  }

  lemma SextetRoundTrip(v: Sextet)
    ensures CharSextet(SextetChar(v)) == Some(v)
  {
  }

  /** Three bytes as four characters: the 24 bits cut into four sextets,
      most significant first. */
  function EncodeTriple(b0: Byte, b1: Byte, b2: Byte): (s: string)
    ensures |s| == 4 && '=' !in s
  {
    [ SextetChar(b0 / 4),
      SextetChar(b0 % 4 * 16 + b1 / 16),
      SextetChar(b1 % 16 * 4 + b2 / 64),
      SextetChar(b2 % 64) ]
  }

  /** Encodes a byte string; a final group of one or two bytes is padded with
      `=`, its missing bits taken as zero. */
  function Encode(b: seq<Byte>): (s: string)
    ensures |s| == 4 * ((|b| + 2) / 3)
    ensures |b| % 3 == 0 ==> '=' !in s
  {
    if |b| >= 3 then
      GroupCount(|b|);
      EncodeTriple(b[0], b[1], b[2]) + Encode(b[3..])
    else if |b| == 2 then EncodeTriple(b[0], b[1], 0)[..3] + "="
    else if |b| == 1 then EncodeTriple(b[0], 0, 0)[..2] + "=="
    else ""
  }

  /** One more group of three bytes is one more group of four characters. */
  lemma GroupCount(n: nat)
    requires n >= 3
    ensures (n + 2) / 3 == (n - 1) / 3 + 1 && (n - 3) % 3 == n % 3
  {
  }

  /** One more group of four characters. */
  lemma QuadCount(n: nat)
    requires n >= 4
    ensures n / 4 == (n - 4) / 4 + 1 && (n - 4) % 4 == n % 4
  {
  }

  /** Reassembles the three bytes of one group of four sextets. */
  function DecodeQuad(x0: Sextet, x1: Sextet, x2: Sextet, x3: Sextet): seq<Byte> {
    [x0 * 4 + x1 / 16, x1 % 16 * 16 + x2 / 4, x2 % 4 * 64 + x3]
  }

  /** Decodes a group of four alphabet characters to three bytes. */
  function DecodeFull(g: string): (r: Option<seq<Byte>>)
    requires |g| == 4
    ensures r.Some? ==> |r.value| == 3
  {
    var x0, x1, x2, x3 := CharSextet(g[0]), CharSextet(g[1]), CharSextet(g[2]), CharSextet(g[3]);
    if x0.Some? && x1.Some? && x2.Some? && x3.Some? then
      Some(DecodeQuad(x0.value, x1.value, x2.value, x3.value))
    else None
  }

  /** Decodes the last group, which may end in one or two `=`. */
  function DecodeFinal(g: string): (r: Option<seq<Byte>>)
    requires |g| == 4
    ensures r.Some? ==> 1 <= |r.value| <= 3
  {
    var x0, x1, x2 := CharSextet(g[0]), CharSextet(g[1]), CharSextet(g[2]);
    if x0.None? || x1.None? then None
    else if g[2] == '=' && g[3] == '=' then Some(DecodeQuad(x0.value, x1.value, 0, 0)[..1])
    else if x2.Some? && g[3] == '=' then Some(DecodeQuad(x0.value, x1.value, x2.value, 0)[..2])
    else DecodeFull(g)
  }

  /** Decodes padded base 64; None for a length that is not a multiple of four,
      a character outside the alphabet, or padding anywhere but at the end. */
  function Decode(s: string): (r: Option<seq<Byte>>)
    ensures r.Some? ==> |s| % 4 == 0 && 3 * (|s| / 4) - 2 <= |r.value| <= 3 * (|s| / 4)
    decreases |s|
  {
    if s == [] then Some([])
    else if |s| < 4 then None
    else if |s| == 4 then DecodeFinal(s)
    else
      match DecodeFull(s[..4])
      case None => None
      case Some(group) =>
        QuadCount(|s|);
        match Decode(s[4..])
        case None => None
        case Some(rest) => Some(group + rest)
  }

  lemma TripleRoundTrip(b0: Byte, b1: Byte, b2: Byte)
    ensures DecodeQuad(b0 / 4, b0 % 4 * 16 + b1 / 16, b1 % 16 * 4 + b2 / 64, b2 % 64) == [b0, b1, b2]
  {
  }

  /** The padded group for a final pair of bytes decodes to that pair. */
  lemma DecodeEncodePair(b0: Byte, b1: Byte)
    ensures Decode(Encode([b0, b1])) == Some([b0, b1])
  {
    var c0, c1, c2 := b0 / 4, b0 % 4 * 16 + b1 / 16, b1 % 16 * 4;
    var s := [SextetChar(c0), SextetChar(c1), SextetChar(c2), '='];
    assert Encode([b0, b1]) == s;
    SextetRoundTrip(c0);
    SextetRoundTrip(c1);
    SextetRoundTrip(c2);
    PairRoundTrip(b0, b1);
    assert CharSextet(s[0]) == Some(c0) && CharSextet(s[1]) == Some(c1) && CharSextet(s[2]) == Some(c2);
  }

  lemma PairRoundTrip(b0: Byte, b1: Byte)
    ensures DecodeQuad(b0 / 4, b0 % 4 * 16 + b1 / 16, b1 % 16 * 4, 0)[..2] == [b0, b1]
  {
  }

  lemma SingleRoundTrip(b0: Byte)
    ensures DecodeQuad(b0 / 4, b0 % 4 * 16, 0, 0)[..1] == [b0]
  {
  }

  /** The padded group for a final single byte decodes to that byte. */
  lemma DecodeEncodeSingle(b0: Byte)
    ensures Decode(Encode([b0])) == Some([b0])
  {
    var c0, c1 := b0 / 4, b0 % 4 * 16;
    var s := [SextetChar(c0), SextetChar(c1), '=', '='];
    assert Encode([b0]) == s;
    SextetRoundTrip(c0);
    SextetRoundTrip(c1);
    SingleRoundTrip(b0);
    assert CharSextet(s[0]) == Some(c0) && CharSextet(s[1]) == Some(c1);
  }

  /** A full group in front of more text decodes to its three bytes followed by
      whatever the rest decodes to. */
  lemma DecodeFullGroup(b0: Byte, b1: Byte, b2: Byte, t: string)
    ensures Decode(EncodeTriple(b0, b1, b2) + t)
         == match Decode(t)
            case None => None
            case Some(rest) => Some([b0, b1, b2] + rest)
  {
    var g := EncodeTriple(b0, b1, b2);
    var s := g + t;
    TripleRoundTrip(b0, b1, b2);
    SextetRoundTrip(b0 / 4);
    SextetRoundTrip(b0 % 4 * 16 + b1 / 16);
    SextetRoundTrip(b1 % 16 * 4 + b2 / 64);
    SextetRoundTrip(b2 % 64);
    assert DecodeFull(g) == Some([b0, b1, b2]);
    if t == [] {
      assert s == g;
      assert g[2] != '=' && g[3] != '=';
      assert [b0, b1, b2] + [] == [b0, b1, b2];
    } else {
      assert s[..4] == g;
      assert s[4..] == t;
    }
  }

  /** Decoding an encoding gives back the bytes encoded. */
  lemma {:induction false} DecodeEncode(b: seq<Byte>)
    ensures Decode(Encode(b)) == Some(b)
    decreases |b|
  {
    if |b| >= 3 {
      DecodeEncode(b[3..]);
      DecodeEncodeStep(b);
    } else if |b| == 2 {
      DecodeEncodePair(b[0], b[1]);
      assert b == [b[0], b[1]];
    } else if |b| == 1 {
      DecodeEncodeSingle(b[0]);
      assert b == [b[0]];
    }
  }

  /** The inductive step: when the bytes after the first three survive the
      round trip, so do all of them. */
  lemma DecodeEncodeStep(b: seq<Byte>)
    requires |b| >= 3 && Decode(Encode(b[3..])) == Some(b[3..])
    ensures Decode(Encode(b)) == Some(b)
  {
    assert Encode(b) == EncodeTriple(b[0], b[1], b[2]) + Encode(b[3..]);
    DecodeFullGroup(b[0], b[1], b[2], Encode(b[3..]));
    SplitThree(b);
  }

  lemma SplitThree(b: seq<Byte>)
    requires |b| >= 3
    ensures b == [b[0], b[1], b[2]] + b[3..]
  {
  }

  /** Decoding works group by group: behind the same first group, texts that
      decode alike still decode alike. */
  lemma DecodeCongruent(g: string, r1: string, r2: string)
    requires |g| == 4 && r1 != [] && r2 != []
    requires Decode(r1) == Decode(r2)
    ensures Decode(g + r1) == Decode(g + r2)
  {
    assert (g + r1)[..4] == g && (g + r1)[4..] == r1;
    assert (g + r2)[..4] == g && (g + r2)[4..] == r2;
  }

  /** Two final groups that decode alike still decode alike behind the same
      full groups. */
  lemma {:induction false} DecodeSharedPrefix(p: string, groups: nat, t1: string, t2: string)
    requires |p| == 4 * groups && |t1| == 4 && |t2| == 4
    requires Decode(t1) == Decode(t2)
    ensures Decode(p + t1) == Decode(p + t2)
    decreases |p|
  {
    if p == [] {
      assert p + t1 == t1 && p + t2 == t2;
    } else {
      DecodeSharedPrefix(p[4..], groups - 1, t1, t2);
      SplitFirstGroup(p, t1);
      SplitFirstGroup(p, t2);
      DecodeCongruent(p[..4], p[4..] + t1, p[4..] + t2);
    }
  }

  lemma SplitFirstGroup(p: string, t: string)
    requires |p| >= 4
    ensures p + t == p[..4] + (p[4..] + t)
  {
  }

  /** Every character is in Latin-1, the range `btoa` accepts. */
  predicate IsLatin1(s: string) {
    forall i :: 0 <= i < |s| ==> s[i] as int < 256
  }

  /** The bytes of a Latin-1 string, or None when a character is above U+00FF
      (where `btoa` throws). */
  function Latin1(s: string): (r: Option<seq<Byte>>)
    ensures r.Some? <==> IsLatin1(s)
    ensures r.Some? ==> |r.value| == |s| && forall i :: 0 <= i < |s| ==> r.value[i] == s[i] as int
  {
    if IsLatin1(s) then Some(seq(|s|, i requires 0 <= i < |s| => s[i] as int)) else None
  }

  /** Bytes back to a Latin-1 string. */
  function FromLatin1(b: seq<Byte>): (s: string)
    ensures IsLatin1(s)
    ensures |s| == |b| && forall i :: 0 <= i < |b| ==> s[i] as int == b[i]
  {
    seq(|b|, i requires 0 <= i < |b| => b[i] as char)
  }

  lemma Latin1RoundTrip(s: string)
    requires IsLatin1(s)
    ensures FromLatin1(Latin1(s).value) == s
  {
  }

  /** The browser's `btoa`: None where it throws. */
  function Btoa(s: string): (r: Option<string>)
    ensures r.Some? <==> IsLatin1(s)
    ensures r.Some? ==> |r.value| == 4 * ((|s| + 2) / 3)
  {
    match Latin1(s)
    case None => None
    case Some(b) => Some(Encode(b))
  }

  /** `atob` undoes `btoa`. */
  lemma AtobBtoa(s: string)
    requires Btoa(s).Some?
    ensures Decode(Btoa(s).value) == Some(Latin1(s).value)
    ensures FromLatin1(Decode(Btoa(s).value).value) == s
  {
    DecodeEncode(Latin1(s).value);
    Latin1RoundTrip(s);
  }
}
