/** UTF-8 text as the string functions see it: a run of bytes up to a zero byte, walked either by a
    table of lengths or by skipping continuation bytes, and decoded one character at a time.
    A character is the sequence of its bytes; well-formed characters are those of section 4 of
    RFC 3629, without the zero character. */
module Utf8 {

  type Char = seq<int>

  predicate Tail(b: int) { 0x80 <= b <= 0xBF }

  predicate WellFormed(c: Char) {
    || (|c| == 1 && 0x01 <= c[0] <= 0x7F)
    || (|c| == 2 && 0xC2 <= c[0] <= 0xDF && Tail(c[1]))
    || (|c| == 3 && Tail(c[2]) &&
        (|| (c[0] == 0xE0 && 0xA0 <= c[1] <= 0xBF)
         || (0xE1 <= c[0] <= 0xEC && Tail(c[1]))
         || (c[0] == 0xED && 0x80 <= c[1] <= 0x9F)
         || (0xEE <= c[0] <= 0xEF && Tail(c[1]))))
    || (|c| == 4 && Tail(c[2]) && Tail(c[3]) &&
        (|| (c[0] == 0xF0 && 0x90 <= c[1] <= 0xBF)
         || (0xF1 <= c[0] <= 0xF3 && Tail(c[1]))
         || (c[0] == 0xF4 && 0x80 <= c[1] <= 0x8F)))
  }

  /** The code point a well-formed character encodes (section 3 of RFC 3629). */
  function CodePoint(c: Char): int
    requires WellFormed(c)
  {
    if |c| == 1 then c[0]
    else if |c| == 2 then (c[0] - 0xC0) * 64 + (c[1] - 0x80)
    else if |c| == 3 then (c[0] - 0xE0) * 4096 + (c[1] - 0x80) * 64 + (c[2] - 0x80)
    else (c[0] - 0xF0) * 262144 + (c[1] - 0x80) * 4096 + (c[2] - 0x80) * 64 + (c[3] - 0x80)
  }

  lemma {:induction false} CodePointIsInjective(c: Char, d: Char)
    requires WellFormed(c) && WellFormed(d)
    ensures 0 < CodePoint(c)
    ensures CodePoint(c) == CodePoint(d) <==> c == d
  {
    CodePointFixesLength(c);
    CodePointFixesLength(d);
    if CodePoint(c) == CodePoint(d) {
      assert |c| == |d|;
      if |c| == 4 { FourBytes(c, d); } else { UpToThreeBytes(c, d); }
    }
  }

  lemma {:induction false} UpToThreeBytes(c: Char, d: Char)
    requires WellFormed(c) && WellFormed(d) && |c| == |d| < 4 && CodePoint(c) == CodePoint(d)
    ensures c == d
  {
    assert forall i | 0 <= i < |c| :: c[i] == d[i];
  }

  lemma {:induction false} FourBytes(c: Char, d: Char)
    requires WellFormed(c) && WellFormed(d) && |c| == |d| == 4 && CodePoint(c) == CodePoint(d)
    ensures c == d
  {
    assert c[0] == d[0];
    assert c[1] == d[1];
    assert c[2] == d[2] && c[3] == d[3];
  }

  lemma {:induction false} CodePointFixesLength(c: Char)
    requires WellFormed(c)
    ensures |c| == 1 <==> 1 <= CodePoint(c) <= 0x7F
    ensures |c| == 2 <==> 0x80 <= CodePoint(c) <= 0x7FF
    ensures |c| == 3 <==> 0x800 <= CodePoint(c) <= 0xFFFF
    ensures |c| == 4 <==> 0x10000 <= CodePoint(c) <= 0x10FFFF
    ensures !(0xD800 <= CodePoint(c) <= 0xDFFF)
  {}

  /** A code point that is no surrogate, other than zero. */
  predicate Scalar(v: int) {
    0 < v <= 0x10FFFF && !(0xD800 <= v <= 0xDFFF)
  }

  /** The bytes of a code point (section 3 of RFC 3629). */
  function Encoded(v: int): Char {
    var x, y := v / 64, v / 64 / 64;
    if v < 0x80 then [v]
    else if v < 0x800 then [0xC0 + x, 0x80 + v % 64]
    else if v < 0x10000 then [0xE0 + y, 0x80 + x % 64, 0x80 + v % 64]
    else [0xF0 + y / 64, 0x80 + y % 64, 0x80 + x % 64, 0x80 + v % 64]
  }

  lemma {:induction false} EncodedRoundTrip(v: int)
    requires Scalar(v)
    ensures WellFormed(Encoded(v)) && CodePoint(Encoded(v)) == v
  {
    var x, y := v / 64, v / 64 / 64;
    assert v == 64 * x + v % 64 && x == 64 * y + x % 64 && y == 64 * (y / 64) + y % 64;
  }

  /** Code points and well-formed characters are in one-to-one correspondence. */
  lemma {:induction false} CodePointsEncode(c: Char, v: int)
    requires WellFormed(c) && Scalar(v)
    ensures Scalar(CodePoint(c))
    ensures CodePoint(c) == v <==> c == Encoded(v)
  {
    CodePointFixesLength(c);
    EncodedRoundTrip(v);
    CodePointIsInjective(c, Encoded(v));
  }

  // ----- Text

  ghost predicate AllWellFormed(cs: seq<Char>) {
    forall i | 0 <= i < |cs| :: WellFormed(cs[i])
  }

  function Bytes(cs: seq<Char>): seq<int> {
    if cs == [] then [] else Bytes(cs[..|cs| - 1]) + cs[|cs| - 1]
  }

  /** `z` is the zero-terminated text of the given characters. */
  ghost predicate Encodes(z: seq<int>, cs: seq<Char>) {
    AllWellFormed(cs) && z == Bytes(cs) + [0]
  }

  /** Where character `i` begins. */
  ghost function Offset(cs: seq<Char>, i: nat): nat
    requires i <= |cs|
  {
    |Bytes(cs[..i])|
  }

  lemma {:induction false} BytesJoin(a: seq<Char>, b: seq<Char>)
    ensures Bytes(a + b) == Bytes(a) + Bytes(b)
  {
    if b == [] {
      assert a + b == a;
    } else {
      assert (a + b)[..|a + b| - 1] == a + b[..|b| - 1];
      BytesJoin(a, b[..|b| - 1]);
    }
  }

  lemma {:induction false} BytesOfOne(c: Char)
    ensures Bytes([c]) == c
  {
    assert [c][..0] == [];
  }

  lemma {:induction false} CharAt(z: seq<int>, cs: seq<Char>, i: nat)
    requires Encodes(z, cs) && i < |cs|
    ensures WellFormed(cs[i])
    ensures Offset(cs, i + 1) == Offset(cs, i) + |cs[i]| < |z|
    ensures forall k | 0 <= k < |cs[i]| :: z[Offset(cs, i) + k] == cs[i][k]
  {
    assert cs[..i + 1][..i] == cs[..i];
    assert cs == cs[..i + 1] + cs[i + 1..];
    BytesJoin(cs[..i + 1], cs[i + 1..]);
    assert Bytes(cs[..i + 1]) == Bytes(cs[..i]) + cs[i];
  }

  /** The byte where a character could begin is never a continuation byte; it is zero exactly at
      the end. */
  lemma {:induction false} Boundary(z: seq<int>, cs: seq<Char>, i: nat)
    requires Encodes(z, cs) && i <= |cs|
    ensures Offset(cs, i) < |z| && !Tail(z[Offset(cs, i)])
    ensures z[Offset(cs, i)] == 0 <==> i == |cs|
  {
    if i < |cs| { CharAt(z, cs, i); } else { assert cs[..i] == cs; }
  }

  lemma {:induction false} OffsetsIncrease(cs: seq<Char>, i: nat, j: nat)
    requires AllWellFormed(cs) && i <= j <= |cs|
    ensures Offset(cs, i) + (j - i) <= Offset(cs, j)
  {
    if i < j {
      OffsetsIncrease(cs, i, j - 1);
      assert cs[..j][..j - 1] == cs[..j - 1] && WellFormed(cs[j - 1]);
    }
  }

  // ----- Walking

  /** Extra bytes announced by a leading byte; 4 marks bytes that lead nothing. */
  function Extra(b: int): nat {
    if b < 0x80 then 0
    else if b < 0xC0 then 4
    else if b < 0xE0 then 1
    else if b < 0xF0 then 2
    else if b < 0xF8 then 3
    else 4
  }

  /** Skips to the next byte that is not a continuation byte. */
  method NextChar(z: seq<int>, p: nat, ghost cs: seq<Char>, ghost i: nat) returns (q: nat)
    requires Encodes(z, cs) && i < |cs| && p == Offset(cs, i)
    ensures p < |z| && q == Offset(cs, i + 1) == p + Extra(z[p]) + 1
  {
    CharAt(z, cs, i);
    Boundary(z, cs, i + 1);
    forall j | p < j < Offset(cs, i + 1) ensures Tail(z[j]) {
      assert z[j] == cs[i][j - p];
    }
    q := p + 1;
    while Tail(z[q])
      invariant p < q <= Offset(cs, i + 1)
      decreases Offset(cs, i + 1) - q
    {
      q := q + 1;
    }
  }

  /** Counts the characters that begin within the first `nByte` bytes, or all of them when `nByte`
      is negative, by the table of lengths. */
  method CharLen(z: seq<int>, nByte: int, ghost cs: seq<Char>) returns (r: nat)
    requires Encodes(z, cs)
    ensures nByte < 0 ==> r == |cs|
    ensures r <= |cs| && forall i: nat | i <= |cs| :: i < r <==> i < |cs| && (nByte < 0 || Offset(cs, i) < nByte)
  {
    r := 0;
    var p := 0;
    Boundary(z, cs, 0);
    assert cs[..0] == [];
    while z[p] != 0 && (nByte < 0 || p < nByte)
      invariant r <= |cs| && p == Offset(cs, r) < |z|
      invariant z[p] == 0 <==> r == |cs|
      invariant forall i: nat | i < r :: nByte < 0 || Offset(cs, i) < nByte
      decreases |cs| - r
    {
      CharAt(z, cs, r);
      Boundary(z, cs, r + 1);
      p := p + Extra(z[p]) + 1;
      r := r + 1;
    }
    forall i: nat | r <= i <= |cs| ensures i == |cs| || (nByte >= 0 && Offset(cs, i) >= nByte) {
      OffsetsIncrease(cs, r, i);
    }
  }

  // ----- Decoding

  /** What the decoder makes of the bytes at `p`. Surrogates, overlong forms, U+FFFE and U+FFFF become
      the replacement character. */
  function Decode(z: seq<int>, p: nat): int
    requires p < |z| && (Extra(z[p]) == 4 || p + Extra(z[p]) < |z|)
  {
    var b, xtra := z[p], Extra(z[p]);
    if xtra == 4 then 0xFFFD
    else if xtra == 0 then b
    else
      var c :=
        if xtra == 1 then b * 64 + z[p + 1] - 12416
        else if xtra == 2 then (b * 64 + z[p + 1]) * 64 + z[p + 2] - 925824
        else ((b * 64 + z[p + 1]) * 64 + z[p + 2]) * 64 + z[p + 3] - 63447168;
      var least := if xtra == 1 then 0x80 else if xtra == 2 then 0x800 else 0x10000;
      if 0 <= c < least || 0xD800 <= c <= 0xDFFF || 0xFFFE <= c <= 0xFFFF then 0xFFFD else c
  }

  /** The decoded value of a well-formed character. */
  function Decoded(c: Char): int
    requires WellFormed(c)
  {
    if 0xFFFE <= CodePoint(c) <= 0xFFFF then 0xFFFD else CodePoint(c)
  }

  ghost function DecodedAll(cs: seq<Char>): (r: seq<int>)
    requires AllWellFormed(cs)
    ensures |r| == |cs|
  {
    seq(|cs|, i requires 0 <= i < |cs| => Decoded(cs[i]))
  }

  /** On well-formed text the decoder is never misled: it reads the code point, except that the
      two noncharacters become the replacement character, and reads zero only at the end. */
  lemma {:induction false} DecodesCodePoints(z: seq<int>, cs: seq<Char>, i: nat)
    requires Encodes(z, cs) && i <= |cs|
    ensures Offset(cs, i) < |z| && (Extra(z[Offset(cs, i)]) == 4 || Offset(cs, i) + Extra(z[Offset(cs, i)]) < |z|)
    ensures i < |cs| ==> Decode(z, Offset(cs, i)) == Decoded(cs[i]) > 0
    ensures i == |cs| ==> Decode(z, Offset(cs, i)) == 0
  {
    Boundary(z, cs, i);
    if i < |cs| {
      CharAt(z, cs, i);
      var p, c := Offset(cs, i), cs[i];
      CodePointFixesLength(c);
      assert z[p..p + |c|] == c;
      DecodeIsCodePoint(z, p, c);
    }
  }

  lemma {:induction false} DecodeIsCodePoint(z: seq<int>, p: nat, c: Char)
    requires WellFormed(c) && p + |c| <= |z| && z[p..p + |c|] == c
    ensures Extra(z[p]) == |c| - 1 && Decode(z, p) == Decoded(c)
  {
    CodePointFixesLength(c);
    var w := z[p..p + |c|];
    assert z[p] == w[0];
    if |c| > 1 { assert z[p + 1] == w[1]; }
    if |c| > 2 { assert z[p + 2] == w[2]; }
    if |c| > 3 { assert z[p + 3] == w[3]; }
  }

  /** Different characters decode alike only if they are U+FFFD, U+FFFE or U+FFFF. */
  lemma {:induction false} DecodedAlike(c: Char, d: Char)
    requires WellFormed(c) && WellFormed(d)
    ensures Decoded(c) == Decoded(d) <==>
      c == d || (0xFFFD <= CodePoint(c) <= 0xFFFF && 0xFFFD <= CodePoint(d) <= 0xFFFF)
  {
    CodePointIsInjective(c, d);
  }

  /** Reads the character at `p`, zero at the end of the text. */
  method CharVal(z: seq<int>, p: nat, ghost cs: seq<Char>, ghost i: nat) returns (c: int)
    requires Encodes(z, cs) && i <= |cs| && p == Offset(cs, i)
    ensures i < |cs| ==> c == Decoded(cs[i]) > 0
    ensures i == |cs| ==> c == 0
  {
    DecodesCodePoints(z, cs, i);
    c := Decode(z, p);
  }
}
