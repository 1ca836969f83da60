/** The SQL string functions on UTF-8 text: leftstr, rightstr, reverse, padc and charindex. Each
    takes the bytes `z` of a text and, for its specification only, the characters `cs` they
    encode. */
module TextFunctions {
  import opened Wrappers
  import opened Utf8

  function Min(a: int, b: int): int { if a < b then a else b }
  function Max(a: int, b: int): int { if a < b then b else a }

  // ----- The leftmost and rightmost characters

  /** The leftmost characters, all of them when there are fewer than `l`. */
  ghost function Left(cs: seq<Char>, l: int): seq<Char> {
    cs[..Min(Max(l, 0), |cs|)]
  }

  ghost function Right(cs: seq<Char>, l: int): seq<Char>
    requires l >= 0
  {
    cs[Max(|cs| - l, 0)..]
  }

  method LeftFunc(z: seq<int>, l: int, ghost cs: seq<Char>) returns (rz: seq<int>)
    requires Encodes(z, cs)
    ensures Encodes(rz, Left(cs, l))
  {
    var zt, c := SkipChars(z, l, cs);
    SplitAt(z, cs, c);
    rz := z[..zt] + [0];
  }

  /** Moves past the first `s` characters, or to the end. */
  method SkipChars(z: seq<int>, s: int, ghost cs: seq<Char>) returns (zt: nat, c: nat)
    requires Encodes(z, cs)
    ensures c == Min(Max(s, 0), |cs|) && zt == Offset(cs, c)
  {
    zt, c := 0, 0;
    assert cs[..0] == [];
    var val := CharVal(z, zt, cs, c);
    while val != 0 && c < s
      invariant c <= |cs| && (c <= s || c == 0) && zt == Offset(cs, c)
      invariant val == 0 <==> c == |cs|
      decreases |cs| - c
    {
      zt := NextChar(z, zt, cs, c);
      c := c + 1;
      val := CharVal(z, zt, cs, c);
    }
  }

  /** The text splits at a character boundary. */
  lemma {:induction false} SplitAt(z: seq<int>, cs: seq<Char>, i: nat)
    requires Encodes(z, cs) && i <= |cs|
    ensures Offset(cs, i) < |z|
    ensures z[..Offset(cs, i)] == Bytes(cs[..i]) && z[Offset(cs, i)..] == Bytes(cs[i..]) + [0]
  {
    assert cs == cs[..i] + cs[i..];
    BytesJoin(cs[..i], cs[i..]);
  }

  /** A negative count walks past the end of the text in the program, so it is not allowed here. */
  method RightFunc(z: seq<int>, l: int, ghost cs: seq<Char>) returns (rz: seq<int>)
    requires Encodes(z, cs) && l >= 0
    ensures Encodes(rz, Right(cs, l))
  {
    var c := CountChars(z, cs);
    var cc := c - l;
    if cc < 0 {
      cc := 0;
    }
    var zt, i := 0, 0;
    assert cs[..0] == [];
    while cc > 0
      invariant 0 <= cc && 0 <= i && i + cc == Max(|cs| - l, 0) && zt == Offset(cs, i)
    {
      zt := NextChar(z, zt, cs, i);
      i := i + 1;
      cc := cc - 1;
    }
    SplitAt(z, cs, i);
    rz := z[zt..];
  }

  method CountChars(z: seq<int>, ghost cs: seq<Char>) returns (c: nat)
    requires Encodes(z, cs)
    ensures c == |cs|
  {
    c := 0;
    var zt := 0;
    assert cs[..0] == [];
    var val := CharVal(z, zt, cs, c);
    while val != 0
      invariant c <= |cs| && zt == Offset(cs, c)
      invariant val == 0 <==> c == |cs|
      decreases |cs| - c
    {
      zt := NextChar(z, zt, cs, c);
      c := c + 1;
      val := CharVal(z, zt, cs, c);
    }
  }

  /** The left part of a text followed by the right part of the remaining length is the text. */
  lemma {:induction false} LeftThenRight(cs: seq<Char>, k: nat)
    requires k <= |cs|
    ensures Left(cs, k) + Right(cs, |cs| - k) == cs
    ensures Bytes(Left(cs, k)) + Bytes(Right(cs, |cs| - k)) == Bytes(cs)
  {
    BytesJoin(Left(cs, k), Right(cs, |cs| - k));
  }

  /** The left part begins the text and the right part ends it; each has `l` characters, none when `l` is
      negative and all when there are fewer. */
  lemma {:induction false} PartsOfText(cs: seq<Char>, l: int)
    ensures Left(cs, l) <= cs && |Left(cs, l)| == if l < 0 then 0 else if l < |cs| then l else |cs|
    ensures l >= 0 ==> |Right(cs, l)| == |Left(cs, l)| && Right(cs, l) == cs[|cs| - |Right(cs, l)|..]
  {}

  // ----- Reversal

  ghost function Reversed(cs: seq<Char>): (r: seq<Char>)
    ensures |r| == |cs|
  {
    if cs == [] then [] else [cs[|cs| - 1]] + Reversed(cs[..|cs| - 1])
  }

  lemma {:induction false} ReversedAt(cs: seq<Char>, i: nat)
    requires i < |cs|
    ensures Reversed(cs)[i] == cs[|cs| - 1 - i]
  {
    if i > 0 { ReversedAt(cs[..|cs| - 1], i - 1); }
  }

  /** Reversal is its own inverse. */
  lemma {:induction false} ReversedTwice(cs: seq<Char>)
    ensures Reversed(Reversed(cs)) == cs
  {
    forall i | 0 <= i < |cs| ensures Reversed(Reversed(cs))[i] == cs[i] {
      ReversedAt(Reversed(cs), i);
      ReversedAt(cs, |cs| - 1 - i);
    }
  }

  /** The right part is the left part of the reversed text, reversed. */
  lemma {:induction false} RightMirrorsLeft(cs: seq<Char>, l: nat)
    ensures Right(cs, l) == Reversed(Left(Reversed(cs), l))
  {
    var left := Left(Reversed(cs), l);
    assert |Right(cs, l)| == |left|;
    forall i | 0 <= i < |left| ensures Right(cs, l)[i] == Reversed(left)[i] {
      ReversedAt(left, i);
      ReversedAt(cs, |left| - 1 - i);
    }
  }

  lemma {:induction false} ReversedWellFormed(cs: seq<Char>)
    requires AllWellFormed(cs)
    ensures AllWellFormed(Reversed(cs))
  {
    forall i | 0 <= i < |cs| ensures WellFormed(Reversed(cs)[i]) {
      ReversedAt(cs, i);
    }
  }

  lemma {:induction false} ReversedBytes(cs: seq<Char>, i: nat)
    requires i < |cs|
    ensures Bytes(Reversed(cs[..i + 1])) == cs[i] + Bytes(Reversed(cs[..i]))
  {
    assert cs[..i + 1][..i] == cs[..i];
    BytesJoin([cs[i]], Reversed(cs[..i]));
    BytesOfOne(cs[i]);
  }

  /** What has been copied after `i` characters: they fill the end of the buffer in reverse. */
  ghost predicate Copied(rz: seq<int>, rzt: int, cs: seq<Char>, i: nat)
    requires i <= |cs|
  {
    -1 <= rzt < |rz| && rz[rzt + 1..] == Bytes(Reversed(cs[..i])) + [0]
  }

  /** Copies each character, in the order of its bytes, in front of the ones already copied. */
  method ReverseFunc(z: seq<int>, ghost cs: seq<Char>) returns (result: seq<int>)
    requires Encodes(z, cs)
    ensures Encodes(result, Reversed(cs))
  {
    var l := |z| - 1;
    var rz := new int[l + 1];
    rz[l] := 0;
    var rzt := l - 1;
    var zt := 0;
    ghost var i := 0;
    assert cs[..0] == [] && rz[..][rzt + 1..] == [0];
    var val := CharVal(z, zt, cs, i);
    while val != 0
      invariant 0 <= i <= |cs| && zt == Offset(cs, i) && rzt == l - 1 - zt
      invariant val == 0 <==> i == |cs|
      invariant Copied(rz[..], rzt, cs, i)
      decreases |cs| - i
    {
      var start := zt;
      zt := NextChar(z, zt, cs, i);
      rzt := CopyCharacter(z, start, zt, rz, rzt, cs, i);
      i := i + 1;
      val := CharVal(z, zt, cs, i);
    }
    result := rz[..];
    AllCopied(z, result, rzt, cs);
  }

  lemma {:induction false} AllCopied(z: seq<int>, rz: seq<int>, rzt: int, cs: seq<Char>)
    requires Encodes(z, cs) && Copied(rz, rzt, cs, |cs|) && rzt == |z| - 2 - Offset(cs, |cs|)
    ensures Encodes(rz, Reversed(cs))
  {
    assert cs[..|cs|] == cs;
    ReversedWellFormed(cs);
    assert rzt == -1 && rz[0..] == rz;
  }

  lemma {:induction false} OneMoreCopied(z: seq<int>, start: nat, end: nat, before: seq<int>, after: seq<int>,
      at: int, cs: seq<Char>, i: nat)
    requires Encodes(z, cs) && i < |cs| && start == Offset(cs, i) && end == Offset(cs, i + 1) <= |z|
    requires Copied(before, at, cs, i) && |after| == |before| && -1 <= at - (end - start)
    requires forall k | at < k < |after| :: after[k] == before[k]
    requires forall k | at - (end - start) < k <= at :: after[k] == z[end - 1 - (at - k)]
    ensures Copied(after, at - (end - start), cs, i + 1)
  {
    CharAt(z, cs, i);
    ReversedBytes(cs, i);
    assert z[start..end] == cs[i];
    CopiedInFront(z, start, end, before, after, at);
  }

  lemma {:induction false} CopiedInFront(z: seq<int>, start: nat, end: nat, before: seq<int>, after: seq<int>, at: int)
    requires start <= end <= |z| && -1 <= at < |before| == |after| && -1 <= at - (end - start)
    requires forall k | at < k < |after| :: after[k] == before[k]
    requires forall k | at - (end - start) < k <= at :: after[k] == z[end - 1 - (at - k)]
    ensures after[at - (end - start) + 1..] == z[start..end] + before[at + 1..]
  {}

  method CopyCharacter(z: seq<int>, start: nat, end: nat, rz: array<int>, at: int, ghost cs: seq<Char>, ghost i: nat)
    returns (rzt: int)
    requires Encodes(z, cs) && i < |cs| && start == Offset(cs, i) && end == Offset(cs, i + 1)
    requires rz.Length == |z| && at == |z| - 2 - start && Copied(rz[..], at, cs, i)
    modifies rz
    ensures rzt == |z| - 2 - end && Copied(rz[..], rzt, cs, i + 1)
  {
    ghost var before := rz[..];
    CharAt(z, cs, i);
    rzt := CopyBackwards(z, start, end, rz, at);
    OneMoreCopied(z, start, end, before, rz[..], at, cs, i);
  }

  /** Writes the bytes of `z` from `start` to `end` so that the last one lands at `at`. */
  method CopyBackwards(z: seq<int>, start: nat, end: nat, rz: array<int>, at: int) returns (rzt: int)
    requires start < end <= |z| && at < rz.Length && end - start <= at + 1
    modifies rz
    ensures rzt == at - (end - start)
    ensures forall k | at < k < rz.Length :: rz[k] == old(rz[k])
    ensures forall k | 0 <= k <= rzt :: rz[k] == old(rz[k])
    ensures forall k | rzt < k <= at :: rz[k] == z[end - 1 - (at - k)]
  {
    rzt := at;
    var i := 1;
    while end - i >= start
      invariant 1 <= i <= end - start + 1 && rzt == at - (i - 1)
      invariant forall k | at < k < rz.Length :: rz[k] == old(rz[k])
      invariant forall k | 0 <= k <= rzt :: rz[k] == old(rz[k])
      invariant forall k | rzt < k <= at :: rz[k] == z[end - 1 - (at - k)]
      decreases end - i - start
    {
      rz[rzt] := z[end - i];
      rzt := rzt - 1;
      i := i + 1;
    }
  }

  // ----- Centred padding

  const SPACE := 0x20

  ghost function Spaces(n: nat): seq<Char> {
    seq(n, i => [SPACE])
  }

  /** The text with spaces on both sides up to `n` characters; one more on the right when they
      cannot be shared evenly. */
  ghost function Centred(cs: seq<Char>, n: int): seq<Char> {
    if |cs| >= n then cs
    else
      var left := (n - |cs|) / 2;
      Spaces(left) + cs + Spaces(n - |cs| - left)
  }

  lemma {:induction false} SpacesBytes(n: nat)
    ensures |Bytes(Spaces(n))| == n && forall i | 0 <= i < n :: Bytes(Spaces(n))[i] == SPACE
  {
    if n > 0 {
      assert Spaces(n)[..n - 1] == Spaces(n - 1);
      SpacesBytes(n - 1);
    }
  }

  /** Padding gives exactly max(n, length) characters, keeps the text together, and the two sides
      differ by at most one space. */
  lemma {:induction false} CentredShape(cs: seq<Char>, n: int)
    requires AllWellFormed(cs)
    ensures AllWellFormed(Centred(cs, n)) && |Centred(cs, n)| == Max(n, |cs|)
    ensures exists left: nat, right: nat ::
      Centred(cs, n) == Spaces(left) + cs + Spaces(right) && left <= right <= left + 1
  {
    if |cs| >= n {
      assert Centred(cs, n) == Spaces(0) + cs + Spaces(0);
    } else {
      var left := (n - |cs|) / 2;
      assert Centred(cs, n) == Spaces(left) + cs + Spaces(n - |cs| - left);
    }
  }

  method PadcFunc(zi: seq<int>, ilen: int, ghost cs: seq<Char>) returns (result: Option<seq<int>>)
    requires Encodes(zi, cs)
    ensures result.None? <==> ilen < 0
    ensures result.Some? ==> Encodes(result.value, Centred(cs, ilen))
  {
    if ilen < 0 {
      return None;
    }
    var zl := CharLen(zi, -1, cs);
    if zl >= ilen {
      return Some(zi);
    }
    var zo := PadBytes(zi, zl, ilen);
    PaddedIsCentred(zo, zi, cs, ilen);
    result := Some(zo);
  }

  /** The text of `zl` characters between its spaces. */
  method PadBytes(zi: seq<int>, zl: nat, ilen: nat) returns (result: seq<int>)
    requires |zi| > 0 && zl < ilen
    ensures Padded(result, zi, (ilen - zl) / 2, ilen - zl - (ilen - zl) / 2)
  {
    var zll := |zi| - 1;
    var zo := new int[zll + ilen - zl + 1];
    ghost var left := (ilen - zl) / 2;
    var zt := 0;
    var i := 1;
    while 2 * i + zl <= ilen
      invariant 1 <= i && zt == i - 1 && 2 * (i - 1) + zl <= ilen
      invariant SpacesFrom(zo[..], 0, zt)
    {
      zo[zt] := SPACE;
      zt := zt + 1;
      i := i + 1;
    }
    assert zt == left;
    CopyText(zi, zo, zt);
    zt := zt + zll;
    while i + zl <= ilen
      invariant left + 1 <= i <= ilen - zl + 1 && zt == zll + i - 1
      invariant SpacesFrom(zo[..], 0, left) && SpacesFrom(zo[..], left + zll, zt)
      invariant TextFrom(zo[..], left, zi)
    {
      zo[zt] := SPACE;
      zt := zt + 1;
      i := i + 1;
    }
    zo[zt] := 0;
    result := zo[..];
  }

  ghost predicate SpacesFrom(zo: seq<int>, start: nat, end: int) {
    end <= |zo| && forall k | start <= k < end :: zo[k] == SPACE
  }

  /** The text without its terminator stands at `at`. */
  ghost predicate TextFrom(zo: seq<int>, at: nat, zi: seq<int>) {
    at + |zi| <= |zo| + 1 && forall k | at <= k < at + |zi| - 1 :: zo[k] == zi[k - at]
  }

  /** Copies the text and its terminator. */
  method CopyText(zi: seq<int>, zo: array<int>, at: nat)
    requires at + |zi| <= zo.Length
    modifies zo
    ensures forall k | 0 <= k < at :: zo[k] == old(zo[k])
    ensures forall k | at <= k < at + |zi| :: zo[k] == zi[k - at]
  {
    for n := 0 to |zi|
      invariant forall k | 0 <= k < at :: zo[k] == old(zo[k])
      invariant forall k | at <= k < at + n :: zo[k] == zi[k - at]
    {
      zo[at + n] := zi[n];
    }
  }

  ghost predicate Padded(zo: seq<int>, zi: seq<int>, left: nat, right: nat) {
    && |zo| == left + |zi| + right && |zi| > 0 && zo[|zo| - 1] == 0
    && SpacesFrom(zo, 0, left) && TextFrom(zo, left, zi) && SpacesFrom(zo, left + |zi| - 1, |zo| - 1)
  }

  lemma {:induction false} PaddedIsCentred(zo: seq<int>, zi: seq<int>, cs: seq<Char>, n: int)
    requires Encodes(zi, cs) && |cs| < n
    requires Padded(zo, zi, (n - |cs|) / 2, n - |cs| - (n - |cs|) / 2)
    ensures Encodes(zo, Centred(cs, n))
  {
    PaddedBytes(zo, zi, cs, (n - |cs|) / 2, n - |cs| - (n - |cs|) / 2);
  }

  lemma {:induction false} PaddedBytes(zo: seq<int>, zi: seq<int>, cs: seq<Char>, left: nat, right: nat)
    requires Encodes(zi, cs) && Padded(zo, zi, left, right)
    ensures Encodes(zo, Spaces(left) + cs + Spaces(right))
  {
    PaddedParts(zo, zi, left, right);
    assert zi[..|zi| - 1] == Bytes(cs);
    PaddedJoin(cs, left, right);
  }

  lemma {:induction false} PaddedParts(zo: seq<int>, zi: seq<int>, left: nat, right: nat)
    requires Padded(zo, zi, left, right)
    ensures zo == Bytes(Spaces(left)) + zi[..|zi| - 1] + Bytes(Spaces(right)) + [0]
  {
    SpacesBytes(left);
    SpacesBytes(right);
  }

  lemma {:induction false} PaddedJoin(cs: seq<Char>, left: nat, right: nat)
    ensures Bytes(Spaces(left) + cs + Spaces(right)) == Bytes(Spaces(left)) + Bytes(cs) + Bytes(Spaces(right))
  {
    BytesJoin(Spaces(left), cs);
    BytesJoin(Spaces(left) + cs, Spaces(right));
  }

  // ----- Searching

  /** The pattern occurs in the text at character `k`, by decoded value. */
  ghost predicate OccursAt(pattern: seq<int>, text: seq<int>, k: int) {
    0 <= k && k + |pattern| <= |text| && text[k..k + |pattern|] == pattern
  }

  lemma {:induction false} Mismatch(pattern: seq<int>, text: seq<int>, k: nat, j: nat)
    requires j < |pattern| && k + j <= |text| && (k + j == |text| || text[k + j] != pattern[j])
    ensures !OccursAt(pattern, text, k)
  {
    if k + |pattern| <= |text| {
      assert text[k..k + |pattern|][j] == text[k + j];
    }
  }

  /** The first `j` characters of the pattern occur at `k`. */
  ghost predicate Agree(pattern: seq<int>, text: seq<int>, k: nat, j: nat) {
    j <= |pattern| && k + j <= |text| && text[k..k + j] == pattern[..j]
  }

  lemma {:induction false} AgreeOneMore(pattern: seq<int>, text: seq<int>, k: nat, j: nat)
    requires Agree(pattern, text, k, j) && j < |pattern| && k + j < |text| && text[k + j] == pattern[j]
    ensures Agree(pattern, text, k, j + 1)
  {
    assert text[k..k + j + 1] == text[k..k + j] + [text[k + j]];
  }

  /** Compares the pattern with the text from a character on. */
  method Matches(z1: seq<int>, z2: seq<int>, start: nat, ghost p: seq<Char>, ghost t: seq<Char>, ghost k: nat)
    returns (found: bool)
    requires Encodes(z1, p) && Encodes(z2, t) && k <= |t| && start == Offset(t, k)
    ensures found <==> OccursAt(DecodedAll(p), DecodedAll(t), k)
  {
    var zt1, zt2 := 0, start;
    ghost var j, pattern, text := 0, DecodedAll(p), DecodedAll(t);
    assert p[..0] == [];
    while true
      invariant 0 <= j <= |p| && k + j <= |t| && zt1 == Offset(p, j) && zt2 == Offset(t, k + j)
      invariant Agree(pattern, text, k, j)
      decreases |p| - j
    {
      var c1 := CharVal(z1, zt1, p, j);
      var c2 := CharVal(z2, zt2, t, k + j);
      if !(c1 == c2 && c1 != 0 && c2 != 0) {
        found := c1 == 0;
        if c1 != 0 { Mismatch(pattern, text, k, j); } else { assert pattern[..j] == pattern; }
        return;
      }
      zt1 := NextChar(z1, zt1, p, j);
      zt2 := NextChar(z2, zt2, t, k + j);
      AgreeOneMore(pattern, text, k, j);
      j := j + 1;
    }
  }

  /** No occurrence at a position from `s` up to `i`. */
  ghost predicate NoneBetween(pattern: seq<int>, text: seq<int>, s: int, i: int) {
    forall k | s <= k < i :: !OccursAt(pattern, text, k)
  }

  /** The zero-based position of the first occurrence at or after character `s`, -1 when there is
      none. The empty pattern is never found. */
  method Substr(z1: seq<int>, z2: seq<int>, s: nat, ghost p: seq<Char>, ghost t: seq<Char>) returns (position: int)
    requires Encodes(z1, p) && Encodes(z2, t)
    ensures position == -1 || position >= s
    ensures position >= 0 ==> p != [] && OccursAt(DecodedAll(p), DecodedAll(t), position)
    ensures position >= 0 ==> NoneBetween(DecodedAll(p), DecodedAll(t), s, position)
    ensures position == -1 && p != [] ==> NoneBetween(DecodedAll(p), DecodedAll(t), s, |t| + 1)
  {
    Boundary(z1, p, 0);
    assert p[..0] == [];
    if z1[0] == 0 {
      return -1;
    }
    var zt, skipped := SkipChars(z2, s, t);
    var c, found := SearchFrom(z1, z2, zt, skipped, p, t);
    if found {
      position := c + s;
    } else {
      position := -1;
      NoneToTheEnd(DecodedAll(p), DecodedAll(t), s, skipped);
    }
  }

  /** Nothing but the empty pattern occurs at the end of the text. */
  lemma {:induction false} NoneToTheEnd(pattern: seq<int>, text: seq<int>, s: nat, from: nat)
    requires pattern != [] && from == Min(s, |text|) && NoneBetween(pattern, text, from, |text|)
    ensures NoneBetween(pattern, text, s, |text| + 1)
  {}

  lemma {:induction false} NoneOneMore(pattern: seq<int>, text: seq<int>, s: int, i: int)
    requires NoneBetween(pattern, text, s, i) && !OccursAt(pattern, text, i)
    ensures NoneBetween(pattern, text, s, i + 1)
  {}

  /** Searches from character `skipped` on, which begins at `start`, and counts characters from there. */
  method SearchFrom(z1: seq<int>, z2: seq<int>, start: nat, ghost skipped: nat, ghost p: seq<Char>, ghost t: seq<Char>)
    returns (c: nat, found: bool)
    requires Encodes(z1, p) && Encodes(z2, t) && skipped <= |t| && start == Offset(t, skipped)
    ensures found ==> skipped + c < |t| && OccursAt(DecodedAll(p), DecodedAll(t), skipped + c)
    ensures NoneBetween(DecodedAll(p), DecodedAll(t), skipped, if found then skipped + c else |t|)
  {
    ghost var i, pattern, text := skipped, DecodedAll(p), DecodedAll(t);
    var zt := start;
    c, found := 0, false;
    var val := CharVal(z2, zt, t, i);
    while val != 0 && !found
      invariant i <= |t| && zt == Offset(t, i) && i == skipped + c
      invariant val == 0 <==> i == |t|
      invariant found ==> i < |t| && OccursAt(pattern, text, i)
      invariant NoneBetween(pattern, text, skipped, i)
      decreases |t| - i, !found
    {
      found := Matches(z1, z2, zt, p, t, i);
      if !found {
        NoneOneMore(pattern, text, skipped, i);
        zt := NextChar(z2, zt, t, i);
        i := i + 1;
        c := c + 1;
        val := CharVal(z2, zt, t, i);
      }
    }
  }

  /** charindex: positions count from one, and a start before the text means its beginning. */
  method CharindexFunc(z1: seq<int>, z2: seq<int>, from: int, ghost p: seq<Char>, ghost t: seq<Char>)
    returns (position: int)
    requires Encodes(z1, p) && Encodes(z2, t)
    ensures position == 0 || position >= Max(from, 1)
    ensures position > 0 ==> p != [] && OccursAt(DecodedAll(p), DecodedAll(t), position - 1)
    ensures position > 0 ==> NoneBetween(DecodedAll(p), DecodedAll(t), Max(from, 1) - 1, position - 1)
    ensures position == 0 && p != [] ==> NoneBetween(DecodedAll(p), DecodedAll(t), Max(from, 1) - 1, |t| + 1)
  {
    var s := from - 1;
    if s < 0 {
      s := 0;
    }
    var rVal := Substr(z1, z2, s, p, t);
    position := rVal + 1;
  }

  /** One of U+FFFD, U+FFFE and U+FFFF, which the decoder does not tell apart. */
  ghost predicate Blurred(c: Char) {
    WellFormed(c) && 0xFFFD <= CodePoint(c) <= 0xFFFF
  }

  /** The very characters of the pattern stand at character `k`. */
  ghost predicate StandsAt(p: seq<Char>, t: seq<Char>, k: nat) {
    k + |p| <= |t| && t[k..k + |p|] == p
  }

  lemma {:induction false} ExactUnlessBlurred(p: seq<Char>, t: seq<Char>, k: nat)
    requires AllWellFormed(p) && AllWellFormed(t)
    requires forall i | 0 <= i < |p| :: !Blurred(p[i])
    ensures OccursAt(DecodedAll(p), DecodedAll(t), k) <==> StandsAt(p, t, k)
  {
    if k + |p| <= |t| {
      var pattern, text := DecodedAll(p), DecodedAll(t);
      var window, values := t[k..k + |p|], text[k..k + |p|];
      forall i | 0 <= i < |p| ensures values[i] == pattern[i] <==> window[i] == p[i] {
        DecodedAlike(t[k + i], p[i]);
      }
    }
  }

  /** Another character that decodes like a blurred one. */
  ghost function Twin(c: Char): Char {
    if c == [0xEF, 0xBF, 0xBE] then [0xEF, 0xBF, 0xBF] else [0xEF, 0xBF, 0xBE]
  }

  lemma {:induction false} TwinDecodesAlike(c: Char)
    requires Blurred(c)
    ensures WellFormed(Twin(c)) && Twin(c) != c && Decoded(Twin(c)) == Decoded(c)
  {
    assert CodePoint([0xEF, 0xBF, 0xBE]) == 0xFFFE && CodePoint([0xEF, 0xBF, 0xBF]) == 0xFFFF;
    DecodedAlike(Twin(c), c);
  }

  /** A text in which a pattern with a blurred character is found although it does not stand there. */
  lemma {:induction false} FalseMatch(p: seq<Char>, i: nat) returns (t: seq<Char>)
    requires AllWellFormed(p) && i < |p| && Blurred(p[i])
    ensures AllWellFormed(t) && OccursAt(DecodedAll(p), DecodedAll(t), 0) && !StandsAt(p, t, 0)
  {
    TwinDecodesAlike(p[i]);
    t := p[i := Twin(p[i])];
    assert DecodedAll(t) == DecodedAll(p);
    assert DecodedAll(t)[0..0 + |p|] == DecodedAll(t) && t[0..0 + |p|] == t;
    assert t[i] != p[i];
  }

  /** Searching by decoded value is searching for the very characters, in all texts, if and only if the
      pattern has none of U+FFFD, U+FFFE and U+FFFF. */
  lemma {:induction false} DecodedSearchIsExact(p: seq<Char>)
    requires AllWellFormed(p)
    ensures (forall t, k: nat | AllWellFormed(t) :: OccursAt(DecodedAll(p), DecodedAll(t), k) <==> StandsAt(p, t, k))
      <==> forall i | 0 <= i < |p| :: !Blurred(p[i])
  {
    if i :| 0 <= i < |p| && Blurred(p[i]) {
      var t := FalseMatch(p, i);
    } else {
      forall t, k: nat | AllWellFormed(t) ensures OccursAt(DecodedAll(p), DecodedAll(t), k) <==> StandsAt(p, t, k) {
        ExactUnlessBlurred(p, t, k);
      }
    }
  }
}
