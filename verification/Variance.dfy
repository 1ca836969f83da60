/** The one-pass variance aggregate against the textbook two-pass definition. */
module Variance {
  import opened Aggregates
  import opened Reals

  /** The sum of `f` over a sequence. */
  ghost function SumOf(s: seq<real>, f: real -> real): real {
    if s == [] then 0.0 else SumOf(s[..|s| - 1], f) + f(s[|s| - 1])
  }

  ghost function Self(): real -> real {
    x => x
  }

  ghost function Square(): real -> real {
    x => x * x
  }

  /** `f` of the distance from `m`. */
  ghost function From(f: real -> real, m: real): real -> real {
    x => f(x - m)
  }

  ghost function Mean(s: seq<real>): real
    requires s != []
  {
    SumOf(s, Self()) / |s| as real
  }

  /** The two-pass sample variance; zero when there are fewer than two values. */
  ghost function SampleVariance(s: seq<real>): real {
    if |s| > 1 then SumOf(s, From(Square(), Mean(s))) / (|s| - 1) as real else 0.0
  }

  lemma {:induction false} SumOfAppended(s: seq<real>, x: real, f: real -> real)
    ensures SumOf(s + [x], f) == SumOf(s, f) + f(x)
  {
    assert (s + [x])[..|s|] == s;
  }

  /** `g` is `f` less `a` times `h` plus `b`. */
  ghost predicate Combines(g: real -> real, f: real -> real, h: real -> real, a: real, b: real) {
    forall x :: g(x) == f(x) - a * h(x) + b
  }

  lemma {:induction false} CombinedSum(s: seq<real>, n: real, g: real -> real, f: real -> real, h: real -> real,
      a: real, b: real)
    requires n == |s| as real && Combines(g, f, h, a, b)
    ensures SumOf(s, g) == SumOf(s, f) - a * SumOf(s, h) + n * b
  {
    if s != [] {
      var t, x := s[..|s| - 1], s[|s| - 1];
      CombinedSum(t, n - 1.0, g, f, h, a, b);
      Distribute(a, SumOf(t, h), h(x));
      Distribute(b, n - 1.0, 1.0);
    }
  }

  /** Shifting the argument of `f` by `e` is an affine change of `f`. */
  ghost predicate Shifts(f: real -> real, e: real, a: real, b: real) {
    forall d :: f(d - e) == f(d) - a * d + b
  }

  lemma {:induction false} SquareShifts(e: real, a: real, b: real)
    requires a == 2.0 * e && b == e * e
    ensures Shifts(Square(), e, a, b)
  {
    forall d ensures Square()(d - e) == Square()(d) - a * d + b {
      assert (d - e) * (d - e) == d * d - (2.0 * e) * d + e * e;
    }
  }

  lemma {:induction false} SelfShifts(e: real)
    ensures Shifts(Self(), e, 0.0, -e)
  {}

  lemma {:induction false} ShiftedCentre(f: real -> real, m: real, e: real, mean: real, a: real, b: real)
    requires Shifts(f, e, a, b) && mean == m + e
    ensures Combines(From(f, mean), From(f, m), From(Self(), m), a, b)
  {
    forall x ensures From(f, mean)(x) == From(f, m)(x) - a * From(Self(), m)(x) + b {
      assert x - mean == (x - m) - e;
    }
  }

  /** When the deviations from `m` cancel, moving the centre changes the sum of `f` over the
      deviations by `n * b`. */
  lemma {:induction false} CentreMoves(s: seq<real>, n: real, f: real -> real, m: real, e: real, mean: real, a: real,
      b: real)
    requires n == |s| as real && SumOf(s, From(Self(), m)) == 0.0
    requires Shifts(f, e, a, b) && mean == m + e
    ensures SumOf(s, From(f, mean)) == SumOf(s, From(f, m)) + n * b
  {
    ShiftedCentre(f, m, e, mean, a, b);
    CombinedSum(s, n, From(f, mean), From(f, m), From(Self(), m), a, b);
  }

  /** A new value at distance `y` from the moved centre adds `step` to the sum. */
  lemma {:induction false} CentredStep(s: seq<real>, n: real, x: real, f: real -> real, m: real, e: real, mean: real,
      a: real, b: real, y: real, step: real)
    requires n == |s| as real && SumOf(s, From(Self(), m)) == 0.0
    requires Shifts(f, e, a, b) && mean == m + e && y == x - mean
    requires n * b + f(y) == step
    ensures SumOf(s + [x], From(f, mean)) == SumOf(s, From(f, m)) + step
  {
    CentreMoves(s, n, f, m, e, mean, a, b);
    SumOfAppended(s, x, From(f, mean));
  }

  /** One step of the recurrence: `n` values centred on `m`, then a value at distance `delta` from
      it; the centre moves by `e` to distance `y` from the new value. */
  lemma {:induction false} StepBalance(n: real, e: real, delta: real, y: real, square: real, step: real)
    requires e * (n + 1.0) == delta && y == delta - e && square == e * e && step == delta * y
    ensures n * (-e) + Self()(y) == 0.0
    ensures n * square + Square()(y) == step
  {
    assert y == n * e;
    assert n * (e * e) == y * e;
    assert (y + e) * y == y * y + e * y;
  }

  lemma {:induction false} DeviationsNonNegative(s: seq<real>, m: real)
    ensures SumOf(s, From(Square(), m)) >= 0.0
  {
    if s != [] {
      DeviationsNonNegative(s[..|s| - 1], m);
      SquareNonNegative(s[|s| - 1] - m);
    }
  }

  /** The deviations of `s` from `mean` cancel, and `dev` is exactly the sum of their squares. */
  ghost predicate Summarises(s: seq<real>, cnt: int, mean: real, dev: real) {
    && cnt == |s|
    && SumOf(s, From(Self(), mean)) == 0.0
    && dev == SumOf(s, From(Square(), mean))
  }

  lemma {:induction false} ObservedOneMore(s: seq<real>, n: real, m: real, x: real, delta: real, mean: real, y: real,
      step: real)
    requires n == |s| as real && SumOf(s, From(Self(), m)) == 0.0
    requires delta == x - m && mean == m + delta / (n + 1.0) && y == x - mean && step == delta * y
    ensures SumOf(s + [x], From(Self(), mean)) == 0.0
    ensures SumOf(s + [x], From(Square(), mean)) == SumOf(s, From(Square(), m)) + step
  {
    var e, a, b, square := ShiftOf(n, m, x, delta, mean, y, step);
    CentredStep(s, n, x, Self(), m, e, mean, 0.0, b, y, 0.0);
    CentredStep(s, n, x, Square(), m, e, mean, a, square, y, step);
  }

  lemma {:induction false} ShiftOf(n: real, m: real, x: real, delta: real, mean: real, y: real, step: real)
    returns (e: real, a: real, b: real, square: real)
    requires n + 1.0 != 0.0
    requires delta == x - m && mean == m + delta / (n + 1.0) && y == x - mean && step == delta * y
    ensures mean == m + e && Shifts(Self(), e, 0.0, b) && Shifts(Square(), e, a, square)
    ensures n * b + Self()(y) == 0.0
    ensures n * square + Square()(y) == step
  {
    e := delta / (n + 1.0);
    assert e * (n + 1.0) == delta;
    a, b, square := 2.0 * e, -e, e * e;
    StepBalance(n, e, delta, y, square, step);
    SquareShifts(e, a, square);
    SelfShifts(e);
  }

  class StdevCtx {
    var rM: real
    var rS: real
    var cnt: int
    /** The non-null values seen, in row order. */
    ghost var inputs: seq<real>

    constructor ()
      ensures Valid() && inputs == []
    {
      rM, rS, cnt, inputs := 0.0, 0.0, 0, [];
    }

    ghost predicate Valid()
      reads this
    {
      Summarises(inputs, cnt, rM, rS)
    }

    method VarianceStep(v: SqlValue)
      requires Valid()
      modifies this
      ensures Valid()
      ensures inputs == old(inputs) + if v.Null? then [] else [AsDouble(v)]
    {
      if !v.Null? {
        var x := AsDouble(v);
        Observe(x);
      }
    }

    /** One non-null value. */
    method Observe(x: real)
      requires Valid()
      modifies this
      ensures Valid()
      ensures inputs == old(inputs) + [x]
    {
      cnt := cnt + 1;
      var delta := x - rM;
      var mean := rM + delta / cnt as real;
      var dev := rS + delta * (x - mean);
      ObservedOneMore(inputs, (cnt - 1) as real, rM, x, delta, mean, x - mean, delta * (x - mean));
      rM := mean;
      rS := dev;
      inputs := inputs + [x];
    }

    method VarianceFinalize() returns (result: real)
      requires Valid()
      ensures result == SampleVariance(inputs) >= 0.0
      ensures |inputs| <= 1 ==> result == 0.0
    {
      if cnt > 1 {
        result := rS / (cnt - 1) as real;
        assert rM == Mean(inputs) by { CentreIsMean(inputs, rM); }
        DeviationsNonNegative(inputs, rM);
      } else {
        result := 0.0;
      }
    }
  }

  lemma {:induction false} DeviationsSum(s: seq<real>, n: real, m: real)
    requires n == |s| as real
    ensures SumOf(s, From(Self(), m)) == SumOf(s, Self()) - n * m
  {
    if s != [] {
      DeviationsSum(s[..|s| - 1], n - 1.0, m);
      Distribute(m, n - 1.0, 1.0);
    }
  }

  /** The deviations cancel only around the mean. */
  lemma {:induction false} CentreIsMean(s: seq<real>, m: real)
    requires s != [] && SumOf(s, From(Self(), m)) == 0.0
    ensures m == Mean(s)
  {
    DeviationsSum(s, |s| as real, m);
  }

  // ----- The variance without a mean

  /** The sum of the squared differences of all pairs. */
  ghost function PairSum(s: seq<real>): real {
    if s == [] then 0.0 else PairSum(s[..|s| - 1]) + SumOf(s[..|s| - 1], From(Square(), s[|s| - 1]))
  }

  /** `p` is the sum of squares around `c`, from the number, the squares and the sum of some values. */
  lemma {:induction false} AroundStep(n: real, q: real, t: real, c: real, x: real, p: real, n': real, q': real,
      t': real, p': real, a: real, b: real)
    requires a == 2.0 * c && b == c * c && p == q - a * t + n * b
    requires n' == n + 1.0 && q' == q + x * x && t' == t + x && p' == p + (x - c) * (x - c)
    ensures p' == q' - a * t' + n' * b
  {
    assert (x - c) * (x - c) == x * x - a * x + b;
    Distribute(a, t, x);
    Distribute(b, n, 1.0);
  }

  lemma {:induction false} SumsOneMore(s: seq<real>, x: real, y: real)
    requires y == x * x
    ensures SumOf(s + [x], Square()) == SumOf(s, Square()) + y
    ensures SumOf(s + [x], Self()) == SumOf(s, Self()) + x
  {
    SumOfAppended(s, x, Square());
    SumOfAppended(s, x, Self());
  }

  lemma {:induction false} SquaresAround(s: seq<real>, n: real, c: real, a: real, b: real)
    returns (q: real, t: real, p: real)
    requires n == |s| as real && a == 2.0 * c && b == c * c
    ensures q == SumOf(s, Square()) && t == SumOf(s, Self()) && p == SumOf(s, From(Square(), c))
    ensures p == q - a * t + n * b
  {
    q, t, p := 0.0, 0.0, 0.0;
    if s != [] {
      var before, x := s[..|s| - 1], s[|s| - 1];
      var q0, t0, p0 := SquaresAround(before, n - 1.0, c, a, b);
      var y, d := x * x, (x - c) * (x - c);
      assert s == before + [x];
      SumsOneMore(before, x, y);
      SumOfAppended(before, x, From(Square(), c));
      q, t, p := q0 + y, t0 + x, p0 + d;
      AroundStep(n - 1.0, q0, t0, c, x, p0, n, q, t, p, a, b);
    }
  }

  /** What the sum over all pairs is, from the number, the sum and the squares of the values. */
  ghost function Pairs(n: real, q: real, t: real): real {
    n * q - t * t
  }

  lemma {:induction false} PairStep(n: real, q: real, t: real, x: real, n': real, q': real, t': real, around: real,
      a: real, b: real)
    requires a == 2.0 * x && b == x * x && around == q - a * t + n * b
    requires n' == n + 1.0 && q' == q + b && t' == t + x
    ensures Pairs(n', q', t') == Pairs(n, q, t) + around
  {
    assert n' * q' == n * q + n * b + q + b;
    assert t' * t' == t * t + a * t + b;
  }

  lemma {:induction false} PairsOneMore(s: seq<real>, n: real, x: real, n': real)
    requires n == |s| as real && n' == n + 1.0
    ensures Pairs(n', SumOf(s + [x], Square()), SumOf(s + [x], Self()))
      == Pairs(n, SumOf(s, Square()), SumOf(s, Self())) + SumOf(s, From(Square(), x))
  {
    var a, b := 2.0 * x, x * x;
    var q, t, around := SquaresAround(s, n, x, a, b);
    SumsOneMore(s, x, b);
    PairStep(n, q, t, x, n', SumOf(s + [x], Square()), SumOf(s + [x], Self()), around, a, b);
  }

  lemma {:induction false} PairsFromSums(s: seq<real>, n: real)
    requires n == |s| as real
    ensures PairSum(s) == Pairs(n, SumOf(s, Square()), SumOf(s, Self()))
  {
    if s != [] {
      var before, x := s[..|s| - 1], s[|s| - 1];
      assert s == before + [x];
      PairsFromSums(before, n - 1.0);
      PairsOneMore(before, n - 1.0, x, n);
    } else {
      NoPairs(n);
    }
  }

  lemma {:induction false} NoPairs(n: real)
    requires n == 0.0
    ensures Pairs(n, 0.0, 0.0) == 0.0
  {}

  lemma {:induction false} AroundTheMean(n: real, q: real, t: real, m: real, around: real)
    requires n * m == t && around == q - (2.0 * m) * t + n * (m * m)
    ensures n * around == Pairs(n, q, t)
  {
    assert n * (m * m) == m * t;
    assert around == q - m * t;
    assert n * (m * t) == t * t;
    Distribute(n, q, -(m * t));
  }

  lemma {:induction false} PairsAroundTheMean(s: seq<real>, n: real, m: real)
    requires s != [] && n == |s| as real && m == Mean(s)
    ensures n * SumOf(s, From(Square(), m)) == PairSum(s)
  {
    var q, t, around := SquaresAround(s, n, m, 2.0 * m, m * m);
    QuotientTimes(t, n);
    AroundTheMean(n, q, t, m, around);
    PairsFromSums(s, n);
  }

  lemma {:induction false} VarianceTimes(s: seq<real>, n: real, around: real)
    requires |s| > 1 && n == |s| as real && around == SumOf(s, From(Square(), Mean(s)))
    ensures (n - 1.0) * SampleVariance(s) == around
  {
    QuotientTimes(around, n - 1.0);
  }

  /** The variance, times n (n - 1), is the sum of the squared differences of all pairs of rows. */
  lemma {:induction false} VarianceOfPairs(s: seq<real>, n: real, v: real)
    requires |s| > 1 && n == |s| as real && v == (n - 1.0) * SampleVariance(s)
    ensures n * v == PairSum(s)
  {
    var around := SumOf(s, From(Square(), Mean(s)));
    VarianceTimes(s, n, around);
    PairsAroundTheMean(s, n, Mean(s));
  }

  // ----- Row order does not matter

  lemma {:induction false} RemoveOne(s: seq<real>, i: nat, f: real -> real)
    requires i < |s|
    ensures SumOf(s, f) == SumOf(s[..i] + s[i + 1..], f) + f(s[i])
  {
    var k := |s| - 1;
    if i == k {
      assert s[..i] + s[i + 1..] == s[..k];
    } else {
      RemoveOne(s[..k], i, f);
      var t := s[..i] + s[i + 1..];
      assert t[..|t| - 1] == s[..k][..i] + s[..k][i + 1..] && t[|t| - 1] == s[k];
    }
  }

  lemma {:induction false} SumsIgnoreOrder(s: seq<real>, t: seq<real>, f: real -> real)
    requires multiset(s) == multiset(t)
    ensures |s| == |t| && SumOf(s, f) == SumOf(t, f)
  {
    assert |multiset(s)| == |s| && |multiset(t)| == |t|;
    if s != [] {
      var i := LastOccurs(s, t);
      RemoveOne(t, i, f);
      SameRest(s, t, i);
      SumsIgnoreOrder(s[..|s| - 1], t[..i] + t[i + 1..], f);
    }
  }

  lemma {:induction false} LastOccurs(s: seq<real>, t: seq<real>) returns (i: nat)
    requires s != [] && multiset(s) == multiset(t)
    ensures i < |t| && t[i] == s[|s| - 1]
  {
    assert s[|s| - 1] in multiset(s);
    assert s[|s| - 1] in t;
    i :| i < |t| && t[i] == s[|s| - 1];
  }

  lemma {:induction false} SameRest(s: seq<real>, t: seq<real>, i: nat)
    requires s != [] && multiset(s) == multiset(t) && i < |t| && t[i] == s[|s| - 1]
    ensures multiset(s[..|s| - 1]) == multiset(t[..i] + t[i + 1..])
  {
    var k := |s| - 1;
    assert s[..k] + s[k + 1..] == s[..k];
    WithoutOne(s, k);
    WithoutOne(t, i);
  }

  lemma {:induction false} WithoutOne(t: seq<real>, i: nat)
    requires i < |t|
    ensures multiset(t[..i] + t[i + 1..]) == multiset(t) - multiset{t[i]}
  {
    assert t == t[..i] + [t[i]] + t[i + 1..];
  }

  /** The variance of a column does not depend on the order of its rows. */
  lemma {:induction false} VarianceIgnoresRowOrder(s: seq<real>, t: seq<real>)
    requires multiset(s) == multiset(t)
    ensures SampleVariance(s) == SampleVariance(t)
  {
    SumsIgnoreOrder(s, t, Self());
    if |s| > 1 { SumsIgnoreOrder(s, t, From(Square(), Mean(s))); }
  }
}
