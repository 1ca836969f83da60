/** The bandwidth estimate of one chirp. The queuing delays are cut into excursions: stretches that
    begin where the delay starts to grow and end where it has fallen back. Growth inside a long
    enough finished excursion is put down to the rate of that packet; everything else to the rate
    at which the last, unfinished excursion began. */
module Excursion {
  import opened Reals

  const NEG_THRESH := -1000.0

  // ----- The scan as a function of the delays

  /** The first position from `i` on after which the delay grows, or the last usable one. */
  function NextIncrease(q: seq<real>, i: nat, last: nat): (j: nat)
    requires i <= last && last + 1 < |q|
    ensures i <= j <= last
    decreases last - i
  {
    if i < last && q[i] >= q[i + 1] then NextIncrease(q, i + 1, last) else i
  }

  /** Whether the delay grows after position `c`. */
  predicate Grows(q: seq<real>, c: nat) {
    c + 1 < |q| && q[c] < q[c + 1]
  }

  /** Positions in an excursion after which the delay grows. */
  function Growing(q: seq<real>, inc: nat, loc: nat): set<nat> {
    set c: nat | inc <= c < loc && Grows(q, c)
  }

  /** Whether the excursion from `inc`, whose peak is `peak`, is over at `loc`. A delay marked as
      unusable never ends one. */
  predicate Ends(q: seq<real>, inc: nat, loc: nat, peak: real, factor: real)
    requires inc < |q| && loc < |q| && factor > 1.0
  {
    q[loc] - q[inc] < Upper(peak, q[loc] - q[inc]) / factor
  }

  predicate Usable(q: seq<real>, loc: nat)
    requires loc < |q|
  {
    q[loc] > NEG_THRESH + 1.0
  }

  /** Where the last excursion begins, and which positions were marked before it. */
  datatype Segments = Segments(last: nat, marks: set<nat>)

  /** The marks after the excursion from `inc` to `loc`, which counts when it is long enough. */
  function WithMarks(q: seq<real>, thresh: int, inc: nat, loc: nat, marks: set<nat>): set<nat> {
    if loc - inc >= thresh then marks + Growing(q, inc, loc) else marks
  }

  function Scan(q: seq<real>, n: nat, factor: real, thresh: int, loc: nat, inc: nat, peak: real,
      marks: set<nat>): (r: Segments)
    requires 1 <= inc <= n && inc < loc <= n + 1 && n + 1 < |q| && factor > 1.0
    decreases n + 1 - loc
  {
    if loc > n then Segments(inc, marks)
    else if !Usable(q, loc) then Scan(q, n, factor, thresh, loc + 1, inc, peak, marks)
    else if Ends(q, inc, loc, peak, factor) then
      var inc' := NextIncrease(q, loc, n);
      Scan(q, n, factor, thresh, inc' + 1, inc', 0.0, WithMarks(q, thresh, inc, loc, marks))
    else Scan(q, n, factor, thresh, loc + 1, inc, Upper(peak, q[loc] - q[inc]), marks)
  }

  function Segmented(q: seq<real>, n: nat, factor: real, thresh: int): Segments
    requires 1 <= n && n + 1 < |q| && factor > 1.0
  {
    var inc := NextIncrease(q, 1, n);
    Scan(q, n, factor, thresh, inc + 1, inc, 0.0, {})
  }

  /** The rate put down to position `c`. */
  function Available(rates: seq<real>, s: Segments, c: nat): real
    requires 1 <= s.last <= |rates| && forall m | m in s.marks :: m < |rates|
  {
    if c < s.last && c in s.marks && rates[c] >= 1.0 then rates[c] else rates[s.last - 1]
  }

  /** Marks lie before the last excursion, where the delay grows. */
  ghost predicate SegmentsOk(q: seq<real>, n: nat, s: Segments)
    requires n + 1 < |q|
  {
    1 <= s.last <= n && forall c | c in s.marks :: 1 <= c < s.last && Grows(q, c)
  }

  lemma {:induction false} ScanOk(q: seq<real>, n: nat, factor: real, thresh: int, loc: nat, inc: nat, peak: real,
      marks: set<nat>)
    requires 1 <= inc <= n && inc < loc <= n + 1 && n + 1 < |q| && factor > 1.0
    requires SegmentsOk(q, n, Segments(inc, marks))
    ensures SegmentsOk(q, n, Scan(q, n, factor, thresh, loc, inc, peak, marks))
    decreases n + 1 - loc
  {
    if loc <= n {
      if !Usable(q, loc) {
        ScanOk(q, n, factor, thresh, loc + 1, inc, peak, marks);
      } else if Ends(q, inc, loc, peak, factor) {
        var inc' := NextIncrease(q, loc, n);
        ScanOk(q, n, factor, thresh, inc' + 1, inc', 0.0, WithMarks(q, thresh, inc, loc, marks));
      } else {
        ScanOk(q, n, factor, thresh, loc + 1, inc, Upper(peak, q[loc] - q[inc]), marks);
      }
    }
  }

  lemma {:induction false} SegmentedOk(q: seq<real>, n: nat, factor: real, thresh: int)
    requires 1 <= n && n + 1 < |q| && factor > 1.0
    ensures SegmentsOk(q, n, Segmented(q, n, factor, thresh))
  {
    var inc := NextIncrease(q, 1, n);
    ScanOk(q, n, factor, thresh, inc + 1, inc, 0.0, {});
  }

  // ----- Weighted averages

  ghost function WeightedSum(v: seq<real>, w: seq<real>): real
    requires |v| == |w|
  {
    if v == [] then 0.0 else WeightedSum(v[..|v| - 1], w[..|w| - 1]) + v[|v| - 1] * w[|w| - 1]
  }

  ghost function Sum(w: seq<real>): real {
    if w == [] then 0.0 else Sum(w[..|w| - 1]) + w[|w| - 1]
  }

  lemma {:induction false} WeightedSumAtLeast(v: seq<real>, w: seq<real>, lo: real)
    requires |v| == |w| && forall i | 0 <= i < |v| :: lo <= v[i] && w[i] >= 0.0
    ensures lo * Sum(w) <= WeightedSum(v, w)
  {
    if v != [] {
      var k := |v| - 1;
      WeightedSumAtLeast(v[..k], w[..k], lo);
      StepAtLeast(lo, Sum(w[..k]), WeightedSum(v[..k], w[..k]), v[k], w[k], Sum(w), WeightedSum(v, w));
    }
  }

  lemma {:induction false} WeightedSumAtMost(v: seq<real>, w: seq<real>, hi: real)
    requires |v| == |w| && forall i | 0 <= i < |v| :: v[i] <= hi && w[i] >= 0.0
    ensures WeightedSum(v, w) <= hi * Sum(w)
  {
    if v != [] {
      var k := |v| - 1;
      WeightedSumAtMost(v[..k], w[..k], hi);
      StepAtMost(hi, Sum(w[..k]), WeightedSum(v[..k], w[..k]), v[k], w[k], Sum(w), WeightedSum(v, w));
    }
  }

  ghost predicate Weights(w: seq<real>) {
    w != [] && w[0] > 0.0 && forall i | 0 <= i < |w| :: w[i] >= 0.0
  }

  lemma {:induction false} SumPositive(w: seq<real>)
    requires Weights(w)
    ensures Sum(w) > 0.0
  {
    if |w| > 1 { SumPositive(w[..|w| - 1]); } else { assert w[..0] == []; }
  }

  lemma {:induction false} AverageBetween(v: seq<real>, w: seq<real>, lo: real, hi: real)
    requires |v| == |w| && Weights(w) && forall i | 0 <= i < |v| :: lo <= v[i] <= hi
    ensures Sum(w) > 0.0 && lo <= WeightedSum(v, w) / Sum(w) <= hi
  {
    SumPositive(w);
    var a, b := SumsBetween(v, w, lo, hi);
    QuotientBetween(lo, hi, a, b);
  }

  lemma {:induction false} SumsBetween(v: seq<real>, w: seq<real>, lo: real, hi: real) returns (a: real, b: real)
    requires |v| == |w| && Weights(w) && forall i | 0 <= i < |v| :: lo <= v[i] <= hi
    ensures a == WeightedSum(v, w) && b == Sum(w) && lo * b <= a <= hi * b
  {
    a, b := WeightedSum(v, w), Sum(w);
    WeightedSumAtLeast(v, w, lo);
    WeightedSumAtMost(v, w, hi);
  }

  // ----- The estimate

  /** What the scan needs of its inputs: `n` usable interarrivals, rates for them, non-negative
      times for positions 0 to n. */
  ghost predicate Inputs(q: seq<real>, rates: seq<real>, iat: seq<real>, n: nat, factor: real) {
    && 1 <= n <= |rates| && n + 1 < |q| && n < |iat| && factor > 1.0
    && Weights(iat[..n + 1])
  }

  ghost function Values(q: seq<real>, rates: seq<real>, n: nat, factor: real, thresh: int): (v: seq<real>)
    requires 1 <= n <= |rates| && n + 1 < |q| && factor > 1.0
    ensures |v| == n + 1
  {
    SegmentedOk(q, n, factor, thresh);
    var s := Segmented(q, n, factor, thresh);
    seq(n + 1, c requires 0 <= c => Available(rates, s, c))
  }

  /** The available bandwidth: the rates put down to the positions, averaged over their times. */
  ghost function EstimateOf(q: seq<real>, rates: seq<real>, iat: seq<real>, n: nat, factor: real, thresh: int): real
    requires Inputs(q, rates, iat, n, factor)
  {
    SumPositive(iat[..n + 1]);
    WeightedSum(Values(q, rates, n, factor, thresh), iat[..n + 1]) / Sum(iat[..n + 1])
  }

  /** Every position is given a probed rate, and the estimate lies between the smallest and the
      largest probed rate, whatever the delays. */
  lemma {:induction false} EstimateIsProbed(q: seq<real>, rates: seq<real>, iat: seq<real>, n: nat, factor: real,
      thresh: int)
    requires Inputs(q, rates, iat, n, factor)
    requires forall i, j | 0 <= i < j < n :: rates[i] < rates[j]
    ensures forall c | 0 <= c <= n :: Values(q, rates, n, factor, thresh)[c] in rates[..n]
    ensures rates[0] <= EstimateOf(q, rates, iat, n, factor, thresh) <= rates[n - 1]
  {
    var v, w := Values(q, rates, n, factor, thresh), iat[..n + 1];
    forall c | 0 <= c <= n ensures v[c] in rates[..n] && rates[0] <= v[c] <= rates[n - 1] {
      ValueIsProbed(q, rates, n, factor, thresh, c);
    }
    AverageBetween(v, w, rates[0], rates[n - 1]);
  }

  lemma {:induction false} ValueIsProbed(q: seq<real>, rates: seq<real>, n: nat, factor: real, thresh: int, c: nat)
    requires 1 <= n <= |rates| && n + 1 < |q| && factor > 1.0 && c <= n
    requires forall i, j | 0 <= i < j < n :: rates[i] < rates[j]
    ensures var v := Values(q, rates, n, factor, thresh)[c]; v in rates[..n] && rates[0] <= v <= rates[n - 1]
  {
    SegmentedOk(q, n, factor, thresh);
    var s := Segmented(q, n, factor, thresh);
    var i := if c < s.last && c in s.marks && rates[c] >= 1.0 then c else s.last - 1;
    assert Values(q, rates, n, factor, thresh)[c] == rates[i] && rates[..n][i] == rates[i];
  }

  /** When every position has the same rate the estimate is that rate. */
  lemma {:induction false} ConstantEstimate(q: seq<real>, rates: seq<real>, iat: seq<real>, n: nat, factor: real,
      thresh: int, r: real)
    requires Inputs(q, rates, iat, n, factor)
    requires forall c | 0 <= c <= n :: Values(q, rates, n, factor, thresh)[c] == r
    ensures EstimateOf(q, rates, iat, n, factor, thresh) == r
  {
    var v, w := Values(q, rates, n, factor, thresh), iat[..n + 1];
    AverageBetween(v, w, r, r);
  }

  // ----- An unloaded and an overloaded path

  lemma {:induction false} NoIncrease(q: seq<real>, i: nat, n: nat)
    requires i <= n && n + 1 < |q| && forall c | i <= c < n :: q[c] >= q[c + 1]
    ensures NextIncrease(q, i, n) == n
    decreases n - i
  {
    if i < n { NoIncrease(q, i + 1, n); }
  }

  /** Delays that never grow: the path carries the fastest rate probed. */
  lemma {:induction false} UnloadedPath(q: seq<real>, rates: seq<real>, iat: seq<real>, n: nat, factor: real,
      thresh: int)
    requires Inputs(q, rates, iat, n, factor)
    requires forall c | 1 <= c < n :: q[c] >= q[c + 1]
    ensures EstimateOf(q, rates, iat, n, factor, thresh) == rates[n - 1]
  {
    NoIncrease(q, 1, n);
    ConstantEstimate(q, rates, iat, n, factor, thresh, rates[n - 1]);
  }

  lemma {:induction false} NeverEnds(q: seq<real>, n: nat, factor: real, thresh: int, loc: nat, peak: real)
    requires 1 <= n && 1 < loc <= n + 1 && n + 1 < |q| && factor > 1.0
    requires forall c | 1 <= c < n :: q[c] < q[c + 1]
    requires peak <= Upper(0.0, q[loc - 1] - q[1]) && q[loc - 1] >= q[1]
    ensures Scan(q, n, factor, thresh, loc, 1, peak, {}) == Segments(1, {})
    decreases n + 1 - loc
  {
    if loc <= n {
      assert q[loc - 1] < q[loc];
      if Usable(q, loc) {
        QuotientShrinks(q[loc] - q[1], factor);
        NeverEnds(q, n, factor, thresh, loc + 1, q[loc] - q[1]);
      } else {
        NeverEnds(q, n, factor, thresh, loc + 1, peak);
      }
    }
  }

  /** Delays that grow from the first packet on: the path carries no more than the slowest rate. */
  lemma {:induction false} OverloadedPath(q: seq<real>, rates: seq<real>, iat: seq<real>, n: nat, factor: real,
      thresh: int)
    requires Inputs(q, rates, iat, n, factor)
    requires forall c | 1 <= c < n :: q[c] < q[c + 1]
    ensures EstimateOf(q, rates, iat, n, factor, thresh) == rates[0]
  {
    NeverEnds(q, n, factor, thresh, 2, 0.0);
    ConstantEstimate(q, rates, iat, n, factor, thresh, rates[0]);
  }

  // ----- Clock offsets cancel out, and nothing beyond the usable part matters

  /** Up to position `n` the delays `p` are `q` with a constant added, and the same are usable. */
  ghost predicate Offset(p: seq<real>, q: seq<real>, d: real, n: nat) {
    n < |p| && n < |q| && forall i | 0 <= i <= n :: p[i] == q[i] + d && (Usable(p, i) <==> Usable(q, i))
  }

  lemma {:induction false} NextIncreaseOffset(p: seq<real>, q: seq<real>, d: real, i: nat, last: nat)
    requires Offset(p, q, d, last) && i <= last && last + 1 < |p| && last + 1 < |q|
    ensures NextIncrease(p, i, last) == NextIncrease(q, i, last)
    decreases last - i
  {
    if i < last && q[i] >= q[i + 1] { NextIncreaseOffset(p, q, d, i + 1, last); }
  }

  lemma {:induction false} ScanOffset(p: seq<real>, q: seq<real>, d: real, n: nat, factor: real, thresh: int,
      loc: nat, inc: nat, peak: real, marks: set<nat>)
    requires Offset(p, q, d, n) && n + 1 < |p| && n + 1 < |q|
    requires 1 <= inc <= n && inc < loc <= n + 1 && factor > 1.0
    ensures Scan(p, n, factor, thresh, loc, inc, peak, marks) == Scan(q, n, factor, thresh, loc, inc, peak, marks)
    decreases n + 1 - loc
  {
    if loc <= n {
      assert p[loc] - p[inc] == q[loc] - q[inc];
      assert Usable(p, loc) <==> Usable(q, loc);
      if !Usable(q, loc) {
        ScanOffset(p, q, d, n, factor, thresh, loc + 1, inc, peak, marks);
      } else if Ends(q, inc, loc, peak, factor) {
        NextIncreaseOffset(p, q, d, loc, n);
        assert Growing(p, inc, loc) == Growing(q, inc, loc);
        var inc' := NextIncrease(q, loc, n);
        ScanOffset(p, q, d, n, factor, thresh, inc' + 1, inc', 0.0, WithMarks(q, thresh, inc, loc, marks));
      } else {
        ScanOffset(p, q, d, n, factor, thresh, loc + 1, inc, Upper(peak, q[loc] - q[inc]), marks);
      }
    }
  }

  /** The estimate is the same for delays that differ, up to the last usable position, by a constant
      that makes none of them unusable, as those of unsynchronised clocks do; delays beyond that
      position do not matter. */
  lemma {:induction false} ClockOffsetCancels(p: seq<real>, q: seq<real>, d: real, rates: seq<real>, iat: seq<real>,
      n: nat, factor: real, thresh: int)
    requires Inputs(q, rates, iat, n, factor) && n + 1 < |p| && Offset(p, q, d, n)
    ensures EstimateOf(p, rates, iat, n, factor, thresh) == EstimateOf(q, rates, iat, n, factor, thresh)
  {
    NextIncreaseOffset(p, q, d, 1, n);
    var inc := NextIncrease(q, 1, n);
    ScanOffset(p, q, d, n, factor, thresh, inc + 1, inc, 0.0, {});
    assert Values(p, rates, n, factor, thresh) == Values(q, rates, n, factor, thresh);
  }

  // ----- The method

  method SkipToIncrease(qingDelay: array<real>, start: nat, maxGood: nat) returns (curInc: nat)
    requires start <= maxGood && maxGood + 1 < qingDelay.Length
    ensures curInc == NextIncrease(qingDelay[..], start, maxGood)
  {
    curInc := start;
    while qingDelay[curInc] >= qingDelay[curInc + 1] && curInc < maxGood
      invariant start <= curInc <= maxGood
      invariant NextIncrease(qingDelay[..], curInc, maxGood) == NextIncrease(qingDelay[..], start, maxGood)
      decreases maxGood - curInc
    {
      curInc := curInc + 1;
    }
  }

  /** Marks the growing positions of a finished excursion with their own rates. */
  method MarkExcursion(qingDelay: array<real>, rates: array<real>, av: array<real>, curInc: nat, curLoc: nat)
    requires curInc < curLoc < qingDelay.Length && curLoc <= rates.Length && curLoc <= av.Length
    requires av != rates && av != qingDelay
    modifies av
    ensures forall c | 0 <= c < av.Length :: av[c] == if c in Growing(qingDelay[..], curInc, curLoc)
      then rates[c] else old(av[c])
  {
    for count := curInc to curLoc
      invariant forall c | 0 <= c < av.Length ::
        av[c] == if c in Growing(qingDelay[..], curInc, count) then rates[c] else old(av[c])
    {
      assert Grows(qingDelay[..], count) <==> qingDelay[count] < qingDelay[count + 1];
      if qingDelay[count] < qingDelay[count + 1] {
        av[count] := rates[count];
      }
    }
  }

  /** Of the first `n` positions the marked ones hold their rates, the others nothing. */
  ghost predicate Marked(av: seq<real>, rates: seq<real>, marks: set<nat>, n: nat)
    requires n <= |av| && n <= |rates|
  {
    forall c: nat | c < n :: av[c] == if c in marks then rates[c] else 0.0
  }

  /** Cuts the delays into excursions and marks the finished ones. */
  method ScanExcursions(qingDelay: array<real>, rates: array<real>, av: array<real>, maxGood: nat,
      decreaseFactor: real, busyPeriodThresh: int)
    returns (curInc: nat, ghost marks: set<nat>)
    requires 1 <= maxGood && maxGood + 1 < qingDelay.Length && maxGood <= rates.Length == av.Length
    requires av != rates && av != qingDelay && decreaseFactor > 1.0
    requires Marked(av[..], rates[..], {}, maxGood)
    modifies av
    ensures Segments(curInc, marks) == Segmented(qingDelay[..], maxGood, decreaseFactor, busyPeriodThresh)
    ensures Marked(av[..], rates[..], marks, maxGood)
  {
    ghost var q, result := qingDelay[..], Segmented(qingDelay[..], maxGood, decreaseFactor, busyPeriodThresh);
    var maxQ := 0.0;
    curInc := SkipToIncrease(qingDelay, 1, maxGood);
    marks := {};
    var curLoc := curInc + 1;
    while curLoc <= maxGood
      invariant 1 <= curInc <= maxGood && curInc < curLoc <= maxGood + 1
      invariant Scan(q, maxGood, decreaseFactor, busyPeriodThresh, curLoc, curInc, maxQ, marks) == result
      invariant Marked(av[..], rates[..], marks, maxGood)
      decreases maxGood + 1 - curLoc
    {
      if qingDelay[curLoc] > NEG_THRESH + 1.0 {
        if maxQ < qingDelay[curLoc] - qingDelay[curInc] {
          maxQ := qingDelay[curLoc] - qingDelay[curInc];
        }
        if qingDelay[curLoc] - qingDelay[curInc] < maxQ / decreaseFactor {
          if curLoc - curInc >= busyPeriodThresh {
            MarkExcursion(qingDelay, rates, av, curInc, curLoc);
            marks := marks + Growing(q, curInc, curLoc);
          }
          curInc := SkipToIncrease(qingDelay, curLoc, maxGood);
          curLoc := curInc;
          maxQ := 0.0;
        }
      }
      curLoc := curLoc + 1;
    }
  }

  /** Sets every unmarked position, and all positions of the last excursion, to the rate at which
      that excursion began. */
  method FillLastExcursion(rates: array<real>, av: array<real>, curInc: nat, maxGood: nat, ghost marks: set<nat>)
    requires 1 <= curInc <= maxGood < av.Length == rates.Length && av != rates
    requires Marked(av[..], rates[..], marks, maxGood) && forall m | m in marks :: m < rates.Length
    modifies av
    ensures forall c | 0 <= c <= maxGood :: av[c] == Available(rates[..], Segments(curInc, marks), c)
  {
    ghost var before, rs := av[..], rates[..];
    for count := curInc to maxGood + 1
      invariant forall c | 0 <= c < curInc :: av[c] == before[c]
      invariant forall c | curInc <= c < count :: av[c] == rs[curInc - 1]
    {
      av[count] := rates[curInc - 1];
    }
    for count := 0 to maxGood + 1
      invariant forall c | 0 <= c < count :: av[c] == Available(rs, Segments(curInc, marks), c)
      invariant forall c | count <= c <= maxGood :: av[c] == if c < curInc then before[c] else rs[curInc - 1]
    {
      assert count < curInc ==> before[count] == if count in marks then rs[count] else 0.0;
      if av[count] < 1.0 {
        av[count] := rates[curInc - 1];
      }
    }
  }

  /** The average of the first `n` entries, weighted by their times. */
  method WeightedAverage(av: array<real>, iat: array<real>, n: nat) returns (average: real)
    requires n <= av.Length && n <= iat.Length && Weights(iat[..n])
    ensures Sum(iat[..n]) > 0.0 && average == WeightedSum(av[..n], iat[..n]) / Sum(iat[..n])
  {
    ghost var v, w := av[..n], iat[..n];
    var sumIat := 0.0;
    average := 0.0;
    for count := 0 to n
      invariant sumIat == Sum(w[..count]) && average == WeightedSum(v[..count], w[..count])
    {
      assert w[..count + 1][..count] == w[..count] && v[..count + 1][..count] == v[..count];
      sumIat := sumIat + iat[count];
      average := average + av[count] * iat[count];
    }
    assert w[..n] == w && v[..n] == v;
    SumPositive(w);
    average := average / sumIat;
  }

  /** The bandwidth estimate of one chirp, of which the first `maxGood` interarrivals are usable. */
  method ComputeInstBwExcursion(qingDelay: array<real>, rates: array<real>, iat: array<real>, av: array<real>,
      numInterarrival: nat, maxGood: nat, decreaseFactor: real, busyPeriodThresh: int) returns (instBw: real)
    requires maxGood <= numInterarrival < rates.Length == iat.Length == av.Length
    requires av != rates && av != qingDelay && av != iat
    requires Inputs(qingDelay[..], rates[..], iat[..], maxGood, decreaseFactor)
    modifies av
    ensures Inputs(qingDelay[..], rates[..], iat[..], maxGood, decreaseFactor)
    ensures instBw == EstimateOf(qingDelay[..], rates[..], iat[..], maxGood, decreaseFactor, busyPeriodThresh)
  {
    for i := 0 to numInterarrival
      invariant forall c | 0 <= c < i :: av[c] == 0.0
    {
      av[i] := 0.0;
    }
    ghost var q, rs := qingDelay[..], rates[..];
    var curInc, marks := ScanExcursions(qingDelay, rates, av, maxGood, decreaseFactor, busyPeriodThresh);
    SegmentedOk(q, maxGood, decreaseFactor, busyPeriodThresh);
    FillLastExcursion(rates, av, curInc, maxGood, marks);
    assert av[..maxGood + 1] == Values(q, rs, maxGood, decreaseFactor, busyPeriodThresh);
    instBw := WeightedAverage(av, iat, maxGood + 1);
  }
}
