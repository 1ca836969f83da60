/** What the excursion scan finds, said without the scan: the delays of a chirp split in exactly one
    way into excursions, each of which begins at the first growth after the one before and ends where
    the delay first falls back. */
module Segmentation {
  import opened Excursion
  import opened Reals

  /** A finished excursion; it ends before position `end`. */
  datatype Busy = Busy(start: nat, end: nat)

  /** The first position from `from` on after which the delay grows is `j`, or there is none and `j`
      is the last one. */
  ghost predicate StartsAt(q: seq<real>, n: nat, from: nat, j: nat)
    requires n + 1 < |q|
  {
    from <= j <= n && (forall c | from <= c < j :: q[c] >= q[c + 1]) && (j < n ==> q[j] < q[j + 1])
  }

  ghost function Rise(q: seq<real>, s: nat, m: nat): real
    requires s < |q| && m < |q|
  {
    q[m] - q[s]
  }

  /** At `l` the delay is below where the excursion began, or below a fraction of the rise reached
      at some usable position since. */
  ghost predicate FallsBack(q: seq<real>, factor: real, s: nat, l: nat)
    requires s < |q| && l < |q| && factor > 1.0
  {
    && Usable(q, l)
    && (Rise(q, s, l) < 0.0 || exists m | s < m < l && Usable(q, m) :: Rise(q, s, l) < Rise(q, s, m) / factor)
  }

  ghost predicate NoFallBack(q: seq<real>, factor: real, s: nat, end: nat)
    requires s < |q| && end <= |q| && factor > 1.0
  {
    forall l | s < l < end :: !FallsBack(q, factor, s, l)
  }

  /** From position `from` on the delays consist of the finished excursions `xs`, in order, and an
      unfinished one that begins at `last`. */
  ghost predicate Splits(q: seq<real>, n: nat, factor: real, from: nat, xs: seq<Busy>, last: nat)
    requires n + 1 < |q| && factor > 1.0
    decreases |xs|
  {
    if xs == [] then StartsAt(q, n, from, last) && NoFallBack(q, factor, last, n + 1)
    else
      var x := xs[0];
      && StartsAt(q, n, from, x.start) && x.start < x.end <= n
      && NoFallBack(q, factor, x.start, x.end) && FallsBack(q, factor, x.start, x.end)
      && Splits(q, n, factor, x.end, xs[1..], last)
  }

  /** The growing positions of the excursions that are long enough. */
  ghost function MarksOf(q: seq<real>, xs: seq<Busy>, thresh: int): set<nat> {
    if xs == [] then {}
    else
      (if xs[0].end - xs[0].start >= thresh then Growing(q, xs[0].start, xs[0].end) else {})
      + MarksOf(q, xs[1..], thresh)
  }

  // ----- There is only one way to split

  lemma {:induction false} SplitIsUnique(q: seq<real>, n: nat, factor: real, from: nat, xs: seq<Busy>, last: nat,
      ys: seq<Busy>, last': nat)
    requires n + 1 < |q| && factor > 1.0
    requires Splits(q, n, factor, from, xs, last) && Splits(q, n, factor, from, ys, last')
    ensures xs == ys && last == last'
    decreases |xs|
  {
    var s := if xs == [] then last else xs[0].start;
    var t := if ys == [] then last' else ys[0].start;
    assert StartsAt(q, n, from, s) && StartsAt(q, n, from, t);
    assert s == t;
    if xs != [] && ys != [] {
      assert xs[0].end == ys[0].end;
      SplitIsUnique(q, n, factor, xs[0].end, xs[1..], last, ys[1..], last');
      assert xs == [xs[0]] + xs[1..] && ys == [ys[0]] + ys[1..];
    }
  }

  // ----- The scan finds it

  lemma {:induction false} NextIncreaseStarts(q: seq<real>, n: nat, from: nat)
    requires from <= n && n + 1 < |q|
    ensures StartsAt(q, n, from, NextIncrease(q, from, n))
    decreases n - from
  {
    if from < n && q[from] >= q[from + 1] { NextIncreaseStarts(q, n, from + 1); }
  }

  /** The running peak is the largest rise at a usable position so far, at least zero. */
  ghost predicate PeakOk(q: seq<real>, inc: nat, loc: nat, peak: real)
    requires inc < loc <= |q|
  {
    && (forall m | inc < m < loc && Usable(q, m) :: Rise(q, inc, m) <= peak)
    && (peak == 0.0 || (peak > 0.0 && exists m | inc < m < loc && Usable(q, m) :: Rise(q, inc, m) == peak))
  }

  /** The test of the scan is falling back. */
  lemma {:induction false} EndsIsFallingBack(q: seq<real>, inc: nat, loc: nat, peak: real, factor: real)
    requires inc < loc < |q| && factor > 1.0 && PeakOk(q, inc, loc, peak) && Usable(q, loc)
    ensures Ends(q, inc, loc, peak, factor) <==> FallsBack(q, factor, inc, loc)
  {
    var d := Rise(q, inc, loc);
    if d >= 0.0 && d > peak { QuotientShrinks(d, factor); }
    if d < 0.0 { QuotientOrder(0.0, peak, factor); }
    forall m | inc < m < loc && Usable(q, m) ensures Rise(q, inc, m) / factor <= Upper(peak, d) / factor {
      QuotientOrder(Rise(q, inc, m), Upper(peak, d), factor);
    }
  }

  /** `r` holds the split `xs` of the rest, besides `marks`. */
  ghost predicate Found(q: seq<real>, n: nat, factor: real, thresh: int, from: nat, xs: seq<Busy>, marks: set<nat>,
      r: Segments)
    requires n + 1 < |q| && factor > 1.0
  {
    Splits(q, n, factor, from, xs, r.last) && r.marks == marks + MarksOf(q, xs, thresh)
  }

  lemma {:induction false} OneMoreExcursion(q: seq<real>, n: nat, factor: real, thresh: int, from: nat, inc: nat,
      loc: nat, rest: seq<Busy>, marks: set<nat>, r: Segments)
    requires inc < loc <= n && n + 1 < |q| && factor > 1.0
    requires StartsAt(q, n, from, inc) && NoFallBack(q, factor, inc, loc) && FallsBack(q, factor, inc, loc)
    requires Found(q, n, factor, thresh, loc, rest, WithMarks(q, thresh, inc, loc, marks), r)
    ensures Found(q, n, factor, thresh, from, [Busy(inc, loc)] + rest, marks, r)
  {
    assert ([Busy(inc, loc)] + rest)[1..] == rest;
  }

  lemma {:induction false} NoMoreExcursions(q: seq<real>, n: nat, factor: real, thresh: int, from: nat, inc: nat,
      marks: set<nat>)
    requires inc <= n && n + 1 < |q| && factor > 1.0
    requires StartsAt(q, n, from, inc) && NoFallBack(q, factor, inc, n + 1)
    ensures Found(q, n, factor, thresh, from, [], marks, Segments(inc, marks))
  {}

  ghost predicate SoFar(q: seq<real>, factor: real, inc: nat, loc: nat, peak: real)
    requires inc < loc <= |q| && factor > 1.0
  {
    PeakOk(q, inc, loc, peak) && NoFallBack(q, factor, inc, loc)
  }

  lemma {:induction false} JustBegun(q: seq<real>, factor: real, inc: nat)
    requires inc < |q| && factor > 1.0
    ensures SoFar(q, factor, inc, inc + 1, 0.0)
  {}

  lemma {:induction false} PassedOver(q: seq<real>, factor: real, inc: nat, loc: nat, peak: real)
    requires inc < loc < |q| && factor > 1.0 && SoFar(q, factor, inc, loc, peak) && !Usable(q, loc)
    ensures SoFar(q, factor, inc, loc + 1, peak)
  {}

  lemma {:induction false} GoneOn(q: seq<real>, factor: real, inc: nat, loc: nat, peak: real)
    requires inc < loc < |q| && factor > 1.0 && SoFar(q, factor, inc, loc, peak) && Usable(q, loc)
    requires !FallsBack(q, factor, inc, loc)
    ensures SoFar(q, factor, inc, loc + 1, Upper(peak, Rise(q, inc, loc)))
  {}

  /** From every state of the scan: what it still finds is the split of the rest. */
  lemma {:induction false} ScanSplits(q: seq<real>, n: nat, factor: real, thresh: int, from: nat, loc: nat, inc: nat,
      peak: real, marks: set<nat>)
    returns (xs: seq<Busy>)
    requires 1 <= inc <= n && inc < loc <= n + 1 && n + 1 < |q| && factor > 1.0
    requires StartsAt(q, n, from, inc) && SoFar(q, factor, inc, loc, peak)
    ensures Found(q, n, factor, thresh, from, xs, marks, Scan(q, n, factor, thresh, loc, inc, peak, marks))
    decreases n + 1 - loc
  {
    if loc > n {
      xs := [];
      NoMoreExcursions(q, n, factor, thresh, from, inc, marks);
    } else if !Usable(q, loc) {
      PassedOver(q, factor, inc, loc, peak);
      xs := ScanSplits(q, n, factor, thresh, from, loc + 1, inc, peak, marks);
    } else {
      EndsIsFallingBack(q, inc, loc, peak, factor);
      if Ends(q, inc, loc, peak, factor) {
        var inc', next := NextIncrease(q, loc, n), WithMarks(q, thresh, inc, loc, marks);
        NextIncreaseStarts(q, n, loc);
        JustBegun(q, factor, inc');
        var r := Scan(q, n, factor, thresh, inc' + 1, inc', 0.0, next);
        var rest := ScanSplits(q, n, factor, thresh, loc, inc' + 1, inc', 0.0, next);
        OneMoreExcursion(q, n, factor, thresh, from, inc, loc, rest, marks, r);
        xs := [Busy(inc, loc)] + rest;
      } else {
        GoneOn(q, factor, inc, loc, peak);
        xs := ScanSplits(q, n, factor, thresh, from, loc + 1, inc, Upper(peak, Rise(q, inc, loc)), marks);
      }
    }
  }

  /** The scan finds exactly the split of a chirp's delays: the last excursion it reports is the
      unfinished one, and it marks the growing positions of the long finished ones. */
  lemma {:induction false} SegmentedIsTheSplit(q: seq<real>, n: nat, factor: real, thresh: int, xs: seq<Busy>,
      last: nat)
    requires 1 <= n && n + 1 < |q| && factor > 1.0
    ensures exists ys :: Splits(q, n, factor, 1, ys, Segmented(q, n, factor, thresh).last)
    ensures Splits(q, n, factor, 1, xs, last)
      ==> Segmented(q, n, factor, thresh) == Segments(last, MarksOf(q, xs, thresh))
  {
    var inc := NextIncrease(q, 1, n);
    NextIncreaseStarts(q, n, 1);
    JustBegun(q, factor, inc);
    var ys := ScanSplits(q, n, factor, thresh, 1, inc + 1, inc, 0.0, {});
    assert Splits(q, n, factor, 1, ys, Segmented(q, n, factor, thresh).last);
    if Splits(q, n, factor, 1, xs, last) {
      SplitIsUnique(q, n, factor, 1, xs, last, ys, Segmented(q, n, factor, thresh).last);
    }
  }

  // ----- The estimate, from the split

  /** Position `c` lies in a long enough finished excursion, where the delay grows. */
  ghost predicate InBusyPeriod(q: seq<real>, xs: seq<Busy>, thresh: int, c: nat) {
    c + 1 < |q| && q[c] < q[c + 1] && exists x | x in xs :: x.start <= c < x.end && x.end - x.start >= thresh
  }

  /** What a position stands for: its own rate in a long enough finished excursion while the delay grows,
      and everywhere else the rate just before the unfinished excursion. Rates below one count as
      none. */
  ghost function SplitRate(q: seq<real>, rates: seq<real>, xs: seq<Busy>, last: nat, thresh: int, c: nat): real
    requires 1 <= last <= |rates| && c <= |rates|
  {
    if InBusyPeriod(q, xs, thresh, c) && c < |rates| && rates[c] >= 1.0 then rates[c] else rates[last - 1]
  }

  lemma {:induction false} MarksAreBusy(q: seq<real>, n: nat, factor: real, from: nat, xs: seq<Busy>, last: nat,
      thresh: int, c: nat)
    requires n + 1 < |q| && factor > 1.0 && Splits(q, n, factor, from, xs, last)
    ensures c in MarksOf(q, xs, thresh) <==> InBusyPeriod(q, xs, thresh, c)
    decreases |xs|
  {
    if xs != [] {
      MarksAreBusy(q, n, factor, xs[0].end, xs[1..], last, thresh, c);
      assert forall x :: x in xs <==> x == xs[0] || x in xs[1..];
    }
  }

  /** The estimate puts every position down to the rate the split says. */
  lemma {:induction false} ValuesFollowTheSplit(q: seq<real>, rates: seq<real>, n: nat, factor: real, thresh: int,
      xs: seq<Busy>, last: nat, c: nat)
    requires 1 <= n <= |rates| && n + 1 < |q| && factor > 1.0 && c <= n
    requires Splits(q, n, factor, 1, xs, last)
    ensures 1 <= last <= n
    ensures Values(q, rates, n, factor, thresh)[c] == SplitRate(q, rates, xs, last, thresh, c)
  {
    SegmentedIsTheSplit(q, n, factor, thresh, xs, last);
    SegmentedOk(q, n, factor, thresh);
    MarksAreBusy(q, n, factor, 1, xs, last, thresh, c);
  }

  ghost function Elapsed(iat: seq<real>, k: nat): real
    requires k <= |iat|
  {
    if k == 0 then 0.0 else Elapsed(iat, k - 1) + iat[k - 1]
  }

  /** What the first `k` interarrivals carry at the rates of the split. */
  ghost function Carried(q: seq<real>, rates: seq<real>, iat: seq<real>, xs: seq<Busy>, last: nat, thresh: int,
      k: nat): real
    requires 1 <= last <= |rates| && k <= |iat| && k <= |rates| + 1
  {
    if k == 0 then 0.0
    else
      Carried(q, rates, iat, xs, last, thresh, k - 1)
      + SplitRate(q, rates, xs, last, thresh, k - 1) * iat[k - 1]
  }

  lemma {:induction false} SumIsElapsed(w: seq<real>, iat: seq<real>, k: nat)
    requires k <= |iat| && w == iat[..k]
    ensures Sum(w) == Elapsed(iat, k)
  {
    if k > 0 {
      assert w[..k - 1] == iat[..k - 1];
      SumIsElapsed(w[..k - 1], iat, k - 1);
    }
  }

  lemma {:induction false} WeightedSumIsCarried(v: seq<real>, w: seq<real>, q: seq<real>, rates: seq<real>,
      iat: seq<real>, xs: seq<Busy>, last: nat, thresh: int, k: nat)
    requires 1 <= last <= |rates| && |v| == |w| == k <= |rates| + 1 && k <= |iat| && w == iat[..k]
    requires forall c | 0 <= c < k :: v[c] == SplitRate(q, rates, xs, last, thresh, c)
    ensures WeightedSum(v, w) == Carried(q, rates, iat, xs, last, thresh, k)
  {
    if k > 0 {
      assert w[..k - 1] == iat[..k - 1];
      WeightedSumIsCarried(v[..k - 1], w[..k - 1], q, rates, iat, xs, last, thresh, k - 1);
      assert v[k - 1] == SplitRate(q, rates, xs, last, thresh, k - 1) && w[k - 1] == iat[k - 1];
    }
  }

  lemma {:induction false} CarriedByValues(q: seq<real>, rates: seq<real>, iat: seq<real>, n: nat, factor: real,
      thresh: int, xs: seq<Busy>, last: nat)
    requires Inputs(q, rates, iat, n, factor) && Splits(q, n, factor, 1, xs, last)
    ensures 1 <= last <= n
    ensures WeightedSum(Values(q, rates, n, factor, thresh), iat[..n + 1])
      == Carried(q, rates, iat, xs, last, thresh, n + 1)
  {
    var v := Values(q, rates, n, factor, thresh);
    ValuesFollowTheSplit(q, rates, n, factor, thresh, xs, last, 0);
    forall c | 0 <= c <= n ensures v[c] == SplitRate(q, rates, xs, last, thresh, c) {
      ValuesFollowTheSplit(q, rates, n, factor, thresh, xs, last, c);
    }
    WeightedSumIsCarried(v, iat[..n + 1], q, rates, iat, xs, last, thresh, n + 1);
  }

  /** The estimate of a chirp, from its split alone: at that rate the chirp would carry in its time what it
      carries at the rates of the split. */
  lemma {:induction false} EstimateFollowsTheSplit(q: seq<real>, rates: seq<real>, iat: seq<real>, n: nat, factor: real,
      thresh: int, xs: seq<Busy>, last: nat)
    requires Inputs(q, rates, iat, n, factor) && Splits(q, n, factor, 1, xs, last)
    ensures 1 <= last <= n && Elapsed(iat, n + 1) > 0.0
    ensures Elapsed(iat, n + 1) * EstimateOf(q, rates, iat, n, factor, thresh)
      == Carried(q, rates, iat, xs, last, thresh, n + 1)
  {
    var w := iat[..n + 1];
    SumIsElapsed(w, iat, n + 1);
    SumPositive(w);
    EstimateTimesSum(q, rates, iat, w, n, factor, thresh);
    CarriedByValues(q, rates, iat, n, factor, thresh, xs, last);
  }

  lemma {:induction false} EstimateTimesSum(q: seq<real>, rates: seq<real>, iat: seq<real>, w: seq<real>, n: nat,
      factor: real, thresh: int)
    requires Inputs(q, rates, iat, n, factor) && w == iat[..n + 1]
    ensures Sum(w) * EstimateOf(q, rates, iat, n, factor, thresh) == WeightedSum(Values(q, rates, n, factor, thresh), w)
  {
    var a, b := WeightedSum(Values(q, rates, n, factor, thresh), w), Sum(w);
    SumPositive(w);
    QuotientTimes(a, b);
  }
}
