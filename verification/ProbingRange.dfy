/** The range of rates an ASSOLO receiver probes: the checks on the command line, the counters
    that notice estimates close to either end, and the adaptive change of the range.
    Rates are in Mbps. */
module ProbingRange {
  import opened Wrappers

  const MAX_HIGH_RATE := 1500.0
  const MAX_AVG_RATE := 3.0
  const MIN_AVG_RATE := 0.005
  const DEFAULT_SGL := 5.0
  const MIN_SGL := 2.0
  const MAX_SGL := 10.0
  const MINPKTSIZE := 40
  const MAXMESG := 8200

  datatype Range = Range(low: real, high: real, avg: real, lowcount: nat, highcount: nat)

  /** What every range in use satisfies. */
  predicate RangeOk(r: Range) {
    && 0.0 < r.low && 5.0 * r.low <= r.high <= 2000.0 * r.low && r.high <= MAX_HIGH_RATE
    && MIN_AVG_RATE <= r.avg <= MAX_AVG_RATE
    && !(r.lowcount > 0 && r.highcount > 0)
  }

  /** The limit put on the high rate before a grid is computed. */
  function Limited(r: Range): Range {
    if r.high > MAX_HIGH_RATE then
      r.(high := MAX_HIGH_RATE, low := if r.low > MAX_HIGH_RATE / 10.0 then MAX_HIGH_RATE / 10.0 else r.low)
    else r
  }

  // ----- Command line

  datatype Parameters = Parameters(low: real, high: real, avg: real, threshold: real, pktsize: int)

  predicate ParametersOk(p: Parameters) {
    && MIN_SGL <= p.threshold <= MAX_SGL
    && MINPKTSIZE <= p.pktsize <= MAXMESG
    && RangeOk(Limited(Range(p.low, p.high, p.avg, 0, 0)))
  }

  /** The number closest to `x` that is at least `lo` and at most `hi`. */
  function Between(lo: real, x: real, hi: real): real {
    if x < lo then lo else if x > hi then hi else x
  }

  /** The range checks that end command-line parsing. `None` stands for exiting. A high rate of zero
      passes them, and is the only one that leaves an unusable range. */
  method CheckParameters(threshold: real, pktsize: int, low: real, high: real, avg: real)
    returns (r: Option<Parameters>)
    ensures r.None? <==> low < 0.0 || high < 0.0 || avg < 0.0 || low > high
    ensures r.Some? ==> (ParametersOk(r.value) <==> high != 0.0)
    ensures r.Some? && 5.0 * low <= high <= 2000.0 * low ==> r.value.low == low && r.value.high == high
    ensures r.Some? && high < 5.0 * low ==> r.value.low == low && r.value.high == 5.0 * low
    ensures r.Some? && high > 2000.0 * low ==> r.value.low == high / 1000.0 && r.value.high == high
    ensures r.Some? ==> r.value.avg == Between(MIN_AVG_RATE, avg, MAX_AVG_RATE)
    ensures r.Some? ==> r.value.threshold == if MIN_SGL <= threshold <= MAX_SGL then threshold else DEFAULT_SGL
    ensures r.Some? ==> r.value.pktsize as real == Between(MINPKTSIZE as real, pktsize as real, MAXMESG as real)
  {
    var soglia, size, l, h, a := threshold, pktsize, low, high, avg;
    if soglia < MIN_SGL || soglia > MAX_SGL {
      soglia := DEFAULT_SGL;
    }
    if size < MINPKTSIZE {
      size := MINPKTSIZE;
    } else if size > MAXMESG {
      size := MAXMESG;
    }
    if l < 0.0 || h < 0.0 || a < 0.0 || l > h {
      return None;
    }
    if a > MAX_AVG_RATE {
      a := MAX_AVG_RATE;
    }
    if a < MIN_AVG_RATE {
      a := MIN_AVG_RATE;
    }
    if h > 2000.0 * l {
      l := h / 1000.0;
    }
    if h < 5.0 * l {
      h := 5.0 * l;
    }
    return Some(Parameters(l, h, a, soglia, size));
  }

  // ----- Noticing estimates near either end

  /** After a smoothed estimate of `mean` Mbps. */
  function Noted(r: Range, mean: real): Range {
    r.(lowcount := if mean < 1.5 * r.low then r.lowcount + 1 else 0,
       highcount := if mean > 0.66 * r.high then r.highcount + 1 else 0)
  }

  // ----- Moving the range

  function Lowered(r: Range): Range {
    if r.low <= 1.0 then r.(high := r.low * 4.0, low := r.low / 4.0, lowcount := 0)
    else r.(high := r.low * 7.0, low := r.low / 7.0, lowcount := 0)
  }

  function Raised(r: Range): Range {
    if r.high > 1.0 then r.(low := r.high / 7.0, high := r.high * 7.0, highcount := 0)
    else r.(low := r.high / 4.0, high := r.high * 4.0, highcount := 0)
  }

  predicate MovesDown(r: Range) { r.lowcount > 2 }
  predicate MovesUp(r: Range) { r.highcount > 2 && r.high < 0.9 * MAX_HIGH_RATE }

  /** The average rate follows the low rate, between a tenth and a fifth of it, inside its limits. */
  function AverageFollows(r: Range): Range {
    var a := if r.avg > r.low / 5.0 then r.low / 5.0 else if r.avg < r.low / 10.0 then r.low / 10.0 else r.avg;
    var b := if a > MAX_AVG_RATE then MAX_AVG_RATE else a;
    r.(avg := if b < MIN_AVG_RATE then MIN_AVG_RATE else b)
  }

  function Moved(r: Range): Range {
    var down := if MovesDown(r) then Lowered(r) else r;
    if MovesUp(down) then Raised(down) else if down.highcount > 2 then down.(highcount := 0) else down
  }

  predicate Resets(r: Range) {
    MovesDown(r) || MovesUp(r)
  }

  /** The range after the counters have been looked at. */
  function Updated(r: Range): Range {
    if Resets(r) then Limited(AverageFollows(Moved(r))) else Moved(r)
  }

  lemma {:induction false} NotedKeepsRangeOk(r: Range, mean: real)
    requires RangeOk(r)
    ensures RangeOk(Noted(r, mean))
  {}

  lemma {:induction false} UpdatedKeepsRangeOk(r: Range)
    requires RangeOk(r)
    ensures RangeOk(Updated(r))
  {}

  datatype Event = Estimate(mean: real) | Check

  function AfterEvents(r: Range, events: seq<Event>): Range {
    if events == [] then r
    else
      var n := |events| - 1;
      var before := AfterEvents(r, events[..n]);
      match events[n] case Estimate(mean) => Noted(before, mean) case Check => Updated(before)
  }

  /** Over every run of estimates and range checks the range stays usable, the average rate stays
      in its limits, and the two counters are never both positive. */
  lemma {:induction false} RangeOkOverRuns(r: Range, events: seq<Event>)
    requires RangeOk(r)
    ensures RangeOk(AfterEvents(r, events))
  {
    if events != [] {
      var n := |events| - 1;
      RangeOkOverRuns(r, events[..n]);
      if events[n].Estimate? { NotedKeepsRangeOk(AfterEvents(r, events[..n]), events[n].mean); }
      UpdatedKeepsRangeOk(AfterEvents(r, events[..n]));
    }
  }

  // ----- What the counters count

  ghost function Estimates(events: seq<Event>): nat {
    if events == [] then 0 else Estimates(events[..|events| - 1]) + if events[|events| - 1].Estimate? then 1 else 0
  }

  ghost predicate SameRange(r: Range, s: Range) {
    r.low == s.low && r.high == s.high
  }

  /** From event `i` on the range is the one after all events. */
  ghost predicate RangeKept(r: Range, events: seq<Event>, i: nat) {
    forall j | i <= j < |events| :: SameRange(AfterEvents(r, events[..j]), AfterEvents(r, events))
  }

  ghost predicate AllBelow(events: seq<Event>, i: nat, bound: real) {
    forall j | i <= j < |events| && events[j].Estimate? :: events[j].mean < bound
  }

  ghost predicate AllAbove(events: seq<Event>, i: nat, bound: real) {
    forall j | i <= j < |events| && events[j].Estimate? :: events[j].mean > bound
  }

  /** From event `i` on, with the range unchanged, there were `m` estimates or more, all close to the low
      end. */
  ghost predicate LowSince(r: Range, events: seq<Event>, m: nat, i: nat) {
    && i <= |events| && RangeKept(r, events, i) && Estimates(events[i..]) >= m
    && AllBelow(events, i, 1.5 * AfterEvents(r, events).low)
  }

  /** The latest `m` estimates or more, all since the last change of the range, were close to its low end. */
  ghost predicate StayedLow(r: Range, events: seq<Event>, m: nat) {
    exists i: nat :: LowSince(r, events, m, i)
  }

  ghost predicate HighSince(r: Range, events: seq<Event>, m: nat, i: nat)
    decreases |events|, 0
  {
    && i <= |events| && RangeKept(r, events, i) && Estimates(events[i..]) >= m
    && AllAbove(events, i, 0.66 * AfterEvents(r, events).high)
    && forall j | i <= j < |events| && events[j].Check? :: !StayedHigh(r, events[..j], 3)
  }

  /** The same for the high end. There a check that finds three of them starts the count again, even when
      the high rate is too large for a move. */
  ghost predicate StayedHigh(r: Range, events: seq<Event>, m: nat)
    decreases |events|, 1
  {
    exists i: nat :: HighSince(r, events, m, i)
  }

  lemma {:induction false} LookBack(r: Range, before: seq<Event>, e: Event, i: nat)
    requires i <= |before|
    ensures var events := before + [e]; var x, y := AfterEvents(r, before), AfterEvents(r, events);
      && y == (if e.Estimate? then Noted(x, e.mean) else Updated(x))
      && (RangeKept(r, events, i) <==> RangeKept(r, before, i) && SameRange(x, y))
      && Estimates(events[i..]) == Estimates(before[i..]) + if e.Estimate? then 1 else 0
    ensures forall b :: AllBelow(before + [e], i, b) <==> AllBelow(before, i, b) && (e.Estimate? ==> e.mean < b)
    ensures forall b :: AllAbove(before + [e], i, b) <==> AllAbove(before, i, b) && (e.Estimate? ==> e.mean > b)
  {
    var events, k := before + [e], |before|;
    assert events[k] == e && events[..k] == before && forall j | 0 <= j < k :: events[j] == before[j];
    forall j | 0 <= j < k ensures events[..j] == before[..j] {}
    var suffix := events[i..];
    assert suffix[..|suffix| - 1] == before[i..] && suffix[|suffix| - 1] == e;
    forall b ensures AllBelow(events, i, b) <==> AllBelow(before, i, b) && (e.Estimate? ==> e.mean < b) {
      BelowOneMore(before, e, i, b);
    }
    forall b ensures AllAbove(events, i, b) <==> AllAbove(before, i, b) && (e.Estimate? ==> e.mean > b) {
      AboveOneMore(before, e, i, b);
    }
  }

  lemma {:induction false} BelowOneMore(before: seq<Event>, e: Event, i: nat, b: real)
    requires i <= |before|
    ensures AllBelow(before + [e], i, b) <==> AllBelow(before, i, b) && (e.Estimate? ==> e.mean < b)
  {
    var events, k := before + [e], |before|;
    assert events[k] == e && forall j | 0 <= j < k :: events[j] == before[j];
  }

  lemma {:induction false} AboveOneMore(before: seq<Event>, e: Event, i: nat, b: real)
    requires i <= |before|
    ensures AllAbove(before + [e], i, b) <==> AllAbove(before, i, b) && (e.Estimate? ==> e.mean > b)
  {
    var events, k := before + [e], |before|;
    assert events[k] == e && forall j | 0 <= j < k :: events[j] == before[j];
  }

  lemma {:induction false} LowOneMore(r: Range, before: seq<Event>, e: Event, m: nat)
    ensures var x, y := AfterEvents(r, before), AfterEvents(r, before + [e]);
      StayedLow(r, before + [e], m) <==>
        m == 0 ||
        (SameRange(x, y) && (if e.Estimate? then e.mean < 1.5 * y.low && StayedLow(r, before, m - 1)
          else StayedLow(r, before, m)))
  {
    var events, k := before + [e], |before|;
    assert events[k + 1..] == [] && before[k..] == [];
    assert LowSince(r, events, 0, k + 1);
    var p: nat := if e.Estimate? && m > 0 then m - 1 else m;
    if m > 0 {
      forall i: nat | LowSince(r, events, m, i) ensures StayedLow(r, before, p) {
        LookBack(r, before, e, i);
        assert LowSince(r, before, p, i);
      }
      if i: nat :| LowSince(r, before, p, i) {
        LookBack(r, before, e, i);
        if SameRange(AfterEvents(r, before), AfterEvents(r, events))
          && (e.Estimate? ==> e.mean < 1.5 * AfterEvents(r, events).low)
        {
          assert LowSince(r, events, m, i);
        }
      }
    }
  }

  lemma {:induction false} HighOneMore(r: Range, before: seq<Event>, e: Event, m: nat)
    ensures var x, y := AfterEvents(r, before), AfterEvents(r, before + [e]);
      StayedHigh(r, before + [e], m) <==>
        m == 0 ||
        (SameRange(x, y) && (if e.Estimate? then e.mean > 0.66 * y.high && StayedHigh(r, before, m - 1)
          else StayedHigh(r, before, m) && !StayedHigh(r, before, 3)))
  {
    var events, k := before + [e], |before|;
    assert events[k + 1..] == [] && before[k..] == [];
    assert HighSince(r, events, 0, k + 1);
    var p: nat := if e.Estimate? && m > 0 then m - 1 else m;
    assert events[k] == e && events[..k] == before;
    forall j | 0 <= j < k ensures events[j] == before[j] && events[..j] == before[..j] {}
    if m > 0 {
      forall i: nat | HighSince(r, events, m, i) ensures StayedHigh(r, before, p) {
        LookBack(r, before, e, i);
        assert HighSince(r, before, p, i);
      }
      if i: nat :| HighSince(r, before, p, i) {
        LookBack(r, before, e, i);
        if SameRange(AfterEvents(r, before), AfterEvents(r, events))
          && (if e.Estimate? then e.mean > 0.66 * AfterEvents(r, events).high else !StayedHigh(r, before, 3))
        {
          assert HighSince(r, events, m, i);
        }
      }
    }
  }

  /** Over every run of estimates and checks the counters say how many of the latest estimates were close
      to either end of the range, since the range last changed or, at the high end, since a check last
      found three of them. */
  lemma {:induction false} CountersCount(r: Range, events: seq<Event>)
    requires RangeOk(r) && r.lowcount == 0 && r.highcount == 0
    ensures forall m: nat :: AfterEvents(r, events).lowcount >= m <==> StayedLow(r, events, m)
    ensures forall m: nat :: AfterEvents(r, events).highcount >= m <==> StayedHigh(r, events, m)
  {
    if events == [] {
      forall m: nat ensures (m <= 0 <==> StayedLow(r, events, m)) && (m <= 0 <==> StayedHigh(r, events, m)) {
        if m == 0 { assert LowSince(r, events, 0, 0) && HighSince(r, events, 0, 0); }
      }
    } else {
      var before, e := events[..|events| - 1], events[|events| - 1];
      CountersCount(r, before);
      RangeOkOverRuns(r, before);
      assert events == before + [e];
      var x, y := AfterEvents(r, before), AfterEvents(r, events);
      forall m: nat ensures y.lowcount >= m <==> StayedLow(r, events, m) {
        LowOneMore(r, before, e, m);
      }
      forall m: nat ensures y.highcount >= m <==> StayedHigh(r, events, m) {
        HighOneMore(r, before, e, m);
      }
    }
  }

  /** How far the range moves. */
  ghost function Factor(end: real): real {
    if end <= 1.0 then 4.0 else 7.0
  }

  ghost function AtMost(x: real, bound: real): real {
    if x > bound then bound else x
  }

  /** The range lies around the rate `end`, above and below it by the same factor, as far as it may. */
  ghost predicate Around(end: real, s: Range) {
    && s.high == AtMost(end * Factor(end), MAX_HIGH_RATE)
    && s.low == AtMost(end / Factor(end), MAX_HIGH_RATE / 10.0)
    && s.low < end < s.high
  }

  lemma {:induction false} MoveGoesDown(x: Range)
    requires RangeOk(x) && MovesDown(x)
    ensures Around(x.low, Updated(x)) && 1.5 * x.low < Updated(x).high
  {}

  lemma {:induction false} MoveGoesUp(x: Range)
    requires RangeOk(x) && MovesUp(x)
    ensures Around(x.high, Updated(x)) && Updated(x).low < 0.66 * x.high
  {}

  /** A check moves the range exactly when the latest three estimates or more stayed close to one of its
      ends, and then to around that end: every one of those estimates lies on the inner side of
      the opposite new end. At the largest rates it does not move up. */
  lemma {:induction false} MoveFollowsTheEstimates(r: Range, events: seq<Event>)
    requires RangeOk(r) && r.lowcount == 0 && r.highcount == 0
    ensures var x, y := AfterEvents(r, events), AfterEvents(r, events + [Check]);
      && !(StayedLow(r, events, 3) && StayedHigh(r, events, 3))
      && (StayedLow(r, events, 3) ==>
          Around(x.low, y) && forall i: nat | LowSince(r, events, 3, i) :: AllBelow(events, i, y.high))
      && (StayedHigh(r, events, 3) && x.high < 0.9 * MAX_HIGH_RATE ==>
          Around(x.high, y) && forall i: nat | HighSince(r, events, 3, i) :: AllAbove(events, i, y.low))
      && (!StayedLow(r, events, 3) && !(StayedHigh(r, events, 3) && x.high < 0.9 * MAX_HIGH_RATE) ==>
          SameRange(x, y))
  {
    var x := AfterEvents(r, events);
    CountersCount(r, events);
    RangeOkOverRuns(r, events);
    assert (events + [Check])[..|events|] == events;
    assert AfterEvents(r, events + [Check]) == Updated(x);
    if MovesDown(x) { MoveGoesDown(x); }
    if MovesUp(x) { MoveGoesUp(x); }
  }

  ghost predicate Suits(low: real, avg: real) {
    MIN_AVG_RATE <= avg <= MAX_AVG_RATE && low / 10.0 <= avg <= low / 5.0
  }

  ghost function Distance(x: real, y: real): real {
    if x < y then y - x else x - y
  }

  /** After a move the average rate is the one closest to the old one, of those inside the limits and
      between a tenth and a fifth of the low rate; it is at a limit when there is none. */
  lemma {:induction false} AverageSuitsTheRange(r: Range)
    requires RangeOk(r) && Resets(r)
    ensures var y := Updated(r);
      && (forall a | Suits(y.low, a) :: Suits(y.low, y.avg) && Distance(y.avg, r.avg) <= Distance(a, r.avg))
      && (y.low / 5.0 < MIN_AVG_RATE ==> y.avg == MIN_AVG_RATE)
      && (y.low / 10.0 > MAX_AVG_RATE ==> y.avg == MAX_AVG_RATE)
  {}
}
