/** What becomes of a chirp's estimate: it is smoothed over a circular window of the latest
    estimates and noted by the receiver. */
module Estimator {
  import opened ProbingRange
  import opened ProbingReceiver
  import opened Excursion
  import opened Reals
  import opened Wrappers
  import ProbingGrid

  // ----- Spread and variation of a window

  function Smallest(s: seq<real>): real
    requires s != []
  {
    if |s| == 1 then s[0] else Lower(Smallest(s[..|s| - 1]), s[|s| - 1])
  }

  function Largest(s: seq<real>): real
    requires s != []
  {
    if |s| == 1 then s[0] else Upper(Largest(s[..|s| - 1]), s[|s| - 1])
  }

  /** The sum of the absolute steps from each entry to the next. */
  function Variation(s: seq<real>): real {
    if |s| <= 1 then 0.0 else Variation(s[..|s| - 1]) + Abs(s[|s| - 1] - s[|s| - 2])
  }

  /** No two entries differ by more than the steps between them add up to. */
  lemma {:induction false} SpreadWithinVariation(s: seq<real>)
    requires s != []
    ensures Smallest(s) <= s[|s| - 1] <= Largest(s)
    ensures 0.0 <= Largest(s) - Smallest(s) <= Variation(s)
    ensures s[|s| - 1] - Smallest(s) <= Variation(s) && Largest(s) - s[|s| - 1] <= Variation(s)
  {
    if |s| > 1 { SpreadWithinVariation(s[..|s| - 1]); }
  }

  lemma {:induction false} WithinSpread(s: seq<real>, i: nat)
    requires i < |s|
    ensures Smallest(s) <= s[i] <= Largest(s)
  {
    if |s| > 1 && i < |s| - 1 { WithinSpread(s[..|s| - 1], i); }
  }

  /** The weight the VHF filter gives its previous output. */
  function Alfa(window: seq<real>): real
    requires window != []
  {
    var spread := Abs(Largest(window) - Smallest(window));
    if spread == 0.0 then 0.5
    else if Variation(window) == 0.0 then 0.0
    else 0.33333 * (spread / Variation(window))
  }

  /** The filter never divides by zero, and its weight is one half or in (0, 0.33333]. */
  lemma {:induction false} AlfaBounds(window: seq<real>)
    requires window != []
    ensures Abs(Largest(window) - Smallest(window)) != 0.0 ==> Variation(window) > 0.0
    ensures Alfa(window) == 0.5 || 0.0 < Alfa(window) <= 0.33333
    ensures Alfa(window) == 0.5 <==> Largest(window) == Smallest(window)
  {
    SpreadWithinVariation(window);
    var spread := Abs(Largest(window) - Smallest(window));
    if spread != 0.0 { QuotientAtMostOne(spread, Variation(window)); }
  }

  ghost predicate Rising(s: seq<real>) {
    forall i | 0 <= i < |s| - 1 :: s[i] <= s[i + 1]
  }

  ghost predicate Falling(s: seq<real>) {
    forall i | 0 <= i < |s| - 1 :: s[i] >= s[i + 1]
  }

  lemma {:induction false} RisingVariation(s: seq<real>)
    requires s != [] && Rising(s)
    ensures Variation(s) == Largest(s) - Smallest(s) && Smallest(s) == s[0] && Largest(s) == s[|s| - 1]
  {
    if |s| > 1 { RisingVariation(s[..|s| - 1]); }
  }

  lemma {:induction false} FallingVariation(s: seq<real>)
    requires s != [] && Falling(s)
    ensures Variation(s) == Largest(s) - Smallest(s) && Smallest(s) == s[|s| - 1] && Largest(s) == s[0]
  {
    if |s| > 1 { FallingVariation(s[..|s| - 1]); }
  }

  /** When the steps add up to no more than the spread, all of them go the same way. */
  lemma {:induction false} TightIsMonotone(s: seq<real>)
    requires s != [] && Largest(s) - Smallest(s) == Variation(s)
    ensures Rising(s) || Falling(s)
    ensures Largest(s) == Smallest(s) ==> Rising(s) && Falling(s)
  {
    if |s| > 1 {
      var t := s[..|s| - 1];
      SpreadWithinVariation(t);
      TightIsMonotone(t);
      if Rising(t) { RisingVariation(t); } else { FallingVariation(t); }
      assert s == t + [s[|s| - 1]];
    }
  }

  /** The weight is one third, as the program writes it, exactly when the window rises or falls throughout
      without being flat: the more it goes back and forth, the less the previous output counts. */
  lemma {:induction false} AlfaIsLargest(window: seq<real>)
    requires window != []
    ensures Alfa(window) == 0.33333 <==> (Rising(window) || Falling(window)) && Largest(window) != Smallest(window)
  {
    SpreadWithinVariation(window);
    AlfaBounds(window);
    if Rising(window) { RisingVariation(window); }
    if Falling(window) { FallingVariation(window); }
    if Largest(window) - Smallest(window) == Variation(window) { TightIsMonotone(window); }
    var spread, v := Largest(window) - Smallest(window), Variation(window);
    if spread != 0.0 { QuotientIsOne(spread, v); }
  }

  /** A window that goes back and forth between two values. */
  ghost predicate Alternates(s: seq<real>, x: real, y: real) {
    forall i | 0 <= i < |s| :: s[i] == if i % 2 == 0 then x else y
  }

  lemma {:induction false} AlternatingSpread(s: seq<real>, x: real, y: real)
    requires |s| >= 2 && Alternates(s, x, y)
    ensures Largest(s) == Upper(x, y) && Smallest(s) == Lower(x, y)
  {
    if |s| > 2 { AlternatingSpread(s[..|s| - 1], x, y); } else { assert s[..1] == [x]; }
  }

  lemma {:induction false} AlternatingVariation(s: seq<real>, x: real, y: real, d: real, n: real)
    requires s != [] && Alternates(s, x, y) && d == Abs(x - y) && n == (|s| - 1) as real
    ensures Variation(s) == n * d
  {
    if |s| > 1 {
      AlternatingVariation(s[..|s| - 1], x, y, d, n - 1.0);
      Distribute(d, n - 1.0, 1.0);
    }
  }

  lemma {:induction false} AlternatingAlfa(s: seq<real>, x: real, y: real, n: real)
    requires |s| >= 2 && Alternates(s, x, y) && x != y && n == (|s| - 1) as real
    ensures Alfa(s) * n == 0.33333
  {
    var d, v := Abs(x - y), Variation(s);
    AlternatingVariation(s, x, y, d, n);
    AlternatingSpread(s, x, y);
    AlfaBounds(s);
    QuotientTimes(d, v);
    SoManyTimes(d / v, n, d, v);
  }

  lemma {:induction false} SoManyTimes(q: real, n: real, d: real, v: real)
    requires v == n * d && v * q == d && d > 0.0
    ensures q * n == 1.0
  {
    assert (q * n) * d == d;
    if q * n < 1.0 { Order(q * n, 1.0, d); }
    if q * n > 1.0 { Order(1.0, q * n, d); }
  }

  // ----- Sums over windows

  lemma {:induction false} SumJoined(a: seq<real>, b: seq<real>)
    ensures Sum(a + b) == Sum(a) + Sum(b)
  {
    if b == [] {
      assert a + b == a;
    } else {
      assert (a + b)[..|a + b| - 1] == a + b[..|b| - 1];
      SumJoined(a, b[..|b| - 1]);
    }
  }

  lemma {:induction false} SumUpdated(s: seq<real>, i: nat, x: real)
    requires i < |s|
    ensures Sum(s[i := x]) == Sum(s) - s[i] + x
  {
    assert s == s[..i] + ([s[i]] + s[i + 1..]);
    assert s[i := x] == s[..i] + ([x] + s[i + 1..]);
    SumJoined(s[..i], [s[i]] + s[i + 1..]);
    SumJoined(s[..i], [x] + s[i + 1..]);
    SumJoined([s[i]], s[i + 1..]);
    SumJoined([x], s[i + 1..]);
    SumOfOne(s[i]);
    SumOfOne(x);
  }

  lemma {:induction false} SumOfOne(x: real)
    ensures Sum([x]) == x
  {
    assert [x][..0] == [];
  }

  lemma {:induction false} SumBetween(s: seq<real>, lo: real, hi: real)
    requires forall i | 0 <= i < |s| :: lo <= s[i] <= hi
    ensures |s| as real * lo <= Sum(s) <= |s| as real * hi
  {
    if s != [] {
      SumBetween(s[..|s| - 1], lo, hi);
      Distribute(lo, (|s| - 1) as real, 1.0);
      Distribute(hi, (|s| - 1) as real, 1.0);
    }
  }

  lemma {:induction false} MeanBetween(s: seq<real>, lo: real, hi: real)
    requires s != [] && forall i | 0 <= i < |s| :: lo <= s[i] <= hi
    ensures lo <= Sum(s) / |s| as real <= hi
  {
    SumBetween(s, lo, hi);
    QuotientBetween(lo, hi, Sum(s), |s| as real);
  }

  // ----- The smoothing window

  /** The last `n` of the estimates, zeros before there were any. */
  ghost function Latest(history: seq<real>, n: nat): (r: seq<real>)
    ensures |r| == n
  {
    (seq(n, i => 0.0) + history)[|history|..]
  }

  lemma {:induction false} LatestAppended(history: seq<real>, x: real, n: nat)
    requires n > 0
    ensures Latest(history + [x], n) == Latest(history, n)[1..] + [x]
  {}

  /** What the smoother may put out: the VHF blend or the mean of the latest estimates. */
  ghost predicate Smoothed(s: real, vhf: bool, history: seq<real>, window: seq<real>, previous: real, estimate: real)
    requires window != []
  {
    if vhf then s == Alfa(window) * previous + (1.0 - Alfa(window)) * estimate
    else s == Sum(Latest(history, |window|)) / |window| as real
  }

  class Smoother {
    const window: array<real>
    const vhf: bool
    var head: nat
    var total: real
    var count: nat
    var oldMean: real
    /** All estimates so far. */
    ghost var history: seq<real>

    ghost predicate Valid()
      reads this, window
    {
      && window.Length > 0 && head < window.Length
      && window[head..] + window[..head] == Latest(history, window.Length)
      && total == Sum(window[..])
      && count == if |history| <= window.Length then |history| else window.Length + 1
    }

    constructor (numInstBw: nat, vhf: bool)
      requires numInstBw > 0
      ensures Valid() && fresh(window) && window.Length == numInstBw && history == [] && oldMean == 0.0
        && this.vhf == vhf
    {
      window := new real[numInstBw](i => 0.0);
      this.vhf := vhf;
      head, total, count, oldMean, history := 0, 0.0, 0, 0.0, [];
      new;
      SumOfZeros(window[..]);
      assert Latest([], window.Length) == window[..];
    }

    /** Puts the estimate in the place of the oldest one. */
    method Remember(estimate: real)
      requires Valid()
      modifies `head, `total, `history, window
      ensures window.Length > 0 && head < window.Length && history == old(history) + [estimate]
      ensures window[head..] + window[..head] == Latest(history, window.Length)
      ensures total == Sum(window[..])
    {
      ghost var w, h, k := window[..], head, window.Length;
      SumUpdated(w, head, estimate);
      LatestAppended(history, estimate, k);
      total := total + estimate;
      total := total - window[head];
      window[head] := estimate;
      history := history + [estimate];
      head := head + 1;
      if head >= window.Length {
        head := 0;
      }
      assert window[..] == w[h := estimate];
      RotatedUpdate(w, h, estimate);
    }

    method Weight() returns (alfa: real)
      requires window.Length > 0
      ensures alfa == Alfa(window[..])
    {
      var ls, mx, den := window[0], window[0], 0.0;
      ghost var w := window[..];
      for g := 1 to window.Length
        invariant ls == Smallest(w[..g]) && mx == Largest(w[..g]) && den == Variation(w[..g])
      {
        assert w[..g + 1][..g] == w[..g];
        if window[g] < ls {
          ls := window[g];
        }
        if window[g] > mx {
          mx := window[g];
        }
        den := den + Abs(window[g] - window[g - 1]);
      }
      assert w[..window.Length] == w;
      AlfaBounds(w);
      if Abs(mx - ls) == 0.0 {
        alfa := 0.5;
      } else {
        alfa := 0.33333 * (Abs(mx - ls) / den);
      }
    }

    /** Smooths one estimate. Nothing comes out until the window has been filled once and one more
        estimate has arrived. */
    method Smooth(estimate: real) returns (mean: Option<real>)
      requires Valid()
      modifies this, window
      ensures Valid() && history == old(history) + [estimate]
      ensures mean.Some? <==> |old(history)| > window.Length
      ensures mean.None? ==> oldMean == old(oldMean)
      ensures mean.Some? ==> mean.value == oldMean
      ensures mean.Some? ==> Smoothed(oldMean, vhf, history, window[..], old(oldMean), estimate)
    {
      Remember(estimate);
      if count > window.Length {
        var instMean;
        if vhf {
          var alfa := Weight();
          instMean := alfa * oldMean + (1.0 - alfa) * estimate;
        } else {
          RotatedSum(window[..], head);
          instMean := total / window.Length as real;
        }
        oldMean := instMean;
        mean := Some(instMean);
      } else {
        mean := None;
        count := count + 1;
      }
    }
  }

  lemma {:induction false} SumOfZeros(s: seq<real>)
    requires forall i | 0 <= i < |s| :: s[i] == 0.0
    ensures Sum(s) == 0.0
  {
    if s != [] { SumOfZeros(s[..|s| - 1]); }
  }

  lemma {:induction false} RotatedSum(w: seq<real>, head: nat)
    requires head <= |w|
    ensures Sum(w[head..] + w[..head]) == Sum(w)
  {
    assert w == w[..head] + w[head..];
    SumJoined(w[head..], w[..head]);
    SumJoined(w[..head], w[head..]);
  }

  /** Overwriting the oldest entry and moving on drops it from the rotation and appends the new one. */
  lemma {:induction false} RotatedUpdate(w: seq<real>, head: nat, x: real)
    requires head < |w|
    ensures var v, next := w[head := x], if head + 1 >= |w| then 0 else head + 1;
      v[next..] + v[..next] == (w[head..] + w[..head])[1..] + [x]
  {}

  /** With the VHF filter an output lies between the previous output and the new estimate; with the
      moving average it lies between the smallest and the largest estimate of the window. */
  lemma {:induction false} OutputBounds(window: seq<real>, previous: real, estimate: real)
    requires window != []
    ensures var alfa := Alfa(window);
      Lower(previous, estimate) <= alfa * previous + (1.0 - alfa) * estimate <= Upper(previous, estimate)
    ensures Smallest(window) <= Sum(window) / |window| as real <= Largest(window)
  {
    AlfaBounds(window);
    Blend(Alfa(window), 1.0 - Alfa(window), previous, estimate);
    forall i | 0 <= i < |window| ensures Smallest(window) <= window[i] <= Largest(window) {
      WithinSpread(window, i);
    }
    MeanBetween(window, Smallest(window), Largest(window));
  }

  /** An output of the VHF filter stays closer to the new estimate than to the previous output: half way
      when the window is flat, otherwise at most a third of the way back, and exactly a third, as the
      program writes it, when the window rises or falls throughout. */
  lemma {:induction false} OutputFollowsTheEstimate(s: real, history: seq<real>, window: seq<real>, previous: real,
      estimate: real)
    requires window != [] && Smoothed(s, true, history, window, previous, estimate)
    ensures Largest(window) == Smallest(window) ==> s - estimate == 0.5 * (previous - estimate)
    ensures Largest(window) != Smallest(window) ==> Abs(s - estimate) <= 0.33333 * Abs(previous - estimate)
    ensures Largest(window) != Smallest(window) && (Rising(window) || Falling(window))
      ==> s - estimate == 0.33333 * (previous - estimate)
  {
    var a, d := Alfa(window), previous - estimate;
    AlfaBounds(window);
    AlfaIsLargest(window);
    BlendDistance(a, previous, estimate, s, d);
    if a != 0.5 { Scaled(a, 0.33333, d); }
  }

  /** Without it an output is the mean of the latest estimates, as many as the window holds. */
  lemma {:induction false} OutputIsTheMean(s: real, history: seq<real>, window: seq<real>, previous: real,
      estimate: real)
    requires window != [] && |history| >= |window| && Smoothed(s, false, history, window, previous, estimate)
    ensures s * |window| as real == Sum(history[|history| - |window|..])
  {
    assert Latest(history, |window|) == history[|history| - |window|..];
  }

  // ----- Together with the receiver

  const SCALE := MAX_HIGH_RATE * MBPS

  /** Every estimate so far and the last output lie between zero and the largest rate allowed. */
  ghost predicate InScale(s: Smoother)
    reads s
  {
    AllInScale(s.history) && 0.0 <= s.oldMean <= SCALE
  }

  ghost predicate AllInScale(estimates: seq<real>) {
    forall i | 0 <= i < |estimates| :: 0.0 <= estimates[i] <= SCALE
  }

  lemma {:induction false} OutputInScale(s: real, vhf: bool, history: seq<real>, window: seq<real>, previous: real,
      estimate: real)
    requires AllInScale(history) && 0.0 <= previous <= SCALE && 0.0 <= estimate <= SCALE
    requires window != [] && Smoothed(s, vhf, history, window, previous, estimate)
    ensures 0.0 <= s <= SCALE
  {
    OutputBounds(window, previous, estimate);
    MeanBetween(Latest(history, |window|), 0.0, SCALE);
  }

  method SmoothInScale(s: Smoother, estimate: real) returns (mean: Option<real>)
    requires s.Valid() && InScale(s) && 0.0 <= estimate <= SCALE
    modifies s, s.window
    ensures s.Valid() && s.history == old(s.history) + [estimate] && InScale(s)
    ensures mean.Some? <==> |old(s.history)| > s.window.Length
    ensures mean.Some? ==> mean.value == s.oldMean
  {
    ghost var previous := s.oldMean;
    mean := s.Smooth(estimate);
    if mean.Some? {
      OutputInScale(s.oldMean, s.vhf, s.history, s.window[..], previous, estimate);
    }
  }

  /** Smooths an estimate in bits per second and notes it in Mbps. */
  method WriteInstantBw(s: Smoother, r: Receiver, estimate: real) returns (mean: Option<real>)
    requires s.Valid() && r.Valid() && s.window != r.rates && s.window != r.iat
    requires InScale(s) && 0.0 <= estimate <= SCALE
    modifies s, s.window, r`lowcount, r`highcount
    ensures s.Valid() && r.Valid() && s.history == old(s.history) + [estimate]
    ensures InScale(s)
    ensures mean.Some? <==> |old(s.history)| > s.window.Length
    ensures r.State() == if mean.Some? then Noted(old(r.State()), s.oldMean / MBPS) else old(r.State())
  {
    mean := SmoothInScale(s, estimate);
    assert r.Valid();
    if mean.Some? {
      r.NoteEstimate(mean.value / MBPS);
    }
  }

  lemma {:induction false} TimesArePositive(r: Receiver)
    requires r.Valid()
    ensures r.iat[0] > 0.0 && NonNegative(r.iat[..])
  {
    var g := r.ProbedRates();
    forall i | 0 <= i < r.iat.Length ensures r.iat[i] >= 0.0 && (i == 0 ==> r.iat[i] > 0.0) {
      if i < r.numInterarrival { QuotientPositive(8.0 * r.pktsize as real, g[i]); }
    }
  }

  lemma {:induction false} TimesAddUp(r: Receiver, n: nat)
    requires r.Valid() && n <= r.numInterarrival
    ensures Sum(r.iat[..n]) == Duration(r.ProbedRates(), r.pktsize, n)
  {
    if n > 0 {
      TimesAddUp(r, n - 1);
      assert r.iat[..n][..n - 1] == r.iat[..n - 1];
    }
  }

  lemma {:induction false} OnePacketAt(rates: seq<real>, iat: seq<real>, g: seq<real>, bits: real, i: nat)
    requires i < |g| <= |rates| && |g| <= |iat| && AllPositive(g)
    requires rates[..|g|] == g && iat[i] == bits / g[i]
    ensures rates[i] * iat[i] == bits
  {
    assert rates[..|g|][i] == rates[i];
    QuotientTimes(bits, g[i]);
  }

  /** Each interarrival time carries one packet at the rate of its position. */
  lemma {:induction false} TimesCarryPackets(r: Receiver, i: nat)
    requires r.Valid() && i < r.numInterarrival
    ensures r.rates[i] * r.iat[i] == 8.0 * r.pktsize as real
  {
    var g := r.ProbedRates();
    assert r.rates[..r.numInterarrival] == g && |g| == r.numInterarrival;
    OnePacketAt(r.rates[..], r.iat[..], g, 8.0 * r.pktsize as real, i);
  }

  /** A chirp lasts as long as its interarrival times together. */
  lemma {:induction false} ChirpTakesItsTimes(r: Receiver)
    requires r.Valid()
    ensures Sum(r.iat[..r.numInterarrival]) == r.chirpDuration
  {
    TimesAddUp(r, r.numInterarrival);
  }

  /** A valid receiver meets what the excursion scan needs. */
  lemma {:induction false} ReceiverInputs(r: Receiver, q: seq<real>, n: nat, factor: real)
    requires r.Valid() && 1 <= n <= r.numInterarrival && n + 1 < |q| && factor > 1.0
    ensures Inputs(q, r.rates[..], r.iat[..], n, factor)
  {
    TimesArePositive(r);
    var times := r.iat[..];
    assert times[..n + 1][0] == r.iat[0];
  }

  /** Every estimate of a chirp lies strictly inside the range the receiver probes. */
  lemma {:induction false} EstimateInsideRange(r: Receiver, q: seq<real>, n: nat, factor: real, thresh: int)
    requires r.Valid() && 1 <= n <= r.numInterarrival && n + 1 < |q| && factor > 1.0
    ensures Inputs(q, r.rates[..], r.iat[..], n, factor)
    ensures r.lowRate * MBPS < EstimateOf(q, r.rates[..], r.iat[..], n, factor, thresh) < r.highRate * MBPS
  {
    ReceiverInputs(r, q, n, factor);
    var k, low, high := r.Neighbours(), r.lowRate, r.highRate;
    var g, centre := r.ProbedRates(), (high + low) / 2.0;
    StepBounds(r.threshold, (high - low) / 2.0);
    forall i, j | 0 <= i < j < n ensures r.rates[..][i] < r.rates[..][j] {
      ProbingGrid.RatesIncrease(centre, r.Thr(), r.spread, k, i, j);
      assert r.rates[..r.numInterarrival][i] == g[i] && r.rates[..r.numInterarrival][j] == g[j];
    }
    EstimateIsProbed(q, r.rates[..], r.iat[..], n, factor, thresh);
    ProbingGrid.RatesFillTheRange(low, high, r.Thr(), r.spread, k, 0);
    ProbingGrid.RatesFillTheRange(low, high, r.Thr(), r.spread, k, n - 1);
    assert r.rates[..r.numInterarrival][0] == g[0] && r.rates[..r.numInterarrival][n - 1] == g[n - 1];
  }
}
