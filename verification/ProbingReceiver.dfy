/** The receiver side of the probing grid: rates, interarrival times and chirp timing follow the
    probing range through every update. The sender side rebuilds the grid from a control packet. */
module ProbingReceiver {
  import opened ProbingRange
  import opened Reals
  import opened Wrappers
  import opened ProbingGrid

  const MBPS := 1000000.0

  /** The time to transmit one packet of `pktsize` bytes at each of the first `n` rates. */
  ghost function Duration(rs: seq<real>, pktsize: int, n: nat): real
    requires n <= |rs| && NoneZero(rs)
  {
    if n == 0 then 0.0 else Duration(rs, pktsize, n - 1) + 8.0 * pktsize as real / rs[n - 1]
  }

  ghost predicate NoneZero(rs: seq<real>) {
    forall i | 0 <= i < |rs| :: rs[i] != 0.0
  }

  ghost predicate AllPositive(rs: seq<real>) {
    forall i | 0 <= i < |rs| :: rs[i] > 0.0
  }

  ghost predicate NonNegative(s: seq<real>) {
    forall i | 0 <= i < |s| :: s[i] >= 0.0
  }

  lemma {:induction false} DurationPositive(rs: seq<real>, pktsize: int, n: nat)
    requires 1 <= n <= |rs| && AllPositive(rs) && pktsize > 0
    ensures Duration(rs, pktsize, n) > 0.0
  {
    QuotientPositive(8.0 * pktsize as real, rs[n - 1]);
    if n > 1 { DurationPositive(rs, pktsize, n - 1); }
  }

  /** The first distance of a grid over half a range. */
  function Step(threshold: real, half: real): real {
    (threshold / 100.0) * half
  }

  lemma {:induction false} StepBounds(threshold: real, half: real)
    requires MIN_SGL <= threshold <= MAX_SGL && half > 0.0
    ensures 0.0 < 0.02 * half <= Step(threshold, half) <= 0.1 * half
  {
    var t := threshold / 100.0;
    ProductMonotone(half, 0.02, t);
    ProductMonotone(half, t, 0.1);
    assert half * t == t * half;
  }

  /** The size of a chirp does not depend on the range. */
  lemma {:induction false} RelativeSize(threshold: real, spread: real, half: real, k: nat)
    requires half > 0.0
    ensures FillsHalf(Step(threshold, half), spread, half, k) <==> FillsHalf(threshold / 100.0, spread, 1.0, k)
    ensures Span(Step(threshold, half), spread, LARGEST) >= half <==> Fits(threshold / 100.0, spread)
  {
    SizeIgnoresRange(threshold / 100.0, spread, half, Step(threshold, half), k);
  }

  /** What the size found by the grid loop means. */
  lemma {:induction false} SizedByGrid(threshold: real, spread: real, low: real, high: real, k: nat)
    requires MIN_SGL <= threshold <= MAX_SGL && spread > 0.0 && 0.0 < low < high
    ensures var half := (high - low) / 2.0; var thr := Step(threshold, half);
      && thr > 0.0
      && (Span(thr, spread, LARGEST) >= half <==> Fits(threshold / 100.0, spread))
      && (FillsHalf(thr, spread, half, k) ==>
          && k >= 1 && (spread >= 1.0 ==> k <= 49) && (Fits(threshold / 100.0, spread) ==> k < LARGEST)
          && AllPositive(Grid(low, high, thr, spread, k)))
  {
    var half := (high - low) / 2.0;
    var thr := Step(threshold, half);
    StepBounds(threshold, half);
    RelativeSize(threshold, spread, half, k);
    if FillsHalf(thr, spread, half, k) {
      GridSizeBounds(thr, spread, half, k);
      GridIsPositive(low, high, thr, spread, k);
    }
  }

  /** The grid in bits per second. */
  ghost function Grid(low: real, high: real, thr: real, spread: real, k: nat): seq<real> {
    seq(2 * k + 1, i requires 0 <= i => Rate((high + low) / 2.0, thr, spread, k, i) * MBPS)
  }

  lemma {:induction false} GridIsPositive(low: real, high: real, thr: real, spread: real, k: nat)
    requires 0.0 < low < high && thr > 0.0 && spread > 0.0
    requires FillsHalf(thr, spread, (high - low) / 2.0, k)
    ensures AllPositive(Grid(low, high, thr, spread, k))
  {
    var g := Grid(low, high, thr, spread, k);
    forall i | 0 <= i < |g| ensures g[i] > 0.0 {
      RatesFillTheRange(low, high, thr, spread, k, i);
    }
  }

  /** The time between chirps that keeps the average probing rate, in Mbps. */
  function Spacing(numInterarrival: nat, jumbo: int, pktsize: int, avg: real): real
    requires avg > 0.0
  {
    (numInterarrival + 1) as real * 8.0 * jumbo as real * pktsize as real / (avg * MBPS)
  }

  /** The bits of a chirp and the first packet of the next. */
  ghost function Bits(numInterarrival: nat, jumbo: int, pktsize: int): real {
    8.0 * jumbo as real * pktsize as real * (numInterarrival + 1) as real
  }

  /** Over the time `t` between chirps no more than the average rate is sent, and exactly that when the
      chirp is short enough. */
  ghost predicate AverageKept(n: nat, jumbo: int, pktsize: int, avg: real, duration: real, t: real) {
    && Bits(n, jumbo, pktsize) <= avg * MBPS * t
    && (avg * MBPS * duration < Bits(n, jumbo, pktsize) ==> Bits(n, jumbo, pktsize) == avg * MBPS * t)
  }

  lemma {:induction false} SpacingKeepsAverage(n: nat, jumbo: int, pktsize: int, avg: real, duration: real, t: real)
    requires avg > 0.0 && duration > 0.0
    requires var s := Spacing(n, jumbo, pktsize, avg); t == if s <= duration then 2.0 * duration else s
    ensures AverageKept(n, jumbo, pktsize, avg, duration, t)
  {
    var s, rate, bits := Spacing(n, jumbo, pktsize, avg), avg * MBPS, Bits(n, jumbo, pktsize);
    SpacingIsQuotient(n, jumbo, pktsize, avg);
    QuotientTimes(bits, rate);
    assert rate * s == bits;
    if s <= duration {
      ProductMonotone(rate, s, duration);
      ProductMonotone(rate, s, t);
    }
  }

  lemma {:induction false} SpacingIsQuotient(n: nat, jumbo: int, pktsize: int, avg: real)
    requires avg > 0.0
    ensures avg * MBPS > 0.0 && Spacing(n, jumbo, pktsize, avg) == Bits(n, jumbo, pktsize) / (avg * MBPS)
  {
    assert (n + 1) as real * 8.0 * jumbo as real * pktsize as real == Bits(n, jumbo, pktsize);
  }

  class Receiver {
    const threshold: real
    const spread: real
    const pktsize: int
    const jumbo: int
    const rates: array<real>
    const iat: array<real>

    var lowRate: real
    var highRate: real
    var avgRate: real
    var lowcount: nat
    var highcount: nat
    var numInterarrival: nat
    var chirpDuration: real
    var interChirpTime: real

    function State(): Range
      reads this
    {
      Range(lowRate, highRate, avgRate, lowcount, highcount)
    }

    /** Fixed for the whole connection. A spread factor below the minimum is warned about but kept. */
    ghost predicate Configured() {
      && MIN_SGL <= threshold <= MAX_SGL
      && spread > 0.0
      && MINPKTSIZE <= pktsize <= MAXMESG
      && 1 <= jumbo <= 20
      && rates != iat && rates.Length == iat.Length == MAXCHIRPSIZE - 1
    }

    ghost function Thr(): real
      reads this
    {
      Step(threshold, (highRate - lowRate) / 2.0)
    }

    ghost function Neighbours(): nat
      reads this
    {
      numInterarrival / 2
    }

    /** The rates, in bits per second, that the current range and chirp size stand for. */
    ghost function ProbedRates(): seq<real>
      reads this
    {
      Grid(lowRate, highRate, Thr(), spread, Neighbours())
    }

    /** The chirp size belongs to the current range. */
    ghost predicate Sized()
      reads this
    {
      && 3 <= numInterarrival < 2 * LARGEST && numInterarrival == 2 * Neighbours() + 1
      && FillsHalf(Thr(), spread, (highRate - lowRate) / 2.0, Neighbours())
      && AllPositive(ProbedRates())
    }

    /** The chirp size and timing belong to the current range. */
    ghost predicate Timed()
      reads this
    {
      && numInterarrival == 2 * Neighbours() + 1
      && FillsHalf(Thr(), spread, (highRate - lowRate) / 2.0, Neighbours())
      && AllPositive(ProbedRates())
      && chirpDuration == Duration(ProbedRates(), pktsize, numInterarrival)
      && interChirpTime > chirpDuration > 0.0
    }

    /** The arrays hold the grid and the times it stands for, and nothing behind them. */
    ghost predicate Loaded()
      requires Configured()
      reads this, rates, iat
    {
      && 3 <= numInterarrival < 2 * LARGEST
      && AllPositive(ProbedRates()) && |ProbedRates()| == numInterarrival
      && rates[..numInterarrival] == ProbedRates()
      && (forall i | numInterarrival <= i < iat.Length :: iat[i] == 0.0)
      && forall i | 0 <= i < numInterarrival :: iat[i] == 8.0 * pktsize as real / ProbedRates()[i]
    }

    ghost predicate Valid()
      reads this, rates, iat
    {
      Configured() && Fits(threshold / 100.0, spread) && RangeOk(State()) && Timed() && Loaded()
    }

    constructor (p: Parameters, spread: real, jumbo: int)
      requires ParametersOk(p) && spread > 0.0 && Fits(p.threshold / 100.0, spread) && 1 <= jumbo <= 20
      ensures Valid() && fresh(rates) && fresh(iat)
      ensures State() == Limited(Range(p.low, p.high, p.avg, 0, 0))
      ensures threshold == p.threshold && pktsize == p.pktsize && this.spread == spread && this.jumbo == jumbo
    {
      threshold, pktsize, this.spread, this.jumbo := p.threshold, p.pktsize, spread, jumbo;
      rates, iat := new real[MAXCHIRPSIZE - 1](i => 0.0), new real[MAXCHIRPSIZE - 1](i => 0.0);
      lowRate, highRate, avgRate, lowcount, highcount := p.low, p.high, p.avg, 0, 0;
      numInterarrival, chirpDuration, interChirpTime := 0, 0.0, 0.0;
      new;
      ComputeParameters();
      UpdateRatesIat();
    }

    /** Limits the range, sizes the chirp and times it. */
    method ComputeParameters()
      requires Configured() && Fits(threshold / 100.0, spread) && RangeOk(Limited(State()))
      modifies this
      ensures State() == Limited(old(State()))
      ensures Timed() && 3 <= numInterarrival < 2 * LARGEST
      ensures spread >= 1.0 ==> numInterarrival <= 99
    {
      if highRate > MAX_HIGH_RATE {
        highRate := MAX_HIGH_RATE;
        if lowRate > MAX_HIGH_RATE / 10.0 {
          lowRate := MAX_HIGH_RATE / 10.0;
        }
      }
      SizeChirp();
      TimeChirp();
    }

    /** When the parameters fit, the grid fills the range and the high rate stays. Otherwise, for every
        range, the chirp is too big and the high rate falls to the low one. */
    method SizeChirp()
      requires Configured() && RangeOk(State())
      modifies `numInterarrival, `highRate
      ensures !Fits(threshold / 100.0, spread) ==> highRate == lowRate && numInterarrival == 2 * LARGEST + 1
      ensures Fits(threshold / 100.0, spread) ==> highRate == old(highRate) && Sized()
      ensures Fits(threshold / 100.0, spread) && spread >= 1.0 ==> numInterarrival <= 99
    {
      var newHighRate := lowRate;
      var thr := Step(threshold, (highRate - lowRate) / 2.0);
      var k, tooBig := GridSize(lowRate, highRate, thr, spread);
      SizedByGrid(threshold, spread, lowRate, highRate, k);
      numInterarrival := 2 * k + 1;
      highRate := if tooBig then newHighRate else highRate;
      assert Neighbours() == k;
    }

    /** Chirps start so far apart that they never overlap. */
    method TimeChirp()
      requires Configured() && RangeOk(State())
      requires Sized()
      modifies `chirpDuration, `interChirpTime
      ensures chirpDuration == Duration(ProbedRates(), pktsize, numInterarrival)
      ensures interChirpTime > chirpDuration > 0.0
      ensures var t := Spacing(numInterarrival, jumbo, pktsize, avgRate);
        interChirpTime == if t <= chirpDuration then 2.0 * chirpDuration else t
      ensures AverageKept(numInterarrival, jumbo, pktsize, avgRate, chirpDuration, interChirpTime)
    {
      var duration := CurrentDuration();
      var spacing := Spacing(numInterarrival, jumbo, pktsize, avgRate);
      ghost var g := ProbedRates();
      chirpDuration, interChirpTime := duration, spacing;
      if spacing <= duration {
        interChirpTime := 2.0 * duration;
      }
      assert ProbedRates() == g;
      SpacingKeepsAverage(numInterarrival, jumbo, pktsize, avgRate, duration, interChirpTime);
    }

    method CurrentDuration() returns (total: real)
      requires Configured() && Sized()
      ensures total > 0.0 && total == Duration(ProbedRates(), pktsize, numInterarrival)
    {
      total := ChirpTime(Step(threshold, (highRate - lowRate) / 2.0), numInterarrival / 2);
    }

    /** Adds up the transmission times over a grid built in scratch arrays. */
    method ChirpTime(thr: real, k: nat) returns (total: real)
      requires 2 * k + 1 <= MAXCHIRPSIZE - 1
      requires AllPositive(Grid(lowRate, highRate, thr, spread, k)) && pktsize > 0
      ensures total > 0.0
      ensures total == Duration(Grid(lowRate, highRate, thr, spread, k), pktsize, 2 * k + 1)
    {
      ghost var g := Grid(lowRate, highRate, thr, spread, k);
      var ratesHere := new real[MAXCHIRPSIZE - 1];
      FillRates(ratesHere, lowRate, highRate, thr, spread, k);
      total := 0.0;
      for count := 0 to 2 * k + 1
        invariant forall i | count <= i <= 2 * k :: ratesHere[i] * MBPS == g[i]
        invariant total == Duration(g, pktsize, count)
      {
        ratesHere[count] := ratesHere[count] * MBPS;
        total := total + 8.0 * pktsize as real / ratesHere[count];
      }
      DurationPositive(g, pktsize, 2 * k + 1);
    }

    /** Loads the grid of the current range and chirp size into the arrays. */
    method UpdateRatesIat()
      requires Configured() && Timed() && 3 <= numInterarrival < 2 * LARGEST
      requires forall i | numInterarrival <= i < iat.Length :: iat[i] == 0.0
      modifies rates, iat
      ensures Loaded()
    {
      var thr := Step(threshold, (highRate - lowRate) / 2.0);
      var k := (numInterarrival - 1) / 2;
      ghost var g := ProbedRates();
      FillRates(rates, lowRate, highRate, thr, spread, k);
      for count := 0 to numInterarrival
        invariant forall i | count <= i < numInterarrival :: rates[i] * MBPS == g[i]
        invariant forall i | 0 <= i < count :: rates[i] == g[i] && iat[i] == 8.0 * pktsize as real / g[i]
        invariant forall i | numInterarrival <= i < iat.Length :: iat[i] == 0.0
      {
        rates[count] := rates[count] * MBPS;
        iat[count] := 8.0 * pktsize as real / rates[count];
      }
    }

    /** Counts an estimate close to either end of the range. */
    method NoteEstimate(mean: real)
      requires Valid()
      modifies `lowcount, `highcount
      ensures Valid() && State() == Noted(old(State()), mean)
    {
      if mean < 1.5 * lowRate {
        lowcount := lowcount + 1;
      } else {
        lowcount := 0;
      }
      if mean > 0.66 * highRate {
        highcount := highcount + 1;
      } else {
        highcount := 0;
      }
    }

    /** Moves the range when the last estimates stayed close to one of its ends. The chirp keeps its
        size. */
    method CheckForNewPars() returns (reset: bool)
      requires Valid()
      modifies this, rates, iat
      ensures Valid() && State() == Updated(old(State()))
      ensures reset <==> Resets(old(State()))
      ensures !reset ==> ProbedRates() == old(ProbedRates())
      ensures numInterarrival == old(numInterarrival)
    {
      UpdatedKeepsRangeOk(State());
      ghost var k := Neighbours();
      RelativeSize(threshold, spread, (highRate - lowRate) / 2.0, k);
      reset := MoveRange();
      if reset {
        FollowLowRate();
        ComputeParameters();
        RelativeSize(threshold, spread, (highRate - lowRate) / 2.0, Neighbours());
        FillsHalfOnce(threshold / 100.0, spread, 1.0, k, Neighbours());
        UpdateRatesIat();
      }
    }

    method MoveRange() returns (reset: bool)
      requires RangeOk(State())
      modifies `lowRate, `highRate, `lowcount, `highcount
      ensures State() == Moved(old(State())) && reset == Resets(old(State()))
      ensures !reset ==> lowRate == old(lowRate) && highRate == old(highRate)
    {
      reset := false;
      if lowcount > 2 {
        if lowRate <= 1.0 {
          highRate := lowRate * 4.0;
          lowRate := lowRate / 4.0;
        } else {
          highRate := lowRate * 7.0;
          lowRate := lowRate / 7.0;
        }
        reset := true;
        lowcount := 0;
      }
      if highcount > 2 && highRate < 0.9 * MAX_HIGH_RATE {
        if highRate > 1.0 {
          lowRate := highRate / 7.0;
          highRate := highRate * 7.0;
        } else {
          lowRate := highRate / 4.0;
          highRate := highRate * 4.0;
        }
        reset := true;
        highcount := 0;
      } else if highcount > 2 {
        highcount := 0;
      }
    }

    method FollowLowRate()
      modifies `avgRate
      ensures State() == AverageFollows(old(State()))
    {
      if avgRate > lowRate / 5.0 {
        avgRate := lowRate / 5.0;
      } else if avgRate < lowRate / 10.0 {
        avgRate := lowRate / 10.0;
      }
      if avgRate > MAX_AVG_RATE {
        avgRate := MAX_AVG_RATE;
      }
      if avgRate < MIN_AVG_RATE {
        avgRate := MIN_AVG_RATE;
      }
    }
  }

  // ----- The sender

  /** The sender's first step is always five percent. */
  function SenderStep(half: real): real {
    0.05 * half
  }

  ghost function GridInMbps(low: real, high: real, thr: real, spread: real, k: nat): seq<real> {
    seq(2 * k + 1, i requires 0 <= i => Rate((high + low) / 2.0, thr, spread, k, i))
  }

  /** The grid in Mbps, as the sender keeps it. */
  ghost function SenderGrid(low: real, high: real, spread: real, k: nat): seq<real> {
    GridInMbps(low, high, SenderStep((high - low) / 2.0), spread, k)
  }

  /** The rates the sender uses for `n` interarrivals: an even number runs one entry past the grid. */
  ghost function SenderRates(low: real, high: real, spread: real, n: nat): (r: seq<real>)
    ensures |r| == n
  {
    if n == 0 then [] else SenderGrid(low, high, spread, (n - 1) / 2) + if n % 2 == 0 then [0.0] else []
  }

  /** Whether the sender accepts a control packet: its checks hold, and the chirp takes a finite time
      that is shorter than the one between chirp starts. Times are in microseconds. */
  ghost predicate SenderAccepts(low: real, high: real, spread: real, pktsize: int, jumbo: int, n: nat,
      interChirpTime: real) {
    var rs := SenderRates(low, high, spread, n);
    && pktsize >= 40 && spread >= 1.05 && interChirpTime >= 0.0 && low >= 0.0 && n >= 1 && 1 <= jumbo <= 20
    && NoneZero(rs) && Duration(rs, pktsize, n) < interChirpTime
  }

  /** The sender takes chirps with an odd number of interarrivals only: an even one leaves a rate of zero. */
  lemma {:induction false} EvenSizesAreRejected(low: real, high: real, spread: real, pktsize: int, jumbo: int, n: nat,
      interChirpTime: real)
    requires n % 2 == 0
    ensures !SenderAccepts(low, high, spread, pktsize, jumbo, n, interChirpTime)
  {
    if n > 0 { assert SenderRates(low, high, spread, n)[n - 1] == 0.0; }
  }

  /** Rebuilds the grid from a control packet and checks it. A gap of `None` stands for the infinite
      time a rate of zero leads to. */
  method SenderParameters(low: real, high: real, spread: real, pktsize: int, jumbo: int, numInterarrival: nat,
      interChirpTime: real)
    returns (parsOk: bool, gap: Option<real>)
    requires numInterarrival <= MAXCHIRPSIZE - 1
    ensures parsOk <==> SenderAccepts(low, high, spread, pktsize, jumbo, numInterarrival, interChirpTime)
    ensures var rs := SenderRates(low, high, spread, numInterarrival);
      gap == if NoneZero(rs) then Some(interChirpTime - Duration(rs, pktsize, numInterarrival)) else None
  {
    parsOk := true;
    if pktsize < 40 || spread < 1.05 || interChirpTime < 0.0 || low < 0.0
      || numInterarrival < 1 || jumbo < 1 || jumbo > 20
    {
      parsOk := false;
    }
    var chirpDuration := SenderDuration(low, high, spread, pktsize, numInterarrival);
    gap := if chirpDuration.None? then None else Some(interChirpTime - chirpDuration.value);
    if gap.None? || gap.value <= 0.0 {
      parsOk := false;
    }
  }

  method SenderDuration(low: real, high: real, spread: real, pktsize: int, numInterarrival: nat)
    returns (chirpDuration: Option<real>)
    requires numInterarrival <= MAXCHIRPSIZE - 1
    ensures var rs := SenderRates(low, high, spread, numInterarrival);
      chirpDuration == if NoneZero(rs) then Some(Duration(rs, pktsize, numInterarrival)) else None
  {
    var thr := SenderStep((high - low) / 2.0);
    var k := if numInterarrival == 0 then 0 else (numInterarrival - 1) / 2;
    ghost var rs := SenderRates(low, high, spread, numInterarrival);
    var ratesSnd := new real[MAXCHIRPSIZE - 1](i => 0.0);
    FillRates(ratesSnd, low, high, thr, spread, k);
    chirpDuration := Some(0.0);
    for count := 0 to numInterarrival
      invariant forall i | 0 <= i < numInterarrival :: ratesSnd[i] == rs[i]
      invariant chirpDuration == if NoneZero(rs[..count]) then Some(Duration(rs[..count], pktsize, count)) else None
    {
      DurationOneMore(rs, pktsize, count);
      if ratesSnd[count] == 0.0 {
        chirpDuration := None;
      } else if chirpDuration.Some? {
        chirpDuration := Some(chirpDuration.value + 8.0 * pktsize as real / ratesSnd[count]);
      }
    }
    assert rs[..numInterarrival] == rs;
  }

  lemma {:induction false} DurationOneMore(rs: seq<real>, pktsize: int, n: nat)
    requires n < |rs|
    ensures NoneZero(rs[..n + 1]) <==> NoneZero(rs[..n]) && rs[n] != 0.0
    ensures NoneZero(rs[..n + 1]) ==>
      Duration(rs[..n + 1], pktsize, n + 1) == Duration(rs[..n], pktsize, n) + 8.0 * pktsize as real / rs[n]
  {
    assert rs[..n + 1] == rs[..n] + [rs[n]];
    if NoneZero(rs[..n + 1]) { SameDuration(rs[..n + 1], rs[..n], pktsize, n); }
  }

  lemma {:induction false} SameDuration(rs: seq<real>, ss: seq<real>, pktsize: int, n: nat)
    requires n <= |rs| && n <= |ss| && NoneZero(rs) && NoneZero(ss) && rs[..n] == ss[..n]
    ensures Duration(rs, pktsize, n) == Duration(ss, pktsize, n)
  {
    if n > 0 {
      assert rs[..n][..n - 1] == rs[..n - 1] && ss[..n][..n - 1] == ss[..n - 1];
      assert rs[..n][n - 1] == ss[..n][n - 1];
      SameDuration(rs, ss, pktsize, n - 1);
    }
  }

  lemma {:induction false} GridsMatch(low: real, high: real, thr: real, thr': real, spread: real, k: nat)
    requires k >= 1
    ensures (forall i | 0 <= i <= 2 * k ::
      GridInMbps(low, high, thr, spread, k)[i] * MBPS == Grid(low, high, thr', spread, k)[i])
      <==> thr == thr'
  {
    var centre, s, g := (high + low) / 2.0, GridInMbps(low, high, thr, spread, k), Grid(low, high, thr', spread, k);
    GridDeterminesStep(centre, thr, thr', spread, k);
    forall i | 0 <= i <= 2 * k
      ensures s[i] * MBPS == g[i] <==> Rate(centre, thr, spread, k, i) == Rate(centre, thr', spread, k, i)
    {
      assert s[i] == Rate(centre, thr, spread, k, i);
      assert g[i] == Rate(centre, thr', spread, k, i) * MBPS;
    }
  }

  lemma {:induction false} FivePercent(threshold: real, half: real)
    requires half > 0.0
    ensures SenderStep(half) == Step(threshold, half) <==> threshold == 5.0
  {
    var t := threshold / 100.0;
    if t < 0.05 { Order(t, 0.05, half); }
    if t > 0.05 { Order(0.05, t, half); }
  }

  /** The sender probes the receiver's rates exactly when the threshold is five percent. */
  lemma {:induction false} SenderGridMatches(low: real, high: real, threshold: real, spread: real, k: nat)
    requires low < high && k >= 1
    ensures (forall i | 0 <= i <= 2 * k ::
        SenderGrid(low, high, spread, k)[i] * MBPS
          == Grid(low, high, Step(threshold, (high - low) / 2.0), spread, k)[i])
      <==> threshold == 5.0
  {
    var half := (high - low) / 2.0;
    var s, g := SenderGrid(low, high, spread, k), Grid(low, high, Step(threshold, half), spread, k);
    assert s == GridInMbps(low, high, SenderStep(half), spread, k);
    GridsMatch(low, high, SenderStep(half), Step(threshold, half), spread, k);
    assert (forall i | 0 <= i <= 2 * k :: s[i] * MBPS == g[i]) <==> SenderStep(half) == Step(threshold, half);
    FivePercent(threshold, half);
  }

  lemma {:induction false} DurationScales(s: seq<real>, g: seq<real>, pktsize: int, n: nat)
    requires AllPositive(s) && AllPositive(g) && n <= |s| == |g|
    requires forall i | 0 <= i < |s| :: s[i] * MBPS == g[i]
    ensures Duration(s, pktsize, n) == MBPS * Duration(g, pktsize, n)
  {
    if n > 0 {
      DurationScales(s, g, pktsize, n - 1);
      QuotientScales(8.0 * pktsize as real, s[n - 1], g[n - 1], MBPS);
    }
  }

  /** At the five percent threshold the sender accepts the parameters it first gets from a receiver if
      and only if the spread factor is at least 1.05: the gap it leaves between chirps is the
      receiver's, in microseconds, and positive. */
  lemma {:induction false} SenderAcceptsReceiver(r: Receiver)
    requires r.Valid() && r.threshold == 5.0
    ensures var n, t := r.numInterarrival, MBPS * r.interChirpTime;
      var rs := SenderRates(r.lowRate, r.highRate, r.spread, n);
      && NoneZero(rs) && t - Duration(rs, r.pktsize, n) == MBPS * (r.interChirpTime - r.chirpDuration) > 0.0
      && (SenderAccepts(r.lowRate, r.highRate, r.spread, r.pktsize, r.jumbo, n, t) <==> r.spread >= 1.05)
  {
    var k := r.numInterarrival / 2;
    SenderGridMatches(r.lowRate, r.highRate, r.threshold, r.spread, k);
    var s, g := SenderGrid(r.lowRate, r.highRate, r.spread, k), r.ProbedRates();
    assert SenderRates(r.lowRate, r.highRate, r.spread, r.numInterarrival) == s;
    forall i | 0 <= i < |s| ensures s[i] * MBPS == g[i] && s[i] > 0.0 {}
    DurationScales(s, g, r.pktsize, r.numInterarrival);
    Distribute(MBPS, r.interChirpTime, -r.chirpDuration);
  }

  // ----- The high rate on the wire

  /** The high rate the sender decodes after the first packet and after a rate update: only the
      first is scaled by 10000 before it is truncated. */
  function FirstHighRate(high: real): real { (high * 10000.0).Floor as real / 10000.0 }
  function UpdatedHighRate(high: real): real { high.Floor as real / 10000.0 }

  /** The first packet carries the high rate to within 0.0001; a rate update never does: for every
      range in use the decoded rate is at most 0.15 Mbps and below the true one. */
  lemma {:induction false} RateUpdateLosesHighRate(r: Range)
    requires RangeOk(r)
    ensures r.high - 0.0001 < FirstHighRate(r.high) <= r.high
    ensures UpdatedHighRate(r.high) <= r.high / 10000.0 < UpdatedHighRate(r.high) + 0.0001
    ensures 0.0 <= UpdatedHighRate(r.high) < r.low
  {}

  // ----- What the sender probes after a rate update

  lemma {:induction false} SpanNegated(thr: real, spread: real, n: nat)
    ensures Span(-thr, spread, n) == -Span(thr, spread, n)
  {
    if n > 0 {
      SpanNegated(thr, spread, n - 1);
      GapNegated(thr, Pow(spread, n - 1));
    }
  }

  lemma {:induction false} GapNegated(thr: real, p: real)
    ensures (-thr) * p == -(thr * p)
  {}

  /** A grid whose ends are swapped is the grid itself, backwards. */
  lemma {:induction false} GridBackwards(low: real, high: real, thr: real, spread: real, k: nat, i: nat)
    requires i <= 2 * k
    ensures GridInMbps(low, high, -thr, spread, k)[i] == GridInMbps(high, low, thr, spread, k)[2 * k - i]
  {
    SpanNegated(thr, spread, if i >= k then i - k else k - i);
  }

  /** After any rate update at the five percent threshold the sender probes only rates below the whole
      range of the receiver: it takes a high rate that lies below the low one. */
  lemma {:induction false} UpdateProbesBelowTheRange(r: Range, spread: real, k: nat, i: nat)
    requires RangeOk(r) && spread > 0.0 && i <= 2 * k
    requires FillsHalf(Step(5.0, (r.high - r.low) / 2.0), spread, (r.high - r.low) / 2.0, k)
    ensures UpdatedHighRate(r.high) < SenderGrid(r.low, UpdatedHighRate(r.high), spread, k)[i] < r.low
  {
    RateUpdateLosesHighRate(r);
    var low, high := UpdatedHighRate(r.high), r.low;
    var half := (high - low) / 2.0;
    var thr := SenderStep(half);
    FivePercent(5.0, half);
    RelativeSize(5.0, spread, (r.high - r.low) / 2.0, k);
    RelativeSize(5.0, spread, half, k);
    StepBounds(5.0, half);
    assert SenderStep((low - high) / 2.0) == -thr;
    GridBackwards(high, low, thr, spread, k, i);
    RatesFillTheRange(low, high, thr, spread, k, 2 * k - i);
  }

  lemma {:induction false} SlowerIsLonger(s: seq<real>, g: seq<real>, pktsize: int, n: nat)
    requires AllPositive(s) && AllPositive(g) && n <= |s| == |g| && pktsize > 0
    requires forall i | 0 <= i < |s| :: s[i] * MBPS < g[i]
    ensures Duration(s, pktsize, n) >= MBPS * Duration(g, pktsize, n)
    ensures n > 0 ==> Duration(s, pktsize, n) > MBPS * Duration(g, pktsize, n)
  {
    if n > 0 {
      SlowerIsLonger(s, g, pktsize, n - 1);
      SlowerQuotient(8.0 * pktsize as real, s[n - 1], g[n - 1], MBPS);
    }
  }

  /** After a rate update at five percent the chirps of the sender take longer than those of the receiver,
      so the gap is smaller than the one the receiver left. */
  lemma {:induction false} UpdateShrinksTheGap(r: Receiver)
    requires r.Valid() && r.threshold == 5.0
    ensures var rs := SenderRates(r.lowRate, UpdatedHighRate(r.highRate), r.spread, r.numInterarrival);
      && NoneZero(rs)
      && MBPS * r.interChirpTime - Duration(rs, r.pktsize, r.numInterarrival)
         < MBPS * (r.interChirpTime - r.chirpDuration)
  {
    var n, k := r.numInterarrival, r.numInterarrival / 2;
    var s, g := SenderGrid(r.lowRate, UpdatedHighRate(r.highRate), r.spread, k), r.ProbedRates();
    RateUpdateLosesHighRate(r.State());
    assert SenderRates(r.lowRate, UpdatedHighRate(r.highRate), r.spread, n) == s;
    StepBounds(5.0, (r.highRate - r.lowRate) / 2.0);
    forall i | 0 <= i < |s| ensures 0.0 < s[i] && s[i] * MBPS < g[i] {
      UpdateProbesBelowTheRange(r.State(), r.spread, k, i);
      RatesFillTheRange(r.lowRate, r.highRate, r.Thr(), r.spread, k, i);
    }
    SlowerIsLonger(s, g, r.pktsize, n);
  }
}
