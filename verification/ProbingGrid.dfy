/** The grid of rates inside a chirp. It is built by reflection: the middle rate is the centre of
    the range and the distances to its neighbours on both sides widen by the spread factor. */
module ProbingGrid {
  import opened Reals

  const MAXCHIRPSIZE := 200

  /** The number of neighbours on each side in the largest chirp. */
  const LARGEST := 99

  function Pow(b: real, n: nat): real {
    if n == 0 then 1.0 else Pow(b, n - 1) * b
  }

  /** The n-th distance between neighbours, counted from the centre. */
  function Gap(thr: real, spread: real, n: nat): real {
    thr * Pow(spread, n)
  }

  /** The distance of the n-th neighbour from the centre. */
  function Span(thr: real, spread: real, n: nat): real {
    if n == 0 then 0.0 else Span(thr, spread, n - 1) + Gap(thr, spread, n - 1)
  }

  lemma {:induction false} GapPositive(thr: real, spread: real, n: nat)
    requires thr > 0.0 && spread > 0.0
    ensures Pow(spread, n) > 0.0 && Gap(thr, spread, n) > 0.0
  {
    if n > 0 {
      GapPositive(thr, spread, n - 1);
      ProductPositive(Pow(spread, n - 1), spread);
    }
    ProductPositive(thr, Pow(spread, n));
  }

  lemma {:induction false} GapsWiden(thr: real, spread: real, m: nat, n: nat)
    requires thr > 0.0 && spread >= 1.0 && m <= n
    ensures thr <= Gap(thr, spread, m) <= Gap(thr, spread, n)
  {
    if n > 0 {
      GapPositive(thr, spread, n - 1);
      ProductGrows(Pow(spread, n - 1), spread);
      ProductMonotone(thr, Pow(spread, n - 1), Pow(spread, n));
      if m < n {
        GapsWiden(thr, spread, m, n - 1);
      } else {
        GapsWiden(thr, spread, n - 1, n - 1);
      }
    }
  }

  lemma {:induction false} SpanIncreases(thr: real, spread: real, m: nat, n: nat)
    requires thr > 0.0 && spread > 0.0 && m < n
    ensures Span(thr, spread, m) < Span(thr, spread, n)
  {
    GapPositive(thr, spread, n - 1);
    if m < n - 1 {
      SpanIncreases(thr, spread, m, n - 1);
    }
  }

  lemma {:induction false} SpanAtLeast(thr: real, spread: real, n: nat)
    requires thr > 0.0 && spread >= 1.0
    ensures Span(thr, spread, n) >= n as real * thr
  {
    if n > 0 {
      SpanAtLeast(thr, spread, n - 1);
      GapsWiden(thr, spread, n - 1, n - 1);
      assert n as real * thr == (n - 1) as real * thr + thr;
    }
  }

  lemma {:induction false} FirstSpan(thr: real, spread: real)
    ensures Span(thr, spread, 1) == thr
  {
    assert Pow(spread, 0) == 1.0;
  }

  // ----- The size of the grid

  /** `k` neighbours on each side fit strictly inside half the range, one more does not. */
  ghost predicate FillsHalf(thr: real, spread: real, half: real, k: nat) {
    Span(thr, spread, k) < half <= Span(thr, spread, k + 1)
  }

  lemma {:induction false} FillsHalfOnce(thr: real, spread: real, half: real, j: nat, k: nat)
    requires thr > 0.0 && spread > 0.0 && FillsHalf(thr, spread, half, j) && FillsHalf(thr, spread, half, k)
    ensures j == k
  {
    if j < k { SpanWeaklyIncreases(thr, spread, j + 1, k); }
    if k < j { SpanWeaklyIncreases(thr, spread, k + 1, j); }
  }

  lemma {:induction false} SpanWeaklyIncreases(thr: real, spread: real, m: nat, n: nat)
    requires thr > 0.0 && spread > 0.0 && m <= n
    ensures Span(thr, spread, m) <= Span(thr, spread, n)
  {
    if m < n { SpanIncreases(thr, spread, m, n); }
  }

  /** A first step of at most a tenth of the half range leaves room for a neighbour on each side; with
      a spread of at least one and a step of at least a fiftieth, at most 49 fit. */
  lemma {:induction false} GridSizeBounds(thr: real, spread: real, half: real, k: nat)
    requires half > 0.0 && thr > 0.0 && spread > 0.0 && thr <= 0.1 * half
    requires FillsHalf(thr, spread, half, k)
    ensures k >= 1
    ensures spread >= 1.0 && 0.02 * half <= thr ==> k <= 49
    ensures Span(thr, spread, LARGEST) >= half ==> k < LARGEST
  {
    FirstSpan(thr, spread);
    if k >= 50 && spread >= 1.0 && 0.02 * half <= thr {
      SpanAtLeast(thr, spread, 50);
      SpanWeaklyIncreases(thr, spread, 50, k);
    }
    if k >= LARGEST { SpanWeaklyIncreases(thr, spread, LARGEST, k); }
  }

  // ----- The size depends on the relative first step and the spread alone

  /** A chirp of the largest size covers the range when the first step is `step` times half of it. */
  predicate Fits(step: real, spread: real) {
    Span(step, spread, LARGEST) >= 1.0
  }

  lemma {:induction false} GapScales(step: real, spread: real, half: real, p: real)
    ensures (step * half) * p == (step * p) * half
  {}

  lemma {:induction false} SpanScales(step: real, spread: real, half: real, n: nat)
    ensures Span(step * half, spread, n) == Span(step, spread, n) * half
  {
    if n > 0 {
      SpanScales(step, spread, half, n - 1);
      GapScales(step, spread, half, Pow(spread, n - 1));
      Distribute(half, Span(step, spread, n - 1), Gap(step, spread, n - 1));
    }
  }

  lemma {:induction false} ComparesAsOne(x: real, half: real)
    requires half > 0.0
    ensures x * half < half <==> x < 1.0
  {
    if x < 1.0 { Order(x, 1.0, half); }
    if x > 1.0 { Order(1.0, x, half); }
  }

  lemma {:induction false} SpanCompares(step: real, spread: real, half: real, thr: real, n: nat)
    requires half > 0.0 && thr == step * half
    ensures Span(thr, spread, n) < half <==> Span(step, spread, n) < 1.0
  {
    SpanScales(step, spread, half, n);
    ComparesAsOne(Span(step, spread, n), half);
  }

  /** Two ranges with the same relative first step and spread have chirps of the same size, and fit or
      do not fit together. */
  lemma {:induction false} SizeIgnoresRange(step: real, spread: real, half: real, thr: real, k: nat)
    requires half > 0.0 && thr == step * half
    ensures FillsHalf(thr, spread, half, k) <==> FillsHalf(step, spread, 1.0, k)
    ensures Span(thr, spread, LARGEST) >= half <==> Fits(step, spread)
  {
    SpanCompares(step, spread, half, thr, k);
    SpanCompares(step, spread, half, thr, k + 1);
    SpanCompares(step, spread, half, thr, LARGEST);
  }

  lemma {:induction false} WideSpreadFits(step: real, spread: real)
    requires step >= 0.02 && spread >= 1.0
    ensures Fits(step, spread)
  {
    SpanAtLeast(step, spread, LARGEST);
  }

  lemma {:induction false} GeometricSum(step: real, spread: real, n: nat)
    ensures Span(step, spread, n) * (1.0 - spread) == step * (1.0 - Pow(spread, n))
  {
    if n > 0 {
      GeometricSum(step, spread, n - 1);
      GeometricStep(step, spread, Pow(spread, n - 1), Span(step, spread, n - 1), Pow(spread, n), Span(step, spread, n));
    }
  }

  lemma {:induction false} GeometricStep(step: real, spread: real, p: real, sum: real, p': real, sum': real)
    requires sum * (1.0 - spread) == step * (1.0 - p)
    requires p' == p * spread && sum' == sum + step * p
    ensures sum' * (1.0 - spread) == step * (1.0 - p')
  {
    var c, more := 1.0 - spread, step * p;
    assert sum' * c == sum * c + more * c by { Distribute(c, sum, more); }
    assert p * c == p - p' by { Distribute(p, 1.0, -spread); }
    assert more * c == step * (p * c);
    assert step * (1.0 - p) + step * (p - p') == step * (1.0 - p') by { Distribute(step, 1.0 - p, p - p'); }
  }

  /** With a spread of nine tenths or less no number of steps covers the range. */
  lemma {:induction false} SmallSpreadNeverFits(step: real, spread: real)
    requires 0.0 < step <= 0.1 && 0.0 < spread <= 0.9
    ensures !Fits(step, spread)
  {
    GeometricSum(step, spread, LARGEST);
    GapPositive(step, spread, LARGEST);
    SmallSum(step, 1.0 - spread, Pow(spread, LARGEST), Span(step, spread, LARGEST));
  }

  lemma {:induction false} SmallSum(step: real, c: real, p: real, sum: real)
    requires 0.0 < step <= 0.1 && c >= 0.1 && p > 0.0 && sum * c == step * (1.0 - p)
    ensures sum < 1.0
  {
    var rest, more := step * (1.0 - p), step * p;
    assert more > 0.0 by { ProductPositive(step, p); }
    assert rest + more == step by { Distribute(step, 1.0 - p, p); }
    if sum >= 1.0 { ProductsOrdered(c, 1.0, sum, c * 1.0, c * sum); }
  }

  /** Walks down from the centre until the low rate is reached, or gives up at the largest chirp.
      It gives up exactly when that many widening distances do not cover half the range. */
  method GridSize(low: real, high: real, thr: real, spread: real) returns (k: nat, tooBig: bool)
    requires low < high && thr > 0.0 && spread > 0.0
    ensures tooBig <==> Span(thr, spread, LARGEST) < (high - low) / 2.0
    ensures if tooBig then k == LARGEST else FillsHalf(thr, spread, (high - low) / 2.0, k)
  {
    ghost var half := (high - low) / 2.0;
    var calcoloInterno := (high + low) / 2.0;
    var steps: nat := 0;
    tooBig := false;
    while calcoloInterno > low
      invariant steps <= LARGEST
      invariant calcoloInterno == low + half - Span(thr, spread, steps)
      invariant steps > 0 ==> Span(thr, spread, steps - 1) < half
      decreases 100 - steps
    {
      calcoloInterno := calcoloInterno - thr * Pow(spread, steps);
      assert calcoloInterno == low + half - Span(thr, spread, steps + 1);
      steps := steps + 1;
      var numInterarrival := 2 * (steps - 1) + 1;
      if numInterarrival >= MAXCHIRPSIZE - 1 {
        tooBig := true;
        break;
      }
    }
    k := steps - 1;
    if !tooBig {
      SpanWeaklyIncreases(thr, spread, steps, LARGEST);
    }
  }

  // ----- The rates

  /** Rate number `i` of a grid with `k` neighbours on each side of the centre. */
  function Rate(centre: real, thr: real, spread: real, k: nat, i: nat): real {
    if i >= k then centre + Span(thr, spread, i - k) else centre - Span(thr, spread, k - i)
  }

  lemma {:induction false} RatesIncrease(centre: real, thr: real, spread: real, k: nat, i: nat, j: nat)
    requires thr > 0.0 && spread > 0.0 && i < j
    ensures Rate(centre, thr, spread, k, i) < Rate(centre, thr, spread, k, j)
  {
    if k <= i {
      SpanIncreases(thr, spread, i - k, j - k);
    } else if j < k {
      SpanIncreases(thr, spread, k - j, k - i);
    } else {
      SpanIncreases(thr, spread, 0, k - i);
      SpanWeaklyIncreases(thr, spread, 0, j - k);
    }
  }

  lemma {:induction false} RatesAreSymmetric(centre: real, thr: real, spread: real, k: nat, i: nat)
    requires i <= 2 * k
    ensures Rate(centre, thr, spread, k, i) + Rate(centre, thr, spread, k, 2 * k - i) == 2.0 * centre
  {}

  /** The whole grid lies strictly inside the range, and no further pair would. */
  lemma {:induction false} RatesFillTheRange(low: real, high: real, thr: real, spread: real, k: nat, i: nat)
    requires low < high && thr > 0.0 && spread > 0.0 && i <= 2 * k
    requires FillsHalf(thr, spread, (high - low) / 2.0, k)
    ensures low < Rate((high + low) / 2.0, thr, spread, k, i) < high
    ensures (high + low) / 2.0 - Span(thr, spread, k + 1) <= low
      && high <= (high + low) / 2.0 + Span(thr, spread, k + 1)
  {
    if i >= k {
      SpanWeaklyIncreases(thr, spread, i - k, k);
      SpanWeaklyIncreases(thr, spread, 0, i - k);
    } else {
      SpanWeaklyIncreases(thr, spread, k - i, k);
      SpanWeaklyIncreases(thr, spread, 0, k - i);
    }
  }

  /** The middle rate is the centre, the first distance from it is `thr`, and every further distance is
      the one before times the spread factor. */
  lemma {:induction false} DistancesWiden(centre: real, thr: real, spread: real, k: nat, i: nat)
    requires k <= i
    ensures Rate(centre, thr, spread, k, k) == centre && Rate(centre, thr, spread, k, k + 1) == centre + thr
    ensures Rate(centre, thr, spread, k, i + 2) - Rate(centre, thr, spread, k, i + 1)
      == (Rate(centre, thr, spread, k, i + 1) - Rate(centre, thr, spread, k, i)) * spread
  {
    FirstSpan(thr, spread);
    var n, p := i - k, Pow(spread, i - k);
    assert Span(thr, spread, n + 2) == Span(thr, spread, n + 1) + Gap(thr, spread, n + 1);
    assert thr * (p * spread) == (thr * p) * spread;
  }

  /** Away from the centre neighbouring rates lie further and further apart. */
  lemma {:induction false} RatesSpreadOut(centre: real, thr: real, spread: real, k: nat, i: nat, j: nat)
    requires thr > 0.0 && spread >= 1.0 && k <= i <= j
    ensures Rate(centre, thr, spread, k, i + 1) - Rate(centre, thr, spread, k, i)
         <= Rate(centre, thr, spread, k, j + 1) - Rate(centre, thr, spread, k, j)
  {
    GapsWiden(thr, spread, i - k, j - k);
  }

  /** Fills the first 2k + 1 places of `a` from the centre outwards. */
  method FillRates(a: array<real>, low: real, high: real, thr: real, spread: real, k: nat)
    requires 2 * k + 1 <= a.Length
    modifies a
    ensures forall i | 0 <= i <= 2 * k :: a[i] == Rate((high + low) / 2.0, thr, spread, k, i)
    ensures forall i | 2 * k < i < a.Length :: a[i] == old(a[i])
  {
    var centre := (high + low) / 2.0;
    a[k] := centre;
    for count := 0 to k
      invariant forall i | k - count <= i <= k + count :: a[i] == Rate(centre, thr, spread, k, i)
      invariant forall i | 2 * k < i < a.Length :: a[i] == old(a[i])
    {
      assert a[k + count] == Rate(centre, thr, spread, k, k + count);
      assert a[k - count] == Rate(centre, thr, spread, k, k - count);
      a[k + count + 1] := a[k + count] + thr * Pow(spread, count);
      a[k - count - 1] := a[k - count] - thr * Pow(spread, count);
      assert a[k + count + 1] == centre + Span(thr, spread, count + 1);
      assert a[k - count - 1] == centre - Span(thr, spread, count + 1);
    }
  }

  /** Two first steps give the same grid only when they are equal. */
  lemma {:induction false} GridDeterminesStep(centre: real, thr: real, thr': real, spread: real, k: nat)
    requires k >= 1
    ensures (forall i | 0 <= i <= 2 * k :: Rate(centre, thr, spread, k, i) == Rate(centre, thr', spread, k, i))
      <==> thr == thr'
  {
    FirstSpan(thr, spread);
    FirstSpan(thr', spread);
    assert Rate(centre, thr, spread, k, k + 1) == centre + thr;
    assert Rate(centre, thr', spread, k, k + 1) == centre + thr';
  }
}
