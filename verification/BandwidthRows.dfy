/** The bandwidth columns of a leader's link table, and what completion infers for a pair: the smaller of
    the best bandwidth measured out of one end and the best measured into the other, and the larger
    of the average variances. Only rows with a time of measurement count as measured. */
module BandwidthRows {
  import opened LinkCompletion
  import opened Wrappers

  datatype Bandwidth = Bandwidth(meanB: Option<real>, varianceB: Option<real>, lasttimeB: Option<int>)

  type Bandwidths = map<(Id, Id), Bandwidth>

  /** A row whose time is neither null nor the epoch. */
  predicate Timed(b: Bandwidth) {
    b.lasttimeB.Some? && b.lasttimeB.value != 0
  }

  ghost function Measured(bw: Bandwidths): Bandwidths {
    map k | k in bw && Timed(bw[k]) :: bw[k]
  }

  // ----- Aggregates; nulls do not count

  predicate IsLargest(values: set<real>, x: real) {
    x in values && forall y | y in values :: y <= x
  }

  lemma {:induction false} FindLargest(values: set<real>) returns (x: real)
    requires values != {}
    ensures IsLargest(values, x)
  {
    assert (forall y :: y !in values) ==> values == {};
    x :| x in values;
    var rest := values - {x};
    assert values == {x} + rest;
    if rest != {} {
      var y := FindLargest(rest);
      if x < y { x := y; }
    }
  }

  lemma {:induction false} LargestExists(values: set<real>)
    requires values != {}
    ensures exists x :: x in values && IsLargest(values, x)
  {
    var x := FindLargest(values);
  }

  function Largest(values: set<real>): (x: real)
    requires values != {}
    ensures IsLargest(values, x)
  {
    LargestExists(values);
    var x :| x in values && IsLargest(values, x);
    x
  }

  predicate IsLeast(keys: set<Id>, k: Id) {
    k in keys && forall j | j in keys :: k <= j
  }

  lemma {:induction false} FindLeast(keys: set<Id>) returns (k: Id)
    requires keys != {}
    ensures IsLeast(keys, k)
  {
    assert (forall j :: j !in keys) ==> keys == {};
    k :| k in keys;
    var rest := keys - {k};
    assert keys == {k} + rest;
    if rest != {} {
      var j := FindLeast(rest);
      if j < k { k := j; }
    }
  }

  lemma {:induction false} LeastExists(keys: set<Id>)
    requires keys != {}
    ensures exists k :: k in keys && IsLeast(keys, k)
  {
    var k := FindLeast(keys);
  }

  function Total(values: map<Id, real>): real
    decreases |values|
  {
    if values.Keys == {} then 0.0
    else
      LeastExists(values.Keys);
      var k :| k in values.Keys && IsLeast(values.Keys, k);
      Smaller(values, k);
      values[k] + Total(values - {k})
  }

  lemma {:induction false} Smaller(values: map<Id, real>, k: Id)
    requires k in values
    ensures (values - {k}).Keys == values.Keys - {k} && |values - {k}| == |values| - 1
  {
    assert (values - {k}).Keys == values.Keys - {k};
    assert |values.Keys| == |values.Keys - {k}| + 1;
    assert |values| == |values.Keys| && |values - {k}| == |(values - {k}).Keys|;
  }

  /** The total does not depend on the order of the rows. */
  lemma {:induction false} TotalInAnyOrder(values: map<Id, real>, i: Id)
    requires i in values
    ensures Total(values) == values[i] + Total(values - {i})
    decreases |values|
  {
    LeastExists(values.Keys);
    var k :| k in values.Keys && IsLeast(values.Keys, k);
    assert Total(values) == values[k] + Total(values - {k});
    if k != i {
      Smaller(values, k);
      Smaller(values, i);
      TotalInAnyOrder(values - {k}, i);
      TotalInAnyOrder(values - {i}, k);
      assert values - {k} - {i} == values - {i} - {k};
    }
  }

  function Best(rows: map<Id, Bandwidth>): Option<real> {
    var known := set k | k in rows && rows[k].meanB.Some? :: rows[k].meanB.value;
    if known == {} then None else Some(Largest(known))
  }

  function Average(rows: map<Id, Bandwidth>): Option<real> {
    var known := map k | k in rows && rows[k].varianceB.Some? :: rows[k].varianceB.value;
    if known.Keys == {} then None else Some(Total(known) / |known.Keys| as real)
  }

  function MinKnown(a: Option<real>, b: Option<real>): Option<real> {
    if a.None? then b else if b.None? || a.value <= b.value then a else b
  }

  function MaxKnown(a: Option<real>, b: Option<real>): Option<real> {
    if a.None? then b else if b.None? || a.value >= b.value then a else b
  }

  // ----- What completion puts into the bandwidth columns

  function OutOf(bw: Bandwidths, a: Id): map<Id, Bandwidth> {
    map k | k in bw && k.0 == a && Timed(bw[k]) :: k.1 := bw[k]
  }

  function Into(bw: Bandwidths, b: Id): map<Id, Bandwidth> {
    map k | k in bw && k.1 == b && Timed(bw[k]) :: k.0 := bw[k]
  }

  function InferredBandwidth(bw: Bandwidths, a: Id, b: Id): Bandwidth {
    Bandwidth(
      MinKnown(Best(OutOf(bw, a)), Best(Into(bw, b))),
      MaxKnown(Average(OutOf(bw, a)), Average(Into(bw, b))),
      None)
  }

  /** What is filled in depends on the measured rows only. */
  lemma {:induction false} InferredFromMeasured(x: Bandwidths, y: Bandwidths, a: Id, b: Id)
    requires Measured(x) == Measured(y)
    ensures InferredBandwidth(x, a, b) == InferredBandwidth(y, a, b)
  {
    OutOfMeasured(x, a);
    OutOfMeasured(y, a);
    IntoMeasured(x, b);
    IntoMeasured(y, b);
  }

  lemma {:induction false} OutOfMeasured(bw: Bandwidths, a: Id)
    ensures OutOf(bw, a) == OutOf(Measured(bw), a)
  {
    var m := Measured(bw);
    forall b ensures b in OutOf(bw, a) <==> b in OutOf(m, a) {
      assert (a, b) in bw && Timed(bw[(a, b)]) <==> (a, b) in m && Timed(m[(a, b)]);
    }
  }

  lemma {:induction false} IntoMeasured(bw: Bandwidths, b: Id)
    ensures Into(bw, b) == Into(Measured(bw), b)
  {
    var m := Measured(bw);
    forall a ensures a in Into(bw, b) <==> a in Into(m, b) {
      assert (a, b) in bw && Timed(bw[(a, b)]) <==> (a, b) in m && Timed(m[(a, b)]);
    }
  }

  // ----- What the inferred values are

  /** A bandwidth measured out of `a`. */
  ghost predicate MeasuredOut(bw: Bandwidths, a: Id, x: real) {
    exists k :: (a, k) in bw && Timed(bw[(a, k)]) && bw[(a, k)].meanB == Some(x)
  }

  ghost predicate MeasuredInto(bw: Bandwidths, b: Id, x: real) {
    exists k :: (k, b) in bw && Timed(bw[(k, b)]) && bw[(k, b)].meanB == Some(x)
  }

  ghost predicate BestOut(bw: Bandwidths, a: Id, x: real) {
    MeasuredOut(bw, a, x) && forall y | MeasuredOut(bw, a, y) :: y <= x
  }

  ghost predicate BestInto(bw: Bandwidths, b: Id, x: real) {
    MeasuredInto(bw, b, x) && forall y | MeasuredInto(bw, b, y) :: y <= x
  }

  lemma {:induction false} BestIsSome(rows: map<Id, Bandwidth>, known: set<real>, x: real)
    requires known == set k | k in rows && rows[k].meanB.Some? :: rows[k].meanB.value
    ensures Best(rows) == Some(x) <==> IsLargest(known, x)
  {}

  lemma {:induction false} BestOutIsBest(bw: Bandwidths, a: Id, x: real)
    ensures BestOut(bw, a, x) <==> Best(OutOf(bw, a)) == Some(x)
  {
    var rows := OutOf(bw, a);
    var known := set k | k in rows && rows[k].meanB.Some? :: rows[k].meanB.value;
    forall y ensures MeasuredOut(bw, a, y) <==> y in known {
      if MeasuredOut(bw, a, y) {
        var k :| (a, k) in bw && Timed(bw[(a, k)]) && bw[(a, k)].meanB == Some(y);
        assert k in rows && rows[k].meanB.value == y;
      }
    }
    BestIsSome(rows, known, x);
  }

  lemma {:induction false} BestIntoIsBest(bw: Bandwidths, b: Id, x: real)
    ensures BestInto(bw, b, x) <==> Best(Into(bw, b)) == Some(x)
  {
    var rows := Into(bw, b);
    var known := set k | k in rows && rows[k].meanB.Some? :: rows[k].meanB.value;
    forall y ensures MeasuredInto(bw, b, y) <==> y in known {
      if MeasuredInto(bw, b, y) {
        var k :| (k, b) in bw && Timed(bw[(k, b)]) && bw[(k, b)].meanB == Some(y);
        assert k in rows && rows[k].meanB.value == y;
      }
    }
    BestIsSome(rows, known, x);
  }

  lemma {:induction false} SmallerOfKnown(p: Option<real>, q: Option<real>, isP: real -> bool, isQ: real -> bool,
      x: real)
    requires (forall y :: isP(y) <==> p == Some(y)) && (forall y :: isQ(y) <==> q == Some(y))
    ensures MinKnown(p, q) == Some(x) <==>
      (isP(x) && forall y | isQ(y) :: x <= y) || (isQ(x) && forall y | isP(y) :: x <= y)
  {
    if p.Some? {
      var y := p.value;
      assert p == Some(y) && isP(y);
    }
    if q.Some? {
      var y := q.value;
      assert q == Some(y) && isQ(y);
    }
  }

  lemma {:induction false} LargerOfKnown(p: Option<real>, q: Option<real>, isP: real -> bool, isQ: real -> bool,
      x: real)
    requires (forall y :: isP(y) <==> p == Some(y)) && (forall y :: isQ(y) <==> q == Some(y))
    ensures MaxKnown(p, q) == Some(x) <==>
      (isP(x) && forall y | isQ(y) :: x >= y) || (isQ(x) && forall y | isP(y) :: x >= y)
  {
    if p.Some? {
      var y := p.value;
      assert p == Some(y) && isP(y);
    }
    if q.Some? {
      var y := q.value;
      assert q == Some(y) && isQ(y);
    }
  }

  /** The bandwidth filled in is the best one at the narrower end; an end without measurements does not
      count. */
  lemma {:induction false} NarrowerEndDecides(bw: Bandwidths, a: Id, b: Id, x: real)
    ensures InferredBandwidth(bw, a, b).meanB == Some(x) <==>
      (BestOut(bw, a, x) && forall y | BestInto(bw, b, y) :: x <= y) ||
      (BestInto(bw, b, x) && forall y | BestOut(bw, a, y) :: x <= y)
  {
    var isOut, isInto := y => BestOut(bw, a, y), y => BestInto(bw, b, y);
    forall y ensures isOut(y) <==> Best(OutOf(bw, a)) == Some(y) { BestOutIsBest(bw, a, y); }
    forall y ensures isInto(y) <==> Best(Into(bw, b)) == Some(y) { BestIntoIsBest(bw, b, y); }
    SmallerOfKnown(Best(OutOf(bw, a)), Best(Into(bw, b)), isOut, isInto, x);
  }

  /** `values` are the known variances of the rows measured out of `a`, by their other end. */
  ghost predicate VariancesOut(bw: Bandwidths, a: Id, values: map<Id, real>) {
    && (forall k :: k in values <==> (a, k) in bw && Timed(bw[(a, k)]) && bw[(a, k)].varianceB.Some?)
    && forall k | k in values :: bw[(a, k)].varianceB.value == values[k]
  }

  ghost predicate VariancesInto(bw: Bandwidths, b: Id, values: map<Id, real>) {
    && (forall k :: k in values <==> (k, b) in bw && Timed(bw[(k, b)]) && bw[(k, b)].varianceB.Some?)
    && forall k | k in values :: bw[(k, b)].varianceB.value == values[k]
  }

  ghost predicate IsMean(values: map<Id, real>, x: real) {
    values != map[] && x == Total(values) / |values| as real
  }

  lemma {:induction false} AverageIsMean(rows: map<Id, Bandwidth>, values: map<Id, real>, x: real)
    requires forall k :: k in values <==> k in rows && rows[k].varianceB.Some?
    requires forall k | k in values :: rows[k].varianceB.value == values[k]
    ensures Average(rows) == Some(x) <==> IsMean(values, x)
  {
    var known := map k | k in rows && rows[k].varianceB.Some? :: rows[k].varianceB.value;
    forall k ensures (k in known <==> k in values) && (k in known ==> known[k] == values[k]) {}
    assert known == values;
    if values != map[] {
      assert |values.Keys| == |values| > 0;
    }
  }

  /** The variance filled in is the larger of the means at the two ends; an end without known variances
      does not count. */
  lemma {:induction false} LargerMeanDecides(bw: Bandwidths, a: Id, b: Id, out: map<Id, real>, into: map<Id, real>,
      x: real)
    requires VariancesOut(bw, a, out) && VariancesInto(bw, b, into)
    ensures InferredBandwidth(bw, a, b).varianceB == Some(x) <==>
      (IsMean(out, x) && forall y | IsMean(into, y) :: x >= y) ||
      (IsMean(into, x) && forall y | IsMean(out, y) :: x >= y)
  {
    var isOut, isInto := y => IsMean(out, y), y => IsMean(into, y);
    forall y ensures isOut(y) <==> Average(OutOf(bw, a)) == Some(y) { AverageIsMean(OutOf(bw, a), out, y); }
    forall y ensures isInto(y) <==> Average(Into(bw, b)) == Some(y) { AverageIsMean(Into(bw, b), into, y); }
    LargerOfKnown(Average(OutOf(bw, a)), Average(Into(bw, b)), isOut, isInto, x);
  }
}
