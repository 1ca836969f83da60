/** The passes of completion over a bandwidth table, for any way of inferring what a pair gets that
    looks at the measured rows only and never writes a measurement. */
module FillPasses {
  import opened BandwidthRows
  import opened LinkCompletion

  /** What is written for each pair, and how that is inferred from a table. */
  type Filler = (Id, Id) -> Bandwidth
  type Inference = Bandwidths -> Filler

  ghost predicate SameFill(f: Filler, f': Filler) {
    forall a, b :: f(a, b) == f'(a, b)
  }

  ghost predicate WritesNoTime(f: Filler) {
    forall a, b :: !Timed(f(a, b))
  }

  ghost predicate Honest(infer: Inference) {
    && (forall x :: WritesNoTime(infer(x)))
    && (forall x, y | Measured(x) == Measured(y) :: SameFill(infer(x), infer(y)))
  }

  /** One pass, `fill` saying what it writes for a pair. */
  ghost function PassWith(g: Groups, bw: Bandwidths, pass: Pass, fill: Filler): Bandwidths {
    bw + map a, b | a in g.monitoredBy && b in g.monitoredBy && Apart(g, a, b) && Handles(g, pass, a, b) ::
      (a, b) := fill(a, b)
  }

  ghost function PassesBy(g: Groups, bw: Bandwidths, passes: seq<Pass>, infer: Inference): Bandwidths {
    if passes == [] then bw
    else
      var k := |passes| - 1;
      var before := PassesBy(g, bw, passes[..k], infer);
      PassWith(g, before, passes[k], infer(before))
  }

  lemma {:induction false} PassAt(g: Groups, bw: Bandwidths, pass: Pass, fill: Filler, a: Id, b: Id)
    ensures var after := PassWith(g, bw, pass, fill);
      if Apart(g, a, b) && Handles(g, pass, a, b) then (a, b) in after && after[(a, b)] == fill(a, b)
      else ((a, b) in after <==> (a, b) in bw) && ((a, b) in bw ==> after[(a, b)] == bw[(a, b)])
  {}

  lemma {:induction false} PassesJoin(g: Groups, bw: Bandwidths, p: seq<Pass>, q: seq<Pass>, infer: Inference)
    ensures PassesBy(g, bw, p + q, infer) == PassesBy(g, PassesBy(g, bw, p, infer), q, infer)
  {
    if q == [] {
      assert p + q == p;
    } else {
      assert (p + q)[..|p + q| - 1] == p + q[..|q| - 1];
      PassesJoin(g, bw, p, q[..|q| - 1], infer);
    }
  }

  lemma {:induction false} FirstOfPasses(g: Groups, bw: Bandwidths, passes: seq<Pass>, infer: Inference)
    requires passes != []
    ensures PassesBy(g, bw, passes, infer) == PassesBy(g, PassWith(g, bw, passes[0], infer(bw)), passes[1..], infer)
  {
    assert passes == [passes[0]] + passes[1..];
    PassesJoin(g, bw, [passes[0]], passes[1..], infer);
    assert [passes[0]][..0] == [];
    assert PassesBy(g, bw, [passes[0]], infer) == PassWith(g, bw, passes[0], infer(bw));
  }

  // ----- Which measurements passes leave

  /** The measurements of all pairs but those some passes handle. */
  ghost function Remaining(g: Groups, bw: Bandwidths, done: set<Pass>): Bandwidths {
    map k | k in bw && Timed(bw[k]) && !(Apart(g, k.0, k.1) && HandledBy(g, done, k.0, k.1)) :: bw[k]
  }

  lemma {:induction false} PassForgets(g: Groups, bw: Bandwidths, pass: Pass, fill: Filler, start: Bandwidths,
      done: set<Pass>)
    requires WritesNoTime(fill) && Measured(bw) == Remaining(g, start, done)
    ensures Measured(PassWith(g, bw, pass, fill)) == Remaining(g, start, done + {pass})
  {
    var after := PassWith(g, bw, pass, fill);
    forall k: (Id, Id)
      ensures k in Measured(after) <==> k in Remaining(g, start, done + {pass})
      ensures k in Measured(after) ==> after[k] == start[k]
    {
      assert k == (k.0, k.1);
      PassAt(g, bw, pass, fill, k.0, k.1);
      assert HandledBy(g, done + {pass}, k.0, k.1) <==> HandledBy(g, done, k.0, k.1) || Handles(g, pass, k.0, k.1);
      assert k in Measured(bw) <==> k in Remaining(g, start, done);
      assert k in Measured(bw) ==> Measured(bw)[k] == Remaining(g, start, done)[k];
    }
  }

  /** Passes forget the measurements of exactly the pairs they fill in. */
  lemma {:induction false} PassesForget(g: Groups, bw: Bandwidths, passes: seq<Pass>, infer: Inference)
    requires Honest(infer)
    ensures Measured(PassesBy(g, bw, passes, infer)) == Remaining(g, bw, Passes(passes))
  {
    if passes == [] {
      assert Remaining(g, bw, {}) == Measured(bw);
    } else {
      var k := |passes| - 1;
      var before := PassesBy(g, bw, passes[..k], infer);
      PassesForget(g, bw, passes[..k], infer);
      PassForgets(g, before, passes[k], infer(before), bw, Passes(passes[..k]));
      assert passes == passes[..k] + [passes[k]];
      assert Passes(passes) == Passes(passes[..k]) + {passes[k]};
    }
  }

  // ----- What every pair ends with

  /** The pass that fills in a pair. */
  ghost function PassOf(g: Groups, a: Id, b: Id): Pass {
    if a in g.leaders then First else if b in g.leaders then Second else Third
  }

  /** The passes that run before the last run of `p`. */
  ghost function Before(passes: seq<Pass>, p: Pass): set<Pass> {
    if passes == [] then {}
    else
      var k := |passes| - 1;
      if passes[k] == p then Passes(passes[..k]) else Before(passes[..k], p)
  }

  /** What a pair is filled in with: what is inferred from the measurements that are left when its pass
      last begins. */
  ghost function FillAt(g: Groups, bw: Bandwidths, passes: seq<Pass>, infer: Inference, a: Id, b: Id): Bandwidth {
    infer(Remaining(g, bw, Before(passes, PassOf(g, a, b))))(a, b)
  }

  ghost function FillBy(g: Groups, bw: Bandwidths, passes: seq<Pass>, infer: Inference): Filler {
    (a, b) => FillAt(g, bw, passes, infer, a, b)
  }

  lemma {:induction false} FromRemaining(g: Groups, bw: Bandwidths, after: Bandwidths, done: set<Pass>,
      infer: Inference)
    requires Honest(infer) && Measured(after) == Remaining(g, bw, done)
    ensures SameFill(infer(after), infer(Remaining(g, bw, done)))
  {
    var left := Remaining(g, bw, done);
    assert Measured(left) == left;
  }

  /** What the last pass that fills a pair in writes. */
  ghost function LastFill(g: Groups, bw: Bandwidths, passes: seq<Pass>, infer: Inference, a: Id, b: Id): Bandwidth {
    if passes == [] then infer(bw)(a, b)
    else
      var k := |passes| - 1;
      if passes[k] == PassOf(g, a, b) then infer(PassesBy(g, bw, passes[..k], infer))(a, b)
      else LastFill(g, bw, passes[..k], infer, a, b)
  }

  /** A row that is `v` if its pass has run, and as it was in `bw` otherwise. */
  ghost predicate Stands(g: Groups, bw: Bandwidths, after: Bandwidths, a: Id, b: Id, ran: bool, v: Bandwidth) {
    if Inferred(g, a, b) && ran then (a, b) in after && after[(a, b)] == v
    else ((a, b) in after <==> (a, b) in bw) && ((a, b) in bw ==> after[(a, b)] == bw[(a, b)])
  }

  lemma {:induction false} OneMoreStands(g: Groups, bw: Bandwidths, before: Bandwidths, pass: Pass, fill: Filler,
      a: Id, b: Id, ran: bool, v: Bandwidth)
    requires Stands(g, bw, before, a, b, ran, v)
    ensures Stands(g, bw, PassWith(g, before, pass, fill), a, b, ran || pass == PassOf(g, a, b),
      if pass == PassOf(g, a, b) then fill(a, b) else v)
  {
    PassAt(g, before, pass, fill, a, b);
  }

  lemma {:induction false} LastFillStands(g: Groups, bw: Bandwidths, passes: seq<Pass>, infer: Inference, a: Id, b: Id)
    ensures Stands(g, bw, PassesBy(g, bw, passes, infer), a, b, PassOf(g, a, b) in passes,
      LastFill(g, bw, passes, infer, a, b))
    decreases |passes|
  {
    if passes != [] {
      var k := |passes| - 1;
      var before, v := PassesBy(g, bw, passes[..k], infer), LastFill(g, bw, passes[..k], infer, a, b);
      LastFillStands(g, bw, passes[..k], infer, a, b);
      OneMoreStands(g, bw, before, passes[k], infer(before), a, b, PassOf(g, a, b) in passes[..k], v);
      assert passes == passes[..k] + [passes[k]];
    }
  }

  lemma {:induction false} LastFillIsFillAt(g: Groups, bw: Bandwidths, passes: seq<Pass>, infer: Inference, a: Id,
      b: Id)
    requires Honest(infer) && PassOf(g, a, b) in passes
    ensures LastFill(g, bw, passes, infer, a, b) == FillAt(g, bw, passes, infer, a, b)
  {
    var k := |passes| - 1;
    if passes[k] == PassOf(g, a, b) {
      PassesForget(g, bw, passes[..k], infer);
      FromRemaining(g, bw, PassesBy(g, bw, passes[..k], infer), Passes(passes[..k]), infer);
    } else {
      assert passes == passes[..k] + [passes[k]];
      LastFillIsFillAt(g, bw, passes[..k], infer, a, b);
    }
  }

  /** A pair whose pass runs is filled in from the measurements left when that pass last begins; every
      other row stays. */
  lemma {:induction false} PassesAt(g: Groups, bw: Bandwidths, passes: seq<Pass>, infer: Inference, a: Id, b: Id)
    requires Honest(infer)
    ensures var after := PassesBy(g, bw, passes, infer);
      if Inferred(g, a, b) && PassOf(g, a, b) in passes then
        (a, b) in after && after[(a, b)] == FillAt(g, bw, passes, infer, a, b)
      else ((a, b) in after <==> (a, b) in bw) && ((a, b) in bw ==> after[(a, b)] == bw[(a, b)])
  {
    LastFillStands(g, bw, passes, infer, a, b);
    if PassOf(g, a, b) in passes { LastFillIsFillAt(g, bw, passes, infer, a, b); }
  }

  lemma {:induction false} CompletionAt(g: Groups, bw: Bandwidths, passes: seq<Pass>, infer: Inference, a: Id, b: Id)
    requires Honest(infer) && Covers(passes)
    ensures Stands(g, bw, PassesBy(g, bw, passes, infer), a, b, true, FillAt(g, bw, passes, infer, a, b))
  {
    PassesAt(g, bw, passes, infer, a, b);
  }

  // ----- When two orders of the passes give the same table

  /** The two say the same about every pair to be filled in. */
  ghost predicate Agree(g: Groups, f: Filler, f': Filler) {
    forall a, b | Inferred(g, a, b) :: f(a, b) == f'(a, b)
  }

  /** The table holds what `f` says for the pairs to be filled in. */
  ghost predicate Holds(g: Groups, bw: Bandwidths, f: Filler) {
    forall a, b | Inferred(g, a, b) :: (a, b) in bw && bw[(a, b)] == f(a, b)
  }

  ghost predicate SameElsewhere(g: Groups, x: Bandwidths, y: Bandwidths) {
    forall a, b | !Inferred(g, a, b) :: ((a, b) in x <==> (a, b) in y) && ((a, b) in x ==> x[(a, b)] == y[(a, b)])
  }

  lemma {:induction false} EqualIfAgreeing(g: Groups, x: Bandwidths, y: Bandwidths, f: Filler, f': Filler)
    requires Holds(g, x, f) && Holds(g, y, f') && SameElsewhere(g, x, y)
    ensures x == y <==> Agree(g, f, f')
  {
    if Agree(g, f, f') {
      forall k: (Id, Id) ensures (k in x <==> k in y) && (k in x ==> x[k] == y[k]) {
        assert k == (k.0, k.1);
        assert Inferred(g, k.0, k.1) ==> f(k.0, k.1) == f'(k.0, k.1);
      }
    }
  }

  lemma {:induction false} CompletionHolds(g: Groups, bw: Bandwidths, passes: seq<Pass>, infer: Inference)
    requires Honest(infer) && Covers(passes)
    ensures Holds(g, PassesBy(g, bw, passes, infer), FillBy(g, bw, passes, infer))
    ensures SameElsewhere(g, PassesBy(g, bw, passes, infer), bw)
  {
    var after, f := PassesBy(g, bw, passes, infer), FillBy(g, bw, passes, infer);
    forall a, b | Inferred(g, a, b) ensures (a, b) in after && after[(a, b)] == f(a, b) {
      PassesAt(g, bw, passes, infer, a, b);
    }
    forall a, b | !Inferred(g, a, b)
      ensures ((a, b) in after <==> (a, b) in bw) && ((a, b) in after ==> after[(a, b)] == bw[(a, b)])
    {
      PassesAt(g, bw, passes, infer, a, b);
    }
  }

  lemma {:induction false} OrdersAgree(g: Groups, bw: Bandwidths, p: seq<Pass>, q: seq<Pass>, infer: Inference)
    requires Honest(infer) && Covers(p) && Covers(q)
    ensures PassesBy(g, bw, p, infer) == PassesBy(g, bw, q, infer)
      <==> Agree(g, FillBy(g, bw, p, infer), FillBy(g, bw, q, infer))
  {
    CompletionHolds(g, bw, p, infer);
    CompletionHolds(g, bw, q, infer);
    EqualIfAgreeing(g, PassesBy(g, bw, p, infer), PassesBy(g, bw, q, infer),
      FillBy(g, bw, p, infer), FillBy(g, bw, q, infer));
  }

  // ----- When no measurement belongs to a pair to be filled in

  /** Every measurement was made inside a group or between two leaders. */
  ghost predicate InGroups(g: Groups, bw: Bandwidths) {
    forall a, b | (a, b) in bw && Inferred(g, a, b) :: !Timed(bw[(a, b)])
  }

  lemma {:induction false} MeasuredAndRemaining(g: Groups, bw: Bandwidths, done: set<Pass>)
    ensures done == {} || InGroups(g, bw) ==> Remaining(g, bw, done) == Measured(bw)
  {
    if done == {} || InGroups(g, bw) {
      forall k: (Id, Id) | k in bw && Timed(bw[k]) ensures !(Apart(g, k.0, k.1) && HandledBy(g, done, k.0, k.1)) {
        assert k == (k.0, k.1);
      }
    }
  }

  lemma {:induction false} AllHandled(g: Groups, passes: seq<Pass>, a: Id, b: Id)
    requires Covers(passes)
    ensures HandledBy(g, Passes(passes), a, b) <==> !(a in g.leaders && b in g.leaders)
  {
    var p := PassOf(g, a, b);
    assert p in Passes(passes);
    assert Handles(g, p, a, b) <==> !(a in g.leaders && b in g.leaders);
  }

  /** All measurements survive exactly when none belongs to a pair to be filled in. */
  lemma {:induction false} AllSurvive(g: Groups, bw: Bandwidths, passes: seq<Pass>, infer: Inference)
    requires Honest(infer) && Covers(passes)
    ensures Measured(PassesBy(g, bw, passes, infer)) == Measured(bw) <==> InGroups(g, bw)
  {
    PassesForget(g, bw, passes, infer);
    MeasuredAndRemaining(g, bw, Passes(passes));
    if !InGroups(g, bw) {
      var a, b :| (a, b) in bw && Inferred(g, a, b) && Timed(bw[(a, b)]);
      AllHandled(g, passes, a, b);
      assert (a, b) in Measured(bw) && (a, b) !in Remaining(g, bw, Passes(passes));
    }
  }

  /** Afterwards none does. */
  lemma {:induction false} NoneLeft(g: Groups, bw: Bandwidths, passes: seq<Pass>, infer: Inference)
    requires Honest(infer) && Covers(passes)
    ensures InGroups(g, PassesBy(g, bw, passes, infer))
  {
    var after := PassesBy(g, bw, passes, infer);
    PassesForget(g, bw, passes, infer);
    forall a, b | (a, b) in after && Inferred(g, a, b) ensures !Timed(after[(a, b)]) {
      AllHandled(g, passes, a, b);
      assert (a, b) in Measured(after) <==> (a, b) in Remaining(g, bw, Passes(passes));
    }
  }

  lemma {:induction false} FillInGroups(g: Groups, bw: Bandwidths, passes: seq<Pass>, infer: Inference)
    requires Honest(infer) && InGroups(g, bw)
    ensures SameFill(FillBy(g, bw, passes, infer), infer(bw))
  {
    var f := FillBy(g, bw, passes, infer);
    forall a, b ensures f(a, b) == infer(bw)(a, b) {
      MeasuredAndRemaining(g, bw, Before(passes, PassOf(g, a, b)));
      FromRemaining(g, bw, bw, Before(passes, PassOf(g, a, b)), infer);
    }
  }

  lemma {:induction false} InGroupsAgree(g: Groups, bw: Bandwidths, p: seq<Pass>, q: seq<Pass>, infer: Inference)
    requires Honest(infer) && InGroups(g, bw)
    ensures Agree(g, FillBy(g, bw, p, infer), FillBy(g, bw, q, infer))
  {
    var f, f' := FillBy(g, bw, p, infer), FillBy(g, bw, q, infer);
    FillInGroups(g, bw, p, infer);
    FillInGroups(g, bw, q, infer);
    forall a, b ensures f(a, b) == f'(a, b) {
      assert f(a, b) == infer(bw)(a, b);
    }
  }

  // ----- Running all passes twice

  /** What the measurements left at the end give for a pair. */
  ghost function LateFillBy(g: Groups, bw: Bandwidths, infer: Inference): Filler {
    infer(Remaining(g, bw, {First, Second, Third}))
  }

  lemma {:induction false} BeforeAppended(passes: seq<Pass>, last: Pass, p: Pass)
    ensures Before(passes + [last], p) == if last == p then Passes(passes) else Before(passes, p)
  {
    assert (passes + [last])[..|passes|] == passes;
  }

  lemma {:induction false} BeforeTwice(p: Pass)
    ensures Before([First, Second, Third] + [First, Second, Third], p) == {First, Second, Third}
  {
    var once := [First, Second, Third];
    BeforeAppended(once, First, p);
    BeforeAppended(once + [First], Second, p);
    BeforeAppended(once + [First] + [Second], Third, p);
    assert once + once == once + [First] + [Second] + [Third];
    assert Passes(once) == Passes(once + [First]) == Passes(once + [First] + [Second]) == {First, Second, Third};
  }

  lemma {:induction false} BeforeOnce(p: Pass)
    ensures Before([First, Second, Third], p) ==
      match p case First => {} case Second => {First} case Third => {First, Second}
  {
    var none: seq<Pass> := [];
    BeforeAppended(none, First, p);
    BeforeAppended(none + [First], Second, p);
    BeforeAppended(none + [First] + [Second], Third, p);
    assert none + [First] + [Second] + [Third] == [First, Second, Third];
    assert Passes(none) == {} && Passes(none + [First]) == {First};
    assert Passes(none + [First] + [Second]) == {First, Second};
  }

  /** A second run changes nothing if and only if every pair gets the same from the measurements left when
      its pass begins as from those left at the end. */
  lemma {:induction false} SettlesIfSame(g: Groups, bw: Bandwidths, infer: Inference)
    requires Honest(infer)
    ensures var once := PassesBy(g, bw, [First, Second, Third], infer);
      (PassesBy(g, once, [First, Second, Third], infer) == once)
        <==> Agree(g, FillBy(g, bw, [First, Second, Third], infer), LateFillBy(g, bw, infer))
  {
    var once := [First, Second, Third];
    PassesJoin(g, bw, once, once, infer);
    OrdersAgree(g, bw, once, once + once, infer);
    var f, f' := FillBy(g, bw, once + once, infer), LateFillBy(g, bw, infer);
    forall a, b ensures f(a, b) == f'(a, b) { BeforeTwice(PassOf(g, a, b)); }
  }

  lemma {:induction false} InGroupsSettle(g: Groups, bw: Bandwidths, infer: Inference)
    requires Honest(infer) && InGroups(g, bw)
    ensures var once := PassesBy(g, bw, [First, Second, Third], infer);
      PassesBy(g, once, [First, Second, Third], infer) == once
  {
    var once := [First, Second, Third];
    PassesJoin(g, bw, once, once, infer);
    OrdersAgree(g, bw, once, once + once, infer);
    InGroupsAgree(g, bw, once, once + once, infer);
  }
}
