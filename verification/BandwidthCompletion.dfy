/** What completion puts into the bandwidth columns: which measurements survive it, what every pair gets,
    and exactly when the order of the passes or a second completion makes a difference. */
module BandwidthCompletion {
  import opened BandwidthRows
  import opened FillPasses
  import opened LinkCompletion
  import opened Wrappers

  function Fill(bw: Bandwidths): Filler {
    (a, b) => InferredBandwidth(bw, a, b)
  }

  lemma {:induction false} FillIsHonest()
    ensures Honest(Fill)
  {
    forall x ensures WritesNoTime(Fill(x)) {}
    forall x, y | Measured(x) == Measured(y) ensures SameFill(Fill(x), Fill(y)) {
      forall a, b ensures Fill(x)(a, b) == Fill(y)(a, b) { InferredFromMeasured(x, y, a, b); }
    }
  }

  ghost function BandwidthPasses(g: Groups, bw: Bandwidths, passes: seq<Pass>): Bandwidths {
    PassesBy(g, bw, passes, Fill)
  }

  ghost function BandwidthCompleted(g: Groups, bw: Bandwidths): Bandwidths {
    BandwidthPasses(g, bw, [First, Second, Third])
  }

  /** What a pair is filled in with, from the measurements that are left when its pass last begins. */
  ghost function FillOf(g: Groups, bw: Bandwidths, passes: seq<Pass>): Filler {
    FillBy(g, bw, passes, Fill)
  }

  /** Every pair to be filled in gets the same bandwidth from the measurements that are left when its
      pass begins as from those that are left at the end. */
  ghost predicate SameFills(g: Groups, bw: Bandwidths) {
    Agree(g, FillOf(g, bw, [First, Second, Third]), LateFillBy(g, bw, Fill))
  }

  // ----- The results

  /** Completion keeps all measurements exactly when none belongs to a pair it fills in. */
  lemma {:induction false} MeasurementsSurvive(g: Groups, bw: Bandwidths, passes: seq<Pass>)
    requires Covers(passes)
    ensures Measured(BandwidthPasses(g, bw, passes)) == Measured(bw) <==> InGroups(g, bw)
  {
    FillIsHonest();
    AllSurvive(g, bw, passes, Fill);
  }

  /** Completion fills every pair in from the measurements left when its pass last begins, and leaves all
      other rows alone. */
  lemma {:induction false} CompletionFills(g: Groups, bw: Bandwidths, passes: seq<Pass>, a: Id, b: Id)
    requires Covers(passes)
    ensures var after, v := BandwidthPasses(g, bw, passes), FillAt(g, bw, passes, Fill, a, b);
      if Inferred(g, a, b) then (a, b) in after && after[(a, b)] == v
      else ((a, b) in after <==> (a, b) in bw) && ((a, b) in bw ==> after[(a, b)] == bw[(a, b)])
  {
    FillIsHonest();
    CompletionAt(g, bw, passes, Fill, a, b);
  }

  /** When no measurement belongs to a pair filled in, those are all of them. */
  lemma {:induction false} InGroupsFills(g: Groups, bw: Bandwidths, passes: seq<Pass>, a: Id, b: Id)
    requires InGroups(g, bw)
    ensures FillAt(g, bw, passes, Fill, a, b) == InferredBandwidth(bw, a, b)
  {
    FillIsHonest();
    FillInGroups(g, bw, passes, Fill);
    assert FillBy(g, bw, passes, Fill)(a, b) == Fill(bw)(a, b);
  }

  /** Two orders of the passes, repetitions included, give the same table if and only if every pair gets
      the same from the measurements left when its pass last begins in either order; in particular
      when no measurement belongs to a pair filled in. */
  lemma {:induction false} OrderMatters(g: Groups, bw: Bandwidths, p: seq<Pass>, q: seq<Pass>)
    requires Covers(p) && Covers(q)
    ensures BandwidthPasses(g, bw, p) == BandwidthPasses(g, bw, q) <==> Agree(g, FillOf(g, bw, p), FillOf(g, bw, q))
    ensures InGroups(g, bw) ==> BandwidthPasses(g, bw, p) == BandwidthPasses(g, bw, q)
  {
    FillIsHonest();
    OrdersAgree(g, bw, p, q, Fill);
    if InGroups(g, bw) { InGroupsAgree(g, bw, p, q, Fill); }
  }

  /** A second completion changes nothing if and only if every pair gets the same from the measurements
      left at its pass as from those left at the end, in particular when no measurement belongs to a
      pair filled in. A third completion never changes anything. */
  lemma {:induction false} FillingSettles(g: Groups, bw: Bandwidths)
    ensures BandwidthCompleted(g, BandwidthCompleted(g, bw)) == BandwidthCompleted(g, bw) <==> SameFills(g, bw)
    ensures InGroups(g, bw) ==> SameFills(g, bw)
    ensures var twice := BandwidthCompleted(g, BandwidthCompleted(g, bw)); BandwidthCompleted(g, twice) == twice
  {
    FillIsHonest();
    SettlesIfSame(g, bw, Fill);
    if InGroups(g, bw) { InGroupsSettle(g, bw, Fill); }
    NoneLeft(g, bw, [First, Second, Third], Fill);
    InGroupsSettle(g, BandwidthCompleted(g, bw), Fill);
  }

  // ----- A measurement on a pair to be filled in

  lemma {:induction false} OnlyMeasurement(bw: Bandwidths, a: Id, b: Id, l: Id)
    requires (a, b) in bw && Timed(bw[(a, b)]) && l != a
    requires forall k | k in bw && k != (a, b) :: !Timed(bw[k])
    ensures InferredBandwidth(bw, l, b).meanB == bw[(a, b)].meanB
  {
    assert OutOf(bw, l) == map[];
    var rows := Into(bw, b);
    assert a in rows && rows[a] == bw[(a, b)];
    forall k | k in rows ensures k == a { assert (k, b) in bw && Timed(bw[(k, b)]); }
    BestOfOne(rows, a);
  }

  lemma {:induction false} BestOfOne(rows: map<Id, Bandwidth>, a: Id)
    requires a in rows && forall k | k in rows :: k == a
    ensures Best(rows) == rows[a].meanB
  {
    var known := set k | k in rows && rows[k].meanB.Some? :: rows[k].meanB.value;
    assert rows[a].meanB.Some? ==> known == {rows[a].meanB.value};
    assert rows[a].meanB.None? ==> known == {};
  }

  lemma {:induction false} NothingMeasured(bw: Bandwidths, a: Id, b: Id)
    requires Measured(bw) == map[]
    ensures InferredBandwidth(bw, a, b) == Bandwidth(None, None, None)
  {
    forall k | k in bw ensures !Timed(bw[k]) { assert k in Measured(bw) <==> Timed(bw[k]); }
    assert OutOf(bw, a) == map[] && Into(bw, b) == map[];
  }

  lemma {:induction false} FirstPassStays(g: Groups, bw: Bandwidths, l: Id, b: Id)
    requires Apart(g, l, b) && l in g.leaders && b !in g.leaders
    ensures (l, b) in BandwidthCompleted(g, bw) && BandwidthCompleted(g, bw)[(l, b)] == InferredBandwidth(bw, l, b)
  {
    FillIsHonest();
    PassesAt(g, bw, [First, Second, Third], Fill, l, b);
    BeforeOnce(First);
    MeasuredAndRemaining(g, bw, {});
    FromRemaining(g, bw, bw, {}, Fill);
    assert Fill(bw)(l, b) == Fill(Remaining(g, bw, {}))(l, b);
  }

  lemma {:induction false} OnlyOneIsForgotten(g: Groups, bw: Bandwidths, a: Id, b: Id)
    requires Apart(g, a, b) && !(a in g.leaders && b in g.leaders)
    requires forall k | k in bw && k != (a, b) :: !Timed(bw[k])
    ensures Measured(BandwidthCompleted(g, bw)) == map[]
  {
    var once := [First, Second, Third];
    FillIsHonest();
    PassesForget(g, bw, once, Fill);
    AllHandled(g, once, a, b);
    assert Remaining(g, bw, Passes(once)) == map[];
  }

  /** Completing twice can differ from completing once. When the only measurement lies between two
      followers, the first completion takes it over for the link from any third leader, and
      forgets the measurement; the second leaves that link without a bandwidth. */
  lemma {:induction false} SecondCompletionForgets(g: Groups, bw: Bandwidths, a: Id, b: Id, l: Id)
    requires Apart(g, a, b) && a !in g.leaders && b !in g.leaders
    requires Apart(g, l, b) && l in g.leaders
    requires (a, b) in bw && Timed(bw[(a, b)]) && forall k | k in bw && k != (a, b) :: !Timed(bw[k])
    ensures var once := BandwidthCompleted(g, bw); var twice := BandwidthCompleted(g, once);
      && (l, b) in once && once[(l, b)].meanB == bw[(a, b)].meanB
      && (l, b) in twice && twice[(l, b)].meanB == None
  {
    var once := BandwidthCompleted(g, bw);
    FirstPassStays(g, bw, l, b);
    OnlyMeasurement(bw, a, b, l);
    FirstPassStays(g, once, l, b);
    OnlyOneIsForgotten(g, bw, a, b);
    NothingMeasured(once, l, b);
  }
}
