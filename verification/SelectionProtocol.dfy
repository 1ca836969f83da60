/** Any number of leaders running the invitation phase of leader selection at once, up to the
    first START message. One step is one critical section or one request with its answer; the
    leaders act on their states exactly as the methods of `Selection.Selector` do. */
module SelectionProtocol {
  import opened Selection

  type Leader = nat

  /** What the thread running a leader's own round is doing. */
  datatype Round =
    | Idle
    | Inviting(asked: set<Leader>, granted: set<Leader>)
    | Refused  // an invitation was declined; the round has not been given up yet

  datatype Net = Net(leaders: map<Leader, LeaderState>, rounds: map<Leader, Round>)

  datatype Step =
    | Start(o: Leader, id: int)
    | Invite(o: Leader, q: Leader)  // q answers
    | Skip(o: Leader, q: Leader)    // q cannot be reached
    | Lost(o: Leader, q: Leader)    // q acts on the invitation, its answer is lost
    | Abort(o: Leader)              // after a refusal
    | GiveUp(o: Leader)             // everybody was asked and nobody accepted

  ghost predicate WellFormed(n: Net) {
    n.leaders.Keys == n.rounds.Keys
  }

  ghost predicate Initial(n: Net) {
    && WellFormed(n)
    && (forall o | o in n.leaders :: n.leaders[o].status == FREE)
    && (forall o | o in n.rounds :: n.rounds[o] == Idle)
  }

  ghost predicate CanAsk(n: Net, o: Leader, q: Leader) {
    && o in n.rounds && o in n.leaders && n.rounds[o].Inviting?
    && q in n.leaders && q != o && q !in n.rounds[o].asked
  }

  ghost predicate Enabled(n: Net, step: Step) {
    match step
    case Start(o, _) => o in n.rounds && o in n.leaders && n.rounds[o] == Idle && n.leaders[o].status == FREE
    case Invite(o, q) => CanAsk(n, o, q)
    case Skip(o, q) => CanAsk(n, o, q)
    case Lost(o, q) => CanAsk(n, o, q)
    case Abort(o) => o in n.rounds && n.rounds[o] == Refused
    case GiveUp(o) =>
      && o in n.rounds && o in n.leaders && n.rounds[o].Inviting?
      && n.rounds[o].asked == n.leaders.Keys - {o} != {} && n.rounds[o].granted == {}
  }

  ghost function Apply(n: Net, step: Step): Net
    requires WellFormed(n) && Enabled(n, step)
  {
    match step
    case Start(o, id) =>
      Net(n.leaders[o := AfterBegin(n.leaders[o], id)], n.rounds[o := Inviting({}, {})])
    case Invite(o, q) =>
      var r := n.rounds[o];
      var granted := Grants(n.leaders[q], n.leaders[o].id);
      Net(n.leaders[q := AfterInit(n.leaders[q], n.leaders[o].id)],
          n.rounds[o := if granted then Inviting(r.asked + {q}, r.granted + {q}) else Refused])
    case Skip(o, q) =>
      var r := n.rounds[o];
      n.(rounds := n.rounds[o := Inviting(r.asked + {q}, r.granted)])
    case Lost(o, q) =>
      var r := n.rounds[o];
      Net(n.leaders[q := AfterInit(n.leaders[q], n.leaders[o].id)], n.rounds[o := Inviting(r.asked + {q}, r.granted)])
    case Abort(o) => Stopped(n, o)
    case GiveUp(o) => Stopped(n, o)
  }

  /** The round of `o` has ended without success. */
  ghost function Stopped(n: Net, o: Leader): Net
    requires o in n.leaders
  {
    Net(n.leaders[o := AfterAbort(n.leaders[o])], n.rounds[o := Idle])
  }

  ghost predicate Runs(n: Net, steps: seq<Step>)
    decreases |steps|
  {
    WellFormed(n) && (steps == [] || (Enabled(n, steps[0]) && Runs(Apply(n, steps[0]), steps[1..])))
  }

  ghost function Final(n: Net, steps: seq<Step>): Net
    requires Runs(n, steps)
    decreases |steps|
  {
    if steps == [] then n else Final(Apply(n, steps[0]), steps[1..])
  }

  // ----- Assumptions on a run

  /** A new round draws an id that no other round underway has. */
  ghost predicate FreshId(n: Net, step: Step) {
    step.Start? ==> forall p | p in n.rounds && p in n.leaders && n.rounds[p] != Idle :: n.leaders[p].id != step.id
  }

  ghost predicate FreshIds(n: Net, steps: seq<Step>)
    requires Runs(n, steps)
    decreases |steps|
  {
    steps == [] || (FreshId(n, steps[0]) && FreshIds(Apply(n, steps[0]), steps[1..]))
  }

  /** Every leader asked could be reached and its answer arrived. */
  ghost predicate AllReached(steps: seq<Step>) {
    forall i | 0 <= i < |steps| :: !steps[i].Skip? && !steps[i].Lost?
  }

  /** States a run with distinct ids leads to. */
  ghost predicate Reached(n0: Net, steps: seq<Step>, n: Net) {
    Initial(n0) && Runs(n0, steps) && FreshIds(n0, steps) && n == Final(n0, steps)
  }

  // ----- Winning

  /** Every other leader has granted the round of `o`. */
  ghost predicate GrantedByAll(n: Net, o: Leader) {
    o in n.rounds && o in n.leaders && n.rounds[o].Inviting? && n.rounds[o].granted == n.leaders.Keys - {o}
  }

  /** The broadcast of `o` has succeeded: everybody was asked, nobody declined, and somebody
      accepted unless there was nobody to ask. */
  ghost predicate Wins(n: Net, o: Leader) {
    && o in n.rounds && o in n.leaders && n.rounds[o].Inviting?
    && n.rounds[o].asked == n.leaders.Keys - {o}
    && (n.rounds[o].granted != {} || n.rounds[o].asked == {})
  }

  ghost predicate Active(n: Net, o: Leader) {
    o in n.rounds && o in n.leaders && n.rounds[o] != Idle
  }

  /** Inviting and not overridden by a larger id. */
  ghost predicate Leads(n: Net, o: Leader) {
    Active(n, o) && n.rounds[o].Inviting? && n.leaders[o].status == READY
  }

  // ----- The invariant

  ghost predicate Covered(n: Net, o: Leader)
    requires o in n.leaders
  {
    exists r :: Leads(n, r) && n.leaders[r].id >= n.leaders[o].id
  }

  ghost predicate RoundOk(n: Net, o: Leader)
    requires WellFormed(n) && o in n.leaders
  {
    var s, r := n.leaders[o].status, n.rounds[o];
    && (s == FREE || s == READY || s == CHANGING)
    && (s == READY ==> r != Idle)
    && (s == FREE ==> r == Idle)
    && (r.Inviting? ==>
        && r.granted <= r.asked <= n.leaders.Keys - {o}
        && forall q | q in r.granted :: n.leaders[q].status == CHANGING)
  }

  /** What every run with distinct ids keeps. */
  ghost predicate Orderly(n: Net) {
    && WellFormed(n)
    && (forall o | o in n.leaders :: RoundOk(n, o))
    && (forall o, p | Active(n, o) && Active(n, p) && o != p :: n.leaders[o].id != n.leaders[p].id)
  }

  /** Every round that was refused or overridden is covered by a larger one that still leads. */
  ghost predicate AllCovered(n: Net) {
    forall o | Active(n, o) :: Leads(n, o) || Covered(n, o)
  }

  ghost predicate Invariant(n: Net) {
    Orderly(n) && AllCovered(n)
  }

  /** The round of `p` is refused or overridden, and nobody but `o` covers it. */
  ghost predicate Relies(n: Net, p: Leader, o: Leader)
    requires p in n.leaders
  {
    !Leads(n, p) && forall r | Leads(n, r) && r != o :: n.leaders[r].id < n.leaders[p].id
  }

  /** Some round would lose its cover if `o` gave up. */
  ghost predicate Needed(n: Net, o: Leader) {
    exists p :: Active(n, p) && p != o && Relies(n, p, o)
  }

  /** No initiator that a refused or overridden round depends on gives up unanswered. */
  ghost predicate NoneStranded(n: Net, steps: seq<Step>)
    requires Runs(n, steps)
    decreases |steps|
  {
    steps == [] || ((steps[0].GiveUp? ==> !Needed(n, steps[0].o)) && NoneStranded(Apply(n, steps[0]), steps[1..]))
  }

  lemma {:induction false} StepKeepsRounds(n: Net, step: Step, p: Leader)
    requires WellFormed(n) && Enabled(n, step) && p in n.leaders
    requires forall o | o in n.leaders :: RoundOk(n, o)
    ensures RoundOk(Apply(n, step), p)
  {
    assert RoundOk(n, p) && RoundOk(n, step.o);
  }

  lemma {:induction false} StepKeepsIds(n: Net, step: Step, p: Leader)
    requires WellFormed(n) && Enabled(n, step)
    ensures var n' := Apply(n, step);
      && (Active(n', p) ==> Active(n, p) || (step.Start? && p == step.o))
      && (p in n.leaders && !(step.Start? && p == step.o) ==> n'.leaders[p].id == n.leaders[p].id)
      && (step.Start? ==> n'.leaders[step.o].id == step.id && !Active(n, step.o))
  {}

  lemma {:induction false} StepKeepsOrderly(n: Net, step: Step)
    requires Orderly(n) && Enabled(n, step) && FreshId(n, step)
    ensures Orderly(Apply(n, step))
  {
    var n' := Apply(n, step);
    forall p | p in n'.leaders ensures RoundOk(n', p) {
      StepKeepsRounds(n, step, p);
    }
    forall o, p | Active(n', o) && Active(n', p) && o != p ensures n'.leaders[o].id != n'.leaders[p].id {
      StepKeepsIds(n, step, o);
      StepKeepsIds(n, step, p);
    }
  }

  lemma {:induction false} StartKeeps(n: Net, o: Leader, id: int)
    requires Invariant(n) && Enabled(n, Start(o, id))
    ensures AllCovered(Apply(n, Start(o, id)))
  {
    var n' := Apply(n, Start(o, id));
    assert RoundOk(n, o);
    forall r | Leads(n, r) ensures Leads(n', r) {}
    forall p | Active(n', p) ensures Leads(n', p) || Covered(n', p) {
      if p == o {
        assert Leads(n', o);
      } else {
        assert Active(n, p);
        if !Leads(n, p) {
          var r :| Leads(n, r) && n.leaders[r].id >= n.leaders[p].id;
          assert Leads(n', r);
        }
      }
    }
  }

  /** When only `x` stops leading and `top` leads on with an id at least as large, everybody who
      relied on `x` can rely on `top`. */
  lemma {:induction false} CoverKept(n: Net, n': Net, x: Leader, top: Leader)
    requires AllCovered(n) && n'.leaders.Keys == n.leaders.Keys
    requires forall p | p in n.leaders :: n'.leaders[p].id == n.leaders[p].id
    requires forall p | Active(n', p) :: Active(n, p)
    requires forall r | Leads(n, r) && r != x :: Leads(n', r)
    requires Leads(n, x) ==> Leads(n', top) && n.leaders[top].id >= n.leaders[x].id
    ensures AllCovered(n')
  {
    forall p | Active(n', p) ensures Leads(n', p) || Covered(n', p) {
      assert Active(n, p);
      if Leads(n, p) {
        if p == x {
          assert n'.leaders[top].id >= n'.leaders[p].id;
        } else {
          assert Leads(n', p);
        }
      } else {
        var r :| Leads(n, r) && n.leaders[r].id >= n.leaders[p].id;
        var w := if r == x then top else r;
        assert Leads(n', w) && n'.leaders[w].id >= n'.leaders[p].id;
      }
    }
  }

  /** Some leader with at least the id of an active one leads. */
  lemma {:induction false} TopOf(n: Net, o: Leader) returns (top: Leader)
    requires AllCovered(n) && Active(n, o)
    ensures Leads(n, top) && n.leaders[top].id >= n.leaders[o].id
  {
    if Leads(n, o) {
      top := o;
    } else {
      assert Covered(n, o);
      top :| Leads(n, top) && n.leaders[top].id >= n.leaders[o].id;
    }
  }

  /** An accepted invitation, whether or not the answer arrives. */
  lemma {:induction false} GrantKeeps(n: Net, step: Step)
    requires Invariant(n) && Enabled(n, step) && (step.Invite? || step.Lost?)
    requires Grants(n.leaders[step.q], n.leaders[step.o].id)
    ensures AllCovered(Apply(n, step))
  {
    var n', o, q := Apply(n, step), step.o, step.q;
    var top := TopOf(n, o);
    forall r | Leads(n, r) && r != q ensures Leads(n', r) {}
    CoverKept(n, n', q, top);
  }

  lemma {:induction false} RefusalKeeps(n: Net, o: Leader, q: Leader)
    requires Invariant(n) && CanAsk(n, o, q) && !Grants(n.leaders[q], n.leaders[o].id)
    ensures AllCovered(Apply(n, Invite(o, q)))
  {
    var n' := Apply(n, Invite(o, q));
    assert RoundOk(n, q) && Active(n, q) && Active(n, o);
    var top := TopOf(n, q);
    forall r | Leads(n, r) && r != o ensures Leads(n', r) {}
    CoverKept(n, n', o, top);
  }

  /** Passing over a leader, a lost refusal, giving up after a refusal: nobody starts or stops
      leading, no id changes. */
  lemma {:induction false} QuietStepKeeps(n: Net, step: Step)
    requires Invariant(n) && Enabled(n, step)
    requires step.Skip? || step.Abort? || (step.Lost? && !Grants(n.leaders[step.q], n.leaders[step.o].id))
    ensures AllCovered(Apply(n, step))
  {
    var n' := Apply(n, step);
    forall r | Leads(n, r) ensures Leads(n', r) {}
    CoverKept(n, n', step.o, step.o);
  }

  lemma {:induction false} GivenUp(n: Net, o: Leader)
    requires Orderly(n) && Enabled(n, GiveUp(o))
    ensures var n' := Apply(n, GiveUp(o));
      && (forall r :: Leads(n', r) <==> Leads(n, r) && r != o)
      && (forall p :: Active(n', p) <==> Active(n, p) && p != o)
      && n'.leaders.Keys == n.leaders.Keys && forall p | p in n.leaders :: n'.leaders[p].id == n.leaders[p].id
  {}

  /** Giving up unanswered keeps the invariant exactly when nobody needed the round. */
  lemma {:induction false} GiveUpKeepsUnlessNeeded(n: Net, o: Leader)
    requires Invariant(n) && Enabled(n, GiveUp(o))
    ensures Invariant(Apply(n, GiveUp(o))) <==> !Needed(n, o)
  {
    StepKeepsOrderly(n, GiveUp(o));
    GivenUp(n, o);
    CoverWithout(n, Apply(n, GiveUp(o)), o);
  }

  lemma {:induction false} CoverWithout(n: Net, n': Net, o: Leader)
    requires n'.leaders.Keys == n.leaders.Keys && forall p | p in n.leaders :: n'.leaders[p].id == n.leaders[p].id
    requires forall r :: Leads(n', r) <==> Leads(n, r) && r != o
    requires forall p :: Active(n', p) <==> Active(n, p) && p != o
    ensures AllCovered(n') <==> !Needed(n, o)
  {
    forall p | p in n.leaders
      ensures Covered(n', p) <==> exists r :: Leads(n, r) && r != o && n.leaders[r].id >= n.leaders[p].id
    {
      if r :| Leads(n, r) && r != o && n.leaders[r].id >= n.leaders[p].id {
        assert Leads(n', r);
      }
    }
    if !AllCovered(n') {
      var p :| Active(n', p) && !Leads(n', p) && !Covered(n', p);
      assert Active(n, p) && !Leads(n, p);
    }
    if Needed(n, o) {
      var p :| Active(n, p) && p != o && Relies(n, p, o);
      assert Active(n', p) && !Leads(n', p) && !Covered(n', p);
    }
  }

  lemma {:induction false} StepKeepsInvariant(n: Net, step: Step)
    requires Invariant(n) && Enabled(n, step) && FreshId(n, step)
    requires step.GiveUp? ==> !Needed(n, step.o)
    ensures Invariant(Apply(n, step))
  {
    StepKeepsOrderly(n, step);
    match step
    case Start(o, id) => StartKeeps(n, o, id);
    case Invite(o, q) =>
      if Grants(n.leaders[q], n.leaders[o].id) { GrantKeeps(n, step); } else { RefusalKeeps(n, o, q); }
    case Lost(o, q) =>
      if Grants(n.leaders[q], n.leaders[o].id) { GrantKeeps(n, step); } else { QuietStepKeeps(n, step); }
    case Skip(o, q) => QuietStepKeeps(n, step);
    case Abort(o) => QuietStepKeeps(n, step);
    case GiveUp(o) => GiveUpKeepsUnlessNeeded(n, o);
  }

  lemma {:induction false} RunKeepsOrderly(n: Net, steps: seq<Step>)
    requires Orderly(n) && Runs(n, steps) && FreshIds(n, steps)
    ensures Orderly(Final(n, steps))
    decreases |steps|
  {
    if steps != [] {
      StepKeepsOrderly(n, steps[0]);
      RunKeepsOrderly(Apply(n, steps[0]), steps[1..]);
    }
  }

  lemma {:induction false} RunKeepsInvariant(n: Net, steps: seq<Step>)
    requires Invariant(n) && Runs(n, steps) && FreshIds(n, steps) && NoneStranded(n, steps)
    ensures Invariant(Final(n, steps))
    decreases |steps|
  {
    if steps != [] {
      StepKeepsInvariant(n, steps[0]);
      RunKeepsInvariant(Apply(n, steps[0]), steps[1..]);
    }
  }

  lemma {:induction false} ReachedInvariant(n0: Net, steps: seq<Step>, n: Net)
    requires Reached(n0, steps, n)
    ensures Orderly(n)
    ensures NoneStranded(n0, steps) ==> Invariant(n)
  {
    assert Invariant(n0);
    RunKeepsOrderly(n0, steps);
    if NoneStranded(n0, steps) { RunKeepsInvariant(n0, steps); }
  }

  // ----- When nobody is stranded

  /** Everybody asked so far has answered. */
  ghost predicate AllAnswered(n: Net) {
    forall o | o in n.rounds && n.rounds[o].Inviting? :: n.rounds[o].asked == n.rounds[o].granted
  }

  ghost predicate NoneGivesUp(steps: seq<Step>) {
    forall i | 0 <= i < |steps| :: !steps[i].GiveUp?
  }

  lemma {:induction false} NotGivingUpStrandsNobody(n: Net, steps: seq<Step>)
    requires Runs(n, steps) && NoneGivesUp(steps)
    ensures NoneStranded(n, steps)
    decreases |steps|
  {
    if steps != [] { NotGivingUpStrandsNobody(Apply(n, steps[0]), steps[1..]); }
  }

  /** While every leader can be reached, everybody asked and not refusing has accepted, so nobody gives
      up unanswered. */
  lemma {:induction false} ReachingAllStrandsNobody(n: Net, steps: seq<Step>)
    requires AllAnswered(n) && Runs(n, steps) && AllReached(steps)
    ensures AllAnswered(Final(n, steps)) && NoneGivesUp(steps) && NoneStranded(n, steps)
    decreases |steps|
  {
    if steps != [] {
      assert !steps[0].GiveUp?;
      ReachingAllStrandsNobody(Apply(n, steps[0]), steps[1..]);
    }
  }

  // ----- The results

  /** At most one initiator is ever granted by all: it is the only READY leader, every other leader
      is CHANGING, every rival round underway has a smaller id, and no rival can be granted by all. */
  lemma {:induction false} UniqueWinner(n0: Net, steps: seq<Step>, n: Net, o: Leader)
    requires Reached(n0, steps, n) && NoneStranded(n0, steps) && GrantedByAll(n, o)
    ensures n.leaders[o].status == READY
    ensures forall p | p in n.leaders && p != o :: n.leaders[p].status == CHANGING
    ensures forall p | Active(n, p) && p != o :: n.leaders[p].id < n.leaders[o].id
    ensures forall p | GrantedByAll(n, p) :: p == o
  {
    ReachedInvariant(n0, steps, n);
    assert RoundOk(n, o) && Active(n, o);
    forall p | p in n.leaders && p != o ensures n.leaders[p].status == CHANGING {
      assert p in n.rounds[o].granted;
    }
    forall p | Leads(n, p) ensures p == o {}
    forall p | GrantedByAll(n, p) ensures p == o {
      assert RoundOk(n, p);
      assert o !in n.rounds[p].granted;
    }
  }

  /** An initiator whose id is the largest among the READY leaders is never refused, in any run with
      distinct ids. */
  lemma {:induction false} LargestIdIsNeverRefused(n0: Net, steps: seq<Step>, n: Net, o: Leader, q: Leader)
    requires Reached(n0, steps, n) && CanAsk(n, o, q)
    requires forall p | p in n.leaders && n.leaders[p].status == READY :: n.leaders[p].id <= n.leaders[o].id
    ensures Grants(n.leaders[q], n.leaders[o].id)
  {
    ReachedInvariant(n0, steps, n);
    assert RoundOk(n, q) && Active(n, o);
    if !Grants(n.leaders[q], n.leaders[o].id) { assert Active(n, q); }
  }

  /** While any round is underway, a READY initiator with an id at least as large is inviting. */
  lemma {:induction false} EveryRoundIsCovered(n0: Net, steps: seq<Step>, n: Net, o: Leader) returns (top: Leader)
    requires Reached(n0, steps, n) && NoneStranded(n0, steps) && Active(n, o)
    ensures Leads(n, top) && n.leaders[top].id >= n.leaders[o].id
  {
    ReachedInvariant(n0, steps, n);
    top := TopOf(n, o);
  }

  // ----- A round always survives

  lemma {:induction false} StepKeepsSomeoneLeading(n: Net, step: Step, r: Leader)
    requires Invariant(n) && Enabled(n, step) && FreshId(n, step) && !step.GiveUp?
    requires step.Start? || Leads(n, r)
    ensures exists r' :: Leads(Apply(n, step), r')
  {
    var n' := Apply(n, step);
    StepKeepsInvariant(n, step);
    var p := if step.Start? then step.o else r;
    assert Active(n', p);
    if !Leads(n', p) { assert Covered(n', p); }
  }

  lemma {:induction false} RunKeepsSomeoneLeading(n: Net, steps: seq<Step>, i: nat)
    requires Invariant(n) && Runs(n, steps) && FreshIds(n, steps) && NoneGivesUp(steps)
    requires (exists r :: Leads(n, r)) || (i < |steps| && steps[i].Start?)
    ensures exists r :: Leads(Final(n, steps), r)
    decreases |steps|
  {
    if steps != [] {
      var n' := Apply(n, steps[0]);
      assert !steps[0].GiveUp?;
      StepKeepsInvariant(n, steps[0]);
      assert Final(n, steps) == Final(n', steps[1..]);
      if r :| Leads(n, r) {
        StepKeepsSomeoneLeading(n, steps[0], r);
        RunKeepsSomeoneLeading(n', steps[1..], 0);
      } else if i == 0 {
        StepKeepsSomeoneLeading(n, steps[0], steps[0].o);
        RunKeepsSomeoneLeading(n', steps[1..], 0);
      } else {
        RunKeepsSomeoneLeading(n', steps[1..], i - 1);
      }
    } else {
      var r :| Leads(n, r);
      assert Leads(Final(n, steps), r);
    }
  }

  /** The rounds underway never all refuse each other: as long as no initiator gives up unanswered,
      once a round has started some initiator is READY and inviting in every later state. */
  lemma {:induction false} NeverAllRefused(n0: Net, steps: seq<Step>, n: Net, i: nat)
    requires Reached(n0, steps, n) && NoneGivesUp(steps) && i < |steps| && steps[i].Start?
    ensures exists r :: Leads(n, r)
  {
    assert Invariant(n0);
    RunKeepsSomeoneLeading(n0, steps, i);
  }

  // ----- A winner emerges

  ghost predicate NoStarts(steps: seq<Step>) {
    forall i | 0 <= i < |steps| :: !steps[i].Start?
  }

  /** What the rounds underway may still do: ask a leader not asked yet, and end. */
  ghost function Pending(n: Net): set<(Leader, Leader)> {
    set o, q | o in n.leaders && q in n.leaders && o in n.rounds && MayStill(n.rounds[o], o, q) :: (o, q)
  }

  ghost predicate MayStill(r: Round, o: Leader, q: Leader) {
    match r
    case Idle => false
    case Refused => q == o
    case Inviting(asked, _) => q !in asked
  }

  lemma {:induction false} StepsRunOut(n: Net, step: Step)
    requires Orderly(n) && Enabled(n, step) && !step.Start?
    ensures Pending(Apply(n, step)) < Pending(n)
  {
    var n', o := Apply(n, step), step.o;
    assert RoundOk(n, o);
    forall p, q | (p, q) in Pending(n') ensures (p, q) in Pending(n) {
      assert p != o ==> n'.rounds[p] == n.rounds[p];
    }
    var done := if step.Abort? || step.GiveUp? then (o, o) else (o, step.q);
    assert done in Pending(n) && done !in Pending(n');
  }

  lemma {:induction false} SmallerSet<T>(a: set<T>, b: set<T>)
    requires a <= b
    ensures |a| <= |b| && (a < b ==> |a| < |b|)
  {
    assert b == a + (b - a);
    assert a < b ==> b - a != {};
  }

  lemma {:induction false} NoStartRunIsShort(n: Net, steps: seq<Step>)
    requires Orderly(n) && Runs(n, steps) && NoStarts(steps)
    ensures FreshIds(n, steps) && Orderly(Final(n, steps)) && |steps| + |Pending(Final(n, steps))| <= |Pending(n)|
    decreases |steps|
  {
    if steps != [] {
      assert !steps[0].Start?;
      StepKeepsOrderly(n, steps[0]);
      StepsRunOut(n, steps[0]);
      SmallerSet(Pending(Apply(n, steps[0])), Pending(n));
      NoStartRunIsShort(Apply(n, steps[0]), steps[1..]);
    }
  }

  ghost function Row(o: Leader, b: set<Leader>): set<(Leader, Leader)> {
    set q | q in b :: (o, q)
  }

  lemma {:induction false} RowSize(o: Leader, b: set<Leader>)
    ensures |Row(o, b)| == |b|
  {
    if b != {} {
      var q :| q in b;
      assert Row(o, b) == Row(o, b - {q}) + {(o, q)};
      RowSize(o, b - {q});
    }
  }

  ghost function Pairs(a: set<Leader>, b: set<Leader>): set<(Leader, Leader)> {
    set o, q | o in a && q in b :: (o, q)
  }

  lemma {:induction false} OneMoreRow(a: set<Leader>, b: set<Leader>, o: Leader)
    requires o in a
    ensures |Pairs(a, b)| == |Pairs(a - {o}, b)| + |b|
  {
    assert Pairs(a, b) == Pairs(a - {o}, b) + Row(o, b);
    assert Pairs(a - {o}, b) !! Row(o, b);
    RowSize(o, b);
  }

  lemma {:induction false} OneMoreTimes(k: nat, m: nat)
    ensures (k + 1) * m == k * m + m
  {}

  lemma {:induction false} PairsSize(a: set<Leader>, b: set<Leader>, k: nat)
    requires k == |a|
    ensures |Pairs(a, b)| == k * |b|
  {
    if a != {} {
      var o :| o in a;
      OneMoreRow(a, b, o);
      PairsSize(a - {o}, b, k - 1);
      OneMoreTimes(k - 1, |b|);
    } else {
      assert Pairs(a, b) == {};
    }
  }

  /** No round can ask anybody or has to be given up. */
  ghost predicate Settled(n: Net) {
    (forall o, q :: !CanAsk(n, o, q)) && forall o :: !Enabled(n, Abort(o))
  }

  lemma {:induction false} SettledHasWinner(n: Net, r: Leader)
    requires Orderly(n) && AllAnswered(n) && Settled(n) && Leads(n, r)
    ensures GrantedByAll(n, r)
  {
    assert RoundOk(n, r);
    forall q | q in n.leaders.Keys - {r} ensures q in n.rounds[r].asked {
      assert !CanAsk(n, r, q);
    }
  }

  lemma {:induction false} RunsJoin(n: Net, a: seq<Step>, b: seq<Step>)
    requires Runs(n, a) && Runs(Final(n, a), b)
    ensures Runs(n, a + b) && Final(n, a + b) == Final(Final(n, a), b)
    ensures FreshIds(n, a) && FreshIds(Final(n, a), b) ==> FreshIds(n, a + b)
    decreases |a|
  {
    if a == [] {
      assert a + b == b;
    } else {
      assert (a + b)[1..] == a[1..] + b;
      RunsJoin(Apply(n, a[0]), a[1..], b);
    }
  }

  /** While every leader can be reached: after a start, every way on without another start comes to
      an end within as many steps as there are pairs of leaders, and where it has ended some
      initiator is granted by all. */
  lemma {:induction false} AWinnerEmerges(n0: Net, steps: seq<Step>, n: Net, i: nat, more: seq<Step>)
    requires Reached(n0, steps, n) && AllReached(steps) && i < |steps| && steps[i].Start?
    requires Runs(n, more) && AllReached(more) && NoStarts(more)
    ensures |more| <= |n.leaders| * |n.leaders|
    ensures Settled(Final(n, more)) ==> exists o :: GrantedByAll(Final(n, more), o)
  {
    ReachedInvariant(n0, steps, n);
    NoStartRunIsShort(n, more);
    PairsSize(n.leaders.Keys, n.leaders.Keys, |n.leaders|);
    SmallerSet(Pending(n), Pairs(n.leaders.Keys, n.leaders.Keys));
    if Settled(Final(n, more)) {
      RunsJoin(n0, steps, more);
      var all, end := steps + more, Final(n, more);
      ReachingAllStrandsNobody(n0, all);
      assert Reached(n0, all, end) && all[i].Start?;
      NeverAllRefused(n0, all, end, i);
      var r :| Leads(end, r);
      ReachedInvariant(n0, all, end);
      SettledHasWinner(end, r);
    }
  }

  /** When every leader can be reached, succeeding is being granted by all. */
  lemma {:induction false} WinningIsBeingGrantedByAll(n0: Net, steps: seq<Step>, n: Net, o: Leader)
    requires Reached(n0, steps, n) && AllReached(steps)
    ensures Wins(n, o) <==> GrantedByAll(n, o)
  {
    ReachedInvariant(n0, steps, n);
    ReachingAllStrandsNobody(n0, steps);
    if o in n.leaders { assert RoundOk(n, o); }
  }

  // ----- The assumptions are needed

  ghost predicate LeadsTo(n0: Net, steps: seq<Step>, n: Net) {
    Runs(n0, steps) && n == Final(n0, steps)
  }

  lemma {:induction false} OneMore(n0: Net, steps: seq<Step>, n: Net, step: Step)
    requires LeadsTo(n0, steps, n) && Enabled(n, step)
    ensures WellFormed(n) && LeadsTo(n0, steps + [step], Apply(n, step))
    ensures FreshIds(n0, steps) && FreshId(n, step) ==> FreshIds(n0, steps + [step])
    decreases |steps|
  {
    if steps == [] {
      assert [step][1..] == [];
    } else {
      assert (steps + [step])[1..] == steps[1..] + [step];
      OneMore(Apply(n0, steps[0]), steps[1..], n, step);
    }
  }

  ghost predicate CanReach(n0: Net, n: Net, distinct: bool, answered: bool) {
    exists steps :: LeadsTo(n0, steps, n) && (distinct ==> FreshIds(n0, steps)) && (answered ==> AllReached(steps))
  }

  lemma {:induction false} Then(n0: Net, n: Net, step: Step, distinct: bool, answered: bool) returns (n': Net)
    requires CanReach(n0, n, distinct, answered)
    requires WellFormed(n) && Enabled(n, step)
    requires (distinct ==> FreshId(n, step)) && (answered ==> !step.Skip? && !step.Lost?)
    ensures n' == Apply(n, step) && CanReach(n0, n', distinct, answered)
  {
    var steps :| LeadsTo(n0, steps, n) && (distinct ==> FreshIds(n0, steps)) && (answered ==> AllReached(steps));
    OneMore(n0, steps, n, step);
    n' := Apply(n, step);
    assert LeadsTo(n0, steps + [step], n');
  }

  /** Three leaders with the given states and rounds. */
  ghost predicate Three(n: Net, a: LeaderState, b: LeaderState, c: LeaderState, x: Round, y: Round, z: Round) {
    && n.leaders.Keys == {0, 1, 2} && n.rounds.Keys == {0, 1, 2}
    && n.leaders[0] == a && n.leaders[1] == b && n.leaders[2] == c
    && n.rounds[0] == x && n.rounds[1] == y && n.rounds[2] == z
  }

  lemma {:induction false} ThreeFree(distinct: bool, answered: bool) returns (n: Net)
    ensures Initial(n) && CanReach(n, n, distinct, answered)
    ensures Three(n, LeaderState(FREE, 0), LeaderState(FREE, 0), LeaderState(FREE, 0), Idle, Idle, Idle)
  {
    var free := LeaderState(FREE, 0);
    n := Net(map[0 := free, 1 := free, 2 := free], map[0 := Idle, 1 := Idle, 2 := Idle]);
    assert LeadsTo(n, [], n);
  }

  lemma {:induction false} Overlap(n0: Net, n: Net) returns (n': Net)
    requires CanReach(n0, n, true, false)
    requires Three(n, LeaderState(FREE, 0), LeaderState(FREE, 0), LeaderState(FREE, 0),
      Idle, Idle, Idle)
    ensures CanReach(n0, n', true, false)
    ensures Three(n', LeaderState(READY, 1), LeaderState(READY, 2), LeaderState(FREE, 0),
      Inviting({}, {}), Inviting({}, {}), Idle)
  {
    n' := n;
    n' := Then(n0, n', Start(0, 1), true, false);
    assert Three(n', LeaderState(READY, 1), LeaderState(FREE, 0), LeaderState(FREE, 0),
      Inviting({}, {}), Idle, Idle);
    n' := Then(n0, n', Start(1, 2), true, false);
  }

  lemma {:induction false} PassOver(n0: Net, n: Net) returns (n': Net)
    requires CanReach(n0, n, true, false)
    requires Three(n, LeaderState(READY, 1), LeaderState(READY, 2), LeaderState(FREE, 0),
      Inviting({}, {}), Inviting({}, {}), Idle)
    ensures CanReach(n0, n', true, false)
    ensures Three(n', LeaderState(READY, 1), LeaderState(READY, 2), LeaderState(CHANGING, 0),
      Inviting({1, 2}, {2}), Inviting({}, {}), Idle)
  {
    n' := n;
    n' := Then(n0, n', Invite(0, 2), true, false);
    assert Three(n', LeaderState(READY, 1), LeaderState(READY, 2), LeaderState(CHANGING, 0),
      Inviting({2}, {2}), Inviting({}, {}), Idle);
    n' := Then(n0, n', Skip(0, 1), true, false);
  }

  lemma {:induction false} OverrideThePassed(n0: Net, n: Net) returns (n': Net)
    requires CanReach(n0, n, true, false)
    requires Three(n, LeaderState(READY, 1), LeaderState(READY, 2), LeaderState(CHANGING, 0),
      Inviting({1, 2}, {2}), Inviting({}, {}), Idle)
    ensures CanReach(n0, n', true, false)
    ensures Three(n', LeaderState(CHANGING, 1), LeaderState(READY, 2), LeaderState(CHANGING, 0),
      Inviting({1, 2}, {2}), Inviting({0, 2}, {0, 2}), Idle)
  {
    n' := n;
    n' := Then(n0, n', Invite(1, 0), true, false);
    assert Three(n', LeaderState(CHANGING, 1), LeaderState(READY, 2), LeaderState(CHANGING, 0),
      Inviting({1, 2}, {2}), Inviting({0}, {0}), Idle);
    n' := Then(n0, n', Invite(1, 2), true, false);
  }

  /** With an unreachable leader two broadcasts can both succeed: the one of the smaller id passes
      over the leader that would have refused it. */
  lemma {:induction false} UnreachableLeaderAllowsTwoWinners() returns (n0: Net, steps: seq<Step>, n: Net)
    ensures Reached(n0, steps, n) && Wins(n, 0) && Wins(n, 1)
  {
    n0 := ThreeFree(true, false);
    n := Overlap(n0, n0);
    n := PassOver(n0, n);
    n := OverrideThePassed(n0, n);
    steps :| LeadsTo(n0, steps, n) && FreshIds(n0, steps);
  }

  lemma {:induction false} ThreeAtOnce(n0: Net, n: Net) returns (n': Net)
    requires CanReach(n0, n, true, false)
    requires Three(n, LeaderState(FREE, 0), LeaderState(FREE, 0), LeaderState(FREE, 0), Idle, Idle, Idle)
    ensures CanReach(n0, n', true, false)
    ensures Three(n', LeaderState(READY, 1), LeaderState(READY, 5), LeaderState(READY, 9),
      Inviting({}, {}), Inviting({}, {}), Inviting({}, {}))
  {
    n' := Then(n0, n, Start(0, 1), true, false);
    assert Three(n', LeaderState(READY, 1), LeaderState(FREE, 0), LeaderState(FREE, 0), Inviting({}, {}), Idle, Idle);
    n' := Then(n0, n', Start(1, 5), true, false);
    assert Three(n', LeaderState(READY, 1), LeaderState(READY, 5), LeaderState(FREE, 0),
      Inviting({}, {}), Inviting({}, {}), Idle);
    n' := Then(n0, n', Start(2, 9), true, false);
  }

  lemma {:induction false} SecondIsRefused(n0: Net, n: Net) returns (n': Net)
    requires CanReach(n0, n, true, false)
    requires Three(n, LeaderState(READY, 1), LeaderState(READY, 5), LeaderState(READY, 9),
      Inviting({}, {}), Inviting({}, {}), Inviting({}, {}))
    ensures CanReach(n0, n', true, false)
    ensures Three(n', LeaderState(CHANGING, 1), LeaderState(READY, 5), LeaderState(READY, 9),
      Inviting({}, {}), Refused, Inviting({}, {}))
  {
    n' := Then(n0, n, Invite(1, 0), true, false);
    assert Three(n', LeaderState(CHANGING, 1), LeaderState(READY, 5), LeaderState(READY, 9),
      Inviting({}, {}), Inviting({0}, {0}), Inviting({}, {}));
    n' := Then(n0, n', Invite(1, 2), true, false);
  }

  lemma {:induction false} ThirdReachesNobody(n0: Net, n: Net) returns (n': Net)
    requires CanReach(n0, n, true, false)
    requires Three(n, LeaderState(CHANGING, 1), LeaderState(READY, 5), LeaderState(READY, 9),
      Inviting({}, {}), Refused, Inviting({}, {}))
    ensures CanReach(n0, n', true, false)
    ensures Three(n', LeaderState(CHANGING, 1), LeaderState(READY, 5), LeaderState(READY, 9),
      Inviting({}, {}), Refused, Inviting({0, 1}, {}))
  {
    n' := Then(n0, n, Skip(2, 0), true, false);
    assert Three(n', LeaderState(CHANGING, 1), LeaderState(READY, 5), LeaderState(READY, 9),
      Inviting({}, {}), Refused, Inviting({0}, {}));
    n' := Then(n0, n', Skip(2, 1), true, false);
  }

  lemma {:induction false} BothGiveUp(n0: Net, n: Net) returns (n': Net)
    requires CanReach(n0, n, true, false)
    requires Three(n, LeaderState(CHANGING, 1), LeaderState(READY, 5), LeaderState(READY, 9),
      Inviting({}, {}), Refused, Inviting({0, 1}, {}))
    ensures CanReach(n0, n', true, false)
    ensures Three(n', LeaderState(CHANGING, 1), LeaderState(FREE, 5), LeaderState(FREE, 9),
      Inviting({}, {}), Idle, Idle)
  {
    assert n.leaders.Keys - {2} == {0, 1};
    n' := Then(n0, n, GiveUp(2), true, false);
    assert Three(n', LeaderState(CHANGING, 1), LeaderState(READY, 5), LeaderState(FREE, 9),
      Inviting({}, {}), Refused, Idle);
    n' := Then(n0, n', Abort(1), true, false);
  }

  lemma {:induction false} SmallerTakesOver(n0: Net, n: Net) returns (n': Net)
    requires CanReach(n0, n, true, false)
    requires Three(n, LeaderState(CHANGING, 1), LeaderState(READY, 0), LeaderState(FREE, 9),
      Inviting({}, {}), Inviting({}, {}), Idle)
    ensures CanReach(n0, n', true, false)
    ensures Three(n', LeaderState(CHANGING, 1), LeaderState(CHANGING, 0), LeaderState(CHANGING, 9),
      Inviting({1, 2}, {1, 2}), Inviting({}, {}), Idle)
  {
    n' := Then(n0, n, Invite(0, 1), true, false);
    assert Three(n', LeaderState(CHANGING, 1), LeaderState(CHANGING, 0), LeaderState(FREE, 9),
      Inviting({1}, {1}), Inviting({}, {}), Idle);
    n' := Then(n0, n', Invite(0, 2), true, false);
  }

  lemma {:induction false} OverriddenGrants(n0: Net, n: Net) returns (n': Net)
    requires CanReach(n0, n, true, false)
    requires Three(n, LeaderState(CHANGING, 1), LeaderState(CHANGING, 0), LeaderState(CHANGING, 9),
      Inviting({1, 2}, {1, 2}), Inviting({}, {}), Idle)
    ensures CanReach(n0, n', true, false)
    ensures Three(n', LeaderState(CHANGING, 1), LeaderState(CHANGING, 0), LeaderState(CHANGING, 9),
      Inviting({1, 2}, {1, 2}), Inviting({0}, {0}), Idle)
  {
    n' := Then(n0, n, Invite(1, 0), true, false);
  }

  lemma {:induction false} BothAreGranted(n0: Net, n: Net) returns (n': Net)
    requires CanReach(n0, n, true, false)
    requires Three(n, LeaderState(CHANGING, 1), LeaderState(CHANGING, 0), LeaderState(CHANGING, 9),
      Inviting({1, 2}, {1, 2}), Inviting({0}, {0}), Idle)
    ensures CanReach(n0, n', true, false)
    ensures Three(n', LeaderState(CHANGING, 1), LeaderState(CHANGING, 0), LeaderState(CHANGING, 9),
      Inviting({1, 2}, {1, 2}), Inviting({0, 2}, {0, 2}), Idle)
  {
    n' := Then(n0, n, Invite(1, 2), true, false);
  }

  lemma {:induction false} SecondRestarts(n0: Net, n: Net) returns (n': Net)
    requires CanReach(n0, n, true, false)
    requires Three(n, LeaderState(CHANGING, 1), LeaderState(FREE, 5), LeaderState(FREE, 9),
      Inviting({}, {}), Idle, Idle)
    ensures CanReach(n0, n', true, false)
    ensures Three(n', LeaderState(CHANGING, 1), LeaderState(READY, 0), LeaderState(FREE, 9),
      Inviting({}, {}), Inviting({}, {}), Idle)
  {
    n' := Then(n0, n, Start(1, 0), true, false);
  }

  lemma {:induction false} Stranded() returns (n0: Net, n: Net)
    ensures Initial(n0) && CanReach(n0, n, true, false)
    ensures Three(n, LeaderState(CHANGING, 1), LeaderState(FREE, 5), LeaderState(FREE, 9), Inviting({}, {}), Idle, Idle)
  {
    n0 := ThreeFree(true, false);
    n := ThreeAtOnce(n0, n0);
    n := SecondIsRefused(n0, n);
    n := ThirdReachesNobody(n0, n);
    n := BothGiveUp(n0, n);
  }

  /** When the largest round reaches nobody and gives up, a round it had overridden may be left with
      no READY leader at all. */
  lemma {:induction false} SilentEndStrandsARound() returns (n0: Net, steps: seq<Step>, n: Net)
    ensures Reached(n0, steps, n) && Active(n, 0) && forall r :: !Leads(n, r)
  {
    n0, n := Stranded();
    steps :| LeadsTo(n0, steps, n) && FreshIds(n0, steps);
  }

  /** Then two initiators can be granted by all, neither of them READY, although all ids differ. */
  lemma {:induction false} SilentEndAllowsTwoWinners() returns (n0: Net, steps: seq<Step>, n: Net)
    ensures Reached(n0, steps, n) && GrantedByAll(n, 0) && GrantedByAll(n, 1)
    ensures n.leaders[0].status == n.leaders[1].status == CHANGING
  {
    n0, n := Stranded();
    n := SecondRestarts(n0, n);
    n := SmallerTakesOver(n0, n);
    n := OverriddenGrants(n0, n);
    n := BothAreGranted(n0, n);
    steps :| LeadsTo(n0, steps, n) && FreshIds(n0, steps);
  }

  lemma {:induction false} TwoWithOneId(n0: Net, n: Net) returns (n': Net)
    requires CanReach(n0, n, false, true)
    requires Three(n, LeaderState(FREE, 0), LeaderState(FREE, 0), LeaderState(FREE, 0),
      Idle, Idle, Idle)
    ensures CanReach(n0, n', false, true)
    ensures Three(n', LeaderState(READY, 1), LeaderState(READY, 5), LeaderState(READY, 5),
      Inviting({}, {}), Inviting({}, {}), Inviting({}, {}))
  {
    n' := n;
    n' := Then(n0, n', Start(0, 1), false, true);
    assert Three(n', LeaderState(READY, 1), LeaderState(FREE, 0), LeaderState(FREE, 0),
      Inviting({}, {}), Idle, Idle);
    n' := Then(n0, n', Start(1, 5), false, true);
    assert Three(n', LeaderState(READY, 1), LeaderState(READY, 5), LeaderState(FREE, 0),
      Inviting({}, {}), Inviting({}, {}), Idle);
    n' := Then(n0, n', Start(2, 5), false, true);
  }

  lemma {:induction false} OverrideTheThird(n0: Net, n: Net) returns (n': Net)
    requires CanReach(n0, n, false, true)
    requires Three(n, LeaderState(READY, 1), LeaderState(READY, 5), LeaderState(READY, 5),
      Inviting({}, {}), Inviting({}, {}), Inviting({}, {}))
    ensures CanReach(n0, n', false, true)
    ensures Three(n', LeaderState(CHANGING, 1), LeaderState(READY, 5), LeaderState(READY, 5),
      Inviting({}, {}), Inviting({0}, {0}), Inviting({}, {}))
  {
    n' := n;
    n' := Then(n0, n', Invite(1, 0), false, true);
  }

  lemma {:induction false} RefuseEachOther(n0: Net, n: Net) returns (n': Net)
    requires CanReach(n0, n, false, true)
    requires Three(n, LeaderState(CHANGING, 1), LeaderState(READY, 5), LeaderState(READY, 5),
      Inviting({}, {}), Inviting({0}, {0}), Inviting({}, {}))
    ensures CanReach(n0, n', false, true)
    ensures Three(n', LeaderState(CHANGING, 1), LeaderState(READY, 5), LeaderState(READY, 5),
      Inviting({}, {}), Refused, Refused)
  {
    n' := n;
    n' := Then(n0, n', Invite(1, 2), false, true);
    assert Three(n', LeaderState(CHANGING, 1), LeaderState(READY, 5), LeaderState(READY, 5),
      Inviting({}, {}), Refused, Inviting({}, {}));
    n' := Then(n0, n', Invite(2, 1), false, true);
  }

  lemma {:induction false} GiveUpAndRestart(n0: Net, n: Net) returns (n': Net)
    requires CanReach(n0, n, false, true)
    requires Three(n, LeaderState(CHANGING, 1), LeaderState(READY, 5), LeaderState(READY, 5),
      Inviting({}, {}), Refused, Refused)
    ensures CanReach(n0, n', false, true)
    ensures Three(n', LeaderState(CHANGING, 1), LeaderState(READY, 0), LeaderState(FREE, 5),
      Inviting({}, {}), Inviting({}, {}), Idle)
  {
    n' := n;
    n' := Then(n0, n', Abort(1), false, true);
    assert Three(n', LeaderState(CHANGING, 1), LeaderState(FREE, 5), LeaderState(READY, 5),
      Inviting({}, {}), Idle, Refused);
    n' := Then(n0, n', Abort(2), false, true);
    assert Three(n', LeaderState(CHANGING, 1), LeaderState(FREE, 5), LeaderState(FREE, 5),
      Inviting({}, {}), Idle, Idle);
    n' := Then(n0, n', Start(1, 0), false, true);
  }

  lemma {:induction false} FirstIsGranted(n0: Net, n: Net) returns (n': Net)
    requires CanReach(n0, n, false, true)
    requires Three(n, LeaderState(CHANGING, 1), LeaderState(READY, 0), LeaderState(FREE, 5),
      Inviting({}, {}), Inviting({}, {}), Idle)
    ensures CanReach(n0, n', false, true)
    ensures Three(n', LeaderState(CHANGING, 1), LeaderState(CHANGING, 0), LeaderState(CHANGING, 5),
      Inviting({1, 2}, {1, 2}), Inviting({}, {}), Idle)
  {
    n' := n;
    n' := Then(n0, n', Invite(0, 1), false, true);
    assert Three(n', LeaderState(CHANGING, 1), LeaderState(CHANGING, 0), LeaderState(FREE, 5),
      Inviting({1}, {1}), Inviting({}, {}), Idle);
    n' := Then(n0, n', Invite(0, 2), false, true);
  }

  lemma {:induction false} SecondIsGranted(n0: Net, n: Net) returns (n': Net)
    requires CanReach(n0, n, false, true)
    requires Three(n, LeaderState(CHANGING, 1), LeaderState(CHANGING, 0), LeaderState(CHANGING, 5),
      Inviting({1, 2}, {1, 2}), Inviting({}, {}), Idle)
    ensures CanReach(n0, n', false, true)
    ensures Three(n', LeaderState(CHANGING, 1), LeaderState(CHANGING, 0), LeaderState(CHANGING, 5),
      Inviting({1, 2}, {1, 2}), Inviting({0, 2}, {0, 2}), Idle)
  {
    n' := n;
    n' := Then(n0, n', Invite(1, 0), false, true);
    assert Three(n', LeaderState(CHANGING, 1), LeaderState(CHANGING, 0), LeaderState(CHANGING, 5),
      Inviting({1, 2}, {1, 2}), Inviting({0}, {0}), Idle);
    n' := Then(n0, n', Invite(1, 2), false, true);
  }

  /** With a repeated id two broadcasts can both succeed although everybody answers: the two rounds
      of equal id refuse each other, and a smaller one that was overridden goes on. */
  lemma {:induction false} RepeatedIdAllowsTwoWinners() returns (n0: Net, steps: seq<Step>, n: Net)
    ensures Initial(n0) && LeadsTo(n0, steps, n) && AllReached(steps) && Wins(n, 0) && Wins(n, 1)
  {
    n0 := ThreeFree(false, true);
    n := TwoWithOneId(n0, n0);
    n := OverrideTheThird(n0, n);
    n := RefuseEachOther(n0, n);
    n := GiveUpAndRestart(n0, n);
    n := FirstIsGranted(n0, n);
    n := SecondIsGranted(n0, n);
    steps :| LeadsTo(n0, steps, n) && AllReached(steps);
  }
}
