/** What the states of the invitation phase say about the run that led to them: every leader is in the state
    its own selector is in after the events that reached it, and a round holds exactly the leaders it
    has asked and those whose consent has arrived. */
module ProtocolHistory {
  import S = Selection
  import opened SelectionProtocol

  /** What a step is for the selector of leader `l`. */
  ghost function EventsOf(n: Net, step: Step, l: Leader): seq<S.Event>
    requires WellFormed(n) && Enabled(n, step)
  {
    match step
    case Start(o, id) => if o == l then [S.BeginTried(id)] else []
    case Invite(o, q) => if q == l then [S.Invited(n.leaders[o].id)] else []
    case Skip(o, q) => []
    case Lost(o, q) => if q == l then [S.Invited(n.leaders[o].id)] else []
    case Abort(o) => if o == l then [S.Event.GivenUp] else []
    case GiveUp(o) => if o == l then [S.Event.GivenUp] else []
  }

  ghost function Happened(n: Net, steps: seq<Step>, l: Leader): seq<S.Event>
    requires Runs(n, steps)
    decreases |steps|
  {
    if steps == [] then [] else EventsOf(n, steps[0], l) + Happened(Apply(n, steps[0]), steps[1..], l)
  }

  lemma {:induction false} StepIsEvent(n: Net, step: Step, l: Leader, past: seq<S.Event>)
    requires WellFormed(n) && Enabled(n, step) && l in n.leaders && n.leaders[l] == S.AfterEvents(past).state
    ensures l in Apply(n, step).leaders
    ensures Apply(n, step).leaders[l] == S.AfterEvents(past + EventsOf(n, step, l)).state
  {
    var es := EventsOf(n, step, l);
    if es == [] {
      assert past + es == past;
    } else {
      assert (past + es)[..|past|] == past && (past + es)[|past|] == es[0];
    }
  }

  lemma {:induction false} RunIsEvents(n: Net, steps: seq<Step>, l: Leader, past: seq<S.Event>)
    requires Runs(n, steps) && l in n.leaders && n.leaders[l] == S.AfterEvents(past).state
    ensures l in Final(n, steps).leaders
    ensures Final(n, steps).leaders[l] == S.AfterEvents(past + Happened(n, steps, l)).state
    decreases |steps|
  {
    if steps == [] {
      assert past + Happened(n, steps, l) == past;
    } else {
      var es, next := EventsOf(n, steps[0], l), Apply(n, steps[0]);
      StepIsEvent(n, steps[0], l, past);
      RunIsEvents(next, steps[1..], l, past + es);
      Joined(past, es, Happened(next, steps[1..], l));
      assert Happened(n, steps, l) == es + Happened(next, steps[1..], l);
      assert Final(n, steps) == Final(next, steps[1..]);
    }
  }

  lemma {:induction false} Joined(a: seq<S.Event>, b: seq<S.Event>, c: seq<S.Event>)
    ensures a + (b + c) == a + b + c
  {}

  /** In every run a leader that begins fresh is in the state of its selector after its own events; so it is
      free, inviting or taken by another round exactly as these say. */
  lemma {:induction false} LeadersFollowTheirEvents(n: Net, steps: seq<Step>, l: Leader)
    requires Runs(n, steps) && l in n.leaders && n.leaders[l] == S.FRESH.state
    ensures l in Final(n, steps).leaders
    ensures var s, events := Final(n, steps).leaders[l], Happened(n, steps, l);
      && s == S.AfterEvents(events).state
      && (s.status == S.FREE <==> S.Idle(events))
      && (forall r :: s.status == S.READY && s.id == r <==> S.Inviting(events, r))
      && (s.status == S.CHANGING <==> S.Engaged(events))
  {
    RunIsEvents(n, steps, l, []);
    assert [] + Happened(n, steps, l) == Happened(n, steps, l);
    S.StatusIsThePast(Happened(n, steps, l));
  }

  // ----- Who has been asked

  /** From step `i` on leader `o` began no further round. */
  ghost predicate SameRound(steps: seq<Step>, o: Leader, i: nat) {
    forall j | i <= j < |steps| :: !(steps[j].Start? && steps[j].o == o)
  }

  /** In its latest round `o` turned to `q`, whether or not `q` was reached. */
  ghost predicate TurnedTo(steps: seq<Step>, o: Leader, q: Leader) {
    exists i: nat :: i < |steps| && SameRound(steps, o, i) && steps[i] in {Invite(o, q), Skip(o, q), Lost(o, q)}
  }

  /** In its latest round `o` received an answer from `q`. */
  ghost predicate Answered(steps: seq<Step>, o: Leader, q: Leader) {
    exists i: nat :: i < |steps| && SameRound(steps, o, i) && steps[i] == Invite(o, q)
  }

  lemma {:induction false} TurnedToOneMore(steps: seq<Step>, step: Step, o: Leader, q: Leader)
    ensures TurnedTo(steps + [step], o, q) <==>
      step in {Invite(o, q), Skip(o, q), Lost(o, q)} || (TurnedTo(steps, o, q) && !(step.Start? && step.o == o))
    ensures Answered(steps + [step], o, q) <==>
      step == Invite(o, q) || (Answered(steps, o, q) && !(step.Start? && step.o == o))
  {
    var all, k := steps + [step], |steps|;
    assert all[k] == step && forall j | 0 <= j < k :: all[j] == steps[j];
    forall i: nat | i < k ensures SameRound(all, o, i) <==> SameRound(steps, o, i) && !(step.Start? && step.o == o) {
      SameRoundOneMore(steps, step, o, i);
    }
    assert SameRound(all, o, k) <==> !(step.Start? && step.o == o);
    if i: nat :| i < k && SameRound(steps, o, i) && steps[i] in {Invite(o, q), Skip(o, q), Lost(o, q)} {
      assert all[i] == steps[i];
    }
    if i: nat :| i < k && SameRound(steps, o, i) && steps[i] == Invite(o, q) {
      assert all[i] == steps[i];
    }
  }

  lemma {:induction false} SameRoundOneMore(steps: seq<Step>, step: Step, o: Leader, i: nat)
    requires i < |steps|
    ensures SameRound(steps + [step], o, i) <==> SameRound(steps, o, i) && !(step.Start? && step.o == o)
  {
    var all, k := steps + [step], |steps|;
    assert all[k] == step && forall j | 0 <= j < k :: all[j] == steps[j];
  }

  /** While `o` invites, it has asked those it turned to and holds the consent of those that answered. */
  ghost predicate RoundIs(n: Net, past: seq<Step>, o: Leader) {
    o in n.rounds && n.rounds[o].Inviting? ==>
      && (forall q :: q in n.rounds[o].asked <==> TurnedTo(past, o, q))
      && (forall q :: q in n.rounds[o].granted <==> Answered(past, o, q))
  }

  lemma {:induction false} RoundOneMore(n: Net, past: seq<Step>, step: Step, o: Leader)
    requires WellFormed(n) && Enabled(n, step) && RoundIs(n, past, o)
    ensures RoundIs(Apply(n, step), past + [step], o)
  {
    forall q
      ensures TurnedTo(past + [step], o, q) <==>
        step in {Invite(o, q), Skip(o, q), Lost(o, q)} || (TurnedTo(past, o, q) && !(step.Start? && step.o == o))
      ensures Answered(past + [step], o, q) <==>
        step == Invite(o, q) || (Answered(past, o, q) && !(step.Start? && step.o == o))
    {
      TurnedToOneMore(past, step, o, q);
    }
  }

  lemma {:induction false} RoundOverRun(n: Net, past: seq<Step>, steps: seq<Step>, o: Leader)
    requires Runs(n, steps) && RoundIs(n, past, o)
    ensures RoundIs(Final(n, steps), past + steps, o)
    decreases |steps|
  {
    if steps == [] {
      assert past + steps == past;
    } else {
      RoundOneMore(n, past, steps[0], o);
      RoundOverRun(Apply(n, steps[0]), past + [steps[0]], steps[1..], o);
      assert past + steps == past + [steps[0]] + steps[1..];
    }
  }

  /** In every run an inviting leader has asked exactly those it turned to since it began the round, and
      holds the consent of exactly those whose answer arrived: a refusal ends the inviting. */
  lemma {:induction false} RoundIsItsSteps(n: Net, steps: seq<Step>, o: Leader)
    requires Initial(n) && Runs(n, steps)
    ensures RoundIs(Final(n, steps), steps, o)
  {
    RoundOverRun(n, [], steps, o);
    assert [] + steps == steps;
  }
}
