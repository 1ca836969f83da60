/** The state one leader keeps for leader selection: a status, the id of its own round and the
    proposals received. Each critical section of the program is one method. */
module Selection {
  import opened KeptPositions

  datatype Status = FREE | READY | STARTED | RECEIVED | CHANGING

  /** The id is that of the leader's own latest round. */
  datatype LeaderState = LeaderState(status: Status, id: int)

  datatype Node = Node(id: string, ip: string, port: string)

  datatype LeaderUpdate = LeaderUpdate(selected: seq<Node>, cost: real, changes: int, id: int)

  const NO_UPDATE := LeaderUpdate([], 0.0, 0, 0)

  // ----- The decisions, as functions

  /** An invitation is refused only by a leader about to start a round of its own whose id is not
      smaller. */
  predicate Grants(s: LeaderState, id: int) {
    !(s.status == READY && s.id >= id)
  }

  function AfterInit(s: LeaderState, id: int): LeaderState {
    if Grants(s, id) then s.(status := CHANGING) else s
  }

  function AfterBegin(s: LeaderState, id: int): LeaderState {
    if s.status == FREE then LeaderState(READY, id) else s
  }

  function AfterAbort(s: LeaderState): LeaderState {
    if s.status == READY then s.(status := FREE) else s
  }

  // ----- Choosing among proposals

  /** `u` beats `v`: smaller cost, or the same cost with fewer changes. */
  predicate Better(u: LeaderUpdate, v: LeaderUpdate) {
    u.cost < v.cost || (u.cost == v.cost && u.changes < v.changes)
  }

  /** Update `k` is a proposal for the round that beats the own selection and all earlier proposals for the
      round, and that no later one beats. */
  ghost predicate FirstBest(own: LeaderUpdate, updates: seq<LeaderUpdate>, round: int, k: nat) {
    && k < |updates| && updates[k].id == round && Better(updates[k], own)
    && (forall j | 0 <= j < k && updates[j].id == round :: Better(updates[k], updates[j]))
    && (forall j | k < j < |updates| && updates[j].id == round :: !Better(updates[j], updates[k]))
  }

  /** `best` is the leader's own selection when no proposal for its round beats that, and otherwise the first
      of the best ones. */
  ghost predicate IsBest(best: LeaderUpdate, own: LeaderUpdate, updates: seq<LeaderUpdate>, round: int) {
    || (best == own && forall j | 0 <= j < |updates| && updates[j].id == round :: !Better(updates[j], own))
    || (exists k: nat :: FirstBest(own, updates, round, k) && best == updates[k])
  }

  /** The choice costs no more than the own selection and every proposal for the round, and at equal cost
      makes no more changes. */
  lemma {:induction false} BestIsCheapest(best: LeaderUpdate, own: LeaderUpdate, updates: seq<LeaderUpdate>,
      round: int, u: LeaderUpdate)
    requires IsBest(best, own, updates, round) && (u == own || (u in updates && u.id == round))
    ensures best.cost < u.cost || (best.cost == u.cost && best.changes <= u.changes)
    ensures best == own || (best in updates && best.id == round
      && (best.cost < own.cost || (best.cost == own.cost && best.changes < own.changes)))
  {
    if u != own {
      var j :| 0 <= j < |updates| && updates[j] == u;
    }
  }

  /** There is only one such choice. */
  lemma {:induction false} BestIsUnique(a: LeaderUpdate, b: LeaderUpdate, own: LeaderUpdate,
      updates: seq<LeaderUpdate>, round: int)
    requires IsBest(a, own, updates, round) && IsBest(b, own, updates, round)
    ensures a == b
  {
    if i: nat :| FirstBest(own, updates, round, i) && a == updates[i] {
      if k: nat :| FirstBest(own, updates, round, k) && b == updates[k] {
        assert i == k;
      }
    }
  }

  /** One more proposal. */
  lemma {:induction false} BestOneMore(best: LeaderUpdate, own: LeaderUpdate, updates: seq<LeaderUpdate>, round: int,
      u: LeaderUpdate)
    requires IsBest(best, own, updates, round)
    ensures IsBest(if u.id == round && Better(u, best) then u else best, own, updates + [u], round)
  {
    var all, n := updates + [u], |updates|;
    assert all[n] == u && forall j | 0 <= j < n :: all[j] == updates[j];
    if u.id == round && Better(u, best) {
      assert FirstBest(own, all, round, n);
    } else if k: nat :| FirstBest(own, updates, round, k) && best == updates[k] {
      assert FirstBest(own, all, round, k);
    }
  }

  /** A leader whose own computation failed holds the empty proposal of cost zero, which beats
      every proposal received unless one has a negative cost, or cost zero and fewer than zero
      changes. */
  lemma {:induction false} FailedOwnSelectionStands(best: LeaderUpdate, updates: seq<LeaderUpdate>, round: int)
    requires IsBest(best, NO_UPDATE, updates, round)
    ensures best == NO_UPDATE <==>
      forall u | u in updates && u.id == round :: u.cost > 0.0 || (u.cost == 0.0 && u.changes >= 0)
  {
    if u :| u in updates && u.id == round && !(u.cost > 0.0 || (u.cost == 0.0 && u.changes >= 0)) {
      BestIsCheapest(best, NO_UPDATE, updates, round, u);
    }
    BestIsCheapest(best, NO_UPDATE, updates, round, NO_UPDATE);
  }

  predicate Chosen(node: Node, selected: seq<Node>) {
    exists i | 0 <= i < |selected| :: selected[i].id == node.id
  }

  /** The known nodes whose id was selected, in storage order. */
  function Resolved(nodes: seq<Node>, selected: seq<Node>): (r: seq<Node>)
    ensures forall n :: n in r <==> n in nodes && Chosen(n, selected)
  {
    if nodes == [] then []
    else (if Chosen(nodes[0], selected) then [nodes[0]] else []) + Resolved(nodes[1..], selected)
  }

  ghost predicate DistinctIds(nodes: seq<Node>) {
    forall i, j | 0 <= i < j < |nodes| :: nodes[i].id != nodes[j].id
  }

  lemma {:induction false} ResolvedHasNoDuplicates(nodes: seq<Node>, selected: seq<Node>)
    requires DistinctIds(nodes)
    ensures DistinctIds(Resolved(nodes, selected))
  {
    if nodes != [] {
      var tail := Resolved(nodes[1..], selected);
      ResolvedHasNoDuplicates(nodes[1..], selected);
      forall j | 0 <= j < |tail| ensures tail[j].id != nodes[0].id {
        assert tail[j] in nodes[1..];
      }
    }
  }

  lemma {:induction false} ResolvedSnoc(nodes: seq<Node>, node: Node, selected: seq<Node>)
    ensures Resolved(nodes + [node], selected) ==
      Resolved(nodes, selected) + (if Chosen(node, selected) then [node] else [])
  {
    if nodes == [] {
      assert [node][1..] == [];
    } else {
      assert (nodes + [node])[1..] == nodes[1..] + [node];
      ResolvedSnoc(nodes[1..], node, selected);
    }
  }

  ghost function IsChosen(nodes: seq<Node>, selected: seq<Node>): nat -> bool {
    (i: nat) => i < |nodes| && Chosen(nodes[i], selected)
  }

  ghost predicate NodesAt(nodes: seq<Node>, at: seq<nat>, r: seq<Node>) {
    |r| == |at| && forall i | 0 <= i < |at| :: at[i] < |nodes| && r[i] == nodes[at[i]]
  }

  lemma {:induction false} NodesOneMore(nodes: seq<Node>, node: Node, at: seq<nat>, r: seq<Node>)
    requires NodesAt(nodes, at, r)
    ensures NodesAt(nodes + [node], at, r) && NodesAt(nodes + [node], at + [|nodes|], r + [node])
  {}

  /** The chosen nodes are listed in storage order, each as often as it is stored. */
  lemma {:induction false} ResolvedInOrder(nodes: seq<Node>, selected: seq<Node>) returns (at: seq<nat>)
    ensures Lists(at, |nodes|, IsChosen(nodes, selected)) && NodesAt(nodes, at, Resolved(nodes, selected))
  {
    at := [];
    if nodes != [] {
      var before, node := nodes[..|nodes| - 1], nodes[|nodes| - 1];
      at := ResolvedInOrder(before, selected);
      assert nodes == before + [node];
      ResolvedSnoc(before, node, selected);
      NodesOneMore(before, node, at, Resolved(before, selected));
      ListsOneMore(at, |before|, IsChosen(before, selected), IsChosen(nodes, selected));
      if Chosen(node, selected) {
        at := at + [|before|];
      } else {
        assert Resolved(nodes, selected) == Resolved(before, selected);
      }
    }
  }

  // ----- The answers to an invitation broadcast

  datatype Answer = Positive | Negative | Unreachable

  /** Whether a broadcast succeeds: nobody declines, and somebody accepts unless there is nobody
      to ask. */
  ghost predicate Succeeds(nodes: seq<string>, me: string, answers: seq<Answer>)
    requires |nodes| == |answers|
  {
    && (forall i | 0 <= i < |nodes| && nodes[i] != me :: answers[i] != Negative)
    && ((exists i | 0 <= i < |nodes| :: nodes[i] != me && answers[i] == Positive)
        || forall i | 0 <= i < |nodes| :: nodes[i] == me)
  }

  /** Sends to every known leader but oneself until one declines; a leader that cannot be reached
      is passed over. */
  method NotifyAllM(nodes: seq<string>, me: string, answers: seq<Answer>) returns (ok: bool)
    requires |nodes| == |answers|
    ensures ok <==> Succeeds(nodes, me, answers)
  {
    var n, num := 0, 0;
    for k := 0 to |nodes|
      invariant forall i | 0 <= i < k && nodes[i] != me :: answers[i] != Negative
      invariant n >= 0 && num >= 0
      invariant n == 0 <==> forall i | 0 <= i < k :: nodes[i] == me
      invariant num > 0 <==> exists i | 0 <= i < k :: nodes[i] != me && answers[i] == Positive
    {
      if nodes[k] == me {
        continue;
      }
      n := n + 1;
      if answers[k] == Positive {
        num := num + 1;
      } else if answers[k] == Negative {
        return false;
      }
    }
    if n == 0 {
      return true;
    }
    return num > 0;
  }

  /** When every leader answers, a broadcast succeeds exactly when all of them accept. */
  lemma {:induction false} AllReachableSucceeds(nodes: seq<string>, me: string, answers: seq<Answer>)
    requires |nodes| == |answers|
    requires forall i | 0 <= i < |nodes| && nodes[i] != me :: answers[i] != Unreachable
    ensures Succeeds(nodes, me, answers) <==> forall i | 0 <= i < |nodes| && nodes[i] != me :: answers[i] == Positive
  {}

  // ----- The life of one leader's selection

  /** What happens to a leader: it is invited, tries to begin a round, gives one up, has sent its
      START, receives one, receives a proposal, or a round or computation ends. */
  datatype Event =
    | Invited(id: int)
    | BeginTried(random: int)
    | GivenUp
    | StartSent
    | StartReceived
    | Proposed(update: LeaderUpdate)
    | Ended

  datatype View = View(state: LeaderState, updates: seq<LeaderUpdate>)

  const FRESH := View(LeaderState(FREE, 0), [])

  function AfterEvent(v: View, e: Event): View {
    match e
    case Invited(id) => v.(state := AfterInit(v.state, id))
    case BeginTried(random) => View(AfterBegin(v.state, random), [])
    case GivenUp => v.(state := AfterAbort(v.state))
    case StartSent => v.(state := v.state.(status := STARTED))
    case StartReceived => if v.state.status == CHANGING then v.(state := v.state.(status := RECEIVED)) else v
    case Proposed(u) => if v.state.status == STARTED then v.(updates := v.updates + [u]) else v
    case Ended => v.(state := v.state.(status := FREE))
  }

  ghost function AfterEvents(events: seq<Event>): View {
    if events == [] then FRESH else AfterEvent(AfterEvents(events[..|events| - 1]), events[|events| - 1])
  }

  // ----- What the status says about the past

  /** Nothing of a kind happened from event `i` on. */
  ghost predicate NoneSince(events: seq<Event>, i: nat, kind: Event -> bool) {
    forall j | i <= j < |events| :: !kind(events[j])
  }

  ghost function Disturbing(): Event -> bool { (e: Event) => e.Invited? || e.Ended? }
  ghost function Engaging(): Event -> bool { (e: Event) => e.BeginTried? || e.Invited? || e.StartSent? }
  ghost function Overriding(r: int): Event -> bool {
    (e: Event) => (e.Invited? && e.id > r) || e.GivenUp? || e.StartSent? || e.Ended?
  }
  ghost function Advancing(): Event -> bool { (e: Event) => e.StartSent? || e.StartReceived? || e.Ended? }
  ghost function Leaving(): Event -> bool { (e: Event) => e.Invited? || e.StartSent? || e.Ended? }

  /** The own START was sent, and nothing has disturbed the round since: no invitation, no end of a round. */
  ghost predicate Running(events: seq<Event>) {
    exists i: nat :: i < |events| && events[i].StartSent? && NoneSince(events, i + 1, Disturbing())
  }

  /** Nothing was begun, granted or sent since the start, since the last end of a round, or since a round
      that still asked others was given up. */
  ghost predicate Idle(events: seq<Event>)
    decreases |events|, 1
  {
    exists i: nat :: i <= |events| && Released(events, i) && NoneSince(events, i, Engaging())
  }

  ghost predicate Released(events: seq<Event>, i: nat)
    requires i <= |events|
    decreases |events|, 0
  {
    i == 0 || events[i - 1].Ended? || (events[i - 1].GivenUp? && Asking(events[..i - 1]))
  }

  /** A round with id `r` was begun when idle, and since then no larger one invited, it was neither given
      up nor started, and no round ended. */
  ghost predicate Inviting(events: seq<Event>, r: int)
    decreases |events|, 0
  {
    exists i: nat :: i < |events| && events[i] == BeginTried(r) && Idle(events[..i])
      && NoneSince(events, i + 1, Overriding(r))
  }

  ghost predicate Asking(events: seq<Event>)
    decreases |events|, 1
  {
    exists r :: Inviting(events, r)
  }

  /** The invitation was not refused for an own round that asks others and has no smaller id. */
  ghost predicate Granted(events: seq<Event>, id: int) {
    forall r | Inviting(events, r) :: r < id
  }

  /** A round was granted, and since then no START was sent or received and no round has ended. */
  ghost predicate Engaged(events: seq<Event>) {
    exists i: nat :: i < |events| && events[i].Invited? && Granted(events[..i], events[i].id)
      && NoneSince(events, i + 1, Advancing())
  }

  /** The START of a granted round was received, and since then nobody invited, no START was sent and no
      round has ended. */
  ghost predicate TakingPart(events: seq<Event>) {
    exists i: nat :: i < |events| && events[i].StartReceived? && Engaged(events[..i])
      && NoneSince(events, i + 1, Leaving())
  }

  /** Looking back over one more event. */
  lemma {:induction false} LookBack(events: seq<Event>, e: Event)
    ensures var all := events + [e];
      && |all| == |events| + 1 && all[|events|] == e && all[..|events|] == events
      && (forall i | 0 <= i < |events| :: all[i] == events[i] && all[..i] == events[..i])
      && (forall i: nat, kind | i <= |events| ::
        NoneSince(all, i, kind) <==> NoneSince(events, i, kind) && !kind(e))
      && (forall kind :: NoneSince(all, |all|, kind))
  {
    var all := events + [e];
    forall i | 0 <= i < |events| ensures all[..i] == events[..i] {}
    forall i: nat, kind | i <= |events| ensures NoneSince(all, i, kind) <==> NoneSince(events, i, kind) && !kind(e) {
      assert NoneSince(all, i, kind) ==> !kind(all[|events|]);
      assert forall j | i <= j < |events| :: all[j] == events[j];
    }
  }

  lemma {:induction false} RunningOneMore(events: seq<Event>, e: Event)
    ensures Running(events + [e]) <==> e.StartSent? || (Running(events) && !e.Invited? && !e.Ended?)
  {
    LookBack(events, e);
    var all, k := events + [e], |events|;
    if Running(all) && !e.StartSent? {
      var i: nat :| i < |all| && all[i].StartSent? && NoneSince(all, i + 1, Disturbing());
      assert i < k && NoneSince(events, i + 1, Disturbing());
    }
    if e.StartSent? {
      assert all[k].StartSent?;
    } else if Running(events) && !e.Invited? && !e.Ended? {
      var i: nat :| i < k && events[i].StartSent? && NoneSince(events, i + 1, Disturbing());
      assert all[i].StartSent? && NoneSince(all, i + 1, Disturbing());
    }
  }

  lemma {:induction false} IdleOneMore(events: seq<Event>, e: Event)
    ensures Idle(events + [e]) <==>
      e.Ended? || (e.GivenUp? && Asking(events)) || (Idle(events) && !e.BeginTried? && !e.Invited? && !e.StartSent?)
  {
    LookBack(events, e);
    var all, k := events + [e], |events|;
    assert Released(all, k + 1) <==> e.Ended? || (e.GivenUp? && Asking(events));
    forall i: nat | i <= k ensures Released(all, i) <==> Released(events, i) {}
    if Idle(all) {
      var i: nat :| i <= |all| && Released(all, i) && NoneSince(all, i, Engaging());
      if i <= k { assert NoneSince(events, i, Engaging()); }
    }
    if Released(all, k + 1) {
      assert NoneSince(all, k + 1, Engaging());
    } else if Idle(events) && !e.BeginTried? && !e.Invited? && !e.StartSent? {
      var i: nat :| i <= k && Released(events, i) && NoneSince(events, i, Engaging());
      assert Released(all, i) && NoneSince(all, i, Engaging());
    }
  }

  lemma {:induction false} InvitingOneMore(events: seq<Event>, e: Event, r: int)
    ensures Inviting(events + [e], r) <==>
      (e == BeginTried(r) && Idle(events)) ||
      (Inviting(events, r) && !(e.Invited? && e.id > r) && !e.GivenUp? && !e.StartSent? && !e.Ended?)
  {
    LookBack(events, e);
    var all, k := events + [e], |events|;
    if Inviting(all, r) {
      var i: nat :| i < |all| && all[i] == BeginTried(r) && Idle(all[..i]) && NoneSince(all, i + 1, Overriding(r));
      if i < k { assert events[i] == BeginTried(r) && NoneSince(events, i + 1, Overriding(r)); }
    }
    if e == BeginTried(r) && Idle(events) {
      assert all[k] == BeginTried(r) && NoneSince(all, k + 1, Overriding(r));
    } else if Inviting(events, r) && !Overriding(r)(e) {
      var i: nat :| i < k && events[i] == BeginTried(r) && Idle(events[..i]) && NoneSince(events, i + 1, Overriding(r));
      assert all[i] == BeginTried(r) && NoneSince(all, i + 1, Overriding(r));
    }
  }

  lemma {:induction false} EngagedOneMore(events: seq<Event>, e: Event)
    ensures Engaged(events + [e]) <==>
      (e.Invited? && Granted(events, e.id)) ||
      (Engaged(events) && !e.StartSent? && !e.StartReceived? && !e.Ended?)
  {
    LookBack(events, e);
    var all, k := events + [e], |events|;
    if Engaged(all) {
      var i: nat :| i < |all| && all[i].Invited? && Granted(all[..i], all[i].id) && NoneSince(all, i + 1, Advancing());
      if i < k { assert events[i].Invited? && NoneSince(events, i + 1, Advancing()); }
    }
    if e.Invited? && Granted(events, e.id) {
      assert all[k].Invited? && NoneSince(all, k + 1, Advancing());
    } else if Engaged(events) && !Advancing()(e) {
      var i: nat :|
        i < k && events[i].Invited? && Granted(events[..i], events[i].id) && NoneSince(events, i + 1, Advancing());
      assert all[i].Invited? && NoneSince(all, i + 1, Advancing());
    }
  }

  lemma {:induction false} TakingPartOneMore(events: seq<Event>, e: Event)
    ensures TakingPart(events + [e]) <==>
      (e.StartReceived? && Engaged(events)) ||
      (TakingPart(events) && !e.Invited? && !e.StartSent? && !e.Ended?)
  {
    LookBack(events, e);
    var all, k := events + [e], |events|;
    if TakingPart(all) {
      var i: nat :| i < |all| && all[i].StartReceived? && Engaged(all[..i]) && NoneSince(all, i + 1, Leaving());
      if i < k { assert events[i].StartReceived? && NoneSince(events, i + 1, Leaving()); }
    }
    if e.StartReceived? && Engaged(events) {
      assert all[k].StartReceived? && NoneSince(all, k + 1, Leaving());
    } else if TakingPart(events) && !Leaving()(e) {
      var i: nat :| i < k && events[i].StartReceived? && Engaged(events[..i]) && NoneSince(events, i + 1, Leaving());
      assert all[i].StartReceived? && NoneSince(all, i + 1, Leaving());
    }
  }

  /** After every sequence of events the status is what has happened says: FREE when nothing is underway,
      READY with the id of a round that still asks others, STARTED while the own round runs, CHANGING
      while a granted round has not started, RECEIVED while taking part in one. */
  lemma {:induction false} StatusIsThePast(events: seq<Event>)
    ensures var s := AfterEvents(events).state;
      && (s.status == FREE <==> Idle(events))
      && (forall r :: s.status == READY && s.id == r <==> Inviting(events, r))
      && (s.status == STARTED <==> Running(events))
      && (s.status == CHANGING <==> Engaged(events))
      && (s.status == RECEIVED <==> TakingPart(events))
  {
    if events == [] {
      assert Released(events, 0) && NoneSince(events, 0, Engaging());
    } else {
      var before, e := events[..|events| - 1], events[|events| - 1];
      StatusIsThePast(before);
      assert events == before + [e];
      RunningOneMore(before, e);
      IdleOneMore(before, e);
      EngagedOneMore(before, e);
      TakingPartOneMore(before, e);
      forall r ensures Inviting(events, r) <==>
        (e == BeginTried(r) && Idle(before)) ||
        (Inviting(before, r) && !(e.Invited? && e.id > r) && !e.GivenUp? && !e.StartSent? && !e.Ended?)
      {
        InvitingOneMore(before, e, r);
      }
      AskingOrNot(before);
    }
  }

  /** A leader that asks others has one id, so it grants exactly the larger ones. */
  lemma {:induction false} AskingOrNot(events: seq<Event>)
    requires var s := AfterEvents(events).state; forall r :: s.status == READY && s.id == r <==> Inviting(events, r)
    ensures var s := AfterEvents(events).state;
      && (s.status == READY <==> Asking(events))
      && (forall id :: Grants(s, id) <==> Granted(events, id))
  {
    var s := AfterEvents(events).state;
    if s.status == READY { assert Inviting(events, s.id); }
  }

  /** A round tried right after one has ended, or after an own one was given up while it asked others, begins. */
  lemma {:induction false} NextRoundBegins(events: seq<Event>, e: Event, r: int)
    requires e.Ended? || (e.GivenUp? && AfterEvents(events).state.status == READY)
    ensures AfterEvents(events + [e]).state.status == FREE
    ensures AfterEvents(events + [e] + [BeginTried(r)]).state == LeaderState(READY, r)
  {
    var one, two := events + [e], events + [e] + [BeginTried(r)];
    StatusIsThePast(events);
    AskingOrNot(events);
    IdleOneMore(events, e);
    StatusIsThePast(one);
    InvitingOneMore(one, BeginTried(r), r);
    StatusIsThePast(two);
  }

  /** The id is that of the round begun last, zero before the first one. */
  ghost predicate BegunAt(events: seq<Event>, i: nat) {
    i < |events| && events[i].BeginTried? && Idle(events[..i])
  }

  lemma {:induction false} IdIsOfLastRound(events: seq<Event>, i: nat)
    ensures BegunAt(events, i) && (forall j: nat | i < j :: !BegunAt(events, j))
      ==> AfterEvents(events).state.id == events[i].random
    ensures (forall j: nat :: !BegunAt(events, j)) ==> AfterEvents(events).state.id == 0
  {
    if events != [] {
      var k := |events| - 1;
      var before, e := events[..k], events[k];
      IdIsOfLastRound(before, i);
      StatusIsThePast(before);
      assert BegunAt(events, k) <==> e.BeginTried? && Idle(before);
      forall j: nat | j < k ensures BegunAt(events, j) <==> BegunAt(before, j) { assert events[..j] == before[..j]; }
    }
  }

  // ----- The proposals held

  /** Event `i` is a proposal received while the own round was running, and no further round was tried
      since. */
  ghost predicate KeptAt(events: seq<Event>, i: nat) {
    && i < |events| && events[i].Proposed? && Running(events[..i])
    && forall j | i < j < |events| :: !events[j].BeginTried?
  }

  ghost function IsKept(events: seq<Event>): nat -> bool {
    (i: nat) => KeptAt(events, i)
  }

  ghost predicate ProposalsAt(events: seq<Event>, at: seq<nat>, updates: seq<LeaderUpdate>) {
    |updates| == |at| && forall i | 0 <= i < |at| :: at[i] < |events| && events[at[i]] == Proposed(updates[i])
  }

  lemma {:induction false} ProposalsOneMore(events: seq<Event>, e: Event, at: seq<nat>, updates: seq<LeaderUpdate>)
    requires ProposalsAt(events, at, updates)
    ensures ProposalsAt(events + [e], at, updates)
    ensures e.Proposed? ==> ProposalsAt(events + [e], at + [|events|], updates + [e.update])
  {}

  lemma {:induction false} NoneKept(events: seq<Event>, e: Event)
    requires e.BeginTried?
    ensures Lists([], |events| + 1, IsKept(events + [e]))
  {
    forall i: nat ensures !KeptAt(events + [e], i) { KeptOneMore(events, e, i); }
  }

  lemma {:induction false} KeptNowAndBefore(events: seq<Event>, e: Event, at: seq<nat>)
    requires !e.BeginTried? && Lists(at, |events|, IsKept(events))
    ensures Lists(if e.Proposed? && Running(events) then at + [|events|] else at, |events| + 1, IsKept(events + [e]))
  {
    forall i: nat ensures KeptAt(events + [e], i) <==>
      if i == |events| then e.Proposed? && Running(events) else KeptAt(events, i)
    {
      KeptOneMore(events, e, i);
    }
    ListsOneMore(at, |events|, IsKept(events), IsKept(events + [e]));
  }

  lemma {:induction false} KeptOneMore(events: seq<Event>, e: Event, i: nat)
    ensures KeptAt(events + [e], i) <==>
      if i == |events| then e.Proposed? && Running(events) else KeptAt(events, i) && !e.BeginTried?
  {
    var all, k := events + [e], |events|;
    assert all[k] == e && all[..k] == events && forall j | 0 <= j < k :: all[j] == events[j];
    if i < k { assert all[..i] == events[..i]; }
  }

  lemma {:induction false} HeldOneMore(events: seq<Event>, e: Event)
    ensures AfterEvents(events + [e]).updates ==
      if e.BeginTried? then []
      else if e.Proposed? && Running(events) then AfterEvents(events).updates + [e.update]
      else AfterEvents(events).updates
  {
    StatusIsThePast(events);
    assert (events + [e])[..|events|] == events;
  }

  /** A leader holds exactly the proposals received while its own round was running, each as often as it
      arrived and in order. Trying to begin another round drops them, even when that try fails
      because this round is running. */
  lemma {:induction false} KeptProposals(events: seq<Event>) returns (at: seq<nat>)
    ensures Lists(at, |events|, IsKept(events)) && ProposalsAt(events, at, AfterEvents(events).updates)
  {
    at := [];
    if events != [] {
      var before, e := events[..|events| - 1], events[|events| - 1];
      var held := KeptProposals(before);
      assert events == before + [e];
      HeldOneMore(before, e);
      if e.BeginTried? {
        NoneKept(before, e);
      } else {
        KeptNowAndBefore(before, e, held);
        ProposalsOneMore(before, e, held, AfterEvents(before).updates);
        at := if e.Proposed? && Running(before) then held + [|before|] else held;
      }
    }
  }

  /** What a round chooses is its own selection or a proposal for it that arrived while it was
      running. */
  lemma {:induction false} ChosenWasProposed(events: seq<Event>, best: LeaderUpdate, own: LeaderUpdate)
    requires IsBest(best, own, AfterEvents(events).updates, AfterEvents(events).state.id)
    ensures best == own || (best.id == AfterEvents(events).state.id
      && exists i: nat :: KeptAt(events, i) && events[i] == Proposed(best))
  {
    var at := KeptProposals(events);
    if best != own {
      var k :| 0 <= k < |at| && AfterEvents(events).updates[k] == best;
      assert KeptAt(events, at[k]) && events[at[k]] == Proposed(best);
    }
  }

  // ----- The object

  class Selector {
    var status: Status
    var id: int
    var updates: seq<LeaderUpdate>

    constructor ()
      ensures Value() == FRESH
    {
      status, id, updates := FREE, 0, [];
    }

    function State(): LeaderState
      reads this
    {
      LeaderState(status, id)
    }

    function Value(): View
      reads this
    {
      View(State(), updates)
    }

    /** Handles an invitation from a round with the given id. */
    method InitSelection(id: int) returns (ok: bool)
      modifies `status
      ensures ok == Grants(old(State()), id)
      ensures Value() == AfterEvent(old(Value()), Invited(id))
    {
      if status == READY {
        if this.id >= id {
          return false;
        }
      }
      status := CHANGING;
      return true;
    }

    /** First critical section of a round. Proposals are dropped even when no round begins. */
    method BeginRound(random: int) returns (begun: bool)
      modifies this
      ensures begun == (old(status) == FREE)
      ensures Value() == AfterEvent(old(Value()), BeginTried(random))
    {
      updates := [];
      if status != FREE {
        return false;
      }
      id := random;
      status := READY;
      return true;
    }

    /** After a refused invitation or start. */
    method AbortRound()
      modifies `status
      ensures Value() == AfterEvent(old(Value()), GivenUp)
    {
      if status == READY {
        status := FREE;
      }
    }

    /** After the START was accepted: from now on proposals are kept. */
    method MarkStarted()
      modifies `status
      ensures Value() == AfterEvent(old(Value()), StartSent)
    {
      status := STARTED;
    }

    /** Handles the start of a granted round: only a leader that granted one takes part. */
    method CalcSelection() returns (ok: bool)
      modifies `status
      ensures ok == (old(status) == CHANGING)
      ensures Value() == AfterEvent(old(Value()), StartReceived)
    {
      if status != CHANGING {
        return false;
      }
      status := RECEIVED;
      return true;
    }

    /** Handles a proposal: kept only while the own round is running. */
    method UpdateSelection(update: LeaderUpdate) returns (ok: bool)
      modifies `updates
      ensures ok == (status == STARTED)
      ensures Value() == AfterEvent(old(Value()), Proposed(update))
    {
      if status == STARTED {
        updates := updates + [update];
        return true;
      }
      return false;
    }

    /** At the end of a round, of the own one or of one taken part in. */
    method StopSelection()
      modifies `status
      ensures Value() == AfterEvent(old(Value()), Ended)
    {
      status := FREE;
    }

    /** The best of the own selection and the proposals for the own round. */
    method ChooseBest(own: LeaderUpdate) returns (sel: LeaderUpdate)
      ensures IsBest(sel, own, updates, id)
    {
      sel := own;
      for i := 0 to |updates|
        invariant IsBest(sel, own, updates[..i], id)
      {
        var update := updates[i];
        assert updates[..i + 1] == updates[..i] + [update];
        BestOneMore(sel, own, updates[..i], id, update);
        if update.id != id {
          continue;
        }
        if update.cost < sel.cost {
          sel := update;
        } else if update.cost == sel.cost && update.changes < sel.changes {
          sel := update;
        }
      }
      assert updates[..|updates|] == updates;
    }
  }

  /** Replaces the selected ids by the stored nodes that carry them. */
  method ResolveLeaders(nodes: seq<Node>, selected: seq<Node>) returns (result: seq<Node>)
    ensures result == Resolved(nodes, selected)
  {
    result := [];
    for i := 0 to |nodes|
      invariant result == Resolved(nodes[..i], selected)
    {
      ResolvedSnoc(nodes[..i], nodes[i], selected);
      assert nodes[..i + 1] == nodes[..i] + [nodes[i]];
      ghost var before := result;
      var j := 0;
      while j < |selected|
        invariant 0 <= j <= |selected|
        invariant result == before
        invariant forall k | 0 <= k < j :: selected[k].id != nodes[i].id
      {
        if selected[j].id == nodes[i].id {
          result := result + [nodes[i]];
          break;
        }
        j := j + 1;
      }
    }
    assert nodes[..|nodes|] == nodes;
  }
}
