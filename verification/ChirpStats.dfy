/** The analysis of a batch of stored packets when the receiver's timer goes off: packets of complete,
    unflagged chirps become queuing delays, each such chirp is estimated at its last packet, and the
    estimates are smoothed and noted; afterwards the probing range may move. */
module ChirpStats {
  import opened ProbingGrid
  import opened Reals
  import opened ProbingReceiver
  import opened Excursion
  import opened Estimator
  import opened LossReorder

  const CONSEC_BAD_PKTS := 2
  const CONTEXT_RECEIVE_THRESH := 0.00001

  // ----- The batch

  /** The stored packets, the chirp records made of them, and the newest recorded chirp. */
  datatype Batch = Batch(pk: seq<Packet>, info: seq<ChirpRecord>, newest: nat)

  /** The records and the newest chirp are those of the packets. */
  ghost predicate Booked(b: Batch, request: nat) {
    b.pk != [] && Describing(b.info, b.pk, request) && b.newest == Newest(b.pk, |b.info|)
  }

  /** Packets are numbered as they are sent. */
  ghost predicate Numbered(pk: seq<Packet>, n: nat) {
    pk != [] && forall i | 0 <= i < |pk| :: 1 <= pk[i].num <= n + 1
  }

  /** None of the first `k` packets belongs to a chirp older than the first one. */
  ghost predicate NoneOlder(pk: seq<Packet>, k: nat)
    requires k <= |pk|
  {
    forall i | 0 <= i < k :: pk[0].chirp <= pk[i].chirp
  }

  ghost predicate BatchOk(b: Batch, n: nat) {
    Numbered(b.pk, n) && forall d | 0 <= d < |b.info| :: b.info[d].firstPktLoc < |b.pk|
  }

  lemma {:induction false} BookedIsOk(b: Batch, n: nat, request: nat)
    requires Booked(b, request) && Numbered(b.pk, n)
    ensures BatchOk(b, n)
  {
    forall d | 0 <= d < |b.info| ensures b.info[d].firstPktLoc < |b.pk| {
      assert b.info[d] == RecordOf(b.pk, b.pk[0].chirp + d, |b.info|, request);
    }
  }

  ghost predicate InTable(b: Batch, i: nat)
    requires i < |b.pk|
  {
    b.pk[0].chirp <= b.pk[i].chirp < b.pk[0].chirp + |b.info|
  }

  ghost function RecordAt(b: Batch, i: nat): ChirpRecord
    requires i < |b.pk| && InTable(b, i)
  {
    b.info[b.pk[i].chirp - b.pk[0].chirp]
  }

  /** The chirp of packet `i` has a record and is not flagged. */
  ghost predicate Kept(b: Batch, i: nat)
    requires i < |b.pk|
  {
    InTable(b, i) && RecordAt(b, i).reorder != 2
  }

  ghost predicate Complete(b: Batch, n: nat, i: nat)
    requires i < |b.pk|
  {
    Kept(b, i) && RecordAt(b, i).num >= n + 1
  }

  /** How much longer packet `i` took than the packet recorded as the first of its chirp. */
  ghost function Delay(b: Batch, i: nat): real
    requires i < |b.pk| && InTable(b, i) && RecordAt(b, i).firstPktLoc < |b.pk|
  {
    var p, f := b.pk[i], b.pk[RecordAt(b, i).firstPktLoc];
    Abs(p.rcvTime - f.rcvTime - p.sndTime + f.sndTime)
  }

  // ----- The pass as a fold

  /** What the pass carries from packet to packet: the delays, how much of the chirp is usable, the
      last packet used, and how many packets in a row were coalesced. */
  datatype Progress = Progress(delays: seq<real>, maxGood: nat, prev: nat, consecBad: nat)

  ghost predicate ProgressOk(b: Batch, n: nat, s: Progress) {
    |s.delays| == MAXCHIRPSIZE && 1 <= s.maxGood <= n && s.prev < |b.pk|
  }

  ghost predicate Coalesced(b: Batch, i: nat, prev: nat)
    requires i < |b.pk| && prev < |b.pk|
  {
    b.pk[i].rcvTime - b.pk[prev].rcvTime < CONTEXT_RECEIVE_THRESH
  }

  ghost function AfterPacket(b: Batch, n: nat, i: nat, s: Progress): (r: Progress)
    requires BatchOk(b, n) && 3 <= n < 2 * LARGEST && i < |b.pk| && ProgressOk(b, n, s)
    ensures ProgressOk(b, n, r)
  {
    if !Complete(b, n, i) then s
    else
      var np := b.pk[i].num;
      if np == 1 then Progress(s.delays[0 := Delay(b, i)], n, i, s.consecBad)
      else
        var usable := if !b.pk[i].goodJumbo && s.maxGood == n then np - 1 else s.maxGood;
        if !Coalesced(b, i, s.prev) then Progress(s.delays[np - 1 := Delay(b, i)], usable, i, 0)
        else if s.consecBad + 1 >= CONSEC_BAD_PKTS && usable == n then
          var good := np - CONSEC_BAD_PKTS - 1;
          Progress(s.delays[np - 1 := NEG_THRESH], if good < 2 then 2 else good, i, s.consecBad + 1)
        else Progress(s.delays[np - 1 := NEG_THRESH], usable, i, s.consecBad + 1)
  }

  /** After `k` packets from packet `i` on. */
  ghost function After(b: Batch, n: nat, i: nat, k: nat, s: Progress): (r: Progress)
    requires BatchOk(b, n) && 3 <= n < 2 * LARGEST && i + k <= |b.pk| && ProgressOk(b, n, s)
    ensures ProgressOk(b, n, r)
  {
    if k == 0 then s else AfterPacket(b, n, i + k - 1, After(b, n, i, k - 1, s))
  }

  // ----- What is reported

  /** What the pass takes from the receiver. */
  datatype Probing = Probing(rates: seq<real>, iat: seq<real>, n: nat, low: real, factor: real, thresh: int)

  ghost predicate ProbingOk(u: Probing) {
    && 3 <= u.n < 2 * LARGEST && u.factor > 1.0
    && |u.rates| == |u.iat| == MAXCHIRPSIZE - 1 && u.iat[0] > 0.0 && NonNegative(u.iat)
  }

  ghost function EstimateAt(u: Probing, s: Progress): real
    requires ProbingOk(u) && |s.delays| == MAXCHIRPSIZE && 1 <= s.maxGood <= u.n
  {
    EstimateOf(s.delays, u.rates, u.iat, s.maxGood, u.factor, u.thresh)
  }

  /** Reported at packet `i`, `s` being the progress after it: the estimate at the last packet of a
      complete chirp; half the low rate when the batch is a single incomplete chirp. */
  ghost function Reported(u: Probing, b: Batch, i: nat, s: Progress): seq<real>
    requires ProbingOk(u) && i < |b.pk| && ProgressOk(b, u.n, s)
  {
    if !Kept(b, i) then []
    else if !Complete(b, u.n, i) then
      if b.newest <= b.pk[0].chirp && b.pk[i].num == RecordAt(b, i).lastPkt then [u.low * MBPS / 2.0] else []
    else if b.pk[i].num == u.n + 1 then [EstimateAt(u, s)]
    else []
  }

  ghost function AllReported(u: Probing, b: Batch, k: nat, s: Progress): seq<real>
    requires ProbingOk(u) && BatchOk(b, u.n) && k <= |b.pk| && ProgressOk(b, u.n, s)
  {
    if k == 0 then [] else AllReported(u, b, k - 1, s) + Reported(u, b, k - 1, After(b, u.n, 0, k, s))
  }

  /** After `k` packets of a pass begun in `start`, when `past` had been reported: the progress is
      `now` and all reports are `history`. */
  ghost predicate Passed(u: Probing, b: Batch, k: nat, start: Progress, past: seq<real>, now: Progress,
      history: seq<real>) {
    && ProbingOk(u) && BatchOk(b, u.n) && k <= |b.pk| && ProgressOk(b, u.n, start)
    && now == After(b, u.n, 0, k, start) && history == past + AllReported(u, b, k, start)
  }

  lemma {:induction false} PassedOneMore(u: Probing, b: Batch, k: nat, start: Progress, past: seq<real>,
      now: Progress, history: seq<real>, next: Progress, history': seq<real>)
    requires Passed(u, b, k, start, past, now, history) && k < |b.pk|
    requires next == AfterPacket(b, u.n, k, now) && history' == history + Reported(u, b, k, next)
    ensures Passed(u, b, k + 1, start, past, next, history')
  {
    assert next == After(b, u.n, 0, k + 1, start);
    assert history' == past + (AllReported(u, b, k, start) + Reported(u, b, k, next));
  }

  /** A packet of an older chirp would change nothing if it were passed over. */
  lemma {:induction false} OlderPacketPassed(u: Probing, b: Batch, i: nat, s: Progress)
    requires ProbingOk(u) && BatchOk(b, u.n) && i < |b.pk| && ProgressOk(b, u.n, s) && b.pk[i].chirp < b.pk[0].chirp
    ensures AfterPacket(b, u.n, i, s) == s && Reported(u, b, i, s) == []
  {}

  ghost function ProbingOf(r: Receiver, factor: real, thresh: int): Probing
    reads r, r.rates, r.iat
  {
    Probing(r.rates[..], r.iat[..], r.numInterarrival, r.lowRate, factor, thresh)
  }

  lemma {:induction false} ProbingOfReceiver(r: Receiver, factor: real, thresh: int)
    requires r.Valid() && factor > 1.0
    ensures ProbingOk(ProbingOf(r, factor, thresh))
  {
    TimesArePositive(r);
  }

  lemma {:induction false} EstimateOfProbed(r: Receiver, factor: real, thresh: int, s: Progress)
    requires r.Valid() && factor > 1.0 && |s.delays| == MAXCHIRPSIZE && 1 <= s.maxGood <= r.numInterarrival
    ensures ProbingOk(ProbingOf(r, factor, thresh)) && Inputs(s.delays, r.rates[..], r.iat[..], s.maxGood, factor)
    ensures EstimateAt(ProbingOf(r, factor, thresh), s)
         == EstimateOf(s.delays, r.rates[..], r.iat[..], s.maxGood, factor, thresh)
    ensures 0.0 <= EstimateAt(ProbingOf(r, factor, thresh), s) <= SCALE
  {
    ProbingOfReceiver(r, factor, thresh);
    ReceiverInputs(r, s.delays, s.maxGood, factor);
    EstimateInsideRange(r, s.delays, s.maxGood, factor, thresh);
  }

  /** Every report is half the low rate or lies strictly inside the range probed; in any case between
      zero and the largest rate allowed. */
  lemma {:induction false} ReportsInRange(r: Receiver, factor: real, thresh: int, b: Batch, i: nat, s: Progress)
    requires r.Valid() && factor > 1.0 && i < |b.pk| && ProgressOk(b, r.numInterarrival, s)
    ensures ProbingOk(ProbingOf(r, factor, thresh))
    ensures forall x | x in Reported(ProbingOf(r, factor, thresh), b, i, s) ::
      0.0 <= x <= SCALE && (x == r.lowRate * MBPS / 2.0 || r.lowRate * MBPS < x < r.highRate * MBPS)
  {
    ProbingOfReceiver(r, factor, thresh);
    EstimateInsideRange(r, s.delays, s.maxGood, factor, thresh);
  }

  // ----- A chirp that is estimated from itself

  /** The last packet of a complete chirp from `i` on and before `j`; packet `i` counts as one. */
  ghost function PrevComplete(b: Batch, n: nat, i: nat, j: nat): (p: nat)
    requires i < j <= |b.pk|
    ensures i <= p < j
  {
    if j == i + 1 || Complete(b, n, j - 1) then j - 1 else PrevComplete(b, n, i, j - 1)
  }

  /** Packet `j` is not coalesced, neither by itself nor with the packet of a complete chirp before it. */
  ghost predicate Alone(b: Batch, n: nat, i: nat, j: nat)
    requires i < j < |b.pk|
  {
    b.pk[j].goodJumbo && (b.pk[j].num > 1 ==> !Coalesced(b, j, PrevComplete(b, n, i, j)))
  }

  /** `at` are the positions of the packets 1 to n + 1 of one complete chirp. */
  ghost predicate Places(b: Batch, n: nat, at: seq<nat>) {
    && |at| == n + 1 && at[0] <= at[n] < |b.pk| && Complete(b, n, at[0])
    && forall k | 0 <= k <= n ::
      at[0] <= at[k] <= at[n] && b.pk[at[k]].chirp == b.pk[at[0]].chirp && b.pk[at[k]].num == k + 1
  }

  /** From its first packet to its last, no packet of a complete chirp is coalesced, and after each of its
      packets none of a complete chirp with the same number arrives. Packets of other chirps may
      arrive in between, even of complete ones as long as they are ahead of it. */
  ghost predicate Prevails(b: Batch, n: nat, at: seq<nat>)
    requires Places(b, n, at)
  {
    && (forall j | at[0] < j <= at[n] && Complete(b, n, j) :: Alone(b, n, at[0], j))
    && (forall k, j | 0 <= k <= n && at[k] < j <= at[n] && Complete(b, n, j) :: b.pk[j].num != k + 1)
  }

  /** The delays of a chirp, from its own packets alone. */
  ghost function OwnDelays(b: Batch, n: nat, at: seq<nat>): (q: seq<real>)
    requires Places(b, n, at)
    ensures |q| == n + 1
  {
    seq(n + 1, k requires 0 <= k <= n => var p, f := b.pk[at[k]], b.pk[at[0]];
      Abs(p.rcvTime - f.rcvTime - p.sndTime + f.sndTime))
  }

  /** The chirp's first packet came before any packet of a later chirp. */
  ghost predicate FirstInTime(b: Batch, i: nat)
    requires i < |b.pk|
  {
    FirstAt(b.pk, b.pk[i].chirp) == i && (b.pk[i].chirp == b.pk[0].chirp || Overtakes(b.pk, b.pk[i].chirp, |b.info|))
  }

  /** The record of the chirp of packet `i` points at packet `i`. */
  ghost predicate Leads(b: Batch, i: nat)
    requires i < |b.pk|
  {
    InTable(b, i) && RecordAt(b, i).firstPktLoc == i
  }

  lemma {:induction false} FirstInTimeLeads(b: Batch, request: nat, i: nat)
    requires i < |b.pk| && Booked(b, request) && InTable(b, i) && RecordAt(b, i).num > 0 && FirstInTime(b, i)
    ensures Leads(b, i)
  {
    var d := b.pk[i].chirp - b.pk[0].chirp;
    assert b.info[d] == RecordOf(b.pk, b.pk[0].chirp + d, |b.info|, request);
    FirstPositionIsRight(b.pk, b.pk[i].chirp, |b.info|, request);
  }

  lemma {:induction false} DelayIsOwn(b: Batch, n: nat, at: seq<nat>, k: nat)
    requires Places(b, n, at) && Leads(b, at[0]) && k <= n
    ensures Complete(b, n, at[k]) && Delay(b, at[k]) == OwnDelays(b, n, at)[k]
  {}

  /** Before packet `j`: the delays of the chirp's packets so far are its own. */
  ghost predicate Stored(b: Batch, n: nat, at: seq<nat>, own: seq<real>, j: nat, t: Progress)
    requires Places(b, n, at) && at[0] < j <= |b.pk| && |own| == n + 1
  {
    && |t.delays| == MAXCHIRPSIZE && n < |t.delays|
    && t.maxGood == n && t.prev == PrevComplete(b, n, at[0], j)
    && forall k | 0 <= k <= n && at[k] < j :: t.delays[k] == own[k]
  }

  lemma {:induction false} FirstStored(b: Batch, n: nat, at: seq<nat>, own: seq<real>, s: Progress)
    requires BatchOk(b, n) && 3 <= n < 2 * LARGEST && ProgressOk(b, n, s)
    requires Places(b, n, at) && Leads(b, at[0]) && own == OwnDelays(b, n, at)
    ensures Stored(b, n, at, own, at[0] + 1, AfterPacket(b, n, at[0], s))
  {
    DelayIsOwn(b, n, at, 0);
    forall k | 0 <= k <= n && at[k] < at[0] + 1 ensures k == 0 {
      assert b.pk[at[k]].num == k + 1 && b.pk[at[0]].num == 0 + 1;
    }
  }

  lemma {:induction false} OneMoreStored(b: Batch, n: nat, at: seq<nat>, own: seq<real>, j: nat, t: Progress)
    requires BatchOk(b, n) && 3 <= n < 2 * LARGEST && ProgressOk(b, n, t)
    requires Places(b, n, at) && Leads(b, at[0]) && Prevails(b, n, at) && own == OwnDelays(b, n, at)
    requires at[0] < j <= at[n] && Stored(b, n, at, own, j, t)
    ensures Stored(b, n, at, own, j + 1, AfterPacket(b, n, j, t))
  {
    var r := AfterPacket(b, n, j, t);
    if Complete(b, n, j) {
      assert Alone(b, n, at[0], j);
      assert r.delays == t.delays[b.pk[j].num - 1 := Delay(b, j)];
    }
    forall k | 0 <= k <= n && at[k] < j + 1 ensures r.delays[k] == own[k] {
      DelayIsOwn(b, n, at, k);
      if at[k] < j && Complete(b, n, j) { assert b.pk[j].num != k + 1; }
    }
  }

  lemma {:induction false} AllStored(b: Batch, n: nat, at: seq<nat>, own: seq<real>, m: nat, s: Progress)
    requires BatchOk(b, n) && 3 <= n < 2 * LARGEST && ProgressOk(b, n, s)
    requires Places(b, n, at) && Leads(b, at[0]) && Prevails(b, n, at) && own == OwnDelays(b, n, at)
    requires 1 <= m && at[0] + m <= at[n] + 1
    ensures Stored(b, n, at, own, at[0] + m, After(b, n, at[0], m, s))
  {
    if m == 1 {
      FirstStored(b, n, at, own, s);
      assert After(b, n, at[0], 0, s) == s;
    } else {
      var j, t := at[0] + m - 1, After(b, n, at[0], m - 1, s);
      AllStored(b, n, at, own, m - 1, s);
      assert Stored(b, n, at, own, j, t);
      OneMoreStored(b, n, at, own, j, t);
      assert After(b, n, at[0], m, s) == AfterPacket(b, n, j, t);
    }
  }

  lemma {:induction false} EstimateFrom(u: Probing, s: Progress, own: seq<real>)
    requires ProbingOk(u) && |s.delays| == MAXCHIRPSIZE && s.maxGood == u.n && |own| == u.n + 1
    requires s.delays[..u.n + 1] == own[..u.n + 1]
    ensures Inputs(own + [0.0], u.rates, u.iat, u.n, u.factor)
    ensures EstimateAt(u, s) == EstimateOf(own + [0.0], u.rates, u.iat, u.n, u.factor, u.thresh)
  {
    forall k | 0 <= k <= u.n ensures s.delays[k] == own[k] {
      assert s.delays[..u.n + 1][k] == own[..u.n + 1][k];
    }
    ClockOffsetCancels(s.delays, own + [0.0], 0.0, u.rates, u.iat, u.n, u.factor, u.thresh);
  }

  lemma {:induction false} EstimatedWhenLeading(u: Probing, b: Batch, at: seq<nat>, s: Progress)
    requires ProbingOk(u) && BatchOk(b, u.n) && ProgressOk(b, u.n, s)
    requires Places(b, u.n, at) && Leads(b, at[0]) && Prevails(b, u.n, at)
    ensures Inputs(OwnDelays(b, u.n, at) + [0.0], u.rates, u.iat, u.n, u.factor)
    ensures Reported(u, b, at[u.n], After(b, u.n, at[0], at[u.n] + 1 - at[0], s))
         == [EstimateOf(OwnDelays(b, u.n, at) + [0.0], u.rates, u.iat, u.n, u.factor, u.thresh)]
  {
    var n, m, own := u.n, at[u.n] + 1 - at[0], OwnDelays(b, u.n, at);
    var t := After(b, n, at[0], m, s);
    AllStored(b, n, at, own, m, s);
    assert t.delays[..n + 1] == own[..n + 1];
    EstimateFrom(u, t, own);
    DelayIsOwn(b, n, at, n);
  }

  /** A complete chirp that prevails, its first packet before any packet of a later chirp, is estimated
      from its own delays alone, whatever was analysed before. */
  lemma {:induction false} EstimatedFromItself(u: Probing, b: Batch, request: nat, at: seq<nat>, s: Progress)
    requires Booked(b, request) && ProbingOk(u) && BatchOk(b, u.n) && ProgressOk(b, u.n, s)
    requires Places(b, u.n, at) && FirstInTime(b, at[0]) && Prevails(b, u.n, at)
    ensures Inputs(OwnDelays(b, u.n, at) + [0.0], u.rates, u.iat, u.n, u.factor)
    ensures Reported(u, b, at[u.n], After(b, u.n, at[0], at[u.n] + 1 - at[0], s))
         == [EstimateOf(OwnDelays(b, u.n, at) + [0.0], u.rates, u.iat, u.n, u.factor, u.thresh)]
  {
    FirstInTimeLeads(b, request, at[0]);
    EstimatedWhenLeading(u, b, at, s);
  }

  // ----- The analysis in place

  class Analysis {
    const receiver: Receiver
    const smoother: Smoother
    const qingDelay: array<real>
    const av: array<real>
    const decreaseFactor: real
    const busyPeriodThresh: int
    var maxGood: nat

    ghost predicate Separate()
      reads this, receiver, smoother
    {
      && qingDelay.Length == MAXCHIRPSIZE && av.Length == MAXCHIRPSIZE - 1 && decreaseFactor > 1.0
      && qingDelay != av
      && qingDelay !in {receiver.rates, receiver.iat, smoother.window}
      && av !in {receiver.rates, receiver.iat, smoother.window}
      && smoother.window !in {receiver.rates, receiver.iat}
    }

    /** Receiver and smoother are sound, at least one interarrival of a chirp is usable, and all
        estimates so far were possible rates. */
    ghost predicate Valid()
      reads this, receiver, receiver.rates, receiver.iat, smoother, smoother.window
    {
      && Separate() && receiver.Valid() && smoother.Valid() && InScale(smoother)
      && 1 <= maxGood <= receiver.numInterarrival
    }

    ghost function Probed(): Probing
      reads this, receiver, receiver.rates, receiver.iat
    {
      ProbingOf(receiver, decreaseFactor, busyPeriodThresh)
    }

    constructor (receiver: Receiver, smoother: Smoother, decreaseFactor: real, busyPeriodThresh: int)
      requires receiver.Valid() && smoother.Valid() && smoother.history == [] && smoother.oldMean == 0.0
      requires smoother.window !in {receiver.rates, receiver.iat} && decreaseFactor > 1.0
      ensures Valid() && fresh(qingDelay) && fresh(av)
      ensures this.receiver == receiver && this.smoother == smoother && maxGood == receiver.numInterarrival
    {
      this.receiver, this.smoother := receiver, smoother;
      this.decreaseFactor, this.busyPeriodThresh := decreaseFactor, busyPeriodThresh;
      qingDelay, av := new real[MAXCHIRPSIZE](i => 0.0), new real[MAXCHIRPSIZE - 1](i => 0.0);
      maxGood := receiver.numInterarrival;
    }

    /** Turns a packet of a complete chirp into a delay. */
    method NoteDelay(packetInfo: array<Packet>, count: nat, firstLoc: nat, prev: nat, consecBad: nat, ghost b: Batch)
      returns (newConsecBad: nat)
      requires qingDelay.Length == MAXCHIRPSIZE && |b.pk| <= packetInfo.Length && packetInfo[..|b.pk|] == b.pk
      requires BatchOk(b, receiver.numInterarrival) && 3 <= receiver.numInterarrival < 2 * LARGEST
      requires count < |b.pk| && Complete(b, receiver.numInterarrival, count)
        && firstLoc == RecordAt(b, count).firstPktLoc
      requires ProgressOk(b, receiver.numInterarrival, Progress(qingDelay[..], maxGood, prev, consecBad))
      modifies this`maxGood, qingDelay
      ensures Progress(qingDelay[..], maxGood, count, newConsecBad)
        == AfterPacket(b, receiver.numInterarrival, count,
          Progress(old(qingDelay[..]), old(maxGood), prev, consecBad))
    {
      var p, f, np, n := packetInfo[count], packetInfo[firstLoc], packetInfo[count].num, receiver.numInterarrival;
      assert p == b.pk[count] && f == b.pk[firstLoc];
      newConsecBad := consecBad;
      qingDelay[np - 1] := Abs(p.rcvTime - f.rcvTime - p.sndTime + f.sndTime);
      if np > 1 {
        if !p.goodJumbo && maxGood == n {
          maxGood := np - 1;
        }
        if p.rcvTime - packetInfo[prev].rcvTime < CONTEXT_RECEIVE_THRESH {
          newConsecBad := newConsecBad + 1;
          qingDelay[np - 1] := NEG_THRESH;
          if newConsecBad >= CONSEC_BAD_PKTS && maxGood == n {
            var good := np - CONSEC_BAD_PKTS - 1;
            if good < 2 {
              good := 2;
            }
            maxGood := good;
          }
        } else {
          newConsecBad := 0;
        }
      } else {
        maxGood := n;
      }
    }

    ghost function Now(prev: nat, consecBad: nat): Progress
      reads this, qingDelay
    {
      Progress(qingDelay[..], maxGood, prev, consecBad)
    }

    /** The estimate of the chirp whose delays are complete. */
    method EstimateChirp(ghost prev: nat, ghost consecBad: nat) returns (estimate: real)
      requires Valid()
      modifies av
      ensures Valid() && Probed() == old(Probed())
      ensures ProbingOk(Probed()) && estimate == EstimateAt(Probed(), Now(prev, consecBad))
      ensures 0.0 <= estimate <= SCALE
    {
      EstimateOfProbed(receiver, decreaseFactor, busyPeriodThresh, Now(prev, consecBad));
      estimate := ComputeInstBwExcursion(qingDelay, receiver.rates, receiver.iat, av,
        receiver.numInterarrival, maxGood, decreaseFactor, busyPeriodThresh);
    }

    /** Smooths and notes one estimate. */
    method Report(estimate: real)
      requires Valid() && 0.0 <= estimate <= SCALE
      modifies smoother, smoother.window, receiver`lowcount, receiver`highcount
      ensures Valid() && Probed() == old(Probed())
      ensures smoother.history == old(smoother.history) + [estimate]
    {
      var mean := WriteInstantBw(smoother, receiver, estimate);
    }

    /** A packet of a complete chirp becomes a delay and, at the end of the chirp, an estimate. */
    method HandleComplete(packetInfo: array<Packet>, count: nat, firstLoc: nat, prev: nat, consecBad: nat,
        ghost b: Batch)
      returns (newConsecBad: nat)
      requires Valid() && |b.pk| <= packetInfo.Length && packetInfo[..|b.pk|] == b.pk && count < |b.pk|
      requires BatchOk(b, receiver.numInterarrival) && ProgressOk(b, receiver.numInterarrival, Now(prev, consecBad))
      requires Complete(b, receiver.numInterarrival, count) && firstLoc == RecordAt(b, count).firstPktLoc
      modifies this`maxGood, qingDelay, av, smoother, smoother.window, receiver`lowcount, receiver`highcount
      ensures Valid() && Probed() == old(Probed()) && ProbingOk(Probed())
      ensures Now(count, newConsecBad) == AfterPacket(b, receiver.numInterarrival, count, old(Now(prev, consecBad)))
      ensures smoother.history == old(smoother.history) + Reported(Probed(), b, count, Now(count, newConsecBad))
    {
      ProbingOfReceiver(receiver, decreaseFactor, busyPeriodThresh);
      newConsecBad := NoteDelay(packetInfo, count, firstLoc, prev, consecBad, b);
      assert packetInfo[count] == b.pk[count];
      if packetInfo[count].num == receiver.numInterarrival + 1 {
        var estimate := EstimateChirp(count, newConsecBad);
        Report(estimate);
      }
    }

    /** A packet of a chirp that lost others: `alone` when it is the last one of the only chirp. */
    method HandleLost(alone: bool)
      requires Valid()
      modifies smoother, smoother.window, receiver`lowcount, receiver`highcount
      ensures Valid() && Probed() == old(Probed())
      ensures smoother.history == old(smoother.history) + if alone then [receiver.lowRate * MBPS / 2.0] else []
    {
      if alone {
        Report(receiver.lowRate * MBPS / 2.0);
      }
    }

    /** A packet of an incomplete chirp. */
    method HandleIncomplete(alone: bool, count: nat, prev: nat, consecBad: nat, ghost b: Batch)
      requires Valid() && count < |b.pk|
      requires BatchOk(b, receiver.numInterarrival) && ProgressOk(b, receiver.numInterarrival, Now(prev, consecBad))
      requires Kept(b, count) && !Complete(b, receiver.numInterarrival, count)
      requires alone <==> b.newest <= b.pk[0].chirp && b.pk[count].num == RecordAt(b, count).lastPkt
      modifies smoother, smoother.window, receiver`lowcount, receiver`highcount
      ensures Valid() && Probed() == old(Probed()) && ProbingOk(Probed())
      ensures smoother.history == old(smoother.history) + Reported(Probed(), b, count, Now(prev, consecBad))
    {
      ProbingOfReceiver(receiver, decreaseFactor, busyPeriodThresh);
      HandleLost(alone);
    }

    /** One packet of the pass: dropped, counted as lost, or turned into a delay and, at the end of
        its chirp, an estimate. The distance from the first chirp is signed here, so a packet of an
        older chirp is not dropped but looked up before the table; that is reported, and what the
        program does from then on is not modelled. */
    method HandlePacket(packetInfo: array<Packet>, chirpInfo: array<ChirpRecord>, lastChirp: nat, count: nat,
        prev: nat, consecBad: nat, ghost b: Batch)
      returns (inTable: bool, newPrev: nat, newConsecBad: nat)
      requires Valid() && |b.pk| <= packetInfo.Length && packetInfo[..|b.pk|] == b.pk && count < |b.pk|
      requires BatchOk(b, receiver.numInterarrival) && ProgressOk(b, receiver.numInterarrival, Now(prev, consecBad))
      requires b.info == chirpInfo[..] && b.newest == lastChirp
      modifies this`maxGood, qingDelay, av, smoother, smoother.window, receiver`lowcount, receiver`highcount
      ensures Valid() && Probed() == old(Probed()) && ProbingOk(Probed())
      ensures inTable <==> b.pk[0].chirp <= b.pk[count].chirp
      ensures Now(newPrev, newConsecBad) == AfterPacket(b, receiver.numInterarrival, count, old(Now(prev, consecBad)))
      ensures smoother.history == old(smoother.history) + Reported(Probed(), b, count, Now(newPrev, newConsecBad))
    {
      ProbingOfReceiver(receiver, decreaseFactor, busyPeriodThresh);
      newPrev, newConsecBad := prev, consecBad;
      inTable := packetInfo[0].chirp <= packetInfo[count].chirp;
      if !inTable {
        return;
      }
      var p, first, n := packetInfo[count], packetInfo[0].chirp, receiver.numInterarrival;
      assert p == b.pk[count] && packetInfo[0] == b.pk[0];
      if p.chirp - first >= chirpInfo.Length {
        return;
      }
      var rec := chirpInfo[p.chirp - first];
      assert rec == RecordAt(b, count);
      if rec.reorder == 2 {
        return;
      }
      if rec.num < n + 1 {
        HandleIncomplete(lastChirp <= first && p.num == rec.lastPkt, count, prev, consecBad, b);
        return;
      }
      newConsecBad := HandleComplete(packetInfo, count, rec.firstPktLoc, prev, consecBad, b);
      newPrev := count;
    }

    /** The packets whose chirps have been recorded, one after the other, until one leaves the table. */
    method HandlePackets(packetInfo: array<Packet>, numPkts: nat, chirpInfo: array<ChirpRecord>, lastChirp: nat,
        ghost b: Batch)
      returns (inTable: bool, ghost handled: nat, ghost end: Progress)
      requires Valid() && 1 <= numPkts == |b.pk| <= packetInfo.Length && packetInfo[..|b.pk|] == b.pk
      requires BatchOk(b, receiver.numInterarrival)
      requires b.info == chirpInfo[..] && b.newest == lastChirp
      modifies this`maxGood, qingDelay, av, smoother, smoother.window, receiver`lowcount, receiver`highcount
      ensures Valid() && Probed() == old(Probed()) && qingDelay[..] == end.delays && maxGood == end.maxGood
      ensures inTable <==> NoneOlder(b.pk, numPkts)
      ensures if inTable then handled == numPkts
        else handled < numPkts && NoneOlder(b.pk, handled) && b.pk[handled].chirp < b.pk[0].chirp
      ensures Passed(Probed(), b, handled, old(Now(0, 0)), old(smoother.history), end, smoother.history)
    {
      ghost var start, u, past := Now(0, 0), Probed(), smoother.history;
      ProbingOfReceiver(receiver, decreaseFactor, busyPeriodThresh);
      var prev, consecBad := 0, 0;
      for count := 0 to numPkts
        invariant Valid() && Probed() == u && NoneOlder(b.pk, count)
        invariant Passed(u, b, count, start, past, Now(prev, consecBad), smoother.history)
      {
        ghost var now, history := Now(prev, consecBad), smoother.history;
        var known, newPrev, newBad := HandlePacket(packetInfo, chirpInfo, lastChirp, count, prev, consecBad, b);
        if !known {
          OlderPacketPassed(u, b, count, now);
          return false, count, now;
        }
        prev, consecBad := newPrev, newBad;
        PassedOneMore(u, b, count, start, past, now, history, Now(prev, consecBad), smoother.history);
      }
      inTable, handled, end := true, numPkts, Now(prev, consecBad);
    }

    /** Analyses the stored packets: what is reported is the specified sequence. */
    method ComputeStats(packetInfo: array<Packet>, numPkts: nat, chirpInfo: array<ChirpRecord>, request: nat,
        senderRequest: nat)
      returns (inTable: bool, newSenderRequest: nat, ghost b: Batch, ghost handled: nat, ghost end: Progress)
      requires Valid() && 1 <= numPkts <= packetInfo.Length && 0 < chirpInfo.Length < TWO32
      requires packetInfo[0].chirp + chirpInfo.Length <= TWO32 / 2
      requires forall i | 0 <= i < numPkts :: packetInfo[i].chirp < TWO32
      requires Numbered(packetInfo[..numPkts], receiver.numInterarrival)
      modifies this`maxGood, qingDelay, av, chirpInfo, smoother, smoother.window, receiver`lowcount, receiver`highcount
      ensures Valid() && Probed() == old(Probed()) && qingDelay[..] == end.delays && maxGood == end.maxGood
      ensures newSenderRequest == NewestRequest(packetInfo[..numPkts], chirpInfo.Length, senderRequest)
      ensures b.pk == packetInfo[..numPkts] && b.info == chirpInfo[..] && Booked(b, request)
      ensures inTable <==> NoneOlder(packetInfo[..numPkts], numPkts)
      ensures if inTable then handled == numPkts
        else handled < numPkts && NoneOlder(b.pk, handled) && b.pk[handled].chirp < b.pk[0].chirp
      ensures Passed(Probed(), b, handled, old(Now(0, 0)), old(smoother.history), end, smoother.history)
    {
      var first, last, sender := CheckReorderLoss(packetInfo, numPkts, chirpInfo, request, senderRequest);
      newSenderRequest := sender;
      b := Batch(packetInfo[..numPkts], chirpInfo[..], last);
      BookedIsOk(b, receiver.numInterarrival, request);
      inTable, handled, end := HandlePackets(packetInfo, numPkts, chirpInfo, last, b);
    }

    /** When the timer goes off with packets stored: they are analysed, and the range may move, unless a
        packet leaves the table or the sender still has to follow an earlier request. Over any number of
        timers every estimate and every output stays a possible rate, and the chirp keeps its size, so
        the packets of later chirps are numbered as before. */
    method OnTimer(packetInfo: array<Packet>, numPkts: nat, chirpInfo: array<ChirpRecord>, request: nat,
        senderRequest: nat)
      returns (inTable: bool, newRequest: nat, newSenderRequest: nat, updateRates: bool,
        ghost b: Batch, ghost handled: nat, ghost end: Progress)
      requires Valid() && 1 <= numPkts <= packetInfo.Length && 0 < chirpInfo.Length < TWO32
      requires packetInfo[0].chirp + chirpInfo.Length <= TWO32 / 2
      requires forall i | 0 <= i < numPkts :: packetInfo[i].chirp < TWO32
      requires Numbered(packetInfo[..numPkts], receiver.numInterarrival)
      modifies this`maxGood, qingDelay, av, chirpInfo, smoother, smoother.window, receiver, receiver.rates, receiver.iat
      ensures Valid()
      ensures newSenderRequest == NewestRequest(packetInfo[..numPkts], chirpInfo.Length, senderRequest)
      ensures newRequest == request || (updateRates && newRequest == request + 1 && maxGood == receiver.numInterarrival)
      ensures receiver.numInterarrival == old(receiver.numInterarrival)
      ensures newRequest == request ==> receiver.ProbedRates() == old(receiver.ProbedRates())
      ensures b.pk == packetInfo[..numPkts] && Booked(b, request)
      ensures inTable <==> NoneOlder(packetInfo[..numPkts], numPkts)
      ensures handled <= numPkts && (inTable ==> handled == numPkts)
      ensures Passed(old(Probed()), b, handled, old(Now(0, 0)), old(smoother.history), end, smoother.history)
      ensures !inTable ==> newRequest == request && !updateRates && Probed() == old(Probed())
      ensures inTable && newSenderRequest < (request - 1) % TWO32
        ==> updateRates && newRequest == request && Probed() == old(Probed())
    {
      newRequest, updateRates := request, false;
      inTable, newSenderRequest, b, handled, end :=
        ComputeStats(packetInfo, numPkts, chirpInfo, request, senderRequest);
      if !inTable {
        return;
      }
      if newSenderRequest < (request - 1) % TWO32 {
        updateRates := true;
      } else {
        updateRates := FollowEstimates();
        newRequest := if updateRates then request + 1 else request;
      }
    }

    /** Moves the range when the estimates ask for it; the whole chirp counts as usable again. */
    method FollowEstimates() returns (reset: bool)
      requires Valid()
      modifies this`maxGood, receiver, receiver.rates, receiver.iat
      ensures Valid() && receiver.numInterarrival == old(receiver.numInterarrival)
      ensures if reset then maxGood == receiver.numInterarrival
        else receiver.ProbedRates() == old(receiver.ProbedRates())
    {
      reset := receiver.CheckForNewPars();
      if reset {
        maxGood := receiver.numInterarrival;
      }
    }
  }
}
