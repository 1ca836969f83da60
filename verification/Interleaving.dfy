/** Two complete chirps whose packets arrive in turns. They share one array of delays, so the chirp that is
    overtaken at every packet is estimated from the delays of the other one. */
module Interleaving {
  import opened ChirpStats
  import opened Estimator
  import opened Excursion
  import opened LossReorder
  import opened ProbingGrid
  import opened Reals

  ghost function Arrival(chirp: nat, num: nat, sndTime: real, rcvTime: real): Packet {
    Packet(chirp, num, 1, sndTime, rcvTime, true)
  }

  /** One more packet in a window of two chirps that starts at chirp 1. */
  lemma {:induction false} NextRecords(pk: seq<Packet>, p: Packet, one: ChirpRecord, two: ChirpRecord, newest: nat)
    requires pk != [] && pk[0].chirp == 1 && 1 <= p.chirp <= 2 && p.request == 1
    requires RecordOf(pk, 1, 2, 1) == one && RecordOf(pk, 2, 2, 1) == two && Newest(pk, 2) == newest
    ensures RecordOf(pk + [p], 1, 2, 1) == if p.chirp == 1 then Counted(one, p, |pk|, newest, 1) else one
    ensures RecordOf(pk + [p], 2, 2, 1) == if p.chirp == 2 then Counted(two, p, |pk|, newest, 1) else two
    ensures Newest(pk + [p], 2) == if p.chirp > newest then p.chirp else newest
  {
    NewestAppended(pk, p, 2);
    RecordWithPacket(one, pk, p, 1, 2, 1);
    RecordWithPacket(two, pk, p, 2, 2, 1);
  }

  /** Chirp 1 finds an idle path, three times the same delay after its first packet. */
  ghost function Packets(): seq<Packet> {
    [Arrival(1, 1, 0.0, 0.0), Arrival(2, 1, 1.0, 1.0), Arrival(1, 2, -1.0, 2.0), Arrival(2, 2, 2.0, 3.0),
     Arrival(1, 3, 1.0, 4.0), Arrival(2, 3, 3.0, 5.0), Arrival(1, 4, 3.0, 6.0), Arrival(2, 4, 4.0, 7.0)]
  }

  ghost function Turns(): Batch {
    Batch(Packets(), [ChirpRecord(4, 1, 0, 4, 0), ChirpRecord(4, 0, 0, 4, 1)], 2)
  }

  lemma {:induction false} FirstHalf() returns (pk: seq<Packet>)
    ensures pk == Packets()[..4]
    ensures RecordOf(pk, 1, 2, 1) == ChirpRecord(2, 1, 0, 2, 0) && RecordOf(pk, 2, 2, 1) == ChirpRecord(2, 0, 0, 2, 1)
    ensures Newest(pk, 2) == 2
  {
    var all := Packets();
    pk := [all[0]];
    FirstPacket(pk, 2, 1);
    NextRecords(pk, all[1], ChirpRecord(1, 1, 0, 1, 0), EMPTY, 1);
    pk := pk + [all[1]];
    NextRecords(pk, all[2], ChirpRecord(1, 1, 0, 1, 0), ChirpRecord(1, 0, 0, 1, 1), 2);
    pk := pk + [all[2]];
    NextRecords(pk, all[3], ChirpRecord(2, 1, 0, 2, 0), ChirpRecord(1, 0, 0, 1, 1), 2);
    pk := pk + [all[3]];
  }

  lemma {:induction false} AllRecorded()
    ensures RecordOf(Packets(), 1, 2, 1) == Turns().info[0] && RecordOf(Packets(), 2, 2, 1) == Turns().info[1]
    ensures Newest(Packets(), 2) == 2
  {
    var all := Packets();
    var pk := FirstHalf();
    NextRecords(pk, all[4], ChirpRecord(2, 1, 0, 2, 0), ChirpRecord(2, 0, 0, 2, 1), 2);
    pk := pk + [all[4]];
    NextRecords(pk, all[5], ChirpRecord(3, 1, 0, 3, 0), ChirpRecord(2, 0, 0, 2, 1), 2);
    pk := pk + [all[5]];
    NextRecords(pk, all[6], ChirpRecord(3, 1, 0, 3, 0), ChirpRecord(3, 0, 0, 3, 1), 2);
    pk := pk + [all[6]];
    NextRecords(pk, all[7], ChirpRecord(4, 1, 0, 4, 0), ChirpRecord(3, 0, 0, 3, 1), 2);
    pk := pk + [all[7]];
    assert pk == all;
  }

  lemma {:induction false} TurnsAreBooked()
    ensures Booked(Turns(), 1) && BatchOk(Turns(), 3)
  {
    AllRecorded();
    var b := Turns();
    forall d: nat | d < |b.info| ensures b.info[d] == Records(b.pk, 2, 1)(1 + d) {}
  }

  // ----- One packet after the other

  /** All packets belong to complete chirps and none is coalesced. */
  ghost predicate Clean(b: Batch) {
    && BatchOk(b, 3) && b.pk[0].num == 1
    && forall i | 0 <= i < |b.pk| :: Complete(b, 3, i) && b.pk[i].goodJumbo && (i > 0 ==> !Coalesced(b, i, i - 1))
  }

  lemma {:induction false} TurnsAreClean()
    ensures Clean(Turns())
  {
    TurnsAreBooked();
  }

  /** Every packet of a clean batch stores its delay at its number. */
  lemma {:induction false} CleanStep(b: Batch, i: nat, s: Progress)
    requires Clean(b) && i < |b.pk| && ProgressOk(b, 3, s)
    requires i > 0 ==> s.maxGood == 3 && s.prev == i - 1
    ensures var t := AfterPacket(b, 3, i, s);
      t.delays == s.delays[b.pk[i].num - 1 := Delay(b, i)] && t.maxGood == 3 && t.prev == i
  {}

  lemma {:induction false} CleanPass(b: Batch, m: nat, s: Progress)
    requires Clean(b) && 1 <= m <= |b.pk| && ProgressOk(b, 3, s)
    ensures var t, before := After(b, 3, 0, m, s), After(b, 3, 0, m - 1, s);
      && t.delays == before.delays[b.pk[m - 1].num - 1 := Delay(b, m - 1)]
      && t.maxGood == 3 && t.prev == m - 1
  {
    if m > 1 { CleanPass(b, m - 1, s); }
    CleanStep(b, m - 1, After(b, 3, 0, m - 1, s));
  }

  lemma {:induction false} TurnDelays()
    requires Clean(Turns())
    ensures Delay(Turns(), 3) == 1.0 && Delay(Turns(), 5) == 2.0 && Delay(Turns(), 6) == 3.0
  {}

  /** Numbers 2, 3, 3 and 4 arrive last: what is stored for 2, 3 and 4 is left. */
  lemma {:induction false} LastFour(b: Batch, s: Progress, x: real, y: real, z: real)
    requires Clean(b) && |b.pk| >= 7 && ProgressOk(b, 3, s)
    requires b.pk[3].num == 2 && b.pk[4].num == 3 && b.pk[5].num == 3 && b.pk[6].num == 4
    requires Delay(b, 3) == x && Delay(b, 5) == y && Delay(b, 6) == z
    ensures var t := After(b, 3, 0, 7, s);
      t.maxGood == 3 && t.delays[1] == x && t.delays[2] == y && t.delays[3] == z
  {
    CleanPass(b, 4, s);
    CleanPass(b, 5, s);
    CleanPass(b, 6, s);
    CleanPass(b, 7, s);
  }

  // ----- The estimate

  ghost function PlacesOfOne(): seq<nat> {
    [0, 2, 4, 6]
  }

  lemma {:induction false} OneIsPlaced()
    ensures Places(Turns(), 3, PlacesOfOne()) && FirstInTime(Turns(), 0)
    ensures OwnDelays(Turns(), 3, PlacesOfOne()) == [0.0, 3.0, 3.0, 3.0]
  {
    TurnsAreClean();
    var b, at := Turns(), PlacesOfOne();
    forall k | 0 <= k <= 3
      ensures at[0] <= at[k] <= at[3] && b.pk[at[k]].chirp == 1 && b.pk[at[k]].num == k + 1
    {}
    if FirstAt(b.pk, 1) > 0 { NoneBefore(b.pk, 1, 0); }
  }

  lemma {:induction false} OwnEstimate(u: Probing, own: seq<real>)
    requires ProbingOk(u) && u.n == 3 && own == [0.0, 3.0, 3.0, 3.0, 0.0]
    ensures Inputs(own, u.rates, u.iat, 3, u.factor)
    ensures EstimateOf(own, u.rates, u.iat, 3, u.factor, u.thresh) == u.rates[2]
  {
    assert u.iat[..4][0] == u.iat[0];
    UnloadedPath(own, u.rates, u.iat, 3, u.factor, u.thresh);
  }

  lemma {:induction false} MixedEstimate(u: Probing, t: Progress)
    requires ProbingOk(u) && u.n == 3 && |t.delays| == MAXCHIRPSIZE && t.maxGood == 3
    requires t.delays[1] < t.delays[2] < t.delays[3]
    ensures EstimateAt(u, t) == u.rates[0]
  {
    assert u.iat[..4][0] == u.iat[0];
    OverloadedPath(t.delays, u.rates, u.iat, 3, u.factor, u.thresh);
  }

  lemma {:induction false} MixedReport(u: Probing, s: Progress)
    requires ProbingOk(u) && u.n == 3 && Clean(Turns()) && ProgressOk(Turns(), 3, s)
    ensures Reported(u, Turns(), 6, After(Turns(), 3, 0, 7, s)) == [u.rates[0]]
  {
    var b := Turns();
    TurnDelays();
    LastFour(b, s, 1.0, 2.0, 3.0);
    MixedEstimate(u, After(b, 3, 0, 7, s));
    assert Complete(b, 3, 6);
  }

  /** A complete chirp that does not prevail can be estimated from the delays of another one: chirp 1 found
      an idle path, its own delays give the fastest rate probed, but the slowest is reported. */
  lemma {:induction false} InterleavedChirpsMix(u: Probing, s: Progress)
    requires ProbingOk(u) && u.n == 3 && ProgressOk(Turns(), 3, s)
    ensures Booked(Turns(), 1) && BatchOk(Turns(), 3)
    ensures Places(Turns(), 3, PlacesOfOne()) && FirstInTime(Turns(), 0)
    ensures var own := OwnDelays(Turns(), 3, PlacesOfOne()) + [0.0];
      && Inputs(own, u.rates, u.iat, 3, u.factor)
      && EstimateOf(own, u.rates, u.iat, 3, u.factor, u.thresh) == u.rates[2]
    ensures Reported(u, Turns(), 6, After(Turns(), 3, 0, 7, s)) == [u.rates[0]]
  {
    TurnsAreBooked();
    TurnsAreClean();
    OneIsPlaced();
    OwnEstimate(u, OwnDelays(Turns(), 3, PlacesOfOne()) + [0.0]);
    MixedReport(u, s);
  }
}
