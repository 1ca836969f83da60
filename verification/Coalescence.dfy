/** What the analysis of a batch has stored after any number of packets, from the packets alone: the delays,
    the marks of coalesced packets, and how much of a chirp counts as usable. */
module Coalescence {
  import opened KeptPositions
  import opened ChirpStats
  import opened Excursion
  import opened LossReorder
  import opened ProbingGrid
  import opened ProbingReceiver

  /** No packet from `i` up to `j` belongs to a complete chirp. */
  ghost predicate NoneUsed(b: Batch, n: nat, i: nat, j: nat) {
    forall k | i <= k < j && k < |b.pk| :: !Complete(b, n, k)
  }

  /** Packet `p` is the last one of a complete chirp before `j`, or the one the pass began with. */
  ghost predicate JustBefore(b: Batch, n: nat, s: Progress, j: nat, p: nat) {
    p < |b.pk| && if NoneUsed(b, n, 0, j) then p == s.prev else p < j && Complete(b, n, p) && NoneUsed(b, n, p + 1, j)
  }

  /** Packet `j` of a complete chirp, not its first one, arrived less than ten microseconds after the packet
      used before it. */
  ghost predicate Late(b: Batch, n: nat, s: Progress, j: nat)
    requires j < |b.pk|
  {
    Complete(b, n, j) && b.pk[j].num > 1
      && exists p: nat :: JustBefore(b, n, s, j, p) && b.pk[j].rcvTime < b.pk[p].rcvTime + 0.00001
  }

  /** Packet `j` belongs to a complete chirp and is not its first one. */
  ghost predicate Follows(b: Batch, n: nat, j: nat)
    requires j < |b.pk|
  {
    Complete(b, n, j) && b.pk[j].num > 1
  }

  ghost predicate NoneFollow(b: Batch, n: nat, i: nat, j: nat) {
    forall k | i <= k < j && k < |b.pk| :: !Follows(b, n, k)
  }

  /** The packet used before `j`, first ones of a chirp left out, was late; without one it is as before
      the pass. */
  ghost predicate LateBefore(b: Batch, n: nat, s: Progress, j: nat) {
    if NoneFollow(b, n, 0, j) then s.consecBad > 0
    else exists l: nat :: l < j && l < |b.pk| && Late(b, n, s, l) && NoneFollow(b, n, l + 1, j)
  }

  /** At packet `j` something goes wrong: a bad jumbo before the last packet, or a second late packet in a
      row. */
  ghost predicate Spoils(b: Batch, n: nat, s: Progress, j: nat)
    requires j < |b.pk|
  {
    Follows(b, n, j) && ((!b.pk[j].goodJumbo && b.pk[j].num <= n) || (Late(b, n, s, j) && LateBefore(b, n, s, j)))
  }

  ghost predicate NoneSpoils(b: Batch, n: nat, s: Progress, i: nat, j: nat) {
    forall k | i <= k < j && k < |b.pk| :: !Spoils(b, n, s, k)
  }

  /** What is left of the chirp: the interarrivals before a bad jumbo, or those before both late packets
      and the one ahead of them, but at least two. */
  ghost function LeftBy(b: Batch, n: nat, j: nat): int
    requires j < |b.pk|
  {
    if !b.pk[j].goodJumbo && b.pk[j].num <= n then b.pk[j].num - 1
    else if b.pk[j].num < 5 then 2
    else b.pk[j].num - 3
  }

  /** From position `f` on no further chirp has begun, and at `f` all of the chirp was usable. */
  ghost predicate BegunAt(b: Batch, n: nat, s: Progress, k: nat, f: nat) {
    && f <= k && f <= |b.pk| && (if f == 0 then s.maxGood == n else Complete(b, n, f - 1) && b.pk[f - 1].num == 1)
    && forall j | f <= j < k && j < |b.pk| && Complete(b, n, j) :: b.pk[j].num != 1
  }

  /** The latest packet of a complete chirp with number `num`. */
  ghost predicate LatestWith(b: Batch, n: nat, k: nat, num: int, j: nat) {
    && j < k && j < |b.pk| && Complete(b, n, j) && b.pk[j].num == num
    && forall i | j < i < k && i < |b.pk| && Complete(b, n, i) :: b.pk[i].num != num
  }

  ghost predicate PassOk(b: Batch, n: nat, s: Progress, k: nat) {
    BatchOk(b, n) && 3 <= n < 2 * LARGEST && k <= |b.pk| && ProgressOk(b, n, s)
  }

  /** Which packets are used, from the packets alone: those of a chirp inside the window none of whose
      packets has an old request, no two of which arrived in the wrong order, and of which no fewer are
      stored than are sent. */
  lemma {:induction false} UsedMeans(b: Batch, n: nat, request: nat, i: nat)
    requires Booked(b, request) && 0 < request < TWO32 && i < |b.pk|
    ensures var c := b.pk[i].chirp;
      Complete(b, n, i) <==>
        InWindow(b.pk, |b.info|, i) && !OldRequest(b.pk, c, request) && !Inverted(b.pk, c)
        && |Positions(b.pk, c)| >= n + 1
  {
    if InTable(b, i) {
      RecordIsOfChirp(b, request, i);
      RecordMeans(b.pk, b.pk[i].chirp, |b.info|, request);
    }
  }

  lemma {:induction false} RecordIsOfChirp(b: Batch, request: nat, i: nat)
    requires Booked(b, request) && i < |b.pk| && InTable(b, i)
    ensures RecordAt(b, i) == RecordOf(b.pk, b.pk[i].chirp, |b.info|, request)
  {
    var d := b.pk[i].chirp - b.pk[0].chirp;
    assert b.info[d] == RecordOf(b.pk, b.pk[0].chirp + d, |b.info|, request);
  }

  // ----- The packet used last

  lemma {:induction false} UsedOneMore(b: Batch, n: nat, i: nat, k: nat)
    requires k < |b.pk|
    ensures NoneUsed(b, n, i, k + 1) <==> NoneUsed(b, n, i, k) && (i <= k ==> !Complete(b, n, k))
  {}

  lemma {:induction false} PrevIsJustBefore(b: Batch, n: nat, s: Progress, k: nat, p: nat)
    requires PassOk(b, n, s, k)
    ensures JustBefore(b, n, s, k, p) <==> p == After(b, n, 0, k, s).prev
  {
    if k > 0 {
      PrevIsJustBefore(b, n, s, k - 1, p);
      UsedOneMore(b, n, 0, k - 1);
      UsedOneMore(b, n, p + 1, k - 1);
    }
  }

  lemma {:induction false} LateIsCoalesced(b: Batch, n: nat, s: Progress, k: nat)
    requires PassOk(b, n, s, k) && k < |b.pk|
    ensures Late(b, n, s, k) <==> Follows(b, n, k) && Coalesced(b, k, After(b, n, 0, k, s).prev)
  {
    var prev := After(b, n, 0, k, s).prev;
    PrevIsJustBefore(b, n, s, k, prev);
    forall p | JustBefore(b, n, s, k, p) ensures p == prev { PrevIsJustBefore(b, n, s, k, p); }
  }

  // ----- Coalesced packets in a row

  lemma {:induction false} RowIsLateBefore(b: Batch, n: nat, s: Progress, k: nat)
    requires PassOk(b, n, s, k)
    ensures After(b, n, 0, k, s).consecBad > 0 <==> LateBefore(b, n, s, k)
  {
    if k > 0 {
      RowIsLateBefore(b, n, s, k - 1);
      LateIsCoalesced(b, n, s, k - 1);
      LateBeforeOneMore(b, n, s, k - 1);
    }
  }

  lemma {:induction false} FollowOneMore(b: Batch, n: nat, i: nat, k: nat)
    requires k < |b.pk|
    ensures NoneFollow(b, n, i, k + 1) <==> NoneFollow(b, n, i, k) && (i <= k ==> !Follows(b, n, k))
  {}

  lemma {:induction false} LateBeforeOneMore(b: Batch, n: nat, s: Progress, k: nat)
    requires k < |b.pk|
    ensures LateBefore(b, n, s, k + 1) <==> if Follows(b, n, k) then Late(b, n, s, k) else LateBefore(b, n, s, k)
  {
    FollowOneMore(b, n, 0, k);
    if !NoneFollow(b, n, 0, k + 1) {
      if LateBefore(b, n, s, k + 1) {
        var l: nat :| l < k + 1 && l < |b.pk| && Late(b, n, s, l) && NoneFollow(b, n, l + 1, k + 1);
        FollowOneMore(b, n, l + 1, k);
      }
      if Late(b, n, s, k) {
        assert NoneFollow(b, n, k + 1, k + 1);
      } else if !Follows(b, n, k) && LateBefore(b, n, s, k) {
        var l: nat :| l < k && l < |b.pk| && Late(b, n, s, l) && NoneFollow(b, n, l + 1, k);
        FollowOneMore(b, n, l + 1, k);
      }
    }
  }

  // ----- The results

  /** Every stored delay is that of the latest packet with its number, or the mark for unusable when that
      packet was late; the scan for excursions uses exactly the delays that are not marked. */
  lemma {:induction false} DelaysAreOfLatest(b: Batch, n: nat, s: Progress, k: nat, num: int, j: nat)
    requires PassOk(b, n, s, k) && LatestWith(b, n, k, num, j)
    ensures 1 <= num <= n + 1
    ensures After(b, n, 0, k, s).delays[num - 1] == if Late(b, n, s, j) then NEG_THRESH else Delay(b, j)
    ensures Usable(After(b, n, 0, k, s).delays, num - 1) <==> !Late(b, n, s, j)
  {
    if j == k - 1 {
      LateIsCoalesced(b, n, s, j);
    } else {
      DelaysAreOfLatest(b, n, s, k - 1, num, j);
    }
  }

  lemma {:induction false} UsableOneMore(b: Batch, n: nat, s: Progress, k: nat)
    requires PassOk(b, n, s, k) && k < |b.pk|
    ensures var before, after := After(b, n, 0, k, s).maxGood, After(b, n, 0, k + 1, s).maxGood;
      after == if Complete(b, n, k) && b.pk[k].num == 1 then n
        else if Spoils(b, n, s, k) && before == n then LeftBy(b, n, k)
        else before
    ensures Spoils(b, n, s, k) ==> LeftBy(b, n, k) < n
  {
    LateIsCoalesced(b, n, s, k);
    RowIsLateBefore(b, n, s, k);
  }

  /** Packet `c` is the first one from `f` on at which something goes wrong. */
  ghost predicate FirstSpoils(b: Batch, n: nat, s: Progress, f: nat, c: nat) {
    f <= c < |b.pk| && Spoils(b, n, s, c) && NoneSpoils(b, n, s, f, c)
  }

  lemma {:induction false} FirstOrNone(b: Batch, n: nat, s: Progress, f: nat, k: nat, c: nat)
    requires f <= k < |b.pk|
    ensures NoneSpoils(b, n, s, f, k + 1) <==> NoneSpoils(b, n, s, f, k) && !Spoils(b, n, s, k)
    ensures FirstSpoils(b, n, s, f, c) && c < k + 1 ==> if c < k then !NoneSpoils(b, n, s, f, k) else
      Spoils(b, n, s, k) && NoneSpoils(b, n, s, f, k)
  {}

  /** A chirp is usable up to where something first goes wrong after it has begun: all of it when nothing
      does. */
  lemma {:induction false} UsableUpToTrouble(b: Batch, n: nat, s: Progress, k: nat, f: nat, c: nat)
    requires PassOk(b, n, s, k) && BegunAt(b, n, s, k, f)
    ensures NoneSpoils(b, n, s, f, k) ==> After(b, n, 0, k, s).maxGood == n
    ensures FirstSpoils(b, n, s, f, c) && c < k ==> After(b, n, 0, k, s).maxGood == LeftBy(b, n, c) < n
  {
    if k > 0 { UsableOneMore(b, n, s, k - 1); }
    if k > f {
      assert BegunAt(b, n, s, k - 1, f);
      UsableUpToTrouble(b, n, s, k - 1, f, c);
      FirstOrNone(b, n, s, f, k - 1, c);
    }
  }

  /** Before any packet with its number a delay stays what it was, and before any chirp has begun a chirp
      that was not usable as a whole stays so. */
  lemma {:induction false} NothingYet(b: Batch, n: nat, s: Progress, k: nat, num: nat)
    requires PassOk(b, n, s, k) && 1 <= num <= n + 1
    requires forall j | 0 <= j < k && Complete(b, n, j) :: b.pk[j].num != num
    ensures After(b, n, 0, k, s).delays[num - 1] == s.delays[num - 1]
    ensures num == 1 && s.maxGood < n ==> After(b, n, 0, k, s).maxGood == s.maxGood
  {
    if k > 0 { NothingYet(b, n, s, k - 1, num); }
  }

  // ----- A single chirp that lost packets

  /** How many of the first `k` packets carry the last number recorded for the only chirp. */
  ghost function Ends(b: Batch, k: nat): nat
    requires b.pk != [] && b.info != [] && k <= |b.pk|
  {
    if k == 0 then 0
    else Ends(b, k - 1) + if b.pk[k - 1].chirp == b.pk[0].chirp && b.pk[k - 1].num == b.info[0].lastPkt then 1 else 0
  }

  lemma {:induction false} OnlyChirp(b: Batch, request: nat, i: nat)
    requires Booked(b, request) && b.newest <= b.pk[0].chirp && i < |b.pk| && InTable(b, i)
    ensures b.pk[i].chirp == b.pk[0].chirp && RecordAt(b, i) == b.info[0]
  {
    NewestIsLargest(b.pk, |b.info|);
    assert InWindow(b.pk, |b.info|, i);
  }

  lemma {:induction false} LostPacketReports(u: Probing, b: Batch, request: nat, i: nat, s: Progress)
    requires ProbingOk(u) && i < |b.pk| && ProgressOk(b, u.n, s)
    requires Booked(b, request) && b.info != [] && b.newest <= b.pk[0].chirp
    requires b.info[0].reorder != 2 && b.info[0].num < u.n + 1
    ensures Reported(u, b, i, s) ==
      if b.pk[i].chirp == b.pk[0].chirp && b.pk[i].num == b.info[0].lastPkt then [u.low * MBPS / 2.0] else []
  {
    if InTable(b, i) { OnlyChirp(b, request, i); }
  }

  ghost predicate Copies(r: seq<real>, x: real, n: nat) {
    |r| == n && forall i | 0 <= i < n :: r[i] == x
  }

  lemma {:induction false} CopiesJoin(r: seq<real>, more: seq<real>, x: real, n: nat)
    requires Copies(r, x, n) && (more == [] || more == [x])
    ensures Copies(r + more, x, n + |more|)
  {}

  /** When no later chirp was recorded and the first one lost packets without being flagged, half the low
      rate is reported once for every packet with its last number, and nothing else. */
  lemma {:induction false} LostChirpReports(u: Probing, b: Batch, request: nat, k: nat, s: Progress)
    requires ProbingOk(u) && BatchOk(b, u.n) && k <= |b.pk| && ProgressOk(b, u.n, s)
    requires Booked(b, request) && b.info != [] && b.newest <= b.pk[0].chirp
    requires b.info[0].reorder != 2 && b.info[0].num < u.n + 1
    ensures Copies(AllReported(u, b, k, s), u.low * MBPS / 2.0, Ends(b, k))
  {
    if k > 0 {
      var j: nat := k - 1;
      LostChirpReports(u, b, request, j, s);
      LostPacketReports(u, b, request, j, After(b, u.n, 0, k, s));
      CopiesJoin(AllReported(u, b, j, s), Reported(u, b, j, After(b, u.n, 0, k, s)), u.low * MBPS / 2.0, Ends(b, j));
    }
  }

  // ----- Several chirps

  ghost predicate EndsChirp(b: Batch, n: nat, i: nat)
    requires i < |b.pk|
  {
    Complete(b, n, i) && b.pk[i].num == n + 1
  }

  ghost function IsEnd(b: Batch, n: nat): nat -> bool {
    (i: nat) => i < |b.pk| && EndsChirp(b, n, i)
  }

  lemma {:induction false} ReportsAtTheEnd(u: Probing, b: Batch, i: nat, s: Progress)
    requires ProbingOk(u) && i < |b.pk| && ProgressOk(b, u.n, s) && b.newest > b.pk[0].chirp
    ensures Reported(u, b, i, s) == if EndsChirp(b, u.n, i) then [EstimateAt(u, s)] else []
  {}

  /** `r` are the estimates at the positions `at` of a pass begun in `s`. */
  ghost predicate EstimatesAt(u: Probing, b: Batch, s: Progress, at: seq<nat>, r: seq<real>)
    requires ProbingOk(u) && PassOk(b, u.n, s, |b.pk|)
  {
    && |r| == |at|
    && forall i | 0 <= i < |at| :: at[i] < |b.pk| && r[i] == EstimateAt(u, After(b, u.n, 0, at[i] + 1, s))
  }

  lemma {:induction false} EstimatesOneMore(u: Probing, b: Batch, s: Progress, at: seq<nat>, r: seq<real>, k: nat,
      x: real)
    requires ProbingOk(u) && PassOk(b, u.n, s, |b.pk|) && k < |b.pk|
    requires EstimatesAt(u, b, s, at, r) && x == EstimateAt(u, After(b, u.n, 0, k + 1, s))
    ensures EstimatesAt(u, b, s, at + [k], r + [x])
  {}

  /** With several chirps recorded exactly one estimate is reported at each last packet of a complete chirp,
      in order, from the delays as they are then. */
  lemma {:induction false} CompleteChirpsReport(u: Probing, b: Batch, k: nat, s: Progress) returns (at: seq<nat>)
    requires ProbingOk(u) && PassOk(b, u.n, s, |b.pk|) && k <= |b.pk| && b.newest > b.pk[0].chirp
    ensures Lists(at, k, IsEnd(b, u.n)) && EstimatesAt(u, b, s, at, AllReported(u, b, k, s))
  {
    at := [];
    if k > 0 {
      var j: nat := k - 1;
      at := CompleteChirpsReport(u, b, j, s);
      ListsOneMore(at, j, IsEnd(b, u.n), IsEnd(b, u.n));
      var now, before := After(b, u.n, 0, k, s), AllReported(u, b, j, s);
      ReportsAtTheEnd(u, b, j, now);
      if EndsChirp(b, u.n, j) {
        EstimatesOneMore(u, b, s, at, before, j, EstimateAt(u, now));
        at := at + [j];
      } else {
        assert before + [] == before;
      }
    }
  }
}
