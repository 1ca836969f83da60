/** Loss and reordering bookkeeping: one pass over the stored packets fills a table with one record
    per chirp, from which the estimator decides whether a chirp arrived complete and in order. */
module LossReorder {

  const TWO32 := 0x1_0000_0000
  const TWO64 := 0x1_0000_0000_0000_0000

  datatype Packet = Packet(chirp: nat, num: nat, request: nat, sndTime: real, rcvTime: real, goodJumbo: bool)

  datatype ChirpRecord = ChirpRecord(num: nat, chirp: nat, reorder: nat, lastPkt: nat, firstPktLoc: nat)

  const EMPTY := ChirpRecord(0, 0, 0, 0, 0)

  /** The distance of a chirp from the first one, in unsigned 64-bit arithmetic: chirps older than
      the first one are very far away. */
  function Distance(chirp: nat, first: nat): nat {
    (chirp - first) % TWO64
  }

  /** Sent under a request older than the one before the current; the subtraction is unsigned. */
  predicate Stale(p: Packet, request: nat) {
    p.request < (request - 1) % TWO32
  }

  lemma {:induction false} OlderChirpsAreOutOfTheWindow(chirp: nat, first: nat, window: nat)
    requires chirp < TWO32 && first < TWO32 && window < TWO32
    ensures Distance(chirp, first) < window <==> first <= chirp < first + window
  {
    if chirp >= first {
      assert Distance(chirp, first) == chirp - first;
    } else {
      assert Distance(chirp, first) == chirp - first + TWO64;
    }
  }

  /** Packets of the current request and of the one before it are not stale, all older ones are; under
      request zero every packet is, but for the largest request numbers. */
  lemma {:induction false} StaleMeansOlder(p: Packet, request: nat)
    requires request < TWO32
    ensures request > 0 ==> (Stale(p, request) <==> p.request + 1 < request)
    ensures request == 0 ==> (Stale(p, request) <==> p.request < TWO32 - 1)
  {
    assert request > 0 ==> (request - 1) % TWO32 == request - 1;
  }

  // ----- What the records mean

  /** The packet numbers of a chirp, in order of arrival. */
  ghost function Nums(pk: seq<Packet>, chirp: nat): seq<nat> {
    if pk == [] then []
    else
      var k := |pk| - 1;
      Nums(pk[..k], chirp) + if pk[k].chirp == chirp then [pk[k].num] else []
  }

  ghost predicate NonDecreasing(s: seq<nat>) {
    |s| <= 1 || (NonDecreasing(s[..|s| - 1]) && s[|s| - 2] <= s[|s| - 1])
  }

  /** Some packet of the chirp, other than the first packet of all, is stale. */
  ghost predicate HasStale(pk: seq<Packet>, chirp: nat, request: nat) {
    |pk| > 1 &&
    var k := |pk| - 1;
    HasStale(pk[..k], chirp, request) || (pk[k].chirp == chirp && Stale(pk[k], request))
  }

  /** The position of the first packet of a chirp, |pk| when there is none. */
  ghost function FirstAt(pk: seq<Packet>, chirp: nat): nat {
    if pk == [] then 0
    else
      var k := |pk| - 1;
      var i := FirstAt(pk[..k], chirp);
      if i < k || pk[k].chirp == chirp then i else k + 1
  }

  /** The largest chirp recorded so far. */
  ghost function Newest(pk: seq<Packet>, window: nat): nat
    requires pk != []
  {
    var k := |pk| - 1;
    if k == 0 then pk[0].chirp
    else
      var newest := Newest(pk[..k], window);
      if pk[k].chirp < pk[0].chirp + window && pk[k].chirp > newest then pk[k].chirp else newest
  }

  /** Whether the first packet of a chirp arrived before any packet of a later recorded chirp. */
  ghost predicate Overtakes(pk: seq<Packet>, chirp: nat, window: nat) {
    var i := FirstAt(pk, chirp);
    0 < i < |pk| && Newest(pk[..i], window) < chirp
  }

  /** The record of a chirp: how many of its packets are stored, the last number, whether it is
      flagged, and the position of its first packet if that packet was ahead of all later chirps. */
  ghost function RecordOf(pk: seq<Packet>, chirp: nat, window: nat, request: nat): ChirpRecord
    requires pk != []
  {
    var nums := Nums(pk, chirp);
    ChirpRecord(
      |nums|,
      if chirp == pk[0].chirp then chirp else 0,
      if HasStale(pk, chirp, request) || !NonDecreasing(nums) then 2 else 0,
      if nums == [] then 0 else nums[|nums| - 1],
      if Overtakes(pk, chirp, window) then FirstAt(pk, chirp) else 0)
  }

  lemma {:induction false} FirstPlace(pk: seq<Packet>, chirp: nat)
    ensures FirstAt(pk, chirp) <= |pk|
    ensures FirstAt(pk, chirp) < |pk| ==> pk[FirstAt(pk, chirp)].chirp == chirp
  {
    if pk != [] { FirstPlace(pk[..|pk| - 1], chirp); }
  }

  lemma {:induction false} NumsBeforeFirst(pk: seq<Packet>, chirp: nat)
    ensures FirstAt(pk, chirp) <= |pk|
    ensures FirstAt(pk, chirp) < |pk| ==> pk[FirstAt(pk, chirp)].chirp == chirp
    ensures FirstAt(pk, chirp) == |pk| <==> Nums(pk, chirp) == []
  {
    FirstPlace(pk, chirp);
    if pk != [] {
      FirstPlace(pk[..|pk| - 1], chirp);
      NumsBeforeFirst(pk[..|pk| - 1], chirp);
    }
  }

  lemma {:induction false} NoneBefore(pk: seq<Packet>, chirp: nat, i: nat)
    requires i < FirstAt(pk, chirp)
    ensures i < |pk| && pk[i].chirp != chirp
  {
    var k := |pk| - 1;
    FirstPlace(pk[..k], chirp);
    if i < k { NoneBefore(pk[..k], chirp, i); }
  }

  lemma {:induction false} AppendKeepsOrder(s: seq<nat>, x: nat)
    ensures NonDecreasing(s + [x]) <==> NonDecreasing(s) && (s != [] ==> s[|s| - 1] <= x)
  {
    assert (s + [x])[..|s|] == s;
  }

  lemma {:induction false} StaleAppended(pk: seq<Packet>, p: Packet, chirp: nat, request: nat)
    requires pk != []
    ensures HasStale(pk + [p], chirp, request)
      <==> HasStale(pk, chirp, request) || (p.chirp == chirp && Stale(p, request))
  {
    assert (pk + [p])[..|pk|] == pk;
  }

  lemma {:induction false} NumsAppended(pk: seq<Packet>, p: Packet, chirp: nat)
    ensures Nums(pk + [p], chirp) == if p.chirp == chirp then Nums(pk, chirp) + [p.num] else Nums(pk, chirp)
  {
    assert (pk + [p])[..|pk|] == pk;
  }

  lemma {:induction false} FirstAtAppended(pk: seq<Packet>, p: Packet, chirp: nat)
    ensures FirstAt(pk + [p], chirp) ==
      if FirstAt(pk, chirp) < |pk| || p.chirp == chirp then FirstAt(pk, chirp) else |pk| + 1
  {
    assert (pk + [p])[..|pk|] == pk;
  }

  lemma {:induction false} OvertakesAppended(pk: seq<Packet>, p: Packet, chirp: nat, window: nat)
    requires pk != []
    ensures Overtakes(pk + [p], chirp, window) <==>
      if FirstAt(pk, chirp) < |pk| then Overtakes(pk, chirp, window) else p.chirp == chirp && Newest(pk, window) < chirp
  {
    FirstAtAppended(pk, p, chirp);
    FirstPlace(pk, chirp);
    var i := FirstAt(pk, chirp);
    assert (pk + [p])[..i] == pk[..i];
    assert pk[..|pk|] == pk;
  }

  /** A packet of another chirp leaves the record as it is. */
  lemma {:induction false} OtherPacket(pk: seq<Packet>, p: Packet, chirp: nat, window: nat, request: nat)
    requires pk != [] && p.chirp != chirp
    ensures RecordOf(pk + [p], chirp, window, request) == RecordOf(pk, chirp, window, request)
  {
    NumsAppended(pk, p, chirp);
    StaleAppended(pk, p, chirp, request);
    FirstAtAppended(pk, p, chirp);
    FirstPlace(pk, chirp);
    OvertakesAppended(pk, p, chirp, window);
  }

  /** The record after one more packet of its chirp. */
  ghost function Counted(rec: ChirpRecord, p: Packet, at: nat, newest: nat, request: nat): ChirpRecord {
    rec.(num := rec.num + 1,
         reorder := if Stale(p, request) || p.num < rec.lastPkt then 2 else rec.reorder,
         lastPkt := p.num,
         firstPktLoc := if p.chirp > newest then at else rec.firstPktLoc)
  }

  lemma {:induction false} OwnPacket(pk: seq<Packet>, p: Packet, window: nat, request: nat)
    requires pk != [] && pk[0].chirp <= p.chirp < pk[0].chirp + window
    ensures RecordOf(pk + [p], p.chirp, window, request)
         == Counted(RecordOf(pk, p.chirp, window, request), p, |pk|, Newest(pk, window), request)
  {
    var i := FirstAt(pk, p.chirp);
    NumsAppended(pk, p, p.chirp);
    AppendKeepsOrder(Nums(pk, p.chirp), p.num);
    NumsBeforeFirst(pk, p.chirp);
    StaleAppended(pk, p, p.chirp, request);
    FirstAtAppended(pk, p, p.chirp);
    OvertakesAppended(pk, p, p.chirp, window);
    if i < |pk| { NewestReached(pk, i, window); }
  }

  /** A recorded packet keeps the newest chirp at least as large as its own from then on. */
  lemma {:induction false} NewestReached(pk: seq<Packet>, i: nat, window: nat)
    requires i < |pk| && pk[i].chirp < pk[0].chirp + window
    ensures Newest(pk, window) >= pk[i].chirp
  {
    var k := |pk| - 1;
    if i < k {
      assert pk[..k][i] == pk[i] && pk[..k][0] == pk[0];
      NewestReached(pk[..k], i, window);
    }
  }

  // ----- The pass

  /** The records of all chirps. */
  ghost function Records(pk: seq<Packet>, window: nat, request: nat): nat -> ChirpRecord
    requires pk != []
  {
    (chirp: nat) => RecordOf(pk, chirp, window, request)
  }

  /** The table holds what `f` says, from chirp `first` on. */
  ghost predicate Tables(info: seq<ChirpRecord>, first: nat, f: nat -> ChirpRecord) {
    forall d: nat | d < |info| :: info[d] == f(first + d)
  }

  /** The table holds the record of every chirp inside the window. */
  ghost predicate Describing(info: seq<ChirpRecord>, pk: seq<Packet>, request: nat)
    requires pk != []
  {
    Tables(info, pk[0].chirp, Records(pk, |info|, request))
  }

  lemma {:induction false} RecordWithPacket(rec: ChirpRecord, pk: seq<Packet>, p: Packet, chirp: nat, window: nat,
      request: nat)
    requires pk != [] && rec == RecordOf(pk, chirp, window, request) && pk[0].chirp <= chirp < pk[0].chirp + window
    ensures RecordOf(pk + [p], chirp, window, request)
         == if p.chirp == chirp then Counted(rec, p, |pk|, Newest(pk, window), request) else rec
  {
    if p.chirp == chirp { OwnPacket(pk, p, window, request); } else { OtherPacket(pk, p, chirp, window, request); }
  }

  /** Inside the window `g` says what `f` says, except `x` at chirp `c`. */
  ghost predicate Changed(f: nat -> ChirpRecord, g: nat -> ChirpRecord, first: nat, window: nat, c: int,
      x: ChirpRecord) {
    forall chirp: nat | first <= chirp < first + window :: g(chirp) == if chirp == c then x else f(chirp)
  }

  lemma {:induction false} RecordsChanged(pk: seq<Packet>, p: Packet, window: nat, request: nat, x: ChirpRecord)
    requires pk != []
    requires x == Counted(Records(pk, window, request)(p.chirp), p, |pk|, Newest(pk, window), request)
    ensures Changed(Records(pk, window, request), Records(pk + [p], window, request), pk[0].chirp, window, p.chirp, x)
  {
    var f, g := Records(pk, window, request), Records(pk + [p], window, request);
    forall chirp: nat | pk[0].chirp <= chirp < pk[0].chirp + window
      ensures g(chirp) == if chirp == p.chirp then x else f(chirp)
    {
      RecordWithPacket(f(chirp), pk, p, chirp, window, request);
    }
  }

  lemma {:induction false} EntryChanged(before: seq<ChirpRecord>, first: nat, at: nat, f: nat -> ChirpRecord,
      g: nat -> ChirpRecord, x: ChirpRecord)
    requires Tables(before, first, f) && at < |before| && Changed(f, g, first, |before|, first + at, x)
    ensures Tables(before[at := x], first, g)
  {}

  lemma {:induction false} NothingChanged(info: seq<ChirpRecord>, first: nat, c: nat, f: nat -> ChirpRecord,
      g: nat -> ChirpRecord, x: ChirpRecord)
    requires Tables(info, first, f) && Changed(f, g, first, |info|, c, x) && !(first <= c < first + |info|)
    ensures Tables(info, first, g)
  {}

  lemma {:induction false} RecordAppended(before: seq<ChirpRecord>, after: seq<ChirpRecord>, pk: seq<Packet>,
      p: Packet, at: nat, request: nat)
    requires pk != [] && Describing(before, pk, request) && at < |before| && p.chirp == pk[0].chirp + at
    requires after == before[at := Counted(before[at], p, |pk|, Newest(pk, |before|), request)]
    ensures Describing(after, pk + [p], request)
  {
    var f, g := Records(pk, |before|, request), Records(pk + [p], |before|, request);
    var x := Counted(before[at], p, |pk|, Newest(pk, |before|), request);
    assert (pk + [p])[0] == pk[0] && before[at] == f(pk[0].chirp + at);
    RecordsChanged(pk, p, |before|, request, x);
    EntryChanged(before, pk[0].chirp, at, f, g, x);
  }

  lemma {:induction false} PacketPassedOver(info: seq<ChirpRecord>, pk: seq<Packet>, p: Packet, request: nat)
    requires pk != [] && Describing(info, pk, request)
    requires !(pk[0].chirp <= p.chirp < pk[0].chirp + |info|)
    ensures Describing(info, pk + [p], request)
  {
    var f, g := Records(pk, |info|, request), Records(pk + [p], |info|, request);
    var x := Counted(f(p.chirp), p, |pk|, Newest(pk, |info|), request);
    assert (pk + [p])[0] == pk[0];
    RecordsChanged(pk, p, |info|, request, x);
    NothingChanged(info, pk[0].chirp, p.chirp, f, g, x);
  }

  lemma {:induction false} NewestAppended(pk: seq<Packet>, p: Packet, window: nat)
    requires pk != []
    ensures Newest(pk + [p], window) ==
      if p.chirp < pk[0].chirp + window && p.chirp > Newest(pk, window) then p.chirp else Newest(pk, window)
  {
    assert (pk + [p])[..|pk|] == pk;
  }

  /** Updates the record of a packet's chirp. */
  method Record(chirpInfo: array<ChirpRecord>, at: nat, p: Packet, count: nat, newest: nat, request: nat)
    requires at < chirpInfo.Length
    modifies chirpInfo
    ensures chirpInfo[..] == old(chirpInfo[..])[at := Counted(old(chirpInfo[at]), p, count, newest, request)]
  {
    if p.chirp > newest {
      chirpInfo[at] := chirpInfo[at].(firstPktLoc := count);
    }
    if Stale(p, request) {
      chirpInfo[at] := chirpInfo[at].(reorder := 2);
    }
    chirpInfo[at] := chirpInfo[at].(num := chirpInfo[at].num + 1);
    if p.num < chirpInfo[at].lastPkt {
      chirpInfo[at] := chirpInfo[at].(reorder := 2);
    }
    chirpInfo[at] := chirpInfo[at].(lastPkt := p.num);
  }

  method CheckReorderLoss(packetInfo: array<Packet>, numPkts: nat, chirpInfo: array<ChirpRecord>, request: nat,
      senderRequest: nat)
    returns (firstChirp: nat, lastChirp: nat, newSenderRequest: nat)
    requires 1 <= numPkts <= packetInfo.Length && 0 < chirpInfo.Length < TWO32
    requires packetInfo[0].chirp + chirpInfo.Length <= TWO32 / 2
    requires forall i | 0 <= i < numPkts :: packetInfo[i].chirp < TWO32
    modifies chirpInfo
    ensures firstChirp == packetInfo[0].chirp && lastChirp == Newest(packetInfo[..numPkts], chirpInfo.Length)
    ensures Describing(chirpInfo[..], packetInfo[..numPkts], request)
    ensures newSenderRequest == NewestRequest(packetInfo[..numPkts], chirpInfo.Length, senderRequest)
  {
    ghost var w := chirpInfo.Length;
    for d := 0 to chirpInfo.Length
      invariant forall c | 0 <= c < d :: chirpInfo[c] == EMPTY
    {
      chirpInfo[d] := EMPTY;
    }
    firstChirp := packetInfo[0].chirp;
    lastChirp := firstChirp;
    newSenderRequest := senderRequest;
    chirpInfo[0] := chirpInfo[0].(chirp := firstChirp, num := 1, lastPkt := packetInfo[0].num);
    FirstPacket(packetInfo[..1], w, request);
    for count := 1 to numPkts
      invariant Recorded(packetInfo[..count], chirpInfo[..], lastChirp, newSenderRequest, request, senderRequest)
    {
      ghost var pk := packetInfo[..count];
      assert packetInfo[..count + 1] == pk + [packetInfo[count]];
      lastChirp, newSenderRequest := RecordPacket(packetInfo[count], count, chirpInfo, firstChirp, lastChirp,
        request, newSenderRequest, pk, senderRequest);
    }
  }

  /** The table, the newest chirp and the newest request after some packets. */
  ghost predicate Recorded(pk: seq<Packet>, info: seq<ChirpRecord>, lastChirp: nat, newest: nat, request: nat,
      senderRequest: nat) {
    && pk != [] && Describing(info, pk, request)
    && lastChirp == Newest(pk, |info|) && newest == NewestRequest(pk, |info|, senderRequest)
  }

  method RecordPacket(p: Packet, count: nat, chirpInfo: array<ChirpRecord>, firstChirp: nat, lastChirp: nat,
      request: nat, senderRequest: nat, ghost pk: seq<Packet>, ghost start: nat)
    returns (newLastChirp: nat, newSenderRequest: nat)
    requires Recorded(pk, chirpInfo[..], lastChirp, senderRequest, request, start)
    requires count == |pk| && firstChirp == pk[0].chirp
    requires 0 < chirpInfo.Length < TWO32 && p.chirp < TWO32 && firstChirp < TWO32
    modifies chirpInfo
    ensures Recorded(pk + [p], chirpInfo[..], newLastChirp, newSenderRequest, request, start)
  {
    ghost var before := chirpInfo[..];
    newLastChirp, newSenderRequest := lastChirp, senderRequest;
    OlderChirpsAreOutOfTheWindow(p.chirp, firstChirp, chirpInfo.Length);
    NewestAppended(pk, p, chirpInfo.Length);
    NewestIsNotOld(pk, chirpInfo.Length);
    NewestRequestAppended(pk, p, chirpInfo.Length, start);
    if Distance(p.chirp, firstChirp) >= chirpInfo.Length {
      PacketPassedOver(before, pk, p, request);
      return;
    }
    if p.chirp >= firstChirp {
      Record(chirpInfo, p.chirp - firstChirp, p, count, lastChirp, request);
      RecordAppended(before, chirpInfo[..], pk, p, p.chirp - firstChirp, request);
      if p.chirp > lastChirp {
        newLastChirp := p.chirp;
      }
      if p.request > senderRequest {
        newSenderRequest := p.request;
      }
    } else {
      // the program marks the packet here, but a chirp older than the first was passed over above
      assert false;
    }
  }

  lemma {:induction false} NewestRequestAppended(pk: seq<Packet>, p: Packet, window: nat, r: nat)
    requires pk != []
    ensures NewestRequest(pk + [p], window, r) ==
      if pk[0].chirp <= p.chirp < pk[0].chirp + window && p.request > NewestRequest(pk, window, r) then p.request
      else NewestRequest(pk, window, r)
  {
    assert (pk + [p])[..|pk|] == pk;
  }

  /** The largest request number among the recorded packets after the first, if it exceeds `r`. */
  ghost function NewestRequest(pk: seq<Packet>, window: nat, r: nat): nat
    requires pk != []
  {
    var k := |pk| - 1;
    if k == 0 then r
    else
      var newest := NewestRequest(pk[..k], window, r);
      if pk[0].chirp <= pk[k].chirp < pk[0].chirp + window && pk[k].request > newest then pk[k].request else newest
  }

  lemma {:induction false} FirstPacket(pk: seq<Packet>, window: nat, request: nat)
    requires |pk| == 1
    ensures RecordOf(pk, pk[0].chirp, window, request) == ChirpRecord(1, pk[0].chirp, 0, pk[0].num, 0)
    ensures forall c: nat | c != pk[0].chirp :: RecordOf(pk, c, window, request) == EMPTY
  {
    assert pk[..0] == [];
    forall c: nat ensures Nums(pk, c) == if c == pk[0].chirp then [pk[0].num] else [] {
      assert Nums(pk[..0], c) == [];
    }
    forall c: nat ensures FirstAt(pk, c) == if c == pk[0].chirp then 0 else 1 {
      assert FirstAt(pk[..0], c) == 0;
    }
  }

  lemma {:induction false} NewestIsNotOld(pk: seq<Packet>, window: nat)
    requires pk != []
    ensures Newest(pk, window) >= pk[0].chirp
  {
    if |pk| > 1 { NewestIsNotOld(pk[..|pk| - 1], window); }
  }

  // ----- When a chirp is complete

  ghost predicate Distinct(s: seq<nat>) {
    forall i, j | 0 <= i < j < |s| :: s[i] != s[j]
  }

  /** The numbers 1 to n in order. */
  ghost function Whole(n: nat): seq<nat> {
    seq(n, i requires 0 <= i => i + 1)
  }

  lemma {:induction false} CountingDown(s: seq<nat>, n: nat, i: nat)
    requires NonDecreasing(s) && Distinct(s) && |s| == n && i < n
    requires forall j | 0 <= j < n :: 1 <= s[j] <= n
    ensures s[i] <= i + 1
    decreases n - i
  {
    NonDecreasingMeans(s);
    if i + 1 < n {
      CountingDown(s, n, i + 1);
      assert s[i] <= s[i + 1] && s[i] != s[i + 1];
    }
  }

  lemma {:induction false} CountingUp(s: seq<nat>, i: nat)
    requires NonDecreasing(s) && Distinct(s) && i < |s|
    requires forall j | 0 <= j < |s| :: 1 <= s[j]
    ensures s[i] >= i + 1
  {
    NonDecreasingMeans(s);
    if i > 0 {
      CountingUp(s, i - 1);
      assert s[i - 1] <= s[i] && s[i - 1] != s[i];
    }
  }

  lemma {:induction false} NonDecreasingMeans(s: seq<nat>)
    ensures NonDecreasing(s) <==> forall i, j | 0 <= i < j < |s| :: s[i] <= s[j]
  {
    if |s| > 1 {
      var t := s[..|s| - 1];
      NonDecreasingMeans(t);
      if NonDecreasing(s) {
        forall i, j | 0 <= i < j < |s| ensures s[i] <= s[j] {
          if j == |s| - 1 && i < j - 1 { assert t[i] <= t[j - 1]; } else if j < |s| - 1 { assert t[i] <= t[j]; }
        }
      }
    }
  }

  /** A chirp that passes both tests of the estimator, not flagged and with no fewer packets than
      were sent, is exactly the packets 1 to n in order if and only if no packet was duplicated. */
  lemma {:induction false} CompleteChirp(pk: seq<Packet>, chirp: nat, window: nat, request: nat, n: nat)
    requires pk != [] && RecordOf(pk, chirp, window, request).reorder != 2
    requires RecordOf(pk, chirp, window, request).num >= n
    requires forall i | 0 <= i < |Nums(pk, chirp)| :: 1 <= Nums(pk, chirp)[i] <= n
    ensures Nums(pk, chirp) == Whole(n) <==> Distinct(Nums(pk, chirp))
  {
    var s := Nums(pk, chirp);
    if Distinct(s) {
      if |s| > n { CountingUp(s, n); }
      forall i | 0 <= i < n ensures s[i] == i + 1 {
        CountingDown(s, n, i);
        CountingUp(s, i);
      }
    }
  }

  /** The recorded position of a chirp's first packet is right exactly for the first chirp and for
      chirps whose first packet arrived before any packet of a later chirp. */
  lemma {:induction false} FirstPositionIsRight(pk: seq<Packet>, chirp: nat, window: nat, request: nat)
    requires pk != [] && RecordOf(pk, chirp, window, request).num > 0
    ensures RecordOf(pk, chirp, window, request).firstPktLoc == FirstAt(pk, chirp)
      <==> chirp == pk[0].chirp || Overtakes(pk, chirp, window)
  {
    NumsBeforeFirst(pk, chirp);
    if FirstAt(pk, chirp) > 0 { NoneBefore(pk, chirp, 0); }
  }

  // ----- The records, from the packets alone

  ghost function Positions(pk: seq<Packet>, chirp: nat): set<nat> {
    set i: nat | i < |pk| && pk[i].chirp == chirp
  }

  ghost predicate LastAt(pk: seq<Packet>, chirp: nat, i: nat) {
    i < |pk| && pk[i].chirp == chirp && forall j | i < j < |pk| :: pk[j].chirp != chirp
  }

  /** A packet of the chirp, other than the first of all, was sent under a request older than the one
      before the current. */
  ghost predicate OldRequest(pk: seq<Packet>, chirp: nat, request: nat) {
    exists i | 0 < i < |pk| :: pk[i].chirp == chirp && pk[i].request + 1 < request
  }

  /** Two packets of the chirp arrived in the wrong order. */
  ghost predicate Inverted(pk: seq<Packet>, chirp: nat) {
    exists i, j | 0 <= i < j < |pk| :: pk[i].chirp == pk[j].chirp == chirp && pk[i].num > pk[j].num
  }

  lemma {:induction false} CountIsPositions(pk: seq<Packet>, chirp: nat)
    ensures |Nums(pk, chirp)| == |Positions(pk, chirp)|
  {
    if pk != [] {
      var k: nat := |pk| - 1;
      CountIsPositions(pk[..k], chirp);
      assert Positions(pk, chirp) == Positions(pk[..k], chirp) + if pk[k].chirp == chirp then {k} else {};
    }
  }

  lemma {:induction false} LastIsLast(pk: seq<Packet>, chirp: nat, i: nat)
    requires LastAt(pk, chirp, i)
    ensures Nums(pk, chirp) != [] && Nums(pk, chirp)[|Nums(pk, chirp)| - 1] == pk[i].num
  {
    var k := |pk| - 1;
    if i < k { LastIsLast(pk[..k], chirp, i); }
  }

  lemma {:induction false} StaleIsOldRequest(pk: seq<Packet>, chirp: nat, request: nat)
    requires 0 < request < TWO32
    ensures HasStale(pk, chirp, request) <==> OldRequest(pk, chirp, request)
  {
    if |pk| > 1 {
      var k := |pk| - 1;
      StaleIsOldRequest(pk[..k], chirp, request);
      StaleMeansOlder(pk[k], request);
      if OldRequest(pk[..k], chirp, request) {
        var i :| 0 < i < k && pk[..k][i].chirp == chirp && pk[..k][i].request + 1 < request;
        assert pk[i] == pk[..k][i];
      }
      if OldRequest(pk, chirp, request) {
        var i :| 0 < i < |pk| && pk[i].chirp == chirp && pk[i].request + 1 < request;
        if i < k { assert pk[..k][i] == pk[i]; }
      }
    }
  }

  ghost predicate AllAtMost(pk: seq<Packet>, chirp: nat, num: nat) {
    forall i | 0 <= i < |pk| && pk[i].chirp == chirp :: pk[i].num <= num
  }

  lemma {:induction false} AtMostOneMore(pk: seq<Packet>, p: Packet, chirp: nat, num: nat)
    ensures AllAtMost(pk + [p], chirp, num) <==> AllAtMost(pk, chirp, num) && (p.chirp == chirp ==> p.num <= num)
  {
    var all, k := pk + [p], |pk|;
    assert all[k] == p && forall i | 0 <= i < k :: all[i] == pk[i];
  }

  /** In order, the numbers stay below a bound exactly when the last one does. */
  lemma {:induction false} LastIsLargest(pk: seq<Packet>, chirp: nat, num: nat)
    requires NonDecreasing(Nums(pk, chirp))
    ensures var nums := Nums(pk, chirp); AllAtMost(pk, chirp, num) <==> (nums != [] ==> nums[|nums| - 1] <= num)
  {
    if pk != [] {
      var before, p := pk[..|pk| - 1], pk[|pk| - 1];
      assert pk == before + [p];
      NumsAppended(before, p, chirp);
      AppendKeepsOrder(Nums(before, chirp), p.num);
      LastIsLargest(before, chirp, num);
      AtMostOneMore(before, p, chirp, num);
    }
  }

  lemma {:induction false} OrderedMeansNotInverted(pk: seq<Packet>, chirp: nat)
    ensures NonDecreasing(Nums(pk, chirp)) <==> !Inverted(pk, chirp)
  {
    if pk != [] {
      var before, p := pk[..|pk| - 1], pk[|pk| - 1];
      assert pk == before + [p];
      OrderedMeansNotInverted(before, chirp);
      NumsAppended(before, p, chirp);
      AppendKeepsOrder(Nums(before, chirp), p.num);
      if NonDecreasing(Nums(before, chirp)) { LastIsLargest(before, chirp, p.num); }
      InvertedOneMore(before, p, chirp);
    }
  }

  lemma {:induction false} InvertedOneMore(pk: seq<Packet>, p: Packet, chirp: nat)
    ensures Inverted(pk + [p], chirp) <==>
      Inverted(pk, chirp) || (p.chirp == chirp && !AllAtMost(pk, chirp, p.num))
  {
    var all, k := pk + [p], |pk|;
    assert all[k] == p && forall i | 0 <= i < k :: all[i] == pk[i];
    if Inverted(pk, chirp) {
      var i, j :| 0 <= i < j < k && pk[i].chirp == pk[j].chirp == chirp && pk[i].num > pk[j].num;
      assert all[i].num > all[j].num;
    }
    if i :| 0 <= i < k && pk[i].chirp == chirp && pk[i].num > p.num {
      assert all[i].num > p.num;
    }
  }

  /** The record of a chirp, from the packets alone: how many of its packets are stored, the number of its
      last one, and that it is flagged exactly when one of them comes from an old request or two of
      them arrived in the wrong order. */
  lemma {:induction false} RecordMeans(pk: seq<Packet>, chirp: nat, window: nat, request: nat)
    requires pk != [] && 0 < request < TWO32
    ensures var rec := RecordOf(pk, chirp, window, request);
      && rec.num == |Positions(pk, chirp)|
      && (forall i: nat | LastAt(pk, chirp, i) :: rec.lastPkt == pk[i].num)
      && rec.reorder == if OldRequest(pk, chirp, request) || Inverted(pk, chirp) then 2 else 0
  {
    CountIsPositions(pk, chirp);
    StaleIsOldRequest(pk, chirp, request);
    OrderedMeansNotInverted(pk, chirp);
    forall i: nat | LastAt(pk, chirp, i) ensures RecordOf(pk, chirp, window, request).lastPkt == pk[i].num {
      LastIsLast(pk, chirp, i);
    }
  }

  ghost predicate InWindow(pk: seq<Packet>, window: nat, i: nat)
    requires i < |pk|
  {
    pk[0].chirp <= pk[i].chirp < pk[0].chirp + window
  }

  /** The newest chirp is the largest one recorded. */
  lemma {:induction false} NewestIsLargest(pk: seq<Packet>, window: nat)
    requires pk != [] && window > 0
    ensures forall i: nat | i < |pk| && InWindow(pk, window, i) :: pk[i].chirp <= Newest(pk, window)
    ensures exists i: nat :: i < |pk| && InWindow(pk, window, i) && pk[i].chirp == Newest(pk, window)
  {
    var k := |pk| - 1;
    if k == 0 {
      assert InWindow(pk, window, 0) && pk[0].chirp == Newest(pk, window);
    } else {
      var before := pk[..k];
      NewestIsLargest(before, window);
      NewestIsNotOld(before, window);
      var i: nat :| i < k && InWindow(before, window, i) && before[i].chirp == Newest(before, window);
      assert before[0] == pk[0] && before[i] == pk[i] && InWindow(pk, window, i);
      assert InWindow(pk, window, k) <==> pk[0].chirp <= pk[k].chirp < pk[0].chirp + window;
      forall j: nat | j < |pk| && InWindow(pk, window, j) ensures pk[j].chirp <= Newest(pk, window) {
        if j < k { assert InWindow(before, window, j) && before[j] == pk[j]; }
      }
    }
  }

  ghost predicate FirstOf(pk: seq<Packet>, chirp: nat, i: nat) {
    i < |pk| && pk[i].chirp == chirp && forall j | 0 <= j < i :: pk[j].chirp != chirp
  }

  /** The position recorded for the first packet of a chirp: its own when all recorded packets before it
      belong to earlier chirps, and otherwise zero. */
  lemma {:induction false} FirstLocMeans(pk: seq<Packet>, chirp: nat, window: nat, request: nat, i: nat)
    requires pk != [] && window > 0 && FirstOf(pk, chirp, i)
    ensures RecordOf(pk, chirp, window, request).firstPktLoc ==
      if forall j: nat | j < i && InWindow(pk, window, j) :: pk[j].chirp < chirp then i else 0
  {
    FirstPlace(pk, chirp);
    if FirstAt(pk, chirp) > i { NoneBefore(pk, chirp, i); }
    if i > 0 {
      var before := pk[..i];
      NewestIsLargest(before, window);
      forall j: nat | j < i ensures before[j] == pk[j] && (InWindow(before, window, j) <==> InWindow(pk, window, j)) {}
    }
  }

  /** The newest request is the largest one of the recorded packets after the first, or the one known. */
  lemma {:induction false} NewestRequestIsLargest(pk: seq<Packet>, window: nat, r: nat)
    requires pk != []
    ensures NewestRequest(pk, window, r) >= r
    ensures forall i: nat | 0 < i < |pk| && InWindow(pk, window, i) :: pk[i].request <= NewestRequest(pk, window, r)
    ensures NewestRequest(pk, window, r) == r
      || exists i: nat :: 0 < i < |pk| && InWindow(pk, window, i) && pk[i].request == NewestRequest(pk, window, r)
  {
    var k := |pk| - 1;
    if k > 0 {
      var before := pk[..k];
      NewestRequestIsLargest(before, window, r);
      assert before[0] == pk[0];
      if i: nat :| 0 < i < k && InWindow(before, window, i) && before[i].request == NewestRequest(before, window, r) {
        assert before[i] == pk[i] && InWindow(pk, window, i);
      }
      assert InWindow(pk, window, k) <==> pk[0].chirp <= pk[k].chirp < pk[0].chirp + window;
      forall j: nat | 0 < j < |pk| && InWindow(pk, window, j) ensures pk[j].request <= NewestRequest(pk, window, r) {
        if j < k { assert InWindow(before, window, j) && before[j] == pk[j]; }
      }
    }
  }

  // ----- A recorded first position that is wrong

  ghost function Sent(chirp: nat, num: nat): Packet {
    Packet(chirp, num, 1, 0.0, 0.0, true)
  }

  /** One more packet: the record of chirp 2 in a window of 8 that starts at chirp 1. */
  lemma {:induction false} NextRecord(pk: seq<Packet>, p: Packet, rec: ChirpRecord, newest: nat)
    requires pk != [] && pk[0].chirp == 1 && 1 <= p.chirp < 9 && p.request == 1
    requires RecordOf(pk, 2, 8, 1) == rec && Newest(pk, 8) == newest
    ensures RecordOf(pk + [p], 2, 8, 1) == if p.chirp == 2 then Counted(rec, p, |pk|, newest, 1) else rec
    ensures Newest(pk + [p], 8) == if p.chirp > newest then p.chirp else newest
  {
    NewestAppended(pk, p, 8);
    if p.chirp == 2 { OwnPacket(pk, p, 8, 1); } else { OtherPacket(pk, p, 2, 8, 1); }
  }

  lemma {:induction false} SixPackets() returns (pk: seq<Packet>)
    ensures pk == [Sent(1, 4), Sent(3, 1), Sent(2, 1), Sent(2, 2), Sent(2, 3), Sent(2, 4)]
    ensures RecordOf(pk, 2, 8, 1) == ChirpRecord(4, 0, 0, 4, 0)
  {
    pk := [Sent(1, 4)];
    FirstPacket(pk, 8, 1);
    NextRecord(pk, Sent(3, 1), EMPTY, 1);
    pk := pk + [Sent(3, 1)];
    NextRecord(pk, Sent(2, 1), EMPTY, 3);
    pk := pk + [Sent(2, 1)];
    NextRecord(pk, Sent(2, 2), ChirpRecord(1, 0, 0, 1, 0), 3);
    pk := pk + [Sent(2, 2)];
    NextRecord(pk, Sent(2, 3), ChirpRecord(2, 0, 0, 2, 0), 3);
    pk := pk + [Sent(2, 3)];
    NextRecord(pk, Sent(2, 4), ChirpRecord(3, 0, 0, 3, 0), 3);
    pk := pk + [Sent(2, 4)];
  }

  /** A chirp that is not discarded can have a wrong first position: chirp 2 arrives complete and in
      order, four packets of four, but after a packet of chirp 3. Its record passes both tests and
      points at the packet of chirp 1 instead of its own first packet, the third. */
  lemma {:induction false} FirstPositionCanBeWrong() returns (pk: seq<Packet>)
    ensures pk == [Sent(1, 4), Sent(3, 1), Sent(2, 1), Sent(2, 2), Sent(2, 3), Sent(2, 4)]
    ensures var rec := RecordOf(pk, 2, 8, 1);
      rec.num == 4 && rec.reorder != 2 && rec.firstPktLoc == 0 && FirstAt(pk, 2) == 2
  {
    pk := SixPackets();
    assert pk[0].chirp == 1 && pk[1].chirp == 3 && pk[2].chirp == 2;
    NumsBeforeFirst(pk, 2);
    if FirstAt(pk, 2) > 2 { NoneBefore(pk, 2, 2); }
  }
}
