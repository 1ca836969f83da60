/** The tables of a leader's storage: the leaders, the nodes with the leader that monitors each, and
    the links between nodes with their latency and bandwidth columns. */
module Storage {
  import opened BandwidthCompletion
  import opened BandwidthRows
  import opened FillPasses
  import opened LinkCompletion
  import opened Wrappers

  datatype Row = Row(latency: Link, bandwidth: Bandwidth)

  type Table = map<(Id, Id), Row>

  function LatencyColumns(t: Table): Links {
    map k | k in t :: t[k].latency
  }

  function BandwidthColumns(t: Table): Bandwidths {
    map k | k in t :: t[k].bandwidth
  }

  lemma {:induction false} ColumnsDetermineTable(x: Table, y: Table)
    requires LatencyColumns(x) == LatencyColumns(y) && BandwidthColumns(x) == BandwidthColumns(y)
    ensures x == y
  {
    forall k: (Id, Id) ensures (k in x <==> k in y) && (k in x ==> x[k] == y[k]) {
      assert k in LatencyColumns(x) <==> k in LatencyColumns(y);
      if k in x {
        assert LatencyColumns(x)[k] == LatencyColumns(y)[k] && BandwidthColumns(x)[k] == BandwidthColumns(y)[k];
      }
    }
  }

  // ----- Completion of whole rows

  /** The table with new latencies, and with the bandwidths `fill` gives for the same pairs. */
  function Merged(t: Table, rows: Links, fill: Filler): Table {
    t + map k | k in rows :: Row(rows[k], fill(k.0, k.1))
  }

  /** One INSERT OR REPLACE .. SELECT: both kinds of columns are computed from the table as it was. */
  function AfterTablePass(g: Groups, t: Table, pass: Pass): Table {
    Merged(t, NewRows(g, LatencyColumns(t), pass), Fill(BandwidthColumns(t)))
  }

  ghost function AfterTablePasses(g: Groups, t: Table, passes: seq<Pass>): Table
    decreases |passes|
  {
    if passes == [] then t else AfterTablePasses(g, AfterTablePass(g, t, passes[0]), passes[1..])
  }

  ghost function TableCompleted(g: Groups, t: Table): Table {
    AfterTablePasses(g, t, [First, Second, Third])
  }

  /** `rows` are the pairs a pass handles. */
  ghost predicate HandledRows(g: Groups, pass: Pass, rows: Links) {
    forall a, b :: (a, b) in rows <==> Apart(g, a, b) && Handles(g, pass, a, b)
  }

  lemma {:induction false} PassRows(g: Groups, links: Links, pass: Pass)
    ensures HandledRows(g, pass, NewRows(g, links, pass))
  {}

  lemma {:induction false} PassSplits(g: Groups, t: Table, pass: Pass)
    ensures LatencyColumns(AfterTablePass(g, t, pass)) == AfterPass(g, LatencyColumns(t), pass)
    ensures BandwidthColumns(AfterTablePass(g, t, pass))
      == PassWith(g, BandwidthColumns(t), pass, Fill(BandwidthColumns(t)))
  {
    var rows, fill := NewRows(g, LatencyColumns(t), pass), Fill(BandwidthColumns(t));
    PassRows(g, LatencyColumns(t), pass);
    MergedLatencies(t, rows, fill);
    MergedBandwidths(g, t, pass, rows, fill);
  }

  lemma {:induction false} MergedLatencies(t: Table, rows: Links, fill: Filler)
    ensures LatencyColumns(Merged(t, rows, fill)) == LatencyColumns(t) + rows
  {}

  lemma {:induction false} MergedBandwidths(g: Groups, t: Table, pass: Pass, rows: Links, fill: Filler)
    requires HandledRows(g, pass, rows)
    ensures BandwidthColumns(Merged(t, rows, fill)) == PassWith(g, BandwidthColumns(t), pass, fill)
  {
    var bw := BandwidthColumns(t);
    var x, y := BandwidthColumns(Merged(t, rows, fill)), PassWith(g, bw, pass, fill);
    forall k: (Id, Id) ensures (k in x <==> k in y) && (k in x ==> x[k] == y[k]) {
      assert k == (k.0, k.1);
      PassAt(g, bw, pass, fill, k.0, k.1);
      MergedAt(t, rows, fill, k);
    }
  }

  lemma {:induction false} MergedAt(t: Table, rows: Links, fill: Filler, k: (Id, Id))
    ensures var x := BandwidthColumns(Merged(t, rows, fill));
      && (k in x <==> k in rows || k in t)
      && (k in rows ==> x[k] == fill(k.0, k.1))
      && (k !in rows && k in t ==> x[k] == BandwidthColumns(t)[k])
  {}

  /** Completing whole rows completes the latencies and the bandwidths side by side. */
  lemma {:induction false} PassesSplit(g: Groups, t: Table, passes: seq<Pass>)
    ensures LatencyColumns(AfterTablePasses(g, t, passes)) == AfterPasses(g, LatencyColumns(t), passes)
    ensures BandwidthColumns(AfterTablePasses(g, t, passes)) == BandwidthPasses(g, BandwidthColumns(t), passes)
    decreases |passes|
  {
    if passes != [] {
      FirstOfPasses(g, BandwidthColumns(t), passes, Fill);
      PassSplits(g, t, passes[0]);
      PassesSplit(g, AfterTablePass(g, t, passes[0]), passes[1..]);
    }
  }

  /** Completion gives every pair to be filled in the latency along its relay path, and the bandwidth
      inferred from the measurements left when its pass last begins, which are those of the whole
      table when none belongs to such a pair. All other rows stay. */
  lemma {:induction false} TableCompletes(g: Groups, t: Table, passes: seq<Pass>, a: Id, b: Id)
    requires Consistent(g) && Covers(passes)
    ensures var after, bw := AfterTablePasses(g, t, passes), BandwidthColumns(t);
      if Inferred(g, a, b) then
        && (a, b) in after
        && after[(a, b)] == Row(RelayLink(g, LatencyColumns(t), a, b), FillAt(g, bw, passes, Fill, a, b))
        && (InGroups(g, bw) ==> after[(a, b)].bandwidth == InferredBandwidth(bw, a, b))
      else ((a, b) in after <==> (a, b) in t) && ((a, b) in t ==> after[(a, b)] == t[(a, b)])
  {
    var after := AfterTablePasses(g, t, passes);
    PassesSplit(g, t, passes);
    CompletionRelays(g, LatencyColumns(t), passes, a, b);
    CompletionFills(g, BandwidthColumns(t), passes, a, b);
    if InGroups(g, BandwidthColumns(t)) { InGroupsFills(g, BandwidthColumns(t), passes, a, b); }
    assert (a, b) in after <==> (a, b) in LatencyColumns(after);
    assert (a, b) in after ==> after[(a, b)].latency == LatencyColumns(after)[(a, b)];
    assert (a, b) in after ==> after[(a, b)].bandwidth == BandwidthColumns(after)[(a, b)];
  }

  /** The order of the passes never matters for the latencies; for whole rows it does not matter if and
      only if every pair gets the same bandwidth in either order, in particular when no bandwidth was
      measured on a pair to be filled in. */
  lemma {:induction false} TableOrderIsIrrelevant(g: Groups, t: Table, passes: seq<Pass>)
    requires Consistent(g) && Covers(passes)
    ensures LatencyColumns(AfterTablePasses(g, t, passes)) == LatencyColumns(TableCompleted(g, t))
    ensures var bw := BandwidthColumns(t);
      && (AfterTablePasses(g, t, passes) == TableCompleted(g, t)
        <==> Agree(g, FillOf(g, bw, passes), FillOf(g, bw, [First, Second, Third])))
      && (InGroups(g, bw) ==> AfterTablePasses(g, t, passes) == TableCompleted(g, t))
  {
    PassesSplit(g, t, passes);
    PassesSplit(g, t, [First, Second, Third]);
    OrderIsIrrelevant(g, LatencyColumns(t), passes);
    OrderMatters(g, BandwidthColumns(t), passes, [First, Second, Third]);
    if BandwidthColumns(AfterTablePasses(g, t, passes)) == BandwidthColumns(TableCompleted(g, t)) {
      ColumnsDetermineTable(AfterTablePasses(g, t, passes), TableCompleted(g, t));
    }
  }

  /** Completing a completed table changes no latency, and nothing at all if and only if every pair gets
      the same bandwidth from the measurements left at its pass as from those left at the end. A third
      completion never changes anything. */
  lemma {:induction false} TableSettles(g: Groups, t: Table)
    requires Consistent(g)
    ensures var once := TableCompleted(g, t); var twice := TableCompleted(g, once);
      && LatencyColumns(twice) == LatencyColumns(once)
      && (twice == once <==> SameFills(g, BandwidthColumns(t)))
      && TableCompleted(g, twice) == twice
  {
    var once := TableCompleted(g, t);
    var twice := TableCompleted(g, once);
    CompletedColumns(g, t);
    CompletedColumns(g, once);
    CompletedColumns(g, twice);
    CompletionIsIdempotent(g, LatencyColumns(t));
    FillingSettles(g, BandwidthColumns(t));
    if SameFills(g, BandwidthColumns(t)) { ColumnsDetermineTable(twice, once); }
    ColumnsDetermineTable(TableCompleted(g, twice), twice);
  }

  lemma {:induction false} CompletedColumns(g: Groups, t: Table)
    ensures LatencyColumns(TableCompleted(g, t)) == Completed(g, LatencyColumns(t))
    ensures BandwidthColumns(TableCompleted(g, t)) == BandwidthCompleted(g, BandwidthColumns(t))
  {
    PassesSplit(g, t, [First, Second, Third]);
  }

  lemma {:induction false} ThreeTablePasses(g: Groups, t: Table)
    ensures TableCompleted(g, t) == AfterTablePass(g, AfterTablePass(g, AfterTablePass(g, t, First), Second), Third)
  {
    var x := AfterTablePass(g, t, First);
    var y := AfterTablePass(g, x, Second);
    assert [First, Second, Third][1..] == [Second, Third] && [Second, Third][1..] == [Third] && [Third][1..] == [];
    assert TableCompleted(g, t) == AfterTablePasses(g, x, [Second, Third]);
    assert AfterTablePasses(g, x, [Second, Third]) == AfterTablePasses(g, y, [Third]);
  }

  // ----- Measurements

  datatype Test = Test(target: Id, mean: real, variance: real, lasttime: int)

  datatype Kind = LatencyTest | BandwidthTest

  /** The row of a link after a measurement; a new row counts as measured otherwise a month ago,
      with zero. */
  function AfterTest(t: Table, a: Id, b: Id, test: Test, kind: Kind, monthAgo: int): Table {
    match kind
    case LatencyTest =>
      t[(a, b) := Row(
        Link(Some(test.mean), Some(test.variance), Some(test.lasttime)),
        if (a, b) in t then t[(a, b)].bandwidth else Bandwidth(Some(0.0), Some(0.0), Some(monthAgo)))]
    case BandwidthTest =>
      t[(a, b) := Row(
        if (a, b) in t then t[(a, b)].latency else Link(Some(0.0), Some(0.0), Some(monthAgo)),
        Bandwidth(Some(test.mean), Some(test.variance), Some(test.lasttime)))]
  }

  /** After a node's latency report: every test counts in both directions. */
  ghost function AfterLatencies(t: Table, node: Id, tests: seq<Test>, monthAgo: int): Table {
    if tests == [] then t
    else
      var k := |tests| - 1;
      var before, test := AfterLatencies(t, node, tests[..k], monthAgo), tests[k];
      AfterTest(AfterTest(before, node, test.target, test, LatencyTest, monthAgo), test.target, node, test,
        LatencyTest, monthAgo)
  }

  /** After a node's bandwidth report: every test counts in one direction. */
  ghost function AfterBandwidths(t: Table, node: Id, tests: seq<Test>, monthAgo: int): Table {
    if tests == [] then t
    else
      var k := |tests| - 1;
      AfterTest(AfterBandwidths(t, node, tests[..k], monthAgo), node, tests[k].target, tests[k], BandwidthTest,
        monthAgo)
  }

  ghost predicate LatencySymmetric(t: Table) {
    Symmetric(LatencyColumns(t))
  }

  /** Latency reports keep the latencies symmetric. */
  lemma {:induction false} LatenciesKeepSymmetry(t: Table, node: Id, tests: seq<Test>, monthAgo: int)
    requires LatencySymmetric(t)
    ensures LatencySymmetric(AfterLatencies(t, node, tests, monthAgo))
  {
    if tests != [] {
      var k := |tests| - 1;
      var before, test := AfterLatencies(t, node, tests[..k], monthAgo), tests[k];
      LatenciesKeepSymmetry(t, node, tests[..k], monthAgo);
      var x, y, link := node, test.target, Link(Some(test.mean), Some(test.variance), Some(test.lasttime));
      SetBothWays(LatencyColumns(before), x, y, link);
      assert LatencyColumns(AfterLatencies(t, node, tests, monthAgo))
        == LatencyColumns(before)[(x, y) := link][(y, x) := link];
    }
  }

  lemma {:induction false} SetBothWays(links: Links, a: Id, b: Id, link: Link)
    requires Symmetric(links)
    ensures Symmetric(links[(a, b) := link][(b, a) := link])
  {}

  ghost predicate Targets(tests: seq<Test>, b: Id) {
    exists i | 0 <= i < |tests| :: tests[i].target == b
  }

  lemma {:induction false} LastButOne(tests: seq<Test>, b: Id)
    requires tests != []
    ensures Targets(tests, b) <==> tests[|tests| - 1].target == b || Targets(tests[..|tests| - 1], b)
  {
    var k := |tests| - 1;
    if i :| 0 <= i < |tests| && tests[i].target == b {
      if i < k { assert tests[..k][i].target == b; }
    }
    if i :| 0 <= i < k && tests[..k][i].target == b {
      assert tests[i].target == b;
    }
  }

  /** The last test of a target. */
  ghost function LastTest(tests: seq<Test>, b: Id): Test
    requires Targets(tests, b)
  {
    var k := |tests| - 1;
    if tests[k].target == b then tests[k]
    else
      LastButOne(tests, b);
      LastTest(tests[..k], b)
  }

  /** Every row after a latency report: the links from the node to a target and back have the values of
      the last test of that target; their bandwidth stays, and in a new row it is zero, a month
      ago. */
  lemma {:induction false} LatencyRow(t: Table, node: Id, tests: seq<Test>, monthAgo: int, a: Id, b: Id)
    ensures var after := AfterLatencies(t, node, tests, monthAgo);
      if (a == node && Targets(tests, b)) || (b == node && Targets(tests, a)) then
        var test := LastTest(tests, if a == node then b else a);
        (a, b) in after && after[(a, b)] == Row(
          Link(Some(test.mean), Some(test.variance), Some(test.lasttime)),
          if (a, b) in t then t[(a, b)].bandwidth else Bandwidth(Some(0.0), Some(0.0), Some(monthAgo)))
      else
        ((a, b) in after <==> (a, b) in t) && ((a, b) in t ==> after[(a, b)] == t[(a, b)])
  {
    if tests != [] {
      var k := |tests| - 1;
      LatencyRow(t, node, tests[..k], monthAgo, a, b);
      LastButOne(tests, a);
      LastButOne(tests, b);
    }
  }

  /** Every row after a bandwidth report: the links from the node to a target have the values of its last
      test; their latency stays, and in a new row it is zero, a month ago. */
  lemma {:induction false} BandwidthRow(t: Table, node: Id, tests: seq<Test>, monthAgo: int, a: Id, b: Id)
    ensures var after := AfterBandwidths(t, node, tests, monthAgo);
      if a == node && Targets(tests, b) then
        var test := LastTest(tests, b);
        (a, b) in after && after[(a, b)] == Row(
          if (a, b) in t then t[(a, b)].latency else Link(Some(0.0), Some(0.0), Some(monthAgo)),
          Bandwidth(Some(test.mean), Some(test.variance), Some(test.lasttime)))
      else
        ((a, b) in after <==> (a, b) in t) && ((a, b) in t ==> after[(a, b)] == t[(a, b)])
  {
    if tests != [] {
      var k := |tests| - 1;
      BandwidthRow(t, node, tests[..k], monthAgo, a, b);
      LastButOne(tests, b);
    }
  }

  /** A bandwidth report keeps the latencies symmetric exactly when every link it reports was there
      already, apart from one of the node to itself: a new row is one-way, with latency zero. */
  lemma {:induction false} BandwidthsKeepSymmetry(t: Table, node: Id, tests: seq<Test>, monthAgo: int)
    requires LatencySymmetric(t)
    ensures LatencySymmetric(AfterBandwidths(t, node, tests, monthAgo))
      <==> forall i | 0 <= i < |tests| :: (node, tests[i].target) in t || tests[i].target == node
  {
    var after := AfterBandwidths(t, node, tests, monthAgo);
    forall a, b ensures (a, b) in after <==> (a, b) in t || (a == node && Targets(tests, b))
      ensures (a, b) in t ==> after[(a, b)].latency == t[(a, b)].latency
    {
      BandwidthRow(t, node, tests, monthAgo, a, b);
    }
    var x, y := LatencyColumns(t), LatencyColumns(after);
    if i :| 0 <= i < |tests| && !((node, tests[i].target) in t || tests[i].target == node) {
      var b := tests[i].target;
      assert (node, b) in y && (b, node) !in x && (b, node) !in y;
    } else {
      forall a, b | (a, b) in y ensures (b, a) in y && y[(a, b)] == y[(b, a)] {
        if (a, b) in t {
          assert (a, b) in x && (b, a) in x && x[(a, b)] == x[(b, a)];
        }
      }
    }
  }

  // ----- Which reports leave measurements inside the groups

  /** A report leaves no measurement on the links between its node and `x`: a bandwidth it reports was
      last measured at the epoch, and a latency it reports makes no new row. */
  ghost predicate Harmless(t: Table, node: Id, latency: seq<Test>, bandwidth: seq<Test>, monthAgo: int, x: Id) {
    && (Targets(bandwidth, x) ==> LastTest(bandwidth, x).lasttime == 0)
    && (Targets(latency, x) && monthAgo != 0 ==> (x, node) in t && ((node, x) in t || Targets(bandwidth, x)))
  }

  ghost function AfterReport(t: Table, node: Id, latency: seq<Test>, bandwidth: seq<Test>, monthAgo: int): Table {
    AfterBandwidths(AfterLatencies(t, node, latency, monthAgo), node, bandwidth, monthAgo)
  }

  /** Whether a row is there and measured. */
  ghost predicate TimedRow(t: Table, a: Id, b: Id) {
    (a, b) in t && Timed(t[(a, b)].bandwidth)
  }

  lemma {:induction false} ReportedRow(t: Table, node: Id, latency: seq<Test>, bandwidth: seq<Test>, monthAgo: int,
      a: Id, b: Id)
    requires a != b && !TimedRow(t, a, b)
    ensures a == node ==> (TimedRow(AfterReport(t, node, latency, bandwidth, monthAgo), a, b) <==>
      if Targets(bandwidth, b) then LastTest(bandwidth, b).lasttime != 0
      else Targets(latency, b) && (a, b) !in t && monthAgo != 0)
    ensures b == node ==> (TimedRow(AfterReport(t, node, latency, bandwidth, monthAgo), a, b) <==>
      Targets(latency, a) && (a, b) !in t && monthAgo != 0)
    ensures a != node && b != node ==> !TimedRow(AfterReport(t, node, latency, bandwidth, monthAgo), a, b)
  {
    LatencyRow(t, node, latency, monthAgo, a, b);
    BandwidthRow(AfterLatencies(t, node, latency, monthAgo), node, bandwidth, monthAgo, a, b);
  }

  lemma {:induction false} InGroupsMeansUntimed(g: Groups, t: Table)
    ensures InGroups(g, BandwidthColumns(t)) <==> forall a, b | Inferred(g, a, b) :: !TimedRow(t, a, b)
  {
    var bw := BandwidthColumns(t);
    forall a, b ensures (a, b) in bw && Timed(bw[(a, b)]) <==> TimedRow(t, a, b) {}
  }

  /** A report keeps all bandwidth measurements inside the groups or between leaders, as completion
      wants them, exactly when it is harmless for every node it would be completed for. */
  lemma {:induction false} ReportsStayInGroups(g: Groups, t: Table, node: Id, latency: seq<Test>, bandwidth: seq<Test>,
      monthAgo: int)
    requires InGroups(g, BandwidthColumns(t))
    ensures InGroups(g, BandwidthColumns(AfterReport(t, node, latency, bandwidth, monthAgo)))
      <==> forall x | Inferred(g, node, x) :: Harmless(t, node, latency, bandwidth, monthAgo, x)
  {
    var after := AfterReport(t, node, latency, bandwidth, monthAgo);
    InGroupsMeansUntimed(g, t);
    InGroupsMeansUntimed(g, after);
    forall a, b | Inferred(g, a, b)
      ensures Inferred(g, b, a)
      ensures a != node && b != node ==> !TimedRow(after, a, b)
      ensures a == node ==>
        (Harmless(t, node, latency, bandwidth, monthAgo, b) <==> !TimedRow(after, a, b) && !TimedRow(after, b, a))
    {
      ReportedRow(t, node, latency, bandwidth, monthAgo, a, b);
      ReportedRow(t, node, latency, bandwidth, monthAgo, b, a);
    }
  }

  // ----- The object

  datatype Address = Address(ip: string, port: string)

  /** A node with the leader that monitors it. */
  datatype Member = Member(address: Address, leader: Id)

  /** INSERT OR REPLACE: a row with the same address gives way, as does one with the same id. */
  function WithLeader(t: map<Id, Address>, node: Id, address: Address): map<Id, Address> {
    (map n | n in t && t[n] != address :: t[n])[node := address]
  }

  function WithMember(t: map<Id, Member>, node: Id, member: Member): map<Id, Member> {
    (map n | n in t && t[n].address != member.address :: t[n])[node := member]
  }

  /** Storing a leader or a node changes its own row and drops the others with its address; all other rows
      stay. */
  lemma {:induction false} OtherRowsStay(leaders: map<Id, Address>, t: map<Id, Member>, node: Id, address: Address,
      leader: Id, n: Id)
    ensures var after := WithLeader(leaders, node, address);
      if n == node then n in after && after[n] == address
      else (n in after <==> n in leaders && leaders[n] != address) && (n in after ==> after[n] == leaders[n])
    ensures var after := WithMember(t, node, Member(address, leader));
      if n == node then n in after && after[n] == Member(address, leader)
      else (n in after <==> n in t && t[n].address != address) && (n in after ==> after[n] == t[n])
  {}

  function Monitors(t: map<Id, Member>): map<Id, Id> {
    map n | n in t :: t[n].leader
  }

  lemma {:induction false} NodeStored(leaders: set<Id>, t: map<Id, Member>, node: Id, member: Member)
    requires Consistent(Groups(leaders, Monitors(t)))
    ensures Consistent(Groups(leaders, Monitors(WithMember(t, node, member))))
      <==> member.leader in leaders && (node in leaders ==> member.leader == node)
  {
    var x, y := Monitors(t), Monitors(WithMember(t, node, member));
    assert node in y && y[node] == member.leader;
    forall n | n in y && n != node ensures n in x && y[n] == x[n] {}
  }

  /** No other leader with the address of a new one monitors a node. */
  ghost predicate NoneOrphaned(leaders: map<Id, Address>, t: map<Id, Member>, node: Id, address: Address) {
    forall l, n | l in leaders && l != node && leaders[l] == address && n in t :: t[n].leader != l
  }

  lemma {:induction false} LeaderStored(leaders: map<Id, Address>, t: map<Id, Member>, node: Id, address: Address)
    requires Consistent(Groups(leaders.Keys, Monitors(t)))
    ensures Consistent(Groups(WithLeader(leaders, node, address).Keys, Monitors(t)))
      <==> (node in t ==> t[node].leader == node) && NoneOrphaned(leaders, t, node, address)
  {
    var x, y := leaders, WithLeader(leaders, node, address);
    forall l ensures l in y <==> l == node || (l in x && x[l] != address) {}
    forall n | n in t ensures Monitors(t)[n] == t[n].leader && t[n].leader in x {
      assert Monitors(t)[n] in x.Keys;
    }
  }

  class LeaderStorage {
    const nodeM: Id
    /** The address this host goes by. */
    var ip: string
    var mmNodes: map<Id, Address>
    var mNodes: map<Id, Member>
    var mLinks: Table

    function Grouping(): Groups
      reads this
    {
      Groups(mmNodes.Keys, Monitors(mNodes))
    }

    /** No address is stored twice. */
    ghost predicate Unique()
      reads this
    {
      && (forall m, n | m in mmNodes && n in mmNodes && m != n :: mmNodes[m] != mmNodes[n])
      && (forall m, n | m in mNodes && n in mNodes && m != n :: mNodes[m].address != mNodes[n].address)
    }

    constructor (node: Id, ip: string, port: string)
      ensures nodeM == node && this.ip == ip && mmNodes == map[node := Address("::1", port)]
      ensures mNodes == map[] && mLinks == map[]
      ensures Unique() && Consistent(Grouping()) && LatencySymmetric(mLinks)
    {
      nodeM, this.ip := node, ip;
      mmNodes, mNodes, mLinks := map[node := Address("::1", port)], map[], map[];
    }

    /** Stores a node of the own group, or one that another leader monitors. The groups stay consistent
        exactly when that one is a known leader, and a leader is stored as monitoring itself. */
    method AddNode(node: Id, address: Address, monitored: Option<Id>)
      requires Unique()
      modifies `mNodes
      ensures var leader := if monitored.None? then nodeM else monitored.value;
        && mNodes == WithMember(old(mNodes), node, Member(address, leader))
        && (old(Consistent(Grouping())) ==>
            (Consistent(Grouping()) <==> leader in mmNodes && (node in mmNodes ==> leader == node)))
      ensures Unique()
    {
      var leader := nodeM;
      if monitored.Some? {
        leader := monitored.value;
      }
      if Consistent(Grouping()) { NodeStored(mmNodes.Keys, mNodes, node, Member(address, leader)); }
      mNodes := WithMember(mNodes, node, Member(address, leader));
    }

    /** Stores a leader unless the own address is empty; another leader with the same address is
        forgotten. The groups stay consistent exactly when the new leader is not stored as monitored
        by another one and the forgotten one monitors nobody. */
    method AddMNode(node: Id, address: Address)
      requires Unique()
      modifies `mmNodes
      ensures mmNodes == if ip == "" then old(mmNodes) else WithLeader(old(mmNodes), node, address)
      ensures old(Consistent(Grouping())) ==>
        (Consistent(Grouping()) <==> (ip == "" ||
          ((node in mNodes ==> mNodes[node].leader == node) && NoneOrphaned(old(mmNodes), mNodes, node, address))))
      ensures Unique()
    {
      if ip == "" {
        return;
      }
      if Consistent(Grouping()) { LeaderStored(mmNodes, mNodes, node, address); }
      mmNodes := WithLeader(mmNodes, node, address);
    }

    /** Inserts a row unless there is one, then sets the measured columns. */
    method AddTest(nodeA: Id, nodeB: Id, test: Test, kind: Kind, monthAgo: int)
      modifies `mLinks
      ensures mLinks == AfterTest(old(mLinks), nodeA, nodeB, test, kind, monthAgo)
    {
      var key := (nodeA, nodeB);
      if kind == LatencyTest {
        var latency := Link(Some(test.mean), Some(test.variance), Some(test.lasttime));
        if key !in mLinks {
          mLinks := mLinks[key := Row(latency, Bandwidth(Some(0.0), Some(0.0), Some(monthAgo)))];
        }
        mLinks := mLinks[key := mLinks[key].(latency := latency)];
      } else {
        var bandwidth := Bandwidth(Some(test.mean), Some(test.variance), Some(test.lasttime));
        if key !in mLinks {
          mLinks := mLinks[key := Row(Link(Some(0.0), Some(0.0), Some(monthAgo)), bandwidth)];
        }
        mLinks := mLinks[key := mLinks[key].(bandwidth := bandwidth)];
      }
    }

    method AddReportLatency(node: Id, latency: seq<Test>, monthAgo: int)
      modifies `mLinks
      ensures mLinks == AfterLatencies(old(mLinks), node, latency, monthAgo)
      ensures old(LatencySymmetric(mLinks)) ==> LatencySymmetric(mLinks)
    {
      ghost var before := mLinks;
      for i := 0 to |latency|
        invariant mLinks == AfterLatencies(before, node, latency[..i], monthAgo)
      {
        AddTest(node, latency[i].target, latency[i], LatencyTest, monthAgo);
        AddTest(latency[i].target, node, latency[i], LatencyTest, monthAgo);
        assert latency[..i + 1][..i] == latency[..i];
      }
      assert latency[..|latency|] == latency;
      if LatencySymmetric(before) { LatenciesKeepSymmetry(before, node, latency, monthAgo); }
    }

    method AddReportBandwidth(node: Id, bandwidth: seq<Test>, monthAgo: int)
      modifies `mLinks
      ensures mLinks == AfterBandwidths(old(mLinks), node, bandwidth, monthAgo)
      ensures old(LatencySymmetric(mLinks)) ==> (LatencySymmetric(mLinks) <==>
        forall i | 0 <= i < |bandwidth| :: (node, bandwidth[i].target) in old(mLinks) || bandwidth[i].target == node)
    {
      ghost var before := mLinks;
      for i := 0 to |bandwidth|
        invariant mLinks == AfterBandwidths(before, node, bandwidth[..i], monthAgo)
      {
        AddTest(node, bandwidth[i].target, bandwidth[i], BandwidthTest, monthAgo);
        assert bandwidth[..i + 1][..i] == bandwidth[..i];
      }
      assert bandwidth[..|bandwidth|] == bandwidth;
      if LatencySymmetric(before) { BandwidthsKeepSymmetry(before, node, bandwidth, monthAgo); }
    }

    /** A node's report. The latencies stay symmetric exactly when every bandwidth it reports is of a
        link it reports a latency for as well, or of one known before, or of itself. All bandwidth
        measurements stay inside the groups exactly when the report is harmless for every other group. */
    method AddReport(source: Id, address: Address, monitored: Option<Id>, latency: seq<Test>, bandwidth: seq<Test>,
        monthAgo: int)
      requires Unique()
      modifies `mNodes, `mLinks
      ensures var leader := if monitored.None? then nodeM else monitored.value;
        mNodes == WithMember(old(mNodes), source, Member(address, leader))
      ensures Unique() && mLinks == AfterReport(old(mLinks), source, latency, bandwidth, monthAgo)
      ensures old(LatencySymmetric(mLinks)) ==> (LatencySymmetric(mLinks) <==>
        forall i | 0 <= i < |bandwidth| :: bandwidth[i].target == source
          || (source, bandwidth[i].target) in old(mLinks) || Targets(latency, bandwidth[i].target))
      ensures InGroups(Grouping(), BandwidthColumns(old(mLinks))) ==>
        (InGroups(Grouping(), BandwidthColumns(mLinks)) <==>
          forall x | Inferred(Grouping(), source, x) :: Harmless(old(mLinks), source, latency, bandwidth, monthAgo, x))
    {
      ghost var before := mLinks;
      AddNode(source, address, monitored);
      AddReportLatency(source, latency, monthAgo);
      AddReportBandwidth(source, bandwidth, monthAgo);
      forall b ensures (source, b) in AfterLatencies(before, source, latency, monthAgo)
        <==> (source, b) in before || Targets(latency, b)
      {
        LatencyRow(before, source, latency, monthAgo, source, b);
      }
      if InGroups(Grouping(), BandwidthColumns(before)) {
        ReportsStayInGroups(Grouping(), before, source, latency, bandwidth, monthAgo);
      }
    }

    method Complete()
      modifies `mLinks
      ensures mLinks == TableCompleted(Grouping(), old(mLinks))
      ensures Consistent(Grouping()) && old(LatencySymmetric(mLinks)) ==> LatencySymmetric(mLinks)
    {
      ghost var g, before := Grouping(), mLinks;
      mLinks := AfterTablePass(Grouping(), mLinks, First);
      mLinks := AfterTablePass(Grouping(), mLinks, Second);
      mLinks := AfterTablePass(Grouping(), mLinks, Third);
      ThreeTablePasses(g, before);
      if Consistent(g) && LatencySymmetric(before) {
        CompletedColumns(g, before);
        CompletionKeepsSymmetry(g, LatencyColumns(before));
      }
    }
  }
}
