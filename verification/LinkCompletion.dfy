/** The latency columns of a leader's link table and the inference of missing latencies: links between
    groups, other than between two leaders, get the sum of the latencies along the path through the
    group leaders. A table is a map from its primary key; a null column is `None`. */
module LinkCompletion {
  import opened Wrappers

  /** Identifiers are only ever compared for equality. */
  type Id = int

  datatype Link = Link(meanL: Option<real>, varianceL: Option<real>, lasttimeL: Option<int>)

  type Links = map<(Id, Id), Link>

  /** The leaders, and the nodes with the leader that monitors each. */
  datatype Groups = Groups(leaders: set<Id>, monitoredBy: map<Id, Id>)

  // ----- The queries

  /** A sum is null when a summand is. */
  function Plus(a: Option<real>, b: Option<real>): Option<real> {
    if a.Some? && b.Some? then Some(a.value + b.value) else None
  }

  /** The leader monitoring a node, if it is a known leader. */
  function LeaderOf(g: Groups, n: Id): Option<Id>
    requires n in g.monitoredBy
  {
    if g.monitoredBy[n] in g.leaders then Some(g.monitoredBy[n]) else None
  }

  function MeanOf(links: Links, a: Option<Id>, b: Option<Id>): Option<real> {
    if a.Some? && b.Some? && (a.value, b.value) in links then links[(a.value, b.value)].meanL else None
  }

  function VarianceOf(links: Links, a: Option<Id>, b: Option<Id>): Option<real> {
    if a.Some? && b.Some? && (a.value, b.value) in links then links[(a.value, b.value)].varianceL else None
  }

  /** Two nodes monitored by different leaders. */
  predicate Apart(g: Groups, a: Id, b: Id) {
    a in g.monitoredBy && b in g.monitoredBy && a != b && g.monitoredBy[a] != g.monitoredBy[b]
  }

  /** The rows of each pass: from leaders to other nodes, back, and between other nodes. */
  function ToFollowers(g: Groups, links: Links): Links {
    map a, b | a in g.monitoredBy && b in g.monitoredBy && Apart(g, a, b) && a in g.leaders && b !in g.leaders ::
      (a, b) := Link(
        Plus(MeanOf(links, Some(a), LeaderOf(g, b)), MeanOf(links, LeaderOf(g, b), Some(b))),
        Plus(VarianceOf(links, Some(a), LeaderOf(g, b)), VarianceOf(links, LeaderOf(g, b), Some(b))),
        None)
  }

  function FromFollowers(g: Groups, links: Links): Links {
    map a, b | a in g.monitoredBy && b in g.monitoredBy && Apart(g, a, b) && a !in g.leaders && b in g.leaders ::
      (a, b) := Link(
        Plus(MeanOf(links, Some(a), LeaderOf(g, a)), MeanOf(links, LeaderOf(g, a), Some(b))),
        Plus(VarianceOf(links, Some(a), LeaderOf(g, a)), VarianceOf(links, LeaderOf(g, a), Some(b))),
        None)
  }

  function BetweenFollowers(g: Groups, links: Links): Links {
    map a, b | a in g.monitoredBy && b in g.monitoredBy && Apart(g, a, b) && a !in g.leaders && b !in g.leaders ::
      (a, b) := Link(
        Plus(Plus(MeanOf(links, LeaderOf(g, a), LeaderOf(g, b)), MeanOf(links, Some(a), LeaderOf(g, a))),
             MeanOf(links, LeaderOf(g, b), Some(b))),
        Plus(Plus(VarianceOf(links, LeaderOf(g, a), LeaderOf(g, b)), VarianceOf(links, Some(a), LeaderOf(g, a))),
             VarianceOf(links, LeaderOf(g, b), Some(b))),
        None)
  }

  datatype Pass = First | Second | Third

  /** One INSERT OR REPLACE .. SELECT: all rows are computed from the table as it was. */
  function AfterPass(g: Groups, links: Links, pass: Pass): Links {
    links + NewRows(g, links, pass)
  }

  function NewRows(g: Groups, links: Links, pass: Pass): Links {
    match pass
    case First => ToFollowers(g, links)
    case Second => FromFollowers(g, links)
    case Third => BetweenFollowers(g, links)
  }

  function AfterPasses(g: Groups, links: Links, passes: seq<Pass>): Links
    decreases |passes|
  {
    if passes == [] then links else AfterPasses(g, AfterPass(g, links, passes[0]), passes[1..])
  }

  function Completed(g: Groups, links: Links): Links {
    AfterPasses(g, links, [First, Second, Third])
  }

  // ----- What completion computes

  /** Every leader monitors itself and every node is monitored by a leader. */
  ghost predicate Consistent(g: Groups) {
    && (forall l | l in g.leaders && l in g.monitoredBy :: g.monitoredBy[l] == l)
    && (forall n | n in g.monitoredBy :: g.monitoredBy[n] in g.leaders)
  }

  /** The nodes a message passes from `a` to `b`: up to the leader of `a` unless `a` is one, over to
      the leader of `b`, and down unless `b` is one. */
  ghost function RelayPath(g: Groups, a: Id, b: Id): seq<Id>
    requires a in g.monitoredBy && b in g.monitoredBy
  {
    (if a in g.leaders then [a] else [a, g.monitoredBy[a]]) + (if b in g.leaders then [b] else [g.monitoredBy[b], b])
  }

  /** The sum of a column over the hops of a path; null when a hop has no value. */
  ghost function Along(links: Links, path: seq<Id>, column: Link -> Option<real>): Option<real>
    requires |path| >= 2
  {
    var hop := if (path[0], path[1]) in links then column(links[(path[0], path[1])]) else None;
    if |path| == 2 then hop else Plus(hop, Along(links, path[1..], column))
  }

  ghost function Mean(): Link -> Option<real> { (l: Link) => l.meanL }
  ghost function Variance(): Link -> Option<real> { (l: Link) => l.varianceL }

  /** The links completion replaces. */
  ghost predicate Inferred(g: Groups, a: Id, b: Id) {
    Apart(g, a, b) && !(a in g.leaders && b in g.leaders)
  }

  ghost function RelayLink(g: Groups, links: Links, a: Id, b: Id): Link
    requires a in g.monitoredBy && b in g.monitoredBy
  {
    Link(Along(links, RelayPath(g, a, b), Mean()), Along(links, RelayPath(g, a, b), Variance()), None)
  }

  predicate Handles(g: Groups, pass: Pass, a: Id, b: Id) {
    match pass
    case First => a in g.leaders && b !in g.leaders
    case Second => a !in g.leaders && b in g.leaders
    case Third => a !in g.leaders && b !in g.leaders
  }

  lemma {:induction false} AlongTwo(links: Links, a: Id, b: Id, c: Id, column: Link -> Option<real>)
    ensures Along(links, [a, b, c], column) == Plus(Along(links, [a, b], column), Along(links, [b, c], column))
  {
    assert [a, b, c][1..] == [b, c];
  }

  lemma {:induction false} AlongThree(links: Links, a: Id, b: Id, c: Id, d: Id, column: Link -> Option<real>)
    ensures Along(links, [a, b, c, d], column) ==
      Plus(Along(links, [a, b], column), Plus(Along(links, [b, c], column), Along(links, [c, d], column)))
  {
    assert [a, b, c, d][1..] == [b, c, d];
    AlongTwo(links, b, c, d, column);
  }

  /** A pass writes the relay link of every pair it handles and nothing else. */
  lemma {:induction false} PassWritesRelays(g: Groups, links: Links, pass: Pass, a: Id, b: Id)
    requires Consistent(g)
    ensures Apart(g, a, b) && Handles(g, pass, a, b) ==>
      (a, b) in NewRows(g, links, pass) && NewRows(g, links, pass)[(a, b)] == RelayLink(g, links, a, b)
    ensures !(Apart(g, a, b) && Handles(g, pass, a, b)) ==> (a, b) !in NewRows(g, links, pass)
  {
    if Apart(g, a, b) && Handles(g, pass, a, b) {
      match pass {
        case First => FirstWritesRelay(g, links, a, b);
        case Second => SecondWritesRelay(g, links, a, b);
        case Third => ThirdWritesRelay(g, links, a, b);
      }
    }
  }

  lemma {:induction false} FirstWritesRelay(g: Groups, links: Links, a: Id, b: Id)
    requires Consistent(g) && Apart(g, a, b) && Handles(g, First, a, b)
    ensures (a, b) in ToFollowers(g, links) && ToFollowers(g, links)[(a, b)] == RelayLink(g, links, a, b)
  {
    AlongTwo(links, a, g.monitoredBy[b], b, Mean());
    AlongTwo(links, a, g.monitoredBy[b], b, Variance());
    assert RelayPath(g, a, b) == [a, g.monitoredBy[b], b];
  }

  lemma {:induction false} SecondWritesRelay(g: Groups, links: Links, a: Id, b: Id)
    requires Consistent(g) && Apart(g, a, b) && Handles(g, Second, a, b)
    ensures (a, b) in FromFollowers(g, links) && FromFollowers(g, links)[(a, b)] == RelayLink(g, links, a, b)
  {
    AlongTwo(links, a, g.monitoredBy[a], b, Mean());
    AlongTwo(links, a, g.monitoredBy[a], b, Variance());
    assert RelayPath(g, a, b) == [a, g.monitoredBy[a], b];
  }

  lemma {:induction false} ThirdWritesRelay(g: Groups, links: Links, a: Id, b: Id)
    requires Consistent(g) && Apart(g, a, b) && Handles(g, Third, a, b)
    ensures (a, b) in BetweenFollowers(g, links) && BetweenFollowers(g, links)[(a, b)] == RelayLink(g, links, a, b)
  {
    var la, lb := g.monitoredBy[a], g.monitoredBy[b];
    assert RelayPath(g, a, b) == [a, la, lb, b];
    AcrossThenUpAndDown(links, a, la, lb, b);
    assert LeaderOf(g, a) == Some(la) && LeaderOf(g, b) == Some(lb);
    var row := BetweenFollowers(g, links)[(a, b)];
    assert row.meanL == Along(links, [a, la, lb, b], Mean());
    assert row.varianceL == Along(links, [a, la, lb, b], Variance());
  }

  /** The order in which the third pass adds the hops does not matter. */
  lemma {:induction false} AcrossThenUpAndDown(links: Links, a: Id, la: Id, lb: Id, b: Id)
    ensures Plus(Plus(MeanOf(links, Some(la), Some(lb)), MeanOf(links, Some(a), Some(la))),
      MeanOf(links, Some(lb), Some(b)))
      == Along(links, [a, la, lb, b], Mean())
    ensures Plus(Plus(VarianceOf(links, Some(la), Some(lb)), VarianceOf(links, Some(a), Some(la))),
      VarianceOf(links, Some(lb), Some(b)))
      == Along(links, [a, la, lb, b], Variance())
  {
    AlongThree(links, a, la, lb, b, Mean());
    AlongThree(links, a, la, lb, b, Variance());
  }

  /** The two tables agree on every link that completion does not replace. */
  ghost predicate SameMeasured(g: Groups, x: Links, y: Links) {
    forall a, b | !Inferred(g, a, b) :: ((a, b) in x <==> (a, b) in y) && ((a, b) in x ==> x[(a, b)] == y[(a, b)])
  }

  /** No hop of a relay path is itself inferred. */
  lemma {:induction false} HopsAreMeasured(g: Groups, a: Id, b: Id)
    requires Consistent(g) && Inferred(g, a, b)
    ensures var path := RelayPath(g, a, b); forall i | 0 <= i < |path| - 1 :: !Inferred(g, path[i], path[i + 1])
  {
    var path, la, lb := RelayPath(g, a, b), g.monitoredBy[a], g.monitoredBy[b];
    forall i | 0 <= i < |path| - 1 ensures !Inferred(g, path[i], path[i + 1]) {
      assert la in g.leaders && lb in g.leaders;
      if a in g.leaders {
        assert path == if b in g.leaders then [a, b] else [a, lb, b];
      } else {
        assert path == if b in g.leaders then [a, la, b] else [a, la, lb, b];
      }
    }
  }

  lemma {:induction false} AlongAgrees(x: Links, y: Links, path: seq<Id>, column: Link -> Option<real>)
    requires |path| >= 2
    requires forall i | 0 <= i < |path| - 1 :: var hop := (path[i], path[i + 1]);
      (hop in x <==> hop in y) && (hop in x ==> x[hop] == y[hop])
    ensures Along(x, path, column) == Along(y, path, column)
  {
    if |path| > 2 { AlongAgrees(x, y, path[1..], column); }
  }

  lemma {:induction false} RelaysAreMeasured(g: Groups, x: Links, y: Links, a: Id, b: Id)
    requires Consistent(g) && Inferred(g, a, b) && SameMeasured(g, x, y)
    ensures RelayLink(g, x, a, b) == RelayLink(g, y, a, b)
  {
    HopsAreMeasured(g, a, b);
    AlongAgrees(x, y, RelayPath(g, a, b), Mean());
    AlongAgrees(x, y, RelayPath(g, a, b), Variance());
  }

  /** `after` holds the relay links for the pairs of some passes, and the rest of `links`. */
  ghost predicate Relayed(g: Groups, links: Links, after: Links, done: set<Pass>) {
    forall a, b ::
      if Apart(g, a, b) && HandledBy(g, done, a, b) then (a, b) in after && after[(a, b)] == RelayLink(g, links, a, b)
      else ((a, b) in after <==> (a, b) in links) && ((a, b) in links ==> after[(a, b)] == links[(a, b)])
  }

  ghost predicate HandledBy(g: Groups, done: set<Pass>, a: Id, b: Id) {
    exists p | p in done :: Handles(g, p, a, b)
  }

  lemma {:induction false} RelayedKeepsMeasured(g: Groups, links: Links, after: Links, done: set<Pass>)
    requires Relayed(g, links, after, done)
    ensures SameMeasured(g, links, after)
  {
    forall a, b | !Inferred(g, a, b)
      ensures ((a, b) in links <==> (a, b) in after) && ((a, b) in links ==> links[(a, b)] == after[(a, b)])
    {
      assert !(Apart(g, a, b) && HandledBy(g, done, a, b));
    }
  }

  lemma {:induction false} OneMorePass(g: Groups, links: Links, after: Links, done: set<Pass>, pass: Pass)
    requires Consistent(g) && Relayed(g, links, after, done)
    ensures Relayed(g, links, AfterPass(g, after, pass), done + {pass})
  {
    RelayedKeepsMeasured(g, links, after, done);
    var next := AfterPass(g, after, pass);
    forall a, b
      ensures if Apart(g, a, b) && HandledBy(g, done + {pass}, a, b)
        then (a, b) in next && next[(a, b)] == RelayLink(g, links, a, b)
        else ((a, b) in next <==> (a, b) in links) && ((a, b) in links ==> next[(a, b)] == links[(a, b)])
    {
      PassWritesRelays(g, after, pass, a, b);
      assert HandledBy(g, done + {pass}, a, b) <==> HandledBy(g, done, a, b) || Handles(g, pass, a, b);
      if Apart(g, a, b) && Handles(g, pass, a, b) {
        RelaysAreMeasured(g, links, after, a, b);
      }
    }
  }

  ghost function Passes(passes: seq<Pass>): set<Pass> {
    set p | p in passes
  }

  lemma {:induction false} PassesRelay(g: Groups, links: Links, after: Links, done: set<Pass>, passes: seq<Pass>)
    requires Consistent(g) && Relayed(g, links, after, done)
    ensures Relayed(g, links, AfterPasses(g, after, passes), done + Passes(passes))
    decreases |passes|
  {
    if passes == [] {
      assert done + Passes(passes) == done;
    } else {
      OneMorePass(g, links, after, done, passes[0]);
      PassesRelay(g, links, AfterPass(g, after, passes[0]), done + {passes[0]}, passes[1..]);
      assert done + Passes(passes) == done + {passes[0]} + Passes(passes[1..]);
    }
  }

  // ----- The results

  /** Passes in which each of the three occurs, in any order and any number of times. */
  ghost predicate Covers(passes: seq<Pass>) {
    First in passes && Second in passes && Third in passes
  }

  /** Completion gives every inferred pair the sum along its relay path, of means and of variances,
      and leaves every other link alone, in whatever order the passes run. */
  lemma {:induction false} CompletionRelays(g: Groups, links: Links, passes: seq<Pass>, a: Id, b: Id)
    requires Consistent(g) && Covers(passes)
    ensures var after := AfterPasses(g, links, passes);
      if Inferred(g, a, b) then (a, b) in after && after[(a, b)] == RelayLink(g, links, a, b)
      else ((a, b) in after <==> (a, b) in links) && ((a, b) in links ==> after[(a, b)] == links[(a, b)])
  {
    assert Relayed(g, links, links, {});
    PassesRelay(g, links, links, {}, passes);
    if Inferred(g, a, b) {
      var p := if a in g.leaders then First else if b in g.leaders then Second else Third;
      assert p in {} + Passes(passes) && Handles(g, p, a, b);
    } else if Apart(g, a, b) {
      assert !HandledBy(g, {} + Passes(passes), a, b);
    }
  }

  ghost function MeanAt(links: Links, a: Id, b: Id): Option<real> {
    if (a, b) in links then links[(a, b)].meanL else None
  }

  ghost function VarianceAt(links: Links, a: Id, b: Id): Option<real> {
    if (a, b) in links then links[(a, b)].varianceL else None
  }

  ghost predicate SumOfTwo(r: Option<real>, x: Option<real>, y: Option<real>) {
    if x.Some? && y.Some? then r == Some(x.value + y.value) else r == None
  }

  ghost predicate SumOfThree(r: Option<real>, x: Option<real>, y: Option<real>, z: Option<real>) {
    if x.Some? && y.Some? && z.Some? then r == Some(x.value + y.value + z.value) else r == None
  }

  /** In the completed table the link from `a` to `b` has the values of the two hops over `m`, added up. */
  ghost predicate OverOne(links: Links, after: Links, a: Id, m: Id, b: Id) {
    && (a, b) in after && after[(a, b)].lasttimeL == None
    && SumOfTwo(after[(a, b)].meanL, MeanAt(links, a, m), MeanAt(links, m, b))
    && SumOfTwo(after[(a, b)].varianceL, VarianceAt(links, a, m), VarianceAt(links, m, b))
  }

  /** The same for the three hops over `m` and `n`. */
  ghost predicate OverTwo(links: Links, after: Links, a: Id, m: Id, n: Id, b: Id) {
    && (a, b) in after && after[(a, b)].lasttimeL == None
    && SumOfThree(after[(a, b)].meanL, MeanAt(links, a, m), MeanAt(links, m, n), MeanAt(links, n, b))
    && SumOfThree(after[(a, b)].varianceL, VarianceAt(links, a, m), VarianceAt(links, m, n), VarianceAt(links, n, b))
  }

  /** In numbers: a pair filled in gets the sums of the measured means and of the measured variances over
      the leader of the node that is none, or over the leaders of both; null exactly when a hop is
      missing or null. */
  lemma {:induction false} CompletionAdds(g: Groups, links: Links, passes: seq<Pass>, a: Id, b: Id)
    requires Consistent(g) && Covers(passes) && Inferred(g, a, b)
    ensures var after, la, lb := AfterPasses(g, links, passes), g.monitoredBy[a], g.monitoredBy[b];
      if a in g.leaders then OverOne(links, after, a, lb, b)
      else if b in g.leaders then OverOne(links, after, a, la, b)
      else OverTwo(links, after, a, la, lb, b)
  {
    var after, la, lb := AfterPasses(g, links, passes), g.monitoredBy[a], g.monitoredBy[b];
    CompletionRelays(g, links, passes, a, b);
    if a in g.leaders {
      assert RelayPath(g, a, b) == [a, lb, b];
      SumOverOne(links, after, a, lb, b);
    } else if b in g.leaders {
      assert RelayPath(g, a, b) == [a, la, b];
      SumOverOne(links, after, a, la, b);
    } else {
      assert RelayPath(g, a, b) == [a, la, lb, b];
      SumOverTwo(links, after, a, la, lb, b);
    }
  }

  lemma {:induction false} HopValues(links: Links, a: Id, b: Id)
    ensures Along(links, [a, b], Mean()) == MeanAt(links, a, b)
    ensures Along(links, [a, b], Variance()) == VarianceAt(links, a, b)
  {}

  lemma {:induction false} SumOverOne(links: Links, after: Links, a: Id, m: Id, b: Id)
    requires (a, b) in after && after[(a, b)].lasttimeL == None
    requires after[(a, b)].meanL == Along(links, [a, m, b], Mean())
    requires after[(a, b)].varianceL == Along(links, [a, m, b], Variance())
    ensures OverOne(links, after, a, m, b)
  {
    AlongTwo(links, a, m, b, Mean());
    AlongTwo(links, a, m, b, Variance());
    HopValues(links, a, m);
    HopValues(links, m, b);
  }

  lemma {:induction false} SumOverTwo(links: Links, after: Links, a: Id, m: Id, n: Id, b: Id)
    requires (a, b) in after && after[(a, b)].lasttimeL == None
    requires after[(a, b)].meanL == Along(links, [a, m, n, b], Mean())
    requires after[(a, b)].varianceL == Along(links, [a, m, n, b], Variance())
    ensures OverTwo(links, after, a, m, n, b)
  {
    AlongThree(links, a, m, n, b, Mean());
    AlongThree(links, a, m, n, b, Variance());
    HopValues(links, a, m);
    HopValues(links, m, n);
    HopValues(links, n, b);
  }

  lemma {:induction false} SameTables(x: Links, y: Links)
    requires forall a, b :: ((a, b) in x <==> (a, b) in y) && ((a, b) in x ==> x[(a, b)] == y[(a, b)])
    ensures x == y
  {
    forall k: (Id, Id) ensures (k in x <==> k in y) && (k in x ==> x[k] == y[k]) {
      var a, b := k.0, k.1;
      assert k == (a, b);
      assert (a, b) in x <==> (a, b) in y;
    }
  }

  /** The order of the passes does not matter. */
  lemma {:induction false} OrderIsIrrelevant(g: Groups, links: Links, passes: seq<Pass>)
    requires Consistent(g) && Covers(passes)
    ensures AfterPasses(g, links, passes) == Completed(g, links)
  {
    forall a, b ensures var x, y := AfterPasses(g, links, passes), Completed(g, links);
      ((a, b) in x <==> (a, b) in y) && ((a, b) in x ==> x[(a, b)] == y[(a, b)])
    {
      CompletionRelays(g, links, passes, a, b);
      CompletionRelays(g, links, [First, Second, Third], a, b);
    }
    SameTables(AfterPasses(g, links, passes), Completed(g, links));
  }

  lemma {:induction false} PassesJoin(g: Groups, links: Links, p: seq<Pass>, q: seq<Pass>)
    ensures AfterPasses(g, AfterPasses(g, links, p), q) == AfterPasses(g, links, p + q)
    decreases |p|
  {
    if p == [] {
      assert p + q == q;
    } else {
      assert (p + q)[1..] == p[1..] + q;
      PassesJoin(g, AfterPass(g, links, p[0]), p[1..], q);
    }
  }

  /** Completing a completed table changes nothing. */
  lemma {:induction false} CompletionIsIdempotent(g: Groups, links: Links)
    requires Consistent(g)
    ensures Completed(g, Completed(g, links)) == Completed(g, links)
  {
    var once := [First, Second, Third];
    PassesJoin(g, links, once, once);
    OrderIsIrrelevant(g, links, once + once);
  }

  /** That leaders monitor themselves is needed: otherwise the first pass takes the link from a
      leader to its own follower for one between groups and replaces the measurement. */
  lemma {:induction false} SelfMonitoringIsNeeded(g: Groups, links: Links, l: Id, f: Id)
    requires l in g.leaders && l in g.monitoredBy && f in g.monitoredBy && f !in g.leaders && g.monitoredBy[f] == l
    requires (l, l) !in links && (l, f) in links && links[(l, f)].meanL.Some?
    ensures AfterPass(g, links, First)[(l, f)] == links[(l, f)] <==> g.monitoredBy[l] == l
  {
    if g.monitoredBy[l] != l {
      assert Apart(g, l, f) && LeaderOf(g, f) == Some(l);
      assert ToFollowers(g, links)[(l, f)].meanL == None;
    }
  }

  // ----- Symmetry

  ghost predicate Symmetric(links: Links) {
    forall a, b | (a, b) in links :: (b, a) in links && links[(a, b)] == links[(b, a)]
  }

  lemma {:induction false} HopIsSymmetric(links: Links, a: Id, b: Id, column: Link -> Option<real>)
    requires Symmetric(links)
    ensures Along(links, [a, b], column) == Along(links, [b, a], column)
  {}

  lemma {:induction false} RelayIsSymmetric(g: Groups, links: Links, a: Id, b: Id, column: Link -> Option<real>)
    requires Consistent(g) && Symmetric(links) && Inferred(g, a, b)
    ensures Along(links, RelayPath(g, a, b), column) == Along(links, RelayPath(g, b, a), column)
  {
    var la, lb := g.monitoredBy[a], g.monitoredBy[b];
    HopIsSymmetric(links, a, la, column);
    HopIsSymmetric(links, la, lb, column);
    HopIsSymmetric(links, lb, b, column);
    if a in g.leaders {
      assert RelayPath(g, a, b) == [a, lb, b] && RelayPath(g, b, a) == [b, lb, a];
      AlongTwo(links, a, lb, b, column);
      AlongTwo(links, b, lb, a, column);
    } else if b in g.leaders {
      assert RelayPath(g, a, b) == [a, la, b] && RelayPath(g, b, a) == [b, la, a];
      AlongTwo(links, a, la, b, column);
      AlongTwo(links, b, la, a, column);
    } else {
      assert RelayPath(g, a, b) == [a, la, lb, b] && RelayPath(g, b, a) == [b, lb, la, a];
      AlongThree(links, a, la, lb, b, column);
      AlongThree(links, b, lb, la, a, column);
    }
  }

  /** Completion keeps a symmetric table symmetric. */
  lemma {:induction false} CompletionKeepsSymmetry(g: Groups, links: Links)
    requires Consistent(g) && Symmetric(links)
    ensures Symmetric(Completed(g, links))
  {
    var after := Completed(g, links);
    forall a, b | (a, b) in after ensures (b, a) in after && after[(a, b)] == after[(b, a)] {
      CompletionRelays(g, links, [First, Second, Third], a, b);
      CompletionRelays(g, links, [First, Second, Third], b, a);
      if Inferred(g, a, b) {
        RelayIsSymmetric(g, links, a, b, Mean());
        RelayIsSymmetric(g, links, a, b, Variance());
      }
    }
  }
}
