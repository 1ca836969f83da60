/** The mode, median and quartile aggregates: a context that counts the values of a column in
    an ordered tree, and finalizers that answer with one early-stopping in-order scan. */
module Aggregates {
  import opened CountingTree
  import opened Ranks

  datatype SqlValue = Null | Integer(i: int) | Real(r: real)

  const TWO31 := 0x8000_0000
  const TWO32 := 0x1_0000_0000

  /** The low 32 bits of a stored integer, read as a signed `int` by the scan callbacks. */
  function Trunc32(x: int): int {
    (x + TWO31) % TWO32 - TWO31
  }

  /** How many times the 32-bit range had to be left to reach `x`. */
  function Wraps(x: int): int {
    (x + TWO31) / TWO32
  }

  function Clamp64(x: int): int {
    if x < -0x8000_0000_0000_0000 then -0x8000_0000_0000_0000
    else if x > 0x7fff_ffff_ffff_ffff then 0x7fff_ffff_ffff_ffff else x
  }

  /** SQLite's conversions of a value to a double and to a 64-bit integer (towards zero). */
  function AsDouble(v: SqlValue): real {
    match v case Null => 0.0 case Integer(i) => i as real case Real(r) => r
  }
  function AsInt64(v: SqlValue): int {
    match v
    case Null => 0
    case Integer(i) => i
    case Real(r) => Clamp64(if r < 0.0 then -((-r).Floor) else r.Floor)
  }

  /** The value a column of the given kind stores for `v`. */
  function Stored(v: SqlValue, isDouble: bool): real {
    if isDouble then AsDouble(v) else AsInt64(v) as real
  }

  /** `k` is the real number `r` without its fraction. */
  ghost predicate Truncates(r: real, k: int) {
    if r >= 0.0 then 0 <= k && k as real <= r < k as real + 1.0 else k <= 0 && k as real - 1.0 < r <= k as real
  }

  /** What a column stores: a value of its own kind is kept as it is, an integer among reals too; a real
      among integers loses its fraction and is moved into the range of 64-bit integers. */
  lemma {:induction false} StoredIsTheValue(v: SqlValue)
    ensures v.Null? ==> forall isDouble :: Stored(v, isDouble) == 0.0
    ensures v.Integer? ==> forall isDouble :: Stored(v, isDouble) == v.i as real
    ensures v.Real? ==> Stored(v, true) == v.r
    ensures v.Real? ==>
      var k := Stored(v, false).Floor;
      && Stored(v, false) == k as real
      && -0x8000_0000_0000_0000 <= k <= 0x7fff_ffff_ffff_ffff
      && (Truncates(v.r, k)
        || (k == 0x7fff_ffff_ffff_ffff && v.r > k as real) || (k == -0x8000_0000_0000_0000 && v.r < k as real))
  {}

  // ----- The scan over a table, as a fold

  datatype Callback = ModeScan | MedianScan

  /** The scalar fields of the context. */
  datatype Scalars = Scalars(riM: int, rdM: real, cnt: int, pcnt: real, mcnt: int, mn: int, isDouble: bool, done: bool)

  ghost function AfterMode(s: Scalars, e: Entry): Scalars {
    if s.mcnt == e.count then s.(mn := s.mn + 1)
    else if s.mcnt < e.count then
      if s.isDouble then s.(rdM := e.value, mcnt := e.count, mn := 1)
      else s.(riM := Trunc32(e.value.Floor), mcnt := e.count, mn := 1)
    else s
  }

  ghost function AfterMedian(s: Scalars, e: Entry): Scalars {
    if s.done then s
    else
      var t := s.(mcnt := s.mcnt + e.count);
      if (s.mcnt + e.count) as real >= s.pcnt then
        if (s.cnt - s.mcnt) as real >= s.cnt as real - s.pcnt then
          if s.isDouble then t.(mn := s.mn + 1, rdM := s.rdM + e.value)
          else t.(mn := s.mn + 1, riM := s.riM + Trunc32(e.value.Floor))
        else t.(done := true)
      else t
  }

  ghost function After(iter: Callback, s: Scalars, e: Entry): Scalars {
    if iter.ModeScan? then AfterMode(s, e) else AfterMedian(s, e)
  }

  ghost function Run(iter: Callback, es: seq<Entry>, s: Scalars): Scalars {
    if es == [] then s else Run(iter, es[1..], After(iter, s, es[0]))
  }

  lemma {:induction false} RunAppend(iter: Callback, es: seq<Entry>, fs: seq<Entry>, s: Scalars)
    ensures Run(iter, es + fs, s) == Run(iter, fs, Run(iter, es, s))
  {
    if es == [] {
      assert es + fs == fs;
    } else {
      assert (es + fs)[1..] == es[1..] + fs;
      RunAppend(iter, es[1..], fs, After(iter, s, es[0]));
    }
  }

  // ----- The mode

  /** `v` occurs strictly more often than every other value. */
  ghost predicate StrictMode(bag: multiset<real>, v: real) {
    v in bag && forall w | w in bag && w != v :: bag[w] < bag[v]
  }

  /** The value as the kind of column reports it. */
  function Reported(v: real, isDouble: bool): SqlValue {
    if isDouble then Real(v) else Integer(Trunc32(v.Floor))
  }

  ghost predicate UniqueTop(es: seq<Entry>, i: nat) {
    i < |es| && forall j | 0 <= j < |es| && j != i :: es[j].count < es[i].count
  }

  ghost function ModeFound(r: Scalars): SqlValue {
    if r.isDouble then Real(r.rdM) else Integer(r.riM)
  }

  ghost predicate ModeScanned(es: seq<Entry>, r: Scalars) {
    && (forall i | 0 <= i < |es| :: es[i].count <= r.mcnt)
    && (es == [] ==> r.mcnt == 0 && r.mn == 0)
    && (es != [] ==> r.mn >= 1 && exists i | 0 <= i < |es| :: es[i].count == r.mcnt)
    && (forall i: nat | UniqueTop(es, i) :: ModeFound(r) == Reported(es[i].value, r.isDouble))
    && (r.mn == 1 <==> exists i: nat :: UniqueTop(es, i))
  }

  lemma {:induction false} ModeScanFindsTop(es: seq<Entry>, s: Scalars)
    requires PositiveCounts(es) && s.mcnt == 0 && s.mn == 0
    ensures var r := Run(ModeScan, es, s); ModeScanned(es, r) && r.isDouble == s.isDouble
  {
    if es != [] {
      var k := |es| - 1;
      assert es == es[..k] + [es[k]];
      ModeScanFindsTop(es[..k], s);
      RunAppend(ModeScan, es[..k], [es[k]], s);
      assert Run(ModeScan, [es[k]], Run(ModeScan, es[..k], s)) == AfterMode(Run(ModeScan, es[..k], s), es[k]);
      ModeScannedStep(es[..k], es[k], Run(ModeScan, es[..k], s));
    }
  }

  ghost function Ties(es: seq<Entry>, count: int): set<nat> {
    set i: nat | i < |es| && es[i].count == count
  }

  /** The tie counter counts the entries with the largest count. */
  lemma {:induction false} TieCounterCounts(es: seq<Entry>, s: Scalars)
    requires PositiveCounts(es) && s.mcnt == 0 && s.mn == 0
    ensures var r := Run(ModeScan, es, s); r.mn == |Ties(es, r.mcnt)|
  {
    if es != [] {
      var k: nat := |es| - 1;
      var before, e := es[..k], es[k];
      assert es == before + [e];
      TieCounterCounts(before, s);
      ModeScanFindsTop(before, s);
      RunAppend(ModeScan, before, [e], s);
      var x := Run(ModeScan, before, s);
      assert Run(ModeScan, [e], x) == AfterMode(x, e);
      TiesStep(before, e, x);
    }
  }

  lemma {:induction false} TiesStep(es: seq<Entry>, e: Entry, s: Scalars)
    requires (forall i | 0 <= i < |es| :: es[i].count <= s.mcnt) && s.mn == |Ties(es, s.mcnt)|
    ensures AfterMode(s, e).mn == |Ties(es + [e], AfterMode(s, e).mcnt)|
  {
    TiesOneMore(es, e, s.mcnt, AfterMode(s, e).mcnt);
    assert |es| !in Ties(es, s.mcnt);
  }

  lemma {:induction false} TiesOneMore(es: seq<Entry>, e: Entry, top: int, top': int)
    requires forall i | 0 <= i < |es| :: es[i].count <= top
    requires top' == if top < e.count then e.count else top
    ensures Ties(es + [e], top') == if top < e.count then {|es|}
      else if top == e.count then Ties(es, top) + {|es|} else Ties(es, top)
  {
    var fs, k := es + [e], |es|;
    assert fs[k] == e && forall i | 0 <= i < k :: fs[i] == es[i];
  }

  lemma {:induction false} ModeScannedStep(es: seq<Entry>, e: Entry, s: Scalars)
    requires e.count > 0 && ModeScanned(es, s)
    ensures ModeScanned(es + [e], AfterMode(s, e))
  {
    var fs, r, k := es + [e], AfterMode(s, e), |es|;
    assert fs[k] == e && forall i | 0 <= i < k :: fs[i] == es[i];
    if s.mcnt < e.count {
      assert UniqueTop(fs, k);
      forall i: nat | UniqueTop(fs, i) ensures i == k {}
    } else {
      assert es != [];
      var t :| 0 <= t < k && es[t].count == s.mcnt;
      assert fs[t].count == r.mcnt;
      forall i: nat ensures UniqueTop(fs, i) <==> UniqueTop(es, i) && e.count < s.mcnt {
        TopAfterSmaller(es, e, i, t);
      }
    }
  }

  lemma {:induction false} TopAfterSmaller(es: seq<Entry>, e: Entry, i: nat, t: nat)
    requires t < |es| && e.count <= es[t].count
    requires forall j | 0 <= j < |es| :: es[j].count <= es[t].count
    ensures UniqueTop(es + [e], i) <==> UniqueTop(es, i) && e.count < es[t].count
  {
    var fs, k := es + [e], |es|;
    assert fs[k] == e && forall j | 0 <= j < k :: fs[j] == es[j];
    if UniqueTop(fs, i) {
      assert fs[k].count <= fs[t].count;
      assert UniqueTop(es, i) && fs[k].count < fs[i].count;
    }
    if UniqueTop(es, i) && e.count < es[t].count {
      assert es[i].count <= es[t].count;
    }
  }

  lemma {:induction false} TopIsStrictMode(es: seq<Entry>, bag: multiset<real>, i: nat)
    requires Tabulates(es, bag) && i < |es|
    ensures UniqueTop(es, i) <==> StrictMode(bag, es[i].value)
  {
    assert bag[es[i].value] == es[i].count > 0;
    if UniqueTop(es, i) {
      forall w | w in bag && w != es[i].value ensures bag[w] < bag[es[i].value] {
        assert Lists(es, w);
        var j :| 0 <= j < |es| && es[j].value == w;
      }
    } else {
      var j :| 0 <= j < |es| && j != i && es[j].count >= es[i].count;
      assert es[j].value != es[i].value && es[j].value in bag;
    }
  }

  /** `result` reports the mode of the column: null when no value beats all others. */
  ghost predicate IsMode(inputs: seq<real>, isDouble: bool, result: SqlValue) {
    && (result.Null? <==> forall v :: !StrictMode(multiset(inputs), v))
    && (forall v | StrictMode(multiset(inputs), v) :: result == Reported(v, isDouble))
  }

  ghost function ModeAnswer(r: Scalars): SqlValue {
    if r.mn == 1 then ModeFound(r) else Null
  }

  lemma {:induction false} ModeScanAnswers(es: seq<Entry>, inputs: seq<real>, s: Scalars)
    requires Tabulates(es, multiset(inputs)) && s.mcnt == 0 && s.mn == 0
    ensures IsMode(inputs, s.isDouble, ModeAnswer(Run(ModeScan, es, s)))
    ensures Run(ModeScan, es, s).isDouble == s.isDouble
  {
    ModeScanFindsTop(es, s);
    var bag := multiset(inputs);
    if i: nat :| UniqueTop(es, i) {
      TopIsStrictMode(es, bag, i);
    }
    forall v | StrictMode(bag, v) ensures exists i: nat :: UniqueTop(es, i) && es[i].value == v {
      assert Lists(es, v);
      var i: nat :| i < |es| && es[i].value == v;
      TopIsStrictMode(es, bag, i);
    }
  }

  // ----- The percentiles

  ghost function SumReported(vs: seq<real>): int {
    if vs == [] then 0 else Trunc32(vs[0].Floor) + SumReported(vs[1..])
  }

  ghost function SumReal(vs: seq<real>): real {
    if vs == [] then 0.0 else vs[0] + SumReal(vs[1..])
  }

  /** The early-stopping scan adds up exactly the entries that bracket the rank. */
  lemma {:induction false} MedianScanCollects(es: seq<Entry>, s: Scalars, k: int)
    requires s.pcnt == k as real / 4.0
    requires s.done ==> k < 4 * s.mcnt
    ensures var r, vs := Run(MedianScan, es, s), Bracketing(es, s.mcnt, k);
      && r.mn == s.mn + |vs|
      && r.isDouble == s.isDouble
      && r.riM == (if s.isDouble then s.riM else s.riM + SumReported(vs))
      && r.rdM == (if s.isDouble then s.rdM + SumReal(vs) else s.rdM)
  {
    if es != [] {
      if s.done {
        NothingBelowRank(es, s.mcnt, k);
        NothingBelowRank(es[1..], s.mcnt, k);
      }
      MedianScanCollects(es[1..], AfterMedian(s, es[0]), k);
    }
  }

  /** The percentile of sorted values `s` at rank |s| * quarters / 4: the mean of the two values
      the rank lies between. An integer column reports each value modulo 2^32. */
  function Percentile(s: seq<real>, quarters: nat): real
    requires s != [] && 1 <= quarters <= 3
  {
    (s[LowRank(|s|, quarters)] + s[HighRank(|s|, quarters)]) / 2.0
  }

  function ReportedPercentile(s: seq<real>, quarters: nat, isDouble: bool): SqlValue
    requires s != [] && 1 <= quarters <= 3
  {
    var lo, hi := s[LowRank(|s|, quarters)], s[HighRank(|s|, quarters)];
    if isDouble then Real(Percentile(s, quarters))
    else if lo == hi then Integer(Trunc32(lo.Floor))
    else Real((Trunc32(lo.Floor) + Trunc32(hi.Floor)) as real / 2.0)
  }

  /** A percentile divides the sorted values: up to it lie at least the given quarters of them, and from
      it on at least the others. */
  lemma {:induction false} PercentileDivides(s: seq<real>, quarters: nat)
    requires s != [] && 1 <= quarters <= 3 && Sorted(s)
    ensures var p, lo, hi := Percentile(s, quarters), LowRank(|s|, quarters), HighRank(|s|, quarters);
      && (forall i | 0 <= i <= lo :: s[i] <= p) && 4 * (lo + 1) >= |s| * quarters
      && (forall i | hi <= i < |s| :: p <= s[i]) && 4 * (|s| - hi) >= |s| * (4 - quarters)
  {
    var lo, hi := LowRank(|s|, quarters), HighRank(|s|, quarters);
    assert s[lo] <= s[hi];
  }

  /** On an integer column the reported percentile is the true one exactly when the two values
      left the 32-bit range by opposite amounts; in particular when both fit in 32 bits. */
  lemma {:induction false} IntegerPercentileIsExact(s: seq<real>, quarters: nat)
    requires s != [] && 1 <= quarters <= 3
    requires forall i | 0 <= i < |s| :: s[i] == s[i].Floor as real
    ensures AsDouble(ReportedPercentile(s, quarters, false)) == Percentile(s, quarters)
      <==> Wraps(s[LowRank(|s|, quarters)].Floor) + Wraps(s[HighRank(|s|, quarters)].Floor) == 0
  {
    var lo, hi := s[LowRank(|s|, quarters)].Floor, s[HighRank(|s|, quarters)].Floor;
    assert Trunc32(lo) == lo - TWO32 * Wraps(lo);
    assert Trunc32(hi) == hi - TWO32 * Wraps(hi);
  }

  /** A column holding just 2^32 has the reported median 0. */
  lemma {:induction false} LargeMedianIsZero()
    ensures var x := TWO32 as real;
      IsPercentile([x], 2, false, Integer(0)) && Percentile(SortedCopy([x]), 2) == x
  {
    var x := TWO32 as real;
    SortedCopyIsSorted([x]);
    assert multiset(SortedCopy([x])) == multiset([x]);
    assert SortedCopy([x]) == [x] by { SortedUnique(SortedCopy([x]), [x]); }
    assert Trunc32(x.Floor) == 0;
  }

  lemma {:induction false} FitsWithoutWrapping(x: int)
    ensures Wraps(x) == 0 <==> -TWO31 <= x < TWO31
    ensures Trunc32(x) == x <==> -TWO31 <= x < TWO31
    ensures -TWO31 <= Trunc32(x) < TWO31 && (x - Trunc32(x)) % TWO32 == 0
  {
    assert Trunc32(x) == x - TWO32 * Wraps(x);
  }

  /** `result` reports the value at the given quartile of the sorted column, null when there are
      no rows. */
  ghost predicate IsPercentile(inputs: seq<real>, quarters: nat, isDouble: bool, result: SqlValue)
    requires 1 <= quarters <= 3
  {
    if inputs == [] then result.Null?
    else result == ReportedPercentile(SortedCopy(inputs), quarters, isDouble)
  }

  ghost function PercentileAnswer(r: Scalars): SqlValue
    requires r.mn != 0
  {
    if r.isDouble then Real(r.rdM / r.mn as real)
    else if r.mn == 1 then Integer(r.riM)
    else Real(r.riM as real * 1.0 / r.mn as real)
  }

  lemma {:induction false} PercentileScanAnswers(es: seq<Entry>, inputs: seq<real>, quarters: nat, s: Scalars)
    requires Tabulates(es, multiset(inputs)) && inputs != [] && 1 <= quarters <= 3
    requires s.pcnt == (|inputs| * quarters) as real / 4.0
    requires s.riM == 0 && s.rdM == 0.0 && s.mcnt == 0 && s.mn == 0 && !s.done
    ensures var r := Run(MedianScan, es, s);
      && r.mn != 0 && r.isDouble == s.isDouble
      && IsPercentile(inputs, quarters, s.isDouble, PercentileAnswer(r))
  {
    var sorted := SortedCopy(inputs);
    var lo, hi := sorted[LowRank(|inputs|, quarters)], sorted[HighRank(|inputs|, quarters)];
    var vs := if lo == hi then [lo] else [lo, hi];
    assert Bracketing(es, 0, |inputs| * quarters) == vs by {
      ExpandIsSortedCopy(es, inputs);
      BracketingIsPercentile(es, 0, |inputs| * quarters, LowRank(|inputs|, quarters), HighRank(|inputs|, quarters));
    }
    MedianScanCollects(es, s, |inputs| * quarters);
    SumsOfBracket(lo, hi);
  }

  lemma {:induction false} SumsOfBracket(lo: real, hi: real)
    ensures SumReported([lo]) == Trunc32(lo.Floor) && SumReal([lo]) == lo
    ensures SumReported([lo, hi]) == Trunc32(lo.Floor) + Trunc32(hi.Floor) && SumReal([lo, hi]) == lo + hi
  {
    assert [lo][1..] == [] && [hi][1..] == [] && [lo, hi][1..] == [hi];
  }

  // ----- The aggregate context

  /** A context is allocated zeroed at the first non-null row; `m == null` also stands for a
      context that was never allocated. */
  class ModeCtx {
    var riM: int
    var rdM: real
    var cnt: int
    var pcnt: real
    var mcnt: int
    var mn: int
    var isDouble: bool
    var m: CountMap?
    var done: bool

    /** The stored column values, in row order. */
    ghost var inputs: seq<real>

    constructor ()
      ensures Valid() && m == null && inputs == [] && !isDouble
    {
      riM, rdM, cnt, pcnt, mcnt, mn, isDouble, m, done := 0, 0.0, 0, 0.0, 0, 0, false, null, false;
      inputs := [];
    }

    ghost predicate Valid()
      reads this, m, if m == null then null else m.base, Footprint()
    {
      if m == null then inputs == [] && cnt == 0 && Unscanned() else inputs != [] && Counting()
    }

    ghost predicate Counting()
      reads this, m, if m == null then null else m.base, Footprint()
    {
      m != null && this !in Footprint() && m.Valid() && m.inputs == inputs && cnt == |inputs| && Unscanned()
    }

    ghost predicate Unscanned()
      reads this
    {
      riM == 0 && rdM == 0.0 && mcnt == 0 && mn == 0 && !done
    }

    /** The objects of the counting map. */
    ghost function Footprint(): set<object>
      reads this, m, if m == null then null else m.base
    {
      if m == null then {} else {m} + CountingTree.Footprint(m.base)
    }

    ghost function State(): Scalars
      reads this
    {
      Scalars(riM, rdM, cnt, pcnt, mcnt, mn, isDouble, done)
    }

    /** One row: nulls are skipped, the first value decides the kind of the column. */
    method ModeStep(v: SqlValue)
      requires Valid()
      modifies this, Footprint()
      ensures Valid() && fresh(Footprint() - old(Footprint()))
      ensures isDouble == if v.Null? || old(inputs) != [] then old(isDouble) else v.Real?
      ensures inputs == old(inputs) + if v.Null? then [] else [Stored(v, isDouble)]
    {
      if v.Null? {
        return;
      }
      if m == null {
        m := new CountMap();
        isDouble := !v.Integer?;
      }
      Count(if !isDouble then AsInt64(v) as real else AsDouble(v));
    }

    /** One more stored value. */
    method Count(x: real)
      requires Counting()
      modifies this, Footprint()
      ensures Valid() && m == old(m) && fresh(Footprint() - old(Footprint()))
      ensures inputs == old(inputs) + [x] && isDouble == old(isDouble)
    {
      m.Insert(x);
      cnt := cnt + 1;
      inputs := inputs + [x];
    }

    method ModeIterate(e: real, c: nat)
      modifies `riM, `rdM, `mcnt, `mn
      ensures State() == AfterMode(old(State()), Entry(e, c))
    {
      if !isDouble {
        var ei := Trunc32(e.Floor);
        if mcnt == c {
          mn := mn + 1;
        } else if mcnt < c {
          riM := ei;
          mcnt := c;
          mn := 1;
        }
      } else {
        if mcnt == c {
          mn := mn + 1;
        } else if mcnt < c {
          rdM := e;
          mcnt := c;
          mn := 1;
        }
      }
    }

    method MedianIterate(e: real, c: nat)
      modifies `riM, `rdM, `mcnt, `mn, `done
      ensures State() == AfterMedian(old(State()), Entry(e, c))
    {
      if done {
        return;
      }
      var iL := pcnt;
      var iR := cnt as real - pcnt;
      var il := mcnt + c;
      var ir := cnt - mcnt;
      if il as real >= iL {
        if ir as real >= iR {
          mn := mn + 1;
          if !isDouble {
            riM := riM + Trunc32(e.Floor);
          } else {
            rdM := rdM + e;
          }
        } else {
          done := true;
        }
      }
      mcnt := mcnt + c;
    }

    method Call(iter: Callback, e: real, c: nat)
      modifies `riM, `rdM, `mcnt, `mn, `done
      ensures State() == After(iter, old(State()), Entry(e, c))
    {
      if iter.ModeScan? { ModeIterate(e, c); } else { MedianIterate(e, c); }
    }

    /** The mode: a value exactly when one value occurs strictly more often than all others. */
    method ModeFinalize() returns (result: SqlValue)
      requires Valid()
      modifies this
      ensures isDouble == old(isDouble)
      ensures IsMode(old(inputs), isDouble, result)
    {
      result := Null;
      if m != null {
        ModeScanAnswers(m.Entries(), inputs, State());
        MapIterate(m, ModeScan, this);
        if mn == 1 {
          result := if !isDouble then Integer(riM) else Real(rdM);
        }
      }
    }

    /** The value at rank `pcnt` of the sorted column. */
    method PercentileFinalize(ghost quarters: nat) returns (result: SqlValue)
      requires Valid()
      requires 1 <= quarters <= 3 && pcnt == (cnt * quarters) as real / 4.0
      modifies this
      ensures IsPercentile(old(inputs), quarters, old(isDouble), result)
    {
      result := Null;
      if m != null {
        done := false;
        PercentileScanAnswers(m.Entries(), inputs, quarters, State());
        MapIterate(m, MedianScan, this);
        if !isDouble {
          if mn == 1 {
            result := Integer(riM);
          } else {
            result := Real(riM as real * 1.0 / mn as real);
          }
        } else {
          result := Real(rdM / mn as real);
        }
      }
    }

    method MedianFinalize() returns (result: SqlValue)
      requires Valid()
      modifies this
      ensures IsPercentile(old(inputs), 2, old(isDouble), result)
    {
      pcnt := cnt as real / 2.0;
      result := PercentileFinalize(2);
    }

    method LowerQuartileFinalize() returns (result: SqlValue)
      requires Valid()
      modifies this
      ensures IsPercentile(old(inputs), 1, old(isDouble), result)
    {
      pcnt := cnt as real / 4.0;
      result := PercentileFinalize(1);
    }

    method UpperQuartileFinalize() returns (result: SqlValue)
      requires Valid()
      modifies this
      ensures IsPercentile(old(inputs), 3, old(isDouble), result)
    {
      pcnt := (cnt * 3) as real / 4.0;
      result := PercentileFinalize(3);
    }
  }

  // ----- Driving the callbacks over the tree

  method NodeIterate(n: Node, iter: Callback, p: ModeCtx)
    requires n.Valid() && p !in n.Repr
    modifies p`riM, p`rdM, p`mcnt, p`mn, p`done
    ensures p.State() == Run(iter, InOrder(n.tree), old(p.State()))
    decreases n.Repr
  {
    ghost var left := if n.l == null then [] else InOrder(n.l.tree);
    ghost var right := if n.r == null then [] else InOrder(n.r.tree);
    ghost var here := [Entry(n.data, n.count)];
    RunAppend(iter, left + here, right, p.State());
    RunAppend(iter, left, here, p.State());
    if n.l != null {
      NodeIterate(n.l, iter, p);
    }
    p.Call(iter, n.data, n.count);
    if n.r != null {
      NodeIterate(n.r, iter, p);
    }
  }

  method MapIterate(m: CountMap, iter: Callback, p: ModeCtx)
    requires m.Valid() && p !in CountingTree.Footprint(m.base)
    modifies p`riM, p`rdM, p`mcnt, p`mn, p`done
    ensures p.State() == Run(iter, m.Entries(), old(p.State()))
  {
    if m.base != null {
      NodeIterate(m.base, iter, p);
    }
  }
}
