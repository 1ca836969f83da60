/** Ranks in sorted sequences, and how a table of counted values answers them. */
module Ranks {
  import opened CountingTree

  ghost predicate Sorted(s: seq<real>) {
    forall i, j | 0 <= i < j < |s| :: s[i] <= s[j]
  }

  ghost predicate Least(x: real, bag: multiset<real>) {
    forall y | y in bag :: x <= y
  }

  lemma {:induction false} PrependKeepsSorted(x: real, s: seq<real>)
    requires Sorted(s) && Least(x, multiset(s))
    ensures Sorted([x] + s)
  {
    forall i | 0 <= i < |s| ensures x <= s[i] { assert s[i] in multiset(s); }
  }

  lemma {:induction false} SplitHead(s: seq<real>)
    requires s != []
    ensures multiset(s) == multiset{s[0]} + multiset(s[1..])
    ensures Sorted(s) ==> Sorted(s[1..]) && Least(s[0], multiset(s))
  {
    assert s == [s[0]] + s[1..];
  }

  function InsertSorted(x: real, s: seq<real>): (r: seq<real>)
    ensures |r| == |s| + 1
  {
    if s == [] || x <= s[0] then [x] + s else [s[0]] + InsertSorted(x, s[1..])
  }

  lemma {:induction false} InsertSortedKeeps(x: real, s: seq<real>)
    requires Sorted(s)
    ensures SortedPermutation(InsertSorted(x, s), [x] + s)
  {
    if s != [] {
      SplitHead(s);
      if x <= s[0] {
        PrependKeepsSorted(x, s);
      } else {
        InsertSortedKeeps(x, s[1..]);
        assert [x] + s == [x] + [s[0]] + s[1..];
        PrependKeepsSorted(s[0], InsertSorted(x, s[1..]));
      }
    }
  }

  ghost predicate SortedPermutation(r: seq<real>, s: seq<real>) {
    Sorted(r) && multiset(r) == multiset(s)
  }

  /** The sequence in increasing order. */
  function SortedCopy(s: seq<real>): (r: seq<real>)
    ensures |r| == |s|
  {
    if s == [] then [] else InsertSorted(s[0], SortedCopy(s[1..]))
  }

  lemma {:induction false} SortedCopyIsSorted(s: seq<real>)
    ensures SortedPermutation(SortedCopy(s), s)
  {
    if s != [] {
      SortedCopyIsSorted(s[1..]);
      InsertSortedKeeps(s[0], SortedCopy(s[1..]));
      assert s == [s[0]] + s[1..];
    }
  }

  lemma {:induction false} SameHead(s: seq<real>, t: seq<real>)
    requires Sorted(s) && Sorted(t) && multiset(s) == multiset(t) && s != [] && t != []
    ensures s[0] == t[0] && multiset(s[1..]) == multiset(t[1..])
  {
    SplitHead(s);
    SplitHead(t);
    assert s[0] in multiset(s) && t[0] in multiset(t);
    assert multiset(s[1..]) == multiset(s) - multiset{s[0]};
    assert multiset(t[1..]) == multiset(t) - multiset{t[0]};
  }

  lemma {:induction false} SortedUnique(s: seq<real>, t: seq<real>)
    requires Sorted(s) && Sorted(t) && multiset(s) == multiset(t)
    ensures s == t
  {
    assert |multiset(s)| == |s| && |multiset(t)| == |t|;
    if s != [] {
      SameHead(s, t);
      SortedUnique(s[1..], t[1..]);
      assert s == [s[0]] + s[1..] && t == [t[0]] + t[1..];
    }
  }

  // ----- A table written out in full

  ghost function Repeat(x: real, n: nat): seq<real> {
    seq(n, i => x)
  }

  ghost function Expand(es: seq<Entry>): seq<real> {
    if es == [] then [] else Repeat(es[0].value, es[0].count) + Expand(es[1..])
  }

  lemma {:induction false} RepeatBag(x: real, n: nat)
    ensures multiset(Repeat(x, n)) == multiset{}[x := n]
  {
    if n > 0 {
      RepeatBag(x, n - 1);
      assert Repeat(x, n) == Repeat(x, n - 1) + [x];
    }
  }

  lemma {:induction false} ExpandIsSorted(es: seq<Entry>, bag: multiset<real>)
    requires Tabulates(es, bag)
    ensures Sorted(Expand(es)) && multiset(Expand(es)) == bag
  {
    if es == [] {
      assert bag == multiset{} by {
        forall x ensures x !in bag { assert !Lists(es, x); }
      }
    } else {
      var v, c, rest := es[0].value, es[0].count, bag[es[0].value := 0];
      TailTabulates(es, bag);
      ExpandIsSorted(es[1..], rest);
      HeadIsLeast(es, bag);
      RepeatBag(v, c);
      assert bag == multiset{}[v := c] + rest;
      assert Least(v, rest);
      RepeatKeepsSorted(v, c, Expand(es[1..]));
    }
  }

  lemma {:induction false} RepeatKeepsSorted(x: real, n: nat, s: seq<real>)
    requires Sorted(s) && Least(x, multiset(s))
    ensures Sorted(Repeat(x, n) + s)
  {
    forall i | 0 <= i < |s| ensures x <= s[i] { assert s[i] in multiset(s); }
  }

  lemma {:induction false} ExpandIsSortedCopy(es: seq<Entry>, s: seq<real>)
    requires Tabulates(es, multiset(s))
    ensures Expand(es) == SortedCopy(s)
  {
    ExpandIsSorted(es, multiset(s));
    SortedCopyIsSorted(s);
    SortedUnique(Expand(es), SortedCopy(s));
  }

  // ----- Percentiles

  /** The two zero-based positions that cumulative rank `n * quarters / 4` of `n` sorted values
      lies between: the ceil-th and the (floor + 1)-th value. They coincide unless the rank is
      integral. */
  function LowRank(n: nat, quarters: nat): int { (n * quarters + 3) / 4 - 1 }
  function HighRank(n: nat, quarters: nat): int { n * quarters / 4 }

  /** The entries whose cumulative counts bracket a rank of `k` quarters, scanning from offset `m`. */
  ghost function Bracketing(es: seq<Entry>, m: int, k: int): seq<real> {
    if es == [] then []
    else
      var rest := Bracketing(es[1..], m + es[0].count, k);
      if 4 * m <= k <= 4 * (m + es[0].count) then [es[0].value] + rest else rest
  }

  lemma {:induction false} NothingBelowRank(es: seq<Entry>, m: int, k: int)
    requires k < 4 * m
    ensures Bracketing(es, m, k) == []
  {
    if es != [] { NothingBelowRank(es[1..], m + es[0].count, k); }
  }

  lemma {:induction false} ExpandAt(es: seq<Entry>, i: nat)
    requires es != [] && i < |Expand(es)|
    ensures |Expand(es)| == es[0].count + |Expand(es[1..])|
    ensures Expand(es)[i] == if i < es[0].count then es[0].value else Expand(es[1..])[i - es[0].count]
  {}

  /** For a rank strictly inside the table the bracketing entries are exactly the distinct ones
      among the values at the two sorted positions. */
  lemma {:induction false} BracketingIsPercentile(es: seq<Entry>, m: int, k: int, lo: int, hi: int)
    requires StrictlyIncreasing(es) && PositiveCounts(es)
    requires 4 * m < k < 4 * (m + |Expand(es)|)
    requires lo == (k + 3) / 4 - 1 - m && hi == k / 4 - m
    ensures 0 <= lo <= hi < |Expand(es)|
    ensures Bracketing(es, m, k) == if Expand(es)[lo] == Expand(es)[hi]
      then [Expand(es)[lo]] else [Expand(es)[lo], Expand(es)[hi]]
  {
    var c, v, tail := es[0].count, es[0].value, es[1..];
    assert 0 <= lo <= hi < |Expand(es)|;
    ExpandAt(es, lo);
    ExpandAt(es, hi);
    if k < 4 * (m + c) {
      NothingBelowRank(tail, m + c, k);
    } else if k == 4 * (m + c) {
      RankAtBoundary(tail, m + c, k);
      assert v < tail[0].value by { assert tail[0] == es[1]; }
    } else {
      BracketingIsPercentile(tail, m + c, k, lo - c, hi - c);
    }
  }

  lemma {:induction false} RankAtBoundary(es: seq<Entry>, m: int, k: int)
    requires PositiveCounts(es) && k == 4 * m && |Expand(es)| > 0
    ensures es != [] && Expand(es)[0] == es[0].value && Bracketing(es, m, k) == [es[0].value]
  {
    assert Expand(es) == Repeat(es[0].value, es[0].count) + Expand(es[1..]);
    NothingBelowRank(es[1..], m + es[0].count, k);
  }
}
