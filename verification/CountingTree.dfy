/** The ordered counting tree behind the mode and percentile aggregates: an unbalanced search
    tree on the heap whose nodes carry a value and the number of times it was inserted.

    The tree is generic over a comparison function in the program; its two comparison
    functions order 64-bit integers and doubles by value, and one tree only ever holds one of
    the two kinds, so a single tree over `real` stands for both (an integer is the real it
    denotes). */
module CountingTree {

  // ----- The tree as a value

  datatype Tree = Leaf | Branch(left: Tree, value: real, count: nat, right: Tree)

  datatype Entry = Entry(value: real, count: nat)

  /** The comparison used by the tree: negative, zero or positive. */
  function Compare(a: real, b: real): int {
    if a == b then 0 else if a < b then -1 else 1
  }

  /** The multiset of values a tree stands for. */
  ghost function Bag(t: Tree): multiset<real> {
    match t
    case Leaf => multiset{}
    case Branch(l, v, c, r) => Bag(l) + multiset{}[v := c] + Bag(r)
  }

  /** Search order with positive counts. */
  ghost predicate Ordered(t: Tree) {
    match t
    case Leaf => true
    case Branch(l, v, c, r) =>
      && c > 0
      && Ordered(l) && Ordered(r)
      && (forall x | x in Bag(l) :: x < v)
      && (forall x | x in Bag(r) :: v < x)
  }

  /** The entries in the order the in-order walk meets them. */
  ghost function InOrder(t: Tree): seq<Entry> {
    match t
    case Leaf => []
    case Branch(l, v, c, r) => InOrder(l) + [Entry(v, c)] + InOrder(r)
  }

  /** The tree after one more occurrence of `e`. */
  ghost function Inserted(t: Tree, e: real): Tree {
    match t
    case Leaf => Branch(Leaf, e, 1, Leaf)
    case Branch(l, v, c, r) =>
      if v == e then Branch(l, v, c + 1, r)
      else if e < v then Branch(Inserted(l, e), v, c, r)
      else Branch(l, v, c, Inserted(r, e))
  }

  /** Insertion adds exactly one occurrence of `e` and keeps the search order. */
  lemma {:induction false} InsertedIsOneMore(t: Tree, e: real)
    requires Ordered(t)
    ensures Ordered(Inserted(t, e))
    ensures Bag(Inserted(t, e)) == Bag(t) + multiset{e}
  {
    match t
    case Leaf =>
    case Branch(l, v, c, r) =>
      var node := multiset{}[v := c];
      if v == e {
        assert multiset{}[v := c + 1] == node + multiset{e};
        AddLast(Bag(l), node, Bag(r), multiset{e});
      } else if e < v {
        InsertedIsOneMore(l, e);
        AddFirst(Bag(l), node, Bag(r), multiset{e});
        StillBelow(Bag(l), e, v);
      } else {
        InsertedIsOneMore(r, e);
        AddThird(Bag(l), node, Bag(r), multiset{e});
        StillAbove(Bag(r), e, v);
      }
  }

  lemma {:induction false} StillBelow(bag: multiset<real>, e: real, v: real)
    requires e < v && forall x | x in bag :: x < v
    ensures forall x | x in bag + multiset{e} :: x < v
  {}

  lemma {:induction false} StillAbove(bag: multiset<real>, e: real, v: real)
    requires v < e && forall x | x in bag :: v < x
    ensures forall x | x in bag + multiset{e} :: v < x
  {}

  /** `t` is in search order and holds exactly the given values, with their repetitions. */
  ghost predicate Represents(t: Tree, values: seq<real>) {
    Ordered(t) && Bag(t) == multiset(values)
  }

  lemma {:induction false} InsertedRepresents(t: Tree, values: seq<real>, e: real)
    requires Represents(t, values)
    ensures Represents(Inserted(t, e), values + [e])
  {
    assert multiset(values + [e]) == multiset(values) + multiset{e};
    InsertedIsOneMore(t, e);
  }

  lemma {:induction false} AddFirst(a: multiset<real>, b: multiset<real>, c: multiset<real>, d: multiset<real>)
    ensures (a + d) + b + c == (a + b + c) + d
  {}

  lemma {:induction false} AddThird(a: multiset<real>, b: multiset<real>, c: multiset<real>, d: multiset<real>)
    ensures a + b + (c + d) == (a + b + c) + d
  {}

  lemma {:induction false} AddLast(a: multiset<real>, b: multiset<real>, c: multiset<real>, d: multiset<real>)
    ensures a + (b + d) + c == (a + b + c) + d
  {}

  // ----- What the in-order walk visits

  ghost predicate StrictlyIncreasing(es: seq<Entry>) {
    forall i, j | 0 <= i < j < |es| :: es[i].value < es[j].value
  }

  ghost predicate PositiveCounts(es: seq<Entry>) {
    forall i | 0 <= i < |es| :: es[i].count > 0
  }

  /** `es` lists every value of `bag` once, in increasing order, with its multiplicity. */
  ghost predicate Tabulates(es: seq<Entry>, bag: multiset<real>) {
    && StrictlyIncreasing(es)
    && PositiveCounts(es)
    && (forall i | 0 <= i < |es| :: bag[es[i].value] == es[i].count)
    && (forall x | x in bag :: Lists(es, x))
  }

  ghost predicate Lists(es: seq<Entry>, x: real) {
    exists i | 0 <= i < |es| :: es[i].value == x
  }

  lemma {:induction false} InOrderTabulates(t: Tree)
    requires Ordered(t)
    ensures Tabulates(InOrder(t), Bag(t))
  {
    match t
    case Leaf =>
    case Branch(l, v, c, r) =>
      InOrderTabulates(l);
      InOrderTabulates(r);
      var node := multiset{}[v := c];
      assert Tabulates([Entry(v, c)], node) by {
        assert forall x | x in node :: [Entry(v, c)][0].value == x;
      }
      JoinTabulates(InOrder(l), [Entry(v, c)], Bag(l), node);
      JoinTabulates(InOrder(l) + [Entry(v, c)], InOrder(r), Bag(l) + node, Bag(r));
  }

  lemma {:induction false} JoinTabulates(ls: seq<Entry>, rs: seq<Entry>, lb: multiset<real>, rb: multiset<real>)
    requires Tabulates(ls, lb) && Tabulates(rs, rb)
    requires forall x, y | x in lb && y in rb :: x < y
    ensures Tabulates(ls + rs, lb + rb)
  {
    forall i | 0 <= i < |ls| ensures ls[i].value in lb { assert lb[ls[i].value] > 0; }
    forall i | 0 <= i < |rs| ensures rs[i].value in rb { assert rb[rs[i].value] > 0; }
    JoinIncreasing(ls, rs);
    forall x | x in lb + rb ensures Lists(ls + rs, x) { JoinLists(ls, rs, x); }
    forall i | 0 <= i < |ls + rs|
      ensures (ls + rs)[i].count > 0 && (lb + rb)[(ls + rs)[i].value] == (ls + rs)[i].count
    {
      if i < |ls| {
        assert (ls + rs)[i] == ls[i] && ls[i].value !in rb;
      } else {
        assert (ls + rs)[i] == rs[i - |ls|] && rs[i - |ls|].value !in lb;
      }
    }
  }

  lemma {:induction false} JoinIncreasing(ls: seq<Entry>, rs: seq<Entry>)
    requires StrictlyIncreasing(ls) && StrictlyIncreasing(rs)
    requires forall i, j | 0 <= i < |ls| && 0 <= j < |rs| :: ls[i].value < rs[j].value
    ensures StrictlyIncreasing(ls + rs)
  {}

  lemma {:induction false} JoinLists(ls: seq<Entry>, rs: seq<Entry>, x: real)
    requires Lists(ls, x) || Lists(rs, x)
    ensures Lists(ls + rs, x)
  {
    if Lists(ls, x) {
      var i :| 0 <= i < |ls| && ls[i].value == x;
      assert (ls + rs)[i].value == x;
    } else {
      var i :| 0 <= i < |rs| && rs[i].value == x;
      assert (ls + rs)[|ls| + i].value == x;
    }
  }

  /** A multiset has only one such table: the walk depends on what was inserted, not on the
      order of insertion or the shape of the tree. */
  lemma {:induction false} TableIsUnique(es: seq<Entry>, fs: seq<Entry>, bag: multiset<real>)
    requires Tabulates(es, bag) && Tabulates(fs, bag)
    ensures es == fs
  {
    if es == [] {
      assert fs == [] by { if fs != [] { HeadOccurs(fs, bag); } }
    } else if fs == [] {
      HeadOccurs(es, bag);
    } else {
      HeadIsLeast(es, bag);
      HeadIsLeast(fs, bag);
      var v := es[0].value;
      assert bag[v] == es[0].count > 0 && bag[fs[0].value] == fs[0].count > 0;
      assert v in bag && fs[0].value in bag;
      assert fs[0].value == v;
      TailTabulates(es, bag);
      TailTabulates(fs, bag);
      TableIsUnique(es[1..], fs[1..], bag[v := 0]);
      assert es == [es[0]] + es[1..] && fs == [fs[0]] + fs[1..];
    }
  }

  lemma {:induction false} HeadOccurs(es: seq<Entry>, bag: multiset<real>)
    requires Tabulates(es, bag) && es != []
    ensures es[0].value in bag
  {
    assert bag[es[0].value] > 0;
  }

  lemma {:induction false} HeadIsLeast(es: seq<Entry>, bag: multiset<real>)
    requires Tabulates(es, bag) && es != []
    ensures forall x | x in bag :: es[0].value <= x
  {
    forall x | x in bag ensures es[0].value <= x {
      assert Lists(es, x);
      var i :| 0 <= i < |es| && es[i].value == x;
      if i > 0 { assert es[0].value < es[i].value; }
    }
  }

  lemma {:induction false} TailTabulates(es: seq<Entry>, bag: multiset<real>)
    requires Tabulates(es, bag) && es != []
    ensures Tabulates(es[1..], bag[es[0].value := 0])
  {
    var tail, rest := es[1..], bag[es[0].value := 0];
    forall i | 0 <= i < |tail| ensures rest[tail[i].value] == tail[i].count && tail[i].count > 0 {
      assert tail[i] == es[i + 1] && es[0].value < es[i + 1].value;
    }
    forall x | x in rest ensures Lists(tail, x) {
      assert x in bag && x != es[0].value && Lists(es, x);
      var i :| 0 <= i < |es| && es[i].value == x;
      assert tail[i - 1].value == x;
    }
  }

  // ----- The tree on the heap

  class Node {
    var data: real
    var count: nat
    var l: Node?
    var r: Node?
    ghost var tree: Tree
    ghost var Repr: set<object>

    constructor (e: real)
      ensures Valid() && fresh(Repr)
      ensures tree == Branch(Leaf, e, 1, Leaf)
    {
      data, count, l, r := e, 1, null, null;
      tree := Branch(Leaf, e, 1, Leaf);
      Repr := {this};
    }

    ghost predicate Valid()
      reads this, Repr
      ensures Valid() ==> this in Repr
      decreases Repr
    {
      && this in Repr
      && (l != null ==> l in Repr && l.Repr <= Repr && this !in l.Repr && l.Valid())
      && (r != null ==> r in Repr && r.Repr <= Repr && this !in r.Repr && r.Valid())
      && (l != null && r != null ==> l.Repr !! r.Repr)
      && tree == Branch(if l == null then Leaf else l.tree, data, count, if r == null then Leaf else r.tree)
    }
  }

  ghost function Footprint(n: Node?): set<object>
    reads n
  {
    if n == null then {} else n.Repr
  }

  ghost function TreeOf(n: Node?): Tree
    reads n
  {
    if n == null then Leaf else n.tree
  }

  /** Inserts `e` below `n` and returns the root, which is `n` itself unless the tree was empty. */
  method NodeInsert(n: Node?, e: real) returns (root: Node)
    requires n != null ==> n.Valid()
    modifies Footprint(n)
    ensures root.Valid() && (n != null ==> root == n)
    ensures fresh(root.Repr - old(Footprint(n)))
    ensures root.tree == Inserted(old(TreeOf(n)), e)
    decreases Footprint(n)
  {
    if n == null {
      root := new Node(e);
      return;
    }
    root := n;
    n.tree := Inserted(n.tree, e);
    var c := Compare(n.data, e);
    if c == 0 {
      n.count := n.count + 1;
    } else if c > 0 {
      var child := NodeInsert(n.l, e);
      n.l := child;
      n.Repr := n.Repr + child.Repr;
    } else {
      var child := NodeInsert(n.r, e);
      n.r := child;
      n.Repr := n.Repr + child.Repr;
    }
  }

  class CountMap {
    var base: Node?
    /** The values inserted so far, in order of insertion. */
    ghost var inputs: seq<real>

    constructor ()
      ensures Valid() && base == null && inputs == []
    {
      base := null;
      inputs := [];
    }

    ghost predicate Valid()
      reads this, base, Footprint(base)
    {
      && (base != null ==> base.Valid())
      && this !in Footprint(base)
      && Represents(TreeOf(base), inputs)
    }

    /** What an in-order walk visits: every distinct value once, in increasing order, with its
        multiplicity. */
    ghost function Entries(): (es: seq<Entry>)
      requires Valid()
      reads this, base, Footprint(base)
      ensures Tabulates(es, multiset(inputs))
    {
      InOrderTabulates(TreeOf(base));
      InOrder(TreeOf(base))
    }

    method Insert(e: real)
      requires Valid()
      modifies this, Footprint(base)
      ensures Valid() && fresh(Footprint(base) - old(Footprint(base)))
      ensures inputs == old(inputs) + [e]
    {
      InsertedRepresents(TreeOf(base), inputs, e);
      ghost var tree, values := Inserted(TreeOf(base), e), inputs + [e];
      assert Represents(tree, values);
      var root := NodeInsert(base, e);
      Adopt(root, values);
    }

    /** A new root that stands for the given values. */
    method Adopt(root: Node, ghost values: seq<real>)
      requires root.Valid() && this !in root.Repr && Represents(root.tree, values)
      modifies this
      ensures Valid() && base == root && inputs == values
    {
      base := root;
      inputs := values;
    }
  }
}
