/** The FIFO queue between the threads of an agent: a linked list with head and tail pointers and a
    stop flag. Every critical section is one method; a push reads the stop flag before it takes the
    lock, so it is two. */
module TaskQueue {
  import opened Wrappers

  // ----- The queue as a value

  /** `admitted` are the values of pushes that have passed the flag and wait for the lock. */
  datatype State<T> = State(contents: seq<T>, stopped: bool, admitted: multiset<T>, accepted: seq<T>, popped: seq<T>)

  datatype Op<T> = Admit(x: T) | Append(x: T) | Pop | Start | Stop

  /** A pop runs only once its wait is over. */
  ghost predicate Enabled<T>(s: State<T>, op: Op<T>) {
    match op
    case Append(x) => x in s.admitted
    case Pop => s.contents != [] || s.stopped
    case _ => true
  }

  /** What a pop returns: nothing means that the queue was closed. */
  ghost function Popped<T>(s: State<T>): Option<T> {
    if s.contents != [] then Some(s.contents[0]) else None
  }

  ghost function After<T>(s: State<T>, op: Op<T>): State<T> {
    match op
    case Admit(x) => if s.stopped then s else s.(admitted := s.admitted + multiset{x})
    case Append(x) => s.(contents := s.contents + [x], accepted := s.accepted + [x],
      admitted := s.admitted - multiset{x})
    case Pop => if s.contents == [] then s else s.(contents := s.contents[1..], popped := s.popped + [s.contents[0]])
    case Start => s.(stopped := false)
    case Stop => s.(stopped := true)
  }

  ghost predicate Runs<T>(s: State<T>, ops: seq<Op<T>>)
    decreases |ops|
  {
    ops == [] || (Enabled(s, ops[0]) && Runs(After(s, ops[0]), ops[1..]))
  }

  ghost function Final<T>(s: State<T>, ops: seq<Op<T>>): State<T>
    decreases |ops|
  {
    if ops == [] then s else Final(After(s, ops[0]), ops[1..])
  }

  /** Nothing is lost, duplicated or overtaken. */
  ghost predicate Conserved<T>(s: State<T>) {
    s.accepted == s.popped + s.contents
  }

  lemma {:induction false} StepConserves<T>(s: State<T>, op: Op<T>)
    requires Conserved(s) && Enabled(s, op)
    ensures Conserved(After(s, op))
  {}

  /** In every interleaving the popped values followed by the contents are the accepted values in
      order. */
  lemma {:induction false} RunConserves<T>(s: State<T>, ops: seq<Op<T>>)
    requires Conserved(s) && Runs(s, ops)
    ensures Conserved(Final(s, ops))
    decreases |ops|
  {
    if ops != [] {
      StepConserves(s, ops[0]);
      RunConserves(After(s, ops[0]), ops[1..]);
    }
  }

  /** The values the pops of a run hand out, in order. */
  ghost function Returned<T>(s: State<T>, ops: seq<Op<T>>): seq<T>
    decreases |ops|
  {
    if ops == [] then []
    else
      (if ops[0].Pop? && Popped(s).Some? then [Popped(s).value] else []) + Returned(After(s, ops[0]), ops[1..])
  }

  /** The values a run appends, in order. */
  ghost function Appended<T>(ops: seq<Op<T>>): seq<T> {
    if ops == [] then [] else (if ops[0].Append? then [ops[0].x] else []) + Appended(ops[1..])
  }

  /** The pushes of a run that saw the queue open. */
  ghost function Admitted<T>(s: State<T>, ops: seq<Op<T>>): multiset<T>
    decreases |ops|
  {
    if ops == [] then multiset{}
    else
      (if ops[0].Admit? && !s.stopped then multiset{ops[0].x} else multiset{}) + Admitted(After(s, ops[0]), ops[1..])
  }

  lemma {:induction false} OneMoreReturned<T>(s: State<T>, op: Op<T>)
    requires Enabled(s, op)
    ensures s.contents + Appended([op]) == Returned(s, [op]) + After(s, op).contents
  {
    assert [op][1..] == [] && s.contents + [] == s.contents;
    if op.Pop? && s.contents != [] {
      assert s.contents == [s.contents[0]] + s.contents[1..];
    }
  }

  lemma {:induction false} HandedOut<T>(before: seq<T>, x: seq<T>, y: seq<T>, middle: seq<T>, r: seq<T>, t: seq<T>,
      after: seq<T>)
    requires before + x == r + middle && middle + y == t + after
    ensures before + (x + y) == (r + t) + after
  {
    assert before + (x + y) == (before + x) + y;
    assert (r + middle) + y == r + (middle + y);
    assert r + (t + after) == (r + t) + after;
  }

  /** Over every run the values handed out by the pops, in order, followed by what is left, are what was
      there followed by the values appended: nothing is lost, duplicated, overtaken or made up. */
  lemma {:induction false} PopsReturnAppends<T>(s: State<T>, ops: seq<Op<T>>)
    requires Runs(s, ops)
    ensures s.contents + Appended(ops) == Returned(s, ops) + Final(s, ops).contents
    decreases |ops|
  {
    if ops != [] {
      var op, next := ops[0], After(s, ops[0]);
      OneMoreReturned(s, op);
      PopsReturnAppends(next, ops[1..]);
      HandedOut(s.contents, Appended([op]), Appended(ops[1..]), next.contents, Returned(s, [op]),
        Returned(next, ops[1..]), Final(s, ops).contents);
      assert Appended(ops) == Appended([op]) + Appended(ops[1..]);
      assert Returned(s, ops) == Returned(s, [op]) + Returned(next, ops[1..]);
    }
  }

  lemma {:induction false} Regrouped<T>(before: multiset<T>, x: multiset<T>, y: multiset<T>, middle: multiset<T>,
      r: multiset<T>, t: multiset<T>, after: multiset<T>)
    requires before + x == r + middle && middle + y == t + after
    ensures before + (x + y) == (r + t) + after
  {
    assert before + (x + y) == (before + x) + y;
    assert (r + middle) + y == r + (middle + y);
    assert r + (t + after) == (r + t) + after;
  }

  /** Over every run the pushes that saw the queue open are those appended and those still waiting. */
  lemma {:induction false} AdmittedAreAppended<T>(s: State<T>, ops: seq<Op<T>>)
    requires Runs(s, ops)
    ensures s.admitted + Admitted(s, ops) == multiset(Appended(ops)) + Final(s, ops).admitted
    decreases |ops|
  {
    if ops != [] {
      var op, next := ops[0], After(s, ops[0]);
      AdmittedAreAppended(next, ops[1..]);
      AdmittedAtOnce(s, op);
      Regrouped(s.admitted, Admitted(s, [op]), Admitted(next, ops[1..]), next.admitted, multiset(Appended([op])),
        multiset(Appended(ops[1..])), Final(s, ops).admitted);
      assert Appended(ops) == Appended([op]) + Appended(ops[1..]);
    }
  }

  lemma {:induction false} AdmittedAtOnce<T>(s: State<T>, op: Op<T>)
    requires Enabled(s, op)
    ensures s.admitted + Admitted(s, [op]) == multiset(Appended([op])) + After(s, op).admitted
    ensures Admitted(s, [op]) == if op.Admit? && !s.stopped then multiset{op.x} else multiset{}
  {
    assert [op][1..] == [];
  }

  /** A queue is stopped exactly when it was stopped since it was last started. */
  lemma {:induction false} StoppedSince<T>(s: State<T>, ops: seq<Op<T>>)
    ensures Final(s, ops).stopped <==>
      (exists i | 0 <= i < |ops| :: ops[i].Stop? && NeverRestarts(ops[i..])) || (s.stopped && NeverRestarts(ops))
    decreases |ops|
  {
    if ops != [] {
      var op, rest := ops[0], ops[1..];
      StoppedSince(After(s, op), rest);
      assert NeverRestarts(ops) <==> !op.Start? && NeverRestarts(rest) by { RestartsOneMore(ops); }
      forall i | 0 < i < |ops| ensures ops[i] == rest[i - 1] && ops[i..] == rest[i - 1..] {}
      assert ops[0..] == ops;
    }
  }

  lemma {:induction false} RestartsOneMore<T>(ops: seq<Op<T>>)
    requires ops != []
    ensures NeverRestarts(ops) <==> !ops[0].Start? && NeverRestarts(ops[1..])
  {
    forall i | 0 <= i < |ops| ensures i > 0 ==> ops[i] == ops[1..][i - 1] {}
  }

  /** When a pop reports that the queue was closed, it is stopped and everything accepted so far has
      been popped. */
  lemma {:induction false} ClosureLosesNothing<T>(s: State<T>, ops: seq<Op<T>>)
    requires Conserved(s) && Runs(s, ops)
    requires Enabled(Final(s, ops), Pop) && Popped(Final(s, ops)).None?
    ensures Final(s, ops).stopped && Final(s, ops).accepted == Final(s, ops).popped
  {
    RunConserves(s, ops);
  }

  ghost predicate NeverRestarts<T>(ops: seq<Op<T>>) {
    forall i | 0 <= i < |ops| :: !ops[i].Start?
  }

  lemma {:induction false} StoppedAdmitsNone<T>(s: State<T>, ops: seq<Op<T>>)
    requires s.stopped && NeverRestarts(ops)
    ensures Final(s, ops).stopped && Admitted(s, ops) == multiset{}
    decreases |ops|
  {
    if ops != [] {
      RestartsOneMore(ops);
      StoppedAdmitsNone(After(s, ops[0]), ops[1..]);
    }
  }

  lemma {:induction false} AcceptedAreAppended<T>(s: State<T>, ops: seq<Op<T>>)
    ensures Final(s, ops).accepted == s.accepted + Appended(ops)
    decreases |ops|
  {
    if ops != [] { AcceptedAreAppended(After(s, ops[0]), ops[1..]); }
  }

  /** After a stop only the pushes admitted before it can still be accepted: each of them at most
      once, and when there are none nothing is accepted until the queue is started again. */
  lemma {:induction false} StopAdmitsNoMore<T>(s: State<T>, ops: seq<Op<T>>)
    requires s.stopped && Runs(s, ops) && NeverRestarts(ops)
    ensures Final(s, ops).stopped
    ensures multiset(Appended(ops)) + Final(s, ops).admitted == s.admitted
    ensures s.admitted == multiset{} ==> Final(s, ops).accepted == s.accepted
  {
    StoppedAdmitsNone(s, ops);
    AdmittedAreAppended(s, ops);
    AcceptedAreAppended(s, ops);
    if s.admitted == multiset{} {
      assert |multiset(Appended(ops))| == 0;
    }
  }

  lemma {:induction false} WaitingIsAccepted<T>(s: State<T>, x: T) returns (ops: seq<Op<T>>)
    requires x in s.admitted
    ensures Runs(s, ops) && NeverRestarts(ops) && Final(s, ops).accepted == s.accepted + [x]
  {
    ops := [Append(x)];
    var next, none := After(s, ops[0]), ops[1..];
    assert none == [] && Runs(next, none) && Final(next, none) == next;
  }

  /** A stopped queue accepts nothing more until it is started again if and only if no push that saw it
      open is still waiting. */
  lemma {:induction false} StoppedForGood<T>(s: State<T>)
    requires s.stopped
    ensures (forall ops | Runs(s, ops) && NeverRestarts(ops) :: Final(s, ops).accepted == s.accepted)
      <==> s.admitted == multiset{}
  {
    if s.admitted == multiset{} {
      forall ops | Runs(s, ops) && NeverRestarts(ops) ensures Final(s, ops).accepted == s.accepted {
        StopAdmitsNoMore(s, ops);
      }
    } else {
      assert exists x :: x in s.admitted;
      var x :| x in s.admitted;
      var ops := WaitingIsAccepted(s, x);
      assert |Final(s, ops).accepted| != |s.accepted|;
    }
  }

  /** A push that saw the queue open may be accepted after the stop, and even after a pop has
      reported the queue closed; its value then stays behind. */
  lemma {:induction false} LatePushStaysBehind<T>(x: T) returns (s: State<T>, ops: seq<Op<T>>)
    ensures s == State([], false, multiset{}, [], [])
    ensures Runs(s, ops) && Pop in ops && Popped(Final(s, ops[..2])).None?
    ensures Final(s, ops).stopped && Final(s, ops).contents == [x]
  {
    s := State([], false, multiset{}, [], []);
    var last: seq<Op<T>> := [Append(x)];
    var rest: seq<Op<T>> := [Pop] + last;
    var tail: seq<Op<T>> := [Stop] + rest;
    ops := [Admit(x)] + tail;
    var s1 := After(s, Admit(x));
    var s2 := After(s1, Stop);
    assert ops[1..] == tail && tail[1..] == rest && rest[1..] == last;
    var none: seq<Op<T>> := [];
    var s3 := After(s2, Append(x));
    assert s3.contents == [x];
    assert last[0] == Append(x) && last[1..] == none && Final(s3, none) == s3;
    assert Final(s2, last) == s3;
    assert Runs(s2, last) && Final(s2, last).contents == [x] && Final(s2, last).stopped;
    assert Runs(s2, rest) && Final(s2, rest) == Final(s2, last);
    assert Runs(s1, tail) && Final(s1, tail) == Final(s2, rest);
    var prefix: seq<Op<T>> := [Stop];
    assert ops[..2] == [Admit(x)] + prefix && |prefix[1..]| == 0;
    assert ([Admit(x)] + prefix)[1..] == prefix;
    assert Final(s1, prefix) == s2;
    assert ops[2] == Pop;
  }

  // ----- The queue on the heap

  class Elem<T> {
    var info: T
    var next: Elem?<T>

    constructor (info: T)
      ensures this.info == info && next == null
    {
      this.info, next := info, null;
    }
  }

  ghost predicate Chain<T>(head: Elem?<T>, last: Elem?<T>, nodes: seq<Elem<T>>, contents: seq<T>)
    reads nodes
  {
    && (nodes == [] ==> head == null && last == null)
    && (nodes != [] ==> head == nodes[0] && last == nodes[|nodes| - 1] && last.next == null)
    && (forall i | 0 <= i < |nodes| - 1 :: nodes[i].next == nodes[i + 1])
    && (forall i, j | 0 <= i < j < |nodes| :: nodes[i] != nodes[j])
    && |contents| == |nodes| && (forall i | 0 <= i < |nodes| :: nodes[i].info == contents[i])
  }

  class Queue<T> {
    var queueH: Elem?<T>
    var queueL: Elem?<T>
    var stop: bool
    /** The elements from head to tail. */
    ghost var nodes: seq<Elem<T>>
    ghost var contents: seq<T>
    ghost var admitted: multiset<T>
    ghost var accepted: seq<T>
    ghost var popped: seq<T>

    /** The head pointer reaches exactly `nodes`, and the tail pointer is the last of them; both are
        null exactly when there are none. */
    ghost predicate Linked()
      reads this, nodes
    {
      Chain(queueH, queueL, nodes, contents)
    }

    ghost predicate Valid()
      reads this, nodes
    {
      Linked() && Conserved(Value())
    }

    ghost function Value(): State<T>
      reads this
    {
      State(contents, stop, admitted, accepted, popped)
    }

    constructor ()
      ensures Valid() && Value() == State([], false, multiset{}, [], [])
    {
      stop, queueH, queueL := false, null, null;
      nodes, contents, admitted, accepted, popped := [], [], multiset{}, [], [];
    }

    /** First half of a push: the flag is read before the lock is taken. */
    method Admit(info: T) returns (ok: bool)
      requires Valid()
      modifies `admitted
      ensures Valid() && ok == !stop && Value() == After(old(Value()), Op.Admit(info))
    {
      if stop {
        return false;
      }
      admitted := admitted + multiset{info};
      return true;
    }

    /** Second half of a push, under the lock. */
    method Append(info: T)
      requires Valid() && info in admitted
      modifies this, nodes
      ensures Valid() && forall n | n in nodes :: n in old(nodes) || fresh(n)
      ensures Value() == After(old(Value()), Op.Append(info))
    {
      ghost var next := After(Value(), Op.Append(info));
      StepConserves(Value(), Op.Append(info));
      LinkNew(info);
      accepted := accepted + [info];
      admitted := admitted - multiset{info};
      assert Value() == next;
    }

    method LinkNew(info: T)
      requires Linked()
      modifies `queueH, `queueL, `nodes, `contents, nodes
      ensures Linked() && contents == old(contents) + [info]
      ensures exists n :: fresh(n) && nodes == old(nodes) + [n]
    {
      var newEl := new Elem(info);
      if queueL == null {
        queueL := newEl;
        queueH := newEl;
      } else {
        queueL.next := newEl;
        queueL := newEl;
      }
      nodes := nodes + [newEl];
      contents := contents + [info];
    }

    /** A pop whose wait is over: the queue has an element or was stopped. */
    method Pop() returns (ret: Option<T>)
      requires Valid() && (queueH != null || stop)
      modifies this
      ensures Valid() && Value() == After(old(Value()), Op.Pop) && ret == Popped(old(Value()))
      ensures popped == old(popped) + if ret.Some? then [ret.value] else []
      ensures if ret.Some? then [ret.value] + contents == old(contents) else contents == old(contents) == [] && stop
      ensures forall n | n in nodes :: n in old(nodes)
    {
      if queueH != null {
        StepConserves(Value(), Op.Pop);
        var info := UnlinkHead();
        ret := Some(info);
        popped := popped + [info];
      } else {
        ret := None;
      }
    }

    method UnlinkHead() returns (info: T)
      requires Linked() && queueH != null
      modifies `queueH, `queueL, `nodes, `contents
      ensures Linked() && old(contents) != [] && info == old(contents)[0] && contents == old(contents)[1..]
      ensures nodes == old(nodes)[1..]
    {
      info := queueH.info;
      queueH := queueH.next;
      nodes := nodes[1..];
      contents := contents[1..];
      if queueH == null {
        queueL := null;
      }
    }

    method StartQueue()
      requires Valid()
      modifies `stop
      ensures Valid() && Value() == After(old(Value()), Op.Start)
    {
      stop := false;
    }

    method StopQueue()
      requires Valid()
      modifies `stop
      ensures Valid() && Value() == After(old(Value()), Op.Stop)
    {
      stop := true;
    }
  }
}
