/** The compaction of the poll table after requests have been handed over: entries whose descriptor
    was set to -1 are removed by shifting the rest of the table down, in place. */
module PollTable {
  import opened KeptPositions

  datatype PollFd = PollFd(fd: int, events: int, revents: int)

  /** The part of an entry that survives a shift. */
  datatype Live = Live(fd: int, events: int)

  function Kept(p: PollFd): Live {
    Live(p.fd, p.events)
  }

  /** The live entries in order. */
  function Compacted(s: seq<PollFd>): (r: seq<Live>) {
    if s == [] then [] else (if s[0].fd == -1 then [] else [Kept(s[0])]) + Compacted(s[1..])
  }

  lemma {:induction false} CompactedJoin(a: seq<PollFd>, b: seq<PollFd>)
    ensures Compacted(a + b) == Compacted(a) + Compacted(b)
  {
    if a == [] {
      assert a + b == b;
    } else {
      assert (a + b)[1..] == a[1..] + b;
      CompactedJoin(a[1..], b);
    }
  }

  /** Compaction keeps exactly the live descriptors, each as often as it occurred. */
  lemma {:induction false} CompactedKeepsLive(s: seq<PollFd>, e: Live)
    ensures multiset(Compacted(s))[e] == if e.fd == -1 then 0 else multiset(Keep(s))[e]
  {
    if s != [] {
      CompactedKeepsLive(s[1..], e);
      assert Keep(s) == [Kept(s[0])] + Keep(s[1..]);
      var head := if s[0].fd == -1 then [] else [Kept(s[0])];
      assert multiset(Compacted(s)) == multiset(head) + multiset(Compacted(s[1..]));
    }
  }

  ghost function IsLive(s: seq<PollFd>): nat -> bool {
    (i: nat) => i < |s| && s[i].fd != -1
  }

  /** `r` are the entries of `s` at the positions `at`. */
  ghost predicate EntriesAt(s: seq<PollFd>, at: seq<nat>, r: seq<Live>) {
    |r| == |at| && forall i | 0 <= i < |at| :: at[i] < |s| && r[i] == Live(s[at[i]].fd, s[at[i]].events)
  }

  lemma {:induction false} EntriesOneMore(s: seq<PollFd>, p: PollFd, at: seq<nat>, r: seq<Live>)
    requires EntriesAt(s, at, r)
    ensures EntriesAt(s + [p], at, r) && EntriesAt(s + [p], at + [|s|], r + [Live(p.fd, p.events)])
  {}

  lemma {:induction false} CompactedOneMore(s: seq<PollFd>, p: PollFd)
    ensures Compacted(s + [p]) == if p.fd == -1 then Compacted(s) else Compacted(s) + [Live(p.fd, p.events)]
  {
    CompactedJoin(s, [p]);
    assert [p][1..] == [];
  }

  /** Compaction lists the live entries in order, each with its descriptor and its events. */
  lemma {:induction false} CompactedInOrder(s: seq<PollFd>) returns (at: seq<nat>)
    ensures Lists(at, |s|, IsLive(s)) && EntriesAt(s, at, Compacted(s))
  {
    at := [];
    if s != [] {
      var before, p := s[..|s| - 1], s[|s| - 1];
      at := CompactedInOrder(before);
      assert s == before + [p];
      CompactedOneMore(before, p);
      EntriesOneMore(before, p, at, Compacted(before));
      ListsOneMore(at, |before|, IsLive(before), IsLive(s));
      if p.fd != -1 {
        at := at + [|before|];
      }
    }
  }

  ghost function Keep(s: seq<PollFd>): (r: seq<Live>)
    ensures |r| == |s| && forall i | 0 <= i < |s| :: r[i] == Kept(s[i])
  {
    seq(|s|, i requires 0 <= i < |s| => Kept(s[i]))
  }

  lemma {:induction false} AllLive(s: seq<PollFd>)
    requires forall i | 0 <= i < |s| :: s[i].fd != -1
    ensures Compacted(s) == Keep(s)
  {
    if s != [] {
      AllLive(s[1..]);
      assert Keep(s) == [Kept(s[0])] + Keep(s[1..]);
    }
  }

  lemma {:induction false} CompactedDependsOnKept(s: seq<PollFd>, t: seq<PollFd>)
    requires Keep(s) == Keep(t)
    ensures Compacted(s) == Compacted(t)
  {
    if s != [] {
      assert Keep(s)[0] == Kept(s[0]) && Keep(t)[0] == Kept(t[0]);
      assert Keep(s[1..]) == Keep(s)[1..] && Keep(t[1..]) == Keep(t)[1..];
      CompactedDependsOnKept(s[1..], t[1..]);
    }
  }

  /** Moves entries i + 1 up to and including n one place down; their events pending stay. */
  method ShiftDown(fds: array<PollFd>, i: nat, n: nat)
    requires i < n < fds.Length
    modifies fds
    ensures forall k | 0 <= k < fds.Length && !(i <= k < n) :: fds[k] == old(fds[k])
    ensures forall k | i <= k < n :: Kept(fds[k]) == Kept(old(fds[k + 1])) && fds[k].revents == old(fds[k].revents)
  {
    var j := i;
    while j < n
      invariant i <= j <= n
      invariant forall k | 0 <= k < fds.Length && !(i <= k < j) :: fds[k] == old(fds[k])
      invariant forall k | i <= k < j :: Kept(fds[k]) == Kept(old(fds[k + 1])) && fds[k].revents == old(fds[k].revents)
    {
      fds[j] := fds[j].(fd := fds[j + 1].fd);
      fds[j] := fds[j].(events := fds[j + 1].events);
      j := j + 1;
    }
  }

  lemma {:induction false} ShiftDropsOne(before: seq<PollFd>, after: seq<PollFd>, i: nat, n: nat)
    requires i < n <= |before| == |after| && before[i].fd == -1
    requires forall k | 0 <= k < i :: after[k] == before[k]
    requires forall k | i <= k < n - 1 :: Kept(after[k]) == Kept(before[k + 1])
    ensures Compacted(after[..n - 1]) == Compacted(before[..n])
  {
    var rest, moved := before[i + 1..n], after[i..n - 1];
    assert before[..n] == before[..i] + ([before[i]] + rest);
    assert after[..n - 1] == before[..i] + moved;
    CompactedJoin(before[..i], [before[i]] + rest);
    CompactedJoin(before[..i], moved);
    assert ([before[i]] + rest)[1..] == rest;
    assert Keep(rest) == Keep(moved);
    CompactedDependsOnKept(rest, moved);
  }

  /** Removes the handed-over entries from a table that is not full. */
  method Compress(fds: array<PollFd>, nfds: nat) returns (size: nat)
    requires nfds < fds.Length
    modifies fds
    ensures size <= nfds && Keep(fds[..size]) == Compacted(old(fds[..nfds]))
    ensures forall k | nfds <= k < fds.Length :: fds[k] == old(fds[k])
  {
    size := nfds;
    var i := 0;
    while i < size
      invariant 0 <= i <= size <= nfds
      invariant Compacted(fds[..size]) == Compacted(old(fds[..nfds]))
      invariant forall k | 0 <= k < i :: fds[k].fd != -1
      invariant forall k | nfds <= k < fds.Length :: fds[k] == old(fds[k])
      decreases size - i
    {
      if fds[i].fd == -1 {
        ghost var before := fds[..];
        ShiftDown(fds, i, size);
        ShiftDropsOne(before, fds[..], i, size);
        i := i - 1;
        size := size - 1;
      }
      i := i + 1;
    }
    AllLive(fds[..size]);
  }
}
