/** The positions of the elements of a sequence that are kept, in order. */
module KeptPositions {

  ghost predicate Increasing(at: seq<nat>) {
    forall i, j | 0 <= i < j < |at| :: at[i] < at[j]
  }

  ghost predicate AllKept(at: seq<nat>, n: nat, keep: nat -> bool) {
    forall i | 0 <= i < |at| :: at[i] < n && keep(at[i])
  }

  ghost predicate NoneMissing(at: seq<nat>, n: nat, keep: nat -> bool) {
    forall k: nat | k < n && keep(k) :: k in at
  }

  /** `at` are the positions below `n` that are kept, in order. */
  ghost predicate Lists(at: seq<nat>, n: nat, keep: nat -> bool) {
    Increasing(at) && AllKept(at, n, keep) && NoneMissing(at, n, keep)
  }

  lemma {:induction false} AppendedIncreases(at: seq<nat>, n: nat, keep: nat -> bool)
    requires Increasing(at) && AllKept(at, n, keep)
    ensures Increasing(at + [n])
  {}

  lemma {:induction false} AppendedIsKept(at: seq<nat>, n: nat, before: nat -> bool, keep: nat -> bool)
    requires AllKept(at, n, before) && forall k: nat | k < n :: keep(k) == before(k)
    ensures AllKept(at, n, keep) && AllKept(at, n + 1, keep)
    ensures keep(n) ==> AllKept(at + [n], n + 1, keep)
  {}

  lemma {:induction false} AppendedMissesNone(at: seq<nat>, n: nat, before: nat -> bool, keep: nat -> bool)
    requires NoneMissing(at, n, before) && forall k: nat | k < n :: keep(k) == before(k)
    ensures keep(n) ==> NoneMissing(at + [n], n + 1, keep)
    ensures !keep(n) ==> NoneMissing(at, n + 1, keep)
  {
    forall k: nat | k < n + 1 && keep(k) ensures k in at + [n] {
      if k == n { assert (at + [n])[|at|] == n; } else { assert k in at; }
    }
    forall k: nat | k < n + 1 && keep(k) ensures !keep(n) ==> k in at {
      if k < n { assert k in at; }
    }
  }

  /** One more element. */
  lemma {:induction false} ListsOneMore(at: seq<nat>, n: nat, before: nat -> bool, keep: nat -> bool)
    requires Lists(at, n, before) && forall k: nat | k < n :: keep(k) == before(k)
    ensures Lists(if keep(n) then at + [n] else at, n + 1, keep)
  {
    AppendedIncreases(at, n, before);
    AppendedIsKept(at, n, before, keep);
    AppendedMissesNone(at, n, before, keep);
  }
}
