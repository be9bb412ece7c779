/** Counting over a population of threads.

  A concurrent component is modelled by one shared word and a sequence of thread-local states, one per
  thread.  Its invariants speak about how many threads are in a given situation, and every step of a
  component changes the local state of one or two threads. */
module Threads {

  /** 1 when the condition holds, 0 otherwise. */
  function One(b: bool): nat {
    if b then 1 else 0
  }

  /** The number of threads that satisfy p. */
  function Count<T(!new)>(ts: seq<T>, p: T -> bool): nat {
    if ts == [] then 0 else One(p(ts[0])) + Count(ts[1..], p)
  }

  /** Replacing the local state of one thread shifts the count by that thread alone. */
  lemma {:induction false} CountUpdate<T(!new)>(ts: seq<T>, i: nat, x: T, p: T -> bool)
    requires i < |ts|
    ensures Count(ts[i := x], p) == Count(ts, p) - One(p(ts[i])) + One(p(x))
    ensures One(p(ts[i])) <= Count(ts, p)
  {
    if i == 0 {
      assert ts[i := x][1..] == ts[1..];
    } else {
      assert ts[i := x][1..] == ts[1..][i - 1 := x];
      CountUpdate(ts[1..], i - 1, x, p);
    }
  }

  /** Two conditions that exclude each other are counted within the population. */
  lemma {:induction false} CountDisjoint<T(!new)>(ts: seq<T>, p: T -> bool, q: T -> bool)
    requires forall x :: !(p(x) && q(x))
    ensures Count(ts, p) + Count(ts, q) <= |ts|
  {
    if ts != [] {
      CountDisjoint(ts[1..], p, q);
    }
  }

  /** A count is zero exactly when no thread satisfies the condition. */
  lemma {:induction false} CountZero<T(!new)>(ts: seq<T>, p: T -> bool)
    ensures Count(ts, p) == 0 <==> forall i :: 0 <= i < |ts| ==> !p(ts[i])
  {
    if ts != [] {
      CountZero(ts[1..], p);
      assert forall i :: 1 <= i < |ts| ==> ts[i] == ts[1..][i - 1];
      if Count(ts[1..], p) != 0 {
        var j :| 0 <= j < |ts[1..]| && p(ts[1..][j]);
        assert p(ts[j + 1]);
      }
    }
  }

  /** A condition no thread satisfies at the start has count zero; one all satisfy has full count. */
  lemma {:induction false} CountUniform<T(!new)>(ts: seq<T>, x: T, p: T -> bool)
    requires forall i :: 0 <= i < |ts| ==> ts[i] == x
    ensures Count(ts, p) == if p(x) then |ts| else 0
  {
    if ts != [] {
      CountUniform(ts[1..], x, p);
    }
  }
}
