/** Waiting for the multi-producer queue: lf_queue::wait, and the notification in push.

  A consumer that finds the queue empty sleeps on the flag beside the head, which tells whether the head is null.
  push notifies one sleeper only when its compare-and-swap found the queue empty, and after it: the queue may have
  changed in between.  Waiting is as with a futex, and every thread may push, pop and wait. */
module LockFreeWait {
  import Q = LockFreeQueue

  /** `Due` is history: a wait of the thread has returned, and it has not popped since. */
  datatype Wait = Out | Looking | Asleep | Due

  /** `owing` marks the threads whose push linked into an empty queue and has not notified yet. */
  datatype State<T> = State(q: Q.State<T>, waits: seq<Wait>, owing: seq<bool>)

  /** A step of the queue; the load in wait; the futex wait; the notification of u by t; a wake-up without reason. */
  datatype Action<T> =
    | Queue(a: Q.Action<T>)
    | StartWait(t: nat)
    | Park(t: nat)
    | Notify(t: nat, u: nat)
    | Spurious(t: nat)

  predicate WellFormed<T>(s: State<T>) {
    |s.waits| == |s.owing| == |s.q.threads|
  }

  /** Thread t is neither inside wait nor about to notify. */
  predicate IsFree<T>(s: State<T>, t: nat) {
    t < |s.waits| && t < |s.owing| && t < |s.q.threads| && !s.waits[t].Looking? && !s.waits[t].Asleep? && !s.owing[t]
  }

  /** The step of thread t is a compare-and-swap that succeeds. */
  predicate Links<T>(q: Q.State<T>, t: nat) {
    t < |q.threads| && q.threads[t].Pushing? && q.threads[t].item in q.heap && q.head == q.threads[t].seen
  }

  /** The step of thread t is the last look of pop_all at the head: it finds it null, or exchanges it. */
  predicate Pops<T>(q: Q.State<T>, a: Q.Action<T>) {
    a.t < |q.threads| && ((a.Run? && q.threads[a.t].Peeked?) || (a.StartPop? && q.threads[a.t] == Q.Idle && q.head == 0))
  }

  function QueueStep<T>(s: State<T>, a: Q.Action<T>): State<T>
    requires IsFree(s, a.t)
  {
    State(Q.Next(s.q, a),
          if Pops(s.q, a) then s.waits[a.t := Out] else s.waits,
          if a.Run? && Links(s.q, a.t) && s.q.head == 0 then s.owing[a.t := true] else s.owing)
  }

  function Next<T>(s: State<T>, a: Action<T>): State<T> {
    match a
    case Queue(b) => if IsFree(s, b.t) then QueueStep(s, b) else s
    case StartWait(t) =>
      if IsFree(s, t) && s.q.threads[t] == Q.Idle
      then s.(waits := s.waits[t := if s.q.head == 0 then Looking else Due]) else s
    case Park(t) =>
      if t < |s.waits| && s.waits[t].Looking?
      then s.(waits := s.waits[t := if s.q.head == 0 then Asleep else Due]) else s
    case Notify(t, u) =>
      if t < |s.owing| && s.owing[t] then
        if u < |s.waits| && s.waits[u].Asleep? then s.(owing := s.owing[t := false], waits := s.waits[u := Due])
        else if forall v :: 0 <= v < |s.waits| ==> !s.waits[v].Asleep? then s.(owing := s.owing[t := false])
        else s
      else s
    case Spurious(t) =>
      if t < |s.waits| && (s.waits[t].Asleep? || s.waits[t].Looking?) then s.(waits := s.waits[t := Due]) else s
  }

  function After<T>(n: nat, actions: seq<Action<T>>): State<T> {
    if actions == [] then State(Q.After(n, []), seq(n, i => Out), seq(n, i => false))
    else Next(After(n, actions[..|actions| - 1]), actions[|actions| - 1])
  }

  lemma QueueRunsOn<T>(n: nat, run: seq<Q.Action<T>>, a: Q.Action<T>)
    ensures Q.After(n, run + [a]) == Q.Next(Q.After(n, run), a)
  {
    assert (run + [a])[..|run|] == run;
  }

  lemma NextShape<T>(s: State<T>, a: Action<T>)
    requires WellFormed(s)
    ensures WellFormed(Next(s, a)) && |Next(s, a).waits| == |s.waits|
    ensures Next(s, a).q == if a.Queue? && IsFree(s, a.a.t) then Q.Next(s.q, a.a) else s.q
  {
  }

  /** What the queue does in a run with waiting, it does in a run without: all its promises hold. */
  lemma {:induction false} QueueRuns<T>(n: nat, actions: seq<Action<T>>) returns (run: seq<Q.Action<T>>)
    ensures WellFormed(After(n, actions)) && |After(n, actions).waits| == n && After(n, actions).q == Q.After(n, run)
  {
    if actions == [] {
      run := [];
    } else {
      var front, a := actions[..|actions| - 1], actions[|actions| - 1];
      run := QueueRuns(n, front);
      NextShape(After(n, front), a);
      if a.Queue? && IsFree(After(n, front), a.a.t) {
        QueueRunsOn(n, run, a.a);
        run := run + [a.a];
      }
    }
  }

  // ----- The invariant -----

  ghost predicate SomeAsleep<T>(s: State<T>) {
    exists u :: 0 <= u < |s.waits| && s.waits[u].Asleep?
  }

  /** Some thread is about to notify, or has returned from wait and not popped yet. */
  ghost predicate Attended<T>(s: State<T>) {
    (exists t :: 0 <= t < |s.owing| && s.owing[t]) || (exists t :: 0 <= t < |s.waits| && s.waits[t].Due?)
  }

  ghost predicate Inv<T>(s: State<T>) {
    WellFormed(s) && (s.q.head != 0 && SomeAsleep(s) ==> Attended(s))
  }

  /** What a step of the queue does to the head. */
  lemma HeadMoves<T>(q: Q.State<T>, a: Q.Action<T>)
    requires Q.Inv(q)
    ensures Pops(q, a) ==> Q.Next(q, a).head == 0
    ensures q.head == 0 && Q.Next(q, a).head != 0 ==> a.Run? && Links(q, a.t)
  {
    if a.Run? && a.t < |q.threads| && q.threads[a.t].Peeked? {
      assert forall k :: 0 <= k < |q.order| ==> Q.Belongs(q, Q.Shared, q.order[k]);
    }
  }

  lemma QueueStepKeeps<T>(s: State<T>, a: Q.Action<T>)
    requires Inv(s) && Q.Inv(s.q) && IsFree(s, a.t)
    ensures Inv(QueueStep(s, a))
  {
    var s' := QueueStep(s, a);
    HeadMoves(s.q, a);
    if s'.q.head != 0 && SomeAsleep(s') {
      if s.q.head == 0 {
        assert s'.owing[a.t];
      } else {
        assert s'.waits == s.waits && s'.owing == s.owing;
      }
    }
  }

  lemma NextKeeps<T>(s: State<T>, a: Action<T>)
    requires Inv(s) && Q.Inv(s.q)
    ensures Inv(Next(s, a))
  {
    var s' := Next(s, a);
    match a
    case Queue(b) =>
      if IsFree(s, b.t) {
        QueueStepKeeps(s, b);
      }
    case Notify(t, u) =>
      if s' != s && s'.q.head != 0 && SomeAsleep(s') {
        assert s'.waits[u].Due?;
      }
    case _ =>
      if s' != s && s'.q.head != 0 && SomeAsleep(s') {
        assert s'.waits[a.t].Due?;
      }
  }

  lemma QueueInv<T>(n: nat, actions: seq<Action<T>>)
    ensures Q.Inv(After(n, actions).q)
  {
    var run := QueueRuns(n, actions);
    Q.AfterInv(n, run);
  }

  lemma StartInv<T>(n: nat)
    ensures Inv(After<T>(n, [])) && |After<T>(n, []).waits| == n
  {
  }

  lemma {:induction false} AfterInv<T>(n: nat, actions: seq<Action<T>>)
    ensures Inv(After(n, actions)) && |After(n, actions).waits| == n
  {
    if actions == [] {
      StartInv<T>(n);
    } else {
      var s, a := After(n, actions[..|actions| - 1]), actions[|actions| - 1];
      AfterInv(n, actions[..|actions| - 1]);
      QueueInv(n, actions[..|actions| - 1]);
      NextKeeps(s, a);
      NextShape(s, a);
    }
  }

  // ----- What waiting promises -----

  /** No wake-up is lost: while the queue holds something and a thread sleeps, a notification is under way or a thread
      that returned from wait has yet to pop, although most pushes do not notify. */
  lemma NoLostWakeup<T>(n: nat, actions: seq<Action<T>>, u: nat)
    requires u < n && |After(n, actions).waits| == n && After(n, actions).waits[u].Asleep?
    ensures After(n, actions).q.head != 0 ==> Attended(After(n, actions))
  {
    AfterInv(n, actions);
  }

  ghost predicate OnlyWaits<T>(actions: seq<Action<T>>, c: nat) {
    forall i :: 0 <= i < |actions| && actions[i].StartWait? ==> actions[i].t == c
  }

  ghost predicate OnlyInside<T>(s: State<T>, c: nat) {
    forall t :: 0 <= t < |s.waits| && t != c ==> s.waits[t] == Out
  }

  lemma NextOthersOut<T>(s: State<T>, a: Action<T>, c: nat)
    requires OnlyInside(s, c) && (a.StartWait? ==> a.t == c)
    ensures OnlyInside(Next(s, a), c)
  {
  }

  lemma {:induction false} OthersOut<T>(n: nat, actions: seq<Action<T>>, c: nat)
    requires OnlyWaits(actions, c)
    ensures OnlyInside(After(n, actions), c)
  {
    if actions != [] {
      OthersOut(n, actions[..|actions| - 1], c);
      NextOthersOut(After(n, actions[..|actions| - 1]), actions[|actions| - 1], c);
    }
  }

  /** With one consumer, the one the queue is made for: it sleeps beside a queue that holds something only while a
      push is about to notify, and that notification wakes it. */
  lemma ConsumerIsWoken<T>(n: nat, actions: seq<Action<T>>, c: nat)
    requires OnlyWaits(actions, c) && c < n && |After(n, actions).waits| == n && After(n, actions).waits[c].Asleep?
    ensures var s := After(n, actions);
      && |s.owing| == n
      && (s.q.head != 0 ==> exists t: nat :: t < n && s.owing[t])
      && (forall t: nat, u: nat :: t < n && s.owing[t] && Next(s, Notify(t, u)) != s ==> Next(s, Notify(t, u)).waits[c].Due?)
      && (forall t: nat :: t < n && s.owing[t] ==> Next(s, Notify(t, c)) != s)
  {
    AfterInv(n, actions);
    OthersOut(n, actions, c);
    var s := After(n, actions);
    if s.q.head != 0 {
      assert SomeAsleep(s);
      assert forall t :: 0 <= t < n ==> !s.waits[t].Due?;
    }
    forall t: nat, u: nat | t < n && s.owing[t] && Next(s, Notify(t, u)) != s ensures Next(s, Notify(t, u)).waits[c].Due? {
      assert u < n && s.waits[u].Asleep?;
    }
    forall t: nat | t < n && s.owing[t] ensures Next(s, Notify(t, c)) != s {
      assert Next(s, Notify(t, c)).waits[c].Due?;
    }
  }

  /** A wait that nobody disturbs sleeps after two steps beside an empty queue, and returns at once beside another. */
  lemma WaitAlone<T>(s: State<T>, t: nat)
    requires IsFree(s, t) && s.q.threads[t] == Q.Idle
    ensures var s1 := Next(s, StartWait(t));
      if s.q.head == 0 then Next(s1, Park(t)) == s.(waits := s.waits[t := Asleep]) else s1 == s.(waits := s.waits[t := Due])
  {
    assert s.waits[t := Looking][t := Asleep] == s.waits[t := Asleep];
  }
}
