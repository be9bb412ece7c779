/** The counting semaphore of Utilities/sema.h and Utilities/sema.cpp.

  One 32-bit word packs the number of free permits (low half) and the number of registered waiters (high half).
  Steps and futex waiting are as in the reader-writer lock: one atomic access per step, any interleaving. */
module Semaphore {
  import opened Basics
  import opened Threads

  const FULL := 0xFFFF                 // c_value_mask: the largest number of free permits
  const ALL_WAITING := 0xFFFF_0000     // c_waiter_mask
  const MAX_THREADS := 0xFFFE

  /** (word & c_value_mask) / c_value */
  function Permits(word: nat): (p: nat)
    ensures p <= FULL
  {
    word % 0x1_0000
  }

  /** (word & c_waiter_mask) / c_waiter */
  function Waiters(word: nat): nat {
    word / 0x1_0000
  }

  /** Packing p permits and q waiters. */
  function Pack(p: nat, q: nat): (word: nat)
    requires p <= FULL
    ensures Permits(word) == p && Waiters(word) == q
  {
    p + 0x1_0000 * q
  }

  function Add(word: nat, d: nat): (r: nat)
    ensures word + d < 0x1_0000_0000 ==> r == word + d
  {
    (word + d) % 0x1_0000_0000
  }

  function Sub(word: nat, d: nat): (r: nat)
    requires d <= 0x1_0000_0000
    ensures d <= word < 0x1_0000_0000 ==> r == word - d
  {
    (word + 0x1_0000_0000 - d) % 0x1_0000_0000
  }

  datatype Local =
    | Idle
    | WaitCas(seen: nat)               // wait: the conditional decrement
    | Spin(i: nat)                     // imp_wait: the spinning loop
    | SpinCas(i: nat, seen: nat)
    | Enqueue                          // imp_wait: fetch_op with waits == false
    | Parking(seen: nat)
    | Parked
    | Retry                            // imp_wait: fetch_op with waits == true
    | PostTail(old_: nat)              // imp_post
    | Notifying
    | PostOverflow                     // ensure() of imp_post failed
    | WaitOverflow                     // ensure() of imp_wait failed

  datatype Call = Wait | TryWait | Post | TryPost

  /** The result of a step; `took` and `gave` record that it obtained or returned a permit. */
  datatype Outcome = Outcome(word: nat, l: Local, took: bool, gave: bool)

  function Quiet(word: nat, l: Local): Outcome {
    Outcome(word, l, false, false)
  }

  /** wait, try_wait, post and try_post, made by a thread outside any call. */
  function Enter(word: nat, c: Call, max: nat): Outcome {
    match c
    case Wait => if Permits(word) == 0 then Quiet(word, Spin(0)) else Quiet(word, WaitCas(word))
    case TryWait => if Permits(word) != 0 then Outcome(Sub(word, 1), Idle, true, false) else Quiet(word, Idle)
    case Post =>
      if Waiters(word) != 0 || Permits(word) >= Min(FULL, max)
      then Outcome(Add(word, 1), PostTail(word), false, true)
      else Outcome(Add(word, 1), Idle, false, true)
    case TryPost =>
      if Permits(word) > max then Quiet(word, Idle)
      else Outcome(Add(word, 1), if Waiters(word) != 0 then PostTail(word) else Idle, false, true)
  }

  function Exec(word: nat, l: Local, c: Call, max: nat): Outcome {
    match l
    case Idle =>
      Enter(word, c, max)
    case WaitCas(seen) =>
      if word == seen then Outcome(Sub(seen, 1), Idle, true, false) else Quiet(word, Spin(0))
    case Spin(i) =>
      if i >= 10 then Quiet(word, Enqueue)
      else if Permits(word) != 0 then Quiet(word, SpinCas(i, word))
      else Quiet(word, Spin(i + 1))
    case SpinCas(i, seen) =>
      if word == seen then Outcome(Sub(seen, 1), Idle, true, false) else Quiet(word, Spin(i + 1))
    case Enqueue =>
      if word == ALL_WAITING then Quiet(word, WaitOverflow)
      else if Permits(word) != 0 then Outcome(Sub(word, 1), Idle, true, false)
      else Quiet(Add(word, 0x1_0000), Parking(Add(word, 0x1_0000)))
    case Parking(seen) => if word == seen then Quiet(word, Parked) else Quiet(word, Retry)
    case Retry =>
      if word == ALL_WAITING then Quiet(word, WaitOverflow)
      else if Permits(word) != 0 then Outcome(Sub(Sub(word, 1), 0x1_0000), Idle, true, false)
      else Quiet(word, Parking(word))
    case PostTail(o) =>
      if Permits(o) == FULL then Quiet(word, PostOverflow)
      else if Waiters(o) > Permits(o) then Quiet(word, Notifying)
      else Quiet(word, Idle)
    case _ => Quiet(word, l)
  }

  /** `initial` is the value the semaphore is made with, `max` its template argument; `takes` and `posts` count, over
      the whole run, the permits obtained and returned. */
  datatype State = State(initial: nat, max: nat, word: nat, threads: seq<Local>, takes: nat, posts: nat)

  datatype Action = Run(t: nat, c: Call) | NotifyOne(t: nat, u: nat) | Spurious(t: nat)

  function Next(s: State, a: Action): State {
    match a
    case Run(t, c) =>
      if t < |s.threads| then
        var o := Exec(s.word, s.threads[t], c, s.max);
        s.(word := o.word, threads := s.threads[t := o.l],
           takes := s.takes + One(o.took), posts := s.posts + One(o.gave))
      else s
    case NotifyOne(t, u) =>
      if t < |s.threads| && s.threads[t] == Notifying then
        if u < |s.threads| && s.threads[u] == Parked then
          s.(threads := s.threads[t := Idle][u := Retry])
        else if forall v :: 0 <= v < |s.threads| ==> s.threads[v] != Parked then
          s.(threads := s.threads[t := Idle])
        else s
      else s
    case Spurious(t) =>
      if t < |s.threads| && s.threads[t] == Parked then s.(threads := s.threads[t := Retry]) else s
  }

  function Init(n: nat, initial: nat, max: nat): State {
    State(initial, max, initial, seq(n, i => Idle), 0, 0)
  }

  function Steps(s: State, actions: seq<Action>): State
    decreases |actions|
  {
    if actions == [] then s else Steps(Next(s, actions[0]), actions[1..])
  }

  function After(n: nat, initial: nat, max: nat, actions: seq<Action>): State {
    Steps(Init(n, initial, max), actions)
  }

  // ----- Roles -----

  predicate IsRegistered(l: Local) {
    l.Parking? || l.Parked? || l.Retry?
  }

  predicate IsAwake(l: Local) {
    l.Parking? || l.Retry?
  }

  /** Will call notify_one. */
  predicate IsNotifier(l: Local) {
    l.Notifying? || (l.PostTail? && Permits(l.old_) != FULL && Waiters(l.old_) > Permits(l.old_))
  }

  /** Has posted to a semaphore that already had all its 65535 permits free. */
  predicate IsOverflow(l: Local) {
    l.PostOverflow? || (l.PostTail? && Permits(l.old_) == FULL)
  }

  predicate LocalOk(l: Local) {
    match l
    case WaitCas(seen) => Permits(seen) != 0
    case SpinCas(_, seen) => Permits(seen) != 0
    case Parking(seen) => Permits(seen) == 0
    case WaitOverflow => false
    case _ => true
  }

  // ----- The invariant -----

  /** The waiter field counts the registered threads, and enough of them are awake, or about to be woken, to
      use the free permits. */
  ghost predicate CountInv(word: nat, ts: seq<Local>) {
    && |ts| <= MAX_THREADS
    && word == Pack(Permits(word), Count(ts, IsRegistered))
    && Count(ts, IsAwake) + Count(ts, IsNotifier) >= Min(Permits(word), Count(ts, IsRegistered))
  }

  ghost predicate Good(s: State) {
    && CountInv(s.word, s.threads)
    && Permits(s.word) + s.takes == s.initial + s.posts
    && (forall t :: 0 <= t < |s.threads| ==> LocalOk(s.threads[t]))
    && s.max < 0x8000
  }

  ghost predicate Inv(s: State) {
    (exists t :: 0 <= t < |s.threads| && IsOverflow(s.threads[t])) || Good(s)
  }

  datatype Role = Out | Awake | Asleep | Notifier

  function RoleOf(l: Local): Role {
    if IsAwake(l) then Awake else if l.Parked? then Asleep else if IsNotifier(l) then Notifier else Out
  }

  /** The protocol without its retries, on p permits and q registered waiters. */
  predicate Effect(p: nat, q: nat, a: Role, p': nat, q': nat, b: Role) {
    || (p' == p && q' == q && b == a)
    || (a == Out && b == Out && p' == p - 1 && q' == q)                                  // obtain
    || (a == Out && b == Awake && p == 0 && p' == p && q' == q + 1)                      // register
    || (a == Awake && b == Out && p' == p - 1 && q' == q - 1)                            // obtain and leave
    || (a == Awake && b == Asleep && p == 0 && p' == p && q' == q)                       // sleep
    || (a == Out && b == (if q > p then Notifier else Out) && p' == p + 1 && q' == q)    // post
  }

  predicate IsEffect(p: nat, q: nat, l: Local, o: Outcome)
    requires p <= FULL
  {
    var p', q' := Permits(o.word), Waiters(o.word);
    IsOverflow(o.l) ||
    (Effect(p, q, RoleOf(l), p', q', RoleOf(o.l)) && LocalOk(o.l) && p' == p - One(o.took) + One(o.gave))
  }

  lemma EnterWaitEffect(p: nat, q: nat, c: Call, max: nat)
    requires p <= FULL && q <= MAX_THREADS && (c.Wait? || c.TryWait?)
    ensures IsEffect(p, q, Idle, Enter(Pack(p, q), c, max))
  {
    if p > 0 {
      assert Sub(Pack(p, q), 1) == Pack(p - 1, q);
    }
  }

  lemma EnterPostEffect(p: nat, q: nat, c: Call, max: nat)
    requires p <= FULL && q <= MAX_THREADS && max < 0x8000 && (c.Post? || c.TryPost?)
    ensures IsEffect(p, q, Idle, Enter(Pack(p, q), c, max))
  {
    PostEffect(p, q);
  }

  lemma PostEffect(p: nat, q: nat)
    requires p <= FULL && q <= MAX_THREADS
    ensures p == FULL ==> IsOverflow(PostTail(Pack(p, q)))
    ensures p < FULL ==> Permits(Add(Pack(p, q), 1)) == p + 1 && Waiters(Add(Pack(p, q), 1)) == q
    ensures p < FULL ==> RoleOf(PostTail(Pack(p, q))) == if q > p then Notifier else Out
  {
    if p < FULL {
      assert Add(Pack(p, q), 1) == Pack(p + 1, q);
    }
  }

  /** The atomic decrement of the fast path and of the spinning loop. */
  lemma ObtainEffect(p: nat, q: nat, l: Local, c: Call, max: nat)
    requires p <= FULL && q <= MAX_THREADS && LocalOk(l) && (l.WaitCas? || l.SpinCas?)
    ensures IsEffect(p, q, l, Exec(Pack(p, q), l, c, max))
  {
    if p > 0 {
      assert Sub(Pack(p, q), 1) == Pack(p - 1, q);
    }
  }

  lemma EnqueueEffect(p: nat, q: nat, c: Call, max: nat)
    requires p <= FULL && q < MAX_THREADS
    ensures IsEffect(p, q, Enqueue, Exec(Pack(p, q), Enqueue, c, max))
  {
    if p > 0 {
      assert Sub(Pack(p, q), 1) == Pack(p - 1, q);
    } else {
      assert Add(Pack(0, q), 0x1_0000) == Pack(0, q + 1);
    }
  }

  lemma RetryEffect(p: nat, q: nat, c: Call, max: nat)
    requires p <= FULL && 0 < q <= MAX_THREADS
    ensures IsEffect(p, q, Retry, Exec(Pack(p, q), Retry, c, max))
  {
    if p > 0 {
      assert Sub(Pack(p, q), 1) == Pack(p - 1, q);
      assert Sub(Pack(p - 1, q), 0x1_0000) == Pack(p - 1, q - 1);
    }
  }

  /** Steps that leave the word alone. */
  lemma LocalEffect(p: nat, q: nat, l: Local, c: Call, max: nat)
    requires p <= FULL && q <= MAX_THREADS && LocalOk(l)
    requires !l.Idle? && !l.WaitCas? && !l.SpinCas? && !l.Enqueue? && !l.Retry?
    ensures IsEffect(p, q, l, Exec(Pack(p, q), l, c, max))
  {
  }

  lemma ExecEffect(p: nat, q: nat, l: Local, c: Call, max: nat)
    requires p <= FULL && LocalOk(l) && max < 0x8000
    requires One(IsRegistered(l)) <= q <= MAX_THREADS - One(!IsRegistered(l))
    ensures IsEffect(p, q, l, Exec(Pack(p, q), l, c, max))
  {
    match l
    case Idle =>
      if c.Wait? || c.TryWait? {
        EnterWaitEffect(p, q, c, max);
      } else {
        EnterPostEffect(p, q, c, max);
      }
    case WaitCas(_) => ObtainEffect(p, q, l, c, max);
    case SpinCas(_, _) => ObtainEffect(p, q, l, c, max);
    case Enqueue => EnqueueEffect(p, q, c, max);
    case Retry => RetryEffect(p, q, c, max);
    case _ => LocalEffect(p, q, l, c, max);
  }

  /** The three counts after one thread moved. */
  lemma CountsMove(ts: seq<Local>, t: nat, l: Local)
    requires t < |ts|
    ensures Count(ts[t := l], IsRegistered)
         == Count(ts, IsRegistered) - One(IsRegistered(ts[t])) + One(IsRegistered(l))
    ensures Count(ts[t := l], IsAwake) == Count(ts, IsAwake) - One(IsAwake(ts[t])) + One(IsAwake(l))
    ensures Count(ts[t := l], IsNotifier) == Count(ts, IsNotifier) - One(IsNotifier(ts[t])) + One(IsNotifier(l))
    ensures One(IsRegistered(ts[t])) <= Count(ts, IsRegistered)
    ensures Count(ts, IsRegistered) + One(!IsRegistered(ts[t])) <= |ts|
  {
    CountUpdate(ts, t, l, IsRegistered);
    CountUpdate(ts, t, l, IsAwake);
    CountUpdate(ts, t, l, IsNotifier);
    CountUpdate(ts, t, Parked, IsRegistered);
    CountDisjoint(ts[t := Parked], IsRegistered, IsNotifier);
  }

  lemma PackFields(word: nat)
    ensures word == Pack(Permits(word), Waiters(word))
  {
  }

  /** Each change of the protocol keeps the count equations. */
  lemma EffectKeeps(p: nat, ts: seq<Local>, t: nat, p': nat, q': nat, l: Local)
    requires p <= FULL && p' <= FULL && t < |ts| && CountInv(Pack(p, Count(ts, IsRegistered)), ts)
    requires Effect(p, Count(ts, IsRegistered), RoleOf(ts[t]), p', q', RoleOf(l))
    ensures CountInv(Pack(p', q'), ts[t := l])
  {
    CountsMove(ts, t, l);
  }

  lemma RunKeepsCounts(word: nat, ts: seq<Local>, t: nat, c: Call, max: nat)
    requires CountInv(word, ts) && t < |ts| && LocalOk(ts[t]) && max < 0x8000
    ensures var o := Exec(word, ts[t], c, max);
      IsOverflow(o.l) ||
      (CountInv(o.word, ts[t := o.l]) && LocalOk(o.l)
       && Permits(o.word) == Permits(word) - One(o.took) + One(o.gave))
  {
    var o := Exec(word, ts[t], c, max);
    CountsMove(ts, t, o.l);
    ExecEffect(Permits(word), Count(ts, IsRegistered), ts[t], c, max);
    assert IsEffect(Permits(word), Count(ts, IsRegistered), ts[t], o);
    if !IsOverflow(o.l) {
      PackFields(o.word);
      EffectKeeps(Permits(word), ts, t, Permits(o.word), Waiters(o.word), o.l);
    }
  }

  /** A thread whose post found all permits free stays as it is, or fails. */
  lemma OverflowStays(s: State, a: Action, t: nat)
    requires t < |s.threads| && IsOverflow(s.threads[t])
    ensures t < |Next(s, a).threads| && IsOverflow(Next(s, a).threads[t])
  {
  }

  lemma RunKeeps(s: State, t: nat, c: Call)
    requires Good(s) && t < |s.threads|
    ensures Inv(Next(s, Run(t, c)))
  {
    var o := Exec(s.word, s.threads[t], c, s.max);
    RunKeepsCounts(s.word, s.threads, t, c, s.max);
    var s' := Next(s, Run(t, c));
    if IsOverflow(o.l) {
      assert IsOverflow(s'.threads[t]);
    } else {
      assert Good(s');
    }
  }

  lemma SpuriousKeeps(s: State, t: nat)
    requires Good(s)
    ensures Good(Next(s, Spurious(t)))
  {
    if t < |s.threads| && s.threads[t] == Parked {
      CountsMove(s.threads, t, Retry);
    }
  }

  lemma NextKeeps(s: State, a: Action)
    requires Inv(s)
    ensures Inv(Next(s, a))
  {
    if t :| 0 <= t < |s.threads| && IsOverflow(s.threads[t]) {
      OverflowStays(s, a, t);
    } else {
      match a
      case Run(t, c) =>
        if t < |s.threads| {
          RunKeeps(s, t, c);
        }
      case NotifyOne(t, u) =>
        NotifyKeeps(s, t, u);
      case Spurious(t) =>
        SpuriousKeeps(s, t);
    }
  }

  lemma NotifyKeeps(s: State, t: nat, u: nat)
    requires Good(s)
    ensures Good(Next(s, NotifyOne(t, u)))
  {
    if t < |s.threads| && s.threads[t] == Notifying {
      if u < |s.threads| && s.threads[u] == Parked {
        WakeKeepsCounts(s.word, s.threads, t, u);
      } else if forall v :: 0 <= v < |s.threads| ==> s.threads[v] != Parked {
        NobodyToWake(s.word, s.threads, t);
      }
    }
  }

  lemma WakeKeepsCounts(word: nat, ts: seq<Local>, t: nat, u: nat)
    requires CountInv(word, ts) && t < |ts| && u < |ts| && ts[t] == Notifying && ts[u] == Parked
    ensures CountInv(word, ts[t := Idle][u := Retry])
  {
    CountsMove(ts, t, Idle);
    CountsMove(ts[t := Idle], u, Retry);
  }

  lemma NobodyToWake(word: nat, ts: seq<Local>, t: nat)
    requires CountInv(word, ts) && t < |ts| && ts[t] == Notifying && forall v :: 0 <= v < |ts| ==> ts[v] != Parked
    ensures CountInv(word, ts[t := Idle])
  {
    CountsMove(ts, t, Idle);
    AllAwake(ts[t := Idle]);
  }

  /** When nobody sleeps, every registered thread is awake. */
  lemma {:induction false} AllAwake(ts: seq<Local>)
    requires forall v :: 0 <= v < |ts| ==> ts[v] != Parked
    ensures Count(ts, IsAwake) == Count(ts, IsRegistered)
  {
    if ts != [] {
      AllAwake(ts[1..]);
    }
  }

  lemma {:induction false} StepsKeep(s: State, actions: seq<Action>)
    requires Inv(s)
    ensures Inv(Steps(s, actions)) && |Steps(s, actions).threads| == |s.threads|
    decreases |actions|
  {
    if actions != [] {
      NextKeeps(s, actions[0]);
      StepsKeep(Next(s, actions[0]), actions[1..]);
    }
  }

  /** The invariant holds after every interleaving, up to the point where a caller overfills the semaphore. */
  lemma AfterInv(n: nat, initial: nat, max: nat, actions: seq<Action>)
    requires n <= MAX_THREADS && initial < 0x8000 && max < 0x8000
    ensures Inv(After(n, initial, max, actions)) && |After(n, initial, max, actions).threads| == n
  {
    var s := Init(n, initial, max);
    CountUniform(s.threads, Idle, IsRegistered);
    CountUniform(s.threads, Idle, IsAwake);
    CountUniform(s.threads, Idle, IsNotifier);
    StepsKeep(s, actions);
  }

  // ----- What the semaphore promises -----

  /** Some caller returned a permit that did not exist: all 65535 were free already. */
  ghost predicate Overfilled(s: State) {
    exists t :: 0 <= t < |s.threads| && IsOverflow(s.threads[t])
  }

  /** Permits are conserved, and the waiter field is the number of registered threads. */
  lemma Conservation(n: nat, initial: nat, max: nat, actions: seq<Action>)
    requires n <= MAX_THREADS && initial < 0x8000 && max < 0x8000
    ensures var s := After(n, initial, max, actions);
      Overfilled(s) ||
      (Permits(s.word) + s.takes == initial + s.posts && Waiters(s.word) == Count(s.threads, IsRegistered))
  {
    AfterInv(n, initial, max, actions);
    StepsKeepParameters(Init(n, initial, max), actions);
  }

  lemma {:induction false} StepsKeepParameters(s: State, actions: seq<Action>)
    ensures Steps(s, actions).initial == s.initial && Steps(s, actions).max == s.max
    decreases |actions|
  {
    if actions != [] {
      StepsKeepParameters(Next(s, actions[0]), actions[1..]);
    }
  }

  /** No wake-up is lost: among the registered threads, those awake together with the notifications in flight
      are enough for the free permits, although imp_post notifies only when waiters outnumber permits. */
  lemma NoLostWakeup(n: nat, initial: nat, max: nat, actions: seq<Action>)
    requires n <= MAX_THREADS && initial < 0x8000 && max < 0x8000
    ensures var s := After(n, initial, max, actions);
      Overfilled(s) ||
      Count(s.threads, IsAwake) + Count(s.threads, IsNotifier)
        >= Min(Permits(s.word), Count(s.threads, IsRegistered))
  {
    AfterInv(n, initial, max, actions);
  }

  /** In particular, while a permit is free no thread sleeps unattended. */
  lemma SleeperIsServed(n: nat, initial: nat, max: nat, actions: seq<Action>, t: nat)
    requires n <= MAX_THREADS && initial < 0x8000 && max < 0x8000 && t < n
    ensures var s := After(n, initial, max, actions);
      |s.threads| == n &&
      (Overfilled(s) || (s.threads[t] == Parked && Permits(s.word) > 0 ==>
        exists u :: 0 <= u < n && (IsAwake(s.threads[u]) || IsNotifier(s.threads[u]))))
  {
    AfterInv(n, initial, max, actions);
    var s := After(n, initial, max, actions);
    CountZero(s.threads, IsRegistered);
    CountZero(s.threads, IsAwake);
    CountZero(s.threads, IsNotifier);
  }

  // ----- The limit on waiting threads -----

  lemma {:induction false} StepsAppend(s: State, a: seq<Action>, b: seq<Action>)
    ensures Steps(s, a + b) == Steps(Steps(s, a), b)
    decreases |a|
  {
    if a == [] {
      assert a + b == b;
    } else {
      assert (a + b)[1..] == a[1..] + b;
      StepsAppend(Next(s, a[0]), a[1..], b);
    }
  }

  /** A thread that finds no permit spins ten times and goes on to register. */
  lemma {:induction false} SpinOut(s: State, t: nat, i: nat) returns (actions: seq<Action>)
    requires t < |s.threads| && s.threads[t] == Spin(i) && i <= 10 && Permits(s.word) == 0
    ensures Steps(s, actions) == s.(threads := s.threads[t := Enqueue])
    decreases 10 - i
  {
    var a := Run(t, Wait);
    if i == 10 {
      actions := [a];
      assert Steps(s, actions) == Steps(Next(s, a), []);
    } else {
      var s' := Next(s, a);
      var rest := SpinOut(s', t, i + 1);
      actions := [a] + rest;
      assert s'.threads[t := Enqueue] == s.threads[t := Enqueue];
    }
  }

  /** An idle thread can go to sleep as one more waiter. */
  lemma Enrol(s: State, t: nat, k: nat) returns (actions: seq<Action>)
    requires t < |s.threads| && s.threads[t] == Idle && s.word == Pack(0, k) && k < 0xFFFF
    ensures Steps(s, actions) == s.(word := Pack(0, k + 1), threads := s.threads[t := Parked])
  {
    var a := Run(t, Wait);
    var spinning := Next(s, a);
    var spin := SpinOut(spinning, t, 0);
    var s1 := s.(threads := s.threads[t := Enqueue]);
    assert spinning.threads[t := Enqueue] == s1.threads;
    var s2 := Next(s1, a);
    assert s2 == s.(word := Pack(0, k + 1), threads := s.threads[t := Parking(Pack(0, k + 1))]);
    var s3 := Next(s2, a);
    assert s3 == s.(word := Pack(0, k + 1), threads := s.threads[t := Parked]);
    actions := [a] + (spin + [a, a]);
    StepsAppend(spinning, spin, [a, a]);
    assert [a, a][1..] == [a];
    assert Steps(s1, [a, a]) == Steps(s2, [a]) == Steps(s3, []);
  }

  lemma {:induction false} EnrolMany(n: nat, max: nat, k: nat) returns (actions: seq<Action>)
    requires k <= n && k <= 0xFFFF
    ensures After(n, 0, max, actions)
         == Init(n, 0, max).(word := Pack(0, k), threads := seq(n, i => if i < k then Parked else Idle))
  {
    if k == 0 {
      actions := [];
      assert Init(n, 0, max).threads == seq(n, i => if i < k then Parked else Idle);
    } else {
      var before := EnrolMany(n, max, k - 1);
      var s := After(n, 0, max, before);
      var more := Enrol(s, k - 1, k - 1);
      actions := before + more;
      StepsAppend(Init(n, 0, max), before, more);
      assert s.threads[k - 1 := Parked] == seq(n, i => if i < k then Parked else Idle);
    }
  }

  /** The overflow check of imp_wait fires when 65535 threads wait and one of them wakes up without a permit: as long as
      no caller has overfilled the semaphore, it can never fire with fewer threads, and it can with that many. */
  lemma WaitOverflowLimit(n: nat, max: nat)
    requires max < 0x8000
    ensures n <= MAX_THREADS <==>
      forall initial: nat, actions: seq<Action>, t: nat | initial < 0x8000 ::
        var s := After(n, initial, max, actions);
        !Overfilled(s) && t < |s.threads| ==> s.threads[t] != WaitOverflow
  {
    if n <= MAX_THREADS {
      forall initial: nat, actions: seq<Action>, t: nat | initial < 0x8000
        ensures var s := After(n, initial, max, actions);
          !Overfilled(s) && t < |s.threads| ==> s.threads[t] != WaitOverflow
      {
        AfterInv(n, initial, max, actions);
      }
    } else {
      var sleep := EnrolMany(n, max, 0xFFFF);
      var s := After(n, 0, max, sleep);
      var wake, run := Spurious(0), Run(0, Wait);
      var s1 := Next(s, wake);
      var s2 := Next(s1, run);
      assert s2.threads[0] == WaitOverflow;
      StepsAppend(Init(n, 0, max), sleep, [wake, run]);
      assert [wake, run][1..] == [run];
      assert Steps(s, [wake, run]) == Steps(s1, [run]) == Steps(s2, []) == s2;
      assert !Overfilled(s2);
      assert After(n, 0, max, sleep + [wake, run]) == s2;
    }
  }
}
