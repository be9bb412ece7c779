/** The condition variable of Utilities/cond.h and Utilities/cond.cpp.

  One 32-bit word packs the number of waiting threads (13 bits) and the number of signals sent while any thread
  waits (19 bits).  Steps and futex waiting are as in the reader-writer lock; a timeout is a spurious wake-up. */
module CondVariable {
  import opened Threads

  const MAX_WAITERS := 0x1FFF      // c_waiter_mask
  const MAX_SIGNALS := 0x7_FFFF    // c_signal_mask, in units of its lowest bit

  function Waiters(word: nat): (w: nat)
    ensures w <= MAX_WAITERS
  {
    word % 0x2000
  }

  function Signals(word: nat): nat {
    word / 0x2000
  }

  function Pack(w: nat, sg: nat): (word: nat)
    requires w <= MAX_WAITERS
    ensures Waiters(word) == w && Signals(word) == sg && (word == 0 <==> w == 0 && sg == 0)
  {
    w + 0x2000 * sg
  }

  /** `senders` is a history variable: the threads whose notification was sent after this thread registered and
      is meant for it.  A thread that already sleeps is only certain to be reached by a notify_all. */
  datatype Local =
    | Idle
    | Registered(seen: nat, senders: set<nat>)   // between add_waiter and the futex wait
    | Asleep(senders: set<nat>)
    | Leaving                               // imp_wait: the cleanup
    | Waking(all: bool)                     // imp_wake: the fetch_op
    | NotifyingOne
    | NotifyingAll

  datatype Call = Wait | NotifyOne | NotifyAll

  datatype State = State(word: nat, threads: seq<Local>)

  /** A thread runs, notifies one sleeper, or wakes up on its own. */
  datatype Action = Run(t: nat, c: Call) | WakeOne(t: nat, u: nat) | Spurious(t: nat)

  /** add_waiter: 0 stands for "do not wait". */
  function AddWaiter(word: nat): nat {
    if Signals(word) == MAX_SIGNALS || Waiters(word) == MAX_WAITERS then 0 else word + 1
  }

  /** The cleanup in imp_wait: the last waiter clears the signals. */
  function RemoveWaiter(word: nat): nat
    requires word > 0
  {
    if Waiters(word - 1) == 0 then 0 else word - 1
  }

  /** What imp_wake by thread t tells another thread. */
  function Tell(l: Local, t: nat, all: bool): Local {
    match l
    case Registered(seen, senders) => Registered(seen, senders + {t})
    case Asleep(senders) => if all then Asleep(senders + {t}) else l
    case _ => l
  }

  /** The fetch_op of imp_wake: send a signal unless there is nobody to tell or the signals are saturated. */
  function Wake(s: State, t: nat, all: bool): State
    requires t < |s.threads|
  {
    if s.word == 0 || Signals(s.word) == MAX_SIGNALS then s.(threads := s.threads[t := Idle])
    else
      var everyone := all || Signals(s.word) + 1 == MAX_SIGNALS;
      var told := seq(|s.threads|, i requires 0 <= i < |s.threads| => Tell(s.threads[i], t, everyone));
      State(s.word + 0x2000, told[t := if everyone then NotifyingAll else NotifyingOne])
  }

  function WakeAll(ts: seq<Local>): seq<Local> {
    seq(|ts|, i requires 0 <= i < |ts| => if ts[i].Asleep? then Leaving else ts[i])
  }

  function Next(s: State, a: Action): (s': State)
    ensures |s'.threads| == |s.threads|
  {
    match a
    case Run(t, c) =>
      if t >= |s.threads| then s
      else (match s.threads[t]
        case Idle =>
          (match c
           case Wait =>
             var old_ := AddWaiter(s.word);
             if old_ == 0 then s else State(old_, s.threads[t := Registered(old_, {})])
           case NotifyOne => if s.word == 0 then s else s.(threads := s.threads[t := Waking(false)])
           case NotifyAll => if s.word == 0 then s else s.(threads := s.threads[t := Waking(true)]))
        case Registered(seen, senders) =>
          s.(threads := s.threads[t := if s.word == seen then Asleep({}) else Leaving])
        case Leaving => State(if s.word > 0 then RemoveWaiter(s.word) else 0, s.threads[t := Idle])
        case Waking(all) => Wake(s, t, all)
        case NotifyingAll => s.(threads := WakeAll(s.threads)[t := Idle])
        case _ => s)
    case WakeOne(t, u) =>
      if t < |s.threads| && s.threads[t] == NotifyingOne then
        if u < |s.threads| && s.threads[u].Asleep? then s.(threads := s.threads[t := Idle][u := Leaving])
        else if forall v :: 0 <= v < |s.threads| ==> !s.threads[v].Asleep? then s.(threads := s.threads[t := Idle])
        else s
      else s
    case Spurious(t) =>
      if t < |s.threads| && (s.threads[t].Asleep? || s.threads[t].Registered?)
      then s.(threads := s.threads[t := Leaving]) else s
  }

  function After(n: nat, actions: seq<Action>): State {
    if actions == [] then State(0, seq(n, i => Idle))
    else Next(After(n, actions[..|actions| - 1]), actions[|actions| - 1])
  }

  // ----- The invariant -----

  predicate IsWaiting(l: Local) {
    l.Registered? || l.Asleep? || l.Leaving?
  }

  /** What thread t knows about the word, and who is bound to wake it up. */
  ghost predicate LocalInv(s: State, t: nat)
    requires t < |s.threads|
  {
    match s.threads[t]
    case Registered(seen, senders) =>
      && Signals(seen) <= Signals(s.word)
      && Signals(seen) < MAX_SIGNALS
      && (senders != {} ==> Signals(seen) < Signals(s.word))
    case Asleep(senders) =>
      && (forall u :: u in senders ==> u < |s.threads| && s.threads[u] == NotifyingAll)
      && (Signals(s.word) == MAX_SIGNALS ==> senders != {})
    case _ => true
  }

  ghost predicate Inv(s: State) {
    && Waiters(s.word) == Count(s.threads, IsWaiting)
    && Signals(s.word) <= MAX_SIGNALS
    && (Waiters(s.word) == 0 ==> s.word == 0)
    && forall t :: 0 <= t < |s.threads| ==> LocalInv(s, t)
  }

  lemma CountsMove(ts: seq<Local>, t: nat, l: Local)
    requires t < |ts|
    ensures Count(ts[t := l], IsWaiting) == Count(ts, IsWaiting) - One(IsWaiting(ts[t])) + One(IsWaiting(l))
    ensures One(IsWaiting(ts[t])) <= Count(ts, IsWaiting)
  {
    CountUpdate(ts, t, l, IsWaiting);
  }

  /** Telling or waking a thread does not change whether it waits. */
  lemma {:induction false} CountSame(ts: seq<Local>, us: seq<Local>)
    requires |ts| == |us| && forall i :: 0 <= i < |ts| ==> IsWaiting(ts[i]) == IsWaiting(us[i])
    ensures Count(ts, IsWaiting) == Count(us, IsWaiting)
  {
    if ts != [] {
      CountSame(ts[1..], us[1..]);
    }
  }

  /** The word after registering and after leaving. */
  lemma WordMoves(word: nat)
    requires Signals(word) <= MAX_SIGNALS
    ensures AddWaiter(word) != 0 ==>
      Waiters(AddWaiter(word)) == Waiters(word) + 1 && Signals(AddWaiter(word)) == Signals(word) < MAX_SIGNALS
    ensures Waiters(word) > 0 ==> Waiters(RemoveWaiter(word)) == Waiters(word) - 1
    ensures Waiters(word) > 1 ==> Signals(RemoveWaiter(word)) == Signals(word)
    ensures Waiters(word) == 1 ==> RemoveWaiter(word) == 0
    ensures Waiters(word + 0x2000) == Waiters(word) && Signals(word + 0x2000) == Signals(word) + 1
  {
    var w, sg := Waiters(word), Signals(word);
    assert word == Pack(w, sg);
    if w < MAX_WAITERS {
      assert word + 1 == Pack(w + 1, sg);
    }
    if w > 0 {
      assert word - 1 == Pack(w - 1, sg);
    }
    assert word + 0x2000 == Pack(w, sg + 1);
  }

  /** A step that moves only thread t and keeps the word. */
  lemma MoveKeeps(s: State, t: nat, l: Local)
    requires Inv(s) && t < |s.threads| && s.threads[t] != NotifyingAll && IsWaiting(l) == IsWaiting(s.threads[t])
    requires LocalInv(s.(threads := s.threads[t := l]), t)
    ensures Inv(s.(threads := s.threads[t := l]))
  {
    var s' := s.(threads := s.threads[t := l]);
    CountsMove(s.threads, t, l);
    forall u | 0 <= u < |s'.threads| ensures LocalInv(s', u) {
      assert u != t ==> LocalInv(s, u);
    }
  }

  lemma EnrolKeeps(s: State, t: nat)
    requires Inv(s) && t < |s.threads| && s.threads[t] == Idle
    ensures Inv(Next(s, Run(t, Wait)))
  {
    var s' := Next(s, Run(t, Wait));
    WordMoves(s.word);
    if s' != s {
      CountsMove(s.threads, t, s'.threads[t]);
      forall u | 0 <= u < |s'.threads| ensures LocalInv(s', u) {
        assert LocalInv(s, u);
      }
    }
  }

  lemma LeaveKeeps(s: State, t: nat, c: Call)
    requires Inv(s) && t < |s.threads| && s.threads[t] == Leaving
    ensures Inv(Next(s, Run(t, c)))
  {
    var s' := Next(s, Run(t, c));
    WordMoves(s.word);
    CountsMove(s.threads, t, Idle);
    CountZero(s'.threads, IsWaiting);
    forall u | 0 <= u < |s'.threads| ensures LocalInv(s', u) {
      assert LocalInv(s, u);
    }
  }

  lemma WakeKeeps(s: State, t: nat)
    requires Inv(s) && t < |s.threads| && s.threads[t].Waking?
    ensures Inv(Wake(s, t, s.threads[t].all))
  {
    var all := s.threads[t].all;
    if s.word == 0 || Signals(s.word) == MAX_SIGNALS {
      MoveKeeps(s, t, Idle);
    } else {
      var s' := Wake(s, t, all);
      WordMoves(s.word);
      CountSame(s.threads, s'.threads);
      forall u | 0 <= u < |s'.threads| ensures LocalInv(s', u) {
        WakeKeepsLocal(s, t, u);
      }
    }
  }

  lemma WakeKeepsLocal(s: State, t: nat, u: nat)
    requires Inv(s) && t < |s.threads| && s.threads[t].Waking? && s.word != 0 && Signals(s.word) < MAX_SIGNALS && u < |s.threads|
    ensures LocalInv(Wake(s, t, s.threads[t].all), u)
  {
    WordMoves(s.word);
    assert LocalInv(s, u);
  }

  lemma NotifyAllKeeps(s: State, t: nat, c: Call)
    requires Inv(s) && t < |s.threads| && s.threads[t] == NotifyingAll
    ensures Inv(Next(s, Run(t, c)))
  {
    var s' := Next(s, Run(t, c));
    CountSame(s.threads, s'.threads);
    forall u | 0 <= u < |s'.threads| ensures LocalInv(s', u) {
      assert LocalInv(s, u);
    }
  }

  lemma RunKeeps(s: State, t: nat, c: Call)
    requires Inv(s) && t < |s.threads|
    ensures Inv(Next(s, Run(t, c)))
  {
    match s.threads[t]
    case Idle =>
      if c == Wait {
        EnrolKeeps(s, t);
      } else if s.word != 0 {
        MoveKeeps(s, t, Waking(c == NotifyAll));
      }
    case Registered(seen, senders) =>
      assert LocalInv(s, t);
      MoveKeeps(s, t, if s.word == seen then Asleep({}) else Leaving);
    case Leaving => LeaveKeeps(s, t, c);
    case Waking(all) => WakeKeeps(s, t);
    case NotifyingAll => NotifyAllKeeps(s, t, c);
    case _ =>
  }

  lemma NextKeeps(s: State, a: Action)
    requires Inv(s)
    ensures Inv(Next(s, a))
  {
    match a
    case Run(t, c) =>
      if t < |s.threads| {
        RunKeeps(s, t, c);
      }
    case WakeOne(t, u) =>
      if t < |s.threads| && s.threads[t] == NotifyingOne {
        MoveKeeps(s, t, Idle);
        if u < |s.threads| && s.threads[u].Asleep? {
          MoveKeeps(s.(threads := s.threads[t := Idle]), u, Leaving);
        }
      }
    case Spurious(t) =>
      if t < |s.threads| && (s.threads[t].Asleep? || s.threads[t].Registered?) {
        MoveKeeps(s, t, Leaving);
      }
  }

  lemma {:induction false} AfterInv(n: nat, actions: seq<Action>)
    ensures Inv(After(n, actions)) && |After(n, actions).threads| == n
  {
    if actions == [] {
      CountUniform(After(n, actions).threads, Idle, IsWaiting);
    } else {
      AfterInv(n, actions[..|actions| - 1]);
      NextKeeps(After(n, actions[..|actions| - 1]), actions[|actions| - 1]);
    }
  }

  // ----- What the condition variable promises -----

  /** The waiter field counts the waiting threads, and signals are remembered only while some thread waits. */
  lemma WaiterField(n: nat, actions: seq<Action>)
    ensures var s := After(n, actions);
      && Waiters(s.word) == Count(s.threads, IsWaiting)
      && (s.word == 0 <==> forall t :: 0 <= t < |s.threads| ==> !IsWaiting(s.threads[t]))
  {
    AfterInv(n, actions);
    CountZero(After(n, actions).threads, IsWaiting);
  }

  /** The signal count never goes down while a thread stays registered. */
  lemma SignalsGrow(n: nat, actions: seq<Action>, a: Action)
    ensures var s := After(n, actions);
      Signals(s.word) <= Signals(Next(s, a).word) || Next(s, a).word == 0
  {
    AfterInv(n, actions);
    WordMoves(After(n, actions).word);
  }

  /** Sending a signal tells every thread that waits but does not sleep yet, and with notify_all, or when the
      signals run out, the sleepers too.  When nothing can be sent, there is nobody to tell or the last signal
      is still being delivered to every sleeper. */
  lemma WakeTells(n: nat, actions: seq<Action>, t: nat, u: nat)
    requires t < n && u < n && |After(n, actions).threads| == n && After(n, actions).threads[t].Waking?
    ensures var s, all := After(n, actions), After(n, actions).threads[t].all;
      var s' := Next(s, Run(t, Wait));
      && |s'.threads| == n
      && (s'.threads[t] == Idle && s.threads[u].Asleep? ==> exists v :: 0 <= v < n && s'.threads[v] == NotifyingAll)
      && (s'.threads[t] == Idle && s.threads[u].Registered? ==> s.word != s.threads[u].seen)
      && (s'.threads[t] != Idle && s.threads[u].Registered? ==>
            s'.threads[u] == Registered(s.threads[u].seen, s.threads[u].senders + {t}))
      && (s'.threads[t] == NotifyingAll && s.threads[u].Asleep? ==> s'.threads[u] == Asleep(s.threads[u].senders + {t}))
      && (all && s'.threads[t] != Idle ==> s'.threads[t] == NotifyingAll)
  {
    AfterInv(n, actions);
    SendingTells(After(n, actions), t, u);
  }

  lemma SendingTells(s: State, t: nat, u: nat)
    requires Inv(s) && t < |s.threads| && u < |s.threads| && s.threads[t].Waking?
    ensures var s' := Next(s, Run(t, Wait));
      && (s'.threads[t] == Idle && s.threads[u].Asleep? ==>
            exists v :: 0 <= v < |s.threads| && s'.threads[v] == NotifyingAll)
      && (s'.threads[t] == Idle && s.threads[u].Registered? ==> s.word != s.threads[u].seen)
      && (s'.threads[t] != Idle && s.threads[u].Registered? ==>
            s'.threads[u] == Registered(s.threads[u].seen, s.threads[u].senders + {t}))
      && (s'.threads[t] == NotifyingAll && s.threads[u].Asleep? ==> s'.threads[u] == Asleep(s.threads[u].senders + {t}))
      && (s.threads[t].all && s'.threads[t] != Idle ==> s'.threads[t] == NotifyingAll)
  {
    CountZero(s.threads, IsWaiting);
    assert LocalInv(s, u);
    if s.word != 0 && Signals(s.word) == MAX_SIGNALS && s.threads[u].Asleep? {
      var v :| v in s.threads[u].senders;
      assert Next(s, Run(t, Wait)).threads[v] == NotifyingAll;
    }
  }

  /** A thread that was told before it fell asleep cannot fall asleep any more. */
  lemma ToldNeverSleeps(n: nat, actions: seq<Action>, a: Action, u: nat)
    requires u < n && |After(n, actions).threads| == n
    requires After(n, actions).threads[u].Registered? && After(n, actions).threads[u].senders != {}
    ensures var l := Next(After(n, actions), a).threads[u];
      l == Leaving || (l.Registered? && l.senders >= After(n, actions).threads[u].senders)
  {
    AfterInv(n, actions);
    ToldStays(After(n, actions), a, u);
  }

  lemma ToldStays(s: State, a: Action, u: nat)
    requires Inv(s) && u < |s.threads| && s.threads[u].Registered? && s.threads[u].senders != {}
    ensures var l := Next(s, a).threads[u]; l == Leaving || (l.Registered? && l.senders >= s.threads[u].senders)
  {
    assert LocalInv(s, u);
  }

  /** No notify_all is lost: a sleeper that thread t told is asleep only until t has finished notifying. */
  lemma NotifyAllDelivers(n: nat, actions: seq<Action>, t: nat, u: nat)
    requires u < n && |After(n, actions).threads| == n
    requires After(n, actions).threads[u].Asleep? && t in After(n, actions).threads[u].senders
    ensures t < n && After(n, actions).threads[t] == NotifyingAll
  {
    AfterInv(n, actions);
    assert LocalInv(After(n, actions), u);
  }

  predicate IsAsleep(l: Local) {
    l.Asleep?
  }

  /** Whichever sleeper the scheduler picks, notify_one ends by waking exactly one, or none when nobody sleeps; and
      some pick ends it. */
  lemma NotifyOneDelivers(n: nat, actions: seq<Action>, t: nat)
    requires t < n && |After(n, actions).threads| == n && After(n, actions).threads[t] == NotifyingOne
    ensures forall u: nat :: Next(After(n, actions), WakeOne(t, u)) != After(n, actions) ==>
      OneFewer(After(n, actions), t, Next(After(n, actions), WakeOne(t, u)))
    ensures exists u: nat :: Next(After(n, actions), WakeOne(t, u)) != After(n, actions)
  {
    var s := After(n, actions);
    forall u: nat | Next(s, WakeOne(t, u)) != s ensures OneFewer(s, t, Next(s, WakeOne(t, u))) {
      WakeOneWakes(s, t, u);
    }
    CountZero(s.threads, IsAsleep);
    var u: nat := 0;
    if Count(s.threads, IsAsleep) > 0 {
      u :| 0 <= u < |s.threads| && IsAsleep(s.threads[u]);
    }
    assert Next(s, WakeOne(t, u)).threads[t] == Idle;
  }

  /** Thread t has ended its call, and one sleeper is awake if there was any; the word is the same. */
  ghost predicate OneFewer(s: State, t: nat, s': State) {
    && |s'.threads| == |s.threads| && t < |s.threads| && s'.threads[t] == Idle && s'.word == s.word
    && Count(s'.threads, IsAsleep) + One(Count(s.threads, IsAsleep) > 0) == Count(s.threads, IsAsleep)
    && Count(s'.threads, IsWaiting) == Count(s.threads, IsWaiting)
  }

  lemma WakeOneWakes(s: State, t: nat, u: nat)
    requires t < |s.threads| && s.threads[t] == NotifyingOne && Next(s, WakeOne(t, u)) != s
    ensures OneFewer(s, t, Next(s, WakeOne(t, u)))
  {
    var ended := s.threads[t := Idle];
    CountZero(s.threads, IsAsleep);
    CountUpdate(s.threads, t, Idle, IsAsleep);
    CountUpdate(s.threads, t, Idle, IsWaiting);
    if u < |s.threads| && s.threads[u].Asleep? {
      CountUpdate(ended, u, Leaving, IsAsleep);
      CountUpdate(ended, u, Leaving, IsWaiting);
    }
  }

  /** A wait that nobody disturbs is asleep after two steps, and after its wake-up it leaves the word as it was,
      with the signals cleared if it was the last waiter. */
  lemma WaitAlone(s: State, t: nat)
    requires t < |s.threads| && s.threads[t] == Idle && Signals(s.word) < MAX_SIGNALS && Waiters(s.word) < MAX_WAITERS
    ensures var s2 := Next(Next(s, Run(t, Wait)), Run(t, Wait));
      var s4 := Next(Next(s2, Spurious(t)), Run(t, Wait));
      && s2 == State(s.word + 1, s.threads[t := Asleep({})])
      && s4 == State(if Waiters(s.word) == 0 then 0 else s.word, s.threads)
  {
    var l := Registered(s.word + 1, {});
    var s1 := Next(s, Run(t, Wait));
    assert s1 == State(s.word + 1, s.threads[t := l]);
    var s2 := Next(s1, Run(t, Wait));
    assert s1.threads[t := Asleep({})] == s.threads[t := Asleep({})];
    var s3 := Next(s2, Spurious(t));
    assert s3.threads == s.threads[t := Leaving];
    assert Next(s3, Run(t, Wait)).threads == s.threads;
  }
}
