/** What a thread gets done when it runs alone.

  The promises of SharedMutex say that nothing bad happens; these say that the calls succeed when nothing stands in
  their way: the lock is free, or the signal is posted and may be stolen or received. */
module SharedMutexProgress {
  import opened SharedMutex

  /** k steps of a thread that no other thread interrupts, on the word and its local state. */
  function Solo(word: nat, l: Local, c: Call, k: nat): (nat, Local)
    decreases k
  {
    if k == 0 then (word, l) else var step := Exec(word, l, c); Solo(step.0, step.1, c, k - 1)
  }

  /** k steps of thread t. */
  function Alone(s: State, t: nat, c: Call, k: nat): State
    decreases k
  {
    if k == 0 then s else Alone(Next(s, Run(t, c)), t, c, k - 1)
  }

  lemma {:induction false} AloneIsSolo(s: State, t: nat, c: Call, k: nat)
    requires t < |s.threads|
    ensures Alone(s, t, c, k) == State(Solo(s.word, s.threads[t], c, k).0, s.threads[t := Solo(s.word, s.threads[t], c, k).1])
    decreases k
  {
    if k > 0 {
      var s' := Next(s, Run(t, c));
      AloneIsSolo(s', t, c, k - 1);
      assert s'.threads[t := Solo(s'.word, s'.threads[t], c, k - 1).1] == s.threads[t := Solo(s'.word, s'.threads[t], c, k - 1).1];
    } else {
      assert s.threads[t := s.threads[t]] == s.threads;
    }
  }

  /** Free, or offered to whoever comes first. */
  predicate Available(word: nat) {
    word == 0 || word >= SIG
  }

  lemma SoloStep(word: nat, l: Local, c: Call, k: nat, word': nat, l': Local)
    requires Exec(word, l, c) == (word', l')
    ensures Solo(word, l, c, k + 1) == Solo(word', l', c, k)
  {
  }

  // ----- lock -----

  lemma {:induction false} WriterStays(word: nat, c: Call, k: nat)
    requires c != Release && c != Downgrade
    ensures Solo(word, Writer, c, k) == (word, Writer)
  {
    if k > 0 {
      SoloStep(word, Writer, c, k - 1, word, Writer);
      WriterStays(word, c, k - 1);
    }
  }

  /** The states of imp_lock before it registers as a waiter. */
  predicate IsLocking(l: Local) {
    l.LockSteal? || l.LockLook? || l.LockTry? || l.LockLookSteal? || l.LockRegister?
  }

  /** How many steps are left at most. */
  function Left(word: nat, l: Local): (k: nat)
    ensures k <= 4
  {
    match l
    case Taking(_) => 1
    case LockRegister => 2
    case LockLook(_) => 3
    case LockTry(_) => if word == 0 then 1 else 4
    case LockLookSteal(_, seen) => if word == seen then 1 else 4
    case LockSteal(_) => 4
    case _ => 0
  }

  predicate CanLock(word: nat, l: Local) {
    Fits(word, l) && Available(word) && (IsLocking(l) || (l == Taking(false) && word >= SIG))
  }

  lemma LockStepAdvances(word: nat, l: Local)
    requires CanLock(word, l) && IsLocking(l)
    ensures var (word', l') := LockStep(word, l);
      l' == Writer || (CanLock(word', l') && Left(word', l') < Left(word, l))
  {
  }

  lemma LockAdvances(word: nat, l: Local) returns (word': nat, l': Local)
    requires CanLock(word, l)
    ensures 0 < Left(word, l) && Exec(word, l, Lock) == (word', l')
    ensures l' == Writer || (CanLock(word', l') && Left(word', l') < Left(word, l))
  {
    word', l' := Exec(word, l, Lock).0, Exec(word, l, Lock).1;
    if IsLocking(l) {
      LockStepAdvances(word, l);
    }
  }

  lemma {:induction false} LockSucceeds(word: nat, l: Local, k: nat)
    requires CanLock(word, l) && Left(word, l) <= k
    ensures Solo(word, l, Lock, k).1 == Writer
    decreases k
  {
    var word', l' := LockAdvances(word, l);
    SoloStep(word, l, Lock, k - 1, word', l');
    if l' == Writer {
      WriterStays(word', Lock, k - 1);
    } else {
      LockSucceeds(word', l', k - 1);
    }
  }

  // ----- lock_shared -----

  predicate IsSharing(l: Local) {
    || l.SharedSteal? || l.SharedTry? || l.SharedTryCas? || l.SharedLook? || l.SharedLookSteal? || l.SharedRegister?
    || l.Downgrading? || l.SharedCas?
  }

  function LeftShared(word: nat, l: Local): (k: nat)
    ensures k <= 6
  {
    match l
    case Downgrading => 1
    case Taking(_) => 2
    case SharedRegister => 3
    case SharedTry(_) => 4
    case SharedLook(_) => if word == 0 then 5 else 2
    case SharedTryCas(_, seen) => if word == seen then 1 else if word == 0 then 6 else 3
    case SharedLookSteal(_, seen) => if word == seen then 1 else 5
    case SharedSteal(_) => 5
    case SharedCas(_) => 6
    case _ => 0
  }

  predicate CanShare(word: nat, l: Local) {
    Fits(word, l) && (l == Downgrading || (Available(word) && IsSharing(l)) || (l == Taking(true) && word >= SIG + ONE))
  }

  lemma SharedCasAdvances(word: nat, l: Local)
    requires CanShare(word, l) && IsSharedCas(l)
    ensures var (word', l') := Exec(word, l, LockShared);
      l' == Reader || (CanShare(word', l') && LeftShared(word', l') < LeftShared(word, l))
  {
    assert Exec(word, l, LockShared) == LockSharedStep(word, l);
  }

  lemma SharedAdvances(word: nat, l: Local)
    requires CanShare(word, l) && !IsSharedCas(l) && !l.Taking?
    ensures var (word', l') := Exec(word, l, LockShared);
      l' == Reader || (CanShare(word', l') && LeftShared(word', l') < LeftShared(word, l))
  {
    assert Exec(word, l, LockShared) == LockSharedStep(word, l);
  }

  lemma SharedTakingAdvances(word: nat, l: Local)
    requires CanShare(word, l) && l.Taking?
    ensures var (word', l') := Exec(word, l, LockShared);
      l' == Reader || (CanShare(word', l') && LeftShared(word', l') < LeftShared(word, l))
  {
  }

  lemma ShareAdvances(word: nat, l: Local) returns (word': nat, l': Local)
    requires CanShare(word, l)
    ensures 0 < LeftShared(word, l) && Exec(word, l, LockShared) == (word', l')
    ensures l' == Reader || (CanShare(word', l') && LeftShared(word', l') < LeftShared(word, l))
  {
    word', l' := Exec(word, l, LockShared).0, Exec(word, l, LockShared).1;
    if IsSharedCas(l) {
      SharedCasAdvances(word, l);
    } else if l.Taking? {
      SharedTakingAdvances(word, l);
    } else {
      SharedAdvances(word, l);
    }
  }

  lemma {:induction false} ReaderStays(word: nat, k: nat)
    ensures Solo(word, Reader, LockShared, k) == (word, Reader)
  {
    if k > 0 {
      SoloStep(word, Reader, LockShared, k - 1, word, Reader);
      ReaderStays(word, k - 1);
    }
  }

  lemma {:induction false} SharedSucceeds(word: nat, l: Local, k: nat)
    requires CanShare(word, l) && LeftShared(word, l) <= k
    ensures Solo(word, l, LockShared, k).1 == Reader
    decreases k
  {
    var word', l' := ShareAdvances(word, l);
    SoloStep(word, l, LockShared, k - 1, word', l');
    if l' == Reader {
      ReaderStays(word', k - 1);
    } else {
      SharedSucceeds(word', l', k - 1);
    }
  }

  // ----- lock_upgrade -----

  function LeftUpgrade(word: nat, l: Local): (k: nat)
    ensures k <= 3
  {
    match l
    case UpgradeRegister => 1
    case UpgradeLook(_) => 2
    case UpgradeLookCas(_, seen) => if word == seen then 1 else 3
    case UpgradeCas(seen) => if word == seen then 1 else 3
    case Reader => 2
    case _ => 0
  }

  /** The only reader, on its way to the exclusive lock. */
  predicate CanUpgrade(word: nat, l: Local) {
    Fits(word, l) && word % 0x4000 == 1
    && (l.Reader? || l.UpgradeCas? || l.UpgradeLook? || l.UpgradeLookCas? || l.UpgradeRegister?)
  }

  lemma UpgradeAdvances(word: nat, l: Local) returns (l': Local)
    requires CanUpgrade(word, l)
    ensures 0 < LeftUpgrade(word, l) && Exec(word, l, Upgrade) == (if l' == Writer then word + ONE - 1 else word, l')
    ensures l' == Writer || (CanUpgrade(word, l') && LeftUpgrade(word, l') < LeftUpgrade(word, l))
  {
    l' := Exec(word, l, Upgrade).1;
  }

  lemma {:induction false} UpgradeSucceeds(word: nat, l: Local, k: nat)
    requires CanUpgrade(word, l) && LeftUpgrade(word, l) <= k
    ensures Solo(word, l, Upgrade, k) == (word + ONE - 1, Writer)
    decreases k
  {
    var l' := UpgradeAdvances(word, l);
    if l' == Writer {
      SoloStep(word, l, Upgrade, k - 1, word + ONE - 1, Writer);
      WriterStays(word + ONE - 1, Upgrade, k - 1);
    } else {
      SoloStep(word, l, Upgrade, k - 1, word, l');
      UpgradeSucceeds(word, l', k - 1);
    }
  }

  // ----- From the start of a call -----

  lemma LockFromIdle(word: nat)
    requires Fits(word, Idle) && Available(word)
    ensures Solo(word, Idle, Lock, 5).1 == Writer
  {
    if word == 0 {
      SoloStep(word, Idle, Lock, 4, ONE, Writer);
      WriterStays(ONE, Lock, 4);
    } else {
      SoloStep(word, Idle, Lock, 4, word, LockSteal(word));
      LockSucceeds(word, LockSteal(word), 4);
    }
  }

  lemma SharedFromIdle(word: nat)
    requires Fits(word, Idle) && Available(word)
    ensures Solo(word, Idle, LockShared, 7).1 == Reader
  {
    var l := if word == 0 then SharedCas(word) else SharedSteal(word);
    SoloStep(word, Idle, LockShared, 6, word, l);
    SharedSucceeds(word, l, 6);
  }

  lemma JoinFromIdle(word: nat)
    requires word < ONE - 1
    ensures Solo(word, Idle, LockShared, 2) == (word + 1, Reader)
  {
    SoloStep(word, Idle, LockShared, 1, word, SharedCas(word));
    SoloStep(word, SharedCas(word), LockShared, 0, word + 1, Reader);
  }

  // ----- In reachable states -----

  /** When the lock is free or offered, lock succeeds in five steps of a thread that runs alone, from its start and
      from every point of it before the thread is a waiter. */
  lemma LockGoesThrough(n: nat, actions: seq<Action>, t: nat)
    requires n <= MAX_THREADS && t < n && |After(n, actions).threads| == n && Available(After(n, actions).word)
    requires After(n, actions).threads[t] == Idle || IsLocking(After(n, actions).threads[t])
    ensures Alone(After(n, actions), t, Lock, 5).threads[t] == Writer
  {
    var s := After(n, actions);
    AfterInv(n, actions);
    InvFits(s, t);
    AloneIsSolo(s, t, Lock, 5);
    if s.threads[t] == Idle {
      LockFromIdle(s.word);
    } else {
      LockSucceeds(s.word, s.threads[t], 5);
    }
  }

  /** The same for lock_shared, in seven steps. */
  lemma SharedGoesThrough(n: nat, actions: seq<Action>, t: nat)
    requires n <= MAX_THREADS && t < n && |After(n, actions).threads| == n && Available(After(n, actions).word)
    requires After(n, actions).threads[t] == Idle || IsSharing(After(n, actions).threads[t])
    ensures Alone(After(n, actions), t, LockShared, 7).threads[t] == Reader
  {
    var s := After(n, actions);
    AfterInv(n, actions);
    InvFits(s, t);
    AloneIsSolo(s, t, LockShared, 7);
    if s.threads[t] == Idle {
      SharedFromIdle(s.word);
    } else {
      SharedSucceeds(s.word, s.threads[t], 7);
    }
  }

  /** While only readers hold the lock and nobody waits, lock_shared joins them in two steps. */
  lemma SharedJoins(s: State, t: nat)
    requires t < |s.threads| && s.word < ONE - 1 && s.threads[t] == Idle
    ensures Alone(s, t, LockShared, 2) == State(s.word + 1, s.threads[t := Reader])
  {
    AloneIsSolo(s, t, LockShared, 2);
    JoinFromIdle(s.word);
  }

  /** The only reader upgrades in three steps of its own, whoever waits. */
  lemma UpgradeGoesThrough(n: nat, actions: seq<Action>, t: nat)
    requires n <= MAX_THREADS && t < n && |After(n, actions).threads| == n && After(n, actions).word % 0x4000 == 1
    requires IsReader(After(n, actions).threads[t]) && !After(n, actions).threads[t].TryUpgradeCas?
    ensures Alone(After(n, actions), t, Upgrade, 3).threads[t] == Writer
  {
    var s := After(n, actions);
    AfterInv(n, actions);
    InvFits(s, t);
    AloneIsSolo(s, t, Upgrade, 3);
    UpgradeSucceeds(s.word, s.threads[t], 3);
  }

  // ----- Calls that do not wait, and the way to sleep -----

  /** try_lock, try_lock_shared and try_lock_upgrade succeed, alone, exactly when nothing stands in their way; a failed
      attempt changes nothing. */
  lemma TryCalls(word: nat)
    requires word < ERR
    ensures Solo(word, Idle, TryLock, 1) == if word == 0 then (ONE, Writer) else (word, Idle)
    ensures Solo(word, Idle, TryLockShared, 2) == if word < ONE - 1 then (word + 1, Reader) else (word, Idle)
    ensures Solo(word, Reader, TryUpgrade, 2) == if word % 0x4000 == 1 then (word + ONE - 1, Writer) else (word, Reader)
  {
    SoloStep(word, Idle, TryLock, 0, if word == 0 then ONE else word, if word == 0 then Writer else Idle);
    TryShared(word);
    TryUpgrading(word);
  }

  lemma TryShared(word: nat)
    requires word < ERR
    ensures Solo(word, Idle, TryLockShared, 2) == if word < ONE - 1 then (word + 1, Reader) else (word, Idle)
  {
    if word < ONE - 1 {
      SoloStep(word, Idle, TryLockShared, 1, word, TrySharedCas(word));
      SoloStep(word, TrySharedCas(word), TryLockShared, 0, word + 1, Reader);
    } else {
      SoloStep(word, Idle, TryLockShared, 1, word, Idle);
      SoloStep(word, Idle, TryLockShared, 0, word, Idle);
    }
  }

  lemma TryUpgrading(word: nat)
    requires word < ERR
    ensures Solo(word, Reader, TryUpgrade, 2) == if word % 0x4000 == 1 then (word + ONE - 1, Writer) else (word, Reader)
  {
    if word % 0x4000 == 1 {
      SoloStep(word, Reader, TryUpgrade, 1, word, TryUpgradeCas(word));
      SoloStep(word, TryUpgradeCas(word), TryUpgrade, 0, word + ONE - 1, Writer);
    } else {
      SoloStep(word, Reader, TryUpgrade, 1, word, Reader);
      SoloStep(word, Reader, TryUpgrade, 0, word, Reader);
    }
  }

  lemma UpgradeAlone(s: State, t: nat)
    requires t < |s.threads| && CanUpgrade(s.word, s.threads[t])
    ensures Alone(s, t, Upgrade, 3) == State(s.word + ONE - 1, s.threads[t := Writer])
  {
    AloneIsSolo(s, t, Upgrade, 3);
    UpgradeSucceeds(s.word, s.threads[t], 3);
  }

  lemma UpgradeAndBack(s: State, t: nat)
    requires t < |s.threads| && s.threads[t] == Reader && CanUpgrade(s.word, Reader)
    ensures Next(Alone(s, t, Upgrade, 3), Run(t, Downgrade)) == s
  {
    UpgradeAlone(s, t);
    assert s.threads[t := Writer][t := Reader] == s.threads;
  }

  /** lock_downgrade undoes lock_upgrade: the lock and all threads are as before. */
  lemma DowngradeUndoesUpgrade(n: nat, actions: seq<Action>, t: nat)
    requires n <= MAX_THREADS && t < n && |After(n, actions).threads| == n
    requires After(n, actions).word % 0x4000 == 1 && After(n, actions).threads[t] == Reader
    ensures Next(Alone(After(n, actions), t, Upgrade, 3), Run(t, Downgrade)) == After(n, actions)
  {
    AfterInv(n, actions);
    InvFits(After(n, actions), t);
    UpgradeAndBack(After(n, actions), t);
  }

  /** A writer that nobody waits for lets readers in by lock_downgrade, and keeps writers out. */
  lemma DowngradeAdmitsReaders(s: State, t: nat, u: nat)
    requires t < |s.threads| && u < |s.threads| && t != u && s.word == ONE && s.threads[t] == Writer && s.threads[u] == Idle
    ensures var s1 := Next(s, Run(t, Downgrade));
      && Alone(s1, u, LockShared, 2) == State(2, s.threads[t := Reader][u := Reader])
      && Alone(s1, u, TryLock, 1) == s1 && Alone(s1, u, TryLockShared, 2) == Alone(s1, u, LockShared, 2)
  {
    var s1 := Next(s, Run(t, Downgrade));
    assert s1 == State(1, s.threads[t := Reader]);
    SharedJoins(s1, u);
    TryCalls(1);
    AloneIsSolo(s1, u, TryLock, 1);
    AloneIsSolo(s1, u, TryLockShared, 2);
    assert s1.threads[u := Idle] == s1.threads;
  }

  /** A waiter that finds no signal is asleep after two steps, unless somebody interferes. */
  lemma WaiterSleeps(s: State, t: nat, c: Call)
    requires t < |s.threads| && s.threads[t].Taking? && s.word < SIG
    ensures Alone(s, t, c, 2) == s.(threads := s.threads[t := Parked(s.threads[t].shared)])
  {
    var shared := s.threads[t].shared;
    AloneIsSolo(s, t, c, 2);
    SoloStep(s.word, Taking(shared), c, 1, s.word, Parking(shared, s.word));
    SoloStep(s.word, Parking(shared, s.word), c, 0, s.word, Parked(shared));
  }
}
