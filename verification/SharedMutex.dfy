/** The reader-writer lock of Utilities/mutex.h and Utilities/mutex.cpp.

  All threads share one 32-bit word.  A step is one atomic access to that word (load, compare-and-swap,
  fetch-and-add, fetch_op), one futex call, or one local decision; any thread may take the next step.  Waiting
  is futex-like: wait(old) sleeps only while the word equals old, a sleeper may wake up spuriously, and
  notify_one wakes one sleeper if there is one. */
module SharedMutex {
  import opened Threads

  const ONE := 0x4000            // c_one: one writer (or one waiter)
  const SIG := 0x4000_0000       // c_sig: the hand-off signal
  const ERR := 0x8000_0000       // c_err
  const WORD := 0x1_0000_0000    // 2^32
  const MAX_THREADS := 0xFFFF

  /** Where a thread stands.  `seen` is a word it loaded earlier, `i` counts the spins of a slow path, and
      `shared` tells a waiter of imp_lock_shared, which downgrades once it owns the lock. */
  datatype Local =
    | Idle
    | Reader
    | Writer
    // try_lock_shared, lock_shared and imp_lock_shared
    | TrySharedCas(seen: nat)
    | SharedCas(seen: nat)
    | SharedSteal(seen: nat)
    | SharedTry(i: nat)
    | SharedTryCas(i: nat, seen: nat)
    | SharedLook(i: nat)
    | SharedLookSteal(i: nat, seen: nat)
    | SharedRegister
    | Downgrading
    // imp_lock
    | LockSteal(seen: nat)
    | LockLook(i: nat)
    | LockTry(i: nat)
    | LockLookSteal(i: nat, seen: nat)
    | LockRegister
    // try_lock_upgrade, lock_upgrade and imp_lock_upgrade
    | TryUpgradeCas(seen: nat)
    | UpgradeCas(seen: nat)
    | UpgradeLook(i: nat)
    | UpgradeLookCas(i: nat, seen: nat)
    | UpgradeRegister
    // imp_wait
    | Taking(shared: bool)
    | Parking(shared: bool, seen: nat)
    | Parked(shared: bool)
    // imp_unlock_shared, imp_unlock and imp_signal
    | UnlockSharedTail(old_: nat)
    | UnlockTail(old_: nat)
    | Signalling
    | Notifying
    // a failed ensure()
    | Failed

  /** What a thread outside any call does next: an idle thread, a reader or a writer picks one. */
  datatype Call = LockShared | TryLockShared | Lock | TryLock | Release | Upgrade | TryUpgrade | Downgrade

  /** word & c_sig */
  predicate HasSignal(word: nat)
    ensures word < ERR ==> (HasSignal(word) <==> word >= SIG)
  {
    word / 0x4000_0000 % 2 == 1
  }

  /** 32-bit addition. */
  function Add(word: nat, d: nat): (r: nat)
    ensures word + d < WORD ==> r == word + d
  {
    (word + d) % 0x1_0000_0000
  }

  /** 32-bit subtraction. */
  function Sub(word: nat, d: nat): (r: nat)
    requires d <= WORD
    ensures d <= word < WORD ==> r == word - d
  {
    (word + WORD - d) % 0x1_0000_0000
  }

  /** The entry of a call, made by a thread outside any other call: lock_shared, try_lock_shared, lock,
      try_lock, unlock_shared, unlock, lock_upgrade, try_lock_upgrade, lock_downgrade. */
  function Enter(word: nat, l: Local, c: Call): (nat, Local) {
    match (l, c)
    case (Idle, LockShared) => if word >= ONE - 1 then (word, SharedSteal(word)) else (word, SharedCas(word))
    case (Idle, TryLockShared) => if word >= ONE - 1 then (word, Idle) else (word, TrySharedCas(word))
    case (Idle, Lock) => if word == 0 then (ONE, Writer) else (word, LockSteal(word))
    case (Idle, TryLock) => if word == 0 then (ONE, Writer) else (word, Idle)
    case (Reader, Release) => (Sub(word, 1), if word >= ONE then UnlockSharedTail(word) else Idle)
    case (Reader, Upgrade) => if word % 0x4000 == 1 then (word, UpgradeCas(word)) else (word, UpgradeLook(0))
    case (Reader, TryUpgrade) => if word % 0x4000 == 1 then (word, TryUpgradeCas(word)) else (word, Reader)
    case (Writer, Release) => (Sub(word, ONE), if word != ONE then UnlockTail(word) else Idle)
    case (Writer, Downgrade) => (Sub(word, ONE - 1), Reader)
    case _ => (word, l)
  }

  /** The rest of lock_shared and try_lock_shared, and imp_lock_shared. */
  function LockSharedStep(word: nat, l: Local): (nat, Local) {
    match l
    case TrySharedCas(seen) => if word == seen then (Add(seen, 1), Reader) else (word, Idle)
    case SharedCas(seen) => if word == seen then (Add(seen, 1), Reader) else (word, SharedSteal(seen))
    case SharedSteal(seen) =>
      if seen >= ERR then (word, Failed)
      else if HasSignal(seen) && word == seen then (Add(Sub(seen, SIG), 1), Reader)
      else (word, SharedTry(0))
    case SharedTry(i) =>
      if i >= 10 then (word, SharedRegister)
      else if word < ONE - 1 then (word, SharedTryCas(i, word))
      else (word, SharedLook(i))
    case SharedTryCas(i, seen) => if word == seen then (Add(seen, 1), Reader) else (word, SharedLook(i))
    case SharedLook(i) => if HasSignal(word) then (word, SharedLookSteal(i, word)) else (word, SharedTry(i + 1))
    case SharedLookSteal(i, seen) =>
      if word == seen then (Add(Sub(seen, SIG), 1), Reader) else (word, SharedTry(i + 1))
    case SharedRegister =>
      if word == 0 then (Add(word, ONE), Downgrading)
      else if word % 0x4000_0000 + ONE >= SIG then (Add(word, ONE), Failed)
      else (Add(word, ONE), Taking(true))
    case Downgrading => (Sub(word, ONE - 1), Reader)
    case _ => (word, l)
  }

  /** imp_lock */
  function LockStep(word: nat, l: Local): (nat, Local) {
    match l
    case LockSteal(seen) =>
      if seen >= ERR then (word, Failed)
      else if HasSignal(seen) && word == seen then (Add(Sub(seen, SIG), ONE), Writer)
      else (word, LockLook(0))
    case LockLook(i) =>
      if i >= 10 then (word, LockRegister)
      else if word == 0 then (word, LockTry(i))
      else if HasSignal(word) then (word, LockLookSteal(i, word))
      else (word, LockLook(i + 1))
    case LockTry(i) => if word == 0 then (ONE, Writer) else (word, LockLook(i + 1))
    case LockLookSteal(i, seen) =>
      if word == seen then (Add(Sub(seen, SIG), ONE), Writer) else (word, LockLook(i + 1))
    case LockRegister =>
      if word == 0 then (Add(word, ONE), Writer)
      else if word % 0x4000_0000 + ONE >= SIG then (Add(word, ONE), Failed)
      else (Add(word, ONE), Taking(false))
    case _ => (word, l)
  }

  /** The rest of lock_upgrade and try_lock_upgrade, and imp_lock_upgrade. */
  function UpgradeStep(word: nat, l: Local): (nat, Local) {
    match l
    case TryUpgradeCas(seen) => if word == seen then (Add(seen, ONE - 1), Writer) else (word, Reader)
    case UpgradeCas(seen) => if word == seen then (Add(seen, ONE - 1), Writer) else (word, UpgradeLook(0))
    case UpgradeLook(i) =>
      if i >= 10 then (word, UpgradeRegister)
      else if word % 0x4000 == 1 then (word, UpgradeLookCas(i, word))
      else (word, UpgradeLook(i + 1))
    case UpgradeLookCas(i, seen) =>
      if word == seen then (Add(seen, ONE - 1), Writer) else (word, UpgradeLook(i + 1))
    case UpgradeRegister =>
      if word % 0x4000_0000 + ONE - 1 >= SIG then (Add(word, ONE - 1), Failed)
      else if word % 0x4000 == 1 then (Add(word, ONE - 1), Writer)
      else (Add(word, ONE - 1), Taking(false))
    case _ => (word, l)
  }

  /** imp_wait, imp_unlock_shared, imp_unlock and imp_signal. */
  function WaitSignalStep(word: nat, l: Local): (nat, Local) {
    match l
    case Taking(shared) =>
      if word >= SIG then (Sub(word, SIG), if shared then Downgrading else Writer)
      else (word, Parking(shared, word))
    case Parking(shared, seen) => if word == seen then (word, Parked(shared)) else (word, Taking(shared))
    case UnlockSharedTail(o) =>
      if Sub(o, 1) >= ERR then (word, Failed)
      else if Sub(o, 1) % 0x4000 == 0 then (word, Signalling)
      else (word, Idle)
    case UnlockTail(o) =>
      if Sub(o, ONE) >= ERR then (word, Failed)
      else if Sub(o, ONE) != 0 then (word, Signalling)
      else (word, Idle)
    case Signalling => (Add(word, SIG), Notifying)
    case _ => (word, l)
  }

  /** One step of one thread that does not touch other threads: the new word and the new local state. */
  function Exec(word: nat, l: Local, c: Call): (nat, Local) {
    if l.Idle? || l.Reader? || l.Writer? then Enter(word, l, c)
    else if IsReader(l) then UpgradeStep(word, l)
    else if IsWaiter(l) || l.UnlockSharedTail? || l.UnlockTail? || l.Signalling? then WaitSignalStep(word, l)
    else if l.LockSteal? || l.LockLook? || l.LockTry? || l.LockLookSteal? || l.LockRegister? then LockStep(word, l)
    else LockSharedStep(word, l)
  }

  datatype State = State(word: nat, threads: seq<Local>)

  /** Thread t runs one step; thread t performs notify_one and wakes thread u if any thread sleeps; a sleeper
      wakes up for no reason. */
  datatype Action = Run(t: nat, c: Call) | NotifyOne(t: nat, u: nat) | Spurious(t: nat)

  /** The successor of a state.  An action that is not possible leaves the state alone. */
  function Next(s: State, a: Action): State {
    match a
    case Run(t, c) =>
      if t < |s.threads| then
        var (word, l) := Exec(s.word, s.threads[t], c);
        State(word, s.threads[t := l])
      else s
    case NotifyOne(t, u) =>
      if t < |s.threads| && s.threads[t] == Notifying then
        if u < |s.threads| && s.threads[u].Parked? then
          s.(threads := s.threads[t := Idle][u := Taking(s.threads[u].shared)])
        else if forall v :: 0 <= v < |s.threads| ==> !s.threads[v].Parked? then
          s.(threads := s.threads[t := Idle])
        else s
      else s
    case Spurious(t) =>
      if t < |s.threads| && s.threads[t].Parked? then
        s.(threads := s.threads[t := Taking(s.threads[t].shared)])
      else s
  }

  /** n threads, none of which has touched the fresh lock. */
  function Init(n: nat): State {
    State(0, seq(n, i => Idle))
  }

  /** The state after any interleaving, given as the sequence of its actions. */
  function After(n: nat, actions: seq<Action>): State {
    if actions == [] then Init(n) else Next(After(n, actions[..|actions| - 1]), actions[|actions| - 1])
  }

  // ----- Roles -----

  /** Holds a shared lock (also while it tries to upgrade it). */
  predicate IsReader(l: Local) {
    l.Reader? || l.TryUpgradeCas? || l.UpgradeCas? || l.UpgradeLook? || l.UpgradeLookCas? || l.UpgradeRegister?
  }

  /** Holds the exclusive lock. */
  predicate IsWriter(l: Local) {
    l.Writer? || l.Downgrading?
  }

  /** Registered in the word and waiting for the signal, asleep or not. */
  predicate IsWaiter(l: Local) {
    l.Taking? || l.Parking? || l.Parked?
  }

  /** Has given up the last ownership and is about to post the signal. */
  predicate IsSignaller(l: Local) {
    l.UnlockTail? || l.Signalling? || (l.UnlockSharedTail? && Sub(l.old_, 1) % 0x4000 == 0)
  }

  datatype Role = None | Read | Write | Wait | Handoff

  /** What a thread holds. */
  function RoleOf(l: Local): Role {
    if IsReader(l) then Read
    else if IsWriter(l) then Write
    else if IsWaiter(l) then Wait
    else if IsSignaller(l) then Handoff
    else None
  }

  /** Makes the wake-up go on: a waiter that is not asleep, or a thread about to notify. */
  predicate IsAwake(l: Local) {
    l.Taking? || l.Parking? || l.Notifying?
  }

  /** What each thread remembers about the word is consistent with the protocol; no ensure() has failed. */
  predicate LocalOk(l: Local) {
    match l
    case TrySharedCas(seen) => seen < ONE - 1
    case SharedCas(seen) => seen < ONE - 1
    case SharedTryCas(_, seen) => seen < ONE - 1
    case SharedSteal(seen) => seen < ERR
    case LockSteal(seen) => seen < ERR
    case SharedLookSteal(_, seen) => seen < ERR && HasSignal(seen)
    case LockLookSteal(_, seen) => seen < ERR && HasSignal(seen)
    case TryUpgradeCas(seen) => seen < ERR && seen % 0x4000 == 1
    case UpgradeCas(seen) => seen < ERR && seen % 0x4000 == 1
    case UpgradeLookCas(_, seen) => seen < ERR && seen % 0x4000 == 1
    case Parking(_, seen) => seen < SIG
    case UnlockSharedTail(o) => ONE <= o < ERR
    case UnlockTail(o) => ONE < o < ERR
    case Failed => false
    case _ => true
  }

  // ----- The invariant -----

  /** The word is the exact sum of what the threads hold, and there is one ownership token: it lies with the
      readers, the writer, a thread about to signal, or in the posted signal, and with nobody exactly when
      the word is zero. */
  predicate WordInv(word: nat, n: nat, r: nat, w: nat, q: nat, g: nat) {
    var sig := One(word >= SIG);
    && n <= MAX_THREADS
    && w + q <= n
    && r < ONE
    && word == r + 0x4000 * (w + q) + 0x4000_0000 * sig
    && One(r > 0) + w + g + sig == One(r + w + q > 0)
  }

  ghost predicate CountInv(word: nat, ts: seq<Local>) {
    WordInv(word, |ts|, Count(ts, IsReader), Count(ts, IsWriter), Count(ts, IsWaiter), Count(ts, IsSignaller))
  }

  ghost predicate Inv(s: State) {
    && CountInv(s.word, s.threads)
    && (forall t :: 0 <= t < |s.threads| ==> LocalOk(s.threads[t]))
    && (s.word >= SIG ==> exists t :: 0 <= t < |s.threads| && IsAwake(s.threads[t]))
  }

  /** How the fields are read back from the word. */
  lemma WordFields(word: nat, n: nat, r: nat, w: nat, q: nat, g: nat)
    requires WordInv(word, n, r, w, q, g)
    ensures word < ERR && word % 0x4000 == r && word % 0x4000_0000 == r + 0x4000 * (w + q)
    ensures HasSignal(word) <==> word >= SIG
  {
    var rest := r + 0x4000 * (w + q);
    assert rest < SIG;
    assert word % 0x4000_0000 == rest && word / 0x4000_0000 == One(word >= SIG);
    assert word == r + 0x4000 * (w + q + 0x1_0000 * One(word >= SIG));
  }

  /** The protocol without its retries: every step of a thread is one of these changes of the word and of
      what that thread holds. */
  predicate Effect(word: nat, a: Role, word': nat, b: Role) {
    || (word' == word && b == a)
    || (a == None && b == Read && word < ONE - 1 && word' == word + 1)                 // join the readers
    || (a == None && b == Write && word == 0 && word' == ONE)                          // take the free lock
    || (a == None && b == Read && word >= SIG && word' == word - SIG + 1)              // steal the signal
    || (a == None && b == Write && word >= SIG && word' == word - SIG + ONE)           // steal the signal
    || (a == None && b == Wait && word != 0 && word' == word + ONE)                    // register
    || (a == Read && b == (if word >= ONE && word % 0x4000 == 1 then Handoff else None)
        && word' == word - 1)                                                          // unlock_shared
    || (a == Read && b == (if word % 0x4000 == 1 then Write else Wait)
        && word' == word + ONE - 1)                                                    // upgrade
    || (a == Write && b == (if word == ONE then None else Handoff) && word' == word - ONE)  // unlock
    || (a == Write && b == Read && word' == word - (ONE - 1))                          // downgrade
    || (a == Wait && b == Write && word >= SIG && word' == word - SIG)                 // receive the signal
    || (a == Handoff && b == None && word' == word + SIG)                              // post the signal
  }

  lemma EffectKeeps(word: nat, a: Role, word': nat, b: Role, n: nat, r: nat, w: nat, q: nat, g: nat)
    requires WordInv(word, n, r, w, q, g) && Effect(word, a, word', b)
    requires One(a == Read) <= r && One(a == Write) <= w && One(a == Wait) <= q && One(a == Handoff) <= g
    requires w + q - One(a == Write || a == Wait) + One(b == Write || b == Wait) <= n
    ensures WordInv(word', n, r - One(a == Read) + One(b == Read), w - One(a == Write) + One(b == Write),
                    q - One(a == Wait) + One(b == Wait), g - One(a == Handoff) + One(b == Handoff))
  {
    WordFields(word, n, r, w, q, g);
  }

  /** What a thread in a given situation can rely on about the word. */
  predicate Fits(word: nat, l: Local) {
    && LocalOk(l)
    && word < ERR
    && (IsReader(l) ==> 1 <= word < SIG)
    && (IsWriter(l) ==> ONE <= word < SIG)
    && (IsSignaller(l) ==> word < SIG)
    && (!IsWriter(l) && !IsWaiter(l) ==> word % 0x4000_0000 + ONE < SIG)
  }

  predicate IsEffect(word: nat, l: Local, step: (nat, Local)) {
    Effect(word, RoleOf(l), step.0, RoleOf(step.1)) && LocalOk(step.1)
  }

  lemma EnterIdleEffect(word: nat, c: Call)
    requires Fits(word, Idle)
    ensures IsEffect(word, Idle, Enter(word, Idle, c))
  {
  }

  lemma EnterHoldingEffect(word: nat, l: Local, c: Call)
    requires Fits(word, l) && (l.Reader? || l.Writer?)
    ensures IsEffect(word, l, Enter(word, l, c))
  {
  }

  /** Steps of lock_shared that compare and swap. */
  predicate IsSharedCas(l: Local) {
    l.TrySharedCas? || l.SharedCas? || l.SharedSteal? || l.SharedTryCas? || l.SharedLookSteal?
  }

  lemma SharedCasEffect(word: nat, l: Local)
    requires Fits(word, l) && IsSharedCas(l)
    ensures IsEffect(word, l, LockSharedStep(word, l))
  {
  }

  lemma LockSharedEffect(word: nat, l: Local)
    requires Fits(word, l) && !IsSharedCas(l)
    ensures IsEffect(word, l, LockSharedStep(word, l))
  {
  }

  lemma LockEffect(word: nat, l: Local)
    requires Fits(word, l)
    ensures IsEffect(word, l, LockStep(word, l))
  {
  }

  lemma UpgradeEffect(word: nat, l: Local)
    requires Fits(word, l)
    ensures IsEffect(word, l, UpgradeStep(word, l))
  {
  }

  lemma WaitSignalEffect(word: nat, l: Local)
    requires Fits(word, l)
    ensures IsEffect(word, l, WaitSignalStep(word, l))
  {
  }

  /** Each step of the code is one of the changes of the protocol; in particular no ensure() fails. */
  lemma ExecEffect(word: nat, l: Local, c: Call)
    requires Fits(word, l)
    ensures IsEffect(word, l, Exec(word, l, c))
  {
    if l.Idle? {
      EnterIdleEffect(word, c);
    } else if l.Reader? || l.Writer? {
      EnterHoldingEffect(word, l, c);
    } else if IsReader(l) {
      UpgradeEffect(word, l);
    } else if IsWaiter(l) || l.UnlockSharedTail? || l.UnlockTail? || l.Signalling? {
      WaitSignalEffect(word, l);
    } else if IsSharedCas(l) {
      SharedCasEffect(word, l);
    } else {
      LockEffect(word, l);
      LockSharedEffect(word, l);
    }
  }

  /** The invariant gives every thread what its next step relies on. */
  lemma InvFits(s: State, t: nat)
    requires Inv(s) && t < |s.threads|
    ensures Fits(s.word, s.threads[t])
  {
    CountsMove(s.threads, t, Writer);
    WritersAndWaiters(s.threads[t := Writer]);
    WordFields(s.word, |s.threads|, Count(s.threads, IsReader), Count(s.threads, IsWriter),
               Count(s.threads, IsWaiter), Count(s.threads, IsSignaller));
  }

  /** A step of thread t keeps the count equations. */
  lemma RunKeepsWord(s: State, t: nat, c: Call)
    requires Inv(s) && t < |s.threads|
    ensures var step := Exec(s.word, s.threads[t], c);
      CountInv(step.0, s.threads[t := step.1]) && LocalOk(step.1)
  {
    var l := s.threads[t];
    var step := Exec(s.word, l, c);
    InvFits(s, t);
    ExecEffect(s.word, l, c);
    EffectKeepsCounts(s.word, s.threads, t, step.0, step.1);
  }

  lemma EffectKeepsCounts(word: nat, ts: seq<Local>, t: nat, word': nat, l': Local)
    requires CountInv(word, ts) && t < |ts| && Effect(word, RoleOf(ts[t]), word', RoleOf(l'))
    ensures CountInv(word', ts[t := l'])
  {
    var ts' := ts[t := l'];
    CountsMove(ts, t, l');
    WritersAndWaiters(ts');
    MoveKeeps(word, RoleOf(ts[t]), word', RoleOf(l'), |ts|,
              Count(ts, IsReader), Count(ts, IsWriter), Count(ts, IsWaiter), Count(ts, IsSignaller),
              Count(ts', IsReader), Count(ts', IsWriter), Count(ts', IsWaiter), Count(ts', IsSignaller));
  }

  /** The counts of the four roles when one thread goes from role a to role b. */
  predicate Moved(a: Role, b: Role, r: nat, w: nat, q: nat, g: nat, r': nat, w': nat, q': nat, g': nat) {
    && r' == r - One(a == Read) + One(b == Read) && One(a == Read) <= r
    && w' == w - One(a == Write) + One(b == Write) && One(a == Write) <= w
    && q' == q - One(a == Wait) + One(b == Wait) && One(a == Wait) <= q
    && g' == g - One(a == Handoff) + One(b == Handoff) && One(a == Handoff) <= g
  }

  lemma MoveKeeps(word: nat, a: Role, word': nat, b: Role, n: nat, r: nat, w: nat, q: nat, g: nat, r': nat, w': nat, q': nat, g': nat)
    requires WordInv(word, n, r, w, q, g) && Effect(word, a, word', b) && Moved(a, b, r, w, q, g, r', w', q', g') && w' + q' <= n
    ensures WordInv(word', n, r', w', q', g')
  {
    EffectKeeps(word, a, word', b, n, r, w, q, g);
  }

  lemma WritersAndWaiters(ts: seq<Local>)
    ensures Count(ts, IsWriter) + Count(ts, IsWaiter) <= |ts|
  {
    CountDisjoint(ts, IsWriter, IsWaiter);
  }

  /** All four counts after one thread moved. */
  lemma CountsMove(ts: seq<Local>, t: nat, l: Local)
    requires t < |ts|
    ensures Moved(RoleOf(ts[t]), RoleOf(l), Count(ts, IsReader), Count(ts, IsWriter), Count(ts, IsWaiter), Count(ts, IsSignaller),
                  Count(ts[t := l], IsReader), Count(ts[t := l], IsWriter), Count(ts[t := l], IsWaiter), Count(ts[t := l], IsSignaller))
  {
    CountUpdate(ts, t, l, IsReader);
    CountUpdate(ts, t, l, IsWriter);
    CountUpdate(ts, t, l, IsWaiter);
    CountUpdate(ts, t, l, IsSignaller);
  }

  /** While the signal is posted, a step of thread t leaves somebody awake to receive it. */
  lemma RunKeepsAwake(s: State, t: nat, c: Call)
    requires Inv(s) && t < |s.threads|
    ensures var s' := Next(s, Run(t, c));
      s'.word >= SIG ==> exists u :: 0 <= u < |s'.threads| && IsAwake(s'.threads[u])
  {
    var l := s.threads[t];
    var s' := Next(s, Run(t, c));
    InvFits(s, t);
    if s'.word >= SIG {
      if s.word >= SIG {
        var u :| 0 <= u < |s.threads| && IsAwake(s.threads[u]);
        if u == t {
          StaysAwake(s.word, l, c);
        }
        assert IsAwake(s'.threads[u]);
      } else {
        PostedBySignaller(s.word, l, c);
        assert IsAwake(s'.threads[t]);
      }
    }
  }

  lemma StaysAwake(word: nat, l: Local, c: Call)
    requires Fits(word, l) && IsAwake(l) && word >= SIG && Exec(word, l, c).0 >= SIG
    ensures IsAwake(Exec(word, l, c).1)
  {
  }

  /** The signal appears in the word only through the step of imp_signal that posts it. */
  lemma PostedBySignaller(word: nat, l: Local, c: Call)
    requires Fits(word, l) && word < SIG <= Exec(word, l, c).0
    ensures Exec(word, l, c).1 == Notifying
  {
    ExecEffect(word, l, c);
    assert RoleOf(l) == Handoff;
  }

  lemma RunKeeps(s: State, t: nat, c: Call)
    requires Inv(s)
    ensures Inv(Next(s, Run(t, c)))
  {
    if t < |s.threads| {
      RunKeepsWord(s, t, c);
      RunKeepsAwake(s, t, c);
    }
  }

  lemma SpuriousKeeps(s: State, t: nat)
    requires Inv(s)
    ensures Inv(Next(s, Spurious(t)))
  {
    if t < |s.threads| && s.threads[t].Parked? {
      EffectKeepsCounts(s.word, s.threads, t, s.word, Taking(s.threads[t].shared));
      assert IsAwake(Next(s, Spurious(t)).threads[t]);
    }
  }

  lemma NextKeeps(s: State, a: Action)
    requires Inv(s)
    ensures Inv(Next(s, a))
  {
    match a
    case Run(t, c) => RunKeeps(s, t, c);
    case NotifyOne(t, u) => NotifyKeeps(s, t, u);
    case Spurious(t) => SpuriousKeeps(s, t);
  }

  /** notify_one may find nobody asleep, but then the waiter the signal is meant for is awake. */
  lemma NotifyKeeps(s: State, t: nat, u: nat)
    requires Inv(s)
    ensures Inv(Next(s, NotifyOne(t, u)))
  {
    if t < |s.threads| && s.threads[t] == Notifying {
      if u < |s.threads| && s.threads[u].Parked? {
        NotifyWakes(s, t, u);
      } else if forall v :: 0 <= v < |s.threads| ==> !s.threads[v].Parked? {
        NotifyFindsNobody(s, t);
      }
    }
  }

  lemma NotifyWakes(s: State, t: nat, u: nat)
    requires Inv(s) && t < |s.threads| && s.threads[t] == Notifying && u < |s.threads| && s.threads[u].Parked?
    ensures Inv(s.(threads := s.threads[t := Idle][u := Taking(s.threads[u].shared)]))
  {
    EffectKeepsCounts(s.word, s.threads, t, s.word, Idle);
    EffectKeepsCounts(s.word, s.threads[t := Idle], u, s.word, Taking(s.threads[u].shared));
    assert IsAwake(s.threads[t := Idle][u := Taking(s.threads[u].shared)][u]);
  }

  lemma NotifyFindsNobody(s: State, t: nat)
    requires Inv(s) && t < |s.threads| && s.threads[t] == Notifying && forall v :: 0 <= v < |s.threads| ==> !s.threads[v].Parked?
    ensures Inv(s.(threads := s.threads[t := Idle]))
  {
    EffectKeepsCounts(s.word, s.threads, t, s.word, Idle);
    if s.word >= SIG {
      var v := SomeWaiter(s);
      assert IsAwake(s.threads[t := Idle][v]);
    }
  }

  /** A posted signal has a waiter it is meant for. */
  lemma SomeWaiter(s: State) returns (v: nat)
    requires Inv(s) && s.word >= SIG
    ensures v < |s.threads| && IsWaiter(s.threads[v])
  {
    CountZero(s.threads, IsWaiter);
    v :| v < |s.threads| && IsWaiter(s.threads[v]);
  }

  /** The invariant holds after every interleaving of every number of threads up to the limit. */
  lemma {:induction false} AfterInv(n: nat, actions: seq<Action>)
    requires n <= MAX_THREADS
    ensures Inv(After(n, actions)) && |After(n, actions).threads| == n
  {
    if actions == [] {
      var ts := Init(n).threads;
      CountUniform(ts, Idle, IsReader);
      CountUniform(ts, Idle, IsWriter);
      CountUniform(ts, Idle, IsWaiter);
      CountUniform(ts, Idle, IsSignaller);
    } else {
      AfterInv(n, actions[..|actions| - 1]);
      NextKeeps(After(n, actions[..|actions| - 1]), actions[|actions| - 1]);
    }
  }

  // ----- What the lock promises -----

  /** Mutual exclusion: a writer never coexists with another writer or with a reader. */
  lemma MutualExclusion(n: nat, actions: seq<Action>, t: nat, u: nat)
    requires n <= MAX_THREADS && t < n && u < n && t != u
    ensures var ts := After(n, actions).threads;
      |ts| == n && (IsWriter(ts[t]) ==> !IsWriter(ts[u]) && !IsReader(ts[u]))
  {
    AfterInv(n, actions);
    var ts := After(n, actions).threads;
    CountsMove(ts, t, Idle);
    CountsMove(ts[t := Idle], u, Idle);
  }

  /** No ensure() of the lock ever fails: neither underflow nor overflow is reported. */
  lemma NoFailure(n: nat, actions: seq<Action>, t: nat)
    requires n <= MAX_THREADS && t < n
    ensures |After(n, actions).threads| == n && After(n, actions).threads[t] != Failed
  {
    AfterInv(n, actions);
  }

  /** The hand-off is never lost: at most one signal is in the word; the word is what the threads hold plus
      the signal; and the ownership token is in exactly one place unless the word is zero. */
  lemma OneToken(n: nat, actions: seq<Action>)
    requires n <= MAX_THREADS
    ensures var s := After(n, actions);
      var sig := One(s.word >= SIG);
      && s.word == Count(s.threads, IsReader)
                   + ONE * (Count(s.threads, IsWriter) + Count(s.threads, IsWaiter)) + SIG * sig
      && One(Count(s.threads, IsReader) > 0) + Count(s.threads, IsWriter) + Count(s.threads, IsSignaller) + sig
         == One(s.word != 0)
  {
    AfterInv(n, actions);
  }

  /** While the signal is posted, a waiter is awake to receive it or a thread is about to notify one. */
  lemma SignalIsAttended(n: nat, actions: seq<Action>)
    requires n <= MAX_THREADS
    ensures var s := After(n, actions);
      |s.threads| == n && (s.word >= SIG ==> exists t :: 0 <= t < n && IsAwake(s.threads[t]))
  {
    AfterInv(n, actions);
  }

  /** Whenever a thread sleeps, the lock is owned, about to be handed over, or somebody is awake to take it:
      no run ends with every thread that takes part asleep. */
  lemma SleeperIsServed(n: nat, actions: seq<Action>, t: nat)
    requires n <= MAX_THREADS && t < n
    ensures var s := After(n, actions);
      |s.threads| == n && (s.threads[t].Parked? ==>
        exists u :: 0 <= u < n && u != t
          && (IsReader(s.threads[u]) || IsWriter(s.threads[u]) || IsSignaller(s.threads[u])
              || IsAwake(s.threads[u])))
  {
    AfterInv(n, actions);
    var s := After(n, actions);
    CountsMove(s.threads, t, Idle);
    CountZero(s.threads, IsReader);
    CountZero(s.threads, IsWriter);
    CountZero(s.threads, IsSignaller);
  }

  /** When every thread has left, the word is zero again. */
  lemma AllOutMeansFree(n: nat, actions: seq<Action>)
    requires n <= MAX_THREADS
    requires forall t :: 0 <= t < |After(n, actions).threads| ==> After(n, actions).threads[t] == Idle
    ensures After(n, actions).word == 0
  {
    AfterInv(n, actions);
    var ts := After(n, actions).threads;
    CountUniform(ts, Idle, IsReader);
    CountUniform(ts, Idle, IsWriter);
    CountUniform(ts, Idle, IsWaiter);
    CountUniform(ts, Idle, IsSignaller);
  }

  /** Three steps of thread t in a row. */
  function Thrice(s: State, t: nat): State {
    Next(Next(Next(s, Run(t, Release)), Run(t, Release)), Run(t, Release))
  }

  /** unlock by a writer while others wait: the writer's share leaves the word and the signal enters it. */
  lemma WriterPosts(s: State, t: nat)
    requires t < |s.threads| && s.threads[t] == Writer && ONE < s.word < SIG
    ensures Thrice(s, t) == State(s.word - ONE + SIG, s.threads[t := Notifying])
  {
    var s1 := Next(s, Run(t, Release));
    assert s1 == State(s.word - ONE, s.threads[t := UnlockTail(s.word)]);
    var s2 := Next(s1, Run(t, Release));
    assert s2 == State(s.word - ONE, s.threads[t := Signalling]);
  }

  /** unlock_shared by the last reader while others wait: its share leaves the word and the signal enters it. */
  lemma LastReaderPosts(s: State, t: nat)
    requires t < |s.threads| && s.threads[t] == Reader && ONE <= s.word < SIG && s.word % 0x4000 == 1
    ensures Thrice(s, t) == State(s.word - 1 + SIG, s.threads[t := Notifying])
  {
    var s1 := Next(s, Run(t, Release));
    assert s1 == State(s.word - 1, s.threads[t := UnlockSharedTail(s.word)]);
    var s2 := Next(s1, Run(t, Release));
    assert s2 == State(s.word - 1, s.threads[t := Signalling]);
  }

  /** A sleeper that is notified while the signal is posted owns the lock after its next step. */
  lemma SleeperReceives(s: State, t: nat, u: nat)
    requires t < |s.threads| && u < |s.threads| && t != u && SIG <= s.word < ERR
    requires s.threads[t] == Notifying && s.threads[u].Parked?
    ensures Next(Next(s, NotifyOne(t, u)), Run(u, Lock))
         == State(s.word - SIG, s.threads[t := Idle][u := if s.threads[u].shared then Downgrading else Writer])
  {
    var s1 := Next(s, NotifyOne(t, u));
    assert s1 == State(s.word, s.threads[t := Idle][u := Taking(s.threads[u].shared)]);
    assert s1.threads[u := Writer] == s.threads[t := Idle][u := Writer];
    assert s1.threads[u := Downgrading] == s.threads[t := Idle][u := Downgrading];
  }

  lemma WriterAndWaiter(s: State, t: nat, u: nat)
    requires Inv(s) && t < |s.threads| && u < |s.threads| && IsWriter(s.threads[t]) && IsWaiter(s.threads[u])
    ensures 2 * ONE <= s.word < SIG
  {
    CountsMove(s.threads, t, Idle);
    CountsMove(s.threads, u, Idle);
  }

  /** The state a hand-off from writer t to sleeper u arrives at: t posts the signal and notifies u, which
      takes its next step. */
  function HandedOver(s: State, t: nat, u: nat): State {
    Next(Next(Thrice(s, t), NotifyOne(t, u)), Run(u, Lock))
  }

  lemma HandOverStates(s: State, t: nat, u: nat)
    requires t < |s.threads| && u < |s.threads| && t != u && ONE < s.word < SIG
    requires s.threads[t] == Writer && s.threads[u].Parked?
    ensures HandedOver(s, t, u)
         == State(s.word - ONE, s.threads[t := Idle][u := if s.threads[u].shared then Downgrading else Writer])
  {
    WriterPosts(s, t);
    var p := State(s.word - ONE + SIG, s.threads[t := Notifying]);
    SleeperReceives(p, t, u);
    assert p.threads[t := Idle] == s.threads[t := Idle];
  }

  /** The hand-off itself: when the writer leaves while a thread sleeps, its release, signal and notification
      followed by the sleeper's next step make the sleeper the owner (a sleeping lock_shared then downgrades).
      No other thread moves, and the word loses exactly what the writer held. */
  lemma HandOver(s: State, t: nat, u: nat)
    requires Inv(s) && t < |s.threads| && u < |s.threads| && t != u
    requires s.threads[t] == Writer && s.threads[u].Parked?
    ensures HandedOver(s, t, u).word == s.word - ONE
    ensures HandedOver(s, t, u).threads
         == s.threads[t := Idle][u := if s.threads[u].shared then Downgrading else Writer]
  {
    WriterAndWaiter(s, t, u);
    HandOverStates(s, t, u);
  }
}
