/** A thread that waits obtains a free permit when it runs alone. */
module SemaphoreProgress {
  import opened Threads
  import opened Semaphore

  /** k steps of thread t. */
  function Alone(s: State, t: nat, k: nat): State
    decreases k
  {
    if k == 0 then s else Alone(Next(s, Run(t, Wait)), t, k - 1)
  }

  /** Inside wait, and not asleep. */
  predicate IsTrying(l: Local) {
    l.Idle? || l.WaitCas? || l.Spin? || l.SpinCas? || l.Enqueue? || l.Parking? || l.Retry?
  }

  /** How many steps are left at most while a permit is free. */
  function Left(word: nat, l: Local): (k: nat)
    ensures k <= 4
  {
    match l
    case Enqueue => 1
    case Retry => 1
    case Parking(_) => 2
    case Spin(_) => 2
    case WaitCas(seen) => if word == seen then 1 else 3
    case SpinCas(_, seen) => if word == seen then 1 else 3
    case Idle => 4
    case _ => 0
  }

  lemma WaitAdvances(word: nat, l: Local, max: nat)
    requires IsTrying(l) && LocalOk(l) && Permits(word) > 0
    ensures var o := Exec(word, l, Wait, max);
      if o.took then o.l == Idle && !o.gave
      else o.word == word && !o.gave && IsTrying(o.l) && LocalOk(o.l) && Left(o.word, o.l) < Left(word, l)
  {
    assert word != ALL_WAITING;
  }

  /** With a permit free, wait obtains one in at most four steps of a thread that runs alone, from its start and from
      every point of it at which the thread is awake. */
  lemma {:induction false} WaitGoesThrough(s: State, t: nat) returns (k: nat)
    requires t < |s.threads| && IsTrying(s.threads[t]) && LocalOk(s.threads[t]) && Permits(s.word) > 0
    ensures k <= Left(s.word, s.threads[t])
    ensures Alone(s, t, k).takes == s.takes + 1 && Alone(s, t, k).posts == s.posts && Alone(s, t, k).threads == s.threads[t := Idle]
    decreases Left(s.word, s.threads[t])
  {
    var o := Exec(s.word, s.threads[t], Wait, s.max);
    var s' := Next(s, Run(t, Wait));
    WaitAdvances(s.word, s.threads[t], s.max);
    if o.took {
      k := 1;
      assert Alone(s, t, 1) == Alone(s', t, 0);
    } else {
      var more := WaitGoesThrough(s', t);
      k := more + 1;
      assert s'.threads[t := Idle] == s.threads[t := Idle];
    }
  }

  /** A word that counts fewer than 65536 waiters leaves room for one more permit. */
  lemma GoodWord(s: State)
    requires Good(s)
    ensures s.word + 1 < 0x1_0000_0000
  {
    CountDisjoint(s.threads, IsRegistered, l => !IsRegistered(l));
    assert s.word == Permits(s.word) + 0x1_0000 * Count(s.threads, IsRegistered);
  }

  lemma TryWaitStep(s: State, t: nat)
    requires Good(s) && t < |s.threads| && s.threads[t] == Idle
    ensures var s', d := Next(s, Run(t, TryWait)), One(s.initial + s.posts > s.takes);
      s'.threads == s.threads && s'.posts == s.posts && s'.takes == s.takes + d && s'.word == s.word - d
  {
    GoodWord(s);
    assert s.threads[t := Idle] == s.threads;
  }

  /** In every run, try_wait obtains a permit exactly when more permits were given than taken so far. */
  lemma TryWaitAlone(n: nat, initial: nat, max: nat, actions: seq<Action>, t: nat)
    requires n <= MAX_THREADS && initial < 0x8000 && max < 0x8000 && t < n
    requires !Overfilled(After(n, initial, max, actions))
    requires |After(n, initial, max, actions).threads| == n && After(n, initial, max, actions).threads[t] == Idle
    ensures var s := After(n, initial, max, actions);
      var s', d := Next(s, Run(t, TryWait)), One(initial + s.posts > s.takes);
      s'.threads == s.threads && s'.posts == s.posts && s'.takes == s.takes + d && s'.word == s.word - d
  {
    AfterInv(n, initial, max, actions);
    StepsKeepParameters(Init(n, initial, max), actions);
    TryWaitStep(After(n, initial, max, actions), t);
  }

  lemma PostStep(s: State, t: nat, try: bool)
    requires Good(s) && t < |s.threads| && s.threads[t] == Idle
    ensures var s' := Next(s, Run(t, if try then TryPost else Post));
      var d := One(!try || s.initial + s.posts - s.takes <= s.max);
      s'.takes == s.takes && s'.posts == s.posts + d && s'.word == s.word + d && |s'.threads| == |s.threads|
  {
    GoodWord(s);
  }

  /** A thread that finds one more permit than there was takes it back. */
  lemma TakesBack(word: nat, s: State, u: nat)
    requires Permits(word) < FULL && s.word == word + 1 < 0x1_0000_0000 && u < |s.threads| && s.threads[u] == Idle
    ensures Next(s, Run(u, TryWait)).word == word && Next(s, Run(u, TryWait)).takes == s.takes + 1
  {
    assert Permits(s.word) == Permits(word) + 1;
  }

  /** In every run, post gives a permit, and try_post does exactly when the permits given exceed those taken by no more
      than the maximum; unless all permits were free, the next try_wait of any idle thread takes it back. */
  lemma PostAlone(n: nat, initial: nat, max: nat, actions: seq<Action>, t: nat, u: nat, try: bool)
    requires n <= MAX_THREADS && initial < 0x8000 && max < 0x8000 && t < n && u < n
    requires !Overfilled(After(n, initial, max, actions))
    requires |After(n, initial, max, actions).threads| == n && After(n, initial, max, actions).threads[t] == Idle
    ensures var s := After(n, initial, max, actions);
      var s', d := Next(s, Run(t, if try then TryPost else Post)), One(!try || initial + s.posts - s.takes <= max);
      && s'.takes == s.takes && s'.posts == s.posts + d && s'.word == s.word + d && |s'.threads| == n
      && (d == 1 && Permits(s.word) < FULL && s'.threads[u] == Idle ==>
            Next(s', Run(u, TryWait)).word == s.word && Next(s', Run(u, TryWait)).takes == s.takes + 1)
  {
    var s := After(n, initial, max, actions);
    AfterInv(n, initial, max, actions);
    StepsKeepParameters(Init(n, initial, max), actions);
    PostStep(s, t, try);
    GoodWord(s);
    var s' := Next(s, Run(t, if try then TryPost else Post));
    if s'.word == s.word + 1 && Permits(s.word) < FULL && s'.threads[u] == Idle {
      TakesBack(s.word, s', u);
    }
  }
}
