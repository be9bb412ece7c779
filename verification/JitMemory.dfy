/** The bump allocator for generated code, add_jit_memory in Utilities/JITASM.cpp.

  One 64-bit counter packs the first free offset of a 1 GiB subrange (low half) with the size of memory already
  acknowledged as committed (high half).  Any number of threads allocate; a step is one atomic operation on the
  counter or one call that commits memory.  Addresses are offsets into the subrange. */
module JitMemory {
  import opened Arithmetic

  const RANGE := 0x4000_0000           // size of the subrange
  const PAGE := 0x20_0000              // granularity of committing
  const U64 := 0x1_0000_0000_0000_0000

  /** utils::align: the least multiple of a from x on (the source requires a power of two). */
  function Align(x: nat, a: nat): (r: nat)
    requires 0 < a
    ensures x <= r < x + a && r % a == 0
  {
    AlignFacts(x, a);
    (x + (a - 1)) / a * a
  }

  lemma AlignFacts(x: nat, a: nat)
    requires 0 < a
    ensures var r := (x + (a - 1)) / a * a; x <= r < x + a && r % a == 0
  {
    var y := x + (a - 1);
    var q := y / a;
    assert y == a * q + y % a;
    DivModUnique(q * a, a, q, 0);
  }

  datatype Block = Block(pos: nat, size: nat, align: nat)

  function End(b: Block): nat {
    b.pos + b.size
  }

  datatype Local =
    | Idle
    | Committing(b: Block, olda: nat, newa: nat)       // about to commit [olda, newa)
    | Acknowledging(b: Block, newa: nat)
    | Returning(b: Block)                              // the two final ensure()
    | Failed(b: Block)                                 // one of them failed

  /** `commits` lists the committed ranges.  The rest is history: `blocks` are the blocks handed out by the
      counter, in order, `returned` those given back to a caller, `refused` tells that a call got nullptr. */
  datatype State = State(ctr: nat, threads: seq<Local>, commits: seq<(nat, nat)>,
                         blocks: seq<Block>, returned: seq<Block>, refused: bool)

  function Low(ctr: nat): (r: nat)
    ensures r < 0x1_0000_0000
  {
    ctr % 0x1_0000_0000
  }

  function High(ctr: nat): nat {
    ctr / 0x1_0000_0000
  }

  function Pack(low: nat, high: nat): (ctr: nat)
    requires low < 0x1_0000_0000
    ensures Low(ctr) == low && High(ctr) == high
  {
    low + 0x1_0000_0000 * high
  }

  /** ctr |= 0x40000000 */
  function SetFull(ctr: nat): nat {
    if ctr / 0x4000_0000 % 2 == 1 then ctr else ctr + 0x4000_0000
  }

  datatype Action = Alloc(t: nat, size: nat, align: nat) | Run(t: nat)

  /** Requests whose arithmetic stays within 64 bits. */
  predicate Sane(size: nat, align: nat) {
    0 < align && 0x1_0000_0000 + size + 2 * align < U64 && !(size == 0 && align == 1)
  }

  /** The allocation step, for a block at pos that moves the first free offset to top. */
  function ReserveAt(s: State, t: nat, b: Block, top: nat): State
    requires t < |s.threads| && Low(s.ctr) <= top
  {
    if top > RANGE then s.(ctr := SetFull(s.ctr), refused := true)
    else
      var olda := High(s.ctr);
      var newa := if top > olda then Align(top, PAGE) else olda;
      s.(ctr := s.ctr + (top - Low(s.ctr)), blocks := s.blocks + [b],
         threads := s.threads[t := if olda != newa then Committing(b, olda, newa) else Returning(b)])
  }

  function Reserve(s: State, t: nat, size: nat, align: nat): State
    requires t < |s.threads| && 0 < align
  {
    var pos := Align(Low(s.ctr), align);
    ReserveAt(s, t, Block(pos, size, align), Align(pos + size, align))
  }

  function Next(s: State, a: Action): (s': State)
    ensures |s'.threads| == |s.threads|
  {
    match a
    case Alloc(t, size, align) =>
      if t < |s.threads| && s.threads[t] == Idle && Sane(size, align) then Reserve(s, t, size, align) else s
    case Run(t) =>
      if t >= |s.threads| then s
      else (match s.threads[t]
        case Committing(b, olda, newa) =>
          s.(commits := s.commits + [(olda, newa)], threads := s.threads[t := Acknowledging(b, newa)])
        case Acknowledging(b, newa) =>
          s.(ctr := if High(s.ctr) < newa then s.ctr + (newa - High(s.ctr)) * 0x1_0000_0000 else s.ctr,
             threads := s.threads[t := Returning(b)])
        case Returning(b) =>
          if b.pos < RANGE then s.(threads := s.threads[t := Idle], returned := s.returned + [b])
          else s.(threads := s.threads[t := Failed(b)])
        case _ => s)
  }

  function After(n: nat, actions: seq<Action>): State {
    if actions == [] then State(0, seq(n, i => Idle), [], [], [], false)
    else Next(After(n, actions[..|actions| - 1]), actions[|actions| - 1])
  }

  // ----- The invariant -----

  predicate Covers(c: (nat, nat), x: nat) {
    c.0 <= x < c.1
  }

  ghost predicate Committed(commits: seq<(nat, nat)>, x: nat) {
    exists c :: c in commits && Covers(c, x)
  }

  ghost predicate CommittedBelow(commits: seq<(nat, nat)>, top: nat) {
    forall x: nat :: x < top ==> Committed(commits, x)
  }

  ghost predicate LocalInv(s: State, l: Local) {
    match l
    case Committing(b, olda, newa) => b in s.blocks && olda <= High(s.ctr) && End(b) <= newa <= RANGE
    case Acknowledging(b, newa) => b in s.blocks && End(b) <= newa <= RANGE && CommittedBelow(s.commits, newa)
    case Returning(b) => b in s.blocks && CommittedBelow(s.commits, End(b))
    case Failed(b) => b.size == 0 && b.pos == RANGE
    case _ => true
  }

  ghost predicate Inv(s: State) {
    && High(s.ctr) <= RANGE
    && Low(s.ctr) < 2 * RANGE
    && (!s.refused ==> Low(s.ctr) <= RANGE)
    && (s.refused ==> RANGE <= Low(s.ctr))
    && CommittedBelow(s.commits, High(s.ctr))
    && (forall i :: 0 <= i < |s.blocks| ==>
          End(s.blocks[i]) <= Low(s.ctr) && End(s.blocks[i]) <= RANGE && 0 < s.blocks[i].align
          && s.blocks[i].pos % s.blocks[i].align == 0)
    && (forall i, j :: 0 <= i < j < |s.blocks| ==> End(s.blocks[i]) <= s.blocks[j].pos)
    && (forall t :: 0 <= t < |s.threads| ==> LocalInv(s, s.threads[t]))
    && (forall b :: b in s.returned ==> b in s.blocks && b.pos < RANGE && CommittedBelow(s.commits, End(b)))
  }

  lemma ReserveWord(ctr: nat, top: nat)
    requires Low(ctr) <= top <= RANGE
    ensures Low(ctr + (top - Low(ctr))) == top && High(ctr + (top - Low(ctr))) == High(ctr)
  {
    assert ctr + (top - Low(ctr)) == Pack(top, High(ctr));
  }

  /** Bit 30 of the counter is bit 30 of its low half. */
  lemma FullBit(ctr: nat)
    requires Low(ctr) < 2 * RANGE
    ensures ctr / 0x4000_0000 % 2 == 1 <==> RANGE <= Low(ctr)
  {
    var low, high := Low(ctr), High(ctr);
    var b := if low < RANGE then 0 else 1;
    DivModUnique(ctr, 0x4000_0000, 4 * high + b, low - b * 0x4000_0000);
    DivModUnique(4 * high + b, 2, 2 * high, b);
  }

  lemma RefuseWord(ctr: nat)
    requires Low(ctr) < 2 * RANGE
    ensures High(SetFull(ctr)) == High(ctr) && Low(ctr) <= Low(SetFull(ctr)) && RANGE <= Low(SetFull(ctr)) < 2 * RANGE
  {
    FullBit(ctr);
    if Low(ctr) < RANGE {
      assert ctr + 0x4000_0000 == Pack(Low(ctr) + 0x4000_0000, High(ctr));
    }
  }

  lemma AcknowledgeWord(ctr: nat, newa: nat)
    requires High(ctr) < newa
    ensures High(ctr + (newa - High(ctr)) * 0x1_0000_0000) == newa
    ensures Low(ctr + (newa - High(ctr)) * 0x1_0000_0000) == Low(ctr)
  {
    assert ctr + (newa - High(ctr)) * 0x1_0000_0000 == Pack(Low(ctr), newa);
  }

  /** Committing more keeps what was committed, and a range that starts in committed memory extends it. */
  lemma CommitMore(commits: seq<(nat, nat)>, lo: nat, hi: nat, top: nat)
    requires CommittedBelow(commits, top)
    ensures CommittedBelow(commits + [(lo, hi)], top)
    ensures lo <= top ==> CommittedBelow(commits + [(lo, hi)], hi)
  {
    var more := commits + [(lo, hi)];
    forall x: nat | x < top ensures Committed(more, x) {
      assert Committed(commits, x);
      var c :| c in commits && Covers(c, x);
      assert c in more && Covers(c, x);
    }
    if lo <= top {
      forall x: nat | x < hi ensures Committed(more, x) {
        assert (lo, hi) in more;
        assert x >= top ==> Covers((lo, hi), x);
      }
    }
  }

  /** What a thread relies on survives a growing counter, growing lists and steps of other threads. */
  lemma LocalStays(s: State, s': State, l: Local)
    requires LocalInv(s, l) && High(s.ctr) <= High(s'.ctr)
    requires forall b :: b in s.blocks ==> b in s'.blocks
    requires forall top :: CommittedBelow(s.commits, top) ==> CommittedBelow(s'.commits, top)
    ensures LocalInv(s', l)
  {
  }

  lemma RefuseKeeps(s: State)
    requires Inv(s)
    ensures Inv(s.(ctr := SetFull(s.ctr), refused := true))
  {
    var s' := s.(ctr := SetFull(s.ctr), refused := true);
    RefuseWord(s.ctr);
    forall u | 0 <= u < |s'.threads| ensures LocalInv(s', s'.threads[u]) {
      LocalStays(s, s', s.threads[u]);
    }
  }

  /** Handing out the block b and moving the first free offset to `top`; thread t goes on as l. */
  lemma GrantKeeps(s: State, t: nat, b: Block, top: nat, l: Local)
    requires Inv(s) && t < |s.threads| && Low(s.ctr) <= b.pos && End(b) <= top <= RANGE
    requires 0 < b.align && b.pos % b.align == 0
    requires l == Returning(b) ==> End(b) <= High(s.ctr)
    requires l == Returning(b) || (l.Committing? && l.b == b && l.olda <= High(s.ctr) && End(b) <= l.newa <= RANGE)
    requires s.refused ==> top == RANGE
    ensures Inv(s.(ctr := s.ctr + (top - Low(s.ctr)), blocks := s.blocks + [b], threads := s.threads[t := l]))
  {
    var s' := s.(ctr := s.ctr + (top - Low(s.ctr)), blocks := s.blocks + [b], threads := s.threads[t := l]);
    ReserveWord(s.ctr, top);
    assert b in s'.blocks;
    forall u | 0 <= u < |s'.threads| ensures LocalInv(s', s'.threads[u]) {
      if u != t {
        LocalStays(s, s', s.threads[u]);
      }
    }
  }

  lemma ReserveAtKeeps(s: State, t: nat, b: Block, top: nat)
    requires Inv(s) && t < |s.threads| && s.threads[t] == Idle
    requires 0 < b.align && b.pos % b.align == 0 && Low(s.ctr) <= b.pos && End(b) <= top
    ensures Inv(ReserveAt(s, t, b, top))
    ensures s.refused && b.size > 0 ==>
      ReserveAt(s, t, b, top).blocks == s.blocks && ReserveAt(s, t, b, top).threads == s.threads
  {
    if top > RANGE {
      RefuseKeeps(s);
    } else {
      PageRounding(top);
      GrantKeeps(s, t, b, top, ReserveAt(s, t, b, top).threads[t]);
    }
  }

  lemma PageRounding(top: nat)
    requires top <= RANGE
    ensures Align(top, PAGE) <= RANGE
  {
    assert (top + (PAGE - 1)) / PAGE == (top + 0x1F_FFFF) / 0x20_0000 <= 0x200;
  }

  lemma ReserveKeeps(s: State, t: nat, size: nat, align: nat)
    requires Inv(s) && t < |s.threads| && s.threads[t] == Idle && 0 < align
    ensures Inv(Reserve(s, t, size, align))
    ensures s.refused && size > 0 ==>
      Reserve(s, t, size, align).blocks == s.blocks && Reserve(s, t, size, align).threads == s.threads
  {
    var pos := Align(Low(s.ctr), align);
    ReserveAtKeeps(s, t, Block(pos, size, align), Align(pos + size, align));
  }

  lemma CommitKeeps(s: State, t: nat)
    requires Inv(s) && t < |s.threads| && s.threads[t].Committing?
    ensures Inv(Next(s, Run(t)))
  {
    var s' := Next(s, Run(t));
    var l := s.threads[t];
    assert LocalInv(s, l);
    forall top | CommittedBelow(s.commits, top) ensures CommittedBelow(s'.commits, top) {
      CommitMore(s.commits, l.olda, l.newa, top);
    }
    CommitMore(s.commits, l.olda, l.newa, High(s.ctr));
    forall u | 0 <= u < |s'.threads| ensures LocalInv(s', s'.threads[u]) {
      if u != t {
        LocalStays(s, s', s.threads[u]);
      }
    }
  }

  lemma AcknowledgeKeeps(s: State, t: nat)
    requires Inv(s) && t < |s.threads| && s.threads[t].Acknowledging?
    ensures Inv(Next(s, Run(t)))
  {
    var s' := Next(s, Run(t));
    var l := s.threads[t];
    assert LocalInv(s, l);
    if High(s.ctr) < l.newa {
      AcknowledgeWord(s.ctr, l.newa);
    }
    forall u | 0 <= u < |s'.threads| ensures LocalInv(s', s'.threads[u]) {
      if u != t {
        LocalStays(s, s', s.threads[u]);
      }
    }
  }

  lemma ReturnKeeps(s: State, t: nat)
    requires Inv(s) && t < |s.threads| && s.threads[t].Returning?
    ensures Inv(Next(s, Run(t)))
  {
    var s' := Next(s, Run(t));
    var b := s.threads[t].b;
    assert LocalInv(s, s.threads[t]);
    forall u | 0 <= u < |s'.threads| ensures LocalInv(s', s'.threads[u]) {
      if u != t {
        LocalStays(s, s', s.threads[u]);
      }
    }
  }

  lemma NextKeeps(s: State, a: Action)
    requires Inv(s)
    ensures Inv(Next(s, a))
  {
    match a
    case Alloc(t, size, align) =>
      if t < |s.threads| && s.threads[t] == Idle && Sane(size, align) {
        ReserveKeeps(s, t, size, align);
      }
    case Run(t) =>
      if t < |s.threads| {
        match s.threads[t]
        case Committing(_, _, _) => CommitKeeps(s, t);
        case Acknowledging(_, _) => AcknowledgeKeeps(s, t);
        case Returning(_) => ReturnKeeps(s, t);
        case _ =>
      }
  }

  lemma {:induction false} AfterInv(n: nat, actions: seq<Action>)
    ensures Inv(After(n, actions)) && |After(n, actions).threads| == n && After(n, actions).ctr < U64
  {
    if actions != [] {
      AfterInv(n, actions[..|actions| - 1]);
      NextKeeps(After(n, actions[..|actions| - 1]), actions[|actions| - 1]);
    }
  }

  // ----- What the allocator promises -----

  /** Blocks reserved by different calls are disjoint, aligned and inside the subrange. */
  lemma BlocksApart(n: nat, actions: seq<Action>, i: nat, j: nat)
    requires i < j < |After(n, actions).blocks|
    ensures var bs := After(n, actions).blocks;
      && End(bs[i]) <= bs[j].pos && End(bs[j]) <= RANGE
      && 0 < bs[i].align && bs[i].pos % bs[i].align == 0
      && 0 < bs[j].align && bs[j].pos % bs[j].align == 0
  {
    AfterInv(n, actions);
  }

  /** By the time a block is returned, all of it is committed, whichever thread committed the memory. */
  lemma ReturnedIsCommitted(n: nat, actions: seq<Action>, b: Block, x: nat)
    requires b in After(n, actions).returned && b.pos <= x < End(b)
    ensures b in After(n, actions).blocks && Committed(After(n, actions).commits, x)
  {
    AfterInv(n, actions);
    assert CommittedBelow(After(n, actions).commits, End(b));
  }

  // Commitments are whole pages of 2 MiB.

  predicate IsPage(x: nat) {
    x % 0x20_0000 == 0
  }

  predicate LocalPages(l: Local) {
    match l
    case Committing(_, olda, newa) => IsPage(olda) && IsPage(newa) && olda < newa
    case Acknowledging(_, newa) => IsPage(newa)
    case _ => true
  }

  ghost predicate Pages(s: State) {
    && IsPage(High(s.ctr))
    && (forall t :: 0 <= t < |s.threads| ==> LocalPages(s.threads[t]))
    && (forall c :: c in s.commits ==> IsPage(c.0) && IsPage(c.1) && c.0 < c.1)
  }

  lemma ReservePages(s: State, t: nat, b: Block, top: nat)
    requires Pages(s) && t < |s.threads| && Low(s.ctr) < 2 * RANGE && Low(s.ctr) <= top
    ensures Pages(ReserveAt(s, t, b, top))
  {
    if top > RANGE {
      RefuseWord(s.ctr);
    } else {
      ReserveWord(s.ctr, top);
    }
  }

  lemma NextPages(s: State, a: Action)
    requires Pages(s) && Inv(s)
    ensures Pages(Next(s, a))
  {
    match a
    case Alloc(t, size, align) =>
      if t < |s.threads| && s.threads[t] == Idle && Sane(size, align) {
        var pos := Align(Low(s.ctr), align);
        ReservePages(s, t, Block(pos, size, align), Align(pos + size, align));
      }
    case Run(t) =>
      if t < |s.threads| {
        RunPages(s, t);
      }
  }

  lemma RunPages(s: State, t: nat)
    requires Pages(s) && t < |s.threads|
    ensures Pages(Next(s, Run(t)))
  {
    if s.threads[t].Acknowledging? && High(s.ctr) < s.threads[t].newa {
      AcknowledgeWord(s.ctr, s.threads[t].newa);
    }
  }

  /** Memory is committed in whole pages, each time at least one. */
  lemma {:induction false} CommitsArePages(n: nat, actions: seq<Action>)
    ensures Pages(After(n, actions))
  {
    if actions != [] {
      CommitsArePages(n, actions[..|actions| - 1]);
      AfterInv(n, actions[..|actions| - 1]);
      NextPages(After(n, actions[..|actions| - 1]), actions[|actions| - 1]);
    }
  }

  /** k steps of thread t. */
  function Alone(s: State, t: nat, k: nat): State
    decreases k
  {
    if k == 0 then s else Alone(Next(s, Run(t)), t, k - 1)
  }

  /** The steps a thread needs to end its call. */
  function StepsLeft(l: Local): nat {
    match l
    case Committing(_, _, _) => 3
    case Acknowledging(_, _) => 2
    case Returning(_) => 1
    case _ => 0
  }

  lemma AloneUnfolds(s: State, t: nat)
    ensures Alone(s, t, 1) == Next(s, Run(t))
    ensures Alone(s, t, 2) == Next(Next(s, Run(t)), Run(t))
    ensures Alone(s, t, 3) == Next(Next(Next(s, Run(t)), Run(t)), Run(t))
  {
    var s1 := Next(s, Run(t));
    var s2 := Next(s1, Run(t));
    assert Alone(s, t, 1) == Alone(s1, t, 0);
    assert Alone(s, t, 2) == Alone(s1, t, 1) == Alone(s2, t, 0);
    assert Alone(s, t, 3) == Alone(s1, t, 2) == Alone(s2, t, 1) == Alone(Next(s2, Run(t)), t, 0);
  }

  /** A thread that was granted a block gives it to its caller within three steps of its own, except that the last
      ensure fails for an empty block at the end of the subrange. */
  lemma GrantEnds(s: State, t: nat)
    requires Inv(s) && t < |s.threads| && StepsLeft(s.threads[t]) > 0
    ensures var b := s.threads[t].b; var s' := Alone(s, t, StepsLeft(s.threads[t]));
      if b.size == 0 && b.pos == RANGE then s'.threads == s.threads[t := Failed(b)] && s'.returned == s.returned
      else s'.threads == s.threads[t := Idle] && s'.returned == s.returned + [b]
  {
    assert LocalInv(s, s.threads[t]);
    AloneUnfolds(s, t);
  }

  /** The block a request gets if it fits. */
  function Place(ctr: nat, size: nat, align: nat): Block
    requires 0 < align
  {
    Block(Align(Low(ctr), align), size, align)
  }

  predicate FitsIn(b: Block) {
    0 < b.align && Align(End(b), b.align) <= RANGE
  }

  /** A whole call of thread t, undisturbed. */
  function Call(s: State, t: nat, size: nat, align: nat): State
    requires t < |s.threads|
  {
    var s1 := Next(s, Alloc(t, size, align));
    Alone(s1, t, StepsLeft(s1.threads[t]))
  }

  lemma CallRefused(s: State, t: nat, size: nat, align: nat)
    requires t < |s.threads| && s.threads[t] == Idle && Sane(size, align) && !FitsIn(Place(s.ctr, size, align))
    ensures Call(s, t, size, align) == s.(ctr := SetFull(s.ctr), refused := true)
  {
  }

  lemma GrantStep(s: State, t: nat, size: nat, align: nat)
    requires Inv(s) && t < |s.threads| && s.threads[t] == Idle && Sane(size, align) && FitsIn(Place(s.ctr, size, align))
    ensures var s1, b := Next(s, Alloc(t, size, align)), Place(s.ctr, size, align);
      && StepsLeft(s1.threads[t]) > 0 && s1.threads[t].b == b && s1.threads[t := Idle] == s.threads
      && s1.returned == s.returned && s1.blocks == s.blocks + [b] && s1.refused == s.refused
  {
    assert s.threads[t := Idle] == s.threads;
  }

  lemma AloneKeepsBlocks(s: State, t: nat, k: nat)
    ensures Alone(s, t, k).blocks == s.blocks && Alone(s, t, k).refused == s.refused
    decreases k
  {
    if k > 0 {
      AloneKeepsBlocks(Next(s, Run(t)), t, k - 1);
    }
  }

  lemma CallGranted(s: State, t: nat, size: nat, align: nat)
    requires Inv(s) && t < |s.threads| && s.threads[t] == Idle && Sane(size, align) && FitsIn(Place(s.ctr, size, align))
    ensures var s', b := Call(s, t, size, align), Place(s.ctr, size, align);
      && s'.blocks == s.blocks + [b] && s'.refused == s.refused
      && if b.size == 0 && b.pos == RANGE then s'.threads == s.threads[t := Failed(b)] && s'.returned == s.returned
         else s'.threads == s.threads && s'.returned == s.returned + [b]
  {
    var s1, b := Next(s, Alloc(t, size, align)), Place(s.ctr, size, align);
    GrantStep(s, t, size, align);
    NextKeeps(s, Alloc(t, size, align));
    GrantEnds(s1, t);
    AloneKeepsBlocks(s1, t, StepsLeft(s1.threads[t]));
    assert s1.threads[t := Failed(b)] == s.threads[t := Failed(b)];
  }

  /** A call on its own.  A request that does not fit is refused and changes no thread and no block.  One that fits
      gets the first aligned offset behind all earlier blocks, and the call returns it, unless the block is empty and
      lies at the end of the subrange: exactly then the last ensure fails. */
  lemma CallEnds(n: nat, actions: seq<Action>, t: nat, size: nat, align: nat)
    requires t < n && |After(n, actions).threads| == n && After(n, actions).threads[t] == Idle && Sane(size, align)
    ensures var s := After(n, actions);
      var s', b := Call(s, t, size, align), Place(s.ctr, size, align);
      && (forall c :: c in s.blocks ==> End(c) <= b.pos) && b.pos % align == 0 && b.pos < Low(s.ctr) + align
      && |s'.threads| == n
      && (s'.threads[t].Failed? <==> FitsIn(b) && size == 0 && b.pos == RANGE)
      && s'.blocks == (if FitsIn(b) then s.blocks + [b] else s.blocks)
      && (!s'.threads[t].Failed? ==> s'.threads == s.threads && s'.returned == if FitsIn(b) then s.returned + [b] else s.returned)
      && (s'.refused <==> s.refused || !FitsIn(b))
  {
    AfterInv(n, actions);
    var s := After(n, actions);
    if FitsIn(Place(s.ctr, size, align)) {
      CallGranted(s, t, size, align);
    } else {
      CallRefused(s, t, size, align);
    }
  }

  lemma AlignedAlready(x: nat, a: nat)
    requires 0 < a && x % a == 0
    ensures Align(x, a) == x
  {
    var q := x / a;
    assert x == a * q;
    DivModUnique(x + (a - 1), a, q, a - 1);
  }

  /** Once a call was refused, every later call is refused, except one for an empty block that lands at the end of the
      subrange. */
  lemma RefusalIsFinal(n: nat, actions: seq<Action>, t: nat, size: nat, align: nat)
    requires After(n, actions).refused && t < n && |After(n, actions).threads| == n
    requires After(n, actions).threads[t] == Idle && Sane(size, align)
    ensures var s, s' := After(n, actions), Next(After(n, actions), Alloc(t, size, align));
      && s'.refused
      && (s'.blocks == s.blocks && s'.threads == s.threads <==> !(size == 0 && Align(Low(s.ctr), align) == RANGE))
  {
    AfterInv(n, actions);
    var s := After(n, actions);
    var b := Place(s.ctr, size, align);
    if size == 0 && b.pos == RANGE {
      AlignedAlready(RANGE, align);
    }
    if FitsIn(b) {
      GrantStep(s, t, size, align);
    } else {
      CallRefused(s, t, size, align);
    }
  }

  /** The last ensure fails for nothing else, however the threads interleave. */
  lemma FinalChecks(n: nat, actions: seq<Action>, t: nat)
    requires t < n && |After(n, actions).threads| == n && (After(n, actions).threads[t].Failed? || After(n, actions).threads[t].Returning?)
    ensures var s := After(n, actions); var b := s.threads[t].b;
      Next(s, Run(t)).threads[t].Failed? <==> b.size == 0 && b.pos == RANGE
  {
    AfterInv(n, actions);
    assert LocalInv(After(n, actions), After(n, actions).threads[t]);
  }

  lemma EmptyAtEnd(n: nat, actions: seq<Action>, align: nat)
    requires n == 1 && Sane(0, align) && Align(Low(After(n, actions).ctr), align) == RANGE == Align(RANGE, align)
    requires After(n, actions).threads == [Idle]
    ensures Call(After(n, actions), 0, 0, align).threads == [Failed(Block(RANGE, 0, align))]
  {
    AfterInv(n, actions);
    CallGranted(After(n, actions), 0, 0, align);
  }

  lemma AfterMore(n: nat, actions: seq<Action>, a: Action)
    ensures After(n, actions + [a]) == Next(After(n, actions), a)
  {
    assert (actions + [a])[..|actions|] == actions;
  }

  /** One byte taken is enough: an empty block with the alignment of the subrange lands at its end, and the call
      fails. */
  lemma OneByteThenEmpty(n: nat, run: seq<Action>)
    requires n == 1 && run == [Alloc(0, 1, 1)] + [Run(0)] + [Run(0)] + [Run(0)]
    ensures After(n, run).threads == [Idle] && After(n, run).returned == [Block(0, 1, 1)]
    ensures Call(After(n, run), 0, 0, RANGE).threads == [Failed(Block(RANGE, 0, RANGE))]
  {
    OneByteTaken(n, run);
    EmptyAtEnd(n, run, RANGE);
  }

  lemma OneByteTaken(n: nat, run: seq<Action>)
    requires n == 1 && run == [Alloc(0, 1, 1)] + [Run(0)] + [Run(0)] + [Run(0)]
    ensures var s := After(n, run); Low(s.ctr) == 1 && s.threads == [Idle] && s.returned == [Block(0, 1, 1)]
  {
    AfterMore(n, [], Alloc(0, 1, 1));
    AfterThree(n, [Alloc(0, 1, 1)]);
    FirstByte(After(n, []), 1, 1);
    CommitRuns(After(n, [Alloc(0, 1, 1)]), 0);
  }

  lemma AfterThree(n: nat, run: seq<Action>)
    ensures After(n, run + [Run(0)] + [Run(0)] + [Run(0)]) == Alone(After(n, run), 0, 3)
  {
    AfterMore(n, run, Run(0));
    AfterMore(n, run + [Run(0)], Run(0));
    AfterMore(n, run + [Run(0)] + [Run(0)], Run(0));
    AloneUnfolds(After(n, run), 0);
  }

  lemma CommitRuns(s: State, t: nat)
    requires t < |s.threads| && s.threads[t].Committing? && s.threads[t].b.pos < RANGE
    ensures var s' := Alone(s, t, 3);
      Low(s'.ctr) == Low(s.ctr) && s'.threads == s.threads[t := Idle] && s'.returned == s.returned + [s.threads[t].b]
  {
    AloneUnfolds(s, t);
    if High(s.ctr) < s.threads[t].newa {
      AcknowledgeWord(s.ctr, s.threads[t].newa);
    }
  }

  lemma FirstByte(s: State, size: nat, align: nat)
    requires s.ctr == 0 && s.threads == [Idle] && size == align == 1
    ensures var s1 := Next(s, Alloc(0, size, align));
      s1.ctr == 1 && s1.threads[0].Committing? && s1.threads[0].b == Block(0, 1, 1) && s1.returned == s.returned
  {
    assert Align(0, align) == 0 && Align(1, align) == 1;
    assert Align(1, PAGE) == PAGE;
  }

  /** A call for an empty block fails as well after a first call was refused. */
  lemma RefusedThenEmpty(n: nat, run: seq<Action>)
    requires n == 1 && run == [Alloc(0, RANGE + 1, 1)]
    ensures After(n, run).threads == [Idle] && After(n, run).refused
    ensures Call(After(n, run), 0, 0, 2).threads == [Failed(Block(RANGE, 0, 2))]
  {
    AfterMore(n, [], Alloc(0, RANGE + 1, 1));
    assert Low(After(n, run).ctr) == RANGE;
    EmptyAtEnd(n, run, 2);
  }
}
