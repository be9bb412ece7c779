/** The multi-producer queue lf_queue of Utilities/lockless.h.

  Producers link a node in front of the list with a compare-and-swap; a consumer detaches the whole list with
  one exchange and then reverses it in place.  Nodes live in a heap of addresses (0 is nullptr); a freed address
  may be handed out again, so a producer's compare-and-swap may meet an old address in a new role.  A step is
  one atomic access or one round of the reversal, and any thread may take it. */
module LockFreeQueue {

  datatype Node<T> = Node(data: T, link: nat)

  /** History: who may touch a node. */
  datatype Owner = Shared | Of(t: nat)

  /** `chain` (the detached addresses, oldest first), `at` and `batch` are history. */
  datatype Local =
    | Idle
    | Loaded(seen: nat)                        // push: between the load of the head and the allocation
    | Pushing(item: nat, seen: nat)
    | Peeked
    | Taken(head: nat, chain: seq<nat>, batch: nat)
    | Reversing(head: nat, prev: nat, chain: seq<nat>, at: nat, batch: nat)
    | Popped(head: nat, chain: seq<nat>, batch: nat)

  /** `order` lists the queued addresses, oldest first; `pushed` all values in the order of their
      compare-and-swaps; `batches` the contents of each detached list, in the order of the exchanges. */
  datatype State<T> = State(heap: map<nat, Node<T>>, head: nat, threads: seq<Local>,
                            owner: map<nat, Owner>, order: seq<nat>, pushed: seq<T>, batches: seq<seq<T>>)

  /** Thread t starts push; gets the address for its node from `new`; starts pop_all; runs; or frees what it popped. */
  datatype Action<T> =
    | StartPush(t: nat)
    | Allocate(t: nat, data: T, addr: nat)
    | StartPop(t: nat)
    | Run(t: nat)
    | Free(t: nat)

  /** The contents of a list of nodes. */
  function Data<T>(heap: map<nat, Node<T>>, chain: seq<nat>): (r: seq<T>)
    requires forall k :: 0 <= k < |chain| ==> chain[k] in heap
    ensures |r| == |chain| && forall k :: 0 <= k < |chain| ==> r[k] == heap[chain[k]].data
  {
    if chain == [] then [] else Data(heap, chain[..|chain| - 1]) + [heap[chain[|chain| - 1]].data]
  }

  /** The listed nodes change hands. */
  function Reown(owner: map<nat, Owner>, chain: seq<nat>, o: Owner): (r: map<nat, Owner>)
    ensures r.Keys == owner.Keys
    ensures forall a :: a in owner ==> r[a] == if a in chain then o else owner[a]
  {
    map a | a in owner :: if a in chain then o else owner[a]
  }

  /** The exchange of pop_all: the whole list goes to thread t. */
  function Detach<T>(s: State<T>, t: nat): (s': State<T>)
    requires t < |s.threads| && forall k :: 0 <= k < |s.order| ==> s.order[k] in s.heap
  {
    s.(head := 0, order := [], owner := Reown(s.owner, s.order, Of(t)),
       batches := s.batches + [Data(s.heap, s.order)],
       threads := s.threads[t := Taken(s.head, s.order, |s.batches|)])
  }

  /** One step of a thread inside push or pop_all.  An address that is not in the heap would be a wild access;
      the invariant rules it out. */
  function Step<T>(s: State<T>, t: nat): (s': State<T>)
    requires t < |s.threads|
    ensures |s'.threads| == |s.threads|
  {
    match s.threads[t]
    case Pushing(item, seen) =>
      if item !in s.heap then s
      else if s.head == seen then
        s.(head := item, order := s.order + [item], owner := s.owner[item := Shared],
           pushed := s.pushed + [s.heap[item].data], threads := s.threads[t := Idle])
      else
        s.(heap := s.heap[item := s.heap[item].(link := s.head)], threads := s.threads[t := Pushing(item, s.head)])
    case Peeked =>
      if s.head == 0 || !(forall k :: 0 <= k < |s.order| ==> s.order[k] in s.heap)
      then s.(threads := s.threads[t := Idle])
      else Detach(s, t)
    case Taken(head, chain, batch) =>
      if head !in s.heap || chain == [] then s
      else if s.heap[head].link == 0 then s.(threads := s.threads[t := Popped(head, chain, batch)])
      else
        s.(heap := s.heap[head := s.heap[head].(link := 0)],
           threads := s.threads[t := Reversing(head, s.heap[head].link, chain, |chain| - 1, batch)])
    case Reversing(head, prev, chain, at, batch) =>
      if prev !in s.heap || at == 0 then s
      else
        var pprev := s.heap[prev].link;
        s.(heap := s.heap[prev := s.heap[prev].(link := head)],
           threads := s.threads[t := if pprev == 0 then Popped(prev, chain, batch)
                                     else Reversing(prev, pprev, chain, at - 1, batch)])
    case _ => s
  }

  function Next<T>(s: State<T>, a: Action<T>): (s': State<T>)
    ensures |s'.threads| == |s.threads|
  {
    match a
    case StartPush(t) =>
      if t < |s.threads| && s.threads[t] == Idle then s.(threads := s.threads[t := Loaded(s.head)]) else s
    case Allocate(t, data, addr) =>
      if t < |s.threads| && s.threads[t].Loaded? && addr != 0 && addr !in s.heap then
        var seen := s.threads[t].seen;
        s.(heap := s.heap[addr := Node(data, seen)], owner := s.owner[addr := Of(t)],
           threads := s.threads[t := Pushing(addr, seen)])
      else s
    case StartPop(t) =>
      if t < |s.threads| && s.threads[t] == Idle && s.head != 0 then s.(threads := s.threads[t := Peeked]) else s
    case Run(t) => if t < |s.threads| then Step(s, t) else s
    case Free(t) =>
      if t < |s.threads| && s.threads[t].Popped? then
        var gone := set a | a in s.threads[t].chain;
        s.(heap := s.heap - gone, owner := s.owner - gone, threads := s.threads[t := Idle])
      else s
  }

  function After<T>(n: nat, actions: seq<Action<T>>): State<T> {
    if actions == [] then State(map[], 0, seq(n, i => Idle), map[], [], [], [])
    else Next(After(n, actions[..|actions| - 1]), actions[|actions| - 1])
  }

  // ----- The invariant -----

  function Below(chain: seq<nat>, k: nat): nat
    requires k < |chain|
  {
    if k == 0 then 0 else chain[k - 1]
  }

  function Above(chain: seq<nat>, k: nat): nat
    requires k < |chain|
  {
    if k + 1 == |chain| then 0 else chain[k + 1]
  }

  ghost predicate Belongs<T>(s: State<T>, o: Owner, a: nat) {
    a in s.heap && a in s.owner && s.owner[a] == o
  }

  /** Distinct allocated nodes that belong to o. */
  ghost predicate Held<T>(s: State<T>, o: Owner, chain: seq<nat>) {
    && (forall k :: 0 <= k < |chain| ==> Belongs(s, o, chain[k]))
    && (forall i, j :: 0 <= i < j < |chain| ==> chain[i] != chain[j])
  }

  ghost predicate LinkedAt<T>(heap: map<nat, Node<T>>, chain: seq<nat>, j: nat, k: nat)
    requires k < |chain|
  {
    chain[k] in heap && heap[chain[k]].link == if k < j then Below(chain, k) else Above(chain, k)
  }

  /** The nodes before place j link to the one below, those from j on to the one above. */
  ghost predicate Turned<T>(heap: map<nat, Node<T>>, chain: seq<nat>, j: nat) {
    forall k :: 0 <= k < |chain| ==> LinkedAt(heap, chain, j, k)
  }

  ghost predicate IsBatch<T>(s: State<T>, chain: seq<nat>, batch: nat) {
    && (forall k :: 0 <= k < |chain| ==> chain[k] in s.heap)
    && batch < |s.batches| && s.batches[batch] == Data(s.heap, chain)
  }

  ghost predicate LocalInv<T>(s: State<T>, t: nat, l: Local) {
    match l
    case Pushing(item, seen) => Belongs(s, Of(t), item) && item != 0 && s.heap[item].link == seen
    case Taken(head, chain, batch) =>
      && Held(s, Of(t), chain) && IsBatch(s, chain, batch) && 0 < |chain| && head == chain[|chain| - 1]
      && Turned(s.heap, chain, |chain|)
    case Reversing(head, prev, chain, at, batch) =>
      && Held(s, Of(t), chain) && IsBatch(s, chain, batch) && 0 < at < |chain|
      && head == chain[at] && prev == chain[at - 1] && Turned(s.heap, chain, at)
    case Popped(head, chain, batch) =>
      && Held(s, Of(t), chain) && IsBatch(s, chain, batch) && 0 < |chain| && head == chain[0]
      && Turned(s.heap, chain, 0)
    case _ => true
  }

  function Flat<T>(batches: seq<seq<T>>): seq<T> {
    if batches == [] then [] else Flat(batches[..|batches| - 1]) + batches[|batches| - 1]
  }

  ghost predicate Queued<T>(s: State<T>) {
    && Held(s, Shared, s.order) && Turned(s.heap, s.order, |s.order|)
    && s.head == (if s.order == [] then 0 else s.order[|s.order| - 1])
    && Flat(s.batches) + Data(s.heap, s.order) == s.pushed
  }

  ghost predicate Inv<T>(s: State<T>) {
    && 0 !in s.heap && s.owner.Keys == s.heap.Keys
    && Queued(s)
    && forall t {:trigger LocalInv(s, t, s.threads[t])} :: 0 <= t < |s.threads| ==> LocalInv(s, t, s.threads[t])
  }

  /** Everything that belongs to o in s still does in s', unchanged. */
  ghost predicate Leaves<T>(s: State<T>, s': State<T>, o: Owner) {
    forall a :: Belongs(s, o, a) ==> Belongs(s', o, a) && s'.heap[a] == s.heap[a]
  }

  /** Nodes that do not belong to thread t stay as they are. */
  ghost predicate OnlyTouches<T>(s: State<T>, s': State<T>, t: nat) {
    forall a :: a in s.heap && a in s.owner && s.owner[a] != Of(t) ==>
      a in s'.heap && a in s'.owner && s'.owner[a] == s.owner[a] && s'.heap[a] == s.heap[a]
  }

  lemma HeldStays<T>(s: State<T>, s': State<T>, o: Owner, chain: seq<nat>)
    requires Leaves(s, s', o) && Held(s, o, chain)
    ensures Held(s', o, chain) && Data(s'.heap, chain) == Data(s.heap, chain)
  {
    forall k | 0 <= k < |chain| ensures Belongs(s', o, chain[k]) && s'.heap[chain[k]] == s.heap[chain[k]] {
      assert Belongs(s, o, chain[k]);
    }
  }

  lemma TurnedStays<T>(s: State<T>, s': State<T>, o: Owner, chain: seq<nat>, j: nat)
    requires Leaves(s, s', o) && Held(s, o, chain) && Turned(s.heap, chain, j)
    ensures Turned(s'.heap, chain, j)
  {
    forall k | 0 <= k < |chain| ensures LinkedAt(s'.heap, chain, j, k) {
      assert Belongs(s, o, chain[k]) && LinkedAt(s.heap, chain, j, k);
    }
  }

  /** Other threads leave the nodes of thread t alone. */
  lemma LocalStays<T>(s: State<T>, s': State<T>, t: nat, l: Local)
    requires LocalInv(s, t, l) && Leaves(s, s', Of(t))
    requires |s.batches| <= |s'.batches| && forall i :: 0 <= i < |s.batches| ==> s'.batches[i] == s.batches[i]
    ensures LocalInv(s', t, l)
  {
    if l.Taken? || l.Reversing? || l.Popped? {
      HeldStays(s, s', Of(t), l.chain);
      TurnedStays(s, s', Of(t), l.chain, if l.Taken? then |l.chain| else if l.Reversing? then l.at else 0);
    }
  }

  lemma QueuedStays<T>(s: State<T>, s': State<T>)
    requires Queued(s) && Leaves(s, s', Shared)
    requires s'.order == s.order && s'.head == s.head && s'.pushed == s.pushed && s'.batches == s.batches
    ensures Queued(s')
  {
    HeldStays(s, s', Shared, s.order);
    TurnedStays(s, s', Shared, s.order, |s.order|);
  }

  /** A step of thread t that leaves the queue and the nodes of others alone. */
  lemma PrivateStep<T>(s: State<T>, s': State<T>, t: nat)
    requires Inv(s) && t < |s.threads| && |s'.threads| == |s.threads|
    requires s'.order == s.order && s'.head == s.head && s'.pushed == s.pushed && s'.batches == s.batches
    requires s'.threads == s.threads[t := s'.threads[t]]
    requires 0 !in s'.heap && s'.owner.Keys == s'.heap.Keys
    requires OnlyTouches(s, s', t)
    requires LocalInv(s', t, s'.threads[t])
    ensures Inv(s')
  {
    QueuedStays(s, s');
    forall u | 0 <= u < |s'.threads| && u != t ensures LocalInv(s', u, s'.threads[u]) {
      LocalStays(s, s', u, s.threads[u]);
    }
  }

  lemma DataSnoc<T>(heap: map<nat, Node<T>>, chain: seq<nat>, item: nat)
    requires item in heap && forall k :: 0 <= k < |chain| ==> chain[k] in heap
    ensures Data(heap, chain + [item]) == Data(heap, chain) + [heap[item].data]
  {
    assert (chain + [item])[..|chain|] == chain;
  }

  /** A node that links to the end of a list extends the list. */
  lemma TurnedExtends<T>(heap: map<nat, Node<T>>, chain: seq<nat>, item: nat)
    requires Turned(heap, chain, |chain|) && item in heap
    requires heap[item].link == if chain == [] then 0 else chain[|chain| - 1]
    ensures Turned(heap, chain + [item], |chain| + 1)
  {
    var more, m := chain + [item], |chain| + 1;
    forall k | 0 <= k < m ensures LinkedAt(heap, more, m, k) {
      if k < |chain| {
        assert LinkedAt(heap, chain, |chain|, k);
      }
    }
  }

  lemma HeldExtends<T>(s: State<T>, s': State<T>, t: nat, item: nat)
    requires Held(s, Shared, s.order) && Belongs(s, Of(t), item)
    requires s' == s.(owner := s.owner[item := Shared], order := s.order + [item])
    ensures Held(s', Shared, s'.order)
  {
    forall k | 0 <= k < |s.order| ensures Belongs(s', Shared, s.order[k]) && s.order[k] != item {
      assert Belongs(s, Shared, s.order[k]);
    }
  }

  lemma LinkQueues<T>(s: State<T>, t: nat)
    requires Inv(s) && t < |s.threads| && s.threads[t].Pushing? && s.head == s.threads[t].seen
    ensures s.threads[t].item in s.heap && Queued(Step(s, t))
    ensures Step(s, t).pushed == s.pushed + [s.heap[s.threads[t].item].data]
  {
    var item := s.threads[t].item;
    assert LocalInv(s, t, s.threads[t]);
    TurnedExtends(s.heap, s.order, item);
    DataSnoc(s.heap, s.order, item);
    var s1 := s.(owner := s.owner[item := Shared], order := s.order + [item]);
    HeldExtends(s, s1, t, item);
    assert Held(Step(s, t), Shared, s1.order);
  }

  lemma LinkKeeps<T>(s: State<T>, t: nat)
    requires Inv(s) && t < |s.threads| && s.threads[t].Pushing? && s.head == s.threads[t].seen
    ensures Inv(Step(s, t))
  {
    LinkQueues(s, t);
    var s' := Step(s, t);
    assert LocalInv(s, t, s.threads[t]);
    forall u | 0 <= u < |s'.threads| && u != t ensures LocalInv(s', u, s'.threads[u]) {
      LocalStays(s, s', u, s.threads[u]);
    }
  }

  lemma RetryKeeps<T>(s: State<T>, t: nat)
    requires Inv(s) && t < |s.threads| && s.threads[t].Pushing? && s.head != s.threads[t].seen
    ensures Inv(Step(s, t))
  {
    assert LocalInv(s, t, s.threads[t]);
    PrivateStep(s, Step(s, t), t);
  }

  lemma FlatSnoc<T>(batches: seq<seq<T>>, b: seq<T>)
    ensures Flat(batches + [b]) == Flat(batches) + b
  {
    assert (batches + [b])[..|batches|] == batches;
  }

  /** The detached nodes change hands. */
  lemma HeldMoves<T>(s: State<T>, s': State<T>, t: nat)
    requires Held(s, Shared, s.order) && s'.heap == s.heap
    requires s'.owner == Reown(s.owner, s.order, Of(t))
    ensures Held(s', Of(t), s.order)
  {
    forall k | 0 <= k < |s.order| ensures Belongs(s', Of(t), s.order[k]) {
      assert Belongs(s, Shared, s.order[k]);
    }
  }

  lemma DetachEmpties<T>(s: State<T>, t: nat)
    requires t < |s.threads| && forall k :: 0 <= k < |s.order| ==> s.order[k] in s.heap
    requires Flat(s.batches) + Data(s.heap, s.order) == s.pushed
    ensures Queued(Detach(s, t))
  {
    var s' := Detach(s, t);
    FlatSnoc(s.batches, Data(s.heap, s.order));
    assert Flat(s'.batches) == s.pushed;
    assert Data(s'.heap, []) == [];
    assert s.pushed + [] == s.pushed;
  }

  lemma DetachTakes<T>(s: State<T>, t: nat)
    requires t < |s.threads| && Held(s, Shared, s.order) && Turned(s.heap, s.order, |s.order|)
    requires s.order != [] && s.head == s.order[|s.order| - 1]
    ensures LocalInv(Detach(s, t), t, Taken(s.head, s.order, |s.batches|))
  {
    HeldMoves(s, Detach(s, t), t);
  }

  lemma DetachKeeps<T>(s: State<T>, t: nat)
    requires Inv(s) && t < |s.threads| && s.head != 0
    requires forall k :: 0 <= k < |s.order| ==> s.order[k] in s.heap
    ensures Inv(Detach(s, t))
  {
    var s' := Detach(s, t);
    DetachEmpties(s, t);
    DetachTakes(s, t);
    forall u | 0 <= u < |s'.threads| && u != t ensures LocalInv(s', u, s'.threads[u]) {
      DetachSpares(s, t, u);
    }
  }

  lemma DetachSpares<T>(s: State<T>, t: nat, u: nat)
    requires Inv(s) && t < |s.threads| && u < |s.threads| && u != t
    requires forall k :: 0 <= k < |s.order| ==> s.order[k] in s.heap
    ensures LocalInv(Detach(s, t), u, s.threads[u])
  {
    DetachLeaves(s, t, u);
    LocalStays(s, Detach(s, t), u, s.threads[u]);
  }

  lemma DetachLeaves<T>(s: State<T>, t: nat, u: nat)
    requires Held(s, Shared, s.order) && t < |s.threads|
    ensures Leaves(s, Detach(s, t), Of(u))
  {
    assert forall k :: 0 <= k < |s.order| ==> Belongs(s, Shared, s.order[k]);
  }

  lemma ExchangeKeeps<T>(s: State<T>, t: nat)
    requires Inv(s) && t < |s.threads| && s.threads[t].Peeked?
    ensures Inv(Step(s, t))
  {
    assert forall k :: 0 <= k < |s.order| ==> Belongs(s, Shared, s.order[k]);
    if s.head == 0 {
      PrivateStep(s, Step(s, t), t);
    } else {
      DetachKeeps(s, t);
    }
  }

  /** Turning one more link around. */
  function Turn<T>(heap: map<nat, Node<T>>, chain: seq<nat>, j: nat): map<nat, Node<T>>
    requires 0 < j <= |chain| && chain[j - 1] in heap
  {
    heap[chain[j - 1] := heap[chain[j - 1]].(link := Above(chain, j - 1))]
  }

  lemma TurnLinks<T>(heap: map<nat, Node<T>>, chain: seq<nat>, j: nat)
    requires 0 < j <= |chain| && Turned(heap, chain, j) && chain[j - 1] in heap
    requires forall a, b :: 0 <= a < b < |chain| ==> chain[a] != chain[b]
    ensures Turned(Turn(heap, chain, j), chain, j - 1)
  {
    var heap', i := Turn(heap, chain, j), j - 1;
    forall k | 0 <= k < |chain| ensures LinkedAt(heap', chain, i, k) {
      assert LinkedAt(heap, chain, j, k);
      if k != i {
        assert chain[k] != chain[i];
      }
    }
  }

  lemma TurnKeeps<T>(s: State<T>, t: nat, chain: seq<nat>, j: nat, batch: nat)
    requires 0 < j <= |chain| && Held(s, Of(t), chain) && IsBatch(s, chain, batch) && Turned(s.heap, chain, j)
    ensures chain[j - 1] in s.heap
    ensures var s' := s.(heap := Turn(s.heap, chain, j));
      Held(s', Of(t), chain) && IsBatch(s', chain, batch) && Turned(s'.heap, chain, j - 1)
  {
    assert Belongs(s, Of(t), chain[j - 1]);
    TurnLinks(s.heap, chain, j);
    var s' := s.(heap := Turn(s.heap, chain, j));
    forall k | 0 <= k < |chain| ensures Belongs(s', Of(t), chain[k]) {
      assert Belongs(s, Of(t), chain[k]);
    }
    assert Data(s'.heap, chain) == Data(s.heap, chain);
  }

  /** A list of one node needs no reversal. */
  lemma SingleKeeps<T>(s: State<T>, t: nat)
    requires Inv(s) && t < |s.threads| && s.threads[t].Taken? && |s.threads[t].chain| == 1
    ensures Inv(Step(s, t))
  {
    var l := s.threads[t];
    assert LocalInv(s, t, l);
    assert LinkedAt(s.heap, l.chain, 1, 0);
    var s' := s.(threads := s.threads[t := Popped(l.head, l.chain, l.batch)]);
    HeldStays(s, s', Of(t), l.chain);
    assert LinkedAt(s'.heap, l.chain, 0, 0);
    assert Turned(s'.heap, l.chain, 0);
    PrivateStep(s, s', t);
  }

  /** The state after thread t has turned the link at place j - 1 and goes on as l. */
  ghost function TurnedAt<T>(s: State<T>, t: nat, chain: seq<nat>, j: nat, l: Local): State<T>
    requires t < |s.threads| && 0 < j <= |chain| && chain[j - 1] in s.heap
  {
    s.(heap := Turn(s.heap, chain, j), threads := s.threads[t := l])
  }

  /** What thread t holds when all links from place j on are turned. */
  function Holding(chain: seq<nat>, j: nat, batch: nat): Local
    requires j < |chain|
  {
    if j == 0 then Popped(chain[0], chain, batch) else Reversing(chain[j], chain[j - 1], chain, j, batch)
  }

  lemma TurnStepKeeps<T>(s: State<T>, t: nat, chain: seq<nat>, j: nat, batch: nat)
    requires Inv(s) && t < |s.threads| && 0 < j <= |chain| && Belongs(s, Of(t), chain[j - 1])
    requires Held(s, Of(t), chain) && IsBatch(s, chain, batch) && Turned(s.heap, chain, j)
    ensures Inv(TurnedAt(s, t, chain, j, Holding(chain, j - 1, batch)))
  {
    var s' := TurnedAt(s, t, chain, j, Holding(chain, j - 1, batch));
    TurnedHolding(s, t, chain, j, batch);
    TurnTouches(s, t, chain, j, s'.threads[t]);
    PrivateStep(s, s', t);
  }

  lemma TurnedHolding<T>(s: State<T>, t: nat, chain: seq<nat>, j: nat, batch: nat)
    requires t < |s.threads| && 0 < j <= |chain| && Belongs(s, Of(t), chain[j - 1])
    requires Held(s, Of(t), chain) && IsBatch(s, chain, batch) && Turned(s.heap, chain, j)
    ensures var l := Holding(chain, j - 1, batch); LocalInv(TurnedAt(s, t, chain, j, l), t, l)
  {
    TurnKeeps(s, t, chain, j, batch);
    HoldingInv(s.(heap := Turn(s.heap, chain, j)), TurnedAt(s, t, chain, j, Holding(chain, j - 1, batch)),
               t, chain, j - 1, batch);
  }

  lemma TurnTouches<T>(s: State<T>, t: nat, chain: seq<nat>, j: nat, l: Local)
    requires t < |s.threads| && 0 < j <= |chain| && Belongs(s, Of(t), chain[j - 1])
    ensures OnlyTouches(s, TurnedAt(s, t, chain, j, l), t)
  {
  }

  lemma HoldingInv<T>(s: State<T>, s': State<T>, t: nat, chain: seq<nat>, j: nat, batch: nat)
    requires j < |chain| && Held(s, Of(t), chain) && IsBatch(s, chain, batch) && Turned(s.heap, chain, j)
    requires s'.heap == s.heap && s'.owner == s.owner && s'.batches == s.batches
    ensures LocalInv(s', t, Holding(chain, j, batch))
  {
    HeldStays(s, s', Of(t), chain);
    TurnedStays(s, s', Of(t), chain, j);
  }

  lemma CutStep<T>(s: State<T>, t: nat)
    requires t < |s.threads| && s.threads[t].Taken?
    requires var l := s.threads[t];
      1 < |l.chain| && l.head == l.chain[|l.chain| - 1] && l.head in s.heap
      && s.heap[l.head].link == l.chain[|l.chain| - 2] != 0
    ensures var l := s.threads[t];
      Step(s, t) == TurnedAt(s, t, l.chain, |l.chain|, Holding(l.chain, |l.chain| - 1, l.batch))
  {
  }

  lemma CutKeeps<T>(s: State<T>, t: nat)
    requires Inv(s) && t < |s.threads| && s.threads[t].Taken? && |s.threads[t].chain| != 1
    ensures Inv(Step(s, t))
  {
    var l := s.threads[t];
    assert LocalInv(s, t, l);
    assert LinkedAt(s.heap, l.chain, |l.chain|, |l.chain| - 1);
    assert Belongs(s, Of(t), l.chain[|l.chain| - 1]) && Belongs(s, Of(t), l.chain[|l.chain| - 2]);
    TurnStepKeeps(s, t, l.chain, |l.chain|, l.batch);
    CutStep(s, t);
  }

  lemma ReverseStep<T>(s: State<T>, t: nat)
    requires t < |s.threads| && s.threads[t].Reversing?
    requires var l := s.threads[t];
      0 < l.at < |l.chain| && l.head == l.chain[l.at] && l.prev == l.chain[l.at - 1] && l.prev in s.heap
      && s.heap[l.prev].link == Below(l.chain, l.at - 1) && (l.at > 1 ==> l.chain[l.at - 2] != 0)
    ensures var l := s.threads[t];
      Step(s, t) == TurnedAt(s, t, l.chain, l.at, Holding(l.chain, l.at - 1, l.batch))
  {
  }

  lemma ReverseKeeps<T>(s: State<T>, t: nat)
    requires Inv(s) && t < |s.threads| && s.threads[t].Reversing?
    ensures Inv(Step(s, t))
  {
    var l := s.threads[t];
    assert LocalInv(s, t, l);
    assert LinkedAt(s.heap, l.chain, l.at, l.at - 1);
    assert Belongs(s, Of(t), l.chain[l.at - 1]);
    TurnStepKeeps(s, t, l.chain, l.at, l.batch);
    assert l.at > 1 ==> Belongs(s, Of(t), l.chain[l.at - 2]);
    ReverseStep(s, t);
  }

  lemma FreeKeeps<T>(s: State<T>, t: nat)
    requires Inv(s) && t < |s.threads| && s.threads[t].Popped?
    ensures Inv(Next(s, Free(t)))
  {
    assert LocalInv(s, t, s.threads[t]);
    PrivateStep(s, Next(s, Free(t)), t);
  }

  lemma NextKeeps<T>(s: State<T>, a: Action<T>)
    requires Inv(s)
    ensures Inv(Next(s, a))
  {
    if a.t < |s.threads| {
      match a
      case StartPush(t) =>
        if s.threads[t] == Idle {
          PrivateStep(s, Next(s, a), t);
        }
      case Allocate(t, data, addr) =>
        if s.threads[t].Loaded? && addr != 0 && addr !in s.heap {
          PrivateStep(s, Next(s, a), t);
        }
      case StartPop(t) =>
        if s.threads[t] == Idle && s.head != 0 {
          PrivateStep(s, Next(s, a), t);
        }
      case Run(t) =>
        match s.threads[t] {
          case Pushing(item, seen) =>
            if s.head == seen {
              LinkKeeps(s, t);
            } else {
              RetryKeeps(s, t);
            }
          case Peeked => ExchangeKeeps(s, t);
          case Taken(_, chain, _) =>
            if |chain| == 1 {
              SingleKeeps(s, t);
            } else {
              CutKeeps(s, t);
            }
          case Reversing(_, _, _, _, _) => ReverseKeeps(s, t);
          case _ =>
        }
      case Free(t) =>
        if s.threads[t].Popped? {
          FreeKeeps(s, t);
        }
    }
  }

  lemma InitInv<T>(n: nat)
    ensures Inv(After<T>(n, []))
  {
    var s := After<T>(n, []);
    assert Data(s.heap, s.order) == [] && Flat(s.batches) == [];
    assert s.pushed == [];
    assert Queued(s);
  }

  lemma {:induction false} AfterInv<T>(n: nat, actions: seq<Action<T>>)
    ensures Inv(After(n, actions)) && |After(n, actions).threads| == n
  {
    if actions == [] {
      InitInv<T>(n);
    } else {
      AfterInv(n, actions[..|actions| - 1]);
      NextKeeps(After(n, actions[..|actions| - 1]), actions[|actions| - 1]);
    }
  }

  // ----- What the queue promises -----

  /** The detached batches one after the other, followed by what is still queued, are the pushed values in the
      order of their compare-and-swaps, each exactly once. */
  lemma NothingLost<T>(n: nat, actions: seq<Action<T>>)
    ensures var s := After(n, actions);
      && (forall k :: 0 <= k < |s.order| ==> s.order[k] in s.heap)
      && Flat(s.batches) + Data(s.heap, s.order) == s.pushed
  {
    AfterInv(n, actions);
    var s := After(n, actions);
    assert forall k :: 0 <= k < |s.order| ==> Belongs(s, Shared, s.order[k]);
  }

  /** Following the links from p visits exactly these values and ends in nullptr. */
  ghost predicate Spells<T>(heap: map<nat, Node<T>>, p: nat, values: seq<T>)
    decreases |values|
  {
    if values == [] then p == 0
    else p in heap && heap[p].data == values[0] && Spells(heap, heap[p].link, values[1..])
  }

  lemma {:induction false} TurnedSpells<T>(heap: map<nat, Node<T>>, chain: seq<nat>, k: nat)
    requires Turned(heap, chain, 0) && k <= |chain| && forall i :: 0 <= i < |chain| ==> chain[i] in heap
    ensures Spells(heap, if k == |chain| then 0 else chain[k], Data(heap, chain)[k..])
    decreases |chain| - k
  {
    if k < |chain| {
      assert LinkedAt(heap, chain, 0, k);
      TurnedSpells(heap, chain, k + 1);
      assert Data(heap, chain)[k..][1..] == Data(heap, chain)[k + 1..];
    }
  }

  lemma PoppedSpells<T>(s: State<T>, t: nat)
    requires Inv(s) && t < |s.threads| && s.threads[t].Popped?
    ensures var l := s.threads[t]; l.batch < |s.batches| && Spells(s.heap, l.head, s.batches[l.batch])
  {
    var l := s.threads[t];
    assert LocalInv(s, t, l);
    TurnedSpells(s.heap, l.chain, 0);
    assert Data(s.heap, l.chain)[0..] == Data(s.heap, l.chain);
  }

  /** What pop_all returns is a finite list that spells its batch, oldest value first. */
  lemma PopAllInOrder<T>(n: nat, actions: seq<Action<T>>, t: nat)
    requires t < n && |After(n, actions).threads| == n && After(n, actions).threads[t].Popped?
    ensures var s := After(n, actions);
      var l := s.threads[t];
      l.batch < |s.batches| && Spells(s.heap, l.head, s.batches[l.batch])
  {
    AfterInv(n, actions);
    PoppedSpells(After(n, actions), t);
  }

  /** push reports an empty queue exactly when its compare-and-swap found the queue empty, and it appends its
      value to the queue. */
  lemma PushReportsEmpty<T>(n: nat, actions: seq<Action<T>>, t: nat)
    requires t < n && |After(n, actions).threads| == n && After(n, actions).threads[t].Pushing?
    requires After(n, actions).head == After(n, actions).threads[t].seen
    ensures var s := After(n, actions);
      var l := s.threads[t];
      && (l.seen == 0 <==> s.order == [])
      && l.item in s.heap && Step(s, t).pushed == s.pushed + [s.heap[l.item].data]
      && Step(s, t).order == s.order + [l.item]
  {
    AfterInv(n, actions);
    var s := After(n, actions);
    LinkQueues(s, t);
    if s.order != [] {
      assert Belongs(s, Shared, s.order[|s.order| - 1]);
    }
  }

  /** The reversal ends: each round leaves one link less to turn. */
  lemma ReversalProgresses<T>(n: nat, actions: seq<Action<T>>, t: nat)
    requires t < n && |After(n, actions).threads| == n && After(n, actions).threads[t].Reversing?
    ensures var l, l' := After(n, actions).threads[t], Step(After(n, actions), t).threads[t];
      l'.Popped? || (l'.Reversing? && l'.at < l.at)
  {
    AfterInv(n, actions);
    var s := After(n, actions);
    var l := s.threads[t];
    assert LocalInv(s, t, l) && Belongs(s, Of(t), l.chain[l.at - 1]) && LinkedAt(s.heap, l.chain, l.at, l.at - 1);
  }
}
