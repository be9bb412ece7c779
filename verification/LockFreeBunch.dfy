/** The append-only concurrent list lf_bunch of Utilities/lockless.h.

  Nodes live in a heap of addresses (0 is nullptr) and are never freed once linked.  Any number of threads push;
  a step is one load, one evaluation of the predicate or one compare-and-swap; the first load and the allocation of
  the node, which no other thread can tell apart, are one step.  push_if checks its predicate
  against every stored item, but after a failed compare-and-swap only against the items added since. */
module LockFreeBunch {

  /** `guarded` is history: the node was added by push_if. */
  datatype Node<T> = Node(data: T, link: nat, guarded: bool)

  datatype Local =
    | Idle
    | Scanning(item: nat, head_: nat, chk: nat, ptr: nat)    // push_if: the loop over the new part of the list
    | Swapping(item: nat, head_: nat)                        // push_if: the compare-and-swap
    | Pushing(item: nat, head_: nat)                         // push

  /** `order` is history: the linked addresses, in the order of their compare-and-swaps. */
  datatype State<T> = State(heap: map<nat, Node<T>>, head: nat, threads: seq<Local>, order: seq<nat>)

  /** Thread t starts push or push_if, with the address `new` returned; or thread t runs. */
  datatype Action<T> = StartPush(t: nat, data: T, addr: nat) | StartPushIf(t: nat, data: T, addr: nat) | Run(t: nat)

  function Next<T>(pred: (T, T) -> bool, s: State<T>, a: Action<T>): (s': State<T>)
    ensures |s'.threads| == |s.threads|
  {
    match a
    case StartPush(t, data, addr) =>
      if t < |s.threads| && s.threads[t] == Idle && addr != 0 && addr !in s.heap then
        s.(heap := s.heap[addr := Node(data, s.head, false)], threads := s.threads[t := Pushing(addr, s.head)])
      else s
    case StartPushIf(t, data, addr) =>
      if t < |s.threads| && s.threads[t] == Idle && addr != 0 && addr !in s.heap then
        s.(heap := s.heap[addr := Node(data, s.head, true)],
           threads := s.threads[t := Scanning(addr, s.head, 0, s.head)])
      else s
    case Run(t) =>
      if t >= |s.threads| then s
      else (match s.threads[t]
        case Idle => s
        case Scanning(item, head_, chk, ptr) =>
          if ptr == chk then s.(threads := s.threads[t := Swapping(item, head_)])
          else if item in s.heap && ptr in s.heap then
            if pred(s.heap[item].data, s.heap[ptr].data)
            then s.(threads := s.threads[t := Scanning(item, head_, chk, s.heap[ptr].link)])
            else s.(heap := s.heap - {item}, threads := s.threads[t := Idle])
          else s
        case Swapping(item, head_) =>
          if s.head == head_ then s.(head := item, order := s.order + [item], threads := s.threads[t := Idle])
          else if item in s.heap then
            s.(heap := s.heap[item := s.heap[item].(link := s.head)],
               threads := s.threads[t := Scanning(item, s.head, head_, s.head)])
          else s
        case Pushing(item, head_) =>
          if s.head == head_ then s.(head := item, order := s.order + [item], threads := s.threads[t := Idle])
          else if item in s.heap then
            s.(heap := s.heap[item := s.heap[item].(link := s.head)], threads := s.threads[t := Pushing(item, s.head)])
          else s)
  }

  function After<T>(pred: (T, T) -> bool, n: nat, actions: seq<Action<T>>): State<T> {
    if actions == [] then State(map[], 0, seq(n, i => Idle), [])
    else Next(pred, After(pred, n, actions[..|actions| - 1]), actions[|actions| - 1])
  }

  // ----- The invariant -----

  /** The place of a link in the list: 0 for nullptr, k + 1 for the k-th linked node. */
  ghost function Rank(order: seq<nat>, p: nat): (k: nat)
    ensures k <= |order|
    ensures 0 < k ==> order[k - 1] == p
    ensures k == 0 <==> p !in order
  {
    if p in order then
      var k :| 0 <= k < |order| && order[k] == p;
      k + 1
    else 0
  }

  lemma RankOf(order: seq<nat>, k: nat)
    requires k < |order| && forall i, j :: 0 <= i < j < |order| ==> order[i] != order[j]
    ensures Rank(order, order[k]) == k + 1
  {
  }

  predicate IsLink(order: seq<nat>, p: nat) {
    p == 0 || p in order
  }

  /** The item passes the predicate against the linked nodes number lo to hi - 1. */
  ghost predicate Passes<T>(pred: (T, T) -> bool, s: State<T>, item: nat, lo: nat, hi: nat) {
    item in s.heap &&
    forall k :: lo <= k < hi && k < |s.order| ==> s.order[k] in s.heap && pred(s.heap[item].data, s.heap[s.order[k]].data)
  }

  /** The node a thread has allocated but not linked. */
  predicate Owns(l: Local, addr: nat) {
    !l.Idle? && l.item == addr
  }

  ghost predicate LocalInv<T>(pred: (T, T) -> bool, s: State<T>, l: Local) {
    && (!l.Idle? ==> l.item != 0 && l.item in s.heap && l.item !in s.order
                     && IsLink(s.order, l.head_) && s.heap[l.item].link == l.head_
                     && s.heap[l.item].guarded == !l.Pushing?)
    && match l
       case Scanning(item, head_, chk, ptr) =>
         && IsLink(s.order, chk) && IsLink(s.order, ptr)
         && Rank(s.order, chk) <= Rank(s.order, ptr) <= Rank(s.order, head_)
         && Passes(pred, s, item, 0, Rank(s.order, chk))
         && Passes(pred, s, item, Rank(s.order, ptr), Rank(s.order, head_))
       case Swapping(item, head_) => Passes(pred, s, item, 0, Rank(s.order, head_))
       case _ => true
  }

  /** The k-th linked node links to the one before it. */
  ghost predicate LinkedAt<T>(s: State<T>, k: nat)
    requires k < |s.order|
  {
    s.order[k] in s.heap && s.heap[s.order[k]].link == if k == 0 then 0 else s.order[k - 1]
  }

  /** The linked nodes form the list that `order` says, newest at the head. */
  ghost predicate Linked<T>(s: State<T>) {
    && (forall k :: 0 <= k < |s.order| ==> s.order[k] != 0 && s.order[k] in s.heap)
    && (forall i, j :: 0 <= i < j < |s.order| ==> s.order[i] != s.order[j])
    && (forall k :: 0 <= k < |s.order| ==> LinkedAt(s, k))
    && s.head == if s.order == [] then 0 else s.order[|s.order| - 1]
  }

  /** Every node added by push_if passes the predicate against all nodes added before it. */
  ghost predicate Guarded<T>(pred: (T, T) -> bool, s: State<T>) {
    forall k :: 0 <= k < |s.order| && s.order[k] in s.heap && s.heap[s.order[k]].guarded
      ==> Passes(pred, s, s.order[k], 0, k)
  }

  ghost predicate Inv<T>(pred: (T, T) -> bool, s: State<T>) {
    && Linked(s) && Guarded(pred, s)
    && (forall t {:trigger LocalInv(pred, s, s.threads[t])} :: 0 <= t < |s.threads| ==> LocalInv(pred, s, s.threads[t]))
    && (forall t, u :: 0 <= t < u < |s.threads| && !s.threads[t].Idle? && !s.threads[u].Idle?
          ==> s.threads[t].item != s.threads[u].item)
  }

  /** Linking more nodes does not move the ones already linked. */
  lemma RankGrows(order: seq<nat>, more: seq<nat>, p: nat)
    requires order <= more && IsLink(order, p) && 0 !in more
    requires forall i, j :: 0 <= i < j < |more| ==> more[i] != more[j]
    ensures Rank(more, p) == Rank(order, p) && IsLink(more, p)
  {
    if p != 0 {
      RankOf(more, Rank(order, p) - 1);
    }
  }

  /** The linked nodes of s are linked in s' as well, with the same contents. */
  ghost predicate Extends<T>(s: State<T>, s': State<T>) {
    && s.order <= s'.order
    && forall k :: 0 <= k < |s.order| ==>
         s.order[k] in s.heap && s.order[k] in s'.heap && s'.heap[s.order[k]].data == s.heap[s.order[k]].data
  }

  lemma PassesStays<T>(pred: (T, T) -> bool, s: State<T>, s': State<T>, item: nat, lo: nat, hi: nat)
    requires Extends(s, s') && Passes(pred, s, item, lo, hi) && hi <= |s.order|
    requires item in s'.heap && s'.heap[item].data == s.heap[item].data
    ensures Passes(pred, s', item, lo, hi)
  {
    forall k | lo <= k < hi && k < |s'.order|
      ensures s'.order[k] in s'.heap && pred(s'.heap[item].data, s'.heap[s'.order[k]].data)
    {
      assert s'.order[k] == s.order[k];
    }
  }

  lemma ScanStays<T>(pred: (T, T) -> bool, s: State<T>, s': State<T>, l: Local)
    requires Linked(s') && LocalInv(pred, s, l) && Extends(s, s') && l.Scanning?
    requires l.item !in s'.order && l.item in s'.heap && s'.heap[l.item] == s.heap[l.item]
    ensures LocalInv(pred, s', l)
  {
    RankGrows(s.order, s'.order, l.head_);
    RankGrows(s.order, s'.order, l.chk);
    RankGrows(s.order, s'.order, l.ptr);
    PassesStays(pred, s, s', l.item, 0, Rank(s.order, l.chk));
    PassesStays(pred, s, s', l.item, Rank(s.order, l.ptr), Rank(s.order, l.head_));
  }

  /** The list may grow and other threads may write their own nodes: what a thread relies on stays. */
  lemma LocalStays<T>(pred: (T, T) -> bool, s: State<T>, s': State<T>, l: Local)
    requires Linked(s') && LocalInv(pred, s, l) && Extends(s, s')
    requires !l.Idle? ==> l.item !in s'.order && l.item in s'.heap && s'.heap[l.item] == s.heap[l.item]
    ensures LocalInv(pred, s', l)
  {
    match l
    case Idle =>
    case Scanning(_, _, _, _) => ScanStays(pred, s, s', l);
    case Swapping(item, head_) =>
      RankGrows(s.order, s'.order, head_);
      PassesStays(pred, s, s', item, 0, Rank(s.order, head_));
    case Pushing(item, head_) =>
      RankGrows(s.order, s'.order, head_);
  }

  lemma LinkedStays<T>(s: State<T>, s': State<T>)
    requires Linked(s) && s'.order == s.order && s'.head == s.head
    requires forall k :: 0 <= k < |s.order| ==> s.order[k] in s'.heap && s'.heap[s.order[k]] == s.heap[s.order[k]]
    ensures Linked(s') && Extends(s, s')
  {
    forall k | 0 <= k < |s'.order| ensures LinkedAt(s', k) {
      assert LinkedAt(s, k);
    }
  }

  /** A step of thread t that writes no linked node and links nothing. */
  lemma PrivateStep<T>(pred: (T, T) -> bool, s: State<T>, s': State<T>, t: nat)
    requires Inv(pred, s) && t < |s.threads| && |s'.threads| == |s.threads|
    requires s'.order == s.order && s'.head == s.head && s'.threads == s.threads[t := s'.threads[t]]
    requires forall a :: a in s.heap && !Owns(s.threads[t], a) ==> a in s'.heap && s'.heap[a] == s.heap[a]
    requires LocalInv(pred, s', s'.threads[t])
    requires !s'.threads[t].Idle? ==> Owns(s.threads[t], s'.threads[t].item) || s'.threads[t].item !in s.heap
    ensures Inv(pred, s')
  {
    assert LocalInv(pred, s, s.threads[t]);
    LinkedStays(s, s');
    forall u | 0 <= u < |s'.threads| && u != t ensures LocalInv(pred, s', s'.threads[u]) {
      assert LocalInv(pred, s, s.threads[u]);
      LocalStays(pred, s, s', s.threads[u]);
    }
    forall u | 0 <= u < |s'.threads| && u != t && !s.threads[u].Idle? && !s'.threads[t].Idle?
      ensures s.threads[u].item != s'.threads[t].item
    {
      assert LocalInv(pred, s, s.threads[u]);
    }
  }

  /** Following a link goes one place back in the list. */
  lemma LinkRank<T>(s: State<T>, p: nat)
    requires Linked(s) && p in s.order
    ensures p in s.heap && IsLink(s.order, s.heap[p].link)
    ensures Rank(s.order, s.heap[p].link) == Rank(s.order, p) - 1
  {
    var k := Rank(s.order, p);
    assert LinkedAt(s, k - 1);
    if k > 1 {
      RankOf(s.order, k - 2);
    }
  }

  /** Passing one more node brings the scan one place closer to the checked part. */
  lemma ScanAdvances<T>(pred: (T, T) -> bool, s: State<T>, l: Local)
    requires Linked(s) && LocalInv(pred, s, l) && l.Scanning? && l.ptr != l.chk
    ensures l.ptr in s.heap
    ensures pred(s.heap[l.item].data, s.heap[l.ptr].data) ==> LocalInv(pred, s, l.(ptr := s.heap[l.ptr].link))
  {
    assert Rank(s.order, l.chk) < Rank(s.order, l.ptr);
    LinkRank(s, l.ptr);
  }

  /** A step that moves thread t and writes nothing. */
  lemma MoveKeeps<T>(pred: (T, T) -> bool, s: State<T>, t: nat, l: Local)
    requires Inv(pred, s) && t < |s.threads| && LocalInv(pred, s, l)
    requires !l.Idle? && Owns(s.threads[t], l.item)
    ensures Inv(pred, s.(threads := s.threads[t := l]))
  {
    var s' := s.(threads := s.threads[t := l]);
    LinkedStays(s, s');
    LocalStays(pred, s, s', l);
    PrivateStep(pred, s, s', t);
  }

  /** The failed item is deleted; nobody else knows its address. */
  lemma DeleteKeeps<T>(pred: (T, T) -> bool, s: State<T>, t: nat)
    requires Inv(pred, s) && t < |s.threads| && !s.threads[t].Idle?
    ensures Inv(pred, s.(heap := s.heap - {s.threads[t].item}, threads := s.threads[t := Idle]))
  {
    assert LocalInv(pred, s, s.threads[t]);
    PrivateStep(pred, s, s.(heap := s.heap - {s.threads[t].item}, threads := s.threads[t := Idle]), t);
  }

  lemma ScanKeeps<T>(pred: (T, T) -> bool, s: State<T>, t: nat)
    requires Inv(pred, s) && t < |s.threads| && s.threads[t].Scanning?
    ensures Inv(pred, Next(pred, s, Run(t)))
  {
    var l := s.threads[t];
    assert LocalInv(pred, s, l);
    if l.ptr == l.chk {
      MoveKeeps(pred, s, t, Swapping(l.item, l.head_));
    } else {
      ScanAdvances(pred, s, l);
      if pred(s.heap[l.item].data, s.heap[l.ptr].data) {
        MoveKeeps(pred, s, t, l.(ptr := s.heap[l.ptr].link));
      } else {
        DeleteKeeps(pred, s, t);
      }
    }
  }

  /** Linking the node of thread t behind the current head. */
  lemma LinkExtends<T>(pred: (T, T) -> bool, s: State<T>, t: nat)
    requires Inv(pred, s) && t < |s.threads| && (s.threads[t].Swapping? || s.threads[t].Pushing?)
    requires s.head == s.threads[t].head_
    ensures Linked(Next(pred, s, Run(t))) && Extends(s, Next(pred, s, Run(t)))
  {
    assert LocalInv(pred, s, s.threads[t]);
    var s' := Next(pred, s, Run(t));
    forall k | 0 <= k < |s'.order| ensures LinkedAt(s', k) {
      if k < |s.order| {
        assert LinkedAt(s, k);
      }
    }
  }

  lemma LinkIsGuarded<T>(pred: (T, T) -> bool, s: State<T>, t: nat)
    requires Inv(pred, s) && t < |s.threads| && (s.threads[t].Swapping? || s.threads[t].Pushing?)
    requires s.head == s.threads[t].head_
    ensures Guarded(pred, Next(pred, s, Run(t)))
  {
    var s' := Next(pred, s, Run(t));
    var l := s.threads[t];
    assert LocalInv(pred, s, l);
    LinkExtends(pred, s, t);
    if s.order != [] {
      RankOf(s.order, |s.order| - 1);
    }
    forall k | 0 <= k < |s'.order| && s'.order[k] in s'.heap && s'.heap[s'.order[k]].guarded
      ensures Passes(pred, s', s'.order[k], 0, k)
    {
      assert Passes(pred, s, s'.order[k], 0, k);
      PassesStays(pred, s, s', s'.order[k], 0, k);
    }
  }

  lemma LinkKeeps<T>(pred: (T, T) -> bool, s: State<T>, t: nat)
    requires Inv(pred, s) && t < |s.threads| && (s.threads[t].Swapping? || s.threads[t].Pushing?)
    requires s.head == s.threads[t].head_
    ensures Inv(pred, Next(pred, s, Run(t)))
  {
    var s' := Next(pred, s, Run(t));
    LinkExtends(pred, s, t);
    LinkIsGuarded(pred, s, t);
    forall u | 0 <= u < |s'.threads| && u != t ensures LocalInv(pred, s', s'.threads[u]) {
      assert LocalInv(pred, s, s.threads[u]);
      LocalStays(pred, s, s', s.threads[u]);
    }
  }

  lemma RetryKeeps<T>(pred: (T, T) -> bool, s: State<T>, t: nat)
    requires Inv(pred, s) && t < |s.threads| && (s.threads[t].Swapping? || s.threads[t].Pushing?)
    requires s.head != s.threads[t].head_
    ensures Inv(pred, Next(pred, s, Run(t)))
  {
    var s' := Next(pred, s, Run(t));
    assert LocalInv(pred, s, s.threads[t]);
    if s.order != [] {
      RankOf(s.order, |s.order| - 1);
    }
    PrivateStep(pred, s, s', t);
  }

  lemma NextKeeps<T>(pred: (T, T) -> bool, s: State<T>, a: Action<T>)
    requires Inv(pred, s)
    ensures Inv(pred, Next(pred, s, a))
  {
    if a.Run? {
      if a.t < |s.threads| && s.threads[a.t].Scanning? {
        ScanKeeps(pred, s, a.t);
      } else if a.t < |s.threads| && !s.threads[a.t].Idle? {
        if s.head == s.threads[a.t].head_ {
          LinkKeeps(pred, s, a.t);
        } else {
          RetryKeeps(pred, s, a.t);
        }
      }
    } else if a.t < |s.threads| && s.threads[a.t] == Idle && a.addr != 0 && a.addr !in s.heap {
      PrivateStep(pred, s, Next(pred, s, a), a.t);
    }
  }

  lemma {:induction false} AfterInv<T>(pred: (T, T) -> bool, n: nat, actions: seq<Action<T>>)
    ensures Inv(pred, After(pred, n, actions)) && |After(pred, n, actions).threads| == n
  {
    if actions != [] {
      AfterInv(pred, n, actions[..|actions| - 1]);
      NextKeeps(pred, After(pred, n, actions[..|actions| - 1]), actions[|actions| - 1]);
    }
  }

  // ----- What push_if promises -----

  /** For every two stored items of which the later was added by push_if, the predicate holds between the later
      and the earlier one, although a retry looks at the new part of the list only. */
  lemma PushIfChecksAll<T>(pred: (T, T) -> bool, n: nat, actions: seq<Action<T>>, i: nat, j: nat)
    requires i < j < |After(pred, n, actions).order|
    ensures var s := After(pred, n, actions);
      && s.order[i] in s.heap && s.order[j] in s.heap
      && (s.heap[s.order[j]].guarded ==> pred(s.heap[s.order[j]].data, s.heap[s.order[i]].data))
  {
    AfterInv(pred, n, actions);
    var s := After(pred, n, actions);
    if s.heap[s.order[j]].guarded {
      assert Passes(pred, s, s.order[j], 0, j);
    }
  }

  /** Hence keys are unique when every item is added under a predicate that demands different keys. */
  lemma UniqueKeys<T(!new), K>(pred: (T, T) -> bool, key: T -> K, n: nat, actions: seq<Action<T>>, i: nat, j: nat)
    requires forall x, y :: pred(x, y) ==> key(x) != key(y)
    requires forall k :: 0 <= k < |actions| ==> !actions[k].StartPush?
    requires i < j < |After(pred, n, actions).order|
    ensures var s := After(pred, n, actions);
      s.order[i] in s.heap && s.order[j] in s.heap && key(s.heap[s.order[i]].data) != key(s.heap[s.order[j]].data)
  {
    OnlyGuarded(pred, n, actions);
    PushIfChecksAll(pred, n, actions, i, j);
    var s := After(pred, n, actions);
    assert pred(s.heap[s.order[j]].data, s.heap[s.order[i]].data);
  }

  lemma {:induction false} OnlyGuarded<T>(pred: (T, T) -> bool, n: nat, actions: seq<Action<T>>)
    requires forall k :: 0 <= k < |actions| ==> !actions[k].StartPush?
    ensures forall a :: a in After(pred, n, actions).heap ==> After(pred, n, actions).heap[a].guarded
  {
    if actions != [] {
      OnlyGuarded(pred, n, actions[..|actions| - 1]);
    }
  }

  /** push_if gives up only when a stored item fails the predicate. */
  lemma RefusalIsJustified<T>(pred: (T, T) -> bool, n: nat, actions: seq<Action<T>>, t: nat)
    requires t < n && |After(pred, n, actions).threads| == n && After(pred, n, actions).threads[t].Scanning?
    requires Next(pred, After(pred, n, actions), Run(t)).threads[t] == Idle
    ensures var s := After(pred, n, actions);
      var item := s.threads[t].item;
      && item in s.heap && item !in Next(pred, s, Run(t)).heap
      && exists k :: 0 <= k < |s.order| && s.order[k] in s.heap && !pred(s.heap[item].data, s.heap[s.order[k]].data)
  {
    AfterInv(pred, n, actions);
    var s := After(pred, n, actions);
    var l := s.threads[t];
    assert LocalInv(pred, s, l);
    var k := Rank(s.order, l.ptr) - 1;
    assert s.order[k] == l.ptr;
  }
}
