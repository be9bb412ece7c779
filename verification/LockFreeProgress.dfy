/** push and pop_all of the queue come to an end when no other thread interferes. */
module LockFreeQueueProgress {
  import opened LockFreeQueue

  /** k steps of thread t. */
  function Alone<T>(s: State<T>, t: nat, k: nat): State<T>
    decreases k
  {
    if k == 0 then s else Alone(Next(s, Run(t)), t, k - 1)
  }

  /** With its node allocated, push links it at once, or after one more attempt, and appends its value. */
  lemma PushGoesThrough<T>(s: State<T>, t: nat)
    requires Inv(s) && t < |s.threads| && s.threads[t].Pushing?
    ensures var l := s.threads[t]; var k := if s.head == l.seen then 1 else 2;
      && l.item in s.heap
      && Alone(s, t, k).threads == s.threads[t := Idle] && Alone(s, t, k).pushed == s.pushed + [s.heap[l.item].data]
      && Alone(s, t, k).order == s.order + [l.item] && Alone(s, t, k).batches == s.batches
  {
    var l := s.threads[t];
    assert LocalInv(s, t, l);
    assert Belongs(s, Of(t), l.item);
    var s1 := Next(s, Run(t));
    assert Alone(s, t, 1) == Alone(s1, t, 0) == s1;
    assert Alone(s, t, 2) == Alone(s1, t, 1) == Alone(Next(s1, Run(t)), t, 0) == Next(s1, Run(t));
    if s.head != l.seen {
      assert s1.threads[t := Idle] == s.threads[t := Idle];
    }
  }

  lemma AloneOnce<T>(s: State<T>, t: nat)
    ensures Alone(s, t, 1) == Next(s, Run(t))
  {
    assert Alone(s, t, 1) == Alone(Next(s, Run(t)), t, 0);
  }

  /** How many steps of pop_all are left once the list is detached. */
  function Left(l: Local): nat {
    match l
    case Taken(_, chain, _) => |chain| + 1
    case Reversing(_, _, _, at, _) => at
    case _ => 0
  }

  lemma ReversalAdvances<T>(s: State<T>, t: nat)
    requires Inv(s) && t < |s.threads| && (s.threads[t].Taken? || s.threads[t].Reversing?)
    ensures var s' := Next(s, Run(t)); var l, l' := s.threads[t], s'.threads[t];
      && s'.pushed == s.pushed && s'.head == s.head && s'.order == s.order && s'.batches == s.batches
      && (l'.Popped? || (l'.Reversing? && Left(l') < Left(l))) && l'.batch == l.batch
  {
    var l := s.threads[t];
    assert LocalInv(s, t, l);
    match l
    case Taken(head, chain, batch) =>
      assert Belongs(s, Of(t), chain[|chain| - 1]) && LinkedAt(s.heap, chain, |chain|, |chain| - 1);
    case Reversing(head, prev, chain, at, batch) =>
      assert Belongs(s, Of(t), chain[at - 1]) && LinkedAt(s.heap, chain, at, at - 1);
  }

  lemma {:induction false} ReversalEnds<T>(s: State<T>, t: nat) returns (k: nat)
    requires Inv(s) && t < |s.threads| && (s.threads[t].Taken? || s.threads[t].Reversing?)
    ensures var s' := Alone(s, t, k);
      && Inv(s') && |s'.threads| == |s.threads| && s'.threads[t].Popped? && s'.threads[t].batch == s.threads[t].batch
      && s'.pushed == s.pushed && s'.head == s.head && s'.order == s.order && s'.batches == s.batches
    decreases Left(s.threads[t])
  {
    ReversalAdvances(s, t);
    NextKeeps(s, Run(t));
    var s' := Next(s, Run(t));
    if s'.threads[t].Popped? {
      k := 1;
      AloneOnce(s, t);
    } else {
      var j := ReversalEnds(s', t);
      k := j + 1;
    }
  }

  lemma DetachStep<T>(s: State<T>, t: nat)
    requires Inv(s) && t < |s.threads| && s.threads[t].Peeked? && s.head != 0
    ensures forall i :: 0 <= i < |s.order| ==> s.order[i] in s.heap
    ensures var s' := Next(s, Run(t));
      && s'.head == 0 && s'.order == [] && s'.pushed == s.pushed && s'.batches == s.batches + [Data(s.heap, s.order)]
      && s'.threads[t] == Taken(s.head, s.order, |s.batches|)
  {
    assert forall i :: 0 <= i < |s.order| ==> Belongs(s, Shared, s.order[i]);
    assert Next(s, Run(t)) == Detach(s, t);
  }

  /** The batch that a detached list turns into. */
  lemma BatchEnds<T>(s: State<T>, t: nat) returns (k: nat)
    requires Inv(s) && t < |s.threads| && s.threads[t].Taken? && s.threads[t].batch < |s.batches|
    ensures var s' := Alone(s, t, k);
      && s'.head == s.head && s'.order == s.order && s'.pushed == s.pushed
      && |s'.threads| == |s.threads| && s'.threads[t].Popped?
      && Spells(s'.heap, s'.threads[t].head, s.batches[s.threads[t].batch])
  {
    k := ReversalEnds(s, t);
    PoppedSpells(Alone(s, t, k), t);
  }

  lemma DetachReady<T>(s: State<T>, t: nat, values: seq<T>)
    requires Inv(s) && t < |s.threads| && s.threads[t].Peeked? && s.head != 0
    requires (forall i :: 0 <= i < |s.order| ==> s.order[i] in s.heap) && values == Data(s.heap, s.order)
    ensures var s1 := Next(s, Run(t));
      && Inv(s1) && s1.threads[t].Taken? && s1.threads[t].batch < |s1.batches| && s1.batches[s1.threads[t].batch] == values
      && s1.head == 0 && s1.order == [] && s1.pushed == s.pushed
  {
    DetachStep(s, t);
    NextKeeps(s, Run(t));
  }

  /** pop_all that finds the queue not empty returns all that is queued at its exchange, oldest first, and leaves
      the queue empty. */
  lemma PopTakesAll<T>(s: State<T>, t: nat) returns (k: nat)
    requires Inv(s) && t < |s.threads| && s.threads[t].Peeked? && s.head != 0
    ensures forall i :: 0 <= i < |s.order| ==> s.order[i] in s.heap
    ensures var s' := Alone(s, t, k);
      && s'.head == 0 && s'.order == [] && s'.pushed == s.pushed
      && |s'.threads| == |s.threads| && s'.threads[t].Popped?
      && Spells(s'.heap, s'.threads[t].head, Data(s.heap, s.order))
  {
    DetachStep(s, t);
    DetachReady(s, t, Data(s.heap, s.order));
    var j := BatchEnds(Next(s, Run(t)), t);
    k := j + 1;
    AloneMore(s, t, j);
  }

  lemma AloneMore<T>(s: State<T>, t: nat, j: nat)
    ensures Alone(s, t, j + 1) == Alone(Next(s, Run(t)), t, j)
  {
  }
}

/** push_if comes to an end when no other thread interferes, and says whether the item fits. */
module LockFreeBunchProgress {
  import opened LockFreeBunch

  function Alone<T>(pred: (T, T) -> bool, s: State<T>, t: nat, k: nat): State<T>
    decreases k
  {
    if k == 0 then s else Alone(pred, Next(pred, s, Run(t)), t, k - 1)
  }

  /** The item passes the predicate against every stored item. */
  ghost predicate Fits<T>(pred: (T, T) -> bool, s: State<T>, item: nat) {
    Passes(pred, s, item, 0, |s.order|)
  }

  ghost function Left<T>(s: State<T>, l: Local): int {
    match l
    case Scanning(_, head_, chk, ptr) =>
      (if head_ == s.head then 2 else |s.order| + 5) + Rank(s.order, ptr) - Rank(s.order, chk)
    case Swapping(_, head_) => if head_ == s.head then 1 else |s.order| + 4
    case _ => 0
  }

  lemma HeadRank<T>(s: State<T>)
    requires Linked(s)
    ensures IsLink(s.order, s.head) && Rank(s.order, s.head) == |s.order|
  {
    if s.order != [] {
      RankOf(s.order, |s.order| - 1);
    }
  }

  lemma ScanMoves<T>(pred: (T, T) -> bool, s: State<T>, t: nat)
    requires Inv(pred, s) && t < |s.threads| && s.threads[t].Scanning?
    ensures var s' := Next(pred, s, Run(t)); var l, l' := s.threads[t], s'.threads[t];
      && s'.head == s.head && s'.order == s.order
      && ((l' == Idle && !Fits(pred, s, l.item))
          || (s'.heap == s.heap && (l'.Scanning? || l'.Swapping?) && l'.item == l.item && Left(s', l') < Left(s, l)))
  {
    var l := s.threads[t];
    assert LocalInv(pred, s, l);
    if l.ptr != l.chk {
      ScanAdvances(pred, s, l);
      LinkRank(s, l.ptr);
      assert s.order[Rank(s.order, l.ptr) - 1] == l.ptr;
    }
  }

  lemma SwapMoves<T>(pred: (T, T) -> bool, s: State<T>, t: nat)
    requires Inv(pred, s) && t < |s.threads| && s.threads[t].Swapping?
    ensures var s' := Next(pred, s, Run(t)); var l, l' := s.threads[t], s'.threads[t];
      if s.head == l.head_ then l' == Idle && s'.order == s.order + [l.item] && Fits(pred, s, l.item)
      else
        && s'.head == s.head && s'.order == s.order && l'.Scanning? && l'.item == l.item && Left(s', l') < Left(s, l)
        && (Fits(pred, s', l.item) <==> Fits(pred, s, l.item))
  {
    var l := s.threads[t];
    assert LocalInv(pred, s, l);
    HeadRank(s);
    if s.head != l.head_ {
      SameFit(pred, s, Next(pred, s, Run(t)), l.item);
    }
  }

  /** After a failed compare-and-swap exactly the items added since the last look are left to check. */
  lemma RetryChecksNew<T>(pred: (T, T) -> bool, s: State<T>, t: nat)
    requires Inv(pred, s) && t < |s.threads| && s.threads[t].Swapping? && s.head != s.threads[t].head_
    ensures var s' := Next(pred, s, Run(t)); var l, l' := s.threads[t], s'.threads[t];
      && l'.Scanning? && s'.order == s.order && Rank(s.order, l'.ptr) == |s.order|
      && s.order[Rank(s.order, l'.chk)..] == s.order[Rank(s.order, l.head_)..] != []
  {
    assert LocalInv(pred, s, s.threads[t]);
    HeadRank(s);
  }

  lemma SameFit<T>(pred: (T, T) -> bool, s: State<T>, s': State<T>, item: nat)
    requires s'.order == s.order && s'.heap.Keys == s.heap.Keys
    requires forall a :: a in s.heap ==> s'.heap[a].data == s.heap[a].data
    ensures Fits(pred, s', item) <==> Fits(pred, s, item)
  {
  }

  /** push_if on its own links its item exactly when the item passes the predicate against all stored items, and
      leaves the list alone otherwise. */
  lemma {:induction false} PushIfDecides<T>(pred: (T, T) -> bool, s: State<T>, t: nat) returns (k: nat)
    requires Inv(pred, s) && t < |s.threads| && (s.threads[t].Scanning? || s.threads[t].Swapping?)
    ensures var s' := Alone(pred, s, t, k); var item := s.threads[t].item;
      && |s'.threads| == |s.threads| && s'.threads[t] == Idle
      && s'.order == s.order + (if Fits(pred, s, item) then [item] else [])
    decreases Left(s, s.threads[t])
  {
    var l, s' := s.threads[t], Next(pred, s, Run(t));
    NextKeeps(pred, s, Run(t));
    PushIfAdvances(pred, s, t);
    if s'.threads[t] == Idle {
      k := 1;
      AloneOnce(pred, s, t);
    } else {
      var j := PushIfDecides(pred, s', t);
      k := j + 1;
    }
  }

  lemma AloneOnce<T>(pred: (T, T) -> bool, s: State<T>, t: nat)
    ensures Alone(pred, s, t, 1) == Next(pred, s, Run(t))
  {
    assert Alone(pred, s, t, 1) == Alone(pred, Next(pred, s, Run(t)), t, 0);
  }

  /** One step of push_if ends the call, rightly, or leaves less to do and the question open. */
  lemma PushIfAdvances<T>(pred: (T, T) -> bool, s: State<T>, t: nat)
    requires Inv(pred, s) && t < |s.threads| && (s.threads[t].Scanning? || s.threads[t].Swapping?)
    ensures var s', item := Next(pred, s, Run(t)), s.threads[t].item; var l' := s'.threads[t];
      if l' == Idle then s'.order == s.order + (if Fits(pred, s, item) then [item] else [])
      else
        && (l'.Scanning? || l'.Swapping?) && l'.item == item && s'.order == s.order
        && 0 <= Left(s', l') < Left(s, s.threads[t]) && (Fits(pred, s', item) <==> Fits(pred, s, item))
  {
    var l, s' := s.threads[t], Next(pred, s, Run(t));
    assert LocalInv(pred, s, l);
    if l.Scanning? {
      ScanMoves(pred, s, t);
      if s'.threads[t] != Idle {
        SameFit(pred, s, s', l.item);
      } else {
        assert s.order + [] == s.order;
      }
    } else {
      SwapMoves(pred, s, t);
    }
    LeftIsNat(pred, s, l);
    NextKeeps(pred, s, Run(t));
    LeftIsNat(pred, s', s'.threads[t]);
  }

  lemma LeftIsNat<T>(pred: (T, T) -> bool, s: State<T>, l: Local)
    requires LocalInv(pred, s, l)
    ensures 0 <= Left(s, l)
  {
  }

  /** push links its item at once, or after one more attempt. */
  lemma PushGoesThrough<T>(pred: (T, T) -> bool, s: State<T>, t: nat)
    requires Inv(pred, s) && t < |s.threads| && s.threads[t].Pushing?
    ensures var l := s.threads[t]; var s' := Alone(pred, s, t, if s.head == l.head_ then 1 else 2);
      && s'.threads == s.threads[t := Idle] && s'.order == s.order + [l.item] && s'.head == l.item
      && l.item in s'.heap && s'.heap[l.item].link == s.head
  {
    var l := s.threads[t];
    assert LocalInv(pred, s, l);
    var s1 := Next(pred, s, Run(t));
    assert Alone(pred, s, t, 1) == Alone(pred, s1, t, 0) == s1;
    assert Alone(pred, s, t, 2) == Alone(pred, s1, t, 1) == Alone(pred, Next(pred, s1, Run(t)), t, 0);
    if s.head != l.head_ {
      assert s1.threads[t := Idle] == s.threads[t := Idle];
    }
  }
}
