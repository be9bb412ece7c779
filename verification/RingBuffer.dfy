/** The single-reader, single-writer byte ring of Utilities/simple_ringbuf.cpp.

  push and pop copy bytes outside any lock and then commit the pair of positions with one compare-and-swap;
  when that fails they start over from the positions it returned.  The model interleaves the steps of the two
  threads freely: one load, one copied byte, or one compare-and-swap each.  The flushes only compute on the
  positions, so their compare-and-swap loop is one step. */
module RingBuffer {
  import opened Arithmetic
  import opened Basics

  type Byte = bv8

  const U64 := 0x1_0000_0000_0000_0000

  /** ctr_state */
  datatype Ctr = Ctr(rd: nat, wr: nat)

  // ----- The pure part: sizes for given positions -----

  function Used(n: nat, c: Ctr): (u: nat)
    requires 0 < n
    ensures u < n
  {
    var rd, wr := c.rd % n, c.wr % n;
    if wr >= rd then wr - rd else n + wr - rd
  }

  function Free(n: nat, c: Ctr): (f: nat)
    requires 0 < n
    ensures Used(n, c) + f == n - 1
  {
    var rd, wr := c.rd % n, c.wr % n;
    (if wr >= rd then n + rd - wr else rd - wr) - 1
  }

  /** The cell k places after position p. */
  function Cell(n: nat, p: nat, k: nat): (c: nat)
    requires 0 < n && k < n
    ensures c < n
  {
    if p % n + k < n then p % n + k else p % n + k - n
  }

  /** How many of `size` bytes a push started at these positions accepts. */
  function ToPush(n: nat, c: Ctr, size: nat, force: bool): (k: nat)
    requires 0 < n
    ensures k <= size && k <= Free(n, c)
  {
    if !force && Free(n, c) < size then 0 else Min(size, Free(n, c))
  }

  /** How many bytes a pop of `size` started at these positions returns. */
  function ToPop(n: nat, c: Ctr, size: nat, force: bool): (k: nat)
    requires 0 < n
    ensures k <= size && k <= Used(n, c)
  {
    if !force && Used(n, c) < size then 0 else Min(size, Used(n, c))
  }

  /** 64-bit addition. */
  function Advance(p: nat, k: nat): (r: nat)
    ensures p + k < U64 ==> r == p + k
  {
    (p + k) % 0x1_0000_0000_0000_0000
  }

  // ----- The two threads -----

  datatype Writer = WriterIdle | Pushing(seen: Ctr, data: seq<Byte>, force: bool, copied: nat)
  datatype Reader = ReaderIdle | Popping(seen: Ctr, size: nat, force: bool, out: seq<Byte>)

  datatype State = State(buf: seq<Byte>, ctr: Ctr, writer: Writer, reader: Reader)

  datatype Action =
    | StartPush(data: seq<Byte>, force: bool)
    | WriterStep
    | WriterFlush(cnt: nat)
    | StartPop(size: nat, force: bool)
    | ReaderStep
    | ReaderFlush(cnt: nat)

  /** What a step did to the queue, as its caller learns it. */
  datatype Event =
    | Nothing
    | Pushed(data: seq<Byte>, force: bool, result: nat)
    | Popped(size: nat, force: bool, out: seq<Byte>)
    | FlushedByWriter(cnt: nat)
    | FlushedByReader(cnt: nat)

  function WriterNext(s: State): (State, Event)
    requires 0 < |s.buf| && s.writer.Pushing?
  {
    var n, w := |s.buf|, s.writer;
    var total := ToPush(n, w.seen, |w.data|, w.force);
    if w.copied < total then
      (s.(buf := s.buf[Cell(n, w.seen.wr, w.copied) := w.data[w.copied]],
          writer := w.(copied := w.copied + 1)), Nothing)
    else if s.ctr == w.seen then
      (s.(ctr := s.ctr.(wr := Advance(s.ctr.wr, total)), writer := WriterIdle), Pushed(w.data, w.force, total))
    else
      (s.(writer := w.(seen := s.ctr, copied := 0)), Nothing)
  }

  function ReaderNext(s: State): (State, Event)
    requires 0 < |s.buf| && s.reader.Popping?
  {
    var n, r := |s.buf|, s.reader;
    var total := ToPop(n, r.seen, r.size, r.force);
    if |r.out| < total then
      (s.(reader := r.(out := r.out + [s.buf[Cell(n, r.seen.rd, |r.out|)]])), Nothing)
    else if s.ctr == r.seen then
      (s.(ctr := s.ctr.(rd := Advance(s.ctr.rd, total)), reader := ReaderIdle), Popped(r.size, r.force, r.out))
    else
      (s.(reader := r.(seen := s.ctr, out := [])), Nothing)
  }

  function Next(s: State, a: Action): (r: (State, Event))
    requires 0 < |s.buf|
    ensures |r.0.buf| == |s.buf|
  {
    var n := |s.buf|;
    match a
    case StartPush(data, force) =>
      (if s.writer.WriterIdle? then s.(writer := Pushing(s.ctr, data, force, 0)) else s, Nothing)
    case WriterStep => if s.writer.Pushing? then WriterNext(s) else (s, Nothing)
    case WriterFlush(cnt) =>
      if s.writer.Pushing? then (s, Nothing)
      else if Used(n, s.ctr) == 0 then (s, FlushedByWriter(cnt))
      else (s.(ctr := s.ctr.(wr := Advance(s.ctr.wr, n - Min(Used(n, s.ctr), cnt)))), FlushedByWriter(cnt))
    case StartPop(size, force) =>
      (if s.reader.ReaderIdle? then s.(reader := Popping(s.ctr, size, force, [])) else s, Nothing)
    case ReaderStep => if s.reader.Popping? then ReaderNext(s) else (s, Nothing)
    case ReaderFlush(cnt) =>
      if s.reader.Popping? then (s, Nothing)
      else (s.(ctr := s.ctr.(rd := Advance(s.ctr.rd, Min(Used(n, s.ctr), cnt)))), FlushedByReader(cnt))
  }

  // ----- The bounded queue it implements -----

  /** The bytes in the ring, oldest first. */
  function Queue(s: State): (q: seq<Byte>)
    requires 0 < |s.buf|
    ensures |q| == Used(|s.buf|, s.ctr)
  {
    seq(Used(|s.buf|, s.ctr), i requires 0 <= i < Used(|s.buf|, s.ctr) => s.buf[Cell(|s.buf|, s.ctr.rd, i)])
  }

  /** How much of a request is granted when `avail` is available: all or, with force, what is there. */
  function Granted(size: nat, avail: nat, force: bool): (k: nat) {
    if size <= avail then size else if force then avail else 0
  }

  /** A bounded byte queue: the contents after an event, or None when a queue could not have answered so. */
  function Spec(capacity: nat, q: seq<Byte>, e: Event): Option<seq<Byte>>
    requires |q| <= capacity
  {
    match e
    case Nothing => Some(q)
    case Pushed(data, force, k) =>
      if k == Granted(|data|, capacity - |q|, force) then Some(q + data[..k]) else None
    case Popped(size, force, out) =>
      if out == q[..Granted(size, |q|, force)] then Some(q[|out|..]) else None
    case FlushedByWriter(cnt) => Some(q[..if cnt <= |q| then |q| - cnt else 0])
    case FlushedByReader(cnt) => Some(q[if cnt <= |q| then cnt else |q|..])
  }

  // ----- The invariant -----

  /** `later` is reached from `earlier` by consuming bytes only. */
  predicate Consumed(n: nat, earlier: Ctr, later: Ctr)
    requires 0 < n
  {
    earlier.wr == later.wr && 0 <= later.rd - earlier.rd <= Used(n, earlier)
  }

  ghost predicate WriterInv(s: State)
    requires 0 < |s.buf|
  {
    var n, w := |s.buf|, s.writer;
    w.Pushing? ==>
      && Consumed(n, w.seen, s.ctr)
      && w.copied <= ToPush(n, w.seen, |w.data|, w.force)
      && (forall i :: 0 <= i < w.copied ==> s.buf[Cell(n, w.seen.wr, i)] == w.data[i])
  }

  ghost predicate ReaderInv(s: State)
    requires 0 < |s.buf|
  {
    var n, r := |s.buf|, s.reader;
    r.Popping? ==>
      && r.seen.rd == s.ctr.rd && r.seen.wr <= s.ctr.wr
      && |r.out| <= ToPop(n, r.seen, r.size, r.force)
      && (r.seen.wr == s.ctr.wr ==> r.out <= Queue(s))
  }

  ghost predicate Inv(s: State) {
    0 < |s.buf| && WriterInv(s) && ReaderInv(s)
  }

  // ----- Positions -----

  lemma ConsumeFits(n: nat, c: Ctr, d: nat)
    requires 0 < n && d <= Used(n, c)
    ensures Used(n, Ctr(c.rd + d, c.wr)) == Used(n, c) - d
  {
    ModAdvance(c.rd, d, n);
  }

  lemma ConsumeCell(n: nat, c: Ctr, d: nat, i: nat)
    requires 0 < n && d + i < Used(n, c)
    ensures Cell(n, c.rd + d, i) == Cell(n, c.rd, d + i)
  {
    ModAdvance(c.rd, d, n);
  }

  lemma ProduceFits(n: nat, c: Ctr, k: nat)
    requires 0 < n && k <= Free(n, c)
    ensures Used(n, Ctr(c.rd, c.wr + k)) == Used(n, c) + k
  {
    ModAdvance(c.wr, k, n);
  }

  lemma ProduceCell(n: nat, c: Ctr, i: nat)
    requires 0 < n && i < Free(n, c)
    ensures Cell(n, c.rd, Used(n, c) + i) == Cell(n, c.wr, i)
  {
  }

  lemma RetractFits(n: nat, c: Ctr, k: nat)
    requires 0 < n && k <= Used(n, c)
    ensures Used(n, Ctr(c.rd, c.wr + (n - k))) == Used(n, c) - k
  {
    ModAdvance(c.wr, n - k, n);
  }

  /** A cell the writer may fill is not one that holds a queued byte, nor one it has already filled. */
  lemma FreeCellApart(n: nat, c: Ctr, k: nat, i: nat)
    requires 0 < n && k < Free(n, c)
    ensures i < Used(n, c) ==> Cell(n, c.wr, k) != Cell(n, c.rd, i)
    ensures i < k ==> Cell(n, c.wr, k) != Cell(n, c.wr, i)
  {
  }

  // ----- Steps -----

  /** The next step cannot carry a position past 2^64. */
  predicate NoWrap(s: State) {
    s.ctr.rd + |s.buf| < U64 && s.ctr.wr + |s.buf| < U64
  }

  /** A step keeps the invariant and is a step of the bounded queue. */
  ghost predicate Refines(s: State, a: Action)
    requires 0 < |s.buf|
  {
    var (s', e) := Next(s, a);
    && Inv(s') && |s'.buf| == |s.buf|
    && Spec(|s.buf| - 1, Queue(s), e) == Some(Queue(s'))
  }

  /** Copying a byte leaves the queue alone, even when the reader has moved on since the writer looked. */
  lemma CopyInKeepsQueue(s: State)
    requires Inv(s) && s.writer.Pushing?
    requires s.writer.copied < ToPush(|s.buf|, s.writer.seen, |s.writer.data|, s.writer.force)
    ensures Queue(WriterNext(s).0) == Queue(s)
  {
    var n, w := |s.buf|, s.writer;
    var d := s.ctr.rd - w.seen.rd;
    ConsumeFits(n, w.seen, d);
    assert s.ctr == Ctr(w.seen.rd + d, w.seen.wr);
    forall i | 0 <= i < Used(n, s.ctr)
      ensures Cell(n, w.seen.wr, w.copied) != Cell(n, s.ctr.rd, i)
    {
      FreeCellApart(n, s.ctr, w.copied, i);
    }
  }

  lemma CopyInRefines(s: State)
    requires Inv(s) && s.writer.Pushing?
    requires s.writer.copied < ToPush(|s.buf|, s.writer.seen, |s.writer.data|, s.writer.force)
    ensures Refines(s, WriterStep)
  {
    CopyInKeepsQueue(s);
    var n, w := |s.buf|, s.writer;
    forall i | 0 <= i < w.copied
      ensures Cell(n, w.seen.wr, w.copied) != Cell(n, w.seen.wr, i)
    {
      FreeCellApart(n, w.seen, w.copied, i);
    }
  }

  /** Adding the k bytes that were copied behind the queue. */
  lemma Produce(s: State, s': State, data: seq<Byte>)
    requires 0 < |s.buf| && s'.buf == s.buf && |data| <= Free(|s.buf|, s.ctr)
    requires s'.ctr == Ctr(s.ctr.rd, s.ctr.wr + |data|)
    requires forall i :: 0 <= i < |data| ==> s.buf[Cell(|s.buf|, s.ctr.wr, i)] == data[i]
    ensures Queue(s') == Queue(s) + data
  {
    var n := |s.buf|;
    ProduceFits(n, s.ctr, |data|);
    forall i | 0 <= i < |data| ensures Queue(s')[Used(n, s.ctr) + i] == data[i] {
      ProduceCell(n, s.ctr, i);
    }
  }

  lemma PushRefines(s: State)
    requires Inv(s) && NoWrap(s) && s.writer.Pushing? && s.ctr == s.writer.seen
    requires s.writer.copied == ToPush(|s.buf|, s.writer.seen, |s.writer.data|, s.writer.force)
    ensures Refines(s, WriterStep)
  {
    Produce(s, WriterNext(s).0, s.writer.data[..s.writer.copied]);
  }

  lemma CopyOutRefines(s: State)
    requires Inv(s) && s.reader.Popping?
    requires |s.reader.out| < ToPop(|s.buf|, s.reader.seen, s.reader.size, s.reader.force)
    ensures Refines(s, ReaderStep)
  {
    var s' := ReaderNext(s).0;
    if s.reader.seen.wr == s.ctr.wr {
      assert Queue(s')[|s.reader.out|] == s'.reader.out[|s.reader.out|];
    }
  }

  /** Taking d bytes away at the front. */
  lemma ConsumeRefines(s: State, s': State, d: nat)
    requires Inv(s) && d <= Used(|s.buf|, s.ctr) && s.ctr.rd + d < U64
    requires s' == s.(ctr := s.ctr.(rd := s.ctr.rd + d), reader := ReaderIdle)
    ensures Inv(s') && Queue(s') == Queue(s)[d..]
  {
    var n := |s.buf|;
    ConsumeFits(n, s.ctr, d);
    forall i | 0 <= i < Used(n, s.ctr) - d ensures Queue(s')[i] == Queue(s)[d + i] {
      ConsumeCell(n, s.ctr, d, i);
    }
    if s.writer.Pushing? {
      ConsumeFits(n, s.writer.seen, s.ctr.rd - s.writer.seen.rd);
      assert s.ctr == Ctr(s.writer.seen.rd + (s.ctr.rd - s.writer.seen.rd), s.writer.seen.wr);
    }
  }

  lemma PopRefines(s: State)
    requires Inv(s) && NoWrap(s) && s.reader.Popping? && s.ctr == s.reader.seen
    requires |s.reader.out| == ToPop(|s.buf|, s.reader.seen, s.reader.size, s.reader.force)
    ensures Refines(s, ReaderStep)
  {
    ConsumeRefines(s, ReaderNext(s).0, |s.reader.out|);
  }

  /** Taking the k newest bytes back. */
  lemma Retract(s: State, s': State, k: nat)
    requires 0 < |s.buf| && s'.buf == s.buf && k <= Used(|s.buf|, s.ctr)
    requires s'.ctr == Ctr(s.ctr.rd, s.ctr.wr + (|s.buf| - k))
    ensures Queue(s') == Queue(s)[..Used(|s.buf|, s.ctr) - k]
  {
    RetractFits(|s.buf|, s.ctr, k);
  }

  lemma WriterFlushRefines(s: State, cnt: nat)
    requires Inv(s) && NoWrap(s)
    ensures Refines(s, WriterFlush(cnt))
  {
    if s.writer.WriterIdle? && Used(|s.buf|, s.ctr) != 0 {
      Retract(s, Next(s, WriterFlush(cnt)).0, Min(Used(|s.buf|, s.ctr), cnt));
    }
  }

  lemma ReaderFlushRefines(s: State, cnt: nat)
    requires Inv(s) && NoWrap(s)
    ensures Refines(s, ReaderFlush(cnt))
  {
    if s.reader.ReaderIdle? {
      ConsumeRefines(s, Next(s, ReaderFlush(cnt)).0, Min(Used(|s.buf|, s.ctr), cnt));
    }
  }

  lemma StepRefines(s: State, a: Action)
    requires Inv(s) && NoWrap(s)
    ensures Refines(s, a)
  {
    match a
    case StartPush(data, force) =>
    case WriterStep =>
      if s.writer.Pushing? {
        if s.writer.copied < ToPush(|s.buf|, s.writer.seen, |s.writer.data|, s.writer.force) {
          CopyInRefines(s);
        } else if s.ctr == s.writer.seen {
          PushRefines(s);
        }
      }
    case WriterFlush(cnt) => WriterFlushRefines(s, cnt);
    case StartPop(size, force) =>
    case ReaderStep =>
      if s.reader.Popping? {
        if |s.reader.out| < ToPop(|s.buf|, s.reader.seen, s.reader.size, s.reader.force) {
          CopyOutRefines(s);
        } else if s.ctr == s.reader.seen {
          PopRefines(s);
        }
      }
    case ReaderFlush(cnt) => ReaderFlushRefines(s, cnt);
  }

  // ----- Whole runs -----

  /** A ring for `size` bytes: set_buf_size allocates one more cell. */
  function Init(size: nat): State {
    State(seq(size + 1, i => 0), Ctr(0, 0), WriterIdle, ReaderIdle)
  }

  /** The state after an interleaving, and the events its callers saw, in order. */
  function After(size: nat, actions: seq<Action>): (r: (State, seq<Event>))
    ensures |r.0.buf| == size + 1
  {
    if actions == [] then (Init(size), [])
    else
      var (s, events) := After(size, actions[..|actions| - 1]);
      var (s', e) := Next(s, actions[|actions| - 1]);
      (s', events + [e])
  }

  /** No position comes near 2^64 anywhere along the run. */
  ghost predicate NeverWraps(size: nat, actions: seq<Action>) {
    forall k :: 0 <= k < |actions| ==> NoWrap(After(size, actions[..k]).0)
  }

  /** The bounded queue run on the same events. */
  function SpecRun(capacity: nat, events: seq<Event>): (q: Option<seq<Byte>>)
    ensures q.Some? ==> |q.value| <= capacity
  {
    if events == [] then Some([])
    else
      var q := SpecRun(capacity, events[..|events| - 1]);
      if q.None? then None else Spec(capacity, q.value, events[|events| - 1])
  }

  /** Every interleaving is a run of a bounded FIFO byte queue: each call answers what the queue would, and
      the ring holds the queue's contents. */
  lemma {:induction false} RunRefines(size: nat, actions: seq<Action>)
    requires NeverWraps(size, actions)
    ensures var (s, events) := After(size, actions);
      Inv(s) && SpecRun(size, events) == Some(Queue(s))
  {
    if actions != [] {
      var k := |actions| - 1;
      forall j | 0 <= j < k ensures NoWrap(After(size, actions[..k][..j]).0) {
        assert actions[..k][..j] == actions[..j];
      }
      RunRefines(size, actions[..k]);
      var (s, events) := After(size, actions[..k]);
      StepRefines(s, actions[k]);
      var (s', e) := Next(s, actions[k]);
      assert (events + [e])[..k] == events by {
        EventCount(size, actions[..k]);
      }
    }
  }

  lemma {:induction false} EventCount(size: nat, actions: seq<Action>)
    ensures |After(size, actions).1| == |actions|
  {
    if actions != [] {
      EventCount(size, actions[..|actions| - 1]);
    }
  }

  function BytesIn(events: seq<Event>): seq<Byte> {
    if events == [] then []
    else
      var e := events[|events| - 1];
      BytesIn(events[..|events| - 1]) + if e.Pushed? && e.result <= |e.data| then e.data[..e.result] else []
  }

  function BytesOut(events: seq<Event>): seq<Byte> {
    if events == [] then []
    else
      var e := events[|events| - 1];
      BytesOut(events[..|events| - 1]) + if e.Popped? then e.out else []
  }

  /** Without flushes nothing is lost, repeated or reordered: what was popped, followed by what is still in the
      ring, is what was pushed. */
  lemma FirstInFirstOut(size: nat, actions: seq<Action>)
    requires NeverWraps(size, actions)
    requires forall a :: a in actions ==> !a.WriterFlush? && !a.ReaderFlush?
    ensures var (s, events) := After(size, actions);
      BytesIn(events) == BytesOut(events) + Queue(s)
  {
    RunRefines(size, actions);
    NoFlushEvents(size, actions);
    SpecConserves(size, After(size, actions).1);
  }

  lemma {:induction false} NoFlushEvents(size: nat, actions: seq<Action>)
    requires forall a :: a in actions ==> !a.WriterFlush? && !a.ReaderFlush?
    ensures forall e :: e in After(size, actions).1 ==> !e.FlushedByWriter? && !e.FlushedByReader?
  {
    if actions != [] {
      NoFlushEvents(size, actions[..|actions| - 1]);
      assert actions[|actions| - 1] in actions;
    }
  }

  lemma {:induction false} SpecConserves(capacity: nat, events: seq<Event>)
    requires SpecRun(capacity, events).Some?
    requires forall e :: e in events ==> !e.FlushedByWriter? && !e.FlushedByReader?
    ensures BytesIn(events) == BytesOut(events) + SpecRun(capacity, events).value
  {
    if events != [] {
      var before, e := events[..|events| - 1], events[|events| - 1];
      SpecConserves(capacity, before);
      assert e in events;
      EventConserves(capacity, SpecRun(capacity, before).value, e, BytesIn(before), BytesOut(before));
    }
  }

  /** One event of the bounded queue that is not a flush moves bytes, and loses none. */
  lemma EventConserves(capacity: nat, q: seq<Byte>, e: Event, bytesIn: seq<Byte>, bytesOut: seq<Byte>)
    requires |q| <= capacity && Spec(capacity, q, e).Some? && bytesIn == bytesOut + q
    requires !e.FlushedByWriter? && !e.FlushedByReader?
    ensures bytesIn + (if e.Pushed? && e.result <= |e.data| then e.data[..e.result] else [])
         == (bytesOut + if e.Popped? then e.out else []) + Spec(capacity, q, e).value
  {
    if e.Popped? {
      assert q == e.out + q[|e.out|..];
    }
  }
}
