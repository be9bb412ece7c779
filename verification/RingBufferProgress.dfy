/** push and pop come to an end when the other side does not interfere. */
module RingBufferProgress {
  import opened RingBuffer

  /** k steps of the writer alone. */
  function WriterAlone(s: State, k: nat): (r: State)
    requires 0 < |s.buf|
    ensures |r.buf| == |s.buf|
    decreases k
  {
    if k == 0 then s else WriterAlone(Next(s, WriterStep).0, k - 1)
  }

  function ReaderAlone(s: State, k: nat): (r: State)
    requires 0 < |s.buf|
    ensures |r.buf| == |s.buf|
    decreases k
  {
    if k == 0 then s else ReaderAlone(Next(s, ReaderStep).0, k - 1)
  }

  /** How many bytes are still to be copied, counting a restart if the positions have moved on. */
  function ToCopy(s: State): nat
    requires 0 < |s.buf| && s.writer.Pushing?
  {
    var n, w := |s.buf|, s.writer;
    var rest := if w.copied < ToPush(n, w.seen, |w.data|, w.force) then ToPush(n, w.seen, |w.data|, w.force) - w.copied else 0;
    if s.ctr == w.seen then rest else rest + 1 + |w.data|
  }

  /** A push is finished after at most as many steps as there are bytes to copy, and one more: it reports what was
      granted at the current positions. */
  lemma {:induction false} PushFinishes(s: State) returns (k: nat)
    requires 0 < |s.buf| && s.writer.Pushing?
    ensures k <= ToCopy(s) && WriterAlone(s, k).writer.Pushing? && WriterAlone(s, k).ctr == s.ctr
    ensures var n, w := |s.buf|, s.writer;
      var (s', e) := Next(WriterAlone(s, k), WriterStep);
      && s'.writer == WriterIdle && s'.reader == s.reader
      && e == Pushed(w.data, w.force, ToPush(n, s.ctr, |w.data|, w.force))
    decreases ToCopy(s)
  {
    var n, w := |s.buf|, s.writer;
    var (s', e) := Next(s, WriterStep);
    if s'.writer == WriterIdle {
      k := 0;
    } else {
      var more := PushFinishes(s');
      k := more + 1;
      assert WriterAlone(s, k) == WriterAlone(s', more);
    }
  }

  function ToFetch(s: State): nat
    requires 0 < |s.buf| && s.reader.Popping?
  {
    var n, r := |s.buf|, s.reader;
    var rest := if |r.out| < ToPop(n, r.seen, r.size, r.force) then ToPop(n, r.seen, r.size, r.force) - |r.out| else 0;
    if s.ctr == r.seen then rest else rest + 1 + r.size
  }

  /** The same for a pop. */
  lemma {:induction false} PopFinishes(s: State) returns (k: nat)
    requires 0 < |s.buf| && s.reader.Popping?
    ensures k <= ToFetch(s) && ReaderAlone(s, k).reader.Popping? && ReaderAlone(s, k).ctr == s.ctr && ReaderAlone(s, k).buf == s.buf
    ensures var (s', e) := Next(ReaderAlone(s, k), ReaderStep);
      s'.reader == ReaderIdle && s'.writer == s.writer && e.Popped? && e.size == s.reader.size && e.force == s.reader.force
    decreases ToFetch(s)
  {
    var (s', e) := Next(s, ReaderStep);
    if s'.reader == ReaderIdle {
      k := 0;
    } else {
      var more := PopFinishes(s');
      k := more + 1;
      assert ReaderAlone(s, k) == ReaderAlone(s', more);
    }
  }
}
