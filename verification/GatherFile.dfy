/** The stream object over the gathered files. */
module GatherFile {
  import opened Basics
  import opened GatherRead
  import opened GatherStream

  datatype Whence = Set | Cur | End

  class Stream {
    const files: seq<seq<Byte>>
    /** The position of each file. */
    var cursors: seq<nat>
    var pos: nat
    var end: nat
    var ends: map<nat, nat>

    ghost predicate Valid()
      reads this
    {
      |cursors| == |files| && end == |Concat(files)| && ends == Index(files) && InRange(files, ends)
    }

    constructor (arg: seq<seq<Byte>>)
      ensures Valid() && files == arg && pos == 0
    {
      files := arg;
      cursors := seq(|arg|, _ => 0);
      pos := 0;
      var e, m := 0, map[];
      for i := 0 to |arg|
        invariant e == Offset(arg, i) && m == IndexTo(arg, i)
      {
        e := e + |arg[i]|;
        if e !in m {
          m := m[e := |m|];
        }
      }
      IndexInRange(arg);
      end := e;
      ends := m;
    }

    /** ends.upper_bound(p) */
    method UpperBound(p: nat) returns (it: Option<nat>)
      ensures it.None? <==> !HasNext(ends, p)
      ensures it.Some? ==> IsNext(ends, p, it.value)
    {
      if exists k :: k in ends && p < k {
        ghost var k :| k in ends && p < k;
        NextExists(ends, p, k);
        var least :| least in ends && p < least && forall k' :: k' in ends && p < k' ==> least <= k';
        it := Some(least);
      } else {
        it := None;
      }
    }

    /** read_at */
    method ReadAt(start: nat, size: nat) returns (buffer: seq<Byte>)
      requires Valid()
      ensures buffer == Result(files, start, size)
    {
      buffer := [];
      if start < end && Min(size, end - start) > 0 {
        ghost var g := GatherFor(files, ends);
        buffer := GatherLoop(start, Min(size, end - start), g);
        ResultIs(files, ends, end, start, size, g);
      } else {
        ResultIsNothing(files, start, size);
      }
    }

    /** read: the position advances by as many bytes as are read. */
    method Read(size: nat) returns (buffer: seq<Byte>)
      requires Valid()
      modifies this`pos, this`cursors
      ensures Valid() && pos == old(pos) + |buffer|
      ensures Outcome(buffer, cursors) == ReadResult(files, old(cursors), old(pos), size)
    {
      buffer := [];
      if pos < end && Min(size, end - pos) > 0 {
        ghost var c, p := cursors, pos;
        ghost var h := ReadingFor(files, ends);
        buffer := SeekingLoop(Min(size, end - pos), h);
        ReadResultIs(files, ends, end, c, p, size, h);
      } else {
        ReadResultIsNothing(files, cursors, pos, size);
      }
    }

    /** seek: a negative position is refused. */
    method Seek(offset: int, whence: Whence) returns (r: Option<nat>)
      requires Valid()
      modifies this`pos
      ensures Valid()
      ensures var target := offset + (match whence case Set => 0 case Cur => old(pos) case End => end);
        if target < 0 then r == None && pos == old(pos) else r == Some(target) && pos == target
    {
      var target := offset + (match whence case Set => 0 case Cur => pos case End => end);
      if target < 0 {
        return None;
      }
      pos := target;
      r := Some(pos);
    }

    /** Positioning the file of entry k from its end, which fails for a position before its start, and reading it. */
    method SeekAndRead(k: nat, count: nat) returns (part: seq<Byte>)
      requires |cursors| == |files| && InRange(files, ends) && k in ends
      modifies this`cursors
      ensures Outcome(part, cursors) == Draw(files, ends, old(cursors), pos, k, count)
    {
      var f := ends[k];
      var target := |files[f]| + pos - k;
      if target >= 0 {
        cursors := cursors[f := target];
      }
      part := FileRead(files[f], cursors[f], count);
      cursors := cursors[f := cursors[f] + |part|];
    }

    /** One turn of the loop of read. */
    method SeekingTurn(k: nat, count: nat, ghost left: nat, ghost buffer: seq<Byte>, ghost h: (seq<nat>, nat, nat) -> Outcome)
      returns (part: seq<Byte>)
      requires |cursors| == |files| && InRange(files, ends) && IsReading(files, ends, h)
      requires IsNext(ends, pos, k) && left > 0 && count == Count(pos, k, left)
      modifies this`pos, this`cursors
      ensures |cursors| == |files| && pos == old(pos) + |part| && |part| <= count
      ensures |part| < count || left == count ==>
        Outcome(buffer + part, cursors) == Before(buffer, h(old(cursors), old(pos), left))
      ensures |part| == count < left ==>
        Before(buffer + part, h(cursors, pos, left - count)) == Before(buffer, h(old(cursors), old(pos), left))
    {
      ghost var before := cursors;
      part := SeekAndRead(k, count);
      LoopTurn(files, ends, h, buffer, before, pos, left, k, Outcome(part, cursors));
      pos := pos + |part|;
    }

    /** The loop of read: every file is positioned from its end before it is read. */
    method SeekingLoop(max: nat, ghost h: (seq<nat>, nat, nat) -> Outcome) returns (buffer: seq<Byte>)
      requires |cursors| == |files| && InRange(files, ends) && max > 0 && IsReading(files, ends, h)
      modifies this`pos, this`cursors
      ensures |cursors| == |files| && pos == old(pos) + |buffer|
      ensures Outcome(buffer, cursors) == h(old(cursors), old(pos), max)
    {
      buffer := [];
      var left := max;
      ghost var want := h(cursors, pos, max);
      var it := UpperBound(pos);
      while it.Some?
        invariant |cursors| == |files| && left > 0 && pos == old(pos) + |buffer|
        invariant (it.None? <==> !HasNext(ends, pos)) && (it.Some? ==> IsNext(ends, pos, it.value))
        invariant want == Before(buffer, h(cursors, pos, left))
        decreases left
      {
        var k := it.value;
        var count := Count(pos, k, left);
        var part := SeekingTurn(k, count, left, buffer, h);
        buffer := buffer + part;
        left := left - count;
        if |part| < count || left == 0 {
          return;
        }
        it := UpperBound(k);
      }
      LoopEnds(files, ends, h, buffer, cursors, pos, left);
    }

    /** The loop over the entries beyond the start. */
    method GatherLoop(start: nat, max: nat, ghost g: (nat, nat) -> seq<Byte>) returns (buffer: seq<Byte>)
      requires max > 0 && InRange(files, ends) && IsGather(files, ends, g)
      ensures buffer == g(start, max)
    {
      buffer := [];
      var p: nat, left: nat := start, max;
      var it := UpperBound(p);
      while it.Some?
        invariant left > 0 && (it.None? <==> !HasNext(ends, p)) && (it.Some? ==> IsNext(ends, p, it.value))
        invariant g(start, max) == buffer + g(p, left)
        decreases left
      {
        var k := it.value;
        var count := Count(p, k, left);
        var part := Part(files, ends, p, k, count);
        GatherLoopTurn(files, ends, g, p, left, k, part);
        Reassociate(buffer, part, g(p + |part|, left - |part|));
        buffer := buffer + part;
        left := left - count;
        p := p + |part|;
        if |part| < count || left == 0 {
          return;
        }
        it := UpperBound(k);
      }
      GatherLoopEnds(files, ends, g, p, left);
    }
  }

  /** Up to size bytes of the row from p on. */
  function Slice(row: seq<Byte>, p: nat, size: nat): seq<Byte> {
    if p < |row| then row[p..p + Min(size, |row| - p)] else []
  }

  /** What a read of the given size at p returns, whatever the files. */
  ghost function Result(files: seq<seq<Byte>>, p: nat, size: nat): seq<Byte> {
    IndexInRange(files);
    if p < |Concat(files)| then Gather(files, Index(files), p, Min(size, |Concat(files)| - p)) else []
  }

  lemma GatherFor(files: seq<seq<Byte>>, m: map<nat, nat>) returns (g: (nat, nat) -> seq<Byte>)
    requires InRange(files, m)
    ensures IsGather(files, m, g)
  {
    g := GatherOf(files, m);
    GatherOfIsGather(files, m);
  }

  lemma ResultIs(files: seq<seq<Byte>>, m: map<nat, nat>, end: nat, p: nat, size: nat, g: (nat, nat) -> seq<Byte>)
    requires m == Index(files) && InRange(files, m) && IsGather(files, m, g) && p < end == |Concat(files)|
    ensures Result(files, p, size) == g(p, Min(size, end - p))
  {
  }

  lemma ResultIsNothing(files: seq<seq<Byte>>, p: nat, size: nat)
    requires p >= |Concat(files)| || size == 0
    ensures Result(files, p, size) == []
  {
    if p < |Concat(files)| {
      IndexInRange(files);
      GatherEnds(files, Index(files), p, 0);
    }
  }

  /** A read returns the slice of the row, if no empty file after the first comes before one that is not. */
  lemma ResultIsSlice(files: seq<seq<Byte>>, p: nat, size: nat)
    requires Ordered(files)
    ensures Result(files, p, size) == Slice(Concat(files), p, size)
  {
    IndexInRange(files);
    if p < |Concat(files)| {
      var n := Min(size, |Concat(files)| - p);
      GatherIsSlice(files, p, n, p + n);
    }
  }

  lemma OrderedBySizes(files: seq<seq<Byte>>, other: seq<seq<Byte>>)
    requires SameSizes(files, other)
    ensures Ordered(files) <==> Ordered(other)
  {
  }

  ghost predicate ReadsSlices(files: seq<seq<Byte>>) {
    forall p, size :: Result(files, p, size) == Slice(Concat(files), p, size)
  }

  /** Exactly for such sizes, reads return slices of the row whatever the contents. */
  lemma SlicesIffOrdered(files: seq<seq<Byte>>)
    ensures (forall other :: SameSizes(files, other) ==> ReadsSlices(other)) <==> Ordered(files)
  {
    if Ordered(files) {
      forall other | SameSizes(files, other) ensures ReadsSlices(other) {
        OrderedBySizes(files, other);
        forall p, size ensures Result(other, p, size) == Slice(Concat(other), p, size) {
          ResultIsSlice(other, p, size);
        }
      }
    } else {
      var other, p := DisorderShows(files);
      assert Result(other, p, 1) != Slice(Concat(other), p, 1);
    }
  }

  /** What read returns, and how it leaves the files, whatever they are. */
  ghost function ReadResult(files: seq<seq<Byte>>, cursors: seq<nat>, p: nat, size: nat): (r: Outcome)
    requires |cursors| == |files|
    ensures |r.cursors| == |cursors|
  {
    IndexInRange(files);
    if p < |Concat(files)| then Reading(files, Index(files), cursors, p, Min(size, |Concat(files)| - p))
    else Outcome([], cursors)
  }

  lemma ReadingFor(files: seq<seq<Byte>>, m: map<nat, nat>) returns (h: (seq<nat>, nat, nat) -> Outcome)
    requires InRange(files, m)
    ensures IsReading(files, m, h)
  {
    h := ReadingOf(files, m);
    ReadingOfIsReading(files, m);
  }

  lemma ReadResultIs(files: seq<seq<Byte>>, m: map<nat, nat>, end: nat, cursors: seq<nat>, p: nat, size: nat,
                     h: (seq<nat>, nat, nat) -> Outcome)
    requires m == Index(files) && InRange(files, m) && IsReading(files, m, h) && p < end == |Concat(files)| && |cursors| == |files|
    ensures ReadResult(files, cursors, p, size) == h(cursors, p, Min(size, end - p))
  {
  }

  lemma ReadResultIsNothing(files: seq<seq<Byte>>, cursors: seq<nat>, p: nat, size: nat)
    requires (p >= |Concat(files)| || size == 0) && |cursors| == |files|
    ensures ReadResult(files, cursors, p, size) == Outcome([], cursors)
  {
    if p < |Concat(files)| {
      IndexInRange(files);
      ReadingEnds(files, Index(files), cursors, p, 0);
    }
  }

  ghost predicate ReadsOn(files: seq<seq<Byte>>, cursors: seq<nat>)
    requires |cursors| == |files|
  {
    forall p, size :: ReadResult(files, cursors, p, size).buffer == Slice(Concat(files), p, size)
  }

  lemma OrderedReadsOn(files: seq<seq<Byte>>, cursors: seq<nat>)
    requires Ordered(files) && |cursors| == |files|
    ensures ReadsOn(files, cursors)
  {
    IndexInRange(files);
    OrderedSeeks(files);
    forall p: nat, size: nat ensures ReadResult(files, cursors, p, size).buffer == Slice(Concat(files), p, size) {
      ResultIsSlice(files, p, size);
      if p < |Concat(files)| {
        ReadingIsGather(files, Index(files), cursors, p, Min(size, |Concat(files)| - p));
      }
    }
  }

  /** The same condition holds for read, wherever the files are positioned. */
  lemma ReadsOnIffOrdered(files: seq<seq<Byte>>, cursors: seq<nat>)
    requires |cursors| == |files|
    ensures (forall other :: SameSizes(files, other) ==> ReadsOn(other, cursors)) <==> Ordered(files)
  {
    if Ordered(files) {
      forall other | SameSizes(files, other) ensures ReadsOn(other, cursors) {
        OrderedBySizes(files, other);
        OrderedReadsOn(other, cursors);
      }
    } else {
      var other, p := DisorderShowsInRead(files, cursors);
      assert ReadResult(other, cursors, p, 1).buffer != Slice(Concat(other), p, 1);
    }
  }

  lemma GatherLoopTurn(files: seq<seq<Byte>>, m: map<nat, nat>, g: (nat, nat) -> seq<Byte>, p: nat, left: nat, k: nat, part: seq<Byte>)
    requires InRange(files, m) && IsGather(files, m, g) && IsNext(m, p, k) && left > 0
    requires part == Part(files, m, p, k, Count(p, k, left))
    ensures |part| < Count(p, k, left) || left == |part| ==> g(p, left) == part
    ensures |part| == Count(p, k, left) < left ==> g(p, left) == part + g(p + |part|, left - |part|)
  {
    GatherTurn(files, m, p, left, k, part);
    if left == |part| {
      GatherEnds(files, m, p + |part|, 0);
    }
  }

  lemma GatherLoopEnds(files: seq<seq<Byte>>, m: map<nat, nat>, g: (nat, nat) -> seq<Byte>, p: nat, left: nat)
    requires InRange(files, m) && IsGather(files, m, g) && !HasNext(m, p)
    ensures g(p, left) == []
  {
    GatherEnds(files, m, p, left);
  }

  lemma Reassociate(a: seq<Byte>, b: seq<Byte>, c: seq<Byte>)
    ensures a + (b + c) == a + b + c
  {
  }
}
