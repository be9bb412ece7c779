/** What read finds, which positions each file from its end before reading it.  If that fails, the file is read from
    where an earlier read left it. */
module GatherRead {
  import opened GatherStream

  /** The bytes read and the positions of the files afterwards. */
  datatype Outcome = Outcome(buffer: seq<Byte>, cursors: seq<nat>)

  /** Positioning the file of entry k from its end, which fails for a position before its start, and reading it. */
  function Draw(files: seq<seq<Byte>>, m: map<nat, nat>, cursors: seq<nat>, p: nat, k: nat, count: nat): (r: Outcome)
    requires InRange(files, m) && k in m && |cursors| == |files|
    ensures |r.buffer| <= count && |r.cursors| == |cursors|
  {
    var f := m[k];
    var target := |files[f]| + p - k;
    var at := if target >= 0 then target else cursors[f];
    var part := FileRead(files[f], at, count);
    Outcome(part, cursors[f := at + |part|])
  }

  /** What the loop of read gathers from p on, if it goes from entry to entry by `next`. */
  function Chase(files: seq<seq<Byte>>, m: map<nat, nat>, next: nat -> nat, cursors: seq<nat>, p: nat, size: nat): (r: Outcome)
    requires InRange(files, m) && |cursors| == |files|
    ensures |r.buffer| <= size && |r.cursors| == |cursors|
    decreases size
  {
    var k := next(p);
    if size == 0 || k <= p || k !in m then Outcome([], cursors)
    else
      var one := Draw(files, m, cursors, p, k, Count(p, k, size));
      if |one.buffer| < Count(p, k, size) then one
      else Before(one.buffer, Chase(files, m, next, one.cursors, p + |one.buffer|, size - |one.buffer|))
  }

  function Before(buffer: seq<Byte>, r: Outcome): Outcome {
    Outcome(buffer + r.buffer, r.cursors)
  }

  ghost function Reading(files: seq<seq<Byte>>, m: map<nat, nat>, cursors: seq<nat>, p: nat, size: nat): (r: Outcome)
    requires InRange(files, m) && |cursors| == |files|
    ensures |r.buffer| <= size && |r.cursors| == |cursors|
  {
    Chase(files, m, NextOf(m), cursors, p, size)
  }

  lemma ReadingEnds(files: seq<seq<Byte>>, m: map<nat, nat>, cursors: seq<nat>, p: nat, size: nat)
    requires InRange(files, m) && |cursors| == |files| && (size == 0 || !HasNext(m, p))
    ensures Reading(files, m, cursors, p, size) == Outcome([], cursors)
  {
    assert NextOf(m)(p) == NextKey(m, p);
  }

  lemma ReadingTurn(files: seq<seq<Byte>>, m: map<nat, nat>, cursors: seq<nat>, p: nat, size: nat, k: nat, one: Outcome)
    requires InRange(files, m) && |cursors| == |files| && IsNext(m, p, k) && size > 0
    requires one == Draw(files, m, cursors, p, k, Count(p, k, size))
    ensures Reading(files, m, cursors, p, size)
         == if |one.buffer| < Count(p, k, size) then one
            else Before(one.buffer, Reading(files, m, one.cursors, p + |one.buffer|, size - |one.buffer|))
  {
    NextUnique(m, p, k);
  }

  /** The same with the function value h for Reading, as the loop of read uses it. */
  ghost predicate IsReading(files: seq<seq<Byte>>, m: map<nat, nat>, h: (seq<nat>, nat, nat) -> Outcome)
    requires InRange(files, m)
  {
    forall cursors, p, size {:trigger Reading(files, m, cursors, p, size)} ::
      |cursors| == |files| ==> h(cursors, p, size) == Reading(files, m, cursors, p, size)
  }

  ghost function ReadingOf(files: seq<seq<Byte>>, m: map<nat, nat>): (seq<nat>, nat, nat) -> Outcome
    requires InRange(files, m)
  {
    (cursors: seq<nat>, p: nat, size: nat) =>
      if |cursors| == |files| then Reading(files, m, cursors, p, size) else Outcome([], cursors)
  }

  lemma ReadingOfIsReading(files: seq<seq<Byte>>, m: map<nat, nat>)
    requires InRange(files, m)
    ensures IsReading(files, m, ReadingOf(files, m))
  {
  }

  lemma LoopTurn(files: seq<seq<Byte>>, m: map<nat, nat>, h: (seq<nat>, nat, nat) -> Outcome,
                 buffer: seq<Byte>, cursors: seq<nat>, p: nat, left: nat, k: nat, one: Outcome)
    requires InRange(files, m) && |cursors| == |files| && IsReading(files, m, h) && IsNext(m, p, k) && left > 0
    requires one == Draw(files, m, cursors, p, k, Count(p, k, left))
    ensures |one.buffer| < Count(p, k, left) || left == |one.buffer| ==>
      Before(buffer, h(cursors, p, left)) == Outcome(buffer + one.buffer, one.cursors)
    ensures |one.buffer| == Count(p, k, left) < left ==>
      Before(buffer, h(cursors, p, left))
      == Before(buffer + one.buffer, h(one.cursors, p + |one.buffer|, left - |one.buffer|))
  {
    ReadingTurn(files, m, cursors, p, left, k, one);
    if left == |one.buffer| {
      ReadingEnds(files, m, one.cursors, p + |one.buffer|, 0);
    } else if |one.buffer| == Count(p, k, left) {
      var rest := Reading(files, m, one.cursors, p + |one.buffer|, left - |one.buffer|);
      assert buffer + (one.buffer + rest.buffer) == buffer + one.buffer + rest.buffer;
    }
  }

  lemma LoopEnds(files: seq<seq<Byte>>, m: map<nat, nat>, h: (seq<nat>, nat, nat) -> Outcome,
                 buffer: seq<Byte>, cursors: seq<nat>, p: nat, left: nat)
    requires InRange(files, m) && |cursors| == |files| && IsReading(files, m, h) && !HasNext(m, p)
    ensures Before(buffer, h(cursors, p, left)) == Outcome(buffer, cursors)
  {
    ReadingEnds(files, m, cursors, p, left);
    assert buffer + [] == buffer;
  }

  // ----- When the positioning succeeds -----

  /** No file is positioned before its start. */
  ghost predicate SeeksSucceed(files: seq<seq<Byte>>, m: map<nat, nat>)
    requires InRange(files, m)
  {
    forall p, k :: IsNext(m, p, k) ==> |files[m[k]]| + p - k >= 0
  }

  lemma OrderedSeeks(files: seq<seq<Byte>>)
    requires InRange(files, Index(files)) && Ordered(files)
    ensures SeeksSucceed(files, Index(files))
  {
    forall p, k | IsNext(Index(files), p, k) ensures |files[Index(files)[k]]| + p - k >= 0 {
      NextIsFile(files, p, k);
      OffsetStep(files, Index(files)[k]);
    }
  }

  lemma DrawIsPart(files: seq<seq<Byte>>, m: map<nat, nat>, cursors: seq<nat>, p: nat, k: nat, count: nat)
    requires InRange(files, m) && |cursors| == |files| && SeeksSucceed(files, m) && IsNext(m, p, k)
    ensures Draw(files, m, cursors, p, k, count).buffer == Part(files, m, p, k, count)
  {
  }

  // Both loops as function values h and g that agree turn by turn.

  ghost predicate SameTurn(h: (seq<nat>, nat, nat) -> Outcome, g: (nat, nat) -> seq<Byte>, c: seq<nat>, p: nat, size: nat,
                           c': seq<nat>, part: seq<Byte>) {
    && |c'| == |c| && 0 < |part| <= size
    && h(c, p, size).buffer == part + h(c', p + |part|, size - |part|).buffer
    && g(p, size) == part + g(p + |part|, size - |part|)
  }

  ghost predicate AgreeAt(h: (seq<nat>, nat, nat) -> Outcome, g: (nat, nat) -> seq<Byte>, c: seq<nat>, p: nat, size: nat) {
    h(c, p, size).buffer == g(p, size) || exists c', part :: SameTurn(h, g, c, p, size, c', part)
  }

  lemma {:induction false} LoopsAgree(h: (seq<nat>, nat, nat) -> Outcome, g: (nat, nat) -> seq<Byte>, c: seq<nat>, p: nat, size: nat)
    requires forall c', p', size' :: |c'| == |c| ==> AgreeAt(h, g, c', p', size')
    ensures h(c, p, size).buffer == g(p, size)
    decreases size
  {
    assert AgreeAt(h, g, c, p, size);
    if h(c, p, size).buffer != g(p, size) {
      var c', part :| SameTurn(h, g, c, p, size, c', part);
      LoopsAgree(h, g, c', p + |part|, size - |part|);
    }
  }

  lemma TurnsAgree(files: seq<seq<Byte>>, m: map<nat, nat>, h: (seq<nat>, nat, nat) -> Outcome, g: (nat, nat) -> seq<Byte>,
                   cursors: seq<nat>, p: nat, size: nat)
    requires InRange(files, m) && |cursors| == |files| && SeeksSucceed(files, m) && IsReading(files, m, h) && IsGather(files, m, g)
    ensures AgreeAt(h, g, cursors, p, size)
  {
    if size == 0 || !HasNext(m, p) {
      ReadingEnds(files, m, cursors, p, size);
      GatherEnds(files, m, p, size);
    } else {
      var k := NextKey(m, p);
      var one := Draw(files, m, cursors, p, k, Count(p, k, size));
      DrawIsPart(files, m, cursors, p, k, Count(p, k, size));
      OneTurn(files, m, h, g, cursors, p, size, k, one);
    }
  }

  lemma OneTurn(files: seq<seq<Byte>>, m: map<nat, nat>, h: (seq<nat>, nat, nat) -> Outcome, g: (nat, nat) -> seq<Byte>,
                cursors: seq<nat>, p: nat, size: nat, k: nat, one: Outcome)
    requires InRange(files, m) && |cursors| == |files| && IsReading(files, m, h) && IsGather(files, m, g)
    requires size > 0 && IsNext(m, p, k) && one == Draw(files, m, cursors, p, k, Count(p, k, size))
    requires one.buffer == Part(files, m, p, k, Count(p, k, size))
    ensures AgreeAt(h, g, cursors, p, size)
  {
    ReadTurn(files, m, h, cursors, p, size, k, one);
    GatheringTurn(files, m, g, p, size, k, one.buffer);
    if |one.buffer| == Count(p, k, size) {
      assert SameTurn(h, g, cursors, p, size, one.cursors, one.buffer);
    }
  }

  lemma ReadTurn(files: seq<seq<Byte>>, m: map<nat, nat>, h: (seq<nat>, nat, nat) -> Outcome,
                 cursors: seq<nat>, p: nat, size: nat, k: nat, one: Outcome)
    requires InRange(files, m) && |cursors| == |files| && IsReading(files, m, h)
    requires size > 0 && IsNext(m, p, k) && one == Draw(files, m, cursors, p, k, Count(p, k, size))
    ensures h(cursors, p, size) == if |one.buffer| < Count(p, k, size) then one
                                   else Before(one.buffer, h(one.cursors, p + |one.buffer|, size - |one.buffer|))
  {
    ReadingTurn(files, m, cursors, p, size, k, one);
  }

  lemma GatheringTurn(files: seq<seq<Byte>>, m: map<nat, nat>, g: (nat, nat) -> seq<Byte>, p: nat, size: nat, k: nat, part: seq<Byte>)
    requires InRange(files, m) && IsGather(files, m, g)
    requires size > 0 && IsNext(m, p, k) && part == Part(files, m, p, k, Count(p, k, size))
    ensures g(p, size) == if |part| < Count(p, k, size) then part else part + g(p + |part|, size - |part|)
  {
    GatherTurn(files, m, p, size, k, part);
  }

  /** Then read finds what read_at finds, wherever the files are positioned. */
  lemma ReadingIsGather(files: seq<seq<Byte>>, m: map<nat, nat>, cursors: seq<nat>, p: nat, size: nat)
    requires InRange(files, m) && |cursors| == |files| && SeeksSucceed(files, m)
    ensures Reading(files, m, cursors, p, size).buffer == Gather(files, m, p, size)
  {
    var h, g := ReadingOf(files, m), GatherOf(files, m);
    ReadingOfIsReading(files, m);
    GatherOfIsGather(files, m);
    forall c, p, size | |c| == |cursors| ensures AgreeAt(h, g, c, p, size) {
      TurnsAgree(files, m, h, g, c, p, size);
    }
    LoopsAgree(h, g, cursors, p, size);
  }

  lemma ReadingOne(files: seq<seq<Byte>>, m: map<nat, nat>, cursors: seq<nat>, p: nat, k: nat) returns (at: int)
    requires InRange(files, m) && |cursors| == |files| && IsNext(m, p, k)
    ensures Reading(files, m, cursors, p, 1).buffer == FileRead(files[m[k]], at, 1)
  {
    var target := |files[m[k]]| + p - k;
    at := if target >= 0 then target else cursors[m[k]];
    var one := Draw(files, m, cursors, p, k, 1);
    ReadingTurn(files, m, cursors, p, 1, k, one);
    ReadingEnds(files, m, one.cursors, p + 1, 0);
    assert one.buffer + [] == one.buffer;
  }

  /** For sizes out of order, read fails for some contents, wherever the files are positioned. */
  lemma DisorderShowsInRead(files: seq<seq<Byte>>, cursors: seq<nat>) returns (other: seq<seq<Byte>>, p: nat)
    requires !Ordered(files) && |cursors| == |files|
    ensures SameSizes(files, other) && InRange(other, Index(other)) && p < |Concat(other)|
    ensures Reading(other, Index(other), cursors, p, 1).buffer != Concat(other)[p..p + 1]
  {
    var i, j :| 1 <= i < j < |files| && |files[j]| > 0 && |files[i]| == 0;
    other := Marked(files, j);
    p := Offset(other, j);
    IndexInRange(other);
    NextAtStart(other, j);
    var k := Offset(other, j + 1);
    var at := ReadingOne(other, Index(other), cursors, p, k);
    assert |other[i]| == 0;
    RankBelow(other, j);
    OffsetStep(other, j);
    SlicePart(other, j, p, 1);
    MarkedByte(files, j, other[Rank(other, j)], Rank(other, j), at);
    MarkedByte(files, j, other[j], j, 0);
  }
}
