/** gather_stream: several files read as one, by an index from end offsets to files. */
module GatherStream {

  type Byte = x: nat | x < 256

  // ----- The files in a row -----

  /** Where file i starts; past the last one, where all end. */
  function Offset(files: seq<seq<Byte>>, i: nat): nat
    requires i <= |files|
  {
    if i == 0 then 0 else Offset(files, i - 1) + |files[i - 1]|
  }

  /** The first n files in a row. */
  function Row(files: seq<seq<Byte>>, n: nat): (r: seq<Byte>)
    requires n <= |files|
    ensures |r| == Offset(files, n)
  {
    if n == 0 then [] else Row(files, n - 1) + files[n - 1]
  }

  function Concat(files: seq<seq<Byte>>): (r: seq<Byte>)
    ensures |r| == Offset(files, |files|)
  {
    Row(files, |files|)
  }

  lemma OffsetStep(files: seq<seq<Byte>>, i: nat)
    requires i < |files|
    ensures Offset(files, i + 1) == Offset(files, i) + |files[i]|
  {
  }

  lemma {:induction false} OffsetMonotone(files: seq<seq<Byte>>, i: nat, j: nat)
    requires i <= j <= |files|
    ensures Offset(files, i) <= Offset(files, j)
  {
    if i < j {
      OffsetMonotone(files, i, j - 1);
    }
  }

  /** The bytes of file i are a slice of the row. */
  lemma {:induction false} FileIsSlice(files: seq<seq<Byte>>, i: nat, n: nat)
    requires i < n <= |files|
    ensures Offset(files, i) + |files[i]| <= Offset(files, n)
    ensures Row(files, n)[Offset(files, i)..Offset(files, i) + |files[i]|] == files[i]
  {
    if i < n - 1 {
      FileIsSlice(files, i, n - 1);
    }
  }

  // ----- The index -----

  /** What the constructor builds from the first n files: an end offset seen before is not entered again. */
  function IndexTo(files: seq<seq<Byte>>, n: nat): map<nat, nat>
    requires n <= |files|
  {
    if n == 0 then map[]
    else
      var m, e := IndexTo(files, n - 1), Offset(files, n);
      if e in m then m else m[e := |m|]
  }

  function Index(files: seq<seq<Byte>>): map<nat, nat> {
    IndexTo(files, |files|)
  }

  /** The number of distinct end offsets of the first n files. */
  function Rank(files: seq<seq<Byte>>, n: nat): nat
    requires n <= |files|
  {
    if n == 0 then 0 else Rank(files, n - 1) + (if n == 1 || |files[n - 1]| > 0 then 1 else 0)
  }

  /** The first file, and every one that is not empty, is entered under its end, with the number of entries before. */
  ghost predicate EntryAt(files: seq<seq<Byte>>, m: map<nat, nat>, i: nat)
    requires i < |files|
  {
    i == 0 || |files[i]| > 0 ==> Offset(files, i + 1) in m && m[Offset(files, i + 1)] == Rank(files, i)
  }

  ghost predicate Ends(files: seq<seq<Byte>>, i: int, k: nat) {
    0 <= i < |files| && (i == 0 || |files[i]| > 0) && k == Offset(files, i + 1)
  }

  ghost predicate IsIndex(files: seq<seq<Byte>>, m: map<nat, nat>, n: nat)
    requires n <= |files|
  {
    && |m| == Rank(files, n)
    && (forall i :: 0 <= i < n ==> EntryAt(files, m, i))
    && (forall k :: k in m ==> exists i :: i < n && Ends(files, i, k))
  }

  lemma IndexStep(files: seq<seq<Byte>>, m: map<nat, nat>, n: nat, e: nat)
    requires n < |files| && IsIndex(files, m, n) && e == Offset(files, n + 1)
    ensures IsIndex(files, if e in m then m else m[e := |m|], n + 1)
  {
    OffsetStep(files, n);
    if n > 0 && |files[n]| == 0 {
      EndEntered(files, m, n);
      assert EntryAt(files, m, n);
      forall k | k in m ensures exists i :: i < n + 1 && Ends(files, i, k) {
        var i :| i < n && Ends(files, i, k);
      }
    } else {
      EndIsNew(files, m, n, e);
      IndexGrows(files, m, n, e);
    }
  }

  lemma EndIsNew(files: seq<seq<Byte>>, m: map<nat, nat>, n: nat, e: nat)
    requires n < |files| && IsIndex(files, m, n) && e == Offset(files, n + 1) && (n == 0 || |files[n]| > 0)
    ensures e !in m
  {
    OffsetStep(files, n);
    if e in m {
      var i :| i < n && Ends(files, i, e);
      OffsetMonotone(files, i + 1, n);
    }
  }

  lemma IndexGrows(files: seq<seq<Byte>>, m: map<nat, nat>, n: nat, e: nat)
    requires n < |files| && IsIndex(files, m, n) && e == Offset(files, n + 1) && (n == 0 || |files[n]| > 0) && e !in m
    ensures IsIndex(files, m[e := |m|], n + 1)
  {
    var m' := m[e := |m|];
    forall i | 0 <= i < n + 1 ensures EntryAt(files, m', i) {
      assert i < n ==> EntryAt(files, m, i);
    }
    forall k | k in m' ensures exists i :: i < n + 1 && Ends(files, i, k) {
      if k == e {
        assert Ends(files, n, k);
      } else {
        var i :| i < n && Ends(files, i, k);
      }
    }
  }

  /** The end of the first n files is in the index. */
  lemma {:induction false} EndEntered(files: seq<seq<Byte>>, m: map<nat, nat>, n: nat)
    requires 0 < n <= |files| && forall i :: 0 <= i < n ==> EntryAt(files, m, i)
    ensures Offset(files, n) in m
  {
    assert EntryAt(files, m, n - 1);
    if n > 1 && |files[n - 1]| == 0 {
      OffsetStep(files, n - 1);
      EndEntered(files, m, n - 1);
    }
  }

  lemma {:induction false} IndexIsIndex(files: seq<seq<Byte>>, n: nat)
    requires n <= |files|
    ensures IsIndex(files, IndexTo(files, n), n)
  {
    if n > 0 {
      IndexIsIndex(files, n - 1);
      IndexStep(files, IndexTo(files, n - 1), n - 1, Offset(files, n));
    }
  }

  // ----- The condition -----

  /** After the first file, no empty file comes before one that is not. */
  ghost predicate Ordered(files: seq<seq<Byte>>) {
    forall i, j :: 1 <= i < j < |files| && |files[j]| > 0 ==> |files[i]| > 0
  }

  /** Then each file is entered with its own number. */
  lemma {:induction false} RankIsNumber(files: seq<seq<Byte>>, n: nat)
    requires n <= |files| && forall i :: 1 <= i < n ==> |files[i]| > 0
    ensures Rank(files, n) == n
  {
    if n > 0 {
      RankIsNumber(files, n - 1);
    }
  }

  lemma {:induction false} RankBelow(files: seq<seq<Byte>>, n: nat)
    requires n <= |files|
    ensures Rank(files, n) <= n && ((exists i :: 1 <= i < n && |files[i]| == 0) ==> Rank(files, n) < n)
  {
    if n > 0 {
      RankBelow(files, n - 1);
    }
  }

  // ----- Reading -----

  /** read_at of one file.  An offset below zero wraps around to one beyond every file, from which a file in memory
      gives nothing; a POSIX file rejects it, and its read_at fails.  Ordered sizes do not lead to such offsets. */
  function FileRead(content: seq<Byte>, at: int, count: nat): (r: seq<Byte>)
    ensures |r| <= count
  {
    if at < 0 || at >= |content| then [] else if at + count <= |content| then content[at..at + count] else content[at..]
  }

  /** The least end offset beyond p. */
  ghost predicate IsNext(m: map<nat, nat>, p: nat, k: nat) {
    k in m && p < k && forall k' :: k' in m && p < k' ==> k <= k'
  }

  ghost predicate InRange(files: seq<seq<Byte>>, m: map<nat, nat>) {
    forall k :: k in m ==> m[k] < |files|
  }

  ghost predicate HasNext(m: map<nat, nat>, p: nat) {
    exists k: nat :: IsNext(m, p, k)
  }

  /** The entry the loop goes to from p; zero if there is none. */
  ghost function NextKey(m: map<nat, nat>, p: nat): (k: nat)
    ensures if HasNext(m, p) then IsNext(m, p, k) else k == 0
  {
    if HasNext(m, p) then var k: nat :| IsNext(m, p, k); k else 0
  }

  function Count(p: nat, k: nat, size: nat): nat
    requires p < k
  {
    if k - p < size then k - p else size
  }

  /** What the file of entry k gives from position p of the row. */
  function Part(files: seq<seq<Byte>>, m: map<nat, nat>, p: nat, k: nat, count: nat): (r: seq<Byte>)
    requires InRange(files, m) && k in m
    ensures |r| <= count
  {
    FileRead(files[m[k]], |files[m[k]]| + p - k, count)
  }

  /** What the loop of read_at gathers from p on, if it goes from entry to entry by `next`. */
  function Follow(files: seq<seq<Byte>>, m: map<nat, nat>, next: nat -> nat, p: nat, size: nat): (r: seq<Byte>)
    requires InRange(files, m)
    ensures |r| <= size
    decreases size
  {
    var k := next(p);
    if size == 0 || k <= p || k !in m then []
    else
      var part := Part(files, m, p, k, Count(p, k, size));
      if |part| < Count(p, k, size) then part else part + Follow(files, m, next, p + |part|, size - |part|)
  }

  ghost function NextOf(m: map<nat, nat>): nat -> nat {
    (p: nat) => NextKey(m, p)
  }

  ghost function Gather(files: seq<seq<Byte>>, m: map<nat, nat>, p: nat, size: nat): (r: seq<Byte>)
    requires InRange(files, m)
    ensures |r| <= size
  {
    Follow(files, m, NextOf(m), p, size)
  }

  lemma FollowTurn(files: seq<seq<Byte>>, m: map<nat, nat>, next: nat -> nat, p: nat, size: nat, k: nat, part: seq<Byte>)
    requires InRange(files, m) && k == next(p) && p < k && k in m && size > 0 && part == Part(files, m, p, k, Count(p, k, size))
    ensures Follow(files, m, next, p, size)
         == if |part| < Count(p, k, size) then part else part + Follow(files, m, next, p + |part|, size - |part|)
  {
  }

  lemma {:induction false} NextExists(m: map<nat, nat>, p: nat, k: nat)
    requires k in m && p < k
    ensures HasNext(m, p)
    decreases k
  {
    if !IsNext(m, p, k) {
      var k' :| k' in m && p < k' < k;
      NextExists(m, p, k');
    }
  }

  lemma EntryInRange(files: seq<seq<Byte>>, k: nat)
    requires k in Index(files)
    ensures Index(files)[k] < |files| && k <= |Concat(files)|
  {
    var i := FileOfEntry(files, k);
    RankBelow(files, i);
    OffsetMonotone(files, i + 1, |files|);
  }

  lemma IndexInRange(files: seq<seq<Byte>>)
    ensures InRange(files, Index(files))
  {
    forall k | k in Index(files) ensures Index(files)[k] < |files| {
      EntryInRange(files, k);
    }
  }

  /** Every entry is the end of a file. */
  lemma FileOfEntry(files: seq<seq<Byte>>, k: nat) returns (i: nat)
    requires k in Index(files)
    ensures Ends(files, i, k) && Index(files)[k] == Rank(files, i) && (i > 0 ==> Offset(files, i) in Index(files))
  {
    var n := |files|;
    IndexIsIndex(files, n);
    i :| i < n && Ends(files, i, k);
    assert EntryAt(files, Index(files), i);
    if i > 0 {
      EndEntered(files, Index(files), i);
    }
  }

  /** The entry beyond a position is the file the position lies in. */
  lemma NextIsFile(files: seq<seq<Byte>>, p: nat, k: nat)
    requires Ordered(files) && IsNext(Index(files), p, k)
    ensures Index(files)[k] < |files|
    ensures var i := Index(files)[k]; Offset(files, i) <= p < k && k == Offset(files, i + 1)
  {
    var i := FileOfEntry(files, k);
    RankIsNumber(files, i);
    OffsetStep(files, i);
    StartsBefore(files, Index(files), i, p, k);
  }

  lemma StartsBefore(files: seq<seq<Byte>>, m: map<nat, nat>, i: nat, p: nat, k: nat)
    requires IsNext(m, p, k) && i < |files| && (i > 0 ==> Offset(files, i) in m && Offset(files, i) < k)
    ensures Offset(files, i) <= p
  {
    if i > 0 {
      var o := Offset(files, i);
      assert o in m && o < k;
    }
  }

  lemma SlicePart(files: seq<seq<Byte>>, i: nat, p: nat, count: nat)
    requires i < |files| && Offset(files, i) <= p && p + count <= Offset(files, i + 1) && count > 0
    ensures p + count <= |Concat(files)|
    ensures FileRead(files[i], |files[i]| + p - Offset(files, i + 1), count) == Concat(files)[p..p + count]
  {
    var row, file, o := Concat(files), files[i], Offset(files, i);
    FileInRow(files, i, row);
    assert |file| + p - Offset(files, i + 1) == p - o;
    PartOfSlice(row, file, o, p - o, count);
  }

  lemma FileInRow(files: seq<seq<Byte>>, i: nat, row: seq<Byte>)
    requires i < |files| && row == Concat(files)
    ensures var o := Offset(files, i);
      Offset(files, i + 1) == o + |files[i]| <= |row| && row[o..o + |files[i]|] == files[i]
  {
    OffsetStep(files, i);
    FileIsSlice(files, i, |files|);
  }

  lemma PartOfSlice(row: seq<Byte>, file: seq<Byte>, o: nat, at: nat, count: nat)
    requires o + |file| <= |row| && row[o..o + |file|] == file && at + count <= |file| && count > 0
    ensures FileRead(file, at, count) == row[o + at..o + at + count]
  {
    SliceOfSlice(row, o, o + |file|, at, count);
  }

  lemma SliceOfSlice(s: seq<Byte>, lo: nat, hi: nat, a: nat, count: nat)
    requires lo <= hi <= |s| && a + count <= hi - lo
    ensures s[lo..hi][a..a + count] == s[lo + a..lo + a + count]
  {
    var l, r := s[lo..hi][a..a + count], s[lo + a..lo + a + count];
    forall i | 0 <= i < count ensures l[i] == r[i] {
    }
  }

  lemma SliceJoins(s: seq<Byte>, a: nat, b: nat, c: nat)
    requires a <= b <= c <= |s|
    ensures s[a..b] + s[b..c] == s[a..c]
  {
  }

  lemma LastEntry(files: seq<seq<Byte>>, p: nat)
    requires p < |Concat(files)|
    ensures HasNext(Index(files), p)
  {
    IndexIsIndex(files, |files|);
    EndEntered(files, Index(files), |files|);
    NextExists(Index(files), p, |Concat(files)|);
  }

  /** From p on, the entry beyond p gives bytes of the row. */
  ghost predicate ServesAt(files: seq<seq<Byte>>, m: map<nat, nat>, row: seq<Byte>, p: nat)
    requires InRange(files, m)
  {
    if p < |row| then HasNext(m, p) && var k := NextKey(m, p); k <= |row| && forall count :: ServesCount(files, m, row, p, k, count)
    else !HasNext(m, p)
  }

  ghost predicate ServesCount(files: seq<seq<Byte>>, m: map<nat, nat>, row: seq<Byte>, p: nat, k: nat, count: nat)
    requires InRange(files, m) && k in m && k <= |row|
  {
    0 < count <= k - p ==> Part(files, m, p, k, count) == row[p..p + count]
  }

  /** g yields nothing at the end of the row, and a piece of the row before more of its own elsewhere. */
  ghost predicate PiecewiseAt(g: (nat, nat) -> seq<Byte>, row: seq<Byte>, p: nat, size: nat) {
    if size == 0 || p >= |row| then g(p, size) == [] else exists count: nat :: PieceAt(g, row, p, size, count)
  }

  ghost predicate PieceAt(g: (nat, nat) -> seq<Byte>, row: seq<Byte>, p: nat, size: nat, count: nat) {
    0 < count <= size && p + count <= |row| && g(p, size) == row[p..p + count] + g(p + count, size - count)
  }

  lemma {:induction false} PiecesJoin(g: (nat, nat) -> seq<Byte>, row: seq<Byte>, p: nat, size: nat, to: nat)
    requires (forall p, size :: PiecewiseAt(g, row, p, size)) && p <= |row|
    requires to == if p + size < |row| then p + size else |row|
    ensures g(p, size) == row[p..to]
    decreases size
  {
    assert PiecewiseAt(g, row, p, size);
    if size > 0 && p < |row| {
      var count: nat :| PieceAt(g, row, p, size, count);
      PiecesJoin(g, row, p + count, size - count, to);
      SliceJoins(row, p, p + count, to);
    }
  }

  lemma GatherEnds(files: seq<seq<Byte>>, m: map<nat, nat>, p: nat, size: nat)
    requires InRange(files, m) && (size == 0 || !HasNext(m, p))
    ensures Gather(files, m, p, size) == []
  {
    assert NextOf(m)(p) == NextKey(m, p);
  }

  lemma GatherTurn(files: seq<seq<Byte>>, m: map<nat, nat>, p: nat, size: nat, k: nat, part: seq<Byte>)
    requires InRange(files, m) && IsNext(m, p, k) && size > 0 && part == Part(files, m, p, k, Count(p, k, size))
    ensures Gather(files, m, p, size)
         == if |part| < Count(p, k, size) then part else part + Gather(files, m, p + |part|, size - |part|)
  {
    NextUnique(m, p, k);
    FollowTurn(files, m, NextOf(m), p, size, k, part);
  }

  ghost function GatherOf(files: seq<seq<Byte>>, m: map<nat, nat>): (nat, nat) -> seq<Byte>
    requires InRange(files, m)
  {
    (p: nat, size: nat) => Gather(files, m, p, size)
  }

  lemma GatherOfIsGather(files: seq<seq<Byte>>, m: map<nat, nat>)
    requires InRange(files, m)
    ensures IsGather(files, m, GatherOf(files, m))
  {
  }

  ghost predicate IsGather(files: seq<seq<Byte>>, m: map<nat, nat>, g: (nat, nat) -> seq<Byte>)
    requires InRange(files, m)
  {
    forall p, size {:trigger Gather(files, m, p, size)} :: g(p, size) == Gather(files, m, p, size)
  }

  lemma NextUnique(m: map<nat, nat>, p: nat, k: nat)
    requires IsNext(m, p, k)
    ensures HasNext(m, p) && NextKey(m, p) == k && NextOf(m)(p) == k
  {
  }

  lemma GatherStep(files: seq<seq<Byte>>, m: map<nat, nat>, row: seq<Byte>, p: nat, size: nat) returns (count: nat)
    requires InRange(files, m) && ServesAt(files, m, row, p) && p < |row| && size > 0
    ensures 0 < count <= size && p + count <= |row|
    ensures Gather(files, m, p, size) == row[p..p + count] + Gather(files, m, p + count, size - count)
  {
    var k := NextKey(m, p);
    count := Count(p, k, size);
    assert ServesCount(files, m, row, p, k, count);
    GatherTurn(files, m, p, size, k, row[p..p + count]);
  }

  lemma OrderedServes(files: seq<seq<Byte>>, p: nat)
    requires Ordered(files) && InRange(files, Index(files))
    ensures ServesAt(files, Index(files), Concat(files), p)
  {
    var m, row := Index(files), Concat(files);
    if p < |row| {
      LastEntry(files, p);
      var k := NextKey(m, p);
      EntryInRange(files, k);
      NextIsFile(files, p, k);
      forall count: nat ensures ServesCount(files, m, row, p, k, count) {
        if 0 < count <= k - p {
          SlicePart(files, m[k], p, count);
        }
      }
    } else if HasNext(m, p) {
      EntryInRange(files, NextKey(m, p));
      assert false;
    }
  }

  lemma GatherPieces(files: seq<seq<Byte>>, p: nat, size: nat, g: (nat, nat) -> seq<Byte>)
    requires Ordered(files) && InRange(files, Index(files))
    requires forall p, size :: g(p, size) == Gather(files, Index(files), p, size)
    ensures PiecewiseAt(g, Concat(files), p, size)
  {
    OrderedServes(files, p);
    if size == 0 || p >= |Concat(files)| {
      GatherEnds(files, Index(files), p, size);
    } else {
      var count := GatherStep(files, Index(files), Concat(files), p, size);
      assert PieceAt(g, Concat(files), p, size, count);
    }
  }

  /** A read at p gathers the slice of the row that starts there. */
  lemma GatherIsSlice(files: seq<seq<Byte>>, p: nat, size: nat, to: nat)
    requires Ordered(files) && p <= |Concat(files)| && InRange(files, Index(files))
    requires to == if p + size < |Concat(files)| then p + size else |Concat(files)|
    ensures Gather(files, Index(files), p, size) == Concat(files)[p..to]
  {
    var g := (p: nat, size: nat) => Gather(files, Index(files), p, size);
    forall p, size ensures PiecewiseAt(g, Concat(files), p, size) {
      GatherPieces(files, p, size, g);
    }
    PiecesJoin(g, Concat(files), p, size, to);
  }

  // ----- The condition is necessary -----

  ghost predicate SameSizes(files: seq<seq<Byte>>, other: seq<seq<Byte>>) {
    |files| == |other| && forall i :: 0 <= i < |files| ==> |files[i]| == |other[i]|
  }

  /** Ones in file j and zeros in the others. */
  function Marked(files: seq<seq<Byte>>, j: nat): seq<seq<Byte>> {
    seq(|files|, i requires 0 <= i < |files| => Filled(if i == j then 1 else 0, |files[i]|))
  }

  function Filled(x: Byte, n: nat): (r: seq<Byte>)
    ensures |r| == n
  {
    seq(n, _ => x)
  }

  lemma EntryBeyond(files: seq<seq<Byte>>, j: nat, k: nat)
    requires j < |files| && k in Index(files) && Offset(files, j) < k
    ensures Offset(files, j + 1) <= k
  {
    var i := FileOfEntry(files, k);
    EndBeyond(files, i, j);
  }

  lemma EndBeyond(files: seq<seq<Byte>>, i: nat, j: nat)
    requires i < |files| && j < |files| && Offset(files, j) < Offset(files, i + 1)
    ensures Offset(files, j + 1) <= Offset(files, i + 1)
  {
    if i < j {
      OffsetMonotone(files, i + 1, j);
    } else {
      OffsetMonotone(files, j + 1, i + 1);
    }
  }

  /** The entry beyond the start of a file that is not empty is the entry of that file's end. */
  lemma NextAtStart(files: seq<seq<Byte>>, j: nat)
    requires j < |files| && |files[j]| > 0
    ensures IsNext(Index(files), Offset(files, j), Offset(files, j + 1))
    ensures Index(files)[Offset(files, j + 1)] == Rank(files, j)
  {
    var m, n, p := Index(files), |files|, Offset(files, j);
    assert EntryAt(files, m, j) by {
      assert files[..n] == files;
      IndexIsIndex(files, n);
    }
    OffsetStep(files, j);
    forall k | k in m && p < k ensures Offset(files, j + 1) <= k {
      EntryBeyond(files, j, k);
    }
  }

  lemma GatherOne(files: seq<seq<Byte>>, m: map<nat, nat>, p: nat, k: nat)
    requires InRange(files, m) && IsNext(m, p, k)
    ensures Gather(files, m, p, 1) == Part(files, m, p, k, 1)
  {
    GatherTurn(files, m, p, 1, k, Part(files, m, p, k, 1));
    GatherEnds(files, m, p + 1, 0);
  }

  /** If an empty file after the first comes before one that is not, a read fails for some contents of these sizes. */
  lemma DisorderShows(files: seq<seq<Byte>>) returns (other: seq<seq<Byte>>, p: nat)
    requires !Ordered(files)
    ensures SameSizes(files, other) && InRange(other, Index(other)) && p < |Concat(other)|
    ensures Gather(other, Index(other), p, 1) != Concat(other)[p..p + 1]
  {
    var i, j :| 1 <= i < j < |files| && |files[j]| > 0 && |files[i]| == 0;
    other := Marked(files, j);
    p := Offset(other, j);
    IndexInRange(other);
    NextAtStart(other, j);
    var k := Offset(other, j + 1);
    GatherOne(other, Index(other), p, k);
    assert |other[i]| == 0;
    RankBelow(other, j);
    OffsetStep(other, j);
    SlicePart(other, j, p, 1);
    MarkedByte(files, j, other[Rank(other, j)], Rank(other, j), |other[Rank(other, j)]| + p - k);
    MarkedByte(files, j, other[j], j, 0);
  }

  lemma MarkedByte(files: seq<seq<Byte>>, j: nat, content: seq<Byte>, i: nat, at: int)
    requires j < |files| && i < |files| && content == Marked(files, j)[i]
    ensures FileRead(content, at, 1) == [] || FileRead(content, at, 1) == [if i == j then 1 else 0]
  {
  }
}
