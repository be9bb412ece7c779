/** Cyclic redundancy checks: the remainder of a message, bit by bit and with a table.

  A register has t bits, of which a check of width w uses the lowest w; w is at least 8 and at most t. */
module Crc {
  import opened Bits

  type Byte = b: seq<bool> | |b| == 8 witness Zeros(8)

  // ----- Reflected: the register moves to the right -----

  function Step(p: seq<bool>, r: seq<bool>): (s: seq<bool>)
    requires |p| == |r| > 0
    ensures |s| == |r|
  {
    if r[0] then Xor(Shr(r, 1), p) else Shr(r, 1)
  }

  function Steps(p: seq<bool>, r: seq<bool>, n: nat): (s: seq<bool>)
    requires |p| == |r| > 0
    ensures |s| == |r|
  {
    if n == 0 then r else Step(p, Steps(p, r, n - 1))
  }

  function FeedByte(p: seq<bool>, r: seq<bool>, x: Byte): (s: seq<bool>)
    requires |p| == |r| >= 8
    ensures |s| == |r|
  {
    Steps(p, Xor(r, Resize(x, |r|)), 8)
  }

  /** The remainder after a message. */
  function Run(p: seq<bool>, r: seq<bool>, m: seq<Byte>): (s: seq<bool>)
    requires |p| == |r| >= 8
    ensures |s| == |r|
  {
    if |m| == 0 then r else FeedByte(p, Run(p, r, m[..|m| - 1]), m[|m| - 1])
  }

  // ----- Linearity -----

  lemma StepLinear(p: seq<bool>, a: seq<bool>, b: seq<bool>)
    requires |p| == |a| == |b| > 0
    ensures Step(p, Xor(a, b)) == Xor(Step(p, a), Step(p, b))
  {
  }

  lemma {:induction false} StepsLinear(p: seq<bool>, a: seq<bool>, b: seq<bool>, n: nat)
    requires |p| == |a| == |b| > 0
    ensures Steps(p, Xor(a, b), n) == Xor(Steps(p, a, n), Steps(p, b, n))
  {
    if n > 0 {
      StepsLinear(p, a, b, n - 1);
      StepLinear(p, Steps(p, a, n - 1), Steps(p, b, n - 1));
    }
  }

  lemma {:induction false} StepsAdd(p: seq<bool>, r: seq<bool>, m: nat, n: nat)
    requires |p| == |r| > 0
    ensures Steps(p, Steps(p, r, m), n) == Steps(p, r, m + n)
  {
    if n > 0 {
      StepsAdd(p, r, m, n - 1);
    }
  }

  /** As long as only zeros reach the lowest bit, steps are shifts. */
  lemma {:induction false} StepsShift(p: seq<bool>, r: seq<bool>, n: nat)
    requires |p| == |r| > 0 && n <= |r| && forall i :: 0 <= i < n ==> !r[i]
    ensures Steps(p, r, n) == Shr(r, n)
  {
    if n == 0 {
      assert Shr(r, 0) == r;
    } else {
      StepsShift(p, r, n - 1);
      StepShifts(p, r, n - 1);
    }
  }

  lemma StepShifts(p: seq<bool>, r: seq<bool>, k: nat)
    requires |p| == |r| && k < |r| && !r[k]
    ensures Step(p, Shr(r, k)) == Shr(r, k + 1)
  {
    assert !Shr(r, k)[0];
    ShrShr(r, k, 1);
  }

  // ----- The table -----

  /** An entry of the table: the remainder of one byte. */
  function Entry(p: seq<bool>, x: Byte): (s: seq<bool>)
    requires |p| >= 8
    ensures |s| == |p|
  {
    Steps(p, Resize(x, |p|), 8)
  }

  function Low8(r: seq<bool>): Byte
    requires |r| >= 8
  {
    r[..8]
  }

  /** A register is the sum of its lowest byte and of the rest. */
  function Rest(r: seq<bool>): (s: seq<bool>)
    requires |r| >= 8
    ensures |s| == |r|
  {
    Zeros(8) + r[8..]
  }

  lemma SplitLowest(r: seq<bool>, x: Byte)
    requires |r| >= 8
    ensures Xor(r, Resize(x, |r|)) == Xor(Resize(Xor(Low8(r), x), |r|), Rest(r))
    ensures Shr(Rest(r), 8) == Shr(r, 8)
  {
  }

  /** One table look-up does what eight steps do. */
  lemma LookupIsFeed(p: seq<bool>, r: seq<bool>, x: Byte)
    requires |p| == |r| >= 8
    ensures FeedByte(p, r, x) == Xor(Shr(r, 8), Entry(p, Xor(Low8(r), x)))
  {
    var low, rest := Resize(Xor(Low8(r), x), |r|), Rest(r);
    SplitLowest(r, x);
    StepsLinear(p, low, rest, 8);
    StepsShift(p, rest, 8);
    XorCommutes(Steps(p, low, 8), Shr(r, 8));
  }

  // ----- Runs -----

  lemma {:induction false} RunSplits(p: seq<bool>, r: seq<bool>, a: seq<Byte>, b: seq<Byte>)
    requires |p| == |r| >= 8
    ensures Run(p, r, a + b) == Run(p, Run(p, r, a), b)
    decreases |b|
  {
    if |b| == 0 {
      assert a + b == a;
    } else {
      var n := |b| - 1;
      RunSplits(p, r, a, b[..n]);
      assert (a + b)[..|a| + n] == a + b[..n];
    }
  }

  lemma RunStep(p: seq<bool>, r: seq<bool>, m: seq<Byte>, u: seq<bool>)
    requires |p| == |r| >= 8 && |m| > 0 && u == Run(p, r, m[..|m| - 1])
    ensures Run(p, r, m) == FeedByte(p, u, m[|m| - 1])
  {
  }

  /** A difference of registers develops by itself, whatever the message. */
  lemma {:induction false} RunLinear(p: seq<bool>, r: seq<bool>, d: seq<bool>, m: seq<Byte>, k: nat)
    requires |p| == |r| == |d| >= 8 && k == 8 * |m|
    ensures Run(p, Xor(r, d), m) == Xor(Run(p, r, m), Steps(p, d, k))
    decreases |m|
  {
    if |m| > 0 {
      var front, x := m[..|m| - 1], m[|m| - 1];
      var u, v, s := Run(p, r, front), Steps(p, d, k - 8), Xor(r, d);
      assert Run(p, s, front) == Xor(u, v) by {
        RunLinear(p, r, d, front, k - 8);
      }
      RunStep(p, s, m, Xor(u, v));
      RunStep(p, r, m, u);
      FeedLinear(p, u, v, x);
      StepsAdd(p, d, k - 8, 8);
    }
  }

  lemma FeedLinear(p: seq<bool>, u: seq<bool>, v: seq<bool>, x: Byte)
    requires |p| == |u| == |v| >= 8
    ensures FeedByte(p, Xor(u, v), x) == Xor(FeedByte(p, u, x), Steps(p, v, 8))
  {
    var y := Resize(x, |u|);
    XorMiddle(u, v, y);
    StepsLinear(p, Xor(u, y), v, 8);
  }

  lemma XorMiddle(u: seq<bool>, v: seq<bool>, x: seq<bool>)
    requires |u| == |v| == |x|
    ensures Xor(Xor(u, v), x) == Xor(Xor(u, x), v)
  {
  }

  lemma ShiftedBit(x: Byte, t: nat, k: nat, i: nat)
    requires k + 8 <= t && i < t
    ensures Shl(Resize(x, t), k)[i] == (k <= i < k + 8 && x[i - k])
  {
  }

  // ----- Differences -----

  ghost predicate Nonzero(d: seq<bool>) {
    exists i :: 0 <= i < |d| && d[i]
  }

  /** With the polynomial's lowest bit set, no step takes a difference to zero. */
  lemma StepKeepsNonzero(p: seq<bool>, w: nat, d: seq<bool>)
    requires |p| == |d| && 0 < w <= |p| && p[w - 1] && Fits(p, w) && Fits(d, w) && Nonzero(d)
    ensures Fits(Step(p, d), w) && Nonzero(Step(p, d))
  {
    if d[0] {
      assert Step(p, d)[w - 1];
    } else {
      var i :| 0 <= i < |d| && d[i];
      assert Step(p, d)[i - 1];
    }
  }

  lemma {:induction false} StepsKeepNonzero(p: seq<bool>, w: nat, d: seq<bool>, n: nat)
    requires |p| == |d| && 0 < w <= |p| && p[w - 1] && Fits(p, w) && Fits(d, w) && Nonzero(d)
    ensures Fits(Steps(p, d, n), w) && Nonzero(Steps(p, d, n))
  {
    if n > 0 {
      StepsKeepNonzero(p, w, d, n - 1);
      StepKeepsNonzero(p, w, Steps(p, d, n - 1));
    }
  }

  lemma SameSum(u: seq<bool>, c: seq<bool>, d: seq<bool>)
    requires |u| == |c| == |d|
    ensures Xor(u, c) == Xor(Xor(u, d), Xor(c, d))
  {
  }

  lemma LowDiffers(r: seq<bool>, d: seq<bool>, w: nat)
    requires |r| == |d| && w <= |r| && Fits(d, w) && Nonzero(d)
    ensures Xor(r, d)[..w] != r[..w]
  {
    var i :| 0 <= i < |d| && d[i];
    assert Xor(r, d)[..w][i] != r[..w][i];
  }
}
