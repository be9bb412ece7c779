/** Checks that are not reflected: the register moves to the left, and the bits from w on are of no account.

  Reversing the lowest w bits turns such a check into a reflected one. */
module CrcMirror {
  import opened Bits
  import opened Crc

  function StepLeft(p: seq<bool>, w: nat, r: seq<bool>): (s: seq<bool>)
    requires |p| == |r| && 0 < w <= |r|
    ensures |s| == |r|
  {
    if r[w - 1] then Xor(Shl(r, 1), p) else Shl(r, 1)
  }

  function StepsLeft(p: seq<bool>, w: nat, r: seq<bool>, n: nat): (s: seq<bool>)
    requires |p| == |r| && 0 < w <= |r|
    ensures |s| == |r|
  {
    if n == 0 then r else StepLeft(p, w, StepsLeft(p, w, r, n - 1))
  }

  /** A byte at the upper end of the w bits. */
  function Raise(x: Byte, w: nat, t: nat): (s: seq<bool>)
    requires 8 <= w <= t
    ensures |s| == t
  {
    Shl(Resize(x, t), w - 8)
  }

  function FeedLeft(p: seq<bool>, w: nat, r: seq<bool>, x: Byte): (s: seq<bool>)
    requires |p| == |r| && 8 <= w <= |r|
    ensures |s| == |r|
  {
    StepsLeft(p, w, Xor(r, Raise(x, w, |r|)), 8)
  }

  function RunLeft(p: seq<bool>, w: nat, r: seq<bool>, m: seq<Byte>): (s: seq<bool>)
    requires |p| == |r| && 8 <= w <= |r|
    ensures |s| == |r|
  {
    if |m| == 0 then r else FeedLeft(p, w, RunLeft(p, w, r, m[..|m| - 1]), m[|m| - 1])
  }

  // ----- The mirror image -----

  /** The lowest w bits in reverse. */
  function Image(r: seq<bool>, w: nat): (s: seq<bool>)
    requires w <= |r|
    ensures |s| == w
  {
    Reverse(r[..w])
  }

  function Flip(m: seq<Byte>): (r: seq<Byte>)
    ensures |r| == |m|
  {
    seq(|m|, i requires 0 <= i < |m| => Reverse(m[i]))
  }

  lemma ImageXor(a: seq<bool>, b: seq<bool>, w: nat)
    requires |a| == |b| && w <= |a|
    ensures Image(Xor(a, b), w) == Xor(Image(a, w), Image(b, w))
  {
  }

  lemma ImageShl(a: seq<bool>, w: nat, k: nat)
    requires k <= w <= |a|
    ensures Image(Shl(a, k), w) == Shr(Image(a, w), k)
  {
  }

  lemma ImageRaise(x: Byte, w: nat, t: nat)
    requires 8 <= w <= t
    ensures Image(Raise(x, w, t), w) == Resize(Reverse(x), w)
  {
    forall i | 0 <= i < w ensures Image(Raise(x, w, t), w)[i] == Resize(Reverse(x), w)[i] {
      ShiftedBit(x, t, w - 8, w - 1 - i);
    }
  }

  lemma ImageStep(p: seq<bool>, w: nat, r: seq<bool>)
    requires |p| == |r| && 0 < w <= |r|
    ensures Image(StepLeft(p, w, r), w) == Step(Image(p, w), Image(r, w))
  {
    ImageShl(r, w, 1);
    ImageXor(Shl(r, 1), p, w);
  }

  lemma {:induction false} ImageSteps(p: seq<bool>, w: nat, r: seq<bool>, n: nat)
    requires |p| == |r| && 0 < w <= |r|
    ensures Image(StepsLeft(p, w, r, n), w) == Steps(Image(p, w), Image(r, w), n)
  {
    if n > 0 {
      ImageSteps(p, w, r, n - 1);
      ImageStep(p, w, StepsLeft(p, w, r, n - 1));
    }
  }

  lemma ImageFeed(p: seq<bool>, w: nat, r: seq<bool>, x: Byte)
    requires |p| == |r| && 8 <= w <= |r|
    ensures Image(FeedLeft(p, w, r, x), w) == FeedByte(Image(p, w), Image(r, w), Reverse(x))
  {
    var y := Raise(x, w, |r|);
    ImageXor(r, y, w);
    ImageRaise(x, w, |r|);
    ImageSteps(p, w, Xor(r, y), 8);
  }

  /** A check that is not reflected is the mirror image of one that is. */
  lemma {:induction false} ImageRun(p: seq<bool>, w: nat, r: seq<bool>, m: seq<Byte>)
    requires |p| == |r| && 8 <= w <= |r|
    ensures Image(RunLeft(p, w, r, m), w) == Run(Image(p, w), Image(r, w), Flip(m))
    decreases |m|
  {
    if |m| > 0 {
      var n := |m| - 1;
      ImageRun(p, w, r, m[..n]);
      ImageFeed(p, w, RunLeft(p, w, r, m[..n]), m[n]);
      FlipFront(m, n);
    }
  }

  lemma FlipFront(m: seq<Byte>, n: nat)
    requires n < |m|
    ensures Flip(m)[..n] == Flip(m[..n]) && Flip(m)[n] == Reverse(m[n])
  {
  }

  /** Registers with equal images agree in the bits that count. */
  lemma ImageInjective(a: seq<bool>, b: seq<bool>, w: nat)
    requires w <= |a| && w <= |b|
    ensures Image(a, w) == Image(b, w) <==> a[..w] == b[..w]
  {
    ReverseTwice(a[..w]);
    ReverseTwice(b[..w]);
  }

  // ----- The table -----

  /** An entry of the table, masked. */
  function EntryLeft(p: seq<bool>, w: nat, x: Byte): (s: seq<bool>)
    requires 8 <= w <= |p|
    ensures |s| == |p|
  {
    Mask(StepsLeft(p, w, Raise(x, w, |p|), 8), w)
  }

  /** The byte at the upper end of the w bits. */
  function High8(r: seq<bool>, w: nat): Byte
    requires 8 <= w <= |r|
  {
    Low8(Shr(r, w - 8))
  }

  function LookupLeft(p: seq<bool>, w: nat, r: seq<bool>, x: Byte): (s: seq<bool>)
    requires |p| == |r| && 8 <= w <= |r|
    ensures |s| == |r|
  {
    Xor(Shl(r, 8), EntryLeft(p, w, Xor(High8(r, w), x)))
  }

  lemma ImageEntry(p: seq<bool>, w: nat, x: Byte)
    requires 8 <= w <= |p|
    ensures Image(EntryLeft(p, w, x), w) == Entry(Image(p, w), Reverse(x))
  {
    var y := Raise(x, w, |p|);
    ImageSteps(p, w, y, 8);
    ImageRaise(x, w, |p|);
    assert EntryLeft(p, w, x)[..w] == StepsLeft(p, w, y, 8)[..w];
  }

  lemma ImageHigh8(r: seq<bool>, w: nat, x: Byte)
    requires 8 <= w <= |r|
    ensures Reverse(Xor(High8(r, w), x)) == Xor(Low8(Image(r, w)), Reverse(x))
  {
  }

  /** Modulo 2^w, one table look-up does what eight steps do. */
  lemma LookupLeftIsFeed(p: seq<bool>, w: nat, r: seq<bool>, x: Byte)
    requires |p| == |r| && 8 <= w <= |r|
    ensures Image(LookupLeft(p, w, r, x), w) == Image(FeedLeft(p, w, r, x), w)
  {
    var e := EntryLeft(p, w, Xor(High8(r, w), x));
    ImageXor(Shl(r, 8), e, w);
    ImageShl(r, w, 8);
    ImageEntry(p, w, Xor(High8(r, w), x));
    ImageHigh8(r, w, x);
    LookupIsFeed(Image(p, w), Image(r, w), Reverse(x));
    ImageFeed(p, w, r, x);
  }
}
