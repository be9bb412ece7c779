/** Detection of errors: which bursts of wrong bits a check notices, wherever they lie. */
module CrcBursts {
  import opened Bits
  import opened Crc
  import opened CrcChecks
  import opened CrcMirror

  // ----- The message as a stream of bits -----

  function Stream(m: seq<Byte>): (s: seq<bool>)
    ensures |s| == 8 * |m|
  {
    seq(8 * |m|, i requires 0 <= i < 8 * |m| => m[i / 8][i % 8])
  }

  /** The message with this stream. */
  function Packed(s: seq<bool>): (m: seq<Byte>)
    requires |s| % 8 == 0
    ensures 8 * |m| == |s|
  {
    seq(|s| / 8, j requires 0 <= j < |s| / 8 => s[8 * j..8 * j + 8])
  }

  lemma StreamOfPacked(s: seq<bool>)
    requires |s| % 8 == 0
    ensures Stream(Packed(s)) == s
  {
    var m := Packed(s);
    forall i | 0 <= i < |s| ensures Stream(m)[i] == s[i] {
      assert m[i / 8] == s[8 * (i / 8)..8 * (i / 8) + 8];
    }
  }

  lemma StreamAppends(m: seq<Byte>)
    requires |m| > 0
    ensures Stream(m) == Stream(m[..|m| - 1]) + m[|m| - 1]
  {
    var n := |m| - 1;
    var l, r := Stream(m), Stream(m[..n]) + m[n];
    forall i | 0 <= i < 8 * |m| ensures l[i] == r[i] {
      if i >= 8 * n {
        assert i / 8 == n && i % 8 == i - 8 * n;
      }
    }
  }

  lemma StreamInjective(x: seq<Byte>, y: seq<Byte>)
    requires |x| == |y| && Stream(x) == Stream(y)
    ensures x == y
  {
    forall j | 0 <= j < |x| ensures x[j] == y[j] {
      forall i | 0 <= i < 8 ensures x[j][i] == y[j][i] {
        assert (8 * j + i) / 8 == j && (8 * j + i) % 8 == i;
        assert Stream(x)[8 * j + i] == Stream(y)[8 * j + i];
      }
    }
  }

  // ----- Feeding bits -----

  function FeedBit(p: seq<bool>, r: seq<bool>, b: bool): (s: seq<bool>)
    requires |p| == |r| > 0
    ensures |s| == |r|
  {
    Step(p, r[0 := r[0] != b])
  }

  function FeedBits(p: seq<bool>, r: seq<bool>, s: seq<bool>): (u: seq<bool>)
    requires |p| == |r| > 0
    ensures |u| == |r|
  {
    if |s| == 0 then r else FeedBit(p, FeedBits(p, r, s[..|s| - 1]), s[|s| - 1])
  }

  /** One bit at place n. */
  function BitAt(b: bool, n: nat, t: nat): (r: seq<bool>)
    requires n < t
    ensures |r| == t && forall i :: 0 <= i < t ==> r[i] == (i == n && b)
  {
    Zeros(t)[n := b]
  }

  lemma FeedBitAdds(p: seq<bool>, r: seq<bool>, b: bool)
    requires |p| == |r| > 0
    ensures FeedBit(p, r, b) == Step(p, Xor(r, BitAt(b, 0, |r|)))
  {
    assert r[0 := r[0] != b] == Xor(r, BitAt(b, 0, |r|));
  }

  /** A bit fed after n steps could have been added at place n before them. */
  lemma FeedBitEarlier(p: seq<bool>, u: seq<bool>, n: nat, b: bool)
    requires |p| == |u| && n < |u|
    ensures FeedBit(p, Steps(p, u, n), b) == Steps(p, Xor(u, BitAt(b, n, |u|)), n + 1)
  {
    var e := BitAt(b, n, |u|);
    StepsShift(p, e, n);
    assert Shr(e, n) == BitAt(b, 0, |u|);
    StepsLinear(p, u, e, n);
    FeedBitAdds(p, Steps(p, u, n), b);
  }

  /** Up to t bits fed one after the other may as well be added all at once, before the first step. */
  lemma {:induction false} FeedIsSteps(p: seq<bool>, r: seq<bool>, s: seq<bool>)
    requires |p| == |r| > 0 && |s| <= |r|
    ensures FeedBits(p, r, s) == Steps(p, Xor(r, Resize(s, |r|)), |s|)
    decreases |s|
  {
    var t := |r|;
    if |s| == 0 {
      assert Resize(s, t) == Zeros(t);
      XorZeros(r);
    } else {
      var n := |s| - 1;
      var front := Resize(s[..n], t);
      FeedIsSteps(p, r, s[..n]);
      FeedBitEarlier(p, Xor(r, front), n, s[n]);
      XorAssociates(r, front, BitAt(s[n], n, t));
      assert Resize(s, t) == Xor(front, BitAt(s[n], n, t));
    }
  }

  lemma {:induction false} FeedSplits(p: seq<bool>, r: seq<bool>, a: seq<bool>, b: seq<bool>)
    requires |p| == |r| > 0
    ensures FeedBits(p, r, a + b) == FeedBits(p, FeedBits(p, r, a), b)
    decreases |b|
  {
    if |b| == 0 {
      assert a + b == a;
    } else {
      var n := |b| - 1;
      FeedSplits(p, r, a, b[..n]);
      assert (a + b)[..|a| + n] == a + b[..n];
    }
  }

  /** Feeding bytes is feeding their bits. */
  lemma {:induction false} RunIsFeed(p: seq<bool>, r: seq<bool>, m: seq<Byte>)
    requires |p| == |r| >= 8
    ensures Run(p, r, m) == FeedBits(p, r, Stream(m))
    decreases |m|
  {
    if |m| > 0 {
      var n := |m| - 1;
      var u := Run(p, r, m[..n]);
      RunIsFeed(p, r, m[..n]);
      FeedIsSteps(p, u, m[n]);
      StreamAppends(m);
      FeedSplits(p, r, Stream(m[..n]), m[n]);
    }
  }

  lemma FeedBitLinear(p: seq<bool>, u: seq<bool>, v: seq<bool>, b: bool)
    requires |p| == |u| == |v| > 0
    ensures FeedBit(p, Xor(u, v), b) == Xor(FeedBit(p, u, b), Step(p, v))
  {
    var u', x := u[0 := u[0] != b], Xor(u, v);
    assert x[0 := x[0] != b] == Xor(u', v);
    StepLinear(p, u', v);
  }

  /** A difference of registers develops by itself, whatever the bits. */
  lemma {:induction false} FeedBitsLinear(p: seq<bool>, r: seq<bool>, d: seq<bool>, s: seq<bool>)
    requires |p| == |r| == |d| > 0
    ensures FeedBits(p, Xor(r, d), s) == Xor(FeedBits(p, r, s), Steps(p, d, |s|))
    decreases |s|
  {
    if |s| > 0 {
      var n := |s| - 1;
      FeedBitsLinear(p, r, d, s[..n]);
      FeedBitLinear(p, FeedBits(p, r, s[..n]), Steps(p, d, n), s[n]);
    }
  }

  // ----- Bursts in the stream -----

  lemma ResizedDiffer(c: seq<bool>, d: seq<bool>, w: nat, t: nat)
    requires |c| == |d| <= w <= t && c != d
    ensures Nonzero(Xor(Resize(c, t), Resize(d, t))) && Fits(Xor(Resize(c, t), Resize(d, t)), w)
  {
    var i :| 0 <= i < |c| && c[i] != d[i];
    assert Xor(Resize(c, t), Resize(d, t))[i];
  }

  /** Streams that differ in at most w bits after a common part leave registers that differ in their lowest w bits. */
  lemma PartsDiffer(p: seq<bool>, w: nat, u: seq<bool>, c: seq<bool>, d: seq<bool>, b: seq<bool>)
    requires |p| == |u| && 0 < w <= |p| && p[w - 1] && Fits(p, w) && |c| == |d| <= w && c != d
    ensures FeedBits(p, u, c + b)[..w] != FeedBits(p, u, d + b)[..w]
  {
    var t, n := |u|, |c|;
    var x, y := Resize(c, t), Resize(d, t);
    var e := Xor(x, y);
    ResizedDiffer(c, d, w, t);
    FeedIsSteps(p, u, c);
    FeedIsSteps(p, u, d);
    SameSum(u, x, y);
    StepsLinear(p, Xor(u, y), e, n);
    StepsKeepNonzero(p, w, e, n);
    FeedSplits(p, u, c, b);
    FeedSplits(p, u, d, b);
    DifferenceStays(p, w, FeedBits(p, u, d), Steps(p, e, n), b);
  }

  lemma DifferenceStays(p: seq<bool>, w: nat, y: seq<bool>, f: seq<bool>, b: seq<bool>)
    requires |p| == |y| == |f| && 0 < w <= |p| && p[w - 1] && Fits(p, w) && Fits(f, w) && Nonzero(f)
    ensures FeedBits(p, Xor(y, f), b)[..w] != FeedBits(p, y, b)[..w]
  {
    FeedBitsLinear(p, y, f, b);
    StepsKeepNonzero(p, w, f, |b|);
    LowDiffers(FeedBits(p, y, b), Steps(p, f, |b|), w);
  }

  /** Two streams that are the same outside the w places from k on. */
  ghost predicate SameOutside(x: seq<bool>, y: seq<bool>, k: nat, w: nat) {
    |x| == |y| && forall i :: 0 <= i < |x| && !(k <= i < k + w) ==> x[i] == y[i]
  }

  lemma BurstSeen(p: seq<bool>, w: nat, r: seq<bool>, x: seq<bool>, y: seq<bool>, k: nat)
    requires |p| == |r| && 0 < w <= |p| && p[w - 1] && Fits(p, w) && x != y && SameOutside(x, y, k, w)
    ensures FeedBits(p, r, x)[..w] != FeedBits(p, r, y)[..w]
  {
    var a, c, d, b := Window(x, y, k, w);
    FeedSplits(p, r, a, c + b);
    FeedSplits(p, r, a, d + b);
    PartsDiffer(p, w, FeedBits(p, r, a), c, d, b);
  }

  lemma Window(x: seq<bool>, y: seq<bool>, k: nat, w: nat) returns (a: seq<bool>, c: seq<bool>, d: seq<bool>, b: seq<bool>)
    requires x != y && SameOutside(x, y, k, w)
    ensures x == a + (c + b) && y == a + (d + b) && |c| == |d| <= w && c != d
  {
    var i :| 0 <= i < |x| && x[i] != y[i];
    var hi := if k + w < |x| then k + w else |x|;
    SameEnds(x, y, k, hi);
    MiddlesDiffer(x, y, k, hi, i);
    InThree(x, k, hi);
    InThree(y, k, hi);
    a, b, c, d := x[..k], x[hi..], x[k..hi], y[k..hi];
  }

  lemma SameEnds(x: seq<bool>, y: seq<bool>, k: nat, hi: nat)
    requires |x| == |y| && k <= hi <= |x| && forall i :: 0 <= i < |x| && !(k <= i < hi) ==> x[i] == y[i]
    ensures x[..k] == y[..k] && x[hi..] == y[hi..]
  {
    forall i | 0 <= i < |x| - hi ensures x[hi..][i] == y[hi..][i] {
      assert x[hi + i] == y[hi + i];
    }
  }

  lemma MiddlesDiffer(x: seq<bool>, y: seq<bool>, k: nat, hi: nat, i: nat)
    requires |x| == |y| && k <= i < hi <= |x| && x[i] != y[i]
    ensures x[k..hi] != y[k..hi]
  {
    assert x[k..hi][i - k] != y[k..hi][i - k];
  }

  lemma InThree(x: seq<bool>, k: nat, hi: nat)
    requires k <= hi <= |x|
    ensures x == x[..k] + (x[k..hi] + x[hi..])
  {
  }

  // ----- Bursts in messages -----

  /** The bits of a message in the order in which the check takes them in. */
  function FedBits(q: Parameters, m: seq<Byte>): (s: seq<bool>)
    ensures |s| == 8 * |m|
  {
    Stream(if q.reflectInput then m else Flip(m))
  }

  function FedPolynomial(q: Parameters): (p: seq<bool>)
    requires q.Valid()
    ensures q.w <= |p| && p[q.w - 1] == q.polynomial[0] && Fits(p, q.w)
  {
    if q.reflectInput then ReflectedPolynomial(q); Reflected(q.polynomial, q.w) else Image(q.polynomial, q.w)
  }

  function FedStart(q: Parameters): (r: seq<bool>)
    requires q.Valid()
    ensures |r| == |FedPolynomial(q)|
  {
    if q.reflectInput then q.initialValue else Image(q.initialValue, q.w)
  }

  /** What the check tells of a message is the lowest w bits of the register that took in its bits. */
  lemma ChecksCompare(q: Parameters, x: seq<Byte>, y: seq<Byte>)
    requires q.Valid()
    ensures Check(q, x) == Check(q, y) <==>
      FeedBits(FedPolynomial(q), FedStart(q), FedBits(q, x))[..q.w] == FeedBits(FedPolynomial(q), FedStart(q), FedBits(q, y))[..q.w]
  {
    var r, s := Remainder(q, q.initialValue, x), Remainder(q, q.initialValue, y);
    FinalizedInjective(q, r, s);
    if q.reflectInput {
      RunIsFeed(FedPolynomial(q), q.initialValue, x);
      RunIsFeed(FedPolynomial(q), q.initialValue, y);
    } else {
      ImageInjective(r, s, q.w);
      ImageIsFeed(q, x);
      ImageIsFeed(q, y);
    }
  }

  lemma ImageIsFeed(q: Parameters, m: seq<Byte>)
    requires q.Valid() && !q.reflectInput
    ensures Image(Remainder(q, q.initialValue, m), q.w) == FeedBits(FedPolynomial(q), FedStart(q), FedBits(q, m))[..q.w]
  {
    ImageRun(q.polynomial, q.w, q.initialValue, m);
    RunIsFeed(FedPolynomial(q), FedStart(q), Flip(m));
  }

  /** Different messages of one length whose bits, as they are taken in, are the same outside one window of w. */
  ghost predicate IsBurst(q: Parameters, x: seq<Byte>, y: seq<Byte>, k: nat) {
    |x| == |y| && x != y && SameOutside(FedBits(q, x), FedBits(q, y), k, q.w)
  }

  lemma FlipInjective(c: seq<Byte>, d: seq<Byte>)
    requires |c| == |d| && Flip(c) == Flip(d)
    ensures c == d
  {
    forall i | 0 <= i < |c| ensures c[i] == d[i] {
      assert Flip(c)[i] == Flip(d)[i];
      ReverseTwice(c[i]);
      ReverseTwice(d[i]);
    }
  }

  lemma FedBitsInjective(q: Parameters, x: seq<Byte>, y: seq<Byte>)
    requires |x| == |y| && FedBits(q, x) == FedBits(q, y)
    ensures x == y
  {
    if q.reflectInput {
      StreamInjective(x, y);
    } else {
      StreamInjective(Flip(x), Flip(y));
      FlipInjective(x, y);
    }
  }

  /** If the polynomial's lowest bit is set, a burst of at most w bits is noticed, whether or not it begins or ends at
      the border of a byte. */
  lemma BurstDetected(q: Parameters, x: seq<Byte>, y: seq<Byte>, k: nat)
    requires q.Valid() && q.polynomial[0] && IsBurst(q, x, y, k)
    ensures Check(q, x) != Check(q, y)
  {
    if FedBits(q, x) == FedBits(q, y) {
      FedBitsInjective(q, x, y);
    }
    BurstSeen(FedPolynomial(q), q.w, FedStart(q), FedBits(q, x), FedBits(q, y), k);
    ChecksCompare(q, x, y);
  }

  // ----- The condition is necessary -----

  /** If the polynomial's lowest bit is not set, this difference disappears in one step. */
  function Vanishing(p: seq<bool>, w: nat): (e: seq<bool>)
    requires 0 < w <= |p|
    ensures |e| == w
  {
    [true] + p[..w - 1]
  }

  lemma VanishingStep(p: seq<bool>, w: nat)
    requires 0 < w <= |p| && Fits(p, w) && !p[w - 1]
    ensures Step(p, Resize(Vanishing(p, w), |p|)) == Zeros(|p|)
  {
    var e := Resize(Vanishing(p, w), |p|);
    forall i | 0 <= i < |p| ensures Step(p, e)[i] == Zeros(|p|)[i] {
      if i < w - 1 {
        assert Shr(e, 1)[i] == e[i + 1] == p[i];
      }
    }
  }

  lemma {:induction false} StepsOfZeros(p: seq<bool>, n: nat)
    requires |p| > 0
    ensures Steps(p, Zeros(|p|), n) == Zeros(|p|)
  {
    if n > 0 {
      StepsOfZeros(p, n - 1);
      assert Step(p, Zeros(|p|)) == Zeros(|p|);
    }
  }

  lemma VanishingFed(p: seq<bool>, w: nat, r: seq<bool>)
    requires |r| == |p| && 0 < w <= |p| && Fits(p, w) && !p[w - 1]
    ensures FeedBits(p, r, Vanishing(p, w)) == FeedBits(p, r, Zeros(w))
  {
    var t := |p|;
    var e := Resize(Vanishing(p, w), t);
    FeedIsSteps(p, r, Vanishing(p, w));
    FeedIsSteps(p, r, Zeros(w));
    assert Resize(Zeros(w), t) == Zeros(t);
    XorZeros(r);
    StepsLinear(p, r, e, w);
    StepsAdd(p, e, 1, w - 1);
    assert Steps(p, e, 1) == Step(p, Steps(p, e, 0)) == Step(p, e);
    VanishingStep(p, w);
    StepsOfZeros(p, w - 1);
    XorZeros(Steps(p, r, w));
  }

  lemma MessageOf(q: Parameters, s: seq<bool>) returns (m: seq<Byte>)
    requires |s| % 8 == 0
    ensures FedBits(q, m) == s && 8 * |m| == |s|
  {
    StreamOfPacked(s);
    m := Packed(s);
    if !q.reflectInput {
      FlipTwice(m);
      m := Flip(m);
    }
  }

  lemma FlipTwice(m: seq<Byte>)
    ensures Flip(Flip(m)) == m
  {
    forall i | 0 <= i < |m| ensures Flip(Flip(m))[i] == m[i] {
      ReverseTwice(m[i]);
    }
  }

  /** If the polynomial's lowest bit is not set, some burst goes unnoticed. */
  lemma BurstMissed(q: Parameters) returns (x: seq<Byte>, y: seq<Byte>)
    requires q.Valid() && !q.polynomial[0]
    ensures IsBurst(q, x, y, 0) && Check(q, x) == Check(q, y)
  {
    var p, r, w := FedPolynomial(q), FedStart(q), q.w;
    var rest := Zeros(7 * w);
    var e, z := Vanishing(p, w), Zeros(w);
    x := MessageOf(q, e + rest);
    y := MessageOf(q, z + rest);
    assert (e + rest)[0] != (z + rest)[0];
    VanishingFed(p, w, r);
    FeedSplits(p, r, e, rest);
    FeedSplits(p, r, z, rest);
    ChecksCompare(q, x, y);
  }

  /** All bursts of at most w bits are noticed, exactly if the polynomial's lowest bit is set. */
  lemma BurstsDetected(q: Parameters)
    requires q.Valid()
    ensures (forall x, y, k :: IsBurst(q, x, y, k) ==> Check(q, x) != Check(q, y)) <==> q.polynomial[0]
  {
    if q.polynomial[0] {
      forall x, y, k | IsBurst(q, x, y, k) ensures Check(q, x) != Check(q, y) {
        BurstDetected(q, x, y, k);
      }
    } else {
      var x, y := BurstMissed(q);
    }
  }
}
