/** Whole checks: parameters, the final step, several parts, and detection of errors. */
module CrcChecks {
  import opened Bits
  import opened Crc
  import opened CrcMirror

  /** Reflect: the lowest n bits in reverse, the others dropped. */
  function Reflected(a: seq<bool>, n: nat): (r: seq<bool>)
    requires n <= |a|
    ensures |r| == |a|
  {
    Resize(Image(a, n), |a|)
  }

  datatype Parameters = Parameters(t: nat, w: nat, polynomial: seq<bool>, initialValue: seq<bool>, finalXor: seq<bool>,
                                   reflectInput: bool, reflectOutput: bool)
  {
    predicate Valid() {
      8 <= w <= t == |polynomial| == |initialValue| == |finalXor|
    }
  }

  function Remainder(q: Parameters, r: seq<bool>, m: seq<Byte>): (s: seq<bool>)
    requires q.Valid() && |r| == q.t
    ensures |s| == q.t
  {
    if q.reflectInput then Run(Reflected(q.polynomial, q.w), r, m) else RunLeft(q.polynomial, q.w, r, m)
  }

  function Finalized(q: Parameters, r: seq<bool>): (c: seq<bool>)
    requires q.Valid() && |r| == q.t
    ensures |c| == q.t
  {
    Mask(Xor(if q.reflectInput != q.reflectOutput then Reflected(r, q.w) else r, q.finalXor), q.w)
  }

  function Unfinalized(q: Parameters, c: seq<bool>): (r: seq<bool>)
    requires q.Valid() && |c| == q.t
    ensures |r| == q.t
  {
    var x := Xor(Mask(c, q.w), q.finalXor);
    if q.reflectInput != q.reflectOutput then Reflected(x, q.w) else x
  }

  function Check(q: Parameters, m: seq<Byte>): (c: seq<bool>)
    requires q.Valid()
    ensures |c| == q.t
  {
    Finalized(q, Remainder(q, q.initialValue, m))
  }

  /** The check continued from an earlier one. */
  function Continued(q: Parameters, c: seq<bool>, m: seq<Byte>): (d: seq<bool>)
    requires q.Valid() && |c| == q.t
    ensures |d| == q.t
  {
    Finalized(q, Remainder(q, Unfinalized(q, c), m))
  }

  // ----- The final step and its inverse -----

  /** A check tells the lowest w bits of the register, and no more. */
  lemma FinalizedInjective(q: Parameters, r: seq<bool>, s: seq<bool>)
    requires q.Valid() && |r| == |s| == q.t
    ensures Finalized(q, r) == Finalized(q, s) <==> r[..q.w] == s[..q.w]
  {
    if q.reflectInput != q.reflectOutput {
      ImageInjective(r, s, q.w);
      MaskXorInjective(Reflected(r, q.w), Reflected(s, q.w), q.finalXor, q.w);
      assert Reflected(r, q.w)[..q.w] == Image(r, q.w) && Reflected(s, q.w)[..q.w] == Image(s, q.w);
    } else {
      MaskXorInjective(r, s, q.finalXor, q.w);
    }
  }

  lemma MaskXorInjective(a: seq<bool>, b: seq<bool>, x: seq<bool>, w: nat)
    requires |a| == |b| == |x| && w <= |x|
    ensures Mask(Xor(a, x), w) == Mask(Xor(b, x), w) <==> a[..w] == b[..w]
  {
    var u, v := Mask(Xor(a, x), w), Mask(Xor(b, x), w);
    if u == v {
      forall i | 0 <= i < w ensures a[i] == b[i] {
        assert u[i] == (a[i] != x[i]) && v[i] == (b[i] != x[i]);
      }
    } else {
      var i :| 0 <= i < |u| && u[i] != v[i];
      assert i < w && a[..w][i] != b[..w][i];
    }
  }

  /** The bits from w on that undoing the final step leaves. */
  function Surplus(q: Parameters): seq<bool>
    requires q.Valid()
  {
    if q.reflectInput != q.reflectOutput then Zeros(q.t - q.w) else q.finalXor[q.w..]
  }

  /** Undoing restores the lowest w bits; what it leaves above them does not depend on the register. */
  lemma UndoRestores(q: Parameters, r: seq<bool>)
    requires q.Valid() && |r| == q.t
    ensures Unfinalized(q, Finalized(q, r)) == r[..q.w] + Surplus(q)
  {
    var w := q.w;
    var c := Finalized(q, r);
    if q.reflectInput != q.reflectOutput {
      assert Xor(Mask(c, w), q.finalXor)[..w] == Image(r, w);
      ReverseTwice(r[..w]);
    } else {
      assert Xor(Mask(c, w), q.finalXor)[..w] == r[..w];
    }
  }

  /** So the register itself comes back exactly if its upper bits were those. */
  lemma UndoExactly(q: Parameters, r: seq<bool>)
    requires q.Valid() && |r| == q.t
    ensures Unfinalized(q, Finalized(q, r)) == r <==> r[q.w..] == Surplus(q)
  {
    UndoRestores(q, r);
    assert r == r[..q.w] + r[q.w..];
    assert (r[..q.w] + Surplus(q))[q.w..] == Surplus(q);
  }

  lemma FinalizedUndoes(q: Parameters, c: seq<bool>)
    requires q.Valid() && |c| == q.t
    ensures Finalized(q, Unfinalized(q, c)) == Mask(c, q.w)
  {
    var w := q.w;
    var x := Xor(Mask(c, w), q.finalXor);
    XorCancels(Mask(c, w), q.finalXor);
    if q.reflectInput != q.reflectOutput {
      ReflectedTwice(x, w);
      MaskXorInjective(Reflected(Reflected(x, w), w), x, q.finalXor, w);
    }
    assert Mask(Mask(c, w), w) == Mask(c, w);
  }

  lemma ReflectedTwice(x: seq<bool>, w: nat)
    requires w <= |x|
    ensures Reflected(Reflected(x, w), w)[..w] == x[..w]
  {
    ReverseTwice(x[..w]);
    assert Reflected(x, w)[..w] == Image(x, w);
    assert Reflected(Reflected(x, w), w)[..w] == Image(Reflected(x, w), w);
  }

  lemma ReflectedPolynomial(q: Parameters)
    requires q.Valid()
    ensures Fits(Reflected(q.polynomial, q.w), q.w) && Reflected(q.polynomial, q.w)[q.w - 1] == q.polynomial[0]
  {
  }

  // ----- Several parts -----

  /** Parameters with which parts can be checked one after the other. */
  predicate Joins(q: Parameters)
    requires q.Valid()
  {
    !q.reflectInput || (Fits(q.initialValue, q.w) && (q.reflectOutput ==> Fits(q.finalXor, q.w)))
  }

  ghost predicate JoinsAt(q: Parameters, a: seq<Byte>, b: seq<Byte>)
    requires q.Valid()
  {
    Continued(q, Check(q, a), b) == Check(q, a + b)
  }

  lemma StepFits(p: seq<bool>, w: nat, r: seq<bool>, v: nat)
    requires |p| == |r| > 0 && Fits(p, w) && Fits(r, v) && w <= v
    ensures Fits(Step(p, r), if v > w then v - 1 else w)
  {
  }

  lemma {:induction false} StepsFit(p: seq<bool>, w: nat, r: seq<bool>, v: nat, n: nat)
    requires |p| == |r| > 0 && Fits(p, w) && Fits(r, v) && w <= v
    ensures Fits(Steps(p, r, n), if v > w + n then v - n else w)
  {
    if n > 0 {
      StepsFit(p, w, r, v, n - 1);
      StepFits(p, w, Steps(p, r, n - 1), if v > w + n - 1 then v - (n - 1) else w);
    }
  }

  /** Bits above the width are shifted out and do not come back. */
  lemma {:induction false} RunFits(p: seq<bool>, w: nat, r: seq<bool>, v: nat, m: seq<Byte>)
    requires |p| == |r| && 8 <= w <= |p| && Fits(p, w) && Fits(r, v) && w <= v
    ensures Fits(Run(p, r, m), if v > w + 8 * |m| then v - 8 * |m| else w)
    decreases |m|
  {
    if |m| > 0 {
      var n := |m| - 1;
      RunFits(p, w, r, v, m[..n]);
      var u, x := Run(p, r, m[..n]), Resize(m[n], |r|);
      var h := if v > w + 8 * n then v - 8 * n else w;
      assert Fits(Xor(u, x), h);
      StepsFit(p, w, Xor(u, x), h, 8);
    }
  }

  lemma PartsJoinReflected(q: Parameters, a: seq<Byte>, b: seq<Byte>)
    requires q.Valid() && q.reflectInput && Joins(q)
    ensures JoinsAt(q, a, b)
  {
    var p, w := Reflected(q.polynomial, q.w), q.w;
    var r := Run(p, q.initialValue, a);
    ReflectedPolynomial(q);
    RunFits(p, w, q.initialValue, w, a);
    assert r[w..] == Zeros(q.t - w);
    assert q.reflectOutput ==> q.finalXor[w..] == Zeros(q.t - w);
    UndoExactly(q, r);
    RunSplits(p, q.initialValue, a, b);
  }

  lemma FlipTwo(a: seq<Byte>, b: seq<Byte>)
    ensures Flip(a + b) == Flip(a) + Flip(b)
  {
  }

  lemma PartsJoinLeft(q: Parameters, a: seq<Byte>, b: seq<Byte>)
    requires q.Valid() && !q.reflectInput
    ensures JoinsAt(q, a, b)
  {
    var p, w, i := q.polynomial, q.w, q.initialValue;
    var r := RunLeft(p, w, i, a);
    var u := Unfinalized(q, Finalized(q, r));
    UndoRestores(q, r);
    assert u[..w] == r[..w];
    ImageInjective(u, r, w);
    ImageRun(p, w, i, a);
    ImageRun(p, w, u, b);
    ImageRun(p, w, i, a + b);
    FlipTwo(a, b);
    RunSplits(Image(p, w), Image(i, w), Flip(a), Flip(b));
    ImageInjective(RunLeft(p, w, u, b), RunLeft(p, w, i, a + b), w);
    FinalizedInjective(q, RunLeft(p, w, u, b), RunLeft(p, w, i, a + b));
  }

  /** Some continuation of the message shows any difference of registers. */
  lemma Distinguishes(p: seq<bool>, w: nat, y: seq<bool>, d: seq<bool>) returns (b: seq<Byte>)
    requires |p| == |y| == |d| && 8 <= w <= |p| && Nonzero(d)
    ensures Run(p, Xor(y, d), b)[..w] != Run(p, y, b)[..w]
  {
    var i := LowestBit(d);
    var k := i / 8;
    b := seq(k, _ => Zeros(8));
    StepsShift(p, d, 8 * k);
    RunLinear(p, y, d, b, 8 * k);
    assert Shr(d, 8 * k)[i - 8 * k];
    BitDiffers(Run(p, y, b), Shr(d, 8 * k), w, i - 8 * k);
  }

  lemma BitDiffers(u: seq<bool>, d: seq<bool>, w: nat, j: nat)
    requires |u| == |d| && j < w <= |u| && d[j]
    ensures Xor(u, d)[..w] != u[..w]
  {
    assert Xor(u, d)[..w][j] != u[..w][j];
  }

  lemma LowestBit(d: seq<bool>) returns (i: nat)
    requires Nonzero(d)
    ensures i < |d| && d[i] && forall j :: 0 <= j < i ==> !d[j]
  {
    i := 0;
    while !d[i]
      invariant i < |d| && forall j :: 0 <= j < i ==> !d[j]
      decreases |d| - i
    {
      i := i + 1;
    }
  }

  lemma RegistersDiffer(p: seq<bool>, w: nat, x: seq<bool>, y: seq<bool>) returns (b: seq<Byte>)
    requires |p| == |x| == |y| && 8 <= w <= |p| && x != y
    ensures Run(p, x, b)[..w] != Run(p, y, b)[..w]
  {
    var d := Xor(x, y);
    XorDiffers(x, y);
    var i :| 0 <= i < |d| && d[i] != Zeros(|x|)[i];
    b := Distinguishes(p, w, y, d);
    XorBack(x, y);
  }

  lemma XorBack(x: seq<bool>, y: seq<bool>)
    requires |x| == |y|
    ensures Xor(y, Xor(x, y)) == x
  {
  }

  /** If undoing the final step does not restore the register, the parts do not join. */
  lemma Mismatch(q: Parameters, a: seq<Byte>) returns (b: seq<Byte>)
    requires q.Valid() && q.reflectInput && Remainder(q, q.initialValue, a)[q.w..] != Surplus(q)
    ensures !JoinsAt(q, a, b)
  {
    var p := Reflected(q.polynomial, q.w);
    var x := Run(p, q.initialValue, a);
    var y := Unfinalized(q, Finalized(q, x));
    UndoExactly(q, x);
    b := RegistersDiffer(p, q.w, x, y);
    RunSplits(p, q.initialValue, a, b);
    FinalizedInjective(q, Run(p, x, b), Run(p, y, b));
  }

  lemma PartsMayNotJoin(q: Parameters) returns (a: seq<Byte>, b: seq<Byte>)
    requires q.Valid() && !Joins(q)
    ensures !JoinsAt(q, a, b)
  {
    var w := q.w;
    a := [];
    if q.initialValue[w..] == Surplus(q) {
      a := seq(q.t, _ => Zeros(8));
      ReflectedPolynomial(q);
      RunFits(Reflected(q.polynomial, w), w, q.initialValue, q.t, a);
      var r := Remainder(q, q.initialValue, a);
      var i :| w <= i < q.t && (q.initialValue[i] || (q.reflectOutput && q.finalXor[i]));
      assert Surplus(q)[i - w] && !r[w..][i - w] by {
        assert q.initialValue[w..][i - w] == q.initialValue[i] && q.finalXor[w..][i - w] == q.finalXor[i];
        assert r[w..][i - w] == r[i];
      }
    }
    b := Mismatch(q, a);
  }

  /** Checking parts one after the other gives the check of the whole for every division exactly if the parameters
      fit the width, or the register moves to the left. */
  lemma PartsJoin(q: Parameters)
    requires q.Valid()
    ensures (forall a, b :: JoinsAt(q, a, b)) <==> Joins(q)
  {
    if Joins(q) {
      forall a, b ensures JoinsAt(q, a, b) {
        if q.reflectInput {
          PartsJoinReflected(q, a, b);
        } else {
          PartsJoinLeft(q, a, b);
        }
      }
    } else {
      var a, b := PartsMayNotJoin(q);
    }
  }

  /** With a 16-bit type, width 8 and bit 8 of the initial value set, they do not. */
  lemma WideInitialValue()
    ensures var q := Parameters(16, 8, Zeros(16), Zeros(8) + [true] + Zeros(7), Zeros(16), true, true);
      q.Valid() && exists a, b :: !JoinsAt(q, a, b)
  {
    var q := Parameters(16, 8, Zeros(16), Zeros(8) + [true] + Zeros(7), Zeros(16), true, true);
    assert q.initialValue[8];
    PartsJoin(q);
  }
}
