/** Unsigned integers of a fixed width as bit sequences, lowest bit first. */
module Bits {

  function Zeros(n: nat): (r: seq<bool>)
    ensures |r| == n
  {
    seq(n, _ => false)
  }

  function Xor(a: seq<bool>, b: seq<bool>): (r: seq<bool>)
    requires |a| == |b|
    ensures |r| == |a|
  {
    seq(|a|, i requires 0 <= i < |a| => a[i] != b[i])
  }

  function Or(a: seq<bool>, b: seq<bool>): (r: seq<bool>)
    requires |a| == |b|
    ensures |r| == |a|
  {
    seq(|a|, i requires 0 <= i < |a| => a[i] || b[i])
  }

  /** a >> k */
  function Shr(a: seq<bool>, k: nat): (r: seq<bool>)
    requires k <= |a|
    ensures |r| == |a|
  {
    a[k..] + Zeros(k)
  }

  /** a << k, which drops the bits shifted out. */
  function Shl(a: seq<bool>, k: nat): (r: seq<bool>)
    requires k <= |a|
    ensures |r| == |a|
  {
    Zeros(k) + a[..|a| - k]
  }

  /** Conversion to a wider or narrower type. */
  function Resize(a: seq<bool>, n: nat): (r: seq<bool>)
    ensures |r| == n
  {
    if n <= |a| then a[..n] else a + Zeros(n - |a|)
  }

  /** a & (2^w - 1) */
  function Mask(a: seq<bool>, w: nat): (r: seq<bool>)
    requires w <= |a|
    ensures |r| == |a|
  {
    a[..w] + Zeros(|a| - w)
  }

  function Reverse(a: seq<bool>): (r: seq<bool>)
    ensures |r| == |a|
  {
    seq(|a|, i requires 0 <= i < |a| => a[|a| - 1 - i])
  }

  /** a < 2^w */
  predicate Fits(a: seq<bool>, w: nat) {
    forall i :: w <= i < |a| ==> !a[i]
  }

  lemma XorAssociates(a: seq<bool>, b: seq<bool>, c: seq<bool>)
    requires |a| == |b| == |c|
    ensures Xor(Xor(a, b), c) == Xor(a, Xor(b, c))
  {
  }

  lemma XorCommutes(a: seq<bool>, b: seq<bool>)
    requires |a| == |b|
    ensures Xor(a, b) == Xor(b, a)
  {
  }

  lemma XorCancels(a: seq<bool>, b: seq<bool>)
    requires |a| == |b|
    ensures Xor(Xor(a, b), b) == a
  {
  }

  lemma XorZeros(a: seq<bool>)
    ensures Xor(a, Zeros(|a|)) == a
  {
  }

  lemma ReverseTwice(a: seq<bool>)
    ensures Reverse(Reverse(a)) == a
  {
  }

  lemma ShrShr(a: seq<bool>, j: nat, k: nat)
    requires j + k <= |a|
    ensures Shr(Shr(a, j), k) == Shr(a, j + k)
  {
  }

  /** Sequences that differ have a sum other than zero. */
  lemma XorDiffers(a: seq<bool>, b: seq<bool>)
    requires |a| == |b|
    ensures Xor(a, b) == Zeros(|a|) <==> a == b
  {
    if Xor(a, b) == Zeros(|a|) {
      forall i | 0 <= i < |a| ensures a[i] == b[i] {
        assert Xor(a, b)[i] == Zeros(|a|)[i];
      }
    }
  }

  // ----- Indices -----

  function Index(a: seq<bool>): nat {
    if |a| == 0 then 0 else (if a[0] then 1 else 0) + 2 * Index(a[1..])
  }

  function BitsOf(i: nat, n: nat): (r: seq<bool>)
    ensures |r| == n
  {
    if n == 0 then [] else [i % 2 == 1] + BitsOf(i / 2, n - 1)
  }

  lemma {:induction false} BitsOfIndex(a: seq<bool>)
    ensures BitsOf(Index(a), |a|) == a
  {
    if |a| > 0 {
      BitsOfIndex(a[1..]);
    }
  }

  function Power2(n: nat): nat {
    if n == 0 then 1 else 2 * Power2(n - 1)
  }

  lemma {:induction false} IndexBound(a: seq<bool>)
    ensures Index(a) < Power2(|a|)
  {
    if |a| > 0 {
      IndexBound(a[1..]);
    }
  }
}
