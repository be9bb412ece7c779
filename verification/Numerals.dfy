/** Numerals in a base, highest digit first. */
module Numerals {
  import opened Arithmetic

  function Power(b: nat, n: nat): nat {
    if n == 0 then 1 else b * Power(b, n - 1)
  }

  predicate AreDigits(b: nat, d: seq<nat>) {
    forall i :: 0 <= i < |d| ==> d[i] < b
  }

  /** The value of a numeral. */
  function Number(b: nat, d: seq<nat>): nat {
    if |d| == 0 then 0 else b * Number(b, d[..|d| - 1]) + d[|d| - 1]
  }

  ghost predicate IsNumeral(b: nat, v: nat, n: nat, d: seq<nat>) {
    |d| == n && AreDigits(b, d) && Number(b, d) == v
  }

  /** The numeral of n digits for a value. */
  ghost function Digits(b: nat, v: nat, n: nat): (d: seq<nat>)
    requires b > 0 && v < Power(b, n)
    ensures IsNumeral(b, v, n, d)
  {
    NumeralExists(b, v, n);
    var d :| IsNumeral(b, v, n, d);
    d
  }

  lemma NumberOfOneMore(b: nat, d: seq<nat>, x: nat)
    ensures Number(b, d + [x]) == b * Number(b, d) + x
  {
    assert (d + [x])[..|d|] == d;
  }

  lemma SplitValue(v: nat, b: nat, p: nat) returns (q: nat, r: nat)
    requires b > 0 && v < b * p
    ensures v == b * q + r && r < b && q < p
  {
    q, r := v / b, v % b;
    if q >= p {
      MulMonotone(p, q, b);
    }
  }

  lemma NumeralGrows(b: nat, q: nat, n: nat, d: seq<nat>, r: nat, v: nat)
    requires IsNumeral(b, q, n, d) && r < b && v == b * q + r
    ensures IsNumeral(b, v, n + 1, d + [r])
  {
    NumberOfOneMore(b, d, r);
  }

  lemma {:induction false} NumeralExists(b: nat, v: nat, n: nat)
    requires b > 0 && v < Power(b, n)
    ensures exists d :: IsNumeral(b, v, n, d)
  {
    if n == 0 {
      assert IsNumeral(b, v, 0, []);
    } else {
      var q, r := SplitValue(v, b, Power(b, n - 1));
      NumeralExists(b, q, n - 1);
      var d :| IsNumeral(b, q, n - 1, d);
      NumeralGrows(b, q, n - 1, d, r, v);
    }
  }

  /** A value has one numeral of each length. */
  lemma {:induction false} NumberInjective(b: nat, c: seq<nat>, d: seq<nat>)
    requires b > 0 && AreDigits(b, c) && AreDigits(b, d) && |c| == |d| && Number(b, c) == Number(b, d)
    ensures c == d
  {
    if |c| > 0 {
      var n := |c| - 1;
      DivModUnique(Number(b, c), b, Number(b, c[..n]), c[n]);
      DivModUnique(Number(b, d), b, Number(b, d[..n]), d[n]);
      NumberInjective(b, c[..n], d[..n]);
      assert c == c[..n] + [c[n]] && d == d[..n] + [d[n]];
    }
  }

  lemma {:induction false} NumberBound(b: nat, d: seq<nat>)
    requires b > 0 && AreDigits(b, d)
    ensures Number(b, d) < Power(b, |d|)
  {
    if |d| > 0 {
      var n := |d| - 1;
      NumberBound(b, d[..n]);
      MulMonotone(Number(b, d[..n]) + 1, Power(b, n), b);
    }
  }

  lemma Distribute(b: nat, x: nat, p: nat, y: nat, z: nat)
    ensures b * (x * p + y) + z == x * (b * p) + (b * y + z)
  {
    assert b * (x * p) == x * (b * p);
  }

  lemma {:induction false} NumberAppends(b: nat, a: seq<nat>, c: seq<nat>)
    ensures Number(b, a + c) == Number(b, a) * Power(b, |c|) + Number(b, c)
    decreases |c|
  {
    if |c| == 0 {
      assert a + c == a;
    } else {
      var n := |c| - 1;
      NumberAppends(b, a, c[..n]);
      assert (a + c)[..|a| + n] == a + c[..n];
      Distribute(b, Number(b, a), Power(b, n), Number(b, c[..n]), c[n]);
    }
  }

  /** Values whose numerals begin alike are close to each other. */
  lemma PrefixBounds(b: nat, d: seq<nat>, s: nat, q: nat, p: nat)
    requires b > 0 && AreDigits(b, d) && s <= |d| && q == Number(b, d[..s]) && p == Power(b, |d| - s)
    ensures q * p <= Number(b, d) < q * p + p
  {
    assert d == d[..s] + d[s..];
    NumberAppends(b, d[..s], d[s..]);
    NumberBound(b, d[s..]);
  }
}
