/** What the base57 coding promises. */
module Base57Laws {
  import opened Arithmetic
  import opened Basics
  import opened Numerals
  import opened Base57

  // ----- Groups -----

  lemma GroupTextValue(v: nat)
    requires v < U64
    ensures TextValue(GroupText(v)) == v
  {
    assert Values(GroupText(v)) + Zeros(0) == Digits57(v);
  }

  lemma BytesOfValue(b: seq<Byte>)
    requires |b| == 8
    ensures Bytes(ByteValue(b)) == b
  {
    assert b + Zeros(0) == b;
    NumberInjective(256, Bytes(ByteValue(b)), b);
  }

  lemma ValueOfBytes(v: nat)
    requires v < U64
    ensures ByteValue(Bytes(v)) == v
  {
    assert Bytes(v) + Zeros(0) == Bytes(v);
  }

  /** The text of an accepted group, completed by zeros. */
  lemma GroupTextOfValue(s: string)
    requires |s| <= 11 && Acceptable(s)
    ensures GroupText(TextValue(s)) == s + Text(Zeros(11 - |s|))
  {
    var d := Values(s) + Zeros(11 - |s|);
    NumberInjective(57, Digits57(TextValue(s)), d);
    TextOfValues(s);
    assert Text(d) == Text(Values(s)) + Text(Zeros(11 - |s|));
  }

  // ----- Round trips -----

  /** Decoding an encoding returns the bytes, if their number is a multiple of 8. */
  lemma {:induction false} DecodeEncode(data: seq<Byte>)
    requires |data| % 8 == 0
    ensures Decode(Encode(data)) == Some(data)
    decreases |data|
  {
    if |data| > 0 {
      var b, rest := data[..8], data[8..];
      DecodeEncode(rest);
      var g, t := GroupText(ByteValue(b)), Encode(rest);
      assert (g + t)[..11] == g && (g + t)[11..] == t;
      GroupTextValue(ByteValue(b));
      BytesOfValue(b);
      assert data == b + rest;
    }
  }

  /** A text completed by zeros to a multiple of 11 characters. */
  function Completed(s: string): string {
    if |s| == 0 then ""
    else s[..First(s)] + Text(Zeros(11 - First(s))) + Completed(s[First(s)..])
  }

  lemma {:induction false} CompletedAlready(s: string)
    requires |s| % 11 == 0
    ensures Completed(s) == s
    decreases |s|
  {
    if |s| > 0 {
      CompletedAlready(s[11..]);
      assert Text(Zeros(0)) == "";
    }
  }

  /** Encoding what was decoded from a text returns the text, completed by zeros. */
  lemma {:induction false} EncodeDecode(s: string)
    requires Decode(s).Some?
    ensures Encode(Decode(s).value) == Completed(s)
    decreases |s|
  {
    if |s| > 0 {
      var n := First(s);
      var g, rest := s[..n], s[n..];
      EncodeDecode(rest);
      var b, more := Bytes(TextValue(g)), Decode(rest).value;
      assert (b + more)[..8] == b && (b + more)[8..] == more;
      ValueOfBytes(TextValue(g));
      GroupTextOfValue(g);
    }
  }

  // ----- What is accepted -----

  function GroupAt(s: string, k: nat): string
    requires 11 * k < |s|
  {
    if |s| < 11 * k + 11 then s[11 * k..] else s[11 * k..11 * k + 11]
  }

  ghost predicate AcceptableAt(s: string, k: nat) {
    11 * k < |s| ==> Acceptable(GroupAt(s, k))
  }

  lemma GroupAtRest(s: string, k: nat)
    requires 11 < |s|
    ensures AcceptableAt(s, k + 1) == AcceptableAt(s[11..], k)
  {
    if 11 * k < |s| - 11 {
      assert GroupAt(s, k + 1) == GroupAt(s[11..], k);
    }
  }

  /** The decoder accepts a text exactly if every group has known characters and a value below 2^64. */
  lemma {:induction false} DecodeAccepts(s: string)
    ensures Decode(s).Some? <==> forall k: nat :: AcceptableAt(s, k)
    decreases |s|
  {
    if |s| > 0 {
      assert GroupAt(s, 0) == s[..First(s)];
      assert AcceptableAt(s, 0) == Acceptable(s[..First(s)]);
      if |s| <= 11 {
        assert s[First(s)..] == "";
        assert forall k: nat :: k > 0 ==> AcceptableAt(s, k);
      } else {
        var rest := s[11..];
        DecodeAccepts(rest);
        if Acceptable(s[..11]) && Decode(rest).Some? {
          forall k: nat ensures AcceptableAt(s, k) {
            if k > 0 {
              GroupAtRest(s, k - 1);
            } else {
              assert AcceptableAt(s, 0);
            }
          }
        } else if Acceptable(s[..11]) {
          var k: nat :| !AcceptableAt(rest, k);
          GroupAtRest(s, k);
        } else {
          assert !AcceptableAt(s, 0);
        }
      }
    }
  }

  // ----- The encoder loses nothing -----

  lemma {:induction false} NumberOfZeros(b: nat, n: nat)
    ensures Number(b, Zeros(n)) == 0
  {
    if n > 0 {
      assert Zeros(n)[..n - 1] == Zeros(n - 1);
      NumberOfZeros(b, n - 1);
    }
  }

  lemma TailsSuffice(r: nat)
    requires 0 < r < 8
    ensures TAIL[r] <= 11 && Power(57, 11 - TAIL[r]) <= Power(256, 8 - r)
  {
    assert Power(57, 4) == 57 * (57 * (57 * 57)) && Power(256, 4) == 256 * (256 * (256 * 256));
    assert Power(57, 8) == 57 * (57 * (57 * (57 * Power(57, 4))));
    assert Power(57, 5) == 57 * Power(57, 4) && Power(57, 6) == 57 * Power(57, 5) && Power(57, 9) == 57 * Power(57, 8);
    assert Power(256, 5) == 256 * Power(256, 4) && Power(256, 6) == 256 * Power(256, 5) && Power(256, 7) == 256 * Power(256, 6);
    assert Power(57, 2) == 57 * 57 && Power(57, 1) == 57 && Power(256, 3) == 256 * (256 * 256);
    assert Power(256, 2) == 256 * 256 && Power(256, 1) == 256;
  }

  lemma NumberWithZeros(b: nat, x: seq<nat>, n: nat, v: nat, p: nat)
    requires v == Number(b, x) && p == Power(b, n)
    ensures Number(b, x + Zeros(n)) == v * p
  {
    NumberAppends(b, x, Zeros(n));
    NumberOfZeros(b, n);
  }

  /** The value of a tail is a multiple of a large power. */
  lemma TailValue(x: seq<Byte>, v: nat, p: nat)
    requires |x| < 8 && v == Number(256, x) && p == Power(256, 8 - |x|)
    ensures ByteValue(x) == v * p
  {
    NumberWithZeros(256, x, 8 - |x|, v, p);
  }

  lemma Apart(x: nat, y: nat, m: nat, q: nat, p: nat)
    requires q * p <= x * m < q * p + p && q * p <= y * m < q * p + p && p <= m
    ensures x == y
  {
    if x < y {
      MulMonotone(x + 1, y, m);
    } else if y < x {
      MulMonotone(y + 1, x, m);
    }
  }

  lemma TailInjective(x: seq<Byte>, y: seq<Byte>)
    requires 0 < |x| == |y| < 8 && Encode(x) == Encode(y)
    ensures x == y
  {
    var r, s := |x|, TAIL[|x|];
    TailsSuffice(r);
    var d, e := Digits57(ByteValue(x)), Digits57(ByteValue(y));
    assert d[..s] == Values(GroupText(ByteValue(x))[..s]) && e[..s] == Values(GroupText(ByteValue(y))[..s]);
    var q, p := Number(57, d[..s]), Power(57, 11 - s);
    PrefixBounds(57, d, s, q, p);
    PrefixBounds(57, e, s, q, p);
    TailValue(x, Number(256, x), Power(256, 8 - r));
    TailValue(y, Number(256, y), Power(256, 8 - r));
    Apart(Number(256, x), Number(256, y), Power(256, 8 - r), q, p);
    NumberInjective(256, x, y);
  }

  lemma TailLengths(r: nat, q: nat)
    requires r < 8 && q < 8 && TAIL[r] == TAIL[q]
    ensures r == q
  {
  }

  /** Different byte strings have different texts, whatever their lengths. */
  lemma {:induction false} EncodeInjective(x: seq<Byte>, y: seq<Byte>)
    requires Encode(x) == Encode(y)
    ensures x == y
    decreases |x|
  {
    if |x| < 8 && |y| < 8 {
      TailLengths(|x|, |y|);
      if |x| > 0 {
        TailInjective(x, y);
      }
    } else if |x| >= 8 && |y| >= 8 {
      var g, h := GroupText(ByteValue(x[..8])), GroupText(ByteValue(y[..8]));
      assert g == Encode(x)[..11] && h == Encode(y)[..11];
      assert Encode(x[8..]) == Encode(x)[11..] && Encode(y[8..]) == Encode(y)[11..];
      EncodeInjective(x[8..], y[8..]);
      GroupTextValue(ByteValue(x[..8]));
      GroupTextValue(ByteValue(y[..8]));
      BytesOfValue(x[..8]);
      BytesOfValue(y[..8]);
      assert x == x[..8] + x[8..] && y == y[..8] + y[8..];
    } else {
      assert false;
    }
  }
}
