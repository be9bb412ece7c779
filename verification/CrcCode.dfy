/** The loops of the CRC class. */
module CrcCode {
  import opened Bits
  import opened Crc
  import opened CrcMirror
  import opened CrcChecks

  /** Reflect */
  method Reflect(value: seq<bool>, numBits: nat) returns (reversed: seq<bool>)
    requires 0 < |value| && numBits <= |value|
    ensures reversed == Reflected(value, numBits)
  {
    var t := |value|;
    reversed := Zeros(t);
    var v := value;
    for i := 0 to numBits
      invariant |v| == |reversed| == t
      invariant v == Shr(value, i)
      invariant reversed == Reflected(value, i)
    {
      reversed := Or(Shl(reversed, 1), Mask(v, 1));
      v := Shr(v, 1);
      ReflectNext(value, i);
      ShrShr(value, i, 1);
    }
  }

  lemma ReflectNext(value: seq<bool>, i: nat)
    requires i < |value|
    ensures Or(Shl(Reflected(value, i), 1), Mask(Shr(value, i), 1)) == Reflected(value, i + 1)
  {
    var a, b := Or(Shl(Reflected(value, i), 1), Mask(Shr(value, i), 1)), Reflected(value, i + 1);
    forall j | 0 <= j < |value| ensures a[j] == b[j] {
      assert b[j] == (j <= i && value[i - j]);
      assert j > 0 ==> Shl(Reflected(value, i), 1)[j] == Reflected(value, i)[j - 1];
    }
  }

  /** Eight steps to the right. */
  method EightSteps(p: seq<bool>, r: seq<bool>) returns (s: seq<bool>)
    requires |p| == |r| > 0
    ensures s == Steps(p, r, 8)
  {
    s := r;
    for i := 0 to 8
      invariant s == Steps(p, r, i)
    {
      s := if s[0] then Xor(Shr(s, 1), p) else Shr(s, 1);
    }
  }

  /** Eight steps to the left. */
  method EightStepsLeft(p: seq<bool>, w: nat, r: seq<bool>) returns (s: seq<bool>)
    requires |p| == |r| && 0 < w <= |r|
    ensures s == StepsLeft(p, w, r, 8)
  {
    s := r;
    for i := 0 to 8
      invariant s == StepsLeft(p, w, r, i)
    {
      s := if s[w - 1] then Xor(Shl(s, 1), p) else Shl(s, 1);
    }
  }

  /** CalculateRemainder, bit by bit. */
  method CalculateRemainder(q: Parameters, data: seq<Byte>, remainder: seq<bool>) returns (r: seq<bool>)
    requires q.Valid() && |remainder| == q.t
    ensures r == Remainder(q, remainder, data)
  {
    r := remainder;
    if q.reflectInput {
      var p := Reflect(q.polynomial, q.w);
      for i := 0 to |data|
        invariant |r| == q.t && r == Run(p, remainder, data[..i])
      {
        assert data[..i + 1][..i] == data[..i];
        r := EightSteps(p, Xor(r, Resize(data[i], q.t)));
      }
    } else {
      var p := q.polynomial;
      for i := 0 to |data|
        invariant |r| == q.t && r == RunLeft(p, q.w, remainder, data[..i])
      {
        assert data[..i + 1][..i] == data[..i];
        r := EightStepsLeft(p, q.w, Xor(r, Shl(Resize(data[i], q.t), q.w - 8)));
      }
    }
    assert data[..|data|] == data;
  }

  /** The entries the table must have. */
  function TableEntry(q: Parameters, x: Byte): (s: seq<bool>)
    requires q.Valid()
    ensures |s| == q.t
  {
    Mask(Remainder(q, Zeros(q.t), [x]), q.w)
  }

  ghost predicate IsTable(q: Parameters, table: seq<seq<bool>>)
    requires q.Valid()
  {
    |table| == 256 && forall i :: 0 <= i < 256 ==> table[i] == TableEntry(q, BitsOf(i, 8))
  }

  /** InitTable */
  method InitTable(q: Parameters) returns (table: array<seq<bool>>)
    requires q.Valid()
    ensures fresh(table) && IsTable(q, table[..])
  {
    table := new seq<bool>[256];
    for i := 0 to 256
      invariant forall j :: 0 <= j < i ==> table[j] == TableEntry(q, BitsOf(j, 8))
    {
      var crc := CalculateRemainder(q, [BitsOf(i, 8)], Zeros(q.t));
      table[i] := Mask(crc, q.w);
    }
  }

  lemma EntryAt(q: Parameters, table: seq<seq<bool>>, x: Byte)
    requires q.Valid() && IsTable(q, table)
    ensures Index(x) < 256 && table[Index(x)] == TableEntry(q, x)
  {
    IndexBound(x);
    assert Power2(8) == 256 by {
      assert Power2(4) == 16;
    }
    BitsOfIndex(x);
  }

  lemma EntryReflected(q: Parameters, x: Byte)
    requires q.Valid() && q.reflectInput
    ensures TableEntry(q, x) == Entry(Reflected(q.polynomial, q.w), x)
  {
    var p, z := Reflected(q.polynomial, q.w), Zeros(q.t);
    ReflectedPolynomial(q);
    RunFits(p, q.w, z, q.w, [x]);
    assert [x][..0] == [];
    XorZeros(Resize(x, q.t));
    XorCommutes(z, Resize(x, q.t));
    assert Mask(Run(p, z, [x]), q.w) == Run(p, z, [x]);
  }

  lemma EntryNotReflected(q: Parameters, x: Byte)
    requires q.Valid() && !q.reflectInput
    ensures TableEntry(q, x) == EntryLeft(q.polynomial, q.w, x)
  {
    var z, y := Zeros(q.t), Raise(x, q.w, q.t);
    assert [x][..0] == [];
    XorZeros(y);
    XorCommutes(z, y);
    assert RunLeft(q.polynomial, q.w, z, [x]) == FeedLeft(q.polynomial, q.w, z, x);
  }

  lemma LookupReflected(q: Parameters, r: seq<bool>, x: Byte)
    requires q.Valid() && |r| == q.t && q.reflectInput
    ensures Xor(Shr(r, 8), TableEntry(q, Xor(Low8(r), x))) == FeedByte(Reflected(q.polynomial, q.w), r, x)
  {
    EntryReflected(q, Xor(Low8(r), x));
    LookupIsFeed(Reflected(q.polynomial, q.w), r, x);
  }

  lemma LookupNotReflected(q: Parameters, r: seq<bool>, s: seq<bool>, x: Byte)
    requires q.Valid() && |r| == |s| == q.t && !q.reflectInput && Image(r, q.w) == Image(s, q.w)
    ensures Image(Xor(Shl(r, 8), TableEntry(q, Xor(High8(r, q.w), x))), q.w) == Image(FeedLeft(q.polynomial, q.w, s, x), q.w)
  {
    EntryNotReflected(q, Xor(High8(r, q.w), x));
    LookupLeftIsFeed(q.polynomial, q.w, r, x);
    ImageFeed(q.polynomial, q.w, r, x);
    ImageFeed(q.polynomial, q.w, s, x);
  }

  /** CalculateRemainder with a table: the same remainder, modulo 2^w if the check is not reflected. */
  method CalculateRemainderByTable(q: Parameters, table: array<seq<bool>>, data: seq<Byte>, remainder: seq<bool>) returns (r: seq<bool>)
    requires q.Valid() && |remainder| == q.t && IsTable(q, table[..])
    ensures |r| == q.t && r[..q.w] == Remainder(q, remainder, data)[..q.w]
    ensures q.reflectInput ==> r == Remainder(q, remainder, data)
  {
    r := remainder;
    ghost var p := if q.reflectInput then Reflected(q.polynomial, q.w) else q.polynomial;
    for i := 0 to |data|
      invariant |r| == q.t
      invariant q.reflectInput ==> r == Run(p, remainder, data[..i])
      invariant !q.reflectInput ==> Image(r, q.w) == Image(RunLeft(p, q.w, remainder, data[..i]), q.w)
    {
      assert data[..i + 1][..i] == data[..i];
      if q.reflectInput {
        LookupReflected(q, r, data[i]);
        EntryAt(q, table[..], Xor(Low8(r), data[i]));
        r := Xor(Shr(r, 8), table[Index(Xor(Low8(r), data[i]))]);
      } else {
        LookupNotReflected(q, r, RunLeft(p, q.w, remainder, data[..i]), data[i]);
        EntryAt(q, table[..], Xor(High8(r, q.w), data[i]));
        r := Xor(Shl(r, 8), table[Index(Xor(High8(r, q.w), data[i]))]);
      }
    }
    assert data[..|data|] == data;
    ImageInjective(r, Remainder(q, remainder, data), q.w);
  }

  // ----- Checks -----

  /** Finalize */
  method Finalize(q: Parameters, remainder: seq<bool>) returns (c: seq<bool>)
    requires q.Valid() && |remainder| == q.t
    ensures c == Finalized(q, remainder)
  {
    var r := remainder;
    if q.reflectInput != q.reflectOutput {
      r := Reflect(r, q.w);
    }
    c := Mask(Xor(r, q.finalXor), q.w);
  }

  /** UndoFinalize */
  method UndoFinalize(q: Parameters, crc: seq<bool>) returns (r: seq<bool>)
    requires q.Valid() && |crc| == q.t
    ensures r == Unfinalized(q, crc)
  {
    r := Xor(Mask(crc, q.w), q.finalXor);
    if q.reflectInput != q.reflectOutput {
      r := Reflect(r, q.w);
    }
  }

  datatype Start = Afresh | After(crc: seq<bool>)

  /** Calculate, with or without an earlier check. */
  method Calculate(q: Parameters, data: seq<Byte>, start: Start) returns (c: seq<bool>)
    requires q.Valid() && (start.After? ==> |start.crc| == q.t)
    ensures c == if start.After? then Continued(q, start.crc, data) else Check(q, data)
  {
    var r := q.initialValue;
    if start.After? {
      r := UndoFinalize(q, start.crc);
    }
    r := CalculateRemainder(q, data, r);
    c := Finalize(q, r);
  }

  /** Calculate with a table: the same checks. */
  method CalculateByTable(q: Parameters, table: array<seq<bool>>, data: seq<Byte>, start: Start) returns (c: seq<bool>)
    requires q.Valid() && (start.After? ==> |start.crc| == q.t) && IsTable(q, table[..])
    ensures c == if start.After? then Continued(q, start.crc, data) else Check(q, data)
  {
    var r := q.initialValue;
    if start.After? {
      r := UndoFinalize(q, start.crc);
    }
    ghost var s := Remainder(q, r, data);
    r := CalculateRemainderByTable(q, table, data, r);
    FinalizedInjective(q, r, s);
    c := Finalize(q, r);
  }
}
