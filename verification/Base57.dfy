/** The base57 text form of byte strings: every 8 bytes make 11 characters. */
module Base57 {
  import opened Basics
  import opened Numerals

  type Byte = x: nat | x < 256

  const ALPHABET := "0123456789" + "ACEFGHJK" + "LMNPQRST" + "UVWXYZ" + "abcdefgh" + "ijkmnopq" + "rstuvwxyz"

  const U64 := 0x1_0000_0000_0000_0000

  // ----- Characters -----

  /** to_val */
  function ToVal(c: char): Option<nat> {
    var x := c as int;
    if '0' <= c <= '9' then Some(x - '0' as int)
    else if 'A' <= c <= 'Z' then
      if c == 'B' || c == 'D' || c == 'I' || c == 'O' then None
      else
        var y := if c > 'O' then x - 4 else if c > 'I' then x - 3 else if c > 'D' then x - 2 else if c > 'B' then x - 1 else x;
        Some(y - 'A' as int + 10)
    else if 'a' <= c <= 'z' then
      if c == 'l' then None
      else Some((if c > 'l' then x - 1 else x) - 'a' as int + 10 + 22)
    else None
  }

  /** The value of a character, zero for those that have none. */
  function ValueOf(c: char): (v: nat)
    ensures v < 57
  {
    if ToVal(c).Some? then ToVal(c).value else 0
  }

  lemma AlphabetValues(v: nat)
    requires v < 57
    ensures ToVal(ALPHABET[v]) == Some(v)
  {
    if v < 26 {
      AlphabetStart(v);
    } else {
      AlphabetEnd(v);
    }
  }

  lemma AlphabetStart(v: nat)
    requires v < 26
    ensures ToVal(ALPHABET[v]) == Some(v)
  {
    if v < 10 {
      assert ALPHABET[v] == "0123456789"[v];
    } else if v < 18 {
      assert ALPHABET[v] == "ACEFGHJK"[v - 10];
    } else {
      assert ALPHABET[v] == "LMNPQRST"[v - 18];
    }
  }

  lemma AlphabetEnd(v: nat)
    requires 26 <= v < 57
    ensures ToVal(ALPHABET[v]) == Some(v)
  {
    if v < 32 {
      assert ALPHABET[v] == "UVWXYZ"[v - 26];
    } else if v < 40 {
      assert ALPHABET[v] == "abcdefgh"[v - 32];
    } else if v < 48 {
      assert ALPHABET[v] == "ijkmnopq"[v - 40];
    } else {
      assert ALPHABET[v] == "rstuvwxyz"[v - 48];
    }
  }

  lemma ToValInjective(c: char, d: char)
    requires ToVal(c).Some? && ToVal(c) == ToVal(d)
    ensures c == d
  {
  }

  /** A character with a value is the one of the alphabet at that place. */
  lemma ValueOfInverse(c: char)
    requires ToVal(c).Some?
    ensures ALPHABET[ValueOf(c)] == c
  {
    AlphabetValues(ValueOf(c));
    ToValInjective(c, ALPHABET[ValueOf(c)]);
  }

  // ----- Texts and digits -----

  function Text(d: seq<nat>): (s: string)
    requires AreDigits(57, d)
    ensures |s| == |d|
  {
    seq(|d|, i requires 0 <= i < |d| => ALPHABET[d[i]])
  }

  function Values(s: string): (d: seq<nat>)
    ensures |d| == |s| && AreDigits(57, d)
  {
    seq(|s|, i requires 0 <= i < |s| => ValueOf(s[i]))
  }

  predicate Legible(s: string) {
    forall i :: 0 <= i < |s| ==> ToVal(s[i]).Some?
  }

  lemma ValuesOfText(d: seq<nat>)
    requires AreDigits(57, d)
    ensures Values(Text(d)) == d && Legible(Text(d))
  {
    forall i | 0 <= i < |d| ensures Values(Text(d))[i] == d[i] && ToVal(Text(d)[i]).Some? {
      AlphabetValues(d[i]);
    }
  }

  lemma TextOfValues(s: string)
    requires Legible(s)
    ensures Text(Values(s)) == s
  {
    forall i | 0 <= i < |s| ensures Text(Values(s))[i] == s[i] {
      ValueOfInverse(s[i]);
    }
  }

  // ----- Groups -----

  lemma Ranges()
    ensures Power(256, 8) == U64 && U64 <= Power(57, 11)
  {
    assert Power(256, 4) == 256 * (256 * (256 * 256));
    assert Power(57, 4) == 57 * (57 * (57 * 57));
    assert Power(57, 8) == 57 * (57 * (57 * (57 * Power(57, 4))));
  }

  function Zeros(n: nat): (d: seq<nat>)
    ensures |d| == n
  {
    seq(n, _ => 0)
  }

  /** The text of a group of 8 bytes: the numeral of 11 digits of its value. */
  ghost function GroupText(v: nat): (s: string)
    requires v < U64
    ensures |s| == 11 && Values(s) == Digits57(v) && Legible(s)
  {
    ValuesOfText(Digits57(v));
    Text(Digits57(v))
  }

  ghost function Digits57(v: nat): (d: seq<nat>)
    requires v < U64
    ensures IsNumeral(57, v, 11, d)
  {
    Ranges();
    Digits(57, v, 11)
  }

  ghost function Bytes(v: nat): (b: seq<Byte>)
    requires v < U64
    ensures IsNumeral(256, v, 8, b)
  {
    Ranges();
    Digits(256, v, 8)
  }

  /** The value of up to 8 bytes, followed by zeros. */
  function ByteValue(b: seq<Byte>): (v: nat)
    requires |b| <= 8
    ensures v < U64
  {
    Ranges();
    NumberBound(256, b + Zeros(8 - |b|));
    Number(256, b + Zeros(8 - |b|))
  }

  /** The value of up to 11 characters, followed by zeros. */
  function TextValue(s: string): nat
    requires |s| <= 11
  {
    Number(57, Values(s) + Zeros(11 - |s|))
  }

  // ----- Whole strings -----

  const TAIL: seq<nat> := [0, 2, 3, 5, 6, 7, 9, 10]

  ghost function Encode(data: seq<Byte>): string {
    if |data| == 0 then ""
    else if |data| < 8 then GroupText(ByteValue(data))[..TAIL[|data|]]
    else GroupText(ByteValue(data[..8])) + Encode(data[8..])
  }

  predicate Acceptable(s: string)
    requires |s| <= 11
  {
    Legible(s) && TextValue(s) < U64
  }

  function First(s: string): (n: nat)
    ensures n <= 11 && n <= |s| && (|s| > 0 ==> n > 0)
  {
    if |s| < 11 then |s| else 11
  }

  ghost function Decode(s: string): Option<seq<Byte>> {
    if |s| == 0 then Some([])
    else
      var g := s[..First(s)];
      if !Acceptable(g) then None
      else
        var rest := Decode(s[First(s)..]);
        if rest.None? then None else Some(Bytes(TextValue(g)) + rest.value)
  }
}
