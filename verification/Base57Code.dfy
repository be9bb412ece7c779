/** The loops of the base57 encoder and decoder. */
module Base57Code {
  import opened Arithmetic
  import opened Basics
  import opened Numerals
  import opened Base57

  // ----- Digits, lowest first -----

  lemma LastDigit(b: nat, d: seq<nat>, j: nat, v: nat)
    requires b > 0 && AreDigits(b, d) && j < |d| && v == Number(b, d[..j + 1])
    ensures v % b == d[j] && v / b == Number(b, d[..j])
  {
    assert d[..j + 1][..j] == d[..j];
    DivModUnique(v, b, Number(b, d[..j]), d[j]);
  }

  /** The text of these digits. */
  ghost predicate Renders(d: seq<nat>, text: string) {
    |d| == |text| == 11 && AreDigits(57, d) && forall j :: 0 <= j < 11 ==> text[j] == ALPHABET[d[j]]
  }

  lemma GroupRenders(value: nat)
    requires value < U64
    ensures Renders(Digits57(value), GroupText(value)) && Number(57, Digits57(value)) == value
  {
  }

  /** One turn of the inner loop: the last digit of v at place j, if there is room. */
  method PutDigit(buf: array<char>, p: nat, j: nat, v: nat, ghost d: seq<nat>, ghost text: string) returns (rest: nat)
    requires Renders(d, text) && j < 11 && v == Number(57, d[..j + 1])
    modifies buf
    ensures rest == Number(57, d[..j])
    ensures forall k :: 0 <= k < buf.Length ==> buf[k] == if k == p + j then text[j] else old(buf[k])
  {
    LastDigit(57, d, j, v);
    if p + j < buf.Length {
      buf[p + j] := ALPHABET[v % 57];
    }
    rest := v / 57;
  }

  /** The inner loop of the encoder: the characters of a group, from the last, as far as there is room. */
  method PutGroup(buf: array<char>, p: nat, value: nat)
    requires value < U64
    modifies buf
    ensures forall k :: 0 <= k < buf.Length && !(p <= k < p + 11) ==> buf[k] == old(buf[k])
    ensures forall k :: p <= k < p + 11 && k < buf.Length ==> buf[k] == GroupText(value)[k - p]
  {
    GroupRenders(value);
    PutDigits(buf, p, value, Digits57(value), GroupText(value));
  }

  method PutDigits(buf: array<char>, p: nat, value: nat, ghost d: seq<nat>, ghost text: string)
    requires Renders(d, text) && value == Number(57, d)
    modifies buf
    ensures forall k :: 0 <= k < buf.Length && !(p <= k < p + 11) ==> buf[k] == old(buf[k])
    ensures forall k :: p <= k < p + 11 && k < buf.Length ==> buf[k] == text[k - p]
  {
    var v, j := value, 10;
    assert d[..11] == d;
    while j >= 0
      invariant -1 <= j <= 10 && v == Number(57, d[..j + 1])
      invariant forall k :: 0 <= k < buf.Length && !(p + j < k < p + 11) ==> buf[k] == old(buf[k])
      invariant forall k :: p + j < k < p + 11 && k < buf.Length ==> buf[k] == text[k - p]
    {
      v := PutDigit(buf, p, j, v, d, text);
      j := j - 1;
    }
  }

  lemma {:induction false} EncodeLength(data: seq<Byte>)
    ensures |Encode(data)| == |data| / 8 * 11 + TAIL[|data| % 8]
    decreases |data|
  {
    if |data| >= 8 {
      EncodeLength(data[8..]);
      LessEight(|data|);
    }
  }

  lemma LessEight(n: nat)
    requires n >= 8
    ensures n / 8 == (n - 8) / 8 + 1 && n % 8 == (n - 8) % 8
  {
  }

  /** The text from group q on. */
  lemma {:induction false} EncodeDrop(data: seq<Byte>, q: nat)
    requires 8 * q <= |data|
    ensures 11 * q <= |Encode(data)| && Encode(data)[11 * q..] == Encode(data[8 * q..])
    decreases q
  {
    if q > 0 {
      EncodeDrop(data[8..], q - 1);
      assert data[8..][8 * (q - 1)..] == data[8 * q..];
      assert Encode(data)[11 * q..] == Encode(data[8..])[11 * (q - 1)..];
    }
  }

  function GroupOf(data: seq<Byte>, i: nat): (b: seq<Byte>)
    requires i <= |data|
    ensures |b| <= 8
  {
    if |data| - i < 8 then data[i..] else data[i..i + 8]
  }

  /** The characters of group q. */
  lemma EncodeGroup(data: seq<Byte>, q: nat, k: nat)
    requires 8 * q < |data| && 11 * q <= k < 11 * q + 11 && k < |Encode(data)|
    ensures Encode(data)[k] == GroupText(ByteValue(GroupOf(data, 8 * q)))[k - 11 * q]
  {
    EncodeDrop(data, q);
    var rest := data[8 * q..];
    assert Encode(data)[k] == Encode(rest)[k - 11 * q];
    if |rest| >= 8 {
      assert rest[..8] == GroupOf(data, 8 * q);
    }
  }

  ghost predicate CharacterAt(data: seq<Byte>, text: string, q: nat, k: nat) {
    8 * q < |data| && 11 * q <= k < 11 * q + 11 && k < |text| ==>
      text[k] == GroupText(ByteValue(GroupOf(data, 8 * q)))[k - 11 * q]
  }

  ghost predicate IsText(data: seq<Byte>, text: string) {
    forall q: nat, k: nat :: CharacterAt(data, text, q, k)
  }

  /** The outer loop of the encoder. */
  method PutGroups(data: seq<Byte>, buf: array<char>, ghost text: string)
    requires |text| == buf.Length == |data| / 8 * 11 + TAIL[|data| % 8] && IsText(data, text)
    modifies buf
    ensures buf[..] == text
  {
    var i, p := 0, 0;
    ghost var q := 0;
    while i < |data|
      invariant i == 8 * q && p == 11 * q
      invariant forall k :: 0 <= k < p && k < buf.Length ==> buf[k] == text[k]
    {
      PutGroup(buf, p, ByteValue(GroupOf(data, i)));
      forall k | p <= k < p + 11 && k < buf.Length ensures buf[k] == text[k] {
        assert CharacterAt(data, text, q, k);
      }
      i, p, q := i + 8, p + 11, q + 1;
    }
    Covered(|data|, q);
  }

  lemma EncodeIsText(data: seq<Byte>)
    ensures IsText(data, Encode(data))
  {
    forall q: nat, k: nat ensures CharacterAt(data, Encode(data), q, k) {
      if 8 * q < |data| && 11 * q <= k < 11 * q + 11 && k < |Encode(data)| {
        EncodeGroup(data, q, k);
      }
    }
  }

  /** Formatting appends the text of the data. */
  method Format(out: string, data: seq<Byte>) returns (r: string)
    ensures r == out + Encode(data)
  {
    if |data| == 0 {
      return out;
    }
    var size := |data| / 8 * 11 + TAIL[|data| % 8];
    EncodeLength(data);
    EncodeIsText(data);
    var buf := new char[size];
    PutGroups(data, buf, Encode(data));
    r := out + buf[..];
  }

  lemma Covered(n: nat, q: nat)
    requires n <= 8 * q
    ensures n / 8 * 11 + TAIL[n % 8] <= 11 * q
  {
    var r := n % 8;
    assert TAIL[r] <= 10 && (r == 0 ==> TAIL[r] == 0);
    assert n == 8 * (n / 8) + r;
  }

  // ----- The decoder -----

  lemma SuffixValue(d: seq<nat>, j: nat, m: nat)
    requires j < |d| && m == Power(57, |d| - 1 - j)
    ensures Number(57, d[j..]) == d[j] * m + Number(57, d[j + 1..])
    ensures Number(57, d[j..]) <= Number(57, d)
  {
    assert d[j..] == [d[j]] + d[j + 1..] && d == d[..j] + d[j..];
    NumberAppends(57, [d[j]], d[j + 1..]);
    NumberAppends(57, d[..j], d[j..]);
    assert [d[j]][..0] == [];
    assert Number(57, [d[j]]) == d[j];
  }

  lemma OverflowTest(m: nat, x: nat)
    requires m > 0
    ensures (U64 - 1) / m < x <==> x * m > U64 - 1
  {
    var q, r := (U64 - 1) / m, (U64 - 1) % m;
    assert U64 - 1 == q * m + r by {
      assert U64 - 1 == m * q + r;
    }
    if q < x {
      MulMonotone(q + 1, x, m);
    } else {
      MulMonotone(x, q, m);
    }
  }

  lemma MultiplierFits(n: nat)
    requires n <= 10
    ensures 0 < Power(57, n) < U64
  {
    assert Power(57, 4) == 57 * (57 * (57 * 57));
    assert Power(57, 8) == 57 * (57 * (57 * (57 * Power(57, 4))));
    assert Power(57, 2) == 57 * 57 && Power(57, 3) == 57 * (57 * 57) && Power(57, 1) == 57 && Power(57, 0) == 1;
    assert Power(57, 5) == 57 * Power(57, 4) && Power(57, 6) == 57 * Power(57, 5) && Power(57, 7) == 57 * Power(57, 6);
    assert Power(57, 9) == 57 * Power(57, 8) && Power(57, 10) == 57 * Power(57, 9);
  }

  /** One character of a group: its addend, if the sum of 64 bits can take it. */
  method AddCharacter(c: char, multiplier: nat, value: nat) returns (r: Option<nat>)
    requires 0 < multiplier < U64 && value < U64
    ensures r == if ToVal(c).Some? && ToVal(c).value * multiplier + value < U64
                 then Some(ToVal(c).value * multiplier + value) else None
  {
    var res := ToVal(c);
    if res.None? {
      return None;
    }
    OverflowTest(multiplier, res.value);
    if (U64 - 1) / multiplier < res.value {
      return None;
    }
    var addend := res.value * multiplier;
    if U64 - 1 - value < addend {
      return None;
    }
    r := Some(value + addend);
  }

  /** The part of a group's value that comes from the characters from j on. */
  ghost function Suffix(g: string, j: nat): nat
    requires |g| <= 11 && j <= 11
  {
    Number(57, (Values(g) + Zeros(11 - |g|))[j..])
  }

  lemma SuffixEmpty(g: string)
    requires |g| <= 11
    ensures Suffix(g, 11) == 0
  {
    assert (Values(g) + Zeros(11 - |g|))[11..] == [];
  }

  lemma Accepted(g: string, value: nat)
    requires |g| <= 11 && value == Suffix(g, 0) && value < U64 && forall k :: 0 <= k < |g| ==> ToVal(g[k]).Some?
    ensures Acceptable(g) && TextValue(g) == value
  {
    assert (Values(g) + Zeros(11 - |g|))[0..] == Values(g) + Zeros(11 - |g|);
  }

  lemma SuffixStep(g: string, j: nat, m: nat)
    requires |g| <= 11 && j <= 10 && m == Power(57, 10 - j)
    ensures Suffix(g, j) == if j < |g| then ValueOf(g[j]) * m + Suffix(g, j + 1) else Suffix(g, j + 1)
    ensures Suffix(g, j) <= TextValue(g)
  {
    SuffixValue(Values(g) + Zeros(11 - |g|), j, m);
  }

  lemma Rejected(g: string, j: nat, m: nat)
    requires |g| <= 11 && j < |g| && m == Power(57, 10 - j)
    requires ToVal(g[j]).None? || ToVal(g[j]).value * m + Suffix(g, j + 1) >= U64
    ensures !Acceptable(g)
  {
    SuffixStep(g, j, m);
  }

  /** The character at j, after those behind it. */
  method GetCharacter(c: char, multiplier: nat, value: nat, ghost g: string, ghost j: nat) returns (sum: Option<nat>)
    requires |g| <= 11 && j < |g| && c == g[j] && multiplier == Power(57, 10 - j) && 0 < multiplier < U64
    requires value == Suffix(g, j + 1) && value < U64
    ensures sum.None? ==> !Acceptable(g)
    ensures sum.Some? ==> ToVal(g[j]).Some? && sum.value == Suffix(g, j) && sum.value < U64
  {
    SuffixStep(g, j, multiplier);
    sum := AddCharacter(c, multiplier, value);
    if sum.None? {
      Rejected(g, j, multiplier);
    }
  }

  lemma SuffixSkips(g: string, j: nat)
    requires |g| <= j <= 10
    ensures Suffix(g, j) == Suffix(g, j + 1)
  {
    SuffixStep(g, j, Power(57, 10 - j));
  }

  /** The characters of g behind j have been added up. */
  ghost predicate Summed(g: string, j: int, multiplier: nat, value: nat) {
    && |g| <= 11 && -1 <= j <= 10 && multiplier == (if j == 10 then 0 else Power(57, 9 - j))
    && value == Suffix(g, j + 1) && value < U64
    && forall k :: j < k < |g| ==> ToVal(g[k]).Some?
  }

  lemma SummedAtStart(g: string)
    requires |g| <= 11
    ensures Summed(g, 10, 0, 0)
  {
    SuffixEmpty(g);
  }

  lemma SummedAtEnd(g: string, multiplier: nat, value: nat)
    requires Summed(g, -1, multiplier, value)
    ensures Acceptable(g) && TextValue(g) == value
  {
    Accepted(g, value);
  }

  /** One turn of the inner loop of the decoder. */
  method Turn(s: string, j: nat, multiplier: nat, value: nat, ghost g: string) returns (m: nat, sum: Option<nat>)
    requires g == s[..First(s)] && Summed(g, j, multiplier, value)
    ensures sum.None? ==> !Acceptable(g)
    ensures sum.Some? ==> Summed(g, j - 1, m, sum.value)
  {
    m := NextMultiplier(multiplier, 10 - j);
    sum := Some(value);
    if j < |s| {
      sum := GetCharacter(s[j], m, value, g, j);
    } else {
      SuffixSkips(g, j);
    }
  }

  /** The inner loop of the decoder: a group, from its last character. */
  method GetGroup(s: string) returns (r: Option<nat>)
    ensures var g := s[..First(s)]; r == if Acceptable(g) then Some(TextValue(g)) else None
  {
    ghost var g := s[..First(s)];
    var multiplier, j := 0, 10;
    r := Some(0);
    SummedAtStart(g);
    while j >= 0
      invariant r.Some? && Summed(g, j, multiplier, r.value)
    {
      multiplier, r := Turn(s, j, multiplier, r.value, g);
      if r.None? {
        return;
      }
      j := j - 1;
    }
    SummedAtEnd(g, multiplier, r.value);
  }

  /** The multiplier of the n-th character from the end; it stays below 2^64. */
  method NextMultiplier(multiplier: nat, n: nat) returns (m: nat)
    requires n <= 10 && multiplier == if n == 0 then 0 else Power(57, n - 1)
    ensures m == Power(57, n) && 0 < m < U64
  {
    MultiplierFits(n);
    if n > 0 {
      MultiplierFits(n - 1);
    }
    m := if multiplier == 0 then 1 else 57 * multiplier;
  }

  /** Eight bytes of a value, highest first. */
  method PutBytes(mem: array<Byte>, i: nat, value: nat)
    requires value < U64 && i + 8 <= mem.Length
    modifies mem
    ensures mem[..i + 8] == old(mem[..i]) + Bytes(value)
  {
    ghost var d := Bytes(value);
    var v, j := value, 7;
    assert d[..8] == d;
    while j >= 0
      invariant -1 <= j <= 7 && v == Number(256, d[..j + 1])
      invariant mem[..i] == old(mem[..i])
      invariant forall k :: j < k < 8 ==> mem[i + k] == d[k]
    {
      LastDigit(256, d, j, v);
      mem[i + j] := v % 256;
      v, j := v / 256, j - 1;
    }
  }

  /** What is decoded from a text whose groups before the rest gave `done`. */
  ghost function After(done: seq<Byte>, rest: Option<seq<Byte>>): Option<seq<Byte>> {
    if rest.None? then None else Some(done + rest.value)
  }

  lemma AfterNothing(d: Option<seq<Byte>>)
    ensures After([], d) == d
  {
    if d.Some? {
      assert [] + d.value == d.value;
    }
  }

  lemma AfterGroup(done: seq<Byte>, str: string, p: nat, s: string, next: nat)
    requires p < |str| && s == str[p..] && next == p + First(s) && Acceptable(s[..First(s)])
    ensures After(done, Decode(s)) == After(done + Bytes(TextValue(s[..First(s)])), Decode(str[next..]))
  {
    assert s[First(s)..] == str[next..];
    var b, rest := Bytes(TextValue(s[..First(s)])), Decode(str[next..]);
    if rest.Some? {
      assert done + (b + rest.value) == done + b + rest.value;
    }
  }

  lemma Sizes(n: nat, q: nat)
    requires 8 * q < n / 11 * 8 + (if n % 11 != 0 then 8 else 0)
    ensures 11 * q < n && 8 * q + 8 <= n / 11 * 8 + (if n % 11 != 0 then 8 else 0)
    ensures n <= 11 * q + 11 ==> 8 * q + 8 == n / 11 * 8 + (if n % 11 != 0 then 8 else 0)
  {
  }

  /** The first q groups are decoded into `done`; the text from `at` on is left. */
  ghost predicate Decoding(str: string, size: nat, q: nat, at: nat, done: seq<Byte>) {
    && 8 * q <= size && |done| == 8 * q && at == (if 8 * q < size then 11 * q else |str|) <= |str|
    && Decode(str) == After(done, Decode(str[at..]))
  }

  lemma DecodingStarts(str: string, size: nat)
    requires size == |str| / 11 * 8 + (if |str| % 11 != 0 then 8 else 0)
    ensures Decoding(str, size, 0, if size > 0 then 0 else |str|, [])
  {
    AfterNothing(Decode(str));
    assert str[0..] == str;
  }

  lemma DecodingTurns(str: string, size: nat, q: nat, at: nat, done: seq<Byte>, done': seq<Byte>)
    requires size == |str| / 11 * 8 + (if |str| % 11 != 0 then 8 else 0)
    requires Decoding(str, size, q, at, done) && 8 * q < size
    ensures at < |str| && 8 * q + 8 <= size
    ensures var s := str[at..]; var g := s[..First(s)];
      && (!Acceptable(g) ==> Decode(str) == None)
      && (Acceptable(g) && done' == done + Bytes(TextValue(g)) ==> Decoding(str, size, q + 1, at + First(s), done'))
  {
    Sizes(|str|, q);
    var s := str[at..];
    if Acceptable(s[..First(s)]) {
      AfterGroup(done, str, at, s, at + First(s));
    }
  }

  lemma DecodingEnds(str: string, size: nat, q: nat, at: nat, done: seq<Byte>)
    requires Decoding(str, size, q, at, done) && 8 * q == size
    ensures Decode(str) == Some(done)
  {
    assert str[at..] == "";
    assert done + [] == done;
  }

  /** from_string: the bytes, or none at all if some group is not acceptable. */
  method FromString(str: string) returns (result: seq<Byte>)
    ensures result == if Decode(str).Some? then Decode(str).value else []
  {
    var size := |str| / 11 * 8 + (if |str| % 11 != 0 then 8 else 0);
    var mem := new Byte[size];
    var i, p := 0, 0;
    ghost var q: nat, at: nat := 0, if size > 0 then 0 else |str|;
    DecodingStarts(str, size);
    while i < size
      invariant i == 8 * q && p == 11 * q && i <= size
      invariant Decoding(str, size, q, at, mem[..i])
    {
      ghost var done := mem[..i];
      ghost var s := str[at..];
      DecodingTurns(str, size, q, at, done, done);
      var value := GetGroup(str[p..]);
      if value.None? {
        return [];
      }
      PutBytes(mem, i, value.value);
      DecodingTurns(str, size, q, at, done, mem[..i + 8]);
      i, p, q, at := i + 8, p + 11, q + 1, at + First(s);
    }
    DecodingEnds(str, size, q, at, mem[..i]);
    assert mem[..i] == mem[..];
    result := mem[..];
  }
}
