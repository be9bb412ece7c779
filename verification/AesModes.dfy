/** Modes of operation of a block cipher, NIST SP 800-38A: CBC, CFB with 128-bit segments, and CTR.

  The cipher is a function on blocks of 16 bytes, the addition of bytes one that undoes itself. */
module AesModes {
  import opened Arithmetic

  ghost predicate KeepsSize<B(!new)>(e: seq<B> -> seq<B>) {
    forall b :: |b| == 16 ==> |e(b)| == 16
  }

  ghost predicate Undoes<B(!new)>(d: seq<B> -> seq<B>, e: seq<B> -> seq<B>) {
    forall b :: |b| == 16 ==> d(e(b)) == b
  }

  ghost predicate CancelAt<B>(add: (B, B) -> B, a: B, b: B) {
    add(add(a, b), b) == a && add(add(b, a), b) == a
  }

  ghost predicate Cancels<B(!new)>(add: (B, B) -> B) {
    forall a, b :: CancelAt(add, a, b)
  }

  function Sum<B>(add: (B, B) -> B, a: seq<B>, b: seq<B>): (r: seq<B>)
    requires |a| == |b|
    ensures |r| == |a|
  {
    seq(|a|, i requires 0 <= i < |a| => add(a[i], b[i]))
  }

  lemma SumCancels<B(!new)>(add: (B, B) -> B, a: seq<B>, b: seq<B>)
    requires Cancels(add) && |a| == |b|
    ensures Sum(add, Sum(add, a, b), b) == a
  {
    forall i | 0 <= i < |a| ensures Sum(add, Sum(add, a, b), b)[i] == a[i] {
      assert CancelAt(add, a[i], b[i]);
    }
  }

  // ----- Taking sequences apart -----

  lemma TakeOneMore<B>(s: seq<B>, m: nat)
    requires m < |s|
    ensures s[..m + 1] == s[..m] + [s[m]]
  {
  }

  lemma TakeAll<B>(s: seq<B>)
    ensures s[..|s|] == s
  {
  }

  lemma LastBlock<B>(s: seq<B>)
    requires 0 < |s| && |s| % 16 == 0
    ensures 16 <= |s| && |s[..|s| - 16]| % 16 == 0 && |s[|s| - 16..]| == 16
    ensures s == s[..|s| - 16] + s[|s| - 16..]
  {
  }

  // ----- CBC, section 6.2 -----

  /** The block the next one is chained to. */
  function Previous<B>(iv: seq<B>, c: seq<B>): (r: seq<B>)
    requires |iv| == 16 && |c| % 16 == 0
    ensures |r| == 16
  {
    if |c| == 0 then iv else c[|c| - 16..]
  }

  ghost function CbcEncrypt<B(!new)>(add: (B, B) -> B, e: seq<B> -> seq<B>, iv: seq<B>, p: seq<B>): (c: seq<B>)
    requires KeepsSize(e) && |iv| == 16 && |p| % 16 == 0
    ensures |c| == |p|
  {
    if |p| == 0 then []
    else
      var n := |p| - 16;
      var c := CbcEncrypt(add, e, iv, p[..n]);
      c + e(Sum(add, p[n..], Previous(iv, c)))
  }

  ghost function CbcDecrypt<B(!new)>(add: (B, B) -> B, d: seq<B> -> seq<B>, iv: seq<B>, c: seq<B>): (p: seq<B>)
    requires KeepsSize(d) && |iv| == 16 && |c| % 16 == 0
    ensures |p| == |c|
  {
    if |c| == 0 then []
    else
      var n := |c| - 16;
      CbcDecrypt(add, d, iv, c[..n]) + Sum(add, d(c[n..]), Previous(iv, c[..n]))
  }

  lemma CbcDecryptAppends<B(!new)>(add: (B, B) -> B, d: seq<B> -> seq<B>, iv: seq<B>, c: seq<B>, x: seq<B>)
    requires KeepsSize(d) && |iv| == 16 && |c| % 16 == 0 && |x| == 16
    ensures CbcDecrypt(add, d, iv, c + x) == CbcDecrypt(add, d, iv, c) + Sum(add, d(x), Previous(iv, c))
  {
    assert (c + x)[..|c|] == c && (c + x)[|c|..] == x;
  }

  lemma BlockRoundTrip<B(!new)>(add: (B, B) -> B, e: seq<B> -> seq<B>, d: seq<B> -> seq<B>, b: seq<B>, v: seq<B>)
    requires Cancels(add) && KeepsSize(e) && Undoes(d, e) && |b| == |v| == 16
    ensures |d(e(Sum(add, b, v)))| == 16 && Sum(add, d(e(Sum(add, b, v))), v) == b
  {
    SumCancels(add, b, v);
  }

  /** Decryption undoes encryption, whatever the number of blocks. */
  lemma {:induction false} CbcRoundTrip<B(!new)>(add: (B, B) -> B, e: seq<B> -> seq<B>, d: seq<B> -> seq<B>, iv: seq<B>, p: seq<B>)
    requires Cancels(add) && KeepsSize(e) && KeepsSize(d) && Undoes(d, e) && |iv| == 16 && |p| % 16 == 0
    ensures CbcDecrypt(add, d, iv, CbcEncrypt(add, e, iv, p)) == p
  {
    if |p| > 0 {
      var n := |p| - 16;
      LastBlock(p);
      CbcRoundTrip(add, e, d, iv, p[..n]);
      var c := CbcEncrypt(add, e, iv, p[..n]);
      var b, v := p[n..], Previous(iv, c);
      CbcDecryptAppends(add, d, iv, c, e(Sum(add, b, v)));
      BlockRoundTrip(add, e, d, b, v);
    }
  }

  // ----- Byte streams -----

  /** What one byte of input does. */
  datatype Move<S, B> = Move(state: S, out: B)

  function RunState<S, B>(step: (S, B) -> Move<S, B>, s: S, data: seq<B>): S {
    if |data| == 0 then s else var n := |data| - 1; step(RunState(step, s, data[..n]), data[n]).state
  }

  function RunOut<S, B>(step: (S, B) -> Move<S, B>, s: S, data: seq<B>): (r: seq<B>)
    ensures |r| == |data|
  {
    if |data| == 0 then []
    else var n := |data| - 1; RunOut(step, s, data[..n]) + [step(RunState(step, s, data[..n]), data[n]).out]
  }

  /** Splitting the data across calls, carrying the state, makes no difference. */
  lemma {:induction false} RunSplits<S, B>(step: (S, B) -> Move<S, B>, s: S, a: seq<B>, b: seq<B>)
    ensures RunState(step, s, a + b) == RunState(step, RunState(step, s, a), b)
    ensures RunOut(step, s, a + b) == RunOut(step, s, a) + RunOut(step, RunState(step, s, a), b)
    decreases |b|
  {
    if |b| == 0 {
      assert a + b == a;
    } else {
      var n := |b| - 1;
      RunSplits(step, s, a, b[..n]);
      assert (a + b)[..|a| + n] == a + b[..n];
    }
  }

  /** Back takes each output byte of forth to its input byte, and moves on alike. */
  ghost predicate Reverses<S(!new), B(!new)>(forth: (S, B) -> Move<S, B>, back: (S, B) -> Move<S, B>) {
    forall s, x :: ReversesAt(forth, back, s, x)
  }

  ghost predicate ReversesAt<S, B>(forth: (S, B) -> Move<S, B>, back: (S, B) -> Move<S, B>, s: S, x: B) {
    back(s, forth(s, x).out) == Move(forth(s, x).state, x)
  }

  lemma {:induction false} RunRoundTrip<S(!new), B(!new)>(forth: (S, B) -> Move<S, B>, back: (S, B) -> Move<S, B>, s: S, data: seq<B>)
    requires Reverses(forth, back)
    ensures RunOut(back, s, RunOut(forth, s, data)) == data
    ensures RunState(back, s, RunOut(forth, s, data)) == RunState(forth, s, data)
    decreases |data|
  {
    if |data| > 0 {
      var n := |data| - 1;
      RunRoundTrip(forth, back, s, data[..n]);
      assert RunOut(forth, s, data)[..n] == RunOut(forth, s, data[..n]);
      assert ReversesAt(forth, back, RunState(forth, s, data[..n]), data[n]);
      assert data == data[..n] + [data[n]];
    }
  }

  // ----- CFB, section 6.3 -----

  /** The feedback register, of which the first n bytes are ciphertext already and the others key stream. */
  datatype Feed<B> = Feed(iv: seq<B>, n: nat)

  /** The cipher is applied when a block is used up. */
  function Refilled<B>(e: seq<B> -> seq<B>, f: Feed<B>): seq<B> {
    if f.n == 0 then e(f.iv) else f.iv
  }

  /** One byte; the ciphertext byte, which is the output or the input, goes into the register. */
  function CfbStep<B>(add: (B, B) -> B, e: seq<B> -> seq<B>, encrypt: bool, f: Feed<B>, x: B): Move<Feed<B>, B> {
    var iv := Refilled(e, f);
    if f.n < |iv| then
      var y := if encrypt then add(iv[f.n], x) else add(x, iv[f.n]);
      Move(Feed(iv[f.n := if encrypt then y else x], (f.n + 1) % 16), y)
    else Move(f, x)
  }

  function Cfb<B>(add: (B, B) -> B, e: seq<B> -> seq<B>, encrypt: bool): (Feed<B>, B) -> Move<Feed<B>, B> {
    (f, x) => CfbStep(add, e, encrypt, f, x)
  }

  lemma CfbReverses<B(!new)>(add: (B, B) -> B, e: seq<B> -> seq<B>)
    requires Cancels(add)
    ensures Reverses(Cfb(add, e, true), Cfb(add, e, false))
  {
    forall f: Feed<B>, x: B ensures ReversesAt(Cfb(add, e, true), Cfb(add, e, false), f, x) {
      var iv := Refilled(e, f);
      if f.n < |iv| {
        assert CancelAt(add, x, iv[f.n]);
      }
    }
  }

  /** Decryption from the same register restores the data, wherever in a block it starts. */
  lemma CfbRoundTrip<B(!new)>(add: (B, B) -> B, e: seq<B> -> seq<B>, f: Feed<B>, data: seq<B>)
    requires Cancels(add)
    ensures RunOut(Cfb(add, e, false), f, RunOut(Cfb(add, e, true), f, data)) == data
    ensures RunState(Cfb(add, e, false), f, RunOut(Cfb(add, e, true), f, data)) == RunState(Cfb(add, e, true), f, data)
  {
    CfbReverses(add, e);
    RunRoundTrip(Cfb(add, e, true), Cfb(add, e, false), f, data);
  }

  /** The standard's definition over whole blocks. */
  ghost function CfbEncrypt<B(!new)>(add: (B, B) -> B, e: seq<B> -> seq<B>, iv: seq<B>, p: seq<B>): (c: seq<B>)
    requires KeepsSize(e) && |iv| == 16 && |p| % 16 == 0
    ensures |c| == |p|
  {
    if |p| == 0 then []
    else
      var n := |p| - 16;
      var c := CfbEncrypt(add, e, iv, p[..n]);
      c + Sum(add, e(Previous(iv, c)), p[n..])
  }

  /** The state and the last byte after a prefix and one more byte. */
  lemma RunAppends<S, B>(step: (S, B) -> Move<S, B>, s: S, data: seq<B>, x: B)
    ensures RunState(step, s, data + [x]) == step(RunState(step, s, data), x).state
    ensures RunOut(step, s, data + [x]) == RunOut(step, s, data) + [step(RunState(step, s, data), x).out]
  {
    assert (data + [x])[..|data|] == data;
  }

  /** The first m elements of c, the others of k. */
  function Mixed<B>(c: seq<B>, k: seq<B>, m: nat): (r: seq<B>)
    requires |c| == |k|
    ensures |r| == |k|
  {
    seq(|k|, i requires 0 <= i < |k| => if i < m then c[i] else k[i])
  }

  /** What the first m bytes of a block with key stream k and ciphertext c leave. */
  function Fed<B>(iv: seq<B>, k: seq<B>, c: seq<B>, m: nat): Feed<B>
    requires |k| == |c| == 16 && m <= 16
  {
    if m == 0 then Feed(iv, 0) else Feed(Mixed(c, k, m), m % 16)
  }

  lemma MixedEnds<B>(c: seq<B>, k: seq<B>)
    requires |c| == |k|
    ensures Mixed(c, k, 0) == k && Mixed(c, k, |k|) == c
  {
  }

  lemma FedAll<B>(iv: seq<B>, k: seq<B>, c: seq<B>)
    requires |k| == |c| == 16
    ensures Fed(iv, k, c, 16) == Feed(c, 0)
  {
    MixedEnds(c, k);
  }

  lemma MixedMore<B>(c: seq<B>, k: seq<B>, m: nat)
    requires |c| == |k| && m < |k|
    ensures Mixed(c, k, m)[m := c[m]] == Mixed(c, k, m + 1)
  {
  }

  /** One byte of encryption, with the register r after a refill if one is due. */
  lemma CfbByte<B>(add: (B, B) -> B, e: seq<B> -> seq<B>, iv: seq<B>, r: seq<B>, n: nat, x: B)
    requires |r| == 16 && n < 16 && r == if n == 0 then e(iv) else iv
    ensures CfbStep(add, e, true, Feed(iv, n), x) == Move(Feed(r[n := add(r[n], x)], (n + 1) % 16), add(r[n], x))
  {
  }

  lemma FedStep<B>(add: (B, B) -> B, e: seq<B> -> seq<B>, iv: seq<B>, k: seq<B>, c: seq<B>, m: nat, x: B)
    requires |k| == |c| == 16 && k == e(iv) && m < 16 && c[m] == add(k[m], x)
    ensures CfbStep(add, e, true, Fed(iv, k, c, m), x) == Move(Fed(iv, k, c, m + 1), c[m])
  {
    MixedEnds(c, k);
    MixedMore(c, k, m);
    CfbByte(add, e, Fed(iv, k, c, m).iv, Mixed(c, k, m), m, x);
  }

  /** The first m bytes of a block that starts with a refill. */
  lemma {:induction false} CfbPart<B(!new)>(add: (B, B) -> B, e: seq<B> -> seq<B>, iv: seq<B>, k: seq<B>, b: seq<B>, c: seq<B>, m: nat)
    requires |k| == |b| == |c| == 16 && k == e(iv) && m <= 16
    requires forall i :: 0 <= i < 16 ==> c[i] == add(k[i], b[i])
    ensures RunOut(Cfb(add, e, true), Feed(iv, 0), b[..m]) == c[..m]
    ensures RunState(Cfb(add, e, true), Feed(iv, 0), b[..m]) == Fed(iv, k, c, m)
  {
    if m > 0 {
      CfbPart(add, e, iv, k, b, c, m - 1);
      FedStep(add, e, iv, k, c, m - 1, b[m - 1]);
      RunAppends(Cfb(add, e, true), Feed(iv, 0), b[..m - 1], b[m - 1]);
      TakeOneMore(b, m - 1);
      TakeOneMore(c, m - 1);
    }
  }

  /** From a block boundary, the bytes are those the standard prescribes, and the register is the last block. */
  lemma {:induction false} CfbIsStandard<B(!new)>(add: (B, B) -> B, e: seq<B> -> seq<B>, iv: seq<B>, p: seq<B>)
    requires KeepsSize(e) && |iv| == 16 && |p| % 16 == 0
    ensures var c := CfbEncrypt(add, e, iv, p);
      && RunOut(Cfb(add, e, true), Feed(iv, 0), p) == c
      && RunState(Cfb(add, e, true), Feed(iv, 0), p) == Feed(Previous(iv, c), 0)
    decreases |p|
  {
    if |p| > 0 {
      var n := |p| - 16;
      LastBlock(p);
      CfbIsStandard(add, e, iv, p[..n]);
      var c := CfbEncrypt(add, e, iv, p[..n]);
      RunSplits(Cfb(add, e, true), Feed(iv, 0), p[..n], p[n..]);
      var k := e(Previous(iv, c));
      var x := Sum(add, k, p[n..]);
      CfbPart(add, e, Previous(iv, c), k, p[n..], x, 16);
      TakeAll(p[n..]);
      TakeAll(x);
      FedAll(Previous(iv, c), k, x);
      assert (c + x)[n..] == x;
    }
  }

  // ----- CTR, section 6.5 -----

  /** Bytes as digits: the successor, which wraps to zero, and the value. */
  datatype Digits<!B> = Digits(next: B -> B, zero: B, value: B -> nat)

  ghost predicate DigitAt<B>(g: Digits<B>, x: B) {
    g.value(x) < 256 && if g.next(x) == g.zero then g.value(x) == 255 else g.value(g.next(x)) == g.value(x) + 1
  }

  ghost predicate AreDigits<B(!new)>(g: Digits<B>) {
    g.value(g.zero) == 0 && (forall x :: DigitAt(g, x)) && forall x, y :: g.value(x) == g.value(y) ==> x == y
  }

  /** The counter loop: the lowest byte is last, and a byte that wraps to zero carries. */
  function Increment<B(==)>(g: Digits<B>, c: seq<B>): (r: seq<B>)
    ensures |r| == |c|
  {
    if |c| == 0 then []
    else
      var n := |c| - 1;
      if g.next(c[n]) != g.zero then c[..n] + [g.next(c[n])] else Increment(g, c[..n]) + [g.zero]
  }

  /** The value of a big-endian byte string. */
  function Value<B>(g: Digits<B>, c: seq<B>): nat {
    if |c| == 0 then 0 else 256 * Value(g, c[..|c| - 1]) + g.value(c[|c| - 1])
  }

  function Power256(n: nat): (r: nat)
    ensures r > 0
  {
    if n == 0 then 1 else 256 * Power256(n - 1)
  }

  lemma {:induction false} ValueBound<B(!new)>(g: Digits<B>, c: seq<B>)
    requires AreDigits(g)
    ensures Value(g, c) < Power256(|c|)
  {
    if |c| > 0 {
      ValueBound(g, c[..|c| - 1]);
      assert DigitAt(g, c[|c| - 1]);
    }
  }

  lemma ValueAppends<B>(g: Digits<B>, c: seq<B>, x: B)
    ensures Value(g, c + [x]) == 256 * Value(g, c) + g.value(x)
  {
    assert (c + [x])[..|c|] == c;
  }

  /** The standard incrementing function: addition of one modulo 2^(8 |c|). */
  lemma {:induction false} IncrementAddsOne<B(!new)>(g: Digits<B>, c: seq<B>)
    requires AreDigits(g)
    ensures Value(g, Increment(g, c)) == if Value(g, c) + 1 == Power256(|c|) then 0 else Value(g, c) + 1
  {
    if |c| > 0 {
      var n := |c| - 1;
      IncrementAddsOne(g, c[..n]);
      ValueBound(g, c[..n]);
      assert DigitAt(g, c[n]) && DigitAt(g, g.next(c[n]));
      assert Power256(|c|) == 256 * Power256(n);
      if g.next(c[n]) != g.zero {
        ValueAppends(g, c[..n], g.next(c[n]));
      } else {
        ValueAppends(g, Increment(g, c[..n]), g.zero);
      }
    }
  }

  /** Different counter blocks have different values. */
  lemma {:induction false} ValueInjective<B(!new)>(g: Digits<B>, c: seq<B>, d: seq<B>)
    requires AreDigits(g) && |c| == |d| && Value(g, c) == Value(g, d)
    ensures c == d
  {
    if |c| > 0 {
      var n := |c| - 1;
      assert DigitAt(g, c[n]) && DigitAt(g, d[n]);
      ValueInjective(g, c[..n], d[..n]);
      TakeOneMore(c, n);
      TakeOneMore(d, n);
      TakeAll(c);
      TakeAll(d);
    }
  }

  function IncrementTimes<B(==)>(g: Digits<B>, c: seq<B>, j: nat): (r: seq<B>)
    ensures |r| == |c|
  {
    if j == 0 then c else Increment(g, IncrementTimes(g, c, j - 1))
  }

  lemma Successor(u: nat, p: nat, w: nat, w': nat)
    requires p > 0 && w == u % p && w' == if w + 1 == p then 0 else w + 1
    ensures w' == (u + 1) % p
  {
    ModAdvance(u, 1, p);
  }

  lemma IncrementTimesAdds<B(!new)>(g: Digits<B>, c: seq<B>, j: nat)
    requires AreDigits(g)
    ensures Value(g, IncrementTimes(g, c, j)) == (Value(g, c) + j) % Power256(|c|)
  {
    CountsUp(g, c, j, Value(g, c), Power256(|c|), IncrementTimes(g, c, j));
  }

  lemma {:induction false} CountsUp<B(!new)>(g: Digits<B>, c: seq<B>, j: nat, v: nat, p: nat, d: seq<B>)
    requires AreDigits(g) && v == Value(g, c) && p == Power256(|c|) && d == IncrementTimes(g, c, j)
    ensures Value(g, d) == (v + j) % p
  {
    if j == 0 {
      ValueBound(g, c);
      DivModUnique(v, p, 0, v);
    } else {
      var b := IncrementTimes(g, c, j - 1);
      CountsUp(g, c, j - 1, v, p, b);
      NextValue(g, b, v + j - 1, p);
    }
  }

  lemma NextValue<B(!new)>(g: Digits<B>, d: seq<B>, u: nat, p: nat)
    requires AreDigits(g) && p == Power256(|d|) && Value(g, d) == u % p
    ensures Value(g, Increment(g, d)) == (u + 1) % p
  {
    IncrementAddsOne(g, d);
    Successor(u, p, Value(g, d), Value(g, Increment(g, d)));
  }

  /** The j-th counter block is the only one of its value. */
  lemma CounterBlock<B(!new)>(g: Digits<B>, c: seq<B>, j: nat, t: seq<B>, p: nat)
    requires AreDigits(g) && |t| == |c| && p == Power256(|c|)
    ensures t == IncrementTimes(g, c, j) <==> Value(g, t) == (Value(g, c) + j) % p
  {
    var d := IncrementTimes(g, c, j);
    CountsUp(g, c, j, Value(g, c), p, d);
    if Value(g, t) == Value(g, d) {
      ValueInjective(g, t, d);
    }
  }

  /** The counter block for the next refill, the key stream in use and the position in it. */
  datatype Ctr<B> = Ctr(counter: seq<B>, stream: seq<B>, n: nat)

  function CtrStep<B(==)>(add: (B, B) -> B, e: seq<B> -> seq<B>, g: Digits<B>, s: Ctr<B>, x: B): Move<Ctr<B>, B> {
    var stream := if s.n == 0 then e(s.counter) else s.stream;
    var counter := if s.n == 0 then Increment(g, s.counter) else s.counter;
    if s.n < |stream| then Move(Ctr(counter, stream, (s.n + 1) % 16), add(x, stream[s.n])) else Move(s, x)
  }

  function CtrOf<B(==)>(add: (B, B) -> B, e: seq<B> -> seq<B>, g: Digits<B>): (Ctr<B>, B) -> Move<Ctr<B>, B> {
    (s, x) => CtrStep(add, e, g, s, x)
  }

  /** Encryption is its own inverse. */
  lemma CtrReverses<B(!new)>(add: (B, B) -> B, e: seq<B> -> seq<B>, g: Digits<B>)
    requires Cancels(add)
    ensures Reverses(CtrOf(add, e, g), CtrOf(add, e, g))
  {
    forall s: Ctr<B>, x: B ensures ReversesAt(CtrOf(add, e, g), CtrOf(add, e, g), s, x) {
      var stream := if s.n == 0 then e(s.counter) else s.stream;
      if s.n < |stream| {
        assert CancelAt(add, x, stream[s.n]);
      }
    }
  }

  /** Applied twice from the same state, it restores the data. */
  lemma CtrTwice<B(!new)>(add: (B, B) -> B, e: seq<B> -> seq<B>, g: Digits<B>, s: Ctr<B>, data: seq<B>)
    requires Cancels(add)
    ensures RunOut(CtrOf(add, e, g), s, RunOut(CtrOf(add, e, g), s, data)) == data
  {
    CtrReverses(add, e, g);
    RunRoundTrip(CtrOf(add, e, g), CtrOf(add, e, g), s, data);
  }

  /** From a block boundary: what is left after m bytes. */
  ghost predicate CtrAfter<B(!new)>(e: seq<B> -> seq<B>, g: Digits<B>, c: seq<B>, m: nat, s: Ctr<B>) {
    && s.n == m % 16
    && s.counter == IncrementTimes(g, c, (m + 15) / 16)
    && (s.n > 0 ==> s.stream == e(IncrementTimes(g, c, m / 16)))
  }

  lemma CtrStepAfter<B(!new)>(add: (B, B) -> B, e: seq<B> -> seq<B>, g: Digits<B>, c: seq<B>, m: nat, s: Ctr<B>, x: B)
    requires KeepsSize(e) && |c| == 16 && CtrAfter(e, g, c, m, s)
    ensures CtrAfter(e, g, c, m + 1, CtrStep(add, e, g, s, x).state)
    ensures |e(IncrementTimes(g, c, m / 16))| == 16
    ensures CtrStep(add, e, g, s, x).out == add(x, e(IncrementTimes(g, c, m / 16))[m % 16])
  {
    BlockCounts(m);
  }

  lemma BlockCounts(m: nat)
    ensures (m + 15) / 16 == if m % 16 == 0 then m / 16 else m / 16 + 1
    ensures (m + 1 + 15) / 16 == m / 16 + 1 && (m + 1) % 16 == (m % 16 + 1) % 16
    ensures (m + 1) % 16 > 0 ==> (m + 1) / 16 == m / 16
  {
  }

  /** From a block boundary, byte i is added to byte i modulo 16 of the encrypted counter block number i / 16. */
  lemma {:induction false} CtrIsStandard<B(!new)>(add: (B, B) -> B, e: seq<B> -> seq<B>, g: Digits<B>, s: Ctr<B>, data: seq<B>)
    requires KeepsSize(e) && |s.counter| == 16 && s.n == 0
    ensures CtrAfter(e, g, s.counter, |data|, RunState(CtrOf(add, e, g), s, data))
    ensures CtrBytes(add, e, g, s.counter, data, RunOut(CtrOf(add, e, g), s, data))
    decreases |data|
  {
    if |data| > 0 {
      var m := |data| - 1;
      var front, x := data[..m], data[m];
      CtrIsStandard(add, e, g, s, front);
      CtrStepAfter(add, e, g, s.counter, m, RunState(CtrOf(add, e, g), s, front), x);
      RunAppends(CtrOf(add, e, g), s, front, x);
      TakeOneMore(data, m);
      TakeAll(data);
      var y := CtrStep(add, e, g, RunState(CtrOf(add, e, g), s, front), x).out;
      CtrBytesAppend(add, e, g, s.counter, front, RunOut(CtrOf(add, e, g), s, front), x, y);
    }
  }

  ghost predicate CtrBytes<B(!new)>(add: (B, B) -> B, e: seq<B> -> seq<B>, g: Digits<B>, c: seq<B>, data: seq<B>, out: seq<B>)
    requires KeepsSize(e) && |c| == 16 && |data| == |out|
  {
    forall i :: 0 <= i < |data| ==> CtrByteAt(add, e, g, c, data[i], out[i], i)
  }

  lemma CtrBytesAppend<B(!new)>(add: (B, B) -> B, e: seq<B> -> seq<B>, g: Digits<B>, c: seq<B>, data: seq<B>, out: seq<B>, x: B, y: B)
    requires KeepsSize(e) && |c| == 16 && |data| == |out|
    requires CtrBytes(add, e, g, c, data, out) && CtrByteAt(add, e, g, c, x, y, |data|)
    ensures CtrBytes(add, e, g, c, data + [x], out + [y])
  {
    forall i | 0 <= i < |data| + 1 ensures CtrByteAt(add, e, g, c, (data + [x])[i], (out + [y])[i], i) {
      assert i < |data| ==> CtrByteAt(add, e, g, c, data[i], out[i], i);
    }
  }

  ghost predicate CtrByteAt<B(!new)>(add: (B, B) -> B, e: seq<B> -> seq<B>, g: Digits<B>, c: seq<B>, x: B, y: B, i: nat)
    requires KeepsSize(e) && |c| == 16
  {
    y == add(x, e(IncrementTimes(g, c, i / 16))[i % 16])
  }

  lemma KeyByte<B(!new)>(add: (B, B) -> B, e: seq<B> -> seq<B>, g: Digits<B>, s: Ctr<B>, data: seq<B>, i: nat, t: seq<B>)
    requires KeepsSize(e) && |s.counter| == 16 && s.n == 0 && i < |data| && t == IncrementTimes(g, s.counter, i / 16)
    ensures |e(t)| == 16 && RunOut(CtrOf(add, e, g), s, data)[i] == add(data[i], e(t)[i % 16])
  {
    CtrIsStandard(add, e, g, s, data);
    assert CtrByteAt(add, e, g, s.counter, data[i], RunOut(CtrOf(add, e, g), s, data)[i], i);
  }

  /** Key stream byte number i comes from the only block whose value is i / 16 more than that of the first one. */
  lemma KeyStream<B(!new)>(add: (B, B) -> B, e: seq<B> -> seq<B>, g: Digits<B>, s: Ctr<B>, data: seq<B>, i: nat, t: seq<B>,
                           p: nat, j: nat)
    requires KeepsSize(e) && AreDigits(g) && |s.counter| == 16 && s.n == 0 && i < |data| && j == i / 16
    requires |t| == 16 && p == Power256(|s.counter|) && Value(g, t) == (Value(g, s.counter) + j) % p
    ensures |e(t)| == 16 && RunOut(CtrOf(add, e, g), s, data)[i] == add(data[i], e(t)[i % 16])
  {
    CounterBlock(g, s.counter, j, t, p);
    KeyByte(add, e, g, s, data, i, t);
  }
}
