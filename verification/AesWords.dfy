/** Columns of the AES state over an abstract field.

  The structure of the cipher uses little about bytes: an addition that cancels, products that distribute over it,
  and two S-boxes of which one undoes the other.  These laws are collected here, so that the reasoning about
  rounds does not descend to bits. */
module AesWords {

  /** A circulant matrix, by the products in its first row. */
  datatype Circulant<!B> = Circulant(f0: B -> B, f1: B -> B, f2: B -> B, f3: B -> B)

  /** Bytes: addition (exclusive or), the S-boxes, the matrices of MixColumns and InvMixColumns, and the round
      constants. */
  datatype Field<!B> = Field(add: (B, B) -> B, zero: B, fsb: B -> B, rsb: B -> B,
                             mix: Circulant<B>, inv: Circulant<B>, rcon: nat -> B)

  /** A 32-bit word by its bytes, lowest first: one column of the state. */
  datatype Word<B> = Word(b0: B, b1: B, b2: B, b3: B)

  function Sum4<B>(k: Field<B>, a: B, b: B, c: B, d: B): B {
    k.add(k.add(a, b), k.add(c, d))
  }

  function Xor<B>(k: Field<B>, v: Word<B>, w: Word<B>): Word<B> {
    Word(k.add(v.b0, w.b0), k.add(v.b1, w.b1), k.add(v.b2, w.b2), k.add(v.b3, w.b3))
  }

  /** The product of a matrix and a column. */
  function Apply<B>(k: Field<B>, m: Circulant<B>, w: Word<B>): Word<B> {
    Word(Sum4(k, m.f0(w.b0), m.f1(w.b1), m.f2(w.b2), m.f3(w.b3)), Sum4(k, m.f3(w.b0), m.f0(w.b1), m.f1(w.b2), m.f2(w.b3)),
         Sum4(k, m.f2(w.b0), m.f3(w.b1), m.f0(w.b2), m.f1(w.b3)), Sum4(k, m.f1(w.b0), m.f2(w.b1), m.f3(w.b2), m.f0(w.b3)))
  }

  // ----- Look-up tables -----

  /** ROTL8 */
  function Rotate<B>(w: Word<B>): Word<B> {
    Word(w.b3, w.b0, w.b1, w.b2)
  }

  /** An entry of FT0 or RT0: the first column of the matrix times the S-box value of the index.  The tables
      numbered 1 to 3 hold the same entries rotated by as many bytes. */
  function Entry<B>(m: Circulant<B>, sb: B -> B, x: B): Word<B> {
    Word(m.f0(sb(x)), m.f3(sb(x)), m.f2(sb(x)), m.f1(sb(x)))
  }

  /** Four look-ups, one in each of the tables numbered 0 to 3. */
  function Lookup<B>(k: Field<B>, m: Circulant<B>, sb: B -> B, a: B, b: B, c: B, d: B): Word<B> {
    Xor(k, Xor(k, Entry(m, sb, a), Rotate(Entry(m, sb, b))),
        Xor(k, Rotate(Rotate(Entry(m, sb, c))), Rotate(Rotate(Rotate(Entry(m, sb, d))))))
  }

  function SubWord<B>(sb: B -> B, w: Word<B>): Word<B> {
    Word(sb(w.b0), sb(w.b1), sb(w.b2), sb(w.b3))
  }

  /** Four look-ups substitute four bytes and multiply the column by the matrix. */
  lemma LookupApplies<B>(k: Field<B>, m: Circulant<B>, sb: B -> B, a: B, b: B, c: B, d: B)
    ensures Lookup(k, m, sb, a, b, c, d) == Apply(k, m, SubWord(sb, Word(a, b, c, d)))
  {
  }

  // ----- The laws of the field -----

  ghost predicate SwapAt<B>(k: Field<B>, a: B, b: B, c: B, d: B) {
    k.add(k.add(a, b), k.add(c, d)) == k.add(k.add(a, c), k.add(b, d))
  }

  ghost predicate CancelAt<B>(k: Field<B>, a: B, b: B) {
    k.add(k.add(a, b), b) == a && k.add(a, b) == k.add(b, a) && k.add(a, k.zero) == a
  }

  ghost predicate LinearAt<B>(k: Field<B>, f: B -> B, a: B, b: B) {
    f(k.add(a, b)) == k.add(f(a), f(b))
  }

  ghost predicate Linear<B(!new)>(k: Field<B>, f: B -> B) {
    forall a, b :: LinearAt(k, f, a, b)
  }

  /** The coefficients of inv times mix are one and three times zero. */
  ghost predicate InverseAt<B>(k: Field<B>, x: B) {
    var m, g := k.mix, k.inv;
    && Sum4(k, g.f0(m.f0(x)), g.f1(m.f3(x)), g.f2(m.f2(x)), g.f3(m.f1(x))) == x
    && Sum4(k, g.f0(m.f1(x)), g.f1(m.f0(x)), g.f2(m.f3(x)), g.f3(m.f2(x))) == k.zero
    && Sum4(k, g.f0(m.f2(x)), g.f1(m.f1(x)), g.f2(m.f0(x)), g.f3(m.f3(x))) == k.zero
    && Sum4(k, g.f0(m.f3(x)), g.f1(m.f2(x)), g.f2(m.f1(x)), g.f3(m.f0(x))) == k.zero
  }

  ghost predicate Laws<B(!new)>(k: Field<B>) {
    && (forall a, b, c, d :: SwapAt(k, a, b, c, d))
    && (forall a, b :: CancelAt(k, a, b))
    && Linear(k, k.inv.f0) && Linear(k, k.inv.f1) && Linear(k, k.inv.f2) && Linear(k, k.inv.f3)
    && (forall x :: InverseAt(k, x))
    && (forall x :: k.rsb(k.fsb(x)) == x)
  }

  // ----- Consequences -----

  lemma XorCancels<B(!new)>(k: Field<B>, v: Word<B>, w: Word<B>)
    requires Laws(k)
    ensures Xor(k, Xor(k, v, w), w) == v && Xor(k, v, w) == Xor(k, w, v)
  {
    assert CancelAt(k, v.b0, w.b0) && CancelAt(k, v.b1, w.b1) && CancelAt(k, v.b2, w.b2) && CancelAt(k, v.b3, w.b3);
  }

  lemma XorSwaps<B(!new)>(k: Field<B>, u: Word<B>, v: Word<B>, w: Word<B>)
    requires Laws(k)
    ensures Xor(k, Xor(k, u, v), w) == Xor(k, u, Xor(k, w, v))
  {
    AddSwaps(k, u.b0, v.b0, w.b0);
    AddSwaps(k, u.b1, v.b1, w.b1);
    AddSwaps(k, u.b2, v.b2, w.b2);
    AddSwaps(k, u.b3, v.b3, w.b3);
  }

  lemma AddSwaps<B(!new)>(k: Field<B>, a: B, b: B, c: B)
    requires Laws(k)
    ensures k.add(k.add(a, b), c) == k.add(a, k.add(c, b))
  {
    assert CancelAt(k, a, k.zero) && CancelAt(k, b, k.zero) && CancelAt(k, c, k.zero) && CancelAt(k, k.zero, b);
    assert SwapAt(k, a, b, c, k.zero) && SwapAt(k, a, c, k.zero, b) && SwapAt(k, a, k.zero, c, b);
  }

  lemma Sum4Linear<B(!new)>(k: Field<B>, a: B, b: B, c: B, d: B, a': B, b': B, c': B, d': B)
    requires Laws(k)
    ensures Sum4(k, k.add(a, a'), k.add(b, b'), k.add(c, c'), k.add(d, d'))
         == k.add(Sum4(k, a, b, c, d), Sum4(k, a', b', c', d'))
  {
    assert SwapAt(k, a, a', b, b') && SwapAt(k, c, c', d, d');
    assert SwapAt(k, k.add(a, b), k.add(a', b'), k.add(c, d), k.add(c', d'));
  }

  lemma RowLinear<B(!new)>(k: Field<B>, f: B -> B, g: B -> B, h: B -> B, j: B -> B, v: Word<B>, w: Word<B>)
    requires Laws(k) && Linear(k, f) && Linear(k, g) && Linear(k, h) && Linear(k, j)
    ensures var s := Xor(k, v, w);
      Sum4(k, f(s.b0), g(s.b1), h(s.b2), j(s.b3))
      == k.add(Sum4(k, f(v.b0), g(v.b1), h(v.b2), j(v.b3)), Sum4(k, f(w.b0), g(w.b1), h(w.b2), j(w.b3)))
  {
    assert LinearAt(k, f, v.b0, w.b0) && LinearAt(k, g, v.b1, w.b1);
    assert LinearAt(k, h, v.b2, w.b2) && LinearAt(k, j, v.b3, w.b3);
    Sum4Linear(k, f(v.b0), g(v.b1), h(v.b2), j(v.b3), f(w.b0), g(w.b1), h(w.b2), j(w.b3));
  }

  /** InvMixColumns distributes over the sum of columns. */
  lemma InvMixLinear<B(!new)>(k: Field<B>, v: Word<B>, w: Word<B>)
    requires Laws(k)
    ensures Apply(k, k.inv, Xor(k, v, w)) == Xor(k, Apply(k, k.inv, v), Apply(k, k.inv, w))
  {
    var m := k.inv;
    RowLinear(k, m.f0, m.f1, m.f2, m.f3, v, w);
    RowLinear(k, m.f3, m.f0, m.f1, m.f2, v, w);
    RowLinear(k, m.f2, m.f3, m.f0, m.f1, v, w);
    RowLinear(k, m.f1, m.f2, m.f3, m.f0, v, w);
  }

  lemma LinearSum4<B(!new)>(k: Field<B>, f: B -> B, a: B, b: B, c: B, d: B)
    requires Linear(k, f)
    ensures f(Sum4(k, a, b, c, d)) == Sum4(k, f(a), f(b), f(c), f(d))
  {
    assert LinearAt(k, f, a, b) && LinearAt(k, f, c, d) && LinearAt(k, f, k.add(a, b), k.add(c, d));
  }

  /** Sums of a square of values, by rows and by columns. */
  lemma Transpose<B(!new)>(k: Field<B>, a: Word<B>, b: Word<B>, c: Word<B>, d: Word<B>)
    requires Laws(k)
    ensures Sum4(k, Sum4(k, a.b0, a.b1, a.b2, a.b3), Sum4(k, b.b0, b.b1, b.b2, b.b3),
                 Sum4(k, c.b0, c.b1, c.b2, c.b3), Sum4(k, d.b0, d.b1, d.b2, d.b3))
         == Sum4(k, Sum4(k, a.b0, b.b0, c.b0, d.b0), Sum4(k, a.b1, b.b1, c.b1, d.b1),
                 Sum4(k, a.b2, b.b2, c.b2, d.b2), Sum4(k, a.b3, b.b3, c.b3, d.b3))
  {
    var ab, cd := Xor(k, a, b), Xor(k, c, d);
    Sum4Linear(k, a.b0, a.b1, a.b2, a.b3, b.b0, b.b1, b.b2, b.b3);
    Sum4Linear(k, c.b0, c.b1, c.b2, c.b3, d.b0, d.b1, d.b2, d.b3);
    Sum4Linear(k, ab.b0, ab.b1, ab.b2, ab.b3, cd.b0, cd.b1, cd.b2, cd.b3);
  }

  /** One byte of InvMixColumns applied to the four given sums, each written by its four parts. */
  lemma RowOfSums<B(!new)>(k: Field<B>, f: B -> B, g: B -> B, h: B -> B, j: B -> B,
                           a: Word<B>, b: Word<B>, c: Word<B>, d: Word<B>)
    requires Laws(k) && Linear(k, f) && Linear(k, g) && Linear(k, h) && Linear(k, j)
    ensures Sum4(k, f(Sum4(k, a.b0, a.b1, a.b2, a.b3)), g(Sum4(k, b.b0, b.b1, b.b2, b.b3)),
                 h(Sum4(k, c.b0, c.b1, c.b2, c.b3)), j(Sum4(k, d.b0, d.b1, d.b2, d.b3)))
         == Sum4(k, Sum4(k, f(a.b0), g(b.b0), h(c.b0), j(d.b0)), Sum4(k, f(a.b1), g(b.b1), h(c.b1), j(d.b1)),
                 Sum4(k, f(a.b2), g(b.b2), h(c.b2), j(d.b2)), Sum4(k, f(a.b3), g(b.b3), h(c.b3), j(d.b3)))
  {
    LinearSum4(k, f, a.b0, a.b1, a.b2, a.b3);
    LinearSum4(k, g, b.b0, b.b1, b.b2, b.b3);
    LinearSum4(k, h, c.b0, c.b1, c.b2, c.b3);
    LinearSum4(k, j, d.b0, d.b1, d.b2, d.b3);
    Transpose(k, SubWord(f, a), SubWord(g, b), SubWord(h, c), SubWord(j, d));
  }

  lemma SumWithZeros<B(!new)>(k: Field<B>, x: B)
    requires Laws(k)
    ensures Sum4(k, x, k.zero, k.zero, k.zero) == x && Sum4(k, k.zero, x, k.zero, k.zero) == x
    ensures Sum4(k, k.zero, k.zero, x, k.zero) == x && Sum4(k, k.zero, k.zero, k.zero, x) == x
  {
    assert CancelAt(k, x, k.zero) && CancelAt(k, k.zero, x) && CancelAt(k, k.zero, k.zero);
  }

  lemma Sum4Rotate<B(!new)>(k: Field<B>, a: B, b: B, c: B, d: B)
    requires Laws(k)
    ensures Sum4(k, d, a, b, c) == Sum4(k, a, b, c, d)
  {
    assert CancelAt(k, d, a) && CancelAt(k, d, c) && SwapAt(k, a, d, b, c);
  }

  /** The same coefficients as they appear in the row that starts with f. */
  ghost predicate RowInverseAt<B>(k: Field<B>, f: B -> B, g: B -> B, h: B -> B, j: B -> B, x: B, y: B, z: B, t: B, u: B) {
    var m := k.mix;
    && Sum4(k, f(m.f0(x)), g(m.f3(x)), h(m.f2(x)), j(m.f1(x))) == y
    && Sum4(k, f(m.f1(x)), g(m.f0(x)), h(m.f3(x)), j(m.f2(x))) == z
    && Sum4(k, f(m.f2(x)), g(m.f1(x)), h(m.f0(x)), j(m.f3(x))) == t
    && Sum4(k, f(m.f3(x)), g(m.f2(x)), h(m.f1(x)), j(m.f0(x))) == u
  }

  /** Rotating the row rotates the coefficients. */
  lemma RowInverseRotates<B(!new)>(k: Field<B>, f: B -> B, g: B -> B, h: B -> B, j: B -> B, x: B, y: B, z: B, t: B, u: B)
    requires Laws(k) && RowInverseAt(k, f, g, h, j, x, y, z, t, u)
    ensures RowInverseAt(k, j, f, g, h, x, u, y, z, t)
  {
    var m := k.mix;
    Sum4Rotate(k, f(m.f0(x)), g(m.f3(x)), h(m.f2(x)), j(m.f1(x)));
    Sum4Rotate(k, f(m.f1(x)), g(m.f0(x)), h(m.f3(x)), j(m.f2(x)));
    Sum4Rotate(k, f(m.f2(x)), g(m.f1(x)), h(m.f0(x)), j(m.f3(x)));
    Sum4Rotate(k, f(m.f3(x)), g(m.f2(x)), h(m.f1(x)), j(m.f0(x)));
  }

  /** One byte of the product of inv with the product of mix and w. */
  lemma RowOfMix<B(!new)>(k: Field<B>, f: B -> B, g: B -> B, h: B -> B, j: B -> B, w: Word<B>, s0: B, s1: B, s2: B, s3: B)
    requires Laws(k) && Linear(k, f) && Linear(k, g) && Linear(k, h) && Linear(k, j)
    requires Sum4(k, f(k.mix.f0(w.b0)), g(k.mix.f3(w.b0)), h(k.mix.f2(w.b0)), j(k.mix.f1(w.b0))) == s0
    requires Sum4(k, f(k.mix.f1(w.b1)), g(k.mix.f0(w.b1)), h(k.mix.f3(w.b1)), j(k.mix.f2(w.b1))) == s1
    requires Sum4(k, f(k.mix.f2(w.b2)), g(k.mix.f1(w.b2)), h(k.mix.f0(w.b2)), j(k.mix.f3(w.b2))) == s2
    requires Sum4(k, f(k.mix.f3(w.b3)), g(k.mix.f2(w.b3)), h(k.mix.f1(w.b3)), j(k.mix.f0(w.b3))) == s3
    ensures var r := Apply(k, k.mix, w); Sum4(k, f(r.b0), g(r.b1), h(r.b2), j(r.b3)) == Sum4(k, s0, s1, s2, s3)
  {
    var m := k.mix;
    RowOfSums(k, f, g, h, j,
              Word(m.f0(w.b0), m.f1(w.b1), m.f2(w.b2), m.f3(w.b3)), Word(m.f3(w.b0), m.f0(w.b1), m.f1(w.b2), m.f2(w.b3)),
              Word(m.f2(w.b0), m.f3(w.b1), m.f0(w.b2), m.f1(w.b3)), Word(m.f1(w.b0), m.f2(w.b1), m.f3(w.b2), m.f0(w.b3)));
  }

  /** The coefficients in all four rows. */
  lemma InverseRows<B(!new)>(k: Field<B>, x: B)
    requires Laws(k)
    ensures RowInverseAt(k, k.inv.f0, k.inv.f1, k.inv.f2, k.inv.f3, x, x, k.zero, k.zero, k.zero)
    ensures RowInverseAt(k, k.inv.f3, k.inv.f0, k.inv.f1, k.inv.f2, x, k.zero, x, k.zero, k.zero)
    ensures RowInverseAt(k, k.inv.f2, k.inv.f3, k.inv.f0, k.inv.f1, x, k.zero, k.zero, x, k.zero)
    ensures RowInverseAt(k, k.inv.f1, k.inv.f2, k.inv.f3, k.inv.f0, x, k.zero, k.zero, k.zero, x)
  {
    var g := k.inv;
    assert InverseAt(k, x);
    RowInverseRotates(k, g.f0, g.f1, g.f2, g.f3, x, x, k.zero, k.zero, k.zero);
    RowInverseRotates(k, g.f3, g.f0, g.f1, g.f2, x, k.zero, x, k.zero, k.zero);
    RowInverseRotates(k, g.f2, g.f3, g.f0, g.f1, x, k.zero, k.zero, x, k.zero);
  }

  /** InvMixColumns undoes MixColumns. */
  lemma InvMixMix<B(!new)>(k: Field<B>, w: Word<B>)
    requires Laws(k)
    ensures Apply(k, k.inv, Apply(k, k.mix, w)) == w
  {
    var g := k.inv;
    InverseRows(k, w.b0);
    InverseRows(k, w.b1);
    InverseRows(k, w.b2);
    InverseRows(k, w.b3);
    RowOfMix(k, g.f0, g.f1, g.f2, g.f3, w, w.b0, k.zero, k.zero, k.zero);
    RowOfMix(k, g.f3, g.f0, g.f1, g.f2, w, k.zero, w.b1, k.zero, k.zero);
    RowOfMix(k, g.f2, g.f3, g.f0, g.f1, w, k.zero, k.zero, w.b2, k.zero);
    RowOfMix(k, g.f1, g.f2, g.f3, g.f0, w, k.zero, k.zero, k.zero, w.b3);
    SumWithZeros(k, w.b0);
    SumWithZeros(k, w.b1);
    SumWithZeros(k, w.b2);
    SumWithZeros(k, w.b3);
  }
}
