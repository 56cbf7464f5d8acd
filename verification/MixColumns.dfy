/** ECHO's word-parallel MIX_COLUMN and the MixColumns transformation of FIPS 197. */
module MixColumns {
  import opened BitNumbers
  import opened Words

  // ----- the field GF(2^8): section 4 of FIPS 197; the coefficient of x^k is element k -----

  type Byte = b: seq<bool> | |b| == 8 witness seq(8, _ => false)

  function Plus(a: Byte, b: Byte): Byte {
    seq(8, k requires 0 <= k < 8 => a[k] != b[k])
  }

  function Zero(): Byte { seq(8, _ => false) }

  /** The coefficients of the modulus x^8 + x^4 + x^3 + x + 1. */
  predicate Modulus(k: nat) { k in {0, 1, 3, 4, 8} }

  /** Multiplication by x: section 4.2.1. */
  function Xtime(b: Byte): Byte {
    seq(8, k requires 0 <= k < 8 => (k > 0 && b[k - 1]) != (b[7] && Modulus(k)))
  }

  /** The product x * b(x) differs from xtime by a multiple of the modulus, coefficient by coefficient. */
  lemma XtimeIsProduct(b: Byte, k: nat)
    requires k <= 8
    ensures (k > 0 && b[k - 1]) == ((k < 8 && Xtime(b)[k]) != (b[7] && Modulus(k)))
  {
  }

  /** Multiplication by a polynomial, from repeated multiplication by x. */
  function Times(a: seq<bool>, b: Byte): Byte {
    if a == [] then Zero() else Plus(if a[0] then b else Zero(), Times(a[1..], Xtime(b)))
  }

  function Two(): Byte { [false, true, false, false, false, false, false, false] }

  function Three(): Byte { [true, true, false, false, false, false, false, false] }

  /** The new row `r` of a column: section 5.1.3. */
  function MixedRow(s0: Byte, s1: Byte, s2: Byte, s3: Byte): Byte {
    Plus(Plus(Plus(Times(Two(), s0), Times(Three(), s1)), s2), s3)
  }

  lemma {:induction false} TimesZeros(a: seq<bool>, b: Byte)
    requires forall k | 0 <= k < |a| :: !a[k]
    ensures Times(a, b) == Zero()
    decreases |a|
  {
    if a != [] {
      TimesZeros(a[1..], Xtime(b));
    }
  }

  lemma TimesTwo(b: Byte)
    ensures Times(Two(), b) == Xtime(b)
    ensures Times(Three(), b) == Plus(b, Xtime(b))
  {
    hide Xtime;
    var x := Xtime(b);
    TimesZeros(Two()[1..][1..], Xtime(x));
    TimesZeros(Three()[1..][1..], Xtime(x));
    assert Times(Two()[1..], x) == Plus(x, Zero()) == x;
    assert Times(Three()[1..], x) == Plus(x, Zero()) == x;
    assert Plus(Zero(), x) == x;
  }

  lemma TimesZero(a: seq<bool>)
    ensures Times(a, Zero()) == Zero()
  {
    if a != [] {
      assert Xtime(Zero()) == Zero();
      TimesZero(a[1..]);
    }
  }

  function One(): Byte { [true, false, false, false, false, false, false, false] }

  lemma UnitProducts()
    ensures Times(Two(), One()) == Two() && Times(Three(), One()) == Three()
    ensures Times(Two(), Zero()) == Zero() && Times(Three(), Zero()) == Zero()
  {
    TimesTwo(One());
    TimesZero(Two());
    TimesZero(Three());
    hide Times;
    assert Xtime(One()) == Two();
    assert Plus(One(), Two()) == Three();
  }

  lemma PlusZero(b: Byte)
    ensures Plus(b, Zero()) == b && Plus(Zero(), b) == b
  {
  }

  /** The row of the matrix: a column with a single byte 01 in row 0, 1, 2 or 3 gives 02, 03, 01 or 01. */
  lemma MatrixRow()
    ensures MixedRow(One(), Zero(), Zero(), Zero()) == [false, true, false, false, false, false, false, false]
    ensures MixedRow(Zero(), One(), Zero(), Zero()) == [true, true, false, false, false, false, false, false]
    ensures MixedRow(Zero(), Zero(), One(), Zero()) == One()
    ensures MixedRow(Zero(), Zero(), Zero(), One()) == One()
  {
    UnitProducts();
    PlusZero(Zero());
    PlusZero(One());
    PlusZero(Two());
    PlusZero(Three());
    hide Times, Plus, Zero, One;
  }

  // ----- words of eight byte lanes -----

  function Lane(w: Word, i: nat): Byte
    requires i < 8
  {
    w[8 * i..8 * i + 8]
  }

  /** `m` copies of a byte side by side. */
  function Repeated(m: nat, b: nat): nat {
    if m == 0 then 0 else b + 0x100 * Repeated(m - 1, b)
  }

  lemma {:induction false} BitAbove(u: nat, m: nat, x: nat, k: nat)
    requires u < Pow2(m)
    ensures Bit(u + Pow2(m) * x, k) == if k < m then Bit(u, k) else Bit(x, k - m)
    decreases m
  {
    if m > 0 {
      assert Pow2(m) * x == 2 * (Pow2(m - 1) * x);
      assert (u + Pow2(m) * x) / 2 == u / 2 + Pow2(m - 1) * x && (u + Pow2(m) * x) % 2 == u % 2;
      if k > 0 {
        BitAbove(u / 2, m - 1, x, k - 1);
      }
    }
  }

  lemma {:induction false} RepeatedBit(m: nat, b: nat, k: nat)
    requires b < 0x100 && k < 8 * m
    ensures Bit(Repeated(m, b), k) == Bit(b, k % 8)
    decreases m
  {
    Powers();
    BitAbove(b, 8, Repeated(m - 1, b), k);
    if k >= 8 {
      RepeatedBit(m - 1, b, k - 8);
    }
  }

  const HIGH: nat := 0x8080_8080_8080_8080

  const LOW: nat := 0x7F7F_7F7F_7F7F_7F7F

  lemma MaskBits(k: nat)
    requires k < 64
    ensures WordOf(HIGH)[k] == (k % 8 == 7)
    ensures WordOf(LOW)[k] == (k % 8 < 7)
  {
    assert Repeated(4, 0x80) == 0x8080_8080;
    assert Repeated(6, 0x80) == 0x8080_8080_8080;
    assert Repeated(8, 0x80) == HIGH;
    assert Repeated(4, 0x7F) == 0x7F7F_7F7F;
    assert Repeated(6, 0x7F) == 0x7F7F_7F7F_7F7F;
    assert Repeated(8, 0x7F) == LOW;
    RepeatedBit(8, 0x80, k);
    RepeatedBit(8, 0x7F, k);
    ByteBits(k % 8);
  }

  lemma ByteBits(k: nat)
    requires k < 8
    ensures Bit(0x80, k) == (k == 7)
    ensures Bit(0x7F, k) == (k < 7)
    ensures Bit(27, k) == (k in {0, 1, 3, 4})
  {
    assert Bit(27, 3) && !Bit(27, 2);
  }

  /** Multiplication of a word by 27, modulo 2^64. */
  function Times27(w: Word): Word {
    WordOf(27 * FromBits(w))
  }

  lemma {:induction false} SparseProduct(v: seq<bool>, m: nat, k: nat)
    requires |v| == 8 * m && k < 8 * m
    requires forall j | 0 <= j < |v| && j % 8 != 0 :: !v[j]
    ensures Bit(27 * FromBits(v), k) == (v[k - k % 8] && k % 8 in {0, 1, 3, 4})
    decreases m
  {
    hide Bit, FromBits;
    var f := FromBits(v[8..]);
    SparseByte(v);
    LowProduct(v[0], 27 * f, k);
    assert 27 * FromBits(v) == 27 * Weight(v[0], 1) + 0x100 * (27 * f);
    if k < 8 {
      assert k - k % 8 == 0 && k % 8 == k;
    } else {
      assert (k - 8) % 8 == k % 8;
      SparseProduct(v[8..], m - 1, k - 8);
    }
  }

  lemma LowProduct(b: bool, x: nat, k: nat)
    ensures Bit(27 * Weight(b, 1) + 0x100 * x, k) == if k < 8 then b && k in {0, 1, 3, 4} else Bit(x, k - 8)
  {
    hide Bit;
    Powers();
    BitAbove(27 * Weight(b, 1), 8, x, k);
    if k < 8 {
      ByteBits(k);
      ZeroBit(k);
    }
  }

  lemma SparseByte(v: seq<bool>)
    requires |v| >= 8 && forall j | 0 < j < 8 :: !v[j]
    ensures FromBits(v) == Weight(v[0], 1) + 0x100 * FromBits(v[8..])
  {
    assert v[1..][1..] == v[2..] && v[2..][1..] == v[3..] && v[3..][1..] == v[4..] && v[4..][1..] == v[5..];
    assert v[5..][1..] == v[6..] && v[6..][1..] == v[7..] && v[7..][1..] == v[8..];
    assert FromBits(v[7..]) == 2 * FromBits(v[8..]);
    assert FromBits(v[6..]) == 2 * FromBits(v[7..]);
    assert FromBits(v[5..]) == 2 * FromBits(v[6..]);
    assert FromBits(v[4..]) == 2 * FromBits(v[5..]);
    assert FromBits(v[3..]) == 2 * FromBits(v[4..]);
    assert FromBits(v[2..]) == 2 * FromBits(v[3..]);
    assert FromBits(v[1..]) == 2 * FromBits(v[2..]);
  }

  /** abx, bcx and cdx: every byte lane multiplied by x. */
  function Doubled(w: Word): Word {
    Xor(Times27(Shr(And(w, WordOf(HIGH)), 7)), Shl(And(w, WordOf(LOW)), 1))
  }

  /** Nothing is carried from one lane into the next. */
  lemma DoubledLane(w: Word, i: nat)
    requires i < 8
    ensures Lane(Doubled(w), i) == Xtime(Lane(w, i))
  {
    hide Doubled;
    forall k | 0 <= k < 8
      ensures Lane(Doubled(w), i)[k] == Xtime(Lane(w, i))[k]
    {
      var j := 8 * i + k;
      assert j % 8 == k && j - j % 8 == 8 * i;
      DoubledBit(w, j);
    }
  }

  lemma DoubledBit(w: Word, j: nat)
    requires j < 64
    ensures Doubled(w)[j] == ((j % 8 > 0 && w[j - 1]) != (w[j - j % 8 + 7] && j % 8 in {0, 1, 3, 4}))
  {
    hide Times27, WordOf;
    var h := Shr(And(w, WordOf(HIGH)), 7);
    forall k | 0 <= k < 64
      ensures h[k] == (k % 8 == 0 && w[k - k % 8 + 7])
    {
      if k + 7 < 64 {
        MaskBits(k + 7);
      }
    }
    TimesBit(h, j);
    if j > 0 {
      MaskBits(j - 1);
    }
  }

  lemma TimesBit(h: Word, j: nat)
    requires j < 64 && forall k | 0 <= k < 64 && k % 8 != 0 :: !h[k]
    ensures Times27(h)[j] == (h[j - j % 8] && j % 8 in {0, 1, 3, 4})
  {
    SparseProduct(h, 8, j);
  }

  // ----- the macro -----

  datatype Column = Column(a: Word, b: Word, c: Word, d: Word)

  function Mixed(s: Column): Column {
    var ab, bc, cd := Xor(s.a, s.b), Xor(s.b, s.c), Xor(s.c, s.d);
    var abx, bcx, cdx := Doubled(ab), Doubled(bc), Doubled(cd);
    Column(Xor(Xor(abx, bc), s.d), Xor(Xor(bcx, s.a), cd), Xor(Xor(cdx, ab), s.d),
           Xor(Xor(Xor(Xor(abx, bcx), cdx), ab), s.c))
  }

  lemma LaneXor(x: Word, y: Word, i: nat)
    requires i < 8
    ensures Lane(Xor(x, y), i) == Plus(Lane(x, i), Lane(y, i))
  {
  }

  /** In each of the eight byte lanes the macro is MixColumns. */
  lemma MixedIsMixColumns(s: Column, i: nat)
    requires i < 8
    ensures var (a, b, c, d) := (Lane(s.a, i), Lane(s.b, i), Lane(s.c, i), Lane(s.d, i));
      Lane(Mixed(s).a, i) == MixedRow(a, b, c, d)
      && Lane(Mixed(s).b, i) == MixedRow(b, c, d, a)
      && Lane(Mixed(s).c, i) == MixedRow(c, d, a, b)
      && Lane(Mixed(s).d, i) == MixedRow(d, a, b, c)
  {
    hide Xor, Doubled, Lane, Times, Plus, Xtime;
    var (a, b, c, d) := (Lane(s.a, i), Lane(s.b, i), Lane(s.c, i), Lane(s.d, i));
    var ab, bc, cd := Xor(s.a, s.b), Xor(s.b, s.c), Xor(s.c, s.d);
    var abx, bcx, cdx := Doubled(ab), Doubled(bc), Doubled(cd);
    LaneXor(s.a, s.b, i); LaneXor(s.b, s.c, i); LaneXor(s.c, s.d, i);
    DoubledLane(ab, i); DoubledLane(bc, i); DoubledLane(cd, i);
    LaneXor(abx, bc, i); LaneXor(Xor(abx, bc), s.d, i);
    LaneXor(bcx, s.a, i); LaneXor(Xor(bcx, s.a), cd, i);
    LaneXor(cdx, ab, i); LaneXor(Xor(cdx, ab), s.d, i);
    LaneXor(abx, bcx, i); LaneXor(Xor(abx, bcx), cdx, i);
    LaneXor(Xor(Xor(abx, bcx), cdx), ab, i);
    LaneXor(Xor(Xor(Xor(abx, bcx), cdx), ab), s.c, i);
    TimesTwo(a); TimesTwo(b); TimesTwo(c); TimesTwo(d);
    ColumnAlgebra(a, b, c, d);
  }

  lemma XtimeLinear(a: Byte, b: Byte)
    ensures Xtime(Plus(a, b)) == Plus(Xtime(a), Xtime(b))
  {
  }

  /** The rows as the macro groups them. */
  lemma ColumnAlgebra(a: Byte, b: Byte, c: Byte, d: Byte)
    ensures var (xa, xb, xc, xd) := (Xtime(a), Xtime(b), Xtime(c), Xtime(d));
      var (ab, bc, cd) := (Xtime(Plus(a, b)), Xtime(Plus(b, c)), Xtime(Plus(c, d)));
      Plus(Plus(ab, Plus(b, c)), d) == Plus(Plus(Plus(xa, Plus(b, xb)), c), d)
      && Plus(Plus(bc, a), Plus(c, d)) == Plus(Plus(Plus(xb, Plus(c, xc)), d), a)
      && Plus(Plus(cd, Plus(a, b)), d) == Plus(Plus(Plus(xc, Plus(d, xd)), a), b)
      && Plus(Plus(Plus(Plus(ab, bc), cd), Plus(a, b)), c) == Plus(Plus(Plus(xd, Plus(a, xa)), b), c)
  {
    hide Xtime;
    XtimeLinear(a, b);
    XtimeLinear(b, c);
    XtimeLinear(c, d);
  }

  /** MIX_COLUMN1 on the words of four rows, halves `n`. */
  method MixColumn1(w: array2<Word>, ia: nat, ib: nat, ic: nat, id: nat, n: nat)
    requires w.Length0 == 16 && w.Length1 == 2 && n < 2
    requires ia < ib < ic < id < 16
    modifies w
    ensures Column(w[ia, n], w[ib, n], w[ic, n], w[id, n]) == Mixed(old(Column(w[ia, n], w[ib, n], w[ic, n], w[id, n])))
    ensures forall i, j | 0 <= i < 16 && 0 <= j < 2 && !(j == n && i in {ia, ib, ic, id}) :: w[i, j] == old(w[i, j])
  {
    hide Xor, Doubled;
    var a := w[ia, n];
    var b := w[ib, n];
    var c := w[ic, n];
    var d := w[id, n];
    var ab := Xor(a, b);
    var bc := Xor(b, c);
    var cd := Xor(c, d);
    var abx := Doubled(ab);
    var bcx := Doubled(bc);
    var cdx := Doubled(cd);
    w[ia, n] := Xor(Xor(abx, bc), d);
    w[ib, n] := Xor(Xor(bcx, a), cd);
    w[ic, n] := Xor(Xor(cdx, ab), d);
    w[id, n] := Xor(Xor(Xor(Xor(abx, bcx), cdx), ab), c);
  }

  /** BIG_MIX_COLUMNS: four columns of four rows, both halves of each. */
  method BigMixColumns(w: array2<Word>)
    requires w.Length0 == 16 && w.Length1 == 2
    modifies w
    ensures forall q, n | 0 <= q < 4 && 0 <= n < 2 ::
      Column(w[4 * q, n], w[4 * q + 1, n], w[4 * q + 2, n], w[4 * q + 3, n])
        == Mixed(old(Column(w[4 * q, n], w[4 * q + 1, n], w[4 * q + 2, n], w[4 * q + 3, n])))
  {
    hide Mixed;
    for k := 0 to 4
      invariant forall q, n | 0 <= q < k && 0 <= n < 2 ::
        Column(w[4 * q, n], w[4 * q + 1, n], w[4 * q + 2, n], w[4 * q + 3, n])
          == Mixed(old(Column(w[4 * q, n], w[4 * q + 1, n], w[4 * q + 2, n], w[4 * q + 3, n])))
      invariant forall i, n | 4 * k <= i < 16 && 0 <= n < 2 :: w[i, n] == old(w[i, n])
    {
      MixColumn1(w, 4 * k, 4 * k + 1, 4 * k + 2, 4 * k + 3, 0);
      MixColumn1(w, 4 * k, 4 * k + 1, 4 * k + 2, 4 * k + 3, 1);
    }
  }
}
