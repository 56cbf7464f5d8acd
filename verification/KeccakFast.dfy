/** The optimised Keccak round on values: complementing six lanes turns it into the plain round and back. */
module KeccakFast {
  import opened Words
  import opened KeccakPlain

  function XorOr(a: Word, b: Word, c: Word): Word { Xor(a, Or(b, c)) }

  function XorAnd(a: Word, b: Word, c: Word): Word { Xor(a, And(b, c)) }

  // ----- the optimised chi, one row at a time -----

  datatype Row = Row(v0: Word, v1: Word, v2: Word, v3: Word, v4: Word)

  function RowOf(s: Lanes, y: nat): Row
    requires y < 5
  {
    Row(s[5 * y], s[5 * y + 1], s[5 * y + 2], s[5 * y + 3], s[5 * y + 4])
  }

  /** Each row mixes ORs and ANDs to fit the lanes that arrive complemented. */
  function KhiRow(r: Row, y: nat): Row
    requires y < 5
  {
    var Row(v0, v1, v2, v3, v4) := r;
    match y
    case 0 => Row(XorOr(v0, v1, v2), XorOr(v1, Not(v2), v3), XorAnd(v2, v3, v4), XorOr(v3, v4, v0), XorAnd(v4, v0, v1))
    case 1 => Row(XorOr(v0, v1, v2), XorAnd(v1, v2, v3), XorOr(v2, v3, Not(v4)), XorOr(v3, v4, v0), XorAnd(v4, v0, v1))
    case 2 => Row(XorOr(v0, v1, v2), XorAnd(v1, v2, v3), XorAnd(v2, Not(v3), v4), XorOr(Not(v3), v4, v0),
                  XorAnd(v4, v0, v1))
    case 3 => Row(XorAnd(v0, v1, v2), XorOr(v1, v2, v3), XorOr(v2, Not(v3), v4), XorAnd(Not(v3), v4, v0),
                  XorOr(v4, v0, v1))
    case 4 => Row(XorAnd(v0, Not(v1), v2), XorOr(Not(v1), v2, v3), XorAnd(v2, v3, v4), XorOr(v3, v4, v0),
                  XorAnd(v4, v0, v1))
  }

  function ChiRow(r: Row): Row {
    var Row(v0, v1, v2, v3, v4) := r;
    Row(XorAnd(v0, Not(v1), v2), XorAnd(v1, Not(v2), v3), XorAnd(v2, Not(v3), v4), XorAnd(v3, Not(v4), v0),
        XorAnd(v4, Not(v0), v1))
  }

  function At(r: Row, x: nat): Word
    requires x < 5
  {
    match x case 0 => r.v0 case 1 => r.v1 case 2 => r.v2 case 3 => r.v3 case 4 => r.v4
  }

  function Khi(s: Lanes): (r: Lanes) {
    seq(25, i requires 0 <= i < 25 => At(KhiRow(RowOf(s, i / 5), i / 5), i % 5))
  }

  function RoundFast(s: Lanes, rc: Word): Lanes {
    Iota(Khi(Pi(Rho(Theta(s)))), rc)
  }

  function RoundsFast(s: Lanes, n: nat): Lanes
    requires n <= 24
  {
    if n == 0 then s else RoundFast(RoundsFast(s, n - 1), WordOf(RC(n - 1)))
  }

  // ----- complemented lanes -----

  function Flip(b: bool, x: Word): Word { if b then Not(x) else x }

  type Mask = m: seq<bool> | |m| == 25 witness seq(25, _ => false)

  function Complemented(s: Lanes, m: Mask): (r: Lanes) {
    seq(25, i requires 0 <= i < 25 => Flip(m[i], s[i]))
  }

  /** The lanes kept complemented between rounds. */
  function Between(): Mask { seq(25, i => i in {1, 2, 8, 12, 17, 20}) }

  /** The lanes that are complemented when chi starts. */
  function BeforeChi(): Mask { seq(25, i => i in {0, 2, 3, 5, 7, 10, 12, 16, 18, 19, 20, 23}) }

  lemma FlipXor(b: bool, c: bool, x: Word, y: Word)
    ensures Xor(Flip(b, x), Flip(c, y)) == Flip(b != c, Xor(x, y))
  {
  }

  lemma FlipRotl(b: bool, x: Word, n: nat)
    requires 0 < n < 64
    ensures Rotl(Flip(b, x), n) == Flip(b, Rotl(x, n))
  {
  }

  lemma FlipRot(b: bool, x: Word, i: nat)
    requires i < 25
    ensures Rot(Flip(b, x), i) == Flip(b, Rot(x, i))
  {
    hide Rotl, Flip;
    var n := Offset(i);
    if n > 0 {
      FlipRotl(b, x, n);
    }
  }

  predicate ColumnMask(m: Mask, x: nat)
    requires x < 5
  {
    (((m[x] != m[x + 5]) != m[x + 10]) != m[x + 15]) != m[x + 20]
  }

  lemma FlipColumn(s: Lanes, m: Mask, x: nat)
    requires x < 5
    ensures Column(Complemented(s, m), x) == Flip(ColumnMask(m, x), Column(s, x))
  {
    hide Xor, Flip;
    var x1 := Xor(s[x], s[x + 5]);
    var x2 := Xor(x1, s[x + 10]);
    FlipXor(m[x], m[x + 5], s[x], s[x + 5]);
    FlipXor(m[x] != m[x + 5], m[x + 10], x1, s[x + 10]);
    FlipXor((m[x] != m[x + 5]) != m[x + 10], m[x + 15], x2, s[x + 15]);
    FlipXor(((m[x] != m[x + 5]) != m[x + 10]) != m[x + 15], m[x + 20], Xor(x2, s[x + 15]), s[x + 20]);
  }

  predicate EffectMask(m: Mask, x: nat)
    requires x < 5
  {
    ColumnMask(m, (x + 4) % 5) != ColumnMask(m, (x + 1) % 5)
  }

  function ThetaMask(m: Mask): Mask {
    seq(25, i requires 0 <= i < 25 => m[i] != EffectMask(m, i % 5))
  }

  lemma EffectFlips(s: Lanes, m: Mask, x: nat)
    requires x < 5
    ensures ThetaEffect(Complemented(s, m), x) == Flip(EffectMask(m, x), ThetaEffect(s, x))
  {
    hide Xor, Flip, Rotl, Column, ColumnMask, Complemented;
    var l, r := (x + 4) % 5, (x + 1) % 5;
    FlipColumn(s, m, l);
    FlipColumn(s, m, r);
    FlipRotl(ColumnMask(m, r), Column(s, r), 1);
    FlipXor(ColumnMask(m, l), ColumnMask(m, r), Column(s, l), Rotl(Column(s, r), 1));
  }

  lemma ThetaFlips(s: Lanes, m: Mask)
    ensures Theta(Complemented(s, m)) == Complemented(Theta(s), ThetaMask(m))
  {
    hide Xor, Flip, ThetaEffect, EffectMask;
    forall i | 0 <= i < 25
      ensures Theta(Complemented(s, m))[i] == Complemented(Theta(s), ThetaMask(m))[i]
    {
      EffectFlips(s, m, i % 5);
      FlipXor(m[i], EffectMask(m, i % 5), s[i], ThetaEffect(s, i % 5));
    }
  }

  lemma RhoFlips(s: Lanes, m: Mask)
    ensures Rho(Complemented(s, m)) == Complemented(Rho(s), m)
  {
    hide Rot, Flip;
    forall i | 0 <= i < 25
      ensures Rho(Complemented(s, m))[i] == Complemented(Rho(s), m)[i]
    {
      FlipRot(m[i], s[i], i);
    }
  }

  lemma BetweenColumns()
    ensures EffectMask(Between(), 0) && !EffectMask(Between(), 1) && !EffectMask(Between(), 2)
    ensures EffectMask(Between(), 3) && !EffectMask(Between(), 4)
  {
    var m := Between();
    assert ColumnMask(m, 0) && ColumnMask(m, 1) && ColumnMask(m, 2) && ColumnMask(m, 3) && !ColumnMask(m, 4);
  }

  /** Theta and pi carry the mask kept between rounds to the one chi expects. */
  lemma MasksMeet(i: nat)
    requires i < 25
    ensures ThetaMask(Between())[PiSource(i)] == BeforeChi()[i]
  {
    hide EffectMask;
    BetweenColumns();
  }

  lemma PiFlips(s: Lanes)
    ensures Pi(Complemented(s, ThetaMask(Between()))) == Complemented(Pi(s), BeforeChi())
  {
    hide Flip, ThetaMask, BeforeChi, Between;
    forall i | 0 <= i < 25
      ensures Pi(Complemented(s, ThetaMask(Between())))[i] == Complemented(Pi(s), BeforeChi())[i]
    {
      MasksMeet(i);
    }
  }

  function FlippedRow(r: Row, m: Mask, y: nat): Row
    requires y < 5
  {
    Row(Flip(m[5 * y], r.v0), Flip(m[5 * y + 1], r.v1), Flip(m[5 * y + 2], r.v2), Flip(m[5 * y + 3], r.v3),
        Flip(m[5 * y + 4], r.v4))
  }

  lemma KhiRowIsChi(r: Row, y: nat)
    requires y < 5
    ensures KhiRow(FlippedRow(r, BeforeChi(), y), y) == FlippedRow(ChiRow(r), Between(), y)
  {
  }

  lemma ChiInRow(s: Lanes, x: nat, y: nat)
    requires x < 5 && y < 5
    ensures Chi(s)[5 * y + x] == At(ChiRow(RowOf(s, y)), x)
  {
    hide Xor, And, Not;
    var i := 5 * y + x;
    assert i % 5 == x && i / 5 == y;
    assert Right(i, 1) == (x + 1) % 5 + 5 * y && Right(i, 2) == (x + 2) % 5 + 5 * y;
  }

  lemma KhiInRow(s: Lanes, x: nat, y: nat)
    requires x < 5 && y < 5
    ensures Khi(Complemented(s, BeforeChi()))[5 * y + x] == Flip(Between()[5 * y + x], At(ChiRow(RowOf(s, y)), x))
  {
    hide Flip, KhiRow, ChiRow, BeforeChi, Between;
    var i := 5 * y + x;
    assert i % 5 == x && i / 5 == y;
    assert RowOf(Complemented(s, BeforeChi()), y) == FlippedRow(RowOf(s, y), BeforeChi(), y);
    KhiRowIsChi(RowOf(s, y), y);
  }

  lemma KhiIsChi(s: Lanes)
    ensures Khi(Complemented(s, BeforeChi())) == Complemented(Chi(s), Between())
  {
    hide Flip, KhiRow, Chi, ChiRow, BeforeChi, Between, Khi, At, RowOf;
    forall i | 0 <= i < 25
      ensures Khi(Complemented(s, BeforeChi()))[i] == Complemented(Chi(s), Between())[i]
    {
      KhiInRow(s, i % 5, i / 5);
      ChiInRow(s, i % 5, i / 5);
    }
  }

  lemma IotaFlips(s: Lanes, rc: Word)
    ensures Iota(Complemented(s, Between()), rc) == Complemented(Iota(s, rc), Between())
  {
    hide Xor;
    assert !Between()[0];
  }

  /** One optimised round on complemented lanes is the plain round, complemented in the same lanes. */
  lemma RoundFastIsRound(s: Lanes, rc: Word)
    ensures RoundFast(Complemented(s, Between()), rc) == Complemented(Round(s, rc), Between())
  {
    hide Theta, Rho, Pi, Chi, Iota, Khi, Complemented;
    ThetaFlips(s, Between());
    RhoFlips(Theta(s), ThetaMask(Between()));
    PiFlips(Rho(Theta(s)));
    KhiIsChi(Pi(Rho(Theta(s))));
    IotaFlips(Chi(Pi(Rho(Theta(s)))), rc);
  }

  /** All rounds: the optimised permutation is the plain one conjugated by complementing lanes 1, 2, 8, 12, 17, 20. */
  lemma {:induction false} RoundsFastIsRounds(s: Lanes, n: nat)
    requires n <= 24
    ensures RoundsFast(Complemented(s, Between()), n) == Complemented(Rounds(s, n), Between())
  {
    hide Complemented, Round, RoundFast;
    if n > 0 {
      RoundsFastIsRounds(s, n - 1);
      RoundFastIsRound(Rounds(s, n - 1), WordOf(RC(n - 1)));
    }
  }
}
