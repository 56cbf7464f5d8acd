/** The permutation as keccak_core runs it: in place, pi done by renaming the lanes, eight rounds to a turn. */
module KeccakInPlace {
  import opened Words
  import opened KeccakPlain
  import opened KeccakFast

  // ----- the lane that carries each name in round r of a turn; name b(x, y) has index x + 5y -----

  function P1(i: nat): (l: nat)
    requires i < 25
    ensures l < 25
  {
    match i
    case 0 => 0 case 1 => 6 case 2 => 12 case 3 => 18 case 4 => 24
    case 5 => 3 case 6 => 9 case 7 => 10 case 8 => 16 case 9 => 22
    case 10 => 1 case 11 => 7 case 12 => 13 case 13 => 19 case 14 => 20
    case 15 => 4 case 16 => 5 case 17 => 11 case 18 => 17 case 19 => 23
    case 20 => 2 case 21 => 8 case 22 => 14 case 23 => 15 case 24 => 21
  }

  function P2(i: nat): (l: nat)
    requires i < 25
    ensures l < 25
  {
    match i
    case 0 => 0 case 1 => 9 case 2 => 13 case 3 => 17 case 4 => 21
    case 5 => 18 case 6 => 22 case 7 => 1 case 8 => 5 case 9 => 14
    case 10 => 6 case 11 => 10 case 12 => 19 case 13 => 23 case 14 => 2
    case 15 => 24 case 16 => 3 case 17 => 7 case 18 => 11 case 19 => 15
    case 20 => 12 case 21 => 16 case 22 => 20 case 23 => 4 case 24 => 8
  }

  function P3(i: nat): (l: nat)
    requires i < 25
    ensures l < 25
  {
    match i
    case 0 => 0 case 1 => 22 case 2 => 19 case 3 => 11 case 4 => 8
    case 5 => 17 case 6 => 14 case 7 => 6 case 8 => 3 case 9 => 20
    case 10 => 9 case 11 => 1 case 12 => 23 case 13 => 15 case 14 => 12
    case 15 => 21 case 16 => 18 case 17 => 10 case 18 => 7 case 19 => 4
    case 20 => 13 case 21 => 5 case 22 => 2 case 23 => 24 case 24 => 16
  }

  function P4(i: nat): (l: nat)
    requires i < 25
    ensures l < 25
  {
    match i
    case 0 => 0 case 1 => 14 case 2 => 23 case 3 => 7 case 4 => 16
    case 5 => 11 case 6 => 20 case 7 => 9 case 8 => 18 case 9 => 2
    case 10 => 22 case 11 => 6 case 12 => 15 case 13 => 4 case 14 => 13
    case 15 => 8 case 16 => 17 case 17 => 1 case 18 => 10 case 19 => 24
    case 20 => 19 case 21 => 3 case 22 => 12 case 23 => 21 case 24 => 5
  }

  function P5(i: nat): (l: nat)
    requires i < 25
    ensures l < 25
  {
    match i
    case 0 => 0 case 1 => 20 case 2 => 15 case 3 => 10 case 4 => 5
    case 5 => 7 case 6 => 2 case 7 => 22 case 8 => 17 case 9 => 12
    case 10 => 14 case 11 => 9 case 12 => 4 case 13 => 24 case 14 => 19
    case 15 => 16 case 16 => 11 case 17 => 6 case 18 => 1 case 19 => 21
    case 20 => 23 case 21 => 18 case 22 => 13 case 23 => 8 case 24 => 3
  }

  function P6(i: nat): (l: nat)
    requires i < 25
    ensures l < 25
  {
    match i
    case 0 => 0 case 1 => 2 case 2 => 4 case 3 => 1 case 4 => 3
    case 5 => 10 case 6 => 12 case 7 => 14 case 8 => 11 case 9 => 13
    case 10 => 20 case 11 => 22 case 12 => 24 case 13 => 21 case 14 => 23
    case 15 => 5 case 16 => 7 case 17 => 9 case 18 => 6 case 19 => 8
    case 20 => 15 case 21 => 17 case 22 => 19 case 23 => 16 case 24 => 18
  }

  function P7(i: nat): (l: nat)
    requires i < 25
    ensures l < 25
  {
    match i
    case 0 => 0 case 1 => 12 case 2 => 24 case 3 => 6 case 4 => 18
    case 5 => 1 case 6 => 13 case 7 => 20 case 8 => 7 case 9 => 19
    case 10 => 2 case 11 => 14 case 12 => 21 case 13 => 8 case 14 => 15
    case 15 => 3 case 16 => 10 case 17 => 22 case 18 => 9 case 19 => 16
    case 20 => 4 case 21 => 11 case 22 => 23 case 23 => 5 case 24 => 17
  }

  function P8(i: nat): (l: nat)
    requires i < 25
    ensures l < 25
  {
    match i
    case 0 => 0 case 1 => 13 case 2 => 21 case 3 => 9 case 4 => 17
    case 5 => 6 case 6 => 19 case 7 => 2 case 8 => 10 case 9 => 23
    case 10 => 12 case 11 => 20 case 12 => 8 case 13 => 16 case 14 => 4
    case 15 => 18 case 16 => 1 case 17 => 14 case 18 => 22 case 19 => 5
    case 20 => 24 case 21 => 7 case 22 => 15 case 23 => 3 case 24 => 11
  }

  function P(r: nat, i: nat): (l: nat)
    requires r <= 8 && i < 25
    ensures l < 25
  {
    match r
    case 0 => i case 1 => P1(i) case 2 => P2(i) case 3 => P3(i) case 4 => P4(i)
    case 5 => P5(i) case 6 => P6(i) case 7 => P7(i) case 8 => P8(i)
  }

  lemma Renaming2(i: nat)
    requires i < 25
    ensures P2(i) == P1(P1(i))
  {
  }

  lemma Renaming3(i: nat)
    requires i < 25
    ensures P3(i) == P2(P1(i))
  {
  }

  lemma Renaming4(i: nat)
    requires i < 25
    ensures P4(i) == P3(P1(i))
  {
  }

  lemma Renaming5(i: nat)
    requires i < 25
    ensures P5(i) == P4(P1(i))
  {
  }

  lemma Renaming6(i: nat)
    requires i < 25
    ensures P6(i) == P5(P1(i))
  {
  }

  lemma Renaming7(i: nat)
    requires i < 25
    ensures P7(i) == P6(P1(i))
  {
  }

  lemma Renaming8(i: nat)
    requires i < 25
    ensures P8(i) == P7(P1(i))
  {
  }

  lemma Renaming1(i: nat)
    requires i < 25
    ensures P1(i) == PiSource(i)
  {
    match i {
      case 0 => case 1 => case 2 => case 3 => case 4 => case 5 => case 6 => case 7 => case 8 => case 9 =>
      case 10 => case 11 => case 12 => case 13 => case 14 => case 15 => case 16 => case 17 => case 18 =>
      case 19 => case 20 => case 21 => case 22 => case 23 => case 24 =>
    }
  }

  /** Each list of names is the one before it with pi applied. */
  lemma Renaming(r: nat, i: nat)
    requires r < 8 && i < 25
    ensures P(r + 1, i) == P(r, PiSource(i))
  {
    hide P1, P2, P3, P4, P5, P6, P7, P8, PiSource;
    Renaming1(i);
    match r {
      case 0 =>
      case 1 => Renaming2(i);
      case 2 => Renaming3(i);
      case 3 => Renaming4(i);
      case 4 => Renaming5(i);
      case 5 => Renaming6(i);
      case 6 => Renaming7(i);
      case 7 => Renaming8(i);
    }
  }

  /** Where pi moves a lane: the inverse of `PiSource`. */
  function PiTarget(j: nat): (i: nat)
    requires j < 25
    ensures i < 25
  {
    j / 5 + 5 * ((2 * (j % 5 + 5 - j / 5)) % 5)
  }

  lemma PiTargetInverts(i: nat)
    requires i < 25
    ensures PiTarget(PiSource(i)) == i
  {
    hide PiSource;
    Renaming1(i);
    match i {
      case 0 => case 1 => case 2 => case 3 => case 4 => case 5 => case 6 => case 7 => case 8 => case 9 =>
      case 10 => case 11 => case 12 => case 13 => case 14 => case 15 => case 16 => case 17 => case 18 =>
      case 19 => case 20 => case 21 => case 22 => case 23 => case 24 =>
    }
  }

  /** No two names share a lane. */
  lemma {:induction false} NamesDistinct(r: nat, i: nat, j: nat)
    requires r <= 8 && i < 25 && j < 25 && P(r, i) == P(r, j)
    ensures i == j
    decreases r
  {
    hide P1, P2, P3, P4, P5, P6, P7, P8, PiSource, PiTarget;
    if r > 0 {
      Renaming(r - 1, i);
      Renaming(r - 1, j);
      NamesDistinct(r - 1, PiSource(i), PiSource(j));
      PiTargetInverts(i);
      PiTargetInverts(j);
    }
  }

  predicate Distinct(r: nat)
    requires r <= 8
  {
    forall i, j | 0 <= i < 25 && 0 <= j < 25 && i != j :: P(r, i) != P(r, j)
  }

  lemma AllDistinct(r: nat)
    requires r <= 8
    ensures Distinct(r)
  {
    hide P;
    forall i, j | 0 <= i < 25 && 0 <= j < 25 && i != j
      ensures P(r, i) != P(r, j)
    {
      if P(r, i) == P(r, j) {
        NamesDistinct(r, i, j);
      }
    }
  }

  /** The 25 lanes under the names of round `r`. */
  function View(a: array<Word>, r: nat): Lanes
    requires a.Length == 25 && r <= 8
    reads a
  {
    seq(25, i requires 0 <= i < 25 reads a => a[P(r, i)])
  }

  lemma PiByRenaming(a: array<Word>, r: nat)
    requires a.Length == 25 && r < 8
    ensures View(a, r + 1) == Pi(View(a, r))
  {
    hide P;
    forall i | 0 <= i < 25
      ensures View(a, r + 1)[i] == Pi(View(a, r))[i]
    {
      Renaming(r, i);
    }
  }

  // ----- the step macros -----

  function ThElt(c0: Word, c1: Word, c2: Word, c3: Word, c4: Word,
                 d0: Word, d1: Word, d2: Word, d3: Word, d4: Word): Word
  {
    var d := Rotl(Xor(Xor(Xor(d0, d1), d4), Xor(d2, d3)), 1);
    Xor(Xor(d, c4), Xor(Xor(c0, c1), Xor(c2, c3)))
  }

  lemma ThEltIsEffect(c0: Word, c1: Word, c2: Word, c3: Word, c4: Word,
                      d0: Word, d1: Word, d2: Word, d3: Word, d4: Word)
    ensures ThElt(c0, c1, c2, c3, c4, d0, d1, d2, d3, d4)
         == Xor(Xor(Xor(Xor(Xor(c0, c1), c2), c3), c4), Rotl(Xor(Xor(Xor(Xor(d0, d1), d2), d3), d4), 1))
  {
    hide Rotl;
    var d := Xor(Xor(Xor(d0, d1), d4), Xor(d2, d3));
    assert d == Xor(Xor(Xor(Xor(d0, d1), d2), d3), d4);
    var e := Rotl(d, 1);
    assert Xor(Xor(e, c4), Xor(Xor(c0, c1), Xor(c2, c3))) == Xor(Xor(Xor(Xor(Xor(c0, c1), c2), c3), c4), e);
  }

  function EffectFast(s: Lanes, x: nat): Word
    requires x < 5
  {
    var c, d := (x + 4) % 5, (x + 1) % 5;
    ThElt(s[c], s[c + 5], s[c + 10], s[c + 15], s[c + 20], s[d], s[d + 5], s[d + 10], s[d + 15], s[d + 20])
  }

  lemma EffectAgrees(s: Lanes, x: nat)
    requires x < 5
    ensures EffectFast(s, x) == ThetaEffect(s, x)
  {
    hide Xor, Rotl, ThElt;
    var c, d := (x + 4) % 5, (x + 1) % 5;
    ThEltIsEffect(s[c], s[c + 5], s[c + 10], s[c + 15], s[c + 20], s[d], s[d + 5], s[d + 10], s[d + 15], s[d + 20]);
  }

  method ThetaMacro(a: array<Word>, r: nat)
    requires a.Length == 25 && r <= 8
    modifies a
    ensures View(a, r) == Theta(old(View(a, r)))
  {
    hide P, Xor, Rotl, ThElt, ThetaEffect, EffectFast;
    AllDistinct(r);
    ghost var s := View(a, r);
    var t := seq(5, x requires 0 <= x < 5 reads a => EffectFast(View(a, r), x));
    forall x | 0 <= x < 5
      ensures t[x] == ThetaEffect(s, x)
    {
      EffectAgrees(s, x);
    }
    forall i | 0 <= i < 25 {
      a[P(r, i)] := Xor(a[P(r, i)], t[i % 5]);
    }
  }

  method RhoMacro(a: array<Word>, r: nat)
    requires a.Length == 25 && r <= 8
    modifies a
    ensures View(a, r) == Rho(old(View(a, r)))
  {
    hide P, Rot;
    AllDistinct(r);
    forall i | 0 <= i < 25 {
      a[P(r, i)] := Rot(a[P(r, i)], i);
    }
  }

  method KhiMacroRow(a: array<Word>, r: nat, y: nat)
    requires a.Length == 25 && r <= 8 && y < 5
    modifies a
    ensures View(a, r) == WithRow(old(View(a, r)), y)
  {
    hide P, KhiRow;
    AllDistinct(r);
    ghost var s := View(a, r);
    var c := KhiRow(Row(a[P(r, 5 * y)], a[P(r, 5 * y + 1)], a[P(r, 5 * y + 2)], a[P(r, 5 * y + 3)],
                        a[P(r, 5 * y + 4)]), y);
    assert c == KhiRow(RowOf(s, y), y);
    a[P(r, 5 * y)] := c.v0;
    a[P(r, 5 * y + 1)] := c.v1;
    a[P(r, 5 * y + 2)] := c.v2;
    a[P(r, 5 * y + 3)] := c.v3;
    a[P(r, 5 * y + 4)] := c.v4;
  }

  /** The lanes with row `y` put through chi. */
  function WithRow(s: Lanes, y: nat): Lanes
    requires y < 5
  {
    var c := KhiRow(RowOf(s, y), y);
    s[5 * y := c.v0][5 * y + 1 := c.v1][5 * y + 2 := c.v2][5 * y + 3 := c.v3][5 * y + 4 := c.v4]
  }

  lemma RowsMakeKhi(s: Lanes, t: Lanes, y: nat)
    requires y < 5
    requires forall i | 0 <= i < 25 :: t[i] == (if i < 5 * y then Khi(s)[i] else s[i])
    ensures forall i | 0 <= i < 25 :: WithRow(t, y)[i] == (if i < 5 * y + 5 then Khi(s)[i] else s[i])
  {
    hide KhiRow;
    assert RowOf(t, y) == RowOf(s, y);
    forall i | 0 <= i < 25
      ensures WithRow(t, y)[i] == if i < 5 * y + 5 then Khi(s)[i] else s[i]
    {
      if 5 * y <= i < 5 * y + 5 {
        assert i / 5 == y && i % 5 == i - 5 * y;
      }
    }
  }

  method KhiMacro(a: array<Word>, r: nat)
    requires a.Length == 25 && r <= 8
    modifies a
    ensures View(a, r) == Khi(old(View(a, r)))
  {
    hide View, Khi, WithRow;
    ghost var s := View(a, r);
    for y := 0 to 5
      invariant forall i | 0 <= i < 25 :: View(a, r)[i] == (if i < 5 * y then Khi(s)[i] else s[i])
    {
      RowsMakeKhi(s, View(a, r), y);
      KhiMacroRow(a, r, y);
    }
  }

  method IotaMacro(a: array<Word>, r: nat, k: Word)
    requires a.Length == 25 && r <= 8
    modifies a
    ensures View(a, r) == Iota(old(View(a, r)), k)
  {
    AllDistinct(r);
    assert P(r, 0) == 0;
    hide P, Xor;
    a[0] := Xor(a[0], k);
  }

  /** One round: theta and rho under the names of round `r`, then chi and iota under the next ones. */
  method KfElt(a: array<Word>, r: nat, k: Word)
    requires a.Length == 25 && r < 8
    modifies a
    ensures View(a, r + 1) == RoundFast(old(View(a, r)), k)
  {
    hide Theta, Rho, Pi, Khi, Iota, View;
    ThetaMacro(a, r);
    RhoMacro(a, r);
    PiByRenaming(a, r);
    KhiMacro(a, r + 1);
    IotaMacro(a, r + 1, k);
  }

  method Cycle(a: array<Word>, i: nat, j: nat, k: nat)
    requires a.Length == 25 && i < 25 && j < 25 && k < 25
    requires i != j && j != k && k != i
    modifies a
    ensures a[i] == old(a[j]) && a[j] == old(a[k]) && a[k] == old(a[i])
    ensures forall l | 0 <= l < 25 && l != i && l != j && l != k :: a[l] == old(a[l])
  {
    var t := a[i];
    a[i] := a[j];
    a[j] := a[k];
    a[k] := t;
  }

  /** After eight rounds the lanes go back under their first names. */
  method P8ToP0(a: array<Word>)
    requires a.Length == 25
    modifies a
    ensures View(a, 0) == old(View(a, 8))
  {
    Cycle(a, 5, 6, 19);
    Cycle(a, 10, 12, 8);
    Cycle(a, 15, 18, 22);
    Cycle(a, 20, 24, 11);
    Cycle(a, 1, 13, 16);
    Cycle(a, 21, 7, 2);
    Cycle(a, 17, 14, 4);
    Cycle(a, 3, 9, 23);
  }

  method KeccakF1600(a: array<Word>)
    requires a.Length == 25
    modifies a
    ensures View(a, 0) == RoundsFast(old(View(a, 0)), 24)
  {
    hide View, RoundFast, WordOf, RC;
    ghost var s := View(a, 0);
    var j: nat := 0;
    while j < 24
      invariant j in {0, 8, 16, 24}
      invariant View(a, 0) == RoundsFast(s, j)
    {
      KfElt(a, 0, WordOf(RC(j)));
      assert View(a, 1) == RoundsFast(s, j + 1);
      KfElt(a, 1, WordOf(RC(j + 1)));
      assert View(a, 2) == RoundsFast(s, j + 2);
      KfElt(a, 2, WordOf(RC(j + 2)));
      assert View(a, 3) == RoundsFast(s, j + 3);
      KfElt(a, 3, WordOf(RC(j + 3)));
      assert View(a, 4) == RoundsFast(s, j + 4);
      KfElt(a, 4, WordOf(RC(j + 4)));
      assert View(a, 5) == RoundsFast(s, j + 5);
      KfElt(a, 5, WordOf(RC(j + 5)));
      assert View(a, 6) == RoundsFast(s, j + 6);
      KfElt(a, 6, WordOf(RC(j + 6)));
      assert View(a, 7) == RoundsFast(s, j + 7);
      KfElt(a, 7, WordOf(RC(j + 7)));
      assert View(a, 8) == RoundsFast(s, j + 8);
      P8ToP0(a);
      j := j + 8;
    }
  }
}
