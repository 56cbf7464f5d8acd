/** 64-bit machine words as their 64 bits, least significant first, with the operators the hash macros use. */
module Words {
  import opened BitNumbers

  type Word = w: seq<bool> | |w| == 64 witness seq(64, _ => false)

  function Xor(x: Word, y: Word): Word {
    seq(64, k requires 0 <= k < 64 => x[k] != y[k])
  }

  function And(x: Word, y: Word): Word {
    seq(64, k requires 0 <= k < 64 => x[k] && y[k])
  }

  function Or(x: Word, y: Word): Word {
    seq(64, k requires 0 <= k < 64 => x[k] || y[k])
  }

  function Not(x: Word): Word {
    seq(64, k requires 0 <= k < 64 => !x[k])
  }

  function Shl(x: Word, n: nat): Word {
    seq(64, k requires 0 <= k < 64 => if k < n then false else x[k - n])
  }

  function Shr(x: Word, n: nat): Word {
    seq(64, k requires 0 <= k < 64 => if k + n < 64 then x[k + n] else false)
  }

  function Rotl(x: Word, n: nat): Word
    requires 0 < n < 64
  {
    Or(Shl(x, n), Shr(x, 64 - n))
  }

  /** Bit `k` of the rotated word is bit `k - n` modulo 64 of the original. */
  lemma RotlBit(x: Word, n: nat, k: nat)
    requires 0 < n < 64 && k < 64
    ensures Rotl(x, n)[k] == x[(k + 64 - n) % 64]
  {
    if k < n {
      assert (k + 64 - n) % 64 == k + 64 - n;
    } else {
      assert (k + 64 - n) % 64 == k - n;
    }
  }

  /** The word of a number below 2^64, and of larger numbers their low 64 bits. */
  function WordOf(n: nat): Word {
    seq(64, k requires 0 <= k < 64 => Bit(n, k))
  }

  /** Byte `b` of a word, as the little-endian encoder writes it. */
  function ByteOfBits(w: Word, b: nat): (r: nat)
    requires b < 8
    ensures r < 0x100
  {
    Powers();
    FromBits(w[8 * b..8 * b + 8])
  }
}

/** Keccak-f[1600] as FIPS 202 defines it (sections 3.2 to 3.4), on 25 lanes: lane (x, y) has index x + 5y. */
module KeccakPlain {
  import opened Words

  type Lanes = s: seq<Word> | |s| == 25 witness seq(25, _ => seq(64, _ => false))

  /** The rotation offset of a lane. */
  function Offset(i: nat): (n: nat)
    requires i < 25
    ensures n < 64
  {
    match i
    case 0 => 0   case 1 => 1   case 2 => 62  case 3 => 28  case 4 => 27
    case 5 => 36  case 6 => 44  case 7 => 6   case 8 => 55  case 9 => 20
    case 10 => 3  case 11 => 10 case 12 => 43 case 13 => 25 case 14 => 39
    case 15 => 41 case 16 => 45 case 17 => 15 case 18 => 21 case 19 => 8
    case 20 => 18 case 21 => 2  case 22 => 61 case 23 => 56 case 24 => 14
  }

  function Rot(v: Word, i: nat): Word
    requires i < 25
  {
    if Offset(i) == 0 then v else Rotl(v, Offset(i))
  }

  function Column(s: Lanes, x: nat): Word
    requires x < 5
  {
    Xor(Xor(Xor(Xor(s[x], s[x + 5]), s[x + 10]), s[x + 15]), s[x + 20])
  }

  function ThetaEffect(s: Lanes, x: nat): Word
    requires x < 5
  {
    Xor(Column(s, (x + 4) % 5), Rotl(Column(s, (x + 1) % 5), 1))
  }

  function Theta(s: Lanes): (r: Lanes) {
    seq(25, i requires 0 <= i < 25 => Xor(s[i], ThetaEffect(s, i % 5)))
  }

  function Rho(s: Lanes): (r: Lanes) {
    seq(25, i requires 0 <= i < 25 => Rot(s[i], i))
  }

  /** The parity of the five bits of column (x, z). */
  predicate Parity(s: Lanes, x: nat, z: nat)
    requires x < 5 && z < 64
  {
    (((s[x][z] != s[x + 5][z]) != s[x + 10][z]) != s[x + 15][z]) != s[x + 20][z]
  }

  lemma ColumnBit(s: Lanes, x: nat, z: nat)
    requires x < 5 && z < 64
    ensures Column(s, x)[z] == Parity(s, x, z)
  {
  }

  /** Section 3.2.1: a bit is flipped by the parities of the column to its left and of the one to its right a place
      before. */
  lemma ThetaMoves(s: Lanes, i: nat, z: nat)
    requires i < 25 && z < 64
    ensures Theta(s)[i][z] ==
      (s[i][z] != (Parity(s, (i % 5 + 4) % 5, z) != Parity(s, (i % 5 + 1) % 5, (z + 63) % 64)))
  {
    var x := i % 5;
    assert Theta(s)[i] == Xor(s[i], ThetaEffect(s, x));
    EffectBit(s, x, z);
    hide ThetaEffect, Parity, Theta;
    XorBit(s[i], ThetaEffect(s, x), z);
  }

  lemma EffectBit(s: Lanes, x: nat, z: nat)
    requires x < 5 && z < 64
    ensures ThetaEffect(s, x)[z] == (Parity(s, (x + 4) % 5, z) != Parity(s, (x + 1) % 5, (z + 63) % 64))
  {
    hide Rotl, Column, Parity, Xor;
    var l, r := (x + 4) % 5, (x + 1) % 5;
    ColumnBit(s, l, z);
    ColumnBit(s, r, (z + 63) % 64);
    RotlBit(Column(s, r), 1, z);
    XorBit(Column(s, l), Rotl(Column(s, r), 1), z);
  }

  lemma XorBit(a: Word, b: Word, z: nat)
    requires z < 64
    ensures Xor(a, b)[z] == (a[z] != b[z])
  {
  }

  predicate OnlyFirstBit(s: Lanes) {
    forall j, k | 0 <= j < 25 && 0 <= k < 64 :: s[j][k] == (j == 0 && k == 0)
  }

  lemma OnlyFirstParity(s: Lanes, x: nat, z: nat)
    requires x < 5 && z < 64 && OnlyFirstBit(s)
    ensures Parity(s, x, z) <==> x == 0 && z == 0
  {
    assert s[x][z] <==> x == 0 && z == 0;
    assert !s[x + 5][z] && !s[x + 10][z] && !s[x + 15][z] && !s[x + 20][z];
  }

  /** A single bit of lane (0, 0) reaches the lanes x = 1 in its place and the lanes x = 4 a place up. */
  lemma ThetaOfOneBit(s: Lanes, i: nat, z: nat)
    requires i < 25 && z < 64 && OnlyFirstBit(s)
    ensures Theta(s)[i][z] <==> (i == 0 && z == 0) || (i % 5 == 1 && z == 0) || (i % 5 == 4 && z == 1)
  {
    hide *;
    ThetaMoves(s, i, z);
    var x := i % 5;
    Neighbours(x, z);
    OnlyFirstParity(s, (x + 4) % 5, z);
    OnlyFirstParity(s, (x + 1) % 5, (z + 63) % 64);
    OnlyFirst(s, i, z);
  }

  lemma OnlyFirst(s: Lanes, i: nat, z: nat)
    requires i < 25 && z < 64 && OnlyFirstBit(s)
    ensures s[i][z] <==> i == 0 && z == 0
  {
  }

  lemma Neighbours(x: nat, z: nat)
    requires x < 5 && z < 64
    ensures (x + 4) % 5 == 0 <==> x == 1
    ensures (x + 1) % 5 == 0 <==> x == 4
    ensures (z + 63) % 64 == 0 <==> z == 1
  {
  }

  /** Bit `z` of a lane comes from the bit its offset before, around the lane: section 3.2.2. */
  lemma RhoMoves(s: Lanes, i: nat, z: nat)
    requires i < 25 && z < 64
    ensures Rho(s)[i][z] == s[i][(z + 64 - Offset(i)) % 64]
  {
    hide Rotl;
    if Offset(i) != 0 {
      RotlBit(s[i], Offset(i), z);
    }
  }

  /** Lane (x, y) of the result of pi is lane (x + 3y, x) of its argument. */
  function PiSource(i: nat): (j: nat)
    requires i < 25
    ensures j < 25
  {
    (i % 5 + 3 * (i / 5)) % 5 + 5 * (i % 5)
  }

  function Pi(s: Lanes): (r: Lanes) {
    seq(25, i requires 0 <= i < 25 => s[PiSource(i)])
  }

  /** Section 3.2.3: lane (x, y) moves to (y, 2x + 3y). */
  lemma PiMoves(s: Lanes, x: nat, y: nat)
    requires x < 5 && y < 5
    ensures Pi(s)[y + 5 * ((2 * x + 3 * y) % 5)] == s[x + 5 * y]
  {
    var j := y + 5 * ((2 * x + 3 * y) % 5);
    assert j % 5 == y && j / 5 == (2 * x + 3 * y) % 5;
    assert (y + 3 * ((2 * x + 3 * y) % 5)) % 5 == x;
  }

  /** The lane `k` places to the right in the same row. */
  function Right(i: nat, k: nat): (j: nat)
    requires i < 25
    ensures j < 25
  {
    (i % 5 + k) % 5 + 5 * (i / 5)
  }

  function Chi(s: Lanes): (r: Lanes) {
    seq(25, i requires 0 <= i < 25 => Xor(s[i], And(Not(s[Right(i, 1)]), s[Right(i, 2)])))
  }

  /** Section 3.2.4: a bit is flipped where the next bit of its row is zero and the one after that is one. */
  lemma ChiMoves(s: Lanes, x: nat, y: nat, z: nat)
    requires x < 5 && y < 5 && z < 64
    ensures Chi(s)[x + 5 * y][z] ==
      (s[x + 5 * y][z] != (!s[(x + 1) % 5 + 5 * y][z] && s[(x + 2) % 5 + 5 * y][z]))
  {
    var i := x + 5 * y;
    assert i % 5 == x && i / 5 == y;
    assert Right(i, 1) == (x + 1) % 5 + 5 * y && Right(i, 2) == (x + 2) % 5 + 5 * y;
    var a, b := s[Right(i, 1)], s[Right(i, 2)];
    assert Chi(s)[i] == Xor(s[i], And(Not(a), b));
    hide Chi, Right;
    assert And(Not(a), b)[z] == (!a[z] && b[z]);
    XorBit(s[i], And(Not(a), b), z);
  }

  function Iota(s: Lanes, rc: Word): (r: Lanes) {
    s[0 := Xor(s[0], rc)]
  }

  function Round(s: Lanes, rc: Word): Lanes {
    Iota(Chi(Pi(Rho(Theta(s)))), rc)
  }

  function RC(k: nat): nat
    requires k < 24
  {
    match k
    case 0 => 0x0000000000000001 case 1 => 0x0000000000008082 case 2 => 0x800000000000808A
    case 3 => 0x8000000080008000 case 4 => 0x000000000000808B case 5 => 0x0000000080000001
    case 6 => 0x8000000080008081 case 7 => 0x8000000000008009 case 8 => 0x000000000000008A
    case 9 => 0x0000000000000088 case 10 => 0x0000000080008009 case 11 => 0x000000008000000A
    case 12 => 0x000000008000808B case 13 => 0x800000000000008B case 14 => 0x8000000000008089
    case 15 => 0x8000000000008003 case 16 => 0x8000000000008002 case 17 => 0x8000000000000080
    case 18 => 0x000000000000800A case 19 => 0x800000008000000A case 20 => 0x8000000080008081
    case 21 => 0x8000000000008080 case 22 => 0x0000000080000001 case 23 => 0x8000000080008008
  }

  function Rounds(s: Lanes, n: nat): Lanes
    requires n <= 24
  {
    if n == 0 then s else Round(Rounds(s, n - 1), WordOf(RC(n - 1)))
  }

  function KeccakF(s: Lanes): Lanes {
    Rounds(s, 24)
  }
}
