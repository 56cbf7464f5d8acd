/** The sponge of FIPS 202 on bit strings, and the byte-oriented sponge of the driver without the lane complement. */
module KeccakSponge {
  import opened BitNumbers
  import opened Words
  import opened KeccakPlain
  import opened KeccakFast
  import opened Blocks

  // ----- the standard: sections 4, 5.1 and 5.2 -----

  /** pad10*1(x, m). */
  function Pad101(x: nat, m: nat): (p: seq<bool>)
    requires 0 < x
  {
    [true] + seq((-(m as int) - 2) % x, _ => false) + [true]
  }

  /** The string XORed into the first bits of the state. */
  function XorBits(s: Lanes, p: seq<bool>): Lanes {
    seq(25, i requires 0 <= i < 25 =>
      seq(64, k requires 0 <= k < 64 => s[i][k] != (64 * i + k < |p| && p[64 * i + k])))
  }

  function AbsorbBits(s: Lanes, r: nat, p: seq<bool>): Lanes
    requires 0 < r
    decreases |p|
  {
    if |p| < r then s else AbsorbBits(KeccakF(XorBits(s, p[..r])), r, p[r..])
  }

  function StateBits(s: Lanes): seq<bool> {
    seq(1600, j requires 0 <= j < 1600 => s[j / 64][j % 64])
  }

  function Zero(): Lanes {
    seq(25, _ => seq(64, _ => false))
  }

  /** Keccak[1600 - r](message, d) for a digest no longer than the rate. */
  function Keccak(r: nat, message: seq<bool>, d: nat): seq<bool>
    requires 0 < r && d <= 1600
  {
    StateBits(AbsorbBits(Zero(), r, message + Pad101(r, |message|)))[..d]
  }

  // ----- bytes -----

  /** The bits of a byte string, each byte least significant bit first. */
  function Bits(s: seq<byte>): (b: seq<bool>)
    ensures |b| == 8 * |s|
  {
    seq(8 * |s|, j requires 0 <= j < 8 * |s| => Bit(s[j / 8], j % 8))
  }

  /** The little-endian word at index `i` of a block. */
  function LaneOf(block: seq<byte>, i: nat): Word
    requires 8 * i + 8 <= |block|
  {
    seq(64, k requires 0 <= k < 64 => Bit(block[8 * i + k / 8], k % 8))
  }

  function XorBlock(s: Lanes, block: seq<byte>): Lanes {
    seq(25, i requires 0 <= i < 25 => if 8 * i + 8 <= |block| then Xor(s[i], LaneOf(block, i)) else s[i])
  }

  function PlainStep(s: Lanes, block: seq<byte>): Lanes {
    KeccakF(XorBlock(s, block))
  }

  function FastStep(s: Lanes, block: seq<byte>): Lanes {
    RoundsFast(XorBlock(s, block), 24)
  }

  // ----- the complement goes through -----

  lemma XorBlockFlips(s: Lanes, m: Mask, block: seq<byte>)
    ensures XorBlock(Complemented(s, m), block) == Complemented(XorBlock(s, block), m)
  {
    hide Xor, LaneOf;
    forall i | 0 <= i < 25
      ensures XorBlock(Complemented(s, m), block)[i] == Complemented(XorBlock(s, block), m)[i]
    {
      if 8 * i + 8 <= |block| {
        FlipXor(m[i], false, s[i], LaneOf(block, i));
      }
    }
  }

  lemma FastStepIsPlain(s: Lanes, block: seq<byte>)
    ensures FastStep(Complemented(s, Between()), block) == Complemented(PlainStep(s, block), Between())
  {
    hide XorBlock, Complemented, Between, RoundsFast, Rounds;
    XorBlockFlips(s, Between(), block);
    RoundsFastIsRounds(XorBlock(s, block), 24);
  }

  lemma {:induction false} AbsorbComplemented(lim: nat, s: Lanes, data: seq<byte>)
    requires 0 < lim
    ensures Absorb(FastStep, lim, Complemented(s, Between()), data)
         == Complemented(Absorb(PlainStep, lim, s, data), Between())
    decreases |data|
  {
    hide FastStep, PlainStep, Complemented, Between;
    if |data| >= lim {
      FastStepIsPlain(s, data[..lim]);
      AbsorbComplemented(lim, PlainStep(s, data[..lim]), data[lim..]);
    }
  }

  lemma ComplementTwice(s: Lanes)
    ensures Complemented(Complemented(s, Between()), Between()) == s
  {
    hide Between;
    forall i | 0 <= i < 25
      ensures Complemented(Complemented(s, Between()), Between())[i] == s[i]
    {
      assert Not(Not(s[i])) == s[i];
    }
  }

  // ----- bytes and bits absorb alike -----

  lemma LaneBits(block: seq<byte>, i: nat, k: nat)
    requires 8 * i + 8 <= |block| && k < 64
    ensures LaneOf(block, i)[k] == Bits(block)[64 * i + k]
  {
    hide Bit;
    assert (64 * i + k) / 8 == 8 * i + k / 8 && (64 * i + k) % 8 == k % 8;
  }

  lemma XorBlockIsXorBits(s: Lanes, block: seq<byte>)
    requires |block| % 8 == 0
    ensures XorBlock(s, block) == XorBits(s, Bits(block))
  {
    hide LaneOf, Bits;
    forall i, k | 0 <= i < 25 && 0 <= k < 64
      ensures XorBlock(s, block)[i][k] == XorBits(s, Bits(block))[i][k]
    {
      if 8 * i + 8 <= |block| {
        LaneBits(block, i, k);
      }
    }
    forall i | 0 <= i < 25
      ensures XorBlock(s, block)[i] == XorBits(s, Bits(block))[i]
    {
      assert |XorBlock(s, block)[i]| == 64 == |XorBits(s, Bits(block))[i]|;
    }
  }

  lemma BitsSplit(data: seq<byte>, n: nat)
    requires n <= |data|
    ensures Bits(data)[..8 * n] == Bits(data[..n])
    ensures Bits(data)[8 * n..] == Bits(data[n..])
  {
    hide Bit;
    forall j | 0 <= j < 8 * (|data| - n)
      ensures Bits(data)[8 * n..][j] == Bits(data[n..])[j]
    {
      assert (8 * n + j) / 8 == n + j / 8 && (8 * n + j) % 8 == j % 8;
    }
  }

  lemma {:induction false} AbsorbBytes(lim: nat, s: Lanes, data: seq<byte>)
    requires 0 < lim && lim % 8 == 0
    ensures AbsorbBits(s, 8 * lim, Bits(data)) == Absorb(PlainStep, lim, s, data)
    decreases |data|
  {
    hide XorBlock, XorBits, Bits, KeccakF;
    if |data| >= lim {
      BitsSplit(data, lim);
      XorBlockIsXorBits(s, data[..lim]);
      AbsorbBytes(lim, PlainStep(s, data[..lim]), data[lim..]);
    }
  }

  // ----- the padding of the close macro -----

  /** The last byte of the message: its `n` extra bits, the top ones of `ub`, and the first padding bit. */
  function Eb(ub: nat, n: nat): (eb: nat)
    requires n < 8
    ensures eb < 0x100 && (n < 7 ==> eb < 0x80)
  {
    var x := 0x100 + ub % 0x100;
    assert ShiftRight(x, 8 - n) == ShiftRight(x / 2, 7 - n);
    assert n < 7 ==> ShiftRight(x / 2, 7 - n) == ShiftRight(x / 2 / 2, 6 - n);
    ShiftRight(x, 8 - n)
  }

  /** The bits of the message past its last whole byte. */
  function Extra(ub: nat, n: nat): (b: seq<bool>)
    requires n < 8
    ensures |b| == n
  {
    seq(n, k requires 0 <= k < n => Bit(ub % 0x100, 8 - n + k))
  }

  /** The bytes that close hands to core when `ptr` bytes are pending. */
  function Padding(lim: nat, ptr: nat, ub: nat, n: nat): (p: seq<byte>)
    requires ptr < lim && n < 8
    ensures ptr + |p| in {lim, 2 * lim}
  {
    if ptr == lim - 1 then
      if n == 7 then [Eb(ub, n)] + seq(lim - 1, _ => 0) + [0x80] else [Eb(ub, n) + 0x80]
    else
      [Eb(ub, n)] + seq(lim - ptr - 2, _ => 0) + [0x80]
  }

  lemma EbBits(ub: nat, n: nat, k: nat)
    requires n < 8 && k < 8
    ensures Bit(Eb(ub, n), k) == (k == n || (k < n && Extra(ub, n)[k]))
  {
    Powers();
    BitShifted(0x100 + ub % 0x100, 8 - n, k);
    AddTop(8, ub % 0x100, 8 - n + k);
  }

  lemma EbWithEnd(ub: nat, n: nat, k: nat)
    requires n < 7 && k < 8
    ensures Bit(Eb(ub, n) + 0x80, k) == (k == 7 || k == n || (k < n && Extra(ub, n)[k]))
  {
    Powers();
    EbBits(ub, n, k);
    AddTop(7, Eb(ub, n), k);
  }

  lemma EndByte(k: nat)
    ensures Bit(0x80, k) == (k == 7)
  {
    Powers();
    AddTop(7, 0, k);
    ZeroBit(k);
  }

  /** The number of zeros of the padding, for a message of `q` blocks, `ptr` bytes and `n` bits. */
  lemma ZerosOfPad(lim: nat, q: nat, ptr: nat, n: nat)
    requires ptr < lim && n < 8
    ensures (-((8 * (q * lim + ptr) + n) as int) - 2) % (8 * lim)
         == if 8 * ptr + n + 2 <= 8 * lim then 8 * lim - (8 * ptr + n + 2) else 8 * lim - 1
  {
    var x := 8 * lim;
    var z := if 8 * ptr + n + 2 <= x then x - (8 * ptr + n + 2) else x - 1;
    var t := if 8 * ptr + n + 2 <= x then q + 1 else q + 2;
    var v := -((8 * (q * lim + ptr) + n) as int) - 2;
    assert v == -t * x + z by {
      assert q * x == 8 * (q * lim);
      assert (q + 1) * x == q * x + x;
      assert (q + 2) * x == q * x + 2 * x;
    }
    EuclideanUnique(v, x, -t, z);
  }

  /** The padding bytes are the extra message bits followed by the padding string of the standard. */
  lemma PaddingIsPad101(lim: nat, q: nat, ptr: nat, ub: nat, n: nat)
    requires ptr < lim && n < 8
    ensures Bits(Padding(lim, ptr, ub, n)) == Extra(ub, n) + Pad101(8 * lim, 8 * (q * lim + ptr) + n)
  {
    hide Eb, Bit, Extra;
    ZerosOfPad(lim, q, ptr, n);
    var p := Padding(lim, ptr, ub, n);
    var b := Extra(ub, n) + Pad101(8 * lim, 8 * (q * lim + ptr) + n);
    assert |b| == 8 * |p|;
    forall j | 0 <= j < 8 * |p|
      ensures Bits(p)[j] == b[j]
    {
      PaddingBit(lim, ptr, ub, n, j);
    }
  }

  lemma PaddingBit(lim: nat, ptr: nat, ub: nat, n: nat, j: nat)
    requires ptr < lim && n < 8 && j < 8 * |Padding(lim, ptr, ub, n)|
    ensures Bits(Padding(lim, ptr, ub, n))[j]
         == (j == n || j == 8 * |Padding(lim, ptr, ub, n)| - 1 || (j < n && Extra(ub, n)[j]))
  {
    hide Eb, Bit, Extra;
    var p := Padding(lim, ptr, ub, n);
    ZeroBit(j % 8);
    EndByte(j % 8);
    if j < 8 {
      assert j / 8 == 0 && j % 8 == j;
      EbBits(ub, n, j);
      if ptr == lim - 1 && n < 7 {
        EbWithEnd(ub, n, j);
      }
    } else {
      assert p[j / 8] == (if j / 8 == |p| - 1 then 0x80 else 0);
    }
  }
}
