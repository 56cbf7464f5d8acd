/** JH's driver: at least 512 bits of padding that end with the 128-bit length, over an abstract compression
    function. */
module Jh {
  import opened BitNumbers
  import opened Blocks
  import opened BlockCount
  import opened HashPadding

  /** The length field counts modulo 2^73: the block counter has 64 bits and a block 2^9. */
  const LENGTHS: nat := 0x200_0000_0000_0000_0000

  function ZeroRun(ptr: nat, n: nat): nat
    requires ptr < 64
  {
    if ptr == 0 && n == 0 then 47 else 111 - ptr
  }

  function Padding(message: seq<byte>, ub: nat, n: nat): (p: seq<byte>)
    requires n < 8
  {
    [Marker(ub, n)] + ZeroBytes(ZeroRun(|Rest(64, message)|, n)) + BigEndian((8 * |message| + n) % LENGTHS, 16)
  }

  function Digest<H>(f: (H, seq<byte>) -> H, iv: H, message: seq<byte>, ub: nat, n: nat): H
    requires n < 8
  {
    Absorb(f, 64, iv, message + Padding(message, ub, n))
  }

  lemma PaddingEndsBlock(message: seq<byte>, ub: nat, n: nat)
    requires n < 8
    ensures |message + Padding(message, ub, n)| % 64 == 0
  {
    hide Marker, BigEndian, ZeroBytes, Rest;
    RestIsTail(64, message);
  }

  lemma ZeroBitCount(size: nat, n: nat)
    requires n < 8
    ensures 7 - n + 8 * ZeroRun(size % 64, n) == 383 + (-((8 * size + n) as int)) % 512
  {
    var q, ptr := size / 64, size % 64;
    var v := -((8 * size + n) as int);
    if ptr == 0 && n == 0 {
      EuclideanUnique(v, 512, -q, 0);
    } else {
      EuclideanUnique(v, 512, -q - 1, 512 - 8 * ptr - n);
    }
  }

  /** Padding is a one bit, 383 zeros and as many more as reach a whole block, and the length. */
  lemma PaddingBits(message: seq<byte>, ub: nat, n: nat)
    requires n < 8
    ensures Bits(message + Padding(message, ub, n))
         == Bits(message) + Extra(ub, n) + [true] + Zeros(383 + (-((8 * |message| + n) as int)) % 512)
            + Bits(BigEndian((8 * |message| + n) % LENGTHS, 16))
  {
    hide Marker, BigEndian, ZeroBytes, Rest, Bits, Extra, Zeros, ZeroRun;
    RestIsTail(64, message);
    ZeroBitCount(|message|, n);
    var k, l := ZeroRun(|Rest(64, message)|, n), BigEndian((8 * |message| + n) % LENGTHS, 16);
    PaddedBits(message, ub, n, k, l);
    assert message + ([Marker(ub, n)] + ZeroBytes(k) + l) == message + [Marker(ub, n)] + ZeroBytes(k) + l;
  }

  method Close<H>(d: Driver<State<H>>, f: (H, seq<byte>) -> H, iv: H, ub: nat, n: nat, ghost message: seq<byte>)
    returns (h: H)
    requires Holds(d, 64, f, iv, message) && n < 8
    modifies d, d.buf
    ensures h == Digest(f, iv, message, ub, n)
    ensures Holds(d, 64, f, iv, [])
  {
    hide Marker, BigEndian, ZeroBytes, Rest, Absorb, Stepper, Fed;
    HeldState(64, f, iv, message);
    RestIsTail(64, message);
    var numz;
    if d.ptr == 0 && n == 0 {
      numz := 47;
    } else {
      numz := 111 - d.ptr;
    }
    var l0 := d.h.count * 0x200 % CYCLE + 8 * d.ptr + n;
    var l1 := d.h.count / 0x80_0000_0000_0000;
    var pad := [Marker(ub, n)] + ZeroBytes(numz) + (BigEndian(l1, 8) + BigEndian(l0, 8));
    assert pad == Padding(message, ub, n) by {
      LengthField(|message|, n, d.h.count, l0, l1);
    }
    PaddingAbsorbed(64, f, iv, message, pad);
    d.Core(pad);
    h := d.h.h;
    d.h := State(iv, 0);
    d.ptr := 0;
    NothingMore(Stepper(f), 64, d.Ctx());
  }

  lemma LengthField(size: nat, n: nat, count: nat, l0: nat, l1: nat)
    requires n < 8 && count == size / 64 % CYCLE
    requires l0 == count * 0x200 % CYCLE + 8 * (size % 64) + n && l1 == count / 0x80_0000_0000_0000
    ensures BigEndian(l1, 8) + BigEndian(l0, 8) == BigEndian((8 * size + n) % LENGTHS, 16)
  {
    assert Pow256(4) == 0x1_0000_0000;
    assert Pow256(8) == 0x1_0000_0000 * Pow256(4) == CYCLE;
    var low := count % 0x80_0000_0000_0000;
    assert count * 0x200 == l1 * CYCLE + low * 0x200;
    QuotientIs(count * 0x200, CYCLE, l1, low * 0x200);
    WordsJoin(l1, l0, 8, 8);
    var bits := 8 * (size % 64) + n;
    assert l1 * CYCLE + l0 == 0x200 * count + bits;
    MixedRadix(0x200, CYCLE, size / 64, bits);
    assert LENGTHS == 0x200 * CYCLE;
    assert 0x200 * (size / 64) + bits == 8 * size + n;
  }
}
