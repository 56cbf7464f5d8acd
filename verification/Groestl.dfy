/** Groestl's driver for the long digests: padding with the number of blocks, over an abstract compression function. */
module Groestl {
  import opened BitNumbers
  import opened Blocks
  import opened BlockCount
  import opened HashPadding

  /** The number of zero bytes between the marker and the count. */
  function ZeroRun(ptr: nat): nat
    requires ptr < 128
  {
    if ptr < 120 then 119 - ptr else 247 - ptr
  }

  /** The padding of the specification: marker, zeros and the number of blocks of the padded message. */
  function Padding(message: seq<byte>, ub: nat, n: nat): (p: seq<byte>)
    requires n < 8
  {
    var ptr := |Rest(128, message)|;
    var blocks := (|message| + ZeroRun(ptr) + 9) / 128;
    [Marker(ub, n)] + ZeroBytes(ZeroRun(ptr)) + BigEndian(blocks % CYCLE, 8)
  }

  function Digest<H>(f: (H, seq<byte>) -> H, iv: H, message: seq<byte>, ub: nat, n: nat): H
    requires n < 8
  {
    Absorb(f, 128, iv, message + Padding(message, ub, n))
  }

  /** The padded message is whole blocks, and the count it ends with is their number. */
  lemma PaddingEndsBlock(message: seq<byte>, ub: nat, n: nat)
    requires n < 8
    ensures var all := message + Padding(message, ub, n);
      |all| % 128 == 0 && all[|all| - 8..] == BigEndian(|all| / 128 % CYCLE, 8)
  {
    hide Marker, BigEndian, ZeroBytes, Rest;
    RestIsTail(128, message);
    var q, ptr := |message| / 128, |Rest(128, message)|;
    assert |message| == q * 128 + ptr;
    QuotientIs(|message| + ZeroRun(ptr) + 9, 128, if ptr < 120 then q + 1 else q + 2, 0);
  }

  /** Padding is a one bit, the fewest zeros that fit, and the count. */
  lemma PaddingBits(message: seq<byte>, ub: nat, n: nat)
    requires n < 8
    ensures var all := message + Padding(message, ub, n);
      Bits(all) == Bits(message) + Extra(ub, n) + [true] + Zeros((-((8 * |message| + n + 1 + 64) as int)) % 1024)
                   + Bits(BigEndian(|all| / 128 % CYCLE, 8))
  {
    hide Marker, BigEndian, ZeroBytes, Rest, Bits, Extra, Zeros;
    var ptr := |Rest(128, message)|;
    var blocks := (|message| + ZeroRun(ptr) + 9) / 128;
    FewestZeros(128, message, ub, n, ZeroRun(ptr), BigEndian(blocks % CYCLE, 8), 8 * |message| + n + 1 + 64);
  }

  /** groestl_big_close up to the output transformation. */
  method Close<H>(d: Driver<State<H>>, f: (H, seq<byte>) -> H, iv: H, ub: nat, n: nat, ghost message: seq<byte>)
    returns (h: H)
    requires Holds(d, 128, f, iv, message) && n < 8
    modifies d, d.buf
    ensures h == Digest(f, iv, message, ub, n)
    ensures Holds(d, 128, f, iv, [])
  {
    hide Marker, BigEndian, ZeroBytes, Rest, Absorb, Stepper, Fed;
    HeldState(128, f, iv, message);
    RestIsTail(128, message);
    var ptr := d.ptr;
    var padLen, count;
    if ptr < 120 {
      padLen := 128 - ptr;
      count := (d.h.count + 1) % CYCLE;
    } else {
      padLen := 256 - ptr;
      count := (d.h.count + 2) % CYCLE;
    }
    var pad := [Marker(ub, n)] + ZeroBytes(padLen - 9) + BigEndian(count, 8);
    assert pad == Padding(message, ub, n) by {
      CountField(|message|, ptr, count);
    }
    PaddingAbsorbed(128, f, iv, message, pad);
    d.Core(pad);
    h := d.h.h;
    d.h := State(iv, 0);
    d.ptr := 0;
    NothingMore(Stepper(f), 128, d.Ctx());
  }

  lemma CountField(size: nat, ptr: nat, count: nat)
    requires ptr == size % 128
    requires count == (size / 128 % CYCLE + if ptr < 120 then 1 else 2) % CYCLE
    ensures count == (size + ZeroRun(ptr) + 9) / 128 % CYCLE
  {
  }
}
