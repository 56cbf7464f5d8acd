/** BLAKE's driver: the message-bit counter, its bias in close, and the padding, over an abstract compression
    function. */
module Blake {
  import opened BitNumbers
  import opened Blocks
  import opened HashPadding

  /** The chaining value, the counter words and a block. */
  type Compress<!H> = (H, nat, nat, seq<byte>) -> H

  datatype State<H> = State(h: H, t0: nat, t1: nat)

  /** Words of 4 bytes (BLAKE-224, BLAKE-256) or 8 bytes (BLAKE-384, BLAKE-512). */
  predicate Width(w: nat) { w in {4, 8} }

  function Block(w: nat): nat { 16 * w }

  function BlockBits(w: nat): nat { 128 * w }

  /** One turn of the update loop on a full block; the counter words wrap. */
  function Step<H>(w: nat, f: Compress<H>, s: State<H>, block: seq<byte>): State<H> {
    var t0 := (s.t0 + BlockBits(w)) % Pow256(w);
    var t1 := if t0 < BlockBits(w) then (s.t1 + 1) % Pow256(w) else s.t1;
    State(f(s.h, t0, t1, block), t0, t1)
  }

  function Stepper<H>(w: nat, f: Compress<H>): (State<H>, seq<byte>) -> State<H> {
    (s: State<H>, block: seq<byte>) => Step(w, f, s, block)
  }

  // ----- the specification: SHA-3 proposal BLAKE, sections 2.1.2 to 2.1.4 -----

  datatype Progress<H> = Progress(h: H, blocks: nat)

  /** Compression of the next block with the counter the specification gives it. */
  function Counted<H>(w: nat, f: Compress<H>, length: nat): (Progress<H>, seq<byte>) -> Progress<H> {
    (p: Progress<H>, block: seq<byte>) =>
      var c := BitsThrough(BlockBits(w), p.blocks, length);
      Progress(f(p.h, c % Pow256(w), c / Pow256(w) % Pow256(w), block), p.blocks + 1)
  }

  function LengthField(w: nat, length: nat): (b: seq<byte>)
    ensures |b| == 2 * w
  {
    BigEndian(length / Pow256(w) % Pow256(w), w) + BigEndian(length % Pow256(w), w)
  }

  /** The last bit before the length is one for the longer digests only. */
  function Flagged(b: seq<byte>, long: bool): (r: seq<byte>)
    requires 0 < |b|
    ensures |r| == |b|
  {
    if long then
      var x: nat := b[|b| - 1];
      assert SetBit(x, 0) == x + 1 - x % 2;
      b[|b| - 1 := SetBit(x, 0)]
    else b
  }

  /** Marker and zeros up to the length field of the same block. */
  function LastBlock(w: nat, ptr: nat, ub: nat, n: nat, long: bool): (b: seq<byte>)
    requires Width(w) && n < 8 && 8 * ptr + n <= BlockBits(w) - 16 * w - 2
    ensures ptr + |b| == 14 * w
  {
    Flagged([Marker(ub, n)] + ZeroBytes(14 * w - 1 - ptr), long)
  }

  function Padding(w: nat, ptr: nat, length: nat, ub: nat, n: nat, long: bool): (p: seq<byte>)
    requires Width(w) && n < 8 && ptr < Block(w)
    ensures ptr + |p| in {Block(w), 2 * Block(w)}
  {
    if 8 * ptr + n <= BlockBits(w) - 16 * w - 2 then
      LastBlock(w, ptr, ub, n, long) + LengthField(w, length)
    else
      [Marker(ub, n)] + ZeroBytes(Block(w) - 1 - ptr) + (Flagged(ZeroBytes(14 * w), long) + LengthField(w, length))
  }

  function Digest<H>(w: nat, f: Compress<H>, iv: H, message: seq<byte>, ub: nat, n: nat, long: bool): H
    requires Width(w) && n < 8
  {
    var length := 8 * |message| + n;
    var ptr := |Rest(Block(w), message)|;
    Absorb(Counted(w, f, length), Block(w), Progress(iv, 0), message + Padding(w, ptr, length, ub, n, long)).h
  }

  // ----- the padding, bit by bit -----

  lemma FlagBit(b: seq<byte>, long: bool)
    requires 0 < |b| && !Bits(b)[8 * |b| - 1]
    ensures Bits(Flagged(b, long)) == Bits(b)[..8 * |b| - 1] + [long]
  {
    hide Bit, SetBit;
    if long {
      forall j | 0 <= j < 8 * |b|
        ensures Bits(Flagged(b, long))[j] == (Bits(b)[..8 * |b| - 1] + [long])[j]
      {
        SetBitBit(b[|b| - 1], 0, 7 - j % 8);
        if j < 8 * |b| - 1 {
          assert j / 8 < |b| - 1 || j % 8 < 7;
        }
      }
    } else {
      assert Bits(b)[8 * |b| - 1] == long;
    }
  }

  lemma ZeroRun(e: seq<bool>, z: nat)
    requires 0 < z
    ensures (e + [true] + Zeros(z))[..|e| + z] == e + [true] + Zeros(z - 1)
  {
  }

  lemma OneBlockBits(w: nat, q: nat, ptr: nat, length: nat, ub: nat, n: nat, long: bool)
    requires Width(w) && n < 8 && 8 * ptr + n <= BlockBits(w) - 16 * w - 2
    requires length == BlockBits(w) * q + 8 * ptr + n
    ensures Bits(LastBlock(w, ptr, ub, n, long))
         == Extra(ub, n) + [true] + Zeros((-((length + 2 + 16 * w) as int)) % BlockBits(w)) + [long]
  {
    hide Marker, Extra, Bits, ZeroBytes, Flagged;
    var k := 14 * w - 1 - ptr;
    var z := 7 - n + 8 * k;
    MarkerBits(ub, n);
    ZeroByteBits(k);
    BitsJoin([Marker(ub, n)], ZeroBytes(k));
    var b := [Marker(ub, n)] + ZeroBytes(k);
    assert Zeros(7 - n) + Zeros(8 * k) == Zeros(z);
    assert Bits(b) == Extra(ub, n) + [true] + Zeros(z);
    FlagBit(b, long);
    ZeroRun(Extra(ub, n), z);
    ZeroCount(BlockBits(w), q, ptr, n, 1 + 16 * w, z - 1, length + 2 + 16 * w);
  }

  lemma TwoBlockBits(w: nat, q: nat, ptr: nat, length: nat, ub: nat, n: nat, long: bool)
    requires Width(w) && n < 8 && ptr < Block(w) && 8 * ptr + n > BlockBits(w) - 16 * w - 2
    requires length == BlockBits(w) * q + 8 * ptr + n
    ensures Bits([Marker(ub, n)] + ZeroBytes(Block(w) - 1 - ptr)) + Bits(Flagged(ZeroBytes(14 * w), long))
         == Extra(ub, n) + [true] + Zeros((-((length + 2 + 16 * w) as int)) % BlockBits(w)) + [long]
  {
    hide Marker, Extra, Bits, ZeroBytes, Flagged;
    var k := Block(w) - 1 - ptr;
    var z := 7 - n + 8 * k;
    MarkerBits(ub, n);
    ZeroByteBits(k);
    ZeroByteBits(14 * w);
    BitsJoin([Marker(ub, n)], ZeroBytes(k));
    assert Zeros(7 - n) + Zeros(8 * k) == Zeros(z);
    FlagBit(ZeroBytes(14 * w), long);
    assert Zeros(112 * w)[..112 * w - 1] == Zeros(112 * w - 1);
    assert Zeros(z) + Zeros(112 * w - 1) == Zeros(z + 112 * w - 1);
    ZeroCount(BlockBits(w), q, ptr, n, 1 + 16 * w, z + 112 * w - 1, length + 2 + 16 * w);
  }

  /** Padding is a one bit, the fewest zeros that fit, the flag bit and the length. */
  lemma PaddingBits(w: nat, q: nat, ptr: nat, length: nat, ub: nat, n: nat, long: bool)
    requires Width(w) && n < 8 && ptr < Block(w)
    requires length == BlockBits(w) * q + 8 * ptr + n
    ensures Bits(Padding(w, ptr, length, ub, n, long))
         == Extra(ub, n) + [true] + Zeros((-((length + 2 + 16 * w) as int)) % BlockBits(w)) + [long]
            + Bits(LengthField(w, length))
  {
    hide Marker, Extra, Bits, ZeroBytes, LengthField, Flagged, LastBlock, Zeros;
    var l := LengthField(w, length);
    if 8 * ptr + n <= BlockBits(w) - 16 * w - 2 {
      OneBlockBits(w, q, ptr, length, ub, n, long);
      BitsJoin(LastBlock(w, ptr, ub, n, long), l);
    } else {
      TwoBlockBits(w, q, ptr, length, ub, n, long);
      BitsJoin(Flagged(ZeroBytes(14 * w), long), l);
      BitsJoin([Marker(ub, n)] + ZeroBytes(Block(w) - 1 - ptr), Flagged(ZeroBytes(14 * w), long) + l);
    }
  }

  // ----- the counter -----

  /** The number of blocks after which the low counter word wraps. */
  function Wrap(w: nat): (k: nat)
    requires Width(w)
    ensures 0 < k && Pow256(w) == BlockBits(w) * k
  {
    assert Pow256(4) == 0x1_0000_0000;
    assert Pow256(7) == 0x100_0000 * Pow256(4);
    if w == 4 then 0x80_0000 else 0x40_0000_0000_0000
  }

  /** The counter words after `i` whole blocks. */
  function Words(w: nat, i: nat): (nat, nat)
    requires Width(w)
  {
    (BlockBits(w) * (i % Wrap(w)), i / Wrap(w) % Pow256(w))
  }

  lemma CounterWords(w: nat, i: nat, bits: nat)
    requires Width(w) && bits < BlockBits(w)
    ensures (BlockBits(w) * i + bits) % Pow256(w) == Words(w, i).0 + bits
    ensures (BlockBits(w) * i + bits) / Pow256(w) % Pow256(w) == Words(w, i).1
  {
    MixedRadix(BlockBits(w), Wrap(w), i, bits);
  }

  lemma WordsNext(w: nat, i: nat)
    requires Width(w)
    ensures var k := Wrap(w);
      Words(w, i + 1) == if i % k + 1 < k then (Words(w, i).0 + BlockBits(w), i / k % Pow256(w))
                         else (0, (i / k + 1) % Pow256(w))
  {
    var b, k := BlockBits(w), Wrap(w);
    var q, r := i / k, i % k;
    assert i == q * k + r;
    if r + 1 < k {
      QuotientIs(i + 1, k, q, r + 1);
      assert b * (r + 1) == b * r + b;
    } else {
      assert i + 1 == (q + 1) * k + 0 by { assert (q + 1) * k == q * k + k; }
      QuotientIs(i + 1, k, q + 1, 0);
    }
  }

  lemma LowWordStep(w: nat, r: nat)
    requires Width(w) && r < Wrap(w)
    ensures (BlockBits(w) * r + BlockBits(w)) % Pow256(w)
         == if r + 1 < Wrap(w) then BlockBits(w) * r + BlockBits(w) else 0
  {
    var b, k := BlockBits(w), Wrap(w);
    assert b * (k - r - 1) == b * k - b * r - b;
    if r + 1 < k {
      Times(k - r - 1, b);
    }
  }

  /** A turn of the loop moves the counter words one block on, carry included. */
  lemma StepCounts<H>(w: nat, f: Compress<H>, h: H, i: nat, block: seq<byte>)
    requires Width(w)
    ensures var (a, b) := Words(w, i + 1);
      Step(w, f, State(h, Words(w, i).0, Words(w, i).1), block) == State(f(h, a, b, block), a, b)
  {
    WordsNext(w, i);
    LowWordStep(w, i % Wrap(w));
    CarryModulo(i / Wrap(w), Pow256(w));
    hide Wrap, Pow256;
  }

  lemma CarryModulo(q: nat, p: nat)
    requires 0 < p
    ensures (q % p + 1) % p == (q + 1) % p
  {
    var a, r := q / p, q % p;
    assert q == a * p + r;
    if r + 1 < p {
      QuotientIs(q + 1, p, a, r + 1);
      QuotientIs(r + 1, p, 0, r + 1);
    } else {
      assert q + 1 == (a + 1) * p + 0 by { assert (a + 1) * p == a * p + p; }
      QuotientIs(q + 1, p, a + 1, 0);
    }
  }

  /** While whole blocks are absorbed, the counter words are the counter of the specification. */
  lemma {:induction false} AbsorbCounts<H>(w: nat, f: Compress<H>, h: H, i: nat, data: seq<byte>, length: nat)
    requires Width(w) && BlockBits(w) * i + 8 * |data| <= length
    ensures var k := i + |data| / Block(w);
      var p := Absorb(Counted(w, f, length), Block(w), Progress(h, i), data);
      Absorb(Stepper(w, f), Block(w), State(h, Words(w, i).0, Words(w, i).1), data)
        == State(p.h, Words(w, k).0, Words(w, k).1)
      && p.blocks == k
    decreases |data|
  {
    hide Words, Wrap, Pow256, Step;
    if |data| >= Block(w) {
      var b := data[..Block(w)];
      assert BlockBits(w) * (i + 1) == BlockBits(w) * i + BlockBits(w);
      assert |data[Block(w)..]| / Block(w) == |data| / Block(w) - 1;
      StepCounts(w, f, h, i, b);
      CounterIsWords(w, i + 1);
      var c := BitsThrough(BlockBits(w), i, length);
      assert c == BlockBits(w) * (i + 1);
      AbsorbCounts(w, f, f(h, Words(w, i + 1).0, Words(w, i + 1).1, b), i + 1, data[Block(w)..], length);
    }
  }

  lemma CounterIsWords(w: nat, i: nat)
    requires Width(w)
    ensures BlockBits(w) * i % Pow256(w) == Words(w, i).0
    ensures BlockBits(w) * i / Pow256(w) % Pow256(w) == Words(w, i).1
  {
    CounterWords(w, i, 0);
  }

  // ----- close -----

  /** The bias of close, so that the next turn of the loop yields the counter of the last message bits. */
  function Biased<H>(w: nat, s: State<H>, ptr: nat, n: nat): State<H>
    requires Width(w) && ptr < Block(w) && n < 8
  {
    assert BlockBits(w) * Wrap(w) == Pow256(w);
    if ptr == 0 && n == 0 then Emptied(w, s)
    else if s.t0 == 0 then
      s.(t0 := Pow256(w) - BlockBits(w) + 8 * ptr + n, t1 := (s.t1 + Pow256(w) - 1) % Pow256(w))
    else s.(t0 := (s.t0 + Pow256(w) - (BlockBits(w) - (8 * ptr + n))) % Pow256(w))
  }

  /** The bias for a block without message bits. */
  function Emptied<H>(w: nat, s: State<H>): State<H>
    requires Width(w)
  {
    assert BlockBits(w) * Wrap(w) == Pow256(w);
    s.(t0 := Pow256(w) - BlockBits(w), t1 := Pow256(w) - 1)
  }

  /** A length that ends in the block after `i` whole ones, in counter words. */
  lemma LastCounter(w: nat, i: nat, bits: nat)
    requires Width(w) && bits < BlockBits(w)
    ensures var (a, b) := Words(w, i);
      var c := BitsThrough(BlockBits(w), i, BlockBits(w) * i + bits);
      c % Pow256(w) == (if bits == 0 then 0 else a + bits) && c / Pow256(w) % Pow256(w) == (if bits == 0 then 0 else b)
  {
    hide Words;
    CounterWords(w, i, bits);
    assert BlockBits(w) * (i + 1) == BlockBits(w) * i + BlockBits(w);
    assert 0 / Pow256(w) == 0;
  }

  /** The bias is undone by the next turn of the loop: it compresses with the counter of the specification. */
  lemma BiasUndone<H>(w: nat, f: Compress<H>, h: H, i: nat, ptr: nat, n: nat, block: seq<byte>)
    requires Width(w) && ptr < Block(w) && n < 8
    ensures var c := BitsThrough(BlockBits(w), i, BlockBits(w) * i + 8 * ptr + n);
      var (a, b) := (c % Pow256(w), c / Pow256(w) % Pow256(w));
      Step(w, f, Biased(w, State(h, Words(w, i).0, Words(w, i).1), ptr, n), block) == State(f(h, a, b, block), a, b)
  {
    var bits := 8 * ptr + n;
    var (a, b) := Words(w, i);
    LastCounter(w, i, bits);
    WordBounds(w, i);
    if bits == 0 {
      EmptiedStep(w, f, State(h, a, b), block);
    } else if a == 0 {
      BorrowReturned(b, Pow256(w));
      SmallRemainder(bits, Pow256(w));
    } else {
      SmallRemainder(a + bits - BlockBits(w), Pow256(w));
      SmallRemainder(a + bits, Pow256(w));
    }
  }

  lemma EmptiedStep<H>(w: nat, f: Compress<H>, s: State<H>, block: seq<byte>)
    requires Width(w)
    ensures Step(w, f, Emptied(w, s), block) == State(f(s.h, 0, 0, block), 0, 0)
  {
    SmallRemainder(0, Pow256(w));
  }

  lemma WordBounds(w: nat, i: nat)
    requires Width(w)
    ensures Words(w, i).0 + BlockBits(w) <= Pow256(w) && Words(w, i).1 < Pow256(w)
    ensures Words(w, i).0 == 0 || BlockBits(w) <= Words(w, i).0
  {
    var b, k, r := BlockBits(w), Wrap(w), i % Wrap(w);
    Times(k - r, b);
    assert b * (k - r) == b * k - b * r;
    if r > 0 {
      Times(r, b);
    }
  }

  /** Both a number below the modulus and that number plus the modulus leave it as remainder. */
  lemma SmallRemainder(x: nat, p: nat)
    requires x < p
    ensures x % p == x && (x + p) % p == x
  {
    QuotientIs(x, p, 0, x);
    QuotientIs(x + p, p, 1, x);
  }

  lemma BorrowReturned(b: nat, p: nat)
    requires b < p
    ensures ((b + p - 1) % p + 1) % p == b
  {
    CarryModulo(b + p - 1, p);
    SmallRemainder(b, p);
  }

  lemma FinalBlocks<H>(w: nat, f: Compress<H>, h: H, i: nat, pending: seq<byte>, ub: nat, n: nat, long: bool)
    requires Width(w) && n < 8 && |pending| < Block(w)
    ensures var ptr := |pending|;
      var length := BlockBits(w) * i + 8 * ptr + n;
      var s := Biased(w, State(h, Words(w, i).0, Words(w, i).1), ptr, n);
      var p := Padding(w, ptr, length, ub, n, long);
      var last := Absorb(Counted(w, f, length), Block(w), Progress(h, i), pending + p).h;
      if ptr + |p| == Block(w) then Step(w, f, s, pending + p).h == last
      else Step(w, f, Emptied(w, Step(w, f, s, pending + p[..Block(w) - ptr])), p[Block(w) - ptr..]).h == last
  {
    hide Words, Biased, Emptied, Step, Padding;
    var ptr := |pending|;
    var length := BlockBits(w) * i + 8 * ptr + n;
    var p := Padding(w, ptr, length, ub, n, long);
    var g := Counted(w, f, length);
    var b := pending + p;
    BiasUndone(w, f, h, i, ptr, n, b[..Block(w)]);
    if |b| == Block(w) {
      OneBlock(g, Block(w), Progress(h, i), b);
      assert b[..Block(w)] == b;
    } else {
      TwoBlocks(g, Block(w), Progress(h, i), b);
      var s := Biased(w, State(h, Words(w, i).0, Words(w, i).1), ptr, n);
      assert b[..Block(w)] == pending + p[..Block(w) - ptr];
      assert b[Block(w)..] == p[Block(w) - ptr..];
      EmptiedStep(w, f, Step(w, f, s, b[..Block(w)]), b[Block(w)..]);
      assert BlockBits(w) * (i + 1) == BlockBits(w) * i + BlockBits(w);
      assert BitsThrough(BlockBits(w), i + 1, length) == 0;
      SmallRemainder(0, Pow256(w));
      assert 0 / Pow256(w) == 0;
    }
  }

  /** The context of a hash that has absorbed `message` since it was initialised with `iv`. */
  ghost predicate Holds<H>(d: Driver<State<H>>, w: nat, f: Compress<H>, iv: H, message: seq<byte>)
    reads d, d.buf
  {
    Width(w) && d.Valid() && d.lim == Block(w) && d.step == Stepper(w, f)
    && d.Ctx() == Fed(Stepper(w, f), Block(w), Context(State(iv, 0, 0), []), message)
  }

  lemma HeldState<H>(w: nat, f: Compress<H>, iv: H, message: seq<byte>, length: nat)
    requires Width(w) && 8 * |message| <= length
    ensures var q := |message| / Block(w);
      var c := Fed(Stepper(w, f), Block(w), Context(State(iv, 0, 0), []), message);
      c.pending == Rest(Block(w), message)
      && |message| == Block(w) * q + |c.pending|
      && c.h.t0 == Words(w, q).0 && c.h.t1 == Words(w, q).1
      && Absorb(Counted(w, f, length), Block(w), Progress(iv, 0), message) == Progress(c.h.h, q)
  {
    hide Counted, Stepper, Words, Absorb, Rest;
    assert [] + message == message;
    RestIsTail(Block(w), message);
    NoBlocksYet(w);
    AbsorbCounts(w, f, iv, 0, message, length);
  }

  lemma NoBlocksYet(w: nat)
    requires Width(w)
    ensures Words(w, 0) == (0, 0)
  {
    SmallRemainder(0, Wrap(w));
    SmallRemainder(0, Pow256(w));
    assert 0 / Wrap(w) == 0;
  }

  lemma DigestByParts<H>(w: nat, f: Compress<H>, iv: H, message: seq<byte>, ub: nat, n: nat, long: bool)
    requires Width(w) && n < 8
    ensures var c := Fed(Stepper(w, f), Block(w), Context(State(iv, 0, 0), []), message);
      var q := |message| / Block(w);
      var length := BlockBits(w) * q + 8 * |c.pending| + n;
      length == 8 * |message| + n
      && Digest(w, f, iv, message, ub, n, long)
         == Absorb(Counted(w, f, length), Block(w), Progress(c.h.h, q),
                   c.pending + Padding(w, |c.pending|, length, ub, n, long)).h
  {
    hide Counted, Padding, Fed, Absorb, Rest;
    var q := |message| / Block(w);
    var length := 8 * |message| + n;
    HeldState(w, f, iv, message, length);
    assert BlockBits(w) * q == 8 * (Block(w) * q);
    var p := Padding(w, |Rest(Block(w), message)|, length, ub, n, long);
    AbsorbInParts(Counted(w, f, length), Block(w), Progress(iv, 0), message, p);
  }

  /** blake32_close and blake64_close up to the encoding of the result. */
  method Close<H>(d: Driver<State<H>>, w: nat, f: Compress<H>, ub: nat, n: nat, long: bool, ghost iv: H,
                  ghost message: seq<byte>)
    returns (h: H)
    requires Holds(d, w, f, iv, message) && n < 8
    modifies d, d.buf
    ensures h == Digest(w, f, iv, message, ub, n, long)
  {
    hide Digest, Marker, Fed, Counted, Words, LengthField, Biased, Emptied, Step, Absorb, Flagged, BigEndian;
    HeldState(w, f, iv, message, 8 * |message| + n);
    DigestByParts(w, f, iv, message, ub, n, long);
    ghost var q := |message| / Block(w);
    ghost var c := d.Ctx();
    ghost var length := 8 * |message| + n;
    assert length == BlockBits(w) * q + 8 * |c.pending| + n;
    assert c.h == State(c.h.h, Words(w, q).0, Words(w, q).1);
    FinalBlocks(w, f, c.h.h, q, c.pending, ub, n, long);
    ghost var s := Biased(w, c.h, |c.pending|, n);
    ghost var p := Padding(w, |c.pending|, length, ub, n, long);
    CounterWords(w, q, 8 * d.ptr + n);
    var ptr := d.ptr;
    var tl := d.h.t0 + 8 * ptr + n;
    var th := d.h.t1;
    var field := BigEndian(th, w) + BigEndian(tl, w);
    assert field == LengthField(w, length) by {
      FieldIs(w, length, th, tl);
    }
    d.h := Biased(w, d.h, ptr, n);
    if 8 * ptr + n <= BlockBits(w) - 16 * w - 2 {
      var u := LastBlock(w, ptr, ub, n, long) + field;
      FedOneBlock(Stepper(w, f), Block(w), d.Ctx(), u);
      assert u == p;
      d.Core(u);
      assert d.h == Step(w, f, s, c.pending + p);
    } else {
      var u := [Marker(ub, n)] + ZeroBytes(Block(w) - 1 - ptr);
      FedOneBlock(Stepper(w, f), Block(w), d.Ctx(), u);
      d.Core(u);
      assert u == p[..Block(w) - ptr];
      assert d.h == Step(w, f, s, c.pending + u);
      d.h := Emptied(w, d.h);
      u := Flagged(ZeroBytes(14 * w), long) + field;
      FedOneBlock(Stepper(w, f), Block(w), d.Ctx(), u);
      d.Core(u);
      assert u == p[Block(w) - ptr..];
      assert [] + u == u;
      assert d.h.h == Digest(w, f, iv, message, ub, n, long);
    }
    h := d.h.h;
  }

  lemma FieldIs(w: nat, length: nat, th: nat, tl: nat)
    requires tl == length % Pow256(w) && th == length / Pow256(w) % Pow256(w)
    ensures BigEndian(th, w) + BigEndian(tl, w) == LengthField(w, length)
  {
  }
}
