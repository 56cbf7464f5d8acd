/** BMW's driver: two chaining buffers that swap roles, the bit count, and the closing compression. */
module Bmw {
  import opened BitNumbers
  import opened Blocks
  import opened HashPadding
  import opened Words

  const CYCLE: nat := 0x1_0000_0000_0000_0000

  /** Sixteen chaining words. */
  type Chain = h: seq<Word> | |h| == 16 witness seq(16, _ => WordOf(0))

  type Compress = (Chain, seq<byte>) -> Chain

  function Padding(message: seq<byte>, ub: nat, n: nat): (p: seq<byte>)
    requires n < 8
    ensures |Rest(128, message)| + |p| in {128, 256}
  {
    var ptr := |Rest(128, message)|;
    [Marker(ub, n)] + ZeroBytes(if ptr < 120 then 119 - ptr else 247 - ptr)
    + LittleEndian((8 * |message| + n) % CYCLE, 8)
  }

  /** The words of a chaining value, little-endian. */
  function Bytes(h: Chain): (b: seq<byte>)
    ensures |b| == 128
  {
    seq(128, j requires 0 <= j < 128 => ByteOfBits(h[j / 8], j % 8))
  }

  function Last(f: Compress, iv: Chain, message: seq<byte>, ub: nat, n: nat): Chain
    requires n < 8
  {
    Absorb(f, 128, iv, message + Padding(message, ub, n))
  }

  /** The chaining value of the padded message is itself compressed, into the constant `final`. */
  function Digest(f: Compress, iv: Chain, final: Chain, message: seq<byte>, ub: nat, n: nat): Chain
    requires n < 8
  {
    f(final, Bytes(Last(f, iv, message, ub, n)))
  }

  /** Padding is a one bit, the fewest zeros that fit, and the length. */
  lemma PaddingBits(message: seq<byte>, ub: nat, n: nat)
    requires n < 8
    ensures Bits(message + Padding(message, ub, n))
         == Bits(message) + Extra(ub, n) + [true] + Zeros((-((8 * |message| + n + 1 + 64) as int)) % 1024)
            + Bits(LittleEndian((8 * |message| + n) % CYCLE, 8))
  {
    hide Marker, LittleEndian, ZeroBytes, Rest, Bits, Extra, Zeros;
    var ptr := |Rest(128, message)|;
    FewestZeros(128, message, ub, n, if ptr < 120 then 119 - ptr else 247 - ptr,
                LittleEndian((8 * |message| + n) % CYCLE, 8), 8 * |message| + n + 1 + 64);
  }

  function Live(h: Chain, pending: seq<byte>): Context<Chain> {
    Context(h, pending)
  }

  class SphBmw {
    const buf: array<byte>
    const chain: array<Word>
    const f: Compress
    const iv: Chain
    var ptr: nat
    var bitCount: nat
    ghost var message: seq<byte>

    ghost predicate Shape()
      reads this
    {
      buf.Length == 128 && chain.Length == 16 && ptr < 128
    }

    ghost function Ctx(): Context<Chain>
      requires Shape()
      reads this, buf, chain
    {
      Live(chain[..], buf[..ptr])
    }

    /** The context has absorbed exactly `message` and counted its bits. */
    ghost predicate Valid()
      reads this, buf, chain
    {
      Shape() && Ctx() == Fed(f, 128, Live(iv, []), message) && bitCount == 8 * |message| % CYCLE
    }

    constructor (f: Compress, iv: Chain)
      ensures Valid() && fresh(buf) && fresh(chain) && message == [] && this.f == f && this.iv == iv
    {
      this.f := f;
      this.iv := iv;
      buf := new byte[128](_ => 0);
      chain := new Word[16](i requires 0 <= i < 16 => iv[i]);
      ptr := 0;
      bitCount := 0;
      message := [];
      new;
      assert chain[..] == iv;
      NothingMore<Chain>(f, 128, Live(iv, []));
    }

    /** compress_big writes its result into `dh`. */
    method CompressBig(h: array<Word>, dh: array<Word>)
      requires buf.Length == 128 && h.Length == 16 && dh.Length == 16 && h != dh
      modifies dh
      ensures dh[..] == f(h[..], buf[..])
    {
      var r := f(h[..], buf[..]);
      forall i | 0 <= i < 16 {
        dh[i] := r[i];
      }
      assert dh[..] == r;
      assert h[..] == old(h[..]);
      assert buf[..] == old(buf[..]);
    }

    /** memcpy of the next bytes behind the pending ones. */
    method CopyIn(data: seq<byte>)
      requires Shape() && ptr + |data| <= 128
      modifies buf
      ensures buf[..ptr + |data|] == old(buf[..ptr]) + data
    {
      forall i | 0 <= i < |data| {
        buf[ptr + i] := data[i];
      }
    }

    /** One update call. The two chaining buffers swap after each block; the live one is copied back at the end. */
    method Update(input: seq<byte>)
      requires Valid()
      modifies this`ptr, this`bitCount, this`message, buf, chain
      ensures Valid() && message == old(message) + input
    {
      hide Fed;
      FedTwice<Chain>(f, 128, Live(iv, []), message, input);
      CountBits(|message|, |input|);
      message := message + input;
      bitCount := (bitCount + 8 * |input|) % CYCLE;
      var data := input;
      var htmp := new Word[16](_ => WordOf(0));
      var h1 := chain;
      var h2 := htmp;
      assert Live(h1[..], buf[..ptr]) == Ctx();
      while 0 < |data|
        invariant Shape() && {h1, h2} == {chain, htmp} && h1 != h2
        invariant bitCount == 8 * |message| % CYCLE && message == old(message) + input
        invariant Fed(f, 128, Live(h1[..], buf[..ptr]), data) == Fed(f, 128, Live(iv, []), message)
      {
        var clen := 128 - ptr;
        if clen > |data| {
          clen := |data|;
        }
        ghost var c := Live(h1[..], buf[..ptr]);
        CopyIn(data[..clen]);
        assert h1[..] == c.h;
        assert buf[..ptr + clen] == c.pending + data[..clen];
        if ptr + clen < 128 {
          CopyPart<Chain>(f, 128, c, data);
          assert data[..clen] == data;
        } else {
          FillBlock<Chain>(f, 128, c, data);
        }
        data := data[clen..];
        ptr := ptr + clen;
        if ptr == 128 {
          assert buf[..128] == buf[..];
          ghost var full := buf[..];
          CompressBig(h1, h2);
          assert h2[..] == f(c.h, full);
          var ht := h1;
          h1 := h2;
          h2 := ht;
          ptr := 0;
          assert buf[..ptr] == [];
        }
      }
      NothingMore<Chain>(f, 128, Live(h1[..], buf[..ptr]));
      ghost var last := Live(h1[..], buf[..ptr]);
      if h1 != chain {
        forall i | 0 <= i < 16 {
          chain[i] := h1[i];
        }
        assert chain[..] == last.h;
        assert buf[..ptr] == last.pending;
      }
      assert Ctx() == last;
    }

    /** The marker, the zeros and the count written into the buffer, and the one or two compressions. */
    method LastBlocks(ub: nat, n: nat, count: seq<byte>) returns (h: Chain)
      requires Shape() && n < 8 && |count| == 8
      modifies buf
      ensures var b := old(buf[..ptr]) + ([Marker(ub, n)] + ZeroBytes(if ptr < 120 then 119 - ptr else 247 - ptr)
                                          + count);
        h == if |b| == 128 then f(chain[..], b) else f(f(chain[..], b[..128]), b[128..])
    {
      hide Marker;
      ghost var b := buf[..ptr] + ([Marker(ub, n)] + ZeroBytes(if ptr < 120 then 119 - ptr else 247 - ptr) + count);
      var p := ptr;
      buf[p] := Marker(ub, n);
      p := p + 1;
      h := chain[..];
      if p > 120 {
        forall i | p <= i < 128 {
          buf[i] := 0;
        }
        assert buf[..] == b[..128];
        h := f(h, buf[..]);
        p := 0;
      }
      forall i | p <= i < 120 {
        buf[i] := 0;
      }
      forall i | 0 <= i < 8 {
        buf[120 + i] := count[i];
      }
      assert buf[..] == if |b| == 128 then b else b[128..];
      h := f(h, buf[..]);
      assert chain[..] == old(chain[..]);
    }

    /** The digest is the last `outSize` words of the result, little-endian. */
    method Close(final: Chain, ub: nat, n: nat, outSize: nat) returns (dst: seq<byte>)
      requires Valid() && n < 8 && outSize <= 16
      modifies buf
      ensures dst == Bytes(Digest(f, iv, final, message, ub, n))[128 - 8 * outSize..]
    {
      hide Marker, LittleEndian, ZeroBytes, Fed;
      ghost var p := Padding(message, ub, n);
      LastIs(f, iv, message, ub, n);
      CountBits'(|message|, n);
      var h := LastBlocks(ub, n, LittleEndian((bitCount + n) % CYCLE, 8));
      assert h == Last(f, iv, message, ub, n);
      var b := Bytes(h);
      forall i | 0 <= i < 128 {
        buf[i] := b[i];
      }
      assert buf[..] == b;
      dst := LastWords(f(final, buf[..]), outSize);
    }
  }

  /** The encoding loop of close. */
  method LastWords(h1: Chain, outSize: nat) returns (dst: seq<byte>)
    requires outSize <= 16
    ensures dst == Bytes(h1)[128 - 8 * outSize..]
  {
    hide ByteOfBits;
    ghost var start := 128 - 8 * outSize;
    dst := [];
    for u := 0 to outSize
      invariant dst == Bytes(h1)[start..start + 8 * u]
    {
      var v := 16 - outSize + u;
      var word := seq(8, j requires 0 <= j < 8 => ByteOfBits(h1[v], j));
      assert word == Bytes(h1)[8 * v..8 * v + 8];
      dst := dst + word;
    }
  }

  lemma LastIs(f: Compress, iv: Chain, message: seq<byte>, ub: nat, n: nat)
    requires n < 8
    ensures var c := Fed(f, 128, Live(iv, []), message);
      var b := c.pending + Padding(message, ub, n);
      c.pending == Rest(128, message)
      && Last(f, iv, message, ub, n) == if |b| == 128 then f(c.h, b) else f(f(c.h, b[..128]), b[128..])
  {
    hide Padding;
    HeldState(f, iv, message);
    var p := Padding(message, ub, n);
    AbsorbInParts<Chain>(f, 128, iv, message, p);
    var h, b := Absorb<Chain>(f, 128, iv, message), Rest(128, message) + p;
    if |b| == 128 {
      OneBlock<Chain>(f, 128, h, b);
    } else {
      TwoBlocks<Chain>(f, 128, h, b);
    }
  }

  lemma HeldState(f: Compress, iv: Chain, message: seq<byte>)
    ensures Fed(f, 128, Live(iv, []), message) == Live(Absorb(f, 128, iv, message), Rest(128, message))
  {
    assert [] + message == message;
  }

  lemma CountBits(size: nat, more: nat)
    ensures (8 * size % CYCLE + 8 * more) % CYCLE == 8 * (size + more) % CYCLE
  {
  }

  lemma CountBits'(size: nat, n: nat)
    ensures (8 * size % CYCLE + n) % CYCLE == (8 * size + n) % CYCLE
  {
  }
}
