/** The Keccak driver: context, update and close, proved to compute the sponge of FIPS 202. */
module Keccak {
  import opened BitNumbers
  import opened Words
  import opened KeccakPlain
  import opened KeccakFast
  import opened KeccakInPlace
  import opened KeccakSponge
  import opened Blocks

  // ----- from the context that close starts with to the digest -----

  /** The state that init leaves: zero with six lanes complemented. */
  function Start(): Context<Lanes> {
    Context(Complemented(Zero(), Between()), [])
  }

  /** A context that has absorbed `message` in any number of update calls. */
  predicate Holds(c: Context<Lanes>, lim: nat, message: seq<byte>)
    requires 0 < lim
  {
    c == Fed(FastStep, lim, Start(), message)
  }

  /** The bytes of the state, each word little-endian. */
  function StateBytes(s: Lanes): (b: seq<byte>)
    ensures |b| == 200
  {
    seq(200, j requires 0 <= j < 200 => ByteOfBits(s[j / 8], j % 8))
  }

  lemma ByteBits(w: Word, b: nat, k: nat)
    requires b < 8 && k < 8
    ensures Bit(ByteOfBits(w, b), k) == w[8 * b + k]
  {
    hide Bit, FromBits, Weight;
    BitOfFromBits(w[8 * b..8 * b + 8], k);
  }

  lemma BytesAreBits(s: Lanes, d: nat)
    requires d <= 200
    ensures Bits(StateBytes(s)[..d]) == StateBits(s)[..8 * d]
  {
    hide Bit, ByteOfBits;
    forall j | 0 <= j < 8 * d
      ensures Bits(StateBytes(s)[..d])[j] == StateBits(s)[j]
    {
      ByteBits(s[j / 64], j / 8 % 8, j % 8);
      assert j / 8 / 8 == j / 64 && 8 * (j / 8 % 8) + j % 8 == j % 64;
    }
  }

  /** Message and padding together are whole blocks, so nothing stays pending. */
  lemma PaddingEndsBlock(lim: nat, message: seq<byte>, ub: nat, n: nat)
    requires 0 < lim && n < 8
    ensures Rest(lim, message + Padding(lim, |Rest(lim, message)|, ub, n)) == []
  {
    var ptr := |Rest(lim, message)|;
    var p := Padding(lim, ptr, ub, n);
    AbsorbInParts((u: int, b: seq<byte>) => u, lim, 0, message, p);
    var t := Rest(lim, message) + p;
    assert |t[lim..]| in {0, lim};
    assert Rest(lim, t) == Rest(lim, t[lim..]);
    if |t[lim..]| == lim {
      assert Rest(lim, t[lim..]) == Rest(lim, t[lim..][lim..]);
    }
  }

  lemma BitsJoin(a: seq<byte>, b: seq<byte>)
    ensures Bits(a + b) == Bits(a) + Bits(b)
  {
    hide Bits;
    BitsSplit(a + b, |a|);
    assert (a + b)[..|a|] == a && (a + b)[|a|..] == b;
    assert Bits(a + b) == Bits(a + b)[..8 * |a|] + Bits(a + b)[8 * |a|..];
  }

  /** Absorbing the padded bytes is absorbing the padded bit string of the standard. */
  lemma PaddedMessage(lim: nat, message: seq<byte>, ub: nat, n: nat)
    requires 0 < lim && n < 8
    ensures var m := Bits(message) + Extra(ub, n);
      Bits(message + Padding(lim, |Rest(lim, message)|, ub, n)) == m + Pad101(8 * lim, |m|)
  {
    hide *;
    var ptr := |Rest(lim, message)|;
    RestIsTail(lim, message);
    var q := |message| / lim;
    var l := q * lim + ptr;
    assert |message| == l;
    BitsJoin(message, Padding(lim, ptr, ub, n));
    PaddingIsPad101(lim, q, ptr, ub, n);
    var e, z := Extra(ub, n), Pad101(8 * lim, 8 * l + n);
    assert (Bits(message) + e) + z == Bits(message) + (e + z);
  }

  /** The state close complements back is the state of the plain sponge. */
  lemma ClosedState(lim: nat, message: seq<byte>, ub: nat, n: nat, c: Context<Lanes>)
    requires 0 < lim && lim % 8 == 0 && n < 8 && Holds(c, lim, message)
    ensures var f := Fed(FastStep, lim, c, Padding(lim, |c.pending|, ub, n));
      var m := Bits(message) + Extra(ub, n);
      f.pending == []
      && Complemented(f.h, Between()) == AbsorbBits(Zero(), 8 * lim, m + Pad101(8 * lim, |m|))
  {
    hide FastStep, PlainStep, Complemented, Between, Padding, Bits, Extra, Pad101, Zero;
    assert [] + message == message;
    var p := Padding(lim, |c.pending|, ub, n);
    FedTwice(FastStep, lim, Start(), message, p);
    var all := message + p;
    assert [] + all == all;
    PaddingEndsBlock(lim, message, ub, n);
    AbsorbComplemented(lim, Zero(), all);
    ComplementTwice(Absorb(PlainStep, lim, Zero(), all));
    AbsorbBytes(lim, Zero(), all);
    PaddedMessage(lim, message, ub, n);
  }

  // ----- the context -----

  class SphKeccak {
    const buf: array<byte>
    const wide: array<Word>
    var ptr: nat
    var lim: nat
    ghost var message: seq<byte>

    ghost predicate Shape()
      reads this
    {
      buf.Length == 144 && wide.Length == 25 && ptr < lim <= 144 && lim % 8 == 0
    }

    ghost function Ctx(): Context<Lanes>
      requires Shape()
      reads this, buf, wide
    {
      Context(View(wide, 0), buf[..ptr])
    }

    /** The context has absorbed exactly `message` since the last init. */
    ghost predicate Valid()
      reads this, buf, wide
    {
      Shape() && Holds(Ctx(), lim, message)
    }

    /** `outSize` is the digest length in bits. */
    constructor (outSize: nat)
      requires outSize in {224, 256, 384, 512}
      ensures Valid() && fresh(buf) && fresh(wide) && message == [] && lim == 200 - outSize / 4
    {
      buf := new byte[144](_ => 0);
      wide := new Word[25](_ => seq(64, _ => false));
      ptr := 0;
      lim := 8;
      new;
      Init(outSize);
    }

    method Init(outSize: nat)
      requires buf.Length == 144 && wide.Length == 25
      requires outSize in {224, 256, 384, 512}
      modifies this, wide
      ensures Valid() && message == [] && lim == 200 - outSize / 4
    {
      for i := 0 to 25
        modifies wide
        invariant forall k | 0 <= k < i :: wide[k] == seq(64, _ => false)
      {
        wide[i] := seq(64, _ => false);
      }
      var ones: Word := seq(64, _ => true);
      wide[1] := ones;
      wide[2] := ones;
      wide[8] := ones;
      wide[12] := ones;
      wide[17] := ones;
      wide[20] := ones;
      ptr := 0;
      lim := 200 - outSize / 4;
      message := [];
      assert View(wide, 0) == Complemented(Zero(), Between()) by {
        Ones();
      }
      NothingMore(FastStep, lim, Start());
    }

    /** XORs a full buffer into the state, eight bytes to a word. */
    method InputBuf()
      requires buf.Length == 144 && wide.Length == 25 && lim <= 144 && lim % 8 == 0
      modifies wide
      ensures View(wide, 0) == XorBlock(old(View(wide, 0)), buf[..lim])
    {
      hide Xor, LaneOf;
      ghost var s := View(wide, 0);
      ghost var block := buf[..lim];
      var j: nat := 0;
      while j < lim
        invariant j <= lim && j % 8 == 0
        invariant forall i | 0 <= i < 25 :: wide[i] == if 8 * i < j then Xor(s[i], LaneOf(block, i)) else s[i]
      {
        wide[j / 8] := Xor(wide[j / 8], LaneOf(buf[..lim], j / 8));
        j := j + 8;
      }
    }

    method Core(input: seq<byte>)
      requires Shape()
      modifies this`ptr, buf, wide
      ensures Shape() && Ctx() == Fed(FastStep, lim, old(Ctx()), input)
    {
      hide View, FastStep, Fed, Holds;
      var data := input;
      if |data| < lim - ptr {
        CopyPart(FastStep, lim, Ctx(), data);
        label before:
        forall i | 0 <= i < |data| {
          buf[ptr + i] := data[i];
        }
        ptr := ptr + |data|;
        assert buf[..ptr] == old@before(buf[..ptr]) + data;
        NothingMore(FastStep, lim, Ctx());
        return;
      }
      while 0 < |data|
        invariant Shape()
        invariant Fed(FastStep, lim, Ctx(), data) == Fed(FastStep, lim, old(Ctx()), input)
      {
        var clen := lim - ptr;
        if clen > |data| {
          clen := |data|;
        }
        ghost var c := Ctx();
        forall i | 0 <= i < clen {
          buf[ptr + i] := data[i];
        }
        assert buf[..ptr + clen] == c.pending + data[..clen];
        if ptr + clen < lim {
          CopyPart(FastStep, lim, c, data);
          assert data[..clen] == data;
        } else {
          FillBlock(FastStep, lim, c, data);
        }
        ptr := ptr + clen;
        data := data[clen..];
        if ptr == lim {
          Permute();
          ptr := 0;
        }
      }
      NothingMore(FastStep, lim, Ctx());
    }

    method Permute()
      requires buf.Length == 144 && wide.Length == 25 && lim <= 144 && lim % 8 == 0
      modifies wide
      ensures View(wide, 0) == FastStep(old(View(wide, 0)), buf[..lim])
    {
      hide View, XorBlock, RoundsFast;
      InputBuf();
      KeccakF1600(wide);
    }

    /** One update call. */
    method Update(data: seq<byte>)
      requires Valid()
      modifies this, buf, wide
      ensures Valid() && message == old(message) + data && lim == old(lim)
    {
      FedTwice(FastStep, lim, Start(), message, data);
      Core(data);
      message := message + data;
    }

    method FlipLanes()
      requires wide.Length == 25
      modifies wide
      ensures View(wide, 0) == Complemented(old(View(wide, 0)), Between())
    {
      hide Not;
      wide[1] := Not(wide[1]);
      wide[2] := Not(wide[2]);
      wide[8] := Not(wide[8]);
      wide[12] := Not(wide[12]);
      wide[17] := Not(wide[17]);
      wide[20] := Not(wide[20]);
    }

    /** Ends the message with the top `n` bits of `ub`, returns the digest of `d` bytes and starts over. */
    method Close(d: nat, ub: nat, n: nat) returns (dst: seq<byte>)
      requires Valid() && n < 8
      requires d in {28, 32, 48, 64} && lim == 200 - 2 * d
      modifies this, buf, wide
      ensures Valid() && message == [] && lim == old(lim)
      ensures Bits(dst) == KeccakSponge.Keccak(8 * lim, Bits(old(message)) + Extra(ub, n), 8 * d)
    {
      hide View, FastStep, Bits, AbsorbBits, Extra, Pad101, StateBits, StateBytes, Complemented, Zero;
      ghost var c := Ctx();
      Core(Padding(lim, ptr, ub, n));
      ClosedState(lim, message, ub, n, c);
      FlipLanes();
      BytesAreBits(View(wide, 0), d);
      dst := StateBytes(View(wide, 0))[..d];
      Init(8 * d);
    }
  }

  lemma Ones()
    ensures Not(seq(64, _ => false)) == seq(64, _ => true)
  {
  }
}
