/** The input buffering shared by the hash drivers: bytes are collected until a block is full, then compressed. */
module Blocks {
  import opened BitNumbers

  /** A chaining value together with the bytes that do not fill a block yet. */
  datatype Context<S> = Context(h: S, pending: seq<byte>)

  /** The chaining value after every whole block of `data`. */
  function Absorb<S>(step: (S, seq<byte>) -> S, lim: nat, h: S, data: seq<byte>): S
    requires 0 < lim
  {
    if |data| < lim then h else Absorb(step, lim, step(h, data[..lim]), data[lim..])
  }

  /** What is left of `data` after its whole blocks. */
  function Rest(lim: nat, data: seq<byte>): (r: seq<byte>)
    requires 0 < lim
    ensures |r| < lim
  {
    if |data| < lim then data else Rest(lim, data[lim..])
  }

  function Fed<S>(step: (S, seq<byte>) -> S, lim: nat, c: Context<S>, data: seq<byte>): Context<S>
    requires 0 < lim
  {
    Context(Absorb(step, lim, c.h, c.pending + data), Rest(lim, c.pending + data))
  }

  /** Update calls one after the other. */
  function FedAll<S>(step: (S, seq<byte>) -> S, lim: nat, c: Context<S>, pieces: seq<seq<byte>>): Context<S>
    requires 0 < lim
    decreases |pieces|
  {
    if pieces == [] then c else FedAll(step, lim, Fed(step, lim, c, pieces[0]), pieces[1..])
  }

  function Joined(pieces: seq<seq<byte>>): seq<byte> {
    if pieces == [] then [] else pieces[0] + Joined(pieces[1..])
  }

  lemma {:induction false} AbsorbInParts<S>(step: (S, seq<byte>) -> S, lim: nat, h: S, a: seq<byte>, b: seq<byte>)
    requires 0 < lim
    ensures Absorb(step, lim, h, a + b) == Absorb(step, lim, Absorb(step, lim, h, a), Rest(lim, a) + b)
    ensures Rest(lim, a + b) == Rest(lim, Rest(lim, a) + b)
    decreases |a|
  {
    if |a| >= lim {
      assert (a + b)[..lim] == a[..lim];
      assert (a + b)[lim..] == a[lim..] + b;
      AbsorbInParts(step, lim, step(h, a[..lim]), a[lim..], b);
    }
  }

  lemma FedTwice<S>(step: (S, seq<byte>) -> S, lim: nat, c: Context<S>, a: seq<byte>, b: seq<byte>)
    requires 0 < lim
    ensures Fed(step, lim, Fed(step, lim, c, a), b) == Fed(step, lim, c, a + b)
  {
    AbsorbInParts(step, lim, c.h, c.pending + a, b);
    assert c.pending + (a + b) == (c.pending + a) + b;
  }

  /** However a message is cut into update calls, the context is the one that a single call on all of it leaves. */
  lemma {:induction false} CutsDoNotMatter<S>(step: (S, seq<byte>) -> S, lim: nat, c: Context<S>,
                                              pieces: seq<seq<byte>>)
    requires 0 < lim && |c.pending| < lim
    ensures FedAll(step, lim, c, pieces) == Fed(step, lim, c, Joined(pieces))
    decreases |pieces|
  {
    if pieces == [] {
      assert c.pending + [] == c.pending;
    } else {
      CutsDoNotMatter(step, lim, Fed(step, lim, c, pieces[0]), pieces[1..]);
      FedTwice(step, lim, c, pieces[0], Joined(pieces[1..]));
    }
  }

  /** The bytes left over are the last ones, and as many as the length leaves modulo the block size. */
  lemma {:induction false} RestIsTail(lim: nat, data: seq<byte>)
    requires 0 < lim
    ensures |Rest(lim, data)| == |data| % lim
    ensures Rest(lim, data) == data[|data| - |Rest(lim, data)|..]
    decreases |data|
  {
    if |data| >= lim {
      RestIsTail(lim, data[lim..]);
      ModuloStep(|data|, lim);
    }
  }

  lemma ModuloStep(n: nat, lim: nat)
    requires 0 < lim <= n
    ensures n % lim == (n - lim) % lim
    ensures n / lim == (n - lim) / lim + 1
  {
    var q, r := (n - lim) / lim, (n - lim) % lim;
    assert n == (q + 1) * lim + r by {
      assert (q + 1) * lim == q * lim + lim;
    }
    QuotientIs(n, lim, q + 1, r);
  }

  lemma OneBlock<S>(step: (S, seq<byte>) -> S, lim: nat, h: S, b: seq<byte>)
    requires |b| == lim > 0
    ensures Absorb(step, lim, h, b) == step(h, b) && Rest(lim, b) == []
  {
    assert b[..lim] == b && b[lim..] == [];
    assert Absorb(step, lim, h, b) == Absorb(step, lim, step(h, b), []);
  }

  lemma TwoBlocks<S>(step: (S, seq<byte>) -> S, lim: nat, h: S, b: seq<byte>)
    requires |b| == 2 * lim > 0
    ensures Absorb(step, lim, h, b) == step(step(h, b[..lim]), b[lim..]) && Rest(lim, b) == []
  {
    OneBlock(step, lim, step(h, b[..lim]), b[lim..]);
  }

  /** Bytes that fill the block cause exactly one turn of the loop. */
  lemma FedOneBlock<S>(step: (S, seq<byte>) -> S, lim: nat, c: Context<S>, u: seq<byte>)
    requires |c.pending| + |u| == lim > 0
    ensures Fed(step, lim, c, u) == Context(step(c.h, c.pending + u), [])
  {
    OneBlock(step, lim, c.h, c.pending + u);
  }

  // ----- the loop of the drivers -----

  lemma CopyPart<S>(step: (S, seq<byte>) -> S, lim: nat, c: Context<S>, data: seq<byte>)
    requires |c.pending| < lim && |c.pending| + |data| < lim
    ensures Fed(step, lim, c, data) == Fed(step, lim, Context(c.h, c.pending + data), [])
  {
    assert c.pending + data + [] == c.pending + data;
  }

  lemma FillBlock<S>(step: (S, seq<byte>) -> S, lim: nat, c: Context<S>, data: seq<byte>)
    requires |c.pending| < lim <= |c.pending| + |data|
    ensures Fed(step, lim, c, data)
         == Fed(step, lim, Context(step(c.h, c.pending + data[..lim - |c.pending|]), []), data[lim - |c.pending|..])
  {
    var n := lim - |c.pending|;
    assert (c.pending + data)[..lim] == c.pending + data[..n];
    assert (c.pending + data)[lim..] == [] + data[n..];
  }

  /** A hash context whose compression function is `step`. */
  class Driver<S> {
    const step: (S, seq<byte>) -> S
    const lim: nat
    const buf: array<byte>
    var ptr: nat
    var h: S

    ghost predicate Valid()
      reads this
    {
      ptr < lim == buf.Length
    }

    ghost function Ctx(): Context<S>
      requires Valid()
      reads this, buf
    {
      Context(h, buf[..ptr])
    }

    constructor (step: (S, seq<byte>) -> S, lim: nat, init: S)
      requires 0 < lim
      ensures Valid() && fresh(buf) && Ctx() == Context(init, [])
      ensures this.step == step && this.lim == lim
    {
      this.step := step;
      this.lim := lim;
      this.h := init;
      this.ptr := 0;
      this.buf := new byte[lim](_ => 0);
    }

    /** The update function: compresses each block as it fills and keeps the rest. */
    method Core(input: seq<byte>)
      requires Valid()
      modifies this, buf
      ensures Valid() && Ctx() == Fed(step, lim, old(Ctx()), input)
    {
      hide Fed;
      var data := input;
      if |data| < lim - ptr {
        CopyPart(step, lim, Ctx(), data);
        label before:
        forall i | 0 <= i < |data| {
          buf[ptr + i] := data[i];
        }
        ptr := ptr + |data|;
        assert buf[..ptr] == old@before(buf[..ptr]) + data;
        NothingMore(step, lim, Ctx());
        return;
      }
      while 0 < |data|
        invariant Valid()
        invariant Fed(step, lim, Ctx(), data) == Fed(step, lim, old(Ctx()), input)
      {
        var clen := lim - ptr;
        if clen > |data| {
          clen := |data|;
        }
        ghost var c := Ctx();
        forall i | 0 <= i < clen {
          buf[ptr + i] := data[i];
        }
        assert buf[..ptr + clen] == c.pending + data[..clen];
        if ptr + clen < lim {
          CopyPart(step, lim, c, data);
          assert data[..clen] == data;
        } else {
          FillBlock(step, lim, c, data);
        }
        ptr := ptr + clen;
        data := data[clen..];
        if ptr == lim {
          assert buf[..lim] == buf[..];
          h := step(h, buf[..]);
          ptr := 0;
        }
      }
      NothingMore(step, lim, Ctx());
    }

    /** A message cut into any pieces leaves the context of one call on all of it. */
    method Feed(pieces: seq<seq<byte>>)
      requires Valid()
      modifies this, buf
      ensures Valid() && Ctx() == Fed(step, lim, old(Ctx()), Joined(pieces))
    {
      hide Fed, Joined;
      assert pieces[0..] == pieces;
      for i := 0 to |pieces|
        invariant Valid() && FedAll(step, lim, Ctx(), pieces[i..]) == FedAll(step, lim, old(Ctx()), pieces)
      {
        assert pieces[i..][1..] == pieces[i + 1..];
        Core(pieces[i]);
      }
      CutsDoNotMatter(step, lim, old(Ctx()), pieces);
    }
  }

  lemma NothingMore<S>(step: (S, seq<byte>) -> S, lim: nat, c: Context<S>)
    requires |c.pending| < lim
    ensures Fed(step, lim, c, []) == c
  {
    assert c.pending + [] == c.pending;
  }
}
