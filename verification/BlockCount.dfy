/** Drivers that count the blocks they compress in a 64-bit word: Groestl and JH. */
module BlockCount {
  import opened BitNumbers
  import opened Blocks

  const CYCLE: nat := 0x1_0000_0000_0000_0000

  datatype State<H> = State(h: H, count: nat)

  function Stepper<H>(f: (H, seq<byte>) -> H): (State<H>, seq<byte>) -> State<H> {
    (s: State<H>, block: seq<byte>) => State(f(s.h, block), (s.count + 1) % CYCLE)
  }

  /** The chaining value is that of the compression function alone, and the count is the number of blocks. */
  lemma {:induction false} AbsorbCounts<H>(f: (H, seq<byte>) -> H, lim: nat, h: H, count: nat, data: seq<byte>)
    requires 0 < lim
    ensures Absorb(Stepper(f), lim, State(h, count % CYCLE), data)
         == State(Absorb(f, lim, h, data), (count + |data| / lim) % CYCLE)
    decreases |data|
  {
    if |data| < lim {
      QuotientIs(|data|, lim, 0, |data|);
    } else {
      SumModulo(count);
      AbsorbCounts(f, lim, f(h, data[..lim]), count + 1, data[lim..]);
      ModuloStep(|data|, lim);
    }
  }

  lemma SumModulo(count: nat)
    ensures (count % CYCLE + 1) % CYCLE == (count + 1) % CYCLE
  {
  }

  /** A hash that has absorbed `message` since it was initialised with `iv`. */
  ghost predicate Holds<H>(d: Driver<State<H>>, lim: nat, f: (H, seq<byte>) -> H, iv: H, message: seq<byte>)
    reads d, d.buf
  {
    d.Valid() && d.lim == lim && d.step == Stepper(f)
    && d.Ctx() == Fed(Stepper(f), lim, Context(State(iv, 0), []), message)
  }

  lemma HeldState<H>(lim: nat, f: (H, seq<byte>) -> H, iv: H, message: seq<byte>)
    requires 0 < lim
    ensures Fed(Stepper(f), lim, Context(State(iv, 0), []), message)
         == Context(State(Absorb(f, lim, iv, message), |message| / lim % CYCLE), Rest(lim, message))
  {
    assert [] + message == message;
    AbsorbCounts(f, lim, iv, 0, message);
  }

  /** Update calls with the padding leave the chaining value of message and padding together. */
  lemma PaddingAbsorbed<H>(lim: nat, f: (H, seq<byte>) -> H, iv: H, message: seq<byte>, p: seq<byte>)
    requires 0 < lim
    ensures Fed(Stepper(f), lim, Fed(Stepper(f), lim, Context(State(iv, 0), []), message), p).h.h
         == Absorb(f, lim, iv, message + p)
  {
    FedTwice(Stepper(f), lim, Context(State(iv, 0), []), message, p);
    HeldState(lim, f, iv, message + p);
  }
}
