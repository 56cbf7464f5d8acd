/** ECHO's driver: the 128-bit counter in four words, and the padding, over an abstract compression function. */
module Echo {
  import opened BitNumbers
  import opened Blocks
  import opened HashPadding

  const WORD: nat := 0x1_0000_0000

  /** The counter words C0 to C3, least significant first. */
  datatype Counter = Counter(c0: nat, c1: nat, c2: nat, c3: nat)

  predicate InRange(c: Counter) {
    c.c0 < WORD && c.c1 < WORD && c.c2 < WORD && c.c3 < WORD
  }

  function Value(c: Counter): nat {
    c.c0 + WORD * (c.c1 + WORD * (c.c2 + WORD * c.c3))
  }

  function Clear(): Counter { Counter(0, 0, 0, 0) }

  /** INCR_COUNTER: a carry stops at the first word that does not become zero. */
  function Incremented(c: Counter, val: nat): Counter {
    var c0 := (c.c0 + val) % WORD;
    if c0 >= val then c.(c0 := c0) else
    var c1 := (c.c1 + 1) % WORD;
    if c1 != 0 then c.(c0 := c0, c1 := c1) else
    var c2 := (c.c2 + 1) % WORD;
    if c2 != 0 then c.(c0 := c0, c1 := c1, c2 := c2) else
    Counter(c0, c1, c2, (c.c3 + 1) % WORD)
  }

  const CYCLE: nat := 0x1_0000_0000_0000_0000_0000_0000_0000_0000

  lemma CarryMoves(c: Counter, val: nat)
    requires InRange(c) && val < WORD
    ensures InRange(Incremented(c, val))
    ensures Value(Incremented(c, val)) in {Value(c) + val, Value(c) + val - CYCLE}
  {
    var r := Incremented(c, val);
    var over := c.c0 + val >= WORD;
    assert r.c0 == if over then c.c0 + val - WORD else c.c0 + val;
    if over && c.c1 == WORD - 1 && c.c2 == WORD - 1 && c.c3 == WORD - 1 {
      assert r == Counter(c.c0 + val - WORD, 0, 0, 0);
    } else {
      assert Value(r) == Value(c) + val;
    }
  }

  lemma ValueBound(c: Counter)
    requires InRange(c)
    ensures Value(c) < CYCLE
  {
  }

  /** The words count modulo 2^128. */
  lemma IncrementAdds(c: Counter, val: nat)
    requires InRange(c) && val < WORD
    ensures InRange(Incremented(c, val))
    ensures Value(Incremented(c, val)) == (Value(c) + val) % CYCLE
  {
    hide Value, Incremented;
    CarryMoves(c, val);
    ValueBound(Incremented(c, val));
  }

  /** Equal counts come from equal words. */
  lemma ValueInjective(a: Counter, b: Counter)
    requires InRange(a) && InRange(b) && Value(a) == Value(b)
    ensures a == b
  {
    assert a.c0 - b.c0 == WORD * ((b.c1 + WORD * (b.c2 + WORD * b.c3)) - (a.c1 + WORD * (a.c2 + WORD * a.c3)));
    assert a.c0 == b.c0;
    assert a.c1 - b.c1 == WORD * ((b.c2 + WORD * b.c3) - (a.c2 + WORD * a.c3));
    assert a.c1 == b.c1;
  }

  type Compress<!V> = (V, Counter, seq<byte>) -> V

  datatype State<V> = State(v: V, c: Counter)

  /** Blocks of 192 bytes (ECHO-224, ECHO-256) or 128 bytes (ECHO-384, ECHO-512). */
  predicate BlockSize(lim: nat) { lim in {128, 192} }

  function Step<V>(lim: nat, f: Compress<V>, s: State<V>, block: seq<byte>): State<V> {
    var c := Incremented(s.c, 8 * lim);
    State(f(s.v, c, block), c)
  }

  function Stepper<V>(lim: nat, f: Compress<V>): (State<V>, seq<byte>) -> State<V> {
    (s: State<V>, block: seq<byte>) => Step(lim, f, s, block)
  }

  // ----- the specification -----

  /** The words of a count modulo 2^128. */
  function WordsOf(n: nat): (c: Counter)
    ensures InRange(c)
  {
    Counter(n % WORD, n / WORD % WORD, n / WORD / WORD % WORD, n / WORD / WORD / WORD % WORD)
  }

  datatype Progress<V> = Progress(v: V, blocks: nat)

  function Counted<V>(lim: nat, f: Compress<V>, length: nat): (Progress<V>, seq<byte>) -> Progress<V> {
    (p: Progress<V>, block: seq<byte>) =>
      Progress(f(p.v, WordsOf(BitsThrough(8 * lim, p.blocks, length)), block), p.blocks + 1)
  }

  function Fields(length: nat, outBits: nat): (b: seq<byte>)
    ensures |b| == 18
  {
    LittleEndian(outBits, 2) + LittleEndian(length % CYCLE, 16)
  }

  function Padding(lim: nat, ptr: nat, length: nat, ub: nat, n: nat, outBits: nat): (p: seq<byte>)
    requires BlockSize(lim) && ptr < lim && n < 8
    ensures ptr + |p| in {lim, 2 * lim}
  {
    [Marker(ub, n)] + ZeroBytes(if ptr + 1 <= lim - 18 then lim - 19 - ptr else 2 * lim - 19 - ptr)
        + Fields(length, outBits)
  }

  function Digest<V>(lim: nat, f: Compress<V>, iv: V, message: seq<byte>, ub: nat, n: nat, outBits: nat): V
    requires BlockSize(lim) && n < 8
  {
    var length := 8 * |message| + n;
    Absorb(Counted(lim, f, length), lim, Progress(iv, 0),
           message + Padding(lim, |Rest(lim, message)|, length, ub, n, outBits)).v
  }

  /** Padding is a one bit, the fewest zeros that fit, the digest size and the length. */
  lemma PaddedMessage(lim: nat, message: seq<byte>, ub: nat, n: nat, outBits: nat)
    requires BlockSize(lim) && n < 8
    ensures var length := 8 * |message| + n;
      Bits(message + Padding(lim, |Rest(lim, message)|, length, ub, n, outBits))
        == Bits(message) + Extra(ub, n) + [true] + Zeros((-((length + 1 + 144) as int)) % (8 * lim))
           + Bits(Fields(length, outBits))
  {
    hide Bits, Extra, Marker, ZeroBytes, Fields, Zeros, Rest;
    var ptr := |Rest(lim, message)|;
    FewestZeros(lim, message, ub, n, if ptr + 1 <= lim - 18 then lim - 19 - ptr else 2 * lim - 19 - ptr,
                Fields(8 * |message| + n, outBits), 8 * |message| + n + 1 + 144);
  }

  // ----- the counter -----

  lemma WordsValue(n: nat)
    ensures Value(WordsOf(n)) == n % CYCLE
  {
    var a, b, c := n / WORD, n / WORD / WORD, n / WORD / WORD / WORD;
    QuotientIs(n, CYCLE, c / WORD, Value(WordsOf(n)));
  }

  /** Counting on from the words of `n` gives the words of the sum. */
  lemma CountOn(n: nat, val: nat)
    requires val < WORD
    ensures Incremented(WordsOf(n), val) == WordsOf(n + val)
  {
    hide Value, WordsOf, Incremented;
    IncrementAdds(WordsOf(n), val);
    WordsValue(n);
    WordsValue(n + val);
    SumModulo(n, val);
    ValueInjective(Incremented(WordsOf(n), val), WordsOf(n + val));
  }

  lemma SumModulo(n: nat, val: nat)
    ensures (n % CYCLE + val) % CYCLE == (n + val) % CYCLE
  {
  }

  lemma {:induction false} AbsorbCounts<V>(lim: nat, f: Compress<V>, v: V, i: nat, data: seq<byte>, length: nat)
    requires BlockSize(lim) && 8 * lim * i + 8 * |data| <= length
    ensures var k := i + |data| / lim;
      var p := Absorb(Counted(lim, f, length), lim, Progress(v, i), data);
      Absorb(Stepper(lim, f), lim, State(v, WordsOf(8 * lim * i)), data) == State(p.v, WordsOf(8 * lim * k))
      && p.blocks == k
    decreases |data|
  {
    hide WordsOf, Incremented;
    if |data| >= lim {
      var b := data[..lim];
      var c := WordsOf(8 * lim * (i + 1));
      assert 8 * lim * (i + 1) == 8 * lim * i + 8 * lim;
      assert |data[lim..]| / lim == |data| / lim - 1;
      assert BitsThrough(8 * lim, i, length) == 8 * lim * (i + 1);
      CountOn(8 * lim * i, 8 * lim);
      AbsorbCounts(lim, f, f(v, c, b), i + 1, data[lim..], length);
    }
  }

  // ----- close -----

  ghost predicate Holds<V>(d: Driver<State<V>>, lim: nat, f: Compress<V>, iv: V, message: seq<byte>)
    reads d, d.buf
  {
    BlockSize(lim) && d.Valid() && d.lim == lim && d.step == Stepper(lim, f)
    && d.Ctx() == Fed(Stepper(lim, f), lim, Context(State(iv, Clear()), []), message)
  }

  lemma HeldState<V>(lim: nat, f: Compress<V>, iv: V, message: seq<byte>, n: nat)
    requires BlockSize(lim)
    ensures var q, length := |message| / lim, 8 * |message| + n;
      var c := Fed(Stepper(lim, f), lim, Context(State(iv, Clear()), []), message);
      c.pending == Rest(lim, message)
      && |message| == lim * q + |c.pending|
      && c.h.c == WordsOf(8 * lim * q)
      && Absorb(Counted(lim, f, length), lim, Progress(iv, 0), message) == Progress(c.h.v, q)
  {
    hide Counted, Stepper, WordsOf, Absorb, Rest;
    assert [] + message == message;
    var q := WholeBlocks(lim, message);
    assert WordsOf(0) == Clear() by {
      WordsValue(0);
      ValueInjective(WordsOf(0), Clear());
    }
    AbsorbCounts(lim, f, iv, 0, message, 8 * |message| + n);
  }

  /** The blocks close compresses, and the counters it gives them. */
  lemma FinalBlocks<V>(lim: nat, f: Compress<V>, iv: V, message: seq<byte>, ub: nat, n: nat, outBits: nat)
    requires BlockSize(lim) && n < 8
    ensures var q, length := |message| / lim, 8 * |message| + n;
      var c := Fed(Stepper(lim, f), lim, Context(State(iv, Clear()), []), message);
      var b := c.pending + Padding(lim, |c.pending|, length, ub, n, outBits);
      var last := if length == 8 * lim * q then Clear() else WordsOf(length);
      Digest(lim, f, iv, message, ub, n, outBits)
        == if |b| == lim then f(c.h.v, last, b) else f(f(c.h.v, last, b[..lim]), Clear(), b[lim..])
  {
    hide Padding, WordsOf, Stepper, Fed;
    HeldState(lim, f, iv, message, n);
    var q, length := |message| / lim, 8 * |message| + n;
    var c := Fed(Stepper(lim, f), lim, Context(State(iv, Clear()), []), message);
    var p := Padding(lim, |c.pending|, length, ub, n, outBits);
    var g := Counted(lim, f, length);
    AbsorbInParts(g, lim, Progress(iv, 0), message, p);
    assert WordsOf(0) == Clear() by {
      WordsValue(0);
      ValueInjective(WordsOf(0), Clear());
    }
    assert 8 * lim * (q + 1) == 8 * lim * q + 8 * lim;
    var q' := WholeBlocks(lim, message);
    assert BitsThrough(8 * lim, q, length) == if length == 8 * lim * q then 0 else length;
    assert BitsThrough(8 * lim, q + 1, length) == 0;
    if |c.pending + p| == lim {
      OneBlock(g, lim, Progress(c.h.v, q), c.pending + p);
    } else {
      TwoBlocks(g, lim, Progress(c.h.v, q), c.pending + p);
    }
  }

  /** The marker, the zeros and the fields written into the buffer, and the one or two compressions of close. */
  method LastBlocks<V>(d: Driver<State<V>>, lim: nat, f: Compress<V>, c: Counter, ub: nat, n: nat, fields: seq<byte>)
    returns (v: V)
    requires d.Valid() && d.lim == lim && BlockSize(lim) && n < 8 && |fields| == 18
    modifies d.buf
    ensures var ptr := d.ptr;
      var k := if ptr + 1 <= lim - 18 then lim - 19 - ptr else 2 * lim - 19 - ptr;
      var b := old(d.Ctx().pending) + ([Marker(ub, n)] + ZeroBytes(k) + fields);
      v == if |b| == lim then f(d.h.v, c, b) else f(f(d.h.v, c, b[..lim]), Clear(), b[lim..])
  {
    hide Marker;
    ghost var pending := d.Ctx().pending;
    var ptr := d.ptr;
    ghost var k := if ptr + 1 <= lim - 18 then lim - 19 - ptr else 2 * lim - 19 - ptr;
    ghost var b := pending + ([Marker(ub, n)] + ZeroBytes(k) + fields);
    var last := c;
    v := d.h.v;
    d.buf[ptr] := Marker(ub, n);
    ptr := ptr + 1;
    forall i | ptr <= i < lim {
      d.buf[i] := 0;
    }
    if ptr > lim - 18 {
      assert d.buf[..] == b[..lim];
      v := f(v, last, d.buf[..]);
      last := Clear();
      forall i | 0 <= i < lim {
        d.buf[i] := 0;
      }
    }
    forall i | 0 <= i < 18 {
      d.buf[lim - 18 + i] := fields[i];
    }
    assert d.buf[..] == if |b| == lim then b else b[lim..];
    v := f(v, last, d.buf[..]);
  }

  method Close<V>(d: Driver<State<V>>, lim: nat, f: Compress<V>, iv: V, ub: nat, n: nat, outBits: nat,
                  ghost message: seq<byte>)
    returns (v: V)
    requires Holds(d, lim, f, iv, message) && n < 8
    modifies d, d.buf
    ensures v == Digest(lim, f, iv, message, ub, n, outBits)
    ensures Holds(d, lim, f, iv, [])
  {
    hide Digest, Marker, WordsOf, Incremented, Stepper, Fed, LittleEndian, ZeroBytes, Bits;
    HeldState(lim, f, iv, message, n);
    FinalBlocks(lim, f, iv, message, ub, n, outBits);
    ghost var length := 8 * |message| + n;
    var ptr := d.ptr;
    var elen := 8 * ptr + n;
    CountOn(8 * lim * (|message| / lim), elen);
    var c := Incremented(d.h.c, elen);
    assert c == WordsOf(length);
    var tmp := LittleEndian(c.c0, 4) + LittleEndian(c.c1, 4) + LittleEndian(c.c2, 4) + LittleEndian(c.c3, 4);
    FieldIs(length);
    if elen == 0 {
      c := Clear();
    }
    v := LastBlocks(d, lim, f, c, ub, n, LittleEndian(outBits, 2) + tmp);
    d.h := State(iv, Clear());
    d.ptr := 0;
    NothingMore(d.step, lim, d.Ctx());
  }

  lemma FieldIs(length: nat)
    ensures var c := WordsOf(length);
      LittleEndian(c.c0, 4) + LittleEndian(c.c1, 4) + LittleEndian(c.c2, 4) + LittleEndian(c.c3, 4)
        == LittleEndian(length % CYCLE, 16)
  {
    hide LittleEndian;
    var c := WordsOf(length);
    assert Pow256(4) == WORD;
    WordsJoinLittle(c.c3, c.c2, 4, 4);
    WordsJoinLittle(c.c3 * WORD + c.c2, c.c1, 4, 8);
    WordsJoinLittle((c.c3 * WORD + c.c2) * WORD + c.c1, c.c0, 4, 12);
    WordsValue(length);
    var l0, l1, l2, l3 := LittleEndian(c.c0, 4), LittleEndian(c.c1, 4), LittleEndian(c.c2, 4), LittleEndian(c.c3, 4);
    assert l0 + (l1 + (l2 + l3)) == l0 + l1 + l2 + l3;
  }
}
