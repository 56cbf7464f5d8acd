/** CubeHash16/32: the swap-free unrolled rounds against the round of the specification, and the closing blocks. */
module CubeHash {
  import opened BitNumbers
  import opened Blocks
  import opened HashPadding

  type Word = bv32

  function Add(x: Word, y: Word): Word { x + y }

  function Xor(x: Word, y: Word): Word { x ^ y }

  function Rotl(x: Word, r: bv32): Word
    requires 0 < r < 32
  {
    (x << r) | (x >> (32 - r))
  }

  // ----- the round of the specification, with its swaps -----

  type Half = h: seq<Word> | |h| == 16 witness seq(16, _ => 0)

  /** Words x_0jklm are `lo`, words x_1jklm are `hi`, both at index jklm in binary. */
  datatype State = State(lo: Half, hi: Half)

  /** Exclusive or of two indices of `w` bits. */
  function Flip(k: nat, m: nat, w: nat): nat {
    if w == 0 then 0 else Weight((k % 2 == 1) != (m % 2 == 1), 1) + 2 * Flip(k / 2, m / 2, w - 1)
  }

  function Swap(k: nat, m: nat): (i: nat)
    ensures i < 16
  {
    FlipBound(k, m, 4);
    Sixteen();
    Flip(k, m, 4)
  }

  function AddIn(s: State): State {
    s.(hi := seq(16, k requires 0 <= k < 16 => Add(s.lo[k], s.hi[k])))
  }

  function Rotate(s: State, r: bv32): State
    requires 0 < r < 32
  {
    s.(lo := seq(16, k requires 0 <= k < 16 => Rotl(s.lo[k], r)))
  }

  function XorIn(s: State): State {
    s.(lo := seq(16, k requires 0 <= k < 16 => Xor(s.lo[k], s.hi[k])))
  }

  function SwapLow(s: State, m: nat): State {
    s.(lo := seq(16, k requires 0 <= k < 16 => s.lo[Swap(k, m)]))
  }

  function SwapHigh(s: State, m: nat): State {
    s.(hi := seq(16, k requires 0 <= k < 16 => s.hi[Swap(k, m)]))
  }

  /** The ten steps of a round. */
  function Round(s: State): State {
    SwapHigh(XorIn(SwapLow(Rotate(AddIn(
      SwapHigh(XorIn(SwapLow(Rotate(AddIn(s), 7), 8)), 2)), 11), 4)), 1)
  }

  /** The partner of an index under an exchange of neighbouring runs of `m` indices. */
  function Partner(k: nat, m: nat): nat
    requires m > 0
  {
    if k / m % 2 == 0 then k + m else k - m
  }

  lemma {:induction false} FlipIsPartner(k: nat, m: nat, w: nat)
    requires k < Pow2(w) && m in {1, 2, 4, 8} && m < Pow2(w)
    ensures Flip(k, m, w) == Partner(k, m)
    decreases w
  {
    if m == 1 {
      FlipZero(k / 2, w - 1);
    } else {
      FlipIsPartner(k / 2, m / 2, w - 1);
      assert k / 2 / (m / 2) == k / m by { HalvesDivide(k, m); }
    }
  }

  lemma HalvesDivide(k: nat, m: nat)
    requires m in {2, 4, 8}
    ensures k / 2 / (m / 2) == k / m
  {
  }

  lemma SwapIsPartner(k: nat, m: nat)
    requires k < 16 && m in {1, 2, 4, 8}
    ensures Swap(k, m) == Partner(k, m)
  {
    Sixteen();
    FlipIsPartner(k, m, 4);
  }

  lemma RotlIs(x: Word)
    ensures Rotl(x, 7) == (x << 7) | (x >> 25) && Rotl(x, 11) == (x << 11) | (x >> 21)
  {
  }

  /** Five steps of a round. */
  function HalfOf(s: State, r: bv32, low: nat, high: nat): State
    requires 0 < r < 32
  {
    SwapHigh(XorIn(SwapLow(Rotate(AddIn(s), r), low)), high)
  }

  lemma HalfWords(s: State, r: bv32, low: nat, high: nat, k: nat)
    requires 0 < r < 32 && low in {1, 2, 4, 8} && high in {1, 2, 4, 8} && k < 16
    ensures 0 <= Partner(k, low) < 16 && 0 <= Partner(k, high) < 16
    ensures HalfOf(s, r, low, high).lo[k] == Xor(Rotl(s.lo[Partner(k, low)], r), Add(s.lo[k], s.hi[k]))
    ensures HalfOf(s, r, low, high).hi[k] == Add(s.lo[Partner(k, high)], s.hi[Partner(k, high)])
  {
    SwapIsPartner(k, low);
    SwapIsPartner(k, high);
    hide Add, Xor, Rotl, Swap, Partner;
  }

  /** The words after five steps that rotate by `r` and exchange runs of `low` and `high`. */
  predicate Halfway(s: State, mid: State, r: bv32, low: nat, high: nat)
    requires 0 < r < 32 && low in {1, 2, 4, 8} && high in {1, 2, 4, 8}
  {
    forall i | 0 <= i < 16 ::
      && 0 <= Partner(i, low) < 16 && 0 <= Partner(i, high) < 16
      && mid.lo[i] == Xor(Rotl(s.lo[Partner(i, low)], r), Add(s.lo[i], s.hi[i]))
      && mid.hi[i] == Add(s.lo[Partner(i, high)], s.hi[Partner(i, high)])
  }

  lemma HalfIsHalfway(s: State, r: bv32, low: nat, high: nat)
    requires 0 < r < 32 && low in {1, 2, 4, 8} && high in {1, 2, 4, 8}
    ensures Halfway(s, HalfOf(s, r, low, high), r, low, high)
  {
    forall i | 0 <= i < 16
      ensures 0 <= Partner(i, low) < 16 && 0 <= Partner(i, high) < 16
      ensures HalfOf(s, r, low, high).lo[i] == Xor(Rotl(s.lo[Partner(i, low)], r), Add(s.lo[i], s.hi[i]))
      ensures HalfOf(s, r, low, high).hi[i] == Add(s.lo[Partner(i, high)], s.hi[Partner(i, high)])
    {
      HalfWords(s, r, low, high, i);
    }
    hide Add, Xor, Rotl, Partner, HalfOf;
  }

  lemma HalfwayUnique(s: State, x: State, y: State, r: bv32, low: nat, high: nat)
    requires 0 < r < 32 && low in {1, 2, 4, 8} && high in {1, 2, 4, 8}
    requires Halfway(s, x, r, low, high) && Halfway(s, y, r, low, high)
    ensures x == y
  {
    hide Add, Xor, Rotl, Partner;
    assert x.lo == y.lo && x.hi == y.hi;
  }

  /** A round word by word: rotations by 7 and 11, exchanges of runs of 8, 2, 4 and 1 words, and nothing else. */
  lemma RoundWords(s: State, mid: State, t: State)
    requires Halfway(s, mid, 7, 8, 2)
    ensures Halfway(mid, t, 11, 4, 1) <==> t == Round(s)
  {
    hide Halfway, AddIn, Rotate, SwapLow, XorIn, SwapHigh;
    HalfIsHalfway(s, 7, 8, 2);
    HalfwayUnique(s, mid, HalfOf(s, 7, 8, 2), 7, 8, 2);
    HalfIsHalfway(mid, 11, 4, 1);
    if Halfway(mid, t, 11, 4, 1) {
      HalfwayUnique(mid, t, HalfOf(mid, 11, 4, 1), 11, 4, 1);
    }
  }

  function Rounds(s: State, n: nat): State {
    if n == 0 then s else Round(Rounds(s, n - 1))
  }

  // ----- indices -----

  lemma {:induction false} FlipBound(k: nat, m: nat, w: nat)
    ensures Flip(k, m, w) < Pow2(w)
  {
    if w > 0 {
      FlipBound(k / 2, m / 2, w - 1);
    }
  }

  lemma Sixteen()
    ensures Pow2(4) == 16
  {
  }

  lemma FlipParts(k: nat, m: nat, w: nat)
    requires 0 < w
    ensures Flip(k, m, w) / 2 == Flip(k / 2, m / 2, w - 1)
    ensures (Flip(k, m, w) % 2 == 1) == ((k % 2 == 1) != (m % 2 == 1))
  {
  }

  lemma {:induction false} FlipAssoc(k: nat, m: nat, n: nat, w: nat)
    ensures Flip(Flip(k, m, w), n, w) == Flip(k, Flip(m, n, w), w)
    decreases w
  {
    if w > 0 {
      FlipAssoc(k / 2, m / 2, n / 2, w - 1);
      FlipParts(k, m, w);
      FlipParts(m, n, w);
    }
  }

  lemma {:induction false} FlipBack(k: nat, m: nat, w: nat)
    requires k < Pow2(w)
    ensures Flip(Flip(k, m, w), m, w) == k
    decreases w
  {
    if w > 0 {
      FlipBack(k / 2, m / 2, w - 1);
      FlipParts(k, m, w);
    }
  }

  lemma SwapTwice(k: nat, m: nat, n: nat)
    requires k < 16
    ensures Swap(Swap(k, m), n) == Swap(k, Swap(m, n))
    ensures Swap(Swap(k, m), m) == k
  {
    Sixteen();
    FlipAssoc(k, m, n, 4);
    FlipBack(k, m, 4);
  }

  /** The names the swaps lead to, and the masks the macros use under them. */
  lemma Masks()
    ensures Swap(8, 0) == 8 && Swap(2, 0) == 2 && Swap(4, 8) == 12 && Swap(1, 2) == 3
    ensures Swap(8, 12) == 4 && Swap(2, 3) == 1 && Swap(4, 4) == 0 && Swap(1, 1) == 0
    ensures Swap(0, 0) == 0 && Swap(8, 0) == 8 && Swap(8, 2) == 10 && Swap(12, 2) == 14
    ensures Swap(12, 3) == 15 && Swap(4, 3) == 7 && Swap(4, 1) == 5 && Swap(0, 1) == 1
  {
  }

  // ----- the macros: the swaps are left out and every index is renamed -----

  /** The state whose low word k is held at index k ^ a and whose high word k at index 16 + (k ^ b). */
  function Named(x: seq<Word>, a: nat, b: nat): State
    requires |x| == 32
  {
    State(seq(16, k requires 0 <= k < 16 => x[Swap(k, a)]), seq(16, k requires 0 <= k < 16 => x[16 + Swap(k, b)]))
  }

  lemma SwapLowRenames(x: seq<Word>, a: nat, b: nat, m: nat)
    requires |x| == 32
    ensures SwapLow(Named(x, a, b), m) == Named(x, Swap(m, a), b)
  {
    hide Swap;
    forall k | 0 <= k < 16
      ensures SwapLow(Named(x, a, b), m).lo[k] == Named(x, Swap(m, a), b).lo[k]
    {
      SwapTwice(k, m, a);
    }
    assert SwapLow(Named(x, a, b), m).lo == Named(x, Swap(m, a), b).lo;
  }

  lemma SwapHighRenames(x: seq<Word>, a: nat, b: nat, m: nat)
    requires |x| == 32
    ensures SwapHigh(Named(x, a, b), m) == Named(x, a, Swap(m, b))
  {
    hide Swap;
    forall k | 0 <= k < 16
      ensures SwapHigh(Named(x, a, b), m).hi[k] == Named(x, a, Swap(m, b)).hi[k]
    {
      SwapTwice(k, m, b);
    }
    assert SwapHigh(Named(x, a, b), m).hi == Named(x, a, Swap(m, b)).hi;
  }

  /** The first sixteen statements of a half round, and the rotations between them. */
  method AddRotate(x: array<Word>, m: nat, r: bv32)
    requires x.Length == 32 && 0 < r < 32
    modifies x
    ensures forall k | 0 <= k < 16 :: x[k] == Rotl(old(x[k]), r)
    ensures forall k | 0 <= k < 16 :: x[16 + k] == Add(old(x[Swap(k, m)]), old(x[16 + k]))
  {
    hide Swap, Add, Rotl;
    for k := 0 to 16
      invariant forall i | 0 <= i < 16 :: x[i] == if i < k then Rotl(old(x[i]), r) else old(x[i])
      invariant forall i | 0 <= i < 16 ::
        x[16 + i] == if Swap(i, m) < k then Add(old(x[Swap(i, m)]), old(x[16 + i])) else old(x[16 + i])
    {
      SwapTwice(k, m, m);
      forall i | 0 <= i < 16 && Swap(i, m) == k
        ensures i == Swap(k, m)
      {
        SwapTwice(i, m, m);
      }
      x[16 + Swap(k, m)] := Add(x[k], x[16 + Swap(k, m)]);
      x[k] := Rotl(x[k], r);
    }
  }

  /** The last sixteen statements of a half round. */
  method XorHigh(x: array<Word>, m: nat)
    requires x.Length == 32
    modifies x
    ensures forall k | 0 <= k < 16 :: x[k] == Xor(old(x[k]), old(x[16 + Swap(k, m)]))
    ensures forall j | 16 <= j < 32 :: x[j] == old(x[j])
  {
    hide Swap, Xor;
    for k := 0 to 16
      invariant forall i | 0 <= i < 16 :: x[i] == if i < k then Xor(old(x[i]), old(x[16 + Swap(i, m)])) else old(x[i])
      invariant forall j | 16 <= j < 32 :: x[j] == old(x[j])
    {
      x[k] := Xor(x[k], x[16 + Swap(k, m)]);
    }
  }

  /** Half a round under the names (a, b), ending under the names (c, d). */
  method HalfRound(x: array<Word>, add: nat, r: bv32, xor: nat,
                   ghost a: nat, ghost b: nat, ghost c: nat, ghost d: nat, ghost low: nat, ghost high: nat)
    requires x.Length == 32 && 0 < r < 32
    requires a < 16 && b < 16 && c == Swap(low, a) && d == Swap(high, b)
    requires add == Swap(a, b) && xor == Swap(c, b)
    modifies x
    ensures Named(x[..], c, d)
         == SwapHigh(XorIn(SwapLow(Rotate(AddIn(old(Named(x[..], a, b))), r), low)), high)
  {
    hide Swap, Add, Rotl, Xor;
    ghost var s := Named(x[..], a, b);
    AddRotate(x, add, r);
    assert Named(x[..], a, b) == Rotate(AddIn(s), r) by {
      AddRotateNamed(old(x[..]), x[..], a, b, r);
    }
    SwapLowRenames(x[..], a, b, low);
    ghost var y := x[..];
    XorHigh(x, xor);
    assert Named(x[..], c, b) == XorIn(Named(y, c, b)) by {
      XorNamed(y, x[..], c, b);
    }
    SwapHighRenames(x[..], c, b, high);
  }

  lemma AddRotateNamed(x: seq<Word>, y: seq<Word>, a: nat, b: nat, r: bv32)
    requires |x| == |y| == 32 && 0 < r < 32 && a < 16 && b < 16
    requires forall k | 0 <= k < 16 :: y[k] == Rotl(x[k], r)
    requires forall k | 0 <= k < 16 :: y[16 + k] == Add(x[Swap(k, Swap(a, b))], x[16 + k])
    ensures Named(y, a, b) == Rotate(AddIn(Named(x, a, b)), r)
  {
    hide Swap, Add, Rotl;
    forall k | 0 <= k < 16
      ensures Swap(Swap(k, b), Swap(a, b)) == Swap(k, a)
    {
      SwapCancels(k, a, b);
    }
    assert Named(y, a, b).hi == Rotate(AddIn(Named(x, a, b)), r).hi;
    assert Named(y, a, b).lo == Rotate(AddIn(Named(x, a, b)), r).lo;
  }

  lemma XorNamed(x: seq<Word>, y: seq<Word>, a: nat, b: nat)
    requires |x| == |y| == 32 && a < 16 && b < 16
    requires forall k | 0 <= k < 16 :: y[k] == Xor(x[k], x[16 + Swap(k, Swap(a, b))])
    requires forall j | 16 <= j < 32 :: y[j] == x[j]
    ensures Named(y, a, b) == XorIn(Named(x, a, b))
  {
    hide Swap, Xor;
    forall k | 0 <= k < 16
      ensures Swap(Swap(k, a), Swap(a, b)) == Swap(k, b)
    {
      SwapCancels(k, b, a);
      SwapComm(a, b);
    }
    assert Named(y, a, b).lo == XorIn(Named(x, a, b)).lo;
    assert Named(y, a, b).hi == XorIn(Named(x, a, b)).hi;
  }

  lemma SwapCancels(k: nat, a: nat, b: nat)
    requires k < 16 && a < 16 && b < 16
    ensures Swap(Swap(k, b), Swap(a, b)) == Swap(k, a)
  {
    hide Swap;
    SwapComm(a, b);
    SwapTwice(Swap(k, b), b, a);
    SwapTwice(k, b, b);
  }

  lemma {:induction false} FlipComm(a: nat, b: nat, w: nat)
    ensures Flip(a, b, w) == Flip(b, a, w)
  {
    if w > 0 {
      FlipComm(a / 2, b / 2, w - 1);
    }
  }

  lemma SwapComm(a: nat, b: nat)
    ensures Swap(a, b) == Swap(b, a)
  {
    FlipComm(a, b, 4);
  }

  /** ROUND_EVEN: a round that leaves its result under other names. */
  method RoundEven(x: array<Word>)
    requires x.Length == 32
    modifies x
    ensures Named(x[..], 12, 3) == Round(old(Named(x[..], 0, 0)))
  {
    hide Swap, Named, SwapLow, SwapHigh, XorIn, AddIn, Rotate;
    Masks();
    HalfRound(x, 0, 7, 8, 0, 0, 8, 2, 8, 2);
    HalfRound(x, 10, 11, 14, 8, 2, 12, 3, 4, 1);
  }

  /** ROUND_ODD: a round from those names back to the first ones. */
  method RoundOdd(x: array<Word>)
    requires x.Length == 32
    modifies x
    ensures Named(x[..], 0, 0) == Round(old(Named(x[..], 12, 3)))
  {
    hide Swap, Named, SwapLow, SwapHigh, XorIn, AddIn, Rotate;
    Masks();
    HalfRound(x, 15, 7, 7, 12, 3, 4, 1, 8, 2);
    HalfRound(x, 5, 11, 1, 4, 1, 0, 0, 4, 1);
  }

  method SixteenRounds(x: array<Word>)
    requires x.Length == 32
    modifies x
    ensures Named(x[..], 0, 0) == Rounds(old(Named(x[..], 0, 0)), 16)
  {
    hide Named, Round;
    ghost var s := Named(x[..], 0, 0);
    for i := 0 to 8
      invariant Named(x[..], 0, 0) == Rounds(s, 2 * i)
    {
      RoundEven(x);
      RoundOdd(x);
    }
  }

  // ----- blocks -----

  /** The little-endian word at index `i` of a block. */
  function WordOf(block: seq<byte>, i: nat): Word
    requires 4 * i + 4 <= |block|
  {
    (block[4 * i] as bv32) | (block[4 * i + 1] as bv32 << 8) | (block[4 * i + 2] as bv32 << 16)
    | (block[4 * i + 3] as bv32 << 24)
  }

  /** INPUT_BLOCK: a block goes into the first eight words. */
  function XorBlock(s: State, block: seq<byte>): State {
    if |block| != 32 then s else
    s.(lo := seq(16, k requires 0 <= k < 16 => if k < 8 then Xor(s.lo[k], WordOf(block, k)) else s.lo[k]))
  }

  function Step(s: State, block: seq<byte>): State {
    Rounds(XorBlock(s, block), 16)
  }

  /** The one that separates the message from the last rounds goes into word x_11111. */
  function FlipLast(s: State): State {
    s.(hi := s.hi[15 := Xor(s.hi[15], 1)])
  }

  function Padding(ptr: nat, ub: nat, n: nat): (p: seq<byte>)
    requires ptr < 32 && n < 8
  {
    [Marker(ub, n)] + ZeroBytes(31 - ptr)
  }

  /** Sixteen rounds a block, then the flip and ten times sixteen rounds more. */
  function Digest(iv: State, message: seq<byte>, ub: nat, n: nat): State
    requires n < 8
  {
    Rounds(FlipLast(Absorb(Step, 32, iv, message + Padding(|Rest(32, message)|, ub, n))), 160)
  }

  /** Padding is a one bit and the fewest zeros that fill the block. */
  lemma PaddingBits(message: seq<byte>, ub: nat, n: nat)
    requires n < 8
    ensures Bits(message + Padding(|Rest(32, message)|, ub, n))
         == Bits(message) + Extra(ub, n) + [true] + Zeros((-((8 * |message| + n + 1) as int)) % 256)
  {
    hide Marker, ZeroBytes, Rest, Bits, Extra, Zeros;
    var ptr := |Rest(32, message)|;
    FewestZeros(32, message, ub, n, 31 - ptr, [], 8 * |message| + n + 1);
    assert [Marker(ub, n)] + ZeroBytes(31 - ptr) + [] == Padding(ptr, ub, n);
    var z := Bits(message) + Extra(ub, n) + [true] + Zeros((-((8 * |message| + n + 1) as int)) % 256);
    assert z + Bits([]) == z;
  }

  lemma {:induction false} RoundsAdd(s: State, a: nat, b: nat)
    ensures Rounds(Rounds(s, a), b) == Rounds(s, a + b)
  {
    hide Round;
    if b > 0 {
      RoundsAdd(s, a, b - 1);
    }
  }

  method InputBlock(x: array<Word>, block: seq<byte>)
    requires x.Length == 32 && |block| == 32
    modifies x
    ensures Named(x[..], 0, 0) == XorBlock(old(Named(x[..], 0, 0)), block)
  {
    hide Swap, Xor, WordOf;
    forall k | 0 <= k < 16
      ensures Swap(k, 0) == k
    {
      SwapZero(k);
    }
    for k := 0 to 8
      invariant forall j | 0 <= j < 32 :: x[j] == if j < k then Xor(old(x[j]), WordOf(block, j)) else old(x[j])
    {
      x[k] := Xor(x[k], WordOf(block, k));
    }
    ghost var s := XorBlock(old(Named(x[..], 0, 0)), block);
    assert Named(x[..], 0, 0).lo == s.lo;
    assert Named(x[..], 0, 0).hi == s.hi;
  }

  lemma SwapZero(k: nat)
    requires k < 16
    ensures Swap(k, 0) == k
  {
    FlipZero(k, 4);
    Sixteen();
  }

  lemma {:induction false} FlipZero(k: nat, w: nat)
    requires k < Pow2(w)
    ensures Flip(k, 0, w) == k
  {
    if w > 0 {
      FlipZero(k / 2, w - 1);
    }
  }

  ghost predicate Holds(d: Driver<State>, iv: State, message: seq<byte>)
    reads d, d.buf
  {
    d.Valid() && d.lim == 32 && d.step == Step && d.Ctx() == Fed(Step, 32, Context(iv, []), message)
  }

  method Close(d: Driver<State>, ub: nat, n: nat, ghost iv: State, ghost message: seq<byte>) returns (s: State)
    requires Holds(d, iv, message) && n < 8
    modifies d.buf
    ensures s == Digest(iv, message, ub, n)
  {
    hide Marker, Named, Round, XorBlock, FlipLast, Swap, Fed;
    assert d.Ctx() == Context(Absorb(Step, 32, iv, message), Rest(32, message)) by {
      HeldState(iv, message);
    }
    ghost var b := d.buf[..d.ptr] + Padding(d.ptr, ub, n);
    AbsorbInParts(Step, 32, iv, message, Padding(d.ptr, ub, n));
    OneBlock(Step, 32, d.h, b);
    var ptr := d.ptr;
    d.buf[ptr] := Marker(ub, n);
    ptr := ptr + 1;
    forall i | ptr <= i < 32 {
      d.buf[i] := 0;
    }
    assert d.buf[..] == b;
    var x := ToArray(d.h);
    InputBlock(x, d.buf[..]);
    FinalRounds(x);
    s := Named(x[..], 0, 0);
  }

  /** Eleven times sixteen rounds, with the flip after the first sixteen. */
  method FinalRounds(x: array<Word>)
    requires x.Length == 32
    modifies x
    ensures Named(x[..], 0, 0) == Rounds(FlipLast(Rounds(old(Named(x[..], 0, 0)), 16)), 160)
  {
    hide Named, Round, FlipLast;
    ghost var t := Named(x[..], 0, 0);
    for i := 0 to 11
      invariant Named(x[..], 0, 0) == if i == 0 then t else Rounds(FlipLast(Rounds(t, 16)), 16 * (i - 1))
    {
      SixteenRounds(x);
      if i == 0 {
        FlipArray(x);
      } else {
        RoundsAdd(FlipLast(Rounds(t, 16)), 16 * (i - 1), 16);
      }
    }
  }

  lemma HeldState(iv: State, message: seq<byte>)
    ensures Fed(Step, 32, Context(iv, []), message) == Context(Absorb(Step, 32, iv, message), Rest(32, message))
  {
    assert [] + message == message;
  }

  /** READ_STATE. */
  method ToArray(s: State) returns (x: array<Word>)
    ensures fresh(x) && x.Length == 32 && Named(x[..], 0, 0) == s
  {
    hide Swap;
    forall k | 0 <= k < 16
      ensures Swap(k, 0) == k
    {
      SwapZero(k);
    }
    x := new Word[32](i requires 0 <= i < 32 => if i < 16 then s.lo[i] else s.hi[i - 16]);
    assert Named(x[..], 0, 0).lo == s.lo;
    assert Named(x[..], 0, 0).hi == s.hi;
  }

  method FlipArray(x: array<Word>)
    requires x.Length == 32
    modifies x
    ensures Named(x[..], 0, 0) == FlipLast(old(Named(x[..], 0, 0)))
  {
    hide Swap, Xor;
    forall k | 0 <= k < 16
      ensures Swap(k, 0) == k
    {
      SwapZero(k);
    }
    ghost var s := FlipLast(Named(x[..], 0, 0));
    x[31] := Xor(x[31], 1);
    assert Named(x[..], 0, 0).lo == s.lo;
    assert Named(x[..], 0, 0).hi == s.hi;
  }
}
