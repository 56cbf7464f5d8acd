/** The padding that BLAKE, ECHO, Groestl, JH, BMW and CubeHash share: a one bit, zeros, then fixed fields. */
module HashPadding {
  import opened BitNumbers
  import opened Blocks

  /** The bits of a byte string, each byte most significant bit first. */
  function Bits(s: seq<byte>): (b: seq<bool>)
    ensures |b| == 8 * |s|
  {
    seq(8 * |s|, j requires 0 <= j < 8 * |s| => Bit(s[j / 8], 7 - j % 8))
  }

  function Zeros(n: nat): seq<bool> {
    seq(n, _ => false)
  }

  function ZeroBytes(n: nat): (z: seq<byte>)
    ensures |z| == n
  {
    seq(n, _ => 0)
  }

  /** The message bits past the last whole byte: the top `n` bits of `ub`. */
  function Extra(ub: nat, n: nat): (b: seq<bool>)
    requires n < 8
    ensures |b| == n
  {
    seq(n, k requires 0 <= k < n => Bit(ub, 7 - k))
  }

  /** ((ub & -z) | z) & 0xFF for z = 0x80 >> n. */
  function Marker(ub: nat, n: nat): (m: byte)
    requires n < 8
  {
    Powers();
    Low(SetBit(ClearLow(ub, 7 - n), 7 - n), 8)
  }

  lemma MarkerBit(ub: nat, n: nat, k: nat)
    requires n < 8 && k < 8
    ensures Bit(Marker(ub, n), 7 - k) == (k == n || (k < n && Extra(ub, n)[k]))
  {
    var z := 7 - n;
    LowBit(SetBit(ClearLow(ub, z), z), 8, 7 - k);
    SetBitBit(ClearLow(ub, z), z, 7 - k);
    ClearLowBit(ub, z, 7 - k);
  }

  lemma MarkerBits(ub: nat, n: nat)
    requires n < 8
    ensures Bits([Marker(ub, n)]) == Extra(ub, n) + [true] + Zeros(7 - n)
  {
    hide Marker, Extra, Bit;
    forall j | 0 <= j < 8
      ensures Bits([Marker(ub, n)])[j] == (Extra(ub, n) + [true] + Zeros(7 - n))[j]
    {
      MarkerBit(ub, n, j);
    }
  }

  lemma BitsJoin(a: seq<byte>, b: seq<byte>)
    ensures Bits(a + b) == Bits(a) + Bits(b)
  {
    hide Bit;
    forall j | 0 <= j < 8 * |a + b|
      ensures Bits(a + b)[j] == (Bits(a) + Bits(b))[j]
    {
      if j >= 8 * |a| {
        assert (j - 8 * |a|) / 8 == j / 8 - |a| && (j - 8 * |a|) % 8 == j % 8;
      }
    }
  }

  lemma ZeroByteBits(k: nat)
    ensures Bits(ZeroBytes(k)) == Zeros(8 * k)
  {
    hide Bit;
    forall j | 0 <= j < 8 * k
      ensures Bits(ZeroBytes(k))[j] == false
    {
      ZeroBit(7 - j % 8);
    }
  }

  /** Marker byte, `k` zero bytes and fields after a message, read as bits. */
  lemma PaddedBits(message: seq<byte>, ub: nat, n: nat, k: nat, fields: seq<byte>)
    requires n < 8
    ensures Bits(message + [Marker(ub, n)] + ZeroBytes(k) + fields)
         == Bits(message) + Extra(ub, n) + [true] + Zeros(7 - n + 8 * k) + Bits(fields)
  {
    hide Bits, Extra, Marker, ZeroBytes;
    BitsJoin(message, [Marker(ub, n)]);
    BitsJoin(message + [Marker(ub, n)], ZeroBytes(k));
    BitsJoin(message + [Marker(ub, n)] + ZeroBytes(k), fields);
    MarkerBits(ub, n);
    ZeroByteBits(k);
    assert Zeros(7 - n) + Zeros(8 * k) == Zeros(7 - n + 8 * k);
    var m, e, f := Bits(message), Extra(ub, n), Bits(fields);
    assert m + (e + [true] + Zeros(7 - n)) + Zeros(8 * k) + f
        == m + e + [true] + (Zeros(7 - n) + Zeros(8 * k)) + f;
  }

  // ----- length fields -----

  function BigEndian(v: nat, m: nat): (b: seq<byte>)
    ensures |b| == m
  {
    if m == 0 then [] else BigEndian(v / 0x100, m - 1) + [v % 0x100]
  }

  function LittleEndian(v: nat, m: nat): (b: seq<byte>)
    ensures |b| == m
  {
    if m == 0 then [] else [v % 0x100] + LittleEndian(v / 0x100, m - 1)
  }

  function Pow256(m: nat): (p: nat)
    ensures 0 < p
  {
    if m == 0 then 1 else 0x100 * Pow256(m - 1)
  }

  /** The value of a byte string, most significant byte first. */
  function Value(b: seq<byte>): nat {
    if b == [] then 0 else 0x100 * Value(b[..|b| - 1]) + b[|b| - 1]
  }

  /** The value of a byte string, least significant byte first. */
  function ValueLittle(b: seq<byte>): nat {
    if b == [] then 0 else b[0] + 0x100 * ValueLittle(b[1..])
  }

  lemma {:induction false} BigEndianValue(v: nat, m: nat)
    requires v < Pow256(m)
    ensures Value(BigEndian(v, m)) == v
    decreases m
  {
    if m > 0 {
      BigEndianValue(v / 0x100, m - 1);
      assert BigEndian(v, m)[..m - 1] == BigEndian(v / 0x100, m - 1);
    }
  }

  lemma {:induction false} LittleEndianValue(v: nat, m: nat)
    requires v < Pow256(m)
    ensures ValueLittle(LittleEndian(v, m)) == v
    decreases m
  {
    if m > 0 {
      LittleEndianValue(v / 0x100, m - 1);
      assert LittleEndian(v, m)[1..] == LittleEndian(v / 0x100, m - 1);
    }
  }

  /** Two words side by side are the field of twice the width. */
  lemma {:induction false} WordsJoin(hi: nat, lo: nat, a: nat, b: nat)
    requires lo < Pow256(b)
    ensures BigEndian(hi, a) + BigEndian(lo, b) == BigEndian(hi * Pow256(b) + lo, a + b)
    decreases b
  {
    if b > 0 {
      var p := Pow256(b - 1);
      var v := hi * Pow256(b) + lo;
      assert hi * Pow256(b) == 0x100 * (hi * p);
      assert v / 0x100 == hi * p + lo / 0x100 && v % 0x100 == lo % 0x100;
      WordsJoin(hi, lo / 0x100, a, b - 1);
      assert BigEndian(hi, a) + BigEndian(lo, b) == (BigEndian(hi, a) + BigEndian(lo / 0x100, b - 1)) + [lo % 0x100];
    } else {
      assert BigEndian(hi, a) + [] == BigEndian(hi, a);
    }
  }

  lemma {:induction false} WordsJoinLittle(hi: nat, lo: nat, a: nat, b: nat)
    requires lo < Pow256(a)
    ensures LittleEndian(lo, a) + LittleEndian(hi, b) == LittleEndian(hi * Pow256(a) + lo, a + b)
    decreases a
  {
    if a > 0 {
      var p := Pow256(a - 1);
      var v := hi * Pow256(a) + lo;
      assert hi * Pow256(a) == 0x100 * (hi * p);
      assert v / 0x100 == hi * p + lo / 0x100 && v % 0x100 == lo % 0x100;
      WordsJoinLittle(hi, lo / 0x100, a - 1, b);
      assert LittleEndian(lo, a) + LittleEndian(hi, b)
        == [lo % 0x100] + (LittleEndian(lo / 0x100, a - 1) + LittleEndian(hi, b));
    } else {
      assert [] + LittleEndian(hi, b) == LittleEndian(hi, b);
    }
  }

  /** The zeros that fill the last block: as many as the standard asks for, and never a whole block. */
  lemma ZeroCount(block: nat, q: nat, ptr: nat, n: nat, field: nat, z: nat, total: nat)
    requires 0 < block && z < block
    requires 8 * ptr + n + 1 + z + field in {block, 2 * block}
    requires total == block * q + 8 * ptr + n + 1 + field
    ensures (-(total as int)) % block == z
  {
    var v := -(total as int);
    if 8 * ptr + n + 1 + z + field == block {
      assert (-(q as int) - 1) * block == -(block * q) - block;
      EuclideanUnique(v, block, -(q as int) - 1, z);
    } else {
      assert (-(q as int) - 2) * block == -(block * q) - 2 * block;
      EuclideanUnique(v, block, -(q as int) - 2, z);
    }
  }

  /** Padding that ends on a block boundary with less than a block of zeros has the fewest zeros that fit. */
  lemma FewestZeros(lim: nat, message: seq<byte>, ub: nat, n: nat, k: nat, fields: seq<byte>, total: nat)
    requires total == 8 * |message| + n + 1 + 8 * |fields|
    requires 0 < lim && n < 8 && 7 - n + 8 * k < 8 * lim
    requires |Rest(lim, message)| + 1 + k + |fields| in {lim, 2 * lim}
    ensures Bits(message + ([Marker(ub, n)] + ZeroBytes(k) + fields))
         == Bits(message) + Extra(ub, n) + [true]
            + Zeros((-(total as int)) % (8 * lim)) + Bits(fields)
  {
    hide *;
    var ptr := |Rest(lim, message)|;
    var q := WholeBlocks(lim, message);
    ZeroCount(8 * lim, q, ptr, n, 8 * |fields|, 7 - n + 8 * k, total);
    PaddedBits(message, ub, n, k, fields);
    assert message + ([Marker(ub, n)] + ZeroBytes(k) + fields) == message + [Marker(ub, n)] + ZeroBytes(k) + fields;
  }

  lemma WholeBlocks(lim: nat, message: seq<byte>) returns (q: nat)
    requires 0 < lim
    ensures q == |message| / lim
    ensures |message| == lim * q + |Rest(lim, message)|
    ensures 8 * |message| == 8 * lim * q + 8 * |Rest(lim, message)|
  {
    hide Rest;
    RestIsTail(lim, message);
    q := |message| / lim;
    assert 8 * lim * q == 8 * (lim * q);
  }

  // ----- the counter of BLAKE and ECHO -----

  /** The number of message bits in blocks 0 to i, or 0 when block i holds none. */
  function BitsThrough(block: nat, i: nat, length: nat): nat {
    if block * i >= length then 0
    else if block * (i + 1) <= length then block * (i + 1)
    else length
  }
}
