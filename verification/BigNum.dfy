/** CBigNum as an integer: OpenSSL's MPI bytes, the byte vectors of setvch and getvch, and the compact form. */
module BigNum {
  import opened BitNumbers
  import opened Positional

  // ----- MPI: big-endian magnitude with a sign bit on top; the length header is the sequence's length -----

  function Magnitude(v: int): nat { if v < 0 then -v else v }

  /** A magnitude with room for the sign bit. */
  function Padded(m: Digits): (p: Digits)
    requires Below(256, m)
    ensures Below(256, p) && (p != [] ==> p[0] < 128)
  {
    if m != [] && m[0] >= 128 then [0] + m else m
  }

  /** BN_bn2mpi. */
  function ToMpi(v: int): (p: seq<byte>)
    ensures p == [] <==> v == 0
  {
    var m := Padded(DigitsOf(256, Magnitude(v)));
    if v < 0 then m[0 := m[0] + 128] else m
  }

  /** BN_mpi2bn. */
  function FromMpi(p: seq<byte>): int {
    if p == [] then 0
    else if p[0] >= 128 then -(Number(256, p[0 := p[0] - 128]) as int)
    else Number(256, p)
  }

  /** No byte could be dropped from the front. */
  predicate Minimal(p: seq<byte>) {
    p != [] && p[0] in {0, 128} ==> |p| > 1 && p[1] >= 128
  }

  lemma PaddedNumber(m: Digits)
    requires Below(256, m)
    ensures Number(256, Padded(m)) == Number(256, m)
  {
    if m != [] && m[0] >= 128 {
      LeadingZeros(256, 1, m);
      assert Zeros(1) + m == [0] + m;
    }
  }

  lemma MpiRoundTrip(v: int)
    ensures FromMpi(ToMpi(v)) == v && Minimal(ToMpi(v))
  {
    hide Number, DigitsOf;
    var m := DigitsOf(256, Magnitude(v));
    NumberOfDigits(256, Magnitude(v));
    PaddedNumber(m);
    var p := Padded(m);
    if v < 0 {
      assert p[0 := p[0] + 128][0 := p[0]] == p;
    }
  }

  lemma PaddedDigits(q: Digits)
    requires q != [] && Below(256, q) && q[0] < 128
    requires q[0] == 0 ==> |q| > 1 && q[1] >= 128
    ensures Padded(DigitsOf(256, Number(256, q))) == q && Number(256, q) > 0
  {
    hide DigitsOf, Number;
    if q[0] == 0 {
      assert q == Zeros(1) + q[1..];
      LeadingZeros(256, 1, q[1..]);
      DigitsOfNumber(256, q[1..]);
    } else {
      DigitsOfNumber(256, q);
    }
  }

  lemma MinimalBack(p: seq<byte>)
    requires p != [] && Minimal(p)
    ensures ToMpi(FromMpi(p)) == p
  {
    if p[0] >= 128 {
      var q: Digits := p[0 := p[0] - 128];
      MinimalDigits(q, p);
      assert q[0 := q[0] + 128] == p;
    } else {
      MinimalDigits(p, p);
    }
  }

  lemma MinimalDigits(q: Digits, p: seq<byte>)
    requires p != [] && Minimal(p) && q == p[0 := if p[0] >= 128 then p[0] - 128 else p[0]]
    ensures Below(256, q) && Padded(DigitsOf(256, Number(256, q))) == q && Number(256, q) > 0
  {
    assert Below(256, q);
    hide DigitsOf, Number, Below;
    PaddedDigits(q);
  }

  /** A byte string survives the number and back exactly when it is minimal. */
  lemma MpiCanonical(p: seq<byte>)
    ensures ToMpi(FromMpi(p)) == p <==> Minimal(p)
  {
    if p == [] {
      assert ToMpi(0) == [];
    } else {
      hide ToMpi, FromMpi, Minimal;
      if Minimal(p) {
        MinimalBack(p);
      } else {
        MpiRoundTrip(FromMpi(p));
      }
    }
  }

  function Reversed(s: seq<byte>): (r: seq<byte>)
    ensures |r| == |s|
  {
    seq(|s|, i requires 0 <= i < |s| => s[|s| - 1 - i])
  }

  /** setvch: little-endian bytes, the sign bit in the last. */
  function SetVch(vch: seq<byte>): int {
    FromMpi(Reversed(vch))
  }

  function GetVch(v: int): seq<byte> {
    Reversed(ToMpi(v))
  }

  lemma VchRoundTrip(v: int)
    ensures SetVch(GetVch(v)) == v
  {
    hide ToMpi;
    assert Reversed(Reversed(ToMpi(v))) == ToMpi(v);
    MpiRoundTrip(v);
  }

  lemma VchCanonical(vch: seq<byte>)
    ensures GetVch(SetVch(vch)) == vch <==> Minimal(Reversed(vch))
  {
    hide ToMpi, FromMpi, Minimal;
    assert Reversed(Reversed(vch)) == vch;
    MpiCanonical(Reversed(vch));
    if Reversed(ToMpi(SetVch(vch))) == vch {
      assert ToMpi(SetVch(vch)) == Reversed(vch);
    }
  }

  // ----- the compact form: a size byte and the three leading bytes -----

  type Compact = c: int | 0 <= c < 0x1_0000_0000 witness 0

  function CompactMpi(c: Compact): (p: seq<byte>)
    ensures |p| == c / 0x100_0000
  {
    seq(c / 0x100_0000, i =>
      if i == 0 then c / 0x1_0000 % 0x100 else if i == 1 then c / 0x100 % 0x100 else if i == 2 then c % 0x100 else 0)
  }

  function SetCompact(c: Compact): int {
    FromMpi(CompactMpi(c))
  }

  /** The magnitude of a compact number: the low 23 bits times 256 to the size less three, cut off when the size is
      less. */
  function CompactMagnitude(c: Compact): nat {
    var size, mantissa := c / 0x100_0000, c % 0x80_0000;
    match size
    case 0 => 0
    case 1 => mantissa / 0x1_0000
    case 2 => mantissa / 0x100
    case _ => mantissa * Power(256, size - 3)
  }

  /** The fields of a compact word: size, sign, and the mantissa in bytes. */
  lemma Fields(c: Compact) returns (n: nat, s: nat, x: nat, y: nat, z: nat)
    ensures s < 2 && x < 128 && y < 256 && z < 256
    ensures c == n * 0x100_0000 + s * 0x80_0000 + x * 0x1_0000 + y * 0x100 + z
    ensures c / 0x100_0000 == n && c / 0x80_0000 % 2 == s && c % 0x80_0000 == x * 0x1_0000 + y * 0x100 + z
    ensures c / 0x1_0000 % 0x100 == s * 128 + x && c / 0x100 % 0x100 == y && c % 0x100 == z
  {
    z := c % 0x100;
    var c1: nat := c / 0x100;
    y := c1 % 0x100;
    var c2: nat := c1 / 0x100;
    x := c2 % 128;
    var c3: nat := c2 / 128;
    s := c3 % 2;
    n := c3 / 2;
    assert c == 0x100 * c1 + z && c1 == 0x100 * c2 + y && c2 == 128 * c3 + x && c3 == 2 * n + s;
    QuotientIs(c, 0x1_0000, c2, y * 0x100 + z);
    QuotientIs(c, 0x80_0000, c3, x * 0x1_0000 + y * 0x100 + z);
    QuotientIs(c, 0x100_0000, n, s * 0x80_0000 + x * 0x1_0000 + y * 0x100 + z);
    QuotientIs(c2, 0x100, n, s * 128 + x);
  }

  lemma LeadingBytes(c: Compact)
    ensures var p, s := CompactMpi(c), c / 0x80_0000 % 2;
      p != [] ==>
        && (p[0] >= 128 <==> s == 1)
        && (if s == 1 then p[0] - 128 else p[0]) == c % 0x80_0000 / 0x1_0000
  {
    var n, s, x, y, z := Fields(c);
    QuotientIs(c % 0x80_0000, 0x1_0000, x, y * 0x100 + z);
  }

  lemma NumberOfThree(a: nat, b: nat, c: nat)
    ensures Number(256, [a]) == a && Number(256, [a, b]) == 256 * a + b
    ensures Number(256, [a, b, c]) == 65536 * a + 256 * b + c
  {
    assert [a][..0] == [] && [a, b][..1] == [a] && [a, b, c][..2] == [a, b];
  }

  /** The bytes behind the sign bit. */
  function Unsigned(p: seq<byte>): (q: seq<byte>)
    ensures |q| == |p|
  {
    if p != [] && p[0] >= 128 then p[0 := p[0] - 128] else p
  }

  lemma FromBytes(p: seq<byte>)
    ensures FromMpi(p) ==
      if p != [] && p[0] >= 128 then -(Number(256, Unsigned(p)) as int) else Number(256, Unsigned(p))
  {
  }

  lemma Mantissa(c: Compact)
    ensures var m := c % 0x80_0000;
      m == 65536 * (m / 0x1_0000) + 256 * (c / 0x100 % 0x100) + c % 0x100
      && m / 0x100 == 256 * (m / 0x1_0000) + c / 0x100 % 0x100
  {
    var n, s, x, y, z := Fields(c);
    QuotientIs(c % 0x80_0000, 0x1_0000, x, y * 0x100 + z);
    QuotientIs(c % 0x80_0000, 0x100, x * 0x100 + y, z);
  }

  lemma UnsignedCompact(c: Compact)
    requires c / 0x100_0000 > 0
    ensures var x, y, z := c % 0x80_0000 / 0x1_0000, c / 0x100 % 0x100, c % 0x100;
      var size := c / 0x100_0000;
      x < 128
      && Unsigned(CompactMpi(c)) == if size == 1 then [x] else if size == 2 then [x, y] else [x, y, z] + Zeros(size - 3)
  {
    LeadingBytes(c);
  }

  lemma CompactNumber(c: Compact)
    ensures Number(256, Unsigned(CompactMpi(c))) == CompactMagnitude(c)
  {
    var size := c / 0x100_0000;
    if size == 0 {
      assert CompactMpi(c) == [];
    } else {
      var x, y, z := c % 0x80_0000 / 0x1_0000, c / 0x100 % 0x100, c % 0x100;
      UnsignedCompact(c);
      Mantissa(c);
      NumberOfThree(x, y, z);
      hide Number, Power, CompactMpi, Unsigned;
      if size >= 3 {
        NumberSplit(256, [x, y, z], Zeros(size - 3));
        NumberOfZeros(256, size - 3);
      }
    }
  }

  /** SetCompact gives the mantissa times a power of 256, negative when bit 23 is set. */
  lemma CompactValue(c: Compact)
    ensures SetCompact(c) == if c / 0x80_0000 % 2 == 1 then -(CompactMagnitude(c) as int) else CompactMagnitude(c)
  {
    FromBytes(CompactMpi(c));
    LeadingBytes(c);
    CompactNumber(c);
    hide FromMpi, Number, Unsigned;
    assert CompactMpi(c) == [] ==> CompactMagnitude(c) == 0;
  }

  function ByteAt(p: seq<byte>, i: nat): byte {
    if i < |p| then p[i] else 0
  }

  /** The size is shifted into a 32-bit word, so its bits above the eighth are lost. */
  function GetCompact(v: int): Compact {
    var p := ToMpi(v);
    |p| % 0x100 * 0x100_0000 + ByteAt(p, 0) * 0x1_0000 + ByteAt(p, 1) * 0x100 + ByteAt(p, 2)
  }

  /** The bytes that survive the compact form. */
  function Kept(p: seq<byte>): (q: seq<byte>)
    ensures |q| == |p|
  {
    seq(|p|, i requires 0 <= i < |p| => if i < 3 then p[i] else 0)
  }

  lemma CompactKeeps(v: int)
    requires |ToMpi(v)| < 256
    ensures CompactMpi(GetCompact(v)) == Kept(ToMpi(v))
  {
    hide ToMpi;
    var p := ToMpi(v);
    PackedBytes(|p|, ByteAt(p, 0), ByteAt(p, 1), ByteAt(p, 2));
  }

  lemma PackedBytes(n: nat, a: byte, b: byte, c: byte)
    requires n < 256
    ensures var w := n * 0x100_0000 + a * 0x1_0000 + b * 0x100 + c;
      w / 0x100_0000 == n && w / 0x1_0000 % 0x100 == a && w / 0x100 % 0x100 == b && w % 0x100 == c
  {
    var w := n * 0x100_0000 + a * 0x1_0000 + b * 0x100 + c;
    var x: nat := n * 0x100 + a as int;
    var y: nat := x * 0x100 + b as int;
    QuotientIs(w, 0x100_0000, n, a * 0x1_0000 + b * 0x100 + c);
    QuotientIs(w, 0x1_0000, x, b * 0x100 + c);
    QuotientIs(w, 0x100, y, c);
    QuotientIs(x, 0x100, n, a);
    QuotientIs(y, 0x100, x, b);
  }

  lemma KeptMinimal(p: seq<byte>)
    requires Minimal(p)
    ensures Minimal(Kept(p))
  {
  }

  lemma TopThree(p: seq<byte>)
    requires |p| == 3 && Minimal(p) && p[0] < 128
    ensures Number(256, p) >= 0x8000
  {
    var a: int, b: int, c: int := p[0], p[1], p[2];
    assert p[..2][..1] == [p[0]] && [p[0]][..0] == [];
    assert Number(256, [p[0]]) == a;
    assert Number(256, p[..2]) == a * 256 + b;
    assert Number(256, p) == (a * 256 + b) * 256 + c;
  }

  lemma CutOff(p: seq<byte>)
    requires 3 < |p| && Minimal(p) && p[0] < 128
    ensures var v, w := Number(256, p), Number(256, Kept(p));
      w <= v && (v - w) * 0x8000 < v
  {
    hide Number;
    var k := |p| - 3;
    var top, low := p[..3], p[3..];
    assert p == top + low;
    assert Kept(p) == top + Zeros(k);
    NumberSplit(256, top, low);
    NumberSplit(256, top, Zeros(k));
    NumberOfZeros(256, k);
    NumberBound(256, low);
    TopThree(top);
    hide Power;
    ErrorBound(Number(256, top), Power(256, k), Number(256, low));
  }

  lemma ErrorBound(t: nat, q: nat, low: nat)
    requires 0x8000 <= t && low < q
    ensures low * 0x8000 < t * q + low
  {
    assert t * q == 0x8000 * q + (t - 0x8000) * q;
    assert 0 <= (t - 0x8000) * q;
  }

  lemma ShortKept(p: seq<byte>)
    requires |p| <= 3
    ensures Kept(p) == p
  {
  }

  /** The compact form never exceeds the number, is less than one part in 2^15 below it, and is stable. */
  lemma CompactError(v: int)
    requires 0 <= v && |ToMpi(v)| < 256
    ensures var w := SetCompact(GetCompact(v));
      0 <= w <= v && (0 < v ==> (v - w) * 0x8000 < v) && GetCompact(w) == GetCompact(v)
  {
    var p := ToMpi(v);
    MpiRoundTrip(v);
    CompactKeeps(v);
    KeptMinimal(p);
    MpiCanonical(Kept(p));
    assert p != [] ==> p[0] < 128;
    hide ToMpi, Number, Minimal;
    if |p| <= 3 {
      ShortKept(p);
    } else {
      CutOff(p);
    }
    assert forall i | 0 <= i < 3 :: ByteAt(Kept(p), i) == ByteAt(p, i);
  }

  // ----- 64-bit integers -----

  const WORD: nat := 0x1_0000_0000_0000_0000

  function Signed(m: Digits, negative: bool): (p: seq<byte>)
    requires Below(256, m)
  {
    var q := Padded(m);
    if negative && q != [] then q[0 := q[0] + 128] else q
  }

  /** The state of the shifting loop: `hi` has been read off the top of `n` and `lo` is still in the word. */
  predicate Shifted(n: nat, i: nat, hi: nat, word: nat)
    requires i <= 8
  {
    exists lo: nat :: n == hi * Power(256, 8 - i) + lo && lo < Power(256, 8 - i) && word == lo * Power(256, i)
  }

  lemma PowerValues()
    ensures Power(256, 0) == 1 && Power(256, 1) == 0x100 && Power(256, 2) == 0x1_0000 && Power(256, 3) == 0x100_0000
    ensures Power(256, 4) == 0x1_0000_0000 && Power(256, 5) == 0x100_0000_0000 && Power(256, 6) == 0x1_0000_0000_0000
    ensures Power(256, 7) == 0x100_0000_0000_0000 && Power(256, 8) == WORD
  {
    assert Power(256, 2) == 0x1_0000;
    assert Power(256, 4) == 0x1_0000_0000;
    assert Power(256, 6) == 0x1_0000_0000_0000;
  }

  lemma Powers256(i: nat)
    requires i < 8
    ensures Power(256, i) * Power(256, 7 - i) == 0x100_0000_0000_0000
    ensures Power(256, i + 1) == 256 * Power(256, i) && Power(256, 8 - i) == 256 * Power(256, 7 - i)
  {
    PowerValues();
    hide Power;
    match i {
      case 0 => case 1 => case 2 => case 3 => case 4 => case 5 => case 6 => case 7 =>
    }
  }

  lemma ShiftArithmetic(lo: nat, c: nat, rest: nat, a: nat, b: nat)
    requires 0 < a && a * b == 0x100_0000_0000_0000 && lo == c * b + rest && rest < b && lo < 256 * b
    ensures c < 256 && lo * a / 0x100_0000_0000_0000 == c && lo * a * 256 % WORD == rest * (256 * a)
  {
    assert c < 256 by {
      assert (c - 256) * b == c * b - 256 * b;
      if c > 256 { Times(c - 256, b); }
    }
    assert lo * a == c * (a * b) + rest * a by { Distribute(b, c, rest, a); assert b * (a * c) == c * (a * b); }
    assert rest * a < a * b by {
      assert a * b == rest * a + (b - rest) * a;
      Times(b - rest, a);
    }
    QuotientIs(lo * a, 0x100_0000_0000_0000, c, rest * a);
    QuotientIs(lo * a * 256, WORD, c, rest * a * 256);
    assert rest * a * 256 == rest * (256 * a);
  }

  lemma IsShifted(n: nat, i: nat, hi: nat, word: nat, lo: nat)
    requires i <= 8 && n == hi * Power(256, 8 - i) + lo && lo < Power(256, 8 - i) && word == lo * Power(256, i)
    ensures Shifted(n, i, hi, word)
  {
  }

  lemma LowPart(n: nat, i: nat, hi: nat, word: nat) returns (lo: nat)
    requires i <= 8 && Shifted(n, i, hi, word)
    ensures n == hi * Power(256, 8 - i) + lo && lo < Power(256, 8 - i) && word == lo * Power(256, i)
  {
    lo :| n == hi * Power(256, 8 - i) + lo && lo < Power(256, 8 - i) && word == lo * Power(256, i);
  }

  lemma Regroup(hi: nat, b: nat, c: nat, rest: nat)
    ensures hi * (256 * b) + (c * b + rest) == (hi * 256 + c) * b + rest
  {
    assert hi * (256 * b) == (hi * 256) * b;
    assert (hi * 256 + c) * b == (hi * 256) * b + c * b;
  }

  lemma ShiftStep(n: nat, i: nat, hi: nat, word: nat)
    requires i < 8 && Shifted(n, i, hi, word)
    ensures var c := word / 0x100_0000_0000_0000;
      c < 256 && Shifted(n, i + 1, hi * 256 + c, word * 256 % WORD)
  {
    hide Power, Shifted;
    var lo := LowPart(n, i, hi, word);
    Powers256(i);
    PowerPositive(256, i);
    PowerPositive(256, 7 - i);
    var a, b := Power(256, i), Power(256, 7 - i);
    var c, rest := Divided(lo, b);
    ShiftArithmetic(lo, c, rest, a, b);
    Regroup(hi, b, c, rest);
    IsShifted(n, i + 1, hi * 256 + c, rest * (256 * a), rest);
  }

  /** The MPI bytes that setint64 and setuint64 build, top byte first. */
  method WordMpi(n: nat, negative: bool) returns (p: seq<byte>)
    requires n < WORD
    ensures p == Signed(DigitsOf(256, n), negative)
  {
    hide DigitsOf, Padded, Signed, Shifted;
    p := [];
    var word: nat := n;
    var leadingZeroes := true;
    ghost var hi: nat := 0;
    assert Shifted(n, 0, 0, n) && Signed(DigitsOf(256, 0), negative) == [] by { ShiftStart(n, negative); }
    for i := 0 to 8
      invariant Shifted(n, i, hi, word)
      invariant leadingZeroes == (hi == 0)
      invariant p == Signed(DigitsOf(256, hi), negative)
    {
      ShiftStep(n, i, hi, word);
      var c := word / 0x100_0000_0000_0000;
      word := word * 256 % WORD;
      NextByte(hi, c, negative);
      hi := hi * 256 + c;
      if leadingZeroes {
        if c == 0 {
          continue;
        }
        if c >= 128 {
          p := p + [if negative then 128 else 0];
        } else if negative {
          c := c + 128;
        }
        leadingZeroes := false;
      }
      p := p + [c];
    }
    assert hi == n by { ShiftEnd(n, hi, word); }
  }

  lemma ShiftStart(n: nat, negative: bool)
    requires n < WORD
    ensures Shifted(n, 0, 0, n) && Signed(DigitsOf(256, 0), negative) == []
  {
    PowerValues();
    assert n == 0 * Power(256, 8) + n && n < Power(256, 8) && n == n * Power(256, 0);
  }

  lemma ShiftEnd(n: nat, hi: nat, word: nat)
    requires Shifted(n, 8, hi, word)
    ensures hi == n
  {
  }

  lemma SignedMore(m: Digits, c: nat, negative: bool)
    requires Below(256, m) && m != [] && c < 256
    ensures Below(256, m + [c]) && Signed(m + [c], negative) == Signed(m, negative) + [c]
  {
    assert Padded(m + [c]) == Padded(m) + [c];
  }

  lemma SignedByte(c: nat, negative: bool)
    requires 0 < c < 256
    ensures Signed([c], negative) ==
      if c >= 128 then [if negative then 128 else 0, c] else if negative then [c + 128] else [c]
  {
  }

  lemma NextByte(hi: nat, c: nat, negative: bool)
    requires c < 256
    ensures var p := Signed(DigitsOf(256, hi), negative);
      Signed(DigitsOf(256, hi * 256 + c), negative) ==
        if hi != 0 then p + [c]
        else if c == 0 then []
        else if c >= 128 then [if negative then 128 else 0, c]
        else if negative then [c + 128] else [c]
  {
    hide DigitsOf;
    if hi > 0 {
      hide Signed;
      DigitsStep(256, hi, c);
      SignedMore(DigitsOf(256, hi), c, negative);
    } else if c > 0 {
      hide Signed;
      DigitsStep(256, 0, c);
      assert DigitsOf(256, 0) + [c] == [c];
      SignedByte(c, negative);
    }
  }

  /** setint64. */
  method SetInt64(sn: int) returns (v: int)
    requires -0x8000_0000_0000_0000 <= sn < 0x8000_0000_0000_0000
    ensures v == sn
  {
    var n := if sn < 0 then -(sn + 1) + 1 else sn;
    var p := WordMpi(n, sn < 0);
    assert p == ToMpi(sn);
    MpiRoundTrip(sn);
    v := FromMpi(p);
  }

  /** setuint64. */
  method SetUint64(n: nat) returns (v: int)
    requires n < WORD
    ensures v == n
  {
    var p := WordMpi(n, false);
    assert p == ToMpi(n);
    MpiRoundTrip(n);
    v := FromMpi(p);
  }

  /** getuint64: the last eight bytes of the MPI without its sign, which are the magnitude modulo 2^64. */
  method GetUint64(v: int) returns (n: nat)
    ensures n == Magnitude(v) % WORD
  {
    var p := ToMpi(v);
    if p == [] {
      assert v == 0;
      return 0;
    }
    SignCleared(v);
    hide ToMpi, Number, Below;
    n := LastBytes(if p[0] >= 128 then p[0 := p[0] - 128] else p);
  }

  /** The value of the last eight bytes, from the end. */
  method LastBytes(q: Digits) returns (n: nat)
    requires Below(256, q)
    ensures n == Number(256, q) % WORD
  {
    hide Number, Power, Below;
    n := 0;
    var i := 0;
    var weight := 1;
    var j: nat := |q|;
    assert Number(256, q[|q|..]) == 0 && Power(256, 0) == 1 by { EmptyNumber(); assert q[|q|..] == []; }
    while i < 8 && j > 0
      invariant 0 <= i <= 8 && j == |q| - i && weight == Power(256, i)
      invariant n == Number(256, q[j..])
    {
      j := j - 1;
      NextWeight(q, j, i);
      n := n + q[j] * weight;
      weight := weight * 256;
      i := i + 1;
    }
    LastEight(q, j, n);
  }

  lemma EmptyNumber()
    ensures Number(256, []) == 0 && Power(256, 0) == 1
  {
  }

  lemma NextWeight(q: Digits, j: nat, i: nat)
    requires j < |q| && i == |q| - j - 1
    ensures Number(256, q[j..]) == Number(256, q[j + 1..]) + q[j] * Power(256, i)
    ensures Power(256, i + 1) == Power(256, i) * 256
  {
    assert q[j..] == [q[j]] + q[j + 1..];
    NumberSplit(256, [q[j]], q[j + 1..]);
    assert [q[j]][..0] == [];
    assert Number(256, [q[j]]) == q[j];
  }

  lemma SignCleared(v: int)
    requires v != 0
    ensures var p := ToMpi(v);
      var q: Digits := if p[0] >= 128 then p[0 := p[0] - 128] else p;
      Below(256, q) && Number(256, q) == Magnitude(v)
  {
    var m := DigitsOf(256, Magnitude(v));
    NumberOfDigits(256, Magnitude(v));
    PaddedNumber(m);
    hide Number, DigitsOf;
    var m' := Padded(m);
    hide Padded;
    if v < 0 {
      assert m'[0 := m'[0] + 128][0 := m'[0]] == m';
    }
  }

  lemma LastEight(q: Digits, j: nat, n: nat)
    requires Below(256, q) && j <= |q| && n == Number(256, q[j..])
    requires j == 0 || |q| - j == 8
    requires |q| - j <= 8
    ensures n == Number(256, q) % WORD
  {
    hide Number;
    NumberBound(256, q[j..]);
    PowerValues();
    assert q == q[..j] + q[j..];
    if j == 0 {
      PowersGrow(|q|);
      assert q[0..] == q;
      QuotientIs(n, WORD, 0, n);
    } else {
      NumberSplit(256, q[..j], q[j..]);
      QuotientIs(Number(256, q), WORD, Number(256, q[..j]), n);
    }
  }

  lemma PowersGrow(k: nat)
    requires k <= 8
    ensures Power(256, k) <= WORD
  {
    PowerValues();
    hide Power;
    match k {
      case 0 => case 1 => case 2 => case 3 => case 4 => case 5 => case 6 => case 7 => case 8 =>
    }
  }
}
