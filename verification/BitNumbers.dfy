/** Natural numbers as bit strings, and the division facts the paddings need. */
module BitNumbers {

  type byte = b: int | 0 <= b < 256

  /** Bit `k` of `n`. */
  predicate Bit(n: nat, k: nat) {
    if k == 0 then n % 2 == 1 else Bit(n / 2, k - 1)
  }

  /** 2 to the power n. */
  function Pow2(n: nat): (p: nat)
    ensures 0 < p
  {
    if n == 0 then 1 else 2 * Pow2(n - 1)
  }

  /** The unsigned shift x >> m. */
  function ShiftRight(x: nat, m: nat): (y: nat)
    ensures y <= x
  {
    if m == 0 then x else ShiftRight(x / 2, m - 1)
  }

  lemma {:induction false} BitShifted(x: nat, m: nat, k: nat)
    ensures Bit(ShiftRight(x, m), k) == Bit(x, m + k)
    decreases m
  {
    if m > 0 {
      BitShifted(x / 2, m - 1, k);
    }
  }

  lemma {:induction false} ZeroBit(k: nat)
    ensures !Bit(0, k)
  {
    if k > 0 {
      ZeroBit(k - 1);
    }
  }

  /** Adding a power of two above a number sets that bit and keeps the lower ones. */
  lemma {:induction false} AddTop(m: nat, u: nat, k: nat)
    requires u < Pow2(m)
    ensures Bit(Pow2(m) + u, k) == (k == m || (k < m && Bit(u, k)))
    decreases m
  {
    if m == 0 {
      if k > 0 {
        ZeroBit(k - 1);
      }
    } else {
      assert (Pow2(m) + u) / 2 == Pow2(m - 1) + u / 2 && (Pow2(m) + u) % 2 == u % 2;
      if k > 0 {
        AddTop(m - 1, u / 2, k - 1);
      }
    }
  }

  lemma Powers()
    ensures Pow2(7) == 0x80 && Pow2(8) == 0x100
  {
    assert Pow2(4) == 16;
    assert Pow2(6) == 64;
  }

  function Weight(b: bool, w: nat): nat { if b then w else 0 }

  /** The number whose bits are `v`, least significant first. */
  function FromBits(v: seq<bool>): (r: nat)
    ensures r < Pow2(|v|)
  {
    if v == [] then 0 else Weight(v[0], 1) + 2 * FromBits(v[1..])
  }

  lemma {:induction false} BitOfSum(b: bool, u: nat, k: nat)
    ensures Bit(Weight(b, 1) + 2 * u, k) == (if k == 0 then b else Bit(u, k - 1))
  {
    assert (Weight(b, 1) + 2 * u) / 2 == u;
  }

  lemma {:induction false} BitOfFromBits(v: seq<bool>, k: nat)
    requires k < |v|
    ensures Bit(FromBits(v), k) == v[k]
    decreases |v|
  {
    BitOfSum(v[0], FromBits(v[1..]), k);
    if k > 0 {
      BitOfFromBits(v[1..], k - 1);
    }
  }

  /** A number with its `m` low bits cleared: x & -(1 << m). */
  function ClearLow(x: nat, m: nat): nat {
    if m == 0 then x else 2 * ClearLow(x / 2, m - 1)
  }

  lemma {:induction false} ClearLowBit(x: nat, m: nat, k: nat)
    ensures Bit(ClearLow(x, m), k) == (m <= k && Bit(x, k))
    decreases m
  {
    if m > 0 {
      assert ClearLow(x, m) / 2 == ClearLow(x / 2, m - 1) && ClearLow(x, m) % 2 == 0;
      if k > 0 {
        ClearLowBit(x / 2, m - 1, k - 1);
      }
    }
  }

  /** A number with bit `m` set: x | (1 << m). */
  function SetBit(x: nat, m: nat): nat {
    if m == 0 then x + 1 - x % 2 else x % 2 + 2 * SetBit(x / 2, m - 1)
  }

  lemma {:induction false} SetBitBelow(x: nat, m: nat, w: nat)
    requires m < w && x < Pow2(w)
    ensures SetBit(x, m) < Pow2(w)
    decreases m
  {
    assert x / 2 < Pow2(w - 1);
    if m > 0 {
      SetBitBelow(x / 2, m - 1, w - 1);
    }
  }

  lemma {:induction false} SetBitBit(x: nat, m: nat, k: nat)
    ensures Bit(SetBit(x, m), k) == (k == m || Bit(x, k))
    decreases m
  {
    if m == 0 {
      assert SetBit(x, 0) / 2 == x / 2;
    } else {
      assert SetBit(x, m) / 2 == SetBit(x / 2, m - 1) && SetBit(x, m) % 2 == x % 2;
      if k > 0 {
        SetBitBit(x / 2, m - 1, k - 1);
      }
    }
  }

  /** The low `m` bits: x & ((1 << m) - 1). */
  function Low(x: nat, m: nat): (r: nat)
    ensures r < Pow2(m)
  {
    if m == 0 then 0 else x % 2 + 2 * Low(x / 2, m - 1)
  }

  lemma {:induction false} LowBit(x: nat, m: nat, k: nat)
    ensures Bit(Low(x, m), k) == (k < m && Bit(x, k))
    decreases m
  {
    if m == 0 {
      ZeroBit(k);
    } else {
      assert Low(x, m) / 2 == Low(x / 2, m - 1) && Low(x, m) % 2 == x % 2;
      if k > 0 {
        LowBit(x / 2, m - 1, k - 1);
      }
    }
  }

  // ----- division -----

  lemma RemainderUnique(n: nat, lim: nat, q: nat, r: nat, q': nat, r': nat)
    requires 0 < lim && n == q * lim + r == q' * lim + r' && r < lim && r' < lim
    ensures q == q' && r == r'
  {
    assert (q - q') * lim == q * lim - q' * lim;
    assert (q' - q) * lim == q' * lim - q * lim;
    if q > q' {
      Times(q - q', lim);
    } else if q < q' {
      Times(q' - q, lim);
    }
  }

  lemma Divided(n: nat, d: nat) returns (q: nat, r: nat)
    requires 0 < d
    ensures n == q * d + r && r < d
  {
    q, r := n / d, n % d;
  }

  lemma QuotientIs(n: nat, p: nat, q: nat, r: nat)
    requires r < p && n == q * p + r
    ensures n / p == q && n % p == r
  {
    var q', r' := n / p, n % p;
    assert n == q' * p + r';
    RemainderUnique(n, p, q, r, q', r');
  }

  lemma Times(k: nat, n: nat)
    requires 0 < k
    ensures n <= k * n
  {
    assert k * n == n + (k - 1) * n;
  }

  lemma EuclideanUnique(v: int, x: nat, t: int, z: nat)
    requires z < x && v == t * x + z
    ensures v % x == z
  {
    var t', z' := v / x, v % x;
    assert (t - t') * x == t * x - t' * x;
    assert (t' - t) * x == t' * x - t * x;
    if t > t' {
      Times(t - t', x);
    } else if t < t' {
      Times(t' - t, x);
    }
  }

  /** Division by a product whose first factor is counted separately. */
  lemma MixedRadix(b: nat, k: nat, i: nat, low: nat)
    requires low < b && 0 < k
    ensures (b * i + low) / (b * k) == i / k && (b * i + low) % (b * k) == b * (i % k) + low
  {
    var q, r := i / k, i % k;
    SplitCount(b, k, i, q, r);
    assert b * r + low < b * k by {
      Times(k - r, b);
      assert b * (k - r) == b * k - b * r;
    }
    QuotientIs(b * i + low, b * k, q, b * r + low);
  }

  lemma SplitCount(b: nat, k: nat, i: nat, q: nat, r: nat)
    requires i == q * k + r
    ensures b * i == q * (b * k) + b * r
  {
    assert b * (q * k + r) == b * (q * k) + b * r;
    assert b * (q * k) == q * (b * k);
  }
}
