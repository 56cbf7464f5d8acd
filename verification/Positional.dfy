/** Numbers in positional notation, most significant digit first. */
module Positional {
  import opened BitNumbers

  type Digits = seq<nat>

  predicate Below(base: nat, s: Digits) {
    forall i | 0 <= i < |s| :: s[i] < base
  }

  function Number(base: nat, s: Digits): nat {
    if s == [] then 0 else Number(base, s[..|s| - 1]) * base + s[|s| - 1]
  }

  /** The digits of a number without leading zeros; zero has none. */
  function DigitsOf(base: nat, n: nat): (s: Digits)
    requires 2 <= base
    ensures Below(base, s) && (s != [] ==> s[0] != 0) && (s == [] <==> n == 0)
  {
    if n == 0 then []
    else
      Halves(n, base);
      DigitsOf(base, n / base) + [n % base]
  }

  function Zeros(n: nat): (z: Digits)
    ensures |z| == n
  {
    seq(n, _ => 0)
  }

  /** The number of leading zero digits. */
  function Leading(s: Digits): (n: nat)
    ensures n <= |s|
  {
    if s == [] || s[0] != 0 then 0 else 1 + Leading(s[1..])
  }

  lemma Halves(n: nat, base: nat)
    requires 0 < n && 2 <= base
    ensures n / base < n
    ensures n == n / base * base + n % base
  {
    var q := n / base;
    assert n == q * base + n % base;
    if q > 0 {
      assert q * base == 2 * q + q * (base - 2);
      assert 0 <= q * (base - 2);
    }
  }

  lemma {:induction false} NumberOfDigits(base: nat, n: nat)
    requires 2 <= base
    ensures Number(base, DigitsOf(base, n)) == n
  {
    if n > 0 {
      Halves(n, base);
      NumberOfDigits(base, n / base);
    }
  }

  lemma DigitsStep(base: nat, m: nat, d: nat)
    requires 2 <= base && d < base && (m > 0 || d > 0)
    ensures DigitsOf(base, m * base + d) == DigitsOf(base, m) + [d]
  {
    hide DigitsOf;
    QuotientIs(m * base + d, base, m, d);
    if m > 0 {
      Times(m, base);
    }
    DigitsUnfold(base, m * base + d);
  }

  lemma DigitsUnfold(base: nat, n: nat)
    requires 2 <= base && 0 < n
    ensures DigitsOf(base, n) == DigitsOf(base, n / base) + [n % base]
  {
  }

  lemma {:induction false} DigitsOfNumber(base: nat, s: Digits)
    requires 2 <= base && Below(base, s) && (s != [] ==> s[0] != 0)
    ensures DigitsOf(base, Number(base, s)) == s
    decreases |s|
  {
    if s != [] {
      var t, d := s[..|s| - 1], s[|s| - 1];
      DigitsOfNumber(base, t);
      hide DigitsOf;
      DigitsStep(base, Number(base, t), d);
      assert s == t + [d];
    }
  }

  /** Leading zeros do not count. */
  lemma {:induction false} LeadingZeros(base: nat, n: nat, s: Digits)
    ensures Number(base, Zeros(n) + s) == Number(base, s)
    decreases n, |s|
  {
    var z := Zeros(n) + s;
    if s != [] {
      assert z[..|z| - 1] == Zeros(n) + s[..|s| - 1];
      LeadingZeros(base, n, s[..|s| - 1]);
    } else if n > 0 {
      assert z[..|z| - 1] == Zeros(n - 1) + [];
      LeadingZeros(base, n - 1, []);
    }
  }

  lemma {:induction false} SplitLeading(s: Digits)
    ensures s == Zeros(Leading(s)) + s[Leading(s)..]
    ensures s[Leading(s)..] != [] ==> s[Leading(s)] != 0
  {
    if s != [] && s[0] == 0 {
      SplitLeading(s[1..]);
    }
  }

  lemma {:induction false} LeadingOf(n: nat, s: Digits)
    requires s != [] ==> s[0] != 0
    ensures Leading(Zeros(n) + s) == n
  {
    if n > 0 {
      assert (Zeros(n) + s)[1..] == Zeros(n - 1) + s;
      LeadingOf(n - 1, s);
    } else {
      assert Zeros(0) + s == s;
    }
  }

  /** Digits in one base become digits in another; leading zeros are kept one for one. */
  function Converted(from: nat, base: nat, s: Digits): (r: Digits)
    requires 2 <= base
    ensures Below(base, r)
  {
    Zeros(Leading(s)) + DigitsOf(base, Number(from, s))
  }

  /** Conversion to a base and back is the identity. */
  lemma ConvertedBack(a: nat, b: nat, s: Digits)
    requires 2 <= a && 2 <= b && Below(a, s)
    ensures Converted(b, a, Converted(a, b, s)) == s
  {
    hide Number, DigitsOf, Below;
    var k, n := Leading(s), Number(a, s);
    var t := s[k..];
    SplitLeading(s);
    LeadingZeros(a, k, t);
    LeadingOf(k, DigitsOf(b, n));
    LeadingZeros(b, k, DigitsOf(b, n));
    NumberOfDigits(b, n);
    BelowTail(a, s, k);
    DigitsOfNumber(a, t);
  }

  lemma BelowTail(base: nat, s: Digits, k: nat)
    requires Below(base, s) && k <= |s|
    ensures Below(base, s[k..])
  {
  }

  /** The value of `s` followed by `t`. */
  lemma {:induction false} NumberSplit(base: nat, s: Digits, t: Digits)
    ensures Number(base, s + t) == Number(base, s) * Power(base, |t|) + Number(base, t)
    decreases |t|
  {
    if t == [] {
      assert s + t == s;
    } else {
      var u := s + t;
      assert u[..|u| - 1] == s + t[..|t| - 1];
      NumberSplit(base, s, t[..|t| - 1]);
      var a, p, n, d := Number(base, s), Power(base, |t| - 1), Number(base, t[..|t| - 1]), t[|t| - 1];
      Distribute(a, p, n, base);
    }
  }

  lemma Distribute(a: nat, p: nat, n: nat, base: nat)
    ensures (a * p + n) * base == a * (base * p) + n * base
  {
    assert (a * p + n) * base == (a * p) * base + n * base;
    assert (a * p) * base == a * (base * p);
  }

  function Power(base: nat, n: nat): nat {
    if n == 0 then 1 else base * Power(base, n - 1)
  }

  lemma {:induction false} PowerPositive(base: nat, n: nat)
    requires 0 < base
    ensures 0 < Power(base, n)
  {
    if n > 0 {
      PowerPositive(base, n - 1);
      assert base * Power(base, n - 1) >= Power(base, n - 1) by { Times(base, Power(base, n - 1)); }
    }
  }

  lemma {:induction false} NumberBound(base: nat, s: Digits)
    requires 0 < base && Below(base, s)
    ensures Number(base, s) < Power(base, |s|)
    decreases |s|
  {
    if s != [] {
      var t, d := s[..|s| - 1], s[|s| - 1];
      var m, p := Number(base, t), Power(base, |s| - 1);
      NumberBound(base, t);
      assert m * base + base <= base * p by {
        assert base * p == m * base + (p - m) * base;
        Times(p - m, base);
      }
    }
  }

  lemma {:induction false} NumberOfZeros(base: nat, n: nat)
    ensures Number(base, Zeros(n)) == 0
  {
    LeadingZeros(base, n, []);
    assert Zeros(n) + [] == Zeros(n);
  }
}
