/** LockedPageManagerBase: a count per page makes memory locks stack. */
module LockedPages {
  import opened BitNumbers

  /** A range of memory that was locked and not released yet. */
  datatype Range = Range(base: nat, size: nat)

  /** The first address of the page of an address, for pages of 2^bits bytes: base & page_mask. */
  function PageOf(address: nat, bits: nat): nat {
    ClearLow(address, bits)
  }

  lemma {:induction false} PageOfRounds(address: nat, bits: nat)
    ensures PageOf(address, bits) % Pow2(bits) == 0
    ensures PageOf(address, bits) <= address < PageOf(address, bits) + Pow2(bits)
  {
    if bits > 0 {
      PageOfRounds(address / 2, bits - 1);
      MixedRadix(2, Pow2(bits - 1), PageOf(address / 2, bits - 1), 0);
    }
  }

  lemma MultipleGap(a: nat, b: nat, p: nat)
    requires 0 < p && a % p == 0 && b % p == 0 && a <= b < a + p
    ensures a == b
  {
    var x, y := a / p, b / p;
    assert a == x * p && b == y * p;
    assert (y - x) * p == y * p - x * p;
    assert (x - y) * p == x * p - y * p;
    if y > x {
      Times(y - x, p);
    } else if x > y {
      Times(x - y, p);
    }
  }

  lemma NextMultiple(a: nat, p: nat)
    requires 0 < p && a % p == 0
    ensures (a + p) % p == 0
  {
    assert a == a / p * p;
    assert (a / p + 1) * p == a / p * p + p;
    QuotientIs(a + p, p, a / p + 1, 0);
  }

  /** The page holds some byte of the range. */
  predicate Touches(r: Range, page: nat, bits: nat) {
    0 < r.size && page % Pow2(bits) == 0 && PageOf(r.base, bits) <= page <= PageOf(r.base + r.size - 1, bits)
  }

  /** The range and the page overlap exactly when the page is counted for the range. */
  lemma TouchesIsOverlap(r: Range, page: nat, bits: nat)
    requires page % Pow2(bits) == 0
    ensures Touches(r, page, bits) <==> exists a: nat :: r.base <= a < r.base + r.size && PageOf(a, bits) == page
  {
    var p := Pow2(bits);
    if Touches(r, page, bits) {
      var a := if page < r.base then r.base else page;
      PageOfRounds(r.base, bits);
      PageOfRounds(r.base + r.size - 1, bits);
      PageOfRounds(a, bits);
      if page < r.base {
        MultipleGap(PageOf(r.base, bits), page, p);
      } else {
        MultipleGap(PageOf(a, bits), a, p);
      }
      assert r.base <= a < r.base + r.size && PageOf(a, bits) == page;
    }
    if a: nat :| r.base <= a < r.base + r.size && PageOf(a, bits) == page {
      PageGrows(r.base, a, bits);
      PageGrows(a, r.base + r.size - 1, bits);
    }
  }

  lemma {:induction false} PageGrows(a: nat, b: nat, bits: nat)
    requires a <= b
    ensures PageOf(a, bits) <= PageOf(b, bits)
  {
    if bits > 0 {
      PageGrows(a / 2, b / 2, bits - 1);
    }
  }

  /** How many of the ranges touch a page. */
  function Count(live: seq<Range>, page: nat, bits: nat): nat {
    if live == [] then 0 else
    Count(live[..|live| - 1], page, bits) + (if Touches(live[|live| - 1], page, bits) then 1 else 0)
  }

  lemma CountAdded(live: seq<Range>, r: Range, page: nat, bits: nat)
    ensures Count(live + [r], page, bits) == Count(live, page, bits) + (if Touches(r, page, bits) then 1 else 0)
  {
    assert (live + [r])[..|live|] == live;
  }

  lemma {:induction false} CountRemoved(live: seq<Range>, i: nat, page: nat, bits: nat)
    requires i < |live|
    ensures Count(live, page, bits)
         == Count(live[..i] + live[i + 1..], page, bits) + (if Touches(live[i], page, bits) then 1 else 0)
    decreases |live|
  {
    var rest := live[..i] + live[i + 1..];
    if i == |live| - 1 {
      assert rest == live[..i];
    } else {
      var t := live[..|live| - 1];
      CountRemoved(t, i, page, bits);
      assert rest == (t[..i] + t[i + 1..]) + [live[|live| - 1]];
      CountAdded(t[..i] + t[i + 1..], live[|live| - 1], page, bits);
    }
  }

  function At(histogram: map<nat, nat>, page: nat): nat {
    if page in histogram then histogram[page] else 0
  }

  /** The histogram counts the live ranges on every page and has no zero entries. */
  ghost predicate Counts(histogram: map<nat, nat>, live: seq<Range>, bits: nat) {
    forall page: nat :: At(histogram, page) == Count(live, page, bits) && (page in histogram ==> histogram[page] > 0)
  }

  class LockedPageManager {
    const bits: nat
    const pageSize: nat
    /** The pages that are locked in the operating system: Lock adds one, a single Unlock removes it. */
    var locked: set<nat>
    var histogram: map<nat, nat>
    /** The ranges locked and not released. */
    ghost var live: seq<Range>

    ghost predicate Valid()
      reads this
    {
      pageSize == Pow2(bits) && Counts(histogram, live, bits) && locked == histogram.Keys
    }

    constructor (bits: nat)
      ensures Valid() && live == [] && this.bits == bits
    {
      this.bits := bits;
      pageSize := Pow2(bits);
      locked := {};
      histogram := map[];
      live := [];
    }

    method LockRange(base: nat, size: nat)
      requires Valid()
      modifies this
      ensures Valid() && live == old(live) + (if size == 0 then [] else [Range(base, size)])
    {
      if size == 0 {
        return;
      }
      hide Count, Touches, PageOf, Step;
      ghost var r := Range(base, size);
      var startPage := PageOf(base, bits);
      var endPage := PageOf(base + size - 1, bits);
      PageOfRounds(base, bits);
      PageGrows(base, base + size - 1, bits);
      var page := startPage;
      assert forall q: nat :: Step(q, startPage, startPage, pageSize) == 0 by { NoSteps(startPage, pageSize); }
      while page <= endPage
        invariant page % pageSize == 0 && startPage <= page <= endPage + pageSize
        invariant forall q: nat :: At(histogram, q) == At(old(histogram), q) + Step(q, startPage, page, pageSize)
        invariant forall q: nat :: q in histogram ==> histogram[q] > 0
        invariant locked == histogram.Keys && live == old(live)
        decreases endPage + pageSize - page
      {
        StepsGrow(startPage, page, pageSize);
        if page !in histogram {
          locked := locked + {page};
          histogram := histogram[page := 1];
        } else {
          histogram := histogram[page := histogram[page] + 1];
        }
        NextMultiple(page, pageSize);
        page := page + pageSize;
      }
      live := live + [r];
      forall q: nat
        ensures At(histogram, q) == Count(live, q, bits)
      {
        CountAdded(old(live), r, q, bits);
        StepIsTouch(q, r, page, bits);
      }
    }

    /** `i` is the live range that is released; the lookup of its pages never fails. */
    method UnlockRange(base: nat, size: nat, ghost i: nat)
      requires Valid()
      requires size > 0 ==> i < |live| && live[i] == Range(base, size)
      modifies this
      ensures Valid() && live == if size == 0 then old(live) else old(live[..i] + live[i + 1..])
    {
      if size == 0 {
        return;
      }
      hide Count, Touches, PageOf, Step;
      ghost var r := Range(base, size);
      var startPage := PageOf(base, bits);
      var endPage := PageOf(base + size - 1, bits);
      PageOfRounds(base, bits);
      PageGrows(base, base + size - 1, bits);
      var page := startPage;
      assert forall q: nat :: Step(q, startPage, startPage, pageSize) == 0 by { NoSteps(startPage, pageSize); }
      while page <= endPage
        invariant page % pageSize == 0 && startPage <= page <= endPage + pageSize
        invariant forall q: nat :: At(histogram, q) + Step(q, startPage, page, pageSize) == At(old(histogram), q)
        invariant forall q: nat :: q in histogram ==> histogram[q] > 0
        invariant locked == histogram.Keys && live == old(live)
        decreases endPage + pageSize - page
      {
        StepsGrow(startPage, page, pageSize);
        assert page in histogram by {
          CountRemoved(live, i, page, bits);
          InRangeTouches(r, page, bits);
          NotStepped(page, startPage, pageSize);
          assert At(old(histogram), page) > 0;
        }
        histogram := histogram[page := histogram[page] - 1];
        if histogram[page] == 0 {
          locked := locked - {page};
          histogram := histogram - {page};
        }
        NextMultiple(page, pageSize);
        page := page + pageSize;
      }
      live := live[..i] + live[i + 1..];
      forall q: nat
        ensures At(histogram, q) == Count(live, q, bits)
      {
        CountRemoved(old(live), i, q, bits);
        StepIsTouch(q, r, page, bits);
      }
    }

    method GetLockedPageCount() returns (n: nat)
      requires Valid()
      ensures n == |locked|
    {
      n := |histogram|;
    }
  }

  /** 1 for the pages the loop has passed. */
  function Step(q: nat, start: nat, page: nat, pageSize: nat): nat
    requires 0 < pageSize
  {
    if q % pageSize == 0 && start <= q < page then 1 else 0
  }

  lemma StepGrows(q: nat, start: nat, page: nat, pageSize: nat)
    requires 0 < pageSize && page % pageSize == 0 && start <= page
    ensures Step(q, start, page + pageSize, pageSize) == Step(q, start, page, pageSize) + (if q == page then 1 else 0)
  {
    if q % pageSize == 0 && page <= q < page + pageSize {
      MultipleGap(page, q, pageSize);
    }
  }

  lemma StepsGrow(start: nat, page: nat, pageSize: nat)
    requires 0 < pageSize && page % pageSize == 0 && start <= page
    ensures forall q: nat ::
      Step(q, start, page + pageSize, pageSize) == Step(q, start, page, pageSize) + (if q == page then 1 else 0)
  {
    hide Step;
    forall q: nat
      ensures Step(q, start, page + pageSize, pageSize) == Step(q, start, page, pageSize) + (if q == page then 1 else 0)
    {
      StepGrows(q, start, page, pageSize);
    }
  }

  lemma NoSteps(start: nat, pageSize: nat)
    requires 0 < pageSize
    ensures forall q: nat :: Step(q, start, start, pageSize) == 0
  {
  }

  lemma NotStepped(page: nat, start: nat, pageSize: nat)
    requires 0 < pageSize
    ensures Step(page, start, page, pageSize) == 0
  {
  }

  lemma InRangeTouches(r: Range, page: nat, bits: nat)
    requires 0 < r.size && page % Pow2(bits) == 0 && PageOf(r.base, bits) <= page <= PageOf(r.base + r.size - 1, bits)
    ensures Touches(r, page, bits)
  {
  }

  lemma StepIsTouch(q: nat, r: Range, page: nat, bits: nat)
    requires 0 < r.size && page % Pow2(bits) == 0
    requires PageOf(r.base + r.size - 1, bits) < page
    requires page <= PageOf(r.base + r.size - 1, bits) + Pow2(bits)
    ensures Step(q, PageOf(r.base, bits), page, Pow2(bits)) == if Touches(r, q, bits) then 1 else 0
  {
    var e, p := PageOf(r.base + r.size - 1, bits), Pow2(bits);
    PageOfRounds(r.base + r.size - 1, bits);
    hide PageOf;
    if q % p == 0 && e < q < page {
      MultipleGap(e, q, p);
    }
  }

  /** The pages locked in the system are exactly those that some live range touches. */
  lemma LockedExactly(m: LockedPageManager, page: nat)
    requires m.Valid()
    ensures page in m.locked <==> exists i :: 0 <= i < |m.live| && Touches(m.live[i], page, m.bits)
  {
    CountPositive(m.live, page, m.bits);
    assert At(m.histogram, page) == Count(m.live, page, m.bits);
  }

  lemma {:induction false} CountPositive(live: seq<Range>, page: nat, bits: nat)
    ensures Count(live, page, bits) > 0 <==> exists i :: 0 <= i < |live| && Touches(live[i], page, bits)
    decreases |live|
  {
    hide Touches;
    if live != [] {
      var t := live[..|live| - 1];
      CountPositive(t, page, bits);
      if Count(t, page, bits) > 0 {
        var i :| 0 <= i < |t| && Touches(t[i], page, bits);
        assert Touches(live[i], page, bits);
      }
      if i :| 0 <= i < |live| && Touches(live[i], page, bits) {
        assert i < |t| ==> Touches(t[i], page, bits);
      }
    }
  }

  /** When every range has been released, nothing is locked. */
  lemma AllReleased(m: LockedPageManager)
    requires m.Valid() && m.live == []
    ensures m.histogram == map[] && m.locked == {}
  {
    forall page: nat
      ensures page !in m.histogram
    {
      assert At(m.histogram, page) == Count(m.live, page, m.bits);
    }
    assert m.histogram.Keys == {};
  }

  // ----- runs -----

  datatype Op = Lock(base: nat, size: nat) | Unlock(base: nat, size: nat)

  /** The first occurrence of a range, or the length when there is none. */
  function Find(live: seq<Range>, r: Range): (i: nat)
    ensures i <= |live| && (i < |live| ==> live[i] == r)
  {
    if live == [] || live[0] == r then 0 else 1 + Find(live[1..], r)
  }

  function After(live: seq<Range>, op: Op): seq<Range> {
    if op.size == 0 then live
    else if op.Lock? then live + [Range(op.base, op.size)]
    else
      var i := Find(live, Range(op.base, op.size));
      if i < |live| then live[..i] + live[i + 1..] else live
  }

  /** The ranges that a sequence of calls leaves locked. */
  function Live(ops: seq<Op>): seq<Range> {
    if ops == [] then [] else After(Live(ops[..|ops| - 1]), ops[|ops| - 1])
  }

  /** Every release is of a range that is locked at that point. */
  predicate Matched(ops: seq<Op>) {
    forall k | 0 <= k < |ops| && ops[k].Unlock? && ops[k].size > 0 ::
      Find(Live(ops[..k]), Range(ops[k].base, ops[k].size)) < |Live(ops[..k])|
  }

  /** Any sequence of locks and matched releases leaves each page counted, and locked in the system, for exactly
      the ranges still locked. */
  method Run(m: LockedPageManager, ops: seq<Op>)
    requires m.Valid() && m.live == [] && Matched(ops)
    modifies m
    ensures m.Valid() && m.live == Live(ops)
  {
    for k := 0 to |ops|
      invariant m.Valid() && m.live == Live(ops[..k])
    {
      assert ops[..k + 1][..k] == ops[..k];
      match ops[k] {
        case Lock(base, size) => m.LockRange(base, size);
        case Unlock(base, size) => m.UnlockRange(base, size, Find(m.live, Range(base, size)));
      }
    }
    assert ops[..|ops|] == ops;
  }
}
