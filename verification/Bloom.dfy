/** The Bloom filter, its cached full and empty flags, and the relevance of transactions. */
module Bloom {
  import opened BitNumbers

  type Bytes = seq<byte>

  /** MurmurHash3 from a 32-bit seed. */
  type Murmur = (nat, Bytes) -> nat

  datatype Filter = Filter(vData: seq<byte>, isFull: bool, isEmpty: bool, nHashFuncs: nat, nTweak: nat, nFlags: nat)

  function Index(m: Murmur, f: Filter, i: nat, key: Bytes): (n: nat)
    requires f.vData != []
    ensures n < 8 * |f.vData|
  {
    m((i * 0xFBA4_C795 + f.nTweak) % 0x1_0000_0000, key) % (8 * |f.vData|)
  }

  predicate Has(vData: seq<byte>, n: nat)
    requires n < 8 * |vData|
  {
    Bit(vData[n / 8], n % 8)
  }

  /** vData[n >> 3] |= bit_mask[7 & n]. */
  function With(vData: seq<byte>, n: nat): (r: seq<byte>)
    requires n < 8 * |vData|
    ensures |r| == |vData|
  {
    SetBitByte(vData[n / 8], n % 8);
    vData[n / 8 := SetBit(vData[n / 8], n % 8)]
  }

  lemma {:induction false} SetBitBound(x: nat, m: nat, w: nat)
    requires m < w && x < Pow2(w)
    ensures SetBit(x, m) < Pow2(w)
  {
    if m > 0 {
      SetBitBound(x / 2, m - 1, w - 1);
    }
  }

  lemma SetBitByte(x: byte, m: nat)
    requires m < 8
    ensures SetBit(x, m) < 256
  {
    Powers();
    SetBitBound(x, m, 8);
  }

  lemma WithHas(vData: seq<byte>, n: nat, k: nat)
    requires n < 8 * |vData| && k < 8 * |vData|
    ensures Has(With(vData, n), k) == (k == n || Has(vData, k))
  {
    SetBitBit(vData[n / 8], n % 8, k % 8);
    assert k == 8 * (k / 8) + k % 8 && n == 8 * (n / 8) + n % 8;
  }

  /** The bits of a byte are numbered from the least significant one: setting a clear bit adds its power of two to the
      byte, and to no other. */
  lemma WithAdds(vData: seq<byte>, n: nat)
    requires n < 8 * |vData|
    ensures With(vData, n)[n / 8] as int == vData[n / 8] as int + if Has(vData, n) then 0 else Pow2(n % 8)
    ensures forall k | 0 <= k < |vData| && k != n / 8 :: With(vData, n)[k] == vData[k]
  {
    SetBitAdds(vData[n / 8], n % 8);
  }

  lemma {:induction false} SetBitAdds(x: nat, m: nat)
    ensures SetBit(x, m) == if Bit(x, m) then x else x + Pow2(m)
    decreases m
  {
    if m > 0 {
      SetBitAdds(x / 2, m - 1);
    }
  }

  // ----- insertion and the bit test -----

  function WithAll(m: Murmur, f: Filter, key: Bytes, i: nat): (g: Filter)
    requires f.vData != [] && i <= f.nHashFuncs
    ensures |g.vData| == |f.vData| && g == f.(vData := g.vData)
  {
    if i == 0 then f else
    var g := WithAll(m, f, key, i - 1);
    g.(vData := With(g.vData, Index(m, f, i - 1, key)))
  }

  function Inserted(m: Murmur, f: Filter, key: Bytes): (g: Filter)
    requires f.vData != []
    ensures |g.vData| == |f.vData| && g == f.(vData := g.vData, isEmpty := g.isEmpty)
  {
    if f.isFull then f else WithAll(m, f, key, f.nHashFuncs).(isEmpty := false)
  }

  /** The bit test that the flags are a shortcut for. */
  predicate AllSet(m: Murmur, f: Filter, key: Bytes)
    requires f.vData != []
  {
    forall i | 0 <= i < f.nHashFuncs :: Has(f.vData, Index(m, f, i, key))
  }

  predicate Contains(m: Murmur, f: Filter, key: Bytes)
    requires f.vData != []
  {
    f.isFull || (!f.isEmpty && AllSet(m, f, key))
  }

  predicate Full(vData: seq<byte>) { forall i | 0 <= i < |vData| :: vData[i] == 0xFF }

  predicate Empty(vData: seq<byte>) { forall i | 0 <= i < |vData| :: vData[i] == 0 }

  function Refreshed(f: Filter): Filter {
    f.(isFull := Full(f.vData), isEmpty := Empty(f.vData))
  }

  /** The flags tell the truth when they are set. */
  predicate FlagsHold(f: Filter) {
    (f.isFull ==> Full(f.vData)) && (f.isEmpty ==> Empty(f.vData))
  }

  predicate Usable(f: Filter) {
    f.vData != [] && 0 < f.nHashFuncs && FlagsHold(f)
  }

  lemma FullBit(k: nat)
    requires k < 8
    ensures Bit(0xFF, k) && !Bit(0, k)
  {
    Powers();
    AllOnes(8, k);
    ZeroBit(k);
  }

  lemma {:induction false} AllOnes(w: nat, k: nat)
    requires k < w
    ensures Bit(Pow2(w) - 1, k)
  {
    if k > 0 {
      assert (Pow2(w) - 1) / 2 == Pow2(w - 1) - 1;
      AllOnes(w - 1, k - 1);
    }
  }

  lemma FullHas(vData: seq<byte>, n: nat)
    requires n < 8 * |vData|
    ensures (Full(vData) ==> Has(vData, n)) && (Empty(vData) ==> !Has(vData, n))
  {
    FullBit(n % 8);
    assert Full(vData) ==> vData[n / 8] == 0xFF;
    assert Empty(vData) ==> vData[n / 8] == 0;
  }

  /** With true flags and a hash function the shortcuts never change the answer of the bit test. */
  lemma ShortcutsAgree(m: Murmur, f: Filter, key: Bytes)
    requires Usable(f)
    ensures Contains(m, f, key) <==> AllSet(m, f, key)
  {
    forall i | 0 <= i < f.nHashFuncs
      ensures f.isFull ==> Has(f.vData, Index(m, f, i, key))
    {
      FullHas(f.vData, Index(m, f, i, key));
    }
    FullHas(f.vData, Index(m, f, 0, key));
  }

  /** All the bits of `f` are set in `g`, which is otherwise the same filter. */
  predicate Grows(f: Filter, g: Filter) {
    |g.vData| == |f.vData| && g.nHashFuncs == f.nHashFuncs && g.nTweak == f.nTweak && g.nFlags == f.nFlags
    && forall n | 0 <= n < 8 * |f.vData| && Has(f.vData, n) :: Has(g.vData, n)
  }

  lemma {:induction false} WithAllHas(m: Murmur, f: Filter, key: Bytes, i: nat, n: nat)
    requires f.vData != [] && i <= f.nHashFuncs && n < 8 * |f.vData|
    ensures Has(WithAll(m, f, key, i).vData, n) <==>
      Has(f.vData, n) || exists j :: 0 <= j < i && Index(m, f, j, key) == n
  {
    hide Has, With, Index;
    if i > 0 {
      WithAllHas(m, f, key, i - 1, n);
      WithHas(WithAll(m, f, key, i - 1).vData, Index(m, f, i - 1, key), n);
      if j :| 0 <= j < i && Index(m, f, j, key) == n {
        assert j < i - 1 || j == i - 1;
      }
    }
  }

  /** Insertion sets the bits of the key and keeps all others. */
  lemma InsertedGrows(m: Murmur, f: Filter, key: Bytes)
    requires Usable(f)
    ensures Usable(Inserted(m, f, key)) && Grows(f, Inserted(m, f, key)) && Contains(m, Inserted(m, f, key), key)
  {
    hide Has, Index;
    if !f.isFull {
      forall n | 0 <= n < 8 * |f.vData| && Has(f.vData, n)
        ensures Has(Inserted(m, f, key).vData, n)
      {
        WithAllHas(m, f, key, f.nHashFuncs, n);
      }
      forall i | 0 <= i < f.nHashFuncs
        ensures Has(Inserted(m, f, key).vData, Index(m, f, i, key))
      {
        WithAllHas(m, f, key, f.nHashFuncs, Index(m, f, i, key));
      }
      SameIndices(m, f, Inserted(m, f, key), key);
    }
  }

  lemma SameIndices(m: Murmur, f: Filter, g: Filter, key: Bytes)
    requires f.vData != [] && |g.vData| == |f.vData| && g.nTweak == f.nTweak
    ensures forall i: nat :: Index(m, f, i, key) == Index(m, g, i, key)
  {
  }

  lemma RefreshedGrows(f: Filter)
    requires f.vData != [] && 0 < f.nHashFuncs
    ensures Usable(Refreshed(f)) && Grows(f, Refreshed(f))
  {
  }

  lemma GrowsKeeps(m: Murmur, f: Filter, g: Filter, key: Bytes)
    requires Usable(f) && Usable(g) && Grows(f, g) && Contains(m, f, key)
    ensures Contains(m, g, key)
  {
    ShortcutsAgree(m, f, key);
    ShortcutsAgree(m, g, key);
    SameIndices(m, f, g, key);
    hide Has, Index;
  }

  // ----- relevance -----

  /** The non-empty data elements of a script, in order, up to the first operation that does not parse. */
  type Elements = seq<Bytes>

  /** `plainKey` says that the script pays to a public key or to several. */
  datatype Output = Output(elements: Elements, plainKey: bool)

  datatype Input = Input(prevout: Bytes, elements: Elements)

  datatype Tx = Tx(hash: Bytes, vout: seq<Output>, vin: seq<Input>)

  const UPDATE_ALL: nat := 1

  const UPDATE_P2PUBKEY_ONLY: nat := 2

  predicate AnyIn(m: Murmur, f: Filter, elements: Elements)
    requires f.vData != []
  {
    exists k | 0 <= k < |elements| :: Contains(m, f, elements[k])
  }

  predicate Adds(f: Filter, o: Output) {
    f.nFlags % 4 == UPDATE_ALL || (f.nFlags % 4 == UPDATE_P2PUBKEY_ONLY && o.plainKey)
  }

  /** The filter after the first `n` outputs; `point` serializes an outpoint. */
  function AfterOutputs(m: Murmur, f: Filter, tx: Tx, point: nat -> Bytes, n: nat): (g: Filter)
    requires f.vData != [] && n <= |tx.vout|
    ensures |g.vData| == |f.vData|
  {
    if n == 0 then f else
    var g := AfterOutputs(m, f, tx, point, n - 1);
    if AnyIn(m, g, tx.vout[n - 1].elements) && Adds(g, tx.vout[n - 1]) then Inserted(m, g, point(n - 1)) else g
  }

  function Updated(m: Murmur, f: Filter, tx: Tx, point: nat -> Bytes): Filter
    requires f.vData != []
  {
    if f.isFull || f.isEmpty then f else AfterOutputs(m, f, tx, point, |tx.vout|)
  }

  /** BIP 37: the filter matches the hash, an output's data element, a spent outpoint or an input's data element. */
  predicate Relevant(m: Murmur, f: Filter, tx: Tx)
    requires f.vData != []
  {
    || Contains(m, f, tx.hash)
    || (exists i | 0 <= i < |tx.vout| :: AnyIn(m, f, tx.vout[i].elements))
    || (exists i | 0 <= i < |tx.vin| :: Contains(m, f, tx.vin[i].prevout) || AnyIn(m, f, tx.vin[i].elements))
  }

  lemma {:induction false} OutputsGrow(m: Murmur, f: Filter, tx: Tx, point: nat -> Bytes, n: nat)
    requires Usable(f) && n <= |tx.vout|
    ensures Usable(AfterOutputs(m, f, tx, point, n)) && Grows(f, AfterOutputs(m, f, tx, point, n))
  {
    hide Has, AnyIn, Inserted;
    if n > 0 {
      OutputsGrow(m, f, tx, point, n - 1);
      var g := AfterOutputs(m, f, tx, point, n - 1);
      InsertedGrows(m, g, point(n - 1));
    }
  }

  lemma AnyInKept(m: Murmur, f: Filter, g: Filter, elements: Elements)
    requires Usable(f) && Usable(g) && Grows(f, g) && AnyIn(m, f, elements)
    ensures AnyIn(m, g, elements)
  {
    hide Has, Contains;
    var k :| 0 <= k < |elements| && Contains(m, f, elements[k]);
    GrowsKeeps(m, f, g, elements[k]);
  }

  /** Every output that matched is in the filter from then on, under BLOOM_UPDATE_ALL (1), and under
      BLOOM_UPDATE_P2PUBKEY_ONLY (2) if it pays to public keys. */
  lemma {:induction false} MatchedIsAdded(m: Murmur, f: Filter, tx: Tx, point: nat -> Bytes, n: nat, i: nat)
    requires Usable(f) && i < n <= |tx.vout| && AnyIn(m, f, tx.vout[i].elements)
    requires f.nFlags % 4 == 1 || (f.nFlags % 4 == 2 && tx.vout[i].plainKey)
    ensures Contains(m, AfterOutputs(m, f, tx, point, n), point(i))
    decreases n
  {
    hide Has, AnyIn, Inserted, Contains;
    var g := AfterOutputs(m, f, tx, point, n - 1);
    OutputsGrow(m, f, tx, point, n - 1);
    OutputsGrow(m, f, tx, point, n);
    if i == n - 1 {
      AnyInKept(m, f, g, tx.vout[i].elements);
      InsertedGrows(m, g, point(i));
    } else {
      MatchedIsAdded(m, f, tx, point, n - 1, i);
      InsertedGrows(m, g, point(n - 1));
      GrowsKeeps(m, g, AfterOutputs(m, f, tx, point, n), point(i));
    }
  }

  /** A transaction that spends a matched output is relevant, also after later growth of the filter. */
  lemma SpendIsRelevant(m: Murmur, f: Filter, tx: Tx, point: nat -> Bytes, i: nat, g: Filter, spend: Tx, k: nat)
    requires Usable(f) && !f.isFull && !f.isEmpty
    requires i < |tx.vout| && AnyIn(m, f, tx.vout[i].elements)
    requires f.nFlags % 4 == 1 || (f.nFlags % 4 == 2 && tx.vout[i].plainKey)
    requires Usable(g) && Grows(Updated(m, f, tx, point), g)
    requires k < |spend.vin| && spend.vin[k].prevout == point(i)
    ensures Relevant(m, g, spend)
  {
    hide Has, AnyIn, Contains;
    MatchedIsAdded(m, f, tx, point, |tx.vout|, i);
    OutputsGrow(m, f, tx, point, |tx.vout|);
    GrowsKeeps(m, Updated(m, f, tx, point), g, point(i));
  }

  /** Nothing is added under other flags, nor under BLOOM_UPDATE_P2PUBKEY_ONLY when no matching output pays to public
      keys. */
  lemma {:induction false} NothingAdded(m: Murmur, f: Filter, tx: Tx, point: nat -> Bytes, n: nat)
    requires f.vData != [] && n <= |tx.vout|
    requires f.nFlags % 4 in {0, 3} || (f.nFlags % 4 == 2 && forall i | 0 <= i < n :: !tx.vout[i].plainKey)
    ensures AfterOutputs(m, f, tx, point, n) == f
  {
    if n > 0 {
      NothingAdded(m, f, tx, point, n - 1);
    }
  }

  /** The transaction has this hash, spends this outpoint, or has this data element in one of its scripts. */
  predicate Mentions(tx: Tx, key: Bytes) {
    || tx.hash == key
    || (exists i | 0 <= i < |tx.vout| :: key in tx.vout[i].elements)
    || (exists i | 0 <= i < |tx.vin| :: tx.vin[i].prevout == key || key in tx.vin[i].elements)
  }

  lemma ElementIn(m: Murmur, f: Filter, key: Bytes, elements: Elements)
    requires f.vData != [] && Contains(m, f, key) && key in elements
    ensures AnyIn(m, f, elements)
  {
    var k :| 0 <= k < |elements| && elements[k] == key;
    assert Contains(m, f, elements[k]);
  }

  /** A transaction that mentions a contained key anywhere is relevant (BIP 37). */
  lemma MentionIsRelevant(m: Murmur, f: Filter, key: Bytes, tx: Tx)
    requires f.vData != [] && Contains(m, f, key) && Mentions(tx, key)
    ensures Relevant(m, f, tx)
  {
    hide Contains, AnyIn;
    if tx.hash != key {
      if i :| 0 <= i < |tx.vout| && key in tx.vout[i].elements {
        ElementIn(m, f, key, tx.vout[i].elements);
      } else {
        var i :| 0 <= i < |tx.vin| && (tx.vin[i].prevout == key || key in tx.vin[i].elements);
        if tx.vin[i].prevout != key {
          ElementIn(m, f, key, tx.vin[i].elements);
        }
      }
    }
  }

  /** And one is relevant only if it mentions a contained key. */
  lemma RelevantMentions(m: Murmur, f: Filter, tx: Tx)
    requires f.vData != [] && Relevant(m, f, tx)
    ensures exists key :: Contains(m, f, key) && Mentions(tx, key)
  {
    hide Contains;
    if Contains(m, f, tx.hash) {
      assert Mentions(tx, tx.hash);
    } else if i :| 0 <= i < |tx.vout| && AnyIn(m, f, tx.vout[i].elements) {
      var k :| 0 <= k < |tx.vout[i].elements| && Contains(m, f, tx.vout[i].elements[k]);
      assert Mentions(tx, tx.vout[i].elements[k]);
    } else {
      var i :| 0 <= i < |tx.vin| && (Contains(m, f, tx.vin[i].prevout) || AnyIn(m, f, tx.vin[i].elements));
      if Contains(m, f, tx.vin[i].prevout) {
        assert Mentions(tx, tx.vin[i].prevout);
      } else {
        var k :| 0 <= k < |tx.vin[i].elements| && Contains(m, f, tx.vin[i].elements[k]);
        assert Mentions(tx, tx.vin[i].elements[k]);
      }
    }
  }

  // ----- runs -----

  datatype Event = Insert(key: Bytes) | Refresh | Match(tx: Tx, point: nat -> Bytes)

  function After(m: Murmur, f: Filter, e: Event): (g: Filter)
    requires f.vData != []
    ensures g.vData != []
  {
    match e
    case Insert(key) => Inserted(m, f, key)
    case Refresh => Refreshed(f)
    case Match(tx, point) => Updated(m, f, tx, point)
  }

  function Run(m: Murmur, f: Filter, events: seq<Event>): (g: Filter)
    requires f.vData != []
    ensures g.vData != []
    decreases |events|
  {
    if events == [] then f else After(m, Run(m, f, events[..|events| - 1]), events[|events| - 1])
  }

  lemma {:induction false} RunGrows(m: Murmur, f: Filter, events: seq<Event>)
    requires Usable(f)
    ensures Usable(Run(m, f, events)) && Grows(f, Run(m, f, events))
    decreases |events|
  {
    hide Has, Inserted, Refreshed, AfterOutputs;
    if events != [] {
      RunGrows(m, f, events[..|events| - 1]);
      var g := Run(m, f, events[..|events| - 1]);
      match events[|events| - 1] {
        case Insert(key) => InsertedGrows(m, g, key);
        case Refresh => RefreshedGrows(g);
        case Match(tx, point) => OutputsGrow(m, g, tx, point, |tx.vout|);
      }
    }
  }

  /** A key once inserted is contained after any later insertions, updates and matches. */
  lemma InsertedStays(m: Murmur, f: Filter, key: Bytes, events: seq<Event>)
    requires Usable(f)
    ensures Contains(m, Run(m, Inserted(m, f, key), events), key)
  {
    hide Has, Inserted, Contains, Run;
    InsertedGrows(m, f, key);
    RunGrows(m, Inserted(m, f, key), events);
    GrowsKeeps(m, Inserted(m, f, key), Run(m, Inserted(m, f, key), events), key);
  }

  /** Without hash functions the bits never change, and the flags alone answer for every key. */
  lemma {:induction false} BitsStay(m: Murmur, f: Filter, tx: Tx, point: nat -> Bytes, n: nat)
    requires f.vData != [] && f.nHashFuncs == 0 && n <= |tx.vout|
    ensures var g := AfterOutputs(m, f, tx, point, n);
      g == f.(isEmpty := g.isEmpty) && (!f.isEmpty ==> !g.isEmpty)
  {
    hide AnyIn;
    if n > 0 {
      BitsStay(m, f, tx, point, n - 1);
    }
  }

  /** No update comes after the last insertion. */
  predicate LastInserted(events: seq<Event>) {
    forall i | 0 <= i < |events| && events[i].Refresh? :: exists j | i < j < |events| :: events[j].Insert?
  }

  lemma LastDecides(events: seq<Event>)
    requires events != []
    ensures var e := events[|events| - 1];
      LastInserted(events) <==> e.Insert? || (!e.Refresh? && LastInserted(events[..|events| - 1]))
  {
    var n := |events| - 1;
    var front := events[..n];
    if events[n].Insert? {
      assert LastInserted(events);
    } else if events[n].Match? {
      forall i | 0 <= i < n && events[i].Refresh?
        ensures (exists j | i < j < |events| :: events[j].Insert?) <==> exists j | i < j < n :: front[j].Insert?
      {
        if j :| i < j < |events| && events[j].Insert? {
          assert front[j].Insert?;
        }
        if j :| i < j < n && front[j].Insert? {
          assert events[j].Insert?;
        }
      }
      assert forall i | 0 <= i < n :: front[i] == events[i];
    }
  }

  /** What a run leaves without hash functions: the bits, and one of the flags as the last event has it. */
  lemma {:induction false} RunWithoutHashFunctions(m: Murmur, f: Filter, events: seq<Event>)
    requires f.vData != [] && f.nHashFuncs == 0 && (f.isFull || !f.isEmpty)
    ensures var g := Run(m, f, events);
      g.vData == f.vData && g.nHashFuncs == 0
      && (g.isFull || !g.isEmpty <==> !Empty(f.vData) || LastInserted(events))
    decreases |events|
  {
    hide LastInserted, AnyIn, AfterOutputs, Has;
    assert !(Full(f.vData) && Empty(f.vData)) by { assert f.vData[0] in f.vData; }
    if events == [] {
      NothingRefreshed();
    } else {
      var n := |events| - 1;
      RunWithoutHashFunctions(m, f, events[..n]);
      LastDecides(events);
      var g := Run(m, f, events[..n]);
      match events[n] {
        case Insert(key) =>
        case Refresh =>
        case Match(tx, point) => BitsStay(m, g, tx, point, |tx.vout|);
      }
    }
  }

  lemma NothingRefreshed()
    ensures LastInserted([])
  {
  }

  /** Without hash functions an inserted key is contained after a run exactly when some bit is set or no update comes
      after the last insertion. */
  lemma WithoutHashFunctions(m: Murmur, f: Filter, key: Bytes, events: seq<Event>)
    requires f.vData != [] && f.nHashFuncs == 0
    ensures Contains(m, Run(m, Inserted(m, f, key), events), key) <==> !Empty(f.vData) || LastInserted(events)
  {
    RunWithoutHashFunctions(m, Inserted(m, f, key), events);
  }

  /** In a new filter, all zeros, an update loses the inserted key and inserting any other key brings it back. */
  lemma LostInNewFilter(m: Murmur, bytes: nat, nTweak: nat, nFlags: nat, key: Bytes, other: Bytes)
    requires 0 < bytes
    ensures var f := Inserted(m, Filter(seq(bytes, _ => 0), false, false, 0, nTweak, nFlags), key);
      Contains(m, f, key) && !Contains(m, Run(m, f, [Refresh]), key)
      && Contains(m, Run(m, f, [Refresh, Insert(other)]), key)
  {
    var f := Filter(seq(bytes, _ => 0), false, false, 0, nTweak, nFlags);
    assert LastInserted([]);
    assert Run(m, Inserted(m, f, key), []) == Inserted(m, f, key);
    assert [Refresh][0].Refresh? && !LastInserted([Refresh]);
    assert LastInserted([Refresh, Insert(other)]) by { assert [Refresh, Insert(other)][1].Insert?; }
    WithoutHashFunctions(m, f, key, []);
    WithoutHashFunctions(m, f, key, [Refresh]);
    WithoutHashFunctions(m, f, key, [Refresh, Insert(other)]);
  }

  // ----- the filter itself -----

  class CBloomFilter {
    const m: Murmur
    var vData: seq<byte>
    var isFull: bool
    var isEmpty: bool
    const nHashFuncs: nat
    const nTweak: nat
    const nFlags: nat

    ghost function Value(): Filter
      reads this
    {
      Filter(vData, isFull, isEmpty, nHashFuncs, nTweak, nFlags)
    }

    /** The sizes are chosen by the caller of the constructor. */
    constructor (m: Murmur, bytes: nat, nHashFuncs: nat, nTweak: nat, nFlags: nat)
      ensures Value() == Filter(seq(bytes, _ => 0), false, false, nHashFuncs, nTweak, nFlags) && this.m == m
      ensures 0 < bytes && 0 < nHashFuncs ==> Usable(Value())
    {
      this.m := m;
      vData := seq(bytes, _ => 0);
      isFull := false;
      isEmpty := false;
      this.nHashFuncs := nHashFuncs;
      this.nTweak := nTweak;
      this.nFlags := nFlags;
    }

    method Hash(i: nat, key: Bytes) returns (n: nat)
      requires vData != []
      ensures n == Index(m, Value(), i, key)
    {
      n := m((i * 0xFBA4_C795 + nTweak) % 0x1_0000_0000, key) % (|vData| * 8);
    }

    method InsertKey(key: Bytes)
      requires vData != []
      modifies this`vData, this`isEmpty
      ensures vData != [] && Value() == Inserted(m, old(Value()), key)
    {
      hide With, Index;
      if isFull {
        return;
      }
      ghost var f := Value();
      for i := 0 to nHashFuncs
        invariant vData != [] && |vData| == |f.vData| && Value() == WithAll(m, f, key, i)
      {
        SameIndices(m, f, Value(), key);
        var n := Hash(i, key);
        vData := With(vData, n);
      }
      isEmpty := false;
    }

    method ContainsKey(key: Bytes) returns (b: bool)
      requires vData != []
      ensures b == Contains(m, Value(), key)
    {
      hide Index, Has;
      if isFull {
        return true;
      }
      if isEmpty {
        return false;
      }
      for i := 0 to nHashFuncs
        invariant forall j | 0 <= j < i :: Has(vData, Index(m, Value(), j, key))
      {
        var n := Hash(i, key);
        if !Has(vData, n) {
          return false;
        }
      }
      return true;
    }

    method UpdateEmptyFull()
      modifies this`isFull, this`isEmpty
      ensures Value() == Refreshed(old(Value()))
    {
      var full := true;
      var empty := true;
      for i := 0 to |vData|
        invariant full == forall j | 0 <= j < i :: vData[j] == 0xFF
        invariant empty == forall j | 0 <= j < i :: vData[j] == 0
      {
        full := full && vData[i] == 0xFF;
        empty := empty && vData[i] == 0;
      }
      isFull := full;
      isEmpty := empty;
    }

    method MatchesAny(elements: Elements) returns (b: bool)
      requires vData != []
      ensures b == AnyIn(m, Value(), elements)
    {
      hide Contains;
      for k := 0 to |elements|
        invariant forall j | 0 <= j < k :: !Contains(m, Value(), elements[j])
      {
        var c := ContainsKey(elements[k]);
        if c {
          return true;
        }
      }
      return false;
    }

    /** The verdict is about the filter before the call, whatever the call adds on the way. */
    method IsRelevantAndUpdate(tx: Tx, point: nat -> Bytes) returns (b: bool)
      requires vData != []
      modifies this`vData, this`isEmpty
      ensures vData != [] && Value() == Updated(m, old(Value()), tx, point)
      ensures b == (old(isFull) || (!old(isEmpty) && Relevant(m, old(Value()), tx)))
    {
      hide Contains, AnyIn, Inserted;
      if isFull {
        return true;
      }
      if isEmpty {
        return false;
      }
      ghost var f := Value();
      var found := ContainsKey(tx.hash);
      for i := 0 to |tx.vout|
        invariant vData != [] && Value() == AfterOutputs(m, f, tx, point, i)
        invariant !found ==> Value() == f && !Contains(m, f, tx.hash)
        invariant !found ==> forall j | 0 <= j < i :: !AnyIn(m, f, tx.vout[j].elements)
        invariant found ==> Contains(m, f, tx.hash) || exists j | 0 <= j < |tx.vout| :: AnyIn(m, f, tx.vout[j].elements)
      {
        var c := MatchesAny(tx.vout[i].elements);
        if c {
          found := true;
          if nFlags % 4 == UPDATE_ALL {
            InsertKey(point(i));
          } else if nFlags % 4 == UPDATE_P2PUBKEY_ONLY {
            if tx.vout[i].plainKey {
              InsertKey(point(i));
            }
          }
        }
      }
      if found {
        return true;
      }
      for i := 0 to |tx.vin|
        invariant Value() == f
        invariant forall j | 0 <= j < i :: !Contains(m, f, tx.vin[j].prevout) && !AnyIn(m, f, tx.vin[j].elements)
      {
        var c := ContainsKey(tx.vin[i].prevout);
        if c {
          return true;
        }
        c := MatchesAny(tx.vin[i].elements);
        if c {
          return true;
        }
      }
      return false;
    }
  }
}
