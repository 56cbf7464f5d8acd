/** The address manager's own consistency check, what it accepts, and how that relates to the invariant. */
module AddrCheck {
  import opened AddrTables
  import opened AddrInvariant
  import opened AddrMan
  import opened Ordered

  function LookUp(mapAddr: map<NetAddr, int>, ip: NetAddr): int {
    if ip in mapAddr then mapAddr[ip] else 0
  }

  predicate InfoPasses(t: Tables, id: int)
    requires id in t.mapInfo
  {
    var info := t.mapInfo[id];
    && (if info.fInTried then info.nLastSuccess != 0 && info.nRefCount == 0
        else 1 <= info.nRefCount <= NEW_BUCKETS_PER_ADDRESS)
    && LookUp(t.mapAddr, info.service.ip) == id
    && 0 <= info.nRandomPos < |t.vRandom| && t.vRandom[info.nRandomPos] == id
    && info.nLastTry >= 0 && info.nLastSuccess >= 0
  }

  /** How often each id occurs in the tried buckets. */
  function TriedTally(vvTried: seq<seq<int>>): multiset<int> {
    if vvTried == [] then multiset{} else TriedTally(vvTried[..|vvTried| - 1]) + multiset(vvTried[|vvTried| - 1])
  }

  /** How often each id occurs in the new buckets. */
  function NewTally(vvNew: seq<set<int>>): multiset<int> {
    if vvNew == [] then multiset{} else NewTally(vvNew[..|vvNew| - 1]) + multiset(vvNew[|vvNew| - 1])
  }

  ghost function Target(m: Infos, id: int): int {
    if id in m && !m[id].fInTried then m[id].nRefCount else 0
  }

  /** What the check accepts. */
  ghost predicate Passes(t: Tables) {
    && |t.vRandom| == t.nTried + t.nNew
    && (forall id :: id in t.mapInfo ==> InfoPasses(t, id))
    && CountsOk(t.mapInfo, t.nNew, t.nTried)
    && TriedTally(t.vvTried) == multiset(TriedIds(t.mapInfo))
    && forall id :: NewTally(t.vvNew)[id] == Target(t.mapInfo, id)
  }

  lemma TriedTallyGrows(vvTried: seq<seq<int>>, n: nat)
    requires n < |vvTried|
    ensures TriedTally(vvTried[..n + 1]) == TriedTally(vvTried[..n]) + multiset(vvTried[n])
    ensures TriedTally(vvTried[..n + 1]) <= TriedTally(vvTried)
    decreases |vvTried| - n
  {
    assert vvTried[..n + 1][..n] == vvTried[..n];
    if n + 1 < |vvTried| {
      TriedTallyGrows(vvTried, n + 1);
    } else {
      assert vvTried[..n + 1] == vvTried;
    }
  }

  lemma NewTallyGrows(vvNew: seq<set<int>>, n: nat)
    requires n < |vvNew|
    ensures NewTally(vvNew[..n + 1]) == NewTally(vvNew[..n]) + multiset(vvNew[n])
    ensures NewTally(vvNew[..n + 1]) <= NewTally(vvNew)
    decreases |vvNew| - n
  {
    assert vvNew[..n + 1][..n] == vvNew[..n];
    if n + 1 < |vvNew| {
      NewTallyGrows(vvNew, n + 1);
    } else {
      assert vvNew[..n + 1] == vvNew;
    }
  }

  method CheckInfo(t: Tables, n: int) returns (r: int)
    requires n in t.mapInfo
    ensures r == 0 <==> InfoPasses(t, n)
  {
    var info := t.mapInfo[n];
    if info.fInTried {
      if info.nLastSuccess == 0 {
        return -1;
      }
      if info.nRefCount != 0 {
        return -2;
      }
    } else {
      if info.nRefCount < 0 || info.nRefCount > NEW_BUCKETS_PER_ADDRESS {
        return -3;
      }
      if info.nRefCount == 0 {
        return -4;
      }
    }
    if LookUp(t.mapAddr, info.service.ip) != n {
      return -5;
    }
    if info.nRandomPos < 0 || info.nRandomPos >= |t.vRandom| || t.vRandom[info.nRandomPos] != n {
      return -14;
    }
    if info.nLastTry < 0 {
      return -6;
    }
    if info.nLastSuccess < 0 {
      return -8;
    }
    return 0;
  }

  /** Every entry but those still to do is filed, as tried or with its reference count. */
  ghost predicate Filed(m: Infos, todo: set<int>, setTried: set<int>, mapNew: map<int, int>) {
    && todo <= m.Keys && setTried + mapNew.Keys == m.Keys - todo
    && setTried <= TriedIds(m) && mapNew.Keys <= NewIds(m)
    && forall id :: id in mapNew ==> mapNew[id] == Target(m, id) > 0
  }

  method File(m: Infos, todo: set<int>, n: int, setTried: set<int>, mapNew: map<int, int>)
    returns (setTried': set<int>, mapNew': map<int, int>)
    requires Filed(m, todo, setTried, mapNew) && n in todo && n in m && (m[n].fInTried || m[n].nRefCount > 0)
    ensures Filed(m, todo - {n}, setTried', mapNew')
  {
    setTried', mapNew' := setTried, mapNew;
    if m[n].fInTried {
      setTried' := setTried + {n};
    } else {
      mapNew' := mapNew[n := m[n].nRefCount];
    }
  }

  lemma FiledAll(m: Infos, setTried: set<int>, mapNew: map<int, int>)
    requires Filed(m, {}, setTried, mapNew)
    ensures setTried == TriedIds(m) && mapNew.Keys == NewIds(m)
    ensures forall id :: id in mapNew ==> mapNew[id] == Target(m, id) > 0
  {
    Partitioned(m, setTried, mapNew.Keys);
  }

  /** The per-entry part: 0 if every entry passes, with the tried ids and the new ids' counts. */
  method CheckInfos(t: Tables) returns (r: int, setTried: set<int>, mapNew: map<int, int>)
    ensures r == 0 <==> forall id :: id in t.mapInfo ==> InfoPasses(t, id)
    ensures r == 0 ==> setTried == TriedIds(t.mapInfo) && mapNew.Keys == NewIds(t.mapInfo)
    ensures r == 0 ==> forall id :: id in mapNew ==> mapNew[id] == Target(t.mapInfo, id) > 0
  {
    var todo := t.mapInfo.Keys;
    setTried, mapNew := {}, map[];
    assert Filed(t.mapInfo, todo, setTried, mapNew);
    hide InfoPasses, Filed, Target;
    while todo != {}
      invariant todo <= t.mapInfo.Keys && Filed(t.mapInfo, todo, setTried, mapNew)
      invariant forall id :: id in t.mapInfo && id !in todo ==> InfoPasses(t, id)
      decreases |todo|
    {
      var n := Least(todo);
      r := CheckInfo(t, n);
      if r != 0 {
        return;
      }
      PassedRefs(t, n);
      setTried, mapNew := File(t.mapInfo, todo, n, setTried, mapNew);
      todo := todo - {n};
    }
    r := 0;
    FiledAll(t.mapInfo, setTried, mapNew);
  }

  lemma PassedRefs(t: Tables, n: int)
    requires n in t.mapInfo && InfoPasses(t, n)
    ensures t.mapInfo[n].fInTried || t.mapInfo[n].nRefCount > 0
  {
  }

  lemma Partitioned(m: Infos, a: set<int>, b: set<int>)
    requires a + b == m.Keys && a <= TriedIds(m) && b <= NewIds(m)
    ensures a == TriedIds(m) && b == NewIds(m)
  {
    forall id
      ensures id in a <==> id in TriedIds(m)
      ensures id in b <==> id in NewIds(m)
    {
      assert id in m.Keys <==> id in a + b;
    }
  }

  /** Strikes every listed id off the set of tried ids. */
  method CheckTriedBuckets(vvTried: seq<seq<int>>, tried: set<int>) returns (ok: bool, setTried: set<int>)
    ensures ok && setTried == {} <==> TriedTally(vvTried) == multiset(tried)
  {
    setTried := tried;
    var n := 0;
    while n < |vvTried|
      invariant 0 <= n <= |vvTried|
      invariant TriedTally(vvTried[..n]) + multiset(setTried) == multiset(tried)
    {
      TriedTallyGrows(vvTried, n);
      var vTried := vvTried[n];
      var p := 0;
      while p < |vTried|
        invariant 0 <= p <= |vTried|
        invariant TriedTally(vvTried[..n]) + multiset(vTried[..p]) + multiset(setTried) == multiset(tried)
      {
        assert vTried[..p + 1] == vTried[..p] + [vTried[p]];
        if vTried[p] !in setTried {
          ghost var x := vTried[p];
          PrefixTally(vTried, p);
          assert multiset(tried)[x] < TriedTally(vvTried)[x];
          return false, setTried;
        }
        setTried := setTried - {vTried[p]};
        p := p + 1;
      }
      assert vTried[..p] == vTried;
      n := n + 1;
    }
    assert vvTried[..n] == vvTried;
    ok := true;
  }

  lemma PrefixTally(q: seq<int>, p: nat)
    requires p < |q|
    ensures multiset(q[..p]) + multiset{q[p]} <= multiset(q)
  {
    assert q == q[..p] + [q[p]] + q[p + 1..];
  }

  ghost predicate Balanced(target: map<int, int>, tally: multiset<int>, mapNew: map<int, int>) {
    && (forall id :: id in mapNew ==> mapNew[id] > 0)
    && forall id :: tally[id] + (if id in mapNew then mapNew[id] else 0) == (if id in target then target[id] else 0)
  }

  function Struck(mapNew: map<int, int>, x: int): map<int, int>
    requires x in mapNew
  {
    if mapNew[x] == 1 then mapNew - {x} else mapNew[x := mapNew[x] - 1]
  }

  lemma StruckBalances(target: map<int, int>, tally: multiset<int>, mapNew: map<int, int>, x: int)
    requires Balanced(target, tally, mapNew) && x in mapNew
    ensures Balanced(target, tally + multiset{x}, Struck(mapNew, x))
  {
  }

  /** Counts the members of one bucket down. */
  method StrikeAll(ids: seq<int>, target: map<int, int>, ghost tally: multiset<int>, start: map<int, int>)
    returns (ok: bool, mapNew: map<int, int>)
    requires Balanced(target, tally, start)
    ensures ok ==> Balanced(target, tally + multiset(ids), mapNew)
    ensures !ok ==> exists x :: (tally + multiset(ids))[x] > (if x in target then target[x] else 0)
  {
    mapNew := start;
    var p := 0;
    while p < |ids|
      invariant 0 <= p <= |ids|
      invariant Balanced(target, tally + multiset(ids[..p]), mapNew)
    {
      var x := ids[p];
      assert ids[..p + 1] == ids[..p] + [x];
      ghost var sofar := tally + multiset(ids[..p]);
      if x !in mapNew {
        PrefixTally(ids, p);
        assert (tally + multiset(ids))[x] > sofar[x];
        return false, mapNew;
      }
      StruckBalances(target, sofar, mapNew, x);
      mapNew := Struck(mapNew, x);
      assert tally + multiset(ids[..p + 1]) == sofar + multiset{x};
      p := p + 1;
    }
    assert ids[..p] == ids;
    ok := true;
  }

  /** Counts every membership down to nothing. */
  method CheckNewBuckets(vvNew: seq<set<int>>, target: map<int, int>) returns (ok: bool, mapNew: map<int, int>)
    requires forall id :: id in target ==> target[id] > 0
    ensures ok && mapNew == map[] <==> forall id :: NewTally(vvNew)[id] == if id in target then target[id] else 0
  {
    mapNew := target;
    var n := 0;
    while n < |vvNew|
      invariant 0 <= n <= |vvNew|
      invariant Balanced(target, NewTally(vvNew[..n]), mapNew)
    {
      NewTallyGrows(vvNew, n);
      SortedTally(vvNew[n]);
      ok, mapNew := StrikeAll(SortedIds(vvNew[n]), target, NewTally(vvNew[..n]), mapNew);
      if !ok {
        return;
      }
      n := n + 1;
    }
    assert vvNew[..n] == vvNew;
    ok := true;
    BalancedEnd(target, NewTally(vvNew), mapNew);
  }

  lemma BalancedEnd(target: map<int, int>, tally: multiset<int>, mapNew: map<int, int>)
    requires Balanced(target, tally, mapNew)
    ensures mapNew == map[] <==> forall id :: tally[id] == if id in target then target[id] else 0
  {
    if mapNew != map[] {
      HasMember(mapNew.Keys);
      var id :| id in mapNew.Keys;
      assert tally[id] != (if id in target then target[id] else 0);
    }
  }

  lemma {:induction false} SortedTally(s: set<int>)
    ensures multiset(SortedIds(s)) == multiset(s)
  {
    if s != {} {
      var m := Least(s);
      SortedTally(s - {m});
      assert SortedIds(s) == [m] + SortedIds(s - {m});
      assert multiset(s) == multiset{m} + multiset(s - {m});
    }
  }

  /** The run-time check: zero exactly for the tables it should accept. */
  method Check_(man: CAddrMan) returns (r: int)
    ensures r == 0 <==> Passes(man.T())
  {
    ghost var t := man.T();
    if |man.vRandom| != man.nTried + man.nNew {
      return -7;
    }
    var tables := Tables(man.nIdCount, man.mapInfo, man.mapAddr, man.vRandom, man.nTried, man.vvTried, man.nNew,
                         man.vvNew);
    var setTried, mapNew;
    r, setTried, mapNew := CheckInfos(tables);
    if r != 0 {
      return;
    }
    if |setTried| != man.nTried {
      return -9;
    }
    if |mapNew| != man.nNew {
      return -10;
    }
    ghost var target := mapNew;
    TargetOf(man.mapInfo, mapNew);
    var okTried, okNew;
    okTried, setTried := CheckTriedBuckets(man.vvTried, setTried);
    if !okTried {
      return -11;
    }
    okNew, mapNew := CheckNewBuckets(man.vvNew, mapNew);
    if !okNew {
      return -12;
    }
    if setTried != {} {
      return -13;
    }
    if mapNew != map[] {
      return -15;
    }
    r := 0;
  }

  lemma TargetOf(m: Infos, mapNew: map<int, int>)
    requires mapNew.Keys == NewIds(m) && forall id :: id in mapNew ==> mapNew[id] == Target(m, id)
    ensures forall id :: Target(m, id) == if id in mapNew then mapNew[id] else 0
    ensures |mapNew| == |NewIds(m)|
  {
    forall id
      ensures Target(m, id) == if id in mapNew then mapNew[id] else 0
    {
      assert id in mapNew.Keys <==> id in NewIds(m);
    }
  }

  // ----- the check and the invariant -----

  lemma {:induction false} NewTallyIsHolding(vvNew: seq<set<int>>, id: int)
    ensures NewTally(vvNew)[id] == |Holding(vvNew, id)|
    decreases |vvNew|
  {
    if vvNew == [] {
      assert Holding(vvNew, id) == {};
    } else {
      var n := |vvNew| - 1;
      var front := vvNew[..n];
      NewTallyIsHolding(front, id);
      if id in vvNew[n] {
        assert Holding(vvNew, id) == Holding(front, id) + {n};
      } else {
        assert Holding(vvNew, id) == Holding(front, id);
      }
    }
  }

  lemma CountDistinct(q: seq<int>, id: int)
    requires Distinct(q)
    ensures multiset(q)[id] == if id in q then 1 else 0
  {
    if id in q {
      var i :| 0 <= i < |q| && q[i] == id;
      OnceCounted(q, i);
    }
  }

  /** With the tried buckets in order, each tried id is tallied once and nothing else is. */
  lemma {:induction false} TriedTallyIsOne(h: Hashing, nKey: seq<nat>, m: Infos, vvTried: seq<seq<int>>, n: nat,
                                           id: int)
    requires TriedMembersOk(h, nKey, m, vvTried) && TriedPlacedOk(h, nKey, m, vvTried) && n <= |vvTried|
    ensures TriedTally(vvTried[..n])[id] ==
            if id in TriedIds(m) && h.TriedBucket(nKey, m[id].service) < n then 1 else 0
    decreases n
  {
    if n > 0 {
      hide TriedMembersOk, TriedPlacedOk, TriedTally;
      TriedTallyIsOne(h, nKey, m, vvTried, n - 1, id);
      TriedTallyGrows(vvTried, n - 1);
      TriedInBucket(h, nKey, m, vvTried, n - 1, id);
    }
  }

  lemma TriedInBucket(h: Hashing, nKey: seq<nat>, m: Infos, vvTried: seq<seq<int>>, b: nat, id: int)
    requires TriedMembersOk(h, nKey, m, vvTried) && TriedPlacedOk(h, nKey, m, vvTried) && b < |vvTried|
    ensures multiset(vvTried[b])[id] == if id in TriedIds(m) && h.TriedBucket(nKey, m[id].service) == b then 1 else 0
  {
    CountDistinct(vvTried[b], id);
  }

  /** Every consistent table whose times are in order passes the check. */
  lemma ConsistentPasses(h: Hashing, nKey: seq<nat>, t: Tables)
    requires Consistent(h, nKey, t) && TimesOk(t.mapInfo)
    ensures Passes(t)
  {
    RandomCount(t.mapInfo, t.vRandom);
    SplitCount(t.mapInfo);
    forall id
      ensures NewTally(t.vvNew)[id] == Target(t.mapInfo, id)
    {
      NewTallyIsHolding(t.vvNew, id);
      if id !in t.mapInfo || t.mapInfo[id].fInTried {
        HoldingOutside(t.mapInfo, t.vvNew, id);
      }
    }
    forall id
      ensures TriedTally(t.vvTried)[id] == multiset(TriedIds(t.mapInfo))[id]
    {
      TriedTallyIsOne(h, nKey, t.mapInfo, t.vvTried, |t.vvTried|, id);
      assert t.vvTried[..|t.vvTried|] == t.vvTried;
    }
    assert TriedTally(t.vvTried) == multiset(TriedIds(t.mapInfo));
    forall id | id in t.mapInfo
      ensures InfoPasses(t, id)
    {
    }
  }

  lemma RandomCount(m: Infos, vRandom: seq<int>)
    requires RandomOk(m, vRandom)
    ensures |vRandom| == |m|
  {
    forall x
      ensures x in vRandom <==> x in m.Keys
    {
      if x in m { assert vRandom[m[x].nRandomPos] == x; }
    }
    DistinctCount(vRandom, m.Keys);
  }

  lemma SplitCount(m: Infos)
    ensures |m| == |NewIds(m)| + |TriedIds(m)|
  {
    forall x
      ensures x in m.Keys <==> x in NewIds(m) + TriedIds(m)
    {
    }
    assert m.Keys == NewIds(m) + TriedIds(m);
  }

  // ----- what the check leaves open -----

  /** Bucket sizes, the bucket a tried entry hashes to, and which addresses are indexed are not checked. An address
      that is missing is only noticed for ids other than 0, since looking it up makes the entry 0. */
  ghost predicate Unchecked(h: Hashing, nKey: seq<nat>, t: Tables) {
    && (forall b :: 0 <= b < |t.vvTried| ==> |t.vvTried[b]| <= TRIED_BUCKET_SIZE)
    && (forall b :: 0 <= b < |t.vvNew| ==> |t.vvNew[b]| <= NEW_BUCKET_SIZE)
    && (forall b, id :: 0 <= b < |t.vvTried| && id in t.vvTried[b] && id in t.mapInfo ==>
          h.TriedBucket(nKey, t.mapInfo[id].service) == b)
    && t.mapAddr.Keys == set id | id in t.mapInfo :: t.mapInfo[id].service.ip
  }

  lemma {:induction false} SetOfSeq(q: seq<int>)
    ensures |set x | x in q| <= |q|
    ensures |set x | x in q| == |q| ==> Distinct(q)
  {
    if q != [] {
      var n := |q| - 1;
      var front := q[..n];
      SetOfSeq(front);
      assert (set x | x in q) == (set x | x in front) + {q[n]};
      assert forall i :: 0 <= i < n ==> q[i] == front[i] && front[i] in front;
    }
  }

  lemma SameSize(a: set<int>, b: set<int>)
    requires a <= b && |b| <= |a|
    ensures a == b
  {
    assert b == a + (b - a);
  }

  lemma PassedRandom(t: Tables)
    requires Passes(t)
    ensures RandomOk(t.mapInfo, t.vRandom)
  {
    var m, q := t.mapInfo, t.vRandom;
    forall id | id in m
      ensures 0 <= m[id].nRandomPos < |q| && q[m[id].nRandomPos] == id
    {
      assert InfoPasses(t, id);
    }
    var all := set x | x in q;
    assert m.Keys <= all;
    SplitCount(m);
    SetOfSeq(q);
    SameSize(m.Keys, all);
    forall p | 0 <= p < |q|
      ensures q[p] in m && m[q[p]].nRandomPos == p
    {
      assert q[p] in all;
    }
  }

  lemma PassedAddresses(h: Hashing, nKey: seq<nat>, t: Tables)
    requires Passes(t) && Unchecked(h, nKey, t)
    ensures AddrOk(t.mapInfo, t.mapAddr)
  {
    forall id | id in t.mapInfo
      ensures t.mapInfo[id].service.ip in t.mapAddr && t.mapAddr[t.mapInfo[id].service.ip] == id
    {
      assert InfoPasses(t, id);
      assert t.mapInfo[id].service.ip in t.mapAddr.Keys;
    }
    forall a | a in t.mapAddr
      ensures t.mapAddr[a] in t.mapInfo && t.mapInfo[t.mapAddr[a]].service.ip == a
    {
      assert a in t.mapAddr.Keys;
    }
  }

  lemma PassedNew(h: Hashing, nKey: seq<nat>, t: Tables)
    requires Shape(t) && Passes(t) && Unchecked(h, nKey, t)
    ensures NewMembersOk(t.mapInfo, t.vvNew) && RefsOk(t.mapInfo, t.vvNew, NONE)
  {
    hide NewTally;
    forall b, id | 0 <= b < |t.vvNew| && id in t.vvNew[b]
      ensures id in t.mapInfo && !t.mapInfo[id].fInTried
    {
      NewTallyIsHolding(t.vvNew, id);
      assert b in Holding(t.vvNew, id);
      assert NewTally(t.vvNew)[id] == Target(t.mapInfo, id);
    }
    forall id | id in t.mapInfo && !t.mapInfo[id].fInTried
      ensures t.mapInfo[id].nRefCount == |Holding(t.vvNew, id)|
      ensures 1 <= t.mapInfo[id].nRefCount <= NEW_BUCKETS_PER_ADDRESS
    {
      NewTallyIsHolding(t.vvNew, id);
      assert NewTally(t.vvNew)[id] == Target(t.mapInfo, id);
      assert InfoPasses(t, id);
    }
  }

  lemma BucketTallied(vvTried: seq<seq<int>>, b: nat, id: int)
    requires b < |vvTried|
    ensures multiset(vvTried[b])[id] <= TriedTally(vvTried)[id]
  {
    hide TriedTally;
    TriedTallyGrows(vvTried, b);
  }

  lemma {:induction false} TalliedSomewhere(vvTried: seq<seq<int>>, id: int)
    requires id in TriedTally(vvTried)
    ensures exists b :: 0 <= b < |vvTried| && id in vvTried[b]
    decreases |vvTried|
  {
    var n := |vvTried| - 1;
    if id !in vvTried[n] {
      TalliedSomewhere(vvTried[..n], id);
      var b :| 0 <= b < n && id in vvTried[..n][b];
      assert id in vvTried[b];
    }
  }

  lemma {:induction false} OnceDistinct(q: seq<int>)
    requires forall id :: multiset(q)[id] <= 1
    ensures Distinct(q)
  {
    if q != [] {
      var n := |q| - 1;
      var front := q[..n];
      assert q == front + [q[n]];
      assert forall id :: multiset(front)[id] <= multiset(q)[id];
      OnceDistinct(front);
      assert q[n] !in multiset(front);
      forall i | 0 <= i < n
        ensures q[i] != q[n]
      {
        assert front[i] in multiset(front);
      }
    }
  }

  lemma PassedTried(h: Hashing, nKey: seq<nat>, t: Tables)
    requires Passes(t) && Unchecked(h, nKey, t)
    ensures TriedMembersOk(h, nKey, t.mapInfo, t.vvTried) && TriedPlacedOk(h, nKey, t.mapInfo, t.vvTried)
  {
    hide TriedTally;
    var m, tally := t.mapInfo, multiset(TriedIds(t.mapInfo));
    forall b | 0 <= b < |t.vvTried|
      ensures Distinct(t.vvTried[b])
    {
      forall id
        ensures multiset(t.vvTried[b])[id] <= 1
      {
        BucketTallied(t.vvTried, b, id);
        assert tally[id] <= 1;
      }
      OnceDistinct(t.vvTried[b]);
    }
    forall b, id | 0 <= b < |t.vvTried| && id in t.vvTried[b]
      ensures id in m && m[id].fInTried && h.TriedBucket(nKey, m[id].service) == b
    {
      BucketTallied(t.vvTried, b, id);
      assert id in multiset(t.vvTried[b]) && id in tally;
    }
    forall id | id in m && m[id].fInTried
      ensures m[id].nRefCount == 0
      ensures var b := h.TriedBucket(nKey, m[id].service); b < |t.vvTried| && id in t.vvTried[b]
    {
      assert InfoPasses(t, id);
      assert id in TriedTally(t.vvTried);
      TalliedSomewhere(t.vvTried, id);
    }
  }

  lemma PassedTimes(t: Tables)
    requires Passes(t)
    ensures TimesOk(t.mapInfo)
  {
    forall id | id in t.mapInfo
      ensures InfoPasses(t, id)
    {
    }
  }

  lemma KeysIndexed(m: Infos, mapAddr: map<NetAddr, int>)
    requires AddrOk(m, mapAddr)
    ensures mapAddr.Keys == set id | id in m :: m[id].service.ip
  {
    forall a | a in mapAddr
      ensures a in set id | id in m :: m[id].service.ip
    {
      var id := mapAddr[a];
      assert id in m && m[id].service.ip == a;
    }
  }

  /** The tables are consistent with their times in order exactly when the check passes and what it leaves open
      holds. */
  lemma PassesExactly(h: Hashing, nKey: seq<nat>, t: Tables)
    ensures Consistent(h, nKey, t) && TimesOk(t.mapInfo) <==> Shape(t) && Unchecked(h, nKey, t) && Passes(t)
  {
    if Consistent(h, nKey, t) && TimesOk(t.mapInfo) {
      ConsistentPasses(h, nKey, t);
      KeysIndexed(t.mapInfo, t.mapAddr);
    }
    if Shape(t) && Unchecked(h, nKey, t) && Passes(t) {
      PassedRandom(t);
      PassedAddresses(h, nKey, t);
      PassedNew(h, nKey, t);
      PassedTried(h, nKey, t);
      PassedTimes(t);
    }
  }
}
