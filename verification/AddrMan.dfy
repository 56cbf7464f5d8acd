/** The stochastic address manager: a class over the tables, one method per operation. */
module AddrMan {
  import opened AddrTables
  import opened AddrInvariant
  import opened AddrSampling
  import AddrStore
  import opened BitNumbers
  import opened Ordered
  import opened Wrappers

  const HORIZON_DAYS: int := 30
  const RETRIES: int := 3
  const MAX_FAILURES: int := 10
  const MIN_FAIL_DAYS: int := 7
  const TRIED_ENTRIES_INSPECT_ON_EVICT: int := 4
  const GETADDR_MAX_PCT: int := 23
  const GETADDR_MAX: int := 2500

  /** Conversion to the unsigned 32-bit `nTime` field. */
  function U32(x: int): (r: nat)
    ensures r < 0x1_0000_0000
    ensures 0 <= x < 0x1_0000_0000 ==> r == x
  {
    x % 0x1_0000_0000
  }

  predicate IsTerrible(info: Info, nNow: int) {
    if info.nLastTry != 0 && info.nLastTry >= nNow - 60 then false
    else
      || info.nTime > nNow + 10 * 60
      || info.nTime == 0
      || nNow - info.nTime > HORIZON_DAYS * 24 * 60 * 60
      || (info.nLastSuccess == 0 && info.nAttempts >= RETRIES)
      || (nNow - info.nLastSuccess > MIN_FAIL_DAYS * 24 * 60 * 60 && info.nAttempts >= MAX_FAILURES)
  }

  method GetRandInt(nMax: int) returns (r: int)
    ensures if nMax <= 0 then r == 0 else 0 <= r < nMax
  {
    r := 0;
    if nMax > 0 {
      r :| 0 <= r < nMax;
    }
  }

  /** `new buckets from `i` on that hold `id`. */
  ghost function HoldingFrom(vvNew: seq<set<int>>, id: int, i: int): set<int> {
    set b | i <= b < |vvNew| && 0 <= b && id in vvNew[b]
  }

  /** The entry for exactly this address and port is present. */
  predicate Knows(t: Tables, addr: Service) {
    addr.ip in t.mapAddr && t.mapAddr[addr.ip] in t.mapInfo && t.mapInfo[t.mapAddr[addr.ip]].service == addr
  }

  /** An entry for this address and port is the one that its address is indexed under. */
  lemma OnlyService(m: Infos, mapAddr: map<NetAddr, int>, addr: Service)
    requires AddrOk(m, mapAddr)
    ensures forall id :: id in m && m[id].service == addr ==> addr.ip in mapAddr && mapAddr[addr.ip] == id
  {
  }

  function Seen(info: Info, nTime: int): Info {
    info.(nLastSuccess := nTime, nLastTry := nTime, nTime := U32(nTime), nAttempts := 0)
  }

  function Rotated(n: int, nRnd: int, size: int): (b: int)
    requires 0 <= n < size && 0 <= nRnd < size
    ensures b == if n + nRnd < size then n + nRnd else n + nRnd - size
  {
    (n + nRnd) % size
  }

  lemma HeldSomewhere(vvNew: seq<set<int>>, id: int)
    requires |Holding(vvNew, id)| >= 1
    ensures exists b :: 0 <= b < |vvNew| && id in vvNew[b]
  {
    HasMember(Holding(vvNew, id));
  }

  /** The same recorded times; only `nId` may have become tried. */
  ghost predicate SameTimes(m: Infos, m': Infos, nId: int) {
    forall id :: id in m && id in m' ==>
      && m'[id].nLastTry == m[id].nLastTry
      && m'[id].nLastSuccess == m[id].nLastSuccess
      && (id != nId && m'[id].fInTried ==> m[id].fInTried)
  }

  class CAddrMan {
    const h: Hashing
    var nKey: seq<nat>
    var nIdCount: int
    var mapInfo: map<int, Info>
    var mapAddr: map<NetAddr, int>
    var vRandom: seq<int>
    var nTried: int
    var vvTried: seq<seq<int>>
    var nNew: int
    var vvNew: seq<set<int>>

    ghost function T(): Tables
      reads this
    {
      Tables(nIdCount, mapInfo, mapAddr, vRandom, nTried, vvTried, nNew, vvNew)
    }

    ghost predicate Valid()
      reads this
    {
      Consistent(h, nKey, T())
    }

    constructor (hashing: Hashing, key: seq<nat>)
      ensures Valid() && h == hashing && nKey == key
      ensures mapInfo == map[] && TimesOk(mapInfo)
    {
      h := hashing;
      nKey := key;
      nIdCount, nTried, nNew := 0, 0, 0;
      mapInfo, mapAddr, vRandom := map[], map[], [];
      vvTried := seq(TRIED_BUCKET_COUNT, _ => []);
      vvNew := seq(NEW_BUCKET_COUNT, _ => {});
      new;
      assert NewIds(mapInfo) == {} && TriedIds(mapInfo) == {};
    }

    method Find(ip: NetAddr) returns (found: bool, nId: int)
      ensures found <==> ip in mapAddr && mapAddr[ip] in mapInfo
      ensures found ==> nId == mapAddr[ip]
    {
      found, nId := false, 0;
      if ip in mapAddr {
        nId := mapAddr[ip];
        found := nId in mapInfo;
      }
    }

    method Create(addr: Address, addrSource: NetAddr) returns (nId: int)
      modifies this`nIdCount, this`mapInfo, this`mapAddr, this`vRandom
      ensures nId == old(nIdCount)
      ensures T() == Created(old(T()), addr, addrSource)
      ensures mapInfo == old(mapInfo)[nId := Info(addr.service, addr.nServices, addr.nTime, 0, addrSource, 0, 0, 0,
                                                  false, |old(vRandom)|)]
    {
      nId := nIdCount;
      nIdCount := nIdCount + 1;
      var info := Info(addr.service, addr.nServices, addr.nTime, 0, addrSource, 0, 0, 0, false, -1);
      mapInfo := mapInfo[nId := info];
      mapAddr := mapAddr[addr.service.ip := nId];
      mapInfo := mapInfo[nId := mapInfo[nId].(nRandomPos := |vRandom|)];
      vRandom := vRandom + [nId];
    }

    method SwapRandom(nRndPos1: int, nRndPos2: int)
      requires nRndPos1 == nRndPos2 || CanSwap(T(), nRndPos1, nRndPos2)
      modifies this`mapInfo, this`vRandom
      ensures T() == Swapped(old(T()), nRndPos1, nRndPos2)
    {
      if nRndPos1 == nRndPos2 {
        return;
      }
      assert nRndPos1 < |vRandom| && nRndPos2 < |vRandom|;
      var nId1 := vRandom[nRndPos1];
      var nId2 := vRandom[nRndPos2];
      assert nId1 in mapInfo;
      assert nId2 in mapInfo;
      mapInfo := mapInfo[nId1 := mapInfo[nId1].(nRandomPos := nRndPos2)];
      mapInfo := mapInfo[nId2 := mapInfo[nId2].(nRandomPos := nRndPos1)];
      vRandom := vRandom[nRndPos1 := nId2];
      vRandom := vRandom[nRndPos2 := nId1];
    }

    /** Permutes the bucket while sampling it; the result is where the oldest entry sampled was drawn from. */
    method SelectTried(nKBucket: int) returns (nOldestPos: int, ghost draws: seq<int>)
      requires 0 <= nKBucket < |vvTried| && vvTried[nKBucket] != []
      requires forall j :: 0 <= j < |vvTried[nKBucket]| ==>
                 vvTried[nKBucket][j] in mapInfo && vvTried[nKBucket][j] != NONE
      modifies this`vvTried
      ensures Shuffled(old(T()), T(), nKBucket)
      ensures 0 <= nOldestPos < |vvTried[nKBucket]|
      ensures Sampled(mapInfo, old(vvTried[nKBucket]), vvTried[nKBucket], draws, nOldestPos)
    {
      hide Drawn, OldestTurn, Exchange;
      var vTried := vvTried[nKBucket];
      ghost var q := vTried;
      NoDraws(q);
      var nOldest := NONE;
      nOldestPos := -1;
      draws := [];
      var i := 0;
      while i < TRIED_ENTRIES_INSPECT_ON_EVICT && i < |vTried|
        invariant 0 <= i <= TRIED_ENTRIES_INSPECT_ON_EVICT && i == |draws| <= |vTried| == |q|
        invariant vvTried == old(vvTried)[nKBucket := vTried]
        invariant Sampling(mapInfo, q, vTried, draws, nOldest, nOldestPos)
        invariant i == 0 <==> nOldest == NONE
        invariant forall j :: 0 <= j < |vTried| ==> vTried[j] in mapInfo && vTried[j] != NONE
      {
        var r := GetRandInt(|vTried| - i);
        TurnSamples(mapInfo, q, vTried, draws, nOldest, nOldestPos, r);
        ghost var was, next := vTried, Exchange(vTried, i, i + r);
        var nPos := r + i;
        var nTemp := vTried[nPos];
        vTried := vTried[nPos := vTried[i]];
        vTried := vTried[i := nTemp];
        assert vTried == next by { ExchangeIs(was, i, nPos); }
        vvTried := vvTried[nKBucket := vTried];
        assert nOldest == NONE || nTemp in mapInfo;
        if nOldest == NONE || mapInfo[nTemp].nLastSuccess < mapInfo[nOldest].nLastSuccess {
          nOldest := nTemp;
          nOldestPos := nPos;
        }
        draws := draws + [r];
        i := i + 1;
      }
      DrawnPermutes(q, draws);
    }

    /** One reference fewer; the last one removes the entry. This is the only place that deletes. */
    method DropReference(nUBucket: int, id: int)
      requires 0 <= nUBucket < |vvNew| && id in mapInfo
      requires CanSwap(T(), mapInfo[id].nRandomPos, |vRandom| - 1)
      modifies this`mapInfo, this`vRandom, this`mapAddr, this`nNew, this`vvNew
      ensures T() == Dropped(old(T()), nUBucket, id)
    {
      ghost var t := T();
      mapInfo := mapInfo[id := mapInfo[id].(nRefCount := mapInfo[id].nRefCount - 1)];
      ghost var d := DecRef(t, id);
      assert T() == d;
      if mapInfo[id].nRefCount == 0 {
        SwapRandom(mapInfo[id].nRandomPos, |vRandom| - 1);
        assert T() == Swapped(d, d.mapInfo[id].nRandomPos, |d.vRandom| - 1);
        assert mapInfo[id].service == d.mapInfo[id].service;
        vRandom := vRandom[..|vRandom| - 1];
        mapAddr := mapAddr - {mapInfo[id].service.ip};
        mapInfo := mapInfo - {id};
        nNew := nNew - 1;
        assert T() == Removed(d, id);
      }
      vvNew := vvNew[nUBucket := vvNew[nUBucket] - {id}];
    }

    method FirstTerrible(ids: seq<int>, nNow: int) returns (k: int)
      requires forall j :: 0 <= j < |ids| ==> ids[j] in mapInfo
      ensures 0 <= k <= |ids|
      ensures forall j :: 0 <= j < k ==> !IsTerrible(mapInfo[ids[j]], nNow)
      ensures k < |ids| ==> IsTerrible(mapInfo[ids[k]], nNow)
    {
      k := 0;
      while k < |ids|
        invariant 0 <= k <= |ids|
        invariant forall j :: 0 <= j < k ==> !IsTerrible(mapInfo[ids[j]], nNow)
      {
        assert ids[k] in mapInfo;
        if IsTerrible(mapInfo[ids[k]], nNow) {
          return;
        }
        k := k + 1;
      }
    }

    /** The least recently seen of the ids at the sampled positions. */
    method OldestSampled(ids: seq<int>, n: seq<int>) returns (nOldest: int)
      requires forall j :: 0 <= j < |ids| ==> ids[j] in mapInfo && ids[j] != NONE
      requires n != [] && forall i :: 0 <= i < |n| ==> 0 <= n[i] < |ids|
      ensures exists i :: 0 <= i < |n| && nOldest == ids[n[i]]
      ensures nOldest in mapInfo && forall i :: 0 <= i < |n| ==> mapInfo[nOldest].nTime <= mapInfo[ids[n[i]]].nTime
    {
      var nI := 0;
      nOldest := NONE;
      while nI < |ids|
        invariant 0 <= nI <= |ids|
        invariant nOldest != NONE ==> nOldest in mapInfo && exists i :: 0 <= i < |n| && nOldest == ids[n[i]]
        invariant forall i :: 0 <= i < |n| && n[i] < nI ==>
                    nOldest != NONE && mapInfo[nOldest].nTime <= mapInfo[ids[n[i]]].nTime
      {
        if nI in n {
          assert ids[nI] in mapInfo;
          if nOldest == NONE || mapInfo[ids[nI]].nTime < mapInfo[nOldest].nTime {
            nOldest := ids[nI];
          }
        }
        nI := nI + 1;
      }
      assert n[0] < nI;
    }

    /** Four random positions, and the least recently seen entry among them. */
    method SampleFour(ids: seq<int>) returns (nOldest: int, ghost picks: seq<int>)
      requires ids != [] && forall j :: 0 <= j < |ids| ==> ids[j] in mapInfo && ids[j] != NONE
      ensures |picks| == 4 && nOldest in picks && nOldest in mapInfo
      ensures forall i :: 0 <= i < 4 ==>
                picks[i] in ids && picks[i] in mapInfo && mapInfo[nOldest].nTime <= mapInfo[picks[i]].nTime
    {
      var n0 := GetRandInt(|ids|);
      var n1 := GetRandInt(|ids|);
      var n2 := GetRandInt(|ids|);
      var n3 := GetRandInt(|ids|);
      var n := [n0, n1, n2, n3];
      nOldest := OldestSampled(ids, n);
      picks := [ids[n0], ids[n1], ids[n2], ids[n3]];
      assert forall i :: 0 <= i < 4 ==> picks[i] == ids[n[i]];
      ghost var i :| 0 <= i < |n| && nOldest == ids[n[i]];
      assert picks[i] == nOldest;
    }

    /** What ShrinkNew removes: the first terrible entry, or else the least recently seen of four sampled ones. */
    static ghost predicate GoodVictim(m: Infos, bucket: set<int>, nNow: int, r: int, victim: int, picks: seq<int>)
    {
      && (forall id :: id in bucket ==> id in m) && victim in bucket
      && (r == 0 || r == 1)
      && (r == 0 ==>
            && IsTerrible(m[victim], nNow)
            && forall id :: id in bucket && id < victim ==> !IsTerrible(m[id], nNow))
      && (r == 1 ==>
            && (forall id :: id in bucket ==> !IsTerrible(m[id], nNow))
            && |picks| == 4 && victim in picks
            && forall i :: 0 <= i < 4 ==> picks[i] in bucket && m[victim].nTime <= m[picks[i]].nTime)
    }

    method ChooseVictim(nUBucket: int, nNow: int) returns (r: int, victim: int, ghost picks: seq<int>)
      requires 0 <= nUBucket < |vvNew| && vvNew[nUBucket] != {}
      requires forall id :: id in vvNew[nUBucket] ==> id in mapInfo && id != NONE
      ensures victim in vvNew[nUBucket] && (r == 0 <==> IsTerrible(mapInfo[victim], nNow)) && (r == 0 || r == 1)
      ensures GoodVictim(mapInfo, vvNew[nUBucket], nNow, r, victim, picks)
    {
      var vNew := SortedIds(vvNew[nUBucket]);
      SortedMembers(vvNew[nUBucket]);
      var k := FirstTerrible(vNew, nNow);
      if k < |vNew| {
        r, victim, picks := 0, vNew[k], [];
        FirstOfSorted(mapInfo, vvNew[nUBucket], nNow, k);
      } else {
        FirstOfSorted(mapInfo, vvNew[nUBucket], nNow, k);
        victim, picks := SampleFour(vNew);
        r := 1;
      }
    }

    static lemma SortedMembers(s: set<int>)
      ensures forall j :: 0 <= j < |SortedIds(s)| ==> SortedIds(s)[j] in s
      ensures s != {} ==> SortedIds(s) != []
    {
    }

    /** If no position before `k` is terrible, no id before the one at `k` is. */
    static lemma FirstOfSorted(m: Infos, bucket: set<int>, nNow: int, k: int)
      requires forall id :: id in bucket ==> id in m
      requires var q := SortedIds(bucket);
               0 <= k <= |q| && forall j :: 0 <= j < k ==> q[j] in bucket && !IsTerrible(m[q[j]], nNow)
      ensures var q := SortedIds(bucket);
              forall id :: id in bucket && (k < |q| ==> id < q[k]) ==> !IsTerrible(m[id], nNow)
    {
      var q := SortedIds(bucket);
      forall id | id in bucket && (k < |q| ==> id < q[k])
        ensures !IsTerrible(m[id], nNow)
      {
        assert id in q;
        var j :| 0 <= j < |q| && q[j] == id;
        assert j < k;
      }
    }

    /** Makes room in a new bucket. `pending` is an entry with one reference counted in advance. */
    method ShrinkNew(nUBucket: int, nNow: int, ghost pending: int)
      returns (r: int, ghost victim: int, ghost picks: seq<int>)
      requires ConsistentBut(h, nKey, T(), pending)
      requires 0 <= nUBucket < |vvNew| && vvNew[nUBucket] != {} && pending !in vvNew[nUBucket]
      modifies this`mapInfo, this`vRandom, this`mapAddr, this`nNew, this`vvNew
      ensures GoodVictim(old(mapInfo), old(vvNew[nUBucket]), nNow, r, victim, picks)
      ensures victim in old(mapInfo) && CanSwap(old(T()), old(mapInfo)[victim].nRandomPos, |old(vRandom)| - 1)
      ensures T() == Dropped(old(T()), nUBucket, victim)
    {
      forall id | id in vvNew[nUBucket]
        ensures id in mapInfo && id != NONE
      {
        assert NewMembersOk(mapInfo, vvNew) && IdsBelow(mapInfo, nIdCount);
      }
      var chosen;
      r, chosen, picks := ChooseVictim(nUBucket, nNow);
      victim := chosen;
      assert chosen in mapInfo;
      DroppedKeeps(h, nKey, T(), nUBucket, chosen, pending);
      DropReference(nUBucket, chosen);
    }

    /** Takes an entry out of every new bucket. */
    method DetachFromNew(nId: int)
      requires nId in mapInfo && mapInfo[nId].nRefCount == |Holding(vvNew, nId)|
      modifies this`mapInfo, this`nNew, this`vvNew
      ensures T() == Detached(old(T()), nId)
    {
      ghost var m, w, info := mapInfo, vvNew, mapInfo[nId];
      ghost var count := info.nRefCount;
      assert HoldingFrom(w, nId, 0) == Holding(w, nId);
      assert m == m[nId := info];
      var it := 0;
      while it < |vvNew|
        invariant 0 <= it <= |vvNew| == |w|
        invariant forall b :: 0 <= b < |w| ==> vvNew[b] == if b < it then w[b] - {nId} else w[b]
        invariant nNew == old(nNew)
        invariant count == |HoldingFrom(w, nId, it)|
        invariant mapInfo == m[nId := info.(nRefCount := count)]
      {
        HoldingStep(w, nId, it);
        if nId in vvNew[it] {
          vvNew := vvNew[it := vvNew[it] - {nId}];
          mapInfo := mapInfo[nId := mapInfo[nId].(nRefCount := mapInfo[nId].nRefCount - 1)];
          count := count - 1;
        }
        it := it + 1;
      }
      assert HoldingFrom(w, nId, |vvNew|) == {};
      nNew := nNew - 1;
      assert mapInfo[nId].nRefCount == 0;
      assert vvNew == ClearedBuckets(w, nId);
    }

    static lemma HoldingStep(vvNew: seq<set<int>>, id: int, i: int)
      requires 0 <= i < |vvNew|
      ensures |HoldingFrom(vvNew, id, i)| == |HoldingFrom(vvNew, id, i + 1)| + (if id in vvNew[i] then 1 else 0)
    {
      if id in vvNew[i] {
        assert HoldingFrom(vvNew, id, i) == HoldingFrom(vvNew, id, i + 1) + {i};
      } else {
        assert HoldingFrom(vvNew, id, i) == HoldingFrom(vvNew, id, i + 1);
      }
    }

    /** Puts a detached entry at position `nPos` of a tried bucket and sends the entry there back to new. */
    method ReplaceTried(nId: int, nKBucket: int, nPos: int, nOrigin: int)
      requires Shape(T()) && nId in mapInfo && 0 <= nOrigin < |vvNew|
      requires 0 <= nKBucket < |vvTried| && 0 <= nPos < |vvTried[nKBucket]| && vvTried[nKBucket][nPos] in mapInfo
      modifies this`mapInfo, this`nNew, this`vvNew, this`vvTried
      ensures T() == Exchanged(h, nKey, old(T()), nId, nKBucket, nPos, nOrigin)
    {
      var nOld := vvTried[nKBucket][nPos];
      var nUBucket := h.NewBucket(nKey, mapInfo[nOld].service, mapInfo[nOld].source);
      mapInfo := mapInfo[nOld := mapInfo[nOld].(fInTried := false, nRefCount := 1)];
      if |vvNew[nUBucket]| < NEW_BUCKET_SIZE {
        vvNew := vvNew[nUBucket := vvNew[nUBucket] + {nOld}];
      } else {
        vvNew := vvNew[nOrigin := vvNew[nOrigin] + {nOld}];
      }
      nNew := nNew + 1;
      vvTried := vvTried[nKBucket := vvTried[nKBucket][nPos := nId]];
      mapInfo := mapInfo[nId := mapInfo[nId].(fInTried := true)];
    }

    /**
     * What MakeTried leaves: the entry added to its tried bucket if there is room; otherwise the
     * bucket is sampled and the entry takes the place of the one at the position found, which goes back to new.
     */
    ghost predicate MovedToTried(t: Tables, t': Tables, nId: int, nOrigin: int, mid: Tables, nPos: int,
                                 draws: seq<int>)
      reads this`nKey
      requires nId in t.mapInfo
    {
      var kb := h.TriedBucket(nKey, t.mapInfo[nId].service);
      && 0 <= kb < |t.vvTried|
      && if |t.vvTried[kb]| < TRIED_BUCKET_SIZE then t' == Promoted(Detached(t, nId), nId, kb)
         else
           && Shuffled(t, mid, kb) && kb < |mid.vvTried|
           && Sampled(Detached(t, nId).mapInfo, t.vvTried[kb], mid.vvTried[kb], draws, nPos)
           && 0 <= nPos < |mid.vvTried[kb]| && mid.vvTried[kb][nPos] in mid.mapInfo
           && Shape(Detached(mid, nId)) && 0 <= nOrigin < |mid.vvNew|
           && t' == Exchanged(h, nKey, Detached(mid, nId), nId, kb, nPos, nOrigin)
    }

    /** Moves a new entry to the tried table, evicting an entry back to new when its bucket is full. */
    method MakeTried(nId: int, nOrigin: int) returns (ghost mid: Tables, ghost nPos: int, ghost draws: seq<int>)
      requires Valid() && nId in mapInfo && !mapInfo[nId].fInTried
      requires 0 <= nOrigin < |vvNew| && nId in vvNew[nOrigin]
      modifies this`mapInfo, this`nNew, this`vvNew, this`nTried, this`vvTried
      ensures Valid()
      ensures MovedToTried(old(T()), T(), nId, nOrigin, mid, nPos, draws)
    {
      ghost var t := T();
      mid, nPos, draws := t, 0, [];
      assert nId in vvNew[nOrigin];
      assert RefsOk(mapInfo, vvNew, NONE) && NONE !in mapInfo;
      DetachFromNew(nId);
      assert mapInfo[nId].nRefCount == 0;

      var nKBucket := h.TriedBucket(nKey, mapInfo[nId].service);
      if |vvTried[nKBucket]| < TRIED_BUCKET_SIZE {
        PromotedKeeps(h, nKey, t, nId);
        vvTried := vvTried[nKBucket := vvTried[nKBucket] + [nId]];
        nTried := nTried + 1;
        mapInfo := mapInfo[nId := mapInfo[nId].(fInTried := true)];
        assert T() == Promoted(Detached(t, nId), nId, nKBucket);
      } else {
        TriedBucketMembers(t, nId, nKBucket);
        var nSel, drawn := SelectTried(nKBucket);
        nPos, draws := nSel, drawn;
        mid := t.(vvTried := vvTried);
        ShuffledKeeps(h, nKey, t, mid, nKBucket);
        ExchangedKeeps(h, nKey, mid, nId, nKBucket, nSel, nOrigin);
        assert T() == Detached(mid, nId);
        ReplaceTried(nId, nKBucket, nSel, nOrigin);
      }
    }

    /** The entry evicted is the least recently successful one of the four sampled exactly when that one was drawn in
        its own place. */
    lemma EvictsTheOldest(t: Tables, t': Tables, nId: int, nOrigin: int, mid: Tables, nPos: int, draws: seq<int>)
      requires Consistent(h, nKey, t) && nId in t.mapInfo && MovedToTried(t, t', nId, nOrigin, mid, nPos, draws)
      requires |t.vvTried[h.TriedBucket(nKey, t.mapInfo[nId].service)]| >= TRIED_BUCKET_SIZE
      ensures var r := mid.vvTried[h.TriedBucket(nKey, t.mapInfo[nId].service)];
        && |draws| == 4 <= |r| && (forall j :: 0 <= j < 4 ==> r[j] in t.mapInfo)
        && var at := OldestTurn(t.mapInfo, r, 4);
           (r[nPos] == r[at] <==> draws[at] == 0)
    {
      hide Drawn, OldestTurn;
      var kb := h.TriedBucket(nKey, t.mapInfo[nId].service);
      var m := Detached(t, nId).mapInfo;
      OldestIfInPlace(m, t.vvTried[kb], mid.vvTried[kb], draws, nPos);
      SameTimesOldest(t.mapInfo, m, mid.vvTried[kb], 4);
    }

    /** The entry evicted from a full tried bucket goes back to the new bucket of its source if that has room once the
        incoming entry has left, and else to the bucket this one was found in; it is in that bucket only. */
    lemma EvictedGoesHome(t: Tables, t': Tables, nId: int, nOrigin: int, mid: Tables, nPos: int, draws: seq<int>)
      requires Consistent(h, nKey, t) && nId in t.mapInfo && MovedToTried(t, t', nId, nOrigin, mid, nPos, draws)
      requires |t.vvTried[h.TriedBucket(nKey, t.mapInfo[nId].service)]| >= TRIED_BUCKET_SIZE
      ensures var gone := mid.vvTried[h.TriedBucket(nKey, t.mapInfo[nId].service)][nPos];
        gone in t.mapInfo
        && var home := h.NewBucket(nKey, t.mapInfo[gone].service, t.mapInfo[gone].source);
           forall b :: 0 <= b < |t'.vvNew| ==>
             (gone in t'.vvNew[b] <==> b == if |t.vvNew[home] - {nId}| < NEW_BUCKET_SIZE then home else nOrigin)
    {
      hide Sampled;
      var kb := h.TriedBucket(nKey, t.mapInfo[nId].service);
      var gone := mid.vvTried[kb][nPos];
      assert gone in multiset(t.vvTried[kb]);
      assert gone in t.vvTried[kb];
      assert TriedMembersOk(h, nKey, t.mapInfo, t.vvTried) && NewMembersOk(t.mapInfo, t.vvNew);
      hide Consistent, TriedMembersOk, NewMembersOk, Shuffled;
    }

    lemma TriedMember(m: Infos, vvTried: seq<seq<int>>, n: int, kb: int, j: int)
      requires TriedMembersOk(h, nKey, m, vvTried) && IdsBelow(m, n)
      requires 0 <= kb < |vvTried| && 0 <= j < |vvTried[kb]|
      ensures vvTried[kb][j] in m && vvTried[kb][j] != NONE
    {
      var id := vvTried[kb][j];
      assert id in vvTried[kb];
    }

    lemma TriedBucketMembers(t: Tables, nId: int, kb: int)
      requires Consistent(h, nKey, t) && nId in t.mapInfo && 0 <= kb < |t.vvTried|
      ensures forall j :: 0 <= j < |t.vvTried[kb]| ==>
                t.vvTried[kb][j] in Detached(t, nId).mapInfo && t.vvTried[kb][j] != NONE
    {
      hide TriedMembersOk, IdsBelow;
      forall j | 0 <= j < |t.vvTried[kb]|
        ensures t.vvTried[kb][j] in t.mapInfo && t.vvTried[kb][j] != NONE
      {
        TriedMember(t.mapInfo, t.vvTried, t.nIdCount, kb, j);
      }
    }

    /** A successful connection: the entry is stamped and, unless it is tried already, moved to tried. */
    method Good_(addr: Service, nTime: int)
      returns (ghost origin: int, ghost mid: Tables, ghost nPos: int, ghost draws: seq<int>)
      requires Valid()
      modifies this`mapInfo, this`nNew, this`vvNew, this`nTried, this`vvTried
      ensures Valid()
      ensures !Knows(old(T()), addr) ==> T() == old(T())
      ensures Knows(old(T()), addr) ==>
                var id := old(mapAddr)[addr.ip];
                var t := Touch(old(T()), id, Seen(old(mapInfo)[id], nTime));
                && id in mapInfo && mapInfo[id].fInTried
                && if old(mapInfo)[id].fInTried then T() == t
                   else MovedToTried(t, T(), id, origin, mid, nPos, draws)
      ensures (forall id :: id in old(mapInfo) ==> old(mapInfo)[id].service != addr) ==> T() == old(T())
      ensures forall id :: id in old(mapInfo) && old(mapInfo)[id].service == addr ==>
                && id in mapInfo && mapInfo[id].fInTried && mapInfo[id].nLastSuccess == mapInfo[id].nLastTry == nTime
                && mapInfo[id].nTime == U32(nTime) && mapInfo[id].nAttempts == 0 && mapInfo[id].service == addr
      ensures old(TimesOk(mapInfo)) ==> (TimesOk(mapInfo) <==> !Knows(old(T()), addr) || 0 < nTime)
    {
      origin, mid, nPos, draws := 0, T(), 0, [];
      OnlyService(mapInfo, mapAddr, addr);
      var found, nId := Find(addr.ip);
      if !found {
        return;
      }
      if mapInfo[nId].service != addr {
        return;
      }
      ghost var t := T();
      mapInfo := mapInfo[nId := mapInfo[nId].(nLastSuccess := nTime, nLastTry := nTime, nTime := U32(nTime),
                                              nAttempts := 0)];
      ghost var seen := T();
      TouchKeeps(h, nKey, t, nId, Seen(t.mapInfo[nId], nTime), NONE);
      assert seen == Touch(t, nId, Seen(t.mapInfo[nId], nTime));
      if mapInfo[nId].fInTried {
        return;
      }

      assert RefsOk(mapInfo, vvNew, NONE) && NONE !in mapInfo;
      var nRnd := GetRandInt(|vvNew|);
      var nUBucket := FindBucket(nId, nRnd);
      HeldSomewhere(vvNew, nId);
      assert nUBucket != -1;
      origin := nUBucket;
      mid, nPos, draws := MakeTried(nId, nUBucket);
      MovedTimes(seen, T(), nId, origin, mid, nPos, draws);
      if TimesOk(t.mapInfo) {
        StampedTimes(t.mapInfo, seen.mapInfo, mapInfo, nId, nTime);
      }
    }

    /** Some new bucket that holds the id, searched from a random start; -1 only if there is none. */
    method FindBucket(nId: int, nRnd: int) returns (nUBucket: int)
      requires |vvNew| > 0 && 0 <= nRnd < |vvNew|
      ensures nUBucket == -1 ==> forall b :: 0 <= b < |vvNew| ==> nId !in vvNew[b]
      ensures nUBucket != -1 ==> 0 <= nUBucket < |vvNew| && nId in vvNew[nUBucket]
    {
      var n := 0;
      while n < |vvNew|
        invariant 0 <= n <= |vvNew|
        invariant forall m :: 0 <= m < n ==> nId !in vvNew[Rotated(m, nRnd, |vvNew|)]
      {
        var nB := Rotated(n, nRnd, |vvNew|);
        if nId in vvNew[nB] {
          return nB;
        }
        n := n + 1;
      }
      nUBucket := -1;
      forall b | 0 <= b < |vvNew|
        ensures nId !in vvNew[b]
      {
        var m := if b >= nRnd then b - nRnd else b - nRnd + |vvNew|;
        assert Rotated(m, nRnd, |vvNew|) == b;
      }
    }

    lemma MovedTimes(t: Tables, t': Tables, nId: int, origin: int, mid: Tables, nPos: int, draws: seq<int>)
      requires nId in t.mapInfo && MovedToTried(t, t', nId, origin, mid, nPos, draws)
      ensures nId in t'.mapInfo
      ensures t'.mapInfo[nId] == t.mapInfo[nId].(fInTried := true, nRefCount := t'.mapInfo[nId].nRefCount)
      ensures t'.mapInfo.Keys == t.mapInfo.Keys && SameTimes(t.mapInfo, t'.mapInfo, nId)
    {
      hide Sampled, Shape;
      var kb := h.TriedBucket(nKey, t.mapInfo[nId].service);
      if |t.vvTried[kb]| >= TRIED_BUCKET_SIZE {
        ExchangedTimes(Detached(mid, nId), t', nId, kb, nPos, origin);
      }
    }

    lemma ExchangedTimes(t: Tables, t': Tables, nId: int, kb: int, nPos: int, origin: int)
      requires Shape(t) && nId in t.mapInfo && 0 <= origin < |t.vvNew|
      requires 0 <= kb < |t.vvTried| && 0 <= nPos < |t.vvTried[kb]| && t.vvTried[kb][nPos] in t.mapInfo
      requires t' == Exchanged(h, nKey, t, nId, kb, nPos, origin)
      ensures nId in t'.mapInfo
      ensures t'.mapInfo[nId] == t.mapInfo[nId].(fInTried := true, nRefCount := t'.mapInfo[nId].nRefCount)
      ensures t'.mapInfo.Keys == t.mapInfo.Keys && SameTimes(t.mapInfo, t'.mapInfo, nId)
    {
    }

    /** Stamping one entry leaves the times in order exactly if the stamp is in order. */
    static lemma StampedTimes(m0: Infos, m: Infos, m': Infos, nId: int, nTime: int)
      requires TimesOk(m0) && nId in m0 && m == m0[nId := Seen(m0[nId], nTime)]
      requires m'.Keys == m.Keys && SameTimes(m, m', nId) && m'[nId].fInTried
      ensures TimesOk(m') <==> 0 < nTime
    {
      assert nId in m'.Keys;
      forall id | id in m'
        ensures id in m && m'[id].nLastTry == m[id].nLastTry && m'[id].nLastSuccess == m[id].nLastSuccess
      {
        assert id in m.Keys;
      }
    }

    method Attempt_(addr: Service, nTime: int)
      requires Valid()
      modifies this`mapInfo
      ensures Valid()
      ensures if Knows(old(T()), addr)
              then
                var id := old(mapAddr)[addr.ip];
                T() == Touch(old(T()), id, old(mapInfo)[id].(nLastTry := nTime,
                                                             nAttempts := old(mapInfo)[id].nAttempts + 1))
              else T() == old(T())
      ensures (forall id :: id in old(mapInfo) ==> old(mapInfo)[id].service != addr) ==> T() == old(T())
      ensures forall id :: id in old(mapInfo) && old(mapInfo)[id].service == addr ==>
                mapInfo == old(mapInfo)[id := old(mapInfo)[id].(nLastTry := nTime,
                                                                 nAttempts := old(mapInfo)[id].nAttempts + 1)]
      ensures old(TimesOk(mapInfo)) ==> (TimesOk(mapInfo) <==> !Knows(old(T()), addr) || 0 <= nTime)
    {
      OnlyService(mapInfo, mapAddr, addr);
      var found, nId := Find(addr.ip);
      if !found {
        return;
      }
      if mapInfo[nId].service != addr {
        return;
      }
      ghost var info := mapInfo[nId].(nLastTry := nTime, nAttempts := mapInfo[nId].nAttempts + 1);
      TouchKeeps(h, nKey, T(), nId, info, NONE);
      mapInfo := mapInfo[nId := mapInfo[nId].(nLastTry := nTime)];
      mapInfo := mapInfo[nId := mapInfo[nId].(nAttempts := mapInfo[nId].nAttempts + 1)];
      assert mapInfo == old(mapInfo)[nId := info];
    }

    method Connected_(addr: Service, nTime: int)
      requires Valid()
      modifies this`mapInfo
      ensures Valid()
      ensures if Knows(old(T()), addr) && nTime - old(mapInfo)[old(mapAddr)[addr.ip]].nTime > 20 * 60
              then
                var id := old(mapAddr)[addr.ip];
                T() == Touch(old(T()), id, old(mapInfo)[id].(nTime := U32(nTime)))
              else T() == old(T())
      ensures (forall id :: id in old(mapInfo) ==> old(mapInfo)[id].service != addr) ==> T() == old(T())
      ensures forall id :: id in old(mapInfo) && old(mapInfo)[id].service == addr ==>
                mapInfo == if nTime - old(mapInfo)[id].nTime > 1200
                           then old(mapInfo)[id := old(mapInfo)[id].(nTime := U32(nTime))] else old(mapInfo)
      ensures old(TimesOk(mapInfo)) ==> TimesOk(mapInfo)
    {
      OnlyService(mapInfo, mapAddr, addr);
      var found, nId := Find(addr.ip);
      if !found {
        return;
      }
      if mapInfo[nId].service != addr {
        return;
      }
      var nUpdateInterval := 20 * 60;
      if nTime - mapInfo[nId].nTime > nUpdateInterval {
        TouchKeeps(h, nKey, T(), nId, mapInfo[nId].(nTime := U32(nTime)), NONE);
        mapInfo := mapInfo[nId := mapInfo[nId].(nTime := U32(nTime))];
      }
    }

    /**
     * The first part of Add_: the address is looked up or created, and a known entry is refreshed.
     * `fGoOn` says whether a reference is to be added.
     */
    method Learn(addr: Address, source: NetAddr, nTimePenalty: int, nNow: int)
      returns (fNew: bool, fGoOn: bool, nId: int, ghost draw: int)
      requires Valid()
      modifies this`nIdCount, this`mapInfo, this`mapAddr, this`vRandom, this`nNew
      ensures (T(), nId) == Learnt(old(T()), addr, source, nTimePenalty, nNow)
      ensures nId in mapInfo && (fNew <==> addr.service.ip !in old(mapAddr))
      ensures !fNew ==> Valid()
      ensures fNew ==> fGoOn && Holding(vvNew, nId) == {}
      ensures fGoOn ==> !mapInfo[nId].fInTried && ConsistentBut(h, nKey, IncRef(T(), nId), nId)
      ensures !fNew ==> Draw(mapInfo[nId], draw) && (fGoOn <==> Gains(mapInfo[nId], addr, draw))
      ensures old(TimesOk(mapInfo)) ==> TimesOk(mapInfo)
    {
      var found;
      found, nId := Find(addr.service.ip);
      fNew := !found;
      if found {
        fGoOn, draw := LearnKnown(nId, addr, nTimePenalty, nNow);
      } else {
        fGoOn, draw := true, 0;
        nId := LearnNew(addr, source, nTimePenalty);
      }
    }

    method LearnKnown(nId: int, addr: Address, nTimePenalty: int, nNow: int) returns (fGoOn: bool, ghost draw: int)
      requires Valid() && nId in mapInfo
      modifies this`mapInfo
      ensures T() == Touch(old(T()), nId, Refreshed(old(mapInfo)[nId], addr, nTimePenalty, nNow))
      ensures Valid()
      ensures Draw(mapInfo[nId], draw) && (fGoOn <==> Gains(mapInfo[nId], addr, draw))
      ensures fGoOn ==> ConsistentBut(h, nKey, IncRef(T(), nId), nId)
      ensures old(TimesOk(mapInfo)) ==> TimesOk(mapInfo)
    {
      ghost var t0 := T();
      Refresh(nId, addr, nTimePenalty, nNow);
      TouchKeeps(h, nKey, t0, nId, mapInfo[nId], NONE);
      draw := 0;
      if NoNewInfo(mapInfo[nId], addr) {
        return false, draw;
      }
      if mapInfo[nId].fInTried {
        return false, draw;
      }
      assert RefsOk(mapInfo, vvNew, NONE);
      if mapInfo[nId].nRefCount == NEW_BUCKETS_PER_ADDRESS {
        return false, draw;
      }
      var nFactor := Doubled(mapInfo[nId].nRefCount);
      if nFactor > 1 {
        var nRnd := GetRandInt(nFactor);
        draw := nRnd;
        if nRnd != 0 {
          return false, draw;
        }
      }
      IncRefKeeps(h, nKey, T(), nId);
      fGoOn := true;
    }

    method LearnNew(addr: Address, source: NetAddr, nTimePenalty: int) returns (nId: int)
      requires Valid() && addr.service.ip !in mapAddr
      modifies this`nIdCount, this`mapInfo, this`mapAddr, this`vRandom, this`nNew
      ensures nId == old(nIdCount) && nId in mapInfo && !mapInfo[nId].fInTried
      ensures T() == Created(old(T()), Aged(addr, nTimePenalty), source).(nNew := old(nNew) + 1)
      ensures ConsistentBut(h, nKey, IncRef(T(), nId), nId) && Holding(vvNew, nId) == {}
      ensures old(TimesOk(mapInfo)) ==> TimesOk(mapInfo)
    {
      ghost var t0 := T();
      CreatedKeeps(h, nKey, t0, Aged(addr, nTimePenalty), source);
      assert t0.nIdCount !in t0.mapInfo;
      HoldingOutside(mapInfo, vvNew, nIdCount);
      nId := Create(addr, source);
      mapInfo := mapInfo[nId := mapInfo[nId].(nTime := U32(AtLeastZero(mapInfo[nId].nTime - nTimePenalty)))];
      nNew := nNew + 1;
      assert mapInfo == Created(t0, Aged(addr, nTimePenalty), source).mapInfo;
      assert T() == Created(t0, Aged(addr, nTimePenalty), source).(nNew := t0.nNew + 1);
    }

    /** The full bucket `nUBucket` is shrunk, and the entry whose reference is counted already is linked. */
    method ShrinkAndLink(nId: int, nUBucket: int, nNow: int)
        returns (ghost victim: int, ghost r: int, ghost picks: seq<int>)
      requires nId in mapInfo && !mapInfo[nId].fInTried && 0 <= nUBucket < |vvNew|
      requires ConsistentBut(h, nKey, T(), nId)
      requires nId !in vvNew[nUBucket] && |vvNew[nUBucket]| == NEW_BUCKET_SIZE
      modifies this`mapInfo, this`mapAddr, this`vRandom, this`nNew, this`vvNew
      ensures Valid()
      ensures GoodVictim(old(mapInfo), old(vvNew[nUBucket]), nNow, r, victim, picks)
      ensures victim in old(mapInfo) && CanSwap(old(T()), old(mapInfo)[victim].nRandomPos, |old(vRandom)| - 1)
      ensures T() == AddrTables.Linked(Dropped(old(T()), nUBucket, victim), nUBucket, nId)
      ensures old(TimesOk(mapInfo)) ==> TimesOk(mapInfo)
    {
      ghost var u := T();
      assert vvNew[nUBucket] != {};
      var res;
      res, victim, picks := ShrinkNew(nUBucket, nNow, nId);
      r := res;
      DroppedKeeps(h, nKey, u, nUBucket, victim, nId);
      LinkedKeeps(h, nKey, T(), nUBucket, nId);
      vvNew := vvNew[nUBucket := vvNew[nUBucket] + {nId}];
    }

    /** The last part of Add_: one more reference for an entry, in bucket `nUBucket`. */
    method AddReference(nId: int, nUBucket: int, nNow: int) returns (ghost outcome: AddOutcome)
      requires nId in mapInfo && !mapInfo[nId].fInTried && 0 <= nUBucket < |vvNew|
      requires ConsistentBut(h, nKey, IncRef(T(), nId), nId)
      requires nId in vvNew[nUBucket] ==> Valid()
      modifies this`mapInfo, this`mapAddr, this`vRandom, this`nNew, this`vvNew
      ensures Valid()
      ensures AddResult(old(T()), T(), nId, nUBucket, outcome) && !outcome.Refused?
      ensures old(TimesOk(mapInfo)) ==> TimesOk(mapInfo)
    {
      if nId in vvNew[nUBucket] {
        return AlreadyThere;
      }
      ghost var u := IncRef(T(), nId);
      assert TimesOk(mapInfo) ==> TimesOk(u.mapInfo);
      mapInfo := mapInfo[nId := mapInfo[nId].(nRefCount := mapInfo[nId].nRefCount + 1)];
      assert T() == u;
      if |vvNew[nUBucket]| == NEW_BUCKET_SIZE {
        ghost var victim, r, picks := ShrinkAndLink(nId, nUBucket, nNow);
        outcome := LinkedAfter(victim, r, picks, nNow);
      } else {
        LinkedKeeps(h, nKey, u, nUBucket, nId);
        vvNew := vvNew[nUBucket := vvNew[nUBucket] + {nId}];
        outcome := Linked;
      }
    }

    /**
     * Learns an address from `source`. The result is true exactly for a new routable address; a known
     * new entry may gain one more reference. A full bucket is shrunk before the reference is linked.
     */
    method Add_(addr: Address, source: NetAddr, nTimePenalty: int, nNow: int)
      returns (fNew: bool, ghost outcome: AddOutcome, ghost draw: int)
      requires Valid()
      modifies this`nIdCount, this`mapInfo, this`mapAddr, this`vRandom, this`nNew, this`vvNew
      ensures Valid()
      ensures fNew <==> h.routable(addr.service.ip) && addr.service.ip !in old(mapAddr)
      ensures if !h.routable(addr.service.ip) then T() == old(T()) else
                var (t, id) := Learnt(old(T()), addr, source, nTimePenalty, nNow);
                && id in t.mapInfo && |t.vvNew| == NEW_BUCKET_COUNT
                && AddResult(t, T(), id, h.NewBucket(nKey, t.mapInfo[id].service, source), outcome)
                && (fNew ==> outcome.Linked? || outcome.LinkedAfter?)
                && (!fNew ==> Draw(t.mapInfo[id], draw) && (!outcome.Refused? <==> Gains(t.mapInfo[id], addr, draw)))
      ensures old(TimesOk(mapInfo)) ==> TimesOk(mapInfo)
    {
      outcome, draw := Refused, 0;
      if !h.routable(addr.service.ip) {
        return false, Refused, draw;
      }
      var fGoOn, nId;
      fNew, fGoOn, nId, draw := Learn(addr, source, nTimePenalty, nNow);
      if fGoOn {
        ghost var w := vvNew;
        var nUBucket := h.NewBucket(nKey, mapInfo[nId].service, source);
        assert nId in w[nUBucket] ==> nUBucket in Holding(w, nId);
        outcome := AddReference(nId, nUBucket, nNow);
      }
    }

    /** 2^n, by doubling. */
    static method Doubled(n: int) returns (nFactor: int)
      requires 0 <= n
      ensures nFactor == Pow2(n)
    {
      nFactor := 1;
      var i := 0;
      while i < n
        invariant 0 <= i <= n && nFactor == Pow2(i)
      {
        nFactor := nFactor * 2;
        i := i + 1;
      }
    }

    method Refresh(nId: int, addr: Address, nTimePenalty: int, nNow: int)
      requires nId in mapInfo
      modifies this`mapInfo
      ensures T() == Touch(old(T()), nId, Refreshed(old(mapInfo)[nId], addr, nTimePenalty, nNow))
    {
      var info := mapInfo[nId];
      var fCurrentlyOnline := nNow - addr.nTime < 24 * 60 * 60;
      var nUpdateInterval := if fCurrentlyOnline then 60 * 60 else 24 * 60 * 60;
      if addr.nTime != 0 && (info.nTime == 0 || info.nTime < addr.nTime - nUpdateInterval - nTimePenalty) {
        info := info.(nTime := U32(AtLeastZero(addr.nTime - nTimePenalty)));
      }
      info := info.(nServices := info.nServices + addr.nServices);
      mapInfo := mapInfo[nId := info];
    }

    /** Shuffles vRandom from the front and lists the decent entries met, up to a share of the table. */
    method GetAddr_(nNow: int) returns (vAddr: seq<Address>, ghost seen: nat)
      requires Valid()
      modifies this`mapInfo, this`vRandom
      ensures Valid()
      ensures SamePlaces(old(mapInfo), mapInfo) && SameButRandom(old(mapInfo), mapInfo)
      ensures seen <= |vRandom| == |old(vRandom)| && forall p :: 0 <= p < seen ==> vRandom[p] in old(mapInfo)
      ensures vAddr == Decent(old(mapInfo), vRandom[..seen], nNow)
      ensures 100 * |vAddr| <= 23 * |vRandom| && |vAddr| <= 2500
      ensures seen == |vRandom| || |vAddr| == 2500 || 100 * (|vAddr| + 1) > 23 * |vRandom|
    {
      var nNodes := GETADDR_MAX_PCT * |vRandom| / 100;
      if nNodes > GETADDR_MAX {
        nNodes := GETADDR_MAX;
      }
      ghost var t := T();
      vAddr, seen := DrawAddresses(nNodes, nNow);
      SameButRandomRefs(t.mapInfo, mapInfo, vvNew, NONE);
      InPlaceKeeps(h, nKey, t, T(), NONE, NONE);
    }

    method DrawAddresses(nNodes: nat, nNow: int) returns (vAddr: seq<Address>, ghost seen: nat)
      requires RandomOk(mapInfo, vRandom)
      modifies this`mapInfo, this`vRandom
      ensures RandomOk(mapInfo, vRandom)
      ensures SamePlaces(old(mapInfo), mapInfo) && SameButRandom(old(mapInfo), mapInfo)
      ensures seen <= |vRandom| == |old(vRandom)| && forall p :: 0 <= p < seen ==> vRandom[p] in old(mapInfo)
      ensures vAddr == Decent(old(mapInfo), vRandom[..seen], nNow)
      ensures |vAddr| <= nNodes && (seen == |vRandom| || |vAddr| == nNodes)
    {
      ghost var m0 := mapInfo;
      vAddr := [];
      var n := 0;
      while n < |vRandom|
        invariant 0 <= n <= |vRandom| == |old(vRandom)|
        invariant RandomOk(mapInfo, vRandom)
        invariant SamePlaces(m0, mapInfo) && SameButRandom(m0, mapInfo)
        invariant forall p :: 0 <= p < n ==> vRandom[p] in m0
        invariant vAddr == Decent(m0, vRandom[..n], nNow) && |vAddr| <= nNodes
      {
        if |vAddr| >= nNodes {
          break;
        }
        ghost var m, front := mapInfo, vRandom[..n];
        DrawRandom(n);
        SamePlacesTrans(m0, m, mapInfo);
        var id := vRandom[n];
        assert id in mapInfo.Keys && id in m0;
        assert vRandom[..n + 1] == front + [id];
        assert mapInfo[id] == m0[id].(nRandomPos := mapInfo[id].nRandomPos);
        if !IsTerrible(mapInfo[id], nNow) {
          vAddr := vAddr + [AsAddress(mapInfo[id])];
        }
        n := n + 1;
      }
      seen := n;
    }

    /** Brings a random id from position `n` or later to position `n`. */
    method DrawRandom(n: int)
      requires RandomOk(mapInfo, vRandom) && 0 <= n < |vRandom|
      modifies this`mapInfo, this`vRandom
      ensures RandomOk(mapInfo, vRandom) && |vRandom| == |old(vRandom)| && vRandom[..n] == old(vRandom)[..n]
      ensures SamePlaces(old(mapInfo), mapInfo) && SameButRandom(old(mapInfo), mapInfo)
      ensures vRandom[n] in mapInfo
    {
      var r := GetRandInt(|vRandom| - n);
      var nRndPos := r + n;
      RandomSwapped(T(), n, nRndPos);
      SwapRandom(n, nRndPos);
    }

    static lemma SamePlacesTrans(a: Infos, b: Infos, c: Infos)
      requires SamePlaces(a, b) && SameButRandom(a, b) && SamePlaces(b, c) && SameButRandom(b, c)
      ensures SamePlaces(a, c) && SameButRandom(a, c)
    {
      forall id | id in a
        ensures id in b && id in c && c[id] == a[id].(nRandomPos := c[id].nRandomPos)
      {
        assert id in b.Keys && id in c.Keys;
      }
    }

    // ----- saving and loading -----

    method Serialize() returns (s: seq<AddrStore.Token>)
      requires Valid()
      ensures s == AddrStore.Save(nKey, T())
    {
      s := [AddrStore.TVersion, AddrStore.TKey(nKey), AddrStore.TInt(nNew), AddrStore.TInt(nTried),
            AddrStore.TInt(NEW_BUCKET_COUNT)];
      var news, mapUnkIds := WriteNew();
      var trieds := WriteTried();
      UnkIdsCover(mapUnkIds);
      var members := WriteBuckets(mapUnkIds, AddrStore.AllNew(mapInfo));
      s := s + news + trieds + members;
    }

    /** For each new bucket, its size and the positions of its members. */
    method WriteBuckets(mapUnkIds: map<int, int>, ghost order: seq<int>) returns (s: seq<AddrStore.Token>)
      requires forall b, x :: 0 <= b < |vvNew| && x in vvNew[b] ==>
                 x in mapUnkIds && mapUnkIds[x] == AddrStore.IndexOf(order, x)
      ensures s == AddrStore.Buckets(order, vvNew)
    {
      s := [];
      var b := 0;
      while b < |vvNew|
        invariant 0 <= b <= |vvNew|
        invariant s == AddrStore.Buckets(order, vvNew[..b])
      {
        var members := WriteBucket(vvNew[b], mapUnkIds, order);
        s := s + members;
        assert vvNew[..b + 1][..b] == vvNew[..b] && vvNew[..b + 1][b] == vvNew[b];
        b := b + 1;
      }
      assert vvNew[..b] == vvNew;
    }

    static method WriteBucket(bucket: set<int>, mapUnkIds: map<int, int>, ghost order: seq<int>)
        returns (s: seq<AddrStore.Token>)
      requires forall x :: x in bucket ==> x in mapUnkIds && mapUnkIds[x] == AddrStore.IndexOf(order, x)
      ensures s == AddrStore.Bucket(order, bucket)
    {
      SortedMembers(bucket);
      var indexes := WriteIndexes(SortedIds(bucket), mapUnkIds, order);
      s := [AddrStore.TInt(|bucket|)] + indexes;
    }

    static method WriteIndexes(ids: seq<int>, mapUnkIds: map<int, int>, ghost order: seq<int>)
        returns (s: seq<AddrStore.Token>)
      requires forall j :: 0 <= j < |ids| ==>
                 ids[j] in mapUnkIds && mapUnkIds[ids[j]] == AddrStore.IndexOf(order, ids[j])
      ensures s == AddrStore.Indexes(order, ids)
    {
      s := [];
      var j := 0;
      while j < |ids|
        invariant 0 <= j <= |ids| == |AddrStore.Indexes(order, ids)|
        invariant s == AddrStore.Indexes(order, ids)[..j]
      {
        s := s + [AddrStore.TInt(mapUnkIds[ids[j]])];
        j := j + 1;
      }
    }

    lemma UnkIdsCover(mapUnkIds: map<int, int>)
      requires Valid()
      requires forall x :: x in AddrStore.AllNew(mapInfo) ==>
                 x in mapUnkIds && mapUnkIds[x] == AddrStore.IndexOf(AddrStore.AllNew(mapInfo), x)
      ensures forall b, x :: 0 <= b < |vvNew| && x in vvNew[b] ==>
                x in mapUnkIds && mapUnkIds[x] == AddrStore.IndexOf(AddrStore.AllNew(mapInfo), x)
    {
      AddrStore.ListsSplit(h, nKey, T());
      forall b, x | 0 <= b < |vvNew| && x in vvNew[b]
        ensures x in AddrStore.AllNew(mapInfo)
      {
        assert x in NewIds(mapInfo);
      }
    }

    /** The new entries, in id order, and the position at which each is written. */
    method WriteNew() returns (s: seq<AddrStore.Token>, mapUnkIds: map<int, int>)
      requires Valid()
      ensures forall i :: 0 <= i < |AddrStore.AllNew(mapInfo)| ==> AddrStore.AllNew(mapInfo)[i] in mapInfo
      ensures s == AddrStore.Records(mapInfo, AddrStore.AllNew(mapInfo))
      ensures forall x :: x in AddrStore.AllNew(mapInfo) ==>
                x in mapUnkIds && mapUnkIds[x] == AddrStore.IndexOf(AddrStore.AllNew(mapInfo), x)
    {
      AddrStore.ListsSplit(h, nKey, T());
      AddrStore.ListsIn(mapInfo);
      AddrStore.SortedKeys(mapInfo);
      ghost var all := AddrStore.AllNew(mapInfo);
      s, mapUnkIds := WriteNewOf(mapInfo, SortedIds(mapInfo.Keys), nNew);
      PositionsAre(all, mapUnkIds);
    }

    static lemma PositionsAre(all: seq<int>, at: map<int, int>)
      requires Increasing(all) && forall i :: 0 <= i < |all| ==> all[i] in at && at[all[i]] == i
      ensures forall x :: x in all ==> x in at && at[x] == AddrStore.IndexOf(all, x)
    {
      forall x | x in all
        ensures x in at && at[x] == AddrStore.IndexOf(all, x)
      {
        var i :| 0 <= i < |all| && all[i] == x;
        assert all[AddrStore.IndexOf(all, x)] == x;
      }
    }

    static method WriteNewOf(m: Infos, ids: seq<int>, nNew: int)
        returns (s: seq<AddrStore.Token>, mapUnkIds: map<int, int>)
      requires forall i :: 0 <= i < |ids| ==> ids[i] in m
      requires Increasing(ids) && |AddrStore.NewList(m, ids)| == nNew
      requires forall i :: 0 <= i < |AddrStore.NewList(m, ids)| ==> AddrStore.NewList(m, ids)[i] in m
      requires Increasing(AddrStore.NewList(m, ids))
      ensures s == AddrStore.Records(m, AddrStore.NewList(m, ids))
      ensures forall i :: 0 <= i < nNew ==>
                AddrStore.NewList(m, ids)[i] in mapUnkIds && mapUnkIds[AddrStore.NewList(m, ids)[i]] == i
    {
      ghost var all := AddrStore.NewList(m, ids);
      s, mapUnkIds := [], map[];
      var nIds := 0;
      var k := 0;
      while k < |ids|
        invariant 0 <= k <= |ids|
        invariant 0 <= nIds <= |all| && AddrStore.NewList(m, ids[..k]) == all[..nIds]
        invariant s == AddrStore.Records(m, all)[..nIds]
        invariant forall i :: 0 <= i < nIds ==> all[i] in mapUnkIds && mapUnkIds[all[i]] == i
      {
        if nIds == nNew {
          break;
        }
        AddrStore.NewListGrows(m, ids, k);
        AddrStore.NewListFresh(m, ids, k);
        assert forall i :: 0 <= i < nIds ==> all[i] == all[..nIds][i];
        mapUnkIds := mapUnkIds[ids[k] := nIds];
        if m[ids[k]].nRefCount != 0 {
          s := s + [AddrStore.TInfo(AddrStore.ToRecord(m[ids[k]]))];
          nIds := nIds + 1;
        }
        k := k + 1;
      }
      assert ids[..|ids|] == ids;
      assert all[..nIds] == all;
    }

    method WriteTried() returns (s: seq<AddrStore.Token>)
      requires Valid()
      ensures forall i :: 0 <= i < |AddrStore.AllTried(mapInfo)| ==> AddrStore.AllTried(mapInfo)[i] in mapInfo
      ensures s == AddrStore.Records(mapInfo, AddrStore.AllTried(mapInfo))
    {
      AddrStore.ListsSplit(h, nKey, T());
      AddrStore.ListsIn(mapInfo);
      AddrStore.SortedKeys(mapInfo);
      s := WriteTriedOf(mapInfo, SortedIds(mapInfo.Keys), nTried);
    }

    static method WriteTriedOf(m: Infos, ids: seq<int>, nTried: int) returns (s: seq<AddrStore.Token>)
      requires forall i :: 0 <= i < |ids| ==> ids[i] in m
      requires |AddrStore.TriedList(m, ids)| == nTried
      requires forall i :: 0 <= i < |AddrStore.TriedList(m, ids)| ==> AddrStore.TriedList(m, ids)[i] in m
      ensures s == AddrStore.Records(m, AddrStore.TriedList(m, ids))
    {
      ghost var all := AddrStore.TriedList(m, ids);
      s := [];
      var nIds := 0;
      var k := 0;
      while k < |ids|
        invariant 0 <= k <= |ids|
        invariant 0 <= nIds <= |all| && AddrStore.TriedList(m, ids[..k]) == all[..nIds]
        invariant s == AddrStore.Records(m, all)[..nIds]
      {
        if nIds == nTried {
          break;
        }
        AddrStore.TriedListGrows(m, ids, k);
        if m[ids[k]].fInTried {
          s := s + [AddrStore.TInfo(AddrStore.ToRecord(m[ids[k]]))];
          nIds := nIds + 1;
        }
        k := k + 1;
      }
      assert ids[..|ids|] == ids;
      assert all[..nIds] == all;
    }

    /** Rebuilds all tables from a stream; false if the stream ends early or is malformed. */
    method Unserialize(s: seq<AddrStore.Token>) returns (ok: bool)
      modifies this
      ensures ok <==> AddrStore.Load(h, s).Some?
      ensures ok ==> AddrStore.Load(h, s) == Some((nKey, T()))
    {
      hide AddrStore.ReadNew, AddrStore.ReadTried, AddrStore.ReadBuckets;
      if |s| < 5 || !s[0].TVersion? || !s[1].TKey? || !s[2].TInt? || !s[3].TInt? || !s[4].TInt? {
        return false;
      }
      nKey, nNew, nTried := s[1].nKey, s[2].n, s[3].n;
      var nUBuckets := s[4].n;
      var same := nUBuckets == NEW_BUCKET_COUNT;
      nIdCount := 0;
      mapInfo, mapAddr, vRandom := map[], map[], [];
      vvTried := seq(TRIED_BUCKET_COUNT, _ => []);
      vvNew := seq(NEW_BUCKET_COUNT, _ => {});
      ghost var t0 := AddrStore.Empty(nNew, nTried);
      assert T() == t0;

      var pos: nat;
      ok, pos := LoadNew(s, 5, same);
      if !ok {
        return;
      }
      nIdCount := nNew;
      var nLost;
      ok, pos, nLost := LoadTried(s, pos);
      if !ok {
        return;
      }
      nTried := nTried - nLost;
      ok := LoadBuckets(s, pos, nUBuckets, same);
    }

    method LoadNew(s: seq<AddrStore.Token>, start: nat, same: bool) returns (ok: bool, pos: nat)
      requires |vvNew| == NEW_BUCKET_COUNT
      modifies this`mapInfo, this`mapAddr, this`vRandom, this`vvNew
      ensures ok <==> AddrStore.ReadNew(h, nKey, s, start, 0, nNew, same, old(T())).Some?
      ensures ok ==> AddrStore.ReadNew(h, nKey, s, start, 0, nNew, same, old(T())) == Some((pos, T()))
    {
      hide AddrStore.AddNew;
      pos := start;
      var n := 0;
      while n < nNew
        invariant 0 <= n && |vvNew| == NEW_BUCKET_COUNT
        invariant AddrStore.ReadNew(h, nKey, s, pos, n, nNew, same, T())
               == AddrStore.ReadNew(h, nKey, s, start, 0, nNew, same, old(T()))
      {
        if pos >= |s| || !s[pos].TInfo? {
          return false, pos;
        }
        LoadEntry(s[pos].rec, n, same);
        pos := pos + 1;
        n := n + 1;
      }
      ok := true;
    }

    method LoadEntry(rec: AddrStore.Record, n: int, same: bool)
      requires |vvNew| == NEW_BUCKET_COUNT
      modifies this`mapInfo, this`mapAddr, this`vRandom, this`vvNew
      ensures |vvNew| == NEW_BUCKET_COUNT && T() == AddrStore.AddNew(h, nKey, old(T()), n, rec, same)
    {
      var info := AddrStore.FromRecord(rec);
      mapAddr := mapAddr[info.service.ip := n];
      info := info.(nRandomPos := |vRandom|);
      vRandom := vRandom + [n];
      if !same {
        var b := h.NewBucket(nKey, info.service, info.source);
        vvNew := vvNew[b := vvNew[b] + {n}];
        info := info.(nRefCount := info.nRefCount + 1);
      }
      mapInfo := mapInfo[n := info];
    }

    method LoadTried(s: seq<AddrStore.Token>, start: nat) returns (ok: bool, pos: nat, nLost: int)
      requires |vvTried| == TRIED_BUCKET_COUNT
      modifies this`nIdCount, this`mapInfo, this`mapAddr, this`vRandom, this`vvTried
      ensures ok <==> AddrStore.ReadTried(h, nKey, s, start, 0, nTried, 0, old(T())).Some?
      ensures ok ==> AddrStore.ReadTried(h, nKey, s, start, 0, nTried, 0, old(T())) == Some((pos, nLost, T()))
    {
      pos, nLost := start, 0;
      var n := 0;
      while n < nTried
        invariant 0 <= n && |vvTried| == TRIED_BUCKET_COUNT
        invariant AddrStore.ReadTried(h, nKey, s, pos, n, nTried, nLost, T())
               == AddrStore.ReadTried(h, nKey, s, start, 0, nTried, 0, old(T()))
      {
        if pos >= |s| || !s[pos].TInfo? {
          return false, pos, nLost;
        }
        var lost := LoadTriedEntry(s[pos].rec);
        if lost {
          nLost := nLost + 1;
        }
        pos := pos + 1;
        n := n + 1;
      }
      ok := true;
    }

    method LoadTriedEntry(rec: AddrStore.Record) returns (lost: bool)
      requires |vvTried| == TRIED_BUCKET_COUNT
      modifies this`nIdCount, this`mapInfo, this`mapAddr, this`vRandom, this`vvTried
      ensures T() == AddrStore.AddTried(h, nKey, old(T()), rec) && |vvTried| == TRIED_BUCKET_COUNT
      ensures lost <==> nIdCount == old(nIdCount)
    {
      var info := AddrStore.FromRecord(rec);
      var b := h.TriedBucket(nKey, info.service);
      lost := |vvTried[b]| >= TRIED_BUCKET_SIZE;
      if !lost {
        info := info.(nRandomPos := |vRandom|);
        info := info.(fInTried := true);
        vRandom := vRandom + [nIdCount];
        mapInfo := mapInfo[nIdCount := info];
        mapAddr := mapAddr[info.service.ip := nIdCount];
        vvTried := vvTried[b := vvTried[b] + [nIdCount]];
        nIdCount := nIdCount + 1;
      }
    }

    method LoadBuckets(s: seq<AddrStore.Token>, start: nat, nUBuckets: int, same: bool) returns (ok: bool)
      requires |vvNew| == NEW_BUCKET_COUNT
      modifies this`mapInfo, this`vvNew
      ensures ok <==> AddrStore.ReadBuckets(s, start, 0, nUBuckets, same, old(T())).Some?
      ensures ok ==> AddrStore.ReadBuckets(s, start, 0, nUBuckets, same, old(T())) == Some(T())
    {
      var pos: nat := start;
      var b: nat := 0;
      while b < nUBuckets
        invariant |vvNew| == NEW_BUCKET_COUNT
        invariant AddrStore.ReadBuckets(s, pos, b, nUBuckets, same, T())
               == AddrStore.ReadBuckets(s, start, 0, nUBuckets, same, old(T()))
      {
        if b >= NEW_BUCKET_COUNT || pos >= |s| || !s[pos].TInt? {
          return false;
        }
        ok, pos := LoadMembers(s, pos + 1, b, s[pos].n, same);
        if !ok {
          return;
        }
        b := b + 1;
      }
      ok := true;
    }

    method LoadMembers(s: seq<AddrStore.Token>, start: nat, b: nat, nSize: int, same: bool) returns (ok: bool, pos: nat)
      requires b < |vvNew|
      modifies this`mapInfo, this`vvNew
      ensures ok <==> AddrStore.ReadMembers(s, start, b, 0, nSize, same, old(T())).Some?
      ensures ok ==> AddrStore.ReadMembers(s, start, b, 0, nSize, same, old(T())) == Some((pos, T()))
    {
      pos := start;
      var n := 0;
      while n < nSize
        invariant 0 <= n && b < |vvNew|
        invariant AddrStore.ReadMembers(s, pos, b, n, nSize, same, T())
               == AddrStore.ReadMembers(s, start, b, 0, nSize, same, old(T()))
      {
        if pos >= |s| || !s[pos].TInt? || s[pos].n !in mapInfo {
          return false, pos;
        }
        ghost var t := T();
        var nIndex := s[pos].n;
        if same && mapInfo[nIndex].nRefCount < NEW_BUCKETS_PER_ADDRESS {
          mapInfo := mapInfo[nIndex := mapInfo[nIndex].(nRefCount := mapInfo[nIndex].nRefCount + 1)];
          vvNew := vvNew[b := vvNew[b] + {nIndex}];
        }
        assert T() == AddrStore.AddMember(t, b, nIndex, same);
        pos := pos + 1;
        n := n + 1;
      }
      ok := true;
    }
  }

  datatype Op =
    | Add(addr: Address, source: NetAddr, nTimePenalty: int, nNow: int)
    | Good(service: Service, nTime: int)
    | Attempt(service: Service, nTime: int)
    | Connected(service: Service, nTime: int)
    | GetAddr(nNow: int)

  predicate SaneTime(op: Op) {
    (op.Good? ==> 0 < op.nTime) && (op.Attempt? ==> 0 <= op.nTime)
  }

  /** Any sequence of operations keeps the tables consistent; sane clocks keep the times in order. */
  method Run(man: CAddrMan, ops: seq<Op>)
    requires man.Valid()
    modifies man
    ensures man.Valid() && man.nKey == old(man.nKey)
    ensures old(TimesOk(man.mapInfo)) && (forall i :: 0 <= i < |ops| ==> SaneTime(ops[i])) ==> TimesOk(man.mapInfo)
  {
    var i := 0;
    while i < |ops|
      invariant 0 <= i <= |ops|
      invariant man.Valid() && man.nKey == old(man.nKey)
      invariant old(TimesOk(man.mapInfo)) && (forall k :: 0 <= k < i ==> SaneTime(ops[k])) ==> TimesOk(man.mapInfo)
    {
      Apply(man, ops[i]);
      i := i + 1;
    }
  }

  method Apply(man: CAddrMan, op: Op)
    requires man.Valid()
    modifies man
    ensures man.Valid() && man.nKey == old(man.nKey)
    ensures old(TimesOk(man.mapInfo)) && SaneTime(op) ==> TimesOk(man.mapInfo)
  {
    match op
    case Add(addr, source, nTimePenalty, nNow) =>
      var _, _, _ := man.Add_(addr, source, nTimePenalty, nNow);
    case Good(service, nTime) =>
      ghost var _, _, _, _ := man.Good_(service, nTime);
    case Attempt(service, nTime) =>
      man.Attempt_(service, nTime);
    case Connected(service, nTime) =>
      man.Connected_(service, nTime);
    case GetAddr(nNow) =>
      ghost var m := man.mapInfo;
      var _, _ := man.GetAddr_(nNow);
      SameButRandomRefs(m, man.mapInfo, man.vvNew, NONE);
  }

  /** A known entry that may gain a reference: news about an entry that is not tried and not everywhere yet. */
  predicate MayGain(info: Info, addr: Address) {
    !NoNewInfo(info, addr) && !info.fInTried && info.nRefCount < NEW_BUCKETS_PER_ADDRESS
  }

  /** It does gain one if the draw is zero. */
  predicate Gains(info: Info, addr: Address, draw: int) {
    MayGain(info, addr) && draw == 0
  }

  /** A draw out of two to the power of the references. */
  predicate Draw(info: Info, draw: int) {
    0 <= info.nRefCount && 0 <= draw < Pow2(info.nRefCount)
  }

  function AsAddress(info: Info): Address {
    Address(info.service, info.nServices, info.nTime)
  }

  /** The addresses of the entries that are not terrible, in the order of `ids`. */
  function Decent(m: Infos, ids: seq<int>, nNow: int): seq<Address>
    requires forall p :: 0 <= p < |ids| ==> ids[p] in m
  {
    if ids == [] then [] else
    var rest := Decent(m, ids[..|ids| - 1], nNow);
    var info := m[ids[|ids| - 1]];
    if IsTerrible(info, nNow) then rest else rest + [AsAddress(info)]
  }

  /** The addresses are those of the entries kept, service, flags and time. */
  lemma {:induction false} DecentMembers(m: Infos, ids: seq<int>, nNow: int, a: Address)
    requires forall p :: 0 <= p < |ids| ==> ids[p] in m
    ensures a in Decent(m, ids, nNow) <==>
      exists p :: 0 <= p < |ids| && !IsTerrible(m[ids[p]], nNow)
        && a == Address(m[ids[p]].service, m[ids[p]].nServices, m[ids[p]].nTime)
  {
    hide IsTerrible;
    if ids != [] {
      var n := |ids| - 1;
      DecentMembers(m, ids[..n], nNow, a);
      assert forall p :: 0 <= p < n ==> ids[..n][p] == ids[p];
    }
  }

  /** An entry is worth keeping if it was tried in the last minute, or else was seen in the last thirty days and not
      more than ten minutes ahead, has not failed three times without a success, and has not failed ten times since a
      success more than a week ago. */
  lemma KeptExactly(info: Info, nNow: int)
    ensures !IsTerrible(info, nNow) <==>
      || (info.nLastTry != 0 && info.nLastTry >= nNow - 60)
      || (&& 0 < info.nTime && nNow - 2592000 <= info.nTime <= nNow + 600
          && (info.nLastSuccess != 0 || info.nAttempts < 3)
          && (info.nLastSuccess >= nNow - 604800 || info.nAttempts < 10))
  {
  }

  /** A report moves the recorded time exactly when it carries one and, less the penalty, lies more than an hour, or a
      day if it is itself older than a day, after a recorded one; then to that time, but not below zero. */
  lemma RefreshedTime(info: Info, addr: Address, nTimePenalty: int, nNow: int)
    requires 0 <= nTimePenalty && addr.nTime < 0x1_0000_0000
    ensures var r, late := Refreshed(info, addr, nTimePenalty, nNow), addr.nTime - nTimePenalty;
      var wait := if addr.nTime > nNow - 86400 then 3600 else 86400;
      && r == info.(nTime := r.nTime, nServices := info.nServices + addr.nServices)
      && r.nTime == if addr.nTime != 0 && (info.nTime == 0 || late > info.nTime + wait)
                    then (if late < 0 then 0 else late) else info.nTime
  {
  }

  /** A known entry gains a reference exactly when the report is news, it is new with fewer than four references, and
      the draw is zero. */
  lemma GainsExactly(info: Info, addr: Address, draw: int)
    ensures Gains(info, addr, draw) <==>
      addr.nTime != 0 && (info.nTime == 0 || addr.nTime > info.nTime)
      && !info.fInTried && info.nRefCount < 4 && draw == 0
  {
  }

  function AtLeastZero(x: int): nat {
    if x < 0 then 0 else x
  }

  function Refreshed(info: Info, addr: Address, nTimePenalty: int, nNow: int): Info {
    var interval := if nNow - addr.nTime < 24 * 60 * 60 then 60 * 60 else 24 * 60 * 60;
    var stale := addr.nTime != 0 && (info.nTime == 0 || info.nTime < addr.nTime - interval - nTimePenalty);
    info.(nTime := if stale then U32(AtLeastZero(addr.nTime - nTimePenalty)) else info.nTime,
          nServices := info.nServices + addr.nServices)
  }

  predicate NoNewInfo(info: Info, addr: Address) {
    addr.nTime == 0 || (info.nTime != 0 && addr.nTime <= info.nTime)
  }

  function Aged(addr: Address, nTimePenalty: int): Address {
    addr.(nTime := U32(AtLeastZero(addr.nTime - nTimePenalty)))
  }

  /** The tables once the address is known, before any reference is added, and its id. */
  function Learnt(t: Tables, addr: Address, source: NetAddr, nTimePenalty: int, nNow: int): (Tables, int) {
    if addr.service.ip in t.mapAddr && t.mapAddr[addr.service.ip] in t.mapInfo then
      var id := t.mapAddr[addr.service.ip];
      (Touch(t, id, Refreshed(t.mapInfo[id], addr, nTimePenalty, nNow)), id)
    else
      (Created(t, Aged(addr, nTimePenalty), source).(nNew := t.nNew + 1), t.nIdCount)
  }

  datatype AddOutcome = Refused | AlreadyThere | Linked | LinkedAfter(victim: int, r: int, picks: seq<int>, now: int)

  /** The tables after Add_ has dealt with bucket `b`. */
  ghost predicate AddResult(t: Tables, t': Tables, id: int, b: int, outcome: AddOutcome)
    requires id in t.mapInfo && 0 <= b < |t.vvNew|
  {
    match outcome
    case Refused => t' == t
    case AlreadyThere => id in t.vvNew[b] && t' == t
    case Linked => id !in t.vvNew[b] && |t.vvNew[b]| < NEW_BUCKET_SIZE && t' == AddrTables.Linked(IncRef(t, id), b, id)
    case LinkedAfter(victim, r, picks, now) =>
      var u := IncRef(t, id);
      && id !in t.vvNew[b] && |t.vvNew[b]| == NEW_BUCKET_SIZE
      && CAddrMan.GoodVictim(u.mapInfo, u.vvNew[b], now, r, victim, picks)
      && CanSwap(u, u.mapInfo[victim].nRandomPos, |u.vRandom| - 1)
      && t' == AddrTables.Linked(Dropped(u, b, victim), b, id)
  }
}
