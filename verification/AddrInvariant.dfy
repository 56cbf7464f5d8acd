/** Every structural change of the address tables keeps them consistent. */
module AddrInvariant {
  import opened AddrTables

  // ----- the bucket count of an id -----

  lemma HoldingAfterUnlink(vvNew: seq<set<int>>, b: int, id: int)
    requires 0 <= b < |vvNew| && id in vvNew[b]
    ensures |Holding(vvNew[b := vvNew[b] - {id}], id)| == |Holding(vvNew, id)| - 1
    ensures forall x :: x != id ==> Holding(vvNew[b := vvNew[b] - {id}], x) == Holding(vvNew, x)
  {
    var w := vvNew[b := vvNew[b] - {id}];
    assert Holding(w, id) == Holding(vvNew, id) - {b};
    forall x | x != id
      ensures Holding(w, x) == Holding(vvNew, x)
    {
      assert forall c :: c in Holding(w, x) <==> c in Holding(vvNew, x);
    }
  }

  lemma HoldingAfterLink(vvNew: seq<set<int>>, b: int, id: int)
    requires 0 <= b < |vvNew| && id !in vvNew[b]
    ensures |Holding(vvNew[b := vvNew[b] + {id}], id)| == |Holding(vvNew, id)| + 1
    ensures forall x :: x != id ==> Holding(vvNew[b := vvNew[b] + {id}], x) == Holding(vvNew, x)
  {
    var w := vvNew[b := vvNew[b] + {id}];
    assert Holding(w, id) == Holding(vvNew, id) + {b};
    forall x | x != id
      ensures Holding(w, x) == Holding(vvNew, x)
    {
      assert forall c :: c in Holding(w, x) <==> c in Holding(vvNew, x);
    }
  }

  lemma HoldingAfterClear(vvNew: seq<set<int>>, id: int)
    ensures Holding(ClearedBuckets(vvNew, id), id) == {}
    ensures forall x :: x != id ==> Holding(ClearedBuckets(vvNew, id), x) == Holding(vvNew, x)
    ensures forall b :: 0 <= b < |vvNew| ==> |ClearedBuckets(vvNew, id)[b]| <= |vvNew[b]|
    ensures forall b :: 0 <= b < |vvNew| && id in vvNew[b] ==> |ClearedBuckets(vvNew, id)[b]| < |vvNew[b]|
  {
    var w := ClearedBuckets(vvNew, id);
    forall x | x != id
      ensures Holding(w, x) == Holding(vvNew, x)
    {
      assert forall c :: c in Holding(w, x) <==> c in Holding(vvNew, x);
    }
  }

  /** An id outside mapInfo is in no bucket. */
  lemma HoldingOutside(m: Infos, vvNew: seq<set<int>>, id: int)
    requires NewMembersOk(m, vvNew) && (id !in m || m[id].fInTried)
    ensures Holding(vvNew, id) == {}
  {
    assert forall b :: b !in Holding(vvNew, id);
  }

  // ----- updates in place: no entry moves between new and tried -----

  /** The same entries in the same places; histories, random positions and new reference counts may differ. */
  ghost predicate SamePlaces(m: Infos, m': Infos) {
    && m'.Keys == m.Keys
    && forall id :: id in m ==>
         && m'[id].service == m[id].service
         && m'[id].fInTried == m[id].fInTried
         && (m[id].fInTried ==> m'[id].nRefCount == m[id].nRefCount)
  }

  lemma SamePlacesIndexes(m: Infos, m': Infos, mapAddr: map<NetAddr, int>, nNew: int, nTried: int)
    requires SamePlaces(m, m') && AddrOk(m, mapAddr) && CountsOk(m, nNew, nTried)
    ensures AddrOk(m', mapAddr) && CountsOk(m', nNew, nTried)
  {
    forall id
      ensures id in NewIds(m') <==> id in NewIds(m)
      ensures id in TriedIds(m') <==> id in TriedIds(m)
    {
      assert id in m'.Keys <==> id in m.Keys;
    }
    assert NewIds(m') == NewIds(m);
    assert TriedIds(m') == TriedIds(m);
  }

  lemma SamePlacesBuckets(h: Hashing, nKey: seq<nat>, m: Infos, m': Infos, vvNew: seq<set<int>>, vvTried: seq<seq<int>>)
    requires SamePlaces(m, m')
    requires NewMembersOk(m, vvNew) && TriedMembersOk(h, nKey, m, vvTried) && TriedPlacedOk(h, nKey, m, vvTried)
    ensures NewMembersOk(m', vvNew) && TriedMembersOk(h, nKey, m', vvTried) && TriedPlacedOk(h, nKey, m', vvTried)
  {
  }

  lemma InPlaceKeeps(h: Hashing, nKey: seq<nat>, t: Tables, t': Tables, pending: int, pending': int)
    requires ConsistentBut(h, nKey, t, pending)
    requires SamePlaces(t.mapInfo, t'.mapInfo) && t' == t.(mapInfo := t'.mapInfo, vRandom := t'.vRandom)
    requires RandomOk(t'.mapInfo, t'.vRandom) && RefsOk(t'.mapInfo, t'.vvNew, pending')
    ensures ConsistentBut(h, nKey, t', pending')
  {
    SamePlacesIndexes(t.mapInfo, t'.mapInfo, t.mapAddr, t.nNew, t.nTried);
    SamePlacesBuckets(h, nKey, t.mapInfo, t'.mapInfo, t.vvNew, t.vvTried);
  }

  lemma RandomTouched(m: Infos, vRandom: seq<int>, id: int, info: Info)
    requires RandomOk(m, vRandom) && id in m && info.nRandomPos == m[id].nRandomPos
    ensures RandomOk(m[id := info], vRandom)
  {
  }

  /** Fields of an entry that only describe its history may change freely. */
  ghost predicate SameLinks(a: Info, b: Info) {
    a.service == b.service && a.nRefCount == b.nRefCount && a.fInTried == b.fInTried && a.nRandomPos == b.nRandomPos
  }

  lemma TouchKeeps(h: Hashing, nKey: seq<nat>, t: Tables, id: int, info: Info, pending: int)
    requires ConsistentBut(h, nKey, t, pending)
    requires id in t.mapInfo && SameLinks(info, t.mapInfo[id])
    ensures ConsistentBut(h, nKey, Touch(t, id, info), pending)
  {
    RandomTouched(t.mapInfo, t.vRandom, id, info);
    InPlaceKeeps(h, nKey, t, Touch(t, id, info), pending, pending);
  }

  lemma RandomSwapped(t: Tables, i: int, j: int)
    requires RandomOk(t.mapInfo, t.vRandom)
    requires 0 <= i < |t.vRandom| && 0 <= j < |t.vRandom|
    ensures RandomOk(Swapped(t, i, j).mapInfo, Swapped(t, i, j).vRandom)
    ensures SamePlaces(t.mapInfo, Swapped(t, i, j).mapInfo)
    ensures SameButRandom(t.mapInfo, Swapped(t, i, j).mapInfo)
  {
    if i != j {
      var m, v := t.mapInfo, t.vRandom;
      SwappedRandom(m, v, i, j);
      var m1 := m[v[i] := m[v[i]].(nRandomPos := j)];
      assert Swapped(t, i, j).mapInfo == m1[v[j] := m1[v[j]].(nRandomPos := i)];
    }
  }

  lemma SwappedRandom(m: Infos, v: seq<int>, i: int, j: int)
    requires RandomOk(m, v) && 0 <= i < |v| && 0 <= j < |v| && i != j
    ensures v[i] in m && v[j] in m && v[i] != v[j]
    ensures var m1 := m[v[i] := m[v[i]].(nRandomPos := j)];
            var m2 := m1[v[j] := m1[v[j]].(nRandomPos := i)];
            RandomOk(m2, v[i := v[j]][j := v[i]]) && SamePlaces(m, m2) && SameButRandom(m, m2)
  {
    assert m[v[i]].nRandomPos == i && m[v[j]].nRandomPos == j;
    var m1 := m[v[i] := m[v[i]].(nRandomPos := j)];
    var m2 := m1[v[j] := m1[v[j]].(nRandomPos := i)];
    var w := v[i := v[j]][j := v[i]];
    forall p | 0 <= p < |w|
      ensures w[p] in m2 && m2[w[p]].nRandomPos == p
    {
      assert v[p] in m && m[v[p]].nRandomPos == p;
    }
    forall id | id in m2
      ensures 0 <= m2[id].nRandomPos < |w| && w[m2[id].nRandomPos] == id
    {
      assert id in m;
    }
  }

  ghost predicate SameButRandom(m: Infos, m': Infos) {
    forall id :: id in m && id in m' ==> m'[id] == m[id].(nRandomPos := m'[id].nRandomPos)
  }

  lemma SwappedKeeps(h: Hashing, nKey: seq<nat>, t: Tables, i: int, j: int, pending: int)
    requires ConsistentBut(h, nKey, t, pending)
    requires 0 <= i < |t.vRandom| && 0 <= j < |t.vRandom|
    ensures ConsistentBut(h, nKey, Swapped(t, i, j), pending)
    ensures SameButRandom(t.mapInfo, Swapped(t, i, j).mapInfo)
  {
    RandomSwapped(t, i, j);
    SameButRandomRefs(t.mapInfo, Swapped(t, i, j).mapInfo, t.vvNew, pending);
    InPlaceKeeps(h, nKey, t, Swapped(t, i, j), pending, pending);
  }

  lemma SameButRandomRefs(m: Infos, m': Infos, vvNew: seq<set<int>>, pending: int)
    requires SameButRandom(m, m') && m'.Keys <= m.Keys && RefsOk(m, vvNew, pending)
    ensures TimesOk(m) ==> TimesOk(m')
    ensures RefsOk(m', vvNew, pending)
  {
    forall id | id in m'
      ensures id in m
    {
      assert id in m'.Keys;
    }
  }

  lemma IncRefKeeps(h: Hashing, nKey: seq<nat>, t: Tables, id: int)
    requires Consistent(h, nKey, t)
    requires id in t.mapInfo && !t.mapInfo[id].fInTried && t.mapInfo[id].nRefCount < NEW_BUCKETS_PER_ADDRESS
    ensures ConsistentBut(h, nKey, IncRef(t, id), id)
  {
    RandomTouched(t.mapInfo, t.vRandom, id, IncRef(t, id).mapInfo[id]);
    assert NONE !in t.mapInfo;
    InPlaceKeeps(h, nKey, t, IncRef(t, id), NONE, id);
  }

  // ----- a fresh entry -----

  lemma CreatedIndexes(m: Infos, mapAddr: map<NetAddr, int>, vRandom: seq<int>, id: int, info: Info)
    requires RandomOk(m, vRandom) && AddrOk(m, mapAddr)
    requires id !in m && info.service.ip !in mapAddr && info.nRandomPos == |vRandom|
    ensures RandomOk(m[id := info], vRandom + [id])
    ensures AddrOk(m[id := info], mapAddr[info.service.ip := id])
  {
    assert forall a :: a in mapAddr ==> mapAddr[a] != id;
  }

  lemma CreatedCounts(m: Infos, id: int, info: Info)
    requires id !in m && !info.fInTried
    ensures |NewIds(m[id := info])| == |NewIds(m)| + 1 && TriedIds(m[id := info]) == TriedIds(m)
  {
    var m' := m[id := info];
    forall x
      ensures x in NewIds(m') <==> x in NewIds(m) + {id}
      ensures x in TriedIds(m') <==> x in TriedIds(m)
    {
      assert x in m'.Keys <==> x in m.Keys || x == id;
    }
    assert NewIds(m') == NewIds(m) + {id};
    assert TriedIds(m') == TriedIds(m);
  }

  lemma CreatedBuckets(h: Hashing, nKey: seq<nat>, m: Infos, vvNew: seq<set<int>>, vvTried: seq<seq<int>>, id: int,
                       info: Info)
    requires id !in m && !info.fInTried
    requires NewMembersOk(m, vvNew) && TriedMembersOk(h, nKey, m, vvTried) && TriedPlacedOk(h, nKey, m, vvTried)
    ensures NewMembersOk(m[id := info], vvNew)
    ensures TriedMembersOk(h, nKey, m[id := info], vvTried) && TriedPlacedOk(h, nKey, m[id := info], vvTried)
  {
  }

  lemma CreatedKeeps(h: Hashing, nKey: seq<nat>, t: Tables, addr: Address, src: NetAddr)
    requires Consistent(h, nKey, t)
    requires addr.service.ip !in t.mapAddr
    ensures ConsistentBut(h, nKey, IncRef(Created(t, addr, src).(nNew := t.nNew + 1), t.nIdCount), t.nIdCount)
  {
    var id := t.nIdCount;
    var t' := IncRef(Created(t, addr, src).(nNew := t.nNew + 1), id);
    var info := t'.mapInfo[id];
    assert id !in t.mapInfo;
    assert t'.mapInfo == t.mapInfo[id := info];
    CreatedIndexes(t.mapInfo, t.mapAddr, t.vRandom, id, info);
    CreatedCounts(t.mapInfo, id, info);
    CreatedBuckets(h, nKey, t.mapInfo, t.vvNew, t.vvTried, id, info);
    HoldingOutside(t.mapInfo, t.vvNew, id);
  }

  // ----- a reference more or less -----

  lemma LinkedKeeps(h: Hashing, nKey: seq<nat>, t: Tables, b: int, id: int)
    requires ConsistentBut(h, nKey, t, id)
    requires id in t.mapInfo && !t.mapInfo[id].fInTried
    requires 0 <= b < |t.vvNew| && id !in t.vvNew[b] && |t.vvNew[b]| < NEW_BUCKET_SIZE
    ensures Consistent(h, nKey, Linked(t, b, id))
  {
    HoldingAfterLink(t.vvNew, b, id);
    assert NONE !in t.mapInfo;
  }

  lemma DecRefUnlinkKeeps(h: Hashing, nKey: seq<nat>, t: Tables, b: int, id: int, pending: int)
    requires ConsistentBut(h, nKey, t, pending)
    requires 0 <= b < |t.vvNew| && id in t.vvNew[b] && id != pending
    requires t.mapInfo[id].nRefCount != 1
    ensures ConsistentBut(h, nKey, Unlinked(DecRef(t, id), b, id), pending)
  {
    var m := DecRef(t, id).mapInfo;
    RandomTouched(t.mapInfo, t.vRandom, id, m[id]);
    SamePlacesIndexes(t.mapInfo, m, t.mapAddr, t.nNew, t.nTried);
    SamePlacesBuckets(h, nKey, t.mapInfo, m, t.vvNew, t.vvTried);
    UnlinkMembers(m, t.vvNew, b, id);
    UnlinkRefs(t.mapInfo, t.vvNew, b, id, pending);
  }

  lemma UnlinkMembers(m: Infos, vvNew: seq<set<int>>, b: int, id: int)
    requires NewMembersOk(m, vvNew) && 0 <= b < |vvNew| && id in vvNew[b]
    ensures NewMembersOk(m, vvNew[b := vvNew[b] - {id}])
  {
    assert |vvNew[b] - {id}| <= |vvNew[b]|;
  }

  lemma UnlinkRefs(m: Infos, vvNew: seq<set<int>>, b: int, id: int, pending: int)
    requires RefsOk(m, vvNew, pending) && 0 <= b < |vvNew| && id in vvNew[b] && id in m && id != pending
    requires !m[id].fInTried && m[id].nRefCount != 1
    ensures RefsOk(m[id := m[id].(nRefCount := m[id].nRefCount - 1)], vvNew[b := vvNew[b] - {id}], pending)
  {
    HoldingAfterUnlink(vvNew, b, id);
  }

  lemma LastRemoved(m: Infos, v: seq<int>, id: int)
    requires RandomOk(m, v) && |v| > 0 && v[|v| - 1] == id
    ensures RandomOk(m - {id}, v[..|v| - 1])
  {
    var m', w := m - {id}, v[..|v| - 1];
    forall p | 0 <= p < |w|
      ensures w[p] in m' && m'[w[p]].nRandomPos == p
    {
      assert w[p] == v[p] && m[v[p]].nRandomPos == p && m[id].nRandomPos == |v| - 1;
    }
    forall x | x in m'
      ensures 0 <= m'[x].nRandomPos < |w| && w[m'[x].nRandomPos] == x
    {
      assert x in m;
    }
  }

  lemma RemovedRandom(t: Tables, id: int)
    requires RandomOk(t.mapInfo, t.vRandom) && id in t.mapInfo
    ensures CanSwap(t, t.mapInfo[id].nRandomPos, |t.vRandom| - 1)
    ensures RandomOk(Removed(t, id).mapInfo, Removed(t, id).vRandom)
    ensures Removed(t, id).mapInfo.Keys == t.mapInfo.Keys - {id}
    ensures SameButRandom(t.mapInfo, Removed(t, id).mapInfo)
  {
    var s := Swapped(t, t.mapInfo[id].nRandomPos, |t.vRandom| - 1);
    RandomSwapped(t, t.mapInfo[id].nRandomPos, |t.vRandom| - 1);
    LastRemoved(s.mapInfo, s.vRandom, id);
    SameButRandomSubset(t.mapInfo, s.mapInfo, id);
  }

  lemma SameButRandomSubset(m: Infos, m': Infos, id: int)
    requires SameButRandom(m, m') && m'.Keys == m.Keys
    ensures (m' - {id}).Keys == m.Keys - {id} && SameButRandom(m, m' - {id})
  {
  }

  lemma RemovedAddr(m: Infos, m': Infos, mapAddr: map<NetAddr, int>, id: int)
    requires AddrOk(m, mapAddr) && id in m && m'.Keys == m.Keys - {id} && SameButRandom(m, m')
    ensures AddrOk(m', mapAddr - {m[id].service.ip})
  {
    forall x | x in m'
      ensures x in m && x != id && m'[x].service == m[x].service
    {
      assert x in m'.Keys;
    }
    forall a | a in mapAddr && a != m[id].service.ip
      ensures mapAddr[a] in m'
    {
      assert mapAddr[a] in m.Keys - {id};
    }
  }

  lemma RemovedCounts(m: Infos, m': Infos, id: int)
    requires id in m && !m[id].fInTried && m'.Keys == m.Keys - {id} && SameButRandom(m, m')
    ensures |NewIds(m')| == |NewIds(m)| - 1 && TriedIds(m') == TriedIds(m)
  {
    forall x
      ensures x in NewIds(m') <==> x in NewIds(m) - {id}
      ensures x in TriedIds(m') <==> x in TriedIds(m)
    {
      assert x in m'.Keys <==> x in m.Keys && x != id;
    }
    assert NewIds(m') == NewIds(m) - {id};
    assert TriedIds(m') == TriedIds(m);
  }

  lemma RemovedBuckets(h: Hashing, nKey: seq<nat>, m: Infos, m': Infos, vvNew: seq<set<int>>, vvTried: seq<seq<int>>,
                       b: int, id: int)
    requires id in m && !m[id].fInTried && m'.Keys == m.Keys - {id} && SameButRandom(m, m')
    requires 0 <= b < |vvNew| && id in vvNew[b] && |Holding(vvNew, id)| == 1
    requires NewMembersOk(m, vvNew) && TriedMembersOk(h, nKey, m, vvTried) && TriedPlacedOk(h, nKey, m, vvTried)
    ensures NewMembersOk(m', vvNew[b := vvNew[b] - {id}])
    ensures TriedMembersOk(h, nKey, m', vvTried) && TriedPlacedOk(h, nKey, m', vvTried)
  {
    HoldingAfterUnlink(vvNew, b, id);
    var w := vvNew[b := vvNew[b] - {id}];
    forall c, x | 0 <= c < |w| && x in w[c]
      ensures x in m' && !m'[x].fInTried
    {
      assert x in vvNew[c];
      assert c in Holding(w, x);
      assert x in m.Keys - {id};
    }
    forall x | x in m && x != id
      ensures x in m'
    {
      assert x in m.Keys - {id};
    }
    forall x | x in m'
      ensures x in m && x != id
    {
      assert x in m'.Keys;
    }
  }

  /** When the last reference goes, mapInfo loses just that entry. */
  lemma DroppedInfos(t: Tables, b: int, id: int)
    requires RandomOk(t.mapInfo, t.vRandom) && id in t.mapInfo && t.mapInfo[id].nRefCount == 1
    requires 0 <= b < |t.vvNew|
    ensures CanSwap(t, t.mapInfo[id].nRandomPos, |t.vRandom| - 1)
    ensures var t' := Dropped(t, b, id);
            && t'.mapInfo.Keys == t.mapInfo.Keys - {id} && SameButRandom(t.mapInfo, t'.mapInfo)
            && RandomOk(t'.mapInfo, t'.vRandom)
            && t' == t.(mapInfo := t'.mapInfo, vRandom := t'.vRandom, mapAddr := t.mapAddr - {t.mapInfo[id].service.ip},
                        nNew := t.nNew - 1, vvNew := t.vvNew[b := t.vvNew[b] - {id}])
  {
    var d := DecRef(t, id);
    RandomTouched(t.mapInfo, t.vRandom, id, d.mapInfo[id]);
    RemovedRandom(t, id);
    RemovedRandom(d, id);
    SameButRandomDropped(t.mapInfo, d.mapInfo, Removed(d, id).mapInfo, id);
  }

  lemma SameButRandomDropped(m: Infos, d: Infos, m': Infos, id: int)
    requires m'.Keys == m.Keys - {id} && SameButRandom(d, m') && d.Keys == m.Keys
    requires forall x :: x in m && x != id ==> d[x] == m[x]
    ensures SameButRandom(m, m')
  {
    forall x | x in m && x in m'
      ensures m'[x] == m[x].(nRandomPos := m'[x].nRandomPos)
    {
      assert x in m'.Keys && x in d.Keys;
    }
  }

  lemma RemovedRefs(m: Infos, m': Infos, vvNew: seq<set<int>>, b: int, id: int, pending: int)
    requires RefsOk(m, vvNew, pending) && SameButRandom(m, m') && m'.Keys == m.Keys - {id}
    requires 0 <= b < |vvNew| && id in vvNew[b]
    ensures RefsOk(m', vvNew[b := vvNew[b] - {id}], pending)
  {
    HoldingAfterUnlink(vvNew, b, id);
    forall x | x in m'
      ensures x in m && x != id
    {
      assert x in m'.Keys;
    }
  }

  lemma RemoveKeeps(h: Hashing, nKey: seq<nat>, t: Tables, b: int, id: int, pending: int)
    requires ConsistentBut(h, nKey, t, pending)
    requires 0 <= b < |t.vvNew| && id in t.vvNew[b] && id != pending
    requires t.mapInfo[id].nRefCount == 1
    ensures CanSwap(t, t.mapInfo[id].nRandomPos, |t.vRandom| - 1)
    ensures ConsistentBut(h, nKey, Dropped(t, b, id), pending)
  {
    DroppedInfos(t, b, id);
    var m' := Dropped(t, b, id).mapInfo;
    RemovedAddr(t.mapInfo, m', t.mapAddr, id);
    RemovedCounts(t.mapInfo, m', id);
    RemovedBuckets(h, nKey, t.mapInfo, m', t.vvNew, t.vvTried, b, id);
    RemovedRefs(t.mapInfo, m', t.vvNew, b, id, pending);
    assert m'.Keys <= t.mapInfo.Keys;
    RemovedIds(t.mapInfo, m', t.nIdCount);
  }

  lemma RemovedIds(m: Infos, m': Infos, n: int)
    requires IdsBelow(m, n) && m'.Keys <= m.Keys
    ensures IdsBelow(m', n)
  {
    forall x | x in m'
      ensures x in m
    {
      assert x in m'.Keys;
    }
  }

  /** Dropping one reference keeps everything, whether or not it was the last one. */
  lemma DroppedKeeps(h: Hashing, nKey: seq<nat>, t: Tables, b: int, id: int, pending: int)
    requires ConsistentBut(h, nKey, t, pending)
    requires 0 <= b < |t.vvNew| && id in t.vvNew[b] && id != pending
    ensures CanSwap(t, t.mapInfo[id].nRandomPos, |t.vRandom| - 1)
    ensures ConsistentBut(h, nKey, Dropped(t, b, id), pending)
    ensures pending in t.mapInfo ==>
              && pending in Dropped(t, b, id).mapInfo
              && var p := Dropped(t, b, id).mapInfo[pending]; p == t.mapInfo[pending].(nRandomPos := p.nRandomPos)
    ensures Dropped(t, b, id).vvNew == t.vvNew[b := t.vvNew[b] - {id}]
    ensures TimesOk(t.mapInfo) ==> TimesOk(Dropped(t, b, id).mapInfo)
  {
    RemovedRandom(t, id);
    if t.mapInfo[id].nRefCount == 1 {
      RemoveKeeps(h, nKey, t, b, id, pending);
      RandomTouched(t.mapInfo, t.vRandom, id, DecRef(t, id).mapInfo[id]);
      RemovedRandom(DecRef(t, id), id);
      if pending in t.mapInfo { assert pending in DecRef(t, id).mapInfo.Keys - {id}; }
    } else {
      DecRefUnlinkKeeps(h, nKey, t, b, id, pending);
    }
  }

  // ----- from new to tried -----

  lemma SameMembers(a: seq<int>, b: seq<int>)
    requires multiset(a) == multiset(b)
    ensures forall x :: x in a <==> x in b
    ensures |a| == |b|
  {
    assert forall x :: x in a <==> x in multiset(a);
    assert forall x :: x in b <==> x in multiset(b);
    assert |multiset(a)| == |a| && |multiset(b)| == |b|;
  }

  lemma OnceCounted(a: seq<int>, i: int)
    requires 0 <= i < |a| && Distinct(a)
    ensures multiset(a)[a[i]] == 1
  {
    assert a == a[..i] + [a[i]] + a[i + 1..];
    assert a[i] !in multiset(a[..i]) && a[i] !in multiset(a[i + 1..]);
  }

  lemma TwiceCounted(b: seq<int>, p: int, q: int)
    requires 0 <= p < q < |b| && b[p] == b[q]
    ensures multiset(b)[b[p]] >= 2
  {
    assert b == b[..q] + [b[q]] + b[q + 1..];
    assert b[..q][p] == b[p];
    assert b[p] in multiset(b[..q]);
  }

  lemma DistinctByCount(a: seq<int>, b: seq<int>)
    requires multiset(a) == multiset(b) && Distinct(a)
    ensures Distinct(b)
  {
    forall p, q | 0 <= p < q < |b|
      ensures b[p] != b[q]
    {
      if b[p] == b[q] {
        TwiceCounted(b, p, q);
        SameMembers(a, b);
        var i :| 0 <= i < |a| && a[i] == b[p];
        OnceCounted(a, i);
      }
    }
  }

  lemma ShuffledKeeps(h: Hashing, nKey: seq<nat>, t: Tables, t': Tables, kb: int)
    requires Consistent(h, nKey, t) && Shuffled(t, t', kb)
    ensures Consistent(h, nKey, t')
  {
    SameMembers(t.vvTried[kb], t'.vvTried[kb]);
    DistinctByCount(t.vvTried[kb], t'.vvTried[kb]);
    assert TriedPlacedOk(h, nKey, t'.mapInfo, t'.vvTried);
  }

  lemma MovedCounts(m: Infos, m': Infos, id: int)
    requires id in m && !m[id].fInTried && m'.Keys == m.Keys && m'[id].fInTried
    requires forall x :: x in m && x != id ==> m'[x].fInTried == m[x].fInTried
    ensures |NewIds(m')| == |NewIds(m)| - 1 && |TriedIds(m')| == |TriedIds(m)| + 1
  {
    forall x
      ensures x in NewIds(m') <==> x in NewIds(m) - {id}
      ensures x in TriedIds(m') <==> x in TriedIds(m) + {id}
    {
      assert x in m'.Keys <==> x in m.Keys;
    }
    assert NewIds(m') == NewIds(m) - {id};
    assert TriedIds(m') == TriedIds(m) + {id};
  }

  lemma PromotedBuckets(h: Hashing, nKey: seq<nat>, m: Infos, m': Infos, vvNew: seq<set<int>>, vvTried: seq<seq<int>>,
                        id: int, kb: int)
    requires id in m && !m[id].fInTried
    requires m' == m[id := m[id].(nRefCount := 0, fInTried := true)]
    requires 0 <= kb < |vvTried| && kb == h.TriedBucket(nKey, m[id].service) && |vvTried[kb]| < TRIED_BUCKET_SIZE
    requires NewMembersOk(m, vvNew) && TriedMembersOk(h, nKey, m, vvTried) && TriedPlacedOk(h, nKey, m, vvTried)
    ensures NewMembersOk(m', ClearedBuckets(vvNew, id))
    ensures TriedMembersOk(h, nKey, m', vvTried[kb := vvTried[kb] + [id]])
    ensures TriedPlacedOk(h, nKey, m', vvTried[kb := vvTried[kb] + [id]])
  {
    HoldingAfterClear(vvNew, id);
    var w := vvTried[kb := vvTried[kb] + [id]];
    assert id !in vvTried[kb];
    forall b | 0 <= b < |w|
      ensures Distinct(w[b])
    {
    }
  }

  /** A new entry enters the tried bucket its address hashes to. */
  lemma PromotedKeeps(h: Hashing, nKey: seq<nat>, t: Tables, id: int)
    requires Consistent(h, nKey, t)
    requires id in t.mapInfo && !t.mapInfo[id].fInTried
    requires |t.vvTried[h.TriedBucket(nKey, t.mapInfo[id].service)]| < TRIED_BUCKET_SIZE
    ensures Consistent(h, nKey, Promoted(Detached(t, id), id, h.TriedBucket(nKey, t.mapInfo[id].service)))
  {
    var kb := h.TriedBucket(nKey, t.mapInfo[id].service);
    var info := t.mapInfo[id].(nRefCount := 0, fInTried := true);
    var m' := t.mapInfo[id := info];
    assert Promoted(Detached(t, id), id, kb).mapInfo == m';
    RandomTouched(t.mapInfo, t.vRandom, id, info);
    MovedCounts(t.mapInfo, m', id);
    PromotedBuckets(h, nKey, t.mapInfo, m', t.vvNew, t.vvTried, id, kb);
    PromotedRefs(t.mapInfo, m', t.vvNew, id);
    MovedAddr(t.mapInfo, m', t.mapAddr);
  }

  lemma PromotedRefs(m: Infos, m': Infos, vvNew: seq<set<int>>, id: int)
    requires RefsOk(m, vvNew, NONE) && id in m && m' == m[id := m[id].(nRefCount := 0, fInTried := true)]
    ensures RefsOk(m', ClearedBuckets(vvNew, id), NONE)
  {
    HoldingAfterClear(vvNew, id);
  }

  lemma MovedAddr(m: Infos, m': Infos, mapAddr: map<NetAddr, int>)
    requires AddrOk(m, mapAddr) && m'.Keys == m.Keys && forall x :: x in m ==> m'[x].service == m[x].service
    ensures AddrOk(m', mapAddr)
  {
  }

  lemma SwappedCounts(m: Infos, m': Infos, id: int, gone: int)
    requires id in m && gone in m && !m[id].fInTried && m[gone].fInTried && m'.Keys == m.Keys
    requires m'[id].fInTried && !m'[gone].fInTried
    requires forall x :: x in m && x != id && x != gone ==> m'[x].fInTried == m[x].fInTried
    ensures |NewIds(m')| == |NewIds(m)| && |TriedIds(m')| == |TriedIds(m)|
  {
    forall x
      ensures x in NewIds(m') <==> x in NewIds(m) - {id} + {gone}
      ensures x in TriedIds(m') <==> x in TriedIds(m) - {gone} + {id}
    {
      assert x in m'.Keys <==> x in m.Keys;
    }
    assert NewIds(m') == NewIds(m) - {id} + {gone};
    assert TriedIds(m') == TriedIds(m) - {gone} + {id};
  }

  lemma ExchangedNew(m: Infos, m': Infos, vvNew: seq<set<int>>, id: int, gone: int, b: int)
    requires id in m && gone in m && !m[id].fInTried && m[gone].fInTried
    requires m' == m[gone := m[gone].(fInTried := false, nRefCount := 1)]
             [id := m[id].(nRefCount := 0, fInTried := true)]
    requires NewMembersOk(m, vvNew) && RefsOk(m, vvNew, NONE)
    requires 0 <= b < |vvNew| && |ClearedBuckets(vvNew, id)[b]| < NEW_BUCKET_SIZE && NONE !in m
    ensures var c := ClearedBuckets(vvNew, id);
            NewMembersOk(m', c[b := c[b] + {gone}]) && RefsOk(m', c[b := c[b] + {gone}], NONE)
  {
    var c := ClearedBuckets(vvNew, id);
    HoldingAfterClear(vvNew, id);
    HoldingOutside(m, vvNew, gone);
    assert gone !in c[b];
    HoldingAfterLink(c, b, gone);
  }

  lemma ExchangedTried(h: Hashing, nKey: seq<nat>, m: Infos, m': Infos, vvTried: seq<seq<int>>, id: int, kb: int,
                       pos: int)
    requires 0 <= kb < |vvTried| && 0 <= pos < |vvTried[kb]|
    requires id in m && !m[id].fInTried && kb == h.TriedBucket(nKey, m[id].service)
    requires TriedMembersOk(h, nKey, m, vvTried) && TriedPlacedOk(h, nKey, m, vvTried)
    requires var gone := vvTried[kb][pos];
             gone in m && m[gone].fInTried &&
             m' == m[gone := m[gone].(fInTried := false, nRefCount := 1)]
                      [id := m[id].(nRefCount := 0, fInTried := true)]
    ensures TriedMembersOk(h, nKey, m', vvTried[kb := vvTried[kb][pos := id]])
    ensures TriedPlacedOk(h, nKey, m', vvTried[kb := vvTried[kb][pos := id]])
  {
    var gone := vvTried[kb][pos];
    var q := vvTried[kb][pos := id];
    var w := vvTried[kb := q];
    assert id !in vvTried[kb];
    assert Distinct(q);
    assert gone !in q;
    assert q[pos] == id;
    forall x | x in m' && m'[x].fInTried
      ensures x in w[h.TriedBucket(nKey, m'[x].service)]
    {
      if x != id && h.TriedBucket(nKey, m'[x].service) == kb {
        assert m[x].fInTried && x in vvTried[kb];
        var i :| 0 <= i < |vvTried[kb]| && vvTried[kb][i] == x;
        assert q[i] == x;
      }
    }
    forall x, b | 0 <= b < |w| && x in w[b]
      ensures x in m' && m'[x].fInTried && h.TriedBucket(nKey, m'[x].service) == b
    {
      if b == kb && x != id {
        var i :| 0 <= i < |q| && q[i] == x;
        assert vvTried[kb][i] == x;
      }
    }
  }

  lemma ExchangedFields(h: Hashing, nKey: seq<nat>, t: Tables, id: int, kb: int, pos: int, origin: int)
    requires Shape(t) && id in t.mapInfo && 0 <= origin < |t.vvNew|
    requires 0 <= kb < |t.vvTried| && 0 <= pos < |t.vvTried[kb]|
    requires t.vvTried[kb][pos] in t.mapInfo && t.vvTried[kb][pos] != id
    ensures Shape(Detached(t, id))
    ensures var gone, d := t.vvTried[kb][pos], Detached(t, id);
            var b := EvictionTarget(h, nKey, d, gone, origin);
            Exchanged(h, nKey, d, id, kb, pos, origin) ==
            t.(mapInfo := t.mapInfo[gone := t.mapInfo[gone].(fInTried := false, nRefCount := 1)]
                                   [id := t.mapInfo[id].(nRefCount := 0, fInTried := true)],
               vvNew := d.vvNew[b := d.vvNew[b] + {gone}],
               vvTried := t.vvTried[kb := t.vvTried[kb][pos := id]])
  {
    var gone, d := t.vvTried[kb][pos], Detached(t, id);
    var m := d.mapInfo[gone := d.mapInfo[gone].(fInTried := false, nRefCount := 1)];
    assert m[id := m[id].(fInTried := true)] ==
           t.mapInfo[gone := t.mapInfo[gone].(fInTried := false, nRefCount := 1)]
                    [id := t.mapInfo[id].(nRefCount := 0, fInTried := true)];
  }

  lemma EvictionHasRoom(h: Hashing, nKey: seq<nat>, t: Tables, id: int, gone: int, origin: int)
    requires Shape(t) && id in t.mapInfo && gone in t.mapInfo
    requires 0 <= origin < |t.vvNew| && id in t.vvNew[origin] && NewMembersOk(t.mapInfo, t.vvNew)
    ensures Shape(Detached(t, id))
    ensures |ClearedBuckets(t.vvNew, id)[EvictionTarget(h, nKey, Detached(t, id), gone, origin)]| < NEW_BUCKET_SIZE
  {
    HoldingAfterClear(t.vvNew, id);
  }

  lemma ExchangedParts(h: Hashing, nKey: seq<nat>, t: Tables, m': Infos, id: int, gone: int)
    requires RandomOk(t.mapInfo, t.vRandom) && AddrOk(t.mapInfo, t.mapAddr) && CountsOk(t.mapInfo, t.nNew, t.nTried)
    requires IdsBelow(t.mapInfo, t.nIdCount)
    requires id in t.mapInfo && gone in t.mapInfo
    requires !t.mapInfo[id].fInTried && t.mapInfo[gone].fInTried
    requires m' == t.mapInfo[gone := t.mapInfo[gone].(fInTried := false, nRefCount := 1)]
                            [id := t.mapInfo[id].(nRefCount := 0, fInTried := true)]
    ensures RandomOk(m', t.vRandom) && AddrOk(m', t.mapAddr) && CountsOk(m', t.nNew, t.nTried)
    ensures IdsBelow(m', t.nIdCount)
  {
    var gi, ii := t.mapInfo[gone].(fInTried := false, nRefCount := 1), t.mapInfo[id].(nRefCount := 0, fInTried := true);
    RandomTouched(t.mapInfo, t.vRandom, gone, gi);
    RandomTouched(t.mapInfo[gone := gi], t.vRandom, id, ii);
    SwappedCounts(t.mapInfo, m', id, gone);
    MovedAddr(t.mapInfo, m', t.mapAddr);
  }

  /** A new entry takes the place of a tried one, which goes back to a new bucket that has room. */
  lemma ExchangedKeeps(h: Hashing, nKey: seq<nat>, t: Tables, id: int, kb: int, pos: int, origin: int)
    requires Consistent(h, nKey, t)
    requires id in t.mapInfo && !t.mapInfo[id].fInTried
    requires 0 <= origin < |t.vvNew| && id in t.vvNew[origin]
    requires kb == h.TriedBucket(nKey, t.mapInfo[id].service) && 0 <= pos < |t.vvTried[kb]|
    ensures t.vvTried[kb][pos] in t.mapInfo && Shape(Detached(t, id))
    ensures Consistent(h, nKey, Exchanged(h, nKey, Detached(t, id), id, kb, pos, origin))
  {
    var gone := t.vvTried[kb][pos];
    assert gone in t.vvTried[kb];
    assert gone in t.mapInfo && t.mapInfo[gone].fInTried;
    ExchangedFields(h, nKey, t, id, kb, pos, origin);
    EvictionHasRoom(h, nKey, t, id, gone, origin);
    var b := EvictionTarget(h, nKey, Detached(t, id), gone, origin);
    var t' := Exchanged(h, nKey, Detached(t, id), id, kb, pos, origin);
    ExchangedParts(h, nKey, t, t'.mapInfo, id, gone);
    ExchangedNew(t.mapInfo, t'.mapInfo, t.vvNew, id, gone, b);
    ExchangedTried(h, nKey, t.mapInfo, t'.mapInfo, t.vvTried, id, kb, pos);
  }
}
