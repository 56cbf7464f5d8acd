/** The saved form of the address tables: writing it, reading it back, and the round trip. */
module AddrStore {
  import opened AddrTables
  import opened Ordered
  import opened Wrappers

  /** What a saved entry holds; the remaining fields are memory only. */
  datatype Record = Record(
    service: Service, nServices: set<nat>, nTime: nat, source: NetAddr, nLastSuccess: int, nAttempts: int)

  datatype Token = TVersion | TKey(nKey: seq<nat>) | TInt(n: int) | TInfo(rec: Record)

  function ToRecord(info: Info): Record {
    Record(info.service, info.nServices, info.nTime, info.source, info.nLastSuccess, info.nAttempts)
  }

  function FromRecord(rec: Record): Info {
    Info(rec.service, rec.nServices, rec.nTime, 0, rec.source, rec.nLastSuccess, rec.nAttempts, 0, false, -1)
  }

  // ----- writing -----

  /** The ids among `ids` that carry a reference count, in order. */
  function NewList(m: Infos, ids: seq<int>): (r: seq<int>)
    requires forall i :: 0 <= i < |ids| ==> ids[i] in m
  {
    if ids == [] then [] else
    var x := ids[|ids| - 1];
    var rest := NewList(m, ids[..|ids| - 1]);
    if m[x].nRefCount != 0 then rest + [x] else rest
  }

  /** The ids among `ids` that are in the tried table, in order. */
  function TriedList(m: Infos, ids: seq<int>): (r: seq<int>)
    requires forall i :: 0 <= i < |ids| ==> ids[i] in m
  {
    if ids == [] then [] else
    var x := ids[|ids| - 1];
    var rest := TriedList(m, ids[..|ids| - 1]);
    if m[x].fInTried then rest + [x] else rest
  }

  lemma SortedKeys(m: Infos)
    ensures forall i :: 0 <= i < |SortedIds(m.Keys)| ==> SortedIds(m.Keys)[i] in m
  {
    forall i | 0 <= i < |SortedIds(m.Keys)|
      ensures SortedIds(m.Keys)[i] in m
    {
      assert SortedIds(m.Keys)[i] in m.Keys;
    }
  }

  function AllNew(m: Infos): seq<int> {
    SortedKeys(m);
    NewList(m, SortedIds(m.Keys))
  }

  function AllTried(m: Infos): seq<int> {
    SortedKeys(m);
    TriedList(m, SortedIds(m.Keys))
  }

  function Records(m: Infos, ids: seq<int>): (r: seq<Token>)
    requires forall i :: 0 <= i < |ids| ==> ids[i] in m
    ensures |r| == |ids|
  {
    seq(|ids|, i requires 0 <= i < |ids| => TInfo(ToRecord(m[ids[i]])))
  }

  function IndexOf(q: seq<int>, x: int): (i: int)
    ensures x in q ==> 0 <= i < |q| && q[i] == x
  {
    if q == [] then 0 else if q[0] == x then 0 else
    assert x in q ==> x in q[1..];
    1 + IndexOf(q[1..], x)
  }

  function Indexes(order: seq<int>, ids: seq<int>): seq<Token> {
    seq(|ids|, i requires 0 <= i < |ids| => TInt(IndexOf(order, ids[i])))
  }

  function Bucket(order: seq<int>, bucket: set<int>): seq<Token> {
    [TInt(|bucket|)] + Indexes(order, SortedIds(bucket))
  }

  function Buckets(order: seq<int>, vvNew: seq<set<int>>): seq<Token> {
    if vvNew == [] then [] else Buckets(order, vvNew[..|vvNew| - 1]) + Bucket(order, vvNew[|vvNew| - 1])
  }

  function Header(nKey: seq<nat>, nNew: int, nTried: int): seq<Token> {
    [TVersion, TKey(nKey), TInt(nNew), TInt(nTried), TInt(NEW_BUCKET_COUNT)]
  }

  lemma {:induction false} ListMembers(m: Infos, ids: seq<int>)
    requires forall i :: 0 <= i < |ids| ==> ids[i] in m
    ensures forall x :: x in NewList(m, ids) <==> x in ids && m[x].nRefCount != 0
    ensures forall x :: x in TriedList(m, ids) <==> x in ids && m[x].fInTried
  {
    if ids != [] {
      var x, front := ids[|ids| - 1], ids[..|ids| - 1];
      ListMembers(m, front);
      assert ids == front + [x];
    }
  }

  lemma {:induction false} ListsIncrease(m: Infos, ids: seq<int>)
    requires (forall i :: 0 <= i < |ids| ==> ids[i] in m) && Increasing(ids)
    ensures Increasing(NewList(m, ids)) && Increasing(TriedList(m, ids))
  {
    if ids != [] {
      var x, front := ids[|ids| - 1], ids[..|ids| - 1];
      ListMembers(m, front);
      ListsIncrease(m, front);
      var a, b := NewList(m, front), TriedList(m, front);
      assert NewList(m, ids) in {a, a + [x]} && TriedList(m, ids) in {b, b + [x]};
      hide NewList, TriedList;
      IncreasingMore(ids, a);
      IncreasingMore(ids, b);
    }
  }

  /** The last of increasing ids can follow any increasing list of the ones before it. */
  lemma IncreasingMore(ids: seq<int>, a: seq<int>)
    requires ids != [] && Increasing(ids) && Increasing(a)
    requires forall y :: y in a ==> y in ids[..|ids| - 1]
    ensures Increasing(a + [ids[|ids| - 1]])
  {
    forall j | 0 <= j < |a|
      ensures a[j] < ids[|ids| - 1]
    {
      assert a[j] in a;
    }
  }

  /** The two lists split the ids: every id once, new ones in one list and tried ones in the other. */
  lemma ListsSplit(h: Hashing, nKey: seq<nat>, t: Tables)
    requires Consistent(h, nKey, t)
    ensures forall x :: x in AllNew(t.mapInfo) <==> x in NewIds(t.mapInfo)
    ensures forall x :: x in AllTried(t.mapInfo) <==> x in TriedIds(t.mapInfo)
    ensures Increasing(AllNew(t.mapInfo)) && |AllNew(t.mapInfo)| == t.nNew
    ensures Increasing(AllTried(t.mapInfo)) && |AllTried(t.mapInfo)| == t.nTried
  {
    var m := t.mapInfo;
    SortedKeys(m);
    ListMembers(m, SortedIds(m.Keys));
    ListsIncrease(m, SortedIds(m.Keys));
    forall x
      ensures x in AllNew(m) <==> x in NewIds(m)
      ensures x in AllTried(m) <==> x in TriedIds(m)
    {
      assert x in SortedIds(m.Keys) <==> x in m.Keys;
      if x in m {
        assert RefsOk(m, t.vvNew, NONE) && TriedPlacedOk(h, nKey, m, t.vvTried);
      }
    }
    DistinctCount(AllNew(m), NewIds(m));
    DistinctCount(AllTried(m), TriedIds(m));
  }

  lemma ListsIn(m: Infos)
    ensures forall i :: 0 <= i < |AllNew(m)| ==> AllNew(m)[i] in m
    ensures forall i :: 0 <= i < |AllTried(m)| ==> AllTried(m)[i] in m
  {
    SortedKeys(m);
    ListMembers(m, SortedIds(m.Keys));
    forall i | 0 <= i < |AllNew(m)|
      ensures AllNew(m)[i] in m
    {
      var x := AllNew(m)[i];
      assert x in AllNew(m);
      assert x in SortedIds(m.Keys);
    }
    forall i | 0 <= i < |AllTried(m)|
      ensures AllTried(m)[i] in m
    {
      var x := AllTried(m)[i];
      assert x in AllTried(m);
      assert x in SortedIds(m.Keys);
    }
  }

  /** Reading one more id extends the list by it or not; either way it stays a prefix of the whole list. */
  lemma NewListGrows(m: Infos, ids: seq<int>, k: nat)
    requires k < |ids| && forall i :: 0 <= i < |ids| ==> ids[i] in m
    ensures NewList(m, ids[..k + 1]) == NewList(m, ids[..k]) + (if m[ids[k]].nRefCount != 0 then [ids[k]] else [])
    ensures NewList(m, ids[..k + 1]) <= NewList(m, ids)
    decreases |ids| - k
  {
    assert ids[..k + 1][..k] == ids[..k];
    if k + 1 < |ids| {
      NewListGrows(m, ids, k + 1);
    } else {
      assert ids[..k + 1] == ids;
    }
  }

  lemma NewListFresh(m: Infos, ids: seq<int>, k: nat)
    requires k < |ids| && Increasing(ids) && forall i :: 0 <= i < |ids| ==> ids[i] in m
    ensures forall i :: 0 <= i < |NewList(m, ids[..k])| ==> NewList(m, ids[..k])[i] != ids[k]
  {
    ListMembers(m, ids[..k]);
    forall i | 0 <= i < |NewList(m, ids[..k])|
      ensures NewList(m, ids[..k])[i] != ids[k]
    {
      var x := NewList(m, ids[..k])[i];
      assert x in NewList(m, ids[..k]);
      assert x in ids[..k];
    }
  }

  lemma TriedListGrows(m: Infos, ids: seq<int>, k: nat)
    requires k < |ids| && forall i :: 0 <= i < |ids| ==> ids[i] in m
    ensures TriedList(m, ids[..k + 1]) == TriedList(m, ids[..k]) + (if m[ids[k]].fInTried then [ids[k]] else [])
    ensures TriedList(m, ids[..k + 1]) <= TriedList(m, ids)
    decreases |ids| - k
  {
    assert ids[..k + 1][..k] == ids[..k];
    if k + 1 < |ids| {
      TriedListGrows(m, ids, k + 1);
    } else {
      assert ids[..k + 1] == ids;
    }
  }

  function Save(nKey: seq<nat>, t: Tables): seq<Token> {
    ListsIn(t.mapInfo);
    Header(nKey, t.nNew, t.nTried)
    + Records(t.mapInfo, AllNew(t.mapInfo))
    + Records(t.mapInfo, AllTried(t.mapInfo))
    + Buckets(AllNew(t.mapInfo), t.vvNew)
  }

  /** What stands for an entry in the stream. */
  predicate Stands(token: Token, info: Info) {
    token == TInfo(Record(info.service, info.nServices, info.nTime, info.source, info.nLastSuccess, info.nAttempts))
  }

  lemma ListKinds(h: Hashing, nKey: seq<nat>, t: Tables)
    requires Consistent(h, nKey, t)
    ensures var a, b := AllNew(t.mapInfo), AllTried(t.mapInfo);
      && |a| == t.nNew && |b| == t.nTried && Increasing(a) && Increasing(b)
      && (forall i :: 0 <= i < |a| ==> a[i] in t.mapInfo && !t.mapInfo[a[i]].fInTried)
      && (forall i :: 0 <= i < |b| ==> b[i] in t.mapInfo && t.mapInfo[b[i]].fInTried)
  {
    ListsSplit(h, nKey, t);
    hide AllNew, AllTried, Consistent;
    var a, b := AllNew(t.mapInfo), AllTried(t.mapInfo);
    assert Increasing(a) && Increasing(b) && |a| == t.nNew && |b| == t.nTried by { TriedIncreases(h, nKey, t); }
    forall i | 0 <= i < |a|
      ensures a[i] in t.mapInfo && !t.mapInfo[a[i]].fInTried
    {
      assert a[i] in a;
      assert a[i] in NewIds(t.mapInfo);
    }
    forall i | 0 <= i < |b|
      ensures b[i] in t.mapInfo && t.mapInfo[b[i]].fInTried
    {
      assert b[i] in b;
      assert b[i] in TriedIds(t.mapInfo);
    }
  }

  lemma TriedIncreases(h: Hashing, nKey: seq<nat>, t: Tables)
    requires Consistent(h, nKey, t)
    ensures Increasing(AllNew(t.mapInfo)) && Increasing(AllTried(t.mapInfo))
    ensures |AllNew(t.mapInfo)| == t.nNew && |AllTried(t.mapInfo)| == t.nTried
  {
    ListsSplit(h, nKey, t);
  }

  lemma RecordsStand(m: Infos, ids: seq<int>)
    requires forall i :: 0 <= i < |ids| ==> ids[i] in m
    ensures forall i :: 0 <= i < |ids| ==> Stands(Records(m, ids)[i], m[ids[i]])
  {
  }

  /** The stream begins with version, key, the two counts and 256, the number of buckets; then come the new entries and
      then the tried ones, each in ascending order of ids, and then the buckets. */
  lemma SaveLayout(h: Hashing, nKey: seq<nat>, t: Tables) returns (news: seq<Token>, tried: seq<Token>)
    requires Consistent(h, nKey, t)
    ensures var a, b := AllNew(t.mapInfo), AllTried(t.mapInfo);
      && Save(nKey, t) == [TVersion, TKey(nKey), TInt(t.nNew), TInt(t.nTried), TInt(256)]
                          + news + tried + Buckets(a, t.vvNew)
      && |news| == |a| == t.nNew && |tried| == |b| == t.nTried && Increasing(a) && Increasing(b)
      && (forall i :: 0 <= i < |a| ==>
            a[i] in t.mapInfo && !t.mapInfo[a[i]].fInTried && Stands(news[i], t.mapInfo[a[i]]))
      && (forall i :: 0 <= i < |b| ==>
            b[i] in t.mapInfo && t.mapInfo[b[i]].fInTried && Stands(tried[i], t.mapInfo[b[i]]))
  {
    ListKinds(h, nKey, t);
    var a, b := AllNew(t.mapInfo), AllTried(t.mapInfo);
    news, tried := Records(t.mapInfo, a), Records(t.mapInfo, b);
    RecordsStand(t.mapInfo, a);
    RecordsStand(t.mapInfo, b);
    hide AllNew, AllTried, Buckets, Consistent, Records, Stands, Increasing;
  }

  predicate PlaceOf(order: seq<int>, n: int, id: int) {
    id in order ==> 0 <= n < |order| && order[n] == id
  }

  /** The size of a bucket and then, in ascending order of its ids, the places of their entries in the stream. */
  predicate BucketPart(order: seq<int>, bucket: set<int>, part: seq<Token>) {
    var ids := SortedIds(bucket);
    && |part| == 1 + |ids| && part[0] == TInt(|bucket|)
    && forall i :: 0 <= i < |ids| ==> part[1 + i].TInt? && PlaceOf(order, part[1 + i].n, ids[i])
  }

  lemma BucketTokens(order: seq<int>, bucket: set<int>)
    ensures BucketPart(order, bucket, Bucket(order, bucket))
  {
    hide SortedIds;
  }

  /** The buckets follow each other in order. */
  lemma {:induction false} BucketLayout(order: seq<int>, vvNew: seq<set<int>>, b: nat)
      returns (part: seq<Token>, rest: seq<Token>)
    requires b < |vvNew|
    ensures Buckets(order, vvNew) == Buckets(order, vvNew[..b]) + part + rest && BucketPart(order, vvNew[b], part)
    decreases |vvNew|
  {
    hide Bucket, BucketPart;
    var n := |vvNew| - 1;
    if b < n {
      var before;
      part, before := BucketLayout(order, vvNew[..n], b);
      assert vvNew[..n][..b] == vvNew[..b] && vvNew[..n][b] == vvNew[b];
      rest := before + Bucket(order, vvNew[n]);
    } else {
      BucketTokens(order, vvNew[b]);
      part, rest := Bucket(order, vvNew[b]), [];
    }
  }

  // ----- reading -----

  function AddNew(h: Hashing, nKey: seq<nat>, t: Tables, n: int, rec: Record, same: bool): Tables
    requires |t.vvNew| == NEW_BUCKET_COUNT
  {
    var info := FromRecord(rec).(nRandomPos := |t.vRandom|, nRefCount := if same then 0 else 1);
    var b := h.NewBucket(nKey, rec.service, rec.source);
    t.(mapInfo := t.mapInfo[n := info],
       mapAddr := t.mapAddr[rec.service.ip := n],
       vRandom := t.vRandom + [n],
       vvNew := if same then t.vvNew else t.vvNew[b := t.vvNew[b] + {n}])
  }

  function ReadNew(h: Hashing, nKey: seq<nat>, s: seq<Token>, pos: nat, n: int, nNew: int, same: bool, t: Tables)
    : (r: Option<(nat, Tables)>)
    requires |t.vvNew| == NEW_BUCKET_COUNT
    ensures r.Some? ==> |r.value.1.vvNew| == NEW_BUCKET_COUNT && r.value.1.vvTried == t.vvTried
    decreases nNew - n
  {
    if n >= nNew then Some((pos, t))
    else if pos >= |s| || !s[pos].TInfo? then None
    else ReadNew(h, nKey, s, pos + 1, n + 1, nNew, same, AddNew(h, nKey, t, n, s[pos].rec, same))
  }

  /** A tried entry with the next id; it is lost if its bucket is full. */
  function AddTried(h: Hashing, nKey: seq<nat>, t: Tables, rec: Record): Tables
    requires |t.vvTried| == TRIED_BUCKET_COUNT
  {
    var b := h.TriedBucket(nKey, rec.service);
    if |t.vvTried[b]| < TRIED_BUCKET_SIZE then
      t.(mapInfo := t.mapInfo[t.nIdCount := FromRecord(rec).(nRandomPos := |t.vRandom|, fInTried := true)],
         mapAddr := t.mapAddr[rec.service.ip := t.nIdCount],
         vRandom := t.vRandom + [t.nIdCount],
         vvTried := t.vvTried[b := t.vvTried[b] + [t.nIdCount]],
         nIdCount := t.nIdCount + 1)
    else t
  }

  function ReadTried(h: Hashing, nKey: seq<nat>, s: seq<Token>, pos: nat, n: int, nTried: int, nLost: int, t: Tables)
    : (r: Option<(nat, int, Tables)>)
    requires |t.vvTried| == TRIED_BUCKET_COUNT
    ensures r.Some? ==> r.value.2.vvNew == t.vvNew
    decreases nTried - n
  {
    if n >= nTried then Some((pos, nLost, t))
    else if pos >= |s| || !s[pos].TInfo? then None
    else
      var t' := AddTried(h, nKey, t, s[pos].rec);
      var lost := if t'.nIdCount == t.nIdCount then nLost + 1 else nLost;
      ReadTried(h, nKey, s, pos + 1, n + 1, nTried, lost, t')
  }

  function AddMember(t: Tables, b: int, nIndex: int, same: bool): Tables
    requires 0 <= b < |t.vvNew| && nIndex in t.mapInfo
  {
    if same && t.mapInfo[nIndex].nRefCount < NEW_BUCKETS_PER_ADDRESS
    then Linked(IncRef(t, nIndex), b, nIndex)
    else t
  }

  function ReadMembers(s: seq<Token>, pos: nat, b: int, n: int, nSize: int, same: bool,
                       t: Tables): (r: Option<(nat, Tables)>)
    requires 0 <= b < |t.vvNew|
    ensures r.Some? ==> |r.value.1.vvNew| == |t.vvNew|
    decreases nSize - n
  {
    if n >= nSize then Some((pos, t))
    else if pos >= |s| || !s[pos].TInt? || s[pos].n !in t.mapInfo then None
    else ReadMembers(s, pos + 1, b, n + 1, nSize, same, AddMember(t, b, s[pos].n, same))
  }

  function ReadBuckets(s: seq<Token>, pos: nat, b: nat, nUBuckets: int, same: bool, t: Tables): Option<Tables>
    requires |t.vvNew| == NEW_BUCKET_COUNT
    decreases nUBuckets - b
  {
    if b >= nUBuckets then Some(t)
    else if b >= NEW_BUCKET_COUNT || pos >= |s| || !s[pos].TInt? then None
    else
      match ReadMembers(s, pos + 1, b, 0, s[pos].n, same, t)
      case None => None
      case Some((pos', t')) => ReadBuckets(s, pos', b + 1, nUBuckets, same, t')
  }

  function Empty(nNew: int, nTried: int): Tables {
    Tables(0, map[], map[], [], nTried, seq(TRIED_BUCKET_COUNT, _ => []), nNew, seq(NEW_BUCKET_COUNT, _ => {}))
  }

  /** The key and the tables a saved stream stands for; None if the stream ends early or is malformed. */
  function Load(h: Hashing, s: seq<Token>): Option<(seq<nat>, Tables)> {
    if |s| < 5 || !s[0].TVersion? || !s[1].TKey? || !s[2].TInt? || !s[3].TInt? || !s[4].TInt? then None else
    var nKey, nNew, nTried, nUBuckets := s[1].nKey, s[2].n, s[3].n, s[4].n;
    var same := nUBuckets == NEW_BUCKET_COUNT;
    match ReadNew(h, nKey, s, 5, 0, nNew, same, Empty(nNew, nTried))
    case None => None
    case Some((pos, t1)) =>
      match ReadTried(h, nKey, s, pos, 0, nTried, 0, t1.(nIdCount := nNew))
      case None => None
      case Some((pos', nLost, t2)) =>
        match ReadBuckets(s, pos', 0, nUBuckets, same, t2.(nTried := nTried - nLost))
        case None => None
        case Some(t3) => Some((nKey, t3))
  }
}
