/** A consistent table on which the entry evicted from a full tried bucket is neither the oldest nor even sampled. */
module AddrMissed {
  import opened AddrTables
  import opened AddrSampling
  import opened AddrMan

  /** A hash that puts every address into bucket 0. */
  function OneBucket(): Hashing {
    Hashing(_ => 0, _ => [], _ => [], _ => true)
  }

  /** Ids 0 to 63 are tried, entry 10 by far the least recently; id 64 is new. */
  function Entry(id: nat): Info {
    if id < 64 then Info(Service(id, 1), {}, 0, 1000, 0, if id == 10 then 1 else 1000, 0, 0, true, id)
    else Info(Service(id, 1), {}, 0, 0, 0, 0, 0, 1, false, id)
  }

  function Ids(n: nat): (s: set<int>)
    ensures forall id :: id in s <==> 0 <= id < n
  {
    var q := seq(n, i => i);
    assert forall id :: 0 <= id < n ==> q[id] == id && id in q;
    assert forall id :: id in q ==> 0 <= id < n;
    set id | id in q
  }

  lemma {:induction false} IdsCount(n: nat)
    ensures |Ids(n)| == n
  {
    if n > 0 {
      IdsCount(n - 1);
      assert Ids(n) == Ids(n - 1) + {n - 1};
    } else {
      assert Ids(0) == {};
    }
  }

  function Entries(): Infos {
    map id | id in Ids(65) :: Entry(id)
  }

  function Addresses(): map<NetAddr, int> {
    map id: int | id in Ids(65) :: (id as NetAddr) := id
  }

  function Bucket(): (q: seq<int>) {
    seq(64, i => i)
  }

  /** 64 tried entries fill tried bucket 0, and the new entry is in new bucket 0. */
  function Crowded(): Tables {
    Tables(65, Entries(), Addresses(), seq(65, i => i),
           64, seq(TRIED_BUCKET_COUNT, b => if b == 0 then Bucket() else []),
           1, seq(NEW_BUCKET_COUNT, b => if b == 0 then {64} else {}))
  }

  // ----- the table is consistent -----

  lemma CrowdedIndexes()
    ensures var t := Crowded();
      Shape(t) && RandomOk(t.mapInfo, t.vRandom) && AddrOk(t.mapInfo, t.mapAddr) && TimesOk(t.mapInfo)
  {
  }

  lemma CrowdedCounts()
    ensures CountsOk(Entries(), 1, 64)
  {
    IdsCount(64);
    var m := Entries();
    assert NewIds(m) == {64};
    assert TriedIds(m) == Ids(64);
  }

  lemma CrowdedNew()
    ensures var t := Crowded(); NewMembersOk(t.mapInfo, t.vvNew) && RefsOk(t.mapInfo, t.vvNew, NONE)
  {
    var t := Crowded();
    assert Holding(t.vvNew, 64) == {0};
  }

  lemma CrowdedTried(nKey: seq<nat>)
    ensures var t := Crowded();
      TriedMembersOk(OneBucket(), nKey, t.mapInfo, t.vvTried) && TriedPlacedOk(OneBucket(), nKey, t.mapInfo, t.vvTried)
  {
    var t := Crowded();
    forall id | id in t.mapInfo && t.mapInfo[id].fInTried
      ensures id in t.vvTried[0]
    {
      assert t.vvTried[0][id] == id;
    }
  }

  lemma CrowdedConsistent(nKey: seq<nat>)
    ensures Consistent(OneBucket(), nKey, Crowded()) && TimesOk(Crowded().mapInfo)
  {
    hide Entries, Addresses, Bucket;
    hide Shape, RandomOk, AddrOk, CountsOk, NewMembersOk, RefsOk, TriedMembersOk, TriedPlacedOk, TimesOk, OneBucket;
    CrowdedIndexes();
    CrowdedCounts();
    CrowdedNew();
    CrowdedTried(nKey);
  }

  // ----- the draws -----

  lemma MissedDraws(q: seq<int>)
    requires |q| == 64 && q[0] == 0 && q[10] == 10
    ensures InRange(q, [10, 0, 0, 0]) && Drawn(q, [10, 0, 0, 0]) == q[10 := 0][0 := 10]
  {
    hide Drawn;
    assert Drawn(q, []) == q by { NoDraws(q); }
    DrawMore(q, [], 10);
    assert [] + [10] == [10];
    DrawMore(q, [10], 0);
    assert [10] + [0] == [10, 0];
    DrawMore(q, [10, 0], 0);
    assert [10, 0] + [0] == [10, 0, 0];
    DrawMore(q, [10, 0, 0], 0);
    assert [10, 0, 0] + [0] == [10, 0, 0, 0];
  }

  /** The bucket after the draws 10, 0, 0, 0. */
  function Mixed(): (r: seq<int>)
    ensures |r| == 64 && r[0] == 10 && r[10] == 0 && forall j :: 0 < j < 64 && j != 10 ==> r[j] == j
  {
    Bucket()[10 := 0][0 := 10]
  }

  /** They bring up the oldest entry first, and yet the position found holds entry 0. */
  lemma MissedSample(m: Infos)
    requires forall id :: 0 <= id < 64 ==> id in m && m[id] == Entry(id)
    ensures Sampled(m, Bucket(), Mixed(), [10, 0, 0, 0], 10) && OldestTurn(m, Mixed(), 4) == 0
  {
    MissedDraws(Bucket());
    var r := Mixed();
    hide Drawn, OldestTurn, Exchange;
    assert OldestTurn(m, r, 4) == 0;
  }

  ghost function Sampled64(): Tables {
    Crowded().(vvTried := Crowded().vvTried[0 := Mixed()])
  }

  ghost function Evicted(nKey: seq<nat>): Tables {
    Exchanged(OneBucket(), nKey, Detached(Sampled64(), 64), 64, 0, 10, 0)
  }

  lemma CrowdedSampled()
    ensures var t, mid := Crowded(), Sampled64();
      && 64 in t.mapInfo && 64 in mid.mapInfo && |t.vvTried| == |mid.vvTried| == TRIED_BUCKET_COUNT
      && |mid.vvNew| == NEW_BUCKET_COUNT && |t.vvTried[0]| == TRIED_BUCKET_SIZE
      && Shuffled(t, mid, 0) && Shape(Detached(mid, 64))
      && 10 < |mid.vvTried[0]| && mid.vvTried[0][10] in mid.mapInfo
      && Sampled(Detached(t, 64).mapInfo, t.vvTried[0], mid.vvTried[0], [10, 0, 0, 0], 10)
  {
    MissedSample(Detached(Crowded(), 64).mapInfo);
    MixedPermutes();
    hide Sampled, Mixed;
  }

  lemma Moved(man: CAddrMan)
    requires man.h == OneBucket()
    ensures man.MovedToTried(Crowded(), Evicted(man.nKey), 64, 0, Sampled64(), 10, [10, 0, 0, 0])
  {
    CrowdedSampled();
    hide Sampled, Exchanged, Mixed, Crowded, Sampled64, Shuffled, Shape, Detached;
  }

  lemma MixedPermutes()
    ensures multiset(Mixed()) == multiset(Bucket())
  {
  }

  lemma EvictedEntries(nKey: seq<nat>)
    ensures var m := Evicted(nKey).mapInfo;
      0 in m && !m[0].fInTried && 10 in m && m[10].fInTried && 64 in m && m[64].fInTried
  {
  }

  /** Entry 64 moves to tried on a consistent table with the draws 10, 0, 0, 0: entry 0 is evicted, which was not even
      among the four sampled, while entry 10 was, succeeded less recently and stays. */
  lemma OldestIsMissed(man: CAddrMan)
    requires man.h == OneBucket()
    ensures var t, t' := Crowded(), Evicted(man.nKey);
      && Consistent(man.h, man.nKey, t) && TimesOk(t.mapInfo)
      && man.MovedToTried(t, t', 64, 0, Sampled64(), 10, [10, 0, 0, 0])
      && 0 in t'.mapInfo && !t'.mapInfo[0].fInTried && 0 !in Mixed()[..4]
      && 10 in t'.mapInfo && t'.mapInfo[10].fInTried && 10 in Mixed()[..4]
      && t.mapInfo[10].nLastSuccess < t.mapInfo[0].nLastSuccess
  {
    CrowdedConsistent(man.nKey);
    Moved(man);
    EvictedEntries(man.nKey);
    hide Evicted, Mixed, Bucket, Consistent, TimesOk, Sampled64, CAddrMan.MovedToTried;
    assert Mixed()[..4][0] == 10;
  }
}
