/**
 The tables of the stochastic address manager as one value, the consistency condition
 that ties them together, and what each structural change does to them.
 */
module AddrTables {

  const TRIED_BUCKET_COUNT: int := 64
  const TRIED_BUCKET_SIZE: int := 64
  const NEW_BUCKET_COUNT: int := 256
  const NEW_BUCKET_SIZE: int := 64
  const TRIED_BUCKETS_PER_GROUP: int := 4
  const NEW_BUCKETS_PER_SOURCE_GROUP: int := 32
  const NEW_BUCKETS_PER_ADDRESS: int := 4

  /** The sixteen bytes of a network address, read as one number. */
  type NetAddr = nat

  datatype Service = Service(ip: NetAddr, port: nat)

  /** What a peer tells about an address: `nServices` is the set of its flag bits, `nTime` an unsigned 32-bit field. */
  datatype Address = Address(service: Service, nServices: set<nat>, nTime: nat)

  datatype Info = Info(
    service: Service, nServices: set<nat>, nTime: nat, nLastTry: int,
    source: NetAddr, nLastSuccess: int, nAttempts: int,
    nRefCount: int, fInTried: bool, nRandomPos: int)

  datatype HashItem = Vec(b: seq<nat>) | Number(n: nat)

  /** Address hashing and grouping: any deterministic functions. */
  datatype Hashing = Hashing(
    hash64: seq<HashItem> -> nat,
    group: NetAddr -> seq<nat>,
    key: Service -> seq<nat>,
    routable: NetAddr -> bool)
  {
    function TriedBucket(nKey: seq<nat>, s: Service): (b: int)
      ensures 0 <= b < TRIED_BUCKET_COUNT
    {
      var hash1 := hash64([Vec(nKey), Vec(key(s))]);
      hash64([Vec(nKey), Vec(group(s.ip)), Number(hash1 % TRIED_BUCKETS_PER_GROUP)]) % TRIED_BUCKET_COUNT
    }

    function NewBucket(nKey: seq<nat>, s: Service, src: NetAddr): (b: int)
      ensures 0 <= b < NEW_BUCKET_COUNT
    {
      var hash1 := hash64([Vec(nKey), Vec(group(s.ip)), Vec(group(src))]);
      hash64([Vec(nKey), Vec(group(src)), Number(hash1 % NEW_BUCKETS_PER_SOURCE_GROUP)]) % NEW_BUCKET_COUNT
    }
  }

  /** One group of addresses reaches at most four tried buckets. */
  lemma FourTriedBuckets(h: Hashing, nKey: seq<nat>, group: seq<nat>) returns (buckets: seq<int>)
    ensures |buckets| == 4
    ensures forall s: Service :: h.group(s.ip) == group ==> h.TriedBucket(nKey, s) in buckets
  {
    buckets := seq(4, i requires 0 <= i < 4 => h.hash64([Vec(nKey), Vec(group), Number(i)]) % TRIED_BUCKET_COUNT);
    forall s: Service | h.group(s.ip) == group
      ensures h.TriedBucket(nKey, s) in buckets
    {
      var i := h.hash64([Vec(nKey), Vec(h.key(s))]) % TRIED_BUCKETS_PER_GROUP;
      assert buckets[i] == h.TriedBucket(nKey, s);
    }
  }

  /** What one group of sources reports reaches at most 32 new buckets. */
  lemma NewBucketsOfSource(h: Hashing, nKey: seq<nat>, group: seq<nat>) returns (buckets: seq<int>)
    ensures |buckets| == 32
    ensures forall s: Service, src: NetAddr :: h.group(src) == group ==> h.NewBucket(nKey, s, src) in buckets
  {
    buckets := seq(32, i requires 0 <= i < 32 => h.hash64([Vec(nKey), Vec(group), Number(i)]) % NEW_BUCKET_COUNT);
    forall s: Service, src: NetAddr | h.group(src) == group
      ensures h.NewBucket(nKey, s, src) in buckets
    {
      var i := h.hash64([Vec(nKey), Vec(h.group(s.ip)), Vec(group)]) % NEW_BUCKETS_PER_SOURCE_GROUP;
      assert buckets[i] == h.NewBucket(nKey, s, src);
    }
  }

  /** Ports do not matter for new buckets, nor anything but the groups of address and source. */
  lemma NewBucketOfGroups(h: Hashing, nKey: seq<nat>, s: Service, t: Service, src: NetAddr, other: NetAddr)
    requires h.group(s.ip) == h.group(t.ip) && h.group(src) == h.group(other)
    ensures h.NewBucket(nKey, s, src) == h.NewBucket(nKey, t, other)
  {
  }

  datatype Tables = Tables(
    nIdCount: int,
    mapInfo: map<int, Info>,
    mapAddr: map<NetAddr, int>,
    vRandom: seq<int>,
    nTried: int,
    vvTried: seq<seq<int>>,
    nNew: int,
    vvNew: seq<set<int>>)

  // ----- the invariant -----

  type Infos = map<int, Info>

  ghost predicate Shape(t: Tables) {
    && |t.vvTried| == TRIED_BUCKET_COUNT
    && |t.vvNew| == NEW_BUCKET_COUNT
    && 0 <= t.nIdCount
    && IdsBelow(t.mapInfo, t.nIdCount)
  }

  ghost predicate IdsBelow(m: Infos, n: int) {
    forall id :: id in m ==> 0 <= id < n
  }

  /** vRandom lists every id once, and each entry knows its own position. */
  ghost predicate RandomOk(m: Infos, vRandom: seq<int>) {
    && (forall id :: id in m ==> 0 <= m[id].nRandomPos < |vRandom| && vRandom[m[id].nRandomPos] == id)
    && (forall p :: 0 <= p < |vRandom| ==> vRandom[p] in m && m[vRandom[p]].nRandomPos == p)
  }

  /** mapAddr and mapInfo are inverse to each other. */
  ghost predicate AddrOk(m: Infos, mapAddr: map<NetAddr, int>) {
    && (forall id :: id in m ==> m[id].service.ip in mapAddr && mapAddr[m[id].service.ip] == id)
    && (forall a :: a in mapAddr ==> mapAddr[a] in m && m[mapAddr[a]].service.ip == a)
  }

  ghost function NewIds(m: Infos): set<int> {
    set id | id in m && !m[id].fInTried
  }

  ghost function TriedIds(m: Infos): set<int> {
    set id | id in m && m[id].fInTried
  }

  ghost predicate CountsOk(m: Infos, nNew: int, nTried: int) {
    nNew == |NewIds(m)| && nTried == |TriedIds(m)|
  }

  /** The new buckets that hold an id. */
  ghost function Holding(vvNew: seq<set<int>>, id: int): set<int> {
    set b | 0 <= b < |vvNew| && id in vvNew[b]
  }

  ghost predicate NewMembersOk(m: Infos, vvNew: seq<set<int>>) {
    && (forall b :: 0 <= b < |vvNew| ==> |vvNew[b]| <= NEW_BUCKET_SIZE)
    && (forall b, id :: 0 <= b < |vvNew| && id in vvNew[b] ==> id in m && !m[id].fInTried)
  }

  /** Reference counts are exact; `pending` has one reference counted in advance. */
  ghost predicate RefsOk(m: Infos, vvNew: seq<set<int>>, pending: int) {
    forall id :: id in m && !m[id].fInTried ==>
      && m[id].nRefCount == |Holding(vvNew, id)| + (if id == pending then 1 else 0)
      && 1 <= m[id].nRefCount <= NEW_BUCKETS_PER_ADDRESS
  }

  /** A tried entry sits exactly once, in the bucket its address hashes to. */
  ghost predicate TriedMembersOk(h: Hashing, nKey: seq<nat>, m: Infos, vvTried: seq<seq<int>>) {
    && (forall b :: 0 <= b < |vvTried| ==> |vvTried[b]| <= TRIED_BUCKET_SIZE && Distinct(vvTried[b]))
    && (forall b, id :: 0 <= b < |vvTried| && id in vvTried[b] ==>
          id in m && m[id].fInTried && h.TriedBucket(nKey, m[id].service) == b)
  }

  ghost predicate Distinct(q: seq<int>) {
    forall i, j :: 0 <= i < j < |q| ==> q[i] != q[j]
  }

  ghost predicate TriedPlacedOk(h: Hashing, nKey: seq<nat>, m: Infos, vvTried: seq<seq<int>>) {
    forall id :: id in m && m[id].fInTried ==>
      && m[id].nRefCount == 0
      && var b := h.TriedBucket(nKey, m[id].service); b < |vvTried| && id in vvTried[b]
  }

  /** The recorded times make sense, as far as the callers' clocks do. */
  ghost predicate TimesOk(m: Infos) {
    forall id :: id in m ==>
      && 0 <= m[id].nLastTry
      && 0 <= m[id].nLastSuccess
      && (m[id].fInTried ==> 0 < m[id].nLastSuccess)
  }

  const NONE: int := -1

  ghost predicate ConsistentBut(h: Hashing, nKey: seq<nat>, t: Tables, pending: int) {
    && Shape(t)
    && RandomOk(t.mapInfo, t.vRandom)
    && AddrOk(t.mapInfo, t.mapAddr)
    && CountsOk(t.mapInfo, t.nNew, t.nTried)
    && NewMembersOk(t.mapInfo, t.vvNew)
    && RefsOk(t.mapInfo, t.vvNew, pending)
    && TriedMembersOk(h, nKey, t.mapInfo, t.vvTried)
    && TriedPlacedOk(h, nKey, t.mapInfo, t.vvTried)
  }

  ghost predicate Consistent(h: Hashing, nKey: seq<nat>, t: Tables) {
    ConsistentBut(h, nKey, t, NONE)
  }

  // ----- the structural changes -----

  function Touch(t: Tables, id: int, info: Info): Tables {
    t.(mapInfo := t.mapInfo[id := info])
  }

  /** A fresh entry: in mapInfo, mapAddr and at the end of vRandom, in no bucket. */
  function Created(t: Tables, addr: Address, src: NetAddr): Tables {
    var info := Info(addr.service, addr.nServices, addr.nTime, 0, src, 0, 0, 0, false, |t.vRandom|);
    t.(nIdCount := t.nIdCount + 1,
       mapInfo := t.mapInfo[t.nIdCount := info],
       mapAddr := t.mapAddr[addr.service.ip := t.nIdCount],
       vRandom := t.vRandom + [t.nIdCount])
  }

  predicate CanSwap(t: Tables, i: int, j: int) {
    && 0 <= i < |t.vRandom| && 0 <= j < |t.vRandom|
    && t.vRandom[i] in t.mapInfo && t.vRandom[j] in t.mapInfo
  }

  function Swapped(t: Tables, i: int, j: int): Tables
    requires i == j || CanSwap(t, i, j)
  {
    if i == j then t else
    var id1, id2 := t.vRandom[i], t.vRandom[j];
    var m1 := t.mapInfo[id1 := t.mapInfo[id1].(nRandomPos := j)];
    t.(mapInfo := m1[id2 := m1[id2].(nRandomPos := i)],
       vRandom := t.vRandom[i := id2][j := id1])
  }

  /** The entry leaves every index; the last id of vRandom takes its place. */
  function Removed(t: Tables, id: int): Tables
    requires id in t.mapInfo && CanSwap(t, t.mapInfo[id].nRandomPos, |t.vRandom| - 1)
  {
    var s := Swapped(t, t.mapInfo[id].nRandomPos, |t.vRandom| - 1);
    s.(mapInfo := s.mapInfo - {id},
       mapAddr := s.mapAddr - {t.mapInfo[id].service.ip},
       vRandom := s.vRandom[..|s.vRandom| - 1],
       nNew := s.nNew - 1)
  }

  function DecRef(t: Tables, id: int): Tables
    requires id in t.mapInfo
  {
    Touch(t, id, t.mapInfo[id].(nRefCount := t.mapInfo[id].nRefCount - 1))
  }

  function IncRef(t: Tables, id: int): Tables
    requires id in t.mapInfo
  {
    Touch(t, id, t.mapInfo[id].(nRefCount := t.mapInfo[id].nRefCount + 1))
  }

  function Unlinked(t: Tables, b: int, id: int): Tables
    requires 0 <= b < |t.vvNew|
  {
    t.(vvNew := t.vvNew[b := t.vvNew[b] - {id}])
  }

  function Linked(t: Tables, b: int, id: int): Tables
    requires 0 <= b < |t.vvNew|
  {
    t.(vvNew := t.vvNew[b := t.vvNew[b] + {id}])
  }

  /** One reference of `id` is dropped from bucket `b`; the last one takes the entry with it. */
  function Dropped(t: Tables, b: int, id: int): Tables
    requires 0 <= b < |t.vvNew|
    requires id in t.mapInfo && CanSwap(t, t.mapInfo[id].nRandomPos, |t.vRandom| - 1)
  {
    var d := DecRef(t, id);
    Unlinked(if d.mapInfo[id].nRefCount == 0 then Removed(d, id) else d, b, id)
  }

  function ClearedBuckets(vvNew: seq<set<int>>, id: int): (r: seq<set<int>>)
    ensures |r| == |vvNew|
    ensures forall b :: 0 <= b < |r| ==> r[b] == vvNew[b] - {id}
  {
    seq(|vvNew|, b requires 0 <= b < |vvNew| => vvNew[b] - {id})
  }

  /** The entry leaves all new buckets. */
  function Detached(t: Tables, id: int): Tables
    requires id in t.mapInfo
  {
    t.(mapInfo := t.mapInfo[id := t.mapInfo[id].(nRefCount := 0)],
       vvNew := ClearedBuckets(t.vvNew, id),
       nNew := t.nNew - 1)
  }

  /** A detached entry enters tried bucket `kb`, which has room. */
  function Promoted(t: Tables, id: int, kb: int): Tables
    requires id in t.mapInfo && 0 <= kb < |t.vvTried|
  {
    t.(mapInfo := t.mapInfo[id := t.mapInfo[id].(fInTried := true)],
       vvTried := t.vvTried[kb := t.vvTried[kb] + [id]],
       nTried := t.nTried + 1)
  }

  /** Where an evicted tried entry goes: its own new bucket if there is room, else `origin`. */
  function EvictionTarget(h: Hashing, nKey: seq<nat>, t: Tables, gone: int, origin: int): (b: int)
    requires Shape(t) && gone in t.mapInfo && 0 <= origin < |t.vvNew|
    ensures 0 <= b < |t.vvNew|
  {
    var ub := h.NewBucket(nKey, t.mapInfo[gone].service, t.mapInfo[gone].source);
    if |t.vvNew[ub]| < NEW_BUCKET_SIZE then ub else origin
  }

  /** A detached entry takes position `pos` of a full tried bucket, and the entry there goes back to new. */
  function Exchanged(h: Hashing, nKey: seq<nat>, t: Tables, id: int, kb: int, pos: int, origin: int): Tables
    requires Shape(t) && id in t.mapInfo && 0 <= origin < |t.vvNew|
    requires 0 <= kb < |t.vvTried| && 0 <= pos < |t.vvTried[kb]| && t.vvTried[kb][pos] in t.mapInfo
  {
    var gone := t.vvTried[kb][pos];
    var b := EvictionTarget(h, nKey, t, gone, origin);
    var m := t.mapInfo[gone := t.mapInfo[gone].(fInTried := false, nRefCount := 1)];
    t.(mapInfo := m[id := m[id].(fInTried := true)],
       vvNew := t.vvNew[b := t.vvNew[b] + {gone}],
       nNew := t.nNew + 1,
       vvTried := t.vvTried[kb := t.vvTried[kb][pos := id]])
  }

  /** The same tables with one tried bucket in another order. */
  ghost predicate Shuffled(t: Tables, t': Tables, kb: int) {
    && 0 <= kb < |t.vvTried|
    && |t'.vvTried| == |t.vvTried|
    && multiset(t'.vvTried[kb]) == multiset(t.vvTried[kb])
    && t' == t.(vvTried := t.vvTried[kb := t'.vvTried[kb]])
  }
}
