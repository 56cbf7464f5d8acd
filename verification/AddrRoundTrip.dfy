/** Loading a saved consistent table gives the same table up to the numbering of the entries. */
module AddrRoundTrip {
  import opened AddrTables
  import opened AddrInvariant
  import opened AddrStore
  import opened Ordered
  import opened Wrappers

  /** The entry with new id `i`: old entry `q[i]` as it comes back from its record. */
  function Base(m0: Infos, q: seq<int>, nNew: int, i: int): Info
    requires 0 <= i < |q| && q[i] in m0
  {
    FromRecord(ToRecord(m0[q[i]])).(nRandomPos := i, fInTried := i >= nNew)
  }

  /** `q` lists entries of `m0` with different addresses. */
  ghost predicate Listing(m0: Infos, q: seq<int>) {
    && (forall i :: 0 <= i < |q| ==> q[i] in m0)
    && (forall i, j :: 0 <= i < j < |q| ==> q[i] != q[j] && m0[q[i]].service.ip != m0[q[j]].service.ip)
  }

  ghost predicate InfosLoaded(m0: Infos, q: seq<int>, nNew: int, n: int, m: Infos)
    requires Listing(m0, q)
  {
    && n <= |q|
    && (forall i :: i in m <==> 0 <= i < n)
    && (forall i :: 0 <= i < n ==> i in m && m[i] == Base(m0, q, nNew, i))
  }

  ghost predicate IndexesLoaded(m0: Infos, q: seq<int>, n: int, mapAddr: map<NetAddr, int>, vRandom: seq<int>)
    requires Listing(m0, q)
  {
    && n <= |q|
    && |vRandom| == n && (forall i :: 0 <= i < n ==> vRandom[i] == i)
    && (forall i :: 0 <= i < n ==> m0[q[i]].service.ip in mapAddr && mapAddr[m0[q[i]].service.ip] == i)
    && (forall a :: a in mapAddr ==> 0 <= mapAddr[a] < n && m0[q[mapAddr[a]]].service.ip == a)
  }

  lemma IndexesGrow(m0: Infos, q: seq<int>, n: int, mapAddr: map<NetAddr, int>, vRandom: seq<int>)
    requires Listing(m0, q) && 0 <= n < |q| && IndexesLoaded(m0, q, n, mapAddr, vRandom)
    ensures IndexesLoaded(m0, q, n + 1, mapAddr[m0[q[n]].service.ip := n], vRandom + [n])
  {
  }

  // ----- the new entries -----

  lemma ReadNewGives(h: Hashing, nKey: seq<nat>, s: seq<Token>, m0: Infos, q: seq<int>, nNew: int, n: int, t: Tables)
    returns (t': Tables)
    requires Listing(m0, q) && 0 <= n <= nNew <= |q| && 5 + nNew <= |s|
    requires forall i :: 0 <= i < nNew ==> s[5 + i] == TInfo(ToRecord(m0[q[i]]))
    requires |t.vvNew| == NEW_BUCKET_COUNT
    requires InfosLoaded(m0, q, nNew, n, t.mapInfo) && IndexesLoaded(m0, q, n, t.mapAddr, t.vRandom)
    ensures var r := ReadNew(h, nKey, s, 5 + n, n, nNew, true, t);
            r.Some? && r.value.0 == 5 + nNew && r.value.1 == t'
    ensures InfosLoaded(m0, q, nNew, nNew, t'.mapInfo) && IndexesLoaded(m0, q, nNew, t'.mapAddr, t'.vRandom)
    ensures t' == t.(mapInfo := t'.mapInfo, mapAddr := t'.mapAddr, vRandom := t'.vRandom)
    decreases nNew - n
  {
    if n == nNew {
      t' := t;
    } else {
      assert s[5 + n] == TInfo(ToRecord(m0[q[n]]));
      var t1 := AddNew(h, nKey, t, n, s[5 + n].rec, true);
      IndexesGrow(m0, q, n, t.mapAddr, t.vRandom);
      assert t1.mapInfo == t.mapInfo[n := Base(m0, q, nNew, n)];
      t' := ReadNewGives(h, nKey, s, m0, q, nNew, n + 1, t1);
    }
  }

  // ----- the tried entries -----

  ghost predicate TriedLoaded(h: Hashing, nKey: seq<nat>, m0: Infos, q: seq<int>, nNew: int, n: int,
                              vvTried: seq<seq<int>>)
    requires Listing(m0, q)
  {
    && 0 <= nNew <= n <= |q| && |vvTried| == TRIED_BUCKET_COUNT
    && (forall b :: 0 <= b < |vvTried| ==> Distinct(vvTried[b]))
    && (forall b, j :: 0 <= b < |vvTried| && 0 <= j < |vvTried[b]| ==>
          && nNew <= vvTried[b][j] < n
          && h.TriedBucket(nKey, m0[q[vvTried[b][j]]].service) == b)
    && (forall i :: nNew <= i < n ==> i in vvTried[h.TriedBucket(nKey, m0[q[i]].service)])
  }

  /** Old entries hash to the buckets they were in, so no bucket overflows. */
  lemma RoomForTried(h: Hashing, nKey: seq<nat>, m0: Infos, vvTried0: seq<seq<int>>, q: seq<int>, nNew: int, n: int,
                     vvTried: seq<seq<int>>, b: int)
    requires Listing(m0, q) && 0 <= nNew && TriedLoaded(h, nKey, m0, q, nNew, n, vvTried)
    requires n <= |q| && 0 <= b < |vvTried| == |vvTried0|
    requires TriedMembersOk(h, nKey, m0, vvTried0) && TriedPlacedOk(h, nKey, m0, vvTried0)
    requires forall i :: nNew <= i < |q| ==> m0[q[i]].fInTried
    ensures |vvTried[b]| <= |vvTried0[b]|
    ensures n < |q| && h.TriedBucket(nKey, m0[q[n]].service) == b ==> |vvTried[b]| < |vvTried0[b]|
  {
    var ids := vvTried[b];
    var olds := seq(|ids|, j requires 0 <= j < |ids| => q[ids[j]]);
    forall i, j | 0 <= i < j < |olds|
      ensures olds[i] != olds[j]
    {
      assert ids[i] != ids[j];
    }
    forall j | 0 <= j < |olds|
      ensures olds[j] in vvTried0[b] && ids[j] < n
    {
      assert m0[q[ids[j]]].fInTried;
    }
    if n < |q| && h.TriedBucket(nKey, m0[q[n]].service) == b {
      assert m0[q[n]].fInTried;
      var more := olds + [q[n]];
      var x := q[n];
      assert x in m0 && m0[x].fInTried;
      assert x in vvTried0[b];
      forall j | 0 <= j < |olds|
        ensures more[j] in vvTried0[b] && more[j] != q[n]
      {
        assert more[j] == q[ids[j]] && ids[j] < n;
      }
      NoMore(more, vvTried0[b]);
    } else {
      NoMore(olds, vvTried0[b]);
    }
  }

  /** Distinct elements of a sequence are no more than its length. */
  lemma {:induction false} NoMore(a: seq<int>, b: seq<int>)
    requires Distinct(a) && forall j :: 0 <= j < |a| ==> a[j] in b
    ensures |a| <= |b|
    decreases |a|
  {
    if a != [] {
      var x, front := a[|a| - 1], a[..|a| - 1];
      assert x in b;
      var k :| 0 <= k < |b| && b[k] == x;
      var rest := b[..k] + b[k + 1..];
      forall j | 0 <= j < |front|
        ensures front[j] in rest
      {
        assert a[j] in b && a[j] != x;
        var i :| 0 <= i < |b| && b[i] == a[j];
        assert rest[if i < k then i else i - 1] == a[j];
      }
      NoMore(front, rest);
    }
  }

  lemma TriedGrow(h: Hashing, nKey: seq<nat>, m0: Infos, q: seq<int>, nNew: int, n: int, vvTried: seq<seq<int>>, b: int)
    requires Listing(m0, q) && TriedLoaded(h, nKey, m0, q, nNew, n, vvTried)
    requires n < |q| && b == h.TriedBucket(nKey, m0[q[n]].service)
    ensures TriedLoaded(h, nKey, m0, q, nNew, n + 1, vvTried[b := vvTried[b] + [n]])
  {
    var w := vvTried[b := vvTried[b] + [n]];
    forall i | nNew <= i < n + 1
      ensures i in w[h.TriedBucket(nKey, m0[q[i]].service)]
    {
      if i == n { assert w[b][|vvTried[b]|] == n; }
    }
  }

  /** The tables after the first `n` entries of `q` are read. */
  ghost predicate EntriesLoaded(h: Hashing, nKey: seq<nat>, m0: Infos, q: seq<int>, nNew: int, n: int, t: Tables)
    requires Listing(m0, q)
  {
    && t.nIdCount == n
    && InfosLoaded(m0, q, nNew, n, t.mapInfo)
    && IndexesLoaded(m0, q, n, t.mapAddr, t.vRandom)
    && TriedLoaded(h, nKey, m0, q, nNew, n, t.vvTried)
  }

  lemma TriedStep(h: Hashing, nKey: seq<nat>, m0: Infos, vvTried0: seq<seq<int>>, q: seq<int>, nNew: int, i: int,
                  t: Tables)
    requires TriedMembersOk(h, nKey, m0, vvTried0) && TriedPlacedOk(h, nKey, m0, vvTried0)
    requires Listing(m0, q) && 0 <= nNew <= i < |q| && |vvTried0| == TRIED_BUCKET_COUNT
    requires forall k :: nNew <= k < |q| ==> m0[q[k]].fInTried
    requires EntriesLoaded(h, nKey, m0, q, nNew, i, t)
    ensures var t' := AddTried(h, nKey, t, ToRecord(m0[q[i]]));
            && EntriesLoaded(h, nKey, m0, q, nNew, i + 1, t')
            && t' == t.(nIdCount := i + 1, mapInfo := t'.mapInfo, mapAddr := t'.mapAddr, vRandom := t'.vRandom,
                        vvTried := t'.vvTried)
  {
    var b := h.TriedBucket(nKey, m0[q[i]].service);
    RoomForTried(h, nKey, m0, vvTried0, q, nNew, i, t.vvTried, b);
    IndexesGrow(m0, q, i, t.mapAddr, t.vRandom);
    TriedGrow(h, nKey, m0, q, nNew, i, t.vvTried, b);
    assert AddTried(h, nKey, t, ToRecord(m0[q[i]])).mapInfo == t.mapInfo[i := Base(m0, q, nNew, i)];
  }

  lemma {:induction false} ReadTriedGives(h: Hashing, nKey: seq<nat>, s: seq<Token>, m0: Infos, vvTried0: seq<seq<int>>,
                                          q: seq<int>, nNew: int, nTried: int, n: int, t: Tables)
    returns (t': Tables)
    requires TriedMembersOk(h, nKey, m0, vvTried0) && TriedPlacedOk(h, nKey, m0, vvTried0)
    requires Listing(m0, q) && |vvTried0| == TRIED_BUCKET_COUNT
    requires 0 <= n <= nTried && 0 <= nNew && |q| == nNew + nTried && 5 + |q| <= |s|
    requires forall i :: 0 <= i < |q| ==> s[5 + i] == TInfo(ToRecord(m0[q[i]]))
    requires forall i :: nNew <= i < |q| ==> m0[q[i]].fInTried
    requires EntriesLoaded(h, nKey, m0, q, nNew, nNew + n, t) && |t.vvTried| == TRIED_BUCKET_COUNT
    ensures var r := ReadTried(h, nKey, s, 5 + nNew + n, n, nTried, 0, t);
            r.Some? && r.value.0 == 5 + |q| && r.value.1 == 0 && r.value.2 == t'
    ensures EntriesLoaded(h, nKey, m0, q, nNew, |q|, t')
    ensures t' == t.(nIdCount := |q|, mapInfo := t'.mapInfo, mapAddr := t'.mapAddr, vRandom := t'.vRandom,
                     vvTried := t'.vvTried)
    decreases nTried - n
  {
    if n == nTried {
      t' := t;
      assert EntriesLoaded(h, nKey, m0, q, nNew, |q|, t');
    } else {
      hide EntriesLoaded, TriedMembersOk, TriedPlacedOk, AddTried;
      var i := nNew + n;
      assert s[5 + i] == TInfo(ToRecord(m0[q[i]]));
      TriedStep(h, nKey, m0, vvTried0, q, nNew, i, t);
      t' := ReadTriedGives(h, nKey, s, m0, vvTried0, q, nNew, nTried, n + 1, AddTried(h, nKey, t, ToRecord(m0[q[i]])));
    }
  }

  // ----- the new buckets -----

  /** References counted so far: the bucket memberships already read. */
  ghost predicate RefsLoaded(m0: Infos, q: seq<int>, nNew: int, m: Infos, vvNew: seq<set<int>>)
    requires Listing(m0, q)
  {
    && (forall i :: i in m <==> 0 <= i < |q|)
    && (forall i :: 0 <= i < |q| ==>
          && i in m
          && m[i] == Base(m0, q, nNew, i).(nRefCount := if i < nNew then |Holding(vvNew, i)| else 0))
  }

  /** Bucket `w` holds the new ids of what bucket `w0` held. */
  ghost predicate SameBucket(q: seq<int>, nNew: int, w0: set<int>, w: set<int>)
    requires nNew <= |q|
  {
    forall i :: i in w <==> 0 <= i < nNew && q[i] in w0
  }

  ghost predicate BucketsLoaded(q: seq<int>, nNew: int, vvNew0: seq<set<int>>, b: int, vvNew: seq<set<int>>)
    requires nNew <= |q|
  {
    && |vvNew| == |vvNew0|
    && (forall c :: 0 <= c < b && c < |vvNew| ==> SameBucket(q, nNew, vvNew0[c], vvNew[c]))
    && (forall c :: b <= c < |vvNew| && 0 <= c ==> vvNew[c] == {})
  }

  /** An entry never has four references before its last bucket is read. */
  lemma RefsLeft(q: seq<int>, nNew: int, vvNew0: seq<set<int>>, b: int, vvNew: seq<set<int>>, i: int)
    requires 0 <= i < nNew <= |q| && 0 <= b < |vvNew0| == |vvNew|
    requires forall c :: 0 <= c < b ==> SameBucket(q, nNew, vvNew0[c], vvNew[c])
    requires forall c :: b < c < |vvNew| ==> vvNew[c] == {}
    requires i !in vvNew[b] && q[i] in vvNew0[b]
    ensures |Holding(vvNew, i)| < |Holding(vvNew0, q[i])|
  {
    var a, a0 := Holding(vvNew, i), Holding(vvNew0, q[i]);
    forall c | c in a
      ensures c in a0 && c != b
    {
      assert SameBucket(q, nNew, vvNew0[c], vvNew[c]);
    }
    assert b in a0;
    assert a <= a0 - {b};
    SubsetCount(a, a0 - {b});
  }

  lemma SubsetCount(a: set<int>, b: set<int>)
    requires a <= b
    ensures |a| <= |b|
  {
    assert b == a + (b - a);
  }

  /** The bucket being read holds what has been read of it. */
  ghost predicate PartLoaded(order: seq<int>, read: seq<int>, w: set<int>) {
    forall i :: i in w <==> 0 <= i < |order| && order[i] in read
  }

  lemma RefsGrow(m0: Infos, q: seq<int>, nNew: int, t: Tables, b: int, i: int)
    requires Listing(m0, q) && 0 <= i < nNew <= |q| && 0 <= b < |t.vvNew| && i !in t.vvNew[b]
    requires RefsLoaded(m0, q, nNew, t.mapInfo, t.vvNew) && t.mapInfo[i].nRefCount < NEW_BUCKETS_PER_ADDRESS
    ensures AddMember(t, b, i, true) ==
            t.(mapInfo := AddMember(t, b, i, true).mapInfo, vvNew := t.vvNew[b := t.vvNew[b] + {i}])
    ensures RefsLoaded(m0, q, nNew, AddMember(t, b, i, true).mapInfo, t.vvNew[b := t.vvNew[b] + {i}])
  {
    HoldingAfterLink(t.vvNew, b, i);
  }

  /** The next member `x` is not in the bucket yet. */
  lemma NotYetMember(order: seq<int>, read: seq<int>, x: int, w: set<int>)
    requires Distinct(order) && x in order && x !in read && PartLoaded(order, read, w)
    ensures 0 <= IndexOf(order, x) < |order| && order[IndexOf(order, x)] == x
    ensures IndexOf(order, x) !in w && PartLoaded(order, read + [x], w + {IndexOf(order, x)})
  {
  }

  lemma ReadMembersGives(s: seq<Token>, pos: nat, t0: Tables, q: seq<int>, nNew: int, b: int,
                         order: seq<int>, ids: seq<int>, n: int, t: Tables)
    returns (t': Tables)
    requires Listing(t0.mapInfo, q) && 0 <= nNew <= |q| && order == q[..nNew]
    requires 0 <= b < |t0.vvNew| == |t.vvNew|
    requires Increasing(ids) && 0 <= n <= |ids| && pos + |ids| <= |s|
    requires forall j :: 0 <= j < |ids| ==>
               && ids[j] in order && ids[j] in t0.vvNew[b]
               && |Holding(t0.vvNew, ids[j])| <= NEW_BUCKETS_PER_ADDRESS
    requires forall k :: pos <= k < pos + |ids| ==> s[k] == TInt(IndexOf(order, ids[k - pos]))
    requires PartLoaded(order, ids[..n], t.vvNew[b])
    requires forall c :: 0 <= c < b ==> SameBucket(q, nNew, t0.vvNew[c], t.vvNew[c])
    requires forall c :: b < c < |t.vvNew| ==> t.vvNew[c] == {}
    requires RefsLoaded(t0.mapInfo, q, nNew, t.mapInfo, t.vvNew)
    ensures var r := ReadMembers(s, pos + n, b, n, |ids|, true, t);
            r.Some? && r.value.0 == pos + |ids| && r.value.1 == t'
    ensures |t'.vvNew| == |t.vvNew| && PartLoaded(order, ids, t'.vvNew[b])
    ensures RefsLoaded(t0.mapInfo, q, nNew, t'.mapInfo, t'.vvNew)
    ensures t' == t.(mapInfo := t'.mapInfo, vvNew := t.vvNew[b := t'.vvNew[b]])
    decreases |ids| - n
  {
    if n == |ids| {
      assert ids[..n] == ids;
      t' := t;
    } else {
      var x := ids[n];
      assert x in order && x !in ids[..n];
      NotYetMember(order, ids[..n], x, t.vvNew[b]);
      var i := IndexOf(order, x);
      assert s[pos + n] == TInt(i) && q[i] == x;
      RefsLeft(q, nNew, t0.vvNew, b, t.vvNew, i);
      RefsGrow(t0.mapInfo, q, nNew, t, b, i);
      assert ids[..n] + [x] == ids[..n + 1];
      t' := ReadMembersGives(s, pos, t0, q, nNew, b, order, ids, n + 1, AddMember(t, b, i, true));
    }
  }

  // ----- where things are in the saved stream -----

  /** The tokens of one bucket, from position `p` of a stream. */
  ghost predicate BucketTokens(s: seq<Token>, p: int, order: seq<int>, ids: seq<int>) {
    && 0 <= p && p + 1 + |ids| <= |s| && s[p] == TInt(|ids|)
    && forall k :: p + 1 <= k < p + 1 + |ids| ==> s[k] == TInt(IndexOf(order, ids[k - (p + 1)]))
  }

  lemma {:induction false} BucketAt(order: seq<int>, vvNew: seq<set<int>>, b: int)
    requires 0 <= b < |vvNew|
    ensures |Buckets(order, vvNew[..b + 1])| == |Buckets(order, vvNew[..b])| + 1 + |vvNew[b]| <= |Buckets(order, vvNew)|
    ensures BucketTokens(Buckets(order, vvNew), |Buckets(order, vvNew[..b])|, order, SortedIds(vvNew[b]))
    decreases |vvNew|
  {
    var front, last := vvNew[..|vvNew| - 1], vvNew[|vvNew| - 1];
    var u, v := Buckets(order, front), Bucket(order, last);
    assert Buckets(order, vvNew) == u + v;
    if b == |vvNew| - 1 {
      assert vvNew[..b + 1] == vvNew;
      assert vvNew[..b] == front;
      LastTokens(u, order, last);
    } else {
      assert front[..b] == vvNew[..b] && front[..b + 1] == vvNew[..b + 1] && front[b] == vvNew[b];
      BucketAt(order, front, b);
      EarlierTokens(u, v, |Buckets(order, front[..b])|, order, SortedIds(front[b]));
    }
  }

  lemma LastTokens(u: seq<Token>, order: seq<int>, bucket: set<int>)
    ensures |Bucket(order, bucket)| == 1 + |bucket|
    ensures BucketTokens(u + Bucket(order, bucket), |u|, order, SortedIds(bucket))
  {
    TokensOf(u, order, SortedIds(bucket));
  }

  lemma TokensOf(u: seq<Token>, order: seq<int>, ids: seq<int>)
    ensures BucketTokens(u + ([TInt(|ids|)] + Indexes(order, ids)), |u|, order, ids)
  {
    var v := [TInt(|ids|)] + Indexes(order, ids);
    forall k | |u| + 1 <= k < |u| + 1 + |ids|
      ensures (u + v)[k] == TInt(IndexOf(order, ids[k - (|u| + 1)]))
    {
      assert (u + v)[k] == v[k - |u|] == Indexes(order, ids)[k - |u| - 1];
    }
  }

  lemma EarlierTokens(u: seq<Token>, v: seq<Token>, p: int, order: seq<int>, ids: seq<int>)
    requires BucketTokens(u, p, order, ids)
    ensures BucketTokens(u + v, p, order, ids)
  {
  }

  lemma ShiftedTokens(s: seq<Token>, start: nat, p: int, order: seq<int>, ids: seq<int>)
    requires start <= |s| && BucketTokens(s[start..], p, order, ids)
    ensures BucketTokens(s, start + p, order, ids)
  {
    forall k | start + p + 1 <= k < start + p + 1 + |ids|
      ensures s[k] == TInt(IndexOf(order, ids[k - (start + p + 1)]))
    {
      assert s[k] == s[start..][k - start];
    }
  }

  /** The members of a bucket are listed in `order` and have few references. */
  ghost predicate Listed(order: seq<int>, vvNew: seq<set<int>>, b: int)
    requires 0 <= b < |vvNew|
  {
    forall x :: x in vvNew[b] ==> x in order && |Holding(vvNew, x)| <= NEW_BUCKETS_PER_ADDRESS
  }

  lemma ReadOneBucket(s: seq<Token>, p: nat, t0: Tables, q: seq<int>, nNew: int, order: seq<int>, b: nat, t: Tables)
    returns (t': Tables)
    requires Listing(t0.mapInfo, q) && 0 <= nNew <= |q| && order == q[..nNew]
    requires |t0.vvNew| == |t.vvNew| == NEW_BUCKET_COUNT && b < NEW_BUCKET_COUNT
    requires BucketTokens(s, p, order, SortedIds(t0.vvNew[b])) && Listed(order, t0.vvNew, b)
    requires BucketsLoaded(q, nNew, t0.vvNew, b, t.vvNew)
    requires RefsLoaded(t0.mapInfo, q, nNew, t.mapInfo, t.vvNew)
    ensures |t'.vvNew| == |t.vvNew|
    ensures BucketStep(s, p, b, |t0.vvNew[b]|, t, t')
    ensures BucketsLoaded(q, nNew, t0.vvNew, b + 1, t'.vvNew)
    ensures RefsLoaded(t0.mapInfo, q, nNew, t'.mapInfo, t'.vvNew)
    ensures t' == t.(mapInfo := t'.mapInfo, vvNew := t'.vvNew)
  {
    hide *;
    var ids := SortedIds(t0.vvNew[b]);
    BeforeBucket(s, p, t0.vvNew, q, nNew, order, b, ids, t.vvNew);
    t' := ReadMembersGives(s, p + 1, t0, q, nNew, b, order, ids, 0, t);
    BucketRead(q, nNew, t0.vvNew, b, t.vvNew, t'.vvNew, order, ids);
    BucketStepIntro(s, p, b, |ids|, t, t');
  }

  lemma BeforeBucket(s: seq<Token>, p: nat, vvNew0: seq<set<int>>, q: seq<int>, nNew: int, order: seq<int>, b: nat,
                     ids: seq<int>, vvNew: seq<set<int>>)
    requires 0 <= nNew <= |q| && b < |vvNew0| == |vvNew| && ids == SortedIds(vvNew0[b])
    requires BucketTokens(s, p, order, ids) && Listed(order, vvNew0, b) && BucketsLoaded(q, nNew, vvNew0, b, vvNew)
    ensures forall j :: 0 <= j < |ids| ==>
              ids[j] in order && ids[j] in vvNew0[b] && |Holding(vvNew0, ids[j])| <= NEW_BUCKETS_PER_ADDRESS
    ensures Increasing(ids) && p + 1 + |ids| <= |s| && s[p] == TInt(|ids|) && |ids| == |vvNew0[b]|
    ensures forall k :: p + 1 <= k < p + 1 + |ids| ==> s[k] == TInt(IndexOf(order, ids[k - (p + 1)]))
    ensures PartLoaded(order, ids[..0], vvNew[b])
    ensures forall c :: 0 <= c < b ==> SameBucket(q, nNew, vvNew0[c], vvNew[c])
    ensures forall c :: b < c < |vvNew| ==> vvNew[c] == {}
  {
    forall j | 0 <= j < |ids|
      ensures ids[j] in order && ids[j] in vvNew0[b] && |Holding(vvNew0, ids[j])| <= NEW_BUCKETS_PER_ADDRESS
    {
      var x := ids[j];
      assert x in ids;
    }
  }

  lemma BucketStepIntro(s: seq<Token>, p: nat, b: nat, size: nat, t: Tables, t': Tables)
    requires |t.vvNew| == |t'.vvNew| == NEW_BUCKET_COUNT && b < NEW_BUCKET_COUNT && p < |s| && s[p] == TInt(size)
    requires var r := ReadMembers(s, p + 1, b, 0, size, true, t);
             r.Some? && r.value.0 == p + 1 + size && r.value.1 == t'
    ensures BucketStep(s, p, b, size, t, t')
  {
  }

  /** Reading one bucket takes the tables from `t` to `t'`. */
  ghost predicate BucketStep(s: seq<Token>, p: nat, b: nat, size: nat, t: Tables, t': Tables) {
    && |t.vvNew| == |t'.vvNew| == NEW_BUCKET_COUNT && b < NEW_BUCKET_COUNT && p < |s| && s[p] == TInt(size)
    && var r := ReadMembers(s, p + 1, b, 0, size, true, t);
       r.Some? && r.value.0 == p + 1 + size && r.value.1 == t'
  }

  lemma OneStep(s: seq<Token>, p: nat, b: nat, size: nat, t: Tables, t': Tables)
    requires |t.vvNew| == NEW_BUCKET_COUNT && BucketStep(s, p, b, size, t, t')
    ensures |t'.vvNew| == NEW_BUCKET_COUNT
    ensures ReadBuckets(s, p, b, NEW_BUCKET_COUNT, true, t)
        == ReadBuckets(s, p + 1 + size, b + 1, NEW_BUCKET_COUNT, true, t')
  {
  }

  lemma LastStep(s: seq<Token>, p: nat, t: Tables)
    requires |t.vvNew| == NEW_BUCKET_COUNT
    ensures ReadBuckets(s, p, NEW_BUCKET_COUNT, NEW_BUCKET_COUNT, true, t) == Some(t)
  {
  }

  lemma {:induction false} ReadBucketsGives(s: seq<Token>, start: nat, t0: Tables, q: seq<int>, nNew: int,
                                            order: seq<int>,
                                            b: nat, t: Tables)
    returns (t': Tables)
    requires Listing(t0.mapInfo, q) && 0 <= nNew <= |q| && order == q[..nNew]
    requires |t0.vvNew| == |t.vvNew| == NEW_BUCKET_COUNT && b <= NEW_BUCKET_COUNT
    requires start <= |s| && s[start..] == Buckets(order, t0.vvNew)
    requires forall c :: 0 <= c < |t0.vvNew| ==> Listed(order, t0.vvNew, c)
    requires BucketsLoaded(q, nNew, t0.vvNew, b, t.vvNew)
    requires RefsLoaded(t0.mapInfo, q, nNew, t.mapInfo, t.vvNew)
    ensures ReadBuckets(s, start + |Buckets(order, t0.vvNew[..b])|, b, NEW_BUCKET_COUNT, true, t) == Some(t')
    ensures BucketsLoaded(q, nNew, t0.vvNew, NEW_BUCKET_COUNT, t'.vvNew)
    ensures RefsLoaded(t0.mapInfo, q, nNew, t'.mapInfo, t'.vvNew)
    ensures t' == t.(mapInfo := t'.mapInfo, vvNew := t'.vvNew)
    decreases NEW_BUCKET_COUNT - b
  {
    hide *;
    var p := |Buckets(order, t0.vvNew[..b])|;
    if b == NEW_BUCKET_COUNT {
      t' := t;
      LastStep(s, start + p, t);
    } else {
      BucketAt(order, t0.vvNew, b);
      ShiftedTokens(s, start, p, order, SortedIds(t0.vvNew[b]));
      var t1 := ReadOneBucket(s, start + p, t0, q, nNew, order, b, t);
      OneStep(s, start + p, b, |t0.vvNew[b]|, t, t1);
      t' := ReadBucketsGives(s, start, t0, q, nNew, order, b + 1, t1);
    }
  }

  lemma BucketRead(q: seq<int>, nNew: int, vvNew0: seq<set<int>>, b: int, vvNew: seq<set<int>>, vvNew': seq<set<int>>,
                   order: seq<int>, ids: seq<int>)
    requires 0 <= nNew <= |q| && order == q[..nNew] && 0 <= b < |vvNew0|
    requires BucketsLoaded(q, nNew, vvNew0, b, vvNew)
    requires |vvNew'| == |vvNew| && vvNew' == vvNew[b := vvNew'[b]]
    requires ids == SortedIds(vvNew0[b]) && PartLoaded(order, ids, vvNew'[b])
    ensures BucketsLoaded(q, nNew, vvNew0, b + 1, vvNew')
  {
    assert SameBucket(q, nNew, vvNew0[b], vvNew'[b]);
  }

  // ----- the round trip -----

  /** `t` is `t0` with entry `q[i]` renumbered to `i`; the last try and random positions are not kept. */
  ghost predicate Renumbered(t0: Tables, t: Tables, q: seq<int>) {
    && Distinct(q) && (forall x :: x in q <==> x in t0.mapInfo)
    && t.nIdCount == |q| && (forall i :: i in t.mapInfo <==> 0 <= i < |q|)
    && (forall i :: 0 <= i < |q| ==>
          && i in t.mapInfo && q[i] in t0.mapInfo
          && t.mapInfo[i] == t0.mapInfo[q[i]].(nLastTry := 0, nRandomPos := i))
    && t.vRandom == seq(|q|, i => i)
    && t.nNew == t0.nNew && t.nTried == t0.nTried
    && |t.vvNew| == |t0.vvNew| && |t.vvTried| == |t0.vvTried|
    && (forall b, i :: 0 <= b < |t.vvNew| && 0 <= i < |q| ==> (i in t.vvNew[b] <==> q[i] in t0.vvNew[b]))
    && (forall b, i :: 0 <= b < |t.vvTried| && 0 <= i < |q| ==> (i in t.vvTried[b] <==> q[i] in t0.vvTried[b]))
    && (forall b :: 0 <= b < |t.vvTried| ==> |t.vvTried[b]| == |t0.vvTried[b]|)
  }

  /** New entries first, tried entries after them: the order in which a saved table lists its ids. */
  function Order(m0: Infos): seq<int> {
    AllNew(m0) + AllTried(m0)
  }

  lemma OrderLists(h: Hashing, nKey: seq<nat>, t0: Tables)
    requires Consistent(h, nKey, t0)
    ensures Listing(t0.mapInfo, Order(t0.mapInfo)) && Distinct(Order(t0.mapInfo))
    ensures |Order(t0.mapInfo)| == t0.nNew + t0.nTried && |AllNew(t0.mapInfo)| == t0.nNew
    ensures forall x :: x in Order(t0.mapInfo) <==> x in t0.mapInfo
    ensures forall i :: 0 <= i < |Order(t0.mapInfo)| ==> (t0.mapInfo[Order(t0.mapInfo)[i]].fInTried <==> t0.nNew <= i)
  {
    var m0 := t0.mapInfo;
    var l, k, q := AllNew(m0), AllTried(m0), Order(m0);
    ListsSplit(h, nKey, t0);
    forall i | 0 <= i < |q|
      ensures q[i] in m0 && (m0[q[i]].fInTried <==> t0.nNew <= i)
    {
      if i < |l| {
        assert l[i] in l && q[i] in NewIds(m0);
      } else {
        assert k[i - |l|] in k && q[i] in TriedIds(m0);
      }
    }
    forall i, j | 0 <= i < j < |q|
      ensures q[i] != q[j]
    {
      if j < |l| {
        assert l[i] < l[j];
      } else if |l| <= i {
        assert k[i - |l|] < k[j - |l|];
      }
    }
    forall x
      ensures x in q <==> x in m0
    {
      assert x in q <==> x in l || x in k;
      assert x in m0 <==> x in NewIds(m0) || x in TriedIds(m0);
    }
    assert AddrOk(m0, t0.mapAddr);
  }

  /** The parts of a saved stream. */
  lemma Saved(h: Hashing, nKey: seq<nat>, t0: Tables)
    requires Consistent(h, nKey, t0)
    ensures forall i :: 0 <= i < |Order(t0.mapInfo)| ==> Order(t0.mapInfo)[i] in t0.mapInfo
    ensures var s, q := Save(nKey, t0), Order(t0.mapInfo);
            && 5 + |q| <= |s| && s[..5] == Header(nKey, t0.nNew, t0.nTried)
            && (forall i :: 0 <= i < |q| ==> s[5 + i] == TInfo(ToRecord(t0.mapInfo[q[i]])))
            && s[5 + |q|..] == Buckets(AllNew(t0.mapInfo), t0.vvNew)
  {
    OrderLists(h, nKey, t0);
    ListsIn(t0.mapInfo);
    var l, k := AllNew(t0.mapInfo), AllTried(t0.mapInfo);
    StreamParts(t0.mapInfo, l, k, Header(nKey, t0.nNew, t0.nTried), Buckets(l, t0.vvNew));
  }

  lemma StreamParts(m: Infos, l: seq<int>, k: seq<int>, header: seq<Token>, tail: seq<Token>)
    requires |header| == 5 && forall i :: 0 <= i < |l + k| ==> (l + k)[i] in m
    ensures forall i :: 0 <= i < |l| ==> l[i] in m
    ensures forall i :: 0 <= i < |k| ==> k[i] in m
    ensures var s := header + Records(m, l) + Records(m, k) + tail;
            && s[..5] == header && |s| == 5 + |l + k| + |tail| && s[5 + |l + k|..] == tail
            && forall i :: 0 <= i < |l + k| ==> s[5 + i] == TInfo(ToRecord(m[(l + k)[i]]))
  {
    var q := l + k;
    forall i | 0 <= i < |l| ensures l[i] in m { assert l[i] == q[i]; }
    forall i | 0 <= i < |k| ensures k[i] in m { assert k[i] == q[|l| + i]; }
    var a, b := Records(m, l), Records(m, k);
    var s := header + a + b + tail;
    assert s[..5] == header;
    assert s[5 + |q|..] == tail;
    forall i | 0 <= i < |q|
      ensures s[5 + i] == TInfo(ToRecord(m[q[i]]))
    {
      if i < |l| {
        assert s[5 + i] == a[i];
      } else {
        assert s[5 + i] == b[i - |l|];
      }
    }
  }

  lemma NothingLoaded(h: Hashing, nKey: seq<nat>, m0: Infos, q: seq<int>, nNew: int, nTried: int)
    requires Listing(m0, q) && 0 <= nNew <= |q|
    ensures var e := Empty(nNew, nTried);
            && InfosLoaded(m0, q, nNew, 0, e.mapInfo) && IndexesLoaded(m0, q, 0, e.mapAddr, e.vRandom)
            && TriedLoaded(h, nKey, m0, q, nNew, nNew, e.vvTried)
  {
  }

  lemma NoBucketLoaded(m0: Infos, q: seq<int>, nNew: int, nTried: int, m: Infos, vvNew0: seq<set<int>>)
    requires Listing(m0, q) && 0 <= nNew <= |q| && InfosLoaded(m0, q, nNew, |q|, m) && |vvNew0| == NEW_BUCKET_COUNT
    ensures RefsLoaded(m0, q, nNew, m, Empty(nNew, nTried).vvNew)
    ensures BucketsLoaded(q, nNew, vvNew0, 0, Empty(nNew, nTried).vvNew)
  {
    var w := Empty(nNew, nTried).vvNew;
    forall i ensures Holding(w, i) == {} {
      assert forall b :: b !in Holding(w, i);
    }
  }

  lemma AllListed(h: Hashing, nKey: seq<nat>, t0: Tables)
    requires Consistent(h, nKey, t0)
    ensures forall c :: 0 <= c < |t0.vvNew| ==> Listed(AllNew(t0.mapInfo), t0.vvNew, c)
  {
    hide AllNew, AllTried;
    ListsSplit(h, nKey, t0);
    MembersListed(t0.mapInfo, t0.vvNew, AllNew(t0.mapInfo));
  }

  lemma MembersListed(m: Infos, vvNew: seq<set<int>>, order: seq<int>)
    requires NewMembersOk(m, vvNew) && RefsOk(m, vvNew, NONE) && forall x :: x in order <==> x in NewIds(m)
    ensures forall c :: 0 <= c < |vvNew| ==> Listed(order, vvNew, c)
  {
  }

  /** The loaded tables as the three reading phases leave them. */
  ghost predicate Loaded(h: Hashing, nKey: seq<nat>, t0: Tables, q: seq<int>, t: Tables)
    requires Listing(t0.mapInfo, q) && 0 <= t0.nNew <= |q|
  {
    && IndexesLoaded(t0.mapInfo, q, |q|, t.mapAddr, t.vRandom)
    && TriedLoaded(h, nKey, t0.mapInfo, q, t0.nNew, |q|, t.vvTried)
    && BucketsLoaded(q, t0.nNew, t0.vvNew, NEW_BUCKET_COUNT, t.vvNew)
    && RefsLoaded(t0.mapInfo, q, t0.nNew, t.mapInfo, t.vvNew)
    && t.nIdCount == |q| && t.nNew == t0.nNew && t.nTried == t0.nTried
  }

  lemma SavedLayout(h: Hashing, nKey: seq<nat>, t0: Tables, s: seq<Token>, q: seq<int>, order: seq<int>)
    requires Consistent(h, nKey, t0) && q == Order(t0.mapInfo) && order == AllNew(t0.mapInfo) && s == Save(nKey, t0)
    ensures Listing(t0.mapInfo, q) && 0 <= t0.nNew && 0 <= t0.nTried && |q| == t0.nNew + t0.nTried
        && q[..t0.nNew] == order
    ensures 5 + |q| <= |s| && s[..5] == Header(nKey, t0.nNew, t0.nTried)
    ensures forall i :: 0 <= i < |q| ==> s[5 + i] == TInfo(ToRecord(t0.mapInfo[q[i]]))
    ensures s[5 + |q|..] == Buckets(order, t0.vvNew)
    ensures forall i :: t0.nNew <= i < |q| ==> t0.mapInfo[q[i]].fInTried
    ensures |t0.vvNew| == NEW_BUCKET_COUNT && t0.vvNew[..0] == [] && Buckets(order, []) == []
    ensures |t0.vvTried| == TRIED_BUCKET_COUNT
    ensures TriedMembersOk(h, nKey, t0.mapInfo, t0.vvTried) && TriedPlacedOk(h, nKey, t0.mapInfo, t0.vvTried)
    ensures |Empty(t0.nNew, t0.nTried).vvNew| == NEW_BUCKET_COUNT
    ensures |Empty(t0.nNew, t0.nTried).vvTried| == TRIED_BUCKET_COUNT
    ensures Empty(t0.nNew, t0.nTried).nNew == t0.nNew
  {
    OrderLists(h, nKey, t0);
    Saved(h, nKey, t0);
  }

  lemma Phases(h: Hashing, nKey: seq<nat>, t0: Tables, q: seq<int>) returns (t: Tables)
    requires Consistent(h, nKey, t0) && q == Order(t0.mapInfo)
    ensures Listing(t0.mapInfo, q) && 0 <= t0.nNew <= |q|
    ensures Load(h, Save(nKey, t0)) == Some((nKey, t))
    ensures Loaded(h, nKey, t0, q, t)
  {
    hide *;
    var s, m0, order := Save(nKey, t0), t0.mapInfo, AllNew(t0.mapInfo);
    var e := Empty(t0.nNew, t0.nTried);
    SavedLayout(h, nKey, t0, s, q, order);
    NothingLoaded(h, nKey, m0, q, t0.nNew, t0.nTried);
    AllListed(h, nKey, t0);
    var t1 := ReadNewGives(h, nKey, s, m0, q, t0.nNew, 0, e);
    EntriesIntro(h, nKey, m0, q, t0.nNew, t1.(nIdCount := t0.nNew));
    var t2 := ReadTriedGives(h, nKey, s, m0, t0.vvTried, q, t0.nNew, t0.nTried, 0, t1.(nIdCount := t0.nNew));
    EntriesElim(h, nKey, m0, q, t0.nNew, t2);
    NoBucketLoaded(m0, q, t0.nNew, t0.nTried, t2.mapInfo, t0.vvNew);
    t := ReadBucketsGives(s, 5 + |q|, t0, q, t0.nNew, order, 0, t2.(nTried := t0.nTried - 0));
    LoadOf(h, nKey, s, t0.nNew, t0.nTried, 5 + t0.nNew, t1, 5 + |q|, t2, t);
    LoadedIntro(h, nKey, t0, q, t);
  }

  lemma EntriesIntro(h: Hashing, nKey: seq<nat>, m0: Infos, q: seq<int>, nNew: int, t: Tables)
    requires Listing(m0, q) && t.nIdCount == nNew
    requires InfosLoaded(m0, q, nNew, nNew, t.mapInfo) && IndexesLoaded(m0, q, nNew, t.mapAddr, t.vRandom)
    requires TriedLoaded(h, nKey, m0, q, nNew, nNew, t.vvTried)
    ensures EntriesLoaded(h, nKey, m0, q, nNew, nNew, t)
  {
  }

  lemma EntriesElim(h: Hashing, nKey: seq<nat>, m0: Infos, q: seq<int>, nNew: int, t: Tables)
    requires Listing(m0, q) && EntriesLoaded(h, nKey, m0, q, nNew, |q|, t)
    ensures t.nIdCount == |q|
    ensures InfosLoaded(m0, q, nNew, |q|, t.mapInfo) && IndexesLoaded(m0, q, |q|, t.mapAddr, t.vRandom)
    ensures TriedLoaded(h, nKey, m0, q, nNew, |q|, t.vvTried)
  {
  }

  lemma LoadedIntro(h: Hashing, nKey: seq<nat>, t0: Tables, q: seq<int>, t: Tables)
    requires Listing(t0.mapInfo, q) && 0 <= t0.nNew <= |q|
    requires IndexesLoaded(t0.mapInfo, q, |q|, t.mapAddr, t.vRandom)
    requires TriedLoaded(h, nKey, t0.mapInfo, q, t0.nNew, |q|, t.vvTried)
    requires BucketsLoaded(q, t0.nNew, t0.vvNew, NEW_BUCKET_COUNT, t.vvNew)
    requires RefsLoaded(t0.mapInfo, q, t0.nNew, t.mapInfo, t.vvNew)
    requires t.nIdCount == |q| && t.nNew == t0.nNew && t.nTried == t0.nTried
    ensures Loaded(h, nKey, t0, q, t)
  {
  }

  lemma LoadOf(h: Hashing, nKey: seq<nat>, s: seq<Token>, nNew: int, nTried: int, p1: nat, t1: Tables, p2: nat,
               t2: Tables, t3: Tables)
    requires |s| >= 5 && s[..5] == Header(nKey, nNew, nTried)
    requires var r := ReadNew(h, nKey, s, 5, 0, nNew, true, Empty(nNew, nTried));
             r.Some? && r.value.0 == p1 && r.value.1 == t1
    requires |t1.vvTried| == TRIED_BUCKET_COUNT
    requires var r := ReadTried(h, nKey, s, p1, 0, nTried, 0, t1.(nIdCount := nNew));
             r.Some? && r.value.0 == p2 && r.value.1 == 0 && r.value.2 == t2
    requires |t2.vvNew| == NEW_BUCKET_COUNT
    requires ReadBuckets(s, p2, 0, NEW_BUCKET_COUNT, true, t2.(nTried := nTried - 0)) == Some(t3)
    ensures Load(h, s) == Some((nKey, t3))
  {
    hide ReadNew, ReadTried, ReadBuckets, Empty;
    assert s[0] == s[..5][0] && s[1] == s[..5][1] && s[2] == s[..5][2] && s[3] == s[..5][3] && s[4] == s[..5][4];
  }

  // ----- what the loaded tables are -----

  lemma SameHolding(q: seq<int>, nNew: int, vvNew0: seq<set<int>>, vvNew: seq<set<int>>, i: int)
    requires 0 <= nNew <= |q| && BucketsLoaded(q, nNew, vvNew0, |vvNew0|, vvNew) && 0 <= i < nNew
    ensures Holding(vvNew, i) == Holding(vvNew0, q[i])
  {
    forall b
      ensures b in Holding(vvNew, i) <==> b in Holding(vvNew0, q[i])
    {
      assert 0 <= b < |vvNew| ==> SameBucket(q, nNew, vvNew0[b], vvNew[b]);
    }
  }

  lemma LoadedInfos(h: Hashing, nKey: seq<nat>, t0: Tables, q: seq<int>, t: Tables)
    requires Consistent(h, nKey, t0) && Listing(t0.mapInfo, q) && 0 <= t0.nNew <= |q|
    requires forall i :: 0 <= i < |q| ==> (t0.mapInfo[q[i]].fInTried <==> t0.nNew <= i)
    requires BucketsLoaded(q, t0.nNew, t0.vvNew, NEW_BUCKET_COUNT, t.vvNew)
    requires RefsLoaded(t0.mapInfo, q, t0.nNew, t.mapInfo, t.vvNew)
    ensures forall i :: 0 <= i < |q| ==>
              i in t.mapInfo && t.mapInfo[i] == t0.mapInfo[q[i]].(nLastTry := 0, nRandomPos := i)
  {
    forall i | 0 <= i < |q|
      ensures i in t.mapInfo && t.mapInfo[i] == t0.mapInfo[q[i]].(nLastTry := 0, nRandomPos := i)
    {
      var x := q[i];
      assert x in t0.mapInfo;
      if i < t0.nNew {
        SameHolding(q, t0.nNew, t0.vvNew, t.vvNew, i);
        assert RefsOk(t0.mapInfo, t0.vvNew, NONE) && x != NONE;
      } else {
        assert TriedPlacedOk(h, nKey, t0.mapInfo, t0.vvTried);
      }
    }
  }

  lemma LoadedTried(h: Hashing, nKey: seq<nat>, t0: Tables, q: seq<int>, nNew: int, vvTried: seq<seq<int>>)
    requires TriedMembersOk(h, nKey, t0.mapInfo, t0.vvTried) && TriedPlacedOk(h, nKey, t0.mapInfo, t0.vvTried)
    requires |t0.vvTried| == TRIED_BUCKET_COUNT && Listing(t0.mapInfo, q) && 0 <= nNew <= |q|
    requires forall i :: 0 <= i < |q| ==> (t0.mapInfo[q[i]].fInTried <==> nNew <= i)
    requires forall x :: x in q <==> x in t0.mapInfo
    requires TriedLoaded(h, nKey, t0.mapInfo, q, nNew, |q|, vvTried)
    ensures forall b, i :: 0 <= b < |vvTried| && 0 <= i < |q| ==> (i in vvTried[b] <==> q[i] in t0.vvTried[b])
    ensures forall b :: 0 <= b < |vvTried| ==> |vvTried[b]| == |t0.vvTried[b]|
  {
    var m0 := t0.mapInfo;
    forall b, i | 0 <= b < |vvTried| && 0 <= i < |q|
      ensures i in vvTried[b] <==> q[i] in t0.vvTried[b]
    {
      var x := q[i];
      assert x in m0;
      if i in vvTried[b] {
        var j :| 0 <= j < |vvTried[b]| && vvTried[b][j] == i;
        assert m0[x].fInTried && x in t0.vvTried[h.TriedBucket(nKey, m0[x].service)];
      }
    }
    forall b | 0 <= b < |vvTried|
      ensures |vvTried[b]| == |t0.vvTried[b]|
    {
      RoomForTried(h, nKey, m0, t0.vvTried, q, nNew, |q|, vvTried, b);
      var olds := t0.vvTried[b];
      forall j | 0 <= j < |olds|
        ensures olds[j] in q
      {
        assert olds[j] in olds;
      }
      var ids := seq(|olds|, j requires 0 <= j < |olds| => IndexOf(q, olds[j]));
      forall j | 0 <= j < |ids|
        ensures ids[j] in vvTried[b] && q[ids[j]] == olds[j]
      {
        assert olds[j] in q && olds[j] in olds;
      }
      assert Distinct(olds);
      NoMore(ids, vvTried[b]);
    }
  }

  lemma LoadedIsRenumbered(h: Hashing, nKey: seq<nat>, t0: Tables, q: seq<int>, t: Tables)
    requires Consistent(h, nKey, t0) && q == Order(t0.mapInfo)
    requires Listing(t0.mapInfo, q) && 0 <= t0.nNew <= |q| && Loaded(h, nKey, t0, q, t)
    ensures Renumbered(t0, t, q)
  {
    hide *;
    LoadedParts(h, nKey, t0, q, t);
    OrderLists(h, nKey, t0);
    LoadedInfos(h, nKey, t0, q, t);
    LoadedTried(h, nKey, t0, q, t0.nNew, t.vvTried);
    LoadedNewBuckets(t0, q, t);
    RenumberedIntro(t0, t, q);
  }

  lemma RenumberedIntro(t0: Tables, t: Tables, q: seq<int>)
    requires Distinct(q) && forall x :: x in q <==> x in t0.mapInfo
    requires t.nIdCount == |q| && forall i :: i in t.mapInfo <==> 0 <= i < |q|
    requires forall i :: 0 <= i < |q| ==>
               && q[i] in t0.mapInfo && i in t.mapInfo
               && t.mapInfo[i] == t0.mapInfo[q[i]].(nLastTry := 0, nRandomPos := i)
    requires t.vRandom == seq(|q|, i => i) && t.nNew == t0.nNew && t.nTried == t0.nTried
    requires |t.vvNew| == |t0.vvNew| && |t.vvTried| == |t0.vvTried|
    requires forall b, i :: 0 <= b < |t.vvNew| && 0 <= i < |q| ==> (i in t.vvNew[b] <==> q[i] in t0.vvNew[b])
    requires forall b, i :: 0 <= b < |t.vvTried| && 0 <= i < |q| ==> (i in t.vvTried[b] <==> q[i] in t0.vvTried[b])
    requires forall b :: 0 <= b < |t.vvTried| ==> |t.vvTried[b]| == |t0.vvTried[b]|
    ensures Renumbered(t0, t, q)
  {
  }

  lemma LoadedNewBuckets(t0: Tables, q: seq<int>, t: Tables)
    requires 0 <= t0.nNew <= |q| && BucketsLoaded(q, t0.nNew, t0.vvNew, |t0.vvNew|, t.vvNew)
    requires forall i :: 0 <= i < |q| ==> q[i] in t0.mapInfo && (t0.mapInfo[q[i]].fInTried <==> t0.nNew <= i)
    requires NewMembersOk(t0.mapInfo, t0.vvNew)
    ensures forall b, i :: 0 <= b < |t.vvNew| && 0 <= i < |q| ==> (i in t.vvNew[b] <==> q[i] in t0.vvNew[b])
  {
    forall b, i | 0 <= b < |t.vvNew| && 0 <= i < |q|
      ensures i in t.vvNew[b] <==> q[i] in t0.vvNew[b]
    {
      assert SameBucket(q, t0.nNew, t0.vvNew[b], t.vvNew[b]);
      var x := q[i];
      if x in t0.vvNew[b] {
        assert x in t0.mapInfo && !t0.mapInfo[x].fInTried;
      }
    }
  }

  // ----- the loaded tables are consistent -----

  lemma LoadedIndexesOk(t0: Tables, q: seq<int>, t: Tables)
    requires Listing(t0.mapInfo, q) && IndexesLoaded(t0.mapInfo, q, |q|, t.mapAddr, t.vRandom)
    requires forall i :: i in t.mapInfo <==> 0 <= i < |q|
    requires forall i :: 0 <= i < |q| ==>
               i in t.mapInfo && t.mapInfo[i] == t0.mapInfo[q[i]].(nLastTry := 0, nRandomPos := i)
    ensures RandomOk(t.mapInfo, t.vRandom) && AddrOk(t.mapInfo, t.mapAddr) && IdsBelow(t.mapInfo, |q|)
  {
  }

  lemma LoadedCounts(m0: Infos, q: seq<int>, m: Infos, nNew: int, nTried: int)
    requires 0 <= nNew && 0 <= nTried && |q| == nNew + nTried
    requires forall i :: 0 <= i < |q| ==> q[i] in m0 && (m0[q[i]].fInTried <==> nNew <= i)
    requires forall i :: i in m <==> 0 <= i < |q|
    requires forall i :: 0 <= i < |q| ==> i in m && m[i].fInTried == m0[q[i]].fInTried
    ensures CountsOk(m, nNew, nTried)
  {
    var a, b := seq(nNew, i => i), seq(nTried, i => nNew + i);
    forall i
      ensures i in a <==> i in NewIds(m)
      ensures i in b <==> i in TriedIds(m)
    {
      if 0 <= i < nNew { assert a[i] == i; }
      if nNew <= i < |q| { assert b[i - nNew] == i; }
    }
    DistinctCount(a, NewIds(m));
    DistinctCount(b, TriedIds(m));
  }

  lemma LoadedNewOk(t0: Tables, q: seq<int>, t: Tables)
    requires 0 <= t0.nNew <= |q| && BucketsLoaded(q, t0.nNew, t0.vvNew, |t0.vvNew|, t.vvNew)
    requires NewMembersOk(t0.mapInfo, t0.vvNew) && RefsOk(t0.mapInfo, t0.vvNew, NONE) && NONE !in t0.mapInfo
    requires Listing(t0.mapInfo, q) && forall i :: 0 <= i < |q| ==> (t0.mapInfo[q[i]].fInTried <==> t0.nNew <= i)
    requires forall i :: i in t.mapInfo <==> 0 <= i < |q|
    requires forall i :: 0 <= i < |q| ==>
               i in t.mapInfo && t.mapInfo[i] == t0.mapInfo[q[i]].(nLastTry := 0, nRandomPos := i)
    ensures NewMembersOk(t.mapInfo, t.vvNew) && RefsOk(t.mapInfo, t.vvNew, NONE)
  {
    forall b | 0 <= b < |t.vvNew|
      ensures |t.vvNew[b]| <= NEW_BUCKET_SIZE
    {
      assert SameBucket(q, t0.nNew, t0.vvNew[b], t.vvNew[b]);
      ImageCount(q, t.vvNew[b], t0.vvNew[b]);
    }
    forall i | i in t.mapInfo && !t.mapInfo[i].fInTried
      ensures t.mapInfo[i].nRefCount == |Holding(t.vvNew, i)| && 1 <= t.mapInfo[i].nRefCount <= NEW_BUCKETS_PER_ADDRESS
    {
      SameHolding(q, t0.nNew, t0.vvNew, t.vvNew, i);
      var x := q[i];
      assert x in t0.mapInfo;
    }
  }

  /** Renumbering by a listing without repetition keeps the size of a set. */
  lemma {:induction false} ImageCount(q: seq<int>, w: set<int>, w0: set<int>)
    requires Distinct(q) && forall i :: i in w ==> 0 <= i < |q| && q[i] in w0
    ensures |w| <= |w0|
    decreases |w|
  {
    if w != {} {
      HasMember(w);
      var i :| i in w;
      ImageCount(q, w - {i}, w0 - {q[i]});
    }
  }

  lemma LoadedTriedOk(h: Hashing, nKey: seq<nat>, t0: Tables, q: seq<int>, t: Tables)
    requires TriedMembersOk(h, nKey, t0.mapInfo, t0.vvTried) && TriedPlacedOk(h, nKey, t0.mapInfo, t0.vvTried)
    requires Listing(t0.mapInfo, q) && 0 <= t0.nNew <= |q| && |t0.vvTried| == TRIED_BUCKET_COUNT
    requires TriedLoaded(h, nKey, t0.mapInfo, q, t0.nNew, |q|, t.vvTried)
    requires forall i :: 0 <= i < |q| ==> (t0.mapInfo[q[i]].fInTried <==> t0.nNew <= i)
    requires forall i :: i in t.mapInfo <==> 0 <= i < |q|
    requires forall i :: 0 <= i < |q| ==>
               i in t.mapInfo && t.mapInfo[i] == t0.mapInfo[q[i]].(nLastTry := 0, nRandomPos := i)
    ensures TriedMembersOk(h, nKey, t.mapInfo, t.vvTried) && TriedPlacedOk(h, nKey, t.mapInfo, t.vvTried)
  {
    forall b | 0 <= b < |t.vvTried|
      ensures |t.vvTried[b]| <= TRIED_BUCKET_SIZE && Distinct(t.vvTried[b])
    {
      RoomForTried(h, nKey, t0.mapInfo, t0.vvTried, q, t0.nNew, |q|, t.vvTried, b);
    }
    forall b, i | 0 <= b < |t.vvTried| && i in t.vvTried[b]
      ensures i in t.mapInfo && t.mapInfo[i].fInTried && h.TriedBucket(nKey, t.mapInfo[i].service) == b
    {
      var j :| 0 <= j < |t.vvTried[b]| && t.vvTried[b][j] == i;
    }
    forall i | i in t.mapInfo && t.mapInfo[i].fInTried
      ensures t.mapInfo[i].nRefCount == 0
    {
      var x := q[i];
      assert x in t0.mapInfo && t0.mapInfo[x].fInTried;
    }
  }

  /**
   * Loading a saved consistent table succeeds, loses nothing, and gives a consistent table that
   * differs only in the numbering of its entries and in the fields that are not saved.
   */
  lemma LoadSaved(h: Hashing, nKey: seq<nat>, t0: Tables) returns (t: Tables)
    requires Consistent(h, nKey, t0)
    ensures Load(h, Save(nKey, t0)) == Some((nKey, t))
    ensures Renumbered(t0, t, Order(t0.mapInfo))
    ensures Consistent(h, nKey, t)
    ensures TimesOk(t0.mapInfo) ==> TimesOk(t.mapInfo)
  {
    hide *;
    var q := Order(t0.mapInfo);
    t := Phases(h, nKey, t0, q);
    LoadedIsRenumbered(h, nKey, t0, q, t);
    LoadedIsConsistent(h, nKey, t0, q, t);
  }

  lemma LoadedIsConsistent(h: Hashing, nKey: seq<nat>, t0: Tables, q: seq<int>, t: Tables)
    requires Consistent(h, nKey, t0) && q == Order(t0.mapInfo)
    requires Listing(t0.mapInfo, q) && 0 <= t0.nNew <= |q| && Loaded(h, nKey, t0, q, t)
    ensures Consistent(h, nKey, t)
    ensures TimesOk(t0.mapInfo) ==> TimesOk(t.mapInfo)
  {
    hide *;
    LoadedParts(h, nKey, t0, q, t);
    OrderLists(h, nKey, t0);
    LoadedInfos(h, nKey, t0, q, t);
    LoadedIndexesOk(t0, q, t);
    LoadedCounts(t0.mapInfo, q, t.mapInfo, t0.nNew, t0.nTried);
    LoadedNewOk(t0, q, t);
    LoadedTriedOk(h, nKey, t0, q, t);
    ConsistentIntro(h, nKey, t);
    LoadedTimes(t0.mapInfo, q, t.mapInfo);
  }

  lemma LoadedTimes(m0: Infos, q: seq<int>, m: Infos)
    requires forall i :: i in m <==> 0 <= i < |q|
    requires forall i :: 0 <= i < |q| ==>
               q[i] in m0 && i in m && m[i] == m0[q[i]].(nLastTry := 0, nRandomPos := i)
    ensures TimesOk(m0) ==> TimesOk(m)
  {
    if TimesOk(m0) {
      forall i | i in m
        ensures 0 <= m[i].nLastTry && 0 <= m[i].nLastSuccess && (m[i].fInTried ==> 0 < m[i].nLastSuccess)
      {
        var x := q[i];
        assert x in m0;
      }
    }
  }

  lemma ConsistentIntro(h: Hashing, nKey: seq<nat>, t: Tables)
    requires |t.vvTried| == TRIED_BUCKET_COUNT && |t.vvNew| == NEW_BUCKET_COUNT && 0 <= t.nIdCount
    requires IdsBelow(t.mapInfo, t.nIdCount)
    requires RandomOk(t.mapInfo, t.vRandom) && AddrOk(t.mapInfo, t.mapAddr) && CountsOk(t.mapInfo, t.nNew, t.nTried)
    requires NewMembersOk(t.mapInfo, t.vvNew) && RefsOk(t.mapInfo, t.vvNew, NONE)
    requires TriedMembersOk(h, nKey, t.mapInfo, t.vvTried) && TriedPlacedOk(h, nKey, t.mapInfo, t.vvTried)
    ensures Consistent(h, nKey, t)
  {
  }

  lemma LoadedParts(h: Hashing, nKey: seq<nat>, t0: Tables, q: seq<int>, t: Tables)
    requires Consistent(h, nKey, t0) && Listing(t0.mapInfo, q) && 0 <= t0.nNew <= |q| && Loaded(h, nKey, t0, q, t)
    ensures NewMembersOk(t0.mapInfo, t0.vvNew) && RefsOk(t0.mapInfo, t0.vvNew, NONE) && NONE !in t0.mapInfo
    ensures TriedMembersOk(h, nKey, t0.mapInfo, t0.vvTried) && TriedPlacedOk(h, nKey, t0.mapInfo, t0.vvTried)
    ensures |t0.vvNew| == |t.vvNew| == NEW_BUCKET_COUNT && |t0.vvTried| == |t.vvTried| == TRIED_BUCKET_COUNT
    ensures 0 <= t0.nTried && t.nNew == t0.nNew && t.nTried == t0.nTried && t.nIdCount == |q|
    ensures IndexesLoaded(t0.mapInfo, q, |q|, t.mapAddr, t.vRandom)
    ensures TriedLoaded(h, nKey, t0.mapInfo, q, t0.nNew, |q|, t.vvTried)
    ensures BucketsLoaded(q, t0.nNew, t0.vvNew, NEW_BUCKET_COUNT, t.vvNew)
    ensures RefsLoaded(t0.mapInfo, q, t0.nNew, t.mapInfo, t.vvNew)
    ensures t.vRandom == seq(|q|, i => i) && forall i :: i in t.mapInfo <==> 0 <= i < |q|
    ensures forall i :: 0 <= i < |q| ==> q[i] in t0.mapInfo
  {
  }
}
