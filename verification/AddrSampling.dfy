/** The sampling of a full tried bucket: a few turns of a shuffle, and the least recently successful entry of those. */
module AddrSampling {
  import opened AddrTables
  import opened AddrInvariant

  /** Every draw of turn `i` picks one of the positions from `i` on. */
  ghost predicate InRange(q: seq<int>, draws: seq<int>) {
    |draws| <= |q| && forall i :: 0 <= i < |draws| ==> 0 <= draws[i] < |q| - i
  }

  ghost function Exchange(q: seq<int>, i: int, j: int): (r: seq<int>)
    requires 0 <= i < |q| && 0 <= j < |q|
  {
    q[j := q[i]][i := q[j]]
  }

  /** The bucket after the turns: turn `i` exchanges position `i` with the one drawn. */
  ghost function Drawn(q: seq<int>, draws: seq<int>): (r: seq<int>)
    requires InRange(q, draws)
    ensures |r| == |q|
  {
    if draws == [] then q else
    var i := |draws| - 1;
    Exchange(Drawn(q, draws[..i]), i, i + draws[i])
  }

  lemma ExchangeIs(q: seq<int>, i: int, j: int)
    requires 0 <= i < |q| && 0 <= j < |q|
    ensures Exchange(q, i, j) == q[j := q[i]][i := q[j]] && |Exchange(q, i, j)| == |q|
  {
  }

  lemma {:induction false} DrawnPermutes(q: seq<int>, draws: seq<int>)
    requires InRange(q, draws)
    ensures multiset(Drawn(q, draws)) == multiset(q)
  {
    if draws != [] {
      var i := |draws| - 1;
      DrawnPermutes(q, draws[..i]);
      ExchangePermutes(Drawn(q, draws[..i]), i, i + draws[i]);
    }
  }

  lemma ExchangePermutes(q: seq<int>, i: int, j: int)
    requires 0 <= i < |q| && 0 <= j < |q|
    ensures multiset(Exchange(q, i, j)) == multiset(q)
  {
  }

  /** The turn that brought up the entry with the least recent success, the earliest of several. */
  ghost function OldestTurn(m: Infos, q: seq<int>, n: nat): (at: nat)
    requires 0 < n <= |q| && forall j :: 0 <= j < n ==> q[j] in m
    ensures at < n
    ensures forall j :: 0 <= j < n ==> m[q[at]].nLastSuccess <= m[q[j]].nLastSuccess
    ensures forall j :: 0 <= j < at ==> m[q[at]].nLastSuccess < m[q[j]].nLastSuccess
  {
    if n == 1 then 0 else
    var at := OldestTurn(m, q, n - 1);
    if m[q[n - 1]].nLastSuccess < m[q[at]].nLastSuccess then n - 1 else at
  }

  lemma {:induction false} SameTimesOldest(m: Infos, m': Infos, q: seq<int>, n: nat)
    requires 0 < n <= |q|
    requires forall j :: 0 <= j < n ==> q[j] in m && q[j] in m' && m'[q[j]].nLastSuccess == m[q[j]].nLastSuccess
    ensures OldestTurn(m', q, n) == OldestTurn(m, q, n)
  {
    if n > 1 {
      SameTimesOldest(m, m', q, n - 1);
    }
  }

  lemma {:induction false} SameOldest(m: Infos, q: seq<int>, r: seq<int>, n: nat)
    requires 0 < n <= |q| == |r| && q[..n] == r[..n] && forall j :: 0 <= j < n ==> q[j] in m
    ensures forall j :: 0 <= j < n ==> r[j] == q[j]
    ensures OldestTurn(m, r, n) == OldestTurn(m, q, n)
  {
    assert forall j :: 0 <= j < n ==> r[j] == r[..n][j] == q[j];
    if n > 1 {
      assert q[..n - 1] == q[..n][..n - 1];
      assert r[..n - 1] == r[..n][..n - 1];
      SameOldest(m, q, r, n - 1);
    }
  }

  /** The loop state: the bucket, the oldest entry brought up and the position it was drawn from. */
  ghost predicate Sampling(m: Infos, q: seq<int>, r: seq<int>, draws: seq<int>, nOldest: int, pos: int) {
    && InRange(q, draws) && r == Drawn(q, draws)
    && (forall j :: 0 <= j < |r| ==> r[j] in m)
    && (draws != [] ==>
          var at := OldestTurn(m, r, |draws|);
          nOldest == r[at] && pos == at + draws[at])
  }

  lemma LastTurn(q: seq<int>, more: seq<int>, draws: seq<int>, s: seq<int>, draw: int)
    requires InRange(q, more) && InRange(q, draws) && |more| == |draws| + 1
    requires more[..|draws|] == draws && more[|draws|] == draw && s == Drawn(q, draws)
    ensures Drawn(q, more) == Exchange(s, |draws|, |draws| + draw)
  {
    hide Exchange;
    assert |draws| == |more| - 1;
  }

  lemma DrawMore(q: seq<int>, draws: seq<int>, draw: int)
    requires InRange(q, draws) && |draws| < |q| && 0 <= draw < |q| - |draws|
    ensures InRange(q, draws + [draw])
    ensures Drawn(q, draws + [draw]) == Exchange(Drawn(q, draws), |draws|, |draws| + draw)
  {
    hide Exchange, Drawn;
    LastTurn(q, draws + [draw], draws, Drawn(q, draws), draw);
  }

  /** A turn keeps the entries of the turns before. */
  lemma TurnSamples(m: Infos, q: seq<int>, r: seq<int>, draws: seq<int>, nOldest: int, pos: int, draw: int)
    requires Sampling(m, q, r, draws, nOldest, pos) && |draws| < |q| && 0 <= draw < |q| - |draws|
    ensures var i, p := |draws|, |draws| + draw;
      var older := i > 0 && nOldest in m && m[nOldest].nLastSuccess <= m[r[p]].nLastSuccess;
      Sampling(m, q, Exchange(r, i, p), draws + [draw], if older then nOldest else r[p], if older then pos else p)
  {
    hide Drawn;
    var i, p := |draws|, |draws| + draw;
    DrawMore(q, draws, draw);
    var s := Exchange(r, i, p);
    if i > 0 {
      assert r[..i] == s[..i];
      SameOldest(m, r, s, i);
    }
  }

  /** What SelectTried does: at most four turns, and the position that the oldest of their entries was drawn from. */
  ghost predicate Sampled(m: Infos, q: seq<int>, r: seq<int>, draws: seq<int>, pos: int) {
    && q != [] && |draws| == (if |q| < 4 then |q| else 4)
    && InRange(q, draws) && r == Drawn(q, draws)
    && (forall j :: 0 <= j < |draws| ==> r[j] in m)
    && var at := OldestTurn(m, r, |draws|);
       pos == at + draws[at]
  }

  /** The position found holds the oldest entry sampled exactly when that entry was drawn in its own place; the oldest
      entry itself is at the position of its turn. */
  lemma OldestIfInPlace(m: Infos, q: seq<int>, r: seq<int>, draws: seq<int>, pos: int)
    requires Distinct(q) && Sampled(m, q, r, draws, pos)
    ensures var at := OldestTurn(m, r, |draws|);
      && (forall j :: 0 <= j < |draws| ==> m[r[at]].nLastSuccess <= m[r[j]].nLastSuccess)
      && 0 <= pos < |r| && (r[pos] == r[at] <==> draws[at] == 0)
  {
    hide Drawn;
    DrawnPermutes(q, draws);
    DistinctByCount(q, r);
  }

  lemma NoDraws(q: seq<int>)
    ensures Drawn(q, []) == q
  {
  }
}
