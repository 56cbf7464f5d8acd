/** The stake modifier: selection sections, candidate selection in 64 rounds, and the walks along the chain. */
module StakeModifier {
  import opened BitNumbers
  import opened Wrappers

  /** Seconds between modifiers, and the ratio of the longest section to the shortest. */
  const INTERVAL: nat := 600

  const RATIO: nat := 3

  const TWO_224: nat := 0x1_0000_0000_0000_0000_0000_0000_0000_0000_0000_0000_0000_0000_0000_0000

  const TWO_256: nat := 0x1_0000_0000_0000_0000_0000_0000_0000_0000_0000_0000_0000_0000_0000_0000_0000_0000

  /** A block of the main chain, which is a sequence from the genesis block on. */
  datatype Block = Block(hash: nat, time: nat, proof: nat, stake: bool, entropy: bool, generated: bool, modifier: nat)

  type SelectionHash = (nat, nat) -> nat

  // ----- sections -----

  function Section(n: nat): nat
    requires n < 64
  {
    INTERVAL * 63 / (63 + (63 - n) * (RATIO - 1))
  }

  /** The length of the first `n` sections. */
  function Sections(n: nat): nat
    requires n <= 64
  {
    if n == 0 then 0 else Sections(n - 1) + Section(n - 1)
  }

  lemma QuotientGrows(a: nat, d: nat, e: nat)
    requires 0 < e <= d
    ensures a / d <= a / e
  {
    var q, r := Divided(a, d);
    QuotientIs(a, d, q, r);
    assert q * d == q * e + q * (d - e);
    assert 0 <= q * (d - e);
    QuotientAtLeast(a, e, q);
  }

  lemma QuotientAtLeast(a: nat, e: nat, q: nat)
    requires 0 < e && q * e <= a
    ensures q <= a / e
  {
    var r, s := Divided(a, e);
    QuotientIs(a, e, r, s);
    assert (q - r - 1) * e == q * e - r * e - e;
    if q > r + 1 {
      Times(q - r - 1, e);
    }
  }

  /** Sections never decrease, and run from a third of the interval to the whole of it: section `b` is 37800 divided by
      189 - 2 * b, rounded down. */
  lemma SectionsGrow(a: nat, b: nat)
    requires a <= b < 64
    ensures 200 <= Section(a) <= Section(b) <= INTERVAL
    ensures Section(0) == 200 && Section(63) == 600
    ensures Section(b) * (189 - 2 * b) <= 37_800 < (Section(b) + 1) * (189 - 2 * b)
  {
    QuotientGrows(INTERVAL * 63, 63 + (63 - a) * (RATIO - 1), 63 + (63 - b) * (RATIO - 1));
    QuotientGrows(INTERVAL * 63, 189, 63 + (63 - a) * (RATIO - 1));
    QuotientGrows(INTERVAL * 63, 63 + (63 - b) * (RATIO - 1), 63);
  }

  /** The boundary that a time is rounded down to. */
  function Aligned(time: nat): nat {
    time / INTERVAL * INTERVAL
  }

  /** The start of the selection interval and the stop of each round. */
  function Start(time: nat): int {
    Aligned(time) - Sections(64)
  }

  function Stop(time: nat, round: nat): int
    requires round < 64
  {
    Start(time) + Sections(round + 1)
  }

  /** The boundary is the multiple of 600 seconds at or before the time. */
  lemma AlignedIsBoundary(time: nat)
    ensures Aligned(time) <= time < Aligned(time) + 600 && Aligned(time) % 600 == 0
  {
    assert Aligned(time) == 600 * (time / 600);
  }

  lemma StopsTile(time: nat, round: nat)
    requires round < 64
    ensures Stop(time, round) == (if round == 0 then Start(time) else Stop(time, round - 1)) + Section(round)
    ensures round > 0 ==> Stop(time, round - 1) < Stop(time, round)
    ensures Stop(time, 63) == Aligned(time) && Aligned(time) <= time < Aligned(time) + INTERVAL
  {
    SectionsGrow(round, round);
  }

  method SelectionInterval() returns (s: nat)
    ensures s == Sections(64)
  {
    s := 0;
    for n := 0 to 64
      invariant s == Sections(n)
    {
      s := s + Section(n);
    }
  }

  // ----- candidates -----

  /** The block from which on, up to `i`, all times reach the start of the interval. */
  function FirstCandidate(chain: seq<Block>, i: nat, start: int): (c: nat)
    requires i < |chain|
    ensures c <= i + 1
    ensures forall k | c <= k <= i :: chain[k].time >= start
    ensures 0 < c ==> chain[c - 1].time < start
  {
    if chain[i].time < start then i + 1
    else if i == 0 then 0
    else FirstCandidate(chain, i - 1, start)
  }

  type Candidate = (int, nat)

  function Candidates(chain: seq<Block>, from: nat, end: nat): (s: seq<Candidate>)
    requires from <= end <= |chain|
    ensures |s| == end - from
  {
    seq(end - from, k requires 0 <= k < end - from => (chain[from + k].time as int, chain[from + k].hash))
  }

  predicate Before(a: Candidate, b: Candidate) {
    a.0 < b.0 || (a.0 == b.0 && a.1 <= b.1)
  }

  predicate Sorted(s: seq<Candidate>) {
    forall i, j | 0 <= i < j < |s| :: Before(s[i], s[j])
  }

  /** The library sort, as insertion. */
  method Sort(s: seq<Candidate>) returns (r: seq<Candidate>)
    ensures Sorted(r) && multiset(r) == multiset(s)
  {
    hide Sorted;
    r := [];
    assert Sorted([]) by { EmptySorted(); }
    for i := 0 to |s|
      invariant Sorted(r) && multiset(r) == multiset(s[..i])
    {
      assert s[..i + 1] == s[..i] + [s[i]];
      r := Insert(r, s[i]);
    }
    assert s[..|s|] == s;
  }

  lemma EmptySorted()
    ensures Sorted([])
  {
  }

  method Insert(s: seq<Candidate>, x: Candidate) returns (r: seq<Candidate>)
    requires Sorted(s)
    ensures Sorted(r) && multiset(r) == multiset(s) + multiset{x}
  {
    var k := |s|;
    while k > 0 && !Before(s[k - 1], x)
      invariant 0 <= k <= |s| && forall j | k <= j < |s| :: Before(x, s[j])
    {
      k := k - 1;
    }
    InsertSorted(s, k, x);
    hide Sorted, Before;
    assert s == s[..k] + s[k..];
    r := s[..k] + [x] + s[k..];
  }

  lemma InsertSorted(r: seq<Candidate>, k: nat, x: Candidate)
    requires Sorted(r) && k <= |r|
    requires k > 0 ==> Before(r[k - 1], x)
    requires forall j | k <= j < |r| :: Before(x, r[j])
    ensures Sorted(r[..k] + [x] + r[k..])
  {
    forall j | 0 <= j < k
      ensures Before(r[j], x)
    {
      assert j < k - 1 ==> Before(r[j], r[k - 1]);
    }
  }

  // ----- one round -----

  /** Proof-of-stake blocks are favoured by 32 bits. */
  function Selection(b: Block, prev: nat, hash: SelectionHash): nat {
    if b.stake then hash(b.proof, prev) / 0x1_0000_0000 else hash(b.proof, prev)
  }

  /** The block index knows the candidates under their hashes. */
  predicate Indexed(cands: seq<Candidate>, index: map<nat, Block>) {
    forall k | 0 <= k < |cands| :: cands[k].1 in index && index[cands[k].1].hash == cands[k].1
                                   && index[cands[k].1].time == cands[k].0
  }

  function Weight(cands: seq<Candidate>, index: map<nat, Block>, prev: nat, hash: SelectionHash, k: nat): nat
    requires Indexed(cands, index) && k < |cands|
  {
    Selection(index[cands[k].1], prev, hash)
  }

  /** Candidate `k` is the least by hash of the unselected ones up to the stop, or the earliest when there is none. */
  predicate Picked(cands: seq<Candidate>, index: map<nat, Block>, selected: set<nat>, stop: int, prev: nat,
                   hash: SelectionHash, k: nat)
    requires Indexed(cands, index)
  {
    && k < |cands| && cands[k].1 !in selected
    && forall j | 0 <= j < |cands| && cands[j].1 !in selected ::
      if cands[k].0 <= stop then
        cands[j].0 <= stop ==>
          Weight(cands, index, prev, hash, k) < Weight(cands, index, prev, hash, j)
          || (Weight(cands, index, prev, hash, k) == Weight(cands, index, prev, hash, j) && k <= j)
      else k <= j && cands[j].0 > stop
  }

  /** An unselected candidate up to the stop. */
  predicate Eligible(cands: seq<Candidate>, selected: set<nat>, stop: int, j: nat) {
    j < |cands| && cands[j].1 !in selected && cands[j].0 <= stop
  }

  /** When a proof-of-stake block with a hash of 256 bits is eligible, the pick is one too unless its own hash is below
      2^224: proof of stake is favoured by 32 bits. */
  lemma StakeIsFavoured(cands: seq<Candidate>, index: map<nat, Block>, selected: set<nat>, stop: int, prev: nat,
                        hash: SelectionHash, k: nat, j: nat)
    requires Indexed(cands, index) && Picked(cands, index, selected, stop, prev, hash, k)
    requires Eligible(cands, selected, stop, j) && index[cands[j].1].stake
    requires hash(index[cands[j].1].proof, prev) < TWO_256
    ensures index[cands[k].1].stake || hash(index[cands[k].1].proof, prev) < TWO_224
  {
    assert cands[j].1 in index;
  }

  /** Between two proof-of-stake blocks the hash divided by 2^32 decides, between two proof-of-work blocks the hash. */
  lemma LeastHashWins(cands: seq<Candidate>, index: map<nat, Block>, selected: set<nat>, stop: int, prev: nat,
                      hash: SelectionHash, k: nat, j: nat)
    requires Indexed(cands, index) && Picked(cands, index, selected, stop, prev, hash, k)
    requires Eligible(cands, selected, stop, j)
    ensures cands[k].0 <= stop
    ensures var a, b := hash(index[cands[k].1].proof, prev), hash(index[cands[j].1].proof, prev);
      var s, t := index[cands[k].1].stake, index[cands[j].1].stake;
      && (s && t ==> a / 0x1_0000_0000 <= b / 0x1_0000_0000)
      && (!s && !t ==> a <= b)
      && (s && !t ==> a / 0x1_0000_0000 <= b)
      && (!s && t ==> a <= b / 0x1_0000_0000)
  {
  }

  lemma PickUnique(cands: seq<Candidate>, index: map<nat, Block>, selected: set<nat>, stop: int, prev: nat,
                   hash: SelectionHash, k: nat, m: nat)
    requires Indexed(cands, index)
    requires Picked(cands, index, selected, stop, prev, hash, k) && Picked(cands, index, selected, stop, prev, hash, m)
    ensures k == m
  {
    hide Weight;
  }

  /** Candidates from `i` on that are all past the stop change nothing. */
  lemma PickStands(cands: seq<Candidate>, index: map<nat, Block>, selected: set<nat>, stop: int, prev: nat,
                   hash: SelectionHash, i: nat, k: nat)
    requires Indexed(cands, index) && i <= |cands|
    requires Picked(cands[..i], index, selected, stop, prev, hash, k)
    requires forall j | i <= j < |cands| :: cands[j].0 > stop
    ensures Picked(cands, index, selected, stop, prev, hash, k)
  {
    hide Selection;
    forall j | 0 <= j < |cands| && cands[j].1 !in selected
      ensures if cands[k].0 <= stop then
        cands[j].0 <= stop ==>
          Weight(cands, index, prev, hash, k) < Weight(cands, index, prev, hash, j)
          || (Weight(cands, index, prev, hash, k) == Weight(cands, index, prev, hash, j) && k <= j)
      else k <= j && cands[j].0 > stop
    {
      assert j < i ==> cands[..i][j] == cands[j];
    }
  }

  /** SelectBlockFromCandidates. */
  method SelectBlock(cands: seq<Candidate>, selected: map<nat, Block>, stop: int, prev: nat, index: map<nat, Block>,
                     hash: SelectionHash)
    returns (r: Option<Block>, ghost k: nat)
    requires Sorted(cands)
    ensures Indexed(cands, index) ==> (r.Some? <==> exists j | 0 <= j < |cands| :: cands[j].1 !in selected)
    ensures Indexed(cands, index) && r.Some? ==>
      Picked(cands, index, selected.Keys, stop, prev, hash, k) && r == Some(index[cands[k].1])
  {
    var best := 0;
    r := None;
    k := 0;
    ghost var end := |cands|;
    for i := 0 to |cands|
      invariant end == |cands|
      invariant Indexed(cands, index) ==>
        (r.None? ==> forall j | 0 <= j < i :: cands[j].1 in selected)
        && (r.Some? ==> k < i && r == Some(index[cands[k].1]) && best == Weight(cands, index, prev, hash, k)
                        && Picked(cands[..i], index, selected.Keys, stop, prev, hash, k))
    {
      if cands[i].1 !in index {
        assert !Indexed(cands, index);
        return None, k;
      }
      var b := index[cands[i].1];
      if r.Some? && b.time > stop {
        end := i;
        break;
      }
      if b.hash in selected {
        continue;
      }
      var h := Selection(b, prev, hash);
      if r.Some? && h < best {
        best := h;
        r := Some(b);
        k := i;
      } else if r.None? {
        best := h;
        r := Some(b);
        k := i;
      }
    }
    if Indexed(cands, index) && r.Some? {
      PickStands(cands, index, selected.Keys, stop, prev, hash, end, k);
    }
  }

  // ----- walks along the chain -----

  /** The last block up to `i` that generated a modifier, or the genesis block. */
  function LastGenerated(chain: seq<Block>, i: nat): (g: nat)
    requires i < |chain|
    ensures g <= i && (g == 0 || chain[g].generated)
    ensures forall k | g < k <= i :: !chain[k].generated
  {
    if i == 0 || chain[i].generated then i else LastGenerated(chain, i - 1)
  }

  method GetLastStakeModifier(chain: seq<Block>, prev: nat) returns (ok: bool, modifier: nat, time: nat)
    requires prev < |chain|
    ensures var g := LastGenerated(chain, prev);
      ok == chain[g].generated && (ok ==> modifier == chain[g].modifier && time == chain[g].time)
  {
    var i: nat := prev;
    while i > 0 && !chain[i].generated
      invariant i < |chain| && LastGenerated(chain, i) == LastGenerated(chain, prev)
    {
      i := i - 1;
    }
    if !chain[i].generated {
      return false, 0, 0;
    }
    return true, chain[i].modifier, chain[i].time;
  }

  /** GetKernelStakeModifier for the block at `from`: the first later block that generated a modifier a whole
      selection interval after it. */
  method GetKernelStakeModifier(chain: seq<Block>, from: nat) returns (ok: bool, modifier: nat, height: nat, time: nat)
    requires from < |chain|
    ensures ok ==> from < height < |chain| && chain[height].generated
    ensures ok ==> modifier == chain[height].modifier && time == chain[height].time >= chain[from].time + Sections(64)
    ensures forall k | from < k < (if ok then height else |chain|) ::
      !(chain[k].generated && chain[k].time >= chain[from].time + Sections(64))
  {
    var interval := SelectionInterval();
    StopsTile(0, 63);
    SectionsGrow(63, 63);
    height := from;
    time := chain[from].time;
    modifier := 0;
    var i := from;
    while time < chain[from].time + interval
      invariant from <= height <= i < |chain|
      invariant time == chain[height].time
      invariant i == from ==> height == from
      invariant height > from ==> chain[height].generated
      invariant forall k | from < k < i :: !(chain[k].generated && chain[k].time >= chain[from].time + interval)
      invariant chain[i].generated && i > from ==> height == i
      invariant time >= chain[from].time + interval ==> height == i && i > from
      decreases |chain| - i
    {
      if i + 1 == |chain| {
        return false, 0, height, time;
      }
      i := i + 1;
      if chain[i].generated {
        height := i;
        time := chain[i].time;
      }
    }
    ok := true;
    modifier := chain[i].modifier;
  }

  // ----- the next modifier -----

  /** The block index holds every block of the chain, and their hashes differ. */
  predicate Known(chain: seq<Block>, index: map<nat, Block>) {
    && (forall k | 0 <= k < |chain| :: chain[k].hash in index && index[chain[k].hash] == chain[k])
    && (forall j, k | 0 <= j < k < |chain| :: chain[j].hash != chain[k].hash)
  }

  function Hashes(cands: seq<Candidate>): set<nat> {
    set k | 0 <= k < |cands| :: cands[k].1
  }

  lemma {:induction false} HashesCount(chain: seq<Block>, from: nat, end: nat)
    requires from <= end <= |chain|
    requires forall j, k | 0 <= j < k < |chain| :: chain[j].hash != chain[k].hash
    ensures |Hashes(Candidates(chain, from, end))| == end - from
    decreases end
  {
    var s := Candidates(chain, from, end);
    if from < end {
      var t := Candidates(chain, from, end - 1);
      assert s == t + [(chain[end - 1].time as int, chain[end - 1].hash)];
      HashesCount(chain, from, end - 1);
      HashesMore(t, (chain[end - 1].time as int, chain[end - 1].hash));
      assert chain[end - 1].hash !in Hashes(t);
    } else {
      assert Hashes(s) == {};
    }
  }

  lemma HashesMore(t: seq<Candidate>, c: Candidate)
    ensures Hashes(t + [c]) == Hashes(t) + {c.1}
  {
    forall h | h in Hashes(t) + {c.1}
      ensures h in Hashes(t + [c])
    {
      if h == c.1 {
        assert (t + [c])[|t|] == c;
      } else {
        var k :| 0 <= k < |t| && t[k].1 == h;
        assert (t + [c])[k].1 == h;
      }
    }
  }

  lemma SameHashes(a: seq<Candidate>, b: seq<Candidate>)
    requires multiset(a) == multiset(b)
    ensures |a| == |b| && Hashes(a) == Hashes(b)
  {
    assert |multiset(a)| == |multiset(b)|;
    forall h | h in Hashes(a)
      ensures h in Hashes(b)
    {
      var k :| 0 <= k < |a| && a[k].1 == h;
      assert a[k] in multiset(b);
    }
    forall h | h in Hashes(b)
      ensures h in Hashes(a)
    {
      var k :| 0 <= k < |b| && b[k].1 == h;
      assert b[k] in multiset(a);
    }
  }

  lemma SubsetSize(a: set<nat>, b: set<nat>)
    requires a <= b
    ensures |a| <= |b|
  {
    assert b == a + (b - a);
  }

  /** As long as fewer blocks are selected than there are candidates, some candidate is left. */
  lemma OneIsLeft(cands: seq<Candidate>, selected: set<nat>)
    requires |selected| < |Hashes(cands)|
    ensures exists j | 0 <= j < |cands| :: cands[j].1 !in selected
  {
    if forall j | 0 <= j < |cands| :: cands[j].1 in selected {
      assert Hashes(cands) <= selected;
      SubsetSize(Hashes(cands), selected);
    }
  }

  lemma SortedIndexed(chain: seq<Block>, index: map<nat, Block>, from: nat, end: nat, cands: seq<Candidate>)
    requires Known(chain, index) && from <= end <= |chain|
    requires multiset(cands) == multiset(Candidates(chain, from, end))
    ensures Indexed(cands, index)
  {
    var s := Candidates(chain, from, end);
    forall k | 0 <= k < |cands|
      ensures cands[k].1 in index && index[cands[k].1].hash == cands[k].1 && index[cands[k].1].time == cands[k].0
    {
      assert cands[k] in multiset(s);
      var m :| 0 <= m < |s| && s[m] == cands[k];
      assert s[m] == (chain[from + m].time as int, chain[from + m].hash);
    }
  }

  function PickedHashes(cands: seq<Candidate>, picks: seq<nat>): set<nat>
    requires forall r | 0 <= r < |picks| :: picks[r] < |cands|
  {
    set r | 0 <= r < |picks| :: cands[picks[r]].1
  }

  /** Every round picks by the rule, from the candidates that earlier rounds left. */
  predicate Rounds(cands: seq<Candidate>, index: map<nat, Block>, time: nat, prev: nat, hash: SelectionHash,
                   picks: seq<nat>)
    requires Indexed(cands, index)
  {
    && |picks| <= 64
    && (forall r | 0 <= r < |picks| :: picks[r] < |cands|)
    && (forall r | 0 <= r < |picks| ::
          Picked(cands, index, PickedHashes(cands, picks[..r]), Stop(time, r), prev, hash, picks[r]))
  }

  /** The picks are pairwise distinct blocks. */
  lemma PicksDistinct(cands: seq<Candidate>, index: map<nat, Block>, time: nat, prev: nat, hash: SelectionHash,
                      picks: seq<nat>, i: nat, j: nat)
    requires Indexed(cands, index) && Rounds(cands, index, time, prev, hash, picks) && i < j < |picks|
    ensures cands[picks[i]].1 != cands[picks[j]].1
  {
    assert picks[..j][i] == picks[i];
    assert cands[picks[i]].1 in PickedHashes(cands, picks[..j]);
  }

  /** The rule leaves no choice: rounds over the same candidates pick the same blocks. */
  lemma {:induction false} RoundsUnique(cands: seq<Candidate>, index: map<nat, Block>, time: nat, prev: nat,
                                        hash: SelectionHash, a: seq<nat>, b: seq<nat>, n: nat)
    requires Indexed(cands, index) && n <= |a| == |b|
    requires Rounds(cands, index, time, prev, hash, a) && Rounds(cands, index, time, prev, hash, b)
    ensures a[..n] == b[..n]
  {
    hide Picked, Stop, PickedHashes;
    if n > 0 {
      RoundsUnique(cands, index, time, prev, hash, a, b, n - 1);
      PickUnique(cands, index, PickedHashes(cands, a[..n - 1]), Stop(time, n - 1), prev, hash, a[n - 1], b[n - 1]);
      assert a[..n] == a[..n - 1] + [a[n - 1]];
      assert b[..n] == b[..n - 1] + [b[n - 1]];
    }
  }

  lemma RoundAdded(cands: seq<Candidate>, index: map<nat, Block>, time: nat, prev: nat, hash: SelectionHash,
                   picks: seq<nat>, k: nat)
    requires Indexed(cands, index) && Rounds(cands, index, time, prev, hash, picks) && |picks| < 64
    requires Picked(cands, index, PickedHashes(cands, picks), Stop(time, |picks|), prev, hash, k)
    ensures Rounds(cands, index, time, prev, hash, picks + [k])
    ensures PickedHashes(cands, picks + [k]) == PickedHashes(cands, picks) + {cands[k].1}
  {
    hide Picked, Stop, PickedHashes;
    assert k < |cands| by { PickInRange(cands, index, PickedHashes(cands, picks), Stop(time, |picks|), prev, hash, k); }
    var more := picks + [k];
    forall r | 0 <= r < |more|
      ensures Picked(cands, index, PickedHashes(cands, more[..r]), Stop(time, r), prev, hash, more[r])
    {
      assert more[..r] == if r < |picks| then picks[..r] else picks;
    }
    PickedMore(cands, picks, k);
  }

  lemma PickedMore(cands: seq<Candidate>, picks: seq<nat>, k: nat)
    requires (forall r | 0 <= r < |picks| :: picks[r] < |cands|) && k < |cands|
    ensures PickedHashes(cands, picks + [k]) == PickedHashes(cands, picks) + {cands[k].1}
  {
    var more := picks + [k];
    forall h | h in PickedHashes(cands, picks) + {cands[k].1}
      ensures h in PickedHashes(cands, more)
    {
      if h == cands[k].1 {
        assert more[|picks|] == k;
      } else {
        var r :| 0 <= r < |picks| && cands[picks[r]].1 == h;
        assert more[r] == picks[r];
      }
    }
  }

  lemma PickInRange(cands: seq<Candidate>, index: map<nat, Block>, selected: set<nat>, stop: int, prev: nat,
                    hash: SelectionHash, k: nat)
    requires Indexed(cands, index) && Picked(cands, index, selected, stop, prev, hash, k)
    ensures k < |cands| && cands[k].1 !in selected
  {
  }

  /** Bit `r` is the entropy bit of the block of round `r`; the bits above are zero. */
  ghost predicate EntropyBits(modifier: nat, cands: seq<Candidate>, index: map<nat, Block>, picks: seq<nat>)
    requires Indexed(cands, index) && forall r | 0 <= r < |picks| :: picks[r] < |cands|
  {
    forall k: nat :: Bit(modifier, k) == (k < |picks| && index[cands[picks[k]].1].entropy)
  }

  lemma EntropyAdded(modifier: nat, cands: seq<Candidate>, index: map<nat, Block>, picks: seq<nat>, p: nat)
    requires Indexed(cands, index) && (forall r | 0 <= r < |picks| :: picks[r] < |cands|) && p < |cands|
    requires EntropyBits(modifier, cands, index, picks)
    ensures EntropyBits(if index[cands[p].1].entropy then SetBit(modifier, |picks|) else modifier,
                        cands, index, picks + [p])
  {
    hide Bit, SetBit;
    forall k: nat
      ensures Bit(if index[cands[p].1].entropy then SetBit(modifier, |picks|) else modifier, k)
           == (k < |picks + [p]| && index[cands[(picks + [p])[k]].1].entropy)
    {
      SetBitBit(modifier, |picks|, k);
    }
  }

  predicate RoundsRange(cands: seq<Candidate>, index: map<nat, Block>, time: nat, prev: nat, hash: SelectionHash,
                        picks: seq<nat>) {
    Indexed(cands, index) && (forall r | 0 <= r < |picks| :: picks[r] < |cands|)
    && Rounds(cands, index, time, prev, hash, picks)
  }

  /** The state between rounds over distinct indexed candidates. */
  ghost predicate Progress(cands: seq<Candidate>, index: map<nat, Block>, time: nat, prev: nat, hash: SelectionHash,
                           picks: seq<nat>, selected: map<nat, Block>, modifier: nat)
  {
    RoundsRange(cands, index, time, prev, hash, picks) && selected.Keys == PickedHashes(cands, picks)
    && |selected| == |picks| && EntropyBits(modifier, cands, index, picks)
  }

  lemma ProgressStarts(cands: seq<Candidate>, index: map<nat, Block>, time: nat, prev: nat, hash: SelectionHash)
    requires Indexed(cands, index)
    ensures Progress(cands, index, time, prev, hash, [], map[], 0)
  {
    NoBits(cands, index);
    NoRounds(cands, index, time, prev, hash);
  }

  lemma ProgressMade(cands: seq<Candidate>, index: map<nat, Block>, time: nat, prev: nat, hash: SelectionHash,
                     picks: seq<nat>, selected: map<nat, Block>, modifier: nat, k: nat)
    requires Progress(cands, index, time, prev, hash, picks, selected, modifier) && |picks| < 64
    requires Picked(cands, index, selected.Keys, Stop(time, |picks|), prev, hash, k)
    ensures k < |cands| && cands[k].1 in index
    ensures var b := index[cands[k].1];
      Progress(cands, index, time, prev, hash, picks + [k], selected[b.hash := b],
               if b.entropy then SetBit(modifier, |picks|) else modifier)
  {
    hide Picked, EntropyBits, Rounds, Stop, Bit, SetBit, PickedHashes;
    PickInRange(cands, index, selected.Keys, Stop(time, |picks|), prev, hash, k);
    RoundAdded(cands, index, time, prev, hash, picks, k);
    EntropyAdded(modifier, cands, index, picks, k);
    var b := index[cands[k].1];
    assert selected[b.hash := b].Keys == selected.Keys + {cands[k].1};
  }

  /** The 64 rounds, or as many as there are candidates. No round fails. */
  method SelectAll(cands: seq<Candidate>, time: nat, prev: nat, index: map<nat, Block>, hash: SelectionHash)
    returns (ok: bool, modifier: nat, ghost picks: seq<nat>)
    requires Sorted(cands)
    ensures Indexed(cands, index) && |Hashes(cands)| == |cands| ==> ok
    ensures modifier < Pow2(64)
    ensures Indexed(cands, index) && |Hashes(cands)| == |cands| ==>
      |picks| == (if |cands| < 64 then |cands| else 64)
      && RoundsRange(cands, index, time, prev, hash, picks)
      && EntropyBits(modifier, cands, index, picks)
  {
    hide Picked, EntropyBits, Rounds, Sorted, Section, Bit, SetBit, RoundsRange, PickedHashes;
    modifier, picks := 0, [];
    var interval := SelectionInterval();
    var stop := Aligned(time) - interval;
    var selected: map<nat, Block> := map[];
    ghost var good := Indexed(cands, index) && |Hashes(cands)| == |cands|;
    if good {
      ProgressStarts(cands, index, time, prev, hash);
    }
    for round := 0 to if |cands| < 64 then |cands| else 64
      invariant |picks| == round && stop == Start(time) + Sections(round)
      invariant good ==> Progress(cands, index, time, prev, hash, picks, selected, modifier)
      invariant modifier < Pow2(64)
    {
      stop := stop + Section(round);
      if good {
        OneIsLeft(cands, selected.Keys);
      }
      var r, k := SelectBlock(cands, selected, stop, prev, index, hash);
      if r.None? {
        assert !good;
        return false, 0, picks;
      }
      if good {
        ProgressMade(cands, index, time, prev, hash, picks, selected, modifier, k);
      }
      if r.value.entropy {
        SetBitBelow(modifier, round, 64);
        modifier := SetBit(modifier, round);
      }
      selected := selected[r.value.hash := r.value];
      picks := picks + [k];
    }
    ok := true;
  }

  lemma NoBits(cands: seq<Candidate>, index: map<nat, Block>)
    requires Indexed(cands, index)
    ensures EntropyBits(0, cands, index, [])
  {
    forall k: nat
      ensures !Bit(0, k)
    {
      ZeroBit(k);
    }
  }

  lemma NoRounds(cands: seq<Candidate>, index: map<nat, Block>, time: nat, prev: nat, hash: SelectionHash)
    requires Indexed(cands, index)
    ensures Rounds(cands, index, time, prev, hash, [])
    ensures PickedHashes(cands, []) == {}
  {
  }

  /** The walk back from the previous block over the selection interval, then put in chain order. */
  method Collect(chain: seq<Block>, prev: nat, start: int) returns (s: seq<Candidate>)
    requires prev < |chain|
    ensures s == Candidates(chain, FirstCandidate(chain, prev, start), prev + 1)
  {
    var back: seq<Candidate> := [];
    var n: nat := prev + 1;
    while n > 0 && chain[n - 1].time >= start
      invariant n <= prev + 1 && |back| == prev + 1 - n
      invariant forall k | 0 <= k < |back| :: back[k] == (chain[prev - k].time as int, chain[prev - k].hash)
      invariant forall k | n <= k <= prev :: chain[k].time >= start
    {
      back := back + [(chain[n - 1].time as int, chain[n - 1].hash)];
      n := n - 1;
    }
    assert n == FirstCandidate(chain, prev, start);
    s := seq(|back|, k requires 0 <= k < |back| => back[|back| - 1 - k]);
  }

  /** ComputeNextStakeModifier for the block after `prev`; `prev` is -1 before the genesis block. */
  method ComputeNextStakeModifier(chain: seq<Block>, prev: int, index: map<nat, Block>, hash: SelectionHash)
    returns (ok: bool, modifier: nat, generated: bool, ghost cands: seq<Candidate>, ghost picks: seq<nat>)
    requires -1 <= prev < |chain| && Known(chain, index)
    ensures prev == -1 ==> ok && generated && modifier == 0
    ensures prev >= 0 ==> ok == chain[LastGenerated(chain, prev)].generated
    ensures ok ==> generated == (prev == -1 || Due(chain, prev))
    ensures ok && !generated ==> modifier == chain[LastGenerated(chain, prev)].modifier
    ensures ok && generated && prev >= 0 ==>
      Chosen(chain, prev, index, hash, cands, picks) && EntropyBits(modifier, cands, index, picks)
  {
    hide Picked, EntropyBits, Rounds, Sorted, Section, Known;
    cands, picks := [], [];
    if prev == -1 {
      return true, 0, true, cands, picks;
    }
    var found, last, time := GetLastStakeModifier(chain, prev);
    if !found {
      return false, 0, false, cands, picks;
    }
    if time / INTERVAL >= chain[prev].time / INTERVAL {
      return true, last, false, cands, picks;
    }
    var interval := SelectionInterval();
    var start := chain[prev].time / INTERVAL * INTERVAL - interval;
    assert start == Start(chain[prev].time);
    var s := Collect(chain, prev, start);
    s := Sort(s);
    cands := s;
    ghost var from := FirstCandidate(chain, prev, start);
    SortedIndexed(chain, index, from, prev + 1, cands);
    DistinctChain(chain, index);
    HashesCount(chain, from, prev + 1);
    SameHashes(cands, Candidates(chain, from, prev + 1));
    ok, modifier, picks := SelectAll(s, chain[prev].time, last, index, hash);
    generated := true;
  }

  lemma DistinctChain(chain: seq<Block>, index: map<nat, Block>)
    requires Known(chain, index)
    ensures forall j, k | 0 <= j < k < |chain| :: chain[j].hash != chain[k].hash
  {
  }

  /** A new modifier is due when the last one is from an earlier aligned interval than the previous block. */
  predicate Due(chain: seq<Block>, prev: nat)
    requires prev < |chain|
  {
    chain[LastGenerated(chain, prev)].time / INTERVAL < chain[prev].time / INTERVAL
  }

  /** The blocks of the selection interval in order, and the picks of min(64, n) rounds among them. */
  predicate Chosen(chain: seq<Block>, prev: nat, index: map<nat, Block>, hash: SelectionHash,
                   cands: seq<Candidate>, picks: seq<nat>)
    requires prev < |chain|
  {
    var time := chain[prev].time;
    && Sorted(cands)
    && multiset(cands) == multiset(Candidates(chain, FirstCandidate(chain, prev, Start(time)), prev + 1))
    && RoundsRange(cands, index, time, chain[LastGenerated(chain, prev)].modifier, hash, picks)
    && |picks| == if |cands| < 64 then |cands| else 64
  }

  // ----- how often modifiers are generated -----

  /** Every block carries the flag that was computed for it. */
  predicate Flagged(chain: seq<Block>) {
    (0 < |chain| ==> chain[0].generated) && forall i | 0 < i < |chain| :: chain[i].generated == Due(chain, i - 1)
  }

  /** AcceptBlock: a block is timed less than two minutes before its predecessor, or not before it at all. On the main
      network the first block after genesis must even be timed after it, as in the chain at the end. */
  predicate Accepted(chain: seq<Block>) {
    forall i | 0 < i < |chain| :: chain[i].time > chain[i - 1].time - 120
  }

  /** The aligned interval of a block. */
  function Slot(b: Block): nat { b.time / INTERVAL }

  /** Two minutes back is at most one interval back. */
  lemma SlotStep(chain: seq<Block>, j: nat)
    requires Accepted(chain) && 0 < j < |chain|
    ensures Slot(chain[j]) >= Slot(chain[j - 1]) - 1
  {
    assert chain[j].time > chain[j - 1].time - 120;
  }

  /** The intervals of generating blocks never go back. */
  lemma {:induction false} SlotsGrow(chain: seq<Block>, i: nat, j: nat)
    requires Flagged(chain) && Accepted(chain) && i <= j < |chain| && chain[i].generated && chain[j].generated
    ensures Slot(chain[i]) <= Slot(chain[j])
    decreases j
  {
    hide Accepted;
    if i < j {
      var g := LastGenerated(chain, j - 1);
      assert Due(chain, j - 1);
      SlotStep(chain, j);
      SlotsGrow(chain, i, g);
    }
  }

  /** The block steps back out of the interval that made a new modifier due, into that of the last one. */
  predicate StepsBack(chain: seq<Block>, j: nat)
    requires 0 < j < |chain|
  {
    Due(chain, j - 1) && Slot(chain[j]) == Slot(chain[LastGenerated(chain, j - 1)])
  }

  /** On accepted chains this takes a step back over the boundary right after the last modifier's interval. */
  lemma StepsBackOverBoundary(chain: seq<Block>, j: nat)
    requires Flagged(chain) && Accepted(chain) && 0 < j < |chain|
    ensures var last := Slot(chain[LastGenerated(chain, j - 1)]);
      StepsBack(chain, j) <==> Slot(chain[j - 1]) == last + 1 && Slot(chain[j]) == last
  {
    hide Accepted;
    SlotStep(chain, j);
  }

  /** No two blocks of one aligned interval generate a modifier. */
  predicate Once(chain: seq<Block>) {
    forall i, j | 0 <= i < j < |chain| && chain[i].generated && chain[j].generated :: Slot(chain[i]) != Slot(chain[j])
  }

  /** An accepted chain has at most one modifier to an interval exactly when no block steps back in this way. */
  lemma OncePerInterval(chain: seq<Block>)
    requires Flagged(chain) && Accepted(chain)
    ensures Once(chain) <==> forall j | 0 < j < |chain| :: !StepsBack(chain, j)
  {
    hide Accepted, Slot;
    if Once(chain) {
      forall j | 0 < j < |chain|
        ensures !StepsBack(chain, j)
      {
        assert Due(chain, j - 1) ==> chain[LastGenerated(chain, j - 1)].generated && chain[j].generated;
      }
    }
    if forall j | 0 < j < |chain| :: !StepsBack(chain, j) {
      forall i, j | 0 <= i < j < |chain| && chain[i].generated && chain[j].generated
        ensures Slot(chain[i]) != Slot(chain[j])
      {
        AfterTheLast(chain, i, j);
      }
    }
  }

  /** A block that generates without stepping back is in a later interval than all generators before it. */
  lemma AfterTheLast(chain: seq<Block>, i: nat, j: nat)
    requires Flagged(chain) && Accepted(chain) && i < j < |chain| && chain[i].generated && chain[j].generated
    requires !StepsBack(chain, j)
    ensures Slot(chain[i]) < Slot(chain[j])
  {
    hide Accepted, Slot;
    var g := LastGenerated(chain, j - 1);
    assert i <= g && chain[g].generated;
    SlotsGrow(chain, i, g);
    SlotsGrow(chain, g, j);
  }

  /** So it is on every chain whose times do not decrease. */
  lemma OnceWhenTimesGrow(chain: seq<Block>)
    requires Flagged(chain) && forall i | 0 < i < |chain| :: chain[i - 1].time <= chain[i].time
    ensures Once(chain)
  {
    OncePerInterval(chain);
    forall j | 0 < j < |chain|
      ensures !StepsBack(chain, j)
    {
      assert chain[j - 1].time <= chain[j].time;
      DivisionGrows(chain[j - 1].time, chain[j].time);
    }
  }

  lemma DivisionGrows(a: nat, b: nat)
    requires a <= b
    ensures a / INTERVAL <= b / INTERVAL
  {
  }

  /** An accepted chain from the main network's genesis time on whose third block steps back by one second: the
      genesis block and that block both generate a modifier in the interval from 1504549800 on. */
  lemma TwiceInOneInterval()
    ensures var b := Block(0, 1504550000, 0, false, false, true, 0);
      var chain := [b, b.(hash := 1, time := 1504550400, generated := false), b.(hash := 2, time := 1504550399)];
      Flagged(chain) && Accepted(chain) && StepsBack(chain, 2) && !Once(chain)
  {
    var b := Block(0, 1504550000, 0, false, false, true, 0);
    var chain := [b, b.(hash := 1, time := 1504550400, generated := false), b.(hash := 2, time := 1504550399)];
    assert LastGenerated(chain, 0) == 0;
    assert LastGenerated(chain, 1) == 0;
    assert Due(chain, 1) && !Due(chain, 0);
    assert Slot(chain[0]) == 2507583 && Slot(chain[1]) == 2507584 && Slot(chain[2]) == 2507583;
  }
}
