/** Transaction locks: votes are collected per transaction, at most one from each masternode. */
module InstantX {
  import Ordered

  const SIGNATURES_REQUIRED: int := 20

  const SIGNATURES_TOTAL: int := 30

  datatype OutPoint = OutPoint(hash: nat, n: nat)

  datatype Tx = Tx(hash: nat, vin: seq<OutPoint>)

  datatype Vote = Vote(masternode: OutPoint, txHash: nat, nBlockHeight: int)

  datatype Lock = Lock(nBlockHeight: int, txHash: nat, votes: seq<Vote>, nExpiration: int)

  type Locks = map<nat, Lock>

  /** The id of a vote, of the masternode's outpoint and the transaction only: the height and the signature are not
      part of it. Nothing is required of the function; in particular different votes may share an id. */
  type VoteId = (OutPoint, nat) -> nat

  function IdOf(id: VoteId, v: Vote): nat {
    id(v.masternode, v.txHash)
  }

  // ----- the invariant -----

  predicate Filed(locks: Locks) {
    forall t | t in locks :: locks[t].txHash == t && forall i | 0 <= i < |locks[t].votes| ::
      locks[t].votes[i].txHash == t
  }

  predicate Known(locks: Locks, ids: set<nat>, id: VoteId) {
    forall t, i | t in locks && 0 <= i < |locks[t].votes| :: IdOf(id, locks[t].votes[i]) in ids
  }

  /** No two votes in the locks have the same id. */
  predicate Distinct(locks: Locks, id: VoteId) {
    forall t, i, s, j | t in locks && s in locks && 0 <= i < |locks[t].votes| && 0 <= j < |locks[s].votes|
                        && (t != s || i != j) ::
      IdOf(id, locks[t].votes[i]) != IdOf(id, locks[s].votes[j])
  }

  predicate Sound(locks: Locks, ids: set<nat>, id: VoteId) {
    Filed(locks) && Known(locks, ids, id) && Distinct(locks, id)
  }

  /** At most one vote of each masternode on a transaction. */
  lemma OnePerMasternode(locks: Locks, ids: set<nat>, id: VoteId, t: nat, i: nat, j: nat)
    requires Sound(locks, ids, id) && t in locks && i < j < |locks[t].votes|
    ensures locks[t].votes[i].masternode != locks[t].votes[j].masternode
  {
    assert IdOf(id, locks[t].votes[i]) != IdOf(id, locks[t].votes[j]);
  }

  // ----- counting -----

  /** The votes at a height. */
  function Counted(votes: seq<Vote>, height: int): nat {
    if votes == [] then 0
    else Counted(votes[..|votes| - 1], height) + (if votes[|votes| - 1].nBlockHeight == height then 1 else 0)
  }

  function Voters(votes: seq<Vote>, height: int): set<OutPoint> {
    set i | 0 <= i < |votes| && votes[i].nBlockHeight == height :: votes[i].masternode
  }

  method CountSignatures(l: Lock) returns (n: int)
    ensures n == if l.nBlockHeight == 0 then -1 else Counted(l.votes, l.nBlockHeight)
  {
    if l.nBlockHeight == 0 {
      return -1;
    }
    n := 0;
    for i := 0 to |l.votes|
      invariant n == Counted(l.votes[..i], l.nBlockHeight)
    {
      assert l.votes[..i + 1][..i] == l.votes[..i];
      if l.votes[i].nBlockHeight == l.nBlockHeight {
        n := n + 1;
      }
    }
    assert l.votes[..|l.votes|] == l.votes;
  }

  lemma {:induction false} CountIsVoters(votes: seq<Vote>, height: int)
    requires forall i, j | 0 <= i < j < |votes| :: votes[i].masternode != votes[j].masternode
    ensures Counted(votes, height) == |Voters(votes, height)|
    decreases |votes|
  {
    if votes != [] {
      var rest, v := votes[..|votes| - 1], votes[|votes| - 1];
      CountIsVoters(rest, height);
      assert votes == rest + [v];
      VotersMore(rest, v, height);
      assert v.masternode !in Voters(rest, height);
    }
  }

  lemma VotersMore(rest: seq<Vote>, v: Vote, height: int)
    ensures Voters(rest + [v], height) == Voters(rest, height)
        + (if v.nBlockHeight == height then {v.masternode} else {})
  {
    var votes := rest + [v];
    forall m | m in Voters(rest, height) + (if v.nBlockHeight == height then {v.masternode} else {})
      ensures m in Voters(votes, height)
    {
      if m in Voters(rest, height) {
        var i :| 0 <= i < |rest| && rest[i].nBlockHeight == height && rest[i].masternode == m;
        assert votes[i] == rest[i];
      } else {
        assert votes[|rest|] == v;
      }
    }
  }

  predicate CountsVoters(l: Lock) {
    Counted(l.votes, l.nBlockHeight) == |Voters(l.votes, l.nBlockHeight)|
  }

  /** The signatures of a lock are counted once per masternode. */
  lemma SignaturesAreVoters(locks: Locks, ids: set<nat>, id: VoteId, t: nat)
    requires Sound(locks, ids, id) && t in locks
    ensures CountsVoters(locks[t])
  {
    forall i, j | 0 <= i < j < |locks[t].votes|
      ensures locks[t].votes[i].masternode != locks[t].votes[j].masternode
    {
      OnePerMasternode(locks, ids, id, t, i, j);
    }
    CountIsVoters(locks[t].votes, locks[t].nBlockHeight);
  }

  // ----- changes of the locks -----

  function WithLock(locks: Locks, t: nat, height: int, time: int): Locks {
    if t in locks then locks else locks[t := Lock(height, t, [], time + 3600)]
  }

  function WithVote(locks: Locks, v: Vote, time: int): Locks {
    var all := WithLock(locks, v.txHash, 0, time);
    var l := all[v.txHash];
    all[v.txHash := l.(votes := l.votes + [v])]
  }

  /** Nothing but expiration times differ. */
  predicate SameVotes(a: Locks, b: Locks) {
    a.Keys == b.Keys && forall t | t in a :: b[t] == a[t].(nExpiration := b[t].nExpiration)
  }

  /** Some input is locked for a transaction other than `h`. */
  predicate Conflicts(lockedInputs: map<OutPoint, nat>, vin: seq<OutPoint>, h: nat) {
    exists i | 0 <= i < |vin| :: vin[i] in lockedInputs && lockedInputs[vin[i]] != h
  }

  /** The locks of `h` and of the transaction that holds its first conflicting input expire at `time`; nothing else
      changes. */
  predicate BothExpired(was: Locks, locks: Locks, lockedInputs: map<OutPoint, nat>, vin: seq<OutPoint>, h: nat,
                        time: int)
  {
    exists i | 0 <= i < |vin| && vin[i] in lockedInputs && lockedInputs[vin[i]] != h ::
      && (forall j | 0 <= j < i :: vin[j] in lockedInputs ==> lockedInputs[vin[j]] == h)
      && locks.Keys == was.Keys
      && forall t | t in locks ::
           locks[t] == if t == h || t == lockedInputs[vin[i]] then was[t].(nExpiration := time) else was[t]
  }

  /** After the inputs were locked for `h` as far as they were free. */
  predicate InputsLocked(was: map<OutPoint, nat>, lockedInputs: map<OutPoint, nat>, vin: seq<OutPoint>, h: nat) {
    && (forall p | p in was :: p in lockedInputs && lockedInputs[p] == was[p])
    && (forall p | p in lockedInputs && p !in was :: p in vin && lockedInputs[p] == h)
    && forall i | 0 <= i < |vin| :: vin[i] in lockedInputs
  }

  /** Without a conflict, all inputs are then locked for `h`. */
  lemma AllLocked(was: map<OutPoint, nat>, lockedInputs: map<OutPoint, nat>, vin: seq<OutPoint>, h: nat)
    requires InputsLocked(was, lockedInputs, vin, h) && !Conflicts(was, vin, h)
    ensures forall i | 0 <= i < |vin| :: vin[i] in lockedInputs && lockedInputs[vin[i]] == h
  {
  }

  /** None of the inputs is locked. */
  predicate Freed(lockedInputs: map<OutPoint, nat>, vin: seq<OutPoint>) {
    forall i | 0 <= i < |vin| :: vin[i] !in lockedInputs
  }

  lemma SameConflicts(was: map<OutPoint, nat>, lockedInputs: map<OutPoint, nat>, vin: seq<OutPoint>, h: nat)
    requires InputsLocked(was, lockedInputs, vin, h)
    ensures Conflicts(lockedInputs, vin, h) == Conflicts(was, vin, h)
  {
    if i :| 0 <= i < |vin| && lockedInputs[vin[i]] != h {
      assert vin[i] in was;
    }
    if i :| 0 <= i < |vin| && vin[i] in was && was[vin[i]] != h {
      assert lockedInputs[vin[i]] != h;
    }
  }

  /** The lock of a request: none when an input is too new; a lock that is there gets the new height. */
  function Made(locks: Locks, h: nat, tooNew: bool, height: int, time: int): Locks {
    if tooNew then locks
    else if h in locks then locks[h := locks[h].(nBlockHeight := height)]
    else locks[h := Lock(height, h, [], time + 3600)]
  }

  /** Enough votes at the height of the lock, which must be known. */
  predicate Complete(l: Lock) {
    l.nBlockHeight != 0 && Counted(l.votes, l.nBlockHeight) >= SIGNATURES_REQUIRED
  }

  /** Requests are kept under their own hash, or are empty ones that a look-up made. */
  predicate Requests(lockReq: map<nat, Tx>) {
    forall t | t in lockReq :: lockReq[t].hash == t || lockReq[t].vin == []
  }

  /** What an acceptable vote does to locks, requests and locked inputs. */
  predicate Voted(locks: Locks, lockReq: map<nat, Tx>, lockedInputs: map<OutPoint, nat>,
                  locks': Locks, lockReq': map<nat, Tx>, lockedInputs': map<OutPoint, nat>, v: Vote, time: int)
  {
    var all := WithVote(locks, v, time);
    if !Complete(all[v.txHash]) then locks' == all && lockReq' == lockReq && lockedInputs' == lockedInputs
    else if v.txHash !in lockReq then
      locks' == all && lockReq' == lockReq[v.txHash := Tx(0, [])] && lockedInputs' == lockedInputs
    else
      var tx := lockReq[v.txHash];
      && lockReq' == lockReq
      && if Conflicts(lockedInputs, tx.vin, tx.hash)
         then lockedInputs' == lockedInputs && BothExpired(all, locks', lockedInputs, tx.vin, tx.hash, time)
         else locks' == all && InputsLocked(lockedInputs, lockedInputs', tx.vin, v.txHash)
  }

  /** Once twenty votes at its height are there, every input of a requested transaction without a rival is locked for
      it. */
  lemma CompleteLocksInputs(locks: Locks, lockReq: map<nat, Tx>, lockedInputs: map<OutPoint, nat>, locks': Locks,
                            lockReq': map<nat, Tx>, lockedInputs': map<OutPoint, nat>, v: Vote, time: int)
    requires Voted(locks, lockReq, lockedInputs, locks', lockReq', lockedInputs', v, time) && Requests(lockReq)
    requires v.txHash in lockReq && v.txHash in locks' && locks'[v.txHash].nBlockHeight != 0
    requires Counted(locks'[v.txHash].votes, locks'[v.txHash].nBlockHeight) >= 20
    requires forall i | 0 <= i < |lockReq[v.txHash].vin| ::
      lockReq[v.txHash].vin[i] in lockedInputs ==> lockedInputs[lockReq[v.txHash].vin[i]] == v.txHash
    ensures forall i | 0 <= i < |lockReq[v.txHash].vin| ::
      lockReq[v.txHash].vin[i] in lockedInputs' && lockedInputs'[lockReq[v.txHash].vin[i]] == v.txHash
  {
  }

  /** With fewer votes at its height, or none known, nothing is locked and nothing expires. */
  lemma IncompleteLocksNothing(locks: Locks, lockReq: map<nat, Tx>, lockedInputs: map<OutPoint, nat>, locks': Locks,
                               lockReq': map<nat, Tx>, lockedInputs': map<OutPoint, nat>, v: Vote, time: int)
    requires Voted(locks, lockReq, lockedInputs, locks', lockReq', lockedInputs', v, time)
    requires v.txHash in locks' && (locks'[v.txHash].nBlockHeight == 0
                                    || Counted(locks'[v.txHash].votes, locks'[v.txHash].nBlockHeight) < 20)
    ensures lockedInputs' == lockedInputs && lockReq' == lockReq
    ensures v.txHash !in locks ==> locks'[v.txHash].nExpiration == time + 3600
    ensures forall t | t in locks :: t in locks' && locks'[t].nExpiration == locks[t].nExpiration
  {
  }

  /** With a rival nothing is locked and both locks expire at once. */
  lemma RivalsExpire(locks: Locks, lockReq: map<nat, Tx>, lockedInputs: map<OutPoint, nat>, locks': Locks,
                     lockReq': map<nat, Tx>, lockedInputs': map<OutPoint, nat>, v: Vote, time: int)
    requires Voted(locks, lockReq, lockedInputs, locks', lockReq', lockedInputs', v, time) && Requests(lockReq)
    requires v.txHash in lockReq && v.txHash in locks' && locks'[v.txHash].nBlockHeight != 0
    requires Counted(locks'[v.txHash].votes, locks'[v.txHash].nBlockHeight) >= 20
    requires exists i | 0 <= i < |lockReq[v.txHash].vin| ::
      lockReq[v.txHash].vin[i] in lockedInputs && lockedInputs[lockReq[v.txHash].vin[i]] != v.txHash
    ensures lockedInputs' == lockedInputs && locks'[v.txHash].nExpiration == time
    ensures exists i | 0 <= i < |lockReq[v.txHash].vin| :: var p := lockReq[v.txHash].vin[i];
      p in lockedInputs && lockedInputs[p] != v.txHash
      && (lockedInputs[p] in locks' ==> locks'[lockedInputs[p]].nExpiration == time)
  {
  }

  lemma LockKeeps(locks: Locks, ids: set<nat>, id: VoteId, t: nat, height: int, time: int)
    requires Sound(locks, ids, id)
    ensures Sound(WithLock(locks, t, height, time), ids, id)
  {
    hide IdOf;
  }

  lemma VoteKeeps(locks: Locks, ids: set<nat>, id: VoteId, v: Vote, time: int)
    requires Sound(locks, ids, id) && IdOf(id, v) !in ids
    ensures Sound(WithVote(locks, v, time), ids + {IdOf(id, v)}, id)
  {
    hide IdOf;
    LockKeeps(locks, ids, id, v.txHash, 0, time);
    var all := WithLock(locks, v.txHash, 0, time);
    var r := WithVote(locks, v, time);
    VoteDistinct(all, ids, id, v, r);
    VoteKnown(all, ids, id, v, r);
  }

  lemma VoteKnown(all: Locks, ids: set<nat>, id: VoteId, v: Vote, r: Locks)
    requires Known(all, ids, id) && v.txHash in all
    requires r == all[v.txHash := all[v.txHash].(votes := all[v.txHash].votes + [v])]
    ensures Known(r, ids + {IdOf(id, v)}, id)
  {
    hide IdOf;
    forall t, i | t in r && 0 <= i < |r[t].votes|
      ensures IdOf(id, r[t].votes[i]) in ids + {IdOf(id, v)}
    {
      assert t in all;
      assert i < |all[t].votes| ==> r[t].votes[i] == all[t].votes[i];
    }
  }

  lemma VoteDistinct(all: Locks, ids: set<nat>, id: VoteId, v: Vote, r: Locks)
    requires Known(all, ids, id) && Distinct(all, id) && v.txHash in all && IdOf(id, v) !in ids
    requires r == all[v.txHash := all[v.txHash].(votes := all[v.txHash].votes + [v])]
    ensures Distinct(r, id)
  {
    hide IdOf;
    forall t, i, s, j | t in r && s in r && 0 <= i < |r[t].votes| && 0 <= j < |r[s].votes| && (t != s || i != j)
      ensures IdOf(id, r[t].votes[i]) != IdOf(id, r[s].votes[j])
    {
      var a, b := |all[t].votes|, |all[s].votes|;
      assert i < a ==> r[t].votes[i] == all[t].votes[i] && IdOf(id, all[t].votes[i]) in ids;
      assert j < b ==> r[s].votes[j] == all[s].votes[j] && IdOf(id, all[s].votes[j]) in ids;
    }
  }

  lemma ExpiryKeeps(a: Locks, b: Locks, ids: set<nat>, id: VoteId)
    requires Sound(a, ids, id) && SameVotes(a, b)
    ensures Sound(b, ids, id)
  {
    hide IdOf;
    assert forall t | t in b :: b[t].votes == a[t].votes && b[t].txHash == a[t].txHash;
  }

  lemma MoreIds(locks: Locks, ids: set<nat>, more: set<nat>, id: VoteId)
    requires Sound(locks, ids, id) && ids <= more
    ensures Sound(locks, more, id)
  {
    hide IdOf;
  }

  function Ids(votes: seq<Vote>, id: VoteId): set<nat> {
    set i | 0 <= i < |votes| :: IdOf(id, votes[i])
  }

  /** A lock that is removed may take the ids of its votes along: no other lock holds them. */
  lemma CleanKeeps(locks: Locks, ids: set<nat>, id: VoteId, t: nat, gone: set<nat>)
    requires Sound(locks, ids, id) && t in locks && gone <= Ids(locks[t].votes, id)
    ensures Sound(locks - {t}, ids - gone, id)
  {
    hide IdOf;
    var r := locks - {t};
    forall s, j | s in r && 0 <= j < |r[s].votes|
      ensures IdOf(id, r[s].votes[j]) in ids - gone
    {
      assert s != t && r[s] == locks[s];
      assert forall i | 0 <= i < |locks[t].votes| :: IdOf(id, locks[t].votes[i]) != IdOf(id, locks[s].votes[j]);
    }
  }

  // ----- the global maps -----

  class InstantXState {
    const id: VoteId
    var lockReq: map<nat, Tx>
    var lockReqRejected: map<nat, Tx>
    var lockVote: map<nat, Vote>
    var locks: Locks
    var lockedInputs: map<OutPoint, nat>

    ghost predicate Valid()
      reads this
    {
      Sound(locks, lockVote.Keys, id) && Requests(lockReq)
    }

    constructor (id: VoteId)
      ensures Valid() && locks == map[] && lockVote == map[] && lockedInputs == map[] && lockReq == map[]
    {
      this.id := id;
      lockReq, lockReqRejected, lockVote, locks, lockedInputs := map[], map[], map[], map[], map[];
    }

    /** A height of 0 says that some input is too new; then no lock is made. */
    method CreateNewLock(tx: Tx, tooNew: bool, height: int, time: int) returns (h: int)
      requires Valid()
      modifies this`locks
      ensures Valid() && h == (if tooNew then 0 else height)
      ensures locks == Made(old(locks), tx.hash, tooNew, height, time)
    {
      hide IdOf;
      if tooNew {
        return 0;
      }
      LockKeeps(locks, lockVote.Keys, id, tx.hash, height, time);
      if tx.hash !in locks {
        locks := locks[tx.hash := Lock(height, tx.hash, [], time + 3600)];
      } else {
        HeightKeeps(locks, lockVote.Keys, id, tx.hash, height);
        locks := locks[tx.hash := locks[tx.hash].(nBlockHeight := height)];
      }
      return height;
    }

    /** The node's own vote: recorded by id, not added to the lock. `signed` covers rank and signature. */
    method DoConsensusVote(own: Vote, signed: bool)
      requires Valid()
      modifies this`lockVote
      ensures Valid() && lockVote == if signed then old(lockVote)[IdOf(id, own) := own] else old(lockVote)
    {
      if signed {
        MoreIds(locks, lockVote.Keys, lockVote.Keys + {IdOf(id, own)}, id);
        lockVote := lockVote[IdOf(id, own) := own];
        assert lockVote.Keys == old(lockVote).Keys + {IdOf(id, own)};
      }
    }

    /** Two complete locks that spend the same input both expire. */
    method CheckForConflictingLocks(tx: Tx, time: int) returns (conflict: bool)
      requires Valid()
      modifies this`locks
      ensures Valid() && SameVotes(old(locks), locks)
      ensures conflict == Conflicts(lockedInputs, tx.vin, tx.hash)
      ensures conflict ==> BothExpired(old(locks), locks, lockedInputs, tx.vin, tx.hash, time)
      ensures !conflict ==> locks == old(locks)
    {
      hide IdOf, Sound;
      for i := 0 to |tx.vin|
        invariant locks == old(locks)
        invariant forall j | 0 <= j < i :: tx.vin[j] in lockedInputs ==> lockedInputs[tx.vin[j]] == tx.hash
      {
        if tx.vin[i] in lockedInputs {
          var other := lockedInputs[tx.vin[i]];
          if other != tx.hash {
            if tx.hash in locks {
              locks := locks[tx.hash := locks[tx.hash].(nExpiration := time)];
            }
            if other in locks {
              locks := locks[other := locks[other].(nExpiration := time)];
            }
            ExpiryKeeps(old(locks), locks, lockVote.Keys, id);
            return true;
          }
        }
      }
      return false;
    }

    method LockInputs(tx: Tx, txHash: nat)
      modifies this`lockedInputs
      ensures InputsLocked(old(lockedInputs), lockedInputs, tx.vin, txHash)
    {
      for i := 0 to |tx.vin|
        invariant forall p | p in old(lockedInputs) :: p in lockedInputs && lockedInputs[p] == old(lockedInputs)[p]
        invariant forall p | p in lockedInputs && p !in old(lockedInputs) :: p in tx.vin && lockedInputs[p] == txHash
        invariant forall j | 0 <= j < i :: tx.vin[j] in lockedInputs
      {
        if tx.vin[i] !in lockedInputs {
          lockedInputs := lockedInputs[tx.vin[i] := txHash];
        }
      }
    }

    /** The vote has just been recorded by id; `rank` and `signatureOk` are the answers about its masternode. A vote
        that completes the lock of a request locks its inputs, unless one of them is locked for another transaction:
        then both locks expire. */
    method ProcessConsensusVote(v: Vote, rank: int, signatureOk: bool, time: int) returns (ok: bool)
      requires Sound(locks, lockVote.Keys - {IdOf(id, v)}, id) && IdOf(id, v) in lockVote && Requests(lockReq)
      modifies this`locks, this`lockReq, this`lockedInputs
      ensures Valid()
      ensures ok == (rank != -1 && rank <= SIGNATURES_TOTAL && signatureOk)
      ensures !ok ==> locks == old(locks) && lockedInputs == old(lockedInputs) && lockReq == old(lockReq)
      ensures ok ==> Voted(old(locks), old(lockReq), old(lockedInputs), locks, lockReq, lockedInputs, v, time)
      ensures SameVotes(if ok then WithVote(old(locks), v, time) else old(locks), locks)
    {
      hide IdOf, Sound;
      ghost var ids := lockVote.Keys - {IdOf(id, v)};
      assert ids + {IdOf(id, v)} == lockVote.Keys;
      MoreIds(locks, ids, lockVote.Keys, id);
      if rank == -1 || rank > SIGNATURES_TOTAL || !signatureOk {
        return false;
      }
      VoteKeeps(locks, ids, id, v, time);
      if v.txHash !in locks {
        locks := locks[v.txHash := Lock(0, v.txHash, [], time + 3600)];
      }
      var l := locks[v.txHash];
      locks := locks[v.txHash := l.(votes := l.votes + [v])];
      var count := CountSignatures(locks[v.txHash]);
      if count >= SIGNATURES_REQUIRED {
        // Looking the request up creates an empty one when there is none.
        if v.txHash !in lockReq {
          lockReq := lockReq[v.txHash := Tx(0, [])];
        }
        var tx := lockReq[v.txHash];
        var conflict := CheckForConflictingLocks(tx, time);
        if !conflict {
          LockInputs(tx, v.txHash);
        }
      }
      return true;
    }

    /** txlvote. */
    method Txlvote(v: Vote, rank: int, signatureOk: bool, time: int)
      requires Valid()
      modifies this`locks, this`lockReq, this`lockedInputs, this`lockVote
      ensures Valid()
      ensures IdOf(id, v) in old(lockVote) || rank == -1 || rank > SIGNATURES_TOTAL || !signatureOk ==>
        locks == old(locks) && lockedInputs == old(lockedInputs) && lockReq == old(lockReq)
      ensures IdOf(id, v) in old(lockVote) ==> lockVote == old(lockVote)
      ensures IdOf(id, v) !in old(lockVote) && rank != -1 && rank <= SIGNATURES_TOTAL && signatureOk ==>
        Voted(old(locks), old(lockReq), old(lockedInputs), locks, lockReq, lockedInputs, v, time)
      ensures IdOf(id, v) !in old(lockVote) ==>
        lockVote == old(lockVote)[IdOf(id, v) := v]
        && SameVotes(if rank != -1 && rank <= SIGNATURES_TOTAL && signatureOk then WithVote(old(locks), v, time)
                     else old(locks), locks)
    {
      hide IdOf, Sound, SameVotes, WithVote, Voted, Requests;
      if IdOf(id, v) in lockVote {
        return;
      }
      lockVote := lockVote[IdOf(id, v) := v];
      assert lockVote.Keys - {IdOf(id, v)} == old(lockVote).Keys;
      var ok := ProcessConsensusVote(v, rank, signatureOk, time);
    }

    /** txlreq; `valid` covers value, fee and scripts, `accepted` the memory pool. A request that is not accepted locks
        its free inputs, and if its lock is complete it either becomes a request after all or, with a rival, expires. */
    method Txlreq(tx: Tx, valid: bool, tooNew: bool, height: int, accepted: bool, own: OutPoint, signed: bool,
                  time: int)
      requires Valid()
      modifies this
      ensures Valid()
      ensures tx.hash in old(lockReq) || tx.hash in old(lockReqRejected) || !valid ==>
        locks == old(locks) && lockVote == old(lockVote) && lockedInputs == old(lockedInputs)
        && lockReq == old(lockReq) && lockReqRejected == old(lockReqRejected)
      ensures tx.hash !in old(lockReq) && tx.hash !in old(lockReqRejected) && valid ==>
        var made := Made(old(locks), tx.hash, tooNew, height, time);
        if accepted then
          && locks == made && lockedInputs == old(lockedInputs) && lockReqRejected == old(lockReqRejected)
          && lockReq == old(lockReq)[tx.hash := tx]
          && var vote := Vote(own, tx.hash, if tooNew then 0 else height);
             lockVote == if signed then old(lockVote)[IdOf(id, vote) := vote] else old(lockVote)
        else
          && lockVote == old(lockVote) && lockReqRejected == old(lockReqRejected)[tx.hash := tx]
          && InputsLocked(old(lockedInputs), lockedInputs, tx.vin, tx.hash)
          && var complete := tx.hash in made && Complete(made[tx.hash]);
             var rival := Conflicts(old(lockedInputs), tx.vin, tx.hash);
             && lockReq == (if complete && !rival then old(lockReq)[tx.hash := tx] else old(lockReq))
             && (if complete && rival then BothExpired(made, locks, lockedInputs, tx.vin, tx.hash, time)
                 else locks == made)
      ensures forall t | t in old(locks) :: t in locks && locks[t].votes == old(locks)[t].votes
      ensures forall t | t in locks && t !in old(locks) :: t == tx.hash && locks[t].votes == []
    {
      hide IdOf, Sound;
      if tx.hash in lockReq || tx.hash in lockReqRejected || !valid {
        return;
      }
      var h := CreateNewLock(tx, tooNew, height, time);
      if accepted {
        DoConsensusVote(Vote(own, tx.hash, h), signed);
        lockReq := lockReq[tx.hash := tx];
      } else {
        lockReqRejected := lockReqRejected[tx.hash := tx];
        LockInputs(tx, tx.hash);
        SameConflicts(old(lockedInputs), lockedInputs, tx.vin, tx.hash);
        if tx.hash in locks {
          var count := CountSignatures(locks[tx.hash]);
          if count >= SIGNATURES_REQUIRED {
            var conflict := CheckForConflictingLocks(tx, time);
            if !conflict {
              lockReq := lockReq[tx.hash := tx];
            }
          }
        }
      }
    }

    /** CleanTransactionLocksList: expired locks go, and with a known request also the ids of their votes. */
    method CleanTransactionLocksList(time: int)
      requires Valid()
      modifies this
      ensures Valid()
      ensures locks == map t | t in old(locks) && time <= old(locks)[t].nExpiration :: old(locks)[t]
      ensures lockVote.Keys <= old(lockVote).Keys
      ensures forall t | t in old(lockReq) && t in old(locks) && time > old(locks)[t].nExpiration ::
        t !in lockReq && forall i | 0 <= i < |old(lockReq)[t].vin| :: old(lockReq)[t].vin[i] !in lockedInputs
      ensures forall t | t in old(lockReq) && (t in old(locks) ==> time <= old(locks)[t].nExpiration) ::
        t in lockReq && lockReq[t] == old(lockReq)[t]
      ensures forall p | p in lockedInputs :: p in old(lockedInputs) && lockedInputs[p] == old(lockedInputs)[p]
      ensures forall p | p in old(lockedInputs) && p !in lockedInputs ::
        exists t | t in old(lockReq) && t in old(locks) :: time > old(locks)[t].nExpiration && p in old(lockReq)[t].vin
    {
      hide IdOf, Sound, Ids;
      var todo: set<int> := set t | t in locks.Keys;
      assert todo == locks.Keys;
      while todo != {}
        invariant Valid() && todo <= old(locks).Keys && lockVote.Keys <= old(lockVote).Keys
        invariant forall t | t in old(locks) :: t in locks <==> (t in todo || time <= old(locks)[t].nExpiration)
        invariant locks.Keys <= old(locks).Keys && forall t | t in locks :: locks[t] == old(locks)[t]
        invariant todo <= locks.Keys
        invariant forall t | t in old(lockReq) :: t !in lockReq <==>
          t in old(locks) && t !in todo && time > old(locks)[t].nExpiration
        invariant forall t | t in lockReq :: t in old(lockReq) && lockReq[t] == old(lockReq)[t]
        invariant forall t | t in old(lockReq) && t !in lockReq :: Freed(lockedInputs, old(lockReq)[t].vin)
        invariant forall p | p in lockedInputs :: p in old(lockedInputs) && lockedInputs[p] == old(lockedInputs)[p]
        invariant forall p | p in old(lockedInputs) && p !in lockedInputs ::
          exists t | t in old(lockReq) && t in old(locks) ::
            time > old(locks)[t].nExpiration && p in old(lockReq)[t].vin
        decreases |todo|
      {
        var t: nat := Ordered.Least(todo);
        todo := todo - {t};
        if time > locks[t].nExpiration {
          Remove(t);
        }
      }
    }

    method Remove(t: nat)
      requires Valid() && t in locks
      modifies this
      ensures Valid() && locks == old(locks) - {t} && lockVote.Keys <= old(lockVote).Keys
      ensures lockReq == old(lockReq) - {t}
      ensures t !in old(lockReq) ==>
        lockedInputs == old(lockedInputs) && lockReqRejected == old(lockReqRejected) && lockVote == old(lockVote)
      ensures t in old(lockReq) ==>
        && lockReqRejected == old(lockReqRejected) - {t}
        && lockVote == old(lockVote) - Ids(old(locks)[t].votes, id)
        && lockedInputs == map p | p in old(lockedInputs) && p !in old(lockReq)[t].vin :: old(lockedInputs)[p]
    {
      hide IdOf;
      ghost var gone: set<nat> := {};
      if t in lockReq {
        var tx := lockReq[t];
        for i := 0 to |tx.vin|
          invariant locks == old(locks) && lockVote == old(lockVote) && lockReq == old(lockReq)
          invariant lockReqRejected == old(lockReqRejected)
          invariant lockedInputs == map p | p in old(lockedInputs) && p !in tx.vin[..i] :: old(lockedInputs)[p]
        {
          assert tx.vin[..i + 1] == tx.vin[..i] + [tx.vin[i]];
          lockedInputs := lockedInputs - {tx.vin[i]};
        }
        assert tx.vin[..|tx.vin|] == tx.vin;
        lockReq := lockReq - {t};
        lockReqRejected := lockReqRejected - {t};
        EraseVotes(locks[t].votes);
        gone := Ids(locks[t].votes, id);
      }
      CleanKeeps(locks, old(lockVote).Keys, id, t, gone);
      assert lockVote.Keys == old(lockVote).Keys - gone;
      locks := locks - {t};
    }

    method EraseVotes(votes: seq<Vote>)
      modifies this`lockVote
      ensures lockVote == old(lockVote) - Ids(votes, id)
    {
      hide IdOf;
      assert Ids(votes[..0], id) == {};
      for i := 0 to |votes|
        invariant lockVote == old(lockVote) - Ids(votes[..i], id)
      {
        IdsMore(votes, i, id);
        lockVote := lockVote - {IdOf(id, votes[i])};
      }
      assert votes[..|votes|] == votes;
    }
  }

  lemma IdsMore(votes: seq<Vote>, i: nat, id: VoteId)
    requires i < |votes|
    ensures Ids(votes[..i + 1], id) == Ids(votes[..i], id) + {IdOf(id, votes[i])}
  {
    hide IdOf;
    forall x | x in Ids(votes[..i], id) + {IdOf(id, votes[i])}
      ensures x in Ids(votes[..i + 1], id)
    {
      if x == IdOf(id, votes[i]) {
        assert votes[..i + 1][i] == votes[i];
      } else {
        var j :| 0 <= j < i && IdOf(id, votes[..i][j]) == x;
        assert votes[..i + 1][j] == votes[..i][j];
      }
    }
  }

  lemma HeightKeeps(locks: Locks, ids: set<nat>, id: VoteId, t: nat, height: int)
    requires Sound(locks, ids, id) && t in locks
    ensures Sound(locks[t := locks[t].(nBlockHeight := height)], ids, id)
  {
    hide IdOf;
    var r := locks[t := locks[t].(nBlockHeight := height)];
    assert forall s | s in r :: r[s].votes == locks[s].votes && r[s].txHash == locks[s].txHash;
  }

  // ----- runs -----

  datatype Event =
    | Request(tx: Tx, valid: bool, tooNew: bool, height: int, accepted: bool, own: OutPoint, signed: bool)
    | Ballot(vote: Vote, rank: int, signatureOk: bool)
    | Clean

  /** After any sequence of requests, votes and cleanups at any times, the votes of every lock are for its own
      transaction, at most one from each masternode, with their ids on record, and the count of signatures is the
      number of distinct voters. */
  method Run(m: InstantXState, events: seq<(Event, int)>)
    requires m.Valid()
    modifies m
    ensures Sound(m.locks, m.lockVote.Keys, m.id)
    ensures forall t | t in m.locks :: CountsVoters(m.locks[t])
  {
    for k := 0 to |events|
      invariant m.Valid()
    {
      var time := events[k].1;
      match events[k].0 {
        case Request(tx, valid, tooNew, height, accepted, own, signed) =>
          m.Txlreq(tx, valid, tooNew, height, accepted, own, signed, time);
        case Ballot(vote, rank, signatureOk) => m.Txlvote(vote, rank, signatureOk, time);
        case Clean => m.CleanTransactionLocksList(time);
      }
    }
    forall t | t in m.locks
      ensures CountsVoters(m.locks[t])
    {
      SignaturesAreVoters(m.locks, m.lockVote.Keys, m.id, t);
    }
  }
}
