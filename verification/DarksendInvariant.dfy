/** The invariant of a masternode's mixing session, kept by every event. */
module DarksendInvariant {
  import opened DarksendPool

  // ----- the parts -----

  predicate Counts(p: Pool) {
    0 <= p.sessionUsers <= MAX_TRANSACTIONS && p.sessionUsers <= |p.collaterals| && |p.entries| <= MAX_TRANSACTIONS
  }

  /** All entries use the same denominations. */
  predicate SameMask(entries: seq<Entry>) {
    forall i, j | 0 <= i < |entries| && 0 <= j < |entries| ::
      Denominations(entries[i].vout) == Denominations(entries[j].vout)
  }

  /** An input without what signing fills in. */
  function Stripped(vin: TxIn): TxIn {
    vin.(scriptSig := [], prevPubKey := [])
  }

  /** The inputs of the final transaction are the entries' inputs in order, up to signatures. */
  predicate InputsAgree(sevs: seq<EntryVin>, vins: seq<TxIn>) {
    |vins| == |sevs| && forall i | 0 <= i < |vins| :: Stripped(vins[i]) == Stripped(sevs[i].vin)
  }

  /** Some accepted signature was made for this input and is the one it now carries. */
  predicate Answered(log: set<TxIn>, vin: TxIn) {
    exists v :: v in log && Matches(vin, v) && vin.scriptSig == v.scriptSig
  }

  predicate Traced(sevs: seq<EntryVin>, vins: seq<TxIn>, log: set<TxIn>)
    requires |vins| == |sevs|
  {
    forall i | 0 <= i < |sevs| && sevs[i].isSigSet :: Answered(log, vins[i])
  }

  predicate NoneSigned(sevs: seq<EntryVin>) {
    forall i | 0 <= i < |sevs| :: !sevs[i].isSigSet
  }

  /** The final transaction while clients sign and after. */
  predicate Final(entries: seq<Entry>, vin: seq<TxIn>, vout: seq<TxOut>, log: set<TxIn>) {
    && InputsAgree(Sevs(entries), vin)
    && multiset(vout) == multiset(Vouts(entries))
    && Traced(Sevs(entries), vin, log)
  }

  /** The invariant while the signatures of one message are added. */
  predicate Sound(p: Pool, log: set<TxIn>) {
    && Counts(p) && SameMask(p.entries)
    && p.state in {Queue, AcceptingEntries, Signing, Transmission}
    && (p.state == Queue ==> p.entries == [])
    && (p.state == AcceptingEntries ==> |p.entries| < MAX_TRANSACTIONS && NoneSigned(Sevs(p.entries)))
    && (p.state in {Queue, AcceptingEntries} ==> p.finalVin == [] && p.finalVout == [])
    && (p.state in {Signing, Transmission} ==>
          && |p.entries| == MAX_TRANSACTIONS && p.sessionUsers >= 2
          && Final(p.entries, p.finalVin, p.finalVout, log))
    && (p.state == Transmission ==> AllSigned(Sevs(p.entries)))
  }

  /** What holds between events. */
  predicate Inv(p: Pool, log: set<TxIn>) {
    Sound(p, log) && (p.state == Signing ==> !AllSigned(Sevs(p.entries)))
  }

  // ----- entries, inputs and outputs in sequence -----

  lemma {:induction false} SevsAppend(entries: seq<Entry>, e: Entry)
    ensures Sevs(entries + [e]) == Sevs(entries) + e.sev
  {
    if entries != [] {
      assert (entries + [e])[1..] == entries[1..] + [e];
      SevsAppend(entries[1..], e);
    }
  }

  lemma {:induction false} SevsSplit(a: seq<Entry>, b: seq<Entry>)
    ensures Sevs(a + b) == Sevs(a) + Sevs(b)
  {
    if a == [] {
      assert a + b == b;
    } else {
      assert (a + b)[1..] == a[1..] + b;
      SevsSplit(a[1..], b);
    }
  }

  lemma SevsWithout(entries: seq<Entry>, k: nat)
    requires k < |entries| && NoneSigned(Sevs(entries))
    ensures NoneSigned(Sevs(entries[..k] + entries[k + 1..]))
  {
    hide Sevs;
    var a, b, c := entries[..k], [entries[k]], entries[k + 1..];
    assert entries == a + (b + c);
    SevsSplit(a, b + c);
    SevsSplit(b, c);
    SevsSplit(a, c);
    NoneSignedWithout(Sevs(a), Sevs(b), Sevs(c));
  }

  lemma NoneSignedWithout(a: seq<EntryVin>, b: seq<EntryVin>, c: seq<EntryVin>)
    requires NoneSigned(a + (b + c))
    ensures NoneSigned(a + c)
  {
    var s := a + (b + c);
    forall i | 0 <= i < |a + c|
      ensures !(a + c)[i].isSigSet
    {
      assert (a + c)[i] == if i < |a| then s[i] else s[i + |b|];
    }
  }

  /** One input became signed by `v`, or nothing changed. */
  predicate OneSigned(a: seq<EntryVin>, b: seq<EntryVin>, v: TxIn) {
    && |a| == |b|
    && forall i | 0 <= i < |a| :: b[i] == a[i] || (Matches(a[i].vin, v) && b[i] == EntryVin(WithSig(a[i].vin, v), true))
  }

  lemma {:induction false} SevSigned(sev: seq<EntryVin>, v: TxIn)
    ensures OneSigned(sev, SignedSev(sev, v).1, v)
    ensures !SignedSev(sev, v).0 ==> SignedSev(sev, v).1 == sev
  {
    if sev != [] && !Matches(sev[0].vin, v) {
      SevSigned(sev[1..], v);
    }
  }

  lemma OneSignedJoin(a: seq<EntryVin>, b: seq<EntryVin>, c: seq<EntryVin>, d: seq<EntryVin>, v: TxIn)
    requires OneSigned(a, b, v) && OneSigned(c, d, v)
    ensures OneSigned(a + c, b + d, v)
  {
  }

  lemma {:induction false} EntriesSigned(entries: seq<Entry>, v: TxIn)
    ensures OneSigned(Sevs(entries), Sevs(SignedEntries(entries, v).1), v)
    ensures !SignedEntries(entries, v).0 ==> SignedEntries(entries, v).1 == entries
    ensures Vouts(SignedEntries(entries, v).1) == Vouts(entries)
    ensures forall i | 0 <= i < |entries| :: SignedEntries(entries, v).1[i].vout == entries[i].vout
  {
    hide OneSigned;
    SameSigned([], v);
    if entries != [] {
      SevSigned(entries[0].sev, v);
      EntriesSigned(entries[1..], v);
      SevSigned([], v);
      var (ok, sev) := SignedSev(entries[0].sev, v);
      var rest := SignedEntries(entries[1..], v).1;
      var r := SignedEntries(entries, v).1;
      if ok {
        assert r[1..] == entries[1..];
        assert Sevs(r) == sev + Sevs(entries[1..]);
        SameSigned(Sevs(entries[1..]), v);
        OneSignedJoin(entries[0].sev, sev, Sevs(entries[1..]), Sevs(entries[1..]), v);
      } else {
        assert r[1..] == rest;
        assert Sevs(r) == sev + Sevs(rest);
        OneSignedJoin(entries[0].sev, sev, Sevs(entries[1..]), Sevs(rest), v);
      }
    }
  }

  lemma SameSigned(a: seq<EntryVin>, v: TxIn)
    ensures OneSigned(a, a, v)
  {
  }

  lemma {:induction false} MaskTells(a: seq<TxOut>, b: seq<TxOut>, k: nat)
    requires k <= 7
    ensures MaskFrom(a, k) == MaskFrom(b, k) <==>
      forall m | k <= m < 7 :: Uses(a, DENOMINATIONS[m]) == Uses(b, DENOMINATIONS[m])
    decreases 7 - k
  {
    hide Uses;
    if k < 7 {
      MaskTells(a, b, k + 1);
    }
  }

  /** Outputs that are all denominations have equal masks exactly when they use the same denominations. */
  lemma MasksCompareDenominations(a: seq<TxOut>, b: seq<TxOut>)
    requires forall i | 0 <= i < |a| :: Denominated(a[i].nValue)
    requires forall i | 0 <= i < |b| :: Denominated(b[i].nValue)
    ensures Denominations(a) == Denominations(b) <==>
      forall m | 0 <= m < 7 :: Uses(a, DENOMINATIONS[m]) == Uses(b, DENOMINATIONS[m])
  {
    hide Uses, Denominated;
    MaskTells(a, b, 0);
  }

  // ----- one event at a time -----

  lemma ClearedInv(p: Pool, log: set<TxIn>)
    ensures Inv(Cleared(p), log)
  {
  }

  lemma JoinKeeps(p: Pool, log: set<TxIn>, denom: int, collateral: nat, collateralOk: bool)
    requires Inv(p, log)
    ensures Inv(Joined(p, denom, collateral, collateralOk).1, log)
  {
    hide Final, SameMask, AllSigned, Denominations;
    var q := Joined(p, denom, collateral, collateralOk).1;
    assert SameMask([]) by {
      EmptyMask();
    }
    assert Sevs([]) == [];
  }

  lemma EmptyMask()
    ensures SameMask([])
  {
  }

  /** The session is full: the final transaction is made of all the entries. */
  lemma FinalizeKeeps(p: Pool, log: set<TxIn>, order: seq<TxOut>)
    requires Counts(p) && SameMask(p.entries) && NoneSigned(Sevs(p.entries)) && p.finalVin == [] && p.finalVout == []
    requires p.state == AcceptingEntries && |p.entries| == MAX_TRANSACTIONS && p.sessionUsers >= 2
    ensures Sound(Finalized(p, order), log)
  {
    hide SameMask, Vouts, Sevs;
    assert InputsAgree(Sevs(p.entries), Vins(Sevs(p.entries)));
  }

  lemma SendKeeps(p: Pool, log: set<TxIn>, sending: Sending)
    requires Sound(p, log)
    ensures Inv(Sent(p, sending), log)
  {
    hide SameMask, Vouts, Final, AllSigned, NoneSigned;
    ClearedInv(p, log);
  }

  lemma EntryKeeps(p: Pool, input: seq<TxIn>, amount: int, collateral: nat, output: seq<TxOut>, collateralOk: bool)
    requires Counts(p) && SameMask(p.entries) && NoneSigned(Sevs(p.entries)) && p.state == AcceptingEntries
    requires Compatible(p.entries, output) && EntryFits(p, input, amount, collateralOk)
    ensures var q := WithEntry(p, input, amount, collateral, output, collateralOk);
      Counts(q) && SameMask(q.entries) && NoneSigned(Sevs(q.entries))
  {
    hide Denominations, HasInput;
    SevsAppend(p.entries, Entry(NewVins(input), amount, collateral, output));
  }

  lemma SubmitKeeps(p: Pool, log: set<TxIn>, input: seq<TxIn>, amount: int, collateral: nat, output: seq<TxOut>,
                    valid: bool, collateralOk: bool, order: seq<TxOut>, sending: Sending)
    requires Inv(p, log)
    ensures Inv(After(p, Submit(input, amount, collateral, output, valid, collateralOk, order, sending)), log)
  {
    hide SameMask, Final, AllSigned, NoneSigned, Compatible, Sevs, Denominations;
    if p.sessionUsers >= MAX_TRANSACTIONS && Compatible(p.entries, output) && valid {
      var q := WithEntry(p, input, amount, collateral, output, collateralOk);
      if EntryFits(p, input, amount, collateralOk) {
        EntryKeeps(p, input, amount, collateral, output, collateralOk);
        hide EntryFits;
        if |q.entries| == MAX_TRANSACTIONS {
          FinalizeKeeps(q, log, order);
        }
        SendKeeps(Finalized(q, order), log, sending);
      }
    }
  }

  lemma TracedFurther(a: seq<EntryVin>, b: seq<EntryVin>, vins: seq<TxIn>, log: set<TxIn>, v: TxIn)
    requires InputsAgree(a, vins) && Traced(a, vins, log) && OneSigned(a, b, v)
    ensures InputsAgree(b, SignedVins(vins, v)) && Traced(b, SignedVins(vins, v), log + {v})
  {
    var out := SignedVins(vins, v);
    forall i | 0 <= i < |b|
      ensures Stripped(out[i]) == Stripped(b[i].vin) && (b[i].isSigSet ==> Answered(log + {v}, out[i]))
    {
      assert Stripped(vins[i]) == Stripped(a[i].vin);
      if Matches(vins[i], v) {
        assert v in log + {v} && Matches(out[i], v);
      } else if b[i].isSigSet {
        assert b[i] == a[i];
        var w :| w in log && Matches(vins[i], w) && vins[i].scriptSig == w.scriptSig;
        assert w in log + {v};
      }
    }
  }

  lemma SigKeeps(p: Pool, log: set<TxIn>, v: TxIn, valid: bool)
    requires Sound(p, log)
    ensures var (ok, q) := WithScriptSig(p, v, valid);
      Sound(q, if valid then log + {v} else log) && q.state == p.state && (!ok ==> q.entries == p.entries)
  {
    hide SignedVins, SignedEntries, OneSigned, Vouts, Sevs, Denominations, HasSig, Traced;
    if SigUsable(p, v, valid) {
      var r := SignedEntries(p.entries, v).1;
      EntriesSigned(p.entries, v);
      TracedFurther(Sevs(p.entries), Sevs(r), p.finalVin, log, v);
    } else if valid && p.state in {Signing, Transmission} {
      TracedMore(Sevs(p.entries), p.finalVin, log, v);
    }
  }

  lemma TracedMore(sevs: seq<EntryVin>, vins: seq<TxIn>, log: set<TxIn>, v: TxIn)
    requires |vins| == |sevs| && Traced(sevs, vins, log)
    ensures Traced(sevs, vins, log + {v})
  {
    forall i | 0 <= i < |sevs| && sevs[i].isSigSet
      ensures Answered(log + {v}, vins[i])
    {
      var w :| w in log && Matches(vins[i], w) && vins[i].scriptSig == w.scriptSig;
      assert w in log + {v};
    }
  }

  function Offered(sigs: seq<Offer>): set<TxIn> {
    set i | 0 <= i < |sigs| && sigs[i].valid :: sigs[i].vin
  }

  lemma NoneOffered()
    ensures Offered([]) == {}
  {
  }

  lemma OfferedFirst(sigs: seq<Offer>)
    requires sigs != []
    ensures Offered(sigs) == (if sigs[0].valid then {sigs[0].vin} else {}) + Offered(sigs[1..])
  {
    forall v | v in Offered(sigs)
      ensures v in (if sigs[0].valid then {sigs[0].vin} else {}) + Offered(sigs[1..])
    {
      var i :| 0 <= i < |sigs| && sigs[i].valid && sigs[i].vin == v;
      if i > 0 {
        assert sigs[1..][i - 1] == sigs[i];
      }
    }
    forall v | v in Offered(sigs[1..])
      ensures v in Offered(sigs)
    {
      var i :| 0 <= i < |sigs[1..]| && sigs[1..][i].valid && sigs[1..][i].vin == v;
      assert sigs[i + 1] == sigs[1..][i];
    }
  }

  lemma {:induction false} SigsKeep(p: Pool, log: set<TxIn>, sigs: seq<Offer>)
    requires Sound(p, log)
    ensures var (ok, q) := WithSigs(p, sigs);
      Sound(q, log + Offered(sigs)) && q.state == p.state && (!ok ==> q.entries == p.entries)
    decreases |sigs|
  {
    hide Sound, WithScriptSig, Offered;
    if sigs == [] {
      NoneOffered();
      assert log + Offered(sigs) == log;
    } else {
      var v := sigs[0].vin;
      var more := if sigs[0].valid then log + {v} else log;
      SigKeeps(p, log, v, sigs[0].valid);
      SigsKeep(WithScriptSig(p, v, sigs[0].valid).1, more, sigs[1..]);
      OfferedFirst(sigs);
      assert log + Offered(sigs) == more + Offered(sigs[1..]);
    }
  }

  lemma SignKeeps(p: Pool, log: set<TxIn>, sigs: seq<Offer>, sending: Sending)
    requires Inv(p, log)
    ensures Inv(After(p, Sign(sigs, sending)), log + Offered(sigs))
  {
    hide SameMask, Final, AllSigned, NoneSigned, Sevs, Offered, WithSigs, WithScriptSig;
    SigsKeep(p, log, sigs);
    var (ok, q) := WithSigs(p, sigs);
    if ok {
      SendKeeps(q, log + Offered(sigs), sending);
    }
  }

  lemma MaskKept(entries: seq<Entry>, rest: seq<Entry>)
    requires SameMask(entries) && forall k | 0 <= k < |rest| :: rest[k] in entries
    ensures SameMask(rest)
  {
    hide Denominations;
  }

  lemma TickKeeps(p: Pool, log: set<TxIn>, expired: nat -> bool, queueOver: bool, signingOver: bool)
    requires Inv(p, log)
    ensures Inv(TimedOut(p, expired, queueOver, signingOver), log)
  {
    hide SameMask, Final, AllSigned, NoneSigned, Sevs, FirstExpired;
    assert NoneSigned(Sevs([])) by { NoSevs(); }
    var k := FirstExpired(|p.entries|, expired, 0);
    if p.state in {Queue, AcceptingEntries} && k < |p.entries| {
      SevsWithout(p.entries, k);
      MaskKept(p.entries, p.entries[..k] + p.entries[k + 1..]);
    }
    ClearedInv(p, log);
    EmptyMask();
  }

  lemma NoSevs()
    ensures NoneSigned(Sevs([]))
  {
  }

  // ----- every run -----

  function Accepted(e: Event): set<TxIn> {
    if e.Sign? then Offered(e.sigs) else {}
  }

  /** The signatures that passed the check in a run. */
  function Log(events: seq<Event>): set<TxIn> {
    if events == [] then {} else Log(events[..|events| - 1]) + Accepted(events[|events| - 1])
  }

  lemma StepKeeps(p: Pool, log: set<TxIn>, e: Event)
    requires Inv(p, log)
    ensures Inv(After(p, e), log + Accepted(e))
  {
    hide Inv, Joined, TimedOut, Checked, WithEntry, Compatible, EntryFits, WithSigs, Offered;
    match e {
      case Join(denom, collateral, allowed, collateralOk) =>
        JoinKeeps(p, log, denom, collateral, collateralOk);
      case Submit(input, amount, collateral, output, valid, collateralOk, order, sending) =>
        SubmitKeeps(p, log, input, amount, collateral, output, valid, collateralOk, order, sending);
      case Sign(sigs, sending) =>
        SignKeeps(p, log, sigs, sending);
      case Tick(expired, queueOver, signingOver) =>
        TickKeeps(p, log, expired, queueOver, signingOver);
      case Reset =>
        ClearedInv(p, log);
    }
    assert log + {} == log;
  }

  /** The invariant holds after every run of events. */
  lemma {:induction false} RunKeeps(events: seq<Event>)
    ensures Inv(Run(events), Log(events))
    decreases |events|
  {
    hide After, Accepted, Inv;
    if events == [] {
      Start();
    } else {
      var before := events[..|events| - 1];
      RunKeeps(before);
      StepKeeps(Run(before), Log(before), events[|events| - 1]);
    }
  }

  lemma Start()
    ensures Inv(Run([]), Log([]))
  {
  }

  /** While clients sign there are three entries with the same denominations, at least two users, and a final
      transaction made of exactly the entries' inputs, in order, and the entries' outputs, in any order. */
  lemma SigningIsFull(events: seq<Event>)
    requires Run(events).state == Signing
    ensures var p := Run(events);
      |p.entries| == 3 && 2 <= p.sessionUsers <= 3 && SameMask(p.entries)
      && InputsAgree(Sevs(p.entries), p.finalVin)
      && multiset(p.finalVout) == multiset(Vouts(p.entries))
  {
    RunKeeps(events);
    hide SameMask, InputsAgree, Vouts, Sevs, Traced, AllSigned, Run;
  }

  /** A transaction is transmitted only when every input of every entry has been signed, and each input of it
      carries a signature that was accepted for that input. */
  lemma TransmissionIsSigned(events: seq<Event>)
    requires Run(events).state == Transmission
    ensures var p := Run(events);
      AllSigned(Sevs(p.entries)) && InputsAgree(Sevs(p.entries), p.finalVin)
      && forall i | 0 <= i < |p.finalVin| :: Answered(Log(events), p.finalVin[i])
  {
    RunKeeps(events);
    hide SameMask, Vouts, Sevs, Run, Answered, Log;
  }

  /** The transaction that Check transmits when a message completes the signatures. */
  lemma TransmittedIsSigned(events: seq<Event>, sigs: seq<Offer>)
    requires var q := WithSigs(Run(events), sigs).1; q.state == Signing && AllSigned(Sevs(q.entries))
    ensures var q := WithSigs(Run(events), sigs).1;
      |q.entries| == 3 && InputsAgree(Sevs(q.entries), q.finalVin)
      && multiset(q.finalVout) == multiset(Vouts(q.entries))
      && forall i | 0 <= i < |q.finalVin| :: Answered(Log(events) + Offered(sigs), q.finalVin[i])
  {
    RunKeeps(events);
    SigsKeep(Run(events), Log(events), sigs);
    hide SameMask, Vouts, Sevs, Run, Answered, Log, WithSigs, Offered;
  }
}
