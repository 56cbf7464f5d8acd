/** What holds of a mixing session over whole runs besides its invariant: who joined, and which entries and signatures
    it can hold. */
module DarksendHistory {
  import opened DarksendPool
  import opened DarksendInvariant
  import opened Darksend

  // ----- one denomination to a session -----

  /** The denominations asked for by the clients that joined the present session, from the one that started it on. */
  function Asked(events: seq<Event>): seq<int> {
    if events == [] then [] else
    var n := |events| - 1;
    var p, e, before := Run(events[..n]), events[n], Asked(events[..n]);
    if e.Join? && e.allowed && Joined(p, e.denom, e.collateral, e.collateralOk).0 then
      (if p.sessionUsers <= 0 then [] else before) + [e.denom]
    else before
  }

  lemma {:induction false} SigsKeepUsers(p: Pool, sigs: seq<Offer>)
    ensures var q := WithSigs(p, sigs).1;
      q.sessionUsers == p.sessionUsers && q.sessionDenom == p.sessionDenom && q.state == p.state
    decreases |sigs|
  {
    hide SignedEntries, SignedVins, SigUsable;
    if sigs != [] {
      SigsKeepUsers(WithScriptSig(p, sigs[0].vin, sigs[0].valid).1, sigs[1..]);
    }
  }

  lemma CheckKeepsUsers(p: Pool, order: seq<TxOut>, sending: Sending)
    ensures var q := Checked(p, order, sending);
      q.sessionUsers > 0 ==> q.sessionUsers == p.sessionUsers && q.sessionDenom == p.sessionDenom
  {
    hide Vins, Vouts, Sevs, AllSigned, Shuffled;
  }

  /** Apart from joining, an event leaves the denomination alone as long as the session has users. */
  lemma DenominationStays(p: Pool, e: Event)
    requires !e.Join?
    ensures var q := After(p, e); q.sessionUsers > 0 ==> p.sessionUsers > 0 && q.sessionDenom == p.sessionDenom
  {
    hide Checked, WithSigs, EntryFits, Compatible, FirstExpired;
    match e {
      case Submit(input, amount, collateral, output, valid, collateralOk, order, sending) =>
        CheckKeepsUsers(WithEntry(p, input, amount, collateral, output, collateralOk), order, sending);
      case Sign(sigs, sending) =>
        SigsKeepUsers(p, sigs);
        CheckKeepsUsers(WithSigs(p, sigs).1, [], sending);
      case Tick(expired, queueOver, signingOver) =>
      case Reset =>
    }
  }

  /** In every run all clients of a session asked for one denomination, that of the session. */
  lemma {:induction false} OneDenomination(events: seq<Event>)
    ensures Run(events).sessionUsers > 0 ==>
      Asked(events) != [] && forall i | 0 <= i < |Asked(events)| :: Asked(events)[i] == Run(events).sessionDenom
    decreases |events|
  {
    if events != [] {
      var n := |events| - 1;
      OneDenomination(events[..n]);
      var p, e := Run(events[..n]), events[n];
      if !e.Join? {
        hide After;
        DenominationStays(p, e);
      }
    }
  }

  // ----- entries -----

  /** No input of an entry is null, and no amount negative unless the entry has no inputs. */
  predicate Proper(e: Entry) {
    (forall a | 0 <= a < |e.sev| :: !IsNull(e.sev[a].vin.prevout)) && (e.sev == [] || e.amount >= 0)
  }

  /** No two entries have an input in common. */
  predicate Apart(entries: seq<Entry>) {
    forall i, j, a, b | 0 <= i < j < |entries| && 0 <= a < |entries[i].sev| && 0 <= b < |entries[j].sev| ::
      !SameInput(entries[i].sev[a].vin, entries[j].sev[b].vin)
  }

  /** Signed inputs carry different signatures. */
  predicate SigsDiffer(entries: seq<Entry>) {
    forall i, j, a, b | 0 <= i < |entries| && 0 <= j < |entries|
                        && 0 <= a < |entries[i].sev| && 0 <= b < |entries[j].sev|
                        && (i != j || a != b) && entries[i].sev[a].isSigSet && entries[j].sev[b].isSigSet ::
      entries[i].sev[a].vin.scriptSig != entries[j].sev[b].vin.scriptSig
  }

  predicate AllProper(entries: seq<Entry>) {
    forall i | 0 <= i < |entries| :: Proper(entries[i])
  }

  predicate Orderly(p: Pool) {
    AllProper(p.entries) && SigsDiffer(p.entries) && (p.state in {Queue, AcceptingEntries} ==> Apart(p.entries))
  }

  lemma NoneShared(entries: seq<Entry>, input: seq<TxIn>)
    requires forall b | 0 <= b < |input| :: !HasInput(entries, input[b])
    ensures forall i, a, b | 0 <= i < |entries| && 0 <= a < |entries[i].sev| && 0 <= b < |input| ::
      !SameInput(entries[i].sev[a].vin, input[b])
  {
  }

  lemma NewEntry(p: Pool, input: seq<TxIn>, amount: int, collateral: nat, output: seq<TxOut>, collateralOk: bool)
    requires Orderly(p) && EntryFits(p, input, amount, collateralOk)
    ensures Orderly(WithEntry(p, input, amount, collateral, output, collateralOk))
  {
    NoneShared(p.entries, input);
    hide HasInput;
    var e := Entry(NewVins(input), amount, collateral, output);
    assert forall b | 0 <= b < |input| :: e.sev[b].vin == input[b] && !e.sev[b].isSigSet;
  }

  /** The first entry with an unsigned matching input, or none. */
  lemma {:induction false} Taker(entries: seq<Entry>, vin: TxIn, i: nat) returns (k: nat)
    requires i <= |entries| && forall j | 0 <= j < i :: !SignedSev(entries[j].sev, vin).0
    ensures k <= |entries| && (forall j | 0 <= j < k :: !SignedSev(entries[j].sev, vin).0)
    ensures k < |entries| ==> SignedSev(entries[k].sev, vin).0
    decreases |entries| - i
  {
    hide SignedSev;
    if i == |entries| || SignedSev(entries[i].sev, vin).0 {
      k := i;
    } else {
      k := Taker(entries, vin, i + 1);
    }
  }

  lemma {:induction false} Taken(sev: seq<EntryVin>, vin: TxIn, i: nat) returns (k: nat)
    requires i <= |sev| && (forall j | 0 <= j < i :: !Matches(sev[j].vin, vin)) && SignedSev(sev, vin).0
    ensures k < |sev| && !sev[k].isSigSet && Matches(sev[k].vin, vin)
    ensures SignedSev(sev, vin).1 == sev[k := EntryVin(WithSig(sev[k].vin, vin), true)]
    decreases |sev| - i
  {
    if i == |sev| || Matches(sev[i].vin, vin) {
      FirstMatch(sev, vin, i);
      k := i;
    } else {
      k := Taken(sev, vin, i + 1);
    }
  }

  lemma SignedOrderly(p: Pool, vin: TxIn, valid: bool)
    requires Orderly(p)
    ensures Orderly(WithScriptSig(p, vin, valid).1)
  {
    if SigUsable(p, vin, valid) {
      var k := Taker(p.entries, vin, 0);
      FirstTaker(p.entries, vin, k);
      if k < |p.entries| {
        var a := Taken(p.entries[k].sev, vin, 0);
        var sev := p.entries[k].sev;
        hide SignedSev, SignedEntries;
        OneTaken(p.entries, vin, k, a);
      }
    }
  }

  /** One unsigned input takes a signature that no input carries yet. */
  lemma OneTaken(entries: seq<Entry>, vin: TxIn, k: nat, a: nat)
    requires AllProper(entries) && SigsDiffer(entries) && !HasSig(entries, vin.scriptSig)
    requires k < |entries| && a < |entries[k].sev|
    ensures var sev := entries[k].sev;
      var r := entries[k := entries[k].(sev := sev[a := EntryVin(WithSig(sev[a].vin, vin), true)])];
      AllProper(r) && SigsDiffer(r)
  {
    var sev := entries[k].sev;
    var r := entries[k := entries[k].(sev := sev[a := EntryVin(WithSig(sev[a].vin, vin), true)])];
    forall i, b | 0 <= i < |r| && 0 <= b < |r[i].sev| && (i != k || b != a)
      ensures r[i].sev[b] == entries[i].sev[b] && r[i].sev[b].vin.scriptSig != vin.scriptSig
    {
      assert entries[i].sev[b].vin.scriptSig == vin.scriptSig ==> HasSig(entries, vin.scriptSig);
    }
    assert r[k].sev[a].vin.scriptSig == vin.scriptSig && r[k].sev[a].vin.prevout == sev[a].vin.prevout;
  }

  lemma {:induction false} SigsOrderly(p: Pool, sigs: seq<Offer>)
    requires Orderly(p)
    ensures Orderly(WithSigs(p, sigs).1)
    decreases |sigs|
  {
    hide Orderly, WithScriptSig;
    if sigs != [] {
      SignedOrderly(p, sigs[0].vin, sigs[0].valid);
      SigsOrderly(WithScriptSig(p, sigs[0].vin, sigs[0].valid).1, sigs[1..]);
    }
  }

  lemma EmptyOrderly()
    ensures AllProper([]) && SigsDiffer([]) && Apart([])
  {
  }

  lemma CheckOrderly(p: Pool, order: seq<TxOut>, sending: Sending)
    requires Orderly(p)
    ensures Orderly(Checked(p, order, sending))
  {
    hide AllProper, SigsDiffer, Apart, Vins, Vouts, Sevs, AllSigned, Shuffled;
    EmptyOrderly();
  }

  lemma Without(entries: seq<Entry>, k: nat)
    requires k < |entries| && AllProper(entries) && SigsDiffer(entries)
    ensures var r := entries[..k] + entries[k + 1..];
      AllProper(r) && SigsDiffer(r) && (Apart(entries) ==> Apart(r))
  {
    var r := entries[..k] + entries[k + 1..];
    assert forall i | 0 <= i < |r| :: r[i] == entries[if i < k then i else i + 1];
  }

  lemma TickOrderly(p: Pool, expired: nat -> bool, queueOver: bool, signingOver: bool)
    requires Orderly(p)
    ensures Orderly(TimedOut(p, expired, queueOver, signingOver))
  {
    hide AllProper, SigsDiffer, Apart, FirstExpired;
    EmptyOrderly();
    var k := FirstExpired(|p.entries|, expired, 0);
    if k < |p.entries| {
      Without(p.entries, k);
    }
  }

  lemma AfterOrderly(p: Pool, e: Event)
    requires Orderly(p)
    ensures Orderly(After(p, e))
  {
    hide Checked, WithSigs, EntryFits, Compatible, TimedOut, AllProper, SigsDiffer, Apart;
    EmptyOrderly();
    match e {
      case Join(denom, collateral, allowed, collateralOk) =>
      case Submit(input, amount, collateral, output, valid, collateralOk, order, sending) =>
        var q := WithEntry(p, input, amount, collateral, output, collateralOk);
        if EntryFits(p, input, amount, collateralOk) {
          NewEntry(p, input, amount, collateral, output, collateralOk);
          CheckOrderly(q, order, sending);
        }
      case Sign(sigs, sending) =>
        SigsOrderly(p, sigs);
        CheckOrderly(WithSigs(p, sigs).1, [], sending);
      case Tick(expired, queueOver, signingOver) =>
        TickOrderly(p, expired, queueOver, signingOver);
      case Reset =>
    }
  }

  /** In every run no entry has a null input or a negative amount, signed inputs carry different signatures, and while
      entries are collected no two of them share an input. */
  lemma {:induction false} RunOrderly(events: seq<Event>)
    ensures Orderly(Run(events))
    decreases |events|
  {
    hide Orderly, After;
    if events == [] {
      StartOrderly();
    } else {
      RunOrderly(events[..|events| - 1]);
      AfterOrderly(Run(events[..|events| - 1]), events[|events| - 1]);
    }
  }

  lemma StartOrderly()
    ensures Orderly(Run([]))
  {
  }

  // ----- the timer -----

  /** The timer drops the first expired entry of a session that collects, and the session with the last one. */
  lemma TickExpires(p: Pool, expired: nat -> bool, queueOver: bool, signingOver: bool, k: nat)
    requires p.state in {Queue, AcceptingEntries} && k <= |p.entries| && forall j | 0 <= j < k :: !expired(j)
    requires k < |p.entries| ==> expired(k)
    ensures var q := TimedOut(p, expired, queueOver, signingOver);
      if k == |p.entries| then q.entries == p.entries
      else if k == 0 && |p.entries| == 1 then q.entries == [] && q.sessionUsers == 0
      else q.entries == p.entries[..k] + p.entries[k + 1..]
  {
    assert FirstExpired(|p.entries|, expired, 0) == k;
    hide FirstExpired;
  }

  /** It takes all users of an overdue queue and ends an overdue signing phase; a full queue starts collecting; nothing
      else happens while clients sign. */
  lemma TickEffects(p: Pool, expired: nat -> bool, queueOver: bool, signingOver: bool)
    ensures var q := TimedOut(p, expired, queueOver, signingOver);
      && (queueOver ==> q.sessionUsers == 0 && q.collaterals == [] && q.state == AcceptingEntries)
      && (signingOver && p.state == Signing ==> q == Pool(AcceptingEntries, [], [], [], 0, 0, []))
      && (!queueOver && p.state == Queue && p.sessionUsers == 3 ==> q.state == AcceptingEntries)
      && (!queueOver && p.state in {Signing, Transmission} && !(signingOver && p.state == Signing) ==> q == p)
  {
    hide FirstExpired;
  }
}
