/** CDarkSendPool on a masternode: the handlers update the session in place, each proved against `DarksendPool`. */
module Darksend {
  import opened DarksendPool
  import opened DarksendInvariant

  /** The outputs swapped at random as std::random_shuffle does. */
  method RandomShuffle(s: seq<TxOut>) returns (r: seq<TxOut>)
    ensures multiset(r) == multiset(s)
  {
    r := s;
    if s == [] {
      return;
    }
    for i := 1 to |s|
      invariant |r| == |s| && multiset(r) == multiset(s)
    {
      var j :| 0 <= j <= i;
      r := r[i := r[j]][j := r[i]];
    }
  }

  lemma {:induction false} FirstMatch(sev: seq<EntryVin>, vin: TxIn, i: nat)
    requires i <= |sev| && forall j | 0 <= j < i :: !Matches(sev[j].vin, vin)
    requires i < |sev| ==> Matches(sev[i].vin, vin)
    ensures SignedSev(sev, vin) == if i == |sev| || sev[i].isSigSet then (false, sev)
                                   else (true, sev[i := EntryVin(WithSig(sev[i].vin, vin), true)])
    decreases |sev|
  {
    if i > 0 {
      FirstMatch(sev[1..], vin, i - 1);
      assert [sev[0]] + sev[1..] == sev;
      if i < |sev| {
        var s := EntryVin(WithSig(sev[i].vin, vin), true);
        assert [sev[0]] + sev[1..][i - 1 := s] == sev[i := s];
      }
    } else if sev != [] {
      var s := EntryVin(WithSig(sev[0].vin, vin), true);
      assert [s] + sev[1..] == sev[0 := s];
    }
  }

  lemma {:induction false} FirstTaker(entries: seq<Entry>, vin: TxIn, i: nat)
    requires i <= |entries| && forall j | 0 <= j < i :: !SignedSev(entries[j].sev, vin).0
    requires i < |entries| ==> SignedSev(entries[i].sev, vin).0
    ensures SignedEntries(entries, vin) == if i == |entries| then (false, entries)
                                           else (true,
                                                 entries[i := entries[i].(sev := SignedSev(entries[i].sev, vin).1)])
    decreases |entries|
  {
    hide SignedSev;
    if i > 0 {
      FirstTaker(entries[1..], vin, i - 1);
      assert [entries[0]] + entries[1..] == entries;
      if i < |entries| {
        var e := entries[i].(sev := SignedSev(entries[i].sev, vin).1);
        assert [entries[0]] + entries[1..][i - 1 := e] == entries[i := e];
      }
    } else if entries != [] {
      var e := entries[0].(sev := SignedSev(entries[0].sev, vin).1);
      assert [e] + entries[1..] == entries[0 := e];
    }
  }

  /** CDarkSendEntry::AddSig. */
  method AddSig(sev: seq<EntryVin>, vin: TxIn) returns (ok: bool, r: seq<EntryVin>)
    ensures (ok, r) == SignedSev(sev, vin)
  {
    hide SignedSev;
    for i := 0 to |sev|
      invariant forall j | 0 <= j < i :: !Matches(sev[j].vin, vin)
    {
      if Matches(sev[i].vin, vin) {
        FirstMatch(sev, vin, i);
        if sev[i].isSigSet {
          return false, sev;
        }
        return true, sev[i := EntryVin(WithSig(sev[i].vin, vin), true)];
      }
    }
    FirstMatch(sev, vin, |sev|);
    return false, sev;
  }

  /** GetDenominations: uses are collected output by output, then shifted into a mask. */
  method GetDenominations(vout: seq<TxOut>) returns (denom: nat)
    ensures denom == Denominations(vout)
  {
    var used := seq(7, _ => 0);
    for i := 0 to |vout|
      invariant |used| == 7
      invariant forall k | 0 <= k < 7 :: used[k] == if Uses(vout[..i], DENOMINATIONS[k]) then 1 else 0
      invariant forall j | 0 <= j < i :: Denominated(vout[j].nValue)
    {
      var found := false;
      ghost var before := used;
      for k := 0 to 7
        invariant |used| == 7
        invariant forall m | 0 <= m < 7 :: used[m] == if m < k && DENOMINATIONS[m] == vout[i].nValue then 1
            else before[m]
        invariant found <==> exists m | 0 <= m < k :: DENOMINATIONS[m] == vout[i].nValue
      {
        if vout[i].nValue == DENOMINATIONS[k] {
          used := used[k := 1];
          found := true;
        }
      }
      if !found {
        assert !Denominated(vout[i].nValue);
        return 0;
      }
      forall k | 0 <= k < 7
        ensures Uses(vout[..i + 1], DENOMINATIONS[k])
            == (Uses(vout[..i], DENOMINATIONS[k]) || vout[i].nValue == DENOMINATIONS[k])
      {
        UsesMore(vout, i, DENOMINATIONS[k]);
      }
    }
    assert vout[..|vout|] == vout;
    denom := ShiftIn(vout, used);
  }

  /** The uses shifted into a number, the first denomination lowest. */
  method ShiftIn(vout: seq<TxOut>, used: seq<nat>) returns (denom: nat)
    requires |used| == 7 && forall k | 0 <= k < 7 :: used[k] == if Uses(vout, DENOMINATIONS[k]) then 1 else 0
    ensures denom == MaskFrom(vout, 0)
  {
    hide Uses;
    denom := 0;
    var bit: nat := 1;
    for c := 0 to 7
      invariant denom + bit * MaskFrom(vout, c) == MaskFrom(vout, 0)
    {
      Distribute(bit, used[c], MaskFrom(vout, c + 1));
      denom := denom + bit * used[c];
      bit := 2 * bit;
    }
  }

  lemma Distribute(b: nat, u: nat, m: nat)
    ensures b * (u + 2 * m) == b * u + (2 * b) * m
  {
  }

  lemma UsesMore(vout: seq<TxOut>, i: nat, value: int)
    requires i < |vout|
    ensures Uses(vout[..i + 1], value) == (Uses(vout[..i], value) || vout[i].nValue == value)
  {
    if Uses(vout[..i], value) {
      var k :| 0 <= k < i && vout[..i][k].nValue == value;
      assert vout[..i + 1][k].nValue == value;
    }
    if vout[i].nValue == value {
      assert vout[..i + 1][i].nValue == value;
    }
    if Uses(vout[..i + 1], value) {
      var k :| 0 <= k < i + 1 && vout[..i + 1][k].nValue == value;
      assert k < i ==> vout[..i][k].nValue == value;
    }
  }

  class CDarkSendPool {
    var state: Status
    var entries: seq<Entry>
    var finalVin: seq<TxIn>
    var finalVout: seq<TxOut>
    var sessionUsers: int
    var sessionDenom: int
    var collaterals: seq<nat>

    ghost function Pool(): Pool
      reads this
    {
      DarksendPool.Pool(state, entries, finalVin, finalVout, sessionUsers, sessionDenom, collaterals)
    }

    constructor ()
      ensures Pool() == Run([])
    {
      state := AcceptingEntries;
      entries, finalVin, finalVout := [], [], [];
      sessionUsers, sessionDenom, collaterals := 0, 0, [];
    }

    method SetNull()
      modifies this
      ensures Pool() == Cleared(old(Pool()))
    {
      finalVin := [];
      finalVout := [];
      entries := [];
      state := AcceptingEntries;
      sessionUsers := 0;
      sessionDenom := 0;
      collaterals := [];
    }

    method UpdateState(newState: Status)
      modifies this`state
      ensures Pool() == InState(old(Pool()), newState)
    {
      if newState == Error || newState == Success {
        return;
      }
      state := newState;
    }

    method IsCompatibleWithSession(denom: int, collateral: nat, collateralOk: bool) returns (ok: bool)
      modifies this
      ensures (ok, Pool()) == Joined(old(Pool()), denom, collateral, collateralOk)
    {
      if !collateralOk {
        return false;
      }
      if sessionUsers < 0 {
        sessionUsers := 0;
      }
      if sessionUsers == 0 {
        sessionDenom := denom;
        sessionUsers := sessionUsers + 1;
        entries := [];
        UpdateState(Queue);
        collaterals := collaterals + [collateral];
        return true;
      }
      if (state != AcceptingEntries && state != Queue) || sessionUsers >= MAX_TRANSACTIONS {
        return false;
      }
      if denom != sessionDenom {
        return false;
      }
      sessionUsers := sessionUsers + 1;
      collaterals := collaterals + [collateral];
      return true;
    }

    method IsCompatibleWithEntries(output: seq<TxOut>) returns (ok: bool)
      ensures ok == Compatible(entries, output)
    {
      for i := 0 to |entries|
        invariant forall j | 0 <= j < i :: Denominations(output) == Denominations(entries[j].vout)
      {
        var mine := GetDenominations(output);
        var theirs := GetDenominations(entries[i].vout);
        if mine != theirs {
          return false;
        }
      }
      return true;
    }

    /** The search for an input that an entry already has. */
    method HasVin(vin: TxIn) returns (found: bool)
      ensures found == HasInput(entries, vin)
    {
      for i := 0 to |entries|
        invariant forall k, j | 0 <= k < i && 0 <= j < |entries[k].sev| :: !SameInput(entries[k].sev[j].vin, vin)
      {
        for m := 0 to |entries[i].sev|
          invariant forall j | 0 <= j < m :: !SameInput(entries[i].sev[j].vin, vin)
        {
          if SameInput(entries[i].sev[m].vin, vin) {
            return true;
          }
        }
      }
      return false;
    }

    method AddEntry(input: seq<TxIn>, amount: int, collateral: nat, output: seq<TxOut>, collateralOk: bool)
      returns (ok: bool)
      modifies this
      ensures ok == EntryFits(old(Pool()), input, amount, collateralOk)
      ensures Pool() == WithEntry(old(Pool()), input, amount, collateral, output, collateralOk)
    {
      hide SameInput, HasInput;
      for i := 0 to |input|
        invariant Pool() == old(Pool())
        invariant forall j | 0 <= j < i :: !IsNull(input[j].prevout)
        invariant 0 < i ==> amount >= 0
      {
        if IsNull(input[i].prevout) || amount < 0 {
          sessionUsers := sessionUsers - 1;
          return false;
        }
      }
      if !collateralOk {
        sessionUsers := sessionUsers - 1;
        return false;
      }
      if |entries| >= MAX_TRANSACTIONS {
        sessionUsers := sessionUsers - 1;
        return false;
      }
      for i := 0 to |input|
        invariant Pool() == old(Pool())
        invariant forall j | 0 <= j < i :: !HasInput(entries, input[j])
      {
        var found := HasVin(input[i]);
        if found {
          sessionUsers := sessionUsers - 1;
          return false;
        }
      }
      if state == AcceptingEntries {
        assert EntryFits(old(Pool()), input, amount, collateralOk);
        entries := entries + [Entry(NewVins(input), amount, collateral, output)];
        return true;
      }
      sessionUsers := sessionUsers - 1;
      return false;
    }

    method HasScript(script: Script) returns (found: bool)
      ensures found == HasSig(entries, script)
    {
      for i := 0 to |entries|
        invariant forall k, j | 0 <= k < i && 0 <= j < |entries[k].sev| :: entries[k].sev[j].vin.scriptSig != script
      {
        for m := 0 to |entries[i].sev|
          invariant forall j | 0 <= j < m :: entries[i].sev[j].vin.scriptSig != script
        {
          if entries[i].sev[m].vin.scriptSig == script {
            return true;
          }
        }
      }
      return false;
    }

    /** Adds a signature to the final transaction and to the first entry that takes it. */
    method AddScriptSig(vin: TxIn, valid: bool) returns (ok: bool)
      modifies this`finalVin, this`entries
      ensures (ok, Pool()) == WithScriptSig(old(Pool()), vin, valid)
      ensures ok ==> state == Signing
    {
      hide HasSig, SignedSev;
      var known := HasScript(vin.scriptSig);
      if known || !valid {
        return false;
      }
      if state == Signing {
        SignFinalVins(vin);
        ok := SignEntries(vin);
        return;
      }
      return false;
    }

    method SignFinalVins(vin: TxIn)
      modifies this`finalVin
      ensures finalVin == SignedVins(old(finalVin), vin)
    {
      for i := 0 to |finalVin|
        invariant |finalVin| == |old(finalVin)|
        invariant forall j | 0 <= j < |finalVin| :: finalVin[j] == if j < i then SignedVins(old(finalVin), vin)[j]
            else old(finalVin)[j]
      {
        if Matches(vin, finalVin[i]) {
          finalVin := finalVin[i := WithSig(finalVin[i], vin)];
        }
      }
    }

    method SignEntries(vin: TxIn) returns (ok: bool)
      modifies this`entries
      ensures (ok, entries) == SignedEntries(old(entries), vin)
    {
      hide SignedSev, SignedEntries;
      for i := 0 to |entries|
        invariant entries == old(entries)
        invariant forall j | 0 <= j < i :: !SignedSev(entries[j].sev, vin).0
      {
        var took, sev := AddSig(entries[i].sev, vin);
        if took {
          FirstTaker(entries, vin, i);
          entries := entries[i := entries[i].(sev := sev)];
          return true;
        }
      }
      FirstTaker(entries, vin, |entries|);
      return false;
    }

    method SignaturesComplete() returns (ok: bool)
      ensures ok == AllSigned(Sevs(entries))
    {
      assert entries[0..] == entries;
      for i := 0 to |entries|
        invariant AllSigned(Sevs(entries)) == AllSigned(Sevs(entries[i..]))
      {
        ghost var rest := Sevs(entries[i + 1..]);
        assert entries[i..][1..] == entries[i + 1..];
        assert Sevs(entries[i..]) == entries[i].sev + rest;
        for j := 0 to |entries[i].sev|
          invariant forall k | 0 <= k < j :: entries[i].sev[k].isSigSet
        {
          if !entries[i].sev[j].isSigSet {
            assert !Sevs(entries[i..])[j].isSigSet;
            return false;
          }
        }
        SplitSigned(entries[i].sev, rest);
      }
      return true;
    }

    /** Check: fills in the final transaction, sends it when signed, starts over when done. */
    method Check(sending: Sending) returns (ghost order: seq<TxOut>)
      modifies this
      ensures Pool() == Checked(old(Pool()), order, sending)
    {
      hide AllSigned, Sevs, Vouts, Vins;
      order := [];
      if state == AcceptingEntries && |entries| >= MAX_TRANSACTIONS {
        UpdateState(FinalizeTransaction);
      }
      if state == FinalizeTransaction && finalVin == [] && finalVout == [] {
        UpdateState(Signing);
        var vin, vout := Collect();
        vout := RandomShuffle(vout);
        order := vout;
        if finalVin == [] {
          finalVin, finalVout := vin, vout;
        }
      }
      assert Pool() == Finalized(old(Pool()), order);
      Send(sending);
    }

    /** The second half of Check. */
    method Send(sending: Sending)
      modifies this
      ensures Pool() == Sent(old(Pool()), sending)
    {
      hide AllSigned, Sevs;
      var complete := SignaturesComplete();
      if state == Signing && complete {
        UpdateState(Transmission);
        if !sending.accepted {
          SetNull();
          UpdateState(AcceptingEntries);
          return;
        }
        if !sending.signed {
          return;
        }
      }
      if state == Transmission {
        SetNull();
      }
    }

    method Collect() returns (vin: seq<TxIn>, vout: seq<TxOut>)
      ensures vin == Vins(Sevs(entries)) && vout == Vouts(entries)
    {
      vin, vout := [], [];
      assert entries[0..] == entries && [] + Vouts(entries) == Vouts(entries)
        && [] + Vins(Sevs(entries)) == Vins(Sevs(entries));
      for i := 0 to |entries|
        invariant vout + Vouts(entries[i..]) == Vouts(entries)
        invariant vin + Vins(Sevs(entries[i..])) == Vins(Sevs(entries))
      {
        assert entries[i..][1..] == entries[i + 1..];
        VinsJoin(entries[i].sev, Sevs(entries[i + 1..]));
        vout := vout + entries[i].vout;
        vin := vin + Vins(entries[i].sev);
      }
    }

    method CheckTimeout(expired: nat -> bool, queueOver: bool, signingOver: bool)
      modifies this
      ensures Pool() == TimedOut(old(Pool()), expired, queueOver, signingOver)
    {
      if state == Queue && sessionUsers == MAX_TRANSACTIONS {
        UpdateState(AcceptingEntries);
      }
      if state == AcceptingEntries || state == Queue {
        EraseExpired(expired);
        if queueOver {
          sessionUsers := 0;
          sessionDenom := 0;
          collaterals := [];
          UpdateState(AcceptingEntries);
        }
      } else if queueOver {
        SetNull();
        UpdateState(Error);
      }
      if state == Signing && signingOver {
        SetNull();
        UpdateState(Error);
      }
    }

    /** Erases the first expired entry; without entries the session starts over. */
    method EraseExpired(expired: nat -> bool)
      modifies this
      ensures Pool() == WithoutExpired(old(Pool()), FirstExpired(|old(entries)|, expired, 0))
    {
      for i := 0 to |entries|
        invariant Pool() == old(Pool())
        invariant FirstExpired(|entries|, expired, 0) == FirstExpired(|entries|, expired, i)
      {
        if expired(i) {
          entries := entries[..i] + entries[i + 1..];
          if |entries| == 0 {
            SetNull();
          }
          return;
        }
      }
    }

    // ----- messages -----

    /** dsa. */
    method Dsa(denom: int, collateral: nat, allowed: bool, collateralOk: bool)
      modifies this
      ensures Pool() == After(old(Pool()), Join(denom, collateral, allowed, collateralOk))
    {
      hide Joined;
      if allowed {
        var ok := IsCompatibleWithSession(denom, collateral, collateralOk);
      }
    }

    /** dsi. */
    method Dsi(input: seq<TxIn>, amount: int, collateral: nat, output: seq<TxOut>, valid: bool, collateralOk: bool,
               sending: Sending) returns (ghost order: seq<TxOut>)
      modifies this
      ensures Pool() == After(old(Pool()), Submit(input, amount, collateral, output, valid, collateralOk, order,
                                                  sending))
    {
      hide WithEntry, Checked, EntryFits, Compatible;
      order := [];
      if sessionUsers < MAX_TRANSACTIONS {
        return;
      }
      var compatible := IsCompatibleWithEntries(output);
      if !compatible || !valid {
        return;
      }
      var ok := AddEntry(input, amount, collateral, output, collateralOk);
      if ok {
        order := Check(sending);
      }
    }

    /** dss. */
    method Dss(sigs: seq<Offer>, sending: Sending)
      modifies this
      ensures Pool() == After(old(Pool()), Sign(sigs, sending))
    {
      hide WithScriptSig, Sent, AllSigned, Sevs;
      ghost var was := Pool();
      var success := false;
      assert sigs[0..] == sigs;
      for i := 0 to |sigs|
        invariant WithSigs(was, sigs) == (success || WithSigs(Pool(), sigs[i..]).0, WithSigs(Pool(), sigs[i..]).1)
        invariant success ==> state == Signing
      {
        assert sigs[i..][1..] == sigs[i + 1..];
        var ok := AddScriptSig(sigs[i].vin, sigs[i].valid);
        if ok {
          success := true;
        }
      }
      if success {
        ghost var order := Check(sending);
      }
    }

    /** The invariant holds before and after every message and timer. */
    method Handle(e: Event, ghost events: seq<Event>) returns (ghost done: Event)
      requires Pool() == Run(events)
      modifies this
      ensures Pool() == Run(events + [done]) && Inv(Pool(), Log(events + [done]))
      ensures if e.Submit? then done.Submit? && done == e.(order := done.order) else done == e
    {
      hide Inv, Log;
      done := e;
      match e {
        case Join(denom, collateral, allowed, collateralOk) => Dsa(denom, collateral, allowed, collateralOk);
        case Submit(input, amount, collateral, output, valid, collateralOk, order, sending) =>
          var o := Dsi(input, amount, collateral, output, valid, collateralOk, sending);
          done := e.(order := o);
        case Sign(sigs, sending) => Dss(sigs, sending);
        case Tick(expired, queueOver, signingOver) => CheckTimeout(expired, queueOver, signingOver);
        case Reset => SetNull();
      }
      assert (events + [done])[..|events|] == events;
      RunKeeps(events + [done]);
    }
  }

  lemma SplitSigned(a: seq<EntryVin>, b: seq<EntryVin>)
    requires AllSigned(a)
    ensures AllSigned(a + b) == AllSigned(b)
  {
    if AllSigned(a + b) {
      forall i | 0 <= i < |b|
        ensures b[i].isSigSet
      {
        assert (a + b)[|a| + i] == b[i];
      }
    }
  }

  lemma VinsJoin(a: seq<EntryVin>, b: seq<EntryVin>)
    ensures Vins(a + b) == Vins(a) + Vins(b)
  {
  }
}
