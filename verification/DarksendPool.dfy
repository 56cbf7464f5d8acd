/** A masternode's mixing session as values: its state, what each event does to it, and the invariant of every run. */
module DarksendPool {

  type Script = seq<nat>

  datatype OutPoint = OutPoint(hash: nat, n: nat)

  datatype TxIn = TxIn(prevout: OutPoint, scriptSig: Script, prevPubKey: Script, nSequence: nat)

  datatype TxOut = TxOut(nValue: int, scriptPubKey: Script)

  datatype EntryVin = EntryVin(vin: TxIn, isSigSet: bool)

  /** A client's entry; `collateral` stands for its collateral transaction. */
  datatype Entry = Entry(sev: seq<EntryVin>, amount: int, collateral: nat, vout: seq<TxOut>)

  datatype Status = Queue | AcceptingEntries | FinalizeTransaction | Signing | Transmission | Error | Success

  const MAX_TRANSACTIONS: int := 3

  datatype Pool = Pool(state: Status, entries: seq<Entry>, finalVin: seq<TxIn>, finalVout: seq<TxOut>,
                       sessionUsers: int, sessionDenom: int, collaterals: seq<nat>)

  predicate IsNull(p: OutPoint) { p.hash == 0 && p.n == 0xFFFF_FFFF }

  /** Equality of inputs leaves `prevPubKey` out. */
  predicate SameInput(a: TxIn, b: TxIn) {
    a.prevout == b.prevout && a.scriptSig == b.scriptSig && a.nSequence == b.nSequence
  }

  // ----- denominations -----

  /** 100000 down to 0.1 coins, each with its thousandth added; a coin is 10^8. */
  const DENOMINATIONS: seq<int> := [
    10_000_100_000_000, 1_000_010_000_000, 100_001_000_000, 10_000_100_000, 1_000_010_000, 100_001_000, 10_000_100]

  predicate Uses(vout: seq<TxOut>, value: int) {
    exists i | 0 <= i < |vout| :: vout[i].nValue == value
  }

  predicate Denominated(value: int) {
    exists k | 0 <= k < |DENOMINATIONS| :: DENOMINATIONS[k] == value
  }

  /** Bit `k` for denomination `k`, from bit `k` up. */
  function MaskFrom(vout: seq<TxOut>, k: nat): (m: nat)
    requires k <= 7
    decreases 7 - k
  {
    if k == 7 then 0 else (if Uses(vout, DENOMINATIONS[k]) then 1 else 0) + 2 * MaskFrom(vout, k + 1)
  }

  /** The denominations that the outputs use, or 0 when some output is not a denomination. */
  function Denominations(vout: seq<TxOut>): nat {
    if forall i | 0 <= i < |vout| :: Denominated(vout[i].nValue) then MaskFrom(vout, 0) else 0
  }

  // ----- what events do -----

  /** SetNull. */
  function Cleared(p: Pool): Pool {
    Pool(AcceptingEntries, [], [], [], 0, 0, [])
  }

  /** UpdateState on a masternode ignores ERROR and SUCCESS. */
  function InState(p: Pool, s: Status): Pool {
    if s == Error || s == Success then p else p.(state := s)
  }

  /** IsCompatibleWithSession: whether a client may join, and the pool after it did or did not. */
  function Joined(p: Pool, denom: int, collateral: nat, collateralOk: bool): (r: (bool, Pool)) {
    if !collateralOk then (false, p) else
    var users := if p.sessionUsers < 0 then 0 else p.sessionUsers;
    if users == 0 then
      (true, p.(sessionDenom := denom, sessionUsers := 1, entries := [], state := Queue,
                collaterals := p.collaterals + [collateral]))
    else if (p.state != AcceptingEntries && p.state != Queue)
      || users >= MAX_TRANSACTIONS || denom != p.sessionDenom then
      (false, p)
    else
      (true, p.(sessionUsers := users + 1, collaterals := p.collaterals + [collateral]))
  }

  function NewVins(input: seq<TxIn>): seq<EntryVin> {
    seq(|input|, i requires 0 <= i < |input| => EntryVin(input[i], false))
  }

  predicate HasInput(entries: seq<Entry>, vin: TxIn) {
    exists i, j | 0 <= i < |entries| && 0 <= j < |entries[i].sev| :: SameInput(entries[i].sev[j].vin, vin)
  }

  predicate EntryFits(p: Pool, input: seq<TxIn>, amount: int, collateralOk: bool) {
    && (forall i | 0 <= i < |input| :: !IsNull(input[i].prevout))
    && (input == [] || amount >= 0)
    && collateralOk
    && |p.entries| < MAX_TRANSACTIONS
    && (forall i | 0 <= i < |input| :: !HasInput(p.entries, input[i]))
    && p.state == AcceptingEntries
  }

  /** AddEntry: every refusal costs the session a user. */
  function WithEntry(p: Pool, input: seq<TxIn>, amount: int, collateral: nat, output: seq<TxOut>,
                     collateralOk: bool): Pool {
    if EntryFits(p, input, amount, collateralOk) then
      p.(entries := p.entries + [Entry(NewVins(input), amount, collateral, output)])
    else
      p.(sessionUsers := p.sessionUsers - 1)
  }

  predicate Compatible(entries: seq<Entry>, output: seq<TxOut>) {
    forall i | 0 <= i < |entries| :: Denominations(output) == Denominations(entries[i].vout)
  }

  predicate Matches(a: TxIn, b: TxIn) {
    a.prevout == b.prevout && a.nSequence == b.nSequence
  }

  function WithSig(s: TxIn, vin: TxIn): TxIn {
    s.(scriptSig := vin.scriptSig, prevPubKey := vin.prevPubKey)
  }

  /** CDarkSendEntry::AddSig: the first matching input decides. */
  function SignedSev(sev: seq<EntryVin>, vin: TxIn): (r: (bool, seq<EntryVin>))
    ensures |r.1| == |sev|
  {
    if sev == [] then (false, sev)
    else if Matches(sev[0].vin, vin) then
      if sev[0].isSigSet then (false, sev)
      else (true, [EntryVin(WithSig(sev[0].vin, vin), true)] + sev[1..])
    else
      var (ok, rest) := SignedSev(sev[1..], vin);
      (ok, [sev[0]] + rest)
  }

  /** The first entry that takes the signature. */
  function SignedEntries(entries: seq<Entry>, vin: TxIn): (r: (bool, seq<Entry>))
    ensures |r.1| == |entries|
  {
    if entries == [] then (false, entries)
    else
      var (ok, sev) := SignedSev(entries[0].sev, vin);
      if ok then (true, [entries[0].(sev := sev)] + entries[1..])
      else
        var (okRest, rest) := SignedEntries(entries[1..], vin);
        (okRest, [entries[0]] + rest)
  }

  function SignedVins(vins: seq<TxIn>, vin: TxIn): (r: seq<TxIn>)
    ensures |r| == |vins|
  {
    seq(|vins|, i requires 0 <= i < |vins| => if Matches(vins[i], vin) then WithSig(vins[i], vin) else vins[i])
  }

  predicate HasSig(entries: seq<Entry>, script: Script) {
    exists i, j | 0 <= i < |entries| && 0 <= j < |entries[i].sev| :: entries[i].sev[j].vin.scriptSig == script
  }

  predicate SigUsable(p: Pool, vin: TxIn, valid: bool) {
    !HasSig(p.entries, vin.scriptSig) && valid && p.state == Signing
  }

  /** AddScriptSig: whether an entry took the signature, and the pool after it. */
  function WithScriptSig(p: Pool, vin: TxIn, valid: bool): (bool, Pool) {
    if SigUsable(p, vin, valid) then
      var (ok, entries) := SignedEntries(p.entries, vin);
      (ok, p.(finalVin := SignedVins(p.finalVin, vin), entries := entries))
    else (false, p)
  }

  function Sevs(entries: seq<Entry>): seq<EntryVin> {
    if entries == [] then [] else entries[0].sev + Sevs(entries[1..])
  }

  function Vins(sevs: seq<EntryVin>): (v: seq<TxIn>)
    ensures |v| == |sevs|
  {
    seq(|sevs|, i requires 0 <= i < |sevs| => sevs[i].vin)
  }

  function Vouts(entries: seq<Entry>): seq<TxOut> {
    if entries == [] then [] else entries[0].vout + Vouts(entries[1..])
  }

  predicate AllSigned(sevs: seq<EntryVin>) {
    forall i | 0 <= i < |sevs| :: sevs[i].isSigSet
  }

  /** What the wallet and the signer answer while a finished transaction is sent. */
  datatype Sending = Sending(accepted: bool, signed: bool)

  /** The outputs after the shuffle: any order of them. */
  function Shuffled(vout: seq<TxOut>, order: seq<TxOut>): (r: seq<TxOut>)
    ensures multiset(r) == multiset(vout)
  {
    if multiset(order) == multiset(vout) then order else vout
  }

  function Finalized(p: Pool, order: seq<TxOut>): Pool {
    if p.state == AcceptingEntries && |p.entries| >= MAX_TRANSACTIONS && p.finalVin == [] && p.finalVout == [] then
      p.(state := Signing, finalVin := Vins(Sevs(p.entries)), finalVout := Shuffled(Vouts(p.entries), order))
    else if p.state == AcceptingEntries && |p.entries| >= MAX_TRANSACTIONS then
      p.(state := FinalizeTransaction)
    else if p.state == FinalizeTransaction && p.finalVin == [] && p.finalVout == [] then
      p.(state := Signing, finalVin := Vins(Sevs(p.entries)), finalVout := Shuffled(Vouts(p.entries), order))
    else p
  }

  function Sent(p: Pool, sending: Sending): Pool {
    if p.state == Signing && AllSigned(Sevs(p.entries)) then
      if !sending.accepted then Cleared(p)
      else if !sending.signed then p.(state := Transmission)
      else Cleared(p)
    else if p.state == Transmission then Cleared(p)
    else p
  }

  /** Check. */
  function Checked(p: Pool, order: seq<TxOut>, sending: Sending): Pool {
    Sent(Finalized(p, order), sending)
  }

  /** The first entry from `i` on that has expired, or `n` if none of the `n` entries has. */
  function FirstExpired(n: nat, expired: nat -> bool, i: nat): (k: nat)
    requires i <= n
    ensures i <= k <= n && (k < n ==> expired(k)) && forall j | i <= j < k :: !expired(j)
    decreases n - i
  {
    if i == n || expired(i) then i else FirstExpired(n, expired, i + 1)
  }

  /** Entry `k` is erased; without entries the session starts over. */
  function WithoutExpired(p: Pool, k: nat): Pool {
    if k >= |p.entries| then p
    else if |p.entries| == 1 then Cleared(p)
    else p.(entries := p.entries[..k] + p.entries[k + 1..])
  }

  /** CheckTimeout; the flags say whether the queue time and the signing time have run out. */
  function TimedOut(p: Pool, expired: nat -> bool, queueOver: bool, signingOver: bool): Pool {
    var p := if p.state == Queue && p.sessionUsers == MAX_TRANSACTIONS then p.(state := AcceptingEntries) else p;
    if p.state == AcceptingEntries || p.state == Queue then
      var q := WithoutExpired(p, FirstExpired(|p.entries|, expired, 0));
      if queueOver then q.(sessionUsers := 0, sessionDenom := 0, collaterals := [], state := AcceptingEntries) else q
    else if queueOver then Cleared(p)
    else if p.state == Signing && signingOver then Cleared(p)
    else p
  }

  // ----- runs -----

  /** A signature and the verdict on it. */
  datatype Offer = Offer(vin: TxIn, valid: bool)

  datatype Event =
    /** dsa; `allowed` covers version, masternode list and queue spacing */
    | Join(denom: int, collateral: nat, allowed: bool, collateralOk: bool)
    /** dsi; `valid` covers scripts, amounts, fees and inputs */
    | Submit(input: seq<TxIn>, amount: int, collateral: nat, output: seq<TxOut>, valid: bool, collateralOk: bool,
             order: seq<TxOut>, sending: Sending)
    /** dss */
    | Sign(sigs: seq<Offer>, sending: Sending)
    | Tick(expired: nat -> bool, queueOver: bool, signingOver: bool)
    | Reset

  function WithSigs(p: Pool, sigs: seq<Offer>): (bool, Pool)
    decreases |sigs|
  {
    if sigs == [] then (false, p) else
    var (ok, q) := WithScriptSig(p, sigs[0].vin, sigs[0].valid);
    var (okRest, r) := WithSigs(q, sigs[1..]);
    (ok || okRest, r)
  }

  function After(p: Pool, e: Event): Pool {
    match e
    case Join(denom, collateral, allowed, collateralOk) =>
      if allowed then Joined(p, denom, collateral, collateralOk).1 else p
    case Submit(input, amount, collateral, output, valid, collateralOk, order, sending) =>
      if p.sessionUsers >= MAX_TRANSACTIONS && Compatible(p.entries, output) && valid then
        var q := WithEntry(p, input, amount, collateral, output, collateralOk);
        if EntryFits(p, input, amount, collateralOk) then Checked(q, order, sending) else q
      else p
    case Sign(sigs, sending) =>
      var (ok, q) := WithSigs(p, sigs);
      if ok then Checked(q, [], sending) else q
    case Tick(expired, queueOver, signingOver) => TimedOut(p, expired, queueOver, signingOver)
    case Reset => Cleared(p)
  }

  function Run(events: seq<Event>): Pool {
    if events == [] then Pool(AcceptingEntries, [], [], [], 0, 0, [])
    else After(Run(events[..|events| - 1]), events[|events| - 1])
  }
}
