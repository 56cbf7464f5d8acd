/** Network alerts: under a clock that never goes back, no alert ever held cancels another held alert. */
module Alerts {
  import Ordered

  const MAX_INT: int := 0x7FFF_FFFF

  /** `hash` identifies the signed message; `urgent` says whether the status text is the key-compromise warning. */
  datatype Alert = Alert(hash: int, nID: int, nCancel: int, setCancel: set<int>, nExpiration: int, nMinVer: int,
                         nMaxVer: int, anySubVer: bool, nPriority: int, urgent: bool)

  predicate InEffectAt(a: Alert, time: int) {
    time < a.nExpiration
  }

  /** The alerts that `a` cancels while it is in effect. */
  predicate Covers(a: Alert, b: Alert) {
    b.nID <= a.nCancel || b.nID in a.setCancel
  }

  predicate CancelsAt(a: Alert, b: Alert, time: int) {
    InEffectAt(a, time) && Covers(a, b)
  }

  /** An alert with the reserved id must be the predefined one. */
  predicate WellFormed(a: Alert) {
    a.nID == MAX_INT ==>
      a.nExpiration == MAX_INT && a.nCancel == MAX_INT - 1 && a.nMinVer == 0 && a.nMaxVer == MAX_INT && a.anySubVer
      && a.nPriority == MAX_INT && a.urgent
  }

  lemma EffectIs(a: Alert, time: int)
    ensures InEffectAt(a, time) <==> time < a.nExpiration
  {
  }

  lemma CancelsIs(a: Alert, b: Alert, time: int)
    ensures CancelsAt(a, b, time) <==> time < a.nExpiration && (b.nID <= a.nCancel || b.nID in a.setCancel)
  {
  }

  /** The alert with the reserved id never expires before the end of time, cancels every other one, and is cancelled by
      none with a smaller bound. */
  lemma ReservedCancelsAll(a: Alert, b: Alert, time: int)
    requires a.nID == MAX_INT && WellFormed(a) && time < MAX_INT && b.nID < MAX_INT
    ensures CancelsAt(a, b, time)
    ensures b.nCancel < MAX_INT && MAX_INT !in b.setCancel ==> !CancelsAt(b, a, time)
  {
  }

  type Held = map<int, Alert>

  /** No held alert cancels another one at this time. */
  predicate Peaceful(held: Held, time: int) {
    forall h, k | h in held && k in held && h != k :: !CancelsAt(held[h], held[k], time)
  }

  lemma PeaceLasts(held: Held, time: int, later: int)
    requires Peaceful(held, time) && time <= later
    ensures Peaceful(held, later)
  {
  }

  lemma PeaceWithout(held: Held, h: int, time: int)
    requires Peaceful(held, time)
    ensures Peaceful(held - {h}, time)
  {
  }

  lemma PeaceWith(held: Held, a: Alert, time: int)
    requires Peaceful(held, time)
    requires forall k | k in held :: !CancelsAt(a, held[k], time) && !CancelsAt(held[k], a, time)
    ensures Peaceful(held[a.hash := a], time)
  {
  }

  /** What the first loop leaves: only alerts that the new one covers, or that have expired, are gone. */
  predicate Thinned(was: Held, held: Held, a: Alert, time: int) {
    && held.Keys <= was.Keys
    && (forall h | h in held :: held[h] == was[h])
    && (forall h | h in was && h !in held :: Covers(a, was[h]) || !InEffectAt(was[h], time))
  }

  /** The new alert cancels none of the held ones outside `todo`. */
  predicate SparesAll(a: Alert, held: Held, todo: set<int>, time: int) {
    forall h | h in held && h !in todo :: !CancelsAt(a, held[h], time)
  }

  /** None of the held alerts outside `todo` cancels the new one. */
  predicate SparedByAll(a: Alert, held: Held, todo: set<int>, time: int) {
    forall h | h in held && h !in todo :: !CancelsAt(held[h], a, time)
  }

  predicate Filed(held: Held) {
    forall h | h in held :: held[h].hash == h && WellFormed(held[h])
  }

  /** A call thins the held alerts, and an accepted alert is then held unless its hash already was. */
  ghost predicate Outcome(was: Held, held: Held, a: Alert, ok: bool, time: int) {
    exists kept: Held :: Thinned(was, kept, a, time)
      && held == (if ok && a.hash !in kept then kept[a.hash := a] else kept)
  }

  lemma TimePasses(was: Held, held: Held, a: Alert, todo: set<int>, time: int, later: int)
    requires time <= later
    ensures Peaceful(held, time) ==> Peaceful(held, later)
    ensures Thinned(was, held, a, time) ==> Thinned(was, held, a, later)
    ensures SparesAll(a, held, todo, time) ==> SparesAll(a, held, todo, later)
    ensures SparedByAll(a, held, todo, time) ==> SparedByAll(a, held, todo, later)
  {
  }

  lemma Erase(was: Held, held: Held, a: Alert, todo: set<int>, h: int, time: int)
    requires Thinned(was, held, a, time) && SparesAll(a, held, todo + {h}, time) && h in held
    requires CancelsAt(a, held[h], time) || !InEffectAt(held[h], time)
    requires Filed(held)
    ensures Thinned(was, held - {h}, a, time) && SparesAll(a, held - {h}, todo, time) && Filed(held - {h})
  {
  }

  lemma Keep(a: Alert, held: Held, todo: set<int>, h: int, time: int)
    requires h in held
    ensures SparesAll(a, held, todo + {h}, time) && !CancelsAt(a, held[h], time) ==> SparesAll(a, held, todo, time)
    ensures SparedByAll(a, held, todo + {h}, time) && !CancelsAt(held[h], a, time) ==> SparedByAll(a, held, todo, time)
  {
  }

  lemma Begin(a: Alert, held: Held, time: int)
    ensures Thinned(held, held, a, time) && SparesAll(a, held, held.Keys, time) && SparedByAll(a, held, held.Keys, time)
  {
  }

  lemma SparedBoth(a: Alert, held: Held, h: int, time: int)
    requires SparesAll(a, held, {}, time) && SparedByAll(a, held, {}, time) && h in held
    ensures !CancelsAt(a, held[h], time) && !CancelsAt(held[h], a, time)
  {
  }

  lemma Insert(held: Held, a: Alert, time: int)
    requires Peaceful(held, time) && Filed(held) && WellFormed(a)
    requires SparesAll(a, held, {}, time) && SparedByAll(a, held, {}, time)
    ensures Peaceful(held[a.hash := a], time) && Filed(held[a.hash := a])
  {
    hide WellFormed, Covers;
    PeaceWith(held, a, time);
  }

  class AlertMap {
    var mapAlerts: Held
    /** The latest reading of the adjusted clock. */
    var now: int

    ghost predicate Valid()
      reads this
    {
      Peaceful(mapAlerts, now) && Filed(mapAlerts)
    }

    constructor (time: int)
      ensures Valid() && mapAlerts == map[] && now == time
    {
      mapAlerts := map[];
      now := time;
    }

    /** A reading of the clock: any time not before the last one. */
    method GetAdjustedTime() returns (t: int)
      modifies this`now
      ensures old(now) <= t == now
    {
      t :| now <= t;
      now := t;
    }

    method IsInEffect(a: Alert) returns (b: bool)
      modifies this`now
      ensures old(now) <= now && b == InEffectAt(a, now)
    {
      var t := GetAdjustedTime();
      b := t < a.nExpiration;
    }

    method Cancels(a: Alert, other: Alert) returns (b: bool)
      modifies this`now
      ensures old(now) <= now && b == CancelsAt(a, other, now)
    {
      var inEffect := IsInEffect(a);
      if !inEffect {
        return false;
      }
      return other.nID <= a.nCancel || other.nID in a.setCancel;
    }

    /** The first loop: cancelled and expired alerts are erased. */
    method EraseCancelled(a: Alert)
      requires Valid()
      modifies this
      ensures Valid() && old(now) <= now
      ensures Thinned(old(mapAlerts), mapAlerts, a, now) && SparesAll(a, mapAlerts, {}, now)
      ensures forall h | h in mapAlerts :: old(now) < mapAlerts[h].nExpiration
    {
      hide Peaceful, Filed, Thinned, SparesAll, CancelsAt, InEffectAt;
      ghost var was := mapAlerts;
      Begin(a, mapAlerts, now);
      var todo := mapAlerts.Keys;
      while todo != {}
        invariant Valid() && old(now) <= now && todo <= mapAlerts.Keys
        invariant Thinned(was, mapAlerts, a, now) && SparesAll(a, mapAlerts, todo, now)
        invariant forall h | h in mapAlerts && h !in todo :: old(now) < mapAlerts[h].nExpiration
        decreases |todo|
      {
        var h := Ordered.Least(todo);
        ghost var all := todo;
        todo := todo - {h};
        assert todo + {h} == all;
        ghost var before := now;
        var cancels := Cancels(a, mapAlerts[h]);
        TimePasses(was, mapAlerts, a, all, before, now);
        if cancels {
          Erase(was, mapAlerts, a, todo, h, now);
          PeaceWithout(mapAlerts, h, now);
          mapAlerts := mapAlerts - {h};
        } else {
          Keep(a, mapAlerts, todo, h, now);
          before := now;
          var inEffect := IsInEffect(mapAlerts[h]);
          TimePasses(was, mapAlerts, a, todo, before, now);
          TimePasses(was, mapAlerts, a, all, before, now);
          assert inEffect ==> now < mapAlerts[h].nExpiration by { EffectIs(mapAlerts[h], now); }
          if !inEffect {
            Erase(was, mapAlerts, a, todo, h, now);
            PeaceWithout(mapAlerts, h, now);
            mapAlerts := mapAlerts - {h};
          }
        }
      }
    }

    /** The second loop: whether a held alert cancels the new one. */
    method IsCancelled(a: Alert) returns (cancelled: bool)
      requires Valid() && SparesAll(a, mapAlerts, {}, now)
      modifies this`now
      ensures Valid() && old(now) <= now && SparesAll(a, mapAlerts, {}, now)
      ensures !cancelled ==> SparedByAll(a, mapAlerts, {}, now)
      ensures cancelled ==> exists h | h in mapAlerts ::
        now < mapAlerts[h].nExpiration && (a.nID <= mapAlerts[h].nCancel || a.nID in mapAlerts[h].setCancel)
    {
      hide Peaceful, Filed, SparesAll, SparedByAll, CancelsAt;
      Begin(a, mapAlerts, now);
      var todo := mapAlerts.Keys;
      while todo != {}
        invariant Valid() && old(now) <= now && todo <= mapAlerts.Keys
        invariant SparesAll(a, mapAlerts, {}, now) && SparedByAll(a, mapAlerts, todo, now)
        decreases |todo|
      {
        var h := Ordered.Least(todo);
        ghost var all := todo;
        todo := todo - {h};
        assert todo + {h} == all;
        ghost var before := now;
        var cancels := Cancels(mapAlerts[h], a);
        TimePasses(mapAlerts, mapAlerts, a, all, before, now);
        TimePasses(mapAlerts, mapAlerts, a, {}, before, now);
        if cancels {
          CancelsIs(mapAlerts[h], a, now);
          return true;
        }
        Keep(a, mapAlerts, todo, h, now);
      }
      return false;
    }

    /** ProcessAlert. A call that is rejected because a held alert cancels the new one has already erased others. A good
        alert in effect is refused exactly then, and once taken it leaves no other held alert that it cancels. */
    method ProcessAlert(a: Alert, signatureOk: bool) returns (ok: bool)
      requires Valid()
      modifies this
      ensures Valid() && old(now) <= now
      ensures ok ==> signatureOk && WellFormed(a) && a.hash in mapAlerts && old(now) < a.nExpiration
      ensures a.nExpiration <= old(now) ==> mapAlerts == old(mapAlerts)
      ensures ok && a.hash !in old(mapAlerts) ==> mapAlerts[a.hash] == a
      ensures signatureOk && WellFormed(a) && now < a.nExpiration && !ok ==> exists h | h in mapAlerts ::
        now < mapAlerts[h].nExpiration && (a.nID <= mapAlerts[h].nCancel || a.nID in mapAlerts[h].setCancel)
      ensures ok ==> forall h | h in mapAlerts && h != a.hash && now < mapAlerts[h].nExpiration ::
        a.nID > mapAlerts[h].nCancel && a.nID !in mapAlerts[h].setCancel
      ensures ok && now < a.nExpiration ==> forall h | h in mapAlerts && h != a.hash ::
        mapAlerts[h].nID > a.nCancel && mapAlerts[h].nID !in a.setCancel
      ensures signatureOk && WellFormed(a) && now < a.nExpiration ==>
        forall h | h in mapAlerts :: old(now) < mapAlerts[h].nExpiration
      ensures !signatureOk || !WellFormed(a) ==> mapAlerts == old(mapAlerts)
      ensures Outcome(old(mapAlerts), mapAlerts, a, ok, now)
    {
      hide Peaceful, Filed, Thinned, SparesAll, SparedByAll, CancelsAt;
      Begin(a, mapAlerts, now);
      if !signatureOk {
        return false;
      }
      ghost var before := now;
      var inEffect := IsInEffect(a);
      TimePasses(mapAlerts, mapAlerts, a, {}, before, now);
      if !inEffect {
        return false;
      }
      if a.nID == MAX_INT {
        if !(a.nExpiration == MAX_INT && a.nCancel == MAX_INT - 1 && a.nMinVer == 0 && a.nMaxVer == MAX_INT
             && a.anySubVer && a.nPriority == MAX_INT && a.urgent) {
          return false;
        }
      }
      hide WellFormed, InEffectAt;
      EraseCancelled(a);
      ghost var kept := mapAlerts;
      before := now;
      var cancelled := IsCancelled(a);
      TimePasses(old(mapAlerts), kept, a, {}, before, now);
      if cancelled {
        return false;
      }
      forall h | h in mapAlerts
        ensures now < a.nExpiration ==> mapAlerts[h].nID > a.nCancel && mapAlerts[h].nID !in a.setCancel
        ensures now < mapAlerts[h].nExpiration ==> a.nID > mapAlerts[h].nCancel && a.nID !in mapAlerts[h].setCancel
      {
        CancelsIs(a, mapAlerts[h], now);
        CancelsIs(mapAlerts[h], a, now);
        SparedBoth(a, mapAlerts, h, now);
      }
      if a.hash !in mapAlerts {
        Insert(mapAlerts, a, now);
        mapAlerts := mapAlerts[a.hash := a];
      }
      ok := true;
    }

    /** Any sequence of alerts, accepted or not. */
    method Run(alerts: seq<(Alert, bool)>)
      requires Valid()
      modifies this
      ensures Valid() && old(now) <= now
    {
      for i := 0 to |alerts|
        invariant Valid() && old(now) <= now
      {
        var ok := ProcessAlert(alerts[i].0, alerts[i].1);
      }
    }
  }
}
