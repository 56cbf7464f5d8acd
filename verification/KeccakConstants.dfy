/** The constants of the permutation, checked against the way FIPS 202 derives them. */
module KeccakConstants {
  import opened BitNumbers
  import opened KeccakPlain

  // ----- rotation offsets: Algorithm 2 of section 3.2.2 -----

  /** The lane visited at step `t` of the walk. */
  function Walk(t: nat): (p: (nat, nat))
    ensures p.0 < 5 && p.1 < 5
  {
    if t == 0 then (1, 0) else
    var (x, y) := Walk(t - 1);
    (y, (2 * x + 3 * y) % 5)
  }

  /** The step at which the walk visits a lane. */
  function VisitTime(i: nat): (t: nat)
    requires 0 < i < 25
    ensures t < 24
  {
    match i
    case 1 => 0 case 2 => 18 case 3 => 6 case 4 => 12 case 5 => 7 case 6 => 23
    case 7 => 2 case 8 => 9 case 9 => 22 case 10 => 1 case 11 => 3 case 12 => 17
    case 13 => 16 case 14 => 20 case 15 => 13 case 16 => 8 case 17 => 4 case 18 => 5
    case 19 => 15 case 20 => 19 case 21 => 10 case 22 => 21 case 23 => 14 case 24 => 11
  }

  lemma {:induction false} WalkVisits(t: nat)
    requires t < 24
    ensures Walk(t).0 + 5 * Walk(t).1 > 0 && VisitTime(Walk(t).0 + 5 * Walk(t).1) == t
  {
    hide VisitTime;
    WalkTable(t);
    VisitTable(t);
  }

  function Visited(t: nat): (nat, nat)
    requires t < 24
  {
    match t
    case 0 => (1, 0) case 1 => (0, 2) case 2 => (2, 1) case 3 => (1, 2) case 4 => (2, 3) case 5 => (3, 3)
    case 6 => (3, 0) case 7 => (0, 1) case 8 => (1, 3) case 9 => (3, 1) case 10 => (1, 4) case 11 => (4, 4)
    case 12 => (4, 0) case 13 => (0, 3) case 14 => (3, 4) case 15 => (4, 3) case 16 => (3, 2) case 17 => (2, 2)
    case 18 => (2, 0) case 19 => (0, 4) case 20 => (4, 2) case 21 => (2, 4) case 22 => (4, 1) case 23 => (1, 1)
  }

  lemma VisitTable(t: nat)
    requires t < 24
    ensures Visited(t).0 + 5 * Visited(t).1 > 0
    ensures Visited(t).0 + 5 * Visited(t).1 < 25
    ensures VisitTime(Visited(t).0 + 5 * Visited(t).1) == t
  {
  }

  lemma VisitStart()
    ensures Visited(0) == (1, 0)
  {
  }

  lemma VisitNext(t: nat)
    requires t < 23
    ensures Visited(t + 1) == (Visited(t).1, (2 * Visited(t).0 + 3 * Visited(t).1) % 5)
  {
    match t {
      case 0 => case 1 => case 2 => case 3 => case 4 => case 5 => case 6 => case 7 => case 8 => case 9 =>
      case 10 => case 11 => case 12 => case 13 => case 14 => case 15 => case 16 => case 17 => case 18 => case 19 =>
      case 20 => case 21 => case 22 =>
    }
  }

  lemma {:induction false} WalkTable(t: nat)
    requires t < 24
    ensures Walk(t) == Visited(t)
  {
    hide Visited;
    if t == 0 {
      VisitStart();
    } else {
      WalkTable(t - 1);
      VisitNext(t - 1);
    }
  }

  lemma FirstTriangles(i: nat)
    requires 1 <= i < 13
    ensures Offset(i) == ((VisitTime(i) + 1) * (VisitTime(i) + 2) / 2) % 64
    ensures Visited(VisitTime(i)) == (i % 5, i / 5)
  {
    match i {
      case 1 => case 2 => case 3 => case 4 => case 5 => case 6 => case 7 => case 8 => case 9 => case 10 =>
      case 11 => case 12 =>
    }
  }

  lemma LastTriangles(i: nat)
    requires 13 <= i < 25
    ensures Offset(i) == ((VisitTime(i) + 1) * (VisitTime(i) + 2) / 2) % 64
    ensures Visited(VisitTime(i)) == (i % 5, i / 5)
  {
    match i {
      case 13 => case 14 => case 15 => case 16 => case 17 => case 18 => case 19 => case 20 => case 21 =>
      case 22 => case 23 => case 24 =>
    }
  }

  /** Every lane but the first is visited once, and its offset is the triangular number of that step. */
  lemma OffsetsFollowTheWalk(i: nat)
    requires 0 < i < 25
    ensures Walk(VisitTime(i)) == (i % 5, i / 5)
    ensures Offset(i) == ((VisitTime(i) + 1) * (VisitTime(i) + 2) / 2) % 64
    ensures forall t | 0 <= t < 24 && Walk(t) == (i % 5, i / 5) :: t == VisitTime(i)
  {
    hide VisitTime, Visited, Offset;
    if i < 13 {
      FirstTriangles(i);
    } else {
      LastTriangles(i);
    }
    WalkTable(VisitTime(i));
    forall t | 0 <= t < 24 && Walk(t) == (i % 5, i / 5)
      ensures t == VisitTime(i)
    {
      WalkVisits(t);
    }
  }

  // ----- round constants: Algorithms 5 and 6 of section 3.2.5 -----

  datatype Register = Register(r0: bool, r1: bool, r2: bool, r3: bool, r4: bool, r5: bool, r6: bool, r7: bool)

  function Shift(r: Register): Register {
    Register(r.r7, r.r0, r.r1, r.r2, r.r3 != r.r7, r.r4 != r.r7, r.r5 != r.r7, r.r6)
  }

  function After(t: nat): Register {
    if t == 0 then Register(true, false, false, false, false, false, false, false) else Shift(After(t - 1))
  }

  /** The bit rc(t). */
  predicate Rc(t: nat) { After(t).r0 }

  function Snapshot(k: nat): Register
    requires k <= 24
  {
    match k
    case 0 => Register(true, false, false, false, false, false, false, false)
    case 1 => Register(false, false, false, false, false, false, false, true)
    case 2 => Register(false, false, false, true, true, false, true, true)
    case 3 => Register(false, true, false, true, true, false, false, false)
    case 4 => Register(true, true, true, true, true, false, true, true)
    case 5 => Register(true, false, false, true, false, false, false, false)
    case 6 => Register(true, false, true, false, true, true, false, false)
    case 7 => Register(true, true, true, true, false, false, true, false)
    case 8 => Register(false, true, false, true, false, false, true, true)
    case 9 => Register(false, false, false, false, true, true, true, false)
    case 10 => Register(true, false, false, false, false, false, true, false)
    case 11 => Register(false, false, true, true, false, true, true, true)
    case 12 => Register(true, false, true, false, true, false, true, true)
    case 13 => Register(true, false, true, true, false, false, true, true)
    case 14 => Register(true, true, false, false, false, true, true, false)
    case 15 => Register(true, true, false, true, false, true, false, true)
    case 16 => Register(false, true, false, true, false, true, false, true)
    case 17 => Register(false, true, false, true, false, true, false, false)
    case 18 => Register(false, true, false, false, true, true, true, true)
    case 19 => Register(false, false, false, true, false, true, true, true)
    case 20 => Register(true, true, true, false, true, true, false, false)
    case 21 => Register(false, true, true, true, true, true, false, false)
    case 22 => Register(true, true, false, true, false, false, false, false)
    case 23 => Register(false, false, true, false, false, false, true, false)
    case 24 => Register(false, true, true, true, false, false, false, true)
  }

  lemma SevenShifts(t: nat)
    ensures After(t + 1) == Shift(After(t)) && After(t + 2) == Shift(After(t + 1))
        && After(t + 3) == Shift(After(t + 2))
    ensures After(t + 4) == Shift(After(t + 3)) && After(t + 5) == Shift(After(t + 4))
        && After(t + 6) == Shift(After(t + 5))
    ensures After(t + 7) == Shift(After(t + 6))
  {
  }

  lemma SnapshotStep(k: nat)
    requires k < 24
    ensures Shift(Shift(Shift(Shift(Shift(Shift(Shift(Snapshot(k)))))))) == Snapshot(k + 1)
  {
    match k {
      case 0 => case 1 => case 2 => case 3 => case 4 => case 5 => case 6 => case 7 => case 8 => case 9 =>
      case 10 => case 11 => case 12 => case 13 => case 14 => case 15 => case 16 => case 17 => case 18 => case 19 =>
      case 20 => case 21 => case 22 => case 23 =>
    }
  }

  lemma {:induction false} SnapshotIs(k: nat)
    requires k <= 24
    ensures After(7 * k) == Snapshot(k)
  {
    hide Shift, Snapshot;
    if k == 0 {
      SnapshotStart();
    } else {
      SnapshotIs(k - 1);
      SevenShifts(7 * (k - 1));
      SnapshotStep(k - 1);
    }
  }

  lemma SnapshotStart()
    ensures After(0) == Snapshot(0)
  {
  }

  lemma FirstConstants(k: nat, r: Register)
    requires 0 <= k < 8 && r == Snapshot(k)
    ensures RC(k) == Weight(r.r0, 1) + Weight(Shift(r).r0, 2) + Weight(Shift(Shift(r)).r0, 8)
                   + Weight(Shift(Shift(Shift(r))).r0, 0x80) + Weight(Shift(Shift(Shift(Shift(r)))).r0, 0x8000)
                   + Weight(Shift(Shift(Shift(Shift(Shift(r))))).r0, 0x8000_0000)
                   + Weight(Shift(Shift(Shift(Shift(Shift(Shift(r)))))).r0, 0x8000_0000_0000_0000)
  {
    match k {
      case 0 => case 1 => case 2 => case 3 => case 4 => case 5 => case 6 => case 7 =>
    }
  }

  lemma MiddleConstants(k: nat, r: Register)
    requires 8 <= k < 16 && r == Snapshot(k)
    ensures RC(k) == Weight(r.r0, 1) + Weight(Shift(r).r0, 2) + Weight(Shift(Shift(r)).r0, 8)
                   + Weight(Shift(Shift(Shift(r))).r0, 0x80) + Weight(Shift(Shift(Shift(Shift(r)))).r0, 0x8000)
                   + Weight(Shift(Shift(Shift(Shift(Shift(r))))).r0, 0x8000_0000)
                   + Weight(Shift(Shift(Shift(Shift(Shift(Shift(r)))))).r0, 0x8000_0000_0000_0000)
  {
    match k {
      case 8 => case 9 => case 10 => case 11 => case 12 => case 13 => case 14 => case 15 =>
    }
  }

  lemma LastConstants(k: nat, r: Register)
    requires 16 <= k < 24 && r == Snapshot(k)
    ensures RC(k) == Weight(r.r0, 1) + Weight(Shift(r).r0, 2) + Weight(Shift(Shift(r)).r0, 8)
                   + Weight(Shift(Shift(Shift(r))).r0, 0x80) + Weight(Shift(Shift(Shift(Shift(r)))).r0, 0x8000)
                   + Weight(Shift(Shift(Shift(Shift(Shift(r))))).r0, 0x8000_0000)
                   + Weight(Shift(Shift(Shift(Shift(Shift(Shift(r)))))).r0, 0x8000_0000_0000_0000)
  {
    match k {
      case 16 => case 17 => case 18 => case 19 => case 20 => case 21 => case 22 => case 23 =>
    }
  }

  lemma ConstantTable(k: nat, r: Register)
    requires k < 24 && r == Snapshot(k)
    ensures RC(k) == Weight(r.r0, 1) + Weight(Shift(r).r0, 2) + Weight(Shift(Shift(r)).r0, 8)
                   + Weight(Shift(Shift(Shift(r))).r0, 0x80) + Weight(Shift(Shift(Shift(Shift(r)))).r0, 0x8000)
                   + Weight(Shift(Shift(Shift(Shift(Shift(r))))).r0, 0x8000_0000)
                   + Weight(Shift(Shift(Shift(Shift(Shift(Shift(r)))))).r0, 0x8000_0000_0000_0000)
  {
    hide Shift, Snapshot, RC, Weight;
    if k < 8 {
      FirstConstants(k, r);
    } else if k < 16 {
      MiddleConstants(k, r);
    } else {
      LastConstants(k, r);
    }
  }

  /** Round constant `k` has bit 2^j - 1 set exactly when rc(j + 7k) is, and no other bit. */
  lemma ConstantsFollowTheRegister(k: nat)
    requires k < 24
    ensures RC(k) == Weight(Rc(7 * k), 1) + Weight(Rc(7 * k + 1), 2) + Weight(Rc(7 * k + 2), 8)
                   + Weight(Rc(7 * k + 3), 0x80) + Weight(Rc(7 * k + 4), 0x8000)
                   + Weight(Rc(7 * k + 5), 0x8000_0000) + Weight(Rc(7 * k + 6), 0x8000_0000_0000_0000)
  {
    hide Shift, Snapshot, Weight, RC;
    SnapshotIs(k);
    SevenShifts(7 * k);
    ConstantTable(k, Snapshot(k));
  }
}
