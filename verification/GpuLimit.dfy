/**
  The cap on the GPUs a user holds at once. The check at booking time is skipped when the requested GPU
  is already among those held in the window, and a reactivation restarts reservations without one; this
  is exactly when either keeps the cap, operation by operation and over whole runs.
*/
module GpuLimit {
  import opened Wrappers
  import opened Entities
  import opened Measures
  import opened Admission
  import opened LabModel
  import opened Invariants
  import opened Capacity
  import opened Lifecycle
  import opened Limits

  /** The row is the user's, ACTIVE or SUSPENDED, and covers t. */
  ghost predicate HoldsAt(r: Reservation, user: int, t: int) {
    r.user == user && HeldStatus(r) && r.start <= t < r.end
  }

  /** The GPUs on which the user holds a reservation covering t. */
  ghost function GpusHeldAt(rows: seq<Reservation>, user: int, t: int): set<nat> {
    set i | 0 <= i < |rows| && HoldsAt(rows[i], user, t) :: rows[i].gpu
  }

  ghost predicate ConcurrencyOk(s: LabState) {
    forall user, t :: user in s.users ==> |GpusHeldAt(s.reservations, user, t)| <= Max(s.users[user], 0)
  }

  lemma SubsetSize<T>(a: set<T>, b: set<T>)
    requires a <= b
    ensures |a| <= |b|
  {
    assert b == a + (b - a);
  }

  /** An accepted booking adds its own GPU, for its own user, throughout its own window, and nothing else. */
  lemma BookingAddsGpu(rows: seq<Reservation>, b: Booking, user: int, t: int)
    ensures GpusHeldAt(rows + [NewReservation(b)], user, t)
         == GpusHeldAt(rows, user, t) + if user == b.user && b.start <= t < b.end then {b.gpu} else {}
  {
    var more := rows + [NewReservation(b)];
    forall g | g in GpusHeldAt(rows, user, t) ensures g in GpusHeldAt(more, user, t) {
      var i :| 0 <= i < |rows| && HoldsAt(rows[i], user, t) && rows[i].gpu == g;
      assert more[i] == rows[i];
    }
    if user == b.user && b.start <= t < b.end {
      assert more[|rows|] == NewReservation(b);
    }
  }

  lemma HeldAtWithinDuring(rows: seq<Reservation>, user: int, start: int, end: int, t: int)
    requires start <= t < end
    ensures GpusHeldAt(rows, user, t) <= GpusSharing(rows, user, start, end)
  {
  }

  // ---------------------------------------------------------------- one booking

  lemma BookingGpuCount(rows: seq<Reservation>, b: Booking, user: int, t: int)
    ensures |GpusHeldAt(rows + [NewReservation(b)], user, t)|
         == if user == b.user && b.start <= t < b.end then |GpusHeldAt(rows, user, t) - {b.gpu}| + 1
            else |GpusHeldAt(rows, user, t)|
  {
    BookingAddsGpu(rows, b, user, t);
    var held := GpusHeldAt(rows, user, t);
    assert held + {b.gpu} == held - {b.gpu} + {b.gpu};
  }

  /**
    An accepted booking keeps the user within the limit at every instant if and only if, at every
    instant of its window, the user's other GPUs number less than the limit.
  */
  lemma AcceptedConcurrency(s: LabState, b: Booking, now: int, order: seq<nat>)
    requires s.regulation.slotMinutes > 0 && Below(order, |s.reservations|)
    requires CheckBooking(s, b, now, order).Pass?
    requires forall t :: |GpusHeldAt(s.reservations, b.user, t)| <= s.users[b.user]
    ensures (forall t :: |GpusHeldAt(ApplyCreate(s, b, now, order).reservations, b.user, t)| <= s.users[b.user])
       <==> forall t :: b.start <= t < b.end ==> |GpusHeldAt(s.reservations, b.user, t) - {b.gpu}| < s.users[b.user]
  {
    hide GpusHeldAt;
    var after := ApplyCreate(s, b, now, order).reservations;
    forall t
      ensures |GpusHeldAt(after, b.user, t)| == if b.start <= t < b.end
                                                then |GpusHeldAt(s.reservations, b.user, t) - {b.gpu}| + 1
                                                else |GpusHeldAt(s.reservations, b.user, t)|
    {
      BookingGpuCount(s.reservations, b, b.user, t);
    }
    if forall t :: |GpusHeldAt(after, b.user, t)| <= s.users[b.user] {
      forall t | b.start <= t < b.end ensures |GpusHeldAt(s.reservations, b.user, t) - {b.gpu}| < s.users[b.user] {
        assert |GpusHeldAt(after, b.user, t)| <= s.users[b.user];
      }
    }
  }

  /** At every instant of its window, the user's other GPUs leave room for the booking's own. */
  ghost predicate RoomThroughout(s: LabState, b: Booking)
    requires b.user in s.users
  {
    forall t :: b.start <= t < b.end ==> |GpusHeldAt(s.reservations, b.user, t) - {b.gpu}| < s.users[b.user]
  }

  /** The booking's own GPU and the GPUs held during its window number at most the limit. */
  ghost predicate WithinGpuLimit(s: LabState, b: Booking) {
    b.user in s.users && |GpusSharing(s.reservations, b.user, b.start, b.end) + {b.gpu}| <= s.users[b.user]
  }

  /** That is enough for room throughout, though not necessary: the GPUs of the window need not be held together. */
  lemma WithinGpuLimitLeavesRoom(s: LabState, b: Booking)
    requires WithinGpuLimit(s, b)
    ensures RoomThroughout(s, b)
  {
    forall t | b.start <= t < b.end ensures |GpusHeldAt(s.reservations, b.user, t) - {b.gpu}| < s.users[b.user] {
      HeldAtWithinDuring(s.reservations, b.user, b.start, b.end, t);
      var others := GpusHeldAt(s.reservations, b.user, t) - {b.gpu};
      SubsetSize(others + {b.gpu}, GpusSharing(s.reservations, b.user, b.start, b.end) + {b.gpu});
    }
  }

  /** The check is enough whenever the requested GPU is not among those already held in the window. */
  lemma FreshGpuWithinLimit(s: LabState, b: Booking, now: int, order: seq<nat>)
    requires s.regulation.slotMinutes > 0 && Below(order, |s.reservations|)
    requires CheckBooking(s, b, now, order).Pass?
    requires b.gpu !in GpusSharing(s.reservations, b.user, b.start, b.end)
    ensures WithinGpuLimit(s, b) && RoomThroughout(s, b)
  {
    SharingIsHeld(s.reservations, b.user, b.start, b.end);
    WithinGpuLimitLeavesRoom(s, b);
  }

  /** A lab within the cap stays within it with one more booking if and only if there is room throughout. */
  lemma BookedConcurrency(s: LabState, b: Booking)
    requires ConcurrencyOk(s) && b.user in s.users
    ensures ConcurrencyOk(s.(reservations := s.reservations + [NewReservation(b)])) <==> RoomThroughout(s, b)
  {
    hide GpusHeldAt;
    var after := s.(reservations := s.reservations + [NewReservation(b)]);
    if RoomThroughout(s, b) {
      forall user, t | user in s.users ensures |GpusHeldAt(after.reservations, user, t)| <= Max(s.users[user], 0) {
        BookingGpuCount(s.reservations, b, user, t);
        assert |GpusHeldAt(s.reservations, user, t)| <= Max(s.users[user], 0);
      }
    }
    if ConcurrencyOk(after) {
      forall t | b.start <= t < b.end ensures |GpusHeldAt(s.reservations, b.user, t) - {b.gpu}| < s.users[b.user] {
        BookingGpuCount(s.reservations, b, b.user, t);
        assert |GpusHeldAt(after.reservations, b.user, t)| <= Max(s.users[b.user], 0);
      }
    }
  }

  // ---------------------------------------------------------------- one reactivation

  /** The user's GPUs at t that the reactivation leaves alone. */
  ghost function HeldElsewhere(rows: seq<Reservation>, gs: set<nat>, user: int, t: int): set<nat> {
    GpusHeldAt(rows, user, t) - gs
  }

  /** The GPUs of gs on which the user has a suspended reservation longer than d. */
  ghost function Waiting(rows: seq<Reservation>, gs: set<nat>, user: int, d: int): set<nat> {
    set i | 0 <= i < |rows| && rows[i].user == user && rows[i].status == SUSPENDED && rows[i].gpu in gs
            && d < rows[i].end - rows[i].start :: rows[i].gpu
  }

  /**
    From the restart instant on, the GPUs held elsewhere, with those whose suspended reservations are
    long enough to reach that far from the restart, number at most the user's limit.
  */
  ghost predicate RestartWithinLimit(s: LabState, gs: set<nat>, at: int) {
    forall user, t :: user in s.users && at <= t ==>
      |HeldElsewhere(s.reservations, gs, user, t)| + |Waiting(s.reservations, gs, user, t - at)| <= Max(s.users[user], 0)
  }

  lemma UnionSize<T>(a: set<T>, b: set<T>)
    requires a !! b
    ensures |a + b| == |a| + |b|
  {
  }

  lemma RestartedHeld(s: LabState, rows: seq<Reservation>, gs: set<nat>, at: int, user: int, t: int)
    requires RowsOk(s) && s.clock <= at && (forall g :: g in gs ==> !Effective(s, g))
    requires rows == RewriteAll(ResumeOn(gs, at), s.reservations) && at <= t
    ensures GpusHeldAt(rows, user, t) == HeldElsewhere(s.reservations, gs, user, t) + Waiting(s.reservations, gs, user, t - at)
  {
    forall i | 0 <= i < |rows|
      ensures HoldsAt(rows[i], user, t) <==>
                (HoldsAt(s.reservations[i], user, t) && s.reservations[i].gpu !in gs)
                || (s.reservations[i].user == user && s.reservations[i].status == SUSPENDED && s.reservations[i].gpu in gs
                    && t - at < s.reservations[i].end - s.reservations[i].start)
      ensures rows[i].gpu == s.reservations[i].gpu
    {
      assert RowOk(s, s.reservations[i]);
    }
    var elsewhere, waiting := HeldElsewhere(s.reservations, gs, user, t), Waiting(s.reservations, gs, user, t - at);
    forall g | g in GpusHeldAt(rows, user, t) ensures g in elsewhere + waiting {
      var i :| 0 <= i < |rows| && HoldsAt(rows[i], user, t) && rows[i].gpu == g;
    }
    forall g | g in elsewhere ensures g in GpusHeldAt(rows, user, t) {
      var i :| 0 <= i < |rows| && HoldsAt(s.reservations[i], user, t) && s.reservations[i].gpu == g;
      assert HoldsAt(rows[i], user, t);
    }
  }

  lemma EarlierHeld(s: LabState, rows: seq<Reservation>, gs: set<nat>, at: int, user: int, t: int)
    requires rows == RewriteAll(ResumeOn(gs, at), s.reservations) && t < at
    ensures |GpusHeldAt(rows, user, t)| <= |GpusHeldAt(s.reservations, user, t)|
  {
    FewerHeld(s.reservations, rows, user, t);
  }

  /** A restart keeps a lab within the cap if and only if what it restarts fits beside what is held elsewhere. */
  lemma RestartConcurrency(s: LabState, after: LabState, gs: set<nat>, at: int)
    requires ConcurrencyOk(s) && RowsOk(s) && s.clock <= at && (forall g :: g in gs ==> !Effective(s, g))
    requires after.reservations == RewriteAll(ResumeOn(gs, at), s.reservations) && after.users == s.users
    ensures ConcurrencyOk(after) <==> RestartWithinLimit(s, gs, at)
  {
    forall user, t
      ensures if at <= t
              then |GpusHeldAt(after.reservations, user, t)|
                   == |HeldElsewhere(s.reservations, gs, user, t)| + |Waiting(s.reservations, gs, user, t - at)|
              else |GpusHeldAt(after.reservations, user, t)| <= |GpusHeldAt(s.reservations, user, t)|
    {
      if at <= t {
        RestartedHeld(s, after.reservations, gs, at, user, t);
        UnionSize(HeldElsewhere(s.reservations, gs, user, t), Waiting(s.reservations, gs, user, t - at));
      } else {
        EarlierHeld(s, after.reservations, gs, at, user, t);
      }
    }
    hide GpusHeldAt, HeldElsewhere, Waiting, RowsOk;
    if RestartWithinLimit(s, gs, at) {
      forall user, t | user in s.users ensures |GpusHeldAt(after.reservations, user, t)| <= Max(s.users[user], 0) {
        assert |GpusHeldAt(s.reservations, user, t)| <= Max(s.users[user], 0);
      }
    }
    if ConcurrencyOk(after) {
      forall user, t | user in s.users && at <= t
        ensures |HeldElsewhere(s.reservations, gs, user, t)| + |Waiting(s.reservations, gs, user, t - at)|
             <= Max(s.users[user], 0)
      {
        assert |GpusHeldAt(after.reservations, user, t)| <= Max(s.users[user], 0);
      }
    }
  }

  lemma ReactivationRestarts(s: LabState, op: Op)
    requires Inv(s) && Legal(s, op) && Reactivated(s, op) != {}
    ensures Apply(s, op).reservations == RewriteAll(ResumeOn(Reactivated(s, op), ResumeAt(s, op.now)), s.reservations)
    ensures s.clock <= ResumeAt(s, op.now) && forall g :: g in Reactivated(s, op) ==> !Effective(s, g)
  {
    hide FleetOk, RowsOk, NamesUnique, WatchTableOk;
  }

  // ---------------------------------------------------------------- one operation

  /** Rows that keep their place, or drop out, hold no more GPUs than before. */
  lemma FewerHeld(rows: seq<Reservation>, after: seq<Reservation>, user: int, t: int)
    requires |after| == |rows|
    requires forall i :: 0 <= i < |rows| ==>
      HoldsAt(after[i], user, t) ==> HoldsAt(rows[i], user, t) && after[i].gpu == rows[i].gpu
    ensures |GpusHeldAt(after, user, t)| <= |GpusHeldAt(rows, user, t)|
  {
    forall g | g in GpusHeldAt(after, user, t) ensures g in GpusHeldAt(rows, user, t) {
      var i :| 0 <= i < |after| && HoldsAt(after[i], user, t) && after[i].gpu == g;
      assert HoldsAt(rows[i], user, t);
    }
    SubsetSize(GpusHeldAt(after, user, t), GpusHeldAt(rows, user, t));
  }

  ghost predicate KeepsItsPlace(r: Reservation, r': Reservation) {
    r'.user == r.user && r'.gpu == r.gpu && r'.start == r.start && r'.end == r.end && (Live(r') ==> Live(r))
  }

  lemma PlacesKept(s: LabState, op: Op)
    requires Inv(s) && Legal(s, op) && Reactivated(s, op) == {} && !op.Create? && !op.AutoBook?
    ensures |Apply(s, op).reservations| == |s.reservations|
    ensures forall i :: 0 <= i < |s.reservations| ==> KeepsItsPlace(s.reservations[i], Apply(s, op).reservations[i])
  {
    hide Effect, FleetOk, RowsOk, NamesUnique, WatchTableOk;
    LengthKept(s, op);
    forall i | 0 <= i < |s.reservations|
      ensures i < |Apply(s, op).reservations| && KeepsItsPlace(s.reservations[i], Apply(s, op).reservations[i])
    {
      StepRow(s, op, i);
      RestartsReactivated(s, op, i);
    }
  }

  /** What the operation books has room throughout, and what it restarts fits. */
  ghost predicate KeepsGpuLimit(s: LabState, op: Op)
    requires Shape(s) && Legal(s, op)
  {
    && (Booked(s, op).Some? ==> Booked(s, op).value.user in s.users && RoomThroughout(s, Booked(s, op).value))
    && (Reactivated(s, op) != {} ==> RestartWithinLimit(s, Reactivated(s, op), ResumeAt(s, op.now)))
  }

  lemma StepConcurrencyElsewhere(s: LabState, op: Op)
    requires Inv(s) && Legal(s, op) && ConcurrencyOk(s) && Reactivated(s, op) == {} && !op.Create? && !op.AutoBook?
    ensures ConcurrencyOk(Apply(s, op))
  {
    hide FleetOk, RowsOk, NamesUnique, WatchTableOk, Effect, Reactivated;
    var after := Apply(s, op);
    PlacesKept(s, op);
    forall user, t | user in s.users ensures |GpusHeldAt(after.reservations, user, t)| <= Max(s.users[user], 0) {
      forall i | 0 <= i < |s.reservations| ensures KeepsItsPlace(s.reservations[i], after.reservations[i]) {
      }
      FewerHeld(s.reservations, after.reservations, user, t);
      assert |GpusHeldAt(s.reservations, user, t)| <= Max(s.users[user], 0);
    }
  }

  lemma SameRowsConcurrency(s: LabState, after: LabState)
    requires after.reservations == s.reservations && after.users == s.users
    ensures ConcurrencyOk(after) <==> ConcurrencyOk(s)
  {
  }

  /**
    Any one operation keeps every user within the cap at every instant if and only if what it books and
    restarts does.
  */
  lemma StepConcurrency(s: LabState, op: Op)
    requires Inv(s) && Legal(s, op) && ConcurrencyOk(s)
    ensures ConcurrencyOk(Apply(s, op)) <==> KeepsGpuLimit(s, op)
  {
    hide Apply, ConcurrencyOk, FleetOk, RowsOk, NamesUnique, WatchTableOk, RoomThroughout, RestartWithinLimit, CheckBooking;
    if op.Create? || op.AutoBook? {
      BookedApplies(s, op);
      if Booked(s, op).Some? {
        var b := Booked(s, op).value;
        BookedConcurrency(s, b);
        SameRowsConcurrency(s.(reservations := s.reservations + [NewReservation(b)]), Apply(s, op));
      } else {
        SameRowsConcurrency(s, Apply(s, op));
      }
    } else if Reactivated(s, op) != {} {
      ReactivationRestarts(s, op);
      RestartConcurrency(s, Apply(s, op), Reactivated(s, op), ResumeAt(s, op.now));
    } else {
      StepConcurrencyElsewhere(s, op);
    }
  }

  // ---------------------------------------------------------------- runs

  ghost predicate RunKeepsGpuLimit(s: LabState, ops: seq<Op>)
    requires Shape(s) && LegalRun(s, ops)
  {
    ops == []
    || (RunKeepsGpuLimit(s, ops[..|ops| - 1]) && KeepsGpuLimit(Run(s, ops[..|ops| - 1]), ops[|ops| - 1]))
  }

  /** After every operation of the run the users were within the cap. */
  ghost predicate AlwaysConcurrent(s: LabState, ops: seq<Op>)
    requires Shape(s) && LegalRun(s, ops)
  {
    ConcurrencyOk(Run(s, ops)) && (ops == [] || AlwaysConcurrent(s, ops[..|ops| - 1]))
  }

  /**
    From an empty lab, no user is ever on more GPUs at once than allowed, after any operation of the run,
    if and only if every booking had room throughout and every restart fitted, where it happened.
  */
  lemma {:induction false} RunConcurrency(s: LabState, ops: seq<Op>)
    requires Empty(s) && LegalRun(s, ops)
    ensures AlwaysConcurrent(s, ops) <==> RunKeepsGpuLimit(s, ops)
  {
    hide Apply, Legal, Inv, KeepsGpuLimit;
    if ops == [] {
      forall user, t | user in s.users ensures GpusHeldAt(s.reservations, user, t) == {} {
      }
    } else {
      var front := ops[..|ops| - 1];
      RunConcurrency(s, front);
      ReachableInv(s, front);
      if AlwaysConcurrent(s, front) {
        StepConcurrency(Run(s, front), ops[|ops| - 1]);
      }
    }
  }
}
