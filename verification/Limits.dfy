/** The cap on the reservations a user holds, over whole runs. */
module Limits {
  import opened Wrappers
  import opened Entities
  import opened Measures
  import opened LabModel
  import opened Invariants
  import opened Capacity
  import opened Lifecycle

  // ---------------------------------------------------------------- reservations held

  /** What counts against a user's cap at the state's clock. */
  ghost function BookingCount(s: LabState, user: int): int {
    Total(BookingsOf(user, s.clock), s.reservations)
  }

  /** The user's resumed reservations whose booked end had already passed, so that they were not counted. */
  ghost function Lapsed(s: LabState, op: Op, user: int): int {
    Total(LapsedOf(user, Reactivated(s, op), Ended(op)), s.reservations)
  }

  /** The count only falls as the clock moves. */
  lemma LaterCount(rows: seq<Reservation>, user: int, now: int, later: int)
    requires now <= later
    ensures Total(BookingsOf(user, later), rows) <= Total(BookingsOf(user, now), rows)
  {
    TotalMonotone(BookingsOf(user, later), rows, BookingsOf(user, now), rows);
  }

  lemma CountBooked(s: LabState, b: Booking, now: int, order: seq<nat>, ended: int, user: int)
    requires s.regulation.slotMinutes > 0 && s.clock <= now <= ended && Below(order, |s.reservations|)
    requires CheckBooking(s, b, now, order).Pass?
    ensures Total(BookingsOf(user, ended), s.reservations + [NewReservation(b)])
         <= Max(BookingCount(s, user), s.regulation.maxActivePerUser)
  {
    TotalPush(BookingsOf(user, ended), s.reservations, NewReservation(b));
    LaterCount(s.reservations, user, now, ended);
    LaterCount(s.reservations, user, s.clock, now);
  }

  /** Without a resumption, no update adds to anyone's count. */
  lemma CountLighter(s: LabState, after: LabState, user: int)
    requires s.clock <= after.clock && |after.reservations| == |s.reservations|
    requires forall i :: 0 <= i < |s.reservations| ==>
      Weigh(BookingsOf(user, after.clock), after.reservations[i]) <= Weigh(BookingsOf(user, s.clock), s.reservations[i])
    ensures BookingCount(after, user) <= BookingCount(s, user)
  {
    TotalMonotone(BookingsOf(user, after.clock), after.reservations, BookingsOf(user, s.clock), s.reservations);
  }

  /** A resumption adds exactly the lapsed reservations back. */
  lemma CountResumed(s: LabState, gs: set<nat>, at: int, now: int, user: int)
    requires RowsOk(s) && now <= at
    ensures Total(BookingsOf(user, now), RewriteAll(ResumeOn(gs, at), s.reservations))
         == Total(BookingsOf(user, now), s.reservations) + Total(LapsedOf(user, gs, now), s.reservations)
  {
    var rows := RewriteAll(ResumeOn(gs, at), s.reservations);
    forall i | 0 <= i < |rows|
      ensures Weigh(BookingsOf(user, now), rows[i])
           == Weigh(BookingsOf(user, now), s.reservations[i]) + Weigh(LapsedOf(user, gs, now), s.reservations[i])
    {
      assert RowOk(s, s.reservations[i]);
    }
    TotalAdds(BookingsOf(user, now), rows, BookingsOf(user, now), s.reservations, LapsedOf(user, gs, now), s.reservations);
  }

  /** A reactivation raises a user's count by exactly the user's lapsed resumed reservations. */
  lemma ReactivationCount(s: LabState, op: Op, user: int)
    requires Inv(s) && Legal(s, op) && Reactivated(s, op) != {}
    ensures BookingCount(Apply(s, op), user) == Total(BookingsOf(user, Ended(op)), s.reservations) + Lapsed(s, op, user)
  {
    hide FleetOk, NamesUnique, WatchTableOk;
    CountResumed(s, Reactivated(s, op), ResumeAt(s, op.now), op.now, user);
  }

  /** Nothing but a booking or a resumption adds to anyone's count. */
  lemma CountElsewhere(s: LabState, op: Op, user: int)
    requires Inv(s) && Legal(s, op) && !op.Create? && !op.AutoBook? && Reactivated(s, op) == {}
    ensures BookingCount(Apply(s, op), user) <= BookingCount(s, user)
  {
    hide Effect, FleetOk, RowsOk, NamesUnique, WatchTableOk;
    var after := Apply(s, op);
    LengthKept(s, op);
    forall i | 0 <= i < |s.reservations|
      ensures Weigh(BookingsOf(user, after.clock), after.reservations[i])
           <= Weigh(BookingsOf(user, s.clock), s.reservations[i])
    {
      StepRow(s, op, i);
      RestartsReactivated(s, op, i);
    }
    CountLighter(s, after, user);
  }

  lemma LengthKept(s: LabState, op: Op)
    requires Inv(s) && Legal(s, op) && !op.Create? && !op.AutoBook?
    ensures |Apply(s, op).reservations| == |s.reservations|
  {
    hide FleetOk, RowsOk, NamesUnique, WatchTableOk;
    if s.reservations != [] {
      StepRow(s, op, 0);
    } else {
      hide Inv, Shape;
    }
  }

  lemma CountCreate(s: LabState, op: Op, user: int)
    requires Inv(s) && Legal(s, op) && op.Create?
    ensures BookingCount(Apply(s, op), user) <= Max(BookingCount(s, user), s.regulation.maxActivePerUser)
  {
    LaterCount(s.reservations, user, s.clock, op.now);
    if CheckBooking(s, op.booking, op.now, op.order).Pass? {
      CountBooked(s, op.booking, op.now, op.order, op.now, user);
    }
    hide Inv, CheckBooking, Total;
  }

  lemma CountAutoBook(s: LabState, op: Op, user: int)
    requires Inv(s) && Legal(s, op) && op.AutoBook?
    ensures BookingCount(Apply(s, op), user) <= Max(BookingCount(s, user), s.regulation.maxActivePerUser)
  {
    LaterCount(s.reservations, user, s.clock, op.marked);
    var window := WindowOf(s.watches[op.watch], s.regulation, op.now);
    if window.Some? && CheckBooking(s, BookingFor(s.watches[op.watch], window.value), op.now, op.order).Pass? {
      CountBooked(s, BookingFor(s.watches[op.watch], window.value), op.now, op.order, op.marked, user);
    }
    hide Inv, CheckBooking, Total, WindowOf;
  }

  /** One operation: the count stays under the larger of its old value and the cap, lapsed resumptions aside. */
  lemma StepCount(s: LabState, op: Op, user: int)
    requires Inv(s) && Legal(s, op)
    ensures BookingCount(Apply(s, op), user)
         <= Max(BookingCount(s, user), s.regulation.maxActivePerUser) + Lapsed(s, op, user)
  {
    TotalNonNegativeLapsed(s, op, user);
    hide Apply, Inv, Legal;
    if op.Create? {
      CountCreate(s, op, user);
    } else if op.AutoBook? {
      CountAutoBook(s, op, user);
    } else if Reactivated(s, op) != {} {
      ReactivationCount(s, op, user);
      LaterCount(s.reservations, user, s.clock, Ended(op));
    } else {
      CountElsewhere(s, op, user);
    }
  }

  lemma TotalNonNegativeLapsed(s: LabState, op: Op, user: int)
    requires RowsOk(s)
    ensures Lapsed(s, op, user) >= 0
  {
    forall i | 0 <= i < |s.reservations| ensures s.reservations[i].ram > 0 {
      assert RowOk(s, s.reservations[i]);
    }
    TotalNonNegative(LapsedOf(user, Reactivated(s, op), Ended(op)), s.reservations);
  }

  /** The lapsed reservations that the reactivations of a run brought back. */
  ghost function LapsedDuring(s: LabState, ops: seq<Op>, user: int): int
    requires Shape(s) && LegalRun(s, ops)
  {
    if ops == [] then 0
    else LapsedDuring(s, ops[..|ops| - 1], user) + Lapsed(Run(s, ops[..|ops| - 1]), ops[|ops| - 1], user)
  }

  /** In every run, a user never holds more than the cap plus the lapsed reservations brought back by reactivations. */
  lemma {:induction false} BookingCapPlusLapsed(s: LabState, ops: seq<Op>, user: int)
    requires Empty(s) && LegalRun(s, ops)
    ensures LapsedDuring(s, ops, user) >= 0
    ensures BookingCount(Run(s, ops), user) <= Max(s.regulation.maxActivePerUser, 0) + LapsedDuring(s, ops, user)
  {
    hide Apply, Legal, FleetOk, NamesUnique, WatchTableOk;
    if ops != [] {
      var front := ops[..|ops| - 1];
      BookingCapPlusLapsed(s, front, user);
      ReachableInv(s, front);
      StepCount(Run(s, front), ops[|ops| - 1], user);
      TotalNonNegativeLapsed(Run(s, front), ops[|ops| - 1], user);
    }
  }

  lemma {:induction false} NothingLapses(s: LabState, ops: seq<Op>, user: int)
    requires Shape(s) && LegalRun(s, ops) && NeverReactivates(s, ops)
    ensures LapsedDuring(s, ops, user) == 0
  {
    hide Apply, Legal;
    if ops != [] {
      var front := ops[..|ops| - 1];
      NothingLapses(s, front, user);
      TotalZero(LapsedOf(user, {}, Ended(ops[|ops| - 1])), Run(s, front).reservations);
    }
  }

  /** Without reactivation, a user's ACTIVE and SUSPENDED reservations ending after the clock never exceed the cap. */
  lemma BookingCap(s: LabState, ops: seq<Op>, user: int)
    requires Empty(s) && LegalRun(s, ops) && NeverReactivates(s, ops)
    ensures BookingCount(Run(s, ops), user) <= Max(s.regulation.maxActivePerUser, 0)
  {
    BookingCapPlusLapsed(s, ops, user);
    NothingLapses(s, ops, user);
  }
}
