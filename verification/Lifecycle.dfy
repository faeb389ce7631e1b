/** The life of one reservation row across operations and runs. */
module Lifecycle {
  import opened Entities
  import opened Measures
  import opened Wrappers
  import opened LabModel
  import opened Invariants
  import opened Capacity

  /** When a reactivation at `now` restarts a reservation: the configured minutes later, an hour if none are stored. */
  ghost function RestartInstant(delayMinutes: Option<int>, now: int): int {
    match delayMinutes
    case Some(minutes) => now + minutes * 60_000_000
    case None => now + 3_600_000_000
  }

  /** The row restarted at the reactivation's start instant, with its original length. */
  ghost function Resumed(s: LabState, r: Reservation, now: int): Reservation {
    var at := RestartInstant(s.regulation.delayMinutes, now);
    r.(start := at, end := at + (r.end - r.start), status := ACTIVE)
  }

  ghost predicate ServerThere(s: LabState, server: nat) {
    server < |s.servers| && s.servers[server].deletedAt.None?
  }

  ghost predicate GpuThere(s: LabState, g: nat) {
    g < |s.gpus| && s.gpus[g].deletedAt.None? && s.gpus[g].server < |s.servers|
  }

  /** Row i, on GPU g, is ACTIVE or SUSPENDED and the operation is one that cancels it. */
  ghost predicate CancelsRow(s: LabState, op: Op, i: nat, r: Reservation) {
    && (r.status == ACTIVE || r.status == SUSPENDED) && r.gpu < |s.gpus|
    && match op
       case Cancel(id, _) => id == i
       case CancelForUser(user, asOf, _) => r.user == user && asOf < r.end
       case CancelForUserOnServer(user, server, _) => r.user == user && s.gpus[r.gpu].server == server
       case CancelLabWide(now) => r.start < now + s.regulation.horizonDays * 86_400_000_000 && now < r.end
       case DeleteServer(server, _) => ServerThere(s, server) && GpuThere(s, r.gpu) && s.gpus[r.gpu].server == server
       case DeleteGpu(g, _) => GpuThere(s, g) && r.gpu == g
       case _ => false
  }

  /** The row is ACTIVE and not over, and the operation switches its GPU off, by either flag, from being on. */
  ghost predicate SuspendsRow(s: LabState, op: Op, r: Reservation) {
    && r.status == ACTIVE && op.now < r.end && r.gpu < |s.gpus|
    && match op
       case SetServerActive(server, on, _) =>
         !on && ServerThere(s, server) && s.servers[server].isActive && s.gpus[r.gpu].server == server
       case SetGpuActive(g, on, _) =>
         !on && r.gpu == g && GpuThere(s, g) && s.gpus[g].isActive && s.servers[s.gpus[g].server].isActive
       case _ => false
  }

  /** The row is SUSPENDED and the operation switches on the one flag, the server's or the GPU's, that kept its GPU off. */
  ghost predicate RestartsRow(s: LabState, op: Op, r: Reservation) {
    && r.status == SUSPENDED && r.gpu < |s.gpus|
    && match op
       case SetServerActive(server, on, _) =>
         on && ServerThere(s, server) && !s.servers[server].isActive
         && s.gpus[r.gpu].server == server && s.gpus[r.gpu].isActive
       case SetGpuActive(g, on, _) =>
         on && r.gpu == g && GpuThere(s, g) && !s.gpus[g].isActive && s.servers[s.gpus[g].server].isActive
       case _ => false
  }

  /** What the operation makes of row i. */
  ghost function RowAfter(s: LabState, op: Op, i: nat, r: Reservation): Reservation {
    if CancelsRow(s, op, i, r) then r.(status := CANCELLED, cancelledAt := Some(op.now))
    else if SuspendsRow(s, op, r) then r.(status := SUSPENDED)
    else if RestartsRow(s, op, r) then Resumed(s, r, op.now)
    else r
  }

  lemma StepRowServerSwitched(s: LabState, op: Op, i: nat)
    requires Inv(s) && Legal(s, op) && i < |s.reservations| && op.SetServerActive?
    ensures |Apply(s, op).reservations| == |s.reservations|
    ensures Apply(s, op).reservations[i] == RowAfter(s, op, i, s.reservations[i])
  {
    assert RowOk(s, s.reservations[i]);
    hide Inv, RowsOk, FleetOk;
  }

  lemma StepRowGpuSwitched(s: LabState, op: Op, i: nat)
    requires Inv(s) && Legal(s, op) && i < |s.reservations| && op.SetGpuActive?
    ensures |Apply(s, op).reservations| == |s.reservations|
    ensures Apply(s, op).reservations[i] == RowAfter(s, op, i, s.reservations[i])
  {
    assert RowOk(s, s.reservations[i]);
    hide RowsOk, NamesUnique, WatchTableOk;
  }

  lemma StepRowCancelled(s: LabState, op: Op, i: nat)
    requires Inv(s) && Legal(s, op) && i < |s.reservations|
    requires op.Cancel? || op.CancelForUser? || op.CancelForUserOnServer? || op.CancelLabWide?
    ensures |Apply(s, op).reservations| == |s.reservations|
    ensures Apply(s, op).reservations[i] == RowAfter(s, op, i, s.reservations[i])
  {
    assert RowOk(s, s.reservations[i]);
    hide Inv, RowsOk;
  }

  lemma StepRowDeleted(s: LabState, op: Op, i: nat)
    requires Inv(s) && Legal(s, op) && i < |s.reservations|
    requires op.DeleteServer? || op.DeleteGpu?
    ensures |Apply(s, op).reservations| == |s.reservations|
    ensures Apply(s, op).reservations[i] == RowAfter(s, op, i, s.reservations[i])
  {
    assert RowOk(s, s.reservations[i]);
    hide RowsOk, NamesUnique, WatchTableOk;
  }

  lemma StepRowElsewhere(s: LabState, op: Op, i: nat)
    requires Inv(s) && Legal(s, op) && i < |s.reservations|
    requires op.Create? || op.AutoBook? || op.CreateServer? || op.AddGpu? || op.CreateWatch? || op.CancelWatch?
          || op.Cleanup? || op.Look?
    ensures |Apply(s, op).reservations| >= |s.reservations|
    ensures !op.Create? && !op.AutoBook? ==> |Apply(s, op).reservations| == |s.reservations|
    ensures Apply(s, op).reservations[i] == s.reservations[i]
  {
    hide CheckBooking, Inv;
  }

  /**
    What every operation does to every stored row: it cancels, suspends or restarts exactly the rows it
    should, changing nothing else of them, and leaves every other row as it was. None is removed.
  */
  lemma StepRow(s: LabState, op: Op, i: nat)
    requires Inv(s) && Legal(s, op) && i < |s.reservations|
    ensures if op.Create? || op.AutoBook? then |Apply(s, op).reservations| >= |s.reservations|
            else |Apply(s, op).reservations| == |s.reservations|
    ensures Apply(s, op).reservations[i] == RowAfter(s, op, i, s.reservations[i])
  {
    hide Apply, Inv;
    if op.SetServerActive? {
      StepRowServerSwitched(s, op, i);
    } else if op.SetGpuActive? {
      StepRowGpuSwitched(s, op, i);
    } else if op.DeleteServer? || op.DeleteGpu? {
      StepRowDeleted(s, op, i);
    } else if op.Cancel? || op.CancelForUser? || op.CancelForUserOnServer? || op.CancelLabWide? {
      StepRowCancelled(s, op, i);
    } else {
      StepRowElsewhere(s, op, i);
    }
  }

  /** The restarted rows are the suspended ones of the reactivated GPUs. */
  lemma RestartsReactivated(s: LabState, op: Op, i: nat)
    requires Inv(s) && i < |s.reservations|
    ensures RestartsRow(s, op, s.reservations[i])
       <==> s.reservations[i].status == SUSPENDED && s.reservations[i].gpu in Reactivated(s, op)
  {
    assert RowOk(s, s.reservations[i]);
    hide RowsOk, NamesUnique, WatchTableOk;
  }

  // ---------------------------------------------------------------- the row a booking adds

  /** The booking that the operation makes, if it makes one. */
  ghost function Booked(s: LabState, op: Op): Option<Booking>
    requires Shape(s) && Legal(s, op)
  {
    match op
    case Create(b, now, order) => if CheckBooking(s, b, now, order).Pass? then Some(b) else None
    case AutoBook(w, now, order, _) =>
      var window := WindowOf(s.watches[w], s.regulation, now);
      if window.None? then None
      else
        var watch := s.watches[w];
        var b := Booking(watch.user, watch.gpu, window.value.0, window.value.1, watch.minRam, watch.description);
        if CheckBooking(s, b, now, order).Pass? then Some(b) else None
    case _ => None
  }

  /** A booking adds one ACTIVE row with just what was booked; no other operation adds any. */
  lemma StepNewRow(s: LabState, op: Op)
    requires Inv(s) && Legal(s, op)
    ensures match Booked(s, op)
            case None => |Apply(s, op).reservations| == |s.reservations|
            case Some(b) =>
              && |Apply(s, op).reservations| == |s.reservations| + 1
              && Apply(s, op).reservations[|s.reservations|]
                 == Reservation(b.user, b.gpu, b.start, b.end, b.ram, b.description, ACTIVE, None)
              && b.user in s.users && op.now <= b.start
  {
    if op.Create? || op.AutoBook? {
      BookedApplies(s, op);
    } else if s.reservations != [] {
      StepRow(s, op, 0);
      hide Apply, Inv;
    } else {
      EmptyTableStays(s, op);
      hide Apply, Inv;
    }
  }

  lemma EmptyTableStays(s: LabState, op: Op)
    requires Shape(s) && Legal(s, op) && s.reservations == [] && !op.Create? && !op.AutoBook?
    ensures Apply(s, op).reservations == []
  {
    hide Shape;
  }

  lemma BookedApplies(s: LabState, op: Op)
    requires Shape(s) && Legal(s, op) && (op.Create? || op.AutoBook?)
    ensures Booked(s, op).Some? ==> Booked(s, op).value.user in s.users && op.now <= Booked(s, op).value.start
    ensures Apply(s, op).reservations
         == if Booked(s, op).Some? then s.reservations + [NewReservation(Booked(s, op).value)] else s.reservations
  {
  }

  // ---------------------------------------------------------------- history

  /** A later version of the same reservation: same owner, GPU, RAM and length, and a cancelled one unchanged. */
  ghost predicate SameReservation(r: Reservation, r': Reservation) {
    && r'.user == r.user && r'.gpu == r.gpu && r'.ram == r.ram && r'.description == r.description
    && r'.end - r'.start == r.end - r.start
    && (r.status == CANCELLED ==> r' == r)
    && (r'.cancelledAt.Some? <==> r'.status == CANCELLED)
  }

  lemma StepKeepsReservation(s: LabState, op: Op, i: nat)
    requires Inv(s) && Legal(s, op) && i < |s.reservations|
    ensures i < |Apply(s, op).reservations|
    ensures SameReservation(s.reservations[i], Apply(s, op).reservations[i])
  {
    hide Apply, Legal, Reactivated;
    StepRow(s, op, i);
    assert RowOk(s, s.reservations[i]);
    hide Inv, RowsOk;
  }

  /**
    In every run no reservation disappears or changes owner, GPU, RAM or length; CANCELLED is
    permanent, and the cancellation time is set exactly when it is reached.
  */
  lemma {:induction false} HistoryKept(s: LabState, ops: seq<Op>, i: nat)
    requires Inv(s) && LegalRun(s, ops) && i < |s.reservations|
    ensures i < |Run(s, ops).reservations|
    ensures SameReservation(s.reservations[i], Run(s, ops).reservations[i])
  {
    hide Apply, Legal, FleetOk, NamesUnique, WatchTableOk;
    if ops == [] {
      assert RowOk(s, s.reservations[i]);
    } else {
      var front := ops[..|ops| - 1];
      HistoryKept(s, front, i);
      RunInv(s, front);
      StepKeepsReservation(Run(s, front), ops[|ops| - 1], i);
    }
  }

  /**
    A reservation cancelled in the course of a run was cancelled by one of its operations, one that cancels
    it where it happens, and carries that operation's clock reading ever after.
  */
  lemma {:induction false} CancelledWhen(s: LabState, ops: seq<Op>, i: nat) returns (k: nat)
    requires Inv(s) && LegalRun(s, ops) && i < |s.reservations| && s.reservations[i].status != CANCELLED
    requires i < |Run(s, ops).reservations| && Run(s, ops).reservations[i].status == CANCELLED
    ensures k < |ops| && LegalRun(s, ops[..k]) && i < |Run(s, ops[..k]).reservations|
    ensures CancelsRow(Run(s, ops[..k]), ops[k], i, Run(s, ops[..k]).reservations[i])
    ensures Run(s, ops).reservations[i].cancelledAt == Some(ops[k].now)
  {
    hide Apply, Legal, FleetOk, RowsOk, NamesUnique, WatchTableOk, CancelsRow, SuspendsRow, RestartsRow;
    var n := |ops| - 1;
    var front := ops[..n];
    RunInv(s, front);
    HistoryKept(s, front, i);
    StepRow(Run(s, front), ops[n], i);
    if Run(s, front).reservations[i].status == CANCELLED {
      k := CancelledWhen(s, front, i);
      assert front[..k] == ops[..k];
      StepKeepsReservation(Run(s, front), ops[n], i);
    } else {
      k := n;
    }
  }

  /** The record of a GPU before an operation's clock reading is the same after it, unless it reactivates that GPU. */
  lemma StepKeepsPast(s: LabState, op: Op, g: nat, t: int)
    requires Inv(s) && Legal(s, op) && g !in Reactivated(s, op) && t < op.now
    ensures Total(OccupiedAt(g, t), Apply(s, op).reservations) == Total(OccupiedAt(g, t), s.reservations)
  {
    hide Apply, Legal, FleetOk, RowsOk, NamesUnique, WatchTableOk, Reactivated, CancelsRow, SuspendsRow, RestartsRow,
         Booked;
    var rows, after := s.reservations, Apply(s, op).reservations;
    StepNewRow(s, op);
    forall i | 0 <= i < |rows| ensures Weigh(OccupiedAt(g, t), after[i]) == Weigh(OccupiedAt(g, t), rows[i]) {
      StepRow(s, op, i);
      RestartsReactivated(s, op, i);
      if CancelsRow(s, op, i, rows[i]) {
        LiveUnstamped(s, op, i);
      }
    }
    TotalSame(OccupiedAt(g, t), after[..|rows|], OccupiedAt(g, t), rows);
    if Booked(s, op).Some? {
      assert after == after[..|rows|] + [after[|rows|]];
      TotalPush(OccupiedAt(g, t), after[..|rows|], after[|rows|]);
    } else {
      assert after == after[..|rows|];
    }
  }

  lemma LiveUnstamped(s: LabState, op: Op, i: nat)
    requires Inv(s) && i < |s.reservations| && CancelsRow(s, op, i, s.reservations[i])
    ensures s.reservations[i].cancelledAt.None?
  {
    assert RowOk(s, s.reservations[i]);
  }

  /**
    The past is settled: over any run that does not reactivate the GPU, what its record says of every
    instant before the run stays as it is, whatever is cancelled, suspended, deleted or booked.
  */
  lemma {:induction false} PastKept(s: LabState, ops: seq<Op>, g: nat, t: int)
    requires Inv(s) && LegalRun(s, ops) && NeverReactivatesGpu(s, ops, g) && t < s.clock
    ensures Total(OccupiedAt(g, t), Run(s, ops).reservations) == Total(OccupiedAt(g, t), s.reservations)
  {
    hide Apply, FleetOk, RowsOk, NamesUnique, WatchTableOk, Total;
    if ops != [] {
      var front := ops[..|ops| - 1];
      PastKept(s, front, g, t);
      RunInv(s, front);
      StepKeepsPast(Run(s, front), ops[|ops| - 1], g, t);
    }
  }

  // ---------------------------------------------------------------- deactivate, then reactivate

  /** A paused row: still SUSPENDED where it was booked, or cancelled meanwhile. */
  ghost predicate Paused(r: Reservation, r': Reservation) {
    r'.status == CANCELLED || (r'.status == SUSPENDED && r'.start == r.start && r'.end == r.end && r'.gpu == r.gpu)
  }

  ghost predicate NeverReactivatesGpu(s: LabState, ops: seq<Op>, g: nat)
    requires Shape(s) && LegalRun(s, ops)
  {
    ops == []
    || (NeverReactivatesGpu(s, ops[..|ops| - 1], g) && g !in Reactivated(Run(s, ops[..|ops| - 1]), ops[|ops| - 1]))
  }

  /** The operation turns off a GPU that was on, by its own flag or its server's. */
  ghost predicate Deactivates(s: LabState, op: Op, g: nat) {
    && Effective(s, g)
    && match op
       case SetGpuActive(h, on, _) => h == g && !on && GpuKept(s.gpus, g)
       case SetServerActive(server, on, _) => server == s.gpus[g].server && !on && ServerKept(s.servers, server)
       case _ => false
  }

  lemma DeactivationPauses(s: LabState, op: Op, i: nat)
    requires Inv(s) && Legal(s, op) && i < |s.reservations|
    requires Deactivates(s, op, s.reservations[i].gpu)
    requires s.reservations[i].status == ACTIVE && s.reservations[i].end > op.now
    ensures i < |Apply(s, op).reservations|
    ensures Apply(s, op).reservations[i] == s.reservations[i].(status := SUSPENDED)
  {
    hide FleetOk, RowsOk, NamesUnique, WatchTableOk;
  }

  lemma {:induction false} PausedStays(s: LabState, ops: seq<Op>, i: nat)
    requires Inv(s) && LegalRun(s, ops) && i < |s.reservations| && s.reservations[i].status == SUSPENDED
    requires NeverReactivatesGpu(s, ops, s.reservations[i].gpu)
    ensures i < |Run(s, ops).reservations| && Paused(s.reservations[i], Run(s, ops).reservations[i])
  {
    hide Apply, Legal, FleetOk, RowsOk, NamesUnique, WatchTableOk;
    if ops != [] {
      var front := ops[..|ops| - 1];
      PausedStays(s, front, i);
      RunInv(s, front);
      StepRow(Run(s, front), ops[|ops| - 1], i);
      RestartsReactivated(Run(s, front), ops[|ops| - 1], i);
    }
  }

  lemma ReactivationResumes(s: LabState, op: Op, i: nat)
    requires Inv(s) && Legal(s, op) && i < |s.reservations|
    requires s.reservations[i].gpu in Reactivated(s, op) && s.reservations[i].status == SUSPENDED
    ensures i < |Apply(s, op).reservations|
    ensures Apply(s, op).reservations[i] == Resumed(s, s.reservations[i], op.now)
  {
    hide Apply, Inv, Legal, Reactivated;
    StepRow(s, op, i);
    RestartsReactivated(s, op, i);
  }

  /** What the reactivation makes of a row that was paused as r. */
  lemma PausedThenResumed(s: LabState, on: Op, r: Reservation, i: nat)
    requires Inv(s) && Legal(s, on) && i < |s.reservations|
    requires r.status == SUSPENDED && r.cancelledAt.None? && r.gpu in Reactivated(s, on)
    requires Paused(r, s.reservations[i]) && SameReservation(r, s.reservations[i])
    ensures i < |Apply(s, on).reservations|
    ensures Apply(s, on).reservations[i].status == CANCELLED || Apply(s, on).reservations[i] == Resumed(s, r, on.now)
  {
    assert RowOk(s, s.reservations[i]);
    if s.reservations[i].status == SUSPENDED {
      ReactivationResumes(s, on, i);
    } else {
      StepRow(s, on, i);
    }
  }

  /** A suspended row comes back with its original length, unless it was cancelled in between. */
  lemma PausedUntilReactivated(s: LabState, ops: seq<Op>, on: Op, i: nat)
    requires Inv(s) && LegalRun(s, ops) && i < |s.reservations| && s.reservations[i].status == SUSPENDED
    requires NeverReactivatesGpu(s, ops, s.reservations[i].gpu)
    requires Legal(Run(s, ops), on) && s.reservations[i].gpu in Reactivated(Run(s, ops), on)
    ensures var end := Apply(Run(s, ops), on);
            && i < |end.reservations|
            && (end.reservations[i].status == CANCELLED
                || end.reservations[i] == Resumed(s, s.reservations[i], on.now))
  {
    assert RowOk(s, s.reservations[i]);
    PausedStays(s, ops, i);
    HistoryKept(s, ops, i);
    RunInv(s, ops);
    PausedThenResumed(Run(s, ops), on, s.reservations[i], i);
  }

  /**
    Deactivate a GPU or its server, do anything that does not reactivate the GPU, then reactivate it:
    an upcoming ACTIVE reservation is back ACTIVE at the reactivation instant plus the delay with its
    original length, unless it was cancelled in between.
  */
  lemma DeactivateThenReactivate(s: LabState, off: Op, paused: LabState, ops: seq<Op>, on: Op, i: nat)
    requires Inv(s) && Legal(s, off) && paused == Apply(s, off) && i < |s.reservations|
    requires Deactivates(s, off, s.reservations[i].gpu)
    requires s.reservations[i].status == ACTIVE && s.reservations[i].end > off.now
    requires LegalRun(paused, ops) && NeverReactivatesGpu(paused, ops, s.reservations[i].gpu)
    requires Legal(Run(paused, ops), on) && s.reservations[i].gpu in Reactivated(Run(paused, ops), on)
    ensures var end := Apply(Run(paused, ops), on);
            var at := match s.regulation.delayMinutes
                      case Some(minutes) => on.now + minutes * 60_000_000
                      case None => on.now + 3_600_000_000;
            var length := s.reservations[i].end - s.reservations[i].start;
            && i < |end.reservations|
            && (end.reservations[i].status == CANCELLED
                || end.reservations[i] == s.reservations[i].(start := at, end := at + length))
  {
    hide Apply, Legal, Inv, Reactivated, NeverReactivatesGpu, LegalRun, Run, Deactivates;
    StepInv(s, off);
    DeactivationPauses(s, off, i);
    PausedUntilReactivated(paused, ops, on, i);
  }
}
