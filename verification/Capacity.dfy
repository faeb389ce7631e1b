/**
  Capacity over whole runs. Booking, cancelling, suspending, deleting and reviving can never put a
  GPU above its RAM; a reactivation, which restarts every suspended reservation at one instant
  without a capacity check, does so exactly when the RAM it resumes on some GPU exceeds that GPU's
  total. The same holds for the historical record.
*/
module Capacity {
  import opened Wrappers
  import opened Entities
  import opened Measures
  import opened Sweep
  import opened SweepProperties
  import opened SlotTime
  import opened SlotViews
  import opened SweepOrder
  import opened SweepReorder
  import opened LabModel
  import opened Invariants

  /** The load on a GPU at an instant: what is ACTIVE now, or the historical record. */
  ghost function Load(history: bool, g: nat, t: int): Measure {
    if history then OccupiedAt(g, t) else ActiveAt(g, t)
  }

  ghost predicate Fits(gpus: seq<Gpu>, rows: seq<Reservation>, history: bool) {
    forall g, t :: 0 <= g < |gpus| ==> Total(Load(history, g, t), rows) <= gpus[g].totalRam
  }

  /** At every instant the ACTIVE reservations of every GPU fit its RAM. */
  ghost predicate WithinCapacity(s: LabState) {
    Fits(s.gpus, s.reservations, false)
  }

  /** So do all reservations ever made, each cut off at its cancellation. */
  ghost predicate HistoryWithinCapacity(s: LabState) {
    Fits(s.gpus, s.reservations, true)
  }

  /** The GPUs whose suspended reservations the operation resumes. */
  ghost function Reactivated(s: LabState, op: Op): set<nat> {
    match op
    case SetServerActive(server, on, _) =>
      if ServerKept(s.servers, server) && !s.servers[server].isActive && on then ActiveGpusOf(s.gpus, server) else {}
    case SetGpuActive(g, on, _) =>
      if GpuKept(s.gpus, g) && !s.gpus[g].isActive && on && s.gpus[g].server < |s.servers|
         && s.servers[s.gpus[g].server].isActive
      then {g} else {}
    case _ => {}
  }

  ghost predicate ResumedRamFits(s: LabState, gs: set<nat>) {
    forall g :: g in gs ==> g < |s.gpus| && Total(SuspendedOn(g), s.reservations) <= s.gpus[g].totalRam
  }

  /** What a reactivation resumes on each GPU sums to at most that GPU's RAM. */
  ghost predicate ResumptionFits(s: LabState, op: Op) {
    ResumedRamFits(s, Reactivated(s, op))
  }

  /** The GPU that the operation revives, if any. */
  ghost function RevivedGpu(s: LabState, op: Op): Option<nat> {
    if !op.AddGpu? || !ServerKept(s.servers, op.server) then None
    else
      var existing := FindGpu(s.gpus, op.server, op.index);
      if existing.Some? && s.gpus[existing.value].deletedAt.Some? then existing else None
  }

  /** A revived GPU's new RAM covers everything that was ever booked on it. */
  ghost predicate RevivalFits(s: LabState, op: Op) {
    var g := RevivedGpu(s, op);
    g.Some? ==> forall t :: Total(OccupiedAt(g.value, t), s.reservations) <= op.totalRam
  }

  // ---------------------------------------------------------------- the sweep measures the table

  lemma {:induction false} ClaimsGather(rows: seq<Reservation>, order: seq<nat>, g: nat, from: int, until: int, t: int)
    requires Below(order, |rows|) && from <= t < until
    requires forall k :: 0 <= k < |order| ==> rows[order[k]].gpu == g && rows[order[k]].status == ACTIVE
    ensures Held(ClaimsOf(rows, order), from, until, t, None) == Total(ActiveAt(g, t), Gather(rows, order))
  {
    if order != [] {
      var n := |order| - 1;
      assert ClaimsOf(rows, order)[..n] == ClaimsOf(rows, order[..n]);
      assert Gather(rows, order)[..n] == Gather(rows, order[..n]);
      ClaimsGather(rows, order[..n], g, from, until, t);
    }
  }

  /** Inside the window, whatever order the query answered in, the claims hold exactly the GPU's ACTIVE RAM. */
  lemma ClaimsMeasureUsage(rows: seq<Reservation>, order: seq<nat>, g: nat, from: int, until: int, t: int)
    requires Enumerates(order, OverlapIds(rows, g, from, until)) && from <= t < until
    ensures Below(order, |rows|)
    ensures Held(ClaimsOf(rows, order), from, until, t, None) == Total(ActiveAt(g, t), rows)
  {
    EnumeratesBelow(order, OverlapIds(rows, g, from, until), |rows|);
    forall k | 0 <= k < |order| ensures rows[order[k]].gpu == g && rows[order[k]].status == ACTIVE {
      assert order[k] in order;
    }
    ClaimsGather(rows, order, g, from, until, t);
    GatherTotal(ActiveAt(g, t), rows, order);
  }

  /** A booking that passed the capacity test fits at every instant of its window, in any query order. */
  lemma BookingFits(s: LabState, b: Booking, now: int, order: seq<nat>, t: int)
    requires s.regulation.slotMinutes > 0
    requires Enumerates(order, OverlapIds(s.reservations, b.gpu, b.start, b.end))
    requires Below(order, |s.reservations|) && CheckBooking(s, b, now, order).Pass?
    requires b.start <= t < b.end
    ensures Total(ActiveAt(b.gpu, t), s.reservations) + b.ram <= s.gpus[b.gpu].totalRam
  {
    ClaimsMeasureUsage(s.reservations, order, b.gpu, b.start, b.end, t);
    SweepCoversUsage(ClaimsOf(s.reservations, order), b.start, b.end, t);
  }

  /** On a query answered ends-first, the capacity test says exactly whether the request fits at every instant. */
  lemma CapacityTestMeansFits(s: LabState, b: Booking, order: seq<nat>)
    requires RowsOk(s) && b.gpu < |s.gpus| && b.start < b.end && Below(order, |s.reservations|)
    requires Enumerates(order, OverlapIds(s.reservations, b.gpu, b.start, b.end))
    requires EndsFirst(ClaimsOf(s.reservations, order))
    ensures Peak(ClaimsOf(s.reservations, order), b.start, b.end) + b.ram <= s.gpus[b.gpu].totalRam
       <==> FitsThroughout(s, b)
  {
    hide Peak;
    var claims := ClaimsOf(s.reservations, order);
    forall k | 0 <= k < |order| ensures claims[k].ram >= 0 {
      assert RowOk(s, s.reservations[order[k]]);
    }
    CapacityTestExact(claims, b.start, b.end, b.ram, s.gpus[b.gpu].totalRam);
    if Peak(claims, b.start, b.end) + b.ram <= s.gpus[b.gpu].totalRam {
      forall t | b.start <= t < b.end
        ensures Total(ActiveAt(b.gpu, t), s.reservations) + b.ram <= s.gpus[b.gpu].totalRam
      {
        ClaimsMeasureUsage(s.reservations, order, b.gpu, b.start, b.end, t);
      }
    }
    if FitsThroughout(s, b) {
      forall t | b.start <= t < b.end
        ensures Held(claims, b.start, b.end, t, None) + b.ram <= s.gpus[b.gpu].totalRam
      {
        ClaimsMeasureUsage(s.reservations, order, b.gpu, b.start, b.end, t);
      }
    }
  }

  /** At every instant of its window the request fits beside what is ACTIVE on its GPU. */
  ghost predicate FitsThroughout(s: LabState, b: Booking)
    requires b.gpu < |s.gpus|
  {
    forall t :: b.start <= t < b.end ==> Total(ActiveAt(b.gpu, t), s.reservations) + b.ram <= s.gpus[b.gpu].totalRam
  }

  /** The whole reservation table as claims, which queries pick from. */
  ghost function TableClaims(rows: seq<Reservation>): seq<Claim<int>> {
    seq(|rows|, i requires 0 <= i < |rows| => ClaimOf(rows[i]))
  }

  lemma TableClaimsOk(s: LabState)
    requires RowsOk(s)
    ensures Proper(TableClaims(s.reservations)) && NonNegative(TableClaims(s.reservations))
  {
    forall i | 0 <= i < |s.reservations|
      ensures s.reservations[i].start < s.reservations[i].end && s.reservations[i].ram >= 0
    {
      assert RowOk(s, s.reservations[i]);
    }
  }

  /** A request that passes every check but the capacity test. */
  ghost predicate OnlyCapacityLeft(s: LabState, b: Booking, now: int)
    requires s.regulation.slotMinutes > 0
  {
    && b.user in s.users && b.gpu < |s.gpus|
    && CheckRequest(s.gpus, s.servers, s.regulation, b, now).Pass?
    && Total(BookingsOf(b.user, now), s.reservations) < s.regulation.maxActivePerUser
    && var held := GpusHeldDuring(s.reservations, b.user, b.start, b.end);
       b.gpu in held || |held| < s.users[b.user]
  }

  /**
    The promise of the slot view: a request for the whole range that passes every other check is booked
    if and only if every slot shows at least its RAM. It holds when the two queries, the view's and the
    booking's, list start-first the same ties off the slot edges, and the booking's none at them.
  */
  lemma SlotViewAdmits(
      s: LabState, b: Booking, now: int, shown: seq<nat>, booked: seq<nat>, slots: seq<(int, int)>, step: int)
    requires Inv(s) && OnlyCapacityLeft(s, b, now) && step > 0
    requires Below(shown, |s.reservations|) && Below(booked, |s.reservations|)
    requires Enumerates(shown, OverlapIds(s.reservations, b.gpu, b.start, b.end))
    requires Enumerates(booked, OverlapIds(s.reservations, b.gpu, b.start, b.end))
    requires SlotView(slots, ClaimsOf(s.reservations, shown), b.start, b.end, step, s.gpus[b.gpu].totalRam)
    requires BookedTiesShown(TableClaims(s.reservations), shown, booked, b.start, b.end, step)
    requires ShownTiesBooked(TableClaims(s.reservations), shown, booked, b.start, b.end, step)
    ensures CheckBooking(s, b, now, booked).Pass? <==> Requestable(slots, b.ram)
  {
    hide Peak, FleetOk, RowsOk, NamesUnique, WatchTableOk, SlotView, NotTooMuch, NotTooLittle, Requestable,
         BookedTiesShown, ShownTiesBooked;
    var base := TableClaims(s.reservations);
    TableClaimsOk(s);
    assert ClaimsOf(s.reservations, shown) == Pick(base, shown);
    assert ClaimsOf(s.reservations, booked) == Pick(base, booked);
    TiesShownSweep(base, shown, booked, b.start, b.end, step);
    NoSlotHigher(base, shown, booked, b.start, b.end, step);
    ShowsExactly(slots, Pick(base, shown), Pick(base, booked), b.start, b.end, step, s.gpus[b.gpu].totalRam);
  }

  // ---------------------------------------------------------------- case by case

  /** From the clock on, a GPU that is on has no suspended row and every cancelled row is cut off. */
  lemma HistoryIsActive(s: LabState, g: nat, t: int)
    requires RowsOk(s) && Effective(s, g) && s.clock <= t
    ensures Total(OccupiedAt(g, t), s.reservations) == Total(ActiveAt(g, t), s.reservations)
  {
    forall i | 0 <= i < |s.reservations|
      ensures Weigh(OccupiedAt(g, t), s.reservations[i]) == Weigh(ActiveAt(g, t), s.reservations[i])
    {
      assert RowOk(s, s.reservations[i]);
    }
    TotalSame(OccupiedAt(g, t), s.reservations, ActiveAt(g, t), s.reservations);
  }

  /** A booking that passed its checks keeps the bound. */
  lemma BookedFits(s: LabState, b: Booking, now: int, order: seq<nat>, history: bool)
    requires Inv(s) && Fits(s.gpus, s.reservations, history) && s.clock <= now
    requires Enumerates(order, OverlapIds(s.reservations, b.gpu, b.start, b.end))
    requires Below(order, |s.reservations|) && CheckBooking(s, b, now, order).Pass?
    ensures Fits(s.gpus, s.reservations + [NewReservation(b)], history)
  {
    var rows := s.reservations + [NewReservation(b)];
    forall g, t | 0 <= g < |s.gpus| ensures Total(Load(history, g, t), rows) <= s.gpus[g].totalRam {
      assert Total(Load(history, g, t), s.reservations) <= s.gpus[g].totalRam;
      TotalPush(Load(history, g, t), s.reservations, NewReservation(b));
      if g == b.gpu && b.start <= t < b.end {
        BookingFits(s, b, now, order, t);
        HistoryIsActive(s, g, t);
      }
    }
  }

  /** Cancelling and suspending never make a row heavier. */
  lemma UpdateLighter(s: LabState, u: RowUpdate, r: Reservation, history: bool, g: nat, t: int)
    requires !u.ResumeOn? && RowOk(s, r)
    ensures Weigh(Load(history, g, t), Rewrite(u, r)) <= Weigh(Load(history, g, t), r)
  {
  }

  /** A change after which no row is heavier keeps the bound. */
  lemma LighterFits(s: LabState, after: LabState, history: bool)
    requires Fits(s.gpus, s.reservations, history)
    requires |after.reservations| == |s.reservations| && |after.gpus| == |s.gpus|
    requires forall g :: 0 <= g < |s.gpus| ==> after.gpus[g].totalRam == s.gpus[g].totalRam
    requires forall g, t, i :: 0 <= i < |s.reservations| ==>
      Weigh(Load(history, g, t), after.reservations[i]) <= Weigh(Load(history, g, t), s.reservations[i])
    ensures Fits(after.gpus, after.reservations, history)
  {
    forall g, t | 0 <= g < |s.gpus| ensures Total(Load(history, g, t), after.reservations) <= after.gpus[g].totalRam {
      assert Total(Load(history, g, t), s.reservations) <= s.gpus[g].totalRam;
      TotalMonotone(Load(history, g, t), after.reservations, Load(history, g, t), s.reservations);
    }
  }

  lemma UpdatedFits(s: LabState, after: LabState, u: RowUpdate, history: bool)
    requires Fits(s.gpus, s.reservations, history) && RowsOk(s)
    requires !u.ResumeOn? && after.reservations == RewriteAll(u, s.reservations)
    requires |after.gpus| == |s.gpus| && forall g :: 0 <= g < |s.gpus| ==> after.gpus[g].totalRam == s.gpus[g].totalRam
    ensures Fits(after.gpus, after.reservations, history)
  {
    forall g, t, i | 0 <= i < |s.reservations|
      ensures Weigh(Load(history, g, t), after.reservations[i]) <= Weigh(Load(history, g, t), s.reservations[i])
    {
      assert RowOk(s, s.reservations[i]);
      UpdateLighter(s, u, s.reservations[i], history, g, t);
    }
    LighterFits(s, after, history);
  }

  lemma CancelFits(s: LabState, id: nat, now: int, history: bool)
    requires Inv(s) && Fits(s.gpus, s.reservations, history)
    ensures Fits(s.gpus, ApplyCancel(s, id, now).reservations, history)
  {
    forall g, t, i | 0 <= i < |s.reservations|
      ensures Weigh(Load(history, g, t), ApplyCancel(s, id, now).reservations[i])
           <= Weigh(Load(history, g, t), s.reservations[i])
    {
      assert RowOk(s, s.reservations[i]);
    }
    LighterFits(s, ApplyCancel(s, id, now), history);
  }

  /**
    On a GPU that was off, nothing that counts before the resumption reaches past the clock, so from
    the restart instant on only resumed rows weigh, and at that instant all of them do.
  */
  lemma ResumedLoad(s: LabState, gs: set<nat>, at: int, g: nat, t: int, history: bool)
    requires RowsOk(s) && g in gs && g < |s.gpus| && !Effective(s, g) && s.clock <= at
    ensures var rows := RewriteAll(ResumeOn(gs, at), s.reservations);
            var load := Load(history, g, t);
            && (t < at ==> Total(load, rows) <= Total(load, s.reservations))
            && (t >= at ==> Total(load, rows) <= Total(SuspendedOn(g), s.reservations))
            && (t == at ==> Total(load, rows) == Total(SuspendedOn(g), s.reservations))
  {
    var rows := RewriteAll(ResumeOn(gs, at), s.reservations);
    var load := Load(history, g, t);
    forall i | 0 <= i < |rows|
      ensures t < at ==> Weigh(load, rows[i]) <= Weigh(load, s.reservations[i])
      ensures t >= at ==> Weigh(load, rows[i]) <= Weigh(SuspendedOn(g), s.reservations[i])
      ensures t == at ==> Weigh(load, rows[i]) == Weigh(SuspendedOn(g), s.reservations[i])
    {
      assert RowOk(s, s.reservations[i]);
    }
    if t < at {
      TotalMonotone(load, rows, load, s.reservations);
    } else {
      TotalMonotone(load, rows, SuspendedOn(g), s.reservations);
      if t == at {
        TotalSame(load, rows, SuspendedOn(g), s.reservations);
      }
    }
  }

  /** Resuming keeps the bound if and only if, GPU by GPU, the resumed RAM fits. */
  lemma ResumedFits(s: LabState, after: LabState, gs: set<nat>, at: int, history: bool)
    requires Fits(s.gpus, s.reservations, history) && RowsOk(s) && s.clock <= at
    requires forall g :: g in gs ==> g < |s.gpus| && !Effective(s, g)
    requires after.reservations == RewriteAll(ResumeOn(gs, at), s.reservations)
    requires |after.gpus| == |s.gpus| && forall g :: 0 <= g < |s.gpus| ==> after.gpus[g].totalRam == s.gpus[g].totalRam
    ensures Fits(after.gpus, after.reservations, history) <==> ResumedRamFits(s, gs)
  {
    if ResumedRamFits(s, gs) {
      forall g, t | 0 <= g < |after.gpus|
        ensures Total(Load(history, g, t), after.reservations) <= after.gpus[g].totalRam
      {
        assert Total(Load(history, g, t), s.reservations) <= s.gpus[g].totalRam;
        if g in gs {
          ResumedLoad(s, gs, at, g, t, history);
        } else {
          TotalSame(Load(history, g, t), after.reservations, Load(history, g, t), s.reservations);
        }
      }
    }
    if Fits(after.gpus, after.reservations, history) {
      forall g | g in gs ensures Total(SuspendedOn(g), s.reservations) <= s.gpus[g].totalRam {
        ResumedLoad(s, gs, at, g, at, history);
        assert Total(Load(history, g, at), after.reservations) <= after.gpus[g].totalRam;
      }
    }
  }

  lemma SetServerFits(s: LabState, server: nat, on: bool, now: int, history: bool)
    requires Inv(s) && Fits(s.gpus, s.reservations, history) && s.clock <= now
    ensures var op := SetServerActive(server, on, now);
            var after := ApplySetServerActive(s, server, on, now);
            Fits(after.gpus, after.reservations, history) <==> ResumedRamFits(s, Reactivated(s, op))
  {
    hide Fits, NamesUnique, WatchTableOk;
    var after := ApplySetServerActive(s, server, on, now);
    if ServerKept(s.servers, server) && s.servers[server].isActive && !on {
      UpdatedFits(s, after, SuspendOn(GpusOf(s.gpus, server), now), history);
    } else if ServerKept(s.servers, server) && !s.servers[server].isActive && on {
      ResumedFits(s, after, ActiveGpusOf(s.gpus, server), ResumeAt(s, now), history);
    }
  }

  lemma SetGpuFits(s: LabState, g: nat, on: bool, now: int, history: bool)
    requires Inv(s) && Fits(s.gpus, s.reservations, history) && s.clock <= now
    ensures var op := SetGpuActive(g, on, now);
            var after := ApplySetGpuActive(s, g, on, now);
            Fits(after.gpus, after.reservations, history) <==> ResumedRamFits(s, Reactivated(s, op))
  {
    hide Fits, FleetOk, NamesUnique, WatchTableOk;
    var after := ApplySetGpuActive(s, g, on, now);
    if GpuKept(s.gpus, g) && Effective(s, g) && !on {
      UpdatedFits(s, after, SuspendOn({g}, now), history);
    } else if g in Reactivated(s, SetGpuActive(g, on, now)) {
      ResumedFits(s, after, {g}, ResumeAt(s, now), history);
    } else {
      LighterFits(s, after, history);
    }
  }

  lemma RetiredFits(s: LabState, gs: set<nat>, now: int, history: bool)
    requires Inv(s) && Fits(s.gpus, s.reservations, history)
    ensures Fits(Retired(s, gs, now).gpus, Retired(s, gs, now).reservations, history)
  {
    UpdatedFits(s, Retired(s, gs, now), CancelOnGpus(gs, now), history);
  }

  /** A new GPU holds nothing; a revived one holds nothing ACTIVE, and keeps its record. */
  lemma AddGpuFits(s: LabState, server: nat, index: int, model: string, totalRam: int, now: int, history: bool)
    requires Inv(s) && Fits(s.gpus, s.reservations, history) && totalRam > 0
    ensures var op := AddGpu(server, index, model, totalRam, now);
            var after := ApplyAddGpu(s, server, index, model, totalRam);
            Fits(after.gpus, after.reservations, history) <==> (history ==> RevivalFits(s, op))
  {
    hide FleetOk, NamesUnique, WatchTableOk;
    var op := AddGpu(server, index, model, totalRam, now);
    var after := ApplyAddGpu(s, server, index, model, totalRam);
    forall g, t | 0 <= g < |after.gpus|
      ensures if history && RevivedGpu(s, op) == Some(g)
              then Load(history, g, t) == OccupiedAt(g, t) && after.gpus[g].totalRam == totalRam
              else Total(Load(history, g, t), after.reservations) <= after.gpus[g].totalRam
    {
      if g == |s.gpus| || RevivedGpu(s, op) == Some(g) {
        if g == |s.gpus| || !history {
          forall i | 0 <= i < |s.reservations| ensures Weigh(Load(history, g, t), s.reservations[i]) == 0 {
            assert RowOk(s, s.reservations[i]);
          }
          TotalZero(Load(history, g, t), s.reservations);
        }
      } else {
        assert Total(Load(history, g, t), s.reservations) <= s.gpus[g].totalRam;
      }
    }
    if history && RevivedGpu(s, op).Some? {
      var g := RevivedGpu(s, op).value;
      if Fits(after.gpus, after.reservations, history) {
        forall t ensures Total(OccupiedAt(g, t), s.reservations) <= totalRam {
          assert Total(Load(history, g, t), after.reservations) <= after.gpus[g].totalRam;
        }
      }
    }
  }

  // ---------------------------------------------------------------- one operation

  lemma StepBooking(s: LabState, op: Op, history: bool)
    requires Inv(s) && Legal(s, op) && Fits(s.gpus, s.reservations, history) && (op.Create? || op.AutoBook?)
    ensures Fits(Apply(s, op).gpus, Apply(s, op).reservations, history)
  {
    hide Fits, FleetOk, RowsOk, NamesUnique, WatchTableOk, CheckBooking;
    match op
    case Create(b, now, order) =>
      if CheckBooking(s, b, now, order).Pass? {
        BookedFits(s, b, now, order, history);
      }
    case AutoBook(w, now, order, marked) =>
      var window := WindowOf(s.watches[w], s.regulation, now);
      if window.Some? && CheckBooking(s, BookingFor(s.watches[w], window.value), now, order).Pass? {
        BookedFits(s, BookingFor(s.watches[w], window.value), now, order, history);
      }
  }

  lemma StepCancelling(s: LabState, op: Op, history: bool)
    requires Inv(s) && Legal(s, op) && Fits(s.gpus, s.reservations, history)
    requires op.Cancel? || op.CancelForUser? || op.CancelForUserOnServer? || op.CancelLabWide?
    ensures Fits(Apply(s, op).gpus, Apply(s, op).reservations, history)
  {
    hide Fits, FleetOk, RowsOk, NamesUnique, WatchTableOk;
    match op
    case Cancel(id, now) => CancelFits(s, id, now, history);
    case CancelForUser(user, asOf, now) => UpdatedFits(s, Effect(s, op), CancelOfUser(user, asOf, now), history);
    case CancelForUserOnServer(user, server, now) =>
      UpdatedFits(s, Effect(s, op), CancelOfUserOn(user, GpusOf(s.gpus, server), now), history);
    case CancelLabWide(now) =>
      UpdatedFits(s, Effect(s, op), CancelInRange(now, now + s.regulation.horizonDays * DAY, now), history);
  }

  lemma StepDeleting(s: LabState, op: Op, history: bool)
    requires Inv(s) && Legal(s, op) && Fits(s.gpus, s.reservations, history)
    requires op.DeleteServer? || op.DeleteGpu?
    ensures Fits(Apply(s, op).gpus, Apply(s, op).reservations, history)
  {
    hide Fits, FleetOk, RowsOk, NamesUnique, WatchTableOk, Retired;
    match op
    case DeleteServer(server, now) => RetiredFits(s, KeptGpusOf(s.gpus, server), now, history);
    case DeleteGpu(g, now) => RetiredFits(s, {g}, now, history);
  }

  lemma StepElsewhere(s: LabState, op: Op, history: bool)
    requires Inv(s) && Legal(s, op) && Fits(s.gpus, s.reservations, history)
    requires op.CreateServer? || op.CreateWatch? || op.CancelWatch? || op.Cleanup? || op.Look?
    ensures Fits(Apply(s, op).gpus, Apply(s, op).reservations, history)
  {
  }

  /** Only switching and reviving can break the bound. */
  lemma StepKeeps(s: LabState, op: Op, history: bool)
    requires Inv(s) && Legal(s, op) && Fits(s.gpus, s.reservations, history)
    requires !op.SetServerActive? && !op.SetGpuActive? && !op.AddGpu?
    ensures Fits(Apply(s, op).gpus, Apply(s, op).reservations, history)
  {
    hide Apply, Fits, FleetOk, RowsOk, NamesUnique, WatchTableOk;
    if op.Create? || op.AutoBook? {
      StepBooking(s, op, history);
    } else if op.DeleteServer? || op.DeleteGpu? {
      StepDeleting(s, op, history);
    } else if op.CreateServer? || op.CreateWatch? || op.CancelWatch? || op.Cleanup? || op.Look? {
      StepElsewhere(s, op, history);
    } else {
      StepCancelling(s, op, history);
    }
  }

  /**
    Any one operation keeps the capacity bound if and only if what it resumes fits; the historical
    bound, if and only if moreover no GPU is revived smaller than its own record.
  */
  lemma StepFits(s: LabState, op: Op, history: bool)
    requires Inv(s) && Legal(s, op) && Fits(s.gpus, s.reservations, history)
    ensures Fits(Apply(s, op).gpus, Apply(s, op).reservations, history)
       <==> ResumptionFits(s, op) && (history ==> RevivalFits(s, op))
  {
    hide Fits, FleetOk, RowsOk, NamesUnique, WatchTableOk, ApplyCreate, ApplyAutoBook, ApplyCancel, Updated,
         ApplySetServerActive, ApplySetGpuActive, ApplyDeleteServer, ApplyDeleteGpu, ApplyCreateServer, ApplyAddGpu,
         ApplyCreateWatch, ApplyCancelWatch, ApplyCleanup;
    if op.SetServerActive? {
      SetServerFits(s, op.server, op.on, op.now, history);
    } else if op.SetGpuActive? {
      SetGpuFits(s, op.gpu, op.on, op.now, history);
    } else if op.AddGpu? {
      AddGpuFits(s, op.server, op.index, op.model, op.totalRam, op.now, history);
    } else {
      StepKeeps(s, op, history);
    }
  }

  // ---------------------------------------------------------------- runs

  /** Every reactivation in the run fits where it happens, and (for the record) every revival does. */
  ghost predicate RunFits(s: LabState, ops: seq<Op>, history: bool)
    requires Shape(s) && LegalRun(s, ops)
  {
    ops == []
    || var front := ops[..|ops| - 1];
       && RunFits(s, front, history)
       && ResumptionFits(Run(s, front), ops[|ops| - 1])
       && (history ==> RevivalFits(Run(s, front), ops[|ops| - 1]))
  }

  /** After every operation of the run the bound held. */
  ghost predicate AlwaysFits(s: LabState, ops: seq<Op>, history: bool)
    requires Shape(s) && LegalRun(s, ops)
  {
    && Fits(Run(s, ops).gpus, Run(s, ops).reservations, history)
    && (ops == [] || AlwaysFits(s, ops[..|ops| - 1], history))
  }

  /**
    From an empty lab, with a clock that never goes back, the bound holds after every operation if
    and only if every reactivation fits where it happens (and every revival, for the record).
  */
  lemma {:induction false} RunsFit(s: LabState, ops: seq<Op>, history: bool)
    requires Empty(s) && LegalRun(s, ops)
    ensures AlwaysFits(s, ops, history) <==> RunFits(s, ops, history)
  {
    hide Apply, Legal, Inv;
    if ops == [] {
      assert Fits(s.gpus, s.reservations, history);
    } else {
      var front := ops[..|ops| - 1];
      RunsFit(s, front, history);
      ReachableInv(s, front);
      if AlwaysFits(s, front, history) {
        StepFits(Run(s, front), ops[|ops| - 1], history);
      }
    }
  }

  /** Without reactivation, no run whatever breaks the capacity of any GPU at any instant. */
  lemma {:induction false} NoReactivationFits(s: LabState, ops: seq<Op>)
    requires Empty(s) && LegalRun(s, ops) && NeverReactivates(s, ops)
    ensures WithinCapacity(Run(s, ops))
  {
    hide Apply, Legal, Inv;
    if ops == [] {
      assert WithinCapacity(s);
    } else {
      var front := ops[..|ops| - 1];
      NoReactivationFits(s, front);
      ReachableInv(s, front);
      StepFits(Run(s, front), ops[|ops| - 1], false);
    }
  }

  ghost predicate NeverReactivates(s: LabState, ops: seq<Op>)
    requires Shape(s) && LegalRun(s, ops)
  {
    ops == []
    || (NeverReactivates(s, ops[..|ops| - 1]) && Reactivated(Run(s, ops[..|ops| - 1]), ops[|ops| - 1]) == {})
  }

  ghost predicate NeverRevivesGpus(s: LabState, ops: seq<Op>)
    requires Shape(s) && LegalRun(s, ops)
  {
    ops == []
    || (NeverRevivesGpus(s, ops[..|ops| - 1]) && RevivedGpu(Run(s, ops[..|ops| - 1]), ops[|ops| - 1]).None?)
  }

  /** Without reactivation or GPU revival, the historical record never exceeds a GPU's RAM, past or future. */
  lemma {:induction false} HistoryFits(s: LabState, ops: seq<Op>)
    requires Empty(s) && LegalRun(s, ops) && NeverReactivates(s, ops) && NeverRevivesGpus(s, ops)
    ensures HistoryWithinCapacity(Run(s, ops))
  {
    hide Apply, Legal, Inv;
    if ops == [] {
      assert HistoryWithinCapacity(s);
    } else {
      var front := ops[..|ops| - 1];
      HistoryFits(s, front);
      ReachableInv(s, front);
      StepFits(Run(s, front), ops[|ops| - 1], true);
    }
  }
}
