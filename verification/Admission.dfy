/**
  What a request must meet to be admitted, and which unmet requirement it is refused for, written out
  on the stored rows: the booking's checks and the watch's checks.
*/
module Admission {
  import opened Wrappers
  import opened Entities
  import opened Measures
  import opened Sweep
  import opened SweepProperties
  import opened SlotTime
  import opened LabModel
  import opened Invariants
  import opened Capacity

  predicate HeldStatus(r: Reservation) {
    r.status == ACTIVE || r.status == SUSPENDED
  }

  /** The user's ACTIVE and SUSPENDED rows that end after now. */
  ghost function HeldRows(rows: seq<Reservation>, user: int, now: int): set<nat> {
    set i | 0 <= i < |rows| && rows[i].user == user && HeldStatus(rows[i]) && now < rows[i].end
  }

  /** What counts against the cap is how many such rows there are. */
  lemma {:induction false} CountIsSize(rows: seq<Reservation>, user: int, now: int)
    ensures Total(BookingsOf(user, now), rows) == |HeldRows(rows, user, now)|
  {
    if rows == [] {
      assert HeldRows(rows, user, now) == {};
    } else {
      var n := |rows| - 1;
      CountIsSize(rows[..n], user, now);
      var front := HeldRows(rows[..n], user, now);
      if rows[n].user == user && HeldStatus(rows[n]) && now < rows[n].end {
        assert HeldRows(rows, user, now) == front + {n};
      } else {
        assert HeldRows(rows, user, now) == front;
      }
    }
  }

  /** The GPUs of the user's ACTIVE and SUSPENDED rows that share an instant with [start, end). */
  ghost function GpusSharing(rows: seq<Reservation>, user: int, start: int, end: int): set<nat> {
    set i | 0 <= i < |rows| && rows[i].user == user && HeldStatus(rows[i])
            && rows[i].start < end && start < rows[i].end :: rows[i].gpu
  }

  lemma SharingIsHeld(rows: seq<Reservation>, user: int, start: int, end: int)
    ensures GpusHeldDuring(rows, user, start, end) == GpusSharing(rows, user, start, end)
  {
    var held, sharing := GpusHeldDuring(rows, user, start, end), GpusSharing(rows, user, start, end);
    forall g | g in held ensures g in sharing {
      var i :| 0 <= i < |rows| && HoldsDuring(rows[i], user, start, end) && rows[i].gpu == g;
      assert HeldStatus(rows[i]);
    }
    forall g | g in sharing ensures g in held {
      var i :| 0 <= i < |rows| && rows[i].user == user && HeldStatus(rows[i])
               && rows[i].start < end && start < rows[i].end && rows[i].gpu == g;
      assert HoldsDuring(rows[i], user, start, end);
    }
  }

  // ---------------------------------------------------------------- bookings

  /** The requirement whose violation is reported as e. Durations are in microseconds. */
  ghost predicate BookingMeets(s: LabState, b: Booking, now: int, order: seq<nat>, e: BookingError)
    requires s.regulation.slotMinutes > 0 && Below(order, |s.reservations|)
  {
    match e
    case Unauthenticated => b.user in s.users
    case GpuNotFound => b.gpu < |s.gpus|
    case BadOrder => b.start < b.end
    case GpuInactive =>
      b.gpu < |s.gpus| && s.gpus[b.gpu].isActive
      && s.gpus[b.gpu].server < |s.servers| && s.servers[s.gpus[b.gpu].server].isActive
    case Misaligned =>
      Seconds(b.start) % (s.regulation.slotMinutes * 60) == 0 && Seconds(b.end) % (s.regulation.slotMinutes * 60) == 0
    case DurationExceeded => b.end - b.start <= s.regulation.maxDurationHours * 3_600_000_000
    case InThePast => now <= b.start
    case BeyondHorizon => b.start <= now + s.regulation.horizonDays * 86_400_000_000
    case RamLimit =>
      b.gpu < |s.gpus| && 0 < b.ram <= s.regulation.maxRamGb * 1024 && b.ram <= s.gpus[b.gpu].totalRam
    case ActiveLimit => |HeldRows(s.reservations, b.user, now)| < s.regulation.maxActivePerUser
    case CapacityExceeded =>
      b.gpu < |s.gpus| && Peak(ClaimsOf(s.reservations, order), b.start, b.end) + b.ram <= s.gpus[b.gpu].totalRam
    case ConcurrentGpuConflict =>
      b.user in s.users
      && var held := GpusSharing(s.reservations, b.user, b.start, b.end);
         b.gpu in held || |held| < s.users[b.user]
  }

  /** The order in which the checks are made. */
  function BookingRank(e: BookingError): nat {
    match e
    case Unauthenticated => 0
    case GpuNotFound => 1
    case BadOrder => 2
    case GpuInactive => 3
    case Misaligned => 4
    case DurationExceeded => 5
    case InThePast => 6
    case BeyondHorizon => 7
    case RamLimit => 8
    case ActiveLimit => 9
    case CapacityExceeded => 10
    case ConcurrentGpuConflict => 11
  }

  /** e is the first requirement that the request does not meet. */
  ghost predicate FirstUnmet(s: LabState, b: Booking, now: int, order: seq<nat>, e: BookingError)
    requires s.regulation.slotMinutes > 0 && Below(order, |s.reservations|)
  {
    && !BookingMeets(s, b, now, order, e)
    && forall d: BookingError :: BookingRank(d) < BookingRank(e) ==> BookingMeets(s, b, now, order, d)
  }

  /** A booking is accepted if and only if it meets every requirement, and otherwise refused for the first it does not meet. */
  lemma BookingDecision(s: LabState, b: Booking, now: int, order: seq<nat>)
    requires s.regulation.slotMinutes > 0 && Below(order, |s.reservations|)
    ensures CheckBooking(s, b, now, order).Pass? <==> forall e: BookingError :: BookingMeets(s, b, now, order, e)
    ensures forall e: BookingError :: CheckBooking(s, b, now, order) == Fail(e) <==> FirstUnmet(s, b, now, order, e)
  {
    hide Peak, Total, Seconds;
    CountIsSize(s.reservations, b.user, now);
    SharingIsHeld(s.reservations, b.user, b.start, b.end);
    hide HeldRows, GpusSharing, GpusHeldDuring;
    var outcome := CheckBooking(s, b, now, order);
    if outcome.Fail? {
      assert FirstUnmet(s, b, now, order, outcome.error);
      forall e: BookingError | FirstUnmet(s, b, now, order, e) ensures e == outcome.error {
        SameRank(e, outcome.error);
      }
    }
  }

  lemma SameRank(a: BookingError, b: BookingError)
    ensures BookingRank(a) == BookingRank(b) ==> a == b
  {
  }

  /**
    When the overlap query lists its rows ends-first (by start time, for instance), a request that meets
    every other requirement is booked if and only if it fits beside the GPU's ACTIVE RAM at every instant
    of its window.
  */
  lemma AdmittedExactly(s: LabState, b: Booking, now: int, order: seq<nat>)
    requires Inv(s) && Below(order, |s.reservations|)
    requires Enumerates(order, OverlapIds(s.reservations, b.gpu, b.start, b.end))
    requires EndsFirst(ClaimsOf(s.reservations, order))
    requires forall e: BookingError :: e != CapacityExceeded ==> BookingMeets(s, b, now, order, e)
    ensures b.gpu < |s.gpus| && (CheckBooking(s, b, now, order).Pass? <==> FitsThroughout(s, b))
  {
    assert BookingMeets(s, b, now, order, GpuNotFound) && BookingMeets(s, b, now, order, BadOrder);
    hide Peak, FleetOk, RowsOk, NamesUnique, WatchTableOk, CheckBooking, FitsThroughout;
    BookingDecision(s, b, now, order);
    CapacityTestMeansFits(s, b, order);
    if FitsThroughout(s, b) {
      assert BookingMeets(s, b, now, order, CapacityExceeded);
    } else {
      assert !BookingMeets(s, b, now, order, CapacityExceeded);
    }
  }

  // ---------------------------------------------------------------- watches

  /** Some instant lies both in the range and in an active watch of the user. */
  ghost predicate SharesInstant(watches: map<nat, Watch>, user: int, rangeStart: int, rangeEnd: int) {
    exists w, t: int :: w in watches && watches[w].user == user && watches[w].isActive
      && InRange(t, watches[w].rangeStart, watches[w].rangeEnd) && InRange(t, rangeStart, rangeEnd)
  }

  predicate InRange(t: int, start: int, end: int) {
    start <= t < end
  }

  /** Ranges that are not empty overlap if and only if they share an instant. */
  lemma OverlapIsInstant(s: LabState, user: int, rangeStart: int, rangeEnd: int)
    requires WatchTableOk(s) && rangeStart < rangeEnd
    ensures (exists w :: w in s.watches && WatchOverlaps(s.watches[w], user, rangeStart, rangeEnd))
       <==> SharesInstant(s.watches, user, rangeStart, rangeEnd)
  {
    if w :| w in s.watches && WatchOverlaps(s.watches[w], user, rangeStart, rangeEnd) {
      assert WatchOk(s.gpus, s.regulation, s.watches[w]);
      var t := Max(s.watches[w].rangeStart, rangeStart);
      assert InRange(t, s.watches[w].rangeStart, s.watches[w].rangeEnd) && InRange(t, rangeStart, rangeEnd);
    }
    if SharesInstant(s.watches, user, rangeStart, rangeEnd) {
      var w, t: int :| w in s.watches && s.watches[w].user == user && s.watches[w].isActive
        && InRange(t, s.watches[w].rangeStart, s.watches[w].rangeEnd) && InRange(t, rangeStart, rangeEnd);
      assert WatchOverlaps(s.watches[w], user, rangeStart, rangeEnd);
    }
  }

  /** The requirement on a watch request whose violation is reported as e. */
  ghost predicate WatchMeets(s: LabState, q: WatchRequest, e: WatchError) {
    match e
    case WatchUnauthenticated => q.user in s.users
    case WatchGpuNotFound => q.gpu < |s.gpus|
    case WatchBadOrder => q.rangeStart < q.rangeEnd
    case WatchGpuInactive =>
      q.gpu < |s.gpus| && s.gpus[q.gpu].isActive
      && s.gpus[q.gpu].server < |s.servers| && s.servers[s.gpus[q.gpu].server].isActive
    case WatchTooLong => q.rangeEnd - q.rangeStart <= s.regulation.maxDurationHours * 3_600_000_000
    case WatchRamLimit =>
      q.gpu < |s.gpus| && 0 < q.minRam <= s.regulation.maxRamGb * 1024 && q.minRam <= s.gpus[q.gpu].totalRam
    case OverlappingWatch => !SharesInstant(s.watches, q.user, q.rangeStart, q.rangeEnd)
  }

  function WatchRank(e: WatchError): nat {
    match e
    case WatchUnauthenticated => 0
    case WatchGpuNotFound => 1
    case WatchBadOrder => 2
    case WatchGpuInactive => 3
    case WatchTooLong => 4
    case WatchRamLimit => 5
    case OverlappingWatch => 6
  }

  ghost predicate FirstUnmetByWatch(s: LabState, q: WatchRequest, e: WatchError) {
    !WatchMeets(s, q, e) && forall d: WatchError :: WatchRank(d) < WatchRank(e) ==> WatchMeets(s, q, d)
  }

  /** A watch is accepted if and only if it meets every requirement, and otherwise refused for the first it does not meet. */
  lemma WatchDecision(s: LabState, q: WatchRequest)
    requires WatchTableOk(s)
    ensures CheckWatch(s, q).Pass? <==> forall e: WatchError :: WatchMeets(s, q, e)
    ensures forall e: WatchError :: CheckWatch(s, q) == Fail(e) <==> FirstUnmetByWatch(s, q, e)
  {
    if q.rangeStart < q.rangeEnd {
      OverlapIsInstant(s, q.user, q.rangeStart, q.rangeEnd);
    }
    hide SharesInstant, WatchOverlaps;
    var outcome := CheckWatch(s, q);
    if outcome.Fail? {
      assert FirstUnmetByWatch(s, q, outcome.error);
      forall e: WatchError | FirstUnmetByWatch(s, q, e) ensures e == outcome.error {
        SameWatchRank(e, outcome.error);
      }
    }
  }

  lemma SameWatchRank(a: WatchError, b: WatchError)
    ensures WatchRank(a) == WatchRank(b) ==> a == b
  {
  }
}
