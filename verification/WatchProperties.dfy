/** Watches: why a matched watch can be refused, and what a run of auto-book attempts changes. */
module WatchProperties {
  import opened Wrappers
  import opened Entities
  import opened Measures
  import opened Sweep
  import opened SweepProperties
  import opened SweepReorder
  import opened SlotTime
  import opened LabModel
  import opened Invariants
  import opened Capacity

  predicate Pending(w: Watch, gpu: nat, now: int) {
    w.gpu == gpu && IsPending(w) && w.rangeEnd > now
  }

  /** The overlap query that the matching of the watch makes at `now` can answer in this order. */
  ghost predicate Answers(s: LabState, w: nat, now: int, order: seq<nat>)
    requires w in s.watches
  {
    var watch := s.watches[w];
    && Below(order, |s.reservations|)
    && Enumerates(order, OverlapIds(s.reservations, watch.gpu, Max(watch.rangeStart, now), watch.rangeEnd))
  }

  /** The watch is returned by `find_matching_watches` at `now`, its overlap query answering in this order. */
  ghost predicate Matches(s: LabState, w: nat, now: int, order: seq<nat>)
    requires w in s.watches && s.watches[w].gpu < |s.gpus|
  {
    var watch := s.watches[w];
    && Pending(watch, watch.gpu, now)
    && Answers(s, w, now, order)
    && s.gpus[watch.gpu].totalRam - Peak(ClaimsOf(s.reservations, order), Max(watch.rangeStart, now), watch.rangeEnd)
       >= watch.minRam
  }

  /** Every tie inside the window that `narrow` lists start-first, `wide` lists start-first too. */
  ghost predicate OrdersAgree(rows: seq<Reservation>, wide: seq<nat>, narrow: seq<nat>, window: (int, int)) {
    TiesKept(TableClaims(rows), wide, narrow, window.0, window.1)
  }

  /** A query result listed ends-first (by start time, for instance) agrees with any other. */
  lemma EndsFirstAgrees(rows: seq<Reservation>, wide: seq<nat>, narrow: seq<nat>, window: (int, int))
    requires Below(narrow, |rows|) && EndsFirst(ClaimsOf(rows, narrow))
    ensures OrdersAgree(rows, wide, narrow, window)
  {
    forall a, b | ListedBefore(narrow, a, b) ensures !Tie(TableClaims(rows), a, b, window.0, window.1) {
      var p, q :| 0 <= p < q < |narrow| && narrow[p] == a && narrow[q] == b;
      assert ClaimsOf(rows, narrow)[q].end != ClaimsOf(rows, narrow)[p].start;
    }
  }

  /** The narrower booking query sweeps no higher than the matching query did, provided their orders agree. */
  lemma NarrowSweep(s: LabState, g: nat, wide: seq<nat>, from: int, until: int, narrow: seq<nat>, from': int, until': int)
    requires RowsOk(s) && Below(wide, |s.reservations|) && Below(narrow, |s.reservations|)
    requires from <= from' < until' <= until
    requires Enumerates(wide, OverlapIds(s.reservations, g, from, until))
    requires Enumerates(narrow, OverlapIds(s.reservations, g, from', until'))
    requires OrdersAgree(s.reservations, wide, narrow, (from', until'))
    ensures Peak(ClaimsOf(s.reservations, narrow), from', until') <= Peak(ClaimsOf(s.reservations, wide), from, until)
  {
    hide Peak;
    var base := TableClaims(s.reservations);
    TableClaimsOk(s);
    assert ClaimsOf(s.reservations, wide) == Pick(base, wide);
    assert ClaimsOf(s.reservations, narrow) == Pick(base, narrow);
    TiesKeptSweep(base, wide, from, until, narrow, from', until');
  }

  /** Whatever the auto-book window asks passes every check on the request except, perhaps, the horizon. */
  lemma WatchRequestPasses(s: LabState, w: nat, now: int, window: (int, int))
    requires Inv(s) && w in s.watches && Effective(s, s.watches[w].gpu)
    requires WindowOf(s.watches[w], s.regulation, now) == Some(window)
    ensures CheckRequest(s.gpus, s.servers, s.regulation, BookingFor(s.watches[w], window), now)
         in {Pass, Fail(BeyondHorizon)}
  {
    var watch := s.watches[w];
    assert WatchOk(s.gpus, s.regulation, watch);
    AutoBookWindowWellFormed(
      watch.rangeStart, watch.rangeEnd, now, s.regulation.slotMinutes, s.regulation.maxDurationHours);
  }

  /**
    A watch that matched, attempted before any other booking at the same or a later clock on a GPU
    that is on, can be refused only for the booking horizon, the user's reservation cap or the user's
    concurrent-GPU limit: never for capacity, and never by a check on the request itself.
  */
  lemma MatchedWatchRefusals(
      s: LabState, w: nat, now: int, wide: seq<nat>, later: int, narrow: seq<nat>, window: (int, int))
    requires Inv(s) && w in s.watches && Matches(s, w, now, wide) && now <= later
    requires WindowOf(s.watches[w], s.regulation, later) == Some(window)
    requires Enumerates(narrow, OverlapIds(s.reservations, s.watches[w].gpu, window.0, window.1))
    requires Below(narrow, |s.reservations|)
    requires OrdersAgree(s.reservations, wide, narrow, window)
    requires Effective(s, s.watches[w].gpu)
    ensures CheckBooking(s, BookingFor(s.watches[w], window), later, narrow)
         in {Pass, Fail(BeyondHorizon), Fail(ActiveLimit), Fail(ConcurrentGpuConflict)}
  {
    hide Peak, FleetOk, NamesUnique, RowsOk, WatchesOk;
    var watch := s.watches[w];
    WatchRequestPasses(s, w, later, window);
    AutoBookWindowWellFormed(
      watch.rangeStart, watch.rangeEnd, later, s.regulation.slotMinutes, s.regulation.maxDurationHours);
    NarrowSweep(s, watch.gpu, wide, Max(watch.rangeStart, now), watch.rangeEnd, narrow, window.0, window.1);
  }

  /**
    The watch matches as the first query answers, yet an attempt at once, as the second one answers, is
    refused for capacity.
  */
  ghost predicate RefusedThoughMatched(
      s: LabState, w: nat, now: int, wide: seq<nat>, narrow: seq<nat>, window: (int, int))
    requires s.regulation.slotMinutes > 0
  {
    && w in s.watches && s.watches[w].gpu < |s.gpus|
    && Matches(s, w, now, wide)
    && WindowOf(s.watches[w], s.regulation, now) == Some(window)
    && Below(narrow, |s.reservations|)
    && Enumerates(narrow, OverlapIds(s.reservations, s.watches[w].gpu, window.0, window.1))
    && CheckBooking(s, BookingFor(s.watches[w], window), now, narrow) == Fail(CapacityExceeded)
  }

  // ---------------------------------------------------------------- a run of auto-book attempts

  /**
    The reservation gives the watch what it asked for: its owner, GPU and RAM, inside its range and not in the
    past.
  */
  ghost predicate Serves(r: Reservation, w: Watch, clock: int) {
    && r.user == w.user && r.gpu == w.gpu && r.ram == w.minRam && r.description == w.description
    && r.status == ACTIVE && r.cancelledAt.None?
    && clock <= r.start && w.rangeStart <= r.start < r.end <= w.rangeEnd
  }

  /** The k-th new row serves the k-th watch. */
  ghost predicate ServedBy(s: LabState, after: LabState, booked: seq<nat>, k: nat)
    requires k < |booked|
  {
    && booked[k] in s.watches && |s.reservations| + k < |after.reservations|
    && Serves(after.reservations[|s.reservations| + k], s.watches[booked[k]], s.clock)
  }

  /** Watches `booked`, in that order, were served; nothing else changed. */
  ghost predicate Conserved(s: LabState, after: LabState, booked: seq<nat>) {
    && Distinct(booked)
    && |after.reservations| == |s.reservations| + |booked|
    && (forall i :: 0 <= i < |s.reservations| ==> after.reservations[i] == s.reservations[i])
    && (forall k :: 0 <= k < |booked| ==> ServedBy(s, after, booked, k))
    && after.watches.Keys == s.watches.Keys
    && (forall w :: w in s.watches && w !in booked ==> after.watches[w] == s.watches[w])
    && (forall w :: w in booked && w in s.watches ==>
      && s.watches[w].isActive && s.watches[w].notifiedAt.None?
      && after.watches[w].notifiedAt.Some? && !after.watches[w].isActive
      && after.watches[w] == s.watches[w].(isActive := false, notifiedAt := after.watches[w].notifiedAt))
    && after.servers == s.servers && after.gpus == s.gpus && after.nextWatch == s.nextWatch && s.clock <= after.clock
  }

  /** The operations of the scheduler's job. */
  ghost predicate LooksAndBooks(ops: seq<Op>) {
    forall k :: 0 <= k < |ops| ==> ops[k].Look? || ops[k].AutoBook?
  }

  /** One attempt either changes nothing or serves its own watch, which was pending. */
  lemma AttemptConserves(s: LabState, op: Op) returns (booked: seq<nat>)
    requires Shape(s) && Legal(s, op) && op.AutoBook?
    ensures booked == [] || booked == [op.watch]
    ensures Conserved(s, Apply(s, op), booked)
  {
    hide CheckBooking;
    var watch := s.watches[op.watch];
    var after := Apply(s, op);
    AutoBookWindowWellFormed(
      watch.rangeStart, watch.rangeEnd, op.now, s.regulation.slotMinutes, s.regulation.maxDurationHours);
    booked := if after.reservations == s.reservations then [] else [op.watch];
  }

  /** Nothing, or one more watch, after what was conserved so far. */
  lemma ConservedThen(s: LabState, mid: LabState, after: LabState, first: seq<nat>, second: seq<nat>)
    requires Conserved(s, mid, first) && Conserved(mid, after, second) && |second| <= 1
    ensures Conserved(s, after, first + second)
  {
    var booked := first + second;
    if second != [] {
      assert ServedBy(mid, after, second, 0) && second[0] in second;
    }
    assert Distinct(booked);
    RowsConservedThen(s, mid, after, first, second);
    hide Serves;
  }

  lemma RowsConservedThen(s: LabState, mid: LabState, after: LabState, first: seq<nat>, second: seq<nat>)
    requires Conserved(s, mid, first) && Conserved(mid, after, second) && |second| <= 1
    ensures forall k :: 0 <= k < |first + second| ==> ServedBy(s, after, first + second, k)
  {
    forall k | 0 <= k < |first + second| ensures ServedBy(s, after, first + second, k) {
      if k < |first| {
        assert ServedBy(s, mid, first, k);
        assert after.reservations[|s.reservations| + k] == mid.reservations[|s.reservations| + k];
      } else {
        NewlyServed(s, mid, after, first, second);
      }
    }
  }

  lemma NewlyServed(s: LabState, mid: LabState, after: LabState, first: seq<nat>, second: seq<nat>)
    requires Conserved(s, mid, first) && Conserved(mid, after, second) && |second| == 1
    ensures ServedBy(s, after, first + second, |first|)
  {
    assert ServedBy(mid, after, second, 0);
    assert second[0] in second && second[0] in mid.watches;
    assert (first + second)[|first|] == second[0];
  }

  /**
    Over any run of looks and attempts: the new reservations are exactly the newly matched watches,
    one each, every one of them serves its watch, and all other watches and rows are unchanged.
  */
  lemma {:induction false} AutoBooksConserve(s: LabState, ops: seq<Op>) returns (booked: seq<nat>)
    requires Shape(s) && LegalRun(s, ops) && LooksAndBooks(ops)
    ensures Conserved(s, Run(s, ops), booked)
  {
    if ops == [] {
      booked := [];
    } else {
      var front := ops[..|ops| - 1];
      var first := AutoBooksConserve(s, front);
      var second: seq<nat> := [];
      if ops[|ops| - 1].AutoBook? {
        second := AttemptConserves(Run(s, front), ops[|ops| - 1]);
      }
      ConservedThen(s, Run(s, front), Run(s, ops), first, second);
      booked := first + second;
    }
  }

  /** And the run keeps the capacity of every GPU. */
  lemma {:induction false} AutoBooksKeepCapacity(s: LabState, ops: seq<Op>)
    requires Inv(s) && LegalRun(s, ops) && LooksAndBooks(ops) && WithinCapacity(s)
    ensures Inv(Run(s, ops)) && WithinCapacity(Run(s, ops))
  {
    hide Apply, Legal, FleetOk, RowsOk, NamesUnique, WatchTableOk;
    if ops != [] {
      var front := ops[..|ops| - 1];
      AutoBooksKeepCapacity(s, front);
      StepInv(Run(s, front), ops[|ops| - 1]);
      StepFits(Run(s, front), ops[|ops| - 1], false);
    }
  }
}
