/**
  The service layer over its stored tables. Every operation that changes state is proved to do
  exactly what its function in `LabModel` says, whatever order the queries answer in.
*/
module LabService {
  import opened Wrappers
  import opened Entities
  import opened Measures
  import opened Sweep
  import opened SlotTime
  import opened SlotViews
  import opened LabModel
  import opened Invariants
  import opened WatchProperties

  datatype FleetError = ServerNotFound | ServerAlreadyExists | GpuMissing | GpuIndexConflict

  datatype CancelError = ReservationNotFound | AlreadyCancelled

  /** Some order in which a query could have answered. */
  lemma {:induction false} SomeOrder(rows: seq<Reservation>, gpu: nat, start: int, end: int) returns (order: seq<nat>)
    ensures Enumerates(order, OverlapIds(rows, gpu, start, end))
  {
    if rows == [] {
      order := [];
    } else {
      var n := |rows| - 1;
      var front := SomeOrder(rows[..n], gpu, start, end);
      assert n in front <==> n in OverlapIds(rows[..n], gpu, start, end);
      order := if OverlapsActive(rows[n], gpu, start, end) then front + [n] else front;
      forall x ensures x in order <==> x in OverlapIds(rows, gpu, start, end) {
        assert x in front <==> x in OverlapIds(rows[..n], gpu, start, end);
        assert x in order <==> x in front || (OverlapsActive(rows[n], gpu, start, end) && x == n);
      }
    }
  }

  /** Retiring GPUs one after the other retires them all. */
  lemma RetiredThen(s: LabState, gs: set<nat>, g: nat, now: int)
    requires g !in gs
    ensures Retired(Retired(s, gs, now), {g}, now) == Retired(s, gs + {g}, now)
  {
    var once, both := Retired(Retired(s, gs, now), {g}, now), Retired(s, gs + {g}, now);
    assert once.reservations == both.reservations;
    assert once.gpus == both.gpus;
    assert once.watches == both.watches;
  }

  lemma RetiredNone(s: LabState, now: int)
    ensures Retired(s, {}, now) == s
  {
    assert Retired(s, {}, now).reservations == s.reservations;
    assert Retired(s, {}, now).gpus == s.gpus;
    assert Retired(s, {}, now).watches == s.watches;
  }

  /** Deleting exactly the stale watches is the cleanup. */
  lemma CleanupKeeps(s: LabState, cutoff: int, stale: seq<nat>)
    requires Enumerates(stale, StaleIds(s.watches, cutoff))
    ensures ApplyCleanup(s, cutoff) == s.(watches := map w | w in s.watches && w !in stale :: s.watches[w])
  {
    assert ApplyCleanup(s, cutoff).watches == map w | w in s.watches && w !in stale :: s.watches[w];
  }

  /** Each of these rows is live when its turn comes: live at first, and not listed before. */
  ghost predicate CancelsFrom(rows: seq<Reservation>, ids: seq<nat>)
    requires Below(ids, |rows|)
  {
    Distinct(ids) && forall k :: 0 <= k < |ids| ==> Live(rows[ids[k]])
  }

  lemma CancelsPrefixes(rows: seq<Reservation>, ids: seq<nat>)
    requires Below(ids, |rows|) && Distinct(ids) && forall k :: 0 <= k < |ids| ==> Live(rows[ids[k]])
    ensures forall n :: 0 <= n <= |ids| ==> CancelsFrom(rows, ids[..n])
  {
  }

  class Lab {
    var servers: seq<Server>
    var gpus: seq<Gpu>
    var reservations: seq<Reservation>
    var watches: map<nat, Watch>
    var nextWatch: nat
    var clock: int
    const users: map<int, int>
    const regulation: Regulation

    ghost function State(): LabState
      reads this
    {
      LabState(servers, gpus, reservations, watches, nextWatch, users, regulation, clock)
    }

    constructor (users: map<int, int>, regulation: Regulation, now: int)
      requires regulation.slotMinutes > 0 && ReactivationDelay(regulation) >= 0
      ensures Empty(State()) && Inv(State()) && clock == now && this.users == users && this.regulation == regulation
    {
      this.users, this.regulation := users, regulation;
      servers, gpus, reservations, watches, nextWatch, clock := [], [], [], map[], 0, now;
    }

    /** A clock reading, of which callers know only that it is not before the last operation or an earlier reading. */
    method UtcNow(since: int) returns (now: int)
      ensures since <= now && clock <= now
    {
      now := Max(since, clock);
    }

    /** The operation that made this reading is over. */
    method Settle(now: int)
      requires clock <= now
      modifies this`clock
      ensures clock == now
    {
      clock := now;
    }

    // -------------------------------------------------------------- queries

    /** `select(Reservation).where(...)`: the contract leaves the order open, as the query does. */
    method SelectReservations(where: Reservation -> bool) returns (ids: seq<nat>)
      ensures Enumerates(ids, set i | 0 <= i < |reservations| && where(reservations[i]))
      ensures Below(ids, |reservations|)
    {
      ids := [];
      for i := 0 to |reservations|
        invariant Below(ids, i) && Distinct(ids)
        invariant forall x :: x in ids <==> 0 <= x < i && where(reservations[x])
      {
        if where(reservations[i]) {
          ids := ids + [i];
        }
      }
    }

    method SelectWatches(where: Watch -> bool) returns (ids: seq<nat>)
      ensures Enumerates(ids, set w | w in watches && where(watches[w]))
    {
      ids := [];
      var rest := watches.Keys;
      while rest != {}
        invariant rest <= watches.Keys && Distinct(ids)
        invariant forall x :: x in ids <==> x in watches && x !in rest && where(watches[x])
        decreases rest
      {
        var w :| w in rest;
        rest := rest - {w};
        if where(watches[w]) {
          ids := ids + [w];
        }
      }
    }

    method SelectGpus(where: Gpu -> bool) returns (ids: seq<nat>)
      ensures Enumerates(ids, set g | 0 <= g < |gpus| && where(gpus[g]))
      ensures Below(ids, |gpus|)
    {
      ids := [];
      for g := 0 to |gpus|
        invariant Below(ids, g) && Distinct(ids)
        invariant forall x :: x in ids <==> 0 <= x < g && where(gpus[x])
      {
        if where(gpus[g]) {
          ids := ids + [g];
        }
      }
    }

    method SelectServers(where: Server -> bool) returns (ids: seq<nat>)
      ensures Enumerates(ids, set i | 0 <= i < |servers| && where(servers[i]))
      ensures Below(ids, |servers|)
    {
      ids := [];
      for i := 0 to |servers|
        invariant Below(ids, i) && Distinct(ids)
        invariant forall x :: x in ids <==> 0 <= x < i && where(servers[x])
      {
        if where(servers[i]) {
          ids := ids + [i];
        }
      }
    }

    method GetOverlappingActive(gpu: nat, start: int, end: int) returns (order: seq<nat>)
      ensures Enumerates(order, OverlapIds(reservations, gpu, start, end))
      ensures Below(order, |reservations|)
    {
      order := SelectReservations(r => OverlapsActive(r, gpu, start, end));
    }

    /** `min_free_ram_in_range`. */
    method MinFreeRamInRange(gpu: nat, start: int, end: int) returns (free: int, ghost order: seq<nat>)
      requires gpu < |gpus|
      ensures Enumerates(order, OverlapIds(reservations, gpu, start, end)) && Below(order, |reservations|)
      ensures free == gpus[gpu].totalRam - Peak(ClaimsOf(reservations, order), start, end)
    {
      var overlapping := GetOverlappingActive(gpu, start, end);
      order := overlapping;
      var peak := PeakConcurrentRam(ClaimsOf(reservations, overlapping), start, end);
      free := gpus[gpu].totalRam - peak;
    }

    /** The loop of `slot_availability`: one sweep per slot. */
    static method SweepSlots(claims: seq<Claim<int>>, rangeStart: int, rangeEnd: int, step: int, total: int)
      returns (slots: seq<(int, int)>)
      requires step > 0
      ensures SlotView(slots, claims, rangeStart, rangeEnd, step, total)
    {
      hide Peak;
      slots := [];
      var slotStart := rangeStart;
      assert SlotPrefix(slots, claims, rangeStart, rangeEnd, step, total);
      hide SlotPrefix;
      while slotStart < rangeEnd
        invariant slotStart == rangeStart + |slots| * step
        invariant SlotPrefix(slots, claims, rangeStart, rangeEnd, step, total)
      {
        var slotEnd := slotStart + step;
        var peak := PeakConcurrentRam(claims, slotStart, slotEnd);
        SlotPush(slots, claims, rangeStart, rangeEnd, step, total, slotStart);
        slots := slots + [(slotStart, total - peak)];
        slotStart := slotEnd;
      }
    }

    /** `slot_availability`: one query serves all the slots. */
    method SlotAvailability(gpu: nat, rangeStart: int, rangeEnd: int, slotMinutes: int)
      returns (slots: seq<(int, int)>, ghost order: seq<nat>)
      requires gpu < |gpus| && slotMinutes > 0
      ensures Enumerates(order, OverlapIds(reservations, gpu, rangeStart, rangeEnd)) && Below(order, |reservations|)
      ensures SlotView(slots, ClaimsOf(reservations, order), rangeStart, rangeEnd, slotMinutes * MINUTE, gpus[gpu].totalRam)
    {
      var overlapping := GetOverlappingActive(gpu, rangeStart, rangeEnd);
      order := overlapping;
      var claims := ClaimsOf(reservations, overlapping);
      slots := SweepSlots(claims, rangeStart, rangeEnd, slotMinutes * MINUTE, gpus[gpu].totalRam);
    }

    /** `count_active_reservations`. */
    method CountActiveReservations(user: int, now: int) returns (count: nat)
      ensures count == Total(BookingsOf(user, now), reservations)
    {
      var ids := SelectReservations((r: Reservation) => r.user == user && Live(r) && r.end > now);
      count := |ids|;
      var m := BookingsOf(user, now);
      forall k | 0 <= k < |ids| ensures Weigh(m, Gather(reservations, ids)[k]) == 1 {
        assert ids[k] in ids;
      }
      GatherTotal(m, reservations, ids);
      TotalCounts(m, Gather(reservations, ids));
    }

    // -------------------------------------------------------------- booking and cancelling

    /** `create_reservation`, with the route's lookups of the user and the GPU in front. */
    method CreateReservation(b: Booking, now: int) returns (r: Result<nat, BookingError>, ghost order: seq<nat>)
      requires Shape(State()) && clock <= now
      modifies this
      ensures Legal(old(State()), Create(b, now, order)) && Below(order, |old(reservations)|)
      ensures State() == Apply(old(State()), Create(b, now, order))
      ensures match CheckBooking(old(State()), b, now, order)
              case Fail(e) => r == Err(e)
              case Pass => r == Ok(|old(reservations)|)
    {
      clock := now;
      order := SomeOrder(reservations, b.gpu, b.start, b.end);
      EnumeratesBelow(order, OverlapIds(reservations, b.gpu, b.start, b.end), |reservations|);
      if b.user !in users {
        return Err(Unauthenticated), order;
      }
      if b.gpu >= |gpus| {
        return Err(GpuNotFound), order;
      }
      var request := CheckRequest(gpus, servers, regulation, b, now);
      if request.Fail? {
        return Err(request.error), order;
      }
      var count := CountActiveReservations(b.user, now);
      if count >= regulation.maxActivePerUser {
        return Err(ActiveLimit), order;
      }
      var overlapping := GetOverlappingActive(b.gpu, b.start, b.end);
      order := overlapping;
      var peak := PeakConcurrentRam(ClaimsOf(reservations, overlapping), b.start, b.end);
      if peak + b.ram > gpus[b.gpu].totalRam {
        return Err(CapacityExceeded), order;
      }
      var held := GpusHeldDuring(reservations, b.user, b.start, b.end);
      if b.gpu !in held && |held| >= users[b.user] {
        return Err(ConcurrentGpuConflict), order;
      }
      reservations := reservations + [NewReservation(b)];
      r := Ok(|reservations| - 1);
    }

    /** `cancel_reservation`, with the route's lookup in front. */
    method CancelReservation(id: nat, now: int) returns (r: Outcome<CancelError>)
      requires Shape(State()) && clock <= now
      modifies this
      ensures State() == Apply(old(State()), Cancel(id, now))
      ensures r.Pass? <==> id < |old(reservations)| && Live(old(reservations)[id])
      ensures r == Fail(AlreadyCancelled) <==> id < |old(reservations)| && !Live(old(reservations)[id])
    {
      clock := now;
      if id >= |reservations| {
        return Fail(ReservationNotFound);
      }
      if reservations[id].status == CANCELLED {
        return Fail(AlreadyCancelled);
      }
      reservations := reservations[id := reservations[id].(status := CANCELLED, cancelledAt := Some(now))];
      r := Pass;
    }

    /**
      `cancel_reservations`: cancels the listed rows one by one up to the first that is not live, by then
      or because it is listed twice; there it stops with an error and keeps what was cancelled before.
    */
    method CancelReservations(ids: seq<nat>, now: int) returns (r: Result<nat, CancelError>, ghost done: nat)
      requires Below(ids, |reservations|)
      modifies this`reservations
      ensures |reservations| == |old(reservations)|
      ensures done <= |ids| && CancelsFrom(old(reservations), ids[..done])
      ensures done < |ids| ==> !CancelsFrom(old(reservations), ids[..done + 1])
      ensures r == if done == |ids| then Ok(|ids|) else Err(AlreadyCancelled)
      ensures forall i :: 0 <= i < |reservations| ==>
        reservations[i] == if i in ids[..done] then old(reservations[i]).(status := CANCELLED, cancelledAt := Some(now))
                           else old(reservations[i])
    {
      done := 0;
      for k := 0 to |ids|
        invariant done == k && |reservations| == |old(reservations)|
        invariant CancelsFrom(old(reservations), ids[..k])
        invariant forall i :: 0 <= i < |reservations| ==>
          reservations[i] == if i in ids[..k] then Cancelled(old(reservations[i]), now) else old(reservations[i])
      {
        var id := ids[k];
        assert ids[..k + 1] == ids[..k] + [id];
        if reservations[id].status == CANCELLED {
          assert ids[..k + 1][k] == id;
          return Err(AlreadyCancelled), k;
        }
        reservations := reservations[id := reservations[id].(status := CANCELLED, cancelledAt := Some(now))];
        done := k + 1;
      }
      assert ids[..|ids|] == ids;
      r := Ok(|ids|);
    }

    /** Select the live rows an update touches and cancel them all. */
    method CancelSelected(u: RowUpdate, now: int) returns (count: nat)
      requires !u.SuspendOn? && !u.ResumeOn? && u.now == now
      modifies this`reservations
      ensures reservations == RewriteAll(u, old(reservations))
      ensures count == |TouchedIds(u, old(reservations))|
    {
      var ids := SelectReservations(r => Touches(u, r));
      CancelsPrefixes(reservations, ids) by {
        forall k | 0 <= k < |ids| ensures Live(reservations[ids[k]]) {
          assert ids[k] in ids;
        }
      }
      EnumerationSize(ids, TouchedIds(u, reservations));
      var r;
      ghost var done;
      r, done := CancelReservations(ids, now);
      assert ids[..|ids|] == ids;
      count := r.value;
      assert reservations == RewriteAll(u, old(reservations));
    }

    /** Admin "cancel all for this user": upcoming live reservations as of one reading, cancelled at the next. */
    method CancelAllForUser(user: int, asOf: int, now: int) returns (count: nat)
      requires Shape(State()) && clock <= asOf <= now
      modifies this
      ensures State() == Apply(old(State()), CancelForUser(user, asOf, now))
      ensures count == |TouchedIds(CancelOfUser(user, asOf, now), old(reservations))|
    {
      clock := now;
      count := CancelSelected(CancelOfUser(user, asOf, now), now);
    }

    /** `cancel_all_for_user_on_server`. */
    method CancelAllForUserOnServer(user: int, server: nat, now: int) returns (count: nat)
      requires Shape(State()) && clock <= now
      modifies this
      ensures State() == Apply(old(State()), CancelForUserOnServer(user, server, now))
      ensures count == |TouchedIds(CancelOfUserOn(user, GpusOf(gpus, server), now), old(reservations))|
    {
      clock := now;
      count := CancelSelected(CancelOfUserOn(user, GpusOf(gpus, server), now), now);
    }

    /** Admin "cancel all lab-wide": live reservations inside the booking horizon. */
    method CancelAllLabWide(now: int) returns (count: nat)
      requires Shape(State()) && clock <= now
      modifies this
      ensures State() == Apply(old(State()), CancelLabWide(now))
      ensures count == |TouchedIds(CancelInRange(now, now + regulation.horizonDays * DAY, now), old(reservations))|
    {
      clock := now;
      count := CancelSelected(CancelInRange(now, now + regulation.horizonDays * DAY, now), now);
    }

    // -------------------------------------------------------------- suspending and resuming

    /** `suspend_active_reservations_for_gpu` and `..._for_server`, by the set of GPUs concerned. */
    method SuspendActiveReservations(gs: set<nat>, now: int) returns (count: nat)
      modifies this`reservations
      ensures reservations == RewriteAll(SuspendOn(gs, now), old(reservations))
      ensures count == |TouchedIds(SuspendOn(gs, now), old(reservations))|
    {
      var ids := SelectReservations((r: Reservation) => r.gpu in gs && r.status == ACTIVE && r.end > now);
      EnumerationSize(ids, TouchedIds(SuspendOn(gs, now), reservations));
      for k := 0 to |ids|
        invariant |reservations| == |old(reservations)|
        invariant forall i :: 0 <= i < |reservations| ==>
          reservations[i] == if i in ids[..k] then old(reservations[i]).(status := SUSPENDED) else old(reservations[i])
      {
        assert ids[..k + 1] == ids[..k] + [ids[k]];
        reservations := reservations[ids[k] := reservations[ids[k]].(status := SUSPENDED)];
      }
      assert ids[..|ids|] == ids;
      assert reservations == RewriteAll(SuspendOn(gs, now), old(reservations));
      count := |ids|;
    }

    /** `_resume`, after the query of `resume_suspended_reservations_for_gpu` or `..._for_server`. */
    method ResumeSuspendedReservations(gs: set<nat>, now: int) returns (count: nat)
      modifies this`reservations
      ensures reservations == RewriteAll(ResumeOn(gs, now + ReactivationDelay(regulation) * MINUTE), old(reservations))
      ensures count == |TouchedIds(ResumeOn(gs, now), old(reservations))|
    {
      var ids := SelectReservations((r: Reservation) => r.gpu in gs && r.status == SUSPENDED);
      EnumerationSize(ids, TouchedIds(ResumeOn(gs, now), reservations));
      var resumeStart := now + ReactivationDelay(regulation) * MINUTE;
      ghost var u := ResumeOn(gs, resumeStart);
      for k := 0 to |ids|
        invariant |reservations| == |old(reservations)|
        invariant forall i :: 0 <= i < |reservations| ==>
          reservations[i] == if i in ids[..k] then Changed(u, old(reservations[i])) else old(reservations[i])
      {
        var r := reservations[ids[k]];
        var duration := r.end - r.start;
        assert ids[..k + 1] == ids[..k] + [ids[k]];
        assert ids[k] !in ids[..k];
        reservations := reservations[ids[k] := r.(start := resumeStart, end := resumeStart + duration, status := ACTIVE)];
      }
      assert ids[..|ids|] == ids;
      assert reservations == RewriteAll(u, old(reservations));
      count := |ids|;
    }

    // -------------------------------------------------------------- servers and GPUs

    /** `set_server_active`, with the route's lookup in front. */
    method SetServerOn(server: nat, on: bool, now: int) returns (r: Outcome<FleetError>)
      requires Shape(State()) && clock <= now
      modifies this
      ensures State() == Apply(old(State()), SetServerActive(server, on, now))
      ensures r == if ServerKept(old(servers), server) then Pass else Fail(ServerNotFound)
      ensures r.Pass? ==> server < |servers| && servers[server].isActive == on
    {
      clock := now;
      if server >= |servers| || servers[server].deletedAt.Some? {
        return Fail(ServerNotFound);
      }
      var wasActive := servers[server].isActive;
      servers := servers[server := servers[server].(isActive := on)];
      if wasActive && !on {
        var _ := SuspendActiveReservations(GpusOf(gpus, server), now);
      } else if !wasActive && on {
        var _ := ResumeSuspendedReservations(ActiveGpusOf(gpus, server), now);
      }
      r := Pass;
    }

    /** `set_gpu_active`, with the route's lookup in front. */
    method SetGpuOn(g: nat, on: bool, now: int) returns (r: Outcome<FleetError>)
      requires Shape(State()) && clock <= now
      modifies this
      ensures State() == Apply(old(State()), SetGpuActive(g, on, now))
      ensures r == if GpuKept(old(gpus), g) then Pass else Fail(GpuMissing)
      ensures r.Pass? ==> g < |gpus| && gpus[g].isActive == on
    {
      clock := now;
      if g >= |gpus| || gpus[g].deletedAt.Some? {
        return Fail(GpuMissing);
      }
      var wasEffective := GpuOn(gpus, servers, g);
      gpus := gpus[g := gpus[g].(isActive := on)];
      var isEffective := GpuOn(gpus, servers, g);
      if wasEffective && !isEffective {
        var _ := SuspendActiveReservations({g}, now);
      } else if !wasEffective && isEffective {
        var _ := ResumeSuspendedReservations({g}, now);
      }
      r := Pass;
    }

    /** `_retire_gpu`. */
    method RetireGpu(g: nat, now: int)
      requires g < |gpus|
      modifies this`reservations, this`watches, this`gpus
      ensures State() == Retired(old(State()), {g}, now)
    {
      var _ := CancelSelected(CancelOnGpus({g}, now), now);
      watches := map w | w in watches && watches[w].gpu != g :: watches[w];
      gpus := gpus[g := gpus[g].(isActive := false, deletedAt := Some(now))];
      ghost var retired := Retired(old(State()), {g}, now);
      assert gpus == retired.gpus;
      assert watches == retired.watches;
    }

    /** The loop of `delete_server`. */
    method RetireGpus(ids: seq<nat>, now: int)
      requires Distinct(ids) && Below(ids, |gpus|)
      modifies this`reservations, this`watches, this`gpus
      ensures State() == Retired(old(State()), IdSet(ids), now)
    {
      ghost var before := State();
      ghost var done: set<nat> := {};
      RetiredNone(before, now);
      for k := 0 to |ids|
        invariant |gpus| == |before.gpus|
        invariant forall x :: x in done <==> x in ids[..k]
        invariant State() == Retired(before, done, now)
      {
        assert ids[..k + 1] == ids[..k] + [ids[k]];
        RetiredThen(before, done, ids[k], now);
        RetireGpu(ids[k], now);
        done := done + {ids[k]};
      }
      assert ids[..|ids|] == ids;
      assert done == IdSet(ids);
    }

    /** `delete_server`, with the route's lookup in front. */
    method RemoveServer(server: nat, now: int) returns (r: Outcome<FleetError>)
      requires Shape(State()) && clock <= now
      modifies this
      ensures State() == Apply(old(State()), DeleteServer(server, now))
      ensures r == if ServerKept(old(servers), server) then Pass else Fail(ServerNotFound)
    {
      hide Retired;
      if server >= |servers| || servers[server].deletedAt.Some? {
        clock := now;
        return Fail(ServerNotFound);
      }
      var ids := SelectGpus((g: Gpu) => g.server == server && g.deletedAt.None?);
      assert IdSet(ids) == KeptGpusOf(gpus, server);
      RetireGpus(ids, now);
      servers := servers[server := servers[server].(isActive := false, deletedAt := Some(now))];
      clock := now;
      r := Pass;
    }

    /** `delete_gpu`, with the route's lookup in front. */
    method RemoveGpu(g: nat, now: int) returns (r: Outcome<FleetError>)
      requires Shape(State()) && clock <= now
      modifies this
      ensures State() == Apply(old(State()), DeleteGpu(g, now))
      ensures r == if GpuKept(old(gpus), g) then Pass else Fail(GpuMissing)
    {
      if g >= |gpus| || gpus[g].deletedAt.Some? {
        clock := now;
        return Fail(GpuMissing);
      }
      RetireGpu(g, now);
      clock := now;
      r := Pass;
    }

    /** `create_server`: a new row, or the revival of the deleted server of that name. */
    method NewServer(name: string, now: int) returns (r: Result<nat, FleetError>)
      requires Shape(State()) && NamesUnique(servers, gpus) && clock <= now
      modifies this
      ensures State() == Apply(old(State()), CreateServer(name, now))
      ensures r.Ok? ==> r.value < |servers| && servers[r.value] == Server(name, true, None)
      ensures r.Err? <==> exists i: nat :: ServerKept(old(servers), i) && old(servers)[i].name == name
      ensures r.Err? ==> r.error == ServerAlreadyExists
    {
      clock := now;
      var existing := FindServer(servers, name);
      if existing.Some? {
        var i := existing.value;
        if servers[i].deletedAt.None? {
          assert ServerKept(old(servers), i);
          return Err(ServerAlreadyExists);
        }
        servers := servers[i := servers[i].(isActive := true, deletedAt := None)];
        return Ok(i);
      }
      servers := servers + [Server(name, true, None)];
      r := Ok(|servers| - 1);
    }

    /** `add_gpu`: a new row, or the revival of the deleted GPU at that index. */
    method NewGpu(server: nat, index: int, model: string, totalRam: int, now: int) returns (r: Result<nat, FleetError>)
      requires Shape(State()) && NamesUnique(servers, gpus) && clock <= now && totalRam > 0
      modifies this
      ensures State() == Apply(old(State()), AddGpu(server, index, model, totalRam, now))
      ensures r.Ok? ==> r.value < |gpus| && gpus[r.value] == Gpu(server, index, model, totalRam, true, None)
      ensures r == Err(ServerNotFound) <==> !ServerKept(old(servers), server)
      ensures r.Err? && r != Err(ServerNotFound) <==>
        && ServerKept(old(servers), server)
        && exists g: nat :: GpuKept(old(gpus), g) && old(gpus)[g].server == server && old(gpus)[g].index == index
      ensures r.Err? ==> r.error in {ServerNotFound, GpuIndexConflict}
    {
      clock := now;
      if server >= |servers| || servers[server].deletedAt.Some? {
        return Err(ServerNotFound);
      }
      var existing := FindGpu(gpus, server, index);
      if existing.Some? {
        var g := existing.value;
        if gpus[g].deletedAt.None? {
          assert GpuKept(old(gpus), g);
          return Err(GpuIndexConflict);
        }
        gpus := gpus[g := gpus[g].(model := model, totalRam := totalRam, isActive := true, deletedAt := None)];
        return Ok(g);
      }
      gpus := gpus + [Gpu(server, index, model, totalRam, true, None)];
      r := Ok(|gpus| - 1);
    }

    // -------------------------------------------------------------- watches

    /** `create_watch`, with the route's lookups in front. */
    method NewWatchFor(q: WatchRequest, now: int) returns (r: Result<nat, WatchError>)
      requires Shape(State()) && clock <= now
      modifies this
      ensures State() == Apply(old(State()), CreateWatch(q, now))
      ensures match CheckWatch(old(State()), q)
              case Fail(e) => r == Err(e)
              case Pass => r == Ok(old(nextWatch))
    {
      clock := now;
      if q.user !in users {
        return Err(WatchUnauthenticated);
      }
      if q.gpu >= |gpus| {
        return Err(WatchGpuNotFound);
      }
      if q.rangeEnd <= q.rangeStart {
        return Err(WatchBadOrder);
      }
      if !GpuOn(gpus, servers, q.gpu) {
        return Err(WatchGpuInactive);
      }
      if q.rangeEnd - q.rangeStart > regulation.maxDurationHours * HOUR {
        return Err(WatchTooLong);
      }
      if q.minRam <= 0 || q.minRam > regulation.maxRamGb * 1024 || q.minRam > gpus[q.gpu].totalRam {
        return Err(WatchRamLimit);
      }
      var overlapping := SelectWatches(w => WatchOverlaps(w, q.user, q.rangeStart, q.rangeEnd));
      if overlapping != [] {
        assert overlapping[0] in overlapping;
        return Err(OverlappingWatch);
      }
      assert forall w :: w in watches && WatchOverlaps(watches[w], q.user, q.rangeStart, q.rangeEnd) ==> w in overlapping;
      watches := watches[nextWatch := NewWatch(q, now)];
      nextWatch := nextWatch + 1;
      r := Ok(nextWatch - 1);
    }

    /** `cancel_watch`. */
    method DropWatch(w: nat, now: int)
      requires Shape(State()) && clock <= now
      modifies this
      ensures State() == Apply(old(State()), LabModel.CancelWatch(w, now))
      ensures w in old(watches) ==> w in watches && !watches[w].isActive
    {
      clock := now;
      if w in watches {
        watches := watches[w := watches[w].(isActive := false)];
      }
    }

    /** `mark_notified`. */
    method MarkNotified(w: nat, now: int)
      requires w in watches
      modifies this`watches
      ensures watches == old(watches)[w := old(watches)[w].(notifiedAt := Some(now), isActive := false)]
    {
      watches := watches[w := watches[w].(notifiedAt := Some(now), isActive := false)];
    }

    /** `find_matching_watches`: exactly the pending watches whose own overlap query leaves them enough RAM. */
    method FindMatchingWatches(g: nat, now: int) returns (matches: seq<nat>, ghost orders: map<nat, seq<nat>>)
      requires Shape(State()) && g < |gpus|
      ensures Distinct(matches)
      ensures forall w :: w in matches ==> w in watches && Pending(watches[w], g, now)
      ensures forall w :: w in matches ==>
        && watches[w].gpu == g && watches[w].isActive && watches[w].notifiedAt.None? && now < watches[w].rangeEnd
      ensures forall w :: w in watches && watches[w].gpu == g && watches[w].isActive && watches[w].notifiedAt.None?
                          && now < watches[w].rangeEnd ==>
        && w in orders && Answers(State(), w, now, orders[w])
        && (w in matches <==> Matches(State(), w, now, orders[w]))
    {
      var candidates := SelectWatches(w => Pending(w, g, now));
      matches := [];
      orders := map[];
      for k := 0 to |candidates|
        invariant Distinct(matches)
        invariant forall w :: w in matches ==> w in candidates[..k] && w in orders
        invariant forall w :: w in candidates[..k] ==>
          && w in watches && w in orders && Answers(State(), w, now, orders[w])
          && (w in matches <==> Matches(State(), w, now, orders[w]))
      {
        var w := candidates[k];
        assert w in candidates && w !in candidates[..k];
        assert candidates[..k + 1] == candidates[..k] + [w];
        var windowStart := Max(watches[w].rangeStart, now);
        ghost var order;
        var freeRam;
        freeRam, order := MinFreeRamInRange(g, windowStart, watches[w].rangeEnd);
        orders := orders[w := order];
        if freeRam >= watches[w].minRam {
          matches := matches + [w];
        }
      }
      assert candidates[..|candidates|] == candidates;
    }

    /** `attempt_auto_book`: any rejection by the booking checks becomes None. */
    method AttemptAutoBook(w: nat, now: int) returns (r: Option<nat>, ghost order: seq<nat>)
      requires Shape(State()) && clock <= now && w in watches
      modifies this
      ensures Below(order, |old(reservations)|)
      ensures var window := WindowOf(old(watches)[w], regulation, now);
              && (window.Some? ==> Enumerates(order, OverlapIds(old(reservations), old(watches)[w].gpu, window.value.0, window.value.1)))
              && (r.Some? <==> window.Some? && CheckBooking(old(State()), BookingFor(old(watches)[w], window.value), now, order).Pass?)
              && (r.Some? ==> State() == old(State()).(
                   reservations := old(reservations) + [NewReservation(BookingFor(old(watches)[w], window.value))], clock := now))
      ensures r.None? ==> State() == old(State()).(clock := now)
    {
      var watch := watches[w];
      var windowStart := FloorToSlot(Max(watch.rangeStart, now), regulation.slotMinutes);
      var maxEnd := windowStart + regulation.maxDurationHours * HOUR;
      var windowEnd := AlignDownToSlot(Min(watch.rangeEnd, maxEnd), regulation.slotMinutes);
      if windowEnd <= windowStart {
        clock := now;
        return None, [];
      }
      var booking := Booking(watch.user, watch.gpu, windowStart, windowEnd, watch.minRam, watch.description);
      var booked;
      booked, order := CreateReservation(booking, now);
      r := if booked.Ok? then Some(booked.value) else None;
    }

    /** The loop of `run_cleanup`. */
    method DeleteWatches(ids: seq<nat>)
      modifies this`watches
      ensures watches == map w | w in old(watches) && w !in ids :: old(watches)[w]
    {
      for k := 0 to |ids|
        invariant watches == map w | w in old(watches) && w !in ids[..k] :: old(watches)[w]
      {
        assert ids[..k + 1] == ids[..k] + [ids[k]];
        watches := watches - {ids[k]};
      }
      assert ids[..|ids|] == ids;
    }

    /** `run_cleanup`: delete the inactive watches created before the cutoff. */
    method RunCleanup(retentionDays: int, now: int) returns (count: nat)
      requires Shape(State()) && clock <= now
      modifies this
      ensures State() == Apply(old(State()), Cleanup(now - retentionDays * DAY, now))
      ensures count == |StaleIds(old(watches), now - retentionDays * DAY)|
      ensures forall w :: w in old(watches) && w !in watches <==>
        w in old(watches) && !old(watches)[w].isActive && old(watches)[w].createdAt < now - retentionDays * 86_400_000_000
    {
      var cutoff := now - retentionDays * DAY;
      var stale := SelectWatches(w => Stale(w, cutoff));
      assert Enumerates(stale, StaleIds(watches, cutoff));
      EnumerationSize(stale, StaleIds(watches, cutoff));
      count := |stale|;
      DeleteWatches(stale);
      CleanupKeeps(old(State()), cutoff, stale);
      clock := now;
      hide ApplyCleanup, Stale, StaleIds, Shape;
    }
  }

  /** A query result has as many entries as there are matching ids. */
  lemma {:induction false} EnumerationSize(ids: seq<nat>, all: set<nat>)
    requires Enumerates(ids, all)
    ensures |ids| == |all|
  {
    if ids == [] {
      assert all == {};
    } else {
      var n := |ids| - 1;
      assert ids[n] in ids;
      forall x ensures x in ids[..n] <==> x in all - {ids[n]} {
        assert x in ids <==> x in ids[..n] || x == ids[n];
      }
      EnumerationSize(ids[..n], all - {ids[n]});
    }
  }
}
