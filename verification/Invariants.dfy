/**
  What every reachable state of the lab satisfies: suspension matches effective activity, soft
  deletion leaves nothing live behind, names stay unique, and pending watches stay disjoint.
*/
module Invariants {
  import opened Wrappers
  import opened Entities
  import opened Measures
  import opened SlotTime
  import opened LabModel

  ghost predicate RowOk(s: LabState, r: Reservation) {
    && r.gpu < |s.gpus|
    && r.start < r.end && r.ram > 0
    && (r.cancelledAt.Some? <==> r.status == CANCELLED)
    && (r.cancelledAt.Some? ==> r.cancelledAt.value <= s.clock)
    // suspension matches effective activity
    && (r.status == SUSPENDED ==> !Effective(s, r.gpu))
    && (r.status == ACTIVE && r.end > s.clock ==> Effective(s, r.gpu))
    // nothing live is left on a deleted GPU
    && (s.gpus[r.gpu].deletedAt.Some? ==> r.status == CANCELLED)
  }

  ghost predicate RowsOk(s: LabState) {
    forall i :: 0 <= i < |s.reservations| ==> RowOk(s, s.reservations[i])
  }

  /** Deleted servers and GPUs are off, and a deleted server has only deleted GPUs. */
  ghost predicate FleetOk(servers: seq<Server>, gpus: seq<Gpu>) {
    && (forall i :: 0 <= i < |servers| ==> servers[i].deletedAt.Some? ==> !servers[i].isActive)
    && (forall g :: 0 <= g < |gpus| ==>
      && gpus[g].server < |servers|
      && gpus[g].totalRam > 0
      && (gpus[g].deletedAt.Some? ==> !gpus[g].isActive)
      && (servers[gpus[g].server].deletedAt.Some? ==> gpus[g].deletedAt.Some?))
  }

  ghost predicate NamesUnique(servers: seq<Server>, gpus: seq<Gpu>) {
    && (forall i, j :: 0 <= i < j < |servers| ==> servers[i].name != servers[j].name)
    && (forall g, h :: 0 <= g < h < |gpus| ==> gpus[g].server != gpus[h].server || gpus[g].index != gpus[h].index)
  }

  ghost predicate WatchOk(gpus: seq<Gpu>, reg: Regulation, w: Watch) {
    && GpuKept(gpus, w.gpu)
    && w.rangeStart < w.rangeEnd
    && w.rangeEnd - w.rangeStart <= reg.maxDurationHours * HOUR
    && 0 < w.minRam <= reg.maxRamGb * 1024
    && w.minRam <= gpus[w.gpu].totalRam
    && (w.isActive ==> w.notifiedAt.None?)
  }

  /** A user's active watches never overlap. */
  ghost predicate WatchesDisjoint(watches: map<nat, Watch>) {
    forall v, w ::
      v in watches && w in watches && v != w
      && watches[v].isActive && watches[w].isActive && watches[v].user == watches[w].user ==>
      watches[v].rangeEnd <= watches[w].rangeStart || watches[w].rangeEnd <= watches[v].rangeStart
  }

  ghost predicate WatchesOk(gpus: seq<Gpu>, reg: Regulation, watches: map<nat, Watch>, nextWatch: nat) {
    && (forall w :: w in watches ==> w < nextWatch && WatchOk(gpus, reg, watches[w]))
    && WatchesDisjoint(watches)
  }

  ghost predicate WatchTableOk(s: LabState) {
    WatchesOk(s.gpus, s.regulation, s.watches, s.nextWatch)
  }

  ghost predicate Inv(s: LabState) {
    Shape(s) && FleetOk(s.servers, s.gpus) && RowsOk(s) && NamesUnique(s.servers, s.gpus) && WatchTableOk(s)
  }

  /** The lab before anything was added to it. */
  ghost predicate Empty(s: LabState) {
    && s.servers == [] && s.gpus == [] && s.reservations == [] && s.watches == map[]
    && s.regulation.slotMinutes > 0 && ReactivationDelay(s.regulation) >= 0
  }

  // ---------------------------------------------------------------- fleet and names

  predicate ChangesFleet(op: Op) {
    op.SetServerActive? || op.SetGpuActive? || op.DeleteServer? || op.DeleteGpu? || op.CreateServer? || op.AddGpu?
  }

  lemma FleetUntouched(s: LabState, op: Op)
    requires Shape(s) && Legal(s, op) && !ChangesFleet(op)
    ensures Apply(s, op).servers == s.servers && Apply(s, op).gpus == s.gpus
  {
  }

  lemma FleetSetServer(s: LabState, server: nat, on: bool, now: int)
    requires FleetOk(s.servers, s.gpus)
    ensures var after := ApplySetServerActive(s, server, on, now); FleetOk(after.servers, after.gpus)
  {
  }

  lemma FleetSetGpu(s: LabState, g: nat, on: bool, now: int)
    requires FleetOk(s.servers, s.gpus)
    ensures var after := ApplySetGpuActive(s, g, on, now); FleetOk(after.servers, after.gpus)
  {
  }

  lemma FleetDeleteServer(s: LabState, server: nat, now: int)
    requires FleetOk(s.servers, s.gpus)
    ensures var after := ApplyDeleteServer(s, server, now); FleetOk(after.servers, after.gpus)
  {
  }

  lemma FleetDeleteGpu(s: LabState, g: nat, now: int)
    requires FleetOk(s.servers, s.gpus)
    ensures var after := ApplyDeleteGpu(s, g, now); FleetOk(after.servers, after.gpus)
  {
  }

  lemma FleetCreateServer(s: LabState, name: string)
    requires FleetOk(s.servers, s.gpus)
    ensures var after := ApplyCreateServer(s, name); FleetOk(after.servers, after.gpus)
  {
  }

  lemma FleetAddGpu(s: LabState, server: nat, index: int, model: string, totalRam: int)
    requires FleetOk(s.servers, s.gpus) && totalRam > 0
    ensures var after := ApplyAddGpu(s, server, index, model, totalRam); FleetOk(after.servers, after.gpus)
  {
  }

  lemma StepFleet(s: LabState, op: Op)
    requires Inv(s) && Legal(s, op)
    ensures var after := Apply(s, op); FleetOk(after.servers, after.gpus)
  {
    hide FleetOk, RowsOk, NamesUnique, WatchTableOk, ApplyCreate, ApplyAutoBook, ApplyCancel, Updated,
         ApplySetServerActive, ApplySetGpuActive, ApplyDeleteServer, ApplyDeleteGpu, ApplyCreateServer, ApplyAddGpu,
         ApplyCreateWatch, ApplyCancelWatch, ApplyCleanup;
    match op
    case SetServerActive(server, on, now) => FleetSetServer(s, server, on, now);
    case SetGpuActive(g, on, now) => FleetSetGpu(s, g, on, now);
    case DeleteServer(server, now) => FleetDeleteServer(s, server, now);
    case DeleteGpu(g, now) => FleetDeleteGpu(s, g, now);
    case CreateServer(name, _) => FleetCreateServer(s, name);
    case AddGpu(server, index, model, totalRam, _) => FleetAddGpu(s, server, index, model, totalRam);
    case _ => FleetUntouched(s, op);
  }

  lemma NamesCreateServer(s: LabState, name: string)
    requires NamesUnique(s.servers, s.gpus)
    ensures var after := ApplyCreateServer(s, name); NamesUnique(after.servers, after.gpus)
  {
  }

  lemma NamesAddGpu(s: LabState, server: nat, index: int, model: string, totalRam: int)
    requires NamesUnique(s.servers, s.gpus)
    ensures var after := ApplyAddGpu(s, server, index, model, totalRam); NamesUnique(after.servers, after.gpus)
  {
  }

  /** The other operations keep every server's name and every GPU's place. */
  lemma NamesKept(s: LabState, after: LabState)
    requires NamesUnique(s.servers, s.gpus) && |after.servers| == |s.servers| && |after.gpus| == |s.gpus|
    requires forall i :: 0 <= i < |s.servers| ==> after.servers[i].name == s.servers[i].name
    requires forall g :: 0 <= g < |s.gpus| ==>
      after.gpus[g].server == s.gpus[g].server && after.gpus[g].index == s.gpus[g].index
    ensures NamesUnique(after.servers, after.gpus)
  {
  }

  lemma NamesSetServer(s: LabState, server: nat, on: bool, now: int)
    requires NamesUnique(s.servers, s.gpus)
    ensures var after := ApplySetServerActive(s, server, on, now); NamesUnique(after.servers, after.gpus)
  {
    NamesKept(s, ApplySetServerActive(s, server, on, now));
  }

  lemma NamesSetGpu(s: LabState, g: nat, on: bool, now: int)
    requires NamesUnique(s.servers, s.gpus)
    ensures var after := ApplySetGpuActive(s, g, on, now); NamesUnique(after.servers, after.gpus)
  {
    NamesKept(s, ApplySetGpuActive(s, g, on, now));
  }

  lemma NamesDeleteServer(s: LabState, server: nat, now: int)
    requires NamesUnique(s.servers, s.gpus)
    ensures var after := ApplyDeleteServer(s, server, now); NamesUnique(after.servers, after.gpus)
  {
    NamesKept(s, ApplyDeleteServer(s, server, now));
  }

  lemma NamesDeleteGpu(s: LabState, g: nat, now: int)
    requires NamesUnique(s.servers, s.gpus)
    ensures var after := ApplyDeleteGpu(s, g, now); NamesUnique(after.servers, after.gpus)
  {
    NamesKept(s, ApplyDeleteGpu(s, g, now));
  }

  lemma StepNames(s: LabState, op: Op)
    requires Inv(s) && Legal(s, op)
    ensures var after := Apply(s, op); NamesUnique(after.servers, after.gpus)
  {
    hide FleetOk, RowsOk, NamesUnique, WatchTableOk, ApplyCreate, ApplyAutoBook, ApplyCancel, Updated,
         ApplySetServerActive, ApplySetGpuActive, ApplyDeleteServer, ApplyDeleteGpu, ApplyCreateServer, ApplyAddGpu,
         ApplyCreateWatch, ApplyCancelWatch, ApplyCleanup;
    match op
    case CreateServer(name, _) => NamesCreateServer(s, name);
    case AddGpu(server, index, model, totalRam, _) => NamesAddGpu(s, server, index, model, totalRam);
    case SetServerActive(server, on, now) => NamesSetServer(s, server, on, now);
    case SetGpuActive(g, on, now) => NamesSetGpu(s, g, on, now);
    case DeleteServer(server, now) => NamesDeleteServer(s, server, now);
    case DeleteGpu(g, now) => NamesDeleteGpu(s, g, now);
    case _ => FleetUntouched(s, op);
  }

  // ---------------------------------------------------------------- reservation rows

  /** Rows that a time step or a fleet change leaves alone. */
  lemma RowStays(s: LabState, after: LabState, r: Reservation)
    requires RowOk(s, r) && |s.gpus| <= |after.gpus| && s.clock <= after.clock
    requires Effective(s, r.gpu) == Effective(after, r.gpu)
    requires s.gpus[r.gpu].deletedAt == after.gpus[r.gpu].deletedAt
    ensures RowOk(after, r)
  {
  }

  lemma RowsStay(s: LabState, after: LabState)
    requires RowsOk(s) && after.reservations == s.reservations && |s.gpus| <= |after.gpus| && s.clock <= after.clock
    requires forall g :: 0 <= g < |s.gpus| ==>
      && Effective(s, g) == Effective(after, g) && s.gpus[g].deletedAt == after.gpus[g].deletedAt
    ensures RowsOk(after)
  {
    forall i | 0 <= i < |after.reservations| ensures RowOk(after, after.reservations[i]) {
      RowStays(s, after, s.reservations[i]);
    }
  }

  lemma RowsCancel(s: LabState, after: LabState, u: RowUpdate, now: int)
    requires RowsOk(s) && after.gpus == s.gpus && after.servers == s.servers && s.clock <= now <= after.clock
    requires after.reservations == RewriteAll(u, s.reservations)
    requires !u.SuspendOn? && !u.ResumeOn? && u.now == now
    ensures RowsOk(after)
  {
    forall i | 0 <= i < |after.reservations| ensures RowOk(after, after.reservations[i]) {
      assert RowOk(s, s.reservations[i]);
    }
  }

  /** A booking that passed its checks is a good row. */
  lemma BookedRowOk(s: LabState, after: LabState, b: Booking, now: int, order: seq<nat>)
    requires Inv(s) && Below(order, |s.reservations|) && s.clock <= now <= after.clock
    requires CheckBooking(s, b, now, order).Pass?
    requires after.gpus == s.gpus && after.servers == s.servers
    requires after.reservations == s.reservations + [NewReservation(b)]
    ensures RowsOk(after)
  {
    forall i | 0 <= i < |after.reservations| ensures RowOk(after, after.reservations[i]) {
      if i < |s.reservations| {
        RowStays(s, after, s.reservations[i]);
      } else {
        assert Effective(s, b.gpu);
      }
    }
  }

  /** Turning GPUs off with suspension, or on with resumption, keeps every row in step with its GPU. */
  lemma RowsSwitched(s: LabState, after: LabState, gs: set<nat>, on: bool, now: int)
    requires Inv(s) && s.clock <= now == after.clock && |after.gpus| == |s.gpus|
    requires forall g :: 0 <= g < |s.gpus| ==> s.gpus[g].deletedAt == after.gpus[g].deletedAt
    requires forall g :: 0 <= g < |s.gpus| ==>
      if g in gs then !on || !Effective(s, g) else Effective(after, g) == Effective(s, g)
    requires forall g :: g in gs ==> Effective(after, g) == on
    requires after.reservations
          == RewriteAll(if on then ResumeOn(gs, ResumeAt(s, now)) else SuspendOn(gs, now), s.reservations)
    ensures RowsOk(after)
  {
    forall i | 0 <= i < |after.reservations| ensures RowOk(after, after.reservations[i]) {
      var r := s.reservations[i];
      assert RowOk(s, r);
      if r.gpu !in gs {
        RowStays(s, after, r);
      }
    }
  }

  lemma RowsSetServer(s: LabState, server: nat, on: bool, now: int)
    requires Inv(s) && s.clock <= now
    ensures RowsOk(ApplySetServerActive(s, server, on, now).(clock := now))
  {
    hide NamesUnique, WatchTableOk;
    var after := ApplySetServerActive(s, server, on, now).(clock := now);
    if ServerKept(s.servers, server) && s.servers[server].isActive && !on {
      RowsSwitched(s, after, GpusOf(s.gpus, server), false, now);
    } else if ServerKept(s.servers, server) && !s.servers[server].isActive && on {
      RowsSwitched(s, after, ActiveGpusOf(s.gpus, server), true, now);
    } else {
      RowsStay(s, after);
    }
  }

  lemma RowsSetGpu(s: LabState, g: nat, on: bool, now: int)
    requires Inv(s) && s.clock <= now
    ensures RowsOk(ApplySetGpuActive(s, g, on, now).(clock := now))
  {
    hide NamesUnique, WatchTableOk, FleetOk;
    var after := ApplySetGpuActive(s, g, on, now).(clock := now);
    if GpuKept(s.gpus, g) && Effective(s, g) != Effective(after, g) {
      RowsSwitched(s, after, {g}, on, now);
    } else {
      RowsStay(s, after);
    }
  }

  lemma RowsRetired(s: LabState, after: LabState, gs: set<nat>, now: int)
    requires Inv(s) && s.clock <= now <= after.clock
    requires after.reservations == Retired(s, gs, now).reservations && after.gpus == Retired(s, gs, now).gpus
    requires |after.servers| == |s.servers|
    requires forall g :: 0 <= g < |s.gpus| && g !in gs ==> Effective(s, g) == Effective(after, g)
    ensures RowsOk(after)
  {
    forall i | 0 <= i < |after.reservations| ensures RowOk(after, after.reservations[i]) {
      var r := s.reservations[i];
      assert RowOk(s, r);
      if r.gpu !in gs {
        RowStays(s, after, r);
      }
    }
  }

  /** Reviving a server touches no row: all its GPUs were deleted with it. */
  lemma RowsCreateServer(s: LabState, name: string, now: int)
    requires Inv(s) && s.clock <= now
    ensures RowsOk(ApplyCreateServer(s, name).(clock := now))
  {
    RowsStay(s, ApplyCreateServer(s, name).(clock := now));
  }

  /** Reviving a GPU touches no row: all its reservations were cancelled with it. */
  lemma RowsAddGpu(s: LabState, server: nat, index: int, model: string, totalRam: int, now: int)
    requires Inv(s) && s.clock <= now
    ensures RowsOk(ApplyAddGpu(s, server, index, model, totalRam).(clock := now))
  {
    var after := ApplyAddGpu(s, server, index, model, totalRam).(clock := now);
    forall i | 0 <= i < |after.reservations| ensures RowOk(after, after.reservations[i]) {
      assert RowOk(s, s.reservations[i]);
    }
  }

  lemma RowsCreate(s: LabState, b: Booking, now: int, order: seq<nat>)
    requires Inv(s) && s.clock <= now && Below(order, |s.reservations|)
    ensures RowsOk(ApplyCreate(s, b, now, order).(clock := now))
  {
    var after := ApplyCreate(s, b, now, order).(clock := now);
    if CheckBooking(s, b, now, order).Pass? {
      BookedRowOk(s, after, b, now, order);
    } else {
      RowsStay(s, after);
    }
  }

  lemma RowsAutoBook(s: LabState, w: nat, now: int, order: seq<nat>, marked: int)
    requires Inv(s) && s.clock <= now <= marked && Below(order, |s.reservations|) && w in s.watches
    ensures RowsOk(ApplyAutoBook(s, w, now, order, marked).(clock := marked))
  {
    var after := ApplyAutoBook(s, w, now, order, marked).(clock := marked);
    var window := WindowOf(s.watches[w], s.regulation, now);
    if window.Some? && CheckBooking(s, BookingFor(s.watches[w], window.value), now, order).Pass? {
      BookedRowOk(s, after, BookingFor(s.watches[w], window.value), now, order);
    } else {
      RowsStay(s, after);
    }
  }

  lemma RowsCancelOne(s: LabState, id: nat, now: int)
    requires Inv(s) && s.clock <= now
    ensures RowsOk(ApplyCancel(s, id, now).(clock := now))
  {
    var after := ApplyCancel(s, id, now).(clock := now);
    forall i | 0 <= i < |after.reservations| ensures RowOk(after, after.reservations[i]) {
      assert RowOk(s, s.reservations[i]);
    }
  }

  lemma RowsUpdated(s: LabState, u: RowUpdate, now: int)
    requires Inv(s) && s.clock <= now && !u.SuspendOn? && !u.ResumeOn? && u.now == now
    ensures RowsOk(Updated(s, u).(clock := now))
  {
    RowsCancel(s, Updated(s, u).(clock := now), u, now);
  }

  lemma RowsDeleteServer(s: LabState, server: nat, now: int)
    requires Inv(s) && s.clock <= now
    ensures RowsOk(ApplyDeleteServer(s, server, now).(clock := now))
  {
    var after := ApplyDeleteServer(s, server, now).(clock := now);
    if ServerKept(s.servers, server) {
      RowsRetired(s, after, KeptGpusOf(s.gpus, server), now);
    } else {
      RowsStay(s, after);
    }
  }

  lemma RowsDeleteGpu(s: LabState, g: nat, now: int)
    requires Inv(s) && s.clock <= now
    ensures RowsOk(ApplyDeleteGpu(s, g, now).(clock := now))
  {
    var after := ApplyDeleteGpu(s, g, now).(clock := now);
    if GpuKept(s.gpus, g) {
      RowsRetired(s, after, {g}, now);
    } else {
      RowsStay(s, after);
    }
  }

  lemma RowsWatchOp(s: LabState, op: Op)
    requires Inv(s) && Legal(s, op) && (op.CreateWatch? || op.CancelWatch? || op.Cleanup? || op.Look?)
    ensures RowsOk(Apply(s, op))
  {
    RowsStay(s, Apply(s, op));
  }

  lemma StepRows(s: LabState, op: Op)
    requires Inv(s) && Legal(s, op)
    ensures RowsOk(Apply(s, op))
  {
    hide FleetOk, RowsOk, NamesUnique, WatchTableOk, ApplyCreate, ApplyAutoBook, ApplyCancel, Updated,
         ApplySetServerActive, ApplySetGpuActive, ApplyDeleteServer, ApplyDeleteGpu, ApplyCreateServer, ApplyAddGpu,
         ApplyCreateWatch, ApplyCancelWatch, ApplyCleanup;
    match op
    case Create(b, now, order) =>
      RowsCreate(s, b, now, order);
    case AutoBook(w, now, order, marked) => RowsAutoBook(s, w, now, order, marked);
    case Cancel(id, now) => RowsCancelOne(s, id, now);
    case CancelForUser(user, asOf, now) => RowsUpdated(s, CancelOfUser(user, asOf, now), now);
    case CancelForUserOnServer(user, server, now) =>
      RowsUpdated(s, CancelOfUserOn(user, GpusOf(s.gpus, server), now), now);
    case CancelLabWide(now) => RowsUpdated(s, CancelInRange(now, now + s.regulation.horizonDays * DAY, now), now);
    case SetServerActive(server, on, now) => RowsSetServer(s, server, on, now);
    case SetGpuActive(g, on, now) => RowsSetGpu(s, g, on, now);
    case DeleteServer(server, now) => RowsDeleteServer(s, server, now);
    case DeleteGpu(g, now) => RowsDeleteGpu(s, g, now);
    case CreateServer(name, now) => RowsCreateServer(s, name, now);
    case AddGpu(server, index, model, totalRam, now) => RowsAddGpu(s, server, index, model, totalRam, now);
    case _ => RowsWatchOp(s, op);
  }

  // ---------------------------------------------------------------- watches

  /** Watches survive a change that keeps their GPUs and their GPUs' RAM. */
  lemma WatchesKept(s: LabState, after: LabState)
    requires WatchTableOk(s) && after.regulation == s.regulation && after.nextWatch == s.nextWatch
    requires forall w :: w in after.watches ==> w in s.watches && after.watches[w] == s.watches[w]
    requires forall w :: w in after.watches ==>
      var g := after.watches[w].gpu;
      GpuKept(after.gpus, g) && after.gpus[g].totalRam == s.gpus[g].totalRam
    ensures WatchTableOk(after)
  {
  }

  lemma WatchesCreate(s: LabState, q: WatchRequest, now: int)
    requires Inv(s)
    ensures WatchTableOk(ApplyCreateWatch(s, q, now))
  {
    var after := ApplyCreateWatch(s, q, now);
    if CheckWatch(s, q).Pass? {
      assert WatchOk(after.gpus, after.regulation, after.watches[s.nextWatch]);
    }
  }

  /** A watch that goes inactive stays well formed and overlaps nothing. */
  lemma WatchesDeactivate(s: LabState, after: LabState, w: nat)
    requires WatchTableOk(s) && w in s.watches && after.regulation == s.regulation && after.nextWatch == s.nextWatch
    requires after.gpus == s.gpus
    requires exists n :: after.watches == s.watches[w := s.watches[w].(isActive := false, notifiedAt := n)]
    ensures WatchTableOk(after)
  {
    forall v | v in after.watches ensures v < after.nextWatch && WatchOk(after.gpus, after.regulation, after.watches[v]) {
      assert WatchOk(s.gpus, s.regulation, s.watches[v]);
    }
  }

  lemma WatchesAutoBook(s: LabState, w: nat, now: int, order: seq<nat>, marked: int)
    requires Inv(s) && Below(order, |s.reservations|) && w in s.watches
    ensures WatchTableOk(ApplyAutoBook(s, w, now, order, marked))
  {
    var after := ApplyAutoBook(s, w, now, order, marked);
    if after.watches != s.watches {
      assert after.watches == s.watches[w := s.watches[w].(isActive := false, notifiedAt := Some(marked))];
      WatchesDeactivate(s, after, w);
    }
  }

  lemma WatchesCancel(s: LabState, w: nat)
    requires Inv(s)
    ensures WatchTableOk(ApplyCancelWatch(s, w))
  {
    if w in s.watches {
      assert s.watches[w].(isActive := false) == s.watches[w].(isActive := false, notifiedAt := s.watches[w].notifiedAt);
      WatchesDeactivate(s, ApplyCancelWatch(s, w), w);
    }
  }

  lemma WatchesSetServer(s: LabState, server: nat, on: bool, now: int)
    requires Inv(s)
    ensures WatchTableOk(ApplySetServerActive(s, server, on, now))
  {
    hide FleetOk, RowsOk, NamesUnique, WatchesDisjoint, Shape, RewriteAll;
    WatchesKept(s, ApplySetServerActive(s, server, on, now));
  }

  lemma WatchesSetGpu(s: LabState, g: nat, on: bool, now: int)
    requires Inv(s)
    ensures WatchTableOk(ApplySetGpuActive(s, g, on, now))
  {
    hide FleetOk, RowsOk, NamesUnique, WatchesDisjoint, Shape, RewriteAll;
    WatchesKept(s, ApplySetGpuActive(s, g, on, now));
  }

  lemma WatchesDeleteServer(s: LabState, server: nat, now: int)
    requires Inv(s)
    ensures WatchTableOk(ApplyDeleteServer(s, server, now))
  {
    WatchesKept(s, ApplyDeleteServer(s, server, now));
  }

  lemma WatchesDeleteGpu(s: LabState, g: nat, now: int)
    requires Inv(s)
    ensures WatchTableOk(ApplyDeleteGpu(s, g, now))
  {
    WatchesKept(s, ApplyDeleteGpu(s, g, now));
  }

  lemma WatchesCreateServer(s: LabState, name: string)
    requires Inv(s)
    ensures WatchTableOk(ApplyCreateServer(s, name))
  {
    WatchesKept(s, ApplyCreateServer(s, name));
  }

  lemma WatchesAddGpu(s: LabState, server: nat, index: int, model: string, totalRam: int)
    requires Inv(s)
    ensures WatchTableOk(ApplyAddGpu(s, server, index, model, totalRam))
  {
    hide RowsOk, NamesUnique, WatchesDisjoint, Shape;
    WatchesKept(s, ApplyAddGpu(s, server, index, model, totalRam));
  }

  lemma WatchesCleanup(s: LabState, cutoff: int)
    requires Inv(s)
    ensures WatchTableOk(ApplyCleanup(s, cutoff))
  {
    WatchesKept(s, ApplyCleanup(s, cutoff));
  }

  lemma StepWatches(s: LabState, op: Op)
    requires Inv(s) && Legal(s, op)
    ensures WatchTableOk(Apply(s, op))
  {
    hide FleetOk, RowsOk, NamesUnique, WatchesOk, ApplyCreate, ApplyAutoBook, ApplyCancel, Updated,
         ApplySetServerActive, ApplySetGpuActive, ApplyDeleteServer, ApplyDeleteGpu, ApplyCreateServer, ApplyAddGpu,
         ApplyCreateWatch, ApplyCancelWatch, ApplyCleanup;
    match op
    case CreateWatch(q, now) => WatchesCreate(s, q, now);
    case CancelWatch(w, _) => WatchesCancel(s, w);
    case AutoBook(w, now, order, marked) => WatchesAutoBook(s, w, now, order, marked);
    case SetServerActive(server, on, now) => WatchesSetServer(s, server, on, now);
    case SetGpuActive(g, on, now) => WatchesSetGpu(s, g, on, now);
    case DeleteServer(server, now) => WatchesDeleteServer(s, server, now);
    case DeleteGpu(g, now) => WatchesDeleteGpu(s, g, now);
    case CreateServer(name, _) => WatchesCreateServer(s, name);
    case AddGpu(server, index, model, totalRam, _) => WatchesAddGpu(s, server, index, model, totalRam);
    case Cleanup(cutoff, _) => WatchesCleanup(s, cutoff);
    case _ => WatchesUntouched(s, op);
  }

  lemma WatchesUntouched(s: LabState, op: Op)
    requires Inv(s) && Legal(s, op)
    requires op.Create? || op.Cancel? || op.CancelForUser? || op.CancelForUserOnServer? || op.CancelLabWide? || op.Look?
    ensures WatchTableOk(Apply(s, op))
  {
    hide FleetOk, RowsOk, NamesUnique, WatchesDisjoint;
    WatchesKept(s, Effect(s, op));
  }

  // ---------------------------------------------------------------- runs

  /** Every operation keeps the invariant. */
  lemma StepInv(s: LabState, op: Op)
    requires Inv(s) && Legal(s, op)
    ensures Inv(Apply(s, op))
  {
    StepFleet(s, op);
    StepRows(s, op);
    StepNames(s, op);
    StepWatches(s, op);
  }

  lemma {:induction false} RunInv(s: LabState, ops: seq<Op>)
    requires Inv(s) && LegalRun(s, ops)
    ensures Inv(Run(s, ops))
  {
    if ops != [] {
      RunInv(s, ops[..|ops| - 1]);
      StepInv(Run(s, ops[..|ops| - 1]), ops[|ops| - 1]);
    }
  }

  /** Every reachable state satisfies the invariant. */
  lemma ReachableInv(s: LabState, ops: seq<Op>)
    requires Empty(s) && LegalRun(s, ops)
    ensures Inv(Run(s, ops))
  {
    RunInv(s, ops);
  }

  /**
    Suspension matches effective activity in every reachable state: a SUSPENDED reservation's GPU or
    server is off, and an ACTIVE one that ends after the clock has both on.
  */
  lemma SuspensionMatchesActivity(s: LabState, ops: seq<Op>, i: nat)
    requires Empty(s) && LegalRun(s, ops) && i < |Run(s, ops).reservations|
    ensures var end := Run(s, ops);
            var r := end.reservations[i];
            && (r.status == SUSPENDED ==> !Effective(end, r.gpu))
            && (r.status == ACTIVE && r.end > end.clock ==> Effective(end, r.gpu))
  {
    ReachableInv(s, ops);
    assert RowOk(Run(s, ops), Run(s, ops).reservations[i]);
  }
}
