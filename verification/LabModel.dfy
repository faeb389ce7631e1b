/**
  The lab as a value, and every service operation as a function on it. The class `Lab` is proved
  to do, step by step, what these functions say; the invariants are proved about them.

  Each operation carries the clock reading(s) it made and, where a query result is swept, the order
  in which the database returned it.
*/
module LabModel {
  import opened Wrappers
  import opened Entities
  import opened Measures
  import opened Sweep
  import opened SlotTime

  /** `users` maps a user id to that user's max_concurrent_gpus; `clock` is when the last operation ended. */
  datatype LabState = LabState(
    servers: seq<Server>, gpus: seq<Gpu>, reservations: seq<Reservation>,
    watches: map<nat, Watch>, nextWatch: nat,
    users: map<int, int>, regulation: Regulation, clock: int)

  /** What holds of the state by construction: foreign keys resolve, and the regulation is sensible. */
  ghost predicate Shape(s: LabState) {
    && s.regulation.slotMinutes > 0 && ReactivationDelay(s.regulation) >= 0
    && (forall g :: 0 <= g < |s.gpus| ==> s.gpus[g].server < |s.servers|)
    && (forall i :: 0 <= i < |s.reservations| ==> s.reservations[i].gpu < |s.gpus| && s.reservations[i].user in s.users)
    && (forall w :: w in s.watches ==> w < s.nextWatch && s.watches[w].gpu < |s.gpus| && s.watches[w].user in s.users)
  }

  // ---------------------------------------------------------------- queries

  predicate GpuOn(gpus: seq<Gpu>, servers: seq<Server>, g: nat) {
    g < |gpus| && gpus[g].isActive && gpus[g].server < |servers| && servers[gpus[g].server].isActive
  }

  ghost predicate Effective(s: LabState, g: nat) {
    GpuOn(s.gpus, s.servers, g)
  }

  predicate OverlapsActive(r: Reservation, gpu: nat, start: int, end: int) {
    r.gpu == gpu && r.status == ACTIVE && r.start < end && r.end > start
  }

  ghost function OverlapIds(rows: seq<Reservation>, gpu: nat, start: int, end: int): set<nat> {
    set i | 0 <= i < |rows| && OverlapsActive(rows[i], gpu, start, end)
  }

  function ClaimOf(r: Reservation): Claim<int> {
    Claim(r.start, r.end, r.user, r.ram)
  }

  function ClaimsOf(rows: seq<Reservation>, order: seq<nat>): seq<Claim<int>>
    requires Below(order, |rows|)
  {
    seq(|order|, k requires 0 <= k < |order| => ClaimOf(rows[order[k]]))
  }

  predicate HoldsDuring(r: Reservation, user: int, start: int, end: int) {
    r.user == user && Live(r) && r.start < end && r.end > start
  }

  /** The distinct GPUs on which the user holds a live reservation overlapping the window. */
  function GpusHeldDuring(rows: seq<Reservation>, user: int, start: int, end: int): set<nat> {
    set i | 0 <= i < |rows| && HoldsDuring(rows[i], user, start, end) :: rows[i].gpu
  }

  function GpusOf(gpus: seq<Gpu>, server: nat): set<nat> {
    set g | 0 <= g < |gpus| && gpus[g].server == server
  }

  function ActiveGpusOf(gpus: seq<Gpu>, server: nat): set<nat> {
    set g | 0 <= g < |gpus| && gpus[g].server == server && gpus[g].isActive
  }

  function KeptGpusOf(gpus: seq<Gpu>, server: nat): set<nat> {
    set g | 0 <= g < |gpus| && gpus[g].server == server && gpus[g].deletedAt.None?
  }

  function FindServer(servers: seq<Server>, name: string): (r: Option<nat>)
    ensures r.Some? ==> r.value < |servers| && servers[r.value].name == name
    ensures r.None? ==> forall i :: 0 <= i < |servers| ==> servers[i].name != name
  {
    if servers == [] then None
    else
      var n := |servers| - 1;
      if servers[n].name == name then Some(n) else FindServer(servers[..n], name)
  }

  function FindGpu(gpus: seq<Gpu>, server: nat, index: int): (r: Option<nat>)
    ensures r.Some? ==> r.value < |gpus| && gpus[r.value].server == server && gpus[r.value].index == index
    ensures r.None? ==> forall g :: 0 <= g < |gpus| ==> !(gpus[g].server == server && gpus[g].index == index)
  {
    if gpus == [] then None
    else
      var n := |gpus| - 1;
      if gpus[n].server == server && gpus[n].index == index then Some(n) else FindGpu(gpus[..n], server, index)
  }

  // ---------------------------------------------------------------- bulk updates of reservation rows

  datatype RowUpdate =
    | CancelOnGpus(gpus: set<nat>, now: int)
    | CancelOfUser(user: int, after: int, now: int)
    | CancelOfUserOn(user: int, gpus: set<nat>, now: int)
    | CancelInRange(from: int, until: int, now: int)
    | SuspendOn(gpus: set<nat>, now: int)
    | ResumeOn(gpus: set<nat>, at: int)

  predicate Touches(u: RowUpdate, r: Reservation) {
    match u
    case CancelOnGpus(gs, _) => r.gpu in gs && Live(r)
    case CancelOfUser(user, after, _) => r.user == user && Live(r) && r.end > after
    case CancelOfUserOn(user, gs, _) => r.user == user && r.gpu in gs && Live(r)
    case CancelInRange(from, until, _) => Live(r) && r.start < until && r.end > from
    case SuspendOn(gs, now) => r.gpu in gs && r.status == ACTIVE && r.end > now
    case ResumeOn(gs, _) => r.gpu in gs && r.status == SUSPENDED
  }

  ghost function TouchedIds(u: RowUpdate, rows: seq<Reservation>): set<nat> {
    set i | 0 <= i < |rows| && Touches(u, rows[i])
  }

  function Cancelled(r: Reservation, now: int): Reservation {
    r.(status := CANCELLED, cancelledAt := Some(now))
  }

  function Changed(u: RowUpdate, r: Reservation): Reservation {
    match u
    case CancelOnGpus(_, now) => Cancelled(r, now)
    case CancelOfUser(_, _, now) => Cancelled(r, now)
    case CancelOfUserOn(_, _, now) => Cancelled(r, now)
    case CancelInRange(_, _, now) => Cancelled(r, now)
    case SuspendOn(_, _) => r.(status := SUSPENDED)
    case ResumeOn(_, at) => r.(start := at, end := at + (r.end - r.start), status := ACTIVE)
  }

  function Rewrite(u: RowUpdate, r: Reservation): Reservation {
    if Touches(u, r) then Changed(u, r) else r
  }

  ghost function RewriteAll(u: RowUpdate, rows: seq<Reservation>): (after: seq<Reservation>)
    ensures |after| == |rows|
    ensures forall i :: 0 <= i < |rows| ==> after[i] == Rewrite(u, rows[i])
  {
    seq(|rows|, i requires 0 <= i < |rows| => Rewrite(u, rows[i]))
  }

  ghost function Updated(s: LabState, u: RowUpdate): (after: LabState)
    ensures Shape(s) ==> Shape(after)
    ensures after.users == s.users && after.regulation == s.regulation
  {
    s.(reservations := RewriteAll(u, s.reservations))
  }

  ghost function ApplyCancel(s: LabState, id: nat, now: int): (after: LabState)
    ensures Shape(s) ==> Shape(after)
    ensures after.users == s.users && after.regulation == s.regulation
  {
    if id < |s.reservations| && Live(s.reservations[id])
    then s.(reservations := s.reservations[id := Cancelled(s.reservations[id], now)])
    else s
  }

  // ---------------------------------------------------------------- booking

  datatype Booking = Booking(user: int, gpu: nat, start: int, end: int, ram: int, description: string)

  datatype BookingError =
    | Unauthenticated | GpuNotFound | BadOrder | GpuInactive | Misaligned | DurationExceeded | InThePast
    | BeyondHorizon | RamLimit | ActiveLimit | CapacityExceeded | ConcurrentGpuConflict

  function NewReservation(b: Booking): Reservation {
    Reservation(b.user, b.gpu, b.start, b.end, b.ram, b.description, ACTIVE, None)
  }

  /** Every check `create_reservation` makes that does not read the reservation table, in its order. */
  function CheckRequest(gpus: seq<Gpu>, servers: seq<Server>, reg: Regulation, b: Booking, now: int)
    : Outcome<BookingError>
    requires reg.slotMinutes > 0 && b.gpu < |gpus|
  {
    if b.end <= b.start then Fail(BadOrder)
    else if !GpuOn(gpus, servers, b.gpu) then Fail(GpuInactive)
    else if !(IsSlotAligned(b.start, reg.slotMinutes) && IsSlotAligned(b.end, reg.slotMinutes)) then Fail(Misaligned)
    else if b.end - b.start > reg.maxDurationHours * HOUR then Fail(DurationExceeded)
    else if b.start < now then Fail(InThePast)
    else if b.start > now + reg.horizonDays * DAY then Fail(BeyondHorizon)
    else if b.ram <= 0 || b.ram > reg.maxRamGb * 1024 || b.ram > gpus[b.gpu].totalRam then Fail(RamLimit)
    else Pass
  }

  /** The whole decision of a booking, given the order in which the overlap query answered. */
  ghost function CheckBooking(s: LabState, b: Booking, now: int, order: seq<nat>): Outcome<BookingError>
    requires s.regulation.slotMinutes > 0
    requires Below(order, |s.reservations|)
  {
    if b.user !in s.users then Fail(Unauthenticated)
    else if b.gpu >= |s.gpus| then Fail(GpuNotFound)
    else
      var early := CheckRequest(s.gpus, s.servers, s.regulation, b, now);
      if early.Fail? then early
      else if Total(BookingsOf(b.user, now), s.reservations) >= s.regulation.maxActivePerUser then Fail(ActiveLimit)
      else if Peak(ClaimsOf(s.reservations, order), b.start, b.end) + b.ram > s.gpus[b.gpu].totalRam then
        Fail(CapacityExceeded)
      else
        var held := GpusHeldDuring(s.reservations, b.user, b.start, b.end);
        if b.gpu !in held && |held| >= s.users[b.user] then Fail(ConcurrentGpuConflict)
        else Pass
  }

  ghost function ApplyCreate(s: LabState, b: Booking, now: int, order: seq<nat>): (after: LabState)
    requires s.regulation.slotMinutes > 0
    requires Below(order, |s.reservations|)
    ensures Shape(s) ==> Shape(after)
    ensures after.users == s.users && after.regulation == s.regulation
  {
    if CheckBooking(s, b, now, order).Pass? then s.(reservations := s.reservations + [NewReservation(b)]) else s
  }

  // ---------------------------------------------------------------- fleet

  ghost function Retired(s: LabState, gs: set<nat>, now: int): (after: LabState)
    ensures after.servers == s.servers && after.clock == s.clock && after.nextWatch == s.nextWatch
    ensures Shape(s) ==> Shape(after)
    ensures after.users == s.users && after.regulation == s.regulation
  {
    s.(reservations := RewriteAll(CancelOnGpus(gs, now), s.reservations),
       watches := map w | w in s.watches && s.watches[w].gpu !in gs :: s.watches[w],
       gpus := seq(|s.gpus|, g requires 0 <= g < |s.gpus| =>
         if g in gs then s.gpus[g].(isActive := false, deletedAt := Some(now)) else s.gpus[g]))
  }

  predicate ServerKept(servers: seq<Server>, server: nat) {
    server < |servers| && servers[server].deletedAt.None?
  }

  predicate GpuKept(gpus: seq<Gpu>, g: nat) {
    g < |gpus| && gpus[g].deletedAt.None?
  }

  ghost function ResumeAt(s: LabState, now: int): int {
    now + ReactivationDelay(s.regulation) * MINUTE
  }

  ghost function ApplySetServerActive(s: LabState, server: nat, on: bool, now: int): (after: LabState)
    ensures Shape(s) ==> Shape(after)
    ensures after.users == s.users && after.regulation == s.regulation
  {
    if !ServerKept(s.servers, server) then s
    else
      var was := s.servers[server].isActive;
      var flagged := s.(servers := s.servers[server := s.servers[server].(isActive := on)]);
      if was && !on then Updated(flagged, SuspendOn(GpusOf(s.gpus, server), now))
      else if !was && on then Updated(flagged, ResumeOn(ActiveGpusOf(s.gpus, server), ResumeAt(s, now)))
      else flagged
  }

  ghost function ApplySetGpuActive(s: LabState, g: nat, on: bool, now: int): (after: LabState)
    ensures Shape(s) ==> Shape(after)
    ensures after.users == s.users && after.regulation == s.regulation
  {
    if !GpuKept(s.gpus, g) then s
    else
      var flagged := s.(gpus := s.gpus[g := s.gpus[g].(isActive := on)]);
      if Effective(s, g) && !Effective(flagged, g) then Updated(flagged, SuspendOn({g}, now))
      else if !Effective(s, g) && Effective(flagged, g) then Updated(flagged, ResumeOn({g}, ResumeAt(s, now)))
      else flagged
  }

  ghost function ApplyDeleteServer(s: LabState, server: nat, now: int): (after: LabState)
    ensures Shape(s) ==> Shape(after)
    ensures after.users == s.users && after.regulation == s.regulation
  {
    if !ServerKept(s.servers, server) then s
    else Retired(s, KeptGpusOf(s.gpus, server), now).(
      servers := s.servers[server := s.servers[server].(isActive := false, deletedAt := Some(now))])
  }

  ghost function ApplyDeleteGpu(s: LabState, g: nat, now: int): (after: LabState)
    ensures Shape(s) ==> Shape(after)
    ensures after.users == s.users && after.regulation == s.regulation
  {
    if GpuKept(s.gpus, g) then Retired(s, {g}, now) else s
  }

  ghost function ApplyCreateServer(s: LabState, name: string): (after: LabState)
    ensures Shape(s) ==> Shape(after)
    ensures after.users == s.users && after.regulation == s.regulation
  {
    match FindServer(s.servers, name)
    case None => s.(servers := s.servers + [Server(name, true, None)])
    case Some(i) =>
      if s.servers[i].deletedAt.None? then s
      else s.(servers := s.servers[i := s.servers[i].(isActive := true, deletedAt := None)])
  }

  function Revived(gpu: Gpu, model: string, totalRam: int): Gpu {
    gpu.(model := model, totalRam := totalRam, isActive := true, deletedAt := None)
  }

  ghost function ApplyAddGpu(s: LabState, server: nat, index: int, model: string, totalRam: int): (after: LabState)
    ensures Shape(s) ==> Shape(after)
    ensures after.users == s.users && after.regulation == s.regulation
  {
    if !ServerKept(s.servers, server) then s
    else
      match FindGpu(s.gpus, server, index)
      case None => s.(gpus := s.gpus + [Gpu(server, index, model, totalRam, true, None)])
      case Some(g) =>
        if s.gpus[g].deletedAt.None? then s
        else s.(gpus := s.gpus[g := Revived(s.gpus[g], model, totalRam)])
  }

  // ---------------------------------------------------------------- watches

  datatype WatchRequest = WatchRequest(
    user: int, gpu: nat, rangeStart: int, rangeEnd: int, minRam: int, autoBook: bool, description: string)

  datatype WatchError =
    | WatchUnauthenticated | WatchGpuNotFound | WatchBadOrder | WatchGpuInactive | WatchTooLong | WatchRamLimit
    | OverlappingWatch

  function NewWatch(q: WatchRequest, now: int): Watch {
    Watch(q.user, q.gpu, q.rangeStart, q.rangeEnd, q.minRam, q.description, q.autoBook, true, now, None)
  }

  predicate WatchOverlaps(w: Watch, user: int, rangeStart: int, rangeEnd: int) {
    w.user == user && w.isActive && w.rangeStart < rangeEnd && w.rangeEnd > rangeStart
  }

  function CheckWatch(s: LabState, q: WatchRequest): Outcome<WatchError> {
    if q.user !in s.users then Fail(WatchUnauthenticated)
    else if q.gpu >= |s.gpus| then Fail(WatchGpuNotFound)
    else if q.rangeEnd <= q.rangeStart then Fail(WatchBadOrder)
    else if !GpuOn(s.gpus, s.servers, q.gpu) then Fail(WatchGpuInactive)
    else if q.rangeEnd - q.rangeStart > s.regulation.maxDurationHours * HOUR then Fail(WatchTooLong)
    else if q.minRam <= 0 || q.minRam > s.regulation.maxRamGb * 1024 || q.minRam > s.gpus[q.gpu].totalRam then
      Fail(WatchRamLimit)
    else if exists w :: w in s.watches && WatchOverlaps(s.watches[w], q.user, q.rangeStart, q.rangeEnd) then
      Fail(OverlappingWatch)
    else Pass
  }

  ghost function ApplyCreateWatch(s: LabState, q: WatchRequest, now: int): (after: LabState)
    ensures Shape(s) ==> Shape(after)
    ensures after.users == s.users && after.regulation == s.regulation
  {
    if CheckWatch(s, q).Pass? then s.(watches := s.watches[s.nextWatch := NewWatch(q, now)], nextWatch := s.nextWatch + 1)
    else s
  }

  ghost function ApplyCancelWatch(s: LabState, w: nat): (after: LabState)
    ensures Shape(s) ==> Shape(after)
    ensures after.users == s.users && after.regulation == s.regulation
  {
    if w in s.watches then s.(watches := s.watches[w := s.watches[w].(isActive := false)]) else s
  }

  function Notified(w: Watch, now: int): Watch {
    w.(notifiedAt := Some(now), isActive := false)
  }

  function WindowOf(w: Watch, reg: Regulation, now: int): Option<(int, int)>
    requires reg.slotMinutes > 0
  {
    AutoBookWindow(w.rangeStart, w.rangeEnd, now, reg.slotMinutes, reg.maxDurationHours)
  }

  function BookingFor(w: Watch, window: (int, int)): Booking {
    Booking(w.user, w.gpu, window.0, window.1, w.minRam, w.description)
  }

  /** An auto-book attempt, followed by `mark_notified` when it booked. */
  ghost function ApplyAutoBook(s: LabState, w: nat, now: int, order: seq<nat>, marked: int): (after: LabState)
    requires s.regulation.slotMinutes > 0
    requires Below(order, |s.reservations|)
    requires w in s.watches
    ensures Shape(s) ==> Shape(after)
    ensures after.users == s.users && after.regulation == s.regulation
  {
    var window := WindowOf(s.watches[w], s.regulation, now);
    if window.None? then s
    else
      var b := BookingFor(s.watches[w], window.value);
      if CheckBooking(s, b, now, order).Fail? then s
      else s.(reservations := s.reservations + [NewReservation(b)],
              watches := s.watches[w := Notified(s.watches[w], marked)])
  }

  /** Neither cancelled nor matched yet. */
  predicate IsPending(w: Watch) {
    w.isActive && w.notifiedAt.None?
  }

  predicate Stale(w: Watch, cutoff: int) {
    !w.isActive && w.createdAt < cutoff
  }

  ghost function StaleIds(watches: map<nat, Watch>, cutoff: int): set<nat> {
    set w | w in watches && Stale(watches[w], cutoff)
  }

  ghost function ApplyCleanup(s: LabState, cutoff: int): (after: LabState)
    ensures Shape(s) ==> Shape(after)
    ensures after.users == s.users && after.regulation == s.regulation
  {
    s.(watches := map w | w in s.watches && !Stale(s.watches[w], cutoff) :: s.watches[w])
  }

  // ---------------------------------------------------------------- operations and runs

  datatype Op =
    | Create(booking: Booking, now: int, order: seq<nat>)
    | Cancel(id: nat, now: int)
    | CancelForUser(user: int, asOf: int, now: int)
    | CancelForUserOnServer(user: int, server: nat, now: int)
    | CancelLabWide(now: int)
    | SetServerActive(server: nat, on: bool, now: int)
    | SetGpuActive(gpu: nat, on: bool, now: int)
    | DeleteServer(server: nat, now: int)
    | DeleteGpu(gpu: nat, now: int)
    | CreateServer(name: string, now: int)
    | AddGpu(server: nat, index: int, model: string, totalRam: int, now: int)
    | CreateWatch(request: WatchRequest, now: int)
    | CancelWatch(watch: nat, now: int)
    | AutoBook(watch: nat, now: int, order: seq<nat>, marked: int)
    | Cleanup(cutoff: int, now: int)
    | Look(gpu: nat, now: int)                              // the scheduler reads the clock and queries one GPU's watches

  /** The clock never goes back, query results are complete, and only pending watches are auto-booked. */
  ghost predicate Legal(s: LabState, op: Op)
    requires Shape(s)
  {
    && s.clock <= op.now
    && match op {
         case Create(b, _, order) =>
           Below(order, |s.reservations|) && Enumerates(order, OverlapIds(s.reservations, b.gpu, b.start, b.end))
         case CancelForUser(_, asOf, now) => s.clock <= asOf <= now
         case AddGpu(_, _, _, totalRam, _) => totalRam > 0
         case AutoBook(w, now, order, marked) =>
           && now <= marked
           && w in s.watches && IsPending(s.watches[w])
           && Below(order, |s.reservations|)
           && var window := WindowOf(s.watches[w], s.regulation, now);
              window.Some? ==>
                Enumerates(order, OverlapIds(s.reservations, s.watches[w].gpu, window.value.0, window.value.1))
         case _ => true
       }
  }

  lemma EnumeratesBelow(ids: seq<nat>, all: set<nat>, n: nat)
    requires Enumerates(ids, all) && forall x :: x in all ==> x < n
    ensures Below(ids, n)
  {
    forall i | 0 <= i < |ids| ensures ids[i] < n {
      assert ids[i] in ids;
    }
  }

  ghost function Ended(op: Op): int {
    if op.AutoBook? then op.marked else op.now
  }

  /** The effect of an operation, leaving the clock aside. */
  ghost function Effect(s: LabState, op: Op): (after: LabState)
    requires Shape(s) && Legal(s, op)
    ensures Shape(after) && after.users == s.users && after.regulation == s.regulation
  {
    match op
    case Create(b, now, order) => ApplyCreate(s, b, now, order)
    case Cancel(id, now) => ApplyCancel(s, id, now)
    case CancelForUser(user, asOf, now) => Updated(s, CancelOfUser(user, asOf, now))
    case CancelForUserOnServer(user, server, now) => Updated(s, CancelOfUserOn(user, GpusOf(s.gpus, server), now))
    case CancelLabWide(now) => Updated(s, CancelInRange(now, now + s.regulation.horizonDays * DAY, now))
    case SetServerActive(server, on, now) => ApplySetServerActive(s, server, on, now)
    case SetGpuActive(g, on, now) => ApplySetGpuActive(s, g, on, now)
    case DeleteServer(server, now) => ApplyDeleteServer(s, server, now)
    case DeleteGpu(g, now) => ApplyDeleteGpu(s, g, now)
    case CreateServer(name, _) => ApplyCreateServer(s, name)
    case AddGpu(server, index, model, totalRam, _) => ApplyAddGpu(s, server, index, model, totalRam)
    case CreateWatch(q, now) => ApplyCreateWatch(s, q, now)
    case CancelWatch(w, _) => ApplyCancelWatch(s, w)
    case AutoBook(w, now, order, marked) => ApplyAutoBook(s, w, now, order, marked)
    case Cleanup(cutoff, _) => ApplyCleanup(s, cutoff)
    case Look(_, _) => s
  }

  ghost function Apply(s: LabState, op: Op): (after: LabState)
    requires Shape(s) && Legal(s, op)
    ensures Shape(after)
    ensures after.users == s.users && after.regulation == s.regulation
    ensures s.clock <= after.clock == Ended(op)
  {
    Effect(s, op).(clock := Ended(op))
  }

  /** A run: operations applied one after the other, each legal where it is applied. */
  ghost predicate LegalRun(s: LabState, ops: seq<Op>)
    requires Shape(s)
    decreases |ops|, 0
  {
    ops == [] || (LegalRun(s, ops[..|ops| - 1]) && Legal(Run(s, ops[..|ops| - 1]), ops[|ops| - 1]))
  }

  ghost function Run(s: LabState, ops: seq<Op>): (after: LabState)
    requires Shape(s) && LegalRun(s, ops)
    ensures Shape(after)
    ensures after.users == s.users && after.regulation == s.regulation && s.clock <= after.clock
    decreases |ops|, 1
  {
    if ops == [] then s else Apply(Run(s, ops[..|ops| - 1]), ops[|ops| - 1])
  }

  /** A legal operation extends a run. */
  lemma RunExtend(s: LabState, ops: seq<Op>, op: Op)
    requires Shape(s) && LegalRun(s, ops) && Legal(Run(s, ops), op)
    ensures LegalRun(s, ops + [op]) && Run(s, ops + [op]) == Apply(Run(s, ops), op)
  {
    assert (ops + [op])[..|ops|] == ops;
  }

  lemma {:induction false} RunPrefix(s: LabState, ops: seq<Op>, k: nat)
    requires Shape(s) && LegalRun(s, ops) && k <= |ops|
    ensures LegalRun(s, ops[..k])
  {
    hide Legal, Apply, Shape;
    if k == |ops| {
      assert ops[..k] == ops;
    } else {
      var front := ops[..|ops| - 1];
      RunPrefix(s, front, k);
      assert front[..k] == ops[..k];
    }
  }
}
