/** Concrete runs from an empty lab in which a bound that a reader might expect does not hold. */
module Witnesses {
  import opened Wrappers
  import opened Entities
  import opened Measures
  import opened Sweep
  import opened SlotViews
  import opened SweepOrder
  import opened SweepProperties
  import opened SlotTime
  import opened LabModel
  import opened Invariants
  import opened Capacity
  import opened GpuLimit
  import opened Limits
  import opened WatchProperties

  const USERS: map<int, int> := map[1 := 1, 2 := 1]

  const SERVER: Server := Server("lab", true, None)

  function Card(index: int): Gpu {
    Gpu(0, index, "card", 8, true, None)
  }

  /** Hourly slots, one-day bookings, a month's horizon, and `cap` reservations per user. */
  function Rules(cap: int): Regulation {
    Regulation(1, 24, 30, 60, cap, None)
  }

  function Nothing(cap: int): LabState {
    LabState([], [], [], map[], 0, USERS, Rules(cap), 0)
  }

  /** One server with two 8 MB GPUs, both on. */
  function TwoGpus(cap: int): LabState {
    Nothing(cap).(servers := [SERVER], gpus := [Card(0), Card(1)])
  }

  function Hours(user: int, gpu: nat, from: int, until: int, ram: int): Booking {
    Booking(user, gpu, from * HOUR, until * HOUR, ram, "")
  }

  /** Some run from the empty lab ends in s; when `quiet`, one without reactivation. */
  ghost predicate Reachable(cap: int, s: LabState, quiet: bool) {
    && Shape(s)
    && exists ops: seq<Op> ::
      LegalRun(Nothing(cap), ops) && Run(Nothing(cap), ops) == s && (quiet ==> NeverReactivates(Nothing(cap), ops))
  }

  lemma QuietExtend(s: LabState, ops: seq<Op>, op: Op)
    requires Shape(s) && LegalRun(s, ops) && NeverReactivates(s, ops)
    requires Legal(Run(s, ops), op) && Reactivated(Run(s, ops), op) == {}
    ensures LegalRun(s, ops + [op]) && NeverReactivates(s, ops + [op])
  {
    RunExtend(s, ops, op);
    assert (ops + [op])[..|ops|] == ops;
  }

  lemma Reach(cap: int, s: LabState, quiet: bool, op: Op)
    requires Reachable(cap, s, quiet) && Legal(s, op) && (quiet ==> Reactivated(s, op) == {})
    ensures Reachable(cap, Apply(s, op), quiet)
  {
    hide Apply, Reactivated;
    var s0 := Nothing(cap);
    var ops: seq<Op> :| LegalRun(s0, ops) && Run(s0, ops) == s && (quiet ==> NeverReactivates(s0, ops));
    RunExtend(s0, ops, op);
    if quiet {
      QuietExtend(s0, ops, op);
    }
    assert LegalRun(s0, ops + [op]) && Run(s0, ops + [op]) == Apply(s, op);
    hide LegalRun, Run, NeverReactivates;
  }

  lemma ReachableIsInv(cap: int, s: LabState, quiet: bool)
    requires Reachable(cap, s, quiet)
    ensures Inv(s)
  {
    var ops: seq<Op> :|
      LegalRun(Nothing(cap), ops) && Run(Nothing(cap), ops) == s && (quiet ==> NeverReactivates(Nothing(cap), ops));
    ReachableInv(Nothing(cap), ops);
  }

  function OneServer(cap: int): LabState {
    Nothing(cap).(servers := [SERVER])
  }

  function OneGpu(cap: int): LabState {
    OneServer(cap).(gpus := [Card(0)])
  }

  lemma NothingReachable(cap: int)
    ensures Reachable(cap, Nothing(cap), true)
  {
    assert LegalRun(Nothing(cap), []) && Run(Nothing(cap), []) == Nothing(cap) && NeverReactivates(Nothing(cap), []);
  }

  lemma AddsServer(cap: int)
    ensures ApplyCreateServer(Nothing(cap), "lab") == OneServer(cap)
  {
    assert [] + [SERVER] == [SERVER];
  }

  lemma AddsFirst(cap: int)
    ensures ApplyAddGpu(OneServer(cap), 0, 0, "card", 8) == OneGpu(cap)
  {
    assert [] + [Card(0)] == [Card(0)];
  }

  lemma AddsSecond(cap: int)
    ensures ApplyAddGpu(OneGpu(cap), 0, 1, "card", 8) == TwoGpus(cap)
  {
    assert [Card(0)] + [Card(1)] == [Card(0), Card(1)];
  }

  lemma FleetReachable(cap: int)
    ensures Reachable(cap, TwoGpus(cap), true)
  {
    hide Reachable;
    NothingReachable(cap);
    AddsServer(cap);
    Reach(cap, Nothing(cap), true, CreateServer("lab", 0));
    AddsFirst(cap);
    Reach(cap, OneServer(cap), true, AddGpu(0, 0, "card", 8, 0));
    AddsSecond(cap);
    Reach(cap, OneGpu(cap), true, AddGpu(0, 1, "card", 8, 0));
  }

  lemma HourAligned(h: int)
    requires h >= 0
    ensures IsSlotAligned(h * HOUR, 60)
  {
    assert Seconds(h * HOUR) == h * 3600;
  }

  lemma NoClaims()
    ensures forall from, until :: Peak<int>([], from, until) == 0
  {
  }

  /** A booking inside the lab's limits, on a free window, goes through. */
  lemma FreeBooking(s: LabState, b: Booking, from: int, until: int)
    requires s.regulation == Rules(s.regulation.maxActivePerUser) && s.users == USERS && s.servers == [SERVER]
    requires b.gpu < |s.gpus| && s.gpus[b.gpu].server == 0 && s.gpus[b.gpu].isActive && s.gpus[b.gpu].totalRam == 8
    requires b.user in USERS && 0 <= from < until <= from + 24 && b.start == from * HOUR && b.end == until * HOUR
    requires 0 <= s.clock <= b.start <= 30 * DAY && 0 < b.ram <= 8
    requires OverlapIds(s.reservations, b.gpu, b.start, b.end) == {}
    requires Total(BookingsOf(b.user, s.clock), s.reservations) < s.regulation.maxActivePerUser
    requires GpusHeldDuring(s.reservations, b.user, b.start, b.end) == {}
    ensures Enumerates([], OverlapIds(s.reservations, b.gpu, b.start, b.end))
    ensures CheckBooking(s, b, s.clock, []).Pass?
  {
    HourAligned(from);
    HourAligned(until);
    NoClaims();
    assert ClaimsOf(s.reservations, []) == [];
  }

  lemma BookFree(cap: int, s: LabState, b: Booking, from: int, until: int)
    requires Reachable(cap, s, true)
    requires s.regulation == Rules(s.regulation.maxActivePerUser) && s.users == USERS && s.servers == [SERVER]
    requires b.gpu < |s.gpus| && s.gpus[b.gpu].server == 0 && s.gpus[b.gpu].isActive && s.gpus[b.gpu].totalRam == 8
    requires b.user in USERS && 0 <= from < until <= from + 24 && b.start == from * HOUR && b.end == until * HOUR
    requires 0 <= s.clock <= b.start <= 30 * DAY && 0 < b.ram <= 8
    requires OverlapIds(s.reservations, b.gpu, b.start, b.end) == {}
    requires Total(BookingsOf(b.user, s.clock), s.reservations) < s.regulation.maxActivePerUser
    requires GpusHeldDuring(s.reservations, b.user, b.start, b.end) == {}
    ensures Reachable(cap, s.(reservations := s.reservations + [NewReservation(b)]), true)
  {
    hide Reachable;
    FreeBooking(s, b, from, until);
    Reach(cap, s, true, Create(b, s.clock, []));
  }

  /** After one earlier row, a booking elsewhere in time is free; the user's count is left to the caller. */
  lemma BookSecond(cap: int, s: LabState, first: Reservation, b: Booking, from: int, until: int)
    requires Reachable(cap, s, true) && s.reservations == [first]
    requires s.regulation == Rules(cap) && s.users == USERS && s.servers == [SERVER]
    requires b.gpu < |s.gpus| && s.gpus[b.gpu].server == 0 && s.gpus[b.gpu].isActive && s.gpus[b.gpu].totalRam == 8
    requires b.user in USERS && 0 <= from < until <= from + 24 && b.start == from * HOUR && b.end == until * HOUR
    requires 0 <= s.clock <= b.start <= 30 * DAY && 0 < b.ram <= 8
    requires first.end <= b.start
    requires Weigh(BookingsOf(b.user, s.clock), first) < cap
    ensures Reachable(cap, s.(reservations := [first, NewReservation(b)]), true)
  {
    hide Reachable;
    TotalOfOne(BookingsOf(b.user, s.clock), first);
    assert OverlapIds([first], b.gpu, b.start, b.end) == {};
    assert GpusHeldDuring([first], b.user, b.start, b.end) == {};
    BookFree(cap, s, b, from, until);
    assert [first] + [NewReservation(b)] == [first, NewReservation(b)];
  }

  lemma TotalOfOne(m: Measure, r: Reservation)
    ensures Total(m, [r]) == Weigh(m, r)
  {
    assert [r][..0] == [];
  }

  lemma TotalOfTwo(m: Measure, r: Reservation, q: Reservation)
    ensures Total(m, [r, q]) == Weigh(m, r) + Weigh(m, q)
  {
    assert [r, q][..1] == [r];
    TotalOfOne(m, r);
  }

  function Back(user: int, gpu: nat, from: int, until: int, ram: int): Reservation {
    NewReservation(Hours(user, gpu, from, until, ram))
  }

  lemma FirstBooked(cap: int, user: int, ram: int)
    requires cap >= 1 && user in USERS && 0 < ram <= 8
    ensures Reachable(cap, TwoGpus(cap).(reservations := [Back(user, 0, 8, 9, ram)]), true)
  {
    hide Reachable;
    FleetReachable(cap);
    BookFree(cap, TwoGpus(cap), Hours(user, 0, 8, 9, ram), 8, 9);
    assert [] + [Back(user, 0, 8, 9, ram)] == [Back(user, 0, 8, 9, ram)];
  }

  /** Turning an effective GPU off, row by row. */
  lemma TurnsOff(s: LabState, g: nat, now: int, rows: seq<Reservation>)
    requires GpuKept(s.gpus, g) && Effective(s, g) && |rows| == |s.reservations|
    requires forall i :: 0 <= i < |rows| ==> rows[i] == Rewrite(SuspendOn({g}, now), s.reservations[i])
    ensures ApplySetGpuActive(s, g, false, now)
         == s.(gpus := s.gpus[g := s.gpus[g].(isActive := false)], reservations := rows)
  {
    assert RewriteAll(SuspendOn({g}, now), s.reservations) == rows;
  }

  lemma FirstCardOff()
    ensures [Card(0), Card(1)][0 := Card(0).(isActive := false)] == [Card(0).(isActive := false), Card(1)]
  {
  }

  lemma OffReachable(cap: int, s: LabState, now: int, rows: seq<Reservation>)
    requires Reachable(cap, s, true) && s.clock <= now
    requires s.servers == [SERVER] && s.gpus == [Card(0), Card(1)] && |rows| == |s.reservations|
    requires forall i :: 0 <= i < |rows| ==> rows[i] == Rewrite(SuspendOn({0}, now), s.reservations[i])
    ensures Reachable(cap, s.(gpus := [Card(0).(isActive := false), Card(1)], reservations := rows, clock := now), true)
  {
    hide Reachable;
    TurnsOff(s, 0, now, rows);
    FirstCardOff();
    Reach(cap, s, true, SetGpuActive(0, false, now));
  }

  // ---------------------------------------------------------------- reactivation overload

  /** Two full-RAM bookings one after the other, as stored. */
  function BackToBack(): LabState {
    TwoGpus(1).(reservations := [Back(1, 0, 8, 9, 8), Back(2, 0, 9, 10, 8)])
  }

  lemma BackToBackReachable()
    ensures Reachable(1, BackToBack(), true)
  {
    hide Reachable;
    FirstBooked(1, 1, 8);
    var first := Back(1, 0, 8, 9, 8);
    BookSecond(1, TwoGpus(1).(reservations := [first]), first, Hours(2, 0, 9, 10, 8), 9, 10);
  }

  function PausedPair(): LabState {
    var rows := BackToBack().reservations;
    BackToBack().(gpus := [Card(0).(isActive := false), Card(1)],
                  reservations := [rows[0].(status := SUSPENDED), rows[1].(status := SUSPENDED)])
  }

  lemma PausedPairReachable()
    ensures Reachable(1, PausedPair(), true)
  {
    hide Reachable;
    BackToBackReachable();
    OffReachable(1, BackToBack(), 0, PausedPair().reservations);
  }

  /**
    Two bookings that never overlapped are both restarted at the reactivation instant: from this
    reachable state, within its capacity, turning the GPU on again puts the lab above it.
  */
  lemma ReactivationOverload()
    ensures var on := SetGpuActive(0, true, 0);
            && Reachable(1, PausedPair(), true) && WithinCapacity(PausedPair())
            && Reactivated(PausedPair(), on) == {0}
            && !WithinCapacity(Apply(PausedPair(), on))
  {
    hide Reachable;
    var s, on := PausedPair(), SetGpuActive(0, true, 0);
    PausedPairReachable();
    ReachableIsInv(1, s, true);
    forall g, t | 0 <= g < |s.gpus| ensures Total(Load(false, g, t), s.reservations) <= s.gpus[g].totalRam {
      TotalOfTwo(ActiveAt(g, t), s.reservations[0], s.reservations[1]);
    }
    TotalOfTwo(SuspendedOn(0), s.reservations[0], s.reservations[1]);
    StepFits(s, on, false);
  }

  // ---------------------------------------------------------------- more reservations than the cap

  /** The user's booking on GPU 0 is suspended, its booked end has passed, and another one was made on GPU 1. */
  function LapsedAndNew(): LabState {
    TwoGpus(1).(gpus := [Card(0).(isActive := false), Card(1)], clock := 10 * HOUR,
                reservations := [Back(1, 0, 8, 9, 8).(status := SUSPENDED), Back(1, 1, 11, 12, 8)])
  }

  function LapsedOnly(): LabState {
    LapsedAndNew().(reservations := [Back(1, 0, 8, 9, 8).(status := SUSPENDED)])
  }

  lemma LapsedOnlyReachable()
    ensures Reachable(1, LapsedOnly(), true)
  {
    hide Reachable;
    FirstBooked(1, 1, 8);
    var paused := LapsedOnly().(clock := 8 * HOUR);
    OffReachable(1, TwoGpus(1).(reservations := [Back(1, 0, 8, 9, 8)]), 8 * HOUR, paused.reservations);
    // Time passes to ten o'clock with an operation that changes nothing.
    Reach(1, paused, true, LabModel.CancelWatch(0, 10 * HOUR));
  }

  lemma LapsedAndNewReachable()
    ensures Reachable(1, LapsedAndNew(), true)
  {
    hide Reachable;
    LapsedOnlyReachable();
    BookSecond(1, LapsedOnly(), Back(1, 0, 8, 9, 8).(status := SUSPENDED), Hours(1, 1, 11, 12, 8), 11, 12);
  }

  /** With a cap of one, the reactivation leaves the user with two reservations. */
  lemma LapsedOverCap()
    ensures var on := SetGpuActive(0, true, 10 * HOUR);
            && Reachable(1, LapsedAndNew(), true) && LapsedAndNew().regulation.maxActivePerUser == 1
            && BookingCount(LapsedAndNew(), 1) == 1
            && BookingCount(Apply(LapsedAndNew(), on), 1) == 2
  {
    hide Reachable;
    var s, on := LapsedAndNew(), SetGpuActive(0, true, 10 * HOUR);
    LapsedAndNewReachable();
    ReachableIsInv(1, s, true);
    assert Reactivated(s, on) == {0};
    TotalOfTwo(BookingsOf(1, 10 * HOUR), s.reservations[0], s.reservations[1]);
    TotalOfTwo(LapsedOf(1, {0}, 10 * HOUR), s.reservations[0], s.reservations[1]);
    ReactivationCount(s, on, 1);
  }

  // ---------------------------------------------------------------- more GPUs than the limit

  function OneHourEach(): LabState {
    TwoGpus(5).(reservations := [Back(1, 0, 8, 9, 1), Back(1, 1, 10, 11, 1)])
  }

  lemma OneHourEachReachable()
    ensures Reachable(5, OneHourEach(), true)
  {
    hide Reachable;
    FirstBooked(5, 1, 1);
    var first := Back(1, 0, 8, 9, 1);
    BookSecond(5, TwoGpus(5).(reservations := [first]), first, Hours(1, 1, 10, 11, 1), 10, 11);
  }

  /**
    With a limit of one GPU, after G1 8-9 and G2 10-11 the booking G1 8-11 is accepted too, because G1
    is already among the GPUs held in that window; at ten the user then holds two.
  */
  lemma TwoGpusAtOnce()
    ensures var b := Hours(1, 0, 8, 11, 1);
            && Reachable(5, OneHourEach(), true) && OneHourEach().users == map[1 := 1, 2 := 1]
            && Enumerates([0], OverlapIds(OneHourEach().reservations, 0, b.start, b.end))
            && CheckBooking(OneHourEach(), b, 0, [0]).Pass?
            && GpusHeldAt(ApplyCreate(OneHourEach(), b, 0, [0]).reservations, 1, 10 * HOUR) == {0, 1}
  {
    hide Reachable;
    var b := Hours(1, 0, 8, 11, 1);
    OneHourEachReachable();
    ThirdBooking(OneHourEach(), b);
    BookingAddsGpu(OneHourEach().reservations, b, 1, 10 * HOUR);
    SecondAtTen();
    hide CheckBooking, GpusHeldAt;
  }

  lemma SecondAtTen()
    ensures GpusHeldAt(OneHourEach().reservations, 1, 10 * HOUR) == {1}
  {
    var rows := OneHourEach().reservations;
    assert HoldsAt(rows[1], 1, 10 * HOUR) && rows[1].gpu == 1;
    assert !HoldsAt(rows[0], 1, 10 * HOUR);
  }

  lemma ThirdBooking(s: LabState, b: Booking)
    requires s == OneHourEach() && b == Hours(1, 0, 8, 11, 1)
    ensures Enumerates([0], OverlapIds(s.reservations, 0, b.start, b.end))
    ensures CheckBooking(s, b, 0, [0]).Pass?
  {
    HourAligned(8);
    HourAligned(11);
    var claims := ClaimsOf(s.reservations, [0]);
    var at := SweepSandwich(claims, b.start, b.end);
    assert claims[..0] == [];
    assert ClosedHeld(claims, b.start, b.end, at) <= 1;
    TotalOfTwo(BookingsOf(1, 0), s.reservations[0], s.reservations[1]);
    assert HoldsDuring(s.reservations[0], 1, b.start, b.end);
  }

  /** The whole server off, both bookings suspended. */
  function BothPaused(): LabState {
    var rows := OneHourEach().reservations;
    OneHourEach().(servers := [SERVER.(isActive := false)],
                   reservations := [rows[0].(status := SUSPENDED), rows[1].(status := SUSPENDED)])
  }

  lemma ServerTurnsOff()
    ensures ApplySetServerActive(OneHourEach(), 0, false, 0) == BothPaused()
  {
    var s, after := OneHourEach(), ApplySetServerActive(OneHourEach(), 0, false, 0);
    assert GpusOf(s.gpus, 0) == {0, 1};
    assert after.reservations == BothPaused().reservations;
    assert after.servers == BothPaused().servers;
  }

  lemma BothPausedReachable()
    ensures Reachable(5, BothPaused(), true)
  {
    hide Reachable;
    OneHourEachReachable();
    ServerTurnsOff();
    Reach(5, OneHourEach(), true, SetServerActive(0, false, 0));
  }

  lemma BothWaiting(rows: seq<Reservation>)
    requires rows == BothPaused().reservations
    ensures Waiting(rows, {0, 1}, 1, 0) == {0, 1}
  {
    assert rows[0].gpu == 0 && rows[1].gpu == 1;
  }

  lemma PausedConcurrency(s: LabState)
    requires s == BothPaused()
    ensures ConcurrencyOk(s)
  {
    forall user, t | user in s.users ensures |GpusHeldAt(s.reservations, user, t)| <= 1 {
      if HoldsAt(s.reservations[0], user, t) {
        assert GpusHeldAt(s.reservations, user, t) == {0};
      } else if HoldsAt(s.reservations[1], user, t) {
        assert GpusHeldAt(s.reservations, user, t) == {1};
      } else {
        assert GpusHeldAt(s.reservations, user, t) == {};
      }
    }
  }

  /** With a limit of one GPU, turning the server on again restarts the two bookings together, on two. */
  lemma RestartOnTwoGpus()
    ensures var s, on := BothPaused(), SetServerActive(0, true, 0);
            && Reachable(5, s, true) && s.users == map[1 := 1, 2 := 1] && ConcurrencyOk(s)
            && Reactivated(s, on) == {0, 1}
            && !ConcurrencyOk(Apply(s, on))
  {
    hide Reachable, ConcurrencyOk, Waiting, HeldElsewhere, Apply;
    var s, on := BothPaused(), SetServerActive(0, true, 0);
    BothPausedReachable();
    ReachableIsInv(5, s, true);
    PausedConcurrency(s);
    BothWaiting(s.reservations);
    assert |{0, 1}| == 2;
    var at := ResumeAt(s, 0);
    assert |Waiting(s.reservations, {0, 1}, 1, at - at)| == 2 && s.users[1] == 1;
    assert |HeldElsewhere(s.reservations, {0, 1}, 1, at)| >= 0;
    assert !RestartWithinLimit(s, {0, 1}, at);
    StepConcurrency(s, on);
  }

  // ---------------------------------------------------------------- a match refused for capacity

  /** Two back-to-back bookings, and a watch that wants the other half of the GPU over both hours. */
  function Watched(): LabState {
    TwoGpus(2).(reservations := [Back(1, 0, 8, 9, 4), Back(2, 0, 9, 10, 4)],
                watches := map[0 := HalfWatch()], nextWatch := 1)
  }

  function HalfWatch(): Watch {
    NewWatch(HalfRequest(), 0)
  }

  function HalfRequest(): WatchRequest {
    WatchRequest(1, 0, 8 * HOUR, 10 * HOUR, 4, true, "")
  }

  lemma WatchedReachable()
    ensures Reachable(2, Watched(), true)
  {
    hide Reachable;
    FirstBooked(2, 1, 4);
    var first := Back(1, 0, 8, 9, 4);
    BookSecond(2, TwoGpus(2).(reservations := [first]), first, Hours(2, 0, 9, 10, 4), 9, 10);
    var booked := Watched().(watches := map[], nextWatch := 0);
    assert CheckWatch(booked, HalfRequest()).Pass?;
    Reach(2, booked, true, CreateWatch(HalfRequest(), 0));
  }

  lemma HalfWindow()
    ensures WindowOf(HalfWatch(), Rules(2), 0) == Some((8 * HOUR, 10 * HOUR))
  {
    HourAligned(8);
    HourAligned(10);
  }

  /** What each order makes of the two bookings. */
  lemma TwoOrders(first: Claim<int>, second: Claim<int>)
    requires first.start < first.end == second.start < second.end && first.ram == second.ram == 4
    ensures Peak([first, second], first.start, second.end) <= 4
    ensures Peak([second, first], first.start, second.end) >= 8
  {
    hide Peak;
    var forth := [first, second];
    var t := SweepExact(forth, first.start, second.end);
    assert forth[..1] == [first] && [first][..0] == [];
    assert Held([first], first.start, second.end, t, None) == Cover(first, first.start, second.end, t, None);
    assert Held(forth, first.start, second.end, t, None)
        == Cover(first, first.start, second.end, t, None) + Cover(second, first.start, second.end, t, None);
    TieCounted([second, first], first.start, second.end, 0, 1);
  }

  lemma WatchedMatches(s: LabState)
    requires s == Watched()
    ensures Matches(s, 0, 0, [0, 1])
  {
    hide Peak;
    var claims := ClaimsOf(s.reservations, [0, 1]);
    assert claims == [ClaimOf(s.reservations[0]), ClaimOf(s.reservations[1])];
    TwoOrders(claims[0], claims[1]);
    assert OverlapIds(s.reservations, 0, 8 * HOUR, 10 * HOUR) == {0, 1};
  }

  lemma AttemptRefused(s: LabState, b: Booking)
    requires s == Watched() && b == BookingFor(HalfWatch(), (8 * HOUR, 10 * HOUR))
    ensures Enumerates([1, 0], OverlapIds(s.reservations, 0, b.start, b.end))
    ensures CheckBooking(s, b, 0, [1, 0]) == Fail(CapacityExceeded)
  {
    hide Peak;
    HourAligned(8);
    HourAligned(10);
    var claims := ClaimsOf(s.reservations, [1, 0]);
    assert claims == [ClaimOf(s.reservations[1]), ClaimOf(s.reservations[0])];
    TwoOrders(claims[1], claims[0]);
    assert OverlapIds(s.reservations, 0, b.start, b.end) == {0, 1};
    TotalOfTwo(BookingsOf(1, 0), s.reservations[0], s.reservations[1]);
  }

  /**
    The watch matches while the query answers in booking order, but the attempt, whose query answers
    in the other order, is refused for capacity, though it would fit at every instant.
  */
  lemma MatchRefusedForCapacity()
    ensures var s, window := Watched(), (8 * HOUR, 10 * HOUR);
            && Reachable(2, s, true)
            && RefusedThoughMatched(s, 0, 0, [0, 1], [1, 0], window)
            && FitsThroughout(s, BookingFor(HalfWatch(), window))
  {
    hide Reachable, Peak, Matches, CheckBooking, WindowOf;
    var s := Watched();
    WatchedReachable();
    WatchedMatches(s);
    HalfWindow();
    AttemptRefused(s, BookingFor(HalfWatch(), (8 * HOUR, 10 * HOUR)));
    forall t ensures Total(ActiveAt(0, t), s.reservations) <= 4 {
      TotalOfTwo(ActiveAt(0, t), s.reservations[0], s.reservations[1]);
    }
  }

  /** Neither slot of the two bookings sweeps above one of them. */
  lemma HalfSlots(slots: seq<(int, int)>, first: Claim<int>, second: Claim<int>)
    requires first.start + HOUR == first.end == second.start == second.end - HOUR && first.ram == second.ram == 4
    requires SlotView(slots, [second, first], first.start, second.end, HOUR, 8)
    ensures Requestable(slots, 4)
  {
    hide Peak;
    var claims := [second, first];
    forall k | 0 <= k < |slots| ensures slots[k].1 >= 4 {
      ViewSlots(slots, claims, first.start, second.end, HOUR, 8, k);
      var start, end := slots[k].0, slots[k].0 + HOUR;
      var t := SweepExact(claims, start, end);
      assert claims[..1] == [second] && [second][..0] == [];
      assert Held([second], start, end, t, None) == Cover(second, start, end, t, None);
      assert Held(claims, start, end, t, None) == Cover(second, start, end, t, None) + Cover(first, start, end, t, None);
    }
  }

  /**
    The hourly view of the two bookings shows half of the GPU free in both hours, but a request for
    just that over both is refused, though both queries answer in the same order and it would fit.
  */
  lemma ViewShowsTooMuch(slots: seq<(int, int)>)
    requires SlotView(slots, ClaimsOf(Watched().reservations, [1, 0]), 8 * HOUR, 10 * HOUR, HOUR, 8)
    ensures var s, b := Watched(), BookingFor(HalfWatch(), (8 * HOUR, 10 * HOUR));
            && Reachable(2, s, true)
            && Enumerates([1, 0], OverlapIds(s.reservations, 0, b.start, b.end))
            && Requestable(slots, b.ram)
            && CheckBooking(s, b, 0, [1, 0]) == Fail(CapacityExceeded)
            && FitsThroughout(s, b)
  {
    hide Reachable, Peak, CheckBooking, SlotView, Requestable;
    var s := Watched();
    WatchedReachable();
    var claims := ClaimsOf(s.reservations, [1, 0]);
    assert claims == [ClaimOf(s.reservations[1]), ClaimOf(s.reservations[0])];
    HalfSlots(slots, claims[1], claims[0]);
    AttemptRefused(s, BookingFor(HalfWatch(), (8 * HOUR, 10 * HOUR)));
    forall t ensures Total(ActiveAt(0, t), s.reservations) <= 4 {
      TotalOfTwo(ActiveAt(0, t), s.reservations[0], s.reservations[1]);
    }
  }
}
