/** The background job that auto-books matched watches. */
module Scheduler {
  import opened Entities
  import opened Measures
  import opened LabModel
  import opened Invariants
  import opened Capacity
  import opened WatchProperties
  import opened LabService

  /** One match of the loop: attempt the booking and, if it went through, mark the watch. */
  method BookMatch(lab: Lab, w: nat, since: int) returns (booked: bool, ghost op: Op)
    requires Shape(lab.State()) && w in lab.watches && IsPending(lab.watches[w])
    modifies lab
    ensures Legal(old(lab.State()), op) && lab.State() == Apply(old(lab.State()), op)
    ensures op.AutoBook? && op.watch == w && since <= op.now
    ensures |lab.reservations| == |old(lab.reservations)| + if booked then 1 else 0
    ensures lab.servers == old(lab.servers) && lab.gpus == old(lab.gpus)
    ensures lab.watches.Keys == old(lab.watches).Keys
    ensures forall v :: v in lab.watches ==> lab.watches[v].gpu == old(lab.watches)[v].gpu
    ensures forall v :: v in lab.watches && v != w ==> lab.watches[v] == old(lab.watches)[v]
  {
    hide CheckBooking;
    var now := lab.UtcNow(since);
    var reservation;
    ghost var order;
    reservation, order := lab.AttemptAutoBook(w, now);
    booked := reservation.Some?;
    if booked {
      var marked := lab.UtcNow(now);
      op := AutoBook(w, now, order, marked);
      lab.MarkNotified(w, marked);
      lab.Settle(marked);
    } else {
      op := AutoBook(w, now, order, now);
    }
  }

  /** `ops` are operations of the job that lead from s0 to s. */
  ghost predicate PassSoFar(s0: LabState, ops: seq<Op>, s: LabState) {
    Shape(s0) && LegalRun(s0, ops) && LooksAndBooks(ops) && s == Run(s0, ops)
  }

  lemma PassExtend(s0: LabState, ops: seq<Op>, s: LabState, op: Op)
    requires PassSoFar(s0, ops, s) && Legal(s, op) && (op.Look? || op.AutoBook?)
    ensures PassSoFar(s0, ops + [op], Apply(s, op))
  {
    hide Apply, Legal, Shape;
    RunExtend(s0, ops, op);
  }

  lemma LookTicks(s: LabState, g: nat, now: int)
    requires Shape(s) && s.clock <= now
    ensures Legal(s, Look(g, now)) && Apply(s, Look(g, now)) == s.(clock := now)
  {
  }

  ghost predicate AllPending(watches: map<nat, Watch>, ids: seq<nat>) {
    forall j :: 0 <= j < |ids| ==> ids[j] in watches && IsPending(watches[ids[j]])
  }

  /** These operations attempt these watches, in this order, none before `since`. */
  ghost predicate AttemptsOf(ops: seq<Op>, watches: seq<nat>, since: int) {
    && |ops| == |watches|
    && forall k :: 0 <= k < |ops| ==> ops[k].AutoBook? && ops[k].watch == watches[k] && since <= ops[k].now
  }

  ghost predicate Attempted(ops: seq<Op>, w: nat) {
    exists k :: 0 <= k < |ops| && ops[k].AutoBook? && ops[k].watch == w
  }

  /** The matches of one GPU, attempted one after the other. */
  method BookMatches(lab: Lab, matches: seq<nat>, since: int, ghost s0: LabState, ghost ops0: seq<Op>)
    returns (booked: nat, ghost attempts: seq<Op>)
    requires PassSoFar(s0, ops0, lab.State())
    requires Distinct(matches) && AllPending(lab.watches, matches)
    modifies lab
    ensures PassSoFar(s0, ops0 + attempts, lab.State()) && AttemptsOf(attempts, matches, since)
    ensures |lab.reservations| == |old(lab.reservations)| + booked
    ensures lab.servers == old(lab.servers) && lab.gpus == old(lab.gpus)
    ensures lab.watches.Keys == old(lab.watches).Keys
    ensures forall v :: v in lab.watches ==> lab.watches[v].gpu == old(lab.watches)[v].gpu
    ensures forall v :: v in lab.watches && v !in matches ==> lab.watches[v] == old(lab.watches)[v]
  {
    hide Apply, Legal, LegalRun, Run, Shape, LooksAndBooks;
    booked := 0;
    attempts := [];
    assert ops0 + attempts == ops0;
    for k := 0 to |matches|
      invariant PassSoFar(s0, ops0 + attempts, lab.State()) && AttemptsOf(attempts, matches[..k], since)
      invariant |lab.reservations| == |old(lab.reservations)| + booked
      invariant lab.servers == old(lab.servers) && lab.gpus == old(lab.gpus)
      invariant lab.watches.Keys == old(lab.watches).Keys
      invariant forall v :: v in lab.watches ==> lab.watches[v].gpu == old(lab.watches)[v].gpu
      invariant forall v :: v in lab.watches && v !in matches[..k] ==> lab.watches[v] == old(lab.watches)[v]
    {
      assert matches[k] !in matches[..k] && matches[..k + 1] == matches[..k] + [matches[k]];
      ghost var before := lab.State();
      var went;
      ghost var op;
      went, op := BookMatch(lab, matches[k], since);
      PassExtend(s0, ops0 + attempts, before, op);
      assert ops0 + attempts + [op] == ops0 + (attempts + [op]);
      attempts := attempts + [op];
      if went {
        booked := booked + 1;
      }
    }
    assert matches[..|matches|] == matches;
  }

  // ---------------------------------------------------------------- who is considered

  /**
    In this state, its query answering in this order, the watch has run out, or is attempted if and only if it
    matches.
  */
  ghost predicate Decided(s: LabState, w: nat, now: int, order: seq<nat>, attempted: bool) {
    && w in s.watches && s.watches[w].gpu < |s.gpus|
    && if s.watches[w].rangeEnd <= now then !attempted
       else Answers(s, w, now, order) && (attempted <==> Matches(s, w, now, order))
  }

  ghost predicate DecidedAfter(s0: LabState, before: seq<Op>, w: nat, now: int, order: seq<nat>, attempted: bool)
    requires Shape(s0)
  {
    && LegalRun(s0, before) && Decided(Run(s0, before), w, now, order, attempted)
    && w in s0.watches && Run(s0, before).watches[w] == s0.watches[w]
  }

  /** The look at GPU g, its clock reading `now`, that the run makes right after `before`. */
  ghost predicate LookAfter(before: seq<Op>, g: nat, now: int, ops: seq<Op>) {
    before + [Look(g, now)] <= ops
  }

  /** The run looked at the watch's GPU, and what it saw, by that look's clock, decided whether to attempt the watch. */
  ghost predicate Considered(s0: LabState, ops: seq<Op>, w: nat)
    requires Shape(s0) && w in s0.watches
  {
    exists before, now, order ::
      LookAfter(before, s0.watches[w].gpu, now, ops) && DecidedAfter(s0, before, w, now, order, Attempted(ops, w))
  }

  /** The k-th operation is a look at GPU g. */
  ghost predicate LooksAt(ops: seq<Op>, k: nat, g: nat) {
    k < |ops| && ops[k].Look? && ops[k].gpu == g
  }

  /**
    The i-th operation attempts a watch of GPU g after the k-th one looked at g, with nothing but attempts in
    between.
  */
  ghost predicate Follows(ops: seq<Op>, k: nat, i: nat, g: nat) {
    && k < i < |ops| && LooksAt(ops, k, g) && ops[i].AutoBook? && ops[k].now <= ops[i].now
    && forall j :: k < j < i ==> ops[j].AutoBook?
  }

  ghost predicate AttemptsFollowLooks(s0: LabState, ops: seq<Op>) {
    forall i :: 0 <= i < |ops| && ops[i].AutoBook? ==>
      ops[i].watch in s0.watches && exists k: nat :: Follows(ops, k, i, s0.watches[ops[i].watch].gpu)
  }

  /** Exactly these GPUs were looked at, each once. */
  ghost predicate LookedOnceAt(ops: seq<Op>, gs: set<nat>) {
    && (forall g :: g in gs ==> exists k: nat :: LooksAt(ops, k, g))
    && (forall k :: 0 <= k < |ops| && ops[k].Look? ==> ops[k].gpu in gs)
    && (forall i, j :: 0 <= i < j < |ops| && ops[i].Look? && ops[j].Look? ==> ops[i].gpu != ops[j].gpu)
  }

  /** No watch is attempted twice. */
  ghost predicate AttemptedOnce(ops: seq<Op>) {
    forall i, j :: 0 <= i < j < |ops| && ops[i].AutoBook? && ops[j].AutoBook? ==> ops[i].watch != ops[j].watch
  }

  /**
    `ops` lead from s0 to s and attempt, once each, only watches of the visited GPUs that were pending
    at the start; every pending watch of those GPUs was considered; all other watches are untouched.
  */
  ghost predicate PassOver(s0: LabState, ops: seq<Op>, s: LabState, visited: set<nat>) {
    && PassSoFar(s0, ops, s)
    && s.servers == s0.servers && s.gpus == s0.gpus && s.watches.Keys == s0.watches.Keys
    && (forall w :: w in s0.watches ==> s.watches[w].gpu == s0.watches[w].gpu)
    && (forall w :: w in s0.watches && s0.watches[w].gpu !in visited ==> s.watches[w] == s0.watches[w])
    && (forall w :: Attempted(ops, w) ==> w in s0.watches && IsPending(s0.watches[w]) && s0.watches[w].gpu in visited)
    && AttemptedOnce(ops)
    && LookedOnceAt(ops, visited) && AttemptsFollowLooks(s0, ops)
    && (forall w :: w in s0.watches && IsPending(s0.watches[w]) && s0.watches[w].gpu in visited ==> Considered(s0, ops, w))
  }

  lemma PassConserves(s0: LabState, ops: seq<Op>, s: LabState) returns (served: seq<nat>)
    requires Inv(s0) && PassSoFar(s0, ops, s)
    ensures Conserved(s0, s, served)
    ensures Inv(s) && (WithinCapacity(s0) ==> WithinCapacity(s))
  {
    served := AutoBooksConserve(s0, ops);
    RunInv(s0, ops);
    if WithinCapacity(s0) {
      AutoBooksKeepCapacity(s0, ops);
    }
  }

  /** What one visit adds to the run: a look at the GPU, then the attempts on its matches. */
  ghost function Visit(g: nat, now: int, attempts: seq<Op>): seq<Op> {
    [Look(g, now)] + attempts
  }

  lemma AttemptedTogether(ops: seq<Op>, g: nat, now: int, attempts: seq<Op>, matches: seq<nat>)
    requires AttemptsOf(attempts, matches, now)
    ensures forall w :: Attempted(ops + Visit(g, now, attempts), w) <==> Attempted(ops, w) || w in matches
  {
    var all := ops + Visit(g, now, attempts);
    forall w ensures Attempted(all, w) <==> Attempted(ops, w) || w in matches {
      if Attempted(ops, w) {
        var k :| 0 <= k < |ops| && ops[k].AutoBook? && ops[k].watch == w;
        assert all[k] == ops[k];
      }
      if w in matches {
        var k :| 0 <= k < |matches| && matches[k] == w;
        assert all[|ops| + 1 + k] == attempts[k];
      }
    }
  }

  lemma AttemptsDistinct(ops: seq<Op>, g: nat, now: int, attempts: seq<Op>, matches: seq<nat>)
    requires AttemptedOnce(ops) && AttemptsOf(attempts, matches, now) && Distinct(matches)
    requires forall w :: w in matches ==> !Attempted(ops, w)
    ensures AttemptedOnce(ops + Visit(g, now, attempts))
  {
    var all := ops + Visit(g, now, attempts);
    forall i, j | 0 <= i < j < |all| && all[i].AutoBook? && all[j].AutoBook? ensures all[i].watch != all[j].watch {
      if i < |ops| <= j {
        assert Attempted(ops, all[i].watch) && matches[j - |ops| - 1] in matches;
      }
    }
  }

  lemma LooksTogether(ops: seq<Op>, visited: set<nat>, g: nat, now: int, attempts: seq<Op>, matches: seq<nat>)
    requires LookedOnceAt(ops, visited) && g !in visited && AttemptsOf(attempts, matches, now)
    ensures LookedOnceAt(ops + Visit(g, now, attempts), visited + {g})
  {
    var all := ops + Visit(g, now, attempts);
    forall h | h in visited + {g} ensures exists k: nat :: LooksAt(all, k, h) {
      if h == g {
        assert LooksAt(all, |ops|, h);
      } else {
        var k: nat :| LooksAt(ops, k, h);
        assert LooksAt(all, k, h);
      }
    }
  }

  lemma FollowTogether(s0: LabState, ops: seq<Op>, g: nat, now: int, attempts: seq<Op>, matches: seq<nat>)
    requires AttemptsFollowLooks(s0, ops) && AttemptsOf(attempts, matches, now)
    requires forall w :: w in matches ==> w in s0.watches && s0.watches[w].gpu == g
    ensures AttemptsFollowLooks(s0, ops + Visit(g, now, attempts))
  {
    var all := ops + Visit(g, now, attempts);
    forall i | 0 <= i < |all| && all[i].AutoBook?
      ensures all[i].watch in s0.watches && exists k: nat :: Follows(all, k, i, s0.watches[all[i].watch].gpu)
    {
      if i < |ops| {
        assert all[i] == ops[i];
        var k: nat :| Follows(ops, k, i, s0.watches[ops[i].watch].gpu);
        assert Follows(all, k, i, s0.watches[ops[i].watch].gpu);
      } else {
        assert matches[i - |ops| - 1] in matches;
        assert Follows(all, |ops|, i, g);
      }
    }
  }

  /** A visit to one more GPU. */
  lemma PassVisits(
      s0: LabState, ops: seq<Op>, s: LabState, visited: set<nat>, g: nat, now: int,
      matches: seq<nat>, orders: map<nat, seq<nat>>, attempts: seq<Op>, after: LabState)
    requires PassOver(s0, ops, s, visited) && g !in visited && g < |s.gpus| && s.clock <= now
    requires Distinct(matches) && AttemptsOf(attempts, matches, now)
    requires PassSoFar(s0, ops + Visit(g, now, attempts), after)
    requires forall w :: w in matches ==> w in s.watches && Pending(s.watches[w], g, now)
    requires forall w :: w in s.watches && Pending(s.watches[w], g, now) ==>
      && w in orders && Answers(s, w, now, orders[w]) && (w in matches <==> Matches(s, w, now, orders[w]))
    requires after.servers == s.servers && after.gpus == s.gpus && after.watches.Keys == s.watches.Keys
    requires forall v :: v in s.watches ==> after.watches[v].gpu == s.watches[v].gpu
    requires forall v :: v in s.watches && v !in matches ==> after.watches[v] == s.watches[v]
    ensures PassOver(s0, ops + Visit(g, now, attempts), after, visited + {g})
  {
    hide Shape, LegalRun, Run, Apply, Legal, LooksAndBooks, Matches, Answers, Attempted, AttemptedOnce, LookedOnceAt,
         AttemptsFollowLooks, AttemptsOf;
    var all := ops + Visit(g, now, attempts);
    AttemptedTogether(ops, g, now, attempts, matches);
    AttemptsDistinct(ops, g, now, attempts, matches);
    LooksTogether(ops, visited, g, now, attempts, matches);
    FollowTogether(s0, ops, g, now, attempts, matches);
    forall w | w in s0.watches && IsPending(s0.watches[w]) && s0.watches[w].gpu in visited + {g}
      ensures Considered(s0, all, w)
    {
      if s0.watches[w].gpu in visited {
        var before, t, order :|
          LookAfter(before, s0.watches[w].gpu, t, ops) && DecidedAfter(s0, before, w, t, order, Attempted(ops, w));
        assert LookAfter(before, s0.watches[w].gpu, t, all);
      } else {
        assert LookAfter(ops, g, now, all) && !Attempted(ops, w);
        var order := if w in orders then orders[w] else [];
        assert DecidedAfter(s0, ops, w, now, order, Attempted(all, w));
      }
    }
  }

  /** One GPU of the loop: find its matches and attempt them. */
  method VisitGpu(lab: Lab, g: nat, ghost s0: LabState, ghost ops0: seq<Op>, ghost visited: set<nat>)
    returns (booked: nat, ghost ops: seq<Op>)
    requires PassOver(s0, ops0, lab.State(), visited) && g !in visited && g < |lab.gpus|
    modifies lab
    ensures PassOver(s0, ops, lab.State(), visited + {g})
    ensures |lab.reservations| == |old(lab.reservations)| + booked
  {
    hide LegalRun, Run, Apply, Legal, LooksAndBooks, Matches, Answers, Attempted, Considered, AttemptedOnce;
    ghost var s := lab.State();
    var now := lab.UtcNow(lab.clock);
    var matches;
    ghost var orders, attempts;
    matches, orders := lab.FindMatchingWatches(g, now);
    lab.Settle(now);
    LookTicks(s, g, now);
    PassExtend(s0, ops0, s, Look(g, now));
    booked, attempts := BookMatches(lab, matches, now, s0, ops0 + [Look(g, now)]);
    ops := ops0 + Visit(g, now, attempts);
    assert ops0 + [Look(g, now)] + attempts == ops;
    PassVisits(s0, ops0, s, visited, g, now, matches, orders, attempts, lab.State());
  }

  /** `list_gpus` on one server. */
  ghost function ListedGpus(gpus: seq<Gpu>, server: nat): set<nat> {
    set g | 0 <= g < |gpus| && gpus[g].server == server && gpus[g].deletedAt.None? && gpus[g].isActive
  }

  /** One server of the loop. */
  method VisitServer(lab: Lab, server: nat, ghost s0: LabState, ghost ops0: seq<Op>, ghost visited: set<nat>)
    returns (booked: nat, ghost ops: seq<Op>)
    requires PassOver(s0, ops0, lab.State(), visited) && visited !! ListedGpus(s0.gpus, server)
    modifies lab
    ensures PassOver(s0, ops, lab.State(), visited + ListedGpus(s0.gpus, server))
    ensures |lab.reservations| == |old(lab.reservations)| + booked
  {
    hide PassSoFar, Attempted, Considered, AttemptedOnce;
    booked := 0;
    ops := ops0;
    var gpuIds := lab.SelectGpus((g: Gpu) => g.server == server && g.deletedAt.None? && g.isActive);
    assert Enumerates(gpuIds, ListedGpus(s0.gpus, server));
    ghost var done: set<nat> := {};
    assert visited + done == visited;
    for j := 0 to |gpuIds|
      invariant PassOver(s0, ops, lab.State(), visited + done)
      invariant done == IdSet(gpuIds[..j])
      invariant |lab.reservations| == |old(lab.reservations)| + booked
    {
      assert gpuIds[..j + 1] == gpuIds[..j] + [gpuIds[j]];
      assert gpuIds[j] in gpuIds && gpuIds[j] !in gpuIds[..j];
      var count;
      count, ops := VisitGpu(lab, gpuIds[j], s0, ops, visited + done);
      booked := booked + count;
      assert visited + done + {gpuIds[j]} == visited + (done + {gpuIds[j]});
      done := done + {gpuIds[j]};
    }
    assert gpuIds[..|gpuIds|] == gpuIds;
    assert done == ListedGpus(s0.gpus, server);
  }

  /** The GPUs of the servers visited so far. */
  ghost function ListedOn(gpus: seq<Gpu>, servers: seq<nat>): set<nat> {
    set g | 0 <= g < |gpus| && gpus[g].server in servers && gpus[g].deletedAt.None? && gpus[g].isActive
  }

  /** Every watch pending at the start on a GPU that is on is considered; no other is attempted, and none twice. */
  ghost predicate EveryWatchConsidered(s0: LabState, ops: seq<Op>)
    requires Shape(s0)
  {
    && (forall w :: w in s0.watches && s0.watches[w].isActive && s0.watches[w].notifiedAt.None? && Effective(s0, s0.watches[w].gpu) ==>
         Considered(s0, ops, w))
    && (forall w :: Attempted(ops, w) ==>
         w in s0.watches && s0.watches[w].isActive && s0.watches[w].notifiedAt.None? && Effective(s0, s0.watches[w].gpu))
    && AttemptedOnce(ops)
    && LookedOnceAt(ops, set g | 0 <= g < |s0.gpus| && Effective(s0, g)) && AttemptsFollowLooks(s0, ops)
  }

  lemma {:induction false} ClockReached(s0: LabState, ops: seq<Op>, k: nat)
    requires Shape(s0) && LegalRun(s0, ops) && k < |ops|
    ensures ops[k].now <= Run(s0, ops).clock
  {
    hide Legal, Apply, Shape;
    var front := ops[..|ops| - 1];
    if k < |front| {
      ClockReached(s0, front, k);
    } else {
      ReadingKept(Run(s0, front), ops[k]);
    }
  }

  lemma ReadingKept(s: LabState, op: Op)
    requires Shape(s) && Legal(s, op)
    ensures op.now <= Apply(s, op).clock
  {
  }

  /**
    So a pass leaves no such watch behind whose range reaches past the clock at its end: each was swept
    against a full answer to its own overlap query and attempted if and only if it matched.
  */
  lemma NoneMissed(s0: LabState, ops: seq<Op>, w: nat) returns (before: seq<Op>, now: int, order: seq<nat>)
    requires Shape(s0) && LegalRun(s0, ops) && EveryWatchConsidered(s0, ops)
    requires w in s0.watches && s0.watches[w].isActive && s0.watches[w].notifiedAt.None? && Effective(s0, s0.watches[w].gpu)
    requires s0.watches[w].rangeEnd > Run(s0, ops).clock
    ensures LookAfter(before, s0.watches[w].gpu, now, ops) && LegalRun(s0, before)
    ensures var s := Run(s0, before);
            && w in s.watches && s.watches[w].gpu < |s.gpus| && s.watches[w] == s0.watches[w]
            && Answers(s, w, now, order) && (Attempted(ops, w) <==> Matches(s, w, now, order))
  {
    hide Shape, LegalRun, Run, Matches, Answers, Attempted, Effective;
    before, now, order :|
      LookAfter(before, s0.watches[w].gpu, now, ops) && DecidedAfter(s0, before, w, now, order, Attempted(ops, w));
    assert ops[|before|] == Look(s0.watches[w].gpu, now);
    ClockReached(s0, ops, |before|);
  }

  lemma PassStarts(s0: LabState)
    requires Shape(s0)
    ensures PassOver(s0, [], s0, {})
  {
    hide Shape;
  }

  lemma PassEnds(s0: LabState, ops: seq<Op>, s: LabState, serverIds: seq<nat>)
    requires Inv(s0) && Enumerates(serverIds, set i | 0 <= i < |s0.servers| && s0.servers[i].deletedAt.None? && s0.servers[i].isActive)
    requires PassOver(s0, ops, s, ListedOn(s0.gpus, serverIds))
    ensures PassSoFar(s0, ops, s) && EveryWatchConsidered(s0, ops)
  {
    hide PassSoFar, Attempted, Considered, AttemptedOnce, RowsOk, NamesUnique, WatchTableOk;
    forall g: nat ensures g in ListedOn(s0.gpus, serverIds) <==> Effective(s0, g) {
    }
  }

  /**
    `run_watch_autobook_check`: one pass over the active servers and their active GPUs. The returned
    count is the number of new reservations and of newly matched watches, which correspond one to
    one, each reservation serving its watch; all other watches and rows are untouched. The pass is a
    run of auto-book operations of the model. Every watch pending at the start on a GPU that is on is
    considered at that GPU's one look, and attempted after it if and only if it matches then; no other
    watch is attempted, and none twice.
  */
  method RunWatchAutobookCheck(lab: Lab) returns (booked: nat, ghost ops: seq<Op>, ghost served: seq<nat>)
    requires Inv(lab.State())
    modifies lab
    ensures LegalRun(old(lab.State()), ops) && LooksAndBooks(ops) && lab.State() == Run(old(lab.State()), ops)
    ensures booked == |served| && Conserved(old(lab.State()), lab.State(), served)
    ensures Inv(lab.State()) && (WithinCapacity(old(lab.State())) ==> WithinCapacity(lab.State()))
    ensures EveryWatchConsidered(old(lab.State()), ops)
  {
    ghost var s0 := lab.State();
    booked := 0;
    ops := [];
    PassStarts(s0);
    hide Apply, Legal, LegalRun, Run, LooksAndBooks, WithinCapacity, FleetOk, RowsOk, NamesUnique, WatchTableOk,
         PassOver, EveryWatchConsidered;
    var serverIds := lab.SelectServers((s: Server) => s.deletedAt.None? && s.isActive);
    assert ListedOn(s0.gpus, serverIds[..0]) == {};
    for i := 0 to |serverIds|
      invariant PassOver(s0, ops, lab.State(), ListedOn(s0.gpus, serverIds[..i]))
      invariant |lab.reservations| == |s0.reservations| + booked
    {
      assert serverIds[..i + 1] == serverIds[..i] + [serverIds[i]] && serverIds[i] !in serverIds[..i];
      var count;
      count, ops := VisitServer(lab, serverIds[i], s0, ops, ListedOn(s0.gpus, serverIds[..i]));
      booked := booked + count;
      assert ListedOn(s0.gpus, serverIds[..i]) + ListedGpus(s0.gpus, serverIds[i]) == ListedOn(s0.gpus, serverIds[..i + 1]);
    }
    assert serverIds[..|serverIds|] == serverIds;
    PassEnds(s0, ops, lab.State(), serverIds);
    served := PassConserves(s0, ops, lab.State());
  }
}
