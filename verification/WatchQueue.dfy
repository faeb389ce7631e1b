/**
  The watch queue over instants and over runs: active watches of a user share no instant, a cancelled
  or matched watch is out of the queue for good, and matching means the RAM is free throughout.
*/
module WatchQueue {
  import opened Wrappers
  import opened Measures
  import opened Sweep
  import opened SweepProperties
  import opened LabModel
  import opened Invariants
  import opened Capacity
  import opened Effects
  import opened WatchProperties

  /** In every reachable state, no instant lies in two active watches of one user. */
  lemma NoSharedInstant(s: LabState, ops: seq<Op>, v: nat, w: nat, t: int)
    requires Empty(s) && LegalRun(s, ops)
    requires v in Run(s, ops).watches && w in Run(s, ops).watches && v != w
    requires var watches := Run(s, ops).watches;
             && watches[v].isActive && watches[w].isActive && watches[v].user == watches[w].user
             && watches[v].rangeStart <= t < watches[v].rangeEnd
    ensures !(Run(s, ops).watches[w].rangeStart <= t < Run(s, ops).watches[w].rangeEnd)
  {
    hide LegalRun, Run, RowsOk, FleetOk, NamesUnique;
    ReachableInv(s, ops);
  }

  // ---------------------------------------------------------------- out of the queue

  /** A watch that is not active stays as it is until it is removed, is never attempted, and never comes back once removed. */
  lemma {:induction false} OutForGood(s: LabState, ops: seq<Op>, w: nat)
    requires Inv(s) && LegalRun(s, ops) && w < s.nextWatch && (w in s.watches ==> !s.watches[w].isActive)
    ensures w < Run(s, ops).nextWatch
    ensures w in Run(s, ops).watches ==> w in s.watches && Run(s, ops).watches[w] == s.watches[w]
    ensures forall k :: 0 <= k < |ops| && ops[k].AutoBook? ==> ops[k].watch != w
  {
    hide Apply, FleetOk, RowsOk, NamesUnique, WatchTableOk;
    if ops != [] {
      var front, op := ops[..|ops| - 1], ops[|ops| - 1];
      OutForGood(s, front, w);
      RunInv(s, front);
      StepOut(Run(s, front), op, w);
    }
  }

  lemma StepOut(s: LabState, op: Op, w: nat)
    requires Inv(s) && Legal(s, op) && w < s.nextWatch && (w in s.watches ==> !s.watches[w].isActive)
    ensures w < Apply(s, op).nextWatch
    ensures w in Apply(s, op).watches ==> w in s.watches && Apply(s, op).watches[w] == s.watches[w]
    ensures op.AutoBook? ==> op.watch != w
  {
    hide Apply, FleetOk, RowsOk, NamesUnique, WatchTableOk;
    StepWatch(s, op, w);
  }

  /** An active watch is still there, and the same, after any number of cleanups; a cleanup removes exactly the stale ones. */
  lemma CleanupExactly(s: LabState, cutoff: int, now: int, w: nat)
    requires Inv(s) && s.clock <= now
    ensures var after := Apply(s, Cleanup(cutoff, now)).watches;
            && (w in after <==> w in s.watches && (s.watches[w].isActive || cutoff <= s.watches[w].createdAt))
            && (w in after ==> after[w] == s.watches[w])
  {
    hide Apply, FleetOk, RowsOk, NamesUnique, WatchTableOk;
    var op := Cleanup(cutoff, now);
    assert Legal(s, op);
    StepWatch(s, op, w);
  }

  // ---------------------------------------------------------------- matching

  /** At every instant from the later of its range's start and now to its range's end, the watch's RAM is free. */
  ghost predicate FreeThroughout(s: LabState, w: nat, now: int)
    requires w in s.watches && s.watches[w].gpu < |s.gpus|
  {
    forall t :: Max(s.watches[w].rangeStart, now) <= t < s.watches[w].rangeEnd ==>
      Total(ActiveAt(s.watches[w].gpu, t), s.reservations) + s.watches[w].minRam <= s.gpus[s.watches[w].gpu].totalRam
  }

  /** The window that the matching sweeps, as a request of the watch's RAM. */
  ghost function WatchedWindow(s: LabState, w: nat, now: int): Booking
    requires w in s.watches
  {
    var watch := s.watches[w];
    Booking(watch.user, watch.gpu, Max(watch.rangeStart, now), watch.rangeEnd, watch.minRam, watch.description)
  }

  /**
    A watch matches only if it is active, not matched before, not over, and its RAM is free throughout; if
    its query answers ends-first, exactly then.
  */
  lemma MatchMeansFree(s: LabState, w: nat, now: int, order: seq<nat>)
    requires Inv(s) && w in s.watches && s.watches[w].gpu < |s.gpus| && Answers(s, w, now, order)
    ensures Matches(s, w, now, order) ==>
      s.watches[w].isActive && s.watches[w].notifiedAt.None? && now < s.watches[w].rangeEnd && FreeThroughout(s, w, now)
    ensures EndsFirst(ClaimsOf(s.reservations, order)) ==>
      (Matches(s, w, now, order) <==>
       s.watches[w].isActive && s.watches[w].notifiedAt.None? && now < s.watches[w].rangeEnd && FreeThroughout(s, w, now))
  {
    hide Peak, FleetOk, NamesUnique;
    assert WatchOk(s.gpus, s.regulation, s.watches[w]);
    var b := WatchedWindow(s, w, now);
    if now < s.watches[w].rangeEnd {
      if EndsFirst(ClaimsOf(s.reservations, order)) {
        CapacityTestMeansFits(s, b, order);
      }
      if Matches(s, w, now, order) {
        forall t | b.start <= t < b.end ensures Total(ActiveAt(b.gpu, t), s.reservations) + b.ram <= s.gpus[b.gpu].totalRam {
          ClaimsMeasureUsage(s.reservations, order, b.gpu, b.start, b.end, t);
          SweepCoversUsage(ClaimsOf(s.reservations, order), b.start, b.end, t);
        }
      }
    }
  }
}
