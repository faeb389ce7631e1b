/**
  What every operation does to every stored server, GPU and watch, field by field, and what follows
  over runs: a GPU last switched off stays off, with its suspended reservations where they were.
*/
module Effects {
  import opened Wrappers
  import opened Entities
  import opened LabModel
  import opened Invariants
  import opened Lifecycle

  // ---------------------------------------------------------------- servers

  ghost function ServerAfter(op: Op, i: nat, r: Server): Server {
    match op
    case SetServerActive(server, on, _) => if i == server && r.deletedAt.None? then r.(isActive := on) else r
    case DeleteServer(server, now) =>
      if i == server && r.deletedAt.None? then r.(isActive := false, deletedAt := Some(now)) else r
    case CreateServer(name, _) =>
      if r.name == name && r.deletedAt.Some? then r.(isActive := true, deletedAt := None) else r
    case _ => r
  }

  /** The operation adds a server: none of the name was ever there. */
  ghost predicate AddsServer(s: LabState, op: Op) {
    op.CreateServer? && forall i :: 0 <= i < |s.servers| ==> s.servers[i].name != op.name
  }

  ghost predicate ServersStepped(s: LabState, op: Op, after: LabState) {
    && |after.servers| == |s.servers| + (if AddsServer(s, op) then 1 else 0)
    && (forall i :: 0 <= i < |s.servers| ==> after.servers[i] == ServerAfter(op, i, s.servers[i]))
    && (AddsServer(s, op) ==> after.servers[|s.servers|] == Server(op.name, true, None))
  }

  lemma StepServerAdded(s: LabState, op: Op)
    requires Inv(s) && Legal(s, op) && op.CreateServer?
    ensures ServersStepped(s, op, ApplyCreateServer(s, op.name))
  {
    hide FleetOk, RowsOk, WatchTableOk, Legal;
  }

  lemma StepServerSwitched(s: LabState, op: Op)
    requires Inv(s) && Legal(s, op) && (op.SetServerActive? || op.DeleteServer?)
    ensures ServersStepped(s, op, Apply(s, op))
  {
    hide FleetOk, RowsOk, NamesUnique, WatchTableOk, RewriteAll;
  }

  lemma StepServerElsewhere(s: LabState, op: Op)
    requires Inv(s) && Legal(s, op) && !op.CreateServer? && !op.SetServerActive? && !op.DeleteServer?
    ensures ServersStepped(s, op, Apply(s, op))
  {
    hide FleetOk, RowsOk, NamesUnique, WatchTableOk, RewriteAll, CheckBooking, CheckWatch;
  }

  /** Every server is switched, deleted, revived or left alone exactly as the operation says, and at most one is added. */
  lemma StepServer(s: LabState, op: Op)
    requires Inv(s) && Legal(s, op)
    ensures ServersStepped(s, op, Apply(s, op))
  {
    if op.CreateServer? {
      StepServerAdded(s, op);
      hide ApplyCreateServer, Inv, ServerAfter, AddsServer;
    } else {
      hide Apply, Inv, Legal, ServersStepped;
      if op.SetServerActive? || op.DeleteServer? {
        StepServerSwitched(s, op);
      } else {
        StepServerElsewhere(s, op);
      }
    }
  }

  // ---------------------------------------------------------------- GPUs

  ghost function GpuAfter(s: LabState, op: Op, g: nat, r: Gpu): Gpu {
    match op
    case SetGpuActive(h, on, _) => if g == h && r.deletedAt.None? then r.(isActive := on) else r
    case DeleteGpu(h, now) =>
      if g == h && r.deletedAt.None? then r.(isActive := false, deletedAt := Some(now)) else r
    case DeleteServer(server, now) =>
      if ServerThere(s, server) && r.server == server && r.deletedAt.None?
      then r.(isActive := false, deletedAt := Some(now)) else r
    case AddGpu(server, index, model, totalRam, _) =>
      if ServerThere(s, server) && r.server == server && r.index == index && r.deletedAt.Some?
      then Gpu(server, index, model, totalRam, true, None) else r
    case _ => r
  }

  /** The operation adds a GPU: its server is there, and no GPU ever was at that index of it. */
  ghost predicate AddsGpu(s: LabState, op: Op) {
    && op.AddGpu? && ServerThere(s, op.server)
    && forall g :: 0 <= g < |s.gpus| ==> s.gpus[g].server != op.server || s.gpus[g].index != op.index
  }

  ghost predicate GpusStepped(s: LabState, op: Op, after: LabState) {
    && |after.gpus| == |s.gpus| + (if AddsGpu(s, op) then 1 else 0)
    && (forall g :: 0 <= g < |s.gpus| ==> after.gpus[g] == GpuAfter(s, op, g, s.gpus[g]))
    && (AddsGpu(s, op) ==> after.gpus[|s.gpus|] == Gpu(op.server, op.index, op.model, op.totalRam, true, None))
  }

  lemma StepGpuAdded(s: LabState, op: Op)
    requires Inv(s) && Legal(s, op) && op.AddGpu?
    ensures GpusStepped(s, op, ApplyAddGpu(s, op.server, op.index, op.model, op.totalRam))
  {
    hide FleetOk, RowsOk, WatchTableOk, Legal;
  }

  lemma StepGpuSwitched(s: LabState, op: Op)
    requires Inv(s) && Legal(s, op) && (op.SetGpuActive? || op.SetServerActive?)
    ensures GpusStepped(s, op, Apply(s, op))
  {
    hide FleetOk, RowsOk, NamesUnique, WatchTableOk, RewriteAll;
  }

  lemma StepGpuDeleted(s: LabState, op: Op)
    requires Inv(s) && Legal(s, op) && (op.DeleteGpu? || op.DeleteServer?)
    ensures GpusStepped(s, op, Apply(s, op))
  {
    hide FleetOk, RowsOk, NamesUnique, WatchTableOk, RewriteAll;
  }

  lemma StepGpuElsewhere(s: LabState, op: Op)
    requires Inv(s) && Legal(s, op) && (!ChangesFleet(op) || op.CreateServer?)
    ensures GpusStepped(s, op, Apply(s, op))
  {
    hide FleetOk, RowsOk, NamesUnique, WatchTableOk, RewriteAll, CheckBooking, CheckWatch;
  }

  /** The same for GPUs; in particular a switch sets the GPU's own flag whatever its server's is. */
  lemma StepGpu(s: LabState, op: Op)
    requires Inv(s) && Legal(s, op)
    ensures GpusStepped(s, op, Apply(s, op))
  {
    if op.AddGpu? {
      StepGpuAdded(s, op);
      hide ApplyAddGpu, Inv, GpuAfter, AddsGpu;
    } else {
      hide Apply, Inv, Legal, GpusStepped;
      if op.SetGpuActive? || op.SetServerActive? {
        StepGpuSwitched(s, op);
      } else if op.DeleteGpu? || op.DeleteServer? {
        StepGpuDeleted(s, op);
      } else {
        StepGpuElsewhere(s, op);
      }
    }
  }

  // ---------------------------------------------------------------- watches

  ghost function WatchAfter(s: LabState, op: Op, w: nat, r: Watch): Option<Watch>
    requires Shape(s) && Legal(s, op)
  {
    match op
    case DeleteGpu(g, _) => if GpuThere(s, g) && r.gpu == g then None else Some(r)
    case DeleteServer(server, _) =>
      if ServerThere(s, server) && GpuThere(s, r.gpu) && s.gpus[r.gpu].server == server then None else Some(r)
    case Cleanup(cutoff, _) => if !r.isActive && r.createdAt < cutoff then None else Some(r)
    case CancelWatch(v, _) => Some(if v == w then r.(isActive := false) else r)
    case AutoBook(v, _, _, marked) =>
      Some(if v == w && Booked(s, op).Some? then r.(isActive := false, notifiedAt := Some(marked)) else r)
    case _ => Some(r)
  }

  /** The watch that the operation adds, if it adds one. */
  ghost function AddedWatch(s: LabState, op: Op): Option<Watch> {
    if op.CreateWatch? && CheckWatch(s, op.request).Pass? then
      var q := op.request;
      Some(Watch(q.user, q.gpu, q.rangeStart, q.rangeEnd, q.minRam, q.description, q.autoBook, true, op.now, None))
    else None
  }

  ghost predicate WatchStepped(s: LabState, op: Op, w: nat, after: LabState)
    requires Shape(s) && Legal(s, op)
  {
    && after.nextWatch == s.nextWatch + (if AddedWatch(s, op).Some? then 1 else 0)
    && if w in s.watches then
         && (w in after.watches <==> WatchAfter(s, op, w, s.watches[w]).Some?)
         && (w in after.watches ==> Some(after.watches[w]) == WatchAfter(s, op, w, s.watches[w]))
       else
         && (w in after.watches <==> w == s.nextWatch && AddedWatch(s, op).Some?)
         && (w in after.watches ==> Some(after.watches[w]) == AddedWatch(s, op))
  }

  lemma StepWatchBooked(s: LabState, op: Op, w: nat)
    requires Inv(s) && Legal(s, op) && op.AutoBook?
    ensures WatchStepped(s, op, w, Apply(s, op))
  {
    hide FleetOk, RowsOk, NamesUnique, WatchTableOk, CheckBooking, WindowOf;
  }

  lemma StepWatchDropped(s: LabState, op: Op, w: nat)
    requires Inv(s) && Legal(s, op) && (op.DeleteGpu? || op.DeleteServer?)
    ensures WatchStepped(s, op, w, Apply(s, op))
  {
    hide FleetOk, RowsOk, NamesUnique, WatchTableOk, RewriteAll;
  }

  lemma StepWatchElsewhere(s: LabState, op: Op, w: nat)
    requires Inv(s) && Legal(s, op) && !op.AutoBook? && !op.DeleteGpu? && !op.DeleteServer?
    ensures WatchStepped(s, op, w, Apply(s, op))
  {
    hide FleetOk, RowsOk, NamesUnique, WatchTableOk, RewriteAll, CheckBooking, CheckWatch;
  }

  /** Every watch is cancelled, matched, removed or left alone exactly as the operation says, and at most one is added. */
  lemma StepWatch(s: LabState, op: Op, w: nat)
    requires Inv(s) && Legal(s, op)
    ensures WatchStepped(s, op, w, Apply(s, op))
  {
    hide Apply, FleetOk, RowsOk, NamesUnique, WatchTableOk, WatchStepped;
    if op.AutoBook? {
      StepWatchBooked(s, op, w);
    } else if op.DeleteGpu? || op.DeleteServer? {
      StepWatchDropped(s, op, w);
    } else {
      StepWatchElsewhere(s, op, w);
    }
  }

  // ---------------------------------------------------------------- a GPU last switched off

  /** The operation can put GPU g's own flag on: its own switch, or its revival. */
  ghost predicate TurnsOn(s: LabState, op: Op, g: nat) {
    match op
    case SetGpuActive(h, on, _) => h == g && on
    case AddGpu(server, index, _, _, _) => g < |s.gpus| && s.gpus[g].server == server && s.gpus[g].index == index
    case _ => false
  }

  ghost predicate NeverTurnsOn(s: LabState, ops: seq<Op>, g: nat)
    requires Shape(s) && LegalRun(s, ops)
  {
    ops == []
    || (NeverTurnsOn(s, ops[..|ops| - 1], g) && !TurnsOn(Run(s, ops[..|ops| - 1]), ops[|ops| - 1], g))
  }

  /** Nothing else turns it on, and while it is off nothing reactivates it, its server's switch included. */
  lemma {:induction false} StaysOff(s: LabState, ops: seq<Op>, g: nat)
    requires Inv(s) && LegalRun(s, ops) && g < |s.gpus| && !s.gpus[g].isActive && NeverTurnsOn(s, ops, g)
    ensures g < |Run(s, ops).gpus| && !Run(s, ops).gpus[g].isActive
    ensures NeverReactivatesGpu(s, ops, g)
  {
    hide Apply, Legal, FleetOk, RowsOk, NamesUnique, WatchTableOk;
    if ops != [] {
      var front := ops[..|ops| - 1];
      StaysOff(s, front, g);
      RunInv(s, front);
      StepGpu(Run(s, front), ops[|ops| - 1]);
    }
  }

  /**
    After a kept GPU's own switch is turned off, whatever its server's is, its flag is off in every state
    until it is turned on or revived, and none of its suspended reservations is restarted until then: each
    is still SUSPENDED where it was booked, or cancelled.
  */
  lemma SwitchedOffStaysOff(s: LabState, g: nat, now: int, ops: seq<Op>, i: nat)
    requires Inv(s) && Legal(s, SetGpuActive(g, false, now)) && GpuThere(s, g)
    requires var off := Apply(s, SetGpuActive(g, false, now));
             && LegalRun(off, ops) && NeverTurnsOn(off, ops, g)
             && i < |off.reservations| && off.reservations[i].gpu == g && off.reservations[i].status == SUSPENDED
    ensures var off := Apply(s, SetGpuActive(g, false, now));
            && g < |Run(off, ops).gpus| && !Run(off, ops).gpus[g].isActive
            && i < |Run(off, ops).reservations| && Paused(off.reservations[i], Run(off, ops).reservations[i])
  {
    hide Apply, Legal, FleetOk, RowsOk, NamesUnique, WatchTableOk, LegalRun, Run, NeverTurnsOn, NeverReactivatesGpu;
    var op := SetGpuActive(g, false, now);
    StepInv(s, op);
    StepGpu(s, op);
    StaysOff(Apply(s, op), ops, g);
    PausedStays(Apply(s, op), ops, i);
  }
}
