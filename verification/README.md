# A verified model of the shared-GPU reservation engine

The repository books RAM on shared GPUs. A reservation holds an amount of RAM on one GPU over a half-open
interval; a sweep over start and end events decides whether a new one fits; servers and GPUs are switched off
and on, deleted and revived, which suspends, restarts or cancels what is booked on them; and a queue of
watches is booked automatically when capacity frees up. A second sweep draws the occupancy chart, and the
usage reports add up RAM-hours. This project models those parts in Dafny and proves what they guarantee, and
exactly when, over every input and every run.

## How the model is laid out

- `Sweep`, `SweepProperties`, `SweepOrder`, `SweepReorder`, `SlotViews`: the allocator and its slot view. The
  code sorts events stably by time only, so at a tie the order of the list decides what is counted first. Everything rests on one
  characterisation (`SplitBound`, `SplitAttained`): the sweep is the largest value, over every cut of the list
  into a front and a back and every instant, of the front as held at the instant plus the back as held one
  tick earlier. From it follow safety in any order, exactness for exactly the right orders, monotonicity in
  the window, and what happens when two queries answer in different orders.
- `Arithmetic`: products and remainders. `SlotTime`: slot alignment and rounding on ticks, the auto-book
  window, and the two slot enumerations (the backend's and the booking page's).
- `Entities`, `Measures`, `LabModel`: the stored rows, sums over them, and every service operation as a
  function on a lab state; a run is a sequence of operations with a clock that never goes back.
- `Admission`, `Lifecycle`, `Effects`: what each decision and each operation means, written out on the stored
  rows and not through the functions of `LabModel`.
- `Invariants`, `Capacity`, `Limits`, `GpuLimit`, `WatchProperties`, `WatchQueue`: what every operation and
  every run keeps. `Witnesses`: reachable concrete states in which a bound that one might expect does not hold.
- `LabService` (class `Lab`) and `Scheduler`: the services as they are, methods that update tables in place,
  each proved to do exactly what the function of `LabModel` says.
- `Chart`, `ChartHistory`, `Usage`: the chart's sweep and buckets, and the usage totals.

Time is an integer number of microseconds, the resolution of the stored instants, and durations in hours are
compared as ticks. A row's id is its index in its table. Queries without `ORDER BY` answer in an arbitrary
order: methods receive it from `Lab.Select...`, whose contracts leave it open, and the theorems are for every
order, or say which orders they need. Clock readings are parameters, or come from `Lab.UtcNow`, of which
nothing is known but that it does not go back.

## What the code promises and what it does

- The docstring of `slot_availability` (src/dml_core/services/reservation_service.py:108-114) says the
  smallest slot value is exactly the largest RAM a reservation of the whole range could request. A tie at a
  slot edge is counted by no slot but may be counted by the sweep of the range, so it can show too much
  (`EdgeTieWitness`, and `ViewShowsTooMuch` in a reachable lab). `ViewOfOneAnswer` and, for two queries,
  `ViewIsLargestRequest` say exactly for which orders it is right; in general it lies between the range view
  and the truth (`SlotViewSandwich`).
- `_peak_usage_breakdown` (src/dml_web/chart_data.py:61-62) says its snapshot can never exceed capacity. The
  same holds of it: a busiest real instant where ends come first inside the bucket (`SnapshotIsInstant`,
  `HistoricalChartWithinCapacity`), otherwise possibly more than was ever held (`BucketNeverOverCapacity`).
- `generate_slot_starts` and the auto-book window keep the sub-second part of their bound, while alignment
  ignores it (src/dml_core/utils/time_utils.py:18-51), so with a sub-second bound the listed starts are off
  the whole second and differ from the booking page's (`WholeSecondsListed`, `OptionsAgreeWithBackend`).
- `floor_to_slot` (src/dml_core/utils/time_utils.py:23-27) rounds up, as its own docstring says.
- The docstrings of `set_server_active` and `set_gpu_active` say that resumed reservations start an hour from
  now; the code takes the regulation's delay, an hour only by default
  (src/dml_core/services/reservation_service.py:18-24). That of `cancel_reservations` asks for ACTIVE rows;
  the code cancels SUSPENDED ones too (src/dml_core/services/reservation_service.py:222-239).
- Reactivation makes no capacity check, so it keeps the capacity exactly when the resumed RAM fits
  (`StepFits`, `ReactivationOverload`); the booking cap can be exceeded by reservations that lapsed while
  suspended (`ReactivationCount`, `LapsedOverCap`); the concurrent-GPU limit is not checked for a GPU the
  user already holds somewhere in the window (`AcceptedConcurrency`, `TwoGpusAtOnce`), nor at a restart
  (`RestartConcurrency`, `RestartOnTwoGpus`); and a matched watch can be refused for capacity if its second
  query answers in a different order (`ReorderedSweep`, `MatchRefusedForCapacity`).
- The repository's README.md:320-327 describes a cancellation notice (`assert_cancellable`) that no service
  implements; it is not part of this model.

## Model

| member | source | states |
|---|---|---|
| Sweep.StableSortIsSorted | src/dml_core/services/reservation_service.py:88 | the insertion sort that stands for `list.sort` orders the events by time |
| Sweep.StableSortIsStable | src/dml_core/services/reservation_service.py:88 | events of one time keep their list order, whatever they are |
| Sweep.StableSortUnique | src/dml_core/services/reservation_service.py:88 | any list that is sorted by time and stable is this one, so the proofs hold of every stable sort |
| Sweep.PrefixIsSplit | src/dml_core/services/reservation_service.py:80-95 | every value the running total takes is a split of the claim list at an instant, the same split for every owner |
| Sweep.SplitBound | src/dml_core/services/reservation_service.py:80-95 | no split of the claim list exceeds the sweep |
| Sweep.SplitAttained | src/dml_core/services/reservation_service.py:80-95 | some split attains it: together, a sort-free definition of the sweep |
| Sweep.PeakConcurrentRam | src/dml_core/services/reservation_service.py:76-95 | the two loops compute the largest prefix sum of the stably sorted clipped events, and never a negative one |
| SweepProperties.SweepCoversUsage | src/dml_core/services/reservation_service.py:76-95 | in any list order the sweep is at least the RAM held at every instant |
| SweepProperties.SweepSandwich | src/dml_core/services/reservation_service.py:76-95 | in any order it lies between the pointwise usage and the RAM obtained by reading the clipped intervals as closed |
| SweepProperties.SweepExact | src/dml_core/services/reservation_service.py:76-95 | when no claim ends inside the window just where an earlier-listed one starts, the sweep is the usage of one real, busiest instant of the half-open window |
| SweepProperties.CapacityTestExact | src/dml_core/services/reservation_service.py:188-193 | on such a list the capacity test passes if and only if the request fits at every instant |
| SweepProperties.CapacityTestStartOrdered | src/dml_core/services/reservation_service.py:188-193 | in particular on a list ordered by start time |
| SweepProperties.OverCountWitness | src/dml_core/services/reservation_service.py:88 | two back-to-back claims listed later-first are counted together though never held together; listed earlier-first they are not |
| SweepOrder.ExactOrders | src/dml_core/services/reservation_service.py:76-95 | a list order is exact for every choice of positive RAM if and only if it lists no tie inside the window start-first |
| SweepOrder.TieOverCounts | src/dml_core/services/reservation_service.py:88 | any start-first tie inside the window is swept above the usage of every instant once its two claims are heavy enough |
| SweepOrder.CapacityOrders | src/dml_core/services/reservation_service.py:76-95 | these orders, and no others, never put the sweep above a capacity that every instant respects |
| SweepProperties.SweepMonotone | src/dml_core/services/reservation_service.py:76-95 | shrinking the window never raises the sweep of the same list, ties included |
| SweepProperties.OverlappingEvents | src/dml_web/chart_data.py:110 | dropping the claims that do not overlap the window changes none of its events |
| SweepReorder.TiesKeptSweep | src/dml_core/services/reservation_service.py:76-95 | a narrower window over fewer rows, in another order, sweeps no higher if every tie it lists start-first was start-first before |
| SweepReorder.TurnedTieSweep | src/dml_core/services/reservation_service.py:88 | one tie turned round makes it sweep higher for some positive RAM |
| SweepReorder.ReorderedSweep | src/dml_core/services/watch_service.py:150-187 | so the narrower query never sweeps higher, whatever the RAM, if and only if it turns no such tie round |
| LabService.Lab.MinFreeRamInRange | src/dml_core/services/reservation_service.py:98-102 | the total minus the sweep of exactly the overlapping ACTIVE rows, each once, in some order |
| LabService.Lab.SweepSlots | src/dml_core/services/reservation_service.py:118-125 | the loop produces one slot per step from the range start until the range is covered, each with the total minus its own sweep |
| LabService.Lab.SlotAvailability | src/dml_core/services/reservation_service.py:105-125 | all slots are swept from one query, the whole range's |
| SlotViews.SlotsTile | src/dml_core/services/reservation_service.py:119-124 | every instant of the range lies in exactly one slot |
| SlotViews.SlotWithinRange | src/dml_core/services/reservation_service.py:119-123 | a slot never sweeps above the range, even when it runs past the range's end |
| SlotViews.SlotViewSandwich | src/dml_core/services/reservation_service.py:105-125 | the smallest slot value lies between the range view and the total minus the true peak |
| SlotViews.SlotViewExact | src/dml_core/services/reservation_service.py:108-114 | it is exactly the range view of the same list when no claim ends, at a slot edge inside the range, where an earlier-listed one starts |
| SlotViews.ViewOfOneAnswer | src/dml_core/services/reservation_service.py:108-114 | for every choice of positive RAM and every total that condition is necessary and sufficient for the smallest slot value to be the largest amount free over the range |
| SlotViews.NeverTooMuch | src/dml_core/services/reservation_service.py:108-114 | with the booking making its own query, the slots never show more than it could request, whatever the RAM, if and only if every tie its answer lists start-first is off the slot edges and start-first in theirs |
| SlotViews.NeverTooLittle | src/dml_core/services/reservation_service.py:108-114 | and never less, if and only if every tie off the edges that the slots list start-first is start-first in the booking's answer |
| SlotViews.ViewIsLargestRequest | src/dml_core/services/reservation_service.py:108-114 | together: the smallest slot value is the largest RAM a booking of the whole range could request, whatever the RAM and the total, exactly under those two conditions |
| SlotViews.EdgeTieWitness | src/dml_core/services/reservation_service.py:108-114 | two back-to-back claims listed later-first, a slot each: both slots show at least 3, the range view at most -2 |
| Capacity.SlotViewAdmits | src/dml_core/services/reservation_service.py:108-114 | in any lab state, under those conditions on the two queries, a request for the whole range that passes every other check is booked if and only if every slot shows at least its RAM |
| Witnesses.ViewShowsTooMuch | src/dml_core/services/reservation_service.py:108-114 | a reachable lab whose hourly view shows half of a GPU free in both hours, while a request for that half over both is refused though it fits at every instant |
| LabService.Lab.CountActiveReservations | src/dml_core/services/reservation_service.py:128-137 | counts the user's live rows that end after now |
| LabService.Lab.CreateReservation | src/dml_core/services/reservation_service.py:140-219 | decides as the model's admission check does, error for error, appends exactly the new ACTIVE row when it passes and changes nothing otherwise |
| LabService.Lab.CancelReservation | src/dml_core/services/reservation_service.py:222-228 | cancels a live row, stamping the time; a cancelled one is refused and untouched |
| LabService.Lab.CancelReservations | src/dml_core/services/reservation_service.py:231-239 | cancels the listed rows at one time, counts them, and stops with an error at the first that is not live by then, keeping what it cancelled before |
| LabService.Lab.CancelSelected | src/dml_core/services/reservation_service.py:260-267 | selecting the live rows concerned and cancelling them rewrites exactly those rows; the count is theirs |
| LabService.Lab.CancelAllForUser | src/dml_web/routers/admin_reservations.py:81-87 | cancels the user's live rows that end after one clock reading, at a later one |
| LabService.Lab.CancelAllForUserOnServer | src/dml_core/services/reservation_service.py:270-287 | cancels exactly the user's live rows on the server's GPUs |
| LabService.Lab.CancelAllLabWide | src/dml_web/routers/admin_reservations.py:90-104 | cancels exactly the live rows that overlap the booking horizon |
| LabService.Lab.SuspendActiveReservations | src/dml_core/services/reservation_service.py:290-326 | suspends exactly the ACTIVE rows of the GPUs that end after now, and counts them |
| LabService.Lab.ResumeSuspendedReservations | src/dml_core/services/reservation_service.py:329-368 | restarts exactly the SUSPENDED rows of the GPUs at now plus the delay with their own lengths, and counts them |
| LabService.Lab.SetServerOn | src/dml_core/services/server_service.py:113-143 | switches the server and, on a change, suspends all its GPUs' rows or resumes those of its active GPUs |
| LabService.Lab.SetGpuOn | src/dml_core/services/server_service.py:175-208 | the same for a GPU, gated on its effective activity before and after |
| LabService.Lab.RetireGpu | src/dml_core/services/server_service.py:146-154 | cancels the GPU's live rows, drops its watches, switches it off and stamps it deleted, and touches nothing else |
| LabService.Lab.RetireGpus | src/dml_core/services/server_service.py:161-162 | retiring the GPUs one after the other retires exactly that set at once |
| LabService.Lab.RemoveServer | src/dml_core/services/server_service.py:157-166 | deletes the server with all its GPUs that were not deleted before |
| LabService.Lab.RemoveGpu | src/dml_core/services/server_service.py:211-214 | deletes the GPU; a missing or deleted one is refused |
| LabService.Lab.NewServer | src/dml_core/services/server_service.py:34-49 | refused if and only if an undeleted server has the name; revives the deleted one of that name, else adds one |
| LabService.Lab.NewGpu | src/dml_core/services/server_service.py:59-87 | refused if and only if the server is gone or an undeleted GPU has the index; revives the deleted one there with the new model and RAM, else adds one |
| LabService.Lab.NewWatchFor | src/dml_core/services/watch_service.py:38-80 | decides as the model's watch check does, error for error, and adds exactly the new watch when it passes |
| LabService.Lab.DropWatch | src/dml_core/services/watch_service.py:132-135 | deactivates exactly that watch |
| LabService.Lab.FindMatchingWatches | src/dml_core/services/watch_service.py:138-155 | returns, once each, exactly the pending unexpired watches of the GPU whose own overlap query leaves them enough RAM |
| LabService.Lab.AttemptAutoBook | src/dml_core/services/watch_service.py:158-187 | books if and only if the window is not empty and the admission check passes on it, adding exactly the watch's reservation; else changes nothing |
| LabService.Lab.MarkNotified | src/dml_core/services/watch_service.py:190-194 | stamps and deactivates exactly that watch |
| LabService.Lab.DeleteWatches | src/dml_web/scheduler.py:47-48 | removes exactly the listed watches |
| LabService.Lab.RunCleanup | src/dml_web/scheduler.py:40-50 | removes exactly the inactive watches created before the cutoff, and returns how many there were |
| Capacity.ClaimsMeasureUsage | src/dml_core/services/reservation_service.py:63-73 | in whatever order the query answered, its rows hold inside the window exactly the GPU's ACTIVE RAM |
| Capacity.BookingFits | src/dml_core/services/reservation_service.py:188-193 | in any query order, an accepted booking fits beside the ACTIVE RAM at every instant of its window |
| Admission.BookingDecision | src/dml_core/services/reservation_service.py:140-206 | a booking is accepted if and only if it meets all twelve requirements, written out on the stored rows and in microseconds, and is refused with exactly the error of the first one it does not meet |
| Admission.AdmittedExactly | src/dml_core/services/reservation_service.py:182-206 | when the query answers ends-first, a request that meets the other requirements is booked if and only if it fits at every instant |
| Admission.CountIsSize | src/dml_core/services/reservation_service.py:132-137 | what counts against the cap is the number of the user's ACTIVE and SUSPENDED rows that end after now |
| Admission.SharingIsHeld | src/dml_core/services/reservation_service.py:195-201 | the GPUs counted are those of the user's ACTIVE and SUSPENDED rows that share an instant with the window |
| Admission.WatchDecision | src/dml_core/services/watch_service.py:50-67 | the same for a watch and its seven requirements |
| Admission.OverlapIsInstant | src/dml_core/services/watch_service.py:26-35 | a watch request is in conflict with the user's active watches if and only if some instant lies in both ranges |
| Capacity.ResumedLoad | src/dml_core/services/reservation_service.py:329-337 | after a resumption the load is at most the resumed RAM from the restart on, and equals it at the restart |
| Capacity.ResumedFits | src/dml_core/services/reservation_service.py:329-368 | a resumption keeps the bound if and only if, GPU by GPU, the resumed RAM is at most the total |
| Capacity.StepFits | src/dml_core/services/server_service.py:113-214 | any one operation keeps every GPU within its RAM at every instant if and only if what it resumes fits; for the historical record, if and only if moreover no GPU is revived smaller than its record |
| Capacity.RunsFit | src/dml_core/services/reservation_service.py:188-368 | from an empty lab the bound holds after every operation of a run if and only if every reactivation in it fits where it happens |
| Capacity.NoReactivationFits | src/dml_core/services/reservation_service.py:188-239 | a run without reactivation never puts a GPU above its RAM at any instant |
| Capacity.HistoryFits | src/dml_web/chart_data.py:40-49 | a run without reactivation or GPU revival keeps all reservations ever made, cut off at cancellation, within the GPU's RAM at every past and future instant |
| Capacity.HistoryIsActive | src/dml_web/chart_data.py:40-49 | from the clock on, the record of a GPU that is on is what is ACTIVE on it |
| Invariants.StepFleet | src/dml_core/services/server_service.py:146-166 | deleted servers and GPUs are off, and a deleted server has only deleted GPUs, after every operation |
| Invariants.StepNames | src/dml_core/services/server_service.py:34-87 | no operation gives two servers one name or two GPUs of a server one index, revivals included |
| Invariants.StepWatches | src/dml_core/services/watch_service.py:26-80 | of a user's active watches one always ends before the other starts, and all stay within the limits and their GPU's RAM, after every operation |
| Invariants.StepInv | src/dml_core/services/server_service.py:113-214 | every operation keeps the whole invariant: rows in step with their GPUs, nothing live on deleted GPUs, cancellation times set exactly on cancelled rows |
| Invariants.ReachableInv | src/dml_core/services/server_service.py:113-214 | every state reachable from an empty lab satisfies it |
| Invariants.SuspensionMatchesActivity | src/dml_core/services/server_service.py:113-208 | in every reachable state a SUSPENDED row's GPU or server is off, and an ACTIVE row that ends after the clock has both on |
| Lifecycle.StepRow | src/dml_core/services/reservation_service.py:222-368 | what every operation makes of every stored row, written out: it cancels, suspends or restarts exactly the rows it should, stamps its own clock reading, restarts after the configured minutes or an hour, and changes nothing else |
| Lifecycle.StepNewRow | src/dml_core/services/reservation_service.py:208-219 | a booking adds one ACTIVE row with just what was booked, not in the past, and no other operation adds any |
| Lifecycle.CancelledWhen | src/dml_core/services/reservation_service.py:222-239 | a row cancelled in a run was cancelled by one of its operations that cancels it where it happens, and carries that operation's clock reading ever after |
| Lifecycle.StepKeepsPast | src/dml_web/chart_data.py:40-49 | an operation leaves the record of a GPU before its clock reading as it was, unless it reactivates that GPU |
| Lifecycle.PastKept | src/dml_web/chart_data.py:40-49 | so over any run that does not reactivate the GPU its past is settled, whatever is cancelled, suspended, deleted or booked |
| Effects.StepServer | src/dml_core/services/server_service.py:34-166 | every operation switches, deletes, revives or leaves each server exactly as it says, field by field, and adds at most the one it should |
| Effects.StepGpu | src/dml_core/services/server_service.py:59-214 | the same for GPUs; a switch sets the GPU's own flag whatever its server's is |
| Effects.SwitchedOffStaysOff | src/dml_core/services/server_service.py:175-208 | after a GPU's own switch is turned off it is off in every state until turned on or revived, and none of its suspended rows is restarted until then, its server's switches included |
| Effects.StepWatch | src/dml_core/services/watch_service.py:69-194 | every operation cancels, matches, removes or leaves each watch exactly as it says, field by field, and adds at most the one it should |
| Lifecycle.HistoryKept | src/dml_core/services/server_service.py:146-149 | in every run no reservation disappears or changes owner, GPU, RAM or length; CANCELLED is permanent, and a time is stored exactly on cancelled rows |
| Lifecycle.DeactivateThenReactivate | src/dml_core/services/reservation_service.py:18-24 | deactivate, do anything short of reactivating that GPU, reactivate: the row is back ACTIVE the configured minutes (an hour if none are stored) after the reactivation, with its length, unless cancelled in between |
| Lifecycle.PausedUntilReactivated | src/dml_core/services/reservation_service.py:329-368 | the same from any state in which the row is suspended |
| Limits.StepCount | src/dml_core/services/reservation_service.py:128-137 | one operation leaves a user's count at most the larger of its old value and the cap, plus what lapsed and is resumed |
| Limits.ReactivationCount | src/dml_core/services/reservation_service.py:329-337 | a reactivation raises the count by exactly the user's resumed rows whose booked end had passed |
| Limits.BookingCapPlusLapsed | src/dml_core/services/reservation_service.py:182-186 | in every run a user holds at most the cap plus the lapsed rows brought back |
| Limits.BookingCap | src/dml_core/services/reservation_service.py:182-186 | in a run without reactivation, at most the cap |
| GpuLimit.AcceptedConcurrency | src/dml_core/services/reservation_service.py:195-206 | an accepted booking keeps the user within the GPU limit at every instant if and only if the user's other GPUs number less than the limit throughout its window |
| GpuLimit.FreshGpuWithinLimit | src/dml_core/services/reservation_service.py:201-206 | so it does whenever the GPU is not among those held in the window |
| GpuLimit.WithinGpuLimitLeavesRoom | src/dml_core/services/reservation_service.py:195-206 | and whenever the GPUs held in the window, with its own, number at most the limit |
| GpuLimit.RestartConcurrency | src/dml_core/services/reservation_service.py:329-368 | a restart keeps all users within the limit if and only if, from its instant on, the GPUs held elsewhere and those whose suspended rows are long enough to reach that far number at most the limit |
| GpuLimit.StepConcurrency | src/dml_core/services/reservation_service.py:195-206 | any one operation keeps every user within the limit at every instant if and only if what it books has room throughout and what it restarts fits |
| GpuLimit.RunConcurrency | src/dml_core/services/reservation_service.py:195-206 | from an empty lab every user is within the limit after every operation of a run if and only if every booking and every restart in it met its condition where it happened |
| Witnesses.RestartOnTwoGpus | src/dml_core/services/reservation_service.py:329-337 | a reachable lab within a limit of one GPU in which turning the server on restarts a user on two |
| SlotTime.FloorToSlotRoundsUp | src/dml_core/utils/time_utils.py:18-27 | rounding up lands on the grid, never earlier and less than a slot later, and keeps the sub-second part |
| SlotTime.FloorToSlotLeast | src/dml_core/utils/time_utils.py:23-27 | on whole seconds it gives the first aligned instant not before its argument |
| SlotTime.AlignDownRoundsDown | src/dml_core/utils/time_utils.py:30-34 | rounding down lands on the grid, never later and less than a slot earlier |
| SlotTime.AlignDownGreatest | src/dml_core/utils/time_utils.py:30-34 | on whole seconds it gives the last aligned instant not after its argument |
| SlotTime.AutoBookWindowWellFormed | src/dml_core/services/watch_service.py:172-178 | a non-empty auto-book window passes the order, alignment, duration and not-in-the-past checks and lies in the watched range, for every input |
| SlotTime.AutoBookWindowComplete | src/dml_core/services/watch_service.py:172-178 | for every clock reading from the epoch on, if an aligned whole-second window fits then one is found; it starts less than a second later (no later on a whole-second bound) and, unless it starts earlier, ends no earlier |
| SlotTime.GenerateSlotStarts | src/dml_core/utils/time_utils.py:42-51 | the loop lists one instant per slot from the rounded bound until the range end |
| SlotTime.SlotStartsSoundAndComplete | src/dml_core/utils/time_utils.py:42-51 | these are, in order, exactly the aligned instants of the range not before the bound that share its sub-second part |
| SlotTime.WholeSecondsListed | src/dml_core/utils/time_utils.py:42-51 | when there is anything to list, they are exactly the aligned whole-second instants if and only if the bound is a whole second |
| SlotTime.SubSecondBoundWitness | src/dml_core/utils/time_utils.py:26-27 | for instance, from half a second past eight the half-hour list starts at that very instant |
| SlotTime.SlotOptionsForLocalDay | web/frontend/src/pages/ReservePage.tsx:88-99 | the page's loop offers, in order, exactly the grid instants of the day not before the bound |
| SlotTime.OptionsAgreeWithBackend | web/frontend/src/pages/ReservePage.tsx:80-87 | for the same day and bound, when either offers anything, page and backend list the same instants if and only if the bound is a whole second |
| WatchQueue.NoSharedInstant | src/dml_core/services/watch_service.py:26-67 | in every reachable state no instant lies in two active watches of one user |
| WatchQueue.OutForGood | src/dml_core/services/watch_service.py:132-146 | over any run a watch that is not active stays as it is until it is removed, is never attempted, and never comes back |
| WatchQueue.CleanupExactly | src/dml_web/scheduler.py:40-50 | a cleanup removes exactly the watches that are not active and were created before the cutoff, and changes none |
| WatchQueue.MatchMeansFree | src/dml_core/services/watch_service.py:138-155 | a watch matches only if it is active, not notified, not over and its RAM is free at every instant left of its range; if its query answers ends-first, exactly then |
| WatchProperties.NarrowSweep | src/dml_core/services/watch_service.py:150-187 | the booking query sweeps no higher than the matching query did if their orders agree on ties |
| WatchProperties.EndsFirstAgrees | src/dml_core/services/watch_service.py:174-187 | an ends-first answer, such as one by start time, agrees with every other |
| WatchProperties.WatchRequestPasses | src/dml_core/services/watch_service.py:172-185 | a watch's window passes every check on the request except perhaps the horizon |
| WatchProperties.MatchedWatchRefusals | src/dml_core/services/watch_service.py:138-187 | a watch that just matched, attempted at the same or a later clock, is refused only for the horizon, the cap or the GPU limit, if the orders agree on ties |
| WatchProperties.AttemptConserves | src/dml_core/services/watch_service.py:158-194 | one attempt changes nothing, or adds one reservation that serves its watch and matches that watch |
| WatchProperties.AutoBooksConserve | src/dml_web/scheduler.py:32-36 | over any run of looks and attempts the new reservations and the newly matched watches correspond one to one, each serving its watch, all else unchanged |
| WatchProperties.AutoBooksKeepCapacity | src/dml_web/scheduler.py:32-36 | and every GPU stays within its RAM |
| Scheduler.BookMatch | src/dml_web/scheduler.py:33-36 | an attempt and its marking are one auto-book operation of the model; it books when a reservation appears |
| Scheduler.BookMatches | src/dml_web/scheduler.py:32-36 | the matches of a GPU are attempted each once, in order, none before the look that found them, and the count is the number of new reservations |
| Scheduler.PassVisits | src/dml_web/scheduler.py:31-36 | looking at one more GPU at its clock reading decides all its pending watches by the state at that look, and disturbs no earlier decision |
| Scheduler.RunWatchAutobookCheck | src/dml_web/scheduler.py:27-37 | the count is the number of new reservations and of newly matched watches, one to one; the invariant and the capacity are kept; every GPU that is on is looked at once, and each watch pending on it is attempted right after that look if and only if it matched then; no other is, and none twice |
| Scheduler.NoneMissed | src/dml_web/scheduler.py:27-37 | every watch pending on a GPU that is on whose range ends after the clock at the end of the pass was swept against a full answer to its own query, and attempted if and only if it matched |
| Chart.FoldEvent | src/dml_web/chart_data.py:79-82 | the dictionary holds exactly the owners with RAM left, each with its running sum, and its grand total moves by the event |
| Chart.BusiestSnapshot | src/dml_web/chart_data.py:74-86 | the loop keeps the dictionary of a prefix whose total is the largest |
| Chart.PeakUsageBreakdown | src/dml_web/chart_data.py:52-86 | the values are positive, sum to the allocator's sweep of the same entries in the same order, and are every user's RAM at one split that attains it |
| Chart.SnapshotIsInstant | src/dml_web/chart_data.py:52-62 | when ends come first inside the bucket, that split is one real, busiest instant of it |
| Chart.BucketBoundaries | src/dml_web/chart_data.py:22-37 | edges rise by one step from local midnight, the first at or before the start by less than a step, only the last at or after the end |
| Chart.BucketsTile | src/dml_web/chart_data.py:30-37 | every instant of the range lies in exactly one bucket |
| Chart.BuildOccupancyBuckets | src/dml_web/chart_data.py:100-112 | one bucket between each two edges, breaking down by user a split that attains the sweep of all occupied windows there |
| Chart.BucketsTileAndDominate | src/dml_web/chart_data.py:106-112 | every instant of the range lies in exactly one bucket, whose total is at least the RAM held then |
| Chart.OccupiedByUser | src/dml_web/chart_data.py:100-104 | the charted windows hold, under every user's name and at every instant, the RAM that this user's stored rows occupied |
| Chart.BucketIsSplit | src/dml_web/chart_data.py:106-112 | in any order a bucket shows under every name that user's own RAM, at one split of the rows and one instant |
| Chart.BucketIsInstant | src/dml_web/chart_data.py:106-112 | when ends come first inside a bucket it shows under every name the RAM that this user's stored rows occupied at one real instant of it, a busiest one |
| Chart.BucketsWithinCapacity | src/dml_web/chart_data.py:61-62 | such a bucket never reads above a capacity that its every instant respects |
| Chart.BucketNeverOverCapacity | src/dml_web/chart_data.py:61-62 | for every choice of positive RAM and every capacity, that condition on the order is necessary and sufficient |
| ChartHistory.OccupiedIsHistory | src/dml_web/chart_data.py:40-49 | the charted windows hold at every instant what the historical record says |
| ChartHistory.OccupiedStartOrdered | src/dml_web/chart_data.py:100-104 | rows by start time chart as windows by start time |
| ChartHistory.HistoricalChartWithinCapacity | src/dml_core/services/reservation_service.py:371-394 | while the record is within the GPU's RAM, every bucket of the historical chart inside which ends come first reads at most it |
| Usage.Totals | src/dml_core/services/usage_service.py:84-113 | the loop of the three reports fills exactly the keys that occur, each with what it accumulates, and the values sum to the grand total |
| Usage.TotalGpuHoursByUser | src/dml_core/services/usage_service.py:84-91 | exactly the users with rows, each with the time their rows lie inside the range |
| Usage.TotalRamHoursByUser | src/dml_core/services/usage_service.py:94-102 | exactly the users with rows, each with that time multiplied by the rows' RAM |
| Usage.TotalRamHoursByGpu | src/dml_core/services/usage_service.py:105-113 | exactly the GPUs with rows, each with that time multiplied by the rows' RAM |
| Usage.TotalIsIntegral | src/dml_core/services/usage_service.py:78-113 | each total equals the pointwise rate summed over every tick of the range |
| Usage.ReportsConserve | src/dml_core/services/usage_service.py:94-113 | the RAM-hours charged to users and to GPUs are the same in total |
| Usage.ReportMeasuresUsage | src/dml_core/services/usage_service.py:23-28 | at every instant of the range the reported rows hold exactly the GPU's ACTIVE RAM |
| Usage.GpuReportWithinCapacity | src/dml_core/services/usage_service.py:105-113 | while the capacity holds, no GPU is charged more than its RAM times the length of the range |
| Witnesses.ReactivationOverload | src/dml_core/services/reservation_service.py:329-337 | a reachable lab within capacity that a reactivation puts above it, restarting two bookings that never overlapped together |
| Witnesses.LapsedOverCap | src/dml_core/services/reservation_service.py:132-136 | a reachable lab with a cap of one in which a reactivation leaves a user with two reservations |
| Witnesses.TwoGpusAtOnce | src/dml_core/services/reservation_service.py:202 | a reachable lab with a limit of one GPU in which an accepted booking puts a user on two GPUs at once |
| Witnesses.MatchRefusedForCapacity | src/dml_core/services/watch_service.py:150-187 | a reachable lab in which a watch matches, and its attempt, answered in the other order, is refused for capacity though it fits at every instant |

## Left out

- WatchProperties.MatchedWatchRefusals: asks that the two queries agree on start-first ties; without that it is false (`MatchRefusedForCapacity`), and `ReorderedSweep` shows the condition is exact when the amounts of RAM are left open, though for given amounts a refusal may be avoided without it.
- SlotTime.AutoBookWindowComplete: before 1970 it speaks of whole-second inputs only, as does SlotTime.SlotStartsSoundAndComplete; seconds there are cut off toward zero, which moves the sub-second part to the other side.
- The order conditions of `ExactOrders`, `CapacityOrders`, `ViewIsLargestRequest` and `BucketNeverOverCapacity` are exact over all amounts of RAM; for given amounts a tie listed start-first may do no harm.
- Capacity.RunsFit: the historical half leaves open what a reservation restarted by a reactivation occupied before it was suspended, since the row keeps no trace of it.
- Rows are values in tables: two variables that name one stored row through the session's identity map are not distinguished from two reads of it.
- Transactions, flushes, rollbacks and two requests interleaving inside one transaction; the queries themselves are filters over the tables.
- Authentication, admin guards, access grants and the route lookups beyond what is named in the contracts; in particular the route's refusal of a watch that already has enough RAM.
- Changing the regulation or a user's limit during a run, negative delays and non-positive slot lengths; the schema does not exclude them, the model assumes them away.
- Permanent deletion of users with their reservations, and the removal of server-access grants with a server.
- Renaming servers and GPUs, notifications, feedback, pagination, the listings that only filter, and durations put into words: only easy members.
- The chart's `segments` list and the ISO formatting of instants; the range of instants a stored date can have.
- Time zones with daylight saving: the page's day start is a parameter, and the chart's zone is a fixed offset.
- Floating point: hours are compared and added as integer ticks, so rounding of very long durations is not modelled.
- `created_at` and `reminded_at` of reservations, and the columns that only record who updated what.
