/**
  The usage reports. Durations are integer ticks instead of floating-point hours; a total of this
  module divided by SlotTime.HOUR is the source's number.
*/
module Usage {
  import opened Wrappers
  import opened Entities
  import opened Measures
  import opened LabModel
  import opened Invariants
  import opened Capacity
  import Chart

  datatype Report = GpuHoursByUser | RamHoursByUser | RamHoursByGpu

  function KeyOf(rep: Report, r: Reservation): int {
    if rep.RamHoursByGpu? then r.gpu else r.user
  }

  function Rate(rep: Report, r: Reservation): int {
    if rep.GpuHoursByUser? then 1 else r.ram
  }

  /** `_clipped_hours`, in ticks. */
  function ClippedTicks(r: Reservation, from: int, until: int): int {
    Max(Min(r.end, until) - Max(r.start, from), 0)
  }

  // ---------------------------------------------------------------- totals and the integral

  /** What the report accumulates under one key. */
  ghost function TotalFor(rep: Report, key: int, rows: seq<Reservation>, from: int, until: int): int {
    if rows == [] then 0
    else
      var r := rows[|rows| - 1];
      TotalFor(rep, key, rows[..|rows| - 1], from, until)
      + if KeyOf(rep, r) == key then ClippedTicks(r, from, until) * Rate(rep, r) else 0
  }

  /** Pointwise usage under one key: the rate of every reservation that covers t. */
  ghost function RateAt(rep: Report, key: int, rows: seq<Reservation>, t: int): int {
    if rows == [] then 0
    else
      var r := rows[|rows| - 1];
      RateAt(rep, key, rows[..|rows| - 1], t) + if KeyOf(rep, r) == key && r.start <= t < r.end then Rate(rep, r) else 0
  }

  /** Pointwise usage summed over every tick of the range. */
  ghost function Integral(rep: Report, key: int, rows: seq<Reservation>, from: int, until: int): int
    decreases until - from
  {
    if until <= from then 0
    else Integral(rep, key, rows, from, until - 1) + RateAt(rep, key, rows, until - 1)
  }

  ghost function CoveredTicks(r: Reservation, from: int, until: int): int
    decreases until - from
  {
    if until <= from then 0
    else CoveredTicks(r, from, until - 1) + if r.start <= until - 1 < r.end then 1 else 0
  }

  lemma {:induction false} CoveredIsClipped(r: Reservation, from: int, until: int)
    requires r.start <= r.end && from <= until
    ensures CoveredTicks(r, from, until) == ClippedTicks(r, from, until)
    decreases until - from
  {
    if from < until {
      CoveredIsClipped(r, from, until - 1);
    }
  }

  lemma {:induction false} IntegralPush(rep: Report, key: int, rows: seq<Reservation>, from: int, until: int)
    requires rows != []
    ensures var r := rows[|rows| - 1];
            Integral(rep, key, rows, from, until)
            == Integral(rep, key, rows[..|rows| - 1], from, until)
             + if KeyOf(rep, r) == key then CoveredTicks(r, from, until) * Rate(rep, r) else 0
    decreases until - from
  {
    if from < until {
      var r := rows[|rows| - 1];
      IntegralPush(rep, key, rows, from, until - 1);
      var c, d := CoveredTicks(r, from, until - 1), CoveredTicks(r, from, until) - CoveredTicks(r, from, until - 1);
      assert (c + d) * Rate(rep, r) == c * Rate(rep, r) + d * Rate(rep, r);
    }
  }

  lemma {:induction false} IntegralEmpty(rep: Report, key: int, from: int, until: int)
    ensures Integral(rep, key, [], from, until) == 0
    decreases until - from
  {
    if from < until {
      IntegralEmpty(rep, key, from, until - 1);
    }
  }

  /** Fast totals equal the integral: what is accumulated row by row is the pointwise usage summed over the range. */
  lemma {:induction false} TotalIsIntegral(rep: Report, key: int, rows: seq<Reservation>, from: int, until: int)
    requires from <= until && forall i :: 0 <= i < |rows| ==> rows[i].start <= rows[i].end
    ensures TotalFor(rep, key, rows, from, until) == Integral(rep, key, rows, from, until)
  {
    if rows == [] {
      IntegralEmpty(rep, key, from, until);
    } else {
      var n := |rows| - 1;
      TotalIsIntegral(rep, key, rows[..n], from, until);
      IntegralPush(rep, key, rows, from, until);
      CoveredIsClipped(rows[n], from, until);
    }
  }

  // ---------------------------------------------------------------- the reports

  ghost function GrandTotal(rep: Report, rows: seq<Reservation>, from: int, until: int): int {
    if rows == [] then 0
    else
      var r := rows[|rows| - 1];
      GrandTotal(rep, rows[..|rows| - 1], from, until) + ClippedTicks(r, from, until) * Rate(rep, r)
  }

  ghost function Keys(rep: Report, rows: seq<Reservation>): set<int> {
    set i | 0 <= i < |rows| :: KeyOf(rep, rows[i])
  }

  /** The loop of `total_gpu_hours_by_user`, `total_ram_hours_by_user` and `total_ram_hours_by_gpu`. */
  method Totals(rep: Report, rows: seq<Reservation>, from: int, until: int) returns (totals: map<int, int>)
    ensures totals.Keys == Keys(rep, rows)
    ensures forall key :: key in totals ==> totals[key] == TotalFor(rep, key, rows, from, until)
    ensures Chart.SumValues(totals) == GrandTotal(rep, rows, from, until)
  {
    totals := map[];
    for i := 0 to |rows|
      invariant totals.Keys == Keys(rep, rows[..i])
      invariant forall key :: Chart.Get(totals, key) == TotalFor(rep, key, rows[..i], from, until)
      invariant Chart.SumValues(totals) == GrandTotal(rep, rows[..i], from, until)
    {
      var key := KeyOf(rep, rows[i]);
      var value := Chart.Get(totals, key) + ClippedTicks(rows[i], from, until) * Rate(rep, rows[i]);
      Chart.SumValuesUpdate(totals, key, value);
      KeysPush(rep, rows, i);
      assert rows[..i + 1][..i] == rows[..i];
      totals := totals[key := value];
    }
    assert rows[..|rows|] == rows;
  }

  lemma KeysPush(rep: Report, rows: seq<Reservation>, i: nat)
    requires i < |rows|
    ensures Keys(rep, rows[..i + 1]) == Keys(rep, rows[..i]) + {KeyOf(rep, rows[i])}
  {
    var front, more := rows[..i], rows[..i + 1];
    forall key ensures key in Keys(rep, more) <==> key in Keys(rep, front) || key == KeyOf(rep, rows[i]) {
      if key in Keys(rep, front) {
        var j :| 0 <= j < |front| && KeyOf(rep, front[j]) == key;
        assert more[j] == front[j];
      }
      if key == KeyOf(rep, rows[i]) {
        assert more[i] == rows[i];
      }
      if key in Keys(rep, more) {
        var j :| 0 <= j < |more| && KeyOf(rep, more[j]) == key;
        assert j < i ==> front[j] == more[j];
      }
    }
  }

  // ---------------------------------------------------------------- the three reports, written out

  /** How long the row's interval lies inside the range. */
  ghost function TicksInRange(r: Reservation, from: int, until: int): int {
    var start := if r.start < from then from else r.start;
    var end := if until < r.end then until else r.end;
    if start < end then end - start else 0
  }

  /** The ticks that the user's rows lie inside the range. */
  ghost function GpuTicksOfUser(user: int, rows: seq<Reservation>, from: int, until: int): int {
    if rows == [] then 0
    else
      var r := rows[|rows| - 1];
      GpuTicksOfUser(user, rows[..|rows| - 1], from, until) + if r.user == user then TicksInRange(r, from, until) else 0
  }

  /** The RAM-ticks of the user's rows inside the range. */
  ghost function RamTicksOfUser(user: int, rows: seq<Reservation>, from: int, until: int): int {
    if rows == [] then 0
    else
      var r := rows[|rows| - 1];
      RamTicksOfUser(user, rows[..|rows| - 1], from, until)
      + if r.user == user then TicksInRange(r, from, until) * r.ram else 0
  }

  /** The RAM-ticks of the GPU's rows inside the range. */
  ghost function RamTicksOfGpu(gpu: int, rows: seq<Reservation>, from: int, until: int): int {
    if rows == [] then 0
    else
      var r := rows[|rows| - 1];
      RamTicksOfGpu(gpu, rows[..|rows| - 1], from, until)
      + if r.gpu == gpu then TicksInRange(r, from, until) * r.ram else 0
  }

  lemma {:induction false} ReportedGpuTicks(key: int, rows: seq<Reservation>, from: int, until: int)
    ensures TotalFor(GpuHoursByUser, key, rows, from, until) == GpuTicksOfUser(key, rows, from, until)
  {
    if rows != [] {
      ReportedGpuTicks(key, rows[..|rows| - 1], from, until);
    }
  }

  lemma {:induction false} ReportedUserRam(key: int, rows: seq<Reservation>, from: int, until: int)
    ensures TotalFor(RamHoursByUser, key, rows, from, until) == RamTicksOfUser(key, rows, from, until)
  {
    if rows != [] {
      ReportedUserRam(key, rows[..|rows| - 1], from, until);
    }
  }

  lemma {:induction false} ReportedGpuRam(key: int, rows: seq<Reservation>, from: int, until: int)
    ensures TotalFor(RamHoursByGpu, key, rows, from, until) == RamTicksOfGpu(key, rows, from, until)
  {
    if rows != [] {
      ReportedGpuRam(key, rows[..|rows| - 1], from, until);
    }
  }

  /** `total_gpu_hours_by_user`. */
  method TotalGpuHoursByUser(rows: seq<Reservation>, from: int, until: int) returns (totals: map<int, int>)
    ensures forall user :: user in totals <==> exists i :: 0 <= i < |rows| && rows[i].user == user
    ensures forall user :: user in totals ==> totals[user] == GpuTicksOfUser(user, rows, from, until)
  {
    totals := Totals(GpuHoursByUser, rows, from, until);
    forall user | user in totals ensures totals[user] == GpuTicksOfUser(user, rows, from, until) {
      ReportedGpuTicks(user, rows, from, until);
    }
    forall user ensures user in totals <==> exists i :: 0 <= i < |rows| && rows[i].user == user {
      assert user in totals <==> user in Keys(GpuHoursByUser, rows);
    }
  }

  /** `total_ram_hours_by_user`. */
  method TotalRamHoursByUser(rows: seq<Reservation>, from: int, until: int) returns (totals: map<int, int>)
    ensures forall user :: user in totals <==> exists i :: 0 <= i < |rows| && rows[i].user == user
    ensures forall user :: user in totals ==> totals[user] == RamTicksOfUser(user, rows, from, until)
  {
    totals := Totals(RamHoursByUser, rows, from, until);
    forall user | user in totals ensures totals[user] == RamTicksOfUser(user, rows, from, until) {
      ReportedUserRam(user, rows, from, until);
    }
    forall user ensures user in totals <==> exists i :: 0 <= i < |rows| && rows[i].user == user {
      assert user in totals <==> user in Keys(RamHoursByUser, rows);
    }
  }

  /** `total_ram_hours_by_gpu`. */
  method TotalRamHoursByGpu(rows: seq<Reservation>, from: int, until: int) returns (totals: map<int, int>)
    ensures forall gpu :: gpu in totals <==> exists i :: 0 <= i < |rows| && rows[i].gpu == gpu
    ensures forall gpu :: gpu in totals ==> totals[gpu] == RamTicksOfGpu(gpu, rows, from, until)
  {
    totals := Totals(RamHoursByGpu, rows, from, until);
    forall gpu | gpu in totals ensures totals[gpu] == RamTicksOfGpu(gpu, rows, from, until) {
      ReportedGpuRam(gpu, rows, from, until);
    }
    forall gpu ensures gpu in totals <==> exists i :: 0 <= i < |rows| && rows[i].gpu == gpu {
      assert gpu in totals <==> gpu in Keys(RamHoursByGpu, rows);
    }
  }

  // ---------------------------------------------------------------- conservation and capacity

  /** The RAM-hours charged to users and the RAM-hours charged to GPUs are the same hours. */
  lemma {:induction false} ReportsConserve(rows: seq<Reservation>, from: int, until: int)
    ensures GrandTotal(RamHoursByUser, rows, from, until) == GrandTotal(RamHoursByGpu, rows, from, until)
  {
    if rows != [] {
      ReportsConserve(rows[..|rows| - 1], from, until);
    }
  }

  // ---------------------------------------------------------------- against the lab's tables

  /** `get_reservations_in_range`: the ACTIVE rows that overlap the range. */
  ghost function ActiveInRange(rows: seq<Reservation>, from: int, until: int): set<nat> {
    set i | 0 <= i < |rows| && rows[i].status == ACTIVE && rows[i].start < until && rows[i].end > from
  }

  lemma {:induction false} RateIsUsage(rows: seq<Reservation>, g: nat, t: int)
    requires forall i :: 0 <= i < |rows| ==> rows[i].status == ACTIVE
    ensures RateAt(RamHoursByGpu, g, rows, t) == Total(ActiveAt(g, t), rows)
  {
    if rows != [] {
      RateIsUsage(rows[..|rows| - 1], g, t);
    }
  }

  /** At every instant of the range the reported rows hold exactly the GPU's ACTIVE RAM. */
  lemma ReportMeasuresUsage(s: LabState, order: seq<nat>, from: int, until: int, g: nat, t: int)
    requires Below(order, |s.reservations|) && Enumerates(order, ActiveInRange(s.reservations, from, until))
    requires from <= t < until
    ensures RateAt(RamHoursByGpu, g, Gather(s.reservations, order), t) == Total(ActiveAt(g, t), s.reservations)
  {
    var rows := Gather(s.reservations, order);
    forall i | 0 <= i < |rows| ensures rows[i].status == ACTIVE {
      assert order[i] in order;
    }
    RateIsUsage(rows, g, t);
    GatherTotal(ActiveAt(g, t), s.reservations, order);
  }

  lemma ProductStep(a: int, n: int)
    ensures a * n == a * (n - 1) + a
  {
  }

  lemma {:induction false} IntegralBounded(s: LabState, order: seq<nat>, from: int, until: int, upTo: int, g: nat)
    requires WithinCapacity(s) && g < |s.gpus| && from <= upTo <= until
    requires Below(order, |s.reservations|) && Enumerates(order, ActiveInRange(s.reservations, from, until))
    ensures Integral(RamHoursByGpu, g, Gather(s.reservations, order), from, upTo) <= s.gpus[g].totalRam * (upTo - from)
    decreases upTo - from
  {
    if from < upTo {
      IntegralBounded(s, order, from, until, upTo - 1, g);
      ReportMeasuresUsage(s, order, from, until, g, upTo - 1);
      assert Total(Load(false, g, upTo - 1), s.reservations) <= s.gpus[g].totalRam;
      ProductStep(s.gpus[g].totalRam, upTo - from);
      hide RateAt, Total, Gather;
    }
  }

  /** While the capacity holds, no GPU is reported above its RAM times the length of the range. */
  lemma GpuReportWithinCapacity(s: LabState, order: seq<nat>, from: int, until: int, g: nat)
    requires Inv(s) && WithinCapacity(s) && g < |s.gpus| && from <= until
    requires Below(order, |s.reservations|) && Enumerates(order, ActiveInRange(s.reservations, from, until))
    ensures TotalFor(RamHoursByGpu, g, Gather(s.reservations, order), from, until) <= s.gpus[g].totalRam * (until - from)
  {
    var rows := Gather(s.reservations, order);
    forall i | 0 <= i < |rows| ensures rows[i].start <= rows[i].end {
      assert RowOk(s, s.reservations[order[i]]);
    }
    TotalIsIntegral(RamHoursByGpu, g, rows, from, until);
    IntegralBounded(s, order, from, until, until, g);
  }
}
