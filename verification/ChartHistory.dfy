/** The historical chart against the lab's history: no bucket reads above the GPU's RAM. */
module ChartHistory {
  import opened Wrappers
  import opened Entities
  import opened Measures
  import opened Sweep
  import opened SweepProperties
  import opened Chart
  import opened LabModel
  import opened Invariants
  import opened Capacity

  /** The charted windows of a GPU's rows hold what the historical measure says. */
  lemma {:induction false} OccupiedIsHistory(rows: seq<Reservation>, names: map<int, string>, g: nat, t: int)
    requires forall i :: 0 <= i < |rows| ==> rows[i].user in names && rows[i].gpu == g
    ensures RamAt(Occupied(rows, names), t) == Total(OccupiedAt(g, t), rows)
  {
    if rows != [] {
      var n := |rows| - 1;
      OccupiedIsHistory(rows[..n], names, g, t);
      var window := OccupiedWindow(rows[n]);
      if window.Some? {
        HeldPush(Occupied(rows[..n], names),
                 Claim(window.value.0, window.value.1, names[rows[n].user], rows[n].ram), t, t + 1, t, None);
      } else {
        assert Occupied(rows, names) == Occupied(rows[..n], names);
      }
    }
  }

  /** Rows listed by start time chart as windows listed by start time. */
  lemma {:induction false} OccupiedStartOrdered(rows: seq<Reservation>, names: map<int, string>)
    requires forall i :: 0 <= i < |rows| ==> rows[i].user in names
    requires forall i, j :: 0 <= i < j < |rows| ==> rows[i].start <= rows[j].start
    ensures StartOrdered(Occupied(rows, names))
    ensures forall k :: 0 <= k < |Occupied(rows, names)| ==>
      rows != [] && Occupied(rows, names)[k].start <= rows[|rows| - 1].start
  {
    if rows != [] {
      OccupiedStartOrdered(rows[..|rows| - 1], names);
    }
  }

  /** `list_reservations_for_gpu` with cancelled ones included. */
  ghost function HistoryIds(rows: seq<Reservation>, g: nat, from: int, until: int): set<nat> {
    set i | 0 <= i < |rows| && rows[i].gpu == g && rows[i].start < until && rows[i].end > from
  }

  lemma HistoryChartLoad(s: LabState, order: seq<nat>, names: map<int, string>, g: nat, from: int, until: int, t: int)
    requires Inv(s) && HistoryWithinCapacity(s) && g < |s.gpus|
    requires Below(order, |s.reservations|) && Enumerates(order, HistoryIds(s.reservations, g, from, until))
    requires forall i :: 0 <= i < |order| ==> s.reservations[order[i]].user in names
    ensures RamAt(Occupied(Gather(s.reservations, order), names), t) <= s.gpus[g].totalRam
  {
    var rows := Gather(s.reservations, order);
    forall i | 0 <= i < |rows| ensures rows[i].gpu == g {
      assert order[i] in order;
    }
    OccupiedIsHistory(rows, names, g, t);
    forall k | 0 <= k < |s.reservations| ensures s.reservations[k].ram > 0 {
      assert RowOk(s, s.reservations[k]);
    }
    GatherAtMost(OccupiedAt(g, t), s.reservations, order);
    assert Total(Load(true, g, t), s.reservations) <= s.gpus[g].totalRam;
  }

  /**
    In a lab whose history fits its GPUs, a bucket of the historical chart reads at most the GPU's RAM,
    provided the rows are listed ends-first inside it (by start time, for instance).
  */
  lemma HistoricalChartWithinCapacity(
      s: LabState, order: seq<nat>, names: map<int, string>, g: nat, from: int, until: int, offset: int, step: int,
      buckets: seq<Bucket>, bs: seq<int>, k: nat)
    requires Inv(s) && HistoryWithinCapacity(s) && g < |s.gpus| && step > 0
    requires Below(order, |s.reservations|) && Enumerates(order, HistoryIds(s.reservations, g, from, until))
    requires forall i :: 0 <= i < |order| ==> s.reservations[order[i]].user in names
    requires Boundaries(bs, from + offset, until + offset, step)
    requires BucketsOf(buckets, bs, Occupied(Gather(s.reservations, order), names), offset)
    requires k < |buckets|
    requires EndsFirstWithin(
      Occupied(Gather(s.reservations, order), names), buckets[k].start - offset, buckets[k].end - offset)
    ensures SumValues(buckets[k].usage) <= s.gpus[g].totalRam
  {
    var rows := Gather(s.reservations, order);
    forall i | 0 <= i < |rows| ensures rows[i].ram > 0 {
      assert RowOk(s, s.reservations[order[i]]);
    }
    OccupiedPositive(rows, names);
    forall t ensures RamAt(Occupied(rows, names), t) <= s.gpus[g].totalRam {
      HistoryChartLoad(s, order, names, g, from, until, t);
    }
    BucketsWithinCapacity(
      buckets, bs, Occupied(rows, names), from + offset, until + offset, offset, step, s.gpus[g].totalRam, k);
  }
}
