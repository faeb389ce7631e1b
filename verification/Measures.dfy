/**
  Quantities summed over the reservation table, and how bulk updates move them. A measure gives
  each row a weight that depends on that row alone.
*/
module Measures {
  import opened Entities

  predicate Live(r: Reservation) {
    r.status != CANCELLED
  }

  datatype Measure =
    | ActiveAt(gpu: nat, t: int)                            // RAM of the ACTIVE rows that cover t
    | OccupiedAt(gpu: nat, t: int)                          // RAM of all rows ever made, each cut off at its cancellation
    | SuspendedOn(gpu: nat)                                 // RAM of the SUSPENDED rows
    | BookingsOf(user: int, now: int)                       // live rows of the user that end after now
    | LapsedOf(user: int, gpus: set<nat>, now: int)         // SUSPENDED rows of the user there whose booked end has passed

  function Weigh(m: Measure, r: Reservation): int {
    match m
    case ActiveAt(g, t) => if r.gpu == g && r.status == ACTIVE && r.start <= t < r.end then r.ram else 0
    case OccupiedAt(g, t) =>
      if r.gpu == g && r.start <= t < r.end && (r.cancelledAt.None? || t < r.cancelledAt.value) then r.ram else 0
    case SuspendedOn(g) => if r.gpu == g && r.status == SUSPENDED then r.ram else 0
    case BookingsOf(u, now) => if r.user == u && Live(r) && r.end > now then 1 else 0
    case LapsedOf(u, gs, now) => if r.user == u && r.gpu in gs && r.status == SUSPENDED && r.end <= now then 1 else 0
  }

  function Total(m: Measure, rows: seq<Reservation>): int {
    if rows == [] then 0 else Total(m, rows[..|rows| - 1]) + Weigh(m, rows[|rows| - 1])
  }

  lemma TotalPush(m: Measure, rows: seq<Reservation>, r: Reservation)
    ensures Total(m, rows + [r]) == Total(m, rows) + Weigh(m, r)
  {
    assert (rows + [r])[..|rows|] == rows;
  }

  lemma {:induction false} TotalAppend(m: Measure, a: seq<Reservation>, b: seq<Reservation>)
    ensures Total(m, a + b) == Total(m, a) + Total(m, b)
  {
    if b == [] {
      assert a + b == a;
    } else {
      assert (a + b)[..|a + b| - 1] == a + b[..|b| - 1];
      TotalAppend(m, a, b[..|b| - 1]);
    }
  }

  lemma {:induction false} TotalMonotone(m1: Measure, a: seq<Reservation>, m2: Measure, b: seq<Reservation>)
    requires |a| == |b| && forall i :: 0 <= i < |a| ==> Weigh(m1, a[i]) <= Weigh(m2, b[i])
    ensures Total(m1, a) <= Total(m2, b)
  {
    if a != [] {
      var n := |a| - 1;
      assert Weigh(m1, a[n]) <= Weigh(m2, b[n]);
      TotalMonotone(m1, a[..n], m2, b[..n]);
    }
  }

  lemma TotalSame(m1: Measure, a: seq<Reservation>, m2: Measure, b: seq<Reservation>)
    requires |a| == |b| && forall i :: 0 <= i < |a| ==> Weigh(m1, a[i]) == Weigh(m2, b[i])
    ensures Total(m1, a) == Total(m2, b)
  {
    TotalMonotone(m1, a, m2, b);
    TotalMonotone(m2, b, m1, a);
  }

  lemma {:induction false} TotalAdds(
      m1: Measure, a: seq<Reservation>, m2: Measure, b: seq<Reservation>, m3: Measure, c: seq<Reservation>)
    requires |a| == |b| == |c|
    requires forall i :: 0 <= i < |a| ==> Weigh(m1, a[i]) == Weigh(m2, b[i]) + Weigh(m3, c[i])
    ensures Total(m1, a) == Total(m2, b) + Total(m3, c)
  {
    if a != [] {
      var n := |a| - 1;
      assert Weigh(m1, a[n]) == Weigh(m2, b[n]) + Weigh(m3, c[n]);
      TotalAdds(m1, a[..n], m2, b[..n], m3, c[..n]);
    }
  }

  lemma {:induction false} TotalZero(m: Measure, rows: seq<Reservation>)
    requires forall i :: 0 <= i < |rows| ==> Weigh(m, rows[i]) == 0
    ensures Total(m, rows) == 0
  {
    if rows != [] {
      TotalZero(m, rows[..|rows| - 1]);
    }
  }

  lemma {:induction false} TotalNonNegative(m: Measure, rows: seq<Reservation>)
    requires forall i :: 0 <= i < |rows| ==> rows[i].ram > 0
    ensures Total(m, rows) >= 0
  {
    if rows != [] {
      TotalNonNegative(m, rows[..|rows| - 1]);
    }
  }

  // ---------------------------------------------------------------- query results

  ghost predicate Distinct(ids: seq<nat>) {
    forall i, j :: 0 <= i < j < |ids| ==> ids[i] != ids[j]
  }

  ghost predicate Below(ids: seq<nat>, n: nat) {
    forall i :: 0 <= i < |ids| ==> ids[i] < n
  }

  /** A query result: every matching id once, in whatever order the database chose. */
  ghost predicate Enumerates(ids: seq<nat>, all: set<nat>) {
    && Distinct(ids)
    && (forall x :: x in ids <==> x in all)
  }

  ghost function IdSet(ids: seq<nat>): set<nat> {
    set x | x in ids
  }

  function Gather(rows: seq<Reservation>, ids: seq<nat>): seq<Reservation>
    requires forall i :: 0 <= i < |ids| ==> ids[i] < |rows|
  {
    seq(|ids|, i requires 0 <= i < |ids| => rows[ids[i]])
  }

  lemma GatherSplit(rows: seq<Reservation>, ids: seq<nat>, p: nat, m: Measure)
    requires forall i :: 0 <= i < |ids| ==> ids[i] < |rows|
    requires p < |ids|
    ensures Total(m, Gather(rows, ids)) == Total(m, Gather(rows, ids[..p] + ids[p + 1..])) + Weigh(m, rows[ids[p]])
  {
    var a, b := Gather(rows, ids[..p]), Gather(rows, ids[p + 1..]);
    assert Gather(rows, ids) == a + [rows[ids[p]]] + b;
    assert Gather(rows, ids[..p] + ids[p + 1..]) == a + b;
    TotalAppend(m, a + [rows[ids[p]]], b);
    TotalPush(m, a, rows[ids[p]]);
    TotalAppend(m, a, b);
  }

  lemma DropId(ids: seq<nat>, p: nat)
    requires Distinct(ids) && p < |ids| && Below(ids, ids[p] + 1)
    ensures var rest := ids[..p] + ids[p + 1..];
            Distinct(rest) && Below(rest, ids[p]) && forall k :: k in ids && k != ids[p] ==> k in rest
  {
    var rest := ids[..p] + ids[p + 1..];
    forall k | k in ids && k != ids[p] ensures k in rest {
      var q :| 0 <= q < |ids| && ids[q] == k;
      assert rest[if q < p then q else q - 1] == k;
    }
    forall i | 0 <= i < |rest| ensures rest[i] < ids[p] {
      assert rest[i] == if i < p then ids[i] else ids[i + 1];
    }
  }

  lemma BelowMissing(ids: seq<nat>, n: nat)
    requires Below(ids, n + 1) && n !in ids
    ensures Below(ids, n)
  {
    forall i | 0 <= i < |ids| ensures ids[i] < n {
      assert ids[i] in ids;
    }
  }

  lemma GatherPrefix(rows: seq<Reservation>, ids: seq<nat>, n: nat)
    requires Below(ids, n) && n <= |rows|
    ensures Gather(rows[..n], ids) == Gather(rows, ids)
  {
  }

  /** The ids without the last row's, and what that row contributed. */
  lemma WithoutLast(m: Measure, rows: seq<Reservation>, ids: seq<nat>) returns (rest: seq<nat>)
    requires Distinct(ids) && Below(ids, |rows|) && rows != []
    ensures var n := |rows| - 1;
            && Distinct(rest) && Below(rest, n)
            && (forall k :: k in ids && k != n ==> k in rest)
            && Total(m, Gather(rows, ids))
               == Total(m, Gather(rows[..n], rest)) + if n in ids then Weigh(m, rows[n]) else 0
  {
    var n := |rows| - 1;
    if n in ids {
      var p :| 0 <= p < |ids| && ids[p] == n;
      rest := ids[..p] + ids[p + 1..];
      GatherSplit(rows, ids, p, m);
      DropId(ids, p);
    } else {
      rest := ids;
      BelowMissing(ids, n);
    }
    GatherPrefix(rows, rest, n);
  }

  /** Distinct ids that include every row of non-zero weight total the whole table, whatever their order. */
  lemma {:induction false} GatherTotal(m: Measure, rows: seq<Reservation>, ids: seq<nat>)
    requires Distinct(ids) && Below(ids, |rows|)
    requires forall k :: 0 <= k < |rows| && k !in ids ==> Weigh(m, rows[k]) == 0
    ensures Total(m, Gather(rows, ids)) == Total(m, rows)
    decreases |rows|
  {
    if rows != [] {
      var rest := WithoutLast(m, rows, ids);
      GatherTotal(m, rows[..|rows| - 1], rest);
    }
  }

  /** Rows picked by distinct ids weigh no more than the whole table. */
  lemma {:induction false} GatherAtMost(m: Measure, rows: seq<Reservation>, ids: seq<nat>)
    requires Distinct(ids) && Below(ids, |rows|)
    requires forall k :: 0 <= k < |rows| ==> rows[k].ram > 0
    ensures Total(m, Gather(rows, ids)) <= Total(m, rows)
    decreases |rows|
  {
    if rows != [] {
      var rest := WithoutLast(m, rows, ids);
      GatherAtMost(m, rows[..|rows| - 1], rest);
    }
  }

  lemma {:induction false} TotalCounts(m: Measure, rows: seq<Reservation>)
    requires forall i :: 0 <= i < |rows| ==> Weigh(m, rows[i]) == 1
    ensures Total(m, rows) == |rows|
  {
    if rows != [] {
      TotalCounts(m, rows[..|rows| - 1]);
    }
  }
}
