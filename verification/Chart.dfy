/** The occupancy chart: the per-user peak snapshot of each bucket, and the buckets that tile a range. */
module Chart {
  import opened Arithmetic
  import opened Wrappers
  import opened Entities
  import opened Sweep
  import opened SweepOrder
  import opened SweepProperties
  import SlotTime

  // ---------------------------------------------------------------- sums over a dictionary

  ghost function SumValues<K>(m: map<K, int>): int
    decreases m.Keys
  {
    if m.Keys == {} then 0
    else
      var k :| k in m.Keys;
      m[k] + SumValues(m - {k})
  }

  function Get<K(==)>(m: map<K, int>, k: K): int {
    if k in m then m[k] else 0
  }

  lemma {:induction false} SumValuesRemove<K>(m: map<K, int>, k: K)
    ensures SumValues(m) == SumValues(m - {k}) + Get(m, k)
    decreases m.Keys
  {
    if k !in m {
      assert m - {k} == m;
    } else {
      var k' :| k' in m.Keys && SumValues(m) == m[k'] + SumValues(m - {k'});
      if k' != k {
        SumValuesRemove(m - {k'}, k);
        SumValuesRemove(m - {k}, k');
        assert m - {k'} - {k} == m - {k} - {k'};
      }
    }
  }

  lemma SumValuesUpdate<K>(m: map<K, int>, k: K, v: int)
    ensures SumValues(m[k := v]) == SumValues(m) - Get(m, k) + v
  {
    SumValuesRemove(m, k);
    SumValuesRemove(m[k := v], k);
    assert m[k := v] - {k} == m - {k};
  }

  // ---------------------------------------------------------------- the per-user snapshot

  ghost predicate Positive<U>(claims: seq<Claim<U>>) {
    forall i :: 0 <= i < |claims| ==> claims[i].ram > 0
  }

  lemma {:induction false} HeldNonNegative<U>(claims: seq<Claim<U>>, from: int, until: int, t: int, who: Option<U>)
    requires NonNegative(claims)
    ensures Held(claims, from, until, t, who) >= 0
  {
    if claims != [] {
      HeldNonNegative(claims[..|claims| - 1], from, until, t, who);
    }
  }

  lemma PrefixNonNegative<U>(claims: seq<Claim<U>>, from: int, until: int, p: nat, who: Option<U>)
    requires NonNegative(claims) && p <= |Events(claims, from, until)|
    ensures Sum(StableSort(Events(claims, from, until))[..p], who) >= 0
  {
    var m, at := PrefixIsSplit(claims, from, until, p);
    HeldNonNegative(claims[..m], from, until, at, who);
    HeldNonNegative(claims[m..], from, until, at - 1, who);
  }

  /** A dictionary holding exactly the owners with a positive running sum. */
  ghost predicate Tallies<U(!new)>(m: map<U, int>, es: seq<Event<U>>) {
    forall u {:trigger u in m} {:trigger Sum(es, Some(u))} ::
      (u in m <==> Sum(es, Some(u)) > 0) && (u in m ==> m[u] == Sum(es, Some(u)))
  }

  /** Snapshot of a split: every owner's RAM there, owners holding nothing left out. */
  ghost predicate Snapshot<U(!new)>(m: map<U, int>, claims: seq<Claim<U>>, from: int, until: int, cut: nat, at: int)
    requires cut <= |claims|
  {
    && (forall u :: u in m ==> m[u] > 0)
    && forall u :: Get(m, u) == Mixed(claims, from, until, cut, at, Some(u))
  }

  /** Folding in one event changes its own owner's tally only. */
  lemma TalliesStep<U(!new)>(before: map<U, int>, after: map<U, int>, es: seq<Event<U>>, next: seq<Event<U>>)
    requires next != [] && next[..|next| - 1] == es && Tallies(before, es)
    requires var e := next[|next| - 1];
             var v := Get(before, e.owner) + e.delta;
             && Sum(es, Some(e.owner)) >= 0
             && Sum(next, Some(e.owner)) >= 0
             && after == if v <= 0 then before[e.owner := v] - {e.owner} else before[e.owner := v]
    ensures Tallies(after, next)
  {
    var e := next[|next| - 1];
    forall u ensures (u in after <==> Sum(next, Some(u)) > 0) && (u in after ==> after[u] == Sum(next, Some(u))) {
      assert Sum(next, Some(u)) == Sum(es, Some(u)) + if u == e.owner then e.delta else 0;
      assert u in before <==> Sum(es, Some(u)) > 0;
    }
  }

  ghost predicate PrefixesNonNegative<U(!new)>(events: seq<Event<U>>) {
    forall p, who :: 0 <= p <= |events| ==> Sum(events[..p], who) >= 0
  }

  /** The dictionary with one more event folded in. */
  ghost function Folded<U>(before: map<U, int>, e: Event<U>): map<U, int> {
    var v := Get(before, e.owner) + e.delta;
    if v <= 0 then before[e.owner := v] - {e.owner} else before[e.owner := v]
  }

  lemma TallyNext<U(!new)>(before: map<U, int>, e: Event<U>, es: seq<Event<U>>)
    requires Tallies(before, es) && Sum(es, Some(e.owner)) >= 0 && Sum(es + [e], Some(e.owner)) >= 0
    ensures Get(before, e.owner) + e.delta >= 0
  {
    assert (es + [e])[..|es|] == es;
    assert e.owner in before <==> Sum(es, Some(e.owner)) > 0;
  }

  /** Folding in one event keeps the dictionary of running sums, with its grand total. */
  lemma FoldedTallies<U(!new)>(before: map<U, int>, e: Event<U>, es: seq<Event<U>>)
    requires Tallies(before, es) && Sum(es, Some(e.owner)) >= 0 && Sum(es + [e], Some(e.owner)) >= 0
    ensures Tallies(Folded(before, e), es + [e])
    ensures SumValues(Folded(before, e)) == SumValues(before) + e.delta
  {
    assert (es + [e])[..|es|] == es;
    var v := Get(before, e.owner) + e.delta;
    SumValuesUpdate(before, e.owner, v);
    SumValuesRemove(before[e.owner := v], e.owner);
    TalliesStep(before, Folded(before, e), es, es + [e]);
    TallyNext(before, e, es);
    hide Tallies, SumValues, Sum;
  }

  /** The loop body: fold one event into the dictionary. */
  method FoldEvent(before: map<string, int>, e: Event<string>, ghost es: seq<Event<string>>) returns (after: map<string, int>)
    requires Tallies(before, es) && Sum(es, Some(e.owner)) >= 0 && Sum(es + [e], Some(e.owner)) >= 0
    ensures Tallies(after, es + [e])
    ensures SumValues(after) == SumValues(before) + e.delta
  {
    FoldedTallies(before, e, es);
    after := before[e.owner := Get(before, e.owner) + e.delta];
    if after[e.owner] <= 0 {
      after := after - {e.owner};
    }
    assert after == Folded(before, e);
    hide Tallies, SumValues, Sum;
  }

  /** The running sums of any such events fit in a dictionary. */
  lemma {:induction false} SomeTallies<U(!new)>(es: seq<Event<U>>) returns (m: map<U, int>)
    requires PrefixesNonNegative(es)
    ensures Tallies(m, es) && SumValues(m) == Sum(es, None)
  {
    if es == [] {
      m := map[];
    } else {
      var n := |es| - 1;
      forall p, who | 0 <= p <= n ensures Sum(es[..n][..p], who) >= 0 {
        assert es[..n][..p] == es[..p];
      }
      var before := SomeTallies(es[..n]);
      assert es[..n] + [es[n]] == es && es[..|es|] == es;
      assert Sum(es[..n], Some(es[n].owner)) >= 0 && Sum(es[..|es|], Some(es[n].owner)) >= 0;
      FoldedTallies(before, es[n], es[..n]);
      m := Folded(before, es[n]);
    }
  }

  /** The second loop: fold in the sorted events and keep the dictionary at the first busiest prefix. */
  method BusiestSnapshot(events: seq<Event<string>>) returns (best: map<string, int>, ghost bestAt: nat)
    requires events != [] && PrefixesNonNegative(events)
    ensures bestAt <= |events| && Tallies(best, events[..bestAt])
    ensures SumValues(best) == Sum(events[..bestAt], None) == MaxPrefix(events)
  {
    var current: map<string, int> := map[];
    var total, bestTotal := 0, -1;
    best := map[];
    bestAt := 0;
    assert Tallies(current, events[..0]) && SumValues(current) == 0;
    hide Tallies, SumValues;
    for i := 0 to |events|
      invariant Tallies(current, events[..i]) && SumValues(current) == total == Sum(events[..i], None)
      invariant if i == 0 then bestTotal == -1 else bestTotal == MaxPrefix(events[..i])
      invariant bestAt <= i && Tallies(best, events[..bestAt])
      invariant SumValues(best) == Sum(events[..bestAt], None)
      invariant i > 0 ==> Sum(events[..bestAt], None) == bestTotal
    {
      assert events[..i + 1] == events[..i] + [events[i]] && events[..i + 1][..i] == events[..i];
      assert Sum(events[..i], Some(events[i].owner)) >= 0 && Sum(events[..i + 1], Some(events[i].owner)) >= 0;
      assert Sum(events[..i + 1], None) >= 0;
      current := FoldEvent(current, events[i], events[..i]);
      total := total + events[i].delta;
      if total > bestTotal {
        bestTotal := total;
        best := current;
        bestAt := i + 1;
      }
    }
    assert events[..|events|] == events;
  }

  /**
    `_peak_usage_breakdown`: the values are positive, sum to the allocator's sweep of the same
    claims in the same order, and are every user's RAM at one split that attains it.
  */
  method PeakUsageBreakdown(entries: seq<Claim<string>>, bucketStart: int, bucketEnd: int)
    returns (best: map<string, int>, ghost cut: nat, ghost at: int)
    requires Positive(entries)
    ensures forall u :: u in best ==> best[u] > 0
    ensures SumValues(best) == Peak(entries, bucketStart, bucketEnd)
    ensures cut <= |entries| && Mixed(entries, bucketStart, bucketEnd, cut, at, None) == Peak(entries, bucketStart, bucketEnd)
    ensures Snapshot(best, entries, bucketStart, bucketEnd, cut, at)
  {
    hide Events, StableSort, Sum, MaxPrefix, Mixed, Tallies, SumValues;
    var events := CollectEvents(entries, bucketStart, bucketEnd);
    ghost var sorted := StableSort(events);
    ghost var bestAt: nat := 0;
    if events == [] {
      best := map[];
      NothingHeld(entries, bucketStart, bucketEnd);
    } else {
      forall p, who | 0 <= p <= |sorted| ensures Sum(sorted[..p], who) >= 0 {
        PrefixNonNegative(entries, bucketStart, bucketEnd, p, who);
      }
      best, bestAt := BusiestSnapshot(StableSort(events));
    }
    assert Tallies(best, sorted[..bestAt]);
    cut, at := SnapshotOfTallies(best, entries, bucketStart, bucketEnd, bestAt);
  }

  lemma NothingHeld<U(!new)>(claims: seq<Claim<U>>, from: int, until: int)
    requires Events(claims, from, until) == []
    ensures var sorted := StableSort(Events(claims, from, until));
            var none: map<U, int> := map[];
            Tallies(none, sorted[..0]) && SumValues(none) == Sum(sorted[..0], None) == MaxPrefix(sorted)
  {
  }

  /** The dictionary at a prefix of the sorted events is the snapshot of the split that prefix amounts to. */
  lemma SnapshotOfTallies<U(!new)>(m: map<U, int>, claims: seq<Claim<U>>, from: int, until: int, p: nat)
    returns (cut: nat, at: int)
    requires NonNegative(claims) && p <= |Events(claims, from, until)|
    requires Tallies(m, StableSort(Events(claims, from, until))[..p])
    ensures cut <= |claims| && Snapshot(m, claims, from, until, cut, at)
    ensures Mixed(claims, from, until, cut, at, None) == Sum(StableSort(Events(claims, from, until))[..p], None)
  {
    cut, at := PrefixIsSplit(claims, from, until, p);
    var es := StableSort(Events(claims, from, until))[..p];
    forall u ensures Get(m, u) == Mixed(claims, from, until, cut, at, Some(u)) {
      PrefixNonNegative(claims, from, until, p, Some(u));
      assert Sum(es, Some(u)) == Mixed(claims, from, until, cut, at, Some(u));
      assert u in m <==> Sum(es, Some(u)) > 0;
    }
    forall u | u in m ensures m[u] > 0 {
      assert Sum(es, Some(u)) > 0;
    }
  }

  /** When ends come first inside the bucket, the snapshot is every user's RAM at one real, busiest instant of it. */
  lemma SnapshotIsInstant<U(!new)>(m: map<U, int>, claims: seq<Claim<U>>, from: int, until: int, cut: nat, at: int)
    returns (t: int)
    requires NonNegative(claims) && EndsFirstWithin(claims, from, until) && from < until && cut <= |claims|
    requires Snapshot(m, claims, from, until, cut, at)
    requires Mixed(claims, from, until, cut, at, None) == Peak(claims, from, until)
    ensures from <= t < until
    ensures forall u :: Get(m, u) == Held(claims, from, until, t, Some(u))
    ensures forall t' :: Held(claims, from, until, t', None) <= Held(claims, from, until, t, None)
  {
    t := SplitIsInstant(claims, from, until, cut, at);
    SweepCoversUsage(claims, from, until, t);
    forall u ensures Get(m, u) == Held(claims, from, until, t, Some(u)) {
      DominatedEqual(claims, from, until, cut, at, t, Some(u));
    }
    DominatedEqual(claims, from, until, cut, at, t, None);
    forall t' ensures Held(claims, from, until, t', None) <= Held(claims, from, until, t, None) {
      SweepCoversUsage(claims, from, until, t');
    }
  }

  // ---------------------------------------------------------------- bucket boundaries

  ghost predicate Boundaries(bs: seq<int>, startLocal: int, endLocal: int, step: int) {
    && |bs| > 0
    && (forall i :: 0 <= i < |bs| ==> bs[i] == bs[0] + i * step)
    && bs[0] <= startLocal < bs[0] + step
    && endLocal <= bs[|bs| - 1]
    && (forall i :: 0 <= i < |bs| - 1 ==> bs[i] < endLocal)
  }

  /** The first edge: the last step from local midnight that is not after the range start. */
  lemma FirstEdge(startLocal: int, dayStart: int, step: int)
    requires step > 0 && dayStart <= startLocal
    ensures var t := dayStart + (startLocal - dayStart) / step * step;
            dayStart <= t <= startLocal < t + step && (t - dayStart) % step == 0
  {
    var steps := (startLocal - dayStart) / step;
    DivMod(startLocal - dayStart, step);
    ProductSign(steps, step);
    MultipleMod(steps, step);
  }

  /** `_bucket_boundaries` in a zone at a fixed offset from UTC: edges anchored to local midnight. */
  method BucketBoundaries(rangeStart: int, rangeEnd: int, offset: int, bucketMinutes: int)
    returns (boundaries: seq<int>)
    requires bucketMinutes >= 1
    ensures Boundaries(boundaries, rangeStart + offset, rangeEnd + offset, bucketMinutes * SlotTime.MINUTE)
    ensures var midnight := (rangeStart + offset) / SlotTime.DAY * SlotTime.DAY;
            midnight <= boundaries[0] && (boundaries[0] - midnight) % (bucketMinutes * SlotTime.MINUTE) == 0
  {
    var step := bucketMinutes * SlotTime.MINUTE;
    var startLocal, endLocal := rangeStart + offset, rangeEnd + offset;
    var dayStart := startLocal / SlotTime.DAY * SlotTime.DAY;
    var offsetSteps := (startLocal - dayStart) / step;
    var t := dayStart + offsetSteps * step;
    FirstEdge(startLocal, dayStart, step);
    ghost var first := t;
    boundaries := [t];
    while t < endLocal
      invariant |boundaries| > 0 && boundaries[0] == first
      invariant t == boundaries[|boundaries| - 1] == boundaries[0] + (|boundaries| - 1) * step
      invariant forall i :: 0 <= i < |boundaries| ==> boundaries[i] == boundaries[0] + i * step
      invariant forall i :: 0 <= i < |boundaries| - 1 ==> boundaries[i] < endLocal
    {
      t := t + step;
      boundaries := boundaries + [t];
    }
  }

  /** Every instant of the range lies in exactly one bucket. */
  lemma BucketsTile(bs: seq<int>, startLocal: int, endLocal: int, step: int, t: int) returns (k: nat)
    requires step > 0 && Boundaries(bs, startLocal, endLocal, step) && startLocal <= t < endLocal
    ensures k + 1 < |bs| && bs[k] <= t < bs[k + 1]
    ensures forall k' :: 0 <= k' < |bs| - 1 && bs[k'] <= t < bs[k' + 1] ==> k' == k
  {
    k := StepOf(t - bs[0], step);
    assert k < |bs| - 1;
    assert bs[k + 1] == bs[0] + (k + 1) * step == bs[0] + k * step + step;
    forall k' | 0 <= k' < |bs| - 1 && bs[k'] <= t < bs[k' + 1] ensures k' == k {
      assert bs[k' + 1] == bs[0] + (k' + 1) * step == bs[0] + k' * step + step;
      assert k' * step <= t - bs[0] < k' * step + step;
    }
  }

  // ---------------------------------------------------------------- the chart

  /** `_occupied_window`: a cancelled reservation stops at its cancellation; None if it never occupied the GPU. */
  function OccupiedWindow(r: Reservation): Option<(int, int)> {
    var end := if r.cancelledAt.None? then r.end else Min(r.end, r.cancelledAt.value);
    if end <= r.start then None else Some((r.start, end))
  }

  function Occupied(rows: seq<Reservation>, names: map<int, string>): seq<Claim<string>>
    requires forall i :: 0 <= i < |rows| ==> rows[i].user in names
  {
    if rows == [] then []
    else
      var n := |rows| - 1;
      var window := OccupiedWindow(rows[n]);
      Occupied(rows[..n], names)
      + if window.None? then [] else [Claim(window.value.0, window.value.1, names[rows[n].user], rows[n].ram)]
  }

  datatype Bucket = Bucket(start: int, end: int, usage: map<string, int>)

  lemma {:induction false} OccupiedPositive(rows: seq<Reservation>, names: map<int, string>)
    requires forall i :: 0 <= i < |rows| ==> rows[i].user in names && rows[i].ram > 0
    ensures Positive(Occupied(rows, names)) && Proper(Occupied(rows, names))
  {
    if rows != [] {
      OccupiedPositive(rows[..|rows| - 1], names);
    }
  }

  lemma {:induction false} OverlappingKeeps<U>(claims: seq<Claim<U>>, from: int, until: int)
    ensures Positive(claims) ==> Positive(Overlapping(claims, from, until))
    ensures forall i :: 0 <= i < |Overlapping(claims, from, until)| ==> Overlapping(claims, from, until)[i] in claims
  {
    if claims != [] {
      OverlappingKeeps(claims[..|claims| - 1], from, until);
    }
  }

  /** RAM the claims hold at tick t, with no window. */
  ghost function RamAt<U>(claims: seq<Claim<U>>, t: int): int {
    Held(claims, t, t + 1, t, None)
  }

  /** Every user's RAM at one split of the claims that attains their sweep. */
  ghost predicate Breakdown<U(!new)>(m: map<U, int>, claims: seq<Claim<U>>, from: int, until: int) {
    exists cut: nat, at: int :: cut <= |claims|
      && Snapshot(m, claims, from, until, cut, at)
      && Mixed(claims, from, until, cut, at, None) == Peak(claims, from, until)
  }

  /** What a bucket shows of these claims: a breakdown by user whose total is their sweep. */
  ghost predicate UsageOf<U(!new)>(usage: map<U, int>, claims: seq<Claim<U>>, from: int, until: int) {
    Breakdown(usage, claims, from, until) && SumValues(usage) == Peak(claims, from, until)
  }

  /** The bucket between two edges. */
  ghost predicate IsBucket(b: Bucket, start: int, end: int, occupied: seq<Claim<string>>, offset: int) {
    && b.start == start && b.end == end
    && UsageOf(b.usage, occupied, start - offset, end - offset)
  }

  ghost predicate BucketsOf(buckets: seq<Bucket>, bs: seq<int>, occupied: seq<Claim<string>>, offset: int) {
    && |bs| == |buckets| + 1
    && forall k {:trigger buckets[k]} :: 0 <= k < |buckets| ==> IsBucket(buckets[k], bs[k], bs[k + 1], occupied, offset)
  }

  /** The bucket loop of `build_occupancy_chart`, in a zone at a fixed offset; bucket edges are local instants. */
  method BuildOccupancyBuckets(rows: seq<Reservation>, names: map<int, string>,
                               rangeStart: int, rangeEnd: int, offset: int, bucketWidth: int)
    returns (buckets: seq<Bucket>, ghost boundaries: seq<int>)
    requires forall i :: 0 <= i < |rows| ==> rows[i].user in names && rows[i].ram > 0
    ensures Boundaries(boundaries, rangeStart + offset, rangeEnd + offset, Max(bucketWidth, 1) * SlotTime.MINUTE)
    ensures BucketsOf(buckets, boundaries, Occupied(rows, names), offset)
  {
    var occupied := CollectOccupied(rows, names);
    OccupiedPositive(rows, names);
    var edges := BucketBoundaries(rangeStart, rangeEnd, offset, Max(bucketWidth, 1));
    boundaries := edges;
    buckets := [];
    assert BucketsOf(buckets, edges[..1], occupied, offset);
    hide Peak, SumValues, Occupied, Boundaries, BucketsOf;
    for k := 0 to |edges| - 1
      invariant BucketsOf(buckets, edges[..k + 1], occupied, offset)
    {
      var bStart, bEnd := edges[k] - offset, edges[k + 1] - offset;
      var usage := BucketUsage(occupied, bStart, bEnd);
      assert edges[..k + 2] == edges[..k + 1] + [edges[k + 1]];
      BucketsExtend(buckets, edges[..k + 1], occupied, offset, Bucket(edges[k], edges[k + 1], usage), edges[k + 1]);
      buckets := buckets + [Bucket(edges[k], edges[k + 1], usage)];
    }
    assert edges[..|edges|] == edges;
  }

  method CollectOccupied(rows: seq<Reservation>, names: map<int, string>) returns (occupied: seq<Claim<string>>)
    requires forall i :: 0 <= i < |rows| ==> rows[i].user in names
    ensures occupied == Occupied(rows, names)
  {
    occupied := [];
    for i := 0 to |rows|
      invariant occupied == Occupied(rows[..i], names)
    {
      assert rows[..i + 1][..i] == rows[..i];
      var window := OccupiedWindow(rows[i]);
      if window.Some? {
        occupied := occupied + [Claim(window.value.0, window.value.1, names[rows[i].user], rows[i].ram)];
      }
    }
    assert rows[..|rows|] == rows;
  }

  /** A split of the claims that overlap the window is a split of all the claims. */
  lemma SplitOfAll<U>(claims: seq<Claim<U>>, from: int, until: int, cut: nat, at: int) returns (m: nat)
    requires cut <= |Overlapping(claims, from, until)|
    ensures m <= |claims|
    ensures forall who :: Mixed(Overlapping(claims, from, until), from, until, cut, at, who) == Mixed(claims, from, until, m, at, who)
  {
    var entries := Overlapping(claims, from, until);
    OverlappingEvents(claims, from, until);
    var k := |Events(entries[..cut], from, until)|;
    m := CutIsSplit(claims, from, until, at, k);
    forall who ensures Mixed(entries, from, until, cut, at, who) == Mixed(claims, from, until, m, at, who) {
      SplitIsCut(entries, from, until, cut, at, who);
    }
  }

  method BucketUsage(occupied: seq<Claim<string>>, bStart: int, bEnd: int) returns (usage: map<string, int>)
    requires Positive(occupied)
    ensures Breakdown(usage, occupied, bStart, bEnd)
    ensures SumValues(usage) == Peak(occupied, bStart, bEnd)
  {
    hide Peak, SumValues, Mixed;
    var entries := Overlapping(occupied, bStart, bEnd);
    OverlappingKeeps(occupied, bStart, bEnd);
    OverlappingPeak(occupied, bStart, bEnd);
    ghost var cut, at;
    usage, cut, at := PeakUsageBreakdown(entries, bStart, bEnd);
    ghost var m := SplitOfAll(occupied, bStart, bEnd, cut, at);
    assert Snapshot(usage, occupied, bStart, bEnd, m, at);
  }

  lemma OverlappingPeak<U>(claims: seq<Claim<U>>, from: int, until: int)
    ensures Peak(Overlapping(claims, from, until), from, until) == Peak(claims, from, until)
  {
    OverlappingEvents(claims, from, until);
  }

  lemma BucketsExtend(
      buckets: seq<Bucket>, bs: seq<int>, occupied: seq<Claim<string>>, offset: int, b: Bucket, edge: int)
    requires BucketsOf(buckets, bs, occupied, offset)
    requires IsBucket(b, bs[|bs| - 1], edge, occupied, offset)
    ensures BucketsOf(buckets + [b], bs + [edge], occupied, offset)
  {
    var more, edges := buckets + [b], bs + [edge];
    forall k | 0 <= k < |more| ensures IsBucket(more[k], edges[k], edges[k + 1], occupied, offset) {
      if k < |buckets| {
        assert IsBucket(buckets[k], bs[k], bs[k + 1], occupied, offset);
        assert edges[k] == bs[k] && edges[k + 1] == bs[k + 1];
      }
    }
  }

  /** Every instant of the range lies in exactly one bucket, whose total is at least the RAM held then. */
  lemma BucketsTileAndDominate(
      buckets: seq<Bucket>, bs: seq<int>, occupied: seq<Claim<string>>,
      rangeStart: int, rangeEnd: int, offset: int, step: int, t: int) returns (k: nat)
    requires step > 0 && Boundaries(bs, rangeStart + offset, rangeEnd + offset, step)
    requires BucketsOf(buckets, bs, occupied, offset)
    requires rangeStart <= t < rangeEnd
    ensures k < |buckets| && buckets[k].start <= t + offset < buckets[k].end
    ensures forall k' :: 0 <= k' < |buckets| && buckets[k'].start <= t + offset < buckets[k'].end ==> k' == k
    ensures RamAt(occupied, t) <= SumValues(buckets[k].usage)
  {
    hide Peak, SumValues, Held;
    k := BucketsTile(bs, rangeStart + offset, rangeEnd + offset, step, t + offset);
    forall k' | 0 <= k' < |buckets| && buckets[k'].start <= t + offset < buckets[k'].end ensures k' == k {
      assert IsBucket(buckets[k'], bs[k'], bs[k' + 1], occupied, offset);
    }
    var from, until := bs[k] - offset, bs[k + 1] - offset;
    assert IsBucket(buckets[k], bs[k], bs[k + 1], occupied, offset);
    HeldInside(occupied, t, t + 1, from, until, t, None);
    SweepCoversUsage(occupied, from, until, t);
  }

  /** When ends come first inside it, a bucket reads above the capacity only if the GPU was, at an instant of it. */
  lemma BucketsWithinCapacity(
      buckets: seq<Bucket>, bs: seq<int>, occupied: seq<Claim<string>>,
      startLocal: int, endLocal: int, offset: int, step: int, capacity: int, k: nat)
    requires step > 0 && Boundaries(bs, startLocal, endLocal, step) && BucketsOf(buckets, bs, occupied, offset)
    requires NonNegative(occupied) && k < |buckets|
    requires EndsFirstWithin(occupied, buckets[k].start - offset, buckets[k].end - offset)
    requires forall t :: buckets[k].start <= t + offset < buckets[k].end ==> RamAt(occupied, t) <= capacity
    ensures SumValues(buckets[k].usage) <= capacity
  {
    hide Peak, SumValues, Breakdown, Held;
    var from, until := bs[k] - offset, bs[k + 1] - offset;
    StepGap(k, k + 1, step);
    assert IsBucket(buckets[k], bs[k], bs[k + 1], occupied, offset);
    var t := SweepExact(occupied, from, until);
    HeldInside(occupied, t, t + 1, from, until, t, None);
    assert RamAt(occupied, t) <= capacity;
  }

  /** When ends come first inside it, a bucket is every owner's RAM at one real instant of it, and a busiest one. */
  lemma BucketAtInstant(
      buckets: seq<Bucket>, bs: seq<int>, occupied: seq<Claim<string>>,
      startLocal: int, endLocal: int, offset: int, step: int, k: nat) returns (t: int)
    requires step > 0 && Boundaries(bs, startLocal, endLocal, step) && BucketsOf(buckets, bs, occupied, offset)
    requires NonNegative(occupied) && k < |buckets|
    requires EndsFirstWithin(occupied, buckets[k].start - offset, buckets[k].end - offset)
    ensures buckets[k].start <= t + offset < buckets[k].end
    ensures forall u :: Get(buckets[k].usage, u) == Held(occupied, t, t + 1, t, Some(u))
    ensures forall t' :: buckets[k].start <= t' + offset < buckets[k].end ==> RamAt(occupied, t') <= RamAt(occupied, t)
  {
    hide Peak, SumValues, Mixed;
    var from, until := bs[k] - offset, bs[k + 1] - offset;
    StepGap(k, k + 1, step);
    assert IsBucket(buckets[k], bs[k], bs[k + 1], occupied, offset);
    var usage := buckets[k].usage;
    var cut: nat, at: int :| cut <= |occupied| && Snapshot(usage, occupied, from, until, cut, at)
                             && Mixed(occupied, from, until, cut, at, None) == Peak(occupied, from, until);
    t := SnapshotIsInstant(usage, occupied, from, until, cut, at);
    forall u ensures Get(usage, u) == Held(occupied, t, t + 1, t, Some(u)) {
      HeldInside(occupied, t, t + 1, from, until, t, Some(u));
    }
    HeldInside(occupied, t, t + 1, from, until, t, None);
    forall t' | from <= t' < until ensures RamAt(occupied, t') <= RamAt(occupied, t) {
      HeldInside(occupied, t', t' + 1, from, until, t', None);
    }
  }

  // ---------------------------------------------------------------- the chart against the stored rows

  /** The row occupied its GPU at t: inside its window, and before its cancellation if it was cancelled. */
  predicate OccupiesAt(r: Reservation, t: int) {
    r.start <= t < r.end && (r.cancelledAt.Some? ==> t < r.cancelledAt.value)
  }

  /** The RAM that the rows of the users of this name (of all users, for None) occupied at t. */
  ghost function UserRamAt(rows: seq<Reservation>, names: map<int, string>, who: Option<string>, t: int): int
    requires forall i :: 0 <= i < |rows| ==> rows[i].user in names
  {
    if rows == [] then 0
    else
      var r := rows[|rows| - 1];
      UserRamAt(rows[..|rows| - 1], names, who, t)
      + if OccupiesAt(r, t) && (who.Some? ==> names[r.user] == who.value) then r.ram else 0
  }

  lemma HeldPush<U>(claims: seq<Claim<U>>, c: Claim<U>, from: int, until: int, t: int, who: Option<U>)
    ensures Held(claims + [c], from, until, t, who) == Held(claims, from, until, t, who) + Cover(c, from, until, t, who)
  {
    assert (claims + [c])[..|claims|] == claims;
  }

  /** The charted windows hold, under every user's name and inside any window, what that user's rows occupied. */
  lemma {:induction false} OccupiedByUser(
      rows: seq<Reservation>, names: map<int, string>, who: Option<string>, from: int, until: int, t: int)
    requires forall i :: 0 <= i < |rows| ==> rows[i].user in names
    ensures Held(Occupied(rows, names), from, until, t, who)
         == if from <= t < until then UserRamAt(rows, names, who, t) else 0
  {
    if rows != [] {
      var n := |rows| - 1;
      OccupiedByUser(rows[..n], names, who, from, until, t);
      var window := OccupiedWindow(rows[n]);
      if window.Some? {
        HeldPush(Occupied(rows[..n], names),
                 Claim(window.value.0, window.value.1, names[rows[n].user], rows[n].ram), from, until, t, who);
      } else {
        assert Occupied(rows, names) == Occupied(rows[..n], names);
      }
    }
  }

  /** When ends come first inside it, a bucket shows every user's RAM at one real instant of it, and a busiest one. */
  lemma BucketIsInstant(
      buckets: seq<Bucket>, bs: seq<int>, rows: seq<Reservation>, names: map<int, string>,
      startLocal: int, endLocal: int, offset: int, step: int, k: nat) returns (t: int)
    requires forall i :: 0 <= i < |rows| ==> rows[i].user in names && rows[i].ram > 0
    requires step > 0 && Boundaries(bs, startLocal, endLocal, step)
    requires BucketsOf(buckets, bs, Occupied(rows, names), offset) && k < |buckets|
    requires EndsFirstWithin(Occupied(rows, names), buckets[k].start - offset, buckets[k].end - offset)
    ensures buckets[k].start <= t + offset < buckets[k].end
    ensures forall name :: Get(buckets[k].usage, name) == UserRamAt(rows, names, Some(name), t)
    ensures forall t' :: buckets[k].start <= t' + offset < buckets[k].end ==>
      UserRamAt(rows, names, None, t') <= UserRamAt(rows, names, None, t)
  {
    hide Occupied, Held, Boundaries, BucketsOf;
    OccupiedPositive(rows, names);
    t := BucketAtInstant(buckets, bs, Occupied(rows, names), startLocal, endLocal, offset, step, k);
    forall name ensures Get(buckets[k].usage, name) == UserRamAt(rows, names, Some(name), t) {
      OccupiedByUser(rows, names, Some(name), t, t + 1, t);
    }
    OccupiedByUser(rows, names, None, t, t + 1, t);
    forall t' | buckets[k].start <= t' + offset < buckets[k].end
      ensures UserRamAt(rows, names, None, t') <= UserRamAt(rows, names, None, t)
    {
      OccupiedByUser(rows, names, None, t', t' + 1, t');
      assert RamAt(Occupied(rows, names), t') <= RamAt(Occupied(rows, names), t);
    }
  }

  lemma {:induction false} OccupiedAppend(a: seq<Reservation>, b: seq<Reservation>, names: map<int, string>)
    requires forall i :: 0 <= i < |a| ==> a[i].user in names
    requires forall i :: 0 <= i < |b| ==> b[i].user in names
    ensures Occupied(a + b, names) == Occupied(a, names) + Occupied(b, names)
  {
    if b == [] {
      assert a + b == a;
    } else {
      assert (a + b)[..|a + b| - 1] == a + b[..|b| - 1];
      OccupiedAppend(a, b[..|b| - 1], names);
    }
  }

  /** Every front part of the windows is the windows of a front part of the rows. */
  lemma {:induction false} OccupiedFront(rows: seq<Reservation>, names: map<int, string>, cut: nat) returns (c: nat)
    requires forall i :: 0 <= i < |rows| ==> rows[i].user in names
    requires cut <= |Occupied(rows, names)|
    ensures c <= |rows| && Occupied(rows[..c], names) == Occupied(rows, names)[..cut]
  {
    if cut == |Occupied(rows, names)| {
      c := |rows|;
      assert rows[..c] == rows;
    } else {
      var n := |rows| - 1;
      c := OccupiedFront(rows[..n], names, cut);
      assert rows[..n][..c] == rows[..c];
    }
  }

  /** What the rows of a user occupied at t, if t is in the window. */
  ghost function UserRamIn(
      rows: seq<Reservation>, names: map<int, string>, who: Option<string>, from: int, until: int, t: int): int
    requires forall i :: 0 <= i < |rows| ==> rows[i].user in names
  {
    if from <= t < until then UserRamAt(rows, names, who, t) else 0
  }

  lemma MixedByUser(
      claims: seq<Claim<string>>, cut: nat, rows: seq<Reservation>, c: nat, names: map<int, string>, who: Option<string>,
      from: int, until: int, at: int)
    requires forall i :: 0 <= i < |rows| ==> rows[i].user in names
    requires cut <= |claims| && c <= |rows|
    requires claims[..cut] == Occupied(rows[..c], names) && claims[cut..] == Occupied(rows[c..], names)
    ensures Mixed(claims, from, until, cut, at, who)
         == UserRamIn(rows[..c], names, who, from, until, at) + UserRamIn(rows[c..], names, who, from, until, at - 1)
  {
    hide Held, Occupied;
    OccupiedByUser(rows[..c], names, who, from, until, at);
    OccupiedByUser(rows[c..], names, who, from, until, at - 1);
  }

  /**
    In any order, a bucket shows under every user's name that user's own RAM: what their rows among the
    first c listed occupied at one instant, and their other rows one tick before, inside the bucket.
  */
  lemma BucketIsSplit(
      b: Bucket, start: int, end: int, rows: seq<Reservation>, names: map<int, string>, offset: int)
    returns (c: nat, at: int)
    requires forall i :: 0 <= i < |rows| ==> rows[i].user in names
    requires IsBucket(b, start, end, Occupied(rows, names), offset)
    ensures c <= |rows|
    ensures var from, until := start - offset, end - offset;
            forall name ::
              Get(b.usage, name) == UserRamIn(rows[..c], names, Some(name), from, until, at)
                                  + UserRamIn(rows[c..], names, Some(name), from, until, at - 1)
  {
    hide Peak, SumValues, Held, Mixed, Occupied, UserRamIn;
    var from, until, claims := start - offset, end - offset, Occupied(rows, names);
    var cut: nat;
    cut, at :| cut <= |claims| && Snapshot(b.usage, claims, from, until, cut, at)
               && Mixed(claims, from, until, cut, at, None) == Peak(claims, from, until);
    c := OccupiedFront(rows, names, cut);
    assert rows[..c] + rows[c..] == rows;
    OccupiedAppend(rows[..c], rows[c..], names);
    assert claims[cut..] == Occupied(rows[c..], names);
    forall name ensures Get(b.usage, name)
      == UserRamIn(rows[..c], names, Some(name), from, until, at)
       + UserRamIn(rows[c..], names, Some(name), from, until, at - 1)
    {
      MixedByUser(claims, cut, rows, c, names, Some(name), from, until, at);
    }
  }

  // ---------------------------------------------------------------- every order

  /** Every window of every list has something to show. */
  lemma SomeUsage<U(!new)>(claims: seq<Claim<U>>, from: int, until: int) returns (usage: map<U, int>)
    requires NonNegative(claims)
    ensures UsageOf(usage, claims, from, until)
  {
    var sorted := StableSort(Events(claims, from, until));
    var p := PrefixAttained(sorted);
    forall q, who | 0 <= q <= p ensures Sum(sorted[..p][..q], who) >= 0 {
      assert sorted[..p][..q] == sorted[..q];
      PrefixNonNegative(claims, from, until, q, who);
    }
    usage := SomeTallies(sorted[..p]);
    hide Sum, MaxPrefix, Tallies, SumValues, Mixed;
    var cut, at := SnapshotOfTallies(usage, claims, from, until, p);
  }

  /**
    A bucket can never exceed a capacity that every instant of it respects, whatever the amounts of RAM,
    if and only if no claim ends, strictly inside it, where a claim listed before it starts.
  */
  lemma BucketNeverOverCapacity<U(!new)>(claims: seq<Claim<U>>, from: int, until: int)
    requires Proper(claims) && from < until
    ensures EndsFirstWithin(claims, from, until)
       <==> forall other, usage, capacity ::
              SameIntervals(claims, other) && PositiveRam(other) && UsageOf(usage, other, from, until)
              && AtMostThroughout(other, from, until, capacity) ==>
              SumValues(usage) <= capacity
  {
    hide Peak, Held, SumValues, Breakdown, AtMostThroughout;
    CapacityOrders(claims, from, until);
    if !EndsFirstWithin(claims, from, until) {
      var other, capacity :|
        SameIntervals(claims, other) && PositiveRam(other) && AtMostThroughout(other, from, until, capacity)
        && Peak(other, from, until) > capacity;
      var usage := SomeUsage(other, from, until);
    }
  }
}
