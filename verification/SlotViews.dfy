/**
  The slot view: one sweep per slot of a range, from one query. The slots tile the range, and their
  smallest value is what a booking of the whole range could request exactly when no tie is counted
  by the one and not by the other. A tie at a slot's edge is counted by no slot.
*/
module SlotViews {
  import opened Arithmetic
  import opened Measures
  import opened Sweep
  import opened SweepOrder
  import opened SweepProperties
  import opened SweepReorder
  import opened Wrappers

  lemma {:induction false} OverrunDominated<U>(
      claims: seq<Claim<U>>, from: int, until: int, slotEnd: int, m: nat, at: int)
    requires m <= |claims| && NonNegative(claims) && from < until <= at
    requires forall i :: 0 <= i < |claims| ==> claims[i].start < until
    ensures Mixed(claims, from, slotEnd, m, at, None) <= Held(claims, from, until, until - 1, None)
  {
    if claims != [] {
      var n := |claims| - 1;
      OverrunDominated(claims[..n], from, until, slotEnd, Min(m, n), at);
      MixedLast(claims, from, slotEnd, m, at, None);
    }
  }

  lemma {:induction false} InsideMonotone<U>(
      claims: seq<Claim<U>>, from: int, until: int, slotEnd: int, m: nat, at: int)
    requires m <= |claims| && NonNegative(claims) && at < until
    ensures Mixed(claims, from, slotEnd, m, at, None) <= Mixed(claims, from, until, m, at, None)
  {
    if claims != [] {
      var n := |claims| - 1;
      InsideMonotone(claims[..n], from, until, slotEnd, Min(m, n), at);
      MixedLast(claims, from, slotEnd, m, at, None);
      MixedLast(claims, from, until, m, at, None);
    }
  }

  /** A slot starting inside the range never sweeps above the range, even when it runs past the range's end. */
  lemma SlotWithinRange<U>(claims: seq<Claim<U>>, from: int, until: int, slotStart: int, slotEnd: int)
    requires NonNegative(claims) && from <= slotStart < until
    requires forall i :: 0 <= i < |claims| ==> claims[i].start < until
    ensures Peak(claims, slotStart, slotEnd) <= Peak(claims, from, until)
  {
    hide Peak, Mixed, Held;
    var m, at := SplitAttained(claims, slotStart, slotEnd);
    if at < until {
      InsideMonotone(claims, slotStart, until, slotEnd, m, at);
      SplitBound(claims, slotStart, until, m, at);
    } else {
      OverrunDominated(claims, slotStart, until, slotEnd, m, at);
      SweepCoversUsage(claims, slotStart, until, until - 1);
    }
    SweepMonotone(claims, from, until, slotStart, until);
  }

  /** Consecutive slots (start, free RAM) of one width, each starting inside the range. */
  ghost predicate SlotPrefix<U>(
      slots: seq<(int, int)>, claims: seq<Claim<U>>, from: int, until: int, step: int, total: int) {
    forall k :: 0 <= k < |slots| ==>
      && slots[k].0 == from + k * step
      && slots[k].0 < until
      && slots[k].1 == total - Peak(claims, slots[k].0, slots[k].0 + step)
  }

  /** All the slots of a range: the last one reaches its end. */
  ghost predicate SlotView<U>(
      slots: seq<(int, int)>, claims: seq<Claim<U>>, from: int, until: int, step: int, total: int) {
    SlotPrefix(slots, claims, from, until, step, total) && until <= from + |slots| * step
  }

  lemma SlotPush<U>(
      slots: seq<(int, int)>, claims: seq<Claim<U>>, from: int, until: int, step: int, total: int, slotStart: int)
    requires SlotPrefix(slots, claims, from, until, step, total)
    requires slotStart == from + |slots| * step && slotStart < until
    ensures SlotPrefix(slots + [(slotStart, total - Peak(claims, slotStart, slotStart + step))], claims, from, until, step, total)
    ensures slotStart + step == from + (|slots| + 1) * step
  {
    hide Peak;
  }

  /** Every instant of the range lies in exactly one slot of the view. */
  lemma SlotsTile<U>(
      slots: seq<(int, int)>, claims: seq<Claim<U>>, from: int, until: int, step: int, total: int, t: int)
    returns (k: nat)
    requires step > 0 && SlotView(slots, claims, from, until, step, total) && from <= t < until
    ensures k < |slots| && slots[k].0 <= t < slots[k].0 + step
    ensures forall k' :: 0 <= k' < |slots| && slots[k'].0 <= t < slots[k'].0 + step ==> k' == k
  {
    hide Peak;
    k := StepOf(t - from, step);
    forall k' | 0 <= k' < |slots| && slots[k'].0 <= t < slots[k'].0 + step ensures k' == k {
      assert k' * step <= t - from < k' * step + step;
    }
  }

  lemma SlotViewLower<U>(
      slots: seq<(int, int)>, claims: seq<Claim<U>>, from: int, until: int, step: int, total: int, k: nat)
    requires step > 0 && NonNegative(claims) && SlotView(slots, claims, from, until, step, total)
    requires forall i :: 0 <= i < |claims| ==> claims[i].start < until
    requires k < |slots|
    ensures slots[k].1 >= total - Peak(claims, from, until)
  {
    hide Peak;
    StepGap(0, k, step);
    SlotWithinRange(claims, from, until, slots[k].0, slots[k].0 + step);
  }

  lemma SlotViewUpper<U>(
      slots: seq<(int, int)>, claims: seq<Claim<U>>, from: int, until: int, step: int, total: int, t: int)
    returns (k: nat)
    requires step > 0 && SlotView(slots, claims, from, until, step, total) && from <= t < until
    ensures k < |slots| && slots[k].1 <= total - Held(claims, from, until, t, None)
  {
    hide Peak, Held;
    k := SlotsTile(slots, claims, from, until, step, total, t);
    HeldInside(claims, from, until, slots[k].0, slots[k].0 + step, t, None);
    SweepCoversUsage(claims, slots[k].0, slots[k].0 + step, t);
  }

  ghost predicate SomeSlotAtMost(slots: seq<(int, int)>, bound: int) {
    exists k :: 0 <= k < |slots| && slots[k].1 <= bound
  }

  /**
    The smallest slot value lies between the range view (total minus the whole-range sweep) and
    total minus the true peak.
  */
  lemma SlotViewSandwich<U>(
      slots: seq<(int, int)>, claims: seq<Claim<U>>, from: int, until: int, step: int, total: int)
    requires step > 0 && NonNegative(claims) && SlotView(slots, claims, from, until, step, total)
    requires forall i :: 0 <= i < |claims| ==> claims[i].start < until
    ensures forall k :: 0 <= k < |slots| ==> slots[k].1 >= total - Peak(claims, from, until)
    ensures forall t :: from <= t < until ==> SomeSlotAtMost(slots, total - Held(claims, from, until, t, None))
  {
    hide Peak, Held;
    forall k | 0 <= k < |slots| ensures slots[k].1 >= total - Peak(claims, from, until) {
      SlotViewLower(slots, claims, from, until, step, total, k);
    }
    forall t | from <= t < until
      ensures SomeSlotAtMost(slots, total - Held(claims, from, until, t, None))
    {
      var k := SlotViewUpper(slots, claims, from, until, step, total, t);
    }
  }

  // ---------------------------------------------------------------- one list

  /** The instant is where one slot ends and the next one starts. */
  predicate AtEdge(t: int, from: int, step: int)
    requires step > 0
  {
    (t - from) % step == 0
  }

  /** No claim ends, strictly inside the range, at a slot edge where a claim listed before it starts. */
  ghost predicate EndsFirstAtEdges<U>(claims: seq<Claim<U>>, from: int, until: int, step: int)
    requires step > 0
  {
    forall i, j :: 0 <= i < j < |claims| && from < claims[i].start < until && AtEdge(claims[i].start, from, step) ==>
      claims[j].end != claims[i].start
  }

  lemma EdgeOutside(t: int, from: int, step: int, k: nat)
    requires step > 0 && AtEdge(t, from, step)
    ensures t <= from + k * step || from + k * step + step <= t
  {
    DivMod(t - from, step);
    StepGap((t - from) / step, k, step);
    StepGap(k, (t - from) / step, step);
  }

  lemma EdgeAt(from: int, step: int, k: nat)
    requires step > 0
    ensures AtEdge(from + k * step, from, step)
  {
    MultipleMod(k, step);
  }

  lemma MixedInside<U>(
      claims: seq<Claim<U>>, from: int, until: int, from': int, until': int, m: nat, at: int)
    requires m <= |claims| && from < at < until && from' < at < until'
    ensures Mixed(claims, from, until, m, at, None) == Mixed(claims, from', until', m, at, None)
  {
    HeldInside(claims[..m], from, until, from', until', at, None);
    HeldInside(claims[m..], from, until, from', until', at - 1, None);
  }

  /** With ends first at the edges, some slot, cut off at the range's end, sweeps as high as the whole range. */
  lemma SlotSeesSweep<U>(claims: seq<Claim<U>>, from: int, until: int, step: int) returns (k: nat)
    requires step > 0 && NonNegative(claims) && from < until && EndsFirstAtEdges(claims, from, until, step)
    ensures from + k * step < until
    ensures Peak(claims, from, until) <= Peak(claims, from + k * step, Min(from + k * step + step, until))
  {
    hide Peak, Mixed, Held;
    var m, at := SplitAttained(claims, from, until);
    if from < at < until && !AtEdge(at, from, step) {
      k := StepOf(at - from, step);
      EdgeAt(from, step, k);
      MixedInside(claims, from, until, from + k * step, Min(from + k * step + step, until), m, at);
      SplitBound(claims, from + k * step, Min(from + k * step + step, until), m, at);
    } else {
      var t := SplitIsInstant(claims, from, until, m, at);
      DominatedSum(claims, from, until, m, at, t);
      k := StepOf(t - from, step);
      HeldInside(claims, from, until, from + k * step, Min(from + k * step + step, until), t, None);
      SweepCoversUsage(claims, from + k * step, Min(from + k * step + step, until), t);
    }
  }

  /** With ends first at the edges, the smallest slot value is exactly the range view of the same list. */
  lemma SlotViewExact<U>(
      slots: seq<(int, int)>, claims: seq<Claim<U>>, from: int, until: int, step: int, total: int) returns (k: nat)
    requires step > 0 && NonNegative(claims) && EndsFirstAtEdges(claims, from, until, step)
    requires SlotView(slots, claims, from, until, step, total)
    requires forall i :: 0 <= i < |claims| ==> claims[i].start < until
    requires from < until
    ensures k < |slots| && slots[k].1 == total - Peak(claims, from, until)
    ensures forall k' :: 0 <= k' < |slots| ==> slots[k].1 <= slots[k'].1
  {
    hide Peak, Held;
    k := SlotSeesSweep(claims, from, until, step);
    StepGap(|slots|, k, step);
    SweepMonotone(claims, slots[k].0, slots[k].0 + step, slots[k].0, Min(slots[k].0 + step, until));
    forall k' | 0 <= k' < |slots| ensures slots[k'].1 >= total - Peak(claims, from, until) {
      SlotViewLower(slots, claims, from, until, step, total, k');
    }
  }

  // ---------------------------------------------------------------- the slots of one answer, the sweep of another

  /** Every slot has that much free RAM, so the view lets it be requested. */
  ghost predicate Requestable(slots: seq<(int, int)>, ram: int) {
    forall k :: 0 <= k < |slots| ==> ram <= slots[k].1
  }

  /** `free` is the largest amount that the view lets be requested. */
  ghost predicate Shows(slots: seq<(int, int)>, free: int) {
    forall ram: int :: Requestable(slots, ram) <==> ram <= free
  }

  /** Some slot sweeps as high as the whole range: the slots do not show more than is free. */
  ghost predicate NotTooMuch<U>(shown: seq<Claim<U>>, booked: seq<Claim<U>>, from: int, until: int, step: int) {
    exists k: nat :: SlotReaches(shown, booked, from, until, step, k)
  }

  ghost predicate SlotReaches<U>(
      shown: seq<Claim<U>>, booked: seq<Claim<U>>, from: int, until: int, step: int, k: nat) {
    from + k * step < until && Peak(booked, from, until) <= Peak(shown, from + k * step, from + k * step + step)
  }

  /** No slot sweeps higher than the whole range: the slots do not show less than is free. */
  ghost predicate NotTooLittle<U>(shown: seq<Claim<U>>, booked: seq<Claim<U>>, from: int, until: int, step: int) {
    forall k: nat :: SlotWithin(shown, booked, from, until, step, k)
  }

  ghost predicate SlotWithin<U>(
      shown: seq<Claim<U>>, booked: seq<Claim<U>>, from: int, until: int, step: int, k: nat) {
    from + k * step < until ==> Peak(shown, from + k * step, from + k * step + step) <= Peak(booked, from, until)
  }

  /** Every tie that the booking's answer lists start-first is off the edges and start-first in the slots' answer. */
  ghost predicate BookedTiesShown<U>(
      base: seq<Claim<U>>, shown: seq<nat>, booked: seq<nat>, from: int, until: int, step: int)
    requires step > 0
  {
    forall a: nat, b: nat :: Tie(base, a, b, from, until) && ListedBefore(booked, a, b) ==>
      !AtEdge(base[a].start, from, step) && ListedBefore(shown, a, b)
  }

  /** Every tie off the edges that the slots' answer lists start-first is start-first in the booking's answer. */
  ghost predicate ShownTiesBooked<U>(
      base: seq<Claim<U>>, shown: seq<nat>, booked: seq<nat>, from: int, until: int, step: int)
    requires step > 0
  {
    forall a: nat, b: nat :: Tie(base, a, b, from, until) && ListedBefore(shown, a, b) && !AtEdge(base[a].start, from, step) ==>
      ListedBefore(booked, a, b)
  }

  /** Two answers to one query. */
  ghost predicate SameRows(base_size: nat, shown: seq<nat>, booked: seq<nat>) {
    && Below(shown, base_size) && Below(booked, base_size) && Distinct(shown) && Distinct(booked)
    && Included(shown, booked) && Included(booked, shown)
  }

  lemma BookedEdges<U>(base: seq<Claim<U>>, shown: seq<nat>, booked: seq<nat>, from: int, until: int, step: int)
    requires step > 0 && SameRows(|base|, shown, booked) && BookedTiesShown(base, shown, booked, from, until, step)
    ensures EndsFirstAtEdges(Pick(base, booked), from, until, step)
  {
    var claims := Pick(base, booked);
    forall i, j | 0 <= i < j < |claims| && from < claims[i].start < until && AtEdge(claims[i].start, from, step)
      ensures claims[j].end != claims[i].start
    {
      assert ListedBefore(booked, booked[i], booked[j]);
      assert !Tie(base, booked[i], booked[j], from, until);
    }
  }

  lemma TiesShownSweep<U>(base: seq<Claim<U>>, shown: seq<nat>, booked: seq<nat>, from: int, until: int, step: int)
    requires step > 0 && SameRows(|base|, shown, booked) && Proper(base) && NonNegative(base) && from < until
    requires BookedTiesShown(base, shown, booked, from, until, step)
    ensures NotTooMuch(Pick(base, shown), Pick(base, booked), from, until, step)
  {
    hide Peak;
    BookedEdges(base, shown, booked, from, until, step);
    var k := SlotSeesSweep(Pick(base, booked), from, until, step);
    var start, end := from + k * step, from + k * step + step;
    StepGap(0, k, step);
    TiesKeptSweep(base, shown, start, end, booked, start, Min(end, until));
    assert SlotReaches(Pick(base, shown), Pick(base, booked), from, until, step, k);
  }

  lemma TiesBookedSweep<U>(
      base: seq<Claim<U>>, shown: seq<nat>, booked: seq<nat>, from: int, until: int, step: int, k: nat)
    requires step > 0 && SameRows(|base|, shown, booked) && Proper(base) && NonNegative(base) && from < until
    requires forall x :: x in shown ==> base[x].start < until
    requires ShownTiesBooked(base, shown, booked, from, until, step) && from + k * step < until
    ensures SlotWithin(Pick(base, shown), Pick(base, booked), from, until, step, k)
  {
    hide Peak;
    var start, end := from + k * step, from + k * step + step;
    StepGap(0, k, step);
    forall a: nat, b: nat | Tie(base, a, b, start, Min(end, until)) && ListedBefore(shown, a, b) ensures ListedBefore(booked, a, b) {
      if AtEdge(base[a].start, from, step) {
        EdgeOutside(base[a].start, from, step, k);
      }
      assert Tie(base, a, b, from, until);
    }
    TiesKeptSweep(base, booked, from, until, shown, start, Min(end, until));
    if until < end {
      forall i | 0 <= i < |shown| ensures Pick(base, shown)[i].start < until {
        assert shown[i] in shown;
      }
      SlotWithinRange(Pick(base, shown), start, until, start, end);
    }
  }

  /** A tie that the booking counts and no slot does. */
  lemma UnshownTie<U>(
      base: seq<Claim<U>>, shown: seq<nat>, booked: seq<nat>, from: int, until: int, step: int, a: nat, b: nat)
    returns (heavy: seq<Claim<U>>)
    requires step > 0 && SameRows(|base|, shown, booked) && Proper(base)
    requires Tie(base, a, b, from, until) && ListedBefore(booked, a, b)
    requires AtEdge(base[a].start, from, step) || !ListedBefore(shown, a, b)
    ensures SameIntervals(base, heavy) && PositiveRam(heavy)
    ensures !NotTooMuch(Pick(heavy, shown), Pick(heavy, booked), from, until, step)
  {
    hide Peak;
    var w := |shown| + 1;
    heavy := Heavy(base, a, b, w);
    var p, q :| 0 <= p < q < |booked| && booked[p] == a && booked[q] == b;
    TieCounted(Pick(heavy, booked), from, until, p, q);
    assert booked[p] in booked && booked[q] in booked;
    var i, j :| 0 <= i < |shown| && shown[i] == a && 0 <= j < |shown| && shown[j] == b;
    assert Pick(heavy, shown) == Heavy(Pick(base, shown), i, j, w) == Heavy(Pick(base, shown), j, i, w);
    forall k: nat ensures !SlotReaches(Pick(heavy, shown), Pick(heavy, booked), from, until, step, k) {
      var start, end := from + k * step, from + k * step + step;
      if AtEdge(base[a].start, from, step) {
        EdgeOutside(base[a].start, from, step, k);
        OutsiderNotCounted(Pick(base, shown), i, j, w, start, end);
      } else {
        TieNotCounted(Pick(base, shown), j, i, w, start, end);
      }
    }
  }

  /** A tie off the edges that its slot counts and the booking does not. */
  lemma UnbookedTie<U>(
      base: seq<Claim<U>>, shown: seq<nat>, booked: seq<nat>, from: int, until: int, step: int, a: nat, b: nat)
    returns (heavy: seq<Claim<U>>)
    requires step > 0 && SameRows(|base|, shown, booked) && Proper(base)
    requires Tie(base, a, b, from, until) && ListedBefore(shown, a, b)
    requires !AtEdge(base[a].start, from, step) && !ListedBefore(booked, a, b)
    ensures SameIntervals(base, heavy) && PositiveRam(heavy)
    ensures !NotTooLittle(Pick(heavy, shown), Pick(heavy, booked), from, until, step)
  {
    hide Peak;
    var k := StepOf(base[a].start - from, step);
    EdgeAt(from, step, k);
    heavy := TurnedTieSweep(base, booked, from, until, shown, from + k * step, from + k * step + step, a, b);
    assert !SlotWithin(Pick(heavy, shown), Pick(heavy, booked), from, until, step, k);
  }

  /** The slots never show more than a booking of the whole range could request, for any positive RAM, exactly then. */
  lemma NeverTooMuch<U(!new)>(base: seq<Claim<U>>, shown: seq<nat>, booked: seq<nat>, from: int, until: int, step: int)
    requires step > 0 && SameRows(|base|, shown, booked) && Proper(base) && from < until
    ensures BookedTiesShown(base, shown, booked, from, until, step)
       <==> forall other :: SameIntervals(base, other) && PositiveRam(other) ==>
              NotTooMuch(Pick(other, shown), Pick(other, booked), from, until, step)
  {
    hide NotTooMuch;
    if BookedTiesShown(base, shown, booked, from, until, step) {
      forall other | SameIntervals(base, other) && PositiveRam(other)
        ensures NotTooMuch(Pick(other, shown), Pick(other, booked), from, until, step)
      {
        TiesShownSweep(other, shown, booked, from, until, step);
      }
    } else {
      var a: nat, b: nat :| Tie(base, a, b, from, until) && ListedBefore(booked, a, b)
                  && (AtEdge(base[a].start, from, step) || !ListedBefore(shown, a, b));
      var heavy := UnshownTie(base, shown, booked, from, until, step, a, b);
    }
  }

  /** Nor less, exactly then. */
  lemma NeverTooLittle<U(!new)>(base: seq<Claim<U>>, shown: seq<nat>, booked: seq<nat>, from: int, until: int, step: int)
    requires step > 0 && SameRows(|base|, shown, booked) && Proper(base) && from < until
    requires forall x :: x in shown ==> base[x].start < until
    ensures ShownTiesBooked(base, shown, booked, from, until, step)
       <==> forall other :: SameIntervals(base, other) && PositiveRam(other) ==>
              NotTooLittle(Pick(other, shown), Pick(other, booked), from, until, step)
  {
    hide NotTooLittle;
    if ShownTiesBooked(base, shown, booked, from, until, step) {
      forall other | SameIntervals(base, other) && PositiveRam(other)
        ensures NotTooLittle(Pick(other, shown), Pick(other, booked), from, until, step)
      {
        NoSlotHigher(other, shown, booked, from, until, step);
      }
    } else {
      var a: nat, b: nat :| Tie(base, a, b, from, until) && ListedBefore(shown, a, b)
                  && !AtEdge(base[a].start, from, step) && !ListedBefore(booked, a, b);
      var heavy := UnbookedTie(base, shown, booked, from, until, step, a, b);
    }
  }

  lemma NoSlotHigher<U>(base: seq<Claim<U>>, shown: seq<nat>, booked: seq<nat>, from: int, until: int, step: int)
    requires step > 0 && SameRows(|base|, shown, booked) && Proper(base) && NonNegative(base) && from < until
    requires forall x :: x in shown ==> base[x].start < until
    requires ShownTiesBooked(base, shown, booked, from, until, step)
    ensures NotTooLittle(Pick(base, shown), Pick(base, booked), from, until, step)
  {
    hide Peak;
    forall k: nat ensures SlotWithin(Pick(base, shown), Pick(base, booked), from, until, step, k) {
      if from + k * step < until {
        TiesBookedSweep(base, shown, booked, from, until, step, k);
      }
    }
  }

  // ---------------------------------------------------------------- what the view shows

  /** The slots of a view are those that start inside the range. */
  lemma ViewSlots<U>(slots: seq<(int, int)>, claims: seq<Claim<U>>, from: int, until: int, step: int, total: int, k: nat)
    requires step > 0 && SlotView(slots, claims, from, until, step, total)
    ensures k < |slots| <==> from + k * step < until
    ensures k < |slots| ==> slots[k].1 == total - Peak(claims, from + k * step, from + k * step + step)
  {
    hide Peak;
    StepGap(|slots|, k, step);
    if k < |slots| {
      assert slots[k].0 == from + k * step;
    }
  }

  lemma ShownExactly<U>(
      slots: seq<(int, int)>, shown: seq<Claim<U>>, booked: seq<Claim<U>>, from: int, until: int, step: int, total: int)
    requires step > 0 && SlotView(slots, shown, from, until, step, total)
    requires NotTooMuch(shown, booked, from, until, step) && NotTooLittle(shown, booked, from, until, step)
    ensures Shows(slots, total - Peak(booked, from, until))
  {
    hide Peak, SlotView;
    var free := total - Peak(booked, from, until);
    var k: nat :| SlotReaches(shown, booked, from, until, step, k);
    ViewSlots(slots, shown, from, until, step, total, k);
    assert slots[k].1 <= free;
    forall k' | 0 <= k' < |slots| ensures free <= slots[k'].1 {
      ViewSlots(slots, shown, from, until, step, total, k');
      assert SlotWithin(shown, booked, from, until, step, k');
    }
    hide SlotReaches, NotTooMuch, NotTooLittle, SlotWithin;
  }

  lemma ShownAtMost<U>(
      slots: seq<(int, int)>, shown: seq<Claim<U>>, booked: seq<Claim<U>>, from: int, until: int, step: int, total: int)
    requires step > 0 && SlotView(slots, shown, from, until, step, total)
    requires Shows(slots, total - Peak(booked, from, until))
    ensures NotTooMuch(shown, booked, from, until, step)
  {
    hide Peak, SlotView;
    var free := total - Peak(booked, from, until);
    assert !Requestable(slots, free + 1);
    var k :| 0 <= k < |slots| && slots[k].1 < free + 1;
    ViewSlots(slots, shown, from, until, step, total, k);
    assert SlotReaches(shown, booked, from, until, step, k);
  }

  lemma ShownAtLeast<U>(
      slots: seq<(int, int)>, shown: seq<Claim<U>>, booked: seq<Claim<U>>, from: int, until: int, step: int, total: int)
    requires step > 0 && SlotView(slots, shown, from, until, step, total)
    requires Shows(slots, total - Peak(booked, from, until))
    ensures NotTooLittle(shown, booked, from, until, step)
  {
    hide Peak, SlotView;
    assert Requestable(slots, total - Peak(booked, from, until));
    forall k: nat ensures SlotWithin(shown, booked, from, until, step, k) {
      ViewSlots(slots, shown, from, until, step, total, k);
    }
  }

  /**
    The view shows exactly what is free beside the booking's sweep if and only if it shows neither too much
    nor too little.
  */
  lemma ShowsExactly<U>(
      slots: seq<(int, int)>, shown: seq<Claim<U>>, booked: seq<Claim<U>>, from: int, until: int, step: int, total: int)
    requires step > 0 && SlotView(slots, shown, from, until, step, total)
    ensures Shows(slots, total - Peak(booked, from, until))
       <==> NotTooMuch(shown, booked, from, until, step) && NotTooLittle(shown, booked, from, until, step)
  {
    hide Peak, SlotView, NotTooMuch, NotTooLittle;
    if Shows(slots, total - Peak(booked, from, until)) {
      ShownAtMost(slots, shown, booked, from, until, step, total);
      ShownAtLeast(slots, shown, booked, from, until, step, total);
    } else if NotTooMuch(shown, booked, from, until, step) && NotTooLittle(shown, booked, from, until, step) {
      ShownExactly(slots, shown, booked, from, until, step, total);
    }
  }

  /** Every range has a slot view. */
  lemma SomeView<U>(claims: seq<Claim<U>>, from: int, until: int, step: int, total: int, slots0: seq<(int, int)>)
    returns (slots: seq<(int, int)>)
    requires step > 0 && SlotPrefix(slots0, claims, from, until, step, total)
    ensures SlotView(slots, claims, from, until, step, total)
    decreases until - (from + |slots0| * step)
  {
    hide Peak;
    var slotStart := from + |slots0| * step;
    if until <= slotStart {
      slots := slots0;
    } else {
      SlotPush(slots0, claims, from, until, step, total, slotStart);
      slots := SomeView(
        claims, from, until, step, total, slots0 + [(slotStart, total - Peak(claims, slotStart, slotStart + step))]);
    }
  }

  /**
    The promise of the slot view, with the booking making its own query: the smallest slot value is the
    largest RAM a booking of the whole range could request, for every choice of positive RAM and every
    total, if and only if the ties strictly inside the range that the booking counts are exactly those
    off the slot edges that the slots count.
  */
  lemma ViewIsLargestRequest<U(!new)>(
      base: seq<Claim<U>>, shown: seq<nat>, booked: seq<nat>, from: int, until: int, step: int)
    requires step > 0 && SameRows(|base|, shown, booked) && Proper(base) && from < until
    requires forall x :: x in shown ==> base[x].start < until
    ensures BookedTiesShown(base, shown, booked, from, until, step)
            && ShownTiesBooked(base, shown, booked, from, until, step)
       <==> forall other, total, slots ::
              SameIntervals(base, other) && PositiveRam(other)
              && SlotView(slots, Pick(other, shown), from, until, step, total) ==>
              Shows(slots, total - Peak(Pick(other, booked), from, until))
  {
    hide Peak, NotTooMuch, NotTooLittle, Shows, SlotView, BookedTiesShown, ShownTiesBooked;
    NeverTooMuch(base, shown, booked, from, until, step);
    NeverTooLittle(base, shown, booked, from, until, step);
    if BookedTiesShown(base, shown, booked, from, until, step) && ShownTiesBooked(base, shown, booked, from, until, step) {
      forall other, total, slots |
        SameIntervals(base, other) && PositiveRam(other)
        && SlotView(slots, Pick(other, shown), from, until, step, total)
        ensures Shows(slots, total - Peak(Pick(other, booked), from, until))
      {
        ShowsExactly(slots, Pick(other, shown), Pick(other, booked), from, until, step, total);
      }
    } else {
      var other :| SameIntervals(base, other) && PositiveRam(other)
                   && !(NotTooMuch(Pick(other, shown), Pick(other, booked), from, until, step)
                        && NotTooLittle(Pick(other, shown), Pick(other, booked), from, until, step));
      var slots := SomeView(Pick(other, shown), from, until, step, 0, []);
      ShowsExactly(slots, Pick(other, shown), Pick(other, booked), from, until, step, 0);
    }
  }

  /** One answer for both: exactly when no tie at a slot edge inside the range is listed start-first. */
  lemma ViewOfOneAnswer<U(!new)>(base: seq<Claim<U>>, order: seq<nat>, from: int, until: int, step: int)
    requires step > 0 && Below(order, |base|) && Distinct(order) && Proper(base) && from < until
    requires forall x :: x in order ==> base[x].start < until
    ensures EndsFirstAtEdges(Pick(base, order), from, until, step)
       <==> forall other, total, slots ::
              SameIntervals(base, other) && PositiveRam(other)
              && SlotView(slots, Pick(other, order), from, until, step, total) ==>
              Shows(slots, total - Peak(Pick(other, order), from, until))
  {
    hide Peak, Shows, SlotView;
    ViewIsLargestRequest(base, order, order, from, until, step);
    if EndsFirstAtEdges(Pick(base, order), from, until, step) {
      EdgesOfOrder(base, order, from, until, step);
    }
    if BookedTiesShown(base, order, order, from, until, step) {
      BookedEdges(base, order, order, from, until, step);
    }
  }

  lemma EdgesOfOrder<U>(base: seq<Claim<U>>, order: seq<nat>, from: int, until: int, step: int)
    requires step > 0 && Below(order, |base|) && EndsFirstAtEdges(Pick(base, order), from, until, step)
    ensures BookedTiesShown(base, order, order, from, until, step)
  {
    var claims := Pick(base, order);
    forall a: nat, b: nat | Tie(base, a, b, from, until) && ListedBefore(order, a, b) ensures !AtEdge(base[a].start, from, step) {
      var p, q :| 0 <= p < q < |order| && order[p] == a && order[q] == b;
      assert claims[p] == base[a] && claims[q] == base[b];
    }
  }

  /**
    Two back-to-back claims listed later-first, one slot each: both slots show at least three, while the
    sweep of the whole range leaves less than nothing.
  */
  lemma EdgeTieWitness(slots: seq<(int, int)>)
    requires SlotView(slots, [Claim(10, 20, 0, 5), Claim(0, 10, 1, 5)], 0, 20, 10, 8)
    ensures |slots| == 2 && slots[0].1 >= 3 && slots[1].1 >= 3
    ensures 8 - Peak([Claim(10, 20, 0, 5), Claim(0, 10, 1, 5)], 0, 20) <= -2
  {
    hide Peak;
    var late, early := Claim(10, 20, 0, 5), Claim(0, 10, 1, 5);
    var claims := [late, early];
    TieCounted(claims, 0, 20, 0, 1);
    ViewSlots(slots, claims, 0, 20, 10, 8, 1);
    ViewSlots(slots, claims, 0, 20, 10, 8, 2);
    forall k | 0 <= k < |slots| ensures slots[k].1 >= 3 {
      var t := SweepExact(claims, slots[k].0, slots[k].0 + 10);
      assert claims[..1] == [late] && [late][..0] == [];
      assert Held([late], slots[k].0, slots[k].0 + 10, t, None) == Cover(late, slots[k].0, slots[k].0 + 10, t, None);
    }
  }
}
