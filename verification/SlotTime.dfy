/**
  The booking grid. Instants are integer microseconds since the epoch (the resolution of the
  source's timestamps); slots are aligned on whole seconds, truncated toward zero.
*/
module SlotTime {
  import opened Arithmetic
  import opened Wrappers

  const SECOND: int := 1_000_000
  const MINUTE: int := 60 * SECOND
  const HOUR: int := 60 * MINUTE
  const DAY: int := 24 * HOUR

  /** Whole seconds since the epoch, truncated toward zero as an integer cast does. */
  function Seconds(t: int): int {
    if t >= 0 then t / SECOND else -((-t) / SECOND)
  }

  predicate IsSlotAligned(t: int, slotMinutes: int)
    requires slotMinutes > 0
  {
    Seconds(t) % (slotMinutes * 60) == 0
  }

  /** Named as in the source; it rounds UP to the next slot boundary. */
  function FloorToSlot(t: int, slotMinutes: int): int
    requires slotMinutes > 0
  {
    var remainder := Seconds(t) % (slotMinutes * 60);
    if remainder == 0 then t else t + (slotMinutes * 60 - remainder) * SECOND
  }

  function AlignDownToSlot(t: int, slotMinutes: int): int
    requires slotMinutes > 0
  {
    t - Seconds(t) % (slotMinutes * 60) * SECOND
  }

  predicate WholeSecond(t: int) {
    t % SECOND == 0
  }

  // ---------------------------------------------------------------- whole seconds and the rest

  /** What is left of an instant beyond its whole seconds; it has the instant's sign. */
  function SubSecond(t: int): int {
    t - Seconds(t) * SECOND
  }

  lemma SubSecondRange(t: int)
    ensures -SECOND < SubSecond(t) < SECOND
    ensures t >= 0 ==> SubSecond(t) == t % SECOND && Seconds(t) >= 0
    ensures t <= 0 ==> SubSecond(t) <= 0 && Seconds(t) <= 0
    ensures WholeSecond(t) <==> SubSecond(t) == 0
  {
  }

  /** An instant at or after n whole seconds counts at least n of them. */
  lemma SecondsReach(t: int, n: int)
    requires n * SECOND <= t
    ensures n <= Seconds(t)
  {
  }

  /** An instant at or before n whole seconds counts at most n of them. */
  lemma SecondsWithin(t: int, n: int)
    requires t <= n * SECOND
    ensures Seconds(t) <= n
  {
  }

  /** Whole seconds and a rest of the same sign make up an instant. */
  lemma SecondsOfParts(n: int, rest: int)
    requires -SECOND < rest < SECOND && ((n >= 0 && rest >= 0) || (n <= 0 && rest <= 0))
    ensures Seconds(n * SECOND + rest) == n && (n * SECOND + rest) % SECOND == rest % SECOND
  {
  }

  // ---------------------------------------------------------------- rounding

  /** Rounding up moves the whole seconds to the next multiple and keeps the rest. */
  lemma FloorToSlotParts(t: int, slotMinutes: int) returns (up: int)
    requires slotMinutes > 0
    ensures FloorToSlot(t, slotMinutes) == up * SECOND + SubSecond(t)
    ensures up % (slotMinutes * 60) == 0 && Seconds(t) <= up < Seconds(t) + slotMinutes * 60
  {
    var s := slotMinutes * 60;
    var n := Seconds(t);
    up := if n % s == 0 then n else n + (s - n % s);
    DivMod(n, s);
    if n % s != 0 {
      Distribute(n / s, -1, s);
      MultipleMod(n / s + 1, s);
    }
  }

  lemma AlignDownParts(t: int, slotMinutes: int) returns (down: int)
    requires slotMinutes > 0
    ensures AlignDownToSlot(t, slotMinutes) == down * SECOND + SubSecond(t)
    ensures down % (slotMinutes * 60) == 0 && Seconds(t) - slotMinutes * 60 < down <= Seconds(t)
  {
    var s := slotMinutes * 60;
    DivMod(Seconds(t), s);
    down := Seconds(t) / s * s;
    MultipleMod(Seconds(t) / s, s);
  }

  /** A multiple less than one step above another one is not above it. */
  lemma NotAbove(a: int, b: int, s: int)
    requires s > 0 && a % s == 0 && b % s == 0 && a < b + s
    ensures a <= b
  {
    if b < a {
      MultiplesApart(b, a, s);
    }
  }

  /** Rounding up lands on the grid, never moves back, and moves by less than a slot. */
  lemma FloorToSlotRoundsUp(t: int, slotMinutes: int)
    requires slotMinutes > 0
    ensures var r := FloorToSlot(t, slotMinutes);
            && IsSlotAligned(r, slotMinutes)
            && t <= r < t + slotMinutes * MINUTE
            && r % SECOND == t % SECOND
  {
    var up := FloorToSlotParts(t, slotMinutes);
    SubSecondRange(t);
    if t <= 0 {
      MultipleMod(0, slotMinutes * 60);
      NotAbove(up, 0, slotMinutes * 60);
    }
    SecondsOfParts(Seconds(t), SubSecond(t));
    SecondsOfParts(up, SubSecond(t));
    hide FloorToSlot, Seconds;
  }

  /** Rounding down lands on the grid, never moves forward, and moves by less than a slot. */
  lemma AlignDownRoundsDown(t: int, slotMinutes: int)
    requires slotMinutes > 0
    ensures var r := AlignDownToSlot(t, slotMinutes);
            && IsSlotAligned(r, slotMinutes)
            && t - slotMinutes * MINUTE < r <= t
            && r % SECOND == t % SECOND
  {
    var down := AlignDownParts(t, slotMinutes);
    SubSecondRange(t);
    if t >= 0 {
      MultipleMod(0, slotMinutes * 60);
      NotAbove(0, down, slotMinutes * 60);
    }
    SecondsOfParts(Seconds(t), SubSecond(t));
    SecondsOfParts(down, SubSecond(t));
    hide AlignDownToSlot, Seconds;
  }

  lemma WholeSecondsCount(t: int)
    requires WholeSecond(t)
    ensures t == Seconds(t) * SECOND
  {
  }

  /** On whole seconds, rounding up gives the first aligned instant not before t. */
  lemma FloorToSlotLeast(t: int, slotMinutes: int, x: int)
    requires slotMinutes > 0 && WholeSecond(t) && WholeSecond(x) && IsSlotAligned(x, slotMinutes) && t <= x
    ensures FloorToSlot(t, slotMinutes) <= x
  {
    var r := FloorToSlot(t, slotMinutes);
    FloorToSlotRoundsUp(t, slotMinutes);
    WholeSecondsCount(x);
    WholeSecondsCount(r);
    if x < r {
      MultiplesApart(Seconds(x), Seconds(r), slotMinutes * 60);
    }
  }

  /** On whole seconds, rounding down gives the last aligned instant not after t. */
  lemma AlignDownGreatest(t: int, slotMinutes: int, x: int)
    requires slotMinutes > 0 && WholeSecond(t) && WholeSecond(x) && IsSlotAligned(x, slotMinutes) && x <= t
    ensures x <= AlignDownToSlot(t, slotMinutes)
  {
    var r := AlignDownToSlot(t, slotMinutes);
    AlignDownRoundsDown(t, slotMinutes);
    WholeSecondsCount(x);
    WholeSecondsCount(r);
    if r < x {
      MultiplesApart(Seconds(r), Seconds(x), slotMinutes * 60);
    }
  }

  // ---------------------------------------------------------------- the auto-book window

  /** The window an auto-book attempt asks for, or None when it would be empty. */
  function AutoBookWindow(rangeStart: int, rangeEnd: int, now: int, slotMinutes: int, maxHours: int)
    : (window: Option<(int, int)>)
    requires slotMinutes > 0
  {
    var windowStart := FloorToSlot(Max(rangeStart, now), slotMinutes);
    var maxEnd := windowStart + maxHours * HOUR;
    var windowEnd := AlignDownToSlot(Min(rangeEnd, maxEnd), slotMinutes);
    if windowEnd <= windowStart then None else Some((windowStart, windowEnd))
  }

  /**
    A non-empty auto-book window is ordered, aligned at both ends, within the duration limit, not in
    the past and inside the watched range: for every input, sub-second parts and instants before
    the epoch included.
  */
  lemma AutoBookWindowWellFormed(rangeStart: int, rangeEnd: int, now: int, slotMinutes: int, maxHours: int)
    requires slotMinutes > 0
    ensures match AutoBookWindow(rangeStart, rangeEnd, now, slotMinutes, maxHours)
            case None => true
            case Some((a, b)) =>
              && a < b && b - a <= maxHours * HOUR
              && IsSlotAligned(a, slotMinutes) && IsSlotAligned(b, slotMinutes)
              && now <= a && rangeStart <= a && b <= rangeEnd
  {
    var windowStart := FloorToSlot(Max(rangeStart, now), slotMinutes);
    FloorToSlotRoundsUp(Max(rangeStart, now), slotMinutes);
    AlignDownRoundsDown(Min(rangeEnd, windowStart + maxHours * HOUR), slotMinutes);
  }

  /** The window's last admissible instant lies as far on as the end that fits. */
  lemma WindowReach(from: int, rangeEnd: int, up: int, maxHours: int, a: int, b: int)
    requires 0 <= from || (WholeSecond(from) && WholeSecond(rangeEnd))
    requires up <= a < b && (b - a) * SECOND <= maxHours * HOUR && b * SECOND <= rangeEnd
    requires 0 <= from ==> 0 <= up
    ensures var last := Min(rangeEnd, up * SECOND + SubSecond(from) + maxHours * HOUR);
            up + (b - a) <= Seconds(last) && SubSecond(last) >= 0
  {
    var last := Min(rangeEnd, up * SECOND + SubSecond(from) + maxHours * HOUR);
    SubSecondRange(from);
    SubSecondRange(last);
    SecondsReach(last, up + (b - a));
  }

  /** In whole seconds: the window's start, and an end at least as far on as the one that fits. */
  lemma WindowSeconds(from: int, rangeEnd: int, slotMinutes: int, maxHours: int, a: int, b: int)
    returns (up: int, down: int)
    requires slotMinutes > 0
    requires 0 <= from || (WholeSecond(from) && WholeSecond(rangeEnd))
    requires a % (slotMinutes * 60) == 0 && b % (slotMinutes * 60) == 0 && a < b
    requires (b - a) * SECOND <= maxHours * HOUR && from <= a * SECOND && b * SECOND <= rangeEnd
    ensures var start := FloorToSlot(from, slotMinutes);
            var end := AlignDownToSlot(Min(rangeEnd, start + maxHours * HOUR), slotMinutes);
            && start == up * SECOND + SubSecond(from) && up <= a
            && up + (b - a) <= down && down * SECOND <= end && a + 60 <= b
  {
    hide FloorToSlot, AlignDownToSlot, Seconds, SubSecond, WholeSecond;
    up := FloorToSlotParts(from, slotMinutes);
    SecondsWithin(from, a);
    NotAbove(up, a, slotMinutes * 60);
    SubSecondRange(from);
    WindowReach(from, rangeEnd, up, maxHours, a, b);
    down := AlignDownParts(Min(rangeEnd, FloorToSlot(from, slotMinutes) + maxHours * HOUR), slotMinutes);
    MultiplesCombine(up, b, a, slotMinutes * 60);
    NotAbove(up + (b - a), down, slotMinutes * 60);
    MultiplesApart(a, b, slotMinutes * 60);
  }

  /**
    No bookable window is missed: if some aligned window of whole seconds fits the range, the clock and
    the duration limit, then one is found; it starts less than a second after that one, and, unless it
    starts earlier, ends no earlier. This holds for every clock reading from the epoch on, microseconds
    included; before the epoch, for whole-second inputs.
  */
  lemma AutoBookWindowComplete(
      rangeStart: int, rangeEnd: int, now: int, slotMinutes: int, maxHours: int, a: int, b: int)
    requires slotMinutes > 0
    requires 0 <= Max(rangeStart, now) || (WholeSecond(Max(rangeStart, now)) && WholeSecond(rangeEnd))
    requires WholeSecond(a) && WholeSecond(b) && IsSlotAligned(a, slotMinutes) && IsSlotAligned(b, slotMinutes)
    requires a < b && b - a <= maxHours * HOUR && Max(rangeStart, now) <= a && b <= rangeEnd
    ensures var window := AutoBookWindow(rangeStart, rangeEnd, now, slotMinutes, maxHours);
            && window.Some?
            && window.value.0 < a + SECOND
            && (WholeSecond(Max(rangeStart, now)) ==> window.value.0 <= a)
            && (a <= window.value.0 ==> b <= window.value.1)
  {
    hide FloorToSlot, AlignDownToSlot, Seconds, SubSecond;
    var from := Max(rangeStart, now);
    WholeSecondsCount(a);
    WholeSecondsCount(b);
    SubSecondRange(from);
    var up, down := WindowSeconds(from, rangeEnd, slotMinutes, maxHours, Seconds(a), Seconds(b));
  }

  // ---------------------------------------------------------------- slot enumeration

  ghost predicate StrictlyIncreasing(s: seq<int>) {
    forall i, j :: 0 <= i < j < |s| ==> s[i] < s[j]
  }

  lemma FirstIsMember(s: seq<int>)
    ensures s != [] ==> s[0] in s
  {
  }

  /** Strictly increasing lists with the same members are equal. */
  lemma {:induction false} IncreasingUnique(a: seq<int>, b: seq<int>)
    requires StrictlyIncreasing(a) && StrictlyIncreasing(b)
    requires forall x :: x in a <==> x in b
    ensures a == b
  {
    if a == [] {
      FirstIsMember(b);
    } else {
      var n := |a| - 1;
      assert a[n] in b && b[|b| - 1] in b;
      var m := |b| - 1;
      assert a[n] == b[m];
      forall x ensures x in a[..n] <==> x in b[..m] {
        assert x in a[..n] <==> x in a && x != a[n];
        assert x in b[..m] <==> x in b && x != b[m];
      }
      IncreasingUnique(a[..n], b[..m]);
      assert a == a[..n] + [a[n]] && b == b[..m] + [b[m]];
    }
  }

  /** One slot apart, from the first boundary not before the bound, stopping only at the range end. */
  ghost predicate SlotStarts(slots: seq<int>, rangeStart: int, rangeEnd: int, slotMinutes: int, notBefore: int)
    requires slotMinutes > 0
  {
    var first := FloorToSlot(Max(rangeStart, notBefore), slotMinutes);
    && (forall i :: 0 <= i < |slots| ==> slots[i] == first + i * (slotMinutes * MINUTE) && slots[i] < rangeEnd)
    && rangeEnd <= first + |slots| * (slotMinutes * MINUTE)
  }

  /** `generate_slot_starts`. */
  method GenerateSlotStarts(rangeStart: int, rangeEnd: int, slotMinutes: int, notBefore: int)
    returns (slots: seq<int>)
    requires slotMinutes > 0
    ensures SlotStarts(slots, rangeStart, rangeEnd, slotMinutes, notBefore)
  {
    var first := FloorToSlot(Max(rangeStart, notBefore), slotMinutes);
    var t := first;
    slots := [];
    while t < rangeEnd
      invariant t == first + |slots| * (slotMinutes * MINUTE)
      invariant forall i :: 0 <= i < |slots| ==> slots[i] == first + i * (slotMinutes * MINUTE) && slots[i] < rangeEnd
    {
      slots := slots + [t];
      t := t + slotMinutes * MINUTE;
    }
  }

  ghost predicate OfferedSlot(x: int, rangeStart: int, rangeEnd: int, slotMinutes: int, notBefore: int)
    requires slotMinutes > 0
  {
    rangeStart <= x < rangeEnd && notBefore <= x && WholeSecond(x) && IsSlotAligned(x, slotMinutes)
  }

  /** Aligned, not before the bound, and with the bound's own sub-second part. */
  ghost predicate ListedSlot(x: int, rangeStart: int, rangeEnd: int, slotMinutes: int, notBefore: int)
    requires slotMinutes > 0
  {
    var bound := Max(rangeStart, notBefore);
    bound <= x < rangeEnd && IsSlotAligned(x, slotMinutes) && x % SECOND == bound % SECOND
  }

  /** From the epoch on, or on whole seconds, the whole seconds and the rest of an instant add up like this. */
  lemma ShiftedParts(t: int, n: int)
    requires n >= 0 && (0 <= t || WholeSecond(t))
    ensures Seconds(t + n * SECOND) == Seconds(t) + n && (t + n * SECOND) % SECOND == t % SECOND
  {
  }

  lemma SlotOnGrid(first: int, i: nat, slotMinutes: int)
    requires slotMinutes > 0 && IsSlotAligned(first, slotMinutes) && (0 <= first || WholeSecond(first))
    ensures var x := first + i * (slotMinutes * MINUTE);
            first <= x && IsSlotAligned(x, slotMinutes) && x % SECOND == first % SECOND
  {
    var s := slotMinutes * 60;
    ProductSign(i, s);
    assert i * (slotMinutes * MINUTE) == i * s * SECOND;
    ShiftedParts(first, i * s);
    MultipleMod(i, s);
    MultipleMod(0, s);
    MultiplesCombine(Seconds(first), i * s, 0, s);
  }

  lemma GridIsSlot(first: int, x: int, slotMinutes: int) returns (i: nat)
    requires slotMinutes > 0 && first <= x && (0 <= first || WholeSecond(first)) && x % SECOND == first % SECOND
    requires IsSlotAligned(first, slotMinutes) && IsSlotAligned(x, slotMinutes)
    ensures x == first + i * (slotMinutes * MINUTE)
  {
    var s := slotMinutes * 60;
    SecondsApart(first, x);
    DivMod(Seconds(first), s);
    DivMod(Seconds(x), s);
    var p, q := Seconds(first) / s, Seconds(x) / s;
    Distribute(q, p, s);
    ProductSign(q - p, s);
    i := q - p;
    assert i * (slotMinutes * MINUTE) == i * s * SECOND;
  }

  lemma SecondsApart(t: int, x: int)
    requires t <= x && (0 <= t || WholeSecond(t)) && x % SECOND == t % SECOND
    ensures x - t == (Seconds(x) - Seconds(t)) * SECOND && Seconds(t) <= Seconds(x)
  {
  }

  lemma SlotStartsIncreasing(slots: seq<int>, first: int, step: int)
    requires step > 0 && forall i :: 0 <= i < |slots| ==> slots[i] == first + i * step
    ensures StrictlyIncreasing(slots)
  {
    forall i, j | 0 <= i < j < |slots| ensures slots[i] < slots[j] {
      StepGap(i, j, step);
    }
  }

  /** The first listed instant is not after any instant the list should hold. */
  lemma FirstSlotLeast(bound: int, slotMinutes: int, x: int)
    requires slotMinutes > 0 && (0 <= bound || WholeSecond(bound))
    requires bound <= x && IsSlotAligned(x, slotMinutes) && x % SECOND == bound % SECOND
    ensures FloorToSlot(bound, slotMinutes) <= x
  {
    var up := FloorToSlotParts(bound, slotMinutes);
    SecondsApart(bound, x);
    NotAbove(up, Seconds(x), slotMinutes * 60);
  }

  lemma SlotStartsComplete(
      slots: seq<int>, rangeStart: int, rangeEnd: int, slotMinutes: int, notBefore: int, x: int)
    requires slotMinutes > 0 && SlotStarts(slots, rangeStart, rangeEnd, slotMinutes, notBefore)
    requires 0 <= Max(rangeStart, notBefore) || WholeSecond(Max(rangeStart, notBefore))
    requires ListedSlot(x, rangeStart, rangeEnd, slotMinutes, notBefore)
    ensures x in slots
  {
    var bound := Max(rangeStart, notBefore);
    var first := FloorToSlot(bound, slotMinutes);
    FloorToSlotRoundsUp(bound, slotMinutes);
    FirstSlotLeast(bound, slotMinutes, x);
    var i := GridIsSlot(first, x, slotMinutes);
    StepGap(|slots|, i, slotMinutes * MINUTE);
    assert slots[i] == x;
  }

  lemma SlotStartsSound(
      slots: seq<int>, rangeStart: int, rangeEnd: int, slotMinutes: int, notBefore: int, i: nat)
    requires slotMinutes > 0 && SlotStarts(slots, rangeStart, rangeEnd, slotMinutes, notBefore)
    requires 0 <= Max(rangeStart, notBefore) || WholeSecond(Max(rangeStart, notBefore))
    requires i < |slots|
    ensures ListedSlot(slots[i], rangeStart, rangeEnd, slotMinutes, notBefore)
  {
    FloorToSlotRoundsUp(Max(rangeStart, notBefore), slotMinutes);
    SlotOnGrid(FloorToSlot(Max(rangeStart, notBefore), slotMinutes), i, slotMinutes);
  }

  /**
    The list holds, in order, exactly the aligned instants of the range not before the bound that share
    the bound's sub-second part: for every bound from the epoch on, and every whole-second bound.
  */
  lemma SlotStartsSoundAndComplete(
      slots: seq<int>, rangeStart: int, rangeEnd: int, slotMinutes: int, notBefore: int)
    requires slotMinutes > 0 && SlotStarts(slots, rangeStart, rangeEnd, slotMinutes, notBefore)
    requires 0 <= Max(rangeStart, notBefore) || WholeSecond(Max(rangeStart, notBefore))
    ensures StrictlyIncreasing(slots)
    ensures forall x :: x in slots <==> ListedSlot(x, rangeStart, rangeEnd, slotMinutes, notBefore)
  {
    SlotStartsIncreasing(slots, FloorToSlot(Max(rangeStart, notBefore), slotMinutes), slotMinutes * MINUTE);
    forall x ensures x in slots <==> ListedSlot(x, rangeStart, rangeEnd, slotMinutes, notBefore) {
      if x in slots {
        var i :| 0 <= i < |slots| && slots[i] == x;
        SlotStartsSound(slots, rangeStart, rangeEnd, slotMinutes, notBefore, i);
      }
      if ListedSlot(x, rangeStart, rangeEnd, slotMinutes, notBefore) {
        SlotStartsComplete(slots, rangeStart, rangeEnd, slotMinutes, notBefore, x);
      }
    }
  }

  /** The list starts at the rounded bound, which keeps the bound's sub-second part. */
  lemma FirstSlotPart(slots: seq<int>, rangeStart: int, rangeEnd: int, slotMinutes: int, notBefore: int)
    requires slotMinutes > 0 && SlotStarts(slots, rangeStart, rangeEnd, slotMinutes, notBefore) && slots != []
    ensures slots[0] % SECOND == Max(rangeStart, notBefore) % SECOND && slots[0] in slots
  {
    FloorToSlotRoundsUp(Max(rangeStart, notBefore), slotMinutes);
  }

  /**
    When there is anything to list, the list holds exactly the aligned whole-second instants of the
    range not before the bound if and only if the bound is a whole second.
  */
  lemma WholeSecondsListed(
      slots: seq<int>, rangeStart: int, rangeEnd: int, slotMinutes: int, notBefore: int, some: int)
    requires slotMinutes > 0 && SlotStarts(slots, rangeStart, rangeEnd, slotMinutes, notBefore)
    requires some in slots || OfferedSlot(some, rangeStart, rangeEnd, slotMinutes, notBefore)
    ensures (forall x :: x in slots <==> OfferedSlot(x, rangeStart, rangeEnd, slotMinutes, notBefore))
       <==> WholeSecond(Max(rangeStart, notBefore))
  {
    hide IsSlotAligned, SlotStarts;
    if WholeSecond(Max(rangeStart, notBefore)) {
      SlotStartsSoundAndComplete(slots, rangeStart, rangeEnd, slotMinutes, notBefore);
      forall x ensures x in slots <==> OfferedSlot(x, rangeStart, rangeEnd, slotMinutes, notBefore) {
        assert x in slots <==> ListedSlot(x, rangeStart, rangeEnd, slotMinutes, notBefore);
      }
    } else if slots != [] {
      FirstSlotPart(slots, rangeStart, rangeEnd, slotMinutes, notBefore);
      assert !OfferedSlot(slots[0], rangeStart, rangeEnd, slotMinutes, notBefore);
    }
  }

  /** For instance, from half a second past eight the half-hour list starts at that very instant. */
  lemma SubSecondBoundWitness(slots: seq<int>)
    requires SlotStarts(slots, 0, DAY, 30, 8 * HOUR + SECOND / 2)
    ensures slots != [] && slots[0] == 8 * HOUR + SECOND / 2
    ensures exists x :: x in slots && !OfferedSlot(x, 0, DAY, 30, 8 * HOUR + SECOND / 2)
  {
    assert slots[0] in slots;
  }

  // ---------------------------------------------------------------- the booking page's options

  const TICKS_PER_MS: int := 1000

  function CeilDiv(a: int, b: int): int
    requires b > 0
  {
    -((-a) / b)
  }

  predicate OnGrid(ms: int, slotMs: int)
    requires slotMs > 0
  {
    ms % slotMs == 0
  }

  ghost predicate OfferedOption(ms: int, dayStartMs: int, slotMs: int, notBeforeMs: Option<int>)
    requires slotMs > 0
  {
    && dayStartMs <= ms < dayStartMs + DAY / TICKS_PER_MS
    && OnGrid(ms, slotMs)
    && (notBeforeMs.Some? ==> notBeforeMs.value <= ms)
  }

  lemma CeilStart(dayStartMs: int, slotMs: int)
    requires slotMs > 0
    ensures var t := CeilDiv(dayStartMs, slotMs) * slotMs;
            t % slotMs == 0 && dayStartMs <= t < dayStartMs + slotMs
  {
    DivMod(-dayStartMs, slotMs);
    assert -((-dayStartMs) / slotMs) * slotMs == -((-dayStartMs) / slotMs * slotMs);
    MultipleMod(CeilDiv(dayStartMs, slotMs), slotMs);
  }

  /** The next grid instant after t is t + s, with none in between. */
  lemma NextMultiple(t: int, s: int)
    requires s > 0 && t % s == 0
    ensures (t + s) % s == 0
    ensures forall x :: t < x < t + s ==> x % s != 0
  {
    MultipleMod(1, s);
    MultipleMod(0, s);
    MultiplesCombine(t, 1 * s, 0, s);
    forall x | t < x < t + s ensures x % s != 0 {
      if x % s == 0 {
        MultiplesApart(t, x, s);
      }
    }
  }

  /** `slotOptionsForLocalDay`, on the day's start instant, in the page's milliseconds. */
  method SlotOptionsForLocalDay(dayStartMs: int, slotMinutes: int, notBeforeMs: Option<int>)
    returns (options: seq<int>)
    requires slotMinutes > 0
    ensures StrictlyIncreasing(options)
    ensures forall ms :: ms in options <==> OfferedOption(ms, dayStartMs, slotMinutes * 60_000, notBeforeMs)
  {
    var dayEndMs := dayStartMs + 24 * 3600_000;
    var slotMs := slotMinutes * 60_000;
    options := [];
    var t := CeilDiv(dayStartMs, slotMs) * slotMs;
    CeilStart(dayStartMs, slotMs);
    NextMultiple(t - slotMs, slotMs) by {
      MultipleMod(1, slotMs);
      MultipleMod(0, slotMs);
      MultiplesCombine(t, 0 * slotMs, 1 * slotMs, slotMs);
    }
    while t < dayEndMs
      invariant t % slotMs == 0 && dayStartMs <= t
      invariant StrictlyIncreasing(options)
      invariant forall i :: 0 <= i < |options| ==> options[i] < t
      invariant forall ms :: ms in options <==> ms < t && OfferedOption(ms, dayStartMs, slotMs, notBeforeMs)
    {
      NextMultiple(t, slotMs);
      if !(notBeforeMs.Some? && t < notBeforeMs.value) {
        options := options + [t];
      }
      t := t + slotMs;
    }
  }

  ghost function ToTicks(ms: seq<int>): seq<int> {
    seq(|ms|, i requires 0 <= i < |ms| => ms[i] * TICKS_PER_MS)
  }

  lemma AlignedInMs(ms: int, slotMinutes: int)
    requires slotMinutes > 0
    ensures OnGrid(ms, slotMinutes * 60_000)
       <==> WholeSecond(ms * TICKS_PER_MS) && IsSlotAligned(ms * TICKS_PER_MS, slotMinutes)
  {
    var s := slotMinutes * 60;
    if ms % (s * 1000) == 0 {
      DivMod(ms, s * 1000);
      var q := ms / (s * 1000);
      assert ms == q * s * 1000;
      WholeSecondsCount(ms * TICKS_PER_MS);
      MultipleMod(q, s);
    }
    if WholeSecond(ms * TICKS_PER_MS) && IsSlotAligned(ms * TICKS_PER_MS, slotMinutes) {
      WholeSecondsCount(ms * TICKS_PER_MS);
      var n := Seconds(ms * TICKS_PER_MS);
      DivMod(n, s);
      assert ms == n / s * (s * 1000);
      MultipleMod(n / s, s * 1000);
    }
  }

  lemma TickOfOption(options: seq<int>, x: int) returns (ms: int)
    requires x in ToTicks(options)
    ensures ms in options && x == ms * TICKS_PER_MS
  {
    var i :| 0 <= i < |options| && ToTicks(options)[i] == x;
    ms := options[i];
  }

  lemma OptionOfTick(options: seq<int>, ms: int)
    requires ms in options
    ensures ms * TICKS_PER_MS in ToTicks(options)
  {
    var i :| 0 <= i < |options| && options[i] == ms;
    assert ToTicks(options)[i] == ms * TICKS_PER_MS;
  }

  lemma WholeMs(x: int) returns (ms: int)
    requires WholeSecond(x)
    ensures x == ms * TICKS_PER_MS
  {
    ms := x / SECOND * 1000;
  }

  lemma OfferedInMs(ms: int, dayStartMs: int, slotMinutes: int, notBeforeMs: Option<int>)
    requires slotMinutes > 0
    ensures var bound := if notBeforeMs.Some? then notBeforeMs.value else dayStartMs;
            var from := dayStartMs * TICKS_PER_MS;
            OfferedOption(ms, dayStartMs, slotMinutes * 60_000, notBeforeMs)
            <==> OfferedSlot(ms * TICKS_PER_MS, from, from + DAY, slotMinutes, bound * TICKS_PER_MS)
  {
    AlignedInMs(ms, slotMinutes);
    hide IsSlotAligned, WholeSecond, OnGrid;
  }

  /** In ticks, the page offers the aligned whole-second instants of the day not before the bound. */
  lemma OptionsInTicks(options: seq<int>, dayStartMs: int, slotMinutes: int, notBeforeMs: Option<int>, x: int)
    requires slotMinutes > 0
    requires forall ms :: ms in options <==> OfferedOption(ms, dayStartMs, slotMinutes * 60_000, notBeforeMs)
    ensures var bound := if notBeforeMs.Some? then notBeforeMs.value else dayStartMs;
            var from := dayStartMs * TICKS_PER_MS;
            x in ToTicks(options) <==> OfferedSlot(x, from, from + DAY, slotMinutes, bound * TICKS_PER_MS)
  {
    hide IsSlotAligned, OnGrid, OfferedOption;
    var bound := if notBeforeMs.Some? then notBeforeMs.value else dayStartMs;
    var from := dayStartMs * TICKS_PER_MS;
    if x in ToTicks(options) {
      var ms := TickOfOption(options, x);
      OfferedInMs(ms, dayStartMs, slotMinutes, notBeforeMs);
    }
    if OfferedSlot(x, from, from + DAY, slotMinutes, bound * TICKS_PER_MS) {
      var ms := WholeMs(x);
      OfferedInMs(ms, dayStartMs, slotMinutes, notBeforeMs);
      OptionOfTick(options, ms);
    }
  }

  /**
    For the same day start, day end and bound, when either offers anything, the page offers exactly the
    instants the backend enumerates, in the same order, if and only if the bound is a whole second.
  */
  lemma OptionsAgreeWithBackend(
      options: seq<int>, slots: seq<int>, dayStartMs: int, slotMinutes: int, notBeforeMs: Option<int>)
    requires slotMinutes > 0
    requires StrictlyIncreasing(options)
    requires forall ms :: ms in options <==> OfferedOption(ms, dayStartMs, slotMinutes * 60_000, notBeforeMs)
    requires var bound := if notBeforeMs.Some? then notBeforeMs.value else dayStartMs;
             SlotStarts(slots, dayStartMs * TICKS_PER_MS, dayStartMs * TICKS_PER_MS + DAY, slotMinutes, bound * TICKS_PER_MS)
    requires options != [] || slots != []
    ensures var bound := if notBeforeMs.Some? then notBeforeMs.value else dayStartMs;
            ToTicks(options) == slots <==> WholeSecond(Max(dayStartMs, bound) * TICKS_PER_MS)
  {
    hide IsSlotAligned, SlotStarts;
    var bound := if notBeforeMs.Some? then notBeforeMs.value else dayStartMs;
    var from := dayStartMs * TICKS_PER_MS;
    assert Max(from, bound * TICKS_PER_MS) == Max(dayStartMs, bound) * TICKS_PER_MS;
    if WholeSecond(Max(dayStartMs, bound) * TICKS_PER_MS) {
      SlotStartsSoundAndComplete(slots, from, from + DAY, slotMinutes, bound * TICKS_PER_MS);
      forall x ensures x in ToTicks(options) <==> x in slots {
        OptionsInTicks(options, dayStartMs, slotMinutes, notBeforeMs, x);
        assert x in slots <==> ListedSlot(x, from, from + DAY, slotMinutes, bound * TICKS_PER_MS);
      }
      IncreasingUnique(ToTicks(options), slots);
    } else if slots != [] {
      FirstSlotPart(slots, from, from + DAY, slotMinutes, bound * TICKS_PER_MS);
      OptionsInTicks(options, dayStartMs, slotMinutes, notBeforeMs, slots[0]);
    }
  }
}
