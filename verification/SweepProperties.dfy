/**
  What the sweep is worth: never below the true usage, never above the closed-interval reading,
  exact when ends precede starts in the claim list, and monotone in its window.
*/
module SweepProperties {
  import opened Wrappers
  import opened Sweep

  ghost predicate NonNegative<U>(claims: seq<Claim<U>>) {
    forall i :: 0 <= i < |claims| ==> claims[i].ram >= 0
  }

  /** No claim ends at the very instant a claim listed before it starts. */
  ghost predicate EndsFirst<U>(claims: seq<Claim<U>>) {
    forall i, j :: 0 <= i < j < |claims| ==> claims[j].end != claims[i].start
  }

  /** The same for ties strictly inside the window, the only ones the sweep can see. */
  ghost predicate EndsFirstWithin<U>(claims: seq<Claim<U>>, from: int, until: int) {
    forall i, j :: 0 <= i < j < |claims| && from < claims[i].start < until ==> claims[j].end != claims[i].start
  }

  ghost predicate StartOrdered<U>(claims: seq<Claim<U>>) {
    && (forall i :: 0 <= i < |claims| ==> claims[i].start < claims[i].end)
    && (forall i, j :: 0 <= i < j < |claims| ==> claims[i].start <= claims[j].start)
  }

  lemma StartOrderedEndsFirst<U>(claims: seq<Claim<U>>)
    requires StartOrdered(claims)
    ensures EndsFirst(claims)
  {
    forall i, j | 0 <= i < j < |claims| ensures claims[j].end != claims[i].start {
      assert claims[i].start <= claims[j].start < claims[j].end;
    }
  }

  // ---------------------------------------------------------------- sandwich

  /** RAM of the claims whose clipped interval, read as closed, contains t. */
  ghost function ClosedHeld<U>(claims: seq<Claim<U>>, from: int, until: int, t: int): int {
    if claims == [] then 0
    else
      var n := |claims| - 1;
      var start, end := Max(claims[n].start, from), Min(claims[n].end, until);
      ClosedHeld(claims[..n], from, until, t) + if start < end && start <= t <= end then claims[n].ram else 0
  }

  lemma SweepCoversUsage<U>(claims: seq<Claim<U>>, from: int, until: int, t: int)
    ensures Held(claims, from, until, t, None) <= Peak(claims, from, until)
  {
    MixedFull(claims, from, until, t, None);
    SplitBound(claims, from, until, |claims|, t);
  }

  lemma MixedLast<U>(claims: seq<Claim<U>>, from: int, until: int, m: nat, at: int, who: Option<U>)
    requires claims != [] && m <= |claims|
    ensures var n := |claims| - 1;
            Mixed(claims, from, until, m, at, who)
            == Mixed(claims[..n], from, until, Min(m, n), at, who)
             + Cover(claims[n], from, until, if n < m then at else at - 1, who)
  {
    var n := |claims| - 1;
    if m == |claims| {
      MixedFull(claims, from, until, at, who);
      MixedFull(claims[..n], from, until, at, who);
    } else {
      MixedExtend(claims, from, until, m, at, who);
    }
  }

  lemma {:induction false} MixedWithinClosed<U>(claims: seq<Claim<U>>, from: int, until: int, m: nat, at: int)
    requires m <= |claims| && NonNegative(claims)
    ensures Mixed(claims, from, until, m, at, None) <= ClosedHeld(claims, from, until, at)
    ensures !(from <= at <= until) ==> ClosedHeld(claims, from, until, at) == 0
  {
    if claims != [] {
      var n := |claims| - 1;
      MixedWithinClosed(claims[..n], from, until, Min(m, n), at);
      MixedLast(claims, from, until, m, at, None);
    }
  }

  /** The sweep lies between the largest pointwise usage and the largest closed-interval usage. */
  lemma SweepSandwich<U>(claims: seq<Claim<U>>, from: int, until: int) returns (at: int)
    requires NonNegative(claims)
    ensures forall t :: from <= t < until ==> Held(claims, from, until, t, None) <= Peak(claims, from, until)
    ensures Peak(claims, from, until) <= ClosedHeld(claims, from, until, at)
    ensures Peak(claims, from, until) > 0 ==> from <= at <= until
  {
    forall t | from <= t < until ensures Held(claims, from, until, t, None) <= Peak(claims, from, until) {
      SweepCoversUsage(claims, from, until, t);
    }
    var m;
    m, at := SplitAttained(claims, from, until);
    MixedWithinClosed(claims, from, until, m, at);
  }

  // ---------------------------------------------------------------- exactness

  /** Claim by claim, the split (m, at) reads no more than the instant t does. */
  ghost predicate Dominated<U>(claims: seq<Claim<U>>, from: int, until: int, m: nat, at: int, t: int) {
    && m <= |claims|
    && forall j :: 0 <= j < |claims| ==>
      Cover(claims[j], from, until, if j < m then at else at - 1, None) <= Cover(claims[j], from, until, t, None)
  }

  lemma {:induction false} DominatedSum<U>(claims: seq<Claim<U>>, from: int, until: int, m: nat, at: int, t: int)
    requires Dominated(claims, from, until, m, at, t)
    ensures Mixed(claims, from, until, m, at, None) <= Held(claims, from, until, t, None)
  {
    if claims != [] {
      var n := |claims| - 1;
      DominatedSum(claims[..n], from, until, Min(m, n), at, t);
      MixedLast(claims, from, until, m, at, None);
    }
  }

  /** A dominated split that reaches the instant's total agrees with it for every owner. */
  lemma {:induction false} DominatedEqual<U>(
      claims: seq<Claim<U>>, from: int, until: int, m: nat, at: int, t: int, who: Option<U>)
    requires Dominated(claims, from, until, m, at, t)
    requires Held(claims, from, until, t, None) <= Mixed(claims, from, until, m, at, None)
    ensures Mixed(claims, from, until, m, at, who) == Held(claims, from, until, t, who)
  {
    if claims != [] {
      var n := |claims| - 1;
      DominatedSum(claims[..n], from, until, Min(m, n), at, t);
      MixedLast(claims, from, until, m, at, None);
      MixedLast(claims, from, until, m, at, who);
      assert Cover(claims[n], from, until, if n < m then at else at - 1, None) <= Cover(claims[n], from, until, t, None);
      DominatedEqual(claims[..n], from, until, Min(m, n), at, t, who);
    }
  }

  /** No claim ends at this instant that is listed after one that starts there. */
  ghost predicate NoTieAt<U>(claims: seq<Claim<U>>, at: int) {
    forall i, j :: 0 <= i < j < |claims| && claims[i].start == at ==> claims[j].end != at
  }

  /** Without a start-first tie at its instant, a split reads no more than some real instant of the window. */
  lemma SplitIsInstant<U>(claims: seq<Claim<U>>, from: int, until: int, m: nat, at: int) returns (t: int)
    requires m <= |claims| && NonNegative(claims) && from < until
    requires from < at < until ==> NoTieAt(claims, at)
    ensures from <= t < until
    ensures Dominated(claims, from, until, m, at, t)
  {
    if at <= from {
      t := from;
    } else if at >= until {
      t := until - 1;
    } else if exists i :: 0 <= i < m && claims[i].start == at {
      t := at;
    } else {
      t := at - 1;
    }
  }

  /** When ends precede starts in the list, the sweep is the usage at one real instant of the window. */
  lemma SweepExact<U>(claims: seq<Claim<U>>, from: int, until: int) returns (t: int)
    requires NonNegative(claims) && EndsFirstWithin(claims, from, until) && from < until
    ensures from <= t < until
    ensures Peak(claims, from, until) == Held(claims, from, until, t, None)
    ensures forall t' :: Held(claims, from, until, t', None) <= Peak(claims, from, until)
  {
    var m, at := SplitAttained(claims, from, until);
    t := SplitIsInstant(claims, from, until, m, at);
    DominatedSum(claims, from, until, m, at, t);
    forall t' ensures Held(claims, from, until, t', None) <= Peak(claims, from, until) {
      SweepCoversUsage(claims, from, until, t');
    }
  }

  /** The capacity test on an ends-first list admits exactly what fits at every instant. */
  lemma CapacityTestExact<U>(claims: seq<Claim<U>>, from: int, until: int, ram: int, total: int)
    requires NonNegative(claims) && EndsFirstWithin(claims, from, until) && from < until
    ensures Peak(claims, from, until) + ram <= total
       <==> forall t :: from <= t < until ==> Held(claims, from, until, t, None) + ram <= total
  {
    hide Peak, Held;
    var t := SweepExact(claims, from, until);
    assert Held(claims, from, until, t, None) == Peak(claims, from, until);
  }

  /** On a start-ordered list, in particular. */
  lemma CapacityTestStartOrdered<U>(claims: seq<Claim<U>>, from: int, until: int, ram: int, total: int)
    requires NonNegative(claims) && StartOrdered(claims) && from < until
    ensures Peak(claims, from, until) + ram <= total
       <==> forall t :: from <= t < until ==> Held(claims, from, until, t, None) + ram <= total
  {
    StartOrderedEndsFirst(claims);
    CapacityTestExact(claims, from, until, ram, total);
  }

  /**
    Two back-to-back claims listed later-first are counted together, though never held together;
    listed earlier-first they are not.
  */
  lemma OverCountWitness()
    ensures var late, early := Claim(10, 20, 0, 5), Claim(0, 10, 1, 5);
            && Peak([late, early], 0, 20) >= 10
            && (forall t :: Held([late, early], 0, 20, t, None) <= 5)
            && Peak([early, late], 0, 20) <= 5
  {
    var late, early := Claim(10, 20, 0, 5), Claim(0, 10, 1, 5);
    var claims, ordered := [late, early], [early, late];
    assert claims[..1] == [late] && claims[1..] == [early] && [late][..0] == [] && [early][..0] == [];
    assert Held([late], 0, 20, 10, None) == Cover(late, 0, 20, 10, None) == 5;
    assert Held([early], 0, 20, 9, None) == Cover(early, 0, 20, 9, None) == 5;
    assert Mixed(claims, 0, 20, 1, 10, None) == 10;
    SplitBound(claims, 0, 20, 1, 10);
    forall t ensures Held(claims, 0, 20, t, None) <= 5 && Held(ordered, 0, 20, t, None) <= 5 {
      assert claims[..1][..0] == [] && ordered[..1] == [early] && [early][..0] == [];
      assert Held(claims[..1], 0, 20, t, None) == Cover(late, 0, 20, t, None);
      assert Held(ordered[..1], 0, 20, t, None) == Cover(early, 0, 20, t, None);
    }
    var t := SweepExact(ordered, 0, 20);
  }

  // ---------------------------------------------------------------- windows

  lemma {:induction false} MixedMonotone<U>(
      claims: seq<Claim<U>>, from: int, until: int, from': int, until': int, m: nat, at: int)
    requires m <= |claims| && NonNegative(claims) && from <= from' && until' <= until
    ensures Mixed(claims, from', until', m, at, None) <= Mixed(claims, from, until, m, at, None)
  {
    if claims != [] {
      var n := |claims| - 1;
      MixedMonotone(claims[..n], from, until, from', until', Min(m, n), at);
      MixedLast(claims, from, until, m, at, None);
      MixedLast(claims, from', until', m, at, None);
    }
  }

  /** Shrinking the window never raises the sweep, whatever the list order. */
  lemma SweepMonotone<U>(claims: seq<Claim<U>>, from: int, until: int, from': int, until': int)
    requires NonNegative(claims) && from <= from' && until' <= until
    ensures Peak(claims, from', until') <= Peak(claims, from, until)
  {
    var m, at := SplitAttained(claims, from', until');
    MixedMonotone(claims, from, until, from', until', m, at);
    SplitBound(claims, from, until, m, at);
  }

  /** The claims a query for [from, until) returns, in list order. */
  function Overlapping<U>(claims: seq<Claim<U>>, from: int, until: int): seq<Claim<U>> {
    if claims == [] then []
    else
      var n := |claims| - 1;
      Overlapping(claims[..n], from, until)
      + if claims[n].start < until && claims[n].end > from then [claims[n]] else []
  }

  lemma EventsPush<U>(claims: seq<Claim<U>>, c: Claim<U>, from: int, until: int)
    ensures Events(claims + [c], from, until) == Events(claims, from, until) + ClippedEvents(c, from, until)
  {
    assert (claims + [c])[..|claims|] == claims;
  }

  lemma {:induction false} OverlappingEvents<U>(claims: seq<Claim<U>>, from: int, until: int)
    ensures Events(Overlapping(claims, from, until), from, until) == Events(claims, from, until)
  {
    if claims != [] {
      var n := |claims| - 1;
      var front := Overlapping(claims[..n], from, until);
      OverlappingEvents(claims[..n], from, until);
      if claims[n].start < until && claims[n].end > from {
        EventsPush(front, claims[n], from, until);
      } else {
        assert Overlapping(claims, from, until) == front;
        assert ClippedEvents(claims[n], from, until) == [];
      }
    }
  }

  /** Inside the window, clipping changes nothing. */
  lemma {:induction false} HeldInside<U>(
      claims: seq<Claim<U>>, from: int, until: int, from': int, until': int, t: int, who: Option<U>)
    requires from <= t < until && from' <= t < until'
    ensures Held(claims, from, until, t, who) == Held(claims, from', until', t, who)
  {
    if claims != [] {
      HeldInside(claims[..|claims| - 1], from, until, from', until', t, who);
    }
  }
}
