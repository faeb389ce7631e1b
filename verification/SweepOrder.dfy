/** Exactly which list orders make the sweep exact, whatever the RAM of the claims. */
module SweepOrder {
  import opened Wrappers
  import opened Sweep
  import opened SweepProperties

  ghost predicate Proper<U>(claims: seq<Claim<U>>) {
    forall i :: 0 <= i < |claims| ==> claims[i].start < claims[i].end
  }

  /** The sweep is the usage at some instant of the window. */
  ghost predicate Exact<U>(claims: seq<Claim<U>>, from: int, until: int) {
    exists t :: from <= t < until && Peak(claims, from, until) == Held(claims, from, until, t, None)
  }

  /** The same intervals and owners in the same order, holding other amounts. */
  ghost predicate SameIntervals<U>(a: seq<Claim<U>>, b: seq<Claim<U>>) {
    |a| == |b| && forall i :: 0 <= i < |a| ==> b[i] == a[i].(ram := b[i].ram)
  }

  ghost predicate PositiveRam<U>(claims: seq<Claim<U>>) {
    forall i :: 0 <= i < |claims| ==> claims[i].ram > 0
  }

  /** Heavy claims i and j among light ones. */
  ghost function Heavy<U>(claims: seq<Claim<U>>, i: nat, j: nat, w: int): (heavy: seq<Claim<U>>)
    ensures |heavy| == |claims|
  {
    seq(|claims|, k requires 0 <= k < |claims| => claims[k].(ram := if k == i || k == j then w else 1))
  }

  lemma HeavyPrefix<U>(claims: seq<Claim<U>>, i: nat, j: nat, w: int)
    requires claims != []
    ensures Heavy(claims, i, j, w)[..|claims| - 1] == Heavy(claims[..|claims| - 1], i, j, w)
  {
  }

  /** The instant at which the split (m, at) reads position k. */
  ghost function ReadAt(k: nat, m: nat, at: int): int {
    if k < m then at else at - 1
  }

  /** The clipped claim contains t. */
  ghost predicate Covers<U>(c: Claim<U>, from: int, until: int, t: int) {
    Max(c.start, from) <= t < Min(c.end, until)
  }

  /** A split counts no heavy claim but those it reads inside their clipped intervals. */
  lemma {:induction false} HeavyMixed<U>(
      claims: seq<Claim<U>>, i: nat, j: nat, w: int, from: int, until: int, m: nat, at: int)
    requires w >= 1 && i != j && m <= |claims|
    ensures var both := (if i < |claims| && Covers(claims[i], from, until, ReadAt(i, m, at)) then 1 else 0)
                      + (if j < |claims| && Covers(claims[j], from, until, ReadAt(j, m, at)) then 1 else 0);
            Mixed(Heavy(claims, i, j, w), from, until, m, at, None)
            <= |claims| + if both == 2 then 2 * w else if both == 1 then w else 0
  {
    if claims != [] {
      var n := |claims| - 1;
      HeavyPrefix(claims, i, j, w);
      HeavyMixed(claims[..n], i, j, w, from, until, Min(m, n), at);
      MixedLast(Heavy(claims, i, j, w), from, until, m, at, None);
    }
  }

  lemma {:induction false} HeldMember<U>(claims: seq<Claim<U>>, i: nat, from: int, until: int, t: int)
    requires NonNegative(claims) && i < |claims|
    ensures Held(claims, from, until, t, None) >= Cover(claims[i], from, until, t, None)
  {
    var n := |claims| - 1;
    if i < n {
      HeldMember(claims[..n], i, from, until, t);
    } else if n > 0 {
      HeldMember(claims[..n], 0, from, until, t);
    }
  }

  /** A tie listed start-first counts both of its claims. */
  lemma TieCounted<U>(claims: seq<Claim<U>>, from: int, until: int, p: nat, q: nat)
    requires NonNegative(claims) && Proper(claims) && p < q < |claims|
    requires from < claims[p].start < until && claims[q].end == claims[p].start
    ensures Peak(claims, from, until) >= claims[p].ram + claims[q].ram
  {
    hide Peak;
    var m, at := p + 1, claims[p].start;
    HeldMember(claims[..m], p, from, until, at);
    HeldMember(claims[m..], q - m, from, until, at - 1);
    SplitBound(claims, from, until, m, at);
  }

  /** A tie listed end-first counts at most one of them. */
  lemma TieNotCounted<U>(claims: seq<Claim<U>>, i: nat, j: nat, w: int, from: int, until: int)
    requires w >= 1 && i < j < |claims| && claims[i].end == claims[j].start
    ensures Peak(Heavy(claims, i, j, w), from, until) <= |claims| + w
  {
    hide Peak, Mixed;
    var m, at := SplitAttained(Heavy(claims, i, j, w), from, until);
    HeavyMixed(claims, i, j, w, from, until, m, at);
  }

  /** So does a window that only one of them overlaps. */
  lemma OutsiderNotCounted<U>(claims: seq<Claim<U>>, i: nat, j: nat, w: int, from: int, until: int)
    requires w >= 1 && i != j && i < |claims| && j < |claims|
    requires Max(claims[i].start, from) >= Min(claims[i].end, until) || Max(claims[j].start, from) >= Min(claims[j].end, until)
    ensures Peak(Heavy(claims, i, j, w), from, until) <= |claims| + w
  {
    hide Peak, Mixed;
    var m, at := SplitAttained(Heavy(claims, i, j, w), from, until);
    HeavyMixed(claims, i, j, w, from, until, m, at);
  }

  /** No instant holds both claims of a tie. */
  lemma TieNotHeld<U>(claims: seq<Claim<U>>, i: nat, j: nat, w: int, from: int, until: int, t: int)
    requires w >= 1 && i < |claims| && j < |claims| && Proper(claims) && claims[j].end == claims[i].start
    ensures Held(Heavy(claims, i, j, w), from, until, t, None) <= |claims| + w
  {
    MixedFull(Heavy(claims, i, j, w), from, until, t, None);
    HeavyMixed(claims, i, j, w, from, until, |claims|, t);
  }

  /** A tie listed start-first is over-counted, at every instant, once its two claims are heavy enough. */
  lemma TieOverCounts<U>(claims: seq<Claim<U>>, from: int, until: int, i: nat, j: nat) returns (heavy: seq<Claim<U>>)
    requires Proper(claims) && i < j < |claims|
    requires from < claims[i].start < until && claims[j].end == claims[i].start
    ensures SameIntervals(claims, heavy) && PositiveRam(heavy)
    ensures forall t :: Held(heavy, from, until, t, None) < Peak(heavy, from, until)
  {
    hide Peak, Held;
    var w := |claims| + 1;
    heavy := Heavy(claims, i, j, w);
    TieCounted(heavy, from, until, i, j);
    forall t ensures Held(heavy, from, until, t, None) < Peak(heavy, from, until) {
      TieNotHeld(claims, i, j, w, from, until, t);
    }
  }

  /**
    A list order is exact for every choice of positive RAM if and only if no claim ends, strictly
    inside the window, at the very instant a claim listed before it starts.
  */
  lemma ExactOrders<U(!new)>(claims: seq<Claim<U>>, from: int, until: int)
    requires Proper(claims) && from < until
    ensures EndsFirstWithin(claims, from, until)
       <==> forall other :: SameIntervals(claims, other) && PositiveRam(other) ==> Exact(other, from, until)
  {
    if EndsFirstWithin(claims, from, until) {
      forall other | SameIntervals(claims, other) && PositiveRam(other) ensures Exact(other, from, until) {
        var t := SweepExact(other, from, until);
      }
    } else {
      var i, j :| 0 <= i < j < |claims| && from < claims[i].start < until && claims[j].end == claims[i].start;
      var heavy := TieOverCounts(claims, from, until, i, j);
    }
  }

  /** Every instant of the window holds at most the capacity. */
  ghost predicate AtMostThroughout<U>(claims: seq<Claim<U>>, from: int, until: int, capacity: int) {
    forall t :: from <= t < until ==> Held(claims, from, until, t, None) <= capacity
  }

  /** These orders, and no others, never put the sweep above a capacity that every instant respects. */
  lemma CapacityOrders<U(!new)>(claims: seq<Claim<U>>, from: int, until: int)
    requires Proper(claims) && from < until
    ensures EndsFirstWithin(claims, from, until)
       <==> forall other, capacity ::
              SameIntervals(claims, other) && PositiveRam(other) && AtMostThroughout(other, from, until, capacity) ==>
              Peak(other, from, until) <= capacity
  {
    hide Peak, Held;
    if EndsFirstWithin(claims, from, until) {
      forall other, capacity |
        SameIntervals(claims, other) && PositiveRam(other) && AtMostThroughout(other, from, until, capacity)
        ensures Peak(other, from, until) <= capacity
      {
        var t := SweepExact(other, from, until);
      }
    } else {
      var i, j :| 0 <= i < j < |claims| && from < claims[i].start < until && claims[j].end == claims[i].start;
      var heavy := TieOverCounts(claims, from, until, i, j);
      assert AtMostThroughout(heavy, from, until, Peak(heavy, from, until) - 1);
    }
  }
}
