/**
  Two queries over the same rows may list them in different orders. Exactly when does a narrower
  window, listed in its own order, sweep no higher than the wider window did in its order?
*/
module SweepReorder {
  import opened Wrappers
  import opened Measures
  import opened Sweep
  import opened SweepProperties
  import opened SweepOrder

  /** The claims that a query listed, by id. */
  ghost function Pick<U>(base: seq<Claim<U>>, ids: seq<nat>): (claims: seq<Claim<U>>)
    requires Below(ids, |base|)
    ensures |claims| == |ids|
  {
    seq(|ids|, k requires 0 <= k < |ids| => base[ids[k]])
  }

  ghost predicate ListedBefore(ids: seq<nat>, a: nat, b: nat) {
    exists p, q :: 0 <= p < q < |ids| && ids[p] == a && ids[q] == b
  }

  /** Id a starts, strictly inside the window, at the instant id b ends. */
  ghost predicate Tie<U>(base: seq<Claim<U>>, a: nat, b: nat, from: int, until: int) {
    a < |base| && b < |base| && from < base[a].start < until && base[b].end == base[a].start
  }

  /** Every tie that `narrow` lists start-first, `wide` lists start-first too. */
  ghost predicate TiesKept<U>(base: seq<Claim<U>>, wide: seq<nat>, narrow: seq<nat>, from: int, until: int) {
    forall a, b :: Tie(base, a, b, from, until) && ListedBefore(narrow, a, b) ==> ListedBefore(wide, a, b)
  }

  ghost predicate Included(narrow: seq<nat>, wide: seq<nat>) {
    forall x :: x in narrow ==> x in wide
  }

  // ---------------------------------------------------------------- sums over a split, id by id

  /** The part of a split that the given ids contribute. */
  ghost function SplitOver<U>(
      base: seq<Claim<U>>, ids: seq<nat>, from: int, until: int, m: nat, at: int, only: set<nat>): int
    requires Below(ids, |base|)
  {
    if ids == [] then 0
    else
      var n := |ids| - 1;
      SplitOver(base, ids[..n], from, until, m, at, only)
      + if ids[n] in only then Cover(base[ids[n]], from, until, ReadAt(n, m, at), None) else 0
  }

  lemma {:induction false} SplitOverAdd<U>(
      base: seq<Claim<U>>, ids: seq<nat>, from: int, until: int, m: nat, at: int, only: set<nat>, x: nat)
    requires Below(ids, |base|) && Distinct(ids) && x !in only
    ensures x !in ids ==>
      SplitOver(base, ids, from, until, m, at, only + {x}) == SplitOver(base, ids, from, until, m, at, only)
    ensures forall p :: 0 <= p < |ids| && ids[p] == x ==>
      SplitOver(base, ids, from, until, m, at, only + {x})
      == SplitOver(base, ids, from, until, m, at, only) + Cover(base[x], from, until, ReadAt(p, m, at), None)
  {
    if ids != [] {
      SplitOverAdd(base, ids[..|ids| - 1], from, until, m, at, only, x);
    }
  }

  lemma {:induction false} SplitOverWithin<U>(
      base: seq<Claim<U>>, ids: seq<nat>, from: int, until: int, m: nat, at: int, only: set<nat>)
    requires Below(ids, |base|) && NonNegative(base) && m <= |ids|
    ensures SplitOver(base, ids, from, until, m, at, only) <= Mixed(Pick(base, ids), from, until, m, at, None)
  {
    if ids != [] {
      var n := |ids| - 1;
      assert Pick(base, ids)[..n] == Pick(base, ids[..n]);
      MixedLast(Pick(base, ids), from, until, m, at, None);
      SplitOverCap(base, ids[..n], from, until, m, at, only);
      SplitOverWithin(base, ids[..n], from, until, Min(m, n), at, only);
    }
  }

  lemma {:induction false} SplitOverCap<U>(
      base: seq<Claim<U>>, ids: seq<nat>, from: int, until: int, m: nat, at: int, only: set<nat>)
    requires Below(ids, |base|)
    ensures SplitOver(base, ids, from, until, m, at, only) == SplitOver(base, ids, from, until, Min(m, |ids|), at, only)
  {
    if m > |ids| && ids != [] {
      var n := |ids| - 1;
      SplitOverCap(base, ids[..n], from, until, m, at, only);
      SplitOverCap(base, ids[..n], from, until, |ids|, at, only);
    }
  }

  /** Position p of `narrow`, read by its split, holds no more than the same id in `wide`, read by the other split. */
  ghost predicate ReadNoMore<U>(
      base: seq<Claim<U>>, narrow: seq<nat>, from': int, until': int, m': nat,
      wide: seq<nat>, from: int, until: int, m: nat, at: int, p: nat)
    requires Below(narrow, |base|) && Below(wide, |base|) && p < |narrow|
  {
    exists q :: 0 <= q < |wide| && wide[q] == narrow[p]
      && Cover(base[narrow[p]], from', until', ReadAt(p, m', at), None)
         <= Cover(base[wide[q]], from, until, ReadAt(q, m, at), None)
  }

  /** If so at every position, the narrow split is at most what its ids contribute to the wide one. */
  lemma {:induction false} SplitDominates<U>(
      base: seq<Claim<U>>, narrow: seq<nat>, from': int, until': int, m': nat,
      wide: seq<nat>, from: int, until: int, m: nat, at: int)
    requires Below(narrow, |base|) && Below(wide, |base|) && Distinct(narrow) && Distinct(wide) && m' <= |narrow|
    requires forall p :: 0 <= p < |narrow| ==>
      ReadNoMore(base, narrow, from', until', m', wide, from, until, m, at, p)
    ensures Mixed(Pick(base, narrow), from', until', m', at, None)
         <= SplitOver(base, wide, from, until, m, at, IdSet(narrow))
  {
    if narrow == [] {
      assert IdSet(narrow) == {};
      NoneContribute(base, wide, from, until, m, at);
    } else {
      var n := |narrow| - 1;
      var front := narrow[..n];
      forall p | 0 <= p < n
        ensures ReadNoMore(base, front, from', until', Min(m', n), wide, from, until, m, at, p)
      {
        assert ReadNoMore(base, narrow, from', until', m', wide, from, until, m, at, p);
      }
      SplitDominates(base, front, from', until', Min(m', n), wide, from, until, m, at);
      assert Pick(base, narrow)[..n] == Pick(base, front);
      MixedLast(Pick(base, narrow), from', until', m', at, None);
      assert ReadNoMore(base, narrow, from', until', m', wide, from, until, m, at, n);
      SplitOverAdd(base, wide, from, until, m, at, IdSet(front), narrow[n]);
      assert IdSet(front) + {narrow[n]} == IdSet(narrow);
    }
  }

  lemma {:induction false} NoneContribute<U>(
      base: seq<Claim<U>>, ids: seq<nat>, from: int, until: int, m: nat, at: int)
    requires Below(ids, |base|)
    ensures SplitOver(base, ids, from, until, m, at, {}) == 0
  {
    if ids != [] {
      NoneContribute(base, ids[..|ids| - 1], from, until, m, at);
    }
  }

  // ---------------------------------------------------------------- ties kept: the narrow sweep is no higher

  /**
    How far into `wide` the front must reach to include every given id of the narrow front that starts at the
    instant.
  */
  lemma {:induction false} FrontReach<U>(base: seq<Claim<U>>, front: seq<nat>, wide: seq<nat>, at: int) returns (m: nat)
    requires Below(front, |base|) && Included(front, wide) && Distinct(wide)
    ensures m <= |wide|
    ensures forall k, q ::
      0 <= k < |front| && base[front[k]].start == at && 0 <= q < |wide| && wide[q] == front[k] ==> q < m
    ensures m > 0 ==> wide[m - 1] in front && base[wide[m - 1]].start == at
  {
    m := 0;
    if front != [] {
      var n := |front| - 1;
      assert front[n] in front;
      assert Included(front[..n], wide);
      m := FrontReach(base, front[..n], wide, at);
      if base[front[n]].start == at {
        var q :| 0 <= q < |wide| && wide[q] == front[n];
        m := if q >= m then q + 1 else m;
      }
    }
  }

  lemma ListedOnce(ids: seq<nat>, p: nat, q: nat)
    requires Distinct(ids) && p <= q < |ids|
    ensures !ListedBefore(ids, ids[q], ids[p])
  {
  }

  lemma ReadsNoMore<U>(
      base: seq<Claim<U>>, narrow: seq<nat>, from': int, until': int, m': nat,
      wide: seq<nat>, from: int, until: int, m: nat, at: int, p: nat)
    requires Proper(base) && NonNegative(base)
    requires Below(narrow, |base|) && Below(wide, |base|) && Distinct(narrow) && Distinct(wide)
    requires Included(narrow, wide) && TiesKept(base, wide, narrow, from', until')
    requires from <= from' && until' <= until && m' <= |narrow| && p < |narrow|
    requires at <= from' ==> m == |wide|
    requires at >= until' ==> m == 0
    requires from' < at < until' ==>
      && (forall k, q :: 0 <= k < m' && base[narrow[k]].start == at && 0 <= q < |wide| && wide[q] == narrow[k] ==> q < m)
      && (m > 0 ==> m <= |wide| && wide[m - 1] in narrow[..m'] && base[wide[m - 1]].start == at)
    requires from' < until'
    ensures ReadNoMore(base, narrow, from', until', m', wide, from, until, m, at, p)
  {
    assert narrow[p] in narrow;
    var q :| 0 <= q < |wide| && wide[q] == narrow[p];
    if from' < at < until' && p >= m' && q < m && base[narrow[p]].end == at {
      // a front claim starting at the instant would be a start-first tie that `wide` turned round
      ListedOnce(wide, q, m - 1);
      assert false;
    }
  }

  /** If start-first ties of the narrow order are start-first in the wide one, the narrow sweep is no higher. */
  lemma TiesKeptSweep<U>(
      base: seq<Claim<U>>, wide: seq<nat>, from: int, until: int, narrow: seq<nat>, from': int, until': int)
    requires Proper(base) && NonNegative(base)
    requires Below(narrow, |base|) && Below(wide, |base|) && Distinct(narrow) && Distinct(wide)
    requires Included(narrow, wide) && TiesKept(base, wide, narrow, from', until')
    requires from <= from' < until' <= until
    ensures Peak(Pick(base, narrow), from', until') <= Peak(Pick(base, wide), from, until)
  {
    hide Peak, Mixed, SplitOver, TiesKept;
    var m', at := SplitAttained(Pick(base, narrow), from', until');
    var m: nat;
    if at <= from' {
      m := |wide|;
    } else if at >= until' {
      m := 0;
    } else {
      assert forall x :: x in narrow[..m'] ==> x in narrow;
      m := FrontReach(base, narrow[..m'], wide, at);
      assert forall k :: 0 <= k < m' ==> narrow[..m'][k] == narrow[k];
    }
    forall p | 0 <= p < |narrow|
      ensures ReadNoMore(base, narrow, from', until', m', wide, from, until, m, at, p)
    {
      ReadsNoMore(base, narrow, from', until', m', wide, from, until, m, at, p);
    }
    SplitDominates(base, narrow, from', until', m', wide, from, until, m, at);
    SplitOverWithin(base, wide, from, until, m, at, IdSet(narrow));
    SplitBound(Pick(base, wide), from, until, m, at);
  }

  // ---------------------------------------------------------------- a tie turned round: some RAM makes it higher

  /** A tie listed start-first by `narrow` and end-first by `wide` sweeps higher once its claims are heavy enough. */
  lemma TurnedTieSweep<U>(
      base: seq<Claim<U>>, wide: seq<nat>, from: int, until: int, narrow: seq<nat>, from': int, until': int,
      a: nat, b: nat) returns (heavy: seq<Claim<U>>)
    requires Proper(base)
    requires Below(narrow, |base|) && Below(wide, |base|) && Distinct(wide) && Included(narrow, wide)
    requires Tie(base, a, b, from', until') && ListedBefore(narrow, a, b) && !ListedBefore(wide, a, b)
    ensures SameIntervals(base, heavy) && PositiveRam(heavy)
    ensures Peak(Pick(heavy, narrow), from', until') > Peak(Pick(heavy, wide), from, until)
  {
    hide Peak;
    var w := |wide| + 1;
    heavy := Heavy(base, a, b, w);
    var p, q :| 0 <= p < q < |narrow| && narrow[p] == a && narrow[q] == b;
    TieCounted(Pick(heavy, narrow), from', until', p, q);
    assert narrow[p] in narrow && narrow[q] in narrow;
    var i, j :| 0 <= i < |wide| && wide[i] == b && 0 <= j < |wide| && wide[j] == a;
    assert Pick(heavy, wide) == Heavy(Pick(base, wide), i, j, w);
    TieNotCounted(Pick(base, wide), i, j, w, from, until);
  }

  /**
    The narrower window sweeps no higher than the wider one did, for every choice of positive RAM, if
    and only if every tie inside it that its order lists start-first was start-first in the wider order.
  */
  lemma ReorderedSweep<U(!new)>(
      base: seq<Claim<U>>, wide: seq<nat>, from: int, until: int, narrow: seq<nat>, from': int, until': int)
    requires Proper(base)
    requires Below(narrow, |base|) && Below(wide, |base|) && Distinct(narrow) && Distinct(wide)
    requires Included(narrow, wide) && from <= from' < until' <= until
    ensures TiesKept(base, wide, narrow, from', until')
       <==> forall other :: SameIntervals(base, other) && PositiveRam(other) ==>
              Peak(Pick(other, narrow), from', until') <= Peak(Pick(other, wide), from, until)
  {
    if TiesKept(base, wide, narrow, from', until') {
      forall other | SameIntervals(base, other) && PositiveRam(other)
        ensures Peak(Pick(other, narrow), from', until') <= Peak(Pick(other, wide), from, until)
      {
        TiesKeptSweep(other, wide, from, until, narrow, from', until');
      }
    } else {
      var a, b :| Tie(base, a, b, from', until') && ListedBefore(narrow, a, b) && !ListedBefore(wide, a, b);
      var heavy := TurnedTieSweep(base, wide, from, until, narrow, from', until', a, b);
    }
  }
}
