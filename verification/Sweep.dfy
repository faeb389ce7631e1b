/**
  The sweep-line allocator: the peak RAM held simultaneously inside a window, read off a list of
  start/end events that is sorted stably by time only.

  The sort key ignores whether an event starts or ends a claim, so at a tie the list order of the
  claims decides which is counted first. Everything below follows from one characterisation: the
  sweep is the largest value, over every cut of the claim list into a front and a back part and
  every instant, of "front as held at the instant, back as held one tick earlier".
*/
module Sweep {
  import opened Wrappers

  /** A stretch of RAM held on one GPU over [start, end). */
  datatype Claim<U> = Claim(start: int, end: int, owner: U, ram: int)

  datatype Event<U> = Event(time: int, owner: U, delta: int)

  // ---------------------------------------------------------------- events and their sort

  function ClippedEvents<U>(c: Claim<U>, from: int, until: int): seq<Event<U>> {
    var start := Max(c.start, from);
    var end := Min(c.end, until);
    if start >= end then [] else [Event(start, c.owner, c.ram), Event(end, c.owner, -c.ram)]
  }

  function Events<U>(claims: seq<Claim<U>>, from: int, until: int): seq<Event<U>> {
    if claims == [] then []
    else
      var n := |claims| - 1;
      Events(claims[..n], from, until) + ClippedEvents(claims[n], from, until)
  }

  /** In the order "by time, then by list position", an event at (time, i) comes before the cut (at, k). */
  predicate Precedes(time: int, i: int, at: int, k: int) {
    time < at || (time == at && i < k)
  }

  /** How many events of the unsorted list come before the cut (at, k). */
  function Rank<U>(es: seq<Event<U>>, at: int, k: int): (r: nat)
    ensures r <= |es|
  {
    if es == [] then 0
    else
      var n := |es| - 1;
      Rank(es[..n], at, k) + if Precedes(es[n].time, n, at, k) then 1 else 0
  }

  /** The library's stable sort by time: each event goes after all earlier ones that are not later in time. */
  function StableSort<U>(es: seq<Event<U>>): (sorted: seq<Event<U>>)
    ensures |sorted| == |es|
  {
    if es == [] then []
    else
      var n := |es| - 1;
      var rest := StableSort(es[..n]);
      var q := Rank(es[..n], es[n].time, n);
      rest[..q] + [es[n]] + rest[q..]
  }

  ghost predicate SortedByTime<U>(es: seq<Event<U>>) {
    forall i, j :: 0 <= i < j < |es| ==> es[i].time <= es[j].time
  }

  ghost function AtTime<U>(es: seq<Event<U>>, time: int): seq<Event<U>> {
    if es == [] then []
    else
      var n := |es| - 1;
      AtTime(es[..n], time) + if es[n].time == time then [es[n]] else []
  }

  lemma {:induction false} AtTimeAppend<U>(a: seq<Event<U>>, b: seq<Event<U>>, time: int)
    ensures AtTime(a + b, time) == AtTime(a, time) + AtTime(b, time)
  {
    if b == [] {
      assert a + b == a;
    } else {
      var n := |b| - 1;
      assert (a + b)[..|a + b| - 1] == a + b[..n];
      AtTimeAppend(a, b[..n], time);
    }
  }

  lemma {:induction false} AtTimeNone<U>(es: seq<Event<U>>, time: int)
    requires forall i :: 0 <= i < |es| ==> es[i].time != time
    ensures AtTime(es, time) == []
  {
    if es != [] {
      AtTimeNone(es[..|es| - 1], time);
    }
  }

  lemma {:induction false} RankMonotone<U>(es: seq<Event<U>>, at1: int, k1: int, at2: int, k2: int)
    requires at1 < at2 || (at1 == at2 && k1 <= k2)
    ensures Rank(es, at1, k1) <= Rank(es, at2, k2)
  {
    if es != [] {
      RankMonotone(es[..|es| - 1], at1, k1, at2, k2);
    }
  }

  lemma {:induction false} RankBeyond<U>(es: seq<Event<U>>, at: int, k: int)
    requires k >= |es|
    ensures Rank(es, at, k) == Rank(es, at, |es|)
  {
    if es != [] {
      var n := |es| - 1;
      RankBeyond(es[..n], at, k);
      RankBeyond(es[..n], at, n + 1);
    }
  }

  /** The events not later than `time` are exactly a prefix of the sorted list. */
  lemma {:induction false} RankSplits<U>(es: seq<Event<U>>, time: int)
    ensures var r := Rank(es, time, |es|);
            && (forall i :: 0 <= i < r ==> StableSort(es)[i].time <= time)
            && (forall i :: r <= i < |es| ==> StableSort(es)[i].time > time)
  {
    if es != [] {
      var n := |es| - 1;
      var e := es[n];
      RankSplits(es[..n], time);
      RankBeyond(es[..n], time, n + 1);
      if e.time <= time {
        RankMonotone(es[..n], e.time, n, time, n);
      } else {
        RankMonotone(es[..n], time, n, e.time, n);
      }
    }
  }

  lemma {:induction false} StableSortIsSorted<U>(es: seq<Event<U>>)
    ensures SortedByTime(StableSort(es))
  {
    if es != [] {
      var n := |es| - 1;
      StableSortIsSorted(es[..n]);
      RankSplits(es[..n], es[n].time);
    }
  }

  /** Inserting e behind everything not later than it appends it to the events of its own time. */
  lemma InsertAtTime<U>(front: seq<Event<U>>, e: Event<U>, back: seq<Event<U>>, time: int)
    requires forall i :: 0 <= i < |back| ==> back[i].time > e.time
    ensures AtTime(front + [e] + back, time) == AtTime(front + back, time) + if e.time == time then [e] else []
  {
    AtTimeAppend(front, back, time);
    AtTimeAppend(front + [e], back, time);
    assert (front + [e])[..|front|] == front;
    if e.time == time {
      AtTimeNone(back, time);
    }
  }

  /** Events of equal time keep their list order. */
  lemma {:induction false} StableSortIsStable<U>(es: seq<Event<U>>, time: int)
    ensures AtTime(StableSort(es), time) == AtTime(es, time)
  {
    if es != [] {
      var n := |es| - 1;
      var rest := StableSort(es[..n]);
      var q := Rank(es[..n], es[n].time, n);
      StableSortIsStable(es[..n], time);
      RankSplits(es[..n], es[n].time);
      InsertAtTime(rest[..q], es[n], rest[q..], time);
      assert rest == rest[..q] + rest[q..];
    }
  }

  lemma {:induction false} AtTimeMember<U>(es: seq<Event<U>>, i: nat)
    requires i < |es|
    ensures AtTime(es, es[i].time) != []
  {
    var n := |es| - 1;
    if i < n {
      AtTimeMember(es[..n], i);
    }
  }

  /** A time that some event has is the time of some event of any list with the same per-time sublists. */
  lemma AtTimeWitness<U>(es: seq<Event<U>>, time: int)
    requires AtTime(es, time) != []
    ensures exists i :: 0 <= i < |es| && es[i].time == time
  {
    if forall i :: 0 <= i < |es| ==> es[i].time != time {
      AtTimeNone(es, time);
    }
  }

  ghost predicate SameAtEachTime<U>(a: seq<Event<U>>, b: seq<Event<U>>) {
    forall time :: AtTime(a, time) == AtTime(b, time)
  }

  lemma SortedLastTime<U>(a: seq<Event<U>>, b: seq<Event<U>>)
    requires SortedByTime(a) && SortedByTime(b) && SameAtEachTime(a, b) && a != []
    ensures b != [] && a[|a| - 1].time <= b[|b| - 1].time
  {
    AtTimeMember(a, |a| - 1);
    assert AtTime(b, a[|a| - 1].time) != [];
    AtTimeWitness(b, a[|a| - 1].time);
  }

  lemma AtTimeEnds<U>(es: seq<Event<U>>)
    requires es != []
    ensures var mine := AtTime(es, es[|es| - 1].time);
            mine != [] && mine[|mine| - 1] == es[|es| - 1]
  {
  }

  lemma SortedLastAgrees<U>(a: seq<Event<U>>, b: seq<Event<U>>)
    requires SortedByTime(a) && SortedByTime(b) && SameAtEachTime(a, b) && a != []
    ensures b != [] && a[|a| - 1] == b[|b| - 1]
  {
    SortedLastTime(a, b);
    SortedLastTime(b, a);
    AtTimeEnds(a);
    AtTimeEnds(b);
    assert AtTime(a, a[|a| - 1].time) == AtTime(b, a[|a| - 1].time);
  }

  lemma DropLastAtTime<U>(es: seq<Event<U>>, time: int)
    requires es != []
    ensures var e := es[|es| - 1];
            var all := AtTime(es, time);
            AtTime(es[..|es| - 1], time) == if e.time == time && all != [] then all[..|all| - 1] else all
  {
  }

  /** Two time-sorted lists that agree on the events of every time are equal, so any stable sort is this one. */
  lemma {:induction false} StableSortUnique<U>(a: seq<Event<U>>, b: seq<Event<U>>)
    requires SortedByTime(a) && SortedByTime(b) && SameAtEachTime(a, b)
    ensures a == b
  {
    if a == [] {
      if b != [] {
        AtTimeMember(b, 0);
        assert false;
      }
    } else {
      SortedLastAgrees(a, b);
      var n, m := |a| - 1, |b| - 1;
      forall time ensures AtTime(a[..n], time) == AtTime(b[..m], time) {
        DropLastAtTime(a, time);
        DropLastAtTime(b, time);
        assert AtTime(a, time) == AtTime(b, time);
      }
      StableSortUnique(a[..n], b[..m]);
      assert a == a[..n] + [a[n]];
      assert b == b[..m] + [b[m]];
    }
  }

  // ---------------------------------------------------------------- running sums

  /** The delta of an event, restricted to one owner when `who` names one. */
  ghost function Weight<U>(e: Event<U>, who: Option<U>): int {
    if who.None? || who.value == e.owner then e.delta else 0
  }

  ghost function Sum<U>(es: seq<Event<U>>, who: Option<U>): int {
    if es == [] then 0 else Sum(es[..|es| - 1], who) + Weight(es[|es| - 1], who)
  }

  /** The largest running total over a list of events, never below zero. */
  ghost function MaxPrefix<U>(es: seq<Event<U>>): int {
    if es == [] then 0 else Max(MaxPrefix(es[..|es| - 1]), Sum(es, None))
  }

  ghost function Peak<U>(claims: seq<Claim<U>>, from: int, until: int): int {
    MaxPrefix(StableSort(Events(claims, from, until)))
  }

  lemma {:induction false} SumAppend<U>(a: seq<Event<U>>, b: seq<Event<U>>, who: Option<U>)
    ensures Sum(a + b, who) == Sum(a, who) + Sum(b, who)
  {
    if b == [] {
      assert a + b == a;
    } else {
      assert (a + b)[..|a + b| - 1] == a + b[..|b| - 1];
      SumAppend(a, b[..|b| - 1], who);
    }
  }

  lemma {:induction false} PrefixBound<U>(es: seq<Event<U>>, p: nat)
    requires p <= |es|
    ensures Sum(es[..p], None) <= MaxPrefix(es)
  {
    if es == [] {
    } else if p == |es| {
      assert es[..p] == es;
    } else {
      var rest := es[..|es| - 1];
      assert rest[..p] == es[..p];
      PrefixBound(rest, p);
    }
  }

  lemma {:induction false} PrefixAttained<U>(es: seq<Event<U>>) returns (p: nat)
    ensures p <= |es| && Sum(es[..p], None) == MaxPrefix(es)
  {
    if es == [] {
      p := 0;
    } else {
      var rest := es[..|es| - 1];
      p := PrefixAttained(rest);
      assert rest[..p] == es[..p];
      if MaxPrefix(rest) < Sum(es, None) {
        p := |es|;
        assert es[..p] == es;
      }
    }
  }

  // ---------------------------------------------------------------- prefixes are cuts

  /** The running total at the cut (at, k), computed without sorting. */
  ghost function Level<U>(es: seq<Event<U>>, at: int, k: int, who: Option<U>): int {
    if es == [] then 0
    else
      var n := |es| - 1;
      Level(es[..n], at, k, who) + if Precedes(es[n].time, n, at, k) then Weight(es[n], who) else 0
  }

  lemma {:induction false} LevelBeyond<U>(es: seq<Event<U>>, at: int, k: int, who: Option<U>)
    requires k >= |es|
    ensures Level(es, at, k, who) == Level(es, at, |es|, who)
  {
    if es != [] {
      var n := |es| - 1;
      LevelBeyond(es[..n], at, k, who);
      LevelBeyond(es[..n], at, n + 1, who);
    }
  }

  /** Inserting e at q adds its weight to the prefixes that reach past q, and to no others. */
  lemma InsertedPrefix<U>(rest: seq<Event<U>>, e: Event<U>, q: nat, r: nat, who: Option<U>)
    requires q <= |rest| && r <= |rest|
    ensures q <= r ==> Sum((rest[..q] + [e] + rest[q..])[..r + 1], who) == Sum(rest[..r], who) + Weight(e, who)
    ensures r <= q ==> Sum((rest[..q] + [e] + rest[q..])[..r], who) == Sum(rest[..r], who)
  {
    var more := rest[..q] + [e] + rest[q..];
    if q <= r {
      assert more[..r + 1] == rest[..q] + [e] + rest[q..r];
      assert rest[..r] == rest[..q] + rest[q..r];
      SumAppend(rest[..q] + [e], rest[q..r], who);
      SumPush(rest[..q], e, who);
      SumAppend(rest[..q], rest[q..r], who);
    }
    if r <= q {
      assert more[..r] == rest[..r];
    }
  }

  lemma SumPush<U>(es: seq<Event<U>>, e: Event<U>, who: Option<U>)
    ensures Sum(es + [e], who) == Sum(es, who) + Weight(e, who)
  {
    assert (es + [e])[..|es|] == es;
  }

  /** The sorted list's prefix of length Rank(at, k) sums to the level at (at, k), for every owner. */
  lemma {:induction false} PrefixIsLevel<U>(es: seq<Event<U>>, at: int, k: int, who: Option<U>)
    ensures Sum(StableSort(es)[..Rank(es, at, k)], who) == Level(es, at, k, who)
  {
    if es != [] {
      var n := |es| - 1;
      var e := es[n];
      var rest, q, r := StableSort(es[..n]), Rank(es[..n], e.time, n), Rank(es[..n], at, k);
      PrefixIsLevel(es[..n], at, k, who);
      assert StableSort(es) == rest[..q] + [e] + rest[q..];
      InsertedPrefix(rest, e, q, r, who);
      hide Sum, StableSort;
      if Precedes(e.time, n, at, k) {
        RankMonotone(es[..n], e.time, n, at, k);
      } else {
        RankMonotone(es[..n], at, k, e.time, n);
      }
    }
  }

  /** Every prefix of the sorted list is a cut. */
  lemma {:induction false} PrefixHasCut<U>(es: seq<Event<U>>, p: nat) returns (at: int, k: int)
    requires p <= |es|
    ensures Rank(es, at, k) == p
  {
    if es == [] {
      at, k := 0, 0;
    } else {
      var n := |es| - 1;
      var e := es[n];
      var q := Rank(es[..n], e.time, n);
      if p == q {
        at, k := e.time, n;
      } else if p == q + 1 {
        at, k := e.time, n + 1;
        RankBeyond(es[..n], e.time, n + 1);
      } else if p < q {
        at, k := PrefixHasCut(es[..n], p);
        if Precedes(e.time, n, at, k) {
          RankMonotone(es[..n], e.time, n, at, k);
          assert false;
        }
      } else {
        at, k := PrefixHasCut(es[..n], p - 1);
        if !Precedes(e.time, n, at, k) {
          RankMonotone(es[..n], at, k, e.time, n);
          assert false;
        }
      }
    }
  }

  // ---------------------------------------------------------------- cuts are splits of the claim list

  /** RAM the claim holds at tick t, clipped to [from, until) and to one owner when `who` names one. */
  ghost function Cover<U>(c: Claim<U>, from: int, until: int, t: int, who: Option<U>): int {
    if Max(c.start, from) <= t < Min(c.end, until) && (who.None? || who.value == c.owner) then c.ram else 0
  }

  /** Pointwise usage: the reference the sweep is measured against. */
  ghost function Held<U>(claims: seq<Claim<U>>, from: int, until: int, t: int, who: Option<U>): int {
    if claims == [] then 0
    else
      var n := |claims| - 1;
      Held(claims[..n], from, until, t, who) + Cover(claims[n], from, until, t, who)
  }

  /** The first m claims as held at `at`, the others as held one tick earlier. */
  ghost function Mixed<U>(claims: seq<Claim<U>>, from: int, until: int, m: nat, at: int, who: Option<U>): int
    requires m <= |claims|
  {
    Held(claims[..m], from, until, at, who) + Held(claims[m..], from, until, at - 1, who)
  }

  lemma MixedExtend<U>(claims: seq<Claim<U>>, from: int, until: int, m: nat, at: int, who: Option<U>)
    requires m < |claims|
    ensures Mixed(claims, from, until, m, at, who)
         == Mixed(claims[..|claims| - 1], from, until, m, at, who) + Cover(claims[|claims| - 1], from, until, at - 1, who)
  {
    var n := |claims| - 1;
    assert claims[..n][..m] == claims[..m];
    assert claims[m..][..n - m] == claims[..n][m..];
  }

  lemma MixedFull<U>(claims: seq<Claim<U>>, from: int, until: int, at: int, who: Option<U>)
    ensures Mixed(claims, from, until, |claims|, at, who) == Held(claims, from, until, at, who)
  {
    assert claims[..|claims|] == claims;
  }

  /** The two events of the last claim, seen from a cut that lies at index k of the events. */
  lemma LevelOfLast<U>(claims: seq<Claim<U>>, from: int, until: int, at: int, k: int, who: Option<U>)
    requires claims != []
    ensures var n := |claims| - 1;
            var front := Events(claims[..n], from, until);
            var last := ClippedEvents(claims[n], from, until);
            Level(Events(claims, from, until), at, k, who)
            == Level(front, at, k, who)
             + (if last != [] && Precedes(last[0].time, |front|, at, k) then Weight(last[0], who) else 0)
             + (if last != [] && Precedes(last[1].time, |front| + 1, at, k) then Weight(last[1], who) else 0)
  {
    var n := |claims| - 1;
    var front := Events(claims[..n], from, until);
    var last := ClippedEvents(claims[n], from, until);
    var es := Events(claims, from, until);
    if last == [] {
      assert es == front;
    } else {
      assert es[..|es| - 1] == front + [last[0]];
      assert (front + [last[0]])[..|front|] == front;
    }
  }

  lemma {:induction false} EventsThrough<U>(claims: seq<Claim<U>>, from: int, until: int, at: int, who: Option<U>)
    ensures var es := Events(claims, from, until);
            Level(es, at, |es|, who) == Held(claims, from, until, at, who)
  {
    if claims != [] {
      var n := |claims| - 1;
      var front := Events(claims[..n], from, until);
      var k := |Events(claims, from, until)|;
      EventsThrough(claims[..n], from, until, at, who);
      LevelBeyond(front, at, k, who);
      LevelOfLast(claims, from, until, at, k, who);
    }
  }

  lemma {:induction false} SplitIsCut<U>(claims: seq<Claim<U>>, from: int, until: int, m: nat, at: int, who: Option<U>)
    requires m <= |claims|
    ensures |Events(claims[..m], from, until)| <= |Events(claims, from, until)|
    ensures Level(Events(claims, from, until), at, |Events(claims[..m], from, until)|, who)
         == Mixed(claims, from, until, m, at, who)
  {
    if m == |claims| {
      assert claims[..m] == claims;
      MixedFull(claims, from, until, at, who);
      EventsThrough(claims, from, until, at, who);
    } else {
      var n := |claims| - 1;
      SplitIsCut(claims[..n], from, until, m, at, who);
      assert claims[..n][..m] == claims[..m];
      MixedExtend(claims, from, until, m, at, who);
      LevelOfLast(claims, from, until, at, |Events(claims[..m], from, until)|, who);
    }
  }

  /** A cut between the two events of one claim is also a split: that claim joins whichever part its tie puts it in. */
  lemma {:induction false} CutIsSplit<U>(claims: seq<Claim<U>>, from: int, until: int, at: int, k: int)
    returns (m: nat)
    ensures m <= |claims|
    ensures forall who :: Level(Events(claims, from, until), at, k, who) == Mixed(claims, from, until, m, at, who)
  {
    if claims == [] {
      m := 0;
    } else {
      var n := |claims| - 1;
      var front := Events(claims[..n], from, until);
      var last := ClippedEvents(claims[n], from, until);
      if k <= |front| || (k == |front| + 1 && last != [] && last[1].time == at) {
        m := CutIsSplit(claims[..n], from, until, at, k);
        if k > |front| {
          m := n;
        }
        forall who
          ensures Level(Events(claims, from, until), at, k, who) == Mixed(claims, from, until, m, at, who)
        {
          LevelOfLast(claims, from, until, at, k, who);
          MixedExtend(claims, from, until, m, at, who);
          if k > |front| {
            LevelBeyond(front, at, k, who);
            EventsThrough(claims[..n], from, until, at, who);
            MixedFull(claims[..n], from, until, at, who);
          }
        }
      } else {
        m := |claims|;
        forall who
          ensures Level(Events(claims, from, until), at, k, who) == Mixed(claims, from, until, m, at, who)
        {
          LevelOfLast(claims, from, until, at, k, who);
          LevelBeyond(front, at, k, who);
          EventsThrough(claims[..n], from, until, at, who);
          MixedFull(claims, from, until, at, who);
        }
      }
    }
  }

  /** Every prefix of the sorted events is a split of the claim list, the same split for every owner. */
  lemma PrefixIsSplit<U>(claims: seq<Claim<U>>, from: int, until: int, p: nat) returns (m: nat, at: int)
    requires p <= |Events(claims, from, until)|
    ensures m <= |claims|
    ensures forall who :: Sum(StableSort(Events(claims, from, until))[..p], who) == Mixed(claims, from, until, m, at, who)
  {
    var es := Events(claims, from, until);
    var k;
    at, k := PrefixHasCut(es, p);
    m := CutIsSplit(claims, from, until, at, k);
    forall who ensures Sum(StableSort(es)[..p], who) == Mixed(claims, from, until, m, at, who) {
      PrefixIsLevel(es, at, k, who);
    }
  }

  // ---------------------------------------------------------------- the characterisation

  /** No split exceeds the sweep ... */
  lemma SplitBound<U>(claims: seq<Claim<U>>, from: int, until: int, m: nat, at: int)
    requires m <= |claims|
    ensures Mixed(claims, from, until, m, at, None) <= Peak(claims, from, until)
  {
    var es := Events(claims, from, until);
    var k := |Events(claims[..m], from, until)|;
    SplitIsCut(claims, from, until, m, at, None);
    PrefixIsLevel(es, at, k, None);
    PrefixBound(StableSort(es), Rank(es, at, k));
  }

  /** ... and some split attains it. */
  lemma SplitAttained<U>(claims: seq<Claim<U>>, from: int, until: int) returns (m: nat, at: int)
    ensures m <= |claims|
    ensures Mixed(claims, from, until, m, at, None) == Peak(claims, from, until)
  {
    var p := PrefixAttained(StableSort(Events(claims, from, until)));
    m, at := PrefixIsSplit(claims, from, until, p);
  }

  // ---------------------------------------------------------------- the method

  /** The first loop of both sweeps: two events for each claim that overlaps the window. */
  method CollectEvents<U>(claims: seq<Claim<U>>, windowStart: int, windowEnd: int) returns (events: seq<Event<U>>)
    ensures events == Events(claims, windowStart, windowEnd)
  {
    events := [];
    for i := 0 to |claims|
      invariant events == Events(claims[..i], windowStart, windowEnd)
    {
      var c := claims[i];
      var clippedStart := Max(c.start, windowStart);
      var clippedEnd := Min(c.end, windowEnd);
      assert claims[..i + 1][..i] == claims[..i];
      if clippedStart < clippedEnd {
        events := events + [Event(clippedStart, c.owner, c.ram), Event(clippedEnd, c.owner, -c.ram)];
      }
    }
    assert claims[..|claims|] == claims;
  }

  /** `_peak_concurrent_ram`. The owner of a claim is carried along but never read. */
  method PeakConcurrentRam<U>(claims: seq<Claim<U>>, windowStart: int, windowEnd: int) returns (peak: int)
    ensures peak == Peak(claims, windowStart, windowEnd)
  {
    var events := CollectEvents(claims, windowStart, windowEnd);
    events := StableSort(events);
    var current := 0;
    peak := 0;
    for i := 0 to |events|
      invariant current == Sum(events[..i], None)
      invariant peak == MaxPrefix(events[..i])
    {
      assert events[..i + 1][..i] == events[..i];
      current := current + events[i].delta;
      peak := Max(peak, current);
    }
    assert events[..|events|] == events;
  }
}
