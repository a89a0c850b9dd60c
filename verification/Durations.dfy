/** Duration evidence: pairing starts with completions, and deriving an estimate from the intervals. */
module Durations {
  import opened Basics
  import opened Sorting
  import opened Tasks

  const I64_MAX: int := 0x7FFF_FFFF_FFFF_FFFF

  /** A time in whole seconds: a signed 64-bit number. */
  type I64 = n: int | -I64_MAX - 1 <= n <= I64_MAX

  const MINIMUM_OBSERVATIONS: nat := 5
  const OBSERVATION_WINDOW_SECONDS: nat := 90 * 24 * 60 * 60
  const OUTLIER_MULTIPLE: nat := 8

  function SaturatingSub(a: I64, b: I64): (r: I64)
    ensures a - b <= I64_MAX ==> r == Max(a - b, -I64_MAX - 1)
    ensures a - b >= -I64_MAX - 1 ==> r == Min(a - b, I64_MAX)
  {
    if a - b > I64_MAX then I64_MAX else if a - b < -I64_MAX - 1 then -I64_MAX - 1 else a - b
  }

  datatype Observation = Observation(startedAt: I64, completedAt: I64) {
    function Seconds(): I64 { SaturatingSub(completedAt, startedAt) }

    predicate Usable() { completedAt > startedAt }
  }

  // ----- pairing -----

  datatype Event = Event(time: I64, start: bool)

  /** By time; at one instant starts come before completions. */
  predicate EventLeq(a: Event, b: Event)
  {
    a.time < b.time || (a.time == b.time && (a.start || !b.start))
  }

  /** In time order; at one instant no start comes after a completion. */
  ghost predicate InTime(events: seq<Event>)
  {
    forall i, j | 0 <= i < j < |events| ::
      events[i].time <= events[j].time && (events[i].time == events[j].time && events[j].start ==> events[i].start)
  }

  /** Sorting by the comparison above puts exactly the given events in that order. */
  lemma SortedInTime(events: seq<Event>)
    ensures InTime(Sort(EventLeq, events)) && multiset(Sort(EventLeq, events)) == multiset(events)
  {
    EventOrder();
    SortSorted(EventLeq, events);
    var sorted := Sort(EventLeq, events);
    forall i, j | 0 <= i < j < |sorted|
      ensures sorted[i].time <= sorted[j].time
      ensures sorted[i].time == sorted[j].time && sorted[j].start ==> sorted[i].start
    {
      assert EventLeq(sorted[i], sorted[j]);
    }
  }

  /** In time order, exactly the neighbours that are a start and a completion. */
  ghost function Intervals(events: seq<Event>): seq<Observation>
  {
    if |events| < 2 then []
    else
      (if events[0].start && !events[1].start then [Observation(events[0].time, events[1].time)] else [])
      + Intervals(events[1..])
  }

  /** A start replaces an open one; a completion closes it. */
  method Pair(events: seq<Event>) returns (observations: seq<Observation>)
    ensures observations == Intervals(Sort(EventLeq, events))
  {
    var sorted := Sort(EventLeq, events);
    var open: Option<I64> := None;
    observations := [];
    var i := 0;
    while i < |sorted|
      invariant 0 <= i <= |sorted|
      invariant open == if i > 0 && sorted[i - 1].start then Some(sorted[i - 1].time) else None
      invariant observations == Intervals(sorted[..i])
    {
      OneMoreEvent(sorted, i);
      if sorted[i].start {
        open := Some(sorted[i].time);
      } else if open.Some? {
        observations := observations + [Observation(open.value, sorted[i].time)];
        open := None;
      }
      i := i + 1;
    }
    assert sorted[..i] == sorted;
  }

  lemma OneMoreEvent(sorted: seq<Event>, i: nat)
    requires i < |sorted|
    ensures Intervals(sorted[..i + 1]) == Intervals(sorted[..i]) +
              if i > 0 && sorted[i - 1].start && !sorted[i].start
                  then [Observation(sorted[i - 1].time, sorted[i].time)] else []
  {
    IntervalsSnoc(sorted[..i], sorted[i]);
    assert sorted[..i + 1] == sorted[..i] + [sorted[i]];
  }

  lemma {:induction false} IntervalsSnoc(events: seq<Event>, e: Event)
    ensures Intervals(events + [e]) == Intervals(events) +
              if events != [] && events[|events| - 1].start && !e.start
                  then [Observation(events[|events| - 1].time, e.time)] else []
  {
    if |events| >= 2 {
      IntervalsSnoc(events[1..], e);
      assert (events + [e])[1..] == events[1..] + [e];
    }
  }

  /** The start at position `k` is closed by the completion right after it. */
  ghost predicate ClosedAt(events: seq<Event>, k: nat, o: Observation)
  {
    k + 1 < |events| && events[k].start && !events[k + 1].start && o == Observation(events[k].time, events[k + 1].time)
  }

  /** Each interval runs from the last start to the first completion after it, with nothing in between. */
  lemma {:induction false} IntervalsAreNeighbours(events: seq<Event>, o: Observation)
    ensures o in Intervals(events) <==> exists k: nat :: ClosedAt(events, k, o)
  {
    if |events| >= 2 {
      var rest := events[1..];
      IntervalsAreNeighbours(rest, o);
      if k: nat :| ClosedAt(rest, k, o) {
        assert ClosedAt(events, k + 1, o);
      }
      if k: nat :| ClosedAt(events, k, o) {
        if k > 0 { assert ClosedAt(rest, k - 1, o); }
      }
      if events[0].start && !events[1].start && o == Observation(events[0].time, events[1].time) {
        assert ClosedAt(events, 0, o);
      }
    }
  }

  ghost predicate InOrder(observations: seq<Observation>)
  {
    && (forall i :: 0 <= i < |observations| ==> observations[i].startedAt <= observations[i].completedAt)
    && (forall i, j :: 0 <= i < j < |observations| ==> observations[i].completedAt <= observations[j].startedAt)
  }

  ghost predicate Between(events: seq<Event>, low: int, high: int)
  {
    forall e :: e in events ==> low <= e.time <= high
  }

  ghost predicate Within(observations: seq<Observation>, low: int, high: int)
  {
    forall i :: 0 <= i < |observations| ==> low <= observations[i].startedAt && observations[i].completedAt <= high
  }

  /** Intervals are in time order, never overlap, and stay where their events are. */
  lemma {:induction false} IntervalsInOrder(events: seq<Event>, low: int, high: int)
    requires SortedBy(EventLeq, events) && Between(events, low, high)
    ensures InOrder(Intervals(events)) && Within(Intervals(events), low, high)
  {
    if |events| >= 2 {
      var rest := events[1..];
      assert events[0] in events && events[1] in events;
      assert EventLeq(events[0], events[1]);
      forall e | e in rest ensures low <= e.time <= high && events[1].time <= e.time {
        var k :| 0 <= k < |rest| && rest[k] == e;
        assert events[k + 1] in events;
        if k > 0 { assert EventLeq(events[1], events[k + 1]); }
      }
      IntervalsInOrder(rest, events[1].time, high);
      var later := Intervals(rest);
      assert Within(later, events[1].time, high);
    }
  }

  lemma EventOrder()
    ensures TotalPreorder(EventLeq) && Antisymmetric(EventLeq)
  {
  }

  /** What is paired depends only on which events there are, not on how they arrive. */
  lemma PairIgnoresOrder(a: seq<Event>, b: seq<Event>)
    requires multiset(a) == multiset(b)
    ensures Intervals(Sort(EventLeq, a)) == Intervals(Sort(EventLeq, b))
  {
    EventOrder();
    SortDependsOnMultiset(EventLeq, a, b);
  }

  ghost function TotalSeconds(observations: seq<Observation>): int
  {
    if observations == [] then 0
    else observations[0].completedAt - observations[0].startedAt + TotalSeconds(observations[1..])
  }

  lemma {:induction false} DisjointTotal(observations: seq<Observation>, low: int, high: int)
    requires InOrder(observations) && Within(observations, low, high) && low <= high
    ensures 0 <= TotalSeconds(observations) <= high - low
  {
    if observations != [] {
      var first, rest := observations[0], observations[1..];
      forall i | 0 <= i < |rest|
        ensures first.completedAt <= rest[i].startedAt { assert rest[i] == observations[i + 1]; }
      assert InOrder(rest) && Within(rest, first.completedAt, high);
      DisjointTotal(rest, first.completedAt, high);
    }
  }

  /** The time observed inside any stretch is never longer than the stretch. */
  lemma ObservedTimeBounded(events: seq<Event>, low: int, high: int)
    requires Between(events, low, high) && low <= high
    ensures 0 <= TotalSeconds(Intervals(Sort(EventLeq, events))) <= high - low
  {
    EventOrder();
    SortSorted(EventLeq, events);
    MultisetMembers(Sort(EventLeq, events), events);
    IntervalsInOrder(Sort(EventLeq, events), low, high);
    DisjointTotal(Intervals(Sort(EventLeq, events)), low, high);
  }

  // ----- by group -----

  datatype Row = Row(group: Id, time: I64, start: bool)

  /** At most ninety days old and not in the future. */
  ghost predicate Recent(row: Row, now: I64)
  {
    now - 7_776_000 <= row.time <= now
  }

  /** The recent events of one group, in the order of the rows. */
  ghost function EventsOf(rows: seq<Row>, now: I64, group: Id): seq<Event>
  {
    if rows == [] then []
    else
      var n := |rows| - 1;
      EventsOf(rows[..n], now, group) +
      if rows[n].group == group && Recent(rows[n], now) then [Event(rows[n].time, rows[n].start)] else []
  }

  ghost predicate Grouped(rows: seq<Row>, now: I64, groups: map<Id, seq<Event>>)
  {
    && (forall g :: g in groups ==> groups[g] == EventsOf(rows, now, g) && groups[g] != [])
    && (forall g :: EventsOf(rows, now, g) != [] ==> g in groups)
  }

  function SoFar(groups: map<Id, seq<Event>>, group: Id): seq<Event>
  {
    if group in groups then groups[group] else []
  }

  /** One more row adds its event to its group, if it is recent. */
  lemma GroupsGrow(rows: seq<Row>, now: I64, i: nat, groups: map<Id, seq<Event>>)
    requires i < |rows| && Grouped(rows[..i], now, groups)
    ensures var row := rows[i];
            Grouped(rows[..i + 1], now,
              if Recent(row, now) then groups[row.group := SoFar(groups, row.group) + [Event(row.time, row.start)]]
              else groups)
  {
    var row, more := rows[i], rows[..i + 1];
    assert more[..i] == rows[..i];
    forall g ensures EventsOf(more, now, g) ==
                       EventsOf(rows[..i], now, g)
                       + if row.group == g && Recent(row, now) then [Event(row.time, row.start)] else [] {}
    forall g | g !in groups ensures EventsOf(rows[..i], now, g) == [] {}
  }

  method GroupRows(rows: seq<Row>, now: I64) returns (groups: map<Id, seq<Event>>)
    ensures Grouped(rows, now, groups)
  {
    groups := map[];
    var since := SaturatingSub(now, OBSERVATION_WINDOW_SECONDS);
    var i := 0;
    assert rows[..0] == [];
    while i < |rows|
      invariant 0 <= i <= |rows|
      invariant Grouped(rows[..i], now, groups)
    {
      var row := rows[i];
      GroupsGrow(rows, now, i, groups);
      if row.time >= since && row.time <= now {
        groups := groups[row.group := SoFar(groups, row.group) + [Event(row.time, row.start)]];
      }
      i := i + 1;
    }
    assert rows[..i] == rows;
  }

  /** The intervals of every group that has a recent event. */
  method ByGroup(rows: seq<Row>, now: I64) returns (r: map<Id, seq<Observation>>)
    ensures forall g :: g in r <==> EventsOf(rows, now, g) != []
    ensures forall g :: g in r ==> r[g] == Intervals(Sort(EventLeq, EventsOf(rows, now, g)))
  {
    var groups := GroupRows(rows, now);
    r := PairAll(groups);
  }

  method PairAll(groups: map<Id, seq<Event>>) returns (r: map<Id, seq<Observation>>)
    ensures r.Keys == groups.Keys
    ensures forall g :: g in r ==> r[g] == Intervals(Sort(EventLeq, groups[g]))
  {
    r := map[];
    var rest := groups.Keys;
    while rest != {}
      invariant rest <= groups.Keys && r.Keys == groups.Keys - rest
      invariant forall g :: g in r ==> r[g] == Intervals(Sort(EventLeq, groups[g]))
      decreases |rest|
    {
      var g := Least(rest);
      var paired := Pair(groups[g]);
      r := r[g := paired];
      rest := rest - {g};
    }
  }

  lemma {:induction false} GroupIsRecent(rows: seq<Row>, now: I64, group: Id)
    ensures Between(EventsOf(rows, now, group), now - 7_776_000, now)
  {
    if rows != [] { GroupIsRecent(rows[..|rows| - 1], now, group); }
  }

  /** No group is ever credited with more than ninety days. */
  lemma GroupTimeBounded(rows: seq<Row>, now: I64, group: Id)
    ensures 0 <= TotalSeconds(Intervals(Sort(EventLeq, EventsOf(rows, now, group)))) <= 7_776_000
  {
    GroupIsRecent(rows, now, group);
    ObservedTimeBounded(EventsOf(rows, now, group), now - 7_776_000, now);
  }

  // ----- percentiles -----

  /** The nearest rank of a fraction of `n`, as an exact ceiling. */
  function Rank(n: nat, num: nat, den: nat): (r: nat)
    requires n > 0 && 0 < num <= den
    ensures 1 <= r <= n
    ensures den * (r - 1) < n * num <= den * r
  {
    RankBounds(n, num, den);
    (n * num + den - 1) / den
  }

  lemma RankBounds(n: nat, num: nat, den: nat)
    requires n > 0 && 0 < num <= den
    ensures var r := (n * num + den - 1) / den; 1 <= r <= n && den * (r - 1) < n * num <= den * r
  {
    var x := n * num + den - 1;
    var r := x / den;
    MulMonotone(n, num, den);
    MulMonotone(n, 1, num);
    assert x == den * r + x % den;
    assert den * (r - 1) == den * r - den;
    MulCancel(den, r - 1, n);
    MulCancel(den, 0, r);
  }

  lemma MulMonotone(a: nat, b: int, c: int)
    requires b <= c
    ensures a * b <= a * c
  {
  }

  lemma MulCancel(den: nat, a: int, b: int)
    requires den > 0 && den * a < den * b
    ensures a < b
  {
    if b <= a { MulMonotone(den, b, a); }
  }

  ghost predicate SortedInts(s: seq<int>)
  {
    forall i, j :: 0 <= i < j < |s| ==> s[i] <= s[j]
  }

  function Percentile(sorted: seq<int>, num: nat, den: nat): int
    requires sorted != [] && 0 < num <= den
  {
    sorted[Rank(|sorted|, num, den) - 1]
  }

  // ----- quantiles by counting -----

  /** The element that fewer than a share of num / den lie below, and at least that share do not exceed. */
  ghost predicate IsQuantile(s: seq<int>, num: nat, den: nat, v: int)
  {
    && v in s
    && den * |Filter((x: int) => x < v, s)| < num * |s| <= den * |Filter((x: int) => x <= v, s)|
  }

  lemma {:induction false} CountMonotone(p: int -> bool, q: int -> bool, s: seq<int>)
    requires forall x :: p(x) ==> q(x)
    ensures |Filter(p, s)| <= |Filter(q, s)|
  {
    if s != [] { CountMonotone(p, q, s[1..]); }
  }

  /** There is one such element at most. */
  lemma QuantileUnique(s: seq<int>, num: nat, den: nat, v: int, w: int)
    requires IsQuantile(s, num, den, v) && IsQuantile(s, num, den, w)
    ensures v == w
  {
    if v < w {
      QuantileNotBelow(s, num, den, v, w);
    } else if w < v {
      QuantileNotBelow(s, num, den, w, v);
    }
  }

  lemma QuantileNotBelow(s: seq<int>, num: nat, den: nat, v: int, w: int)
    requires v < w && IsQuantile(s, num, den, v)
    ensures !IsQuantile(s, num, den, w)
  {
    var upToV, belowW := |Filter((x: int) => x <= v, s)|, |Filter((x: int) => x < w, s)|;
    CountMonotone((x: int) => x <= v, (x: int) => x < w, s);
    MulMonotone(den, upToV, belowW);
  }

  /** Nearest rank in the sorted list picks it. */
  lemma PercentileIsQuantile(sorted: seq<int>, num: nat, den: nat)
    requires SortedInts(sorted) && sorted != [] && 0 < num <= den
    ensures IsQuantile(sorted, num, den, Percentile(sorted, num, den))
  {
    var r, v := Rank(|sorted|, num, den), Percentile(sorted, num, den);
    var k := RetainIsPrefix(sorted, v);
    var j := RetainIsPrefix(sorted, v - 1);
    FilterAgree((x: int) => x < v, (x: int) => x <= v - 1, sorted);
    assert sorted[r - 1] == v;
    assert r <= k && j <= r - 1;
    RankShares(|sorted|, num, den, r, j, k);
  }

  lemma RankShares(n: nat, num: nat, den: nat, r: nat, j: nat, k: nat)
    requires 1 <= r && den * (r - 1) < n * num <= den * r && r <= k && j <= r - 1
    ensures den * j < num * n <= den * k
  {
    MulMonotone(den, r, k);
    MulMonotone(den, j, r - 1);
  }

  lemma {:induction false} FilterCounts<T(!new)>(p: T -> bool, s: seq<T>, x: T)
    ensures multiset(Filter(p, s))[x] == if p(x) then multiset(s)[x] else 0
  {
    if s != [] {
      FilterCounts(p, s[1..], x);
      assert s == [s[0]] + s[1..];
    }
  }

  lemma FilterKeepsMultiset<T(!new)>(p: T -> bool, a: seq<T>, b: seq<T>)
    requires multiset(a) == multiset(b)
    ensures multiset(Filter(p, a)) == multiset(Filter(p, b)) && |Filter(p, a)| == |Filter(p, b)|
  {
    forall x ensures multiset(Filter(p, a))[x] == multiset(Filter(p, b))[x] {
      FilterCounts(p, a, x);
      FilterCounts(p, b, x);
    }
    SameSize(Filter(p, a), Filter(p, b));
  }

  lemma SameSize<T>(a: seq<T>, b: seq<T>)
    requires multiset(a) == multiset(b)
    ensures |a| == |b|
  {
    assert |multiset(a)| == |a| && |multiset(b)| == |b|;
  }

  lemma QuantileIgnoresOrder(a: seq<int>, b: seq<int>, num: nat, den: nat, v: int)
    requires multiset(a) == multiset(b) && IsQuantile(a, num, den, v)
    ensures IsQuantile(b, num, den, v)
  {
    assert v in multiset(a) && v in multiset(b);
    SameSize(a, b);
    FilterKeepsMultiset((x: int) => x < v, a, b);
    FilterKeepsMultiset((x: int) => x <= v, a, b);
  }

  // ----- deriving an estimate -----

  predicate IntLeq(a: int, b: int) { a <= b }

  /** The lengths of the usable intervals, sorted. */
  function Lengths(observations: seq<Observation>): seq<int>
  {
    Sort(IntLeq, Map((o: Observation) => o.Seconds() as int, Filter((o: Observation) => o.Usable(), observations)))
  }

  function Ceiling(sorted: seq<int>): int
    requires sorted != []
  {
    Min(Percentile(sorted, 1, 2) * OUTLIER_MULTIPLE, U64_MAX)
  }

  /** What the outlier filter keeps. */
  function Kept(sorted: seq<int>): seq<int>
    requires sorted != []
  {
    var ceiling := Ceiling(sorted);
    Filter((x: int) => x <= ceiling, sorted)
  }

  datatype DerivedDuration = DerivedDuration(estimate: DurationModel, observations: nat, min: U64, mode: U64, p95: U64)

  datatype Untrusted = TooFewObservations(n: nat)

  /** The lengths of the intervals that end after they start, none longer than a signed 64-bit number can say. */
  ghost function Worked(observations: seq<Observation>): seq<int>
  {
    Map((o: Observation) => Min(o.completedAt - o.startedAt, I64_MAX),
        Filter((o: Observation) => o.completedAt > o.startedAt, observations))
  }

  /** Most likely and high length are the median and the nineteenth twentieth, moved up where they tie. */
  ghost predicate Nudged(d: DerivedDuration, median: int, tail: int)
  {
    if d.min == tail then d.estimate == Fixed(d.min) && d.mode == d.min && d.p95 == d.min
    else
      && d.estimate == ShiftedLognormalP95(d.min, d.mode, d.p95)
      && d.mode == (if median > d.min then median else d.min + 1)
      && d.p95 == (if tail > d.mode then tail else d.mode + 1)
  }

  /** The estimate gives the least length, the median and the nineteenth twentieth of the kept ones. */
  ghost predicate Summarises(kept: seq<int>, d: DerivedDuration)
  {
    && d.observations == |kept| && d.min in kept && (forall x :: x in kept ==> d.min <= x)
    && exists median, tail :: ReadOff(kept, d, median, tail)
  }

  ghost predicate ReadOff(kept: seq<int>, d: DerivedDuration, median: int, tail: int)
  {
    IsQuantile(kept, 1, 2, median) && IsQuantile(kept, 19, 20, tail) && Nudged(d, median, tail)
  }

  /** Lengths above eight medians, capped at 64 bits, are left out; five are needed before and after. */
  ghost predicate DerivedFrom(lengths: seq<int>, r: Result<DerivedDuration, Untrusted>)
  {
    if |lengths| < 5 then r == Err(TooFewObservations(|lengths|))
    else exists median :: IsQuantile(lengths, 1, 2, median) && DerivedWithin(lengths, Min(8 * median, U64_MAX), r)
  }

  ghost predicate DerivedWithin(lengths: seq<int>, ceiling: int, r: Result<DerivedDuration, Untrusted>)
  {
    var kept := Filter((x: int) => x <= ceiling, lengths);
    if |kept| < 5 then r == Err(TooFewObservations(|kept|)) else r.Ok? && Summarises(kept, r.value)
  }

  method Derive(observations: seq<Observation>) returns (r: Result<DerivedDuration, Untrusted>)
    ensures DerivedFrom(Worked(observations), r)
  {
    var seconds := Lengths(observations);
    LengthsAreWorked(observations);
    LengthsPositive(observations);
    r := DeriveSorted(seconds);
    DerivedIgnoresOrder(seconds, Worked(observations), r);
  }

  method DeriveSorted(seconds: seq<int>) returns (r: Result<DerivedDuration, Untrusted>)
    requires PositiveSorted(seconds)
    ensures DerivedFrom(seconds, r)
  {
    if |seconds| < MINIMUM_OBSERVATIONS { return Err(TooFewObservations(|seconds|)); }
    FilterKeepsHalf(seconds);
    PercentileIsQuantile(seconds, 1, 2);
    var kept := Kept(seconds);
    if |kept| < MINIMUM_OBSERVATIONS { return Err(TooFewObservations(|kept|)); }
    var d := Statistics(kept);
    return Ok(d);
  }

  method Statistics(kept: seq<int>) returns (d: DerivedDuration)
    requires PositiveSorted(kept) && kept != []
    ensures Summarises(kept, d)
  {
    var min, mode, p95 := kept[0], Percentile(kept, 1, 2), Percentile(kept, 19, 20);
    PercentileIsQuantile(kept, 1, 2);
    PercentileIsQuantile(kept, 19, 20);
    StatisticsOrdered(kept);
    ghost var median, tail := mode, p95;
    if min == p95 {
      d := DerivedDuration(Fixed(min), |kept|, min, mode, p95);
    } else {
      mode := Max(mode, min + 1);
      p95 := Max(p95, mode + 1);
      d := DerivedDuration(ShiftedLognormalP95(min, mode, p95), |kept|, min, mode, p95);
    }
    assert ReadOff(kept, d, median, tail);
  }

  lemma LengthsAreWorked(observations: seq<Observation>)
    ensures multiset(Lengths(observations)) == multiset(Worked(observations))
  {
    FilterAgree((o: Observation) => o.Usable(), (o: Observation) => o.completedAt > o.startedAt, observations);
    var usable := Filter((o: Observation) => o.Usable(), observations);
    var raw := Map((o: Observation) => o.Seconds() as int, usable);
    forall i | 0 <= i < |raw| ensures raw[i] == Worked(observations)[i] {
      assert usable[i] in usable;
    }
    assert raw == Worked(observations);
    SortSorted(IntLeq, raw);
  }

  lemma DerivedIgnoresOrder(a: seq<int>, b: seq<int>, r: Result<DerivedDuration, Untrusted>)
    requires multiset(a) == multiset(b) && DerivedFrom(a, r)
    ensures DerivedFrom(b, r)
  {
    SameSize(a, b);
    if |a| >= 5 {
      var median :| IsQuantile(a, 1, 2, median) && DerivedWithin(a, Min(8 * median, U64_MAX), r);
      QuantileIgnoresOrder(a, b, 1, 2, median);
      WithinIgnoresOrder(a, b, Min(8 * median, U64_MAX), r);
    }
  }

  lemma WithinIgnoresOrder(a: seq<int>, b: seq<int>, ceiling: int, r: Result<DerivedDuration, Untrusted>)
    requires multiset(a) == multiset(b) && DerivedWithin(a, ceiling, r)
    ensures DerivedWithin(b, ceiling, r)
  {
    var p := (x: int) => x <= ceiling;
    FilterKeepsMultiset(p, a, b);
    if r.Ok? { SummaryIgnoresOrder(Filter(p, a), Filter(p, b), r.value); }
  }

  lemma SummaryIgnoresOrder(a: seq<int>, b: seq<int>, d: DerivedDuration)
    requires multiset(a) == multiset(b) && Summarises(a, d)
    ensures Summarises(b, d)
  {
    SameSize(a, b);
    MultisetMembers(a, b);
    var median, tail :| ReadOff(a, d, median, tail);
    QuantileIgnoresOrder(a, b, 1, 2, median);
    QuantileIgnoresOrder(a, b, 19, 20, tail);
    assert ReadOff(b, d, median, tail);
  }

  /** The lengths determine the answer. */
  lemma DerivedUnique(lengths: seq<int>, r: Result<DerivedDuration, Untrusted>, s: Result<DerivedDuration, Untrusted>)
    requires DerivedFrom(lengths, r) && DerivedFrom(lengths, s)
    ensures r == s
  {
    if |lengths| >= 5 {
      var m :| IsQuantile(lengths, 1, 2, m) && DerivedWithin(lengths, Min(8 * m, U64_MAX), r);
      var n :| IsQuantile(lengths, 1, 2, n) && DerivedWithin(lengths, Min(8 * n, U64_MAX), s);
      QuantileUnique(lengths, 1, 2, m, n);
      if r.Ok? { SummaryUnique(Filter((x: int) => x <= Min(8 * m, U64_MAX), lengths), r.value, s.value); }
    }
  }

  lemma {:induction false} SummaryUnique(kept: seq<int>, d: DerivedDuration, e: DerivedDuration)
    requires Summarises(kept, d) && Summarises(kept, e)
    ensures d == e
  {
    assert d.min == e.min;
    var m, t :| ReadOff(kept, d, m, t);
    var n, u :| ReadOff(kept, e, n, u);
    SameStatistics(kept, d, e, m, t, n, u);
    NudgedUnique(d, e, m, t);
  }

  lemma SameStatistics(kept: seq<int>, d: DerivedDuration, e: DerivedDuration, m: int, t: int, n: int, u: int)
    requires ReadOff(kept, d, m, t) && ReadOff(kept, e, n, u)
    ensures m == n && t == u && Nudged(d, m, t) && Nudged(e, m, t)
  {
    QuantileUnique(kept, 1, 2, m, n);
    QuantileUnique(kept, 19, 20, t, u);
  }

  lemma NudgedUnique(d: DerivedDuration, e: DerivedDuration, median: int, tail: int)
    requires Nudged(d, median, tail) && Nudged(e, median, tail) && d.min == e.min && d.observations == e.observations
    ensures d == e
  {
  }

  ghost predicate PositiveSorted(s: seq<int>)
  {
    SortedInts(s) && forall i :: 0 <= i < |s| ==> 1 <= s[i] <= I64_MAX
  }

  lemma LengthsPositive(observations: seq<Observation>)
    ensures PositiveSorted(Lengths(observations))
  {
    var usable := Filter((o: Observation) => o.Usable(), observations);
    var raw := Map((o: Observation) => o.Seconds() as int, usable);
    SortSorted(IntLeq, raw);
    MultisetMembers(Lengths(observations), raw);
    forall i | 0 <= i < |Lengths(observations)| ensures 1 <= Lengths(observations)[i] <= I64_MAX {
      assert Lengths(observations)[i] in raw;
      var o := FromMap((o: Observation) => o.Seconds() as int, usable, Lengths(observations)[i]);
    }
  }

  lemma {:induction false} RetainIsPrefix(s: seq<int>, ceiling: int) returns (k: nat)
    requires SortedInts(s)
    ensures k <= |s| && Filter((x: int) => x <= ceiling, s) == s[..k]
    ensures forall i :: 0 <= i < |s| ==> (i < k <==> s[i] <= ceiling)
  {
    if s == [] || s[0] > ceiling {
      k := 0;
      NoneBelow(s, ceiling);
    } else {
      var rest := RetainIsPrefix(s[1..], ceiling);
      k := rest + 1;
      PrefixGrows(s, ceiling, rest);
    }
  }

  lemma NoneBelow(s: seq<int>, ceiling: int)
    requires SortedInts(s) && (s == [] || s[0] > ceiling)
    ensures Filter((x: int) => x <= ceiling, s) == []
    ensures forall i :: 0 <= i < |s| ==> s[i] > ceiling
  {
    forall i | 0 <= i < |s| ensures s[i] > ceiling {
      if i > 0 { assert s[0] <= s[i]; }
    }
    FilterNone((x: int) => x <= ceiling, s);
  }

  lemma PrefixGrows(s: seq<int>, ceiling: int, rest: nat)
    requires s != [] && s[0] <= ceiling && rest < |s| && Filter((x: int) => x <= ceiling, s[1..]) == s[1..][..rest]
    requires forall i :: 0 <= i < |s| - 1 ==> (i < rest <==> s[1..][i] <= ceiling)
    ensures Filter((x: int) => x <= ceiling, s) == s[..rest + 1]
    ensures forall i :: 0 <= i < |s| ==> (i < rest + 1 <==> s[i] <= ceiling)
  {
    assert s[..rest + 1] == [s[0]] + s[1..][..rest];
    ShiftByOne(s, ceiling, rest);
  }

  lemma ShiftByOne(s: seq<int>, ceiling: int, rest: nat)
    requires s != [] && s[0] <= ceiling
    requires forall i :: 0 <= i < |s| - 1 ==> (i < rest <==> s[1..][i] <= ceiling)
    ensures forall i :: 0 <= i < |s| ==> (i < rest + 1 <==> s[i] <= ceiling)
  {
    forall i | 0 < i < |s| ensures i < rest + 1 <==> s[i] <= ceiling {
      assert s[1..][i - 1] == s[i];
    }
  }

  /** The outlier filter keeps a prefix of the sorted lengths, with at least half of them, and the same minimum. */
  lemma FilterKeepsHalf(s: seq<int>)
    requires PositiveSorted(s) && s != []
    ensures Kept(s) <= s && 2 * |Kept(s)| >= |s|
    ensures Kept(s) != [] && Kept(s)[0] == s[0] && PositiveSorted(Kept(s))
    ensures forall i :: |Kept(s)| <= i < |s| ==> s[i] > Ceiling(s)
  {
    var k := RetainIsPrefix(s, Ceiling(s));
    CeilingAboveMedian(s);
    HalfKept(s, Ceiling(s), Rank(|s|, 1, 2), k);
    PrefixStaysPositive(s, k);
  }

  lemma CeilingAboveMedian(s: seq<int>)
    requires PositiveSorted(s) && s != []
    ensures s[Rank(|s|, 1, 2) - 1] <= Ceiling(s)
  {
    var median := Percentile(s, 1, 2);
    assert 1 <= median <= I64_MAX;
  }

  lemma HalfKept(s: seq<int>, ceiling: int, r: nat, k: nat)
    requires 1 <= r <= |s| <= 2 * r && s[r - 1] <= ceiling && k <= |s|
    requires forall i :: 0 <= i < |s| ==> (i < k <==> s[i] <= ceiling)
    ensures 0 < k && 2 * k >= |s|
  {
    assert r - 1 < k;
  }

  lemma PrefixStaysPositive(s: seq<int>, k: nat)
    requires PositiveSorted(s) && k <= |s|
    ensures PositiveSorted(s[..k]) && s[..k] <= s
  {
  }

  lemma StatisticsOrdered(s: seq<int>)
    requires PositiveSorted(s) && s != []
    ensures s[0] <= Percentile(s, 1, 2) <= Percentile(s, 19, 20)
  {
    var a, b := Rank(|s|, 1, 2), Rank(|s|, 19, 20);
    assert 2 * (a - 1) < |s| && |s| * 19 <= 20 * b;
    assert a <= b;
    if 0 < a - 1 { assert s[0] <= s[a - 1]; }
    if a < b { assert s[a - 1] <= s[b - 1]; }
  }

  /** The estimate depends only on which intervals were observed. */
  lemma DeriveIgnoresOrder(a: seq<Observation>, b: seq<Observation>, r: Result<DerivedDuration, Untrusted>,
                           s: Result<DerivedDuration, Untrusted>)
    requires multiset(a) == multiset(b) && DerivedFrom(Worked(a), r) && DerivedFrom(Worked(b), s)
    ensures r == s
  {
    SameLengths(a, b);
    DerivedIgnoresOrder(Worked(a), Worked(b), r);
    DerivedUnique(Worked(b), r, s);
  }

  lemma {:induction false} WorkedAppend(a: seq<Observation>, b: seq<Observation>)
    ensures Worked(a + b) == Worked(a) + Worked(b)
  {
    FilterAppend((o: Observation) => o.completedAt > o.startedAt, a, b);
  }

  lemma {:induction false} SameLengths(a: seq<Observation>, b: seq<Observation>)
    requires multiset(a) == multiset(b)
    ensures multiset(Worked(a)) == multiset(Worked(b))
    decreases |a|
  {
    if a == [] {
      assert |multiset(b)| == 0;
    } else {
      var x := a[0];
      assert x in multiset(a) && x in multiset(b);
      var c := TakeOut(a, x);
      var d := TakeOut(b, x);
      SameLengths(c, d);
    }
  }

  lemma TakeOut(b: seq<Observation>, x: Observation) returns (rest: seq<Observation>)
    requires x in b
    ensures |rest| < |b| && multiset(rest) == multiset(b) - multiset{x}
    ensures multiset(Worked(b)) == multiset(Worked([x])) + multiset(Worked(rest))
  {
    var i :| 0 <= i < |b| && b[i] == x;
    var front, back := b[..i], b[i + 1..];
    rest := front + back;
    assert b == front + [x] + back;
    LengthsSplit(front, x, back);
  }

  lemma LengthsSplit(front: seq<Observation>, x: Observation, back: seq<Observation>)
    ensures multiset(Worked(front + [x] + back)) == multiset(Worked([x])) + multiset(Worked(front + back))
  {
    WorkedAppend(front + [x], back);
    WorkedAppend(front, [x]);
    WorkedAppend(front, back);
  }
}
