/** Half-open spans of planning time, and first fit among occupied spans. */
module Spans {
  import opened Basics
  import opened Sorting

  datatype TimeWindow = TimeWindow(start: U64, end: U64)

  predicate Overlap(a: TimeWindow, b: TimeWindow)
  {
    a.start < b.end && a.end > b.start
  }

  ghost predicate Proper(w: TimeWindow)
  {
    w.start < w.end
  }

  ghost predicate Holds(w: TimeWindow, t: nat)
  {
    w.start <= t < w.end
  }

  ghost predicate Inside(inner: TimeWindow, outer: TimeWindow)
  {
    outer.start <= inner.start && inner.end <= outer.end
  }

  /** Two proper spans overlap exactly when they share an instant. */
  lemma OverlapIsSharedInstant(a: TimeWindow, b: TimeWindow)
    requires Proper(a) && Proper(b)
    ensures Overlap(a, b) <==> exists t: nat :: Holds(a, t) && Holds(b, t)
  {
    if Overlap(a, b) {
      var t := Max(a.start, b.start);
      assert Holds(a, t) && Holds(b, t);
    }
  }

  /** Equal spans are not said to contain one another. */
  predicate Contains(outer: TimeWindow, inner: TimeWindow)
  {
    && outer.start <= inner.start
    && outer.end >= inner.end
    && (outer.start < inner.start || outer.end > inner.end)
  }

  predicate Nested(a: TimeWindow, b: TimeWindow)
  {
    Contains(a, b) || Contains(b, a)
  }

  /** `duration` seconds from `s` stay inside `window` and clear of everything occupied. */
  ghost predicate Fits(window: TimeWindow, occupied: seq<TimeWindow>, duration: nat, s: nat)
  {
    && window.start <= s
    && s + duration <= window.end
    && Clear(occupied, s, s + duration)
  }

  ghost predicate Clear(occupied: seq<TimeWindow>, s: nat, e: nat)
  {
    forall i :: 0 <= i < |occupied| ==> !(s < occupied[i].end && e > occupied[i].start)
  }

  predicate StartsNoLater(a: TimeWindow, b: TimeWindow)
  {
    a.start < b.start || (a.start == b.start && a.end <= b.end)
  }

  /** The first placement of `duration` seconds in `window` clear of `occupied`. */
  method EarliestFit(window: TimeWindow, occupied: seq<TimeWindow>, duration: U64)
    returns (fit: Option<TimeWindow>)
    ensures fit.Some? ==>
              && Fits(window, occupied, duration, fit.value.start)
              && fit.value.end == fit.value.start + duration
              && forall s: nat :: Fits(window, occupied, duration, s) ==> fit.value.start <= s
    ensures fit.None? ==> forall s: nat :: !Fits(window, occupied, duration, s)
  {
    var intervals := Nearby(window, occupied);
    var cursor: U64 := window.start;
    var i := 0;
    while i < |intervals|
      invariant 0 <= i <= |intervals|
      invariant NothingBefore(window, intervals, duration, cursor, i)
    {
      var end := CheckedAdd(cursor, duration);
      if end.Some? && end.value <= Min(intervals[i].start, window.end) {
        FirstGap(window, occupied, intervals, duration, cursor, i);
        return Some(TimeWindow(cursor, end.value));
      }
      CursorAdvances(window, intervals, duration, cursor, i);
      cursor := Max(cursor, intervals[i].end);
      i := i + 1;
    }
    var end := CheckedAdd(cursor, duration);
    if end.Some? && end.value <= window.end {
      FirstGap(window, occupied, intervals, duration, cursor, i);
      return Some(TimeWindow(cursor, end.value));
    }
    NoGap(window, occupied, intervals, duration, cursor);
    return None;
  }

  /** The occupied spans that meet the window, by their start. */
  ghost predicate IsNearby(window: TimeWindow, occupied: seq<TimeWindow>, intervals: seq<TimeWindow>)
  {
    && SortedBy(StartsNoLater, intervals)
    && forall w :: w in intervals <==> w in occupied && w.start < window.end && w.end > window.start
  }

  method Nearby(window: TimeWindow, occupied: seq<TimeWindow>) returns (intervals: seq<TimeWindow>)
    ensures IsNearby(window, occupied, intervals)
  {
    var near := Filter((w: TimeWindow) => w.start < window.end && w.end > window.start, occupied);
    intervals := Sort(StartsNoLater, near);
    SortSorted(StartsNoLater, near);
    MultisetMembers(near, intervals);
  }

  /** The first `i` spans are behind the cursor, and nothing fits before it. */
  ghost predicate NothingBefore(window: TimeWindow, intervals: seq<TimeWindow>, duration: nat, cursor: nat, i: nat)
  {
    && i <= |intervals| && window.start <= cursor
    && (forall k :: 0 <= k < i ==> intervals[k].end <= cursor)
    && (forall s: nat :: Fits(window, intervals, duration, s) ==> cursor <= s)
  }

  /** The gap at the cursor is the first there is. */
  lemma FirstGap(window: TimeWindow, occupied: seq<TimeWindow>, intervals: seq<TimeWindow>, duration: nat, cursor: nat,
                 i: nat)
    requires IsNearby(window, occupied, intervals) && NothingBefore(window, intervals, duration, cursor, i)
    requires cursor + duration <= window.end && (i < |intervals| ==> cursor + duration <= intervals[i].start)
    ensures Fits(window, occupied, duration, cursor)
    ensures forall s: nat :: Fits(window, occupied, duration, s) ==> cursor <= s
  {
    GapIsClear(intervals, i, cursor, cursor + duration);
    NearDecides(window, occupied, intervals, duration, cursor);
    forall s: nat | Fits(window, occupied, duration, s) ensures cursor <= s {
      NearDecides(window, occupied, intervals, duration, s);
    }
  }

  /** If even the last gap ends after the window, there is none. */
  lemma NoGap(window: TimeWindow, occupied: seq<TimeWindow>, intervals: seq<TimeWindow>, duration: nat, cursor: nat)
    requires IsNearby(window, occupied, intervals) && NothingBefore(window, intervals, duration, cursor, |intervals|)
    requires cursor + duration > window.end
    ensures forall s: nat :: !Fits(window, occupied, duration, s)
  {
    forall s: nat ensures !Fits(window, occupied, duration, s) {
      NearDecides(window, occupied, intervals, duration, s);
      assert Fits(window, intervals, duration, s) ==> cursor <= s;
    }
  }

  /** What ended by `s` is behind, and what starts at `e` or later is ahead. */
  lemma GapIsClear(intervals: seq<TimeWindow>, i: nat, s: nat, e: nat)
    requires SortedBy(StartsNoLater, intervals) && i <= |intervals|
    requires forall k :: 0 <= k < i ==> intervals[k].end <= s
    requires i < |intervals| ==> e <= intervals[i].start
    ensures Clear(intervals, s, e)
  {
    forall k | i < k < |intervals| ensures e <= intervals[k].start {
      assert StartsNoLater(intervals[i], intervals[k]);
    }
  }

  /** If the gap before a span is too short, nothing fits before that span has ended. */
  lemma CursorAdvances(window: TimeWindow, intervals: seq<TimeWindow>, duration: nat, cursor: nat, i: nat)
    requires i < |intervals| && NothingBefore(window, intervals, duration, cursor, i)
    requires !(cursor + duration <= intervals[i].start && cursor + duration <= window.end)
    ensures NothingBefore(window, intervals, duration, Max(cursor, intervals[i].end), i + 1)
  {
    forall s: nat | Fits(window, intervals, duration, s)
      ensures Max(cursor, intervals[i].end) <= s
    {
      var next := intervals[i];
      assert next.end <= s || s + duration <= next.start;
    }
  }

  /** Only spans that meet the window can obstruct a placement inside it. */
  lemma NearDecides(window: TimeWindow, occupied: seq<TimeWindow>, intervals: seq<TimeWindow>,
                    duration: nat, s: nat)
    requires forall w :: w in intervals <==> w in occupied && w.start < window.end && w.end > window.start
    ensures Fits(window, intervals, duration, s) <==> Fits(window, occupied, duration, s)
  {
    if Fits(window, intervals, duration, s) {
      forall i | 0 <= i < |occupied|
        ensures !(s < occupied[i].end && s + duration > occupied[i].start)
      {
        if occupied[i] in intervals {
          var k :| 0 <= k < |intervals| && intervals[k] == occupied[i];
        }
      }
    }
    if Fits(window, occupied, duration, s) {
      forall i | 0 <= i < |intervals|
        ensures !(s < intervals[i].end && s + duration > intervals[i].start)
      {
        assert intervals[i] in occupied;
      }
    }
  }

  /** The feasibility question the exclusion pass asks. */
  method HasFreeGap(window: TimeWindow, fixed: seq<TimeWindow>, duration: U64) returns (free: bool)
    ensures free <==> exists s: nat :: Fits(window, fixed, duration, s)
  {
    var fit := EarliestFit(window, fixed, duration);
    free := fit.Some?;
  }
}
