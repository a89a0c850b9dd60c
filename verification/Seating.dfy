/** Which mandatory occurrences cannot all be seated in the time the fixed spans leave. */
module Seating {
  import opened Basics
  import opened Sorting
  import opened Spans
  import opened Graphs
  import opened Tasks

  /** The mandatory Dynamic Tasks are the ones that need a seat. */
  ghost predicate Movable(mandatory: set<Id>, t: TaskSpec)
  {
    t.id in mandatory && !t.Static()
  }

  ghost function MovableIds(tasks: seq<TaskSpec>, mandatory: set<Id>): set<Id>
  {
    set t | t in tasks && Movable(mandatory, t) :: t.id
  }

  /** When each Static Task with a window ends. */
  function StaticEnds(tasks: seq<TaskSpec>): map<Id, U64>
  {
    if tasks == [] then map[]
    else
      var t := tasks[|tasks| - 1];
      var ends := StaticEnds(tasks[..|tasks| - 1]);
      if t.anchor.Some? && t.window.Some? then ends[t.id := t.window.value.end] else ends
  }

  type Seats = map<Id, TimeWindow>

  /** A start that respects the window of `t` and everything it depends on that has an end. */
  ghost predicate Seatable(t: TaskSpec, ends: map<Id, U64>, s: nat)
  {
    && t.window.Some?
    && t.window.value.start <= s
    && s + t.Placement() <= t.window.value.end
    && AfterAll(t.dependsOn, ends, s)
  }

  ghost predicate AfterAll(dependsOn: seq<Id>, ends: map<Id, U64>, s: nat)
  {
    forall d :: d in dependsOn && d in ends ==> ends[d] <= s
  }

  ghost predicate Free(fixed: seq<TimeWindow>, seats: Seats, s: nat, e: nat)
  {
    && Clear(fixed, s, e)
    && forall a :: a in seats ==> !(s < seats[a].end && e > seats[a].start)
  }

  /** Static ends, and the end of every seat given so far. */
  ghost predicate Ends(fixedEnds: map<Id, U64>, seats: Seats, ends: map<Id, U64>)
  {
    && ends.Keys == fixedEnds.Keys + seats.Keys
    && forall d :: d in ends ==> ends[d] == if d in seats then seats[d].end else fixedEnds[d]
  }

  /** A seat honours the Task's window, length and every settled prerequisite. */
  ghost predicate GoodSeat(t: TaskSpec, movable: set<Id>, seats: Seats, ends: map<Id, U64>)
    requires t.id in seats
  {
    && Seatable(t, ends, seats[t.id].start)
    && seats[t.id].end == seats[t.id].start + t.Placement()
    && forall d :: d in t.dependsOn && d in movable ==> d in seats
  }

  /** A failure has a failed prerequisite, or no start at all in the time that is left. */
  ghost predicate GoodFailure(t: TaskSpec, fixed: seq<TimeWindow>, seats: Seats, ends: map<Id, U64>, failed: set<Id>)
  {
    || (exists d :: d in t.dependsOn && d in failed)
    || NoRoom(t, fixed, seats, ends)
  }

  ghost predicate NoRoom(t: TaskSpec, fixed: seq<TimeWindow>, seats: Seats, ends: map<Id, U64>)
  {
    forall s: nat :: Seatable(t, ends, s) ==> !Free(fixed, seats, s, s + t.Placement())
  }

  ghost predicate Disjoint(fixed: seq<TimeWindow>, seats: Seats)
  {
    && (forall a :: a in seats ==> Clear(fixed, seats[a].start, seats[a].end))
    && (forall a, b :: a in seats && b in seats && a != b ==> !Overlap(seats[a], seats[b]))
  }

  ghost predicate Sound(tasks: seq<TaskSpec>, mandatory: set<Id>, fixed: seq<TimeWindow>,
                        seats: Seats, ends: map<Id, U64>, failed: set<Id>)
  {
    var movable := MovableIds(tasks, mandatory);
    && Ends(StaticEnds(tasks), seats, ends)
    && seats.Keys <= movable && failed <= movable && seats.Keys !! failed
    && Disjoint(fixed, seats)
    && forall t :: t in tasks && Movable(mandatory, t) ==>
         && (t.id in seats ==> GoodSeat(t, movable, seats, ends))
         && (t.id in failed ==> GoodFailure(t, fixed, seats, ends, failed))
  }

  /** Everything without a seat or a failure waits for another such Task. */
  ghost predicate LeftoversWait(tasks: seq<TaskSpec>, mandatory: set<Id>, seats: Seats, failed: set<Id>)
  {
    var left := MovableIds(tasks, mandatory) - seats.Keys - failed;
    forall t {:trigger DependsWithin(t, left)} :: t in tasks && t.id in left ==> DependsWithin(t, left)
  }

  ghost predicate DependsWithin(t: TaskSpec, ids: set<Id>)
  {
    exists d :: d in t.dependsOn && d in ids
  }

  // ----- the greedy rule -----

  /** Who has a seat and who has none, part of the way through. */
  datatype Seating = Seating(seats: Seats, failed: set<Id>)

  /** Every end known with these seats given. */
  ghost function EndsWith(fixedEnds: map<Id, U64>, seats: Seats): map<Id, U64>
  {
    map d | d in fixedEnds.Keys + seats.Keys :: if d in seats then seats[d].end else fixedEnds[d]
  }

  /** Nobody it waits for is undecided. */
  ghost predicate Due(tasks: seq<TaskSpec>, mandatory: set<Id>, now: Seating, t: TaskSpec)
  {
    && t in tasks && Movable(mandatory, t) && t.id !in now.seats && t.id !in now.failed
    && Settled(t, MovableIds(tasks, mandatory), EndsWith(StaticEnds(tasks), now.seats), now.failed)
  }

  /** The earliest seat there is for `t`, or none. */
  ghost predicate Settles(fixed: seq<TimeWindow>, ends: map<Id, U64>, now: Seating, t: TaskSpec, next: Seating)
  {
    if (exists d :: d in t.dependsOn && d in now.failed) || NoRoom(t, fixed, now.seats, ends)
    then next == Seating(now.seats, now.failed + {t.id})
    else
      && t.id in next.seats && next == Seating(now.seats[t.id := next.seats[t.id]], now.failed)
      && EarliestSeat(fixed, ends, now.seats, t, next.seats[t.id])
  }

  ghost predicate EarliestSeat(fixed: seq<TimeWindow>, ends: map<Id, U64>, seats: Seats, t: TaskSpec, w: TimeWindow)
  {
    && FitsAsSeat(t, ends, fixed, seats, w.start) && w.end == w.start + t.Placement()
    && forall s: nat :: FitsAsSeat(t, ends, fixed, seats, s) ==> w.start <= s
  }

  /** Of all that are due the one with the first deadline is settled. */
  ghost predicate GreedyStep(tasks: seq<TaskSpec>, mandatory: set<Id>, fixed: seq<TimeWindow>, now: Seating,
                             t: TaskSpec, next: Seating)
  {
    && Due(tasks, mandatory, now, t)
    && (forall u :: Due(tasks, mandatory, now, u) ==> SeatEarlier(t, u))
    && Settles(fixed, EndsWith(StaticEnds(tasks), now.seats), now, t, next)
  }

  /** A whole greedy pass: it settles these Tasks in this order, and then nobody is due. */
  ghost predicate GreedyPass(tasks: seq<TaskSpec>, mandatory: set<Id>, fixed: seq<TimeWindow>, picks: seq<TaskSpec>,
                             states: seq<Seating>)
  {
    && GreedySoFar(tasks, mandatory, fixed, picks, states)
    && forall u :: !Due(tasks, mandatory, states[|picks|], u)
  }

  ghost predicate GreedySoFar(tasks: seq<TaskSpec>, mandatory: set<Id>, fixed: seq<TimeWindow>, picks: seq<TaskSpec>,
                              states: seq<Seating>)
  {
    && |states| == |picks| + 1 && states[0] == Seating(map[], {})
    && forall k :: 0 <= k < |picks| ==> StepAt(tasks, mandatory, fixed, picks, states, k)
  }

  /** `failed` is what the greedy pass reports. */
  ghost predicate GreedyOutcome(tasks: seq<TaskSpec>, mandatory: set<Id>, fixed: seq<TimeWindow>, failed: set<Id>)
  {
    exists picks: seq<TaskSpec>, states: seq<Seating> ::
        GreedyPass(tasks, mandatory, fixed, picks, states) && states[|picks|].failed == failed
  }

  ghost predicate StepAt(tasks: seq<TaskSpec>, mandatory: set<Id>, fixed: seq<TimeWindow>, picks: seq<TaskSpec>,
                         states: seq<Seating>, k: nat)
    requires |states| == |picks| + 1 && k < |picks|
  {
    GreedyStep(tasks, mandatory, fixed, states[k], picks[k], states[k + 1])
  }

  lemma GreedySnoc(tasks: seq<TaskSpec>, mandatory: set<Id>, fixed: seq<TimeWindow>, picks: seq<TaskSpec>,
                   states: seq<Seating>, t: TaskSpec, next: Seating)
    requires GreedySoFar(tasks, mandatory, fixed, picks, states)
    requires GreedyStep(tasks, mandatory, fixed, states[|picks|], t, next)
    ensures GreedySoFar(tasks, mandatory, fixed, picks + [t], states + [next])
  {
    var picks', states' := picks + [t], states + [next];
    forall k | 0 <= k < |picks'| ensures StepAt(tasks, mandatory, fixed, picks', states', k) {
      if k < |picks| { assert StepAt(tasks, mandatory, fixed, picks, states, k); }
    }
  }

  lemma EndsAreKnown(fixedEnds: map<Id, U64>, seats: Seats, ends: map<Id, U64>)
    requires Ends(fixedEnds, seats, ends)
    ensures ends == EndsWith(fixedEnds, seats)
  {
    var known := EndsWith(fixedEnds, seats);
    assert known.Keys == fixedEnds.Keys + seats.Keys;
    assert ends.Keys == known.Keys;
    forall d | d in ends ensures ends[d] == known[d] { }
    assert ends == known;
  }

  // ----- one step keeps everything sound -----

  lemma SeatingKeepsSound(tasks: seq<TaskSpec>, mandatory: set<Id>, fixed: seq<TimeWindow>,
                          seats: Seats, ends: map<Id, U64>, failed: set<Id>, t: TaskSpec, w: TimeWindow)
    requires UniqueIds(tasks) && Sound(tasks, mandatory, fixed, seats, ends, failed)
    requires t in tasks && Movable(mandatory, t) && t.id !in seats && t.id !in failed
    requires t.id !in StaticEnds(tasks)
    requires forall d :: d in t.dependsOn && d in MovableIds(tasks, mandatory) ==> d in seats
    requires Seatable(t, ends, w.start) && w.end == w.start + t.Placement()
    requires Free(fixed, seats, w.start, w.end)
    ensures Sound(tasks, mandatory, fixed, seats[t.id := w], ends[t.id := w.end], failed)
  {
    MovableHere(tasks, mandatory, t);
    DisjointGrows(fixed, seats, t.id, w);
    forall u | u in tasks && Movable(mandatory, u)
      ensures u.id in seats[t.id := w] ==>
          GoodSeat(u, MovableIds(tasks, mandatory), seats[t.id := w], ends[t.id := w.end])
      ensures u.id in failed ==> GoodFailure(u, fixed, seats[t.id := w], ends[t.id := w.end], failed)
    {
      SeatingKeepsEach(tasks, mandatory, fixed, seats, ends, failed, t, w, u);
    }
    assert Ends(StaticEnds(tasks), seats[t.id := w], ends[t.id := w.end]);
  }

  lemma SeatingKeepsEach(tasks: seq<TaskSpec>, mandatory: set<Id>, fixed: seq<TimeWindow>,
                         seats: Seats, ends: map<Id, U64>, failed: set<Id>, t: TaskSpec, w: TimeWindow, u: TaskSpec)
    requires UniqueIds(tasks) && Sound(tasks, mandatory, fixed, seats, ends, failed)
    requires t in tasks && t.id in MovableIds(tasks, mandatory) && t.id !in seats && t.id !in failed
    requires t.id !in StaticEnds(tasks)
    requires forall d :: d in t.dependsOn && d in MovableIds(tasks, mandatory) ==> d in seats
    requires Seatable(t, ends, w.start) && w.end == w.start + t.Placement()
    requires u in tasks && Movable(mandatory, u)
    ensures u.id in seats[t.id := w] ==>
        GoodSeat(u, MovableIds(tasks, mandatory), seats[t.id := w], ends[t.id := w.end])
    ensures u.id in failed ==> GoodFailure(u, fixed, seats[t.id := w], ends[t.id := w.end], failed)
  {
    var movable := MovableIds(tasks, mandatory);
    if u.id == t.id {
      UniqueIdsSame(tasks, u, t);
      SeatIsGood(t, movable, seats, ends, w);
    } else if u.id in seats {
      SeatStaysGood(u, movable, seats, ends, t.id, w);
    } else if u.id in failed {
      StillFailed(u, fixed, seats, ends, failed, t.id, w);
    }
  }

  lemma SeatIsGood(t: TaskSpec, movable: set<Id>, seats: Seats, ends: map<Id, U64>, w: TimeWindow)
    requires t.id in movable && t.id !in seats
    requires forall d :: d in t.dependsOn && d in movable ==> d in seats
    requires Seatable(t, ends, w.start) && w.end == w.start + t.Placement()
    ensures GoodSeat(t, movable, seats[t.id := w], ends[t.id := w.end])
  {
  }

  lemma SeatStaysGood(u: TaskSpec, movable: set<Id>, seats: Seats, ends: map<Id, U64>, id: Id, w: TimeWindow)
    requires u.id in seats && GoodSeat(u, movable, seats, ends)
    requires id in movable && id !in seats
    ensures GoodSeat(u, movable, seats[id := w], ends[id := w.end])
  {
  }

  lemma DisjointGrows(fixed: seq<TimeWindow>, seats: Seats, id: Id, w: TimeWindow)
    requires Disjoint(fixed, seats) && Free(fixed, seats, w.start, w.end) && id !in seats
    ensures Disjoint(fixed, seats[id := w])
  {
    var seats' := seats[id := w];
    forall a, b | a in seats' && b in seats' && a != b ensures !Overlap(seats'[a], seats'[b]) {
      if a != id { assert seats'[a] == seats[a]; }
      if b != id { assert seats'[b] == seats[b]; }
    }
  }

  /** More seats and more ends never make room. */
  lemma StillFailed(u: TaskSpec, fixed: seq<TimeWindow>, seats: Seats, ends: map<Id, U64>, failed: set<Id>,
                    id: Id, w: TimeWindow)
    requires GoodFailure(u, fixed, seats, ends, failed) && id !in seats && id !in ends
    ensures GoodFailure(u, fixed, seats[id := w], ends[id := w.end], failed)
  {
    if NoRoom(u, fixed, seats, ends) {
      NoRoomStays(u, fixed, seats, ends, id, w);
    }
  }

  lemma NoRoomStays(u: TaskSpec, fixed: seq<TimeWindow>, seats: Seats, ends: map<Id, U64>, id: Id, w: TimeWindow)
    requires NoRoom(u, fixed, seats, ends) && id !in seats && id !in ends
    ensures NoRoom(u, fixed, seats[id := w], ends[id := w.end])
  {
    var seats', ends' := seats[id := w], ends[id := w.end];
    forall s: nat ensures Seatable(u, ends', s) ==> !Free(fixed, seats', s, s + u.Placement()) {
      FewerEnds(u, ends, id, w.end, s);
      FewerSeats(fixed, seats, id, w, s, s + u.Placement());
    }
  }

  lemma FewerEnds(u: TaskSpec, ends: map<Id, U64>, id: Id, end: U64, s: nat)
    requires id !in ends
    ensures Seatable(u, ends[id := end], s) ==> Seatable(u, ends, s)
  {
    if Seatable(u, ends[id := end], s) {
      forall d | d in u.dependsOn && d in ends ensures ends[d] <= s {
        assert ends[id := end][d] == ends[d];
      }
    }
  }

  lemma FewerSeats(fixed: seq<TimeWindow>, seats: Seats, id: Id, w: TimeWindow, s: nat, e: nat)
    requires id !in seats
    ensures Free(fixed, seats[id := w], s, e) ==> Free(fixed, seats, s, e)
  {
    if Free(fixed, seats[id := w], s, e) {
      forall a | a in seats ensures !(s < seats[a].end && e > seats[a].start) {
        assert seats[id := w][a] == seats[a];
      }
    }
  }

  lemma FailingKeepsSound(tasks: seq<TaskSpec>, mandatory: set<Id>, fixed: seq<TimeWindow>,
                          seats: Seats, ends: map<Id, U64>, failed: set<Id>, t: TaskSpec)
    requires UniqueIds(tasks) && Sound(tasks, mandatory, fixed, seats, ends, failed)
    requires t in tasks && Movable(mandatory, t) && t.id !in seats
    requires GoodFailure(t, fixed, seats, ends, failed)
    ensures Sound(tasks, mandatory, fixed, seats, ends, failed + {t.id})
  {
    forall u | u in tasks && Movable(mandatory, u) && u.id in failed + {t.id}
      ensures GoodFailure(u, fixed, seats, ends, failed + {t.id})
    {
      if u.id == t.id {
        UniqueIdsSame(tasks, u, t);
      }
      assert GoodFailure(u, fixed, seats, ends, failed);
    }
  }

  // ----- the algorithm -----

  ghost predicate Settled(t: TaskSpec, movable: set<Id>, ends: map<Id, U64>, failed: set<Id>)
  {
    forall d :: d in t.dependsOn && d in movable ==> d in ends || d in failed
  }

  method FirstSettled(pending: seq<TaskSpec>, movable: set<Id>, ends: map<Id, U64>, failed: set<Id>)
    returns (index: Option<nat>)
    ensures index.Some? ==> index.value < |pending| && Settled(pending[index.value], movable, ends, failed)
    ensures index.Some? ==> forall i :: 0 <= i < index.value ==> !Settled(pending[i], movable, ends, failed)
    ensures index.None? ==> forall i :: 0 <= i < |pending| ==> !Settled(pending[i], movable, ends, failed)
  {
    var i := 0;
    while i < |pending|
      invariant 0 <= i <= |pending|
      invariant forall k :: 0 <= k < i ==> !Settled(pending[k], movable, ends, failed)
    {
      if forall d | d in pending[i].dependsOn :: d !in movable || d in ends || d in failed { return Some(i); }
      i := i + 1;
    }
    return None;
  }

  /** The window start once everything `t` waits for has ended. */
  method PushedStart(dependsOn: seq<Id>, start: U64, ends: map<Id, U64>) returns (floor: U64)
    ensures ExactFloor(dependsOn, ends, start, floor)
  {
    floor := start;
    var i := 0;
    while i < |dependsOn|
      invariant 0 <= i <= |dependsOn|
      invariant start <= floor
      invariant forall k :: 0 <= k < i && dependsOn[k] in ends ==> ends[dependsOn[k]] <= floor
      invariant floor == start || exists k :: 0 <= k < i && dependsOn[k] in ends && ends[dependsOn[k]] == floor
    {
      if dependsOn[i] in ends {
        floor := Max(floor, ends[dependsOn[i]]);
      }
      i := i + 1;
    }
    forall s: nat ensures floor <= s <==> start <= s && AfterAll(dependsOn, ends, s) {
      FloorIsExact(dependsOn, start, ends, floor, s);
    }
  }

  ghost predicate ExactFloor(dependsOn: seq<Id>, ends: map<Id, U64>, start: nat, floor: nat)
  {
    forall s: nat :: floor <= s <==> start <= s && AfterAll(dependsOn, ends, s)
  }

  lemma FloorIsExact(dependsOn: seq<Id>, start: U64, ends: map<Id, U64>, floor: U64, s: nat)
    requires start <= floor
    requires forall k :: 0 <= k < |dependsOn| && dependsOn[k] in ends ==> ends[dependsOn[k]] <= floor
    requires floor == start || exists k :: 0 <= k < |dependsOn| && dependsOn[k] in ends && ends[dependsOn[k]] == floor
    ensures floor <= s <==> start <= s && AfterAll(dependsOn, ends, s)
  {
    if floor != start {
      var k :| 0 <= k < |dependsOn| && dependsOn[k] in ends && ends[dependsOn[k]] == floor;
      var last := dependsOn[k];
      assert last in dependsOn && last in ends;
      assert AfterAll(dependsOn, ends, s) ==> ends[last] <= s;
    }
    if floor <= s {
      forall d | d in dependsOn && d in ends ensures ends[d] <= s {
        var k :| 0 <= k < |dependsOn| && dependsOn[k] == d;
      }
    }
  }

  /** Whoever must end earlier goes first, a Task without a window last; equal ends go by handle. */
  ghost predicate SeatEarlier(a: TaskSpec, b: TaskSpec)
  {
    var x := if a.window.Some? then a.window.value.end else U64_MAX;
    var y := if b.window.Some? then b.window.value.end else U64_MAX;
    x <= y && (x == y ==> a.id <= b.id)
  }

  function WindowEnd(t: TaskSpec): nat
  {
    match t.window
    case Some(w) => w.end
    case None => U64_MAX
  }

  predicate EndsEarlier(a: TaskSpec, b: TaskSpec)
  {
    WindowEnd(a) < WindowEnd(b) || (WindowEnd(a) == WindowEnd(b) && a.id <= b.id)
  }

  /** The first seat for `t` clear of everything occupied, if it has one. */
  method SeekSeat(t: TaskSpec, occupied: seq<TimeWindow>, ends: map<Id, U64>,
                  ghost fixed: seq<TimeWindow>, ghost seats: Seats)
    returns (fit: Option<TimeWindow>)
    requires Occupies(fixed, seats, occupied)
    ensures fit.Some? ==>
              && FitsAsSeat(t, ends, fixed, seats, fit.value.start)
              && fit.value.end == fit.value.start + t.Placement()
              && forall s: nat :: FitsAsSeat(t, ends, fixed, seats, s) ==> fit.value.start <= s
    ensures fit.None? ==> NoRoom(t, fixed, seats, ends)
  {
    if t.window.None? { return None; }
    var floor := PushedStart(t.dependsOn, t.window.value.start, ends);
    var window := TimeWindow(floor, t.window.value.end);
    fit := EarliestFit(window, occupied, t.Placement());
    FitsIsSeatable(t, ends, window, fixed, seats, occupied);
    if fit.None? {
      forall s: nat ensures Seatable(t, ends, s) ==> !Free(fixed, seats, s, s + t.Placement()) {
        var fits := Fits(window, occupied, t.Placement(), s);
      }
    }
  }

  method SettleOne(tasks: seq<TaskSpec>, mandatory: set<Id>, fixed: seq<TimeWindow>, t: TaskSpec,
                   occupied: seq<TimeWindow>, ends: map<Id, U64>, failed: set<Id>, ghost seats: Seats)
    returns (occupied': seq<TimeWindow>, ends': map<Id, U64>, failed': set<Id>, ghost seats': Seats)
    requires UniqueIds(tasks) && Sound(tasks, mandatory, fixed, seats, ends, failed)
    requires Occupies(fixed, seats, occupied)
    requires t in tasks && Movable(mandatory, t) && t.id !in seats && t.id !in failed
    requires Settled(t, MovableIds(tasks, mandatory), ends, failed)
    requires StaticEnds(tasks).Keys !! MovableIds(tasks, mandatory)
    ensures Sound(tasks, mandatory, fixed, seats', ends', failed')
    ensures Occupies(fixed, seats', occupied')
    ensures (seats'.Keys == seats.Keys + {t.id} && failed' == failed) || (seats' == seats && failed' == failed + {t.id})
    ensures Settles(fixed, ends, Seating(seats, failed), t, Seating(seats', failed'))
  {
    occupied', ends', failed', seats' := occupied, ends, failed, seats;
    var fit := SeatOrNone(t, occupied, ends, failed, fixed, seats);
    if fit.Some? {
      var w := fit.value;
      seats', ends', occupied' := seats[t.id := w], ends[t.id := w.end], occupied + [w];
      SeatGiven(tasks, mandatory, fixed, seats, ends, failed, t, w);
      OccupiesOneMore(fixed, seats, occupied, t.id, w);
    } else {
      failed' := failed + {t.id};
      FailingKeepsSound(tasks, mandatory, fixed, seats, ends, failed, t);
    }
    FitSettles(fixed, ends, Seating(seats, failed), t, fit, Seating(seats', failed'));
  }

  /** Nothing that waits for a failure gets a seat. */
  method SeatOrNone(t: TaskSpec, occupied: seq<TimeWindow>, ends: map<Id, U64>, failed: set<Id>,
                    ghost fixed: seq<TimeWindow>, ghost seats: Seats)
    returns (fit: Option<TimeWindow>)
    requires Occupies(fixed, seats, occupied)
    ensures fit.Some? ==>
        EarliestSeat(fixed, ends, seats, t, fit.value) && !exists d :: d in t.dependsOn && d in failed
    ensures fit.None? ==> GoodFailure(t, fixed, seats, ends, failed)
  {
    if exists d :: d in t.dependsOn && d in failed {
      return None;
    }
    fit := SeekSeat(t, occupied, ends, fixed, seats);
  }

  lemma SeatGiven(tasks: seq<TaskSpec>, mandatory: set<Id>, fixed: seq<TimeWindow>, seats: Seats, ends: map<Id, U64>,
                  failed: set<Id>, t: TaskSpec, w: TimeWindow)
    requires UniqueIds(tasks) && Sound(tasks, mandatory, fixed, seats, ends, failed)
    requires t in tasks && Movable(mandatory, t) && t.id !in seats && t.id !in failed
    requires Settled(t, MovableIds(tasks, mandatory), ends, failed) && !exists d :: d in t.dependsOn && d in failed
    requires StaticEnds(tasks).Keys !! MovableIds(tasks, mandatory)
    requires EarliestSeat(fixed, ends, seats, t, w)
    ensures Sound(tasks, mandatory, fixed, seats[t.id := w], ends[t.id := w.end], failed)
  {
    MovableHere(tasks, mandatory, t);
    SeatingKeepsSound(tasks, mandatory, fixed, seats, ends, failed, t, w);
  }

  lemma FitSettles(fixed: seq<TimeWindow>, ends: map<Id, U64>, now: Seating, t: TaskSpec, fit: Option<TimeWindow>,
                   next: Seating)
    requires fit.Some? ==>
        EarliestSeat(fixed, ends, now.seats, t, fit.value) && !exists d :: d in t.dependsOn && d in now.failed
    requires fit.None? ==> (exists d :: d in t.dependsOn && d in now.failed) || NoRoom(t, fixed, now.seats, ends)
    requires next == if fit.Some? then Seating(now.seats[t.id := fit.value], now.failed)
        else Seating(now.seats, now.failed + {t.id})
    ensures Settles(fixed, ends, now, t, next)
  {
  }

  lemma MovableHere(tasks: seq<TaskSpec>, mandatory: set<Id>, t: TaskSpec)
    requires t in tasks && Movable(mandatory, t)
    ensures t.id in MovableIds(tasks, mandatory)
  {
  }

  ghost predicate FitsAsSeat(t: TaskSpec, ends: map<Id, U64>, fixed: seq<TimeWindow>, seats: Seats, s: nat)
  {
    Seatable(t, ends, s) && Free(fixed, seats, s, s + t.Placement())
  }

  /** The list handed to first fit holds exactly the fixed spans and the seats. */
  ghost predicate Occupies(fixed: seq<TimeWindow>, seats: Seats, occupied: seq<TimeWindow>)
  {
    && (forall w :: w in fixed ==> w in occupied)
    && (forall a :: a in seats ==> seats[a] in occupied)
    && (forall w :: w in occupied ==> w in fixed || exists a :: a in seats && seats[a] == w)
  }

  lemma OccupiesOneMore(fixed: seq<TimeWindow>, seats: Seats, occupied: seq<TimeWindow>, id: Id, w: TimeWindow)
    requires Occupies(fixed, seats, occupied) && id !in seats
    ensures Occupies(fixed, seats[id := w], occupied + [w])
  {
    var seats' := seats[id := w];
    forall x | x in occupied + [w] ensures x in fixed || exists a :: a in seats' && seats'[a] == x {
      if x == w {
        assert seats'[id] == x;
      } else if x !in fixed {
        var a :| a in seats && seats[a] == x;
        assert seats'[a] == x;
      }
    }
  }

  lemma OccupiedIsNotFree(fixed: seq<TimeWindow>, seats: Seats, occupied: seq<TimeWindow>, s: nat, e: nat)
    requires Occupies(fixed, seats, occupied)
    ensures Clear(occupied, s, e) <==> Free(fixed, seats, s, e)
  {
    if Clear(occupied, s, e) {
      forall i | 0 <= i < |fixed| ensures !(s < fixed[i].end && e > fixed[i].start) {
        assert fixed[i] in occupied;
      }
      forall a | a in seats ensures !(s < seats[a].end && e > seats[a].start) {
        assert seats[a] in occupied;
      }
    }
    if Free(fixed, seats, s, e) {
      forall i | 0 <= i < |occupied| ensures !(s < occupied[i].end && e > occupied[i].start) {
        assert occupied[i] in occupied;
        if occupied[i] in fixed {
          var k :| 0 <= k < |fixed| && fixed[k] == occupied[i];
        }
      }
    }
  }

  lemma FitsIsSeatable(t: TaskSpec, ends: map<Id, U64>, window: TimeWindow,
                       fixed: seq<TimeWindow>, seats: Seats, occupied: seq<TimeWindow>)
    requires t.window.Some? && window.end == t.window.value.end
    requires ExactFloor(t.dependsOn, ends, t.window.value.start, window.start)
    requires Occupies(fixed, seats, occupied)
    ensures forall s: nat :: Fits(window, occupied, t.Placement(), s) <==> FitsAsSeat(t, ends, fixed, seats, s)
  {
    forall s: nat ensures Fits(window, occupied, t.Placement(), s) <==> FitsAsSeat(t, ends, fixed, seats, s) {
      OccupiedIsNotFree(fixed, seats, occupied, s, s + t.Placement());
      var after := AfterAll(t.dependsOn, ends, s);
    }
  }

  lemma {:induction false} StaticEndsAreStatic(tasks: seq<TaskSpec>, id: Id)
    ensures id in StaticEnds(tasks) ==> exists t :: t in tasks && t.id == id && t.Static()
  {
    if tasks != [] {
      var n := |tasks| - 1;
      StaticEndsAreStatic(tasks[..n], id);
      assert tasks[n] in tasks;
      assert forall t :: t in tasks[..n] ==> t in tasks;
    }
  }

  lemma StaticsAreNotMovable(tasks: seq<TaskSpec>, mandatory: set<Id>)
    requires UniqueIds(tasks)
    ensures StaticEnds(tasks).Keys !! MovableIds(tasks, mandatory)
  {
    forall id | id in MovableIds(tasks, mandatory) ensures id !in StaticEnds(tasks) {
      var m :| m in tasks && Movable(mandatory, m) && m.id == id;
      StaticEndsAreStatic(tasks, id);
      if t :| t in tasks && t.id == id && t.Static() {
        UniqueIdsSame(tasks, t, m);
      }
    }
  }

  /** What is still to be settled, and nothing else. */
  ghost predicate Waiting(tasks: seq<TaskSpec>, mandatory: set<Id>, pending: seq<TaskSpec>, seats: Seats,
                          failed: set<Id>)
  {
    && UniqueIds(pending)
    && (forall t :: t in pending ==> t in tasks && Movable(mandatory, t) && t.id !in seats && t.id !in failed)
    && (forall t :: t in tasks && Movable(mandatory, t) ==> t.id in seats || t.id in failed || t in pending)
  }

  /** The Tasks that need a seat, those due first in front. */
  method PendingInOrder(tasks: seq<TaskSpec>, mandatory: set<Id>) returns (pending: seq<TaskSpec>)
    requires UniqueIds(tasks)
    ensures Waiting(tasks, mandatory, pending, map[], {})
    ensures SortedBy(SeatEarlier, pending)
  {
    var needsSeat := (t: TaskSpec) => t.id in mandatory && t.anchor.None?;
    var kept := Filter(needsSeat, tasks);
    pending := Sort(EndsEarlier, kept);
    SortSorted(EndsEarlier, kept);
    EndsDecide(pending);
    KeptWait(tasks, mandatory, kept, pending);
  }

  lemma EndsDecide(pending: seq<TaskSpec>)
    requires SortedBy(EndsEarlier, pending)
    ensures SortedBy(SeatEarlier, pending)
  {
    forall i, j | 0 <= i < j < |pending| ensures SeatEarlier(pending[i], pending[j]) {
      assert EndsEarlier(pending[i], pending[j]);
    }
  }

  lemma KeptWait(tasks: seq<TaskSpec>, mandatory: set<Id>, kept: seq<TaskSpec>, pending: seq<TaskSpec>)
    requires UniqueIds(tasks) && multiset(pending) == multiset(kept)
    requires kept == Filter((t: TaskSpec) => t.id in mandatory && t.anchor.None?, tasks)
    ensures Waiting(tasks, mandatory, pending, map[], {})
  {
    FilterMultiset((t: TaskSpec) => t.id in mandatory && t.anchor.None?, tasks);
    UniqueIdsSub(pending, tasks);
    MultisetMembers(pending, kept);
  }

  method NeedingSeats(tasks: seq<TaskSpec>, mandatory: set<Id>) returns (ids: set<Id>)
    ensures ids == MovableIds(tasks, mandatory)
  {
    ids := set t | t in tasks && t.id in mandatory && t.anchor.None? :: t.id;
  }

  lemma InitiallySound(tasks: seq<TaskSpec>, mandatory: set<Id>, fixed: seq<TimeWindow>)
    ensures Sound(tasks, mandatory, fixed, map[], StaticEnds(tasks), {})
    ensures Occupies(fixed, map[], fixed)
  {
  }

  function Without(s: seq<TaskSpec>, i: nat): seq<TaskSpec>
    requires i < |s|
  {
    s[..i] + s[i + 1..]
  }

  lemma RestMembers(pending: seq<TaskSpec>, i: nat)
    requires UniqueIds(pending) && i < |pending|
    ensures UniqueIds(Without(pending, i))
    ensures forall u :: u in Without(pending, i) <==> u in pending && u.id != pending[i].id
  {
    var t, rest := pending[i], Without(pending, i);
    assert pending == pending[..i] + [t] + pending[i + 1..];
    assert multiset(pending) == multiset(rest) + multiset{t};
    UniqueIdsSub(rest, pending);
    forall u ensures u in rest <==> u in pending && u.id != t.id {
      RestMember(pending, i, u);
    }
  }

  lemma RestMember(pending: seq<TaskSpec>, i: nat, u: TaskSpec)
    requires UniqueIds(pending) && i < |pending|
    ensures u in Without(pending, i) <==> u in pending && u.id != pending[i].id
  {
    var rest := Without(pending, i);
    if u in rest {
      var k :| 0 <= k < |rest| && rest[k] == u;
      assert rest[k] == pending[if k < i then k else k + 1];
    }
    if u in pending && u.id != pending[i].id {
      var k :| 0 <= k < |pending| && pending[k] == u;
      assert rest[if k < i then k else k - 1] == u;
    }
  }

  lemma SettlingLeavesRest(tasks: seq<TaskSpec>, mandatory: set<Id>, pending: seq<TaskSpec>, i: nat,
                           seats: Seats, failed: set<Id>, seats': Seats, failed': set<Id>)
    requires Waiting(tasks, mandatory, pending, seats, failed) && i < |pending|
    requires seats'.Keys + failed' == seats.Keys + failed + {pending[i].id}
    ensures Waiting(tasks, mandatory, Without(pending, i), seats', failed')
  {
    RestMembers(pending, i);
    forall id ensures id in seats' || id in failed' <==> id in seats || id in failed || id == pending[i].id {
      assert id in seats'.Keys + failed' <==> id in seats.Keys + failed + {pending[i].id};
    }
  }

  /** What is left waits in order, and what was done so far was greedy. */
  ghost predicate Progress(tasks: seq<TaskSpec>, mandatory: set<Id>, fixed: seq<TimeWindow>, pending: seq<TaskSpec>,
                           picks: seq<TaskSpec>, states: seq<Seating>, now: Seating)
  {
    && Waiting(tasks, mandatory, pending, now.seats, now.failed) && SortedBy(SeatEarlier, pending)
    && GreedySoFar(tasks, mandatory, fixed, picks, states) && states[|picks|] == now
  }

  lemma OneMorePick(tasks: seq<TaskSpec>, mandatory: set<Id>, fixed: seq<TimeWindow>, pending: seq<TaskSpec>, i: nat,
                    ends: map<Id, U64>, picks: seq<TaskSpec>, states: seq<Seating>, now: Seating, next: Seating)
    requires Progress(tasks, mandatory, fixed, pending, picks, states, now) && i < |pending|
    requires ends == EndsWith(StaticEnds(tasks), now.seats)
    requires Settled(pending[i], MovableIds(tasks, mandatory), ends, now.failed)
    requires forall k :: 0 <= k < i ==> !Settled(pending[k], MovableIds(tasks, mandatory), ends, now.failed)
    requires Settles(fixed, ends, now, pending[i], next)
    requires next.seats.Keys + next.failed == now.seats.Keys + now.failed + {pending[i].id}
    ensures Progress(tasks, mandatory, fixed, Without(pending, i), picks + [pending[i]], states + [next], next)
  {
    SettlingLeavesRest(tasks, mandatory, pending, i, now.seats, now.failed, next.seats, next.failed);
    FirstDue(tasks, mandatory, pending, now, i);
    WithoutSorted(pending, i);
    GreedySnoc(tasks, mandatory, fixed, picks, states, pending[i], next);
  }

  /** Seat the mandatory occurrences greedily; report the ones that cannot be seated. */
  method UnseatableMandatory(tasks: seq<TaskSpec>, mandatory: set<Id>, fixed: seq<TimeWindow>)
    returns (failed: set<Id>, ghost seats: Seats, ghost ends: map<Id, U64>, ghost picks: seq<TaskSpec>,
        ghost states: seq<Seating>)
    requires UniqueIds(tasks)
    ensures GreedyPass(tasks, mandatory, fixed, picks, states) && states[|picks|] == Seating(seats, failed)
    ensures Sound(tasks, mandatory, fixed, seats, ends, failed)
    ensures LeftoversWait(tasks, mandatory, seats, failed)
    ensures GreedyOutcome(tasks, mandatory, fixed, failed)
  {
    var movable := NeedingSeats(tasks, mandatory);
    var pending := PendingInOrder(tasks, mandatory);
    StaticsAreNotMovable(tasks, mandatory);
    InitiallySound(tasks, mandatory, fixed);
    var occupied := fixed;
    var known := StaticEnds(tasks);
    failed, seats := {}, map[];
    picks, states := [], [Seating(map[], {})];
    while true
      invariant Sound(tasks, mandatory, fixed, seats, known, failed) && Occupies(fixed, seats, occupied)
      invariant Progress(tasks, mandatory, fixed, pending, picks, states, Seating(seats, failed))
      decreases |pending|
    {
      var index := FirstSettled(pending, movable, known, failed);
      EndsAreKnown(StaticEnds(tasks), seats, known);
      if index.None? {
        NobodyDue(tasks, mandatory, pending, Seating(seats, failed));
        StuckPendingWait(tasks, mandatory, pending, seats, known, failed);
        ends := known;
        return;
      }
      var i := index.value;
      ghost var before := Seating(seats, failed);
      ghost var ends0 := known;
      assert pending[i] in pending;
      occupied, known, failed, seats := SettleOne(tasks, mandatory, fixed, pending[i], occupied, known, failed, seats);
      OneMorePick(tasks, mandatory, fixed, pending, i, ends0, picks, states, before, Seating(seats, failed));
      picks, states := picks + [pending[i]], states + [Seating(seats, failed)];
      pending := Without(pending, i);
    }
  }

  lemma NobodyDue(tasks: seq<TaskSpec>, mandatory: set<Id>, pending: seq<TaskSpec>, now: Seating)
    requires Waiting(tasks, mandatory, pending, now.seats, now.failed)
    requires forall i :: 0 <= i < |pending| ==>
               !Settled(pending[i], MovableIds(tasks, mandatory), EndsWith(StaticEnds(tasks), now.seats), now.failed)
    ensures forall u :: !Due(tasks, mandatory, now, u)
  {
    forall u | u in pending
      ensures !Settled(u, MovableIds(tasks, mandatory), EndsWith(StaticEnds(tasks), now.seats), now.failed)
    {
      var i :| 0 <= i < |pending| && pending[i] == u;
    }
  }

  /** The first settled Task of the sorted list comes before every other that is due. */
  lemma FirstDue(tasks: seq<TaskSpec>, mandatory: set<Id>, pending: seq<TaskSpec>, now: Seating, i: nat)
    requires Waiting(tasks, mandatory, pending, now.seats, now.failed) && SortedBy(SeatEarlier, pending)
    requires i < |pending|
    requires Settled(pending[i], MovableIds(tasks, mandatory), EndsWith(StaticEnds(tasks), now.seats), now.failed)
    requires forall k :: 0 <= k < i ==>
               !Settled(pending[k], MovableIds(tasks, mandatory), EndsWith(StaticEnds(tasks), now.seats), now.failed)
    ensures Due(tasks, mandatory, now, pending[i])
    ensures forall u :: Due(tasks, mandatory, now, u) ==> SeatEarlier(pending[i], u)
  {
    assert pending[i] in pending;
    forall u | Due(tasks, mandatory, now, u) ensures SeatEarlier(pending[i], u) {
      var k :| 0 <= k < |pending| && pending[k] == u;
      assert k >= i;
    }
  }

  lemma WithoutSorted(pending: seq<TaskSpec>, i: nat)
    requires SortedBy(SeatEarlier, pending) && i < |pending|
    ensures SortedBy(SeatEarlier, Without(pending, i))
  {
    var rest := Without(pending, i);
    forall a, b | 0 <= a < b < |rest| ensures SeatEarlier(rest[a], rest[b]) {
      var x, y := if a < i then a else a + 1, if b < i then b else b + 1;
      assert rest[a] == pending[x] && rest[b] == pending[y];
    }
  }

  lemma StuckPendingWait(tasks: seq<TaskSpec>, mandatory: set<Id>, pending: seq<TaskSpec>,
                         seats: Seats, ends: map<Id, U64>, failed: set<Id>)
    requires Waiting(tasks, mandatory, pending, seats, failed) && UniqueIds(tasks)
    requires Ends(StaticEnds(tasks), seats, ends)
    requires forall i :: 0 <= i < |pending| ==> !Settled(pending[i], MovableIds(tasks, mandatory), ends, failed)
    ensures LeftoversWait(tasks, mandatory, seats, failed)
  {
    var left := MovableIds(tasks, mandatory) - seats.Keys - failed;
    forall t | t in tasks && t.id in left ensures DependsWithin(t, left) {
      PendingWaits(tasks, mandatory, pending, seats, ends, failed, t);
    }
  }

  lemma PendingWaits(tasks: seq<TaskSpec>, mandatory: set<Id>, pending: seq<TaskSpec>,
                     seats: Seats, ends: map<Id, U64>, failed: set<Id>, t: TaskSpec)
    requires Waiting(tasks, mandatory, pending, seats, failed) && UniqueIds(tasks)
    requires Ends(StaticEnds(tasks), seats, ends)
    requires forall i :: 0 <= i < |pending| ==> !Settled(pending[i], MovableIds(tasks, mandatory), ends, failed)
    requires t in tasks && t.id in MovableIds(tasks, mandatory) - seats.Keys - failed
    ensures DependsWithin(t, MovableIds(tasks, mandatory) - seats.Keys - failed)
  {
    var movable := MovableIds(tasks, mandatory);
    var m :| m in tasks && Movable(mandatory, m) && m.id == t.id;
    UniqueIdsSame(tasks, m, t);
    assert t in pending;
    var i :| 0 <= i < |pending| && pending[i] == t;
    var d :| d in t.dependsOn && d in movable && d !in ends && d !in failed;
    assert d in movable - seats.Keys - failed;
  }

  /** Each Task that stays unsettled sits on a dependency cycle among the unsettled, or waits for one. */
  lemma UnsettledMeansCycle(tasks: seq<TaskSpec>, mandatory: set<Id>, seats: Seats, failed: set<Id>, u: Id)
    returns (lead: seq<Id>, p: seq<Id>)
    requires LeftoversWait(tasks, mandatory, seats, failed)
    requires u in MovableIds(tasks, mandatory) - seats.Keys - failed
    ensures Cycle(GraphOf(tasks), p)
    ensures Elements(p) <= MovableIds(tasks, mandatory) - seats.Keys - failed
    ensures Walk(GraphOf(tasks), lead) && lead[0] == u && lead[|lead| - 1] == p[0]
    ensures Elements(lead) <= MovableIds(tasks, mandatory) - seats.Keys - failed
  {
    var g, left := GraphOf(tasks), MovableIds(tasks, mandatory) - seats.Keys - failed;
    forall v | v in left ensures WaitsIn(g, left, v) {
      LeftoverWaitsIn(tasks, mandatory, seats, failed, v);
    }
    lead, p := CycleBelow(g, left, u);
  }

  lemma LeftoverWaitsIn(tasks: seq<TaskSpec>, mandatory: set<Id>, seats: Seats, failed: set<Id>, u: Id)
    requires LeftoversWait(tasks, mandatory, seats, failed)
    requires u in MovableIds(tasks, mandatory) - seats.Keys - failed
    ensures WaitsIn(GraphOf(tasks), MovableIds(tasks, mandatory) - seats.Keys - failed, u)
  {
    var left := MovableIds(tasks, mandatory) - seats.Keys - failed;
    var t :| t in tasks && Movable(mandatory, t) && t.id == u;
    assert DependsWithin(t, left);
    var d :| d in t.dependsOn && d in left;
    DependencyIsNeed(tasks, t, d);
  }

  /** Without cycles the seats are a complete schedule of everything not reported. */
  lemma AcyclicSeatsAll(tasks: seq<TaskSpec>, mandatory: set<Id>, fixed: seq<TimeWindow>,
                        seats: Seats, ends: map<Id, U64>, failed: set<Id>)
    requires Sound(tasks, mandatory, fixed, seats, ends, failed)
    requires LeftoversWait(tasks, mandatory, seats, failed)
    requires Acyclic(GraphOf(tasks))
    ensures seats.Keys == MovableIds(tasks, mandatory) - failed
    ensures forall t, d :: t in tasks && t.id in seats && Movable(mandatory, t) && d in t.dependsOn ==> d !in failed
  {
    var left := MovableIds(tasks, mandatory) - seats.Keys - failed;
    if left != {} {
      var u := SomeElement(left);
      var lead, p := UnsettledMeansCycle(tasks, mandatory, seats, failed, u);
    }
    assert left == {};
    forall id ensures id in seats.Keys <==> id in MovableIds(tasks, mandatory) - failed {
      if id in MovableIds(tasks, mandatory) - failed {
        assert id in seats.Keys || id in left;
      }
    }
    forall t, d | t in tasks && t.id in seats && Movable(mandatory, t) && d in t.dependsOn ensures d !in failed {
      assert GoodSeat(t, MovableIds(tasks, mandatory), seats, ends);
    }
  }

  // ----- the outcome does not depend on how the Tasks are listed -----

  lemma OneEarliestSeat(fixed: seq<TimeWindow>, ends: map<Id, U64>, now: Seating, t: TaskSpec, a: Seating, b: Seating)
    requires Settles(fixed, ends, now, t, a) && Settles(fixed, ends, now, t, b)
    ensures a == b
  {
  }

  lemma SameRule(tasks: seq<TaskSpec>, others: seq<TaskSpec>, mandatory: set<Id>)
    requires UniqueIds(tasks) && UniqueIds(others) && forall t :: t in tasks <==> t in others
    ensures MovableIds(tasks, mandatory) == MovableIds(others, mandatory) && StaticEnds(tasks) == StaticEnds(others)
  {
    forall id ensures id in StaticEnds(tasks) <==> id in StaticEnds(others) {
      StaticEndAt(tasks, id);
      StaticEndAt(others, id);
    }
    forall id | id in StaticEnds(tasks) ensures StaticEnds(tasks)[id] == StaticEnds(others)[id] {
      StaticEndAt(tasks, id);
      StaticEndAt(others, id);
      var t :| t in tasks && t.id == id && t.Static() && t.window.Some? && StaticEnds(tasks)[id] == t.window.value.end;
      var u :| u in others && u.id == id && u.Static() && u.window.Some?
          && StaticEnds(others)[id] == u.window.value.end;
      UniqueIdsSame(tasks, t, u);
    }
  }

  lemma {:induction false} StaticEndAt(tasks: seq<TaskSpec>, id: Id)
    ensures id in StaticEnds(tasks) <==> exists t :: t in tasks && t.id == id && t.Static() && t.window.Some?
    ensures id in StaticEnds(tasks) ==>
              exists t :: t in tasks && t.id == id && t.Static() && t.window.Some?
                  && StaticEnds(tasks)[id] == t.window.value.end
  {
    if tasks != [] {
      var n := |tasks| - 1;
      var front, last := tasks[..n], tasks[n];
      StaticEndAt(front, id);
      assert tasks == front + [last];
      if t :| t in front && t.id == id && t.Static() && t.window.Some? { assert t in tasks; }
      if last.id == id && last.Static() && last.window.Some? {
        assert last in tasks && StaticEnds(tasks)[id] == last.window.value.end;
      } else if id in StaticEnds(front) {
        var t :| t in front && t.id == id && t.Static() && t.window.Some?
            && StaticEnds(front)[id] == t.window.value.end;
        assert t in tasks && StaticEnds(tasks)[id] == t.window.value.end;
      }
    }
  }

  lemma SameDue(tasks: seq<TaskSpec>, others: seq<TaskSpec>, mandatory: set<Id>, now: Seating, t: TaskSpec)
    requires UniqueIds(tasks) && UniqueIds(others) && forall u :: u in tasks <==> u in others
    ensures Due(tasks, mandatory, now, t) <==> Due(others, mandatory, now, t)
  {
    SameRule(tasks, others, mandatory);
  }

  lemma SameStep(tasks: seq<TaskSpec>, others: seq<TaskSpec>, mandatory: set<Id>, fixed: seq<TimeWindow>, now: Seating,
                 t: TaskSpec, a: Seating, u: TaskSpec, b: Seating)
    requires UniqueIds(tasks) && UniqueIds(others) && forall v :: v in tasks <==> v in others
    requires GreedyStep(tasks, mandatory, fixed, now, t, a) && GreedyStep(others, mandatory, fixed, now, u, b)
    ensures t == u && a == b
  {
    SameDue(tasks, others, mandatory, now, t);
    SameDue(tasks, others, mandatory, now, u);
    assert SeatEarlier(t, u) && SeatEarlier(u, t);
    UniqueIdsSame(tasks, t, u);
    SameRule(tasks, others, mandatory);
    OneEarliestSeat(fixed, EndsWith(StaticEnds(tasks), now.seats), now, t, a, b);
  }

  lemma {:induction false} PassesAgree(tasks: seq<TaskSpec>, others: seq<TaskSpec>, mandatory: set<Id>,
                                       fixed: seq<TimeWindow>,
                                       picks: seq<TaskSpec>, states: seq<Seating>, picks': seq<TaskSpec>,
                                       states': seq<Seating>, k: nat)
    requires UniqueIds(tasks) && UniqueIds(others) && forall v :: v in tasks <==> v in others
    requires GreedyPass(tasks, mandatory, fixed, picks, states) && GreedyPass(others, mandatory, fixed, picks', states')
    requires k <= |picks|
    ensures k <= |picks'| && states[k] == states'[k]
  {
    if k > 0 {
      PassesAgree(tasks, others, mandatory, fixed, picks, states, picks', states', k - 1);
      assert StepAt(tasks, mandatory, fixed, picks, states, k - 1);
      SameDue(tasks, others, mandatory, states[k - 1], picks[k - 1]);
      assert k - 1 < |picks'|;
      assert StepAt(others, mandatory, fixed, picks', states', k - 1);
      SameStep(tasks, others, mandatory, fixed, states[k - 1], picks[k - 1], states[k], picks'[k - 1], states'[k]);
    }
  }

  /** Seats and failures depend on which Tasks there are, not on their order. */
  lemma SeatingIgnoresListing(tasks: seq<TaskSpec>, others: seq<TaskSpec>, mandatory: set<Id>, fixed: seq<TimeWindow>,
                              picks: seq<TaskSpec>, states: seq<Seating>, picks': seq<TaskSpec>, states': seq<Seating>)
    requires UniqueIds(tasks) && UniqueIds(others) && forall v :: v in tasks <==> v in others
    requires GreedyPass(tasks, mandatory, fixed, picks, states) && GreedyPass(others, mandatory, fixed, picks', states')
    ensures states[|picks|] == states'[|picks'|]
  {
    PassesAgree(tasks, others, mandatory, fixed, picks, states, picks', states', |picks|);
    PassesAgree(others, tasks, mandatory, fixed, picks', states', picks, states, |picks'|);
  }
}
