/** Concrete inputs on which the plan does less than one might expect, each with a valid schedule that shows it. */
module Limits {
  import opened Basics
  import opened Sorting
  import opened Spans
  import opened Graphs
  import opened Tasks
  import opened Segments
  import opened Compile
  import opened Clusters
  import opened ClusterFacts
  import opened StaticEdges
  import opened Exclusion
  import opened Dependents
  import opened Pipeline
  import opened Origins
  import opened Expand
  import opened Meaning
  import opened Preservation
  import opened Restore
  import opened Schedules
  import opened Scatter
  import Chains
  import ClusterLimits

  // ----- small scenes: work of ten seconds, perhaps one decomposition, perhaps a commitment beside it -----

  ghost function Work(id: Id, dependsOn: seq<Id>): TaskSpec
  {
    TaskSpec(id, 10, None, false, dependsOn, Some(TimeWindow(0, 200)), None)
  }

  ghost function Scene(bodies: seq<TaskSpec>, free: seq<TaskSpec>, due: Due, items: seq<Id>): Inputs
  {
    Inputs(bodies, free, CoveredWindows(free), CoveredWindows(free), {},
           if items == [] then [] else [Container(9, true, items, [])],
           map id | id in Ids(bodies) :: Row(false, due), (model: DurationModel) => true, map[], 1000, 0)
  }

  ghost predicate Plain(inp: Inputs)
  {
    && WellFormed(inp)
    && (forall i :: 0 <= i < |inp.bodies| ==> !inp.bodies[i].Static())
    && inp.mandatory == {} && inp.observed == map[] && inp.anchor == 0
    && (forall model :: inp.accepts(model))
  }

  /** The first passes leave a Dynamic Task outside every unit, and every carrier, in the clustered request. */
  lemma CurrentReaches(inp: Inputs, st: Stages, c: TaskSpec) returns (o: TaskSpec)
    requires Built(inp, st) && c in st.current && !c.Static()
    ensures o in st.run.out && !o.Static() && RenamedBy(st.home, c, o)
  {
    var k :| 0 <= k < |st.current| && st.current[k] == c;
    o := st.run.tasks[k];
    assert RenamedBy(st.home, st.current[k], st.run.tasks[k]);
    EveryTaskOnce(st.run, o);
  }

  lemma NoNeedsNoEdges(home: Homes, c: TaskSpec, o: TaskSpec)
    requires RenamedBy(home, c, o) && c.dependsOn == []
    ensures o.dependsOn == []
  {
    assert Compile.Needs(home, c) == {};
    NoneAscending();
  }

  lemma NoneAscending()
    ensures Ascending({}) == []
  {
  }

  /** With no commitment around, work may be placed anywhere in its window. */
  lemma AnywhereAlone(inp: Inputs, st: Stages, o: TaskSpec, s: nat) returns (steps: seq<Step>, x: Step)
    requires Built(inp, st) && Plain(inp) && o in st.run.out && !o.Static() && o.dependsOn == []
    requires LongEnough(0, o) && o.window.value.start <= s && s + o.Placement() <= o.window.value.end
    ensures Planned(inp, st, steps) && x in steps && x.id == o.id && x.start == s && x.end == s + o.Placement()
  {
    var r := RequestedAlone(inp, st, o);
    NoCommitments(inp, st);
    ClearIsClear(inp, st, s, s + o.Placement());
    AloneIsPlaced(st.request, FixedSpans(st.run.out), o, r, s);
    steps, x := PlacedIsScheduled(inp, st, r, s);
  }

  lemma RequestedAlone(inp: Inputs, st: Stages, o: TaskSpec) returns (r: TaskSpec)
    requires Built(inp, st) && Plain(inp) && o in st.run.out && !o.Static() && o.dependsOn == [] && LongEnough(0, o)
    ensures r in st.request && r == o.(window := FromAnchor(0, o).window)
  {
    r := Unhindered(inp, st, o);
  }

  lemma AloneIsPlaced(request: seq<TaskSpec>, fixed: seq<TimeWindow>, o: TaskSpec, r: TaskSpec, s: nat)
    requires o.window.Some? && o.window.value.start <= s && s + o.Placement() <= o.window.value.end
    requires o.dependsOn == [] && r == o.(window := FromAnchor(0, o).window)
    requires forall q :: q in request ==> !q.Static()
    requires Clear(fixed, s, s + o.Placement()) <==> ClearOfHeld(request, s, s + o.Placement())
    ensures Placed(request, fixed, r, s)
  {
  }

  lemma NoCommitments(inp: Inputs, st: Stages)
    requires Built(inp, st) && Plain(inp)
    ensures forall q :: q in st.request ==> !q.Static()
  {
    forall q | q in st.request && q.Static() ensures false {
      var o := RequestedCommitment(inp, st, q);
      var t := CommitmentSource(inp, st, o);
      BodyIsWork(inp.bodies, t);
    }
  }

  lemma BodyIsWork(bodies: seq<TaskSpec>, t: TaskSpec)
    requires t in bodies && forall i :: 0 <= i < |bodies| ==> !bodies[i].Static()
    ensures !t.Static()
  {
  }

  lemma {:induction false} SceneIsPlain(bodies: seq<TaskSpec>, free: seq<TaskSpec>, due: Due, items: seq<Id>)
    requires UniqueIds(bodies + free) && Windowed(bodies) && NoDuplicates(items)
    requires forall i :: 0 <= i < |bodies| ==> !bodies[i].Static()
    requires forall i :: 0 <= i < |free| ==> free[i].Static() && Anchored(free[i])
    ensures Plain(Scene(bodies, free, due, items))
  {
    var inp, windows := Scene(bodies, free, due, items), CoveredWindows(free);
    forall i | 0 <= i < |free| ensures FreeStatic(inp, free[i]) && free[i].id !in Ids(bodies) {
      FreeIsKnown(bodies, free, i);
    }
    forall id | id in windows ensures id !in Ids(bodies) {
      var t :| t in free && t.id == id && t.window == Some(windows[id]);
      var i :| 0 <= i < |free| && free[i] == t;
    }
  }

  lemma FreeIsKnown(bodies: seq<TaskSpec>, free: seq<TaskSpec>, i: nat)
    requires UniqueIds(bodies + free) && i < |free| && free[i].window.Some?
    ensures KnownWindow(CoveredWindows(free), free[i]) && free[i].id !in Ids(bodies)
  {
    var all, windows := bodies + free, CoveredWindows(free);
    assert all[|bodies| + i] == free[i] && free[i] in free;
    var t :| t in free && t.id == free[i].id && t.window == Some(windows[free[i].id]);
    UniqueIdsSame(all, t, free[i]);
    forall k | 0 <= k < |bodies| ensures bodies[k].id != free[i].id {
      assert all[k] == bodies[k];
    }
  }

  // ----- a due date that is missed -----

  ghost function LateScene(): Inputs { Scene([Work(1, [])], [], DueAt(5), []) }

  lemma NoUnits(inp: Inputs, st: Stages)
    requires Built(inp, st) && inp.containers == []
    ensures forall c :: c !in st.compiled
    ensures forall m :: m !in st.home
  {
    NoSegments(st.dropped, st.compiled, st.home);
  }

  lemma NoSegments(tasks: seq<TaskSpec>, compiled: map<Id, CompiledSegment>, home: Homes)
    requires AllFromUnits(tasks, [], compiled) && HomesMatch(home, compiled)
    ensures forall c :: c !in compiled
    ensures forall m :: m !in home
  {
  }

  /** `Pipeline.BuildRequest` takes the scene: its only work is due at 5 and has a window up to 200. */
  lemma LateSceneIsPlain()
    ensures Plain(LateScene()) && LateScene().bodies == [Work(1, [])]
    ensures 1 in LateScene().rows && LateScene().rows[1].due == DueAt(5)
  {
    SceneIsPlain([Work(1, [])], [], DueAt(5), []);
    assert 1 in Ids([Work(1, [])]) by { assert [Work(1, [])][0].id == 1; }
  }

  /** Work without prerequisites may be scheduled from any `s` that its window allows, when nothing is around. */
  lemma WorkAlone(inp: Inputs, st: Stages, t: TaskSpec, s: nat) returns (steps: seq<Step>, x: Step)
    requires Built(inp, st) && Plain(inp) && inp.containers == []
    requires t in inp.bodies && t == Work(t.id, []) && s <= 190
    ensures Planned(inp, st, steps) && Appears(inp, st, steps, x)
    ensures x.id == t.id && x.start == s && x.end == s + 10
  {
    NoUnits(inp, st);
    StillThere(inp, st, t);
    assert t in st.current;
    var o := CurrentReaches(inp, st, t);
    NoNeedsNoEdges(st.home, t, o);
    var c := DynamicSource(inp, st, o);
    steps, x := AnywhereAlone(inp, st, o, s);
    assert FromKernel(st, x, x);
  }

  /** A valid schedule has the work from 10 to 20, after its due date. */
  lemma DueMissed(st: Stages) returns (steps: seq<Step>, x: Step)
    requires Built(LateScene(), st)
    ensures Planned(LateScene(), st, steps) && Appears(LateScene(), st, steps, x)
    ensures x.id == 1 && x.end == 20
  {
    LateSceneIsPlain();
    steps, x := WorkAlone(LateScene(), st, Work(1, []), 10);
  }

  // ----- units of two -----

  ghost predicate PairIn(inp: Inputs, unit: UnitRef, k: nat, a: TaskSpec, b: TaskSpec)
    requires forall i :: 0 <= i < |inp.containers| ==> ValidContainer(inp.containers[i])
  {
    && unit in ActiveUnits(inp.containers) && k + 2 == |unit.ids| && unit.ids[k..] == [a.id, b.id] && a.id != b.id
    && (forall i :: 0 <= i < k ==> unit.ids[i] !in Ids(inp.bodies))
    && a in inp.bodies && b in inp.bodies && a == Work(a.id, a.dependsOn) && b == Work(b.id, b.dependsOn)
    && a.id in inp.rows && b.id in inp.rows && inp.rows[a.id] == inp.rows[b.id] == Row(false, NoDue)
  }

  lemma FirstIs(tasks: seq<TaskSpec>, ids: seq<Id>, k: nat)
    requires k < |ids| && ids[k] in Ids(tasks) && forall i :: 0 <= i < k ==> ids[i] !in Ids(tasks)
    ensures FirstPresent(tasks, ids) == k
  {
  }

  lemma WorkSums(a: TaskSpec, b: TaskSpec)
    requires a == Work(a.id, a.dependsOn) && b == Work(b.id, b.dependsOn)
    ensures Sum(MinPart, [a, b]) == Sum(ModePart, [a, b]) == Sum(P95Part, [a, b]) == Sum(LegacyPart, [a, b]) == 20
  {
    SumOfTwo(MinPart, a, b);
    SumOfTwo(ModePart, a, b);
    SumOfTwo(P95Part, a, b);
    SumOfTwo(LegacyPart, a, b);
  }

  lemma SumOfTwo(f: TaskSpec -> nat, a: TaskSpec, b: TaskSpec)
    ensures Sum(f, [a, b]) == f(a) + f(b)
  {
    var two, one := [a, b], [a];
    assert two[..1] == one && one[..0] == [];
    assert Sum(f, one) == f(a);
  }

  lemma PairCompiles(tasks: seq<TaskSpec>, rows: Rows,
                     accepts: DurationModel -> bool, ids: seq<Id>, k: nat, a: TaskSpec, b: TaskSpec)
    requires UniqueIds(tasks) && a in tasks && b in tasks && a == Work(a.id, a.dependsOn)
    requires b == Work(b.id, b.dependsOn)
    requires k + 2 == |ids| && ids[k..] == [a.id, b.id] && forall i :: 0 <= i < k ==> ids[i] !in Ids(tasks)
    requires a.id in rows && b.id in rows && rows[a.id] == rows[b.id] == Row(false, NoDue)
    requires forall model :: accepts(model)
    ensures FirstPresent(tasks, ids) == k && Compiles(tasks, rows, accepts, ids) && MembersOf(tasks, ids[k..]) == [a, b]
  {
    IdIn(tasks, a);
    IdIn(tasks, b);
    assert ids[k] == ids[k..][0];
    FirstIs(tasks, ids, k);
    var members := MembersOf(tasks, ids[k..]);
    UniqueIdsSame(tasks, members[0], a);
    UniqueIdsSame(tasks, members[1], b);
    assert members == [a, b];
    WorkSums(a, b);
    assert UnitModel(members, Fixed(20)) && accepts(Fixed(20));
  }

  lemma PairCarrier(rows: Rows, a: TaskSpec, b: TaskSpec, c: TaskSpec)
    requires Unit(rows, [a, b], c) && a == Work(a.id, a.dependsOn) && b == Work(b.id, b.dependsOn)
    requires a.id in rows && b.id in rows && rows[a.id] == rows[b.id] == Row(false, NoDue)
    ensures c.Placement() == 20 && c.window == Some(TimeWindow(0, 200)) && LongEnough(0, c)
    ensures forall d :: d in c.dependsOn <==> d != a.id && d != b.id && (d in a.dependsOn || d in b.dependsOn)
  {
    WorkSums(a, b);
    UnitPlacement(rows, [a, b], c);
    PairWindow(rows, a, b, c.window.value);
    PairNeeds(a, b);
    AscendingMembers(ExternalNeeds([a, b], Ids([a, b])));
  }

  lemma AscendingMembers(s: set<Id>)
    ensures forall d :: d in Ascending(s) <==> d in s
  {
    assert Elements(Ascending(s)) == s;
  }

  lemma PairWindow(rows: Rows, a: TaskSpec, b: TaskSpec, w: TimeWindow)
    requires UnitWindow(rows, [a, b], w) && a == Work(a.id, a.dependsOn) && b == Work(b.id, b.dependsOn)
    requires a.id in rows && b.id in rows && rows[a.id] == rows[b.id] == Row(false, NoDue)
    ensures w == TimeWindow(0, 200)
  {
    var members := [a, b];
    var early, late := AfterStarts(members, 0), BeforeEnds(rows, members, 200);
    assert BeforeEnds(rows, members, w.end) && MayEndAt(rows, members[0], w.end);
  }

  lemma PairNeeds(a: TaskSpec, b: TaskSpec)
    ensures forall d :: d in ExternalNeeds([a, b], Ids([a, b])) <==>
                          d != a.id && d != b.id && (d in a.dependsOn || d in b.dependsOn)
  {
    var members := [a, b];
    assert members[0] == a && members[1] == b;
    assert forall d :: d in Ids(members) <==> d == a.id || d == b.id;
  }

  lemma PairSegment(inp: Inputs, st: Stages, unit: UnitRef, k: nat, a: TaskSpec, b: TaskSpec) returns (c: TaskSpec)
    requires Built(inp, st) && Plain(inp) && PairIn(inp, unit, k, a, b)
    ensures FirstPresent(st.dropped, unit.ids) == k && Compiles(st.dropped, inp.rows, inp.accepts, unit.ids)
    ensures a.id in st.compiled && st.compiled[a.id].members == [a, b]
    ensures c in st.current && c.id == a.id && !c.Static() && Unit(inp.rows, [a, b], c)
  {
    NothingDropped(inp, st);
    DroppedShape(inp, st.drops, st.dropped);
    PairCompiles(st.dropped, inp.rows, inp.accepts, unit.ids, k, a, b);
    OutcomeOf(st.dropped, inp.rows, inp.accepts, ActiveUnits(inp.containers), st.run.tasks, st.compiled, st.home,
        st.current, unit);
    assert unit.ids[k] == unit.ids[k..][0];
    c := TaskWithId(st.current, a.id);
  }

  lemma NothingDropped(inp: Inputs, st: Stages)
    requires Built(inp, st) && Plain(inp)
    ensures st.dropped == inp.bodies
  {
    forall i | 0 <= i < |inp.bodies| ensures st.dropped[i] == inp.bodies[i] {
      DynamicNotDropped(inp, st, i);
    }
  }

  /** A decomposition that is not split is one segment. */
  lemma WholeIsUnit(c: Container)
    requires ValidContainer(c) && c.active && c.splits == [] && |c.items| > 1
    ensures ActiveUnits([c]) == [UnitRef(c.id, 0, c.items)]
  {
    var units := UnitsOf(c);
    ValidContainerSplits(c);
    assert |units| == 1 && units[0].ids == c.items[0..|c.items|];
    assert units[0] == UnitRef(c.id, 0, c.items) && units[0] in units;
    assert [c][..0] == [] && units[1..] == [];
    assert Filter((u: UnitRef) => |u.ids| > 1, units) == [units[0]];
  }

  /** A pair whose children wait for nobody else. */
  ghost predicate SelfContained(a: TaskSpec, b: TaskSpec)
  {
    && (forall d :: d in a.dependsOn ==> d == a.id || d == b.id)
    && (forall d :: d in b.dependsOn ==> d == a.id || d == b.id)
  }

  ghost predicate QuietPair(o: TaskSpec, id: Id)
  {
    && !o.Static() && o.id == id && o.dependsOn == []
    && LongEnough(0, o) && o.window.value.start == 0 && o.Placement() == 20
  }

  lemma PairIsQuiet(rows: Rows, a: TaskSpec, b: TaskSpec, c: TaskSpec)
    requires Unit(rows, [a, b], c) && a == Work(a.id, a.dependsOn) && b == Work(b.id, b.dependsOn)
    requires SelfContained(a, b)
    requires a.id in rows && b.id in rows && rows[a.id] == rows[b.id] == Row(false, NoDue)
    ensures QuietPair(c, a.id)
  {
    PairCarrier(rows, a, b, c);
    PairNeeds(a, b);
    assert ExternalNeeds([a, b], Ids([a, b])) == {};
    NoneAscending();
  }

  lemma RenamedQuiet(home: Homes, c: TaskSpec, o: TaskSpec, id: Id)
    requires RenamedBy(home, c, o) && QuietPair(c, id)
    ensures QuietPair(o, id)
  {
    NoNeedsNoEdges(home, c, o);
  }

  lemma PairOut(inp: Inputs, st: Stages, unit: UnitRef, k: nat, a: TaskSpec, b: TaskSpec) returns (o: TaskSpec)
    requires Built(inp, st) && Plain(inp) && PairIn(inp, unit, k, a, b) && SelfContained(a, b)
    ensures a.id in st.compiled && st.compiled[a.id].members == [a, b]
    ensures o in st.run.out && QuietPair(o, a.id)
  {
    var c := PairSegment(inp, st, unit, k, a, b);
    PairIsQuiet(inp.rows, a, b, c);
    o := CurrentReaches(inp, st, c);
    RenamedQuiet(st.home, c, o, a.id);
  }

  /** The pair may run from the start, one after the other. */
  lemma PairScheduled(inp: Inputs, st: Stages, unit: UnitRef, k: nat, a: TaskSpec, b: TaskSpec)
    returns (steps: seq<Step>, x: Step, y: Step)
    requires Built(inp, st) && Plain(inp) && PairIn(inp, unit, k, a, b) && SelfContained(a, b)
    ensures Planned(inp, st, steps)
    ensures Appears(inp, st, steps, x) && x.id == a.id && x.start == 0 && x.end == 10
    ensures Appears(inp, st, steps, y) && y.id == b.id && y.start == 10 && y.end == 20
  {
    var o := PairOut(inp, st, unit, k, a, b);
    steps, x, y := QuietScheduled(inp, st, o, a, b);
  }

  lemma QuietScheduled(inp: Inputs, st: Stages, o: TaskSpec, a: TaskSpec, b: TaskSpec)
    returns (steps: seq<Step>, x: Step, y: Step)
    requires Built(inp, st) && Plain(inp) && o in st.run.out && QuietPair(o, a.id)
    requires a.id in st.compiled && st.compiled[a.id].members == [a, b]
    requires a == Work(a.id, a.dependsOn) && b == Work(b.id, b.dependsOn)
    ensures Planned(inp, st, steps)
    ensures Appears(inp, st, steps, x) && x.id == a.id && x.start == 0 && x.end == 10
    ensures Appears(inp, st, steps, y) && y.id == b.id && y.start == 10 && y.end == 20
  {
    var s;
    steps, s := QuietFromStart(inp, st, o, a.id);
    x, y := PairShown(inp, st, steps, s, a, b);
  }

  lemma QuietFromStart(inp: Inputs, st: Stages, o: TaskSpec, id: Id) returns (steps: seq<Step>, s: Step)
    requires Built(inp, st) && Plain(inp) && o in st.run.out && QuietPair(o, id)
    ensures Planned(inp, st, steps) && s in steps && s.id == id && s.start == 0 && s.end == 20
  {
    QuietFits(o, id);
    steps, s := AnywhereAlone(inp, st, o, 0);
  }

  lemma QuietFits(o: TaskSpec, id: Id)
    requires QuietPair(o, id)
    ensures !o.Static() && o.dependsOn == [] && o.window.Some?
    ensures LongEnough(0, o) && o.window.value.start <= 0 && o.Placement() <= o.window.value.end
  {
  }

  lemma PairShown(inp: Inputs, st: Stages, steps: seq<Step>, s: Step, a: TaskSpec, b: TaskSpec)
    returns (x: Step, y: Step)
    requires Planned(inp, st, steps) && s in steps && s.id == a.id && s.start == 0 && s.end == 20
    requires a.id in st.compiled && st.compiled[a.id].members == [a, b]
    requires a == Work(a.id, a.dependsOn) && b == Work(b.id, b.dependsOn)
    ensures Appears(inp, st, steps, x) && x.id == a.id && x.start == 0 && x.end == 10
    ensures Appears(inp, st, steps, y) && y.id == b.id && y.start == 10 && y.end == 20
  {
    CarrierIsDynamicStep(inp, st, steps, s);
    x, y := PairSteps(s, a, b);
    assert FromUnit(st, s, 0, x) && FromUnit(st, s, 1, y);
  }

  lemma PairSteps(s: Step, a: TaskSpec, b: TaskSpec) returns (x: Step, y: Step)
    requires s.start == 0 && s.end == 20 && a == Work(a.id, a.dependsOn) && b == Work(b.id, b.dependsOn)
    ensures ChildStep(s, [a, b], 0, x) && x.id == a.id && x.start == 0 && x.end == 10
    ensures ChildStep(s, [a, b], 1, y) && y.id == b.id && y.start == 10 && y.end == 20
  {
    var members := [a, b];
    WorkSums(a, b);
    OffsetTotal(members);
    OffsetNext(members, 0);
    assert Offset(members, 0) == 0;
    x := Step(a.id, 0, 10, s.dependsOn, s.pinned, true);
    y := Step(b.id, 10, 20, [a.id], s.pinned, true);
  }

  lemma CarrierIsDynamicStep(inp: Inputs, st: Stages, steps: seq<Step>, s: Step)
    requires Planned(inp, st, steps) && s in steps && s.id in st.compiled
    ensures RestoredStep(st.run.carriers, s) == s
  {
    var r, o := StepOrigin(inp, st, steps, s);
    CarrierIsDynamic(inp, st, o);
    var c := DynamicSource(inp, st, o);
  }

  /** Work and commitments beside it, as the scenes use them. */
  ghost predicate Props(bodies: seq<TaskSpec>, free: seq<TaskSpec>)
  {
    && UniqueIds(bodies + free)
    && (forall t :: t in bodies ==> t == Work(t.id, t.dependsOn))
    && (forall i :: 0 <= i < |free| ==> free[i].Static() && Anchored(free[i]))
  }

  /** A scene whose last two children are there, the earlier ones gone or commitments without capacity. */
  lemma SceneHasPair(bodies: seq<TaskSpec>, free: seq<TaskSpec>, items: seq<Id>, k: nat, a: TaskSpec, b: TaskSpec)
    requires Props(bodies, free) && a in bodies && b in bodies
    requires NoDuplicates(items) && k + 2 == |items| && items[k..] == [a.id, b.id]
    requires forall i :: 0 <= i < k ==> items[i] !in Ids(bodies)
    ensures Plain(Scene(bodies, free, NoDue, items))
    ensures ActiveUnits(Scene(bodies, free, NoDue, items).containers) == [UnitRef(9, 0, items)]
    ensures PairIn(Scene(bodies, free, NoDue, items), UnitRef(9, 0, items), k, a, b)
  {
    forall i | 0 <= i < |bodies| ensures !bodies[i].Static() && bodies[i].window.Some? { assert bodies[i] in bodies; }
    ItemsApart(items, k, a.id, b.id);
    SceneIsPlain(bodies, free, NoDue, items);
    WholeIsUnit(Container(9, true, items, []));
    IdIn(bodies, a);
    IdIn(bodies, b);
  }

  lemma ScenePair(a: TaskSpec, b: TaskSpec, free: seq<TaskSpec>, items: seq<Id>, k: nat)
    requires a == Work(a.id, a.dependsOn) && b == Work(b.id, b.dependsOn)
    requires NoDuplicates(items) && k + 2 == |items| && items[k..] == [a.id, b.id]
    requires |free| <= 1
    requires forall i :: 0 <= i < |free| ==> free[i].Static() && Anchored(free[i]) && free[i].id in items[..k]
    ensures Plain(Scene([a, b], free, NoDue, items))
    ensures PairIn(Scene([a, b], free, NoDue, items), UnitRef(9, 0, items), k, a, b)
  {
    ItemsApart(items, k, a.id, b.id);
    PairUnique(a, b, free);
    PairIds(a, b);
    assert [a, b][0] == a && [a, b][1] == b;
    SceneHasPair([a, b], free, items, k, a, b);
  }

  lemma PairIds(a: TaskSpec, b: TaskSpec)
    ensures forall id :: id in Ids([a, b]) <==> id == a.id || id == b.id
  {
    assert [a, b][0] == a && [a, b][1] == b;
  }

  lemma ItemsApart(items: seq<Id>, k: nat, a: Id, b: Id)
    requires NoDuplicates(items) && k + 2 == |items| && items[k..] == [a, b]
    ensures a != b && a !in items[..k] && b !in items[..k]
    ensures forall i :: 0 <= i < k ==> items[i] != a && items[i] != b
  {
    assert items[k] == items[k..][0] && items[k + 1] == items[k..][1];
  }

  lemma PairUnique(a: TaskSpec, b: TaskSpec, free: seq<TaskSpec>)
    requires a.id != b.id && |free| <= 1 && forall i :: 0 <= i < |free| ==> free[i].id != a.id && free[i].id != b.id
    ensures UniqueIds([a, b] + free)
  {
  }

  // ----- a child that waits for a later sibling -----

  ghost function BackwardsScene(): Inputs { Scene([Work(1, [2]), Work(2, [])], [], NoDue, [1, 2]) }

  lemma {:induction false} BackwardsPair()
    ensures Plain(BackwardsScene()) && Work(1, [2]) in BackwardsScene().bodies
    ensures SelfContained(Work(1, [2]), Work(2, []))
    ensures PairIn(BackwardsScene(), UnitRef(9, 0, [1, 2]), 0, Work(1, [2]), Work(2, []))
  {
    assert [1, 2][0..] == [1, 2];
    ScenePair(Work(1, [2]), Work(2, []), [], [1, 2], 0);
  }

  /** Child 1 waits for child 2, and the valid schedule has it before. */
  lemma SiblingOutOfOrder(st: Stages) returns (steps: seq<Step>, x: Step, y: Step)
    requires Built(BackwardsScene(), st)
    ensures Planned(BackwardsScene(), st, steps)
    ensures Appears(BackwardsScene(), st, steps, x) && x.id == 1 && Appears(BackwardsScene(), st, steps, y) && y.id == 2
    ensures x.end == y.start < y.end
  {
    BackwardsPair();
    steps, x, y := PairScheduled(BackwardsScene(), st, UnitRef(9, 0, [1, 2]), 0, Work(1, [2]), Work(2, []));
  }

  // ----- a compiled segment the contiguity check reports -----

  ghost function DetachedScene(): Inputs
  {
    Scene([Work(2, []), Work(3, [])], [ClusterLimits.Commitment(1, [], 100, 110)], NoDue, [1, 2, 3])
  }

  lemma DetachedPair()
    ensures Plain(DetachedScene()) && SelfContained(Work(2, []), Work(3, []))
    ensures PairIn(DetachedScene(), UnitRef(9, 0, [1, 2, 3]), 1, Work(2, []), Work(3, []))
  {
    assert [1, 2, 3][1..] == [2, 3] && [1, 2, 3][..1] == [1];
    assert 1 in [1];
    ScenePair(Work(2, []), Work(3, []), [ClusterLimits.Commitment(1, [], 100, 110)], [1, 2, 3], 1);
  }

  /** One child is shown at one time. */
  lemma ShownAtOnce(inp: Inputs, st: Stages, steps: seq<Step>, c: Id, i: nat, x: Step, z: Step)
    requires Planned(inp, st, steps) && c in st.compiled && i < |st.compiled[c].members|
    requires Appears(inp, st, steps, x) && x.id == st.compiled[c].members[i].id
    requires Appears(inp, st, steps, z) && z.id == x.id
    ensures x.start == z.start && x.end == z.end
  {
    var s := MemberUnder(inp, st, steps, c, i, x);
    var s' := MemberUnder(inp, st, steps, c, i, z);
    OneChild(st, s, i, x, z);
  }

  lemma OneChild(st: Stages, s: Step, i: nat, x: Step, z: Step)
    requires FromUnit(st, s, i, x) && FromUnit(st, s, i, z)
    ensures x.start == z.start && x.end == z.end
  {
  }

  lemma FirstPlaced(plan: seq<Step>, ids: seq<Id>) returns (z: Step)
    requires ids != [] && ids[0] in StepIds(plan)
    ensures PlacedOf(plan, ids) != [] && PlacedOf(plan, ids)[0] == z && z in plan && z.id == ids[0]
  {
    z := StepFor(plan, ids[0]).value;
  }

  lemma PairPlacedAt(inp: Inputs, st: Stages, steps: seq<Step>, plan: seq<Step>, a: TaskSpec, b: TaskSpec, x: Step)
    requires Planned(inp, st, steps) && PlanOf(inp, st, steps, plan)
    requires a.id in st.compiled && st.compiled[a.id].members == [a, b]
    requires Appears(inp, st, steps, x) && x.id == a.id
    ensures PlacedOf(plan, [a.id, b.id]) != [] && PlacedOf(plan, [a.id, b.id])[0].start == x.start
  {
    var z := FirstPlaced(plan, [a.id, b.id]);
    ShownAtOnce(inp, st, steps, a.id, 0, x, z);
  }

  lemma FrontIsFree(free: seq<TaskSpec>, plan: seq<Step>, ids: seq<Id>, w: TimeWindow)
    requires |ids| > 1 && ReportedExactly(free, plan, ids, 1) && free != [] && free[0].id == ids[0]
    requires free[0].window == Some(w)
    requires PlacedOf(plan, ids[1..]) != [] && PlacedOf(plan, ids[1..])[0].start != w.end
    ensures Scattered(PlacedOf(plan, ids))
  {
    var first := ids[..1];
    assert first[0] == ids[0] && first[1..] == [];
    assert FreeWindows(free, first) == [w];
    assert Map(Span, PlacedOf(plan, first))[0] == w;
  }

  /** Child 1 was made a commitment without capacity; the others are compiled, and the check reports the segment. */
  lemma CompiledYetScattered(st: Stages) returns (steps: seq<Step>)
    requires Built(DetachedScene(), st)
    ensures Planned(DetachedScene(), st, steps) && 2 in st.compiled
    ensures forall plan :: PlanOf(DetachedScene(), st, steps, plan) ==> Scattered(PlacedOf(plan, [1, 2, 3]))
  {
    var inp, unit, a, b := DetachedScene(), UnitRef(9, 0, [1, 2, 3]), Work(2, []), Work(3, []);
    DetachedPair();
    var x, y;
    steps, x, y := PairScheduled(inp, st, unit, 1, a, b);
    forall plan | PlanOf(inp, st, steps, plan) ensures Scattered(PlacedOf(plan, [1, 2, 3])) {
      PairReported(inp, st, steps, plan, unit, a, b, x);
    }
    var o := PairOut(inp, st, unit, 1, a, b);
  }

  lemma PairReported(inp: Inputs, st: Stages, steps: seq<Step>, plan: seq<Step>, unit: UnitRef, a: TaskSpec,
                     b: TaskSpec, x: Step)
    requires Planned(inp, st, steps) && PlanOf(inp, st, steps, plan) && Plain(inp) && PairIn(inp, unit, 1, a, b)
    requires inp.free != [] && inp.free[0].id == unit.ids[0] && inp.free[0].window.Some?
    requires Appears(inp, st, steps, x) && x.id == a.id && x.start != inp.free[0].window.value.end
    ensures Scattered(PlacedOf(plan, unit.ids))
  {
    var c := PairSegment(inp, st, unit, 1, a, b);
    CompiledScatteredExactly(inp, st, steps, plan, unit);
    PairPlacedAt(inp, st, steps, plan, a, b, x);
    FrontIsFree(inp.free, plan, unit.ids, inp.free[0].window.value);
  }

  // ----- a segment whose fusing closes a cycle -----

  /** Children 1 and 2, and work 3 from outside between them. */
  ghost function CrossedBodies(): seq<TaskSpec> { [Work(1, []), Work(2, [1, 3]), Work(3, [1])] }

  ghost function CrossedScene(): Inputs { Scene(CrossedBodies(), [], NoDue, [1, 2]) }

  lemma CrossedInOrder()
    ensures Acyclic(GraphOf(CrossedBodies())) && LooksBack(CrossedBodies(), [1, 2])
  {
    var bodies := CrossedBodies();
    CrossedNeeds(bodies);
    CrossedChain(GraphOf(bodies));
    assert bodies[0].id == 1 && bodies[1].id == 2;
  }

  lemma {:induction false} CrossedNeeds(bodies: seq<TaskSpec>)
    requires bodies == CrossedBodies()
    ensures GraphOf(bodies) == map[1 := {}, 2 := {1, 3}, 3 := {1}]
  {
    assert bodies[0].id == 1 && bodies[1].id == 2 && bodies[2].id == 3;
    assert Prerequisites(bodies, 1) == {} && Prerequisites(bodies, 2) == {1, 3} && Prerequisites(bodies, 3) == {1};
    assert Ids(bodies) == {1, 2, 3};
  }

  lemma CrossedChain(g: Graph)
    requires g == map[1 := {}, 2 := {1, 3}, 3 := {1}]
    ensures Acyclic(g)
  {
    var order := [1, 3, 2];
    assert order[..1] == [1] && order[..2] == [1, 3];
    assert Elements(order) == {1, 2, 3};
    assert Forward(g, order);
    ForwardIsAcyclic(g, order);
  }

  lemma CrossedIsPlain()
    ensures Plain(CrossedScene())
    ensures PairIn(CrossedScene(), UnitRef(9, 0, [1, 2]), 0, Work(1, []), Work(2, [1, 3]))
    ensures ActiveUnits(CrossedScene().containers) == [UnitRef(9, 0, [1, 2])]
  {
    assert [1, 2][0..] == [1, 2];
    CrossedProps(CrossedBodies());
    SceneHasPair(CrossedBodies(), [], [1, 2], 0, Work(1, []), Work(2, [1, 3]));
  }

  lemma CrossedProps(bodies: seq<TaskSpec>)
    requires bodies == CrossedBodies()
    ensures Props(bodies, []) && Work(1, []) in bodies && Work(2, [1, 3]) in bodies && Work(3, [1]) in bodies
  {
    assert bodies + [] == bodies;
    assert bodies[0] == Work(1, []) && bodies[1] == Work(2, [1, 3]) && bodies[2] == Work(3, [1]);
  }

  /** A Task outside the one unit is not fused. */
  lemma OutsideUnit(inp: Inputs, st: Stages, unit: UnitRef, id: Id)
    requires Built(inp, st) && ActiveUnits(inp.containers) == [unit] && id !in unit.ids
    ensures id !in st.home
  {
    forall m | m in st.home ensures m != id {
      Chains.HomeIsUnder(inp, st, m);
      InTheUnit(inp, unit, st.home[m], m);
    }
  }

  lemma InTheUnit(inp: Inputs, unit: UnitRef, c: Id, m: Id)
    requires WellFormed(inp) && ActiveUnits(inp.containers) == [unit] && Chains.UnitUnder(inp, c, m)
    ensures m in unit.ids
  {
    var u :| u in ActiveUnits(inp.containers) && Chains.HeadOf(inp, u, c, m);
  }

  /** The carrier waits for the outsider, which waits for the carrier. */
  lemma CrossedCycle(inp: Inputs, st: Stages, unit: UnitRef, a: TaskSpec, b: TaskSpec, t: TaskSpec)
    requires Built(inp, st) && Plain(inp) && PairIn(inp, unit, 0, a, b) && t in inp.bodies && t.id !in st.home
    requires t.id in b.dependsOn && a.id in t.dependsOn && t.id != a.id && t.id != b.id
    ensures Cycle(GraphOf(st.run.out), [a.id, t.id, a.id])
  {
    var c := PairSegment(inp, st, unit, 0, a, b);
    PairCarrier(inp.rows, a, b, c);
    StillThere(inp, st, t);
    assert t in st.current;
    CarriersAreHome(st.dropped, inp.rows, st.current, st.compiled, st.home);
    var o := CurrentReaches(inp, st, c);
    var u := CurrentReaches(inp, st, t);
    RenamedEdge(st.home, c, o, t.id);
    RenamedEdge(st.home, t, u, a.id);
    ClusterLimits.MutualNeed(st.run.out, o, u);
  }

  /** With nothing absent, nothing mandatory and room in every window, no Task is left out. */
  lemma NobodyJudged(setting: Setting, tasks: seq<TaskSpec>, pushed: seq<TaskSpec>, judged: map<Id, Reason>)
    requires Judged(setting, tasks, pushed, judged) && setting.absent == map[] && setting.mandatory == {}
    requires forall t :: t in tasks ==> !t.Static() && LongEnough(setting.anchor, t)
    ensures forall id :: id !in judged
    ensures Ids(pushed) == Ids(tasks)
  {
    forall i | 0 <= i < |tasks| ensures tasks[i].id !in judged && pushed[i].id == tasks[i].id {
      assert tasks[i] in tasks && JudgedOne(setting, tasks[i], pushed[i], judged);
      AlwaysRoomy(setting, tasks[i], pushed[i]);
    }
    SameHandles(tasks, pushed);
  }

  lemma AlwaysRoomy(setting: Setting, t: TaskSpec, p: TaskSpec)
    requires Pushed(setting, t, p) && p.window.Some? && setting.absent == map[] && !t.Static()
    requires LongEnough(setting.anchor, t)
    ensures Roomy(p) && !OutsideHorizon(setting, t)
  {
    var start := p.window.value.start;
    assert AfterAbsent(setting, t.dependsOn, Max(t.window.value.start, setting.anchor));
    assert start <= Max(t.window.value.start, setting.anchor);
  }

  lemma SameHandles(tasks: seq<TaskSpec>, others: seq<TaskSpec>)
    requires |others| == |tasks| && forall i :: 0 <= i < |tasks| ==> others[i].id == tasks[i].id
    ensures Ids(others) == Ids(tasks)
  {
  }

  lemma NobodyLeftOut(inp: Inputs, st: Stages)
    requires Built(inp, st) && Plain(inp) && inp.absent == map[]
    requires forall o :: o in st.run.out ==> !o.Static() && LongEnough(0, o)
    ensures Ids(st.request) == Ids(st.run.out)
  {
    NobodyIsJudged(inp, st);
    forall id ensures id !in st.unseatable { OptionalIsSeatable(inp, st, id); }
    AllPlanned(inp, st);
    RequestIds(inp, st);
  }

  lemma NobodyIsJudged(inp: Inputs, st: Stages)
    requires Built(inp, st) && Plain(inp) && inp.absent == map[]
    requires forall o :: o in st.run.out ==> !o.Static() && LongEnough(0, o)
    ensures forall id :: id !in st.judged
    ensures Ids(st.pushed) == Ids(st.run.out)
  {
    NothingCovered(inp, st);
    NobodyJudged(SettingFor(inp, st.run), st.run.out, st.pushed, st.judged);
  }

  lemma NothingDoomed(tasks: seq<TaskSpec>, judged: map<Id, Reason>, unseatable: set<Id>, removed: set<Id>)
    requires LeastClosed(tasks, judged.Keys + unseatable, removed)
    requires (forall id :: id !in judged) && forall id :: id !in unseatable
    ensures removed == {}
  {
    forall x ensures x !in judged.Keys + unseatable { assert x !in judged && x !in unseatable; }
    assert Closed(tasks, {});
  }

  lemma AllPlanned(inp: Inputs, st: Stages)
    requires Built(inp, st) && (forall id :: id !in st.judged) && forall id :: id !in st.unseatable
    ensures Ids(st.planned) == Ids(st.pushed)
  {
    PlannedUnique(inp, st);
    NobodyIsDoomed(inp, st);
    forall p | p in st.pushed ensures p in st.planned {
      PushedIsPlanned(inp, st, p);
    }
    SameMembers(st.pushed, st.planned);
  }

  lemma NobodyIsDoomed(inp: Inputs, st: Stages)
    requires Built(inp, st) && (forall id :: id !in st.judged) && forall id :: id !in st.unseatable
    ensures st.removed == {}
  {
    NothingDoomed(st.seatable, st.judged, st.unseatable, st.removed);
  }

  lemma PushedIsPlanned(inp: Inputs, st: Stages, p: TaskSpec)
    requires Built(inp, st) && p in st.pushed && p.id !in st.judged && p.id !in st.unseatable && st.removed == {}
    ensures p in st.planned
  {
    assert p in st.fitting;
    assert p in st.seatable && !Doomed(p, st.removed);
  }

  lemma SameMembers(a: seq<TaskSpec>, b: seq<TaskSpec>)
    requires forall t :: t in a <==> t in b
    ensures Ids(a) == Ids(b)
  {
    forall x ensures x in Ids(a) <==> x in Ids(b) {
      if x in Ids(a) { IdIn(b, TaskWithId(a, x)); }
      if x in Ids(b) { IdIn(a, TaskWithId(b, x)); }
    }
  }

  lemma NothingCovered(inp: Inputs, st: Stages)
    requires Built(inp, st) && Plain(inp)
    ensures st.run.covered == []
  {
    forall t | t in st.run.covered ensures false {
      var q := CoveredSource(inp, st, t);
      BodyIsWork(inp.bodies, q);
    }
    if st.run.covered != [] { var t := SomeMember(st.run.covered); }
  }

  /** All bodies are work, so every Task of the clustered request has room. */
  lemma EveryoneHasRoom(inp: Inputs, st: Stages, unit: UnitRef, a: TaskSpec, b: TaskSpec)
    requires Built(inp, st) && Plain(inp) && PairIn(inp, unit, 0, a, b) && ActiveUnits(inp.containers) == [unit]
    requires forall t :: t in inp.bodies ==> t == Work(t.id, t.dependsOn)
    ensures forall o :: o in st.run.out ==> !o.Static() && LongEnough(0, o)
  {
    forall o | o in st.run.out ensures !o.Static() && LongEnough(0, o) {
      OneHasRoom(inp, st, unit, a, b, o);
    }
  }

  lemma OneHasRoom(inp: Inputs, st: Stages, unit: UnitRef, a: TaskSpec, b: TaskSpec, o: TaskSpec)
    requires Built(inp, st) && Plain(inp) && PairIn(inp, unit, 0, a, b) && ActiveUnits(inp.containers) == [unit]
    requires (forall t :: t in inp.bodies ==> t == Work(t.id, t.dependsOn)) && o in st.run.out
    ensures !o.Static() && LongEnough(0, o)
  {
    OutIsWork(inp, st, o);
    var c := DynamicSource(inp, st, o);
    if c.id in st.compiled {
      PairHasRoom(inp, st, unit, a, b, c);
    } else {
      LoneHasRoom(inp, st, c);
    }
    RenamedHasRoom(st.home, c, o);
  }

  lemma RenamedHasRoom(home: Homes, c: TaskSpec, o: TaskSpec)
    requires RenamedBy(home, c, o) && LongEnough(0, c)
    ensures LongEnough(0, o)
  {
  }

  lemma {:induction false} LoneHasRoom(inp: Inputs, st: Stages, c: TaskSpec)
    requires Built(inp, st) && forall t :: t in inp.bodies ==> t == Work(t.id, t.dependsOn)
    requires c in st.current && c.id !in st.compiled
    ensures LongEnough(0, c)
  {
    var t := DroppedSource(inp, st, c);
    WorkHasRoom(t.id, t.dependsOn);
  }

  lemma WorkHasRoom(id: Id, dependsOn: seq<Id>)
    ensures LongEnough(0, Work(id, dependsOn))
  {
  }

  lemma PairHasRoom(inp: Inputs, st: Stages, unit: UnitRef, a: TaskSpec, b: TaskSpec, c: TaskSpec)
    requires Built(inp, st) && Plain(inp) && PairIn(inp, unit, 0, a, b) && ActiveUnits(inp.containers) == [unit]
    requires (forall t :: t in inp.bodies ==> t == Work(t.id, t.dependsOn)) && c in st.current && c.id in st.compiled
    ensures LongEnough(0, c)
  {
    OnlySegment(inp, st, unit, a, b, c.id);
    assert Unit(inp.rows, st.compiled[c.id].members, c);
    PairCarrier(inp.rows, a, b, c);
  }

  lemma OutIsWork(inp: Inputs, st: Stages, o: TaskSpec)
    requires Built(inp, st) && Plain(inp) && o in st.run.out
    ensures !o.Static()
  {
    if o.Static() {
      var t := CommitmentSource(inp, st, o);
      BodyIsWork(inp.bodies, t);
    }
  }

  lemma OnlySegment(inp: Inputs, st: Stages, unit: UnitRef, a: TaskSpec, b: TaskSpec, c: Id)
    requires Built(inp, st) && Plain(inp) && PairIn(inp, unit, 0, a, b) && ActiveUnits(inp.containers) == [unit]
    requires c in st.compiled
    ensures st.compiled[c].members == [a, b]
  {
    var u := SegmentUnit(inp, st, c);
    var d := PairSegment(inp, st, unit, 0, a, b);
    NothingDropped(inp, st);
    BodiesPair(inp, unit, a, b);
  }

  lemma BodiesPair(inp: Inputs, unit: UnitRef, a: TaskSpec, b: TaskSpec)
    requires Plain(inp) && PairIn(inp, unit, 0, a, b)
    ensures FirstPresent(inp.bodies, unit.ids) == 0 && AllPresent(inp.bodies, unit.ids[0..])
    ensures MembersOf(inp.bodies, unit.ids[0..]) == [a, b]
  {
    Chains.BodiesDistinct(inp.bodies, inp.free);
    PairCompiles(inp.bodies, inp.rows, inp.accepts, unit.ids, 0, a, b);
  }

  /** Work from outside waits for the first child, and the second child waits for it. */
  ghost predicate Crossing(inp: Inputs, unit: UnitRef, a: TaskSpec, b: TaskSpec, t: TaskSpec)
  {
    && Plain(inp) && inp.absent == map[] && PairIn(inp, unit, 0, a, b)
    && ActiveUnits(inp.containers) == [unit] && t in inp.bodies && t.id !in unit.ids
    && (forall u :: u in inp.bodies ==> u == Work(u.id, u.dependsOn))
    && t.id in b.dependsOn && a.id in t.dependsOn && t.id != a.id && t.id != b.id
  }

  /** The Tasks can be ordered and children look back. */
  lemma CrossedIsOrdered()
    ensures WellFormed(CrossedScene()) && Acyclic(GraphOf(CrossedScene().bodies)) && ChildrenLookBack(CrossedScene())
  {
    CrossedInOrder();
    CrossedIsPlain();
  }

  lemma CrossedIsCrossing()
    ensures Crossing(CrossedScene(), UnitRef(9, 0, [1, 2]), Work(1, []), Work(2, [1, 3]), Work(3, [1]))
  {
    CrossedIsPlain();
    CrossedFields();
    CrossingFrom(CrossedScene(), UnitRef(9, 0, [1, 2]), Work(1, []), Work(2, [1, 3]), Work(3, [1]));
  }

  lemma CrossedFields()
    ensures CrossedScene().absent == map[] && Props(CrossedScene().bodies, []) && Work(3, [1]) in CrossedScene().bodies
  {
    CrossedProps(CrossedBodies());
  }

  lemma CrossingFrom(inp: Inputs, unit: UnitRef, a: TaskSpec, b: TaskSpec, t: TaskSpec)
    requires Plain(inp) && inp.absent == map[] && PairIn(inp, unit, 0, a, b) && ActiveUnits(inp.containers) == [unit]
    requires Props(inp.bodies, []) && t in inp.bodies && t.id !in unit.ids
    requires t.id in b.dependsOn && a.id in t.dependsOn && t.id != a.id && t.id != b.id
    ensures Crossing(inp, unit, a, b, t)
  {
  }

  /** And still the finished request has a cycle. */
  lemma FusingCrosses(st: Stages)
    requires Built(CrossedScene(), st)
    ensures Cycle(GraphOf(st.request), [1, 3, 1])
  {
    CrossedIsCrossing();
    PairCrosses(CrossedScene(), st, UnitRef(9, 0, [1, 2]), Work(1, []), Work(2, [1, 3]), Work(3, [1]));
  }

  lemma PairCrosses(inp: Inputs, st: Stages, unit: UnitRef, a: TaskSpec, b: TaskSpec, t: TaskSpec)
    requires Built(inp, st) && Crossing(inp, unit, a, b, t)
    ensures Cycle(GraphOf(st.request), [a.id, t.id, a.id])
  {
    OutCrosses(inp, st, unit, a, b, t);
    EveryoneRequested(inp, st, unit, a, b, t);
    CycleStays(inp, st, [a.id, t.id, a.id]);
  }

  lemma OutCrosses(inp: Inputs, st: Stages, unit: UnitRef, a: TaskSpec, b: TaskSpec, t: TaskSpec)
    requires Built(inp, st) && Crossing(inp, unit, a, b, t)
    ensures Cycle(GraphOf(st.run.out), [a.id, t.id, a.id])
  {
    OutsiderUnfused(inp, st, unit, a, b, t);
    CrossedCycle(inp, st, unit, a, b, t);
  }

  lemma OutsiderUnfused(inp: Inputs, st: Stages, unit: UnitRef, a: TaskSpec, b: TaskSpec, t: TaskSpec)
    requires Built(inp, st) && Crossing(inp, unit, a, b, t)
    ensures t.id !in st.home
  {
    OutsideUnit(inp, st, unit, t.id);
  }

  lemma EveryoneRequested(inp: Inputs, st: Stages, unit: UnitRef, a: TaskSpec, b: TaskSpec, t: TaskSpec)
    requires Built(inp, st) && Crossing(inp, unit, a, b, t)
    ensures Ids(st.request) == Ids(st.run.out)
  {
    EveryoneHasRoom(inp, st, unit, a, b);
    NobodyLeftOut(inp, st);
  }

  lemma CycleStays(inp: Inputs, st: Stages, p: seq<Id>)
    requires Built(inp, st) && Ids(st.request) == Ids(st.run.out) && Cycle(GraphOf(st.run.out), p)
    ensures Cycle(GraphOf(st.request), p)
  {
    OutIsCarriers(st.run);
    Chains.RequestTaken(inp, st);
    NeedsStay(st.run.out, st.request, p);
  }

  lemma NeedsStay(out: seq<TaskSpec>, tasks: seq<TaskSpec>, p: seq<Id>)
    requires UniqueIds(out) && Chains.TakenFrom(out, tasks) && Ids(tasks) == Ids(out) && Cycle(GraphOf(out), p)
    ensures Cycle(GraphOf(tasks), p)
  {
    var n := |p| - 1;
    forall i, j | 0 <= i && j == i + 1 && j < |p| ensures Graphs.Needs(GraphOf(tasks), p[i], p[j]) {
      assert Graphs.Needs(GraphOf(out), p[i], p[j]);
      assert j < n ==> Graphs.Needs(GraphOf(out), p[j], p[j + 1]);
      assert Graphs.Needs(GraphOf(out), p[0], p[1]);
      var o := Chains.NeedsMeans(out, p[i], p[j]);
      Chains.EdgesTaken(out, tasks, o, p[j]);
    }
  }
}
