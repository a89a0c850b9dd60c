/** The contiguity check on a finished plan, and exactly when it reports a compiled segment. */
module Scatter {
  import opened Basics
  import opened Spans
  import opened Tasks
  import opened Segments
  import opened Compile
  import opened StaticEdges
  import opened Pipeline
  import opened Origins
  import opened Expand
  import opened Meaning
  import opened Preservation
  import opened Restore

  /** The first step the plan lists for a handle. */
  function StepFor(plan: seq<Step>, id: Id): (r: Option<Step>)
    ensures r.Some? <==> id in StepIds(plan)
    ensures r.Some? ==> r.value in plan && r.value.id == id
  {
    if plan == [] then None
    else if plan[0].id == id then Some(plan[0])
    else
      assert id in StepIds(plan) <==> id in StepIds(plan[1..]) by { IdInRest(plan, id); }
      StepFor(plan[1..], id)
  }

  lemma {:induction false} StepForIsFirst(plan: seq<Step>, i: nat)
    requires i < |plan| && forall j :: 0 <= j < i ==> plan[j].id != plan[i].id
    ensures StepFor(plan, plan[i].id) == Some(plan[i])
  {
    if i > 0 {
      assert plan[0].id != plan[i].id;
      assert forall j :: 0 <= j < i ==> plan[1..][j] == plan[j + 1];
      StepForIsFirst(plan[1..], i - 1);
    }
  }

  lemma IdInRest(plan: seq<Step>, id: Id)
    requires |plan| > 0 && plan[0].id != id
    ensures id in StepIds(plan) <==> id in StepIds(plan[1..])
  {
    var rest := plan[1..];
    if i :| 0 <= i < |plan| && plan[i].id == id {
      assert rest[i - 1].id == id;
    }
    if i :| 0 <= i < |rest| && rest[i].id == id {
      assert plan[i + 1].id == id;
    }
  }

  /** The steps of those children of a segment that the plan shows, in the segment's order. */
  ghost function PlacedOf(plan: seq<Step>, ids: seq<Id>): seq<Step>
  {
    if ids == [] then []
    else (var first := StepFor(plan, ids[0]); if first.Some? then [first.value] else []) + PlacedOf(plan, ids[1..])
  }

  /** Two neighbouring children are not back to back. */
  ghost predicate Scattered(placed: seq<Step>)
  {
    exists i, j :: 0 <= i < |placed| && 0 <= j < |placed| && j == i + 1 && placed[i].end != placed[j].start
  }

  method PlacedChildren(plan: seq<Step>, ids: seq<Id>) returns (placed: seq<Step>)
    ensures placed == PlacedOf(plan, ids)
  {
    placed := [];
    var i := 0;
    assert ids[..0] == [];
    while i < |ids|
      invariant 0 <= i <= |ids|
      invariant placed == PlacedOf(plan, ids[..i])
    {
      var first := StepFor(plan, ids[i]);
      PlacedAppend(plan, ids[..i], [ids[i]]);
      assert ids[..i + 1] == ids[..i] + [ids[i]];
      if first.Some? {
        placed := placed + [first.value];
      }
      i := i + 1;
    }
    assert ids[..i] == ids;
  }

  /** The segments of active containers that the plan scatters. */
  method ScatterGuard(plan: seq<Step>, units: seq<UnitRef>) returns (scattered: seq<UnitRef>)
    ensures scattered == Filter((u: UnitRef) => Scattered(PlacedOf(plan, u.ids)), units)
  {
    scattered := [];
    var i := 0;
    assert units[..0] == [];
    while i < |units|
      invariant 0 <= i <= |units|
      invariant scattered == Filter((u: UnitRef) => Scattered(PlacedOf(plan, u.ids)), units[..i])
    {
      FilterSnoc((u: UnitRef) => Scattered(PlacedOf(plan, u.ids)), units[..i], units[i]);
      assert units[..i + 1] == units[..i] + [units[i]];
      var placed := PlacedChildren(plan, units[i].ids);
      if exists k :: 0 < k < |placed| && placed[k - 1].end != placed[k].start {
        scattered := scattered + [units[i]];
      }
      i := i + 1;
    }
    assert units[..i] == units;
  }

  lemma {:induction false} PlacedNone(plan: seq<Step>, ids: seq<Id>)
    requires forall id :: id in ids ==> id !in StepIds(plan)
    ensures PlacedOf(plan, ids) == []
  {
    if ids != [] {
      assert ids[0] in ids;
      forall id | id in ids[1..] ensures id !in StepIds(plan) { assert id in ids; }
      PlacedNone(plan, ids[1..]);
    }
  }

  lemma {:induction false} PlacedAll(plan: seq<Step>, ids: seq<Id>)
    requires forall id :: id in ids ==> id in StepIds(plan)
    ensures |PlacedOf(plan, ids)| == |ids|
    ensures forall i :: 0 <= i < |ids| ==> PlacedOf(plan, ids)[i] in plan && PlacedOf(plan, ids)[i].id == ids[i]
  {
    if ids != [] {
      assert ids[0] in ids;
      forall id | id in ids[1..] ensures id in StepIds(plan) { assert id in ids; }
      PlacedAll(plan, ids[1..]);
    }
  }

  lemma {:induction false} PlacedAppend(plan: seq<Step>, a: seq<Id>, b: seq<Id>)
    ensures PlacedOf(plan, a + b) == PlacedOf(plan, a) + PlacedOf(plan, b)
  {
    if a == [] {
      assert a + b == b;
    } else {
      assert (a + b)[1..] == a[1..] + b;
      PlacedAppend(plan, a[1..], b);
    }
  }

  lemma ScatteredAppend(a: seq<Step>, b: seq<Step>)
    ensures Scattered(a + b) <==> Scattered(a) || Scattered(b) || Parted(a, b)
  {
    var both := a + b;
    if i, j :| 0 <= i < |a| && 0 <= j < |a| && j == i + 1 && a[i].end != a[j].start {
      assert both[i].end != both[j].start;
    }
    if i, j :| 0 <= i < |b| && 0 <= j < |b| && j == i + 1 && b[i].end != b[j].start {
      assert both[|a| + i].end != both[|a| + j].start;
    }
    if Parted(a, b) {
      assert both[|a| - 1].end != both[|a|].start;
    }
    if i, j :| 0 <= i < |both| && 0 <= j < |both| && j == i + 1 && both[i].end != both[j].start {
      if j < |a| {
        assert a[i].end != a[j].start;
      } else if i >= |a| {
        assert b[i - |a|].end != b[j - |a|].start;
      }
    }
  }

  /** One run of steps does not end where the next begins. */
  ghost predicate Parted(a: seq<Step>, b: seq<Step>)
  {
    a != [] && b != [] && a[|a| - 1].end != b[0].start
  }

  /** The windows of those of these children that are commitments without capacity, in order. */
  ghost function FreeWindows(free: seq<TaskSpec>, ids: seq<Id>): seq<TimeWindow>
  {
    if ids == [] then []
    else (if ids[0] in Ids(free) then [WindowOf(TaskWithId(free, ids[0]))] else []) + FreeWindows(free, ids[1..])
  }

  ghost function WindowOf(t: TaskSpec): TimeWindow
  {
    if t.window.Some? then t.window.value else TimeWindow(0, 0)
  }

  /**
   * A compiled segment is in the plan wholly or not at all, and gapless, but the guard also sees its earlier
   * children that were edited into commitments without capacity. It reports the segment exactly when these
   * do not meet each other, or do not meet the first of the others.
   */
  lemma CompiledScatteredExactly(inp: Inputs, st: Stages, steps: seq<Step>, plan: seq<Step>, unit: UnitRef)
    requires Planned(inp, st, steps) && PlanOf(inp, st, steps, plan)
    requires unit in ActiveUnits(inp.containers) && Compiles(st.dropped, inp.rows, inp.accepts, unit.ids)
    ensures ReportedExactly(inp.free, plan, unit.ids, FirstPresent(st.dropped, unit.ids))
  {
    var k := FirstPresent(st.dropped, unit.ids);
    EarlierShown(inp, st, steps, plan, unit.ids, k);
    var c := SegmentHere(inp, st, unit);
    SuffixNotScattered(inp, st, steps, plan, c, unit.ids[k..]);
    FrontAndRest(inp.free, plan, unit.ids, k);
  }

  ghost predicate ReportedExactly(free: seq<TaskSpec>, plan: seq<Step>, ids: seq<Id>, k: nat)
    requires k <= |ids|
  {
    var front, rest := PlacedOf(plan, ids[..k]), PlacedOf(plan, ids[k..]);
    && Map(Span, front) == FreeWindows(free, ids[..k])
    && (rest == [] || |rest| == |ids| - k) && !Scattered(rest)
    && (Scattered(PlacedOf(plan, ids)) <==> Scattered(front) || Parted(front, rest))
  }

  lemma FrontAndRest(free: seq<TaskSpec>, plan: seq<Step>, ids: seq<Id>, k: nat)
    requires k <= |ids| && forall id :: id in ids[..k] ==> ShownAsFree(free, plan, id)
    requires !Scattered(PlacedOf(plan, ids[k..]))
    requires PlacedOf(plan, ids[k..]) == [] || |PlacedOf(plan, ids[k..])| == |ids[k..]|
    ensures ReportedExactly(free, plan, ids, k)
  {
    FrontWindows(free, plan, ids[..k]);
    assert ids == ids[..k] + ids[k..];
    PlacedAppend(plan, ids[..k], ids[k..]);
    ScatteredAppend(PlacedOf(plan, ids[..k]), PlacedOf(plan, ids[k..]));
  }

  /** The plan shows this handle exactly if it is a commitment without capacity, and then at its own time. */
  ghost predicate ShownAsFree(free: seq<TaskSpec>, plan: seq<Step>, id: Id)
  {
    && (id in StepIds(plan) <==> id in Ids(free))
    && (id in Ids(free) ==> forall x :: x in plan && x.id == id ==> Span(x) == WindowOf(TaskWithId(free, id)))
  }

  lemma EarlierShown(inp: Inputs, st: Stages, steps: seq<Step>, plan: seq<Step>, ids: seq<Id>, k: nat)
    requires Planned(inp, st, steps) && PlanOf(inp, st, steps, plan) && k == FirstPresent(st.dropped, ids)
    ensures forall id :: id in ids[..k] ==> ShownAsFree(inp.free, plan, id)
  {
    forall id | id in ids[..k] ensures ShownAsFree(inp.free, plan, id) {
      if id in Ids(inp.free) {
        FreeShown(inp, st, steps, plan, TaskWithId(inp.free, id));
      } else {
        NotAmong(inp, st, id);
        NothingIsInvented(inp, st, steps, {}, plan);
        NotListed(Everyone(inp), plan, id);
      }
    }
  }

  lemma FreeShown(inp: Inputs, st: Stages, steps: seq<Step>, plan: seq<Step>, t: TaskSpec)
    requires Planned(inp, st, steps) && PlanOf(inp, st, steps, plan) && t in inp.free
    ensures t.id in StepIds(plan) && forall x :: x in plan && x.id == t.id ==> t.window == Some(Span(x))
  {
    FreeIsAbsent(inp, t);
    StaticsAreKept(inp, st, steps, {}, plan);
  }

  lemma NotListed(tasks: seq<TaskSpec>, plan: seq<Step>, id: Id)
    requires id !in Ids(tasks) && forall x :: x in plan ==> x.id in Ids(tasks)
    ensures id !in StepIds(plan)
  {
    forall j | 0 <= j < |plan| ensures plan[j].id != id {
      assert plan[j] in plan;
    }
  }

  lemma {:induction false} FrontWindows(free: seq<TaskSpec>, plan: seq<Step>, ids: seq<Id>)
    requires forall id :: id in ids ==> ShownAsFree(free, plan, id)
    ensures Map(Span, PlacedOf(plan, ids)) == FreeWindows(free, ids)
  {
    if ids != [] {
      assert ids[0] in ids && ShownAsFree(free, plan, ids[0]);
      forall id | id in ids[1..] ensures ShownAsFree(free, plan, id) { assert id in ids; }
      FrontWindows(free, plan, ids[1..]);
      var first := StepFor(plan, ids[0]);
      assert PlacedOf(plan, ids) == (if first.Some? then [first.value] else []) + PlacedOf(plan, ids[1..]);
    }
  }

  /** These are the handles of these Tasks. */
  ghost predicate Named(ids: seq<Id>, members: seq<TaskSpec>)
  {
    |ids| == |members| && forall i :: 0 <= i < |ids| ==> ids[i] == members[i].id
  }

  lemma SegmentHere(inp: Inputs, st: Stages, unit: UnitRef) returns (c: Id)
    requires Built(inp, st) && unit in ActiveUnits(inp.containers)
    requires Compiles(st.dropped, inp.rows, inp.accepts, unit.ids)
    ensures c in st.compiled
    ensures Named(unit.ids[FirstPresent(st.dropped, unit.ids)..], st.compiled[c].members)
  {
    OutcomeOf(st.dropped, inp.rows, inp.accepts, ActiveUnits(inp.containers), st.run.tasks, st.compiled, st.home,
        st.current, unit);
    c := OutcomeSegment(st.dropped, inp.rows, inp.accepts, unit, st.compiled, st.home);
  }

  lemma OutcomeOf(tasks: seq<TaskSpec>, rows: Rows, accepts: DurationModel -> bool, units: seq<UnitRef>,
                  out: seq<TaskSpec>, compiled: map<Id, CompiledSegment>, home: Homes, current: seq<TaskSpec>,
                  unit: UnitRef)
    requires Compiled(tasks, rows, accepts, units, out, compiled, home, current) && unit in units
    ensures UnitOutcome(tasks, rows, accepts, unit, compiled, home)
  {
    var u :| 0 <= u < |units| && units[u] == unit;
    assert UnitOutcome(tasks, rows, accepts, units[u], compiled, home);
  }

  lemma OutcomeSegment(tasks: seq<TaskSpec>, rows: Rows, accepts: DurationModel -> bool, unit: UnitRef,
                       compiled: map<Id, CompiledSegment>, home: Homes) returns (c: Id)
    requires UnitOutcome(tasks, rows, accepts, unit, compiled, home) && Compiles(tasks, rows, accepts, unit.ids)
    ensures c in compiled && Named(unit.ids[FirstPresent(tasks, unit.ids)..], compiled[c].members)
  {
    c := unit.ids[FirstPresent(tasks, unit.ids)];
  }

  lemma NotAmong(inp: Inputs, st: Stages, id: Id)
    requires Built(inp, st) && id !in Ids(st.dropped) && id !in Ids(inp.free)
    ensures id !in Ids(Everyone(inp))
  {
    forall i | 0 <= i < |Everyone(inp)| ensures Everyone(inp)[i].id != id {
      if i < |inp.bodies| {
        assert EdgesDropped(st.drops, inp.bodies[i], st.dropped[i]);
        assert st.dropped[i].id in Ids(st.dropped);
      } else {
        assert inp.free[i - |inp.bodies|].id in Ids(inp.free);
      }
    }
  }

  lemma SuffixNotScattered(inp: Inputs, st: Stages, steps: seq<Step>, plan: seq<Step>, c: Id, ids: seq<Id>)
    requires Planned(inp, st, steps) && PlanOf(inp, st, steps, plan) && c in st.compiled
    requires Named(ids, st.compiled[c].members)
    ensures !Scattered(PlacedOf(plan, ids)) && (PlacedOf(plan, ids) == [] || |PlacedOf(plan, ids)| == |ids|)
  {
    if s :| s in steps && s.id == c {
      ShownNotScattered(inp, st, steps, plan, s, ids);
    } else {
      forall i | 0 <= i < |ids| ensures ids[i] !in StepIds(plan) { NotShown(inp, st, steps, plan, c, i); }
      PlacedNone(plan, ids);
    }
  }

  lemma ShownNotScattered(inp: Inputs, st: Stages, steps: seq<Step>, plan: seq<Step>, s: Step, ids: seq<Id>)
    requires Planned(inp, st, steps) && PlanOf(inp, st, steps, plan) && s in steps && s.id in st.compiled
    requires Named(ids, st.compiled[s.id].members)
    ensures !Scattered(PlacedOf(plan, ids)) && |PlacedOf(plan, ids)| == |ids|
  {
    AllShown(inp, st, steps, plan, s, ids);
    PlacedAll(plan, ids);
    NeighboursMeet(inp, st, steps, plan, s, ids, PlacedOf(plan, ids));
  }

  lemma AllShown(inp: Inputs, st: Stages, steps: seq<Step>, plan: seq<Step>, s: Step, ids: seq<Id>)
    requires Planned(inp, st, steps) && PlanOf(inp, st, steps, plan) && s in steps && s.id in st.compiled
    requires Named(ids, st.compiled[s.id].members)
    ensures forall id :: id in ids ==> id in StepIds(plan)
  {
    forall i | 0 <= i < |ids| ensures ids[i] in StepIds(plan) { var x := ChildShown(inp, st, steps, s, i); }
  }

  lemma NeighboursMeet(inp: Inputs, st: Stages, steps: seq<Step>, plan: seq<Step>, s: Step, ids: seq<Id>,
                       placed: seq<Step>)
    requires Planned(inp, st, steps) && PlanOf(inp, st, steps, plan) && s.id in st.compiled
    requires Named(ids, st.compiled[s.id].members) && |placed| == |ids|
    requires forall i :: 0 <= i < |ids| ==> placed[i] in plan && placed[i].id == ids[i]
    ensures !Scattered(placed)
  {
    forall i, j | 0 <= i < |placed| && 0 <= j < |placed| && j == i + 1 ensures placed[i].end == placed[j].start {
      BackToBack(inp, st, steps, s.id, i, j, placed[i], placed[j]);
    }
  }

  lemma ChildShown(inp: Inputs, st: Stages, steps: seq<Step>, s: Step, i: nat) returns (x: Step)
    requires Planned(inp, st, steps) && s in steps && s.id in st.compiled && i < |st.compiled[s.id].members|
    ensures Appears(inp, st, steps, x) && x.id == st.compiled[s.id].members[i].id
  {
    UnitFits(inp, st, steps, s);
    x := ChildOf(RestoredStep(st.run.carriers, s), st.compiled[s.id].members, i);
    assert FromUnit(st, s, i, x);
  }

  lemma ChildOf(r: Step, members: seq<TaskSpec>, i: nat) returns (x: Step)
    requires i < |members| && r.start + Sum(ModePart, members) == r.end
    ensures ChildStep(r, members, i, x)
  {
    OffsetTotal(members);
    OffsetMonotone(members, i, |members|);
    OffsetMonotone(members, i + 1, |members|);
    x := Step(members[i].id, r.start + Offset(members, i), r.start + Offset(members, i + 1),
              if i == 0 then r.dependsOn else [members[i - 1].id], r.pinned, true);
  }

  lemma MemberTask(inp: Inputs, st: Stages, c: Id, i: nat) returns (t: TaskSpec)
    requires Built(inp, st) && c in st.compiled && i < |st.compiled[c].members|
    ensures t in inp.bodies && !t.Static() && t.id == st.compiled[c].members[i].id && st.compiled[c].members[i] == t
    ensures t.id in st.home && st.home[t.id] == c
  {
    assert SegmentOf(st.dropped, st.home, c, st.compiled[c]);
    var m := st.compiled[c].members[i];
    t := FusedChild(inp, st, m.id);
    var u := DroppedSource(inp, st, m);
    BodiesUnique(inp, t, u);
  }

  lemma NotShown(inp: Inputs, st: Stages, steps: seq<Step>, plan: seq<Step>, c: Id, i: nat)
    requires Planned(inp, st, steps) && PlanOf(inp, st, steps, plan) && c in st.compiled && i < |st.compiled[c].members|
    requires forall s :: s in steps ==> s.id != c
    ensures st.compiled[c].members[i].id !in StepIds(plan)
  {
    var t := MemberTask(inp, st, c, i);
    forall j | 0 <= j < |plan| ensures plan[j].id != t.id {
      var x := plan[j];
      assert x in plan && Appears(inp, st, steps, x);
      if x.id == t.id {
        var s, k := FusedUnder(inp, st, steps, t, x);
        assert false;
      }
    }
  }

  /** Consecutive children of a unit meet exactly. */
  lemma BackToBack(inp: Inputs, st: Stages, steps: seq<Step>, c: Id, i: nat, j: nat, x: Step, y: Step)
    requires Planned(inp, st, steps) && c in st.compiled && j == i + 1 < |st.compiled[c].members|
    requires Appears(inp, st, steps, x) && x.id == st.compiled[c].members[i].id
    requires Appears(inp, st, steps, y) && y.id == st.compiled[c].members[j].id
    ensures x.end == y.start
  {
    var s := MemberUnder(inp, st, steps, c, i, x);
    var z := MemberUnder(inp, st, steps, c, j, y);
    ChildrenInOrder(RestoredStep(st.run.carriers, s), st.compiled[c].members, i, j, x, y);
  }

  /** The kernel step of the unit whose child `i` this step is. */
  lemma MemberUnder(inp: Inputs, st: Stages, steps: seq<Step>, c: Id, i: nat, x: Step) returns (s: Step)
    requires Planned(inp, st, steps) && c in st.compiled && i < |st.compiled[c].members|
    requires Appears(inp, st, steps, x) && x.id == st.compiled[c].members[i].id
    ensures s in steps && s.id == c && FromUnit(st, s, i, x)
    ensures forall z :: z in steps && z.id == c ==> z == s
  {
    var t := MemberTask(inp, st, c, i);
    var a;
    s, a := FusedUnder(inp, st, steps, t, x);
    SameIndex(inp, st, c, a, i);
  }

  lemma SameIndex(inp: Inputs, st: Stages, c: Id, a: nat, i: nat)
    requires Built(inp, st) && c in st.compiled && a < |st.compiled[c].members| && i < |st.compiled[c].members|
    requires st.compiled[c].members[a] == st.compiled[c].members[i]
    ensures a == i
  {
    assert SegmentOf(st.dropped, st.home, c, st.compiled[c]);
    assert UniqueIds(st.compiled[c].members);
  }
}
