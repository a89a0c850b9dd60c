/** From the kernel's steps back to the steps of the original Tasks. */
module Expand {
  import opened Basics
  import opened Sorting
  import opened Spans
  import opened Tasks
  import opened Segments
  import opened Compile
  import Exclusion

  /** A scheduled step; `pinned` steps are commitments at their own time. */
  datatype Step = Step(id: Id, start: U64, end: U64, dependsOn: seq<Id>, pinned: bool, occupies: bool)

  ghost function Span(s: Step): TimeWindow { TimeWindow(s.start, s.end) }

  datatype ExpandError = Overflow | Drift

  // ----- a carrier's step becomes its children's steps -----

  ghost function Offset(members: seq<TaskSpec>, i: nat): nat
    requires i <= |members|
  {
    Sum(ModePart, members[..i])
  }

  /** Child `i` runs right after child `i - 1` and waits for it. */
  ghost predicate ChildStep(step: Step, members: seq<TaskSpec>, i: nat, child: Step)
    requires i < |members|
  {
    && child.id == members[i].id
    && child.start == step.start + Offset(members, i)
    && child.end == step.start + Offset(members, i + 1)
    && child.dependsOn == (if i == 0 then step.dependsOn else [members[i - 1].id])
    && child.pinned == step.pinned
  }

  /** A step takes up capacity unless its Task is stored as one that does not. */
  ghost predicate OccupiesAs(occupies: map<Id, bool>, x: Step)
  {
    x.occupies <==> (x.id in occupies ==> occupies[x.id])
  }

  ghost predicate Expansion(step: Step, members: seq<TaskSpec>, children: seq<Step>)
  {
    |children| == |members| && forall i :: 0 <= i < |children| ==> ChildStep(step, members, i, children[i])
  }

  lemma OffsetNext(members: seq<TaskSpec>, i: nat)
    requires i < |members|
    ensures Offset(members, i + 1) == Offset(members, i) + members[i].Placement()
  {
    SumSnoc(ModePart, members, i);
  }

  lemma OffsetTotal(members: seq<TaskSpec>)
    ensures Offset(members, |members|) == Sum(ModePart, members)
  {
    assert members[..|members|] == members;
  }

  lemma {:induction false} OffsetMonotone(members: seq<TaskSpec>, i: nat, j: nat)
    requires i <= j <= |members|
    ensures Offset(members, i) <= Offset(members, j)
    decreases j
  {
    if i < j {
      OffsetNext(members, j - 1);
      OffsetMonotone(members, i, j - 1);
    }
  }

  lemma NextOffset(members: seq<TaskSpec>, i: nat)
    requires i < |members|
    ensures Offset(members, i + 1) == Offset(members, i) + members[i].Placement()
    ensures Offset(members, i + 1) <= Sum(ModePart, members)
  {
    OffsetNext(members, i);
    OffsetMonotone(members, i + 1, |members|);
    OffsetTotal(members);
  }

  /** Lay the children out from the carrier's start; they must end exactly at its end. */
  method ExpandSegment(step: Step, segment: CompiledSegment, occupies: map<Id, bool>)
    returns (r: Result<seq<Step>, ExpandError>)
    requires segment.placements == Placements(segment.members)
    ensures r.Ok? <==> step.start + Sum(ModePart, segment.members) == step.end
    ensures r.Ok? ==> Expansion(step, segment.members, r.value)
    ensures r.Ok? ==> forall i :: 0 <= i < |r.value| ==> OccupiesAs(occupies, r.value[i])
    ensures r.Err? ==> (r.error.Overflow? <==> step.start + Sum(ModePart, segment.members) > U64_MAX)
  {
    var members := segment.members;
    var cursor: U64 := step.start;
    var children: seq<Step> := [];
    var i := 0;
    OffsetTotal(members);
    while i < |members|
      invariant 0 <= i <= |members| && |children| == i
      invariant cursor == step.start + Offset(members, i)
      invariant forall k :: 0 <= k < i ==> ChildStep(step, members, k, children[k])
      invariant forall k :: 0 <= k < i ==> OccupiesAs(occupies, children[k])
    {
      NextOffset(members, i);
      var end := CheckedAdd(cursor, segment.placements[i]);
      if end.None? { return Err(Overflow); }
      var id := members[i].id;
      children := children + [Step(id, cursor, end.value, if i == 0 then step.dependsOn else [members[i - 1].id],
                                   step.pinned, id !in occupies || occupies[id])];
      cursor := end.value;
      i := i + 1;
    }
    if cursor != step.end { return Err(Drift); }
    return Ok(children);
  }

  lemma {:induction false} ChildInside(step: Step, members: seq<TaskSpec>, i: nat, child: Step)
    requires i < |members| && ChildStep(step, members, i, child)
    requires step.start + Sum(ModePart, members) == step.end
    ensures child.end == child.start + members[i].Placement()
    ensures Inside(Span(child), Span(step))
    ensures i == 0 ==> child.start == step.start
    ensures i == |members| - 1 ==> child.end == step.end
  {
    OffsetTotal(members);
    OffsetNext(members, i);
    OffsetMonotone(members, i + 1, |members|);
  }

  lemma {:induction false} ChildrenInOrder(step: Step, members: seq<TaskSpec>, i: nat, j: nat, a: Step, b: Step)
    requires i < j < |members| && ChildStep(step, members, i, a) && ChildStep(step, members, j, b)
    ensures a.end <= b.start
    ensures j == i + 1 ==> a.end == b.start
  {
    OffsetMonotone(members, i + 1, j);
  }

  /** Gapless, in order, from the carrier's start to its end, each child for its own placement. */
  ghost predicate Tiled(step: Step, members: seq<TaskSpec>, children: seq<Step>)
    requires |children| == |members| > 0
  {
    && children[0].start == step.start && children[|children| - 1].end == step.end
    && (forall i, j :: 0 <= i < j < |children| ==>
          children[i].end <= children[j].start && (j == i + 1 ==> children[i].end == children[j].start))
    && (forall i :: 0 <= i < |children| ==>
          children[i].end == children[i].start + members[i].Placement() && Inside(Span(children[i]), Span(step)))
  }

  lemma {:induction false} ExpansionTiles(step: Step, members: seq<TaskSpec>, children: seq<Step>)
    requires Expansion(step, members, children) && |members| > 0
    requires step.start + Sum(ModePart, members) == step.end
    ensures Tiled(step, members, children)
  {
    forall i | 0 <= i < |children|
      ensures children[i].end == children[i].start + members[i].Placement() && Inside(Span(children[i]), Span(step))
      ensures i == 0 ==> children[i].start == step.start
      ensures i == |members| - 1 ==> children[i].end == step.end
    {
      ChildInside(step, members, i, children[i]);
    }
    forall i, j | 0 <= i < j < |children|
      ensures children[i].end <= children[j].start && (j == i + 1 ==> children[i].end == children[j].start)
    {
      ChildrenInOrder(step, members, i, j, children[i], children[j]);
    }
  }

  /** A step placed for the unit's own length always expands without drift. */
  lemma UnitExpands(rows: Rows, members: seq<TaskSpec>, carrier: TaskSpec, step: Step)
    requires Unit(rows, members, carrier) && step.end == step.start + carrier.Placement()
    ensures step.start + Sum(ModePart, members) == step.end
  {
    UnitPlacement(rows, members, carrier);
  }

  /** Inside the unit's window every child keeps its own window and due date. */
  lemma {:induction false} ChildKeepsBounds(rows: Rows, members: seq<TaskSpec>, carrier: TaskSpec, step: Step, i: nat,
                                            child: Step)
    requires Unit(rows, members, carrier) && step.end == step.start + carrier.Placement()
    requires Inside(Span(step), carrier.window.value)
    requires i < |members| && ChildStep(step, members, i, child)
    ensures members[i].window.Some? ==> Inside(Span(child), members[i].window.value)
    ensures MayEndAt(rows, members[i], child.end)
  {
    UnitExpands(rows, members, carrier, step);
    ChildInside(step, members, i, child);
    WindowAllowsAll(rows, members, carrier.window.value, i);
  }

  lemma WindowAllowsAll(rows: Rows, members: seq<TaskSpec>, w: TimeWindow, i: nat)
    requires UnitWindow(rows, members, w) && i < |members|
    ensures members[i].window.Some? ==> members[i].window.value.start <= w.start
    ensures MayEndAt(rows, members[i], w.end)
  {
    var after, before := AfterStarts(members, w.start), BeforeEnds(rows, members, w.end);
  }

  // ----- a carrier of overlapping commitments shows its own window again -----

  ghost function RestoredStep(carriers: map<Id, TimeWindow>, step: Step): Step
  {
    if step.id in carriers then step.(start := carriers[step.id].start, end := carriers[step.id].end) else step
  }

  /** The kernel's steps as they are shown: whether a step takes up capacity is looked up with its Task. */
  method ScheduledBodies(steps: seq<Step>, occupies: map<Id, bool>) returns (shown: seq<Step>)
    ensures SameSchedule(steps, shown)
    ensures forall x :: x in shown ==> OccupiesAs(occupies, x)
  {
    shown := [];
    var i := 0;
    while i < |steps|
      invariant 0 <= i <= |steps| && SameSchedule(steps[..i], shown)
      invariant forall x :: x in shown ==> OccupiesAs(occupies, x)
    {
      var s := steps[i];
      shown := shown + [s.(occupies := if s.id in occupies then occupies[s.id] else true)];
      i := i + 1;
    }
    assert steps[..i] == steps;
  }

  /** Step by step the same, apart from whether they take up capacity. */
  ghost predicate SameSchedule(steps: seq<Step>, shown: seq<Step>)
  {
    && |shown| == |steps|
    && forall i :: 0 <= i < |steps| ==> shown[i] == steps[i].(occupies := shown[i].occupies)
  }

  /** Commitments that never went to the kernel appear at their own time. */
  method DirectStaticSteps(tasks: seq<TaskSpec>, occupies: bool) returns (steps: seq<Step>)
    requires Exclusion.Windowed(tasks)
    ensures |steps| == |tasks|
    ensures forall i :: 0 <= i < |steps| ==> DirectStep(tasks[i], occupies, steps[i])
  {
    steps := [];
    var i := 0;
    while i < |tasks|
      invariant 0 <= i <= |tasks| && |steps| == i
      invariant forall k :: 0 <= k < i ==> DirectStep(tasks[k], occupies, steps[k])
    {
      var w := tasks[i].window.value;
      steps := steps + [Step(tasks[i].id, w.start, w.end, tasks[i].dependsOn, true, occupies)];
      i := i + 1;
    }
  }

  ghost predicate DirectStep(t: TaskSpec, occupies: bool, s: Step)
  {
    t.window.Some? && s == Step(t.id, t.window.value.start, t.window.value.end, t.dependsOn, true, occupies)
  }

  // ----- one plan out of several sources -----

  predicate StepLeq(a: Step, b: Step)
  {
    a.start < b.start || (a.start == b.start &&
    (a.end < b.end || (a.end == b.end && a.id <= b.id)))
  }

  /** By start; at one start by end, and at one end by handle. */
  ghost predicate InTimeOrder(plan: seq<Step>)
  {
    forall i, j :: 0 <= i < j < |plan| ==>
      && plan[i].start <= plan[j].start
      && (plan[i].start == plan[j].start ==> plan[i].end <= plan[j].end)
      && (Span(plan[i]) == Span(plan[j]) ==> plan[i].id <= plan[j].id)
  }

  function StepIds(steps: seq<Step>): (r: set<Id>)
    ensures forall i :: 0 <= i < |steps| ==> steps[i].id in r
    ensures forall x :: x in r ==> exists i :: 0 <= i < |steps| && steps[i].id == x
  {
    set i | 0 <= i < |steps| :: steps[i].id
  }

  ghost predicate UniqueSteps(steps: seq<Step>)
  {
    forall i, j :: 0 <= i < j < |steps| ==> steps[i].id != steps[j].id
  }

  /** Of `others`, the first for each handle that no frozen step has. */
  ghost predicate FirstOfRest(frozen: seq<Step>, others: seq<Step>, added: seq<Step>)
  {
    && UniqueSteps(added)
    && StepIds(added) == StepIds(others) - StepIds(frozen)
    && forall s :: s in added ==> FirstOf(others, s)
  }

  /** Frozen steps stay as they are, however often; the first of the others fills every other handle; in time order. */
  method MergeSteps(frozen: seq<Step>, others: seq<Step>) returns (plan: seq<Step>, ghost added: seq<Step>)
    ensures InTimeOrder(plan)
    ensures multiset(plan) == multiset(frozen + added)
    ensures FirstOfRest(frozen, others, added)
  {
    var merged, seen := frozen, StepIds(frozen);
    added := [];
    var i := 0;
    assert others[..0] == [] && frozen + added == frozen;
    while i < |others|
      invariant 0 <= i <= |others| && merged == frozen + added
      invariant FirstOfRest(frozen, others[..i], added) && seen == StepIds(frozen) + StepIds(added)
    {
      StepIdsSnoc(others, i);
      AddedStillFirst(others, i, added);
      if others[i].id !in seen {
        AddsOne(frozen, others, i, added);
        seen := seen + {others[i].id};
        merged := merged + [others[i]];
        added := added + [others[i]];
      }
      i := i + 1;
    }
    assert others[..i] == others;
    plan := Sort(StepLeq, merged);
    SortSorted(StepLeq, merged);
  }

  /** Reordering steps changes neither which are there nor that they are different. */
  lemma ReorderedSteps(a: seq<Step>, b: seq<Step>)
    requires multiset(a) == multiset(b) && UniqueSteps(a)
    ensures forall s :: s in a <==> s in b
    ensures StepIds(a) == StepIds(b) && UniqueSteps(b)
  {
    MultisetMembers(a, b);
    SameSteps(a, b);
    SameSteps(b, a);
    UniqueStepCount(a);
    var x, y := StepIds(a), StepIds(b);
    assert x == y;
    assert |a| == |multiset(a)| == |multiset(b)| == |b|;
    CountIsUnique(b);
  }

  /** `s` is the first step listed for its handle. */
  ghost predicate FirstOf(steps: seq<Step>, s: Step)
  {
    exists i :: 0 <= i < |steps| && steps[i] == s && forall k :: 0 <= k < i ==> steps[k].id != s.id
  }

  lemma AddsOne(frozen: seq<Step>, others: seq<Step>, i: nat, added: seq<Step>)
    requires i < |others| && FirstOfRest(frozen, others[..i], added)
    requires others[i].id !in StepIds(frozen) && others[i].id !in StepIds(added)
    ensures FirstOfRest(frozen, others[..i + 1], added + [others[i]])
    ensures StepIds(added + [others[i]]) == StepIds(added) + {others[i].id}
  {
    var next := added + [others[i]];
    StepIdsSnoc(others, i);
    assert next[..|added|] == added && next[..|added| + 1] == next;
    StepIdsSnoc(next, |added|);
    AddedStillFirst(others, i, added);
    NewIsFirst(others, i);
    forall a, b | 0 <= a < b < |next| ensures next[a].id != next[b].id {
      if b == |added| { assert added[a].id in StepIds(added); }
    }
  }

  lemma AddedStillFirst(others: seq<Step>, i: nat, added: seq<Step>)
    requires i < |others| && forall s :: s in added ==> FirstOf(others[..i], s)
    ensures forall s :: s in added ==> FirstOf(others[..i + 1], s)
  {
    forall x | x in added ensures FirstOf(others[..i + 1], x) {
      FirstOfLonger(others, i, x);
    }
  }

  lemma NewIsFirst(others: seq<Step>, i: nat)
    requires i < |others| && others[i].id !in StepIds(others[..i])
    ensures FirstOf(others[..i + 1], others[i])
  {
    var front, taken := others[..i], others[..i + 1];
    assert taken[i] == others[i];
    assert forall k :: 0 <= k < i ==> taken[k] == front[k];
  }

  lemma FirstOfLonger(others: seq<Step>, i: nat, x: Step)
    requires i < |others| && FirstOf(others[..i], x)
    ensures FirstOf(others[..i + 1], x)
  {
    var front, taken := others[..i], others[..i + 1];
    var k :| 0 <= k < i && front[k] == x && forall m :: 0 <= m < k ==> front[m].id != x.id;
    assert taken[k] == x;
    assert forall m :: 0 <= m < k ==> taken[m] == front[m];
  }

  lemma StepIdsSnoc(steps: seq<Step>, i: nat)
    requires i < |steps|
    ensures StepIds(steps[..i + 1]) == StepIds(steps[..i]) + {steps[i].id}
  {
    forall x | x in StepIds(steps[..i + 1]) ensures x in StepIds(steps[..i]) + {steps[i].id} {
      var k :| 0 <= k < i + 1 && steps[..i + 1][k].id == x;
      if k < i { assert steps[..i][k].id == x; }
    }
    forall x | x in StepIds(steps[..i]) ensures x in StepIds(steps[..i + 1]) {
      var k :| 0 <= k < i && steps[..i][k].id == x;
      assert steps[..i + 1][k].id == x;
    }
    assert steps[..i + 1][i] == steps[i];
  }

  lemma SameSteps(a: seq<Step>, b: seq<Step>)
    requires forall s :: s in a ==> s in b
    ensures StepIds(a) <= StepIds(b)
  {
    forall x | x in StepIds(a) ensures x in StepIds(b) {
      var i :| 0 <= i < |a| && a[i].id == x;
      assert a[i] in b;
      var j :| 0 <= j < |b| && b[j] == a[i];
    }
  }

  lemma CountIsUnique(steps: seq<Step>)
    requires |StepIds(steps)| == |steps|
    ensures UniqueSteps(steps)
  {
    var ids := seq(|steps|, i requires 0 <= i < |steps| => steps[i].id);
    forall i | 0 <= i < |steps| ensures steps[i].id in ids { assert ids[i] == steps[i].id; }
    assert Elements(ids) == StepIds(steps);
    DistinctCardinality(ids);
    forall i, j | 0 <= i < j < |steps| ensures steps[i].id != steps[j].id { assert ids[i] != ids[j]; }
  }

  lemma UniqueStepCount(steps: seq<Step>)
    requires UniqueSteps(steps)
    ensures |StepIds(steps)| == |steps|
  {
    var ids := seq(|steps|, i requires 0 <= i < |steps| => steps[i].id);
    forall i | 0 <= i < |steps| ensures steps[i].id in ids { assert ids[i] == steps[i].id; }
    assert Elements(ids) == StepIds(steps);
    DistinctCardinality(ids);
  }
}
