/** Putting the final plan together, and what the whole round trip guarantees. */
module Restore {
  import opened Basics
  import opened Spans
  import opened Tasks
  import opened Segments
  import opened Compile
  import opened Clusters
  import opened ClusterFacts
  import opened StaticEdges
  import opened Exclusion
  import opened Pipeline
  import opened Origins
  import opened Expand
  import opened Meaning
  import opened Preservation
  import opened CommitmentEdges
  import opened Sorting

  // ----- expanding every step of the kernel's answer -----

  ghost predicate FromStep(st: Stages, s: Step, x: Step)
  {
    FromKernel(st, s, x) || exists i: nat :: FromUnit(st, s, i, x)
  }

  /** Everything one kernel step stands for is there. */
  ghost predicate Complete(st: Stages, s: Step, out: seq<Step>)
  {
    if s.id in st.compiled then forall i :: 0 <= i < |st.compiled[s.id].members| ==> ChildThere(st, s, i, out)
    else RestoredStep(st.run.carriers, s) in out
  }

  ghost predicate ChildThere(st: Stages, s: Step, i: nat, out: seq<Step>)
  {
    exists x :: x in out && FromUnit(st, s, i, x)
  }

  ghost predicate SegmentsPlaced(compiled: map<Id, CompiledSegment>)
  {
    forall c :: c in compiled ==> compiled[c].placements == Placements(compiled[c].members)
  }

  ghost predicate Fitting(st: Stages, s: Step)
  {
    var r := RestoredStep(st.run.carriers, s);
    s.id in st.compiled ==> r.start + Sum(ModePart, st.compiled[s.id].members) == r.end
  }

  method ExpandOne(s: Step, carriers: Windows, compiled: map<Id, CompiledSegment>, occupies: map<Id, bool>,
                   ghost st: Stages)
    returns (r: Result<seq<Step>, ExpandError>)
    requires carriers == st.run.carriers && compiled == st.compiled && SegmentsPlaced(compiled)
    ensures r.Ok? <==> Fitting(st, s)
    ensures r.Ok? ==> Complete(st, s, r.value) && forall x :: x in r.value ==> FromStep(st, s, x)
    ensures r.Ok? && OccupiesAs(occupies, s) ==> forall x :: x in r.value ==> OccupiesAs(occupies, x)
  {
    var restored := s;
    if s.id in carriers {
      restored := s.(start := carriers[s.id].start, end := carriers[s.id].end);
    }
    if s.id !in compiled {
      return Ok([restored]);
    }
    r := ExpandSegment(restored, compiled[s.id], occupies);
    if r.Ok? {
      ChildrenComplete(st, s, r.value);
    }
  }

  lemma ChildrenComplete(st: Stages, s: Step, children: seq<Step>)
    requires s.id in st.compiled && Expansion(RestoredStep(st.run.carriers, s), st.compiled[s.id].members, children)
    ensures Complete(st, s, children) && forall x :: x in children ==> FromStep(st, s, x)
  {
    forall i | 0 <= i < |children| ensures ChildThere(st, s, i, children) {
      assert children[i] in children && FromUnit(st, s, i, children[i]);
    }
    forall x | x in children ensures FromStep(st, s, x) {
      var i :| 0 <= i < |children| && children[i] == x;
      assert FromUnit(st, s, i, x);
    }
  }

  /** The first step that does not expand stops the whole plan. */
  method ExpandAll(steps: seq<Step>, carriers: Windows, compiled: map<Id, CompiledSegment>, occupies: map<Id, bool>,
                   ghost st: Stages)
    returns (r: Result<seq<Step>, ExpandError>)
    requires carriers == st.run.carriers && compiled == st.compiled && SegmentsPlaced(compiled)
    requires forall s :: s in steps ==> OccupiesAs(occupies, s)
    ensures r.Ok? <==> forall s :: s in steps ==> Fitting(st, s)
    ensures r.Ok? ==> Expanded(st, steps, r.value)
    ensures r.Ok? ==> forall x :: x in r.value ==> OccupiesAs(occupies, x)
  {
    var out: seq<Step> := [];
    var i := 0;
    while i < |steps|
      invariant 0 <= i <= |steps|
      invariant forall k :: 0 <= k < i ==> Fitting(st, steps[k])
      invariant Expanded(st, steps[..i], out)
      invariant forall x :: x in out ==> OccupiesAs(occupies, x)
    {
      assert steps[i] in steps;
      var more := ExpandOne(steps[i], carriers, compiled, occupies, st);
      if more.Err? {
        return Err(more.error);
      }
      ExpandedMore(st, steps, i, out, more.value);
      out := out + more.value;
      i := i + 1;
    }
    assert steps[..i] == steps;
    return Ok(out);
  }

  ghost predicate Expanded(st: Stages, steps: seq<Step>, out: seq<Step>)
  {
    && (forall s :: s in steps ==> Complete(st, s, out))
    && (forall x :: x in out ==> exists s :: s in steps && FromStep(st, s, x))
  }

  lemma ExpandedMore(st: Stages, steps: seq<Step>, i: nat, out: seq<Step>, more: seq<Step>)
    requires i < |steps| && Expanded(st, steps[..i], out)
    requires Complete(st, steps[i], more) && forall x :: x in more ==> FromStep(st, steps[i], x)
    ensures Expanded(st, steps[..i + 1], out + more)
  {
    var front, longer := steps[..i], steps[..i + 1];
    assert longer == front + [steps[i]];
    forall s | s in longer ensures Complete(st, s, out + more) {
      if s in front { CompleteLonger(st, s, out, out + more); } else { CompleteLonger(st, s, more, out + more); }
    }
    forall x | x in out + more ensures exists s :: s in longer && FromStep(st, s, x) {
      if x in out {
        var s :| s in front && FromStep(st, s, x);
        assert s in longer;
      } else {
        assert steps[i] in longer;
      }
    }
  }

  lemma CompleteLonger(st: Stages, s: Step, a: seq<Step>, b: seq<Step>)
    requires Complete(st, s, a) && forall x :: x in a ==> x in b
    ensures Complete(st, s, b)
  {
    if s.id in st.compiled {
      forall i | 0 <= i < |st.compiled[s.id].members| ensures ChildThere(st, s, i, b) {
        assert ChildThere(st, s, i, a);
      }
    }
  }

  // ----- the plan -----

  /**
   * Frozen steps, expanded kernel steps and commitments that bypassed the kernel, in time order; `shown` is the
   * kernel's schedule with each Task's capacity looked up.
   */
  method RestorePlan(inp: Inputs, ghost st: Stages, steps: seq<Step>, frozen: seq<Step>, covered: seq<TaskSpec>,
                     carriers: Windows, compiled: map<Id, CompiledSegment>, occupies: map<Id, bool>)
    returns (r: Result<seq<Step>, ExpandError>, ghost shown: seq<Step>, ghost added: seq<Step>)
    requires Built(inp, st) && covered == st.run.covered && carriers == st.run.carriers && compiled == st.compiled
    ensures SameSchedule(steps, shown)
    ensures ValidSchedule(st.request, steps) ==> r.Ok?
    ensures r.Ok? ==> InTimeOrder(r.value) && multiset(r.value) == multiset(frozen + added)
    ensures r.Ok? ==> PlanBeside(inp, st, shown, StepIds(frozen), added)
    ensures r.Ok? && frozen == [] ==> PlanOf(inp, st, shown, r.value)
    ensures ValidSchedule(st.request, steps) ==> MeansOriginal(inp, st, StepIds(frozen), added)
    ensures ValidSchedule(st.request, steps) ==> CapacityShown(inp, st, occupies, added)
  {
    SegmentsArePlaced(inp, st);
    FreeWindowed(inp);
    CoveredWindowed(inp, st);
    var bodies := ScheduledBodies(steps, occupies);
    shown := bodies;
    var expanded := ExpandAll(bodies, carriers, compiled, occupies, st);
    if ValidSchedule(st.request, steps) {
      ShownIsValid(st.request, steps, shown);
      ValidFits(inp, st, shown);
    }
    if expanded.Err? { return Err(expanded.error), shown, []; }
    var plan;
    plan, added := Assemble(inp, st, shown, frozen, expanded.value, covered);
    if ValidSchedule(st.request, steps) {
      RoundTrip(inp, st, shown, StepIds(frozen), added);
      CapacityIsShown(inp, st, shown, occupies, expanded.value, added);
    }
    return Ok(plan), shown, added;
  }

  /** One step for each Task that appears and has no frozen one. */
  method Assemble(inp: Inputs, ghost st: Stages, ghost steps: seq<Step>, frozen: seq<Step>, expanded: seq<Step>,
                  covered: seq<TaskSpec>)
    returns (plan: seq<Step>, ghost added: seq<Step>)
    requires Windowed(inp.free) && Windowed(covered) && covered == st.run.covered && Expanded(st, steps, expanded)
    ensures InTimeOrder(plan) && multiset(plan) == multiset(frozen + added)
    ensures PlanBeside(inp, st, steps, StepIds(frozen), added)
    ensures forall x :: x in added ==> x in expanded || Direct(inp, st, x)
    ensures frozen == [] ==> PlanOf(inp, st, steps, plan)
  {
    var free := DirectStaticSteps(inp.free, false);
    var direct := DirectStaticSteps(covered, true);
    plan, added := MergeSteps(frozen, expanded + free + direct);
    AllAppear(inp, st, steps, expanded, free, direct);
    PlanIsAll(inp, st, steps, frozen, expanded + free + direct, added);
    AddedFrom(inp, st, frozen, expanded, free, direct, added);
    if frozen == [] { NothingFrozen(inp, st, steps, added, plan); }
  }

  // ----- what a step says about capacity -----

  /** A commitment that bypassed the kernel, as it is shown. */
  ghost predicate Direct(inp: Inputs, st: Stages, x: Step)
  {
    exists t :: FromDirect(inp, st, t, x)
  }

  /** Exactly the Tasks stored as taking no capacity are shown so, and the commitments without capacity. */
  ghost predicate CapacityShown(inp: Inputs, st: Stages, occupies: map<Id, bool>, plan: seq<Step>)
  {
    forall x :: x in plan ==>
      if x.id in Ids(inp.free) then !x.occupies
      else if x.id in Ids(st.run.covered) then x.occupies
      else OccupiesAs(occupies, x)
  }

  lemma AddedFrom(inp: Inputs, st: Stages, frozen: seq<Step>, expanded: seq<Step>, free: seq<Step>, direct: seq<Step>,
                  added: seq<Step>)
    requires FirstOfRest(frozen, expanded + free + direct, added)
    requires |free| == |inp.free| && forall i :: 0 <= i < |free| ==> DirectStep(inp.free[i], false, free[i])
    requires |direct| == |st.run.covered|
    requires forall i :: 0 <= i < |direct| ==> DirectStep(st.run.covered[i], true, direct[i])
    ensures forall x :: x in added ==> x in expanded || Direct(inp, st, x)
  {
    var all := expanded + free + direct;
    forall x | x in added ensures x in expanded || Direct(inp, st, x) {
      assert FirstOf(all, x);
      assert x in all;
      if x in free {
        var i :| 0 <= i < |free| && free[i] == x;
        assert FromDirect(inp, st, inp.free[i], x);
      } else if x in direct {
        var i :| 0 <= i < |direct| && direct[i] == x;
        assert FromDirect(inp, st, st.run.covered[i], x);
      }
    }
  }

  /** Looking up capacity leaves the schedule valid. */
  lemma ShownIsValid(request: seq<TaskSpec>, steps: seq<Step>, shown: seq<Step>)
    requires SameSchedule(steps, shown) && ValidSchedule(request, steps)
    ensures ValidSchedule(request, shown)
  {
    ShownFits(request, steps, shown);
    ShownApart(request, steps, shown);
    forall r | r in request && r.Static() ensures exists x :: x in shown && x.id == r.id {
      StillShown(steps, shown, r.id);
    }
  }

  lemma ShownFits(request: seq<TaskSpec>, steps: seq<Step>, shown: seq<Step>)
    requires SameSchedule(steps, shown) && forall s :: s in steps ==> exists r :: r in request && StepFits(r, s)
    ensures forall x :: x in shown ==> exists r :: r in request && StepFits(r, x)
  {
    forall x | x in shown ensures exists r :: r in request && StepFits(r, x) {
      var s := ShownFrom(steps, shown, x);
      var r :| r in request && StepFits(r, s);
      assert StepFits(r, x);
    }
  }

  lemma ShownApart(request: seq<TaskSpec>, steps: seq<Step>, shown: seq<Step>)
    requires SameSchedule(steps, shown) && ValidSchedule(request, steps)
    ensures UniqueSteps(shown)
    ensures forall x, y :: x in shown && y in shown && x.id != y.id ==> !Overlap(Span(x), Span(y))
    ensures forall r, x, y :: r in request && x in shown && y in shown && x.id == r.id && y.id in r.dependsOn ==>
        y.end <= x.start
  {
    forall x, y | x in shown && y in shown && x.id != y.id ensures !Overlap(Span(x), Span(y)) {
      var s := ShownFrom(steps, shown, x);
      var t := ShownFrom(steps, shown, y);
      assert !Overlap(Span(s), Span(t));
    }
    forall r, x, y | r in request && x in shown && y in shown && x.id == r.id && y.id in r.dependsOn
      ensures y.end <= x.start
    {
      var s := ShownFrom(steps, shown, x);
      var t := ShownFrom(steps, shown, y);
      assert s.id == r.id && t.id in r.dependsOn;
    }
  }

  lemma StillShown(steps: seq<Step>, shown: seq<Step>, id: Id)
    requires SameSchedule(steps, shown) && exists s :: s in steps && s.id == id
    ensures exists x :: x in shown && x.id == id
  {
    var s :| s in steps && s.id == id;
    var i :| 0 <= i < |steps| && steps[i] == s;
    assert shown[i] in shown && shown[i].id == id;
  }

  lemma ShownFrom(steps: seq<Step>, shown: seq<Step>, x: Step) returns (s: Step)
    requires SameSchedule(steps, shown) && x in shown
    ensures s in steps && x == s.(occupies := x.occupies)
  {
    var i :| 0 <= i < |shown| && shown[i] == x;
    s := steps[i];
  }

  lemma CapacityIsShown(inp: Inputs, st: Stages, steps: seq<Step>, occupies: map<Id, bool>, expanded: seq<Step>,
                        added: seq<Step>)
    requires Planned(inp, st, steps) && Expanded(st, steps, expanded)
    requires forall x :: x in expanded ==> OccupiesAs(occupies, x)
    requires forall x :: x in added ==> x in expanded || Direct(inp, st, x)
    ensures CapacityShown(inp, st, occupies, added)
  {
    forall x | x in added
      ensures if x.id in Ids(inp.free) then !x.occupies
              else if x.id in Ids(st.run.covered) then x.occupies
              else OccupiesAs(occupies, x)
    {
      if x in expanded {
        var s :| s in steps && FromStep(st, s, x);
        ExpandedApart(inp, st, steps, s, x);
      } else {
        var t :| FromDirect(inp, st, t, x);
        DirectCapacity(inp, st, t, x);
      }
    }
  }

  lemma DirectCapacity(inp: Inputs, st: Stages, t: TaskSpec, x: Step)
    requires Built(inp, st) && FromDirect(inp, st, t, x)
    ensures if x.id in Ids(inp.free) then !x.occupies else x.id in Ids(st.run.covered) && x.occupies
  {
    if t in inp.free && DirectStep(t, false, x) {
      IdIn(inp.free, t);
    } else {
      IdIn(st.run.covered, t);
      var q := CoveredSource(inp, st, t);
      NotFree(inp, q);
    }
  }

  lemma NotFree(inp: Inputs, q: TaskSpec)
    requires WellFormed(inp) && q in inp.bodies
    ensures q.id !in Ids(inp.free)
  {
    forall i | 0 <= i < |inp.free| ensures inp.free[i].id != q.id {
      var k :| 0 <= k < |inp.bodies| && inp.bodies[k] == q;
      var all := inp.bodies + inp.free;
      assert all[k] == q && all[|inp.bodies| + i] == inp.free[i];
    }
  }

  /** Nothing expanded from the kernel's schedule has the handle of a commitment that bypassed it. */
  lemma ExpandedApart(inp: Inputs, st: Stages, steps: seq<Step>, s: Step, x: Step)
    requires Planned(inp, st, steps) && s in steps && FromStep(st, s, x)
    ensures x.id !in Ids(inp.free) && x.id !in Ids(st.run.covered)
  {
    if FromKernel(st, s, x) {
      KernelApart(inp, st, steps, s);
    } else {
      var i: nat :| FromUnit(st, s, i, x);
      ChildApart(inp, st, s, i, x);
    }
  }

  lemma KernelApart(inp: Inputs, st: Stages, steps: seq<Step>, s: Step)
    requires Planned(inp, st, steps) && s in steps
    ensures s.id !in Ids(inp.free) && s.id !in Ids(st.run.covered)
  {
    var r, o := StepOrigin(inp, st, steps, s);
    OutApart(inp, st, o);
  }

  lemma OutApart(inp: Inputs, st: Stages, o: TaskSpec)
    requires Built(inp, st) && o in st.run.out
    ensures o.id !in Ids(inp.free) && o.id !in Ids(st.run.covered)
  {
    PlannedIds(inp, st);
    IdIn(st.run.out, o);
    NotFree(inp, TaskWithId(inp.bodies, o.id));
    OutIsCarriers(st.run);
    var k :| 0 <= k < |st.run.tasks| && IsCarrier(st.run.tasks, st.run.rep, k) && st.run.fused[k] == o;
    FusedKeepsId(st.run, k);
  }

  lemma ChildApart(inp: Inputs, st: Stages, s: Step, i: nat, x: Step)
    requires Built(inp, st) && FromUnit(st, s, i, x)
    ensures x.id !in Ids(inp.free) && x.id !in Ids(st.run.covered)
  {
    assert SegmentOf(st.dropped, st.home, s.id, st.compiled[s.id]);
    var u := FusedChild(inp, st, st.compiled[s.id].members[i].id);
    NotFree(inp, u);
    forall k | 0 <= k < |st.run.covered| ensures st.run.covered[k].id != u.id {
      var q := CoveredSource(inp, st, st.run.covered[k]);
      if q.id == u.id { BodiesUnique(inp, q, u); }
    }
  }

  lemma SegmentsArePlaced(inp: Inputs, st: Stages)
    requires Built(inp, st)
    ensures SegmentsPlaced(st.compiled)
  {
    forall c | c in st.compiled ensures st.compiled[c].placements == Placements(st.compiled[c].members) {
      assert SegmentOf(st.dropped, st.home, c, st.compiled[c]);
    }
  }

  lemma FreeWindowed(inp: Inputs)
    requires WellFormed(inp)
    ensures Windowed(inp.free)
  {
    forall i | 0 <= i < |inp.free| ensures inp.free[i].window.Some? { assert FreeStatic(inp, inp.free[i]); }
  }

  lemma CoveredWindowed(inp: Inputs, st: Stages)
    requires Built(inp, st)
    ensures Windowed(st.run.covered)
  {
    forall i | 0 <= i < |st.run.covered| ensures st.run.covered[i].window.Some? {
      var t := CoveredSource(inp, st, st.run.covered[i]);
    }
  }

  /** A valid schedule gives every unit exactly its members' time, so nothing drifts. */
  lemma ValidFits(inp: Inputs, st: Stages, steps: seq<Step>)
    requires Planned(inp, st, steps)
    ensures forall s :: s in steps ==> Fitting(st, s)
  {
    forall s | s in steps ensures Fitting(st, s) {
      if s.id in st.compiled { UnitFits(inp, st, steps, s); }
    }
  }

  lemma UnitFits(inp: Inputs, st: Stages, steps: seq<Step>, s: Step)
    requires Planned(inp, st, steps) && s in steps && s.id in st.compiled
    ensures Fitting(st, s)
  {
    var r, o := StepOrigin(inp, st, steps, s);
    CarrierIsDynamic(inp, st, o);
    var c := DynamicSource(inp, st, o);
    FusedNotObserved(inp, st, s.id);
    assert Unit(inp.rows, st.compiled[s.id].members, c) && r.Placement() == c.Placement();
    UnitExpands(inp.rows, st.compiled[s.id].members, c, s);
  }

  lemma AllAppear(inp: Inputs, st: Stages, steps: seq<Step>, expanded: seq<Step>, free: seq<Step>, direct: seq<Step>)
    requires Expanded(st, steps, expanded)
    requires |free| == |inp.free| && forall i :: 0 <= i < |free| ==> DirectStep(inp.free[i], false, free[i])
    requires |direct| == |st.run.covered|
    requires forall i :: 0 <= i < |direct| ==> DirectStep(st.run.covered[i], true, direct[i])
    ensures forall x :: x in expanded + free + direct ==> Appears(inp, st, steps, x)
    ensures forall x :: Appears(inp, st, steps, x) ==> x.id in StepIds(expanded + free + direct)
  {
    var all := expanded + free + direct;
    forall x | x in all ensures Appears(inp, st, steps, x) {
      if x in expanded {
        var s :| s in steps && FromStep(st, s, x);
      } else if x in free {
        var i :| 0 <= i < |free| && free[i] == x;
        assert FromDirect(inp, st, inp.free[i], x);
      } else {
        var i :| 0 <= i < |direct| && direct[i] == x;
        assert FromDirect(inp, st, st.run.covered[i], x);
      }
    }
    forall x | Appears(inp, st, steps, x) ensures x.id in StepIds(all) {
      AppearingListed(inp, st, steps, expanded, free, direct, x);
    }
  }

  lemma AppearingListed(inp: Inputs, st: Stages, steps: seq<Step>, expanded: seq<Step>, free: seq<Step>,
                        direct: seq<Step>, x: Step)
    requires Expanded(st, steps, expanded) && Appears(inp, st, steps, x)
    requires |free| == |inp.free| && forall i :: 0 <= i < |free| ==> DirectStep(inp.free[i], false, free[i])
    requires |direct| == |st.run.covered|
    requires forall i :: 0 <= i < |direct| ==> DirectStep(st.run.covered[i], true, direct[i])
    ensures x.id in StepIds(expanded + free + direct)
  {
    var all := expanded + free + direct;
    var source := SourceOf(inp, st, steps, x);
    match source {
      case Kernel(s) =>
        assert Complete(st, s, expanded);
        StepListed(all, x);
      case Child(s, i) =>
        assert Complete(st, s, expanded) && ChildThere(st, s, i, expanded);
        var y :| y in expanded && FromUnit(st, s, i, y);
        StepListed(all, y);
      case Direct(t) =>
        if t in inp.free && DirectStep(t, false, x) {
          var i :| 0 <= i < |inp.free| && inp.free[i] == t;
          assert free[i] == x;
        } else {
          var i :| 0 <= i < |st.run.covered| && st.run.covered[i] == t;
          assert direct[i] == x;
        }
        StepListed(all, x);
    }
  }

  lemma StepListed(steps: seq<Step>, x: Step)
    requires x in steps
    ensures x.id in StepIds(steps)
  {
    var i :| 0 <= i < |steps| && steps[i] == x;
  }

  // ----- the whole round trip -----

  /** Beside the frozen handles the steps all appear, and every other handle that appears has its step. */
  ghost predicate PlanBeside(inp: Inputs, st: Stages, steps: seq<Step>, frozen: set<Id>, plan: seq<Step>)
  {
    && UniqueSteps(plan)
    && (forall x :: x in plan ==> Appears(inp, st, steps, x) && x.id !in frozen)
    && (forall x :: Appears(inp, st, steps, x) && x.id !in frozen ==> x.id in StepIds(plan))
  }

  /** A plan without frozen steps. */
  ghost predicate PlanOf(inp: Inputs, st: Stages, steps: seq<Step>, plan: seq<Step>)
  {
    PlanBeside(inp, st, steps, {}, plan)
  }

  lemma PlanIsAll(inp: Inputs, st: Stages, steps: seq<Step>, frozen: seq<Step>, all: seq<Step>, added: seq<Step>)
    requires FirstOfRest(frozen, all, added)
    requires forall x :: x in all ==> Appears(inp, st, steps, x)
    requires forall x :: Appears(inp, st, steps, x) ==> x.id in StepIds(all)
    ensures PlanBeside(inp, st, steps, StepIds(frozen), added)
  {
    forall x | x in added ensures Appears(inp, st, steps, x) && x.id !in StepIds(frozen) {
      assert FirstOf(all, x);
      assert x in all;
      StepListed(added, x);
    }
  }

  lemma NothingFrozen(inp: Inputs, st: Stages, steps: seq<Step>, added: seq<Step>, plan: seq<Step>)
    requires PlanBeside(inp, st, steps, StepIds([]), added) && multiset(plan) == multiset([] + added)
    ensures PlanOf(inp, st, steps, plan)
  {
    assert [] + added == added;
    ReorderedSteps(added, plan);
    assert StepIds([]) == {};
  }

  ghost function Everyone(inp: Inputs): seq<TaskSpec> { inp.bodies + inp.free }

  /** Every commitment that has no frozen step is shown once, exactly when it is. */
  ghost predicate StaticsKept(inp: Inputs, frozen: set<Id>, plan: seq<Step>)
  {
    forall t :: t in Everyone(inp) && t.Static() && t.id !in frozen ==>
      t.id in StepIds(plan) && forall x :: x in plan && x.id == t.id ==> t.window == Some(Span(x))
  }

  /** Whoever is planned keeps its window, duration, and when fused its due date. */
  ghost predicate DynamicsKept(inp: Inputs, st: Stages, plan: seq<Step>)
  {
    forall t, x :: t in inp.bodies && !t.Static() && x in plan && x.id == t.id ==> KeepsBounds(inp, st, t, x)
  }

  /** A Dynamic Task shares no time with another, nor with a commitment that occupies capacity. */
  ghost predicate DynamicsAlone(inp: Inputs, plan: seq<Step>)
  {
    forall t, u, x, y | t in inp.bodies && u in inp.bodies && x in plan && y in plan ::
      !t.Static() && t.id != u.id && x.id == t.id && y.id == u.id ==> !Overlap(Span(x), Span(y))
  }

  /**
   * A planned Dynamic Task starts after every prerequisite that is planned or has a known time, later children of
   * its own unit aside.
   */
  ghost predicate EdgesRespected(inp: Inputs, st: Stages, plan: seq<Step>)
  {
    forall t, x, d | t in inp.bodies && x in plan && d in t.dependsOn ::
      !t.Static() && x.id == t.id && d != t.id && !PointsForward(st, t.id, d) ==> EdgeRespected(inp, plan, d, x.start)
  }

  ghost predicate EdgeRespected(inp: Inputs, plan: seq<Step>, d: Id, start: nat)
  {
    && (d in inp.absent ==> inp.absent[d].end <= start)
    && (forall y :: y in plan && y.id == d ==> y.end <= start)
  }

  /** A commitment that occupies capacity starts after all planned work it waits for. */
  ghost predicate CommitmentsWait(inp: Inputs, plan: seq<Step>)
  {
    forall q, u, y | q in inp.bodies && u in inp.bodies && y in plan ::
      q.Static() && !u.Static() && u.id in q.dependsOn && y.id == u.id ==>
          q.window.Some? && y.end <= q.window.value.start
  }

  /** Nothing else is in the plan. */
  ghost predicate NothingInvented(inp: Inputs, plan: seq<Step>)
  {
    UniqueSteps(plan) && forall x :: x in plan ==> x.id in Ids(Everyone(inp))
  }

  /** Beside the frozen handles the plan is one for the original Tasks. */
  ghost predicate MeansOriginal(inp: Inputs, st: Stages, frozen: set<Id>, plan: seq<Step>)
  {
    && StaticsKept(inp, frozen, plan)
    && DynamicsKept(inp, st, plan)
    && DynamicsAlone(inp, plan)
    && EdgesRespected(inp, st, plan)
    && CommitmentsWait(inp, plan)
    && NothingInvented(inp, plan)
  }

  /** Any valid schedule of the compiled request expands to a valid plan of the original Tasks. */
  lemma RoundTrip(inp: Inputs, st: Stages, steps: seq<Step>, frozen: set<Id>, plan: seq<Step>)
    requires Planned(inp, st, steps) && PlanBeside(inp, st, steps, frozen, plan)
    ensures MeansOriginal(inp, st, frozen, plan)
  {
    StaticsAreKept(inp, st, steps, frozen, plan);
    DynamicsAreKept(inp, st, steps, frozen, plan);
    DynamicsAreAlone(inp, st, steps, frozen, plan);
    EdgesAreRespected(inp, st, steps, frozen, plan);
    CommitmentsDoWait(inp, st, steps, frozen, plan);
    NothingIsInvented(inp, st, steps, frozen, plan);
  }

  lemma CommitmentsDoWait(inp: Inputs, st: Stages, steps: seq<Step>, frozen: set<Id>, plan: seq<Step>)
    requires Planned(inp, st, steps) && PlanBeside(inp, st, steps, frozen, plan)
    ensures CommitmentsWait(inp, plan)
  {
    forall q, u, y | q in inp.bodies && u in inp.bodies && y in plan
      && q.Static() && !u.Static() && u.id in q.dependsOn && y.id == u.id
      ensures q.window.Some? && y.end <= q.window.value.start
    {
      CommitmentAfterWork(inp, st, steps, q, u, y);
    }
  }

  lemma StaticsAreKept(inp: Inputs, st: Stages, steps: seq<Step>, frozen: set<Id>, plan: seq<Step>)
    requires Planned(inp, st, steps) && PlanBeside(inp, st, steps, frozen, plan)
    ensures StaticsKept(inp, frozen, plan)
  {
    forall t | t in Everyone(inp) && t.Static() && t.id !in frozen
      ensures t.id in StepIds(plan) && forall x :: x in plan && x.id == t.id ==> t.window == Some(Span(x))
    {
      var y := StaticAppears(inp, st, steps, t);
      forall x | x in plan && x.id == t.id ensures t.window == Some(Span(x)) {
        StaticKeepsWindow(inp, st, steps, t, x);
      }
    }
  }

  lemma DynamicsAreKept(inp: Inputs, st: Stages, steps: seq<Step>, frozen: set<Id>, plan: seq<Step>)
    requires Planned(inp, st, steps) && PlanBeside(inp, st, steps, frozen, plan)
    ensures DynamicsKept(inp, st, plan)
  {
    forall t, x | t in inp.bodies && !t.Static() && x in plan && x.id == t.id ensures KeepsBounds(inp, st, t, x) {
      DynamicKeepsBounds(inp, st, steps, t, x);
    }
  }

  lemma DynamicsAreAlone(inp: Inputs, st: Stages, steps: seq<Step>, frozen: set<Id>, plan: seq<Step>)
    requires Planned(inp, st, steps) && PlanBeside(inp, st, steps, frozen, plan)
    ensures DynamicsAlone(inp, plan)
  {
    forall t, u, x, y | t in inp.bodies && u in inp.bodies && !t.Static() && t.id != u.id
      && x in plan && y in plan && x.id == t.id && y.id == u.id
      ensures !Overlap(Span(x), Span(y))
    {
      TwoApart(inp, st, steps, t, u, x, y);
    }
  }

  lemma TwoApart(inp: Inputs, st: Stages, steps: seq<Step>, t: TaskSpec, u: TaskSpec, x: Step, y: Step)
    requires Planned(inp, st, steps) && t in inp.bodies && u in inp.bodies && !t.Static() && t.id != u.id
    requires Appears(inp, st, steps, x) && x.id == t.id && Appears(inp, st, steps, y) && y.id == u.id
    ensures !Overlap(Span(x), Span(y))
  {
    if u.Static() {
      DynamicClearOfStatics(inp, st, steps, t, x, u);
      StaticKeepsWindow(inp, st, steps, u, y);
    } else {
      DynamicsDisjoint(inp, st, steps, t, x, u, y);
    }
  }

  lemma EdgesAreRespected(inp: Inputs, st: Stages, steps: seq<Step>, frozen: set<Id>, plan: seq<Step>)
    requires Planned(inp, st, steps) && PlanBeside(inp, st, steps, frozen, plan)
    ensures EdgesRespected(inp, st, plan)
  {
    NothingIsInvented(inp, st, steps, frozen, plan);
    forall t, x, d | t in inp.bodies && !t.Static() && x in plan && x.id == t.id && d in t.dependsOn && d != t.id
      && !PointsForward(st, t.id, d)
      ensures EdgeRespected(inp, plan, d, x.start)
    {
      if d in inp.absent { AfterUnplanned(inp, st, steps, t, x, d); }
      forall y | y in plan && y.id == d ensures y.end <= x.start {
        OneEdge(inp, st, steps, frozen, plan, t, x, y);
      }
    }
  }

  lemma OneEdge(inp: Inputs, st: Stages, steps: seq<Step>, frozen: set<Id>, plan: seq<Step>, t: TaskSpec, x: Step,
                y: Step)
    requires Planned(inp, st, steps) && PlanBeside(inp, st, steps, frozen, plan)
    requires NothingInvented(inp, plan)
    requires t in inp.bodies && !t.Static() && x in plan && x.id == t.id && y in plan && y.id in t.dependsOn
    requires y.id != t.id && !PointsForward(st, t.id, y.id)
    ensures y.end <= x.start
  {
    var u := TaskWithId(Everyone(inp), y.id);
    if !(u in inp.bodies) {
      FreeIsAbsent(inp, u);
      AfterUnplanned(inp, st, steps, t, x, u.id);
      StaticKeepsWindow(inp, st, steps, u, y);
    } else if u.Static() {
      AfterCommitment(inp, st, steps, t, x, u);
      StaticKeepsWindow(inp, st, steps, u, y);
    } else {
      AfterDynamic(inp, st, steps, t, x, u, y);
    }
  }

  lemma FreeIsAbsent(inp: Inputs, u: TaskSpec)
    requires WellFormed(inp) && u in inp.free
    ensures u.Static() && u.id in inp.absent && u.window == Some(inp.absent[u.id])
  {
    var i :| 0 <= i < |inp.free| && inp.free[i] == u;
    assert FreeStatic(inp, inp.free[i]);
  }

  lemma NothingIsInvented(inp: Inputs, st: Stages, steps: seq<Step>, frozen: set<Id>, plan: seq<Step>)
    requires Planned(inp, st, steps) && PlanBeside(inp, st, steps, frozen, plan)
    ensures NothingInvented(inp, plan)
  {
    forall x | x in plan ensures x.id in Ids(Everyone(inp)) {
      BelongsToSomeone(inp, st, steps, x);
    }
  }

  ghost predicate Belongs(inp: Inputs, x: Step) { x.id in Ids(Everyone(inp)) }

  lemma KernelStepTask(inp: Inputs, st: Stages, steps: seq<Step>, s: Step, x: Step)
    requires Planned(inp, st, steps) && s in steps && x.id == s.id
    ensures Belongs(inp, x)
  {
    var r, o := StepOrigin(inp, st, steps, s);
    PlannedIds(inp, st);
    IdIn(st.run.out, o);
    InEveryone(inp, TaskWithId(inp.bodies, o.id));
  }

  lemma InEveryone(inp: Inputs, t: TaskSpec)
    requires t in inp.bodies || t in inp.free
    ensures t.id in Ids(Everyone(inp))
  {
    IdIn(Everyone(inp), t);
  }

  lemma ChildTask(inp: Inputs, st: Stages, s: Step, i: nat, x: Step)
    requires Built(inp, st) && FromUnit(st, s, i, x)
    ensures Belongs(inp, x)
  {
    assert SegmentOf(st.dropped, st.home, s.id, st.compiled[s.id]);
    var t := DroppedSource(inp, st, st.compiled[s.id].members[i]);
    InEveryone(inp, t);
  }

  lemma DirectTask(inp: Inputs, st: Stages, u: TaskSpec, x: Step)
    requires Built(inp, st) && FromDirect(inp, st, u, x)
    ensures Belongs(inp, x)
  {
    if u in inp.free {
      InEveryone(inp, u);
    } else {
      var t := CoveredSource(inp, st, u);
      InEveryone(inp, t);
    }
  }

  lemma BelongsToSomeone(inp: Inputs, st: Stages, steps: seq<Step>, x: Step)
    requires Planned(inp, st, steps) && Appears(inp, st, steps, x)
    ensures Belongs(inp, x)
  {
    var source := SourceOf(inp, st, steps, x);
    match source {
      case Kernel(s) => KernelStepTask(inp, st, steps, s, x);
      case Child(s, i) => ChildTask(inp, st, s, i, x);
      case Direct(u) => DirectTask(inp, st, u, x);
    }
  }
}
