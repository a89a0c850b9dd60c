/** The expanded plan keeps everything the original Tasks asked for. */
module Preservation {
  import opened Basics
  import opened Spans
  import opened Tasks
  import opened Segments
  import opened Compile
  import opened Clusters
  import opened ClusterFacts
  import opened StaticEdges
  import opened Exclusion
  import opened Pipeline
  import opened Origins
  import opened Expand
  import opened Meaning

  // ----- every Static Task keeps exactly its own window -----

  /** Whatever step shows a Static Task, it shows the Task's own window. */
  lemma StaticKeepsWindow(inp: Inputs, st: Stages, steps: seq<Step>, t: TaskSpec, x: Step)
    requires Planned(inp, st, steps) && (t in inp.bodies || t in inp.free) && t.Static()
    requires Appears(inp, st, steps, x) && x.id == t.id
    ensures t.window == Some(Span(x))
  {
    var source := SourceOf(inp, st, steps, x);
    match source {
      case Kernel(s) => FromKernelKeepsWindow(inp, st, steps, t, s, x);
      case Child(s, i) => UnitIsDynamic(inp, st, s, i, x, t);
      case Direct(u) => DirectIsStatic(inp, st, u, x, t);
    }
  }

  lemma FromKernelKeepsWindow(inp: Inputs, st: Stages, steps: seq<Step>, t: TaskSpec, s: Step, x: Step)
    requires Planned(inp, st, steps) && (t in inp.bodies || t in inp.free) && t.Static()
    requires s in steps && FromKernel(st, s, x) && x.id == t.id
    ensures t.window == Some(Span(x))
  {
    var r, o := StepOrigin(inp, st, steps, s);
    KernelStaticOwn(inp, st, t, s, o);
    RestoredKernelStep(inp, st, t, s, r, o);
  }

  lemma KernelStaticOwn(inp: Inputs, st: Stages, t: TaskSpec, s: Step, o: TaskSpec)
    requires Built(inp, st) && (t in inp.bodies || t in inp.free) && t.Static()
    requires s.id == t.id && o.id == s.id && o in st.run.out && s.id !in st.compiled
    ensures o.Static()
  {
    if !o.Static() {
      var c := DynamicSource(inp, st, o);
      var u := DroppedSource(inp, st, c);
      BodiesUnique(inp, u, t);
    }
  }

  lemma RestoredKernelStep(inp: Inputs, st: Stages, t: TaskSpec, s: Step, r: TaskSpec, o: TaskSpec)
    requires Built(inp, st) && (t in inp.bodies || t in inp.free) && t.Static() && s.id == t.id
    requires StepFits(r, s) && Descends(inp, st, o, r) && o.Static()
    ensures t.window == Some(Span(RestoredStep(st.run.carriers, s)))
  {
    var q := CommitmentSource(inp, st, o);
    BodiesUnique(inp, q, t);
    AnchoredStep(o, r, s);
  }

  /** The kernel's step for an anchored commitment is exactly its span. */
  lemma AnchoredStep(o: TaskSpec, r: TaskSpec, s: Step)
    requires o.Static() && Anchored(o) && StepFits(r, s)
    requires r == o.(window := r.window, dependsOn := r.dependsOn)
    ensures o.window == Some(Span(s))
  {
  }

  lemma UnitIsDynamic(inp: Inputs, st: Stages, s: Step, i: nat, x: Step, t: TaskSpec)
    requires Built(inp, st) && FromUnit(st, s, i, x) && (t in inp.bodies || t in inp.free) && x.id == t.id
    ensures !t.Static()
  {
    var segment := st.compiled[s.id];
    assert SegmentOf(st.dropped, st.home, s.id, segment);
    var m := segment.members[i];
    assert m.id in st.home;
    var u := FusedChild(inp, st, m.id);
    BodiesUnique(inp, u, t);
  }

  /** The kernel's step for a commitment spans the whole span it carries. */
  lemma CommitmentStep(inp: Inputs, st: Stages, steps: seq<Step>, o: TaskSpec) returns (s: Step, r: TaskSpec)
    requires Planned(inp, st, steps) && o in st.run.out && o.Static()
    ensures s in steps && s.id == o.id && o.window == Some(Span(s))
    ensures r in st.request && r.id == o.id && r.Static()
  {
    r := CommitmentRequested(inp, st, o);
    s :| s in steps && s.id == r.id;
    var r' :| r' in st.request && StepFits(r', s);
    RequestedOnce(inp, st, r, r');
    var q := CommitmentSource(inp, st, o);
    AnchoredStep(o, r, s);
  }

  lemma RequestedOnce(inp: Inputs, st: Stages, a: TaskSpec, b: TaskSpec)
    requires Built(inp, st) && a in st.request && b in st.request && a.id == b.id
    ensures a == b
  {
    RequestIds(inp, st);
    UniqueIdsSame(st.request, a, b);
  }

  /** Every Static Task in the horizon appears in the plan. */
  lemma StaticAppears(inp: Inputs, st: Stages, steps: seq<Step>, t: TaskSpec) returns (x: Step)
    requires Planned(inp, st, steps) && (t in inp.bodies || t in inp.free) && t.Static()
    ensures Appears(inp, st, steps, x) && x.id == t.id
  {
    if t in inp.free {
      x := FreeAppears(inp, st, t);
    } else {
      var k := StaticStays(inp, st, t);
      if IsCarrier(st.run.tasks, st.run.rep, k) {
        x := CarrierAppears(inp, st, steps, k);
      } else {
        var u := st.run.tasks[k];
        x := Step(u.id, u.window.value.start, u.window.value.end, u.dependsOn, true, true);
        assert FromDirect(inp, st, u, x);
      }
    }
  }

  lemma FreeAppears(inp: Inputs, st: Stages, t: TaskSpec) returns (x: Step)
    requires WellFormed(inp) && t in inp.free
    ensures FromDirect(inp, st, t, x) && x.id == t.id
  {
    var i :| 0 <= i < |inp.free| && inp.free[i] == t;
    assert FreeStatic(inp, inp.free[i]);
    x := Step(t.id, t.window.value.start, t.window.value.end, t.dependsOn, true, false);
  }

  lemma CarrierAppears(inp: Inputs, st: Stages, steps: seq<Step>, k: nat) returns (x: Step)
    requires Planned(inp, st, steps) && IsCarrier(st.run.tasks, st.run.rep, k) && st.run.tasks[k].Static()
    ensures (exists s :: s in steps && FromKernel(st, s, x)) && x.id == st.run.tasks[k].id
  {
    OutIsCarriers(st.run);
    FusedKeepsId(st.run, k);
    var s, r := CommitmentStep(inp, st, steps, st.run.fused[k]);
    var q := CommitmentSource(inp, st, st.run.fused[k]);
    x := RestoredStep(st.run.carriers, s);
    assert FromKernel(st, s, x);
  }

  // ----- every Dynamic Task keeps its window, its due date and its duration -----

  /** A Dynamic Task's step lies inside the kernel's step it ran under, which honours the pushed window. */
  lemma InsideItsStep(inp: Inputs, st: Stages, steps: seq<Step>, t: TaskSpec, x: Step)
    returns (s: Step, r: TaskSpec, o: TaskSpec)
    requires Planned(inp, st, steps) && t in inp.bodies && !t.Static()
    requires Appears(inp, st, steps, x) && x.id == t.id
    ensures s in steps && r in st.request && StepFits(r, s) && s.id == StandsFor(st.home, t.id)
    ensures Descends(inp, st, o, r) && !o.Static() && o in st.run.tasks
    ensures x.start <= x.end && Inside(Span(x), Span(s))
  {
    var c;
    s, r, o, c := RanUnder(inp, st, steps, t, x);
    var c' := DynamicSource(inp, st, o);
    if t.id in st.home {
      FusedNotObserved(inp, st, s.id);
      InsideUnit(inp, st, c, r, s, t, x);
    }
  }

  /** A child's step lies inside its unit's step. */
  lemma InsideUnit(inp: Inputs, st: Stages, c: TaskSpec, r: TaskSpec, s: Step, t: TaskSpec, x: Step)
    requires s.id in st.compiled && Unit(inp.rows, st.compiled[s.id].members, c) && StepFits(r, s)
    requires exists i: nat :: FromUnit(st, s, i, x) && st.compiled[s.id].members[i] == t
    requires RestoredStep(st.run.carriers, s) == s && r.Placement() == c.Placement()
    ensures x.start <= x.end && Inside(Span(x), Span(s))
  {
    var i: nat :| FromUnit(st, s, i, x) && st.compiled[s.id].members[i] == t;
    UnitExpands(inp.rows, st.compiled[s.id].members, c, s);
    ChildInside(s, st.compiled[s.id].members, i, x);
  }

  /** No child of a compiled segment has an observed duration of its own. */
  lemma FusedNotObserved(inp: Inputs, st: Stages, c: Id)
    requires Built(inp, st) && c in st.compiled
    ensures c !in inp.observed
    ensures forall i :: 0 <= i < |st.compiled[c].members| ==> st.compiled[c].members[i].id !in inp.observed
  {
    var unit := SegmentUnit(inp, st, c);
    UnitNotObserved(inp, unit);
    MembersOfUnit(st.dropped, unit, st.compiled[c]);
    assert SegmentOf(st.dropped, st.home, c, st.compiled[c]);
  }

  lemma UnitNotObserved(inp: Inputs, unit: UnitRef)
    requires WellFormed(inp) && unit in ActiveUnits(inp.containers)
    ensures forall id :: id in unit.ids ==> id !in inp.observed
  {
    ActiveUnitsDistinct(inp.containers);
    var k :| 0 <= k < |inp.containers| && inp.containers[k].active
        && Elements(unit.ids) <= Elements(inp.containers[k].items);
    forall id | id in unit.ids ensures id !in inp.observed {
      assert id in Elements(unit.ids);
    }
  }

  lemma MembersOfUnit(dropped: seq<TaskSpec>, unit: UnitRef, segment: CompiledSegment)
    requires SegmentIs(dropped, unit, segment)
    ensures forall i :: 0 <= i < |segment.members| ==> segment.members[i].id in unit.ids
  {
    var k := FirstPresent(dropped, unit.ids);
    forall i | 0 <= i < |segment.members| ensures segment.members[i].id in unit.ids {
      assert segment.members[i].id == unit.ids[k..][i] == unit.ids[k + i];
    }
  }

  ghost predicate KeepsBounds(inp: Inputs, st: Stages, t: TaskSpec, x: Step)
  {
    && t.window.Some? && Inside(Span(x), t.window.value)
    && inp.anchor <= x.start
    && x.end == x.start + Estimated(inp.observed, t).Placement()
    && (t.id in st.home ==> MayEndAt(inp.rows, t, x.end))
  }

  /**
   * Inside its own window, after the planning anchor, for its own or its observed length, and when fused by its due
   * date.
   */
  lemma DynamicKeepsBounds(inp: Inputs, st: Stages, steps: seq<Step>, t: TaskSpec, x: Step)
    requires Planned(inp, st, steps) && t in inp.bodies && !t.Static()
    requires Appears(inp, st, steps, x) && x.id == t.id
    ensures KeepsBounds(inp, st, t, x)
  {
    var s, o, c := InsideOwnWindow(inp, st, steps, t, x);
    HasWindow(inp.bodies, t);
    if t.id in st.home {
      FusedNotObserved(inp, st, s.id);
      FusedKeepsBounds(inp, st, s, c, t, x);
    }
  }

  lemma FusedKeepsBounds(inp: Inputs, st: Stages, s: Step, c: TaskSpec, t: TaskSpec, x: Step)
    requires s.id in st.compiled && t.window.Some? && t.id !in inp.observed
    requires exists i: nat :: FromUnit(st, s, i, x) && st.compiled[s.id].members[i] == t
    requires RestoredStep(st.run.carriers, s) == s && Unit(inp.rows, st.compiled[s.id].members, c)
    requires c.window.Some? && Inside(Span(s), c.window.value) && inp.anchor <= s.start
    requires s.end == s.start + c.Placement()
    ensures KeepsBounds(inp, st, t, x)
  {
    var i: nat :| FromUnit(st, s, i, x) && st.compiled[s.id].members[i] == t;
    ChildBounds(inp.rows, st.compiled[s.id].members, c, s, i, x);
  }

  lemma HasWindow(tasks: seq<TaskSpec>, t: TaskSpec)
    requires Windowed(tasks) && t in tasks
    ensures t.window.Some?
  {
    var k :| 0 <= k < |tasks| && tasks[k] == t;
  }

  /** The kernel's step under which a Task ran lies inside the window of whoever stands for the Task. */
  lemma InsideOwnWindow(inp: Inputs, st: Stages, steps: seq<Step>, t: TaskSpec, x: Step)
    returns (s: Step, o: TaskSpec, c: TaskSpec)
    requires Planned(inp, st, steps) && t in inp.bodies && !t.Static()
    requires Appears(inp, st, steps, x) && x.id == t.id
    ensures c.window.Some? && Inside(Span(s), c.window.value) && inp.anchor <= s.start
    ensures s.end == s.start + Estimated(inp.observed, c).Placement() && c.id == s.id
    ensures if t.id in st.home then
              && (exists i: nat :: FromUnit(st, s, i, x) && st.compiled[s.id].members[i] == t)
              && RestoredStep(st.run.carriers, s) == s && Unit(inp.rows, st.compiled[s.id].members, c)
            else x == s && c == t
  {
    var r;
    s, r, o, c := RanUnder(inp, st, steps, t, x);
    var c' := DynamicSource(inp, st, o);
    PushedInside(SettingFor(inp, st.run), s, r, o);
    RequestedLength(inp.observed, st.home, c, o, r, s);
  }

  /** Everything a child keeps when its unit is placed for its own length inside its window. */
  lemma ChildBounds(rows: Rows, members: seq<TaskSpec>, carrier: TaskSpec, s: Step, i: nat, x: Step)
    requires Unit(rows, members, carrier) && s.end == s.start + carrier.Placement()
    requires Inside(Span(s), carrier.window.value) && i < |members| && ChildStep(s, members, i, x)
    ensures x.end == x.start + members[i].Placement() && Inside(Span(x), Span(s))
    ensures members[i].window.Some? ==> Inside(Span(x), members[i].window.value)
    ensures MayEndAt(rows, members[i], x.end)
  {
    UnitExpands(rows, members, carrier, s);
    ChildInside(s, members, i, x);
    ChildKeepsBounds(rows, members, carrier, s, i, x);
  }

  /** A step inside the pushed window is inside the original one, and after everything absent. */
  lemma PushedInside(setting: Setting, s: Step, r: TaskSpec, o: TaskSpec)
    requires StepFits(r, s) && !r.Static() && r.id == o.id
    requires Pushed(setting, o, o.(window := r.window)) && !o.Static()
    ensures o.window.Some? && Inside(Span(s), o.window.value) && setting.anchor <= s.start
    ensures AfterAbsent(setting, o.dependsOn, s.start)
  {
    assert PushedStart(setting, o, r.window.value.start);
    var ready := AfterAbsent(setting, o.dependsOn, s.start);
    assert r.window.value.start <= s.start;
  }

  /** A step lasts as long as the Task it stands for was requested to. */
  lemma RequestedLength(observed: map<Id, DurationModel>, home: Homes, c: TaskSpec, o: TaskSpec, r: TaskSpec, s: Step)
    requires RenamedBy(home, c, o) && r == Estimated(observed, o).(window := r.window, dependsOn := r.dependsOn)
    requires StepFits(r, s)
    ensures s.end == s.start + Estimated(observed, c).Placement() && c.id == s.id
  {
  }

  // ----- nothing overlaps -----

  /** Two Dynamic Tasks never run at the same time. */
  lemma DynamicsDisjoint(inp: Inputs, st: Stages, steps: seq<Step>, t: TaskSpec, x: Step, u: TaskSpec, y: Step)
    requires Planned(inp, st, steps) && t in inp.bodies && !t.Static() && u in inp.bodies && !u.Static() && t.id != u.id
    requires Appears(inp, st, steps, x) && x.id == t.id && Appears(inp, st, steps, y) && y.id == u.id
    ensures !Overlap(Span(x), Span(y))
  {
    var s, _, _ := InsideItsStep(inp, st, steps, t, x);
    var s', _, _ := InsideItsStep(inp, st, steps, u, y);
    if s.id == s'.id {
      var c, i, j := SameUnit(inp, st, steps, t, x, u, y);
    } else {
      ApartInside(st.request, steps, s, s', Span(x), Span(y));
    }
  }

  /** What lies inside two different steps of a valid schedule does not overlap. */
  lemma ApartInside(request: seq<TaskSpec>, steps: seq<Step>, s: Step, s': Step, v: TimeWindow, w: TimeWindow)
    requires ValidSchedule(request, steps) && s in steps && s' in steps && s.id != s'.id
    requires Inside(v, Span(s)) && Inside(w, Span(s'))
    ensures !Overlap(v, w)
  {
    assert !Overlap(Span(s), Span(s'));
  }

  /** Two children of one unit sit in it one after the other. */
  lemma SameUnit(inp: Inputs, st: Stages, steps: seq<Step>, t: TaskSpec, x: Step, u: TaskSpec, y: Step)
    returns (c: Id, i: nat, j: nat)
    requires Planned(inp, st, steps) && t in inp.bodies && !t.Static() && u in inp.bodies && !u.Static() && t.id != u.id
    requires Appears(inp, st, steps, x) && x.id == t.id && Appears(inp, st, steps, y) && y.id == u.id
    requires StandsFor(st.home, t.id) == StandsFor(st.home, u.id)
    ensures c in st.compiled && i < |st.compiled[c].members| && j < |st.compiled[c].members|
    ensures st.compiled[c].members[i] == t && st.compiled[c].members[j] == u
    ensures if i < j then x.end <= y.start else y.end <= x.start
  {
    BothFused(inp, st, t, u);
    var s, restored;
    s, i := FusedUnder(inp, st, steps, t, x);
    s, j := FusedUnder(inp, st, steps, u, y);
    c := s.id;
    restored := RestoredStep(st.run.carriers, s);
    InUnitOrder(restored, st.compiled[c].members, i, j, x, y);
  }

  lemma InUnitOrder(s: Step, members: seq<TaskSpec>, i: nat, j: nat, x: Step, y: Step)
    requires i < |members| && j < |members| && i != j && ChildStep(s, members, i, x) && ChildStep(s, members, j, y)
    ensures if i < j then x.end <= y.start else y.end <= x.start
  {
    if i < j {
      ChildrenInOrder(s, members, i, j, x, y);
    } else {
      ChildrenInOrder(s, members, j, i, y, x);
    }
  }

  /** The one kernel step a fused child was expanded from. */
  lemma FusedUnder(inp: Inputs, st: Stages, steps: seq<Step>, t: TaskSpec, x: Step) returns (s: Step, i: nat)
    requires Planned(inp, st, steps) && t in inp.bodies && !t.Static() && t.id in st.home
    requires Appears(inp, st, steps, x) && x.id == t.id
    ensures FromUnit(st, s, i, x) && st.compiled[s.id].members[i] == t
    ensures s.id == st.home[t.id] && s in steps
    ensures forall z :: z in steps && z.id == s.id ==> z == s
  {
    var r, o, c;
    s, r, o, c := RanUnder(inp, st, steps, t, x);
    i :| FromUnit(st, s, i, x) && st.compiled[s.id].members[i] == t;
    forall z | z in steps && z.id == s.id ensures z == s { StepsUnique(steps, s, z); }
  }

  lemma BothFused(inp: Inputs, st: Stages, t: TaskSpec, u: TaskSpec)
    requires Built(inp, st) && t.id != u.id && StandsFor(st.home, t.id) == StandsFor(st.home, u.id)
    ensures t.id in st.home && u.id in st.home
  {
    CarriersAreHome(st.dropped, inp.rows, st.current, st.compiled, st.home);
    assert forall m :: m in st.home ==> st.home[m] in st.compiled;
  }

  lemma StepsUnique(steps: seq<Step>, a: Step, b: Step)
    requires UniqueSteps(steps) && a in steps && b in steps && a.id == b.id
    ensures a == b
  {
    var i :| 0 <= i < |steps| && steps[i] == a;
    var j :| 0 <= j < |steps| && steps[j] == b;
    assert !(i < j) && !(j < i);
  }

  /** The span of the commitment that stands for a Static Task covers the Task's own window. */
  lemma CarrierSpan(inp: Inputs, st: Stages, q: TaskSpec) returns (o: TaskSpec)
    requires Built(inp, st) && q in inp.bodies && q.Static()
    ensures o in st.run.out && o.Static() && o.window.Some? && q.window.Some?
    ensures Inside(q.window.value, o.window.value)
  {
    var k := StaticStays(inp, st, q);
    var c := GroupHasCarrier(st.run.tasks, st.run.rep, k);
    if c != k { GroupedIsStatic(st.run.tasks, st.run.rep, c, k); }
    OutIsCarriers(st.run);
    FusedKeepsId(st.run, c);
    FusedSpan(st.run, c, k);
    o := st.run.fused[c];
  }

  /** A Dynamic Task never runs during any commitment that occupies capacity, fused or not. */
  lemma DynamicClearOfStatics(inp: Inputs, st: Stages, steps: seq<Step>, t: TaskSpec, x: Step, q: TaskSpec)
    requires Planned(inp, st, steps) && t in inp.bodies && !t.Static() && q in inp.bodies && q.Static()
    requires Appears(inp, st, steps, x) && x.id == t.id
    ensures q.window.Some? && !Overlap(Span(x), q.window.value)
  {
    var s, r, o := InsideItsStep(inp, st, steps, t, x);
    var p := CarrierSpan(inp, st, q);
    var s', r' := CommitmentStep(inp, st, steps, p);
    if s.id == s'.id {
      RequestedOnce(inp, st, r, r');
    }
    ApartInside(st.request, steps, s, s', Span(x), q.window.value);
  }

  // ----- every edge into a planned Dynamic Task is respected -----

  /** The compiled request carries the edge, unless both ends are in one unit. */
  lemma EdgeArrives(inp: Inputs, st: Stages, t: TaskSpec, d: Id, o: TaskSpec)
    requires Built(inp, st) && t in inp.bodies && !t.Static() && d in t.dependsOn
    requires o in st.run.tasks && o.id == StandsFor(st.home, t.id)
    ensures StandsFor(st.home, d) == StandsFor(st.home, t.id) || StandsFor(st.home, d) in o.dependsOn
  {
    StillThere(inp, st, t);
    DroppedShape(inp, st.drops, st.dropped);
    EdgeKept(st.dropped, inp.rows, inp.accepts, ActiveUnits(inp.containers), st.run.tasks, st.compiled, st.home,
        st.current, t, d);
    OnlyEdge(st.run.tasks, o, StandsFor(st.home, d));
  }

  lemma StillThere(inp: Inputs, st: Stages, t: TaskSpec)
    requires Built(inp, st) && t in inp.bodies && !t.Static()
    ensures t in st.dropped
  {
    var k :| 0 <= k < |inp.bodies| && inp.bodies[k] == t;
    DynamicNotDropped(inp, st, k);
    assert st.dropped[k] in st.dropped;
  }

  lemma OnlyEdge(tasks: seq<TaskSpec>, o: TaskSpec, d: Id)
    requires UniqueIds(tasks) && o in tasks
    ensures EdgeIn(tasks, o.id, d) ==> d in o.dependsOn
  {
    if EdgeIn(tasks, o.id, d) {
      var i :| 0 <= i < |tasks| && tasks[i].id == o.id && d in tasks[i].dependsOn;
      UniqueIdsSame(tasks, tasks[i], o);
    }
  }

  lemma NotFused(inp: Inputs, st: Stages, d: Id)
    requires Built(inp, st) && d !in Ids(inp.bodies)
    ensures d !in st.home
  {
    forall m | m in st.home ensures m != d {
      var u := FusedChild(inp, st, m);
      IdIn(inp.bodies, u);
    }
  }

  lemma OwnHandle(inp: Inputs, st: Stages, t: TaskSpec, d: Id)
    requires Built(inp, st) && d != t.id && d !in st.home
    ensures StandsFor(st.home, d) == d && d != StandsFor(st.home, t.id)
  {
    CarriersAreHome(st.dropped, inp.rows, st.current, st.compiled, st.home);
    if t.id in st.home { assert st.home[t.id] in st.compiled; }
  }

  /** A prerequisite that is not planned, but whose window is known, ends before the Task starts. */
  lemma AfterUnplanned(inp: Inputs, st: Stages, steps: seq<Step>, t: TaskSpec, x: Step, d: Id)
    requires Planned(inp, st, steps) && t in inp.bodies && !t.Static()
    requires Appears(inp, st, steps, x) && x.id == t.id && d in t.dependsOn && d in inp.absent
    ensures inp.absent[d].end <= x.start
  {
    var s, r, o := InsideItsStep(inp, st, steps, t, x);
    PlannedIds(inp, st);
    IdIn(inp.bodies, t);
    NotFused(inp, st, d);
    OwnHandle(inp, st, t, d);
    EdgeArrives(inp, st, t, d, o);
    PushedInside(SettingFor(inp, st.run), s, r, o);
    NotCovered(st.run.covered, d);
    assert Absent(SettingFor(inp, st.run), d);
  }

  lemma NotCovered(covered: seq<TaskSpec>, d: Id)
    requires d !in Ids(covered)
    ensures d !in CoveredWindows(covered)
  {
    var windows := CoveredWindows(covered);
    forall id | id in windows ensures id != d {
      var t :| t in covered && t.id == id && t.window == Some(windows[id]);
      IdIn(covered, t);
    }
  }

  /** A commitment ends before any Dynamic Task that waits for it starts, whether it is fused or not. */
  lemma AfterCommitment(inp: Inputs, st: Stages, steps: seq<Step>, t: TaskSpec, x: Step, q: TaskSpec)
    requires Planned(inp, st, steps) && t in inp.bodies && !t.Static() && q in inp.bodies && q.Static()
    requires Appears(inp, st, steps, x) && x.id == t.id && q.id in t.dependsOn
    ensures q.window.Some? && q.window.value.end <= x.start
  {
    var s, r, o := InsideItsStep(inp, st, steps, t, x);
    StaticsStayHome(inp, st, q);
    assert q.id != t.id by { if q.id == t.id { BodiesUnique(inp, q, t); } }
    OwnHandle(inp, st, t, q.id);
    EdgeArrives(inp, st, t, q.id, o);
    var k := StaticStays(inp, st, q);
    if IsCarrier(st.run.tasks, st.run.rep, k) {
      AfterCarrier(inp, st, steps, s, r, o, k);
    } else {
      PushedInside(SettingFor(inp, st.run), s, r, o);
      CoveredIsAbsent(inp, st, k);
    }
  }

  lemma AfterCarrier(inp: Inputs, st: Stages, steps: seq<Step>, s: Step, r: TaskSpec, o: TaskSpec, k: nat)
    requires Planned(inp, st, steps) && s in steps && r in st.request && StepFits(r, s) && Descends(inp, st, o, r)
    requires IsCarrier(st.run.tasks, st.run.rep, k) && st.run.tasks[k].Static() && st.run.tasks[k].id in o.dependsOn
    ensures EndOf(st.run.tasks[k]) <= s.start
  {
    OutIsCarriers(st.run);
    FusedKeepsId(st.run, k);
    FusedSpan(st.run, k, k);
    var s', r' := CommitmentStep(inp, st, steps, st.run.fused[k]);
    IdIn(st.request, r');
    assert s'.id in r.dependsOn;
    assert s'.end <= s.start;
  }

  lemma CoveredIsAbsent(inp: Inputs, st: Stages, k: nat)
    requires Built(inp, st) && k < |st.run.tasks| && !IsCarrier(st.run.tasks, st.run.rep, k)
    requires st.run.tasks[k].window.Some?
    ensures var d, setting := st.run.tasks[k].id, SettingFor(inp, st.run);
            Absent(setting, d) && Some(setting.absent[d]) == st.run.tasks[k].window
  {
    var u := st.run.tasks[k];
    EveryTaskOnce(st.run, u);
    var windows := CoveredWindows(st.run.covered);
    assert u.id in windows;
    var v :| v in st.run.covered && v.id == u.id && v.window == Some(windows[u.id]);
    UniqueIdsSame(st.run.covered, u, v);
  }

  /** Inside every segment a child waits only for earlier children. */
  ghost predicate ChildrenLookBack(inp: Inputs)
    requires WellFormed(inp)
  {
    forall unit :: unit in ActiveUnits(inp.containers) ==> LooksBack(inp.bodies, unit.ids)
  }

  lemma MembersLookBack(inp: Inputs, st: Stages, c: Id, i: nat, j: nat)
    requires Built(inp, st) && ChildrenLookBack(inp) && c in st.compiled
    requires i < |st.compiled[c].members| && j < |st.compiled[c].members|
    requires st.compiled[c].members[j].id in st.compiled[c].members[i].dependsOn
    ensures j < i
  {
    var unit := SegmentUnit(inp, st, c);
    var t := st.compiled[c].members[i];
    assert SegmentOf(st.dropped, st.home, c, st.compiled[c]);
    var b := DroppedSource(inp, st, t);
    UnitLooksBack(st.dropped, inp.bodies, unit, st.compiled[c], i, j, b);
  }

  lemma SegmentUnit(inp: Inputs, st: Stages, c: Id) returns (unit: UnitRef)
    requires Built(inp, st) && c in st.compiled
    ensures unit in ActiveUnits(inp.containers) && SegmentIs(st.dropped, unit, st.compiled[c])
  {
    assert AllFromUnits(st.dropped, ActiveUnits(inp.containers), st.compiled);
    unit :| unit in ActiveUnits(inp.containers) && SegmentIs(st.dropped, unit, st.compiled[c]);
  }

  lemma UnitLooksBack(dropped: seq<TaskSpec>, bodies: seq<TaskSpec>, unit: UnitRef, segment: CompiledSegment,
                      i: nat, j: nat, b: TaskSpec)
    requires SegmentIs(dropped, unit, segment) && LooksBack(bodies, unit.ids)
    requires i < |segment.members| && j < |segment.members| && b in bodies && b.id == segment.members[i].id
    requires segment.members[j].id in b.dependsOn
    ensures j < i
  {
    var k := FirstPresent(dropped, unit.ids);
    var suffix := unit.ids[k..];
    assert segment.members == MembersOf(dropped, suffix);
    assert segment.members[i].id == suffix[i] && segment.members[j].id == suffix[j];
    LaterInBoth(bodies, unit.ids, k, i, j, b);
  }

  lemma LaterInBoth(bodies: seq<TaskSpec>, ids: seq<Id>, k: nat, i: nat, j: nat, b: TaskSpec)
    requires LooksBack(bodies, ids) && k <= |ids| && i < |ids| - k && j < |ids| - k
    requires b in bodies && b.id == ids[k..][i] && ids[k..][j] in b.dependsOn
    ensures j < i
  {
    var a, c := k + i, k + j;
    assert b.id == ids[a] && ids[c] in b.dependsOn;
  }

  /** Why that is asked for: between children of one unit an edge is respected exactly when it points back. */
  lemma InsideUnitExactly(inp: Inputs, st: Stages, steps: seq<Step>, t: TaskSpec, x: Step, u: TaskSpec, y: Step)
    returns (c: Id, i: nat, j: nat)
    requires Planned(inp, st, steps) && t in inp.bodies && !t.Static() && u in inp.bodies && !u.Static() && t.id != u.id
    requires Appears(inp, st, steps, x) && x.id == t.id && Appears(inp, st, steps, y) && y.id == u.id
    requires StandsFor(st.home, t.id) == StandsFor(st.home, u.id)
    ensures c in st.compiled && i < |st.compiled[c].members| && j < |st.compiled[c].members|
    ensures st.compiled[c].members[i] == t && st.compiled[c].members[j] == u
    ensures t.Placement() + u.Placement() > 0 ==> (y.end <= x.start <==> j < i)
  {
    c, i, j := SameUnit(inp, st, steps, t, x, u, y);
    FusedNotObserved(inp, st, c);
    DynamicKeepsBounds(inp, st, steps, t, x);
    DynamicKeepsBounds(inp, st, steps, u, y);
    InUnitExactly(t.Placement(), u.Placement(), i, j, x, y);
  }

  lemma InUnitExactly(p: nat, q: nat, i: nat, j: nat, x: Step, y: Step)
    requires x.end == x.start + p && y.end == y.start + q && i != j
    requires if i < j then x.end <= y.start else y.end <= x.start
    ensures p + q > 0 ==> (y.end <= x.start <==> j < i)
  {
  }

  /** Both are children of one unit, and `b` comes after `a`. */
  ghost predicate PointsForward(st: Stages, a: Id, b: Id)
  {
    exists c, i, j :: c in st.compiled && 0 <= i < j < |st.compiled[c].members|
      && st.compiled[c].members[i].id == a && st.compiled[c].members[j].id == b
  }

  /** Where children look back, no edge points forward. */
  lemma LookingBack(inp: Inputs, st: Stages, t: TaskSpec, d: Id)
    requires Built(inp, st) && ChildrenLookBack(inp) && t in inp.bodies && d in t.dependsOn
    ensures !PointsForward(st, t.id, d)
  {
    forall c, i, j | c in st.compiled && 0 <= i < j < |st.compiled[c].members|
      && st.compiled[c].members[i].id == t.id
      ensures st.compiled[c].members[j].id != d
    {
      NotForward(inp, st, t, d, c, i, j);
    }
  }

  lemma NotForward(inp: Inputs, st: Stages, t: TaskSpec, d: Id, c: Id, i: nat, j: nat)
    requires Built(inp, st) && ChildrenLookBack(inp) && t in inp.bodies && d in t.dependsOn
    requires c in st.compiled && i < j < |st.compiled[c].members| && st.compiled[c].members[i].id == t.id
    ensures st.compiled[c].members[j].id != d
  {
    MemberIsTask(inp, st, c, i, t);
    if st.compiled[c].members[j].id == d { MembersLookBack(inp, st, c, i, j); }
  }

  lemma MemberIsTask(inp: Inputs, st: Stages, c: Id, i: nat, t: TaskSpec)
    requires Built(inp, st) && t in inp.bodies && c in st.compiled && i < |st.compiled[c].members|
    requires st.compiled[c].members[i].id == t.id
    ensures st.compiled[c].members[i] == t
  {
    assert SegmentOf(st.dropped, st.home, c, st.compiled[c]);
    assert t.id in st.home;
    var u := FusedChild(inp, st, t.id);
    BodiesUnique(inp, u, t);
    var v := DroppedSource(inp, st, st.compiled[c].members[i]);
    BodiesUnique(inp, v, t);
  }

  /** A planned Dynamic prerequisite ends before the Task that waits for it starts, later children of its unit aside. */
  lemma AfterDynamic(inp: Inputs, st: Stages, steps: seq<Step>, t: TaskSpec, x: Step, u: TaskSpec, y: Step)
    requires Planned(inp, st, steps) && !PointsForward(st, t.id, u.id)
    requires t in inp.bodies && !t.Static() && u in inp.bodies && !u.Static() && u.id != t.id
    requires Appears(inp, st, steps, x) && x.id == t.id && Appears(inp, st, steps, y) && y.id == u.id
    requires u.id in t.dependsOn
    ensures y.end <= x.start
  {
    var s, r, o := InsideItsStep(inp, st, steps, t, x);
    EdgeArrives(inp, st, t, u.id, o);
    if StandsFor(st.home, u.id) == StandsFor(st.home, t.id) {
      var c, i, j := SameUnit(inp, st, steps, t, x, u, y);
    } else {
      var s', r', o' := InsideItsStep(inp, st, steps, u, y);
      IdIn(st.request, r');
      assert s'.id in r.dependsOn;
      assert s'.end <= s.start;
    }
  }
}
