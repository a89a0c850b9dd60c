/** From participating Tasks to the kernel's request: the passes in the order they run. */
module Pipeline {
  import opened Basics
  import opened Spans
  import opened Tasks
  import opened Segments
  import opened Compile
  import opened Clusters
  import opened ClusterFacts
  import opened StaticEdges
  import opened Exclusion
  import opened Dependents
  import Seating

  /**
   * What participates in one request. `bodies` are the Dynamic Tasks and the Static Tasks in the
   * horizon that occupy capacity; `free` are the Static Tasks in the horizon that do not;
   * `absent` holds the windows of Static Tasks that stay out of the request, and `windows`
   * those of all active Static Tasks. `observed` holds the duration each routine occurrence was
   * seen to take, where there is enough evidence; children of a decomposition are no occurrences.
   */
  datatype Inputs = Inputs(
    bodies: seq<TaskSpec>, free: seq<TaskSpec>, absent: Windows, windows: Windows,
    mandatory: set<Id>, containers: seq<Container>, rows: Rows, accepts: DurationModel -> bool,
    observed: map<Id, DurationModel>, horizonEnd: U64, anchor: U64)

  /** Handles are unique, and exactly the Static Tasks are known by a window, the one they have. */
  ghost predicate WellFormed(inp: Inputs)
  {
    && UniqueIds(inp.bodies + inp.free)
    && Windowed(inp.bodies) && StaticsAnchored(inp.bodies)
    && (forall i :: 0 <= i < |inp.bodies| && inp.bodies[i].Static() ==> KnownWindow(inp.windows, inp.bodies[i]))
    && (forall i :: 0 <= i < |inp.bodies| && !inp.bodies[i].Static() ==> inp.bodies[i].id !in inp.windows)
    && (forall i :: 0 <= i < |inp.free| ==> FreeStatic(inp, inp.free[i]))
    && inp.absent.Keys !! Ids(inp.bodies)
    && (forall i :: 0 <= i < |inp.containers| ==> ValidContainer(inp.containers[i]))
    && DistinctItems(inp.containers)
    && (forall i :: 0 <= i < |inp.containers| && inp.containers[i].active ==>
        Elements(inp.containers[i].items) !! inp.observed.Keys)
  }

  ghost predicate FreeStatic(inp: Inputs, t: TaskSpec)
  {
    t.Static() && Anchored(t) && KnownWindow(inp.windows, t) && KnownWindow(inp.absent, t)
  }

  ghost predicate KnownWindow(windows: Windows, t: TaskSpec)
  {
    t.id in windows && t.window == Some(windows[t.id])
  }

  /** Every intermediate request, kept to reason about the last one. */
  datatype Stages = Stages(
    drops: set<Drop>, dropped: seq<TaskSpec>,
    compiled: map<Id, CompiledSegment>, home: Homes, current: seq<TaskSpec>,
    run: ClusterRun,
    judged: map<Id, Reason>, pushed: seq<TaskSpec>, fitting: seq<TaskSpec>,
    unseatable: set<Id>, seatable: seq<TaskSpec>,
    removed: set<Id>, planned: seq<TaskSpec>, pruned: seq<TaskSpec>,
    request: seq<TaskSpec>)

  function FixedSpans(tasks: seq<TaskSpec>): seq<TimeWindow>
    requires Windowed(tasks)
  {
    if tasks == [] then []
    else
      FixedSpans(tasks[..|tasks| - 1])
      + if tasks[|tasks| - 1].anchor.Some? then [tasks[|tasks| - 1].window.value] else []
  }

  ghost function SettingFor(inp: Inputs, run: ClusterRun): Setting
    requires Windowed(run.out)
  {
    Setting(Ids(run.out), inp.absent + CoveredWindows(run.covered), inp.horizonEnd, inp.anchor, inp.mandatory,
            FixedSpans(run.out))
  }

  /** The windows of covered commitments, by handle. */
  function CoveredWindows(covered: seq<TaskSpec>): (r: Windows)
    ensures forall id :: id in r ==> exists t :: t in covered && t.id == id && t.window == Some(r[id])
    ensures forall t :: t in covered && t.window.Some? ==> t.id in r
  {
    if covered == [] then map[]
    else
      var t := covered[|covered| - 1];
      var rest := CoveredWindows(covered[..|covered| - 1]);
      if t.window.Some? then rest[t.id := t.window.value] else rest
  }

  /** An edge of a participating Static Task that its fixed time cannot honour. */
  ghost predicate GivenUp(inp: Inputs, t: TaskSpec, d: Id)
  {
    && t.Static() && t.window.Some? && d in t.dependsOn
    && Dropped(inp.windows, inp.mandatory, t.id, t.window.value, d)
  }

  ghost predicate DropsFor(inp: Inputs, drops: set<Drop>)
  {
    forall x :: x in drops <==>
      exists t :: t in inp.bodies + inp.free && t.id == x.task && GivenUp(inp, t, x.dependency)
  }

  ghost predicate BuiltFront(inp: Inputs, st: Stages)
    requires WellFormed(inp)
  {
    && DropsFor(inp, st.drops)
    && |st.dropped| == |inp.bodies|
    && (forall i :: 0 <= i < |st.dropped| ==> EdgesDropped(st.drops, inp.bodies[i], st.dropped[i]))
    && Compiled(st.dropped, inp.rows, inp.accepts, ActiveUnits(inp.containers), st.run.tasks, st.compiled, st.home,
        st.current)
    && Pass(st.run) && Windowed(st.run.out)
  }

  ghost predicate BuiltBack(inp: Inputs, st: Stages)
    requires Windowed(st.run.out)
  {
    && Judged(SettingFor(inp, st.run), st.run.out, st.pushed, st.judged)
    && st.fitting == Filter((t: TaskSpec) => t.id !in st.judged, st.pushed)
    && (exists seats, ends ::
        Seating.Sound(st.fitting, inp.mandatory, FixedSpans(st.run.out), seats, ends, st.unseatable))
    && Seating.GreedyOutcome(st.fitting, inp.mandatory, FixedSpans(st.run.out), st.unseatable)
    && st.seatable == Filter((t: TaskSpec) => t.id !in st.unseatable, st.fitting)
    && LeastClosed(st.seatable, st.judged.Keys + st.unseatable, st.removed)
    && st.planned == Filter((t: TaskSpec) => !Doomed(t, st.removed), st.seatable)
    && |st.pruned| == |st.planned|
    && (forall i :: 0 <= i < |st.pruned| ==> Pruned(Ids(st.planned), st.planned[i], st.pruned[i]))
    && |st.request| == |st.pruned|
    && (forall i :: 0 <= i < |st.request| ==> st.request[i] == Estimated(inp.observed, st.pruned[i]))
  }

  /** A Dynamic Task is planned for the time it was seen to take, where that is known. */
  ghost function Estimated(observed: map<Id, DurationModel>, t: TaskSpec): (r: TaskSpec)
    ensures r.id == t.id && r.anchor == t.anchor && r.window == t.window && r.dependsOn == t.dependsOn
  {
    if t.Static() || t.id !in observed then t
    else t.(duration := PlacementSeconds(observed[t.id]), estimate := Some(observed[t.id]))
  }

  method ApplyObserved(tasks: seq<TaskSpec>, observed: map<Id, DurationModel>) returns (out: seq<TaskSpec>)
    ensures |out| == |tasks| && forall i :: 0 <= i < |out| ==> out[i] == Estimated(observed, tasks[i])
  {
    out := tasks;
    var i := 0;
    while i < |out|
      invariant 0 <= i <= |out| == |tasks|
      invariant forall k :: 0 <= k < i ==> out[k] == Estimated(observed, tasks[k])
      invariant forall k :: i <= k < |out| ==> out[k] == tasks[k]
    {
      var t := out[i];
      if t.anchor.None? && t.id in observed {
        out := out[i := t.(duration := PlacementSeconds(observed[t.id]), estimate := Some(observed[t.id]))];
      }
      i := i + 1;
    }
  }

  ghost predicate Built(inp: Inputs, st: Stages)
  {
    WellFormed(inp) && BuiltFront(inp, st) && BuiltBack(inp, st)
  }

  /** Some sequence of intermediate requests leads to this one. */
  ghost predicate RequestOutcome(inp: Inputs, request: seq<TaskSpec>, covered: seq<TaskSpec>, carriers: Windows,
                                 compiled: map<Id, CompiledSegment>)
  {
    exists st :: Built(inp, st) && st.request == request && st.run.covered == covered && st.run.carriers == carriers
      && st.compiled == compiled
  }

  method Commitments(tasks: seq<TaskSpec>) returns (r: seq<TaskSpec>)
    ensures r == Filter((t: TaskSpec) => t.anchor.Some? && t.window.Some?, tasks)
  {
    r := Filter((t: TaskSpec) => t.anchor.Some? && t.window.Some?, tasks);
  }

  lemma DropsAreGivenUp(inp: Inputs, participating: seq<TaskSpec>, drops: set<Drop>)
    requires participating == Filter((t: TaskSpec) => t.anchor.Some? && t.window.Some?, inp.bodies + inp.free)
    requires forall i :: 0 <= i < |participating| ==> participating[i].window.Some?
    requires forall x :: x in drops <==>
              exists i :: 0 <= i < |participating| && participating[i].id == x.task
                  && x.dependency in participating[i].dependsOn
                && Dropped(inp.windows, inp.mandatory, x.task, participating[i].window.value, x.dependency)
    ensures DropsFor(inp, drops)
  {
    forall x ensures x in drops <==>
        exists t :: t in inp.bodies + inp.free && t.id == x.task && GivenUp(inp, t, x.dependency) {
      if x in drops {
        var i :| 0 <= i < |participating| && participating[i].id == x.task && x.dependency in participating[i].dependsOn
          && Dropped(inp.windows, inp.mandatory, x.task, participating[i].window.value, x.dependency);
        assert participating[i] in participating;
        assert GivenUp(inp, participating[i], x.dependency);
      }
      if t :| t in inp.bodies + inp.free && t.id == x.task && GivenUp(inp, t, x.dependency) {
        assert t in participating;
        var i :| 0 <= i < |participating| && participating[i] == t;
      }
    }
  }

  /** Drop hopeless edges, fuse segments, fuse overlapping commitments. */
  method BuildFront(inp: Inputs) returns (ghost st: Stages, out: seq<TaskSpec>, covered: seq<TaskSpec>,
                                          carriers: Windows, compiled: map<Id, CompiledSegment>)
    requires WellFormed(inp)
    ensures BuiltFront(inp, st)
    ensures out == st.run.out && covered == st.run.covered && carriers == st.run.carriers && compiled == st.compiled
  {
    var participating := Commitments(inp.bodies + inp.free);
    forall i | 0 <= i < |participating|
      ensures participating[i].window.Some? { assert participating[i] in participating; }
    var drops := CollectDrops(participating, inp.windows, inp.mandatory);
    DropsAreGivenUp(inp, participating, drops);
    var dropped := DropEdges(inp.bodies, drops);
    DroppedShape(inp, drops, dropped);
    var tasks;
    ghost var home, current;
    tasks, compiled, home, current := CompileSegments(dropped, inp.containers, inp.rows, inp.accepts);
    CompiledShape(dropped, inp.rows, inp.accepts, ActiveUnits(inp.containers), tasks, compiled, home, current);
    ghost var rep, fused;
    out, covered, carriers, rep, fused := CommittedClusters(tasks);
    ghost var run := ClusterRun(tasks, rep, fused, out, covered, carriers);
    ClusteredShape(run);
    st := Stages(drops, dropped, compiled, home, current, run, map[], [], [], {}, [], {}, [], [], []);
  }

  lemma DroppedShape(inp: Inputs, drops: set<Drop>, dropped: seq<TaskSpec>)
    requires WellFormed(inp) && |dropped| == |inp.bodies|
    requires forall i :: 0 <= i < |dropped| ==> EdgesDropped(drops, inp.bodies[i], dropped[i])
    ensures UniqueIds(dropped) && StaticsAnchored(dropped) && Windowed(dropped)
  {
    forall i, j | 0 <= i < j < |dropped| ensures dropped[i].id != dropped[j].id {
      assert (inp.bodies + inp.free)[i] == inp.bodies[i] && (inp.bodies + inp.free)[j] == inp.bodies[j];
    }
  }

  /** Compilation keeps handles unique and touches no Static Task's window. */
  lemma CompiledShape(tasks: seq<TaskSpec>, rows: Rows, accepts: DurationModel -> bool, units: seq<UnitRef>,
                      out: seq<TaskSpec>, compiled: map<Id, CompiledSegment>, home: Homes, current: seq<TaskSpec>)
    requires Compiled(tasks, rows, accepts, units, out, compiled, home, current)
    requires StaticsAnchored(tasks) && Windowed(tasks)
    ensures UniqueIds(out) && StaticsAnchored(out) && Windowed(out)
  {
    forall i | 0 <= i < |out|
      ensures out[i].window.Some? && (out[i].Static() ==> Anchored(out[i])) && out[i].id == current[i].id
    {
      assert RenamedBy(home, current[i], out[i]);
      assert current[i] in current;
      if current[i].id in compiled {
        assert Unit(rows, compiled[current[i].id].members, current[i]);
      } else {
        assert current[i] in tasks;
      }
    }
  }

  lemma ClusteredShape(run: ClusterRun)
    requires Pass(run) && Windowed(run.tasks)
    ensures Windowed(run.out)
  {
    OutIsCarriers(run);
    forall i | 0 <= i < |run.out| ensures run.out[i].window.Some? {
      assert run.out[i] in run.out;
      var k :| 0 <= k < |run.tasks| && IsCarrier(run.tasks, run.rep, k) && run.fused[k] == run.out[i];
      assert Carries(run.tasks, run.rep, k, run.fused[k]);
    }
  }

  /** Push windows, leave out what cannot be placed, and prune the edges left dangling. */
  method BuildBack(inp: Inputs, ghost front: Stages, out: seq<TaskSpec>, covered: seq<TaskSpec>)
    returns (request: seq<TaskSpec>, ghost st: Stages)
    requires WellFormed(inp) && BuiltFront(inp, front) && out == front.run.out && covered == front.run.covered
    ensures Built(inp, st) && st.request == request
    ensures st.run == front.run && st.compiled == front.compiled
  {
    OutIsCarriers(front.run);
    var fixed := FixedSpans(out);
    var setting := Setting(Ids(out), inp.absent + CoveredWindows(covered), inp.horizonEnd, inp.anchor, inp.mandatory,
                           fixed);
    var fitting, judged, pushed := PushAndExclude(setting, out);
    FittingUnique(setting, out, pushed, judged, fitting);
    var unseatable;
    ghost var seats, ends, picks, states;
    unseatable, seats, ends, picks, states := Seating.UnseatableMandatory(fitting, inp.mandatory, fixed);
    assert Seating.GreedyOutcome(fitting, inp.mandatory, fixed, unseatable);
    var seatable := Filter((t: TaskSpec) => t.id !in unseatable, fitting);
    FilterMultiset((t: TaskSpec) => t.id !in unseatable, fitting);
    UniqueIdsSub(seatable, fitting);
    var planned, removed := ExcludeDependents(seatable, judged.Keys + unseatable);
    var pruned := PruneEdges(planned);
    request := ApplyObserved(pruned, inp.observed);
    st := front.(judged := judged, pushed := pushed, fitting := fitting, unseatable := unseatable, seatable := seatable,
                 removed := removed, planned := planned, pruned := pruned, request := request);
  }

  lemma FittingUnique(setting: Setting, tasks: seq<TaskSpec>, pushed: seq<TaskSpec>, judged: map<Id, Reason>,
                      fitting: seq<TaskSpec>)
    requires UniqueIds(tasks) && Judged(setting, tasks, pushed, judged)
    requires fitting == Filter((t: TaskSpec) => t.id !in judged, pushed)
    ensures UniqueIds(pushed) && UniqueIds(fitting)
  {
    forall i, j | 0 <= i < j < |pushed| ensures pushed[i].id != pushed[j].id {
      assert JudgedOne(setting, tasks[i], pushed[i], judged) && JudgedOne(setting, tasks[j], pushed[j], judged);
    }
    FilterMultiset((t: TaskSpec) => t.id !in judged, pushed);
    UniqueIdsSub(fitting, pushed);
  }

  /** The whole compilation of one planning request. */
  method BuildRequest(inp: Inputs)
    returns (request: seq<TaskSpec>, covered: seq<TaskSpec>, carriers: Windows, compiled: map<Id, CompiledSegment>,
        ghost st: Stages)
    requires WellFormed(inp)
    ensures Built(inp, st)
    ensures request == st.request && covered == st.run.covered && carriers == st.run.carriers && compiled == st.compiled
    ensures RequestOutcome(inp, request, covered, carriers, compiled)
  {
    ghost var front;
    var out;
    front, out, covered, carriers, compiled := BuildFront(inp);
    request, st := BuildBack(inp, front, out, covered);
  }
}
