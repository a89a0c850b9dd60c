/** Edges of commitments to work: what a commitment waits for is done before it starts, even when it is fused. */
module CommitmentEdges {
  import opened Basics
  import opened Spans
  import opened Tasks
  import opened Segments
  import opened Compile
  import opened Clusters
  import opened ClusterFacts
  import opened StaticEdges
  import opened Exclusion
  import opened Pipeline
  import opened Origins
  import opened Expand
  import opened Meaning
  import opened Preservation
  import ClusterLimits

  // ----- what is left of a wait after dropping and fusing -----

  /** The Task waits for `d`, and the fixed times do not rule that out. */
  ghost predicate WaitsOn(inp: Inputs, a: Id, d: Id)
  {
    exists t :: t in inp.bodies && t.id == a && d in t.dependsOn && !GivenUp(inp, t, d)
  }

  /** What the first pass leaves of a Task still has every wait that is not given up. */
  lemma WaitLeft(inp: Inputs, st: Stages, a: Id, d: Id) returns (u: TaskSpec)
    requires Built(inp, st) && WaitsOn(inp, a, d)
    ensures u in st.dropped && u.id == a && d in u.dependsOn
  {
    var t :| t in inp.bodies && t.id == a && d in t.dependsOn && !GivenUp(inp, t, d);
    NotDropped(inp, st, t, d);
    u := EdgeLeft(st.drops, inp.bodies, st.dropped, t, d);
  }

  lemma EdgeLeft(drops: set<Drop>, bodies: seq<TaskSpec>, dropped: seq<TaskSpec>, t: TaskSpec, d: Id)
    returns (u: TaskSpec)
    requires |dropped| == |bodies| && forall i :: 0 <= i < |dropped| ==> EdgesDropped(drops, bodies[i], dropped[i])
    requires t in bodies && d in t.dependsOn && Drop(t.id, d) !in drops
    ensures u in dropped && u.id == t.id && d in u.dependsOn
  {
    var i :| 0 <= i < |bodies| && bodies[i] == t;
    assert EdgesDropped(drops, bodies[i], dropped[i]);
    u := dropped[i];
  }

  lemma NotDropped(inp: Inputs, st: Stages, t: TaskSpec, d: Id)
    requires Built(inp, st) && t in inp.bodies && !GivenUp(inp, t, d)
    ensures Drop(t.id, d) !in st.drops
  {
    var x := Drop(t.id, d);
    forall u | u in inp.bodies + inp.free && u.id == x.task ensures !GivenUp(inp, u, x.dependency) {
      UniqueIdsSame(inp.bodies + inp.free, u, t);
    }
  }

  /** The compiled Task `k` that stands for `u` waits for whoever stands for `d`. */
  lemma CompiledEdge(inp: Inputs, st: Stages, u: TaskSpec, d: Id, k: nat)
    requires Built(inp, st) && u in st.dropped && d in u.dependsOn
    requires k < |st.run.tasks| && st.run.tasks[k].id == StandsFor(st.home, u.id) != StandsFor(st.home, d)
    ensures StandsFor(st.home, d) in st.run.tasks[k].dependsOn
  {
    DroppedShape(inp, st.drops, st.dropped);
    EdgeKept(st.dropped, inp.rows, inp.accepts, ActiveUnits(inp.containers), st.run.tasks, st.compiled, st.home,
        st.current, u, d);
    OnlyEdge(st.run.tasks, st.run.tasks[k], StandsFor(st.home, d));
  }

  /** What a member of a group waits for outside the group, its span waits for. */
  lemma InheritedEdge(run: ClusterRun, c: nat, k: nat, n: nat)
    requires Pass(run) && IsCarrier(run.tasks, run.rep, c) && k < |run.tasks| && n < |run.tasks|
    requires run.rep[c] == run.rep[k] && run.rep[n] != run.rep[k] && run.tasks[n].id in run.tasks[k].dependsOn
    ensures run.tasks[n].id in run.fused[c].dependsOn
  {
    assert Carries(run.tasks, run.rep, c, run.fused[c]);
    if !Alone(run.rep, c) {
      ClusterLimits.GroupNeedsIt(run.tasks, run.rep, c, k, n);
    }
  }

  // ----- a commitment that waits for work -----

  /** No edge to work is given up, since only commitments have known windows. */
  lemma WorkNotGivenUp(inp: Inputs, q: TaskSpec, u: TaskSpec)
    requires WellFormed(inp) && u in inp.bodies && !u.Static()
    ensures !GivenUp(inp, q, u.id)
  {
    var i :| 0 <= i < |inp.bodies| && inp.bodies[i] == u;
  }

  /** The span that reserves a commitment's time waits for whoever stands for the work it waits for. */
  lemma SpanWaits(inp: Inputs, st: Stages, q: TaskSpec, u: TaskSpec) returns (o: TaskSpec)
    requires Built(inp, st) && q in inp.bodies && q.Static() && u in inp.bodies && !u.Static() && u.id in q.dependsOn
    ensures o in st.run.out && o.Static() && StandsFor(st.home, u.id) in o.dependsOn
    ensures q.window.Some? && o.window.Some? && o.window.value.start <= q.window.value.start
  {
    var k := StaticStays(inp, st, q);
    CommitmentWaits(inp, st, q, u, k);
    var n := WorkStays(inp, st, u);
    DynamicUntouched(st.run, n);
    var c := GroupHasCarrier(st.run.tasks, st.run.rep, k);
    if c != k { GroupedIsStatic(st.run.tasks, st.run.rep, c, k); }
    SpanOfMember(st.run, c, k, n);
    o := st.run.fused[c];
  }

  lemma SpanOfMember(run: ClusterRun, c: nat, k: nat, n: nat)
    requires Pass(run) && IsCarrier(run.tasks, run.rep, c) && k < |run.tasks| && run.rep[k] == run.rep[c]
    requires run.tasks[c].Static() && run.tasks[k].Static()
    requires n < |run.tasks| && !run.tasks[n].Static() && Alone(run.rep, n) && run.tasks[n].id in run.tasks[k].dependsOn
    ensures run.fused[c] in run.out && run.fused[c].Static() && run.tasks[n].id in run.fused[c].dependsOn
    ensures run.tasks[k].window.Some? && run.fused[c].window.Some?
    ensures StartOf(run.fused[c]) <= StartOf(run.tasks[k])
  {
    OutIsCarriers(run);
    FusedKeepsId(run, c);
    FusedSpan(run, c, k);
    InheritedEdge(run, c, k, n);
  }

  lemma CommitmentWaits(inp: Inputs, st: Stages, q: TaskSpec, u: TaskSpec, k: nat)
    requires Built(inp, st) && q in inp.bodies && q.Static() && u in inp.bodies && !u.Static() && u.id in q.dependsOn
    requires k < |st.run.tasks| && st.run.tasks[k].id == q.id
    ensures StandsFor(st.home, u.id) in st.run.tasks[k].dependsOn
  {
    WorkNotGivenUp(inp, q, u);
    var left := WaitLeft(inp, st, q.id, u.id);
    StaticsStayHome(inp, st, q);
    assert q.id != u.id by { if q.id == u.id { BodiesUnique(inp, q, u); } }
    StandsApart(inp, st, q, u);
    CompiledEdge(inp, st, left, u.id, k);
  }

  lemma StandsApart(inp: Inputs, st: Stages, q: TaskSpec, u: TaskSpec)
    requires Built(inp, st) && q.id !in st.home && q.id != u.id
    ensures StandsFor(st.home, u.id) != StandsFor(st.home, q.id)
  {
    CarriersAreHome(st.dropped, inp.rows, st.current, st.compiled, st.home);
    if u.id in st.home { assert st.home[u.id] in st.compiled; }
  }

  /** The compiled Task that stands for work is Dynamic. */
  lemma WorkStays(inp: Inputs, st: Stages, u: TaskSpec) returns (n: nat)
    requires Built(inp, st) && u in inp.bodies && !u.Static()
    ensures n < |st.run.tasks| && st.run.tasks[n].id == StandsFor(st.home, u.id) && !st.run.tasks[n].Static()
  {
    StillThere(inp, st, u);
    IdIn(st.dropped, u);
    StandInIsSettled(st.dropped, inp.rows, st.current, st.compiled, st.home, u.id);
    n :| 0 <= n < |st.current| && st.current[n].id == StandsFor(st.home, u.id);
    assert RenamedBy(st.home, st.current[n], st.run.tasks[n]);
    HeadIsDynamic(inp, st, u, st.current[n]);
  }

  lemma HeadIsDynamic(inp: Inputs, st: Stages, u: TaskSpec, c: TaskSpec)
    requires Built(inp, st) && u in inp.bodies && !u.Static() && c in st.current && c.id == StandsFor(st.home, u.id)
    ensures !c.Static()
  {
    if u.id in st.home {
      assert st.home[u.id] in st.compiled;
      assert Unit(inp.rows, st.compiled[c.id].members, c);
    } else {
      UnfusedSelf(inp, st, u, c);
    }
  }

  /** A commitment that occupies capacity starts after all planned work it waits for, fused or covered or not. */
  lemma CommitmentAfterWork(inp: Inputs, st: Stages, steps: seq<Step>, q: TaskSpec, u: TaskSpec, y: Step)
    requires Planned(inp, st, steps) && q in inp.bodies && q.Static() && u in inp.bodies && !u.Static()
    requires u.id in q.dependsOn && Appears(inp, st, steps, y) && y.id == u.id
    ensures q.window.Some? && y.end <= q.window.value.start
  {
    var s, r, p := InsideItsStep(inp, st, steps, u, y);
    var o := SpanWaits(inp, st, q, u);
    SpanAfterStep(inp, st, steps, s, r, o);
  }

  lemma SpanAfterStep(inp: Inputs, st: Stages, steps: seq<Step>, s: Step, r: TaskSpec, o: TaskSpec)
    requires Planned(inp, st, steps) && s in steps && r in st.request && r.id == s.id
    requires o in st.run.out && o.Static() && s.id in o.dependsOn
    ensures o.window.Some? && s.end <= o.window.value.start
  {
    var s', r' := CommitmentStep(inp, st, steps, o);
    var r'' := CommitmentRequested(inp, st, o);
    RequestedOnce(inp, st, r', r'');
    IdIn(st.request, r);
    assert s.id in r'.dependsOn;
    assert s.end <= s'.start;
  }
}
