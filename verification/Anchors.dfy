/** The kernel is never handed an anchor it would refuse. */
module Anchors {
  import opened Basics
  import opened Sorting
  import opened Spans
  import opened Tasks
  import opened Segments
  import opened Compile
  import opened Clusters
  import opened ClusterFacts
  import opened StaticEdges
  import opened Exclusion
  import opened Pipeline
  import opened Origins

  /** If one member of a group ends by the time a member of another starts, so do their spans. */
  lemma SpansFollowMembers(run: ClusterRun, a: nat, b: nat, m: nat, n: nat)
    requires Pass(run) && IsCarrier(run.tasks, run.rep, a) && IsCarrier(run.tasks, run.rep, b) && a != b
    requires run.tasks[a].Static() && run.tasks[b].Static()
    requires m < |run.tasks| && n < |run.tasks| && run.rep[m] == run.rep[a] && run.rep[n] == run.rep[b]
    requires EndOf(run.tasks[m]) <= StartOf(run.tasks[n])
    ensures EndOf(run.fused[a]) <= StartOf(run.fused[b])
  {
    FusedSpan(run, a, m);
    FusedSpan(run, b, n);
    FusedSpansDisjoint(run, a, b);
  }

  /** An edge of a fused span was an edge of one of its members, to a Task outside the group. */
  lemma FusedEdge(run: ClusterRun, k: nat, d: Id) returns (m: nat)
    requires Pass(run) && IsCarrier(run.tasks, run.rep, k) && d in run.fused[k].dependsOn
    ensures m < |run.tasks| && run.rep[m] == run.rep[k] && d in run.tasks[m].dependsOn
    ensures m == k || d !in GroupIds(run.tasks, run.rep, k)
  {
    assert Carries(run.tasks, run.rep, k, run.fused[k]);
    if Alone(run.rep, k) {
      m := k;
    } else {
      assert d in Elements(run.fused[k].dependsOn);
      assert d in GroupNeeds(run.tasks, run.rep, k);
      m :| 0 <= m < |run.tasks| && run.rep[m] == run.rep[k] && d in run.tasks[m].dependsOn;
    }
  }

  /** What survives the first pass between two commitments either holds or joins them in one span. */
  lemma SurvivingEdgeHolds(inp: Inputs, st: Stages, m: nat, n: nat)
    requires Built(inp, st) && m < |st.run.tasks| && n < |st.run.tasks|
    requires st.run.tasks[m].Static() && st.run.tasks[n].Static()
    requires st.run.tasks[n].id in st.run.tasks[m].dependsOn
    ensures m != n
    ensures EndOf(st.run.tasks[n]) <= StartOf(st.run.tasks[m]) || st.run.rep[m] == st.run.rep[n]
  {
    var d := st.run.tasks[n].id;
    var t, q := SurvivingEdge(inp, st, m, n);
    if EndOf(st.run.tasks[n]) > StartOf(st.run.tasks[m]) {
      NestedIsTouching(st.run, m, n);
    }
  }

  lemma NestedIsTouching(run: ClusterRun, m: nat, n: nat)
    requires Pass(run) && m < |run.tasks| && n < |run.tasks| && run.tasks[m].Static() && run.tasks[n].Static()
    requires run.tasks[m].window.Some? && run.tasks[n].window.Some?
    requires Nested(run.tasks[m].window.value, run.tasks[n].window.value)
    ensures run.rep[m] == run.rep[n]
  {
    assert Anchored(run.tasks[m]) && Anchored(run.tasks[n]);
    assert Touch(run.tasks, m, n);
    TouchIsGrouped(run.tasks, run.rep, m, n);
  }

  lemma SurvivingEdge(inp: Inputs, st: Stages, m: nat, n: nat) returns (t: TaskSpec, q: TaskSpec)
    requires Built(inp, st) && m < |st.run.tasks| && n < |st.run.tasks|
    requires st.run.tasks[m].Static() && st.run.tasks[n].Static()
    requires st.run.tasks[n].id in st.run.tasks[m].dependsOn
    ensures t.window == st.run.tasks[m].window && q.window == st.run.tasks[n].window && m != n
    ensures t.window.Some? && q.window.Some?
    ensures q.window.value.end <= t.window.value.start || Nested(t.window.value, q.window.value)
  {
    t := StaticSource(inp, st, m);
    q := StaticSource(inp, st, n);
    StaticsStayHome(inp, st, q);
    RenamedOnlyStatics(inp, st, m, q.id);
    NotGivenUp(inp, st, t, q.id);
    WindowIsKnown(inp, q);
    KeptMeans(inp.windows, inp.mandatory, t, q);
  }

  lemma KeptMeans(windows: Windows, mandatory: set<Id>, t: TaskSpec, q: TaskSpec)
    requires t.window.Some? && KnownWindow(windows, q) && !Dropped(windows, mandatory, t.id, t.window.value, q.id)
    ensures q.window.Some?
    ensures q.window.value.end <= t.window.value.start || Nested(t.window.value, q.window.value)
  {
  }

  lemma WindowIsKnown(inp: Inputs, t: TaskSpec)
    requires WellFormed(inp) && t in inp.bodies && t.Static()
    ensures KnownWindow(inp.windows, t)
  {
    var i :| 0 <= i < |inp.bodies| && inp.bodies[i] == t;
  }

  /** An edge that names a Static Task already named it before renaming. */
  lemma RenamedOnlyStatics(inp: Inputs, st: Stages, m: nat, d: Id)
    requires Built(inp, st) && m < |st.run.tasks| && d in st.run.tasks[m].dependsOn && d !in st.home
    ensures d in st.current[m].dependsOn && d != st.run.tasks[m].id
  {
    assert RenamedBy(st.home, st.current[m], st.run.tasks[m]);
    assert d in Elements(st.run.tasks[m].dependsOn);
    var e :| e in st.current[m].dependsOn && StandsFor(st.home, e) == d;
    if e in st.home {
      CarriersAreHome(st.dropped, inp.rows, st.current, st.compiled, st.home);
    }
  }

  lemma NotGivenUp(inp: Inputs, st: Stages, t: TaskSpec, d: Id)
    requires Built(inp, st) && t in inp.bodies && t.Static() && d in t.dependsOn && Drop(t.id, d) !in st.drops
    ensures t.window.Some? && !Dropped(inp.windows, inp.mandatory, t.id, t.window.value, d)
  {
    var x := Drop(t.id, d);
    assert t in inp.bodies + inp.free && t.id == x.task && x.dependency == d;
    var i :| 0 <= i < |inp.bodies| && inp.bodies[i] == t;
    var up := GivenUp(inp, t, x.dependency);
  }

  /** Every edge left between two commitments holds between their reserved spans. */
  lemma AnchorsHold(inp: Inputs, st: Stages, r: TaskSpec, q: TaskSpec)
    requires Built(inp, st) && r in st.request && q in st.request && r.Static() && q.Static()
    requires q.id in r.dependsOn
    ensures q.window.Some? && r.anchor.Some? && q.window.value.end <= r.anchor.value
  {
    var k := SpanIndex(inp, st, r);
    var n := SpanIndex(inp, st, q);
    var m := FusedEdge(st.run, k, q.id);
    EdgeBetweenSpans(inp, st, k, m, n);
  }

  /** Where the span behind a commitment of the request stands. */
  lemma SpanIndex(inp: Inputs, st: Stages, r: TaskSpec) returns (k: nat)
    requires Built(inp, st) && r in st.request && r.Static()
    ensures IsCarrier(st.run.tasks, st.run.rep, k) && st.run.tasks[k].Static() && st.run.tasks[k].id == r.id
    ensures r.window == st.run.fused[k].window && r.window.Some? && r.anchor == Some(r.window.value.start)
    ensures forall d :: d in r.dependsOn ==> d in st.run.fused[k].dependsOn
  {
    var o := RequestSource(inp, st, r);
    OutIsCarriers(st.run);
    k :| 0 <= k < |st.run.tasks| && IsCarrier(st.run.tasks, st.run.rep, k) && st.run.fused[k] == o;
    FusedKeepsId(st.run, k);
    FusedSpan(st.run, k, k);
    StaysPut(SettingFor(inp, st.run), inp.observed, o, r);
  }

  /** Pushing and estimating leave a commitment as it is. */
  lemma StaysPut(setting: Setting, observed: map<Id, DurationModel>, o: TaskSpec, q: TaskSpec)
    requires o.Static() && Anchored(o)
    requires q == Estimated(observed, o).(window := q.window, dependsOn := q.dependsOn)
    requires Pushed(setting, o, o.(window := q.window))
    ensures q.window == o.window && Anchored(q)
  {
    assert o == o.(window := q.window);
    assert o.(window := q.window).window == q.window;
  }

  lemma EdgeBetweenSpans(inp: Inputs, st: Stages, k: nat, m: nat, n: nat)
    requires Built(inp, st) && IsCarrier(st.run.tasks, st.run.rep, k) && IsCarrier(st.run.tasks, st.run.rep, n)
    requires st.run.tasks[k].Static() && st.run.tasks[n].Static()
    requires m < |st.run.tasks| && st.run.rep[m] == st.run.rep[k] && st.run.tasks[n].id in st.run.tasks[m].dependsOn
    requires m == k || st.run.tasks[n].id !in GroupIds(st.run.tasks, st.run.rep, k)
    ensures EndOf(st.run.fused[n]) <= StartOf(st.run.fused[k])
  {
    FusedSpan(st.run, k, m);
    SurvivingEdgeHolds(inp, st, m, n);
    DifferentGroups(inp, st, k, m, n);
    SpansFollowMembers(st.run, n, k, n, m);
  }

  lemma DifferentGroups(inp: Inputs, st: Stages, k: nat, m: nat, n: nat)
    requires Built(inp, st) && IsCarrier(st.run.tasks, st.run.rep, k) && IsCarrier(st.run.tasks, st.run.rep, n)
    requires m < |st.run.tasks| && st.run.rep[m] == st.run.rep[k] && m != n
    requires m == k || st.run.tasks[n].id !in GroupIds(st.run.tasks, st.run.rep, k)
    ensures k != n && st.run.rep[m] != st.run.rep[n]
  {
    if st.run.rep[n] == st.run.rep[k] {
      CarrierUnique(st.run.tasks, st.run.rep, k, n);
    }
  }
}
