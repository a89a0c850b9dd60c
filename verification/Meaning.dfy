/** Planning the compiled request and expanding the answer plans the original Tasks. */
module Meaning {
  import opened Basics
  import opened Spans
  import opened Tasks
  import opened Segments
  import opened Compile
  import opened Clusters
  import opened ClusterFacts
  import opened Exclusion
  import opened Pipeline
  import opened Origins
  import opened Expand

  // ----- the kernel, as far as the orchestrator relies on it -----

  ghost predicate StepFits(r: TaskSpec, s: Step)
  {
    && s.id == r.id
    && s.end == s.start + r.Placement()
    && (if r.Static() then s.start == r.anchor.value
        else r.window.Some? && Inside(Span(s), r.window.value))
  }

  /** A schedule the kernel may return: anchors honoured, windows kept, no overlap, edges respected. */
  ghost predicate ValidSchedule(request: seq<TaskSpec>, steps: seq<Step>)
  {
    && UniqueSteps(steps)
    && (forall s :: s in steps ==> exists r :: r in request && StepFits(r, s))
    && (forall r :: r in request && r.Static() ==> exists s :: s in steps && s.id == r.id)
    && (forall s, t :: s in steps && t in steps && s.id != t.id ==> !Overlap(Span(s), Span(t)))
    && (forall r, s, t :: r in request && s in steps && t in steps && s.id == r.id && t.id in r.dependsOn ==>
        t.end <= s.start)
  }

  // ----- the steps of the plan -----

  /** A step taken from the kernel as it is, or with a carrier's own window restored. */
  ghost predicate FromKernel(st: Stages, s: Step, x: Step)
  {
    s.id !in st.compiled && x == RestoredStep(st.run.carriers, s)
  }

  /** Child `i` of the unit the kernel placed as `s`. */
  ghost predicate FromUnit(st: Stages, s: Step, i: nat, x: Step)
  {
    && s.id in st.compiled && i < |st.compiled[s.id].members|
    && ChildStep(RestoredStep(st.run.carriers, s), st.compiled[s.id].members, i, x)
  }

  ghost predicate FromDirect(inp: Inputs, st: Stages, t: TaskSpec, x: Step)
  {
    (t in inp.free && DirectStep(t, false, x)) || (t in st.run.covered && DirectStep(t, true, x))
  }

  /** `x` is a step of the expanded plan. */
  ghost predicate Appears(inp: Inputs, st: Stages, steps: seq<Step>, x: Step)
  {
    || (exists s :: s in steps && FromKernel(st, s, x))
    || (exists s, i: nat :: s in steps && FromUnit(st, s, i, x))
    || (exists t :: FromDirect(inp, st, t, x))
  }

  /** Which of the three ways a step entered the plan. */
  datatype Source = Kernel(step: Step) | Child(unit: Step, index: nat) | Direct(task: TaskSpec)

  lemma SourceOf(inp: Inputs, st: Stages, steps: seq<Step>, x: Step) returns (source: Source)
    requires Appears(inp, st, steps, x)
    ensures match source
            case Kernel(s) => s in steps && FromKernel(st, s, x)
            case Child(s, i) => s in steps && FromUnit(st, s, i, x)
            case Direct(t) => FromDirect(inp, st, t, x)
  {
    if s :| s in steps && FromKernel(st, s, x) {
      source := Kernel(s);
    } else if s, i: nat :| s in steps && FromUnit(st, s, i, x) {
      source := Child(s, i);
    } else {
      var t :| FromDirect(inp, st, t, x);
      source := Direct(t);
    }
  }

  ghost predicate Planned(inp: Inputs, st: Stages, steps: seq<Step>)
  {
    Built(inp, st) && ValidSchedule(st.request, steps)
  }

  // ----- where a step of a Dynamic Task comes from -----

  /** The kernel's step under which a Task ran: its own, or its carrier's. */
  lemma RanUnder(inp: Inputs, st: Stages, steps: seq<Step>, t: TaskSpec, x: Step)
    returns (s: Step, r: TaskSpec, o: TaskSpec, c: TaskSpec)
    requires Planned(inp, st, steps) && t in inp.bodies && !t.Static()
    requires Appears(inp, st, steps, x) && x.id == t.id
    ensures s in steps && r in st.request && StepFits(r, s) && s.id == StandsFor(st.home, t.id)
    ensures Descends(inp, st, o, r) && !o.Static()
    ensures c in st.current && RenamedBy(st.home, c, o)
    ensures if t.id in st.home then exists i: nat :: FromUnit(st, s, i, x) && st.compiled[s.id].members[i] == t
            else x == s && c == t
  {
    var source := SourceOf(inp, st, steps, x);
    match source {
      case Kernel(k) =>
        s := k;
        r, o := StepOrigin(inp, st, steps, s);
        KernelStepOwn(inp, st, steps, t, x, s, r, o);
        c := DynamicSource(inp, st, o);
        UnfusedSelf(inp, st, t, c);
      case Child(k, i) =>
        s := k;
        r, o := StepOrigin(inp, st, steps, s);
        UnitStepOwn(inp, st, t, x, s, i);
        CarrierIsDynamic(inp, st, o);
        c := DynamicSource(inp, st, o);
      case Direct(u) =>
        DirectIsStatic(inp, st, u, x, t);
        assert false;
    }
  }

  lemma StepOrigin(inp: Inputs, st: Stages, steps: seq<Step>, s: Step) returns (r: TaskSpec, o: TaskSpec)
    requires Planned(inp, st, steps) && s in steps
    ensures r in st.request && StepFits(r, s) && Descends(inp, st, o, r) && o.id == s.id
  {
    r :| r in st.request && StepFits(r, s);
    o := RequestSource(inp, st, r);
  }

  /** A commitment in the clustered request is a participating Static Task. */
  lemma CommitmentSource(inp: Inputs, st: Stages, o: TaskSpec) returns (t: TaskSpec)
    requires Built(inp, st) && o in st.run.out && o.Static()
    ensures t in inp.bodies && t.Static() && t.id == o.id && t.window.Some? && Restored(st.run.carriers, o) == t.window
    ensures o.window.Some? && Inside(t.window.value, o.window.value) && Anchored(o) && o.id !in st.compiled
  {
    OutIsCarriers(st.run);
    var k :| 0 <= k < |st.run.tasks| && IsCarrier(st.run.tasks, st.run.rep, k) && st.run.fused[k] == o;
    FusedKeepsId(st.run, k);
    FusedSpan(st.run, k, k);
    CarrierRestores(st.run, k);
    t := StaticSource(inp, st, k);
    CarriersAreHome(st.dropped, inp.rows, st.current, st.compiled, st.home);
  }

  lemma KernelStepOwn(inp: Inputs, st: Stages, steps: seq<Step>, t: TaskSpec, x: Step, s: Step, r: TaskSpec,
                      o: TaskSpec)
    requires Planned(inp, st, steps) && t in inp.bodies && !t.Static()
    requires s in steps && FromKernel(st, s, x) && x.id == t.id
    requires r in st.request && StepFits(r, s) && Descends(inp, st, o, r)
    ensures !o.Static() && s.id == t.id && x == s && t.id !in st.home
  {
    if o.Static() {
      var q := CommitmentSource(inp, st, o);
      BodiesUnique(inp, q, t);
    }
    var c := DynamicSource(inp, st, o);
    if t.id in st.home {
      CurrentNotFused(inp, st, c);
    }
  }

  lemma CurrentNotFused(inp: Inputs, st: Stages, c: TaskSpec)
    requires Built(inp, st) && c in st.current && c.id !in st.compiled
    ensures c.id !in st.home
  {
  }

  lemma UnfusedSelf(inp: Inputs, st: Stages, t: TaskSpec, c: TaskSpec)
    requires Built(inp, st) && t in inp.bodies && !t.Static() && c in st.current && c.id == t.id && t.id !in st.home
    ensures c == t
  {
    CarriersAreHome(st.dropped, inp.rows, st.current, st.compiled, st.home);
    var u := DroppedSource(inp, st, c);
    BodiesUnique(inp, u, t);
  }

  lemma UnitStepOwn(inp: Inputs, st: Stages, t: TaskSpec, x: Step, s: Step, i: nat)
    requires Built(inp, st) && t in inp.bodies && !t.Static() && FromUnit(st, s, i, x) && x.id == t.id
    ensures st.compiled[s.id].members[i] == t && t.id in st.home && st.home[t.id] == s.id
  {
    var segment := st.compiled[s.id];
    assert SegmentOf(st.dropped, st.home, s.id, segment);
    var u := DroppedSource(inp, st, segment.members[i]);
    BodiesUnique(inp, u, t);
  }

  lemma CarrierIsDynamic(inp: Inputs, st: Stages, o: TaskSpec)
    requires Built(inp, st) && o in st.run.out && o.id in st.compiled
    ensures !o.Static()
  {
    if o.Static() {
      var t := CommitmentSource(inp, st, o);
    }
  }

  lemma DirectIsStatic(inp: Inputs, st: Stages, u: TaskSpec, x: Step, t: TaskSpec)
    requires Built(inp, st) && FromDirect(inp, st, u, x) && (t in inp.bodies || t in inp.free) && x.id == t.id
    ensures t.Static() && t.window.Some? && Span(x) == t.window.value
  {
    if u in inp.free {
      BodiesUnique(inp, u, t);
      var i :| 0 <= i < |inp.free| && inp.free[i] == u;
      assert FreeStatic(inp, inp.free[i]);
    } else {
      var q := CoveredSource(inp, st, u);
      BodiesUnique(inp, q, t);
    }
  }

  lemma CoveredSource(inp: Inputs, st: Stages, u: TaskSpec) returns (t: TaskSpec)
    requires Built(inp, st) && u in st.run.covered
    ensures t in inp.bodies && t.Static() && t.id == u.id && t.window == u.window && u.window.Some?
  {
    var k :| 0 <= k < |st.run.tasks| && !IsCarrier(st.run.tasks, st.run.rep, k) && st.run.tasks[k] == u;
    if !st.run.tasks[k].Static() { DynamicUntouched(st.run, k); }
    t := StaticSource(inp, st, k);
  }
}
