/** When a due date is kept: only fusing reads it, so for other Tasks it depends on where they may be placed. */
module DueDates {
  import opened Basics
  import opened Spans
  import opened Tasks
  import opened Segments
  import opened Compile
  import opened Clusters
  import opened ClusterFacts
  import opened Exclusion
  import opened Dependents
  import opened Pipeline
  import opened Origins
  import opened Expand
  import opened Meaning
  import opened Preservation
  import opened Schedules

  /** In every valid schedule the Task has ended by `due`. */
  ghost predicate AlwaysDoneBy(inp: Inputs, st: Stages, t: TaskSpec, due: nat)
  {
    forall steps, x :: Planned(inp, st, steps) && Appears(inp, st, steps, x) && x.id == t.id ==> x.end <= due
  }

  /** No placement beside the commitments ends after `due`. */
  ghost predicate NoRoomAfter(st: Stages, r: TaskSpec, due: nat)
    requires r.window.Some? && Windowed(st.run.out)
  {
    forall s: nat :: Placed(st.request, FixedSpans(st.run.out), r, s) ==> s + r.Placement() <= due
  }

  /**
   * A Dynamic Task outside every compiled segment keeps its due date in every valid schedule exactly when
   * none of its placements ends later: in its pushed window, clear of every reserved span, after the
   * commitments it waits for and before those that wait for it.
   */
  lemma DueKeptExactly(inp: Inputs, st: Stages, t: TaskSpec, r: TaskSpec, due: nat)
    requires Built(inp, st) && t in inp.bodies && !t.Static() && t.id !in st.home
    requires r in st.request && r.id == t.id
    ensures r.window.Some? && (AlwaysDoneBy(inp, st, t, due) <==> NoRoomAfter(st, r, due))
  {
    var o := UnfusedRequested(inp, st, t, r);
    if NoRoomAfter(st, r, due) {
      RoomDecides(inp, st, t, r, due);
    }
    if AlwaysDoneBy(inp, st, t, due) {
      forall s: nat | Placed(st.request, FixedSpans(st.run.out), r, s) ensures s + r.Placement() <= due {
        PlacementInTime(inp, st, t, r, o, s, due);
      }
    }
  }

  lemma RoomDecides(inp: Inputs, st: Stages, t: TaskSpec, r: TaskSpec, due: nat)
    requires Built(inp, st) && t in inp.bodies && !t.Static() && t.id !in st.home
    requires r in st.request && !r.Static() && r.window.Some? && r.id == t.id && NoRoomAfter(st, r, due)
    ensures AlwaysDoneBy(inp, st, t, due)
  {
    forall steps, x | Planned(inp, st, steps) && Appears(inp, st, steps, x) && x.id == t.id ensures x.end <= due {
      OwnPlacement(inp, st, steps, t, r, x);
    }
  }

  lemma PlacementInTime(inp: Inputs, st: Stages, t: TaskSpec, r: TaskSpec, o: TaskSpec, s: nat, due: nat)
    requires Built(inp, st) && r in st.request && !r.Static() && r.window.Some? && r.id == t.id
    requires Descends(inp, st, o, r) && o.id !in st.run.carriers && o.id !in st.compiled
    requires Placed(st.request, FixedSpans(st.run.out), r, s) && AlwaysDoneBy(inp, st, t, due)
    ensures s + r.Placement() <= due
  {
    var steps, x := PlacementAppears(inp, st, t, r, o, s);
  }

  /** The Task of the request that stands for an unfused Dynamic Task is Dynamic. */
  lemma UnfusedRequested(inp: Inputs, st: Stages, t: TaskSpec, r: TaskSpec) returns (o: TaskSpec)
    requires Built(inp, st) && t in inp.bodies && !t.Static() && t.id !in st.home
    requires r in st.request && r.id == t.id
    ensures Descends(inp, st, o, r) && !o.Static() && !r.Static() && r.window.Some?
    ensures o.id !in st.run.carriers && o.id !in st.compiled
  {
    o := RequestSource(inp, st, r);
    CarriersAreHome(st.dropped, inp.rows, st.current, st.compiled, st.home);
    OwnIsDynamic(inp, st, t, o);
    var c := DynamicSource(inp, st, o);
  }

  lemma OwnIsDynamic(inp: Inputs, st: Stages, t: TaskSpec, o: TaskSpec)
    requires Built(inp, st) && t in inp.bodies && !t.Static() && o in st.run.out && o.id == t.id
    ensures !o.Static()
  {
    if o.Static() {
      var q := CommitmentSource(inp, st, o);
      BodiesUnique(inp, q, t);
    }
  }

  /** Whatever step shows the Task, it is one of the Task's placements. */
  lemma OwnPlacement(inp: Inputs, st: Stages, steps: seq<Step>, t: TaskSpec, r: TaskSpec, x: Step)
    requires Planned(inp, st, steps) && t in inp.bodies && !t.Static() && t.id !in st.home
    requires r in st.request && !r.Static() && r.id == t.id
    requires Appears(inp, st, steps, x) && x.id == t.id
    ensures r.window.Some? && Placed(st.request, FixedSpans(st.run.out), r, x.start)
    ensures x.end == x.start + r.Placement()
  {
    var s, r', o, c := RanUnder(inp, st, steps, t, x);
    RequestedOnce(inp, st, r, r');
    ScheduledIsPlaced(inp, st, steps, r, x);
  }

  /** Wherever the Task is placed, some valid schedule shows it there. */
  lemma PlacementAppears(inp: Inputs, st: Stages, t: TaskSpec, r: TaskSpec, o: TaskSpec, s: nat)
    returns (steps: seq<Step>, x: Step)
    requires Built(inp, st) && r in st.request && !r.Static() && r.window.Some? && r.id == t.id
    requires Descends(inp, st, o, r) && o.id !in st.run.carriers && o.id !in st.compiled
    requires Placed(st.request, FixedSpans(st.run.out), r, s)
    ensures Planned(inp, st, steps) && Appears(inp, st, steps, x)
    ensures x.id == t.id && x.end == s + r.Placement()
  {
    steps, x := PlacedIsScheduled(inp, st, r, s);
    assert FromKernel(st, x, x);
  }

  /** A window that ends by the due date keeps it. */
  lemma DueKeptByWindow(inp: Inputs, st: Stages, steps: seq<Step>, t: TaskSpec, x: Step, due: nat)
    requires Planned(inp, st, steps) && t in inp.bodies && !t.Static()
    requires Appears(inp, st, steps, x) && x.id == t.id
    requires t.window.Some? && t.window.value.end <= due
    ensures x.end <= due
  {
    DynamicKeepsBounds(inp, st, steps, t, x);
  }
}
