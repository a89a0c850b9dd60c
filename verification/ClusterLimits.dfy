/** A limit of fusing overlapping commitments: it can close a cycle that was not there. */
module ClusterLimits {
  import opened Basics
  import opened Sorting
  import opened Spans
  import opened Graphs
  import opened Tasks
  import opened Clusters
  import opened ClusterFacts

  function Commitment(id: Id, dependsOn: seq<Id>, start: U64, end: U64): TaskSpec
    requires start < end
  {
    TaskSpec(id, end - start, None, false, dependsOn, Some(TimeWindow(start, end)), Some(start))
  }

  /** Work between two overlapping commitments: after the first, before the second. */
  function Between(): seq<TaskSpec>
  {
    [Commitment(1, [], 0, 10), Commitment(2, [3], 5, 15),
        TaskSpec(3, 1, None, false, [1], Some(TimeWindow(0, 20)), None)]
  }

  lemma BetweenShape()
    ensures UniqueIds(Between()) && StaticsAnchored(Between())
    ensures Ids(Between()) == {1, 2, 3}
    ensures Prerequisites(Between(), 1) == {} && Prerequisites(Between(), 2) == {3}
    ensures Prerequisites(Between(), 3) == {1}
  {
    var tasks := Between();
    assert tasks[0].id == 1 && tasks[1].id == 2 && tasks[2].id == 3;
    assert tasks[0].dependsOn == [] && tasks[1].dependsOn == [3] && tasks[2].dependsOn == [1];
  }

  lemma BetweenAcyclic()
    ensures Acyclic(GraphOf(Between()))
  {
    BetweenShape();
    assert GraphOf(Between()) == map[1 := {}, 2 := {3}, 3 := {1}];
    ChainAcyclic(GraphOf(Between()));
  }

  lemma ChainAcyclic(g: Graph)
    requires g == map[1 := {}, 2 := {3}, 3 := {1}]
    ensures Acyclic(g)
  {
    var order := [1, 3, 2];
    assert order[..1] == [1] && order[..2] == [1, 3];
    assert Forward(g, order);
    assert Elements(order) == {1, 2, 3};
    ForwardIsAcyclic(g, order);
  }

  /** What is fused into a span brings its prerequisites, unless they are fused into it too. */
  lemma SpanInheritsNeed(run: ClusterRun, a: nat, b: nat, d: nat)
    requires Pass(run) && IsCarrier(run.tasks, run.rep, a) && b < |run.tasks| && d < |run.tasks|
    requires a != b && run.rep[a] == run.rep[b] && !run.tasks[d].Static() && run.tasks[d].id in run.tasks[b].dependsOn
    ensures run.fused[a] in run.out && run.fused[a].id == run.tasks[a].id && run.tasks[d].id in run.fused[a].dependsOn
  {
    OutIsCarriers(run);
    FusedKeepsId(run, a);
    DynamicUntouched(run, d);
    GroupedIsStatic(run.tasks, run.rep, a, b);
    assert Carries(run.tasks, run.rep, a, run.fused[a]);
    assert run.rep[d] != run.rep[a];
    GroupNeedsIt(run.tasks, run.rep, a, b, d);
  }

  lemma GroupNeedsIt(tasks: seq<TaskSpec>, rep: seq<nat>, a: nat, b: nat, d: nat)
    requires |rep| == |tasks| && UniqueIds(tasks) && a < |tasks| && b < |tasks| && d < |tasks|
    requires rep[a] == rep[b] && rep[d] != rep[a] && tasks[d].id in tasks[b].dependsOn
    ensures tasks[d].id in Ascending(GroupNeeds(tasks, rep, a))
  {
    forall k | 0 <= k < |tasks| && rep[k] == rep[a] ensures tasks[k].id != tasks[d].id {
      DifferentIds(tasks, k, d);
    }
    var needs := GroupNeeds(tasks, rep, a);
    assert tasks[d].id in needs;
    assert tasks[d].id in Elements(Ascending(needs));
  }

  /**
   * Work that waits for a carrier and that something fused into it waits for ends up in a cycle with it. This is
   * one shape of the closed chains that decide it in general (`Chains.ClusteredOrderedExactly`).
   */
  lemma FusingClosesCycle(run: ClusterRun, a: nat, b: nat, d: nat)
    requires Pass(run) && IsCarrier(run.tasks, run.rep, a) && b < |run.tasks| && d < |run.tasks|
    requires a != b && run.rep[a] == run.rep[b] && !run.tasks[d].Static() && run.tasks[d].id in run.tasks[b].dependsOn
    requires run.tasks[a].id in run.tasks[d].dependsOn
    ensures Cycle(GraphOf(run.out), [run.tasks[a].id, run.tasks[d].id, run.tasks[a].id])
  {
    SpanInheritsNeed(run, a, b, d);
    OutIsCarriers(run);
    DynamicUntouched(run, d);
    MutualNeed(run.out, run.fused[a], run.fused[d]);
  }

  lemma MutualNeed(tasks: seq<TaskSpec>, t: TaskSpec, u: TaskSpec)
    requires t in tasks && u in tasks && u.id in t.dependsOn && t.id in u.dependsOn
    ensures Cycle(GraphOf(tasks), [t.id, u.id, t.id])
  {
    DependencyIsNeed(tasks, t, u.id);
    DependencyIsNeed(tasks, u, t.id);
  }

  /** The commitments fuse into one span that waits for the work, which waits for the span. */
  method OverlapCanCloseCycle() returns (before: seq<TaskSpec>, after: seq<TaskSpec>)
    ensures UniqueIds(before) && StaticsAnchored(before) && Acyclic(GraphOf(before))
    ensures !Acyclic(GraphOf(after))
  {
    before := Between();
    BetweenShape();
    BetweenAcyclic();
    var covered, carriers;
    ghost var rep, fused;
    after, covered, carriers, rep, fused := CommittedClusters(before);
    ghost var run := ClusterRun(before, rep, fused, after, covered, carriers);
    BetweenClosesCycle(run);
  }

  lemma FirstCarries(run: ClusterRun)
    requires Pass(run) && run.tasks == Between()
    ensures IsCarrier(run.tasks, run.rep, 0)
  {
    DynamicUntouched(run, 2);
    assert |run.tasks| == 3 && run.rep[0] != run.rep[2];
    assert CarrierLeq(run.tasks[0], run.tasks[0]) && CarrierLeq(run.tasks[0], run.tasks[1]);
  }

  lemma BetweenClosesCycle(run: ClusterRun)
    requires Pass(run) && run.tasks == Between()
    ensures Cycle(GraphOf(run.out), [1, 3, 1])
  {
    assert Touch(run.tasks, 0, 1);
    TouchIsGrouped(run.tasks, run.rep, 0, 1);
    FirstCarries(run);
    FusingClosesCycle(run, 0, 1, 2);
  }
}
