/** The finished request: what it hands to the dependency graph, and when planning can start. */
module Requests {
  import opened Basics
  import opened Sorting
  import opened Spans
  import opened Graphs
  import opened Tasks
  import opened Segments
  import opened Compile
  import opened Clusters
  import opened ClusterFacts
  import opened StaticEdges
  import opened Exclusion
  import opened Dependents
  import opened Pipeline
  import opened Origins
  import opened Chains
  import TaskGraph

  lemma AscendingDistinct(s: set<Id>)
    ensures NoDuplicates(Ascending(s))
  {
    var r := Ascending(s);
    assert Increasing(r);
  }

  lemma {:induction false} FilterDistinct(p: Id -> bool, s: seq<Id>)
    requires NoDuplicates(s)
    ensures NoDuplicates(Filter(p, s))
  {
    FilterMultiset(p, s);
    DistinctCounts(s);
    DistinctCounts(Filter(p, s));
  }

  /** Renaming and clustering both list each prerequisite once. */
  lemma ClusteredDistinct(inp: Inputs, st: Stages, o: TaskSpec)
    requires Built(inp, st) && o in st.run.out
    ensures NoDuplicates(o.dependsOn)
  {
    OutIsCarriers(st.run);
    var k :| 0 <= k < |st.run.tasks| && IsCarrier(st.run.tasks, st.run.rep, k) && st.run.fused[k] == o;
    assert Carries(st.run.tasks, st.run.rep, k, st.run.fused[k]);
    if Alone(st.run.rep, k) {
      assert RenamedBy(st.home, st.current[k], st.run.tasks[k]);
      AscendingDistinct(Compile.Needs(st.home, st.current[k]));
    } else {
      AscendingDistinct(GroupNeeds(st.run.tasks, st.run.rep, k));
    }
  }

  /** Whatever the input, the request has unique handles and duplicate-free edges among its own Tasks. */
  lemma RequestIsWellFormed(inp: Inputs, st: Stages)
    requires Built(inp, st)
    ensures UniqueIds(st.request) && TaskGraph.DistinctDependencies(st.request) && TaskGraph.AllPlanned(st.request)
  {
    RequestIds(inp, st);
    forall i | 0 <= i < |st.request|
      ensures NoDuplicates(st.request[i].dependsOn) && forall d :: d in st.request[i].dependsOn ==> d in Ids(st.request)
    {
      EdgesWellFormed(inp, st, st.request[i]);
    }
  }

  lemma EdgesWellFormed(inp: Inputs, st: Stages, r: TaskSpec)
    requires Built(inp, st) && r in st.request
    ensures NoDuplicates(r.dependsOn) && forall d :: d in r.dependsOn ==> d in Ids(st.planned)
  {
    PlannedUnique(inp, st);
    var p := FinalSource(inp.observed, st.planned, st.pruned, st.request, r);
    var o := PushedSource(SettingFor(inp, st.run), st.run.out, st.pushed, st.judged, p);
    ClusteredDistinct(inp, st, o);
    FilterDistinct((d: Id) => d in Ids(st.planned), p.dependsOn);
  }

  /**
   * The kernel gets a request with its order exactly when the Tasks it plans have no closed chain of waits and
   * hops, so always when the participating Tasks have none; otherwise `chain` is one.
   */
  method PlanRequest(inp: Inputs, policy: TaskGraph.Policy)
    returns (request: seq<TaskSpec>, graph: Result<TaskGraph.TaskGraphBody, TaskGraph.GraphError>, ghost st: Stages,
             ghost chain: seq<Id>)
    requires WellFormed(inp)
    ensures Built(inp, st) && request == st.request
    ensures graph.Ok? <==> Acyclic(ChainGraph(inp, Ids(request)))
    ensures Acyclic(ChainGraph(inp, Ids(inp.bodies))) ==> graph.Ok?
    ensures graph.Err? ==> Cycle(ChainGraph(inp, Ids(request)), chain)
    ensures graph.Ok? ==> TaskGraph.Permutes(graph.value.order, Ids(request))
    ensures graph.Ok? ==> Forward(GraphOf(request), graph.value.order)
    ensures graph.Ok? ==> TaskGraph.Greedy(GraphOf(request), policy, graph.value.order)
  {
    var covered, carriers, compiled;
    request, covered, carriers, compiled, st := BuildRequest(inp);
    RequestIsWellFormed(inp, st);
    graph := TaskGraph.BuildTaskGraph(request, policy);
    chain := ChainBehind(inp, st);
  }

  /** If the request has a cycle, its Tasks have a closed chain, and the participating ones too. */
  lemma ChainBehind(inp: Inputs, st: Stages) returns (chain: seq<Id>)
    requires Built(inp, st)
    ensures Acyclic(GraphOf(st.request)) <==> Acyclic(ChainGraph(inp, Ids(st.request)))
    ensures !Acyclic(GraphOf(st.request)) ==>
              Cycle(ChainGraph(inp, Ids(st.request)), chain) && Cycle(ChainGraph(inp, Ids(inp.bodies)), chain)
  {
    chain := [];
    RequestOrderedExactly(inp, st);
    if q :| Cycle(GraphOf(st.request), q) {
      chain := CycleIsChain(inp, st, q);
      RequestAmongBodies(inp, st);
      FewerChains(inp, Ids(st.request), chain);
    }
  }

  lemma RequestAmongBodies(inp: Inputs, st: Stages)
    requires Built(inp, st)
    ensures Ids(st.request) <= Ids(inp.bodies)
  {
    RequestTaken(inp, st);
    TakenIds(st.run.out, st.request);
    PlannedIds(inp, st);
  }
}
