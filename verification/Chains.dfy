/** When a request can be ordered, told from the participating Tasks alone. */
module Chains {
  import opened Basics
  import opened Sorting
  import opened Spans
  import opened Graphs
  import opened Tasks
  import opened Segments
  import opened Compile
  import opened Clusters
  import opened ClusterFacts
  import opened StaticEdges
  import opened Exclusion
  import opened Pipeline
  import opened Origins
  import opened Anchors
  import opened CommitmentEdges
  import opened Contraction
  import Preservation
  import Scatter
  import Schedules

  // ----- who stands for whom -----

  /** `m` is fused under `c`, the first child left of their segment. */
  ghost predicate HeadOf(inp: Inputs, unit: UnitRef, c: Id, m: Id)
  {
    && Compiles(inp.bodies, inp.rows, inp.accepts, unit.ids)
    && c == unit.ids[FirstPresent(inp.bodies, unit.ids)]
    && m in unit.ids[FirstPresent(inp.bodies, unit.ids)..]
  }

  ghost predicate UnitUnder(inp: Inputs, c: Id, m: Id)
    requires WellFormed(inp)
  {
    exists unit :: unit in ActiveUnits(inp.containers) && HeadOf(inp, unit, c, m)
  }

  /** Of all commitments that a chain of overlaps joins to `j`, `i` is the earliest, longest and least. */
  ghost predicate Leads(tasks: seq<TaskSpec>, i: nat, j: nat)
  {
    && i < |tasks| && j < |tasks| && tasks[i].Static() && tasks[j].Static() && Connected(tasks, i, j)
    && forall k :: 0 <= k < |tasks| && Connected(tasks, i, k) ==> CarrierLeq(tasks[i], tasks[k])
  }

  /** `m` is reserved under `c`, the leading commitment of their overlapping group. */
  ghost predicate SpanUnder(inp: Inputs, c: Id, m: Id)
  {
    exists i, j :: 0 <= i < |inp.bodies| && 0 <= j < |inp.bodies| && Leads(inp.bodies, i, j)
      && inp.bodies[i].id == c && inp.bodies[j].id == m
  }

  ghost function UnitHead(inp: Inputs, id: Id): Id
    requires WellFormed(inp)
  {
    if exists c :: UnitUnder(inp, c, id) then (var c :| UnitUnder(inp, c, id); c) else id
  }

  ghost function SpanHead(inp: Inputs, id: Id): Id
  {
    if exists c :: SpanUnder(inp, c, id) then (var c :| SpanUnder(inp, c, id); c) else id
  }

  /** The Task under whose handle this one is planned. */
  ghost function StandIn(inp: Inputs, id: Id): Id
    requires WellFormed(inp)
  {
    SpanHead(inp, UnitHead(inp, id))
  }

  // ----- chains of waits and hops -----

  /** From a stand-in to a Task fused or reserved under it. */
  ghost predicate Hop(inp: Inputs, a: Id, b: Id)
    requires WellFormed(inp)
  {
    StandIn(inp, b) == a && b != a
  }

  /** A wait counts for the whole unit waited for, but not on a covered commitment, nor among what is planned as one. */
  ghost predicate Wait(inp: Inputs, a: Id, b: Id)
    requires WellFormed(inp)
  {
    && (exists d :: WaitsOn(inp, a, d) && UnitHead(inp, d) == b)
    && StandIn(inp, b) == b && StandIn(inp, a) != b
  }

  /** Among the Tasks that are planned under one of `keep`. */
  ghost predicate ChainStep(inp: Inputs, keep: set<Id>, a: Id, b: Id)
    requires WellFormed(inp)
  {
    && a in Ids(inp.bodies) && b in Ids(inp.bodies) && StandIn(inp, a) in keep && StandIn(inp, b) in keep
    && (Hop(inp, a, b) || Wait(inp, a, b))
  }

  /** The waits and hops among the Tasks that are planned under one of `keep`. */
  ghost function ChainGraph(inp: Inputs, keep: set<Id>): Graph
    requires WellFormed(inp)
  {
    map a | a in Ids(inp.bodies) && StandIn(inp, a) in keep ::
        set b | b in Ids(inp.bodies) && ChainStep(inp, keep, a, b)
  }

  lemma ChainNeeds(inp: Inputs, keep: set<Id>, a: Id, b: Id)
    requires WellFormed(inp)
    ensures Graphs.Needs(ChainGraph(inp, keep), a, b) <==> ChainStep(inp, keep, a, b)
  {
  }

  // ----- units at the input are the compiled segments -----

  /** Dropping edges of commitments changes nothing for segments. */
  lemma SameCompiles(bodies: seq<TaskSpec>, dropped: seq<TaskSpec>, rows: Rows,
                     accepts: DurationModel -> bool, ids: seq<Id>)
    requires UniqueIds(bodies) && SameDynamics(bodies, dropped)
    ensures FirstPresent(dropped, ids) == FirstPresent(bodies, ids)
    ensures Compiles(dropped, rows, accepts, ids) <==> Compiles(bodies, rows, accepts, ids)
  {
    SameIds(bodies, dropped);
    SameFirst(dropped, bodies, ids);
    var suffix := ids[FirstPresent(bodies, ids)..];
    if Unstarted(bodies, ids) {
      assert AllPresent(dropped, suffix);
      SameCompilable(bodies, dropped, rows, accepts, suffix);
    }
    if Unstarted(dropped, ids) {
      assert AllPresent(bodies, suffix);
    }
  }

  /** Position by position the same Tasks, except for the edges of commitments. */
  ghost predicate SameDynamics(bodies: seq<TaskSpec>, dropped: seq<TaskSpec>)
  {
    && |dropped| == |bodies|
    && forall i :: 0 <= i < |bodies| ==> SameDynamic(bodies[i], dropped[i])
  }

  ghost predicate SameDynamic(t: TaskSpec, r: TaskSpec)
  {
    r.id == t.id && r.anchor == t.anchor && (!t.Static() ==> r == t)
  }

  lemma SameIds(bodies: seq<TaskSpec>, dropped: seq<TaskSpec>)
    requires SameDynamics(bodies, dropped)
    ensures Ids(dropped) == Ids(bodies)
    ensures UniqueIds(bodies) ==> UniqueIds(dropped)
  {
    assert forall i :: 0 <= i < |bodies| ==> SameDynamic(bodies[i], dropped[i]);
    forall x ensures x in Ids(dropped) <==> x in Ids(bodies) {
      if x in Ids(dropped) {
        var i :| 0 <= i < |dropped| && dropped[i].id == x;
        assert SameDynamic(bodies[i], dropped[i]);
      }
      if x in Ids(bodies) {
        var i :| 0 <= i < |bodies| && bodies[i].id == x;
        assert SameDynamic(bodies[i], dropped[i]);
      }
    }
  }

  lemma SameTask(bodies: seq<TaskSpec>, dropped: seq<TaskSpec>, id: Id)
    requires UniqueIds(bodies) && SameDynamics(bodies, dropped) && id in Ids(bodies) && id in Ids(dropped)
    ensures SameDynamic(TaskWithId(bodies, id), TaskWithId(dropped, id))
  {
    SameIds(bodies, dropped);
    var r := TaskWithId(dropped, id);
    var i :| 0 <= i < |dropped| && dropped[i] == r;
    assert SameDynamic(bodies[i], dropped[i]);
    UniqueIdsSame(bodies, bodies[i], TaskWithId(bodies, id));
  }

  lemma SameCompilable(bodies: seq<TaskSpec>, dropped: seq<TaskSpec>, rows: Rows,
                       accepts: DurationModel -> bool, ids: seq<Id>)
    requires UniqueIds(bodies) && SameDynamics(bodies, dropped) && AllPresent(bodies, ids) && AllPresent(dropped, ids)
    ensures Compilable(rows, MembersOf(dropped, ids), accepts) <==> Compilable(rows, MembersOf(bodies, ids), accepts)
  {
    var a, b := MembersOf(bodies, ids), MembersOf(dropped, ids);
    forall i | 0 <= i < |ids| ensures SameDynamic(a[i], b[i]) {
      SameTask(bodies, dropped, ids[i]);
      assert a[i] == TaskWithId(bodies, ids[i]) && b[i] == TaskWithId(dropped, ids[i]);
    }
    if forall i :: 0 <= i < |ids| ==> !a[i].Static() {
      assert a == b;
    } else {
      var i :| 0 <= i < |ids| && a[i].Static();
      assert SameDynamic(a[i], b[i]);
      assert !Fusable(rows, a[i]) && !Fusable(rows, b[i]);
    }
  }

  lemma DroppedSame(inp: Inputs, st: Stages)
    requires Built(inp, st)
    ensures SameDynamics(inp.bodies, st.dropped) && UniqueIds(inp.bodies)
  {
    forall i | 0 <= i < |inp.bodies| ensures SameDynamic(inp.bodies[i], st.dropped[i]) {
      assert EdgesDropped(st.drops, inp.bodies[i], st.dropped[i]);
      if !inp.bodies[i].Static() { DynamicNotDropped(inp, st, i); }
    }
    BodiesDistinct(inp.bodies, inp.free);
  }

  lemma BodiesDistinct(bodies: seq<TaskSpec>, free: seq<TaskSpec>)
    requires UniqueIds(bodies + free)
    ensures UniqueIds(bodies)
  {
    forall i, j | 0 <= i < j < |bodies| ensures bodies[i].id != bodies[j].id {
      assert (bodies + free)[i] == bodies[i] && (bodies + free)[j] == bodies[j];
    }
  }

  /** A fused child is under the head of its unit. */
  lemma HomeIsUnder(inp: Inputs, st: Stages, m: Id)
    requires Built(inp, st) && m in st.home
    ensures UnitUnder(inp, st.home[m], m)
  {
    var c := st.home[m];
    var unit := Preservation.SegmentUnit(inp, st, c);
    DroppedSame(inp, st);
    SameCompiles(inp.bodies, st.dropped, inp.rows, inp.accepts, unit.ids);
    Scatter.OutcomeOf(st.dropped, inp.rows, inp.accepts, ActiveUnits(inp.containers), st.run.tasks, st.compiled,
                      st.home, st.current, unit);
    SegmentHead(st.dropped, inp.rows, inp.accepts, unit, st.compiled, st.home, c, m);
    assert HeadOf(inp, unit, c, m);
  }

  lemma SegmentHead(dropped: seq<TaskSpec>, rows: Rows, accepts: DurationModel -> bool, unit: UnitRef,
                    compiled: map<Id, CompiledSegment>, home: Homes, c: Id, m: Id)
    requires c in compiled && SegmentIs(dropped, unit, compiled[c]) && SegmentOf(dropped, home, c, compiled[c])
    requires UnitOutcome(dropped, rows, accepts, unit, compiled, home) && m in Ids(compiled[c].members)
    ensures Compiles(dropped, rows, accepts, unit.ids)
    ensures c == unit.ids[FirstPresent(dropped, unit.ids)] && m in unit.ids[FirstPresent(dropped, unit.ids)..]
  {
    var k, members := FirstPresent(dropped, unit.ids), compiled[c].members;
    assert unit.ids[k..][0] == unit.ids[k] && members[0].id == unit.ids[k];
    assert members[0].id in home;
    var i :| 0 <= i < |members| && members[i].id == m;
    assert unit.ids[k..][i] == m;
  }

  /** And whoever is under the head of a unit is fused there. */
  lemma UnderIsHome(inp: Inputs, st: Stages, c: Id, m: Id)
    requires Built(inp, st) && UnitUnder(inp, c, m)
    ensures m in st.home && st.home[m] == c
  {
    var unit :| unit in ActiveUnits(inp.containers) && HeadOf(inp, unit, c, m);
    DroppedSame(inp, st);
    SameCompiles(inp.bodies, st.dropped, inp.rows, inp.accepts, unit.ids);
    Scatter.OutcomeOf(st.dropped, inp.rows, inp.accepts, ActiveUnits(inp.containers), st.run.tasks, st.compiled,
                      st.home, st.current, unit);
    HeadIsHome(st.dropped, inp.rows, inp.accepts, unit, st.compiled, st.home, st.current, c, m);
  }

  lemma HeadIsHome(dropped: seq<TaskSpec>, rows: Rows, accepts: DurationModel -> bool, unit: UnitRef,
                   compiled: map<Id, CompiledSegment>, home: Homes, current: seq<TaskSpec>, c: Id, m: Id)
    requires SegmentsKept(dropped, current, compiled, home)
    requires UnitOutcome(dropped, rows, accepts, unit, compiled, home) && Compiles(dropped, rows, accepts, unit.ids)
    requires c == unit.ids[FirstPresent(dropped, unit.ids)] && m in unit.ids[FirstPresent(dropped, unit.ids)..]
    ensures m in home && home[m] == c
  {
    var suffix := unit.ids[FirstPresent(dropped, unit.ids)..];
    assert SegmentOf(dropped, home, c, compiled[c]);
    var i :| 0 <= i < |suffix| && suffix[i] == m;
    assert compiled[c].members[i].id == m;
  }

  lemma HeadIsStandsFor(inp: Inputs, st: Stages, id: Id)
    requires Built(inp, st)
    ensures UnitHead(inp, id) == StandsFor(st.home, id)
  {
    forall c ensures UnitUnder(inp, c, id) <==> id in st.home && st.home[id] == c {
      UnderExactly(inp, st, c, id);
    }
    OneHead(inp, st.home, id);
  }

  lemma UnderExactly(inp: Inputs, st: Stages, c: Id, m: Id)
    requires Built(inp, st)
    ensures UnitUnder(inp, c, m) <==> m in st.home && st.home[m] == c
  {
    if m in st.home { HomeIsUnder(inp, st, m); }
    if UnitUnder(inp, c, m) { UnderIsHome(inp, st, c, m); }
  }

  lemma OneHead(inp: Inputs, home: Homes, id: Id)
    requires WellFormed(inp) && forall c :: UnitUnder(inp, c, id) <==> id in home && home[id] == c
    ensures UnitHead(inp, id) == StandsFor(home, id)
  {
    if id in home { assert UnitUnder(inp, home[id], id); }
  }

  // ----- groups at the input are the fused spans -----

  /** The same commitment in two lists. */
  ghost predicate Twin(a: TaskSpec, b: TaskSpec)
  {
    a.id == b.id && a.Static() && b.Static() && a.window == b.window
  }

  ghost predicate TwinsIn(tasks: seq<TaskSpec>, others: seq<TaskSpec>)
  {
    forall i :: 0 <= i < |tasks| && tasks[i].Static() ==> HasTwin(others, tasks[i])
  }

  ghost predicate HasTwin(others: seq<TaskSpec>, t: TaskSpec)
  {
    exists j :: 0 <= j < |others| && Twin(t, others[j])
  }

  lemma {:induction false} TwinPath(tasks: seq<TaskSpec>, others: seq<TaskSpec>, p: seq<nat>) returns (q: seq<nat>)
    requires TwinsIn(tasks, others) && Path(tasks, p) && p[0] < |tasks| && tasks[p[0]].Static()
    ensures Path(others, q) && q[0] < |others| && Twin(tasks[p[0]], others[q[0]])
    ensures q[|q| - 1] < |others| && p[|p| - 1] < |tasks| && Twin(tasks[p[|p| - 1]], others[q[|q| - 1]])
  {
    assert HasTwin(others, tasks[p[0]]);
    var j: nat :| j < |others| && Twin(tasks[p[0]], others[j]);
    if |p| == 1 {
      q := [j];
    } else {
      assert Touch(tasks, p[0], p[1]);
      var tail := p[1..];
      forall i, k | 0 <= i && k == i + 1 && k < |tail| ensures Touch(tasks, tail[i], tail[k]) {
        assert tail[i] == p[i + 1] && tail[k] == p[k + 1];
      }
      var rest := TwinPath(tasks, others, tail);
      q := [j] + rest;
      assert Touch(others, j, rest[0]);
      forall i, k | 0 <= i && k == i + 1 && k < |q| ensures Touch(others, q[i], q[k]) {
        if i > 0 { assert q[i] == rest[i - 1] && q[k] == rest[k - 1]; }
      }
    }
  }

  lemma TwinConnected(tasks: seq<TaskSpec>, others: seq<TaskSpec>, a: nat, b: nat, a': nat, b': nat)
    requires TwinsIn(tasks, others) && UniqueIds(others) && Connected(tasks, a, b)
    requires a < |tasks| && b < |tasks| && a' < |others| && b' < |others|
    requires Twin(tasks[a], others[a']) && Twin(tasks[b], others[b'])
    ensures Connected(others, a', b')
  {
    var p :| Joins(tasks, p, a, b);
    var q := TwinPath(tasks, others, p);
    OneIndex(others, q[0], a');
    OneIndex(others, q[|q| - 1], b');
    assert Joins(others, q, a', b');
  }

  lemma OneIndex(tasks: seq<TaskSpec>, a: nat, b: nat)
    requires UniqueIds(tasks) && a < |tasks| && b < |tasks| && tasks[a].id == tasks[b].id
    ensures a == b
  {
  }

  lemma ConnectedStatic(tasks: seq<TaskSpec>, a: nat, b: nat)
    requires a < |tasks| && b < |tasks| && Connected(tasks, a, b) && tasks[a].Static()
    ensures tasks[b].Static()
  {
    var p :| Joins(tasks, p, a, b);
    if |p| > 1 { assert Touch(tasks, p[|p| - 2], p[|p| - 1]); }
  }

  /** The leader of a group leads its twin's group. */
  lemma TwinLeads(tasks: seq<TaskSpec>, others: seq<TaskSpec>, i: nat, j: nat, i': nat, j': nat)
    requires TwinsIn(tasks, others) && TwinsIn(others, tasks) && UniqueIds(tasks) && UniqueIds(others)
    requires Leads(tasks, i, j) && i' < |others| && j' < |others|
    requires Twin(tasks[i], others[i']) && Twin(tasks[j], others[j'])
    ensures Leads(others, i', j')
  {
    TwinConnected(tasks, others, i, j, i', j');
    forall k | 0 <= k < |others| && Connected(others, i', k) ensures CarrierLeq(others[i'], others[k]) {
      ConnectedStatic(others, i', k);
      assert HasTwin(tasks, others[k]);
      var n: nat :| n < |tasks| && Twin(others[k], tasks[n]);
      TwinConnected(others, tasks, i', k, i, n);
      assert CarrierLeq(tasks[i], tasks[n]);
    }
  }

  lemma CarrierLeads(run: ClusterRun, c: nat, k: nat)
    requires Pass(run) && c < |run.tasks| && k < |run.tasks| && run.tasks[c].Static() && run.tasks[k].Static()
    ensures Leads(run.tasks, c, k) <==> IsCarrier(run.tasks, run.rep, c) && run.rep[c] == run.rep[k]
  {
    if Leads(run.tasks, c, k) {
      forall m | 0 <= m < |run.tasks| && run.rep[m] == run.rep[c] ensures CarrierLeq(run.tasks[c], run.tasks[m]) {
        assert Connected(run.tasks, c, m);
      }
    }
  }

  /** The commitments of the input and of the compiled request are the same. */
  lemma CommitmentsAreTwins(inp: Inputs, st: Stages)
    requires Built(inp, st)
    ensures TwinsIn(inp.bodies, st.run.tasks) && TwinsIn(st.run.tasks, inp.bodies)
    ensures UniqueIds(inp.bodies) && UniqueIds(st.run.tasks)
  {
    BodiesDistinct(inp.bodies, inp.free);
    forall i | 0 <= i < |inp.bodies| && inp.bodies[i].Static() ensures HasTwin(st.run.tasks, inp.bodies[i]) {
      assert inp.bodies[i] in inp.bodies;
      var k := StaticStays(inp, st, inp.bodies[i]);
      assert Twin(inp.bodies[i], st.run.tasks[k]);
    }
    forall k | 0 <= k < |st.run.tasks| && st.run.tasks[k].Static() ensures HasTwin(inp.bodies, st.run.tasks[k]) {
      var t := StaticSource(inp, st, k);
      InBodies(inp.bodies, st.run.tasks[k], t);
    }
  }

  lemma InBodies(bodies: seq<TaskSpec>, r: TaskSpec, t: TaskSpec)
    requires t in bodies && Twin(r, t)
    ensures HasTwin(bodies, r)
  {
    var j :| 0 <= j < |bodies| && bodies[j] == t;
  }

  /** A handle is under the leader of its group, and under nobody else. */
  lemma SpanUnderCarrier(inp: Inputs, run: ClusterRun, k: nat, c: nat, x: Id)
    requires Pass(run) && TwinsIn(inp.bodies, run.tasks) && TwinsIn(run.tasks, inp.bodies) && UniqueIds(inp.bodies)
    requires k < |run.tasks| && run.tasks[k].Static() && IsCarrier(run.tasks, run.rep, c) && run.rep[c] == run.rep[k]
    ensures SpanUnder(inp, x, run.tasks[k].id) <==> x == run.tasks[c].id
  {
    if c != k { GroupedIsStatic(run.tasks, run.rep, c, k); }
    CarrierLeads(run, c, k);
    if x == run.tasks[c].id {
      LeaderIsUnder(inp, run, k, c);
    }
    if SpanUnder(inp, x, run.tasks[k].id) {
      UnderIsLeader(inp, run, k, c, x);
    }
  }

  lemma LeaderIsUnder(inp: Inputs, run: ClusterRun, k: nat, c: nat)
    requires Pass(run) && TwinsIn(inp.bodies, run.tasks) && TwinsIn(run.tasks, inp.bodies) && UniqueIds(inp.bodies)
    requires Leads(run.tasks, c, k)
    ensures SpanUnder(inp, run.tasks[c].id, run.tasks[k].id)
  {
    assert HasTwin(inp.bodies, run.tasks[c]) && HasTwin(inp.bodies, run.tasks[k]);
    var i: nat :| i < |inp.bodies| && Twin(run.tasks[c], inp.bodies[i]);
    var j: nat :| j < |inp.bodies| && Twin(run.tasks[k], inp.bodies[j]);
    TwinLeads(run.tasks, inp.bodies, c, k, i, j);
  }

  lemma UnderIsLeader(inp: Inputs, run: ClusterRun, k: nat, c: nat, x: Id)
    requires Pass(run) && TwinsIn(inp.bodies, run.tasks) && TwinsIn(run.tasks, inp.bodies) && UniqueIds(inp.bodies)
    requires k < |run.tasks| && run.tasks[k].Static() && IsCarrier(run.tasks, run.rep, c) && run.rep[c] == run.rep[k]
    requires SpanUnder(inp, x, run.tasks[k].id)
    ensures x == run.tasks[c].id
  {
    var i: nat, j: nat :| i < |inp.bodies| && j < |inp.bodies| && Leads(inp.bodies, i, j)
      && inp.bodies[i].id == x && inp.bodies[j].id == run.tasks[k].id;
    assert HasTwin(run.tasks, inp.bodies[i]) && HasTwin(run.tasks, inp.bodies[j]);
    var i': nat :| i' < |run.tasks| && Twin(inp.bodies[i], run.tasks[i']);
    var j': nat :| j' < |run.tasks| && Twin(inp.bodies[j], run.tasks[j']);
    OneIndex(run.tasks, j', k);
    TwinLeads(inp.bodies, run.tasks, i, j, i', k);
    CarrierLeads(run, i', k);
    CarrierUnique(run.tasks, run.rep, i', c);
  }

  lemma NotUnderDynamic(inp: Inputs, t: TaskSpec, x: Id)
    requires UniqueIds(inp.bodies) && t in inp.bodies && !t.Static()
    ensures !SpanUnder(inp, x, t.id)
  {
    forall i: nat, j: nat | i < |inp.bodies| && j < |inp.bodies| && Leads(inp.bodies, i, j)
      ensures inp.bodies[j].id != t.id
    {
      var k :| 0 <= k < |inp.bodies| && inp.bodies[k] == t;
      if j != k { DifferentIds(inp.bodies, j, k); }
    }
  }

  // ----- the stand-in of every Task -----

  /** The compiled Task `k` stands for this handle, and the span `c` for `k`. */
  lemma StandInIs(inp: Inputs, st: Stages, a: Id) returns (k: nat, c: nat)
    requires Built(inp, st) && a in Ids(inp.bodies)
    ensures k < |st.run.tasks| && st.run.tasks[k].id == StandsFor(st.home, a) == UnitHead(inp, a)
    ensures IsCarrier(st.run.tasks, st.run.rep, c) && st.run.rep[c] == st.run.rep[k]
    ensures StandIn(inp, a) == st.run.tasks[c].id
  {
    HeadIsStandsFor(inp, st, a);
    k := StandsForHere(inp, st, a);
    c := GroupHasCarrier(st.run.tasks, st.run.rep, k);
    SpanHeadIs(inp, st, k, c);
  }

  lemma StandsForHere(inp: Inputs, st: Stages, a: Id) returns (k: nat)
    requires Built(inp, st) && a in Ids(inp.bodies)
    ensures k < |st.run.tasks| && st.run.tasks[k].id == StandsFor(st.home, a)
  {
    DroppedSame(inp, st);
    SameIds(inp.bodies, st.dropped);
    StandInIsSettled(st.dropped, inp.rows, st.current, st.compiled, st.home, a);
    k :| 0 <= k < |st.current| && st.current[k].id == StandsFor(st.home, a);
    assert RenamedBy(st.home, st.current[k], st.run.tasks[k]);
  }

  lemma SpanHeadIs(inp: Inputs, st: Stages, k: nat, c: nat)
    requires Built(inp, st) && k < |st.run.tasks|
    requires IsCarrier(st.run.tasks, st.run.rep, c) && st.run.rep[c] == st.run.rep[k]
    ensures SpanHead(inp, st.run.tasks[k].id) == st.run.tasks[c].id
  {
    CommitmentsAreTwins(inp, st);
    if st.run.tasks[k].Static() {
      forall x ensures SpanUnder(inp, x, st.run.tasks[k].id) <==> x == st.run.tasks[c].id {
        SpanUnderCarrier(inp, st.run, k, c, x);
      }
      OneSpanHead(inp, st.run.tasks[k].id, st.run.tasks[c].id);
    } else {
      DynamicUntouched(st.run, k);
      CarrierUnique(st.run.tasks, st.run.rep, c, k);
      var t := DynamicBody(inp, st, k);
      forall x ensures !SpanUnder(inp, x, t.id) { NotUnderDynamic(inp, t, x); }
    }
  }

  lemma OneSpanHead(inp: Inputs, id: Id, c: Id)
    requires forall x :: SpanUnder(inp, x, id) <==> x == c
    ensures SpanHead(inp, id) == c
  {
    assert SpanUnder(inp, c, id);
  }

  /** A Dynamic Task of the compiled request has the handle of a participating one. */
  lemma DynamicBody(inp: Inputs, st: Stages, k: nat) returns (t: TaskSpec)
    requires Built(inp, st) && k < |st.run.tasks| && !st.run.tasks[k].Static()
    ensures t in inp.bodies && !t.Static() && t.id == st.run.tasks[k].id
  {
    assert RenamedBy(st.home, st.current[k], st.run.tasks[k]);
    var c := st.current[k];
    assert c in st.current;
    if c.id in st.compiled {
      CarriersAreHome(st.dropped, inp.rows, st.current, st.compiled, st.home);
      t := FusedChild(inp, st, c.id);
    } else {
      t := DroppedSource(inp, st, c);
    }
  }

  // ----- waits become edges between stand-ins -----

  lemma LeftIsWait(inp: Inputs, st: Stages, u: TaskSpec, d: Id)
    requires Built(inp, st) && u in st.dropped && d in u.dependsOn
    ensures WaitsOn(inp, u.id, d) && u.id in Ids(inp.bodies)
  {
    var t := DroppedSource(inp, st, u);
    IdIn(inp.bodies, t);
    if t.Static() { NotGivenUp(inp, st, t, d); }
    assert !GivenUp(inp, t, d);
  }

  /** A Task of the clustered request stands for itself. */
  lemma OutStandsForItself(inp: Inputs, st: Stages, x: Id) returns (c: nat)
    requires Built(inp, st) && x in Ids(st.run.out)
    ensures x in Ids(inp.bodies) && UnitHead(inp, x) == x && StandIn(inp, x) == x
    ensures IsCarrier(st.run.tasks, st.run.rep, c) && st.run.tasks[c].id == x && st.run.fused[c] in st.run.out
  {
    PlannedIds(inp, st);
    c := CarrierOf(st.run, x);
    HeadIsStandsFor(inp, st, x);
    CurrentIsHead(inp, st, c);
    SpanHeadIs(inp, st, c, c);
  }

  lemma CarrierOf(run: ClusterRun, x: Id) returns (c: nat)
    requires Pass(run) && x in Ids(run.out)
    ensures IsCarrier(run.tasks, run.rep, c) && run.tasks[c].id == x && run.fused[c] in run.out
  {
    OutIsCarriers(run);
    var o := TaskWithId(run.out, x);
    c :| 0 <= c < |run.tasks| && IsCarrier(run.tasks, run.rep, c) && run.fused[c] == o;
    FusedKeepsId(run, c);
  }

  lemma CurrentIsHead(inp: Inputs, st: Stages, k: nat)
    requires Built(inp, st) && k < |st.run.tasks|
    ensures StandsFor(st.home, st.run.tasks[k].id) == st.run.tasks[k].id
  {
    assert RenamedBy(st.home, st.current[k], st.run.tasks[k]);
    var c := st.current[k];
    assert c in st.current;
    CarriersAreHome(st.dropped, inp.rows, st.current, st.compiled, st.home);
  }

  /** A wait on a stand-in is an edge of the waiting Task's stand-in. */
  lemma WaitIsEdge(inp: Inputs, st: Stages, a: Id, b: Id) returns (o: TaskSpec)
    requires Built(inp, st) && a in Ids(inp.bodies) && b in Ids(st.run.out) && Wait(inp, a, b)
    ensures o in st.run.out && o.id == StandIn(inp, a) && b in o.dependsOn
  {
    var k, c := StandInIs(inp, st, a);
    var n := OutStandsForItself(inp, st, b);
    var d :| WaitsOn(inp, a, d) && UnitHead(inp, d) == b;
    HeadIsStandsFor(inp, st, d);
    var u := WaitLeft(inp, st, a, d);
    CarrierIdsDiffer(st.run, k, c, n, StandIn(inp, a), b);
    CompiledEdge(inp, st, u, d, k);
    OutIsCarriers(st.run);
    FusedKeepsId(st.run, c);
    o := st.run.fused[c];
    InheritedEdge(st.run, c, k, n);
  }

  lemma CarrierIdsDiffer(run: ClusterRun, k: nat, c: nat, n: nat, a: Id, b: Id)
    requires Pass(run) && k < |run.tasks| && IsCarrier(run.tasks, run.rep, c) && IsCarrier(run.tasks, run.rep, n)
    requires run.rep[c] == run.rep[k] && run.tasks[c].id == a && run.tasks[n].id == b && a != b
    ensures run.rep[n] != run.rep[k] && run.tasks[k].id != b
  {
    if run.rep[n] == run.rep[k] { CarrierUnique(run.tasks, run.rep, c, n); }
    if k != n { DifferentIds(run.tasks, k, n); }
  }

  /** An edge between two stand-ins is a wait of one of the Tasks it stands for. */
  lemma EdgeIsWait(inp: Inputs, st: Stages, o: TaskSpec, b: Id) returns (a: Id)
    requires Built(inp, st) && o in st.run.out && b in o.dependsOn && b in Ids(st.run.out)
    ensures a in Ids(inp.bodies) && StandIn(inp, a) == o.id && Wait(inp, a, b)
  {
    IdIn(st.run.out, o);
    var c := OutStandsForItself(inp, st, o.id);
    var n := OutStandsForItself(inp, st, b);
    OutIsCarriers(st.run);
    FusedKeepsId(st.run, c);
    UniqueIdsSame(st.run.out, o, st.run.fused[c]);
    var m := FusedEdge(st.run, c, b);
    var d;
    a, d := EdgeSource(inp, st, m, b);
    var k, c' := StandInIs(inp, st, a);
    HeadIsStandsFor(inp, st, d);
    SameCarrier(st.run, m, c, k, c');
    Schedules.SpanNotSelf(inp, st, o);
  }

  lemma EdgeSource(inp: Inputs, st: Stages, m: nat, b: Id) returns (a: Id, d: Id)
    requires Built(inp, st) && m < |st.run.tasks| && b in st.run.tasks[m].dependsOn
    ensures a in Ids(inp.bodies) && WaitsOn(inp, a, d)
    ensures StandsFor(st.home, a) == st.run.tasks[m].id && StandsFor(st.home, d) == b
  {
    var u;
    u, d := EdgeSound(st.dropped, inp.rows, inp.accepts, ActiveUnits(inp.containers), st.run.tasks, st.compiled,
                      st.home, st.current, m, b);
    a := u.id;
    LeftIsWait(inp, st, u, d);
  }

  lemma SameCarrier(run: ClusterRun, m: nat, c: nat, k: nat, c': nat)
    requires Pass(run) && m < |run.tasks| && k < |run.tasks| && run.tasks[m].id == run.tasks[k].id
    requires IsCarrier(run.tasks, run.rep, c) && run.rep[m] == run.rep[c]
    requires IsCarrier(run.tasks, run.rep, c') && run.rep[k] == run.rep[c']
    ensures c == c'
  {
    OneIndex(run.tasks, m, k);
    CarrierUnique(run.tasks, run.rep, c, c');
  }

  // ----- the request is the chain graph drawn together -----

  /** The same edges as in the clustered request, as far as both ends are in the list. */
  ghost predicate TakenFrom(out: seq<TaskSpec>, tasks: seq<TaskSpec>)
  {
    UniqueIds(tasks) && forall r :: r in tasks ==> TakenAs(out, Ids(tasks), r)
  }

  ghost predicate TakenAs(out: seq<TaskSpec>, keep: set<Id>, r: TaskSpec)
  {
    exists o :: o in out && o.id == r.id && forall d :: d in keep ==> (d in r.dependsOn <==> d in o.dependsOn)
  }

  lemma NeedsMeans(tasks: seq<TaskSpec>, a: Id, d: Id) returns (r: TaskSpec)
    requires Graphs.Needs(GraphOf(tasks), a, d)
    ensures r in tasks && r.id == a && d in r.dependsOn
  {
    var i :| 0 <= i < |tasks| && tasks[i].id == a && d in tasks[i].dependsOn;
    r := tasks[i];
  }

  lemma EdgesTaken(out: seq<TaskSpec>, tasks: seq<TaskSpec>, o: TaskSpec, d: Id)
    requires UniqueIds(out) && TakenFrom(out, tasks) && o in out && o.id in Ids(tasks) && d in Ids(tasks)
    ensures d in o.dependsOn <==> Graphs.Needs(GraphOf(tasks), o.id, d)
  {
    var r := TaskWithId(tasks, o.id);
    assert TakenAs(out, Ids(tasks), r);
    var o' :| o' in out && o'.id == r.id && forall x :: x in Ids(tasks) ==> (x in r.dependsOn <==> x in o'.dependsOn);
    UniqueIdsSame(out, o, o');
    if d in r.dependsOn { DependencyIsNeed(tasks, r, d); }
    if Graphs.Needs(GraphOf(tasks), o.id, d) {
      var r' := NeedsMeans(tasks, o.id, d);
      UniqueIdsSame(tasks, r, r');
    }
  }

  lemma TakenIds(out: seq<TaskSpec>, tasks: seq<TaskSpec>)
    requires TakenFrom(out, tasks)
    ensures Ids(tasks) <= Ids(out)
  {
    forall x | x in Ids(tasks) ensures x in Ids(out) {
      var r := TaskWithId(tasks, x);
      assert TakenAs(out, Ids(tasks), r);
      var o :| o in out && o.id == r.id;
      IdIn(out, o);
    }
  }

  /** A hop or wait of the chain graph, drawn together. */
  lemma ChainStepDrawn(inp: Inputs, st: Stages, tasks: seq<TaskSpec>, a: Id, b: Id)
    requires Built(inp, st) && TakenFrom(st.run.out, tasks)
    requires Graphs.Needs(ChainGraph(inp, Ids(tasks)), a, b)
    ensures HopTo((x: Id) => StandIn(inp, x), a, b) || CarriedTo(GraphOf(tasks), (x: Id) => StandIn(inp, x), a, b)
  {
    TakenIds(st.run.out, tasks);
    if Hop(inp, a, b) {
      var c := OutStandsForItself(inp, st, a);
    } else {
      OutIsCarriers(st.run);
      var o := WaitIsEdge(inp, st, a, b);
      EdgesTaken(st.run.out, tasks, o, b);
    }
  }

  lemma EdgeFromChain(inp: Inputs, st: Stages, tasks: seq<TaskSpec>, c: Id, d: Id) returns (m: Id)
    requires Built(inp, st) && TakenFrom(st.run.out, tasks)
    requires Graphs.Needs(GraphOf(tasks), c, d) && d in Ids(tasks)
    ensures Starts(ChainGraph(inp, Ids(tasks)), (x: Id) => StandIn(inp, x), c, d, m)
  {
    TakenIds(st.run.out, tasks);
    OutIsCarriers(st.run);
    var o := TaskWithId(st.run.out, c);
    EdgesTaken(st.run.out, tasks, o, d);
    m := EdgeIsWait(inp, st, o, d);
    var i := OutStandsForItself(inp, st, c);
    var j := OutStandsForItself(inp, st, d);
    StartsAt(inp, Ids(tasks), c, d, m);
  }

  lemma StartsAt(inp: Inputs, keep: set<Id>, c: Id, d: Id, m: Id)
    requires WellFormed(inp) && c in Ids(inp.bodies) && d in Ids(inp.bodies) && m in Ids(inp.bodies)
    requires c in keep && d in keep && StandIn(inp, c) == c == StandIn(inp, m) && StandIn(inp, d) == d
    requires Wait(inp, m, d)
    ensures Starts(ChainGraph(inp, keep), (x: Id) => StandIn(inp, x), c, d, m)
  {
    assert ChainStep(inp, keep, m, d);
    ChainNeeds(inp, keep, m, d);
    if m != c {
      assert ChainStep(inp, keep, c, m);
      ChainNeeds(inp, keep, c, m);
    }
  }

  lemma ChainContracts(inp: Inputs, st: Stages, tasks: seq<TaskSpec>)
    requires Built(inp, st) && TakenFrom(st.run.out, tasks)
    ensures Contracts(ChainGraph(inp, Ids(tasks)), GraphOf(tasks), (x: Id) => StandIn(inp, x))
  {
    ChainsDrawn(inp, st, tasks);
    EdgesFromChains(inp, st, tasks);
  }

  lemma ChainsDrawn(inp: Inputs, st: Stages, tasks: seq<TaskSpec>)
    requires Built(inp, st) && TakenFrom(st.run.out, tasks)
    ensures DrawnInto(ChainGraph(inp, Ids(tasks)), GraphOf(tasks), (x: Id) => StandIn(inp, x))
  {
    forall a, b | Graphs.Needs(ChainGraph(inp, Ids(tasks)), a, b)
      ensures HopTo((x: Id) => StandIn(inp, x), a, b) || CarriedTo(GraphOf(tasks), (x: Id) => StandIn(inp, x), a, b)
    {
      ChainStepDrawn(inp, st, tasks, a, b);
    }
  }

  lemma EdgesFromChains(inp: Inputs, st: Stages, tasks: seq<TaskSpec>)
    requires Built(inp, st) && TakenFrom(st.run.out, tasks)
    ensures DrawnFrom(ChainGraph(inp, Ids(tasks)), GraphOf(tasks), (x: Id) => StandIn(inp, x))
  {
    forall c, d | Graphs.Needs(GraphOf(tasks), c, d) && d in GraphOf(tasks)
      ensures HasStart(ChainGraph(inp, Ids(tasks)), (x: Id) => StandIn(inp, x), c, d)
    {
      var m := EdgeFromChain(inp, st, tasks, c, d);
    }
  }

  // ----- the theorems -----

  lemma OutTaken(run: ClusterRun)
    requires Pass(run)
    ensures TakenFrom(run.out, run.out)
  {
    OutIsCarriers(run);
  }

  lemma RequestTaken(inp: Inputs, st: Stages)
    requires Built(inp, st)
    ensures TakenFrom(st.run.out, st.request)
  {
    RequestIds(inp, st);
    forall r | r in st.request ensures TakenAs(st.run.out, Ids(st.request), r) {
      OneTaken(inp, st, r);
    }
  }

  lemma OneTaken(inp: Inputs, st: Stages, r: TaskSpec)
    requires Built(inp, st) && r in st.request
    ensures TakenAs(st.run.out, Ids(st.request), r)
  {
    var o := RequestSource(inp, st, r);
  }

  /** The compiled and clustered Tasks have no cycle exactly when the participating ones have no closed chain. */
  lemma ClusteredOrderedExactly(inp: Inputs, st: Stages)
    requires Built(inp, st)
    ensures Acyclic(GraphOf(st.run.out)) <==> Acyclic(ChainGraph(inp, Ids(inp.bodies)))
  {
    OutTaken(st.run);
    ChainContracts(inp, st, st.run.out);
    ContractionAcyclic(ChainGraph(inp, Ids(st.run.out)), GraphOf(st.run.out), (x: Id) => StandIn(inp, x));
    forall a | a in Ids(inp.bodies) ensures StandIn(inp, a) in Ids(st.run.out) * Ids(inp.bodies) {
      StandInIsOut(inp, st, a);
    }
    EveryoneKept(inp, Ids(st.run.out));
  }

  lemma StandInIsOut(inp: Inputs, st: Stages, a: Id)
    requires Built(inp, st) && a in Ids(inp.bodies)
    ensures StandIn(inp, a) in Ids(st.run.out) * Ids(inp.bodies)
  {
    var k, c := StandInIs(inp, st, a);
    OutIsCarriers(st.run);
    FusedKeepsId(st.run, c);
    IdIn(st.run.out, st.run.fused[c]);
    PlannedIds(inp, st);
  }

  lemma EveryoneKept(inp: Inputs, keep: set<Id>)
    requires WellFormed(inp) && forall a :: a in Ids(inp.bodies) ==> StandIn(inp, a) in keep * Ids(inp.bodies)
    ensures Acyclic(ChainGraph(inp, keep)) <==> Acyclic(ChainGraph(inp, Ids(inp.bodies)))
  {
    forall a, b ensures Graphs.Needs(ChainGraph(inp, keep), a, b) <==>
        Graphs.Needs(ChainGraph(inp, Ids(inp.bodies)), a, b) {
      ChainNeeds(inp, keep, a, b);
      ChainNeeds(inp, Ids(inp.bodies), a, b);
    }
    SameNeeds(ChainGraph(inp, keep), ChainGraph(inp, Ids(inp.bodies)));
  }

  lemma SameNeeds(g: Graph, h: Graph)
    requires forall a, b :: Graphs.Needs(g, a, b) <==> Graphs.Needs(h, a, b)
    ensures Acyclic(g) <==> Acyclic(h)
  {
    forall p ensures Cycle(g, p) <==> Cycle(h, p) { SameCycle(g, h, p); }
  }

  lemma SameCycle(g: Graph, h: Graph, p: seq<Id>)
    requires forall a, b :: Graphs.Needs(g, a, b) <==> Graphs.Needs(h, a, b)
    ensures Cycle(g, p) <==> Cycle(h, p)
  {
  }

  /** The request can be ordered exactly when the Tasks it plans have no closed chain of waits and hops. */
  lemma RequestOrderedExactly(inp: Inputs, st: Stages)
    requires Built(inp, st)
    ensures Acyclic(GraphOf(st.request)) <==> Acyclic(ChainGraph(inp, Ids(st.request)))
  {
    RequestTaken(inp, st);
    ChainContracts(inp, st, st.request);
    ContractionAcyclic(ChainGraph(inp, Ids(st.request)), GraphOf(st.request), (x: Id) => StandIn(inp, x));
  }

  /** A cycle of the request comes from a closed chain of the Tasks it plans. */
  lemma CycleIsChain(inp: Inputs, st: Stages, q: seq<Id>) returns (p: seq<Id>)
    requires Built(inp, st) && Cycle(GraphOf(st.request), q)
    ensures Cycle(ChainGraph(inp, Ids(st.request)), p) && p[0] == q[0]
  {
    RequestTaken(inp, st);
    ChainContracts(inp, st, st.request);
    p := CycleApart(ChainGraph(inp, Ids(st.request)), GraphOf(st.request), (x: Id) => StandIn(inp, x), q);
  }

  /** Leaving Tasks out never closes a chain. */
  lemma FewerChains(inp: Inputs, keep: set<Id>, p: seq<Id>)
    requires WellFormed(inp) && Cycle(ChainGraph(inp, keep), p) && keep <= Ids(inp.bodies)
    ensures Cycle(ChainGraph(inp, Ids(inp.bodies)), p)
  {
    var h, all := ChainGraph(inp, keep), ChainGraph(inp, Ids(inp.bodies));
    forall i, j | 0 <= i && j == i + 1 && j < |p| ensures Graphs.Needs(all, p[i], p[j]) {
      assert Graphs.Needs(h, p[i], p[j]);
    }
  }

  /** Where nothing is fused, the chains are the waits themselves, so an acyclic set of Tasks can be ordered. */
  lemma WithoutFusing(inp: Inputs)
    requires WellFormed(inp) && Acyclic(GraphOf(inp.bodies))
    requires forall id :: UnitHead(inp, id) == id && StandIn(inp, id) == id
    ensures Acyclic(ChainGraph(inp, Ids(inp.bodies)))
  {
    var h := ChainGraph(inp, Ids(inp.bodies));
    forall p | Cycle(h, p) ensures Cycle(GraphOf(inp.bodies), p) {
      forall i, j | 0 <= i && j == i + 1 && j < |p| ensures Graphs.Needs(GraphOf(inp.bodies), p[i], p[j]) {
        assert Graphs.Needs(h, p[i], p[j]);
        PlainWait(inp, p[i], p[j]);
      }
    }
  }

  lemma PlainWait(inp: Inputs, a: Id, b: Id)
    requires WellFormed(inp) && (Hop(inp, a, b) || Wait(inp, a, b))
    requires forall id :: UnitHead(inp, id) == id && StandIn(inp, id) == id
    ensures Graphs.Needs(GraphOf(inp.bodies), a, b)
  {
    var d :| WaitsOn(inp, a, d) && UnitHead(inp, d) == b;
    var t :| t in inp.bodies && t.id == a && d in t.dependsOn && !GivenUp(inp, t, d);
    DependencyIsNeed(inp.bodies, t, d);
  }
}
