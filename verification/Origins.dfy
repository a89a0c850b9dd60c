/** Where every Task of the final request, and every step of the final plan, comes from. */
module Origins {
  import opened Basics
  import opened Spans
  import opened Tasks
  import opened Segments
  import opened Compile
  import opened Clusters
  import opened ClusterFacts
  import opened StaticEdges
  import opened Exclusion
  import opened Dependents
  import opened Pipeline
  import Seating

  // ----- Dynamic Tasks are not touched by the first pass -----

  lemma {:induction false} FilterAll(p: Id -> bool, s: seq<Id>)
    requires forall x :: x in s ==> p(x)
    ensures Filter(p, s) == s
  {
    if s != [] {
      var head, rest := s[0], s[1..];
      assert head in s && p(head);
      forall x | x in rest ensures p(x) { assert x in s; }
      FilterAll(p, rest);
      assert s == [head] + rest;
    }
  }

  lemma DynamicNotDropped(inp: Inputs, st: Stages, i: nat)
    requires Built(inp, st) && i < |inp.bodies| && !inp.bodies[i].Static()
    ensures st.dropped[i] == inp.bodies[i]
  {
    var t := inp.bodies[i];
    assert EdgesDropped(st.drops, t, st.dropped[i]);
    assert (inp.bodies + inp.free)[i] == t;
    forall d | d in t.dependsOn ensures Drop(t.id, d) !in st.drops {
      forall u | u in inp.bodies + inp.free && u.id == t.id ensures !GivenUp(inp, u, d) {
        UniqueIdsSame(inp.bodies + inp.free, u, t);
      }
      assert Drop(t.id, d).task == t.id && Drop(t.id, d).dependency == d;
    }
    FilterAll((d: Id) => Drop(t.id, d) !in st.drops, t.dependsOn);
  }

  /** A Task after the first pass is a participating Task, perhaps with fewer edges. */
  lemma DroppedSource(inp: Inputs, st: Stages, r: TaskSpec) returns (t: TaskSpec)
    requires Built(inp, st) && r in st.dropped
    ensures t in inp.bodies && r.id == t.id && r == t.(dependsOn := r.dependsOn)
    ensures forall d :: d in r.dependsOn ==> d in t.dependsOn && Drop(t.id, d) !in st.drops
    ensures !t.Static() ==> r == t
  {
    var i :| 0 <= i < |st.dropped| && st.dropped[i] == r;
    t := inp.bodies[i];
    assert EdgesDropped(st.drops, inp.bodies[i], st.dropped[i]);
    if !t.Static() { DynamicNotDropped(inp, st, i); }
  }

  lemma BodiesUnique(inp: Inputs, a: TaskSpec, b: TaskSpec)
    requires WellFormed(inp) && (a in inp.bodies || a in inp.free) && (b in inp.bodies || b in inp.free) && a.id == b.id
    ensures a == b
    ensures (a in inp.bodies && b in inp.bodies) || (a in inp.free && b in inp.free)
  {
    assert a in inp.bodies + inp.free && b in inp.bodies + inp.free;
    UniqueIdsSame(inp.bodies + inp.free, a, b);
  }

  // ----- Tasks of the clustered request -----

  /** A Dynamic Task of the clustered request is one of the working request with renamed edges. */
  lemma DynamicSource(inp: Inputs, st: Stages, o: TaskSpec) returns (c: TaskSpec)
    requires Built(inp, st) && o in st.run.out && !o.Static()
    ensures c in st.current && RenamedBy(st.home, c, o) && o in st.run.tasks && o.id !in st.run.carriers
  {
    OutIsCarriers(st.run);
    var k :| 0 <= k < |st.run.tasks| && IsCarrier(st.run.tasks, st.run.rep, k) && st.run.fused[k] == o;
    FusedKeepsId(st.run, k);
    DynamicUntouched(st.run, k);
    c := st.current[k];
    assert RenamedBy(st.home, st.current[k], st.run.tasks[k]);
  }

  /** A Static Task before clustering is a participating one, with its own window. */
  lemma StaticSource(inp: Inputs, st: Stages, k: nat) returns (t: TaskSpec)
    requires Built(inp, st) && k < |st.run.tasks| && st.run.tasks[k].Static()
    ensures t in inp.bodies && t.Static() && t.id == st.run.tasks[k].id && t.window == st.run.tasks[k].window
    ensures st.current[k] in st.dropped && RenamedBy(st.home, st.current[k], st.run.tasks[k])
    ensures st.current[k].id !in st.home
    ensures forall d :: d in st.current[k].dependsOn ==> Drop(t.id, d) !in st.drops && d in t.dependsOn
  {
    assert RenamedBy(st.home, st.current[k], st.run.tasks[k]);
    var c := st.current[k];
    assert c in st.current;
    t := DroppedSource(inp, st, c);
  }

  /** A participating Static Task is still there before clustering. */
  lemma StaticStays(inp: Inputs, st: Stages, t: TaskSpec) returns (k: nat)
    requires Built(inp, st) && t in inp.bodies && t.Static()
    ensures k < |st.run.tasks| && st.run.tasks[k].id == t.id && st.run.tasks[k].Static()
    ensures st.run.tasks[k].window == t.window
  {
    StaticsStayHome(inp, st, t);
    var i :| 0 <= i < |inp.bodies| && inp.bodies[i] == t;
    var r := st.dropped[i];
    assert EdgesDropped(st.drops, inp.bodies[i], st.dropped[i]);
    assert r in st.dropped && r.id !in st.home;
    assert r in st.current;
    k :| 0 <= k < |st.current| && st.current[k] == r;
    assert RenamedBy(st.home, st.current[k], st.run.tasks[k]);
  }

  /** Only Dynamic children are ever fused. */
  lemma StaticsStayHome(inp: Inputs, st: Stages, t: TaskSpec)
    requires Built(inp, st) && (t in inp.bodies || t in inp.free) && t.Static()
    ensures t.id !in st.home
  {
    forall m | m in st.home ensures m != t.id {
      var u := FusedChild(inp, st, m);
      if m == t.id { BodiesUnique(inp, u, t); }
    }
  }

  /** Every fused child is a participating Dynamic Task. */
  lemma FusedChild(inp: Inputs, st: Stages, m: Id) returns (u: TaskSpec)
    requires Built(inp, st) && m in st.home
    ensures u in inp.bodies && !u.Static() && u.id == m
    ensures st.home[m] in st.compiled && u in st.compiled[st.home[m]].members
  {
    var c := st.home[m];
    var segment := st.compiled[c];
    assert SegmentOf(st.dropped, st.home, c, segment);
    var i :| 0 <= i < |segment.members| && segment.members[i].id == m;
    var carrier := TaskWithId(st.current, c);
    assert Unit(inp.rows, segment.members, carrier);
    assert Fusable(inp.rows, segment.members[i]);
    u := DroppedSource(inp, st, segment.members[i]);
  }

  /** Absent windows belong to nothing that is planned. */
  lemma PlannedIds(inp: Inputs, st: Stages)
    requires Built(inp, st)
    ensures Ids(st.run.out) <= Ids(inp.bodies)
    ensures Ids(st.run.covered) <= Ids(inp.bodies)
  {
    forall id | id in Ids(st.run.tasks) ensures id in Ids(inp.bodies) {
      var k :| 0 <= k < |st.run.tasks| && st.run.tasks[k].id == id;
      assert RenamedBy(st.home, st.current[k], st.run.tasks[k]);
      var c := st.current[k];
      assert c in st.current;
      if c.id in st.compiled {
        CarriersAreHome(st.dropped, inp.rows, st.current, st.compiled, st.home);
        var u := FusedChild(inp, st, c.id);
        IdIn(inp.bodies, u);
      } else {
        var t := DroppedSource(inp, st, c);
        IdIn(inp.bodies, t);
      }
    }
    OutIsCarriers(st.run);
    forall i | 0 <= i < |st.run.out| ensures st.run.out[i].id in Ids(inp.bodies) {
      assert st.run.out[i] in st.run.out;
      var k :| 0 <= k < |st.run.tasks| && IsCarrier(st.run.tasks, st.run.rep, k) && st.run.fused[k] == st.run.out[i];
      FusedKeepsId(st.run, k);
      assert st.run.tasks[k].id in Ids(st.run.tasks);
    }
    forall i | 0 <= i < |st.run.covered| ensures st.run.covered[i].id in Ids(inp.bodies) {
      assert st.run.covered[i] in st.run.covered;
      var k :| 0 <= k < |st.run.tasks| && !IsCarrier(st.run.tasks, st.run.rep, k)
          && st.run.tasks[k] == st.run.covered[i];
      assert st.run.tasks[k].id in Ids(st.run.tasks);
    }
  }

  // ----- Tasks of the final request -----

  ghost predicate Descends(inp: Inputs, st: Stages, o: TaskSpec, r: TaskSpec)
    requires Windowed(st.run.out)
  {
    && o in st.run.out && r == Estimated(inp.observed, o).(window := r.window, dependsOn := r.dependsOn)
    && Pushed(SettingFor(inp, st.run), o, o.(window := r.window))
    && forall d :: d in r.dependsOn <==> d in o.dependsOn && d in Ids(st.request)
  }

  lemma PlannedUnique(inp: Inputs, st: Stages)
    requires Built(inp, st)
    ensures UniqueIds(st.planned) && UniqueIds(st.fitting)
    ensures forall p :: p in st.planned ==> p in st.pushed
  {
    OutIsCarriers(st.run);
    FittingUnique(SettingFor(inp, st.run), st.run.out, st.pushed, st.judged, st.fitting);
    FilterMultiset((t: TaskSpec) => t.id !in st.unseatable, st.fitting);
    UniqueIdsSub(st.seatable, st.fitting);
    FilterMultiset((t: TaskSpec) => !Doomed(t, st.removed), st.seatable);
    UniqueIdsSub(st.planned, st.seatable);
  }

  lemma PrunedIds(planned: seq<TaskSpec>, request: seq<TaskSpec>)
    requires |request| == |planned| && forall i :: 0 <= i < |request| ==> Pruned(Ids(planned), planned[i], request[i])
    ensures Ids(request) == Ids(planned)
    ensures UniqueIds(planned) ==> UniqueIds(request)
  {
    assert forall i :: 0 <= i < |request| ==> request[i].id == planned[i].id;
  }

  lemma RequestIds(inp: Inputs, st: Stages)
    requires Built(inp, st)
    ensures Ids(st.request) == Ids(st.planned)
    ensures UniqueIds(st.request)
  {
    PlannedUnique(inp, st);
    PrunedIds(st.planned, st.pruned);
    EstimatedIds(inp.observed, st.pruned, st.request);
  }

  lemma EstimatedIds(observed: map<Id, DurationModel>, pruned: seq<TaskSpec>, request: seq<TaskSpec>)
    requires |request| == |pruned| && forall i :: 0 <= i < |request| ==> request[i] == Estimated(observed, pruned[i])
    ensures Ids(request) == Ids(pruned)
    ensures UniqueIds(pruned) ==> UniqueIds(request)
  {
    assert forall i :: 0 <= i < |request| ==> request[i].id == pruned[i].id;
  }

  /** Each Task of the request is one of the clustered request, pushed and pruned. */
  lemma RequestSource(inp: Inputs, st: Stages, r: TaskSpec) returns (o: TaskSpec)
    requires Built(inp, st) && r in st.request
    ensures Descends(inp, st, o, r)
  {
    var p := FinalSource(inp.observed, st.planned, st.pruned, st.request, r);
    o := PlannedSource(inp, st, p);
    RequestIds(inp, st);
    SourceOfFinal(SettingFor(inp, st.run), inp.observed, st.planned, Ids(st.request), o, p, r);
  }

  lemma PlannedSource(inp: Inputs, st: Stages, p: TaskSpec) returns (o: TaskSpec)
    requires Built(inp, st) && p in st.planned
    ensures o in st.run.out && p == o.(window := p.window) && Pushed(SettingFor(inp, st.run), o, p)
  {
    PlannedUnique(inp, st);
    o := PushedSource(SettingFor(inp, st.run), st.run.out, st.pushed, st.judged, p);
  }

  lemma SourceOfFinal(setting: Setting, observed: map<Id, DurationModel>, planned: seq<TaskSpec>, ids: set<Id>,
                      o: TaskSpec, p: TaskSpec, r: TaskSpec)
    requires p == o.(window := p.window) && Pushed(setting, o, p)
    requires FinalOf(observed, planned, p, r) && ids == Ids(planned)
    ensures r == Estimated(observed, o).(window := r.window, dependsOn := r.dependsOn)
    ensures Pushed(setting, o, o.(window := r.window))
    ensures forall d :: d in r.dependsOn <==> d in o.dependsOn && d in ids
  {
    assert r.window == p.window;
  }

  /** The last two passes: edges to planned Tasks only, and the observed duration. */
  ghost predicate FinalOf(observed: map<Id, DurationModel>, planned: seq<TaskSpec>, p: TaskSpec, r: TaskSpec)
  {
    r == Estimated(observed, p).(dependsOn := Filter((d: Id) => d in Ids(planned), p.dependsOn))
  }

  lemma FinalTask(observed: map<Id, DurationModel>, planned: seq<TaskSpec>, pruned: seq<TaskSpec>,
                  request: seq<TaskSpec>, p: TaskSpec)
    returns (r: TaskSpec)
    requires |pruned| == |planned| && forall i :: 0 <= i < |pruned| ==> Pruned(Ids(planned), planned[i], pruned[i])
    requires |request| == |pruned| && forall i :: 0 <= i < |request| ==> request[i] == Estimated(observed, pruned[i])
    requires p in planned
    ensures r in request && FinalOf(observed, planned, p, r)
  {
    var i :| 0 <= i < |planned| && planned[i] == p;
    r := request[i];
    assert Pruned(Ids(planned), planned[i], pruned[i]);
  }

  lemma FinalSource(observed: map<Id, DurationModel>, planned: seq<TaskSpec>, pruned: seq<TaskSpec>,
                    request: seq<TaskSpec>, r: TaskSpec)
    returns (p: TaskSpec)
    requires |pruned| == |planned| && forall i :: 0 <= i < |pruned| ==> Pruned(Ids(planned), planned[i], pruned[i])
    requires |request| == |pruned| && forall i :: 0 <= i < |request| ==> request[i] == Estimated(observed, pruned[i])
    requires r in request
    ensures p in planned && FinalOf(observed, planned, p, r)
  {
    var i :| 0 <= i < |request| && request[i] == r;
    p := planned[i];
    assert Pruned(Ids(planned), planned[i], pruned[i]);
  }

  lemma PushedSource(setting: Setting, tasks: seq<TaskSpec>, pushed: seq<TaskSpec>, judged: map<Id, Reason>,
                     p: TaskSpec)
    returns (o: TaskSpec)
    requires Judged(setting, tasks, pushed, judged) && p in pushed
    ensures o in tasks && p == o.(window := p.window) && Pushed(setting, o, p)
  {
    var k :| 0 <= k < |pushed| && pushed[k] == p;
    o := tasks[k];
    assert JudgedOne(setting, tasks[k], pushed[k], judged);
  }

  /** No commitment is ever left out. */
  lemma CommitmentRequested(inp: Inputs, st: Stages, o: TaskSpec) returns (r: TaskSpec)
    requires Built(inp, st) && o in st.run.out && o.Static()
    ensures r in st.request && Descends(inp, st, o, r) && r.window == o.window
  {
    RequestIds(inp, st);
    OutIsCarriers(st.run);
    CommitmentPushed(SettingFor(inp, st.run), st.run.out, st.pushed, st.judged, o);
    assert o in st.fitting;
    NotUnseatable(inp, st, o);
    assert o in st.seatable && !Doomed(o, st.removed) && o in st.planned;
    r := FinalTask(inp.observed, st.planned, st.pruned, st.request, o);
  }

  lemma CommitmentPushed(setting: Setting, tasks: seq<TaskSpec>, pushed: seq<TaskSpec>, judged: map<Id, Reason>,
                         o: TaskSpec)
    requires Judged(setting, tasks, pushed, judged) && o in tasks && o.Static()
    ensures o in pushed && o.id !in judged && Pushed(setting, o, o)
  {
    var k :| 0 <= k < |tasks| && tasks[k] == o;
    assert JudgedOne(setting, tasks[k], pushed[k], judged);
  }

  lemma NotUnseatable(inp: Inputs, st: Stages, o: TaskSpec)
    requires Built(inp, st) && o in st.fitting && o.Static()
    ensures o.id !in st.unseatable
  {
    OutIsCarriers(st.run);
    FittingUnique(SettingFor(inp, st.run), st.run.out, st.pushed, st.judged, st.fitting);
    var seats, ends :| Seating.Sound(st.fitting, inp.mandatory, FixedSpans(st.run.out), seats, ends, st.unseatable);
    forall id | id in st.unseatable ensures id != o.id {
      assert id in Seating.MovableIds(st.fitting, inp.mandatory);
      var t :| t in st.fitting && Seating.Movable(inp.mandatory, t) && t.id == id;
      if t.id == o.id { UniqueIdsSame(st.fitting, t, o); }
    }
  }
}
