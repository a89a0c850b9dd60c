/** What clustering keeps: busy time, every Task once, disjoint spans, and edges that still hold. */
module ClusterFacts {
  import opened Basics
  import opened Sorting
  import opened Spans
  import opened Tasks
  import opened UnionFind
  import opened Clusters

  // ----- every group has a carrier -----

  lemma {:induction false} CarrierAmong(tasks: seq<TaskSpec>, rep: seq<nat>, k: nat, upTo: nat) returns (c: nat)
    requires |rep| == |tasks| && k < upTo <= |tasks|
    ensures c < upTo && rep[c] == rep[k]
    ensures forall m :: 0 <= m < upTo && rep[m] == rep[k] ==> CarrierLeq(tasks[c], tasks[m])
  {
    if k == upTo - 1 {
      if j :| 0 <= j < k && rep[j] == rep[k] {
        var b := CarrierAmong(tasks, rep, j, k);
        c := if CarrierLeq(tasks[b], tasks[k]) then b else k;
      } else {
        c := k;
      }
    } else {
      var b := CarrierAmong(tasks, rep, k, upTo - 1);
      c := if rep[upTo - 1] == rep[k] && !CarrierLeq(tasks[b], tasks[upTo - 1]) then upTo - 1 else b;
    }
  }

  lemma GroupHasCarrier(tasks: seq<TaskSpec>, rep: seq<nat>, k: nat) returns (c: nat)
    requires |rep| == |tasks| && k < |tasks|
    ensures IsCarrier(tasks, rep, c) && rep[c] == rep[k]
  {
    c := CarrierAmong(tasks, rep, k, |tasks|);
  }

  // ----- one entry in the result for each group -----

  /** One run of the pass: what went in, its groups, and what came out. */
  datatype ClusterRun = ClusterRun(tasks: seq<TaskSpec>, rep: seq<nat>, fused: seq<TaskSpec>,
                                   out: seq<TaskSpec>, covered: seq<TaskSpec>, carriers: map<Id, TimeWindow>)

  ghost predicate Pass(run: ClusterRun)
  {
    && UniqueIds(run.tasks) && StaticsAnchored(run.tasks)
    && Clustered(run.tasks, run.rep, run.fused, run.out, run.covered, run.carriers)
  }

  lemma FusedKeepsId(run: ClusterRun, k: nat)
    requires Pass(run) && k < |run.tasks|
    ensures run.fused[k].id == run.tasks[k].id
    ensures run.fused[k].Static() <==> run.tasks[k].Static()
    ensures run.tasks[k].id in Ids(run.covered) <==> !IsCarrier(run.tasks, run.rep, k)
  {
    if IsCarrier(run.tasks, run.rep, k) {
      assert Carries(run.tasks, run.rep, k, run.fused[k]);
      if !Alone(run.rep, k) {
        var m :| 0 <= m < |run.rep| && run.rep[m] == run.rep[k] && m != k;
        GroupedIsStatic(run.tasks, run.rep, k, m);
      }
      forall i | 0 <= i < |run.covered| ensures run.covered[i].id != run.tasks[k].id {
        assert run.covered[i] in run.covered;
        var m :| 0 <= m < |run.tasks| && !IsCarrier(run.tasks, run.rep, m) && run.tasks[m] == run.covered[i];
        DifferentIds(run.tasks, m, k);
      }
    } else {
      assert run.tasks[k] in run.covered;
      var i :| 0 <= i < |run.covered| && run.covered[i] == run.tasks[k];
    }
  }

  lemma GroupedIsStatic(tasks: seq<TaskSpec>, rep: seq<nat>, k: nat, m: nat)
    requires Components(tasks, rep) && k < |tasks| && m < |tasks| && k != m && rep[k] == rep[m]
    ensures tasks[k].Static() && tasks[m].Static()
  {
    var p :| Joins(tasks, p, k, m);
    assert Touch(tasks, p[0], p[1]);
    assert Touch(tasks, p[|p| - 2], p[|p| - 1]);
  }

  /** The result holds exactly the carriers. */
  lemma OutIsCarriers(run: ClusterRun)
    requires Pass(run)
    ensures forall k :: 0 <= k < |run.tasks| && IsCarrier(run.tasks, run.rep, k) ==> run.fused[k] in run.out
    ensures forall t :: t in run.out ==>
        exists k :: 0 <= k < |run.tasks| && IsCarrier(run.tasks, run.rep, k) && run.fused[k] == t
    ensures UniqueIds(run.out)
  {
    forall k | 0 <= k < |run.tasks| && IsCarrier(run.tasks, run.rep, k) ensures run.fused[k] in run.out {
      FusedKeepsId(run, k);
      assert run.fused[k] in run.fused;
    }
    forall t | t in run.out
      ensures exists k :: 0 <= k < |run.tasks| && IsCarrier(run.tasks, run.rep, k) && run.fused[k] == t
    {
      var k :| 0 <= k < |run.fused| && run.fused[k] == t;
      FusedKeepsId(run, k);
    }
    forall i, j | 0 <= i < j < |run.fused| ensures run.fused[i].id != run.fused[j].id {
      FusedKeepsId(run, i);
      FusedKeepsId(run, j);
    }
    FilterMultiset((t: TaskSpec) => t.id !in Ids(run.covered), run.fused);
    UniqueIdsSub(run.out, run.fused);
  }

  /** Every Task survives exactly once: in the request under its own handle, or set aside unchanged. */
  lemma EveryTaskOnce(run: ClusterRun, t: TaskSpec)
    requires Pass(run) && t in run.tasks
    ensures t in run.covered <==> t.id !in Ids(run.out)
    ensures t in run.covered <==> t.id in Ids(run.covered)
    ensures t.id in Ids(run.out) ==> exists u :: u in run.out && u.id == t.id && Restored(run.carriers, u) == t.window
    ensures !t.Static() ==> t in run.out && t.id !in run.carriers
  {
    var k :| 0 <= k < |run.tasks| && run.tasks[k] == t;
    OutIsCarriers(run);
    FusedKeepsId(run, k);
    if IsCarrier(run.tasks, run.rep, k) {
      assert run.fused[k] in run.out;
      var i :| 0 <= i < |run.out| && run.out[i] == run.fused[k];
      assert run.out[i].id == t.id;
      CarrierRestores(run, k);
      if !t.Static() {
        DynamicUntouched(run, k);
      }
    } else {
      assert t in run.covered;
      forall i | 0 <= i < |run.out| ensures run.out[i].id != t.id {
        assert run.out[i] in run.out;
        var m :| 0 <= m < |run.tasks| && IsCarrier(run.tasks, run.rep, m) && run.fused[m] == run.out[i];
        FusedKeepsId(run, m);
        DifferentIds(run.tasks, m, k);
      }
      if !t.Static() {
        DynamicUntouched(run, k);
      }
    }
  }

  /** The window a Task gets back after planning: its own if it carried others. */
  ghost function Restored(carriers: map<Id, TimeWindow>, t: TaskSpec): Option<TimeWindow>
  {
    if t.id in carriers then Some(carriers[t.id]) else t.window
  }

  lemma CarrierRestores(run: ClusterRun, k: nat)
    requires Pass(run) && IsCarrier(run.tasks, run.rep, k)
    ensures Restored(run.carriers, run.fused[k]) == run.tasks[k].window
  {
    FusedKeepsId(run, k);
    assert Carries(run.tasks, run.rep, k, run.fused[k]);
    if Alone(run.rep, k) {
      LonersAreNotKept(run, k);
    }
  }

  lemma LonersAreNotKept(run: ClusterRun, k: nat)
    requires Pass(run) && k < |run.tasks| && Alone(run.rep, k)
    ensures run.tasks[k].id !in run.carriers
  {
    forall id | id in run.carriers ensures id != run.tasks[k].id {
      var m :| 0 <= m < |run.tasks| && IsCarrier(run.tasks, run.rep, m) && !Alone(run.rep, m) && run.tasks[m].id == id;
      DifferentIds(run.tasks, m, k);
    }
  }

  lemma DynamicUntouched(run: ClusterRun, k: nat)
    requires Pass(run) && k < |run.tasks| && !run.tasks[k].Static()
    ensures Alone(run.rep, k) && IsCarrier(run.tasks, run.rep, k) && run.fused[k] == run.tasks[k]
    ensures run.tasks[k].id !in run.carriers
  {
    forall m | 0 <= m < |run.rep| && run.rep[m] == run.rep[k] ensures m == k {
      if m != k { GroupedIsStatic(run.tasks, run.rep, k, m); }
    }
    assert Carries(run.tasks, run.rep, k, run.fused[k]);
    LonersAreNotKept(run, k);
  }

  // ----- the hull of a chain of overlapping spans is busy throughout -----

  ghost predicate BusyAt(tasks: seq<TaskSpec>, k: nat, t: nat)
  {
    k < |tasks| && tasks[k].Static() && tasks[k].window.Some? && Holds(tasks[k].window.value, t)
  }

  ghost predicate Busy(tasks: seq<TaskSpec>, t: nat)
  {
    exists k :: BusyAt(tasks, k, t)
  }

  lemma {:induction false} ChainIsBusy(tasks: seq<TaskSpec>, rep: seq<nat>, p: seq<nat>, t: nat) returns (k: nat)
    requires Path(tasks, p) && p[0] < |tasks| && tasks[p[0]].Static() && Anchored(tasks[p[0]])
    requires |rep| == |tasks| && forall a: nat, b: nat :: Touch(tasks, a, b) ==> rep[a] == rep[b]
    requires p[|p| - 1] < |tasks| && StartOf(tasks[p[0]]) <= t < EndOf(tasks[p[|p| - 1]])
    requires StaticsAnchored(tasks)
    ensures BusyAt(tasks, k, t) && rep[k] == rep[p[0]]
  {
    if t < EndOf(tasks[p[0]]) {
      k := p[0];
    } else {
      var tail := p[1..];
      assert Touch(tasks, p[0], p[1]);
      forall i, j | 0 <= i && j == i + 1 && j < |tail| ensures Touch(tasks, tail[i], tail[j]) {
        assert tail[i] == p[i + 1] && tail[j] == p[j + 1];
      }
      k := ChainIsBusy(tasks, rep, tail, t);
    }
  }

  lemma TouchIsGrouped(tasks: seq<TaskSpec>, rep: seq<nat>, a: nat, b: nat)
    requires Components(tasks, rep) && Touch(tasks, a, b)
    ensures rep[a] == rep[b]
  {
    ConnectedTouch(tasks, a, b);
  }

  lemma FusedSpan(run: ClusterRun, c: nat, k: nat)
    requires Pass(run)
    requires IsCarrier(run.tasks, run.rep, c) && run.tasks[c].Static() && k < |run.tasks| && run.rep[k] == run.rep[c]
    ensures run.tasks[k].Static() && Anchored(run.tasks[k]) && Anchored(run.fused[c])
    ensures Inside(run.tasks[k].window.value, run.fused[c].window.value)
    ensures StartOf(run.fused[c]) == StartOf(run.tasks[c])
    ensures exists m :: 0 <= m < |run.tasks| && run.rep[m] == run.rep[c] && EndOf(run.tasks[m]) == EndOf(run.fused[c])
  {
    if k != c { GroupedIsStatic(run.tasks, run.rep, c, k); }
    assert Carries(run.tasks, run.rep, c, run.fused[c]);
    assert CarrierLeq(run.tasks[c], run.tasks[k]);
    assert Anchored(run.tasks[c]) && Anchored(run.tasks[k]);
    if Alone(run.rep, c) {
      assert run.rep[c] == run.rep[c] && EndOf(run.tasks[c]) == EndOf(run.fused[c]);
    } else {
      assert GroupEnd(run.tasks, run.rep, c, EndOf(run.fused[c]));
      assert EndOf(run.tasks[c]) <= EndOf(run.fused[c]);
    }
  }

  /** Inside a fused span some member of its group is busy at every instant. */
  lemma FusedSpanIsBusy(run: ClusterRun, c: nat, t: nat)
    returns (k: nat)
    requires Pass(run)
    requires IsCarrier(run.tasks, run.rep, c) && BusyAt(run.fused, c, t)
    ensures BusyAt(run.tasks, k, t) && run.rep[k] == run.rep[c]
  {
    FusedKeepsId(run, c);
    FusedSpan(run, c, c);
    var m :| 0 <= m < |run.tasks| && run.rep[m] == run.rep[c] && EndOf(run.tasks[m]) == EndOf(run.fused[c]);
    assert Connected(run.tasks, c, m);
    var p :| Joins(run.tasks, p, c, m);
    forall a: nat, b: nat | Touch(run.tasks, a, b)
      ensures run.rep[a] == run.rep[b] { TouchIsGrouped(run.tasks, run.rep, a, b); }
    k := ChainIsBusy(run.tasks, run.rep, p, t);
  }

  lemma BusyBefore(run: ClusterRun, i: nat, t: nat)
    requires Pass(run) && BusyAt(run.out, i, t)
    ensures Busy(run.tasks, t)
  {
    OutIsCarriers(run);
    assert run.out[i] in run.out;
    var c :| 0 <= c < |run.tasks| && IsCarrier(run.tasks, run.rep, c) && run.fused[c] == run.out[i];
    assert BusyAt(run.fused, c, t);
    var k := FusedSpanIsBusy(run, c, t);
  }

  lemma BusyAfter(run: ClusterRun, k: nat, t: nat)
    requires Pass(run) && BusyAt(run.tasks, k, t)
    ensures Busy(run.out, t)
  {
    OutIsCarriers(run);
    var c := GroupHasCarrier(run.tasks, run.rep, k);
    if c != k { GroupedIsStatic(run.tasks, run.rep, c, k); }
    FusedKeepsId(run, c);
    FusedSpan(run, c, k);
    assert run.fused[c] in run.out;
    var i :| 0 <= i < |run.out| && run.out[i] == run.fused[c];
    assert BusyAt(run.out, i, t);
  }

  /** The busy instants after clustering are exactly the busy instants before. */
  lemma BusyTimeUnchanged(run: ClusterRun, t: nat)
    requires Pass(run)
    ensures Busy(run.out, t) <==> Busy(run.tasks, t)
  {
    if Busy(run.out, t) {
      var i :| BusyAt(run.out, i, t);
      BusyBefore(run, i, t);
    }
    if Busy(run.tasks, t) {
      var k :| BusyAt(run.tasks, k, t);
      BusyAfter(run, k, t);
    }
  }

  /** Fused spans of different groups do not meet. */
  lemma FusedSpansDisjoint(run: ClusterRun, a: nat, b: nat)
    requires Pass(run)
    requires IsCarrier(run.tasks, run.rep, a) && IsCarrier(run.tasks, run.rep, b) && a != b
    requires run.tasks[a].Static() && run.tasks[b].Static()
    ensures Anchored(run.fused[a]) && Anchored(run.fused[b])
    ensures !Overlap(run.fused[a].window.value, run.fused[b].window.value)
  {
    FusedKeepsId(run, a);
    FusedKeepsId(run, b);
    FusedSpan(run, a, a);
    FusedSpan(run, b, b);
    OverlapIsSharedInstant(run.fused[a].window.value, run.fused[b].window.value);
    if Overlap(run.fused[a].window.value, run.fused[b].window.value) {
      var t: nat :| Holds(run.fused[a].window.value, t) && Holds(run.fused[b].window.value, t);
      assert BusyAt(run.fused, a, t) && BusyAt(run.fused, b, t);
      var i := FusedSpanIsBusy(run, a, t);
      var j := FusedSpanIsBusy(run, b, t);
      assert Touch(run.tasks, i, j);
      TouchIsGrouped(run.tasks, run.rep, i, j);
      CarrierUnique(run.tasks, run.rep, a, b);
    }
  }

  /** The kernel sees commitments that never collide. */
  lemma CommitmentsDisjoint(run: ClusterRun)
    requires Pass(run)
    ensures StaticsAnchored(run.out)
    ensures forall i, j :: 0 <= i < j < |run.out| && run.out[i].Static() && run.out[j].Static() ==>
              !Overlap(run.out[i].window.value, run.out[j].window.value)
  {
    OutIsCarriers(run);
    forall i | 0 <= i < |run.out| && run.out[i].Static() ensures Anchored(run.out[i]) {
      assert run.out[i] in run.out;
      var a :| 0 <= a < |run.tasks| && IsCarrier(run.tasks, run.rep, a) && run.fused[a] == run.out[i];
      FusedKeepsId(run, a);
      FusedSpan(run, a, a);
    }
    forall i, j | 0 <= i < j < |run.out| && run.out[i].Static() && run.out[j].Static()
      ensures !Overlap(run.out[i].window.value, run.out[j].window.value)
    {
      assert run.out[i] in run.out && run.out[j] in run.out;
      var a :| 0 <= a < |run.tasks| && IsCarrier(run.tasks, run.rep, a) && run.fused[a] == run.out[i];
      var b :| 0 <= b < |run.tasks| && IsCarrier(run.tasks, run.rep, b) && run.fused[b] == run.out[j];
      FusedKeepsId(run, a);
      FusedKeepsId(run, b);
      assert a != b;
      FusedSpansDisjoint(run, a, b);
    }
  }
}
