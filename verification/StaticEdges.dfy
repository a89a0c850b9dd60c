/** Dropping the edges between commitments that their fixed times cannot honour. */
module StaticEdges {
  import opened Basics
  import opened Spans
  import opened Tasks

  type Windows = map<Id, TimeWindow>

  datatype Drop = Drop(task: Id, dependency: Id)

  /**
   * Whether the edge from `t`, fixed at `window`, to `d` is given up: `d` ends too late, and both are mandatory or
   * neither span lies inside the other. Equal spans do not count as one inside the other.
   */
  ghost predicate Dropped(windows: Windows, mandatory: set<Id>, t: Id, window: TimeWindow, d: Id)
  {
    && d in windows && window.start < windows[d].end
    && ((t in mandatory && d in mandatory) || window == windows[d]
        || !(Inside(window, windows[d]) || Inside(windows[d], window)))
  }

  /** Collect every edge of a participating Static Task that cannot hold. */
  method CollectDrops(participating: seq<TaskSpec>, windows: Windows, mandatory: set<Id>) returns (drops: set<Drop>)
    requires forall i :: 0 <= i < |participating| ==> participating[i].window.Some?
    ensures forall x :: x in drops <==>
              exists i :: 0 <= i < |participating| && participating[i].id == x.task
                  && x.dependency in participating[i].dependsOn
                && Dropped(windows, mandatory, x.task, participating[i].window.value, x.dependency)
  {
    drops := {};
    var i := 0;
    while i < |participating|
      invariant 0 <= i <= |participating|
      invariant forall x :: x in drops <==>
                  exists k :: 0 <= k < i && participating[k].id == x.task && x.dependency in participating[k].dependsOn
                    && Dropped(windows, mandatory, x.task, participating[k].window.value, x.dependency)
    {
      var t := participating[i];
      var window := t.window.value;
      var mine := set d | d in t.dependsOn && d in windows && windows[d].end > window.start
                       && ((t.id in mandatory && d in mandatory) || !Nested(window, windows[d])) :: Drop(t.id, d);
      assert forall d | d in t.dependsOn :: Drop(t.id, d) in mine <==> Dropped(windows, mandatory, t.id, window, d);
      drops := drops + mine;
      i := i + 1;
    }
  }

  ghost predicate EdgesDropped(drops: set<Drop>, t: TaskSpec, r: TaskSpec)
  {
    r == t.(dependsOn := Filter((d: Id) => Drop(t.id, d) !in drops, t.dependsOn))
  }

  method DropEdges(tasks: seq<TaskSpec>, drops: set<Drop>) returns (out: seq<TaskSpec>)
    ensures |out| == |tasks| && forall i :: 0 <= i < |out| ==> EdgesDropped(drops, tasks[i], out[i])
  {
    out := [];
    var i := 0;
    while i < |tasks|
      invariant 0 <= i <= |tasks| && |out| == i
      invariant forall k :: 0 <= k < i ==> EdgesDropped(drops, tasks[k], out[k])
    {
      var id := tasks[i].id;
      out := out + [tasks[i].(dependsOn := Filter((d: Id) => Drop(id, d) !in drops, tasks[i].dependsOn))];
      i := i + 1;
    }
  }
}
