/** Pushing windows past absent prerequisites, and leaving out what cannot be placed. */
module Exclusion {
  import opened Basics
  import opened Spans
  import opened Tasks

  datatype Reason = DependencyOutsideHorizon | TaskUnplaceable | RoutineNoFreeTime

  /** What one exclusion decision depends on beside the Task. */
  datatype Setting = Setting(planned: set<Id>, absent: map<Id, TimeWindow>, horizonEnd: U64, anchor: U64,
                             mandatory: set<Id>, fixed: seq<TimeWindow>)

  /** Prerequisites that are not planned but whose window is known. */
  ghost predicate Absent(setting: Setting, d: Id)
  {
    d !in setting.planned && d in setting.absent
  }

  ghost predicate AfterAbsent(setting: Setting, dependsOn: seq<Id>, s: nat)
  {
    forall d :: d in dependsOn && Absent(setting, d) ==> setting.absent[d].end <= s
  }

  ghost predicate OutsideHorizon(setting: Setting, t: TaskSpec)
  {
    exists d :: d in t.dependsOn && Absent(setting, d) && setting.absent[d].end >= setting.horizonEnd
  }

  /** The window starts exactly when nothing absent or past stands in the way any more. */
  ghost predicate PushedStart(setting: Setting, t: TaskSpec, start: nat)
    requires t.window.Some?
  {
    forall s: nat :: start <= s <==>
      t.window.value.start <= s && setting.anchor <= s && AfterAbsent(setting, t.dependsOn, s)
  }

  ghost predicate Pushed(setting: Setting, t: TaskSpec, p: TaskSpec)
  {
    if t.Static() then p == t
    else
      && t.window.Some? && p.window.Some?
      && PushedStart(setting, t, p.window.value.start)
      && p == t.(window := Some(TimeWindow(p.window.value.start, t.window.value.end)))
  }

  /** Not empty, and a Task that begins where the window begins ends in it, if only just. */
  ghost predicate Roomy(p: TaskSpec)
    requires p.window.Some?
  {
    p.window.value.start < p.window.value.end && p.window.value.start + p.Placement() <= p.window.value.end
  }

  ghost predicate Gap(setting: Setting, p: TaskSpec)
    requires p.window.Some?
  {
    exists s: nat :: Fits(p.window.value, setting.fixed, p.Placement(), s)
  }

  /** Why a Task is left out, if it is; `p` is the Task with its window pushed. */
  ghost predicate Verdict(setting: Setting, t: TaskSpec, p: TaskSpec, verdict: Option<Reason>)
    requires p.window.Some?
  {
    if t.Static() then verdict.None?
    else if OutsideHorizon(setting, t) then verdict == Some(DependencyOutsideHorizon)
    else if !Roomy(p) then verdict == Some(TaskUnplaceable)
    else if t.id in setting.mandatory && !Gap(setting, p) then verdict == Some(RoutineNoFreeTime)
    else verdict.None?
  }

  /** Push one window, in the order the prerequisites are listed. */
  method PushWindow(setting: Setting, t: TaskSpec) returns (p: TaskSpec, outside: bool)
    requires !t.Static() && t.window.Some?
    ensures Pushed(setting, t, p)
    ensures outside <==> OutsideHorizon(setting, t)
  {
    var start := t.window.value.start;
    outside := false;
    var i := 0;
    while i < |t.dependsOn|
      invariant 0 <= i <= |t.dependsOn|
      invariant t.window.value.start <= start
      invariant forall k :: 0 <= k < i && Absent(setting, t.dependsOn[k]) ==>
          setting.absent[t.dependsOn[k]].end <= start
      invariant start == t.window.value.start || exists k ::
          0 <= k < i && Absent(setting, t.dependsOn[k]) && setting.absent[t.dependsOn[k]].end == start
      invariant outside <==>
          exists k :: 0 <= k < i && Absent(setting, t.dependsOn[k])
              && setting.absent[t.dependsOn[k]].end >= setting.horizonEnd
    {
      var d := t.dependsOn[i];
      if d !in setting.planned && d in setting.absent {
        start := Max(start, setting.absent[d].end);
        outside := outside || setting.absent[d].end >= setting.horizonEnd;
      }
      i := i + 1;
    }
    ghost var floor := start;
    start := Max(start, setting.anchor);
    p := t.(window := Some(TimeWindow(start, t.window.value.end)));
    forall s: nat ensures start <= s <==>
        t.window.value.start <= s && setting.anchor <= s && AfterAbsent(setting, t.dependsOn, s)
    {
      FloorIsExact(setting, t.dependsOn, t.window.value.start, floor, s);
    }
  }

  lemma FloorIsExact(setting: Setting, dependsOn: seq<Id>, start: nat, floor: nat, s: nat)
    requires start <= floor
    requires forall k :: 0 <= k < |dependsOn| && Absent(setting, dependsOn[k]) ==>
        setting.absent[dependsOn[k]].end <= floor
    requires floor == start || exists k ::
        0 <= k < |dependsOn| && Absent(setting, dependsOn[k]) && setting.absent[dependsOn[k]].end == floor
    ensures floor <= s <==> start <= s && AfterAbsent(setting, dependsOn, s)
  {
    if floor != start {
      var k :| 0 <= k < |dependsOn| && Absent(setting, dependsOn[k]) && setting.absent[dependsOn[k]].end == floor;
      var last := dependsOn[k];
      assert last in dependsOn && Absent(setting, last);
      assert AfterAbsent(setting, dependsOn, s) ==> setting.absent[last].end <= s;
    }
    if floor <= s {
      forall d | d in dependsOn && Absent(setting, d) ensures setting.absent[d].end <= s {
        var k :| 0 <= k < |dependsOn| && dependsOn[k] == d;
      }
    }
  }

  method Judge(setting: Setting, t: TaskSpec, p: TaskSpec, outside: bool) returns (verdict: Option<Reason>)
    requires !t.Static() && p.window.Some? && p.Placement() == t.Placement()
    requires outside <==> OutsideHorizon(setting, t)
    ensures Verdict(setting, t, p, verdict)
  {
    if outside { return Some(DependencyOutsideHorizon); }
    var w := p.window.value;
    if w.end <= w.start || w.end - w.start < p.Placement() { return Some(TaskUnplaceable); }
    if t.id in setting.mandatory {
      var free := HasFreeGap(p.window.value, setting.fixed, p.Placement());
      if !free { return Some(RoutineNoFreeTime); }
    }
    return None;
  }

  /** Every Task with its window pushed, and the verdict on each. */
  ghost predicate Judged(setting: Setting, tasks: seq<TaskSpec>, pushed: seq<TaskSpec>, removed: map<Id, Reason>)
  {
    && |pushed| == |tasks|
    && (forall i :: 0 <= i < |tasks| ==> JudgedOne(setting, tasks[i], pushed[i], removed))
    && (forall id :: id in removed ==> exists i :: 0 <= i < |tasks| && tasks[i].id == id && !tasks[i].Static())
  }

  ghost predicate JudgedOne(setting: Setting, t: TaskSpec, p: TaskSpec, removed: map<Id, Reason>)
  {
    && Pushed(setting, t, p) && p.window.Some?
    && Verdict(setting, t, p, if t.id in removed then Some(removed[t.id]) else None)
  }

  /** The survivors with their pushed windows, in order, and a reason for everyone else. */
  ghost predicate ExclusionOutcome(setting: Setting, tasks: seq<TaskSpec>, kept: seq<TaskSpec>,
                                   removed: map<Id, Reason>)
  {
    exists pushed :: Judged(setting, tasks, pushed, removed)
        && kept == Filter((t: TaskSpec) => t.id !in removed, pushed)
  }

  ghost predicate Windowed(tasks: seq<TaskSpec>)
  {
    forall i :: 0 <= i < |tasks| ==> tasks[i].window.Some?
  }

  /** Push every Dynamic window and leave out what cannot be placed. */
  method PushAndExclude(setting: Setting, tasks: seq<TaskSpec>)
    returns (kept: seq<TaskSpec>, removed: map<Id, Reason>, ghost pushed: seq<TaskSpec>)
    requires UniqueIds(tasks) && Windowed(tasks)
    ensures Judged(setting, tasks, pushed, removed)
    ensures kept == Filter((t: TaskSpec) => t.id !in removed, pushed)
    ensures ExclusionOutcome(setting, tasks, kept, removed)
  {
    kept, removed, pushed := [], map[], [];
    var i := 0;
    while i < |tasks|
      invariant 0 <= i <= |tasks|
      invariant JudgedSoFar(setting, tasks, i, pushed, kept, removed)
    {
      var t := tasks[i];
      var p, verdict := t, None;
      if t.anchor.None? {
        var outside;
        p, outside := PushWindow(setting, t);
        verdict := Judge(setting, t, p, outside);
      }
      JudgeOneMore(setting, tasks, i, pushed, kept, removed, p, verdict);
      if verdict.Some? {
        removed := removed[t.id := verdict.value];
      } else {
        kept := kept + [p];
      }
      pushed := pushed + [p];
      i := i + 1;
    }
    SomePushed(setting, tasks, pushed, kept, removed);
  }

  lemma SomePushed(setting: Setting, tasks: seq<TaskSpec>, pushed: seq<TaskSpec>, kept: seq<TaskSpec>,
                   removed: map<Id, Reason>)
    requires Judged(setting, tasks, pushed, removed) && kept == Filter((t: TaskSpec) => t.id !in removed, pushed)
    ensures ExclusionOutcome(setting, tasks, kept, removed)
  {
  }

  /** The first `i` Tasks are pushed and judged. */
  ghost predicate JudgedSoFar(setting: Setting, tasks: seq<TaskSpec>, i: nat, pushed: seq<TaskSpec>,
                              kept: seq<TaskSpec>,
                              removed: map<Id, Reason>)
  {
    && FirstJudged(setting, tasks, i, pushed, removed)
    && RemovedAmong(tasks, i, removed)
    && kept == Filter((t: TaskSpec) => t.id !in removed, pushed)
  }

  ghost predicate FirstJudged(setting: Setting, tasks: seq<TaskSpec>, i: nat, pushed: seq<TaskSpec>,
                              removed: map<Id, Reason>)
  {
    |pushed| == i <= |tasks| && forall k :: 0 <= k < i ==> JudgedOne(setting, tasks[k], pushed[k], removed)
  }

  ghost predicate RemovedAmong(tasks: seq<TaskSpec>, i: nat, removed: map<Id, Reason>)
  {
    i <= |tasks| && forall id :: id in removed ==> exists k :: 0 <= k < i && tasks[k].id == id && !tasks[k].Static()
  }

  lemma JudgeOneMore(setting: Setting, tasks: seq<TaskSpec>, i: nat, pushed: seq<TaskSpec>, kept: seq<TaskSpec>,
                     removed: map<Id, Reason>, p: TaskSpec, verdict: Option<Reason>)
    requires UniqueIds(tasks) && i < |tasks| && JudgedSoFar(setting, tasks, i, pushed, kept, removed)
    requires Pushed(setting, tasks[i], p) && p.window.Some? && Verdict(setting, tasks[i], p, verdict)
    ensures JudgedSoFar(setting, tasks, i + 1, pushed + [p], if verdict.Some? then kept else kept + [p],
              if verdict.Some? then removed[tasks[i].id := verdict.value] else removed)
  {
    var removed' := if verdict.Some? then removed[tasks[i].id := verdict.value] else removed;
    NotYetJudged(setting, tasks, i, pushed, removed);
    StillJudged(setting, tasks, i, pushed, removed, p, verdict);
    StillAmong(tasks, i, removed, verdict);
    StillKept(pushed, removed, tasks[i].id, p, verdict);
    assert kept + [] == kept;
  }

  lemma NotYetJudged(setting: Setting, tasks: seq<TaskSpec>, i: nat, pushed: seq<TaskSpec>, removed: map<Id, Reason>)
    requires UniqueIds(tasks) && i < |tasks| && FirstJudged(setting, tasks, i, pushed, removed)
    requires RemovedAmong(tasks, i, removed)
    ensures tasks[i].id !in removed
    ensures forall p :: p in pushed ==> p.id != tasks[i].id
  {
    forall id | id in removed ensures id != tasks[i].id {
      var k :| 0 <= k < i && tasks[k].id == id && !tasks[k].Static();
    }
    forall p | p in pushed ensures p.id != tasks[i].id {
      var k :| 0 <= k < i && pushed[k] == p;
      assert JudgedOne(setting, tasks[k], pushed[k], removed);
    }
  }

  lemma StillJudged(setting: Setting, tasks: seq<TaskSpec>, i: nat, pushed: seq<TaskSpec>, removed: map<Id, Reason>,
                    p: TaskSpec, verdict: Option<Reason>)
    requires UniqueIds(tasks) && i < |tasks| && FirstJudged(setting, tasks, i, pushed, removed)
    requires tasks[i].id !in removed
    requires Pushed(setting, tasks[i], p) && p.window.Some? && Verdict(setting, tasks[i], p, verdict)
    ensures FirstJudged(setting, tasks, i + 1, pushed + [p],
                        if verdict.Some? then removed[tasks[i].id := verdict.value] else removed)
  {
    var removed', more := if verdict.Some? then removed[tasks[i].id := verdict.value] else removed, pushed + [p];
    forall k | 0 <= k < i + 1 ensures JudgedOne(setting, tasks[k], more[k], removed') {
      if k < i {
        assert JudgedOne(setting, tasks[k], pushed[k], removed);
        assert tasks[k].id != tasks[i].id;
      }
    }
  }

  lemma StillAmong(tasks: seq<TaskSpec>, i: nat, removed: map<Id, Reason>, verdict: Option<Reason>)
    requires i < |tasks| && RemovedAmong(tasks, i, removed) && (verdict.Some? ==> !tasks[i].Static())
    ensures RemovedAmong(tasks, i + 1, if verdict.Some? then removed[tasks[i].id := verdict.value] else removed)
  {
    var removed' := if verdict.Some? then removed[tasks[i].id := verdict.value] else removed;
    forall id | id in removed' ensures exists k :: 0 <= k < i + 1 && tasks[k].id == id && !tasks[k].Static() {
      if id in removed {
        var k :| 0 <= k < i && tasks[k].id == id && !tasks[k].Static();
      } else {
        assert tasks[i].id == id;
      }
    }
  }

  lemma StillKept(pushed: seq<TaskSpec>, removed: map<Id, Reason>, id: Id, p: TaskSpec, verdict: Option<Reason>)
    requires id !in removed && p.id == id && forall q :: q in pushed ==> q.id != id
    ensures var removed' := if verdict.Some? then removed[id := verdict.value] else removed;
            Filter((t: TaskSpec) => t.id !in removed', pushed + [p]) ==
              Filter((t: TaskSpec) => t.id !in removed, pushed) + if verdict.Some? then [] else [p]
  {
    var removed' := if verdict.Some? then removed[id := verdict.value] else removed;
    FilterSnoc((t: TaskSpec) => t.id !in removed', pushed, p);
    FilterAgree((t: TaskSpec) => t.id !in removed', (t: TaskSpec) => t.id !in removed, pushed);
  }
}
