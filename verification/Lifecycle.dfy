/** Completing, skipping and reopening one Task, from the app and from the Calendar. */
module Lifecycle {
  import opened Basics

  datatype Status = Active | Completed | Failed | Moot

  datatype Window = Window(start: int, end: int) {
    ghost predicate Valid() { start < end }
  }

  /** One entry of the Task's log; its position is its handle. */
  datatype Entry =
    | TaskCompleted(source: Option<Id>)
    | TaskReopened(undone: nat)
    | LegacyDone
    | Other

  ghost predicate IsCompletion(e: Entry) { e.TaskCompleted? || e.LegacyDone? }

  /** The newest completion in append order; the older app's `done` entries count. */
  function LatestCompletion(log: seq<Entry>): (r: Option<nat>)
    ensures r.Some? ==> r.value < |log| && IsCompletion(log[r.value])
    ensures r.Some? ==> forall k :: r.value < k < |log| ==> !IsCompletion(log[k])
    ensures r.None? ==> forall k :: 0 <= k < |log| ==> !IsCompletion(log[k])
  {
    if log == [] then None
    else if log[|log| - 1].TaskCompleted? || log[|log| - 1].LegacyDone? then Some(|log| - 1)
    else LatestCompletion(log[..|log| - 1])
  }

  /** A gesture on this event made the completion. */
  ghost predicate FromCalendarEvent(log: seq<Entry>, k: nat, event: Id)
    requires k < |log|
  {
    log[k].TaskCompleted? && log[k].source == Some(event)
  }

  /** A completion gesture seen on the Calendar. */
  datatype CompletionSignal = CompletionSignal(event: Id, observed: Window, allowPin: bool)

  datatype ReopenSignal = ReopenSignal(event: Id, completion: nat)

  datatype ActionError = InvalidState | NotOccurrence | InvalidWindow | NotDynamic
    | NotCompleted | NoCompletion | StaleCompletion | UseRecordedAction

  /** The Task as the transitions see it, its log, and how often its effects were applied. */
  datatype TaskState = TaskState(
    status: Status, occurrence: bool, pinned: Option<Window>, captured: bool, effectful: bool,
    log: seq<Entry>, applied: nat)

  // ----- the transitions -----

  ghost predicate MayComplete(s: TaskState) { s.status.Active? || (s.status.Failed? && s.occurrence) }

  /** A Static or captured Task is not completed by a gesture, unless this very pass pinned it there. */
  ghost predicate GestureFits(s: TaskState, signal: CompletionSignal)
  {
    && !s.captured
    && (s.pinned.None? || (signal.allowPin && s.occurrence && s.pinned.value.Valid()
        && s.pinned.value == signal.observed))
  }

  ghost function AfterComplete(s: TaskState, signal: Option<CompletionSignal>): TaskState
  {
    s.(status := Completed,
       applied := s.applied + if s.effectful && LatestCompletion(s.log).None? then 1 else 0,
       log := s.log + [TaskCompleted(if signal.Some? then Some(signal.value.event) else None)])
  }

  /** A gesture undoes the latest completion only if a gesture on the same event made it. */
  ghost predicate MayReopen(s: TaskState, signal: ReopenSignal)
  {
    && s.status.Completed? && s.pinned.None? && !s.captured
    && LatestCompletion(s.log) == Some(signal.completion) && FromCalendarEvent(s.log, signal.completion, signal.event)
  }

  ghost function AfterReopen(s: TaskState, completion: nat): TaskState
  {
    s.(status := Active, log := s.log + [TaskReopened(completion)])
  }

  class TaskRecord {
    var status: Status
    var pinned: Option<Window>
    var log: seq<Entry>
    var applied: nat
    const occurrence: bool
    const captured: bool
    const effectful: bool

    constructor (occurrence: bool, captured: bool, effectful: bool, pinned: Option<Window>)
      ensures State() == TaskState(Active, occurrence, pinned, captured, effectful, [], 0)
    {
      status, log, applied := Active, [], 0;
      this.pinned := pinned;
      this.occurrence, this.captured, this.effectful := occurrence, captured, effectful;
    }

    ghost function State(): TaskState
      reads this
    {
      TaskState(status, occurrence, pinned, captured, effectful, log, applied)
    }

    /** Complete from the app, or from a gesture with its observed window. */
    method Complete(signal: Option<CompletionSignal>) returns (r: Result<nat, ActionError>)
      modifies this`status, this`log, this`applied
      ensures r.Ok? <==>
                MayComplete(old(State()))
                && (signal.Some? ==> signal.value.observed.Valid() && GestureFits(old(State()), signal.value))
      ensures State() == if r.Ok? then AfterComplete(old(State()), signal) else old(State())
      ensures r.Ok? ==> r.value == |old(log)|
      ensures r.Err? ==> r.error == if signal.Some? && !signal.value.observed.Valid() then InvalidWindow
                                    else if signal.Some? && !GestureFits(old(State()), signal.value) then NotDynamic
                                    else InvalidState
    {
      if signal.Some? {
        var seen := signal.value;
        if seen.observed.end <= seen.observed.start { return Err(InvalidWindow); }
        var pinnedNow := seen.allowPin && occurrence && pinned.Some? && pinned.value.start < pinned.value.end
            && pinned.value == seen.observed;
        if (pinned.Some? && !pinnedNow) || captured { return Err(NotDynamic); }
      }
      if !(status.Active? || (status.Failed? && occurrence)) { return Err(InvalidState); }
      status := Completed;
      var before := LatestCompletion(log);
      if before.None? && effectful {
        applied := applied + 1;
      }
      log := log + [TaskCompleted(if signal.Some? then Some(signal.value.event) else None)];
      return Ok(|log| - 1);
    }

    method Skip() returns (r: Result<nat, ActionError>)
      modifies this`status, this`log
      ensures r.Ok? <==> occurrence && (old(status).Active? || old(status).Failed?)
      ensures r.Err? ==> r.error == (if !occurrence then NotOccurrence else InvalidState) && State() == old(State())
      ensures r.Ok? ==> State() == old(State()).(status := Moot, log := old(log) + [Other])
    {
      if !occurrence { return Err(NotOccurrence); }
      if !(status.Active? || status.Failed?) { return Err(InvalidState); }
      status := Moot;
      log := log + [Other];
      return Ok(|log| - 1);
    }

    /** A decision that is only recorded. */
    method Note() returns (id: nat)
      modifies this`log
      ensures id == |old(log)| && State() == old(State()).(log := old(log) + [Other])
    {
      log := log + [Other];
      id := |log| - 1;
    }

    /** The older endpoint records `done` without reading or changing the Task. */
    method AppendDone() returns (r: Result<nat, ActionError>)
      modifies this`log
      ensures r.Ok? <==> !occurrence
      ensures State() == if r.Ok? then old(State()).(log := old(log) + [LegacyDone]) else old(State())
    {
      if occurrence { return Err(UseRecordedAction); }
      log := log + [LegacyDone];
      return Ok(|log| - 1);
    }

    /** Undo the named completion, which must be the latest. */
    method ReopenCompletion(completion: nat) returns (r: Result<nat, ActionError>)
      modifies this`status, this`log
      ensures r.Ok? <==> old(status).Completed? && LatestCompletion(old(log)) == Some(completion)
      ensures State() == if r.Ok? then AfterReopen(old(State()), completion) else old(State())
      ensures r.Err? ==> r.error == if !old(status).Completed? then NotCompleted
                                    else if LatestCompletion(old(log)).None? then NoCompletion else StaleCompletion
    {
      if !status.Completed? { return Err(NotCompleted); }
      var latest := LatestCompletion(log);
      if latest.None? { return Err(NoCompletion); }
      if latest.value != completion { return Err(StaleCompletion); }
      status := Active;
      log := log + [TaskReopened(completion)];
      return Ok(|log| - 1);
    }

    /** Undo a completion made by a gesture, after checking it again under the lock. */
    method ReopenCalendarCompletion(signal: ReopenSignal) returns (reopened: bool)
      modifies this`status, this`log
      ensures reopened <==> MayReopen(old(State()), signal)
      ensures State() == if reopened then AfterReopen(old(State()), signal.completion) else old(State())
    {
      if !status.Completed? || pinned.Some? || captured { return false; }
      var latest := LatestCompletion(log);
      if latest.None? { return false; }
      if latest.value != signal.completion || log[latest.value] != TaskCompleted(Some(signal.event)) { return false; }
      status := Active;
      log := log + [TaskReopened(signal.completion)];
      return true;
    }
  }

  // ----- every run -----

  datatype Action =
    | Completing(signal: Option<CompletionSignal>)
    | Skipping
    | Noting
    | Doning
    | Reopening(completion: nat)
    | CalendarReopening(reopen: ReopenSignal)
    | Elsewhere(status: Status, pinned: Option<Window>)

  /**
   * One action under the lock. Other services may move the Task between the statuses that are not
   * completed, and may place it; only the transitions here enter or leave `Completed`.
   */
  ghost predicate Step(s: TaskState, a: Action, t: TaskState)
  {
    match a
    case Completing(signal) =>
      if MayComplete(s) && (signal.Some? ==> signal.value.observed.Valid() && GestureFits(s, signal.value))
      then t == AfterComplete(s, signal) else t == s
    case Skipping =>
      if s.occurrence && (s.status.Active? || s.status.Failed?) then t == s.(status := Moot, log := s.log + [Other])
      else t == s
    case Noting => t == s.(log := s.log + [Other])
    case Doning => if s.occurrence then t == s else t == s.(log := s.log + [LegacyDone])
    case Reopening(completion) =>
      if s.status.Completed? && LatestCompletion(s.log) == Some(completion) then t == AfterReopen(s, completion)
      else t == s
    case CalendarReopening(signal) =>
      if MayReopen(s, signal) then t == AfterReopen(s, signal.completion) else t == s
    case Elsewhere(status, pinned) =>
      t == s.(status := status, pinned := pinned) && (s.status.Completed? <==> status.Completed?)
  }

  /** The services take exactly these steps. */
  method Perform(task: TaskRecord, a: Action)
    requires a.Elsewhere? ==> (task.status.Completed? <==> a.status.Completed?)
    modifies task
    ensures Step(old(task.State()), a, task.State())
  {
    match a {
      case Completing(signal) => var r := task.Complete(signal);
      case Skipping => var r := task.Skip();
      case Noting => var id := task.Note();
      case Doning => var r := task.AppendDone();
      case Reopening(completion) => var r := task.ReopenCompletion(completion);
      case CalendarReopening(signal) => var r := task.ReopenCalendarCompletion(signal);
      case Elsewhere(status, pinned) => task.status, task.pinned := status, pinned;
    }
  }

  /** The completions and reopenings recorded by the transitions, in order. */
  ghost function Decisions(log: seq<Entry>): seq<bool>
  {
    if log == [] then []
    else
      var rest, last := Decisions(log[..|log| - 1]), log[|log| - 1];
      if last.TaskCompleted? then rest + [true] else if last.TaskReopened? then rest + [false] else rest
  }

  ghost predicate Alternating(ds: seq<bool>)
  {
    forall k :: 0 <= k < |ds| ==> ds[k] == (k % 2 == 0)
  }

  /** The oldest entry that counts as a completion. */
  ghost function FirstCompletion(log: seq<Entry>): Option<Entry>
  {
    if log == [] then None
    else
      var earlier, last := FirstCompletion(log[..|log| - 1]), log[|log| - 1];
      if earlier.Some? then earlier else if IsCompletion(last) then Some(last) else None
  }

  /** Each reopening undid a completion newer than any undone before. */
  ghost predicate UndoneOnce(log: seq<Entry>)
  {
    && (forall i :: 0 <= i < |log| && log[i].TaskReopened? ==> log[i].undone < i && IsCompletion(log[log[i].undone]))
    && (forall i, j :: 0 <= i < j < |log| && log[i].TaskReopened? && log[j].TaskReopened? ==>
        log[i].undone < log[j].undone)
  }

  ghost predicate Invariant(s: TaskState)
  {
    && Alternating(Decisions(s.log)) && (s.status.Completed? <==> |Decisions(s.log)| % 2 == 1)
    && (s.applied == if s.effectful && FirstCompletion(s.log).Some? && FirstCompletion(s.log).value.TaskCompleted?
        then 1 else 0)
    && UndoneOnce(s.log)
    && (s.status.Completed? ==> LatestUndoable(s.log))
  }

  /** The latest completion has not been undone, nor has any newer one. */
  ghost predicate LatestUndoable(log: seq<Entry>)
  {
    && LatestCompletion(log).Some?
    && forall i :: 0 <= i < |log| && log[i].TaskReopened? ==> log[i].undone < LatestCompletion(log).value
  }

  lemma {:induction false} FirstIffLatest(log: seq<Entry>)
    ensures FirstCompletion(log).None? <==> LatestCompletion(log).None?
  {
    if log != [] { FirstIffLatest(log[..|log| - 1]); }
  }

  /** What appending one entry does to what is read from the log. */
  lemma Append(log: seq<Entry>, e: Entry)
    ensures LatestCompletion(log + [e]) == if IsCompletion(e) then Some(|log|) else LatestCompletion(log)
    ensures FirstCompletion(log + [e]) ==
              if FirstCompletion(log).Some? then FirstCompletion(log) else if IsCompletion(e) then Some(e) else None
    ensures Decisions(log + [e]) ==
              Decisions(log) + if e.TaskCompleted? then [true] else if e.TaskReopened? then [false] else []
  {
    assert (log + [e])[..|log|] == log;
  }

  lemma AppendQuiet(log: seq<Entry>, e: Entry)
    requires UndoneOnce(log) && !e.TaskReopened?
    ensures UndoneOnce(log + [e])
    ensures LatestUndoable(log) || e.TaskCompleted? ==> LatestUndoable(log + [e])
  {
    NoNewUndo(log, e);
    Append(log, e);
    if LatestUndoable(log) || e.TaskCompleted? { StillUndoable(log, e); }
  }

  lemma NoNewUndo(log: seq<Entry>, e: Entry)
    requires UndoneOnce(log) && !e.TaskReopened?
    ensures UndoneOnce(log + [e])
  {
    var more := log + [e];
    assert forall i :: 0 <= i < |log| ==> more[i] == log[i];
  }

  lemma StillUndoable(log: seq<Entry>, e: Entry)
    requires UndoneOnce(log) && !e.TaskReopened? && (LatestUndoable(log) || e.TaskCompleted?)
    ensures LatestUndoable(log + [e])
  {
    Append(log, e);
    var more := log + [e];
    forall i | 0 <= i < |more| && more[i].TaskReopened? ensures more[i].undone < LatestCompletion(more).value {
      assert i < |log| && more[i] == log[i];
    }
  }

  lemma AppendReopen(log: seq<Entry>, completion: nat)
    requires UndoneOnce(log) && LatestUndoable(log) && LatestCompletion(log) == Some(completion)
    ensures UndoneOnce(log + [TaskReopened(completion)])
  {
    var more := log + [TaskReopened(completion)];
    assert forall i :: 0 <= i < |log| ==> more[i] == log[i];
  }

  lemma CompleteKeeps(s: TaskState, signal: Option<CompletionSignal>)
    requires Invariant(s) && MayComplete(s)
    ensures Invariant(AfterComplete(s, signal))
  {
    var e := TaskCompleted(if signal.Some? then Some(signal.value.event) else None);
    Append(s.log, e);
    AppendQuiet(s.log, e);
    FirstIffLatest(s.log);
  }

  lemma ReopenKeeps(s: TaskState, completion: nat)
    requires Invariant(s) && s.status.Completed? && LatestCompletion(s.log) == Some(completion)
    ensures Invariant(AfterReopen(s, completion))
  {
    Append(s.log, TaskReopened(completion));
    AppendReopen(s.log, completion);
  }

  lemma DoneKeeps(s: TaskState)
    requires Invariant(s)
    ensures Invariant(s.(log := s.log + [LegacyDone]))
  {
    Append(s.log, LegacyDone);
    AppendQuiet(s.log, LegacyDone);
  }

  lemma OtherKeeps(s: TaskState, status: Status)
    requires Invariant(s) && (status.Completed? <==> s.status.Completed?)
    ensures Invariant(s.(status := status, log := s.log + [Other]))
  {
    Append(s.log, Other);
    AppendQuiet(s.log, Other);
  }

  lemma StepKeeps(s: TaskState, a: Action, t: TaskState)
    requires Invariant(s) && Step(s, a, t)
    ensures Invariant(t)
  {
    match a {
      case Completing(signal) => if MayComplete(s) { CompleteKeeps(s, signal); }
      case Skipping => if !s.status.Completed? { OtherKeeps(s, Moot); }
      case Noting => OtherKeeps(s, s.status);
      case Doning => DoneKeeps(s);
      case Reopening(completion) =>
        if s.status.Completed? && LatestCompletion(s.log) == Some(completion) { ReopenKeeps(s, completion); }
      case CalendarReopening(signal) =>
        if s.status.Completed? && LatestCompletion(s.log) == Some(signal.completion) {
          ReopenKeeps(s, signal.completion);
        }
      case Elsewhere(status, pinned) =>
    }
  }

  ghost predicate Linked(ss: seq<TaskState>, actions: seq<Action>, i: nat)
    requires |ss| == |actions| + 1 && i < |actions|
  {
    Step(ss[i], actions[i], ss[i + 1])
  }

  ghost predicate Run(ss: seq<TaskState>, actions: seq<Action>)
  {
    && |ss| == |actions| + 1 && ss[0].log == [] && ss[0].applied == 0 && !ss[0].status.Completed?
    && forall i :: 0 <= i < |actions| ==> Linked(ss, actions, i)
  }

  lemma {:induction false} RunKeeps(ss: seq<TaskState>, actions: seq<Action>, n: nat)
    requires Run(ss, actions) && n < |ss|
    ensures Invariant(ss[n]) && ss[n].effectful == ss[0].effectful
  {
    if n > 0 {
      RunKeeps(ss, actions, n - 1);
      assert Linked(ss, actions, n - 1);
      StepKeeps(ss[n - 1], actions[n - 1], ss[n]);
    }
  }

  /** Effects are applied at most once, and exactly when the oldest completion on record is one of the transitions'. */
  lemma EffectsAtMostOnce(ss: seq<TaskState>, actions: seq<Action>, n: nat)
    requires Run(ss, actions) && n < |ss|
    ensures ss[n].applied <= 1
    ensures ss[n].applied == 1 <==>
              ss[0].effectful && FirstCompletion(ss[n].log).Some? && FirstCompletion(ss[n].log).value.TaskCompleted?
  {
    RunKeeps(ss, actions, n);
  }

  /** Completions and reopenings strictly alternate, beginning with a completion. */
  lemma DecisionsAlternate(ss: seq<TaskState>, actions: seq<Action>, n: nat)
    requires Run(ss, actions) && n < |ss|
    ensures Alternating(Decisions(ss[n].log))
    ensures ss[n].status.Completed? <==> |Decisions(ss[n].log)| % 2 == 1
  {
    RunKeeps(ss, actions, n);
  }

  /** No completion is undone twice. */
  lemma EachUndoneOnce(ss: seq<TaskState>, actions: seq<Action>, n: nat, i: nat, j: nat)
    requires Run(ss, actions) && n < |ss| && i < j < |ss[n].log|
    requires ss[n].log[i].TaskReopened? && ss[n].log[j].TaskReopened?
    ensures ss[n].log[i].undone < ss[n].log[j].undone < j && IsCompletion(ss[n].log[ss[n].log[j].undone])
  {
    RunKeeps(ss, actions, n);
  }

  /** An older `done` entry keeps the effects of a Task from ever being applied, though it completes. */
  lemma LegacyDoneHidesEffects() returns (ss: seq<TaskState>, actions: seq<Action>)
    ensures Run(ss, actions) && |ss| == 3 && ss[2].status.Completed? && ss[2].effectful
    ensures |Decisions(ss[2].log)| == 1 && ss[2].applied == 0
  {
    var s0 := TaskState(Active, false, None, false, true, [], 0);
    var s1 := s0.(log := [] + [LegacyDone]);
    Append([], LegacyDone);
    var s2 := AfterComplete(s1, None);
    Append(s1.log, TaskCompleted(None));
    ss, actions := [s0, s1, s2], [Doning, Completing(None)];
    assert Linked(ss, actions, 0) && Linked(ss, actions, 1);
  }
}
