/** What an observed event says about its Task, and when the same observation says no more. */
module Gestures {
  import opened Basics
  import opened Lifecycle

  /** One observed event of an owned Task, beside what is stored about both. */
  datatype Item = Item(
    event: Id, window: Window, coloured: bool,
    status: Status, pinned: Option<Window>, captured: bool, declared: int, routine: bool, log: seq<Entry>,
    appliedWindow: Window, exportedUncoloured: bool)

  ghost function Seconds(w: Window): int { w.end - w.start }

  // ----- colour gestures -----

  /** A Dynamic Task exported without colour and now coloured is done. */
  ghost predicate Coloured(item: Item)
  {
    item.pinned.None? && !item.captured && !item.status.Completed? && item.coloured && item.exportedUncoloured
  }

  /** A completion made on this event is undone by taking the colour away. */
  ghost predicate Uncoloured(item: Item)
  {
    && item.pinned.None? && !item.captured && item.status.Completed? && !item.coloured
    && var latest := LatestCompletion(item.log);
       latest.Some? && FromCalendarEvent(item.log, latest.value, item.event)
  }

  ghost predicate Completes(item: Item) { Coloured(item) && item.window.Valid() }

  /** Not once the observed end is a day past. */
  ghost predicate Reopens(item: Item, now: int)
  {
    Uncoloured(item) && item.window.Valid() && item.window.end > now - 86_400
  }

  ghost function CompletionOf(item: Item): CompletionSignal { CompletionSignal(item.event, item.window, item.routine) }

  ghost function ReopenOf(item: Item): ReopenSignal
  {
    ReopenSignal(item.event, if LatestCompletion(item.log).Some? then LatestCompletion(item.log).value else 0)
  }

  /** A Static or captured Task is passed over; for the others the colour is read beside the last completion. */
  method ReadColour(item: Item) returns (complete: bool, reopen: bool, latest: nat)
    ensures complete <==> Coloured(item)
    ensures reopen <==> Uncoloured(item)
    ensures reopen ==> ReopenOf(item) == ReopenSignal(item.event, latest)
  {
    if item.pinned.Some? || item.captured { return false, false, 0; }
    var newest := LatestCompletion(item.log);
    complete := item.status != Completed && item.coloured && item.exportedUncoloured;
    reopen := item.status == Completed && !item.coloured && newest.Some?
        && item.log[newest.value] == TaskCompleted(Some(item.event));
    latest := if newest.Some? then newest.value else 0;
  }

  method Detect(owned: seq<Item>, now: int)
    returns (completions: seq<CompletionSignal>, reopens: seq<ReopenSignal>, ignored: seq<Id>)
    ensures completions == Map(CompletionOf, Filter(Completes, owned))
    ensures reopens == Map(ReopenOf, Filter((i: Item) => Reopens(i, now), owned))
    ensures ignored == Map((i: Item) => i.event,
        Filter((i: Item) => (Coloured(i) || Uncoloured(i)) && !i.window.Valid(), owned))
  {
    completions, reopens, ignored := [], [], [];
    var i := 0;
    assert owned[..0] == [];
    while i < |owned|
      invariant 0 <= i <= |owned|
      invariant completions == Map(CompletionOf, Filter(Completes, owned[..i]))
      invariant reopens == Map(ReopenOf, Filter((x: Item) => Reopens(x, now), owned[..i]))
      invariant ignored ==
          Map((x: Item) => x.event,
              Filter((x: Item) => (Coloured(x) || Uncoloured(x)) && !x.window.Valid(), owned[..i]))
    {
      var item := owned[i];
      assert owned[..i + 1] == owned[..i] + [item];
      CollectSnoc(Completes, CompletionOf, owned[..i], item);
      CollectSnoc((x: Item) => Reopens(x, now), ReopenOf, owned[..i], item);
      CollectSnoc((x: Item) => (Coloured(x) || Uncoloured(x)) && !x.window.Valid(),
                  (x: Item) => x.event, owned[..i], item);
      var complete, reopen, latest := ReadColour(item);
      if complete || reopen {
        if item.window.end <= item.window.start {
          ignored := ignored + [item.event];
        } else if complete {
          completions := completions + [CompletionSignal(item.event, item.window, item.routine)];
        } else if item.window.end > now - 86_400 {
          reopens := reopens + [ReopenSignal(item.event, latest)];
        }
      }
      i := i + 1;
    }
    assert owned[..i] == owned;
  }

  lemma CollectSnoc<B>(p: Item -> bool, f: Item -> B, s: seq<Item>, x: Item)
    ensures Map(f, Filter(p, s + [x])) == Map(f, Filter(p, s)) + if p(x) then [f(x)] else []
  {
    FilterSnoc(p, s, x);
  }

  // ----- window gestures -----

  ghost predicate Moves(item: Item)
  {
    item.status.Active? &&
    if item.routine then item.window != item.appliedWindow else item.pinned.Some? && item.pinned.value != item.window
  }

  ghost predicate Resizes(item: Item)
  {
    item.status.Active? && !item.routine && item.pinned.None? && item.window.Valid()
        && Seconds(item.window) != item.declared
  }

  datatype MoveSignal = MoveSignal(event: Id, window: Window)

  datatype ResizeSignal = ResizeSignal(event: Id, seconds: int)

  /** A changed window of a Task that is not active, or no length to take for one that is. */
  ghost predicate WindowNoted(item: Item)
  {
    if !item.status.Active? then
      item.window != item.appliedWindow || (item.pinned.Some? && item.pinned.value != item.window)
    else !item.routine && item.pinned.None? && !item.window.Valid()
  }

  datatype WindowNote = NotActive(event: Id) | NoLength(event: Id)

  ghost function NoteOf(item: Item): WindowNote
  {
    if item.status.Active? then NoLength(item.event) else NotActive(item.event)
  }

  /** Placement decides what a changed window means. */
  method DetectWindowGestures(owned: seq<Item>)
    returns (moves: seq<MoveSignal>, resizes: seq<ResizeSignal>, notes: seq<WindowNote>)
    ensures moves == Map((x: Item) => MoveSignal(x.event, x.window), Filter(Moves, owned))
    ensures resizes == Map((x: Item) => ResizeSignal(x.event, Seconds(x.window)), Filter(Resizes, owned))
    ensures notes == Map(NoteOf, Filter(WindowNoted, owned))
  {
    moves, resizes, notes := [], [], [];
    var i := 0;
    assert owned[..0] == [];
    while i < |owned|
      invariant 0 <= i <= |owned|
      invariant moves == Map((x: Item) => MoveSignal(x.event, x.window), Filter(Moves, owned[..i]))
      invariant resizes == Map((x: Item) => ResizeSignal(x.event, Seconds(x.window)), Filter(Resizes, owned[..i]))
      invariant notes == Map(NoteOf, Filter(WindowNoted, owned[..i]))
    {
      var item := owned[i];
      assert owned[..i + 1] == owned[..i] + [item];
      CollectSnoc(Moves, (x: Item) => MoveSignal(x.event, x.window), owned[..i], item);
      CollectSnoc(Resizes, (x: Item) => ResizeSignal(x.event, Seconds(x.window)), owned[..i], item);
      CollectSnoc(WindowNoted, NoteOf, owned[..i], item);
      if !item.status.Active? {
        if item.window != item.appliedWindow || (item.pinned.Some? && item.pinned.value != item.window) {
          notes := notes + [NotActive(item.event)];
        }
      } else if item.routine {
        if item.window != item.appliedWindow { moves := moves + [MoveSignal(item.event, item.window)]; }
      } else if item.pinned.Some? {
        if item.pinned.value != item.window { moves := moves + [MoveSignal(item.event, item.window)]; }
      } else if item.window.start < item.window.end {
        var seconds := item.window.end - item.window.start;
        if seconds != item.declared {
          resizes := resizes + [ResizeSignal(item.event, seconds)];
        }
      } else {
        notes := notes + [NoLength(item.event)];
      }
      i := i + 1;
    }
    assert owned[..i] == owned;
  }

  // ----- seeing the same observation again -----

  /** An event as it is observed, or as it was last applied. */
  datatype Seen = Seen(event: Id, window: Window, coloured: bool)

  ghost function ItemOf(task: TaskState, declared: int, applied: Seen, seen: Seen): Item
  {
    Item(seen.event, seen.window, seen.coloured, task.status, task.pinned, task.captured, declared, task.occurrence,
         task.log, applied.window, !applied.coloured)
  }

  datatype Gesture = Complete | Reopen | Move | Resize

  ghost predicate Signalled(g: Gesture, item: Item, now: int)
  {
    match g
    case Complete => Completes(item)
    case Reopen => Reopens(item, now)
    case Move => Moves(item)
    case Resize => Resizes(item)
  }

  /** The Task and its declared duration once the gesture is admitted. */
  ghost function Admitted(g: Gesture, task: TaskState, declared: int, seen: Seen): (TaskState, int)
    requires g.Reopen? ==> LatestCompletion(task.log).Some?
  {
    match g
    case Complete => (AfterComplete(task, Some(CompletionSignal(seen.event, seen.window, task.occurrence))), declared)
    case Reopen => (AfterReopen(task, LatestCompletion(task.log).value), declared)
    case Move => (task.(pinned := Some(seen.window)), declared)
    case Resize => (task, Seconds(seen.window))
  }

  /**
   * After a gesture on a Task that is no routine occurrence was admitted and the observation accepted as
   * applied, the same observation signals nothing more, at any time, unless the gesture was an undo and
   * the observed length is not the declared one: then exactly a resize is signalled.
   */
  lemma AcceptedGestureIsQuiet(g: Gesture, task: TaskState, declared: int, applied: Seen, seen: Seen, now: int,
                               later: int, h: Gesture)
    requires !task.occurrence && Signalled(g, ItemOf(task, declared, applied, seen), now)
    requires g.Reopen? ==> LatestCompletion(task.log).Some?
    ensures var after := Admitted(g, task, declared, seen);
            Signalled(h, ItemOf(after.0, after.1, seen, seen), later) <==>
              g.Reopen? && h.Resize? && Seconds(seen.window) != declared
  {
    var after := Admitted(g, task, declared, seen);
    if g.Complete? {
      Append(task.log, TaskCompleted(Some(seen.event)));
    } else if g.Reopen? {
      Append(task.log, TaskReopened(LatestCompletion(task.log).value));
    }
  }

  /** An accepted undo that is followed by a resize: two hours were observed where one is declared. */
  lemma UndoThenResize() returns (task: TaskState, applied: Seen, seen: Seen)
    ensures !task.occurrence && Signalled(Reopen, ItemOf(task, 3600, applied, seen), 7200)
    ensures LatestCompletion(task.log).Some?
    ensures var after := Admitted(Reopen, task, 3600, seen);
            Signalled(Resize, ItemOf(after.0, after.1, seen, seen), 7200)
            && ResizeSignal(seen.event, Seconds(seen.window)) == ResizeSignal(1, 7200)
  {
    task := TaskState(Completed, false, None, false, false, [TaskCompleted(Some(1))], 0);
    applied, seen := Seen(1, Window(0, 3600), true), Seen(1, Window(0, 7200), false);
    Append(task.log, TaskReopened(LatestCompletion(task.log).value));
  }

  /** A detected gesture passes the checks made again under the lock, if nothing happened in between. */
  lemma DetectedIsAdmitted(task: TaskState, declared: int, applied: Seen, seen: Seen, now: int)
    ensures var item := ItemOf(task, declared, applied, seen);
            && (Completes(item) ==> CompletionOf(item).observed.Valid() && GestureFits(task, CompletionOf(item)))
            && (Reopens(item, now) ==> MayReopen(task, ReopenOf(item)))
  {
  }
}
