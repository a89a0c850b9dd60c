/** Task specifications as the planning request carries them. */
module Tasks {
  import opened Basics
  import opened Spans
  import opened Graphs

  datatype DurationModel =
    | Fixed(seconds: U64)
    | ShiftedLognormalP95(minSeconds: U64, modeSeconds: U64, p95Seconds: U64)

  /** A Task with an anchor is Static; the others are Dynamic. */
  datatype TaskSpec = TaskSpec(
    id: Id,
    duration: U64,
    estimate: Option<DurationModel>,
    mandatory: bool,
    dependsOn: seq<Id>,
    window: Option<TimeWindow>,
    anchor: Option<U64>
  ) {
    ghost predicate Static() { anchor.Some? }

    /** The stored estimate, and the plain duration where there is none. */
    function Model(): (m: DurationModel)
      ensures estimate.Some? ==> m == estimate.value
      ensures estimate.None? ==> m.Fixed? && m.seconds == duration
    {
      match estimate
      case Some(model) => model
      case None => Fixed(duration)
    }

    /** Seconds one placement takes: the most likely length where the length is not known. */
    function Placement(): (s: U64)
      ensures estimate.None? ==> s == duration
      ensures estimate.Some? && estimate.value.Fixed? ==> s == estimate.value.seconds
      ensures estimate.Some? && estimate.value.ShiftedLognormalP95? ==> s == estimate.value.modeSeconds
    {
      PlacementSeconds(Model())
    }
  }

  /** What one placement occupies: the fixed length, or the mode of a distribution. */
  function PlacementSeconds(model: DurationModel): U64
  {
    match model
    case Fixed(seconds) => seconds
    case ShiftedLognormalP95(_, mode, _) => mode
  }

  function Ids(tasks: seq<TaskSpec>): (r: set<Id>)
    ensures forall i :: 0 <= i < |tasks| ==> tasks[i].id in r
    ensures forall x :: x in r ==> exists i :: 0 <= i < |tasks| && tasks[i].id == x
  {
    set i | 0 <= i < |tasks| :: tasks[i].id
  }

  ghost predicate UniqueIds(tasks: seq<TaskSpec>)
  {
    forall i, j :: 0 <= i < j < |tasks| ==> tasks[i].id != tasks[j].id
  }

  lemma UniqueIdsSame(tasks: seq<TaskSpec>, a: TaskSpec, b: TaskSpec)
    requires UniqueIds(tasks) && a in tasks && b in tasks && a.id == b.id
    ensures a == b
  {
    var i :| 0 <= i < |tasks| && tasks[i] == a;
    var j :| 0 <= j < |tasks| && tasks[j] == b;
    if i < j { assert false; }
    if j < i { assert false; }
  }

  lemma UniqueIdsSub(part: seq<TaskSpec>, tasks: seq<TaskSpec>)
    requires UniqueIds(tasks) && multiset(part) <= multiset(tasks)
    ensures UniqueIds(part)
  {
    assert NoDuplicates(tasks);
    DistinctCounts(tasks);
    DistinctCounts(part);
    forall i, j | 0 <= i < j < |part| ensures part[i].id != part[j].id {
      var a, b := part[i], part[j];
      assert a in multiset(part) && b in multiset(part);
      assert a in multiset(tasks) && b in multiset(tasks);
      assert a != b;
      if a.id == b.id {
        UniqueIdsSame(tasks, a, b);
      }
    }
  }

  /** Everything any Task of this handle depends on. */
  ghost function Prerequisites(tasks: seq<TaskSpec>, id: Id): (r: set<Id>)
    ensures forall d :: d in r <==> exists i :: 0 <= i < |tasks| && tasks[i].id == id && d in tasks[i].dependsOn
  {
    set i, d | 0 <= i < |tasks| && tasks[i].id == id && d in tasks[i].dependsOn :: d
  }

  ghost function GraphOf(tasks: seq<TaskSpec>): Graph
  {
    map id | id in Ids(tasks) :: Prerequisites(tasks, id)
  }

  lemma DependencyIsNeed(tasks: seq<TaskSpec>, t: TaskSpec, d: Id)
    requires t in tasks && d in t.dependsOn
    ensures Needs(GraphOf(tasks), t.id, d)
  {
    var i :| 0 <= i < |tasks| && tasks[i] == t;
    assert d in Prerequisites(tasks, t.id);
  }

  /** Among these handles a Task waits only for earlier ones. */
  ghost predicate LooksBack(tasks: seq<TaskSpec>, ids: seq<Id>)
  {
    forall i, j, t | 0 <= i < |ids| && 0 <= j < |ids| && t in tasks :: t.id == ids[i] && ids[j] in t.dependsOn ==> j < i
  }
}
