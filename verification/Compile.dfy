/** Replacing each unstarted segment of a decomposition by one carrier Task. */
module Compile {
  import opened Basics
  import opened Sorting
  import opened Tasks
  import opened Segments
  import opened SegmentRanges

  /** A segment of an active container: the children that belong together. */
  datatype UnitRef = UnitRef(container: Id, index: nat, ids: seq<Id>)

  /** What is kept beside the request to expand the carrier again. */
  datatype CompiledSegment = CompiledSegment(container: Id, index: nat, members: seq<TaskSpec>, placements: seq<U64>)

  function TaskWithId(tasks: seq<TaskSpec>, id: Id): (t: TaskSpec)
    requires id in Ids(tasks)
    ensures t in tasks && t.id == id
  {
    if tasks[0].id == id then tasks[0]
    else
      assert id in Ids(tasks[1..]) by {
        var i :| 0 <= i < |tasks| && tasks[i].id == id;
        assert tasks[1..][i - 1].id == id;
      }
      TaskWithId(tasks[1..], id)
  }

  predicate AllPresent(tasks: seq<TaskSpec>, ids: seq<Id>)
  {
    forall i :: 0 <= i < |ids| ==> ids[i] in Ids(tasks)
  }

  function FirstPresent(tasks: seq<TaskSpec>, ids: seq<Id>): (k: nat)
    ensures k <= |ids|
    ensures forall i :: 0 <= i < k ==> ids[i] !in Ids(tasks)
    ensures k < |ids| ==> ids[k] in Ids(tasks)
  {
    if ids == [] || ids[0] in Ids(tasks) then 0 else 1 + FirstPresent(tasks, ids[1..])
  }

  function MembersOf(tasks: seq<TaskSpec>, ids: seq<Id>): (r: seq<TaskSpec>)
    requires AllPresent(tasks, ids)
    ensures |r| == |ids| && forall i :: 0 <= i < |ids| ==> r[i] in tasks && r[i].id == ids[i]
  {
    seq(|ids|, i requires 0 <= i < |ids| => TaskWithId(tasks, ids[i]))
  }

  /** The children of a segment that are still to be done, if they are an unbroken suffix of two or more. */
  ghost predicate Unstarted(tasks: seq<TaskSpec>, ids: seq<Id>)
  {
    var k := FirstPresent(tasks, ids);
    |ids| - k >= 2 && AllPresent(tasks, ids[k..])
  }

  /** Whether this segment becomes one unit. */
  ghost predicate Compiles(tasks: seq<TaskSpec>, rows: Rows, accepts: DurationModel -> bool, ids: seq<Id>)
  {
    Unstarted(tasks, ids) && Compilable(rows, MembersOf(tasks, ids[FirstPresent(tasks, ids)..]), accepts)
  }

  ghost function SegmentFor(tasks: seq<TaskSpec>, unit: UnitRef): CompiledSegment
    requires Unstarted(tasks, unit.ids)
  {
    var members := MembersOf(tasks, unit.ids[FirstPresent(tasks, unit.ids)..]);
    CompiledSegment(unit.container, unit.index, members, Placements(members))
  }

  ghost predicate SegmentIs(tasks: seq<TaskSpec>, unit: UnitRef, segment: CompiledSegment)
  {
    Unstarted(tasks, unit.ids) && segment == SegmentFor(tasks, unit)
  }

  /** Every compiled segment is one of the listed units. */
  ghost predicate AllFromUnits(tasks: seq<TaskSpec>, units: seq<UnitRef>, compiled: map<Id, CompiledSegment>)
  {
    forall c :: c in compiled ==> exists unit :: unit in units && SegmentIs(tasks, unit, compiled[c])
  }

  /** No child belongs to two segments, or twice to one. */
  ghost predicate DistinctUnits(units: seq<UnitRef>)
  {
    && (forall u :: 0 <= u < |units| ==> NoDuplicates(units[u].ids))
    && (forall u, v :: 0 <= u < v < |units| ==> Elements(units[u].ids) !! Elements(units[v].ids))
  }

  /** Which carrier every fused child belongs to. */
  type Homes = map<Id, Id>

  ghost predicate SegmentOf(tasks: seq<TaskSpec>, home: Homes, c: Id, segment: CompiledSegment)
  {
    && |segment.members| >= 2 && UniqueIds(segment.members)
    && segment.members[0].id == c
    && segment.placements == Placements(segment.members)
    && forall i :: 0 <= i < |segment.members| ==>
         && segment.members[i] in tasks
         && segment.members[i].id in home && home[segment.members[i].id] == c
  }

  ghost predicate HomesMatch(home: Homes, compiled: map<Id, CompiledSegment>)
  {
    forall m :: m in home ==> home[m] in compiled && m in Ids(compiled[home[m]].members)
  }

  /** The request while segments are being replaced. */
  ghost predicate Replacing(tasks: seq<TaskSpec>, rows: Rows, current: seq<TaskSpec>,
                            compiled: map<Id, CompiledSegment>, home: Homes)
  {
    && UniqueIds(current)
    && HomesMatch(home, compiled)
    && SegmentsKept(tasks, current, compiled, home)
    && CurrentIs(tasks, rows, current, compiled, home)
  }

  ghost predicate SegmentsKept(tasks: seq<TaskSpec>, current: seq<TaskSpec>, compiled: map<Id, CompiledSegment>,
                               home: Homes)
  {
    forall c :: c in compiled ==> SegmentOf(tasks, home, c, compiled[c]) && c in Ids(current)
  }

  /** A carrier for each compiled segment, and every Task outside the segments as it was. */
  ghost predicate CurrentIs(tasks: seq<TaskSpec>, rows: Rows, current: seq<TaskSpec>,
                            compiled: map<Id, CompiledSegment>, home: Homes)
  {
    && (forall t :: t in current ==>
          if t.id in compiled then Unit(rows, compiled[t.id].members, t) else t in tasks && t.id !in home)
    && (forall t :: t in tasks && t.id !in home ==> t in current)
  }

  /** Fused children other than the first are named by their carrier from now on. */
  ghost predicate Renames(home: Homes, replacements: map<Id, Id>)
  {
    && (forall m :: m in replacements <==> m in home && home[m] != m)
    && (forall m :: m in replacements ==> replacements[m] == home[m])
  }

  ghost predicate UnitOutcome(tasks: seq<TaskSpec>, rows: Rows, accepts: DurationModel -> bool, unit: UnitRef,
                              compiled: map<Id, CompiledSegment>, home: Homes)
  {
    if Compiles(tasks, rows, accepts, unit.ids) then
      var k := FirstPresent(tasks, unit.ids);
      unit.ids[k] in compiled && compiled[unit.ids[k]] == SegmentFor(tasks, unit)
    else forall i :: 0 <= i < |unit.ids| ==> unit.ids[i] !in home
  }

  // ----- one segment -----

  /** The carrier takes its first child's place and the other children leave. */
  function ReplaceUnit(current: seq<TaskSpec>, ids: seq<Id>, carrier: TaskSpec): seq<TaskSpec>
    requires |ids| >= 1
  {
    Map((t: TaskSpec) => if t.id == carrier.id then carrier else t, Filter((t: TaskSpec) => t.id !in ids[1..], current))
  }

  lemma ReplacedUnique(current: seq<TaskSpec>, ids: seq<Id>, carrier: TaskSpec)
    requires UniqueIds(current) && |ids| >= 1
    ensures UniqueIds(ReplaceUnit(current, ids, carrier))
  {
    var leave := (t: TaskSpec) => t.id !in ids[1..];
    var kept := Filter(leave, current);
    FilterMultiset(leave, current);
    UniqueIdsSub(kept, current);
    var out := ReplaceUnit(current, ids, carrier);
    assert forall i :: 0 <= i < |kept| ==> out[i].id == kept[i].id;
  }

  lemma InReplaced(current: seq<TaskSpec>, ids: seq<Id>, carrier: TaskSpec, t: TaskSpec)
    requires |ids| >= 1 && NoDuplicates(ids) && carrier.id == ids[0] && ids[0] in Ids(current)
    ensures t in ReplaceUnit(current, ids, carrier) <==> t == carrier || (t in current && t.id !in ids)
  {
    var leave := (t: TaskSpec) => t.id !in ids[1..];
    var swap := (t: TaskSpec) => if t.id == carrier.id then carrier else t;
    var kept := Filter(leave, current);
    HeadOnce(ids);
    if t in ReplaceUnit(current, ids, carrier) {
      var x := FromMap(swap, kept, t);
    }
    if t == carrier {
      IntoMap(swap, kept, TaskWithId(current, ids[0]));
    } else if t in current && t.id !in ids {
      IntoMap(swap, kept, t);
    }
  }

  lemma ReplaceMembers(current: seq<TaskSpec>, ids: seq<Id>, carrier: TaskSpec)
    requires UniqueIds(current) && |ids| >= 1 && NoDuplicates(ids) && carrier.id == ids[0] && ids[0] in Ids(current)
    ensures forall t :: t in ReplaceUnit(current, ids, carrier) <==> t == carrier || (t in current && t.id !in ids)
    ensures UniqueIds(ReplaceUnit(current, ids, carrier))
  {
    ReplacedUnique(current, ids, carrier);
    forall t ensures t in ReplaceUnit(current, ids, carrier) <==> t == carrier || (t in current && t.id !in ids) {
      InReplaced(current, ids, carrier, t);
    }
  }

  ghost function HomeWith(home: Homes, ids: seq<Id>, c: Id): Homes
  {
    home + map m | m in ids :: c
  }

  lemma OldSegmentsStay(tasks: seq<TaskSpec>, home: Homes, ids: seq<Id>, c: Id, other: Id, segment: CompiledSegment)
    requires SegmentOf(tasks, home, other, segment) && Elements(ids) !! home.Keys
    ensures SegmentOf(tasks, HomeWith(home, ids, c), other, segment)
  {
    forall i | 0 <= i < |segment.members|
      ensures segment.members[i].id in HomeWith(home, ids, c) && HomeWith(home, ids, c)[segment.members[i].id] == other
    {
      assert segment.members[i].id !in Elements(ids);
    }
  }

  lemma NewSegment(tasks: seq<TaskSpec>, home: Homes, ids: seq<Id>, segment: CompiledSegment)
    requires |ids| >= 2 && NoDuplicates(ids) && AllPresent(tasks, ids)
    requires segment.members == MembersOf(tasks, ids) && segment.placements == Placements(segment.members)
    ensures SegmentOf(tasks, HomeWith(home, ids, ids[0]), ids[0], segment)
    ensures Ids(segment.members) == Elements(ids)
  {
    var members := segment.members;
    forall i, j | 0 <= i < j < |members| ensures members[i].id != members[j].id {
      assert ids[i] != ids[j];
    }
    forall i | 0 <= i < |members| ensures members[i].id in ids {
      assert members[i].id == ids[i];
    }
    forall x | x in ids ensures x in Ids(members) {
      var i :| 0 <= i < |ids| && ids[i] == x;
      assert members[i].id == x;
    }
  }

  lemma HomesStillMatch(home: Homes, compiled: map<Id, CompiledSegment>, ids: seq<Id>, segment: CompiledSegment)
    requires HomesMatch(home, compiled) && |ids| >= 1 && ids[0] !in compiled
    requires Ids(segment.members) == Elements(ids)
    ensures HomesMatch(HomeWith(home, ids, ids[0]), compiled[ids[0] := segment])
  {
  }

  /** Replacing one untouched segment keeps the request in order. */
  lemma ReplaceKeeps(tasks: seq<TaskSpec>, rows: Rows, current: seq<TaskSpec>, compiled: map<Id, CompiledSegment>,
                     home: Homes, ids: seq<Id>, segment: CompiledSegment, carrier: TaskSpec)
    requires UniqueIds(tasks) && Replacing(tasks, rows, current, compiled, home)
    requires |ids| >= 2 && NoDuplicates(ids) && AllPresent(tasks, ids) && Elements(ids) !! home.Keys
    requires segment.members == MembersOf(tasks, ids) && segment.placements == Placements(segment.members)
    requires Unit(rows, segment.members, carrier)
    ensures Replacing(tasks, rows, ReplaceUnit(current, ids, carrier), compiled[ids[0] := segment],
                      HomeWith(home, ids, ids[0]))
  {
    var c := ids[0];
    assert c in Elements(ids);
    CarriersAreHome(tasks, rows, current, compiled, home);
    UntouchedStays(tasks, rows, current, compiled, home, c);
    var out, compiled', home' := ReplaceUnit(current, ids, carrier), compiled[c := segment], HomeWith(home, ids, c);
    ReplaceMembers(current, ids, carrier);
    NewSegment(tasks, home, ids, segment);
    HomesStillMatch(home, compiled, ids, segment);
    SegmentsStillKept(tasks, rows, current, compiled, home, ids, segment, carrier);
    CurrentStillIs(tasks, rows, current, compiled, home, ids, segment, carrier);
  }

  lemma SegmentsStillKept(tasks: seq<TaskSpec>, rows: Rows, current: seq<TaskSpec>, compiled: map<Id, CompiledSegment>,
                          home: Homes, ids: seq<Id>, segment: CompiledSegment, carrier: TaskSpec)
    requires Replacing(tasks, rows, current, compiled, home)
    requires |ids| >= 2 && NoDuplicates(ids) && AllPresent(tasks, ids) && Elements(ids) !! home.Keys
    requires segment.members == MembersOf(tasks, ids) && segment.placements == Placements(segment.members)
    requires carrier.id == ids[0] && ids[0] in Ids(current)
    ensures SegmentsKept(tasks, ReplaceUnit(current, ids, carrier), compiled[ids[0] := segment],
        HomeWith(home, ids, ids[0]))
  {
    var compiled' := compiled[ids[0] := segment];
    forall o | o in compiled'
      ensures SegmentOf(tasks, HomeWith(home, ids, ids[0]), o, compiled'[o])
      ensures o in Ids(ReplaceUnit(current, ids, carrier))
    {
      SegmentStillKept(tasks, rows, current, compiled, home, ids, segment, carrier, o);
    }
  }

  lemma SegmentStillKept(tasks: seq<TaskSpec>, rows: Rows, current: seq<TaskSpec>, compiled: map<Id, CompiledSegment>,
                         home: Homes, ids: seq<Id>, segment: CompiledSegment, carrier: TaskSpec, o: Id)
    requires Replacing(tasks, rows, current, compiled, home)
    requires |ids| >= 2 && NoDuplicates(ids) && AllPresent(tasks, ids) && Elements(ids) !! home.Keys
    requires segment.members == MembersOf(tasks, ids) && segment.placements == Placements(segment.members)
    requires carrier.id == ids[0] && ids[0] in Ids(current)
    requires o == ids[0] || o in compiled
    ensures SegmentOf(tasks, HomeWith(home, ids, ids[0]), o, if o == ids[0] then segment else compiled[o])
    ensures o in Ids(ReplaceUnit(current, ids, carrier))
  {
    if o == ids[0] {
      NewSegment(tasks, home, ids, segment);
      InReplaced(current, ids, carrier, carrier);
      IdIn(ReplaceUnit(current, ids, carrier), carrier);
    } else {
      OldSegmentsStay(tasks, home, ids, ids[0], o, compiled[o]);
      OldCarriersStay(tasks, rows, current, compiled, home, ids, carrier, o);
    }
  }

  lemma CurrentStillIs(tasks: seq<TaskSpec>, rows: Rows, current: seq<TaskSpec>, compiled: map<Id, CompiledSegment>,
                       home: Homes, ids: seq<Id>, segment: CompiledSegment, carrier: TaskSpec)
    requires UniqueIds(current) && CurrentIs(tasks, rows, current, compiled, home)
    requires |ids| >= 2 && NoDuplicates(ids)
    requires carrier.id == ids[0] && ids[0] in Ids(current) && Unit(rows, segment.members, carrier)
    ensures CurrentIs(tasks, rows, ReplaceUnit(current, ids, carrier), compiled[ids[0] := segment],
        HomeWith(home, ids, ids[0]))
  {
    var c := ids[0];
    var out, compiled', home' := ReplaceUnit(current, ids, carrier), compiled[c := segment], HomeWith(home, ids, c);
    ReplaceMembers(current, ids, carrier);
    assert c in ids;
    forall t | t in out
      ensures if t.id in compiled' then Unit(rows, compiled'[t.id].members, t) else t in tasks && t.id !in home'
    {
      if t != carrier { assert t in current && t.id !in ids; }
    }
    forall t | t in tasks && t.id !in home' ensures t in out {
      assert t.id !in ids;
    }
  }

  lemma OldCarriersStay(tasks: seq<TaskSpec>, rows: Rows, current: seq<TaskSpec>, compiled: map<Id, CompiledSegment>,
                        home: Homes, ids: seq<Id>, carrier: TaskSpec, o: Id)
    requires Replacing(tasks, rows, current, compiled, home) && o in compiled
    requires |ids| >= 1 && NoDuplicates(ids) && Elements(ids) !! home.Keys
    requires carrier.id == ids[0] && ids[0] in Ids(current)
    ensures o in Ids(ReplaceUnit(current, ids, carrier))
  {
    CarriersAreHome(tasks, rows, current, compiled, home);
    var t := TaskWithId(current, o);
    assert o !in Elements(ids);
    InReplaced(current, ids, carrier, t);
    IdIn(ReplaceUnit(current, ids, carrier), t);
  }

  lemma IdIn(tasks: seq<TaskSpec>, t: TaskSpec)
    requires t in tasks
    ensures t.id in Ids(tasks)
  {
    var i :| 0 <= i < |tasks| && tasks[i] == t;
  }

  lemma CarriersAreHome(tasks: seq<TaskSpec>, rows: Rows, current: seq<TaskSpec>,
                        compiled: map<Id, CompiledSegment>, home: Homes)
    requires Replacing(tasks, rows, current, compiled, home)
    ensures forall c :: c in compiled ==> c in home && home[c] == c
  {
    forall c | c in compiled ensures c in home && home[c] == c {
      assert SegmentOf(tasks, home, c, compiled[c]);
      assert compiled[c].members[0].id == c;
    }
  }

  lemma UntouchedStays(tasks: seq<TaskSpec>, rows: Rows, current: seq<TaskSpec>,
                       compiled: map<Id, CompiledSegment>, home: Homes, id: Id)
    requires Replacing(tasks, rows, current, compiled, home) && id in Ids(tasks) && id !in home
    ensures id in Ids(current)
  {
    var t := TaskWithId(tasks, id);
    assert t in current;
    IdIn(current, t);
  }

  lemma RenamesGrow(home: Homes, replacements: map<Id, Id>, ids: seq<Id>)
    requires Renames(home, replacements) && |ids| >= 1 && NoDuplicates(ids) && Elements(ids) !! home.Keys
    ensures Renames(HomeWith(home, ids, ids[0]), replacements + map m | m in ids[1..] :: ids[0])
  {
    var home', more := HomeWith(home, ids, ids[0]), replacements + map m | m in ids[1..] :: ids[0];
    HeadOnce(ids);
    forall m
      ensures m in more <==> m in home' && home'[m] != m
      ensures m in more ==> more[m] == home'[m]
    {
      if m in ids {
        assert m in Elements(ids);
        assert home'[m] == ids[0];
      }
    }
  }

  lemma HeadOnce(ids: seq<Id>)
    requires |ids| >= 1 && NoDuplicates(ids)
    ensures forall x :: x in ids[1..] <==> x in ids && x != ids[0]
  {
    assert ids == [ids[0]] + ids[1..];
    assert ids[0] !in ids[1..];
  }

  /** Presence and identity of children not yet in any unit are what they were at the start. */
  lemma SameChildren(tasks: seq<TaskSpec>, rows: Rows, current: seq<TaskSpec>, compiled: map<Id, CompiledSegment>,
                     home: Homes, id: Id)
    requires UniqueIds(tasks) && Replacing(tasks, rows, current, compiled, home) && id !in home
    ensures id in Ids(current) <==> id in Ids(tasks)
    ensures id in Ids(tasks) ==> TaskWithId(current, id) == TaskWithId(tasks, id)
  {
    CarriersAreHome(tasks, rows, current, compiled, home);
    if id in Ids(current) {
      var t := TaskWithId(current, id);
      assert t in tasks;
      IdIn(tasks, t);
      UniqueIdsSame(tasks, t, TaskWithId(tasks, id));
    } else if id in Ids(tasks) {
      UntouchedStays(tasks, rows, current, compiled, home, id);
    }
  }

  lemma SameSuffix(tasks: seq<TaskSpec>, rows: Rows, current: seq<TaskSpec>, compiled: map<Id, CompiledSegment>,
                   home: Homes, ids: seq<Id>)
    requires UniqueIds(tasks) && Replacing(tasks, rows, current, compiled, home)
    requires Elements(ids) !! home.Keys
    ensures FirstPresent(current, ids) == FirstPresent(tasks, ids)
    ensures forall k :: 0 <= k <= |ids| ==> (AllPresent(current, ids[k..]) <==> AllPresent(tasks, ids[k..]))
    ensures forall k :: 0 <= k <= |ids| && AllPresent(tasks, ids[k..]) && AllPresent(current, ids[k..]) ==>
              MembersOf(current, ids[k..]) == MembersOf(tasks, ids[k..])
  {
    forall i | 0 <= i < |ids|
      ensures ids[i] in Ids(current) <==> ids[i] in Ids(tasks)
      ensures ids[i] in Ids(tasks) ==> TaskWithId(current, ids[i]) == TaskWithId(tasks, ids[i])
    {
      assert ids[i] in Elements(ids);
      SameChildren(tasks, rows, current, compiled, home, ids[i]);
    }
    SameFirst(current, tasks, ids);
    forall k | 0 <= k <= |ids|
      ensures AllPresent(current, ids[k..]) <==> AllPresent(tasks, ids[k..])
      ensures AllPresent(tasks, ids[k..]) && AllPresent(current, ids[k..]) ==>
                MembersOf(current, ids[k..]) == MembersOf(tasks, ids[k..])
    {
      SameFrom(tasks, current, ids, k);
    }
  }

  lemma SameFrom(tasks: seq<TaskSpec>, current: seq<TaskSpec>, ids: seq<Id>, k: nat)
    requires k <= |ids|
    requires forall i :: 0 <= i < |ids| ==> (ids[i] in Ids(current) <==> ids[i] in Ids(tasks))
    requires forall i :: 0 <= i < |ids| && ids[i] in Ids(tasks) ==>
        TaskWithId(current, ids[i]) == TaskWithId(tasks, ids[i])
    ensures AllPresent(current, ids[k..]) <==> AllPresent(tasks, ids[k..])
    ensures AllPresent(tasks, ids[k..]) && AllPresent(current, ids[k..]) ==>
              MembersOf(current, ids[k..]) == MembersOf(tasks, ids[k..])
  {
    assert forall i :: 0 <= i < |ids| - k ==> ids[k..][i] == ids[k + i];
  }

  lemma {:induction false} SameFirst(a: seq<TaskSpec>, b: seq<TaskSpec>, ids: seq<Id>)
    requires forall i :: 0 <= i < |ids| ==> (ids[i] in Ids(a) <==> ids[i] in Ids(b))
    ensures FirstPresent(a, ids) == FirstPresent(b, ids)
  {
    if ids != [] && ids[0] !in Ids(a) {
      SameFirst(a, b, ids[1..]);
    }
  }

  /** Later segments leave what was decided about earlier ones alone. */
  ghost predicate Extends(compiled: map<Id, CompiledSegment>, home: Homes,
                          compiled': map<Id, CompiledSegment>, home': Homes, ids: seq<Id>)
  {
    && (forall c :: c in compiled ==> c in compiled' && compiled'[c] == compiled[c])
    && (forall m :: m in home' ==> m in home || m in ids)
    && (forall m :: m in home ==> m in home' && home'[m] == home[m])
  }

  /** Turn one segment into a unit, unless it is broken, too short or cannot form one. */
  method CompileUnit(ghost tasks: seq<TaskSpec>, rows: Rows, accepts: DurationModel -> bool, unit: UnitRef,
                     current: seq<TaskSpec>, compiled: map<Id, CompiledSegment>, replacements: map<Id, Id>,
                     ghost home: Homes)
    returns (current': seq<TaskSpec>, compiled': map<Id, CompiledSegment>, replacements': map<Id, Id>,
        ghost home': Homes)
    requires UniqueIds(tasks) && Replacing(tasks, rows, current, compiled, home) && Renames(home, replacements)
    requires NoDuplicates(unit.ids) && Elements(unit.ids) !! home.Keys
    ensures Replacing(tasks, rows, current', compiled', home') && Renames(home', replacements')
    ensures UnitOutcome(tasks, rows, accepts, unit, compiled', home')
    ensures Extends(compiled, home, compiled', home', unit.ids)
    ensures forall c :: c in compiled' && c !in compiled ==> SegmentIs(tasks, unit, compiled'[c])
    ensures KeepsListing(tasks, current) ==> KeepsListing(tasks, current')
  {
    current', compiled', replacements', home' := current, compiled, replacements, home;
    UnitUntouched(tasks, rows, current, compiled, home, unit);
    var first := FirstPresent(current, unit.ids);
    var ids := unit.ids[first..];
    if !AllPresent(current, ids) || |ids| < 2 { return; }
    var members := MembersOf(current, ids);
    var carrier, placements := FuseMembers(rows, members, accepts);
    if carrier.None? { return; }
    var segment := CompiledSegment(unit.container, unit.index, members, placements);
    UnitReplaced(tasks, rows, accepts, unit, current, compiled, replacements, home, first, segment, carrier.value);
    current' := ReplaceUnit(current, ids, carrier.value);
    compiled' := compiled[ids[0] := segment];
    replacements' := replacements + map m | m in ids[1..] :: ids[0];
    home' := HomeWith(home, ids, ids[0]);
  }

  lemma UnitUntouched(tasks: seq<TaskSpec>, rows: Rows, current: seq<TaskSpec>, compiled: map<Id, CompiledSegment>,
                      home: Homes, unit: UnitRef)
    requires UniqueIds(tasks) && Replacing(tasks, rows, current, compiled, home)
    requires Elements(unit.ids) !! home.Keys
    ensures forall i :: 0 <= i < |unit.ids| ==> unit.ids[i] !in home
    ensures var k := FirstPresent(tasks, unit.ids);
            && FirstPresent(current, unit.ids) == k
            && (AllPresent(current, unit.ids[k..]) <==> AllPresent(tasks, unit.ids[k..]))
            && (AllPresent(tasks, unit.ids[k..]) && AllPresent(current, unit.ids[k..]) ==>
                  MembersOf(current, unit.ids[k..]) == MembersOf(tasks, unit.ids[k..]))
  {
    SameSuffix(tasks, rows, current, compiled, home, unit.ids);
    forall i | 0 <= i < |unit.ids| ensures unit.ids[i] !in home { assert unit.ids[i] in Elements(unit.ids); }
  }

  lemma UnitReplaced(tasks: seq<TaskSpec>, rows: Rows, accepts: DurationModel -> bool, unit: UnitRef,
                     current: seq<TaskSpec>, compiled: map<Id, CompiledSegment>, replacements: map<Id, Id>, home: Homes,
                     first: nat, segment: CompiledSegment, carrier: TaskSpec)
    requires UniqueIds(tasks) && Replacing(tasks, rows, current, compiled, home) && Renames(home, replacements)
    requires NoDuplicates(unit.ids) && Elements(unit.ids) !! home.Keys
    requires first == FirstPresent(tasks, unit.ids) && Compiles(tasks, rows, accepts, unit.ids)
    requires segment == SegmentFor(tasks, unit) && Unit(rows, segment.members, carrier)
    ensures var ids := unit.ids[first..];
            var compiled', home' := compiled[ids[0] := segment], HomeWith(home, ids, ids[0]);
            && Replacing(tasks, rows, ReplaceUnit(current, ids, carrier), compiled', home')
            && Renames(home', replacements + map m | m in ids[1..] :: ids[0])
            && Extends(compiled, home, compiled', home', unit.ids)
            && UnitOutcome(tasks, rows, accepts, unit, compiled', home')
    ensures KeepsListing(tasks, current) ==> KeepsListing(tasks, ReplaceUnit(current, unit.ids[first..], carrier))
  {
    var ids := unit.ids[first..];
    ListingStays(tasks, current, ids, carrier);
    SuffixDistinct(unit.ids, first, home);
    ReplaceKeeps(tasks, rows, current, compiled, home, ids, segment, carrier);
    RenamesGrow(home, replacements, ids);
    assert ids[0] in Elements(ids);
    NotYetCompiled(tasks, rows, current, compiled, home, ids[0]);
    assert ids[0] == unit.ids[first];
  }

  lemma SuffixDistinct(ids: seq<Id>, k: nat, home: Homes)
    requires k <= |ids| && NoDuplicates(ids) && Elements(ids) !! home.Keys
    ensures NoDuplicates(ids[k..]) && Elements(ids[k..]) !! home.Keys
    ensures forall x :: x in ids[k..] ==> x in ids
  {
    forall x | x in Elements(ids[k..]) ensures x in Elements(ids) { }
  }

  lemma NotYetCompiled(tasks: seq<TaskSpec>, rows: Rows, current: seq<TaskSpec>, compiled: map<Id, CompiledSegment>,
                       home: Homes, id: Id)
    requires Replacing(tasks, rows, current, compiled, home) && id !in home
    ensures id !in compiled
  {
    CarriersAreHome(tasks, rows, current, compiled, home);
  }

  // ----- all segments -----

  /** What every active decomposition keeps: ordered children cut by its split points. */
  datatype Container = Container(id: Id, active: bool, items: seq<Id>, splits: seq<nat>)

  ghost predicate ValidContainer(c: Container)
  {
    |c.items| > 0 && forall i :: 0 <= i < |c.splits| ==>
        0 < c.splits[i] < |c.items| && (i > 0 ==> c.splits[i - 1] < c.splits[i])
  }

  lemma {:induction false} ValidContainerSplits(c: Container)
    requires ValidContainer(c)
    ensures Tiles(Ranges(c.splits, |c.items|), 0, |c.items|)
  {
    forall i, j | 0 <= i < j < |c.splits| ensures c.splits[i] < c.splits[j] {
      SplitsAscend(c, i, j);
    }
    RangesTile(0, c.splits, |c.items|);
  }

  lemma {:induction false} SplitsAscend(c: Container, i: nat, j: nat)
    requires ValidContainer(c) && i < j < |c.splits|
    ensures c.splits[i] < c.splits[j]
    decreases j
  {
    assert c.splits[j - 1] < c.splits[j];
    if i < j - 1 { SplitsAscend(c, i, j - 1); }
  }

  function UnitsOf(c: Container): (r: seq<UnitRef>)
    requires ValidContainer(c)
    ensures |r| == |c.splits| + 1
    ensures forall i :: 0 <= i < |r| ==> r[i].container == c.id && r[i].index == i
    ensures forall i :: 0 <= i < |r| ==>
              var range := Ranges(c.splits, |c.items|)[i];
              range.lo <= range.hi <= |c.items| && r[i].ids == c.items[range.lo..range.hi]
  {
    var ranges := Ranges(c.splits, |c.items|);
    RangesInside(c);
    seq(|ranges|, i requires 0 <= i < |ranges| => UnitRef(c.id, i, c.items[ranges[i].lo..ranges[i].hi]))
  }

  lemma RangesInside(c: Container)
    requires ValidContainer(c)
    ensures forall i :: 0 <= i < |c.splits| + 1 ==>
              Ranges(c.splits, |c.items|)[i].lo <= Ranges(c.splits, |c.items|)[i].hi <= |c.items|
  {
    var ranges := Ranges(c.splits, |c.items|);
    ValidContainerSplits(c);
    forall i | 0 <= i < |ranges| ensures ranges[i].lo <= ranges[i].hi <= |c.items| {
      if i < |ranges| - 1 { TilesOrdered(ranges, 0, |c.items|, i, |ranges| - 1); }
    }
  }

  /** The segments of two or more children, container by container. */
  function ActiveUnits(containers: seq<Container>): seq<UnitRef>
    requires forall i :: 0 <= i < |containers| ==> ValidContainer(containers[i])
  {
    if containers == [] then []
    else
      var c := containers[|containers| - 1];
      ActiveUnits(containers[..|containers| - 1]) +
      if c.active then Filter((u: UnitRef) => |u.ids| > 1, UnitsOf(c)) else []
  }

  /** Children are minted for one decomposition: none is listed twice. */
  ghost predicate DistinctItems(containers: seq<Container>)
  {
    && (forall i :: 0 <= i < |containers| && containers[i].active ==> NoDuplicates(containers[i].items))
    && (forall i, j :: 0 <= i < j < |containers| && containers[i].active && containers[j].active ==>
          Elements(containers[i].items) !! Elements(containers[j].items))
  }

  lemma {:induction false} FilteredUnitsDistinct(p: UnitRef -> bool, units: seq<UnitRef>)
    requires DistinctUnits(units)
    ensures DistinctUnits(Filter(p, units))
  {
    if units != [] {
      var rest := units[1..];
      assert forall u :: 0 <= u < |rest| ==> rest[u] == units[u + 1];
      FilteredUnitsDistinct(p, rest);
      var kept := Filter(p, rest);
      forall v | 0 <= v < |kept| ensures Elements(units[0].ids) !! Elements(kept[v].ids) {
        assert kept[v] in kept && kept[v] in rest;
        var k :| 0 <= k < |rest| && rest[k] == kept[v];
      }
      if p(units[0]) {
        UnitInFront(units[0], kept);
      }
    }
  }

  lemma UnitInFront(first: UnitRef, units: seq<UnitRef>)
    requires DistinctUnits(units) && NoDuplicates(first.ids)
    requires forall v :: 0 <= v < |units| ==> Elements(first.ids) !! Elements(units[v].ids)
    ensures DistinctUnits([first] + units)
  {
    var all := [first] + units;
    assert forall u :: 0 < u < |all| ==> all[u] == units[u - 1];
  }

  lemma SegmentsOfOneDistinct(c: Container)
    requires ValidContainer(c) && NoDuplicates(c.items)
    ensures DistinctUnits(UnitsOf(c))
    ensures forall u :: u in UnitsOf(c) ==> Elements(u.ids) <= Elements(c.items)
  {
    var units, ranges := UnitsOf(c), Ranges(c.splits, |c.items|);
    ValidContainerSplits(c);
    forall u | 0 <= u < |units| ensures NoDuplicates(units[u].ids) && Elements(units[u].ids) <= Elements(c.items) {
      assert units[u].ids == c.items[ranges[u].lo..ranges[u].hi];
    }
    forall u, v | 0 <= u < v < |units| ensures Elements(units[u].ids) !! Elements(units[v].ids) {
      TilesOrdered(ranges, 0, |c.items|, u, v);
      assert units[u].ids == c.items[ranges[u].lo..ranges[u].hi];
      assert units[v].ids == c.items[ranges[v].lo..ranges[v].hi];
      SlicesDisjoint(c.items, ranges[u].lo, ranges[u].hi, ranges[v].lo, ranges[v].hi);
    }
  }

  lemma SlicesDisjoint(s: seq<Id>, a: nat, b: nat, c: nat, d: nat)
    requires NoDuplicates(s) && a <= b <= c <= d <= |s|
    ensures Elements(s[a..b]) !! Elements(s[c..d])
  {
    forall x | x in s[a..b] ensures x !in s[c..d] {
      var i :| 0 <= i < b - a && s[a..b][i] == x;
    }
  }

  /** Distinct children make disjoint segments. */
  lemma {:induction false} ActiveUnitsDistinct(containers: seq<Container>)
    requires forall i :: 0 <= i < |containers| ==> ValidContainer(containers[i])
    requires DistinctItems(containers)
    ensures DistinctUnits(ActiveUnits(containers))
    ensures forall u :: u in ActiveUnits(containers) ==>
              exists i ::
                0 <= i < |containers| && containers[i].active && Elements(u.ids) <= Elements(containers[i].items)
  {
    if containers != [] {
      var n := |containers| - 1;
      var front, c := containers[..n], containers[n];
      ActiveUnitsDistinct(front);
      if c.active {
        var more := Filter((u: UnitRef) => |u.ids| > 1, UnitsOf(c));
        SegmentsOfOneDistinct(c);
        FilteredUnitsDistinct((u: UnitRef) => |u.ids| > 1, UnitsOf(c));
        var all := ActiveUnits(front) + more;
        forall u, v | 0 <= u < v < |all| ensures Elements(all[u].ids) !! Elements(all[v].ids) {
          if u < |ActiveUnits(front)| <= v {
            assert all[u] in ActiveUnits(front) && all[v] in more;
            var i :| 0 <= i < |front| && front[i].active && Elements(all[u].ids) <= Elements(front[i].items);
            assert front[i] == containers[i];
            assert Elements(containers[i].items) !! Elements(containers[n].items);
          }
        }
      }
      forall u | u in ActiveUnits(containers)
        ensures exists i ::
                  0 <= i < |containers| && containers[i].active && Elements(u.ids) <= Elements(containers[i].items)
      {
        if u in ActiveUnits(front) {
          var i :| 0 <= i < |front| && front[i].active && Elements(u.ids) <= Elements(front[i].items);
          assert front[i] == containers[i];
        }
      }
    }
  }

  // ----- renaming -----

  /** Who a handle stands for in the compiled request. */
  ghost function StandsFor(home: Homes, id: Id): Id
  {
    if id in home then home[id] else id
  }

  ghost function Needs(home: Homes, t: TaskSpec): set<Id>
  {
    (set d | d in t.dependsOn :: StandsFor(home, d)) - {t.id}
  }

  ghost predicate RenamedBy(home: Homes, t: TaskSpec, r: TaskSpec)
  {
    r == t.(dependsOn := Ascending(Needs(home, t)))
  }

  /** The compiled request, with every edge pointing at whoever stands for its ends. */
  ghost predicate Compiled(tasks: seq<TaskSpec>, rows: Rows, accepts: DurationModel -> bool, units: seq<UnitRef>,
                           out: seq<TaskSpec>, compiled: map<Id, CompiledSegment>, home: Homes, current: seq<TaskSpec>)
  {
    && Replacing(tasks, rows, current, compiled, home)
    && |out| == |current|
    && (forall i :: 0 <= i < |out| ==> RenamedBy(home, current[i], out[i]))
    && (forall u :: 0 <= u < |units| ==> UnitOutcome(tasks, rows, accepts, units[u], compiled, home))
    && AllFromUnits(tasks, units, compiled)
  }

  /** What the pass returns: some assignment of children to carriers explains it. */
  ghost predicate CompileOutcome(tasks: seq<TaskSpec>, rows: Rows, accepts: DurationModel -> bool, units: seq<UnitRef>,
                                 out: seq<TaskSpec>, compiled: map<Id, CompiledSegment>)
  {
    exists home, current :: Compiled(tasks, rows, accepts, units, out, compiled, home, current)
  }

  /** Point every dependency at the carrier of a fused child. */
  method RenameAll(tasks: seq<TaskSpec>, replacements: map<Id, Id>, ghost home: Homes) returns (out: seq<TaskSpec>)
    requires Renames(home, replacements)
    ensures |out| == |tasks| && forall i :: 0 <= i < |out| ==> RenamedBy(home, tasks[i], out[i])
  {
    out := [];
    var i := 0;
    while i < |tasks|
      invariant 0 <= i <= |tasks| && |out| == i
      invariant forall k :: 0 <= k < i ==> RenamedBy(home, tasks[k], out[k])
    {
      var t := tasks[i];
      var renamed := (set d | d in t.dependsOn :: if d in replacements then replacements[d] else d) - {t.id};
      assert renamed == Needs(home, t) by {
        assert forall d :: (if d in replacements then replacements[d] else d) == StandsFor(home, d);
      }
      out := out + [t.(dependsOn := Ascending(renamed))];
      i := i + 1;
    }
  }

  method CompileSegments(tasks: seq<TaskSpec>, containers: seq<Container>, rows: Rows, accepts: DurationModel -> bool)
    returns (out: seq<TaskSpec>, compiled: map<Id, CompiledSegment>, ghost home: Homes, ghost current: seq<TaskSpec>)
    requires UniqueIds(tasks)
    requires forall i :: 0 <= i < |containers| ==> ValidContainer(containers[i])
    requires DistinctItems(containers)
    ensures Compiled(tasks, rows, accepts, ActiveUnits(containers), out, compiled, home, current)
    ensures CompileOutcome(tasks, rows, accepts, ActiveUnits(containers), out, compiled)
    ensures SegmentsDecided(tasks, rows, accepts, containers, compiled, home)
    ensures OnlySegments(tasks, rows, accepts, containers, compiled)
    ensures KeepsListing(tasks, out)
  {
    var units := ActiveUnits(containers);
    ActiveUnitsDistinct(containers);
    var working, replacements := tasks, map[];
    compiled, home := map[], map[];
    var i := 0;
    while i < |units|
      invariant 0 <= i <= |units|
      invariant Replacing(tasks, rows, working, compiled, home) && Renames(home, replacements)
      invariant UnitsDone(tasks, rows, accepts, units, i, compiled, home)
      invariant KeepsListing(tasks, working)
    {
      ghost var compiled0, home0 := compiled, home;
      working, compiled, replacements, home :=
        CompileUnit(tasks, rows, accepts, units[i], working, compiled, replacements, home);
      OneMoreUnit(tasks, rows, accepts, units, i, compiled0, home0, compiled, home);
      i := i + 1;
    }
    current := working;
    out := RenameAll(working, replacements, home);
    SameListing(tasks, working, out);
    AllDecided(tasks, rows, accepts, containers, out, compiled, home, current);
    AllReplaced(tasks, rows, accepts, containers, out, compiled, home, current);
  }

  // ----- which segments are replaced, in terms of the stored decompositions -----

  /** `u` lists the children of segment `k` of an active container, two or more of them. */
  ghost predicate SegmentAt(c: Container, k: nat, u: UnitRef)
    requires ValidContainer(c)
  {
    && c.active && k <= |c.splits|
    && var lo := if k == 0 then 0 else c.splits[k - 1];
       var hi := if k == |c.splits| then |c.items| else c.splits[k];
       lo + 2 <= hi && u == UnitRef(c.id, k, c.items[lo..hi])
  }

  /** The first `k` children are gone, the other two or more are the given Tasks, and these can be fused. */
  ghost predicate Fuses(tasks: seq<TaskSpec>, rows: Rows, accepts: DurationModel -> bool, ids: seq<Id>, k: nat,
                        members: seq<TaskSpec>)
  {
    && k + 2 <= |ids| && |members| == |ids| - k
    && (forall i :: 0 <= i < k ==> ids[i] !in Ids(tasks))
    && (forall i :: 0 <= i < |members| ==> members[i] in tasks && members[i].id == ids[k + i])
    && Compilable(rows, members, accepts)
  }

  /** Under its first child a segment that fuses is compiled; the children of any other stay themselves. */
  ghost predicate Decided(tasks: seq<TaskSpec>, rows: Rows, accepts: DurationModel -> bool, u: UnitRef,
                          compiled: map<Id, CompiledSegment>, home: Homes)
  {
    && (forall k: nat, members :: Fuses(tasks, rows, accepts, u.ids, k, members) ==>
          && u.ids[k] in compiled
          && compiled[u.ids[k]] == CompiledSegment(u.container, u.index, members, Placements(members)))
    && ((forall k: nat, members :: !Fuses(tasks, rows, accepts, u.ids, k, members)) ==>
          forall m :: m in u.ids ==> m !in home)
  }

  ghost predicate SegmentsDecided(tasks: seq<TaskSpec>, rows: Rows, accepts: DurationModel -> bool,
                                  containers: seq<Container>, compiled: map<Id, CompiledSegment>, home: Homes)
    requires forall i :: 0 <= i < |containers| ==> ValidContainer(containers[i])
  {
    forall i, k: nat, u :: 0 <= i < |containers| && SegmentAt(containers[i], k, u) ==>
      Decided(tasks, rows, accepts, u, compiled, home)
  }

  /** `segment` is the replacement of some segment of an active container, kept under `c`. */
  ghost predicate Replaced(tasks: seq<TaskSpec>, rows: Rows, accepts: DurationModel -> bool,
                           containers: seq<Container>, c: Id, segment: CompiledSegment)
    requires forall i :: 0 <= i < |containers| ==> ValidContainer(containers[i])
  {
    exists i, k: nat, u, n: nat ::
      && 0 <= i < |containers| && SegmentAt(containers[i], k, u)
      && Fuses(tasks, rows, accepts, u.ids, n, segment.members) && c == u.ids[n]
      && segment == CompiledSegment(u.container, u.index, segment.members, Placements(segment.members))
  }

  ghost predicate OnlySegments(tasks: seq<TaskSpec>, rows: Rows, accepts: DurationModel -> bool,
                               containers: seq<Container>, compiled: map<Id, CompiledSegment>)
    requires forall i :: 0 <= i < |containers| ==> ValidContainer(containers[i])
  {
    forall c :: c in compiled ==> Replaced(tasks, rows, accepts, containers, c, compiled[c])
  }

  /** The units are exactly the segments of two or more children of the active containers. */
  lemma {:induction false} UnitsAreSegments(containers: seq<Container>, u: UnitRef)
    requires forall i :: 0 <= i < |containers| ==> ValidContainer(containers[i])
    ensures u in ActiveUnits(containers) <==>
        exists i, k: nat :: 0 <= i < |containers| && SegmentAt(containers[i], k, u)
  {
    if containers != [] {
      var n := |containers| - 1;
      var front := containers[..n];
      UnitsAreSegments(front, u);
      OneContainer(containers[n], u);
      assert forall i :: 0 <= i < n ==> front[i] == containers[i];
      if i, k: nat :| 0 <= i < |containers| && SegmentAt(containers[i], k, u) {
        if i < n { assert SegmentAt(front[i], k, u); }
      }
    }
  }

  lemma OneContainer(c: Container, u: UnitRef)
    requires ValidContainer(c)
    ensures c.active && u in UnitsOf(c) && |u.ids| > 1 <==> exists k: nat :: SegmentAt(c, k, u)
  {
    var units := UnitsOf(c);
    forall k: nat | k <= |c.splits| ensures SegmentAt(c, k, u) <==> c.active && |u.ids| > 1 && u == units[k] {
      RangeAt(0, c.splits, |c.items|, k);
    }
    if c.active && u in units && |u.ids| > 1 {
      var k :| 0 <= k < |units| && units[k] == u;
      assert SegmentAt(c, k, u);
    }
  }

  /** What is decided of a unit says for which children it is fused, whichever way these are found. */
  lemma FusesExactly(tasks: seq<TaskSpec>, rows: Rows, accepts: DurationModel -> bool, ids: seq<Id>, k: nat,
                     members: seq<TaskSpec>)
    requires UniqueIds(tasks)
    ensures Fuses(tasks, rows, accepts, ids, k, members) <==>
        Compiles(tasks, rows, accepts, ids) && k == FirstPresent(tasks, ids) && members == MembersOf(tasks, ids[k..])
  {
    if Fuses(tasks, rows, accepts, ids, k, members) {
      FusesFirst(tasks, rows, accepts, ids, k, members);
    }
  }

  lemma FusesFirst(tasks: seq<TaskSpec>, rows: Rows, accepts: DurationModel -> bool, ids: seq<Id>, k: nat,
                   members: seq<TaskSpec>)
    requires UniqueIds(tasks) && Fuses(tasks, rows, accepts, ids, k, members)
    ensures k == FirstPresent(tasks, ids) && AllPresent(tasks, ids[k..]) && members == MembersOf(tasks, ids[k..])
  {
    var first := FirstPresent(tasks, ids);
    IdIn(tasks, members[0]);
    assert ids[k] == members[0].id;
    forall i | 0 <= i < |ids| - k ensures ids[k..][i] in Ids(tasks) {
      IdIn(tasks, members[i]);
    }
    MembersFound(tasks, ids[k..], members);
  }

  lemma MembersFound(tasks: seq<TaskSpec>, ids: seq<Id>, members: seq<TaskSpec>)
    requires UniqueIds(tasks) && AllPresent(tasks, ids) && |members| == |ids|
    requires forall i :: 0 <= i < |members| ==> members[i] in tasks && members[i].id == ids[i]
    ensures members == MembersOf(tasks, ids)
  {
    var found := MembersOf(tasks, ids);
    forall i | 0 <= i < |ids| ensures members[i] == found[i] {
      UniqueIdsSame(tasks, members[i], found[i]);
    }
  }

  lemma {:induction false} OneDecided(tasks: seq<TaskSpec>, rows: Rows, accepts: DurationModel -> bool, u: UnitRef,
                                      compiled: map<Id, CompiledSegment>, home: Homes)
    requires UniqueIds(tasks) && UnitOutcome(tasks, rows, accepts, u, compiled, home)
    ensures Decided(tasks, rows, accepts, u, compiled, home)
  {
    forall k: nat, members ensures Fuses(tasks, rows, accepts, u.ids, k, members) <==>
        Compiles(tasks, rows, accepts, u.ids) && k == FirstPresent(tasks, u.ids)
        && members == MembersOf(tasks, u.ids[k..])
    {
      FusesExactly(tasks, rows, accepts, u.ids, k, members);
    }
    if Compiles(tasks, rows, accepts, u.ids) {
      var k := FirstPresent(tasks, u.ids);
      assert Fuses(tasks, rows, accepts, u.ids, k, MembersOf(tasks, u.ids[k..]));
    }
  }

  lemma {:induction false} OneReplaced(tasks: seq<TaskSpec>, rows: Rows, accepts: DurationModel -> bool,
                                       containers: seq<Container>, u: UnitRef, compiled: map<Id, CompiledSegment>,
                                       home: Homes, c: Id)
    requires UniqueIds(tasks) && forall i :: 0 <= i < |containers| ==> ValidContainer(containers[i])
    requires u in ActiveUnits(containers) && UnitOutcome(tasks, rows, accepts, u, compiled, home)
    requires c in compiled && SegmentIs(tasks, u, compiled[c]) && SegmentOf(tasks, home, c, compiled[c])
    ensures Replaced(tasks, rows, accepts, containers, c, compiled[c])
  {
    var n := FirstPresent(tasks, u.ids);
    var members := compiled[c].members;
    UnitsAreSegments(containers, u);
    assert members[0].id == u.ids[n] && u.ids[n] in home;
    FusesExactly(tasks, rows, accepts, u.ids, n, members);
  }

  lemma {:induction false} AllDecided(tasks: seq<TaskSpec>, rows: Rows, accepts: DurationModel -> bool,
                                      containers: seq<Container>, out: seq<TaskSpec>,
                                      compiled: map<Id, CompiledSegment>, home: Homes, current: seq<TaskSpec>)
    requires UniqueIds(tasks) && forall i :: 0 <= i < |containers| ==> ValidContainer(containers[i])
    requires Compiled(tasks, rows, accepts, ActiveUnits(containers), out, compiled, home, current)
    ensures SegmentsDecided(tasks, rows, accepts, containers, compiled, home)
  {
    var units := ActiveUnits(containers);
    forall i, k: nat, u | 0 <= i < |containers| && SegmentAt(containers[i], k, u)
      ensures Decided(tasks, rows, accepts, u, compiled, home)
    {
      UnitsAreSegments(containers, u);
      var at :| 0 <= at < |units| && units[at] == u;
      OneDecided(tasks, rows, accepts, u, compiled, home);
    }
  }

  lemma {:induction false} AllReplaced(tasks: seq<TaskSpec>, rows: Rows, accepts: DurationModel -> bool,
                                       containers: seq<Container>, out: seq<TaskSpec>,
                                       compiled: map<Id, CompiledSegment>, home: Homes, current: seq<TaskSpec>)
    requires UniqueIds(tasks) && forall i :: 0 <= i < |containers| ==> ValidContainer(containers[i])
    requires Compiled(tasks, rows, accepts, ActiveUnits(containers), out, compiled, home, current)
    ensures OnlySegments(tasks, rows, accepts, containers, compiled)
  {
    forall c | c in compiled ensures Replaced(tasks, rows, accepts, containers, c, compiled[c]) {
      assert SegmentOf(tasks, home, c, compiled[c]);
      ReplacedAt(tasks, rows, accepts, containers, compiled, home, c);
    }
  }

  lemma {:induction false} ReplacedAt(tasks: seq<TaskSpec>, rows: Rows, accepts: DurationModel -> bool,
                                      containers: seq<Container>, compiled: map<Id, CompiledSegment>, home: Homes,
                                      c: Id)
    requires UniqueIds(tasks) && forall i :: 0 <= i < |containers| ==> ValidContainer(containers[i])
    requires AllFromUnits(tasks, ActiveUnits(containers), compiled)
    requires forall i :: 0 <= i < |ActiveUnits(containers)| ==>
               UnitOutcome(tasks, rows, accepts, ActiveUnits(containers)[i], compiled, home)
    requires c in compiled && SegmentOf(tasks, home, c, compiled[c])
    ensures Replaced(tasks, rows, accepts, containers, c, compiled[c])
  {
    var u :| u in ActiveUnits(containers) && SegmentIs(tasks, u, compiled[c]);
    var at :| 0 <= at < |ActiveUnits(containers)| && ActiveUnits(containers)[at] == u;
    assert UnitOutcome(tasks, rows, accepts, ActiveUnits(containers)[at], compiled, home);
    OneReplaced(tasks, rows, accepts, containers, u, compiled, home, c);
  }

  // ----- the listed order -----

  /** Whoever is left stands in the listed order; a carrier stands where its first child stood. */
  ghost predicate KeepsListing(tasks: seq<TaskSpec>, out: seq<TaskSpec>)
  {
    forall i, j :: 0 <= i < j < |out| ==> ListedBefore(tasks, out[i].id, out[j].id)
  }

  ghost predicate ListedBefore(tasks: seq<TaskSpec>, x: Id, y: Id)
  {
    forall a, b :: 0 <= a < |tasks| && 0 <= b < |tasks| && tasks[a].id == x && tasks[b].id == y ==> a < b
  }

  lemma SameListing(tasks: seq<TaskSpec>, from: seq<TaskSpec>, to: seq<TaskSpec>)
    requires |to| == |from| && forall i :: 0 <= i < |to| ==> to[i].id == from[i].id
    ensures KeepsListing(tasks, from) ==> KeepsListing(tasks, to)
  {
  }

  lemma ListingStays(tasks: seq<TaskSpec>, current: seq<TaskSpec>, ids: seq<Id>, carrier: TaskSpec)
    requires |ids| >= 1
    ensures KeepsListing(tasks, current) ==> KeepsListing(tasks, ReplaceUnit(current, ids, carrier))
  {
    var kept := Filter((t: TaskSpec) => t.id !in ids[1..], current);
    if KeepsListing(tasks, current) {
      FilterKeepsListing(tasks, (t: TaskSpec) => t.id !in ids[1..], current);
      SameListing(tasks, kept, ReplaceUnit(current, ids, carrier));
    }
  }

  lemma {:induction false} FilterKeepsListing(tasks: seq<TaskSpec>, p: TaskSpec -> bool, s: seq<TaskSpec>)
    requires KeepsListing(tasks, s)
    ensures KeepsListing(tasks, Filter(p, s))
  {
    if s != [] {
      var rest := s[1..];
      assert forall i :: 0 <= i < |rest| ==> rest[i] == s[i + 1];
      FilterKeepsListing(tasks, p, rest);
      var kept, all := Filter(p, rest), Filter(p, s);
      forall i, j | 0 <= i < j < |all| ensures ListedBefore(tasks, all[i].id, all[j].id) {
        if p(s[0]) && i == 0 {
          assert all[j] == kept[j - 1] && kept[j - 1] in rest;
          var k :| 0 <= k < |rest| && rest[k] == all[j];
          assert s[k + 1] == all[j];
        } else if p(s[0]) {
          assert all[i] == kept[i - 1] && all[j] == kept[j - 1];
        }
      }
    }
  }

  /** The first `i` units are decided and the rest untouched. */
  ghost predicate UnitsDone(tasks: seq<TaskSpec>, rows: Rows,
                            accepts: DurationModel -> bool, units: seq<UnitRef>, i: nat,
                            compiled: map<Id, CompiledSegment>, home: Homes)
    requires i <= |units|
  {
    && (forall u :: i <= u < |units| ==> Elements(units[u].ids) !! home.Keys)
    && (forall u :: 0 <= u < i ==> UnitOutcome(tasks, rows, accepts, units[u], compiled, home))
    && AllFromUnits(tasks, units, compiled)
  }

  lemma OneMoreUnit(tasks: seq<TaskSpec>, rows: Rows, accepts: DurationModel -> bool, units: seq<UnitRef>, i: nat,
                    compiled: map<Id, CompiledSegment>, home: Homes, compiled': map<Id, CompiledSegment>, home': Homes)
    requires DistinctUnits(units) && i < |units| && UnitsDone(tasks, rows, accepts, units, i, compiled, home)
    requires Extends(compiled, home, compiled', home', units[i].ids)
    requires UnitOutcome(tasks, rows, accepts, units[i], compiled', home')
    requires forall c :: c in compiled' && c !in compiled ==> SegmentIs(tasks, units[i], compiled'[c])
    ensures UnitsDone(tasks, rows, accepts, units, i + 1, compiled', home')
  {
    forall u | 0 <= u < i ensures UnitOutcome(tasks, rows, accepts, units[u], compiled', home') {
      OutcomeStays(tasks, rows, accepts, units[u], compiled, home, compiled', home', units[i].ids);
    }
    AllStillFromUnits(tasks, units, i, compiled, compiled');
    forall u | i < u < |units| ensures Elements(units[u].ids) !! home'.Keys {
      StillUntouched(units[u].ids, units[i].ids, compiled, home, compiled', home');
    }
  }

  lemma AllStillFromUnits(tasks: seq<TaskSpec>, units: seq<UnitRef>, i: nat,
                          compiled: map<Id, CompiledSegment>, compiled': map<Id, CompiledSegment>)
    requires i < |units| && AllFromUnits(tasks, units, compiled)
    requires forall c :: c in compiled ==> c in compiled' && compiled'[c] == compiled[c]
    requires forall c :: c in compiled' && c !in compiled ==> SegmentIs(tasks, units[i], compiled'[c])
    ensures AllFromUnits(tasks, units, compiled')
  {
    assert units[i] in units;
    forall c | c in compiled' ensures exists unit :: unit in units && SegmentIs(tasks, unit, compiled'[c]) {
      if c in compiled {
        var unit :| unit in units && SegmentIs(tasks, unit, compiled[c]);
      }
    }
  }

  lemma OutcomeStays(tasks: seq<TaskSpec>, rows: Rows, accepts: DurationModel -> bool, unit: UnitRef,
                     compiled: map<Id, CompiledSegment>, home: Homes,
                     compiled': map<Id, CompiledSegment>, home': Homes, ids: seq<Id>)
    requires UnitOutcome(tasks, rows, accepts, unit, compiled, home)
    requires Extends(compiled, home, compiled', home', ids)
    requires Elements(unit.ids) !! Elements(ids)
    ensures UnitOutcome(tasks, rows, accepts, unit, compiled', home')
  {
    if !Compiles(tasks, rows, accepts, unit.ids) {
      assert forall i :: 0 <= i < |unit.ids| ==> unit.ids[i] !in home;
      StillUntouched(unit.ids, ids, compiled, home, compiled', home');
      forall i | 0 <= i < |unit.ids| ensures unit.ids[i] !in home' {
        assert unit.ids[i] in Elements(unit.ids);
      }
    }
  }

  lemma StillUntouched(mine: seq<Id>, theirs: seq<Id>, compiled: map<Id, CompiledSegment>, home: Homes,
                       compiled': map<Id, CompiledSegment>, home': Homes)
    requires Extends(compiled, home, compiled', home', theirs)
    requires Elements(mine) !! home.Keys && Elements(mine) !! Elements(theirs)
    ensures Elements(mine) !! home'.Keys
  {
    forall m | m in home' ensures m !in Elements(mine) {
      assert m in home.Keys || m in Elements(theirs);
    }
  }

  // ----- no edge is lost, invented or left dangling -----

  lemma StandInIsSettled(tasks: seq<TaskSpec>, rows: Rows, current: seq<TaskSpec>, compiled: map<Id, CompiledSegment>,
                         home: Homes, id: Id)
    requires Replacing(tasks, rows, current, compiled, home)
    ensures StandsFor(home, StandsFor(home, id)) == StandsFor(home, id)
    ensures id in Ids(tasks) ==> StandsFor(home, id) in Ids(current)
  {
    CarriersAreHome(tasks, rows, current, compiled, home);
    if id in home {
      assert home[id] in compiled;
    } else if id in Ids(tasks) {
      UntouchedStays(tasks, rows, current, compiled, home, id);
    }
  }

  ghost predicate EdgeIn(tasks: seq<TaskSpec>, id: Id, d: Id)
  {
    exists i :: 0 <= i < |tasks| && tasks[i].id == id && d in tasks[i].dependsOn
  }

  /** Every original edge becomes an edge between the stand-ins, or falls inside one unit. */
  lemma EdgeKept(tasks: seq<TaskSpec>, rows: Rows, accepts: DurationModel -> bool, units: seq<UnitRef>,
                 out: seq<TaskSpec>, compiled: map<Id, CompiledSegment>, home: Homes, current: seq<TaskSpec>,
                 u: TaskSpec, d: Id)
    requires UniqueIds(tasks) && Compiled(tasks, rows, accepts, units, out, compiled, home, current)
    requires u in tasks && d in u.dependsOn
    ensures StandsFor(home, d) == StandsFor(home, u.id) || EdgeIn(out, StandsFor(home, u.id), StandsFor(home, d))
  {
    if StandsFor(home, d) != StandsFor(home, u.id) {
      var t := OldSelf(tasks, rows, current, compiled, home, u, d);
      var i :| 0 <= i < |current| && current[i] == t;
      RenamedEdge(home, current[i], out[i], d);
    }
  }

  lemma RenamedEdge(home: Homes, t: TaskSpec, r: TaskSpec, d: Id)
    requires RenamedBy(home, t, r) && d in t.dependsOn && StandsFor(home, d) != t.id
    ensures r.id == t.id && StandsFor(home, d) in r.dependsOn
  {
    assert StandsFor(home, d) in Needs(home, t);
    assert StandsFor(home, d) in Elements(r.dependsOn);
  }

  /** The Task in the working request that inherits the edge from `u` to `d`. */
  lemma OldSelf(tasks: seq<TaskSpec>, rows: Rows, current: seq<TaskSpec>, compiled: map<Id, CompiledSegment>,
                home: Homes, u: TaskSpec, d: Id) returns (t: TaskSpec)
    requires UniqueIds(tasks) && Replacing(tasks, rows, current, compiled, home)
    requires u in tasks && d in u.dependsOn && StandsFor(home, d) != StandsFor(home, u.id)
    ensures t in current && t.id == StandsFor(home, u.id) && d in t.dependsOn
  {
    if u.id in home {
      var c := home[u.id];
      var members := compiled[c].members;
      assert SegmentOf(tasks, home, c, compiled[c]);
      t := TaskWithId(current, c);
      MemberItself(tasks, home, c, compiled[c], u);
      forall k | 0 <= k < |members| ensures members[k].id != d {
        assert home[members[k].id] == c;
      }
      CarrierInherits(rows, members, t, u, d);
    } else {
      t := u;
    }
  }

  lemma MemberItself(tasks: seq<TaskSpec>, home: Homes, c: Id, segment: CompiledSegment, u: TaskSpec)
    requires UniqueIds(tasks) && SegmentOf(tasks, home, c, segment) && u in tasks && u.id in Ids(segment.members)
    ensures u in segment.members
  {
    var i :| 0 <= i < |segment.members| && segment.members[i].id == u.id;
    UniqueIdsSame(tasks, segment.members[i], u);
  }

  lemma CarrierInherits(rows: Rows, members: seq<TaskSpec>, t: TaskSpec, u: TaskSpec, d: Id)
    requires Unit(rows, members, t) && u in members && d in u.dependsOn
    requires forall k :: 0 <= k < |members| ==> members[k].id != d
    ensures d in t.dependsOn
  {
    var i :| 0 <= i < |members| && members[i] == u;
    assert d in ExternalNeeds(members, Ids(members));
    assert d in Elements(t.dependsOn);
  }

  lemma CarrierEdgeSource(rows: Rows, members: seq<TaskSpec>, t: TaskSpec, d: Id) returns (u: TaskSpec)
    requires Unit(rows, members, t) && d in t.dependsOn
    ensures u in members && d in u.dependsOn && d !in Ids(members)
  {
    assert d in Elements(t.dependsOn);
    var k :| 0 <= k < |members| && d in members[k].dependsOn;
    u := members[k];
  }

  /** No edge of the result names a fused child, and every edge stands for an original one. */
  lemma EdgeSound(tasks: seq<TaskSpec>, rows: Rows, accepts: DurationModel -> bool, units: seq<UnitRef>,
                  out: seq<TaskSpec>, compiled: map<Id, CompiledSegment>, home: Homes, current: seq<TaskSpec>,
                  i: nat, e: Id) returns (u: TaskSpec, d: Id)
    requires Compiled(tasks, rows, accepts, units, out, compiled, home, current)
    requires i < |out| && e in out[i].dependsOn
    ensures StandsFor(home, e) == e && e != out[i].id
    ensures u in tasks && d in u.dependsOn && StandsFor(home, u.id) == out[i].id && StandsFor(home, d) == e
  {
    assert RenamedBy(home, current[i], out[i]);
    var t := current[i];
    assert e in Elements(out[i].dependsOn);
    d :| d in t.dependsOn && StandsFor(home, d) == e;
    StandInIsSettled(tasks, rows, current, compiled, home, d);
    if t.id in compiled {
      var members := compiled[t.id].members;
      assert SegmentOf(tasks, home, t.id, compiled[t.id]);
      u := CarrierEdgeSource(rows, members, t, d);
    } else {
      u := t;
    }
  }
}
