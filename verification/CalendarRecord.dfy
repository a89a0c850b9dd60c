/** The writers of the applied record besides approval: reconciliation with repair, and capture. */
module CalendarRecord {
  import opened Basics
  import opened Sorting
  import opened Projection
  import opened CalendarClient
  import opened CalendarApply
  import opened CalendarReconcile

  // ----- reconciliation and its one repair -----

  /** What a reconciliation stores: both parts of the record, the observation and the verdict. */
  datatype Reconciliation = Reconciliation(
    repaired: bool, applied: seq<DesiredEvent>, outOfRange: seq<DesiredEvent>,
    observed: seq<DesiredEvent>, conflicts: seq<Conflict>)

  class ReconciliationStore {
    var records: map<Id, Reconciliation>

    constructor ()
      ensures records == map[]
    {
      records := map[];
    }
  }

  predicate IdLeq(a: DesiredEvent, b: DesiredEvent) { a.id <= b.id }

  /** Observed events get the Task they belong to back from the record. */
  ghost function Normalized(applied: seq<DesiredEvent>, e: DesiredEvent): (r: DesiredEvent)
    ensures r.id == e.id
  {
    var owner := FirstWithId(applied, e.id);
    if owner.Some? then e.(task := owner.value.task) else e
  }

  function FirstWithId(events: seq<DesiredEvent>, id: Id): (r: Option<DesiredEvent>)
    ensures r.Some? ==> r.value in events && r.value.id == id
    ensures r.None? ==> forall e :: e in events ==> e.id != id
  {
    if events == [] then None else if events[0].id == id then Some(events[0]) else FirstWithId(events[1..], id)
  }

  /** Of several events with one handle it is the first. */
  lemma {:induction false} FirstIsFirst(events: seq<DesiredEvent>, i: nat)
    requires i < |events| && forall j :: 0 <= j < i ==> events[j].id != events[i].id
    ensures FirstWithId(events, events[i].id) == Some(events[i])
  {
    if i > 0 {
      assert events[0].id != events[i].id;
      assert forall j :: 0 <= j < i ==> events[1..][j] == events[j + 1];
      FirstIsFirst(events[1..], i - 1);
    }
  }

  method NormalizeObserved(observed: seq<DesiredEvent>, applied: seq<DesiredEvent>) returns (r: seq<DesiredEvent>)
    ensures r == Map((e: DesiredEvent) => Normalized(applied, e), observed)
  {
    r := observed;
    var i := 0;
    while i < |r|
      invariant 0 <= i <= |r| == |observed|
      invariant forall k :: 0 <= k < i ==> r[k] == Normalized(applied, observed[k])
      invariant forall k :: i <= k < |r| ==> r[k] == observed[k]
    {
      var owner := FirstWithId(applied, r[i].id);
      if owner.Some? {
        r := r[i := r[i].(task := owner.value.task)];
      }
      i := i + 1;
    }
  }

  /** Compare the part of the record that meets the range with what the calendar lists there. */
  method Reconcile(store: ResultStore, recs: ReconciliationStore, client: RecordingCalendar, range: Range,
                   known: set<Id>, unownable: set<Id>, key: Id)
    returns (conflicts: seq<Conflict>, ghost rec: Reconciliation, ghost ev: Evidence)
    requires key !in recs.records
    modifies recs, client
    ensures client.events == old(client.events)
    ensures recs.records == old(recs.records)[key := rec] && rec.conflicts == conflicts
    ensures OwnReconciliation(LastApplied(store.results), range, old(client.events), ev, rec)
    ensures forall e :: e in rec.applied <==>
              e in LastApplied(store.results) && e.startAt < range.end && e.endAt > range.start
    ensures forall e :: e in rec.outOfRange <==>
              e in LastApplied(store.results) && (e.startAt >= range.end || e.endAt <= range.start)
    ensures ev.known == known && ev.unownable == unownable
  {
    var record := LastApplied(store.results);
    var within := (e: DesiredEvent) => e.startAt < range.end && e.endAt > range.start;
    var beyond := (e: DesiredEvent) => e.startAt >= range.end || e.endAt <= range.start;
    var applied, outOfRange := Filter(within, record), Filter(beyond, record);
    FilterAgree(within, (e: DesiredEvent) => range.Meets(e), record);
    FilterAgree(beyond, (e: DesiredEvent) => !range.Meets(e), record);
    var listed := client.ListEvents(range);
    var observed := NormalizeObserved(listed, applied);
    var created := client.TakeMinted();
    var evidence := Evidence(known, created, unownable);
    conflicts := Classify(applied, observed, evidence);
    var stored := Reconciliation(false, applied, outOfRange, observed, conflicts);
    recs.records := recs.records[key := stored];
    rec, ev := stored, evidence;
  }

  /** A reconciliation of this record against this calendar. */
  ghost predicate OwnReconciliation(record: seq<DesiredEvent>, range: Range, calendar: Events, ev: Evidence,
                                    rec: Reconciliation)
  {
    && !rec.repaired
    && rec.applied == Filter((e: DesiredEvent) => range.Meets(e), record)
    && rec.outOfRange == Filter((e: DesiredEvent) => !range.Meets(e), record)
    && rec.observed == Map((e: DesiredEvent) => Normalized(rec.applied, e), Meeting(range, Values(calendar)))
    && IsClassification(ById(rec.applied), ById(rec.observed), ev, rec.conflicts)
  }

  /** What a repair writes. */
  ghost function RepairedRecord(rec: Reconciliation): seq<DesiredEvent>
  {
    Sort(IdLeq, Repair(rec.applied, rec.observed) + rec.outOfRange)
  }

  datatype RepairError = NotFound | AlreadyRepaired

  datatype RepairReceipt = RepairReceipt(dropped: nat, remaining: seq<Conflict>)

  /** Rewrite the belief from the stored observation, once. */
  method RepairRecord(store: ResultStore, recs: ReconciliationStore, key: Id)
    returns (r: Result<RepairReceipt, RepairError>)
    modifies store, recs
    ensures r.Err? <==> key !in old(recs.records) || old(recs.records)[key].repaired
    ensures r.Err? ==> store.results == old(store.results) && recs.records == old(recs.records)
    ensures r.Err? ==> (r.error.NotFound? <==> key !in old(recs.records))
    ensures r.Ok? ==>
              var rec := old(recs.records)[key];
              && store.results == old(store.results) + [Snapshot(Applied, RepairedRecord(rec))]
              && recs.records == old(recs.records)[key := rec.(repaired := true)]
              && r.value.remaining == Filter(Remains, rec.conflicts)
              && r.value.dropped == |rec.applied| - |Repair(rec.applied, rec.observed)|
  {
    if key !in recs.records { return Err(NotFound); }
    var rec := recs.records[key];
    if rec.repaired { return Err(AlreadyRepaired); }
    var repaired := Repair(rec.applied, rec.observed);
    RepairNeverGrows(rec.applied, rec.observed);
    var left := (c: Conflict) => c.kind == Foreign || c.kind == Unrecorded;
    FilterAgree(left, Remains, rec.conflicts);
    var receipt := RepairReceipt(|rec.applied| - |repaired|, Filter(left, rec.conflicts));
    store.results := store.results + [Snapshot(Applied, Sort(IdLeq, repaired + rec.outOfRange))];
    recs.records := recs.records[key := rec.(repaired := true)];
    return Ok(receipt);
  }

  // ----- lists without repeated handles -----

  ghost predicate UniqueById(events: seq<DesiredEvent>)
  {
    forall i, j :: 0 <= i < j < |events| ==> events[i].id != events[j].id
  }

  /** The list holds exactly the events of the map. */
  ghost predicate Lists(events: seq<DesiredEvent>, m: Events)
  {
    UniqueById(events) && Keyed(m) && forall e :: e in events <==> e.id in m && m[e.id] == e
  }

  lemma ListsById(events: seq<DesiredEvent>)
    requires UniqueById(events)
    ensures Lists(events, ById(events))
  {
    var m := ById(events);
    forall e | e in events ensures e.id in m && m[e.id] == e {
      UniqueSame(events, e, m[e.id]);
    }
  }

  lemma UniqueSame(events: seq<DesiredEvent>, a: DesiredEvent, b: DesiredEvent)
    requires UniqueById(events) && a in events && b in events && a.id == b.id
    ensures a == b
  {
    var i :| 0 <= i < |events| && events[i] == a;
    var j :| 0 <= j < |events| && events[j] == b;
    assert !(i < j) && !(j < i);
  }

  lemma ListsIsById(events: seq<DesiredEvent>, m: Events)
    requires Lists(events, m)
    ensures ById(events) == m
  {
    SameEvents(m, events, ById(events));
  }

  lemma StrictIsUnique(events: seq<DesiredEvent>)
    requires StrictlyById(events)
    ensures UniqueById(events)
  {
  }

  /** Sorting a list without repeated handles gives the listing of its map. */
  lemma SortLists(events: seq<DesiredEvent>, m: Events)
    requires Lists(events, m)
    ensures StrictlyById(Sort(IdLeq, events)) && Lists(Sort(IdLeq, events), m)
    ensures ById(Sort(IdLeq, events)) == m
  {
    var sorted := Sort(IdLeq, events);
    SortSorted(IdLeq, events);
    MultisetMembers(sorted, events);
    assert NoDuplicates(events);
    DistinctCounts(events);
    DistinctCounts(sorted);
    forall i, j | 0 <= i < j < |sorted| ensures sorted[i].id < sorted[j].id {
      var a, b := sorted[i], sorted[j];
      assert a in events && b in events && a != b && IdLeq(a, b);
      if a.id == b.id { UniqueSame(events, a, b); }
    }
    ListsIsById(sorted, m);
  }

  lemma {:induction false} FilterStrict(p: DesiredEvent -> bool, events: seq<DesiredEvent>)
    requires StrictlyById(events)
    ensures StrictlyById(Filter(p, events))
  {
    if events != [] {
      var rest := events[1..];
      FilterStrict(p, rest);
      var kept := Filter(p, rest);
      forall k | 0 <= k < |kept| ensures events[0].id < kept[k].id {
        assert kept[k] in kept && kept[k] in rest;
        var m :| 0 <= m < |rest| && rest[m] == kept[k];
        assert events[m + 1] == rest[m];
      }
    }
  }

  // ----- what a repair means for the record -----

  /** Both parts are sorted and share no handle. */
  ghost predicate Parted(rec: Reconciliation)
  {
    && StrictlyById(rec.applied) && StrictlyById(rec.outOfRange)
    && ById(rec.applied).Keys !! ById(rec.outOfRange).Keys
  }

  lemma OwnIsParted(record: seq<DesiredEvent>, range: Range, calendar: Events, ev: Evidence, rec: Reconciliation)
    requires StrictlyById(record) && OwnReconciliation(record, range, calendar, ev, rec)
    ensures Parted(rec)
  {
    PartsApart(record, range, rec);
  }

  lemma PartsApart(record: seq<DesiredEvent>, range: Range, rec: Reconciliation)
    requires StrictlyById(record) && rec.applied == Filter((e: DesiredEvent) => range.Meets(e), record)
    requires rec.outOfRange == Filter((e: DesiredEvent) => !range.Meets(e), record)
    ensures Parted(rec)
  {
    FilterStrict((e: DesiredEvent) => range.Meets(e), record);
    FilterStrict((e: DesiredEvent) => !range.Meets(e), record);
    forall id | id in ById(rec.applied) ensures id !in ById(rec.outOfRange) {
      var a := ById(rec.applied)[id];
      forall k | 0 <= k < |rec.outOfRange| ensures rec.outOfRange[k].id != id {
        var b := rec.outOfRange[k];
        assert b in rec.outOfRange && a in rec.applied;
        if b.id == id { StrictSame(record, a, b); }
      }
      NotListed(rec.outOfRange, id);
    }
  }

  /** A repaired record is sorted: owned events still observed as they are observed, the rest as it was. */
  lemma RepairedIs(rec: Reconciliation)
    requires Parted(rec)
    ensures StrictlyById(RepairedRecord(rec))
    ensures ById(RepairedRecord(rec)) == ById(rec.outOfRange) + RepairOf(ById(rec.applied), ById(rec.observed))
  {
    var kept := Repair(rec.applied, rec.observed);
    RepairIsRestriction(rec.applied, rec.observed);
    var m := ById(rec.outOfRange) + ById(kept);
    StrictIsUnique(kept);
    StrictIsUnique(rec.outOfRange);
    ListsById(kept);
    ListsById(rec.outOfRange);
    JoinedLists(kept, rec.outOfRange, ById(kept), ById(rec.outOfRange));
    SortLists(kept + rec.outOfRange, m);
  }

  lemma JoinedLists(a: seq<DesiredEvent>, b: seq<DesiredEvent>, m: Events, n: Events)
    requires Lists(a, m) && Lists(b, n)
    requires m.Keys !! n.Keys
    ensures Lists(a + b, n + m)
  {
    var all := a + b;
    forall i, j | 0 <= i < j < |all| ensures all[i].id != all[j].id {
      if i < |a| <= j { assert all[i] in a && all[j] in b; }
    }
    forall e ensures e in all <==> e.id in n + m && (n + m)[e.id] == e {
    }
  }

  /** The same reconciliation made of another record: its parts replace the stored ones. */
  ghost function Refreshed(rec: Reconciliation, record: seq<DesiredEvent>, range: Range): Reconciliation
  {
    rec.(applied := Filter((e: DesiredEvent) => range.Meets(e), record),
         outOfRange := Filter((e: DesiredEvent) => !range.Meets(e), record))
  }

  /** The events out of range, and which observed events are owned, are still those of the reconciliation. */
  ghost predicate StillReconciled(rec: Reconciliation, now: Reconciliation)
  {
    && ById(rec.outOfRange) == ById(now.outOfRange)
    && forall id :: id in ById(rec.observed) ==> (id in ById(rec.applied) <==> id in ById(now.applied))
  }

  /** A repair writes what repairing the present record would, exactly when the reconciliation still describes it. */
  lemma LateRepairExactly(rec: Reconciliation, record: seq<DesiredEvent>, range: Range)
    requires Parted(rec) && StrictlyById(record)
    requires (forall e :: e in rec.observed ==> range.Meets(e)) && forall e :: e in rec.outOfRange ==> !range.Meets(e)
    ensures RepairedRecord(rec) == RepairedRecord(Refreshed(rec, record, range)) <==>
        StillReconciled(rec, Refreshed(rec, record, range))
  {
    var now := Refreshed(rec, record, range);
    PartsApart(record, range, now);
    RepairedIs(rec);
    RepairedIs(now);
    var seen, owned, owned' := ById(rec.observed), ById(rec.applied), ById(now.applied);
    if ById(RepairedRecord(rec)) == ById(RepairedRecord(now)) {
      SameListing(RepairedRecord(rec), RepairedRecord(now));
    }
    SameRepair(owned, owned', seen);
    SplitEqual(range, ById(rec.outOfRange), RepairOf(owned, seen), ById(now.outOfRange), RepairOf(owned', seen));
  }

  lemma SameRepair(a: Events, b: Events, observed: Events)
    ensures RepairOf(a, observed) == RepairOf(b, observed) <==> forall id :: id in observed ==> (id in a <==> id in b)
  {
    var x, y := RepairOf(a, observed), RepairOf(b, observed);
    if x == y {
      forall id | id in observed ensures id in a <==> id in b {
        assert (id in x <==> id in a) && (id in y <==> id in b);
      }
    }
    if forall id :: id in observed ==> (id in a <==> id in b) {
      assert x.Keys == y.Keys;
    }
  }

  lemma SplitEqual(range: Range, o: Events, r: Events, o': Events, r': Events)
    requires (forall id :: id in o ==> !range.Meets(o[id])) && forall id :: id in o' ==> !range.Meets(o'[id])
    requires (forall id :: id in r ==> range.Meets(r[id])) && forall id :: id in r' ==> range.Meets(r'[id])
    requires o.Keys !! r.Keys && o'.Keys !! r'.Keys
    ensures o + r == o' + r' <==> o == o' && r == r'
  {
    if o + r == o' + r' {
      var m := o + r;
      forall id ensures (id in o <==> id in o') && (id in r <==> id in r') {
        assert id in o || id in r ==> id in m;
        assert id in o' || id in r' ==> id in m;
      }
      forall id | id in o ensures o[id] == o'[id] { assert m[id] == o[id]; }
      forall id | id in r ensures r[id] == r'[id] { assert m[id] == r[id]; }
    }
  }

  // ----- capture -----

  /** Accepting an observed event as what is applied. */
  ghost function Accept(m: Events, observed: seq<DesiredEvent>, id: Id): (r: Events)
    ensures r.Keys == m.Keys
    ensures Keyed(m) ==> Keyed(r)
  {
    var seen := FirstWithId(observed, id);
    if id in m && seen.Some? then m[id := seen.value] else m
  }

  ghost function AcceptAll(m: Events, observed: seq<DesiredEvent>, accepted: seq<Id>): (r: Events)
    ensures r.Keys == m.Keys
    ensures Keyed(m) ==> Keyed(r)
  {
    if accepted == [] then m
    else Accept(AcceptAll(m, observed, accepted[..|accepted| - 1]), observed, accepted[|accepted| - 1])
  }

  /** After a gesture was admitted, the record shows the event as observed. */
  method AcceptObservation(applied: array<DesiredEvent>, ghost m: Events, observed: seq<DesiredEvent>, id: Id)
    requires Lists(applied[..], m)
    modifies applied
    ensures Lists(applied[..], Accept(m, observed, id))
  {
    ghost var before := applied[..];
    var seen := FirstWithId(observed, id);
    var i := 0;
    while i < applied.Length && applied[i].id != id
      invariant 0 <= i <= applied.Length
      invariant forall k :: 0 <= k < i ==> before[k].id != id
      invariant applied[..] == before
    {
      i := i + 1;
    }
    if i < applied.Length {
      assert before[i] in before && before[i].id == id;
      if seen.Some? {
        ReplacedLists(before, i, seen.value, m);
        applied[i] := seen.value;
        assert applied[..] == before[i := seen.value];
      }
    } else {
      NotInMap(before, m, id);
    }
  }

  lemma NotInMap(events: seq<DesiredEvent>, m: Events, id: Id)
    requires Lists(events, m) && forall k :: 0 <= k < |events| ==> events[k].id != id
    ensures id !in m
  {
    forall x | x in m ensures x != id {
      var e := m[x];
      assert e in events;
      var k :| 0 <= k < |events| && events[k] == e;
    }
  }

  lemma NotListed(events: seq<DesiredEvent>, id: Id)
    requires forall k :: 0 <= k < |events| ==> events[k].id != id
    ensures id !in ById(events)
  {
    var m := ById(events);
    forall x | x in m ensures x != id {
      var e := m[x];
      var k :| 0 <= k < |events| && events[k] == e;
    }
  }

  lemma ReplacedLists(events: seq<DesiredEvent>, i: nat, e: DesiredEvent, m: Events)
    requires i < |events| && events[i].id == e.id && Lists(events, m)
    ensures Lists(events[i := e], m[e.id := e]) && e.id in m
  {
    var after := events[i := e];
    assert events[i] in events;
    assert after[i] == e;
    forall x | x in after ensures x.id in m[e.id := e] && m[e.id := e][x.id] == x {
      var k :| 0 <= k < |after| && after[k] == x;
      if k != i { assert events[k] in events && events[k].id != events[i].id; }
    }
    forall x: DesiredEvent | x.id in m && m[x.id] == x && x.id != e.id ensures x in after {
      var k :| 0 <= k < |events| && events[k] == x;
      assert after[k] == x;
    }
  }

  /** Captured events enter the record one by one, replacing an older entry for the same event. */
  method RecordOrigins(applied: seq<DesiredEvent>, ghost m: Events, origins: seq<DesiredEvent>)
    returns (r: seq<DesiredEvent>)
    requires Lists(applied, m)
    ensures StrictlyById(r) && ById(r) == m + ById(origins)
  {
    r := applied;
    ghost var now, got: Events := m, map[];
    var i := 0;
    assert origins[..0] == [];
    while i < |origins|
      invariant 0 <= i <= |origins|
      invariant Lists(r, now) && now == m + got && got == ById(origins[..i])
    {
      var origin := origins[i];
      RetainPush(r, origin, now);
      TakeOne(origins, i);
      PutMore(m, got, origin);
      r := Filter((e: DesiredEvent) => e.id != origin.id, r) + [origin];
      now, got := now[origin.id := origin], got[origin.id := origin];
      i := i + 1;
    }
    assert origins[..i] == origins;
    SortLists(r, now);
    r := Sort(IdLeq, r);
  }

  lemma TakeOne(origins: seq<DesiredEvent>, i: nat)
    requires i < |origins|
    ensures ById(origins[..i + 1]) == ById(origins[..i])[origins[i].id := origins[i]]
  {
    ByIdSnoc(origins[..i], origins[i]);
    assert origins[..i + 1] == origins[..i] + [origins[i]];
  }

  lemma PutMore(m: Events, n: Events, e: DesiredEvent)
    ensures m + n[e.id := e] == (m + n)[e.id := e]
  {
  }

  lemma RetainPush(events: seq<DesiredEvent>, origin: DesiredEvent, m: Events)
    requires Lists(events, m)
    ensures Lists(Filter((e: DesiredEvent) => e.id != origin.id, events) + [origin], m[origin.id := origin])
  {
    var kept := Filter((e: DesiredEvent) => e.id != origin.id, events);
    UniqueKept((e: DesiredEvent) => e.id != origin.id, events);
    var after := kept + [origin];
    forall i, j | 0 <= i < j < |after| ensures after[i].id != after[j].id {
      if j == |kept| { assert kept[i] in kept; }
    }
  }

  lemma {:induction false} UniqueKept(p: DesiredEvent -> bool, events: seq<DesiredEvent>)
    requires UniqueById(events)
    ensures UniqueById(Filter(p, events))
  {
    if events != [] {
      var rest := events[1..];
      UniqueKept(p, rest);
      var kept := Filter(p, rest);
      forall k | 0 <= k < |kept| ensures events[0].id != kept[k].id {
        assert kept[k] in kept && kept[k] in rest;
        var m :| 0 <= m < |rest| && rest[m] == kept[k];
        assert events[m + 1] == rest[m];
      }
    }
  }

  /** How a capture rewrites the record, if anything was accepted or captured. */
  method CaptureRecord(store: ResultStore, observed: seq<DesiredEvent>, accepted: seq<Id>, origins: seq<DesiredEvent>)
    returns (ghost events: seq<DesiredEvent>)
    requires UniqueById(LastApplied(store.results))
    modifies store
    ensures accepted == [] && origins == [] ==> store.results == old(store.results)
    ensures accepted != [] || origins != [] ==> store.results == old(store.results) + [Snapshot(Applied, events)]
    ensures CapturedAs(LastApplied(old(store.results)), observed, accepted, origins, events)
  {
    var record := LastApplied(store.results);
    var applied := new DesiredEvent[|record|](i requires 0 <= i < |record| => record[i]);
    assert applied[..] == record;
    ListsById(record);
    ghost var m := ById(record);
    var i := 0;
    assert accepted[..0] == [];
    while i < |accepted|
      invariant 0 <= i <= |accepted|
      invariant Lists(applied[..], m) && m == AcceptAll(ById(record), observed, accepted[..i])
      invariant store.results == old(store.results)
    {
      AcceptObservation(applied, m, observed, accepted[i]);
      AcceptOneMore(ById(record), observed, accepted, i);
      m := Accept(m, observed, accepted[i]);
      i := i + 1;
    }
    assert accepted[..i] == accepted;
    var rewritten := RecordOrigins(applied[..], m, origins);
    if accepted != [] || origins != [] {
      store.results := store.results + [Snapshot(Applied, rewritten)];
    }
    events := rewritten;
  }

  lemma AcceptOneMore(m: Events, observed: seq<DesiredEvent>, accepted: seq<Id>, i: nat)
    requires i < |accepted|
    ensures AcceptAll(m, observed, accepted[..i + 1]) ==
        Accept(AcceptAll(m, observed, accepted[..i]), observed, accepted[i])
  {
    assert accepted[..i + 1][..i] == accepted[..i];
  }

  ghost predicate CapturedAs(record: seq<DesiredEvent>, observed: seq<DesiredEvent>, accepted: seq<Id>,
                             origins: seq<DesiredEvent>, events: seq<DesiredEvent>)
  {
    StrictlyById(events) && ById(events) == AcceptAll(ById(record), observed, accepted) + ById(origins)
  }
}
