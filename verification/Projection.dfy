/** The projection diff between wanted and recorded Calendar events. */
module Projection {
  import opened Basics
  import opened Sorting

  /** One Calendar event as UbU writes it; `description` holds the operator's notes, which UbU never exports. */
  datatype DesiredEvent = DesiredEvent(
    id: Id, task: Id, summary: string, description: Option<string>, startAt: int, endAt: int,
    color: Option<int>, transparent: bool, reminders: seq<int>)

  /** The comparison field by field is equality of the two events without their notes. */
  predicate SameManaged(a: DesiredEvent, b: DesiredEvent)
    ensures SameManaged(a, b) <==> a.(description := None) == b.(description := None)
  {
    && a.id == b.id && a.task == b.task && a.summary == b.summary && a.startAt == b.startAt && a.endAt == b.endAt
    && a.color == b.color && a.transparent == b.transparent && a.reminders == b.reminders
  }

  type Events = map<Id, DesiredEvent>

  /** Each event is kept under its own handle. */
  ghost predicate Keyed(m: Events)
  {
    forall id :: id in m ==> m[id].id == id
  }

  /** A list read into a map: of two events with one handle the later wins. */
  function ById(events: seq<DesiredEvent>): (m: Events)
    ensures Keyed(m)
    ensures forall id :: id in m ==> m[id] in events
    ensures forall e :: e in events ==> e.id in m
  {
    if events == [] then map[]
    else ById(events[..|events| - 1])[events[|events| - 1].id := events[|events| - 1]]
  }

  /** What a handle is read as: the event listed last under it. */
  lemma {:induction false} LastListedWins(events: seq<DesiredEvent>, i: nat)
    requires i < |events| && forall j :: i < j < |events| ==> events[j].id != events[i].id
    ensures ById(events)[events[i].id] == events[i]
  {
    if i < |events| - 1 {
      LastListedWins(events[..|events| - 1], i);
    }
  }

  /** The events of a map, by handle. */
  function Values(m: Events): (r: seq<DesiredEvent>)
    ensures |r| == |Ascending(m.Keys)|
    ensures forall i :: 0 <= i < |r| ==> Ascending(m.Keys)[i] in m && r[i] == m[Ascending(m.Keys)[i]]
  {
    var ids := Ascending(m.Keys);
    seq(|ids|, i requires 0 <= i < |ids| => assert ids[i] in Elements(ids); m[ids[i]])
  }

  /** Strictly sorted by handle, so no handle occurs twice. */
  ghost predicate StrictlyById(events: seq<DesiredEvent>)
  {
    forall i, j :: 0 <= i < j < |events| ==> events[i].id < events[j].id
  }

  lemma StrictSame(events: seq<DesiredEvent>, a: DesiredEvent, b: DesiredEvent)
    requires StrictlyById(events) && a in events && b in events && a.id == b.id
    ensures a == b
  {
    var i :| 0 <= i < |events| && events[i] == a;
    var j :| 0 <= j < |events| && events[j] == b;
    assert !(i < j) && !(j < i);
  }

  lemma ListedAt(m: Events, id: Id) returns (i: nat)
    requires id in m
    ensures i < |Values(m)| && Ascending(m.Keys)[i] == id && Values(m)[i] == m[id]
  {
    var ids := Ascending(m.Keys);
    assert id in Elements(ids);
    i :| 0 <= i < |ids| && ids[i] == id;
  }

  lemma ValuesSorted(m: Events)
    requires Keyed(m)
    ensures StrictlyById(Values(m))
    ensures forall e :: e in Values(m) <==> e.id in m && m[e.id] == e
  {
    var r, ids := Values(m), Ascending(m.Keys);
    assert forall i :: 0 <= i < |r| ==> r[i].id == ids[i];
    forall e ensures e in r <==> e.id in m && m[e.id] == e {
      if e.id in m {
        var i := ListedAt(m, e.id);
      }
    }
  }

  /** Listing a map and reading the list back gives the map. */
  lemma ValuesRoundTrip(m: Events)
    requires Keyed(m)
    ensures StrictlyById(Values(m)) && ById(Values(m)) == m
  {
    ValuesSorted(m);
    SameEvents(m, Values(m), ById(Values(m)));
  }

  lemma SameEvents(m: Events, r: seq<DesiredEvent>, back: Events)
    requires Keyed(m) && Keyed(back)
    requires forall e :: e in r <==> e.id in m && m[e.id] == e
    requires forall id :: id in back ==> back[id] in r
    requires forall e :: e in r ==> e.id in back
    ensures back == m
  {
    forall id ensures id in back <==> id in m {
      if id in m { assert m[id] in r; }
      if id in back { assert back[id] in r; }
    }
    forall id | id in m ensures back[id] == m[id] {
      assert back[id] in r;
    }
  }

  /** A sorted list is the listing of its map. */
  lemma SortedIsValues(events: seq<DesiredEvent>)
    requires StrictlyById(events)
    ensures Values(ById(events)) == events
  {
    SortedListing(events, ById(events));
  }

  lemma SortedListing(events: seq<DesiredEvent>, m: Events)
    requires StrictlyById(events) && Keyed(m)
    requires (forall id :: id in m ==> m[id] in events) && forall e :: e in events ==> e.id in m
    ensures Values(m) == events
  {
    var own := seq(|events|, i requires 0 <= i < |events| => events[i].id);
    OwnIds(events, m, own);
    IncreasingUnique(own, Ascending(m.Keys));
    forall i | 0 <= i < |events| ensures Values(m)[i] == events[i] {
      assert own[i] == events[i].id && m[own[i]] == Values(m)[i];
      StrictSame(events, events[i], m[own[i]]);
    }
  }

  lemma OwnIds(events: seq<DesiredEvent>, m: Events, own: seq<Id>)
    requires |own| == |events| && forall i :: 0 <= i < |own| ==> own[i] == events[i].id
    requires Keyed(m) && (forall id :: id in m ==> m[id] in events) && forall e :: e in events ==> e.id in m
    ensures Elements(own) == m.Keys
  {
    forall id ensures id in own <==> id in m.Keys {
      if id in own {
        var i :| 0 <= i < |own| && own[i] == id;
        assert events[i] in events;
      }
      if id in m {
        var e := m[id];
        var i :| 0 <= i < |events| && events[i] == e;
        assert own[i] == id;
      }
    }
  }

  // ----- operations -----

  datatype Operation =
    | Create(event: DesiredEvent)
    | Update(event: DesiredEvent)
    | Delete(externalId: Id, summary: string)

  ghost function Target(op: Operation): Id
  {
    match op
    case Create(event) => event.id
    case Update(event) => event.id
    case Delete(id, _) => id
  }

  ghost function Rank(op: Operation): nat
  {
    match op
    case Create(_) => 0
    case Update(_) => 1
    case Delete(_, _) => 2
  }

  /** Creates, then updates, then deletes, each by handle. */
  ghost predicate OpLess(a: Operation, b: Operation)
  {
    Rank(a) < Rank(b) || (Rank(a) == Rank(b) && Target(a) < Target(b))
  }

  ghost predicate Ordered(ops: seq<Operation>)
  {
    forall i, j :: 0 <= i < j < |ops| ==> OpLess(ops[i], ops[j])
  }

  /** What the difference between two event sets asks for. */
  ghost predicate Needed(desired: Events, existing: Events, retained: set<Id>, op: Operation)
  {
    && Target(op) !in retained
    && match op
       case Create(event) => event.id in desired && desired[event.id] == event && event.id !in existing
       case Update(event) =>
         event.id in desired && desired[event.id] == event && event.id in existing
             && existing[event.id].(description := None) != event.(description := None)
       case Delete(id, summary) => id in existing && id !in desired && summary == existing[id].summary
  }

  /** Exactly the operations the two sets call for, in their order. */
  ghost predicate IsDiff(desired: Events, existing: Events, retained: set<Id>, ops: seq<Operation>)
  {
    Ordered(ops) && forall op :: op in ops <==> Needed(desired, existing, retained, op)
  }

  /** The progress of one of the loops: all of one kind, for the handles seen so far. */
  ghost predicate Collected(desired: Events, existing: Events, retained: set<Id>, rank: nat, seen: seq<Id>,
                            ops: seq<Operation>)
  {
    && Ordered(ops)
    && forall op :: op in ops <==> Rank(op) == rank && Target(op) in seen && Needed(desired, existing, retained, op)
  }

  lemma CollectOne(desired: Events, existing: Events, retained: set<Id>, rank: nat, seen: seq<Id>, ops: seq<Operation>,
                   id: Id, op: Operation, take: bool)
    requires Collected(desired, existing, retained, rank, seen, ops)
    requires forall x :: x in seen ==> x < id
    requires take ==> Rank(op) == rank && Target(op) == id && Needed(desired, existing, retained, op)
    requires forall o :: Rank(o) == rank && Target(o) == id && Needed(desired, existing, retained, o) ==>
        take && o == op
    ensures Collected(desired, existing, retained, rank, seen + [id], if take then ops + [op] else ops)
  {
    var more := if take then ops + [op] else ops;
    forall o ensures o in more <==>
        Rank(o) == rank && Target(o) in seen + [id] && Needed(desired, existing, retained, o) {
    }
    forall i, j | 0 <= i < j < |more| ensures OpLess(more[i], more[j]) {
      if j == |ops| { assert ops[i] in ops; }
    }
  }

  /** The three passes together are the diff. */
  lemma PassesAreDiff(desired: Events, existing: Events, retained: set<Id>, wanted: seq<Id>, known: seq<Id>,
                      creates: seq<Operation>, updates: seq<Operation>, deletes: seq<Operation>)
    requires Elements(wanted) == desired.Keys && Elements(known) == existing.Keys
    requires Collected(desired, existing, retained, 0, wanted, creates)
    requires Collected(desired, existing, retained, 1, wanted, updates)
    requires Collected(desired, existing, retained, 2, known, deletes)
    ensures IsDiff(desired, existing, retained, creates + updates + deletes)
  {
    var all := creates + updates + deletes;
    forall op ensures op in all <==> Needed(desired, existing, retained, op) {
      assert Target(op) in wanted <==> Target(op) in Elements(wanted);
      assert Target(op) in known <==> Target(op) in Elements(known);
    }
    RanksJoin(creates, updates, 0, 1);
    RanksJoin(creates + updates, deletes, 1, 2);
  }

  lemma RanksJoin(a: seq<Operation>, b: seq<Operation>, low: nat, high: nat)
    requires Ordered(a) && Ordered(b) && low < high
    requires forall op :: op in a ==> Rank(op) <= low
    requires forall op :: op in b ==> Rank(op) == high
    ensures Ordered(a + b)
  {
    var all := a + b;
    forall i, j | 0 <= i < j < |all| ensures OpLess(all[i], all[j]) {
      if i < |a| <= j { assert all[i] in a && all[j] in b; }
    }
  }

  method Diff(desired: seq<DesiredEvent>, existing: seq<DesiredEvent>, retained: set<Id>) returns (ops: seq<Operation>)
    ensures IsDiff(ById(desired), ById(existing), retained, ops)
    ensures forall id | id in ById(desired) && id !in retained && id in ById(existing) ::
              Update(ById(desired)[id]) in ops <==>
              ById(existing)[id].(description := None) != ById(desired)[id].(description := None)
  {
    var d, e := ById(desired), ById(existing);
    var creates, updates, deletes: seq<Operation> := [], [], [];
    var ids := Ascending(d.Keys);
    var i := 0;
    while i < |ids|
      invariant 0 <= i <= |ids|
      invariant Collected(d, e, retained, 0, ids[..i], creates)
      invariant Collected(d, e, retained, 1, ids[..i], updates)
    {
      var id := ids[i];
      WantedStep(d, e, retained, ids, i, creates, updates);
      var event := d[id];
      if id !in retained {
        if id !in e {
          creates := creates + [Create(event)];
        } else if !SameManaged(e[id], event) {
          updates := updates + [Update(event)];
        }
      }
      i := i + 1;
    }
    assert ids[..i] == ids;
    var known := Ascending(e.Keys);
    i := 0;
    while i < |known|
      invariant 0 <= i <= |known|
      invariant Collected(d, e, retained, 2, known[..i], deletes)
    {
      var id := known[i];
      KnownStep(d, e, retained, known, i, deletes);
      if id !in d && id !in retained {
        deletes := deletes + [Delete(id, e[id].summary)];
      }
      i := i + 1;
    }
    assert known[..i] == known;
    PassesAreDiff(d, e, retained, ids, known, creates, updates, deletes);
    ops := creates + updates + deletes;
    ChangedIsUpdated(d, e, retained, ops);
  }

  lemma ChangedIsUpdated(d: Events, e: Events, retained: set<Id>, ops: seq<Operation>)
    requires Keyed(d) && IsDiff(d, e, retained, ops)
    ensures forall id | id in d && id !in retained && id in e ::
              Update(d[id]) in ops <==> e[id].(description := None) != d[id].(description := None)
  {
    forall id | id in d && id !in retained && id in e
      ensures Update(d[id]) in ops <==> e[id].(description := None) != d[id].(description := None)
    {
      assert Update(d[id]) in ops <==> Needed(d, e, retained, Update(d[id]));
    }
  }

  lemma WantedStep(d: Events, e: Events, retained: set<Id>, ids: seq<Id>, i: nat, creates: seq<Operation>,
                   updates: seq<Operation>)
    requires Keyed(d) && Increasing(ids) && i < |ids| && Elements(ids) == d.Keys
    requires Collected(d, e, retained, 0, ids[..i], creates) && Collected(d, e, retained, 1, ids[..i], updates)
    ensures ids[i] in d
    ensures var id := ids[i];
            && Collected(d, e, retained, 0, ids[..i + 1],
                 if id !in retained && id !in e then creates + [Create(d[id])] else creates)
            && Collected(d, e, retained, 1, ids[..i + 1],
                 if id !in retained && id in e && e[id].(description := None) != d[id].(description := None)
                 then updates + [Update(d[id])] else updates)
  {
    var id := ids[i];
    assert id in Elements(ids);
    CollectOne(d, e, retained, 0, ids[..i], creates, id, Create(d[id]), id !in retained && id !in e);
    CollectOne(d, e, retained, 1, ids[..i], updates, id, Update(d[id]),
               id !in retained && id in e && e[id].(description := None) != d[id].(description := None));
    assert ids[..i + 1] == ids[..i] + [id];
  }

  lemma KnownStep(d: Events, e: Events, retained: set<Id>, ids: seq<Id>, i: nat, deletes: seq<Operation>)
    requires Increasing(ids) && i < |ids| && Elements(ids) == e.Keys
    requires Collected(d, e, retained, 2, ids[..i], deletes)
    ensures ids[i] in e
    ensures var id := ids[i];
            Collected(d, e, retained, 2, ids[..i + 1],
              if id !in d && id !in retained then deletes + [Delete(id, e[id].summary)] else deletes)
  {
    var id := ids[i];
    assert id in Elements(ids);
    CollectOne(d, e, retained, 2, ids[..i], deletes, id, Delete(id, e[id].summary), id !in d && id !in retained);
    assert ids[..i + 1] == ids[..i] + [id];
  }

  // ----- the diff is determined by what is needed -----

  lemma {:induction false} OrderedUnique(a: seq<Operation>, b: seq<Operation>)
    requires Ordered(a) && Ordered(b) && forall op :: op in a <==> op in b
    ensures a == b
  {
    if a == [] || b == [] {
      if a + b != [] { var op := SomeMember(a + b); }
    } else {
      assert a[0] in a && a[0] in b;
      assert b[0] in b && b[0] in a;
      HeadLeast(a, b[0]);
      HeadLeast(b, a[0]);
      forall op ensures op in a[1..] <==> op in b[1..] { TailMember(a, op); TailMember(b, op); }
      OrderedUnique(a[1..], b[1..]);
    }
  }

  lemma HeadLeast(s: seq<Operation>, op: Operation)
    requires Ordered(s) && op in s
    ensures op == s[0] || OpLess(s[0], op)
  {
    var i :| 0 <= i < |s| && s[i] == op;
  }

  lemma TailMember(s: seq<Operation>, op: Operation)
    requires Ordered(s) && s != []
    ensures op in s[1..] <==> op in s && op != s[0]
  {
    if op in s[1..] {
      var i :| 0 <= i < |s| - 1 && s[1..][i] == op;
      assert OpLess(s[0], s[i + 1]);
    }
  }

  /** Two diffs of the same sets are the same list. */
  lemma DiffUnique(desired: Events, existing: Events, retained: set<Id>, a: seq<Operation>, b: seq<Operation>)
    requires IsDiff(desired, existing, retained, a) && IsDiff(desired, existing, retained, b)
    ensures a == b
  {
    OrderedUnique(a, b);
  }

  // ----- when part of it lands -----

  /** The record after one operation landed. */
  function Land(record: Events, op: Operation): Events
  {
    match op
    case Create(event) => record[event.id := event]
    case Update(event) => record[event.id := event]
    case Delete(id, _) => record - {id}
  }

  ghost function LandAll(record: Events, ops: seq<Operation>): Events
    decreases ops
  {
    if ops == [] then record else LandAll(Land(record, ops[0]), ops[1..])
  }

  ghost predicate DistinctTargets(ops: seq<Operation>)
  {
    forall i, j :: 0 <= i < j < |ops| ==> Target(ops[i]) != Target(ops[j])
  }

  /** No two operations of one diff touch one event. */
  lemma DiffTargets(desired: Events, existing: Events, retained: set<Id>, ops: seq<Operation>)
    requires IsDiff(desired, existing, retained, ops)
    ensures DistinctTargets(ops)
  {
    forall i, j | 0 <= i < j < |ops| ensures Target(ops[i]) != Target(ops[j]) {
      assert ops[i] in ops && ops[j] in ops && OpLess(ops[i], ops[j]);
    }
  }

  /** What landing leaves under a handle: the operation on it decides, if there is one. */
  lemma {:induction false} LandedAt(record: Events, ops: seq<Operation>, id: Id)
    requires DistinctTargets(ops)
    ensures (forall op :: op in ops ==> Target(op) != id) ==>
              (id in LandAll(record, ops) <==> id in record)
                  && (id in record ==> LandAll(record, ops)[id] == record[id])
    ensures forall op :: op in ops && Target(op) == id ==>
              (id in LandAll(record, ops) <==> !op.Delete?) && (!op.Delete? ==> LandAll(record, ops)[id] == op.event)
    decreases ops
  {
    if ops != [] {
      var first, rest := ops[0], ops[1..];
      LandedAt(Land(record, first), rest, id);
      assert ops == [first] + rest;
      if Target(first) == id {
        forall op | op in rest ensures Target(op) != id {
          var k :| 0 <= k < |rest| && rest[k] == op;
          assert ops[k + 1] == op;
        }
      } else if forall op :: op in rest ==> Target(op) != id {
      }
    }
  }

  lemma {:induction false} FilterTargets(p: Operation -> bool, ops: seq<Operation>)
    requires DistinctTargets(ops)
    ensures DistinctTargets(Filter(p, ops))
  {
    if ops != [] {
      var rest := ops[1..];
      FilterTargets(p, rest);
      var kept := Filter(p, rest);
      forall k | 0 <= k < |kept| ensures Target(kept[k]) != Target(ops[0]) {
        assert kept[k] in kept && kept[k] in rest;
        var m :| 0 <= m < |rest| && rest[m] == kept[k];
        assert ops[m + 1] == rest[m];
      }
    }
  }

  lemma {:induction false} FilterOrdered(p: Operation -> bool, ops: seq<Operation>)
    requires Ordered(ops)
    ensures Ordered(Filter(p, ops))
  {
    if ops != [] {
      var rest := ops[1..];
      FilterOrdered(p, rest);
      var kept := Filter(p, rest);
      forall k | 0 <= k < |kept| ensures OpLess(ops[0], kept[k]) {
        assert kept[k] in kept && kept[k] in rest;
        var m :| 0 <= m < |rest| && rest[m] == kept[k];
        assert ops[m + 1] == rest[m];
      }
    }
  }

  /** If any part of a diff lands, what is needed next is exactly the part that did not, in the same order. */
  lemma PartialLandingLeavesRest(desired: Events, existing: Events, retained: set<Id>, ops: seq<Operation>,
                                 landed: Operation -> bool)
    requires Keyed(desired) && Keyed(existing) && IsDiff(desired, existing, retained, ops)
    ensures IsDiff(desired, LandAll(existing, Filter(landed, ops)), retained, Filter(op => !landed(op), ops))
  {
    var done, rest := Filter(landed, ops), Filter(op => !landed(op), ops);
    DiffTargets(desired, existing, retained, ops);
    FilterTargets(landed, ops);
    FilterOrdered(op => !landed(op), ops);
    forall op ensures op in rest <==> Needed(desired, LandAll(existing, done), retained, op) {
      StillNeeded(desired, existing, retained, ops, landed, op);
    }
  }

  lemma StillNeeded(desired: Events, existing: Events, retained: set<Id>, ops: seq<Operation>,
                    landed: Operation -> bool, op: Operation)
    requires Keyed(desired) && Keyed(existing) && IsDiff(desired, existing, retained, ops)
    requires DistinctTargets(Filter(landed, ops))
    ensures Needed(desired, LandAll(existing, Filter(landed, ops)), retained, op) <==>
              Needed(desired, existing, retained, op) && !landed(op)
  {
    var done, id := Filter(landed, ops), Target(op);
    LandedAt(existing, done, id);
    if o :| o in done && Target(o) == id {
      assert o in ops && landed(o) && Needed(desired, existing, retained, o);
    }
  }

  /** When all of it lands nothing is left to do. */
  lemma FullLandingLeavesNothing(desired: Events, existing: Events, retained: set<Id>, ops: seq<Operation>)
    requires Keyed(desired) && Keyed(existing) && IsDiff(desired, existing, retained, ops)
    ensures IsDiff(desired, LandAll(existing, ops), retained, [])
    ensures forall id :: id in desired && id !in retained ==>
              && id in LandAll(existing, ops)
              && LandAll(existing, ops)[id].(description := None) == desired[id].(description := None)
    ensures forall id :: id in LandAll(existing, ops) && id !in retained ==> id in desired
  {
    KeepEvery(ops);
    PartialLandingLeavesRest(desired, existing, retained, ops, op => true);
    var record := LandAll(existing, ops);
    assert IsDiff(desired, record, retained, []);
    forall id | id in desired && id !in retained
      ensures id in record && record[id].(description := None) == desired[id].(description := None)
    {
      assert !Needed(desired, record, retained, Create(desired[id]))
          && !Needed(desired, record, retained, Update(desired[id]));
    }
    forall id | id in record && id !in retained ensures id in desired {
      assert !Needed(desired, record, retained, Delete(id, record[id].summary));
    }
  }

  lemma {:induction false} KeepEvery(ops: seq<Operation>)
    ensures Filter(op => true, ops) == ops
    ensures Filter((op: Operation) => !((o: Operation) => true)(op), ops) == []
  {
    if ops != [] { KeepEvery(ops[1..]); }
  }

  /** A retained event keeps exactly its old value, or its absence, whatever lands. */
  lemma RetainedUntouched(desired: Events, existing: Events, retained: set<Id>, ops: seq<Operation>,
                          landed: Operation -> bool, id: Id)
    requires IsDiff(desired, existing, retained, ops) && id in retained
    ensures id in LandAll(existing, Filter(landed, ops)) <==> id in existing
    ensures id in existing ==> LandAll(existing, Filter(landed, ops))[id] == existing[id]
  {
    DiffTargets(desired, existing, retained, ops);
    FilterTargets(landed, ops);
    LandedAt(existing, Filter(landed, ops), id);
  }
}
