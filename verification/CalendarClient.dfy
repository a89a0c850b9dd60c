/** The recording Calendar client: an external calendar that can refuse any single operation. */
module CalendarClient {
  import opened Basics
  import opened Sorting
  import opened Projection

  /** Why a call changed nothing. */
  datatype Refusal = Injected | AlreadyExists | DoesNotExist

  datatype Range = Range(start: int, end: int) {
    ghost predicate Meets(e: DesiredEvent) { e.startAt < end && e.endAt > start }
  }

  datatype Call = Listed | Served(op: Operation)

  /** What the calendar holds after an operation: notes are never exported, and a patch leaves the operator's alone. */
  ghost function Serve(events: Events, op: Operation): Events
  {
    match op
    case Create(event) => events[event.id := event.(description := None)]
    case Update(event) => if event.id in events
        then events[event.id := event.(description := events[event.id].description)] else events
    case Delete(id, _) => events - {id}
  }

  ghost function ServeAll(events: Events, ops: seq<Operation>): Events
    decreases ops
  {
    if ops == [] then events else ServeAll(Serve(events, ops[0]), ops[1..])
  }

  /** Inserts need a free handle; patches and deletes need an event to work on. */
  ghost predicate Accepts(events: Events, failIds: set<Id>, op: Operation)
  {
    Target(op) !in failIds && (op.Create? <==> Target(op) !in events)
  }

  ghost function Meeting(range: Range, events: seq<DesiredEvent>): seq<DesiredEvent>
  {
    Filter((e: DesiredEvent) => range.Meets(e), events)
  }

  /** Listed events whose stamp names the Task their handle belongs to. */
  ghost function Stamped(listed: seq<DesiredEvent>, stamps: map<Id, Id>): set<Id>
  {
    set e | e in listed && e.id in stamps && stamps[e.id] == e.id :: e.id
  }

  method EventsMeeting(range: Range, events: seq<DesiredEvent>) returns (listed: seq<DesiredEvent>)
    ensures listed == Meeting(range, events)
    ensures forall e :: e in listed <==> e in events && e.startAt < range.end && e.endAt > range.start
  {
    var meets := (e: DesiredEvent) => e.startAt < range.end && e.endAt > range.start;
    listed := Filter(meets, events);
    FilterAgree(meets, (e: DesiredEvent) => range.Meets(e), events);
  }

  method OwnStamps(listed: seq<DesiredEvent>, stamps: map<Id, Id>) returns (own: set<Id>)
    ensures own == Stamped(listed, stamps)
  {
    own := set e | e in listed && e.id in stamps && stamps[e.id] == e.id :: e.id;
  }

  class RecordingCalendar {
    var events: Events
    var stamps: map<Id, Id>
    var calls: seq<Call>
    var failIds: set<Id>
    var minted: set<Id>

    constructor (seed: seq<DesiredEvent>, failIds: set<Id>)
      ensures events == ById(seed) && this.failIds == failIds
      ensures stamps == map[] && calls == [] && minted == {}
    {
      events, stamps, calls, minted := ById(seed), map[], [], {};
      this.failIds := failIds;
    }

    method InsertEvent(event: DesiredEvent) returns (r: Result<(), Refusal>)
      modifies this
      ensures r.Ok? <==> Accepts(old(events), failIds, Create(event))
      ensures r.Err? ==> r.error == if event.id in failIds then Injected else AlreadyExists
      ensures events == if r.Ok? then Serve(old(events), Create(event)) else old(events)
      ensures stamps == if r.Ok? then old(stamps)[event.id := event.task] else old(stamps)
      ensures calls == old(calls) + [Served(Create(event.(description := None)))] && failIds == old(failIds)
      ensures minted == old(minted)
    {
      calls := calls + [Served(Create(event.(description := None)))];
      if event.id in failIds { return Err(Injected); }
      if event.id in events { return Err(AlreadyExists); }
      events := events[event.id := event.(description := None)];
      stamps := stamps[event.id := event.task];
      return Ok(());
    }

    method PatchEvent(event: DesiredEvent) returns (r: Result<(), Refusal>)
      modifies this
      ensures r.Ok? <==> Accepts(old(events), failIds, Update(event))
      ensures r.Err? ==> r.error == if event.id in failIds then Injected else DoesNotExist
      ensures events == if r.Ok? then Serve(old(events), Update(event)) else old(events)
      ensures calls == old(calls) + [Served(Update(event.(description := None)))] && failIds == old(failIds)
      ensures stamps == old(stamps) && minted == old(minted)
    {
      calls := calls + [Served(Update(event.(description := None)))];
      if event.id in failIds { return Err(Injected); }
      if event.id !in events { return Err(DoesNotExist); }
      events := events[event.id := event.(description := events[event.id].description)];
      return Ok(());
    }

    method DeleteEvent(id: Id, summary: string) returns (r: Result<(), Refusal>)
      modifies this
      ensures r.Ok? <==> Accepts(old(events), failIds, Delete(id, summary))
      ensures r.Err? ==> r.error == if id in failIds then Injected else DoesNotExist
      ensures events == if r.Ok? then Serve(old(events), Delete(id, summary)) else old(events)
      ensures stamps == if r.Ok? then old(stamps) - {id} else old(stamps)
      ensures calls == old(calls) + [Served(Delete(id, summary))] && failIds == old(failIds) && minted == old(minted)
    {
      calls := calls + [Served(Delete(id, summary))];
      if id in failIds { return Err(Injected); }
      if id !in events { return Err(DoesNotExist); }
      events := events - {id};
      stamps := stamps - {id};
      return Ok(());
    }

    /** The events that meet a range, and which of them UbU minted under their own handle. */
    method ListEvents(range: Range) returns (listed: seq<DesiredEvent>)
      modifies this
      ensures listed == Meeting(range, Values(events))
      ensures forall e :: e in listed <==> e in Values(events) && e.startAt < range.end && e.endAt > range.start
      ensures minted == old(minted) + Stamped(listed, stamps)
      ensures events == old(events) && stamps == old(stamps) && failIds == old(failIds)
      ensures calls == old(calls) + [Listed]
    {
      calls := calls + [Listed];
      listed := EventsMeeting(range, Values(events));
      var own := OwnStamps(listed, stamps);
      minted := minted + own;
    }

    /** Hand over what has been minted, once. */
    method TakeMinted() returns (r: set<Id>)
      modifies this`minted
      ensures r == old(minted) && minted == {}
    {
      r, minted := minted, {};
    }
  }

  // ----- a batch of operations on different events -----

  /** Whether an event operation is carried out does not depend on the others in its batch. */
  lemma {:induction false} AcceptedLater(events: Events, failIds: set<Id>, done: seq<Operation>, op: Operation)
    requires forall o :: o in done ==> Target(o) != Target(op)
    ensures Accepts(ServeAll(events, done), failIds, op) <==> Accepts(events, failIds, op)
    ensures Target(op) in ServeAll(events, done) <==> Target(op) in events
    decreases done
  {
    if done != [] {
      assert done[0] in done && forall o :: o in done[1..] ==> o in done;
      AcceptedLater(Serve(events, done[0]), failIds, done[1..], op);
    }
  }

  /** What a batch leaves under a handle. */
  lemma {:induction false} ServedAt(events: Events, ops: seq<Operation>, id: Id)
    requires DistinctTargets(ops)
    ensures (forall op :: op in ops ==> Target(op) != id) ==>
              (id in ServeAll(events, ops) <==> id in events)
                  && (id in events ==> ServeAll(events, ops)[id] == events[id])
    ensures forall op :: op in ops && Target(op) == id ==>
              var after := ServeAll(events, ops);
              match op
              case Create(event) => id in after && after[id] == event.(description := None)
              case Update(event) => id in events ==>
                  id in after && after[id] == event.(description := events[id].description)
              case Delete(_, _) => id !in after
    decreases ops
  {
    if ops != [] {
      var first, rest := ops[0], ops[1..];
      ServedAt(Serve(events, first), rest, id);
      assert ops == [first] + rest;
      if Target(first) == id {
        forall op | op in rest ensures Target(op) != id {
          var k :| 0 <= k < |rest| && rest[k] == op;
          assert ops[k + 1] == op;
        }
      }
    }
  }

  lemma {:induction false} ServeSnoc(events: Events, ops: seq<Operation>, op: Operation)
    ensures ServeAll(events, ops + [op]) == Serve(ServeAll(events, ops), op)
    decreases ops
  {
    if ops == [] {
      assert ops + [op] == [op];
    } else {
      assert (ops + [op])[1..] == ops[1..] + [op];
      ServeSnoc(Serve(events, ops[0]), ops[1..], op);
    }
  }

  lemma {:induction false} LandSnoc(record: Events, ops: seq<Operation>, op: Operation)
    ensures LandAll(record, ops + [op]) == Land(LandAll(record, ops), op)
    decreases ops
  {
    if ops == [] {
      assert ops + [op] == [op];
    } else {
      assert (ops + [op])[1..] == ops[1..] + [op];
      LandSnoc(Land(record, ops[0]), ops[1..], op);
    }
  }
}
