/** Applying a previewed diff, one operation at a time, against a calendar that may refuse any of them. */
module CalendarApply {
  import opened Basics
  import opened Sorting
  import opened Projection
  import opened CalendarClient

  datatype ResultStatus = Applied | Partial | Failed

  /** One stored result: what the record was believed to be after it. */
  datatype Snapshot = Snapshot(status: ResultStatus, events: seq<DesiredEvent>)

  /** The newest snapshot that changed anything; a failed batch has no landed change. */
  function LastApplied(results: seq<Snapshot>): seq<DesiredEvent>
  {
    if results == [] then []
    else
      var last := results[|results| - 1];
      if last.status.Failed? then LastApplied(results[..|results| - 1]) else last.events
  }

  /** It is the last one that did not fail, and nothing if all failed. */
  lemma {:induction false} NewestUnfailed(results: seq<Snapshot>, i: nat)
    requires i <= |results| && forall j :: i <= j < |results| ==> results[j].status.Failed?
    ensures i == 0 ==> LastApplied(results) == []
    ensures i > 0 && !results[i - 1].status.Failed? ==> LastApplied(results) == results[i - 1].events
  {
    if i < |results| {
      NewestUnfailed(results[..|results| - 1], i);
    }
  }

  lemma LastAppliedSnoc(results: seq<Snapshot>, s: Snapshot)
    ensures LastApplied(results + [s]) == if s.status.Failed? then LastApplied(results) else s.events
  {
    assert (results + [s])[..|results|] == results;
  }

  datatype OperationStatus = Done | Skipped | Rejected

  /** A diff shown to the operator together with the record it was computed against. */
  datatype Preview = Preview(existing: seq<DesiredEvent>, operations: seq<Operation>)

  /** The operations of a preview are all or part of a diff against its own existing side. */
  ghost predicate FromDiff(p: Preview)
  {
    exists desired, retained, keep :: PartOfDiff(p, desired, retained, keep)
  }

  ghost predicate PartOfDiff(p: Preview, desired: Events, retained: set<Id>, keep: Operation -> bool)
  {
    exists ops :: IsDiff(desired, ById(p.existing), retained, ops) && p.operations == Filter(keep, ops)
  }

  /** Previewing keeps everything except the deletion of an event that was captured, not minted. */
  method MakePreview(desired: seq<DesiredEvent>, existing: seq<DesiredEvent>, retained: set<Id>, origins: set<Id>)
    returns (p: Preview)
    ensures p.existing == existing && FromDiff(p)
    ensures forall op :: op in p.operations <==>
              Needed(ById(desired), ById(existing), retained, op) && !(op.Delete? && op.externalId in origins)
  {
    var ops := Diff(desired, existing, retained);
    var keep := (op: Operation) => !(op.Delete? && op.externalId in origins);
    p := Preview(existing, Filter(keep, ops));
    assert PartOfDiff(p, ById(desired), retained, keep);
  }

  /** All that is ever used of it: distinct targets, and only what is recorded gets changed or deleted. */
  lemma PreviewShape(p: Preview)
    requires FromDiff(p)
    ensures DistinctTargets(p.operations)
    ensures forall op :: op in p.operations ==> (op.Create? <==> Target(op) !in ById(p.existing))
  {
    var desired, retained, keep :| PartOfDiff(p, desired, retained, keep);
    var ops :| IsDiff(desired, ById(p.existing), retained, ops) && p.operations == Filter(keep, ops);
    DiffTargets(desired, ById(p.existing), retained, ops);
    FilterTargets(keep, ops);
  }

  // ----- what a batch does, in one formula -----

  /** An operation lands exactly when the export gate permits it and the calendar accepts it. */
  ghost predicate Lands(permits: set<Operation>, events: Events, failIds: set<Id>, op: Operation)
  {
    op in permits && Accepts(events, failIds, op)
  }

  ghost function Landed(permits: set<Operation>, events: Events, failIds: set<Id>, ops: seq<Operation>)
    : (r: seq<Operation>)
    ensures forall op :: op in r <==> op in ops && Lands(permits, events, failIds, op)
  {
    Filter((op: Operation) => Lands(permits, events, failIds, op), ops)
  }

  ghost function StatusOf(permits: set<Operation>, events: Events, failIds: set<Id>, op: Operation): OperationStatus
  {
    if op !in permits then Skipped else if Accepts(events, failIds, op) then Done else Rejected
  }

  /** Applied if everything landed, partial if something did, failed if nothing did. */
  ghost function BatchStatus(ops: seq<Operation>, landed: seq<Operation>): (status: ResultStatus)
    ensures status.Failed? <==> |landed| != |ops| && landed == []
  {
    if |landed| == |ops| then Applied else if |landed| > 0 then Partial else Failed
  }

  class ResultStore {
    var results: seq<Snapshot>

    constructor ()
      ensures results == []
    {
      results := [];
    }
  }

  datatype ApplyError = RecordChanged

  datatype Receipt = Receipt(status: ResultStatus, statuses: seq<OperationStatus>)

  /** In the middle of a batch, with the operations `done` through. */
  ghost predicate MidBatch(existing: Events, permits: set<Operation>, before: Events, failIds: set<Id>,
                           done: seq<Operation>,
                           record: Events, events: Events, statuses: seq<OperationStatus>)
  {
    && record == LandAll(existing, Landed(permits, before, failIds, done))
    && events == ServeAll(before, Landed(permits, before, failIds, done))
    && |statuses| == |done|
    && (forall k :: 0 <= k < |done| ==> statuses[k] == StatusOf(permits, before, failIds, done[k]))
  }

  lemma LandedSnoc(permits: set<Operation>, events: Events, failIds: set<Id>, ops: seq<Operation>, op: Operation)
    ensures Landed(permits, events, failIds, ops + [op]) ==
              Landed(permits, events, failIds, ops) + if Lands(permits, events, failIds, op) then [op] else []
  {
    FilterSnoc((o: Operation) => Lands(permits, events, failIds, o), ops, op);
  }

  lemma BatchStep(existing: Events, permits: set<Operation>, before: Events, failIds: set<Id>, done: seq<Operation>,
                  record: Events, events: Events, statuses: seq<OperationStatus>, op: Operation)
    requires MidBatch(existing, permits, before, failIds, done, record, events, statuses)
    requires forall o :: o in done ==> Target(o) != Target(op)
    ensures Accepts(events, failIds, op) <==> Accepts(before, failIds, op)
    ensures var lands := Lands(permits, before, failIds, op);
            MidBatch(existing, permits, before, failIds, done + [op],
              if lands then Land(record, op) else record, if lands then Serve(events, op) else events,
              statuses + [StatusOf(permits, before, failIds, op)])
  {
    var landed := Landed(permits, before, failIds, done);
    AcceptedLater(before, failIds, landed, op);
    LandedSnoc(permits, before, failIds, done, op);
    if Lands(permits, before, failIds, op) {
      ServeSnoc(before, landed, op);
      LandSnoc(existing, landed, op);
    } else {
      assert landed + [] == landed;
    }
  }

  lemma EarlierTargets(ops: seq<Operation>, i: nat)
    requires DistinctTargets(ops) && i < |ops|
    ensures forall o :: o in ops[..i] ==> Target(o) != Target(ops[i])
    ensures ops[..i + 1] == ops[..i] + [ops[i]]
  {
    forall o | o in ops[..i] ensures Target(o) != Target(ops[i]) {
      var k :| 0 <= k < i && ops[..i][k] == o;
      assert Target(ops[k]) != Target(ops[i]);
    }
  }

  /** The calendar's answer to one operation. */
  method Carry(client: RecordingCalendar, op: Operation) returns (ok: bool)
    modifies client
    ensures ok <==> Accepts(old(client.events), client.failIds, op)
    ensures client.events == if ok then Serve(old(client.events), op) else old(client.events)
    ensures client.failIds == old(client.failIds)
  {
    var r;
    match op {
      case Create(event) => r := client.InsertEvent(event);
      case Update(event) => r := client.PatchEvent(event);
      case Delete(id, summary) => r := client.DeleteEvent(id, summary);
    }
    ok := r.Ok?;
  }

  /** Apply exactly a stored preview, provided the record is still the one it was computed against. */
  method Approve(store: ResultStore, client: RecordingCalendar, p: Preview, permits: set<Operation>)
    returns (r: Result<Receipt, ApplyError>)
    requires FromDiff(p)
    modifies store, client
    ensures client.failIds == old(client.failIds)
    ensures r.Err? <==> p.existing != LastApplied(old(store.results))
    ensures r.Err? ==> store.results == old(store.results) && client.events == old(client.events)
    ensures r.Ok? ==>
              var landed := Landed(permits, old(client.events), client.failIds, p.operations);
              && client.events == ServeAll(old(client.events), landed)
              && store.results == old(store.results)
                  + [Snapshot(r.value.status, Values(LandAll(ById(p.existing), landed)))]
              && r.value.status == BatchStatus(p.operations, landed)
              && (r.value.status.Applied? <==> forall s :: s in r.value.statuses ==> s.Done?)
              && (r.value.status.Failed? <==> p.operations != [] && forall s :: s in r.value.statuses ==> !s.Done?)
              && |r.value.statuses| == |p.operations|
              && forall k :: 0 <= k < |p.operations| ==>
                   r.value.statuses[k] == StatusOf(permits, old(client.events), client.failIds, p.operations[k])
  {
    var existing := LastApplied(store.results);
    if existing != p.existing { return Err(RecordChanged); }
    PreviewShape(p);
    var record := ById(existing);
    var statuses: seq<OperationStatus> := [];
    ghost var before := client.events;
    var i := 0;
    assert p.operations[..0] == [];
    while i < |p.operations|
      invariant 0 <= i <= |p.operations|
      invariant MidBatch(ById(existing), permits, before, client.failIds, p.operations[..i], record, client.events,
          statuses)
      invariant client.failIds == old(client.failIds) && store.results == old(store.results)
    {
      var op := p.operations[i];
      EarlierTargets(p.operations, i);
      BatchStep(ById(existing), permits, before, client.failIds, p.operations[..i], record, client.events, statuses,
          op);
      if op !in permits {
        statuses := statuses + [Skipped];
      } else {
        var ok := Carry(client, op);
        if ok {
          record := Land(record, op);
          statuses := statuses + [Done];
        } else {
          statuses := statuses + [Rejected];
        }
      }
      i := i + 1;
    }
    assert p.operations[..i] == p.operations;
    var status := StatusOfBatch(statuses, permits, before, client.failIds, p.operations);
    store.results := store.results + [Snapshot(status, Values(record))];
    return Ok(Receipt(status, statuses));
  }

  /** Applied, partial or failed, by how many operations are done. */
  method StatusOfBatch(statuses: seq<OperationStatus>, ghost permits: set<Operation>, ghost events: Events,
                       ghost failIds: set<Id>, ghost ops: seq<Operation>)
    returns (status: ResultStatus)
    requires |statuses| == |ops|
    requires forall k :: 0 <= k < |ops| ==> statuses[k] == StatusOf(permits, events, failIds, ops[k])
    ensures status == BatchStatus(ops, Landed(permits, events, failIds, ops))
    ensures status.Applied? <==> forall s :: s in statuses ==> s.Done?
    ensures status.Failed? <==> statuses != [] && forall s :: s in statuses ==> !s.Done?
  {
    var applied := |Filter((s: OperationStatus) => s.Done?, statuses)|;
    FilterAll((s: OperationStatus) => s.Done?, statuses);
    NoneDone(statuses);
    CountDone(permits, events, failIds, ops, statuses);
    status := if applied == |statuses| then Applied else if applied > 0 then Partial else Failed;
  }

  lemma NoneDone(statuses: seq<OperationStatus>)
    ensures |Filter((s: OperationStatus) => s.Done?, statuses)| == 0 <==> forall s :: s in statuses ==> !s.Done?
  {
    var done := Filter((s: OperationStatus) => s.Done?, statuses);
    if |done| > 0 { assert done[0] in done; }
  }

  lemma {:induction false} CountDone(permits: set<Operation>, events: Events, failIds: set<Id>, ops: seq<Operation>,
                                     statuses: seq<OperationStatus>)
    requires |statuses| == |ops|
    requires forall k :: 0 <= k < |ops| ==> statuses[k] == StatusOf(permits, events, failIds, ops[k])
    ensures |Filter((s: OperationStatus) => s.Done?, statuses)| == |Landed(permits, events, failIds, ops)|
  {
    if ops != [] {
      CountDone(permits, events, failIds, ops[1..], statuses[1..]);
    }
  }

  // ----- the record and the calendar stay in step -----

  /** Everything recorded is on the calendar, equal in every field UbU writes. */
  ghost predicate Agree(record: Events, calendar: Events)
  {
    forall id :: id in record ==>
      id in calendar && record[id].(description := None) == calendar[id].(description := None)
  }

  /** Whatever subset of a batch lands, agreement survives. */
  lemma AgreeKept(record: Events, calendar: Events, failIds: set<Id>, landed: seq<Operation>)
    requires Agree(record, calendar) && DistinctTargets(landed)
    requires forall op :: op in landed ==> Accepts(calendar, failIds, op)
    ensures Agree(LandAll(record, landed), ServeAll(calendar, landed))
  {
    var record', calendar' := LandAll(record, landed), ServeAll(calendar, landed);
    forall id | id in record'
      ensures id in calendar' && record'[id].(description := None) == calendar'[id].(description := None)
    {
      LandedAt(record, landed, id);
      ServedAt(calendar, landed, id);
      if op :| op in landed && Target(op) == id {
        assert Accepts(calendar, failIds, op);
      }
    }
  }

  /** No event outside the record is changed or deleted, and none appears outside it. */
  lemma ForeignUntouched(p: Preview, calendar: Events, failIds: set<Id>, landed: seq<Operation>, id: Id)
    requires FromDiff(p) && DistinctTargets(landed)
    requires forall op :: op in landed ==> op in p.operations && Accepts(calendar, failIds, op)
    ensures id in calendar && id !in ById(p.existing) ==>
              id in ServeAll(calendar, landed) && ServeAll(calendar, landed)[id] == calendar[id]
                  && id !in LandAll(ById(p.existing), landed)
    ensures id in ServeAll(calendar, landed) && id !in LandAll(ById(p.existing), landed) ==>
        id in calendar && id !in ById(p.existing)
  {
    PreviewShape(p);
    LandedAt(ById(p.existing), landed, id);
    ServedAt(calendar, landed, id);
    if op :| op in landed && Target(op) == id {
      assert op in p.operations && Accepts(calendar, failIds, op);
    }
  }
}
