/** Comparing what was applied with what is observed, and rewriting the belief to match. */
module CalendarReconcile {
  import opened Basics
  import opened Sorting
  import opened Projection
  import opened CalendarClient

  /** In the order conflicts are listed. */
  datatype Kind = Drifted | Foreign | Missing | Unrecorded

  datatype Note = Differs | StaleExport | NotOwnable | NotOurs | NoLongerThere | NoRecord

  datatype Conflict = Conflict(id: Id, kind: Kind, summary: string, note: Note)

  /** What is known beside the two event sets. */
  datatype Evidence = Evidence(known: set<Id>, created: set<Id>, unownable: set<Id>)

  function KindRank(k: Kind): nat
  {
    match k
    case Drifted => 0
    case Foreign => 1
    case Missing => 2
    case Unrecorded => 3
  }

  predicate ConflictLeq(a: Conflict, b: Conflict)
  {
    KindRank(a.kind) < KindRank(b.kind) || (KindRank(a.kind) == KindRank(b.kind) && a.id <= b.id)
  }

  /** The one conflict a handle can have, if any. */
  ghost predicate Expected(applied: Events, observed: Events, ev: Evidence, c: Conflict)
  {
    match c.kind
    case Missing => c.id in applied && c.id !in observed && c.summary == applied[c.id].summary
        && c.note == NoLongerThere
    case Drifted =>
      c.id in applied && c.id in observed && observed[c.id].(description := None) != applied[c.id].(description := None)
      && c.summary == applied[c.id].summary && c.note == Differs
    case Unrecorded =>
      c.id !in applied && c.id in observed && c.id in ev.known && c.summary == observed[c.id].summary
          && c.note == NoRecord
    case Foreign =>
      c.id !in applied && c.id in observed && c.id !in ev.known && c.summary == observed[c.id].summary
      && c.note == if c.id in ev.created then StaleExport else if c.id in ev.unownable then NotOwnable else NotOurs
  }

  /** Drifted events are listed before foreign ones, then missing, then unrecorded, each by handle. */
  ghost predicate ListedBefore(a: Conflict, b: Conflict)
  {
    match a.kind
    case Drifted => b.kind.Drifted? ==> a.id < b.id
    case Foreign => !b.kind.Drifted? && (b.kind.Foreign? ==> a.id < b.id)
    case Missing => b.kind.Unrecorded? || (b.kind.Missing? && a.id < b.id)
    case Unrecorded => b.kind.Unrecorded? && a.id < b.id
  }

  ghost predicate StrictlyListed(cs: seq<Conflict>)
  {
    forall i, j :: 0 <= i < j < |cs| ==> ListedBefore(cs[i], cs[j]) && cs[i].id != cs[j].id
  }

  /** Exactly the conflicts there are, each once, by kind and handle. */
  ghost predicate IsClassification(applied: Events, observed: Events, ev: Evidence, cs: seq<Conflict>)
  {
    StrictlyListed(cs) && forall c :: c in cs <==> Expected(applied, observed, ev, c)
  }

  /** The conflicts found for the handles seen so far. */
  ghost predicate FoundFor(applied: Events, observed: Events, ev: Evidence, owned: seq<Id>, other: seq<Id>,
                           cs: seq<Conflict>)
  {
    && NoDuplicates(cs)
    && forall c :: c in cs <==>
        Expected(applied, observed, ev, c) && (if c.id in applied then c.id in owned else c.id in other)
  }

  method Classify(applied: seq<DesiredEvent>, observed: seq<DesiredEvent>, ev: Evidence) returns (cs: seq<Conflict>)
    ensures IsClassification(ById(applied), ById(observed), ev, cs)
  {
    var a, o := ById(applied), ById(observed);
    var owned, found := ClassifyOwned(a, o, ev);
    found := ClassifyOther(a, o, ev, owned, found);
    cs := Sort(ConflictLeq, found);
    SortedConflicts(a, o, ev, found, cs);
  }

  /** The first pass: applied events and what became of them. */
  method ClassifyOwned(a: Events, o: Events, ghost ev: Evidence) returns (owned: seq<Id>, found: seq<Conflict>)
    ensures Elements(owned) == a.Keys && FoundFor(a, o, ev, owned, [], found)
  {
    owned, found := Ascending(a.Keys), [];
    var i := 0;
    while i < |owned|
      invariant 0 <= i <= |owned|
      invariant FoundFor(a, o, ev, owned[..i], [], found)
    {
      OwnedStep(a, o, ev, owned, i, found);
      found := found + OwnedConflicts(a, o, owned[i]);
      i := i + 1;
    }
    assert owned[..i] == owned;
  }

  /** The second pass: observed events nobody applied. */
  method ClassifyOther(a: Events, o: Events, ev: Evidence, ghost owned: seq<Id>, before: seq<Conflict>)
    returns (found: seq<Conflict>)
    requires Elements(owned) == a.Keys && FoundFor(a, o, ev, owned, [], before)
    ensures NoDuplicates(found) && forall c :: c in found <==> Expected(a, o, ev, c)
  {
    found := before;
    var other := Ascending(o.Keys);
    var i := 0;
    assert other[..0] == [];
    while i < |other|
      invariant 0 <= i <= |other|
      invariant FoundFor(a, o, ev, owned, other[..i], found)
    {
      var id := other[i];
      OtherStep(a, o, ev, owned, other, i, found);
      var more := OtherConflicts(a, o, ev, id);
      found := found + more;
      i := i + 1;
    }
    assert other[..i] == other;
    AllFound(a, o, ev, owned, other, found);
  }

  function OwnedConflicts(a: Events, o: Events, id: Id): seq<Conflict>
    requires id in a
  {
    if id !in o then [Conflict(id, Missing, a[id].summary, NoLongerThere)]
    else if !SameManaged(o[id], a[id]) then [Conflict(id, Drifted, a[id].summary, Differs)]
    else []
  }

  function OtherConflicts(a: Events, o: Events, ev: Evidence, id: Id): seq<Conflict>
    requires id in o
  {
    if id in a then []
    else if id in ev.known then [Conflict(id, Unrecorded, o[id].summary, NoRecord)]
    else if id in ev.created then [Conflict(id, Foreign, o[id].summary, StaleExport)]
    else if id in ev.unownable then [Conflict(id, Foreign, o[id].summary, NotOwnable)]
    else [Conflict(id, Foreign, o[id].summary, NotOurs)]
  }

  lemma FreshConflict(found: seq<Conflict>, more: seq<Conflict>)
    requires NoDuplicates(found) && |more| <= 1
    requires forall c, d :: c in found && d in more ==> c.id != d.id
    ensures NoDuplicates(found + more)
  {
    forall i, j | 0 <= i < j < |found + more| ensures (found + more)[i] != (found + more)[j] {
      if j == |found| { assert found[i] in found && more[0] in more; }
    }
  }

  lemma OwnedStep(a: Events, o: Events, ev: Evidence, ids: seq<Id>, i: nat, found: seq<Conflict>)
    requires Increasing(ids) && Elements(ids) == a.Keys && i < |ids| && FoundFor(a, o, ev, ids[..i], [], found)
    ensures ids[i] in a && FoundFor(a, o, ev, ids[..i + 1], [], found + OwnedConflicts(a, o, ids[i]))
  {
    var id := ids[i];
    assert id in Elements(ids) && ids[..i + 1] == ids[..i] + [id];
    assert id !in ids[..i];
    FreshConflict(found, OwnedConflicts(a, o, id));
  }

  lemma OtherStep(a: Events, o: Events, ev: Evidence, owned: seq<Id>, ids: seq<Id>, i: nat, found: seq<Conflict>)
    requires Increasing(ids) && Elements(ids) == o.Keys && i < |ids| && FoundFor(a, o, ev, owned, ids[..i], found)
    ensures ids[i] in o && FoundFor(a, o, ev, owned, ids[..i + 1], found + OtherConflicts(a, o, ev, ids[i]))
  {
    var id := ids[i];
    assert id in Elements(ids) && ids[..i + 1] == ids[..i] + [id];
    assert id !in ids[..i];
    FreshConflict(found, OtherConflicts(a, o, ev, id));
  }

  lemma AllFound(a: Events, o: Events, ev: Evidence, owned: seq<Id>, other: seq<Id>, found: seq<Conflict>)
    requires Elements(owned) == a.Keys && Elements(other) == o.Keys && FoundFor(a, o, ev, owned, other, found)
    ensures forall c :: c in found <==> Expected(a, o, ev, c)
  {
    forall c ensures c in found <==> Expected(a, o, ev, c) {
      assert c.id in owned <==> c.id in Elements(owned);
      assert c.id in other <==> c.id in Elements(other);
    }
  }

  /** A handle is in one conflict at most. */
  lemma OneConflict(a: Events, o: Events, ev: Evidence, c: Conflict, d: Conflict)
    requires Expected(a, o, ev, c) && Expected(a, o, ev, d) && c.id == d.id
    ensures c == d
  {
  }

  lemma SortedConflicts(a: Events, o: Events, ev: Evidence, found: seq<Conflict>, cs: seq<Conflict>)
    requires NoDuplicates(found) && (forall c :: c in found <==> Expected(a, o, ev, c))
    requires cs == Sort(ConflictLeq, found)
    ensures IsClassification(a, o, ev, cs)
  {
    SortSorted(ConflictLeq, found);
    MultisetMembers(cs, found);
    DistinctCounts(found);
    DistinctCounts(cs);
    forall i, j | 0 <= i < j < |cs| ensures ListedBefore(cs[i], cs[j]) && cs[i].id != cs[j].id {
      var c, d := cs[i], cs[j];
      assert c in cs && d in cs && c != d && ConflictLeq(c, d);
      if c.id == d.id { OneConflict(a, o, ev, c, d); }
    }
  }

  // ----- what the classification means -----

  /** Every handle on either side either matches or has exactly one conflict. */
  lemma ClassificationPartitions(applied: Events, observed: Events, ev: Evidence, cs: seq<Conflict>, id: Id)
    requires IsClassification(applied, observed, ev, cs)
    ensures (exists c :: c in cs && c.id == id) <==>
              (id in applied || id in observed)
                  && !(id in applied && id in observed
                         && observed[id].(description := None) == applied[id].(description := None))
    ensures forall c, d :: c in cs && d in cs && c.id == id && d.id == id ==> c == d
  {
    if id in applied && (id !in observed || observed[id].(description := None) != applied[id].(description := None)) {
      var c := OwnedConflicts(applied, observed, id)[0];
      assert Expected(applied, observed, ev, c) && c.id == id;
    } else if id in observed && id !in applied {
      var c := OtherConflicts(applied, observed, ev, id)[0];
      assert Expected(applied, observed, ev, c) && c.id == id;
    }
    forall c, d | c in cs && d in cs && c.id == id && d.id == id ensures c == d {
      OneConflict(applied, observed, ev, c, d);
    }
  }

  /** Which conflicts a repair leaves standing. */
  ghost predicate Remains(c: Conflict)
  {
    c.kind.Foreign? || c.kind.Unrecorded?
  }

  /** Keep the owned events that still exist, as they are observed. */
  ghost function RepairOf(applied: Events, observed: Events): (r: Events)
  {
    map id | id in observed && id in applied :: observed[id]
  }

  function Repair(applied: seq<DesiredEvent>, observed: seq<DesiredEvent>): seq<DesiredEvent>
  {
    Values(ById(Filter((e: DesiredEvent) => e.id in ById(applied), observed)))
  }

  /** The repaired belief is the observed part of what was owned, sorted by handle. */
  lemma RepairIsRestriction(applied: seq<DesiredEvent>, observed: seq<DesiredEvent>)
    ensures StrictlyById(Repair(applied, observed))
    ensures ById(Repair(applied, observed)) == RepairOf(ById(applied), ById(observed))
  {
    FilteredById(ById(applied).Keys, observed);
    ValuesRoundTrip(ById(Filter((e: DesiredEvent) => e.id in ById(applied), observed)));
    FilterAgree((e: DesiredEvent) => e.id in ById(applied), (e: DesiredEvent) => e.id in ById(applied).Keys, observed);
  }

  ghost function Restrict(m: Events, ids: set<Id>): Events
  {
    map id | id in m && id in ids :: m[id]
  }

  lemma RestrictPut(m: Events, ids: set<Id>, e: DesiredEvent)
    ensures Restrict(m[e.id := e], ids) == if e.id in ids then Restrict(m, ids)[e.id := e] else Restrict(m, ids)
  {
  }

  lemma ByIdSnoc(front: seq<DesiredEvent>, last: DesiredEvent)
    ensures ById(front + [last]) == ById(front)[last.id := last]
  {
    assert (front + [last])[..|front|] == front;
  }

  lemma {:induction false} FilteredById(ids: set<Id>, events: seq<DesiredEvent>)
    ensures ById(Filter((e: DesiredEvent) => e.id in ids, events)) == Restrict(ById(events), ids)
  {
    if events != [] {
      var n := |events| - 1;
      var front, last := events[..n], events[n];
      assert events == front + [last];
      FilteredById(ids, front);
      var kept := Filter((e: DesiredEvent) => e.id in ids, front);
      FilterSnoc((e: DesiredEvent) => e.id in ids, front, last);
      ByIdSnoc(front, last);
      RestrictPut(ById(front), ids, last);
      if last.id in ids { ByIdSnoc(kept, last); } else { assert kept + [] == kept; }
    }
  }

  /** Classifying after a repair finds exactly the foreign and unrecorded conflicts of before, in the same order. */
  lemma RepairLeavesRest(applied: Events, observed: Events, ev: Evidence, cs: seq<Conflict>)
    requires IsClassification(applied, observed, ev, cs)
    ensures IsClassification(RepairOf(applied, observed), observed, ev, Filter(Remains, cs))
  {
    FilterListed(cs);
    forall c ensures c in Filter(Remains, cs) <==> Expected(RepairOf(applied, observed), observed, ev, c) {
      assert c in cs <==> Expected(applied, observed, ev, c);
    }
  }

  lemma {:induction false} FilterListed(cs: seq<Conflict>)
    requires StrictlyListed(cs)
    ensures StrictlyListed(Filter(Remains, cs))
  {
    if cs != [] {
      var rest := cs[1..];
      FilterListed(rest);
      var kept := Filter(Remains, rest);
      forall k | 0 <= k < |kept| ensures ListedBefore(cs[0], kept[k]) && cs[0].id != kept[k].id {
        assert kept[k] in kept && kept[k] in rest;
        var m :| 0 <= m < |rest| && rest[m] == kept[k];
        assert cs[m + 1] == rest[m];
      }
    }
  }

  /** Repairing twice changes nothing more. */
  lemma RepairIdempotent(applied: seq<DesiredEvent>, observed: seq<DesiredEvent>)
    ensures Repair(Repair(applied, observed), observed) == Repair(applied, observed)
  {
    var once := Repair(applied, observed);
    RepairIsRestriction(applied, observed);
    RepairIsRestriction(once, observed);
    RepairOfTwice(ById(applied), ById(observed));
    SameListing(Repair(once, observed), once);
  }

  lemma RepairOfTwice(applied: Events, observed: Events)
    ensures RepairOf(RepairOf(applied, observed), observed) == RepairOf(applied, observed)
  {
  }

  lemma SameListing(x: seq<DesiredEvent>, y: seq<DesiredEvent>)
    requires StrictlyById(x) && StrictlyById(y) && ById(x) == ById(y)
    ensures x == y
  {
    SortedIsValues(x);
    SortedIsValues(y);
  }

  /** A repair never keeps more events than were applied. */
  lemma RepairNeverGrows(applied: seq<DesiredEvent>, observed: seq<DesiredEvent>)
    ensures |Repair(applied, observed)| <= |applied|
  {
    var kept := Repair(applied, observed);
    RepairIsRestriction(applied, observed);
    var mine := Map((e: DesiredEvent) => e.id, applied);
    var theirs := Map((e: DesiredEvent) => e.id, kept);
    DistinctCardinality(mine);
    DistinctCardinality(theirs);
    assert NoDuplicates(theirs);
    forall id | id in Elements(theirs) ensures id in Elements(mine) {
      var e := FromMap((e: DesiredEvent) => e.id, kept, id);
      assert id in ById(kept);
      var a := ById(applied)[id];
      IntoMap((e: DesiredEvent) => e.id, applied, a);
    }
    SubsetCardinality(Elements(theirs), Elements(mine));
  }

  // ----- repair, then apply the whole diff -----

  /** No wanted event is on the calendar outside the record. */
  ghost predicate NothingInTheWay(desired: Events, applied: Events, observed: Events)
  {
    forall id :: id in desired && id in observed ==> id in applied
  }

  /** After a repair every operation of the diff lands exactly when nothing stands in the way. */
  lemma RepairedDiffLands(desired: Events, applied: Events, observed: Events, ops: seq<Operation>)
    requires Keyed(desired) && Keyed(observed) && IsDiff(desired, RepairOf(applied, observed), {}, ops)
    ensures (forall op :: op in ops ==> Accepts(observed, {}, op)) <==> NothingInTheWay(desired, applied, observed)
  {
    var record := RepairOf(applied, observed);
    if NothingInTheWay(desired, applied, observed) {
      forall op | op in ops ensures Accepts(observed, {}, op) {
        assert Needed(desired, record, {}, op);
      }
    } else {
      var id :| id in desired && id in observed && id !in applied;
      assert Needed(desired, record, {}, Create(desired[id]));
      assert !Accepts(observed, {}, Create(desired[id]));
    }
  }

  /** Then the calendar shows what is wanted, and everything foreign as it was. */
  lemma RepairThenApply(desired: Events, applied: Events, observed: Events, ops: seq<Operation>, id: Id)
    requires Keyed(desired) && Keyed(observed) && IsDiff(desired, RepairOf(applied, observed), {}, ops)
    requires NothingInTheWay(desired, applied, observed)
    ensures var after := ServeAll(observed, ops);
            && (id in desired ==> id in after && after[id].(description := None) == desired[id].(description := None))
            && (id !in desired ==> (id in after <==> id in observed && id !in applied))
            && (id in observed && id !in applied ==> id in after && after[id] == observed[id])
  {
    var record := RepairOf(applied, observed);
    DiffTargets(desired, record, {}, ops);
    ServedAt(observed, ops, id);
    RepairedAt(desired, applied, observed, ops, id);
  }

  lemma RepairedAt(desired: Events, applied: Events, observed: Events, ops: seq<Operation>, id: Id)
    requires Keyed(desired) && Keyed(observed) && IsDiff(desired, RepairOf(applied, observed), {}, ops)
    requires NothingInTheWay(desired, applied, observed)
    ensures id in desired
            && (id !in observed || observed[id].(description := None) != desired[id].(description := None)) ==>
              (if id in observed then Update(desired[id]) in ops else Create(desired[id]) in ops)
    ensures id !in desired && id in observed && id in applied ==> Delete(id, observed[id].summary) in ops
    ensures id in desired && id in observed
            && observed[id].(description := None) == desired[id].(description := None) ==>
              forall op :: op in ops ==> Target(op) != id
    ensures id !in desired && !(id in observed && id in applied) ==> forall op :: op in ops ==> Target(op) != id
  {
    var record := RepairOf(applied, observed);
    if id in desired {
      assert Create(desired[id]) in ops <==> Needed(desired, record, {}, Create(desired[id]));
      assert Update(desired[id]) in ops <==> Needed(desired, record, {}, Update(desired[id]));
    } else if id in observed {
      var gone := Delete(id, observed[id].summary);
      assert gone in ops <==> Needed(desired, record, {}, gone);
    }
  }
}
