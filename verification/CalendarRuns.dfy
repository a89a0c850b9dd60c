/** Whole runs of the Calendar protocol: what every sequence of its actions keeps. */
module CalendarRuns {
  import opened Basics
  import opened Sorting
  import opened Projection
  import opened CalendarClient
  import opened CalendarApply
  import opened CalendarReconcile
  import opened CalendarRecord

  /** Everything the protocol reads and writes. */
  datatype World = World(results: seq<Snapshot>, records: map<Id, Reconciliation>, calendar: Events)

  datatype Action =
    | Approving(preview: Preview, permits: set<Operation>, failIds: set<Id>)
    | Reconciling(key: Id, range: Range, known: set<Id>, unownable: set<Id>)
    | Repairing(key: Id)
    | Capturing(observed: seq<DesiredEvent>, accepted: seq<Id>, origins: seq<DesiredEvent>)
    | Outside(events: Events)

  ghost function Record(w: World): seq<DesiredEvent> { LastApplied(w.results) }

  ghost function RecordMap(w: World): Events { ById(LastApplied(w.results)) }

  /** Previews come from the diff and reconciliations are stored under new handles. */
  ghost predicate Possible(w: World, a: Action)
  {
    match a
    case Approving(p, _, _) => FromDiff(p)
    case Reconciling(key, _, _, _) => key !in w.records
    case _ => true
  }

  /** The operations of an approval that land, if it is not refused. */
  ghost function LandedNow(w: World, a: Action): (r: seq<Operation>)
  {
    if a.Approving? && a.preview.existing == Record(w)
    then Landed(a.permits, w.calendar, a.failIds, a.preview.operations) else []
  }

  ghost predicate ApproveStep(w: World, p: Preview, permits: set<Operation>, failIds: set<Id>, w': World)
  {
    if p.existing != Record(w) then w' == w
    else
      var landed := Landed(permits, w.calendar, failIds, p.operations);
      && w'.calendar == ServeAll(w.calendar, landed) && w'.records == w.records
      && w'.results == w.results
          + [Snapshot(BatchStatus(p.operations, landed), Values(LandAll(ById(p.existing), landed)))]
  }

  ghost predicate ReconcileStep(w: World, key: Id, range: Range, w': World)
  {
    exists rec, ev :: w' == w.(records := w.records[key := rec])
        && OwnReconciliation(Record(w), range, w.calendar, ev, rec)
  }

  ghost predicate RepairStep(w: World, key: Id, w': World)
  {
    if key !in w.records || w.records[key].repaired then w' == w
    else
      var rec := w.records[key];
      w' == w.(results := w.results + [Snapshot(Applied, RepairedRecord(rec))],
               records := w.records[key := rec.(repaired := true)])
  }

  ghost predicate CaptureStep(w: World, observed: seq<DesiredEvent>, accepted: seq<Id>, origins: seq<DesiredEvent>,
                              w': World)
  {
    if accepted == [] && origins == [] then w' == w
    else exists events ::
        CapturedAs(Record(w), observed, accepted, origins, events)
        && w' == w.(results := w.results + [Snapshot(Applied, events)])
  }

  /** One action, atomic under the projection lock. */
  ghost predicate Step(w: World, a: Action, w': World)
  {
    match a
    case Approving(p, permits, failIds) => ApproveStep(w, p, permits, failIds, w')
    case Reconciling(key, range, _, _) => ReconcileStep(w, key, range, w')
    case Repairing(key) => RepairStep(w, key, w')
    case Capturing(observed, accepted, origins) => CaptureStep(w, observed, accepted, origins, w')
    case Outside(events) => w' == w.(calendar := events)
  }

  /** The services, run on shared stores, take exactly these steps. */
  method Perform(store: ResultStore, recs: ReconciliationStore, client: RecordingCalendar, a: Action)
    requires Possible(World(store.results, recs.records, client.events), a)
    requires UniqueById(LastApplied(store.results))
    modifies store, recs, client
    ensures Step(World(old(store.results), old(recs.records), old(client.events)), a,
                 World(store.results, recs.records, client.events))
  {
    match a {
      case Approving(p, permits, failIds) =>
        client.failIds := failIds;
        var r := Approve(store, client, p, permits);
      case Reconciling(key, range, known, unownable) =>
        ghost var w := World(store.results, recs.records, client.events);
        ghost var rec, ev;
        var conflicts;
        conflicts, rec, ev := Reconcile(store, recs, client, range, known, unownable, key);
        Reconciled(w, key, range, rec, ev);
      case Repairing(key) =>
        var r := RepairRecord(store, recs, key);
      case Capturing(observed, accepted, origins) =>
        ghost var events := CaptureRecord(store, observed, accepted, origins);
      case Outside(events) =>
        client.events := events;
    }
  }

  lemma Reconciled(w: World, key: Id, range: Range, rec: Reconciliation, ev: Evidence)
    requires OwnReconciliation(Record(w), range, w.calendar, ev, rec)
    ensures ReconcileStep(w, key, range, w.(records := w.records[key := rec]))
  {
  }

  // ----- what every step keeps -----

  /** Every stored record is sorted by handle without repetition, and every reconciliation splits such a record. */
  ghost predicate Good(w: World)
  {
    && (forall i :: 0 <= i < |w.results| ==> StrictlyById(w.results[i].events))
    && (forall key :: key in w.records ==> Parted(w.records[key]))
  }

  lemma {:induction false} LastIsStored(results: seq<Snapshot>)
    requires forall i :: 0 <= i < |results| ==> StrictlyById(results[i].events)
    ensures StrictlyById(LastApplied(results))
  {
    if results != [] { LastIsStored(results[..|results| - 1]); }
  }

  lemma {:induction false} LandKeyed(record: Events, ops: seq<Operation>)
    requires Keyed(record)
    ensures Keyed(LandAll(record, ops))
    decreases ops
  {
    if ops != [] { LandKeyed(Land(record, ops[0]), ops[1..]); }
  }

  lemma ApproveKeeps(w: World, p: Preview, permits: set<Operation>, failIds: set<Id>, w': World)
    requires Good(w) && ApproveStep(w, p, permits, failIds, w')
    ensures Good(w')
  {
    var landed := Landed(permits, w.calendar, failIds, p.operations);
    LandKeyed(ById(p.existing), landed);
    ValuesRoundTrip(LandAll(ById(p.existing), landed));
  }

  lemma ReconcileKeeps(w: World, key: Id, range: Range, w': World)
    requires Good(w) && ReconcileStep(w, key, range, w')
    ensures Good(w')
  {
    LastIsStored(w.results);
    var rec, ev :| w' == w.(records := w.records[key := rec])
        && OwnReconciliation(Record(w), range, w.calendar, ev, rec);
    OwnIsParted(Record(w), range, w.calendar, ev, rec);
  }

  lemma RepairKeeps(w: World, key: Id, w': World)
    requires Good(w) && RepairStep(w, key, w')
    ensures Good(w')
  {
    if key in w.records && !w.records[key].repaired {
      var rec := w.records[key];
      RepairedIs(rec);
      var after := rec.(repaired := true);
      assert Parted(after) && w'.records == w.records[key := after];
      ResultAdded(w.results, w'.results, RepairedRecord(rec));
    }
  }

  lemma ResultAdded(results: seq<Snapshot>, results': seq<Snapshot>, events: seq<DesiredEvent>)
    requires (forall i :: 0 <= i < |results| ==> StrictlyById(results[i].events)) && StrictlyById(events)
    requires |results'| == |results| + 1 && results'[..|results|] == results && results'[|results|].events == events
    ensures forall i :: 0 <= i < |results'| ==> StrictlyById(results'[i].events)
  {
    forall i | 0 <= i < |results'| ensures StrictlyById(results'[i].events) {
      if i < |results| { assert results'[i] == results'[..|results|][i]; }
    }
  }

  lemma StepKeeps(w: World, a: Action, w': World)
    requires Good(w) && Step(w, a, w')
    ensures Good(w')
  {
    match a {
      case Approving(p, permits, failIds) => ApproveKeeps(w, p, permits, failIds, w');
      case Reconciling(key, range, _, _) => ReconcileKeeps(w, key, range, w');
      case Repairing(key) => RepairKeeps(w, key, w');
      case Capturing(observed, accepted, origins) =>
      case Outside(events) =>
    }
  }

  ghost predicate Linked(ws: seq<World>, actions: seq<Action>, i: nat)
    requires |ws| == |actions| + 1 && i < |actions|
  {
    Possible(ws[i], actions[i]) && Step(ws[i], actions[i], ws[i + 1])
  }

  /** A run: worlds linked by possible actions. */
  ghost predicate Run(ws: seq<World>, actions: seq<Action>)
  {
    |ws| == |actions| + 1 && forall i :: 0 <= i < |actions| ==> Linked(ws, actions, i)
  }

  lemma RunPrefix(ws: seq<World>, actions: seq<Action>)
    requires Run(ws, actions) && actions != []
    ensures Run(ws[..|ws| - 1], actions[..|actions| - 1])
    ensures Step(ws[|ws| - 2], actions[|actions| - 1], ws[|ws| - 1]) && Possible(ws[|ws| - 2], actions[|actions| - 1])
  {
    var n := |actions| - 1;
    var before, earlier := ws[..|ws| - 1], actions[..n];
    forall i | 0 <= i < n ensures Linked(before, earlier, i) { assert Linked(ws, actions, i); }
    assert Linked(ws, actions, n);
  }

  /** Over every run of all actions the record read back is strictly sorted by handle. */
  lemma {:induction false} RecordAlwaysSorted(ws: seq<World>, actions: seq<Action>)
    requires Run(ws, actions) && Good(ws[0])
    ensures Good(ws[|ws| - 1]) && StrictlyById(Record(ws[|ws| - 1]))
    decreases |actions|
  {
    if actions != [] {
      RunPrefix(ws, actions);
      RecordAlwaysSorted(ws[..|ws| - 1], actions[..|actions| - 1]);
      StepKeeps(ws[|ws| - 2], actions[|actions| - 1], ws[|ws| - 1]);
    }
    LastIsStored(ws[|ws| - 1].results);
  }

  // ----- a reconciliation is repaired at most once -----

  lemma RepairedStays(w: World, a: Action, w': World, key: Id)
    requires Possible(w, a) && Step(w, a, w') && key in w.records && w.records[key].repaired
    ensures key in w'.records && w'.records[key].repaired
    ensures a == Repairing(key) ==> w' == w
  {
  }

  /** Once repaired, a reconciliation never rewrites the record again. */
  lemma {:induction false} RepairedForGood(ws: seq<World>, actions: seq<Action>, i: nat, k: nat, key: Id)
    requires Run(ws, actions) && i <= k < |actions| && key in ws[i].records && ws[i].records[key].repaired
    ensures key in ws[k].records && ws[k].records[key].repaired
    ensures actions[k] == Repairing(key) ==> ws[k + 1] == ws[k]
    decreases k
  {
    if i < k {
      RepairedForGood(ws, actions, i, k - 1, key);
      assert Linked(ws, actions, k - 1);
      RepairedStays(ws[k - 1], actions[k - 1], ws[k], key);
    }
    assert Linked(ws, actions, k);
    RepairedStays(ws[k], actions[k], ws[k + 1], key);
  }

  // ----- the record is the fold of what landed -----

  lemma {:induction false} LandAppend(record: Events, a: seq<Operation>, b: seq<Operation>)
    ensures LandAll(record, a + b) == LandAll(LandAll(record, a), b)
    decreases a
  {
    if a == [] {
      assert a + b == b;
    } else {
      assert (a + b)[1..] == a[1..] + b;
      LandAppend(Land(record, a[0]), a[1..], b);
    }
  }

  ghost predicate LeavesRecord(a: Action) { a.Approving? || a.Reconciling? || a.Outside? }

  /**
   * After an approval the record read back is the old one with exactly the landed operations, failed batches included.
   */
  lemma ApprovalFolds(w: World, a: Action, w': World)
    requires Step(w, a, w') && LeavesRecord(a)
    ensures RecordMap(w') == LandAll(RecordMap(w), LandedNow(w, a))
  {
    if a.Approving? && a.preview.existing == Record(w) {
      var landed := LandedNow(w, a);
      var s := Snapshot(BatchStatus(a.preview.operations, landed), Values(LandAll(RecordMap(w), landed)));
      LastAppliedSnoc(w.results, s);
      LandKeyed(RecordMap(w), landed);
      ValuesRoundTrip(LandAll(RecordMap(w), landed));
    }
  }

  ghost function LandedIn(ws: seq<World>, actions: seq<Action>): seq<Operation>
    requires |ws| == |actions| + 1
    decreases |actions|
  {
    if actions == [] then []
    else LandedIn(ws[..|ws| - 1], actions[..|actions| - 1]) + LandedNow(ws[|ws| - 2], actions[|actions| - 1])
  }

  lemma FoldOneMore(start: Events, landed: seq<Operation>, w: World, a: Action, w': World)
    requires RecordMap(w) == LandAll(start, landed) && Step(w, a, w') && LeavesRecord(a)
    ensures RecordMap(w') == LandAll(start, landed + LandedNow(w, a))
  {
    ApprovalFolds(w, a, w');
    LandAppend(start, landed, LandedNow(w, a));
  }

  /**
   * Over any run of approvals, whatever the calendar does meanwhile, the record is the fold of every landed operation.
   */
  lemma {:induction false} RecordIsFold(ws: seq<World>, actions: seq<Action>)
    requires Run(ws, actions) && forall i :: 0 <= i < |actions| ==> LeavesRecord(actions[i])
    ensures RecordMap(ws[|ws| - 1]) == LandAll(RecordMap(ws[0]), LandedIn(ws, actions))
    decreases |actions|
  {
    if actions == [] {
      NothingFolded(ws);
    } else {
      RunPrefix(ws, actions);
      RecordIsFold(ws[..|ws| - 1], actions[..|actions| - 1]);
      FoldLonger(ws, actions);
    }
  }

  lemma NothingFolded(ws: seq<World>)
    requires |ws| == 1
    ensures RecordMap(ws[0]) == LandAll(RecordMap(ws[0]), LandedIn(ws, []))
  {
  }

  lemma {:induction false} FoldLonger(ws: seq<World>, actions: seq<Action>)
    requires |ws| == |actions| + 1 && actions != [] && LeavesRecord(actions[|actions| - 1])
    requires Step(ws[|ws| - 2], actions[|actions| - 1], ws[|ws| - 1])
    requires RecordMap(ws[|ws| - 2]) ==
             LandAll(RecordMap(ws[0]), LandedIn(ws[..|ws| - 1], actions[..|actions| - 1]))
    ensures RecordMap(ws[|ws| - 1]) == LandAll(RecordMap(ws[0]), LandedIn(ws, actions))
  {
    var landed := LandedIn(ws[..|ws| - 1], actions[..|actions| - 1]);
    FoldOneMore(RecordMap(ws[0]), landed, ws[|ws| - 2], actions[|actions| - 1], ws[|ws| - 1]);
  }

  // ----- the record and the calendar stay in step -----

  /** What stays true of one event UbU never recorded. */
  ghost predicate Foreign(w: World, id: Id, e: DesiredEvent)
  {
    id in w.calendar && w.calendar[id] == e && id !in RecordMap(w)
  }

  lemma LandedShape(w: World, a: Action)
    requires Possible(w, a) && a.Approving?
    ensures DistinctTargets(LandedNow(w, a))
    ensures forall op :: op in LandedNow(w, a) ==> op in a.preview.operations && Accepts(w.calendar, a.failIds, op)
  {
    PreviewShape(a.preview);
    FilterTargets((op: Operation) => Lands(a.permits, w.calendar, a.failIds, op), a.preview.operations);
  }

  lemma ApprovalKeepsStep(w: World, a: Action, w': World)
    requires Possible(w, a) && Step(w, a, w') && a.Approving?
    ensures Agree(RecordMap(w), w.calendar) ==> Agree(RecordMap(w'), w'.calendar)
    ensures forall id, e :: Foreign(w, id, e) <==> Foreign(w', id, e)
  {
    ApprovalFolds(w, a, w');
    if a.preview.existing == Record(w) {
      var landed := LandedNow(w, a);
      LandedShape(w, a);
      if Agree(RecordMap(w), w.calendar) { AgreeKept(RecordMap(w), w.calendar, a.failIds, landed); }
      forall id, e ensures Foreign(w, id, e) <==> Foreign(w', id, e) {
        ForeignUntouched(a.preview, w.calendar, a.failIds, landed, id);
      }
    }
  }

  /**
   * Under any failure pattern, over any run of approvals: agreement holds and the foreign events are exactly those of
   * the start.
   */
  lemma {:induction false} Lockstep(ws: seq<World>, actions: seq<Action>)
    requires Run(ws, actions) && forall i :: 0 <= i < |actions| ==> actions[i].Approving?
    ensures Steady(ws[0], ws[|ws| - 1])
    decreases |actions|
  {
    if actions != [] {
      var w, now := ws[|ws| - 2], ws[|ws| - 1];
      RunPrefix(ws, actions);
      Lockstep(ws[..|ws| - 1], actions[..|actions| - 1]);
      ApprovalIsSteady(w, actions[|actions| - 1], now);
      SteadyThrough(ws[0], w, now);
    }
  }

  /** Agreement survives, and the foreign events are the same. */
  ghost predicate Steady(w: World, w': World)
  {
    && (Agree(RecordMap(w), w.calendar) ==> Agree(RecordMap(w'), w'.calendar))
    && (forall id, e :: Foreign(w, id, e) <==> Foreign(w', id, e))
  }

  lemma SteadyThrough(a: World, b: World, c: World)
    requires Steady(a, b) && Steady(b, c)
    ensures Steady(a, c)
  {
  }

  lemma ApprovalIsSteady(w: World, a: Action, w': World)
    requires a.Approving? && Possible(w, a) && Step(w, a, w')
    ensures Steady(w, w')
  {
    ApprovalKeepsStep(w, a, w');
  }

  // ----- repair: right away, and too late -----

  lemma KeptById(p: DesiredEvent -> bool, events: seq<DesiredEvent>, id: Id)
    requires StrictlyById(events)
    ensures id in ById(Filter(p, events)) <==> id in ById(events) && p(ById(events)[id])
    ensures id in ById(Filter(p, events)) ==> ById(Filter(p, events))[id] == ById(events)[id]
  {
    var kept, all := ById(Filter(p, events)), ById(events);
    if id in kept {
      StrictSame(events, kept[id], all[id]);
    }
    if id in all && p(all[id]) {
      assert all[id] in Filter(p, events);
    }
  }

  /** Repaired at once, the record keeps what was out of range, takes what is observed and forgets what is gone. */
  lemma RepairAtOnce(w: World, key: Id, range: Range, known: set<Id>, unownable: set<Id>, w': World, w'': World, id: Id)
    requires Good(w) && Possible(w, Reconciling(key, range, known, unownable))
    requires Step(w, Reconciling(key, range, known, unownable), w') && Step(w', Repairing(key), w'')
    ensures key in w'.records
    ensures var record, after, seen := RecordMap(w), RecordMap(w''), ById(w'.records[key].observed);
            && (id in after <==> id in record && (!range.Meets(record[id]) || id in seen))
            && (id in after ==> after[id] == if range.Meets(record[id]) then seen[id] else record[id])
  {
    var rec, ev :| w' == w.(records := w.records[key := rec])
        && OwnReconciliation(Record(w), range, w.calendar, ev, rec);
    LastIsStored(w.results);
    OwnIsParted(Record(w), range, w.calendar, ev, rec);
    LastAppliedSnoc(w'.results, Snapshot(Applied, RepairedRecord(rec)));
    RepairedAtId(Record(w), range, rec, id);
  }

  lemma RepairedAtId(record: seq<DesiredEvent>, range: Range, rec: Reconciliation, id: Id)
    requires StrictlyById(record) && Parted(rec)
    requires rec.applied == Filter((e: DesiredEvent) => range.Meets(e), record)
    requires rec.outOfRange == Filter((e: DesiredEvent) => !range.Meets(e), record)
    ensures var was, after, seen := ById(record), ById(RepairedRecord(rec)), ById(rec.observed);
            && (id in after <==> id in was && (!range.Meets(was[id]) || id in seen))
            && (id in after ==> after[id] == if range.Meets(was[id]) then seen[id] else was[id])
  {
    RepairedIs(rec);
    KeptById((e: DesiredEvent) => range.Meets(e), record, id);
    KeptById((e: DesiredEvent) => !range.Meets(e), record, id);
  }

  /** Repaired after another approval, the record forgets what landed in between: the observation is not rechecked. */
  lemma LateRepairForgets(e: DesiredEvent, key: Id, range: Range)
    returns (ws: seq<World>, actions: seq<Action>)
    ensures Run(ws, actions) && |actions| == 3 && ws[0] == World([], map[], map[])
    ensures actions[0].Reconciling? && actions[1].Approving? && actions[2] == Repairing(key)
    ensures e.id in RecordMap(ws[2]) && e.id in ws[3].calendar && e.id !in RecordMap(ws[3])
  {
    var rec := Reconciliation(false, [], [], [], []);
    var p := Preview([], [Create(e)]);
    var w0 := World([], map[], map[]);
    var w1 := World([], map[key := rec], map[]);
    NothingReconciled(key, range, rec);
    CreatePreview(e, p);
    var w2 := AfterCreate(w1, e, p);
    var w3 := AfterRepair(w2, key, rec);
    ws, actions := RunOfThree(w0, Reconciling(key, range, {}, {}), w1, Approving(p, {Create(e)}, {}), w2,
        Repairing(key), w3);
  }

  lemma RunOfThree(w0: World, a: Action, w1: World, b: Action, w2: World, c: Action, w3: World)
    returns (ws: seq<World>, actions: seq<Action>)
    requires Possible(w0, a) && Step(w0, a, w1) && Possible(w1, b) && Step(w1, b, w2) && Possible(w2, c)
    requires Step(w2, c, w3)
    ensures ws == [w0, w1, w2, w3] && actions == [a, b, c] && Run(ws, actions)
  {
    ws, actions := [w0, w1, w2, w3], [a, b, c];
    forall i | 0 <= i < |actions| ensures Linked(ws, actions, i) {
      if i == 0 {
        assert Linked(ws, actions, 0);
      } else if i == 1 {
        assert Linked(ws, actions, 1);
      } else {
        assert i == 2;
      }
    }
  }

  lemma NothingReconciled(key: Id, range: Range, rec: Reconciliation)
    requires rec == Reconciliation(false, [], [], [], [])
    ensures ReconcileStep(World([], map[], map[]), key, range, World([], map[key := rec], map[]))
  {
    var w0, ev := World([], map[], map[]), Evidence({}, {}, {});
    assert Values(map[]) == [];
    assert OwnReconciliation(Record(w0), range, map[], ev, rec);
    assert w0.records[key := rec] == map[key := rec];
    Reconciled(w0, key, range, rec, ev);
  }

  lemma CreatePreview(e: DesiredEvent, p: Preview)
    requires p == Preview([], [Create(e)])
    ensures FromDiff(p)
  {
    var ops := [Create(e)];
    var keep := (op: Operation) => true;
    assert ById([]) == map[];
    assert IsDiff(map[e.id := e], ById(p.existing), {}, ops);
    assert Filter(keep, ops) == ops;
    assert PartOfDiff(p, map[e.id := e], {}, keep);
  }

  lemma AfterRepair(w: World, key: Id, rec: Reconciliation) returns (w': World)
    requires rec == Reconciliation(false, [], [], [], []) && key in w.records && w.records[key] == rec
    ensures RepairStep(w, key, w') && RecordMap(w') == map[] && w'.calendar == w.calendar
  {
    w' := w.(results := w.results + [Snapshot(Applied, RepairedRecord(rec))],
             records := w.records[key := rec.(repaired := true)]);
    EmptyRepair(rec);
    LastAppliedSnoc(w.results, Snapshot(Applied, RepairedRecord(rec)));
  }

  lemma EmptyRepair(rec: Reconciliation)
    requires rec == Reconciliation(false, [], [], [], [])
    ensures RepairedRecord(rec) == []
  {
    assert Values(map[]) == [];
    assert Repair([], []) + [] == [];
  }

  lemma OneCreate(e: DesiredEvent)
    ensures Landed({Create(e)}, map[], {}, [Create(e)]) == [Create(e)]
    ensures LandAll(map[], [Create(e)]) == map[e.id := e] && e.id in ServeAll(map[], [Create(e)])
  {
    var ops := [Create(e)];
    assert ops[1..] == [];
    assert LandAll(map[], ops) == LandAll(Land(map[], Create(e)), []);
    assert ServeAll(map[], ops) == ServeAll(Serve(map[], Create(e)), []);
  }

  lemma AfterCreate(w: World, e: DesiredEvent, p: Preview) returns (w': World)
    requires w.results == [] && w.calendar == map[] && p == Preview([], [Create(e)])
    ensures ApproveStep(w, p, {Create(e)}, {}, w')
    ensures e.id in RecordMap(w') && e.id in w'.calendar && w'.records == w.records
  {
    OneCreate(e);
    assert ById(p.existing) == map[];
    var record: Events := map[e.id := e];
    var s := Snapshot(BatchStatus(p.operations, [Create(e)]), Values(record));
    w' := World(w.results + [s], w.records, ServeAll(w.calendar, [Create(e)]));
    LastAppliedSnoc(w.results, s);
    ValuesRoundTrip(record);
  }
}
