# Verification of the planning compiler, the Calendar protocol and the Task lifecycle

This project models the deterministic middle of the orchestrator in Dafny and proves what it keeps.
`dafny verify dfyconfig.toml` checks all of it.

## What is modelled

**Compiling a planning request and taking the plan apart again** (`src/services/planning_service.rs`).
Participating Tasks go through the passes in their order: edges between fixed commitments that cannot
hold are dropped (`StaticEdges`), each unstarted segment of a decomposition becomes one carrier Task
(`Segments`, `Compile`), overlapping commitments become one busy span with an in-place union-find
(`UnionFind`, `Clusters`), windows are pushed past prerequisites that are not planned and Tasks without
room are left out (`Exclusion`, `Spans`, `Seating`), whatever depends on something left out goes too
(`Dependents`), dangling edges are pruned and observed durations applied (`Pipeline`), and the
dependency graph is ordered (`TaskGraph`, `Requests`). The kernel is opaque: a schedule is *valid* for a
request when it honours anchors, windows, placement lengths and edges and overlaps nothing
(`Meaning.ValidSchedule`). `Expand` and `Restore` turn such a schedule back into steps of the original
Tasks. The main theorem is `Restore.RoundTrip`: every valid schedule of the compiled request expands,
without overflow or drift, into a plan that is right for the original Tasks.

**Keeping the external Calendar in step** (`calendar_projection.rs`, `calendar_apply.rs`,
`calendar_client.rs`, `calendar_reconcile.rs`, `calendar_reconciliation_service.rs`,
`calendar_capture.rs`). `Projection` is the diff, `CalendarClient` the external calendar that can refuse
any single operation, `CalendarApply` the approval of a preview, `CalendarReconcile` drift
classification and repair, `CalendarRecord` the other writers of the applied record, and `CalendarRuns`
the protocol as a state machine with what every run keeps.

**Evidence and lifecycle** (`duration_model.rs`, `log_service.rs`, `calendar_interaction.rs`,
`decomposition.rs`). `Durations` pairs starts with completions and derives estimates, `Lifecycle` is the
complete/reopen machine driven from app and Calendar, `Gestures` reads observed events, and
`Decomposition` accepts segments and resolves how children wait for each other.

Handles are integers of which only equality and order matter; planning seconds are unsigned 64-bit
numbers and overflow is modelled; wall-clock evidence is signed 64-bit. Methods stand for code that
updates state or loops; each is proved against predicates and functions that the lemmas then reason
about. `ghost` out-parameters of the passes name the intermediate requests for the proofs.

Some results say where the code does less than one might expect, each with a concrete input and with the exact
condition under which it does meet the property:

- Order. Fusing can make an acyclic set of Tasks impossible to order, both when overlapping commitments become one
  span (`ClusterLimits.OverlapCanCloseCycle`) and when a segment becomes one unit (`Limits.FusingCrosses`: children
  1 and 2 of one segment, and work 3 that waits for 1 and that 2 waits for; editing `blocked_by` reaches this,
  since `src/services/task_capture.rs:20` lets it change without looking for cycles). The request can be ordered
  exactly when the Tasks it plans have no closed chain of waits and hops (`Chains.RequestOrderedExactly`,
  `Chains.ClusteredOrderedExactly`). A hop leads from a Task to one fused or reserved under it. A wait that a
  commitment's fixed time rules out does not count, nor one on a covered commitment, nor one among Tasks that are
  planned as one; a wait on a fused child counts for its whole unit. All of this is told from the input.
- Due dates. Only fusing reads `due_at` (`src/services/planning_service.rs:3014`), so a Dynamic Task outside a unit
  can be scheduled past it (`Limits.DueMissed`). It is kept in every valid schedule exactly when no placement in the
  pushed window, clear of the reserved spans and in order with the commitments, ends later
  (`DueDates.DueKeptExactly`), for instance when the window ends by then (`DueDates.DueKeptByWindow`).
- Siblings. Inside a unit children run in the segment's order whatever they wait for, so a child that waits for a
  later one runs before it (`Limits.SiblingOutOfOrder`). Decomposing stores no such edge
  (`Decomposition.ResolvedLooksBack`), but editing `blocked_by` afterwards can, and an edge inside a unit is kept
  exactly when it points back (`Preservation.InsideUnitExactly`).
- Contiguity. The check after planning can report a compiled segment, namely when an earlier child was edited into a
  commitment without capacity (`Limits.CompiledYetScattered`, and exactly when in
  `Scatter.CompiledScatteredExactly`).
- Repair. A repair writes from its stored observation without looking at the record again, so an approval between
  reconciliation and repair is forgotten (`CalendarRuns.LateRepairForgets`). Directly after its own
  reconciliation it is exact (`CalendarRuns.RepairAtOnce`), and later it is right exactly when the events
  out of range and the ownership of the observed ones have not changed (`CalendarRecord.LateRepairExactly`).
- Effects. They are applied at most once, but the comment at `src/services/log_service.rs:68-71` that an earlier
  completion means the Task completed and was reopened does not hold: a `done` entry of the older endpoint counts
  too, and then they are never applied (`Lifecycle.LegacyDoneHidesEffects`). They are applied exactly when the
  oldest completion on record is one of the transitions' (`Lifecycle.EffectsAtMostOnce`).
- Gestures. An accepted undo can be followed by one resize from the same observation (`Gestures.UndoThenResize`),
  exactly when the observed length is not the declared one (`Gestures.AcceptedGestureIsQuiet`).

## Model

| member | source | states |
|---|---|---|
| `Spans.EarliestFit` | src/services/planning_service.rs:2637-2661 | the result lies in the window, clear of every occupied span, and no earlier placement of that length does; no result means no placement exists, overflow included; occupied spans may overlap and nothing is assumed of the window |
| `Spans.HasFreeGap` | src/services/planning_service.rs:2662-2664 | answers exactly whether any placement of the length exists |
| `Spans.OverlapIsSharedInstant` | src/services/planning_service.rs:2753 | two proper spans overlap by the code's comparison exactly when they share an instant |
| `TaskGraph.BuildTaskGraph` | src/services/planning_service.rs:1461-1525 | succeeds exactly for unique handles, duplicate-free edges among the given Tasks and no cycle; the order is then a permutation with every edge forward, and at each place stands, of all Tasks ready there, a mandatory one before an optional one, then the one with the smaller priority number (0 if it has none), then with the earlier deadline (the greatest 64-bit time if it has none), then with the smaller handle |
| `TaskGraph.Drain` | src/services/planning_service.rs:1488-1509 | the ready-set loop never takes an indegree below zero and stops only when nothing open is left |
| `TaskGraph.OrderIgnoresListing` | src/services/planning_service.rs:1493-1509 | two listings of the same Tasks are ordered the same way |
| `Graphs.ForwardIsAcyclic` | src/services/planning_service.rs:1511-1516 | a forward order of all nodes rules out every cycle |
| `Graphs.StuckHasCycle` | src/services/planning_service.rs:1511-1516 | a nonempty set in which everything waits for something in it contains a cycle |
| `Requests.RequestIsWellFormed` | src/services/planning_service.rs:876-882 | whatever the input, the request has unique handles and duplicate-free edges among its own Tasks, so only a cycle can make ordering fail |
| `Requests.PlanRequest` | src/services/planning_service.rs:986-990 | the request is ordered exactly when the Tasks it plans have no closed chain of waits and hops, so always when the participating Tasks have none; on failure such a chain is named |
| `Chains.RequestOrderedExactly` | src/services/planning_service.rs:2923-3097 | told from the participating Tasks alone, for segments and overlapping commitments together: the request is acyclic exactly when no chain of waits, and of hops to what is fused or reserved under a Task, closes |
| `Chains.ClusteredOrderedExactly` | src/services/planning_service.rs:2727-2847 | the same for all compiled and clustered Tasks, before any is left out |
| `Chains.CycleIsChain` | src/services/planning_service.rs:986-990 | every cycle of the request comes from a closed chain through the same Task |
| `Chains.WithoutFusing` | src/services/planning_service.rs:986-990 | where nothing is fused an acyclic set of Tasks can be ordered |
| `Contraction.ContractionAcyclic` | src/services/planning_service.rs:3086-3095 | drawing nodes together under stand-ins leaves a graph acyclic exactly when the original edges and hops close no chain |
| `Limits.CrossedIsOrdered` | src/services/planning_service.rs:2931-2945 | a concrete acyclic input whose children wait for earlier ones only |
| `Limits.FusingCrosses` | src/services/planning_service.rs:2923-3097 | the finished request of that input has a cycle, closed by fusing the segment |
| `Seating.UnseatableMandatory` | src/services/planning_service.rs:2674-2725 | terminates; seats lie in their windows, clear of fixed spans and each other, after every settled prerequisite; a failure has a failed prerequisite or no room in what is left; the pass is greedy: of all due Tasks the one whose window ends first (the greatest 64-bit time without a window), then the one with the smaller handle, gets the earliest seat there is; leftovers wait for leftovers |
| `Seating.UnsettledMeansCycle` | src/services/planning_service.rs:2723 | each Task left unsettled sits on a dependency cycle among the unsettled or reaches one by its prerequisites |
| `Seating.AcyclicSeatsAll` | src/services/planning_service.rs:2674-2725 | without cycles the seats are a complete schedule of everything not reported |
| `Seating.SeatingIgnoresListing` | src/services/planning_service.rs:2674-2684 | seats and failures do not depend on how the Tasks are listed |
| `UnionFind.Root` | src/services/planning_service.rs:2732-2738 | path halving terminates, returns the root and changes no root of any element |
| `UnionFind.Union` | src/services/planning_service.rs:2755-2757 | joins exactly the two groups and leaves every other group alone |
| `Clusters.JoinOverlaps` | src/services/planning_service.rs:2739-2760 | after the double loop two Tasks have one root exactly when a chain of overlapping Static Tasks joins them |
| `Clusters.CommittedClusters` | src/services/planning_service.rs:2727-2847 | each connected group is one entry under the handle of its earliest member, of several the one that ends last, then the one with the smallest handle, spanning to the latest end with the group's outside prerequisites; the rest is covered unchanged and each carrier's own window is kept |
| `ClusterFacts.EveryTaskOnce` | src/services/planning_service.rs:2831-2843 | every Task survives exactly once, as an entry whose original window can be restored or covered unchanged; Dynamic Tasks are untouched |
| `ClusterFacts.BusyTimeUnchanged` | src/services/planning_service.rs:2740-2842 | the busy instants after clustering are exactly those before |
| `ClusterFacts.CommitmentsDisjoint` | src/services/planning_service.rs:2749-2758 | the commitments handed to the kernel never overlap |
| `ClusterFacts.FusedSpansDisjoint` | src/services/planning_service.rs:2812-2840 | the spans of different groups share no instant |
| `ClusterLimits.OverlapCanCloseCycle` | src/services/planning_service.rs:2727-2847 | a concrete acyclic set of Tasks whose clustered request has a cycle |
| `StaticEdges.CollectDrops` | src/services/planning_service.rs:711-753 | an edge of a participating Static Task is dropped exactly when its prerequisite ends after the Task starts and both are mandatory or neither window lies inside the other, equal windows counting as not |
| `StaticEdges.DropEdges` | src/services/planning_service.rs:759-762 | exactly the collected edges disappear and nothing else changes |
| `Anchors.AnchorsHold` | src/services/planning_service.rs:704-708 | the kernel is never handed an anchor it would refuse: every Static-to-Static edge of the request has the prerequisite's reserved span ending by the dependent's anchor, although spans were widened and edges inherited |
| `Anchors.SurvivingEdgeHolds` | src/services/planning_service.rs:709-753 | an edge that survived the first pass holds, or joins the two commitments in one span |
| `SegmentRanges.RangesTile` | src/services/decomposition.rs:101-113 | increasing interior split points cut the list into nonempty ranges without gap |
| `SegmentRanges.RangeAt` | src/services/decomposition.rs:101-113 | the first segment begins the list, the last ends it, and every split point ends one segment and begins the next |
| `SegmentRanges.Segments` | src/services/decomposition.rs:101-113 | the cut computed with a running start is the recursive one |
| `Segments.FuseMembers` | src/services/planning_service.rs:2969-3064 | a unit forms exactly when every member allows it, all four totals fit 64 bits and the kernel takes the summed model; its window is exactly what all members allow and its edges are the members' outside prerequisites |
| `Segments.AddUp` | src/services/planning_service.rs:2985-3009 | checked sums are the member totals, or report that some total leaves 64 bits |
| `Segments.SharedWindow` | src/services/planning_service.rs:3010-3016 | the window admits exactly the starts and ends that every member's window and due date admit |
| `Segments.UnitPlacement` | src/services/planning_service.rs:3137-3141 | the unit is placed for exactly the sum of its members' placements |
| `Segments.UnitStaysSpread` | src/services/planning_service.rs:1602-1618 | summing keeps the strict order of minimum, mode and 95th percentile if any member has it |
| `Compile.CompileSegments` | src/services/planning_service.rs:2923-3097 | told from the containers: segment k of an active container, from its split point before to the one after, with two or more children, is replaced exactly when the first of them are gone, the remaining two or more are all there and these can form a unit; the unit is kept under its first remaining child with exactly these members, and nothing else is compiled; children of any other segment stay themselves; whoever is left stands in the listed order, a carrier where its first child stood, and all edges name stand-ins |
| `Compile.UnitsAreSegments` | src/services/planning_service.rs:2931-2945 | the units gone through are exactly the stretches of two or more children between neighbouring split points of active containers |
| `Compile.EdgeKept` | src/services/planning_service.rs:3086-3095 | every original edge becomes an edge between the stand-ins or falls inside one unit |
| `Compile.EdgeSound` | src/services/planning_service.rs:3086-3095 | no edge names a fused child any more, and every edge stands for an original one |
| `Compile.ActiveUnitsDistinct` | src/services/planning_service.rs:2931-2945 | segments of active containers never share a child |
| `Exclusion.PushWindow` | src/services/planning_service.rs:788-807 | the window starts exactly when the original start, the anchor and every prerequisite that is not planned but has a known window are past, and the outside-horizon flag is exact |
| `Exclusion.Judge` | src/services/planning_service.rs:808-825 | the reason for leaving a Task out, in the order the code checks them: a prerequisite outside the horizon, a window that is empty or ends before the Task placed at its start would, no gap for a mandatory one |
| `Exclusion.PushAndExclude` | src/services/planning_service.rs:785-840 | every Dynamic Task is pushed and judged and every Static Task kept |
| `Dependents.ExcludeDependents` | src/services/planning_service.rs:855-875 | terminates with the least set that contains what was left out and is closed under depending on it, Static Tasks stopping it |
| `Dependents.OrderDoesNotMatter` | src/services/planning_service.rs:855-875 | the set does not depend on Task order or on growing it during a pass |
| `Dependents.OnlyDynamicFalls` | src/services/planning_service.rs:876-877 | a Static Task never passes an exclusion on |
| `Dependents.PruneEdges` | src/services/planning_service.rs:878-882 | exactly the edges to planned Tasks remain |
| `Pipeline.ApplyObserved` | src/services/planning_service.rs:884-908 | exactly the Dynamic Tasks with enough evidence take their observed duration |
| `Pipeline.BuildRequest` | src/services/planning_service.rs:709-908 | the request is the result of all passes in their order |
| `Origins.CommitmentRequested` | src/services/planning_service.rs:789-791 | no commitment is ever left out of the request |
| `Origins.RequestSource` | src/services/planning_service.rs:785-908 | every Task of the request is one of the clustered Tasks with a pushed window, pruned edges and at most an observed duration |
| `Expand.ExpandSegment` | src/services/planning_service.rs:3099-3143 | succeeds exactly when the members' time ends at the carrier's end, and overflow is reported exactly when it happens; each child then takes up capacity unless its Task is stored as one that does not |
| `Expand.ExpansionTiles` | src/services/planning_service.rs:3105-3133 | children are gapless, in order, start with the carrier, end with it and last as placed |
| `Expand.UnitExpands` | src/services/planning_service.rs:3137-3141 | a step placed for the unit's own length never trips the assertion |
| `Expand.ChildKeepsBounds` | src/services/planning_service.rs:3010-3016 | inside the unit's window every child keeps its window and due date |
| `Expand.DirectStaticSteps` | src/services/planning_service.rs:1194-1226 | commitments that bypassed the kernel appear at their own time |
| `Expand.ScheduledBodies` | src/services/planning_service.rs:1146-1189 | each step of the kernel takes up capacity unless its Task is stored as one that does not, and is otherwise as scheduled |
| `Expand.MergeSteps` | src/services/planning_service.rs:1228-1243 | the plan is in order of start, then end, then handle, and holds exactly the frozen steps, repeated or not, and for each handle they lack the first of the others |
| `Meaning.RanUnder` | src/services/planning_service.rs:2610-2624 | every step of a Dynamic Task comes from the one kernel step of whoever stands for it |
| `Preservation.StaticKeepsWindow` | src/services/planning_service.rs:2610-2624 | any step shown for a Static Task has exactly the Task's own window, fused, covered or not |
| `Preservation.StaticAppears` | src/services/planning_service.rs:1042-1058 | every Static Task in the horizon appears |
| `Preservation.DynamicKeepsBounds` | src/services/planning_service.rs:785-835 | a planned Dynamic Task lies in its own window after the anchor, lasts its own or observed length and, when fused, ends by its due date |
| `Preservation.DynamicsDisjoint` | src/services/planning_service.rs:3105-3133 | two planned Dynamic Tasks never overlap |
| `Preservation.DynamicClearOfStatics` | src/services/planning_service.rs:2812-2840 | a planned Dynamic Task never overlaps a commitment that occupies capacity, covered ones included |
| `Preservation.AfterUnplanned` | src/services/planning_service.rs:796-803 | it starts after every prerequisite with a known window outside the request |
| `Preservation.AfterCommitment` | src/services/planning_service.rs:781-783 | it starts after every commitment it waits for, whether that was fused or covered |
| `Preservation.AfterDynamic` | src/services/planning_service.rs:3086-3095 | it starts after every planned Dynamic Task it waits for, fused or not, later children of its own unit aside |
| `Preservation.InsideUnitExactly` | src/services/planning_service.rs:3023-3029 | an edge between two children of one unit is respected exactly when it points to an earlier child |
| `Preservation.LookingBack` | src/services/decomposition.rs:328-355 | where children wait only for earlier ones, as decomposing stores them, no edge is excepted from the round trip |
| `Limits.SiblingOutOfOrder` | src/services/planning_service.rs:3105-3133 | a concrete input in which a child waits for a later one and a valid schedule has it before |
| `CommitmentEdges.CommitmentAfterWork` | src/services/planning_service.rs:2818-2841 | a commitment with capacity starts after all planned work it waits for, although it may be covered and its span shared |
| `DueDates.DueKeptExactly` | src/services/planning_service.rs:785-835 | a Dynamic Task outside a unit ends by a given time in every valid schedule exactly when none of its placements ends later |
| `DueDates.DueKeptByWindow` | src/services/planning_service.rs:635-670 | a due date no earlier than the end of the window is kept |
| `Limits.DueMissed` | src/services/planning_service.rs:3010-3016 | a concrete input and a valid schedule that ends work after its due date |
| `Schedules.PlacedIsScheduled` | src/services/planning_service.rs:785-835 | wherever a Dynamic Task of the request is placed beside the commitments, some valid schedule has it there |
| `Schedules.ScheduledIsPlaced` | src/services/planning_service.rs:785-835 | in every valid schedule a Dynamic Task is in its pushed window, clear of every reserved span and in order with every commitment |
| `Restore.ExpandAll` | src/services/planning_service.rs:1044-1053 | expansion succeeds exactly when every unit's step fits, and then yields every child; every step that comes out takes up capacity as its Task is stored |
| `Restore.RestorePlan` | src/services/planning_service.rs:1042-1060 | for a valid schedule the plan is assembled without error and in time order: the frozen steps as they are, and beside them steps that are right for the original Tasks; of these the commitments without capacity take none, covered commitments do, and every other step does unless its Task is stored as one that does not |
| `Restore.RoundTrip` | src/services/planning_service.rs:520-1060 | any valid schedule of the compiled request expands, beside any frozen steps, to steps in which every Static Task has its own window, every Dynamic Task its window and length and, when fused, its due date, nothing overlaps that should not, every edge into a planned Dynamic Task is respected unless it points to a later child of its own unit, every commitment with capacity starts after the planned work it waits for, and nothing is invented |
| `Restore.CapacityIsShown` | src/services/planning_service.rs:1042-1058 | nothing expanded from the kernel's schedule has the handle of a commitment that bypassed it, so capacity is shown for each step as its Task or commitment has it |
| `Scatter.ScatterGuard` | src/services/planning_service.rs:3163-3189 | reports exactly the segments with neighbouring placed children that do not meet |
| `Scatter.CompiledScatteredExactly` | src/services/planning_service.rs:3163-3189 | a compiled segment is in the plan gapless or not at all, and reported exactly when its earlier children that are commitments without capacity do not meet each other or the rest |
| `Limits.CompiledYetScattered` | src/services/planning_service.rs:3163-3189 | a concrete input whose segment is compiled and reported all the same |
| `Projection.Diff` | src/services/calendar_projection.rs:102-133 | exactly the creates, updates and deletes the two event sets call for, none on a retained id, by kind and then id; an event on both sides is updated exactly when it differs in anything but its notes |
| `Projection.SameManaged` | src/services/calendar_projection.rs:24-33 | comparing the managed fields one by one is equality of the two events apart from their notes |
| `Projection.LastListedWins` | src/services/calendar_projection.rs:107-108 | of several events listed under one id the last is the one compared |
| `Projection.DiffUnique` | src/services/calendar_projection.rs:94-101 | the diff of two event sets is one list |
| `Projection.PartialLandingLeavesRest` | src/services/calendar_projection.rs:94-133 | if any part of a diff lands, the next diff is exactly the rest in the same order |
| `Projection.FullLandingLeavesNothing` | src/services/calendar_projection.rs:94-133 | when all of it lands the next diff is empty and the record holds exactly the wanted events, equal in everything but notes, beside the retained ones |
| `Projection.RetainedUntouched` | src/services/calendar_projection.rs:97-100 | a retained event keeps its exact value or absence whatever lands |
| `Projection.ValuesRoundTrip` | src/services/calendar_apply.rs:438 | listing the landed map and reading it back gives the map, sorted strictly by id |
| `EventIds.IdRoundTrip` | src/services/calendar_projection.rs:36-44 | an event id and its Task handle determine each other: the handle is `task_` and the id, of five to 1024 letters a to v and digits |
| `EventIds.IdsDistinct` | src/services/calendar_projection.rs:36-44 | two Task handles never derive one event id |
| `EventIds.CapturedIdIsOrigin` | src/services/calendar_projection.rs:46-52 | a captured origin is used as it is or not at all |
| `CalendarClient.RecordingCalendar.InsertEvent` | src/services/calendar_client.rs:330-350 | an insert lands exactly on a free handle that is not made to fail, without notes, and stamps it; anything else changes only the call list |
| `CalendarClient.RecordingCalendar.PatchEvent` | src/services/calendar_client.rs:351-370 | a patch lands exactly on an existing event and leaves its notes |
| `CalendarClient.RecordingCalendar.DeleteEvent` | src/services/calendar_client.rs:371-385 | a delete lands exactly on an existing event and removes its stamp |
| `CalendarClient.RecordingCalendar.ListEvents` | src/services/calendar_client.rs:314-329 | lists the events that meet the range and collects the minted among them |
| `CalendarClient.AcceptedLater` | src/services/calendar_client.rs:330-385 | whether an operation is accepted does not depend on operations on other events |
| `CalendarApply.MakePreview` | src/services/calendar_apply.rs:137-140 | the preview is the diff without deletions of captured events |
| `CalendarApply.PreviewShape` | src/services/calendar_apply.rs:137-140 | a preview touches each event once and changes or deletes only what is recorded |
| `CalendarApply.Approve` | src/services/calendar_apply.rs:327-445 | refused exactly when the record changed since the preview, with no effect; otherwise exactly the permitted and accepted operations land on calendar and record and every status is reported; the batch is applied exactly when every operation is done, failed exactly when there are some and none is done, and partial otherwise |
| `CalendarApply.NewestUnfailed` | src/services/calendar_apply.rs:53-69 | the record read back is the last stored snapshot that did not fail, and empty if all failed |
| `CalendarRuns.ApprovalFolds` | src/services/calendar_apply.rs:53-69 | after an approval the record read back is the old one with exactly the landed operations, failed batches included |
| `CalendarApply.AgreeKept` | src/services/calendar_apply.rs:364-423 | whatever subset lands, record and calendar keep agreeing on each recorded event in everything but its notes |
| `CalendarApply.ForeignUntouched` | src/services/calendar_apply.rs:364-423 | events outside the record are neither changed, deleted nor added |
| `CalendarReconcile.Classify` | src/services/calendar_reconcile.rs:19-75 | exactly the missing, drifted, foreign and unrecorded conflicts there are, each once; drifted means different in anything but notes; listed drifted first, then foreign, missing and unrecorded, each by id |
| `CalendarReconcile.ClassificationPartitions` | src/services/calendar_reconcile.rs:19-75 | every id on either side matches or has exactly one conflict |
| `CalendarReconcile.RepairIsRestriction` | src/services/calendar_reconcile.rs:86-99 | repair keeps the owned events that still exist, as observed, sorted |
| `CalendarReconcile.RepairLeavesRest` | src/services/calendar_reconciliation_service.rs:202-206 | classifying after a repair finds exactly the foreign and unrecorded conflicts of before, which is what the service reports as remaining |
| `CalendarReconcile.RepairIdempotent` | src/services/calendar_reconcile.rs:90-99 | repairing twice changes nothing more |
| `CalendarReconcile.RepairNeverGrows` | src/services/calendar_reconciliation_service.rs:199 | the count of dropped events never underflows |
| `CalendarReconcile.RepairedDiffLands` | src/services/calendar_reconcile.rs:86-99 | after a repair every operation of the diff lands exactly when no wanted event is on the calendar outside the record |
| `CalendarReconcile.RepairThenApply` | src/services/calendar_reconcile.rs:86-99 | then the calendar shows what is wanted and every foreign event as it was |
| `CalendarRecord.Reconcile` | src/services/calendar_reconciliation_service.rs:53-150 | stores the recorded events that begin before the end of the range and end after its start, the others apart, the normalized observation and its exact classification |
| `CalendarRecord.RepairRecord` | src/services/calendar_reconciliation_service.rs:155-229 | writes the stored observation once; a second repair or an unknown id changes nothing |
| `CalendarRecord.RepairedIs` | src/services/calendar_reconciliation_service.rs:209-219 | the repaired record is strictly sorted: observed owned events, and out-of-range events as they were |
| `CalendarRecord.NormalizeObserved` | src/services/calendar_capture.rs:255-273 | observed events get the Task of the record back and nothing else |
| `CalendarRecord.AcceptObservation` | src/services/calendar_interaction.rs:349-356 | exactly the accepted event is replaced by its observation, in place |
| `CalendarRecord.CaptureRecord` | src/services/calendar_capture.rs:515-535 | the record is rewritten by accepted observations and captured events, the latest winning, strictly sorted, and only if there are any |
| `CalendarRuns.Perform` | src/services/calendar_apply.rs:342-361 | the services take exactly the steps of the protocol's state machine |
| `CalendarRuns.RecordAlwaysSorted` | src/services/calendar_apply.rs:436-443 | over every run of approvals, reconciliations, repairs, captures and outside edits the record read back is strictly sorted by unique id |
| `CalendarRuns.RecordIsFold` | src/services/calendar_apply.rs:53-69 | over any run of approvals the record is the fold of every landed operation, failed batches included |
| `CalendarRuns.Lockstep` | src/services/calendar_apply.rs:364-423 | over any run of approvals under any failure pattern record and calendar stay in agreement and the foreign events stay exactly those of the start |
| `CalendarRuns.RepairedForGood` | src/services/calendar_reconciliation_service.rs:180-186 | a reconciliation rewrites the record at most once in any run |
| `CalendarRuns.RepairAtOnce` | src/services/calendar_reconciliation_service.rs:190-219 | repaired directly, the record keeps what was out of range, takes what is observed and forgets what is gone |
| `CalendarRecord.LateRepairExactly` | src/services/calendar_reconciliation_service.rs:186-219 | a repair writes what repairing the present record would, exactly when the out-of-range events and the owned observed ids are still those of the reconciliation |
| `CalendarRuns.LateRepairForgets` | src/services/calendar_reconciliation_service.rs:186-219 | a concrete run in which a repair after another approval forgets what that approval landed |
| `Durations.Pair` | src/services/duration_model.rs:90-105 | the intervals are the neighbouring start and completion in time order |
| `Durations.SortedInTime` | src/services/duration_model.rs:91 | that order is by time, in one second starts before completions, and neither adds nor loses an event |
| `Durations.IntervalsAreNeighbours` | src/services/duration_model.rs:89-105 | an interval closes the last start with nothing in between, and every such pair is one |
| `Durations.IntervalsInOrder` | src/services/duration_model.rs:89-105 | intervals are in time order and never overlap |
| `Durations.PairIgnoresOrder` | src/services/duration_model.rs:91 | pairing depends only on which events there are |
| `Durations.ByGroup` | src/services/duration_model.rs:108-121 | each group with a recent event gets the intervals of its recent events |
| `Durations.GroupTimeBounded` | src/services/duration_model.rs:107-121 | no group is credited with more time than 7776000 seconds, ninety days |
| `Durations.Rank` | src/services/duration_model.rs:41-46 | the nearest rank is the exact ceiling and stays inside the list |
| `Durations.PercentileIsQuantile` | src/services/duration_model.rs:42-46 | by counting: the element picked from a sorted list is in it, less than the asked share of the list lies below it and at least that share does not exceed it |
| `Durations.QuantileUnique` | src/services/duration_model.rs:42-46 | no other element has that property |
| `Durations.Derive` | src/services/duration_model.rs:48-87 | of the lengths of the intervals that end after they start: fewer than five are counted and refused; exactly those up to eight medians, capped at 64 bits, are kept, and again fewer than five are counted and refused; otherwise the least, the median and the nineteenth twentieth of the kept ones, all by counting, the second raised to above the first and the third to above the second unless the first and third are equal |
| `Durations.DerivedUnique` | src/services/duration_model.rs:48-87 | this determines the answer |
| `Durations.FilterKeepsHalf` | src/services/duration_model.rs:57-62 | the outlier filter keeps a prefix of the sorted lengths with at least half of them and the same minimum |
| `Durations.DeriveIgnoresOrder` | src/services/duration_model.rs:49-57 | the answer depends only on which intervals were observed |
| `Lifecycle.TaskRecord.Complete` | src/services/log_service.rs:40-143 | completes exactly an active Task or a missed occurrence, by gesture only if it fits and its observed window ends after it starts; effects are applied exactly when no completion is on record |
| `Lifecycle.TaskRecord.Skip` | src/services/log_service.rs:444-476 | skips exactly an active or missed occurrence |
| `Lifecycle.TaskRecord.AppendDone` | src/services/log_service.rs:274-338 | the older endpoint records a completion without touching the Task |
| `Lifecycle.TaskRecord.ReopenCompletion` | src/services/log_service.rs:181-230 | undoes exactly the named completion when it is the latest |
| `Lifecycle.TaskRecord.ReopenCalendarCompletion` | src/services/log_service.rs:147-170 | undoes exactly the latest completion made by a gesture on the same event |
| `Lifecycle.LatestCompletion` | src/services/calendar_interaction.rs:201-226 | the newest completion in append order, older `done` entries included |
| `Lifecycle.EffectsAtMostOnce` | src/services/log_service.rs:68-99 | in every run effects are applied at most once, and exactly when the oldest completion on record is one of the transitions' |
| `Lifecycle.DecisionsAlternate` | src/services/log_service.rs:392-405 | completions and reopenings strictly alternate |
| `Lifecycle.EachUndoneOnce` | src/services/log_service.rs:208-213 | each completion is undone at most once, in increasing order |
| `Lifecycle.LegacyDoneHidesEffects` | src/services/log_service.rs:68-84 | a concrete run in which a Task completes once and its effects are never applied |
| `Gestures.Detect` | src/services/calendar_interaction.rs:141-195 | exactly the completions and undos the observed colours mean, an undo only up to a day after the observed end, and the ones ignored because their window does not end after it starts |
| `Gestures.DetectWindowGestures` | src/services/calendar_interaction.rs:79-132 | exactly the moves and resizes the observed windows mean, and the changes ignored because the Task is not active or no length was observed |
| `Gestures.AcceptedGestureIsQuiet` | src/services/calendar_interaction.rs:282-356 | an accepted gesture on a Task that is no routine occurrence signals nothing more when seen again, except one resize after an undo exactly when the observed length is not the declared one |
| `Gestures.UndoThenResize` | src/services/calendar_interaction.rs:106-128 | a concrete accepted undo after which the same observation signals a resize |
| `Gestures.DetectedIsAdmitted` | src/services/log_service.rs:49-60 | a detected gesture passes the checks made again under the lock if nothing happened in between |
| `Decomposition.ValidateSegment` | src/services/decomposition.rs:133-169 | whatever the clock says, accepted exactly when no child has preconditions or is Static, the total length fits signed 64 bits and one block, not before now, fits inside every child's bounds and due date |
| `Decomposition.ValidateSegments` | src/services/decomposition.rs:129-171 | accepted exactly when every segment of more than one child is |
| `Decomposition.BlockKeepsChildren` | src/services/decomposition.rs:157-167 | in an accepted block every child keeps its own bounds |
| `Decomposition.AcceptanceIsConservative` | src/services/decomposition.rs:157-167 | two children that could each keep their bounds back to back and are refused |
| `Decomposition.ResolveDependencies` | src/services/decomposition.rs:311-355 | resolved exactly when every sibling reference names an earlier child; each prerequisite once, and the previous child always |
| `Decomposition.SiblingsAcyclic` | src/services/decomposition.rs:311-355 | references and chain together have no cycle and the list is an order for them |
| `Decomposition.ResolvedLooksBack` | src/services/decomposition.rs:328-355 | children stored this way satisfy what compiling a segment relies on |

## Left out

- The kernel, `ubu_core`, `ubu_store` and the worker: the kernel is the predicate `ValidSchedule`, containers are their ordered children and split points, and stores are sequences and maps.
- Restore.RestorePlan: steps carry no titles, timestamps, colours or list index, and a non-capacity commitment keeps its original `depends_on`, where the code drops and renames entries of it; frozen steps are taken as they come and nothing is claimed between them and the rest.
- Pipeline.BuildRequest: the windows, anchors and durations of participating Tasks are inputs, computed from stored payloads, routine floors and ceilings and the horizon at `src/services/planning_service.rs:600-708`.
- Restore.RoundTrip: a commitment without capacity bypasses the kernel, so it may start before planned work it waits for; due dates of Tasks outside a unit are the subject of `DueDates`.
- Values, correlation groups, affect, scoring and seeds: floating point that the passes only copy.
- Diagnostics: their wording and grouping; only why a Task is left out is kept, as a reason. Entries the kernel could not place, and their expansion to children, are only diagnostics here.
- Duplicate handles in the participating Tasks: the store does not produce them, and `WellFormed` excludes them.
- Durations.Rank: the percentile rank is the exact ceiling of 1/2 or 19/20 of the count, where the code multiplies in `f64`.
- CalendarApply.MakePreview: the desired events arrive as an argument; `desired_events` and the adjustments before the diff copy fields and sort.
- CalendarApply.Approve: the export gate is a set of permitted operations; policy, permits' contents and the boundary log are not modelled, nor is Google's conversion of an insert conflict into a patch.
- CalendarRecord.CaptureRecord: which events are captured and as what Task (`plan_capture`) is an input; only what capture does to the applied record is modelled.
- CalendarRecord.NormalizeObserved: timestamps are seconds already, so only the Task handle is restored.
- Lifecycle.Perform: other services may move a Task between statuses other than completed; the model takes from them that none of them enters or leaves completed.
- Gestures.AcceptedGestureIsQuiet: routine occurrences are excluded, because their moves go through routine overrides that are not part of this model; timestamps are readable whole seconds.
- Decomposition.ValidateSegment: bounds and due dates are readable timestamps; the code rejects others before this check.
- Undoing a decomposition, proposals, routines, HTTP handlers, configuration, device registration, Google and Ollama transport, import and advice: plumbing, or rules in code that is not part of this model.
