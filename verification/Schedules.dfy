/** A valid schedule for one Dynamic Task of a request among all its commitments. */
module Schedules {
  import opened Basics
  import opened Spans
  import opened Tasks
  import opened Segments
  import opened Compile
  import opened Clusters
  import opened ClusterFacts
  import opened Exclusion
  import opened Dependents
  import opened Pipeline
  import opened Origins
  import opened Anchors
  import opened Expand
  import opened Meaning
  import opened Preservation
  import Seating

  // ----- what every finished request keeps -----

  /** Commitments are anchored, apart and in order, and nothing waits for itself. */
  ghost predicate Coherent(request: seq<TaskSpec>)
  {
    && UniqueIds(request)
    && (forall q :: q in request && q.Static() ==> Anchored(q))
    && (forall p, q :: p in request && q in request && p.Static() && q.Static() && p.id != q.id ==> ApartAs(p, q))
    && (forall p, q :: p in request && q in request && p.Static() && q.Static() && q.id in p.dependsOn ==>
        EndOf(q) <= StartOf(p))
    && (forall r :: r in request ==> r.id !in r.dependsOn)
  }

  ghost predicate ApartAs(p: TaskSpec, q: TaskSpec)
  {
    !(StartOf(p) < EndOf(q) && EndOf(p) > StartOf(q))
  }

  lemma RequestCoherent(inp: Inputs, st: Stages)
    requires Built(inp, st)
    ensures Coherent(st.request)
  {
    RequestIds(inp, st);
    forall q | q in st.request && q.Static() ensures Anchored(q) {
      var o := RequestedCommitment(inp, st, q);
    }
    forall p, q | p in st.request && q in st.request && p.Static() && q.Static() && p.id != q.id ensures ApartAs(p, q) {
      RequestedApart(inp, st, p, q);
    }
    forall p, q | p in st.request && q in st.request && p.Static() && q.Static() && q.id in p.dependsOn
      ensures EndOf(q) <= StartOf(p)
    {
      AnchorsHold(inp, st, p, q);
      var o := RequestedCommitment(inp, st, p);
    }
    forall r | r in st.request ensures r.id !in r.dependsOn {
      NotForItself(inp, st, r);
    }
  }

  /** A commitment of the request is one of the clustered request, as it was there. */
  lemma RequestedCommitment(inp: Inputs, st: Stages, q: TaskSpec) returns (o: TaskSpec)
    requires Built(inp, st) && q in st.request && q.Static()
    ensures o in st.run.out && o.Static() && o.id == q.id && o.window == q.window && Anchored(o) && Anchored(q)
  {
    o := RequestSource(inp, st, q);
    var t := CommitmentSource(inp, st, o);
    StaysPut(SettingFor(inp, st.run), inp.observed, o, q);
  }

  lemma RequestedApart(inp: Inputs, st: Stages, p: TaskSpec, q: TaskSpec)
    requires Built(inp, st) && p in st.request && q in st.request && p.Static() && q.Static() && p.id != q.id
    ensures ApartAs(p, q)
  {
    var a := RequestedCommitment(inp, st, p);
    var b := RequestedCommitment(inp, st, q);
    OutApart(st.run, a, b);
  }

  lemma OutApart(run: ClusterRun, a: TaskSpec, b: TaskSpec)
    requires Pass(run) && a in run.out && b in run.out && a.Static() && b.Static() && a.id != b.id
    ensures ApartAs(a, b)
  {
    CommitmentsDisjoint(run);
    ApartIn(run.out, a, b);
  }

  lemma ApartIn(tasks: seq<TaskSpec>, a: TaskSpec, b: TaskSpec)
    requires StaticsAnchored(tasks) && a in tasks && b in tasks && a.Static() && b.Static() && a.id != b.id
    requires forall i, j :: 0 <= i < j < |tasks| && tasks[i].Static() && tasks[j].Static() ==>
              !Overlap(tasks[i].window.value, tasks[j].window.value)
    ensures ApartAs(a, b)
  {
    var i :| 0 <= i < |tasks| && tasks[i] == a;
    var j :| 0 <= j < |tasks| && tasks[j] == b;
    if i < j {
      assert !Overlap(tasks[i].window.value, tasks[j].window.value);
    } else {
      assert !Overlap(tasks[j].window.value, tasks[i].window.value);
    }
  }

  /** Nothing in the request waits for itself. */
  lemma NotForItself(inp: Inputs, st: Stages, r: TaskSpec)
    requires Built(inp, st) && r in st.request
    ensures r.id !in r.dependsOn
  {
    var o := RequestSource(inp, st, r);
    SpanNotSelf(inp, st, o);
  }

  lemma SpanNotSelf(inp: Inputs, st: Stages, o: TaskSpec)
    requires Built(inp, st) && o in st.run.out
    ensures o.id !in o.dependsOn
  {
    OutIsCarriers(st.run);
    var k :| 0 <= k < |st.run.tasks| && IsCarrier(st.run.tasks, st.run.rep, k) && st.run.fused[k] == o;
    assert RenamedBy(st.home, st.current[k], st.run.tasks[k]);
    RenamedNotSelf(st.home, st.current[k], st.run.tasks[k]);
    FusedNotSelf(st.run, k);
  }

  lemma FusedNotSelf(run: ClusterRun, k: nat)
    requires Pass(run) && k < |run.tasks| && IsCarrier(run.tasks, run.rep, k)
    requires run.tasks[k].id !in run.tasks[k].dependsOn
    ensures run.fused[k].id !in run.fused[k].dependsOn
  {
    FusedKeepsId(run, k);
    assert run.tasks[k].id in GroupIds(run.tasks, run.rep, k);
    forall d | d in run.fused[k].dependsOn ensures d != run.tasks[k].id {
      var m := FusedEdge(run, k, d);
    }
  }

  lemma RenamedNotSelf(home: Homes, c: TaskSpec, t: TaskSpec)
    requires RenamedBy(home, c, t)
    ensures t.id !in t.dependsOn
  {
    forall d | d in t.dependsOn ensures d != t.id {
      assert d in Elements(t.dependsOn);
      assert d in Compile.Needs(home, c);
    }
  }

  // ----- all commitments and one Dynamic Task -----

  /** A commitment of the request at its anchor. */
  ghost function Held(q: TaskSpec): Step { Step(q.id, StartOf(q), EndOf(q), q.dependsOn, true, true) }

  ghost function HeldSteps(request: seq<TaskSpec>): seq<Step>
  {
    Map(Held, Filter((q: TaskSpec) => q.Static(), request))
  }

  /** Every commitment at its anchor, and `r` from `s` to `e`. */
  ghost function ScheduleWith(request: seq<TaskSpec>, r: TaskSpec, s: U64, e: U64): seq<Step>
  {
    HeldSteps(request) + [Step(r.id, s, e, r.dependsOn, false, true)]
  }

  /** `r` may start at `s` beside the commitments of the request, as far as these and the edges go. */
  ghost predicate Placed(request: seq<TaskSpec>, fixed: seq<TimeWindow>, r: TaskSpec, s: nat)
    requires r.window.Some?
  {
    && Fits(r.window.value, fixed, r.Placement(), s)
    && (forall q :: q in request && q.Static() && q.id in r.dependsOn ==> EndOf(q) <= s)
    && (forall q :: q in request && q.Static() && r.id in q.dependsOn ==> s + r.Placement() <= StartOf(q))
  }

  lemma InHeld(request: seq<TaskSpec>, x: Step) returns (q: TaskSpec)
    requires x in HeldSteps(request)
    ensures q in request && q.Static() && x == Held(q)
  {
    q := FromMap(Held, Filter((q: TaskSpec) => q.Static(), request), x);
  }

  lemma HeldIn(request: seq<TaskSpec>, q: TaskSpec)
    requires q in request && q.Static()
    ensures Held(q) in HeldSteps(request)
  {
    IntoMap(Held, Filter((q: TaskSpec) => q.Static(), request), q);
  }

  /** The commitments at their anchors leave `r` alone, and no one is scheduled twice. */
  lemma HeldUnique(request: seq<TaskSpec>, r: TaskSpec, s: U64, e: U64)
    requires UniqueIds(request) && r in request && !r.Static()
    ensures UniqueSteps(ScheduleWith(request, r, s, e))
  {
    var fixed := (q: TaskSpec) => q.Static();
    var held, steps := Filter(fixed, request), ScheduleWith(request, r, s, e);
    FilterMultiset(fixed, request);
    UniqueIdsSub(held, request);
    forall i, j | 0 <= i < j < |steps| ensures steps[i].id != steps[j].id {
      assert held[i] in held;
      if j < |held| {
        assert steps[i].id == held[i].id && steps[j].id == held[j].id;
      } else {
        NotSame(request, held[i], r);
      }
    }
  }

  lemma NotSame(request: seq<TaskSpec>, q: TaskSpec, r: TaskSpec)
    requires UniqueIds(request) && q in request && r in request && q.Static() && !r.Static()
    ensures q.id != r.id
  {
    if q.id == r.id { UniqueIdsSame(request, q, r); }
  }

  ghost predicate ClearOfHeld(request: seq<TaskSpec>, s: nat, e: nat)
  {
    forall q :: q in request && q.Static() ==> !(s < EndOf(q) && e > StartOf(q))
  }

  /** Placed clear of the commitments and in order with them, one Dynamic Task makes a valid schedule. */
  lemma ScheduleIsValid(request: seq<TaskSpec>, r: TaskSpec, s: U64, e: U64)
    requires Coherent(request) && r in request && !r.Static() && r.window.Some?
    requires e == s + r.Placement() && Inside(TimeWindow(s, e), r.window.value) && ClearOfHeld(request, s, e)
    requires forall q :: q in request && q.Static() && q.id in r.dependsOn ==> EndOf(q) <= s
    requires forall q :: q in request && q.Static() && r.id in q.dependsOn ==> e <= StartOf(q)
    ensures ValidSchedule(request, ScheduleWith(request, r, s, e))
  {
    var steps := ScheduleWith(request, r, s, e);
    HeldUnique(request, r, s, e);
    forall x | x in steps ensures exists q :: q in request && StepFits(q, x) {
      var q := ScheduledTask(request, r, s, e, x);
    }
    forall q | q in request && q.Static() ensures exists x :: x in steps && x.id == q.id {
      HeldIn(request, q);
      assert Held(q) in steps;
    }
    forall x, y | x in steps && y in steps && x.id != y.id ensures !Overlap(Span(x), Span(y)) {
      ScheduledApart(request, r, s, e, x, y);
    }
    forall q, x, y | q in request && x in steps && y in steps && x.id == q.id && y.id in q.dependsOn
      ensures y.end <= x.start
    {
      ScheduledInOrder(request, r, s, e, q, x, y);
    }
  }

  /** The Task of the request a step of this schedule belongs to. */
  lemma ScheduledTask(request: seq<TaskSpec>, r: TaskSpec, s: U64, e: U64, x: Step) returns (q: TaskSpec)
    requires Coherent(request) && r in request && !r.Static() && r.window.Some?
    requires e == s + r.Placement() && Inside(TimeWindow(s, e), r.window.value)
    requires x in ScheduleWith(request, r, s, e)
    ensures q in request && StepFits(q, x)
    ensures if q.Static() then Anchored(q) && x == Held(q) else q == r && x.start == s && x.end == e
  {
    if x in HeldSteps(request) {
      q := InHeld(request, x);
      assert Anchored(q);
    } else {
      q := r;
    }
  }

  lemma ScheduledApart(request: seq<TaskSpec>, r: TaskSpec, s: U64, e: U64, x: Step, y: Step)
    requires Coherent(request) && r in request && !r.Static() && r.window.Some?
    requires e == s + r.Placement() && Inside(TimeWindow(s, e), r.window.value) && ClearOfHeld(request, s, e)
    requires x in ScheduleWith(request, r, s, e) && y in ScheduleWith(request, r, s, e) && x.id != y.id
    ensures !Overlap(Span(x), Span(y))
  {
    var p := ScheduledTask(request, r, s, e, x);
    var q := ScheduledTask(request, r, s, e, y);
    if p.Static() && q.Static() { assert ApartAs(p, q); }
  }

  lemma ScheduledInOrder(request: seq<TaskSpec>, r: TaskSpec, s: U64, e: U64, p: TaskSpec, x: Step, y: Step)
    requires Coherent(request) && r in request && !r.Static() && r.window.Some?
    requires e == s + r.Placement() && Inside(TimeWindow(s, e), r.window.value)
    requires forall q :: q in request && q.Static() && q.id in r.dependsOn ==> EndOf(q) <= s
    requires forall q :: q in request && q.Static() && r.id in q.dependsOn ==> e <= StartOf(q)
    requires p in request && x in ScheduleWith(request, r, s, e) && y in ScheduleWith(request, r, s, e)
    requires x.id == p.id && y.id in p.dependsOn
    ensures y.end <= x.start
  {
    var a := ScheduledTask(request, r, s, e, x);
    var b := ScheduledTask(request, r, s, e, y);
    UniqueIdsSame(request, a, p);
    assert b.id in a.dependsOn;
    assert a.id !in a.dependsOn;
    if a.Static() && b.Static() { assert EndOf(b) <= StartOf(a); }
  }

  // ----- the reserved spans are the commitments -----

  lemma {:induction false} SpansOf(tasks: seq<TaskSpec>, w: TimeWindow)
    requires Windowed(tasks)
    ensures w in FixedSpans(tasks) <==> exists q :: q in tasks && q.Static() && q.window == Some(w)
  {
    if tasks != [] {
      var n := |tasks| - 1;
      SpansOf(tasks[..n], w);
      assert tasks == tasks[..n] + [tasks[n]];
      assert forall q :: q in tasks <==> q in tasks[..n] || q == tasks[n];
    }
  }

  /** Clear of every reserved span is clear of every commitment of the request. */
  lemma ClearIsClear(inp: Inputs, st: Stages, s: nat, e: nat)
    requires Built(inp, st)
    ensures Clear(FixedSpans(st.run.out), s, e) <==> ClearOfHeld(st.request, s, e)
  {
    var fixed := FixedSpans(st.run.out);
    forall q | q in st.request && q.Static() ensures q.window.Some? && q.window.value in fixed {
      var o := RequestedCommitment(inp, st, q);
      SpansOf(st.run.out, q.window.value);
    }
    forall w | w in fixed ensures exists q :: q in st.request && q.Static() && q.window == Some(w) {
      SpansOf(st.run.out, w);
      var o :| o in st.run.out && o.Static() && o.window == Some(w);
      var r := CommitmentRequested(inp, st, o);
    }
    SameClear(fixed, st.request, s, e);
  }

  lemma SameClear(fixed: seq<TimeWindow>, request: seq<TaskSpec>, s: nat, e: nat)
    requires forall q :: q in request && q.Static() ==> q.window.Some? && q.window.value in fixed
    requires forall w :: w in fixed ==> exists q :: q in request && q.Static() && q.window == Some(w)
    ensures Clear(fixed, s, e) <==> ClearOfHeld(request, s, e)
  {
    if Clear(fixed, s, e) {
      forall q | q in request && q.Static() ensures !(s < EndOf(q) && e > StartOf(q)) {
        var i :| 0 <= i < |fixed| && fixed[i] == q.window.value;
      }
    }
    if ClearOfHeld(request, s, e) {
      forall i | 0 <= i < |fixed| ensures !(s < fixed[i].end && e > fixed[i].start) {
        assert fixed[i] in fixed;
        var q :| q in request && q.Static() && q.window == Some(fixed[i]);
      }
    }
  }

  /** Wherever a Dynamic Task of the request is placed, some valid schedule has it there. */
  lemma PlacedIsScheduled(inp: Inputs, st: Stages, r: TaskSpec, s: nat) returns (steps: seq<Step>, x: Step)
    requires Built(inp, st) && r in st.request && !r.Static() && r.window.Some?
    requires Placed(st.request, FixedSpans(st.run.out), r, s)
    ensures Planned(inp, st, steps)
    ensures x in steps && x.id == r.id && x.start == s && x.end == s + r.Placement()
  {
    RequestCoherent(inp, st);
    ClearIsClear(inp, st, s, s + r.Placement());
    steps, x := ScheduleFor(st.request, FixedSpans(st.run.out), r, s);
  }

  lemma ScheduleFor(request: seq<TaskSpec>, fixed: seq<TimeWindow>, r: TaskSpec, s: nat)
    returns (steps: seq<Step>, x: Step)
    requires Coherent(request) && r in request && !r.Static() && r.window.Some?
    requires Placed(request, fixed, r, s)
    requires Clear(fixed, s, s + r.Placement()) <==> ClearOfHeld(request, s, s + r.Placement())
    ensures ValidSchedule(request, steps)
    ensures x in steps && x.id == r.id && x.start == s && x.end == s + r.Placement()
  {
    var e := s + r.Placement();
    ScheduleIsValid(request, r, s, e);
    steps := ScheduleWith(request, r, s, e);
    x := steps[|steps| - 1];
  }

  /** And in every valid schedule it is placed. */
  lemma ScheduledIsPlaced(inp: Inputs, st: Stages, steps: seq<Step>, r: TaskSpec, x: Step)
    requires Planned(inp, st, steps) && r in st.request && !r.Static()
    requires x in steps && StepFits(r, x)
    ensures r.window.Some? && Placed(st.request, FixedSpans(st.run.out), r, x.start)
  {
    forall q | q in st.request && q.Static() ensures InOrderWith(r, x, q) {
      AgainstCommitment(inp, st, steps, r, x, q);
    }
    ClearIsClear(inp, st, x.start, x.end);
    InOrderIsPlaced(st.request, FixedSpans(st.run.out), r, x);
  }

  /** A step and a commitment share no time and keep the edges between them. */
  ghost predicate InOrderWith(r: TaskSpec, x: Step, q: TaskSpec)
  {
    && !(x.start < EndOf(q) && x.end > StartOf(q))
    && (q.id in r.dependsOn ==> EndOf(q) <= x.start)
    && (r.id in q.dependsOn ==> x.end <= StartOf(q))
  }

  lemma InOrderIsPlaced(request: seq<TaskSpec>, fixed: seq<TimeWindow>, r: TaskSpec, x: Step)
    requires !r.Static() && StepFits(r, x)
    requires Clear(fixed, x.start, x.end) <==> ClearOfHeld(request, x.start, x.end)
    requires forall q :: q in request && q.Static() ==> InOrderWith(r, x, q)
    ensures r.window.Some? && Placed(request, fixed, r, x.start)
  {
    assert ClearOfHeld(request, x.start, x.end);
  }

  lemma AgainstCommitment(inp: Inputs, st: Stages, steps: seq<Step>, r: TaskSpec, x: Step, q: TaskSpec)
    requires Planned(inp, st, steps) && r in st.request && !r.Static() && q in st.request && q.Static()
    requires x in steps && StepFits(r, x)
    ensures InOrderWith(r, x, q)
  {
    var o := RequestedCommitment(inp, st, q);
    var y, q' := CommitmentStep(inp, st, steps, o);
    RequestIds(inp, st);
    NotSame(st.request, q, r);
    KernelKeepsApart(st.request, steps, r, x, q, y);
  }

  lemma KernelKeepsApart(request: seq<TaskSpec>, steps: seq<Step>, r: TaskSpec, x: Step, q: TaskSpec, y: Step)
    requires ValidSchedule(request, steps) && r in request && q in request && q.id != r.id
    requires x in steps && x.id == r.id && y in steps && y.id == q.id && q.window == Some(Span(y))
    ensures InOrderWith(r, x, q)
  {
    assert !Overlap(Span(x), Span(y));
  }

  // ----- a Task that nothing stands in the way of is requested -----

  /** Its window from the planning anchor on is long enough for it. */
  ghost predicate LongEnough(anchor: U64, t: TaskSpec)
  {
    && t.window.Some?
    && var start := Max(t.window.value.start, anchor);
       start < t.window.value.end && start + t.Placement() <= t.window.value.end
  }

  ghost function FromAnchor(anchor: U64, t: TaskSpec): TaskSpec
    requires t.window.Some?
  {
    t.(window := Some(TimeWindow(Max(t.window.value.start, anchor), t.window.value.end)))
  }

  lemma QuietPushed(setting: Setting, tasks: seq<TaskSpec>, pushed: seq<TaskSpec>, judged: map<Id, Reason>, o: TaskSpec)
    requires Judged(setting, tasks, pushed, judged) && o in tasks && !o.Static()
    requires o.dependsOn == [] && o.id !in setting.mandatory && LongEnough(setting.anchor, o)
    ensures FromAnchor(setting.anchor, o) in pushed && o.id !in judged
    ensures Pushed(setting, o, FromAnchor(setting.anchor, o))
  {
    var k :| 0 <= k < |tasks| && tasks[k] == o;
    assert JudgedOne(setting, tasks[k], pushed[k], judged);
    var start := pushed[k].window.value.start;
    assert AfterAbsent(setting, o.dependsOn, start);
    assert AfterAbsent(setting, o.dependsOn, Max(o.window.value.start, setting.anchor));
    assert start == Max(o.window.value.start, setting.anchor);
  }

  /** Optional work without prerequisites and with room in its window is part of the request. */
  lemma Unhindered(inp: Inputs, st: Stages, o: TaskSpec) returns (r: TaskSpec)
    requires Built(inp, st) && o in st.run.out && !o.Static()
    requires o.dependsOn == [] && o.id !in inp.mandatory && LongEnough(inp.anchor, o)
    ensures r in st.request && r == Estimated(inp.observed, o).(window := FromAnchor(inp.anchor, o).window)
    ensures Descends(inp, st, o, r)
  {
    var p := FromAnchor(inp.anchor, o);
    QuietPushed(SettingFor(inp, st.run), st.run.out, st.pushed, st.judged, o);
    OptionalIsSeatable(inp, st, o.id);
    KeptIsPlanned(inp, st, p);
    r := FinalTask(inp.observed, st.planned, st.pruned, st.request, p);
    QuietFinal(inp.observed, st.planned, o, p, r);
  }

  lemma KeptIsPlanned(inp: Inputs, st: Stages, p: TaskSpec)
    requires Built(inp, st) && p in st.pushed && p.id !in st.judged && p.id !in st.unseatable && p.dependsOn == []
    ensures p in st.planned
  {
    assert p in st.fitting;
    assert p in st.seatable && !Doomed(p, st.removed);
  }

  lemma QuietFinal(observed: map<Id, DurationModel>, planned: seq<TaskSpec>, o: TaskSpec, p: TaskSpec, r: TaskSpec)
    requires o.dependsOn == [] && p == o.(window := p.window) && FinalOf(observed, planned, p, r)
    ensures r == Estimated(observed, o).(window := p.window)
  {
  }

  lemma OptionalIsSeatable(inp: Inputs, st: Stages, id: Id)
    requires Built(inp, st) && id !in inp.mandatory
    ensures id !in st.unseatable
  {
    var seats, ends :| Seating.Sound(st.fitting, inp.mandatory, FixedSpans(st.run.out), seats, ends, st.unseatable);
    forall x | x in st.unseatable ensures x != id {
      assert x in Seating.MovableIds(st.fitting, inp.mandatory);
    }
  }
}
