/** One placement unit out of several children: durations add up, bounds intersect. */
module Segments {
  import opened Basics
  import opened Sorting
  import opened Spans
  import opened Tasks

  /** What the stored row of a Task adds to its specification. */
  datatype Row = Row(hasPreconditions: bool, due: Due)

  datatype Due = NoDue | DueAt(at: U64) | Unreadable

  type Rows = map<Id, Row>

  // ----- sums over members -----

  ghost function Sum(f: TaskSpec -> nat, members: seq<TaskSpec>): nat
  {
    if members == [] then 0 else Sum(f, members[..|members| - 1]) + f(members[|members| - 1])
  }

  ghost function MinPart(t: TaskSpec): nat
  {
    match t.Model()
    case Fixed(seconds) => seconds
    case ShiftedLognormalP95(min, _, _) => min
  }

  ghost function ModePart(t: TaskSpec): nat { t.Placement() }

  ghost function P95Part(t: TaskSpec): nat
  {
    match t.Model()
    case Fixed(seconds) => seconds
    case ShiftedLognormalP95(_, _, p95) => p95
  }

  ghost function LegacyPart(t: TaskSpec): nat { t.duration }

  ghost predicate Stochastic(t: TaskSpec) { t.Model().ShiftedLognormalP95? }

  lemma {:induction false} SumMonotone(f: TaskSpec -> nat, members: seq<TaskSpec>, k: nat)
    requires k <= |members|
    ensures Sum(f, members[..k]) <= Sum(f, members)
  {
    if k < |members| {
      assert members[..|members| - 1][..k] == members[..k];
      SumMonotone(f, members[..|members| - 1], k);
    } else {
      assert members[..k] == members;
    }
  }

  /** All the totals of a unit fit in 64 bits. */
  ghost predicate TotalsFit(members: seq<TaskSpec>)
  {
    && Sum(MinPart, members) <= U64_MAX && Sum(ModePart, members) <= U64_MAX
    && Sum(P95Part, members) <= U64_MAX && Sum(LegacyPart, members) <= U64_MAX
  }

  /** The duration model of the unit: component-wise totals, stochastic if any member is. */
  ghost predicate UnitModel(members: seq<TaskSpec>, model: DurationModel)
  {
    if exists i :: 0 <= i < |members| && Stochastic(members[i]) then
      && model.ShiftedLognormalP95?
      && model.minSeconds == Sum(MinPart, members)
      && model.modeSeconds == Sum(ModePart, members)
      && model.p95Seconds == Sum(P95Part, members)
    else
      model.Fixed? && model.seconds == Sum(ModePart, members)
  }

  // ----- which members can be fused -----

  ghost predicate Fusable(rows: Rows, t: TaskSpec)
  {
    !t.Static() && t.id in rows && !rows[t.id].hasPreconditions && !rows[t.id].due.Unreadable?
  }

  /** `s` is no earlier than any member may start. */
  ghost predicate AfterStarts(members: seq<TaskSpec>, s: nat)
  {
    forall i :: 0 <= i < |members| && members[i].window.Some? ==> members[i].window.value.start <= s
  }

  /** `e` is no later than any member may end or is due. */
  ghost predicate BeforeEnds(rows: Rows, members: seq<TaskSpec>, e: nat)
  {
    forall i :: 0 <= i < |members| ==> MayEndAt(rows, members[i], e)
  }

  ghost predicate MayEndAt(rows: Rows, t: TaskSpec, e: nat)
  {
    && (t.window.Some? ==> e <= t.window.value.end)
    && (t.id in rows && rows[t.id].due.DueAt? ==> e <= rows[t.id].due.at)
  }

  /** The window of the unit is exactly what every member allows. */
  ghost predicate UnitWindow(rows: Rows, members: seq<TaskSpec>, w: TimeWindow)
  {
    && (forall s: nat :: w.start <= s <==> AfterStarts(members, s))
    && (forall e: U64 :: e <= w.end <==> BeforeEnds(rows, members, e))
  }

  /** What any member depends on outside the unit. */
  function ExternalNeeds(members: seq<TaskSpec>, inside: set<Id>): (r: set<Id>)
    ensures forall d :: d in r <==> d !in inside && exists i :: 0 <= i < |members| && d in members[i].dependsOn
  {
    set i, d | 0 <= i < |members| && d in members[i].dependsOn && d !in inside :: d
  }

  /** `carrier` stands for the whole unit under the handle of its first member. */
  ghost predicate Unit(rows: Rows, members: seq<TaskSpec>, carrier: TaskSpec)
  {
    && |members| >= 2 && TotalsFit(members)
    && (forall i :: 0 <= i < |members| ==> Fusable(rows, members[i]))
    && carrier.id == members[0].id && carrier.anchor.None?
    && carrier.duration == Sum(LegacyPart, members)
    && carrier.estimate.Some? && UnitModel(members, carrier.estimate.value)
    && carrier.window.Some? && UnitWindow(rows, members, carrier.window.value)
    && (carrier.mandatory <==> exists i :: 0 <= i < |members| && members[i].mandatory)
    && carrier.dependsOn == Ascending(ExternalNeeds(members, Ids(members)))
  }

  /** The unit places for exactly as long as its members do. */
  lemma UnitPlacement(rows: Rows, members: seq<TaskSpec>, carrier: TaskSpec)
    requires Unit(rows, members, carrier)
    ensures carrier.Placement() == Sum(ModePart, members)
  {
  }

  /** The kernel's own constraint on a distribution. */
  ghost predicate Spread(model: DurationModel)
  {
    model.ShiftedLognormalP95? ==> model.minSeconds < model.modeSeconds < model.p95Seconds
  }

  lemma {:induction false} SumsOrdered(members: seq<TaskSpec>)
    requires forall i :: 0 <= i < |members| ==> Spread(members[i].Model())
    ensures Sum(MinPart, members) <= Sum(ModePart, members) <= Sum(P95Part, members)
    ensures (exists i :: 0 <= i < |members| && Stochastic(members[i])) ==>
              Sum(MinPart, members) < Sum(ModePart, members) < Sum(P95Part, members)
  {
    if members != [] {
      var n := |members| - 1;
      SumsOrdered(members[..n]);
      assert Spread(members[n].Model());
      if i :| 0 <= i < |members| && Stochastic(members[i]) {
        if i < n { assert Stochastic(members[..n][i]); }
      }
    }
  }

  /** One stochastic child keeps the strict order the kernel requires of the totals. */
  lemma UnitStaysSpread(rows: Rows, members: seq<TaskSpec>, carrier: TaskSpec)
    requires Unit(rows, members, carrier)
    requires forall i :: 0 <= i < |members| ==> Spread(members[i].Model())
    ensures Spread(carrier.Model())
  {
    SumsOrdered(members);
  }

  // ----- fusing -----

  lemma SumSnoc(f: TaskSpec -> nat, members: seq<TaskSpec>, i: nat)
    requires i < |members|
    ensures Sum(f, members[..i + 1]) == Sum(f, members[..i]) + f(members[i])
  {
    assert members[..i + 1][..i] == members[..i];
  }

  lemma SumsSnoc(members: seq<TaskSpec>, i: nat)
    requires i < |members|
    ensures Sum(MinPart, members[..i + 1]) == Sum(MinPart, members[..i]) + MinPart(members[i])
    ensures Sum(ModePart, members[..i + 1]) == Sum(ModePart, members[..i]) + ModePart(members[i])
    ensures Sum(P95Part, members[..i + 1]) == Sum(P95Part, members[..i]) + P95Part(members[i])
    ensures Sum(LegacyPart, members[..i + 1]) == Sum(LegacyPart, members[..i]) + LegacyPart(members[i])
  {
    SumSnoc(MinPart, members, i);
    SumSnoc(ModePart, members, i);
    SumSnoc(P95Part, members, i);
    SumSnoc(LegacyPart, members, i);
  }

  lemma PartialTotalsFit(members: seq<TaskSpec>, k: nat)
    requires k <= |members| && TotalsFit(members)
    ensures TotalsFit(members[..k])
  {
    SumMonotone(MinPart, members, k);
    SumMonotone(ModePart, members, k);
    SumMonotone(P95Part, members, k);
    SumMonotone(LegacyPart, members, k);
  }

  datatype Totals = Totals(min: U64, mode: U64, p95: U64, legacy: U64)

  ghost predicate TotalsOf(members: seq<TaskSpec>, totals: Totals)
  {
    && totals.min == Sum(MinPart, members) && totals.mode == Sum(ModePart, members)
    && totals.p95 == Sum(P95Part, members) && totals.legacy == Sum(LegacyPart, members)
  }

  /** Checked totals over all members: none if any sum leaves 64 bits. */
  method AddUp(members: seq<TaskSpec>) returns (totals: Option<Totals>)
    ensures totals.Some? <==> TotalsFit(members)
    ensures totals.Some? ==> TotalsOf(members, totals.value)
  {
    var min: U64, mode: U64, p95: U64, legacy: U64 := 0, 0, 0, 0;
    var i := 0;
    while i < |members|
      invariant 0 <= i <= |members|
      invariant TotalsOf(members[..i], Totals(min, mode, p95, legacy))
    {
      var t := members[i];
      SumsSnoc(members, i);
      var least: U64, likely: U64, high: U64;
      match t.Model() {
        case Fixed(seconds) => least, likely, high := seconds, seconds, seconds;
        case ShiftedLognormalP95(minSeconds, modeSeconds, p95Seconds) =>
          least, likely, high := minSeconds, modeSeconds, p95Seconds;
      }
      var a, b := CheckedAdd(min, least), CheckedAdd(mode, likely);
      var c, d := CheckedAdd(p95, high), CheckedAdd(legacy, t.duration);
      if a.None? || b.None? || c.None? || d.None? {
        if TotalsFit(members) { PartialTotalsFit(members, i + 1); }
        return None;
      }
      min, mode, p95, legacy := a.value, b.value, c.value, d.value;
      i := i + 1;
    }
    assert members[..i] == members;
    return Some(Totals(min, mode, p95, legacy));
  }

  /** The latest start and the earliest end or due date over all members. */
  method SharedWindow(rows: Rows, members: seq<TaskSpec>) returns (w: TimeWindow)
    ensures UnitWindow(rows, members, w)
  {
    var start: U64, end: U64 := 0, U64_MAX;
    var i := 0;
    while i < |members|
      invariant 0 <= i <= |members|
      invariant UnitWindow(rows, members[..i], TimeWindow(start, end))
    {
      var t := members[i];
      var start', end' := start, end;
      if t.window.Some? {
        start', end' := Max(start, t.window.value.start), Min(end, t.window.value.end);
      }
      if t.id in rows && rows[t.id].due.DueAt? {
        end' := Min(end', rows[t.id].due.at);
      }
      WindowSnoc(rows, members, i, TimeWindow(start, end), TimeWindow(start', end'));
      start, end := start', end';
      i := i + 1;
    }
    assert members[..i] == members;
    return TimeWindow(start, end);
  }

  lemma WindowSnoc(rows: Rows, members: seq<TaskSpec>, i: nat, w: TimeWindow, v: TimeWindow)
    requires i < |members| && UnitWindow(rows, members[..i], w)
    requires v.start == if members[i].window.Some? then Max(w.start, members[i].window.value.start) else w.start
    requires forall e: U64 :: e <= v.end <==> e <= w.end && MayEndAt(rows, members[i], e)
    ensures UnitWindow(rows, members[..i + 1], v)
  {
    var more := members[..i + 1];
    forall s: nat ensures v.start <= s <==> AfterStarts(more, s) {
      StartsSnoc(members, i, s);
    }
    forall e: U64 ensures e <= v.end <==> BeforeEnds(rows, more, e) {
      EndsSnoc(rows, members, i, e);
      var may := MayEndAt(rows, members[i], e);
    }
  }

  lemma StartsSnoc(members: seq<TaskSpec>, i: nat, s: nat)
    requires i < |members|
    ensures AfterStarts(members[..i + 1], s) <==>
        AfterStarts(members[..i], s) && (members[i].window.Some? ==> members[i].window.value.start <= s)
  {
    var more, fewer := members[..i + 1], members[..i];
    assert more[i] == members[i];
    assert forall k :: 0 <= k < i ==> more[k] == fewer[k];
  }

  lemma EndsSnoc(rows: Rows, members: seq<TaskSpec>, i: nat, e: nat)
    requires i < |members|
    ensures BeforeEnds(rows, members[..i + 1], e) <==>
        BeforeEnds(rows, members[..i], e) && MayEndAt(rows, members[i], e)
  {
    var more, fewer := members[..i + 1], members[..i];
    assert more[i] == members[i];
    assert forall k :: 0 <= k < i ==> more[k] == fewer[k];
  }

  /** A unit forms exactly when each member allows it, the totals fit and the kernel takes the model. */
  ghost predicate Compilable(rows: Rows, members: seq<TaskSpec>, accepts: DurationModel -> bool)
  {
    && |members| >= 2
    && (forall i :: 0 <= i < |members| ==> Fusable(rows, members[i]))
    && TotalsFit(members)
    && exists model :: UnitModel(members, model) && accepts(model)
  }

  /** A commitment, a Task without a row, preconditions or an unreadable due date stop the unit. */
  method AllFusable(rows: Rows, members: seq<TaskSpec>) returns (all: bool)
    ensures all <==> forall i :: 0 <= i < |members| ==> Fusable(rows, members[i])
  {
    var i := 0;
    while i < |members|
      invariant 0 <= i <= |members|
      invariant forall k :: 0 <= k < i ==> Fusable(rows, members[k])
    {
      var t := members[i];
      if t.anchor.Some? || t.id !in rows || rows[t.id].hasPreconditions || rows[t.id].due == Unreadable {
        assert !Fusable(rows, members[i]);
        return false;
      }
      i := i + 1;
    }
    return true;
  }

  /** One distribution among the members makes the total one. */
  method TotalModel(members: seq<TaskSpec>, totals: Totals) returns (model: DurationModel)
    requires TotalsOf(members, totals)
    ensures UnitModel(members, model)
  {
    var stochastic := exists t | t in members :: t.Model().ShiftedLognormalP95?;
    assert stochastic <==> exists k :: 0 <= k < |members| && Stochastic(members[k]);
    model := if stochastic then ShiftedLognormalP95(totals.min, totals.mode, totals.p95) else Fixed(totals.mode);
  }

  method FuseMembers(rows: Rows, members: seq<TaskSpec>, accepts: DurationModel -> bool)
    returns (unit: Option<TaskSpec>, placements: seq<U64>)
    requires |members| >= 2
    ensures unit.Some? <==> Compilable(rows, members, accepts)
    ensures unit.Some? ==> Unit(rows, members, unit.value) && accepts(unit.value.Model())
    ensures unit.Some? ==> placements == Placements(members)
  {
    placements := Placements(members);
    var fusable := AllFusable(rows, members);
    if !fusable {
      return None, [];
    }
    var totals := AddUp(members);
    if totals.None? {
      return None, [];
    }
    var model := TotalModel(members, totals.value);
    if !accepts(model) {
      return None, [];
    }
    var window := SharedWindow(rows, members);
    var inside := Ids(members);
    unit := Some(members[0].(
      duration := totals.value.legacy,
      estimate := Some(model),
      window := Some(window),
      mandatory := exists k :: 0 <= k < |members| && members[k].mandatory,
      dependsOn := Ascending(ExternalNeeds(members, inside))));
  }

  function Placements(members: seq<TaskSpec>): (r: seq<U64>)
    ensures |r| == |members| && forall i :: 0 <= i < |r| ==> r[i] == members[i].Placement()
  {
    seq(|members|, i requires 0 <= i < |members| => members[i].Placement())
  }
}
