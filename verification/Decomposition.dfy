/** Accepting a decomposition: which segments can be placed as one block, and how children wait for each other. */
module Decomposition {
  import opened Basics
  import opened Graphs
  import opened SegmentRanges
  import opened Durations
  import opened Tasks

  // ----- one back-to-back block -----

  /** A proposed child; bounds are readable timestamps in whole seconds. */
  datatype Child = Child(preconditions: bool, pinned: bool, range: Option<(I64, I64)>, due: Option<I64>, seconds: U64)

  datatype SegmentError = InteriorPrecondition(child: nat) | StaticChild(child: nat) | BoundsDisjoint

  ghost predicate MayStart(c: Child, s: int)
  {
    c.range.Some? ==> c.range.value.0 <= s
  }

  ghost predicate MayEnd(c: Child, e: int)
  {
    && (c.range.Some? ==> e <= c.range.value.1)
    && (c.due.Some? ==> e <= c.due.value)
  }

  ghost function TotalTime(children: seq<Child>): nat
  {
    if children == [] then 0 else TotalTime(children[..|children| - 1]) + children[|children| - 1].seconds
  }

  /** The whole segment, run back to back from `s`, stays inside the bounds of every child; it is never empty. */
  ghost predicate BlockFits(children: seq<Child>, now: int, s: int)
  {
    && now <= s && s + Max(TotalTime(children), 1) <= I64_MAX
    && forall i :: 0 <= i < |children| ==>
        MayStart(children[i], s) && MayEnd(children[i], s + Max(TotalTime(children), 1))
  }

  /** Start and end are exactly what the children seen so far allow. */
  ghost predicate Bounds(children: seq<Child>, now: int, start: int, end: int)
  {
    && (forall s :: start <= s <==> now <= s && AllMayStart(children, s))
    && (forall e :: e <= end <==> e <= I64_MAX && AllMayEnd(children, e))
  }

  ghost predicate AllMayStart(children: seq<Child>, s: int)
  {
    forall i :: 0 <= i < |children| ==> MayStart(children[i], s)
  }

  ghost predicate AllMayEnd(children: seq<Child>, e: int)
  {
    forall i :: 0 <= i < |children| ==> MayEnd(children[i], e)
  }

  ghost predicate Plain(c: Child) { !c.preconditions && !c.pinned }

  /** Every child may be fused, and one block of signed 64-bit length fits. */
  ghost predicate SegmentFits(children: seq<Child>, now: int)
  {
    && (forall i :: 0 <= i < |children| ==> Plain(children[i]))
    && TotalTime(children) <= I64_MAX && exists s :: BlockFits(children, now, s)
  }

  /** Accept one segment of at least two children. */
  method ValidateSegment(children: seq<Child>, now: I64) returns (r: Result<(), SegmentError>)
    ensures r.Ok? <==> SegmentFits(children, now)
    ensures r.Err? && r.error.InteriorPrecondition? ==>
        r.error.child < |children| && children[r.error.child].preconditions
    ensures r.Err? && r.error.StaticChild? ==> r.error.child < |children| && children[r.error.child].pinned
  {
    var start: I64, end: I64, duration: U64 := now, I64_MAX, 0;
    var i := 0;
    assert children[..0] == [];
    while i < |children|
      invariant 0 <= i <= |children|
      invariant forall k :: 0 <= k < i ==> Plain(children[k])
      invariant now <= start && Bounds(children[..i], now, start, end) && duration == TotalTime(children[..i])
    {
      var c := children[i];
      if c.preconditions { return Err(InteriorPrecondition(i)); }
      if c.pinned { return Err(StaticChild(i)); }
      var start', end' := start, end;
      if c.range.Some? {
        start', end' := Max(start, c.range.value.0), Min(end, c.range.value.1);
      }
      if c.due.Some? {
        end' := Min(end', c.due.value);
      }
      BoundsSnoc(children[..i], c, now, start, end, start', end');
      assert children[..i + 1] == children[..i] + [c];
      var sum := CheckedAdd(duration, c.seconds);
      if sum.None? {
        TooLong(children, i);
        return Err(BoundsDisjoint);
      }
      start, end, duration := start', end', sum.value;
      i := i + 1;
    }
    assert children[..i] == children;
    BlockIffRoom(children, now, start, end);
    if end <= start || duration > I64_MAX || start + duration > I64_MAX || start + duration > end {
      return Err(BoundsDisjoint);
    }
    return Ok(());
  }

  lemma BoundsSnoc(front: seq<Child>, c: Child, now: int, start: int, end: int, start': int, end': int)
    requires Bounds(front, now, start, end)
    requires start' == if c.range.Some? then Max(start, c.range.value.0) else start
    requires forall e :: e <= end' <==> e <= end && MayEnd(c, e)
    ensures Bounds(front + [c], now, start', end')
    ensures TotalTime(front + [c]) == TotalTime(front) + c.seconds
  {
    assert (front + [c])[..|front|] == front;
    forall s ensures start' <= s <==> now <= s && AllMayStart(front + [c], s) {
      var before := AllMayStart(front, s);
      assert start <= s <==> now <= s && before;
      StartSnoc(front, c, s);
    }
    forall e ensures e <= end' <==> e <= I64_MAX && AllMayEnd(front + [c], e) {
      var before, may := AllMayEnd(front, e), MayEnd(c, e);
      assert e <= end <==> e <= I64_MAX && before;
      assert e <= end' <==> e <= end && may;
      EndSnoc(front, c, e);
    }
  }

  lemma StartSnoc(front: seq<Child>, c: Child, s: int)
    ensures AllMayStart(front + [c], s) <==> AllMayStart(front, s) && MayStart(c, s)
  {
    var more := front + [c];
    assert more[|front|] == c && forall k :: 0 <= k < |front| ==> more[k] == front[k];
  }

  lemma EndSnoc(front: seq<Child>, c: Child, e: int)
    ensures AllMayEnd(front + [c], e) <==> AllMayEnd(front, e) && MayEnd(c, e)
  {
    var more := front + [c];
    assert more[|front|] == c && forall k :: 0 <= k < |front| ==> more[k] == front[k];
  }

  lemma {:induction false} TimeMonotone(children: seq<Child>, k: nat)
    requires k <= |children|
    ensures TotalTime(children[..k]) <= TotalTime(children)
  {
    if k < |children| {
      assert children[..|children| - 1][..k] == children[..k];
      TimeMonotone(children[..|children| - 1], k);
    } else {
      assert children[..k] == children;
    }
  }

  lemma TimeSnoc(front: seq<Child>, c: Child)
    ensures TotalTime(front + [c]) == TotalTime(front) + c.seconds
  {
    assert (front + [c])[..|front|] == front;
  }

  /** A duration that leaves 64 bits is too long in any case. */
  lemma TooLong(children: seq<Child>, i: nat)
    requires i < |children| && TotalTime(children[..i]) + children[i].seconds > U64_MAX
    ensures TotalTime(children) > I64_MAX
  {
    assert children[..i + 1][..i] == children[..i];
    TimeMonotone(children, i + 1);
  }

  /** From the epoch on a block that fits is never too long. */
  lemma FitsAfterEpoch(children: seq<Child>, now: int, s: int)
    requires now >= 0 && BlockFits(children, now, s)
    ensures TotalTime(children) <= I64_MAX
  {
  }

  /** There is a block exactly when the shared window has room for it. */
  lemma BlockIffRoom(children: seq<Child>, now: int, start: int, end: int)
    requires Bounds(children, now, start, end)
    ensures (exists s :: BlockFits(children, now, s)) <==> start + Max(TotalTime(children), 1) <= end
  {
    forall s ensures BlockFits(children, now, s) <==> start <= s && s + Max(TotalTime(children), 1) <= end {
      BlockAt(children, now, start, end, s);
    }
    var first := BlockFits(children, now, start);
  }

  lemma BlockAt(children: seq<Child>, now: int, start: int, end: int, s: int)
    requires Bounds(children, now, start, end)
    ensures BlockFits(children, now, s) <==> start <= s && s + Max(TotalTime(children), 1) <= end
  {
    var e := s + Max(TotalTime(children), 1);
    var starts, ends := AllMayStart(children, s), AllMayEnd(children, e);
    FitsIsBounds(children, now, s);
  }

  lemma FitsIsBounds(children: seq<Child>, now: int, s: int)
    ensures BlockFits(children, now, s) <==>
              now <= s && AllMayStart(children, s) && s + Max(TotalTime(children), 1) <= I64_MAX
              && AllMayEnd(children, s + Max(TotalTime(children), 1))
  {
  }

  /** Every child run back to back from `s` inside its own bounds. */
  ghost predicate ChildrenFit(children: seq<Child>, now: int, s: int)
  {
    now <= s && forall i, j :: 0 <= i < |children| && j == i + 1 ==> ChildFits(children, i, j, s)
  }

  ghost predicate ChildFits(children: seq<Child>, i: nat, j: nat, s: int)
    requires i < j <= |children|
  {
    MayStart(children[i], s + TotalTime(children[..i])) && MayEnd(children[i], s + TotalTime(children[..j]))
  }

  /** In an accepted block every child keeps its own bounds. */
  lemma BlockKeepsChildren(children: seq<Child>, now: int, s: int)
    requires BlockFits(children, now, s)
    ensures ChildrenFit(children, now, s)
  {
    forall i, j | 0 <= i < |children| && j == i + 1 ensures ChildFits(children, i, j, s) {
      TimeMonotone(children, i);
      TimeMonotone(children, j);
      var e := s + Max(TotalTime(children), 1);
      assert MayStart(children[i], s) && MayEnd(children[i], e);
    }
  }

  /** The check is stricter than the children need: here each could keep its bounds, and no block is accepted. */
  lemma AcceptanceIsConservative() returns (children: seq<Child>)
    ensures |children| == 2 && (forall i :: 0 <= i < |children| ==> Plain(children[i]))
    ensures ChildrenFit(children, 0, 0) && forall s :: !BlockFits(children, 0, s)
  {
    var a, b := Child(false, false, Some((0, 10)), None, 10), Child(false, false, Some((10, 20)), None, 10);
    children := [a, b];
    assert children[..0] == [] && children[..1] == [a] && children[..2] == children;
    assert [a][..0] == [];
    TimeSnoc([], a);
    TimeSnoc([a], b);
    assert [] + [a] == [a] && [a] + [b] == children;
    assert TotalTime([a]) == 10 && TotalTime(children) == 20;
    forall s ensures !BlockFits(children, 0, s) {
      assert !MayStart(children[1], s) || !MayEnd(children[0], s + 20);
    }
    assert ChildFits(children, 0, 1, 0) && ChildFits(children, 1, 2, 0);
  }

  /** Every segment of more than one child has to be acceptable. */
  method ValidateSegments(children: seq<Child>, splits: seq<nat>, now: I64) returns (r: Result<(), SegmentError>)
    requires ValidSplits(splits, |children|) && |children| > 0
    ensures r.Ok? <==> forall k :: 0 <= k < |Ranges(splits, |children|)| ==>
        Acceptable(children, Ranges(splits, |children|), k, now)
  {
    var ranges := SegmentRanges.Segments(|children|, splits);
    RangesTile(0, splits, |children|);
    var i := 0;
    while i < |ranges|
      invariant 0 <= i <= |ranges|
      invariant forall k :: 0 <= k < i ==> Acceptable(children, ranges, k, now)
    {
      RangeInside(ranges, |children|, i);
      var range := ranges[i];
      if range.hi - range.lo > 1 {
        var one := ValidateSegment(children[range.lo..range.hi], now);
        if one.Err? {
          assert !Acceptable(children, ranges, i, now);
          return Err(one.error);
        }
      }
      i := i + 1;
    }
    return Ok(());
  }

  ghost predicate Acceptable(children: seq<Child>, ranges: seq<Range>, k: nat, now: int)
    requires k < |ranges|
  {
    ranges[k].lo <= ranges[k].hi <= |children| && (ranges[k].hi - ranges[k].lo > 1 ==>
      SegmentFits(children[ranges[k].lo..ranges[k].hi], now))
  }

  lemma RangeInside(ranges: seq<Range>, len: nat, i: nat)
    requires Tiles(ranges, 0, len) && i < |ranges|
    ensures ranges[i].lo < ranges[i].hi <= len
  {
    if i < |ranges| - 1 { TilesOrdered(ranges, 0, len, i, |ranges| - 1); }
  }

  // ----- how children wait for each other -----

  /** A prerequisite as proposed: a sibling by its position, counted from one, or an existing Task. */
  datatype Reference = Sibling(position: int) | Named(id: Id)

  /** A sibling reference is good if it names an earlier child. */
  ghost predicate Good(ref: Reference, i: nat, n: nat)
  {
    ref.Sibling? ==> 1 <= ref.position <= n && ref.position - 1 < i
  }

  /** Position `p` is the child listed `p`-th; an existing Task is itself. */
  ghost function Resolved(ref: Reference, ids: seq<Id>): Id
    requires Good(ref, |ids|, |ids|)
  {
    match ref
    case Sibling(p) => ids[p - 1]
    case Named(id) => id
  }

  /** What child `i` waits for: its references, each once, and the child before it. */
  ghost predicate WaitsFor(refs: seq<Reference>, ids: seq<Id>, i: nat, deps: seq<Id>)
    requires i < |ids|
  {
    && NoDuplicates(deps)
    && (forall k :: 0 <= k < |refs| ==> Good(refs[k], i, |ids|))
    && forall d :: d in deps <==>
        (i > 0 && d == ids[i - 1]) || exists k :: 0 <= k < |refs| && Resolved(refs[k], ids) == d
  }

  method ResolveChild(refs: seq<Reference>, ids: seq<Id>, i: nat) returns (deps: Option<seq<Id>>)
    requires i < |ids|
    ensures deps.Some? <==> forall k :: 0 <= k < |refs| ==> Good(refs[k], i, |ids|)
    ensures deps.Some? ==> WaitsFor(refs, ids, i, deps.value)
  {
    var out: seq<Id> := [];
    var k := 0;
    while k < |refs|
      invariant 0 <= k <= |refs| && NoDuplicates(out)
      invariant forall m :: 0 <= m < k ==> Good(refs[m], i, |ids|)
      invariant forall d :: d in out <==> exists m :: 0 <= m < k && Resolved(refs[m], ids) == d
    {
      var d: Id;
      match refs[k] {
        case Sibling(position) =>
          if position < 1 || position > |ids| || position - 1 >= i {
            assert !Good(refs[k], i, |ids|);
            return None;
          }
          d := ids[position - 1];
        case Named(id) =>
          d := id;
      }
      if d !in out { out := out + [d]; }
      k := k + 1;
    }
    if i > 0 && ids[i - 1] !in out { out := out + [ids[i - 1]]; }
    return Some(out);
  }

  method ResolveDependencies(refs: seq<seq<Reference>>, ids: seq<Id>) returns (deps: Option<seq<seq<Id>>>)
    requires |refs| == |ids|
    ensures deps.Some? <==> forall i, k :: 0 <= i < |ids| && 0 <= k < |refs[i]| ==> Good(refs[i][k], i, |ids|)
    ensures deps.Some? ==> |deps.value| == |ids| && forall i :: 0 <= i < |ids| ==>
        WaitsFor(refs[i], ids, i, deps.value[i])
  {
    var out: seq<seq<Id>> := [];
    var i := 0;
    while i < |ids|
      invariant 0 <= i <= |ids| && |out| == i
      invariant forall m :: 0 <= m < i ==> WaitsFor(refs[m], ids, m, out[m])
      invariant forall m, k :: 0 <= m < i && 0 <= k < |refs[m]| ==> Good(refs[m][k], m, |ids|)
    {
      var one := ResolveChild(refs[i], ids, i);
      if one.None? { return None; }
      out := out + [one.value];
      i := i + 1;
    }
    return Some(out);
  }

  /** The children of one decomposition, with handles minted for it. */
  ghost predicate Family(refs: seq<seq<Reference>>, ids: seq<Id>, deps: seq<seq<Id>>)
  {
    && |refs| == |ids| == |deps| && NoDuplicates(ids)
    && (forall i, k :: 0 <= i < |ids| && 0 <= k < |refs[i]| && refs[i][k].Named? ==> refs[i][k].id !in ids)
    && (forall i :: 0 <= i < |ids| ==> WaitsFor(refs[i], ids, i, deps[i]))
  }

  /** A child waits only for earlier children. */
  lemma SiblingsLookBack(refs: seq<seq<Reference>>, ids: seq<Id>, deps: seq<seq<Id>>, i: nat, j: nat)
    requires Family(refs, ids, deps) && i < |ids| && j < |ids| && ids[j] in deps[i]
    ensures j < i
  {
    assert WaitsFor(refs[i], ids, i, deps[i]);
    if !(i > 0 && ids[j] == ids[i - 1]) {
      var k :| 0 <= k < |refs[i]| && Resolved(refs[i][k], ids) == ids[j];
      assert Good(refs[i][k], i, |ids|);
      assert refs[i][k].Sibling?;
    }
  }

  /** Who waits for whom among siblings. */
  ghost function SiblingGraph(ids: seq<Id>, deps: seq<seq<Id>>): Graph
    requires |ids| == |deps|
  {
    map id | id in ids :: set d | d in deps[FirstIndex(ids, id)] && d in ids
  }

  /** The chain and every reference together form no cycle, and the list itself is an order for them. */
  lemma SiblingsAcyclic(refs: seq<seq<Reference>>, ids: seq<Id>, deps: seq<seq<Id>>)
    requires Family(refs, ids, deps)
    ensures Forward(SiblingGraph(ids, deps), ids) && Acyclic(SiblingGraph(ids, deps))
    ensures forall i, j :: 0 <= i && j == i + 1 && j < |ids| ==> Needs(SiblingGraph(ids, deps), ids[j], ids[i])
  {
    var g := SiblingGraph(ids, deps);
    forall i, q | 0 <= i < |ids| && Needs(g, ids[i], q) ensures q in ids[..i] {
      assert FirstIndex(ids, ids[i]) == i;
      var j :| 0 <= j < |ids| && ids[j] == q;
      SiblingsLookBack(refs, ids, deps, i, j);
      assert ids[..i][j] == q;
    }
    ForwardIsAcyclic(g, ids);
    forall i, j | 0 <= i && j == i + 1 && j < |ids| ensures Needs(g, ids[j], ids[i]) {
      assert FirstIndex(ids, ids[j]) == j;
      assert WaitsFor(refs[j], ids, j, deps[j]);
    }
  }

  /** Children stored with their resolved prerequisites are what the planner's fusion asks for. */
  lemma ResolvedLooksBack(refs: seq<seq<Reference>>, ids: seq<Id>, deps: seq<seq<Id>>, tasks: seq<TaskSpec>, lo: nat,
                          hi: nat)
    requires Family(refs, ids, deps) && lo <= hi <= |ids|
    requires forall t, i :: t in tasks && 0 <= i < |ids| && t.id == ids[i] ==> t.dependsOn == deps[i]
    ensures LooksBack(tasks, ids[lo..hi])
  {
    var part := ids[lo..hi];
    forall i, j, t | 0 <= i < |part| && 0 <= j < |part| && t in tasks && t.id == part[i] && part[j] in t.dependsOn
      ensures j < i
    {
      var a, b := lo + i, lo + j;
      assert t.id == ids[a] && part[j] == ids[b];
      SiblingsLookBack(refs, ids, deps, a, b);
    }
  }
}
