/** Overlapping commitments become one busy span each; every Task keeps its own window beside it. */
module Clusters {
  import opened Basics
  import opened Sorting
  import opened Spans
  import opened Tasks
  import opened UnionFind

  // ----- the overlap relation between Static Tasks -----

  /** Every Static Task carries the proper window it is anchored to. */
  ghost predicate StaticsAnchored(tasks: seq<TaskSpec>)
  {
    forall i :: 0 <= i < |tasks| && tasks[i].Static() ==> Anchored(tasks[i])
  }

  ghost predicate Anchored(t: TaskSpec)
  {
    && t.window.Some? && Proper(t.window.value)
    && t.anchor == Some(t.window.value.start)
    && t.estimate.None?
    && t.duration == t.window.value.end - t.window.value.start
  }

  ghost predicate Touch(tasks: seq<TaskSpec>, a: nat, b: nat)
  {
    && a < |tasks| && b < |tasks| && tasks[a].Static() && tasks[b].Static()
    && tasks[a].window.Some? && tasks[b].window.Some?
    && Overlap(tasks[a].window.value, tasks[b].window.value)
  }

  ghost predicate Path(tasks: seq<TaskSpec>, p: seq<nat>)
  {
    && |p| > 0
    && forall i, j :: 0 <= i && j == i + 1 && j < |p| ==> Touch(tasks, p[i], p[j])
  }

  ghost predicate Joins(tasks: seq<TaskSpec>, p: seq<nat>, a: nat, b: nat)
  {
    Path(tasks, p) && p[0] == a && p[|p| - 1] == b
  }

  /** A chain of overlapping Static Tasks leads from `a` to `b`. */
  ghost predicate Connected(tasks: seq<TaskSpec>, a: nat, b: nat)
  {
    exists p :: Joins(tasks, p, a, b)
  }

  lemma ConnectedSelf(tasks: seq<TaskSpec>, a: nat)
    ensures Connected(tasks, a, a)
  {
    assert Joins(tasks, [a], a, a);
  }

  lemma ConnectedTouch(tasks: seq<TaskSpec>, a: nat, b: nat)
    requires Touch(tasks, a, b)
    ensures Connected(tasks, a, b) && Connected(tasks, b, a)
  {
    assert Joins(tasks, [a, b], a, b);
    assert Touch(tasks, b, a);
    assert Joins(tasks, [b, a], b, a);
  }

  lemma ConnectedThrough(tasks: seq<TaskSpec>, a: nat, b: nat, c: nat)
    requires Connected(tasks, a, b) && Connected(tasks, b, c)
    ensures Connected(tasks, a, c)
  {
    var p :| Joins(tasks, p, a, b);
    var q :| Joins(tasks, q, b, c);
    var r := p + q[1..];
    forall i, j | 0 <= i && j == i + 1 && j < |r| ensures Touch(tasks, r[i], r[j]) {
      if j < |p| {
        assert Touch(tasks, p[i], p[j]);
      } else {
        var k := i - (|p| - 1);
        assert r[i] == q[k] && r[j] == q[k + 1];
        assert Touch(tasks, q[k], q[k + 1]);
      }
    }
    assert Joins(tasks, r, a, c);
  }

  // ----- grouping -----

  /** Pairs before (i, j) in the order the double loop visits them. */
  ghost predicate Visited(a: nat, b: nat, i: nat, j: nat)
  {
    a < b && (a < i || (a == i && b < j))
  }

  ghost predicate GroupsSeen(tasks: seq<TaskSpec>, rep: seq<nat>, i: nat, j: nat)
  {
    && |rep| == |tasks|
    && (forall a, b :: 0 <= a < |rep| && 0 <= b < |rep| && rep[a] == rep[b] ==> Connected(tasks, a, b))
    && (forall a: nat, b: nat :: Touch(tasks, a, b) && Visited(a, b, i, j) ==> rep[a] == rep[b])
  }

  /** The groups are exactly the connected components of the overlap relation. */
  ghost predicate Components(tasks: seq<TaskSpec>, rep: seq<nat>)
  {
    && |rep| == |tasks|
    && forall a, b :: 0 <= a < |rep| && 0 <= b < |rep| ==> (rep[a] == rep[b] <==> Connected(tasks, a, b))
  }

  lemma JoiningKeepsConnected(tasks: seq<TaskSpec>, rep: seq<nat>, i: nat, j: nat)
    requires GroupsSeen(tasks, rep, i, j) && Touch(tasks, i, j) && i < j
    ensures GroupsSeen(tasks, Rerooted(rep, rep[i], rep[j]), i, j + 1)
  {
    var joined := Rerooted(rep, rep[i], rep[j]);
    ConnectedTouch(tasks, i, j);
    forall a, b | 0 <= a < |rep| && 0 <= b < |rep| && joined[a] == joined[b] ensures Connected(tasks, a, b) {
      if rep[a] != rep[b] {
        if rep[a] == rep[i] {
          ConnectedThrough(tasks, a, i, j);
          ConnectedThrough(tasks, a, j, b);
        } else {
          ConnectedThrough(tasks, a, j, i);
          ConnectedThrough(tasks, a, i, b);
        }
      }
    }
  }

  lemma {:induction false} PathStaysInGroup(tasks: seq<TaskSpec>, rep: seq<nat>, p: seq<nat>)
    requires |rep| == |tasks| && Path(tasks, p)
    requires forall a: nat, b: nat :: Touch(tasks, a, b) ==> rep[a] == rep[b]
    requires p[0] < |rep|
    ensures p[|p| - 1] < |rep| && rep[p[0]] == rep[p[|p| - 1]]
  {
    if |p| > 1 {
      var tail := p[1..];
      assert Touch(tasks, p[0], p[1]);
      forall i, j | 0 <= i && j == i + 1 && j < |tail| ensures Touch(tasks, tail[i], tail[j]) {
        assert tail[i] == p[i + 1] && tail[j] == p[j + 1];
      }
      PathStaysInGroup(tasks, rep, tail);
    }
  }

  lemma AllSeenIsComponents(tasks: seq<TaskSpec>, rep: seq<nat>)
    requires GroupsSeen(tasks, rep, |tasks|, 0)
    ensures Components(tasks, rep)
  {
    forall a: nat, b: nat | Touch(tasks, a, b) ensures rep[a] == rep[b] {
      assert Touch(tasks, b, a);
      assert Visited(a, b, |tasks|, 0) || Visited(b, a, |tasks|, 0) || a == b;
    }
    forall a, b | 0 <= a < |rep| && 0 <= b < |rep| && Connected(tasks, a, b) ensures rep[a] == rep[b] {
      var p :| Joins(tasks, p, a, b);
      PathStaysInGroup(tasks, rep, p);
    }
  }

  /** Join every overlapping pair of Static Tasks. */
  method JoinOverlaps(tasks: seq<TaskSpec>) returns (parents: array<nat>, ghost rep: seq<nat>, ghost depth: seq<nat>)
    requires StaticsAnchored(tasks)
    ensures fresh(parents) && parents.Length == |tasks|
    ensures Forest(parents[..], rep, depth)
    ensures Components(tasks, rep)
  {
    var n := |tasks|;
    parents := new nat[n](i => i);
    rep, depth := seq(n, i => i), seq(n, _ => 0);
    IdentityIsForest(n);
    assert parents[..] == seq(n, i => i);
    forall a | 0 <= a < n ensures Connected(tasks, a, a) { ConnectedSelf(tasks, a); }
    var i := 0;
    while i < n
      invariant 0 <= i <= n && fresh(parents) && parents.Length == n
      invariant Forest(parents[..], rep, depth)
      invariant GroupsSeen(tasks, rep, i, 0)
    {
      if tasks[i].anchor.Some? {
        var j := i + 1;
        NothingBelow(tasks, rep, i);
        while j < n
          invariant i < j <= n && fresh(parents) && parents.Length == n
          invariant Forest(parents[..], rep, depth)
          invariant GroupsSeen(tasks, rep, i, j)
        {
          if tasks[j].anchor.Some? && Overlap(tasks[i].window.value, tasks[j].window.value) {
            JoiningKeepsConnected(tasks, rep, i, j);
            rep, depth := Union(parents, i, j, rep, depth);
          } else {
            NoTouchNoNews(tasks, rep, i, j);
          }
          j := j + 1;
        }
      }
      RowDone(tasks, rep, i);
      i := i + 1;
    }
    AllSeenIsComponents(tasks, rep);
  }

  lemma NothingBelow(tasks: seq<TaskSpec>, rep: seq<nat>, i: nat)
    requires GroupsSeen(tasks, rep, i, 0)
    ensures GroupsSeen(tasks, rep, i, i + 1)
  {
  }

  lemma NoTouchNoNews(tasks: seq<TaskSpec>, rep: seq<nat>, i: nat, j: nat)
    requires GroupsSeen(tasks, rep, i, j) && !Touch(tasks, i, j)
    ensures GroupsSeen(tasks, rep, i, j + 1)
  {
  }

  lemma RowDone(tasks: seq<TaskSpec>, rep: seq<nat>, i: nat)
    requires i < |tasks|
    requires GroupsSeen(tasks, rep, i, |tasks|) || (GroupsSeen(tasks, rep, i, 0) && !tasks[i].Static())
    ensures GroupsSeen(tasks, rep, i + 1, 0)
  {
  }

  // ----- what one group becomes -----

  function StartOf(t: TaskSpec): (s: U64)
    ensures t.window.Some? ==> s == t.window.value.start
  {
    if t.window.Some? then t.window.value.start else 0
  }

  function EndOf(t: TaskSpec): (e: U64)
    ensures t.window.Some? ==> e == t.window.value.end
  {
    if t.window.Some? then t.window.value.end else 0
  }

  /** The earliest start carries; among those the latest end, then the least handle. */
  ghost predicate CarrierLeq(a: TaskSpec, b: TaskSpec)
  {
    && StartOf(a) <= StartOf(b)
    && (StartOf(a) == StartOf(b) ==> EndOf(b) <= EndOf(a) && (EndOf(a) == EndOf(b) ==> a.id <= b.id))
  }

  ghost predicate IsCarrier(tasks: seq<TaskSpec>, rep: seq<nat>, c: nat)
  {
    && c < |tasks| == |rep|
    && forall k :: 0 <= k < |tasks| && rep[k] == rep[c] ==> CarrierLeq(tasks[c], tasks[k])
  }

  ghost predicate Alone(rep: seq<nat>, c: nat)
    requires c < |rep|
  {
    forall k :: 0 <= k < |rep| && rep[k] == rep[c] ==> k == c
  }

  /** The latest end of any member of the group of `c`. */
  ghost predicate GroupEnd(tasks: seq<TaskSpec>, rep: seq<nat>, c: nat, e: nat)
    requires c < |tasks| == |rep|
  {
    && (exists k :: 0 <= k < |tasks| && rep[k] == rep[c] && EndOf(tasks[k]) == e)
    && (forall k :: 0 <= k < |tasks| && rep[k] == rep[c] ==> EndOf(tasks[k]) <= e)
  }

  ghost function GroupIds(tasks: seq<TaskSpec>, rep: seq<nat>, c: nat): set<Id>
    requires c < |tasks| == |rep|
  {
    set k | 0 <= k < |tasks| && rep[k] == rep[c] :: tasks[k].id
  }

  /** What any member depends on outside the group. */
  ghost function GroupNeeds(tasks: seq<TaskSpec>, rep: seq<nat>, c: nat): set<Id>
    requires c < |tasks| == |rep|
  {
    (set k, d | 0 <= k < |tasks| && rep[k] == rep[c] && d in tasks[k].dependsOn :: d) - GroupIds(tasks, rep, c)
  }

  /** `m` reserves the whole span of the group of `c` under the handle of `c`. */
  ghost predicate Carries(tasks: seq<TaskSpec>, rep: seq<nat>, c: nat, m: TaskSpec)
    requires c < |tasks| == |rep|
  {
    if Alone(rep, c) then m == tasks[c]
    else
      var (start, end) := (StartOf(tasks[c]), EndOf(m));
      && GroupEnd(tasks, rep, c, end) && start <= end
      && m == tasks[c].(duration := end - start, window := Some(TimeWindow(start, end)), anchor := Some(start),
                        dependsOn := Ascending(GroupNeeds(tasks, rep, c)))
  }

  datatype Entry = Entry(index: nat, task: TaskSpec)

  predicate EntryLeq(a: Entry, b: Entry)
  {
    var (s, t) := (StartOf(a.task), StartOf(b.task));
    var (d, e) := (EndOf(a.task), EndOf(b.task));
    s < t || (s == t && (d > e || (d == e && a.task.id <= b.task.id)))
  }

  ghost predicate GroupOf(tasks: seq<TaskSpec>, rep: seq<nat>, r: nat, group: seq<Entry>)
  {
    && |rep| == |tasks| && NoDuplicates(group)
    && forall e :: e in group <==> e.index < |tasks| && rep[e.index] == r && e.task == tasks[e.index]
  }

  method LatestEnd(group: seq<Entry>) returns (e: U64)
    requires |group| > 0
    ensures exists k :: 0 <= k < |group| && EndOf(group[k].task) == e
    ensures forall k :: 0 <= k < |group| ==> EndOf(group[k].task) <= e
  {
    e := EndOf(group[0].task);
    for i := 1 to |group|
      invariant exists k :: 0 <= k < i && EndOf(group[k].task) == e
      invariant forall k :: 0 <= k < i ==> EndOf(group[k].task) <= e
    {
      e := Max(e, EndOf(group[i].task));
    }
  }

  function MemberIds(group: seq<Entry>): set<Id>
  {
    set e | e in group :: e.task.id
  }

  function OutsideNeeds(group: seq<Entry>): set<Id>
  {
    (set e, d | e in group && d in e.task.dependsOn :: d) - MemberIds(group)
  }

  lemma GroupSets(tasks: seq<TaskSpec>, rep: seq<nat>, r: nat, group: seq<Entry>, c: nat)
    requires GroupOf(tasks, rep, r, group) && c < |tasks| && rep[c] == r
    ensures MemberIds(group) == GroupIds(tasks, rep, c)
    ensures OutsideNeeds(group) == GroupNeeds(tasks, rep, c)
  {
    forall k | 0 <= k < |tasks| && rep[k] == r ensures Entry(k, tasks[k]) in group {
      assert Entry(k, tasks[k]).index < |tasks|;
    }
    forall k | 0 <= k < |tasks| && rep[k] == r
      ensures tasks[k].id in MemberIds(group)
      ensures forall d :: d in tasks[k].dependsOn ==> d in set e, x | e in group && x in e.task.dependsOn :: x
    {
      var e := Entry(k, tasks[k]);
      assert e in group && e.task.id == tasks[k].id && e.task.dependsOn == tasks[k].dependsOn;
    }
  }

  /** Fuse one group of two or more into its carrier. */
  method FuseGroup(tasks: seq<TaskSpec>, group: seq<Entry>, ghost rep: seq<nat>, ghost r: nat)
    returns (carrier: Entry, others: seq<Entry>, fused: TaskSpec)
    requires GroupOf(tasks, rep, r, group) && |group| > 1
    requires forall e :: e in group ==> e.task.window.Some? && Proper(e.task.window.value)
    ensures carrier in group && IsCarrier(tasks, rep, carrier.index)
    ensures multiset(others) + multiset{carrier} == multiset(group)
    ensures Carries(tasks, rep, carrier.index, fused)
  {
    var sorted := Sort(EntryLeq, group);
    carrier, others := sorted[0], sorted[1..];
    var end := LatestEnd(group);
    fused := Fused(carrier.task, end, OutsideNeeds(group));
    SortSorted(EntryLeq, group);
    assert sorted == [carrier] + others;
    FusedCarries(tasks, rep, r, group, sorted, end);
  }

  function Fused(t: TaskSpec, end: U64, needs: set<Id>): TaskSpec
  {
    var start := StartOf(t);
    if start <= end then
      t.(duration := end - start, window := Some(TimeWindow(start, end)), anchor := Some(start),
         dependsOn := Ascending(needs))
    else t
  }

  lemma FusedCarries(tasks: seq<TaskSpec>, rep: seq<nat>, r: nat, group: seq<Entry>, sorted: seq<Entry>, end: U64)
    requires GroupOf(tasks, rep, r, group) && |group| > 1 && |sorted| > 0
    requires SortedBy(EntryLeq, sorted) && multiset(sorted) == multiset(group)
    requires forall e :: e in group ==> e.task.window.Some? && Proper(e.task.window.value)
    requires exists k :: 0 <= k < |group| && EndOf(group[k].task) == end
    requires forall k :: 0 <= k < |group| ==> EndOf(group[k].task) <= end
    ensures sorted[0] in group && IsCarrier(tasks, rep, sorted[0].index)
    ensures Carries(tasks, rep, sorted[0].index, Fused(sorted[0].task, end, OutsideNeeds(group)))
  {
    var c := sorted[0].index;
    MultisetMembers(sorted, group);
    assert sorted[0] in group;
    var k :| 0 <= k < |group| && group[k] == sorted[0];
    FirstOfSortedCarries(tasks, rep, r, group, sorted);
    GroupSets(tasks, rep, r, group, c);
    LatestIsGroupEnd(tasks, rep, r, group, c, end);
    NotAlone(tasks, rep, r, group, c);
  }

  lemma FirstOfSortedCarries(tasks: seq<TaskSpec>, rep: seq<nat>, r: nat, group: seq<Entry>, sorted: seq<Entry>)
    requires GroupOf(tasks, rep, r, group) && |sorted| > 0
    requires SortedBy(EntryLeq, sorted) && multiset(sorted) == multiset(group)
    ensures IsCarrier(tasks, rep, sorted[0].index)
  {
    MultisetMembers(sorted, group);
    assert sorted[0] in group;
    forall k | 0 <= k < |tasks| && rep[k] == r ensures CarrierLeq(sorted[0].task, tasks[k]) {
      var e := Entry(k, tasks[k]);
      assert e in group;
      var m :| 0 <= m < |sorted| && sorted[m] == e;
      assert EntryLeq(sorted[0], sorted[m]);
    }
  }

  lemma LatestIsGroupEnd(tasks: seq<TaskSpec>, rep: seq<nat>, r: nat, group: seq<Entry>, c: nat, end: nat)
    requires GroupOf(tasks, rep, r, group) && c < |tasks| && rep[c] == r
    requires exists k :: 0 <= k < |group| && EndOf(group[k].task) == end
    requires forall k :: 0 <= k < |group| ==> EndOf(group[k].task) <= end
    ensures GroupEnd(tasks, rep, c, end)
  {
    var k :| 0 <= k < |group| && EndOf(group[k].task) == end;
    assert group[k] in group;
    forall m | 0 <= m < |tasks| && rep[m] == r ensures EndOf(tasks[m]) <= end {
      var e := Entry(m, tasks[m]);
      assert e in group;
      var x :| 0 <= x < |group| && group[x] == e;
    }
  }

  lemma NotAlone(tasks: seq<TaskSpec>, rep: seq<nat>, r: nat, group: seq<Entry>, c: nat)
    requires GroupOf(tasks, rep, r, group) && c < |tasks| && rep[c] == r && |group| > 1
    ensures !Alone(rep, c)
  {
    var a, b := group[0], group[1];
    assert a != b && a in group && b in group;
    assert a.index != c || b.index != c;
  }

  // ----- collecting the groups -----

  ghost predicate PartOf(tasks: seq<TaskSpec>, rep: seq<nat>, r: nat, upTo: nat, group: seq<Entry>)
  {
    && |rep| == |tasks| && NoDuplicates(group)
    && forall e :: e in group <==> e.index < upTo && e.index < |tasks| && rep[e.index] == r && e.task == tasks[e.index]
  }

  ghost predicate Collected(tasks: seq<TaskSpec>, rep: seq<nat>, upTo: nat, groups: map<nat, seq<Entry>>)
  {
    && |rep| == |tasks| && upTo <= |tasks|
    && (forall k :: 0 <= k < upTo ==> rep[k] in groups)
    && (forall r :: r in groups ==> |groups[r]| > 0 && PartOf(tasks, rep, r, upTo, groups[r]))
  }

  lemma CollectOne(tasks: seq<TaskSpec>, rep: seq<nat>, i: nat, groups: map<nat, seq<Entry>>)
    requires Collected(tasks, rep, i, groups) && i < |tasks|
    ensures var r := rep[i];
            var group := if r in groups then groups[r] else [];
            Collected(tasks, rep, i + 1, groups[r := group + [Entry(i, tasks[i])]])
  {
    var r, entry := rep[i], Entry(i, tasks[i]);
    var group := if r in groups then groups[r] else [];
    var grown := groups[r := group + [entry]];
    assert entry !in group;
    forall e ensures e in group + [entry] <==> e in group || e == entry {}
    forall q | q in grown ensures |grown[q]| > 0 && PartOf(tasks, rep, q, i + 1, grown[q]) {
      if q == r {
        assert NoDuplicates(group + [entry]);
      } else {
        assert PartOf(tasks, rep, q, i, groups[q]);
      }
    }
  }

  method CollectGroups(tasks: seq<TaskSpec>, parents: array<nat>, ghost rep: seq<nat>, ghost depth: seq<nat>)
    returns (groups: map<nat, seq<Entry>>)
    requires parents.Length == |tasks| && Forest(parents[..], rep, depth)
    modifies parents
    ensures Collected(tasks, rep, |tasks|, groups)
  {
    groups := map[];
    var i := 0;
    while i < |tasks|
      invariant 0 <= i <= |tasks|
      invariant Forest(parents[..], rep, depth)
      invariant Collected(tasks, rep, i, groups)
    {
      var r := Root(parents, i, rep, depth);
      CollectOne(tasks, rep, i, groups);
      groups := groups[r := (if r in groups then groups[r] else []) + [Entry(i, tasks[i])]];
      i := i + 1;
    }
  }

  lemma CollectedIsGroup(tasks: seq<TaskSpec>, rep: seq<nat>, groups: map<nat, seq<Entry>>, r: nat)
    requires Collected(tasks, rep, |tasks|, groups) && r in groups
    ensures GroupOf(tasks, rep, r, groups[r])
    ensures exists k :: 0 <= k < |tasks| && rep[k] == r
  {
    assert PartOf(tasks, rep, r, |tasks|, groups[r]);
    assert groups[r][0] in groups[r];
  }

  // ----- progress over the groups -----

  ghost predicate Covers(tasks: seq<TaskSpec>, rep: seq<nat>, done: set<int>, t: TaskSpec)
    requires |rep| == |tasks|
  {
    exists k :: 0 <= k < |tasks| && rep[k] in done && !IsCarrier(tasks, rep, k) && tasks[k] == t
  }

  /** Carriers of finished groups hold the fused span; everything else is as it was. */
  ghost predicate Fusing(tasks: seq<TaskSpec>, rep: seq<nat>, done: set<int>, current: seq<TaskSpec>)
  {
    && |current| == |tasks| == |rep|
    && forall k :: 0 <= k < |tasks| ==>
         if rep[k] in done && IsCarrier(tasks, rep, k) then Carries(tasks, rep, k, current[k])
         else current[k] == tasks[k]
  }

  ghost predicate Covering(tasks: seq<TaskSpec>, rep: seq<nat>, done: set<int>, covered: seq<TaskSpec>)
  {
    && |rep| == |tasks| && UniqueIds(covered)
    && forall t :: t in covered <==> Covers(tasks, rep, done, t)
  }

  /** Each carrier's own window is kept to be restored after planning. */
  ghost predicate Keeping(tasks: seq<TaskSpec>, rep: seq<nat>, done: set<int>, carriers: map<Id, TimeWindow>)
  {
    && |rep| == |tasks|
    && (forall k :: 0 <= k < |tasks| && rep[k] in done && IsCarrier(tasks, rep, k) && !Alone(rep, k) ==>
          tasks[k].id in carriers && Some(carriers[tasks[k].id]) == tasks[k].window)
    && (forall id :: id in carriers ==>
          exists k :: 0 <= k < |tasks| && rep[k] in done && IsCarrier(tasks, rep, k) && !Alone(rep, k)
              && tasks[k].id == id)
  }

  /** A group has one carrier. */
  lemma CarrierUnique(tasks: seq<TaskSpec>, rep: seq<nat>, a: nat, b: nat)
    requires UniqueIds(tasks) && IsCarrier(tasks, rep, a) && IsCarrier(tasks, rep, b) && rep[a] == rep[b]
    ensures a == b
  {
    assert CarrierLeq(tasks[a], tasks[b]) && CarrierLeq(tasks[b], tasks[a]);
    if a != b { DifferentIds(tasks, a, b); }
  }

  lemma SingletonIsCarrier(tasks: seq<TaskSpec>, rep: seq<nat>, r: nat, group: seq<Entry>, k: nat)
    requires GroupOf(tasks, rep, r, group) && |group| == 1
    requires k < |tasks| && rep[k] == r
    ensures Alone(rep, k) && IsCarrier(tasks, rep, k)
  {
    forall m | 0 <= m < |tasks| && rep[m] == r ensures m == k {
      var a, b := Entry(m, tasks[m]), Entry(k, tasks[k]);
      assert a in group && b in group;
    }
  }

  /** A group of one changes nothing. */
  lemma SingletonDone(tasks: seq<TaskSpec>, rep: seq<nat>, done: set<int>, r: nat, group: seq<Entry>,
                      current: seq<TaskSpec>, covered: seq<TaskSpec>, carriers: map<Id, TimeWindow>)
    requires GroupOf(tasks, rep, r, group) && |group| == 1
    requires Fusing(tasks, rep, done, current) && Covering(tasks, rep, done, covered)
    requires Keeping(tasks, rep, done, carriers)
    ensures Fusing(tasks, rep, done + {r}, current)
    ensures Covering(tasks, rep, done + {r}, covered)
    ensures Keeping(tasks, rep, done + {r}, carriers)
  {
    forall k | 0 <= k < |tasks| && rep[k] == r ensures Alone(rep, k) && IsCarrier(tasks, rep, k) {
      SingletonIsCarrier(tasks, rep, r, group, k);
    }
    forall t ensures Covers(tasks, rep, done, t) <==> Covers(tasks, rep, done + {r}, t) {
      if Covers(tasks, rep, done + {r}, t) {
        var k :| 0 <= k < |tasks| && rep[k] in done + {r} && !IsCarrier(tasks, rep, k) && tasks[k] == t;
        assert rep[k] in done;
      }
    }
  }

  lemma FusingOneMore(tasks: seq<TaskSpec>, rep: seq<nat>, done: set<int>, r: nat, current: seq<TaskSpec>,
                      c: nat, fused: TaskSpec)
    requires UniqueIds(tasks) && Fusing(tasks, rep, done, current) && r !in done
    requires IsCarrier(tasks, rep, c) && rep[c] == r && Carries(tasks, rep, c, fused)
    ensures Fusing(tasks, rep, done + {r}, current[c := fused])
  {
    forall k | 0 <= k < |tasks| && rep[k] == r && IsCarrier(tasks, rep, k) ensures k == c {
      CarrierUnique(tasks, rep, k, c);
    }
  }

  lemma KeepingOneMore(tasks: seq<TaskSpec>, rep: seq<nat>, done: set<int>, r: nat, carriers: map<Id, TimeWindow>,
                       c: nat, own: TimeWindow)
    requires UniqueIds(tasks) && Keeping(tasks, rep, done, carriers) && r !in done
    requires IsCarrier(tasks, rep, c) && rep[c] == r && !Alone(rep, c) && tasks[c].window == Some(own)
    ensures Keeping(tasks, rep, done + {r}, carriers[tasks[c].id := own])
  {
    var kept := carriers[tasks[c].id := own];
    forall k | 0 <= k < |tasks| && rep[k] in done + {r} && IsCarrier(tasks, rep, k) && !Alone(rep, k)
      ensures tasks[k].id in kept && Some(kept[tasks[k].id]) == tasks[k].window
    {
      if rep[k] == r {
        CarrierUnique(tasks, rep, k, c);
      } else {
        DifferentIds(tasks, k, c);
      }
    }
  }

  lemma DifferentIds(tasks: seq<TaskSpec>, a: nat, b: nat)
    requires UniqueIds(tasks) && a < |tasks| && b < |tasks| && a != b
    ensures tasks[a].id != tasks[b].id
  {
    if a < b { } else { assert b < a; }
  }

  lemma CoveringOneMore(tasks: seq<TaskSpec>, rep: seq<nat>, done: set<int>, r: nat, covered: seq<TaskSpec>,
                        group: seq<Entry>, carrier: Entry, others: seq<Entry>)
    requires UniqueIds(tasks) && Covering(tasks, rep, done, covered) && r !in done
    requires GroupOf(tasks, rep, r, group) && carrier in group && IsCarrier(tasks, rep, carrier.index)
    requires multiset(others) + multiset{carrier} == multiset(group)
    ensures Covering(tasks, rep, done + {r}, covered + TasksOf(others))
  {
    var grown := covered + TasksOf(others);
    OthersAreRest(group, carrier, others);
    forall t ensures t in grown <==> Covers(tasks, rep, done + {r}, t) {
      if t in TasksOf(others) {
        var x :| 0 <= x < |others| && TasksOf(others)[x] == t;
        var e := others[x];
        assert e in others && e in group;
        NotCarrier(tasks, rep, r, group, carrier, e);
        assert rep[e.index] in done + {r} && tasks[e.index] == t;
      }
      if t in covered {
        assert Covers(tasks, rep, done, t);
        var k :| 0 <= k < |tasks| && rep[k] in done && !IsCarrier(tasks, rep, k) && tasks[k] == t;
        assert rep[k] in done + {r};
      }
      if Covers(tasks, rep, done + {r}, t) {
        var k :| 0 <= k < |tasks| && rep[k] in done + {r} && !IsCarrier(tasks, rep, k) && tasks[k] == t;
        if rep[k] == r {
          var e := Entry(k, tasks[k]);
          assert e in group && e != carrier;
          assert e in others;
          var x :| 0 <= x < |others| && others[x] == e;
          assert TasksOf(others)[x] == t;
        } else {
          assert Covers(tasks, rep, done, t);
        }
      }
    }
    GrownUnique(tasks, rep, done, r, covered, group, others);
  }

  function TasksOf(entries: seq<Entry>): (r: seq<TaskSpec>)
    ensures |r| == |entries| && forall i :: 0 <= i < |r| ==> r[i] == entries[i].task
  {
    seq(|entries|, i requires 0 <= i < |entries| => entries[i].task)
  }

  lemma OthersAreRest(group: seq<Entry>, carrier: Entry, others: seq<Entry>)
    requires NoDuplicates(group) && multiset(others) + multiset{carrier} == multiset(group)
    ensures NoDuplicates(others)
    ensures forall e :: e in others <==> e in group && e != carrier
  {
    DistinctCounts(group);
    assert forall x :: multiset(others)[x] <= multiset(group)[x];
    DistinctCounts(others);
    forall e ensures e in others <==> e in group && e != carrier {
      assert e in others <==> e in multiset(others);
      assert e in group <==> e in multiset(group);
      assert multiset(group)[e] == multiset(others)[e] + if e == carrier then 1 else 0;
    }
  }

  lemma NotCarrier(tasks: seq<TaskSpec>, rep: seq<nat>, r: nat, group: seq<Entry>, carrier: Entry, e: Entry)
    requires UniqueIds(tasks) && GroupOf(tasks, rep, r, group) && carrier in group && e in group && e != carrier
    requires IsCarrier(tasks, rep, carrier.index)
    ensures !IsCarrier(tasks, rep, e.index)
  {
    if IsCarrier(tasks, rep, e.index) {
      CarrierUnique(tasks, rep, e.index, carrier.index);
    }
  }

  lemma GrownUnique(tasks: seq<TaskSpec>, rep: seq<nat>, done: set<int>, r: nat, covered: seq<TaskSpec>,
                    group: seq<Entry>, others: seq<Entry>)
    requires UniqueIds(tasks) && Covering(tasks, rep, done, covered) && r !in done
    requires GroupOf(tasks, rep, r, group) && NoDuplicates(others)
    requires forall e :: e in others ==> e in group
    ensures UniqueIds(covered + TasksOf(others))
  {
    var grown := covered + TasksOf(others);
    forall i, j | 0 <= i < j < |grown| ensures grown[i].id != grown[j].id {
      if j < |covered| {
        assert covered[i].id != covered[j].id;
      } else {
        var b := others[j - |covered|];
        assert b in others && b in group;
        if i < |covered| {
          assert covered[i] in covered;
          assert Covers(tasks, rep, done, covered[i]);
          var k :| 0 <= k < |tasks| && rep[k] in done && !IsCarrier(tasks, rep, k) && tasks[k] == covered[i];
          DifferentIds(tasks, k, b.index);
        } else {
          var a := others[i - |covered|];
          assert a in others && a in group && a != b;
          DifferentIds(tasks, a.index, b.index);
        }
      }
    }
  }

  // ----- the pass -----

  /** The request after the pass, and what is set aside to be restored later. */
  ghost predicate Clustered(tasks: seq<TaskSpec>, rep: seq<nat>, fused: seq<TaskSpec>,
                            out: seq<TaskSpec>, covered: seq<TaskSpec>, carriers: map<Id, TimeWindow>)
  {
    && Components(tasks, rep)
    && |fused| == |tasks|
    && (forall k :: 0 <= k < |tasks| ==>
          if IsCarrier(tasks, rep, k) then Carries(tasks, rep, k, fused[k]) else fused[k] == tasks[k])
    && out == Filter((t: TaskSpec) => t.id !in Ids(covered), fused)
    && UniqueIds(covered)
    && (forall t :: t in covered <==> exists k :: 0 <= k < |tasks| && !IsCarrier(tasks, rep, k) && tasks[k] == t)
    && (forall k :: 0 <= k < |tasks| && IsCarrier(tasks, rep, k) && !Alone(rep, k) ==>
          tasks[k].id in carriers && Some(carriers[tasks[k].id]) == tasks[k].window)
    && (forall id :: id in carriers ==>
          exists k :: 0 <= k < |tasks| && IsCarrier(tasks, rep, k) && !Alone(rep, k) && tasks[k].id == id)
  }

  /** What the pass returns, whatever the groups are called. */
  ghost predicate ClusterOutcome(tasks: seq<TaskSpec>, out: seq<TaskSpec>, covered: seq<TaskSpec>,
                                 carriers: map<Id, TimeWindow>)
  {
    exists rep, fused :: Clustered(tasks, rep, fused, out, covered, carriers)
  }

  function Roots(groups: map<nat, seq<Entry>>): (r: set<int>)
    ensures forall x: int :: x in r <==> 0 <= x && x in groups
  {
    set r | r in groups :: r as int
  }

  ghost predicate Reached(tasks: seq<TaskSpec>, rep: seq<nat>, done: set<int>,
                          current: seq<TaskSpec>, covered: seq<TaskSpec>, carriers: map<Id, TimeWindow>)
  {
    && Fusing(tasks, rep, done, current)
    && Covering(tasks, rep, done, covered)
    && Keeping(tasks, rep, done, carriers)
  }

  method FuseNext(tasks: seq<TaskSpec>, group: seq<Entry>, current: seq<TaskSpec>, covered: seq<TaskSpec>,
                  carriers: map<Id, TimeWindow>, ghost rep: seq<nat>, ghost done: set<int>, ghost r: nat)
    returns (current': seq<TaskSpec>, covered': seq<TaskSpec>, carriers': map<Id, TimeWindow>)
    requires UniqueIds(tasks) && StaticsAnchored(tasks) && Components(tasks, rep)
    requires GroupOf(tasks, rep, r, group) && |group| > 0 && r !in done
    requires Reached(tasks, rep, done, current, covered, carriers)
    ensures Reached(tasks, rep, done + {r}, current', covered', carriers')
  {
    if |group| > 1 {
      GroupIsStatic(tasks, rep, r, group);
      var carrier, others, fused := FuseGroup(tasks, group, rep, r);
      current' := current[carrier.index := fused];
      carriers' := carriers[carrier.task.id := carrier.task.window.value];
      covered' := covered + TasksOf(others);
      NotAlone(tasks, rep, r, group, carrier.index);
      FusingOneMore(tasks, rep, done, r, current, carrier.index, fused);
      KeepingOneMore(tasks, rep, done, r, carriers, carrier.index, carrier.task.window.value);
      CoveringOneMore(tasks, rep, done, r, covered, group, carrier, others);
    } else {
      current', covered', carriers' := current, covered, carriers;
      SingletonDone(tasks, rep, done, r, group, current, covered, carriers);
    }
  }

  method FuseAll(tasks: seq<TaskSpec>, groups: map<nat, seq<Entry>>, ghost rep: seq<nat>)
    returns (current: seq<TaskSpec>, covered: seq<TaskSpec>, carriers: map<Id, TimeWindow>)
    requires UniqueIds(tasks) && StaticsAnchored(tasks)
    requires Components(tasks, rep) && Collected(tasks, rep, |tasks|, groups)
    ensures Reached(tasks, rep, Roots(groups), current, covered, carriers)
  {
    current, covered, carriers := tasks, [], map[];
    var roots := Ascending(Roots(groups));
    ghost var done: set<int> := {};
    assert UniqueIds(covered);
    var i := 0;
    while i < |roots|
      invariant 0 <= i <= |roots|
      invariant done == Elements(roots[..i])
      invariant Reached(tasks, rep, done, current, covered, carriers)
    {
      assert roots[i] in Elements(roots);
      var r: nat := roots[i];
      assert r !in done;
      CollectedIsGroup(tasks, rep, groups, r);
      current, covered, carriers := FuseNext(tasks, groups[r], current, covered, carriers, rep, done, r);
      assert roots[..i + 1] == roots[..i] + [roots[i]];
      assert Elements(roots[..i + 1]) == done + {r};
      done := done + {r};
      i := i + 1;
    }
    assert roots[..i] == roots;
  }

  /** Only Static Tasks are ever grouped with another. */
  lemma GroupIsStatic(tasks: seq<TaskSpec>, rep: seq<nat>, r: nat, group: seq<Entry>)
    requires StaticsAnchored(tasks) && Components(tasks, rep) && GroupOf(tasks, rep, r, group) && |group| > 1
    ensures forall e :: e in group ==> e.task.Static() && e.task.window.Some? && Proper(e.task.window.value)
  {
    forall e | e in group ensures e.task.Static() {
      var other := if group[0] == e then group[1] else group[0];
      assert other in group && other != e;
      assert other.index != e.index;
      assert Connected(tasks, e.index, other.index);
      var p :| Joins(tasks, p, e.index, other.index);
      assert |p| > 1;
      assert Touch(tasks, p[0], p[1]);
    }
  }

  /** Reserve each connected committed span once, keeping every window to restore. */
  method CommittedClusters(tasks: seq<TaskSpec>)
    returns (out: seq<TaskSpec>, covered: seq<TaskSpec>, carriers: map<Id, TimeWindow>,
             ghost rep: seq<nat>, ghost fused: seq<TaskSpec>)
    requires UniqueIds(tasks) && StaticsAnchored(tasks)
    ensures Clustered(tasks, rep, fused, out, covered, carriers)
    ensures ClusterOutcome(tasks, out, covered, carriers)
  {
    ghost var depth;
    var parents;
    parents, rep, depth := JoinOverlaps(tasks);
    var groups := CollectGroups(tasks, parents, rep, depth);
    var current;
    current, covered, carriers := FuseAll(tasks, groups, rep);
    fused := current;
    var removed := Ids(covered);
    out := Filter((t: TaskSpec) => t.id !in removed, current);
    AllGroupsDone(tasks, rep, groups, current, covered, carriers);
  }

  lemma AllGroupsDone(tasks: seq<TaskSpec>, rep: seq<nat>, groups: map<nat, seq<Entry>>,
                      fused: seq<TaskSpec>, covered: seq<TaskSpec>, carriers: map<Id, TimeWindow>)
    requires Components(tasks, rep) && Collected(tasks, rep, |tasks|, groups)
    requires Reached(tasks, rep, Roots(groups), fused, covered, carriers)
    ensures Clustered(tasks, rep, fused, Filter((t: TaskSpec) => t.id !in Ids(covered), fused), covered, carriers)
  {
    var done := Roots(groups);
    forall k | 0 <= k < |tasks| ensures rep[k] in done {
      assert rep[k] in groups;
    }
    forall t ensures t in covered <==> exists k :: 0 <= k < |tasks| && !IsCarrier(tasks, rep, k) && tasks[k] == t {
      assert t in covered <==> Covers(tasks, rep, done, t);
    }
  }
}
