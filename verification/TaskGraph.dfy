/** The dependency graph of a planning request and its deterministic topological order. */
module TaskGraph {
  import opened Basics
  import opened Graphs
  import opened Sorting
  import opened Tasks

  datatype Edge = Edge(before: Id, after: Id)

  datatype TaskGraphBody = TaskGraphBody(order: seq<Id>, edges: seq<Edge>)

  datatype GraphError = CyclicDependencyGraph

  // ----- ordering keys -----

  datatype Key = Key(rank: nat, priority: nat, deadline: nat, id: Id)

  predicate KeyLeq(a: Key, b: Key)
  {
    a.rank < b.rank || (a.rank == b.rank &&
    (a.priority < b.priority || (a.priority == b.priority &&
    (a.deadline < b.deadline || (a.deadline == b.deadline && a.id <= b.id)))))
  }

  /** What decides among ready Tasks: mandatory first, then priority, deadline and handle. */
  datatype Policy = Policy(mandatory: set<Id>, priorities: map<Id, nat>, deadlines: map<Id, nat>) {
    function KeyOf(id: Id): Key
    {
      Key(
        if id in mandatory then 0 else 1,
        if id in priorities then priorities[id] else 0,
        if id in deadlines then deadlines[id] else U64_MAX,
        id)
    }
  }

  /**
   * Mandatory Tasks go before optional ones, then a smaller priority number (0 if there is none), then an earlier
   * deadline (the end of time if there is none), then a smaller handle.
   */
  ghost predicate GoesFirst(policy: Policy, x: Id, y: Id)
  {
    var p := if x in policy.priorities then policy.priorities[x] else 0;
    var q := if y in policy.priorities then policy.priorities[y] else 0;
    var d := if x in policy.deadlines then policy.deadlines[x] else U64_MAX;
    var e := if y in policy.deadlines then policy.deadlines[y] else U64_MAX;
    if x in policy.mandatory <==> y !in policy.mandatory then x in policy.mandatory
    else if p != q then p < q
    else if d != e then d < e
    else x < y
  }

  lemma KeysDecide(policy: Policy, x: Id, y: Id)
    ensures KeyLeq(policy.KeyOf(x), policy.KeyOf(y)) <==> x == y || GoesFirst(policy, x, y)
  {
  }

  lemma {:induction false} LeastKeyExists(s: set<Key>)
    requires s != {}
    ensures exists m :: m in s && forall x :: x in s ==> KeyLeq(m, x)
  {
    var y := SomeElement(s);
    if s == {y} {
      assert y in s && forall x :: x in s ==> KeyLeq(y, x);
    } else {
      var rest := s - {y};
      assert s == rest + {y};
      LeastKeyExists(rest);
      var m :| m in rest && forall x :: x in rest ==> KeyLeq(m, x);
      var least := if KeyLeq(m, y) then m else y;
      assert least in s && forall x :: x in s ==> KeyLeq(least, x);
    }
  }

  function LeastKey(s: set<Key>): (m: Key)
    requires s != {}
    ensures m in s && forall x :: x in s ==> KeyLeq(m, x)
  {
    LeastKeyExists(s);
    var m :| m in s && forall x :: x in s ==> KeyLeq(m, x);
    m
  }

  // ----- the edge list -----

  ghost function EdgesInto(after: Id, dependsOn: seq<Id>): (r: seq<Edge>)
    ensures |r| == |dependsOn| && forall i :: 0 <= i < |r| ==> r[i] == Edge(dependsOn[i], after)
  {
    seq(|dependsOn|, i requires 0 <= i < |dependsOn| => Edge(dependsOn[i], after))
  }

  ghost function EdgeList(tasks: seq<TaskSpec>): seq<Edge>
  {
    if tasks == [] then []
    else EdgeList(tasks[..|tasks| - 1]) + EdgesInto(tasks[|tasks| - 1].id, tasks[|tasks| - 1].dependsOn)
  }

  lemma PrerequisitesSnoc(tasks: seq<TaskSpec>, t: TaskSpec, id: Id)
    ensures Prerequisites(tasks + [t], id) == Prerequisites(tasks, id) + if t.id == id then Elements(t.dependsOn)
        else {}
  {
    var all := tasks + [t];
    forall d | d in Prerequisites(tasks, id) ensures d in Prerequisites(all, id) {
      var i :| 0 <= i < |tasks| && tasks[i].id == id && d in tasks[i].dependsOn;
      assert all[i] == tasks[i];
    }
    if t.id == id {
      assert all[|tasks|] == t;
    }
  }

  lemma {:induction false} EdgeListMembers(tasks: seq<TaskSpec>, e: Edge)
    ensures e in EdgeList(tasks) <==> e.before in Prerequisites(tasks, e.after)
  {
    if tasks != [] {
      var n := |tasks| - 1;
      var last := tasks[n];
      EdgeListMembers(tasks[..n], e);
      PrerequisitesSnoc(tasks[..n], last, e.after);
      assert tasks == tasks[..n] + [last];
      var into := EdgesInto(last.id, last.dependsOn);
      if e.after == last.id && e.before in last.dependsOn {
        var k :| 0 <= k < |last.dependsOn| && last.dependsOn[k] == e.before;
        assert into[k] == e;
      }
    }
  }

  /** How many edges end at a Task: its indegree as the source counts it. */
  ghost function Indegree(edges: seq<Edge>, id: Id): nat
  {
    if edges == [] then 0
    else Indegree(edges[..|edges| - 1], id) + if edges[|edges| - 1].after == id then 1 else 0
  }

  ghost function Before(edges: seq<Edge>, id: Id): (r: set<Id>)
    ensures forall p :: p in r <==> Edge(p, id) in edges
  {
    set e | e in edges && e.after == id :: e.before
  }

  lemma BeforeSnoc(front: seq<Edge>, e: Edge, id: Id)
    ensures Before(front + [e], id) == Before(front, id) + if e.after == id then {e.before} else {}
  {
    forall x ensures x in Before(front + [e], id) <==> x in Before(front, id) || (e.after == id && x == e.before) {
      assert Edge(x, id) in front + [e] <==> Edge(x, id) in front || Edge(x, id) == e;
    }
  }

  /** Counting with repetition exceeds counting prerequisites exactly when an edge repeats. */
  lemma {:induction false} IndegreeCountsBefore(edges: seq<Edge>, id: Id)
    ensures Indegree(edges, id) >= |Before(edges, id)|
    ensures NoDuplicates(edges) ==> Indegree(edges, id) == |Before(edges, id)|
  {
    if edges == [] {
      assert Before(edges, id) == {};
    } else {
      var n := |edges| - 1;
      var front := edges[..n];
      IndegreeCountsBefore(front, id);
      assert edges == front + [edges[n]];
      BeforeSnoc(front, edges[n], id);
      if edges[n].after == id && NoDuplicates(edges) {
        assert edges[n] !in front;
        assert edges[n].before !in Before(front, id);
      }
    }
  }

  lemma {:induction false} RepeatedEdgeOvercounts(edges: seq<Edge>) returns (id: Id)
    requires !NoDuplicates(edges)
    ensures Indegree(edges, id) > |Before(edges, id)|
    ensures exists e :: e in edges && e.after == id
  {
    var n := |edges| - 1;
    var front := edges[..n];
    assert edges == front + [edges[n]];
    if NoDuplicates(front) {
      id := edges[n].after;
      IndegreeCountsBefore(front, id);
      var i, j :| 0 <= i < j < |edges| && edges[i] == edges[j];
      assert forall k :: 0 <= k < n ==> front[k] == edges[k];
      assert j == n && front[i] == edges[n];
      assert edges[n].before in Before(front, id);
      assert Before(edges, id) == Before(front, id);
      assert edges[n] in edges;
    } else {
      id := RepeatedEdgeOvercounts(front);
      if edges[n].after == id {
        assert Before(edges, id) == Before(front, id) + {edges[n].before};
      } else {
        assert Before(edges, id) == Before(front, id);
      }
      var e :| e in front && e.after == id;
      assert e in edges;
    }
  }

  // ----- what the answer means -----

  ghost predicate Ready(g: Graph, placed: set<Id>, id: Id)
  {
    id in g && id !in placed && g[id] <= placed
  }

  /** Each position holds the Task that goes first among all that are ready at that point. */
  ghost predicate Greedy(g: Graph, policy: Policy, order: seq<Id>)
  {
    forall k :: 0 <= k < |order| ==>
      && Ready(g, Elements(order[..k]), order[k])
      && forall y :: Ready(g, Elements(order[..k]), y) && y != order[k] ==> GoesFirst(policy, order[k], y)
  }

  ghost predicate Permutes(order: seq<Id>, ids: set<Id>)
  {
    NoDuplicates(order) && Elements(order) == ids
  }

  ghost predicate DistinctDependencies(tasks: seq<TaskSpec>)
  {
    forall i :: 0 <= i < |tasks| ==> NoDuplicates(tasks[i].dependsOn)
  }

  ghost predicate AllPlanned(tasks: seq<TaskSpec>)
  {
    forall i, d :: 0 <= i < |tasks| && d in tasks[i].dependsOn ==> d in Ids(tasks)
  }

  // ----- building the adjacency -----

  ghost predicate Adjacency(children: map<Id, set<Id>>, edges: seq<Edge>)
  {
    forall p, c :: (p in children && c in children[p]) <==> Edge(p, c) in edges
  }

  ghost predicate CountsEdges(indegree: map<Id, nat>, edges: seq<Edge>)
  {
    forall id :: Indegree(edges, id) == if id in indegree then indegree[id] else 0
  }

  /** One more edge is one more dependent of `p` and one more count for `c`. */
  lemma AdjacencyGrows(children: map<Id, set<Id>>, indegree: map<Id, nat>, edges: seq<Edge>, p: Id, c: Id)
    requires Adjacency(children, edges) && CountsEdges(indegree, edges) && c in indegree
    ensures Adjacency(children[p := (if p in children then children[p] else {}) + {c}], edges + [Edge(p, c)])
    ensures CountsEdges(indegree[c := indegree[c] + 1], edges + [Edge(p, c)])
  {
    var grown := children[p := (if p in children then children[p] else {}) + {c}];
    forall a, b ensures (a in grown && b in grown[a]) <==> Edge(a, b) in edges + [Edge(p, c)] {
      assert Edge(a, b) in edges + [Edge(p, c)] <==> Edge(a, b) in edges || Edge(a, b) == Edge(p, c);
    }
    assert (edges + [Edge(p, c)])[..|edges|] == edges;
  }

  method AddDependencies(id: Id, dependsOn: seq<Id>, indegree: map<Id, nat>, children: map<Id, set<Id>>,
                         edges: seq<Edge>)
    returns (counts: map<Id, nat>, adjacent: map<Id, set<Id>>, all: seq<Edge>)
    requires Adjacency(children, edges) && CountsEdges(indegree, edges) && id in indegree
    ensures all == edges + EdgesInto(id, dependsOn)
    ensures counts.Keys == indegree.Keys
    ensures Adjacency(adjacent, all) && CountsEdges(counts, all)
  {
    counts, adjacent, all := indegree, children, edges;
    var j := 0;
    while j < |dependsOn|
      invariant 0 <= j <= |dependsOn|
      invariant all == edges + EdgesInto(id, dependsOn[..j])
      invariant counts.Keys == indegree.Keys
      invariant Adjacency(adjacent, all) && CountsEdges(counts, all)
    {
      var d := dependsOn[j];
      AdjacencyGrows(adjacent, counts, all, d, id);
      adjacent := adjacent[d := (if d in adjacent then adjacent[d] else {}) + {id}];
      counts := counts[id := counts[id] + 1];
      all := all + [Edge(d, id)];
      assert EdgesInto(id, dependsOn[..j + 1]) == EdgesInto(id, dependsOn[..j]) + [Edge(d, id)];
      j := j + 1;
    }
    assert dependsOn[..j] == dependsOn;
  }

  method AddTask(t: TaskSpec, indegree: map<Id, nat>, children: map<Id, set<Id>>, edges: seq<Edge>)
    returns (counts: map<Id, nat>, adjacent: map<Id, set<Id>>, all: seq<Edge>)
    requires Adjacency(children, edges) && CountsEdges(indegree, edges)
    ensures all == edges + EdgesInto(t.id, t.dependsOn)
    ensures counts.Keys == indegree.Keys + {t.id}
    ensures Adjacency(adjacent, all) && CountsEdges(counts, all)
  {
    counts, adjacent := indegree, children;
    if t.id !in counts { counts := counts[t.id := 0]; }
    if t.id !in adjacent { adjacent := adjacent[t.id := {}]; }
    counts, adjacent, all := AddDependencies(t.id, t.dependsOn, counts, adjacent, edges);
  }

  method BuildAdjacency(tasks: seq<TaskSpec>)
    returns (indegree: map<Id, nat>, children: map<Id, set<Id>>, edges: seq<Edge>)
    ensures edges == EdgeList(tasks)
    ensures indegree.Keys == Ids(tasks)
    ensures CountsEdges(indegree, edges)
    ensures Adjacency(children, edges)
  {
    indegree, children, edges := map[], map[], [];
    var i := 0;
    while i < |tasks|
      invariant 0 <= i <= |tasks|
      invariant edges == EdgeList(tasks[..i])
      invariant indegree.Keys == Ids(tasks[..i])
      invariant Adjacency(children, edges) && CountsEdges(indegree, edges)
    {
      indegree, children, edges := AddTask(tasks[i], indegree, children, edges);
      assert tasks[..i + 1][..i] == tasks[..i];
      IdsSnoc(tasks, i);
      i := i + 1;
    }
    assert tasks[..i] == tasks;
  }

  lemma IdsSnoc(tasks: seq<TaskSpec>, i: nat)
    requires i < |tasks|
    ensures Ids(tasks[..i + 1]) == Ids(tasks[..i]) + {tasks[i].id}
  {
    forall x | x in Ids(tasks[..i + 1]) ensures x in Ids(tasks[..i]) + {tasks[i].id} {
      var k :| 0 <= k < i + 1 && tasks[..i + 1][k].id == x;
      if k < i { assert tasks[..i][k].id == x; }
    }
    forall x | x in Ids(tasks[..i]) ensures x in Ids(tasks[..i + 1]) {
      var k :| 0 <= k < i && tasks[..i][k].id == x;
      assert tasks[..i + 1][k].id == x;
    }
    assert tasks[..i + 1][i] == tasks[i];
  }

  // ----- draining the ready set -----

  /** Count down every dependent of the Task just placed; those that reach zero become ready. */
  method Release(next: set<Id>, policy: Policy, indegree: map<Id, nat>, ready: set<Key>)
    returns (counts: map<Id, nat>, nowReady: set<Key>)
    requires forall c :: c in next ==> c in indegree && indegree[c] >= 1
    ensures counts.Keys == indegree.Keys
    ensures forall id :: id in counts ==> counts[id] == indegree[id] - if id in next then 1 else 0
    ensures forall k :: k in nowReady <==>
        k in ready || (k.id in next && indegree[k.id] == 1 && k == policy.KeyOf(k.id))
  {
    counts, nowReady := indegree, ready;
    var rest := next;
    while rest != {}
      invariant rest <= next
      invariant counts.Keys == indegree.Keys
      invariant forall id :: id in counts ==> counts[id] == indegree[id] - if id in next - rest then 1 else 0
      invariant forall k :: k in nowReady <==>
                  k in ready || (k.id in next - rest && indegree[k.id] == 1 && k == policy.KeyOf(k.id))
      decreases |rest|
    {
      var c := Least(rest);
      counts := counts[c := counts[c] - 1];
      if counts[c] == 0 {
        nowReady := nowReady + {policy.KeyOf(c)};
      }
      rest := rest - {c};
    }
  }

  /** Nothing this Task was counted for is still missing. */
  ghost predicate Open(edges: seq<Edge>, placed: set<Id>, id: Id)
  {
    Indegree(edges, id) == |Before(edges, id) * placed|
  }

  lemma PlacedOneMore(edges: seq<Edge>, placed: set<Id>, x: Id, id: Id)
    requires x !in placed
    ensures |Before(edges, id) * (placed + {x})| == |Before(edges, id) * placed| + if Edge(x, id) in edges then 1 else 0
  {
    var before := Before(edges, id);
    if x in before {
      assert before * (placed + {x}) == before * placed + {x};
    } else {
      assert before * (placed + {x}) == before * placed;
    }
  }

  /** A Task that is open has each of its prerequisites placed, and repeats none. */
  lemma OpenMeansSettled(edges: seq<Edge>, placed: set<Id>, id: Id)
    requires Open(edges, placed, id)
    ensures Before(edges, id) <= placed && Indegree(edges, id) == |Before(edges, id)|
  {
    var before := Before(edges, id);
    IndegreeCountsBefore(edges, id);
    SubsetCardinality(before * placed, before);
  }

  lemma NotMoreThanCounted(edges: seq<Edge>, placed: set<Id>, id: Id)
    ensures |Before(edges, id) * placed| <= Indegree(edges, id)
  {
    IndegreeCountsBefore(edges, id);
    SubsetCardinality(Before(edges, id) * placed, Before(edges, id));
  }

  ghost predicate PickedLeast(ids: set<Id>, edges: seq<Edge>, policy: Policy, placed: set<Id>, x: Id)
  {
    && x in ids && x !in placed && Open(edges, placed, x)
    && forall y :: y in ids && y !in placed && Open(edges, placed, y) && y != x ==> GoesFirst(policy, x, y)
  }

  ghost predicate Picks(ids: set<Id>, edges: seq<Edge>, policy: Policy, order: seq<Id>)
  {
    forall k :: 0 <= k < |order| ==> PickedLeast(ids, edges, policy, Elements(order[..k]), order[k])
  }

  lemma PicksSnoc(ids: set<Id>, edges: seq<Edge>, policy: Policy, order: seq<Id>, x: Id)
    requires Picks(ids, edges, policy, order)
    requires PickedLeast(ids, edges, policy, Elements(order), x)
    ensures Picks(ids, edges, policy, order + [x])
    ensures Elements(order + [x]) == Elements(order) + {x}
  {
    var grown := order + [x];
    forall k | 0 <= k < |grown| ensures PickedLeast(ids, edges, policy, Elements(grown[..k]), grown[k]) {
      if k < |order| {
        assert grown[..k] == order[..k];
      } else {
        assert grown[..k] == order;
      }
    }
  }

  ghost predicate Counted(ids: set<Id>, edges: seq<Edge>, placed: set<Id>, counts: map<Id, nat>)
  {
    && counts.Keys == ids
    && forall id :: id in ids ==> counts[id] == Indegree(edges, id) - |Before(edges, id) * placed|
  }

  ghost predicate ReadyExactly(policy: Policy, placed: set<Id>, counts: map<Id, nat>, ready: set<Key>)
  {
    forall k :: k in ready <==> k.id in counts && counts[k.id] == 0 && k.id !in placed && k == policy.KeyOf(k.id)
  }

  function InitialReady(policy: Policy, indegree: map<Id, nat>): (r: set<Key>)
    ensures ReadyExactly(policy, {}, indegree, r)
  {
    set id | id in indegree && indegree[id] == 0 :: policy.KeyOf(id)
  }

  lemma LeastIsPicked(ids: set<Id>, edges: seq<Edge>, policy: Policy, placed: set<Id>, counts: map<Id, nat>,
                      ready: set<Key>)
    requires Counted(ids, edges, placed, counts) && ReadyExactly(policy, placed, counts, ready) && ready != {}
    ensures PickedLeast(ids, edges, policy, placed, LeastKey(ready).id)
  {
    var x := LeastKey(ready).id;
    forall y | y in ids && y !in placed && Open(edges, placed, y) && y != x ensures GoesFirst(policy, x, y) {
      assert policy.KeyOf(y) in ready;
      KeysDecide(policy, x, y);
    }
  }

  lemma AllOpenPlaced(ids: set<Id>, edges: seq<Edge>, policy: Policy, placed: set<Id>, counts: map<Id, nat>,
                      ready: set<Key>)
    requires Counted(ids, edges, placed, counts) && ReadyExactly(policy, placed, counts, ready) && ready == {}
    ensures forall y :: y in ids && Open(edges, placed, y) ==> y in placed
  {
    forall y | y in ids && Open(edges, placed, y) ensures y in placed {
      assert policy.KeyOf(y) !in ready;
    }
  }

  lemma Shrinks(ids: set<Id>, placed: set<Id>, x: Id)
    requires x in ids && x !in placed
    ensures |ids - (placed + {x})| < |ids - placed|
  {
    assert ids - placed == (ids - (placed + {x})) + {x};
  }

  method Drain(policy: Policy, indegree: map<Id, nat>, children: map<Id, set<Id>>, ghost edges: seq<Edge>)
    returns (order: seq<Id>)
    requires CountsEdges(indegree, edges)
    requires Adjacency(children, edges)
    requires forall e :: e in edges ==> e.after in indegree
    ensures NoDuplicates(order)
    ensures Picks(indegree.Keys, edges, policy, order)
    ensures forall y :: y in indegree && Open(edges, Elements(order), y) ==> y in order
  {
    ghost var ids := indegree.Keys;
    var counts := indegree;
    var ready := InitialReady(policy, indegree);
    order := [];
    ghost var placed: set<Id> := {};
    assert forall id :: Before(edges, id) * placed == {};
    while ready != {}
      invariant placed == Elements(order) <= ids
      invariant NoDuplicates(order)
      invariant Picks(ids, edges, policy, order)
      invariant Counted(ids, edges, placed, counts)
      invariant ReadyExactly(policy, placed, counts, ready)
      invariant forall x :: x in placed ==> Open(edges, placed, x)
      decreases |ids - placed|
    {
      var key := LeastKey(ready);
      var x := key.id;
      LeastIsPicked(ids, edges, policy, placed, counts, ready);
      PicksSnoc(ids, edges, policy, order, x);
      var next := if x in children then children[x] else {};
      assert forall c :: c in next <==> Edge(x, c) in edges;
      StepCounts(ids, edges, placed, counts, x, next);
      var counted, released := Release(next, policy, counts, ready - {key});
      StepReady(policy, placed, counts, ready, x, next, counted, released);
      counts, ready := counted, released;
      order := order + [x];
      Shrinks(ids, placed, x);
      placed := placed + {x};
    }
    AllOpenPlaced(ids, edges, policy, placed, counts, ready);
  }

  /** Placing `x` takes one from exactly its dependents, each of which had one to give. */
  lemma StepCounts(ids: set<Id>, edges: seq<Edge>, placed: set<Id>, counts: map<Id, nat>, x: Id, next: set<Id>)
    requires Counted(ids, edges, placed, counts)
    requires forall e :: e in edges ==> e.after in ids
    requires x in ids && x !in placed && Open(edges, placed, x)
    requires forall y :: y in placed ==> Open(edges, placed, y)
    requires forall c :: c in next <==> Edge(x, c) in edges
    ensures forall c :: c in next ==> c in ids && counts[c] >= 1 && c !in placed && c != x
    ensures forall id :: id in ids ==>
              Indegree(edges, id) - |Before(edges, id) * (placed + {x})| == counts[id] - if id in next then 1 else 0
    ensures forall y :: y in placed + {x} ==> Open(edges, placed + {x}, y)
  {
    forall id ensures |Before(edges, id) * (placed + {x})| == |Before(edges, id) * placed| + if id in next then 1
        else 0 {
      PlacedOneMore(edges, placed, x, id);
    }
    forall y | y in placed + {x} ensures y !in next && Open(edges, placed + {x}, y) {
      OpenMeansSettled(edges, placed, y);
      assert x !in Before(edges, y);
    }
    forall c | c in next ensures c in ids && counts[c] >= 1 {
      assert Edge(x, c).after in ids;
      NotMoreThanCounted(edges, placed + {x}, c);
    }
  }

  lemma StepReady(policy: Policy, placed: set<Id>, counts: map<Id, nat>, ready: set<Key>, x: Id, next: set<Id>,
                  counted: map<Id, nat>, released: set<Key>)
    requires ReadyExactly(policy, placed, counts, ready)
    requires forall c :: c in next ==> c in counts && counts[c] >= 1 && c !in placed && c != x
    requires counted.Keys == counts.Keys
    requires forall id :: id in counted ==> counted[id] == counts[id] - if id in next then 1 else 0
    requires forall k :: k in released <==>
               k in ready - {policy.KeyOf(x)} || (k.id in next && counts[k.id] == 1 && k == policy.KeyOf(k.id))
    ensures ReadyExactly(policy, placed + {x}, counted, released)
  {
  }

  // ----- success means acyclic, and nothing else can go wrong -----

  lemma {:induction false} EdgeListDistinct(tasks: seq<TaskSpec>)
    requires UniqueIds(tasks)
    ensures NoDuplicates(EdgeList(tasks)) <==> DistinctDependencies(tasks)
  {
    if tasks != [] {
      var n := |tasks| - 1;
      var last := tasks[n];
      var front, into := EdgeList(tasks[..n]), EdgesInto(last.id, last.dependsOn);
      EdgeListDistinct(tasks[..n]);
      assert EdgeList(tasks) == front + into;
      forall e | e in front ensures e.after != last.id {
        EdgeListMembers(tasks[..n], e);
        var i :| 0 <= i < n && tasks[..n][i].id == e.after;
        assert tasks[i].id == e.after;
      }
      assert DistinctDependencies(tasks) <==> DistinctDependencies(tasks[..n]) && NoDuplicates(last.dependsOn);
      assert NoDuplicates(into) <==> NoDuplicates(last.dependsOn);
      AppendDistinct(front, into);
    }
  }

  lemma AppendDistinct<T(!new)>(a: seq<T>, b: seq<T>)
    requires forall x :: x in a ==> x !in b
    ensures NoDuplicates(a + b) <==> NoDuplicates(a) && NoDuplicates(b)
  {
    var all := a + b;
    if NoDuplicates(all) {
      forall i, j | 0 <= i < j < |a| ensures a[i] != a[j] {
        assert all[i] == a[i] && all[j] == a[j];
      }
      forall i, j | 0 <= i < j < |b| ensures b[i] != b[j] {
        assert all[|a| + i] == b[i] && all[|a| + j] == b[j];
      }
    }
    if NoDuplicates(a) && NoDuplicates(b) {
      forall i, j | 0 <= i < j < |all| ensures all[i] != all[j] {
        if j < |a| {
          assert all[i] == a[i] && all[j] == a[j];
        } else if i < |a| {
          assert all[i] in a && all[j] in b;
        } else {
          assert all[i] == b[i - |a|] && all[j] == b[j - |a|];
        }
      }
    }
  }

  lemma UniqueIdsCardinality(tasks: seq<TaskSpec>)
    ensures |Ids(tasks)| <= |tasks|
    ensures |Ids(tasks)| == |tasks| <==> UniqueIds(tasks)
  {
    var ids := seq(|tasks|, i requires 0 <= i < |tasks| => tasks[i].id);
    assert Elements(ids) == Ids(tasks) by {
      forall i | 0 <= i < |tasks| ensures tasks[i].id in ids { assert ids[i] == tasks[i].id; }
    }
    DistinctCardinality(ids);
    assert NoDuplicates(ids) <==> UniqueIds(tasks) by {
      assert forall i :: 0 <= i < |tasks| ==> ids[i] == tasks[i].id;
      if NoDuplicates(ids) {
        forall i, j | 0 <= i < j < |tasks| ensures tasks[i].id != tasks[j].id {
          assert ids[i] != ids[j];
        }
      }
    }
  }

  lemma GraphIsBefore(tasks: seq<TaskSpec>, id: Id)
    ensures Prerequisites(tasks, id) == Before(EdgeList(tasks), id)
  {
    forall d ensures d in Prerequisites(tasks, id) <==> d in Before(EdgeList(tasks), id) {
      EdgeListMembers(tasks, Edge(d, id));
    }
  }

  /** If every Task came out, the graph was sound and the order is forward and greedy. */
  lemma CompleteDrainIsSound(tasks: seq<TaskSpec>, policy: Policy, order: seq<Id>)
    requires NoDuplicates(order) && Picks(Ids(tasks), EdgeList(tasks), policy, order) && |order| == |tasks|
    ensures UniqueIds(tasks) && DistinctDependencies(tasks) && AllPlanned(tasks) && Acyclic(GraphOf(tasks))
    ensures Permutes(order, Ids(tasks)) && Forward(GraphOf(tasks), order)
    ensures Greedy(GraphOf(tasks), policy, order)
  {
    var ids, edges, g := Ids(tasks), EdgeList(tasks), GraphOf(tasks);
    PicksAreIds(ids, edges, policy, order);
    DistinctCardinality(order);
    SubsetCardinality(Elements(order), ids);
    UniqueIdsCardinality(tasks);
    EdgeListDistinct(tasks);
    PicksRepeatNoEdge(tasks, policy, order);
    PicksAreForward(tasks, policy, order);
    ForwardIsAcyclic(g, order);
    forall k | 0 <= k < |order|
      ensures Ready(g, Elements(order[..k]), order[k])
      ensures forall y :: Ready(g, Elements(order[..k]), y) && y != order[k] ==> GoesFirst(policy, order[k], y)
    {
      PickIsGreedy(tasks, policy, Elements(order[..k]), order[k]);
    }
  }

  lemma PicksAreIds(ids: set<Id>, edges: seq<Edge>, policy: Policy, order: seq<Id>)
    requires Picks(ids, edges, policy, order)
    ensures Elements(order) <= ids
  {
    forall x | x in order ensures x in ids {
      var k :| 0 <= k < |order| && order[k] == x;
      assert PickedLeast(ids, edges, policy, Elements(order[..k]), order[k]);
    }
  }

  lemma PicksRepeatNoEdge(tasks: seq<TaskSpec>, policy: Policy, order: seq<Id>)
    requires Picks(Ids(tasks), EdgeList(tasks), policy, order) && Elements(order) == Ids(tasks)
    ensures NoDuplicates(EdgeList(tasks))
  {
    var edges := EdgeList(tasks);
    if !NoDuplicates(edges) {
      var id := RepeatedEdgeOvercounts(edges);
      var e :| e in edges && e.after == id;
      EdgeListMembers(tasks, e);
      assert id in Elements(order);
      var k :| 0 <= k < |order| && order[k] == id;
      assert PickedLeast(Ids(tasks), edges, policy, Elements(order[..k]), order[k]);
      OpenMeansSettled(edges, Elements(order[..k]), id);
    }
  }

  lemma PicksAreForward(tasks: seq<TaskSpec>, policy: Policy, order: seq<Id>)
    requires Picks(Ids(tasks), EdgeList(tasks), policy, order) && Elements(order) == Ids(tasks)
    ensures Forward(GraphOf(tasks), order) && AllPlanned(tasks)
  {
    var ids, edges, g := Ids(tasks), EdgeList(tasks), GraphOf(tasks);
    forall i, q | 0 <= i < |order| && Needs(g, order[i], q) ensures q in order[..i] {
      assert PickedLeast(ids, edges, policy, Elements(order[..i]), order[i]);
      OpenMeansSettled(edges, Elements(order[..i]), order[i]);
      GraphIsBefore(tasks, order[i]);
    }
    forall i, d | 0 <= i < |tasks| && d in tasks[i].dependsOn ensures d in ids {
      var id := tasks[i].id;
      assert id in Elements(order);
      var k :| 0 <= k < |order| && order[k] == id;
      assert d in Prerequisites(tasks, id);
      assert Needs(g, order[k], d);
      assert d in order[..k];
      assert d in Elements(order);
    }
  }

  lemma PickIsGreedy(tasks: seq<TaskSpec>, policy: Policy, placed: set<Id>, x: Id)
    requires PickedLeast(Ids(tasks), EdgeList(tasks), policy, placed, x) && NoDuplicates(EdgeList(tasks))
    ensures Ready(GraphOf(tasks), placed, x)
    ensures forall y :: Ready(GraphOf(tasks), placed, y) && y != x ==> GoesFirst(policy, x, y)
  {
    var edges, g := EdgeList(tasks), GraphOf(tasks);
    OpenMeansSettled(edges, placed, x);
    GraphIsBefore(tasks, x);
    forall y | Ready(g, placed, y) && y != x ensures GoesFirst(policy, x, y) {
      GraphIsBefore(tasks, y);
      IndegreeCountsBefore(edges, y);
      assert Before(edges, y) * placed == Before(edges, y);
    }
  }

  /** A Task that never opened waits for another that never did. */
  lemma LeftoverWaits(tasks: seq<TaskSpec>, placed: set<Id>, u: Id)
    requires NoDuplicates(EdgeList(tasks)) && AllPlanned(tasks)
    requires u in Ids(tasks) && !Open(EdgeList(tasks), placed, u)
    ensures WaitsIn(GraphOf(tasks), Ids(tasks) - placed, u)
  {
    var edges, before := EdgeList(tasks), Before(EdgeList(tasks), u);
    IndegreeCountsBefore(edges, u);
    GraphIsBefore(tasks, u);
    assert before <= placed ==> before * placed == before;
    var q :| q in before && q !in placed;
    assert Needs(GraphOf(tasks), u, q);
  }

  lemma NothingLeft(tasks: seq<TaskSpec>, placed: set<Id>)
    requires NoDuplicates(EdgeList(tasks)) && AllPlanned(tasks) && Acyclic(GraphOf(tasks))
    requires forall y :: y in Ids(tasks) && Open(EdgeList(tasks), placed, y) ==> y in placed
    ensures Ids(tasks) <= placed
  {
    var left := Ids(tasks) - placed;
    forall u | u in left ensures WaitsIn(GraphOf(tasks), left, u) {
      LeftoverWaits(tasks, placed, u);
    }
    if left != {} {
      AcyclicMeansNotStuck(GraphOf(tasks), left);
    }
    assert left == {};
    forall x | x in Ids(tasks) ensures x in placed {
      assert x !in left;
    }
  }

  /** If the graph is sound, no Task can be left waiting. */
  lemma SoundGraphDrains(tasks: seq<TaskSpec>, order: seq<Id>)
    requires UniqueIds(tasks) && NoDuplicates(EdgeList(tasks)) && AllPlanned(tasks) && Acyclic(GraphOf(tasks))
    requires NoDuplicates(order) && Elements(order) <= Ids(tasks)
    requires forall y :: y in Ids(tasks) && Open(EdgeList(tasks), Elements(order), y) ==> y in order
    ensures |order| == |tasks|
  {
    forall y | y in Ids(tasks) && Open(EdgeList(tasks), Elements(order), y) ensures y in Elements(order) {
      assert y in order;
    }
    NothingLeft(tasks, Elements(order));
    SameCount(tasks, order);
  }

  lemma SameCount(tasks: seq<TaskSpec>, order: seq<Id>)
    requires UniqueIds(tasks) && NoDuplicates(order)
    requires Elements(order) <= Ids(tasks) && Ids(tasks) <= Elements(order)
    ensures |order| == |tasks|
  {
    DistinctCardinality(order);
    UniqueIdsCardinality(tasks);
    assert Ids(tasks) == Elements(order);
  }

  /** Build the dependency graph and order it, or report that it cannot be ordered. */
  method BuildTaskGraph(tasks: seq<TaskSpec>, policy: Policy) returns (r: Result<TaskGraphBody, GraphError>)
    ensures r.Ok? <==>
              UniqueIds(tasks) && DistinctDependencies(tasks) && AllPlanned(tasks) && Acyclic(GraphOf(tasks))
    ensures r.Ok? ==>
              && r.value.edges == EdgeList(tasks)
              && Permutes(r.value.order, Ids(tasks))
              && Forward(GraphOf(tasks), r.value.order)
              && Greedy(GraphOf(tasks), policy, r.value.order)
  {
    var indegree, children, edges := BuildAdjacency(tasks);
    forall e | e in edges ensures e.after in indegree {
      EdgeListMembers(tasks, e);
    }
    var order := Drain(policy, indegree, children, edges);
    if |order| != |tasks| {
      if UniqueIds(tasks) && DistinctDependencies(tasks) && AllPlanned(tasks) && Acyclic(GraphOf(tasks)) {
        EdgeListDistinct(tasks);
        PicksAreIds(Ids(tasks), edges, policy, order);
        SoundGraphDrains(tasks, order);
      }
      return Err(CyclicDependencyGraph);
    }
    CompleteDrainIsSound(tasks, policy, order);
    return Ok(TaskGraphBody(order, edges));
  }

  // ----- the order is a function of what is planned, not of how it is listed -----

  lemma {:induction false} GreedyPrefixesAgree(g: Graph, policy: Policy, a: seq<Id>, b: seq<Id>, k: nat)
    requires Greedy(g, policy, a) && Greedy(g, policy, b) && k <= |a| && k <= |b|
    ensures a[..k] == b[..k]
  {
    if k > 0 {
      GreedyPrefixesAgree(g, policy, a, b, k - 1);
      var placed := Elements(a[..k - 1]);
      var x, y := a[k - 1], b[k - 1];
      assert Ready(g, placed, x) && Ready(g, placed, y);
      assert x != y ==> GoesFirst(policy, x, y) && GoesFirst(policy, y, x);
      assert a[..k] == a[..k - 1] + [x] && b[..k] == b[..k - 1] + [y];
    }
  }

  /** Listing the same Tasks in another order gives the same topological order. */
  lemma OrderIgnoresListing(tasks: seq<TaskSpec>, others: seq<TaskSpec>, policy: Policy, a: seq<Id>, b: seq<Id>)
    requires multiset(tasks) == multiset(others)
    requires Permutes(a, Ids(tasks)) && Greedy(GraphOf(tasks), policy, a)
    requires Permutes(b, Ids(others)) && Greedy(GraphOf(others), policy, b)
    ensures a == b
  {
    SameTasksSameGraph(tasks, others);
    DistinctCardinality(a);
    DistinctCardinality(b);
    GreedyPrefixesAgree(GraphOf(tasks), policy, a, b, |a|);
    assert a[..|a|] == a && b[..|a|] == b;
  }

  lemma SameTasksSameGraph(tasks: seq<TaskSpec>, others: seq<TaskSpec>)
    requires multiset(tasks) == multiset(others)
    ensures Ids(tasks) == Ids(others) && GraphOf(tasks) == GraphOf(others)
  {
    MultisetMembers(tasks, others);
    TasksWithin(tasks, others);
    TasksWithin(others, tasks);
    forall id | id in Ids(tasks) ensures Prerequisites(tasks, id) == Prerequisites(others, id) {
      PrerequisitesWithin(tasks, others, id);
      PrerequisitesWithin(others, tasks, id);
    }
  }

  lemma TasksWithin(tasks: seq<TaskSpec>, others: seq<TaskSpec>)
    requires forall t :: t in tasks ==> t in others
    ensures Ids(tasks) <= Ids(others)
  {
    forall i | 0 <= i < |tasks| ensures tasks[i].id in Ids(others) {
      assert tasks[i] in others;
      var j :| 0 <= j < |others| && others[j] == tasks[i];
    }
  }

  lemma PrerequisitesWithin(tasks: seq<TaskSpec>, others: seq<TaskSpec>, id: Id)
    requires forall t :: t in tasks ==> t in others
    ensures Prerequisites(tasks, id) <= Prerequisites(others, id)
  {
    forall d | d in Prerequisites(tasks, id) ensures d in Prerequisites(others, id) {
      var i :| 0 <= i < |tasks| && tasks[i].id == id && d in tasks[i].dependsOn;
      assert tasks[i] in others;
      var j :| 0 <= j < |others| && others[j] == tasks[i];
    }
  }
}
