/** Prerequisite graphs: walks, cycles and forward orders. */
module Graphs {
  import opened Basics

  /** Each node with the set of its prerequisites. */
  type Graph = map<Id, set<Id>>

  ghost predicate Needs(g: Graph, node: Id, prerequisite: Id)
  {
    node in g && prerequisite in g[node]
  }

  /** Every step goes from a node to one of its prerequisites. */
  ghost predicate Walk(g: Graph, p: seq<Id>)
  {
    && |p| > 0
    && forall i, j :: 0 <= i && j == i + 1 && j < |p| ==> Needs(g, p[i], p[j])
  }

  ghost predicate Cycle(g: Graph, p: seq<Id>)
  {
    |p| >= 2 && Walk(g, p) && p[0] == p[|p| - 1]
  }

  ghost predicate Acyclic(g: Graph)
  {
    forall p :: !Cycle(g, p)
  }

  /** Every node of the order has all its prerequisites earlier in the order. */
  ghost predicate Forward(g: Graph, order: seq<Id>)
  {
    forall i, q :: 0 <= i < |order| && Needs(g, order[i], q) ==> q in order[..i]
  }

  ghost function FirstIndex(s: seq<Id>, x: Id): (i: nat)
    requires x in s
    ensures i < |s| && s[i] == x
    ensures forall k :: 0 <= k < i ==> s[k] != x
  {
    if s[0] == x then 0 else 1 + FirstIndex(s[1..], x)
  }

  /** Along a walk the first positions in a forward order strictly descend. */
  lemma {:induction false} WalkDescends(g: Graph, order: seq<Id>, p: seq<Id>)
    requires Forward(g, order) && Walk(g, p) && p[0] in order
    ensures p[|p| - 1] in order
    ensures |p| >= 2 ==> FirstIndex(order, p[|p| - 1]) < FirstIndex(order, p[0])
  {
    if |p| >= 2 {
      var i := FirstIndex(order, p[0]);
      assert Needs(g, order[i], p[1]);
      assert p[1] in order[..i];
      var k :| 0 <= k < i && order[..i][k] == p[1];
      assert order[k] == p[1];
      var f := FirstIndex(order, p[1]);
      assert f <= k;
      var tail := p[1..];
      assert forall m :: 0 <= m < |tail| ==> tail[m] == p[m + 1];
      WalkDescends(g, order, tail);
    }
  }

  /** A graph all of whose nodes stand in a forward order has no cycle. */
  lemma ForwardIsAcyclic(g: Graph, order: seq<Id>)
    requires Forward(g, order) && g.Keys <= Elements(order)
    ensures Acyclic(g)
  {
    forall p ensures !Cycle(g, p) {
      if Cycle(g, p) {
        assert Needs(g, p[0], p[1]);
        WalkDescends(g, order, p);
      }
    }
  }

  /** A set of nodes each of which waits for another of them. */
  ghost predicate Stuck(g: Graph, s: set<Id>)
  {
    forall u {:trigger WaitsIn(g, s, u)} :: u in s ==> WaitsIn(g, s, u)
  }

  ghost predicate WaitsIn(g: Graph, s: set<Id>, u: Id)
  {
    exists q :: q in s && Needs(g, u, q)
  }

  lemma {:induction false} LongWalk(g: Graph, s: set<Id>, u: Id, n: nat) returns (p: seq<Id>)
    requires Stuck(g, s) && u in s
    ensures Walk(g, p) && |p| == n + 1 && p[0] == u && Elements(p) <= s
    decreases n
  {
    if n == 0 {
      p := [u];
    } else {
      assert WaitsIn(g, s, u);
      var q :| q in s && Needs(g, u, q);
      var rest := LongWalk(g, s, q, n - 1);
      p := [u] + rest;
      forall i, j | 0 <= i && j == i + 1 && j < |p| ensures Needs(g, p[i], p[j]) {
        if i > 0 { assert p[i] == rest[i - 1] && p[j] == rest[i]; }
      }
      forall x | x in p ensures x in s {
        if x != u { assert x in rest; assert x in Elements(rest); }
      }
    }
  }

  /** Waiting in a finite set means waiting in a circle. */
  lemma StuckHasCycle(g: Graph, s: set<Id>) returns (p: seq<Id>)
    requires Stuck(g, s) && s != {}
    ensures Cycle(g, p) && Elements(p) <= s
  {
    var u := SomeElement(s);
    var lead;
    lead, p := CycleBelow(g, s, u);
  }

  /** Each member of a stuck set sits on a cycle, or a walk leads from it to one. */
  lemma CycleBelow(g: Graph, s: set<Id>, u: Id) returns (lead: seq<Id>, p: seq<Id>)
    requires Stuck(g, s) && u in s
    ensures Cycle(g, p) && Elements(p) <= s
    ensures Walk(g, lead) && Elements(lead) <= s
    ensures lead[0] == u && lead[|lead| - 1] == p[0]
  {
    var w := LongWalk(g, s, u, |s|);
    SubsetCardinality(Elements(w), s);
    DistinctCardinality(w);
    var i, j :| 0 <= i < j < |w| && w[i] == w[j];
    lead, p := w[..i + 1], w[i..j + 1];
    PartOfWalk(g, s, w, 0, i + 1);
    PartOfWalk(g, s, w, i, j + 1);
  }

  lemma PartOfWalk(g: Graph, s: set<Id>, w: seq<Id>, i: nat, j: nat)
    requires Walk(g, w) && Elements(w) <= s && i < j <= |w|
    ensures Walk(g, w[i..j]) && Elements(w[i..j]) <= s
  {
    var p := w[i..j];
    forall k, m | 0 <= k && m == k + 1 && m < |p| ensures Needs(g, p[k], p[m]) {
      assert p[k] == w[i + k] && p[m] == w[i + m];
    }
    forall x | x in Elements(p) ensures x in s {
      assert x in w;
      assert x in Elements(w);
    }
  }

  /** A graph is acyclic exactly when no nonempty set of its nodes is stuck. */
  lemma AcyclicMeansNotStuck(g: Graph, s: set<Id>)
    requires Acyclic(g) && s != {}
    ensures !Stuck(g, s)
  {
    if Stuck(g, s) {
      var p := StuckHasCycle(g, s);
    }
  }
}
