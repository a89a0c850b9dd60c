/** When drawing nodes of a graph together under one of them closes a cycle. */
module Contraction {
  import opened Basics
  import opened Graphs

  /** From a stand-in to another node drawn together under it. */
  ghost predicate HopTo(stand: Id -> Id, a: Id, b: Id)
  {
    stand(a) == a && stand(b) == a && b != a
  }

  /** An edge that survives between two stand-ins. */
  ghost predicate CarriedTo(g: Graph, stand: Id -> Id, a: Id, b: Id)
  {
    Needs(g, stand(a), b) && stand(b) == b
  }

  /** The edge from `c` to `d` starts at `c` itself or at a node under it. */
  ghost predicate Starts(h: Graph, stand: Id -> Id, c: Id, d: Id, m: Id)
  {
    (m == c || Needs(h, c, m)) && Needs(h, m, d) && stand(m) == c
  }

  ghost predicate HasStart(h: Graph, stand: Id -> Id, c: Id, d: Id)
  {
    exists m :: Starts(h, stand, c, d, m)
  }

  ghost predicate DrawnInto(h: Graph, g: Graph, stand: Id -> Id)
  {
    forall a, b :: Needs(h, a, b) ==> HopTo(stand, a, b) || CarriedTo(g, stand, a, b)
  }

  ghost predicate DrawnFrom(h: Graph, g: Graph, stand: Id -> Id)
  {
    forall c, d :: Needs(g, c, d) && d in g ==> HasStart(h, stand, c, d)
  }

  /** Every edge of `h` is a hop or survives in `g`, and every edge inside `g` comes from one of `h`. */
  ghost predicate Contracts(h: Graph, g: Graph, stand: Id -> Id)
  {
    DrawnInto(h, g, stand) && DrawnFrom(h, g, stand)
  }

  lemma TailWalk(g: Graph, p: seq<Id>)
    requires Walk(g, p) && |p| > 1
    ensures Walk(g, p[1..]) && Needs(g, p[0], p[1])
  {
    var tail := p[1..];
    forall i, j | 0 <= i && j == i + 1 && j < |tail| ensures Needs(g, tail[i], tail[j]) {
      assert tail[i] == p[i + 1] && tail[j] == p[j + 1];
    }
  }

  lemma LongerWalk(g: Graph, a: Id, p: seq<Id>)
    requires Walk(g, p) && Needs(g, a, p[0])
    ensures Walk(g, [a] + p)
  {
    var q := [a] + p;
    forall i, j | 0 <= i && j == i + 1 && j < |q| ensures Needs(g, q[i], q[j]) {
      if i > 0 { assert q[i] == p[i - 1] && q[j] == p[j - 1]; }
    }
  }

  /** A walk becomes one between the stand-ins; nothing is left of it only if it is a single hop. */
  lemma {:induction false} DrawnTogether(h: Graph, g: Graph, stand: Id -> Id, p: seq<Id>) returns (q: seq<Id>)
    requires Contracts(h, g, stand) && Walk(h, p)
    ensures Walk(g, q) && q[0] == stand(p[0]) && q[|q| - 1] == stand(p[|p| - 1])
    ensures |q| == 1 && |p| > 1 ==> |p| == 2 && HopTo(stand, p[0], p[1])
  {
    if |p| == 1 {
      q := [stand(p[0])];
    } else {
      TailWalk(h, p);
      var rest := DrawnTogether(h, g, stand, p[1..]);
      if HopTo(stand, p[0], p[1]) {
        q := rest;
      } else {
        assert CarriedTo(g, stand, p[0], p[1]);
        LongerWalk(g, stand(p[0]), rest);
        q := [stand(p[0])] + rest;
      }
    }
  }

  /** A walk among the stand-ins that ends in one of them is a walk of the original graph. */
  lemma {:induction false} TakenApart(h: Graph, g: Graph, stand: Id -> Id, q: seq<Id>) returns (p: seq<Id>)
    requires Contracts(h, g, stand) && Walk(g, q) && q[|q| - 1] in g
    ensures Walk(h, p) && |p| >= |q| && p[0] == q[0] && p[|p| - 1] == q[|q| - 1]
  {
    if |q| == 1 {
      p := q;
    } else {
      TailWalk(g, q);
      assert q[1] in g by { if |q| > 2 { assert Needs(g, q[1], q[2]); } }
      assert HasStart(h, stand, q[0], q[1]);
      var m :| Starts(h, stand, q[0], q[1], m);
      var rest := TakenApart(h, g, stand, q[1..]);
      LongerWalk(h, m, rest);
      p := [m] + rest;
      if m != q[0] {
        LongerWalk(h, q[0], p);
        p := [q[0]] + p;
      }
    }
  }

  lemma CycleDrawn(h: Graph, g: Graph, stand: Id -> Id, p: seq<Id>) returns (q: seq<Id>)
    requires Contracts(h, g, stand) && Cycle(h, p)
    ensures Cycle(g, q) && q[0] == stand(p[0])
  {
    q := DrawnTogether(h, g, stand, p);
  }

  lemma CycleApart(h: Graph, g: Graph, stand: Id -> Id, q: seq<Id>) returns (p: seq<Id>)
    requires Contracts(h, g, stand) && Cycle(g, q)
    ensures Cycle(h, p) && p[0] == q[0]
  {
    assert Needs(g, q[0], q[1]);
    p := TakenApart(h, g, stand, q);
  }

  /** What is drawn together has a cycle exactly when there was a closed chain of edges and hops. */
  lemma ContractionAcyclic(h: Graph, g: Graph, stand: Id -> Id)
    requires Contracts(h, g, stand)
    ensures Acyclic(g) <==> Acyclic(h)
  {
    forall p | Cycle(h, p) ensures !Acyclic(g) {
      var q := CycleDrawn(h, g, stand, p);
    }
    forall q | Cycle(g, q) ensures !Acyclic(h) {
      var p := CycleApart(h, g, stand, q);
    }
  }
}
