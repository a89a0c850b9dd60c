/** An in-place union-find with path halving over an array of parents. */
module UnionFind {

  /**
   * The parents form a forest: `rep` names the root of each element and `depth`
   * falls strictly on the way to it.
   */
  ghost predicate Forest(parents: seq<nat>, rep: seq<nat>, depth: seq<nat>)
  {
    && |rep| == |parents| && |depth| == |parents|
    && forall i :: 0 <= i < |parents| ==> Rooted(parents, rep, depth, i)
  }

  ghost predicate Rooted(parents: seq<nat>, rep: seq<nat>, depth: seq<nat>, i: nat)
    requires i < |parents| == |rep| == |depth|
  {
    && parents[i] < |parents| && rep[i] < |parents|
    && rep[parents[i]] == rep[i]
    && parents[rep[i]] == rep[i]
    && (parents[i] == i <==> rep[i] == i)
    && (parents[i] != i ==> depth[parents[i]] < depth[i])
  }

  /** The root of `n`, halving the path on the way. */
  method Root(parents: array<nat>, n: nat, ghost rep: seq<nat>, ghost depth: seq<nat>) returns (r: nat)
    requires n < parents.Length && Forest(parents[..], rep, depth)
    modifies parents
    ensures Forest(parents[..], rep, depth)
    ensures r == rep[n]
  {
    r := n;
    assert Rooted(parents[..], rep, depth, r);
    while parents[r] != r
      invariant r < parents.Length && Forest(parents[..], rep, depth)
      invariant rep[r] == rep[n]
      invariant Rooted(parents[..], rep, depth, r)
      decreases depth[r]
    {
      ghost var before := parents[..];
      assert Rooted(before, rep, depth, before[r]);
      HalvingKeepsForest(before, rep, depth, r);
      parents[r] := parents[parents[r]];
      assert parents[..] == before[r := before[before[r]]];
      r := parents[r];
      assert Rooted(parents[..], rep, depth, r);
    }
  }

  lemma HalvingKeepsForest(parents: seq<nat>, rep: seq<nat>, depth: seq<nat>, n: nat)
    requires Forest(parents, rep, depth) && n < |parents| && parents[n] != n
    requires parents[n] < |parents|
    ensures parents[parents[n]] < |parents| && Forest(parents[n := parents[parents[n]]], rep, depth)
  {
    assert Rooted(parents, rep, depth, n);
    assert Rooted(parents, rep, depth, parents[n]);
    assert Rooted(parents, rep, depth, rep[n]);
    var halved := parents[n := parents[parents[n]]];
    forall i | 0 <= i < |halved| ensures Rooted(halved, rep, depth, i) {
      assert Rooted(parents, rep, depth, i);
    }
  }

  /** Everything rooted at `x` is rooted at `y` instead. */
  ghost function Rerooted(rep: seq<nat>, x: nat, y: nat): (r: seq<nat>)
    ensures |r| == |rep| && forall k :: 0 <= k < |r| ==> r[k] == if rep[k] == x then y else rep[k]
  {
    seq(|rep|, k requires 0 <= k < |rep| => if rep[k] == x then y else rep[k])
  }

  ghost function Deepened(rep: seq<nat>, depth: seq<nat>, x: nat, extra: nat): (r: seq<nat>)
    requires |rep| == |depth|
    ensures |r| == |rep| && forall k :: 0 <= k < |r| ==> r[k] == depth[k] + if rep[k] == x then extra else 0
  {
    seq(|rep|, k requires 0 <= k < |rep| => depth[k] + if rep[k] == x then extra else 0)
  }

  lemma LinkingKeepsForest(parents: seq<nat>, rep: seq<nat>, depth: seq<nat>, x: nat, y: nat)
    requires Forest(parents, rep, depth) && x < |parents| && y < |parents| && x != y
    requires rep[x] == x && rep[y] == y
    ensures Forest(parents[x := y], Rerooted(rep, x, y), Deepened(rep, depth, x, depth[y] + 1))
  {
    var linked := parents[x := y];
    var rep', depth' := Rerooted(rep, x, y), Deepened(rep, depth, x, depth[y] + 1);
    assert Rooted(parents, rep, depth, x) && Rooted(parents, rep, depth, y);
    forall i | 0 <= i < |linked| ensures Rooted(linked, rep', depth', i) {
      assert Rooted(parents, rep, depth, i);
    }
  }

  /** Join the groups of `i` and `j`. */
  method Union(parents: array<nat>, i: nat, j: nat, ghost rep: seq<nat>, ghost depth: seq<nat>)
    returns (ghost rep': seq<nat>, ghost depth': seq<nat>)
    requires i < parents.Length && j < parents.Length && Forest(parents[..], rep, depth)
    modifies parents
    ensures Forest(parents[..], rep', depth')
    ensures rep' == Rerooted(rep, rep[i], rep[j])
  {
    var x := Root(parents, i, rep, depth);
    var y := Root(parents, j, rep, depth);
    ghost var before := parents[..];
    assert Rooted(before, rep, depth, i) && Rooted(before, rep, depth, j);
    parents[x] := y;
    assert parents[..] == before[x := y];
    if x == y {
      assert Rooted(before, rep, depth, x);
      assert before[x := y] == before;
      rep', depth' := rep, depth;
      assert Rerooted(rep, x, y) == rep;
    } else {
      assert Rooted(before, rep, depth, x) && Rooted(before, rep, depth, y);
      LinkingKeepsForest(before, rep, depth, x, y);
      rep', depth' := Rerooted(rep, x, y), Deepened(rep, depth, x, depth[y] + 1);
    }
  }

  lemma IdentityIsForest(n: nat)
    ensures Forest(seq(n, i => i), seq(n, i => i), seq(n, _ => 0))
  {
  }
}
