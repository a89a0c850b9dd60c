/** How split points cut an ordered list of children into contiguous segments. */
module SegmentRanges {
  import opened Basics

  datatype Range = Range(lo: nat, hi: nat)

  /** Split points increase strictly inside the list. */
  ghost predicate ValidSplits(splits: seq<nat>, len: nat)
  {
    && (forall i :: 0 <= i < |splits| ==> 0 < splits[i] < len)
    && (forall i, j :: 0 <= i < j < |splits| ==> splits[i] < splits[j])
  }

  function RangesFrom(start: nat, splits: seq<nat>, len: nat): (r: seq<Range>)
    ensures |r| == |splits| + 1
    decreases |splits|
  {
    if splits == [] then [Range(start, len)]
    else [Range(start, splits[0])] + RangesFrom(splits[0], splits[1..], len)
  }

  function Ranges(splits: seq<nat>, len: nat): seq<Range>
  {
    RangesFrom(0, splits, len)
  }

  /** The first range starts the list, the last ends it, and every split point ends one and begins the next. */
  lemma {:induction false} RangeAt(start: nat, splits: seq<nat>, len: nat, k: nat)
    requires k <= |splits|
    ensures RangesFrom(start, splits, len)[k].lo == if k == 0 then start else splits[k - 1]
    ensures RangesFrom(start, splits, len)[k].hi == if k == |splits| then len else splits[k]
    decreases |splits|
  {
    if splits != [] && k > 0 {
      RangeAt(splits[0], splits[1..], len, k - 1);
    }
  }

  /** The ranges follow one another without gap from `start` to `len`, none of them empty. */
  ghost predicate Tiles(r: seq<Range>, start: nat, len: nat)
  {
    && |r| > 0 && r[0].lo == start && r[|r| - 1].hi == len
    && (forall i :: 0 <= i < |r| ==> r[i].lo < r[i].hi)
    && (forall i, j :: 0 <= i && j == i + 1 && j < |r| ==> r[i].hi == r[j].lo)
  }

  lemma {:induction false} RangesTile(start: nat, splits: seq<nat>, len: nat)
    requires ValidSplits(splits, len) && start < len && (splits != [] ==> start < splits[0])
    ensures Tiles(RangesFrom(start, splits, len), start, len)
    decreases |splits|
  {
    if splits != [] {
      var rest := RangesFrom(splits[0], splits[1..], len);
      assert forall i :: 0 <= i < |splits| - 1 ==> splits[1..][i] == splits[i + 1];
      RangesTile(splits[0], splits[1..], len);
      var r := RangesFrom(start, splits, len);
      forall i, j | 0 <= i && j == i + 1 && j < |r| ensures r[i].hi == r[j].lo {
        if i > 0 { assert r[i] == rest[i - 1] && r[j] == rest[j - 1]; }
      }
    }
  }

  /** Any earlier range ends before any later one begins. */
  lemma {:induction false} TilesOrdered(r: seq<Range>, start: nat, len: nat, i: nat, j: nat)
    requires Tiles(r, start, len) && i < j < |r|
    ensures r[i].hi <= r[j].lo
    decreases j
  {
    if i + 1 < j {
      TilesOrdered(r, start, len, i, j - 1);
      assert r[j - 1].hi == r[j].lo;
    }
  }

  /** Every position of the list lies in exactly one range. */
  lemma {:induction false} TilesCover(r: seq<Range>, start: nat, len: nat, x: nat) returns (i: nat)
    requires Tiles(r, start, len) && start <= x < len
    ensures i < |r| && r[i].lo <= x < r[i].hi
    ensures forall k :: 0 <= k < |r| && r[k].lo <= x < r[k].hi ==> k == i
    decreases |r|
  {
    if x < r[0].hi {
      i := 0;
      forall k | 0 < k < |r| ensures x < r[k].lo { TilesOrdered(r, start, len, 0, k); }
    } else {
      assert |r| > 1;
      var rest := r[1..];
      assert r[0].hi == r[1].lo;
      forall a, b | 0 <= a && b == a + 1 && b < |rest| ensures rest[a].hi == rest[b].lo {
        assert rest[a] == r[a + 1] && rest[b] == r[b + 1];
      }
      var k := TilesCover(rest, r[1].lo, len, x);
      i := k + 1;
      forall m | 0 <= m < |r| && r[m].lo <= x < r[m].hi ensures m == i {
        assert m > 0;
        assert rest[m - 1] == r[m];
      }
    }
  }

  /** Cut the list at its split points, remembering where the last segment ended. */
  method Segments(len: nat, splits: seq<nat>) returns (r: seq<Range>)
    ensures r == Ranges(splits, len)
  {
    r := [];
    var start := 0;
    var i := 0;
    while i < |splits|
      invariant 0 <= i <= |splits|
      invariant r + RangesFrom(start, splits[i..], len) == Ranges(splits, len)
    {
      assert splits[i..][0] == splits[i] && splits[i..][1..] == splits[i + 1..];
      r := r + [Range(start, splits[i])];
      start := splits[i];
      i := i + 1;
    }
    r := r + [Range(start, len)];
  }
}
