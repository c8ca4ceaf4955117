// The brute-force edge list of day 8: every pair of boxes with its squared distance,
// then ordered by distance.
module Edges {
  import opened Points

  /** A pair of box indices and their squared distance. */
  datatype Edge = Edge(i: int, j: int, distSq: int)

  function PairEdge(boxes: seq<JunctionBox>, i: nat, j: nat): Edge
    requires i < |boxes| && j < |boxes|
  {
    Edge(i, j, DistSq(boxes[i], boxes[j]))
  }

  /** Row `i` of the nested loops of `buildEdges`, up to (not including) `j`. */
  function RowUpTo(boxes: seq<JunctionBox>, i: nat, j: nat): (row: seq<Edge>)
    requires i < |boxes| && j <= |boxes|
    ensures |row| == if j <= i + 1 then 0 else j - i - 1
  {
    if j <= i + 1 then [] else RowUpTo(boxes, i, j - 1) + [PairEdge(boxes, i, j - 1)]
  }

  /** The edges of the first `i` rows, in the order `buildEdges` appends them. */
  function RowsBelow(boxes: seq<JunctionBox>, i: nat): (edges: seq<Edge>)
    requires i <= |boxes|
  {
    if i == 0 then [] else RowsBelow(boxes, i - 1) + RowUpTo(boxes, i - 1, |boxes|)
  }

  /** Every pair `i < j` of the boxes, each once, before sorting. */
  function AllPairs(boxes: seq<JunctionBox>): seq<Edge>
  {
    RowsBelow(boxes, |boxes|)
  }

  /** The first `i` rows hold `i*n - i*(i+1)/2` edges, so all rows hold n(n-1)/2. */
  lemma {:induction false} RowsBelowLength(boxes: seq<JunctionBox>, i: nat)
    requires i <= |boxes|
    ensures 2 * |RowsBelow(boxes, i)| == 2 * i * |boxes| - i * (i + 1)
  {
    if i > 0 {
      RowsBelowLength(boxes, i - 1);
      RowCountStep(i, |boxes|);
    }
  }

  lemma RowCountStep(i: int, n: int)
    ensures 2 * (i - 1) * n - (i - 1) * (i - 1 + 1) + 2 * (n - i) == 2 * i * n - i * (i + 1)
  {
  }

  lemma AllPairsLength(boxes: seq<JunctionBox>)
    ensures 2 * |AllPairs(boxes)| == |boxes| * (|boxes| - 1)
  {
    var n := |boxes|;
    RowsBelowLength(boxes, n);
    assert 2 * n * n - n * (n + 1) == n * (n - 1);
  }

  /** The edges of row `i` are the pairs `(i, j)` for `i < j` below the bound. */
  lemma {:induction false} RowMembers(boxes: seq<JunctionBox>, i: nat, j: nat)
    requires i < |boxes| && j <= |boxes|
    ensures forall e :: e in RowUpTo(boxes, i, j) <==>
      e.i == i && i < e.j < j && e == PairEdge(boxes, i, e.j)
  {
    if j > i + 1 {
      RowMembers(boxes, i, j - 1);
    }
  }

  /** The first `i` rows hold exactly the pairs whose smaller index is below `i`. */
  lemma {:induction false} RowsMembers(boxes: seq<JunctionBox>, i: nat)
    requires i <= |boxes|
    ensures forall e :: e in RowsBelow(boxes, i) <==>
      0 <= e.i < i && e.i < e.j < |boxes| && e == PairEdge(boxes, e.i, e.j)
  {
    if i > 0 {
      RowsMembers(boxes, i - 1);
      RowMembers(boxes, i - 1, |boxes|);
      var s, row := RowsBelow(boxes, i - 1), RowUpTo(boxes, i - 1, |boxes|);
      forall e: Edge ensures e in s + row <==>
        0 <= e.i < i && e.i < e.j < |boxes| && e == PairEdge(boxes, e.i, e.j)
      {
        assert e in s + row <==> e in s || e in row;
      }
    }
  }

  /** Pairs strictly increase, lexicographically, along the rows. */
  predicate StrictlyIncreasingPairs(edges: seq<Edge>)
  {
    forall a, b :: 0 <= a < b < |edges| ==>
      edges[a].i < edges[b].i || (edges[a].i == edges[b].i && edges[a].j < edges[b].j)
  }

  lemma {:induction false} RowIncreasing(boxes: seq<JunctionBox>, i: nat, j: nat)
    requires i < |boxes| && j <= |boxes|
    ensures StrictlyIncreasingPairs(RowUpTo(boxes, i, j))
  {
    if j > i + 1 {
      RowIncreasing(boxes, i, j - 1);
      RowMembers(boxes, i, j - 1);
      var row := RowUpTo(boxes, i, j - 1);
      forall a | 0 <= a < |row| ensures row[a].i == i && row[a].j < j - 1 {
        assert row[a] in row;
      }
    }
  }

  lemma {:induction false} RowsIncreasing(boxes: seq<JunctionBox>, i: nat)
    requires i <= |boxes|
    ensures StrictlyIncreasingPairs(RowsBelow(boxes, i))
  {
    if i > 0 {
      RowsIncreasing(boxes, i - 1);
      RowIncreasing(boxes, i - 1, |boxes|);
      RowsMembers(boxes, i - 1);
      RowMembers(boxes, i - 1, |boxes|);
      var s, row := RowsBelow(boxes, i - 1), RowUpTo(boxes, i - 1, |boxes|);
      forall a | 0 <= a < |s| ensures s[a].i < i - 1 {
        assert s[a] in s;
      }
      forall b | 0 <= b < |row| ensures row[b].i == i - 1 {
        assert row[b] in row;
      }
    }
  }

  /** `buildEdges` before sorting: exactly the pairs `i < j`, each once, with their
      squared distances. */
  lemma AllPairsExact(boxes: seq<JunctionBox>)
    ensures forall e :: e in AllPairs(boxes) <==>
      0 <= e.i < e.j < |boxes| && e == PairEdge(boxes, e.i, e.j)
    ensures forall a, b :: 0 <= a < b < |AllPairs(boxes)| ==>
      (AllPairs(boxes)[a].i, AllPairs(boxes)[a].j) != (AllPairs(boxes)[b].i, AllPairs(boxes)[b].j)
  {
    RowsMembers(boxes, |boxes|);
    RowsIncreasing(boxes, |boxes|);
  }

  predicate SortedByDist(edges: seq<Edge>)
  {
    forall a, b :: 0 <= a < b < |edges| ==> edges[a].distSq <= edges[b].distSq
  }

  function InsertByDist(s: seq<Edge>, e: Edge): (r: seq<Edge>)
    requires SortedByDist(s)
    ensures SortedByDist(r) && multiset(r) == multiset(s) + multiset{e} && |r| == |s| + 1
  {
    if |s| == 0 then [e]
    else if e.distSq <= s[0].distSq then [e] + s
    else
      var r := InsertByDist(s[1..], e);
      assert s == [s[0]] + s[1..];
      InsertAbove(s, r, e);
      [s[0]] + r
  }

  lemma InsertAbove(s: seq<Edge>, r: seq<Edge>, e: Edge)
    requires |s| > 0 && SortedByDist(s) && SortedByDist(r)
    requires e.distSq > s[0].distSq && multiset(r) == multiset(s[1..]) + multiset{e}
    ensures SortedByDist([s[0]] + r)
  {
    forall x | x in r ensures x.distSq >= s[0].distSq {
      assert x in multiset(r);
      if x != e {
        assert x in multiset(s[1..]);
        assert x in s[1..];
      }
    }
    var t := [s[0]] + r;
    forall a, b | 0 <= a < b < |t| ensures t[a].distSq <= t[b].distSq {
      if a == 0 {
        assert t[b] == r[b - 1] && r[b - 1] in r;
      } else {
        assert t[a] == r[a - 1] && t[b] == r[b - 1];
      }
    }
  }

  /** The `sort.Slice` by distance: a permutation in non-decreasing distance. The order
      among equal distances is one choice of many. */
  function SortByDist(s: seq<Edge>): (r: seq<Edge>)
    ensures SortedByDist(r) && multiset(r) == multiset(s) && |r| == |s|
  {
    if |s| == 0 then []
    else
      assert s == s[..|s| - 1] + [s[|s| - 1]];
      InsertByDist(SortByDist(s[..|s| - 1]), s[|s| - 1])
  }

  /** `buildEdges`: appends every pair `i < j` row by row, then sorts by distance. The
      pairs come out closest first; which of several equally distant pairs comes first
      is left open, as `sort.Slice` is not stable. */
  method BuildEdges(boxes: seq<JunctionBox>) returns (edges: seq<Edge>)
    ensures SortedByDist(edges) && multiset(edges) == multiset(AllPairs(boxes))
  {
    var n := |boxes|;
    edges := [];
    var i := 0;
    while i < n
      invariant 0 <= i <= n
      invariant edges == RowsBelow(boxes, i)
    {
      var j := i + 1;
      while j < n
        invariant i + 1 <= j <= n
        invariant edges == RowsBelow(boxes, i) + RowUpTo(boxes, i, j)
      {
        var dx := boxes[i].x - boxes[j].x;
        var dy := boxes[i].y - boxes[j].y;
        var dz := boxes[i].z - boxes[j].z;
        SquaresAsProducts(boxes[i], boxes[j]);
        edges := edges + [Edge(i, j, dx * dx + dy * dy + dz * dz)];
        j := j + 1;
      }
      i := i + 1;
    }
    edges := SortByDist(edges);
  }

  /** A sorted edge list with the pairs' multiset is exactly the pairs `i < j`, each
      once, closest first. */
  lemma BuildEdgesExact(boxes: seq<JunctionBox>, edges: seq<Edge>)
    requires multiset(edges) == multiset(AllPairs(boxes))
    ensures forall e :: e in edges <==> 0 <= e.i < e.j < |boxes| && e == PairEdge(boxes, e.i, e.j)
    ensures 2 * |edges| == |boxes| * (|boxes| - 1)
  {
    AllPairsExact(boxes);
    AllPairsLength(boxes);
    var s := AllPairs(boxes);
    assert |edges| == |multiset(edges)| == |multiset(s)| == |s|;
    forall e ensures e in edges <==> e in s {
      assert e in edges <==> e in multiset(edges);
      assert e in s <==> e in multiset(s);
    }
  }
}
