// The 3-d k-d tree of day 8: built by median split on X, Y, Z in turn, and searched
// for the k nearest boxes with a bounded buffer, skipping the far side of a splitting
// plane once the buffer is full and the plane is no closer than its farthest entry.
module KdTree {
  import opened Points
  import opened Knn

  /** A box with its index in the input. */
  datatype IndexedPoint = IndexedPoint(point: JunctionBox, index: int)

  /** A `*kdNode`: a node, or nil. */
  datatype Tree = Nil | Node(point: JunctionBox, index: int, left: Tree, right: Tree)

  function Key(ip: IndexedPoint, axis: int): int
  {
    GetAxis(ip.point, axis)
  }

  predicate SortedOn(s: seq<IndexedPoint>, axis: int)
  {
    forall a, b :: 0 <= a < b < |s| ==> Key(s[a], axis) <= Key(s[b], axis)
  }

  function InsertSorted(s: seq<IndexedPoint>, ip: IndexedPoint, axis: int): (r: seq<IndexedPoint>)
    requires SortedOn(s, axis)
    ensures SortedOn(r, axis) && multiset(r) == multiset(s) + multiset{ip} && |r| == |s| + 1
  {
    if |s| == 0 then [ip]
    else if Key(ip, axis) <= Key(s[0], axis) then [ip] + s
    else
      var r := InsertSorted(s[1..], ip, axis);
      assert s == [s[0]] + s[1..];
      LowerBound(s, r, ip, axis);
      [s[0]] + r
  }

  lemma LowerBound(s: seq<IndexedPoint>, r: seq<IndexedPoint>, ip: IndexedPoint, axis: int)
    requires |s| > 0 && SortedOn(s, axis) && SortedOn(r, axis)
    requires Key(ip, axis) > Key(s[0], axis) && multiset(r) == multiset(s[1..]) + multiset{ip}
    ensures SortedOn([s[0]] + r, axis)
  {
    forall x | x in r ensures Key(x, axis) >= Key(s[0], axis) {
      assert x in multiset(r);
      if x != ip {
        assert x in multiset(s[1..]);
        assert x in s[1..];
      }
    }
    var t := [s[0]] + r;
    forall a, b | 0 <= a < b < |t| ensures Key(t[a], axis) <= Key(t[b], axis) {
      if a == 0 {
        assert t[b] == r[b - 1] && r[b - 1] in r;
      } else {
        assert t[a] == r[a - 1] && t[b] == r[b - 1];
      }
    }
  }

  /** The `sort.Slice` of `buildKDTree`: a permutation ordered by the axis value. The
      order among equal values is one choice of many. */
  function SortByAxis(s: seq<IndexedPoint>, axis: int): (r: seq<IndexedPoint>)
    ensures SortedOn(r, axis) && multiset(r) == multiset(s) && |r| == |s|
  {
    if |s| == 0 then []
    else
      assert s == s[..|s| - 1] + [s[|s| - 1]];
      InsertSorted(SortByAxis(s[..|s| - 1], axis), s[|s| - 1], axis)
  }

  /** The boxes in a tree, with their indices. */
  function Items(t: Tree): multiset<IndexedPoint>
  {
    match t
    case Nil => multiset{}
    case Node(p, i, l, r) => multiset{IndexedPoint(p, i)} + Items(l) + Items(r)
  }

  /** A node built at `depth` splits on axis `depth % 3`: nothing on its left is beyond
      it on that axis, nothing on its right before it, and so on down the tree. */
  predicate Ordered(t: Tree, depth: nat)
  {
    match t
    case Nil => true
    case Node(p, i, l, r) =>
      (forall ip :: ip in Items(l) ==> Key(ip, depth % 3) <= GetAxis(p, depth % 3)) &&
      (forall ip :: ip in Items(r) ==> Key(ip, depth % 3) >= GetAxis(p, depth % 3)) &&
      Ordered(l, depth + 1) && Ordered(r, depth + 1)
  }

  /** `buildKDTree`: nil for no points; otherwise the median of the points sorted on
      the depth's axis, over the trees of the points before and after it. */
  function Build(points: seq<IndexedPoint>, depth: nat): (t: Tree)
    ensures Items(t) == multiset(points)
    ensures Ordered(t, depth)
    ensures t == Nil <==> |points| == 0
    ensures t.Node? ==>
      |Items(t.left)| == |points| / 2 && |Items(t.right)| == |points| - |points| / 2 - 1
    decreases |points|
  {
    if |points| == 0 then Nil
    else
      var sorted := SortByAxis(points, depth % 3);
      var m := |points| / 2;
      MedianSplit(sorted, m, depth % 3);
      Node(sorted[m].point, sorted[m].index,
           Build(sorted[..m], depth + 1), Build(sorted[m + 1..], depth + 1))
  }

  /** The median of a sorted sequence splits it into the entries no later and those no
      earlier on the axis. */
  lemma MedianSplit(sorted: seq<IndexedPoint>, m: nat, axis: int)
    requires SortedOn(sorted, axis) && m < |sorted|
    ensures multiset(sorted) ==
      multiset{IndexedPoint(sorted[m].point, sorted[m].index)} + multiset(sorted[..m]) + multiset(sorted[m + 1..])
    ensures forall ip :: ip in multiset(sorted[..m]) ==> Key(ip, axis) <= Key(sorted[m], axis)
    ensures forall ip :: ip in multiset(sorted[m + 1..]) ==> Key(ip, axis) >= Key(sorted[m], axis)
  {
    assert sorted == sorted[..m] + [sorted[m]] + sorted[m + 1..];
    assert IndexedPoint(sorted[m].point, sorted[m].index) == sorted[m];
    forall ip | ip in multiset(sorted[..m]) ensures Key(ip, axis) <= Key(sorted[m], axis) {
      assert ip in sorted[..m];
    }
    forall ip | ip in multiset(sorted[m + 1..]) ensures Key(ip, axis) >= Key(sorted[m], axis) {
      assert ip in sorted[m + 1..];
    }
  }

  /** The points of `NewKDTree`: each box with its index. */
  function Indexed(boxes: seq<JunctionBox>): (points: seq<IndexedPoint>)
    ensures |points| == |boxes|
  {
    seq(|boxes|, i requires 0 <= i < |boxes| => IndexedPoint(boxes[i], i))
  }

  /** `NewKDTree`: the tree of the indexed boxes, nil for none. */
  method NewKDTree(boxes: seq<JunctionBox>) returns (root: Tree)
    ensures root == Build(Indexed(boxes), 0)
  {
    if |boxes| == 0 {
      assert Indexed(boxes) == [];
      return Nil;
    }
    var points: seq<IndexedPoint> := [];
    var i := 0;
    while i < |boxes|
      invariant 0 <= i <= |boxes|
      invariant points == Indexed(boxes)[..i]
    {
      points := points + [IndexedPoint(boxes[i], i)];
      i := i + 1;
    }
    assert points == Indexed(boxes);
    root := Build(points, 0);
  }

  /** Every box of the input is in the tree, once, under its own index. */
  lemma NewKDTreeItems(boxes: seq<JunctionBox>, i: nat)
    requires i < |boxes|
    ensures multiset(Indexed(boxes))[IndexedPoint(boxes[i], i)] == 1
    ensures Ordered(Build(Indexed(boxes), 0), 0)
  {
    IndexedOnce(boxes, |boxes|, i);
    assert Indexed(boxes)[..|boxes|] == Indexed(boxes);
  }

  lemma {:induction false} IndexedOnce(boxes: seq<JunctionBox>, n: nat, i: nat)
    requires i < n <= |boxes|
    ensures multiset(Indexed(boxes)[..n])[IndexedPoint(boxes[i], i)] == 1
  {
    var s := Indexed(boxes);
    assert s[..n] == s[..n - 1] + [s[n - 1]];
    if i < n - 1 {
      IndexedOnce(boxes, n - 1, i);
    } else {
      assert IndexedPoint(boxes[i], i) !in s[..n - 1];
    }
  }

  /** The candidates the search offers from a tree: every box but the excluded index,
      with its squared distance to the query. */
  function Candidates(t: Tree, q: JunctionBox, exclude: int): multiset<Neighbor>
  {
    match t
    case Nil => multiset{}
    case Node(p, i, l, r) =>
      (if i != exclude then multiset{Neighbor(i, DistSq(q, p))} else multiset{}) +
      Candidates(l, q, exclude) + Candidates(r, q, exclude)
  }

  /** No candidate carries the excluded index. */
  lemma {:induction false} CandidatesExclude(t: Tree, q: JunctionBox, exclude: int)
    ensures forall x :: x in Candidates(t, q, exclude) ==> x.index != exclude
  {
    match t
    case Nil =>
    case Node(p, i, l, r) =>
      CandidatesExclude(l, q, exclude);
      CandidatesExclude(r, q, exclude);
  }

  /** Every candidate is a box of the tree other than the excluded index, at its own
      distance from the query. */
  lemma {:induction false} CandidateIsItem(t: Tree, q: JunctionBox, exclude: int, x: Neighbor)
    requires x in Candidates(t, q, exclude)
    ensures exists ip :: ip in Items(t) && ip.index != exclude && x == Neighbor(ip.index, DistSq(q, ip.point))
  {
    match t
    case Nil =>
    case Node(p, i, l, r) =>
      if x in Candidates(l, q, exclude) {
        CandidateIsItem(l, q, exclude, x);
      } else if x in Candidates(r, q, exclude) {
        CandidateIsItem(r, q, exclude, x);
      } else {
        assert IndexedPoint(p, i) in Items(t);
      }
  }

  /** One candidate per box not excluded. */
  lemma {:induction false} CandidatesSize(t: Tree, q: JunctionBox, exclude: int)
    ensures |Candidates(t, q, exclude)| == |Items(t)| - multiset(Indices(t))[exclude]
  {
    match t
    case Nil =>
    case Node(p, i, l, r) =>
      CandidatesSize(l, q, exclude);
      CandidatesSize(r, q, exclude);
  }

  function Indices(t: Tree): seq<int>
  {
    match t
    case Nil => []
    case Node(p, i, l, r) => [i] + Indices(l) + Indices(r)
  }

  /** The search's distances stay below the `int64` sentinel. */
  predicate Near(t: Tree, q: JunctionBox)
  {
    forall ip :: ip in Items(t) ==> DistSq(q, ip.point) < MaxInt64
  }

  /** Every box on the far side of a plane is at least the plane's distance away. */
  lemma {:induction false} FarSide(t: Tree, q: JunctionBox, exclude: int, axis: int, v: int)
    requires forall ip :: ip in Items(t) ==>
      GetAxis(q, axis) < v <= Key(ip, axis) || Key(ip, axis) <= v <= GetAxis(q, axis)
    ensures forall x :: x in Candidates(t, q, exclude) ==> x.distSq >= Square(GetAxis(q, axis) - v)
  {
    match t
    case Nil =>
    case Node(p, i, l, r) =>
      assert IndexedPoint(p, i) in Items(t);
      PlaneBound(q, p, axis, v);
      FarSide(l, q, exclude, axis, v);
      FarSide(r, q, exclude, axis, v);
  }

  /** A buffer holding the k nearest keeps doing so under any reordering. */
  lemma KBestReordered(s: seq<Neighbor>, s': seq<Neighbor>, u: multiset<Neighbor>, k: nat)
    requires KBest(s, u, k) && multiset(s') == multiset(s)
    ensures KBest(s', u, k)
  {
    assert |s'| == |multiset(s')|;
    forall b | b in s' ensures b in s {
      assert b in multiset(s');
    }
  }

  /** `kNearestSearchBuf`: offers the node's box unless excluded, searches the side
      of the plane holding the query, and the other side only when the plane is closer
      than the farthest neighbour held (or there is still room). The buffer ends up
      holding the k nearest of what it held and every candidate of the tree. */
  method KNearestSearchBuf(node: Tree, query: JunctionBox, depth: nat, buf: KnnBuffer,
                           excludeIndex: int, ghost u: multiset<Neighbor>)
    requires buf.Valid() && 0 < buf.k && Descending(buf.Contents()) && KBest(buf.Contents(), u, buf.k)
    requires Ordered(node, depth) && Near(node, query)
    modifies buf, buf.neighbors
    ensures buf.Valid() && buf.k == old(buf.k) && buf.neighbors == old(buf.neighbors)
    ensures Descending(buf.Contents())
    ensures KBest(buf.Contents(), u + Candidates(node, query, excludeIndex), buf.k)
    decreases node, 2
  {
    if node == Nil {
      assert u + Candidates(node, query, excludeIndex) == u;
      return;
    }
    ghost var own := OwnCandidate(node, query, excludeIndex);
    if node.index != excludeIndex {
      var d := DistSq(query, node.point);
      AddCandidate(buf, node.index, d, u);
    } else {
      assert u + own == u;
    }
    SearchSides(node, query, depth, buf, excludeIndex, u, own);
  }

  /** The two sides of a node in `kNearestSearchBuf`: first the one holding the query
      (the left one when the query is before the node on its axis), then the other. */
  method SearchSides(node: Tree, query: JunctionBox, depth: nat, buf: KnnBuffer,
                     excludeIndex: int, ghost u: multiset<Neighbor>, ghost own: multiset<Neighbor>)
    requires node.Node? && own == OwnCandidate(node, query, excludeIndex)
    requires buf.Valid() && 0 < buf.k && Descending(buf.Contents()) && KBest(buf.Contents(), u + own, buf.k)
    requires Ordered(node, depth) && Near(node, query)
    modifies buf, buf.neighbors
    ensures buf.Valid() && buf.k == old(buf.k) && buf.neighbors == old(buf.neighbors)
    ensures Descending(buf.Contents())
    ensures KBest(buf.Contents(), u + Candidates(node, query, excludeIndex), buf.k)
    decreases node, 1
  {
    var axis := depth % 3;
    var queryVal := GetAxis(query, axis);
    var nodeVal := GetAxis(node.point, axis);
    if queryVal < nodeVal {
      SearchPair(node, node.left, node.right, query, depth, buf, excludeIndex, u, own);
    } else {
      SearchPair(node, node.right, node.left, query, depth, buf, excludeIndex, u, own);
    }
  }

  /** The side `first` holding the query in full, then the plane's distance, then the
      far side `second` through `SearchFarSide`. */
  method SearchPair(node: Tree, first: Tree, second: Tree, query: JunctionBox, depth: nat,
                    buf: KnnBuffer, excludeIndex: int, ghost u: multiset<Neighbor>,
                    ghost own: multiset<Neighbor>)
    requires node.Node? && own == OwnCandidate(node, query, excludeIndex)
    requires (first, second) == if GetAxis(query, depth % 3) < GetAxis(node.point, depth % 3)
      then (node.left, node.right) else (node.right, node.left)
    requires buf.Valid() && 0 < buf.k && Descending(buf.Contents()) && KBest(buf.Contents(), u + own, buf.k)
    requires Ordered(node, depth) && Near(node, query)
    modifies buf, buf.neighbors
    ensures buf.Valid() && buf.k == old(buf.k) && buf.neighbors == old(buf.neighbors)
    ensures Descending(buf.Contents())
    ensures KBest(buf.Contents(), u + Candidates(node, query, excludeIndex), buf.k)
    decreases node, 0
  {
    var planeDist := GetAxis(query, depth % 3) - GetAxis(node.point, depth % 3);
    var planeDistSq := Square(planeDist);
    SidesOfPlane(node, first, second, query, depth, excludeIndex, planeDistSq);
    KNearestSearchBuf(first, query, depth + 1, buf, excludeIndex, u + own);
    SearchFarSide(second, query, depth + 1, buf, excludeIndex, planeDistSq,
                  u + own + Candidates(first, query, excludeIndex));
    BestOfSplit(buf.Contents(), buf.k, node, query, excludeIndex, own, u, first, second);
  }

  /** The end of `kNearestSearchBuf`: the side away from the query is searched only when
      its plane is closer than the farthest neighbour held; otherwise every candidate
      there is at least that far, and skipping them loses none of the k nearest. */
  method SearchFarSide(second: Tree, query: JunctionBox, depth: nat, buf: KnnBuffer,
                       excludeIndex: int, planeDistSq: int, ghost u: multiset<Neighbor>)
    requires buf.Valid() && 0 < buf.k && Descending(buf.Contents()) && KBest(buf.Contents(), u, buf.k)
    requires Ordered(second, depth) && Near(second, query) && planeDistSq < MaxInt64
    requires forall x :: x in Candidates(second, query, excludeIndex) ==> x.distSq >= planeDistSq
    modifies buf, buf.neighbors
    ensures buf.Valid() && buf.k == old(buf.k) && buf.neighbors == old(buf.neighbors)
    ensures Descending(buf.Contents())
    ensures KBest(buf.Contents(), u + Candidates(second, query, excludeIndex), buf.k)
    decreases second, 3
  {
    if planeDistSq < buf.MaxDist() {
      KNearestSearchBuf(second, query, depth, buf, excludeIndex, u);
    } else {
      assert buf.count == buf.k;
      SkipKeepsBest(buf.Contents(), u, buf.k, Candidates(second, query, excludeIndex));
    }
  }

  /** The subtrees of an ordered tree near the query are ordered and near it. */
  lemma Subtrees(node: Tree, depth: nat, q: JunctionBox)
    requires node.Node? && Ordered(node, depth) && Near(node, q)
    ensures Ordered(node.left, depth + 1) && Near(node.left, q)
    ensures Ordered(node.right, depth + 1) && Near(node.right, q)
  {
    assert Items(node.left) <= Items(node) && Items(node.right) <= Items(node);
  }

  /** The node's own candidate: none when it is the excluded index. */
  function OwnCandidate(node: Tree, q: JunctionBox, exclude: int): multiset<Neighbor>
    requires node.Node?
  {
    if node.index != exclude then multiset{Neighbor(node.index, DistSq(q, node.point))} else multiset{}
  }

  /** `TryAdd` on a buffer holding the k nearest of `u`: it then holds the k nearest of
      `u` and the new neighbour. */
  method AddCandidate(buf: KnnBuffer, index: int, distSq: int, ghost u: multiset<Neighbor>)
    requires buf.Valid() && 0 < buf.k && Descending(buf.Contents()) && KBest(buf.Contents(), u, buf.k)
    modifies buf, buf.neighbors
    ensures buf.Valid() && buf.k == old(buf.k) && buf.neighbors == old(buf.neighbors)
    ensures Descending(buf.Contents())
    ensures KBest(buf.Contents(), u + multiset{Neighbor(index, distSq)}, buf.k)
  {
    ghost var s := buf.Contents();
    var added := buf.TryAdd(index, distSq);
    OfferKeepsBest(s, u, buf.k, Neighbor(index, distSq));
    OfferDescending(s, buf.k, Neighbor(index, distSq));
  }

  /** The candidates of a node are its own and those of its two sides, in either order. */
  lemma CandidatesSplit(node: Tree, q: JunctionBox, exclude: int, own: multiset<Neighbor>,
                        u: multiset<Neighbor>, first: Tree, second: Tree)
    requires node.Node?
    requires own == OwnCandidate(node, q, exclude)
    requires (first, second) == (node.left, node.right) || (first, second) == (node.right, node.left)
    ensures u + own + Candidates(first, q, exclude) + Candidates(second, q, exclude) ==
      u + Candidates(node, q, exclude)
  {
    assert own + Candidates(first, q, exclude) + Candidates(second, q, exclude) ==
      Candidates(node, q, exclude);
  }

  /** The k nearest of the node's own candidate and its two sides are the k nearest of
      the node. */
  lemma BestOfSplit(s: seq<Neighbor>, k: nat, node: Tree, q: JunctionBox, exclude: int,
                    own: multiset<Neighbor>, u: multiset<Neighbor>, first: Tree, second: Tree)
    requires node.Node?
    requires own == OwnCandidate(node, q, exclude)
    requires (first, second) == (node.left, node.right) || (first, second) == (node.right, node.left)
    requires KBest(s, u + own + Candidates(first, q, exclude) + Candidates(second, q, exclude), k)
    ensures KBest(s, u + Candidates(node, q, exclude), k)
  {
    CandidatesSplit(node, q, exclude, own, u, first, second);
  }

  /** The side of a node away from the query lies, on the node's axis, at least as far
      as the node's plane; and that plane is no farther than the node's own box. */
  /** What the search needs of a node's two sides: both are ordered one level down and
      near the query, and everything on the far side is at least the plane's distance
      away, which is below the sentinel. */
  lemma SidesOfPlane(node: Tree, first: Tree, second: Tree, q: JunctionBox, depth: nat,
                     exclude: int, plane: int)
    requires node.Node? && Ordered(node, depth) && Near(node, q)
    requires (first, second) == if GetAxis(q, depth % 3) < GetAxis(node.point, depth % 3)
      then (node.left, node.right) else (node.right, node.left)
    requires plane == Square(GetAxis(q, depth % 3) - GetAxis(node.point, depth % 3))
    ensures first < node && second < node
    ensures Ordered(first, depth + 1) && Near(first, q) && Ordered(second, depth + 1) && Near(second, q)
    ensures plane < MaxInt64
    ensures forall x :: x in Candidates(second, q, exclude) ==> x.distSq >= plane
  {
    Subtrees(node, depth, q);
    SecondIsFar(node, q, depth, exclude, second, plane);
  }

  lemma SecondIsFar(node: Tree, q: JunctionBox, depth: nat, exclude: int, second: Tree, plane: int)
    requires node.Node? && Ordered(node, depth) && Near(node, q)
    requires second == if GetAxis(q, depth % 3) < GetAxis(node.point, depth % 3) then node.right else node.left
    requires plane == Square(GetAxis(q, depth % 3) - GetAxis(node.point, depth % 3))
    ensures plane < MaxInt64
    ensures forall x :: x in Candidates(second, q, exclude) ==> x.distSq >= plane
  {
    var axis := depth % 3;
    PlaneNear(node, q, axis);
    SecondBeyond(node, q, depth, second);
    FarSide(second, q, exclude, axis, GetAxis(node.point, axis));
    forall x | x in Candidates(second, q, exclude) ensures x.distSq >= plane {
    }
  }

  /** The plane through a node near the query is nearer still. */
  lemma PlaneNear(node: Tree, q: JunctionBox, axis: int)
    requires node.Node? && Near(node, q)
    ensures Square(GetAxis(q, axis) - GetAxis(node.point, axis)) < MaxInt64
  {
    assert IndexedPoint(node.point, node.index) in Items(node);
    AxisGapBound(q, node.point, axis);
  }

  /** Every box on the side away from the query lies beyond the node's plane. */
  lemma SecondBeyond(node: Tree, q: JunctionBox, depth: nat, second: Tree)
    requires node.Node? && Ordered(node, depth)
    requires second == if GetAxis(q, depth % 3) < GetAxis(node.point, depth % 3) then node.right else node.left
    ensures forall ip :: ip in Items(second) ==>
      GetAxis(q, depth % 3) < GetAxis(node.point, depth % 3) <= Key(ip, depth % 3) ||
      Key(ip, depth % 3) <= GetAxis(node.point, depth % 3) <= GetAxis(q, depth % 3)
  {
  }

  /** `KNearestInto`: nothing for an empty tree or no room; otherwise the k nearest
      candidates, closest first, which the buffer's array now holds as well. */
  method KNearestInto(root: Tree, query: JunctionBox, excludeIndex: int, buf: KnnBuffer)
    returns (result: seq<Neighbor>)
    requires buf.Valid() && Ordered(root, 0) && Near(root, query)
    modifies buf, buf.neighbors
    ensures buf.Valid() && buf.k == old(buf.k) && buf.neighbors == old(buf.neighbors)
    ensures root == Nil || buf.k == 0 ==> result == []
    ensures root != Nil && buf.k > 0 ==>
      Ascending(result) && KBest(result, Candidates(root, query, excludeIndex), buf.k)
    ensures forall i :: 0 <= i < |result| ==> result[i].index != excludeIndex
  {
    if root == Nil || buf.k == 0 {
      return [];
    }
    buf.Reset();
    KNearestSearchBuf(root, query, 0, buf, excludeIndex, multiset{});
    ghost var s := buf.Contents();
    result := buf.Results();
    KBestReordered(s, result, Candidates(root, query, excludeIndex), buf.k);
    CandidatesExclude(root, query, excludeIndex);
    forall i | 0 <= i < |result| ensures result[i].index != excludeIndex {
      assert result[i] in multiset(s);
    }
  }
}
