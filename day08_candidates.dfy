// The candidate edges of the k-d tree solution of day 8: each box's k nearest other
// boxes, as unordered pairs, each pair once at the smallest distance seen for it,
// closest first.
module CandidateEdges {
  import opened Points
  import opened Knn
  import opened KdTree
  import opened Edges

  /** `normalizeEdgeKey`: the two indices, smaller first. */
  function NormalizeEdgeKey(i: int, j: int): (key: (int, int))
    ensures key.0 <= key.1
    ensures key == (i, j) || key == (j, i)
  {
    if i < j then (i, j) else (j, i)
  }

  /** Both orders of a pair give one key, and two distinct indices an ordered one. */
  lemma NormalizeSymmetric(i: int, j: int)
    ensures NormalizeEdgeKey(i, j) == NormalizeEdgeKey(j, i)
    ensures i != j ==> NormalizeEdgeKey(i, j).0 < NormalizeEdgeKey(i, j).1
  {
  }

  /** What `collectCandidateEdges` offers its edge set for one neighbour. */
  datatype Sighting = Sighting(key: (int, int), distSq: int)

  /** The neighbours found from box `i`, as offers. */
  function SightingsOf(i: int, nbs: seq<Neighbor>): (s: seq<Sighting>)
    ensures |s| == |nbs|
  {
    seq(|nbs|, t requires 0 <= t < |nbs| => Sighting(NormalizeEdgeKey(i, nbs[t].index), nbs[t].distSq))
  }

  /** The offers of the neighbour lists of boxes 0, 1, ..., in that order. */
  function AllSightings(lists: seq<seq<Neighbor>>): seq<Sighting>
  {
    if |lists| == 0 then []
    else AllSightings(lists[..|lists| - 1]) + SightingsOf(|lists| - 1, lists[|lists| - 1])
  }

  /** One update of `edgeSet`: a key not seen yet, or seen farther away, takes the
      offered distance. */
  function Keep(m: map<(int, int), int>, s: Sighting): map<(int, int), int>
  {
    if s.key !in m || s.distSq < m[s.key] then m[s.key := s.distSq] else m
  }

  /** `edgeSet` after the offers, in order. */
  function Nearest(s: seq<Sighting>): map<(int, int), int>
  {
    if |s| == 0 then map[] else Keep(Nearest(s[..|s| - 1]), s[|s| - 1])
  }

  /** The edge set holds exactly the keys offered, each at a distance no greater than
      any offer of it. */
  lemma {:induction false} NearestIsMinimum(s: seq<Sighting>)
    ensures forall key :: key in Nearest(s) <==> exists t :: 0 <= t < |s| && s[t].key == key
    ensures forall t :: 0 <= t < |s| ==> s[t].key in Nearest(s) && Nearest(s)[s[t].key] <= s[t].distSq
  {
    if |s| > 0 {
      var init := s[..|s| - 1];
      NearestIsMinimum(init);
      forall key ensures key in Nearest(s) <==> exists t :: 0 <= t < |s| && s[t].key == key {
        if key in Nearest(init) {
          var t :| 0 <= t < |init| && init[t].key == key;
          assert s[t] == init[t];
        }
        if exists t :: 0 <= t < |s| && s[t].key == key {
          var t :| 0 <= t < |s| && s[t].key == key;
          if t < |init| {
            assert init[t] == s[t];
          }
        }
      }
      forall t | 0 <= t < |s| ensures s[t].key in Nearest(s) && Nearest(s)[s[t].key] <= s[t].distSq {
        if t < |init| {
          assert init[t] == s[t];
        }
      }
    }
  }

  /** The distance the edge set keeps for a key is the distance of one of its offers. */
  lemma {:induction false} NearestAttained(s: seq<Sighting>, key: (int, int)) returns (t: nat)
    requires key in Nearest(s)
    ensures t < |s| && s[t].key == key && s[t].distSq == Nearest(s)[key]
  {
    var init, last := s[..|s| - 1], s[|s| - 1];
    if last.key == key && (key !in Nearest(init) || last.distSq < Nearest(init)[key]) {
      t := |s| - 1;
    } else {
      t := NearestAttained(init, key);
      assert s[t] == init[t];
    }
  }

  /** Every squared distance between two boxes is below the `int64` maximum, the
      sentinel of a buffer with room. */
  predicate Close(boxes: seq<JunctionBox>)
  {
    forall a, b :: 0 <= a < |boxes| && 0 <= b < |boxes| ==> DistSq(boxes[a], boxes[b]) < MaxInt64
  }

  /** An offer joins two distinct boxes, smaller index first, at their distance. */
  predicate TrueSighting(boxes: seq<JunctionBox>, s: Sighting)
  {
    0 <= s.key.0 < s.key.1 < |boxes| && s.distSq == DistSq(boxes[s.key.0], boxes[s.key.1])
  }

  /** The neighbour list found from box `i`: none when `k` is 0, otherwise a choice of
      the `k` nearest other boxes. */
  ghost predicate NearestOf(boxes: seq<JunctionBox>, k: nat, i: nat, nbs: seq<Neighbor>)
    requires i < |boxes|
  {
    if k == 0 then nbs == []
    else KBest(nbs, Candidates(Build(Indexed(boxes), 0), boxes[i], i), k)
  }

  /** What `collectCandidateEdges` returns, given the neighbour lists its queries found:
      exactly the keys of the edge set those lists build, each at the distance it keeps,
      each pair once and ordered, at the boxes' true distance, closest first. */
  ghost predicate CandidateList(boxes: seq<JunctionBox>, k: nat, lists: seq<seq<Neighbor>>, edges: seq<Edge>)
  {
    |lists| == |boxes| &&
    (forall i :: 0 <= i < |boxes| ==> NearestOf(boxes, k, i, lists[i])) &&
    (forall e :: e in edges <==>
      (e.i, e.j) in Nearest(AllSightings(lists)) && e.distSq == Nearest(AllSightings(lists))[(e.i, e.j)]) &&
    (forall e :: e in edges ==> 0 <= e.i < e.j < |boxes| && e.distSq == DistSq(boxes[e.i], boxes[e.j])) &&
    (forall e :: e in edges ==> multiset(edges)[e] == 1) &&
    SortedByDist(edges)
  }

  /** Two candidate edges on one pair are the same edge. */
  lemma PairOnce(boxes: seq<JunctionBox>, k: nat, lists: seq<seq<Neighbor>>, edges: seq<Edge>, e: Edge, e': Edge)
    requires CandidateList(boxes, k, lists, edges) && e in edges && e' in edges
    requires e.i == e'.i && e.j == e'.j
    ensures e == e'
  {
  }

  /** Every candidate edge is a pair some query found: `j` among the neighbours of `i`,
      or `i` among those of `j`, and the distance kept is the smallest offered for it. */
  lemma CandidateFound(boxes: seq<JunctionBox>, k: nat, lists: seq<seq<Neighbor>>, edges: seq<Edge>, e: Edge)
    requires CandidateList(boxes, k, lists, edges) && e in edges
    ensures exists t :: 0 <= t < |AllSightings(lists)| && AllSightings(lists)[t] == Sighting((e.i, e.j), e.distSq)
    ensures forall t :: 0 <= t < |AllSightings(lists)| && AllSightings(lists)[t].key == (e.i, e.j) ==>
      e.distSq <= AllSightings(lists)[t].distSq
  {
    var s := AllSightings(lists);
    NearestIsMinimum(s);
    var t := NearestAttained(s, (e.i, e.j));
    assert s[t] == Sighting((e.i, e.j), e.distSq);
  }

  /** Every pair found by some query is a candidate edge. */
  lemma FoundIsCandidate(boxes: seq<JunctionBox>, k: nat, lists: seq<seq<Neighbor>>, edges: seq<Edge>, t: nat)
    requires CandidateList(boxes, k, lists, edges) && t < |AllSightings(lists)|
    ensures var key := AllSightings(lists)[t].key;
      key in Nearest(AllSightings(lists)) &&
      Edge(key.0, key.1, Nearest(AllSightings(lists))[key]) in edges
  {
    NearestIsMinimum(AllSightings(lists));
  }

  /** Every box of the tree is in the input under its own index. */
  lemma ItemOfIndexed(boxes: seq<JunctionBox>, ip: IndexedPoint)
    requires ip in multiset(Indexed(boxes))
    ensures 0 <= ip.index < |boxes| && ip.point == boxes[ip.index]
  {
    var points := Indexed(boxes);
    assert ip in points;
    var x :| 0 <= x < |points| && points[x] == ip;
  }

  /** The tree of close boxes is near each of them. */
  lemma TreeNear(boxes: seq<JunctionBox>, i: nat)
    requires Close(boxes) && i < |boxes|
    ensures Near(Build(Indexed(boxes), 0), boxes[i])
  {
    forall ip | ip in Items(Build(Indexed(boxes), 0)) ensures DistSq(boxes[i], ip.point) < MaxInt64 {
      assert ip in multiset(Indexed(boxes));
      ItemOfIndexed(boxes, ip);
    }
  }

  /** A neighbour found from box `i` is another box, at its distance from box `i`. */
  lemma NeighborTrue(boxes: seq<JunctionBox>, tree: Tree, i: nat, nb: Neighbor)
    requires i < |boxes| && Items(tree) == multiset(Indexed(boxes))
    requires nb in Candidates(tree, boxes[i], i)
    ensures 0 <= nb.index < |boxes| && nb.index != i && nb.distSq == DistSq(boxes[i], boxes[nb.index])
  {
    CandidateIsItem(tree, boxes[i], i, nb);
    var ip :| ip in Items(tree) && ip.index != i && nb == Neighbor(ip.index, DistSq(boxes[i], ip.point));
    ItemOfIndexed(boxes, ip);
  }

  /** A neighbour list of box `i` offers true pairs. */
  lemma NeighborsTrue(boxes: seq<JunctionBox>, k: nat, i: nat, nbs: seq<Neighbor>)
    requires i < |boxes| && NearestOf(boxes, k, i, nbs)
    ensures forall t :: 0 <= t < |nbs| ==> TrueSighting(boxes, SightingsOf(i, nbs)[t])
  {
    var tree := Build(Indexed(boxes), 0);
    forall t | 0 <= t < |nbs| ensures TrueSighting(boxes, SightingsOf(i, nbs)[t]) {
      var nb := nbs[t];
      assert nb in multiset(nbs);
      NeighborTrue(boxes, tree, i, nb);
      NormalizeSymmetric(i, nb.index);
      DistSqSymmetric(boxes[i], boxes[nb.index]);
    }
  }

  /** The neighbour lists of the first boxes, each a nearest choice, offering true
      pairs. */
  ghost predicate Queried(boxes: seq<JunctionBox>, k: nat, lists: seq<seq<Neighbor>>)
  {
    |lists| <= |boxes| &&
    (forall i :: 0 <= i < |lists| ==> NearestOf(boxes, k, i, lists[i])) &&
    (forall t :: 0 <= t < |AllSightings(lists)| ==> TrueSighting(boxes, AllSightings(lists)[t]))
  }

  /** One more query keeps the lists a nearest choice offering true pairs. */
  lemma QueryStep(boxes: seq<JunctionBox>, k: nat, lists: seq<seq<Neighbor>>, nbs: seq<Neighbor>)
    requires Queried(boxes, k, lists) && |lists| < |boxes| && NearestOf(boxes, k, |lists|, nbs)
    ensures Queried(boxes, k, lists + [nbs])
    ensures AllSightings(lists + [nbs]) == AllSightings(lists) + SightingsOf(|lists|, nbs)
  {
    AllSightingsStep(lists, nbs);
    NeighborsTrue(boxes, k, |lists|, nbs);
    var s, s' := AllSightings(lists), SightingsOf(|lists|, nbs);
    forall t | 0 <= t < |s + s'| ensures TrueSighting(boxes, (s + s')[t]) {
      if t < |s| {
        assert (s + s')[t] == s[t];
      } else {
        assert (s + s')[t] == s'[t - |s|];
      }
    }
    forall i | 0 <= i < |lists| + 1 ensures NearestOf(boxes, k, i, (lists + [nbs])[i]) {
      if i < |lists| {
        assert (lists + [nbs])[i] == lists[i];
      }
    }
  }

  /** The offers of the first lists, then those of one more. */
  lemma AllSightingsStep(lists: seq<seq<Neighbor>>, nbs: seq<Neighbor>)
    ensures AllSightings(lists + [nbs]) == AllSightings(lists) + SightingsOf(|lists|, nbs)
  {
    assert (lists + [nbs])[..|lists|] == lists;
  }

  /** One more offer updates the edge set once. */
  lemma NearestStep(s: seq<Sighting>, x: Sighting)
    ensures Nearest(s + [x]) == Keep(Nearest(s), x)
  {
    assert (s + [x])[..|s|] == s;
  }

  /** `collectCandidateEdges`: one k-nearest query per box, excluding the box itself;
      each neighbour found offers its pair to the edge set; the set's pairs, sorted by
      distance. Go's map order and `sort.Slice` leave the order among equal distances
      open; so does the model. */
  method CollectCandidateEdges(boxes: seq<JunctionBox>, tree: Tree, k: nat)
    returns (edges: seq<Edge>, ghost lists: seq<seq<Neighbor>>)
    requires tree == Build(Indexed(boxes), 0) && Close(boxes)
    ensures CandidateList(boxes, k, lists, edges)
    ensures forall e :: e in edges ==> 0 <= e.i < e.j < |boxes| && e.distSq == DistSq(boxes[e.i], boxes[e.j])
    ensures forall e :: e in edges ==> multiset(edges)[e] == 1
    ensures SortedByDist(edges)
  {
    var buf := new KnnBuffer(k);
    var edgeSet: map<(int, int), int> := map[];
    lists := [];
    var i := 0;
    while i < |boxes|
      invariant 0 <= i <= |boxes| && |lists| == i
      invariant buf.Valid() && buf.k == k && fresh(buf) && fresh(buf.neighbors)
      invariant edgeSet == Nearest(AllSightings(lists))
      invariant Queried(boxes, k, lists)
    {
      edgeSet, lists := QueryBox(boxes, tree, k, buf, i, edgeSet, lists);
      i := i + 1;
    }
    var unsorted := EdgeList(edgeSet);
    edges := SortByDist(unsorted);
    SortedCandidates(boxes, k, lists, unsorted, edges);
  }

  /** One round of the outer loop of `collectCandidateEdges`: the next box's nearest
      neighbours, other than itself, offer their pairs to the edge set. */
  method QueryBox(boxes: seq<JunctionBox>, tree: Tree, k: nat, buf: KnnBuffer, i: nat,
                  edgeSet: map<(int, int), int>, ghost lists: seq<seq<Neighbor>>)
    returns (edgeSet': map<(int, int), int>, ghost lists': seq<seq<Neighbor>>)
    requires tree == Build(Indexed(boxes), 0) && Close(boxes)
    requires buf.Valid() && buf.k == k
    requires Queried(boxes, k, lists) && i == |lists| < |boxes| && edgeSet == Nearest(AllSightings(lists))
    modifies buf, buf.neighbors
    ensures buf.Valid() && buf.k == k && buf.neighbors == old(buf.neighbors)
    ensures Queried(boxes, k, lists') && |lists'| == |lists| + 1
    ensures edgeSet' == Nearest(AllSightings(lists'))
  {
    TreeNear(boxes, i);
    var neighbors := KNearestInto(tree, boxes[i], i, buf);
    assert NearestOf(boxes, k, i, neighbors);
    edgeSet' := OfferAll(edgeSet, i, neighbors, AllSightings(lists));
    QueryStep(boxes, k, lists, neighbors);
    lists' := lists + [neighbors];
  }

  /** The sorted edges of the edge set the neighbour lists build are their candidate
      list. */
  lemma SortedCandidates(boxes: seq<JunctionBox>, k: nat, lists: seq<seq<Neighbor>>,
                         unsorted: seq<Edge>, edges: seq<Edge>)
    requires |lists| == |boxes| && Queried(boxes, k, lists)
    requires forall e :: e in unsorted <==>
      (e.i, e.j) in Nearest(AllSightings(lists)) && e.distSq == Nearest(AllSightings(lists))[(e.i, e.j)]
    requires forall e :: e in unsorted ==> multiset(unsorted)[e] == 1
    requires edges == SortByDist(unsorted)
    ensures CandidateList(boxes, k, lists, edges)
  {
    var seen := AllSightings(lists);
    forall e | e in unsorted ensures 0 <= e.i < e.j < |boxes| && e.distSq == DistSq(boxes[e.i], boxes[e.j]) {
      var t := NearestAttained(seen, (e.i, e.j));
    }
    forall e ensures e in edges <==> e in unsorted {
      assert e in edges <==> e in multiset(edges);
    }
  }

  /** The inner loop of `collectCandidateEdges`: the neighbours of box `i` offer their
      pairs in order. */
  method OfferAll(edgeSet: map<(int, int), int>, i: int, neighbors: seq<Neighbor>, ghost seen: seq<Sighting>)
    returns (edgeSet': map<(int, int), int>)
    requires edgeSet == Nearest(seen)
    ensures edgeSet' == Nearest(seen + SightingsOf(i, neighbors))
  {
    edgeSet' := edgeSet;
    var t := 0;
    assert seen + SightingsOf(i, neighbors[..0]) == seen;
    while t < |neighbors|
      invariant 0 <= t <= |neighbors|
      invariant edgeSet' == Nearest(seen + SightingsOf(i, neighbors[..t]))
    {
      var nb := neighbors[t];
      var key := NormalizeEdgeKey(i, nb.index);
      OfferNext(seen, i, neighbors, t);
      if key !in edgeSet' || nb.distSq < edgeSet'[key] {
        edgeSet' := edgeSet'[key := nb.distSq];
      }
      t := t + 1;
    }
    assert neighbors[..t] == neighbors;
  }

  lemma OfferNext(seen: seq<Sighting>, i: int, nbs: seq<Neighbor>, t: nat)
    requires t < |nbs|
    ensures Nearest(seen + SightingsOf(i, nbs[..t + 1])) ==
      Keep(Nearest(seen + SightingsOf(i, nbs[..t])), Sighting(NormalizeEdgeKey(i, nbs[t].index), nbs[t].distSq))
  {
    var x := Sighting(NormalizeEdgeKey(i, nbs[t].index), nbs[t].distSq);
    assert SightingsOf(i, nbs[..t + 1]) == SightingsOf(i, nbs[..t]) + [x];
    assert seen + SightingsOf(i, nbs[..t + 1]) == (seen + SightingsOf(i, nbs[..t])) + [x];
    NearestStep(seen + SightingsOf(i, nbs[..t]), x);
  }

  /** The collecting loop of `collectCandidateEdges`: one edge per key of the edge set,
      in whatever order the keys are taken. */
  method EdgeList(edgeSet: map<(int, int), int>) returns (edges: seq<Edge>)
    ensures forall e :: e in edges <==> (e.i, e.j) in edgeSet && e.distSq == edgeSet[(e.i, e.j)]
    ensures forall e :: e in edges ==> multiset(edges)[e] == 1
  {
    edges := [];
    var keys := edgeSet.Keys;
    while keys != {}
      invariant keys <= edgeSet.Keys
      invariant forall e :: e in edges <==>
        (e.i, e.j) in edgeSet.Keys - keys && e.distSq == edgeSet[(e.i, e.j)]
      invariant forall e :: e in edges ==> multiset(edges)[e] == 1
      decreases |keys|
    {
      var key :| key in keys;
      var e := Edge(key.0, key.1, edgeSet[key]);
      assert e !in edges;
      edges := edges + [e];
      keys := keys - {key};
    }
  }

  /** Every box of a tree has its index among the tree's indices. */
  lemma {:induction false} ItemIndex(t: Tree, ip: IndexedPoint)
    requires ip in Items(t)
    ensures ip.index in Indices(t)
  {
    match t
    case Nil =>
    case Node(p, i, l, r) =>
      if ip in Items(l) {
        ItemIndex(l, ip);
      } else if ip in Items(r) {
        ItemIndex(r, ip);
      }
  }

  /** Every box of a tree other than the excluded index is a candidate. */
  lemma {:induction false} ItemIsCandidate(t: Tree, q: JunctionBox, exclude: int, ip: IndexedPoint)
    requires ip in Items(t) && ip.index != exclude
    ensures Neighbor(ip.index, DistSq(q, ip.point)) in Candidates(t, q, exclude)
  {
    match t
    case Nil =>
    case Node(p, i, l, r) =>
      if ip in Items(l) {
        ItemIsCandidate(l, q, exclude, ip);
      } else if ip in Items(r) {
        ItemIsCandidate(r, q, exclude, ip);
      }
  }

  /** With room for every other box, the list found from box `i` holds them all. */
  lemma FullList(boxes: seq<JunctionBox>, i: nat, nbs: seq<Neighbor>, j: nat)
    requires i < |boxes| && NearestOf(boxes, |boxes| - 1, i, nbs)
    requires j < |boxes| && j != i
    ensures Neighbor(j, DistSq(boxes[i], boxes[j])) in nbs
  {
    var tree := Build(Indexed(boxes), 0);
    var u := Candidates(tree, boxes[i], i);
    var points := Indexed(boxes);
    assert points[i] in multiset(points) && points[j] in multiset(points);
    ItemIndex(tree, points[i]);
    assert i in multiset(Indices(tree));
    CandidatesSize(tree, boxes[i], i);
    SubMultisetEqual(multiset(nbs), u);
    ItemIsCandidate(tree, boxes[i], i, points[j]);
    assert Neighbor(j, DistSq(boxes[i], boxes[j])) in multiset(nbs);
  }

  /** The offers of one neighbour list are among all the offers. */
  lemma {:induction false} SightingIn(lists: seq<seq<Neighbor>>, i: nat, t: nat) returns (u: nat)
    requires i < |lists| && t < |lists[i]|
    ensures u < |AllSightings(lists)|
    ensures AllSightings(lists)[u] == Sighting(NormalizeEdgeKey(i, lists[i][t].index), lists[i][t].distSq)
  {
    var init := lists[..|lists| - 1];
    if i == |lists| - 1 {
      u := |AllSightings(init)| + t;
    } else {
      u := SightingIn(init, i, t);
      assert init[i] == lists[i];
    }
  }

  /** For at most 51 boxes every query has room for all other boxes, so the candidate
      edges are exactly the pairs `i < j` of `buildEdges`, each once at its distance. */
  lemma CandidatesComplete(boxes: seq<JunctionBox>, lists: seq<seq<Neighbor>>, edges: seq<Edge>)
    requires 0 < |boxes| <= 51 && CandidateList(boxes, Min(50, |boxes| - 1), lists, edges)
    ensures forall e :: e in edges <==> 0 <= e.i < e.j < |boxes| && e == PairEdge(boxes, e.i, e.j)
  {
    forall e: Edge | 0 <= e.i < e.j < |boxes| && e == PairEdge(boxes, e.i, e.j) ensures e in edges {
      PairFound(boxes, lists, edges, e.i, e.j);
    }
  }

  /** For at most 51 boxes each pair `i < j` is a candidate edge. */
  lemma PairFound(boxes: seq<JunctionBox>, lists: seq<seq<Neighbor>>, edges: seq<Edge>, i: nat, j: nat)
    requires 0 < |boxes| <= 51 && CandidateList(boxes, Min(50, |boxes| - 1), lists, edges)
    requires i < j < |boxes|
    ensures PairEdge(boxes, i, j) in edges
  {
    assert Min(50, |boxes| - 1) == |boxes| - 1;
    FullList(boxes, i, lists[i], j);
    var nb := Neighbor(j, DistSq(boxes[i], boxes[j]));
    var t :| 0 <= t < |lists[i]| && lists[i][t] == nb;
    var u := SightingIn(lists, i, t);
    FoundIsCandidate(boxes, Min(50, |boxes| - 1), lists, edges, u);
    var found := Edge(i, j, Nearest(AllSightings(lists))[(i, j)]);
    assert found in edges;
    assert found.distSq == DistSq(boxes[i], boxes[j]);
  }
}
