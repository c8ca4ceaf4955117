// Day 8: junction boxes joined closest pair first into circuits, with a union-find over
// box indices; the brute-force solution and the k-d tree one.
module Day08 {
  import opened Points
  import opened Forest
  import opened Edges
  import opened Components
  import opened Knn
  import opened KdTree
  import opened CandidateEdges
  import opened GoText

  /** The union-find's root for `i` wins a link when its rank is not smaller. */
  function Winner(parent: seq<nat>, rank: seq<nat>, i: nat, j: nat): nat
    requires IsForest(parent, rank) && i < |parent| && j < |parent|
  {
    var ri, rj := Root(parent, rank, i), Root(parent, rank, j);
    if rank[ri] < rank[rj] then rj else ri
  }

  function Loser(parent: seq<nat>, rank: seq<nat>, i: nat, j: nat): nat
    requires IsForest(parent, rank) && i < |parent| && j < |parent|
  {
    var ri, rj := Root(parent, rank, i), Root(parent, rank, j);
    if rank[ri] < rank[rj] then ri else rj
  }

  /** `sizes` maps each root reached by an index below `i` to how many reach it. */
  ghost predicate Counted(parent: seq<nat>, rank: seq<nat>, sizes: map<nat, nat>, i: nat)
    requires IsForest(parent, rank) && i <= |parent|
  {
    (forall r :: r in sizes <==> 0 <= r < |parent| && parent[r] == r && Count(parent, rank, r, i) > 0) &&
    (forall r :: r in sizes ==> sizes[r] == Count(parent, rank, r, i))
  }

  /** The collecting loop of `topCircuitProduct`: the counts of the map, one per root,
      in root order. */
  method SizesInRootOrder(sizes: map<nat, nat>, n: nat, ghost parent: seq<nat>, ghost rank: seq<nat>)
    returns (sizeList: seq<nat>)
    requires IsForest(parent, rank) && n == |parent|
    requires forall r :: r in sizes <==> 0 <= r < n && parent[r] == r && Count(parent, rank, r, n) > 0
    requires forall r :: r in sizes ==> sizes[r] == Count(parent, rank, r, n)
    ensures sizeList == CircuitSizes(parent, rank)
  {
    sizeList := [];
    var r := 0;
    while r < n
      invariant 0 <= r <= n
      invariant sizeList == SizesBelow(parent, rank, r, n)
    {
      if parent[r] == r {
        CountOwn(parent, rank, r, n);
      }
      if r in sizes {
        sizeList := sizeList + [sizes[r]];
      }
      r := r + 1;
    }
  }

  /** The sorting and multiplying of `topCircuitProduct`: the product of the `m`
      largest sizes. */
  method ProductOfLargest(sizeList: seq<nat>, m: int) returns (result: int)
    ensures result == TopProduct(sizeList, m)
  {
    var sorted := SortDescending(sizeList);
    result := 1;
    var t := 0;
    while t < m && t < |sorted|
      invariant 0 <= t <= |sorted| && (t == 0 || t <= m)
      invariant result == Product(sorted[..t])
    {
      assert sorted[..t + 1][..t] == sorted[..t];
      result := result * sorted[t];
      t := t + 1;
    }
    assert sorted[..t] == Take(sorted, m);
  }

  /** `parent` is a forest with the ranks, the roots and every index's root of `p0`. */
  ghost predicate SameForest(parent: seq<nat>, rank: seq<nat>, p0: seq<nat>, r0: seq<nat>)
  {
    IsForest(parent, rank) && IsForest(p0, r0) && |parent| == |p0| && rank == r0 &&
    (forall j :: 0 <= j < |parent| ==> Root(parent, rank, j) == Root(p0, r0, j)) &&
    Roots(parent) == Roots(p0)
  }

  lemma CountedStep(parent: seq<nat>, rank: seq<nat>, sizes: map<nat, nat>, i: nat)
    requires IsForest(parent, rank) && i < |parent| && Counted(parent, rank, sizes, i)
    ensures var root := Root(parent, rank, i);
      Counted(parent, rank, sizes[root := (if root in sizes then sizes[root] else 0) + 1], i + 1)
  {
  }

  /** The brute-force edges join boxes of the input, in whatever order they were sorted. */
  lemma EdgesValid(boxes: seq<JunctionBox>, edges: seq<Edge>)
    requires multiset(edges) == multiset(AllPairs(boxes))
    ensures EdgesWithin(edges, |boxes|)
    ensures |edges| > 0 ==> |boxes| >= 2
  {
    BuildEdgesExact(boxes, edges);
    forall m | 0 <= m < |edges| ensures 0 <= edges[m].i < |boxes| && 0 <= edges[m].j < |boxes| {
      assert edges[m] in edges;
    }
  }

  /** The candidate edges join boxes of the input. */
  lemma CandidatesValid(boxes: seq<JunctionBox>, k: nat, lists: seq<seq<Neighbor>>, edges: seq<Edge>)
    requires CandidateList(boxes, k, lists, edges)
    ensures EdgesWithin(edges, |boxes|)
  {
    forall m | 0 <= m < |edges| ensures 0 <= edges[m].i < |boxes| && 0 <= edges[m].j < |boxes| {
      assert edges[m] in edges;
    }
  }

  /** The first half of `SolveWithKDTree`: the tree of the boxes, and the candidate
      edges from each box's `min(50, n-1)` nearest others. */
  method KnnCandidates(boxes: seq<JunctionBox>) returns (edges: seq<Edge>, ghost lists: seq<seq<Neighbor>>)
    requires Close(boxes) && |boxes| > 0
    ensures CandidateList(boxes, Min(50, |boxes| - 1), lists, edges) && EdgesWithin(edges, |boxes|)
  {
    var tree := NewKDTree(boxes);
    var k := Min(50, |boxes| - 1);
    edges, lists := CollectCandidateEdges(boxes, tree, k);
    CandidatesValid(boxes, k, lists, edges);
  }

  /** The state of the merge loop of `Solve` after `conn` edges: the forest describes
      their components, `circuits` counts its trees, several remained before each of
      those edges, and `lastMerge` is the last of them that joined two. */
  ghost predicate MergeState(parent: seq<nat>, rank: seq<nat>, n: nat, es: seq<Edge>,
                             conn: nat, circuits: nat, lastMerge: Edge)
  {
    EdgesWithin(es, n) && conn <= |es| &&
    SamePartition(parent, rank, LabelsAfter(n, es, conn)) &&
    circuits == |Roots(parent)| && SeparatedBefore(n, es, conn) &&
    lastMerge == LastMerge(n, es, conn)
  }

  /** The part 1 bookkeeping of the merge loop after `conn` edges: once edge
      `numConnections` has been used, `result` is the product of the three largest
      circuits of the forest `p1`, which describes the components at that point;
      before that, `result` is still `before`. */
  ghost predicate Part1State(n: nat, es: seq<Edge>, numConnections: int, conn: nat, computed: bool,
                             p1: seq<nat>, r1: seq<nat>, result: int, before: int)
  {
    (computed <==> 1 <= numConnections <= conn) &&
    (computed ==>
      EdgesWithin(es, n) && numConnections <= |es| &&
      SamePartition(p1, r1, LabelsAfter(n, es, numConnections)) &&
      result == TopProduct(CircuitSizes(p1, r1), 3)) &&
    (!computed ==> result == before)
  }

  /** What `Solve(numConnections)` leaves over boxes: `edges` are all the pairs,
      closest first, with equally distant pairs in any order; the forest describes the
      components of the first `connected` of them, after which one circuit is left or the edges have run out, while several
      were left before each of them. Part 1 is the product of the three largest
      circuits right after edge `numConnections`, if it was reached, and otherwise
      stays `before1`; part 2 multiplies the X coordinates of the last merging edge
      when one circuit is left, and otherwise stays `before2`. */
  ghost predicate Solved(boxes: seq<JunctionBox>, parent: seq<nat>, rank: seq<nat>, numConnections: int,
                         edges: seq<Edge>, connected: nat, part1Parent: seq<nat>, part1Rank: seq<nat>,
                         result1: int, result2: int, before1: int, before2: int)
  {
    SortedByDist(edges) && multiset(edges) == multiset(AllPairs(boxes)) && EdgesWithin(edges, |boxes|) &&
    connected <= |edges| &&
    SamePartition(parent, rank, LabelsAfter(|boxes|, edges, connected)) &&
    (connected < |edges| ==> NumClasses(LabelsAfter(|boxes|, edges, connected)) == 1) &&
    (forall c :: 0 <= c < connected ==> NumClasses(LabelsAfter(|boxes|, edges, c)) > 1) &&
    (if 1 <= numConnections <= connected then
       SamePartition(part1Parent, part1Rank, LabelsAfter(|boxes|, edges, numConnections)) &&
       result1 == TopProduct(CircuitSizes(part1Parent, part1Rank), 3)
     else result1 == before1) &&
    (if NumClasses(LabelsAfter(|boxes|, edges, connected)) == 1 then
       var e := LastMerge(|boxes|, edges, connected);
       result2 == boxes[e.i].x * boxes[e.j].x
     else result2 == before2)
  }

  // ------------------------------------------------------------ input lines

  /** One input line as `Parse` reads it: three comma-separated integers. An empty
      line, a line without exactly three parts, or a part that is not an integer
      gives nothing. */
  function ReadBox(line: string): Option<JunctionBox>
  {
    if line == "" then None
    else
      var parts := Split(line, ',');
      if |parts| != 3 then None
      else
        var x, y, z := Atoi(parts[0]), Atoi(parts[1]), Atoi(parts[2]);
        if x.None? || y.None? || z.None? then None
        else Some(JunctionBox(x.value, y.value, z.value))
  }

  /** How a junction box is written in the input. */
  function FormatBox(b: JunctionBox): string
  {
    Itoa(b.x) + "," + Itoa(b.y) + "," + Itoa(b.z)
  }

  /** Reading a written box gives the box back. */
  lemma ReadBoxOfFormat(b: JunctionBox)
    ensures ReadBox(FormatBox(b)) == Some(b)
  {
    var sx, sy, sz := Itoa(b.x), Itoa(b.y), Itoa(b.z);
    NoCommaInItoa(b.x);
    NoCommaInItoa(b.y);
    NoCommaInItoa(b.z);
    SplitJoin([sx, sy, sz], ',');
    assert [sy, sz][1..] == [sz];
    assert Join([sy, sz], ',') == sy + [','] + sz;
    assert [sx, sy, sz][1..] == [sy, sz];
    assert Join([sx, sy, sz], ',') == sx + [','] + (sy + [','] + sz);
    assert FormatBox(b) == Join([sx, sy, sz], ',');
    AtoiOfItoa(b.x);
    AtoiOfItoa(b.y);
    AtoiOfItoa(b.z);
  }

  /** A line with fewer than two commas gives nothing. */
  lemma ReadBoxShort(w: string, t: string)
    requires ',' !in w && ',' !in t
    ensures ReadBox(w).None? && ReadBox(w + "," + t).None?
  {
    SplitNoSep(w, ',');
    SplitNoSep(t, ',');
    SplitPrefix(w, ',', t);
    assert w + "," + t == w + [','] + t;
  }

  /** The values of the options that hold one, in order. */
  function Kept(os: seq<Option<JunctionBox>>): (bs: seq<JunctionBox>)
    ensures |bs| <= |os|
  {
    if |os| == 0 then []
    else Kept(os[..|os| - 1]) + (if os[|os| - 1].Some? then [os[|os| - 1].value] else [])
  }

  /** Each line read on its own. */
  function ReadEach(lines: seq<string>): (os: seq<Option<JunctionBox>>)
    ensures |os| == |lines|
  {
    seq(|lines|, k requires 0 <= k < |lines| => ReadBox(lines[k]))
  }

  /** The boxes the lines give, in order. */
  function ReadBoxes(lines: seq<string>): (bs: seq<JunctionBox>)
    ensures |bs| <= |lines|
  {
    Kept(ReadEach(lines))
  }

  lemma ReadBoxesStep(lines: seq<string>, k: nat)
    requires k < |lines|
    ensures ReadBox(lines[k]).None? ==> ReadBoxes(lines[..k + 1]) == ReadBoxes(lines[..k])
    ensures ReadBox(lines[k]).Some? ==>
      ReadBoxes(lines[..k + 1]) == ReadBoxes(lines[..k]) + [ReadBox(lines[k]).value]
  {
    var os := ReadEach(lines[..k + 1]);
    assert os[..k] == ReadEach(lines[..k]);
    assert Kept(ReadEach(lines[..k])) + [] == Kept(ReadEach(lines[..k]));
  }

  /** The boxes written one per line. */
  function FormatBoxes(bs: seq<JunctionBox>): (lines: seq<string>)
    ensures |lines| == |bs|
  {
    seq(|bs|, k requires 0 <= k < |bs| => FormatBox(bs[k]))
  }

  /** Options that each hold a box keep all of them, in order. */
  lemma {:induction false} KeptEach(os: seq<Option<JunctionBox>>, bs: seq<JunctionBox>)
    requires |os| == |bs|
    requires forall k :: 0 <= k < |os| ==> os[k] == Some(bs[k])
    ensures Kept(os) == bs
  {
    if |os| > 0 {
      var n := |os|;
      KeptEach(os[..n - 1], bs[..n - 1]);
      assert bs == bs[..n - 1] + [bs[n - 1]];
    }
  }

  /** Reading the written boxes, one per line, gives them back in order. */
  lemma ReadBoxesOfFormat(bs: seq<JunctionBox>)
    ensures ReadBoxes(FormatBoxes(bs)) == bs
  {
    var os := ReadEach(FormatBoxes(bs));
    forall k | 0 <= k < |bs| ensures os[k] == Some(bs[k]) {
      ReadBoxOfFormat(bs[k]);
    }
    KeptEach(os, bs);
  }

  /** The scanner loop of `Parse`: a box from every line that holds one, in order. */
  method ReadLines(lines: seq<string>) returns (bs: seq<JunctionBox>)
    ensures bs == ReadBoxes(lines)
  {
    bs := [];
    for k := 0 to |lines|
      invariant bs == ReadBoxes(lines[..k])
    {
      var line := lines[k];
      ReadBoxesStep(lines, k);
      if line == "" {
        continue;
      }
      var parts := Split(line, ',');
      if |parts| != 3 {
        continue;
      }
      var x, y, z := Atoi(parts[0]), Atoi(parts[1]), Atoi(parts[2]);
      if x.None? || y.None? || z.None? {
        continue;
      }
      bs := bs + [JunctionBox(x.value, y.value, z.value)];
    }
    assert lines[..|lines|] == lines;
  }

  class Playground {
    var boxes: seq<JunctionBox>
    var parent: seq<nat>
    var rank: seq<nat>
    var ResultPart1: int
    var ResultPart2: int

    /** `NewPlayground`: no boxes, no forest, both results 0. */
    constructor ()
      ensures boxes == [] && parent == [] && rank == [] && ResultPart1 == 0 && ResultPart2 == 0
    {
      boxes := [];
      parent := [];
      rank := [];
      ResultPart1 := 0;
      ResultPart2 := 0;
    }

    /** `initUnionFind`: `n` singletons. */
    method InitUnionFind(n: nat)
      modifies this
      ensures parent == Identity(n) && rank == Zeros(n)
      ensures boxes == old(boxes) && ResultPart1 == old(ResultPart1) && ResultPart2 == old(ResultPart2)
    {
      parent := Zeros(n);
      rank := Zeros(n);
      var i := 0;
      while i < n
        invariant 0 <= i <= n && |parent| == n && rank == Zeros(n)
        invariant forall j :: 0 <= j < i ==> parent[j] == j
        invariant boxes == old(boxes) && ResultPart1 == old(ResultPart1) && ResultPart2 == old(ResultPart2)
      {
        parent := parent[i := i];
        i := i + 1;
      }
    }

    /** `find`: the root of `i`, with `i` left pointing straight at it. Every index keeps
        its root, so the partition is unchanged. */
    method Find(i: nat) returns (r: nat)
      requires IsForest(parent, rank) && i < |parent|
      modifies this
      ensures IsForest(parent, rank) && |parent| == |old(parent)| && rank == old(rank)
      ensures r == Root(old(parent), old(rank), i) && parent[r] == r && parent[i] == r
      ensures forall j :: 0 <= j < |parent| ==> Root(parent, rank, j) == Root(old(parent), old(rank), j)
      ensures Roots(parent) == Roots(old(parent))
      ensures boxes == old(boxes) && ResultPart1 == old(ResultPart1) && ResultPart2 == old(ResultPart2)
      decreases MaxRank(rank) - rank[i]
    {
      if parent[i] != i {
        var root := Find(parent[i]);
        ghost var p := parent;
        CompressForest(p, rank, i);
        forall j | 0 <= j < |p| ensures Root(Compress(p, rank, i), rank, j) == Root(p, rank, j) {
          CompressRoot(p, rank, i, j);
        }
        parent := parent[i := root];
        assert parent == Compress(p, rank, i);
      }
      r := parent[i];
    }

    /** `union`: false when `i` and `j` already share a root; otherwise the root of lower
        rank is linked under the other, whose rank grows only on a tie, and exactly
        those two sets merge. */
    method Union(i: nat, j: nat) returns (merged: bool)
      requires IsForest(parent, rank) && i < |parent| && j < |parent|
      modifies this
      ensures IsForest(parent, rank) && |parent| == |old(parent)|
      ensures boxes == old(boxes) && ResultPart1 == old(ResultPart1) && ResultPart2 == old(ResultPart2)
      ensures merged <==> Root(old(parent), old(rank), i) != Root(old(parent), old(rank), j)
      ensures !merged ==> rank == old(rank) && Roots(parent) == Roots(old(parent))
      ensures !merged ==> forall x :: 0 <= x < |parent| ==>
        Root(parent, rank, x) == Root(old(parent), old(rank), x)
      ensures merged ==>
        var w, l := Winner(old(parent), old(rank), i, j), Loser(old(parent), old(rank), i, j);
        parent[l] == w && rank == LinkRank(old(rank), w, l) &&
        Roots(parent) == Roots(old(parent)) - {l} && |Roots(parent)| == |Roots(old(parent))| - 1 &&
        forall x :: 0 <= x < |parent| ==>
          Root(parent, rank, x) == if Root(old(parent), old(rank), x) == l then w else Root(old(parent), old(rank), x)
    {
      var ri := Find(i);
      var rj := Find(j);
      if ri == rj {
        return false;
      }
      var w, l := if rank[ri] < rank[rj] then rj else ri, if rank[ri] < rank[rj] then ri else rj;
      LinkAll(parent, rank, w, l);
      Link(ri, rj);
      return true;
    }

    /** The linking half of `union`, on two distinct roots: the lower-ranked root goes
        under the other, whose rank grows on a tie. */
    method Link(ri: nat, rj: nat)
      requires IsForest(parent, rank) && ri < |parent| && rj < |parent|
      requires ri != rj && parent[ri] == ri && parent[rj] == rj
      modifies this
      ensures boxes == old(boxes) && ResultPart1 == old(ResultPart1) && ResultPart2 == old(ResultPart2)
      ensures
        var w, l := if old(rank)[ri] < old(rank)[rj] then rj else ri, if old(rank)[ri] < old(rank)[rj] then ri else rj;
        parent == old(parent)[l := w] && rank == LinkRank(old(rank), w, l)
    {
      var w, l := ri, rj;
      if rank[ri] < rank[rj] {
        w, l := rj, ri;
      }
      parent := parent[l := w];
      if rank[w] == rank[l] {
        rank := rank[w := rank[w] + 1];
      }
    }

    /** `Solve`: joins the boxes closest pair first. `ResultPart1` is written once, as
        the product of the three largest circuits right after the `numConnections`-th
        edge, and only if that edge is reached; the loop stops as soon as one circuit
        remains, and only then is `ResultPart2` written, from the last edge that merged.
        Nothing changes when there are no boxes. */
    method Solve(numConnections: int)
      returns (ghost edges: seq<Edge>, ghost connected: nat,
               ghost part1Parent: seq<nat>, ghost part1Rank: seq<nat>)
      modifies this
      ensures boxes == old(boxes)
      ensures |boxes| == 0 ==>
        parent == old(parent) && rank == old(rank) &&
        ResultPart1 == old(ResultPart1) && ResultPart2 == old(ResultPart2)
      ensures |boxes| > 0 ==>
        Solved(boxes, parent, rank, numConnections, edges, connected, part1Parent, part1Rank,
               ResultPart1, ResultPart2, old(ResultPart1), old(ResultPart2))
    {
      var n := |boxes|;
      edges, connected, part1Parent, part1Rank := [], 0, [], [];
      if n == 0 {
        return;
      }
      InitUnionFind(n);
      var es := BuildEdges(boxes);
      edges := es;
      EdgesValid(boxes, es);
      InitPartition(n);
      connected, part1Parent, part1Rank := MergeAll(es, numConnections);
    }

    /** `Parse`: a box from every line that holds one, appended in order, then `solve`,
        which is `Solve(1000)`. */
    method Parse(lines: seq<string>)
      returns (ghost edges: seq<Edge>, ghost connected: nat,
               ghost part1Parent: seq<nat>, ghost part1Rank: seq<nat>)
      modifies this
      ensures boxes == old(boxes) + ReadBoxes(lines)
      ensures |boxes| == 0 ==>
        parent == old(parent) && rank == old(rank) &&
        ResultPart1 == old(ResultPart1) && ResultPart2 == old(ResultPart2)
      ensures |boxes| > 0 ==>
        Solved(boxes, parent, rank, 1000, edges, connected, part1Parent, part1Rank,
               ResultPart1, ResultPart2, old(ResultPart1), old(ResultPart2))
    {
      var bs := ReadLines(lines);
      boxes := boxes + bs;
      edges, connected, part1Parent, part1Rank := Solve(1000);
    }

    /** `SolveWithKDTree`: the candidate edges from each box's `min(50, n-1)` nearest
        others, joined closest first until `numConnections` have been used or none are
        left; `ResultPart1` is then the product of the three largest circuits.
        `ResultPart2` is not touched, and nothing changes when there are no boxes. */
    method SolveWithKDTree(numConnections: int)
      returns (ghost edges: seq<Edge>, ghost lists: seq<seq<Neighbor>>, ghost connected: nat,
               ghost part1Parent: seq<nat>, ghost part1Rank: seq<nat>)
      requires Close(boxes)
      modifies this
      ensures boxes == old(boxes) && ResultPart2 == old(ResultPart2)
      ensures |boxes| == 0 ==>
        parent == old(parent) && rank == old(rank) && ResultPart1 == old(ResultPart1)
      ensures |boxes| > 0 ==>
        CandidateList(boxes, Min(50, |boxes| - 1), lists, edges) && EdgesWithin(edges, |boxes|) &&
        connected == (if numConnections <= 0 then 0 else Min(numConnections, |edges|)) &&
        SamePartition(parent, rank, LabelsAfter(|boxes|, edges, connected)) &&
        SamePartition(part1Parent, part1Rank, LabelsAfter(|boxes|, edges, connected)) &&
        ResultPart1 == TopProduct(CircuitSizes(part1Parent, part1Rank), 3)
    {
      var bs, n := boxes, |boxes|;
      edges, lists, connected, part1Parent, part1Rank := [], [], 0, [], [];
      if n == 0 {
        return;
      }
      var es;
      es, lists := KnnCandidates(bs);
      edges := es;
      InitUnionFind(n);
      InitPartition(n);
      var conn := JoinFirst(es, numConnections);
      connected := conn;
      part1Parent, part1Rank := RecordPart1(LabelsAfter(n, es, conn));
    }

    /** The loop of `SolveWithKDTree`: `union` on the ends of each edge in order, until
        `numConnections` edges have been used or none are left. */
    method JoinFirst(es: seq<Edge>, numConnections: int) returns (connected: nat)
      requires EdgesWithin(es, |boxes|)
      requires SamePartition(parent, rank, LabelsAfter(|boxes|, es, 0))
      modifies this
      ensures boxes == old(boxes) && ResultPart1 == old(ResultPart1) && ResultPart2 == old(ResultPart2)
      ensures connected <= |es| && connected == (if numConnections <= 0 then 0 else Min(numConnections, |es|))
      ensures SamePartition(parent, rank, LabelsAfter(|boxes|, es, connected))
    {
      connected := 0;
      while connected < |es| && connected < numConnections
        invariant boxes == old(boxes) && ResultPart1 == old(ResultPart1) && ResultPart2 == old(ResultPart2)
        invariant connected <= |es| && (numConnections <= 0 ==> connected == 0)
        invariant 0 < numConnections ==> connected <= numConnections
        invariant SamePartition(parent, rank, LabelsAfter(|boxes|, es, connected))
      {
        var _ := JoinEdge(es[connected], LabelsAfter(|boxes|, es, connected));
        connected := connected + 1;
      }
    }

    /** The merge loop of `Solve` and its part 2 answer, over any edge list within the
        boxes, from the fresh forest. */
    method MergeAll(es: seq<Edge>, numConnections: int)
      returns (connected: nat, ghost part1Parent: seq<nat>, ghost part1Rank: seq<nat>)
      requires |boxes| > 0 && EdgesWithin(es, |boxes|)
      requires SamePartition(parent, rank, LabelsAfter(|boxes|, es, 0)) && |Roots(parent)| == |boxes|
      modifies this
      ensures boxes == old(boxes)
      ensures connected <= |es| &&
        SamePartition(parent, rank, LabelsAfter(|boxes|, es, connected)) &&
        (connected < |es| ==> NumClasses(LabelsAfter(|boxes|, es, connected)) == 1) &&
        (forall c :: 0 <= c < connected ==> NumClasses(LabelsAfter(|boxes|, es, c)) > 1)
      ensures if 1 <= numConnections <= connected then
          SamePartition(part1Parent, part1Rank, LabelsAfter(|boxes|, es, numConnections)) &&
          ResultPart1 == TopProduct(CircuitSizes(part1Parent, part1Rank), 3)
        else ResultPart1 == old(ResultPart1)
      ensures if NumClasses(LabelsAfter(|boxes|, es, connected)) == 1 then
          var e := LastMerge(|boxes|, es, connected);
          ResultPart2 == boxes[e.i].x * boxes[e.j].x
        else ResultPart2 == old(ResultPart2)
    {
      var n := |boxes|;
      var circuits, lastMerge;
      connected, circuits, lastMerge, part1Parent, part1Rank := MergeEdges(es, numConnections);
      MergeLoopEnd(parent, rank, n, es, connected);
      if circuits == 1 {
        ResultPart2 := boxes[lastMerge.i].x * boxes[lastMerge.j].x;
      }
    }

    /** The loop of `Solve`: joins the edges in order until one circuit is left, and
        records part 1 after `numConnections` edges. */
    method MergeEdges(es: seq<Edge>, numConnections: int)
      returns (conn: nat, circuits: nat, lastMerge: Edge, ghost p1: seq<nat>, ghost r1: seq<nat>)
      requires |boxes| > 0 && EdgesWithin(es, |boxes|)
      requires SamePartition(parent, rank, LabelsAfter(|boxes|, es, 0)) && |Roots(parent)| == |boxes|
      modifies this
      ensures boxes == old(boxes) && ResultPart2 == old(ResultPart2)
      ensures MergeState(parent, rank, |boxes|, es, conn, circuits, lastMerge)
      ensures conn < |es| ==> circuits <= 1
      ensures Part1State(|boxes|, es, numConnections, conn, 1 <= numConnections <= conn,
                         p1, r1, ResultPart1, old(ResultPart1))
    {
      p1, r1 := [], [];
      conn := 0;
      circuits := |boxes|;
      lastMerge := Edge(0, 0, 0);
      var part1Computed := false;
      while conn < |es| && circuits > 1
        invariant boxes == old(boxes) && ResultPart2 == old(ResultPart2)
        invariant MergeState(parent, rank, |boxes|, es, conn, circuits, lastMerge)
        invariant Part1State(|boxes|, es, numConnections, conn, part1Computed, p1, r1, ResultPart1, old(ResultPart1))
      {
        circuits, lastMerge, part1Computed, p1, r1 :=
          MergeTurn(es, numConnections, conn, circuits, lastMerge, part1Computed, p1, r1, old(ResultPart1));
        conn := conn + 1;
      }
    }

    /** One turn of the merge loop: the next edge, then part 1 if it was edge
        `numConnections`. */
    method MergeTurn(es: seq<Edge>, numConnections: int, conn: nat, circuits: nat, lastMerge: Edge,
                     part1Computed: bool, ghost p1: seq<nat>, ghost r1: seq<nat>, ghost before: int)
      returns (circuits': nat, lastMerge': Edge, part1Computed': bool, ghost p1': seq<nat>, ghost r1': seq<nat>)
      requires MergeState(parent, rank, |boxes|, es, conn, circuits, lastMerge)
      requires conn < |es| && circuits > 1
      requires Part1State(|boxes|, es, numConnections, conn, part1Computed, p1, r1, ResultPart1, before)
      modifies this
      ensures boxes == old(boxes) && ResultPart2 == old(ResultPart2)
      ensures MergeState(parent, rank, |boxes|, es, conn + 1, circuits', lastMerge')
      ensures Part1State(|boxes|, es, numConnections, conn + 1, part1Computed', p1', r1', ResultPart1, before)
    {
      circuits', lastMerge' := JoinNext(es, conn, circuits, lastMerge);
      part1Computed', p1', r1' := Part1At(es, conn + 1, numConnections, part1Computed, p1, r1);
    }

    /** One turn of the merge loop: joins edge `conn` while several circuits remain. */
    method JoinNext(es: seq<Edge>, conn: nat, circuits: nat, lastMerge: Edge)
      returns (circuits': nat, lastMerge': Edge)
      requires MergeState(parent, rank, |boxes|, es, conn, circuits, lastMerge)
      requires conn < |es| && circuits > 1
      modifies this
      ensures boxes == old(boxes) && ResultPart1 == old(ResultPart1) && ResultPart2 == old(ResultPart2)
      ensures MergeState(parent, rank, |boxes|, es, conn + 1, circuits', lastMerge')
    {
      StillSeparated(parent, rank, |boxes|, es, conn);
      var e := es[conn];
      var merged := JoinEdge(e, LabelsAfter(|boxes|, es, conn));
      circuits', lastMerge' := circuits, lastMerge;
      if merged {
        circuits', lastMerge' := circuits - 1, e;
      }
    }

    /** The part 1 step of the merge loop: right after edge `numConnections`, and only
        once, the product of the three largest circuits. */
    method Part1At(es: seq<Edge>, conn: nat, numConnections: int, part1Computed: bool,
                   ghost p1: seq<nat>, ghost r1: seq<nat>)
      returns (part1Computed': bool, ghost p1': seq<nat>, ghost r1': seq<nat>)
      requires 1 <= conn <= |es| && EdgesWithin(es, |boxes|)
      requires SamePartition(parent, rank, LabelsAfter(|boxes|, es, conn))
      requires Part1State(|boxes|, es, numConnections, conn - 1, part1Computed, p1, r1, ResultPart1, ResultPart1)
      modifies this
      ensures boxes == old(boxes) && ResultPart2 == old(ResultPart2)
      ensures SamePartition(parent, rank, LabelsAfter(|boxes|, es, conn))
      ensures Roots(parent) == Roots(old(parent))
      ensures Part1State(|boxes|, es, numConnections, conn, part1Computed', p1', r1', ResultPart1, old(ResultPart1))
    {
      part1Computed', p1', r1' := part1Computed, p1, r1;
      if conn == numConnections && !part1Computed {
        p1', r1' := RecordPart1(LabelsAfter(|boxes|, es, conn));
        part1Computed' := true;
      }
    }

    /** The part 1 answer of the merge loop: the three largest circuits of the current
        forest, which describes `lab`. */
    method RecordPart1(ghost lab: seq<nat>) returns (ghost p1: seq<nat>, ghost r1: seq<nat>)
      requires SamePartition(parent, rank, lab) && |parent| == |boxes|
      modifies this
      ensures SamePartition(parent, rank, lab) && |parent| == |old(parent)|
      ensures Roots(parent) == Roots(old(parent))
      ensures SamePartition(p1, r1, lab) && ResultPart1 == TopProduct(CircuitSizes(p1, r1), 3)
      ensures boxes == old(boxes) && ResultPart2 == old(ResultPart2)
    {
      p1, r1 := parent, rank;
      ResultPart1 := TopCircuitProduct(3);
      SameRoots(p1, r1, parent, rank, lab);
    }

    /** One edge of the merge loop: `union` on its ends, read against the components
        before it. */
    method JoinEdge(e: Edge, ghost lab: seq<nat>) returns (merged: bool)
      requires SamePartition(parent, rank, lab) && 0 <= e.i < |lab| && 0 <= e.j < |lab|
      modifies this
      ensures SamePartition(parent, rank, Relabel(lab, e.i, e.j)) && |parent| == |old(parent)|
      ensures merged <==> lab[e.i] != lab[e.j]
      ensures |Roots(parent)| == |Roots(old(parent))| - (if merged then 1 else 0)
      ensures boxes == old(boxes) && ResultPart1 == old(ResultPart1) && ResultPart2 == old(ResultPart2)
    {
      ghost var p0, r0 := parent, rank;
      merged := Union(e.i, e.j);
      if merged {
        MergePartition(p0, r0, parent, rank, lab, e.i, e.j, Winner(p0, r0, e.i, e.j), Loser(p0, r0, e.i, e.j));
      } else {
        NoMergePartition(p0, r0, lab, e.i, e.j);
        SameRoots(p0, r0, parent, rank, lab);
      }
    }

    /** `topCircuitProduct`: counts each root's set, then multiplies the `m` largest
        counts. The set sizes are collected in root order; Go's map order is
        unspecified, and only their multiset matters (`TopProductPermutation`). */
    method TopCircuitProduct(m: int) returns (result: int)
      requires IsForest(parent, rank) && |parent| == |boxes|
      modifies this
      ensures IsForest(parent, rank) && |parent| == |old(parent)| && rank == old(rank)
      ensures forall j :: 0 <= j < |parent| ==> Root(parent, rank, j) == Root(old(parent), old(rank), j)
      ensures Roots(parent) == Roots(old(parent))
      ensures boxes == old(boxes) && ResultPart1 == old(ResultPart1) && ResultPart2 == old(ResultPart2)
      ensures result == TopProduct(CircuitSizes(old(parent), old(rank)), m)
    {
      ghost var p0, r0 := parent, rank;
      var sizes := CountCircuits();
      var sizeList := SizesInRootOrder(sizes, |boxes|, p0, r0);
      result := ProductOfLargest(sizeList, m);
    }

    /** The counting loop of `topCircuitProduct`: every root that some box reaches,
        mapped to the number of boxes that reach it. */
    method CountCircuits() returns (sizes: map<nat, nat>)
      requires IsForest(parent, rank) && |parent| == |boxes|
      modifies this
      ensures IsForest(parent, rank) && |parent| == |old(parent)| && rank == old(rank)
      ensures forall j :: 0 <= j < |parent| ==> Root(parent, rank, j) == Root(old(parent), old(rank), j)
      ensures Roots(parent) == Roots(old(parent))
      ensures boxes == old(boxes) && ResultPart1 == old(ResultPart1) && ResultPart2 == old(ResultPart2)
      ensures forall r :: r in sizes <==>
        0 <= r < |parent| && old(parent)[r] == r && Count(old(parent), old(rank), r, |parent|) > 0
      ensures forall r :: r in sizes ==> sizes[r] == Count(old(parent), old(rank), r, |parent|)
    {
      ghost var p0, r0 := parent, rank;
      var n := |boxes|;
      sizes := map[];
      var i := 0;
      while i < n
        invariant 0 <= i <= n && |parent| == n
        invariant SameForest(parent, rank, p0, r0)
        invariant boxes == old(boxes) && ResultPart1 == old(ResultPart1) && ResultPart2 == old(ResultPart2)
        invariant Counted(p0, r0, sizes, i)
      {
        sizes := CountOne(i, sizes, p0, r0);
        i := i + 1;
      }
    }

    /** One step of the counting loop: the root of `i` gains one. */
    method CountOne(i: nat, sizes: map<nat, nat>, ghost p0: seq<nat>, ghost r0: seq<nat>)
      returns (sizes': map<nat, nat>)
      requires SameForest(parent, rank, p0, r0) && i < |parent|
      requires Counted(p0, r0, sizes, i)
      modifies this
      ensures SameForest(parent, rank, p0, r0) && |parent| == |old(parent)|
      ensures boxes == old(boxes) && ResultPart1 == old(ResultPart1) && ResultPart2 == old(ResultPart2)
      ensures Counted(p0, r0, sizes', i + 1)
    {
      var root := Find(i);
      CountedStep(p0, r0, sizes, i);
      sizes' := sizes[root := (if root in sizes then sizes[root] else 0) + 1];
    }
  }
}
