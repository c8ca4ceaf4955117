// Reference definitions for the day 8 circuits, independent of the union-find: the
// connected components after the first edges, as a relabelling of box indices, and
// the circuit sizes a union-find forest describes.
module Components {
  import opened Forest
  import opened Edges

  /** Joins the component of `b` into the component of `a`. */
  function Relabel(lab: seq<nat>, a: nat, b: nat): (r: seq<nat>)
    requires a < |lab| && b < |lab|
    ensures |r| == |lab|
    ensures forall x :: 0 <= x < |lab| ==> r[x] == if lab[x] == lab[b] then lab[a] else lab[x]
  {
    seq(|lab|, x requires 0 <= x < |lab| => if lab[x] == lab[b] then lab[a] else lab[x])
  }

  predicate EdgesWithin(edges: seq<Edge>, n: nat)
  {
    forall m :: 0 <= m < |edges| ==> 0 <= edges[m].i < n && 0 <= edges[m].j < n
  }

  /** The component labels after joining the endpoints of the first `c` edges. */
  function LabelsAfter(n: nat, edges: seq<Edge>, c: nat): (lab: seq<nat>)
    requires c <= |edges| && EdgesWithin(edges, n)
    ensures |lab| == n
  {
    if c == 0 then Identity(n)
    else Relabel(LabelsAfter(n, edges, c - 1), edges[c - 1].i, edges[c - 1].j)
  }

  /** The number of distinct components. */
  function NumClasses(lab: seq<nat>): nat
  {
    |set x | 0 <= x < |lab| :: lab[x]|
  }

  /** More than one component remained before each of the first `c` edges. */
  ghost predicate SeparatedBefore(n: nat, edges: seq<Edge>, c: nat)
    requires c <= |edges| && EdgesWithin(edges, n)
  {
    c == 0 || (SeparatedBefore(n, edges, c - 1) && NumClasses(LabelsAfter(n, edges, c - 1)) > 1)
  }

  lemma {:induction false} SeparatedBeforeAll(n: nat, edges: seq<Edge>, c: nat)
    requires c <= |edges| && EdgesWithin(edges, n) && SeparatedBefore(n, edges, c)
    ensures forall d :: 0 <= d < c ==> NumClasses(LabelsAfter(n, edges, d)) > 1
  {
    if c > 0 {
      SeparatedBeforeAll(n, edges, c - 1);
      forall d | 0 <= d < c ensures NumClasses(LabelsAfter(n, edges, d)) > 1 {
        if d < c - 1 {
          assert 0 <= d < c - 1;
        }
      }
    }
  }

  /** A forest of several trees that describes the components after `c` edges
      extends the run of separated prefixes by one. */
  lemma StillSeparated(parent: seq<nat>, rank: seq<nat>, n: nat, edges: seq<Edge>, c: nat)
    requires c < |edges| && EdgesWithin(edges, n)
    requires SamePartition(parent, rank, LabelsAfter(n, edges, c)) && |Roots(parent)| > 1
    requires SeparatedBefore(n, edges, c)
    ensures SeparatedBefore(n, edges, c + 1)
  {
    RootsAreClasses(parent, rank, LabelsAfter(n, edges, c));
  }

  /** The state in which the merge loop stops: every edge used, or one circuit left,
      and several circuits before each edge it used. */
  lemma MergeLoopEnd(parent: seq<nat>, rank: seq<nat>, n: nat, edges: seq<Edge>, c: nat)
    requires n > 0 && c <= |edges| && EdgesWithin(edges, n)
    requires SamePartition(parent, rank, LabelsAfter(n, edges, c)) && SeparatedBefore(n, edges, c)
    requires c < |edges| ==> |Roots(parent)| <= 1
    ensures NumClasses(LabelsAfter(n, edges, c)) == |Roots(parent)|
    ensures c < |edges| ==> NumClasses(LabelsAfter(n, edges, c)) == 1
    ensures forall d :: 0 <= d < c ==> NumClasses(LabelsAfter(n, edges, d)) > 1
  {
    assert Root(parent, rank, 0) in Roots(parent);
    SeparatedBeforeAll(n, edges, c);
    RootsAreClasses(parent, rank, LabelsAfter(n, edges, c));
  }

  /** The last of the first `c` edges whose endpoints were in different components,
      or the zero edge when there is none. */
  function LastMerge(n: nat, edges: seq<Edge>, c: nat): (e: Edge)
    requires c <= |edges| && EdgesWithin(edges, n)
    ensures n > 0 ==> 0 <= e.i < n && 0 <= e.j < n
  {
    if c == 0 then Edge(0, 0, 0)
    else
      var lab := LabelsAfter(n, edges, c - 1);
      if lab[edges[c - 1].i] != lab[edges[c - 1].j] then edges[c - 1] else LastMerge(n, edges, c - 1)
  }

  /** Two indices share a root exactly when they share a label. */
  predicate SamePartition(parent: seq<nat>, rank: seq<nat>, lab: seq<nat>)
  {
    IsForest(parent, rank) && |parent| == |lab| &&
    forall x, y {:trigger Root(parent, rank, x), Root(parent, rank, y)} :: 0 <= x < |lab| && 0 <= y < |lab| ==>
      (Root(parent, rank, x) == Root(parent, rank, y) <==> lab[x] == lab[y])
  }

  /** A fresh forest describes the singleton components. */
  lemma InitPartition(n: nat)
    ensures SamePartition(Identity(n), Zeros(n), LabelsAfter(n, [], 0))
    ensures NumClasses(LabelsAfter(n, [], 0)) == n && |Roots(Identity(n))| == n
  {
    InitForest(n);
    var lab := Identity(n);
    forall v | v in Below(n) ensures v in (set x | 0 <= x < n :: lab[x]) {
      assert lab[v] == v;
    }
    assert (set x | 0 <= x < n :: lab[x]) == Below(n);
  }

  /** A forest whose every root is unchanged describes the same components. */
  lemma SameRoots(parent: seq<nat>, rank: seq<nat>, parent': seq<nat>, rank': seq<nat>, lab: seq<nat>)
    requires SamePartition(parent, rank, lab) && IsForest(parent', rank') && |parent'| == |parent|
    requires forall x :: 0 <= x < |parent| ==> Root(parent', rank', x) == Root(parent, rank, x)
    ensures SamePartition(parent', rank', lab)
  {
  }

  /** An edge inside one component changes no label. */
  lemma NoMergePartition(parent: seq<nat>, rank: seq<nat>, lab: seq<nat>, a: nat, b: nat)
    requires SamePartition(parent, rank, lab) && a < |lab| && b < |lab|
    requires Root(parent, rank, a) == Root(parent, rank, b)
    ensures Relabel(lab, a, b) == lab
  {
  }

  /** Linking the roots of `a` and `b` describes the relabelling that joins their
      components, and nothing else. */
  lemma MergePartition(parent: seq<nat>, rank: seq<nat>, parent': seq<nat>, rank': seq<nat>,
                       lab: seq<nat>, a: nat, b: nat, winner: nat, loser: nat)
    requires SamePartition(parent, rank, lab) && a < |lab| && b < |lab|
    requires IsForest(parent', rank') && |parent'| == |parent|
    requires winner != loser
    requires (winner == Root(parent, rank, a) && loser == Root(parent, rank, b)) ||
             (winner == Root(parent, rank, b) && loser == Root(parent, rank, a))
    requires forall x :: 0 <= x < |parent| ==>
      Root(parent', rank', x) == if Root(parent, rank, x) == loser then winner else Root(parent, rank, x)
    ensures SamePartition(parent', rank', Relabel(lab, a, b))
  {
    var r := Relabel(lab, a, b);
    forall x, y | 0 <= x < |lab| && 0 <= y < |lab|
      ensures Root(parent', rank', x) == Root(parent', rank', y) <==> r[x] == r[y]
    {
      MergeCase(parent, rank, lab, a, b, x, y);
    }
  }

  lemma MergeCase(parent: seq<nat>, rank: seq<nat>, lab: seq<nat>, a: nat, b: nat, x: nat, y: nat)
    requires SamePartition(parent, rank, lab) && a < |lab| && b < |lab| && x < |lab| && y < |lab|
    ensures var ra, rb, rx, ry := Root(parent, rank, a), Root(parent, rank, b),
                                  Root(parent, rank, x), Root(parent, rank, y);
      (rx == ry || ({rx, ry} == {ra, rb})) <==>
      (if lab[x] == lab[b] then lab[a] else lab[x]) == (if lab[y] == lab[b] then lab[a] else lab[y])
  {
    var ra, rb, rx, ry := Root(parent, rank, a), Root(parent, rank, b),
                          Root(parent, rank, x), Root(parent, rank, y);
    assert rx == ry <==> lab[x] == lab[y];
    assert rx == ra <==> lab[x] == lab[a];
    assert rx == rb <==> lab[x] == lab[b];
    assert ry == ra <==> lab[y] == lab[a];
    assert ry == rb <==> lab[y] == lab[b];
    assert ra == rb <==> lab[a] == lab[b];
    if {rx, ry} == {ra, rb} {
      assert (rx == ra && ry == rb) || (rx == rb && ry == ra);
    }
  }

  /** The forest has one root per component. */
  lemma RootsAreClasses(parent: seq<nat>, rank: seq<nat>, lab: seq<nat>)
    requires SamePartition(parent, rank, lab)
    ensures |Roots(parent)| == NumClasses(lab)
  {
    var roots := Roots(parent);
    var classes := set x | 0 <= x < |lab| :: lab[x];
    var image := set r | r in roots :: lab[r];
    forall v | v in classes ensures v in image {
      var x :| 0 <= x < |lab| && lab[x] == v;
      var r := Root(parent, rank, x);
      assert Root(parent, rank, r) == r;
      assert r in roots;
    }
    assert classes == image;
    forall r1, r2 | r1 in roots && r2 in roots && lab[r1] == lab[r2] ensures r1 == r2 {
      assert Root(parent, rank, r1) == r1 && Root(parent, rank, r2) == r2;
    }
    ImageSize(roots, lab);
  }

  /** An injective labelling of a set has as many labels as the set has members. */
  lemma {:induction false} ImageSize(s: set<nat>, lab: seq<nat>)
    requires forall r :: r in s ==> r < |lab|
    requires forall r1, r2 :: r1 in s && r2 in s && lab[r1] == lab[r2] ==> r1 == r2
    ensures |set r | r in s :: lab[r]| == |s|
  {
    if s != {} {
      var r :| r in s;
      ImageSize(s - {r}, lab);
      var rest := set r' | r' in s - {r} :: lab[r'];
      assert (set r' | r' in s :: lab[r']) == rest + {lab[r]};
      assert lab[r] !in rest;
    }
  }

  // ---- circuit sizes of a forest ----

  /** The number of indices below `k` whose root is `r`. */
  function Count(parent: seq<nat>, rank: seq<nat>, r: nat, k: nat): nat
    requires IsForest(parent, rank) && k <= |parent|
  {
    if k == 0 then 0
    else Count(parent, rank, r, k - 1) + (if Root(parent, rank, k - 1) == r then 1 else 0)
  }

  /** The sizes, counted over the indices below `k`, of the sets whose root is below `r`,
      in root order. */
  function SizesBelow(parent: seq<nat>, rank: seq<nat>, r: nat, k: nat): seq<nat>
    requires IsForest(parent, rank) && r <= |parent| && k <= |parent|
  {
    if r == 0 then []
    else
      var own := if parent[r - 1] == r - 1 then [Count(parent, rank, r - 1, k)] else [];
      SizesBelow(parent, rank, r - 1, k) + own
  }

  /** The size of every circuit, one entry per root. */
  function CircuitSizes(parent: seq<nat>, rank: seq<nat>): seq<nat>
    requires IsForest(parent, rank)
  {
    SizesBelow(parent, rank, |parent|, |parent|)
  }

  function Sum(s: seq<nat>): nat
  {
    if |s| == 0 then 0 else Sum(s[..|s| - 1]) + s[|s| - 1]
  }

  lemma {:induction false} SumAppend(s: seq<nat>, t: seq<nat>)
    ensures Sum(s + t) == Sum(s) + Sum(t)
    decreases |t|
  {
    if |t| > 0 {
      assert (s + t)[..|s + t| - 1] == s + t[..|t| - 1];
      SumAppend(s, t[..|t| - 1]);
    } else {
      assert s + t == s;
    }
  }

  /** Counting one more index adds one to the size of its own set only. */
  lemma {:induction false} SizesStep(parent: seq<nat>, rank: seq<nat>, r: nat, k: nat)
    requires IsForest(parent, rank) && r <= |parent| && k < |parent|
    ensures Sum(SizesBelow(parent, rank, r, k + 1)) ==
      Sum(SizesBelow(parent, rank, r, k)) + (if Root(parent, rank, k) < r then 1 else 0)
  {
    if r > 0 {
      SizesStep(parent, rank, r - 1, k);
      var c1, c0 := Count(parent, rank, r - 1, k + 1), Count(parent, rank, r - 1, k);
      assert c1 == c0 + (if Root(parent, rank, k) == r - 1 then 1 else 0);
      var a1, a0 := SizesBelow(parent, rank, r - 1, k + 1), SizesBelow(parent, rank, r - 1, k);
      if parent[r - 1] == r - 1 {
        SumSnoc(a1, c1);
        SumSnoc(a0, c0);
      } else {
        assert Root(parent, rank, k) != r - 1;
        assert a1 + [] == a1 && a0 + [] == a0;
      }
    }
  }

  lemma SumSnoc(s: seq<nat>, v: nat)
    ensures Sum(s + [v]) == Sum(s) + v
  {
    assert (s + [v])[..|s|] == s;
  }

  lemma {:induction false} SizesSum(parent: seq<nat>, rank: seq<nat>, k: nat)
    requires IsForest(parent, rank) && k <= |parent|
    ensures Sum(SizesBelow(parent, rank, |parent|, k)) == k
  {
    if k > 0 {
      SizesSum(parent, rank, k - 1);
      SizesStep(parent, rank, |parent|, k - 1);
      assert Root(parent, rank, k - 1) < |parent|;
    } else {
      SizesEmpty(parent, rank, |parent|);
    }
  }

  lemma {:induction false} SizesEmpty(parent: seq<nat>, rank: seq<nat>, r: nat)
    requires IsForest(parent, rank) && r <= |parent|
    ensures Sum(SizesBelow(parent, rank, r, 0)) == 0
  {
    if r > 0 {
      SizesEmpty(parent, rank, r - 1);
      if parent[r - 1] == r - 1 {
        SumSnoc(SizesBelow(parent, rank, r - 1, 0), 0);
      } else {
        assert SizesBelow(parent, rank, r, 0) == SizesBelow(parent, rank, r - 1, 0);
      }
    }
  }

  lemma {:induction false} CountOwn(parent: seq<nat>, rank: seq<nat>, r: nat, k: nat)
    requires IsForest(parent, rank) && r < k <= |parent| && parent[r] == r
    ensures Count(parent, rank, r, k) >= 1
  {
    if k - 1 != r {
      CountOwn(parent, rank, r, k - 1);
    }
  }

  lemma {:induction false} SizesPositive(parent: seq<nat>, rank: seq<nat>, r: nat)
    requires IsForest(parent, rank) && r <= |parent|
    ensures forall m :: 0 <= m < |SizesBelow(parent, rank, r, |parent|)| ==>
      SizesBelow(parent, rank, r, |parent|)[m] >= 1
    ensures |SizesBelow(parent, rank, r, |parent|)| == |Roots(parent[..r])|
  {
    if r > 0 {
      SizesPositive(parent, rank, r - 1);
      if parent[r - 1] == r - 1 {
        CountOwn(parent, rank, r - 1, |parent|);
      }
      assert Roots(parent[..r]) == Roots(parent[..r - 1]) +
        (if parent[r - 1] == r - 1 then {r - 1} else {});
    } else {
      assert Roots(parent[..0]) == {};
    }
  }

  /** One size per circuit, each at least one, summing to the number of boxes. */
  lemma CircuitSizesSum(parent: seq<nat>, rank: seq<nat>)
    requires IsForest(parent, rank)
    ensures |CircuitSizes(parent, rank)| == |Roots(parent)|
    ensures forall m :: 0 <= m < |CircuitSizes(parent, rank)| ==> CircuitSizes(parent, rank)[m] >= 1
    ensures Sum(CircuitSizes(parent, rank)) == |parent|
  {
    SizesPositive(parent, rank, |parent|);
    SizesSum(parent, rank, |parent|);
    assert parent[..|parent|] == parent;
  }

  // ---- the product of the largest sizes ----

  predicate NonIncreasing(s: seq<nat>)
  {
    forall a, b :: 0 <= a < b < |s| ==> s[a] >= s[b]
  }

  function InsertDescending(s: seq<nat>, v: nat): (r: seq<nat>)
    requires NonIncreasing(s)
    ensures NonIncreasing(r) && multiset(r) == multiset(s) + multiset{v} && |r| == |s| + 1
  {
    if |s| == 0 then [v]
    else if v >= s[0] then [v] + s
    else
      var r := InsertDescending(s[1..], v);
      assert s == [s[0]] + s[1..];
      InsertBelow(s, r, v);
      [s[0]] + r
  }

  lemma InsertBelow(s: seq<nat>, r: seq<nat>, v: nat)
    requires |s| > 0 && NonIncreasing(s) && NonIncreasing(r)
    requires v < s[0] && multiset(r) == multiset(s[1..]) + multiset{v}
    ensures NonIncreasing([s[0]] + r)
  {
    forall x | x in r ensures x <= s[0] {
      assert x in multiset(r);
      if x != v {
        assert x in multiset(s[1..]);
        assert x in s[1..];
      }
    }
    var t := [s[0]] + r;
    forall a, b | 0 <= a < b < |t| ensures t[a] >= t[b] {
      if a == 0 {
        assert t[b] == r[b - 1] && r[b - 1] in r;
      } else {
        assert t[a] == r[a - 1] && t[b] == r[b - 1];
      }
    }
  }

  /** `sort.Sort(sort.Reverse(...))`: the sizes, largest first. */
  function SortDescending(s: seq<nat>): (r: seq<nat>)
    ensures NonIncreasing(r) && multiset(r) == multiset(s) && |r| == |s|
  {
    if |s| == 0 then []
    else
      assert s == s[..|s| - 1] + [s[|s| - 1]];
      InsertDescending(SortDescending(s[..|s| - 1]), s[|s| - 1])
  }

  /** Two largest-first orderings of the same sizes are the same sequence, so the
      product below does not depend on the order the sizes were collected in. */
  lemma {:induction false} NonIncreasingUnique(s: seq<nat>, t: seq<nat>)
    requires NonIncreasing(s) && NonIncreasing(t) && multiset(s) == multiset(t)
    ensures s == t
    decreases |s|
  {
    if |s| > 0 {
      HeadsEqual(s, t);
      NonIncreasingUnique(s[1..], t[1..]);
      assert s == [s[0]] + s[1..] && t == [t[0]] + t[1..];
    } else {
      assert |t| == |multiset(t)| == 0;
    }
  }

  lemma HeadsEqual(s: seq<nat>, t: seq<nat>)
    requires NonIncreasing(s) && NonIncreasing(t) && multiset(s) == multiset(t) && |s| > 0
    ensures |t| > 0 && s[0] == t[0]
    ensures NonIncreasing(s[1..]) && NonIncreasing(t[1..]) && multiset(s[1..]) == multiset(t[1..])
  {
    assert s[0] in multiset(t);
    FirstIsMax(t, s[0]);
    assert t[0] in multiset(s);
    FirstIsMax(s, t[0]);
    TailMultiset(s);
    TailMultiset(t);
    NonIncreasingTail(s);
    NonIncreasingTail(t);
  }

  lemma TailMultiset(s: seq<nat>)
    requires |s| > 0
    ensures multiset(s[1..]) == multiset(s) - multiset{s[0]}
  {
    assert s == [s[0]] + s[1..];
  }

  lemma FirstIsMax(s: seq<nat>, x: nat)
    requires NonIncreasing(s) && x in multiset(s)
    ensures |s| > 0 && x <= s[0]
  {
    var i :| 0 <= i < |s| && s[i] == x;
    assert i == 0 || s[0] >= s[i];
  }

  lemma NonIncreasingTail(s: seq<nat>)
    requires NonIncreasing(s) && |s| > 0
    ensures NonIncreasing(s[1..])
  {
    var t := s[1..];
    forall a, b | 0 <= a < b < |t| ensures t[a] >= t[b] {
      assert t[a] == s[a + 1] && t[b] == s[b + 1];
    }
  }

  function Product(s: seq<nat>): nat
  {
    if |s| == 0 then 1 else Product(s[..|s| - 1]) * s[|s| - 1]
  }

  /** The at most `m` first entries. */
  function Take(s: seq<nat>, m: int): (r: seq<nat>)
    ensures |r| == if m <= 0 then 0 else if m < |s| then m else |s|
  {
    if m <= 0 then [] else if m < |s| then s[..m] else s
  }

  /** The product of the `m` largest sizes, or of all of them when there are fewer. */
  function TopProduct(sizes: seq<nat>, m: int): nat
  {
    Product(Take(SortDescending(sizes), m))
  }

  /** Only the multiset of sizes matters. */
  lemma TopProductPermutation(s: seq<nat>, t: seq<nat>, m: int)
    requires multiset(s) == multiset(t)
    ensures TopProduct(s, m) == TopProduct(t, m)
  {
    NonIncreasingUnique(SortDescending(s), SortDescending(t));
  }

  /** Every factor taken is at least every size left out. */
  lemma TopProductLargest(sizes: seq<nat>, m: int)
    ensures forall a, b :: 0 <= a < |Take(SortDescending(sizes), m)| <= b < |sizes| ==>
      SortDescending(sizes)[a] >= SortDescending(sizes)[b]
    ensures multiset(Take(SortDescending(sizes), m)) <= multiset(sizes)
  {
    var s := SortDescending(sizes);
    TakePrefix(s, m);
    PrefixMultiset(s, |Take(s, m)|);
  }

  lemma TakePrefix(s: seq<nat>, m: int)
    ensures Take(s, m) == s[..|Take(s, m)|]
  {
  }

  lemma PrefixMultiset(s: seq<nat>, n: nat)
    requires n <= |s|
    ensures multiset(s[..n]) <= multiset(s)
  {
    assert s == s[..n] + s[n..];
  }
}
