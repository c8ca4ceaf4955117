// The union-find forest of day 8: parent links over box indices and union-by-rank
// ranks, with the root each index reaches and the two rewrites the forest undergoes
// (path compression and linking one root under another).
module Forest {

  /** Every parent link stays inside the forest, and ranks strictly rise along a link,
      so every parent chain ends at a self-parented root. */
  predicate IsForest(parent: seq<nat>, rank: seq<nat>)
  {
    |parent| == |rank| &&
    (forall i :: 0 <= i < |parent| ==> parent[i] < |parent|) &&
    (forall i :: 0 <= i < |parent| && parent[i] != i ==> rank[i] < rank[parent[i]])
  }

  /** The largest rank, a bound on every rank. */
  function MaxRank(rank: seq<nat>): (m: nat)
    ensures forall i :: 0 <= i < |rank| ==> rank[i] <= m
  {
    if |rank| == 0 then 0
    else
      var m := MaxRank(rank[..|rank| - 1]);
      assert forall i :: 0 <= i < |rank| - 1 ==> rank[..|rank| - 1][i] == rank[i];
      if rank[|rank| - 1] > m then rank[|rank| - 1] else m
  }

  /** The root reached from `i` by following parent links. */
  function Root(parent: seq<nat>, rank: seq<nat>, i: nat): (r: nat)
    requires IsForest(parent, rank) && i < |parent|
    ensures r < |parent| && parent[r] == r
    ensures r == i <==> parent[i] == i
    ensures r != i ==> rank[i] < rank[r]
    decreases MaxRank(rank) - rank[i]
  {
    if parent[i] == i then i else Root(parent, rank, parent[i])
  }

  /** The indices that are their own parent: one per set of the partition. */
  function Roots(parent: seq<nat>): set<nat>
  {
    set i: nat | i < |parent| && parent[i] == i
  }

  /** `initUnionFind`: every index its own parent, every rank 0. */
  function Identity(n: nat): (parent: seq<nat>)
    ensures |parent| == n
  {
    seq(n, i requires 0 <= i => i)
  }

  function Zeros(n: nat): (rank: seq<nat>)
    ensures |rank| == n
  {
    seq(n, _ => 0)
  }

  /** A fresh forest is a forest of `n` singletons. */
  lemma InitForest(n: nat)
    ensures IsForest(Identity(n), Zeros(n))
    ensures forall i :: 0 <= i < n ==> Root(Identity(n), Zeros(n), i) == i
    ensures |Roots(Identity(n))| == n
  {
    assert Roots(Identity(n)) == Below(n);
  }

  /** The indices below `n`. */
  function Below(n: nat): (s: set<nat>)
    ensures forall i :: i in s <==> 0 <= i < n
    ensures |s| == n
  {
    if n == 0 then {} else assert n - 1 !in Below(n - 1); Below(n - 1) + {n - 1}
  }

  /** The forest after `find` repoints `i` straight at its root. */
  function Compress(parent: seq<nat>, rank: seq<nat>, i: nat): seq<nat>
    requires IsForest(parent, rank) && i < |parent|
  {
    parent[i := Root(parent, rank, i)]
  }

  /** Path compression keeps a forest, every root and every index's root. */
  lemma CompressForest(parent: seq<nat>, rank: seq<nat>, i: nat)
    requires IsForest(parent, rank) && i < |parent|
    ensures IsForest(Compress(parent, rank, i), rank)
    ensures Roots(Compress(parent, rank, i)) == Roots(parent)
  {
    var r := Root(parent, rank, i);
    assert r != i ==> parent[i] != i;
  }

  lemma {:induction false} CompressRoot(parent: seq<nat>, rank: seq<nat>, i: nat, j: nat)
    requires IsForest(parent, rank) && i < |parent| && j < |parent|
    ensures IsForest(Compress(parent, rank, i), rank)
    ensures Root(Compress(parent, rank, i), rank, j) == Root(parent, rank, j)
    decreases MaxRank(rank) - rank[j]
  {
    CompressForest(parent, rank, i);
    var p := Compress(parent, rank, i);
    var r := Root(parent, rank, i);
    if j == i {
      if r != i {
        assert p[r] == r;
      }
    } else if parent[j] != j {
      CompressRoot(parent, rank, i, parent[j]);
    }
  }

  /** The ranks after `union` hangs root `loser` under root `winner`: the winner
      grows by one only when the ranks were equal. */
  function LinkRank(rank: seq<nat>, winner: nat, loser: nat): (r: seq<nat>)
    requires winner < |rank| && loser < |rank|
    ensures |r| == |rank|
  {
    if rank[winner] == rank[loser] then rank[winner := rank[winner] + 1] else rank
  }

  /** Linking two distinct roots, the lower-ranked under the other, keeps a forest
      and removes exactly the loser from the roots. */
  lemma LinkForest(parent: seq<nat>, rank: seq<nat>, winner: nat, loser: nat)
    requires IsForest(parent, rank) && winner < |parent| && loser < |parent|
    requires winner != loser && parent[winner] == winner && parent[loser] == loser
    requires rank[loser] <= rank[winner]
    ensures IsForest(parent[loser := winner], LinkRank(rank, winner, loser))
    ensures Roots(parent[loser := winner]) == Roots(parent) - {loser}
    ensures |Roots(parent[loser := winner])| == |Roots(parent)| - 1
  {
    assert loser in Roots(parent);
  }

  /** After linking, the loser's whole set reaches the winner; every other index keeps
      its root. */
  lemma {:induction false} LinkRoot(parent: seq<nat>, rank: seq<nat>, winner: nat, loser: nat, x: nat)
    requires IsForest(parent, rank) && winner < |parent| && loser < |parent| && x < |parent|
    requires winner != loser && parent[winner] == winner && parent[loser] == loser
    requires rank[loser] <= rank[winner]
    ensures IsForest(parent[loser := winner], LinkRank(rank, winner, loser))
    ensures Root(parent[loser := winner], LinkRank(rank, winner, loser), x) ==
      if Root(parent, rank, x) == loser then winner else Root(parent, rank, x)
    decreases MaxRank(rank) - rank[x]
  {
    LinkForest(parent, rank, winner, loser);
    var p, rk := parent[loser := winner], LinkRank(rank, winner, loser);
    if parent[x] == x {
      if x == loser {
        assert Root(p, rk, x) == Root(p, rk, winner);
      }
    } else {
      assert x != loser && p[x] == parent[x];
      LinkRoot(parent, rank, winner, loser, parent[x]);
    }
  }

  /** Linking, for every index at once. */
  lemma LinkAll(parent: seq<nat>, rank: seq<nat>, winner: nat, loser: nat)
    requires IsForest(parent, rank) && winner < |parent| && loser < |parent|
    requires winner != loser && parent[winner] == winner && parent[loser] == loser
    requires rank[loser] <= rank[winner]
    ensures IsForest(parent[loser := winner], LinkRank(rank, winner, loser))
    ensures Roots(parent[loser := winner]) == Roots(parent) - {loser}
    ensures |Roots(parent[loser := winner])| == |Roots(parent)| - 1
    ensures forall x :: 0 <= x < |parent| ==>
      Root(parent[loser := winner], LinkRank(rank, winner, loser), x) ==
        if Root(parent, rank, x) == loser then winner else Root(parent, rank, x)
  {
    LinkForest(parent, rank, winner, loser);
    forall x | 0 <= x < |parent|
      ensures Root(parent[loser := winner], LinkRank(rank, winner, loser), x) ==
        if Root(parent, rank, x) == loser then winner else Root(parent, rank, x)
    {
      LinkRoot(parent, rank, winner, loser, x);
    }
  }
}
