// The bounded k-nearest buffer of day 8: up to `k` neighbours held in an array sorted
// by distance, farthest first, and updated by insertion shifts.
module Knn {
  import opened Points

  /** A candidate neighbour: a box index and its squared distance to the query. */
  datatype Neighbor = Neighbor(index: int, distSq: int)

  function Min(a: int, b: int): int
  {
    if a < b then a else b
  }

  /** Farthest first. */
  predicate Descending(s: seq<Neighbor>)
  {
    forall a, b :: 0 <= a < b < |s| ==> s[a].distSq >= s[b].distSq
  }

  /** Closest first. */
  predicate Ascending(s: seq<Neighbor>)
  {
    forall a, b :: 0 <= a < b < |s| ==> s[a].distSq <= s[b].distSq
  }

  /** `s` holds `min(k, |u|)` of the candidates `u`, and no candidate left out is closer
      than one kept: `s` is a choice of the k nearest. */
  predicate KBest(s: seq<Neighbor>, u: multiset<Neighbor>, k: nat)
  {
    multiset(s) <= u && |s| == Min(k, |u|) &&
    forall x, b :: x in u - multiset(s) && b in s ==> b.distSq <= x.distSq
  }

  function InsertAt(s: seq<Neighbor>, pos: nat, nb: Neighbor): (r: seq<Neighbor>)
    requires pos <= |s|
    ensures |r| == |s| + 1 && multiset(r) == multiset(s) + multiset{nb}
  {
    assert s == s[..pos] + s[pos..];
    s[..pos] + [nb] + s[pos..]
  }

  /** Where the non-full `TryAdd` inserts: walking back from the end past every
      entry closer than `d`. */
  function FirstBelow(s: seq<Neighbor>, d: int): (pos: nat)
    ensures pos <= |s|
  {
    if |s| == 0 || s[|s| - 1].distSq >= d then |s| else FirstBelow(s[..|s| - 1], d)
  }

  /** How many leading entries are strictly farther than `d`: where the full `TryAdd`
      inserts, once the farthest is dropped. */
  function PrefixAbove(s: seq<Neighbor>, d: int): (n: nat)
    ensures n <= |s|
  {
    if |s| == 0 || s[0].distSq <= d then 0 else 1 + PrefixAbove(s[1..], d)
  }

  /** The buffer contents after offering `nb` (what `TryAdd` does): inserted while
      there is room, dropped when no closer than the farthest, and otherwise
      replacing the farthest. */
  function Offer(s: seq<Neighbor>, k: nat, nb: Neighbor): seq<Neighbor>
    requires |s| <= k && 0 < k
  {
    if |s| < k then InsertAt(s, FirstBelow(s, nb.distSq), nb)
    else if nb.distSq >= s[0].distSq then s
    else InsertAt(s[1..], PrefixAbove(s[1..], nb.distSq), nb)
  }

  /** On a sorted buffer the backward walk stops between the entries at least `d` away
      and the closer ones. */
  lemma {:induction false} FirstBelowSplits(s: seq<Neighbor>, d: int)
    requires Descending(s)
    ensures forall m :: 0 <= m < FirstBelow(s, d) ==> s[m].distSq >= d
    ensures forall m :: FirstBelow(s, d) <= m < |s| ==> s[m].distSq < d
  {
    if |s| > 0 && s[|s| - 1].distSq < d {
      FirstBelowSplits(s[..|s| - 1], d);
    }
  }

  /** On a sorted buffer the forward walk stops between the entries farther than `d`
      and the others. */
  lemma {:induction false} PrefixAboveSplits(s: seq<Neighbor>, d: int)
    requires Descending(s)
    ensures forall m :: 0 <= m < PrefixAbove(s, d) ==> s[m].distSq > d
    ensures forall m :: PrefixAbove(s, d) <= m < |s| ==> s[m].distSq <= d
  {
    if |s| > 0 && s[0].distSq > d {
      PrefixAboveSplits(s[1..], d);
    }
  }

  lemma InsertDescending(s: seq<Neighbor>, pos: nat, nb: Neighbor)
    requires Descending(s) && pos <= |s|
    requires forall m :: 0 <= m < pos ==> s[m].distSq >= nb.distSq
    requires forall m :: pos <= m < |s| ==> s[m].distSq <= nb.distSq
    ensures Descending(InsertAt(s, pos, nb))
  {
    var r := InsertAt(s, pos, nb);
    forall a, b | 0 <= a < b < |r| ensures r[a].distSq >= r[b].distSq {
      if a < pos && b == pos {
      } else if a < pos && b > pos {
        assert r[b] == s[b - 1];
      } else if a == pos {
        assert r[b] == s[b - 1];
      } else if a > pos {
        assert r[a] == s[a - 1] && r[b] == s[b - 1];
      }
    }
  }

  /** `TryAdd` keeps the buffer sorted farthest first, and holds at most `k`. */
  lemma OfferDescending(s: seq<Neighbor>, k: nat, nb: Neighbor)
    requires |s| <= k && 0 < k && Descending(s)
    ensures Descending(Offer(s, k, nb))
    ensures |Offer(s, k, nb)| == Min(k, |s| + 1)
  {
    if |s| < k {
      FirstBelowSplits(s, nb.distSq);
      InsertDescending(s, FirstBelow(s, nb.distSq), nb);
    } else if nb.distSq < s[0].distSq {
      PrefixAboveSplits(s[1..], nb.distSq);
      InsertDescending(s[1..], PrefixAbove(s[1..], nb.distSq), nb);
    }
  }

  /** The first entry of a sorted buffer is its farthest. */
  lemma FirstIsFarthest(s: seq<Neighbor>, b: Neighbor)
    requires Descending(s) && b in s
    ensures b.distSq <= s[0].distSq
  {
  }

  /** A sub-multiset as large as the whole is the whole. */
  lemma SubMultisetEqual(a: multiset<Neighbor>, u: multiset<Neighbor>)
    requires a <= u && |a| == |u|
    ensures a == u
  {
    assert u == a + (u - a);
  }

  /** Offering a candidate to a buffer holding the k nearest of `u` leaves it holding
      the k nearest of `u` and the candidate. */
  lemma OfferKeepsBest(s: seq<Neighbor>, u: multiset<Neighbor>, k: nat, nb: Neighbor)
    requires 0 < k && Descending(s) && KBest(s, u, k)
    ensures KBest(Offer(s, k, nb), u + multiset{nb}, k)
  {
    if |s| < k {
      SubMultisetEqual(multiset(s), u);
    } else if nb.distSq >= s[0].distSq {
      OfferRejects(s, u, k, nb);
    } else {
      OfferReplaces(s, u, k, nb);
    }
  }

  lemma OfferRejects(s: seq<Neighbor>, u: multiset<Neighbor>, k: nat, nb: Neighbor)
    requires 0 < k == |s| && Descending(s) && KBest(s, u, k)
    requires nb.distSq >= s[0].distSq
    ensures KBest(s, u + multiset{nb}, k)
  {
    var u' := u + multiset{nb};
    forall x, b | x in u' - multiset(s) && b in s ensures b.distSq <= x.distSq {
      if x != nb {
        assert x in u - multiset(s);
      } else {
        FirstIsFarthest(s, b);
      }
    }
  }

  lemma OfferReplaces(s: seq<Neighbor>, u: multiset<Neighbor>, k: nat, nb: Neighbor)
    requires 0 < k == |s| && Descending(s) && KBest(s, u, k)
    requires nb.distSq < s[0].distSq
    ensures KBest(InsertAt(s[1..], PrefixAbove(s[1..], nb.distSq), nb), u + multiset{nb}, k)
  {
    var r := InsertAt(s[1..], PrefixAbove(s[1..], nb.distSq), nb);
    ReplacedLeftOut(s, u, nb, r);
    forall x, b | x in (u - multiset(s)) + multiset{s[0]} && b in r ensures b.distSq <= x.distSq {
      ReplacedCloser(s, u, nb, r, x, b);
    }
  }

  /** Replacing the farthest by `nb` leaves out what was left out before, and the
      farthest. */
  lemma ReplacedLeftOut(s: seq<Neighbor>, u: multiset<Neighbor>, nb: Neighbor, r: seq<Neighbor>)
    requires |s| > 0 && multiset(s) <= u && multiset(r) == multiset(s[1..]) + multiset{nb}
    ensures multiset(r) <= u + multiset{nb}
    ensures (u + multiset{nb}) - multiset(r) == (u - multiset(s)) + multiset{s[0]}
  {
    assert s == [s[0]] + s[1..];
    assert multiset(s) == multiset{s[0]} + multiset(s[1..]);
  }

  lemma ReplacedCloser(s: seq<Neighbor>, u: multiset<Neighbor>, nb: Neighbor, r: seq<Neighbor>,
                       x: Neighbor, b: Neighbor)
    requires 0 < |s| && Descending(s) && KBest(s, u, |s|) && nb.distSq < s[0].distSq
    requires multiset(r) == multiset(s[1..]) + multiset{nb}
    requires x in (u - multiset(s)) + multiset{s[0]} && b in r
    ensures b.distSq <= x.distSq
  {
    assert s[0] in s;
    assert b in multiset(r);
    if b != nb {
      assert b in s[1..];
      assert b in s;
      FirstIsFarthest(s, b);
    }
  }

  /** Leaving out candidates no closer than the farthest of a full buffer keeps it
      holding the k nearest: the pruning step of the search. */
  lemma SkipKeepsBest(s: seq<Neighbor>, u: multiset<Neighbor>, k: nat, skipped: multiset<Neighbor>)
    requires 0 < k == |s| && Descending(s) && KBest(s, u, k)
    requires forall x :: x in skipped ==> x.distSq >= s[0].distSq
    ensures KBest(s, u + skipped, k)
  {
    var u' := u + skipped;
    forall x, b | x in u' - multiset(s) && b in s ensures b.distSq <= x.distSq {
      FirstIsFarthest(s, b);
      if x !in skipped {
        assert x in u - multiset(s);
      }
    }
  }

  function Reverse(s: seq<Neighbor>): (r: seq<Neighbor>)
    ensures |r| == |s|
    ensures forall i :: 0 <= i < |s| ==> r[i] == s[|s| - 1 - i]
  {
    if |s| == 0 then [] else Reverse(s[1..]) + [s[0]]
  }

  /** Swaps the first `n` cells of `a` end for end, from both ends inwards. */
  method ReversePrefix(a: array<Neighbor>, n: nat)
    requires n <= a.Length
    modifies a
    ensures a[..n] == Reverse(old(a[..n]))
    ensures a[n..] == old(a[n..])
  {
    ghost var s := a[..];
    var i, j := 0, n as int - 1;
    while i < j
      invariant 0 <= i <= n && -1 <= j < n && i + j == n - 1
      invariant Swapped(a[..], s, i, j, n)
    {
      ghost var t := a[..];
      a[i], a[j] := a[j], a[i];
      SwapStep(t, a[..], s, i, j, n);
      i, j := i + 1, j - 1;
    }
    ReversedCells(a[..], s, i, j, n);
  }

  /** Where the cell `m` came from once the cells outside `i..j` of the first `n`
      have been swapped. */
  function SwappedFrom(m: nat, i: int, j: int, n: nat): (o: int)
    requires i + j == n - 1
    ensures m < n ==> 0 <= o < n
    ensures m >= n ==> o == m
  {
    if m < n && (m < i || j < m) then n - 1 - m else m
  }

  /** `t` is `s` with the cells outside `i..j` of the first `n` swapped end for end. */
  predicate Swapped(t: seq<Neighbor>, s: seq<Neighbor>, i: int, j: int, n: nat)
    requires i + j == n - 1
  {
    |t| == |s| && n <= |s| && forall m :: 0 <= m < |t| ==> t[m] == s[SwappedFrom(m, i, j, n)]
  }

  /** Swapping cells `i` and `j` widens the swapped part by one at each end. */
  lemma SwapStep(t: seq<Neighbor>, t': seq<Neighbor>, s: seq<Neighbor>, i: nat, j: nat, n: nat)
    requires i < j < n && i + j == n - 1 && Swapped(t, s, i, j, n)
    requires t' == t[i := t[j]][j := t[i]]
    ensures Swapped(t', s, i + 1, j - 1, n)
  {
    forall m | 0 <= m < |t'| ensures t'[m] == s[SwappedFrom(m, i + 1, j - 1, n)] {
      if m == i {
        assert t'[m] == t[j];
      } else if m == j {
        assert t'[m] == t[i];
      } else {
        assert t'[m] == t[m];
      }
    }
  }

  lemma ReversedCells(t: seq<Neighbor>, s: seq<Neighbor>, i: int, j: int, n: nat)
    requires i + j == n - 1 && j <= i && Swapped(t, s, i, j, n)
    ensures t[..n] == Reverse(s[..n]) && t[n..] == s[n..]
  {
    assert forall m :: 0 <= m < n ==> t[m] == s[n - 1 - m];
  }

  /** Reversing a buffer sorted farthest first lists it closest first, with the same
      entries. */
  lemma ReverseAscending(s: seq<Neighbor>)
    requires Descending(s)
    ensures Ascending(Reverse(s))
    ensures multiset(Reverse(s)) == multiset(s)
  {
    ReverseMultiset(s);
  }

  lemma {:induction false} ReverseMultiset(s: seq<Neighbor>)
    ensures multiset(Reverse(s)) == multiset(s)
  {
    if |s| > 0 {
      ReverseMultiset(s[1..]);
      assert s == [s[0]] + s[1..];
    }
  }

  /** `KNNBuffer`: `neighbors` has room for `k`; its first `count` entries are the
      neighbours found so far. */
  class KnnBuffer {
    var neighbors: array<Neighbor>
    var count: nat
    var k: nat

    predicate Valid()
      reads this
    {
      neighbors.Length == k && count <= k
    }

    /** The neighbours held. */
    function Contents(): seq<Neighbor>
      reads this, neighbors
      requires Valid()
    {
      neighbors[..count]
    }

    /** `NewKNNBuffer`: room for `k`, none held. */
    constructor(k: nat)
      ensures Valid() && this.k == k && count == 0 && fresh(neighbors)
    {
      neighbors := new Neighbor[k](_ => Neighbor(0, 0));
      this.k := k;
      count := 0;
    }

    /** `Reset`: forgets the neighbours; the array itself is not touched. */
    method Reset()
      requires Valid()
      modifies this
      ensures Valid() && count == 0 && Contents() == []
      ensures neighbors == old(neighbors) && k == old(k)
      ensures Descending(Contents())
    {
      count := 0;
    }

    /** `MaxDist`: the sentinel while there is room, else the farthest held. */
    function MaxDist(): (d: int)
      reads this, neighbors
      requires Valid() && 0 < k
      ensures count < k ==> d == MaxInt64
      ensures count == k ==> d == neighbors[0].distSq
      ensures count == k && Descending(Contents()) ==>
        forall i :: 0 <= i < count ==> neighbors[i].distSq <= d
    {
      if count < k then MaxInt64 else neighbors[0].distSq
    }

    /** `Results`: reverses the held neighbours in place and returns them, closest
        first; the array is left in ascending order until the next `Reset`. */
    method Results() returns (result: seq<Neighbor>)
      requires Valid()
      modifies neighbors
      ensures Valid()
      ensures result == Reverse(old(Contents())) && Contents() == result
      ensures neighbors[count..] == old(neighbors[count..])
      ensures Descending(old(Contents())) ==> Ascending(result)
      ensures multiset(result) == multiset(old(Contents()))
    {
      ghost var s := neighbors[..count];
      ReverseHeld();
      result := neighbors[..count];
      ReverseMultiset(s);
      if Descending(s) {
        ReverseAscending(s);
      }
    }

    /** The swapping loop of `Results`: reverses the held entries in place. */
    method ReverseHeld()
      requires Valid()
      modifies neighbors
      ensures neighbors[..count] == Reverse(old(neighbors[..count]))
      ensures neighbors[count..] == old(neighbors[count..])
    {
      ReversePrefix(neighbors, count);
    }

    /** `TryAdd`: offers a neighbour and reports whether it was kept. */
    method TryAdd(index: int, distSq: int) returns (added: bool)
      requires Valid() && 0 < k
      modifies this, neighbors
      ensures Valid() && neighbors == old(neighbors) && k == old(k)
      ensures Contents() == Offer(old(Contents()), k, Neighbor(index, distSq))
      ensures added <==> old(count) < k || distSq < old(neighbors[0].distSq)
      ensures added ==> count == Min(k, old(count) + 1)
      ensures !added ==> count == old(count) && neighbors[..] == old(neighbors[..])
    {
      var nb := Neighbor(index, distSq);
      ghost var s := neighbors[..count];
      if count < k {
        var pos := SlotFromEnd(distSq);
        ghost var before := neighbors[..];
        ShiftRight(pos);
        neighbors[pos] := nb;
        count := count + 1;
        ghost var want := s[..pos] + [nb] + s[pos..];
        forall m | 0 <= m < count ensures neighbors[m] == want[m] {
          if m < pos {
            assert neighbors[m] == before[m] == s[m];
          } else if m > pos {
            assert neighbors[m] == before[m - 1] == s[m - 1];
          }
        }
        assert neighbors[..count] == want;
        return true;
      }
      if distSq >= neighbors[0].distSq {
        return false;
      }
      var pos := SlotFromStart(distSq);
      ghost var before := neighbors[..];
      ShiftLeft(pos);
      neighbors[pos - 1] := nb;
      ghost var want := s[1..][..pos - 1] + [nb] + s[1..][pos - 1..];
      forall m | 0 <= m < count ensures neighbors[m] == want[m] {
        if m < pos - 1 {
          assert neighbors[m] == before[m + 1] == s[m + 1];
        } else if m > pos - 1 {
          assert neighbors[m] == before[m] == s[m];
        }
      }
      assert neighbors[..count] == want;
      return true;
    }

    /** The first loop of the non-full `TryAdd`: the slot after every entry at least
        `d` away, found walking back from the end. */
    method SlotFromEnd(d: int) returns (pos: nat)
      requires Valid()
      ensures pos == FirstBelow(Contents(), d)
    {
      ghost var s := Contents();
      pos := count;
      assert s[..pos] == s;
      while pos > 0 && neighbors[pos - 1].distSq < d
        invariant 0 <= pos <= count
        invariant FirstBelow(s, d) == FirstBelow(s[..pos], d)
      {
        assert s[..pos][..pos - 1] == s[..pos - 1];
        pos := pos - 1;
      }
    }

    /** The loop of the full `TryAdd`: the slot after every entry but the first that
        is farther than `d`. */
    method SlotFromStart(d: int) returns (pos: nat)
      requires Valid() && 0 < count == k
      ensures 1 <= pos <= k && pos - 1 == PrefixAbove(Contents()[1..], d)
    {
      ghost var s := Contents();
      pos := 1;
      while pos < k && neighbors[pos].distSq > d
        invariant 1 <= pos <= k
        invariant PrefixAbove(s[1..], d) == (pos - 1) + PrefixAbove(s[pos..], d)
      {
        assert s[pos..][1..] == s[pos + 1..];
        pos := pos + 1;
      }
    }

    /** The `copy` of the non-full `TryAdd`: moves the entries from `pos` up one place. */
    method ShiftRight(pos: nat)
      requires Valid() && pos <= count < k
      modifies neighbors
      ensures forall m :: 0 <= m <= pos ==> neighbors[m] == old(neighbors[m])
      ensures forall m :: pos < m <= count ==> neighbors[m] == old(neighbors[m - 1])
      ensures forall m :: count < m < k ==> neighbors[m] == old(neighbors[m])
    {
      var q := count;
      while q > pos
        invariant pos <= q <= count
        invariant forall m :: 0 <= m <= q ==> neighbors[m] == old(neighbors[m])
        invariant forall m :: q < m <= count ==> neighbors[m] == old(neighbors[m - 1])
        invariant forall m :: count < m < k ==> neighbors[m] == old(neighbors[m])
      {
        neighbors[q] := neighbors[q - 1];
        q := q - 1;
      }
    }

    /** The `copy` of the full `TryAdd`: moves the entries `1..pos` down one place,
        dropping the farthest. */
    method ShiftLeft(pos: nat)
      requires Valid() && 1 <= pos <= k
      modifies neighbors
      ensures forall m :: 0 <= m < pos - 1 ==> neighbors[m] == old(neighbors[m + 1])
      ensures forall m :: pos - 1 <= m < k ==> neighbors[m] == old(neighbors[m])
    {
      var q := 0;
      while q < pos - 1
        invariant 0 <= q <= pos - 1
        invariant forall m :: 0 <= m < q ==> neighbors[m] == old(neighbors[m + 1])
        invariant forall m :: q <= m < k ==> neighbors[m] == old(neighbors[m])
      {
        neighbors[q] := neighbors[q + 1];
        q := q + 1;
      }
    }
  }
}
