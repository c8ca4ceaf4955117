// Day 9: the largest rectangle with two red tiles at opposite corners, over every pair
// of tiles (part 1) and over the pairs whose rectangle lies inside the polygon the
// tiles outline (part 2). Part 2 is decided on a compressed grid: one column per
// distinct x, one row per distinct y, plus one padding line on each side.
module Day09 {
  import opened GoText
  import opened Flood

  function Min(a: int, b: int): int { if a <= b then a else b }
  function Max(a: int, b: int): int { if a >= b then a else b }

  /** `m[k]` on a Go map of ints: 0 for a missing key. */
  function Lookup(m: map<int, int>, k: int): int
  {
    if k in m then m[k] else 0
  }

  // ------------------------------------------------------------ coordinate maps

  /** The running minimum of `buildCoordinateMaps`, started at the first value. */
  function MinOf(s: seq<int>): (m: int)
    requires |s| > 0
    ensures m in s && forall v :: v in s ==> m <= v
  {
    if |s| == 1 then s[0]
    else
      var init := s[..|s| - 1];
      assert s == init + [s[|s| - 1]];
      Min(MinOf(init), s[|s| - 1])
  }

  function MaxOf(s: seq<int>): (m: int)
    requires |s| > 0
    ensures m in s && forall v :: v in s ==> v <= m
  {
    if |s| == 1 then s[0]
    else
      var init := s[..|s| - 1];
      assert s == init + [s[|s| - 1]];
      Max(MaxOf(init), s[|s| - 1])
  }

  /** One more value in the running minimum and maximum of `buildCoordinateMaps`. */
  lemma RunningStep(s: seq<int>, i: nat)
    requires i < |s|
    ensures MinOf(s[..i + 1]) == if i == 0 then s[0] else Min(MinOf(s[..i]), s[i])
    ensures MaxOf(s[..i + 1]) == if i == 0 then s[0] else Max(MaxOf(s[..i]), s[i])
  {
    if i > 0 {
      assert s[..i + 1][..i] == s[..i];
    }
  }

  /** The state of the tile loop of `buildCoordinateMaps` after `i` tiles, on one
      axis: the distinct values seen, and their running minimum and maximum,
      started at the first tile. */
  ghost predicate Scanned(s: seq<int>, i: nat, values: set<int>, lo: int, hi: int)
    requires 0 < |s| && i <= |s|
  {
    (forall v :: v in values <==> v in s[..i]) &&
    (if i == 0 then lo == hi == s[0] else lo == MinOf(s[..i]) && hi == MaxOf(s[..i]))
  }

  lemma ScanStep(s: seq<int>, i: nat, values: set<int>, lo: int, hi: int)
    requires i < |s| && Scanned(s, i, values, lo, hi)
    ensures Scanned(s, i + 1, values + {s[i]}, Min(lo, s[i]), Max(hi, s[i]))
  {
    assert s[..i + 1] == s[..i] + [s[i]];
    RunningStep(s, i);
  }

  /** The tile loop of `buildCoordinateMaps`: the distinct values on each axis and
      their extremes. */
  method ScanTiles(xs: seq<int>, ys: seq<int>)
    returns (xSet: set<int>, minX: int, maxX: int, ySet: set<int>, minY: int, maxY: int)
    requires |xs| == |ys| && |xs| > 0
    ensures (forall v :: v in xSet <==> v in xs) && minX == MinOf(xs) && maxX == MaxOf(xs)
    ensures (forall v :: v in ySet <==> v in ys) && minY == MinOf(ys) && maxY == MaxOf(ys)
  {
    var n := |xs|;
    xSet, ySet := {}, {};
    minX, maxX := xs[0], xs[0];
    minY, maxY := ys[0], ys[0];
    for i := 0 to n
      invariant Scanned(xs, i, xSet, minX, maxX) && Scanned(ys, i, ySet, minY, maxY)
    {
      var x, y := xs[i], ys[i];
      ScanStep(xs, i, xSet, minX, maxX);
      ScanStep(ys, i, ySet, minY, maxY);
      xSet := xSet + {x};
      ySet := ySet + {y};
      minX, maxX := Min(minX, x), Max(maxX, x);
      minY, maxY := Min(minY, y), Max(maxY, y);
    }
    assert xs[..n] == xs && ys[..n] == ys;
  }

  /** The sorted keys of the tile values and the two padding values form the axis. */
  lemma AxisOfKeys(vs: seq<int>, keys: set<int>, coords: seq<int>)
    requires |vs| > 0
    requires forall v :: v in keys <==> v in vs || v == MinOf(vs) - 1 || v == MaxOf(vs) + 1
    requires Increasing(coords) && forall v :: v in coords <==> v in keys
    ensures IsAxis(vs, coords)
  {
  }

  /** Every tile value is on its axis. */
  lemma OnAxis(vs: seq<int>, coords: seq<int>)
    requires |vs| > 0 && IsAxis(vs, coords)
    ensures forall i :: 0 <= i < |vs| ==> vs[i] in coords
  {
    forall i | 0 <= i < |vs| ensures vs[i] in coords {
      assert vs[i] in vs && AxisValue(vs, vs[i]);
    }
  }

  predicate Increasing(s: seq<int>)
  {
    forall a, b :: 0 <= a < b < |s| ==> s[a] < s[b]
  }

  /** `coords` is the compressed axis of the tile values `vs`: strictly increasing,
      holding every value of `vs` and one padding value beyond each end. */
  ghost predicate IsAxis(vs: seq<int>, coords: seq<int>)
    requires |vs| > 0
  {
    Increasing(coords) && forall v :: v in coords <==> AxisValue(vs, v)
  }

  /** A tile value, or one of the two padding values. */
  ghost predicate AxisValue(vs: seq<int>, v: int)
    requires |vs| > 0
  {
    v in vs || v == MinOf(vs) - 1 || v == MaxOf(vs) + 1
  }

  /** `idx` maps each coordinate to its position, and has no other key. */
  ghost predicate IsIndex(coords: seq<int>, idx: map<int, int>)
  {
    (forall v :: v in idx <==> v in coords) &&
    forall a :: 0 <= a < |coords| ==> coords[a] in idx && idx[coords[a]] == a
  }

  /** A non-empty set of integers has a least element. */
  lemma {:induction false} SetHasMin(s: set<int>)
    requires s != {}
    ensures exists m :: m in s && forall v :: v in s ==> m <= v
    decreases |s|
  {
    if forall y :: y !in s {
      assert false;
    }
    var x :| x in s;
    var rest := s - {x};
    if rest == {} {
      assert forall v :: v in s ==> v == x by {
        forall v | v in s ensures v == x {
          assert v !in rest;
        }
      }
    } else {
      SetHasMin(rest);
      var m :| m in rest && forall v :: v in rest ==> m <= v;
      if x < m {
        assert forall v :: v in s ==> x <= v by {
          forall v | v in s ensures x <= v { if v != x { assert v in rest; } }
        }
      } else {
        assert forall v :: v in s ==> m <= v by {
          forall v | v in s ensures m <= v { if v != x { assert v in rest; } }
        }
        assert m in s;
      }
    }
  }

  /** `slices.Sorted(mapKeys(set))`: the keys of a set in increasing order. */
  function SortedKeys(s: set<int>): (r: seq<int>)
    ensures Increasing(r) && forall v :: v in r <==> v in s
    decreases |s|
  {
    if s == {} then []
    else
      SetHasMin(s);
      var m :| m in s && forall v :: v in s ==> m <= v;
      var rest := SortedKeys(s - {m});
      PrependLeast(m, s - {m}, rest);
      [m] + rest
  }

  lemma PrependLeast(m: int, s: set<int>, rest: seq<int>)
    requires Increasing(rest) && (forall v :: v in rest <==> v in s)
    requires forall v :: v in s ==> m < v
    ensures Increasing([m] + rest)
  {
    forall b | 0 <= b < |rest| ensures m < rest[b] {
      assert rest[b] in rest;
    }
  }

  /** The index loops of `buildCoordinateMaps`: each coordinate maps to its position. */
  method PositionMap(coords: seq<int>) returns (idx: map<int, int>)
    requires Increasing(coords)
    ensures IsIndex(coords, idx)
  {
    idx := map[];
    for a := 0 to |coords|
      invariant forall v :: v in idx <==> v in coords[..a]
      invariant forall b :: 0 <= b < a ==> coords[b] in idx && idx[coords[b]] == b
    {
      idx := idx[coords[a] := a];
    }
    assert coords[..|coords|] == coords;
  }

  /** The position of a coordinate is the one `idx` gives, and no other. */
  lemma IndexOfValue(coords: seq<int>, idx: map<int, int>, v: int) returns (a: nat)
    requires IsIndex(coords, idx) && v in coords
    ensures a < |coords| && coords[a] == v && Lookup(idx, v) == a
    ensures forall c :: 0 <= c < |coords| && coords[c] == v ==> c == a
  {
    var t :| 0 <= t < |coords| && coords[t] == v;
    a := t;
  }

  /** The first and last coordinates are the padding: no tile lies on the outer
      lines of the compressed grid. */
  lemma AxisEnds(vs: seq<int>, coords: seq<int>)
    requires |vs| > 0 && IsAxis(vs, coords)
    ensures |coords| >= 2
    ensures coords[0] == MinOf(vs) - 1 && coords[|coords| - 1] == MaxOf(vs) + 1
    ensures forall v :: v in vs ==> coords[0] < v < coords[|coords| - 1]
  {
    var lo, hi := MinOf(vs) - 1, MaxOf(vs) + 1;
    assert lo in coords && hi in coords;
    var a :| 0 <= a < |coords| && coords[a] == lo;
    var b :| 0 <= b < |coords| && coords[b] == hi;
    assert a != b;
    var first, last := coords[0], coords[|coords| - 1];
    assert first <= coords[a] && coords[b] <= last;
    assert first in coords && last in coords;
    assert first in vs || first == lo || first == hi;
    assert last in vs || last == lo || last == hi;
  }

  /** Between the positions of two coordinates lie exactly the cells whose
      coordinate lies between them. */
  lemma IndexSpan(coords: seq<int>, idx: map<int, int>, lo: int, hi: int, c: nat)
    requires Increasing(coords) && IsIndex(coords, idx) && lo in coords && hi in coords
    requires c < |coords|
    ensures Lookup(idx, lo) <= c <= Lookup(idx, hi) <==> lo <= coords[c] <= hi
  {
    var a := IndexOfValue(coords, idx, lo);
    var b := IndexOfValue(coords, idx, hi);
    if c < a { assert coords[c] < coords[a]; }
    if a < c { assert coords[a] < coords[c]; }
    if c < b { assert coords[c] < coords[b]; }
    if b < c { assert coords[b] < coords[c]; }
  }

  // ------------------------------------------------------------ the boundary

  /** Cell (col, row) lies on the side from tile `i` to tile `i + 1` (cyclically), as
      `markBoundary` decides it: equal x is a vertical side, anything else is taken
      as a horizontal side at the first tile's y. */
  predicate OnSegment(xs: seq<int>, ys: seq<int>, xCoords: seq<int>, yCoords: seq<int>,
                      i: nat, col: nat, row: nat)
    requires |xs| == |ys| && i < |xs| && col < |xCoords| && row < |yCoords|
  {
    var x1, y1 := xs[i], ys[i];
    var x2, y2 := xs[(i + 1) % |xs|], ys[(i + 1) % |xs|];
    if x1 == x2 then xCoords[col] == x1 && Min(y1, y2) <= yCoords[row] <= Max(y1, y2)
    else yCoords[row] == y1 && Min(x1, x2) <= xCoords[col] <= Max(x1, x2)
  }

  /** Cell (col, row) lies on one of the first `k` sides. */
  predicate OnSomeSegment(xs: seq<int>, ys: seq<int>, xCoords: seq<int>, yCoords: seq<int>,
                          k: nat, col: nat, row: nat)
    requires |xs| == |ys| && k <= |xs| && col < |xCoords| && row < |yCoords|
  {
    k > 0 &&
    (OnSomeSegment(xs, ys, xCoords, yCoords, k - 1, col, row) ||
     OnSegment(xs, ys, xCoords, yCoords, k - 1, col, row))
  }

  lemma {:induction false} OnSomeSegmentExists(xs: seq<int>, ys: seq<int>, xCoords: seq<int>,
                                               yCoords: seq<int>, k: nat, col: nat, row: nat)
    requires |xs| == |ys| && k <= |xs| && col < |xCoords| && row < |yCoords|
    ensures OnSomeSegment(xs, ys, xCoords, yCoords, k, col, row) <==>
      exists i :: 0 <= i < k && OnSegment(xs, ys, xCoords, yCoords, i, col, row)
  {
    if k > 0 {
      OnSomeSegmentExists(xs, ys, xCoords, yCoords, k - 1, col, row);
      if OnSegment(xs, ys, xCoords, yCoords, k - 1, col, row) {
        assert exists i :: 0 <= i < k && OnSegment(xs, ys, xCoords, yCoords, i, col, row);
      }
    }
  }

  /** The vertical case of `markBoundary`: in column `col`, every row whose y lies in
      [lo, hi] is marked; nothing else changes. */
  method MarkColumn(boundary: array2<bool>, yCoords: seq<int>, yIdx: map<int, int>,
                    col: nat, lo: int, hi: int)
    requires boundary.Length0 == |yCoords| && col < boundary.Length1 && IsIndex(yCoords, yIdx)
    modifies boundary
    ensures forall r, c :: 0 <= r < boundary.Length0 && 0 <= c < boundary.Length1 ==>
      (boundary[r, c] <==> old(boundary[r, c]) || (c == col && lo <= yCoords[r] <= hi))
  {
    for k := 0 to |yCoords|
      invariant forall r, c :: 0 <= r < boundary.Length0 && 0 <= c < boundary.Length1 ==>
        (boundary[r, c] <==> old(boundary[r, c]) || (c == col && r < k && lo <= yCoords[r] <= hi))
    {
      var y := yCoords[k];
      if y >= lo && y <= hi {
        boundary[Lookup(yIdx, y), col] := true;
      }
    }
  }

  /** The horizontal case of `markBoundary`: in row `row`, every column whose x lies
      in [lo, hi] is marked; nothing else changes. */
  method MarkRow(boundary: array2<bool>, xCoords: seq<int>, xIdx: map<int, int>,
                 row: nat, lo: int, hi: int)
    requires boundary.Length1 == |xCoords| && row < boundary.Length0 && IsIndex(xCoords, xIdx)
    modifies boundary
    ensures forall r, c :: 0 <= r < boundary.Length0 && 0 <= c < boundary.Length1 ==>
      (boundary[r, c] <==> old(boundary[r, c]) || (r == row && lo <= xCoords[c] <= hi))
  {
    for k := 0 to |xCoords|
      invariant forall r, c :: 0 <= r < boundary.Length0 && 0 <= c < boundary.Length1 ==>
        (boundary[r, c] <==> old(boundary[r, c]) || (r == row && c < k && lo <= xCoords[c] <= hi))
    {
      var x := xCoords[k];
      if x >= lo && x <= hi {
        boundary[row, Lookup(xIdx, x)] := true;
      }
    }
  }

  // ------------------------------------------------------------ inside test

  /** No cell of rows [ylo, yhi] and columns [xlo, xhi] is outside. */
  ghost predicate NoneOutside(outside: array2<bool>, ylo: int, yhi: int, xlo: int, xhi: int)
    reads outside
  {
    forall yi, xi ::
      ylo <= yi <= yhi && xlo <= xi <= xhi && 0 <= yi < outside.Length0 && 0 <= xi < outside.Length1
      ==> !outside[yi, xi]
  }

  /** Every value of the index map is below `bound`. */
  ghost predicate IndexWithin(idx: map<int, int>, bound: int)
  {
    forall k :: k in idx ==> 0 <= idx[k] < bound
  }

  lemma IndexIsWithin(coords: seq<int>, idx: map<int, int>)
    requires IsIndex(coords, idx)
    ensures IndexWithin(idx, |coords|)
  {
    forall k | k in idx ensures 0 <= idx[k] < |coords| {
      var a := IndexOfValue(coords, idx, k);
    }
  }

  /** What `isInsidePolygon` needs of its grid: every index names a row or column,
      and a missing key, read as 0, does too. */
  ghost predicate GridFor(outside: array2<bool>, xIdx: map<int, int>, yIdx: map<int, int>)
  {
    outside.Length0 > 0 && outside.Length1 > 0 &&
    IndexWithin(xIdx, outside.Length1) && IndexWithin(yIdx, outside.Length0)
  }

  /** `isInsidePolygon`: scans the index rectangle row by row and stops at the first
      cell outside. */
  method IsInsidePolygon(outside: array2<bool>, xIdx: map<int, int>, yIdx: map<int, int>,
                         xMin: int, xMax: int, yMin: int, yMax: int) returns (inside: bool)
    requires GridFor(outside, xIdx, yIdx)
    ensures inside <==> NoneOutside(outside, Lookup(yIdx, yMin), Lookup(yIdx, yMax),
                                    Lookup(xIdx, xMin), Lookup(xIdx, xMax))
  {
    var ylo, yhi := Lookup(yIdx, yMin), Lookup(yIdx, yMax);
    var xlo, xhi := Lookup(xIdx, xMin), Lookup(xIdx, xMax);
    var yi := ylo;
    while yi <= yhi
      invariant ylo <= yi && (ylo <= yhi ==> yi <= yhi + 1)
      invariant NoneOutside(outside, ylo, yi - 1, xlo, xhi)
    {
      var xi := xlo;
      while xi <= xhi
        invariant xlo <= xi && (xlo <= xhi ==> xi <= xhi + 1)
        invariant forall x :: xlo <= x < xi && x <= xhi ==> !outside[yi, x]
      {
        if outside[yi, xi] {
          return false;
        }
        xi := xi + 1;
      }
      yi := yi + 1;
    }
    return true;
  }

  /** On the compressed grid of the tiles, the index rectangle of two tiles holds
      exactly the cells whose coordinates lie in the tiles' rectangle. */
  lemma RectangleCells(xCoords: seq<int>, yCoords: seq<int>, xIdx: map<int, int>, yIdx: map<int, int>,
                       outside: array2<bool>, xMin: int, xMax: int, yMin: int, yMax: int)
    requires Increasing(xCoords) && IsIndex(xCoords, xIdx) && xMin in xCoords && xMax in xCoords
    requires Increasing(yCoords) && IsIndex(yCoords, yIdx) && yMin in yCoords && yMax in yCoords
    requires outside.Length0 == |yCoords| && outside.Length1 == |xCoords|
    ensures NoneOutside(outside, Lookup(yIdx, yMin), Lookup(yIdx, yMax), Lookup(xIdx, xMin), Lookup(xIdx, xMax)) <==>
      forall row, col ::
        0 <= row < |yCoords| && 0 <= col < |xCoords| && xMin <= xCoords[col] <= xMax && yMin <= yCoords[row] <= yMax
        ==> !outside[row, col]
  {
    forall row, col | 0 <= row < |yCoords| && 0 <= col < |xCoords|
      ensures (Lookup(yIdx, yMin) <= row <= Lookup(yIdx, yMax) && Lookup(xIdx, xMin) <= col <= Lookup(xIdx, xMax)) <==>
        (xMin <= xCoords[col] <= xMax && yMin <= yCoords[row] <= yMax)
    {
      IndexSpan(yCoords, yIdx, yMin, yMax, row);
      IndexSpan(xCoords, xIdx, xMin, xMax, col);
    }
  }

  // ------------------------------------------------------------ the pair search

  /** The tiles' rectangle, counted in tiles: both corners included. */
  function Area(x1: int, y1: int, x2: int, y2: int): (a: int)
    ensures a >= 1
  {
    (Max(x1, x2) - Min(x1, x2) + 1) * (Max(y1, y2) - Min(y1, y2) + 1)
  }

  function PairArea(xs: seq<int>, ys: seq<int>, i: nat, j: nat): int
    requires |xs| == |ys| && i < |xs| && j < |xs|
  {
    Area(xs[i], ys[i], xs[j], ys[j])
  }

  /** The rectangle of tiles `i` and `j` passes `isInsidePolygon`. */
  ghost predicate PairInside(outside: array2<bool>, xIdx: map<int, int>, yIdx: map<int, int>,
                             xs: seq<int>, ys: seq<int>, i: nat, j: nat)
    requires |xs| == |ys| && i < |xs| && j < |xs|
    reads outside
  {
    NoneOutside(outside, Lookup(yIdx, Min(ys[i], ys[j])), Lookup(yIdx, Max(ys[i], ys[j])),
                Lookup(xIdx, Min(xs[i], xs[j])), Lookup(xIdx, Max(xs[i], xs[j])))
  }

  /** The inner loop of `solve` for tile `i`: over the pairs (i, j), j > i, part 1
      keeps the largest area and part 2 the largest among rectangles inside. */
  method SearchRow(xs: seq<int>, ys: seq<int>, outside: array2<bool>, xIdx: map<int, int>,
                   yIdx: map<int, int>, i: nat, best1: int, best2: int)
    returns (best1': int, best2': int)
    requires |xs| == |ys| && i < |xs| && GridFor(outside, xIdx, yIdx)
    ensures best1 <= best1' && forall j :: i < j < |xs| ==> PairArea(xs, ys, i, j) <= best1'
    ensures best1' == best1 || exists j :: i < j < |xs| && best1' == PairArea(xs, ys, i, j)
    ensures best2 <= best2'
    ensures forall j :: i < j < |xs| && PairInside(outside, xIdx, yIdx, xs, ys, i, j) ==>
      PairArea(xs, ys, i, j) <= best2'
    ensures best2' == best2 ||
      exists j :: i < j < |xs| && PairInside(outside, xIdx, yIdx, xs, ys, i, j) && best2' == PairArea(xs, ys, i, j)
  {
    best1', best2' := best1, best2;
    var j := i + 1;
    while j < |xs|
      invariant i + 1 <= j <= |xs| || j == i + 1
      invariant best1 <= best1' && forall k :: i < k < j && k < |xs| ==> PairArea(xs, ys, i, k) <= best1'
      invariant best1' == best1 || exists k :: i < k < j && k < |xs| && best1' == PairArea(xs, ys, i, k)
      invariant best2 <= best2'
      invariant forall k :: i < k < j && k < |xs| && PairInside(outside, xIdx, yIdx, xs, ys, i, k) ==>
        PairArea(xs, ys, i, k) <= best2'
      invariant best2' == best2 ||
        exists k :: i < k < j && k < |xs| && PairInside(outside, xIdx, yIdx, xs, ys, i, k) &&
          best2' == PairArea(xs, ys, i, k)
    {
      var x1, y1 := xs[i], ys[i];
      var x2, y2 := xs[j], ys[j];
      var xMin, xMax := Min(x1, x2), Max(x1, x2);
      var yMin, yMax := Min(y1, y2), Max(y1, y2);
      var area := (xMax - xMin + 1) * (yMax - yMin + 1);
      assert area == PairArea(xs, ys, i, j);
      best1' := Max(best1', area);
      var inside := IsInsidePolygon(outside, xIdx, yIdx, xMin, xMax, yMin, yMax);
      assert inside <==> PairInside(outside, xIdx, yIdx, xs, ys, i, j);
      if inside {
        best2' := Max(best2', area);
      }
      j := j + 1;
    }
  }

  /** The pair loops of `solve`: part 1 becomes the largest area over the pairs i < j
      (or stays, if larger), part 2 the largest over the pairs whose rectangle is
      inside. Part 2 thus never exceeds part 1 when it did not before. */
  method SearchPairs(xs: seq<int>, ys: seq<int>, outside: array2<bool>, xIdx: map<int, int>,
                     yIdx: map<int, int>, best1: int, best2: int)
    returns (best1': int, best2': int)
    requires |xs| == |ys| && GridFor(outside, xIdx, yIdx)
    ensures best1 <= best1' && forall i, j :: 0 <= i < j < |xs| ==> PairArea(xs, ys, i, j) <= best1'
    ensures best1' == best1 || exists i, j :: 0 <= i < j < |xs| && best1' == PairArea(xs, ys, i, j)
    ensures best2 <= best2'
    ensures forall i, j :: 0 <= i < j < |xs| && PairInside(outside, xIdx, yIdx, xs, ys, i, j) ==>
      PairArea(xs, ys, i, j) <= best2'
    ensures best2' == best2 ||
      exists i, j :: 0 <= i < j < |xs| && PairInside(outside, xIdx, yIdx, xs, ys, i, j) &&
        best2' == PairArea(xs, ys, i, j)
    ensures best2 <= best1 ==> best2' <= best1'
  {
    best1', best2' := best1, best2;
    for i := 0 to |xs|
      invariant best1 <= best1' && forall a, j :: 0 <= a < i && a < j < |xs| ==> PairArea(xs, ys, a, j) <= best1'
      invariant best1' == best1 || exists a, j :: 0 <= a < j < |xs| && a < i && best1' == PairArea(xs, ys, a, j)
      invariant best2 <= best2'
      invariant forall a, j :: 0 <= a < i && a < j < |xs| && PairInside(outside, xIdx, yIdx, xs, ys, a, j) ==>
        PairArea(xs, ys, a, j) <= best2'
      invariant best2' == best2 ||
        exists a, j :: 0 <= a < j < |xs| && a < i && PairInside(outside, xIdx, yIdx, xs, ys, a, j) &&
          best2' == PairArea(xs, ys, a, j)
      invariant best2 <= best1 ==> best2' <= best1'
    {
      best1', best2' := SearchRow(xs, ys, outside, xIdx, yIdx, i, best1', best2');
    }
  }

  /** A rectangle's compressed cells: none is reachable from the corner of the grid. */
  ghost predicate RectClear(boundary: array2<bool>, xCoords: seq<int>, yCoords: seq<int>,
                            xs: seq<int>, ys: seq<int>, i: nat, j: nat)
    requires |xs| == |ys| && i < |xs| && j < |xs|
    reads boundary
  {
    forall row, col ::
      0 <= row < |yCoords| && 0 <= col < |xCoords| &&
      Min(xs[i], xs[j]) <= xCoords[col] <= Max(xs[i], xs[j]) &&
      Min(ys[i], ys[j]) <= yCoords[row] <= Max(ys[i], ys[j])
      ==> !Reachable(boundary, Cell(col, row))
  }

  /** With `outside` the flood fill of `boundary`, a pair passes `isInsidePolygon`
      exactly when none of its rectangle's cells is reachable from the corner. */
  lemma PairInsideClear(boundary: array2<bool>, outside: array2<bool>, xCoords: seq<int>, yCoords: seq<int>,
                        xIdx: map<int, int>, yIdx: map<int, int>, xs: seq<int>, ys: seq<int>, i: nat, j: nat)
    requires |xs| == |ys| && i < |xs| && j < |xs|
    requires Increasing(xCoords) && IsIndex(xCoords, xIdx) && xs[i] in xCoords && xs[j] in xCoords
    requires Increasing(yCoords) && IsIndex(yCoords, yIdx) && ys[i] in yCoords && ys[j] in yCoords
    requires outside.Length0 == |yCoords| && outside.Length1 == |xCoords|
    requires forall row, col :: 0 <= row < |yCoords| && 0 <= col < |xCoords| ==>
      (outside[row, col] <==> Reachable(boundary, Cell(col, row)))
    ensures PairInside(outside, xIdx, yIdx, xs, ys, i, j) <==> RectClear(boundary, xCoords, yCoords, xs, ys, i, j)
  {
    RectangleCells(xCoords, yCoords, xIdx, yIdx, outside,
                   Min(xs[i], xs[j]), Max(xs[i], xs[j]), Min(ys[i], ys[j]), Max(ys[i], ys[j]));
  }

  /** `r` is what part 1 becomes from `r0`: the largest area over the pairs i < j,
      unless `r0` was larger. */
  ghost predicate IsBest(xs: seq<int>, ys: seq<int>, r0: int, r: int)
    requires |xs| == |ys|
  {
    r0 <= r && (forall i, j :: 0 <= i < j < |xs| ==> PairArea(xs, ys, i, j) <= r) &&
    (r == r0 || exists i, j :: 0 <= i < j < |xs| && r == PairArea(xs, ys, i, j))
  }

  /** `r` is what part 2 becomes from `r0`: the largest area over the pairs whose
      rectangle has no cell reachable from the corner, unless `r0` was larger. */
  ghost predicate IsBestClear(boundary: array2<bool>, xCoords: seq<int>, yCoords: seq<int>,
                              xs: seq<int>, ys: seq<int>, r0: int, r: int)
    requires |xs| == |ys|
    reads boundary
  {
    r0 <= r &&
    (forall i, j :: 0 <= i < j < |xs| && RectClear(boundary, xCoords, yCoords, xs, ys, i, j) ==>
      PairArea(xs, ys, i, j) <= r) &&
    (r == r0 ||
     exists i, j :: 0 <= i < j < |xs| && RectClear(boundary, xCoords, yCoords, xs, ys, i, j) &&
       r == PairArea(xs, ys, i, j))
  }

  /** Part 2 never exceeds part 1 when it did not before. */
  lemma ClearBelowBest(boundary: array2<bool>, xCoords: seq<int>, yCoords: seq<int>,
                       xs: seq<int>, ys: seq<int>, r1: int, best1: int, r2: int, best2: int)
    requires |xs| == |ys| && r2 <= r1
    requires IsBest(xs, ys, r1, best1) && IsBestClear(boundary, xCoords, yCoords, xs, ys, r2, best2)
    ensures best2 <= best1
  {
  }

  // ------------------------------------------------------------ input lines

  /** One input line as `Parse` reads it: two comma-separated integers. An empty
      line, a line without exactly one comma, or a part that is not an integer
      gives nothing. */
  function ReadTile(line: string): Option<(int, int)>
  {
    if |line| == 0 then None
    else
      var parts := Split(line, ',');
      if |parts| != 2 then None
      else
        var x, y := Atoi(parts[0]), Atoi(parts[1]);
        if x.None? || y.None? then None else Some((x.value, y.value))
  }

  /** Printing a tile as `x,y` and reading it back gives the tile. */
  lemma ReadTileOfItoa(x: int, y: int)
    ensures ReadTile(Itoa(x) + "," + Itoa(y)) == Some((x, y))
  {
    NoCommaInItoa(x);
    NoCommaInItoa(y);
    SplitPrefix(Itoa(x), ',', Itoa(y));
    SplitNoSep(Itoa(y), ',');
    AtoiOfItoa(x);
    AtoiOfItoa(y);
    assert Itoa(x) + "," + Itoa(y) == Itoa(x) + [','] + Itoa(y);
  }

  /** A line without a comma gives nothing. */
  lemma ReadTileNoComma(line: string)
    requires ',' !in line
    ensures ReadTile(line).None?
  {
    SplitNoSep(line, ',');
  }

  /** The tiles the lines give, in order. */
  function ReadTiles(lines: seq<string>): (tiles: seq<(int, int)>)
    ensures |tiles| <= |lines|
  {
    if |lines| == 0 then []
    else
      var t := ReadTile(lines[|lines| - 1]);
      ReadTiles(lines[..|lines| - 1]) + (if t.Some? then [t.value] else [])
  }

  function Firsts(tiles: seq<(int, int)>): (xs: seq<int>)
    ensures |xs| == |tiles|
  {
    if |tiles| == 0 then [] else Firsts(tiles[..|tiles| - 1]) + [tiles[|tiles| - 1].0]
  }

  function Seconds(tiles: seq<(int, int)>): (ys: seq<int>)
    ensures |ys| == |tiles|
  {
    if |tiles| == 0 then [] else Seconds(tiles[..|tiles| - 1]) + [tiles[|tiles| - 1].1]
  }

  lemma ReadTilesStep(lines: seq<string>, k: nat)
    requires k < |lines|
    ensures ReadTile(lines[k]).None? ==> ReadTiles(lines[..k + 1]) == ReadTiles(lines[..k])
    ensures ReadTile(lines[k]).Some? ==>
      ReadTiles(lines[..k + 1]) == ReadTiles(lines[..k]) + [ReadTile(lines[k]).value]
  {
    assert lines[..k + 1][..k] == lines[..k];
    assert ReadTiles(lines[..k]) + [] == ReadTiles(lines[..k]);
  }

  lemma TilesAppend(tiles: seq<(int, int)>, t: (int, int))
    ensures Firsts(tiles + [t]) == Firsts(tiles) + [t.0]
    ensures Seconds(tiles + [t]) == Seconds(tiles) + [t.1]
  {
    assert (tiles + [t])[..|tiles|] == tiles;
  }

  /** The scanner loop of `Parse`: a tile from every line that holds one, in order. */
  method ReadLines(lines: seq<string>) returns (xs: seq<int>, ys: seq<int>)
    ensures xs == Firsts(ReadTiles(lines)) && ys == Seconds(ReadTiles(lines))
  {
    xs, ys := [], [];
    for k := 0 to |lines|
      invariant xs == Firsts(ReadTiles(lines[..k])) && ys == Seconds(ReadTiles(lines[..k]))
    {
      var line := lines[k];
      ReadTilesStep(lines, k);
      if |line| == 0 {
        continue;
      }
      var parts := Split(line, ',');
      if |parts| != 2 {
        continue;
      }
      var x := Atoi(parts[0]);
      if x.None? {
        continue;
      }
      var y := Atoi(parts[1]);
      if y.None? {
        continue;
      }
      assert ReadTile(line) == Some((x.value, y.value));
      TilesAppend(ReadTiles(lines[..k]), (x.value, y.value));
      xs := xs + [x.value];
      ys := ys + [y.value];
    }
    assert lines[..|lines|] == lines;
  }

  // ------------------------------------------------------------ the theater

  class MovieTheater {
    var TilesX: seq<int>
    var TilesY: seq<int>
    var ResultPart1: int
    var ResultPart2: int

    /** `Parse` appends to both lists together, so they have the same length. */
    ghost predicate Valid()
      reads this
    {
      |TilesX| == |TilesY|
    }

    /** `NewMovieTheater`. */
    constructor ()
      ensures Valid() && TilesX == [] && TilesY == []
      ensures ResultPart1 == 0 && ResultPart2 == 0
    {
      TilesX, TilesY := [], [];
      ResultPart1, ResultPart2 := 0, 0;
    }

    /** What `solve` leaves, from part results `r1` and `r2`: with fewer than two tiles
        nothing; otherwise what `SolvedFor` says of the tiles and the results. */
    ghost predicate Solved(r1: int, r2: int, xCoords: seq<int>, yCoords: seq<int>, boundary: array2?<bool>)
      requires Valid()
      reads this, boundary
    {
      if |TilesX| < 2 then ResultPart1 == r1 && ResultPart2 == r2
      else SolvedFor(TilesX, TilesY, r1, r2, ResultPart1, ResultPart2, xCoords, yCoords, boundary)
    }

    /** `buildCoordinateMaps`: the compressed axes and their index maps. */
    method BuildCoordinateMaps() returns (xCoords: seq<int>, yCoords: seq<int>,
                                          xIdx: map<int, int>, yIdx: map<int, int>)
      requires Valid() && |TilesX| > 0
      ensures IsAxis(TilesX, xCoords) && IsAxis(TilesY, yCoords)
      ensures IsIndex(xCoords, xIdx) && IsIndex(yCoords, yIdx)
    {
      var xs, ys := TilesX, TilesY;
      var xSet, minX, maxX, ySet, minY, maxY := ScanTiles(xs, ys);
      xSet := xSet + {minX - 1, maxX + 1};
      ySet := ySet + {minY - 1, maxY + 1};
      xCoords := SortedKeys(xSet);
      yCoords := SortedKeys(ySet);
      AxisOfKeys(xs, xSet, xCoords);
      AxisOfKeys(ys, ySet, yCoords);
      xIdx := PositionMap(xCoords);
      yIdx := PositionMap(yCoords);
    }

    /** `markBoundary`: a grid of the compressed cells, each marked exactly when it
        lies on a side of the polygon. */
    method MarkBoundary(xCoords: seq<int>, yCoords: seq<int>, xIdx: map<int, int>, yIdx: map<int, int>)
      returns (boundary: array2<bool>)
      requires Valid() && |TilesX| > 0
      requires IsIndex(xCoords, xIdx) && IsIndex(yCoords, yIdx)
      requires forall i :: 0 <= i < |TilesX| ==> TilesX[i] in xCoords && TilesY[i] in yCoords
      ensures fresh(boundary) && boundary.Length0 == |yCoords| && boundary.Length1 == |xCoords|
      ensures forall row, col :: 0 <= row < |yCoords| && 0 <= col < |xCoords| ==>
        (boundary[row, col] <==> OnSomeSegment(TilesX, TilesY, xCoords, yCoords, |TilesX|, col, row))
    {
      var n := |TilesX|;
      boundary := new bool[|yCoords|, |xCoords|]((_, _) => false);
      for i := 0 to n
        invariant forall row, col :: 0 <= row < |yCoords| && 0 <= col < |xCoords| ==>
          (boundary[row, col] <==> OnSomeSegment(TilesX, TilesY, xCoords, yCoords, i, col, row))
      {
        var x1, y1 := TilesX[i], TilesY[i];
        var x2, y2 := TilesX[(i + 1) % n], TilesY[(i + 1) % n];
        if x1 == x2 {
          var xi := Lookup(xIdx, x1);
          ghost var a := IndexOfValue(xCoords, xIdx, x1);
          MarkColumn(boundary, yCoords, yIdx, xi, Min(y1, y2), Max(y1, y2));
        } else {
          var yi := Lookup(yIdx, y1);
          ghost var a := IndexOfValue(yCoords, yIdx, y1);
          MarkRow(boundary, xCoords, xIdx, yi, Min(x1, x2), Max(x1, x2));
        }
      }
    }

    /** `buildPolygonMap`: the compressed axes, the boundary grid and its flood fill
        from the corner. */
    method BuildPolygonMap() returns (outside: array2<bool>, xIdx: map<int, int>, yIdx: map<int, int>,
                                      ghost xCoords: seq<int>, ghost yCoords: seq<int>,
                                      ghost boundary: array2<bool>)
      requires Valid() && |TilesX| > 0
      ensures IsAxis(TilesX, xCoords) && IsAxis(TilesY, yCoords)
      ensures IsIndex(xCoords, xIdx) && IsIndex(yCoords, yIdx)
      ensures fresh(boundary) && boundary.Length0 == |yCoords| && boundary.Length1 == |xCoords|
      ensures forall row, col :: 0 <= row < |yCoords| && 0 <= col < |xCoords| ==>
        (boundary[row, col] <==> OnSomeSegment(TilesX, TilesY, xCoords, yCoords, |TilesX|, col, row))
      ensures fresh(outside) && outside.Length0 == |yCoords| && outside.Length1 == |xCoords|
      ensures forall row, col :: 0 <= row < |yCoords| && 0 <= col < |xCoords| ==>
        (outside[row, col] <==> Reachable(boundary, Cell(col, row)))
    {
      var xc, yc;
      xc, yc, xIdx, yIdx := BuildCoordinateMaps();
      OnAxis(TilesX, xc);
      OnAxis(TilesY, yc);
      AxisEnds(TilesX, xc);
      AxisEnds(TilesY, yc);
      var b := MarkBoundary(xc, yc, xIdx, yIdx);
      ghost var pops;
      outside, pops := FloodFillOutside(b, |xc|, |yc|);
      xCoords, yCoords, boundary := xc, yc, b;
    }

    /** `solve`: with at least two tiles, the polygon map and then every pair. */
    method Solve() returns (ghost xCoords: seq<int>, ghost yCoords: seq<int>, ghost boundary: array2?<bool>)
      requires Valid()
      modifies this
      ensures Valid() && TilesX == old(TilesX) && TilesY == old(TilesY)
      ensures Solved(old(ResultPart1), old(ResultPart2), xCoords, yCoords, boundary)
      ensures |TilesX| >= 2 ==> fresh(boundary)
    {
      var n := |TilesX|;
      if n < 2 {
        return [], [], null;
      }
      var outside, xIdx, yIdx, xc, yc, b := BuildPolygonMap();
      var xs, ys, r1, r2 := TilesX, TilesY, ResultPart1, ResultPart2;
      GridOfAxes(outside, xc, yc, xIdx, yIdx, xs, ys);
      var best1, best2 := SearchPairs(xs, ys, outside, xIdx, yIdx, r1, r2);
      PairsBest(b, outside, xc, yc, xIdx, yIdx, xs, ys, r1, r2, best1, best2);
      ResultPart1, ResultPart2 := best1, best2;
      xCoords, yCoords, boundary := xc, yc, b;
    }

    /** `Parse`: a tile from every line that holds one, appended in order, then
        `solve` over all the tiles held. */
    method Parse(lines: seq<string>) returns (ghost xCoords: seq<int>, ghost yCoords: seq<int>,
                                              ghost boundary: array2?<bool>)
      requires Valid()
      modifies this
      ensures Valid()
      ensures TilesX == old(TilesX) + Firsts(ReadTiles(lines))
      ensures TilesY == old(TilesY) + Seconds(ReadTiles(lines))
      ensures Solved(old(ResultPart1), old(ResultPart2), xCoords, yCoords, boundary)
      ensures |TilesX| >= 2 ==> fresh(boundary)
    {
      var xs, ys := ReadLines(lines);
      TilesX := TilesX + xs;
      TilesY := TilesY + ys;
      xCoords, yCoords, boundary := Solve();
    }
  }

  /** Part 1 `best1` is the best area over every pair of tiles, from `r1`, and part 2
      `best2` the best over the pairs whose rectangle lies inside the polygon, from
      `r2`, decided on `boundary`, the compressed grid with the sides of the polygon
      marked. */
  ghost predicate SolvedFor(xs: seq<int>, ys: seq<int>, r1: int, r2: int, best1: int, best2: int,
                            xCoords: seq<int>, yCoords: seq<int>, boundary: array2?<bool>)
    requires |xs| == |ys| && |xs| > 0
    reads boundary
  {
    IsBest(xs, ys, r1, best1) &&
    IsAxis(xs, xCoords) && IsAxis(ys, yCoords) &&
    boundary != null && boundary.Length0 == |yCoords| && boundary.Length1 == |xCoords| &&
    (forall row, col :: 0 <= row < |yCoords| && 0 <= col < |xCoords| ==>
      (boundary[row, col] <==> OnSomeSegment(xs, ys, xCoords, yCoords, |xs|, col, row))) &&
    IsBestClear(boundary, xCoords, yCoords, xs, ys, r2, best2)
  }

  /** The grid over two compressed axes suits `isInsidePolygon`. */
  lemma GridOfAxes(outside: array2<bool>, xCoords: seq<int>, yCoords: seq<int>,
                   xIdx: map<int, int>, yIdx: map<int, int>, xs: seq<int>, ys: seq<int>)
    requires |xs| > 0 && |ys| > 0 && IsAxis(xs, xCoords) && IsAxis(ys, yCoords)
    requires IsIndex(xCoords, xIdx) && IsIndex(yCoords, yIdx)
    requires outside.Length0 == |yCoords| && outside.Length1 == |xCoords|
    ensures GridFor(outside, xIdx, yIdx)
  {
    IndexIsWithin(xCoords, xIdx);
    IndexIsWithin(yCoords, yIdx);
    AxisEnds(xs, xCoords);
    AxisEnds(ys, yCoords);
  }

  /** What `SearchPairs` finds on the flooded grid is the best area over all pairs
      and the best over the pairs whose rectangle is clear of the outside. */
  lemma PairsBest(boundary: array2<bool>, outside: array2<bool>, xCoords: seq<int>, yCoords: seq<int>,
                  xIdx: map<int, int>, yIdx: map<int, int>, xs: seq<int>, ys: seq<int>,
                  r1: int, r2: int, best1: int, best2: int)
    requires |xs| == |ys| && |xs| > 0 && IsAxis(xs, xCoords) && IsAxis(ys, yCoords)
    requires IsIndex(xCoords, xIdx) && IsIndex(yCoords, yIdx)
    requires boundary.Length0 == |yCoords| && boundary.Length1 == |xCoords|
    requires forall row, col :: 0 <= row < |yCoords| && 0 <= col < |xCoords| ==>
      (boundary[row, col] <==> OnSomeSegment(xs, ys, xCoords, yCoords, |xs|, col, row))
    requires outside.Length0 == |yCoords| && outside.Length1 == |xCoords|
    requires forall row, col :: 0 <= row < |yCoords| && 0 <= col < |xCoords| ==>
      (outside[row, col] <==> Reachable(boundary, Cell(col, row)))
    requires r1 <= best1 && forall i, j :: 0 <= i < j < |xs| ==> PairArea(xs, ys, i, j) <= best1
    requires best1 == r1 || exists i, j :: 0 <= i < j < |xs| && best1 == PairArea(xs, ys, i, j)
    requires r2 <= best2
    requires forall i, j :: 0 <= i < j < |xs| && PairInside(outside, xIdx, yIdx, xs, ys, i, j) ==>
      PairArea(xs, ys, i, j) <= best2
    requires best2 == r2 ||
      exists i, j :: 0 <= i < j < |xs| && PairInside(outside, xIdx, yIdx, xs, ys, i, j) &&
        best2 == PairArea(xs, ys, i, j)
    ensures SolvedFor(xs, ys, r1, r2, best1, best2, xCoords, yCoords, boundary)
  {
    PairsClear(boundary, outside, xCoords, yCoords, xIdx, yIdx, xs, ys);
  }

  /** `PairInsideClear` for every pair of tiles. */
  lemma PairsClear(boundary: array2<bool>, outside: array2<bool>, xCoords: seq<int>, yCoords: seq<int>,
                   xIdx: map<int, int>, yIdx: map<int, int>, xs: seq<int>, ys: seq<int>)
    requires |xs| == |ys| && |xs| > 0 && IsAxis(xs, xCoords) && IsAxis(ys, yCoords)
    requires IsIndex(xCoords, xIdx) && IsIndex(yCoords, yIdx)
    requires outside.Length0 == |yCoords| && outside.Length1 == |xCoords|
    requires forall row, col :: 0 <= row < |yCoords| && 0 <= col < |xCoords| ==>
      (outside[row, col] <==> Reachable(boundary, Cell(col, row)))
    ensures forall i, j :: 0 <= i < j < |xs| ==>
      (PairInside(outside, xIdx, yIdx, xs, ys, i, j) <==> RectClear(boundary, xCoords, yCoords, xs, ys, i, j))
  {
    OnAxis(xs, xCoords);
    OnAxis(ys, yCoords);
    forall i, j | 0 <= i < j < |xs|
      ensures PairInside(outside, xIdx, yIdx, xs, ys, i, j) <==> RectClear(boundary, xCoords, yCoords, xs, ys, i, j)
    {
      PairInsideClear(boundary, outside, xCoords, yCoords, xIdx, yIdx, xs, ys, i, j);
    }
  }
}
