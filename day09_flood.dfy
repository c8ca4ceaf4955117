// The flood fill of day 9: on the compressed grid, the cells reachable from the corner
// (0, 0) through 4-adjacent cells that are not on the polygon's boundary.
module Flood {

  /** A cell of the compressed grid: column `x`, row `y`. */
  datatype Cell = Cell(x: int, y: int)

  /** The four directions of `floodFillOutside`, in its order: left, right, up, down. */
  function Dx(d: nat): int
    requires d < 4
  {
    if d == 0 then -1 else if d == 1 then 1 else 0
  }

  function Dy(d: nat): int
    requires d < 4
  {
    if d == 2 then -1 else if d == 3 then 1 else 0
  }

  function Move(c: Cell, d: nat): Cell
    requires d < 4
  {
    Cell(c.x + Dx(d), c.y + Dy(d))
  }

  /** Two cells share a side. */
  predicate Adjacent(a: Cell, b: Cell)
  {
    (a.x == b.x && (b.y == a.y - 1 || b.y == a.y + 1)) ||
    (a.y == b.y && (b.x == a.x - 1 || b.x == a.x + 1))
  }

  /** Each move goes to a neighbour, and every neighbour is a move. */
  lemma MoveAdjacent(c: Cell, d: nat)
    requires d < 4
    ensures Adjacent(c, Move(c, d))
  {
  }

  lemma AdjacentMove(a: Cell, b: Cell) returns (d: nat)
    requires Adjacent(a, b)
    ensures d < 4 && b == Move(a, d)
  {
    if b.x == a.x - 1 {
      d := 0;
    } else if b.x == a.x + 1 {
      d := 1;
    } else if b.y == a.y - 1 {
      d := 2;
    } else {
      d := 3;
    }
  }

  predicate InGrid(c: Cell, width: int, height: int)
  {
    0 <= c.x < width && 0 <= c.y < height
  }

  /** A cell of the grid that is not on the boundary. */
  predicate Open(boundary: array2<bool>, c: Cell)
    reads boundary
  {
    InGrid(c, boundary.Length1, boundary.Length0) && !boundary[c.y, c.x]
  }

  /** A walk from the corner (0, 0), each later cell open and next to the one before. */
  ghost predicate IsWalk(boundary: array2<bool>, p: seq<Cell>)
    reads boundary
  {
    |p| > 0 && p[0] == Cell(0, 0) &&
    forall t :: 0 < t < |p| ==> Open(boundary, p[t]) && Adjacent(p[t - 1], p[t])
  }

  /** A cell some walk from the corner ends at. */
  ghost predicate Reachable(boundary: array2<bool>, c: Cell)
    reads boundary
  {
    exists p :: IsWalk(boundary, p) && p[|p| - 1] == c
  }

  lemma CornerReachable(boundary: array2<bool>)
    ensures Reachable(boundary, Cell(0, 0))
  {
    assert IsWalk(boundary, [Cell(0, 0)]);
  }

  /** A walk to a cell goes on to an open neighbour. */
  lemma ReachStep(boundary: array2<bool>, c: Cell, n: Cell)
    requires Reachable(boundary, c) && Open(boundary, n) && Adjacent(c, n)
    ensures Reachable(boundary, n)
  {
    var p :| IsWalk(boundary, p) && p[|p| - 1] == c;
    var q := p + [n];
    forall t | 0 < t < |q| ensures Open(boundary, q[t]) && Adjacent(q[t - 1], q[t]) {
      if t < |p| {
        assert q[t] == p[t] && q[t - 1] == p[t - 1];
      }
    }
    assert IsWalk(boundary, q);
  }

  /** Every reachable cell other than the corner is open: no boundary cell is outside,
      except possibly the corner itself. */
  lemma ReachableOpen(boundary: array2<bool>, c: Cell)
    requires Reachable(boundary, c) && c != Cell(0, 0)
    ensures Open(boundary, c)
  {
    var p :| IsWalk(boundary, p) && p[|p| - 1] == c;
  }

  /** Every open neighbour of `c` has been seen. */
  ghost predicate Expanded(boundary: array2<bool>, seen: set<Cell>, c: Cell)
    reads boundary
  {
    forall d :: 0 <= d < 4 && Open(boundary, Move(c, d)) ==> Move(c, d) in seen
  }

  /** A set holding the corner and every open neighbour of its cells holds every cell
      a walk reaches. */
  lemma {:induction false} WalkInSeen(boundary: array2<bool>, seen: set<Cell>, p: seq<Cell>)
    requires IsWalk(boundary, p) && Cell(0, 0) in seen
    requires forall c {:trigger Expanded(boundary, seen, c)} :: c in seen ==> Expanded(boundary, seen, c)
    ensures p[|p| - 1] in seen
  {
    if |p| > 1 {
      var init := p[..|p| - 1];
      forall t | 0 < t < |init| ensures Open(boundary, init[t]) && Adjacent(init[t - 1], init[t]) {
        assert init[t] == p[t] && init[t - 1] == p[t - 1];
      }
      WalkInSeen(boundary, seen, init);
      var d := AdjacentMove(p[|p| - 2], p[|p| - 1]);
      assert Expanded(boundary, seen, p[|p| - 2]);
    }
  }

  /** `outside` marks exactly the cells of `seen`, all of them in the grid. */
  ghost predicate Marks(outside: array2<bool>, seen: set<Cell>)
    reads outside
  {
    (forall c :: c in seen ==> InGrid(c, outside.Length1, outside.Length0)) &&
    forall y, x :: 0 <= y < outside.Length0 && 0 <= x < outside.Length1 ==>
      (outside[y, x] <==> Cell(x, y) in seen)
  }

  ghost function AllCells(width: int, height: int): set<Cell>
  {
    set x, y | 0 <= x < width && 0 <= y < height :: Cell(x, y)
  }

  /** The state of the BFS between two queue pops: the corner is seen, every seen cell
      is reachable, and either still queued or expanded. */
  ghost predicate Explored(boundary: array2<bool>, seen: set<Cell>, queue: seq<Cell>)
    reads boundary
  {
    Cell(0, 0) in seen &&
    (forall c {:trigger Reachable(boundary, c)} :: c in seen ==> Reachable(boundary, c)) &&
    (forall t :: 0 <= t < |queue| ==> queue[t] in seen) &&
    (forall c {:trigger Expanded(boundary, seen, c)} :: c in seen ==> c in queue || Expanded(boundary, seen, c))
  }

  /** The state while the neighbours of `cur` are visited: as `Explored`, except that
      `cur` has been popped and only its first `d` neighbours are done. */
  ghost predicate Scanning(boundary: array2<bool>, seen: set<Cell>, queue: seq<Cell>, cur: Cell, d: nat)
    reads boundary
  {
    d <= 4 && Cell(0, 0) in seen && cur in seen &&
    (forall c {:trigger Reachable(boundary, c)} :: c in seen ==> Reachable(boundary, c)) &&
    (forall t :: 0 <= t < |queue| ==> queue[t] in seen) &&
    (forall c {:trigger Expanded(boundary, seen, c)} :: c in seen ==> c == cur || c in queue || Expanded(boundary, seen, c)) &&
    (forall e :: 0 <= e < d && Open(boundary, Move(cur, e)) ==> Move(cur, e) in seen)
  }

  lemma PopStep(boundary: array2<bool>, seen: set<Cell>, queue: seq<Cell>)
    requires Explored(boundary, seen, queue) && |queue| > 0
    ensures Scanning(boundary, seen, queue[1..], queue[0], 0)
  {
    forall c | c in seen ensures c == queue[0] || c in queue[1..] || Expanded(boundary, seen, c) {
      if c in queue && c != queue[0] {
        var t :| 0 <= t < |queue| && queue[t] == c;
        assert queue[1..][t - 1] == c;
      }
    }
  }

  /** A neighbour off the grid, on the boundary or already seen changes nothing. */
  lemma SkipStep(boundary: array2<bool>, seen: set<Cell>, queue: seq<Cell>, cur: Cell, d: nat)
    requires Scanning(boundary, seen, queue, cur, d) && d < 4
    requires !Open(boundary, Move(cur, d)) || Move(cur, d) in seen
    ensures Scanning(boundary, seen, queue, cur, d + 1)
  {
  }

  /** An open neighbour not seen yet is seen and queued. */
  lemma AddStep(boundary: array2<bool>, seen: set<Cell>, queue: seq<Cell>, cur: Cell, d: nat)
    requires Scanning(boundary, seen, queue, cur, d) && d < 4
    requires Open(boundary, Move(cur, d)) && Move(cur, d) !in seen
    ensures Scanning(boundary, seen + {Move(cur, d)}, queue + [Move(cur, d)], cur, d + 1)
  {
    var n := Move(cur, d);
    var seen', queue' := seen + {n}, queue + [n];
    MoveAdjacent(cur, d);
    ReachStep(boundary, cur, n);
    forall c | c in seen' ensures c == cur || c in queue' || Expanded(boundary, seen', c) {
      if c != n && c != cur && c !in queue {
        assert Expanded(boundary, seen, c);
      }
    }
    forall t | 0 <= t < |queue'| ensures queue'[t] in seen' {
      if t < |queue| {
        assert queue'[t] == queue[t];
      }
    }
  }

  lemma ScanDone(boundary: array2<bool>, seen: set<Cell>, queue: seq<Cell>, cur: Cell)
    requires Scanning(boundary, seen, queue, cur, 4)
    ensures Explored(boundary, seen, queue)
  {
    assert Expanded(boundary, seen, cur);
  }

  /** Seeing more cells of the grid leaves fewer unseen. */
  lemma Shrinks(seen0: set<Cell>, seen: set<Cell>, width: int, height: int)
    requires seen0 <= seen && seen != seen0
    requires forall c :: c in seen ==> InGrid(c, width, height)
    ensures AllCells(width, height) - seen < AllCells(width, height) - seen0
  {
    var all := AllCells(width, height);
    var c :| c in seen && c !in seen0;
    assert c in all - seen0 && c !in all - seen;
    forall e | e in all - seen ensures e in all - seen0 { }
  }

  ghost function RowCells(width: int, y: int): set<Cell>
  {
    set x | 0 <= x < width :: Cell(x, y)
  }

  lemma {:induction false} RowCellsCount(width: nat, y: int)
    ensures |RowCells(width, y)| == width
  {
    if width > 0 {
      RowCellsCount(width - 1, y);
      assert RowCells(width, y) == RowCells(width - 1, y) + {Cell(width - 1, y)};
    }
  }

  /** The grid has width times height cells. */
  lemma {:induction false} AllCellsCount(width: nat, height: nat)
    ensures |AllCells(width, height)| == width * height
  {
    if height > 0 {
      AllCellsCount(width, height - 1);
      RowCellsCount(width, height - 1);
      var below, row := AllCells(width, height - 1), RowCells(width, height - 1);
      AllCellsSplit(width, height);
      assert below * row == {} by {
        forall c | c in row ensures c !in below {
          assert c.y == height - 1;
        }
      }
      assert |below + row| == |below| + |row|;
      assert width * (height - 1) + width == width * height;
    }
  }

  lemma AllCellsSplit(width: nat, height: nat)
    requires height > 0
    ensures AllCells(width, height) == AllCells(width, height - 1) + RowCells(width, height - 1)
  {
    var all, below, row := AllCells(width, height), AllCells(width, height - 1), RowCells(width, height - 1);
    forall c | c in all ensures c in below + row {
      if c.y < height - 1 {
        assert c in below;
      } else {
        assert c in row;
      }
    }
  }

  /** Cells of the grid, each counted once, number at most width times height. */
  lemma SeenBound(seen: set<Cell>, width: nat, height: nat)
    requires forall c :: c in seen ==> InGrid(c, width, height)
    ensures |seen| <= width * height
  {
    var all := AllCells(width, height);
    forall c | c in seen ensures c in all {
      assert c == Cell(c.x, c.y);
    }
    assert all == seen + (all - seen);
    AllCellsCount(width, height);
  }

  /** With the queue empty, the seen cells are exactly the reachable ones. */
  lemma FillComplete(boundary: array2<bool>, seen: set<Cell>, queue: seq<Cell>)
    requires Explored(boundary, seen, queue) && |queue| == 0
    ensures forall c :: c in seen <==> Reachable(boundary, c)
  {
    forall c | Reachable(boundary, c) ensures c in seen {
      var p :| IsWalk(boundary, p) && p[|p| - 1] == c;
      WalkInSeen(boundary, seen, p);
    }
  }

  /** The write of `floodFillOutside`: one more cell marked outside. */
  method Mark(outside: array2<bool>, ghost seen: set<Cell>, c: Cell)
    requires Marks(outside, seen) && InGrid(c, outside.Length1, outside.Length0)
    modifies outside
    ensures Marks(outside, seen + {c})
  {
    outside[c.y, c.x] := true;
  }

  /** One pass of the inner loop of `floodFillOutside`: the neighbour of `cur` in
      direction `d`, when in the grid and neither outside yet nor on the boundary, is
      marked and queued. */
  method VisitNeighbor(boundary: array2<bool>, outside: array2<bool>, width: nat, height: nat,
                       cur: Cell, d: nat, queue: seq<Cell>, ghost seen: set<Cell>)
    returns (queue': seq<Cell>, ghost seen': set<Cell>)
    requires boundary.Length0 == height && boundary.Length1 == width && outside != boundary
    requires outside.Length0 == height && outside.Length1 == width
    requires d < 4 && Marks(outside, seen) && Scanning(boundary, seen, queue, cur, d)
    modifies outside
    ensures Marks(outside, seen') && Scanning(boundary, seen', queue', cur, d + 1)
    ensures (seen' == seen && queue' == queue) ||
      (seen' == seen + {Move(cur, d)} && Move(cur, d) !in seen && queue' == queue + [Move(cur, d)])
  {
    var nx, ny := cur.x + Dx(d), cur.y + Dy(d);
    if nx < 0 || nx >= width || ny < 0 || ny >= height {
      SkipStep(boundary, seen, queue, cur, d);
      queue', seen' := queue, seen;
    } else if outside[ny, nx] || boundary[ny, nx] {
      SkipStep(boundary, seen, queue, cur, d);
      queue', seen' := queue, seen;
    } else {
      AddStep(boundary, seen, queue, cur, d);
      Mark(outside, seen, Cell(nx, ny));
      queue' := queue + [Cell(nx, ny)];
      seen' := seen + {Cell(nx, ny)};
    }
  }

  /** The inner loop of `floodFillOutside` over the four directions. */
  method VisitNeighbors(boundary: array2<bool>, outside: array2<bool>, width: nat, height: nat,
                        cur: Cell, queue: seq<Cell>, ghost seen: set<Cell>)
    returns (queue': seq<Cell>, ghost seen': set<Cell>)
    requires boundary.Length0 == height && boundary.Length1 == width && outside != boundary
    requires outside.Length0 == height && outside.Length1 == width
    requires Marks(outside, seen) && Scanning(boundary, seen, queue, cur, 0)
    modifies outside
    ensures Marks(outside, seen') && Explored(boundary, seen', queue')
    ensures seen <= seen' && (seen' == seen ==> queue' == queue)
    ensures |queue'| - |queue| == |seen'| - |seen|
  {
    queue', seen' := queue, seen;
    var d := 0;
    while d < 4
      invariant 0 <= d <= 4
      invariant Marks(outside, seen') && Scanning(boundary, seen', queue', cur, d)
      invariant seen <= seen' && (seen' == seen ==> queue' == queue)
      invariant |queue'| - |queue| == |seen'| - |seen|
    {
      queue', seen' := VisitNeighbor(boundary, outside, width, height, cur, d, queue', seen');
      d := d + 1;
    }
    ScanDone(boundary, seen', queue', cur);
  }

  /** `floodFillOutside`: a breadth-first search from (0, 0), which is marked first
      whatever the boundary says there. A cell ends up outside exactly when it is
      reachable from the corner. */
  method FloodFillOutside(boundary: array2<bool>, width: nat, height: nat)
    returns (outside: array2<bool>, ghost pops: nat)
    requires boundary.Length0 == height && boundary.Length1 == width && width > 0 && height > 0
    ensures fresh(outside) && outside.Length0 == height && outside.Length1 == width
    ensures forall y, x :: 0 <= y < height && 0 <= x < width ==>
      (outside[y, x] <==> Reachable(boundary, Cell(x, y)))
    ensures pops <= width * height
  {
    outside := new bool[height, width]((_, _) => false);
    var queue := [Cell(0, 0)];
    Mark(outside, {}, Cell(0, 0));
    ghost var seen := {Cell(0, 0)};
    pops := 0;
    CornerReachable(boundary);
    while |queue| > 0
      invariant fresh(outside) && outside.Length0 == height && outside.Length1 == width
      invariant Marks(outside, seen) && Explored(boundary, seen, queue)
      invariant pops + |queue| == |seen|
      decreases AllCells(width, height) - seen, |queue|
    {
      ghost var seen0, queue0 := seen, queue[1..];
      PopStep(boundary, seen, queue);
      var cur := queue[0];
      queue := queue[1..];
      queue, seen := VisitNeighbors(boundary, outside, width, height, cur, queue, seen);
      pops := pops + 1;
      if seen != seen0 {
        Shrinks(seen0, seen, width, height);
      }
    }
    FillComplete(boundary, seen, queue);
    SeenBound(seen, width, height);
  }
}
