/**
 * Day 4: a grid of paper rolls ('@') stored row by row in one byte buffer.
 * A roll is accessible when fewer than 4 rolls sit at the positions a 3x3
 * kernel enables around it.  Part 1 counts the accessible rolls; part 2
 * repeatedly removes every accessible roll at once until none is left
 * accessible, counting the removals.
 */
module Day04 {

  // ---------------------------------------------------------- arithmetic

  lemma MulMonotone(a: nat, b: nat, c: nat)
    requires a <= b
    ensures c * a <= c * b
  {
  }

  /** Cell (x, y) of a W x H grid stored row by row is at W*y + x, inside the buffer. */
  lemma CellIndex(w: nat, h: nat, x: nat, y: nat)
    requires x < w && y < h
    ensures w * y + x < w * h
  {
    MulMonotone(y + 1, h, w);
    assert w * (y + 1) == w * y + w;
  }

  /** The next row starts right after the current one. */
  lemma RowEnd(w: nat, y: nat)
    ensures w * y + w == w * (y + 1)
  {
  }

  /** Row and column are recovered from a buffer index by division. */
  lemma DivModCell(w: nat, x: nat, y: nat)
    requires x < w
    ensures (w * y + x) / w == y && (w * y + x) % w == x
  {
    var i := w * y + x;
    var q, r := i / w, i % w;
    assert w * q + r == w * y + x;
    assert w * (q - y) == x - r by {
      assert w * q - w * y == w * (q - y);
    }
    if q - y >= 1 {
      assert false;
    } else if q - y <= -1 {
      assert false;
    }
  }

  // ----------------------------------------------------- the kernel count

  /** The 3x3 kernel `NewPrintDept` installs: every neighbour, not the centre. */
  const DefaultKernel: seq<int> := [1, 1, 1, 1, 0, 1, 1, 1, 1]

  /** The grid and kernel shapes `PrintDept` keeps consistent. */
  predicate WellFormed(g: seq<char>, w: nat, h: nat, kernel: seq<int>, ks: nat)
  {
    |g| == w * h && |kernel| == ks * ks
  }

  /** Entry (ky, kx) of a ks x ks kernel is inside the kernel slice. */
  lemma KernelIndex(ks: nat, ky: nat, kx: nat)
    requires ky < ks && kx < ks
    ensures ky * ks + kx < ks * ks
  {
    MulMonotone(ky + 1, ks, ks);
    assert ks * (ky + 1) == ky * ks + ks;
  }

  /** A roll lies at (nx, ny), which is inside the grid. */
  predicate RollAt(g: seq<char>, w: nat, h: nat, nx: int, ny: int)
    requires |g| == w * h
  {
    0 <= nx < w && 0 <= ny < h &&
    (CellIndex(w, h, nx, ny); g[w * ny + nx] == '@')
  }

  /** Kernel entry (ky, kx) is enabled and the cell it points at from (x, y) holds a roll. */
  predicate Hit(g: seq<char>, w: nat, h: nat, kernel: seq<int>, ks: nat, x: int, y: int, ky: nat, kx: nat)
    requires WellFormed(g, w, h, kernel, ks) && ky < ks && kx < ks
  {
    KernelIndex(ks, ky, kx);
    kernel[ky * ks + kx] != 0 && RollAt(g, w, h, x + kx - ks / 2, y + ky - ks / 2)
  }

  /** Hits in kernel row `ky` at columns below `kx`. */
  function RowHits(g: seq<char>, w: nat, h: nat, kernel: seq<int>, ks: nat, x: int, y: int, ky: nat, kx: nat): nat
    requires WellFormed(g, w, h, kernel, ks) && ky < ks && kx <= ks
  {
    if kx == 0 then 0
    else RowHits(g, w, h, kernel, ks, x, y, ky, kx - 1) + (if Hit(g, w, h, kernel, ks, x, y, ky, kx - 1) then 1 else 0)
  }

  /** Hits in the kernel rows below `ky`. */
  function KernelHits(g: seq<char>, w: nat, h: nat, kernel: seq<int>, ks: nat, x: int, y: int, ky: nat): nat
    requires WellFormed(g, w, h, kernel, ks) && ky <= ks
  {
    if ky == 0 then 0
    else KernelHits(g, w, h, kernel, ks, x, y, ky - 1) + RowHits(g, w, h, kernel, ks, x, y, ky - 1, ks)
  }

  /** `getNeighborCount(x, y)`: the rolls at the kernel's enabled offsets around (x, y). */
  function NeighborCount(g: seq<char>, w: nat, h: nat, kernel: seq<int>, ks: nat, x: int, y: int): nat
    requires WellFormed(g, w, h, kernel, ks)
  {
    KernelHits(g, w, h, kernel, ks, x, y, ks)
  }

  /** The number of enabled (non-zero) kernel entries. */
  function Enabled(kernel: seq<int>): nat
  {
    if |kernel| == 0 then 0 else Enabled(kernel[..|kernel| - 1]) + (if kernel[|kernel| - 1] != 0 then 1 else 0)
  }

  lemma EnabledStep(kernel: seq<int>, t: nat)
    requires t < |kernel|
    ensures Enabled(kernel[..t + 1]) == Enabled(kernel[..t]) + (if kernel[t] != 0 then 1 else 0)
  {
    assert kernel[..t + 1][..t] == kernel[..t];
  }

  /** The hits counted so far never exceed the enabled entries scanned so far. */
  lemma {:induction false} HitsBounded(g: seq<char>, w: nat, h: nat, kernel: seq<int>, ks: nat, x: int, y: int, ky: nat, kx: nat)
    requires WellFormed(g, w, h, kernel, ks) && ky < ks && kx <= ks
    ensures ky * ks + kx <= |kernel|
    ensures KernelHits(g, w, h, kernel, ks, x, y, ky) + RowHits(g, w, h, kernel, ks, x, y, ky, kx)
      <= Enabled(kernel[..ky * ks + kx])
    decreases ky, kx
  {
    if kx > 0 {
      HitsBounded(g, w, h, kernel, ks, x, y, ky, kx - 1);
      KernelIndex(ks, ky, kx - 1);
      EnabledStep(kernel, ky * ks + kx - 1);
    } else if ky > 0 {
      HitsBounded(g, w, h, kernel, ks, x, y, ky - 1, ks);
      assert (ky - 1) * ks + ks == ky * ks;
    } else {
      MulMonotone(0, ks, ks);
    }
  }

  /** A roll never has more neighbours than the kernel has enabled entries. */
  lemma NeighborCountBound(g: seq<char>, w: nat, h: nat, kernel: seq<int>, ks: nat, x: int, y: int)
    requires WellFormed(g, w, h, kernel, ks)
    ensures NeighborCount(g, w, h, kernel, ks, x, y) <= Enabled(kernel)
  {
    if ks > 0 {
      HitsBounded(g, w, h, kernel, ks, x, y, ks - 1, ks);
      assert (ks - 1) * ks + ks == ks * ks;
      assert kernel[..ks * ks] == kernel;
    }
  }

  /** With the default kernel a cell has between 0 and 8 neighbouring rolls. */
  lemma DefaultNeighborCountBound(g: seq<char>, w: nat, h: nat, x: int, y: int)
    requires |g| == w * h
    ensures NeighborCount(g, w, h, DefaultKernel, 3, x, y) <= 8
  {
    NeighborCountBound(g, w, h, DefaultKernel, 3, x, y);
    var k := DefaultKernel;
    assert k[..0] == [];
    EnabledStep(k, 0); EnabledStep(k, 1); EnabledStep(k, 2);
    EnabledStep(k, 3); EnabledStep(k, 4); EnabledStep(k, 5);
    EnabledStep(k, 6); EnabledStep(k, 7); EnabledStep(k, 8);
    assert k[..9] == k;
  }

  // ------------------------------------------------------ accessibility

  /** Buffer index `i` holds a roll with fewer than 4 neighbouring rolls. */
  predicate Accessible(g: seq<char>, w: nat, h: nat, kernel: seq<int>, ks: nat, i: nat)
    requires WellFormed(g, w, h, kernel, ks)
  {
    i < |g| && g[i] == '@' && NeighborCount(g, w, h, kernel, ks, i % w, i / w) < 4
  }

  /** The accessible indices below `n`, in increasing order. */
  function AccessibleBelow(g: seq<char>, w: nat, h: nat, kernel: seq<int>, ks: nat, n: nat): (r: seq<nat>)
    requires WellFormed(g, w, h, kernel, ks)
    ensures forall i: nat :: i in r <==> i < n && Accessible(g, w, h, kernel, ks, i)
    ensures forall a, b :: 0 <= a < b < |r| ==> r[a] < r[b]
  {
    if n == 0 then []
    else
      var front := AccessibleBelow(g, w, h, kernel, ks, n - 1);
      assert forall a :: 0 <= a < |front| ==> front[a] in front;
      front + (if Accessible(g, w, h, kernel, ks, n - 1) then [n - 1] else [])
  }

  lemma AccessibleStep(g: seq<char>, w: nat, h: nat, kernel: seq<int>, ks: nat, n: nat)
    requires WellFormed(g, w, h, kernel, ks)
    ensures AccessibleBelow(g, w, h, kernel, ks, n + 1) ==
      AccessibleBelow(g, w, h, kernel, ks, n) + (if Accessible(g, w, h, kernel, ks, n) then [n] else [])
  {
  }

  /** The cell at column `x` and row `y` is accessible when it holds a roll with fewer
      than four rolls around it. */
  lemma AccessibleCell(g: seq<char>, w: nat, h: nat, kernel: seq<int>, ks: nat, x: nat, y: nat)
    requires WellFormed(g, w, h, kernel, ks) && x < w && y < h
    ensures w * y + x < |g|
    ensures Accessible(g, w, h, kernel, ks, w * y + x) <==>
      g[w * y + x] == '@' && NeighborCount(g, w, h, kernel, ks, x, y) < 4
  {
    CellIndex(w, h, x, y);
    DivModCell(w, x, y);
  }

  lemma CountStep(g: seq<char>, w: nat, h: nat, kernel: seq<int>, ks: nat, n: nat)
    requires WellFormed(g, w, h, kernel, ks)
    ensures CountAccessible(g, w, h, kernel, ks, n + 1) ==
      CountAccessible(g, w, h, kernel, ks, n) + (if Accessible(g, w, h, kernel, ks, n) then 1 else 0)
  {
  }

  /** The number of accessible indices below `n`. */
  function CountAccessible(g: seq<char>, w: nat, h: nat, kernel: seq<int>, ks: nat, n: nat): nat
    requires WellFormed(g, w, h, kernel, ks)
  {
    if n == 0 then 0
    else CountAccessible(g, w, h, kernel, ks, n - 1) + (if Accessible(g, w, h, kernel, ks, n - 1) then 1 else 0)
  }

  /** Part 1 and the removal rounds agree: the list of accessible positions is as long
      as the count of accessible rolls. */
  lemma {:induction false} AccessibleCountIsLength(g: seq<char>, w: nat, h: nat, kernel: seq<int>, ks: nat, n: nat)
    requires WellFormed(g, w, h, kernel, ks)
    ensures |AccessibleBelow(g, w, h, kernel, ks, n)| == CountAccessible(g, w, h, kernel, ks, n)
  {
    if n > 0 {
      AccessibleCountIsLength(g, w, h, kernel, ks, n - 1);
    }
  }

  /** The number of rolls in the grid. */
  function RollCount(g: seq<char>): nat
  {
    if |g| == 0 then 0 else RollCount(g[..|g| - 1]) + (if g[|g| - 1] == '@' then 1 else 0)
  }

  /** One removal round: every accessible roll, computed on the grid before the round,
      becomes '.'. */
  function RemoveRound(g: seq<char>, w: nat, h: nat, kernel: seq<int>, ks: nat): (r: seq<char>)
    requires WellFormed(g, w, h, kernel, ks)
    ensures |r| == |g|
    ensures forall i :: 0 <= i < |g| ==> r[i] == (if Accessible(g, w, h, kernel, ks, i) then '.' else g[i])
  {
    seq(|g|, i requires 0 <= i < |g| => if Accessible(g, w, h, kernel, ks, i) then '.' else g[i])
  }

  /** Counting rolls prefix by prefix: a round takes away exactly the accessible ones. */
  lemma {:induction false} RoundCountPrefix(g: seq<char>, w: nat, h: nat, kernel: seq<int>, ks: nat, r: seq<char>, n: nat)
    requires WellFormed(g, w, h, kernel, ks) && n <= |g| && r == RemoveRound(g, w, h, kernel, ks)
    ensures RollCount(r[..n]) + CountAccessible(g, w, h, kernel, ks, n) == RollCount(g[..n])
  {
    if n > 0 {
      RoundCountPrefix(g, w, h, kernel, ks, r, n - 1);
      assert r[..n][..n - 1] == r[..n - 1];
      assert g[..n][..n - 1] == g[..n - 1];
    }
  }

  /** A round removes exactly as many rolls as were accessible. */
  lemma RoundCount(g: seq<char>, w: nat, h: nat, kernel: seq<int>, ks: nat)
    requires WellFormed(g, w, h, kernel, ks)
    ensures RollCount(RemoveRound(g, w, h, kernel, ks)) + CountAccessible(g, w, h, kernel, ks, |g|) == RollCount(g)
  {
    var r := RemoveRound(g, w, h, kernel, ks);
    RoundCountPrefix(g, w, h, kernel, ks, r, |g|);
    assert r[..|g|] == r && g[..|g|] == g;
  }

  /** `removeAllAccessible`'s end state: rounds until no roll is accessible.  Only rolls
      change, each to '.', and no roll is left accessible. */
  function Fixpoint(g: seq<char>, w: nat, h: nat, kernel: seq<int>, ks: nat): (r: seq<char>)
    requires WellFormed(g, w, h, kernel, ks)
    ensures WellFormed(r, w, h, kernel, ks)
    ensures CountAccessible(r, w, h, kernel, ks, |r|) == 0
    ensures forall i :: 0 <= i < |g| ==> r[i] == g[i] || (g[i] == '@' && r[i] == '.')
    ensures RollCount(r) <= RollCount(g)
    decreases RollCount(g)
  {
    if CountAccessible(g, w, h, kernel, ks, |g|) == 0 then g
    else
      RoundCount(g, w, h, kernel, ks);
      Fixpoint(RemoveRound(g, w, h, kernel, ks), w, h, kernel, ks)
  }

  // ------------------------------------------------------------- parsing

  /** The zero bytes a fresh buffer holds. */
  function Zeros(k: nat): (z: seq<char>)
    ensures |z| == k && forall i :: 0 <= i < k ==> z[i] == 0 as char
  {
    seq(k, _ => 0 as char)
  }

  /** A line cut or padded with zero bytes to `w` cells. */
  function PadRow(line: string, w: nat): (r: seq<char>)
    ensures |r| == w
    ensures forall x :: 0 <= x < w ==> r[x] == (if x < |line| then line[x] else 0 as char)
  {
    seq(w, x requires 0 <= x < w => if x < |line| then line[x] else 0 as char)
  }

  /** The grid buffer `Parse` fills: the lines one after another, each cut or padded to `w`. */
  function GridOf(rows: seq<string>, w: nat): (g: seq<char>)
    ensures |g| == w * |rows|
  {
    if |rows| == 0 then []
    else
      var g := GridOf(rows[..|rows| - 1], w) + PadRow(rows[|rows| - 1], w);
      RowEnd(w, |rows| - 1);
      g
  }

  /** The non-empty lines, in order. */
  function NonEmptyLines(lines: seq<string>): (r: seq<string>)
    ensures forall k :: 0 <= k < |r| ==> |r[k]| > 0
    ensures |r| <= |lines|
  {
    if |lines| == 0 then []
    else NonEmptyLines(lines[..|lines| - 1]) + (if |lines[|lines| - 1]| == 0 then [] else [lines[|lines| - 1]])
  }

  lemma WriteCell(p: seq<char>, c: char, k: nat)
    ensures (p + Zeros(k + 1))[|p| := c] == (p + [c]) + Zeros(k)
    ensures (p + [0 as char]) + Zeros(k) == p + Zeros(k + 1)
  {
  }

  lemma PadRowStep(line: string, w: nat, x: nat)
    requires x < w
    ensures PadRow(line, w)[..x + 1] == PadRow(line, w)[..x] + [if x < |line| then line[x] else 0 as char]
  {
  }

  /** The inner loop of `removeAllAccessible`: sets every listed cell to '.'. */
  method ClearCells(grid: array<char>, positions: seq<nat>)
    requires forall k :: 0 <= k < |positions| ==> positions[k] < grid.Length
    modifies grid
    ensures forall i :: 0 <= i < grid.Length ==> grid[i] == (if i in positions then '.' else old(grid[i]))
  {
    var k := 0;
    while k < |positions|
      invariant 0 <= k <= |positions|
      invariant forall i :: 0 <= i < grid.Length ==> grid[i] == (if i in positions[..k] then '.' else old(grid[i]))
    {
      grid[positions[k]] := '.';
      assert positions[..k + 1] == positions[..k] + [positions[k]];
      k := k + 1;
    }
    assert positions[..k] == positions;
  }

  /** The fill loops of `Parse`: a zeroed buffer of `w` cells per row, with each row's
      first `w` characters copied in. */
  method FillGrid(rows: seq<string>, w: nat) returns (grid: array<char>)
    ensures fresh(grid)
    ensures grid[..] == GridOf(rows, w)
  {
    var h := |rows|;
    grid := new char[w * h](_ => 0 as char);
    var y := 0;
    while y < h
      invariant 0 <= y <= h
      invariant grid.Length == w * h
      invariant w * y <= w * h
      invariant grid[..] == GridOf(rows[..y], w) + Zeros(w * h - w * y)
    {
      var line := rows[y];
      MulMonotone(y + 1, h, w);
      RowEnd(w, y);
      CopyRow(grid, line, w, w * y, GridOf(rows[..y], w), w * h - w * y - w);
      GridOfStep(rows, w, y);
      y := y + 1;
    }
    assert rows[..h] == rows;
  }

  /** The inner loop of `Parse`: row `line` is written, cut or padded to `w` cells, into
      the zeroed cells from `base` on. */
  method CopyRow(grid: array<char>, line: string, w: nat, base: nat, ghost prefix: seq<char>, ghost rest: nat)
    requires base == |prefix| && grid[..] == prefix + Zeros(w + rest)
    modifies grid
    ensures grid[..] == prefix + PadRow(line, w) + Zeros(rest)
  {
    var x := 0;
    while x < w
      invariant 0 <= x <= w
      invariant grid[..] == prefix + PadRow(line, w)[..x] + Zeros(w + rest - x)
    {
      ghost var p := prefix + PadRow(line, w)[..x];
      PadRowStep(line, w, x);
      WriteCell(p, if x < |line| then line[x] else 0 as char, w + rest - x - 1);
      if x < |line| {
        grid[base + x] := line[x];
      }
      x := x + 1;
    }
    assert PadRow(line, w)[..w] == PadRow(line, w);
  }

  lemma GridOfStep(rows: seq<string>, w: nat, y: nat)
    requires y < |rows|
    ensures GridOf(rows[..y + 1], w) == GridOf(rows[..y], w) + PadRow(rows[y], w)
  {
    assert rows[..y + 1][..y] == rows[..y];
  }

  class PrintDept {
    var Grid: array<char>
    var Width: nat
    var Height: nat
    var Kernel: seq<int>
    var KernelSize: nat
    var AccessibleRolls: nat
    var TotalRemoved: nat

    /** The buffer holds Width x Height cells and the kernel is square. */
    ghost predicate Valid()
      reads this, Grid
    {
      WellFormed(Grid[..], Width, Height, Kernel, KernelSize)
    }

    /** `NewPrintDept`: an empty grid and the default 3x3 kernel. */
    constructor ()
      ensures Valid()
      ensures Kernel == DefaultKernel && KernelSize == 3
      ensures Width == 0 && Height == 0 && Grid.Length == 0
      ensures AccessibleRolls == 0 && TotalRemoved == 0
    {
      Grid := new char[0];
      Width, Height := 0, 0;
      Kernel, KernelSize := DefaultKernel, 3;
      AccessibleRolls, TotalRemoved := 0, 0;
    }

    /** `getNeighborCount(x, y)`: the rolls at the kernel's enabled offsets around (x, y). */
    method GetNeighborCount(x: int, y: int) returns (count: nat)
      requires Valid()
      ensures count == NeighborCount(Grid[..], Width, Height, Kernel, KernelSize, x, y)
    {
      ghost var g := Grid[..];
      count := 0;
      var halfK := KernelSize / 2;
      var ky := 0;
      while ky < KernelSize
        invariant 0 <= ky <= KernelSize
        invariant count == KernelHits(g, Width, Height, Kernel, KernelSize, x, y, ky)
      {
        var kx := 0;
        while kx < KernelSize
          invariant 0 <= kx <= KernelSize
          invariant count == KernelHits(g, Width, Height, Kernel, KernelSize, x, y, ky)
            + RowHits(g, Width, Height, Kernel, KernelSize, x, y, ky, kx)
        {
          KernelIndex(KernelSize, ky, kx);
          if Kernel[ky * KernelSize + kx] != 0 {
            var nx := x + kx - halfK;
            var ny := y + ky - halfK;
            if !(nx < 0 || nx >= Width || ny < 0 || ny >= Height) {
              CellIndex(Width, Height, nx, ny);
              if Grid[Width * ny + nx] == '@' {
                count := count + 1;
              }
            }
          }
          kx := kx + 1;
        }
        ky := ky + 1;
      }
    }

    /** `countAccessibleRolls`: the rolls with fewer than 4 neighbouring rolls. */
    method CountAccessibleRolls() returns (count: nat)
      requires Valid()
      ensures count == CountAccessible(Grid[..], Width, Height, Kernel, KernelSize, Grid.Length)
    {
      ghost var g := Grid[..];
      count := 0;
      var y := 0;
      while y < Height
        invariant 0 <= y <= Height
        invariant count == CountAccessible(g, Width, Height, Kernel, KernelSize, Width * y)
      {
        var x := 0;
        while x < Width
          invariant 0 <= x <= Width
          invariant count == CountAccessible(g, Width, Height, Kernel, KernelSize, Width * y + x)
        {
          AccessibleCell(g, Width, Height, Kernel, KernelSize, x, y);
          CountStep(g, Width, Height, Kernel, KernelSize, Width * y + x);
          var idx := Width * y + x;
          if Grid[idx] == '@' {
            var neighborCount := GetNeighborCount(x, y);
            if neighborCount < 4 {
              count := count + 1;
            }
          }
          x := x + 1;
        }
        RowEnd(Width, y);
        y := y + 1;
      }
    }

    /** `findAccessiblePositions`: the indices of the accessible rolls, in increasing order. */
    method FindAccessiblePositions() returns (positions: seq<nat>)
      requires Valid()
      ensures positions == AccessibleBelow(Grid[..], Width, Height, Kernel, KernelSize, Grid.Length)
    {
      ghost var g := Grid[..];
      positions := [];
      var y := 0;
      while y < Height
        invariant 0 <= y <= Height
        invariant positions == AccessibleBelow(g, Width, Height, Kernel, KernelSize, Width * y)
      {
        var x := 0;
        while x < Width
          invariant 0 <= x <= Width
          invariant positions == AccessibleBelow(g, Width, Height, Kernel, KernelSize, Width * y + x)
        {
          AccessibleCell(g, Width, Height, Kernel, KernelSize, x, y);
          AccessibleStep(g, Width, Height, Kernel, KernelSize, Width * y + x);
          var idx := Width * y + x;
          if Grid[idx] == '@' {
            var neighborCount := GetNeighborCount(x, y);
            if neighborCount < 4 {
              positions := positions + [idx];
            }
          }
          x := x + 1;
        }
        RowEnd(Width, y);
        y := y + 1;
      }
    }

    /** `removeAllAccessible`: removal rounds until no roll is accessible; every removed
        roll is added to `TotalRemoved`. */
    method RemoveAllAccessible()
      requires Valid()
      modifies this, Grid
      ensures Valid()
      ensures Grid == old(Grid) && Width == old(Width) && Height == old(Height)
      ensures Kernel == old(Kernel) && KernelSize == old(KernelSize) && AccessibleRolls == old(AccessibleRolls)
      ensures Grid[..] == Fixpoint(old(Grid[..]), Width, Height, Kernel, KernelSize)
      ensures TotalRemoved == old(TotalRemoved) + RollCount(old(Grid[..])) - RollCount(Grid[..])
    {
      ghost var g0 := Grid[..];
      while true
        invariant Valid()
        invariant Grid == old(Grid) && Width == old(Width) && Height == old(Height)
        invariant Kernel == old(Kernel) && KernelSize == old(KernelSize) && AccessibleRolls == old(AccessibleRolls)
        invariant Fixpoint(Grid[..], Width, Height, Kernel, KernelSize) == Fixpoint(g0, Width, Height, Kernel, KernelSize)
        invariant RollCount(Grid[..]) <= RollCount(g0)
        invariant TotalRemoved == old(TotalRemoved) + RollCount(g0) - RollCount(Grid[..])
        decreases RollCount(Grid[..])
      {
        var toRemove := FindAccessiblePositions();
        ghost var g := Grid[..];
        AccessibleCountIsLength(g, Width, Height, Kernel, KernelSize, |g|);
        if |toRemove| == 0 {
          break;
        }
        forall k | 0 <= k < |toRemove| ensures toRemove[k] < Grid.Length {
          assert toRemove[k] in toRemove;
        }
        ClearCells(Grid, toRemove);
        assert Grid[..] == RemoveRound(g, Width, Height, Kernel, KernelSize);
        RoundCount(g, Width, Height, Kernel, KernelSize);
        TotalRemoved := TotalRemoved + |toRemove|;
      }
    }
  
    /** `Parse`: the non-empty lines become the grid (`Width` is the first line's length);
        part 1 counts the accessible rolls, part 2 removes them round by round.  With no
        non-empty line nothing changes. */
    method Parse(lines: seq<string>)
      requires Valid()
      modifies this
      ensures Valid()
      ensures Kernel == old(Kernel) && KernelSize == old(KernelSize)
      ensures NonEmptyLines(lines) == [] ==>
        Grid == old(Grid) && Width == old(Width) && Height == old(Height) &&
        AccessibleRolls == old(AccessibleRolls) && TotalRemoved == old(TotalRemoved)
      ensures NonEmptyLines(lines) != [] ==>
        var rows := NonEmptyLines(lines);
        var g := GridOf(rows, |rows[0]|);
        && Width == |rows[0]| && Height == |rows| && fresh(Grid)
        && AccessibleRolls == CountAccessible(g, Width, Height, Kernel, KernelSize, |g|)
        && Grid[..] == Fixpoint(g, Width, Height, Kernel, KernelSize)
        && TotalRemoved == old(TotalRemoved) + RollCount(g) - RollCount(Grid[..])
    {
      var rows: seq<string> := [];
      var k := 0;
      while k < |lines|
        invariant 0 <= k <= |lines|
        invariant rows == NonEmptyLines(lines[..k])
      {
        assert lines[..k + 1][..k] == lines[..k];
        if |lines[k]| != 0 {
          rows := rows + [lines[k]];
        }
        k := k + 1;
      }
      assert lines[..|lines|] == lines;
      if |rows| == 0 {
        return;
      }
      Width := |rows[0]|;
      Height := |rows|;
      Grid := FillGrid(rows, Width);
      AccessibleRolls := CountAccessibleRolls();
      RemoveAllAccessible();
    }
  }
}
