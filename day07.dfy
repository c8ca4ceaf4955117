/**
 * Day 7: tachyon beams fall through a manifold from the start column 'S'.  A
 * splitter '^' under a beam stops it and sends one beam to each neighbouring
 * column.  Each row that holds a splitter is stored as a bitmask of 64-bit
 * words.  Part 1 counts the splitters a beam hits; part 2 counts timelines, a
 * beam's count being the number of distinct paths that reach its column.
 */
module Day07 {

  // ------------------------------------------------------------ masks

  /** A shift count as a bit vector, as Go converts the count of `1 << n`. */
  function BvOf(n: nat): (b: bv8)
    requires n < 64
    ensures b as int == n && b < 64
  {
    if n == 0 then 0 else BvOf(n - 1) + 1
  }

  /** Bit `s` of a word. */
  predicate HasBit(w: bv64, s: bv8)
    requires s < 64
  {
    w & ((1 as bv64) << s) != 0
  }

  /** `hasSplitter`: bit `col % 64` of word `col / 64`. */
  predicate HasSplitter(mask: seq<bv64>, col: nat)
    requires col / 64 < |mask|
  {
    HasBit(mask[col / 64], BvOf(col % 64))
  }

  /** Or-ing in `1 << b` sets bit `b` and leaves every other bit as it was. */
  lemma SetBitBv(w: bv64, b: bv8, j: bv8)
    requires b < 64 && j < 64
    ensures HasBit(w | ((1 as bv64) << b), j) <==> HasBit(w, j) || j == b
  {
  }

  lemma BvInjective(x: bv8, y: bv8)
    ensures x == y <==> x as int == y as int
  {
  }

  /** Setting the bit of column `i` in its word sets that column and no other. */
  lemma MaskSet(before: seq<bv64>, after: seq<bv64>, i: nat, c: nat)
    requires i / 64 < |before| && c < 64 * |before|
    requires after == before[i / 64 := before[i / 64] | ((1 as bv64) << BvOf(i % 64))]
    ensures HasSplitter(after, c) <==> HasSplitter(before, c) || c == i
  {
    WordBound(c, |before|);
    if c / 64 == i / 64 {
      MaskSetSame(before, after, i, c);
    } else {
      MaskSetOtherWord(before, after, i, c);
    }
  }

  lemma WordBound(c: nat, n: nat)
    requires c < 64 * n
    ensures c / 64 < n
  {
  }

  /** A column in the same word is set when it is column `i` and keeps its bit otherwise. */
  lemma MaskSetSame(before: seq<bv64>, after: seq<bv64>, i: nat, c: nat)
    requires i / 64 < |before| && c / 64 == i / 64
    requires after == before[i / 64 := before[i / 64] | ((1 as bv64) << BvOf(i % 64))]
    ensures HasSplitter(after, c) <==> HasSplitter(before, c) || c == i
  {
    var w := before[i / 64];
    assert after[c / 64] == w | ((1 as bv64) << BvOf(i % 64));
    assert before[c / 64] == w;
    MaskSetSameWord(w, i, c);
  }

  /** A column in another word keeps its bit. */
  lemma MaskSetOtherWord(before: seq<bv64>, after: seq<bv64>, i: nat, c: nat)
    requires i / 64 < |before| && c / 64 < |before| && c / 64 != i / 64
    requires after == before[i / 64 := before[i / 64] | ((1 as bv64) << BvOf(i % 64))]
    ensures HasSplitter(after, c) == HasSplitter(before, c) && c != i
  {
    assert after[c / 64] == before[c / 64];
  }

  lemma MaskSetSameWord(w: bv64, i: nat, c: nat)
    requires c / 64 == i / 64
    ensures HasBit(w | ((1 as bv64) << BvOf(i % 64)), BvOf(c % 64)) <==> HasBit(w, BvOf(c % 64)) || c == i
  {
    SetBitBv(w, BvOf(i % 64), BvOf(c % 64));
    SameWordBv(i, c);
  }

  lemma SameWordBv(i: nat, c: nat)
    requires i / 64 == c / 64
    ensures BvOf(i % 64) == BvOf(c % 64) <==> i == c
  {
    SameWord(i, c);
    BvInjective(BvOf(i % 64), BvOf(c % 64));
  }

  lemma SameWord(i: nat, c: nat)
    requires i / 64 == c / 64
    ensures i % 64 == c % 64 <==> i == c
  {
  }

  /** A zero word has no bit set. */
  lemma NoBit(j: bv8)
    requires j < 64
    ensures !HasBit(0, j)
  {
  }

  /** The mask has bit `c` set exactly where the line has '^', for every column the
      mask's words cover. */
  predicate MaskMatches(mask: seq<bv64>, line: string)
  {
    forall c: nat :: c < 64 * |mask| ==> (HasSplitter(mask, c) <==> c < |line| && line[c] == '^')
  }

  /** The last column of `line` holding 'S', or `s` when there is none. */
  function StartIn(line: string, s: nat): nat
  {
    if |line| == 0 then s
    else if line[|line| - 1] == 'S' then |line| - 1
    else StartIn(line[..|line| - 1], s)
  }

  /** The row loop of `Parse`: sets the bit of each '^', remembers the last 'S'. */
  method RowMask(line: string, numWords: nat, startCol: nat)
    returns (mask: seq<bv64>, hasSplitters: bool, start: nat)
    requires forall c :: 0 <= c < |line| && line[c] == '^' ==> c < 64 * numWords
    ensures |mask| == numWords && MaskMatches(mask, line)
    ensures hasSplitters <==> '^' in line
    ensures start == StartIn(line, startCol)
  {
    var rowMask := new bv64[numWords](_ => 0);
    EmptyMask(rowMask[..], line);
    hasSplitters := false;
    start := startCol;
    var i := 0;
    while i < |line|
      invariant 0 <= i <= |line| && rowMask.Length == numWords
      invariant Scanned(rowMask[..], line, i, hasSplitters, start, startCol)
    {
      hasSplitters, start := ScanColumn(rowMask, line, i, hasSplitters, start, startCol);
      i := i + 1;
    }
    assert line[..|line|] == line;
    mask := rowMask[..];
  }

  /** The state of the row loop of `Parse` after the first `i` columns. */
  ghost predicate Scanned(mask: seq<bv64>, line: string, i: nat, hasSplitters: bool, start: nat, startCol: nat)
    requires i <= |line|
  {
    MaskUpTo(mask, line, i) && (hasSplitters <==> '^' in line[..i]) && start == StartIn(line[..i], startCol)
  }

  lemma EmptyMask(mask: seq<bv64>, line: string)
    requires forall w :: 0 <= w < |mask| ==> mask[w] == 0
    ensures MaskUpTo(mask, line, 0)
  {
    forall c: nat | c < 64 * |mask| ensures !HasSplitter(mask, c) {
      NoBit(BvOf(c % 64));
    }
  }

  /** One column of the row loop of `Parse`. */
  method ScanColumn(rowMask: array<bv64>, line: string, i: nat, hasSplitters: bool, start: nat, ghost startCol: nat)
    returns (hasSplitters': bool, start': nat)
    requires i < |line| && Scanned(rowMask[..], line, i, hasSplitters, start, startCol)
    requires line[i] == '^' ==> i / 64 < rowMask.Length
    modifies rowMask
    ensures Scanned(rowMask[..], line, i + 1, hasSplitters', start', startCol)
  {
    ScanStep(line, i, startCol);
    hasSplitters', start' := hasSplitters, start;
    if line[i] == 'S' {
      start' := i;
      MaskSkip(rowMask[..], line, i);
    } else if line[i] == '^' {
      ghost var before := rowMask[..];
      SetColumn(rowMask, i);
      MaskGrow(before, rowMask[..], line, i);
      hasSplitters' := true;
    } else {
      MaskSkip(rowMask[..], line, i);
    }
  }

  /** The bits of `mask` are the '^' of `line` before column `i`. */
  ghost predicate MaskUpTo(mask: seq<bv64>, line: string, i: nat)
    requires i <= |line|
  {
    forall c: nat :: c < 64 * |mask| ==> (HasSplitter(mask, c) <==> c < i && line[c] == '^')
  }

  /** `rowMask[i/64] |= 1 << (i%64)`: sets the bit of column `i` and no other. */
  method SetColumn(rowMask: array<bv64>, i: nat)
    requires i / 64 < rowMask.Length
    modifies rowMask
    ensures forall c: nat :: c < 64 * rowMask.Length ==>
      (HasSplitter(rowMask[..], c) <==> HasSplitter(old(rowMask[..]), c) || c == i)
  {
    ghost var before := rowMask[..];
    rowMask[i / 64] := rowMask[i / 64] | ((1 as bv64) << BvOf(i % 64));
    forall c: nat | c < 64 * rowMask.Length
      ensures HasSplitter(rowMask[..], c) <==> HasSplitter(before, c) || c == i
    {
      MaskSet(before, rowMask[..], i, c);
    }
  }

  lemma MaskGrow(before: seq<bv64>, after: seq<bv64>, line: string, i: nat)
    requires i < |line| && line[i] == '^' && MaskUpTo(before, line, i) && |after| == |before|
    requires forall c: nat :: c < 64 * |after| ==> (HasSplitter(after, c) <==> HasSplitter(before, c) || c == i)
    ensures MaskUpTo(after, line, i + 1)
  {
  }

  lemma MaskSkip(mask: seq<bv64>, line: string, i: nat)
    requires i < |line| && line[i] != '^' && MaskUpTo(mask, line, i)
    ensures MaskUpTo(mask, line, i + 1)
  {
  }

  /** One more character for the '^' test and the 'S' scan. */
  lemma ScanStep(line: string, i: nat, s: nat)
    requires i < |line|
    ensures '^' in line[..i + 1] <==> '^' in line[..i] || line[i] == '^'
    ensures StartIn(line[..i + 1], s) == if line[i] == 'S' then i else StartIn(line[..i], s)
  {
    assert line[..i + 1][..i] == line[..i];
    assert line[..i + 1] == line[..i] + [line[i]];
  }

  // ------------------------------------------------------------ parsing

  /** The width `Parse` settles on: the one already set, or else the length of the
      first non-empty line. */
  function WidthAfter(lines: seq<string>, width: nat): nat
  {
    if |lines| == 0 then width
    else
      var w := WidthAfter(lines[..|lines| - 1], width);
      if w == 0 then |lines[|lines| - 1]| else w
  }

  /** The start column after `Parse`: the last 'S' of the last line that has one. */
  function StartAfter(lines: seq<string>, s: nat): nat
  {
    if |lines| == 0 then s else StartIn(lines[|lines| - 1], StartAfter(lines[..|lines| - 1], s))
  }

  /** The lines `Parse` keeps as splitter rows, in order. */
  function SplitterLines(lines: seq<string>): seq<string>
  {
    if |lines| == 0 then []
    else
      var line := lines[|lines| - 1];
      SplitterLines(lines[..|lines| - 1]) + (if '^' in line then [line] else [])
  }

  function Words(width: nat): nat
  {
    (width + 63) / 64
  }

  /** Every '^' lies in a column the row masks can hold (a later one would index past
      the mask). */
  predicate CaretsFit(lines: seq<string>, words: nat)
  {
    forall k, c :: 0 <= k < |lines| && 0 <= c < |lines[k]| && lines[k][c] == '^' ==> c < 64 * words
  }

  lemma WordsCover(width: nat)
    ensures width <= 64 * Words(width)
    ensures Words(width) == 0 <==> width == 0
  {
  }

  // ------------------------------------------------------------ simulation

  /** The splitter flags of the first `width` columns of a mask. */
  function Row(mask: seq<bv64>, width: nat): (split: seq<bool>)
    requires width <= 64 * |mask|
    ensures |split| == width
    ensures forall c :: 0 <= c < width ==> split[c] == HasSplitter(mask, c)
  {
    if width == 0 then [] else Row(mask, width - 1) + [HasSplitter(mask, width - 1)]
  }

  /** One column passes its count down, or to both neighbours when it holds a splitter. */
  function Pass(prev: seq<int>, col: nat, count: int, isSplit: bool): (next: seq<int>)
    requires col < |prev|
    ensures |next| == |prev|
  {
    if count == 0 then prev
    else if !isSplit then prev[col := prev[col] + count]
    else if col > 0 && col + 1 < |prev| then
      prev[col - 1 := prev[col - 1] + count][col + 1 := prev[col + 1] + count]
    else if col > 0 then prev[col - 1 := prev[col - 1] + count]
    else if col + 1 < |prev| then prev[col + 1 := prev[col + 1] + count]
    else prev
  }

  /** The inner loop of `solve` for one row after the first `n` columns. */
  function Scatter(t: seq<int>, split: seq<bool>, n: nat): (next: seq<int>)
    requires n <= |t| == |split|
    ensures |next| == |t|
  {
    if n == 0 then seq(|t|, _ => 0)
    else Pass(Scatter(t, split, n - 1), n - 1, t[n - 1], split[n - 1])
  }

  /** The occupied columns among the first `n` that hold a splitter. */
  function Splits(t: seq<int>, split: seq<bool>, n: nat): nat
    requires n <= |t| == |split|
  {
    if n == 0 then 0
    else Splits(t, split, n - 1) + (if t[n - 1] != 0 && split[n - 1] then 1 else 0)
  }

  /** What column `c` holds after the first `n` columns have passed their counts on. */
  function Received(t: seq<int>, split: seq<bool>, n: nat, c: nat): int
    requires n <= |t| == |split| && c < |t|
  {
    (if c < n && !split[c] then t[c] else 0) +
    (if 1 <= c <= n && split[c - 1] then t[c - 1] else 0) +
    (if c + 1 < n && split[c + 1] then t[c + 1] else 0)
  }

  lemma {:induction false} ScatterReceived(t: seq<int>, split: seq<bool>, n: nat, c: nat)
    requires n <= |t| == |split| && c < |t|
    ensures Scatter(t, split, n)[c] == Received(t, split, n, c)
  {
    if n > 0 {
      ScatterReceived(t, split, n - 1, c);
      var col := n - 1;
      var prev := Scatter(t, split, n - 1);
      var count := t[col];
      if count != 0 && split[col] {
        var left := if col > 0 then prev[col - 1 := prev[col - 1] + count] else prev;
        assert left[c] == prev[c] + (if c + 1 == col then count else 0);
      }
    }
  }

  /** After a row, column `c` holds its own count unless it is a splitter, plus the
      count of each neighbour that is a splitter. */
  lemma ScatterGathers(t: seq<int>, split: seq<bool>, c: nat)
    requires |t| == |split| && c < |t|
    ensures Scatter(t, split, |t|)[c] ==
      (if split[c] then 0 else t[c]) +
      (if c > 0 && split[c - 1] then t[c - 1] else 0) +
      (if c + 1 < |t| && split[c + 1] then t[c + 1] else 0)
  {
    ScatterReceived(t, split, |t|, c);
  }

  function Sum(vals: seq<int>): int
  {
    if |vals| == 0 then 0 else Sum(vals[..|vals| - 1]) + vals[|vals| - 1]
  }

  lemma {:induction false} SumUpdate(s: seq<int>, i: nat, x: int)
    requires i < |s|
    ensures Sum(s[i := s[i] + x]) == Sum(s) + x
  {
    var u := s[i := s[i] + x];
    if i < |s| - 1 {
      assert u[..|u| - 1] == s[..|s| - 1][i := s[i] + x];
      SumUpdate(s[..|s| - 1], i, x);
    } else {
      assert u[..|u| - 1] == s[..|s| - 1];
    }
  }

  lemma {:induction false} SumZeros(n: nat)
    ensures Sum(seq(n, _ => 0)) == 0
  {
    if n > 0 {
      assert seq(n, _ => 0)[..n - 1] == seq(n - 1, _ => 0);
      SumZeros(n - 1);
    }
  }

  /** Timelines a column adds to the total when it passes its count on: a splitter
      doubles its count, less a half that would leave the manifold. */
  function Gain(t: seq<int>, split: seq<bool>, n: nat): int
    requires n <= |t| == |split|
  {
    if n == 0 then 0
    else
      var col := n - 1;
      Gain(t, split, n - 1) +
      (if split[col] then
         t[col] * ((if col > 0 then 1 else 0) + (if col + 1 < |t| then 1 else 0) - 1)
       else 0)
  }

  /** One column's step of `Scatter` adds its count and its gain to the total. */
  lemma ScatterSumStep(t: seq<int>, split: seq<bool>, n: nat)
    requires 1 <= n <= |t| == |split|
    ensures Sum(Scatter(t, split, n)) == Sum(Scatter(t, split, n - 1)) + t[n - 1] +
      (if split[n - 1] then
         t[n - 1] * ((if n - 1 > 0 then 1 else 0) + (if n < |t| then 1 else 0) - 1)
       else 0)
  {
    var col := n - 1;
    var prev := Scatter(t, split, n - 1);
    var count := t[col];
    if count != 0 {
      if split[col] {
        SplitSum(prev, col, count);
        GainCases(count, col > 0, col + 1 < |t|);
      } else {
        SumUpdate(prev, col, count);
      }
    }
  }

  lemma GainCases(count: int, a: bool, b: bool)
    ensures count + count * ((if a then 1 else 0) + (if b then 1 else 0) - 1) ==
      (if a then count else 0) + (if b then count else 0)
  {
  }

  /** A splitter column adds its count once for each neighbour that exists. */
  lemma SplitSum(prev: seq<int>, col: nat, count: int)
    requires col < |prev| && count != 0
    ensures Sum(Pass(prev, col, count, true)) ==
      Sum(prev) + (if col > 0 then count else 0) + (if col + 1 < |prev| then count else 0)
  {
    if col > 0 && col + 1 < |prev| {
      SplitBoth(prev, col, count);
    } else if col > 0 {
      SplitLeft(prev, col, count);
    } else if col + 1 < |prev| {
      SplitRight(prev, col, count);
    } else {
      assert Pass(prev, col, count, true) == prev;
    }
  }

  lemma SplitBoth(prev: seq<int>, col: nat, count: int)
    requires 0 < col && col + 1 < |prev| && count != 0
    ensures Sum(Pass(prev, col, count, true)) == Sum(prev) + 2 * count
  {
    assert Pass(prev, col, count, true) ==
      prev[col - 1 := prev[col - 1] + count][col + 1 := prev[col + 1] + count];
    SumAround(prev, col, count);
  }

  /** Adding `count` on both sides of `col` adds it twice to the total. */
  lemma SumAround(prev: seq<int>, col: nat, count: int)
    requires 0 < col && col + 1 < |prev|
    ensures Sum(prev[col - 1 := prev[col - 1] + count][col + 1 := prev[col + 1] + count]) ==
      Sum(prev) + 2 * count
  {
    var left := prev[col - 1 := prev[col - 1] + count];
    SumUpdate(prev, col - 1, count);
    assert left[col + 1] == prev[col + 1];
    SumUpdate(left, col + 1, count);
  }

  lemma SplitLeft(prev: seq<int>, col: nat, count: int)
    requires 0 < col && col + 1 == |prev| && count != 0
    ensures Sum(Pass(prev, col, count, true)) == Sum(prev) + count
  {
    assert Pass(prev, col, count, true) == prev[col - 1 := prev[col - 1] + count];
    SumUpdate(prev, col - 1, count);
  }

  lemma SplitRight(prev: seq<int>, col: nat, count: int)
    requires col == 0 && col + 1 < |prev| && count != 0
    ensures Sum(Pass(prev, col, count, true)) == Sum(prev) + count
  {
    assert Pass(prev, col, count, true) == prev[col + 1 := prev[col + 1] + count];
    SumUpdate(prev, col + 1, count);
  }

  /** The total after a row is the total before plus each splitter's gain. */
  lemma {:induction false} ScatterSum(t: seq<int>, split: seq<bool>, n: nat)
    requires n <= |t| == |split|
    ensures Sum(Scatter(t, split, n)) == Sum(t[..n]) + Gain(t, split, n)
  {
    if n == 0 {
      SumZeros(|t|);
    } else {
      ScatterSum(t, split, n - 1);
      ScatterSumStep(t, split, n);
      assert t[..n][..n - 1] == t[..n - 1];
    }
  }

  /** The timelines after every row in turn. */
  function Run(rows: seq<seq<bv64>>, t: seq<int>): (out: seq<int>)
    requires forall r :: 0 <= r < |rows| ==> |t| <= 64 * |rows[r]|
    ensures |out| == |t|
  {
    if |rows| == 0 then t else Run(rows[1..], Scatter(t, Row(rows[0], |t|), |t|))
  }

  /** Splitters hit over every row in turn. */
  function TotalSplits(rows: seq<seq<bv64>>, t: seq<int>): nat
    requires forall r :: 0 <= r < |rows| ==> |t| <= 64 * |rows[r]|
  {
    if |rows| == 0 then 0
    else
      var split := Row(rows[0], |t|);
      Splits(t, split, |t|) + TotalSplits(rows[1..], Scatter(t, split, |t|))
  }

  /** One beam at the start column. */
  function Start(width: nat, startCol: nat): seq<int>
  {
    seq(width, c => if c == startCol then 1 else 0)
  }

  predicate NonNegative(t: seq<int>)
  {
    forall c :: 0 <= c < |t| ==> t[c] >= 0
  }

  /** Counts never go negative, so the timeline total is a count. */
  lemma {:induction false} RunNonNegative(rows: seq<seq<bv64>>, t: seq<int>)
    requires forall r :: 0 <= r < |rows| ==> |t| <= 64 * |rows[r]|
    requires NonNegative(t)
    ensures NonNegative(Run(rows, t))
  {
    if |rows| > 0 {
      var split := Row(rows[0], |t|);
      var next := Scatter(t, split, |t|);
      forall c | 0 <= c < |t| ensures next[c] >= 0 {
        ScatterGathers(t, split, c);
      }
      RunNonNegative(rows[1..], next);
    }
  }

  /** Whether the row has a splitter at a column: the bit test of `solve`. */
  method SplitterAt(mask: seq<bv64>, width: nat, col: nat) returns (b: bool)
    requires col < width <= 64 * |mask|
    ensures b == Row(mask, width)[col]
  {
    b := HasSplitter(mask, col);
  }

  /** One row of `solve`: clears `next` and scatters `timelines` into it. */
  method ScatterRow(timelines: array<int>, next: array<int>, mask: seq<bv64>) returns (splits: nat)
    requires timelines != next && timelines.Length == next.Length <= 64 * |mask|
    modifies next
    ensures next[..] == Scatter(timelines[..], Row(mask, timelines.Length), timelines.Length)
    ensures splits == Splits(timelines[..], Row(mask, timelines.Length), timelines.Length)
  {
    ghost var split := Row(mask, timelines.Length);
    Clear(next);
    splits := 0;
    var col := 0;
    while col < timelines.Length
      invariant 0 <= col <= timelines.Length
      invariant Scattered(next[..], timelines[..], split, col, splits)
    {
      splits := ScatterColumn(timelines, next, mask, col, split, splits);
      col := col + 1;
    }
  }

  /** The inner loop of `solve` after the first `col` columns: `cur` holds what they
      passed on and `splits` counts the splitters they hit. */
  ghost predicate Scattered(cur: seq<int>, t: seq<int>, split: seq<bool>, col: nat, splits: int)
    requires col <= |t| == |split|
  {
    cur == Scatter(t, split, col) && splits == Splits(t, split, col)
  }

  /** One turn of the inner loop of `solve`. */
  method ScatterColumn(timelines: array<int>, next: array<int>, mask: seq<bv64>, col: nat,
                       ghost split: seq<bool>, splits: nat)
    returns (splits': nat)
    requires timelines != next && timelines.Length == next.Length <= 64 * |mask|
    requires col < timelines.Length && split == Row(mask, timelines.Length)
    requires Scattered(next[..], timelines[..], split, col, splits)
    modifies next
    ensures Scattered(next[..], timelines[..], split, col + 1, splits')
  {
    var hit := PassColumn(timelines, next, mask, col, split);
    splits' := if hit then splits + 1 else splits;
  }

  /** The clearing loop of `solve`: every count back to 0. */
  method Clear(next: array<int>)
    modifies next
    ensures next[..] == seq(next.Length, _ => 0)
  {
    forall c | 0 <= c < next.Length {
      next[c] := 0;
    }
  }

  /** One column of the inner loop of `solve`: an occupied splitter column sends its
      count to both neighbours that exist, any other occupied column keeps it. Reports
      whether a splitter was hit. */
  method PassColumn(timelines: array<int>, next: array<int>, mask: seq<bv64>, col: nat,
                    ghost split: seq<bool>)
    returns (hit: bool)
    requires timelines != next && timelines.Length == next.Length <= 64 * |mask|
    requires col < timelines.Length && split == Row(mask, timelines.Length)
    requires next[..] == Scatter(timelines[..], split, col)
    modifies next
    ensures next[..] == Scatter(timelines[..], split, col + 1)
    ensures hit <==> timelines[col] != 0 && split[col]
  {
    ghost var prev := next[..];
    var count := timelines[col];
    assert Scatter(timelines[..], split, col + 1) == Pass(prev, col, count, split[col]);
    if count == 0 {
      return false;
    }
    hit := SplitterAt(mask, timelines.Length, col);
    if hit {
      SplitColumn(next, col, count);
    } else {
      AddAt(next, col, count);
    }
    assert next[..] == Pass(prev, col, count, split[col]);
  }

  /** A splitter column: its count goes to each neighbour that exists. */
  method SplitColumn(next: array<int>, col: nat, count: int)
    requires col < next.Length && count != 0
    modifies next
    ensures next[..] == Pass(old(next[..]), col, count, true)
  {
    ghost var prev := next[..];
    if col > 0 {
      AddAt(next, col - 1, count);
    }
    ghost var left := next[..];
    if col + 1 < next.Length {
      AddAt(next, col + 1, count);
    }
  }

  /** `next[i] += count`. */
  method AddAt(next: array<int>, i: nat, count: int)
    requires i < next.Length
    modifies next
    ensures next[..] == old(next[..])[i := old(next[i]) + count]
  {
    next[i] := next[i] + count;
  }

  /** `sum`: the total of the counts, 0 for none. */
  method SumOf(vals: array<int>) returns (total: int)
    ensures total == Sum(vals[..])
  {
    total := 0;
    var i := 0;
    while i < vals.Length
      invariant 0 <= i <= vals.Length
      invariant total == Sum(vals[..i])
    {
      assert vals[..i + 1][..i] == vals[..i];
      total := total + vals[i];
      i := i + 1;
    }
    assert vals[..vals.Length] == vals[..];
  }

  // ------------------------------------------------------------ the manifold

  class TachyonManifold {
    var Splitters: seq<seq<bv64>>
    var NumWords: nat
    var Width: nat
    var StartCol: nat
    var ResultPart1: int
    var ResultPart2: int

    /** Every mask has one word per 64 columns of the width; no mask before a width. */
    predicate Valid()
      reads this
    {
      NumWords == Words(Width) &&
      (Width == 0 ==> |Splitters| == 0) &&
      forall r :: 0 <= r < |Splitters| ==> |Splitters[r]| == NumWords
    }

    /** `NewTachyonManifold`. */
    constructor()
      ensures Valid()
      ensures Splitters == [] && Width == 0 && StartCol == 0
      ensures ResultPart1 == 0 && ResultPart2 == 0
    {
      Splitters := [];
      NumWords := 0;
      Width := 0;
      StartCol := 0;
      ResultPart1 := 0;
      ResultPart2 := 0;
    }

    /** `Parse`: every non-empty line sets the width if none is set yet, updates the start
        column, and is kept as a mask when it holds a splitter; then `solve` runs. */
    method Parse(lines: seq<string>)
      requires Valid()
      requires CaretsFit(lines, Words(WidthAfter(lines, Width)))
      requires |Splitters| + |SplitterLines(lines)| > 0 ==>
        StartAfter(lines, StartCol) < WidthAfter(lines, Width)
      modifies this
      ensures Valid()
      ensures Width == WidthAfter(lines, old(Width)) && NumWords == Words(Width)
      ensures StartCol == StartAfter(lines, old(StartCol))
      ensures |Splitters| == |old(Splitters)| + |SplitterLines(lines)|
      ensures Splitters[..|old(Splitters)|] == old(Splitters)
      ensures forall r :: 0 <= r < |SplitterLines(lines)| ==>
        MaskMatches(Splitters[|old(Splitters)| + r], SplitterLines(lines)[r])
      ensures |Splitters| == 0 ==> ResultPart1 == old(ResultPart1) && ResultPart2 == 1
      ensures |Splitters| > 0 ==>
        ResultPart1 == TotalSplits(Splitters, Start(Width, StartCol)) &&
        ResultPart2 == Sum(Run(Splitters, Start(Width, StartCol)))
    {
      var i := 0;
      while i < |lines|
        invariant 0 <= i <= |lines| && ResultPart1 == old(ResultPart1)
        invariant ParsedUpTo(lines, i, old(Width), old(StartCol), old(Splitters))
      {
        ParseLine(lines, i, old(Width), old(StartCol), old(Splitters));
        i := i + 1;
      }
      assert lines[..|lines|] == lines;
      Solve();
    }

    /** The state after `Parse` has read the first `i` lines, from the width, start
        column and splitter rows it began with. */
    ghost predicate ParsedUpTo(lines: seq<string>, i: nat, width0: nat, start0: nat,
                               splitters0: seq<seq<bv64>>)
      reads this
      requires i <= |lines|
    {
      Valid() &&
      Width == WidthAfter(lines[..i], width0) &&
      StartCol == StartAfter(lines[..i], start0) &&
      |Splitters| == |splitters0| + |SplitterLines(lines[..i])| &&
      Splitters[..|splitters0|] == splitters0 &&
      forall r :: 0 <= r < |SplitterLines(lines[..i])| ==>
        MaskMatches(Splitters[|splitters0| + r], SplitterLines(lines[..i])[r])
    }

    /** One turn of `Parse`'s loop: an empty line is skipped, any other is read. */
    method ParseLine(lines: seq<string>, i: nat, ghost width0: nat, ghost start0: nat,
                     ghost splitters0: seq<seq<bv64>>)
      requires i < |lines| && ParsedUpTo(lines, i, width0, start0, splitters0)
      requires CaretsFit(lines, Words(WidthAfter(lines, width0)))
      modifies this
      ensures ParsedUpTo(lines, i + 1, width0, start0, splitters0)
      ensures ResultPart1 == old(ResultPart1)
    {
      var line := lines[i];
      ParseStep(lines, i, width0, start0);
      if line == "" {
        return;
      }
      WidthSettles(lines, i + 1, width0);
      ReadLine(line);
    }

    /** The body of `Parse`'s loop for one non-empty line. */
    method ReadLine(line: string)
      requires Valid() && line != ""
      requires forall c :: 0 <= c < |line| && line[c] == '^' ==>
        c < 64 * Words(if Width == 0 then |line| else Width)
      modifies this
      ensures Valid() && ResultPart1 == old(ResultPart1)
      ensures Width == (if old(Width) == 0 then |line| else old(Width))
      ensures StartCol == StartIn(line, old(StartCol))
      ensures '^' in line ==> exists mask ::
        Splitters == old(Splitters) + [mask] && MaskMatches(mask, line)
      ensures '^' !in line ==> Splitters == old(Splitters)
    {
      WordsCover(|line|);
      if NumWords == 0 {
        Width := |line|;
        NumWords := (|line| + 63) / 64;
      }
      var mask, hasSplitters, start := RowMask(line, NumWords, StartCol);
      StartCol := start;
      if hasSplitters {
        Splitters := Splitters + [mask];
      }
    }

    /** `solve`: one beam at the start column passes every splitter row in turn. */
    method Solve()
      requires Valid()
      requires |Splitters| > 0 ==> StartCol < Width
      modifies this
      ensures Splitters == old(Splitters) && NumWords == old(NumWords)
      ensures Width == old(Width) && StartCol == old(StartCol)
      ensures |Splitters| == 0 ==> ResultPart1 == old(ResultPart1) && ResultPart2 == 1
      ensures |Splitters| > 0 ==>
        ResultPart1 == TotalSplits(Splitters, Start(Width, StartCol)) &&
        ResultPart2 == Sum(Run(Splitters, Start(Width, StartCol)))
    {
      if |Splitters| == 0 {
        ResultPart2 := 1;
        return;
      }
      WordsCover(Width);
      var rows := Splitters;
      assert forall q :: 0 <= q < |rows| ==> Width <= 64 * |rows[q]|;
      var timelines := new int[Width](_ => 0);
      var next := new int[Width](_ => 0);
      timelines[StartCol] := 1;
      assert timelines[..] == Start(Width, StartCol);
      assert rows[0..] == rows;
      var splitCount := 0;
      var r := 0;
      while r < |rows|
        invariant 0 <= r <= |rows|
        invariant fresh(timelines) && fresh(next) && unchanged(this)
        invariant timelines != next && timelines.Length == next.Length == Width
        invariant RowsDone(rows, r, timelines[..], splitCount, Start(Width, StartCol))
      {
        var splits := ScatterRow(timelines, next, rows[r]);
        RowDone(rows, r, timelines[..], splitCount, Start(Width, StartCol), next[..], splits);
        splitCount := splitCount + splits;
        timelines, next := next, timelines;
        r := r + 1;
      }
      assert rows[r..] == [];
      ResultPart1 := splitCount;
      ResultPart2 := SumOf(timelines);
    }
  }

  /** The row loop of `solve` after `r` rows, from the timelines `t0`: the rows left
      fit the width, and the count so far and the timelines `t` lead to the same
      totals as the whole run. */
  ghost predicate RowsDone(rows: seq<seq<bv64>>, r: nat, t: seq<int>, splitCount: int, t0: seq<int>)
  {
    r <= |rows| && |t| == |t0| &&
    (forall q :: 0 <= q < |rows| ==> |t| <= 64 * |rows[q]|) &&
    splitCount + TotalSplits(rows[r..], t) == TotalSplits(rows, t0) &&
    Run(rows[r..], t) == Run(rows, t0)
  }

  lemma RowDone(rows: seq<seq<bv64>>, r: nat, t: seq<int>, splitCount: int, t0: seq<int>,
                t': seq<int>, splits: int)
    requires RowsDone(rows, r, t, splitCount, t0) && r < |rows|
    requires t' == Scatter(t, Row(rows[r], |t|), |t|) && splits == Splits(t, Row(rows[r], |t|), |t|)
    ensures RowsDone(rows, r + 1, t', splitCount + splits, t0)
  {
    assert rows[r..][1..] == rows[r + 1..];
  }

  /** What line `i` adds to the width, the start column and the splitter rows. */
  lemma ParseStep(lines: seq<string>, i: nat, width: nat, s: nat)
    requires i < |lines|
    ensures WidthAfter(lines[..i + 1], width) ==
      (if WidthAfter(lines[..i], width) == 0 then |lines[i]| else WidthAfter(lines[..i], width))
    ensures StartAfter(lines[..i + 1], s) == StartIn(lines[i], StartAfter(lines[..i], s))
    ensures SplitterLines(lines[..i + 1]) ==
      SplitterLines(lines[..i]) + (if '^' in lines[i] then [lines[i]] else [])
  {
    assert lines[..i + 1][..i] == lines[..i];
  }

  /** Once set, the width stays: it is the width of the whole input. */
  lemma {:induction false} WidthSettles(lines: seq<string>, i: nat, width: nat)
    requires i <= |lines| && WidthAfter(lines[..i], width) != 0
    ensures WidthAfter(lines, width) == WidthAfter(lines[..i], width)
    decreases |lines| - i
  {
    if i < |lines| {
      ParseStep(lines, i, width, 0);
      WidthSettles(lines, i + 1, width);
    } else {
      assert lines[..i] == lines;
    }
  }
}
