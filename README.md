# aoc25 in Dafny

A verified model of the puzzle solvers of `aoc25`, eleven independent Go
programs, one per day. Each solver reads its input line by line into a small
struct, then computes two answers, `ResultPart1` and `ResultPart2` (or the
day's own names for them). The model follows the Go code file by file.

- A struct whose methods update its fields is a Dafny `class` with those fields.
  Its methods say in `modifies` what they change, and in `ensures` what the new
  state is.
- A loop is a `method` with a `while` or `for` loop and its invariants. It is
  proved against a specification function, and the promised properties are then
  proved about that function.
- A recursive computation is a function, with lemmas about it.
- Input is a `seq<string>` of lines, in place of a `bufio.Scanner`.

The files:

- `gotext.dfy` (`GoText`) holds the pieces of `strconv` and `strings` that the
  solvers call: `Atoi`, `Itoa`/`FormatInt`, `Split`, `SplitN(·, ·, 2)`, `Fields`
  and `TrimSpace`. Round trips connect the parsers and the printers.
- `day01.dfy`: the dial, the zero-crossing counts of `rotate` with Go's
  truncating `/` and `%`, and the L/R dispatch of one line. The ten-line example
  ends on 32, rests on 0 three times and passes 0 six times.
- `day02.dfy`: numbers whose digits repeat a pattern twice, or at least twice.
  The generated IDs of each range are exactly the repeating numbers in the range,
  without duplicates. They are checked against a brute-force reference list.
- `day03.dfy`: the greedy choice of n batteries. Its result is the largest value
  of any n-digit subsequence of the bank.
- `day04.dfy`: the grid of rolls in one byte array, the kernel-driven neighbour
  count, and removal in rounds until no roll is accessible.
- `day05.dfy`: range membership, and the count of the union of the ranges after
  sorting and merging a copy.
- `day06.dfy`: the worksheet read by rows (part 1) and by column runs from the
  right (part 2).
- `day07.dfy`: splitter rows as 64-bit word masks, and the beam and timeline
  simulation over two arrays.
- `day08_*.dfy`: the clustering engine of the junction boxes.
  - `Points`: boxes and squared distances.
  - `Edges`: all pairs, sorted by distance.
  - `Forest`: the union-find forest with path compression and union by rank.
  - `Components`: the partition a list of merges induces, and circuit sizes.
  - `Knn`: the bounded k-nearest buffer over an array, sorted farthest first.
  - `KdTree`: the 3-d tree and its pruned search.
  - `CandidateEdges`: deduplicated candidate edges.
  - `Day08`: the `Playground` class, with the brute-force and k-d tree merge loops.
- `day09.dfy` and `day09_flood.dfy` (`Flood`):
  - coordinate compression;
  - polygon boundary marking;
  - the breadth-first flood fill from the corner;
  - the rectangle search.
- `day10_bits.dfy` (`Bits`), `day10_masks.dfy` (`Day10Masks`),
  `day10_presses.dfy` (`Presses`) and `day10.dfy`:
  - masks as naturals, with `|`, `^` and `1 << i` read bit by bit;
  - the breadth-first search of `solveXOR`, proved to return the fewest presses;
  - the parsing of button lists.
- `day11_paths.dfy` (`DevicePaths`) and `day11.dfy`: memoised path counting on
  the device graph. Each count is the number of distinct routes to "out", with
  and without the two checkpoints.

The `day08` package as given does not compile. `Edge` is declared twice
(day08/main.go:21 and day08/helpers.go:6). `Solve` and `SolveWithKDTree` also
call `buildAllEdges`, `sortEdgesByDistance`, `computeCircuitSizes`,
`topNProduct` and `distSq`, and none of these is defined in the repository. The
model reads them as the helpers that are there:
- `buildAllEdges` followed by `sortEdgesByDistance` is `buildEdges`
  (day08/helpers.go:12-30), all pairs i < j sorted by squared distance;
- `computeCircuitSizes` followed by `topNProduct(·, 3)` is
  `topCircuitProduct(3)` (day08/helpers.go:70-86);
- `distSq` is `dx*dx + dy*dy + dz*dz`.

## Model

| member | source | states |
|---|---|---|
| GoText.DigitValue | day02/helpers.go:42 | a decimal digit's value is below 10 |
| GoText.DigitChar | day02/helpers.go:42 | the digit written for a value below 10 reads back as that value |
| GoText.DecimalString | day02/helpers.go:42 | `strconv.FormatInt(n, 10)`: at least one digit, no leading zero, and the digits' value is n |
| GoText.Power10 | day02/helpers.go:42 | a power of ten is positive |
| GoText.Power10Add | day02/helpers.go:42 | powers of ten multiply by adding exponents |
| GoText.Power10Monotone | day02/helpers.go:42 | a larger exponent gives a larger power |
| GoText.AllDigitsAppend | day02/helpers.go:42 | two digit strings written together are digits |
| GoText.DecimalValueAppend | day02/helpers.go:42 | two digit strings written together have the first value shifted past the second's digits, plus the second |
| GoText.DecimalValueBounds | day02/helpers.go:42 | a string of k digits has a value below 10^k, and at least 10^(k-1) without a leading zero |
| GoText.CanonicalDecimal | day02/helpers.go:42 | a digit string without a leading zero is the decimal form of its value |
| GoText.DecimalStringLength | day02/helpers.go:42 | the number of digits `FormatInt` writes for n is the k with 10^(k-1) <= n < 10^k |
| GoText.Atoi | day09/main.go:48-56 | `strconv.Atoi` succeeds exactly on an optional sign followed by one or more digits, and gives their value with the sign applied |
| GoText.AtoiOfDecimalString | day02/main.go:51-52 | parsing the decimal form of a natural number gives it back |
| GoText.AtoiOfItoa | day08/main.go:60-62 | parsing what `strconv.Itoa` writes gives the number back |
| GoText.NoCommaInItoa | day08/main.go:56 | `strconv.Itoa` never writes a comma |
| GoText.AtoiNoMinus | day05/main.go:56-57 | a piece without '-' that parses is not negative |
| GoText.Split | day09/main.go:43 | `strings.Split`: at least one piece, none holding the separator |
| GoText.JoinSplit | day09/main.go:43 | the pieces joined with the separator give the input back |
| GoText.SplitJoin | day09/main.go:43 | splitting pieces without the separator, once joined, gives the pieces back |
| GoText.SplitNoSep | day05/main.go:51 | a string without the separator splits into itself |
| GoText.SplitPrefix | day05/main.go:51 | a first piece without the separator, then the separator, splits off as the first piece |
| GoText.MatchAtTail | day11/main.go:41 | a match past the first character is a match in the rest |
| GoText.IndexOf | day11/main.go:41 | the first index at which the separator occurs, or none when it does not occur |
| GoText.SplitN2 | day11/main.go:41-44 | `strings.SplitN(s, sep, 2)`: `[s]` when the separator does not occur, otherwise the text before and after its first occurrence |
| GoText.Fields | day11/main.go:47 | `strings.Fields`: non-empty pieces without spaces; a string without spaces is one field |
| GoText.FieldsRuns | day11/main.go:47 | the input is the pieces of `strings.Fields`, in order, with runs of spaces before, between and after them, and at least one space between two pieces |
| GoText.FieldsOfRuns | day11/main.go:47 | conversely, any string cut that way into space runs and space-free pieces has exactly those pieces as its `strings.Fields` |
| GoText.FieldsAfterSpaces | day11/main.go:47 | leading spaces do not change `strings.Fields` |
| GoText.FieldsAfterRun | day11/main.go:47 | a space-free run followed by a space or by nothing is the first field, and the rest are the fields of what follows |
| GoText.TrimSpace | day02/main.go:39-41 | `strings.TrimSpace`: no space at either end, no longer than the input, and a string without spaces is unchanged |
| GoText.TrimSpaceSlice | day02/main.go:39-41 | what `TrimSpace` keeps is one stretch of the input, and everything it drops before and after that stretch is spaces |
| Day01.GoRem | day01/main.go:61-65 | Go's truncating `%`: strictly between -b and b, the Euclidean remainder for a non-negative dividend, never positive for a negative one |
| Day01.GoQuo | day01/main.go:59-61 | Go's truncating `/`: the Euclidean quotient for a non-negative dividend, never positive for a negative one |
| Day01.WrapIsEuclidean | day01/main.go:64-65 | the wrap `((x % 100) + 100) % 100` is the Euclidean remainder of x by 100 for every x, negative included |
| Day01.HitsRightFormula | day01/main.go:57-59 | for a right turn, `(Value + n) / 100` is the number of clicks 1..n at which the dial shows 0 |
| Day01.HitsLeftMirror | day01/main.go:60-61 | a left turn from v hits 0 at the same clicks as a right turn from `(100 - v) % 100` |
| Day01.HitsLeftFormula | day01/main.go:60-61 | for a left turn, `((100 - Value) % 100 + n) / 100` is the number of clicks 1..n at which the dial shows 0 |
| Day01.Dial.constructor | day01/main.go:22-24 | the dial starts at 50 with both counters 0 |
| Day01.Dial.Rotate | day01/main.go:56-69 | the new value is the old one plus n, wrapped into 0..99; `Strictzero` grows by one exactly when it lands on 0; `Zero` grows by the number of clicks that show 0 |
| Day01.Dial.ApplyLine | day01/main.go:32-48 | a line that is not "R" or "L" followed by an integer leaves the dial unchanged; otherwise the dial rotates by the signed count as `Rotate` does |
| Day01.Instruction | day01/main.go:33-48 | a line means a turn only with at least two characters, a leading R or L and an integer after it; R gives +n and L gives -n |
| Day01.InstructionOfDecimal | day01/main.go:37-48 | a direction letter followed by a decimal count reads back as that signed turn |
| Day01.ApplyTurn | day01/main.go:43-48 | a written turn updates the value, `Strictzero` and, by the two division formulas, `Zero` |
| Day01.Example | day01/example_test.go:23-30 | the ten-line example ends with value 32, `Strictzero` 3 and `Zero` 6 |
| Day01.Dial.Parse | day01/main.go:29-50 | the dial after every line in turn, each R or L line turning it and every other line ignored |
| Day01.RunValue | day01/main.go:29-50 | from a dial reading 0..99, the lines leave it at the start plus the sum of all turns, modulo 100, and neither counter ever decreases |
| Day01.RunAppend | day01/main.go:31-49 | feeding two blocks of lines one after the other leaves the dial as feeding them joined |
| Day02.Pow10 | day02/helpers.go:5-11 | the repeated multiplication returns 10^n |
| Day02.PatternBounds | day02/helpers.go:17-23 | the bounds are ordered and start at 1 or more |
| Day02.PatternBoundsExact | day02/helpers.go:13-23 | a number lies within `patternBounds(length)` exactly when it is positive and has `length` digits |
| Day02.BuildRepeatedID | day02/helpers.go:25-37 | the loop returns the pattern times the sum of 10^(patternLen·k) over k < repetitions |
| Day02.RepeatStrDigits | day02/helpers.go:25-37 | that value is the decimal number of the pattern's digits written `repetitions` times |
| Day02.RepeatedValueDigits | day02/helpers.go:25-37 | for a pattern of exactly `patternLen` digits, the decimal form of the built ID is the pattern's decimal form repeated |
| Day02.DigitLength | day02/helpers.go:39-42 | the length of `FormatInt(n, 10)`: 1 for 0, otherwise the d with 10^(d-1) <= n < 10^d |
| Day02.DigitLengthMonotone | day02/helpers.go:39-42 | a larger number has at least as many digits |
| Day02.Sum | day02/helpers.go:44-51 | the running total is the sum of the slice, 0 when it is empty |
| Day02.SumOfAppend | day02/helpers.go:44-51 | the sum of a concatenation is the sum of the parts |
| Day02.RepeatCharacterization | day02/main.go:104-123 | the IDs a `len`-digit pattern written `reps` >= 2 times produces are exactly the multiples of the rep-unit whose quotient has `len` digits |
| Day02.ProducedTwice | day02/main.go:136-145 | the patterns of `len` digits written twice give exactly the IDs of `2·len` digits written twice |
| Day02.ExactlyTwiceOfLength | day02/main.go:136-145 | for one even length, the IDs found are exactly those in [start, end] of that length written twice, in increasing order |
| Day02.TwiceOfPattern | day02/main.go:140-145 | one pattern keeps the invariant of the pattern loop: the IDs built from smaller patterns that lie in range, in order |
| Day02.FindExactlyTwiceInRange | day02/main.go:127-148 | the IDs found are exactly the numbers in [start, end] whose digit length lies in [startLen, endLen] and that are a digit string written exactly twice, in increasing order |
| Day02.RepeatsPatternBelowExists | day02/main.go:104 | the recursive search over pattern lengths below k is the bounded existential |
| Day02.AtLeastTwiceBelow | day02/main.go:104-113 | trying every pattern length up to half the digit count finds exactly the IDs written at least twice |
| Day02.ExactlyTwiceIsAtLeastTwice | day02/main.go:16-17 | an ID written exactly twice is written at least twice |
| Day02.ProducedPattern | day02/main.go:104-123 | for a length dividing `numDigits` with at least two copies, the pattern loop yields exactly the `numDigits`-digit IDs repeating such a pattern |
| Day02.CollectPatternIDs | day02/main.go:115-123 | the pattern loop appends, each once, the IDs in range built from the pattern and not yet seen, and `seen` keeps holding exactly the listed IDs |
| Day02.CollectPatternLength | day02/main.go:104-124 | one pattern length keeps the invariant of the length loop, and runs the pattern loop only when the length divides the digit count with two or more copies |
| Day02.CollectAtLeastTwiceIDs | day02/main.go:102-125 | `ids` is extended by exactly the `numDigits`-digit IDs in range written at least twice, each once; `seen` keeps holding the same numbers |
| Day02.FindAtLeastTwiceInRange | day02/main.go:91-100 | the IDs found are exactly the numbers in [start, end] with digit length in [startLen, endLen] that are written at least twice, without duplicates |
| Day02.FindInvalidIDsInRange | day02/main.go:80-89 | the IDs returned are exactly the invalid IDs of [start, end] for the part, each once |
| Day02.InvalidList | day02/main.go:80-89 | an independent reference, trying every number: exactly the invalid IDs of [lo, hi], each once |
| Day02.SumOfSameElements | day02/main.go:67-68 | two duplicate-free lists with the same elements have the same sum, so the search's list order does not matter |
| Day02.SumOfInvalid | day02/main.go:64-68 | the sum of what the search returns is the sum of the reference list |
| Day02.InvalidSumsOrdered | day02/main.go:16-17 | over one range, the part 1 sum is at most the part 2 sum |
| Day02.RangesOfStep | day02/main.go:40-58 | one more piece appends its range when it is one and nothing otherwise |
| Day02.RangeOfFormat | day02/main.go:46-57 | a range written "start-end" reads back as itself |
| Day02.RangesOfFormat | day02/main.go:39-58 | ranges written out comma-separated and read back give the same ranges |
| Day02.InvalidTotalOrdered | day02/main.go:61-73 | over any list of ranges, part 1's total is at most part 2's |
| Day02.ReadRanges | day02/main.go:40-58 | the loop over the pieces collects exactly the ranges among them, in order, skipping pieces that are empty, lack one `-` or do not parse |
| Day02.GiftShop.constructor | day02/main.go:25-27 | no ranges and both sums 0 |
| Day02.GiftShop.Parse | day02/main.go:31-74 | the ranges of the joined, trimmed input are appended; the sums are the part 1 and part 2 totals over all ranges held, part 1's being at most part 2's |
| Day02.GiftShop.Consolidate | day02/main.go:60-73 | the ranges are unchanged and both sums are recomputed over all of them |
| Day03.BestIsUpperBound | day03/main.go:48-51 | no choice of digits from the bank, in order, is worth more than `Best` of that many digits |
| Day03.BestIsAttained | day03/main.go:48-51 | `Best(t, m)` is the value of some in-order choice of exactly m digits of t |
| Day03.BestBound | day03/main.go:73 | an m-digit joltage is below 10^m |
| Day03.GreedyStep | day03/main.go:59-74 | the best m digits start with the leftmost largest digit among those that can still lead, followed by the best m-1 digits after it |
| Day03.GreedyInBank | day03/main.go:60-74 | the greedy step read on the whole bank with the window `pos..len(bank)-m` |
| Day03.Advance | day03/main.go:73-74 | one round of the outer loop keeps "digits chosen so far, then the best of the rest" equal to the bank's best joltage |
| Day03.ScanWindow | day03/main.go:63-70 | the inner loop returns the leftmost largest digit of `bank[pos..maxPos]` and its position |
| Day03.FindMaxJoltageN | day03/main.go:51-78 | 0 when the bank is shorter than n; otherwise the greedy result is the largest n-digit number formed from the bank's digits in order, and it is below 10^n |
| Day03.BatteryBank.constructor | day03/main.go:21-23 | both totals 0 |
| Day03.BatteryBank.Parse | day03/main.go:27-38 | each total grows by the sum, over the lines of two or more characters, of the bank's best 2-digit and 12-digit joltages |
| Day04.CellIndex | day04/main.go:79 | cell (x, y) of a W×H grid stored row by row is at `W*y + x`, inside the buffer |
| Day04.NeighborCountBound | day04/main.go:127-151 | a cell never has more neighbouring rolls than the kernel has enabled entries |
| Day04.DefaultNeighborCountBound | day04/main.go:25-31 | with the default kernel a cell has at most 8 neighbouring rolls |
| Day04.AccessibleBelow | day04/main.go:109-125 | exactly the accessible buffer indices below n, in increasing order |
| Day04.AccessibleCell | day04/main.go:111-121 | the cell at column x and row y is accessible exactly when it holds '@' and has fewer than 4 neighbouring rolls |
| Day04.AccessibleCountIsLength | day04/main.go:75-125 | part 1's count and the length of the position list agree on the same grid |
| Day04.RemoveRound | day04/main.go:96-103 | one round turns exactly the cells accessible before it into '.', and leaves every other cell |
| Day04.RoundCount | day04/main.go:101-104 | a round removes exactly as many rolls as were accessible |
| Day04.Fixpoint | day04/main.go:94-106 | the end state of the removal rounds: no roll is accessible, only rolls were removed, and the roll count did not grow |
| Day04.PadRow | day04/main.go:55-59 | a line cut or padded with zero bytes to the grid width |
| Day04.GridOf | day04/main.go:50-60 | the buffer holds `Width` cells per line |
| Day04.NonEmptyLines | day04/main.go:38-44 | only non-empty lines, and no more than were read |
| Day04.ClearCells | day04/main.go:101-103 | exactly the listed cells become '.' and every other cell keeps its value |
| Day04.FillGrid | day04/main.go:52-60 | a fresh buffer holding the lines row by row, each cut or zero-padded to the width |
| Day04.CopyRow | day04/main.go:55-59 | one row is written into its place in the buffer, the rest of the buffer unchanged |
| Day04.PrintDept.constructor | day04/main.go:25-31 | an empty grid and the 3×3 kernel of all eight neighbours without the centre |
| Day04.PrintDept.GetNeighborCount | day04/main.go:127-151 | the count of '@' cells at the kernel's enabled offsets that lie inside the grid |
| Day04.PrintDept.CountAccessibleRolls | day04/main.go:74-91 | the number of rolls with fewer than 4 neighbouring rolls |
| Day04.PrintDept.FindAccessiblePositions | day04/main.go:108-125 | the indices of the accessible rolls, in increasing order |
| Day04.PrintDept.RemoveAllAccessible | day04/main.go:93-106 | the grid ends at the fixpoint of the removal rounds and `TotalRemoved` grows by the number of rolls removed; nothing else changes |
| Day04.PrintDept.Parse | day04/main.go:33-64 | with no non-empty line nothing changes; otherwise the width is the first line's length, part 1 counts the accessible rolls of the read grid and part 2 removes them round by round |
| Day05.Interval | day05/main.go:87 | a range covers exactly the IDs from its start to its end inclusive, `end - start + 1` of them when it is non-empty |
| Day05.CoveredMembership | day05/main.go:84-92 | an ID is in the union of the ranges exactly when some range holds it |
| Day05.CoveredPermutation | day05/main.go:100-105 | reordering the ranges does not change the IDs they cover |
| Day05.Insert | day05/main.go:103-105 | inserting keeps the list sorted by start and adds exactly the one range |
| Day05.SortByStart | day05/main.go:100-105 | the sorted copy is a permutation of the ranges, sorted by start |
| Day05.CoveredBelowLast | day05/main.go:107-120 | every ID covered by separated ranges is at most the last end |
| Day05.SeparatedCount | day05/main.go:122-127 | separated ranges cover exactly the sum of their lengths |
| Day05.AbsorbCovers | day05/main.go:109-120 | one step of the merge keeps the merged ranges separated and adds exactly the next range's IDs |
| Day05.MergeInvariant | day05/main.go:109-120 | the merge loop's invariant is kept by absorbing the next sorted range |
| Day05.AbsorbRange | day05/main.go:110-119 | one iteration extends the last merged range when the range reaches it and appends it otherwise |
| Day05.MergeSorted | day05/main.go:107-120 | for non-empty ranges sorted by start, the merged ranges are separated and cover exactly the IDs the sorted ranges cover |
| Day05.ReadBlank | day05/main.go:44-48 | ranges are read exactly until the first blank line |
| Day05.RangeLineFormat | day05/main.go:50-62 | a range written "start-end" reads back as itself |
| Day05.ReadRanges | day05/main.go:41-62 | ranges written one per line read back as themselves, with no blank line among them |
| Day05.ReadIdsAfterBlank | day05/main.go:63-70 | after a blank line, lines written by `Itoa` add exactly their IDs and no ranges |
| Day05.ParseDatabase | day05/main.go:37-71 | a database written as ranges, a blank line and IDs reads back as those ranges and IDs |
| Day05.CountFreshIsSetSize | day05/main.go:73-78 | with no repeated ID, part 1 is the size of the set of available IDs some range holds |
| Day05.FreshAtMostTotal | day05/main.go:17-23 | with no repeated ID, part 1 never exceeds part 2 |
| Day05.ReadSections | day05/main.go:41-71 | the line loop yields the ranges up to the first blank line and the IDs after it |
| Day05.ReadSectionLine | day05/main.go:42-70 | one line: a blank line switches to IDs, a well-formed line adds its range or ID, anything else is skipped |
| Day05.Cafeteria.constructor | day05/main.go:26-28 | no ranges, no ingredients, both counts 0 |
| Day05.Cafeteria.IsFresh | day05/main.go:84-92 | true exactly when some range holds the ID |
| Day05.Cafeteria.CountTotalFreshIDs | day05/main.go:94-128 | 0 with no ranges; for non-empty ranges, the number of distinct IDs their union covers |
| Day05.Cafeteria.Parse | day05/main.go:37-82 | the ranges and IDs read are appended; part 1 grows by the number of held IDs some range holds; part 2 is 0 with no ranges and the size of the union for non-empty ranges |
| Day05.Cafeteria.Tally | day05/main.go:73-81 | the ranges and IDs are unchanged; the two counts are as in `Parse` |
| Day06.IsColumnAllSpaces | day06/helpers.go:20-31 | true exactly when every line is too short for the column or has a space there |
| Day06.ColumnDigits | day06/helpers.go:37-47 | only digits are kept from the column |
| Day06.ReadColumnAsNumber | day06/helpers.go:33-47 | the column's digits, top to bottom, folded into a decimal number with the topmost digit most significant |
| Day06.ColumnWithoutDigits | day06/helpers.go:39-44 | a column holding no digit reads as 0 |
| Day06.ColumnOneTwoThree | day06/helpers.go:36 | a column reading '1', '2', '3' from the top is 123 |
| Day06.ApplyOperation | day06/helpers.go:49-68 | 0 for no numbers, otherwise the sum for '+' and the product for any other operator |
| Day06.CombineSingle | day06/helpers.go:57 | a single number is its own result, whatever the operator |
| Day06.SumAppend | day06/helpers.go:58-65 | the sum of a concatenation is the sum of the parts |
| Day06.ProductAppend | day06/helpers.go:58-65 | the product of a concatenation is the product of the parts |
| Day06.CombineAppend | day06/helpers.go:52-68 | over non-empty parts, combining the whole is combining the parts' results with the same operator |
| Day06.RowsOf | day06/main.go:53-62 | one row of numbers per number line |
| Day06.OneProblem | day06/main.go:67-77 | with one number per row and one operator, the single problem combines the first number of every row |
| Day06.ParseRow | day06/main.go:55-60 | the integers of a line's whitespace-separated fields, in order, skipping fields that are not integers |
| Day06.GatherColumn | day06/main.go:70-75 | the `col`-th number of every row long enough to have one, top to bottom |
| Day06.SolveHorizontal | day06/main.go:46-79 | the total over the operator fields of each problem's column of numbers combined with the field's first character |
| Day06.RunEnd | day06/main.go:108-116 | the column where a run of non-blank columns stops lies left of where it started |
| Day06.RunIsMaximal | day06/main.go:108-116 | every column of a run is non-blank, and the run stops at a blank column or the left edge |
| Day06.RunNumbersAreColumns | day06/main.go:113-114 | a run's numbers are its columns' numbers, right to left |
| Day06.RunOpDefault | day06/main.go:107 | with no '+' or '*' under the run the operator stays '*' |
| Day06.RunOpIsLeftmost | day06/main.go:110-112 | otherwise the leftmost '+' or '*' of the run is the operator |
| Day06.MaxWidth | day06/main.go:85-91 | the widest line's length: no line is longer and, with any line, one is that long |
| Day06.ReadProblem | day06/main.go:106-116 | the inner loop returns the run's numbers, its operator and the column left of it |
| Day06.SolveVertical | day06/main.go:81-123 | from the widest line's last column leftwards, blank columns are skipped and each run of columns adds its numbers combined with its operator |
| Day06.NonEmptyLines | day06/helpers.go:8-18 | only non-empty lines are kept |
| Day06.MathWorksheet.constructor | day06/main.go:22-25 | both results 0 |
| Day06.MathWorksheet.Parse | day06/main.go:32-44 | with fewer than two non-empty lines nothing changes; otherwise part 1 is the horizontal reading and part 2 the vertical one of the non-empty lines |
| Day07.BvOf | day07/main.go:56 | a column offset below 64 as an 8-bit shift count, with the same value |
| Day07.MaskSet | day07/main.go:56 | setting column i's bit in its word sets that column and no other |
| Day07.RowMask | day07/main.go:49-59 | the row loop yields one word per 64 columns with a bit exactly at each '^', reports whether the line has a '^', and keeps the last 'S' as the start column |
| Day07.ScanColumn | day07/main.go:52-58 | one column keeps the row loop's state: the bits of the '^' so far, the splitter flag and the last 'S' |
| Day07.SetColumn | day07/main.go:56 | the bit of column i is set and every other column keeps its bit |
| Day07.ScanStep | day07/main.go:51-59 | one more character for the '^' test and the 'S' scan |
| Day07.Row | day07/main.go:106-109 | the splitter flags of the first `width` columns of a mask are its `hasSplitter` bits |
| Day07.Pass | day07/main.go:87-97 | one column passes its count down, or to each neighbour that exists when it holds a splitter |
| Day07.ScatterReceived | day07/main.go:83-98 | after the first n columns, a column holds exactly what those columns sent it |
| Day07.ScatterGathers | day07/main.go:83-98 | after a row, a column holds its own count unless it has a splitter, plus the counts of the splitters beside it |
| Day07.SumUpdate | day07/main.go:112-118 | adding x to one entry adds x to the total |
| Day07.ScatterSum | day07/main.go:83-98 | the total after a row is the total before plus the gain of each hit splitter |
| Day07.SplitSum | day07/main.go:89-94 | a hit splitter adds its count once for each neighbour that exists |
| Day07.Run | day07/main.go:81-100 | the timelines after every splitter row in turn keep the width |
| Day07.RunNonNegative | day07/main.go:76-100 | counts never go negative, so the timeline total is a count |
| Day07.SplitterAt | day07/main.go:106-109 | the bit test at a column agrees with the row's splitter flags |
| Day07.ScatterRow | day07/main.go:81-99 | one row clears `next`, scatters the timelines into it and counts the occupied splitter columns |
| Day07.ScatterColumn | day07/main.go:83-98 | one column keeps the inner loop's invariant |
| Day07.Clear | day07/main.go:82 | every count back to 0 |
| Day07.PassColumn | day07/main.go:83-98 | one column passes its count on, and reports a hit exactly when it is occupied and holds a splitter |
| Day07.SplitColumn | day07/main.go:88-94 | a splitter column's count goes to each neighbour that exists |
| Day07.AddAt | day07/main.go:90-96 | `next[i] += count` changes that one entry |
| Day07.SumOf | day07/main.go:111-118 | the total of the counts, 0 for none |
| Day07.TachyonManifold.constructor | day07/main.go:26-29 | no rows, width 0, start column 0, both results 0 |
| Day07.TachyonManifold.Parse | day07/main.go:36-66 | the width is set by the first non-empty line, the start column is the last 'S' read, every line with a '^' is appended as its mask, and then `solve` gives its results |
| Day07.TachyonManifold.ParseLine | day07/main.go:39-64 | one turn of the line loop: an empty line is skipped and any other is read |
| Day07.TachyonManifold.ReadLine | day07/main.go:44-63 | one non-empty line: the width when none is set, the start column, and its mask appended exactly when it has a '^' |
| Day07.TachyonManifold.Solve | day07/main.go:68-104 | with no splitter row, part 2 is 1; otherwise part 1 is the number of splitter hits and part 2 the total of the timelines after one beam at the start column passes every row |
| Day07.RowDone | day07/main.go:81-100 | one more row keeps the row loop's invariant |
| Day07.ParseStep | day07/main.go:39-64 | what line i adds to the width, the start column and the splitter rows |
| Day07.WidthSettles | day07/main.go:44-47 | once set, the width stays for the rest of the input |
| Points.Square | day08/helpers.go:18-21 | a square is never negative and is 0 only for 0 |
| Points.SquareIsProduct | day08/helpers.go:18-21 | the square is `d*d`, as the Go code multiplies |
| Points.SquaresAsProducts | day08/helpers.go:18-21 | the distance is `dx*dx + dy*dy + dz*dz` over the coordinate differences |
| Points.DistSq | day08/helpers.go:18-21 | the squared distance is never negative and is 0 exactly for the same position |
| Points.DistSqSymmetric | day08/kdtree.go:353-356 | the distance from a to b is the distance from b to a, so one key per pair loses nothing |
| Points.PlaneBound | day08/kdtree.go:298-303 | a box on the far side of a splitting plane is at least the plane's squared distance from the query |
| Edges.RowUpTo | day08/helpers.go:17-22 | the inner loop for box i up to j appends one edge for each j' with i < j' < j |
| Edges.RowsBelowLength | day08/helpers.go:14-23 | the first i rows hold `i*n - i*(i+1)/2` edges |
| Edges.AllPairsLength | day08/helpers.go:14 | all rows hold `n*(n-1)/2` edges, the capacity `buildEdges` reserves |
| Edges.RowMembers | day08/helpers.go:17-22 | row i holds exactly the pairs (i, j) for i < j below the bound, each with its distance |
| Edges.RowsMembers | day08/helpers.go:16-23 | the first i rows hold exactly the pairs whose smaller index is below i |
| Edges.RowIncreasing | day08/helpers.go:17-22 | the pairs of a row increase, so none repeats |
| Edges.RowsIncreasing | day08/helpers.go:16-23 | the pairs increase along all the rows, so none repeats |
| Edges.AllPairsExact | day08/helpers.go:16-23 | the unsorted edges are exactly the pairs i < j, each with its distance, and no pair occurs twice |
| Edges.InsertByDist | day08/helpers.go:25-27 | inserting into a list sorted by distance keeps it sorted and adds exactly that edge |
| Edges.SortByDist | day08/helpers.go:25-27 | the sorted edges are a permutation of the input, closest first |
| Edges.BuildEdges | day08/helpers.go:12-30 | the nested loops append every pair i < j row by row, and the result is a permutation of that list in non-decreasing distance; the order among equal distances is left open |
| Edges.BuildEdgesExact | day08/helpers.go:12-30 | any permutation of the appended pairs holds exactly the pairs i < j, each with its distance, n(n-1)/2 of them |
| Forest.MaxRank | day08/helpers.go:58-65 | a bound on every rank, the measure that `find` descends |
| Forest.Root | day08/helpers.go:43-49 | following parents from i ends at a root; it is i only when i is its own parent, and otherwise its rank is above i's |
| Forest.InitForest | day08/helpers.go:33-40 | `n` singletons form a forest in which every index is its own root, n roots in all |
| Forest.CompressForest | day08/helpers.go:44-46 | pointing i at its root keeps a forest with the same roots |
| Forest.CompressRoot | day08/helpers.go:44-46 | pointing i at its root leaves the root of every index as it was |
| Forest.LinkRank | day08/helpers.go:63-65 | linking changes the rank of the winner only, by one on a tie |
| Forest.LinkForest | day08/helpers.go:58-66 | linking the lower-ranked root under the other keeps a forest, with the loser no longer a root |
| Forest.LinkRoot | day08/helpers.go:58-66 | after linking, an index whose root was the loser has the winner as root, and every other keeps its root |
| Forest.LinkAll | day08/helpers.go:58-66 | linking, for every index at once: one root fewer, and exactly the loser's set moves to the winner |
| Components.Relabel | day08/main.go:90-95 | joining the component of b into that of a relabels exactly the indices labelled like b |
| Components.LabelsAfter | day08/main.go:90-95 | the components after the first c edges label every box |
| Components.SeparatedBeforeAll | day08/main.go:104-107 | the loop did not stop early: several circuits remained before each edge used |
| Components.StillSeparated | day08/main.go:90-107 | with more than one root, the next edge is reached |
| Components.MergeLoopEnd | day08/main.go:90-108 | when the loop ends the roots count the components, and stopping before the last edge means one circuit |
| Components.LastMerge | day08/main.go:91-94 | the last merging edge joins two boxes of the input |
| Components.InitPartition | day08/helpers.go:33-40 | a fresh forest describes n singleton components |
| Components.MergePartition | day08/helpers.go:58-66 | a union across two components joins exactly those two |
| Components.MergeCase | day08/helpers.go:58-66 | two indices share a root after a union exactly when they shared one before or lay in the two joined sets |
| Components.RootsAreClasses | day08/main.go:86-92 | the forest holds one root per component, so `circuits` counts the components |
| Components.SizesStep | day08/helpers.go:72-74 | counting one more box adds one to the size of its own circuit only |
| Components.SizesSum | day08/helpers.go:71-78 | the counts over all roots sum to the boxes counted |
| Components.CountOwn | day08/helpers.go:72-74 | a root counts at least itself |
| Components.SizesPositive | day08/helpers.go:71-78 | every size collected is at least one, one per root |
| Components.CircuitSizesSum | day08/helpers.go:71-78 | one size per circuit, each at least one, summing to the number of boxes |
| Components.InsertDescending | day08/helpers.go:79 | inserting into a list sorted largest first keeps it sorted and adds exactly that value |
| Components.SortDescending | day08/helpers.go:79 | the sizes, largest first, as a permutation |
| Components.NonIncreasingUnique | day08/helpers.go:79 | two lists sorted largest first with the same values are equal, so the order of the map does not change the sorted sizes |
| Components.Take | day08/helpers.go:82 | the loop stops after `m` factors or when the sizes run out |
| Components.TopProductPermutation | day08/helpers.go:75-85 | the product of the m largest depends only on the multiset of sizes |
| Components.TopProductLargest | day08/helpers.go:79-85 | every factor taken is at least every size left out, and the factors are among the sizes |
| Knn.InsertAt | day08/kdtree.go:141-142 | inserting at a position adds exactly that neighbour |
| Knn.FirstBelowSplits | day08/kdtree.go:136-139 | on a buffer sorted farthest first, the backward walk stops between the entries at least d away and the closer ones |
| Knn.PrefixAboveSplits | day08/kdtree.go:153-156 | the forward walk of a full buffer stops between the entries farther than d and the rest |
| Knn.InsertDescending | day08/kdtree.go:136-142 | inserting where the walk stops keeps the buffer sorted farthest first |
| Knn.OfferDescending | day08/kdtree.go:132-161 | `TryAdd` keeps the buffer sorted farthest first, holding `min(k, count+1)` |
| Knn.OfferKeepsBest | day08/kdtree.go:132-161 | a buffer holding the k nearest of the offers so far still does after one more offer |
| Knn.OfferRejects | day08/kdtree.go:147-150 | a full buffer rejecting a neighbour no closer than its farthest still holds the k nearest |
| Knn.OfferReplaces | day08/kdtree.go:152-160 | a full buffer dropping its farthest for a closer neighbour still holds the k nearest |
| Knn.ReplacedLeftOut | day08/kdtree.go:157-159 | after a replacement, the offers left out are those left out before and the dropped farthest |
| Knn.ReplacedCloser | day08/kdtree.go:152-160 | no neighbour kept after a replacement is farther than one left out |
| Knn.SkipKeepsBest | day08/kdtree.go:301-303 | skipped offers no closer than the farthest held keep the buffer the k nearest |
| Knn.Reverse | day08/kdtree.go:115-118 | the reversal holds the entries end for end |
| Knn.ReversePrefix | day08/kdtree.go:115-118 | the swapping loop reverses the first n cells in place and leaves the rest |
| Knn.SwapStep | day08/kdtree.go:116-117 | one swap widens the reversed part by one cell at each end |
| Knn.ReversedCells | day08/kdtree.go:116 | when the ends meet the prefix is reversed |
| Knn.ReverseAscending | day08/kdtree.go:112-119 | the reversal of a buffer sorted farthest first is sorted closest first with the same entries |
| Knn.ReverseMultiset | day08/kdtree.go:112-119 | reversing keeps the entries |
| Knn.KnnBuffer.constructor | day08/kdtree.go:100-105 | room for k neighbours, none held |
| Knn.KnnBuffer.Reset | day08/kdtree.go:108-110 | the count goes to 0 and nothing is held; the array is not touched |
| Knn.KnnBuffer.MaxDist | day08/kdtree.go:123-128 | the largest `int64` while there is room, otherwise the first entry, which bounds every entry held |
| Knn.KnnBuffer.Results | day08/kdtree.go:113-120 | the held entries reversed in place, closest first, as a permutation of what was held |
| Knn.KnnBuffer.ReverseHeld | day08/kdtree.go:116-118 | the loop reverses the held entries and leaves the rest of the array |
| Knn.KnnBuffer.TryAdd | day08/kdtree.go:132-161 | the buffer becomes the offer of the neighbour; it is added exactly when there is room or it is closer than the farthest, and a rejection changes nothing |
| Knn.KnnBuffer.SlotFromEnd | day08/kdtree.go:136-139 | the insertion point of the non-full buffer is the end of the entries at least d away |
| Knn.KnnBuffer.SlotFromStart | day08/kdtree.go:153-156 | the insertion point of the full buffer follows the entries farther than d |
| Knn.KnnBuffer.ShiftRight | day08/kdtree.go:141 | the `copy` moves the entries from pos up one place and leaves the others |
| Knn.KnnBuffer.ShiftLeft | day08/kdtree.go:158 | the `copy` moves the entries below pos down one place, dropping the first |
| KdTree.InsertSorted | day08/kdtree.go:58-60 | inserting into a list sorted on an axis keeps it sorted and adds exactly that point |
| KdTree.SortByAxis | day08/kdtree.go:58-60 | the points sorted on the axis, as a permutation |
| KdTree.Build | day08/kdtree.go:49-71 | the tree holds exactly the points, is split on the axis `depth % 3` at every node, is nil only for no points, and puts the lower half of the sorted points on the left |
| KdTree.MedianSplit | day08/kdtree.go:62-70 | the median's left part is at most it on the axis and its right part at least it, and together with it they are all the points |
| KdTree.Indexed | day08/kdtree.go:37-40 | one indexed point per box |
| KdTree.NewKDTree | day08/kdtree.go:31-45 | the tree of the boxes, each paired with its index, nil for none |
| KdTree.NewKDTreeItems | day08/kdtree.go:31-45 | every box occurs once in the tree under its own index, and the tree is ordered |
| KdTree.IndexedOnce | day08/kdtree.go:37-40 | each box is indexed once |
| KdTree.CandidatesExclude | day08/kdtree.go:277-280 | no candidate of the search carries the excluded index |
| KdTree.CandidateIsItem | day08/kdtree.go:277-280 | every candidate is a box of the tree other than the excluded one, at its distance from the query |
| KdTree.CandidatesSize | day08/kdtree.go:277-280 | one candidate for each box of the tree except those with the excluded index |
| KdTree.FarSide | day08/kdtree.go:297-303 | every box beyond a plane is at least the plane's squared distance from the query |
| KdTree.KBestReordered | day08/kdtree.go:194 | the k nearest stay the k nearest in any order |
| KdTree.KNearestSearchBuf | day08/kdtree.go:271-304 | the search leaves the buffer sorted, holding the k nearest of what it held and every box of the subtree but the excluded one |
| KdTree.SearchSides | day08/kdtree.go:282-303 | the query's side of the plane is searched first, then the other side |
| KdTree.SearchPair | day08/kdtree.go:295-303 | after the near side, the far side is searched only when the plane is closer than the farthest held, which loses none of the k nearest |
| KdTree.SearchFarSide | day08/kdtree.go:298-303 | skipping a side whose every box is no closer than the farthest held keeps the k nearest |
| KdTree.Subtrees | day08/kdtree.go:295-302 | the subtrees of an ordered tree are ordered one level down |
| KdTree.AddCandidate | day08/kdtree.go:277-280 | offering the node's own box keeps the buffer the k nearest |
| KdTree.CandidatesSplit | day08/kdtree.go:287-302 | a node's candidates are its own and those of its two sides, in either order |
| KdTree.BestOfSplit | day08/kdtree.go:287-302 | the k nearest over both sides and the node are the k nearest of the node's subtree |
| KdTree.SidesOfPlane | day08/kdtree.go:283-303 | both sides are smaller subtrees, and every box on the far side is at least the plane's distance away |
| KdTree.SecondIsFar | day08/kdtree.go:288-303 | the plane's squared distance is below the sentinel and bounds every box on the far side |
| KdTree.PlaneNear | day08/kdtree.go:298-301 | the plane through a node near the query is nearer still |
| KdTree.KNearestInto | day08/kdtree.go:187-195 | nil for an empty tree or k of 0; otherwise the k nearest boxes other than the excluded one, closest first |
| CandidateEdges.NormalizeEdgeKey | day08/kdtree.go:372-377 | the two indices, smaller first |
| CandidateEdges.NearestIsMinimum | day08/kdtree.go:350-358 | the edge set holds exactly the keys offered, each at no more than any distance offered for it |
| CandidateEdges.NearestAttained | day08/kdtree.go:354-356 | the distance kept for a key is one that was offered for it |
| CandidateEdges.CandidateFound | day08/kdtree.go:350-363 | every candidate edge was found by a query, at the least distance found for its pair |
| CandidateEdges.FoundIsCandidate | day08/kdtree.go:350-363 | every pair found by a query is a candidate edge |
| CandidateEdges.ItemOfIndexed | day08/kdtree.go:37-40 | every point of the tree is a box of the input under its own index |
| CandidateEdges.TreeNear | day08/kdtree.go:325 | the tree of boxes whose distances fit `int64` is near each of them |
| CandidateEdges.NeighborTrue | day08/kdtree.go:351 | a neighbour found from box i is another box at its true distance |
| CandidateEdges.NeighborsTrue | day08/kdtree.go:351-357 | every offer from a neighbour list of box i joins two distinct boxes, smaller first, at their distance |
| CandidateEdges.QueryStep | day08/kdtree.go:350-358 | one more query keeps the lists a choice of nearest neighbours offering true pairs |
| CandidateEdges.AllSightingsStep | day08/kdtree.go:350-358 | the offers of one more list follow those before it |
| CandidateEdges.NearestStep | day08/kdtree.go:354-356 | one more offer updates the edge set once |
| CandidateEdges.CollectCandidateEdges | day08/kdtree.go:346-369 | the edges are exactly the keys of the edge set the k-nearest lists build, at the least distance found, each pair once and ordered, at the true distance, closest first |
| CandidateEdges.QueryBox | day08/kdtree.go:351-357 | one turn of the outer loop: box i's neighbour list is a choice of its k nearest, and the edge set takes its offers |
| CandidateEdges.SortedCandidates | day08/kdtree.go:360-368 | the sorted list of the edge set's entries is the candidate list |
| CandidateEdges.OfferAll | day08/kdtree.go:352-357 | the inner loop offers each neighbour's normalized key and distance in turn |
| CandidateEdges.OfferNext | day08/kdtree.go:353-356 | one neighbour updates the edge set once |
| CandidateEdges.EdgeList | day08/kdtree.go:360-363 | one edge per entry of the edge set, each once |
| CandidateEdges.ItemIndex | day08/kdtree.go:16-21 | every box of a tree has its index among the tree's indices |
| CandidateEdges.ItemIsCandidate | day08/kdtree.go:277-280 | every box of a tree other than the excluded index is a candidate |
| CandidateEdges.FullList | day08/kdtree.go:328 | with room for every other box, the list of box i holds them all |
| CandidateEdges.SightingIn | day08/kdtree.go:350-353 | every neighbour of every list is offered |
| CandidateEdges.CandidatesComplete | day08/kdtree.go:328-329 | for at most 51 boxes, k = n-1 and the candidate edges are exactly the pairs i < j, as for the brute force |
| CandidateEdges.PairFound | day08/kdtree.go:328-329 | for at most 51 boxes every pair i < j is a candidate edge |
| Day08.SizesInRootOrder | day08/helpers.go:75-78 | the map's counts, one per root, in root order |
| Day08.ProductOfLargest | day08/helpers.go:79-85 | the product of the m largest sizes, or of all when there are fewer |
| Day08.EdgesValid | day08/helpers.go:16-23 | the brute-force edges, in any order, join boxes of the input, and there are some only for two boxes or more |
| Day08.CandidatesValid | day08/kdtree.go:360-363 | the candidate edges join boxes of the input |
| Day08.KnnCandidates | day08/kdtree.go:325-329 | the candidate edges from each box's `min(50, n-1)` nearest others |
| Day08.ReadBoxOfFormat | day08/main.go:56-66 | a box written as `x,y,z` reads back as the box |
| Day08.ReadBoxShort | day08/main.go:56-59 | a line with fewer than two commas gives no box |
| Day08.ReadBoxesStep | day08/main.go:51-66 | a line adds its box when it holds one, and nothing otherwise |
| Day08.KeptEach | day08/main.go:51-67 | lines that each give a box give exactly those boxes, in order |
| Day08.ReadBoxesOfFormat | day08/main.go:49-67 | boxes written one per line read back as the same boxes in the same order |
| Day08.ReadLines | day08/main.go:50-67 | the scanner loop yields a box from every line that holds one, in order |
| Day08.Playground.constructor | day08/main.go:39-41 | no boxes, no forest, both results 0 |
| Day08.Playground.InitUnionFind | day08/helpers.go:33-40 | n singletons, each its own parent with rank 0 |
| Day08.Playground.Find | day08/helpers.go:43-49 | the root of i, with i then pointing at it; every index keeps its root and the roots stay the same |
| Day08.Playground.Union | day08/helpers.go:52-67 | false exactly when i and j share a root, leaving the partition; otherwise the lower-ranked root goes under the other, that rank grows only on a tie, one root fewer, and exactly the two sets merge |
| Day08.Playground.Link | day08/helpers.go:58-66 | the lower-ranked of two roots goes under the other, whose rank grows on a tie |
| Day08.Playground.Solve | day08/main.go:73-114 | nothing changes without boxes; otherwise the edges are all pairs closest first, equal distances in an order left open, the forest describes the components of the edges used, the loop stops at one circuit, part 1 is the product of the three largest circuits right after edge `numConnections` if reached, and part 2 multiplies the X coordinates of the last merging edge only when one circuit is left |
| Day08.Playground.Parse | day08/main.go:49-69 | a box from every line that holds one, appended in order, then `Solve(1000)` |
| Day08.Playground.SolveWithKDTree | day08/kdtree.go:319-343 | nothing changes without boxes; otherwise the candidate edges of the k nearest are joined in order until `numConnections` are used or they run out, part 1 is the product of the three largest circuits then, and part 2 is not touched |
| Day08.Playground.JoinFirst | day08/kdtree.go:332-339 | the loop uses `min(numConnections, len(edges))` edges, none for a count of 0 or less, and the forest describes their components |
| Day08.Playground.MergeAll | day08/main.go:84-113 | the merge loop and part 2 over any edge list within the boxes |
| Day08.Playground.MergeEdges | day08/main.go:84-108 | the loop keeps the forest, the circuit count and the last merge in step with the edges used, and records part 1 once |
| Day08.Playground.MergeTurn | day08/main.go:90-102 | one turn: the next edge, then part 1 if it was edge `numConnections` |
| Day08.Playground.JoinNext | day08/main.go:91-95 | one edge while several circuits remain: a merge lowers the count and becomes the last merge |
| Day08.Playground.Part1At | day08/main.go:97-102 | right after edge `numConnections`, and only once, part 1 is recorded |
| Day08.Playground.RecordPart1 | day08/main.go:99-101 | the product of the three largest circuits of the current components |
| Day08.Playground.JoinEdge | day08/main.go:91 | `union` on an edge's ends merges exactly when they lay in different components |
| Day08.Playground.TopCircuitProduct | day08/helpers.go:70-86 | the product of the m largest circuit sizes, with the partition unchanged |
| Day08.Playground.CountCircuits | day08/helpers.go:71-74 | every root some box reaches, mapped to the number of boxes reaching it |
| Day08.Playground.CountOne | day08/helpers.go:73 | the root of box i gains one |
| Day09.MinOf | day09/helpers.go:19-27 | the running minimum started at the first value is a value of the list and at most every value |
| Day09.MaxOf | day09/helpers.go:19-27 | the running maximum started at the first value is a value of the list and at least every value |
| Day09.RunningStep | day09/helpers.go:26-27 | one more value updates the running minimum and maximum with `min` and `max` |
| Day09.ScanStep | day09/helpers.go:22-28 | one more tile adds its value to the set and updates the bounds |
| Day09.ScanTiles | day09/helpers.go:17-28 | the loop gathers exactly the tiles' X and Y values, with their minimum and maximum |
| Day09.OnAxis | day09/helpers.go:36-37 | every tile value is on its axis |
| Day09.SetHasMin | day09/helpers.go:36-37 | a non-empty set of integers has a least element |
| Day09.SortedKeys | day09/helpers.go:36-37 | `slices.Sorted` of a set's keys: strictly increasing, holding exactly the set |
| Day09.PrependLeast | day09/helpers.go:36-37 | the least key before the sorted rest keeps the order |
| Day09.PositionMap | day09/helpers.go:39-46 | each coordinate maps to its position, and nothing else is a key |
| Day09.IndexOfValue | day09/helpers.go:39-46 | a coordinate sits at exactly one position, the one the map gives |
| Day09.AxisEnds | day09/helpers.go:30-37 | the axis starts one below the least tile value and ends one above the greatest, so every tile value lies strictly inside |
| Day09.IndexSpan | day09/helpers.go:121-122 | the index range between two coordinates holds exactly the axis positions whose values lie between them |
| Day09.OnSomeSegmentExists | day09/helpers.go:59-80 | a cell is on one of the first k sides exactly when some side i < k covers it |
| Day09.MarkColumn | day09/helpers.go:64-70 | a vertical side marks the cells of its column whose Y value lies between its ends, and nothing else |
| Day09.MarkRow | day09/helpers.go:72-78 | a horizontal side marks the cells of its row whose X value lies between its ends, and nothing else |
| Day09.IndexIsWithin | day09/helpers.go:39-46 | every index the map gives is a position of the axis |
| Day09.IsInsidePolygon | day09/helpers.go:120-129 | true exactly when no cell in the index rectangle of the corners is outside |
| Day09.RectangleCells | day09/helpers.go:120-129 | the index rectangle holds exactly the grid cells whose coordinates lie between the corners |
| Day09.Area | day09/main.go:81-83 | the area counts tiles with both corners included, so it is at least one |
| Day09.SearchRow | day09/main.go:77-92 | for tile i, part 1 becomes at least every area with a later tile, and is either unchanged or one of them; part 2 likewise over the rectangles inside |
| Day09.SearchPairs | day09/main.go:76-93 | part 1 becomes the largest area over all pairs unless it was larger already, part 2 the largest over the pairs that pass the inside test, and part 2 stays at most part 1 |
| Day09.PairInsideClear | day09/main.go:89 | a pair passes the inside test exactly when no cell of its rectangle is reachable from the grid corner |
| Day09.ReadTileOfItoa | day09/main.go:39-59 | a tile written as `x,y` reads back as the tile |
| Day09.ReadTileNoComma | day09/main.go:43-46 | a line without a comma gives no tile |
| Day09.ReadTiles | day09/main.go:37-60 | at most one tile per line |
| Day09.ReadTilesStep | day09/main.go:37-60 | a line adds its tile when it holds one, and nothing otherwise |
| Day09.TilesAppend | day09/main.go:58-59 | the two lists grow together, one value each |
| Day09.ReadLines | day09/main.go:37-60 | the scanner loop yields the X and Y values of every line that holds a tile, in order |
| Day09.MovieTheater.constructor | day09/main.go:25-27 | no tiles and both results 0 |
| Day09.MovieTheater.BuildCoordinateMaps | day09/helpers.go:14-49 | the two compressed axes, each the sorted tile values with one padding value at each end, with their index maps |
| Day09.MovieTheater.MarkBoundary | day09/helpers.go:52-83 | a fresh grid over the axes in which a cell is marked exactly when it lies on a side of the polygon, the side from tile i to tile (i+1) mod n |
| Day09.MovieTheater.BuildPolygonMap | day09/helpers.go:6-11 | the axes, their maps, the boundary grid and the cells reachable from its corner without crossing it |
| Day09.MovieTheater.Solve | day09/main.go:66-94 | nothing changes with fewer than two tiles; otherwise part 1 is the largest area over all pairs and part 2 the largest over the pairs whose rectangle has no cell reachable from the corner, unless the old results were larger |
| Day09.MovieTheater.Parse | day09/main.go:34-63 | a tile from every line that holds one, appended in order, then `solve` |
| Day09.GridOfAxes | day09/helpers.go:120-129 | the flood-filled grid over two axes has room for every index their maps give |
| Day09.PairsBest | day09/main.go:66-94 | what the pair search found over the flood fill is the best over every pair, and over the pairs whose rectangle is clear of the outside |
| Day09.PairsClear | day09/main.go:89 | for every pair, passing the inside test is the same as having no rectangle cell reachable from the corner |
| Flood.AdjacentMove | day09/helpers.go:96-104 | every neighbour is one of the four moves |
| Flood.CornerReachable | day09/helpers.go:93-94 | the corner (0, 0) starts the fill |
| Flood.ReachStep | day09/helpers.go:104-112 | a walk to a cell goes on to an open neighbour |
| Flood.ReachableOpen | day09/helpers.go:108 | every reachable cell but the corner is off the boundary |
| Flood.WalkInSeen | day09/helpers.go:99-114 | when every seen cell has had its open neighbours seen, the end of every walk from the corner is seen |
| Flood.PopStep | day09/helpers.go:100-101 | taking the head of the queue starts scanning its four neighbours |
| Flood.AddStep | day09/helpers.go:111-112 | an open neighbour not seen yet is seen and queued |
| Flood.ScanDone | day09/helpers.go:103-113 | after the four directions the cell is expanded |
| Flood.Shrinks | day09/helpers.go:99-114 | seeing more cells of the grid leaves fewer unseen, so the loop ends |
| Flood.RowCellsCount | day09/helpers.go:88-90 | a row has width cells |
| Flood.AllCellsCount | day09/helpers.go:87-90 | the grid has width times height cells |
| Flood.AllCellsSplit | day09/helpers.go:87-90 | the grid is its lower rows and its top row |
| Flood.SeenBound | day09/helpers.go:99-114 | at most width times height cells are seen, so at most that many are taken from the queue |
| Flood.FillComplete | day09/helpers.go:99-114 | once the queue is empty the seen cells are exactly those reachable from the corner |
| Flood.Mark | day09/helpers.go:111 | one more cell marked outside |
| Flood.VisitNeighbor | day09/helpers.go:104-112 | one direction: a neighbour in the grid, not marked and not on the boundary is marked and queued; any other changes nothing |
| Flood.VisitNeighbors | day09/helpers.go:103-113 | the four directions expand the cell, queueing exactly the cells newly seen |
| Flood.FloodFillOutside | day09/helpers.go:86-117 | a fresh grid in which a cell is outside exactly when a walk through cells off the boundary reaches it from the corner, with at most width times height cells taken from the queue |
| Day10.KeptInts | day10/main.go:67-73 | at most one integer per part, and when every part parses, exactly the parts' values in order |
| Day10.KeptIntsStep | day10/main.go:68-72 | one more part appends its value when `strconv.Atoi` accepts it, and nothing otherwise |
| Day10.ParseInts | day10/main.go:62-75 | `parseInts`: nothing for the empty string, otherwise the values of the comma-separated parts that parse, in order |
| Day10.Itoas | day10/main.go:62-75 | one decimal string per number |
| Day10.ParseIntsOfJoin | day10/main.go:62-75 | parsing numbers written out and joined with commas gives the numbers back |
| Day10.ParsedIntsSplit | day10/main.go:63-65 | the guard for the empty string gives what splitting it would |
| Day10.ParseButtons | day10/main.go:52-60 | one list per match, the parsed text of its first group |
| Day10.ButtonMasks | day10/helpers.go:13-23 | one mask per button |
| Day10.PressXorBit | day10/main.go:95-97 | after a sequence of presses a light is on exactly when it is one of the diagram's lights and the presses toggled it an odd number of times |
| Day10.ExpandState | day10/main.go:95-106 | the inner loop: a press reaching the diagram proves one more press than the current level is the fewest; otherwise the state is expanded and every newly visited value is queued |
| Day10.SolveXOR | day10/main.go:77-109 | 0 for a dark diagram; a positive result is the fewest presses that light exactly the diagram; 0 otherwise means no number of presses lights it; at most `1 << len(pattern)` states leave the queue |
| Bits.Pow2 | day10/helpers.go:7 | `1 << i` is positive |
| Bits.ZeroBit | day10/helpers.go:4 | zero has no bit set |
| Bits.BitsEqual | day10/helpers.go:3-23 | two numbers with the same bits are equal |
| Bits.OrBit | day10/helpers.go:7 | a bit of `a \| b` is set when it is set in either |
| Bits.XorBit | day10/main.go:97 | a bit of `a ^ b` is set when it is set in exactly one of them |
| Bits.Pow2Bit | day10/helpers.go:7 | `1 << i` has bit i set and no other |
| Bits.BitsBelow | day10/helpers.go:3-23 | a number below `1 << n` has no bit at n or above |
| Bits.BelowOfBits | day10/helpers.go:3-23 | a number with no bit at n or above is below `1 << n` |
| Bits.XorBound | day10/main.go:97 | `^` of two numbers below `1 << n` stays below it |
| Bits.CardBelow | day10/main.go:89-105 | at most `bound` distinct values lie below `bound` |
| Day10Masks.PatternMaskBit | day10/helpers.go:3-11 | bit k of the diagram's mask is set exactly when position k holds `#` |
| Day10Masks.PatternMaskBound | day10/helpers.go:3-11 | the mask is below `1 << len(pattern)` |
| Day10Masks.PatternMaskZero | day10/helpers.go:3-11 | the mask is zero exactly when no light is on |
| Day10Masks.PatternToMask | day10/helpers.go:3-11 | `patternToMask`: the mask whose bit k is set exactly when position k holds `#` |
| Day10Masks.ListedMaskBit | day10/helpers.go:15-20 | the mask built from light k up has bit j set exactly when light k + j is below n and listed |
| Day10Masks.ButtonMaskBit | day10/helpers.go:15-20 | a button's mask has bit k set exactly when the button lists k and k is below n |
| Day10Masks.ButtonMaskBound | day10/helpers.go:17 | listed lights past the diagram are ignored, so the mask is below `1 << n` |
| Day10Masks.ButtonsToMasks | day10/helpers.go:13-23 | `buttonsToMasks`: one mask per button, each with exactly the button's lights below n |
| Day10Masks.FindFree | day10/helpers.go:65-77 | `findFree`: in increasing order, exactly the columns below n that are not pivots |
| Presses.ReachZero | day10/main.go:89-90 | no press leaves the lights all off |
| Presses.ReachNext | day10/main.go:97 | one more press of button j moves the lights from u to u ^ mask j |
| Presses.ReachPrev | day10/main.go:97 | the last of k + 1 presses follows k presses that reach some value |
| Presses.Start | day10/main.go:89-90 | the search starts with all lights off, visited and queued with no press |
| Presses.LevelUp | day10/main.go:92-94 | when the queue's head has one more press, every value one more press reaches has been visited |
| Presses.PopStep | day10/main.go:93-94 | taking the head of the queue starts trying the buttons from it |
| Presses.AddStep | day10/main.go:102-105 | a new value is visited and queued one press further |
| Presses.FoundStep | day10/main.go:98-100 | reaching the diagram from a state at the current level takes the fewest presses, one more than the level |
| Presses.ScanDone | day10/main.go:95-106 | after every button the state is expanded |
| Presses.Unreachable | day10/main.go:108 | an empty queue means no number of presses lights the diagram |
| Presses.ReachedVisited | day10/main.go:92-107 | with the queue empty, every value some number of presses reaches has been visited |
| Day11.ReadGraphKeys | day11/main.go:35-49 | after the lines, a device has outputs exactly when it had them before or some line gives it outputs |
| Day11.ReadGraphLast | day11/main.go:41-48 | a device takes the outputs of the last line that gives it outputs |
| Day11.ReadGraphUntouched | day11/main.go:35-49 | a device no line names keeps its outputs |
| Day11.Reactor.constructor | day11/main.go:23-27 | an empty graph and both results 0 |
| Day11.Reactor.CountPaths | day11/main.go:56-69 | `countPaths` returns the number of routes from the device to "out", and the memo keeps holding only correct counts, now including the device |
| Day11.Reactor.SumOutputs | day11/main.go:63-66 | the loop adds up the counts of the outputs in order, keeping the memo correct |
| Day11.Reactor.CountPathsWithCheckpoints | day11/main.go:72-104 | with the memo keyed by the device and both flags, the result is the number of routes to "out" that pass "dac" and "fft", unless the flags already record them, and the memo stays correct |
| Day11.Reactor.CheckSumOutputs | day11/main.go:98-101 | the loop adds up the checkpoint counts of the outputs in order with the flags passed on, keeping the memo correct |
| Day11.Reactor.CountPathsWithCheckpointsAsWritten | day11/main.go:72-104 | with the memo keyed by the string `current + ":d" + ":f"`, the result is correct only when no two devices and flags share a key; the result is always stored under the key, and a cached entry is returned as it is |
| Day11.Reactor.AsWrittenSumOutputs | day11/main.go:98-101 | the loop as written is the sum of the checkpoint counts of the outputs when no keys clash |
| Day11.Reactor.Parse | day11/main.go:33-53 | the graph after the lines, each line with ": " setting its device's outputs to its fields, then part 1 the routes from "you" and part 2 the routes from "svr" through both checkpoints |
| Day11.ClashRanked | day11/main.go:87-96 | the four-line graph `svr: x:d dac`, `dac: x`, `x: fft`, `fft: out` has no cycle |
| Day11.ClashKeys | day11/main.go:87-93 | device "x" with the "dac" flag and device "x:d" with no flag get the same memo key |
| Day11.ClashFromX | day11/main.go:72-104 | from "x" with "dac" passed, one route counts |
| Day11.ClashFromKey | day11/main.go:72-104 | from "x:d" no route counts: it has no outputs |
| Day11.ClashFromDac | day11/main.go:72-104 | from "dac" one route counts |
| Day11.ClashFromSvr | day11/main.go:72-104 | from "svr" one route counts: the one through "dac", "x" and "fft" |
| Day11.KeyClash | day11/main.go:87-96 | the two states that share the key "x:d" have different counts, 1 and 0, so no memo holds the right count for both, while from "svr" one route counts |
| Day11.Reactor.ClashReadBack | day11/main.go:72-104 | on the clash graph, the as-written count of "svr"'s first output "x:d" is 0 and is cached; with that memo, the as-written count of "x" after "dac" returns the cached 0, where the right count is 1 |
| Day11.SingleDeviceNoClash | day11/main.go:87-93 | the four memo keys of one device, one per pair of flags, are all different |
| DevicePaths.PrefixedCard | day11/main.go:98-101 | putting one output's index before each of its routes loses none |
| DevicePaths.CheckRoutesFromFirst | day11/main.go:98-101 | the routes gathered from the i-th output on start with an index from i on |
| DevicePaths.CheckRoutesCount | day11/main.go:72-104 | the checkpoint count is the number of routes it stands for |
| DevicePaths.CheckRoutesFromCount | day11/main.go:98-101 | the loop's sum from the i-th output is the number of routes gathered from it |
| DevicePaths.CheckRoutesExactly | day11/main.go:72-104 | the routes counted are exactly the routes to "out" that pass each checkpoint whose flag is not yet set |
| DevicePaths.CheckRoutesFromExactly | day11/main.go:98-101 | the routes gathered from the i-th output on are exactly those whose first step is an output from i on and whose rest is a counted route |
| DevicePaths.CountAllChecked | day11/main.go:56-69 | `countPaths` is the checkpoint count with both flags already set |
| DevicePaths.SumFromAllChecked | day11/main.go:63-66 | the loop of `countPaths` is the checkpoint loop with both flags set |
| DevicePaths.CountIsRoutes | day11/main.go:56-69 | `countPaths` is the number of distinct routes from the device to "out" |
| DevicePaths.CheckCountIsRoutes | day11/main.go:72-104 | from no flags, the checkpoint count is the number of routes to "out" passing both "dac" and "fft" |
| DevicePaths.CheckCountAtMost | day11/main.go:72-104 | asking for the checkpoints never counts more than `countPaths` |

## Left out

- Input and output are not modelled: `bufio.Scanner`, `os.Open`, `flag`, `log`, every `main` and every `String` method. Each `Parse` takes the input as a sequence of lines. `readLines` (day06/helpers.go:9-18) is that sequence.
- Go's `int` and `int64` are unbounded integers here. Sums and products are not modelled to wrap around: joltages, invalid-ID sums, worksheet totals, timeline counts, rectangle areas, circuit products and path counts. The parsers' range errors are not modelled either.
- The example values from the test files are not proved, except the day 1 example. These are 1227775554 and 4174379265 (day 2), 357 and 3121910778619 (day 3), 13 and 43 (day 4), 3 and 14 (day 5), 4277556 and 3263827 (day 6), 40 and 25272 (day 8), 50 and 24 (day 9), 7 (day 10) and 5 and 2 (day 11). Each would need the whole solver to be unfolded on a concrete input. The general properties they illustrate are proved instead.
- The tie order among equal keys is not specified. `sort.Slice`, `slices.Sorted` and `slices.SortFunc` are not stable, and Go map iteration order is random. A sort is specified as a permutation that is ordered by its key; nothing is said about the order of equal keys.
- Edges.BuildEdges: the result is stated as some permutation of all pairs in non-decreasing distance, not one fixed order. `sort.Slice` (day08/helpers.go:25) is not stable, so the order of equally distant pairs is not known. The model's own sort picks one such order.
- Day08.Playground.Solve: part 1 and part 2 are stated for the edge order the sort produced. That order is returned as a ghost value, and all that is known of it is that it is sorted by distance. When equally distant pairs straddle edge `numConnections` or the last merge, the results depend on that order, and the contract does not fix it.
- Day08.Playground.Parse: the same holds for `Solve(1000)`.
- Day03.FindMaxJoltageN: requires a bank made of decimal digits. On other bytes the Go code still runs, comparing bytes and adding `byte - '0'`; that is not modelled.
- Day03.BatteryBank.Parse: requires that every line is made of decimal digits, for the same reason.
- Day05.Cafeteria.CountTotalFreshIDs: the total is stated only when every range has start <= end. With a reversed range the merge result depends on the unstable sort's order among equal starts.
- Day05.Cafeteria.Parse: the same restriction applies to `TotalFresh`.
- Day07.TachyonManifold.Parse: the Go index-out-of-range panics are preconditions instead: a '^' beyond the word count, and a start column outside the width once there are splitters.
- Day10Masks.ButtonsToMasks: a negative button index makes Go's `1 << idx` panic, and is a precondition here. Masks are unbounded naturals, so Go's `1 << i` for i >= 63 is not modelled.
- Day10.SolveXOR: only `solveXOR` is modelled. The result added into `Factory.ResultPart1` by `Parse` is not modelled.
- Part 2 of day 10 is left out. This covers the float64 Gaussian elimination and the free-variable search: `findPivotRow`, `eliminateCol`, `gaussElim`, `sumSolution`, `extractCoefs`, `evalFreeVars`, `searchMin` and `abs` (day10/helpers.go:25-63, 79-163), and `solveAdd` (day10/main.go:111-145). Their results depend on floating point with epsilon tolerances.
- The regular-expression matching of day 10's `Parse` is left out (day10/main.go:27-50), because it relies on Go's `regexp` package. `ParseButtons` takes the submatches as its input.
- `Factory`, `NewFactory` and `Parse` of day 10 are therefore not modelled.
- Every day models a Go `string`, which is a sequence of bytes, as a sequence of characters. Go indexes strings by byte, as in `line[col]` (day06/helpers.go:25, 41 and day06/main.go:110), and ranges over them by rune (day 10). For ASCII inputs these agree. For other text they do not, and that is not modelled.
- GoText.IsSpace: only the six ASCII white-space characters are spaces. Go's `unicode.IsSpace` also treats U+0085, U+00A0, U+1680, U+2000 to U+200A, U+2028, U+2029, U+202F, U+205F and U+3000 as spaces.
- GoText.Fields: splits at ASCII white space only. On non-ASCII text `strings.Fields` also splits at the Unicode spaces listed under GoText.IsSpace.
- GoText.TrimSpace: trims ASCII white space only, for the same reason.
- `mapKeys` (day09/helpers.go:132-140) is a Go iterator helper, and its result is modelled as the key set. The coordinate maps `xIdx`/`yIdx` are Dafny maps.
- Day09.Area: Go computes the area in plain `int` (day09/main.go:83), which is 64 bits wide and can wrap around; here it is an unbounded integer.
- Day11.Reactor.Parse: requires a rank map under which every output leads to a lower rank, that is, an acyclic graph. On a cycle the Go recursion never ends. Part 2 is computed with the memo keyed by the device and both flags, the corrected form; see Findings.
- Day08.Playground.SolveWithKDTree: requires every squared distance between two boxes to be below the largest `int64`. The neighbour buffer uses that value as its sentinel.
- KdTree.Build: modelled on sequences. `buildKDTree` sorts the caller's slice in place with `sort.Slice`, so that slice ends up permuted; the model builds the same tree from a sorted copy and does not model the permuted slice.
- `KNearest`, `kNearestSearch` and `maxHeap` (day08/kdtree.go:163-268) are left out. They rest on the invariants of `container/heap`, and `SolveWithKDTree` does not use them; it uses the `KNNBuffer` path.
- `TestKDTreeOnRealInput` and the benchmarks (day08/example_test.go:77-134) read `input.txt` and are not part of this model.

## Findings

| source | as written | input that shows it | evidently intended | confidence | as-written member | corrected member |
|---|---|---|---|---|---|---|
| day11/main.go:87-96 | the memo key is the device name followed by ":d" and ":f" for the flags; a device named "x:d" with no flag and device "x" with the "dac" flag share the key "x:d" | lines `svr: x:d dac`, `dac: x`, `x: fft`, `fft: out`: "x:d" is counted first (0 routes) and cached; "x" after "dac" then returns the cached 0 (proved), so by the order of the loop part 2 adds 0 for "x:d" and 0 for "dac" and gives 0 (that last step is not proved) | a key that tells the device and the flags apart, so part 2 gives 1 (svr, dac, x, fft, out) | low: not executed; puzzle inputs name devices with three letters, so the clash needs a device name containing ':' | Day11.Reactor.CountPathsWithCheckpointsAsWritten, Day11.Reactor.ClashReadBack, Day11.KeyClash | Day11.Reactor.CountPathsWithCheckpoints |
