/**
 * Day 5: a database of fresh ingredient ID ranges ("3-5", inclusive), a blank
 * line, then the available ingredient IDs.  Part 1 counts the available IDs
 * that fall in some range; part 2 counts every ID covered by the union of the
 * ranges, by sorting a copy of the ranges by start and merging overlapping or
 * adjacent ones.
 */
module Day05 {
  import opened GoText

  type Range = (nat, nat)

  // -------------------------------------------------------------- sets

  /** The IDs a range covers. */
  function Interval(r: Range): (s: set<int>)
    ensures forall x :: x in s <==> r.0 <= x <= r.1
    ensures r.0 <= r.1 ==> |s| == r.1 - r.0 + 1
    decreases r.1
  {
    if r.1 < r.0 then {}
    else if r.1 == r.0 then {r.0}
    else
      var s := Interval((r.0, r.1 - 1));
      assert r.1 !in s;
      s + {r.1}
  }

  /** The IDs covered by some range of the list. */
  function Covered(rs: seq<Range>): set<int>
  {
    if |rs| == 0 then {} else Covered(rs[..|rs| - 1]) + Interval(rs[|rs| - 1])
  }

  /** Some range of the list contains `id`. */
  predicate InSomeRange(rs: seq<Range>, id: int)
  {
    exists k :: 0 <= k < |rs| && rs[k].0 <= id <= rs[k].1
  }

  /** `isFresh` and the union agree: an ID is covered exactly when some range holds it. */
  lemma {:induction false} CoveredMembership(rs: seq<Range>, id: int)
    ensures id in Covered(rs) <==> InSomeRange(rs, id)
  {
    if |rs| > 0 {
      var init := rs[..|rs| - 1];
      CoveredMembership(init, id);
      if InSomeRange(rs, id) {
        InSomeRangeSplit(rs, id);
      }
      if id in Covered(rs) && id !in Interval(rs[|rs| - 1]) {
        InSomeRangeInit(rs, id);
      }
    }
  }

  /** A range holding `id` is the last one or one before it. */
  lemma InSomeRangeSplit(rs: seq<Range>, id: int)
    requires |rs| > 0 && InSomeRange(rs, id)
    ensures InSomeRange(rs[..|rs| - 1], id) || id in Interval(rs[|rs| - 1])
  {
    var k :| 0 <= k < |rs| && rs[k].0 <= id <= rs[k].1;
    if k < |rs| - 1 {
      assert rs[..|rs| - 1][k] == rs[k];
    }
  }

  /** A range of the prefix is a range of the list. */
  lemma InSomeRangeInit(rs: seq<Range>, id: int)
    requires |rs| > 0 && InSomeRange(rs[..|rs| - 1], id)
    ensures InSomeRange(rs, id)
  {
    var k :| 0 <= k < |rs| - 1 && rs[..|rs| - 1][k].0 <= id <= rs[..|rs| - 1][k].1;
    assert rs[k] == rs[..|rs| - 1][k];
  }

  lemma InSomeRangeTransfer(rs: seq<Range>, ts: seq<Range>, id: int)
    requires multiset(rs) == multiset(ts) && InSomeRange(rs, id)
    ensures InSomeRange(ts, id)
  {
    var k :| 0 <= k < |rs| && rs[k].0 <= id <= rs[k].1;
    assert rs[k] in multiset(ts);
    var j :| 0 <= j < |ts| && ts[j] == rs[k];
  }

  /** Reordering the ranges does not change which IDs they cover. */
  lemma CoveredPermutation(rs: seq<Range>, ts: seq<Range>)
    requires multiset(rs) == multiset(ts)
    ensures Covered(rs) == Covered(ts)
  {
    forall id ensures id in Covered(rs) <==> id in Covered(ts) {
      CoveredMembership(rs, id);
      CoveredMembership(ts, id);
      if InSomeRange(rs, id) {
        InSomeRangeTransfer(rs, ts, id);
      }
      if InSomeRange(ts, id) {
        InSomeRangeTransfer(ts, rs, id);
      }
    }
  }

  // ---------------------------------------------------------- sorting

  predicate SortedByStart(rs: seq<Range>)
  {
    forall i, j :: 0 <= i < j < |rs| ==> rs[i].0 <= rs[j].0
  }

  lemma InsertedAbove(r: Range, rs: seq<Range>, tail: seq<Range>)
    requires |rs| > 0 && SortedByStart(rs) && r.0 > rs[0].0
    requires multiset(tail) == multiset(rs[1..]) + multiset{r}
    ensures forall k :: 0 <= k < |tail| ==> rs[0].0 <= tail[k].0
  {
    forall k | 0 <= k < |tail| ensures rs[0].0 <= tail[k].0 {
      assert tail[k] in multiset(tail);
      if tail[k] != r {
        assert tail[k] in multiset(rs[1..]);
        var j :| 0 <= j < |rs[1..]| && rs[1..][j] == tail[k];
        assert rs[j + 1] == tail[k];
      }
    }
  }

  /** Inserts `r` before the first range that starts later. */
  function Insert(r: Range, rs: seq<Range>): (out: seq<Range>)
    requires SortedByStart(rs)
    ensures SortedByStart(out)
    ensures multiset(out) == multiset(rs) + multiset{r}
  {
    if |rs| == 0 then [r]
    else if r.0 <= rs[0].0 then [r] + rs
    else
      var tail := Insert(r, rs[1..]);
      assert rs == [rs[0]] + rs[1..];
      InsertedAbove(r, rs, tail);
      [rs[0]] + tail
  }

  /** `slices.SortFunc(sorted, byStart)`: a permutation sorted by start; the order of
      ranges with equal starts is not specified by the source. */
  function SortByStart(rs: seq<Range>): (out: seq<Range>)
    ensures SortedByStart(out)
    ensures multiset(out) == multiset(rs)
  {
    if |rs| == 0 then []
    else
      var init := rs[..|rs| - 1];
      assert rs == init + [rs[|rs| - 1]];
      Insert(rs[|rs| - 1], SortByStart(init))
  }

  // ---------------------------------------------------------- merging

  /** Every range is non-empty. */
  predicate Proper(rs: seq<Range>)
  {
    forall k :: 0 <= k < |rs| ==> rs[k].0 <= rs[k].1
  }

  /** Ranges in increasing order with a gap of at least one ID between neighbours. */
  predicate Separated(rs: seq<Range>)
  {
    Proper(rs) && forall k :: 0 <= k < |rs| - 1 ==> rs[k].1 + 1 < rs[k + 1].0
  }

  /** Every ID covered by separated ranges is at most the last end. */
  lemma {:induction false} CoveredBelowLast(ms: seq<Range>)
    requires |ms| > 0 && Separated(ms)
    ensures forall x :: x in Covered(ms) ==> x <= ms[|ms| - 1].1
  {
    if |ms| > 1 {
      var init := ms[..|ms| - 1];
      assert Separated(init);
      CoveredBelowLast(init);
      assert init[|init| - 1] == ms[|ms| - 2];
    }
  }

  /** The IDs ranges cover, summed as `countTotalFreshIDs` sums them. */
  function Lengths(ms: seq<Range>): int
  {
    if |ms| == 0 then 0 else Lengths(ms[..|ms| - 1]) + Length(ms[|ms| - 1])
  }

  /** `r[1] - r[0] + 1`, negative for a range whose end is below its start. */
  function Length(r: Range): int
  {
    (r.1 as int) - (r.0 as int) + 1
  }

  /** Separated ranges cover exactly the sum of their lengths. */
  lemma {:induction false} SeparatedCount(ms: seq<Range>)
    requires Separated(ms)
    ensures |Covered(ms)| == Lengths(ms)
  {
    if |ms| > 0 {
      var init := ms[..|ms| - 1];
      var last := ms[|ms| - 1];
      assert Separated(init);
      SeparatedCount(init);
      if |init| > 0 {
        CoveredBelowLast(init);
        assert init[|init| - 1] == ms[|ms| - 2];
      }
      assert Covered(init) * Interval(last) == {};
    }
  }

  /** Two ranges where the second starts no earlier than the first and at most one past
      its end cover one range. */
  lemma MergeTwo(last: Range, r: Range)
    requires last.0 <= r.0 <= last.1 + 1
    ensures Interval(last) + Interval(r) == Interval((last.0, if r.1 > last.1 then r.1 else last.1))
  {
  }

  /** One step of the merge loop: `r` extends the last merged range when it starts at
      most one past its end, and is appended otherwise. */
  function Absorb(merged: seq<Range>, r: Range): seq<Range>
    requires |merged| >= 1
  {
    var last := merged[|merged| - 1];
    if r.0 <= last.1 + 1 then
      if r.1 > last.1 then merged[|merged| - 1 := (last.0, r.1)] else merged
    else merged + [r]
  }

  /** Absorbing a range that starts no earlier than the last merged one keeps the merged
      ranges separated and adds exactly the range's IDs to what they cover. */
  lemma AbsorbCovers(merged: seq<Range>, r: Range)
    requires |merged| >= 1 && Separated(merged)
    requires merged[|merged| - 1].0 <= r.0 <= r.1
    ensures |Absorb(merged, r)| >= 1 && Separated(Absorb(merged, r))
    ensures Absorb(merged, r)[|Absorb(merged, r)| - 1].0 <= r.0
    ensures Covered(Absorb(merged, r)) == Covered(merged) + Interval(r)
  {
    if r.0 <= merged[|merged| - 1].1 + 1 {
      AbsorbOverlap(merged, r);
    } else {
      AbsorbApart(merged, r);
    }
  }

  /** A range reaching the last merged one widens it. */
  lemma AbsorbOverlap(merged: seq<Range>, r: Range)
    requires |merged| >= 1 && Separated(merged)
    requires merged[|merged| - 1].0 <= r.0 <= r.1 && r.0 <= merged[|merged| - 1].1 + 1
    ensures |Absorb(merged, r)| >= 1 && Separated(Absorb(merged, r))
    ensures Absorb(merged, r)[|Absorb(merged, r)| - 1].0 <= r.0
    ensures Covered(Absorb(merged, r)) == Covered(merged) + Interval(r)
  {
    var last := merged[|merged| - 1];
    MergeTwo(last, r);
    if r.1 > last.1 {
      WidenLast(merged, r.1);
    }
  }

  /** Widening the last of separated ranges keeps them separated and covers the old
      ranges and the widened one. */
  lemma WidenLast(merged: seq<Range>, end: nat)
    requires |merged| >= 1 && Separated(merged) && end > merged[|merged| - 1].1
    ensures Separated(merged[|merged| - 1 := (merged[|merged| - 1].0, end)])
    ensures Covered(merged[|merged| - 1 := (merged[|merged| - 1].0, end)])
      == Covered(merged[..|merged| - 1]) + Interval((merged[|merged| - 1].0, end))
  {
    var out := merged[|merged| - 1 := (merged[|merged| - 1].0, end)];
    assert out[..|out| - 1] == merged[..|merged| - 1];
  }

  /** A range past the last merged one, with a gap, is appended. */
  lemma AbsorbApart(merged: seq<Range>, r: Range)
    requires |merged| >= 1 && Separated(merged)
    requires merged[|merged| - 1].0 <= r.0 <= r.1 && r.0 > merged[|merged| - 1].1 + 1
    ensures |Absorb(merged, r)| >= 1 && Separated(Absorb(merged, r))
    ensures Absorb(merged, r)[|Absorb(merged, r)| - 1].0 <= r.0
    ensures Covered(Absorb(merged, r)) == Covered(merged) + Interval(r)
  {
    var out := Absorb(merged, r);
    assert out[..|out| - 1] == merged;
  }

  /** The invariant of the merge loop after the first `i` sorted ranges: the last merged
      range starts no later than `sorted[i - 1]`, and with non-empty ranges the merged
      ones are separated and cover what those `i` ranges cover. */
  ghost predicate MergedUpTo(sorted: seq<Range>, i: nat, merged: seq<Range>, good: bool)
    requires 1 <= i <= |sorted|
  {
    && |merged| >= 1
    && merged[|merged| - 1].0 <= sorted[i - 1].0
    && (good ==> Separated(merged) && Covered(merged) == Covered(sorted[..i]))
  }

  /** The merge loop's invariant is kept by absorbing `sorted[i]`. */
  lemma MergeInvariant(sorted: seq<Range>, i: nat, merged: seq<Range>, good: bool)
    requires 1 <= i < |sorted| && SortedByStart(sorted)
    requires good ==> Proper(sorted)
    requires MergedUpTo(sorted, i, merged, good)
    ensures MergedUpTo(sorted, i + 1, Absorb(merged, sorted[i]), good)
  {
    if good {
      MergeGood(sorted, i, merged);
    } else {
      AbsorbStart(merged, sorted[i]);
    }
  }

  lemma MergeGood(sorted: seq<Range>, i: nat, merged: seq<Range>)
    requires 1 <= i < |sorted| && SortedByStart(sorted) && Proper(sorted)
    requires MergedUpTo(sorted, i, merged, true)
    ensures MergedUpTo(sorted, i + 1, Absorb(merged, sorted[i]), true)
  {
    var r := sorted[i];
    assert sorted[i - 1].0 <= r.0 <= r.1;
    AbsorbCovers(merged, r);
    CoveredStep(sorted, i);
  }

  lemma CoveredStep(rs: seq<Range>, i: nat)
    requires i < |rs|
    ensures Covered(rs[..i + 1]) == Covered(rs[..i]) + Interval(rs[i])
  {
    assert rs[..i + 1][..i] == rs[..i];
  }

  /** The last merged range never starts after the range just absorbed. */
  lemma AbsorbStart(merged: seq<Range>, r: Range)
    requires |merged| >= 1 && merged[|merged| - 1].0 <= r.0
    ensures |Absorb(merged, r)| >= 1
    ensures Absorb(merged, r)[|Absorb(merged, r)| - 1].0 <= r.0
  {
    var last := merged[|merged| - 1];
    if r.0 > last.1 + 1 {
      assert Absorb(merged, r)[|merged|] == r;
    }
  }

  /** The first range alone starts the merge. */
  lemma MergeStart(sorted: seq<Range>, good: bool)
    requires |sorted| >= 1 && (good ==> Proper(sorted))
    ensures MergedUpTo(sorted, 1, [sorted[0]], good)
  {
    var one: seq<Range> := [sorted[0]];
    assert sorted[..1] == one;
    assert one[..0] == [];
    assert Covered(one) == Interval(sorted[0]);
  }

  /** One iteration of the merge loop of `countTotalFreshIDs`. */
  method AbsorbRange(merged: seq<Range>, r: Range) returns (merged': seq<Range>)
    requires |merged| >= 1
    ensures merged' == Absorb(merged, r)
  {
    merged' := merged;
    var last := merged[|merged| - 1];
    if r.0 <= last.1 + 1 {
      if r.1 > last.1 {
        merged' := merged[|merged| - 1 := (last.0, r.1)];
      }
    } else {
      merged' := merged + [r];
    }
  }

  /** The merge loop of `countTotalFreshIDs` over ranges sorted by start: with
      non-empty ranges the result is separated and covers the same IDs. */
  method MergeSorted(sorted: seq<Range>) returns (merged: seq<Range>)
    requires |sorted| >= 1 && SortedByStart(sorted)
    ensures |merged| >= 1
    ensures Proper(sorted) ==> Separated(merged) && Covered(merged) == Covered(sorted)
  {
    ghost var good := Proper(sorted);
    merged := [sorted[0]];
    MergeStart(sorted, good);
    var i := 1;
    while i < |sorted|
      invariant 1 <= i <= |sorted|
      invariant MergedUpTo(sorted, i, merged, good)
    {
      MergeInvariant(sorted, i, merged, good);
      merged := AbsorbRange(merged, sorted[i]);
      i := i + 1;
    }
    assert sorted[..|sorted|] == sorted;
  }

  // ---------------------------------------------------------- parsing

  /** A line of the first section: "start-end" with both bounds accepted by
      `strconv.Atoi`; anything else is skipped.  Neither piece of a split on '-'
      holds a '-', so both bounds are non-negative. */
  function RangeLine(line: string): Option<Range>
  {
    var parts := Split(line, '-');
    if |parts| != 2 then None
    else
      match (Atoi(parts[0]), Atoi(parts[1]))
        case (Some(a), Some(b)) =>
          AtoiNoMinus(parts[0]);
          AtoiNoMinus(parts[1]);
          Some((a as nat, b as nat))
        case _ => None
  }

  function OptionSeq<T>(o: Option<T>): seq<T>
  {
    match o case Some(x) => [x] case None => []
  }

  /** What the line loop of `Parse` holds: whether it still reads ranges, the ranges
      and the ingredient IDs read so far. */
  datatype Reading = Reading(parsingRanges: bool, ranges: seq<Range>, ids: seq<int>)

  /** One line of `Parse`: a blank line ends the ranges, a line before it may add a
      range, a line after it may add an ID. */
  function Step(st: Reading, line: string): Reading
  {
    if line == "" then st.(parsingRanges := false)
    else if st.parsingRanges then st.(ranges := st.ranges + OptionSeq(RangeLine(line)))
    else st.(ids := st.ids + OptionSeq(Atoi(line)))
  }

  /** The state after reading `lines` in order, from ranges, none read. */
  function Read(lines: seq<string>): Reading
  {
    if |lines| == 0 then Reading(true, [], [])
    else Step(Read(lines[..|lines| - 1]), lines[|lines| - 1])
  }

  /** Ranges are read exactly until the first blank line. */
  lemma {:induction false} ReadBlank(lines: seq<string>)
    ensures Read(lines).parsingRanges <==> "" !in lines
  {
    if |lines| > 0 {
      var init := lines[..|lines| - 1];
      ReadBlank(init);
      assert lines == init + [lines[|lines| - 1]];
    }
  }

  /** Once a blank line has been read, a line adds no range. */
  lemma StepAfterBlank(st: Reading, line: string)
    requires !st.parsingRanges
    ensures !Step(st, line).parsingRanges && Step(st, line).ranges == st.ranges
  {
  }

  lemma ReadStep(lines: seq<string>, i: nat)
    requires i < |lines|
    ensures Read(lines[..i + 1]) == Step(Read(lines[..i]), lines[i])
  {
    assert lines[..i + 1][..i] == lines[..i];
  }

  /** How a range is written in the database. */
  function FormatRange(r: Range): string
  {
    DecimalString(r.0) + "-" + DecimalString(r.1)
  }

  function FormatRanges(rs: seq<Range>): seq<string>
  {
    if |rs| == 0 then [] else FormatRanges(rs[..|rs| - 1]) + [FormatRange(rs[|rs| - 1])]
  }

  function FormatIds(ids: seq<int>): seq<string>
  {
    if |ids| == 0 then [] else FormatIds(ids[..|ids| - 1]) + [Itoa(ids[|ids| - 1])]
  }

  /** A database: the ranges, a blank line, then the IDs. */
  function Database(rs: seq<Range>, ids: seq<int>): seq<string>
  {
    FormatRanges(rs) + [""] + FormatIds(ids)
  }

  lemma NoMinusInDigits(s: string)
    requires AllDigits(s)
    ensures '-' !in s
  {
    forall i | 0 <= i < |s| ensures s[i] != '-' {
      assert IsDigit(s[i]);
    }
  }

  /** "start-end" reads back as the range. */
  lemma RangeLineFormat(r: Range)
    ensures RangeLine(FormatRange(r)) == Some(r)
    ensures FormatRange(r) != ""
  {
    var a, b := DecimalString(r.0), DecimalString(r.1);
    NoMinusInDigits(a);
    NoMinusInDigits(b);
    SplitNoSep(b, '-');
    SplitPrefix(a, '-', b);
    assert FormatRange(r) == a + ['-'] + b;
    AtoiOfDecimalString(r.0);
    AtoiOfDecimalString(r.1);
  }

  /** Formatted ranges read back as themselves, with no blank line among them. */
  lemma {:induction false} ReadRanges(rs: seq<Range>)
    ensures Read(FormatRanges(rs)) == Reading(true, rs, [])
  {
    if |rs| > 0 {
      ReadRanges(rs[..|rs| - 1]);
      ReadOneMoreRange(rs);
    }
  }

  lemma ReadOneMoreRange(rs: seq<Range>)
    requires |rs| > 0
    requires Read(FormatRanges(rs[..|rs| - 1])) == Reading(true, rs[..|rs| - 1], [])
    ensures Read(FormatRanges(rs)) == Reading(true, rs, [])
  {
    var init, r := rs[..|rs| - 1], rs[|rs| - 1];
    var lines := FormatRanges(rs);
    SplitLast(rs);
    FormatRangesLast(rs);
    StepRange(Reading(true, init, []), r);
    ReadLast(lines, FormatRanges(init), FormatRange(r));
  }

  lemma FormatRangesLast(rs: seq<Range>)
    requires |rs| > 0
    ensures |FormatRanges(rs)| > 0
    ensures FormatRanges(rs)[..|FormatRanges(rs)| - 1] == FormatRanges(rs[..|rs| - 1])
    ensures FormatRanges(rs)[|FormatRanges(rs)| - 1] == FormatRange(rs[|rs| - 1])
  {
  }

  lemma SplitLast<T>(s: seq<T>)
    requires |s| > 0
    ensures s == s[..|s| - 1] + [s[|s| - 1]]
  {
  }

  /** Before a blank line, a formatted range adds itself. */
  lemma StepRange(st: Reading, r: Range)
    requires st.parsingRanges
    ensures Step(st, FormatRange(r)) == st.(ranges := st.ranges + [r])
  {
    RangeLineFormat(r);
  }

  /** After a blank line, more lines add no ranges and add the IDs they hold. */
  lemma {:induction false} ReadIdsAfterBlank(a: seq<string>, ids: seq<int>)
    requires !Read(a).parsingRanges
    ensures Read(a + FormatIds(ids)) == Read(a).(ids := Read(a).ids + ids)
  {
    if |ids| > 0 {
      var init, x := ids[..|ids| - 1], ids[|ids| - 1];
      ReadIdsAfterBlank(a, init);
      var prefix := a + FormatIds(init);
      var lines := a + FormatIds(ids);
      assert lines[..|lines| - 1] == prefix && lines[|lines| - 1] == Itoa(x);
      var st := Read(prefix);
      StepId(st, x);
      AppendLast(Read(a).ids, ids);
      ReadLast(lines, prefix, Itoa(x));
    } else {
      assert a + FormatIds(ids) == a;
    }
  }

  lemma ReadLast(lines: seq<string>, init: seq<string>, line: string)
    requires |lines| > 0 && init == lines[..|lines| - 1] && line == lines[|lines| - 1]
    ensures Read(lines) == Step(Read(init), line)
  {
  }

  /** After a blank line, a line written by `Itoa` adds its number. */
  lemma StepId(st: Reading, x: int)
    requires !st.parsingRanges
    ensures Step(st, Itoa(x)) == st.(ids := st.ids + [x])
  {
    AtoiOfItoa(x);
    assert Itoa(x) != "" by { assert Atoi(Itoa(x)).Some?; }
  }

  lemma AppendLast(a: seq<int>, b: seq<int>)
    requires |b| > 0
    ensures (a + b[..|b| - 1]) + [b[|b| - 1]] == a + b
  {
  }

  /** `Parse` reads back the ranges and the IDs a database was written from. */
  lemma ParseDatabase(rs: seq<Range>, ids: seq<int>)
    ensures Read(Database(rs, ids)) == Reading(false, rs, ids)
  {
    var head := FormatRanges(rs) + [""];
    ReadRanges(rs);
    assert head[..|head| - 1] == FormatRanges(rs);
    ReadIdsAfterBlank(head, ids);
  }

  // ---------------------------------------------------------- part 1

  /** How many of the IDs some range holds, repetitions counted. */
  function CountFresh(rs: seq<Range>, ids: seq<int>): nat
  {
    if |ids| == 0 then 0
    else CountFresh(rs, ids[..|ids| - 1]) + (if InSomeRange(rs, ids[|ids| - 1]) then 1 else 0)
  }

  predicate DistinctIds(ids: seq<int>)
  {
    forall i, j :: 0 <= i < j < |ids| ==> ids[i] != ids[j]
  }

  /** The fresh IDs among the available ones. */
  function FreshSet(rs: seq<Range>, ids: seq<int>): set<int>
  {
    set x | x in ids && x in Covered(rs)
  }

  /** With no repeated IDs, part 1 counts a set of covered IDs. */
  lemma {:induction false} CountFreshIsSetSize(rs: seq<Range>, ids: seq<int>)
    requires DistinctIds(ids)
    ensures CountFresh(rs, ids) == |FreshSet(rs, ids)|
  {
    if |ids| > 0 {
      var init, x := ids[..|ids| - 1], ids[|ids| - 1];
      assert DistinctIds(init);
      CountFreshIsSetSize(rs, init);
      assert ids == init + [x];
      assert x !in init;
      CoveredMembership(rs, x);
      if x in Covered(rs) {
        assert FreshSet(rs, ids) == FreshSet(rs, init) + {x};
      } else {
        assert FreshSet(rs, ids) == FreshSet(rs, init);
      }
    } else {
      assert FreshSet(rs, ids) == {};
    }
  }

  /** Part 1 never exceeds part 2's count of covered IDs when no ID repeats. */
  lemma FreshAtMostTotal(rs: seq<Range>, ids: seq<int>)
    requires DistinctIds(ids)
    ensures CountFresh(rs, ids) <= |Covered(rs)|
  {
    CountFreshIsSetSize(rs, ids);
    assert FreshSet(rs, ids) <= Covered(rs);
    SubsetSize(FreshSet(rs, ids), Covered(rs));
  }

  lemma SubsetSize(a: set<int>, b: set<int>)
    requires a <= b
    ensures |a| <= |b|
  {
    assert b == a + (b - a);
  }

  /** The line loop of `Parse`: ranges until the first blank line, IDs after it. */
  method ReadSections(lines: seq<string>) returns (ranges: seq<Range>, ids: seq<int>)
    ensures ranges == Read(lines).ranges && ids == Read(lines).ids
  {
    ranges, ids := [], [];
    var parsingRanges := true;
    var i := 0;
    while i < |lines|
      invariant 0 <= i <= |lines|
      invariant Reading(parsingRanges, ranges, ids) == Read(lines[..i])
    {
      ReadStep(lines, i);
      parsingRanges, ranges, ids := ReadSectionLine(parsingRanges, ranges, ids, lines[i]);
      i := i + 1;
    }
    assert lines[..|lines|] == lines;
  }

  /** One iteration of the line loop of `Parse`. */
  method ReadSectionLine(parsingRanges: bool, ranges: seq<Range>, ids: seq<int>, line: string)
    returns (parsingRanges': bool, ranges': seq<Range>, ids': seq<int>)
    ensures Reading(parsingRanges', ranges', ids') == Step(Reading(parsingRanges, ranges, ids), line)
  {
    parsingRanges', ranges', ids' := parsingRanges, ranges, ids;
    if line == "" {
      parsingRanges' := false;
    } else if parsingRanges {
      var r := RangeLine(line);
      if r.Some? {
        ranges' := ranges + [r.value];
      }
    } else {
      var id := Atoi(line);
      if id.Some? {
        ids' := ids + [id.value];
      }
    }
  }

  // ---------------------------------------------------------- the cafeteria

  class Cafeteria {
    var Ranges: seq<Range>
    var Ingredients: seq<int>
    var FreshCount: int
    var TotalFresh: int

    /** `NewCafeteria`. */
    constructor()
      ensures Ranges == [] && Ingredients == []
      ensures FreshCount == 0 && TotalFresh == 0
    {
      Ranges := [];
      Ingredients := [];
      FreshCount := 0;
      TotalFresh := 0;
    }

    /** `isFresh`: the first range holding `id` answers; none answers false. */
    method IsFresh(id: int) returns (b: bool)
      ensures b <==> InSomeRange(Ranges, id)
    {
      var k := 0;
      while k < |Ranges|
        invariant 0 <= k <= |Ranges|
        invariant forall j :: 0 <= j < k ==> !(Ranges[j].0 <= id <= Ranges[j].1)
      {
        if id >= Ranges[k].0 && id <= Ranges[k].1 {
          return true;
        }
        k := k + 1;
      }
      return false;
    }

    /** `countTotalFreshIDs`: sorts a copy of the ranges by start, merges overlapping
        or adjacent ones, and sums the merged lengths; 0 with no ranges.  With
        non-empty ranges this is the number of distinct covered IDs. */
    method CountTotalFreshIDs() returns (total: int)
      ensures |Ranges| == 0 ==> total == 0
      ensures Proper(Ranges) ==> total == |Covered(Ranges)|
    {
      if |Ranges| == 0 {
        return 0;
      }
      var sorted := SortByStart(Ranges);
      ghost var good := Proper(Ranges);
      if good {
        forall k | 0 <= k < |sorted| ensures sorted[k].0 <= sorted[k].1 {
          assert sorted[k] in multiset(Ranges);
        }
      }
      var merged := MergeSorted(sorted);
      total := 0;
      var k := 0;
      while k < |merged|
        invariant 0 <= k <= |merged|
        invariant total == Lengths(merged[..k])
      {
        assert merged[..k + 1][..k] == merged[..k];
        total := total + (merged[k].1 as int - merged[k].0 as int + 1);
        k := k + 1;
      }
      assert merged[..|merged|] == merged;
      if good {
        SeparatedCount(merged);
        CoveredPermutation(Ranges, sorted);
      }
    }

    /** `Parse`: ranges up to the first blank line, IDs after it, then part 1 counted
        over every ingredient held and part 2 recomputed over every range held. */
    method Parse(lines: seq<string>)
      modifies this
      ensures Ranges == old(Ranges) + Read(lines).ranges
      ensures Ingredients == old(Ingredients) + Read(lines).ids
      ensures FreshCount == old(FreshCount) + CountFresh(Ranges, Ingredients)
      ensures |Ranges| == 0 ==> TotalFresh == 0
      ensures Proper(Ranges) ==> TotalFresh == |Covered(Ranges)|
    {
      var ranges, ids := ReadSections(lines);
      Ranges := Ranges + ranges;
      Ingredients := Ingredients + ids;
      Tally();
    }

    /** The second half of `Parse`: part 1 counted over every ingredient held,
        part 2 recomputed over every range held. */
    method Tally()
      modifies this
      ensures Ranges == old(Ranges) && Ingredients == old(Ingredients)
      ensures FreshCount == old(FreshCount) + CountFresh(Ranges, Ingredients)
      ensures |Ranges| == 0 ==> TotalFresh == 0
      ensures Proper(Ranges) ==> TotalFresh == |Covered(Ranges)|
    {
      var j := 0;
      while j < |Ingredients|
        invariant 0 <= j <= |Ingredients|
        invariant Ranges == old(Ranges) && Ingredients == old(Ingredients)
        invariant FreshCount == old(FreshCount) + CountFresh(Ranges, Ingredients[..j])
      {
        assert Ingredients[..j + 1][..j] == Ingredients[..j];
        var found := IsFresh(Ingredients[j]);
        if found {
          FreshCount := FreshCount + 1;
        }
        j := j + 1;
      }
      assert Ingredients[..|Ingredients|] == Ingredients;
      TotalFresh := CountTotalFreshIDs();
    }
  }
}
