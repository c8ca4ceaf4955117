/**
 * Day 3: each line is a bank of batteries, one decimal digit per battery.
 * Switching on exactly n of them, in bank order, reads their digits as one
 * number, the joltage; the bank's joltage is the largest such number.  The
 * search is greedy: the i-th digit is the leftmost largest digit among those
 * that still leave enough batteries for the remaining picks.
 */
module Day03 {
  import opened GoText

  /** `u` is `t` with some characters left out (order kept). */
  predicate IsSubseq(u: string, t: string)
    decreases |t|
  {
    if |u| == 0 then true
    else if |t| == 0 then false
    else (u[0] == t[0] && IsSubseq(u[1..], t[1..])) || IsSubseq(u, t[1..])
  }

  function Max(a: nat, b: nat): nat { if a >= b then a else b }

  /** The largest value of `m` digits chosen from `t` in order: either the first digit
      is taken and `m - 1` more come from the rest, or it is skipped. */
  function Best(t: string, m: nat): nat
    requires AllDigits(t) && m <= |t|
    decreases |t|
  {
    if m == 0 then 0
    else
      var lead := DigitValue(t[0]) * Power10(m - 1) + Best(t[1..], m - 1);
      if |t| == m then lead else Max(lead, Best(t[1..], m))
  }

  /** No choice of `m` digits from `t` beats `Best(t, m)`. */
  lemma {:induction false} BestIsUpperBound(u: string, t: string)
    requires AllDigits(t) && IsSubseq(u, t) && |u| <= |t|
    ensures AllDigits(u)
    ensures DecimalValue(u) <= Best(t, |u|)
    decreases |t|
  {
    if |u| == 0 {
    } else if u[0] == t[0] && IsSubseq(u[1..], t[1..]) && |u| - 1 <= |t| - 1 {
      SubseqLength(u[1..], t[1..]);
      BestIsUpperBound(u[1..], t[1..]);
      assert [u[0]] + u[1..] == u;
      DecimalValueAppend([u[0]], u[1..]);
      assert DecimalValue([u[0]]) == DigitValue(u[0]) by {
        assert [u[0]][..0] == [];
      }
    } else {
      SubseqLength(u, t[1..]);
      BestIsUpperBound(u, t[1..]);
    }
  }

  /** A subsequence is no longer than the sequence it is taken from. */
  lemma {:induction false} SubseqLength(u: string, t: string)
    requires IsSubseq(u, t)
    ensures |u| <= |t|
    decreases |t|
  {
    if |u| > 0 {
      if u[0] == t[0] && IsSubseq(u[1..], t[1..]) {
        SubseqLength(u[1..], t[1..]);
      } else {
        SubseqLength(u, t[1..]);
      }
    }
  }

  /** `Best(t, m)` is the value of some choice of `m` digits of `t`. */
  lemma {:induction false} BestIsAttained(t: string, m: nat)
    requires AllDigits(t) && m <= |t|
    ensures exists u :: IsSubseq(u, t) && |u| == m && AllDigits(u) && DecimalValue(u) == Best(t, m)
    decreases |t|
  {
    if m == 0 {
      assert IsSubseq("", t);
    } else {
      BestIsAttained(t[1..], m - 1);
      var w :| IsSubseq(w, t[1..]) && |w| == m - 1 && AllDigits(w) && DecimalValue(w) == Best(t[1..], m - 1);
      var u := [t[0]] + w;
      assert u[0] == t[0] && u[1..] == w;
      DecimalValueAppend([t[0]], w);
      assert DecimalValue([t[0]]) == DigitValue(t[0]) by {
        assert [t[0]][..0] == [];
      }
      var lead := DigitValue(t[0]) * Power10(m - 1) + Best(t[1..], m - 1);
      assert DecimalValue(u) == lead;
      if |t| > m && Best(t[1..], m) > lead {
        BestIsAttained(t[1..], m);
        var v :| IsSubseq(v, t[1..]) && |v| == m && AllDigits(v) && DecimalValue(v) == Best(t[1..], m);
        assert IsSubseq(v, t);
      } else {
        assert IsSubseq(u, t);
      }
    }
  }

  lemma MulMonotone(a: nat, b: nat, p: nat)
    requires a <= b
    ensures a * p <= b * p
  {
  }

  lemma LeadBound(d: nat, p: nat, rest: nat)
    requires d < 10 && rest < p
    ensures d * p + rest < 10 * p
  {
    MulMonotone(d + 1, 10, p);
  }

  /** The joltage of `m` digits is below `10^m`. */
  lemma {:induction false} BestBound(t: string, m: nat)
    requires AllDigits(t) && m <= |t|
    ensures Best(t, m) < Power10(m)
    decreases |t|
  {
    if m > 0 {
      BestBound(t[1..], m - 1);
      LeadBound(DigitValue(t[0]), Power10(m - 1), Best(t[1..], m - 1));
      if |t| > m {
        BestBound(t[1..], m);
      }
    }
  }

  /** Digits of `t` that could lead a choice of `m` (the first `|t| - m + 1`) are all at most `d`. */
  predicate WindowAtMost(t: string, m: nat, d: char)
    requires 1 <= m <= |t|
  {
    forall q :: 0 <= q <= |t| - m ==> t[q] <= d
  }

  /** When no digit that could lead is above `d`, `m` digits are worth at most `d`
      followed by the best `m - 1`. */
  lemma {:induction false} BestBelowLeader(t: string, m: nat, d: char)
    requires AllDigits(t) && 1 <= m <= |t| && IsDigit(d) && WindowAtMost(t, m, d)
    ensures Best(t, m) <= DigitValue(d) * Power10(m - 1) + Best(t, m - 1)
    decreases |t|
  {
    var p := Power10(m - 1);
    MulMonotone(DigitValue(t[0]), DigitValue(d), p);
    if |t| > m {
      assert Best(t[1..], m - 1) <= Best(t, m - 1) by {
        if m - 1 > 0 {
          assert |t| > m - 1;
        }
      }
      assert WindowAtMost(t[1..], m, d) by {
        forall q | 0 <= q <= |t[1..]| - m ensures t[1..][q] <= d {
          assert t[1..][q] == t[q + 1];
        }
      }
      BestBelowLeader(t[1..], m, d);
    } else {
      assert Best(t[1..], m - 1) <= Best(t, m - 1) by {
        if m - 1 > 0 {
          assert |t| > m - 1;
        }
      }
    }
  }

  /** Position `k` holds the leftmost largest of the first `w` characters of `t`. */
  predicate LeftmostMax(t: string, w: nat, k: nat)
  {
    k < w <= |t| &&
    (forall q :: 0 <= q < w ==> t[q] <= t[k]) &&
    (forall q :: 0 <= q < k ==> t[q] < t[k])
  }

  lemma LeadBelow(a: nat, d: nat, p: nat, rest: nat)
    requires a < d && rest < p
    ensures a * p + rest < d * p
  {
    MulMonotone(a + 1, d, p);
  }

  /** Dropping the first digit, when it is not above `d`, keeps every leading digit at most `d`. */
  lemma WindowTail(t: string, m: nat, d: char)
    requires 1 <= m < |t| && WindowAtMost(t, m, d)
    ensures WindowAtMost(t[1..], m, d)
  {
    forall q | 0 <= q <= |t[1..]| - m ensures t[1..][q] <= d {
      assert t[1..][q] == t[q + 1];
    }
  }

  /** The greedy step when the first digit is the largest that can lead. */
  lemma GreedyFirst(t: string, m: nat)
    requires AllDigits(t) && 1 <= m <= |t| && WindowAtMost(t, m, t[0])
    ensures Best(t, m) == DigitValue(t[0]) * Power10(m - 1) + Best(t[1..], m - 1)
  {
    if |t| > m {
      WindowTail(t, m, t[0]);
      BestBelowLeader(t[1..], m, t[0]);
    }
  }

  lemma LeftmostMaxTail(t: string, m: nat, k: nat)
    requires 1 <= m <= |t| && k >= 1 && LeftmostMax(t, |t| - m + 1, k)
    ensures LeftmostMax(t[1..], |t[1..]| - m + 1, k - 1)
  {
    forall q | 0 <= q < |t[1..]| - m + 1 ensures t[1..][q] <= t[1..][k - 1] {
      assert t[1..][q] == t[q + 1];
    }
    forall q | 0 <= q < k - 1 ensures t[1..][q] < t[1..][k - 1] {
      assert t[1..][q] == t[q + 1];
    }
  }

  /** The greedy step: the best `m` digits of `t` start with the leftmost largest digit
      among those that can lead, followed by the best `m - 1` digits after it. */
  lemma {:induction false} GreedyStep(t: string, m: nat, k: nat)
    requires AllDigits(t) && 1 <= m <= |t|
    requires LeftmostMax(t, |t| - m + 1, k)
    ensures Best(t, m) == DigitValue(t[k]) * Power10(m - 1) + Best(t[k + 1..], m - 1)
    decreases k
  {
    if k == 0 {
      GreedyFirst(t, m);
    } else {
      var p := Power10(m - 1);
      var d := t[k];
      LeftmostMaxTail(t, m, k);
      GreedyStep(t[1..], m, k - 1);
      assert t[1..][k - 1] == d && t[1..][k..] == t[k + 1..];
      BestBound(t[1..], m - 1);
      LeadBelow(DigitValue(t[0]), DigitValue(d), p, Best(t[1..], m - 1));
    }
  }

  /** The greedy step read on the whole bank: the choice made in the window
      [pos, |bank| - m] after `pos`. */
  lemma GreedyInBank(bank: string, pos: nat, m: nat, k: nat)
    requires AllDigits(bank) && 1 <= m && pos + m <= |bank| && pos <= k <= |bank| - m
    requires forall q :: pos <= q <= |bank| - m ==> bank[q] <= bank[k]
    requires forall q :: pos <= q < k ==> bank[q] < bank[k]
    ensures Best(bank[pos..], m) == DigitValue(bank[k]) * Power10(m - 1) + Best(bank[k + 1..], m - 1)
  {
    var t := bank[pos..];
    assert LeftmostMax(t, |t| - m + 1, k - pos) by {
      forall q | 0 <= q < |t| - m + 1 ensures t[q] <= t[k - pos] {
        assert t[q] == bank[pos + q];
      }
      forall q | 0 <= q < k - pos ensures t[q] < t[k - pos] {
        assert t[q] == bank[pos + q];
      }
    }
    GreedyStep(t, m, k - pos);
    assert t[k - pos + 1..] == bank[k + 1..];
  }

  /** One round of the outer loop keeps "digits so far, then the best of the rest" equal
      to the best of the whole bank. */
  lemma Advance(bank: string, pos: nat, m: nat, k: nat, c: nat, total: nat)
    requires AllDigits(bank) && 1 <= m && pos + m <= |bank| && pos <= k <= |bank| - m
    requires forall q :: pos <= q <= |bank| - m ==> bank[q] <= bank[k]
    requires forall q :: pos <= q < k ==> bank[q] < bank[k]
    requires c * Power10(m) + Best(bank[pos..], m) == total
    ensures (c * 10 + DigitValue(bank[k])) * Power10(m - 1) + Best(bank[k + 1..], m - 1) == total
  {
    GreedyInBank(bank, pos, m, k);
    ShiftDigit(c, DigitValue(bank[k]), Power10(m - 1));
  }

  lemma ShiftDigit(c: int, d: int, p: int)
    ensures c * (10 * p) + d * p == (c * 10 + d) * p
  {
  }

  /** The inner loop of `findMaxJoltageN`: the leftmost largest digit of bank[pos..maxPos],
      found with a strict `>` starting from '0'. */
  method ScanWindow(bank: string, pos: nat, maxPos: nat) returns (bestDigit: char, bestIdx: nat)
    requires AllDigits(bank) && pos <= maxPos < |bank|
    ensures pos <= bestIdx <= maxPos && bank[bestIdx] == bestDigit
    ensures forall q :: pos <= q <= maxPos ==> bank[q] <= bestDigit
    ensures forall q :: pos <= q < bestIdx ==> bank[q] < bestDigit
  {
    bestDigit := '0';
    bestIdx := pos;
    var j := pos;
    while j <= maxPos
      invariant pos <= j <= maxPos + 1
      invariant pos <= bestIdx <= maxPos && (bestIdx < j || bestIdx == pos)
      invariant j > pos ==> bank[bestIdx] == bestDigit
      invariant j == pos ==> bestDigit == '0'
      invariant forall q :: pos <= q < j ==> bank[q] <= bestDigit
      invariant forall q :: pos <= q < bestIdx ==> bank[q] < bestDigit
    {
      if bank[j] > bestDigit {
        bestDigit := bank[j];
        bestIdx := j;
      }
      j := j + 1;
    }
  }

  /** `findMaxJoltageN`: the largest `n`-digit joltage of the bank, 0 when the bank has
      fewer than `n` batteries. */
  method FindMaxJoltageN(bank: string, n: nat) returns (currentMax: nat)
    requires AllDigits(bank)
    ensures |bank| < n ==> currentMax == 0
    ensures |bank| >= n ==> currentMax == Best(bank, n) && currentMax < Power10(n)
  {
    if |bank| < n {
      return 0;
    }
    currentMax := 0;
    var pos := 0;
    var i := 0;
    while i < n
      invariant 0 <= i <= n
      invariant pos + (n - i) <= |bank|
      invariant currentMax * Power10(n - i) + Best(bank[pos..], n - i) == Best(bank, n)
    {
      var maxPos := |bank| - (n - i - 1) - 1;
      var bestDigit, bestIdx := ScanWindow(bank, pos, maxPos);
      Advance(bank, pos, n - i, bestIdx, currentMax, Best(bank, n));
      currentMax := currentMax * 10 + DigitValue(bestDigit);
      pos := bestIdx + 1;
      i := i + 1;
    }
    BestBound(bank, n);
  }

  /** A bank's contribution to the total for `n` batteries. */
  function Joltage(line: string, n: nat): nat
    requires AllDigits(line)
  {
    if |line| < n then 0 else Best(line, n)
  }

  /** The sum over the lines of at least two digits, as `Parse` adds them up. */
  function TotalJoltage(lines: seq<string>, n: nat): nat
    requires forall k :: 0 <= k < |lines| ==> AllDigits(lines[k])
  {
    if |lines| == 0 then 0
    else
      var last := lines[|lines| - 1];
      TotalJoltage(lines[..|lines| - 1], n) + (if |last| < 2 then 0 else Joltage(last, n))
  }

  class BatteryBank {
    var TotalJoltage2Bat: nat
    var TotalJoltage12Bat: nat

    /** `NewBatteryBank`: both totals 0. */
    constructor ()
      ensures TotalJoltage2Bat == 0 && TotalJoltage12Bat == 0
    {
      TotalJoltage2Bat, TotalJoltage12Bat := 0, 0;
    }

    /** `Parse`: adds each bank's best 2-digit and 12-digit joltages to the totals;
        lines shorter than 2 are skipped. */
    method Parse(lines: seq<string>)
      requires forall k :: 0 <= k < |lines| ==> AllDigits(lines[k])
      modifies this
      ensures TotalJoltage2Bat == old(TotalJoltage2Bat) + TotalJoltage(lines, 2)
      ensures TotalJoltage12Bat == old(TotalJoltage12Bat) + TotalJoltage(lines, 12)
    {
      var k := 0;
      while k < |lines|
        invariant 0 <= k <= |lines|
        invariant TotalJoltage2Bat == old(TotalJoltage2Bat) + TotalJoltage(lines[..k], 2)
        invariant TotalJoltage12Bat == old(TotalJoltage12Bat) + TotalJoltage(lines[..k], 12)
      {
        assert lines[..k + 1][..k] == lines[..k];
        var line := lines[k];
        if |line| >= 2 {
          var small := FindMaxJoltageN(line, 2);
          var big := FindMaxJoltageN(line, 12);
          TotalJoltage2Bat := TotalJoltage2Bat + small;
          TotalJoltage12Bat := TotalJoltage12Bat + big;
        }
        k := k + 1;
      }
      assert lines[..|lines|] == lines;
    }
  }
}
