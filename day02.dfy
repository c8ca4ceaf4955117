/**
 * Day 2: invalid product IDs.  An ID is invalid when its decimal form is a
 * digit pattern written twice (part 1) or at least twice (part 2).  The
 * solver generates every such number digit length by digit length, keeps the
 * ones inside each "start-end" range, and sums them.
 */
module Day02 {
  import opened GoText

  // ---------------------------------------------------------------- helpers

  /** `pow10(n)`: 10^n by repeated multiplication. */
  method Pow10(n: nat) returns (result: nat)
    ensures result == Power10(n)
  {
    result := 1;
    var i := 0;
    while i < n
      invariant 0 <= i <= n
      invariant result == Power10(i)
    {
      result := result * 10;
      i := i + 1;
    }
  }

  /** `patternBounds(length)`: the smallest and largest numbers with `length` digits. */
  function PatternBounds(length: nat): (b: (nat, nat))
    requires length >= 1
    ensures 1 <= b.0 <= b.1
  {
    if length == 1 then (1, 9)
    else (Power10(length - 1), Power10(length) - 1)
  }

  /** `p` written `r` times, with `|p|` digits per copy, as a number: p * sum of 10^(L*k), k < r. */
  function RepeatedValue(p: nat, patternLen: nat, r: nat): nat
  {
    if r == 0 then 0 else RepeatedValue(p, patternLen, r - 1) + p * Power10(patternLen * (r - 1))
  }

  /** `buildRepeatedID(pattern, patternLen, repetitions)`. */
  method BuildRepeatedID(pattern: nat, patternLen: nat, repetitions: nat) returns (result: nat)
    ensures result == RepeatedValue(pattern, patternLen, repetitions)
  {
    result := 0;
    var multiplier := 1;
    var i := 0;
    while i < repetitions
      invariant 0 <= i <= repetitions
      invariant result == RepeatedValue(pattern, patternLen, i)
      invariant multiplier == Power10(patternLen * i)
    {
      assert RepeatedValue(pattern, patternLen, i + 1) == result + pattern * multiplier;
      result := result + pattern * multiplier;
      var step := Pow10(patternLen);
      assert patternLen * (i + 1) == patternLen * i + patternLen;
      Power10Add(patternLen * i, patternLen);
      multiplier := multiplier * step;
      i := i + 1;
    }
  }

  /** `digitLength(n)`: the length of `strconv.FormatInt(n, 10)`. */
  function DigitLength(n: nat): (d: nat)
    ensures d >= 1
    ensures n == 0 ==> d == 1
    ensures n >= 1 ==> Power10(d - 1) <= n < Power10(d)
  {
    DecimalStringLength(n);
    |DecimalString(n)|
  }

  /** The sum of a sequence of numbers. */
  function SumOf(s: seq<int>): int
  {
    if |s| == 0 then 0 else SumOf(s[..|s| - 1]) + s[|s| - 1]
  }

  lemma {:induction false} SumOfAppend(a: seq<int>, b: seq<int>)
    ensures SumOf(a + b) == SumOf(a) + SumOf(b)
  {
    if |b| == 0 {
      assert a + b == a;
    } else {
      assert (a + b)[..|a + b| - 1] == a + b[..|b| - 1];
      SumOfAppend(a, b[..|b| - 1]);
    }
  }

  /** `sum(nums)`: the running total, 0 for an empty slice. */
  method Sum(nums: seq<int>) returns (s: int)
    ensures s == SumOf(nums)
  {
    s := 0;
    var i := 0;
    while i < |nums|
      invariant 0 <= i <= |nums|
      invariant s == SumOf(nums[..i])
    {
      assert nums[..i + 1][..i] == nums[..i];
      s := s + nums[i];
      i := i + 1;
    }
    assert nums[..|nums|] == nums;
  }

  // ------------------------------------------------- digit-level properties

  /** `s` written `r` times. */
  function RepeatStr(s: string, r: nat): (t: string)
    ensures |t| == |s| * r
  {
    if r == 0 then "" else s + RepeatStr(s, r - 1)
  }

  lemma {:induction false} RepeatStrDigits(s: string, r: nat)
    requires AllDigits(s)
    ensures AllDigits(RepeatStr(s, r))
    ensures DecimalValue(RepeatStr(s, r)) == RepeatedValue(DecimalValue(s), |s|, r)
  {
    if r > 0 {
      RepeatStrDigits(s, r - 1);
      DecimalValueAppend(s, RepeatStr(s, r - 1));
    }
  }

  /** The numbers `patternBounds(length)` spans are exactly those with `length` digits. */
  lemma PatternBoundsExact(length: nat, p: nat)
    requires length >= 1
    ensures PatternBounds(length).0 <= p <= PatternBounds(length).1 <==> p >= 1 && DigitLength(p) == length
  {
    var d := DigitLength(p);
    if p >= 1 {
      if d < length { Power10Monotone(d, length - 1); }
      if d > length { Power10Monotone(length, d - 1); }
    }
  }

  /** A pattern with exactly `patternLen` digits, written `r` times, has the
      pattern's decimal form written `r` times as its own decimal form. */
  lemma RepeatedValueDigits(p: nat, patternLen: nat, r: nat)
    requires p >= 1 && DigitLength(p) == patternLen && r >= 1
    ensures DecimalString(RepeatedValue(p, patternLen, r)) == RepeatStr(DecimalString(p), r)
  {
    var s := DecimalString(p);
    var t := RepeatStr(s, r);
    RepeatStrDigits(s, r);
    assert t[0] == s[0];
    if |s| == 1 {
      DecimalStringLength(p);
      assert s[0] != '0';
    }
    CanonicalDecimal(t);
  }

  /** `RepeatedValue` is linear in the pattern. */
  lemma {:induction false} RepeatedValueLinear(p: nat, patternLen: nat, r: nat)
    ensures RepeatedValue(p, patternLen, r) == p * RepeatedValue(1, patternLen, r)
  {
    if r > 0 {
      RepeatedValueLinear(p, patternLen, r - 1);
      Distribute(p, RepeatedValue(1, patternLen, r - 1), Power10(patternLen * (r - 1)));
    }
  }

  lemma Distribute(p: int, u: int, q: int)
    ensures p * (u + q) == p * u + p * q
  {
  }

  /** 1 written r >= 1 times is at least 1. */
  lemma {:induction false} RepUnitPositive(patternLen: nat, r: nat)
    requires r >= 1
    ensures RepeatedValue(1, patternLen, r) >= 1
  {
    if r > 1 { RepUnitPositive(patternLen, r - 1); }
  }

  /** Fewer digits means a smaller number. */
  lemma LengthOrder(a: nat, b: nat)
    requires DigitLength(a) < DigitLength(b)
    ensures a < b
  {
    var da, db := DigitLength(a), DigitLength(b);
    Power10Monotone(da, db - 1);
  }

  // ------------------------------------------------------- invalid IDs

  /** The decimal form of `x` is its first `len` digits written `reps` times. */
  predicate IsRepeat(x: nat, len: nat, reps: nat)
  {
    && len >= 1 && reps >= 1
    && len <= |DecimalString(x)| && |DecimalString(x)| == len * reps
    && DecimalString(x) == RepeatStr(DecimalString(x)[..len], reps)
  }

  /** Part 1: the decimal form of `x` is some digit string written exactly twice. */
  predicate RepeatedExactlyTwice(x: nat)
  {
    var n := DigitLength(x);
    n % 2 == 0 && IsRepeat(x, n / 2, 2)
  }

  /** The decimal form of `x` repeats its first `len` digits to its end. */
  predicate RepeatsPattern(x: nat, len: nat)
  {
    var n := DigitLength(x);
    1 <= len && n % len == 0 && IsRepeat(x, len, n / len)
  }

  /** Part 2: the decimal form of `x` is some digit string written at least twice. */
  predicate RepeatedAtLeastTwice(x: nat)
  {
    exists len :: 1 <= len <= DigitLength(x) / 2 && RepeatsPattern(x, len)
  }

  /** 1 written `reps` times with `len` digits per copy: every repetition is a multiple of it. */
  function RepUnit(len: nat, reps: nat): (u: nat)
    requires reps >= 1
    ensures u >= 1
  {
    RepUnitPositive(len, reps);
    RepeatedValue(1, len, reps)
  }

  /** Multiplying by `u` and dividing by `u` again gives back `h`, with no remainder. */
  lemma DivExact(h: nat, u: nat)
    requires u >= 1
    ensures (h * u) % u == 0 && (h * u) / u == h
  {
    var q, r := (h * u) / u, (h * u) % u;
    assert h * u == q * u + r;
    assert (h - q) * u == r by {
      assert h * u - q * u == (h - q) * u;
    }
    if h - q >= 1 {
      assert false;
    } else if h - q <= -1 {
      assert false;
    }
  }

  /** Repetitions of a `len`-digit pattern, `reps` >= 2 times, are exactly the multiples
      of the rep-unit whose quotient has `len` digits. */
  lemma RepeatCharacterization(x: nat, len: nat, reps: nat)
    requires len >= 1 && reps >= 2
    ensures IsRepeat(x, len, reps) <==>
      x % RepUnit(len, reps) == 0 &&
      PatternBounds(len).0 <= x / RepUnit(len, reps) <= PatternBounds(len).1
  {
    if IsRepeat(x, len, reps) {
      RepeatIsMultiple(x, len, reps);
    }
    if x % RepUnit(len, reps) == 0 &&
       PatternBounds(len).0 <= x / RepUnit(len, reps) <= PatternBounds(len).1 {
      MultipleIsRepeat(x, len, reps);
    }
  }

  lemma RepeatIsMultiple(x: nat, len: nat, reps: nat)
    requires len >= 1 && reps >= 2 && IsRepeat(x, len, reps)
    ensures x % RepUnit(len, reps) == 0
    ensures PatternBounds(len).0 <= x / RepUnit(len, reps) <= PatternBounds(len).1
  {
    var u := RepUnit(len, reps);
    var s := DecimalString(x);
    var p := s[..len];
    assert |s| >= 2;
    assert p[0] == s[0] != '0';
    assert AllDigits(p) by {
      forall i | 0 <= i < |p| ensures IsDigit(p[i]) { assert p[i] == s[i]; }
    }
    CanonicalDecimal(p);
    var h := DecimalValue(p);
    assert h >= 1;
    RepeatedValueDigits(h, len, reps);
    DecimalStringInjective(x, RepeatedValue(h, len, reps));
    RepeatedValueLinear(h, len, reps);
    DivExact(h, u);
    PatternBoundsExact(len, h);
  }

  lemma MultipleIsRepeat(x: nat, len: nat, reps: nat)
    requires len >= 1 && reps >= 2 && x % RepUnit(len, reps) == 0
    requires PatternBounds(len).0 <= x / RepUnit(len, reps) <= PatternBounds(len).1
    ensures IsRepeat(x, len, reps)
  {
    var u := RepUnit(len, reps);
    var h := x / u;
    assert x == h * u;
    PatternBoundsExact(len, h);
    RepeatedValueLinear(h, len, reps);
    RepeatedValueDigits(h, len, reps);
    var s := DecimalString(h);
    assert RepeatStr(s, reps)[..len] == s;
  }

  /** The IDs a pattern loop has produced so far: a multiple of the rep-unit whose
      pattern lies in [patternBounds(len).0, hEnd). */
  predicate Produced(x: nat, len: nat, reps: nat, hEnd: nat)
    requires len >= 1 && reps >= 1
  {
    var u := RepUnit(len, reps);
    x % u == 0 && PatternBounds(len).0 <= x / u < hEnd
  }

  /** The next pattern value `h` adds exactly one ID, `h` written `reps` times. */
  lemma ProducedStep(x: nat, len: nat, reps: nat, h: nat)
    requires len >= 1 && reps >= 1 && PatternBounds(len).0 <= h
    ensures Produced(x, len, reps, h + 1) <==>
      Produced(x, len, reps, h) || x == RepeatedValue(h, len, reps)
  {
    var u := RepUnit(len, reps);
    RepeatedValueLinear(h, len, reps);
    DivExact(h, u);
    if x % u == 0 && x / u == h {
      assert x == h * u;
    }
  }

  /** A larger pattern gives a larger repetition. */
  lemma RepeatedValueSucc(h: nat, len: nat, reps: nat)
    requires reps >= 1
    ensures RepeatedValue(h, len, reps) < RepeatedValue(h + 1, len, reps)
  {
    RepeatedValueLinear(h, len, reps);
    RepeatedValueLinear(h + 1, len, reps);
    RepUnitPositive(len, reps);
    var u := RepeatedValue(1, len, reps);
    assert (h + 1) * u == h * u + u;
  }

  /** All patterns of `len` digits written twice are exactly the IDs of length `2 * len`
      that are written twice. */
  lemma ProducedTwice(x: nat, len: nat)
    requires len >= 1
    ensures Produced(x, len, 2, PatternBounds(len).1 + 1) <==>
      DigitLength(x) == 2 * len && RepeatedExactlyTwice(x)
  {
    RepeatCharacterization(x, len, 2);
  }

  /** The ID built from a pattern of `len` digits has `2 * len` digits and exceeds the
      IDs built from smaller patterns. */
  lemma TwiceStep(h: nat, len: nat)
    requires len >= 1 && PatternBounds(len).0 <= h <= PatternBounds(len).1
    ensures DigitLength(RepeatedValue(h, len, 2)) == 2 * len
    ensures RepeatedValue(h, len, 2) < RepeatedValue(h + 1, len, 2)
  {
    RepeatedValueSucc(h, len, 2);
    PatternBoundsExact(len, h);
    RepeatedValueDigits(h, len, 2);
  }

  predicate StrictlyIncreasing(s: seq<nat>)
  {
    forall i, j :: 0 <= i < j < |s| ==> s[i] < s[j]
  }

  predicate Distinct(s: seq<nat>)
  {
    forall i, j :: 0 <= i < j < |s| ==> s[i] != s[j]
  }

  /** The inner loop of `findExactlyTwiceInRange` for one even length `2 * halfLen`:
      every pattern of `halfLen` digits written twice that lands in [start, end]. */
  method ExactlyTwiceOfLength(start: nat, end: nat, halfLen: nat) returns (found: seq<nat>)
    requires halfLen >= 1
    ensures forall x :: x in found <==>
      start <= x <= end && DigitLength(x) == 2 * halfLen && RepeatedExactlyTwice(x)
    ensures forall i :: 0 <= i < |found| ==> DigitLength(found[i]) == 2 * halfLen
    ensures StrictlyIncreasing(found)
  {
    found := [];
    var bounds := PatternBounds(halfLen);
    var minHalf, maxHalf := bounds.0, bounds.1;
    var half := minHalf;
    while half <= maxHalf
      invariant minHalf <= half <= maxHalf + 1
      invariant TwiceBelow(found, start, end, halfLen, half)
    {
      found := TwiceOfPattern(found, start, end, halfLen, half);
      half := half + 1;
    }
    forall x: nat
      ensures x in found <==>
        (start <= x <= end && DigitLength(x) == 2 * halfLen && RepeatedExactlyTwice(x))
    {
      ProducedTwice(x, halfLen);
    }
  }

  /** The invariant of the pattern loop of `findExactlyTwiceInRange`: `found` holds, in
      increasing order, the IDs in range built from the patterns below `half`. */
  ghost predicate TwiceBelow(found: seq<nat>, start: nat, end: nat, halfLen: nat, half: nat)
    requires halfLen >= 1
  {
    && (forall x :: x in found <==> start <= x <= end && Produced(x, halfLen, 2, half))
    && (forall i :: 0 <= i < |found| ==> found[i] < RepeatedValue(half, halfLen, 2))
    && (forall i :: 0 <= i < |found| ==> DigitLength(found[i]) == 2 * halfLen)
    && StrictlyIncreasing(found)
  }

  /** One pattern of `findExactlyTwiceInRange`: its ID is kept when it lies in range. */
  method TwiceOfPattern(found: seq<nat>, start: nat, end: nat, halfLen: nat, half: nat)
    returns (found': seq<nat>)
    requires halfLen >= 1 && PatternBounds(halfLen).0 <= half <= PatternBounds(halfLen).1
    requires TwiceBelow(found, start, end, halfLen, half)
    ensures TwiceBelow(found', start, end, halfLen, half + 1)
  {
    var invalidID := BuildRepeatedID(half, halfLen, 2);
    TwiceNext(found, start, end, halfLen, half);
    found' := found;
    if invalidID >= start && invalidID <= end {
      found' := found + [invalidID];
    }
  }

  lemma TwiceNext(found: seq<nat>, start: nat, end: nat, halfLen: nat, half: nat)
    requires halfLen >= 1 && PatternBounds(halfLen).0 <= half <= PatternBounds(halfLen).1
    requires TwiceBelow(found, start, end, halfLen, half)
    ensures var id := RepeatedValue(half, halfLen, 2);
      start <= id <= end ==> TwiceBelow(found + [id], start, end, halfLen, half + 1)
    ensures var id := RepeatedValue(half, halfLen, 2);
      !(start <= id <= end) ==> TwiceBelow(found, start, end, halfLen, half + 1)
  {
    var id := RepeatedValue(half, halfLen, 2);
    forall x: nat ensures Produced(x, halfLen, 2, half + 1) <==>
      Produced(x, halfLen, 2, half) || x == id
    {
      ProducedStep(x, halfLen, 2, half);
    }
    TwiceStep(half, halfLen);
    if start <= id <= end {
      TwiceKeep(found, start, end, halfLen, half, id);
    } else {
      TwiceSkip(found, start, end, halfLen, half, id);
    }
  }

  lemma TwiceKeep(found: seq<nat>, start: nat, end: nat, halfLen: nat, half: nat, id: nat)
    requires halfLen >= 1 && TwiceBelow(found, start, end, halfLen, half)
    requires forall x: nat :: Produced(x, halfLen, 2, half + 1) <==> Produced(x, halfLen, 2, half) || x == id
    requires id == RepeatedValue(half, halfLen, 2) && DigitLength(id) == 2 * halfLen
    requires id < RepeatedValue(half + 1, halfLen, 2) && start <= id <= end
    ensures TwiceBelow(found + [id], start, end, halfLen, half + 1)
  {
    var f := found + [id];
    assert forall i :: 0 <= i < |found| ==> f[i] == found[i];
  }

  lemma TwiceSkip(found: seq<nat>, start: nat, end: nat, halfLen: nat, half: nat, id: nat)
    requires halfLen >= 1 && TwiceBelow(found, start, end, halfLen, half)
    requires forall x: nat :: Produced(x, halfLen, 2, half + 1) <==> Produced(x, halfLen, 2, half) || x == id
    requires id == RepeatedValue(half, halfLen, 2) && id < RepeatedValue(half + 1, halfLen, 2)
    requires !(start <= id <= end)
    ensures TwiceBelow(found, start, end, halfLen, half + 1)
  {
  }

  /** `findExactlyTwiceInRange`: every ID in [start, end] whose digit length lies in
      [startLen, endLen] and that is a digit string written twice, in increasing order. */
  method FindExactlyTwiceInRange(start: nat, end: nat, startLen: nat, endLen: nat)
    returns (ids: seq<nat>)
    requires startLen >= 1
    ensures forall x :: x in ids <==>
      start <= x <= end && startLen <= DigitLength(x) <= endLen && RepeatedExactlyTwice(x)
    ensures StrictlyIncreasing(ids)
  {
    ids := [];
    var numDigits := startLen;
    while numDigits <= endLen
      invariant numDigits >= startLen
      invariant numDigits <= endLen + 1 || numDigits == startLen
      invariant TwiceOfLengthsBelow(ids, start, end, startLen, numDigits)
    {
      if numDigits % 2 == 0 {
        var found := ExactlyTwiceOfLength(start, end, numDigits / 2);
        TwiceOfEvenLength(ids, found, start, end, startLen, numDigits);
        ids := ids + found;
      } else {
        TwiceOfOddLength(ids, start, end, startLen, numDigits);
      }
      numDigits := numDigits + 1;
    }
  }

  /** What the loop of `findExactlyTwiceInRange` has found once the lengths below `n`
      are done. */
  ghost predicate TwiceOfLengthsBelow(ids: seq<nat>, start: nat, end: nat, startLen: nat, n: nat)
  {
    (forall x :: x in ids <==>
      start <= x <= end && startLen <= DigitLength(x) < n && RepeatedExactlyTwice(x)) &&
    (forall i :: 0 <= i < |ids| ==> DigitLength(ids[i]) < n) &&
    StrictlyIncreasing(ids)
  }

  lemma TwiceOfEvenLength(ids: seq<nat>, found: seq<nat>, start: nat, end: nat, startLen: nat, n: nat)
    requires n >= startLen && n % 2 == 0 && TwiceOfLengthsBelow(ids, start, end, startLen, n)
    requires forall x :: x in found <==>
      start <= x <= end && DigitLength(x) == 2 * (n / 2) && RepeatedExactlyTwice(x)
    requires forall i :: 0 <= i < |found| ==> DigitLength(found[i]) == 2 * (n / 2)
    requires StrictlyIncreasing(found)
    ensures TwiceOfLengthsBelow(ids + found, start, end, startLen, n + 1)
  {
    AppendLonger(ids, found, n);
  }

  lemma TwiceOfOddLength(ids: seq<nat>, start: nat, end: nat, startLen: nat, n: nat)
    requires n % 2 == 1 && TwiceOfLengthsBelow(ids, start, end, startLen, n)
    ensures TwiceOfLengthsBelow(ids, start, end, startLen, n + 1)
  {
  }

  /** IDs of `n` digits, in increasing order, appended after shorter ones keep the
      whole list increasing and shorter than `n + 1` digits. */
  lemma AppendLonger(ids: seq<nat>, found: seq<nat>, n: nat)
    requires StrictlyIncreasing(ids) && StrictlyIncreasing(found)
    requires forall i :: 0 <= i < |ids| ==> DigitLength(ids[i]) < n
    requires forall j :: 0 <= j < |found| ==> DigitLength(found[j]) == n
    ensures StrictlyIncreasing(ids + found)
    ensures forall i :: 0 <= i < |ids + found| ==> DigitLength((ids + found)[i]) < n + 1
  {
    forall i, j | 0 <= i < |ids| && 0 <= j < |found| ensures ids[i] < found[j] {
      LengthOrder(ids[i], found[j]);
    }
  }

  // ------------------------------------------------- at least twice

  /** Some pattern length in [1, k) repeats to the end of `x`'s decimal form. */
  predicate RepeatsPatternBelow(x: nat, k: nat)
  {
    k >= 2 && (RepeatsPatternBelow(x, k - 1) || RepeatsPattern(x, k - 1))
  }

  /** The recursive disjunction is the bounded existential it stands for. */
  lemma RepeatsPatternBelowExists(x: nat, k: nat)
    ensures RepeatsPatternBelow(x, k) <==> exists len :: 1 <= len < k && RepeatsPattern(x, len)
  {
    if RepeatsPatternBelow(x, k) {
      var len := BelowWitness(x, k);
    }
    if exists len :: 1 <= len < k && RepeatsPattern(x, len) {
      var len :| 1 <= len < k && RepeatsPattern(x, len);
      WitnessBelow(x, k, len);
    }
  }

  lemma {:induction false} BelowWitness(x: nat, k: nat) returns (len: nat)
    requires RepeatsPatternBelow(x, k)
    ensures 1 <= len < k && RepeatsPattern(x, len)
  {
    if RepeatsPattern(x, k - 1) {
      len := k - 1;
    } else {
      len := BelowWitness(x, k - 1);
    }
  }

  lemma {:induction false} WitnessBelow(x: nat, k: nat, len: nat)
    requires 1 <= len < k && RepeatsPattern(x, len)
    ensures RepeatsPatternBelow(x, k)
  {
    if len < k - 1 {
      WitnessBelow(x, k - 1, len);
    }
  }

  /** Part 2's predicate is the recursive one with every pattern length up to half. */
  lemma AtLeastTwiceBelow(x: nat)
    ensures RepeatedAtLeastTwice(x) <==> RepeatsPatternBelow(x, DigitLength(x) / 2 + 1)
  {
    RepeatsPatternBelowExists(x, DigitLength(x) / 2 + 1);
  }

  /** Every ID written exactly twice is written at least twice. */
  lemma ExactlyTwiceIsAtLeastTwice(x: nat)
    requires RepeatedExactlyTwice(x)
    ensures RepeatedAtLeastTwice(x)
  {
    var n := DigitLength(x);
    var half := n / 2;
    assert n == half * 2;
    DivExact(2, half);
    assert RepeatsPattern(x, half);
  }

  /** For a pattern length dividing `n` with at least two copies, the pattern loop yields
      exactly the `n`-digit IDs that repeat that pattern. */
  lemma ProducedPattern(x: nat, len: nat, n: nat)
    requires len >= 1 && n % len == 0 && n / len >= 2
    ensures Produced(x, len, n / len, PatternBounds(len).1 + 1) <==>
      DigitLength(x) == n && RepeatsPattern(x, len)
  {
    RepeatCharacterization(x, len, n / len);
    Divides(n, len);
  }

  lemma Divides(n: nat, len: nat)
    requires len >= 1 && n % len == 0
    ensures len * (n / len) == n
  {
  }

  /** A length of at most half of `n` that divides it leaves at least two copies. */
  lemma TwoCopies(n: nat, len: nat)
    requires 1 <= len <= n / 2 && n % len == 0
    ensures n / len >= 2
  {
    Divides(n, len);
  }

  /** A pattern length that does not divide `n` repeats in no `n`-digit ID. */
  lemma NoPatternCase(x: nat, len: nat, n: nat)
    requires 1 <= len && DigitLength(x) == n && n % len != 0
    ensures !RepeatsPattern(x, len)
  {
  }

  lemma PrefixTrans(a: seq<nat>, b: seq<nat>, c: seq<nat>)
    requires |a| <= |b| <= |c| && b[..|a|] == a && c[..|b|] == b
    ensures c[..|a|] == a
  {
    assert c[..|a|] == c[..|b|][..|a|];
  }

  /** The inner pattern loop of `collectAtLeastTwiceIDs`: every pattern of `len` digits
      written `reps` times that lands in [start, end] and is not yet in `seen` is
      appended to `ids` and recorded in `seen`. */
  method CollectPatternIDs(len: nat, reps: nat, start: nat, end: nat, seen: set<nat>, ids: seq<nat>)
    returns (seen': set<nat>, ids': seq<nat>)
    requires len >= 1 && reps >= 2
    requires forall x :: x in seen <==> x in ids
    requires Distinct(ids)
    ensures forall x :: x in seen' <==> x in ids'
    ensures Distinct(ids') && |ids| <= |ids'| && ids'[..|ids|] == ids
    ensures forall x :: x in ids' <==>
      x in ids || (start <= x <= end && Produced(x, len, reps, PatternBounds(len).1 + 1))
  {
    seen', ids' := seen, ids;
    var minPattern, maxPattern := PatternBounds(len).0, PatternBounds(len).1;
    var pattern := minPattern;
    while pattern <= maxPattern
      invariant minPattern <= pattern <= maxPattern + 1
      invariant forall x :: x in seen' <==> x in ids'
      invariant Distinct(ids') && |ids| <= |ids'| && ids'[..|ids|] == ids
      invariant forall x :: x in ids' <==>
        x in ids || (start <= x <= end && Produced(x, len, reps, pattern))
    {
      var invalidID := BuildRepeatedID(pattern, len, reps);
      forall x: nat ensures Produced(x, len, reps, pattern + 1) <==>
        Produced(x, len, reps, pattern) || x == invalidID
      {
        ProducedStep(x, len, reps, pattern);
      }
      if invalidID >= start && invalidID <= end && invalidID !in seen' {
        ids' := ids' + [invalidID];
        seen' := seen' + {invalidID};
      }
      pattern := pattern + 1;
    }
  }

  /** `collectAtLeastTwiceIDs`: appends to `ids` every `numDigits`-digit ID in [start, end]
      that repeats a pattern at least twice and is not yet in `seen`. */
  method CollectAtLeastTwiceIDs(numDigits: nat, start: nat, end: nat, seen: set<nat>, ids: seq<nat>)
    returns (seen': set<nat>, ids': seq<nat>)
    requires forall x :: x in seen <==> x in ids
    requires Distinct(ids)
    ensures forall x :: x in seen' <==> x in ids'
    ensures Distinct(ids') && |ids| <= |ids'| && ids'[..|ids|] == ids
    ensures forall x :: x in ids' <==>
      x in ids || (start <= x <= end && DigitLength(x) == numDigits && RepeatedAtLeastTwice(x))
  {
    seen', ids' := seen, ids;
    var patternLen := 1;
    while patternLen <= numDigits / 2
      invariant 1 <= patternLen <= numDigits / 2 + 1
      invariant CollectedBelow(ids, seen', ids', start, end, numDigits, patternLen)
    {
      seen', ids' := CollectPatternLength(ids, seen', ids', start, end, numDigits, patternLen);
      patternLen := patternLen + 1;
    }
    forall x: nat | DigitLength(x) == numDigits
      ensures RepeatedAtLeastTwice(x) <==> RepeatsPatternBelow(x, patternLen)
    {
      AtLeastTwiceBelow(x);
    }
  }

  /** The invariant of the pattern-length loop of `collectAtLeastTwiceIDs`: `ids'` extends
      `ids` with the `numDigits`-digit IDs in range that repeat a pattern shorter than
      `patternLen`, and `seen'` holds the same numbers. */
  ghost predicate CollectedBelow(ids: seq<nat>, seen': set<nat>, ids': seq<nat>, start: nat, end: nat,
                                 numDigits: nat, patternLen: nat)
  {
    && (forall x :: x in seen' <==> x in ids')
    && Distinct(ids') && |ids| <= |ids'| && ids'[..|ids|] == ids
    && (forall x :: x in ids' <==>
          x in ids || (start <= x <= end && DigitLength(x) == numDigits && RepeatsPatternBelow(x, patternLen)))
  }

  /** One pattern length of `collectAtLeastTwiceIDs`: the pattern loop runs only when the
      length divides the digit count with at least two copies. */
  method CollectPatternLength(ids: seq<nat>, seen: set<nat>, cur: seq<nat>, start: nat, end: nat,
                              numDigits: nat, patternLen: nat)
    returns (seen': set<nat>, ids': seq<nat>)
    requires 1 <= patternLen <= numDigits / 2
    requires CollectedBelow(ids, seen, cur, start, end, numDigits, patternLen)
    ensures CollectedBelow(ids, seen', ids', start, end, numDigits, patternLen + 1)
  {
    if numDigits % patternLen != 0 {
      seen', ids' := seen, cur;
      forall x: nat | DigitLength(x) == numDigits ensures !RepeatsPattern(x, patternLen) {
        NoPatternCase(x, patternLen, numDigits);
      }
    } else {
      var repetitions := numDigits / patternLen;
      // The source's `repetitions < 2` guard never fires under the loop bound.
      TwoCopies(numDigits, patternLen);
      seen', ids' := CollectPatternIDs(patternLen, repetitions, start, end, seen, cur);
      forall x: nat ensures Produced(x, patternLen, repetitions, PatternBounds(patternLen).1 + 1) <==>
        DigitLength(x) == numDigits && RepeatsPattern(x, patternLen)
      {
        ProducedPattern(x, patternLen, numDigits);
      }
      PrefixTrans(ids, cur, ids');
    }
  }

  /** `findAtLeastTwiceInRange`: every ID in [start, end] whose digit length lies in
      [startLen, endLen] and that repeats some pattern at least twice, each once. */
  method FindAtLeastTwiceInRange(start: nat, end: nat, startLen: nat, endLen: nat)
    returns (ids: seq<nat>)
    ensures forall x :: x in ids <==>
      start <= x <= end && startLen <= DigitLength(x) <= endLen && RepeatedAtLeastTwice(x)
    ensures Distinct(ids)
  {
    ids := [];
    var seen: set<nat> := {};
    var numDigits := startLen;
    while numDigits <= endLen
      invariant numDigits >= startLen
      invariant numDigits <= endLen + 1 || numDigits == startLen
      invariant forall x :: x in seen <==> x in ids
      invariant Distinct(ids)
      invariant forall x :: x in ids <==>
        start <= x <= end && startLen <= DigitLength(x) < numDigits && RepeatedAtLeastTwice(x)
    {
      seen, ids := CollectAtLeastTwiceIDs(numDigits, start, end, seen, ids);
      numDigits := numDigits + 1;
    }
  }

  /** The part's notion of an invalid ID. */
  predicate Invalid(x: nat, atLeastTwice: bool)
  {
    if atLeastTwice then RepeatedAtLeastTwice(x) else RepeatedExactlyTwice(x)
  }

  /** More digits only for a larger number. */
  lemma DigitLengthMonotone(a: nat, b: nat)
    requires a <= b
    ensures DigitLength(a) <= DigitLength(b)
  {
    if DigitLength(b) < DigitLength(a) {
      LengthOrder(b, a);
    }
  }

  /** `findInvalidIDsInRange`: the invalid IDs of [start, end], each once. */
  method FindInvalidIDsInRange(start: nat, end: nat, atLeastTwice: bool) returns (ids: seq<nat>)
    ensures forall x :: x in ids <==> start <= x <= end && Invalid(x, atLeastTwice)
    ensures Distinct(ids)
  {
    var startLen := DigitLength(start);
    var endLen := DigitLength(end);
    forall x: nat | start <= x <= end ensures startLen <= DigitLength(x) <= endLen {
      DigitLengthMonotone(start, x);
      DigitLengthMonotone(x, end);
    }
    if atLeastTwice {
      ids := FindAtLeastTwiceInRange(start, end, startLen, endLen);
    } else {
      ids := FindExactlyTwiceInRange(start, end, startLen, endLen);
    }
  }

  // ------------------------------------------------------ reference sums

  /** The invalid IDs of [lo, hi] by trying every number in turn: an independent
      reference for the pattern search. */
  function InvalidList(lo: nat, hi: nat, atLeastTwice: bool): (r: seq<nat>)
    decreases hi + 1 - lo
    ensures forall x :: x in r <==> lo <= x <= hi && Invalid(x, atLeastTwice)
    ensures Distinct(r)
  {
    if lo > hi then []
    else
      var rest := InvalidList(lo + 1, hi, atLeastTwice);
      if Invalid(lo, atLeastTwice) then
        DistinctPrepend(lo, rest);
        [lo] + rest
      else rest
  }

  lemma DistinctPrepend(x: nat, s: seq<nat>)
    requires Distinct(s) && x !in s
    ensures Distinct([x] + s)
  {
    var t := [x] + s;
    assert forall i :: 0 < i < |t| ==> t[i] == s[i - 1];
  }

  /** The sum of a sequence with one element taken out. */
  lemma SumOfRemove(s: seq<int>, k: nat)
    requires k < |s|
    ensures SumOf(s) == SumOf(s[..k] + s[k + 1..]) + s[k]
  {
    SumOfSplit(s, k + 1);
    SumOfLast(s[..k + 1], s[..k]);
    SumOfAppend(s[..k], s[k + 1..]);
  }

  lemma SumOfSplit(s: seq<int>, n: nat)
    requires n <= |s|
    ensures SumOf(s) == SumOf(s[..n]) + SumOf(s[n..])
  {
    SliceJoin(s, n);
    SumOfParts(s, s[..n], s[n..]);
  }

  lemma SliceJoin(s: seq<int>, n: nat)
    requires n <= |s|
    ensures s[..n] + s[n..] == s
  {
  }

  lemma SumOfParts(s: seq<int>, a: seq<int>, b: seq<int>)
    requires a + b == s
    ensures SumOf(s) == SumOf(a) + SumOf(b)
  {
    SumOfAppend(a, b);
  }

  lemma SumOfLast(s: seq<int>, front: seq<int>)
    requires |s| > 0 && front == s[..|s| - 1]
    ensures SumOf(s) == SumOf(front) + s[|s| - 1]
  {
  }

  /** Two duplicate-free sequences with the same elements have the same sum. */
  lemma {:induction false} SumOfSameElements(a: seq<nat>, b: seq<nat>)
    requires Distinct(a) && Distinct(b)
    requires forall x :: x in a <==> x in b
    ensures SumOf(a) == SumOf(b)
    decreases |a|
  {
    if |a| == 0 {
      if |b| > 0 {
        var x := b[0];
        ghost var present := x in a;
        assert false;
      }
    } else {
      var v := a[|a| - 1];
      assert v in b;
      var k :| 0 <= k < |b| && b[k] == v;
      var a', b' := a[..|a| - 1], b[..k] + b[k + 1..];
      RemoveBoth(a, b, k, a', b');
      SumOfSameElements(a', b');
      SumOfRemove(b, k);
    }
  }

  /** Dropping the last element of `a` and the same value from `b` keeps them alike. */
  lemma RemoveBoth(a: seq<nat>, b: seq<nat>, k: nat, a': seq<nat>, b': seq<nat>)
    requires Distinct(a) && Distinct(b) && |a| > 0 && k < |b| && b[k] == a[|a| - 1]
    requires forall x :: x in a <==> x in b
    requires a' == a[..|a| - 1] && b' == b[..k] + b[k + 1..]
    ensures Distinct(b')
    ensures forall x :: x in a' <==> x in b'
  {
    var v := a[|a| - 1];
    forall x ensures x in a' <==> x in b' {
      if x in a' {
        var i :| 0 <= i < |a'| && a'[i] == x;
        assert x != v;
        assert x in b;
        var j :| 0 <= j < |b| && b[j] == x;
        assert j != k;
        if j < k { assert b'[j] == x; } else { assert b'[j - 1] == x; }
      }
      if x in b' {
        var j :| 0 <= j < |b'| && b'[j] == x;
        if j < k { assert b[j] == x && j != k; } else { assert b[j + 1] == x && j + 1 != k; }
        assert x != v;
        assert x in a;
        var i :| 0 <= i < |a| && a[i] == x;
        assert a'[i] == x;
      }
    }
    forall i, j | 0 <= i < j < |b'| ensures b'[i] != b'[j] {
      var i0 := if i < k then i else i + 1;
      var j0 := if j < k then j else j + 1;
      assert b'[i] == b[i0] && b'[j] == b[j0] && i0 < j0;
    }
  }

  /** The search's sum is the reference sum. */
  lemma SumOfInvalid(ids: seq<nat>, lo: nat, hi: nat, atLeastTwice: bool)
    requires Distinct(ids)
    requires forall x :: x in ids <==> lo <= x <= hi && Invalid(x, atLeastTwice)
    ensures SumOf(ids) == SumOf(InvalidList(lo, hi, atLeastTwice))
  {
    SumOfSameElements(ids, InvalidList(lo, hi, atLeastTwice));
  }

  /** Part 1's invalid IDs are among part 2's, so part 1's sum is never larger. */
  lemma {:induction false} InvalidSumsOrdered(lo: nat, hi: nat)
    ensures SumOf(InvalidList(lo, hi, false)) <= SumOf(InvalidList(lo, hi, true))
    decreases hi + 1 - lo
  {
    if lo <= hi {
      var head1 := if Invalid(lo, false) then [lo] else [];
      var head2 := if Invalid(lo, true) then [lo] else [];
      if Invalid(lo, false) { ExactlyTwiceIsAtLeastTwice(lo); }
      InvalidSumsOrdered(lo + 1, hi);
      SumOfAppend(head1, InvalidList(lo + 1, hi, false));
      SumOfAppend(head2, InvalidList(lo + 1, hi, true));
      assert SumOf([lo]) == lo by { assert [lo][..0] == []; }
    }
  }

  // ------------------------------------------------------------ parsing

  /** The scanner's lines written one after another, as `strings.Builder` collects them. */
  function Concat(lines: seq<string>): string
  {
    if |lines| == 0 then "" else Concat(lines[..|lines| - 1]) + lines[|lines| - 1]
  }

  /** One comma-separated piece: "start-end" with two integers, or nothing. */
  function RangeOf(part: string): (r: Option<(nat, nat)>)
  {
    var p := TrimSpace(part);
    if p == "" then None
    else
      var bounds := Split(p, '-');
      if |bounds| != 2 then None
      else
        match (Atoi(bounds[0]), Atoi(bounds[1]))
          case (Some(a), Some(b)) =>
            // A piece without '-' that parses has no sign or a '+' sign.
            assert IsInteger(bounds[0]) && bounds[0][0] != '-';
            assert IsInteger(bounds[1]) && bounds[1][0] != '-';
            Some((a as nat, b as nat))
          case _ => None
  }

  /** The ranges the pieces describe, in order, skipping pieces that are not ranges. */
  function RangesOf(parts: seq<string>): seq<(nat, nat)>
  {
    if |parts| == 0 then []
    else
      var last := match RangeOf(parts[|parts| - 1]) case Some(r) => [r] case None => [];
      RangesOf(parts[..|parts| - 1]) + last
  }

  /** One more piece adds its range, if it is one. */
  lemma RangesOfStep(parts: seq<string>, i: nat)
    requires i < |parts|
    ensures RangesOf(parts[..i + 1]) ==
      RangesOf(parts[..i]) + match RangeOf(parts[i]) case Some(r) => [r] case None => []
  {
    assert parts[..i + 1][..i] == parts[..i];
  }

  /** How a range is written in the input. */
  function FormatRange(r: (nat, nat)): string
  {
    DecimalString(r.0) + "-" + DecimalString(r.1)
  }

  function FormatRanges(rs: seq<(nat, nat)>): seq<string>
  {
    if |rs| == 0 then [] else FormatRanges(rs[..|rs| - 1]) + [FormatRange(rs[|rs| - 1])]
  }

  lemma DigitsHaveNoSpace(s: string)
    requires AllDigits(s)
    ensures NoSpace(s) && '-' !in s && ',' !in s
  {
    forall i | 0 <= i < |s| ensures !IsSpace(s[i]) && s[i] != '-' && s[i] != ',' {
      assert IsDigit(s[i]);
    }
  }

  /** A range written as "start-end" parses back to itself. */
  lemma RangeOfFormat(r: (nat, nat))
    ensures RangeOf(FormatRange(r)) == Some(r)
  {
    FormatRangeNoSpace(r);
    FormatRangeSplit(r);
    AtoiOfDecimalString(r.0);
    AtoiOfDecimalString(r.1);
  }

  lemma FormatRangeNoSpace(r: (nat, nat))
    ensures NoSpace(FormatRange(r))
  {
    var a, b := DecimalString(r.0), DecimalString(r.1);
    DigitsHaveNoSpace(a);
    DigitsHaveNoSpace(b);
    var s := FormatRange(r);
    forall i | 0 <= i < |s| ensures !IsSpace(s[i]) {
      if i < |a| { assert s[i] == a[i]; }
      else if i > |a| { assert s[i] == b[i - |a| - 1]; }
    }
  }

  lemma FormatRangeSplit(r: (nat, nat))
    ensures Split(FormatRange(r), '-') == [DecimalString(r.0), DecimalString(r.1)]
  {
    var a, b := DecimalString(r.0), DecimalString(r.1);
    DigitsHaveNoSpace(a);
    DigitsHaveNoSpace(b);
    SplitNoSep(b, '-');
    SplitPrefix(a, '-', b);
    assert FormatRange(r) == a + ['-'] + b;
  }

  /** Writing ranges out and reading the pieces back gives the same ranges. */
  lemma {:induction false} RangesOfFormat(rs: seq<(nat, nat)>)
    ensures RangesOf(FormatRanges(rs)) == rs
  {
    if |rs| > 0 {
      var init := rs[..|rs| - 1];
      RangesOfFormat(init);
      RangeOfFormat(rs[|rs| - 1]);
      var parts := FormatRanges(rs);
      assert parts[..|parts| - 1] == FormatRanges(init);
      InitLast(rs);
    }
  }

  lemma InitLast(rs: seq<(nat, nat)>)
    requires |rs| > 0
    ensures rs == rs[..|rs| - 1] + [rs[|rs| - 1]]
  {
  }

  /** The sum of the reference invalid IDs over a list of ranges. */
  function InvalidTotal(rs: seq<(nat, nat)>, atLeastTwice: bool): int
  {
    if |rs| == 0 then 0
    else
      var r := rs[|rs| - 1];
      InvalidTotal(rs[..|rs| - 1], atLeastTwice) + SumOf(InvalidList(r.0, r.1, atLeastTwice))
  }

  /** Over any list of ranges, part 1's total is at most part 2's. */
  lemma {:induction false} InvalidTotalOrdered(rs: seq<(nat, nat)>)
    ensures InvalidTotal(rs, false) <= InvalidTotal(rs, true)
  {
    if |rs| > 0 {
      InvalidTotalOrdered(rs[..|rs| - 1]);
      InvalidSumsOrdered(rs[|rs| - 1].0, rs[|rs| - 1].1);
    }
  }

  /** The loop of `Parse` over the comma-separated pieces: the ranges among them, in order. */
  method ReadRanges(parts: seq<string>) returns (found: seq<(nat, nat)>)
    ensures found == RangesOf(parts)
  {
    found := [];
    var i := 0;
    while i < |parts|
      invariant 0 <= i <= |parts|
      invariant found == RangesOf(parts[..i])
    {
      RangesOfStep(parts, i);
      var r := RangeOf(parts[i]);
      if r.Some? {
        found := found + [r.value];
      }
      i := i + 1;
    }
    assert parts[..|parts|] == parts;
  }

  /** `GiftShop`: the ranges read so far and the two sums of invalid IDs. */
  class GiftShop {
    var Ranges: seq<(nat, nat)>
    var InvalidSum1: int
    var InvalidSum2: int

    /** `NewGiftShop`: no ranges, both sums 0. */
    constructor ()
      ensures Ranges == [] && InvalidSum1 == 0 && InvalidSum2 == 0
    {
      Ranges, InvalidSum1, InvalidSum2 := [], 0, 0;
    }

    /** `Parse`: appends the ranges of the joined input lines, then sums, over all ranges,
        the IDs written exactly twice (part 1) and at least twice (part 2). */
    method Parse(lines: seq<string>)
      modifies this
      ensures Ranges == old(Ranges) + RangesOf(Split(TrimSpace(Concat(lines)), ','))
      ensures InvalidSum1 == InvalidTotal(Ranges, false)
      ensures InvalidSum2 == InvalidTotal(Ranges, true)
      ensures InvalidSum1 <= InvalidSum2
    {
      var parts := Split(TrimSpace(Concat(lines)), ',');
      var found := ReadRanges(parts);
      Ranges := Ranges + found;
      Consolidate();
    }

    /** The second half of `Parse`: both sums recomputed over all ranges. */
    method Consolidate()
      modifies this
      ensures Ranges == old(Ranges)
      ensures InvalidSum1 == InvalidTotal(Ranges, false)
      ensures InvalidSum2 == InvalidTotal(Ranges, true)
      ensures InvalidSum1 <= InvalidSum2
    {
      InvalidSum1, InvalidSum2 := 0, 0;
      var k := 0;
      while k < |Ranges|
        invariant 0 <= k <= |Ranges|
        invariant Ranges == old(Ranges)
        invariant InvalidSum1 == InvalidTotal(Ranges[..k], false)
        invariant InvalidSum2 == InvalidTotal(Ranges[..k], true)
      {
        assert Ranges[..k + 1][..k] == Ranges[..k];
        var r := Ranges[k];
        var ids1 := FindInvalidIDsInRange(r.0, r.1, false);
        var ids2 := FindInvalidIDsInRange(r.0, r.1, true);
        SumOfInvalid(ids1, r.0, r.1, false);
        SumOfInvalid(ids2, r.0, r.1, true);
        var s1 := Sum(ids1);
        var s2 := Sum(ids2);
        InvalidSum1 := InvalidSum1 + s1;
        InvalidSum2 := InvalidSum2 + s2;
        k := k + 1;
      }
      assert Ranges[..|Ranges|] == Ranges;
      InvalidTotalOrdered(Ranges);
    }
  }
}
