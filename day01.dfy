/**
 * Day 1: a dial numbered 0..99 turned left and right by rotation
 * instructions ("L68", "R30").  The dial counts how often it comes to rest on
 * 0 (`Strictzero`) and how often any click passes through 0 (`Zero`).
 */
module Day01 {
  import opened GoText

  /** Go's `%` on `int`: the remainder truncated toward zero (takes the sign of `a`). */
  function GoRem(a: int, b: int): (r: int)
    requires b > 0
    ensures -b < r < b
    ensures a >= 0 ==> r == a % b
    ensures a < 0 ==> r <= 0
  {
    if a >= 0 then a % b else -((-a) % b)
  }

  /** Go's `/` on `int`: the quotient truncated toward zero. */
  function GoQuo(a: int, b: int): (q: int)
    requires b > 0
    ensures a >= 0 ==> q == a / b
    ensures a < 0 ==> q <= 0
  {
    if a >= 0 then a / b else -((-a) / b)
  }

  /** Go's `((x % 100) + 100) % 100` is the Euclidean remainder of x by 100. */
  lemma WrapIsEuclidean(x: int)
    ensures GoRem(GoRem(x, 100) + 100, 100) == x % 100
  {
    if x < 0 {
      var m := -x;
      var q, r := m / 100, m % 100;
      assert x == -100 * q - r;
      assert GoRem(x, 100) == -r;
      assert x % 100 == (100 - r) % 100;
    }
  }

  /** The number of clicks t in 1..n at which the dial, turned right from `v`, shows 0. */
  function HitsRight(v: int, n: nat): nat
  {
    if n == 0 then 0 else HitsRight(v, n - 1) + (if (v + n) % 100 == 0 then 1 else 0)
  }

  /** The number of clicks t in 1..n at which the dial, turned left from `v`, shows 0. */
  function HitsLeft(v: int, n: nat): nat
  {
    if n == 0 then 0 else HitsLeft(v, n - 1) + (if (v - n) % 100 == 0 then 1 else 0)
  }

  /** Counting right-turn hits by division: `(Value + n) / 100`. */
  lemma {:induction false} HitsRightFormula(v: int, n: nat)
    requires 0 <= v <= 99
    ensures HitsRight(v, n) == (v + n) / 100
  {
    if n > 0 {
      HitsRightFormula(v, n - 1);
      var a := v + n - 1;
      assert (a + 1) / 100 == a / 100 + (if (a + 1) % 100 == 0 then 1 else 0);
    }
  }

  /** Turning left from `v` hits 0 exactly where turning right from `(100 - v) % 100` does. */
  lemma {:induction false} HitsLeftMirror(v: int, n: nat)
    requires 0 <= v <= 99
    ensures HitsLeft(v, n) == HitsRight((100 - v) % 100, n)
  {
    if n > 0 {
      HitsLeftMirror(v, n - 1);
      MirrorClick(v, n);
    }
  }

  /** Turning left `n` from `v` reaches 0 exactly when turning right `n` from the mirror
      of `v` does. */
  lemma MirrorClick(v: int, n: nat)
    requires 0 <= v <= 99
    ensures ((v - n) % 100 == 0) == (((100 - v) % 100 + n) % 100 == 0)
  {
    var w := (100 - v) % 100;
    assert w + n == if v == 0 then n else n - v + 100;
    NegatedMultiple(v - n);
  }

  lemma NegatedMultiple(x: int)
    ensures (x % 100 == 0) == ((-x) % 100 == 0) == ((100 - x) % 100 == 0)
  {
  }

  /** Counting left-turn hits by division: `((100 - Value) % 100 + n) / 100`. */
  lemma HitsLeftFormula(v: int, n: nat)
    requires 0 <= v <= 99
    ensures HitsLeft(v, n) == ((100 - v) % 100 + n) / 100
  {
    HitsLeftMirror(v, n);
    HitsRightFormula((100 - v) % 100, n);
  }

  class Dial {
    var Value: int
    var Strictzero: nat
    var Zero: nat

    ghost predicate Valid()
      reads this
    {
      0 <= Value <= 99
    }

    /** `NewDial`: the dial starts at 50 with both counters at 0. */
    constructor ()
      ensures Valid()
      ensures Value == 50 && Strictzero == 0 && Zero == 0
    {
      Value, Strictzero, Zero := 50, 0, 0;
    }

    /** `rotate(n)`: turn by `n` clicks, right for n >= 0, left for n < 0. */
    method Rotate(n: int)
      requires Valid()
      modifies this
      ensures Valid()
      ensures Value == (old(Value) + n) % 100
      ensures Strictzero == old(Strictzero) + (if Value == 0 then 1 else 0)
      ensures n >= 0 ==> Zero == old(Zero) + HitsRight(old(Value), n)
      ensures n < 0 ==> Zero == old(Zero) + HitsLeft(old(Value), -n)
    {
      if n >= 0 {
        HitsRightFormula(Value, n);
        Zero := Zero + GoQuo(Value + n, 100);
      } else {
        HitsLeftFormula(Value, -n);
        Zero := Zero + GoQuo(GoRem(100 - Value, 100) - n, 100);
      }
      WrapIsEuclidean(Value + n);
      Value := GoRem(GoRem(Value + n, 100) + 100, 100);
      if Value == 0 {
        Strictzero := Strictzero + 1;
      }
    }

    /** One line of `Parse`: "R<n>" turns by +n, "L<n>" by -n, anything else is ignored. */
    method ApplyLine(line: string)
      requires Valid()
      modifies this
      ensures Valid()
      ensures Instruction(line).None? ==>
        Value == old(Value) && Strictzero == old(Strictzero) && Zero == old(Zero)
      ensures Instruction(line).Some? ==>
        var n := Instruction(line).value;
        && Value == (old(Value) + n) % 100
        && Strictzero == old(Strictzero) + (if Value == 0 then 1 else 0)
        && (n >= 0 ==> Zero == old(Zero) + HitsRight(old(Value), n))
        && (n < 0 ==> Zero == old(Zero) + HitsLeft(old(Value), -n))
    {
      if |line| < 2 {
        return;
      }
      var dir := line[0];
      var parsed := Atoi(line[1..]);
      if parsed.None? {
        return;
      }
      var n := parsed.value;
      if dir == 'R' {
        Rotate(n);
      } else if dir == 'L' {
        Rotate(-n);
      }
    }

    /** `Parse`: every line in turn, as `ApplyLine` takes it. */
    method Parse(lines: seq<string>)
      requires Valid()
      modifies this
      ensures Valid()
      ensures Reading(Value, Strictzero, Zero) == Run(Reading(old(Value), old(Strictzero), old(Zero)), lines)
    {
      ghost var start := Reading(Value, Strictzero, Zero);
      for i := 0 to |lines|
        invariant Valid()
        invariant Reading(Value, Strictzero, Zero) == Run(start, lines[..i])
      {
        assert lines[..i + 1][..i] == lines[..i];
        ApplyLine(lines[i]);
      }
      assert lines[..|lines|] == lines;
    }
  }

  /** The signed rotation a line stands for, if it is an instruction at all. */
  function Instruction(line: string): (r: Option<int>)
    ensures r.Some? ==> |line| >= 2 && (line[0] == 'R' || line[0] == 'L') && IsInteger(line[1..])
    ensures |line| >= 2 && line[0] == 'R' && IsInteger(line[1..]) ==> r == Atoi(line[1..])
    ensures |line| >= 2 && line[0] == 'L' && IsInteger(line[1..]) ==> r == Some(-Atoi(line[1..]).value)
  {
    if |line| < 2 then None
    else match Atoi(line[1..])
      case None => None
      case Some(n) => if line[0] == 'R' then Some(n) else if line[0] == 'L' then Some(-n) else None
  }

  /** Where the dial points, how often it came to rest on 0 and how often it passed 0. */
  datatype Reading = Reading(value: int, strictzero: nat, zero: nat)

  /** One line of `Parse` applied to a reading; a line that is no instruction changes
      nothing. */
  function Step(r: Reading, line: string): Reading
  {
    match Instruction(line)
    case None => r
    case Some(n) =>
      var v := (r.value + n) % 100;
      Reading(v, r.strictzero + (if v == 0 then 1 else 0),
              r.zero + (if n >= 0 then HitsRight(r.value, n) else HitsLeft(r.value, -n)))
  }

  /** The lines of `Parse` applied in order. */
  function Run(r: Reading, lines: seq<string>): Reading
  {
    if |lines| == 0 then r else Step(Run(r, lines[..|lines| - 1]), lines[|lines| - 1])
  }

  /** The signed turns of the lines that are instructions, added up. */
  function TurnSum(lines: seq<string>): int
  {
    if |lines| == 0 then 0
    else TurnSum(lines[..|lines| - 1]) + match Instruction(lines[|lines| - 1]) case None => 0 case Some(n) => n
  }

  /** From a dial reading 0..99, the lines leave it at the start plus all the turns,
      modulo 100, and neither count ever falls. */
  lemma {:induction false} RunValue(r: Reading, lines: seq<string>)
    requires 0 <= r.value <= 99
    ensures Run(r, lines).value == (r.value + TurnSum(lines)) % 100
    ensures r.strictzero <= Run(r, lines).strictzero && r.zero <= Run(r, lines).zero
  {
    if |lines| > 0 {
      var init := lines[..|lines| - 1];
      RunValue(r, init);
      var t := TurnSum(init);
      match Instruction(lines[|lines| - 1])
      case None =>
      case Some(n) =>
        ModAdd(r.value + t, n);
    }
  }

  lemma ModAdd(a: int, n: int)
    ensures (a % 100 + n) % 100 == (a + n) % 100
  {
    var q := a / 100;
    assert a == 100 * q + a % 100;
    assert a + n == 100 * q + (a % 100 + n);
  }

  /** Applying two blocks of lines in turn is applying them joined. */
  lemma {:induction false} RunAppend(r: Reading, a: seq<string>, b: seq<string>)
    ensures Run(r, a + b) == Run(Run(r, a), b)
  {
    if |b| > 0 {
      assert (a + b)[..|a + b| - 1] == a + b[..|b| - 1];
      RunAppend(r, a, b[..|b| - 1]);
    } else {
      assert a + b == a;
    }
  }

  /** An instruction written as a direction letter and a decimal count parses back to that turn. */
  lemma InstructionOfDecimal(dir: char, n: nat)
    requires dir == 'L' || dir == 'R'
    ensures Instruction([dir] + DecimalString(n)) == Some(if dir == 'R' then n else -(n as int))
  {
    var line := [dir] + DecimalString(n);
    assert line[1..] == DecimalString(n);
    AtoiOfDecimalString(n);
  }

  /** Applies the line `dir` + decimal `n`, with the zero crossings in closed form. */
  method ApplyTurn(d: Dial, dir: char, n: nat)
    requires d.Valid() && (dir == 'L' || dir == 'R')
    modifies d
    ensures d.Valid()
    ensures d.Value == (old(d.Value) + (if dir == 'R' then n else -(n as int))) % 100
    ensures d.Strictzero == old(d.Strictzero) + (if d.Value == 0 then 1 else 0)
    ensures dir == 'R' ==> d.Zero == old(d.Zero) + (old(d.Value) + n) / 100
    ensures dir == 'L' ==> d.Zero == old(d.Zero) + ((100 - old(d.Value)) % 100 + n) / 100
  {
    InstructionOfDecimal(dir, n);
    HitsRightFormula(d.Value, n);
    HitsLeftFormula(d.Value, n);
    d.ApplyLine([dir] + DecimalString(n));
  }

  /** The first five lines of the example, from the starting dial. */
  method ExampleFirstHalf(d: Dial)
    requires d.Valid() && d.Value == 50 && d.Strictzero == 0 && d.Zero == 0
    modifies d
    ensures d.Valid() && d.Value == 55 && d.Strictzero == 1 && d.Zero == 3
  {
    ApplyTurn(d, 'L', 68);
    assert d.Value == 82 && d.Strictzero == 0 && d.Zero == 1;
    ApplyTurn(d, 'L', 30);
    assert d.Value == 52 && d.Strictzero == 0 && d.Zero == 1;
    ApplyTurn(d, 'R', 48);
    assert d.Value == 0 && d.Strictzero == 1 && d.Zero == 2;
    ApplyTurn(d, 'L', 5);
    assert d.Value == 95 && d.Strictzero == 1 && d.Zero == 2;
    ApplyTurn(d, 'R', 60);
    assert d.Value == 55 && d.Strictzero == 1 && d.Zero == 3;
  }

  /** The last five lines of the example. */
  method ExampleSecondHalf(d: Dial)
    requires d.Valid() && d.Value == 55 && d.Strictzero == 1 && d.Zero == 3
    modifies d
    ensures d.Valid() && d.Value == 32 && d.Strictzero == 3 && d.Zero == 6
  {
    ApplyTurn(d, 'L', 55);
    assert d.Value == 0 && d.Strictzero == 2 && d.Zero == 4;
    ApplyTurn(d, 'L', 1);
    assert d.Value == 99 && d.Strictzero == 2 && d.Zero == 4;
    ApplyTurn(d, 'L', 99);
    assert d.Value == 0 && d.Strictzero == 3 && d.Zero == 5;
    ApplyTurn(d, 'R', 14);
    assert d.Value == 14 && d.Strictzero == 3 && d.Zero == 5;
    ApplyTurn(d, 'L', 82);
  }

  /** The ten-line example: the dial ends on 32, rests on 0 three times, passes it six times. */
  method Example() returns (value: int, strictzero: nat, zero: nat)
    ensures value == 32 && strictzero == 3 && zero == 6
  {
    var d := new Dial();
    ExampleFirstHalf(d);
    ExampleSecondHalf(d);
    value, strictzero, zero := d.Value, d.Strictzero, d.Zero;
  }
}
