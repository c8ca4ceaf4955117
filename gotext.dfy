/**
 * The few pieces of Go's `strconv` and `strings` packages that the puzzle
 * solvers call on their input lines: `strconv.Atoi` / `strconv.ParseInt`
 * (base 10), `strconv.FormatInt` (base 10, non-negative), `strings.Split`
 * with a one-character separator, `strings.SplitN(s, sep, 2)`,
 * `strings.Fields` and `strings.TrimSpace`.
 *
 * Integers are unbounded here, so the range errors of the Go parsers are not
 * modelled; whitespace is the ASCII set that Go's `unicode.IsSpace` accepts.
 */
module GoText {

  datatype Option<T> = None | Some(value: T)

  predicate IsDigit(c: char) { '0' <= c <= '9' }

  function DigitValue(c: char): (d: nat)
    requires IsDigit(c)
    ensures d < 10
  {
    (c as int) - ('0' as int)
  }

  function DigitChar(d: nat): (c: char)
    requires d < 10
    ensures IsDigit(c) && DigitValue(c) == d
  {
    (('0' as int) + d) as char
  }

  predicate AllDigits(s: string) { forall i :: 0 <= i < |s| ==> IsDigit(s[i]) }

  /** The value of a string of decimal digits, most significant first. */
  function DecimalValue(s: string): nat
    requires AllDigits(s)
  {
    if |s| == 0 then 0 else DecimalValue(s[..|s| - 1]) * 10 + DigitValue(s[|s| - 1])
  }

  /** The decimal form of a natural number, as `strconv.FormatInt(n, 10)` writes it. */
  function DecimalString(n: nat): (s: string)
    ensures |s| >= 1 && AllDigits(s)
    ensures |s| > 1 ==> s[0] != '0'
    ensures DecimalValue(s) == n
  {
    if n < 10 then [DigitChar(n)]
    else
      var p := DecimalString(n / 10);
      var s := p + [DigitChar(n % 10)];
      assert s[..|s| - 1] == p;
      s
  }

  /** 10 to the power n. */
  function Power10(n: nat): (r: nat)
    ensures r >= 1
  {
    if n == 0 then 1 else 10 * Power10(n - 1)
  }

  lemma {:induction false} Power10Add(a: nat, b: nat)
    ensures Power10(a + b) == Power10(a) * Power10(b)
  {
    if b > 0 {
      Power10Add(a, b - 1);
      calc {
        Power10(a + b);
        10 * Power10(a + b - 1);
        10 * (Power10(a) * Power10(b - 1));
        Power10(a) * (10 * Power10(b - 1));
      }
    }
  }

  lemma {:induction false} Power10Monotone(a: nat, b: nat)
    requires a <= b
    ensures Power10(a) <= Power10(b)
  {
    if a < b { Power10Monotone(a, b - 1); }
  }

  lemma AllDigitsAppend(a: string, b: string)
    requires AllDigits(a) && AllDigits(b)
    ensures AllDigits(a + b)
  {
    forall i | 0 <= i < |a + b| ensures IsDigit((a + b)[i]) {
      if i < |a| { assert (a + b)[i] == a[i]; } else { assert (a + b)[i] == b[i - |a|]; }
    }
  }

  lemma ShiftArith(va: int, p: int, vb: int, d: int)
    ensures (va * p + vb) * 10 + d == va * (p * 10) + (vb * 10 + d)
  {
  }

  /** The value of two digit strings written one after the other. */
  lemma {:induction false} DecimalValueAppend(a: string, b: string)
    requires AllDigits(a) && AllDigits(b)
    ensures AllDigits(a + b)
    ensures DecimalValue(a + b) == DecimalValue(a) * Power10(|b|) + DecimalValue(b)
  {
    AllDigitsAppend(a, b);
    if |b| == 0 {
      assert a + b == a;
    } else {
      var b' := b[..|b| - 1];
      var d := DigitValue(b[|b| - 1]);
      assert (a + b)[..|a + b| - 1] == a + b';
      assert (a + b)[|a + b| - 1] == b[|b| - 1];
      assert DecimalValue(a + b) == DecimalValue(a + b') * 10 + d;
      assert DecimalValue(b) == DecimalValue(b') * 10 + d;
      DecimalValueAppend(a, b');
      ShiftArith(DecimalValue(a), Power10(|b'|), DecimalValue(b'), d);
      assert Power10(|b|) == Power10(|b'|) * 10;
    }
  }

  /** A string of k digits stands for a number below 10^k, and for at least
      10^(k-1) when it does not start with '0'. */
  lemma {:induction false} DecimalValueBounds(s: string)
    requires AllDigits(s)
    ensures DecimalValue(s) < Power10(|s|)
    ensures |s| >= 1 && s[0] != '0' ==> Power10(|s| - 1) <= DecimalValue(s)
  {
    if |s| > 0 {
      var p := s[..|s| - 1];
      DecimalValueBounds(p);
      assert DecimalValue(s) <= (Power10(|p|) - 1) * 10 + 9;
      if s[0] != '0' {
        assert s == [s[0]] + s[1..];
        DecimalValueAppend([s[0]], s[1..]);
        assert [s[0]][..0] == "";
        assert DecimalValue([s[0]]) == DigitValue(s[0]) >= 1;
      }
    }
  }

  /** A digit string without a leading zero is the decimal form of its own value. */
  lemma {:induction false} CanonicalDecimal(s: string)
    requires |s| >= 1 && AllDigits(s)
    requires |s| > 1 ==> s[0] != '0'
    ensures DecimalString(DecimalValue(s)) == s
  {
    var n := DecimalValue(s);
    if |s| == 1 {
      assert s[..0] == "";
      assert DigitChar(DigitValue(s[0])) == s[0];
    } else {
      var p := s[..|s| - 1];
      assert p[0] == s[0];
      DecimalValueBounds(s);
      Power10Monotone(1, |s| - 1);
      assert n >= 10;
      CanonicalDecimal(p);
      assert n / 10 == DecimalValue(p) && n % 10 == DigitValue(s[|s| - 1]);
      assert DigitChar(DigitValue(s[|s| - 1])) == s[|s| - 1];
      assert s == p + [s[|s| - 1]];
    }
  }

  /** The number of decimal digits of n. */
  lemma DecimalStringLength(n: nat)
    ensures n == 0 ==> DecimalString(n) == "0"
    ensures n >= 1 ==> Power10(|DecimalString(n)| - 1) <= n < Power10(|DecimalString(n)|)
  {
    var s := DecimalString(n);
    DecimalValueBounds(s);
    if n >= 1 && |s| == 1 {
      assert s[0] != '0';
    }
  }

  /** Two numbers with the same decimal form are equal. */
  lemma DecimalStringInjective(m: nat, n: nat)
    requires DecimalString(m) == DecimalString(n)
    ensures m == n
  {
  }

  /** The syntax `strconv.Atoi` accepts: an optional sign, then one or more digits. */
  predicate IsInteger(s: string)
  {
    |s| > 0 &&
    var body := if s[0] == '+' || s[0] == '-' then s[1..] else s;
    |body| > 0 && AllDigits(body)
  }

  /** `strconv.Atoi(s)` and `strconv.ParseInt(s, 10, 64)`; `None` is the error return. */
  function Atoi(s: string): (r: Option<int>)
    ensures r.Some? <==> IsInteger(s)
    ensures r.Some? && s[0] == '-' ==> r.value == -(DecimalValue(s[1..]) as int)
    ensures r.Some? && s[0] == '+' ==> r.value == DecimalValue(s[1..])
    ensures r.Some? && s[0] != '-' && s[0] != '+' ==> r.value == DecimalValue(s)
  {
    if |s| == 0 then None
    else if s[0] == '+' || s[0] == '-' then
      if |s| > 1 && AllDigits(s[1..]) then
        Some(if s[0] == '-' then -(DecimalValue(s[1..]) as int) else DecimalValue(s[1..]))
      else None
    else if AllDigits(s) then Some(DecimalValue(s))
    else None
  }

  /** Parsing what `FormatInt` printed gives the number back. */
  lemma AtoiOfDecimalString(n: nat)
    ensures Atoi(DecimalString(n)) == Some(n)
  {
    var s := DecimalString(n);
    assert IsDigit(s[0]);
  }

  /** `strconv.Itoa(i)`: a '-' before the digits of a negative number. */
  function Itoa(i: int): string
  {
    if i < 0 then "-" + DecimalString(-i) else DecimalString(i)
  }

  /** `strconv.Atoi` reads back what `strconv.Itoa` wrote. */
  lemma AtoiOfItoa(i: int)
    ensures Atoi(Itoa(i)) == Some(i)
  {
    if i < 0 {
      var d := DecimalString(-i);
      var s := Itoa(i);
      assert s[1..] == d;
      assert IsDigit(d[0]);
    } else {
      AtoiOfDecimalString(i);
    }
  }

  /** `strconv.Itoa` never writes a comma. */
  lemma NoCommaInItoa(i: int)
    ensures ',' !in Itoa(i)
  {
    var d := DecimalString(if i < 0 then -i else i);
    forall k | 0 <= k < |d| ensures d[k] != ',' {
      assert IsDigit(d[k]);
    }
    assert ',' !in d;
    if i < 0 {
      assert Itoa(i) == "-" + d;
    }
  }

  /** A piece without '-' that parses is not negative. */
  lemma AtoiNoMinus(s: string)
    requires '-' !in s && Atoi(s).Some?
    ensures Atoi(s).value >= 0
  {
    assert s[0] != '-';
  }

  /** The pieces joined back together with the separator between them. */
  function Join(pieces: seq<string>, sep: char): string
  {
    if |pieces| == 0 then ""
    else if |pieces| == 1 then pieces[0]
    else pieces[0] + [sep] + Join(pieces[1..], sep)
  }

  /** `strings.Split(s, string(sep))`: the pieces between separators, at least one. */
  function Split(s: string, sep: char): (r: seq<string>)
    ensures |r| >= 1
    ensures forall i :: 0 <= i < |r| ==> sep !in r[i]
  {
    if |s| == 0 then [""]
    else
      var rest := Split(s[1..], sep);
      if s[0] == sep then [""] + rest
      else [[s[0]] + rest[0]] + rest[1..]
  }

  /** Joining the pieces `Split` returns gives the input back. */
  lemma {:induction false} JoinSplit(s: string, sep: char)
    ensures Join(Split(s, sep), sep) == s
  {
    if |s| > 0 {
      JoinSplit(s[1..], sep);
      var rest := Split(s[1..], sep);
      if s[0] != sep {
        var r := Split(s, sep);
        assert r[1..] == rest[1..];
        if |rest| > 1 {
          assert Join(rest, sep) == rest[0] + [sep] + Join(rest[1..], sep);
        }
        assert s == [s[0]] + s[1..];
      } else {
        assert s == [sep] + s[1..];
      }
    }
  }

  /** Splitting pieces that hold no separator, once joined, gives the pieces back. */
  lemma {:induction false} SplitJoin(pieces: seq<string>, sep: char)
    requires |pieces| >= 1
    requires forall i :: 0 <= i < |pieces| ==> sep !in pieces[i]
    ensures Split(Join(pieces, sep), sep) == pieces
  {
    if |pieces| == 1 {
      SplitNoSep(pieces[0], sep);
    } else {
      SplitJoin(pieces[1..], sep);
      SplitPrefix(pieces[0], sep, Join(pieces[1..], sep));
      assert [pieces[0]] + pieces[1..] == pieces;
    }
  }

  lemma {:induction false} SplitNoSep(s: string, sep: char)
    requires sep !in s
    ensures Split(s, sep) == [s]
  {
    if |s| > 0 {
      SplitNoSep(s[1..], sep);
      assert [s[0]] + s[1..] == s;
    }
  }

  lemma {:induction false} SplitPrefix(w: string, sep: char, t: string)
    requires sep !in w
    ensures Split(w + [sep] + t, sep) == [w] + Split(t, sep)
  {
    if |w| == 0 {
      assert w + [sep] + t == [sep] + t;
      assert ([sep] + t)[1..] == t;
    } else {
      var s := w + [sep] + t;
      assert s[1..] == w[1..] + [sep] + t;
      SplitPrefix(w[1..], sep, t);
      assert [w[0]] + w[1..] == w;
    }
  }

  /** `sep` occurs in `s` starting at index `j`. */
  predicate MatchAt(s: string, sep: string, j: nat)
  {
    j + |sep| <= |s| && s[j..j + |sep|] == sep
  }

  lemma MatchAtTail(s: string, sep: string, j: nat)
    requires |s| > 0 && j >= 1
    ensures MatchAt(s, sep, j) <==> MatchAt(s[1..], sep, j - 1)
  {
    if j + |sep| <= |s| {
      assert s[j..j + |sep|] == s[1..][j - 1..j - 1 + |sep|];
    }
  }

  /** The first index at which `sep` occurs in `s`, if any. */
  function IndexOf(s: string, sep: string): (r: Option<nat>)
    requires |sep| > 0
    ensures r.Some? ==> MatchAt(s, sep, r.value)
    ensures r.Some? ==> forall j: nat :: j < r.value ==> !MatchAt(s, sep, j)
    ensures r.None? ==> forall j: nat :: !MatchAt(s, sep, j)
    decreases |s|
  {
    if |s| < |sep| then None
    else if s[..|sep|] == sep then Some(0)
    else
      match IndexOf(s[1..], sep)
      case None =>
        forall j: nat ensures !MatchAt(s, sep, j) {
          if j >= 1 { MatchAtTail(s, sep, j); }
        }
        None
      case Some(k) =>
        MatchAtTail(s, sep, k + 1);
        forall j: nat | j < k + 1 ensures !MatchAt(s, sep, j) {
          if j >= 1 { MatchAtTail(s, sep, j); }
        }
        Some(k + 1)
  }

  /** `strings.SplitN(s, sep, 2)`: the text before and after the first `sep`, or `[s]`. */
  function SplitN2(s: string, sep: string): (r: seq<string>)
    requires |sep| > 0
    ensures 1 <= |r| <= 2
    ensures |r| == 1 <==> IndexOf(s, sep).None?
    ensures |r| == 1 ==> r[0] == s
    ensures |r| == 2 ==> r[0] + sep + r[1] == s
  {
    match IndexOf(s, sep)
    case None => [s]
    case Some(i) =>
      assert s[..i] + sep + s[i + |sep|..] == s by {
        assert s == s[..i] + s[i..i + |sep|] + s[i + |sep|..];
      }
      [s[..i], s[i + |sep|..]]
  }

  /** The ASCII characters Go's `unicode.IsSpace` accepts. */
  predicate IsSpace(c: char)
  {
    c == ' ' || c == '\t' || c == '\n' || c == '\r' || c == '\U{000B}' || c == '\U{000C}'
  }

  predicate NoSpace(s: string) { forall i :: 0 <= i < |s| ==> !IsSpace(s[i]) }

  /** `strings.Fields(s)`: the maximal runs of non-space characters, in order. */
  function Fields(s: string): (r: seq<string>)
    ensures forall i :: 0 <= i < |r| ==> |r[i]| > 0 && NoSpace(r[i])
    ensures |s| > 1 && !IsSpace(s[0]) && !IsSpace(s[1]) ==> |r| > 0 && r[0][0] == s[0]
    ensures |s| > 0 && !IsSpace(s[0]) ==> |r| > 0
    ensures NoSpace(s) && |s| > 0 ==> r == [s]
  {
    if |s| == 0 then []
    else
      var rest := Fields(s[1..]);
      if IsSpace(s[0]) then rest
      else if |s| > 1 && !IsSpace(s[1]) then
        assert NoSpace(s) ==> NoSpace(s[1..]);
        assert NoSpace(s) ==> [s[0]] + s[1..] == s;
        [[s[0]] + rest[0]] + rest[1..]
      else
        assert NoSpace(s) ==> s == [s[0]];
        [[s[0]]] + rest
  }

  predicate AllSpace(s: string) { forall i :: 0 <= i < |s| ==> IsSpace(s[i]) }

  /** The string made of `gaps[0]`, `pieces[0]`, `gaps[1]`, ..., `pieces[n-1]`, `gaps[n]`. */
  function Interleave(gaps: seq<string>, pieces: seq<string>): (r: string)
    requires |gaps| == |pieces| + 1
    decreases |pieces|
  {
    if |pieces| == 0 then gaps[0]
    else gaps[0] + pieces[0] + Interleave(gaps[1..], pieces[1..])
  }

  /** Fields between runs of spaces: `pieces` are non-empty and space-free, `gaps` are
      made of spaces, and each gap between two pieces holds at least one space. */
  ghost predicate SpaceRuns(gaps: seq<string>, pieces: seq<string>)
  {
    |gaps| == |pieces| + 1 &&
    (forall t :: 0 <= t < |pieces| ==> |pieces[t]| > 0 && NoSpace(pieces[t])) &&
    (forall t :: 0 <= t < |gaps| ==> AllSpace(gaps[t])) &&
    (forall t :: 0 < t < |pieces| ==> |gaps[t]| > 0)
  }

  /** The three ways `Fields` takes its first character. */
  lemma FieldsSpaceHead(s: string)
    requires |s| > 0 && IsSpace(s[0])
    ensures Fields(s) == Fields(s[1..])
  {
  }

  lemma FieldsJoinHead(s: string)
    requires |s| > 1 && !IsSpace(s[0]) && !IsSpace(s[1])
    ensures |Fields(s[1..])| > 0 && Fields(s) == [[s[0]] + Fields(s[1..])[0]] + Fields(s[1..])[1..]
  {
  }

  lemma FieldsSingleHead(s: string)
    requires |s| > 0 && !IsSpace(s[0]) && (|s| == 1 || IsSpace(s[1]))
    ensures Fields(s) == [[s[0]]] + Fields(s[1..])
  {
  }

  /** `Fields` cuts the string into its non-space runs: the string is those runs, in
      order, with runs of spaces around and between them. */
  lemma {:induction false} FieldsRuns(s: string) returns (gaps: seq<string>)
    ensures SpaceRuns(gaps, Fields(s)) && s == Interleave(gaps, Fields(s))
    decreases |s|
  {
    if |s| == 0 {
      gaps := [""];
    } else {
      var t := s[1..];
      var g := FieldsRuns(t);
      var rest := Fields(t);
      assert s == [s[0]] + t;
      if IsSpace(s[0]) {
        FieldsSpaceHead(s);
        gaps := RunsAfterSpace(s[0], t, g, rest);
      } else if |s| > 1 && !IsSpace(s[1]) {
        FieldsJoinHead(s);
        gaps := g;
        RunsAfterJoin(s[0], t, g, rest);
      } else {
        FieldsSingleHead(s);
        gaps := [""] + g;
        RunsAfterSingle(s[0], t, g, rest);
      }
    }
  }

  /** A space in front widens the first gap. */
  lemma RunsAfterSpace(c: char, t: string, g: seq<string>, rest: seq<string>) returns (gaps: seq<string>)
    requires IsSpace(c) && SpaceRuns(g, rest) && t == Interleave(g, rest)
    ensures SpaceRuns(gaps, rest) && [c] + t == Interleave(gaps, rest)
  {
    gaps := [[c] + g[0]] + g[1..];
    assert gaps[1..] == g[1..];
    if |rest| == 0 {
      assert Interleave(gaps, rest) == [c] + g[0];
    } else {
      assert Interleave(gaps, rest) == [c] + g[0] + rest[0] + Interleave(g[1..], rest[1..]);
    }
  }

  /** A non-space in front of a non-space joins the first field. */
  lemma RunsAfterJoin(c: char, t: string, g: seq<string>, rest: seq<string>)
    requires !IsSpace(c) && |t| > 0 && !IsSpace(t[0]) && |rest| > 0
    requires SpaceRuns(g, rest) && t == Interleave(g, rest)
    ensures SpaceRuns(g, [[c] + rest[0]] + rest[1..])
    ensures [c] + t == Interleave(g, [[c] + rest[0]] + rest[1..])
  {
    var r := [[c] + rest[0]] + rest[1..];
    InterleaveStart(g, rest);
    assert r[0] == [c] + rest[0] && r[1..] == rest[1..];
    assert Interleave(g, r) == [c] + rest[0] + Interleave(g[1..], rest[1..]);
  }

  /** A non-space before a space, or at the end, is a field of its own. */
  lemma RunsAfterSingle(c: char, t: string, g: seq<string>, rest: seq<string>)
    requires !IsSpace(c) && (|t| == 0 || IsSpace(t[0]))
    requires SpaceRuns(g, rest) && t == Interleave(g, rest)
    ensures SpaceRuns([""] + g, [[c]] + rest)
    ensures [c] + t == Interleave([""] + g, [[c]] + rest)
  {
    var gaps, r := [""] + g, [[c]] + rest;
    InterleaveStart(g, rest);
    assert r[1..] == rest && gaps[1..] == g;
    assert Interleave(gaps, r) == [c] + Interleave(g, rest);
  }

  /** The first character of an interleaving comes from the first gap, or from the
      first piece when that gap is empty. */
  lemma InterleaveStart(g: seq<string>, rest: seq<string>)
    requires SpaceRuns(g, rest)
    ensures |g[0]| > 0 ==> |Interleave(g, rest)| > 0 && IsSpace(Interleave(g, rest)[0])
    ensures |g[0]| == 0 && |rest| > 0 ==> |Interleave(g, rest)| > 0 && !IsSpace(Interleave(g, rest)[0])
  {
    if |rest| > 0 {
      assert Interleave(g, rest) == g[0] + rest[0] + Interleave(g[1..], rest[1..]);
    }
  }

  /** Leading spaces do not change the fields. */
  lemma {:induction false} FieldsAfterSpaces(sp: string, t: string)
    requires AllSpace(sp)
    ensures Fields(sp + t) == Fields(t)
    decreases |sp|
  {
    if |sp| > 0 {
      assert (sp + t)[1..] == sp[1..] + t;
      FieldsSpaceHead(sp + t);
      FieldsAfterSpaces(sp[1..], t);
    } else {
      assert sp + t == t;
    }
  }

  /** A space-free run followed by a space, or by nothing, is the first field. */
  lemma {:induction false} FieldsAfterRun(p: string, t: string)
    requires |p| > 0 && NoSpace(p) && (|t| == 0 || IsSpace(t[0]))
    ensures Fields(p + t) == [p] + Fields(t)
    decreases |p|
  {
    var s := p + t;
    assert s[1..] == p[1..] + t;
    if |p| == 1 {
      assert s[1..] == t;
      assert [s[0]] == p;
    } else {
      FieldsAfterRun(p[1..], t);
      assert [s[0]] + p[1..] == p;
    }
  }

  /** Conversely, any such cutting of a string is its `Fields`. */
  lemma {:induction false} FieldsOfRuns(gaps: seq<string>, pieces: seq<string>)
    requires SpaceRuns(gaps, pieces)
    ensures Fields(Interleave(gaps, pieces)) == pieces
    decreases |pieces|
  {
    if |pieces| == 0 {
      FieldsAfterSpaces(gaps[0], "");
      assert gaps[0] + "" == gaps[0];
    } else {
      var t := Interleave(gaps[1..], pieces[1..]);
      assert SpaceRuns(gaps[1..], pieces[1..]) by {
        forall k | 0 <= k < |gaps[1..]| ensures AllSpace(gaps[1..][k]) {
          assert gaps[1..][k] == gaps[k + 1];
        }
      }
      FieldsOfRuns(gaps[1..], pieces[1..]);
      if |pieces| == 1 {
        assert t == gaps[1];
      } else {
        assert t == gaps[1] + pieces[1] + Interleave(gaps[2..], pieces[2..]) by {
          assert gaps[1..][1..] == gaps[2..] && pieces[1..][1..] == pieces[2..];
        }
      }
      assert |t| == 0 || IsSpace(t[0]) by {
        if |t| > 0 {
          if |pieces| == 1 {
            assert t[0] == gaps[1][0];
          } else {
            assert t[0] == gaps[1][0];
          }
        }
      }
      FieldsAfterRun(pieces[0], t);
      FieldsAfterSpaces(gaps[0], pieces[0] + t);
      assert Interleave(gaps, pieces) == gaps[0] + (pieces[0] + t);
      assert [pieces[0]] + pieces[1..] == pieces;
    }
  }

  /** `strings.TrimSpace(s)`: `s` without its leading and trailing spaces. */
  function TrimSpace(s: string): (r: string)
    ensures |r| == 0 || (!IsSpace(r[0]) && !IsSpace(r[|r| - 1]))
    ensures |r| <= |s|
    ensures NoSpace(s) ==> r == s
  {
    if |s| == 0 then s
    else if IsSpace(s[0]) then TrimSpace(s[1..])
    else if IsSpace(s[|s| - 1]) then TrimSpace(s[..|s| - 1])
    else s
  }

  /** What `TrimSpace` keeps is one stretch of the string, and what it drops on
      either side is all spaces. */
  lemma {:induction false} TrimSpaceSlice(s: string) returns (i: nat, j: nat)
    ensures i <= j <= |s| && TrimSpace(s) == s[i..j]
    ensures AllSpace(s[..i]) && AllSpace(s[j..])
  {
    if |s| == 0 {
      i, j := 0, 0;
    } else if IsSpace(s[0]) {
      i, j := TrimSpaceSlice(s[1..]);
      TrimmedFront(s, i, j);
      i, j := i + 1, j + 1;
    } else if IsSpace(s[|s| - 1]) {
      i, j := TrimSpaceSlice(s[..|s| - 1]);
      TrimmedBack(s, i, j);
    } else {
      i, j := 0, |s|;
    }
  }

  /** One more leading space in front of a trimmed stretch. */
  lemma TrimmedFront(s: string, i: nat, j: nat)
    requires |s| > 0 && IsSpace(s[0]) && i <= j <= |s| - 1
    requires AllSpace(s[1..][..i]) && AllSpace(s[1..][j..])
    ensures s[1..][i..j] == s[i + 1..j + 1]
    ensures AllSpace(s[..i + 1]) && AllSpace(s[j + 1..])
  {
    assert s[..i + 1] == [s[0]] + s[1..][..i];
    assert s[j + 1..] == s[1..][j..];
  }

  /** One more trailing space behind a trimmed stretch. */
  lemma TrimmedBack(s: string, i: nat, j: nat)
    requires |s| > 0 && IsSpace(s[|s| - 1]) && i <= j <= |s| - 1
    requires AllSpace(s[..|s| - 1][..i]) && AllSpace(s[..|s| - 1][j..])
    ensures s[..|s| - 1][i..j] == s[i..j]
    ensures AllSpace(s[..i]) && AllSpace(s[j..])
  {
    assert s[..i] == s[..|s| - 1][..i];
    assert s[j..] == s[..|s| - 1][j..] + [s[|s| - 1]];
  }

}
