/** Day 10, part 1: the fewest button presses that turn a machine's lights from all
    off to its diagram, each press toggling the lights of one button; and the parsing
    of the button lists. */
module Day10 {
  import opened GoText
  import opened Bits
  import opened Day10Masks
  import opened Presses

  /** The integers among `parts`, in order; the parts that do not parse are skipped. */
  function KeptInts(parts: seq<string>): (r: seq<int>)
    ensures |r| <= |parts|
    ensures (forall t :: 0 <= t < |parts| ==> Atoi(parts[t]).Some?) ==>
      |r| == |parts| && forall t :: 0 <= t < |parts| ==> r[t] == Atoi(parts[t]).value
  {
    if |parts| == 0 then []
    else
      var init := KeptInts(parts[..|parts| - 1]);
      match Atoi(parts[|parts| - 1])
      case Some(v) => init + [v]
      case None => init
  }

  /** One more part keeps its integer, if it has one. */
  lemma KeptIntsStep(parts: seq<string>, t: nat)
    requires t < |parts|
    ensures Atoi(parts[t]).Some? ==> KeptInts(parts[..t + 1]) == KeptInts(parts[..t]) + [Atoi(parts[t]).value]
    ensures Atoi(parts[t]).None? ==> KeptInts(parts[..t + 1]) == KeptInts(parts[..t])
  {
    assert parts[..t + 1][..t] == parts[..t];
  }

  /** What `parseInts` returns: nothing for the empty string, otherwise the integers
      among the comma-separated parts. */
  function ParsedInts(s: string): seq<int>
  {
    if s == "" then [] else KeptInts(Split(s, ','))
  }

  /** `parseInts`. */
  method ParseInts(s: string) returns (result: seq<int>)
    ensures result == ParsedInts(s)
  {
    if s == "" {
      return [];
    }
    result := [];
    var parts := Split(s, ',');
    for t := 0 to |parts|
      invariant result == KeptInts(parts[..t])
    {
      KeptIntsStep(parts, t);
      var v := Atoi(parts[t]);
      if v.Some? {
        result := result + [v.value];
      }
    }
    assert parts[..|parts|] == parts;
  }

  /** The numbers written out with `strconv.Itoa`. */
  function Itoas(xs: seq<int>): (r: seq<string>)
    ensures |r| == |xs|
  {
    seq(|xs|, t requires 0 <= t < |xs| => Itoa(xs[t]))
  }

  /** Parsing a comma-separated list of numbers gives the numbers back. */
  lemma ParseIntsOfJoin(xs: seq<int>)
    ensures ParsedInts(Join(Itoas(xs), ',')) == xs
  {
    if |xs| > 0 {
      var pieces := Itoas(xs);
      forall t | 0 <= t < |pieces| ensures ',' !in pieces[t] && Atoi(pieces[t]) == Some(xs[t]) {
        NoCommaInItoa(xs[t]);
        AtoiOfItoa(xs[t]);
      }
      SplitJoin(pieces, ',');
      ParsedIntsSplit(Join(pieces, ','));
    }
  }

  /** The guard for the empty string returns what splitting it would: its one part,
      "", is not a number. */
  lemma ParsedIntsSplit(s: string)
    ensures ParsedInts(s) == KeptInts(Split(s, ','))
  {
    if s == "" {
      assert Split(s, ',') == [""];
      assert Atoi("").None?;
    }
  }

  /** `parseButtons`: the text of each match's first group, parsed as a list. */
  method ParseButtons(matches: seq<seq<string>>) returns (buttons: seq<seq<int>>)
    requires forall i :: 0 <= i < |matches| ==> |matches[i]| >= 2
    ensures |buttons| == |matches|
    ensures forall i :: 0 <= i < |matches| ==> buttons[i] == ParsedInts(matches[i][1])
  {
    buttons := [];
    for i := 0 to |matches|
      invariant |buttons| == i
      invariant forall h :: 0 <= h < i ==> buttons[h] == ParsedInts(matches[h][1])
    {
      var b := ParseInts(matches[i][1]);
      buttons := buttons + [b];
    }
  }

  /** The masks of the buttons over `n` lights. */
  function ButtonMasks(buttons: seq<seq<int>>, n: nat): (r: seq<nat>)
    ensures |r| == |buttons|
  {
    seq(|buttons|, i requires 0 <= i < |buttons| => ButtonMask(buttons[i], n))
  }

  /** How many of the presses `p` are of a button that lists light `k`. */
  ghost function Toggles(buttons: seq<seq<int>>, p: seq<nat>, k: nat): nat
    requires forall t :: 0 <= t < |p| ==> p[t] < |buttons|
  {
    if |p| == 0 then 0
    else Toggles(buttons, p[..|p| - 1], k) + (if k in buttons[p[|p| - 1]] then 1 else 0)
  }

  /** After the presses `p`, light `k` is on exactly when it is one of the `n` lights
      and the presses toggled it an odd number of times. */
  lemma {:induction false} PressXorBit(buttons: seq<seq<int>>, n: nat, p: seq<nat>, k: nat)
    requires ValidPresses(ButtonMasks(buttons, n), p)
    ensures Bit(PressXor(ButtonMasks(buttons, n), p), k) <==> k < n && Toggles(buttons, p, k) % 2 == 1
  {
    var masks := ButtonMasks(buttons, n);
    if |p| == 0 {
      ZeroBit(k);
    } else {
      var init := p[..|p| - 1];
      assert ValidPresses(masks, init);
      PressXorBit(buttons, n, init, k);
      XorBit(PressXor(masks, init), masks[p[|p| - 1]], k);
      ButtonMaskBit(buttons[p[|p| - 1]], n, k);
    }
  }

  /** The presses from `cur`, one button at a time (the inner loop of `solveXOR`): a
      press reaching the target ends the search, and each other press reaching a new
      value visits it and queues it one press further. */
  method ExpandState(masks: seq<nat>, target: nat, ghost n: nat, cur: State,
                     queue: seq<State>, visited: set<nat>, ghost level: nat)
    returns (found: bool, queue': seq<State>, visited': set<nat>)
    requires Scanning(masks, target, n, visited, queue, level, cur, 0)
    ensures found ==> Minimal(masks, target, level + 1)
    ensures !found ==> Explored(masks, target, n, visited', queue', level)
    ensures visited <= visited' && |queue| <= |queue'|
    ensures |queue'| - |queue| == |visited'| - |visited|
  {
    queue', visited' := queue, visited;
    for d := 0 to |masks|
      invariant Scanning(masks, target, n, visited', queue', level, cur, d)
      invariant visited <= visited' && |queue| <= |queue'|
      invariant |queue'| - |queue| == |visited'| - |visited|
    {
      var next := Xor(cur.val, masks[d]);
      if next == target {
        FoundStep(masks, target, n, visited', queue', level, cur, d);
        return true, queue', visited';
      }
      if next !in visited' {
        AddStep(masks, target, n, visited', queue', level, cur, d);
        visited' := visited' + {next};
        queue' := queue' + [State(next, cur.presses + 1)];
      } else {
        SkipStep(masks, target, n, visited', queue', level, cur, d);
      }
    }
    ScanDone(masks, target, n, visited', queue', level, cur);
    found := false;
  }

  /** `solveXOR`: a breadth-first search from all lights off over the values the
      presses reach. The result is the least number of presses that light exactly the
      diagram, 0 when the diagram is dark, and 0 when no presses light it. `pops`
      counts the states taken from the queue, each a distinct value below
      `1 << len(pattern)`. */
  method SolveXOR(pattern: string, buttons: seq<seq<int>>) returns (presses: nat, ghost pops: nat)
    requires forall i, t :: 0 <= i < |buttons| && 0 <= t < |buttons[i]| ==> buttons[i][t] >= 0
    ensures '#' !in pattern ==> presses == 0
    ensures presses > 0 ==> Minimal(ButtonMasks(buttons, |pattern|), PatternMask(pattern), presses)
    ensures presses == 0 && '#' in pattern ==>
      forall k: nat :: !ReachIn(ButtonMasks(buttons, |pattern|), PatternMask(pattern), k)
    ensures pops <= Pow2(|pattern|)
  {
    var target := PatternToMask(pattern);
    PatternMaskZero(pattern);
    pops := 0;
    if target == 0 {
      return 0, pops;
    }
    var n := |pattern|;
    var masks := ButtonsToMasks(buttons, n);
    assert masks == ButtonMasks(buttons, n);
    Start(masks, target, n);
    var visited: set<nat> := {0};
    var queue := [State(0, 0)];
    ghost var level: nat := 0;
    while |queue| > 0
      invariant Explored(masks, target, n, visited, queue, level)
      invariant pops + |queue| == |visited| <= Pow2(n)
      decreases Pow2(n) - |visited|, |queue|
    {
      if queue[0].presses == level + 1 {
        LevelUp(masks, target, n, visited, queue, level);
        level := level + 1;
      }
      var cur := queue[0];
      PopStep(masks, target, n, visited, queue, level);
      queue := queue[1..];
      pops := pops + 1;
      var found;
      found, queue, visited := ExpandState(masks, target, n, cur, queue, visited, level);
      if found {
        return cur.presses + 1, pops;
      }
      CardBelow(visited, Pow2(n));
    }
    Unreachable(masks, target, n, visited, level);
    presses := 0;
  }
}
