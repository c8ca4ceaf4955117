/** Day 11: counting the routes through the reactor's devices, from "you" to "out"
    and from "svr" to "out" through both "dac" and "fft", with memoised recursion. */
module Day11 {
  import opened GoText
  import opened DevicePaths

  /** Every memo entry holds the count of its device. */
  ghost predicate MemoOk(graph: Graph, rank: map<string, nat>, memo: map<string, int>)
  {
    Ranked(graph, rank) &&
    forall k :: k in memo ==> k in rank && memo[k] == Count(graph, rank, k)
  }

  /** A device together with the checkpoint flags set on the way to it. */
  datatype MemoKey = MemoKey(device: string, dac: bool, fft: bool)

  /** Every memo entry holds the checkpoint count of its device and flags. */
  ghost predicate CheckMemoOk(graph: Graph, rank: map<string, nat>, memo: map<MemoKey, int>)
  {
    Ranked(graph, rank) &&
    forall k :: k in memo ==> k.device in rank && memo[k] == CheckCount(graph, rank, k.device, k.dac, k.fft)
  }

  /** The memo key `countPathsWithCheckpoints` writes: the device, then ":d" when the
      dac flag is set and ":f" when the fft flag is. */
  function MemoString(device: string, dac: bool, fft: bool): string
  {
    device + (if dac then ":d" else "") + (if fft then ":f" else "")
  }

  /** No two devices of `devices` with their flags share a memo key. */
  ghost predicate NoKeyClash(devices: set<string>)
  {
    forall u, v, d1, f1, d2, f2 ::
      u in devices && v in devices && MemoString(u, d1, f1) == MemoString(v, d2, f2)
      ==> u == v && d1 == d2 && f1 == f2
  }

  /** Every memo entry holds the checkpoint count of each device and flags whose key it is. */
  ghost predicate StringMemoOk(graph: Graph, rank: map<string, nat>, memo: map<string, int>)
  {
    Ranked(graph, rank) &&
    forall u, d, f :: u in rank && MemoString(u, d, f) in memo ==>
      memo[MemoString(u, d, f)] == CheckCount(graph, rank, u, d, f)
  }

  /** The line gives outputs to a device: it splits at its first ": ". */
  predicate Defines(line: string, device: string)
  {
    line != "" && |SplitN2(line, ": ")| == 2 && SplitN2(line, ": ")[0] == device
  }

  /** The outputs a line gives its device. */
  function Targets(line: string): seq<string>
    requires line != "" && |SplitN2(line, ": ")| == 2
  {
    Fields(SplitN2(line, ": ")[1])
  }

  /** The graph after the lines, in order: each line with ": " sets its device's outputs. */
  function ReadGraph(graph: Graph, lines: seq<string>): Graph
  {
    if |lines| == 0 then graph
    else
      var g := ReadGraph(graph, lines[..|lines| - 1]);
      var line := lines[|lines| - 1];
      if line != "" && |SplitN2(line, ": ")| == 2 then g[SplitN2(line, ": ")[0] := Targets(line)] else g
  }

  /** Some line gives outputs to the device. */
  predicate DefinedIn(lines: seq<string>, device: string)
  {
    |lines| > 0 && (DefinedIn(lines[..|lines| - 1], device) || Defines(lines[|lines| - 1], device))
  }

  /** A device has outputs after the lines when it had them before or some line gives
      it outputs. */
  lemma {:induction false} ReadGraphKeys(graph: Graph, lines: seq<string>, device: string)
    ensures device in ReadGraph(graph, lines) <==> device in graph || DefinedIn(lines, device)
  {
    if |lines| > 0 {
      ReadGraphKeys(graph, lines[..|lines| - 1], device);
    }
  }

  /** The last line for a device decides its outputs: a later line overwrites an
      earlier one. */
  lemma {:induction false} ReadGraphLast(graph: Graph, lines: seq<string>, device: string, j: nat)
    requires j < |lines| && Defines(lines[j], device)
    requires forall h :: j < h < |lines| ==> !Defines(lines[h], device)
    ensures device in ReadGraph(graph, lines) && ReadGraph(graph, lines)[device] == Targets(lines[j])
  {
    if j < |lines| - 1 {
      var init := lines[..|lines| - 1];
      forall h | j < h < |init| ensures !Defines(init[h], device) {
        assert init[h] == lines[h];
      }
      ReadGraphLast(graph, init, device, j);
      assert init[j] == lines[j];
    }
  }

  /** A device no line gives outputs to keeps what it had. */
  lemma {:induction false} ReadGraphUntouched(graph: Graph, lines: seq<string>, device: string)
    requires device in graph
    requires forall h :: 0 <= h < |lines| ==> !Defines(lines[h], device)
    ensures device in ReadGraph(graph, lines) && ReadGraph(graph, lines)[device] == graph[device]
  {
    if |lines| > 0 {
      var init := lines[..|lines| - 1];
      forall h | 0 <= h < |init| ensures !Defines(init[h], device) {
        assert init[h] == lines[h];
      }
      ReadGraphUntouched(graph, init, device);
    }
  }

  class Reactor {
    var graph: Graph
    var ResultPart1: int
    var ResultPart2: int

    /** `NewReactor`. */
    constructor ()
      ensures graph == map[] && ResultPart1 == 0 && ResultPart2 == 0
    {
      graph := map[];
      ResultPart1 := 0;
      ResultPart2 := 0;
    }

    /** `countPaths`: 1 at "out", a cached count when there is one, otherwise the sum
        over the outputs, which is then cached. */
    method CountPaths(current: string, memo: map<string, int>, ghost rank: map<string, nat>)
      returns (count: int, memo': map<string, int>)
      requires current in rank && MemoOk(graph, rank, memo)
      ensures count == Count(graph, rank, current)
      ensures MemoOk(graph, rank, memo') && memo.Keys <= memo'.Keys
      ensures current != "out" ==> current in memo'
      decreases rank[current], 1
    {
      if current == "out" {
        return 1, memo;
      }
      if current in memo {
        return memo[current], memo;
      }
      count, memo' := SumOutputs(current, memo, rank);
      memo' := memo'[current := count];
    }

    /** The loop of `countPaths` over the outputs of `current`. */
    method SumOutputs(current: string, memo: map<string, int>, ghost rank: map<string, nat>)
      returns (count: int, memo': map<string, int>)
      requires current in rank && current != "out" && MemoOk(graph, rank, memo)
      ensures count == SumFrom(graph, rank, current, 0)
      ensures MemoOk(graph, rank, memo') && memo.Keys <= memo'.Keys
      decreases rank[current], 0
    {
      count, memo' := 0, memo;
      var targets := if current in graph then graph[current] else [];
      for t := 0 to |targets|
        invariant MemoOk(graph, rank, memo') && memo.Keys <= memo'.Keys
        invariant count + SumFrom(graph, rank, current, t) == SumFrom(graph, rank, current, 0)
      {
        assert targets[t] in rank && rank[targets[t]] < rank[current];
        var c;
        c, memo' := CountPaths(targets[t], memo', rank);
        count := count + c;
      }
    }

    /** `countPathsWithCheckpoints`, with the memo keyed by the device and both flags. */
    method CountPathsWithCheckpoints(current: string, visitedDac: bool, visitedFft: bool,
                                     memo: map<MemoKey, int>, ghost rank: map<string, nat>)
      returns (count: int, memo': map<MemoKey, int>)
      requires current in rank && CheckMemoOk(graph, rank, memo)
      ensures count == CheckCount(graph, rank, current, visitedDac, visitedFft)
      ensures CheckMemoOk(graph, rank, memo') && memo.Keys <= memo'.Keys
      decreases rank[current], 1
    {
      var dac, fft := visitedDac, visitedFft;
      if current == "dac" {
        dac := true;
      }
      if current == "fft" {
        fft := true;
      }
      if current == "out" {
        return if dac && fft then 1 else 0, memo;
      }
      var key := MemoKey(current, dac, fft);
      assert CheckCount(graph, rank, current, visitedDac, visitedFft) == CheckSumFrom(graph, rank, current, dac, fft, 0);
      assert CheckCount(graph, rank, current, dac, fft) == CheckSumFrom(graph, rank, current, dac, fft, 0);
      if key in memo {
        return memo[key], memo;
      }
      count, memo' := CheckSumOutputs(current, dac, fft, memo, rank);
      memo' := memo'[key := count];
    }

    /** The loop of `countPathsWithCheckpoints` over the outputs of `current`. */
    method CheckSumOutputs(current: string, dac: bool, fft: bool,
                           memo: map<MemoKey, int>, ghost rank: map<string, nat>)
      returns (count: int, memo': map<MemoKey, int>)
      requires current in rank && current != "out" && CheckMemoOk(graph, rank, memo)
      ensures count == CheckSumFrom(graph, rank, current, dac, fft, 0)
      ensures CheckMemoOk(graph, rank, memo') && memo.Keys <= memo'.Keys
      decreases rank[current], 0
    {
      count, memo' := 0, memo;
      var targets := if current in graph then graph[current] else [];
      for t := 0 to |targets|
        invariant CheckMemoOk(graph, rank, memo') && memo.Keys <= memo'.Keys
        invariant count + CheckSumFrom(graph, rank, current, dac, fft, t) ==
          CheckSumFrom(graph, rank, current, dac, fft, 0)
      {
        assert targets[t] in rank && rank[targets[t]] < rank[current];
        var c;
        c, memo' := CountPathsWithCheckpoints(targets[t], dac, fft, memo', rank);
        count := count + c;
      }
    }

    /** `countPathsWithCheckpoints` as written, with the memo keyed by `MemoString`. It
        returns the checkpoint count when no two devices and flags share a key; it
        always returns a cached entry for its key, and caches what it returns. */
    method CountPathsWithCheckpointsAsWritten(current: string, visitedDac: bool, visitedFft: bool,
                                              memo: map<string, int>, ghost rank: map<string, nat>)
      returns (count: int, memo': map<string, int>)
      requires current in rank && Ranked(graph, rank)
      ensures NoKeyClash(rank.Keys) && StringMemoOk(graph, rank, memo) ==>
        count == CheckCount(graph, rank, current, visitedDac, visitedFft) &&
        StringMemoOk(graph, rank, memo')
      ensures current != "out" ==>
        var key := MemoString(current, visitedDac || current == "dac", visitedFft || current == "fft");
        key in memo' && memo'[key] == count && (key in memo ==> count == memo[key])
      decreases rank[current], 1
    {
      var dac, fft := visitedDac, visitedFft;
      if current == "dac" {
        dac := true;
      }
      if current == "fft" {
        fft := true;
      }
      if current == "out" {
        return if dac && fft then 1 else 0, memo;
      }
      var key := MemoString(current, dac, fft);
      if key in memo {
        return memo[key], memo;
      }
      ghost var sound := NoKeyClash(rank.Keys) && StringMemoOk(graph, rank, memo);
      count, memo' := AsWrittenSumOutputs(current, dac, fft, memo, rank);
      if sound {
        assert CheckCount(graph, rank, current, dac, fft) == count;
        StoreSound(graph, rank, memo', current, dac, fft, count);
      }
      memo' := memo'[key := count];
    }

    /** The loop of `countPathsWithCheckpoints` as written. */
    method AsWrittenSumOutputs(current: string, dac: bool, fft: bool,
                               memo: map<string, int>, ghost rank: map<string, nat>)
      returns (count: int, memo': map<string, int>)
      requires current in rank && current != "out" && Ranked(graph, rank)
      ensures NoKeyClash(rank.Keys) && StringMemoOk(graph, rank, memo) ==>
        count == CheckSumFrom(graph, rank, current, dac, fft, 0) && StringMemoOk(graph, rank, memo')
      decreases rank[current], 0
    {
      ghost var sound := NoKeyClash(rank.Keys) && StringMemoOk(graph, rank, memo);
      count, memo' := 0, memo;
      var targets := if current in graph then graph[current] else [];
      assert targets == Succ(graph, current);
      for t := 0 to |targets|
        invariant sound ==> StringMemoOk(graph, rank, memo')
        invariant sound ==>
          count + CheckSumFrom(graph, rank, current, dac, fft, t) == CheckSumFrom(graph, rank, current, dac, fft, 0)
      {
        assert targets[t] in rank && rank[targets[t]] < rank[current];
        var c;
        c, memo' := CountPathsWithCheckpointsAsWritten(targets[t], dac, fft, memo', rank);
        count := count + c;
      }
    }

    /** The clash as the as-written count meets it on `ClashGraph`, in the order
        `svr: x:d dac` visits it: the first output "x:d", counted with an empty memo,
        gives 0 and caches it under "x:d"; then "x", reached from "dac" with the dac
        flag set, reads that 0 back, although one route from it passes both
        checkpoints. */
    method ClashReadBack() returns (first: int, second: int)
      requires graph == ClashGraph()
      ensures first == 0 && second == 0
      ensures CheckCount(ClashGraph(), ClashRank(), "x", true, false) == 1
    {
      ghost var alone := map["x:d" := 0];
      assert Succ(graph, "x:d") == [];
      SingleDeviceNoClash("x:d");
      assert alone.Keys == {"x:d"};
      var memo;
      first, memo := CountPathsWithCheckpointsAsWritten("x:d", false, false, map[], alone);
      assert CheckSumFrom(graph, alone, "x:d", false, false, 0) == 0;
      ClashKeys();
      ClashFromX();
      second, memo := CountPathsWithCheckpointsAsWritten("x", true, false, memo, ClashRank());
    }

    /** `Parse`: reads the lines into the graph, then counts the routes from "you" and
        the checkpoint routes from "svr", each with an empty memo. The devices that
        either start leads to must form no cycle. */
    method Parse(lines: seq<string>, ghost rank: map<string, nat>)
      requires Ranked(ReadGraph(graph, lines), rank) && "you" in rank && "svr" in rank
      modifies this
      ensures graph == ReadGraph(old(graph), lines)
      ensures ResultPart1 == Count(graph, rank, "you")
      ensures ResultPart2 == CheckCount(graph, rank, "svr", false, false)
    {
      ghost var graph0 := graph;
      for i := 0 to |lines|
        invariant graph == ReadGraph(graph0, lines[..i])
      {
        var line := lines[i];
        assert lines[..i + 1][..i] == lines[..i];
        if line == "" {
          continue;
        }
        var parts := SplitN2(line, ": ");
        if |parts| != 2 {
          continue;
        }
        var device := parts[0];
        var targets := Fields(parts[1]);
        graph := graph[device := targets];
      }
      assert lines[..|lines|] == lines;
      var memo1, memo2;
      ResultPart1, memo1 := CountPaths("you", map[], rank);
      ResultPart2, memo2 := CountPathsWithCheckpoints("svr", false, false, map[], rank);
    }
  }

  /** Caching the count of one device and flags keeps the memo sound when keys do not
      clash. */
  lemma StoreSound(graph: Graph, rank: map<string, nat>, memo: map<string, int>,
                   u: string, dac: bool, fft: bool, count: int)
    requires NoKeyClash(rank.Keys) && StringMemoOk(graph, rank, memo) && u in rank
    requires count == CheckCount(graph, rank, u, dac, fft)
    ensures StringMemoOk(graph, rank, memo[MemoString(u, dac, fft) := count])
  {
  }

  /** A graph on which two memo keys clash: "x" reached with the dac flag and the
      device "x:d" reached without flags share the key "x:d", but from "x" one route
      passes both checkpoints and from "x:d" none does. `svr: x:d dac` counts "x:d"
      first, caches 0 under "x:d", and then reads that 0 back for "x" after "dac". */
  function ClashGraph(): Graph
  {
    map["svr" := ["x:d", "dac"], "dac" := ["x"], "x" := ["fft"], "fft" := ["out"]]
  }

  function ClashRank(): map<string, nat>
  {
    map["svr" := 4, "dac" := 3, "x" := 2, "fft" := 1, "out" := 0, "x:d" := 0]
  }

  lemma ClashRanked()
    ensures Ranked(ClashGraph(), ClashRank())
  {
    var g, rank := ClashGraph(), ClashRank();
    assert Succ(g, "svr") == ["x:d", "dac"];
    assert Succ(g, "dac") == ["x"];
    assert Succ(g, "x") == ["fft"];
    assert Succ(g, "fft") == ["out"];
    assert Succ(g, "x:d") == [];
  }

  /** The memo keys of one device tell its flags apart. */
  lemma SingleDeviceNoClash(u: string)
    ensures NoKeyClash({u})
  {
    forall d1, f1, d2, f2 | MemoString(u, d1, f1) == MemoString(u, d2, f2)
      ensures d1 == d2 && f1 == f2
    {
      var s1 := (if d1 then ":d" else "") + (if f1 then ":f" else "");
      var s2 := (if d2 then ":d" else "") + (if f2 then ":f" else "");
      assert MemoString(u, d1, f1) == u + s1 && MemoString(u, d2, f2) == u + s2;
      assert s1 == (u + s1)[|u|..] && s2 == (u + s2)[|u|..];
      assert s1 == s2;
      assert |s1| == 2 * ((if d1 then 1 else 0) + (if f1 then 1 else 0));
      assert |s2| == 2 * ((if d2 then 1 else 0) + (if f2 then 1 else 0));
      assert |s1| == 2 ==> s1[1] == (if d1 then 'd' else 'f') && s2[1] == (if d2 then 'd' else 'f');
    }
  }

  /** Device "x" with the "dac" flag set and device "x:d" with neither flag share a key. */
  lemma ClashKeys()
    ensures MemoString("x", true, false) == MemoString("x:d", false, false)
    ensures !NoKeyClash(ClashRank().Keys)
  {
    assert MemoString("x", true, false) == "x:d";
    assert MemoString("x:d", false, false) == "x:d";
    assert "x" in ClashRank().Keys && "x:d" in ClashRank().Keys;
  }

  /** From "x" with "dac" passed, the one route passes "fft". */
  lemma ClashFromX()
    ensures Ranked(ClashGraph(), ClashRank())
    ensures CheckCount(ClashGraph(), ClashRank(), "x", true, false) == 1
  {
    var g, rank := ClashGraph(), ClashRank();
    ClashRanked();
    assert Succ(g, "fft") == ["out"];
    assert CheckCount(g, rank, "out", true, true) == 1;
    assert CheckSumFrom(g, rank, "fft", true, true, 1) == 0;
    assert CheckCount(g, rank, "fft", true, false) == 1;
    assert Succ(g, "x") == ["fft"];
    assert CheckSumFrom(g, rank, "x", true, true, 1) == 0;
  }

  /** "x:d" has no outputs. */
  lemma ClashFromKey()
    ensures Ranked(ClashGraph(), ClashRank())
    ensures CheckCount(ClashGraph(), ClashRank(), "x:d", false, false) == 0
  {
    var g, rank := ClashGraph(), ClashRank();
    ClashRanked();
    assert Succ(g, "x:d") == [];
  }

  /** From "dac" the one route passes "fft". */
  lemma ClashFromDac()
    ensures Ranked(ClashGraph(), ClashRank())
    ensures CheckCount(ClashGraph(), ClashRank(), "dac", false, false) == 1
  {
    var g, rank := ClashGraph(), ClashRank();
    ClashFromX();
    assert Succ(g, "dac") == ["x"];
    assert CheckSumFrom(g, rank, "dac", true, false, 1) == 0;
  }

  /** From "svr" the route through "dac" counts and the one through "x:d" does not. */
  lemma ClashFromSvr()
    ensures Ranked(ClashGraph(), ClashRank())
    ensures CheckCount(ClashGraph(), ClashRank(), "svr", false, false) == 1
  {
    var g, rank := ClashGraph(), ClashRank();
    ClashFromDac();
    ClashFromKey();
    assert Succ(g, "svr") == ["x:d", "dac"];
    assert CheckSumFrom(g, rank, "svr", false, false, 2) == 0;
    assert CheckSumFrom(g, rank, "svr", false, false, 1) == 1;
  }

  /** The clash: the two states share a key but not a count, so no memo can hold the
      right count for both, and from "svr" one route passes both checkpoints. */
  lemma KeyClash()
    ensures Ranked(ClashGraph(), ClashRank())
    ensures MemoString("x", true, false) == MemoString("x:d", false, false)
    ensures CheckCount(ClashGraph(), ClashRank(), "x", true, false) == 1
    ensures CheckCount(ClashGraph(), ClashRank(), "x:d", false, false) == 0
    ensures CheckCount(ClashGraph(), ClashRank(), "svr", false, false) == 1
    ensures !NoKeyClash(ClashRank().Keys)
  {
    ClashKeys();
    ClashFromX();
    ClashFromKey();
    ClashFromSvr();
  }
}
