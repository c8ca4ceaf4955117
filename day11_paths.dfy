/** The reactor's device graph and its routes to "out": what `countPaths` and
    `countPathsWithCheckpoints` compute, and what those counts count. */
module DevicePaths {

  /** Each device's outputs, as `Reactor.graph` holds them. */
  type Graph = map<string, seq<string>>

  /** `graph[u]`: a device without a line has no outputs. */
  function Succ(graph: Graph, u: string): seq<string>
  {
    if u in graph then graph[u] else []
  }

  /** `rank` falls along every output of each ranked device other than "out", so the
      devices it ranks lead into no cycle; without this the recursion of the counts
      would not end. */
  ghost predicate Ranked(graph: Graph, rank: map<string, nat>)
  {
    forall u, t :: u in rank && u != "out" && 0 <= t < |Succ(graph, u)| ==>
      Succ(graph, u)[t] in rank && rank[Succ(graph, u)[t]] < rank[u]
  }

  /** The count `countPaths` returns: 1 at "out", otherwise the sum over the outputs. */
  ghost function Count(graph: Graph, rank: map<string, nat>, u: string): nat
    requires Ranked(graph, rank) && u in rank
    decreases rank[u], 1
  {
    if u == "out" then 1 else SumFrom(graph, rank, u, 0)
  }

  /** The counts of the outputs of `u` from the `i`-th on, added up. */
  ghost function SumFrom(graph: Graph, rank: map<string, nat>, u: string, i: nat): nat
    requires Ranked(graph, rank) && u in rank && u != "out" && i <= |Succ(graph, u)|
    decreases rank[u], 0, |Succ(graph, u)| - i
  {
    if i == |Succ(graph, u)| then 0
    else Count(graph, rank, Succ(graph, u)[i]) + SumFrom(graph, rank, u, i + 1)
  }

  /** The count `countPathsWithCheckpoints` returns: entering "dac" or "fft" sets its
      flag, and "out" counts 1 when both flags are set. */
  ghost function CheckCount(graph: Graph, rank: map<string, nat>, u: string, dac: bool, fft: bool): nat
    requires Ranked(graph, rank) && u in rank
    decreases rank[u], 1
  {
    var d, f := dac || u == "dac", fft || u == "fft";
    if u == "out" then (if d && f then 1 else 0) else CheckSumFrom(graph, rank, u, d, f, 0)
  }

  ghost function CheckSumFrom(graph: Graph, rank: map<string, nat>, u: string, dac: bool, fft: bool,
                              i: nat): nat
    requires Ranked(graph, rank) && u in rank && u != "out" && i <= |Succ(graph, u)|
    decreases rank[u], 0, |Succ(graph, u)| - i
  {
    if i == |Succ(graph, u)| then 0
    else CheckCount(graph, rank, Succ(graph, u)[i], dac, fft) + CheckSumFrom(graph, rank, u, dac, fft, i + 1)
  }

  /** Following the choices `r` of outputs from `u` arrives at "out", and only at the
      end. Each choice is a position in the output list, so an output listed twice
      gives two routes. */
  ghost predicate IsRoute(graph: Graph, u: string, r: seq<nat>)
    decreases |r|
  {
    if u == "out" then r == []
    else |r| > 0 && r[0] < |Succ(graph, u)| && IsRoute(graph, Succ(graph, u)[r[0]], r[1..])
  }

  /** The devices a route passes, `u` and "out" included. */
  ghost function Along(graph: Graph, u: string, r: seq<nat>): seq<string>
    requires IsRoute(graph, u, r)
    decreases |r|
  {
    if u == "out" then [u] else [u] + Along(graph, Succ(graph, u)[r[0]], r[1..])
  }

  /** The route passes "dac" unless `dac` is already set, and "fft" unless `fft` is. */
  ghost predicate Checked(graph: Graph, u: string, r: seq<nat>, dac: bool, fft: bool)
    requires IsRoute(graph, u, r)
  {
    (dac || "dac" in Along(graph, u, r)) && (fft || "fft" in Along(graph, u, r))
  }

  ghost function Prefixed(i: nat, s: set<seq<nat>>): set<seq<nat>>
  {
    set r | r in s :: [i] + r
  }

  /** The routes `CheckCount` counts, built the way it adds them up. */
  ghost function CheckRoutes(graph: Graph, rank: map<string, nat>, u: string, dac: bool, fft: bool): set<seq<nat>>
    requires Ranked(graph, rank) && u in rank
    decreases rank[u], 1
  {
    var d, f := dac || u == "dac", fft || u == "fft";
    if u == "out" then (if d && f then {[]} else {}) else CheckRoutesFrom(graph, rank, u, d, f, 0)
  }

  ghost function CheckRoutesFrom(graph: Graph, rank: map<string, nat>, u: string, dac: bool, fft: bool,
                                 i: nat): set<seq<nat>>
    requires Ranked(graph, rank) && u in rank && u != "out" && i <= |Succ(graph, u)|
    decreases rank[u], 0, |Succ(graph, u)| - i
  {
    if i == |Succ(graph, u)| then {}
    else
      var here := Prefixed(i, CheckRoutes(graph, rank, Succ(graph, u)[i], dac, fft));
      here + CheckRoutesFrom(graph, rank, u, dac, fft, i + 1)
  }

  /** Putting the same choice first loses no route. */
  lemma {:induction false} PrefixedCard(i: nat, s: set<seq<nat>>)
    ensures |Prefixed(i, s)| == |s|
    decreases |s|
  {
    if s != {} {
      if forall y :: y !in s {
        assert false;
      }
      var x :| x in s;
      var rest := s - {x};
      PrefixedCard(i, rest);
      assert Prefixed(i, s) == Prefixed(i, rest) + {[i] + x};
      forall y | y in rest ensures [i] + y != [i] + x {
        assert ([i] + y)[1..] == y;
        assert ([i] + x)[1..] == x;
      }
    }
  }

  /** The routes built from the `i`-th output on start with a choice at `i` or later. */
  lemma {:induction false} CheckRoutesFromFirst(graph: Graph, rank: map<string, nat>, u: string,
                                                dac: bool, fft: bool, i: nat)
    requires Ranked(graph, rank) && u in rank && u != "out" && i <= |Succ(graph, u)|
    ensures forall r :: r in CheckRoutesFrom(graph, rank, u, dac, fft, i) ==>
      |r| > 0 && i <= r[0] < |Succ(graph, u)|
    decreases |Succ(graph, u)| - i
  {
    if i < |Succ(graph, u)| {
      CheckRoutesFromFirst(graph, rank, u, dac, fft, i + 1);
    }
  }

  /** The count is the number of routes it stands for. */
  lemma {:induction false} CheckRoutesCount(graph: Graph, rank: map<string, nat>, u: string, dac: bool, fft: bool)
    requires Ranked(graph, rank) && u in rank
    ensures |CheckRoutes(graph, rank, u, dac, fft)| == CheckCount(graph, rank, u, dac, fft)
    decreases rank[u], 1
  {
    if u != "out" {
      CheckRoutesFromCount(graph, rank, u, dac || u == "dac", fft || u == "fft", 0);
    }
  }

  lemma {:induction false} CheckRoutesFromCount(graph: Graph, rank: map<string, nat>, u: string,
                                                dac: bool, fft: bool, i: nat)
    requires Ranked(graph, rank) && u in rank && u != "out" && i <= |Succ(graph, u)|
    ensures |CheckRoutesFrom(graph, rank, u, dac, fft, i)| == CheckSumFrom(graph, rank, u, dac, fft, i)
    decreases rank[u], 0, |Succ(graph, u)| - i
  {
    if i < |Succ(graph, u)| {
      var v := Succ(graph, u)[i];
      var here, later := Prefixed(i, CheckRoutes(graph, rank, v, dac, fft)),
        CheckRoutesFrom(graph, rank, u, dac, fft, i + 1);
      CheckRoutesCount(graph, rank, v, dac, fft);
      PrefixedCard(i, CheckRoutes(graph, rank, v, dac, fft));
      CheckRoutesFromCount(graph, rank, u, dac, fft, i + 1);
      CheckRoutesFromFirst(graph, rank, u, dac, fft, i + 1);
      assert here * later == {} by {
        forall r | r in here ensures r !in later {
          assert r[0] == i;
        }
      }
      assert |here + later| == |here| + |later|;
    }
  }

  /** A route from `u` through output `i` is that choice followed by a route from the
      output, and passes `u` and then what that route passes. */
  lemma RouteStep(graph: Graph, u: string, r: seq<nat>)
    requires u != "out" && |r| > 0 && r[0] < |Succ(graph, u)|
    ensures IsRoute(graph, u, r) <==> IsRoute(graph, Succ(graph, u)[r[0]], r[1..])
    ensures IsRoute(graph, u, r) ==>
      Along(graph, u, r) == [u] + Along(graph, Succ(graph, u)[r[0]], r[1..])
  {
  }

  /** The routes `CheckRoutes` builds are exactly the routes from `u` that pass the
      checkpoints whose flag is not yet set. */
  lemma {:induction false} CheckRoutesExactly(graph: Graph, rank: map<string, nat>, u: string,
                                              dac: bool, fft: bool, r: seq<nat>)
    requires Ranked(graph, rank) && u in rank
    ensures r in CheckRoutes(graph, rank, u, dac, fft) <==>
      IsRoute(graph, u, r) && Checked(graph, u, r, dac, fft)
    decreases rank[u], 1
  {
    var d, f := dac || u == "dac", fft || u == "fft";
    if u == "out" {
      if IsRoute(graph, u, r) {
        assert Along(graph, u, r) == ["out"];
      }
    } else {
      CheckRoutesFromExactly(graph, rank, u, d, f, 0, r);
      if |r| > 0 && r[0] < |Succ(graph, u)| {
        RouteStep(graph, u, r);
      }
    }
  }

  lemma {:induction false} CheckRoutesFromExactly(graph: Graph, rank: map<string, nat>, u: string,
                                                  dac: bool, fft: bool, i: nat, r: seq<nat>)
    requires Ranked(graph, rank) && u in rank && u != "out" && i <= |Succ(graph, u)|
    ensures r in CheckRoutesFrom(graph, rank, u, dac, fft, i) <==>
      |r| > 0 && i <= r[0] < |Succ(graph, u)| &&
      IsRoute(graph, Succ(graph, u)[r[0]], r[1..]) && Checked(graph, Succ(graph, u)[r[0]], r[1..], dac, fft)
    decreases rank[u], 0, |Succ(graph, u)| - i
  {
    if i < |Succ(graph, u)| {
      var v := Succ(graph, u)[i];
      CheckRoutesFromExactly(graph, rank, u, dac, fft, i + 1, r);
      if |r| > 0 && r[0] == i {
        CheckRoutesExactly(graph, rank, v, dac, fft, r[1..]);
        assert r == [i] + r[1..];
      }
      if r in Prefixed(i, CheckRoutes(graph, rank, v, dac, fft)) {
        var s :| s in CheckRoutes(graph, rank, v, dac, fft) && r == [i] + s;
        assert r[1..] == s;
      }
    }
  }

  /** With both flags set every route counts: `countPaths` is the checkpoint count with
      nothing left to pass. */
  lemma {:induction false} CountAllChecked(graph: Graph, rank: map<string, nat>, u: string)
    requires Ranked(graph, rank) && u in rank
    ensures Count(graph, rank, u) == CheckCount(graph, rank, u, true, true)
    decreases rank[u], 1
  {
    if u != "out" {
      SumFromAllChecked(graph, rank, u, 0);
    }
  }

  lemma {:induction false} SumFromAllChecked(graph: Graph, rank: map<string, nat>, u: string, i: nat)
    requires Ranked(graph, rank) && u in rank && u != "out" && i <= |Succ(graph, u)|
    ensures SumFrom(graph, rank, u, i) == CheckSumFrom(graph, rank, u, true, true, i)
    decreases rank[u], 0, |Succ(graph, u)| - i
  {
    if i < |Succ(graph, u)| {
      CountAllChecked(graph, rank, Succ(graph, u)[i]);
      SumFromAllChecked(graph, rank, u, i + 1);
    }
  }

  /** `countPaths(u)` is the number of distinct routes from `u` to the first "out". */
  lemma CountIsRoutes(graph: Graph, rank: map<string, nat>, u: string)
    requires Ranked(graph, rank) && u in rank
    ensures Count(graph, rank, u) == |CheckRoutes(graph, rank, u, true, true)|
    ensures forall r :: r in CheckRoutes(graph, rank, u, true, true) <==> IsRoute(graph, u, r)
  {
    CountAllChecked(graph, rank, u);
    CheckRoutesCount(graph, rank, u, true, true);
    forall r ensures r in CheckRoutes(graph, rank, u, true, true) <==> IsRoute(graph, u, r) {
      CheckRoutesExactly(graph, rank, u, true, true, r);
    }
  }

  /** `countPathsWithCheckpoints(u, false, false)` is the number of distinct routes from
      `u` to the first "out" that pass both "dac" and "fft", `u` and "out" included. */
  lemma CheckCountIsRoutes(graph: Graph, rank: map<string, nat>, u: string)
    requires Ranked(graph, rank) && u in rank
    ensures CheckCount(graph, rank, u, false, false) == |CheckRoutes(graph, rank, u, false, false)|
    ensures forall r :: r in CheckRoutes(graph, rank, u, false, false) <==>
      IsRoute(graph, u, r) && "dac" in Along(graph, u, r) && "fft" in Along(graph, u, r)
  {
    CheckRoutesCount(graph, rank, u, false, false);
    forall r ensures r in CheckRoutes(graph, rank, u, false, false) <==>
      IsRoute(graph, u, r) && "dac" in Along(graph, u, r) && "fft" in Along(graph, u, r)
    {
      CheckRoutesExactly(graph, rank, u, false, false, r);
    }
  }

  /** Asking for checkpoints never counts more routes than `countPaths`. */
  lemma CheckCountAtMost(graph: Graph, rank: map<string, nat>, u: string, dac: bool, fft: bool)
    requires Ranked(graph, rank) && u in rank
    ensures CheckCount(graph, rank, u, dac, fft) <= Count(graph, rank, u)
  {
    var some, all := CheckRoutes(graph, rank, u, dac, fft), CheckRoutes(graph, rank, u, true, true);
    forall r | r in some ensures r in all {
      CheckRoutesExactly(graph, rank, u, dac, fft, r);
      CheckRoutesExactly(graph, rank, u, true, true, r);
    }
    assert all == some + (all - some);
    CheckRoutesCount(graph, rank, u, dac, fft);
    CountIsRoutes(graph, rank, u);
  }
}
