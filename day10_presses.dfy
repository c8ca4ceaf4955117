/** Button presses on a machine with all lights off at first, and the breadth-first
    search state of `solveXOR` with the facts it keeps between steps. */
module Presses {
  import opened Bits

  /** A value of the lights and how many presses reached it. */
  datatype State = State(val: nat, presses: nat)

  /** Every press names one of the buttons. */
  ghost predicate ValidPresses(masks: seq<nat>, p: seq<nat>)
  {
    forall t :: 0 <= t < |p| ==> p[t] < |masks|
  }

  /** The lights after pressing the buttons `p` in turn: each press toggles the lights
      of its button's mask. */
  ghost function PressXor(masks: seq<nat>, p: seq<nat>): nat
    requires ValidPresses(masks, p)
  {
    if |p| == 0 then 0 else Xor(PressXor(masks, p[..|p| - 1]), masks[p[|p| - 1]])
  }

  /** Some `k` presses leave the lights at `v`. */
  ghost predicate ReachIn(masks: seq<nat>, v: nat, k: nat)
  {
    exists p: seq<nat> :: |p| == k && ValidPresses(masks, p) && PressXor(masks, p) == v
  }

  /** `k` presses reach `v`, and no fewer do. */
  ghost predicate Minimal(masks: seq<nat>, v: nat, k: nat)
  {
    ReachIn(masks, v, k) && forall j :: 0 <= j < k ==> !ReachIn(masks, v, j)
  }

  /** With no press the lights are all off. */
  lemma ReachZero(masks: seq<nat>, v: nat)
    ensures ReachIn(masks, v, 0) <==> v == 0
  {
    var p: seq<nat> := [];
    assert ValidPresses(masks, p) && PressXor(masks, p) == 0;
  }

  /** One more press of button `j`. */
  lemma ReachNext(masks: seq<nat>, u: nat, k: nat, j: nat)
    requires ReachIn(masks, u, k) && j < |masks|
    ensures ReachIn(masks, Xor(u, masks[j]), k + 1)
  {
    var p: seq<nat> :| |p| == k && ValidPresses(masks, p) && PressXor(masks, p) == u;
    var q := p + [j];
    assert q[..|q| - 1] == p;
    assert ValidPresses(masks, q);
    assert PressXor(masks, q) == Xor(u, masks[j]);
  }

  /** The last of `k + 1` presses comes after `k` presses that reach some `u`. */
  lemma ReachPrev(masks: seq<nat>, w: nat, k: nat) returns (u: nat, j: nat)
    requires ReachIn(masks, w, k + 1)
    ensures j < |masks| && ReachIn(masks, u, k) && w == Xor(u, masks[j])
  {
    var q: seq<nat> :| |q| == k + 1 && ValidPresses(masks, q) && PressXor(masks, q) == w;
    var p := q[..k];
    assert ValidPresses(masks, p);
    u, j := PressXor(masks, p), q[k];
  }

  /** `v` waits in the queue. */
  ghost predicate InQueue(queue: seq<State>, v: nat)
  {
    exists t :: 0 <= t < |queue| && queue[t].val == v
  }

  /** Every press from `v` leads to a visited value. */
  ghost predicate Expanded(masks: seq<nat>, visited: set<nat>, v: nat)
  {
    forall j :: 0 <= j < |masks| ==> Xor(v, masks[j]) in visited
  }

  /** Every value at most `level` presses reach is visited. */
  ghost predicate Complete(masks: seq<nat>, visited: set<nat>, level: nat)
  {
    forall v: nat, k: nat :: k <= level && ReachIn(masks, v, k) ==> v in visited
  }

  /** The queue holds visited values, each with its least number of presses, which is
      `level` or `level + 1` and never decreases along the queue. */
  ghost predicate Queued(masks: seq<nat>, visited: set<nat>, queue: seq<State>, level: nat)
  {
    (forall t :: 0 <= t < |queue| ==>
      queue[t].val in visited && Minimal(masks, queue[t].val, queue[t].presses) &&
      level <= queue[t].presses <= level + 1) &&
    forall s, t :: 0 <= s < t < |queue| ==> queue[s].presses <= queue[t].presses
  }

  /** The masks and the visited values are below `1 << n`. */
  ghost predicate Bounded(masks: seq<nat>, visited: set<nat>, n: nat)
  {
    (forall j :: 0 <= j < |masks| ==> masks[j] < Pow2(n)) &&
    forall v :: v in visited ==> v < Pow2(n)
  }

  /** The state of the search between two queue pops: 0 is visited and the target is
      not, the queue is in order, every visited value is queued or expanded, and all
      values within `level` presses are visited. */
  ghost predicate Explored(masks: seq<nat>, target: nat, n: nat, visited: set<nat>,
                           queue: seq<State>, level: nat)
  {
    0 in visited && target !in visited && Bounded(masks, visited, n) &&
    Queued(masks, visited, queue, level) &&
    (forall v {:trigger Expanded(masks, visited, v)} :: v in visited ==>
      InQueue(queue, v) || Expanded(masks, visited, v)) &&
    Complete(masks, visited, level)
  }

  /** The state while the presses from `cur` are tried: as `Explored`, except that
      `cur`, popped at `level` presses, has only its first `d` buttons done. */
  ghost predicate Scanning(masks: seq<nat>, target: nat, n: nat, visited: set<nat>,
                           queue: seq<State>, level: nat, cur: State, d: nat)
  {
    d <= |masks| && cur.presses == level && cur.val in visited &&
    Minimal(masks, cur.val, level) &&
    0 in visited && target !in visited && Bounded(masks, visited, n) &&
    Queued(masks, visited, queue, level) &&
    (forall v {:trigger Expanded(masks, visited, v)} :: v in visited ==>
      v == cur.val || InQueue(queue, v) || Expanded(masks, visited, v)) &&
    Complete(masks, visited, level) &&
    forall j :: 0 <= j < d ==> Xor(cur.val, masks[j]) in visited
  }

  /** The search starts from all lights off, visited and queued with no press. */
  lemma Start(masks: seq<nat>, target: nat, n: nat)
    requires target != 0 && forall j :: 0 <= j < |masks| ==> masks[j] < Pow2(n)
    ensures Explored(masks, target, n, {0}, [State(0, 0)], 0)
  {
    ReachZero(masks, 0);
    forall v: nat, k: nat | k <= 0 && ReachIn(masks, v, k) ensures v in {0} {
      ReachZero(masks, v);
    }
    assert [State(0, 0)][0].val == 0;
    assert InQueue([State(0, 0)], 0);
  }

  /** When the front of the queue is one press further, every value within one more
      press is visited: it comes from a value within `level` presses, which is no
      longer queued and so is expanded. */
  lemma LevelUp(masks: seq<nat>, target: nat, n: nat, visited: set<nat>,
                queue: seq<State>, level: nat)
    requires Explored(masks, target, n, visited, queue, level)
    requires |queue| > 0 && queue[0].presses == level + 1
    ensures Explored(masks, target, n, visited, queue, level + 1)
  {
    forall t | 0 <= t < |queue| ensures queue[t].presses == level + 1 {
      assert queue[0].presses <= queue[t].presses;
    }
    forall w: nat, k: nat | k <= level + 1 && ReachIn(masks, w, k) ensures w in visited {
      if k == level + 1 {
        var u, j := ReachPrev(masks, w, level);
        assert u in visited;
        forall t | 0 <= t < |queue| ensures queue[t].val != u {
          assert Minimal(masks, queue[t].val, level + 1);
        }
        assert !InQueue(queue, u);
        assert Expanded(masks, visited, u);
      }
    }
  }

  /** Popping the front of the queue, at `level` presses. */
  lemma PopStep(masks: seq<nat>, target: nat, n: nat, visited: set<nat>,
                queue: seq<State>, level: nat)
    requires Explored(masks, target, n, visited, queue, level)
    requires |queue| > 0 && queue[0].presses == level
    ensures Scanning(masks, target, n, visited, queue[1..], level, queue[0], 0)
  {
    var rest := queue[1..];
    forall v | v in visited && InQueue(queue, v) && v != queue[0].val
      ensures InQueue(rest, v)
    {
      var t :| 0 <= t < |queue| && queue[t].val == v;
      assert rest[t - 1].val == v;
    }
    forall v | v in visited
      ensures v == queue[0].val || InQueue(rest, v) || Expanded(masks, visited, v)
    {
    }
  }

  /** A press that leads to a visited value changes nothing. */
  lemma SkipStep(masks: seq<nat>, target: nat, n: nat, visited: set<nat>,
                 queue: seq<State>, level: nat, cur: State, d: nat)
    requires Scanning(masks, target, n, visited, queue, level, cur, d) && d < |masks|
    requires Xor(cur.val, masks[d]) in visited
    ensures Scanning(masks, target, n, visited, queue, level, cur, d + 1)
  {
  }

  /** A press that leads to a new value other than the target visits it and queues
      it one press further: no fewer presses reach it, since it was not visited. */
  lemma AddStep(masks: seq<nat>, target: nat, n: nat, visited: set<nat>,
                queue: seq<State>, level: nat, cur: State, d: nat)
    requires Scanning(masks, target, n, visited, queue, level, cur, d) && d < |masks|
    requires Xor(cur.val, masks[d]) !in visited && Xor(cur.val, masks[d]) != target
    ensures Scanning(masks, target, n, visited + {Xor(cur.val, masks[d])},
                     queue + [State(Xor(cur.val, masks[d]), level + 1)], level, cur, d + 1)
  {
    var next := Xor(cur.val, masks[d]);
    var visited', queue' := visited + {next}, queue + [State(next, level + 1)];
    ReachNext(masks, cur.val, level, d);
    assert Minimal(masks, next, level + 1);
    XorBound(cur.val, masks[d], n);
    forall t | 0 <= t < |queue'|
      ensures queue'[t].val in visited' && Minimal(masks, queue'[t].val, queue'[t].presses)
      ensures level <= queue'[t].presses <= level + 1
    {
      if t < |queue| {
        assert queue'[t] == queue[t];
      }
    }
    forall s, t | 0 <= s < t < |queue'| ensures queue'[s].presses <= queue'[t].presses {
      if t < |queue| {
        assert queue'[s] == queue[s] && queue'[t] == queue[t];
      }
    }
    assert Queued(masks, visited', queue', level);
    forall v | v in visited' && v != next && InQueue(queue, v) ensures InQueue(queue', v) {
      var t :| 0 <= t < |queue| && queue[t].val == v;
      assert queue'[t].val == v;
    }
    assert InQueue(queue', next) by {
      assert queue'[|queue|].val == next;
    }
    forall v | v in visited'
      ensures v == cur.val || InQueue(queue', v) || Expanded(masks, visited', v)
    {
      if v != next && v != cur.val && !InQueue(queue, v) {
        assert Expanded(masks, visited, v);
      }
    }
  }

  /** A press that reaches the target: one press more than `cur` is the least number
      that does, since all values within `level` presses are visited and the target
      is not. */
  lemma FoundStep(masks: seq<nat>, target: nat, n: nat, visited: set<nat>,
                  queue: seq<State>, level: nat, cur: State, d: nat)
    requires Scanning(masks, target, n, visited, queue, level, cur, d) && d < |masks|
    requires Xor(cur.val, masks[d]) == target
    ensures Minimal(masks, target, level + 1)
  {
    ReachNext(masks, cur.val, level, d);
  }

  /** All buttons tried from `cur`: it is expanded. */
  lemma ScanDone(masks: seq<nat>, target: nat, n: nat, visited: set<nat>,
                 queue: seq<State>, level: nat, cur: State)
    requires Scanning(masks, target, n, visited, queue, level, cur, |masks|)
    ensures Explored(masks, target, n, visited, queue, level)
  {
    assert Expanded(masks, visited, cur.val);
  }

  /** With the queue empty, every value some presses reach is visited, so the target,
      which is not, is reached by no number of presses. */
  lemma Unreachable(masks: seq<nat>, target: nat, n: nat, visited: set<nat>, level: nat)
    requires Explored(masks, target, n, visited, [], level)
    ensures forall k: nat :: !ReachIn(masks, target, k)
  {
    forall k: nat ensures !ReachIn(masks, target, k) {
      ReachedVisited(masks, target, n, visited, level, k);
    }
  }

  lemma {:induction false} ReachedVisited(masks: seq<nat>, target: nat, n: nat,
                                          visited: set<nat>, level: nat, k: nat)
    requires Explored(masks, target, n, visited, [], level)
    ensures forall v :: ReachIn(masks, v, k) ==> v in visited
  {
    if k == 0 {
      forall v | ReachIn(masks, v, 0) ensures v in visited {
        ReachZero(masks, v);
      }
    } else {
      ReachedVisited(masks, target, n, visited, level, k - 1);
      forall w | ReachIn(masks, w, k) ensures w in visited {
        var u, j := ReachPrev(masks, w, k - 1);
        assert !InQueue([], u);
        assert Expanded(masks, visited, u);
      }
    }
  }
}
