/** The helpers of day 10 that turn a machine's diagram and buttons into bit masks,
    and the search for the free columns of a reduced matrix. */
module Day10Masks {
  import opened Bits

  /** The lights a diagram asks for, read as a binary number whose lowest bit is the
      first light: a '#' is a 1. */
  function PatternMask(pattern: string): nat
  {
    if |pattern| == 0 then 0
    else (if pattern[0] == '#' then 1 else 0) + 2 * PatternMask(pattern[1..])
  }

  lemma {:induction false} PatternMaskBit(pattern: string, k: nat)
    ensures Bit(PatternMask(pattern), k) <==> k < |pattern| && pattern[k] == '#'
  {
    if |pattern| == 0 {
      ZeroBit(k);
    } else if k > 0 {
      PatternMaskBit(pattern[1..], k - 1);
    }
  }

  /** No bit at the diagram's length or above is set. */
  lemma {:induction false} PatternMaskBound(pattern: string)
    ensures PatternMask(pattern) < Pow2(|pattern|)
  {
    if |pattern| > 0 {
      PatternMaskBound(pattern[1..]);
    }
  }

  /** The mask is zero exactly when the diagram has no light on. */
  lemma {:induction false} PatternMaskZero(pattern: string)
    ensures PatternMask(pattern) == 0 <==> '#' !in pattern
  {
    if |pattern| > 0 {
      PatternMaskZero(pattern[1..]);
      assert pattern == [pattern[0]] + pattern[1..];
    }
  }

  /** `patternToMask`: sets bit `i` for each '#' at position `i`. */
  method PatternToMask(pattern: string) returns (mask: nat)
    ensures forall k: nat :: Bit(mask, k) <==> k < |pattern| && pattern[k] == '#'
    ensures mask == PatternMask(pattern)
  {
    mask := 0;
    forall k: nat ensures !Bit(0, k) {
      ZeroBit(k);
    }
    for i := 0 to |pattern|
      invariant forall k: nat :: Bit(mask, k) <==> k < i && pattern[k] == '#'
    {
      if pattern[i] == '#' {
        forall k: nat ensures Bit(Or(mask, Pow2(i)), k) <==> Bit(mask, k) || k == i {
          OrBit(mask, Pow2(i), k);
          Pow2Bit(i, k);
        }
        mask := Or(mask, Pow2(i));
      }
    }
    forall k: nat ensures Bit(mask, k) == Bit(PatternMask(pattern), k) {
      PatternMaskBit(pattern, k);
    }
    BitsEqual(mask, PatternMask(pattern));
  }

  /** The mask of one button over `n` lights from light `k` on, lowest first: a 1 for
      each light the button lists. */
  function ListedMask(btn: seq<int>, n: nat, k: nat): nat
    decreases n - k
  {
    if k >= n then 0
    else (if k in btn then 1 else 0) + 2 * ListedMask(btn, n, k + 1)
  }

  /** The mask of one button over `n` lights. */
  function ButtonMask(btn: seq<int>, n: nat): nat
  {
    ListedMask(btn, n, 0)
  }

  lemma {:induction false} ListedMaskBit(btn: seq<int>, n: nat, k: nat, j: nat)
    ensures Bit(ListedMask(btn, n, k), j) <==> k + j < n && k + j in btn
    decreases n - k
  {
    if k >= n {
      ZeroBit(j);
    } else if j > 0 {
      ListedMaskBit(btn, n, k + 1, j - 1);
    }
  }

  /** A button's mask has bit `k` set exactly when it lists `k` and `k < n`. */
  lemma ButtonMaskBit(btn: seq<int>, n: nat, k: nat)
    ensures Bit(ButtonMask(btn, n), k) <==> k < n && k in btn
  {
    ListedMaskBit(btn, n, 0, k);
  }

  /** A button's mask is below `1 << n`: listed lights past the diagram are ignored. */
  lemma ButtonMaskBound(btn: seq<int>, n: nat)
    ensures ButtonMask(btn, n) < Pow2(n)
  {
    forall k: nat | n <= k ensures !Bit(ButtonMask(btn, n), k) {
      ButtonMaskBit(btn, n, k);
    }
    BelowOfBits(ButtonMask(btn, n), n);
  }

  /** `buttonsToMasks`: one mask per button, or-ing in bit `idx` for each listed
      `idx < n`. A negative index makes Go's shift panic, so none is allowed. */
  method ButtonsToMasks(buttons: seq<seq<int>>, n: nat) returns (masks: seq<nat>)
    requires forall i, t :: 0 <= i < |buttons| && 0 <= t < |buttons[i]| ==> buttons[i][t] >= 0
    ensures |masks| == |buttons|
    ensures forall i :: 0 <= i < |masks| ==> masks[i] == ButtonMask(buttons[i], n)
    ensures forall i :: 0 <= i < |masks| ==> masks[i] < Pow2(n)
  {
    masks := seq(|buttons|, _ => 0);
    forall k: nat ensures !Bit(0, k) {
      ZeroBit(k);
    }
    for i := 0 to |buttons|
      invariant |masks| == |buttons|
      invariant forall h :: 0 <= h < i ==> masks[h] == ButtonMask(buttons[h], n)
      invariant forall h :: i <= h < |masks| ==> masks[h] == 0
    {
      var btn := buttons[i];
      for t := 0 to |btn|
        invariant |masks| == |buttons|
        invariant forall h :: 0 <= h < i ==> masks[h] == ButtonMask(buttons[h], n)
        invariant forall h :: i < h < |masks| ==> masks[h] == 0
        invariant forall k: nat :: Bit(masks[i], k) <==> k < n && k in btn[..t]
      {
        var idx := btn[t];
        assert btn[..t + 1] == btn[..t] + [idx];
        if idx < n {
          var m := masks[i];
          forall k: nat ensures Bit(Or(m, Pow2(idx)), k) <==> Bit(m, k) || k == idx {
            OrBit(m, Pow2(idx), k);
            Pow2Bit(idx, k);
          }
          masks := masks[i := Or(m, Pow2(idx))];
        }
      }
      assert btn[..|btn|] == btn;
      forall k: nat ensures Bit(masks[i], k) == Bit(ButtonMask(btn, n), k) {
        ButtonMaskBit(btn, n, k);
      }
      BitsEqual(masks[i], ButtonMask(btn, n));
    }
    forall i | 0 <= i < |masks| ensures masks[i] < Pow2(n) {
      ButtonMaskBound(buttons[i], n);
    }
  }

  /** Strictly increasing. */
  predicate Increasing(s: seq<int>)
  {
    forall a, b :: 0 <= a < b < |s| ==> s[a] < s[b]
  }

  /** `findFree`: the columns below `n`, in increasing order, that hold no pivot. */
  method FindFree(pivots: seq<int>, n: int) returns (free: seq<int>)
    ensures Increasing(free)
    ensures forall c :: c in free <==> 0 <= c < n && c !in pivots
  {
    var pset: set<int> := {};
    for t := 0 to |pivots|
      invariant forall c :: c in pset <==> c in pivots[..t]
    {
      assert pivots[..t + 1] == pivots[..t] + [pivots[t]];
      pset := pset + {pivots[t]};
    }
    assert pivots[..|pivots|] == pivots;
    free := [];
    var c := 0;
    while c < n
      invariant 0 <= c && (c <= n || c == 0)
      invariant Increasing(free) && forall t :: 0 <= t < |free| ==> free[t] < c
      invariant forall x :: x in free <==> 0 <= x < c && x !in pset
    {
      if c !in pset {
        free := free + [c];
      }
      c := c + 1;
    }
  }
}
