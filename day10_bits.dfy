/** Go's non-negative `int` values used as bit masks: `1 << i`, `|` and `^` over
    unbounded naturals, each with its bit-by-bit reading. */
module Bits {

  /** `1 << i`. */
  function Pow2(i: nat): (r: nat)
    ensures r >= 1
  {
    if i == 0 then 1 else 2 * Pow2(i - 1)
  }

  /** Bit `k` of `m` is set. */
  predicate Bit(m: nat, k: nat)
  {
    if k == 0 then m % 2 == 1 else Bit(m / 2, k - 1)
  }

  /** `a | b`, one binary digit at a time from the lowest. */
  function Or(a: nat, b: nat): nat
    decreases a + b
  {
    if a == 0 then b
    else if b == 0 then a
    else 2 * Or(a / 2, b / 2) + (if a % 2 == 1 || b % 2 == 1 then 1 else 0)
  }

  /** `a ^ b`, one binary digit at a time from the lowest. */
  function Xor(a: nat, b: nat): nat
    decreases a + b
  {
    if a == 0 then b
    else if b == 0 then a
    else 2 * Xor(a / 2, b / 2) + (if a % 2 == b % 2 then 0 else 1)
  }

  /** Zero has no bit set. */
  lemma {:induction false} ZeroBit(k: nat)
    ensures !Bit(0, k)
  {
    if k > 0 {
      ZeroBit(k - 1);
    }
  }

  /** A number is determined by its bits. */
  lemma {:induction false} BitsEqual(a: nat, b: nat)
    requires forall k: nat :: Bit(a, k) == Bit(b, k)
    ensures a == b
    decreases a + b
  {
    if a + b > 0 {
      assert Bit(a, 0) == Bit(b, 0);
      forall k: nat ensures Bit(a / 2, k) == Bit(b / 2, k) {
        assert Bit(a, k + 1) == Bit(b, k + 1);
      }
      BitsEqual(a / 2, b / 2);
    }
  }

  /** A bit of `a | b` is set when it is set in either. */
  lemma {:induction false} OrBit(a: nat, b: nat, k: nat)
    ensures Bit(Or(a, b), k) <==> Bit(a, k) || Bit(b, k)
    decreases a + b
  {
    if a == 0 || b == 0 {
      ZeroBit(k);
    } else {
      var low := if a % 2 == 1 || b % 2 == 1 then 1 else 0;
      var r := Or(a / 2, b / 2);
      assert Or(a, b) == 2 * r + low;
      if k == 0 {
        assert Or(a, b) % 2 == low;
      } else {
        assert Or(a, b) / 2 == r;
        OrBit(a / 2, b / 2, k - 1);
      }
    }
  }

  /** A bit of `a ^ b` is set when it is set in exactly one of them. */
  lemma {:induction false} XorBit(a: nat, b: nat, k: nat)
    ensures Bit(Xor(a, b), k) <==> Bit(a, k) != Bit(b, k)
    decreases a + b
  {
    if a == 0 || b == 0 {
      ZeroBit(k);
    } else {
      var low := if a % 2 == b % 2 then 0 else 1;
      var r := Xor(a / 2, b / 2);
      assert Xor(a, b) == 2 * r + low;
      if k == 0 {
        assert Xor(a, b) % 2 == low;
      } else {
        assert Xor(a, b) / 2 == r;
        XorBit(a / 2, b / 2, k - 1);
      }
    }
  }

  /** `1 << i` has bit `i` set and no other. */
  lemma {:induction false} Pow2Bit(i: nat, k: nat)
    ensures Bit(Pow2(i), k) <==> k == i
  {
    if i == 0 {
      if k > 0 {
        ZeroBit(k - 1);
      }
    } else if k > 0 {
      Pow2Bit(i - 1, k - 1);
    }
  }

  /** Below `1 << n`, no bit at `n` or above is set. */
  lemma {:induction false} BitsBelow(m: nat, n: nat)
    requires m < Pow2(n)
    ensures forall k: nat :: n <= k ==> !Bit(m, k)
  {
    if n == 0 {
      forall k: nat ensures !Bit(m, k) {
        ZeroBit(k);
      }
    } else {
      BitsBelow(m / 2, n - 1);
      forall k: nat | n <= k ensures !Bit(m, k) {
        assert Bit(m, k) == Bit(m / 2, k - 1);
      }
    }
  }

  /** With no bit at `n` or above set, the number is below `1 << n`. */
  lemma {:induction false} BelowOfBits(m: nat, n: nat)
    requires forall k: nat :: n <= k ==> !Bit(m, k)
    ensures m < Pow2(n)
  {
    if n == 0 {
      forall k: nat ensures Bit(m, k) == Bit(0, k) {
        ZeroBit(k);
      }
      BitsEqual(m, 0);
    } else {
      forall k: nat | n - 1 <= k ensures !Bit(m / 2, k) {
        assert Bit(m, k + 1) == Bit(m / 2, k);
      }
      BelowOfBits(m / 2, n - 1);
    }
  }

  /** `^` of two numbers below `1 << n` stays below it. */
  lemma XorBound(a: nat, b: nat, n: nat)
    requires a < Pow2(n) && b < Pow2(n)
    ensures Xor(a, b) < Pow2(n)
  {
    BitsBelow(a, n);
    BitsBelow(b, n);
    forall k: nat | n <= k ensures !Bit(Xor(a, b), k) {
      XorBit(a, b, k);
    }
    BelowOfBits(Xor(a, b), n);
  }

  /** Numbers below `bound`, each counted once, number at most `bound`. */
  lemma {:induction false} CardBelow(s: set<nat>, bound: nat)
    requires forall v :: v in s ==> v < bound
    ensures |s| <= bound
  {
    if bound > 0 {
      var rest := s - {bound - 1};
      CardBelow(rest, bound - 1);
      assert s <= rest + {bound - 1};
    }
  }
}
