// Junction boxes in 3-d space and the squared distance between them.
module Points {

  /** A junction box position. */
  datatype JunctionBox = JunctionBox(x: int, y: int, z: int)

  /** The largest `int64`: the sentinel a non-full neighbour buffer reports. */
  const MaxInt64: int := 0x7fff_ffff_ffff_ffff

  /** `d*d`, by the sum of the first odd numbers, so that no product is in sight of the
      distance proofs; `SquareIsProduct` ties it to the product. */
  function Square(d: int): (s: int)
    ensures s >= 0 && (s == 0 <==> d == 0)
    decreases if d < 0 then 1 - d else d
  {
    if d < 0 then Square(-d) else if d == 0 then 0 else Square(d - 1) + 2 * d - 1
  }

  lemma {:induction false} SquareIsProduct(d: int)
    ensures Square(d) == d * d
    decreases if d < 0 then 1 - d else d
  {
    if d < 0 {
      SquareIsProduct(-d);
      assert (-d) * (-d) == d * d;
    } else if d > 0 {
      SquareIsProduct(d - 1);
      assert Square(d) == Square(d - 1) + 2 * d - 1;
      ProductStep(d);
    }
  }

  lemma ProductStep(d: int)
    ensures (d - 1) * (d - 1) + 2 * d - 1 == d * d
  {
  }

  /** The distance as the Go code computes it, with products. */
  lemma SquaresAsProducts(a: JunctionBox, b: JunctionBox)
    ensures DistSq(a, b) ==
      (a.x - b.x) * (a.x - b.x) + (a.y - b.y) * (a.y - b.y) + (a.z - b.z) * (a.z - b.z)
  {
    SquareIsProduct(a.x - b.x);
    SquareIsProduct(a.y - b.y);
    SquareIsProduct(a.z - b.z);
  }

  /** The squared Euclidean distance `dx*dx + dy*dy + dz*dz`. */
  function DistSq(a: JunctionBox, b: JunctionBox): (d: int)
    ensures d >= 0
    ensures d == 0 <==> a == b
  {
    Square(a.x - b.x) + Square(a.y - b.y) + Square(a.z - b.z)
  }

  lemma DistSqSymmetric(a: JunctionBox, b: JunctionBox)
    ensures DistSq(a, b) == DistSq(b, a)
  {
    SquareFlip(a.x, b.x);
    SquareFlip(a.y, b.y);
    SquareFlip(a.z, b.z);
  }

  /** `getAxis`: 0 is X, 1 is Y, anything else Z. */
  function GetAxis(p: JunctionBox, axis: int): int
  {
    if axis == 0 then p.x else if axis == 1 then p.y else p.z
  }

  /** The gap along any one axis never exceeds the distance: the fact that lets a
      k-d search skip the far side of a splitting plane. */
  lemma AxisGapBound(a: JunctionBox, b: JunctionBox, axis: int)
    ensures Square(GetAxis(a, axis) - GetAxis(b, axis)) <= DistSq(a, b)
  {
  }

  /** A point beyond the plane through `v` lies at least the plane's distance away. */
  lemma PlaneBound(q: JunctionBox, p: JunctionBox, axis: int, v: int)
    requires GetAxis(q, axis) < v <= GetAxis(p, axis) || GetAxis(p, axis) <= v <= GetAxis(q, axis)
    ensures Square(GetAxis(q, axis) - v) <= DistSq(q, p)
  {
    AxisGapBound(q, p, axis);
    var a, b := GetAxis(q, axis), GetAxis(p, axis);
    if a < v {
      MulMonotone(v - a, b - a);
      SquareFlip(a, v);
      SquareFlip(a, b);
    } else {
      MulMonotone(a - v, a - b);
    }
  }

  lemma SquareFlip(a: int, b: int)
    ensures Square(a - b) == Square(b - a)
  {
  }

  /** Squares grow with the distance from zero. */
  lemma {:induction false} MulMonotone(s: int, t: int)
    requires 0 <= s <= t
    ensures Square(s) <= Square(t)
    decreases t - s
  {
    if s < t {
      MulMonotone(s, t - 1);
    }
  }
}
