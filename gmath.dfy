/** Vector and rectangle arithmetic of the engine (Util/GMath.h).

    `double` and `float` are modelled as `real`: the model reasons about the exact
    values the code computes, without rounding. IEEE infinities, which the sweep code
    uses as entry and exit times on an axis without motion, are the `ExtReal`
    datatype. `sqrt` has no definition here: every operation that needs it takes it
    as a parameter and nothing is assumed about it unless a lemma says so. */
module GMath {

  // ---------------------------------------------------------------------------
  // Extended reals: a double that may be -INFINITY or +INFINITY
  // ---------------------------------------------------------------------------

  datatype ExtReal = NegInf | Fin(v: real) | PosInf {

    /** `<` on doubles, infinities included. */
    predicate Lt(o: ExtReal) {
      match (this, o)
      case (NegInf, NegInf) => false
      case (NegInf, _) => true
      case (Fin(a), Fin(b)) => a < b
      case (Fin(_), PosInf) => true
      case (_, _) => false
    }

    predicate Le(o: ExtReal) {
      Lt(o) || this == o
    }
  }

  /** `std::max` on doubles: returns the first argument unless it is less than the second. */
  function EMax(a: ExtReal, b: ExtReal): ExtReal {
    if a.Lt(b) then b else a
  }

  /** `std::min` on doubles: returns the first argument unless the second is less than it. */
  function EMin(a: ExtReal, b: ExtReal): ExtReal {
    if b.Lt(a) then b else a
  }

  lemma LtIsStrictTotalOrder(a: ExtReal, b: ExtReal, c: ExtReal)
    ensures !a.Lt(a)
    ensures a.Lt(b) ==> !b.Lt(a)
    ensures a.Lt(b) && b.Lt(c) ==> a.Lt(c)
    ensures a.Lt(b) || a == b || b.Lt(a)
  {
  }

  lemma EMaxEMinBounds(a: ExtReal, b: ExtReal)
    ensures a.Le(EMax(a, b)) && b.Le(EMax(a, b))
    ensures EMax(a, b) == a || EMax(a, b) == b
    ensures EMin(a, b).Le(a) && EMin(a, b).Le(b)
    ensures EMin(a, b) == a || EMin(a, b) == b
  {
  }

  // ---------------------------------------------------------------------------
  // Vector2 / Vector3
  // ---------------------------------------------------------------------------

  /** Vector2d. The compound operators `+=`, `-=`, `*=` and `/=` update a value in
      place; on a value type they are the reassignment `v := v.Add(w)` and so on. */
  datatype Vec2 = Vec2(x: real, y: real) {
    function Add(o: Vec2): Vec2 { Vec2(x + o.x, y + o.y) }
    function Sub(o: Vec2): Vec2 { Vec2(x - o.x, y - o.y) }
    function Scale(s: real): Vec2 { Vec2(x * s, y * s) }
    function Neg(): Vec2 { Vec2(-x, -y) }
    function Dot(o: Vec2): real { x * o.x + y * o.y }
    function LengthSquared(): real { x * x + y * y }
  }

  const Zero2 := Vec2(0.0, 0.0)

  /** `operator+` and `operator-` undo each other, subtracting is adding the
      negation, negating is scaling by -1, and addition commutes. */
  lemma AddSubInverse(v: Vec2, w: Vec2)
    ensures v.Add(w).Sub(w) == v && v.Sub(w).Add(w) == v
    ensures v.Sub(w) == v.Add(w.Neg())
    ensures v.Neg() == v.Scale(-1.0)
    ensures v.Add(w) == w.Add(v)
  {
  }

  /** `Dot` is symmetric and linear in each argument, and the squared length is the
      dot product of a vector with itself, never negative. */
  lemma DotBilinear(u: Vec2, v: Vec2, w: Vec2, k: real)
    ensures u.Dot(v) == v.Dot(u)
    ensures u.Add(v).Dot(w) == u.Dot(w) + v.Dot(w)
    ensures u.Scale(k).Dot(v) == k * u.Dot(v)
    ensures u.LengthSquared() == u.Dot(u) && u.LengthSquared() >= 0.0
  {
  }

  /** `Vector2::Length`: the square root of the squared length. */
  function Length(v: Vec2, sqrt: real -> real): real {
    sqrt(v.LengthSquared())
  }

  /** `Vector2::Normalized`: the zero vector when the length is 0, else v / length. */
  function Normalized(v: Vec2, sqrt: real -> real): (r: Vec2)
    ensures Length(v, sqrt) == 0.0 ==> r == Zero2
    ensures Length(v, sqrt) != 0.0 ==> r.Scale(Length(v, sqrt)) == v
  {
    var len := Length(v, sqrt);
    if len == 0.0 then Zero2 else Vec2(v.x / len, v.y / len)
  }

  /** When `sqrt` is positive on positive numbers, a vector of positive squared length
      has a positive length, and normalising it scales it by the reciprocal of that
      length, a positive factor; so projections onto it keep their order. */
  lemma NormalizedIsPositiveMultiple(v: Vec2, sqrt: real -> real)
    requires forall t: real :: t > 0.0 ==> sqrt(t) > 0.0
    requires v.LengthSquared() > 0.0
    ensures Length(v, sqrt) > 0.0
    ensures Normalized(v, sqrt) == v.Scale(1.0 / Length(v, sqrt))
  {
    var sq := v.LengthSquared();
    assert sqrt(sq) > 0.0;
    var len := Length(v, sqrt);
    assert len == sqrt(sq);
    assert v.x / len == v.x * (1.0 / len);
    assert v.y / len == v.y * (1.0 / len);
  }

  /** Projections onto a positive multiple of an axis keep their order. */
  lemma ScaledDotMonotone(p: Vec2, q: Vec2, axis: Vec2, k: real)
    requires k > 0.0
    ensures p.Dot(axis) < q.Dot(axis) <==> p.Dot(axis.Scale(k)) < q.Dot(axis.Scale(k))
  {
    assert p.Dot(axis.Scale(k)) == p.Dot(axis) * k;
    assert q.Dot(axis.Scale(k)) == q.Dot(axis) * k;
    if p.Dot(axis) < q.Dot(axis) {
      MulMonotone(p.Dot(axis), q.Dot(axis), k);
    }
    if q.Dot(axis) <= p.Dot(axis) {
      MulMonotone(q.Dot(axis), p.Dot(axis), k);
    }
  }

  datatype Vec3 = Vec3(x: real, y: real, z: real)

  // ---------------------------------------------------------------------------
  // MathUtils::Clamp and MathUtils::Wrap
  // ---------------------------------------------------------------------------

  /** `MathUtils::Clamp`: min below the range, max above it, the value otherwise. */
  function Clamp(value: real, min: real, max: real): (r: real)
    ensures value < min ==> r == min
    ensures min <= value && value > max ==> r == max
    ensures min <= value <= max ==> r == value
    ensures min <= max ==> min <= r <= max
  {
    if value < min then min else if value > max then max else value
  }

  lemma ClampIdempotent(value: real, min: real, max: real)
    requires min <= max
    ensures Clamp(Clamp(value, min, max), min, max) == Clamp(value, min, max)
  {
  }

  /** The value `Wrap` computes, in closed form: the representative of `value` modulo
      `max - min` in `[min, max)`, or `min` for an empty or inverted range. */
  function WrapSpec(value: real, min: real, max: real): real {
    var range := max - min;
    if range <= 0.0 then min
    else value - ((value - min) / range).Floor as real * range
  }

  lemma MulMonotone(a: real, b: real, c: real)
    requires a <= b && c > 0.0
    ensures a * c <= b * c
    ensures a < b ==> a * c < b * c
  {
  }

  lemma DivMul(a: real, d: real)
    requires d > 0.0
    ensures a / d * d == a
    ensures (a * d) / d == a
  {
  }

  /** Dividing after adding k times the divisor adds k to the quotient. */
  lemma DivAddMultiple(a: real, k: real, d: real)
    requires d > 0.0
    ensures (a + k * d) / d == a / d + k
  {
    var q := a / d;
    DivMul(a, d);
    assert (q + k) * d == a + k * d;
    DivMul(q + k, d);
  }

  lemma DivSubMultiple(a: real, k: real, d: real)
    requires d > 0.0
    ensures (a - k * d) / d == a / d - k
  {
    var q := a / d;
    DivMul(a, d);
    assert (q - k) * d == a - k * d;
    DivMul(q - k, d);
  }

  lemma DivBounds(a: real, d: real)
    requires d > 0.0
    ensures a > 0.0 ==> a / d > 0.0
    ensures a >= d ==> a / d >= 1.0
    ensures a < d ==> a / d < 1.0
    ensures a >= 0.0 ==> a / d >= 0.0
  {
    var q := a / d;
    DivMul(a, d);
    assert q * d == a;
    assert 1.0 * d == d && 0.0 * d == 0.0;
    if q < 1.0 {
      MulMonotone(q, 1.0, d);
      assert a < d;
    }
    if q >= 1.0 {
      MulMonotone(1.0, q, d);
      assert d <= a;
    }
    if q < 0.0 {
      MulMonotone(q, 0.0, d);
      assert a < 0.0;
    }
    if q <= 0.0 {
      MulMonotone(q, 0.0, d);
      assert a <= 0.0;
    }
  }

  /** A quotient in `[0, 1)` has its numerator in `[0, d)`. */
  lemma NumeratorBounds(a: real, d: real)
    requires d > 0.0 && 0.0 <= a / d < 1.0
    ensures 0.0 <= a < d
  {
    DivMul(a, d);
    assert 0.0 <= a / d * d < d by {
      MulMonotone(0.0, a / d, d);
      MulMonotone(a / d, 1.0, d);
    }
  }

  /** Taking the divisor off the numerator takes one off the quotient's floor, which is
      non-negative for a non-negative numerator. */
  lemma FloorStep(a: real, d: real)
    requires d > 0.0
    ensures ((a - d) / d).Floor == (a / d).Floor - 1
    ensures a >= 0.0 ==> (a / d).Floor >= 0
  {
    DivSubMultiple(a, 1.0, d);
    assert a - 1.0 * d == a - d;
    FloorUnique((a - d) / d, (a / d).Floor - 1);
    DivBounds(a, d);
  }

  lemma FloorUnique(x: real, n: int)
    requires n as real <= x < n as real + 1.0
    ensures x.Floor == n
  {
  }

  /** A value that lies a whole number `k` of ranges away from a representative `r`
      of `[min, max)` wraps to `r`. */
  lemma {:induction false} WrapSpecOfShifted(value: real, r: real, k: int, min: real, max: real)
    requires max - min > 0.0 && min <= r < max
    requires value == r + k as real * (max - min)
    ensures WrapSpec(value, min, max) == r
  {
    var range := max - min;
    DivAddMultiple(r - min, k as real, range);
    assert value - min == (r - min) + k as real * range;
    var q := (value - min) / range;
    assert q == (r - min) / range + k as real;
    DivBounds(r - min, range);
    FloorUnique(q, k);
    assert q.Floor == k;
    assert WrapSpec(value, min, max) == value - k as real * range;
  }

  /** `WrapSpec` lands in `[min, max)` for a non-empty range. */
  lemma {:induction false} WrapSpecInRange(value: real, min: real, max: real)
    requires max - min > 0.0
    ensures min <= WrapSpec(value, min, max) < max
  {
    var range := max - min;
    var q := (value - min) / range;
    var f := q.Floor;
    assert f as real <= q < f as real + 1.0;
    var a := value - min - f as real * range;
    DivSubMultiple(value - min, f as real, range);
    assert a / range == q - f as real;
    NumeratorBounds(a, range);
    assert 0.0 <= a < range;
    assert WrapSpec(value, min, max) == value - f as real * range;
  }

  /** Values already in `[min, max)` are left alone, and shifting by the range does not
      change the result: `WrapSpec` is reduction modulo the range. */
  lemma {:induction false} WrapSpecIsModulo(value: real, min: real, max: real)
    requires max - min > 0.0
    ensures min <= value < max ==> WrapSpec(value, min, max) == value
    ensures WrapSpec(value + (max - min), min, max) == WrapSpec(value, min, max)
  {
    if min <= value < max {
      WrapSpecOfShifted(value, value, 0, min, max);
    }
    var r := WrapSpec(value, min, max);
    var f := ((value - min) / (max - min)).Floor;
    WrapSpecInRange(value, min, max);
    assert value == r + f as real * (max - min);
    assert (f + 1) as real * (max - min) == f as real * (max - min) + (max - min);
    assert value + (max - min) == r + (f + 1) as real * (max - min);
    WrapSpecOfShifted(value + (max - min), r, f + 1, min, max);
  }

  /** One step of Wrap's first loop: adding the range counts one more range and takes
      one off the number of whole ranges still below min. */
  lemma WrapUpStep(value: real, r: real, k: int, min: real, range: real)
    requires range > 0.0 && r == value + k as real * range
    ensures r + range == value + (k + 1) as real * range
    ensures ((min - (r + range)) / range).Floor == ((min - r) / range).Floor - 1
    ensures r < min ==> ((min - r) / range).Floor >= 0
  {
    assert (k + 1) as real * range == k as real * range + range;
    assert min - (r + range) == (min - r) - range;
    FloorStep(min - r, range);
  }

  /** One step of Wrap's second loop. */
  lemma WrapDownStep(value: real, r: real, k: int, min: real, range: real)
    requires range > 0.0 && r == value + k as real * range
    ensures r - range == value + (k - 1) as real * range
    ensures ((r - range - min) / range).Floor == ((r - min) / range).Floor - 1
    ensures r >= min ==> ((r - min) / range).Floor >= 0
  {
    assert (k - 1) as real * range == k as real * range - range;
    assert r - range - min == (r - min) - range;
    FloorStep(r - min, range);
  }

  /** `MathUtils::Wrap`: returns min when the range is empty or inverted; otherwise adds
      the range while the value is below min, then subtracts it while the value is at
      or above max. */
  method Wrap(value: real, min: real, max: real) returns (r: real)
    ensures max - min > 0.0 ==> min <= r < max
    ensures r == WrapSpec(value, min, max)
  {
    var range := max - min;
    if range <= 0.0 {
      return min;
    }
    r := value;
    ghost var k: int := 0;
    while r < min
      invariant r == value + k as real * range
      decreases ((min - r) / range).Floor
    {
      WrapUpStep(value, r, k, min, range);
      r := r + range;
      k := k + 1;
    }
    while r >= max
      invariant r >= min
      invariant r == value + k as real * range
      decreases ((r - min) / range).Floor
    {
      WrapDownStep(value, r, k, min, range);
      r := r - range;
      k := k - 1;
    }
    WrapSpecOfShifted(value, r, -k, min, max);
  }

  // ---------------------------------------------------------------------------
  // Rect2d
  // ---------------------------------------------------------------------------

  datatype Rect2 = Rect2(x: real, y: real, width: real, height: real) {
    function Left(): real { x }
    function Right(): real { x + width }
    function Top(): real { y }
    function Bottom(): real { y + height }
    function Min(): Vec2 { Vec2(x, y) }
    function Max(): Vec2 { Vec2(x + width, y + height) }

    /** Inclusive on all four edges. */
    predicate Contains(p: Vec2) {
      p.x >= x && p.x <= x + width && p.y >= y && p.y <= y + height
    }

    /** True unless one rectangle lies strictly beside, above or below the other. */
    predicate Intersects(o: Rect2) {
      !(x > o.x + o.width || x + width < o.x || y > o.y + o.height || y + height < o.y)
    }

    /** The common part of two rectangles, or the zero rectangle when an overlap
        extent is negative. */
    function Intersection(o: Rect2): (r: Rect2)
      ensures OverlapX(this, o) < 0.0 || OverlapY(this, o) < 0.0 ==> r == Rect2(0.0, 0.0, 0.0, 0.0)
      ensures OverlapX(this, o) >= 0.0 && OverlapY(this, o) >= 0.0 ==>
        IsWithin(r, this) && IsWithin(r, o) && r.width >= 0.0 && r.height >= 0.0
    {
      var nwidth := OverlapX(this, o);
      var nheight := OverlapY(this, o);
      if nwidth < 0.0 || nheight < 0.0 then Rect2(0.0, 0.0, 0.0, 0.0)
      else Rect2(RMax(x, o.x), RMax(y, o.y), nwidth, nheight)
    }

    /** As written: (x + width) / 2 and (y + height) / 2, not x + width / 2. */
    function Center(): Vec2 { Vec2((x + width) / 2.0, (y + height) / 2.0) }
    function CenterX(): real { (x + width) / 2.0 }
    function CenterY(): real { (y + height) / 2.0 }

    function Translated(v: Vec2): (r: Rect2)
      ensures r.width == width && r.height == height
      ensures forall p: Vec2 {:trigger r.Contains(p)} :: r.Contains(p) <==> Contains(p.Sub(v))
    {
      Rect2(x + v.x, y + v.y, width, height)
    }

    function Expanded(k: real): (r: Rect2)
      ensures r.Left() == Left() - k && r.Right() == Right() + k
      ensures r.Top() == Top() - k && r.Bottom() == Bottom() + k
    {
      Rect2(Left() - k, Top() - k, width + 2.0 * k, height + 2.0 * k)
    }

    /** Penetration along the axis of least overlap, or (0,0) when the rectangles do
        not overlap with positive extent on both axes. */
    function GetOverlap(o: Rect2): (r: Vec2)
      ensures OverlapX(this, o) <= 0.0 || OverlapY(this, o) <= 0.0 ==> r == Zero2
      ensures OverlapX(this, o) > 0.0 && OverlapY(this, o) > 0.0 ==>
        (r.x != 0.0) != (r.y != 0.0)
      ensures OverlapX(this, o) > 0.0 && OverlapY(this, o) > 0.0 && r.x != 0.0 ==>
        OverlapX(this, o) < OverlapY(this, o) && Abs(r.x) == OverlapX(this, o)
      ensures OverlapX(this, o) > 0.0 && OverlapY(this, o) > 0.0 && r.y != 0.0 ==>
        OverlapY(this, o) <= OverlapX(this, o) && Abs(r.y) == OverlapY(this, o)
      ensures OverlapX(this, o) > 0.0 && OverlapY(this, o) > 0.0 && r.x != 0.0 ==>
        (r.x < 0.0 <==> Center().x < o.Center().x)
      ensures OverlapX(this, o) > 0.0 && OverlapY(this, o) > 0.0 && r.y != 0.0 ==>
        (r.y < 0.0 <==> Center().y < o.Center().y)
    {
      var dx := RMin(Right(), o.Right()) - RMax(Left(), o.Left());
      var dy := RMin(Bottom(), o.Bottom()) - RMax(Top(), o.Top());
      if dx <= 0.0 || dy <= 0.0 then Zero2
      else if dx < dy then Vec2(if Center().x < o.Center().x then -dx else dx, 0.0)
      else Vec2(0.0, if Center().y < o.Center().y then -dy else dy)
    }
  }

  function RMax(a: real, b: real): real { if a < b then b else a }
  function RMin(a: real, b: real): real { if b < a then b else a }
  function Abs(a: real): real { if a < 0.0 then -a else a }

  /** Overlap extent of two rectangles on the x axis (negative when apart). */
  function OverlapX(a: Rect2, b: Rect2): real {
    RMin(a.Right(), b.Right()) - RMax(a.Left(), b.Left())
  }

  function OverlapY(a: Rect2, b: Rect2): real {
    RMin(a.Bottom(), b.Bottom()) - RMax(a.Top(), b.Top())
  }

  /** `inner` lies inside `outer`, edges included. */
  predicate IsWithin(inner: Rect2, outer: Rect2) {
    outer.Left() <= inner.Left() && inner.Right() <= outer.Right() &&
    outer.Top() <= inner.Top() && inner.Bottom() <= outer.Bottom()
  }

  /** The intersection is the largest common part: every point of both rectangles is
      in it. */
  lemma IntersectionHoldsCommonPoints(a: Rect2, b: Rect2, p: Vec2)
    requires a.Contains(p) && b.Contains(p)
    ensures a.Intersection(b).Contains(p)
  {
    RMaxLeast(a.x, b.x, p.x);
    RMaxLeast(a.y, b.y, p.y);
    RMinGreatest(a.x + a.width, b.x + b.width, p.x);
    RMinGreatest(a.y + a.height, b.y + b.height, p.y);
  }

  lemma RMaxLeast(a: real, b: real, c: real)
    requires a <= c && b <= c
    ensures RMax(a, b) <= c
  {
  }

  lemma RMinGreatest(a: real, b: real, c: real)
    requires c <= a && c <= b
    ensures c <= RMin(a, b)
  {
  }

  lemma ContainsCorners(r: Rect2)
    requires r.width >= 0.0 && r.height >= 0.0
    ensures r.Contains(r.Min()) && r.Contains(r.Max())
    ensures r.Contains(Vec2(r.Right(), r.Top())) && r.Contains(Vec2(r.Left(), r.Bottom()))
  {
  }

  lemma IntersectsSymmetric(a: Rect2, b: Rect2)
    ensures a.Intersects(b) <==> b.Intersects(a)
  {
  }

  /** Any common point makes two rectangles intersect. */
  lemma CommonPointIntersects(a: Rect2, b: Rect2, p: Vec2)
    requires a.Contains(p) && b.Contains(p)
    ensures a.Intersects(b)
  {
  }

  /** For rectangles of non-negative size, intersecting means sharing a point: the
      corner (max of the lefts, max of the tops) lies in both. */
  lemma IntersectsHasCommonPoint(a: Rect2, b: Rect2)
    requires a.width >= 0.0 && a.height >= 0.0 && b.width >= 0.0 && b.height >= 0.0
    ensures a.Intersects(b) <==>
      var p := Vec2(RMax(a.x, b.x), RMax(a.y, b.y)); a.Contains(p) && b.Contains(p)
  {
  }

  /** `Expanded(k)` is the Minkowski sum of the rectangle with the square of half-side
      k: a point is in it iff some point of the rectangle is within k on both axes. */
  lemma ExpandedIsMinkowskiSquare(r: Rect2, k: real, p: Vec2)
    requires r.width >= 0.0 && r.height >= 0.0 && k >= 0.0
    ensures r.Expanded(k).Contains(p) <==>
      var q := Vec2(Clamp(p.x, r.Left(), r.Right()), Clamp(p.y, r.Top(), r.Bottom()));
      r.Contains(q) && Abs(p.x - q.x) <= k && Abs(p.y - q.y) <= k
  {
  }

  lemma NearPointInExpanded(r: Rect2, k: real, p: Vec2, q: Vec2)
    requires r.Contains(q) && Abs(p.x - q.x) <= k && Abs(p.y - q.y) <= k
    ensures r.Expanded(k).Contains(p)
  {
  }

  /** The centre as written equals the geometric midpoint only for a rectangle whose
      left edge is at x = 0. */
  lemma CenterIsMidpointOnlyAtOrigin(r: Rect2)
    ensures r.CenterX() == r.Left() + r.width / 2.0 <==> r.x == 0.0
    ensures r.CenterY() == r.Top() + r.height / 2.0 <==> r.y == 0.0
    ensures r.Center() == Vec2(r.CenterX(), r.CenterY())
  {
  }
}
