/** The pairwise sweep tests of the collision core (Util/Physics/RectSwept.h).

    Each test takes two shapes, their positions and their displacements over the
    remaining time, and answers whether and when (as a fraction of that time) they
    meet. Times are exact reals; an axis without relative motion gets the IEEE
    infinities of the source as `ExtReal` values. `sqrt` is a parameter, as in
    `GMath`. The `dt` argument every test takes is never read, so it is omitted. */
module Sweeps {
  import opened Wrappers
  import opened GMath
  import opened Shapes

  /** `SweepResult`: the default is no hit, time 1, normal (0, 0), not a trigger. */
  datatype SweepResult = SweepResult(hit: bool, toi: real, normal: Vec2, isTrigger: bool)

  const NoHit := SweepResult(false, 1.0, Zero2, false)

  /** The four normals the slab test can report. */
  predicate AxisNormal(n: Vec2) {
    n == Vec2(1.0, 0.0) || n == Vec2(-1.0, 0.0) || n == Vec2(0.0, 1.0) || n == Vec2(0.0, -1.0)
  }

  // ---------------------------------------------------------------------------
  // Meeting, the property the sweeps decide
  // ---------------------------------------------------------------------------

  /** On one axis: the interval [aMin, aMax] moved by d meets the closed interval
      [bMin, bMax]. */
  predicate AxisMeet(aMin: real, aMax: real, bMin: real, bMax: real, d: real) {
    !(aMin + d > bMax || aMax + d < bMin)
  }

  /** Rectangle a, moved for time t at velocity v relative to b, touches or overlaps
      b (the closed rectangles of `Rect2::Intersects`). */
  predicate Touch(a: Rect2, b: Rect2, v: Vec2, t: real) {
    a.Translated(v.Scale(t)).Intersects(b)
  }

  lemma TouchAxes(a: Rect2, b: Rect2, v: Vec2, t: real)
    ensures Touch(a, b, v, t) <==>
      AxisMeet(a.Left(), a.Right(), b.Left(), b.Right(), v.x * t) &&
      AxisMeet(a.Top(), a.Bottom(), b.Top(), b.Bottom(), v.y * t)
  {
  }

  /** Both rectangles moving at their own velocities meet exactly when a, moving at
      the difference of the velocities, meets b standing still. */
  lemma TouchRelative(a: Rect2, va: Vec2, b: Rect2, vb: Vec2, t: real)
    ensures a.Translated(va.Scale(t)).Intersects(b.Translated(vb.Scale(t))) <==>
      Touch(a, b, va.Sub(vb), t)
  {
    assert va.Sub(vb).Scale(t).x == va.x * t - vb.x * t;
    assert va.Sub(vb).Scale(t).y == va.y * t - vb.y * t;
  }

  // ---------------------------------------------------------------------------
  // Division by a nonzero velocity
  // ---------------------------------------------------------------------------

  /** Comparing a time with a quotient n / v is comparing the distance covered with
      n; the direction flips for a negative v. */
  lemma QuotientCompare(n: real, v: real, t: real)
    requires v != 0.0
    ensures v > 0.0 ==> (n / v <= t <==> n <= v * t) && (t <= n / v <==> v * t <= n)
    ensures v < 0.0 ==> (n / v <= t <==> v * t <= n) && (t <= n / v <==> n <= v * t)
  {
    var q := n / v;
    assert q * v == n;
    if v > 0.0 {
      if q <= t { MulMonotone(q, t, v); }
      if t < q { MulMonotone(t, q, v); }
      if t <= q { MulMonotone(t, q, v); }
      if q < t { MulMonotone(q, t, v); }
    } else {
      var w := -v;
      assert q * w == -n;
      if q <= t { MulMonotone(q, t, w); }
      if t < q { MulMonotone(t, q, w); }
      if t <= q { MulMonotone(t, q, w); }
      if q < t { MulMonotone(q, t, w); }
    }
  }

  // ---------------------------------------------------------------------------
  // SweptAABB
  // ---------------------------------------------------------------------------

  /** One axis of the slab test: the gaps to close (`xInvEntry`, `xInvExit`) and the
      times at which they are closed. */
  datatype AxisTimes = AxisTimes(invEntry: real, invExit: real, entry: ExtReal, exit: ExtReal)

  /** The gaps: for positive relative velocity from a's far side to b's near side and
      from a's near side to b's far side; otherwise (zero included) the mirror
      image. */
  function Gaps(aMin: real, aMax: real, bMin: real, bMax: real, v: real): (real, real) {
    if v > 0.0 then (bMin - aMax, bMax - aMin) else (bMax - aMin, bMin - aMax)
  }

  /** One axis as written: without relative motion the entry time is -INFINITY and the
      exit time +INFINITY, whatever the gap. */
  function AxisAsWritten(aMin: real, aMax: real, bMin: real, bMax: real, v: real): (r: AxisTimes)
    ensures v == 0.0 ==> r.entry == NegInf && r.exit == PosInf
    ensures v != 0.0 ==> r.entry == Fin(r.invEntry / v) && r.exit == Fin(r.invExit / v)
    ensures (r.invEntry, r.invExit) == Gaps(aMin, aMax, bMin, bMax, v)
  {
    var (inEntry, inExit) := Gaps(aMin, aMax, bMin, bMax, v);
    AxisTimes(inEntry, inExit,
      if v == 0.0 then NegInf else Fin(inEntry / v),
      if v == 0.0 then PosInf else Fin(inExit / v))
  }

  /** One axis with the zero-velocity case fixed: infinite entry and exit times only
      when the projections already meet, an empty time interval otherwise. */
  function Axis(aMin: real, aMax: real, bMin: real, bMax: real, v: real): (r: AxisTimes)
    ensures (r.invEntry, r.invExit) == Gaps(aMin, aMax, bMin, bMax, v)
  {
    var (inEntry, inExit) := Gaps(aMin, aMax, bMin, bMax, v);
    if v != 0.0 then AxisTimes(inEntry, inExit, Fin(inEntry / v), Fin(inExit / v))
    else if AxisMeet(aMin, aMax, bMin, bMax, 0.0) then AxisTimes(inEntry, inExit, NegInf, PosInf)
    else AxisTimes(inEntry, inExit, PosInf, NegInf)
  }

  /** With relative motion on the axis, the correction changes nothing; without it,
      it changes the times only for projections that are apart. */
  lemma AxisAgrees(aMin: real, aMax: real, bMin: real, bMax: real, v: real)
    ensures v != 0.0 || AxisMeet(aMin, aMax, bMin, bMax, 0.0) <==>
      Axis(aMin, aMax, bMin, bMax, v) == AxisAsWritten(aMin, aMax, bMin, bMax, v)
  {
  }

  /** The corrected axis times are exactly the times at which the projections meet. */
  lemma AxisMeetsBetween(aMin: real, aMax: real, bMin: real, bMax: real, v: real, t: real)
    ensures var r := Axis(aMin, aMax, bMin, bMax, v);
      AxisMeet(aMin, aMax, bMin, bMax, v * t) <==> r.entry.Le(Fin(t)) && Fin(t).Le(r.exit)
  {
    if v != 0.0 {
      QuotientCompare(bMin - aMax, v, t);
      QuotientCompare(bMax - aMin, v, t);
    }
  }

  /** The decision shared by the slab tests (RectSwept.h:42-58): the latest entry
      and the earliest exit of the two axes decide, and the normal lies on the axis
      entered last. */
  function Slab(xa: AxisTimes, ya: AxisTimes): (r: SweepResult)
    ensures !r.hit ==> r == NoHit
    ensures r.hit <==>
      !EMin(xa.exit, ya.exit).Lt(EMax(xa.entry, ya.entry)) &&
      !(xa.entry.Lt(Fin(0.0)) && ya.entry.Lt(Fin(0.0))) &&
      !Fin(1.0).Lt(EMax(xa.entry, ya.entry))
    ensures r.hit ==> EMax(xa.entry, ya.entry) == Fin(r.toi) && 0.0 <= r.toi <= 1.0
    ensures r.hit ==> AxisNormal(r.normal) && !r.isTrigger
    ensures r.hit ==> (r.normal.y == 0.0 <==> ya.entry.Lt(xa.entry))
    ensures r.hit && r.normal.y == 0.0 ==> (r.normal.x == 1.0 <==> xa.invEntry < 0.0)
    ensures r.hit && r.normal.x == 0.0 ==> (r.normal.y == 1.0 <==> ya.invEntry < 0.0)
  {
    var entryTime := EMax(xa.entry, ya.entry);
    var exitTime := EMin(xa.exit, ya.exit);
    if exitTime.Lt(entryTime) || (xa.entry.Lt(Fin(0.0)) && ya.entry.Lt(Fin(0.0))) || Fin(1.0).Lt(entryTime) then
      NoHit
    else
      var toi := EMax(entryTime, Fin(0.0));
      assert toi.Fin?;
      var normal :=
        if ya.entry.Lt(xa.entry) then (if xa.invEntry < 0.0 then Vec2(1.0, 0.0) else Vec2(-1.0, 0.0))
        else (if ya.invEntry < 0.0 then Vec2(0.0, 1.0) else Vec2(0.0, -1.0));
      SweepResult(true, toi.v, normal, false)
  }

  /** `SweptAABB` as written (RectSwept.h:13-59): the slab test on the velocity of a
      relative to b, with `AxisAsWritten` on both axes. It differs from `SweptAABB`
      only on an axis without relative motion whose projections are apart
      (`SweptAABBAgrees`, `ZeroAxisFalseHit`). */
  function SweptAABBAsWritten(a: Rect2, va: Vec2, b: Rect2, vb: Vec2): (r: SweepResult)
    ensures !r.hit ==> r == NoHit
    ensures r.hit ==> 0.0 <= r.toi <= 1.0 && !r.isTrigger
    ensures va == vb ==> r == NoHit
  {
    var rel := va.Sub(vb);
    Slab(AxisAsWritten(a.Left(), a.Right(), b.Left(), b.Right(), rel.x),
         AxisAsWritten(a.Top(), a.Bottom(), b.Top(), b.Bottom(), rel.y))
  }

  /** `SweptAABB` with an axis without relative motion counted as meeting only when
      the projections on it already meet. */
  function SweptAABB(a: Rect2, va: Vec2, b: Rect2, vb: Vec2): (r: SweepResult)
    ensures !r.hit ==> r == NoHit
    ensures r.hit ==> 0.0 <= r.toi <= 1.0 && !r.isTrigger
  {
    var rel := va.Sub(vb);
    Slab(Axis(a.Left(), a.Right(), b.Left(), b.Right(), rel.x),
         Axis(a.Top(), a.Bottom(), b.Top(), b.Bottom(), rel.y))
  }

  /** Without relative motion the test as written never reports a hit, not even for
      rectangles that already overlap. */
  lemma StillNeverHits(a: Rect2, va: Vec2, b: Rect2, vb: Vec2)
    requires va == vb
    ensures SweptAABBAsWritten(a, va, b, vb) == NoHit
  {
  }

  /** The two versions differ only on an axis without relative motion whose
      projections are apart. */
  lemma SweptAABBAgrees(a: Rect2, va: Vec2, b: Rect2, vb: Vec2)
    requires va.x != vb.x && va.y != vb.y
    ensures SweptAABB(a, va, b, vb) == SweptAABBAsWritten(a, va, b, vb)
  {
    var rel := va.Sub(vb);
    AxisAgrees(a.Left(), a.Right(), b.Left(), b.Right(), rel.x);
    AxisAgrees(a.Top(), a.Bottom(), b.Top(), b.Bottom(), rel.y);
  }

  /** Time t lies in both axes' closed entry-to-exit intervals. */
  predicate Between(xa: AxisTimes, ya: AxisTimes, t: real) {
    xa.entry.Le(Fin(t)) && Fin(t).Le(xa.exit) && ya.entry.Le(Fin(t)) && Fin(t).Le(ya.exit)
  }

  /** What the slab decision means for the two time intervals: a hit is at the first
      common time, which lies in the step; a miss leaves no common time in the step
      other than, possibly, a run of them starting before it. */
  lemma SlabFirstCommonTime(xa: AxisTimes, ya: AxisTimes)
    ensures Slab(xa, ya).hit ==> Between(xa, ya, Slab(xa, ya).toi)
    ensures Slab(xa, ya).hit ==> forall t :: t < Slab(xa, ya).toi ==> !Between(xa, ya, t)
    ensures !Slab(xa, ya).hit ==> forall t :: 0.0 <= t <= 1.0 && Between(xa, ya, t) ==> Between(xa, ya, 0.0)
  {
    EMaxEMinBounds(xa.entry, ya.entry);
    EMaxEMinBounds(xa.exit, ya.exit);
    var entryTime := EMax(xa.entry, ya.entry);
    var exitTime := EMin(xa.exit, ya.exit);
    forall t | Between(xa, ya, t)
      ensures entryTime.Le(Fin(t)) && Fin(t).Le(exitTime)
    {
    }
  }

  /** The corrected axis times are the times the rectangles touch. */
  lemma TouchBetween(a: Rect2, va: Vec2, b: Rect2, vb: Vec2, t: real)
    ensures var rel := va.Sub(vb);
      Touch(a, b, rel, t) <==>
      Between(Axis(a.Left(), a.Right(), b.Left(), b.Right(), rel.x),
              Axis(a.Top(), a.Bottom(), b.Top(), b.Bottom(), rel.y), t)
  {
    var rel := va.Sub(vb);
    TouchAxes(a, b, rel, t);
    AxisMeetsBetween(a.Left(), a.Right(), b.Left(), b.Right(), rel.x, t);
    AxisMeetsBetween(a.Top(), a.Bottom(), b.Top(), b.Bottom(), rel.y, t);
  }

  /** The rectangles of the finding: a unit square at the origin moving down by 1
      and a still unit square at (10, 2), far to its side. The test as written
      reports a hit at the end of the step, yet the two never touch. */
  lemma ZeroAxisFalseHit()
    ensures SweptAABBAsWritten(Rect2(0.0, 0.0, 1.0, 1.0), Vec2(0.0, 1.0), Rect2(10.0, 2.0, 1.0, 1.0), Zero2)
      == SweepResult(true, 1.0, Vec2(0.0, -1.0), false)
    ensures forall t: real :: !Touch(Rect2(0.0, 0.0, 1.0, 1.0), Rect2(10.0, 2.0, 1.0, 1.0), Vec2(0.0, 1.0), t)
  {
    var xa := AxisAsWritten(0.0, 1.0, 10.0, 11.0, 0.0);
    var ya := AxisAsWritten(0.0, 1.0, 2.0, 3.0, 1.0);
    assert ya.entry == Fin(1.0) && ya.exit == Fin(3.0);
    assert Slab(xa, ya) == SweepResult(true, 1.0, Vec2(0.0, -1.0), false);
    ZeroAxisApart();
  }

  /** The two squares of `ZeroAxisFalseHit` never touch: on x they stay apart. */
  lemma ZeroAxisApart()
    ensures forall t: real :: !Touch(Rect2(0.0, 0.0, 1.0, 1.0), Rect2(10.0, 2.0, 1.0, 1.0), Vec2(0.0, 1.0), t)
  {
    forall t: real
      ensures !Touch(Rect2(0.0, 0.0, 1.0, 1.0), Rect2(10.0, 2.0, 1.0, 1.0), Vec2(0.0, 1.0), t)
    {
      TouchAxes(Rect2(0.0, 0.0, 1.0, 1.0), Rect2(10.0, 2.0, 1.0, 1.0), Vec2(0.0, 1.0), t);
      assert !AxisMeet(0.0, 1.0, 10.0, 11.0, 0.0 * t);
    }
  }

  /** The corrected slab test reports the first contact: on a hit the rectangles
      touch at `toi` and at no earlier time of the step; on a miss they do not touch
      during the step unless they already touched at its start. */
  lemma SweptAABBFirstContact(a: Rect2, va: Vec2, b: Rect2, vb: Vec2)
    ensures var r := SweptAABB(a, va, b, vb);
      r.hit ==> Touch(a, b, va.Sub(vb), r.toi)
    ensures var r := SweptAABB(a, va, b, vb);
      r.hit ==> forall t :: 0.0 <= t < r.toi ==> !Touch(a, b, va.Sub(vb), t)
    ensures !SweptAABB(a, va, b, vb).hit ==>
      forall t :: 0.0 <= t <= 1.0 && Touch(a, b, va.Sub(vb), t) ==> Touch(a, b, va.Sub(vb), 0.0)
  {
    var rel := va.Sub(vb);
    var xa := Axis(a.Left(), a.Right(), b.Left(), b.Right(), rel.x);
    var ya := Axis(a.Top(), a.Bottom(), b.Top(), b.Bottom(), rel.y);
    SlabFirstCommonTime(xa, ya);
    forall t: real
      ensures Touch(a, b, rel, t) <==> Between(xa, ya, t)
    {
      TouchBetween(a, va, b, vb, t);
    }
  }

  // ---------------------------------------------------------------------------
  // SweptRectCircle
  // ---------------------------------------------------------------------------

  /** The rectangle at its position, grown by the circle's radius on every side. */
  function GrownBox(rect: Shape, rectPos: Vec2, radius: real): Rect2
    requires rect.RectShape?
  {
    rect.bounds.Translated(rectPos).Expanded(radius)
  }

  /** The circle's centre as a rectangle of size zero. */
  function CentrePoint(circle: Shape, circlePos: Vec2): Rect2
    requires circle.CircleShape?
  {
    var c := circlePos.Add(circle.center);
    Rect2(c.x, c.y, 0.0, 0.0)
  }

  /** `SweptRectCircle` as written (RectSwept.h:62-78): the grown rectangle moves by
      circleDisp - rectDisp against the still centre, that is against the circle's
      motion; `ApproachingCircleMissed` shows the miss this causes, and
      `SweptRectCircle` is the corrected version. */
  function SweptRectCircleAsWritten(rect: Shape, rectPos: Vec2, rectDisp: Vec2,
                                    circle: Shape, circlePos: Vec2, circleDisp: Vec2): (r: SweepResult)
    requires rect.RectShape? && circle.CircleShape?
    ensures !r.hit ==> r == NoHit
    ensures r.hit ==> 0.0 <= r.toi <= 1.0 && !r.isTrigger
    ensures rectDisp == circleDisp ==> r == NoHit
  {
    var relDisp := circleDisp.Sub(rectDisp);
    SweptAABBAsWritten(GrownBox(rect, rectPos, circle.radius), relDisp, CentrePoint(circle, circlePos), Zero2)
  }

  /** `SweptRectCircle` with the rectangle moving by rectDisp - circleDisp relative
      to the centre, on the corrected slab test. */
  function SweptRectCircle(rect: Shape, rectPos: Vec2, rectDisp: Vec2,
                           circle: Shape, circlePos: Vec2, circleDisp: Vec2): (r: SweepResult)
    requires rect.RectShape? && circle.CircleShape?
    ensures !r.hit ==> r == NoHit
    ensures r.hit ==> 0.0 <= r.toi <= 1.0 && !r.isTrigger
  {
    var relDisp := rectDisp.Sub(circleDisp);
    SweptAABB(GrownBox(rect, rectPos, circle.radius), relDisp, CentrePoint(circle, circlePos), Zero2)
  }

  /** At time t of the step, the circle's centre lies in the grown rectangle, both
      having moved by their displacements times t: for a circle, the rectangle is
      within the radius of the centre on both axes. */
  predicate CentreInGrownBox(rect: Shape, rectPos: Vec2, rectDisp: Vec2,
                             circle: Shape, circlePos: Vec2, circleDisp: Vec2, t: real)
    requires rect.RectShape? && circle.CircleShape?
  {
    GrownBox(rect, rectPos, circle.radius).Translated(rectDisp.Scale(t))
      .Contains(circlePos.Add(circle.center).Add(circleDisp.Scale(t)))
  }

  /** The reduction is exact: the grown rectangle moving at the relative displacement
      touches the centre point exactly when, both moving, the centre is in the grown
      rectangle. */
  lemma TouchIsCentreInGrownBox(rect: Shape, rectPos: Vec2, rectDisp: Vec2,
                                circle: Shape, circlePos: Vec2, circleDisp: Vec2, t: real)
    requires rect.RectShape? && circle.CircleShape?
    ensures Touch(GrownBox(rect, rectPos, circle.radius), CentrePoint(circle, circlePos), rectDisp.Sub(circleDisp), t)
      <==> CentreInGrownBox(rect, rectPos, rectDisp, circle, circlePos, circleDisp, t)
  {
    var rel := rectDisp.Sub(circleDisp);
    assert rel.Scale(t).x == rectDisp.x * t - circleDisp.x * t;
    assert rel.Scale(t).y == rectDisp.y * t - circleDisp.y * t;
  }

  /** The corrected rectangle-circle test reports the first time of the step at which
      the centre is in the grown rectangle; a miss means it never is during the step,
      unless it already was at the start. */
  lemma SweptRectCircleFirstContact(rect: Shape, rectPos: Vec2, rectDisp: Vec2,
                                    circle: Shape, circlePos: Vec2, circleDisp: Vec2)
    requires rect.RectShape? && circle.CircleShape?
    ensures var r := SweptRectCircle(rect, rectPos, rectDisp, circle, circlePos, circleDisp);
      r.hit ==> 0.0 <= r.toi <= 1.0 && CentreInGrownBox(rect, rectPos, rectDisp, circle, circlePos, circleDisp, r.toi)
    ensures var r := SweptRectCircle(rect, rectPos, rectDisp, circle, circlePos, circleDisp);
      r.hit ==> forall t :: 0.0 <= t < r.toi ==> !CentreInGrownBox(rect, rectPos, rectDisp, circle, circlePos, circleDisp, t)
    ensures !SweptRectCircle(rect, rectPos, rectDisp, circle, circlePos, circleDisp).hit ==>
      forall t :: 0.0 <= t <= 1.0 && CentreInGrownBox(rect, rectPos, rectDisp, circle, circlePos, circleDisp, t) ==>
        CentreInGrownBox(rect, rectPos, rectDisp, circle, circlePos, circleDisp, 0.0)
  {
    var box := GrownBox(rect, rectPos, circle.radius);
    var point := CentrePoint(circle, circlePos);
    var rel := rectDisp.Sub(circleDisp);
    SweptAABBFirstContact(box, rel, point, Zero2);
    assert rel.Sub(Zero2) == rel;
    forall t: real
      ensures Touch(box, point, rel, t) <==> CentreInGrownBox(rect, rectPos, rectDisp, circle, circlePos, circleDisp, t)
    {
      TouchIsCentreInGrownBox(rect, rectPos, rectDisp, circle, circlePos, circleDisp, t);
    }
  }

  /** The input of the finding: a still unit square at the origin and a circle of
      radius 0.5 centred at (3, 0.5) moving left by 2. */
  const SquareShape := RectShape(Rect2(0.0, 0.0, 1.0, 1.0), 0.0)
  const SmallCircle := CircleShape(Zero2, 0.5)
  const CirclePos := Vec2(3.0, 0.5)
  const CircleDisp := Vec2(-2.0, 0.0)

  /** On that input the centre enters the grown square at three quarters of the
      step, yet the test as written reports no hit. */
  lemma ApproachingCircleMissed()
    ensures SweptRectCircleAsWritten(SquareShape, Zero2, Zero2, SmallCircle, CirclePos, CircleDisp) == NoHit
    ensures CentreInGrownBox(SquareShape, Zero2, Zero2, SmallCircle, CirclePos, CircleDisp, 0.75)
  {
    ApproachingWrittenMiss();
    ApproachingEnters();
  }

  lemma ApproachingWrittenMiss()
    ensures SweptRectCircleAsWritten(SquareShape, Zero2, Zero2, SmallCircle, CirclePos, CircleDisp) == NoHit
  {
    var box := GrownBox(SquareShape, Zero2, 0.5);
    var point := CentrePoint(SmallCircle, CirclePos);
    assert box == Rect2(-0.5, -0.5, 2.0, 2.0);
    assert point == Rect2(3.0, 0.5, 0.0, 0.0);
    assert CircleDisp.Sub(Zero2) == CircleDisp;
    var wx := AxisAsWritten(-0.5, 1.5, 3.0, 3.0, -2.0);
    var wy := AxisAsWritten(-0.5, 1.5, 0.5, 0.5, 0.0);
    assert SweptAABBAsWritten(box, CircleDisp, point, Zero2) == Slab(wx, wy);
    assert wx.entry == Fin(-1.75);
  }

  lemma ApproachingEnters()
    ensures CentreInGrownBox(SquareShape, Zero2, Zero2, SmallCircle, CirclePos, CircleDisp, 0.75)
  {
    var box := GrownBox(SquareShape, Zero2, 0.5);
    assert box == Rect2(-0.5, -0.5, 2.0, 2.0);
    assert Zero2.Scale(0.75) == Zero2 && box.Translated(Zero2) == box;
    assert CirclePos.Add(Zero2).Add(CircleDisp.Scale(0.75)) == Vec2(1.5, 0.5);
  }

  /** On the same input the corrected test reports a hit at three quarters of the
      step. */
  lemma ApproachingCircleCaught()
    ensures var r := SweptRectCircle(SquareShape, Zero2, Zero2, SmallCircle, CirclePos, CircleDisp);
      r.hit && r.toi == 0.75
  {
    ApproachingReduced();
    ApproachingSlab();
  }

  lemma ApproachingReduced()
    ensures SweptRectCircle(SquareShape, Zero2, Zero2, SmallCircle, CirclePos, CircleDisp)
      == SweptAABB(Rect2(-0.5, -0.5, 2.0, 2.0), Vec2(2.0, 0.0), Rect2(3.0, 0.5, 0.0, 0.0), Zero2)
  {
    assert GrownBox(SquareShape, Zero2, 0.5) == Rect2(-0.5, -0.5, 2.0, 2.0);
    assert CentrePoint(SmallCircle, CirclePos) == Rect2(3.0, 0.5, 0.0, 0.0);
    assert Zero2.Sub(CircleDisp) == Vec2(2.0, 0.0);
  }

  lemma ApproachingSlab()
    ensures var r := SweptAABB(Rect2(-0.5, -0.5, 2.0, 2.0), Vec2(2.0, 0.0), Rect2(3.0, 0.5, 0.0, 0.0), Zero2);
      r.hit && r.toi == 0.75
  {
    var fx := Axis(-0.5, 1.5, 3.0, 3.0, 2.0);
    var fy := Axis(-0.5, 1.5, 0.5, 0.5, 0.0);
    assert Vec2(2.0, 0.0).Sub(Zero2) == Vec2(2.0, 0.0);
    assert fx.entry == Fin(0.75) && fx.exit == Fin(1.75);
    assert fy.entry == NegInf && fy.exit == PosInf;
    SlabOneAxis(fx, fy);
  }

  /** An axis that meets at every time leaves the decision to the other axis. */
  lemma SlabOneAxis(xa: AxisTimes, ya: AxisTimes)
    requires xa.entry.Fin? && xa.exit.Fin? && 0.0 <= xa.entry.v <= xa.exit.v && xa.entry.v <= 1.0
    requires ya.entry == NegInf && ya.exit == PosInf
    ensures Slab(xa, ya).hit && Slab(xa, ya).toi == xa.entry.v
  {
    assert EMax(xa.entry, ya.entry) == xa.entry;
  }

  // ---------------------------------------------------------------------------
  // Separating axes
  // ---------------------------------------------------------------------------

  /** The vertices' projections onto the axis, in order. */
  function Projections(verts: seq<Vec2>, axis: Vec2): (r: seq<real>)
    ensures |r| == |verts| && forall k :: 0 <= k < |r| ==> r[k] == verts[k].Dot(axis)
  {
    seq(|verts|, k requires 0 <= k < |verts| => verts[k].Dot(axis))
  }

  /** Some value of pa is at least some value of pb, and the other way round: the
      closed ranges of the two lists meet. */
  predicate RangesMeet(pa: seq<real>, pb: seq<real>) {
    (exists i, j :: 0 <= i < |pa| && 0 <= j < |pb| && pa[i] >= pb[j]) &&
    (exists i, j :: 0 <= i < |pa| && 0 <= j < |pb| && pb[j] >= pa[i])
  }

  /** The closed intervals of the two vertex lists' projections onto the axis meet. */
  predicate ProjectionsMeet(vertsA: seq<Vec2>, vertsB: seq<Vec2>, axis: Vec2) {
    RangesMeet(Projections(vertsA, axis), Projections(vertsB, axis))
  }

  /** m is the least projection of the vertices onto the axis. */
  predicate LeastProjection(verts: seq<Vec2>, axis: Vec2, m: real) {
    (forall k :: 0 <= k < |verts| ==> m <= verts[k].Dot(axis)) &&
    (exists k :: 0 <= k < |verts| && verts[k].Dot(axis) == m)
  }

  /** m is the greatest projection of the vertices onto the axis. */
  predicate GreatestProjection(verts: seq<Vec2>, axis: Vec2, m: real) {
    (forall k :: 0 <= k < |verts| ==> verts[k].Dot(axis) <= m) &&
    (exists k :: 0 <= k < |verts| && verts[k].Dot(axis) == m)
  }

  /** One of the two loops of `OverlapOnAxis`: the least and greatest projections,
      starting from +INFINITY and -INFINITY, which stay for an empty list. */
  method ProjectionRange(verts: seq<Vec2>, axis: Vec2) returns (lo: ExtReal, hi: ExtReal)
    ensures |verts| == 0 ==> lo == PosInf && hi == NegInf
    ensures |verts| > 0 ==> lo.Fin? && LeastProjection(verts, axis, lo.v)
    ensures |verts| > 0 ==> hi.Fin? && GreatestProjection(verts, axis, hi.v)
  {
    lo, hi := PosInf, NegInf;
    for i := 0 to |verts|
      invariant i == 0 ==> lo == PosInf && hi == NegInf
      invariant i > 0 ==> lo.Fin? && LeastProjection(verts[..i], axis, lo.v)
      invariant i > 0 ==> hi.Fin? && GreatestProjection(verts[..i], axis, hi.v)
    {
      var proj := verts[i].Dot(axis);
      LeastStep(verts, axis, i, lo);
      GreatestStep(verts, axis, i, hi);
      lo := EMin(lo, Fin(proj));
      hi := EMax(hi, Fin(proj));
    }
    assert verts[..|verts|] == verts;
  }

  /** One step of the least-projection loop. */
  lemma LeastStep(verts: seq<Vec2>, axis: Vec2, i: nat, lo: ExtReal)
    requires i < |verts|
    requires i == 0 ==> lo == PosInf
    requires i > 0 ==> lo.Fin? && LeastProjection(verts[..i], axis, lo.v)
    ensures var m := EMin(lo, Fin(verts[i].Dot(axis)));
      m.Fin? && LeastProjection(verts[..i + 1], axis, m.v)
  {
    var pre, post := verts[..i], verts[..i + 1];
    assert post == pre + [verts[i]];
    var m := EMin(lo, Fin(verts[i].Dot(axis)));
    if i == 0 {
      assert post[0].Dot(axis) == m.v;
    } else {
      var k :| 0 <= k < |pre| && pre[k].Dot(axis) == lo.v;
      assert post[k] == pre[k];
      assert forall j :: 0 <= j < |pre| ==> post[j] == pre[j];
      assert post[i] == verts[i];
    }
  }

  /** One step of the greatest-projection loop. */
  lemma GreatestStep(verts: seq<Vec2>, axis: Vec2, i: nat, hi: ExtReal)
    requires i < |verts|
    requires i == 0 ==> hi == NegInf
    requires i > 0 ==> hi.Fin? && GreatestProjection(verts[..i], axis, hi.v)
    ensures var m := EMax(hi, Fin(verts[i].Dot(axis)));
      m.Fin? && GreatestProjection(verts[..i + 1], axis, m.v)
  {
    var pre, post := verts[..i], verts[..i + 1];
    assert post == pre + [verts[i]];
    var m := EMax(hi, Fin(verts[i].Dot(axis)));
    if i == 0 {
      assert post[0].Dot(axis) == m.v;
    } else {
      var k :| 0 <= k < |pre| && pre[k].Dot(axis) == hi.v;
      assert post[k] == pre[k];
      assert forall j :: 0 <= j < |pre| ==> post[j] == pre[j];
      assert post[i] == verts[i];
    }
  }

  /** `OverlapOnAxis`: the projections meet unless one interval ends before the other
      begins; an empty list never overlaps. */
  method OverlapOnAxis(vertsA: seq<Vec2>, vertsB: seq<Vec2>, axis: Vec2) returns (r: bool)
    ensures r <==> ProjectionsMeet(vertsA, vertsB, axis)
  {
    var minA, maxA := ProjectionRange(vertsA, axis);
    var minB, maxB := ProjectionRange(vertsB, axis);
    r := !(maxA.Lt(minB) || maxB.Lt(minA));
    if |vertsA| > 0 && |vertsB| > 0 {
      var ia :| 0 <= ia < |vertsA| && vertsA[ia].Dot(axis) == minA.v;
      var ja :| 0 <= ja < |vertsA| && vertsA[ja].Dot(axis) == maxA.v;
      var ib :| 0 <= ib < |vertsB| && vertsB[ib].Dot(axis) == minB.v;
      var jb :| 0 <= jb < |vertsB| && vertsB[jb].Dot(axis) == maxB.v;
      var pa, pb := Projections(vertsA, axis), Projections(vertsB, axis);
      if r {
        assert pa[ja] >= pb[ib] && pb[jb] >= pa[ia];
      }
    }
  }

  /** The axis `testAxes` checks for edge i: the edge's perpendicular (-y, x),
      normalised; the last edge closes the polygon. */
  function EdgeAxis(verts: seq<Vec2>, i: nat, sqrt: real -> real): Vec2
    requires i < |verts|
  {
    var edge := verts[(i + 1) % |verts|].Sub(verts[i]);
    Normalized(Vec2(-edge.y, edge.x), sqrt)
  }

  /** Every edge axis of `verts` sees the projections of A and B meet. */
  predicate AxesPass(verts: seq<Vec2>, vertsA: seq<Vec2>, vertsB: seq<Vec2>, sqrt: real -> real) {
    forall i :: 0 <= i < |verts| ==> ProjectionsMeet(vertsA, vertsB, EdgeAxis(verts, i, sqrt))
  }

  /** What `SATIntersects` decides: no edge axis of either polygon separates them. */
  predicate SeparatingAxisFree(vertsA: seq<Vec2>, vertsB: seq<Vec2>, sqrt: real -> real) {
    AxesPass(vertsA, vertsA, vertsB, sqrt) && AxesPass(vertsB, vertsA, vertsB, sqrt)
  }

  /** The `testAxes` lambda: false at the first edge axis whose projections do not
      meet. */
  method TestAxes(verts: seq<Vec2>, vertsA: seq<Vec2>, vertsB: seq<Vec2>, sqrt: real -> real) returns (ok: bool)
    ensures ok <==> AxesPass(verts, vertsA, vertsB, sqrt)
  {
    for i := 0 to |verts|
      invariant forall k :: 0 <= k < i ==> ProjectionsMeet(vertsA, vertsB, EdgeAxis(verts, k, sqrt))
    {
      var p1 := verts[i];
      var p2 := verts[(i + 1) % |verts|];
      var edge := p2.Sub(p1);
      var axis := Normalized(Vec2(-edge.y, edge.x), sqrt);
      var overlap := OverlapOnAxis(vertsA, vertsB, axis);
      if !overlap {
        assert axis == EdgeAxis(verts, i, sqrt);
        return false;
      }
    }
    return true;
  }

  method SATIntersects(vertsA: seq<Vec2>, vertsB: seq<Vec2>, sqrt: real -> real) returns (r: bool)
    ensures r <==> SeparatingAxisFree(vertsA, vertsB, sqrt)
  {
    r := TestAxes(vertsA, vertsA, vertsB, sqrt);
    if r {
      r := TestAxes(vertsB, vertsA, vertsB, sqrt);
    }
  }

  /** A vertex the two lists share projects to the same point on every axis, so no
      axis separates them. */
  lemma SharedVertexIntersects(vertsA: seq<Vec2>, vertsB: seq<Vec2>, i: nat, j: nat, sqrt: real -> real)
    requires i < |vertsA| && j < |vertsB| && vertsA[i] == vertsB[j]
    ensures SeparatingAxisFree(vertsA, vertsB, sqrt)
  {
    forall axis: Vec2
      ensures ProjectionsMeet(vertsA, vertsB, axis)
    {
      assert Projections(vertsA, axis)[i] >= Projections(vertsB, axis)[j];
    }
  }

  /** Multiplying every value of both lists by the same positive factor keeps whether
      their ranges meet. */
  lemma RangesMeetScaled(pa: seq<real>, pb: seq<real>, qa: seq<real>, qb: seq<real>, c: real)
    requires c > 0.0
    requires |qa| == |pa| && forall k :: 0 <= k < |pa| ==> qa[k] == pa[k] * c
    requires |qb| == |pb| && forall k :: 0 <= k < |pb| ==> qb[k] == pb[k] * c
    ensures RangesMeet(qa, qb) <==> RangesMeet(pa, pb)
  {
    if RangesMeet(pa, pb) {
      var i1, j1 :| 0 <= i1 < |pa| && 0 <= j1 < |pb| && pa[i1] >= pb[j1];
      var i2, j2 :| 0 <= i2 < |pa| && 0 <= j2 < |pb| && pb[j2] >= pa[i2];
      ScaleKeepsOrder(pb[j1], pa[i1], c);
      ScaleKeepsOrder(pa[i2], pb[j2], c);
      assert qa[i1] >= qb[j1] && qb[j2] >= qa[i2];
    }
    if RangesMeet(qa, qb) {
      var i1, j1 :| 0 <= i1 < |qa| && 0 <= j1 < |qb| && qa[i1] >= qb[j1];
      var i2, j2 :| 0 <= i2 < |qa| && 0 <= j2 < |qb| && qb[j2] >= qa[i2];
      assert qa[i1] == pa[i1] * c && qb[j1] == pb[j1] * c;
      assert qa[i2] == pa[i2] * c && qb[j2] == pb[j2] * c;
      ScaleKeepsOrder(pb[j1], pa[i1], c);
      ScaleKeepsOrder(pa[i2], pb[j2], c);
      assert pa[i1] >= pb[j1] && pb[j2] >= pa[i2];
    }
  }

  lemma ScaleKeepsOrder(x: real, y: real, c: real)
    requires c > 0.0
    ensures x <= y <==> x * c <= y * c
  {
    if x <= y { MulMonotone(x, y, c); } else { MulMonotone(y, x, c); }
  }

  /** Normalising the edge perpendicular does not change the test: with a `sqrt` that
      is positive on positive numbers, the unit axis is a positive multiple of the
      perpendicular, so every projection is scaled by the same positive factor. */
  lemma NormalisingKeepsProjectionsMeet(vertsA: seq<Vec2>, vertsB: seq<Vec2>, axis: Vec2, sqrt: real -> real)
    requires forall t: real :: t > 0.0 ==> sqrt(t) > 0.0
    requires axis.LengthSquared() > 0.0
    ensures ProjectionsMeet(vertsA, vertsB, Normalized(axis, sqrt)) <==> ProjectionsMeet(vertsA, vertsB, axis)
  {
    NormalizedIsPositiveMultiple(axis, sqrt);
    var c := 1.0 / Length(axis, sqrt);
    var unit := Normalized(axis, sqrt);
    forall verts: seq<Vec2>, k | 0 <= k < |verts|
      ensures Projections(verts, unit)[k] == Projections(verts, axis)[k] * c
    {
      assert verts[k].Dot(axis.Scale(c)) == verts[k].Dot(axis) * c;
    }
    RangesMeetScaled(Projections(vertsA, axis), Projections(vertsB, axis),
      Projections(vertsA, unit), Projections(vertsB, unit), c);
  }

  /** Two polygons without vertices pass: neither has an edge to test. */
  lemma EmptyPolygonsIntersect(sqrt: real -> real)
    ensures SeparatingAxisFree([], [], sqrt)
  {
  }

  /** A polygon without vertices against one with vertices fails: the first edge
      axis of the other sees an empty interval. */
  lemma EmptyAgainstPolygon(verts: seq<Vec2>, sqrt: real -> real)
    requires |verts| > 0
    ensures !SeparatingAxisFree([], verts, sqrt) && !SeparatingAxisFree(verts, [], sqrt)
  {
    assert !ProjectionsMeet([], verts, EdgeAxis(verts, 0, sqrt));
    assert !ProjectionsMeet(verts, [], EdgeAxis(verts, 0, sqrt));
  }

  /** Every vertex moved by d. */
  function Shifted(verts: seq<Vec2>, d: Vec2): (r: seq<Vec2>)
    ensures |r| == |verts| && forall k :: 0 <= k < |r| ==> r[k] == verts[k].Add(d)
  {
    if |verts| == 0 then [] else [verts[0].Add(d)] + Shifted(verts[1..], d)
  }

  /** Moving a polygon leaves its edge axes alone. */
  lemma ShiftedEdgeAxis(verts: seq<Vec2>, d: Vec2, k: nat, sqrt: real -> real)
    requires k < |verts|
    ensures EdgeAxis(Shifted(verts, d), k, sqrt) == EdgeAxis(verts, k, sqrt)
  {
    var k1 := (k + 1) % |verts|;
    var sv := Shifted(verts, d);
    assert sv[k1].Sub(sv[k]) == verts[k1].Sub(verts[k]);
  }

  /** Adding the same amount to every value of both lists keeps whether their ranges
      meet. */
  lemma RangesMeetOffset(pa: seq<real>, pb: seq<real>, qa: seq<real>, qb: seq<real>, c: real)
    requires |qa| == |pa| && forall k :: 0 <= k < |pa| ==> qa[k] == pa[k] + c
    requires |qb| == |pb| && forall k :: 0 <= k < |pb| ==> qb[k] == pb[k] + c
    ensures RangesMeet(qa, qb) <==> RangesMeet(pa, pb)
  {
    if RangesMeet(pa, pb) {
      var i1, j1 :| 0 <= i1 < |pa| && 0 <= j1 < |pb| && pa[i1] >= pb[j1];
      var i2, j2 :| 0 <= i2 < |pa| && 0 <= j2 < |pb| && pb[j2] >= pa[i2];
      assert qa[i1] >= qb[j1] && qb[j2] >= qa[i2];
    }
    if RangesMeet(qa, qb) {
      var i1, j1 :| 0 <= i1 < |qa| && 0 <= j1 < |qb| && qa[i1] >= qb[j1];
      var i2, j2 :| 0 <= i2 < |qa| && 0 <= j2 < |qb| && qb[j2] >= qa[i2];
      assert pa[i1] >= pb[j1] && pb[j2] >= pa[i2];
    }
  }

  /** Moving a list by d adds d's projection to every projection. */
  lemma ShiftedProjections(verts: seq<Vec2>, d: Vec2, axis: Vec2)
    ensures forall k :: 0 <= k < |verts| ==>
      Projections(Shifted(verts, d), axis)[k] == Projections(verts, axis)[k] + d.Dot(axis)
  {
    var sv := Shifted(verts, d);
    forall k | 0 <= k < |verts|
      ensures sv[k].Dot(axis) == verts[k].Dot(axis) + d.Dot(axis)
    {
      DotShift(verts[k], d, axis);
    }
  }

  lemma DotShift(u: Vec2, d: Vec2, axis: Vec2)
    ensures u.Add(d).Dot(axis) == u.Dot(axis) + d.Dot(axis)
  {
  }

  /** Moving both lists by the same vector keeps whether their projections meet. */
  lemma ShiftedProjectionsMeet(vertsA: seq<Vec2>, vertsB: seq<Vec2>, d: Vec2, axis: Vec2)
    ensures ProjectionsMeet(Shifted(vertsA, d), Shifted(vertsB, d), axis) <==> ProjectionsMeet(vertsA, vertsB, axis)
  {
    ShiftedProjections(vertsA, d, axis);
    ShiftedProjections(vertsB, d, axis);
    RangesMeetOffset(Projections(vertsA, axis), Projections(vertsB, axis),
      Projections(Shifted(vertsA, d), axis), Projections(Shifted(vertsB, d), axis), d.Dot(axis));
  }

  /** Moving both polygons by the same vector changes no answer: the edges are the
      same and every projection moves by the same amount. */
  lemma ShiftKeepsSeparatingAxisFree(vertsA: seq<Vec2>, vertsB: seq<Vec2>, d: Vec2, sqrt: real -> real)
    ensures SeparatingAxisFree(Shifted(vertsA, d), Shifted(vertsB, d), sqrt) <==> SeparatingAxisFree(vertsA, vertsB, sqrt)
  {
    var sa, sb := Shifted(vertsA, d), Shifted(vertsB, d);
    forall k | 0 <= k < |vertsA|
      ensures ProjectionsMeet(sa, sb, EdgeAxis(sa, k, sqrt)) <==> ProjectionsMeet(vertsA, vertsB, EdgeAxis(vertsA, k, sqrt))
    {
      ShiftedEdgeAxis(vertsA, d, k, sqrt);
      ShiftedProjectionsMeet(vertsA, vertsB, d, EdgeAxis(vertsA, k, sqrt));
    }
    forall k | 0 <= k < |vertsB|
      ensures ProjectionsMeet(sa, sb, EdgeAxis(sb, k, sqrt)) <==> ProjectionsMeet(vertsA, vertsB, EdgeAxis(vertsB, k, sqrt))
    {
      ShiftedEdgeAxis(vertsB, d, k, sqrt);
      ShiftedProjectionsMeet(vertsA, vertsB, d, EdgeAxis(vertsB, k, sqrt));
    }
  }

  // ---------------------------------------------------------------------------
  // Polygon against polygon: a discrete test at the start and at the end
  // ---------------------------------------------------------------------------

  /** The `for (auto& v : verts) v += d` loops over the local vertex copies. */
  method ShiftInPlace(verts: array<Vec2>, d: Vec2)
    modifies verts
    ensures verts[..] == Shifted(old(verts[..]), d)
  {
    for i := 0 to verts.Length
      invariant forall k :: 0 <= k < i ==> verts[k] == old(verts[k]).Add(d)
      invariant forall k :: i <= k < verts.Length ==> verts[k] == old(verts[k])
    {
      verts[i] := verts[i].Add(d);
    }
  }

  /** What `SweptPolygonSweep` reports: a hit at time 0 when the placed polygons
      already intersect, a hit at time 1 when they intersect after the whole
      displacement, nothing otherwise; the normal is always (0, 1). */
  function PolygonSweep(polyA: Shape, posA: Vec2, dispA: Vec2, polyB: Shape, posB: Vec2, dispB: Vec2,
                        sqrt: real -> real): (r: SweepResult)
    requires polyA.PolygonShape? && polyB.PolygonShape?
    ensures !r.hit ==> r == NoHit
    ensures r.hit ==> (r.toi == 0.0 || r.toi == 1.0) && !r.isTrigger
  {
    var startA, startB := Shifted(polyA.vertices, posA), Shifted(polyB.vertices, posB);
    if SeparatingAxisFree(startA, startB, sqrt) then SweepResult(true, 0.0, Vec2(0.0, 1.0), false)
    else if SeparatingAxisFree(Shifted(startA, dispA), Shifted(startB, dispB), sqrt) then
      SweepResult(true, 1.0, Vec2(0.0, 1.0), false)
    else NoHit
  }

  method SweptPolygonSweep(polyA: Shape, posA: Vec2, dispA: Vec2, polyB: Shape, posB: Vec2, dispB: Vec2,
                           sqrt: real -> real) returns (r: SweepResult)
    requires polyA.PolygonShape? && polyB.PolygonShape?
    ensures r == PolygonSweep(polyA, posA, dispA, polyB, posB, dispB, sqrt)
  {
    var vertsA := new Vec2[|polyA.vertices|](k requires 0 <= k < |polyA.vertices| => polyA.vertices[k]);
    var vertsB := new Vec2[|polyB.vertices|](k requires 0 <= k < |polyB.vertices| => polyB.vertices[k]);
    assert vertsA[..] == polyA.vertices && vertsB[..] == polyB.vertices;
    ShiftInPlace(vertsA, posA);
    ShiftInPlace(vertsB, posB);
    var start := SATIntersects(vertsA[..], vertsB[..], sqrt);
    if start {
      return SweepResult(true, 0.0, Vec2(0.0, 1.0), false);
    }
    ShiftInPlace(vertsA, dispA);
    ShiftInPlace(vertsB, dispB);
    var end := SATIntersects(vertsA[..], vertsB[..], sqrt);
    r := NoHit;
    if end {
      r := SweepResult(true, 1.0, Vec2(0.0, 1.0), false);
    }
  }

  /** The polygon test reports only the two ends of the step: a hit is at time 0
      exactly when the polygons start intersecting, and otherwise at time 1 exactly
      when they end intersecting; a polygon moving through another in between is
      missed, and the moving-together case does not matter. */
  lemma PolygonSweepEnds(polyA: Shape, posA: Vec2, dispA: Vec2, polyB: Shape, posB: Vec2, dispB: Vec2,
                         sqrt: real -> real)
    requires polyA.PolygonShape? && polyB.PolygonShape?
    ensures var r := PolygonSweep(polyA, posA, dispA, polyB, posB, dispB, sqrt);
      var startA, startB := Shifted(polyA.vertices, posA), Shifted(polyB.vertices, posB);
      (r.hit ==> (r.toi == 0.0 || r.toi == 1.0) && r.normal == Vec2(0.0, 1.0) && !r.isTrigger) &&
      (!r.hit ==> r == NoHit) &&
      (r.hit && r.toi == 0.0 <==> SeparatingAxisFree(startA, startB, sqrt)) &&
      (!SeparatingAxisFree(startA, startB, sqrt) ==>
        (r.hit <==> SeparatingAxisFree(Shifted(startA, dispA), Shifted(startB, dispB), sqrt)))
  {
  }

  /** Two polygons moved by the same displacement hit exactly when they start
      intersecting, as if both stayed still. */
  lemma PolygonSweepCommonMotion(polyA: Shape, posA: Vec2, polyB: Shape, posB: Vec2, disp: Vec2,
                                 sqrt: real -> real)
    requires polyA.PolygonShape? && polyB.PolygonShape?
    ensures PolygonSweep(polyA, posA, disp, polyB, posB, disp, sqrt).hit <==>
      SeparatingAxisFree(Shifted(polyA.vertices, posA), Shifted(polyB.vertices, posB), sqrt)
  {
    ShiftKeepsSeparatingAxisFree(Shifted(polyA.vertices, posA), Shifted(polyB.vertices, posB), disp, sqrt);
  }

  // ---------------------------------------------------------------------------
  // Circle against circle: the quadratic for the centres' distance
  // ---------------------------------------------------------------------------

  /** The 1e-12 threshold below which a squared length counts as zero. */
  const Eps: real := 0.000000000001

  /** The contact normal: the offset normalised, or (1, 0) when it is about zero. */
  function ContactNormal(n: Vec2, sqrt: real -> real): Vec2 {
    if n.LengthSquared() > Eps then Normalized(n, sqrt) else Vec2(1.0, 0.0)
  }

  /** The time of impact `SweptCircleCircle` finds from the coefficients of the gap
      a t^2 + b t + c: 0 when the circles already overlap (c <= 0); none when there
      is almost no relative motion (a < 1e-12) or no real root; otherwise the first
      root if it lies in [0, 1], else the second if it does, else none. */
  function ImpactTime(qa: real, qb: real, qc: real, sqrt: real -> real): (r: Option<real>)
    ensures r.Some? ==> 0.0 <= r.value <= 1.0
  {
    if qc <= 0.0 then Some(0.0)
    else if qa < Eps then None
    else
      var disc := qb * qb - 4.0 * qa * qc;
      if disc < 0.0 then None
      else
        var sqrtD := sqrt(disc);
        var t1 := (-qb - sqrtD) / (2.0 * qa);
        var t2 := (-qb + sqrtD) / (2.0 * qa);
        if 0.0 <= t1 <= 1.0 then Some(t1)
        else if 0.0 <= t2 <= 1.0 then Some(t2)
        else None
  }

  /** `SweptCircleCircle`: s is the offset from B's centre to A's and v the relative
      displacement, so the gap |s + v t|^2 - (ra + rb)^2 is a t^2 + b t + c with
      a = v.v, b = 2 s.v and c = s.s - (ra + rb)^2. The normal is the offset between
      the centres at the time of impact, normalised; at time 0 that offset is s. */
  function SweptCircleCircle(a: Shape, aPos: Vec2, aDisp: Vec2, b: Shape, bPos: Vec2, bDisp: Vec2,
                             sqrt: real -> real): (r: SweepResult)
    requires a.CircleShape? && b.CircleShape?
    ensures !r.hit ==> r == NoHit
    ensures r.hit ==> 0.0 <= r.toi <= 1.0 && !r.isTrigger
  {
    var cA0 := aPos.Add(a.center);
    var cB0 := bPos.Add(b.center);
    var rel := aDisp.Sub(bDisp);
    var rad := a.radius + b.radius;
    var s := cA0.Sub(cB0);
    match ImpactTime(rel.Dot(rel), 2.0 * s.Dot(rel), s.Dot(s) - rad * rad, sqrt)
    case None => NoHit
    case Some(t) => SweepResult(true, t, ContactNormal(cA0.Add(rel.Scale(t)).Sub(cB0), sqrt), false)
  }

  /** The squared distance between the two centres at time t of the step, each
      circle having moved by its displacement times t, less the squared sum of the
      radii: negative while they overlap, zero when they touch. */
  function CentreGap(a: Shape, aPos: Vec2, aDisp: Vec2, b: Shape, bPos: Vec2, bDisp: Vec2, t: real): real
    requires a.CircleShape? && b.CircleShape?
  {
    var pa := aPos.Add(a.center).Add(aDisp.Scale(t));
    var pb := bPos.Add(b.center).Add(bDisp.Scale(t));
    var rad := a.radius + b.radius;
    pa.Sub(pb).LengthSquared() - rad * rad
  }

  function Quad(qa: real, qb: real, qc: real, t: real): real {
    qa * t * t + qb * t + qc
  }

  /** Completing the square: 4a(a t^2 + b t + c) == (2a t + b)^2 - (b^2 - 4ac). */
  lemma CompletedSquare(qa: real, qb: real, qc: real, t: real)
    ensures 4.0 * qa * Quad(qa, qb, qc, t) == (2.0 * qa * t + qb) * (2.0 * qa * t + qb) - (qb * qb - 4.0 * qa * qc)
  {
  }

  lemma ProductSigns(x: real, y: real)
    ensures x < 0.0 && y < 0.0 ==> x * y > 0.0
    ensures x > 0.0 && y > 0.0 ==> x * y > 0.0
    ensures x <= 0.0 <= y ==> x * y <= 0.0
  {
  }

  /** With a > 0 and the roots t1 <= t2 of the quadratic, the quadratic times 4a is
      (2a t - 2a t1)(2a t - 2a t2). */
  lemma Factored(qa: real, qb: real, qc: real, sq: real, t: real)
    requires qa > 0.0 && sq * sq == qb * qb - 4.0 * qa * qc
    ensures 4.0 * qa * Quad(qa, qb, qc, t) == (2.0 * qa * t + qb + sq) * (2.0 * qa * t + qb - sq)
  {
    CompletedSquare(qa, qb, qc, t);
  }

  lemma PositiveFactorSign(k: real, d: real)
    requires k > 0.0
    ensures d < 0.0 <==> k * d < 0.0
    ensures d > 0.0 <==> k * d > 0.0
  {
    if d < 0.0 { MulMonotone(d, 0.0, k); }
    if d > 0.0 { MulMonotone(0.0, d, k); }
  }

  /** The same, with the roots given by the products they make with 2a. */
  lemma FactoredAtRoots(qa: real, qb: real, qc: real, sq: real, t1: real, t2: real, t: real)
    requires qa > 0.0 && sq * sq == qb * qb - 4.0 * qa * qc
    requires t1 * (2.0 * qa) == -qb - sq && t2 * (2.0 * qa) == -qb + sq
    ensures 4.0 * qa * Quad(qa, qb, qc, t) == ((2.0 * qa) * (t - t1)) * ((2.0 * qa) * (t - t2))
  {
    Factored(qa, qb, qc, sq, t);
    assert (2.0 * qa) * (t - t1) == 2.0 * qa * t + qb + sq;
    assert (2.0 * qa) * (t - t2) == 2.0 * qa * t + qb - sq;
  }

  /** The signs of the quadratic around its roots t1 <= t2, given by their products
      with 2a. */
  lemma QuadSigns(qa: real, qb: real, qc: real, sq: real, t1: real, t2: real, t: real)
    requires qa > 0.0 && sq >= 0.0 && sq * sq == qb * qb - 4.0 * qa * qc
    requires t1 * (2.0 * qa) == -qb - sq && t2 * (2.0 * qa) == -qb + sq
    ensures t1 <= t2
    ensures t == t1 ==> Quad(qa, qb, qc, t) == 0.0
    ensures t < t1 ==> Quad(qa, qb, qc, t) > 0.0
    ensures t1 <= t <= t2 ==> Quad(qa, qb, qc, t) <= 0.0
    ensures t > t2 ==> Quad(qa, qb, qc, t) > 0.0
  {
    var k := 2.0 * qa;
    if t2 < t1 {
      MulMonotone(t2, t1, k);
    }
    FactoredAtRoots(qa, qb, qc, sq, t1, t2, t);
    var x, y := k * (t - t1), k * (t - t2);
    PositiveFactorSign(k, t - t1);
    PositiveFactorSign(k, t - t2);
    ProductSigns(x, y);
    PositiveFactorSign(4.0 * qa, Quad(qa, qb, qc, t));
  }

  /** The quadratic is zero at its first root, positive before it, and also positive
      past the second root. */
  lemma QuadAroundRoots(qa: real, qb: real, qc: real, sq: real, t: real)
    requires qa > 0.0 && sq >= 0.0 && sq * sq == qb * qb - 4.0 * qa * qc
    ensures var t1 := (-qb - sq) / (2.0 * qa);
      var t2 := (-qb + sq) / (2.0 * qa);
      t1 <= t2 &&
      (t == t1 ==> Quad(qa, qb, qc, t) == 0.0) &&
      (t < t1 ==> Quad(qa, qb, qc, t) > 0.0) &&
      (t1 <= t <= t2 ==> Quad(qa, qb, qc, t) <= 0.0) &&
      (t > t2 ==> Quad(qa, qb, qc, t) > 0.0)
  {
    DivMul(-qb - sq, 2.0 * qa);
    DivMul(-qb + sq, 2.0 * qa);
    QuadSigns(qa, qb, qc, sq, (-qb - sq) / (2.0 * qa), (-qb + sq) / (2.0 * qa), t);
  }

  /** Without a real root the quadratic (a > 0) is positive everywhere. */
  lemma QuadWithoutRoots(qa: real, qb: real, qc: real, t: real)
    requires qa > 0.0 && qb * qb - 4.0 * qa * qc < 0.0
    ensures Quad(qa, qb, qc, t) > 0.0
  {
    CompletedSquare(qa, qb, qc, t);
    var w := 2.0 * qa * t + qb;
    assert w * w >= 0.0;
    PositiveFactorSign(4.0 * qa, Quad(qa, qb, qc, t));
  }

  /** The offset between the centres at time t is the initial offset plus the
      relative displacement times t. */
  lemma CentreOffsetAt(pa0: Vec2, da: Vec2, pb0: Vec2, db: Vec2, t: real)
    ensures pa0.Add(da.Scale(t)).Sub(pb0.Add(db.Scale(t))) == pa0.Sub(pb0).Add(da.Sub(db).Scale(t))
  {
  }

  /** |s + v t|^2 - r^2 is the quadratic with a = v.v, b = 2 s.v, c = s.s - r^2. */
  lemma OffsetGapIsQuad(s: Vec2, v: Vec2, rad: real, t: real)
    ensures s.Add(v.Scale(t)).LengthSquared() - rad * rad == Quad(v.Dot(v), 2.0 * s.Dot(v), s.Dot(s) - rad * rad, t)
  {
    assert (s.x + v.x * t) * (s.x + v.x * t) == s.x * s.x + 2.0 * s.x * v.x * t + v.x * v.x * t * t;
    assert (s.y + v.y * t) * (s.y + v.y * t) == s.y * s.y + 2.0 * s.y * v.y * t + v.y * v.y * t * t;
  }

  /** The gap between the circles at time t is the quadratic `SweptCircleCircle`
      solves. */
  lemma CentreGapIsQuad(a: Shape, aPos: Vec2, aDisp: Vec2, b: Shape, bPos: Vec2, bDisp: Vec2, t: real)
    requires a.CircleShape? && b.CircleShape?
    ensures var (qa, qb, qc) := GapCoefficients(a, aPos, aDisp, b, bPos, bDisp);
      CentreGap(a, aPos, aDisp, b, bPos, bDisp, t) == Quad(qa, qb, qc, t)
  {
    CentreOffsetAt(aPos.Add(a.center), aDisp, bPos.Add(b.center), bDisp, t);
    OffsetGapIsQuad(aPos.Add(a.center).Sub(bPos.Add(b.center)), aDisp.Sub(bDisp), a.radius + b.radius, t);
  }

  /** A square root that is one: nonnegative, squaring back to its argument. */
  ghost predicate IsSqrt(sqrt: real -> real) {
    forall x: real :: x >= 0.0 ==> sqrt(x) >= 0.0 && sqrt(x) * sqrt(x) == x
  }

  /** When the circles start apart and move enough, the roots decide: if the first
      lies in [0, 1] the gap is zero there and positive before it; if not, the second
      does not lie in [0, 1] either and the gap is positive through the step. */
  lemma QuadFirstRootInStep(qa: real, qb: real, qc: real, sq: real)
    requires qc > 0.0 && qa > 0.0 && sq >= 0.0 && sq * sq == qb * qb - 4.0 * qa * qc
    ensures var t1 := (-qb - sq) / (2.0 * qa);
      0.0 <= t1 <= 1.0 ==> Quad(qa, qb, qc, t1) == 0.0
    ensures var t1 := (-qb - sq) / (2.0 * qa);
      forall t :: 0.0 <= t < t1 ==> Quad(qa, qb, qc, t) > 0.0
    ensures var t1 := (-qb - sq) / (2.0 * qa);
      var t2 := (-qb + sq) / (2.0 * qa);
      !(0.0 <= t1 <= 1.0) ==> !(0.0 <= t2 <= 1.0) && forall t :: 0.0 <= t <= 1.0 ==> Quad(qa, qb, qc, t) > 0.0
  {
    var t1 := (-qb - sq) / (2.0 * qa);
    var t2 := (-qb + sq) / (2.0 * qa);
    forall t | 0.0 <= t <= 1.0 || t == t1 || t < t1
      ensures t1 <= t2
      ensures t == t1 ==> Quad(qa, qb, qc, t) == 0.0
      ensures t < t1 ==> Quad(qa, qb, qc, t) > 0.0
      ensures t1 <= t <= t2 ==> Quad(qa, qb, qc, t) <= 0.0
      ensures t > t2 ==> Quad(qa, qb, qc, t) > 0.0
    {
      QuadAroundRoots(qa, qb, qc, sq, t);
    }
    assert Quad(qa, qb, qc, 0.0) == qc;
  }

  /** With a genuine square root, the time `ImpactTime` finds is a contact: the gap
      is at most zero there, exactly zero when the time is positive, and positive at
      every earlier time of the step; when it finds none and a >= 1e-12, the gap is
      positive through the step. The second root is never the answer. */
  lemma ImpactTimeIsFirstContact(qa: real, qb: real, qc: real, sqrt: real -> real)
    requires IsSqrt(sqrt)
    ensures var r := ImpactTime(qa, qb, qc, sqrt);
      r.Some? ==> Quad(qa, qb, qc, r.value) <= 0.0 && (r.value > 0.0 ==> Quad(qa, qb, qc, r.value) == 0.0)
    ensures var r := ImpactTime(qa, qb, qc, sqrt);
      r.Some? ==> forall t :: 0.0 <= t < r.value ==> Quad(qa, qb, qc, t) > 0.0
    ensures var r := ImpactTime(qa, qb, qc, sqrt);
      r.None? && qa >= Eps ==> forall t :: 0.0 <= t <= 1.0 ==> Quad(qa, qb, qc, t) > 0.0
  {
    assert Quad(qa, qb, qc, 0.0) == qc;
    if qc > 0.0 && qa >= Eps {
      var disc := qb * qb - 4.0 * qa * qc;
      if disc < 0.0 {
        forall t {
          QuadWithoutRoots(qa, qb, qc, t);
        }
      } else {
        QuadFirstRootInStep(qa, qb, qc, sqrt(disc));
      }
    }
  }

  /** The coefficients of the gap between the circles, as `SweptCircleCircle`
      computes them. */
  function GapCoefficients(a: Shape, aPos: Vec2, aDisp: Vec2, b: Shape, bPos: Vec2, bDisp: Vec2): (real, real, real)
    requires a.CircleShape? && b.CircleShape?
  {
    var s := aPos.Add(a.center).Sub(bPos.Add(b.center));
    var rel := aDisp.Sub(bDisp);
    var rad := a.radius + b.radius;
    (rel.Dot(rel), 2.0 * s.Dot(rel), s.Dot(s) - rad * rad)
  }

  /** The circle sweep hits exactly when `ImpactTime` finds a time, and at that
      time. */
  lemma CircleSweepTime(a: Shape, aPos: Vec2, aDisp: Vec2, b: Shape, bPos: Vec2, bDisp: Vec2, sqrt: real -> real)
    requires a.CircleShape? && b.CircleShape?
    ensures var (qa, qb, qc) := GapCoefficients(a, aPos, aDisp, b, bPos, bDisp);
      var it := ImpactTime(qa, qb, qc, sqrt);
      var r := SweptCircleCircle(a, aPos, aDisp, b, bPos, bDisp, sqrt);
      r.hit == it.Some? && (it.Some? ==> r.toi == it.value)
  {
  }

  /** A hit of the circle sweep is a contact: at its time the circles touch, or
      already overlap when the time is 0. */
  lemma CircleHitTouches(a: Shape, aPos: Vec2, aDisp: Vec2, b: Shape, bPos: Vec2, bDisp: Vec2, sqrt: real -> real)
    requires a.CircleShape? && b.CircleShape? && IsSqrt(sqrt)
    ensures var r := SweptCircleCircle(a, aPos, aDisp, b, bPos, bDisp, sqrt);
      r.hit ==> CentreGap(a, aPos, aDisp, b, bPos, bDisp, r.toi) <= 0.0
    ensures var r := SweptCircleCircle(a, aPos, aDisp, b, bPos, bDisp, sqrt);
      r.hit && r.toi > 0.0 ==> CentreGap(a, aPos, aDisp, b, bPos, bDisp, r.toi) == 0.0
  {
    var (qa, qb, qc) := GapCoefficients(a, aPos, aDisp, b, bPos, bDisp);
    CircleSweepTime(a, aPos, aDisp, b, bPos, bDisp, sqrt);
    ImpactTimeIsFirstContact(qa, qb, qc, sqrt);
    var r := SweptCircleCircle(a, aPos, aDisp, b, bPos, bDisp, sqrt);
    CentreGapIsQuad(a, aPos, aDisp, b, bPos, bDisp, r.toi);
  }

  /** Before a hit's time the circles are apart, and a miss with a relative
      displacement of squared length at least 1e-12 means they stay apart through
      the step. */
  lemma CircleNoEarlierContact(a: Shape, aPos: Vec2, aDisp: Vec2, b: Shape, bPos: Vec2, bDisp: Vec2, sqrt: real -> real)
    requires a.CircleShape? && b.CircleShape? && IsSqrt(sqrt)
    ensures var r := SweptCircleCircle(a, aPos, aDisp, b, bPos, bDisp, sqrt);
      r.hit ==> forall t :: 0.0 <= t < r.toi ==> CentreGap(a, aPos, aDisp, b, bPos, bDisp, t) > 0.0
    ensures var r := SweptCircleCircle(a, aPos, aDisp, b, bPos, bDisp, sqrt);
      !r.hit && aDisp.Sub(bDisp).Dot(aDisp.Sub(bDisp)) >= Eps ==>
        forall t :: 0.0 <= t <= 1.0 ==> CentreGap(a, aPos, aDisp, b, bPos, bDisp, t) > 0.0
  {
    var (qa, qb, qc) := GapCoefficients(a, aPos, aDisp, b, bPos, bDisp);
    CircleSweepTime(a, aPos, aDisp, b, bPos, bDisp, sqrt);
    ImpactTimeIsFirstContact(qa, qb, qc, sqrt);
    forall t
      ensures CentreGap(a, aPos, aDisp, b, bPos, bDisp, t) == Quad(qa, qb, qc, t)
    {
      CentreGapIsQuad(a, aPos, aDisp, b, bPos, bDisp, t);
    }
  }

  // ---------------------------------------------------------------------------
  // The dispatcher
  // ---------------------------------------------------------------------------

  /** The result with its normal turned round; a miss stays the default miss. */
  function Flipped(res: SweepResult): (r: SweepResult)
    ensures r.hit == res.hit && r.toi == res.toi && r.isTrigger == res.isTrigger
    ensures r.normal == res.normal.Neg()
    ensures res == NoHit ==> r == NoHit
  {
    res.(normal := res.normal.Neg())
  }

  /** What `SweptShapeCollision` answers for two placed hitbox shapes: rectangles by
      the box sweep of their placed bounds, circles by the quadratic, a rectangle and
      a circle by the grown-box sweep (swapped, with the normal negated, when the
      circle comes first), two polygons by the discrete test, and a polygon against
      anything else never. The box and rectangle-circle sweeps are the ones as
      written. */
  function ShapeSweep(aShape: Shape, aPos: Vec2, aDisp: Vec2, bShape: Shape, bPos: Vec2, bDisp: Vec2,
                      sqrt: real -> real): (r: SweepResult)
    ensures !r.hit ==> r == NoHit
    ensures r.hit ==> 0.0 <= r.toi <= 1.0 && !r.isTrigger
  {
    if aShape.RectShape? && bShape.RectShape? then
      SweptAABBAsWritten(aShape.bounds.Translated(aPos), aDisp, bShape.bounds.Translated(bPos), bDisp)
    else if aShape.CircleShape? && bShape.CircleShape? then
      SweptCircleCircle(aShape, aPos, aDisp, bShape, bPos, bDisp, sqrt)
    else if aShape.RectShape? && bShape.CircleShape? then
      SweptRectCircleAsWritten(aShape, aPos, aDisp, bShape, bPos, bDisp)
    else if aShape.CircleShape? && bShape.RectShape? then
      Flipped(SweptRectCircleAsWritten(bShape, bPos, bDisp, aShape, aPos, aDisp))
    else if aShape.PolygonShape? && bShape.PolygonShape? then
      PolygonSweep(aShape, aPos, aDisp, bShape, bPos, bDisp, sqrt)
    else NoHit
  }

  /** The dispatcher on the corrected box and rectangle-circle sweeps. */
  function ShapeSweepCorrected(aShape: Shape, aPos: Vec2, aDisp: Vec2, bShape: Shape, bPos: Vec2, bDisp: Vec2,
                               sqrt: real -> real): (r: SweepResult)
    ensures !r.hit ==> r == NoHit
    ensures r.hit ==> 0.0 <= r.toi <= 1.0 && !r.isTrigger
  {
    if aShape.RectShape? && bShape.RectShape? then
      SweptAABB(aShape.bounds.Translated(aPos), aDisp, bShape.bounds.Translated(bPos), bDisp)
    else if aShape.RectShape? && bShape.CircleShape? then
      SweptRectCircle(aShape, aPos, aDisp, bShape, bPos, bDisp)
    else if aShape.CircleShape? && bShape.RectShape? then
      Flipped(SweptRectCircle(bShape, bPos, bDisp, aShape, aPos, aDisp))
    else ShapeSweep(aShape, aPos, aDisp, bShape, bPos, bDisp, sqrt)
  }

  /** Two rectangles that move relative to each other on both axes get the same
      answer from both dispatchers; so do two circles and two polygons. */
  lemma ShapeSweepCorrectedAgrees(aShape: Shape, aPos: Vec2, aDisp: Vec2, bShape: Shape, bPos: Vec2, bDisp: Vec2,
                                  sqrt: real -> real)
    requires aShape.RectShape? && bShape.RectShape? ==> aDisp.x != bDisp.x && aDisp.y != bDisp.y
    requires aShape.RectShape? ==> !bShape.CircleShape?
    requires aShape.CircleShape? ==> !bShape.RectShape?
    ensures ShapeSweepCorrected(aShape, aPos, aDisp, bShape, bPos, bDisp, sqrt)
      == ShapeSweep(aShape, aPos, aDisp, bShape, bPos, bDisp, sqrt)
  {
    if aShape.RectShape? && bShape.RectShape? {
      SweptAABBAgrees(aShape.bounds.Translated(aPos), aDisp, bShape.bounds.Translated(bPos), bDisp);
    }
  }

  method SweptShapeCollision(aShape: Shape, aPos: Vec2, aDisp: Vec2, bShape: Shape, bPos: Vec2, bDisp: Vec2,
                             sqrt: real -> real) returns (r: SweepResult)
    ensures r == ShapeSweep(aShape, aPos, aDisp, bShape, bPos, bDisp, sqrt)
  {
    var typeA, typeB := aShape.GetType(), bShape.GetType();
    if typeA == Rectangle && typeB == Rectangle {
      return SweptAABBAsWritten(aShape.bounds.Translated(aPos), aDisp, bShape.bounds.Translated(bPos), bDisp);
    }
    if typeA == Circle && typeB == Circle {
      return SweptCircleCircle(aShape, aPos, aDisp, bShape, bPos, bDisp, sqrt);
    }
    if typeA == Rectangle && typeB == Circle {
      return SweptRectCircleAsWritten(aShape, aPos, aDisp, bShape, bPos, bDisp);
    }
    if typeA == Circle && typeB == Rectangle {
      var res := SweptRectCircleAsWritten(bShape, bPos, bDisp, aShape, aPos, aDisp);
      return res.(normal := res.normal.Neg());
    }
    if typeA == Polygon && typeB == Polygon {
      r := SweptPolygonSweep(aShape, aPos, aDisp, bShape, bPos, bDisp, sqrt);
      return;
    }
    return NoHit;
  }

  /** A circle against a rectangle is the rectangle against the circle, with the
      normal turned round. */
  lemma CircleRectIsSwapped(circle: Shape, cPos: Vec2, cDisp: Vec2, rect: Shape, rPos: Vec2, rDisp: Vec2,
                            sqrt: real -> real)
    requires circle.CircleShape? && rect.RectShape?
    ensures var swapped := ShapeSweep(rect, rPos, rDisp, circle, cPos, cDisp, sqrt);
      var r := ShapeSweep(circle, cPos, cDisp, rect, rPos, rDisp, sqrt);
      r.hit == swapped.hit && r.toi == swapped.toi && r.normal == swapped.normal.Neg()
  {
  }

  /** A polygon never collides with a rectangle or a circle. */
  lemma MixedPolygonNeverHits(aShape: Shape, aPos: Vec2, aDisp: Vec2, bShape: Shape, bPos: Vec2, bDisp: Vec2,
                              sqrt: real -> real)
    requires aShape.PolygonShape? != bShape.PolygonShape?
    ensures ShapeSweep(aShape, aPos, aDisp, bShape, bPos, bDisp, sqrt) == NoHit
  {
  }
}
