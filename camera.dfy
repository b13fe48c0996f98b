/** The camera's visibility tests (Client/Render/Camera.h).

    The camera is an object with a position and integer width and height that its
    setters overwrite. The object test reads an object's components; it takes them
    here as the object's component data by class (an `Instance`'s `Data()`). */
module Cameras {
  import opened GMath
  import opened Shapes
  import opened Components
  import opened Instances

  /** What the tests read of a camera: its corner and its size. */
  datatype Viewport = Viewport(position: Vec2, width: int, height: int) {

    /** The point lies outside the closed rectangle from the corner to corner plus
        (width, height). */
    predicate OutsidePoint(p: Vec2) {
      p.x < position.x || p.x > position.x + width as real ||
      p.y < position.y || p.y > position.y + height as real
    }

    /** The closed rectangle the camera sees. */
    function Bounds(): Rect2 {
      Rect2(position.x, position.y, width as real, height as real)
    }

    /** The loop body's test for one hitbox of an object at `at`: a rectangle or
        circle whose bounding box is not wholly beside, above or below the view, or a
        polygon with a vertex in view. */
    predicate Visible(h: Hitbox, at: Vec2) {
      match h.shape
      case RectShape(bounds, _) =>
        var b := bounds.Translated(at);
        !(b.x + b.width < position.x || b.x > position.x + width as real ||
          b.y + b.height < position.y || b.y > position.y + height as real)
      case CircleShape(center, radius) =>
        var c := center.Add(at);
        !(c.x + radius < position.x || c.x - radius > position.x + width as real ||
          c.y + radius < position.y || c.y - radius > position.y + height as real)
      case PolygonShape(vertices) =>
        exists i :: 0 <= i < |vertices| && !OutsidePoint(vertices[i].Add(at))
    }
  }

  /** `OutsideCamera(point)` is the complement of the closed rectangle. */
  lemma OutsidePointIsNotContained(v: Viewport, p: Vec2)
    ensures v.OutsidePoint(p) <==> !v.Bounds().Contains(p)
  {
  }

  /** A visible rectangle hitbox is one whose placed bounds meet the view. */
  lemma VisibleRectIntersects(v: Viewport, h: Hitbox, at: Vec2)
    requires h.shape.RectShape?
    ensures v.Visible(h, at) <==> h.shape.bounds.Translated(at).Intersects(v.Bounds())
  {
  }

  /** The object test as written: an object without a transform or a hitbox
      component is outside; with both it is never outside, whatever its hitboxes. */
  function OutsideObjectAsWritten(comps: map<Kind, Payload>): bool {
    TransformKind !in comps || HitboxKind !in comps
  }

  /** The object test as evidently intended: outside unless some hitbox is
      visible. */
  predicate OutsideObjectIntended(v: Viewport, comps: map<Kind, Payload>)
    requires Consistent(comps)
  {
    TransformKind !in comps || HitboxKind !in comps ||
    forall i :: 0 <= i < |comps[HitboxKind].hitboxes| ==>
      !v.Visible(comps[HitboxKind].hitboxes[i], comps[TransformKind].position)
  }

  /** An object with one unit rectangle at (100, 100) is far from a 10-by-10 camera
      at the origin, yet the test as written calls it not outside. */
  lemma FarObjectNotOutside()
    ensures var v := Viewport(Zero2, 10, 10);
      var comps := map[TransformKind := TransformAt(Vec2(100.0, 100.0), Vec2(1.0, 1.0), 0.0),
                       HitboxKind := Hitboxes([Hitbox(RectShape(Rect2(0.0, 0.0, 1.0, 1.0), 0.0), false, 0)])];
      Consistent(comps) && OutsideObjectIntended(v, comps) && !OutsideObjectAsWritten(comps)
  {
    var v := Viewport(Zero2, 10, 10);
    var comps := map[TransformKind := TransformAt(Vec2(100.0, 100.0), Vec2(1.0, 1.0), 0.0),
                     HitboxKind := Hitboxes([Hitbox(RectShape(Rect2(0.0, 0.0, 1.0, 1.0), 0.0), false, 0)])];
    assert !v.Visible(comps[HitboxKind].hitboxes[0], comps[TransformKind].position);
  }

  class Camera {
    var position: Vec2
    var width: int
    var height: int

    /** `Camera(w, h)`: at the origin. */
    constructor(w: int, h: int)
      ensures position == Zero2 && width == w && height == h
    {
      position := Zero2;
      width := w;
      height := h;
    }

    function View(): Viewport
      reads this
    {
      Viewport(position, width, height)
    }

    method SetPosition(pos: Vec2)
      modifies this
      ensures position == pos && width == old(width) && height == old(height)
    {
      position := pos;
    }

    method SetDimensions(w: int, h: int)
      modifies this
      ensures position == old(position) && width == w && height == h
    {
      width := w;
      height := h;
    }

    method SetWidth(w: int)
      modifies this
      ensures position == old(position) && width == w && height == old(height)
    {
      width := w;
    }

    method SetHeight(h: int)
      modifies this
      ensures position == old(position) && width == old(width) && height == h
    {
      height := h;
    }

    /** `OutsideCamera(point)`: exactly the points that are not in the closed view
        rectangle. */
    predicate OutsideCamera(p: Vec2)
      reads this
      ensures OutsideCamera(p) <==> !View().Bounds().Contains(p)
    {
      OutsidePointIsNotContained(View(), p);
      View().OutsidePoint(p)
    }

    /** `InsideCamera(point)`: exactly the points that are not outside, the closed
        rectangle. */
    predicate InsideCamera(p: Vec2)
      reads this
      ensures InsideCamera(p) <==> View().Bounds().Contains(p)
    {
      OutsidePointIsNotContained(View(), p);
      !OutsideCamera(p)
    }

    /** `OutsideCamera(object)` as written: the loop over the hitboxes returns false
        at the first visible one and skips the others, and the final statement also
        returns false. */
    method OutsideObject(comps: map<Kind, Payload>) returns (r: bool)
      requires Consistent(comps)
      ensures r == OutsideObjectAsWritten(comps)
    {
      if TransformKind !in comps {
        return true;
      }
      var objPos := comps[TransformKind].position;
      if HitboxKind !in comps {
        return true;
      }
      var found := FirstVisible(comps[HitboxKind].hitboxes, objPos);
      if found {
        return false;
      }
      return false;
    }

    /** `OutsideCamera(object)` with its final statement returning true: outside
        exactly when no hitbox is visible. */
    method OutsideObjectCorrected(comps: map<Kind, Payload>) returns (r: bool)
      requires Consistent(comps)
      ensures r == OutsideObjectIntended(View(), comps)
    {
      if TransformKind !in comps {
        return true;
      }
      var objPos := comps[TransformKind].position;
      if HitboxKind !in comps {
        return true;
      }
      var found := FirstVisible(comps[HitboxKind].hitboxes, objPos);
      return !found;
    }

    /** `InsideCamera(object)`: the complement of the test as written, so an object
        with a transform and a hitbox component is always inside. */
    method InsideObject(comps: map<Kind, Payload>) returns (r: bool)
      requires Consistent(comps)
      ensures r == !OutsideObjectAsWritten(comps)
      ensures r <==> TransformKind in comps && HitboxKind in comps
    {
      var outside := OutsideObject(comps);
      r := !outside;
    }

    /** `InsideCamera(object)` on the corrected test: inside exactly when the object
        has both components and some hitbox is visible. */
    method InsideObjectCorrected(comps: map<Kind, Payload>) returns (r: bool)
      requires Consistent(comps)
      ensures r == !OutsideObjectIntended(View(), comps)
      ensures r <==> (TransformKind in comps && HitboxKind in comps &&
        exists i :: 0 <= i < |comps[HitboxKind].hitboxes| &&
          View().Visible(comps[HitboxKind].hitboxes[i], comps[TransformKind].position))
    {
      var outside := OutsideObjectCorrected(comps);
      r := !outside;
    }

    /** The hitbox loop: whether some hitbox is visible. */
    method FirstVisible(hs: seq<Hitbox>, at: Vec2) returns (found: bool)
      ensures found <==> exists i :: 0 <= i < |hs| && View().Visible(hs[i], at)
    {
      var i := 0;
      while i < |hs|
        invariant 0 <= i <= |hs|
        invariant forall k :: 0 <= k < i ==> !View().Visible(hs[k], at)
      {
        var h := hs[i];
        match h.shape {
          case RectShape(bounds, _) =>
            var b := bounds.Translated(at);
            if !(b.x + b.width < position.x || b.x > position.x + width as real ||
                 b.y + b.height < position.y || b.y > position.y + height as real) {
              return true;
            }
          case CircleShape(center, radius) =>
            var c := center.Add(at);
            if !(c.x + radius < position.x || c.x - radius > position.x + width as real ||
                 c.y + radius < position.y || c.y - radius > position.y + height as real) {
              return true;
            }
          case PolygonShape(vertices) =>
            var j := 0;
            while j < |vertices|
              invariant 0 <= j <= |vertices|
              invariant forall k :: 0 <= k < j ==> View().OutsidePoint(vertices[k].Add(at))
            {
              var w := vertices[j].Add(at);
              if w.x >= position.x && w.x <= position.x + width as real &&
                 w.y >= position.y && w.y <= position.y + height as real {
                return true;
              }
              j := j + 1;
            }
        }
        i := i + 1;
      }
      return false;
    }
  }
}
