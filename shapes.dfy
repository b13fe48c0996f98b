/** Hitbox shapes (Core/Objects/Hitbox/HitboxShape.h, Hitbox.h, CollisionGroups.h) and
    the registry that names their types for the wire (HitboxShapeRegistry.h).

    The three shape classes become one datatype whose constructor is the concrete
    class, so `GetType` is the constructor tag. A shape is a value: its `Decode`, which
    overwrites the fields of a freshly created shape, becomes a reader that returns the
    decoded shape. */
module Shapes {
  import opened Arith
  import opened Wrappers
  import opened VarInt
  import opened Octets
  import opened GMath
  import opened Codec
  import opened Seqs

  // ---------------------------------------------------------------------------
  // Collision groups
  // ---------------------------------------------------------------------------

  /** `enum class CollisionGroup : uint8_t`. A byte read from the wire is cast to the
      enum unchecked, so every byte is a group value; four of them are named. */
  type CollisionGroup = Byte

  const DefaultCollidable: CollisionGroup := 0
  const DefaultNonCollidable: CollisionGroup := 1
  const PlayerGroup: CollisionGroup := 2
  const Projectile: CollisionGroup := 3

  // ---------------------------------------------------------------------------
  // Shapes
  // ---------------------------------------------------------------------------

  datatype ShapeType = Rectangle | Circle | Polygon

  datatype Shape =
    | RectShape(bounds: Rect2, rotation: real)
    | CircleShape(center: Vec2, radius: real)
    | PolygonShape(vertices: seq<Vec2>)
  {
    /** `GetType`: the type of the concrete shape. */
    function GetType(): (t: ShapeType)
      ensures t == Rectangle <==> RectShape?
      ensures t == Circle <==> CircleShape?
      ensures t == Polygon <==> PolygonShape?
    {
      match this
      case RectShape(_, _) => Rectangle
      case CircleShape(_, _) => Circle
      case PolygonShape(_) => Polygon
    }
  }

  /** The default constructors: a unit rectangle at the origin, a circle of radius 0
      at the origin, a polygon without vertices. */
  function DefaultShape(t: ShapeType): (s: Shape)
    ensures s.GetType() == t
    ensures s.RectShape? ==> s.bounds == Rect2(0.0, 0.0, 1.0, 1.0) && s.rotation == 0.0
    ensures s.CircleShape? ==> s.center == Zero2 && s.radius == 0.0
    ensures s.PolygonShape? ==> s.vertices == []
  {
    match t
    case Rectangle => RectShape(Rect2(0.0, 0.0, 1.0, 1.0), 0.0)
    case Circle => CircleShape(Zero2, 0.0)
    case Polygon => PolygonShape([])
  }

  /** `struct Hitbox`: a shape, a trigger flag and a group. */
  datatype Hitbox = Hitbox(shape: Shape, isTrigger: bool, group: CollisionGroup)

  // ---------------------------------------------------------------------------
  // Wire form
  // ---------------------------------------------------------------------------

  /** What `Encode` appends: a rectangle's bounds and float rotation; a circle's
      centre and float radius; a polygon's u32 vertex count and its vertices. */
  function ShapeCells(s: Shape): seq<Octet> {
    match s
    case RectShape(b, rot) => Rect2Cells(b) + RealCells(rot, FLOAT)
    case CircleShape(c, r) => Vector2Cells(c) + RealCells(r, FLOAT)
    case PolygonShape(v) => IntCells(U32, |v| % TWO32) + Flatten(v, Vector2Cells)
  }

  /** `Decode` on a fresh shape of type t: the fields in the order `Encode` wrote
      them. A polygon reads its count and then that many vertices. */
  function ReadShapeAt(buf: seq<Octet>, pos: nat, t: ShapeType): (s: Step<Shape>)
    ensures s.result.Ok? ==> s.result.value.GetType() == t
  {
    match t
    case Rectangle =>
      var b := ReadRect2At(buf, pos);
      if b.result.Err? then Step(Err(b.result.error), b.pos)
      else
        var rot := ReadRealAt(buf, b.pos, FLOAT);
        if rot.result.Err? then Step(Err(rot.result.error), rot.pos)
        else Step(Ok(RectShape(b.result.value, rot.result.value)), rot.pos)
    case Circle =>
      var c := ReadVector2At(buf, pos);
      if c.result.Err? then Step(Err(c.result.error), c.pos)
      else
        var r := ReadRealAt(buf, c.pos, FLOAT);
        if r.result.Err? then Step(Err(r.result.error), r.pos)
        else Step(Ok(CircleShape(c.result.value, r.result.value)), r.pos)
    case Polygon =>
      var count := ReadIntAt(buf, pos, U32);
      if count.result.Err? then Step(Err(count.result.error), count.pos)
      else
        var v := ReadListAt(buf, count.pos, count.result.value, ReadVector2At);
        if v.result.Err? then Step(Err(v.result.error), v.pos)
        else Step(Ok(PolygonShape(v.result.value)), v.pos)
  }

  /** A shape with fewer than 2^32 vertices is read back as itself. */
  predicate Encodable(s: Shape) {
    s.PolygonShape? ==> |s.vertices| < TWO32
  }

  lemma ReadVector2Back(v: Vec2)
    ensures ReadsBack(ReadVector2At, Vector2Cells, v)
  {
    forall b: seq<Octet>, p: nat | HoldsAt(b, p, Vector2Cells(v))
      ensures ReadVector2At(b, p) == Step(Ok(v), p + |Vector2Cells(v)|)
    {
      ReadVector2OfCells(b, p, v);
    }
  }

  /** Decoding what `Encode` wrote gives the shape back. */
  lemma ReadShapeOfCells(buf: seq<Octet>, pos: nat, s: Shape)
    requires Encodable(s) && HoldsAt(buf, pos, ShapeCells(s))
    ensures ReadShapeAt(buf, pos, s.GetType()) == Step(Ok(s), pos + |ShapeCells(s)|)
  {
    match s
    case RectShape(b, rot) =>
      HoldsAtSplit(buf, pos, Rect2Cells(b), RealCells(rot, FLOAT));
      ReadRect2OfCells(buf, pos, b);
      ReadRealOfCells(buf, pos + 32, rot, FLOAT);
    case CircleShape(c, r) =>
      HoldsAtSplit(buf, pos, Vector2Cells(c), RealCells(r, FLOAT));
      ReadVector2OfCells(buf, pos, c);
      ReadRealOfCells(buf, pos + 16, r, FLOAT);
    case PolygonShape(v) =>
      HoldsAtSplit(buf, pos, IntCells(U32, |v| % TWO32), Flatten(v, Vector2Cells));
      ReadLengthOfCells(buf, pos, |v|);
      forall i | 0 <= i < |v|
        ensures ReadsBack(ReadVector2At, Vector2Cells, v[i])
      {
        ReadVector2Back(v[i]);
      }
      ReadListOfCells(buf, pos + 4, v, ReadVector2At, Vector2Cells);
  }

  /** `HitboxShape::Encode`, dispatched on the concrete shape. */
  method EncodeShape(codec: PacketCodec, s: Shape)
    modifies codec
    ensures codec.buffer == old(codec.buffer) + ShapeCells(s)
    ensures codec.readPos == old(codec.readPos)
  {
    match s
    case RectShape(b, rot) =>
      codec.WriteRect2(b);
      codec.WriteReal(rot, FLOAT);
      AppendAssoc(old(codec.buffer), Rect2Cells(b), RealCells(rot, FLOAT));
    case CircleShape(c, r) =>
      codec.WriteVector2(c);
      codec.WriteReal(r, FLOAT);
      AppendAssoc(old(codec.buffer), Vector2Cells(c), RealCells(r, FLOAT));
    case PolygonShape(v) =>
      codec.WriteInt(U32, |v| % TWO32);
      WriteVertices(codec, v);
      AppendAssoc(old(codec.buffer), IntCells(U32, |v| % TWO32), Flatten(v, Vector2Cells));
  }

  /** The loop of `WriteVector2` calls in `PolygonShape::Encode`. */
  method WriteVertices(codec: PacketCodec, v: seq<Vec2>)
    modifies codec
    ensures codec.buffer == old(codec.buffer) + Flatten(v, Vector2Cells)
    ensures codec.readPos == old(codec.readPos)
  {
    for i := 0 to |v|
      invariant codec.buffer == old(codec.buffer) + Flatten(v[..i], Vector2Cells)
      invariant codec.readPos == old(codec.readPos)
    {
      FlattenSnoc(v, i, Vector2Cells);
      codec.WriteVector2(v[i]);
    }
    assert v[..|v|] == v;
  }

  /** `Decode` on a fresh shape of type t, returning the decoded shape. */
  method DecodeShape(codec: PacketCodec, t: ShapeType) returns (r: Result<Shape>)
    modifies codec
    ensures codec.buffer == old(codec.buffer)
    ensures Step(r, codec.readPos) == ReadShapeAt(codec.buffer, old(codec.readPos), t)
  {
    match t
    case Rectangle =>
      var b := codec.ReadRect2();
      if b.Err? {
        return Err(b.error);
      }
      var rot := codec.ReadReal(FLOAT);
      if rot.Err? {
        return Err(rot.error);
      }
      r := Ok(RectShape(b.value, rot.value));
    case Circle =>
      var c := codec.ReadVector2();
      if c.Err? {
        return Err(c.error);
      }
      var rad := codec.ReadReal(FLOAT);
      if rad.Err? {
        return Err(rad.error);
      }
      r := Ok(CircleShape(c.value, rad.value));
    case Polygon =>
      var count := codec.ReadInt(U32);
      if count.Err? {
        return Err(count.error);
      }
      var v := ReadVertices(codec, count.value);
      if v.Err? {
        return Err(v.error);
      }
      r := Ok(PolygonShape(v.value));
  }

  /** The loop of `ReadVector2` calls in `PolygonShape::Decode`, after `clear()`. */
  method ReadVertices(codec: PacketCodec, n: nat) returns (r: Result<seq<Vec2>>)
    modifies codec
    ensures codec.buffer == old(codec.buffer)
    ensures Step(r, codec.readPos) == ReadListAt(codec.buffer, old(codec.readPos), n, ReadVector2At)
  {
    var vertices: seq<Vec2> := [];
    ghost var spec := ReadListAt(codec.buffer, codec.readPos, n, ReadVector2At);
    PrependNothing(spec);
    for i := 0 to n
      invariant codec.buffer == old(codec.buffer)
      invariant spec == Prepend(vertices, ReadListAt(codec.buffer, codec.readPos, n - i, ReadVector2At))
    {
      ghost var before := codec.readPos;
      var v := codec.ReadVector2();
      ReadListStep(codec.buffer, before, n - i, vertices, ReadVector2At);
      if v.Err? {
        return Err(v.error);
      }
      vertices := vertices + [v.value];
    }
    assert vertices + [] == vertices;
    r := Ok(vertices);
  }

  // ---------------------------------------------------------------------------
  // The registry
  // ---------------------------------------------------------------------------

  /** The name `GetName` gives a type: its registered name, or "Unknown". */
  function NameIn(names: map<ShapeType, string>, t: ShapeType): (n: string)
    ensures t in names ==> n == names[t]
    ensures t !in names ==> n == "Unknown"
  {
    if t in names then names[t] else "Unknown"
  }

  /** `HitboxShapeRegistry`: its two static maps, from names to shape types
      (`registry`, whose factories build the default shape of the type) and from
      types to names (`reverse`). */
  class HitboxShapeRegistry {
    var registry: map<string, ShapeType>
    var reverse: map<ShapeType, string>

    /** The static maps start empty. */
    constructor()
      ensures registry == map[] && reverse == map[]
    {
      registry := map[];
      reverse := map[];
    }

    /** `Register<T>(name)`: a later registration of the name or the type overwrites
        the earlier one. */
    method Register(t: ShapeType, name: string)
      modifies this
      ensures registry == old(registry)[name := t]
      ensures reverse == old(reverse)[t := name]
      ensures Create(name) == Some(DefaultShape(t)) && GetName(t) == name
    {
      registry := registry[name := t];
      reverse := reverse[t := name];
    }

    /** `RegStatic`: the three shape classes under their class names. */
    method RegStatic()
      modifies this
      ensures registry == old(registry)["RectShape" := Rectangle]["CircleShape" := Circle]
                                       ["PolygonShape" := Polygon]
      ensures reverse == old(reverse)[Rectangle := "RectShape"][Circle := "CircleShape"]
                                     [Polygon := "PolygonShape"]
      ensures GetName(Rectangle) == "RectShape" && GetName(Circle) == "CircleShape" &&
              GetName(Polygon) == "PolygonShape"
      ensures Create("RectShape").Some? && Create("RectShape").value.GetType() == Rectangle
      ensures Create("CircleShape").Some? && Create("CircleShape").value.GetType() == Circle
      ensures Create("PolygonShape").Some? && Create("PolygonShape").value.GetType() == Polygon
    {
      Register(Rectangle, "RectShape");
      Register(Circle, "CircleShape");
      Register(Polygon, "PolygonShape");
    }

    /** `Create(name)`: a default shape of the registered type, or null. */
    function Create(name: string): (r: Option<Shape>)
      reads this
      ensures r.None? <==> name !in registry
      ensures r.Some? ==> r.value.GetType() == registry[name]
    {
      if name in registry then Some(DefaultShape(registry[name])) else None
    }

    /** `GetName(type)`. */
    function GetName(t: ShapeType): (n: string)
      reads this
      ensures t !in reverse ==> n == "Unknown"
    {
      NameIn(reverse, t)
    }
  }
}
