/** Components (the headers under Core/Components, CoreImpl/Component.cpp, CoreImpl/TransformComponent.cpp)
    and the registry that names them for the wire (ComponentRegistry.h).

    The C++ base class `Component` and its five concrete subclasses become one class:
    the fields of the base class (owner, enabled flag, the two signals) plus a `data`
    field holding the concrete subclass's own fields. The constructor of `data` is the
    concrete class, so `data.KindOf()` is what `typeid` tells apart in the source. The
    methods of a subclass require `data` to be of that subclass. */
module Components {
  import opened Arith
  import opened Wrappers
  import opened VarInt
  import opened Octets
  import opened GMath
  import opened Codec
  import opened Seqs
  import opened Shapes
  import opened Signals

  // ---------------------------------------------------------------------------
  // The concrete component classes and their fields
  // ---------------------------------------------------------------------------

  datatype Kind = TransformKind | HitboxKind | PhysicalKind | HealthKind | AttributesKind

  /** The fields of each concrete component: `TransformComponent`,
      `HitboxComponent`, `PhysicalPropertiesComponent`, `HealthComponent` (C++ `int`
      fields) and `EntityAttributesComponent`. */
  datatype Payload =
    | Transform(position: Vec2, scale: Vec2, velocity: Vec2, acceleration: Vec2, rotation: real)
    | Hitboxes(hitboxes: seq<Hitbox>)
    | Physical(mass: real, anchored: bool)
    | Health(health: int, maxHealth: int, healAmount: int)
    | Attributes(moveSpeed: real, canConsumeItems: bool)
  {
    /** The concrete class. */
    function KindOf(): (k: Kind)
      ensures k == TransformKind <==> Transform?
      ensures k == HitboxKind <==> Hitboxes?
      ensures k == PhysicalKind <==> Physical?
      ensures k == HealthKind <==> Health?
      ensures k == AttributesKind <==> Attributes?
    {
      match this
      case Transform(_, _, _, _, _) => TransformKind
      case Hitboxes(_) => HitboxKind
      case Physical(_, _) => PhysicalKind
      case Health(_, _, _) => HealthKind
      case Attributes(_, _) => AttributesKind
    }
  }

  const One2 := Vec2(1.0, 1.0)

  /** `TransformComponent(pos, scl, rot)`; velocity and acceleration take `Vector2`'s
      default (0, 0). */
  function TransformAt(pos: Vec2, scl: Vec2, rot: real): (p: Payload)
    ensures p.Transform? && p.position == pos && p.scale == scl && p.rotation == rot
    ensures p.velocity == Zero2 && p.acceleration == Zero2
  {
    Transform(pos, scl, Zero2, Zero2, rot)
  }

  /** `TransformComponent()`: at the origin, unit scale, no rotation, at rest. */
  const DefaultTransform: Payload := TransformAt(Zero2, One2, 0.0)

  /** `HealthComponent(maxHealth)`: full health, no healing. */
  function HealthOf(maxHealth: int): (p: Payload)
    ensures p.Health? && p.health == maxHealth && p.maxHealth == maxHealth && p.healAmount == 0
  {
    Health(maxHealth, maxHealth, 0)
  }

  /** The smallest mass `PhysicalPropertiesComponent` stores (0.001f). */
  const MinMass: real := 0.001

  /** `std::max(0.001f, m)`. */
  function MassFloor(m: real): (r: real)
    ensures r >= MinMass
    ensures m >= MinMass ==> r == m
    ensures m < MinMass ==> r == MinMass
  {
    if MinMass < m then m else MinMass
  }

  /** `PhysicalPropertiesComponent(m)`: the floored mass, not anchored. */
  function PhysicalOf(m: real): (p: Payload)
    ensures p.Physical? && p.mass >= MinMass && !p.anchored
    ensures m >= MinMass ==> p.mass == m
  {
    Physical(MassFloor(m), false)
  }

  /** The default constructor of each class, which the registry's factories call. */
  function DefaultPayload(k: Kind): (p: Payload)
    ensures p.KindOf() == k
    ensures p.Transform? ==> p == TransformAt(Zero2, One2, 0.0)
    ensures p.Hitboxes? ==> p.hitboxes == []
    ensures p.Physical? ==> p.mass == 1.0 && !p.anchored
    ensures p.Health? ==> p == HealthOf(100)
    ensures p.Attributes? ==> p.moveSpeed == 1.0 && !p.canConsumeItems
  {
    match k
    case TransformKind => DefaultTransform
    case HitboxKind => Hitboxes([])
    case PhysicalKind => Physical(1.0, false)
    case HealthKind => HealthOf(100)
    case AttributesKind => Attributes(1.0, false)
  }

  // ---------------------------------------------------------------------------
  // Health arithmetic
  // ---------------------------------------------------------------------------

  /** `std::clamp(v, lo, hi)`: lo below the range, hi above it, v otherwise. (The C++
      call is undefined when hi < lo; this one then returns lo for v < lo and hi
      otherwise.) */
  function ClampInt(v: int, lo: int, hi: int): (r: int)
    ensures lo <= hi ==> lo <= r <= hi
    ensures lo <= v <= hi ==> r == v
    ensures r == v || r == lo || r == hi
  {
    if v < lo then lo else if hi < v then hi else v
  }

  /** 0 <= health <= maxHealth. */
  predicate HealthInRange(p: Payload) {
    p.Health? ==> 0 <= p.health <= p.maxHealth
  }

  /** The health `HealthComponent::Tick` leaves: healed by healAmount, through
      `SetHealth`, when healAmount > 0 and health < maxHealth. */
  function TickedHealth(health: int, maxHealth: int, healAmount: int): (r: int)
    ensures !(healAmount > 0 && health < maxHealth) ==> r == health
    ensures healAmount > 0 && health < maxHealth ==> health < r
    ensures healAmount > 0 && health < maxHealth && 0 <= maxHealth ==> r <= maxHealth
    ensures 0 <= health <= maxHealth ==> 0 <= r <= maxHealth
  {
    if healAmount > 0 && health < maxHealth then ClampInt(health + healAmount, 0, maxHealth)
    else health
  }

  /** What `Tick` does to a component's fields: only `HealthComponent` heals. */
  function TickPayload(p: Payload): (r: Payload)
    ensures r.KindOf() == p.KindOf()
    ensures !p.Health? ==> r == p
    ensures p.Health? ==> r == p.(health := TickedHealth(p.health, p.maxHealth, p.healAmount))
    ensures HealthInRange(p) ==> HealthInRange(r)
  {
    if p.Health? then p.(health := TickedHealth(p.health, p.maxHealth, p.healAmount)) else p
  }

  /** Ticks never take health away, and a component at full health stays there. */
  lemma {:induction false} TickingHeals(health: int, maxHealth: int, healAmount: int, n: nat)
    requires 0 <= health <= maxHealth
    ensures var h := TicksHealth(health, maxHealth, healAmount, n);
      health <= h <= maxHealth && (healAmount > 0 && n >= maxHealth - health ==> h == maxHealth)
    decreases n
  {
    if n > 0 {
      var h1 := TickedHealth(health, maxHealth, healAmount);
      TickingHeals(h1, maxHealth, healAmount, n - 1);
    }
  }

  /** The health after n ticks. */
  function TicksHealth(health: int, maxHealth: int, healAmount: int, n: nat): int
    decreases n
  {
    if n == 0 then health
    else TicksHealth(TickedHealth(health, maxHealth, healAmount), maxHealth, healAmount, n - 1)
  }

  // ---------------------------------------------------------------------------
  // Wire form
  // ---------------------------------------------------------------------------

  /** One hitbox as `HitboxComponent::Encode` writes it: the registered name of its
      shape's type, the shape, the trigger flag and the group byte. */
  function HitboxCells(h: Hitbox, names: map<ShapeType, string>): seq<Octet> {
    StringCells(NameIn(names, h.shape.GetType())) + ShapeCells(h.shape) +
    BoolCells(h.isTrigger) + IntCells(U8, h.group)
  }

  function HitboxWriter(names: map<ShapeType, string>): Hitbox -> seq<Octet> {
    h => HitboxCells(h, names)
  }

  /** What each component's `Encode` appends. */
  function PayloadCells(p: Payload, names: map<ShapeType, string>): seq<Octet> {
    match p
    case Transform(pos, scl, vel, acc, rot) =>
      Vector2Cells(pos) + Vector2Cells(scl) + Vector2Cells(vel) + Vector2Cells(acc) +
      RealCells(rot, FLOAT)
    case Hitboxes(hs) => IntCells(U32, |hs| % TWO32) + Flatten(hs, HitboxWriter(names))
    case Physical(m, a) => RealCells(m, FLOAT) + BoolCells(a)
    case Health(h, m, a) => IntCells(I32, h) + IntCells(I32, m) + IntCells(I32, a)
    case Attributes(s, c) => RealCells(s, DOUBLE) + BoolCells(c)
  }

  const ErrUnknownShape := "HitboxComponent: unregistered shape type."

  /** One hitbox as `HitboxComponent::Decode` reads it. The source dereferences the
      registry's null result for an unregistered name; here that is an error. */
  function ReadHitboxAt(buf: seq<Octet>, pos: nat, registry: map<string, ShapeType>): (s: Step<Hitbox>)
    ensures s.result.Ok? ==>
      && ReadStringAt(buf, pos).result.Ok?
      && ReadStringAt(buf, pos).result.value in registry
      && s.result.value.shape.GetType() == registry[ReadStringAt(buf, pos).result.value]
  {
    var name := ReadStringAt(buf, pos);
    if name.result.Err? then Step(Err(name.result.error), name.pos)
    else if name.result.value !in registry then Step(Err(ErrUnknownShape), name.pos)
    else ReadHitboxFieldsAt(buf, name.pos, registry[name.result.value])
  }

  /** The rest of a hitbox once its shape's class is known: the shape, the trigger
      flag and the collision group. */
  function ReadHitboxFieldsAt(buf: seq<Octet>, pos: nat, t: ShapeType): (s: Step<Hitbox>)
    ensures s.result.Ok? ==> s.result.value.shape.GetType() == t
  {
    var shape := ReadShapeAt(buf, pos, t);
    if shape.result.Err? then Step(Err(shape.result.error), shape.pos)
    else ReadHitboxFlagsAt(buf, shape.pos, shape.result.value)
  }

  /** The trigger flag and the collision group that follow a hitbox's shape. */
  function ReadHitboxFlagsAt(buf: seq<Octet>, pos: nat, shape: Shape): (s: Step<Hitbox>)
    ensures s.result.Ok? ==> s.result.value.shape == shape
  {
    var trigger := ReadBoolAt(buf, pos);
    if trigger.result.Err? then Step(Err(trigger.result.error), trigger.pos)
    else
      var group := ReadIntAt(buf, trigger.pos, U8);
      if group.result.Err? then Step(Err(group.result.error), group.pos)
      else Step(Ok(Hitbox(shape, trigger.result.value, group.result.value % 256)), group.pos)
  }

  function HitboxReader(registry: map<string, ShapeType>): Reader<Hitbox> {
    (b: seq<Octet>, p: nat) => ReadHitboxAt(b, p, registry)
  }

  function ReadTransformAt(buf: seq<Octet>, pos: nat): (s: Step<Payload>)
    ensures s.result.Ok? ==> s.result.value.Transform?
  {
    var position := ReadVector2At(buf, pos);
    if position.result.Err? then Step(Err(position.result.error), position.pos)
    else
      var scale := ReadVector2At(buf, position.pos);
      if scale.result.Err? then Step(Err(scale.result.error), scale.pos)
      else
        var velocity := ReadVector2At(buf, scale.pos);
        if velocity.result.Err? then Step(Err(velocity.result.error), velocity.pos)
        else
          var acceleration := ReadVector2At(buf, velocity.pos);
          if acceleration.result.Err? then Step(Err(acceleration.result.error), acceleration.pos)
          else
            var rotation := ReadRealAt(buf, acceleration.pos, FLOAT);
            if rotation.result.Err? then Step(Err(rotation.result.error), rotation.pos)
            else Step(Ok(Transform(position.result.value, scale.result.value, velocity.result.value,
                                   acceleration.result.value, rotation.result.value)), rotation.pos)
  }

  function ReadHitboxesAt(buf: seq<Octet>, pos: nat, registry: map<string, ShapeType>): (s: Step<Payload>)
    ensures s.result.Ok? ==> s.result.value.Hitboxes?
  {
    var count := ReadIntAt(buf, pos, U32);
    if count.result.Err? then Step(Err(count.result.error), count.pos)
    else
      var hs := ReadListAt(buf, count.pos, count.result.value, HitboxReader(registry));
      if hs.result.Err? then Step(Err(hs.result.error), hs.pos)
      else Step(Ok(Hitboxes(hs.result.value)), hs.pos)
  }

  /** The mass is read as it was written: the 0.001 floor is not applied. */
  function ReadPhysicalAt(buf: seq<Octet>, pos: nat): (s: Step<Payload>)
    ensures s.result.Ok? ==> s.result.value.Physical?
  {
    var mass := ReadRealAt(buf, pos, FLOAT);
    if mass.result.Err? then Step(Err(mass.result.error), mass.pos)
    else
      var anchored := ReadBoolAt(buf, mass.pos);
      if anchored.result.Err? then Step(Err(anchored.result.error), anchored.pos)
      else Step(Ok(Physical(mass.result.value, anchored.result.value)), anchored.pos)
  }

  function ReadHealthAt(buf: seq<Octet>, pos: nat): (s: Step<Payload>)
    ensures s.result.Ok? ==> s.result.value.Health?
  {
    var health := ReadIntAt(buf, pos, I32);
    if health.result.Err? then Step(Err(health.result.error), health.pos)
    else
      var maxHealth := ReadIntAt(buf, health.pos, I32);
      if maxHealth.result.Err? then Step(Err(maxHealth.result.error), maxHealth.pos)
      else
        var healAmount := ReadIntAt(buf, maxHealth.pos, I32);
        if healAmount.result.Err? then Step(Err(healAmount.result.error), healAmount.pos)
        else Step(Ok(Health(health.result.value, maxHealth.result.value, healAmount.result.value)),
                  healAmount.pos)
  }

  function ReadAttributesAt(buf: seq<Octet>, pos: nat): (s: Step<Payload>)
    ensures s.result.Ok? ==> s.result.value.Attributes?
  {
    var speed := ReadRealAt(buf, pos, DOUBLE);
    if speed.result.Err? then Step(Err(speed.result.error), speed.pos)
    else
      var consume := ReadBoolAt(buf, speed.pos);
      if consume.result.Err? then Step(Err(consume.result.error), consume.pos)
      else Step(Ok(Attributes(speed.result.value, consume.result.value)), consume.pos)
  }

  /** What `Decode` of a component of class k reads. */
  function ReadPayloadAt(buf: seq<Octet>, pos: nat, k: Kind, registry: map<string, ShapeType>): (s: Step<Payload>)
    ensures s.result.Ok? ==> s.result.value.KindOf() == k
  {
    match k
    case TransformKind => ReadTransformAt(buf, pos)
    case HitboxKind => ReadHitboxesAt(buf, pos, registry)
    case PhysicalKind => ReadPhysicalAt(buf, pos)
    case HealthKind => ReadHealthAt(buf, pos)
    case AttributesKind => ReadAttributesAt(buf, pos)
  }

  // ---------------------------------------------------------------------------
  // Round trips
  // ---------------------------------------------------------------------------

  /** The name the writer gives shapes of type t is a byte string that the reader's
      registry maps back to t. */
  predicate NameReadsBack(names: map<ShapeType, string>, registry: map<string, ShapeType>, t: ShapeType) {
    var n := NameIn(names, t);
    IsByteString(n) && |n| < TWO32 && n in registry && registry[n] == t
  }

  /** A hitbox the reader gets back: its shape is encodable and its type's name is
      registered in both directions. */
  predicate HitboxEncodable(h: Hitbox, names: map<ShapeType, string>, registry: map<string, ShapeType>) {
    Encodable(h.shape) && NameReadsBack(names, registry, h.shape.GetType())
  }

  /** Component data the reader gets back: C++ `int`s in range, fewer than 2^32
      hitboxes, each encodable. */
  predicate PayloadEncodable(p: Payload, names: map<ShapeType, string>, registry: map<string, ShapeType>) {
    match p
    case Health(h, m, a) => I32.Holds(h) && I32.Holds(m) && I32.Holds(a)
    case Hitboxes(hs) =>
      |hs| < TWO32 && forall i :: 0 <= i < |hs| ==> HitboxEncodable(hs[i], names, registry)
    case _ => true
  }

  lemma ReadHitboxOfCells(buf: seq<Octet>, pos: nat, h: Hitbox, names: map<ShapeType, string>,
                          registry: map<string, ShapeType>)
    requires HitboxEncodable(h, names, registry) && HoldsAt(buf, pos, HitboxCells(h, names))
    ensures ReadHitboxAt(buf, pos, registry) == Step(Ok(h), pos + |HitboxCells(h, names)|)
  {
    var p1, p2 := HitboxCellsSplit(buf, pos, h, names);
    ReadHitboxFieldsOfCells(buf, p1, h);
    ReadStringOfCells(buf, pos, NameIn(names, h.shape.GetType()));
    ReadHitboxOfParts(buf, pos, registry, NameIn(names, h.shape.GetType()), p1, h, p2);
  }

  /** A hitbox's cells are its shape type's name, then the rest of its fields. */
  lemma HitboxCellsSplit(buf: seq<Octet>, pos: nat, h: Hitbox, names: map<ShapeType, string>) returns (p1: nat, p2: nat)
    requires HoldsAt(buf, pos, HitboxCells(h, names))
    ensures HoldsAt(buf, pos, StringCells(NameIn(names, h.shape.GetType())))
    ensures p1 == pos + |StringCells(NameIn(names, h.shape.GetType()))|
    ensures HoldsAt(buf, p1, ShapeCells(h.shape) + BoolCells(h.isTrigger) + IntCells(U8, h.group))
    ensures p2 == p1 + |ShapeCells(h.shape) + BoolCells(h.isTrigger) + IntCells(U8, h.group)|
    ensures p2 == pos + |HitboxCells(h, names)|
  {
    var c1, rest := StringCells(NameIn(names, h.shape.GetType())),
      ShapeCells(h.shape) + BoolCells(h.isTrigger) + IntCells(U8, h.group);
    assert HitboxCells(h, names) == c1 + rest;
    HoldsAtSplit(buf, pos, c1, rest);
    p1 := pos + |c1|;
    p2 := p1 + |rest|;
  }

  /** A registered shape type's name followed by the rest of a hitbox of that type. */
  lemma ReadHitboxOfParts(buf: seq<Octet>, pos: nat, registry: map<string, ShapeType>, name: string,
                          p1: nat, h: Hitbox, p2: nat)
    requires ReadStringAt(buf, pos) == Step(Ok(name), p1)
    requires name in registry && registry[name] == h.shape.GetType()
    requires ReadHitboxFieldsAt(buf, p1, h.shape.GetType()) == Step(Ok(h), p2)
    ensures ReadHitboxAt(buf, pos, registry) == Step(Ok(h), p2)
  {
  }

  lemma ReadHitboxFieldsOfCells(buf: seq<Octet>, pos: nat, h: Hitbox)
    requires Encodable(h.shape)
    requires HoldsAt(buf, pos, ShapeCells(h.shape) + BoolCells(h.isTrigger) + IntCells(U8, h.group))
    ensures ReadHitboxFieldsAt(buf, pos, h.shape.GetType()) ==
      Step(Ok(h), pos + |ShapeCells(h.shape) + BoolCells(h.isTrigger) + IntCells(U8, h.group)|)
  {
    var c2, rest := ShapeCells(h.shape), BoolCells(h.isTrigger) + IntCells(U8, h.group);
    assert ShapeCells(h.shape) + BoolCells(h.isTrigger) + IntCells(U8, h.group) == c2 + rest;
    HoldsAtSplit(buf, pos, c2, rest);
    ReadShapeOfCells(buf, pos, h.shape);
    ReadHitboxFlagsOfCells(buf, pos + |c2|, h);
  }

  lemma ReadHitboxFlagsOfCells(buf: seq<Octet>, pos: nat, h: Hitbox)
    requires HoldsAt(buf, pos, BoolCells(h.isTrigger) + IntCells(U8, h.group))
    ensures ReadHitboxFlagsAt(buf, pos, h.shape) ==
      Step(Ok(h), pos + |BoolCells(h.isTrigger) + IntCells(U8, h.group)|)
  {
    var c3, c4 := BoolCells(h.isTrigger), IntCells(U8, h.group);
    HoldsAtSplit(buf, pos, c3, c4);
    ReadBoolOfCells(buf, pos, h.isTrigger);
    assert U8.Holds(h.group) by {
      Pow256Values();
    }
    ReadIntOfCells(buf, pos + |c3|, U8, h.group);
  }

  lemma HitboxReadsBack(h: Hitbox, names: map<ShapeType, string>, registry: map<string, ShapeType>)
    requires HitboxEncodable(h, names, registry)
    ensures ReadsBack(HitboxReader(registry), HitboxWriter(names), h)
  {
    forall b: seq<Octet>, p: nat | HoldsAt(b, p, HitboxWriter(names)(h))
      ensures HitboxReader(registry)(b, p) == Step(Ok(h), p + |HitboxWriter(names)(h)|)
    {
      ReadHitboxOfCells(b, p, h, names, registry);
    }
  }

  lemma HitboxesReadBack(hs: seq<Hitbox>, names: map<ShapeType, string>, registry: map<string, ShapeType>)
    requires forall i :: 0 <= i < |hs| ==> HitboxEncodable(hs[i], names, registry)
    ensures forall i :: 0 <= i < |hs| ==> ReadsBack(HitboxReader(registry), HitboxWriter(names), hs[i])
  {
    forall i | 0 <= i < |hs|
      ensures ReadsBack(HitboxReader(registry), HitboxWriter(names), hs[i])
    {
      HitboxReadsBack(hs[i], names, registry);
    }
  }

  lemma ReadHitboxesOfCells(buf: seq<Octet>, pos: nat, hs: seq<Hitbox>, names: map<ShapeType, string>,
                            registry: map<string, ShapeType>)
    requires PayloadEncodable(Hitboxes(hs), names, registry)
    requires HoldsAt(buf, pos, PayloadCells(Hitboxes(hs), names))
    ensures ReadHitboxesAt(buf, pos, registry) == Step(Ok(Hitboxes(hs)), pos + |PayloadCells(Hitboxes(hs), names)|)
  {
    HoldsAtSplit(buf, pos, IntCells(U32, |hs| % TWO32), Flatten(hs, HitboxWriter(names)));
    ReadLengthOfCells(buf, pos, |hs|);
    HitboxesReadBack(hs, names, registry);
    ReadListOfCells(buf, pos + 4, hs, HitboxReader(registry), HitboxWriter(names));
    var count := ReadIntAt(buf, pos, U32);
    assert count == Step(Ok(|hs|), pos + 4);
    var list := ReadListAt(buf, count.pos, count.result.value, HitboxReader(registry));
    assert list == Step(Ok(hs), pos + 4 + |Flatten(hs, HitboxWriter(names))|);
  }

  lemma ReadTransformOfCells(buf: seq<Octet>, pos: nat, p: Payload)
    requires p.Transform? && HoldsAt(buf, pos, PayloadCells(p, map[]))
    ensures ReadTransformAt(buf, pos) == Step(Ok(p), pos + |PayloadCells(p, map[])|)
  {
    var c1, c2, c3, c4 := Vector2Cells(p.position), Vector2Cells(p.scale), Vector2Cells(p.velocity),
      Vector2Cells(p.acceleration);
    var c5 := RealCells(p.rotation, FLOAT);
    HoldsAtSplit(buf, pos, c1 + c2 + c3 + c4, c5);
    HoldsAtSplit(buf, pos, c1 + c2 + c3, c4);
    HoldsAtSplit(buf, pos, c1 + c2, c3);
    HoldsAtSplit(buf, pos, c1, c2);
    ReadVector2OfCells(buf, pos, p.position);
    ReadVector2OfCells(buf, pos + 16, p.scale);
    ReadVector2OfCells(buf, pos + 32, p.velocity);
    ReadVector2OfCells(buf, pos + 48, p.acceleration);
    ReadRealOfCells(buf, pos + 64, p.rotation, FLOAT);
  }

  lemma ReadHealthOfCells(buf: seq<Octet>, pos: nat, p: Payload)
    requires p.Health? && PayloadEncodable(p, map[], map[]) && HoldsAt(buf, pos, PayloadCells(p, map[]))
    ensures ReadHealthAt(buf, pos) == Step(Ok(p), pos + 12)
  {
    var c1, c2, c3 := IntCells(I32, p.health), IntCells(I32, p.maxHealth), IntCells(I32, p.healAmount);
    HoldsAtSplit(buf, pos, c1 + c2, c3);
    HoldsAtSplit(buf, pos, c1, c2);
    ReadIntOfCells(buf, pos, I32, p.health);
    ReadIntOfCells(buf, pos + 4, I32, p.maxHealth);
    ReadIntOfCells(buf, pos + 8, I32, p.healAmount);
  }

  /** Decoding what a component's `Encode` wrote gives its fields back, for a component
      of the same class. */
  lemma ReadPayloadOfCells(buf: seq<Octet>, pos: nat, p: Payload, names: map<ShapeType, string>,
                           registry: map<string, ShapeType>)
    requires PayloadEncodable(p, names, registry) && HoldsAt(buf, pos, PayloadCells(p, names))
    ensures ReadPayloadAt(buf, pos, p.KindOf(), registry) == Step(Ok(p), pos + |PayloadCells(p, names)|)
  {
    match p
    case Transform(_, _, _, _, _) =>
      ReadTransformOfCells(buf, pos, p);
    case Hitboxes(hs) =>
      ReadHitboxesOfCells(buf, pos, hs, names, registry);
    case Physical(m, a) =>
      HoldsAtSplit(buf, pos, RealCells(m, FLOAT), BoolCells(a));
      ReadRealOfCells(buf, pos, m, FLOAT);
      ReadBoolOfCells(buf, pos + 4, a);
    case Health(_, _, _) =>
      ReadHealthOfCells(buf, pos, p);
    case Attributes(s, c) =>
      HoldsAtSplit(buf, pos, RealCells(s, DOUBLE), BoolCells(c));
      ReadRealOfCells(buf, pos, s, DOUBLE);
      ReadBoolOfCells(buf, pos + 8, c);
  }

  /** A mass below the floor survives a round trip: `Decode` does not floor it. */
  lemma DecodeKeepsSmallMass(m: real, anchored: bool, registry: map<string, ShapeType>)
    requires m < MinMass
    ensures ReadPayloadAt(PayloadCells(Physical(m, anchored), map[]), 0, PhysicalKind, registry).result ==
      Ok(Physical(m, anchored))
    ensures PhysicalOf(m).mass != m
  {
    ReadPayloadOfCells(PayloadCells(Physical(m, anchored), map[]), 0, Physical(m, anchored), map[], registry);
  }

  /** A hitbox whose shape name is not registered on the reading side stops the read. */
  lemma UnregisteredShapeFails(buf: seq<Octet>, pos: nat, h: Hitbox, names: map<ShapeType, string>,
                               registry: map<string, ShapeType>)
    requires IsByteString(NameIn(names, h.shape.GetType())) && |NameIn(names, h.shape.GetType())| < TWO32
    requires NameIn(names, h.shape.GetType()) !in registry
    requires HoldsAt(buf, pos, HitboxCells(h, names))
    ensures ReadHitboxAt(buf, pos, registry).result == Err(ErrUnknownShape)
  {
    var name := NameIn(names, h.shape.GetType());
    HoldsAtSplit(buf, pos, StringCells(name),
                 ShapeCells(h.shape) + BoolCells(h.isTrigger) + IntCells(U8, h.group));
    ReadStringOfCells(buf, pos, name);
  }

  // ---------------------------------------------------------------------------
  // Writers and readers on the codec
  // ---------------------------------------------------------------------------

  /** The loop of `HitboxComponent::Encode`. */
  method WriteHitboxes(codec: PacketCodec, hs: seq<Hitbox>, shapes: HitboxShapeRegistry)
    modifies codec
    ensures codec.buffer == old(codec.buffer) + Flatten(hs, HitboxWriter(shapes.reverse))
    ensures codec.readPos == old(codec.readPos)
  {
    for i := 0 to |hs|
      invariant codec.buffer == old(codec.buffer) + Flatten(hs[..i], HitboxWriter(shapes.reverse))
      invariant codec.readPos == old(codec.readPos)
    {
      FlattenSnoc(hs, i, HitboxWriter(shapes.reverse));
      WriteHitbox(codec, hs[i], shapes);
      AppendAssoc(old(codec.buffer), Flatten(hs[..i], HitboxWriter(shapes.reverse)), HitboxWriter(shapes.reverse)(hs[i]));
    }
    assert hs[..|hs|] == hs;
  }

  /** One hitbox, as `HitboxComponent::Encode` writes it. */
  method WriteHitbox(codec: PacketCodec, h: Hitbox, shapes: HitboxShapeRegistry)
    modifies codec
    ensures codec.buffer == old(codec.buffer) + HitboxWriter(shapes.reverse)(h)
    ensures codec.readPos == old(codec.readPos)
  {
    var name := shapes.GetName(h.shape.GetType());
    codec.WriteString(name);
    ghost var b1 := codec.buffer;
    EncodeShape(codec, h.shape);
    ghost var b2 := codec.buffer;
    codec.WriteBool(h.isTrigger);
    ghost var b3 := codec.buffer;
    codec.WriteInt(U8, h.group);
    HitboxAppend(old(codec.buffer), h, shapes.reverse);
  }

  /** Appending a hitbox's parts one after the other appends its cells. */
  lemma HitboxAppend(start: seq<Octet>, h: Hitbox, names: map<ShapeType, string>)
    ensures start + StringCells(NameIn(names, h.shape.GetType())) + ShapeCells(h.shape) +
      BoolCells(h.isTrigger) + IntCells(U8, h.group) == start + HitboxWriter(names)(h)
  {
    var c1, c2, c3, c4 := StringCells(NameIn(names, h.shape.GetType())), ShapeCells(h.shape),
      BoolCells(h.isTrigger), IntCells(U8, h.group);
    assert start + c1 + c2 + c3 + c4 == start + (c1 + c2 + c3 + c4);
  }

  /** `Encode` of each component class. */
  method EncodePayload(codec: PacketCodec, p: Payload, shapes: HitboxShapeRegistry)
    modifies codec
    ensures codec.buffer == old(codec.buffer) + PayloadCells(p, shapes.reverse)
    ensures codec.readPos == old(codec.readPos)
  {
    match p
    case Transform(pos, scl, vel, acc, rot) =>
      codec.WriteVector2(pos);
      codec.WriteVector2(scl);
      codec.WriteVector2(vel);
      codec.WriteVector2(acc);
      codec.WriteReal(rot, FLOAT);
    case Hitboxes(hs) =>
      codec.WriteInt(U32, |hs| % TWO32);
      WriteHitboxes(codec, hs, shapes);
      AppendAssoc(old(codec.buffer), IntCells(U32, |hs| % TWO32), Flatten(hs, HitboxWriter(shapes.reverse)));
    case Physical(m, a) =>
      codec.WriteReal(m, FLOAT);
      codec.WriteBool(a);
      AppendAssoc(old(codec.buffer), RealCells(m, FLOAT), BoolCells(a));
    case Health(h, m, a) =>
      codec.WriteInt(I32, h);
      codec.WriteInt(I32, m);
      codec.WriteInt(I32, a);
    case Attributes(s, c) =>
      codec.WriteReal(s, DOUBLE);
      codec.WriteBool(c);
      AppendAssoc(old(codec.buffer), RealCells(s, DOUBLE), BoolCells(c));
  }

  /** One pass of the loop of `HitboxComponent::Decode`. */
  method ReadHitbox(codec: PacketCodec, shapes: HitboxShapeRegistry) returns (r: Result<Hitbox>)
    modifies codec
    ensures codec.buffer == old(codec.buffer)
    ensures Step(r, codec.readPos) == ReadHitboxAt(codec.buffer, old(codec.readPos), shapes.registry)
  {
    var name := codec.ReadString();
    if name.Err? {
      return Err(name.error);
    }
    var created := shapes.Create(name.value);
    if created.None? {
      return Err(ErrUnknownShape);
    }
    var shape := DecodeShape(codec, created.value.GetType());
    if shape.Err? {
      return Err(shape.error);
    }
    var trigger := codec.ReadBool();
    if trigger.Err? {
      return Err(trigger.error);
    }
    var group := codec.ReadInt(U8);
    if group.Err? {
      return Err(group.error);
    }
    r := Ok(Hitbox(shape.value, trigger.value, group.value % 256));
  }

  /** The loop of `HitboxComponent::Decode`, after `clear()`. */
  method ReadHitboxes(codec: PacketCodec, n: nat, shapes: HitboxShapeRegistry) returns (r: Result<seq<Hitbox>>)
    modifies codec
    ensures codec.buffer == old(codec.buffer)
    ensures Step(r, codec.readPos) == ReadListAt(codec.buffer, old(codec.readPos), n, HitboxReader(shapes.registry))
  {
    var hitboxes: seq<Hitbox> := [];
    ghost var item := HitboxReader(shapes.registry);
    ghost var spec := ReadListAt(codec.buffer, codec.readPos, n, item);
    PrependNothing(spec);
    for i := 0 to n
      invariant codec.buffer == old(codec.buffer)
      invariant spec == Prepend(hitboxes, ReadListAt(codec.buffer, codec.readPos, n - i, item))
    {
      ghost var before := codec.readPos;
      var h := ReadHitbox(codec, shapes);
      ReadListStep(codec.buffer, before, n - i, hitboxes, item);
      if h.Err? {
        return Err(h.error);
      }
      hitboxes := hitboxes + [h.value];
    }
    assert hitboxes + [] == hitboxes;
    r := Ok(hitboxes);
  }

  /** `Decode` of each component class, returning the fields it read. */
  method DecodePayload(codec: PacketCodec, k: Kind, shapes: HitboxShapeRegistry) returns (r: Result<Payload>)
    modifies codec
    ensures codec.buffer == old(codec.buffer)
    ensures Step(r, codec.readPos) == ReadPayloadAt(codec.buffer, old(codec.readPos), k, shapes.registry)
  {
    match k
    case TransformKind =>
      var position := codec.ReadVector2();
      if position.Err? { return Err(position.error); }
      var scale := codec.ReadVector2();
      if scale.Err? { return Err(scale.error); }
      var velocity := codec.ReadVector2();
      if velocity.Err? { return Err(velocity.error); }
      var acceleration := codec.ReadVector2();
      if acceleration.Err? { return Err(acceleration.error); }
      var rotation := codec.ReadReal(FLOAT);
      if rotation.Err? { return Err(rotation.error); }
      r := Ok(Transform(position.value, scale.value, velocity.value, acceleration.value, rotation.value));
    case HitboxKind =>
      var count := codec.ReadInt(U32);
      if count.Err? { return Err(count.error); }
      var hs := ReadHitboxes(codec, count.value, shapes);
      if hs.Err? { return Err(hs.error); }
      r := Ok(Hitboxes(hs.value));
    case PhysicalKind =>
      var mass := codec.ReadReal(FLOAT);
      if mass.Err? { return Err(mass.error); }
      var anchored := codec.ReadBool();
      if anchored.Err? { return Err(anchored.error); }
      r := Ok(Physical(mass.value, anchored.value));
    case HealthKind =>
      var health := codec.ReadInt(I32);
      if health.Err? { return Err(health.error); }
      var maxHealth := codec.ReadInt(I32);
      if maxHealth.Err? { return Err(maxHealth.error); }
      var healAmount := codec.ReadInt(I32);
      if healAmount.Err? { return Err(healAmount.error); }
      r := Ok(Health(health.value, maxHealth.value, healAmount.value));
    case AttributesKind =>
      var speed := codec.ReadReal(DOUBLE);
      if speed.Err? { return Err(speed.error); }
      var consume := codec.ReadBool();
      if consume.Err? { return Err(consume.error); }
      r := Ok(Attributes(speed.value, consume.value));
  }

  // ---------------------------------------------------------------------------
  // The component object
  // ---------------------------------------------------------------------------

  class Component {
    /** The instance the component is attached to (`Instance*`), or null. */
    var owner: object?
    var enabled: bool
    /** The fields of the concrete class. */
    var data: Payload
    const Enabled: Signal<()>
    const Disabled: Signal<()>

    ghost predicate Valid()
      reads this, Enabled, Disabled
    {
      Enabled != Disabled && Enabled.Valid() && Disabled.Valid()
    }

    /** `Component()` followed by the concrete class's constructor: enabled, no
        owner, signals without listeners. */
    constructor(p: Payload)
      ensures Valid() && owner == null && enabled && data == p
      ensures fresh(Enabled) && fresh(Disabled)
      ensures Enabled.listeners == [] && Enabled.log == [] && Disabled.listeners == [] && Disabled.log == []
    {
      owner := null;
      enabled := true;
      data := p;
      Enabled := new Signal();
      Disabled := new Signal();
    }

    method OnAttach(gameObject: object)
      modifies this
      ensures owner == gameObject && enabled == old(enabled) && data == old(data)
    {
      owner := gameObject;
    }

    method OnDetach()
      modifies this
      ensures owner == null && enabled == old(enabled) && data == old(data)
    {
      owner := null;
    }

    /** `SetEnabled`: a change of the flag fires `Enabled` or `Disabled` once; setting
        the current value does nothing. */
    method SetEnabled(value: bool)
      requires Valid()
      modifies this, Enabled, Disabled
      ensures Valid() && enabled == value && owner == old(owner) && data == old(data)
      ensures old(enabled) == value ==> unchanged(Enabled) && unchanged(Disabled)
      ensures old(enabled) != value && value ==>
        Enabled.log == old(Enabled.log) + Calls(old(Enabled.listeners), ()) && unchanged(Disabled)
      ensures old(enabled) != value && !value ==>
        Disabled.log == old(Disabled.log) + Calls(old(Disabled.listeners), ()) && unchanged(Enabled)
    {
      if enabled == value {
        return;
      }
      enabled := value;
      if enabled {
        Enabled.Fire(());
      } else {
        Disabled.Fire(());
      }
    }

    /** `Tick`: only `HealthComponent` does anything, healing as `TickedHealth` says. */
    method Tick(dt: real)
      modifies this
      ensures owner == old(owner) && enabled == old(enabled)
      ensures data == TickPayload(old(data))
    {
      if data.Health? && data.healAmount > 0 && data.health < data.maxHealth {
        Heal(data.healAmount);
      }
    }

    // --- HealthComponent ---

    /** `SetHealth`: clamped into [0, maxHealth]. */
    method SetHealth(h: int)
      requires data.Health?
      modifies this
      ensures owner == old(owner) && enabled == old(enabled)
      ensures data == old(data).(health := ClampInt(h, 0, old(data).maxHealth))
      ensures old(data).maxHealth >= 0 ==> HealthInRange(data)
    {
      data := data.(health := ClampInt(h, 0, data.maxHealth));
    }

    method Heal(amount: int)
      requires data.Health?
      modifies this
      ensures owner == old(owner) && enabled == old(enabled)
      ensures data == old(data).(health := ClampInt(old(data).health + amount, 0, old(data).maxHealth))
      ensures old(data).maxHealth >= 0 ==> HealthInRange(data)
    {
      SetHealth(data.health + amount);
    }

    method TakeDamage(amount: int)
      requires data.Health?
      modifies this
      ensures owner == old(owner) && enabled == old(enabled)
      ensures data == old(data).(health := ClampInt(old(data).health - amount, 0, old(data).maxHealth))
      ensures old(data).maxHealth >= 0 ==> HealthInRange(data)
    {
      SetHealth(data.health - amount);
    }

    /** `SetMaxHealth`: never negative, and health is clamped into the new range. */
    method SetMaxHealth(amount: int)
      requires data.Health?
      modifies this
      ensures owner == old(owner) && enabled == old(enabled)
      ensures data.Health? && data.maxHealth == if amount < 0 then 0 else amount
      ensures data == old(data).(maxHealth := data.maxHealth,
                                 health := ClampInt(old(data).health, 0, data.maxHealth))
      ensures HealthInRange(data)
    {
      var m := if amount < 0 then 0 else amount;
      data := data.(maxHealth := m, health := ClampInt(data.health, 0, m));
    }

    method SetHealAmount(amount: int)
      requires data.Health?
      modifies this
      ensures owner == old(owner) && enabled == old(enabled)
      ensures data == old(data).(healAmount := amount)
    {
      data := data.(healAmount := amount);
    }

    // --- PhysicalPropertiesComponent ---

    /** `SetMass`: floored at 0.001. */
    method SetMass(m: real)
      requires data.Physical?
      modifies this
      ensures owner == old(owner) && enabled == old(enabled)
      ensures data == old(data).(mass := MassFloor(m)) && data.mass >= MinMass
    {
      data := data.(mass := MassFloor(m));
    }

    method SetAnchored(value: bool)
      requires data.Physical?
      modifies this
      ensures owner == old(owner) && enabled == old(enabled)
      ensures data == old(data).(anchored := value)
    {
      data := data.(anchored := value);
    }

    // --- TransformComponent ---

    method SetPosition(pos: Vec2)
      requires data.Transform?
      modifies this
      ensures owner == old(owner) && enabled == old(enabled)
      ensures data == old(data).(position := pos)
    {
      data := data.(position := pos);
    }

    /** `Translate` and `Move` (the two are the same): position += delta. */
    method Translate(delta: Vec2)
      requires data.Transform?
      modifies this
      ensures owner == old(owner) && enabled == old(enabled)
      ensures data == old(data).(position := old(data).position.Add(delta))
    {
      data := data.(position := data.position.Add(delta));
    }

    method SetRotation(degrees: real)
      requires data.Transform?
      modifies this
      ensures owner == old(owner) && enabled == old(enabled)
      ensures data == old(data).(rotation := degrees)
    {
      data := data.(rotation := degrees);
    }

    method Rotate(deltaDegrees: real)
      requires data.Transform?
      modifies this
      ensures owner == old(owner) && enabled == old(enabled)
      ensures data == old(data).(rotation := old(data).rotation + deltaDegrees)
    {
      data := data.(rotation := data.rotation + deltaDegrees);
    }

    method SetScale(s: Vec2)
      requires data.Transform?
      modifies this
      ensures owner == old(owner) && enabled == old(enabled)
      ensures data == old(data).(scale := s)
    {
      data := data.(scale := s);
    }

    /** `Scale`: componentwise product. */
    method Scale(factor: Vec2)
      requires data.Transform?
      modifies this
      ensures owner == old(owner) && enabled == old(enabled)
      ensures data == old(data).(scale := Vec2(old(data).scale.x * factor.x, old(data).scale.y * factor.y))
    {
      data := data.(scale := Vec2(data.scale.x * factor.x, data.scale.y * factor.y));
    }

    method SetVelocity(vel: Vec2)
      requires data.Transform?
      modifies this
      ensures owner == old(owner) && enabled == old(enabled)
      ensures data == old(data).(velocity := vel)
    {
      data := data.(velocity := vel);
    }

    /** `Accelerate` and `SetAcceleration` (the two are the same): overwrite, not add. */
    method SetAcceleration(accel: Vec2)
      requires data.Transform?
      modifies this
      ensures owner == old(owner) && enabled == old(enabled)
      ensures data == old(data).(acceleration := accel)
    {
      data := data.(acceleration := accel);
    }

    /** `ResetTransform`: all five fields back to the default constructor's. */
    method ResetTransform()
      requires data.Transform?
      modifies this
      ensures owner == old(owner) && enabled == old(enabled)
      ensures data == DefaultPayload(TransformKind)
    {
      data := DefaultTransform;
    }

    // --- HitboxComponent ---

    /** `AddHitbox(shape, group, isTrigger)`; the source's defaults are
        `DefaultCollidable` and false. */
    method AddHitbox(shape: Shape, group: CollisionGroup, isTrigger: bool)
      requires data.Hitboxes?
      modifies this
      ensures owner == old(owner) && enabled == old(enabled)
      ensures data == Hitboxes(old(data).hitboxes + [Hitbox(shape, isTrigger, group)])
    {
      data := Hitboxes(data.hitboxes + [Hitbox(shape, isTrigger, group)]);
    }

    method ClearHitboxes()
      requires data.Hitboxes?
      modifies this
      ensures owner == old(owner) && enabled == old(enabled)
      ensures data == Hitboxes([])
    {
      data := Hitboxes([]);
    }

    // --- the wire ---

    /** `Encode` of the concrete class; hitbox shapes are named by `shapes`. */
    method Encode(codec: PacketCodec, shapes: HitboxShapeRegistry)
      modifies codec
      ensures codec.buffer == old(codec.buffer) + PayloadCells(data, shapes.reverse)
      ensures codec.readPos == old(codec.readPos)
    {
      EncodePayload(codec, data, shapes);
    }

    /** `Decode` of the concrete class: the fields it reads replace the old ones when
        the whole read succeeds. */
    method Decode(codec: PacketCodec, shapes: HitboxShapeRegistry) returns (r: Result<Payload>)
      modifies this, codec
      ensures codec.buffer == old(codec.buffer)
      ensures Step(r, codec.readPos) == ReadPayloadAt(codec.buffer, old(codec.readPos), old(data).KindOf(), shapes.registry)
      ensures owner == old(owner) && enabled == old(enabled)
      ensures r.Ok? ==> data == r.value
      ensures r.Err? ==> data == old(data)
    {
      r := DecodePayload(codec, data.KindOf(), shapes);
      if r.Ok? {
        data := r.value;
      }
    }
  }

  /** Encoding a component and decoding into a fresh component of the same class gives
      the same fields, and the reader stops where the writer did. */
  method EncodeDecode(c: Component, shapes: HitboxShapeRegistry) returns (d: Component)
    requires PayloadEncodable(c.data, shapes.reverse, shapes.registry)
    ensures fresh(d) && d.data == c.data
  {
    var codec := new PacketCodec();
    c.Encode(codec, shapes);
    d := new Component(DefaultPayload(c.data.KindOf()));
    assert HoldsAt(codec.buffer, 0, PayloadCells(c.data, shapes.reverse)) by {
      assert codec.buffer[0..|codec.buffer|] == codec.buffer;
    }
    ReadPayloadOfCells(codec.buffer, 0, c.data, shapes.reverse, shapes.registry);
    var r := d.Decode(codec, shapes);
  }

  // ---------------------------------------------------------------------------
  // The registry
  // ---------------------------------------------------------------------------

  /** The name `GetName` gives a class: its registered name, or "Unknown". */
  function ComponentNameIn(names: map<Kind, string>, k: Kind): (n: string)
    ensures k in names ==> n == names[k]
    ensures k !in names ==> n == "Unknown"
  {
    if k in names then names[k] else "Unknown"
  }

  /** The name map after `RegStatic` registered the five classes on top of m. */
  function StaticRegistry(m: map<string, Kind>): map<string, Kind> {
    m["TransformComponent" := TransformKind]["HealthComponent" := HealthKind]["HitboxComponent" := HitboxKind]
     ["PhysicalPropertiesComponent" := PhysicalKind]["EntityAttributesComponent" := AttributesKind]
  }

  /** The class map after `RegStatic` registered the five classes on top of m. */
  function StaticReverse(m: map<Kind, string>): map<Kind, string> {
    m[TransformKind := "TransformComponent"][HealthKind := "HealthComponent"][HitboxKind := "HitboxComponent"]
     [PhysicalKind := "PhysicalPropertiesComponent"][AttributesKind := "EntityAttributesComponent"]
  }

  /** After `RegStatic`, every class's name leads back to that class, whatever was
      registered before. */
  lemma StaticNamesReadBack(names: map<string, Kind>, kinds: map<Kind, string>, k: Kind)
    ensures k in StaticReverse(kinds) && StaticReverse(kinds)[k] in StaticRegistry(names)
    ensures StaticRegistry(names)[StaticReverse(kinds)[k]] == k
  {
    assert "HealthComponent"[1] != "HitboxComponent"[1];
    match k
    case TransformKind =>
    case HealthKind =>
    case HitboxKind =>
    case PhysicalKind =>
    case AttributesKind =>
  }

  /** `ComponentRegistry`: its two static maps, from names to classes (`registry`,
      whose factories call the default constructor) and from classes to names
      (`reverse`). */
  class ComponentRegistry {
    var registry: map<string, Kind>
    var reverse: map<Kind, string>

    constructor()
      ensures registry == map[] && reverse == map[]
    {
      registry := map[];
      reverse := map[];
    }

    /** `Register<T>(name)`: later registrations overwrite. */
    method Register(k: Kind, name: string)
      modifies this
      ensures registry == old(registry)[name := k]
      ensures reverse == old(reverse)[k := name]
      ensures Lookup(name) == Some(k) && GetName(k) == name
    {
      registry := registry[name := k];
      reverse := reverse[k := name];
    }

    /** `RegStatic`: the five component classes under their class names. */
    method RegStatic()
      modifies this
      ensures registry == StaticRegistry(old(registry)) && reverse == StaticReverse(old(reverse))
      ensures forall k :: Lookup(GetName(k)) == Some(k)
    {
      Register(TransformKind, "TransformComponent");
      Register(HealthKind, "HealthComponent");
      Register(HitboxKind, "HitboxComponent");
      Register(PhysicalKind, "PhysicalPropertiesComponent");
      Register(AttributesKind, "EntityAttributesComponent");
      forall k
        ensures Lookup(GetName(k)) == Some(k)
      {
        StaticNamesReadBack(old(registry), old(reverse), k);
      }
    }

    /** The class `Create(name)` would build, if any. */
    function Lookup(name: string): (r: Option<Kind>)
      reads this
      ensures r.None? <==> name !in registry
      ensures r.Some? ==> r.value == registry[name]
    {
      if name in registry then Some(registry[name]) else None
    }

    /** `Create(name)`: a default-constructed component of the registered class, or
        null. */
    method Create(name: string) returns (c: Component?)
      ensures c == null <==> name !in registry
      ensures c != null ==>
        && fresh(c) && fresh(c.Enabled) && fresh(c.Disabled) && c.Valid()
        && c.data == DefaultPayload(registry[name]) && c.owner == null && c.enabled
    {
      if name !in registry {
        return null;
      }
      c := new Component(DefaultPayload(registry[name]));
    }

    /** `GetName(type)`. */
    function GetName(k: Kind): (n: string)
      reads this
      ensures k in reverse ==> n == reverse[k]
      ensures k !in reverse ==> n == "Unknown"
    {
      ComponentNameIn(reverse, k)
    }
  }
}
