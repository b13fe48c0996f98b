/** Game objects (Core/Objects/GameObject.h, CoreImpl/GameObject.cpp, Entity.h,
    CoreImpl/Entity.cpp, AliveEntity.h, PlayerEntity.h, CoreImpl/PlayerEntity.cpp).

    A `GameObject` is an `Instance` with a numeric id, destroy and render flags and
    three signals; `Entity` adds an age and an attributes component, `AliveEntity` an
    alive flag, a health component and a `Dead` signal, and `PlayerEntity` a weak
    reference to its controlling player. The hierarchy is one class here: the
    instance part is the `inst` object, and `cls` says which of the four concrete
    classes the object is, which decides what `Tick` does. The `Collided` signal
    carries the other object's id. */
module GameObjects {
  import opened Wrappers
  import opened GMath
  import opened Uuid
  import opened Components
  import opened Instances
  import opened Signals

  /** The concrete class of an object. */
  datatype ObjectClass = PlainObject | EntityObject | AliveObject | PlayerObject {
    /** An `Entity` or one of its subclasses. */
    predicate IsEntity() { !PlainObject? }
    /** An `AliveEntity` or one of its subclasses. */
    predicate IsAlive() { AliveObject? || PlayerObject? }
  }

  const ErrMissingHealth := "AliveEntity missing HealthComponent"

  /** The three classes every game object gets, and locks, at construction. */
  const BodyKinds: set<Kind> := {TransformKind, HitboxKind, PhysicalKind}

  /** The components `GameObject()` adds. */
  function BodyData(): (d: map<Kind, Payload>)
    ensures d.Keys == BodyKinds
  {
    map[][TransformKind := DefaultPayload(TransformKind)][HitboxKind := DefaultPayload(HitboxKind)]
         [PhysicalKind := DefaultPayload(PhysicalKind)]
  }

  /** The classes `GameObject()` locks. */
  function BodyLocks(): (s: set<Kind>)
    ensures s == BodyKinds
  {
    {} + {TransformKind} + {HitboxKind} + {PhysicalKind}
  }

  /** The components a new object of class c has. */
  function InitialData(c: ObjectClass): (d: map<Kind, Payload>)
    ensures BodyKinds <= d.Keys
    ensures AttributesKind in d <==> c.IsEntity()
    ensures HealthKind in d <==> c.IsAlive()
    ensures HealthKind in d ==> d[HealthKind] == HealthOf(100)
  {
    var withAttributes := if c.IsEntity() then BodyData()[AttributesKind := DefaultPayload(AttributesKind)] else BodyData();
    if c.IsAlive() then withAttributes[HealthKind := HealthOf(100)] else withAttributes
  }

  /** The classes a new object of class c has locked: the three body classes, and the
      attributes of an entity; an alive entity's health is not locked. */
  function InitialLocks(c: ObjectClass): (s: set<Kind>)
    ensures BodyKinds <= s
    ensures AttributesKind in s <==> c.IsEntity()
    ensures HealthKind !in s
  {
    if c.IsEntity() then BodyLocks() + {AttributesKind} else BodyLocks()
  }

  /** `GameObject::next_id`: the last id handed out. */
  class IdCounter {
    var last: int

    constructor()
      ensures last == 0
    {
      last := 0;
    }
  }

  class GameObject {
    const inst: Instance
    const id: int
    const cls: ObjectClass
    var shouldDestroy: bool
    var shouldRender: bool
    /** `Entity::age`. */
    var age: int
    /** `AliveEntity::alive`. */
    var alive: bool
    /** `PlayerEntity::controller`: the controlling player's id, if any. */
    var controller: Option<int>
    const Ticked: Signal<real>
    const Moved: Signal<Vec2>
    const Collided: Signal<int>
    const Dead: Signal<()>

    ghost predicate Valid()
      reads inst, inst.components.Values, inst.Destroyed, Ticked, Moved, Collided, Dead
    {
      && inst.Valid() && Ticked.Valid() && Moved.Valid() && Collided.Valid() && Dead.Valid()
      && Dead != inst.Destroyed
      && BodyKinds <= inst.locked
      && (!inst.destroyed ==> BodyKinds <= inst.components.Keys)
    }

    /** The components' fields, by class. */
    ghost function Data(): (d: map<Kind, Payload>)
      reads inst, inst.components.Values
    {
      inst.Data()
    }

    /** Whether the transform component is there to read and write. */
    predicate HasTransform()
      reads inst
    {
      TransformKind in inst.components
    }

    /** The transform component, which `Valid` keeps while the object is not
        destroyed. */
    function Transform(): (c: Component)
      requires HasTransform()
      reads inst
    {
      inst.components[TransformKind]
    }

    /** `GetPosition`. */
    function GetPosition(): (p: Vec2)
      requires Valid() && HasTransform()
      reads inst, inst.components.Values, inst.Destroyed, Ticked, Moved, Collided, Dead
      ensures Data()[TransformKind].Transform? && p == Data()[TransformKind].position
    {
      assert Transform().data.KindOf() == TransformKind;
      Transform().data.position
    }

    /** `GetVelocity`. */
    function GetVelocity(): (v: Vec2)
      requires Valid() && HasTransform()
      reads inst, inst.components.Values, inst.Destroyed, Ticked, Moved, Collided, Dead
      ensures Data()[TransformKind].Transform? && v == Data()[TransformKind].velocity
    {
      assert Transform().data.KindOf() == TransformKind;
      Transform().data.velocity
    }

    /** `GetAcceleration`. */
    function GetAcceleration(): (a: Vec2)
      requires Valid() && HasTransform()
      reads inst, inst.components.Values, inst.Destroyed, Ticked, Moved, Collided, Dead
      ensures Data()[TransformKind].Transform? && a == Data()[TransformKind].acceleration
    {
      assert Transform().data.KindOf() == TransformKind;
      Transform().data.acceleration
    }

    /** `SetPosition`: the position is stored and `Moved` fires with it, every time. */
    method SetPosition(pos: Vec2)
      requires Valid() && HasTransform()
      modifies Transform(), Moved
      ensures Valid() && HasTransform() && inst.components == old(inst.components)
      ensures Data() == old(Data())[TransformKind := old(Data())[TransformKind].(position := pos)]
      ensures GetPosition() == pos
      ensures Moved.log == old(Moved.log) + Calls(old(Moved.listeners), pos)
      ensures Moved.listeners == Persistent(old(Moved.listeners))
    {
      assert Transform().data.KindOf() == TransformKind;
      Transform().SetPosition(pos);
      Moved.Fire(pos);
    }

    /** `Move`: the position shifts by delta; `Moved` fires with the new position
        only when delta's squared length is not zero. */
    method Move(delta: Vec2)
      requires Valid() && HasTransform()
      modifies Transform(), Moved
      ensures Valid() && HasTransform() && inst.components == old(inst.components)
      ensures Data() == old(Data())[TransformKind := old(Data())[TransformKind].(position := old(GetPosition()).Add(delta))]
      ensures GetPosition() == old(GetPosition()).Add(delta)
      ensures delta.LengthSquared() != 0.0 ==> Moved.log == old(Moved.log) + Calls(old(Moved.listeners), GetPosition())
      ensures delta.LengthSquared() != 0.0 ==> Moved.listeners == Persistent(old(Moved.listeners))
      ensures delta.LengthSquared() == 0.0 ==> unchanged(Moved)
    {
      Translate(delta);
      if delta.LengthSquared() != 0.0 {
        Moved.Fire(GetPosition());
      }
    }

    /** `GetTransform()->Translate(delta)`. */
    method Translate(delta: Vec2)
      requires Valid() && HasTransform()
      modifies Transform()
      ensures Valid() && HasTransform() && inst.components == old(inst.components)
      ensures Data() == old(Data())[TransformKind := old(Data())[TransformKind].(position := old(GetPosition()).Add(delta))]
      ensures GetPosition() == old(GetPosition()).Add(delta)
    {
      assert Transform().data.KindOf() == TransformKind;
      Transform().Translate(delta);
    }

    /** `GetTransform()->SetRotation(degrees)`. */
    method SetRotation(degrees: real)
      requires Valid() && HasTransform()
      modifies Transform()
      ensures Valid() && HasTransform() && inst.components == old(inst.components)
      ensures Data() == old(Data())[TransformKind := old(Data())[TransformKind].(rotation := degrees)]
      ensures GetPosition() == old(GetPosition())
    {
      assert Transform().data.KindOf() == TransformKind;
      Transform().SetRotation(degrees);
    }

    /** `SetVelocity`. */
    method SetVelocity(v: Vec2)
      requires Valid() && HasTransform()
      modifies Transform()
      ensures Valid() && HasTransform() && inst.components == old(inst.components)
      ensures Data() == old(Data())[TransformKind := old(Data())[TransformKind].(velocity := v)]
      ensures GetVelocity() == v && GetPosition() == old(GetPosition())
    {
      assert Transform().data.KindOf() == TransformKind;
      Transform().SetVelocity(v);
    }

    /** `SetAcceleration`. */
    method SetAcceleration(a: Vec2)
      requires Valid() && HasTransform()
      modifies Transform()
      ensures Valid() && HasTransform() && inst.components == old(inst.components)
      ensures Data() == old(Data())[TransformKind := old(Data())[TransformKind].(acceleration := a)]
      ensures GetAcceleration() == a && GetVelocity() == old(GetVelocity())
    {
      assert Transform().data.KindOf() == TransformKind;
      Transform().SetAcceleration(a);
    }

    /** `GameObject::Destroy`, which overrides `Instance::Destroy`: `Destroyed` fires
        and the object is marked for removal, on every call; the instance is not
        marked destroyed and keeps its components. */
    method Destroy()
      requires Valid()
      modifies this, inst.Destroyed
      ensures Valid() && shouldDestroy
      ensures inst.Destroyed.log == old(inst.Destroyed.log) + Calls(old(inst.Destroyed.listeners), ())
      ensures inst.Destroyed.listeners == Persistent(old(inst.Destroyed.listeners))
      ensures shouldRender == old(shouldRender) && age == old(age) && alive == old(alive) && controller == old(controller)
    {
      inst.Destroyed.Fire(());
      shouldDestroy := true;
    }

    /** `OnCollision(other)`: `Collided` fires with the other object's id. */
    method OnCollision(other: int)
      requires Valid()
      modifies Collided
      ensures Valid()
      ensures Collided.log == old(Collided.log) + Calls(old(Collided.listeners), other)
      ensures Collided.listeners == Persistent(old(Collided.listeners))
    {
      Collided.Fire(other);
    }

    method SetShouldRender(val: bool)
      requires Valid()
      modifies this
      ensures Valid() && shouldRender == val
      ensures shouldDestroy == old(shouldDestroy) && age == old(age) && alive == old(alive) && controller == old(controller)
    {
      shouldRender := val;
    }

    /** `Entity::SetAge`. */
    method SetAge(a: int)
      requires Valid() && cls.IsEntity()
      modifies this
      ensures Valid() && age == a
      ensures shouldDestroy == old(shouldDestroy) && shouldRender == old(shouldRender) && alive == old(alive) && controller == old(controller)
    {
      age := a;
    }

    /** `AliveEntity::SetAlive`. */
    method SetAlive(a: bool)
      requires Valid() && cls.IsAlive()
      modifies this
      ensures Valid() && alive == a
      ensures shouldDestroy == old(shouldDestroy) && shouldRender == old(shouldRender) && age == old(age) && controller == old(controller)
    {
      alive := a;
    }

    /** `PlayerEntity::SetPlayer`: the controlling player's id, or none. */
    method SetPlayer(p: Option<int>)
      requires Valid() && cls.PlayerObject?
      modifies this
      ensures Valid() && controller == p
      ensures shouldDestroy == old(shouldDestroy) && shouldRender == old(shouldRender) && age == old(age) && alive == old(alive)
    {
      controller := p;
    }

    // --- AliveEntity: health ---

    /** The health component's fields, or the error `GetHealthComponent` throws when
        the component has been removed. */
    function HealthFields(): (r: Result<Payload>)
      requires Valid()
      reads inst, inst.components.Values, inst.Destroyed, Ticked, Moved, Collided, Dead
      ensures HealthKind !in Data() ==> r == Err(ErrMissingHealth)
      ensures HealthKind in Data() ==> r == Ok(Data()[HealthKind]) && r.value.Health?
    {
      if HealthKind !in inst.components then Err(ErrMissingHealth)
      else
        assert inst.components[HealthKind].data.KindOf() == HealthKind;
        Ok(inst.components[HealthKind].data)
    }

    /** `GetHealth`. */
    function GetHealth(): (r: Result<int>)
      requires Valid() && cls.IsAlive()
      reads inst, inst.components.Values, inst.Destroyed, Ticked, Moved, Collided, Dead
      ensures r.Err? <==> HealthKind !in Data()
      ensures r.Err? ==> r.error == ErrMissingHealth
      ensures r.Ok? ==> Data()[HealthKind].Health? && r.value == Data()[HealthKind].health
    {
      var f := HealthFields();
      if f.Err? then Err(f.error) else Ok(f.value.health)
    }

    /** `GetMaxHealth`. */
    function GetMaxHealth(): (r: Result<int>)
      requires Valid() && cls.IsAlive()
      reads inst, inst.components.Values, inst.Destroyed, Ticked, Moved, Collided, Dead
      ensures r.Err? <==> HealthKind !in Data()
      ensures r.Err? ==> r.error == ErrMissingHealth
      ensures r.Ok? ==> Data()[HealthKind].Health? && r.value == Data()[HealthKind].maxHealth
    {
      var f := HealthFields();
      if f.Err? then Err(f.error) else Ok(f.value.maxHealth)
    }

    /** `GetHealAmount`. */
    function GetHealAmount(): (r: Result<int>)
      requires Valid() && cls.IsAlive()
      reads inst, inst.components.Values, inst.Destroyed, Ticked, Moved, Collided, Dead
      ensures r.Err? <==> HealthKind !in Data()
      ensures r.Err? ==> r.error == ErrMissingHealth
      ensures r.Ok? ==> Data()[HealthKind].Health? && r.value == Data()[HealthKind].healAmount
    {
      var f := HealthFields();
      if f.Err? then Err(f.error) else Ok(f.value.healAmount)
    }

    /** The objects a health setter writes: the health component, if there is one. */
    function HealthFrame(): set<object>
      reads inst
    {
      if HealthKind in inst.components then {inst.components[HealthKind]} else {}
    }

    /** `SetHealth(hp)`: clamped into [0, maxHealth]. */
    method SetHealth(hp: int) returns (r: Result<()>)
      requires Valid() && cls.IsAlive()
      modifies HealthFrame()
      ensures Valid() && inst.components == old(inst.components)
      ensures HealthKind !in old(Data()) ==> r == Err(ErrMissingHealth) && Data() == old(Data())
      ensures HealthKind in old(Data()) ==>
        && r == Ok(())
        && Data() == old(Data())[HealthKind := old(Data())[HealthKind].(health := ClampInt(hp, 0, old(Data())[HealthKind].maxHealth))]
    {
      if HealthKind !in inst.components {
        return Err(ErrMissingHealth);
      }
      var c := inst.components[HealthKind];
      assert c.data.KindOf() == HealthKind;
      c.SetHealth(hp);
      r := Ok(());
    }

    /** `TakeDamage(amount)`: health drops by amount, clamped into [0, maxHealth]. */
    method TakeDamage(amount: int) returns (r: Result<()>)
      requires Valid() && cls.IsAlive()
      modifies HealthFrame()
      ensures Valid() && inst.components == old(inst.components)
      ensures HealthKind !in old(Data()) ==> r == Err(ErrMissingHealth) && Data() == old(Data())
      ensures HealthKind in old(Data()) ==>
        && r == Ok(())
        && Data() == old(Data())[HealthKind := old(Data())[HealthKind].(health :=
             ClampInt(old(Data())[HealthKind].health - amount, 0, old(Data())[HealthKind].maxHealth))]
    {
      if HealthKind !in inst.components {
        return Err(ErrMissingHealth);
      }
      var c := inst.components[HealthKind];
      assert c.data.KindOf() == HealthKind;
      c.TakeDamage(amount);
      r := Ok(());
    }

    /** `SetMaxHealth(hp)`: never negative, and health is clamped into the new range. */
    method SetMaxHealth(hp: int) returns (r: Result<()>)
      requires Valid() && cls.IsAlive()
      modifies HealthFrame()
      ensures Valid() && inst.components == old(inst.components)
      ensures HealthKind !in old(Data()) ==> r == Err(ErrMissingHealth) && Data() == old(Data())
      ensures HealthKind in old(Data()) ==>
        && r == Ok(())
        && var m := if hp < 0 then 0 else hp;
           Data() == old(Data())[HealthKind := old(Data())[HealthKind].(maxHealth := m,
                                                 health := ClampInt(old(Data())[HealthKind].health, 0, m))]
    {
      if HealthKind !in inst.components {
        return Err(ErrMissingHealth);
      }
      var c := inst.components[HealthKind];
      assert c.data.KindOf() == HealthKind;
      c.SetMaxHealth(hp);
      r := Ok(());
    }

    /** `SetHealAmount(amount)`. */
    method SetHealAmount(amount: int) returns (r: Result<()>)
      requires Valid() && cls.IsAlive()
      modifies HealthFrame()
      ensures Valid() && inst.components == old(inst.components)
      ensures HealthKind !in old(Data()) ==> r == Err(ErrMissingHealth) && Data() == old(Data())
      ensures HealthKind in old(Data()) ==>
        && r == Ok(())
        && Data() == old(Data())[HealthKind := old(Data())[HealthKind].(healAmount := amount)]
    {
      if HealthKind !in inst.components {
        return Err(ErrMissingHealth);
      }
      var c := inst.components[HealthKind];
      assert c.data.KindOf() == HealthKind;
      c.SetHealAmount(amount);
      r := Ok(());
    }

    // --- ticking ---

    /** The classes of the components that are enabled. */
    ghost function EnabledKinds(): set<Kind>
      reads inst, inst.components.Values
    {
      set k | k in inst.components && inst.components[k].enabled
    }

    /** `GameObject::Tick`: `Ticked` fires with dt, then `Instance::Tick` ticks every
        enabled component unless the instance is destroyed. */
    method BaseTick(dt: real)
      requires Valid()
      modifies Ticked, inst.components.Values
      ensures Valid() && inst.components == old(inst.components)
      ensures Data() == if inst.destroyed then old(Data()) else TickedData(old(Data()), old(EnabledKinds()))
      ensures EnabledKinds() == old(EnabledKinds())
      ensures FiredOnce(Ticked, dt)
    {
      Ticked.Fire(dt);
      TickComponents(dt);
    }

    /** `Instance::Tick`, seen through `Data`. */
    method TickComponents(dt: real)
      requires Valid()
      modifies inst.components.Values
      ensures Valid() && inst.components == old(inst.components)
      ensures Data() == if inst.destroyed then old(Data()) else TickedData(old(Data()), old(EnabledKinds()))
      ensures EnabledKinds() == old(EnabledKinds())
    {
      inst.Tick(dt);
    }

    /** `Entity::Tick`: nothing once the instance is destroyed; otherwise the age goes
        up by one and `GameObject::Tick` runs. */
    method EntityTick(dt: real)
      requires Valid() && cls.IsEntity()
      modifies this, Ticked, inst.components.Values
      ensures Valid() && inst.components == old(inst.components) && EnabledKinds() == old(EnabledKinds())
      ensures inst.destroyed ==> age == old(age) && Data() == old(Data()) && unchanged(Ticked)
      ensures !inst.destroyed ==>
        && age == old(age) + 1
        && Data() == TickedData(old(Data()), old(EnabledKinds()))
        && FiredOnce(Ticked, dt)
      ensures shouldDestroy == old(shouldDestroy) && shouldRender == old(shouldRender)
      ensures alive == old(alive) && controller == old(controller)
    {
      if inst.destroyed {
        return;
      }
      age := age + 1;
      BaseTick(dt);
    }

    /** The health check that ends `AliveEntity::Tick`: the error of `GetHealth` when
        the health component is gone; otherwise, at zero health or below, a living
        entity dies and `Dead` fires. */
    method CheckDeath() returns (r: Result<()>)
      requires Valid() && cls.IsAlive()
      modifies this, Dead
      ensures Valid() && Data() == old(Data()) && EnabledKinds() == old(EnabledKinds()) && DeathChecked(r)
      ensures shouldDestroy == old(shouldDestroy) && shouldRender == old(shouldRender)
      ensures age == old(age) && controller == old(controller)
    {
      var h := GetHealth();
      if h.Err? {
        return Err(h.error);
      }
      if h.value <= 0 && alive {
        alive := false;
        Dead.Fire(());
      }
      r := Ok(());
    }

    /** What the health check did, judged on the health after it: `r` is the error
        of `GetHealth` when the health component is gone; otherwise the alive flag and
        `Dead` changed as `DeathCheck` says. */
    twostate predicate DeathChecked(new r: Result<()>)
      reads this, inst, inst.components.Values, Dead
    {
      && (r.Err? <==> HealthKind !in Data())
      && (r.Err? ==> r.error == ErrMissingHealth && alive == old(alive) && unchanged(Dead))
      && (r.Ok? ==>
            && inst.components[HealthKind].data.Health?
            && var (a, fired) := DeathCheck(old(alive), inst.components[HealthKind].data.health);
               && alive == a
               && (fired ==> FiredOnce(Dead, ()))
               && (!fired ==> unchanged(Dead)))
    }

    /** `AliveEntity::Tick`: nothing when the instance is destroyed and the entity
        dead; otherwise `Entity::Tick` runs and then the health check. */
    method AliveTick(dt: real) returns (r: Result<()>)
      requires Valid() && cls.IsAlive()
      modifies this, Ticked, Dead, inst.components.Values
      ensures Valid() && inst.components == old(inst.components) && EnabledKinds() == old(EnabledKinds())
      ensures inst.destroyed && !old(alive) ==>
        && r == Ok(()) && age == old(age) && alive == old(alive)
        && Data() == old(Data()) && unchanged(Ticked) && unchanged(Dead)
      ensures !(inst.destroyed && !old(alive)) ==>
        && age == (if inst.destroyed then old(age) else old(age) + 1)
        && Data() == (if inst.destroyed then old(Data()) else TickedData(old(Data()), old(EnabledKinds())))
        && (inst.destroyed ==> unchanged(Ticked))
        && (!inst.destroyed ==> FiredOnce(Ticked, dt))
        && DeathChecked(r)
      ensures shouldDestroy == old(shouldDestroy) && shouldRender == old(shouldRender) && controller == old(controller)
    {
      if inst.destroyed && !alive {
        return Ok(());
      }
      EntityTick(dt);
      r := CheckDeath();
    }

    /** `Tick`, dispatched on the concrete class: `GameObject::Tick` for a plain object,
        `Entity::Tick`, `AliveEntity::Tick`, or `PlayerEntity::Tick`, which does
        nothing once the instance is destroyed and is otherwise `AliveEntity::Tick`. */
    method Tick(dt: real) returns (r: Result<()>)
      requires Valid()
      modifies this, Ticked, Dead, inst.components.Values
      ensures Valid() && inst.components == old(inst.components) && EnabledKinds() == old(EnabledKinds())
      ensures Data() == (if inst.destroyed then old(Data()) else TickedData(old(Data()), old(EnabledKinds())))
      ensures age == (if cls.IsEntity() && !inst.destroyed then old(age) + 1 else old(age))
      ensures RunsBaseTick(cls, inst.destroyed) ==> FiredOnce(Ticked, dt)
      ensures !RunsBaseTick(cls, inst.destroyed) ==> unchanged(Ticked)
      ensures ChecksHealth(cls, inst.destroyed, old(alive)) ==> DeathChecked(r)
      ensures !ChecksHealth(cls, inst.destroyed, old(alive)) ==> r == Ok(()) && alive == old(alive) && unchanged(Dead)
      ensures shouldDestroy == old(shouldDestroy) && shouldRender == old(shouldRender) && controller == old(controller)
    {
      match cls
      case PlainObject =>
        BaseTick(dt);
        r := Ok(());
      case EntityObject =>
        EntityTick(dt);
        r := Ok(());
      case AliveObject =>
        r := AliveTick(dt);
      case PlayerObject =>
        if inst.destroyed {
          return Ok(());
        }
        r := AliveTick(dt);
    }

    /** The fields of a new object of class `cls` around an instance already built,
        with fresh signals and no listeners. */
    constructor(cls: ObjectClass, id: int, i: Instance)
      ensures this.cls == cls && this.id == id && inst == i
      ensures !shouldDestroy && shouldRender && age == 0 && alive && controller == None
      ensures fresh(Ticked) && fresh(Moved) && fresh(Collided) && fresh(Dead)
      ensures Ticked.Valid() && Moved.Valid() && Collided.Valid() && Dead.Valid()
      ensures Ticked.listeners == [] && Moved.listeners == [] && Collided.listeners == [] && Dead.listeners == []
    {
      inst := i;
      this.id := id;
      this.cls := cls;
      shouldDestroy := false;
      shouldRender := true;
      age := 0;
      alive := true;
      controller := None;
      Ticked := new Signal();
      Moved := new Signal();
      Collided := new Signal();
      Dead := new Signal();
    }
  }

  /** `GameObject()` with the constructors of the subclasses down to `cls`: the id
      is the incremented counter, and the body components are added and locked (so
      they can never be added again, nor removed while the object lives). The UUID
      is a parameter in place of `UUID::random()`. */
  method NewObject(cls: ObjectClass, uuid: UUID, counter: IdCounter) returns (g: GameObject)
    modifies counter
    ensures counter.last == old(counter.last) + 1 && g.id == counter.last
    ensures fresh(g) && fresh(g.inst) && fresh(g.inst.Destroyed) && fresh(g.inst.components.Values)
    ensures g.inst.Destroyed.listeners == [] && g.inst.Destroyed.nextId == 0 && g.inst.Destroyed.log == []
    ensures g.cls == cls && g.Valid()
    ensures g.Data() == InitialData(cls) && g.inst.locked == InitialLocks(cls)
    ensures g.inst.uuid == uuid && g.inst.tags == [] && g.inst.world == null && !g.inst.destroyed && !g.inst.dirty
    ensures !g.shouldDestroy && g.shouldRender && g.age == 0 && g.alive && g.controller == None
    ensures fresh(g.Ticked) && fresh(g.Moved) && fresh(g.Collided) && fresh(g.Dead)
    ensures g.Ticked.listeners == [] && g.Moved.listeners == [] && g.Collided.listeners == [] && g.Dead.listeners == []
  {
    counter.last := counter.last + 1;
    var i := BuildInstance(cls, uuid);
    g := new GameObject(cls, counter.last, i);
  }

  /** The components' fields after every enabled one has ticked. */
  function TickedData(d: map<Kind, Payload>, on: set<Kind>): (r: map<Kind, Payload>)
    ensures r.Keys == d.Keys
  {
    map k | k in d :: if k in on then TickPayload(d[k]) else d[k]
  }

  /** Whether `Tick` on an object of class cls runs `GameObject::Tick`, which fires
      `Ticked`. */
  predicate RunsBaseTick(cls: ObjectClass, destroyed: bool) {
    cls.PlainObject? || !destroyed
  }

  /** Whether `Tick` on an object of class cls reaches the health check of
      `AliveEntity::Tick`. */
  predicate ChecksHealth(cls: ObjectClass, destroyed: bool, alive: bool) {
    match cls
    case AliveObject => !destroyed || alive
    case PlayerObject => !destroyed
    case _ => false
  }

  /** The signal fired once with a: every listener was called, in order, and the
      one-shot listeners are gone. */
  twostate predicate FiredOnce<A>(s: Signal<A>, a: A)
    reads s
  {
    && s.log == old(s.log) + Calls(old(s.listeners), a)
    && s.listeners == Persistent(old(s.listeners))
  }

  /** The health check of `AliveEntity::Tick` on a living or dead entity with the
      given health: the new alive flag and whether `Dead` fires. */
  function DeathCheck(alive: bool, health: int): (bool, bool) {
    if health <= 0 && alive then (false, true) else (alive, false)
  }

  /** How often `Dead` fires over successive health checks that see the healths hs,
      with no `SetAlive` in between. */
  function DeathCount(alive: bool, hs: seq<int>): nat {
    if hs == [] then 0
    else
      var (a, fired) := DeathCheck(alive, hs[0]);
      (if fired then 1 else 0) + DeathCount(a, hs[1..])
  }

  /** `Dead` fires at most once while the flag is not set back, never for an entity
      already dead, and exactly when a living entity sees zero health or below. */
  lemma {:induction false} DeadFiresAtMostOnce(alive: bool, hs: seq<int>)
    ensures DeathCount(alive, hs) <= 1
    ensures !alive ==> DeathCount(alive, hs) == 0
    ensures DeathCount(alive, hs) == 1 <==> alive && exists i :: 0 <= i < |hs| && hs[i] <= 0
  {
    if hs != [] {
      var (a, fired) := DeathCheck(alive, hs[0]);
      DeadFiresAtMostOnce(a, hs[1..]);
      if alive && hs[0] > 0 {
        if exists i :: 0 <= i < |hs| && hs[i] <= 0 {
          var i :| 0 <= i < |hs| && hs[i] <= 0;
          assert hs[1..][i - 1] <= 0;
        }
        if exists i :: 0 <= i < |hs[1..]| && hs[1..][i] <= 0 {
          var i :| 0 <= i < |hs[1..]| && hs[1..][i] <= 0;
          assert hs[i + 1] <= 0;
        }
      }
    }
  }

  /** The instance part of a new object: the components and locks the constructors
      down to `cls` add. */
  method BuildInstance(cls: ObjectClass, uuid: UUID) returns (i: Instance)
    ensures fresh(i) && fresh(i.Destroyed) && fresh(i.components.Values) && i.Valid()
    ensures i.Destroyed.listeners == [] && i.Destroyed.nextId == 0 && i.Destroyed.log == []
    ensures i.Data() == InitialData(cls) && i.locked == InitialLocks(cls)
    ensures BodyKinds <= i.components.Keys && BodyKinds <= i.locked
    ensures i.uuid == uuid && i.tags == [] && i.world == null && !i.destroyed && !i.dirty
  {
    i := BuildBody(uuid);
    if cls.IsEntity() {
      AddAndLock(i, AttributesKind, DefaultPayload(AttributesKind));
    }
    ghost var d := i.Data();
    assert d == (if cls.IsEntity() then BodyData()[AttributesKind := DefaultPayload(AttributesKind)] else BodyData());
    assert HealthKind !in i.locked;
    if cls.IsAlive() {
      AddUnlocked(i, HealthKind, HealthOf(100));
    }
  }

  /** The body components of `GameObject()`: transform, hitboxes and physical
      properties, each added and then locked. */
  method BuildBody(uuid: UUID) returns (i: Instance)
    ensures fresh(i) && fresh(i.Destroyed) && fresh(i.components.Values) && i.Valid()
    ensures i.Destroyed.listeners == [] && i.Destroyed.nextId == 0 && i.Destroyed.log == []
    ensures i.Data() == BodyData() && i.locked == BodyLocks()
    ensures i.uuid == uuid && i.tags == [] && i.world == null && !i.destroyed && !i.dirty
  {
    i := new Instance(uuid);
    assert i.Data() == map[];
    AddAndLock(i, TransformKind, DefaultPayload(TransformKind));
    AddAndLock(i, HitboxKind, DefaultPayload(HitboxKind));
    AddAndLock(i, PhysicalKind, DefaultPayload(PhysicalKind));
  }

  /** `AddComponent<T>()` then `LockComponent<T>()` on a class not yet locked. */
  method AddAndLock(i: Instance, k: Kind, p: Payload)
    requires i.Valid() && p.KindOf() == k && k !in i.locked
    modifies i
    ensures i.Valid() && fresh(i.components.Values - old(i.components.Values))
    ensures i.Data() == old(i.Data())[k := p] && i.locked == old(i.locked) + {k}
    ensures i.uuid == old(i.uuid) && i.tags == old(i.tags) && i.world == old(i.world)
    ensures i.destroyed == old(i.destroyed) && i.dirty == old(i.dirty)
  {
    AddUnlocked(i, k, p);
    i.LockComponent(k);
  }

  /** `AddComponent<T>(args...)` on a class that is not locked. */
  method AddUnlocked(i: Instance, k: Kind, p: Payload)
    requires i.Valid() && p.KindOf() == k && k !in i.locked
    modifies i
    ensures i.Valid() && fresh(i.components.Values - old(i.components.Values))
    ensures i.Data() == old(i.Data())[k := p] && i.locked == old(i.locked)
    ensures i.uuid == old(i.uuid) && i.tags == old(i.tags) && i.world == old(i.world)
    ensures i.destroyed == old(i.destroyed) && i.dirty == old(i.dirty)
  {
    var _ := i.AddComponent(p);
  }
}
