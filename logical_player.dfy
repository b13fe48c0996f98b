/** `LogicalPlayer` (Core/Player/Player.h, CoreImpl/LogicalPlayer.cpp): a connected
    player's id, name and the player entity it controls, and how a player is written
    to and read from a `PacketCodec`.

    `Decode` resolves the entity's UUID through the world the player belongs to; the
    world's object list is a parameter here, and the lookup is `World::Find`, which
    is defined in this module so that the world can share it. */
module Players {
  import opened Arith
  import opened Wrappers
  import opened VarInt
  import opened Octets
  import opened Uuid
  import opened Codec
  import opened Signals
  import opened GameObjects

  /** The callback `SetPlayerEntity` connects to the entity's `Destroyed` signal. */
  const ENTITY_DESTROYED_SLOT: nat := 0

  // ---------------------------------------------------------------------------
  // Looking objects up by UUID (`World::Find`)
  // ---------------------------------------------------------------------------

  /** The position of the first object in objs whose instance has UUID id. */
  function FindIn(objs: seq<GameObject>, id: UUID): (r: Option<nat>)
    reads set o | o in objs :: o.inst
    ensures r.Some? ==> r.value < |objs| && objs[r.value].inst.uuid == id
    ensures r.Some? ==> forall j :: 0 <= j < r.value ==> objs[j].inst.uuid != id
    ensures r.None? <==> forall j :: 0 <= j < |objs| ==> objs[j].inst.uuid != id
  {
    if |objs| == 0 then None
    else if objs[0].inst.uuid == id then Some(0)
    else match FindIn(objs[1..], id)
      case None => None
      case Some(k) => Some(k + 1)
  }

  /** The object `Find` returns: the first one with UUID id, or null. */
  function Found(objs: seq<GameObject>, id: UUID): (r: GameObject?)
    reads set o | o in objs :: o.inst
  {
    match FindIn(objs, id)
    case None => null
    case Some(k) => objs[k]
  }

  /** No two objects of objs share a UUID. */
  predicate UniqueIds(objs: seq<GameObject>)
    reads set o | o in objs :: o.inst
  {
    forall i, j :: 0 <= i < j < |objs| ==> objs[i].inst.uuid != objs[j].inst.uuid
  }

  /** `World::Find`: scans the objects in order and stops at the first whose UUID
      matches. */
  method Find(objs: seq<GameObject>, id: UUID) returns (r: GameObject?)
    ensures r == Found(objs, id)
    ensures r != null ==> r in objs && r.inst.uuid == id
    ensures r == null <==> forall j :: 0 <= j < |objs| ==> objs[j].inst.uuid != id
  {
    for i := 0 to |objs|
      invariant forall j :: 0 <= j < i ==> objs[j].inst.uuid != id
    {
      if objs[i].inst.uuid == id {
        return objs[i];
      }
    }
    return null;
  }

  /** Where UUIDs are unique, looking up an object's own UUID finds that object. */
  lemma {:induction false} FoundByOwnId(objs: seq<GameObject>, k: nat)
    requires UniqueIds(objs) && k < |objs|
    ensures Found(objs, objs[k].inst.uuid) == objs[k]
  {
    var id := objs[k].inst.uuid;
    var r := FindIn(objs, id);
    assert r.Some? by {
      assert objs[k].inst.uuid == id;
    }
    assert r.value == k;
  }

  /** The entity `Decode` takes for UUID id: the object `Find` returns when it is a
      player entity (the `dynamic_cast<PlayerEntity*>`), and null otherwise. */
  function AsPlayer(objs: seq<GameObject>, id: UUID): (r: GameObject?)
    reads set o | o in objs :: o.inst
    ensures r != null ==> r in objs && r.cls.PlayerObject? && r.inst.uuid == id
    ensures r == null <==> Found(objs, id) == null || !Found(objs, id).cls.PlayerObject?
  {
    var f := Found(objs, id);
    if f != null && f.cls.PlayerObject? then f else null
  }

  /** A player entity of a world with unique UUIDs is found again by its UUID. */
  lemma EntityResolves(objs: seq<GameObject>, k: nat)
    requires UniqueIds(objs) && k < |objs| && objs[k].cls.PlayerObject?
    ensures AsPlayer(objs, objs[k].inst.uuid) == objs[k]
  {
    FoundByOwnId(objs, k);
  }

  // ---------------------------------------------------------------------------
  // Wire format: the id as a 32-bit int, the name, the entity's UUID (or the nil
  // UUID when there is none)
  // ---------------------------------------------------------------------------

  function PlayerCells(id: int, name: string, entity: UUID): seq<Octet> {
    IntCells(I32, id) + StringCells(name) + UuidCells(entity)
  }

  /** The three reads of `Decode`; the first failure ends it. */
  function ReadPlayerAt(buf: seq<Octet>, pos: nat): Step<(int, string, UUID)> {
    var i := ReadIntAt(buf, pos, I32);
    if i.result.Err? then Step(Err(i.result.error), i.pos)
    else
      var n := ReadStringAt(buf, i.pos);
      if n.result.Err? then Step(Err(n.result.error), n.pos)
      else
        var u := ReadUuidAt(buf, n.pos);
        if u.result.Err? then Step(Err(u.result.error), u.pos)
        else Step(Ok((i.result.value, n.result.value, u.result.value)), u.pos)
  }

  /** Reading a written player gives back its id, name and entity UUID, and the
      cursor ends just past them. */
  lemma ReadPlayerOfCells(buf: seq<Octet>, pos: nat, id: int, name: string, entity: UUID)
    requires I32.Holds(id) && IsByteString(name) && |name| < TWO32
    requires HoldsAt(buf, pos, PlayerCells(id, name, entity))
    ensures ReadPlayerAt(buf, pos) == Step(Ok((id, name, entity)), pos + |PlayerCells(id, name, entity)|)
  {
    HoldsAtSplit(buf, pos, IntCells(I32, id) + StringCells(name), UuidCells(entity));
    HoldsAtSplit(buf, pos, IntCells(I32, id), StringCells(name));
    ReadIntOfCells(buf, pos, I32, id);
    ReadStringOfCells(buf, pos + I32.width, name);
    ReadUuidOfCells(buf, pos + I32.width + |StringCells(name)|, entity);
  }

  class LogicalPlayer {
    var playerID: int
    var name: string
    /** The `PlayerEntity*`; null for none. */
    var controlledEntity: GameObject?
    const OnEntityUnassigned: Signal<()>

    /** `LogicalPlayer(id, name)`. The source leaves `controlledEntity`
        uninitialised; here it starts null. */
    constructor(id: int, name: string)
      ensures playerID == id && this.name == name && controlledEntity == null
      ensures fresh(OnEntityUnassigned) && OnEntityUnassigned.Valid()
      ensures OnEntityUnassigned.listeners == [] && OnEntityUnassigned.log == []
    {
      playerID := id;
      this.name := name;
      controlledEntity := null;
      OnEntityUnassigned := new Signal();
    }

    method SetName(n: string)
      modifies this
      ensures name == n && playerID == old(playerID) && controlledEntity == old(controlledEntity)
    {
      name := n;
    }

    /** The UUID `Encode` writes for the entity: its own, or the nil UUID. */
    function EntityId(): (u: UUID)
      reads this, if controlledEntity != null then {controlledEntity.inst} else {}
      ensures controlledEntity == null ==> u == Null
    {
      if controlledEntity != null then controlledEntity.inst.uuid else Null
    }

    /** `SetPlayerEntity`: nothing happens for the entity already held. Otherwise the
        entity is stored and a callback is connected to its `Destroyed` signal; the
        returned handle is dropped, which disconnects the callback again, so the
        signal keeps its listeners and only its id counter moves. */
    method SetPlayerEntity(ent: GameObject?)
      requires ent != null ==> ent.inst.Destroyed.Valid()
      modifies this, if ent != null then {ent.inst.Destroyed} else {}
      ensures controlledEntity == ent && playerID == old(playerID) && name == old(name)
      ensures ent != null && ent == old(controlledEntity) ==> unchanged(ent.inst.Destroyed)
      ensures ent != null && ent != old(controlledEntity) ==>
        && ent.inst.Destroyed.Valid()
        && ent.inst.Destroyed.listeners == old(ent.inst.Destroyed.listeners)
        && ent.inst.Destroyed.log == old(ent.inst.Destroyed.log)
        && ent.inst.Destroyed.nextId == old(ent.inst.Destroyed.nextId) + 1
    {
      if controlledEntity == ent {
        return;
      }
      controlledEntity := ent;
      if ent != null {
        ConnectDiscarded(ent.inst.Destroyed, ENTITY_DESTROYED_SLOT);
      }
    }

    method Encode(codec: PacketCodec)
      modifies codec
      ensures codec.buffer == old(codec.buffer) + PlayerCells(playerID, name, EntityId())
      ensures codec.readPos == old(codec.readPos)
    {
      codec.WriteInt(I32, playerID);
      codec.WriteString(name);
      if controlledEntity != null {
        codec.WriteUuid(controlledEntity.inst.uuid);
      } else {
        codec.WriteUuid(Null);
      }
      AppendAssoc(old(codec.buffer) + IntCells(I32, playerID), StringCells(name), UuidCells(EntityId()));
      AppendAssoc(old(codec.buffer), IntCells(I32, playerID), StringCells(name));
      AppendAssoc(old(codec.buffer), IntCells(I32, playerID) + StringCells(name), UuidCells(EntityId()));
    }

    /** `Decode`, with objs the objects of the player's world. The id and then the
        name are stored as soon as they are read; a nil entity UUID leaves the entity
        as it was, any other UUID replaces it with the player entity of that UUID, or
        with null when there is none. */
    method Decode(codec: PacketCodec, objs: seq<GameObject>) returns (r: Result<(int, string, UUID)>)
      modifies this, codec
      ensures codec.buffer == old(codec.buffer)
      ensures Step(r, codec.readPos) == ReadPlayerAt(codec.buffer, old(codec.readPos))
      ensures var i := ReadIntAt(codec.buffer, old(codec.readPos), I32);
        playerID == if i.result.Ok? then i.result.value else old(playerID)
      ensures var i := ReadIntAt(codec.buffer, old(codec.readPos), I32);
        var n := ReadStringAt(codec.buffer, i.pos);
        name == if i.result.Ok? && n.result.Ok? then n.result.value else old(name)
      ensures controlledEntity == if r.Ok? && r.value.2 != Null then AsPlayer(objs, r.value.2) else old(controlledEntity)
    {
      var i := codec.ReadInt(I32);
      if i.Err? {
        return Err(i.error);
      }
      playerID := i.value;
      var n := codec.ReadString();
      if n.Err? {
        return Err(n.error);
      }
      name := n.value;
      var u := codec.ReadUuid();
      if u.Err? {
        return Err(u.error);
      }
      ResolveEntity(u.value, objs);
      r := Ok((i.value, n.value, u.value));
    }

    /** The last step of `Decode`: a nil UUID keeps the entity, any other is looked
        up among objs. */
    method ResolveEntity(id: UUID, objs: seq<GameObject>)
      modifies this
      ensures controlledEntity == if id != Null then AsPlayer(objs, id) else old(controlledEntity)
      ensures playerID == old(playerID) && name == old(name)
    {
      if id != Null {
        var e := Find(objs, id);
        controlledEntity := if e != null && e.cls.PlayerObject? then e else null;
      }
    }
  }

  /** Encoding a player and decoding it into another player of the same world gives
      the second player the first one's id, name and entity, when the id fits 32 bits,
      the name is a byte string, the world's UUIDs are unique and the entity is a
      player entity of that world whose UUID is not the nil one. */
  method PlayerRoundTrip(p: LogicalPlayer, q: LogicalPlayer, objs: seq<GameObject>, k: nat)
    requires p != q && I32.Holds(p.playerID) && IsByteString(p.name) && |p.name| < TWO32
    requires UniqueIds(objs) && k < |objs| && objs[k].cls.PlayerObject?
    requires p.controlledEntity == objs[k] && objs[k].inst.uuid != Null
    modifies q
    ensures q.playerID == p.playerID && q.name == p.name && q.controlledEntity == p.controlledEntity
  {
    ghost var cells := PlayerCells(p.playerID, p.name, objs[k].inst.uuid);
    var codec := new PacketCodec();
    p.Encode(codec);
    assert codec.buffer == cells && codec.readPos == 0;
    ReadPlayerOfCells(cells, 0, p.playerID, p.name, objs[k].inst.uuid);
    EntityResolves(objs, k);
    var r := q.Decode(codec, objs);
  }
}
