/** The world's object bookkeeping (Core/World/World.h, Core/World/ServerWorld.h and
    the list operations of CoreImpl/World.cpp): the owned objects in insertion
    order, the destroy and replication queues, the players, and the server's
    replication pass.

    `World::Tick` and `ResolveCollision` work on the bodies' physical state and are
    modelled in the `Physics` module. A `ServerWorld` is a `World` built with
    `isServer` set, and it is the only kind of world that is, so the
    `dynamic_cast<ServerWorld*>` of the source succeeds exactly when `isServer` holds.

    The callbacks `SpawnObject` and `AddObject` connect to an object's `Destroyed`
    signal are connected through a handle that is dropped at once, which disconnects
    them again; the model keeps the signal's listeners as they were. */
module Worlds {
  import opened Wrappers
  import opened Uuid
  import opened Seqs
  import opened GMath
  import opened Signals
  import opened Components
  import opened Instances
  import opened GameObjects
  import opened Players
  import opened Packets

  const ErrNullObject := "Cannot add null GameObject"

  /** The callbacks connected by `SpawnObject` and `AddObject`. */
  const SPAWNED_DESTROYED_SLOT: nat := 1
  const ADDED_DESTROYED_SLOT: nat := 2

  /** The message `ResolveObject` throws for an unknown UUID. */
  function NotFound(id: UUID): string {
    "[World] could not find entity with id " + Format(id)
  }

  /** The instances of some objects. */
  function Insts(objs: seq<GameObject>): set<Instance> {
    set o | o in objs :: o.inst
  }

  /** The instances of the non-null entries of a queue. */
  function QueuedInsts(queue: seq<GameObject?>): set<Instance> {
    set o | o in queue && o != null :: o.inst
  }

  /** The objects the replication pass sends, in queue order: each non-null entry
      whose instance is dirty when its turn comes, that is, dirty at the start and
      not already sent through an earlier entry with the same instance. */
  ghost function Synced(queue: seq<GameObject?>): (r: seq<GameObject>)
    reads QueuedInsts(queue)
    ensures forall j :: 0 <= j < |r| ==> r[j] in queue && r[j].inst.dirty
    ensures forall o :: o in queue && o != null && o.inst.dirty ==> o.inst in Insts(r)
    ensures forall i, j :: 0 <= i < j < |r| ==> r[i].inst != r[j].inst
    decreases |queue|
  {
    if |queue| == 0 then []
    else
      var prev := Synced(queue[..|queue| - 1]);
      var o := queue[|queue| - 1];
      if o == null || !o.inst.dirty || o.inst in Insts(prev) then prev else prev + [o]
  }

  /** The Full Sync state `AddObject(obj, FullSync)` appends for an instance. */
  ghost function FullSync(i: Instance): ObjectState
    reads i, i.components.Values
  {
    ObjectState(i.uuid, FULL_SYNC, Some(InstanceCopy(i.uuid, i.tags, i.Data())))
  }

  /** The objects' instances' components. */
  ghost function ComponentsOf(objs: seq<GameObject>): set<Component>
    reads Insts(objs)
  {
    set o, c | o in objs && c in o.inst.components.Values :: c
  }

  /** The Full Sync states of some objects, in order. */
  ghost function FullSyncs(objs: seq<GameObject>): (r: seq<ObjectState>)
    reads Insts(objs), ComponentsOf(objs)
    ensures |r| == |objs|
    decreases |objs|
  {
    if |objs| == 0 then []
    else
      var last := objs[|objs| - 1];
      assert forall c :: c in last.inst.components.Values ==> c in ComponentsOf(objs);
      FullSyncs(objs[..|objs| - 1]) + [FullSync(last.inst)]
  }

  /** Distinct non-null entries of a queue have distinct instances, as distinct
      game objects do. */
  predicate OwnInstances(queue: seq<GameObject?>) {
    forall i, j :: 0 <= i < |queue| && 0 <= j < |queue| && queue[i] != null && queue[j] != null ==>
      (queue[i] != queue[j] ==> queue[i].inst != queue[j].inst)
  }

  /** When no two queued objects share an instance, the pass sends exactly the
      non-null queued objects that are dirty. */
  lemma {:induction false} SyncedExactly(queue: seq<GameObject?>)
    requires OwnInstances(queue)
    ensures forall o: GameObject :: o in Synced(queue) <==> o in queue && o.inst.dirty
  {
    var r := Synced(queue);
    forall o | o in queue && o != null && o.inst.dirty
      ensures o in r
    {
      assert o.inst in Insts(r);
      var g :| g in r && g.inst == o.inst;
      assert g in queue;
    }
  }

  class World {
    const isServer: bool
    /** The owned objects (`unique_ptr`s), in insertion order. */
    var objects: seq<GameObject>
    var destroyQueue: seq<GameObject>
    /** Raw pointers; null entries are possible. */
    var replicationQueue: seq<GameObject?>
    var players: seq<LogicalPlayer>

    constructor(isServer: bool)
      ensures this.isServer == isServer
      ensures objects == [] && destroyQueue == [] && replicationQueue == [] && players == []
    {
      this.isServer := isServer;
      objects := [];
      destroyQueue := [];
      replicationQueue := [];
      players := [];
    }

    /** `Find`. */
    method Find(id: UUID) returns (r: GameObject?)
      ensures r == Found(objects, id)
      ensures r != null ==> r in objects && r.inst.uuid == id
      ensures r == null <==> forall j :: 0 <= j < |objects| ==> objects[j].inst.uuid != id
    {
      r := Players.Find(objects, id);
    }

    /** `ResolveObject`: fails exactly when `Find` finds nothing. The source returns
        a copy of the object; the model returns the object. */
    method ResolveObject(id: UUID) returns (r: Result<GameObject>)
      ensures r.Err? <==> Found(objects, id) == null
      ensures r.Err? ==> r.error == NotFound(id)
      ensures r.Ok? ==> r.value == Found(objects, id) && r.value in objects && r.value.inst.uuid == id
    {
      var f := Find(id);
      if f == null {
        return Err(NotFound(id));
      }
      var g := Find(id);
      r := Ok(g);
    }

    /** `SpawnObject<T>(args...)`: a new object of class cls, with the given UUID,
        owned by this world and appended to its objects. */
    method SpawnObject(cls: ObjectClass, uuid: UUID, counter: IdCounter) returns (g: GameObject)
      modifies this, counter
      ensures fresh(g) && fresh(g.inst) && fresh(g.inst.Destroyed) && fresh(g.inst.components.Values)
      ensures fresh(g.Moved)
      ensures g.Valid() && g.cls == cls && g.inst.uuid == uuid && g.inst.world == this
      ensures g.Data() == InitialData(cls) && !g.inst.destroyed && !g.inst.dirty
      ensures g.inst.Destroyed.listeners == [] && g.inst.Destroyed.nextId == 1 && g.inst.Destroyed.log == []
      ensures counter.last == old(counter.last) + 1 && g.id == counter.last
      ensures objects == old(objects) + [g]
      ensures destroyQueue == old(destroyQueue) && replicationQueue == old(replicationQueue)
      ensures players == old(players)
    {
      g := NewObjectIn(cls, uuid, counter, this);
      Adopt(g);
    }

    /** The `push_back` of `SpawnObject`: only the object list changes, and what the
        object's components hold stays as it was. */
    method Adopt(g: GameObject)
      modifies this
      ensures objects == old(objects) + [g]
      ensures destroyQueue == old(destroyQueue) && replicationQueue == old(replicationQueue)
      ensures players == old(players)
      ensures g.Data() == old(g.Data()) && (old(g.Valid()) ==> g.Valid())
    {
      objects := objects + [g];
    }

    /** `SpawnPlayer(player, position)`: spawns a player entity, gives it to the
        player, puts it at position with rotation 0, and adds the player unless it
        is already there. */
    method SpawnPlayer(player: LogicalPlayer, position: Vec2, uuid: UUID, counter: IdCounter)
      returns (entity: GameObject)
      modifies this, counter, player
      ensures fresh(entity) && entity.cls.PlayerObject? && entity.inst.uuid == uuid
      ensures entity.inst.world == this && entity.HasTransform() && entity.Valid()
      ensures entity.Data() == InitialData(PlayerObject)[TransformKind := TransformAt(position, One2, 0.0)]
      ensures player.controlledEntity == entity
      ensures player.playerID == old(player.playerID) && player.name == old(player.name)
      ensures objects == old(objects) + [entity]
      ensures players == if player in old(players) then old(players) else old(players) + [player]
      ensures destroyQueue == old(destroyQueue) && replicationQueue == old(replicationQueue)
    {
      entity := NewPlayerEntity(player, position, uuid, counter, this);
      Register(player, entity);
    }

    /** The `push_back` of the new entity's `SpawnObject` together with the closing
        `find`/`AddPlayer` of `SpawnPlayer`: the entity joins the objects, the
        player joins the players unless it is there already, and what the entity's
        components hold stays as it was. */
    method Register(player: LogicalPlayer, entity: GameObject)
      modifies this
      ensures objects == old(objects) + [entity]
      ensures players == if player in old(players) then old(players) else old(players) + [player]
      ensures destroyQueue == old(destroyQueue) && replicationQueue == old(replicationQueue)
      ensures entity.Data() == old(entity.Data()) && (old(entity.Valid()) ==> entity.Valid())
    {
      Adopt(entity);
      if player !in players {
        AddPlayer(player);
      }
    }

    /** `AddPlayer`. */
    method AddPlayer(player: LogicalPlayer)
      modifies this
      ensures players == old(players) + [player]
      ensures objects == old(objects) && destroyQueue == old(destroyQueue)
      ensures replicationQueue == old(replicationQueue)
    {
      players := players + [player];
    }

    /** `AddObject`: refuses null; otherwise the object joins this world, is
        appended, and its UUID is returned. */
    method AddObject(obj: GameObject?) returns (r: Result<UUID>)
      requires obj != null ==> obj.inst.Destroyed.Valid()
      modifies this, if obj != null then {obj.inst, obj.inst.Destroyed} else {}
      ensures obj == null ==> r == Err(ErrNullObject) && unchanged(this)
      ensures obj != null ==>
        && r == Ok(obj.inst.uuid)
        && objects == old(objects) + [obj]
        && obj.inst.world == this
        && obj.inst.uuid == old(obj.inst.uuid) && obj.inst.tags == old(obj.inst.tags)
        && obj.inst.components == old(obj.inst.components) && obj.inst.locked == old(obj.inst.locked)
        && obj.inst.destroyed == old(obj.inst.destroyed) && obj.inst.dirty == old(obj.inst.dirty)
        && obj.inst.Destroyed.listeners == old(obj.inst.Destroyed.listeners)
        && obj.inst.Destroyed.log == old(obj.inst.Destroyed.log)
      ensures destroyQueue == old(destroyQueue) && replicationQueue == old(replicationQueue)
      ensures players == old(players)
    {
      if obj == null {
        return Err(ErrNullObject);
      }
      obj.inst.SetWorld(this);
      var id := obj.inst.uuid;
      objects := objects + [obj];
      ConnectDiscarded(obj.inst.Destroyed, ADDED_DESTROYED_SLOT);
      r := Ok(id);
    }

    /** `RemoveObject(obj)`: every entry for obj leaves the object list, the object
        is detached from the world, and its destroy-queue entries go too. */
    method RemoveObject(obj: GameObject?)
      modifies this, if obj != null then {obj.inst} else {}
      ensures obj == null ==> unchanged(this)
      ensures obj != null ==>
        && objects == Filter(old(objects), (o: GameObject) => o != obj)
        && destroyQueue == Filter(old(destroyQueue), (o: GameObject) => o != obj)
        && obj.inst.world == (if obj in old(objects) then null else old(obj.inst.world))
        && obj.inst.uuid == old(obj.inst.uuid) && obj.inst.tags == old(obj.inst.tags)
        && obj.inst.components == old(obj.inst.components) && obj.inst.dirty == old(obj.inst.dirty)
      ensures obj !in objects && obj !in destroyQueue
      ensures forall o :: o != obj ==> (o in objects <==> o in old(objects))
      ensures forall o :: o != obj ==> (o in destroyQueue <==> o in old(destroyQueue))
      ensures replicationQueue == old(replicationQueue) && players == old(players)
    {
      if obj == null {
        return;
      }
      var keep := (o: GameObject) => o != obj;
      var kept := EraseDetaching(objects, obj);
      forall o
        ensures o in Filter(destroyQueue, keep) <==> o in destroyQueue && keep(o)
      {
        FilterMember(destroyQueue, keep, o);
      }
      objects := kept;
      destroyQueue := Filter(destroyQueue, keep);
    }

    /** `RemoveObject(uuid)`: removes the object `Find` finds, if any. */
    method RemoveObjectById(id: UUID)
      modifies this, Insts(objects)
      ensures var f := old(Found(objects, id));
        && (f == null ==> unchanged(this))
        && (f != null ==>
          && objects == Filter(old(objects), (o: GameObject) => o != f)
          && destroyQueue == Filter(old(destroyQueue), (o: GameObject) => o != f)
          && f.inst.world == null)
      ensures replicationQueue == old(replicationQueue) && players == old(players)
    {
      var obj := Find(id);
      if obj == null {
        return;
      }
      RemoveObject(obj);
    }

    /** `ProcessDestroyQueue`: with a non-empty queue, erases exactly the objects that
        are marked for destruction and queued, keeps the others in order, and empties
        the queue. */
    method ProcessDestroyQueue()
      modifies this
      ensures old(destroyQueue) == [] ==> unchanged(this)
      ensures var d := old(Doomed(objects, destroyQueue));
        old(destroyQueue) != [] ==> objects == Filter(old(objects), (o: GameObject) => o !in d) && destroyQueue == []
      ensures old(destroyQueue) != [] ==>
        forall o :: o in objects <==> o in old(objects) && !(o.shouldDestroy && o in old(destroyQueue))
      ensures replicationQueue == old(replicationQueue) && players == old(players)
    {
      if |destroyQueue| == 0 {
        return;
      }
      var kept := EraseDoomed(objects, destroyQueue);
      objects := kept;
      destroyQueue := [];
    }

    /** `QueueReplication` (ServerWorld): nothing happens unless this is a server;
        otherwise obj is appended unless already queued. */
    method QueueReplication(obj: GameObject?)
      modifies this
      ensures !isServer || obj in old(replicationQueue) ==> replicationQueue == old(replicationQueue)
      ensures isServer && obj !in old(replicationQueue) ==> replicationQueue == old(replicationQueue) + [obj]
      ensures obj in replicationQueue <==> isServer || obj in old(replicationQueue)
      ensures Distinct(old(replicationQueue)) ==> Distinct(replicationQueue)
      ensures objects == old(objects) && destroyQueue == old(destroyQueue) && players == old(players)
    {
      if !isServer {
        return;
      }
      if obj !in replicationQueue {
        replicationQueue := replicationQueue + [obj];
      }
    }

    /** `ProcessReplicationQueue` (ServerWorld), with the broadcast left to the
        caller: on a server, the packet holds one Full Sync state per object the pass
        sends (`Synced`, from the queue as it was), every queued object ends clean,
        and the queue is emptied. Off a server nothing happens and there is no
        packet. */
    method ProcessReplicationQueue() returns (packet: ReplicationPacket?)
      modifies this, QueuedInsts(replicationQueue)
      ensures !isServer ==> packet == null && unchanged(this) && unchanged(QueuedInsts(replicationQueue))
      ensures isServer ==>
        && packet != null && fresh(packet) && packet.Valid()
        && packet.objects == old(FullSyncs(Synced(replicationQueue)))
        && replicationQueue == []
      ensures isServer ==> forall o :: o in old(replicationQueue) && o != null ==> !o.inst.dirty
      ensures forall o :: o in old(replicationQueue) && o != null ==>
        && o.inst.uuid == old(o.inst.uuid) && o.inst.tags == old(o.inst.tags)
        && o.inst.components == old(o.inst.components) && o.inst.world == old(o.inst.world)
      ensures objects == old(objects) && destroyQueue == old(destroyQueue) && players == old(players)
    {
      if !isServer {
        return null;
      }
      packet := SendDirty(replicationQueue);
      replicationQueue := [];
    }
  }

  /** The replication pass over q: a new packet, filled by `Fill`. */
  method SendDirty(q: seq<GameObject?>) returns (packet: ReplicationPacket)
    modifies QueuedInsts(q)
    ensures fresh(packet) && packet.Valid()
    ensures packet.objects == old(FullSyncs(Synced(q)))
    ensures forall o :: o in q && o != null ==> !o.inst.dirty
    ensures forall o :: o in q && o != null ==>
      && o.inst.uuid == old(o.inst.uuid) && o.inst.tags == old(o.inst.tags)
      && o.inst.components == old(o.inst.components) && o.inst.world == old(o.inst.world)
  {
    ghost var sent := Synced(q);
    ghost var sends := FullSyncs(sent);
    ghost var comps := ComponentsOf(sent);
    packet := new ReplicationPacket();
    assert Synced(q) == sent;
    assert ComponentsOf(sent) == comps;
    assert FullSyncs(sent) == sends;
    Fill(q, packet);
  }

  /** The replication loop: each queued object that is not null and is still dirty
      has its Full Sync state appended to packet and is made clean, so the packet
      gains the states of `Synced(q)` as the queue was. */
  method Fill(q: seq<GameObject?>, packet: ReplicationPacket)
    requires packet.Valid()
    modifies packet, QueuedInsts(q)
    ensures packet.Valid()
    ensures packet.objects == old(packet.objects) + old(FullSyncs(Synced(q)))
    ensures forall o :: o in q && o != null ==> !o.inst.dirty
    ensures forall o :: o in q && o != null ==>
      && o.inst.uuid == old(o.inst.uuid) && o.inst.tags == old(o.inst.tags)
      && o.inst.components == old(o.inst.components) && o.inst.world == old(o.inst.world)
  {
    forall i | 0 <= i < |q|
      ensures FullSyncs(Synced(q[..i + 1])) == FullSyncs(Synced(q[..i])) + SyncedAt(q, i)
    {
      SyncedStep(q, i);
    }
    ghost var seen: set<Instance> := {};
    for i := 0 to |q|
      invariant packet.Valid()
      invariant seen == old(Insts(Synced(q[..i])))
      invariant packet.objects == old(packet.objects) + old(FullSyncs(Synced(q[..i])))
      invariant forall o :: o in q && o != null ==> o.inst.dirty == (old(o.inst.dirty) && o.inst !in seen)
      invariant forall o :: o in q && o != null ==>
        && o.inst.uuid == old(o.inst.uuid) && o.inst.tags == old(o.inst.tags)
        && o.inst.components == old(o.inst.components) && o.inst.world == old(o.inst.world)
    {
      assert q[..i + 1][..i] == q[..i];
      if q[i] != null {
        assert FullSync(q[i].inst) == old(FullSync(q[i].inst));
      }
      if q[i] != null && q[i].inst.dirty {
        seen := seen + {q[i].inst};
      }
      SyncStep(q, i, packet);
    }
    assert q[..|q|] == q;
  }

  /** What entry i of the queue adds to the pass's states: its Full Sync state when
      it is not null, is dirty and its instance was not sent earlier in the pass. */
  ghost function SyncedAt(q: seq<GameObject?>, i: nat): seq<ObjectState>
    requires i < |q|
    reads QueuedInsts(q), if q[i] != null then q[i].inst.components.Values else {}
  {
    if q[i] != null && q[i].inst.dirty && q[i].inst !in Insts(Synced(q[..i])) then [FullSync(q[i].inst)] else []
  }

  lemma SyncedStep(q: seq<GameObject?>, i: nat)
    requires i < |q|
    ensures FullSyncs(Synced(q[..i + 1])) == FullSyncs(Synced(q[..i])) + SyncedAt(q, i)
  {
    assert q[..i + 1][..i] == q[..i];
  }

  /** One turn of the replication loop, on entry i of q. */
  method SyncStep(q: seq<GameObject?>, i: nat, packet: ReplicationPacket)
    requires i < |q| && packet.Valid()
    modifies packet, QueuedInsts(q)
    ensures packet.Valid()
    ensures var o := q[i];
      packet.objects == old(packet.objects) + (if o != null && old(o.inst.dirty) then [old(FullSync(o.inst))] else [])
    ensures forall o :: o in q && o != null ==>
      o.inst.dirty == (old(o.inst.dirty) && (q[i] == null || o.inst != q[i].inst))
    ensures forall o :: o in q && o != null ==>
      && o.inst.uuid == old(o.inst.uuid) && o.inst.tags == old(o.inst.tags)
      && o.inst.components == old(o.inst.components) && o.inst.world == old(o.inst.world)
  {
    var o := q[i];
    if o == null || !o.inst.dirty {
      return;
    }
    packet.AddObject(o.inst, FULL_SYNC);
    o.inst.ClearDirty();
  }

  /** `player->SetPlayerEntity(&g)` for an object g the player does not hold yet:
      the player now controls g, and g's components and validity are untouched. */
  method GiveEntity(player: LogicalPlayer, g: GameObject)
    requires g.Valid()
    modifies player, g.inst.Destroyed
    ensures player.controlledEntity == g
    ensures player.playerID == old(player.playerID) && player.name == old(player.name)
    ensures g.Valid() && g.Data() == old(g.Data())
  {
    player.SetPlayerEntity(g);
  }

  /** A freshly spawned player entity's transform is the default one, so placing
      it leaves exactly position and rotation 0 on top of its initial data. */
  lemma SpawnedTransform(position: Vec2)
    ensures var d := InitialData(PlayerObject); var t := d[TransformKind];
      && t.Transform?
      && d[TransformKind := Transform(position, t.scale, t.velocity, t.acceleration, 0.0)]
         == d[TransformKind := TransformAt(position, One2, 0.0)]
  {
    assert InitialData(PlayerObject)[TransformKind] == DefaultPayload(TransformKind);
  }

  /** The entity `SpawnPlayer` makes, before it is stored in the world: a new
      player object owned by w, handed to the player and placed at position with
      rotation 0. */
  method NewPlayerEntity(player: LogicalPlayer, position: Vec2, uuid: UUID, counter: IdCounter, w: object)
    returns (g: GameObject)
    modifies counter, player
    ensures fresh(g) && fresh(g.inst) && fresh(g.inst.Destroyed) && fresh(g.inst.components.Values)
    ensures g.Valid() && g.cls == PlayerObject && g.inst.uuid == uuid && g.inst.world == w && g.HasTransform()
    ensures g.Data() == InitialData(PlayerObject)[TransformKind := TransformAt(position, One2, 0.0)]
    ensures !g.inst.destroyed && !g.inst.dirty
    ensures player.controlledEntity == g
    ensures player.playerID == old(player.playerID) && player.name == old(player.name)
    ensures counter.last == old(counter.last) + 1 && g.id == counter.last
  {
    g := NewObjectIn(PlayerObject, uuid, counter, w);
    SpawnedTransform(position);
    Equip(player, g, position);
  }

  /** The middle of `SpawnPlayer`: the player takes g, which is then placed. */
  method Equip(player: LogicalPlayer, g: GameObject, position: Vec2)
    requires g.Valid() && g.HasTransform()
    modifies player, g.inst.Destroyed, g.Transform(), g.Moved
    ensures player.controlledEntity == g
    ensures player.playerID == old(player.playerID) && player.name == old(player.name)
    ensures g.Valid() && g.HasTransform() && g.inst.components == old(g.inst.components)
    ensures var t := old(g.Data())[TransformKind];
      t.Transform? && g.Data() == old(g.Data())[TransformKind := Transform(position, t.scale, t.velocity, t.acceleration, 0.0)]
  {
    GiveEntity(player, g);
    Place(g, position);
  }

  /** `SetPosition(position)` followed by `GetTransform()->SetRotation(0)`: only the
      position and rotation of the transform change. */
  method Place(g: GameObject, position: Vec2)
    requires g.Valid() && g.HasTransform()
    modifies g.Transform(), g.Moved
    ensures g.Valid() && g.HasTransform() && g.inst.components == old(g.inst.components)
    ensures var t := old(g.Data())[TransformKind];
      t.Transform? && g.Data() == old(g.Data())[TransformKind := Transform(position, t.scale, t.velocity, t.acceleration, 0.0)]
  {
    ghost var d0 := g.Data();
    g.SetPosition(position);
    ghost var d1 := g.Data();
    g.SetRotation(0.0);
    assert d1[TransformKind] == d0[TransformKind].(position := position);
  }

  /** The new object `SpawnObject` makes: constructed, given the world w, and
      with a callback connected to its `Destroyed` signal through a handle that is
      dropped at once. */
  method NewObjectIn(cls: ObjectClass, uuid: UUID, counter: IdCounter, w: object) returns (g: GameObject)
    modifies counter
    ensures fresh(g) && fresh(g.inst) && fresh(g.inst.Destroyed) && fresh(g.inst.components.Values)
    ensures fresh(g.Moved)
    ensures g.Valid() && g.cls == cls && g.inst.uuid == uuid && g.inst.world == w
    ensures g.Data() == InitialData(cls) && !g.inst.destroyed && !g.inst.dirty
    ensures g.inst.Destroyed.listeners == [] && g.inst.Destroyed.nextId == 1 && g.inst.Destroyed.log == []
    ensures counter.last == old(counter.last) + 1 && g.id == counter.last
  {
    g := NewObject(cls, uuid, counter);
    Join(g, w);
  }

  /** `SetWorld(w)` and the discarded `Destroyed.Connect(...)` of `SpawnObject`: the
      object belongs to w and keeps its components, and the callback is gone again. */
  method Join(g: GameObject, w: object)
    requires g.Valid()
    modifies g.inst, g.inst.Destroyed
    ensures g.Valid() && g.inst.world == w && g.Data() == old(g.Data())
    ensures g.inst.components == old(g.inst.components)
    ensures g.inst.uuid == old(g.inst.uuid) && g.inst.destroyed == old(g.inst.destroyed) && g.inst.dirty == old(g.inst.dirty)
    ensures g.inst.Destroyed.listeners == old(g.inst.Destroyed.listeners)
    ensures g.inst.Destroyed.log == old(g.inst.Destroyed.log)
    ensures g.inst.Destroyed.nextId == old(g.inst.Destroyed.nextId) + 1
  {
    g.inst.SetWorld(w);
    ConnectDiscarded(g.inst.Destroyed, SPAWNED_DESTROYED_SLOT);
  }

  /** The object-list pass of `RemoveObject(obj)`: every entry for obj is dropped
      and obj is detached from its world; the other entries keep their order. */
  method EraseDetaching(objs: seq<GameObject>, obj: GameObject) returns (kept: seq<GameObject>)
    modifies obj.inst
    ensures kept == Filter(objs, (o: GameObject) => o != obj)
    ensures forall o :: o in kept <==> o in objs && o != obj
    ensures obj.inst.world == (if obj in objs then null else old(obj.inst.world))
    ensures obj.inst.uuid == old(obj.inst.uuid) && obj.inst.tags == old(obj.inst.tags)
    ensures obj.inst.components == old(obj.inst.components) && obj.inst.dirty == old(obj.inst.dirty)
  {
    var keep := (o: GameObject) => o != obj;
    kept := [];
    for i := 0 to |objs|
      invariant kept == Filter(objs[..i], keep)
      invariant obj.inst.world == (if obj in objs[..i] then null else old(obj.inst.world))
      invariant obj.inst.uuid == old(obj.inst.uuid) && obj.inst.tags == old(obj.inst.tags)
      invariant obj.inst.components == old(obj.inst.components) && obj.inst.dirty == old(obj.inst.dirty)
    {
      FilterSnoc(objs, i, keep);
      assert objs[..i + 1] == objs[..i] + [objs[i]];
      if objs[i] == obj {
        objs[i].inst.SetWorld(null);
      } else {
        kept := kept + [objs[i]];
      }
    }
    assert objs[..|objs|] == objs;
    forall o
      ensures o in kept <==> o in objs && keep(o)
    {
      FilterMember(objs, keep, o);
    }
  }

  /** The objects `ProcessDestroyQueue` erases: marked for destruction and queued. */
  function Doomed(objs: seq<GameObject>, queue: seq<GameObject>): set<GameObject>
    reads objs
  {
    set o | o in objs && o.shouldDestroy && o in queue
  }

  /** The `remove_if` pass of `ProcessDestroyQueue`: drops exactly the objects that
      are marked for destruction and queued, and keeps the others in order. */
  method EraseDoomed(objs: seq<GameObject>, queue: seq<GameObject>) returns (kept: seq<GameObject>)
    ensures var d := Doomed(objs, queue); kept == Filter(objs, (o: GameObject) => o !in d)
    ensures forall o :: o in kept <==> o in objs && !(o.shouldDestroy && o in queue)
  {
    ghost var doomed := Doomed(objs, queue);
    var keep := (o: GameObject) => o !in doomed;
    kept := [];
    for i := 0 to |objs|
      invariant kept == Filter(objs[..i], keep)
    {
      FilterSnoc(objs, i, keep);
      var o := objs[i];
      if !(o.shouldDestroy && o in queue) {
        kept := kept + [o];
      }
    }
    assert objs[..|objs|] == objs;
    forall o
      ensures o in kept <==> o in objs && keep(o)
    {
      FilterMember(objs, keep, o);
    }
  }

  /** `GameObject::SetDirty(val)`: stores the flag, and a dirty object of a server
      world is queued for replication. w is the object's world. */
  method SetObjectDirty(g: GameObject, val: bool, w: World?)
    requires g.inst.world == w
    modifies g.inst, if w != null then {w} else {}
    ensures g.inst.dirty == val
    ensures g.inst.uuid == old(g.inst.uuid) && g.inst.tags == old(g.inst.tags)
    ensures g.inst.components == old(g.inst.components) && g.inst.world == old(g.inst.world)
    ensures w != null && val && w.isServer && g !in old(w.replicationQueue) ==>
      w.replicationQueue == old(w.replicationQueue) + [g]
    ensures w != null && !(val && w.isServer && g !in old(w.replicationQueue)) ==>
      w.replicationQueue == old(w.replicationQueue)
    ensures w != null ==> w.objects == old(w.objects) && w.destroyQueue == old(w.destroyQueue)
  {
    g.inst.SetDirty(val);
    if g.inst.dirty && w != null && w.isServer {
      w.QueueReplication(g);
    }
  }
}
