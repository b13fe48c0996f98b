/** The concrete packets (Common/Packets): each one's id, the fields its `Encode`
    appends to a `PacketCodec`, and the fields its `Decode` reads back, in order.

    What a packet's `Decode` reads at cursor `pos` of buffer `buf` is the function
    `ReadXAt(buf, pos)`; each `Decode` method is proved to do exactly that and each
    `Encode` method to append `XCells(...)`, and the round trips are lemmas about
    those functions. A `Decode` that throws part way has already stored the fields it
    read before the failing one, and the model says so. */
module Packets {
  import opened Arith
  import opened Wrappers
  import opened VarInt
  import opened Octets
  import opened Uuid
  import opened Codec
  import opened Seqs
  import opened Shapes
  import opened Components
  import opened Instances

  const PLAYER_JOIN_ID: nat := 1
  const CHAT_MESSAGE_ID: nat := 2
  const HANDSHAKE_ACK_ID: nat := 5
  const HANDSHAKE_ID: nat := 6
  const REPLICATION_ID: nat := 42

  /** Two reads in a row: the first failure ends the packet and its message is the
      result; the cursor stays where the failing read left it. */
  function Then<A, B>(first: Step<A>, second: Step<B>): Step<(A, B)> {
    if first.result.Err? then Step(Err(first.result.error), first.pos)
    else if second.result.Err? then Step(Err(second.result.error), second.pos)
    else Step(Ok((first.result.value, second.result.value)), second.pos)
  }

  // ---------------------------------------------------------------------------
  // HandshakePacket (C2S): client version, then the authentication token
  // ---------------------------------------------------------------------------

  function HandshakeCells(clientVersion: int, authToken: UUID): seq<Octet> {
    IntCells(U32, clientVersion) + UuidCells(authToken)
  }

  function ReadHandshakeAt(buf: seq<Octet>, pos: nat): Step<(int, UUID)> {
    var v := ReadIntAt(buf, pos, U32);
    if v.result.Err? then Step(Err(v.result.error), v.pos)
    else Then(v, ReadUuidAt(buf, v.pos))
  }

  /** Decoding what `Encode` wrote gives back both fields, and the cursor ends after
      them. */
  lemma ReadHandshakeOfCells(buf: seq<Octet>, pos: nat, clientVersion: int, authToken: UUID)
    requires U32.Holds(clientVersion) && HoldsAt(buf, pos, HandshakeCells(clientVersion, authToken))
    ensures ReadHandshakeAt(buf, pos) == Step(Ok((clientVersion, authToken)), pos + 24)
  {
    HoldsAtSplit(buf, pos, IntCells(U32, clientVersion), UuidCells(authToken));
    ReadIntOfCells(buf, pos, U32, clientVersion);
    ReadUuidOfCells(buf, pos + 4, authToken);
  }

  /** Every proper prefix of a handshake's encoding makes `Decode` throw: too short
      for the version, for the token's length, or for the token's 16 bytes. */
  lemma HandshakeTruncated(clientVersion: int, authToken: UUID, n: nat)
    requires U32.Holds(clientVersion) && n < |HandshakeCells(clientVersion, authToken)|
    ensures ReadHandshakeAt(HandshakeCells(clientVersion, authToken)[..n], 0).result.Err?
  {
    var cells := HandshakeCells(clientVersion, authToken);
    var buf := cells[..n];
    if n >= 4 {
      assert HoldsAt(buf, 0, IntCells(U32, clientVersion)) by {
        assert buf[..4] == cells[..4];
      }
      ReadIntOfCells(buf, 0, U32, clientVersion);
      if n >= 8 {
        assert HoldsAt(buf, 4, LengthCells(16)) by {
          assert buf[4..8] == cells[4..8] == UuidCells(authToken)[..4];
        }
        ReadLengthOfCells(buf, 4, 16);
      }
    }
  }

  class HandshakePacket {
    /** A `uint32_t`. */
    var clientVersion: int
    var authToken: UUID

    /** The implicit default constructor: the token is the null UUID and the version
        is indeterminate, taken here as 0. */
    constructor()
      ensures clientVersion == 0 && authToken == Null
    {
      clientVersion := 0;
      authToken := Null;
    }

    method Encode(codec: PacketCodec)
      modifies codec
      ensures codec.buffer == old(codec.buffer) + HandshakeCells(clientVersion, authToken)
      ensures codec.readPos == old(codec.readPos)
    {
      codec.WriteInt(U32, clientVersion);
      codec.WriteUuid(authToken);
      AppendAssoc(old(codec.buffer), IntCells(U32, clientVersion), UuidCells(authToken));
    }

    /** `Decode`: each field is stored as soon as it is read. */
    method Decode(codec: PacketCodec) returns (r: Result<(int, UUID)>)
      modifies this, codec
      ensures codec.buffer == old(codec.buffer)
      ensures Step(r, codec.readPos) == ReadHandshakeAt(codec.buffer, old(codec.readPos))
      ensures var v := ReadIntAt(codec.buffer, old(codec.readPos), U32);
        clientVersion == if v.result.Ok? then v.result.value else old(clientVersion)
      ensures authToken == if r.Ok? then r.value.1 else old(authToken)
    {
      var v := codec.ReadInt(U32);
      if v.Err? {
        return Err(v.error);
      }
      clientVersion := v.value;
      var t := codec.ReadUuid();
      if t.Err? {
        return Err(t.error);
      }
      authToken := t.value;
      r := Ok((v.value, t.value));
    }
  }

  // ---------------------------------------------------------------------------
  // HandshakeAckPacket (S2C): success flag, then the message
  // ---------------------------------------------------------------------------

  function HandshakeAckCells(success: bool, message: string): seq<Octet> {
    BoolCells(success) + StringCells(message)
  }

  function ReadHandshakeAckAt(buf: seq<Octet>, pos: nat): Step<(bool, string)> {
    var b := ReadBoolAt(buf, pos);
    if b.result.Err? then Step(Err(b.result.error), b.pos)
    else Then(b, ReadStringAt(buf, b.pos))
  }

  lemma ReadHandshakeAckOfCells(buf: seq<Octet>, pos: nat, success: bool, message: string)
    requires IsByteString(message) && |message| < TWO32
    requires HoldsAt(buf, pos, HandshakeAckCells(success, message))
    ensures ReadHandshakeAckAt(buf, pos) == Step(Ok((success, message)), pos + |HandshakeAckCells(success, message)|)
  {
    HoldsAtSplit(buf, pos, BoolCells(success), StringCells(message));
    ReadBoolOfCells(buf, pos, success);
    ReadStringOfCells(buf, pos + 1, message);
  }

  class HandshakeAckPacket {
    var success: bool
    var message: string

    /** `HandshakeAckPacket() = default`: the message is empty and the flag
        indeterminate, taken here as false. */
    constructor()
      ensures !success && message == ""
    {
      success := false;
      message := "";
    }

    /** `HandshakeAckPacket(success, msg)`. */
    constructor Make(success: bool, msg: string)
      ensures this.success == success && message == msg
    {
      this.success := success;
      message := msg;
    }

    method Encode(codec: PacketCodec)
      modifies codec
      ensures codec.buffer == old(codec.buffer) + HandshakeAckCells(success, message)
      ensures codec.readPos == old(codec.readPos)
    {
      codec.WriteBool(success);
      codec.WriteString(message);
      AppendAssoc(old(codec.buffer), BoolCells(success), StringCells(message));
    }

    method Decode(codec: PacketCodec) returns (r: Result<(bool, string)>)
      modifies this, codec
      ensures codec.buffer == old(codec.buffer)
      ensures Step(r, codec.readPos) == ReadHandshakeAckAt(codec.buffer, old(codec.readPos))
      ensures var b := ReadBoolAt(codec.buffer, old(codec.readPos));
        success == if b.result.Ok? then b.result.value else old(success)
      ensures message == if r.Ok? then r.value.1 else old(message)
    {
      var b := codec.ReadBool();
      if b.Err? {
        return Err(b.error);
      }
      success := b.value;
      var m := codec.ReadString();
      if m.Err? {
        return Err(m.error);
      }
      message := m.value;
      r := Ok((b.value, m.value));
    }
  }

  // ---------------------------------------------------------------------------
  // ChatMessagePacket (both ways): the sender first, then the message
  // ---------------------------------------------------------------------------

  /** The sender goes first although `message` is declared first. */
  function ChatMessageCells(message: string, sender: string): seq<Octet> {
    StringCells(sender) + StringCells(message)
  }

  /** The sender, then the message. */
  function ReadChatMessageAt(buf: seq<Octet>, pos: nat): Step<(string, string)> {
    var s := ReadStringAt(buf, pos);
    if s.result.Err? then Step(Err(s.result.error), s.pos)
    else Then(s, ReadStringAt(buf, s.pos))
  }

  lemma ReadChatMessageOfCells(buf: seq<Octet>, pos: nat, message: string, sender: string)
    requires IsByteString(message) && |message| < TWO32 && IsByteString(sender) && |sender| < TWO32
    requires HoldsAt(buf, pos, ChatMessageCells(message, sender))
    ensures ReadChatMessageAt(buf, pos) == Step(Ok((sender, message)), pos + |ChatMessageCells(message, sender)|)
  {
    HoldsAtSplit(buf, pos, StringCells(sender), StringCells(message));
    ReadStringOfCells(buf, pos, sender);
    ReadStringOfCells(buf, pos + |StringCells(sender)|, message);
  }

  class ChatMessagePacket {
    var message: string
    var sender: string

    constructor()
      ensures message == "" && sender == ""
    {
      message := "";
      sender := "";
    }

    method Encode(codec: PacketCodec)
      modifies codec
      ensures codec.buffer == old(codec.buffer) + ChatMessageCells(message, sender)
      ensures codec.readPos == old(codec.readPos)
    {
      codec.WriteString(sender);
      codec.WriteString(message);
      AppendAssoc(old(codec.buffer), StringCells(sender), StringCells(message));
    }

    /** `Decode`: the result is (sender, message), in the order read. */
    method Decode(codec: PacketCodec) returns (r: Result<(string, string)>)
      modifies this, codec
      ensures codec.buffer == old(codec.buffer)
      ensures Step(r, codec.readPos) == ReadChatMessageAt(codec.buffer, old(codec.readPos))
      ensures var s := ReadStringAt(codec.buffer, old(codec.readPos));
        sender == if s.result.Ok? then s.result.value else old(sender)
      ensures message == if r.Ok? then r.value.1 else old(message)
    {
      var s := codec.ReadString();
      if s.Err? {
        return Err(s.error);
      }
      sender := s.value;
      var m := codec.ReadString();
      if m.Err? {
        return Err(m.error);
      }
      message := m.value;
      r := Ok((s.value, m.value));
    }
  }

  // ---------------------------------------------------------------------------
  // PlayerJoinPacket (both ways): the user name, then the player's UUID
  // ---------------------------------------------------------------------------

  function PlayerJoinCells(username: string, uuid: UUID): seq<Octet> {
    StringCells(username) + UuidCells(uuid)
  }

  function ReadPlayerJoinAt(buf: seq<Octet>, pos: nat): Step<(string, UUID)> {
    var n := ReadStringAt(buf, pos);
    if n.result.Err? then Step(Err(n.result.error), n.pos)
    else Then(n, ReadUuidAt(buf, n.pos))
  }

  lemma ReadPlayerJoinOfCells(buf: seq<Octet>, pos: nat, username: string, uuid: UUID)
    requires IsByteString(username) && |username| < TWO32
    requires HoldsAt(buf, pos, PlayerJoinCells(username, uuid))
    ensures ReadPlayerJoinAt(buf, pos) == Step(Ok((username, uuid)), pos + |PlayerJoinCells(username, uuid)|)
  {
    HoldsAtSplit(buf, pos, StringCells(username), UuidCells(uuid));
    ReadStringOfCells(buf, pos, username);
    ReadUuidOfCells(buf, pos + |StringCells(username)|, uuid);
  }

  class PlayerJoinPacket {
    var username: string
    var uuid: UUID

    constructor()
      ensures username == "" && uuid == Null
    {
      username := "";
      uuid := Null;
    }

    method Encode(codec: PacketCodec)
      modifies codec
      ensures codec.buffer == old(codec.buffer) + PlayerJoinCells(username, uuid)
      ensures codec.readPos == old(codec.readPos)
    {
      codec.WriteString(username);
      codec.WriteUuid(uuid);
      AppendAssoc(old(codec.buffer), StringCells(username), UuidCells(uuid));
    }

    method Decode(codec: PacketCodec) returns (r: Result<(string, UUID)>)
      modifies this, codec
      ensures codec.buffer == old(codec.buffer)
      ensures Step(r, codec.readPos) == ReadPlayerJoinAt(codec.buffer, old(codec.readPos))
      ensures var n := ReadStringAt(codec.buffer, old(codec.readPos));
        username == if n.result.Ok? then n.result.value else old(username)
      ensures uuid == if r.Ok? then r.value.1 else old(uuid)
    {
      var n := codec.ReadString();
      if n.Err? {
        return Err(n.error);
      }
      username := n.value;
      var u := codec.ReadUuid();
      if u.Err? {
        return Err(u.error);
      }
      uuid := u.value;
      r := Ok((n.value, u.value));
    }
  }

  // ---------------------------------------------------------------------------
  // ReplicationPacket (S2C): a u32 count, then each object's state
  // ---------------------------------------------------------------------------

  /** The `ReplicationType` bytes. `Decode` casts whatever byte it finds, so a state's
      type is any byte. */
  const FULL_SYNC: int := 0
  const SPAWN: int := 1
  const DESTROY: int := 2

  /** The instance a state carries, as far as the wire shows it: its UUID, tags and
      component fields by class. */
  datatype InstanceCopy = InstanceCopy(uuid: UUID, tags: seq<string>, components: map<Kind, Payload>)

  /** `ObjectState`. */
  datatype ObjectState = ObjectState(uuid: UUID, kind: int, instance: Option<InstanceCopy>)

  /** A value-initialised `ObjectState`, as `resize` appends them. */
  function DefaultState(): ObjectState {
    ObjectState(Null, FULL_SYNC, None)
  }

  /** `ObjectState::Encode` writes the instance only for a state that is not a
      Destroy and has one. */
  predicate CarriesInstance(s: ObjectState) {
    s.kind != DESTROY && s.instance.Some?
  }

  function StateCells(s: ObjectState, names: map<Kind, string>, shapeNames: map<ShapeType, string>): seq<Octet> {
    UuidCells(s.uuid) + IntCells(U8, s.kind) +
    (if CarriesInstance(s) then
       var c := s.instance.value;
       InstanceCells(c.uuid, c.tags, c.components, names, shapeNames)
     else [])
  }

  function StateWriter(names: map<Kind, string>, shapeNames: map<ShapeType, string>): ObjectState -> seq<Octet> {
    s => StateCells(s, names, shapeNames)
  }

  /** What `ReplicationPacket::Encode` writes. */
  function ReplicationCells(objs: seq<ObjectState>, names: map<Kind, string>,
                            shapeNames: map<ShapeType, string>): seq<Octet> {
    IntCells(U32, |objs| % TWO32) + Flatten(objs, StateWriter(names, shapeNames))
  }

  /** The instance a fresh `Instance` becomes when it decodes `snap`. */
  function CopyOf(snap: Snapshot): InstanceCopy {
    InstanceCopy(snap.uuid, snap.tags, Overlay(map[], snap.entries))
  }

  /** `ObjectState::Decode`: the UUID, the type byte, and unless the type is Destroy
      an instance decoded into a fresh `Instance`. */
  function ReadStateAt(buf: seq<Octet>, pos: nat, registry: map<string, Kind>,
                       shapes: map<string, ShapeType>): (s: Step<ObjectState>)
    ensures s.result.Ok? ==> AsRead(s.result.value)
  {
    var u := ReadUuidAt(buf, pos);
    if u.result.Err? then Step(Err(u.result.error), u.pos)
    else
      var k := ReadIntAt(buf, u.pos, U8);
      if k.result.Err? then Step(Err(k.result.error), k.pos)
      else if k.result.value == DESTROY then Step(Ok(ObjectState(u.result.value, DESTROY, None)), k.pos)
      else
        var i := ReadInstanceAt(buf, k.pos, registry, shapes);
        if i.result.Err? then Step(Err(i.result.error), i.pos)
        else Step(Ok(ObjectState(u.result.value, k.result.value, Some(CopyOf(i.result.value)))), i.pos)
  }

  function StateReader(registry: map<string, Kind>, shapes: map<string, ShapeType>): Reader<ObjectState> {
    (b: seq<Octet>, p: nat) => ReadStateAt(b, p, registry, shapes)
  }

  /** `ReplicationPacket::Decode`'s reads: the u32 count, then that many states. */
  function ReadReplicationAt(buf: seq<Octet>, pos: nat, registry: map<string, Kind>,
                             shapes: map<string, ShapeType>): Step<seq<ObjectState>> {
    var count := ReadIntAt(buf, pos, U32);
    if count.result.Err? then Step(Err(count.result.error), count.pos)
    else ReadListAt(buf, count.pos, count.result.value, StateReader(registry, shapes))
  }

  /** A state as `Decode` produces it: it carries an instance exactly when it is not
      a Destroy. */
  predicate AsRead(s: ObjectState) {
    s.kind == DESTROY <==> s.instance.None?
  }

  /** `objects.resize(n)`: the first n states stay, default states fill up. */
  function Resized(objs: seq<ObjectState>, n: nat): (r: seq<ObjectState>)
    ensures |r| == n
    ensures forall i :: 0 <= i < n && i < |objs| ==> r[i] == objs[i]
    ensures forall i :: |objs| <= i < n ==> r[i] == DefaultState()
  {
    if n <= |objs| then objs[..n] else objs + seq(n - |objs|, _ => DefaultState())
  }

  /** A state read over the entry `before`: a Destroy state reads no instance and so
      keeps the one `before` had. */
  function Into(before: ObjectState, read: ObjectState): ObjectState {
    if read.kind == DESTROY then read.(instance := before.instance) else read
  }

  /** Decoding `read` over the resized list, entry by entry. */
  function Merged(before: seq<ObjectState>, read: seq<ObjectState>): (r: seq<ObjectState>)
    requires |before| == |read|
    ensures |r| == |read|
    ensures forall i :: 0 <= i < |read| ==> r[i] == Into(before[i], read[i])
  {
    seq(|read|, i requires 0 <= i < |read| => Into(before[i], read[i]))
  }

  /** The instance a fresh `Instance` holds once its `Decode` has failed (see
      `Instances.Instance.Decode` for what that leaves). */
  function FreshCopy(): InstanceCopy {
    InstanceCopy(Null, [], map[])
  }

  /** `objects[i].Decode(codec)` over the entry `before`: the UUID is assigned, then
      the type, then, unless the type is Destroy, a fresh instance is stored and
      decodes. A read that throws leaves the fields assigned before it. */
  function DecodedState(buf: seq<Octet>, pos: nat, before: ObjectState, registry: map<string, Kind>,
                        shapes: map<string, ShapeType>): (r: ObjectState)
    ensures ReadStateAt(buf, pos, registry, shapes).result.Ok? ==>
      r == Into(before, ReadStateAt(buf, pos, registry, shapes).result.value)
    ensures ReadUuidAt(buf, pos).result.Err? ==> r == before
    ensures ReadUuidAt(buf, pos).result.Ok? ==> r.uuid == ReadUuidAt(buf, pos).result.value
    ensures ReadStateAt(buf, pos, registry, shapes).result.Err? && ReadUuidAt(buf, pos).result.Ok? ==>
      (r.kind == before.kind && r.instance == before.instance) || r.instance == Some(FreshCopy())
  {
    var u := ReadUuidAt(buf, pos);
    if u.result.Err? then before
    else
      var k := ReadIntAt(buf, u.pos, U8);
      if k.result.Err? then before.(uuid := u.result.value)
      else if k.result.value == DESTROY then ObjectState(u.result.value, DESTROY, before.instance)
      else
        var i := ReadInstanceAt(buf, k.pos, registry, shapes);
        if i.result.Err? then ObjectState(u.result.value, k.result.value, Some(FreshCopy()))
        else ObjectState(u.result.value, k.result.value, Some(CopyOf(i.result.value)))
  }

  /** `objects[i].Decode(codec)` as an update of the entry in place. */
  function StateUpdater(registry: map<string, Kind>, shapes: map<string, ShapeType>): Updater<ObjectState> {
    (b: seq<Octet>, p: nat, e: ObjectState) => DecodedState(b, p, e, registry, shapes)
  }

  /** The list after the loop of `ReplicationPacket::Decode` has decoded every entry
      of `objs` in place, reading from `pos`: each entry is decoded over the one
      already there, and the first read that throws ends the loop with that entry
      partly assigned and the later ones untouched. */
  function DecodedInto(buf: seq<Octet>, pos: nat, objs: seq<ObjectState>,
                       registry: map<string, Kind>, shapes: map<string, ShapeType>): (r: seq<ObjectState>)
    ensures |r| == |objs|
  {
    ReadInto(buf, pos, objs, 0, StateReader(registry, shapes), StateUpdater(registry, shapes))
  }

  /** A state that reads is merged over its entry. */
  lemma StateUpdatesBy(registry: map<string, Kind>, shapes: map<string, ShapeType>)
    ensures UpdatesBy(StateReader(registry, shapes), StateUpdater(registry, shapes), Into)
  {
    forall b: seq<Octet>, p: nat, e: ObjectState | StateReader(registry, shapes)(b, p).result.Ok?
      ensures StateUpdater(registry, shapes)(b, p, e) == Into(e, StateReader(registry, shapes)(b, p).result.value)
    {
      assert StateReader(registry, shapes)(b, p) == ReadStateAt(b, p, registry, shapes);
    }
  }

  /** When every state reads, the loop leaves the states read, each merged over its
      entry. */
  lemma DecodedIntoOk(buf: seq<Octet>, pos: nat, objs: seq<ObjectState>,
                      registry: map<string, Kind>, shapes: map<string, ShapeType>)
    requires ReadListAt(buf, pos, |objs|, StateReader(registry, shapes)).result.Ok?
    ensures DecodedInto(buf, pos, objs, registry, shapes) ==
      Merged(objs, ReadListAt(buf, pos, |objs|, StateReader(registry, shapes)).result.value)
  {
    StateUpdatesBy(registry, shapes);
    ReadIntoOk(buf, pos, objs, 0, StateReader(registry, shapes), StateUpdater(registry, shapes), Into);
  }

  /** When a state fails to read, the loop leaves the m states read before it merged
      over their entries, the failing entry with the fields assigned before the
      failure (`DecodedState`), and the entries after it as they were. */
  lemma DecodedIntoFails(buf: seq<Octet>, pos: nat, objs: seq<ObjectState>,
                         registry: map<string, Kind>, shapes: map<string, ShapeType>)
    requires ReadListAt(buf, pos, |objs|, StateReader(registry, shapes)).result.Err?
    ensures exists m: nat ::
              m < |objs| &&
              StopsAt(buf, pos, objs, 0, m, StateReader(registry, shapes), StateUpdater(registry, shapes), Into)
  {
    StateUpdatesBy(registry, shapes);
    ReadIntoFails(buf, pos, objs, 0, StateReader(registry, shapes), StateUpdater(registry, shapes), Into);
  }

  /** What the receiver reads for a sent state: a Destroy state's instance is not
      sent. */
  function Sent(s: ObjectState): ObjectState {
    if s.kind == DESTROY then s.(instance := None) else s
  }

  function SentAll(objs: seq<ObjectState>): (r: seq<ObjectState>)
    ensures |r| == |objs|
  {
    seq(|objs|, i requires 0 <= i < |objs| => Sent(objs[i]))
  }

  /** A state whose encoding reads back: its type fits a byte, it carries an instance
      unless it is a Destroy, and that instance's tags and components read back. */
  predicate StateEncodable(s: ObjectState, names: map<Kind, string>, registry: map<string, Kind>,
                           shapeNames: map<ShapeType, string>, shapes: map<string, ShapeType>) {
    U8.Holds(s.kind) && (s.kind != DESTROY ==> s.instance.Some?) &&
    (CarriesInstance(s) ==> CopyEncodable(s.instance.value, names, registry, shapeNames, shapes))
  }

  /** An instance whose tags and components read back. */
  predicate CopyEncodable(c: InstanceCopy, names: map<Kind, string>, registry: map<string, Kind>,
                          shapeNames: map<ShapeType, string>, shapes: map<string, ShapeType>) {
    TagsEncodable(c.tags) && Consistent(c.components) &&
    forall k :: k in c.components ==> ComponentEncodable(c.components[k], names, registry, shapeNames, shapes)
  }

  /** A state reads back as sent. */
  lemma ReadStateOfCells(buf: seq<Octet>, pos: nat, s: ObjectState, names: map<Kind, string>,
                         registry: map<string, Kind>, shapeNames: map<ShapeType, string>,
                         shapes: map<string, ShapeType>)
    requires StateEncodable(s, names, registry, shapeNames, shapes)
    requires HoldsAt(buf, pos, StateCells(s, names, shapeNames))
    ensures ReadStateAt(buf, pos, registry, shapes) == Step(Ok(Sent(s)), pos + |StateCells(s, names, shapeNames)|)
  {
    var c1, c2 := UuidCells(s.uuid), IntCells(U8, s.kind);
    var c3 := StateCells(s, names, shapeNames)[|c1 + c2|..];
    assert StateCells(s, names, shapeNames) == c1 + c2 + c3;
    HoldsAtSplit(buf, pos, c1 + c2, c3);
    HoldsAtSplit(buf, pos, c1, c2);
    ReadUuidOfCells(buf, pos, s.uuid);
    ReadIntOfCells(buf, pos + 20, U8, s.kind);
    if s.kind != DESTROY {
      var c := s.instance.value;
      ReadInstanceOfCells(buf, pos + 21, c.uuid, c.tags, c.components, names, registry, shapeNames, shapes);
      OverlayEntries(c.components);
    }
  }

  /** The states' encodings are those of the states as the receiver gets them. */
  lemma {:induction false} FlattenSent(objs: seq<ObjectState>, w: ObjectState -> seq<Octet>,
                                       names: map<Kind, string>, shapeNames: map<ShapeType, string>)
    requires w == StateWriter(names, shapeNames)
    ensures Flatten(objs, w) == Flatten(SentAll(objs), w)
    decreases |objs|
  {
    if |objs| > 0 {
      var init := objs[..|objs| - 1];
      FlattenSent(init, w, names, shapeNames);
      assert SentAll(objs)[..|objs| - 1] == SentAll(init);
      assert w(objs[|objs| - 1]) == w(Sent(objs[|objs| - 1]));
    }
  }

  /** Decoding what `Encode` wrote gives back every state as sent, and the cursor ends
      after them. */
  lemma ReadReplicationOfCells(buf: seq<Octet>, pos: nat, objs: seq<ObjectState>, names: map<Kind, string>,
                               registry: map<string, Kind>, shapeNames: map<ShapeType, string>,
                               shapes: map<string, ShapeType>)
    requires |objs| < TWO32
    requires forall i :: 0 <= i < |objs| ==> StateEncodable(objs[i], names, registry, shapeNames, shapes)
    requires HoldsAt(buf, pos, ReplicationCells(objs, names, shapeNames))
    ensures ReadReplicationAt(buf, pos, registry, shapes) ==
      Step(Ok(SentAll(objs)), pos + |ReplicationCells(objs, names, shapeNames)|)
  {
    var w := StateWriter(names, shapeNames);
    var sent := SentAll(objs);
    HoldsAtSplit(buf, pos, IntCells(U32, |objs| % TWO32), Flatten(objs, w));
    ReadLengthOfCells(buf, pos, |objs|);
    FlattenSent(objs, w, names, shapeNames);
    forall i | 0 <= i < |sent|
      ensures ReadsBack(StateReader(registry, shapes), w, sent[i])
    {
      forall b: seq<Octet>, q: nat | HoldsAt(b, q, w(sent[i]))
        ensures StateReader(registry, shapes)(b, q) == Step(Ok(sent[i]), q + |w(sent[i])|)
      {
        ReadStateOfCells(b, q, objs[i], names, registry, shapeNames, shapes);
        assert w(sent[i]) == w(objs[i]);
        assert Sent(objs[i]) == sent[i];
      }
    }
    ReadListOfCells(buf, pos + 4, sent, StateReader(registry, shapes), w);
  }

  /** Decoded into a packet that holds no states yet, the list is exactly what was
      read: the default states `resize` adds carry no instance. */
  lemma DecodedIntoEmpty(read: seq<ObjectState>)
    requires forall i :: 0 <= i < |read| ==> AsRead(read[i])
    ensures Merged(Resized([], |read|), read) == read
  {
  }

  class ReplicationPacket {
    var objects: seq<ObjectState>

    constructor()
      ensures objects == [] && Valid()
    {
      objects := [];
    }

    /** Every state that is not a Destroy carries an instance: `AddObject` always
        copies one and `Decode` always decodes one. */
    ghost predicate Valid()
      reads this
    {
      forall i :: 0 <= i < |objects| ==> objects[i].kind != DESTROY ==> objects[i].instance.Some?
    }

    /** `AddObject(obj, type)`: a state with the object's UUID, the type and a copy of
        the object. */
    method AddObject(obj: Instance, kind: int)
      modifies this
      ensures objects == old(objects) + [ObjectState(obj.uuid, kind, Some(InstanceCopy(obj.uuid, obj.tags, obj.Data())))]
      ensures old(Valid()) ==> Valid()
    {
      var comps := map k | k in obj.components :: obj.components[k].data;
      assert comps == obj.Data();
      objects := objects + [ObjectState(obj.uuid, kind, Some(InstanceCopy(obj.uuid, obj.tags, comps)))];
    }

    method Encode(codec: PacketCodec, registry: ComponentRegistry, shapes: HitboxShapeRegistry)
      requires forall i :: 0 <= i < |objects| && CarriesInstance(objects[i]) ==>
        Consistent(objects[i].instance.value.components)
      modifies codec
      ensures codec.buffer == old(codec.buffer) + ReplicationCells(objects, registry.reverse, shapes.reverse)
      ensures codec.readPos == old(codec.readPos)
    {
      ghost var w := StateWriter(registry.reverse, shapes.reverse);
      codec.WriteInt(U32, |objects| % TWO32);
      ghost var start := codec.buffer;
      for i := 0 to |objects|
        invariant codec.buffer == start + Flatten(objects[..i], w)
        invariant codec.readPos == old(codec.readPos)
      {
        FlattenSnoc(objects, i, w);
        EncodeState(codec, objects[i], registry, shapes);
        AppendAssoc(start, Flatten(objects[..i], w), w(objects[i]));
      }
      assert objects[..|objects|] == objects;
      AppendAssoc(old(codec.buffer), IntCells(U32, |objects| % TWO32), Flatten(objects, w));
    }

    /** `Decode`: the count, then `resize(count)`, then each state decoded in place
        over the entry at its index. A failure reading the count leaves the list as
        it was; a later one leaves it resized with the states before the failing one
        decoded and the failing one partly assigned (`DecodedInto`). */
    method Decode(codec: PacketCodec, registry: ComponentRegistry, shapes: HitboxShapeRegistry)
      returns (r: Result<seq<ObjectState>>)
      modifies this, codec
      ensures codec.buffer == old(codec.buffer)
      ensures Step(r, codec.readPos) == ReadReplicationAt(codec.buffer, old(codec.readPos), registry.registry, shapes.registry)
      ensures r.Ok? ==> forall i :: 0 <= i < |r.value| ==> AsRead(r.value[i])
      ensures r.Ok? ==> objects == Merged(Resized(old(objects), |r.value|), r.value) && Valid()
      ensures var count := ReadIntAt(codec.buffer, old(codec.readPos), U32);
        count.result.Err? ==> objects == old(objects)
      ensures var count := ReadIntAt(codec.buffer, old(codec.readPos), U32);
        count.result.Ok? ==>
          objects == DecodedInto(codec.buffer, count.pos, Resized(old(objects), count.result.value),
                                 registry.registry, shapes.registry)
    {
      var count := codec.ReadInt(U32);
      if count.Err? {
        return Err(count.error);
      }
      ghost var start := codec.readPos;
      var resized := Resized(objects, count.value);
      var after;
      r, after := DecodeStates(codec, registry, shapes, resized);
      objects := after;
      if r.Ok? {
        DecodedIntoOk(codec.buffer, start, resized, registry.registry, shapes.registry);
      }
    }
  }

  /** `ObjectState::Encode`. */
  method EncodeState(codec: PacketCodec, s: ObjectState, registry: ComponentRegistry, shapes: HitboxShapeRegistry)
    requires CarriesInstance(s) ==> Consistent(s.instance.value.components)
    modifies codec
    ensures codec.buffer == old(codec.buffer) + StateCells(s, registry.reverse, shapes.reverse)
    ensures codec.readPos == old(codec.readPos)
  {
    ghost var b0 := codec.buffer;
    ghost var head := UuidCells(s.uuid) + IntCells(U8, s.kind);
    codec.WriteUuid(s.uuid);
    codec.WriteInt(U8, s.kind);
    AppendAssoc(b0, UuidCells(s.uuid), IntCells(U8, s.kind));
    assert codec.buffer == b0 + head;
    if CarriesInstance(s) {
      var c := s.instance.value;
      WriteInstance(codec, c.uuid, c.tags, c.components, registry, shapes);
      AppendAssoc(b0, head, InstanceCells(c.uuid, c.tags, c.components, registry.reverse, shapes.reverse));
    } else {
      assert head + [] == head;
    }
  }

  /** The loop of `ReplicationPacket::Decode`: entry i of `objs` is decoded over in
      place, in index order, until a read throws. */
  method DecodeStates(codec: PacketCodec, registry: ComponentRegistry, shapes: HitboxShapeRegistry,
                      objs: seq<ObjectState>)
    returns (r: Result<seq<ObjectState>>, after: seq<ObjectState>)
    modifies codec
    ensures codec.buffer == old(codec.buffer)
    ensures Step(r, codec.readPos) == ReadListAt(codec.buffer, old(codec.readPos), |objs|, StateReader(registry.registry, shapes.registry))
    ensures r.Ok? ==> forall i :: 0 <= i < |r.value| ==> AsRead(r.value[i])
    ensures after == DecodedInto(codec.buffer, old(codec.readPos), objs, registry.registry, shapes.registry)
  {
    ghost var reader := StateReader(registry.registry, shapes.registry);
    var out: seq<ObjectState> := [];
    after := objs;
    ghost var spec := ReadListAt(codec.buffer, codec.readPos, |objs|, reader);
    ghost var update := StateUpdater(registry.registry, shapes.registry);
    ghost var target := DecodedInto(codec.buffer, codec.readPos, objs, registry.registry, shapes.registry);
    PrependNothing(spec);
    for i := 0 to |objs|
      invariant codec.buffer == old(codec.buffer)
      invariant reader == StateReader(registry.registry, shapes.registry)
      invariant spec == Prepend(out, ReadListAt(codec.buffer, codec.readPos, |objs| - i, reader))
      invariant forall j :: 0 <= j < |out| ==> AsRead(out[j])
      invariant |after| == |objs|
      invariant update == StateUpdater(registry.registry, shapes.registry)
      invariant ReadInto(codec.buffer, codec.readPos, after, i, reader, update) == target
    {
      ghost var before := codec.readPos;
      var s, entry := DecodeState(codec, registry, shapes, after[i]);
      ReadListStep(codec.buffer, before, |objs| - i, out, reader);
      after := after[i := entry];
      if s.Err? {
        return Err(s.error), after;
      }
      out := out + [s.value];
    }
    assert out + [] == out;
    r := Ok(out);
  }

  /** `ObjectState::Decode` over the entry `before`: the result of the reads, and the
      entry as they leave it. The fresh `Instance` it decodes into starts with a
      random UUID, which a successful decode overwrites; the model starts it from
      the null UUID. */
  method DecodeState(codec: PacketCodec, registry: ComponentRegistry, shapes: HitboxShapeRegistry,
                     before: ObjectState)
    returns (r: Result<ObjectState>, after: ObjectState)
    modifies codec
    ensures codec.buffer == old(codec.buffer)
    ensures Step(r, codec.readPos) == ReadStateAt(codec.buffer, old(codec.readPos), registry.registry, shapes.registry)
    ensures after == DecodedState(codec.buffer, old(codec.readPos), before, registry.registry, shapes.registry)
  {
    after := before;
    var u := codec.ReadUuid();
    if u.Err? {
      return Err(u.error), after;
    }
    after := after.(uuid := u.value);
    var k := codec.ReadInt(U8);
    if k.Err? {
      return Err(k.error), after;
    }
    after := after.(kind := k.value);
    if k.value == DESTROY {
      return Ok(ObjectState(u.value, DESTROY, None)), after;
    }
    var inst := new Instance(Null);
    assert inst.Data() == map[];
    var d := inst.Decode(codec, registry, shapes);
    var comps := map c | c in inst.components :: inst.components[c].data;
    assert comps == inst.Data();
    after := after.(instance := Some(InstanceCopy(inst.uuid, inst.tags, comps)));
    if d.Err? {
      return Err(d.error), after;
    }
    r := Ok(ObjectState(u.value, k.value, Some(InstanceCopy(inst.uuid, inst.tags, comps))));
  }
}
