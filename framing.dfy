/** `PacketIO` (Common/Network/PacketIO.h): a whole packet on the wire is its u32 id
    followed by its fields, passed through the codec layers; decoding runs the layers
    backwards, reads the id, creates the registered packet and lets it read its
    fields. */
module Framing {
  import opened Arith
  import opened VarInt
  import opened Instances
  import opened Wrappers
  import opened Uuid
  import opened Octets
  import opened Codec
  import opened Shapes
  import opened Components
  import opened Packets
  import opened Protocol
  import opened Layers

  /** The fields a packet's `Encode` appends. */
  function BodyCells(v: PacketValue, names: map<Kind, string>, shapeNames: map<ShapeType, string>): seq<Octet> {
    match v
    case PlayerJoinValue(username, uuid) => PlayerJoinCells(username, uuid)
    case ChatMessageValue(message, sender) => ChatMessageCells(message, sender)
    case PlayerLeaveValue => []
    case HandshakeAckValue(success, message) => HandshakeAckCells(success, message)
    case HandshakeValue(version, token) => HandshakeCells(version, token)
    case ReplicationValue(objects) => ReplicationCells(objects, names, shapeNames)
  }

  /** What `EncodePacket` writes before the layers run: the id, then the fields. */
  function PacketCells(v: PacketValue, leaveId: nat, names: map<Kind, string>,
                       shapeNames: map<ShapeType, string>): seq<Octet> {
    IntCells(U32, IdOf(v.Class(), leaveId)) + BodyCells(v, names, shapeNames)
  }

  /** What a default-constructed packet of class `cls` reads with its `Decode` at `pos`
      of `buf`, as the fields it then holds. */
  function ReadBodyAt(cls: PacketClass, buf: seq<Octet>, pos: nat, registry: map<string, Kind>,
                      shapes: map<string, ShapeType>): (s: Step<PacketValue>)
    ensures s.result.Ok? ==> s.result.value.Class() == cls
  {
    match cls
    case PlayerJoin =>
      var s := ReadPlayerJoinAt(buf, pos);
      if s.result.Err? then Step(Err(s.result.error), s.pos)
      else Step(Ok(PlayerJoinValue(s.result.value.0, s.result.value.1)), s.pos)
    case ChatMessage =>
      var s := ReadChatMessageAt(buf, pos);
      if s.result.Err? then Step(Err(s.result.error), s.pos)
      else Step(Ok(ChatMessageValue(s.result.value.1, s.result.value.0)), s.pos)
    case PlayerLeave =>
      Step(Ok(PlayerLeaveValue), pos)
    case HandshakeAck =>
      var s := ReadHandshakeAckAt(buf, pos);
      if s.result.Err? then Step(Err(s.result.error), s.pos)
      else Step(Ok(HandshakeAckValue(s.result.value.0, s.result.value.1)), s.pos)
    case Handshake =>
      var s := ReadHandshakeAt(buf, pos);
      if s.result.Err? then Step(Err(s.result.error), s.pos)
      else Step(Ok(HandshakeValue(s.result.value.0, s.result.value.1)), s.pos)
    case Replication =>
      var s := ReadReplicationAt(buf, pos, registry, shapes);
      if s.result.Err? then Step(Err(s.result.error), s.pos)
      else Step(Ok(ReplicationValue(s.result.value)), s.pos)
  }

  /** `DecodePacket` after the layers: the id, the registry's class for it, and that
      packet's fields. Bytes after the packet are ignored. */
  function ReadPacketAt(buf: seq<Octet>, factories: map<nat, PacketClass>, registry: map<string, Kind>,
                        shapes: map<string, ShapeType>): (r: Result<PacketValue>)
    ensures r.Ok? ==> ReadIntAt(buf, 0, U32).result.Ok? && ReadIntAt(buf, 0, U32).result.value in factories
    ensures r.Ok? ==> r.value.Class() == factories[ReadIntAt(buf, 0, U32).result.value]
  {
    var id := ReadIntAt(buf, 0, U32);
    if id.result.Err? then Err(id.result.error)
    else if id.result.value !in factories then Err(UnknownId(id.result.value))
    else ReadBodyAt(factories[id.result.value], buf, id.pos, registry, shapes).result
  }

  /** The fields a packet's encoding reads back. */
  predicate Encodable(v: PacketValue, names: map<Kind, string>, registry: map<string, Kind>,
                      shapeNames: map<ShapeType, string>, shapes: map<string, ShapeType>) {
    match v
    case PlayerJoinValue(username, _) => IsByteString(username) && |username| < TWO32
    case ChatMessageValue(message, sender) =>
      IsByteString(message) && |message| < TWO32 && IsByteString(sender) && |sender| < TWO32
    case PlayerLeaveValue => true
    case HandshakeAckValue(_, message) => IsByteString(message) && |message| < TWO32
    case HandshakeValue(version, _) => U32.Holds(version)
    case ReplicationValue(objects) =>
      |objects| < TWO32 && forall i :: 0 <= i < |objects| ==> StateEncodable(objects[i], names, registry, shapeNames, shapes)
  }

  /** What the receiver's packet holds: a Destroy state's instance is not sent. */
  function Received(v: PacketValue): PacketValue {
    if v.ReplicationValue? then ReplicationValue(SentAll(v.objects)) else v
  }

  /** Reading a packet's fields back, at any position they are found. */
  lemma ReadBodyOfCells(buf: seq<Octet>, pos: nat, v: PacketValue, names: map<Kind, string>,
                        registry: map<string, Kind>, shapeNames: map<ShapeType, string>,
                        shapes: map<string, ShapeType>)
    requires Encodable(v, names, registry, shapeNames, shapes)
    requires HoldsAt(buf, pos, BodyCells(v, names, shapeNames))
    ensures ReadBodyAt(v.Class(), buf, pos, registry, shapes).result == Ok(Received(v))
  {
    match v
    case PlayerJoinValue(username, uuid) => ReadPlayerJoinOfCells(buf, pos, username, uuid);
    case ChatMessageValue(message, sender) => ReadChatMessageOfCells(buf, pos, message, sender);
    case PlayerLeaveValue =>
    case HandshakeAckValue(success, message) => ReadHandshakeAckOfCells(buf, pos, success, message);
    case HandshakeValue(version, token) => ReadHandshakeOfCells(buf, pos, version, token);
    case ReplicationValue(objects) =>
      ReadReplicationOfCells(buf, pos, objects, names, registry, shapeNames, shapes);
  }

  /** Decoding what `EncodePacket` produced gives the packet back (as the receiver
      gets it) when every layer's decoder undoes its encoder and the receiving
      registry maps the packet's id to its class. */
  lemma PacketRoundTrip(v: PacketValue, leaveId: nat, encoders: seq<Transform>, decoders: seq<Transform>,
                        factories: map<nat, PacketClass>, names: map<Kind, string>,
                        registry: map<string, Kind>, shapeNames: map<ShapeType, string>,
                        shapes: map<string, ShapeType>)
    requires Paired(encoders, decoders)
    requires leaveId < TWO32
    requires IdOf(v.Class(), leaveId) in factories && factories[IdOf(v.Class(), leaveId)] == v.Class()
    requires Encodable(v, names, registry, shapeNames, shapes)
    ensures ReadPacketAt(ApplyAll(decoders, ApplyAll(encoders, PacketCells(v, leaveId, names, shapeNames))),
                         factories, registry, shapes) == Ok(Received(v))
  {
    var cells := PacketCells(v, leaveId, names, shapeNames);
    var id := IdOf(v.Class(), leaveId);
    DecodeInvertsEncode(encoders, decoders, cells);
    HoldsAtSplit(cells, 0, IntCells(U32, id), BodyCells(v, names, shapeNames));
    ReadIntOfCells(cells, 0, U32, id);
    ReadBodyOfCells(cells, 4, v, names, registry, shapeNames, shapes);
  }

  /** With the protocol's own table on both ends and a leave id of its own, every
      packet comes back. */
  lemma ProtocolRoundTrip(v: PacketValue, leaveId: nat, encoders: seq<Transform>, decoders: seq<Transform>,
                          names: map<Kind, string>, registry: map<string, Kind>,
                          shapeNames: map<ShapeType, string>, shapes: map<string, ShapeType>)
    requires Paired(encoders, decoders)
    requires leaveId < TWO32 && DistinctLeaveId(leaveId)
    requires Encodable(v, names, registry, shapeNames, shapes)
    ensures ReadPacketAt(ApplyAll(decoders, ApplyAll(encoders, PacketCells(v, leaveId, names, shapeNames))),
                         ProtocolFactories(leaveId), registry, shapes) == Ok(Received(v))
  {
    ProtocolTableInverse(leaveId);
    PacketRoundTrip(v, leaveId, encoders, decoders, ProtocolFactories(leaveId), names, registry, shapeNames, shapes);
  }

  /** An `InputPacket` (id 4) is refused by the protocol table, whose registration of
      it is commented out, unless the leave packet uses id 4. */
  lemma InputPacketUnknown(buf: seq<Octet>, leaveId: nat, registry: map<string, Kind>,
                           shapes: map<string, ShapeType>)
    requires leaveId != 4 && HoldsAt(buf, 0, IntCells(U32, 4))
    ensures ReadPacketAt(buf, ProtocolFactories(leaveId), registry, shapes) == Err("Unknown packet ID: 4")
  {
    ReadIntOfCells(buf, 0, U32, 4);
    ProtocolTable(leaveId);
  }

  /** What decoding yields, as values. */
  function Decoded(r: Result<Packet>): Result<PacketValue>
    reads if r.Ok? then r.value.Objects() else {}
  {
    if r.Ok? then Ok(Value(r.value)) else Err(r.error)
  }

  class PacketIO {
    const registry: PacketRegistry
    const builder: CodecBuilder

    constructor(reg: PacketRegistry, builder: CodecBuilder)
      ensures registry == reg && this.builder == builder
    {
      registry := reg;
      this.builder := builder;
    }

    /** `EncodePacket`: the id and the fields, through every encoder. */
    method EncodePacket(packet: Packet, leaveId: nat, components: ComponentRegistry, shapeRegistry: HitboxShapeRegistry)
      returns (data: seq<Octet>)
      requires Writable(packet)
      ensures data == ApplyAll(builder.encoders, PacketCells(Value(packet), leaveId, components.reverse, shapeRegistry.reverse))
    {
      var codec := WriteFrame(packet, leaveId, components, shapeRegistry);
      data := builder.Encode(codec);
    }

    /** `DecodePacket`: through every decoder, then the id, the registered packet and
        its fields; an exception from any step is the error. */
    method DecodePacket(data: seq<Octet>, components: ComponentRegistry, shapeRegistry: HitboxShapeRegistry)
      returns (r: Result<Packet>)
      ensures r.Ok? ==> fresh(r.value.Objects())
      ensures Decoded(r) == ReadPacketAt(ApplyAll(builder.decoders, data), registry.factories,
                                         components.registry, shapeRegistry.registry)
    {
      var codec := builder.Decode(data);
      var id := codec.ReadInt(U32);
      if id.Err? {
        return Err(id.error);
      }
      var pkt := registry.Create(id.value);
      if pkt.Err? {
        return Err(pkt.error);
      }
      var p := pkt.value;
      var body := DecodeBody(codec, p, components, shapeRegistry);
      if body.Err? {
        return Err(body.error);
      }
      r := Ok(p);
    }
  }

  /** Every instance a replication packet carries has its components stored under
      their own kinds, which `Encode` relies on to name them. */
  predicate Writable(packet: Packet)
    reads packet.Objects()
  {
    packet.ReplicationRef? ==>
      forall i :: 0 <= i < |packet.replication.objects| && CarriesInstance(packet.replication.objects[i]) ==>
        Consistent(packet.replication.objects[i].instance.value.components)
  }

  /** `EncodePacket` up to the layers: a new codec holding the id and the fields. */
  method WriteFrame(packet: Packet, leaveId: nat, components: ComponentRegistry, shapeRegistry: HitboxShapeRegistry)
      returns (codec: PacketCodec)
    requires Writable(packet)
    ensures fresh(codec)
    ensures codec.buffer == PacketCells(Value(packet), leaveId, components.reverse, shapeRegistry.reverse)
  {
    codec := new PacketCodec();
    codec.WriteInt(U32, IdOf(packet.Class(), leaveId));
    EncodeBody(codec, packet, components, shapeRegistry);
  }

  /** The packet's `Encode`. */
  method EncodeBody(codec: PacketCodec, packet: Packet, components: ComponentRegistry, shapeRegistry: HitboxShapeRegistry)
    requires Writable(packet)
    modifies codec
    ensures codec.buffer == old(codec.buffer) + BodyCells(Value(packet), components.reverse, shapeRegistry.reverse)
    ensures codec.readPos == old(codec.readPos)
  {
    match packet
    case PlayerJoinRef(j) => j.Encode(codec);
    case ChatMessageRef(c) => c.Encode(codec);
    case PlayerLeaveRef =>
      assert old(codec.buffer) + [] == old(codec.buffer);
    case HandshakeAckRef(a) => a.Encode(codec);
    case HandshakeRef(h) => h.Encode(codec);
    case ReplicationRef(p) => p.Encode(codec, components, shapeRegistry);
  }

  /** The packet's `Decode`, into a default-constructed packet: the fields it reads
      are the ones it holds afterwards. */
  method DecodeBody(codec: PacketCodec, packet: Packet, components: ComponentRegistry, shapeRegistry: HitboxShapeRegistry)
      returns (r: Result<PacketValue>)
    requires codec !in packet.Objects()
    requires Value(packet) == DefaultValue(packet.Class())
    modifies codec, packet.Objects()
    ensures codec.buffer == old(codec.buffer)
    ensures r == ReadBodyAt(packet.Class(), codec.buffer, old(codec.readPos), components.registry, shapeRegistry.registry).result
    ensures r.Ok? ==> Value(packet) == r.value
  {
    match packet
    case PlayerJoinRef(j) =>
      var d := j.Decode(codec);
      r := if d.Ok? then Ok(PlayerJoinValue(d.value.0, d.value.1)) else Err(d.error);
    case ChatMessageRef(c) =>
      var d := c.Decode(codec);
      r := if d.Ok? then Ok(ChatMessageValue(d.value.1, d.value.0)) else Err(d.error);
    case PlayerLeaveRef =>
      r := Ok(PlayerLeaveValue);
    case HandshakeAckRef(a) =>
      var d := a.Decode(codec);
      r := if d.Ok? then Ok(HandshakeAckValue(d.value.0, d.value.1)) else Err(d.error);
    case HandshakeRef(h) =>
      var d := h.Decode(codec);
      r := if d.Ok? then Ok(HandshakeValue(d.value.0, d.value.1)) else Err(d.error);
    case ReplicationRef(p) =>
      var d := p.Decode(codec, components, shapeRegistry);
      if d.Ok? {
        DecodedIntoEmpty(d.value);
      }
      r := if d.Ok? then Ok(ReplicationValue(d.value)) else Err(d.error);
  }
}
