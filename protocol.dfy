/** The packet id table and the dispatcher (Common/Network/PacketRegistry.h,
    ProtocolRegistry.h, PacketDispatcher.h).

    A packet's dynamic type (`typeid`) is a `PacketClass`; a packet object is a
    `Packet`, which holds the concrete packet object of that class, and what its fields
    hold is the value `Value(p)`. A registered factory is the class it constructs.
    PlayerLeavePacket.h is not part of this model: its packet carries no fields here
    and its id is a parameter `leaveId`. */
module Protocol {
  import opened Arith
  import opened Wrappers
  import opened Uuid
  import opened Packets
  import opened Signals

  datatype PacketClass = PlayerJoin | ChatMessage | PlayerLeave | HandshakeAck | Handshake | Replication

  /** `GetPacketID()`: each class's `PACKET_ID`. */
  function IdOf(cls: PacketClass, leaveId: nat): nat {
    match cls
    case PlayerJoin => PLAYER_JOIN_ID
    case ChatMessage => CHAT_MESSAGE_ID
    case PlayerLeave => leaveId
    case HandshakeAck => HANDSHAKE_ACK_ID
    case Handshake => HANDSHAKE_ID
    case Replication => REPLICATION_ID
  }

  /** A packet object, as the concrete packet it is. */
  datatype Packet =
    | PlayerJoinRef(join: PlayerJoinPacket)
    | ChatMessageRef(chat: ChatMessagePacket)
    | PlayerLeaveRef
    | HandshakeAckRef(ack: HandshakeAckPacket)
    | HandshakeRef(handshake: HandshakePacket)
    | ReplicationRef(replication: ReplicationPacket)
  {
    /** `typeid(packet)`. */
    function Class(): PacketClass {
      match this
      case PlayerJoinRef(_) => PlayerJoin
      case ChatMessageRef(_) => ChatMessage
      case PlayerLeaveRef => PlayerLeave
      case HandshakeAckRef(_) => HandshakeAck
      case HandshakeRef(_) => Handshake
      case ReplicationRef(_) => Replication
    }

    function Objects(): set<object> {
      match this
      case PlayerJoinRef(j) => {j}
      case ChatMessageRef(c) => {c}
      case PlayerLeaveRef => {}
      case HandshakeAckRef(a) => {a}
      case HandshakeRef(h) => {h}
      case ReplicationRef(r) => {r}
    }
  }

  /** The fields a packet holds. */
  datatype PacketValue =
    | PlayerJoinValue(username: string, uuid: UUID)
    | ChatMessageValue(message: string, sender: string)
    | PlayerLeaveValue
    | HandshakeAckValue(success: bool, ackMessage: string)
    | HandshakeValue(clientVersion: int, authToken: UUID)
    | ReplicationValue(objects: seq<ObjectState>)
  {
    function Class(): PacketClass {
      match this
      case PlayerJoinValue(_, _) => PlayerJoin
      case ChatMessageValue(_, _) => ChatMessage
      case PlayerLeaveValue => PlayerLeave
      case HandshakeAckValue(_, _) => HandshakeAck
      case HandshakeValue(_, _) => Handshake
      case ReplicationValue(_) => Replication
    }
  }

  function Value(p: Packet): (v: PacketValue)
    reads p.Objects()
    ensures v.Class() == p.Class()
  {
    match p
    case PlayerJoinRef(j) => PlayerJoinValue(j.username, j.uuid)
    case ChatMessageRef(c) => ChatMessageValue(c.message, c.sender)
    case PlayerLeaveRef => PlayerLeaveValue
    case HandshakeAckRef(a) => HandshakeAckValue(a.success, a.message)
    case HandshakeRef(h) => HandshakeValue(h.clientVersion, h.authToken)
    case ReplicationRef(r) => ReplicationValue(r.objects)
  }

  /** What a default-constructed packet of each class holds. */
  function DefaultValue(cls: PacketClass): (v: PacketValue)
    ensures v.Class() == cls
  {
    match cls
    case PlayerJoin => PlayerJoinValue("", Null)
    case ChatMessage => ChatMessageValue("", "")
    case PlayerLeave => PlayerLeaveValue
    case HandshakeAck => HandshakeAckValue(false, "")
    case Handshake => HandshakeValue(0, Null)
    case Replication => ReplicationValue([])
  }

  /** The factory `Register<T>` stores: `std::make_unique<T>()`. */
  method NewPacket(cls: PacketClass) returns (p: Packet)
    ensures p.Class() == cls && fresh(p.Objects())
    ensures Value(p) == DefaultValue(cls)
  {
    match cls
    case PlayerJoin =>
      var j := new PlayerJoinPacket();
      p := PlayerJoinRef(j);
    case ChatMessage =>
      var c := new ChatMessagePacket();
      p := ChatMessageRef(c);
    case PlayerLeave =>
      p := PlayerLeaveRef;
    case HandshakeAck =>
      var a := new HandshakeAckPacket();
      p := HandshakeAckRef(a);
    case Handshake =>
      var h := new HandshakePacket();
      p := HandshakeRef(h);
    case Replication =>
      var r := new ReplicationPacket();
      p := ReplicationRef(r);
  }

  // ---------------------------------------------------------------------------
  // std::to_string of a uint32_t
  // ---------------------------------------------------------------------------

  function DigitChar(d: nat): (c: char)
    requires d < 10
    ensures '0' <= c <= '9'
  {
    (48 + d) as char
  }

  /** The decimal digits of n, without leading zeros. */
  function Decimal(n: nat): (s: string)
    ensures 1 <= |s|
    ensures forall i :: 0 <= i < |s| ==> '0' <= s[i] <= '9'
    ensures 1 < |s| ==> s[0] != '0'
    decreases n
  {
    if n < 10 then [DigitChar(n)] else Decimal(n / 10) + [DigitChar(n % 10)]
  }

  /** The number a string of decimal digits spells. */
  function DecimalValue(s: string): nat
    requires forall i :: 0 <= i < |s| ==> '0' <= s[i] <= '9'
    decreases |s|
  {
    if |s| == 0 then 0 else DecimalValue(s[..|s| - 1]) * 10 + (s[|s| - 1] as int - 48)
  }

  /** Reading the digits back gives the number: distinct ids have distinct messages. */
  lemma {:induction false} DecimalRoundTrip(n: nat)
    ensures DecimalValue(Decimal(n)) == n
    decreases n
  {
    if n >= 10 {
      DecimalRoundTrip(n / 10);
      var s := Decimal(n);
      assert s[..|s| - 1] == Decimal(n / 10);
    }
  }

  function UnknownId(id: nat): string {
    "Unknown packet ID: " + Decimal(id)
  }

  const TYPE_NOT_REGISTERED: string := "Packet type not registered."

  // ---------------------------------------------------------------------------
  // PacketRegistry
  // ---------------------------------------------------------------------------

  class PacketRegistry {
    /** Each id's factory, by the class it constructs. */
    var factories: map<nat, PacketClass>
    var typeToId: map<PacketClass, nat>

    constructor()
      ensures factories == map[] && typeToId == map[]
    {
      factories := map[];
      typeToId := map[];
    }

    /** `Create(id)`'s lookup: the class, or the exception's message. */
    function Lookup(id: nat): (r: Result<PacketClass>)
      reads this
      ensures r.Ok? <==> id in factories
      ensures r.Err? ==> r.error == UnknownId(id)
    {
      if id in factories then Ok(factories[id]) else Err(UnknownId(id))
    }

    /** `GetID<T>()`. */
    function GetID(cls: PacketClass): (r: Result<nat>)
      reads this
      ensures r.Ok? <==> cls in typeToId
      ensures r.Err? ==> r.error == TYPE_NOT_REGISTERED
    {
      if cls in typeToId then Ok(typeToId[cls]) else Err(TYPE_NOT_REGISTERED)
    }

    /** `Register<T>(id)`: the id now creates T and T's id is id; a second
        registration of the id or of T overwrites the first, and nothing else
        changes. */
    method Register(cls: PacketClass, id: nat)
      requires id < TWO32
      modifies this
      ensures factories == old(factories)[id := cls]
      ensures typeToId == old(typeToId)[cls := id]
      ensures Lookup(id) == Ok(cls) && GetID(cls) == Ok(id)
      ensures forall other :: other != id ==> Lookup(other) == old(Lookup(other))
      ensures forall c :: c != cls ==> GetID(c) == old(GetID(c))
    {
      factories := factories[id := cls];
      typeToId := typeToId[cls := id];
    }

    /** `Create(id)`: a default-constructed packet of the registered class, or an
        exception for an unknown id. */
    method Create(id: nat) returns (r: Result<Packet>)
      ensures r.Ok? <==> id in factories
      ensures r.Err? ==> r.error == UnknownId(id)
      ensures r.Ok? ==> r.value.Class() == factories[id] && fresh(r.value.Objects())
      ensures r.Ok? ==> Value(r.value) == DefaultValue(factories[id])
    {
      if id !in factories {
        return Err(UnknownId(id));
      }
      var p := NewPacket(factories[id]);
      r := Ok(p);
    }
  }

  // ---------------------------------------------------------------------------
  // ProtocolRegistry
  // ---------------------------------------------------------------------------

  /** The ids `ProtocolRegistry::Create` registers, in its order: a later
      registration of the same id wins. */
  function ProtocolFactories(leaveId: nat): map<nat, PacketClass> {
    map[PLAYER_JOIN_ID := PlayerJoin][CHAT_MESSAGE_ID := ChatMessage][leaveId := PlayerLeave]
      [HANDSHAKE_ACK_ID := HandshakeAck][HANDSHAKE_ID := Handshake][REPLICATION_ID := Replication]
  }

  function ProtocolIds(leaveId: nat): map<PacketClass, nat> {
    map[PlayerJoin := PLAYER_JOIN_ID, ChatMessage := CHAT_MESSAGE_ID, PlayerLeave := leaveId,
        HandshakeAck := HANDSHAKE_ACK_ID, Handshake := HANDSHAKE_ID, Replication := REPLICATION_ID]
  }

  /** `ProtocolRegistry::Create`: a fresh registry holding the six packet classes. */
  method CreateProtocolRegistry(leaveId: nat) returns (reg: PacketRegistry)
    requires leaveId < TWO32
    ensures fresh(reg)
    ensures reg.factories == ProtocolFactories(leaveId)
    ensures reg.typeToId == ProtocolIds(leaveId)
  {
    reg := new PacketRegistry();
    reg.Register(PlayerJoin, PLAYER_JOIN_ID);
    reg.Register(ChatMessage, CHAT_MESSAGE_ID);
    reg.Register(PlayerLeave, leaveId);
    reg.Register(HandshakeAck, HANDSHAKE_ACK_ID);
    reg.Register(Handshake, HANDSHAKE_ID);
    reg.Register(Replication, REPLICATION_ID);
  }

  /** Ids 5, 6 and 42 always create their packets; ids 1 and 2 do unless the leave
      packet's id takes them; id 4 (`InputPacket`, whose registration is commented
      out) is unknown unless it is the leave packet's id. Every class has an id. */
  lemma ProtocolTable(leaveId: nat)
    ensures var f := ProtocolFactories(leaveId);
      && f[HANDSHAKE_ACK_ID] == HandshakeAck && f[HANDSHAKE_ID] == Handshake
      && f[REPLICATION_ID] == Replication
      && (leaveId != PLAYER_JOIN_ID ==> f[PLAYER_JOIN_ID] == PlayerJoin)
      && (leaveId != CHAT_MESSAGE_ID ==> f[CHAT_MESSAGE_ID] == ChatMessage)
      && (4 in f <==> leaveId == 4)
    ensures forall cls :: cls in ProtocolIds(leaveId) && ProtocolIds(leaveId)[cls] == IdOf(cls, leaveId)
  {
    var ids := ProtocolIds(leaveId);
    forall cls
      ensures cls in ids && ids[cls] == IdOf(cls, leaveId)
    {
      match cls
      case PlayerJoin =>
      case ChatMessage =>
      case PlayerLeave =>
      case HandshakeAck =>
      case Handshake =>
      case Replication =>
    }
  }

  /** The leave packet's id is distinct from the five fixed ones. */
  predicate DistinctLeaveId(leaveId: nat) {
    leaveId !in {PLAYER_JOIN_ID, CHAT_MESSAGE_ID, HANDSHAKE_ACK_ID, HANDSHAKE_ID, REPLICATION_ID}
  }

  /** With a distinct leave id the table is one-to-one: each class's id creates that
      class, and each registered id is the id of the class it creates. */
  lemma ProtocolTableInverse(leaveId: nat)
    requires DistinctLeaveId(leaveId)
    ensures forall cls ::
      && IdOf(cls, leaveId) in ProtocolFactories(leaveId)
      && ProtocolFactories(leaveId)[IdOf(cls, leaveId)] == cls
    ensures forall id :: id in ProtocolFactories(leaveId) ==> IdOf(ProtocolFactories(leaveId)[id], leaveId) == id
  {
    var f := ProtocolFactories(leaveId);
    forall cls
      ensures IdOf(cls, leaveId) in f && f[IdOf(cls, leaveId)] == cls
    {
      match cls
      case PlayerJoin =>
      case ChatMessage =>
      case PlayerLeave =>
      case HandshakeAck =>
      case Handshake =>
      case Replication =>
    }
    assert f.Keys == {PLAYER_JOIN_ID, CHAT_MESSAGE_ID, leaveId, HANDSHAKE_ACK_ID, HANDSHAKE_ID, REPLICATION_ID};
  }

  // ---------------------------------------------------------------------------
  // PacketDispatcher
  // ---------------------------------------------------------------------------

  /** What a packet signal fires with: the packet and the sending client's id. */
  datatype Delivery = Delivery(packet: Packet, client: UUID)

  const SIGNAL_NOT_REGISTERED: string := "Signal for this packet type is not registered."

  /** The handler stored beside each signal fires that signal, so the handlers are
      the signals themselves here. */
  class PacketDispatcher {
    var signals: map<PacketClass, Signal<Delivery>>

    /** Each class has a signal of its own: `Register` always makes a new one. */
    ghost predicate Valid()
      reads this
    {
      forall a, b :: a in signals && b in signals && a != b ==> signals[a] != signals[b]
    }

    constructor()
      ensures signals == map[] && Valid()
    {
      signals := map[];
    }

    /** `Register<T>()`: a new signal, with no listeners, replaces any earlier one. */
    method Register(cls: PacketClass)
      modifies this
      ensures cls in signals && fresh(signals[cls])
      ensures signals == old(signals)[cls := signals[cls]]
      ensures signals[cls].listeners == [] && signals[cls].nextId == 0 && signals[cls].log == []
      ensures signals[cls].Valid()
      ensures old(Valid()) ==> Valid()
    {
      var s := new Signal<Delivery>();
      signals := signals[cls := s];
    }

    /** `GetSignal<T>()`. */
    function GetSignal(cls: PacketClass): (r: Result<Signal<Delivery>>)
      reads this
      ensures r.Ok? <==> cls in signals
      ensures r.Err? ==> r.error == SIGNAL_NOT_REGISTERED
    {
      if cls in signals then Ok(signals[cls]) else Err(SIGNAL_NOT_REGISTERED)
    }

    /** `Dispatch(packet, clientId)`: the signal of the packet's class fires with the
        packet and the client id, once; no other signal changes, and for an
        unregistered class nothing happens. */
    method Dispatch(packet: Packet, clientId: UUID)
      requires Valid()
      modifies signals.Values
      ensures var cls := packet.Class();
        cls in signals ==>
          && signals[cls].log == old(signals[cls].log) + Calls(old(signals[cls].listeners), Delivery(packet, clientId))
          && signals[cls].listeners == Persistent(old(signals[cls].listeners))
      ensures forall c :: c in signals && c != packet.Class() ==> unchanged(signals[c])
    {
      var cls := packet.Class();
      if cls in signals {
        signals[cls].Fire(Delivery(packet, clientId));
      }
    }
  }

  /** Registering a class again detaches whoever listened to its first signal: a
      packet dispatched afterwards reaches only the new signal, which has no
      listeners, and the first signal records no call. */
  method ReRegisterDetaches(d: PacketDispatcher, packet: Packet, clientId: UUID, slot: nat)
      returns (first: Signal<Delivery>)
    requires d.Valid()
    modifies d, d.signals.Values
    ensures first.listeners == [Listener(0, slot, false)] && first.log == []
    ensures packet.Class() in d.signals && d.signals[packet.Class()] != first
    ensures d.signals[packet.Class()].log == []
  {
    var cls := packet.Class();
    d.Register(cls);
    first := d.signals[cls];
    var c := first.ConnectPersistent(slot);
    d.Register(cls);
    d.Dispatch(packet, clientId);
  }
}
