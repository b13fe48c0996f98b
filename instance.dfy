/** `Instance` (Core/Instance.h, Core/Instance.inl, CoreImpl/Instance.cpp): an object with
    tags, a UUID, at most one component per component class, a set of locked classes,
    a dirty flag and a `Destroyed` signal.

    The C++ map from `type_index` to component is a map from `Kind` to `Component`.
    Its iteration order is unspecified; where the order shows (the bytes `Encode`
    writes) the model visits the classes in the fixed order `AllKinds`. */
module Instances {
  import opened Arith
  import opened Wrappers
  import opened VarInt
  import opened Octets
  import opened Uuid
  import opened Codec
  import opened Seqs
  import opened Shapes
  import opened Components
  import opened Signals

  const ErrLockedAdd := "[Instance] Component of this type is locked and cannot be added."
  const ErrLockedRemove := "[Instance] Component of this type is locked and cannot be removed."

  /** Every component class once, in the order the model visits them. */
  const AllKinds: seq<Kind> := [TransformKind, HitboxKind, PhysicalKind, HealthKind, AttributesKind]

  /** Every class is in `AllKinds`, once. */
  lemma KindListed(k: Kind)
    ensures k in AllKinds && Distinct(AllKinds)
  {
    match k
    case TransformKind => assert AllKinds[0] == k;
    case HitboxKind => assert AllKinds[1] == k;
    case PhysicalKind => assert AllKinds[2] == k;
    case HealthKind => assert AllKinds[3] == k;
    case AttributesKind => assert AllKinds[4] == k;
  }

  function InMap<V>(m: map<Kind, V>): Kind -> bool {
    k => k in m
  }

  /** The classes present in a component map, in visiting order. */
  function Present<V>(m: map<Kind, V>): seq<Kind> {
    Filter(AllKinds, InMap(m))
  }

  /** `Present` lists each key of the map exactly once. */
  lemma PresentIsKeys<V>(m: map<Kind, V>)
    ensures forall k :: k in Present(m) <==> k in m
    ensures Distinct(Present(m)) && |Present(m)| == |m|
  {
    forall k
      ensures k in Present(m) <==> k in m
    {
      FilterMember(AllKinds, InMap(m), k);
      KindListed(k);
    }
    KindListed(TransformKind);
    FilterDistinct(AllKinds, InMap(m));
    DistinctCard(Present(m));
    assert (set k | k in Present(m)) == m.Keys;
  }

  // ---------------------------------------------------------------------------
  // Wire form
  // ---------------------------------------------------------------------------

  /** A component entry as the reader sees it: the fields of a component of a known
      class, or None for a name the registry does not know. */
  type Entry = Option<Payload>

  /** The entries `Encode` writes for the classes ks of a component map. */
  function Entries(m: map<Kind, Payload>, ks: seq<Kind>): (r: seq<Entry>)
    ensures |r| == |ks|
  {
    seq(|ks|, i requires 0 <= i < |ks| => if ks[i] in m then Some(m[ks[i]]) else None)
  }

  lemma EntriesSnoc(m: map<Kind, Payload>, ks: seq<Kind>, k: Kind)
    ensures Entries(m, ks + [k]) == Entries(m, ks) + [if k in m then Some(m[k]) else None]
  {
  }

  /** One entry as `Encode` writes it: the registered name of the class, then the
      component's own encoding. */
  function EntryCells(e: Entry, names: map<Kind, string>, shapeNames: map<ShapeType, string>): seq<Octet> {
    match e
    case None => []
    case Some(p) => StringCells(ComponentNameIn(names, p.KindOf())) + PayloadCells(p, shapeNames)
  }

  function EntryWriter(names: map<Kind, string>, shapeNames: map<ShapeType, string>): Entry -> seq<Octet> {
    e => EntryCells(e, names, shapeNames)
  }

  /** What `Instance::Encode` writes: the UUID, the tags, the u32 component count,
      then each component. */
  function InstanceCells(u: UUID, tags: seq<string>, m: map<Kind, Payload>, names: map<Kind, string>,
                         shapeNames: map<ShapeType, string>): seq<Octet> {
    UuidCells(u) + StringArrayCells(tags) + ComponentsCells(m, names, shapeNames)
  }

  /** The component count and the components. */
  function ComponentsCells(m: map<Kind, Payload>, names: map<Kind, string>,
                           shapeNames: map<ShapeType, string>): seq<Octet> {
    IntCells(U32, |m| % TWO32) + Flatten(Entries(m, Present(m)), EntryWriter(names, shapeNames))
  }

  /** One pass of the loop of `Instance::Decode`: a name, and for a registered name
      the fields of a default-constructed component of that class. An unknown name is
      skipped and its component's bytes are not. */
  function ReadEntryAt(buf: seq<Octet>, pos: nat, registry: map<string, Kind>,
                       shapes: map<string, ShapeType>): (s: Step<Entry>)
    ensures s.result.Ok? && s.result.value.Some? ==>
      ReadStringAt(buf, pos).result.Ok? && ReadStringAt(buf, pos).result.value in registry &&
      s.result.value.value.KindOf() == registry[ReadStringAt(buf, pos).result.value]
  {
    var name := ReadStringAt(buf, pos);
    if name.result.Err? then Step(Err(name.result.error), name.pos)
    else if name.result.value !in registry then Step(Ok(None), name.pos)
    else
      var p := ReadPayloadAt(buf, name.pos, registry[name.result.value], shapes);
      if p.result.Err? then Step(Err(p.result.error), p.pos)
      else Step(Ok(Some(p.result.value)), p.pos)
  }

  function EntryReader(registry: map<string, Kind>, shapes: map<string, ShapeType>): Reader<Entry> {
    (b: seq<Octet>, p: nat) => ReadEntryAt(b, p, registry, shapes)
  }

  /** What `Instance::Decode` reads. */
  datatype Snapshot = Snapshot(uuid: UUID, tags: seq<string>, entries: seq<Entry>)

  function ReadInstanceAt(buf: seq<Octet>, pos: nat, registry: map<string, Kind>,
                          shapes: map<string, ShapeType>): Step<Snapshot> {
    var u := ReadUuidAt(buf, pos);
    if u.result.Err? then Step(Err(u.result.error), u.pos)
    else
      var tags := ReadStringArrayAt(buf, u.pos);
      if tags.result.Err? then Step(Err(tags.result.error), tags.pos)
      else
        var entries := ReadComponentsAt(buf, tags.pos, registry, shapes);
        if entries.result.Err? then Step(Err(entries.result.error), entries.pos)
        else Step(Ok(Snapshot(u.result.value, tags.result.value, entries.result.value)), entries.pos)
  }

  /** The u32 component count, then that many entries. */
  function ReadComponentsAt(buf: seq<Octet>, pos: nat, registry: map<string, Kind>,
                            shapes: map<string, ShapeType>): Step<seq<Entry>> {
    var count := ReadIntAt(buf, pos, U32);
    if count.result.Err? then Step(Err(count.result.error), count.pos)
    else ReadListAt(buf, count.pos, count.result.value, EntryReader(registry, shapes))
  }

  /** Each component's fields are of the class it is filed under. */
  predicate Consistent(m: map<Kind, Payload>) {
    forall k :: k in m ==> m[k].KindOf() == k
  }

  /** The component map after the decoded entries are stored in turn
      (`components[type] = comp`): later entries replace earlier ones and the
      components that were there before; skipped entries change nothing. */
  function Overlay(m: map<Kind, Payload>, es: seq<Entry>): (r: map<Kind, Payload>)
    ensures Consistent(m) ==> Consistent(r)
    ensures m.Keys <= r.Keys
    decreases |es|
  {
    if |es| == 0 then m
    else
      var before := Overlay(m, es[..|es| - 1]);
      var last := es[|es| - 1];
      if last.Some? then before[last.value.KindOf() := last.value] else before
  }

  lemma OverlaySnoc(m: map<Kind, Payload>, es: seq<Entry>, e: Entry)
    ensures Overlay(m, es + [e]) == if e.Some? then Overlay(m, es)[e.value.KindOf() := e.value] else Overlay(m, es)
  {
    assert (es + [e])[..|es|] == es;
  }

  /** The tags `WriteStringArray` and `ReadStringArray` carry unchanged. */
  predicate TagsEncodable(tags: seq<string>) {
    AllByteStrings(tags) && (forall i :: 0 <= i < |tags| ==> |tags[i]| < TWO32) && |tags| < TWO64
  }

  /** A component the reader gets back: its class's name is a byte string that the
      reader's registry maps back to the class, and its fields are encodable. */
  predicate ComponentEncodable(p: Payload, names: map<Kind, string>, registry: map<string, Kind>,
                               shapeNames: map<ShapeType, string>, shapes: map<string, ShapeType>) {
    var n := ComponentNameIn(names, p.KindOf());
    IsByteString(n) && |n| < TWO32 && n in registry && registry[n] == p.KindOf() &&
    PayloadEncodable(p, shapeNames, shapes)
  }

  lemma EntryReadsBack(p: Payload, names: map<Kind, string>, registry: map<string, Kind>,
                       shapeNames: map<ShapeType, string>, shapes: map<string, ShapeType>)
    requires ComponentEncodable(p, names, registry, shapeNames, shapes)
    ensures ReadsBack(EntryReader(registry, shapes), EntryWriter(names, shapeNames), Some(p))
  {
    forall b: seq<Octet>, q: nat | HoldsAt(b, q, EntryWriter(names, shapeNames)(Some(p)))
      ensures EntryReader(registry, shapes)(b, q) == Step(Ok(Some(p)), q + |EntryWriter(names, shapeNames)(Some(p))|)
    {
      ReadEntryOfCells(b, q, p, names, registry, shapeNames, shapes);
    }
  }

  lemma ReadEntryOfCells(buf: seq<Octet>, pos: nat, p: Payload, names: map<Kind, string>,
                         registry: map<string, Kind>, shapeNames: map<ShapeType, string>,
                         shapes: map<string, ShapeType>)
    requires ComponentEncodable(p, names, registry, shapeNames, shapes)
    requires HoldsAt(buf, pos, EntryCells(Some(p), names, shapeNames))
    ensures ReadEntryAt(buf, pos, registry, shapes) == Step(Ok(Some(p)), pos + |EntryCells(Some(p), names, shapeNames)|)
  {
    var n := ComponentNameIn(names, p.KindOf());
    var p1, p2 := EntryCellsSplit(buf, pos, p, names, shapeNames);
    ReadPayloadOfCells(buf, p1, p, shapeNames, shapes);
    ReadStringOfCells(buf, pos, n);
    ReadEntryOfParts(buf, pos, registry, shapes, n, p1, p, p2);
  }

  /** The entry's cells are the class name's cells, then the component's. */
  lemma EntryCellsSplit(buf: seq<Octet>, pos: nat, p: Payload, names: map<Kind, string>,
                        shapeNames: map<ShapeType, string>) returns (p1: nat, p2: nat)
    requires HoldsAt(buf, pos, EntryCells(Some(p), names, shapeNames))
    ensures HoldsAt(buf, pos, StringCells(ComponentNameIn(names, p.KindOf())))
    ensures p1 == pos + |StringCells(ComponentNameIn(names, p.KindOf()))|
    ensures HoldsAt(buf, p1, PayloadCells(p, shapeNames))
    ensures p2 == p1 + |PayloadCells(p, shapeNames)| == pos + |EntryCells(Some(p), names, shapeNames)|
  {
    var c1 := StringCells(ComponentNameIn(names, p.KindOf()));
    HoldsAtSplit(buf, pos, c1, PayloadCells(p, shapeNames));
    p1 := pos + |c1|;
    p2 := p1 + |PayloadCells(p, shapeNames)|;
  }

  /** The name of a registered class followed by a component of that class. */
  lemma ReadEntryOfParts(buf: seq<Octet>, pos: nat, registry: map<string, Kind>, shapes: map<string, ShapeType>,
                         n: string, p1: nat, p: Payload, p2: nat)
    requires ReadStringAt(buf, pos) == Step(Ok(n), p1)
    requires n in registry && registry[n] == p.KindOf()
    requires ReadPayloadAt(buf, p1, p.KindOf(), shapes) == Step(Ok(p), p2)
    ensures ReadEntryAt(buf, pos, registry, shapes) == Step(Ok(Some(p)), p2)
  {
  }

  /** Storing the entries of some classes of m, one after the other, rebuilds m on
      exactly those classes. */
  lemma {:induction false} OverlayEntriesOf(m: map<Kind, Payload>, ks: seq<Kind>)
    requires Consistent(m)
    requires forall i :: 0 <= i < |ks| ==> ks[i] in m
    ensures forall k :: k in Overlay(map[], Entries(m, ks)) <==> k in ks
    ensures forall k :: k in Overlay(map[], Entries(m, ks)) ==> Overlay(map[], Entries(m, ks))[k] == m[k]
    decreases |ks|
  {
    if |ks| > 0 {
      var init, k := ks[..|ks| - 1], ks[|ks| - 1];
      OverlayEntriesOf(m, init);
      assert ks == init + [k];
      EntriesSnoc(m, init, k);
      OverlaySnoc(map[], Entries(m, init), Some(m[k]));
    }
  }

  /** Storing every entry `Encode` wrote rebuilds the whole map. */
  lemma OverlayEntries(m: map<Kind, Payload>)
    requires Consistent(m)
    ensures Overlay(map[], Entries(m, Present(m))) == m
  {
    PresentIsKeys(m);
    OverlayEntriesOf(m, Present(m));
  }

  /** Decoding what `Encode` wrote gives back the UUID, the tags and one entry per
      component, and the reader stops where the writer did. */
  lemma ReadInstanceOfCells(buf: seq<Octet>, pos: nat, u: UUID, tags: seq<string>, m: map<Kind, Payload>,
                            names: map<Kind, string>, registry: map<string, Kind>,
                            shapeNames: map<ShapeType, string>, shapes: map<string, ShapeType>)
    requires TagsEncodable(tags) && Consistent(m)
    requires forall k :: k in m ==> ComponentEncodable(m[k], names, registry, shapeNames, shapes)
    requires HoldsAt(buf, pos, InstanceCells(u, tags, m, names, shapeNames))
    ensures ReadInstanceAt(buf, pos, registry, shapes) ==
      Step(Ok(Snapshot(u, tags, Entries(m, Present(m)))), pos + |InstanceCells(u, tags, m, names, shapeNames)|)
  {
    var p1, p2, p3 := InstanceCellsSplit(buf, pos, u, tags, m, names, shapeNames);
    ReadUuidOfCells(buf, pos, u);
    ReadStringArrayOfCells(buf, p1, tags);
    ReadComponentsOfCells(buf, p2, m, names, registry, shapeNames, shapes);
    ReadInstanceSteps(buf, pos, registry, shapes, u, tags, Entries(m, Present(m)), p1, p2, p3);
  }

  /** Where the three parts of an instance's encoding start and end. */
  lemma InstanceCellsSplit(buf: seq<Octet>, pos: nat, u: UUID, tags: seq<string>, m: map<Kind, Payload>,
                           names: map<Kind, string>, shapeNames: map<ShapeType, string>)
    returns (p1: nat, p2: nat, p3: nat)
    requires HoldsAt(buf, pos, InstanceCells(u, tags, m, names, shapeNames))
    ensures p1 == pos + |UuidCells(u)| && HoldsAt(buf, pos, UuidCells(u))
    ensures p2 == p1 + |StringArrayCells(tags)| && HoldsAt(buf, p1, StringArrayCells(tags))
    ensures p3 == pos + |InstanceCells(u, tags, m, names, shapeNames)|
    ensures HoldsAt(buf, p2, ComponentsCells(m, names, shapeNames))
    ensures p3 == p2 + |ComponentsCells(m, names, shapeNames)|
  {
    var c1, c2, c3 := UuidCells(u), StringArrayCells(tags), ComponentsCells(m, names, shapeNames);
    HoldsAtSplit(buf, pos, c1 + c2, c3);
    HoldsAtSplit(buf, pos, c1, c2);
    p1, p2, p3 := pos + |c1|, pos + |c1| + |c2|, pos + |c1| + |c2| + |c3|;
  }

  /** The three reads of `Instance::Decode` in a row. */
  lemma ReadInstanceSteps(buf: seq<Octet>, pos: nat, registry: map<string, Kind>, shapes: map<string, ShapeType>,
                          u: UUID, tags: seq<string>, es: seq<Entry>, p1: nat, p2: nat, p3: nat)
    requires ReadUuidAt(buf, pos) == Step(Ok(u), p1)
    requires ReadStringArrayAt(buf, p1) == Step(Ok(tags), p2)
    requires ReadComponentsAt(buf, p2, registry, shapes) == Step(Ok(es), p3)
    ensures ReadInstanceAt(buf, pos, registry, shapes) == Step(Ok(Snapshot(u, tags, es)), p3)
  {
  }

  lemma ReadComponentsOfCells(buf: seq<Octet>, pos: nat, m: map<Kind, Payload>,
                              names: map<Kind, string>, registry: map<string, Kind>,
                              shapeNames: map<ShapeType, string>, shapes: map<string, ShapeType>)
    requires forall k :: k in m ==> ComponentEncodable(m[k], names, registry, shapeNames, shapes)
    requires HoldsAt(buf, pos, ComponentsCells(m, names, shapeNames))
    ensures ReadComponentsAt(buf, pos, registry, shapes) ==
      Step(Ok(Entries(m, Present(m))), pos + |ComponentsCells(m, names, shapeNames)|)
  {
    var es := Entries(m, Present(m));
    var w := EntryWriter(names, shapeNames);
    HoldsAtSplit(buf, pos, IntCells(U32, |m| % TWO32), Flatten(es, w));
    PresentIsKeys(m);
    assert |m| < TWO32 by {
      assert |Present(m)| <= |AllKinds|;
    }
    ReadLengthOfCells(buf, pos, |m|);
    EntriesReadBack(m, names, registry, shapeNames, shapes);
    ReadListOfCells(buf, pos + 4, es, EntryReader(registry, shapes), w);
  }

  lemma EntriesReadBack(m: map<Kind, Payload>, names: map<Kind, string>, registry: map<string, Kind>,
                        shapeNames: map<ShapeType, string>, shapes: map<string, ShapeType>)
    requires forall k :: k in m ==> ComponentEncodable(m[k], names, registry, shapeNames, shapes)
    ensures var es := Entries(m, Present(m));
      forall i :: 0 <= i < |es| ==> ReadsBack(EntryReader(registry, shapes), EntryWriter(names, shapeNames), es[i])
  {
    var es := Entries(m, Present(m));
    PresentIsKeys(m);
    forall i | 0 <= i < |es|
      ensures ReadsBack(EntryReader(registry, shapes), EntryWriter(names, shapeNames), es[i])
    {
      assert Present(m)[i] in Present(m);
      EntryReadsBack(m[Present(m)[i]], names, registry, shapeNames, shapes);
    }
  }

  /** An unregistered class name is read and skipped, and the next read starts on the
      first byte of that component's own encoding. */
  lemma UnknownComponentNotSkipped(buf: seq<Octet>, pos: nat, p: Payload, names: map<Kind, string>,
                                   registry: map<string, Kind>, shapeNames: map<ShapeType, string>,
                                   shapes: map<string, ShapeType>)
    requires var n := ComponentNameIn(names, p.KindOf()); IsByteString(n) && |n| < TWO32 && n !in registry
    requires HoldsAt(buf, pos, EntryCells(Some(p), names, shapeNames))
    ensures ReadEntryAt(buf, pos, registry, shapes) ==
      Step(Ok(None), pos + |StringCells(ComponentNameIn(names, p.KindOf()))|)
    ensures HoldsAt(buf, ReadEntryAt(buf, pos, registry, shapes).pos, PayloadCells(p, shapeNames))
  {
    var n := ComponentNameIn(names, p.KindOf());
    HoldsAtSplit(buf, pos, StringCells(n), PayloadCells(p, shapeNames));
    ReadStringOfCells(buf, pos, n);
  }

  // ---------------------------------------------------------------------------
  // The object
  // ---------------------------------------------------------------------------

  /** The fields of the components of a component map, by class. */
  ghost function DataOf(comps: map<Kind, Component>): (d: map<Kind, Payload>)
    reads comps.Values
    ensures d.Keys == comps.Keys
  {
    map k | k in comps :: comps[k].data
  }

  /** Each component is filed under its own class and attached to `owner`. */
  ghost predicate AttachedTo(comps: map<Kind, Component>, owner: object)
    reads comps.Values
  {
    forall k :: k in comps ==> comps[k].data.KindOf() == k && comps[k].owner == owner
  }

  /** Storing one decoded entry keeps the map attached to `owner` and in step with
      the overlay of the entries read so far. */
  lemma AttachStep(comps: map<Kind, Component>, owner: object, d: map<Kind, Payload>,
                   entries: seq<Entry>, e: Entry, c: Component?)
    requires AttachedTo(comps, owner) && DataOf(comps) == Overlay(d, entries)
    requires e.Some? ==> c != null && c.data == e.value && c.owner == owner
    ensures var next := if e.Some? then comps[e.value.KindOf() := c] else comps;
      AttachedTo(next, owner) && DataOf(next) == Overlay(d, entries + [e])
  {
    OverlaySnoc(d, entries, e);
    if e.Some? {
      var next := comps[e.value.KindOf() := c];
      assert DataOf(next) == DataOf(comps)[e.value.KindOf() := c.data];
    }
  }

  class Instance {
    var tags: seq<string>
    var uuid: UUID
    var components: map<Kind, Component>
    /** The classes `LockComponent` has locked. */
    var locked: set<Kind>
    /** The `World*` the instance belongs to. */
    var world: object?
    var destroyed: bool
    var dirty: bool
    const Destroyed: Signal<()>

    ghost predicate Valid()
      reads this, components.Values, Destroyed
    {
      AttachedTo(components, this) && Destroyed.Valid()
    }

    /** The fields of the components, by class. */
    ghost function Data(): (d: map<Kind, Payload>)
      reads this, components.Values
      ensures d.Keys == components.Keys
    {
      DataOf(components)
    }

    /** `Instance(id)`; the default constructor is this one with a `UUID::random()`
        argument. The source leaves `world` uninitialised; here it is null. */
    constructor(id: UUID)
      ensures Valid() && uuid == id && tags == [] && components == map[] && locked == {}
      ensures world == null && !destroyed && !dirty
      ensures fresh(Destroyed) && Destroyed.listeners == [] && Destroyed.nextId == 0 && Destroyed.log == []
    {
      tags := [];
      uuid := id;
      components := map[];
      locked := {};
      world := null;
      destroyed := false;
      dirty := false;
      Destroyed := new Signal();
    }

    // --- tags ---

    /** `AddTag`: appended even when already present. */
    method AddTag(tag: string)
      modifies this
      ensures tags == old(tags) + [tag]
      ensures uuid == old(uuid) && components == old(components) && locked == old(locked)
      ensures world == old(world) && destroyed == old(destroyed) && dirty == old(dirty)
    {
      tags := tags + [tag];
    }

    /** `HasTag`: a scan of the list. */
    method HasTag(tag: string) returns (found: bool)
      ensures found <==> tag in tags
    {
      for i := 0 to |tags|
        invariant tag !in tags[..i]
      {
        if tags[i] == tag {
          return true;
        }
      }
      assert tags[..|tags|] == tags;
      return false;
    }

    /** `RemoveTag`: every copy goes, the others keep their order. */
    method RemoveTag(tag: string)
      modifies this
      ensures tags == Filter(old(tags), (t: string) => t != tag)
      ensures tag !in tags && forall t :: t != tag ==> (t in tags <==> t in old(tags))
      ensures uuid == old(uuid) && components == old(components) && locked == old(locked)
      ensures world == old(world) && destroyed == old(destroyed) && dirty == old(dirty)
    {
      var keep := (t: string) => t != tag;
      forall t
        ensures t in Filter(tags, keep) <==> t in tags && keep(t)
      {
        FilterMember(tags, keep, t);
      }
      tags := Filter(tags, keep);
    }

    // --- flags ---

    method SetWorld(w: object?)
      modifies this
      ensures world == w
      ensures tags == old(tags) && uuid == old(uuid) && components == old(components) && locked == old(locked)
      ensures destroyed == old(destroyed) && dirty == old(dirty)
    {
      world := w;
    }

    /** `Instance::SetDirty(val)`. */
    method SetDirty(val: bool)
      modifies this
      ensures dirty == val
      ensures tags == old(tags) && uuid == old(uuid) && components == old(components) && locked == old(locked)
      ensures world == old(world) && destroyed == old(destroyed)
    {
      dirty := val;
    }

    method ClearDirty()
      modifies this
      ensures !dirty
      ensures tags == old(tags) && uuid == old(uuid) && components == old(components) && locked == old(locked)
      ensures world == old(world) && destroyed == old(destroyed)
    {
      dirty := false;
    }

    /** `operator==`: same UUID, whatever else differs. */
    predicate SameAs(other: Instance): (r: bool)
      reads this, other
      ensures this == other ==> r
      ensures r ==> other.uuid == uuid
    {
      uuid == other.uuid
    }

    /** Equality of instances is an equivalence: it is symmetric and transitive. */
    lemma SameAsEquivalence(other: Instance, third: Instance)
      ensures SameAs(other) == other.SameAs(this)
      ensures SameAs(other) && other.SameAs(third) ==> SameAs(third)
    {
    }

    // --- components ---

    /** `GetAllComponents`: nothing once destroyed. */
    function GetAllComponents(): (r: map<Kind, Component>)
      reads this
      ensures destroyed ==> r == map[]
      ensures !destroyed ==> r == components
    {
      if destroyed then map[] else components
    }

    /** `GetComponent<T>`: null when there is none. */
    function GetComponent(k: Kind): (c: Component?)
      reads this
      ensures c == null <==> k !in components
      ensures c != null ==> c == components[k]
    {
      if k in components then components[k] else null
    }

    predicate HasComponent(k: Kind)
      reads this
      ensures HasComponent(k) <==> GetComponent(k) != null
    {
      k in components
    }

    /** `AddComponent<T>(args...)`: refused for a locked class; otherwise a new
        component built from the arguments is attached and replaces any component of
        its class. */
    method AddComponent(p: Payload) returns (r: Result<Component>)
      requires Valid()
      modifies this
      ensures Valid()
      ensures p.KindOf() in locked ==> r == Err(ErrLockedAdd) && components == old(components)
      ensures p.KindOf() !in locked ==>
        && r.Ok? && fresh(r.value) && r.value.data == p && r.value.enabled
        && components == old(components)[p.KindOf() := r.value]
      ensures tags == old(tags) && uuid == old(uuid) && locked == old(locked)
      ensures world == old(world) && destroyed == old(destroyed) && dirty == old(dirty)
    {
      var k := p.KindOf();
      if k in locked {
        return Err(ErrLockedAdd);
      }
      var c := new Component(p);
      c.OnAttach(this);
      components := components[k := c];
      r := Ok(c);
    }

    /** `RemoveComponent<T>`: refused for a locked class unless destroyed; otherwise
        the component, if any, is detached and dropped. */
    method RemoveComponent(k: Kind) returns (r: Result<()>)
      requires Valid()
      modifies this, components.Values
      ensures Valid()
      ensures k in locked && !old(destroyed) ==>
        && r == Err(ErrLockedRemove) && components == old(components)
        && unchanged(old(components.Values))
      ensures !(k in locked && !old(destroyed)) ==>
        && r.Ok? && components == old(components) - {k}
        && (k in old(components) ==> old(components[k]).owner == null)
      ensures forall j :: j in components ==> unchanged(components[j])
      ensures tags == old(tags) && uuid == old(uuid) && locked == old(locked)
      ensures world == old(world) && destroyed == old(destroyed) && dirty == old(dirty)
    {
      if k in locked && !destroyed {
        return Err(ErrLockedRemove);
      }
      if k in components {
        components[k].OnDetach();
        components := components - {k};
      }
      r := Ok(());
    }

    /** `LockComponent<T>`: no method ever unlocks. */
    method LockComponent(k: Kind)
      modifies this
      ensures locked == old(locked) + {k}
      ensures tags == old(tags) && uuid == old(uuid) && components == old(components)
      ensures world == old(world) && destroyed == old(destroyed) && dirty == old(dirty)
    {
      locked := locked + {k};
    }

    // --- life cycle ---

    /** `Instance::Tick`: nothing once destroyed; otherwise every enabled component
        ticks. */
    method Tick(dt: real)
      requires Valid()
      modifies components.Values
      ensures Valid()
      ensures forall k :: k in components ==>
        components[k].enabled == old(components[k].enabled) && components[k].owner == old(components[k].owner)
      ensures forall k :: k in components ==>
        components[k].data == if !destroyed && components[k].enabled then TickPayload(old(components[k].data))
                              else old(components[k].data)
    {
      if destroyed {
        return;
      }
      for i := 0 to |AllKinds|
        invariant forall k :: k in components ==>
          components[k].enabled == old(components[k].enabled) && components[k].owner == old(components[k].owner)
        invariant forall k :: k in components ==>
          components[k].data == if k in AllKinds[..i] && components[k].enabled then TickPayload(old(components[k].data))
                                else old(components[k].data)
      {
        var k := AllKinds[i];
        assert AllKinds[..i + 1] == AllKinds[..i] + [k];
        if k in components && components[k].enabled {
          components[k].Tick(dt);
        }
      }
      forall k | k in components
        ensures k in AllKinds[..|AllKinds|]
      {
        KindListed(k);
        assert AllKinds[..|AllKinds|] == AllKinds;
      }
    }

    /** Detaches every component (the loops over `components` in `Destroy` and the
        destructor). */
    method DetachAll()
      modifies components.Values
      ensures forall c :: c in components.Values ==> c.owner == null && c.data == old(c.data) && c.enabled == old(c.enabled)
    {
      for i := 0 to |AllKinds|
        invariant forall k :: k in components ==>
          components[k].data == old(components[k].data) && components[k].enabled == old(components[k].enabled)
        invariant forall k :: k in components && k in AllKinds[..i] ==> components[k].owner == null
      {
        var k := AllKinds[i];
        assert AllKinds[..i + 1] == AllKinds[..i] + [k];
        if k in components {
          components[k].OnDetach();
        }
      }
      forall k | k in components
        ensures k in AllKinds[..|AllKinds|]
      {
        KindListed(k);
        assert AllKinds[..|AllKinds|] == AllKinds;
      }
    }

    /** `Instance::Destroy`: the first call marks the instance destroyed, detaches
        its components, fires `Destroyed` and drops the components; later calls do
        nothing. */
    method Destroy()
      requires Valid()
      modifies this, Destroyed, components.Values
      ensures Valid()
      ensures old(destroyed) ==> unchanged(this) && unchanged(Destroyed) && unchanged(components.Values)
      ensures !old(destroyed) ==>
        && destroyed && components == map[]
        && Destroyed.log == old(Destroyed.log) + Calls(old(Destroyed.listeners), ())
        && forall c :: c in old(components.Values) ==> c.owner == null
      ensures tags == old(tags) && uuid == old(uuid) && locked == old(locked)
      ensures world == old(world) && dirty == old(dirty)
    {
      if destroyed {
        return;
      }
      destroyed := true;
      DetachAll();
      Destroyed.Fire(());
      components := map[];
    }

    /** `~Instance`: fires `Destroyed` unless already destroyed, then detaches and
        drops the components. */
    method Finalize()
      requires Valid()
      modifies this, Destroyed, components.Values
      ensures Valid() && destroyed && components == map[]
      ensures old(destroyed) ==> unchanged(Destroyed)
      ensures !old(destroyed) ==> Destroyed.log == old(Destroyed.log) + Calls(old(Destroyed.listeners), ())
      ensures forall c :: c in old(components.Values) ==> c.owner == null
      ensures tags == old(tags) && uuid == old(uuid) && locked == old(locked)
      ensures world == old(world) && dirty == old(dirty)
    {
      if !destroyed {
        destroyed := true;
        Destroyed.Fire(());
      }
      DetachAll();
      components := map[];
    }

    // --- the wire ---

    /** `Instance::Encode`: the fields of the components it holds, written as an
        instance (`WriteInstance`). */
    method Encode(codec: PacketCodec, registry: ComponentRegistry, shapes: HitboxShapeRegistry)
      requires AttachedTo(components, this)
      modifies codec
      ensures codec.buffer == old(codec.buffer) + InstanceCells(uuid, tags, Data(), registry.reverse, shapes.reverse)
      ensures codec.readPos == old(codec.readPos) && Data() == old(Data())
    {
      var m := map k | k in components :: components[k].data;
      assert m == Data();
      WriteInstance(codec, uuid, tags, m, registry, shapes);
    }

    /** `Instance::Decode`: the UUID, the tags, then each entry; a component of a
        registered class is created, attached, decoded and stored under its class.
        Components already present stay unless an entry replaces them. */
    method Decode(codec: PacketCodec, registry: ComponentRegistry, shapes: HitboxShapeRegistry)
      returns (r: Result<Snapshot>)
      requires Valid()
      modifies this, codec
      ensures Valid()
      ensures codec.buffer == old(codec.buffer)
      ensures Step(r, codec.readPos) == ReadInstanceAt(codec.buffer, old(codec.readPos), registry.registry, shapes.registry)
      ensures r.Ok? ==>
        && uuid == r.value.uuid && tags == r.value.tags
        && Data() == Overlay(old(Data()), r.value.entries)
      ensures r.Err? ==> uuid == old(uuid) && tags == old(tags) && components == old(components)
      ensures locked == old(locked) && world == old(world) && destroyed == old(destroyed) && dirty == old(dirty)
    {
      ghost var d := Data();
      var comps;
      r, comps := ReadInstance(codec, registry, shapes, this, d);
      Store(r, comps, if r.Ok? then Overlay(d, r.value.entries) else d);
    }

    /** The end of `Instance::Decode`: a complete read replaces the identity, the tags
        and the component map; a failed one leaves them as they were. */
    method Store(r: Result<Snapshot>, comps: map<Kind, Component>, ghost next: map<Kind, Payload>)
      requires Valid()
      requires r.Ok? ==> AttachedTo(comps, this) && DataOf(comps) == next
      modifies this
      ensures Valid()
      ensures r.Ok? ==> uuid == r.value.uuid && tags == r.value.tags && components == comps && Data() == next
      ensures r.Err? ==> uuid == old(uuid) && tags == old(tags) && components == old(components)
      ensures locked == old(locked) && world == old(world) && destroyed == old(destroyed) && dirty == old(dirty)
    {
      if r.Ok? {
        uuid := r.value.uuid;
        tags := r.value.tags;
        components := comps;
      }
    }

  }

  /** What `Instance::Encode` writes for an instance with UUID `u`, tags `tags` and
      component fields `m`: the UUID, the tags, the u32 component count, then the name
      and fields of each component. */
  method WriteInstance(codec: PacketCodec, u: UUID, tags: seq<string>, m: map<Kind, Payload>,
                       registry: ComponentRegistry, shapes: HitboxShapeRegistry)
    requires Consistent(m)
    modifies codec
    ensures codec.buffer == old(codec.buffer) + InstanceCells(u, tags, m, registry.reverse, shapes.reverse)
    ensures codec.readPos == old(codec.readPos)
  {
    codec.WriteUuid(u);
    codec.WriteStringArray(tags);
    WriteComponents(codec, m, registry, shapes);
    AppendAssoc(old(codec.buffer), UuidCells(u), StringArrayCells(tags));
    AppendAssoc(old(codec.buffer) + UuidCells(u), StringArrayCells(tags),
                ComponentsCells(m, registry.reverse, shapes.reverse));
    AppendAssoc(old(codec.buffer), UuidCells(u) + StringArrayCells(tags),
                ComponentsCells(m, registry.reverse, shapes.reverse));
  }

  /** The component count and the loop over the components in `Instance::Encode`. */
  method WriteComponents(codec: PacketCodec, m: map<Kind, Payload>, registry: ComponentRegistry,
                         shapes: HitboxShapeRegistry)
    requires Consistent(m)
    modifies codec
    ensures codec.buffer == old(codec.buffer) + ComponentsCells(m, registry.reverse, shapes.reverse)
    ensures codec.readPos == old(codec.readPos)
  {
    codec.WriteInt(U32, |m| % TWO32);
    WriteEntries(codec, m, registry, shapes);
    AppendAssoc(old(codec.buffer), IntCells(U32, |m| % TWO32),
                Flatten(Entries(m, Present(m)), EntryWriter(registry.reverse, shapes.reverse)));
  }

  /** The loop over the components in `Instance::Encode`, in the order `AllKinds`. */
  method WriteEntries(codec: PacketCodec, m: map<Kind, Payload>, registry: ComponentRegistry,
                      shapes: HitboxShapeRegistry)
    requires Consistent(m)
    modifies codec
    ensures codec.buffer == old(codec.buffer) + Flatten(Entries(m, Present(m)), EntryWriter(registry.reverse, shapes.reverse))
    ensures codec.readPos == old(codec.readPos)
  {
    ghost var f := EntryWriter(registry.reverse, shapes.reverse);
    for i := 0 to |AllKinds|
      invariant codec.buffer == old(codec.buffer) + Flatten(Entries(m, Filter(AllKinds[..i], InMap(m))), f)
      invariant codec.readPos == old(codec.readPos)
    {
      WriteEntry(codec, m, registry, shapes, i, old(codec.buffer));
    }
    assert AllKinds[..|AllKinds|] == AllKinds;
  }

  /** One pass of that loop: the class name and the component, if there is one of
      the i-th class. */
  method WriteEntry(codec: PacketCodec, m: map<Kind, Payload>, registry: ComponentRegistry,
                    shapes: HitboxShapeRegistry, i: nat, ghost start: seq<Octet>)
    requires Consistent(m) && i < |AllKinds|
    requires codec.buffer ==
      start + Flatten(Entries(m, Filter(AllKinds[..i], InMap(m))), EntryWriter(registry.reverse, shapes.reverse))
    modifies codec
    ensures codec.buffer ==
      start + Flatten(Entries(m, Filter(AllKinds[..i + 1], InMap(m))), EntryWriter(registry.reverse, shapes.reverse))
    ensures codec.readPos == old(codec.readPos)
  {
    ghost var f := EntryWriter(registry.reverse, shapes.reverse);
    ghost var ks := Filter(AllKinds[..i], InMap(m));
    var k := AllKinds[i];
    FilterSnoc(AllKinds, i, InMap(m));
    if k in m {
      var name := registry.GetName(k);
      codec.WriteString(name);
      EncodePayload(codec, m[k], shapes);
      assert f(Some(m[k])) == StringCells(name) + PayloadCells(m[k], shapes.reverse);
      EntriesSnoc(m, ks, k);
      FlattenPush(Entries(m, ks), Some(m[k]), f);
      AppendAssoc(start + Flatten(Entries(m, ks), f), StringCells(name), PayloadCells(m[k], shapes.reverse));
      AppendAssoc(start, Flatten(Entries(m, ks), f), f(Some(m[k])));
      assert codec.buffer == start + Flatten(Entries(m, ks + [k]), f);
    } else {
      assert !InMap(m)(k);
      assert Filter(AllKinds[..i + 1], InMap(m)) == ks;
    }
  }

  /** What `Instance::Decode` reads, and the component map it builds for `x`: the
      components already there, replaced class by class by fresh, attached, decoded
      ones. */
  method ReadInstance(codec: PacketCodec, registry: ComponentRegistry, shapes: HitboxShapeRegistry,
                      x: Instance, ghost d: map<Kind, Payload>)
    returns (r: Result<Snapshot>, comps: map<Kind, Component>)
    requires AttachedTo(x.components, x) && d == x.Data()
    modifies codec
    ensures codec.buffer == old(codec.buffer)
    ensures Step(r, codec.readPos) == ReadInstanceAt(codec.buffer, old(codec.readPos), registry.registry, shapes.registry)
    ensures r.Ok? ==> AttachedTo(comps, x) && DataOf(comps) == Overlay(d, r.value.entries)
  {
    comps := x.components;
    var u := codec.ReadUuid();
    if u.Err? {
      return Err(u.error), comps;
    }
    var t := codec.ReadStringArray();
    if t.Err? {
      return Err(t.error), comps;
    }
    var es;
    es, comps := ReadComponents(codec, registry, shapes, x, d);
    if es.Err? {
      return Err(es.error), x.components;
    }
    r := Ok(Snapshot(u.value, t.value, es.value));
  }

  /** The component count and the loop over the entries in `Instance::Decode`; the
      map it builds is stored only when every entry was read. */
  method ReadComponents(codec: PacketCodec, registry: ComponentRegistry, shapes: HitboxShapeRegistry,
                        x: Instance, ghost d: map<Kind, Payload>)
    returns (r: Result<seq<Entry>>, comps: map<Kind, Component>)
    requires AttachedTo(x.components, x) && d == x.Data()
    modifies codec
    ensures codec.buffer == old(codec.buffer)
    ensures Step(r, codec.readPos) == ReadComponentsAt(codec.buffer, old(codec.readPos), registry.registry, shapes.registry)
    ensures r.Ok? ==> AttachedTo(comps, x) && DataOf(comps) == Overlay(d, r.value)
  {
    var count := codec.ReadInt(U32);
    if count.Err? {
      return Err(count.error), x.components;
    }
    r, comps := ReadEntries(codec, registry, shapes, count.value, x, d);
  }

  /** The loop over the entries in `Instance::Decode`. */
  method ReadEntries(codec: PacketCodec, registry: ComponentRegistry, shapes: HitboxShapeRegistry, n: nat,
                     x: Instance, ghost d: map<Kind, Payload>)
    returns (r: Result<seq<Entry>>, comps: map<Kind, Component>)
    requires AttachedTo(x.components, x) && d == x.Data()
    modifies codec
    ensures codec.buffer == old(codec.buffer)
    ensures Step(r, codec.readPos) ==
      ReadListAt(codec.buffer, old(codec.readPos), n, EntryReader(registry.registry, shapes.registry))
    ensures r.Ok? ==> AttachedTo(comps, x) && DataOf(comps) == Overlay(d, r.value)
  {
    comps := x.components;
    ghost var item := EntryReader(registry.registry, shapes.registry);
    ghost var spec := ReadListAt(codec.buffer, codec.readPos, n, item);
    PrependNothing(spec);
    var entries: seq<Entry> := [];
    r := Ok([]);
    for i := 0 to n
      invariant r.Ok? && codec.buffer == old(codec.buffer)
      invariant spec == Prepend(entries, ReadListAt(codec.buffer, codec.readPos, n - i, item))
      invariant AttachedTo(comps, x) && DataOf(comps) == Overlay(d, entries)
    {
      var e;
      e, comps := ReadNext(codec, registry, shapes, x, d, spec, n - i, entries, comps);
      if e.Err? {
        r := Err(e.error);
        break;
      }
      entries := entries + [e.value];
    }
    if r.Ok? {
      assert entries + [] == entries;
      r := Ok(entries);
    }
  }

  /** One pass of that loop, with `m` entries still to read: the entry read extends
      the list read so far, and a decoded component is stored under its class. */
  method ReadNext(codec: PacketCodec, registry: ComponentRegistry, shapes: HitboxShapeRegistry,
                  x: Instance, ghost d: map<Kind, Payload>, ghost spec: Step<seq<Entry>>, m: nat,
                  entries: seq<Entry>, comps: map<Kind, Component>)
    returns (e: Result<Entry>, next: map<Kind, Component>)
    requires m > 0
    requires spec == Prepend(entries, ReadListAt(codec.buffer, codec.readPos, m, EntryReader(registry.registry, shapes.registry)))
    requires AttachedTo(comps, x) && DataOf(comps) == Overlay(d, entries)
    modifies codec
    ensures codec.buffer == old(codec.buffer)
    ensures e.Err? ==> spec == Step(Err(e.error), codec.readPos)
    ensures e.Ok? ==>
      && spec == Prepend(entries + [e.value], ReadListAt(codec.buffer, codec.readPos, m - 1, EntryReader(registry.registry, shapes.registry)))
      && AttachedTo(next, x) && DataOf(next) == Overlay(d, entries + [e.value])
  {
    ghost var before := codec.readPos;
    var c;
    e, c := ReadEntry(codec, registry, shapes, x);
    ReadListStep(codec.buffer, before, m, entries, EntryReader(registry.registry, shapes.registry));
    next := comps;
    if e.Err? {
      return;
    }
    AttachStep(comps, x, d, entries, e.value, c);
    if e.value.Some? {
      next := comps[e.value.value.KindOf() := c];
    }
  }

  /** One pass of the loop of `Instance::Decode`: the name, and for a registered one a
      fresh component of that class, attached to `owner` and decoded. */
  method ReadEntry(codec: PacketCodec, registry: ComponentRegistry, shapes: HitboxShapeRegistry, owner: object)
    returns (e: Result<Entry>, c: Component?)
    modifies codec
    ensures codec.buffer == old(codec.buffer)
    ensures Step(e, codec.readPos) == EntryReader(registry.registry, shapes.registry)(codec.buffer, old(codec.readPos))
    ensures e.Ok? && e.value.Some? ==>
      && c != null && fresh(c) && c.data == e.value.value && c.data.KindOf() == e.value.value.KindOf()
      && c.owner == owner && c.enabled
  {
    var name := codec.ReadString();
    if name.Err? {
      return Err(name.error), null;
    }
    c := registry.Create(name.value);
    if c == null {
      return Ok(None), null;
    }
    c.OnAttach(owner);
    var p := c.Decode(codec, shapes);
    if p.Err? {
      return Err(p.error), c;
    }
    e := Ok(Some(p.value));
  }

  /** Encoding an instance and decoding it into a fresh one reproduces its UUID, tags
      and component fields, as long as both sides register the classes and shapes
      under the same names. */
  method EncodeDecode(x: Instance, registry: ComponentRegistry, shapes: HitboxShapeRegistry, id: UUID)
    returns (y: Instance)
    requires x.Valid() && TagsEncodable(x.tags)
    requires forall k :: k in x.components ==>
      ComponentEncodable(x.components[k].data, registry.reverse, registry.registry, shapes.reverse, shapes.registry)
    ensures fresh(y) && y.uuid == x.uuid && y.tags == x.tags && y.Data() == old(x.Data())
  {
    ghost var d := x.Data();
    var codec := EncodeForRead(x, registry, shapes, d);
    y := new Instance(id);
    assert y.Data() == map[];
    var r := y.Decode(codec, registry, shapes);
    var es := Entries(d, Present(d));
    assert r == Ok(Snapshot(x.uuid, x.tags, es));
    OverlayEntries(d);
  }

  /** A fresh buffer holding `x`'s encoding, with the read cursor on its first byte:
      reading an instance there gives back `x`'s UUID, tags and components. */
  method EncodeForRead(x: Instance, registry: ComponentRegistry, shapes: HitboxShapeRegistry,
                       ghost d: map<Kind, Payload>)
    returns (codec: PacketCodec)
    requires x.Valid() && TagsEncodable(x.tags) && d == x.Data()
    requires forall k :: k in x.components ==>
      ComponentEncodable(x.components[k].data, registry.reverse, registry.registry, shapes.reverse, shapes.registry)
    ensures fresh(codec) && codec.readPos == 0 && Consistent(d)
    ensures ReadInstanceAt(codec.buffer, 0, registry.registry, shapes.registry).result ==
      Ok(Snapshot(x.uuid, x.tags, Entries(d, Present(d))))
  {
    codec := new PacketCodec();
    x.Encode(codec, registry, shapes);
    assert x.Data() == d;
    ghost var cells := InstanceCells(x.uuid, x.tags, d, registry.reverse, shapes.reverse);
    assert HoldsAt(codec.buffer, 0, cells) by {
      assert codec.buffer[0..|codec.buffer|] == codec.buffer;
    }
    ReadInstanceOfCells(codec.buffer, 0, x.uuid, x.tags, d, registry.reverse, registry.registry,
                        shapes.reverse, shapes.registry);
  }
}
