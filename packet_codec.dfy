/** `PacketCodec` (Common/Network/PacketCodec.h): a growable byte buffer with a read
    cursor. Writers append the host (little-endian) bytes of a value; readers copy them
    back and advance the cursor, throwing when the buffer runs out.

    What a reader does at cursor `pos` of buffer `buf` is the function `ReadXAt(buf,
    pos)`, a `Step`: the value or the exception's message, and where the cursor is
    afterwards (a reader that fails after an inner read has moved the cursor leaves it
    moved). The class's methods are proved to do exactly that; the round trips are
    lemmas about the functions. */
module Codec {
  import opened Arith
  import opened Wrappers
  import opened VarInt
  import opened Octets
  import opened GMath
  import opened Uuid
  import opened Seqs

  const SIZE_T: IntKind := U64

  // ---------------------------------------------------------------------------
  // What the writers append
  // ---------------------------------------------------------------------------

  /** The u32 length prefix: `static_cast<uint32_t>(size())` keeps the low 32 bits. */
  function LengthCells(n: nat): (r: seq<Octet>)
    ensures |r| == 4
  {
    IntCells(U32, n % TWO32)
  }

  function StringCells(s: string): (r: seq<Octet>)
    ensures |r| == 4 + |s|
  {
    LengthCells(|s|) + Raws(StringBytes(s))
  }

  function BytesCells(data: seq<Byte>): (r: seq<Octet>)
    ensures |r| == 4 + |data|
  {
    LengthCells(|data|) + Raws(data)
  }

  function UuidCells(u: UUID): (r: seq<Octet>)
    ensures |r| == 20
  {
    BytesCells(u.data)
  }

  function Vector2Cells(v: Vec2): (r: seq<Octet>)
    ensures |r| == 16
  {
    RealCells(v.x, DOUBLE) + RealCells(v.y, DOUBLE)
  }

  function Vector3Cells(v: Vec3): (r: seq<Octet>)
    ensures |r| == 24
  {
    RealCells(v.x, DOUBLE) + RealCells(v.y, DOUBLE) + RealCells(v.z, DOUBLE)
  }

  function Rect2Cells(r: Rect2): (c: seq<Octet>)
    ensures |c| == 32
  {
    RealCells(r.x, DOUBLE) + RealCells(r.y, DOUBLE) + RealCells(r.width, DOUBLE) +
    RealCells(r.height, DOUBLE)
  }

  predicate AllByteStrings(v: seq<string>) {
    forall i :: 0 <= i < |v| ==> IsByteString(v[i])
  }

  /** `WriteStringArray`: a `size_t` count, then each string. */
  function StringArrayCells(v: seq<string>): seq<Octet> {
    IntCells(SIZE_T, |v| % TWO64) + Flatten(v, StringCells)
  }

  // ---------------------------------------------------------------------------
  // What the readers do
  // ---------------------------------------------------------------------------

  const ErrInsufficient := "PacketCodec: insufficient data for read."
  const ErrStringOverflow := "PacketCodec: string length overflow."
  const ErrBytesOverflow := "PacketCodec: byte array length overflow."
  const ErrUuidLength := "PacketCodec: invalid UUID byte length."

  /** `Read<T>` for an integer type. */
  function ReadIntAt(buf: seq<Octet>, pos: nat, kind: IntKind): (s: Step<int>)
    ensures s.result.Err? <==> pos + kind.width > |buf|
    ensures s.result.Err? ==> s.pos == pos && s.result.error == ErrInsufficient
    ensures s.result.Ok? ==> s.pos == pos + kind.width
  {
    if pos + kind.width > |buf| then Step(Err(ErrInsufficient), pos)
    else Step(Ok(IntOfCells(buf[pos..pos + kind.width], kind)), pos + kind.width)
  }

  /** `Read<bool>`. */
  function ReadBoolAt(buf: seq<Octet>, pos: nat): (s: Step<bool>)
    ensures s.result.Err? <==> pos + 1 > |buf|
    ensures s.result.Err? ==> s.pos == pos
    ensures s.result.Ok? ==> s.pos == pos + 1 && (s.result.value <==> ByteOf(buf[pos]) != 0)
  {
    if pos + 1 > |buf| then Step(Err(ErrInsufficient), pos)
    else Step(Ok(BoolOfCells(buf[pos..pos + 1])), pos + 1)
  }

  /** `Read<float>` (width 4) and `Read<double>` (width 8). */
  function ReadRealAt(buf: seq<Octet>, pos: nat, width: nat): (s: Step<real>)
    ensures s.result.Err? <==> pos + width > |buf|
    ensures s.result.Err? ==> s.pos == pos
    ensures s.result.Ok? ==> s.pos == pos + width
  {
    if pos + width > |buf| then Step(Err(ErrInsufficient), pos)
    else Step(Ok(RealOfCells(buf[pos..pos + width], width)), pos + width)
  }

  /** The u32 length, then that many bytes; the length is consumed even when the
      bytes are missing. */
  function ReadCountedAt(buf: seq<Octet>, pos: nat, overflow: string): (s: Step<seq<Byte>>)
    ensures s.result.Ok? ==> pos + 4 <= s.pos <= |buf| && |s.result.value| == s.pos - pos - 4
    ensures s.result.Err? ==> s.pos == pos || s.pos == pos + 4
  {
    var len := ReadIntAt(buf, pos, U32);
    if len.result.Err? then Step(Err(len.result.error), len.pos)
    else
      var p := len.pos;
      var n := len.result.value;
      if p + n > |buf| then Step(Err(overflow), p)
      else Step(Ok(BytesOf(buf[p..p + n])), p + n)
  }

  function ReadStringAt(buf: seq<Octet>, pos: nat): (s: Step<string>)
    ensures s.result.Ok? ==> IsByteString(s.result.value) && s.pos <= |buf|
  {
    var b := ReadCountedAt(buf, pos, ErrStringOverflow);
    if b.result.Err? then Step(Err(b.result.error), b.pos)
    else Step(Ok(StringOfBytes(b.result.value)), b.pos)
  }

  function ReadBytesAt(buf: seq<Octet>, pos: nat): Step<seq<Byte>> {
    ReadCountedAt(buf, pos, ErrBytesOverflow)
  }

  /** `ReadUUID`: a byte array that must hold exactly 16 bytes. */
  function ReadUuidAt(buf: seq<Octet>, pos: nat): (s: Step<UUID>)
    ensures s.result.Ok? ==> ReadBytesAt(buf, pos).result == Ok(s.result.value.data)
    ensures ReadBytesAt(buf, pos).result.Ok? && |ReadBytesAt(buf, pos).result.value| != 16 ==>
      s.result == Err(ErrUuidLength)
  {
    var b := ReadBytesAt(buf, pos);
    if b.result.Err? then Step(Err(b.result.error), b.pos)
    else if |b.result.value| != 16 then Step(Err(ErrUuidLength), b.pos)
    else Step(Ok(UUID(b.result.value)), b.pos)
  }

  function ReadVector2At(buf: seq<Octet>, pos: nat): (s: Step<Vec2>)
    ensures s.result.Ok? <==> pos + 16 <= |buf|
  {
    var x := ReadRealAt(buf, pos, DOUBLE);
    if x.result.Err? then Step(Err(x.result.error), x.pos)
    else
      var y := ReadRealAt(buf, x.pos, DOUBLE);
      if y.result.Err? then Step(Err(y.result.error), y.pos)
      else Step(Ok(Vec2(x.result.value, y.result.value)), y.pos)
  }

  function ReadVector3At(buf: seq<Octet>, pos: nat): (s: Step<Vec3>)
    ensures s.result.Ok? <==> pos + 24 <= |buf|
  {
    var xy := ReadVector2At(buf, pos);
    if xy.result.Err? then Step(Err(xy.result.error), ReadRealAt(buf, pos, DOUBLE).pos)
    else
      var z := ReadRealAt(buf, xy.pos, DOUBLE);
      if z.result.Err? then Step(Err(z.result.error), z.pos)
      else Step(Ok(Vec3(xy.result.value.x, xy.result.value.y, z.result.value)), z.pos)
  }

  function ReadRect2At(buf: seq<Octet>, pos: nat): (s: Step<Rect2>)
    ensures s.result.Ok? <==> pos + 32 <= |buf|
  {
    var xy := ReadVector2At(buf, pos);
    if xy.result.Err? then Step(Err(xy.result.error), ReadRealAt(buf, pos, DOUBLE).pos)
    else
      var wh := ReadVector2At(buf, xy.pos);
      if wh.result.Err? then Step(Err(wh.result.error), ReadRealAt(buf, xy.pos, DOUBLE).pos)
      else
        var p := xy.result.value;
        var q := wh.result.value;
        Step(Ok(Rect2(p.x, p.y, q.x, q.y)), wh.pos)
  }

  /** `ReadStringArray`: a `size_t` count, then that many strings. */
  function ReadStringArrayAt(buf: seq<Octet>, pos: nat): Step<seq<string>> {
    var count := ReadIntAt(buf, pos, SIZE_T);
    if count.result.Err? then Step(Err(count.result.error), count.pos)
    else ReadListAt(buf, count.pos, count.result.value, ReadStringAt)
  }

  // ---------------------------------------------------------------------------
  // Round trips: a reader that finds a writer's octets returns the written value
  // ---------------------------------------------------------------------------


  lemma ReadIntOfCells(buf: seq<Octet>, pos: nat, kind: IntKind, v: int)
    requires kind.Valid() && kind.Holds(v) && HoldsAt(buf, pos, IntCells(kind, v))
    ensures ReadIntAt(buf, pos, kind) == Step(Ok(v), pos + kind.width)
  {
    IntOfIntCells(kind, v);
  }

  lemma ReadBoolOfCells(buf: seq<Octet>, pos: nat, b: bool)
    requires HoldsAt(buf, pos, BoolCells(b))
    ensures ReadBoolAt(buf, pos) == Step(Ok(b), pos + 1)
  {
    assert buf[pos] == buf[pos..pos + 1][0];
  }

  lemma ReadRealOfCells(buf: seq<Octet>, pos: nat, x: real, width: nat)
    requires width > 0 && HoldsAt(buf, pos, RealCells(x, width))
    ensures ReadRealAt(buf, pos, width) == Step(Ok(x), pos + width)
  {
    RealOfRealCells(x, width);
  }

  lemma ReadCountedOfCells(buf: seq<Octet>, pos: nat, data: seq<Byte>, overflow: string)
    requires |data| < TWO32 && HoldsAt(buf, pos, LengthCells(|data|) + Raws(data))
    ensures ReadCountedAt(buf, pos, overflow) == Step(Ok(data), pos + 4 + |data|)
  {
    var n := |data|;
    HoldsAtSplit(buf, pos, LengthCells(n), Raws(data));
    ReadLengthOfCells(buf, pos, n);
    ReadCountedAfterLength(buf, pos, n, overflow);
    BytesOfSlice(buf, pos + 4, data);
  }

  /** Once the length n is read, the next n octets are returned. */
  lemma ReadCountedAfterLength(buf: seq<Octet>, pos: nat, n: nat, overflow: string)
    requires pos + 4 + n <= |buf| && ReadIntAt(buf, pos, U32) == Step(Ok(n), pos + 4)
    ensures ReadCountedAt(buf, pos, overflow) == Step(Ok(BytesOf(buf[pos + 4..pos + 4 + n])), pos + 4 + n)
  {
  }

  lemma ReadLengthOfCells(buf: seq<Octet>, pos: nat, m: nat)
    requires HoldsAt(buf, pos, LengthCells(m))
    ensures ReadIntAt(buf, pos, U32) == Step(Ok(m % TWO32), pos + 4)
    ensures m < TWO32 ==> m % TWO32 == m
  {
    assert U32.Holds(m % TWO32) by {
      Pow256Values();
    }
    ReadIntOfCells(buf, pos, U32, m % TWO32);
  }


  lemma ReadStringOfCells(buf: seq<Octet>, pos: nat, s: string)
    requires IsByteString(s) && |s| < TWO32 && HoldsAt(buf, pos, StringCells(s))
    ensures ReadStringAt(buf, pos) == Step(Ok(s), pos + |StringCells(s)|)
  {
    ReadCountedOfCells(buf, pos, StringBytes(s), ErrStringOverflow);
    StringRoundTrip(s);
  }

  lemma ReadBytesOfCells(buf: seq<Octet>, pos: nat, data: seq<Byte>)
    requires |data| < TWO32 && HoldsAt(buf, pos, BytesCells(data))
    ensures ReadBytesAt(buf, pos) == Step(Ok(data), pos + |BytesCells(data)|)
  {
    ReadCountedOfCells(buf, pos, data, ErrBytesOverflow);
  }

  lemma ReadUuidOfCells(buf: seq<Octet>, pos: nat, u: UUID)
    requires HoldsAt(buf, pos, UuidCells(u))
    ensures ReadUuidAt(buf, pos) == Step(Ok(u), pos + 20)
  {
    ReadBytesOfCells(buf, pos, u.data);
  }

  lemma ReadVector2OfCells(buf: seq<Octet>, pos: nat, v: Vec2)
    requires HoldsAt(buf, pos, Vector2Cells(v))
    ensures ReadVector2At(buf, pos) == Step(Ok(v), pos + 16)
  {
    HoldsAtSplit(buf, pos, RealCells(v.x, DOUBLE), RealCells(v.y, DOUBLE));
    ReadRealOfCells(buf, pos, v.x, DOUBLE);
    ReadRealOfCells(buf, pos + 8, v.y, DOUBLE);
  }

  lemma ReadVector3OfCells(buf: seq<Octet>, pos: nat, v: Vec3)
    requires HoldsAt(buf, pos, Vector3Cells(v))
    ensures ReadVector3At(buf, pos) == Step(Ok(v), pos + 24)
  {
    HoldsAtSplit(buf, pos, Vector2Cells(Vec2(v.x, v.y)), RealCells(v.z, DOUBLE));
    ReadVector2OfCells(buf, pos, Vec2(v.x, v.y));
    ReadRealOfCells(buf, pos + 16, v.z, DOUBLE);
  }

  lemma ReadRect2OfCells(buf: seq<Octet>, pos: nat, r: Rect2)
    requires HoldsAt(buf, pos, Rect2Cells(r))
    ensures ReadRect2At(buf, pos) == Step(Ok(r), pos + 32)
  {
    var xy := Vec2(r.x, r.y);
    var wh := Vec2(r.width, r.height);
    assert Rect2Cells(r) == Vector2Cells(xy) + Vector2Cells(wh);
    HoldsAtSplit(buf, pos, Vector2Cells(xy), Vector2Cells(wh));
    ReadVector2OfCells(buf, pos, xy);
    ReadVector2OfCells(buf, pos + 16, wh);
  }

  lemma ReadStringsOfCells(buf: seq<Octet>, pos: nat, v: seq<string>)
    requires AllByteStrings(v) && (forall i :: 0 <= i < |v| ==> |v[i]| < TWO32)
    requires HoldsAt(buf, pos, Flatten(v, StringCells))
    ensures ReadListAt(buf, pos, |v|, ReadStringAt) == Step(Ok(v), pos + |Flatten(v, StringCells)|)
  {
    forall i | 0 <= i < |v|
      ensures ReadsBack(ReadStringAt, StringCells, v[i])
    {
      forall b: seq<Octet>, p: nat | HoldsAt(b, p, StringCells(v[i]))
        ensures ReadStringAt(b, p) == Step(Ok(v[i]), p + |StringCells(v[i])|)
      {
        ReadStringOfCells(b, p, v[i]);
      }
    }
    ReadListOfCells(buf, pos, v, ReadStringAt, StringCells);
  }

  lemma AppendAssoc(a: seq<Octet>, b: seq<Octet>, c: seq<Octet>)
    ensures a + b + c == a + (b + c)
  {
  }

  lemma ReadStringArrayOfCells(buf: seq<Octet>, pos: nat, v: seq<string>)
    requires AllByteStrings(v) && (forall i :: 0 <= i < |v| ==> |v[i]| < TWO32) && |v| < TWO64
    requires HoldsAt(buf, pos, StringArrayCells(v))
    ensures ReadStringArrayAt(buf, pos) == Step(Ok(v), pos + |StringArrayCells(v)|)
  {
    HoldsAtSplit(buf, pos, IntCells(SIZE_T, |v| % TWO64), Flatten(v, StringCells));
    ReadCountOfCells(buf, pos, |v|);
    ReadStringsOfCells(buf, pos + 8, v);
  }

  lemma ReadCountOfCells(buf: seq<Octet>, pos: nat, n: nat)
    requires n < TWO64 && HoldsAt(buf, pos, IntCells(SIZE_T, n % TWO64))
    ensures ReadIntAt(buf, pos, SIZE_T) == Step(Ok(n), pos + 8)
  {
    assert SIZE_T.Holds(n) && n % TWO64 == n by {
      Pow256Values();
    }
    ReadIntOfCells(buf, pos, SIZE_T, n);
  }

  /** A string longer than 2^32 - 1 bytes is announced with its length mod 2^32, so the
      reader returns only a prefix of it. */
  lemma LongStringTruncated(buf: seq<Octet>, pos: nat, s: string)
    requires IsByteString(s) && |s| >= TWO32 && HoldsAt(buf, pos, StringCells(s))
    ensures ReadStringAt(buf, pos).result.Ok?
    ensures ReadStringAt(buf, pos).result.value == s[..|s| % TWO32]
  {
    var n := |s| % TWO32;
    HoldsAtSplit(buf, pos, LengthCells(|s|), Raws(StringBytes(s)));
    ReadLengthOfCells(buf, pos, |s|);
    var p := pos + 4;
    ReadCountedAfterLength(buf, pos, n, ErrStringOverflow);
    assert buf[p..p + n] == Raws(StringBytes(s))[..n];
    StringOfRawsPrefix(s, n);
  }

  // ---------------------------------------------------------------------------
  // The codec object
  // ---------------------------------------------------------------------------

  class PacketCodec {
    var buffer: seq<Octet>
    var readPos: nat

    /** `PacketCodec()`. */
    constructor()
      ensures buffer == [] && readPos == 0
    {
      buffer := [];
      readPos := 0;
    }

    /** `PacketCodec(data)`: reading starts at the front of `data`. */
    constructor FromData(data: seq<Octet>)
      ensures buffer == data && readPos == 0
    {
      buffer := data;
      readPos := 0;
    }

    function Data(): (d: seq<Octet>)
      reads this
      ensures |d| == Size()
    {
      buffer
    }

    function Size(): nat
      reads this
    {
      |buffer|
    }

    method Reset()
      modifies this
      ensures buffer == [] && readPos == 0
    {
      buffer := [];
      readPos := 0;
    }

    method ResetRead()
      modifies this
      ensures buffer == old(buffer) && readPos == 0
    {
      readPos := 0;
    }

    /** `SetBuffer`: replaces the bytes and leaves the cursor where it was. */
    method SetBuffer(buf: seq<Octet>)
      modifies this
      ensures buffer == buf && readPos == old(readPos)
    {
      buffer := buf;
    }

    // --- writers: append, never move the cursor ---

    method WriteInt(kind: IntKind, v: int)
      modifies this
      ensures buffer == old(buffer) + IntCells(kind, v) && readPos == old(readPos)
    {
      buffer := buffer + IntCells(kind, v);
    }

    method WriteBool(b: bool)
      modifies this
      ensures buffer == old(buffer) + BoolCells(b) && readPos == old(readPos)
    {
      buffer := buffer + BoolCells(b);
    }

    /** `WriteFloat` (width 4), `WriteDouble` and `Write<double>` (width 8). */
    method WriteReal(x: real, width: nat)
      modifies this
      ensures buffer == old(buffer) + RealCells(x, width) && readPos == old(readPos)
    {
      buffer := buffer + RealCells(x, width);
    }

    method WriteString(s: string)
      modifies this
      ensures buffer == old(buffer) + StringCells(s) && readPos == old(readPos)
    {
      WriteInt(U32, |s| % TWO32);
      buffer := buffer + Raws(StringBytes(s));
    }

    method WriteBytes(data: seq<Byte>)
      modifies this
      ensures buffer == old(buffer) + BytesCells(data) && readPos == old(readPos)
    {
      WriteInt(U32, |data| % TWO32);
      buffer := buffer + Raws(data);
    }

    method WriteUuid(u: UUID)
      modifies this
      ensures buffer == old(buffer) + UuidCells(u) && readPos == old(readPos)
    {
      WriteBytes(u.data);
    }

    method WriteVector2(v: Vec2)
      modifies this
      ensures buffer == old(buffer) + Vector2Cells(v) && readPos == old(readPos)
    {
      WriteReal(v.x, DOUBLE);
      WriteReal(v.y, DOUBLE);
    }

    method WriteVector3(v: Vec3)
      modifies this
      ensures buffer == old(buffer) + Vector3Cells(v) && readPos == old(readPos)
    {
      WriteReal(v.x, DOUBLE);
      WriteReal(v.y, DOUBLE);
      WriteReal(v.z, DOUBLE);
    }

    method WriteStringArray(v: seq<string>)
      modifies this
      ensures buffer == old(buffer) + StringArrayCells(v) && readPos == old(readPos)
    {
      WriteInt(SIZE_T, |v| % TWO64);
      WriteStrings(v);
      AppendAssoc(old(buffer), IntCells(SIZE_T, |v| % TWO64), Flatten(v, StringCells));
    }

    /** The loop of `WriteString` calls inside `WriteStringArray`. */
    method WriteStrings(v: seq<string>)
      modifies this
      ensures buffer == old(buffer) + Flatten(v, StringCells) && readPos == old(readPos)
    {
      for i := 0 to |v|
        invariant buffer == old(buffer) + Flatten(v[..i], StringCells)
        invariant readPos == old(readPos)
      {
        FlattenSnoc(v, i, StringCells);
        WriteString(v[i]);
        AppendAssoc(old(buffer), Flatten(v[..i], StringCells), StringCells(v[i]));
      }
      assert v[..|v|] == v;
    }

    method WriteRect2(r: Rect2)
      modifies this
      ensures buffer == old(buffer) + Rect2Cells(r) && readPos == old(readPos)
    {
      WriteReal(r.x, DOUBLE);
      WriteReal(r.y, DOUBLE);
      WriteReal(r.width, DOUBLE);
      WriteReal(r.height, DOUBLE);
    }

    // --- readers: never change the bytes; move the cursor as the functions say ---

    method ReadInt(kind: IntKind) returns (r: Result<int>)
      modifies this
      ensures buffer == old(buffer)
      ensures Step(r, readPos) == ReadIntAt(buffer, old(readPos), kind)
    {
      if readPos + kind.width > |buffer| {
        return Err(ErrInsufficient);
      }
      r := Ok(IntOfCells(buffer[readPos..readPos + kind.width], kind));
      readPos := readPos + kind.width;
    }

    method ReadBool() returns (r: Result<bool>)
      modifies this
      ensures buffer == old(buffer)
      ensures Step(r, readPos) == ReadBoolAt(buffer, old(readPos))
    {
      if readPos + 1 > |buffer| {
        return Err(ErrInsufficient);
      }
      r := Ok(BoolOfCells(buffer[readPos..readPos + 1]));
      readPos := readPos + 1;
    }

    method ReadReal(width: nat) returns (r: Result<real>)
      modifies this
      ensures buffer == old(buffer)
      ensures Step(r, readPos) == ReadRealAt(buffer, old(readPos), width)
    {
      if readPos + width > |buffer| {
        return Err(ErrInsufficient);
      }
      r := Ok(RealOfCells(buffer[readPos..readPos + width], width));
      readPos := readPos + width;
    }

    method ReadCounted(overflow: string) returns (r: Result<seq<Byte>>)
      modifies this
      ensures buffer == old(buffer)
      ensures Step(r, readPos) == ReadCountedAt(buffer, old(readPos), overflow)
    {
      var len := ReadInt(U32);
      if len.Err? {
        return Err(len.error);
      }
      var n: nat := len.value;
      if readPos + n > |buffer| {
        return Err(overflow);
      }
      r := Ok(BytesOf(buffer[readPos..readPos + n]));
      readPos := readPos + n;
    }

    method ReadString() returns (r: Result<string>)
      modifies this
      ensures buffer == old(buffer)
      ensures Step(r, readPos) == ReadStringAt(buffer, old(readPos))
    {
      var b := ReadCounted(ErrStringOverflow);
      if b.Err? {
        return Err(b.error);
      }
      r := Ok(StringOfBytes(b.value));
    }

    method ReadBytes() returns (r: Result<seq<Byte>>)
      modifies this
      ensures buffer == old(buffer)
      ensures Step(r, readPos) == ReadBytesAt(buffer, old(readPos))
    {
      r := ReadCounted(ErrBytesOverflow);
    }

    method ReadUuid() returns (r: Result<UUID>)
      modifies this
      ensures buffer == old(buffer)
      ensures Step(r, readPos) == ReadUuidAt(buffer, old(readPos))
    {
      var b := ReadBytes();
      if b.Err? {
        return Err(b.error);
      }
      if |b.value| != 16 {
        return Err(ErrUuidLength);
      }
      r := Ok(UUID(b.value));
    }

    method ReadVector2() returns (r: Result<Vec2>)
      modifies this
      ensures buffer == old(buffer)
      ensures Step(r, readPos) == ReadVector2At(buffer, old(readPos))
    {
      var x := ReadReal(DOUBLE);
      if x.Err? {
        return Err(x.error);
      }
      var y := ReadReal(DOUBLE);
      if y.Err? {
        return Err(y.error);
      }
      r := Ok(Vec2(x.value, y.value));
    }

    method ReadVector3() returns (r: Result<Vec3>)
      modifies this
      ensures buffer == old(buffer)
      ensures Step(r, readPos) == ReadVector3At(buffer, old(readPos))
    {
      var x := ReadReal(DOUBLE);
      if x.Err? {
        return Err(x.error);
      }
      var y := ReadReal(DOUBLE);
      if y.Err? {
        return Err(y.error);
      }
      var z := ReadReal(DOUBLE);
      if z.Err? {
        return Err(z.error);
      }
      r := Ok(Vec3(x.value, y.value, z.value));
    }

    method ReadRect2() returns (r: Result<Rect2>)
      modifies this
      ensures buffer == old(buffer)
      ensures Step(r, readPos) == ReadRect2At(buffer, old(readPos))
    {
      var x := ReadReal(DOUBLE);
      if x.Err? {
        return Err(x.error);
      }
      var y := ReadReal(DOUBLE);
      if y.Err? {
        return Err(y.error);
      }
      var w := ReadReal(DOUBLE);
      if w.Err? {
        return Err(w.error);
      }
      var h := ReadReal(DOUBLE);
      if h.Err? {
        return Err(h.error);
      }
      r := Ok(Rect2(x.value, y.value, w.value, h.value));
    }

    /** `ReadStringArray`: the count, then that many strings. */
    method ReadStringArray() returns (r: Result<seq<string>>)
      modifies this
      ensures buffer == old(buffer)
      ensures Step(r, readPos) == ReadStringArrayAt(buffer, old(readPos))
    {
      var count := ReadInt(SIZE_T);
      if count.Err? {
        return Err(count.error);
      }
      r := ReadStrings(count.value);
    }

    /** The loop of `ReadString` calls inside `ReadStringArray`. */
    method ReadStrings(n: nat) returns (r: Result<seq<string>>)
      modifies this
      ensures buffer == old(buffer)
      ensures Step(r, readPos) == ReadListAt(buffer, old(readPos), n, ReadStringAt)
    {
      var out: seq<string> := [];
      ghost var spec := ReadListAt(buffer, readPos, n, ReadStringAt);
      PrependNothing(spec);
      for i := 0 to n
        invariant buffer == old(buffer)
        invariant spec == Prepend(out, ReadListAt(buffer, readPos, n - i, ReadStringAt))
      {
        ghost var before := readPos;
        var s := ReadString();
        ReadListStep(buffer, before, n - i, out, ReadStringAt);
        if s.Err? {
          return Err(s.error);
        }
        out := out + [s.value];
      }
      assert out + [] == out;
      r := Ok(out);
    }
  }

  /** Writing a sequence of values into a fresh codec and reading them back in the
      same order returns each value, and the cursor ends at the end of the buffer. */
  lemma WriteThenRead(i: int, s: string, v: Vec2, u: UUID)
    requires I32.Holds(i) && IsByteString(s) && |s| < TWO32
    ensures var buf := IntCells(I32, i) + StringCells(s) + Vector2Cells(v) + UuidCells(u);
      var a := ReadIntAt(buf, 0, I32);
      var b := ReadStringAt(buf, a.pos);
      var c := ReadVector2At(buf, b.pos);
      var d := ReadUuidAt(buf, c.pos);
      a.result == Ok(i) && b.result == Ok(s) && c.result == Ok(v) && d.result == Ok(u) &&
      d.pos == |buf|
  {
    var c1 := IntCells(I32, i);
    var c2 := StringCells(s);
    var c3 := Vector2Cells(v);
    var c4 := UuidCells(u);
    var buf := c1 + c2 + c3 + c4;
    assert HoldsAt(buf, 0, c1 + c2 + c3 + c4);
    HoldsAtSplit(buf, 0, c1 + c2 + c3, c4);
    HoldsAtSplit(buf, 0, c1 + c2, c3);
    HoldsAtSplit(buf, 0, c1, c2);
    Pow256Values();
    ReadIntOfCells(buf, 0, I32, i);
    ReadStringOfCells(buf, 4, s);
    ReadVector2OfCells(buf, 4 + |c2|, v);
    ReadUuidOfCells(buf, 4 + |c2| + 16, u);
  }
}
