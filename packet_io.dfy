/** `PacketWriter` and `PacketReader` (Common/Network/PacketIO.h): a growing buffer with
    big-endian, host-order, varint and varint-length-prefixed string writers, and a
    cursor over a view with the matching readers.

    What a reader does at offset `off` of view `view` is the function `ReadXAt(view,
    off)`, a `Step` holding the value or the exception's message and the offset left
    behind; each reader method is proved to do exactly that, and the round trips are
    lemmas about the functions. */
module PacketStreams {
  import opened Arith
  import opened Wrappers
  import opened VarInt
  import opened Octets
  import ByteBuffers

  // ---------------------------------------------------------------------------
  // What the writers append
  // ---------------------------------------------------------------------------

  /** `writeBE<T>`: sizeof(T) bytes, most significant first. */
  function BECells(kind: IntKind, v: int): (r: seq<Octet>)
    ensures |r| == kind.width
  {
    Raws(BEBytes(Pattern(v, kind.width), kind.width))
  }

  /** A base-128 varint. */
  function VarCells(u: nat): (r: seq<Octet>)
    ensures 1 <= |r|
  {
    Raws(Leb128(u))
  }

  /** `writeString`: the length as a varuint32 (the size cast to 32 bits), then the
      bytes. */
  function WireStringCells(s: string): (r: seq<Octet>)
    ensures |r| == |VarCells(|s| % TWO32)| + |s|
  {
    VarCells(|s| % TWO32) + Raws(StringBytes(s))
  }

  class PacketWriter {
    var buf: seq<Octet>

    constructor()
      ensures buf == []
    {
      buf := [];
    }

    method WriteBE(kind: IntKind, value: int)
      requires kind.Valid() && kind.Holds(value)
      modifies this
      ensures buf == old(buf) + BECells(kind, value)
    {
      var tmp := VarInt.WriteBE([], kind, value);
      buf := buf + Raws(tmp);
    }

    /** `writeRaw<T>` for an integer type: its host-order bytes. */
    method WriteRawInt(kind: IntKind, value: int)
      modifies this
      ensures buf == old(buf) + IntCells(kind, value)
    {
      buf := buf + IntCells(kind, value);
    }

    /** `writeRaw<T>` for a floating-point type of `width` bytes. */
    method WriteRawReal(x: real, width: nat)
      modifies this
      ensures buf == old(buf) + RealCells(x, width)
    {
      buf := buf + RealCells(x, width);
    }

    method WriteVarUInt32(v: int)
      requires U32.Holds(v)
      modifies this
      ensures buf == old(buf) + VarCells(v)
    {
      Pow256Values();
      var tmp := EncodeVarUInt64(v);
      buf := buf + Raws(tmp);
    }

    method WriteVarUInt64(v: int)
      requires U64.Holds(v)
      modifies this
      ensures buf == old(buf) + VarCells(v)
    {
      Pow256Values();
      var tmp := EncodeVarUInt64(v);
      buf := buf + Raws(tmp);
    }

    /** `writeVarInt32`: ZigZag, then the unsigned varint. */
    method WriteVarInt32(v: int)
      requires I32.Holds(v)
      modifies this
      ensures buf == old(buf) + VarCells(ZigZagEncode(v))
    {
      ZigZagRanges(v, 0);
      WriteVarUInt32(ZigZagEncode(v));
    }

    method WriteVarInt64(v: int)
      requires I64.Holds(v)
      modifies this
      ensures buf == old(buf) + VarCells(ZigZagEncode(v))
    {
      ZigZagRanges(v, 0);
      WriteVarUInt64(ZigZagEncode(v));
    }

    method WriteString(s: string)
      modifies this
      ensures buf == old(buf) + WireStringCells(s)
    {
      Pow256Values();
      ghost var start := buf;
      WriteVarUInt32(|s| % TWO32);
      if |s| != 0 {
        buf := buf + Raws(StringBytes(s));
      }
      assert buf == start + VarCells(|s| % TWO32) + Raws(StringBytes(s));
    }
  }

  // ---------------------------------------------------------------------------
  // What the readers do
  // ---------------------------------------------------------------------------

  const ErrReadBE := "readBE overflow"
  const ErrReadRaw := "readRaw overflow"
  const ErrStringOverflow := "string overflow"

  /** A decoder's `(value, bytes consumed)` as a step from `off`; a decoder that throws
      leaves the offset where it was. */
  function Advance<T>(r: Result<(T, nat)>, off: nat): Step<T> {
    if r.Ok? then Step(Ok(r.value.0), off + r.value.1) else Step(Err(r.error), off)
  }

  function ReadBEAt(view: seq<Octet>, off: nat, kind: IntKind): (s: Step<int>)
    requires off <= |view|
    ensures s.pos <= |view|
  {
    if off + kind.width > |view| then Step(Err(ErrReadBE), off)
    else Step(ReadBESpec(BytesOf(view[off..]), kind), off + kind.width)
  }

  function ReadRawIntAt(view: seq<Octet>, off: nat, kind: IntKind): (s: Step<int>)
    requires off <= |view|
    ensures s.pos <= |view|
  {
    if off + kind.width > |view| then Step(Err(ErrReadRaw), off)
    else Step(Ok(IntOfCells(view[off..off + kind.width], kind)), off + kind.width)
  }

  function ReadRawRealAt(view: seq<Octet>, off: nat, width: nat): (s: Step<real>)
    requires off <= |view|
    ensures s.pos <= |view|
  {
    if off + width > |view| then Step(Err(ErrReadRaw), off)
    else Step(Ok(RealOfCells(view[off..off + width], width)), off + width)
  }

  function ReadVarUInt64At(view: seq<Octet>, off: nat): (s: Step<int>)
    requires off <= |view|
    ensures s.pos <= |view|
  {
    DecodeOutcome(BytesOf(view[off..]));
    Advance(DecodeVarUInt64Spec(BytesOf(view[off..])), off)
  }

  function ReadVarUInt32At(view: seq<Octet>, off: nat): (s: Step<int>)
    requires off <= |view|
    ensures s.pos <= |view|
  {
    DecodeOutcome(BytesOf(view[off..]));
    Advance(DecodeVarUInt32(BytesOf(view[off..])), off)
  }

  function ReadVarInt32At(view: seq<Octet>, off: nat): (s: Step<int>)
    requires off <= |view|
    ensures s.pos <= |view|
  {
    DecodeOutcome(BytesOf(view[off..]));
    Advance(DecodeVarInt32(BytesOf(view[off..])), off)
  }

  /** `readVarInt64`: the unsigned varint, then ZigZag decoding. */
  function ReadVarInt64At(view: seq<Octet>, off: nat): (s: Step<int>)
    requires off <= |view|
    ensures s.pos <= |view|
  {
    var u := ReadVarUInt64At(view, off);
    if u.result.Ok? then Step(Ok(ZigZagDecode(u.result.value)), u.pos) else u
  }

  /** `readString`: the varuint32 length, then that many bytes. The length has already
      been consumed when the bytes turn out to be missing. */
  function ReadStringAt(view: seq<Octet>, off: nat): (s: Step<string>)
    requires off <= |view|
    ensures s.pos <= |view|
  {
    var len := ReadVarUInt32At(view, off);
    if len.result.Err? then Step(Err(len.result.error), len.pos)
    else if len.pos + len.result.value > |view| then Step(Err(ErrStringOverflow), len.pos)
    else
      var n := len.result.value;
      Step(Ok(StringOfBytes(BytesOf(view[len.pos..len.pos + n]))), len.pos + n)
  }

  class PacketReader {
    const view: seq<Octet>
    var offset: nat

    /** The cursor never passes the end of the view. */
    predicate Valid()
      reads this
    {
      offset <= |view|
    }

    constructor(v: ByteBuffers.ByteView)
      ensures view == v.data && offset == 0 && Valid()
    {
      view := v.data;
      offset := 0;
    }

    /** `eof()`. */
    function Eof(): (r: bool)
      reads this
      requires Valid()
      ensures r <==> offset == |view|
    {
      offset >= |view|
    }

    method ReadBE(kind: IntKind) returns (r: Result<int>)
      requires Valid() && kind.Valid()
      modifies this
      ensures Valid()
      ensures Step(r, offset) == ReadBEAt(view, old(offset), kind)
    {
      if offset + kind.width > |view| {
        return Err(ErrReadBE);
      }
      r := VarInt.ReadBE(BytesOf(view[offset..]), kind);
      offset := offset + kind.width;
    }

    method ReadRawInt(kind: IntKind) returns (r: Result<int>)
      requires Valid()
      modifies this
      ensures Valid()
      ensures Step(r, offset) == ReadRawIntAt(view, old(offset), kind)
    {
      if offset + kind.width > |view| {
        return Err(ErrReadRaw);
      }
      r := Ok(IntOfCells(view[offset..offset + kind.width], kind));
      offset := offset + kind.width;
    }

    method ReadRawReal(width: nat) returns (r: Result<real>)
      requires Valid()
      modifies this
      ensures Valid()
      ensures Step(r, offset) == ReadRawRealAt(view, old(offset), width)
    {
      if offset + width > |view| {
        return Err(ErrReadRaw);
      }
      r := Ok(RealOfCells(view[offset..offset + width], width));
      offset := offset + width;
    }

    method ReadVarUInt64() returns (r: Result<int>)
      requires Valid()
      modifies this
      ensures Valid()
      ensures Step(r, offset) == ReadVarUInt64At(view, old(offset))
    {
      var d := DecodeVarUInt64(BytesOf(view[offset..]));
      if d.Err? {
        return Err(d.error);
      }
      DecodeOutcome(BytesOf(view[offset..]));
      offset := offset + d.value.1;
      r := Ok(d.value.0);
    }

    method ReadVarUInt32() returns (r: Result<int>)
      requires Valid()
      modifies this
      ensures Valid()
      ensures Step(r, offset) == ReadVarUInt32At(view, old(offset))
    {
      var d := DecodeVarUInt64(BytesOf(view[offset..]));
      if d.Err? {
        return Err(d.error);
      }
      if d.value.0 > UINT32_MAX {
        return Err("varuint32 overflow");
      }
      DecodeOutcome(BytesOf(view[offset..]));
      offset := offset + d.value.1;
      r := Ok(d.value.0);
    }

    method ReadVarInt32() returns (r: Result<int>)
      requires Valid()
      modifies this
      ensures Valid()
      ensures Step(r, offset) == ReadVarInt32At(view, old(offset))
    {
      var u := ReadVarUInt32();
      if u.Err? {
        return Err(u.error);
      }
      r := Ok(ZigZagDecode(u.value));
    }

    method ReadVarInt64() returns (r: Result<int>)
      requires Valid()
      modifies this
      ensures Valid()
      ensures Step(r, offset) == ReadVarInt64At(view, old(offset))
    {
      var u := ReadVarUInt64();
      if u.Err? {
        return Err(u.error);
      }
      r := Ok(ZigZagDecode(u.value));
    }

    method ReadString() returns (r: Result<string>)
      requires Valid()
      modifies this
      ensures Valid()
      ensures Step(r, offset) == ReadStringAt(view, old(offset))
    {
      var len := ReadVarUInt32();
      if len.Err? {
        return Err(len.error);
      }
      var n: nat := len.value;
      if offset + n > |view| {
        return Err(ErrStringOverflow);
      }
      r := Ok(StringOfBytes(BytesOf(view[offset..offset + n])));
      offset := offset + n;
    }
  }

  // ---------------------------------------------------------------------------
  // Round trips: a reader that finds a writer's octets returns the written value
  // ---------------------------------------------------------------------------

  lemma ReadBEOfCells(view: seq<Octet>, off: nat, kind: IntKind, v: int)
    requires kind.Valid() && kind.Holds(v) && HoldsAt(view, off, BECells(kind, v))
    ensures ReadBEAt(view, off, kind) == Step(Ok(v), off + kind.width)
  {
    var bytes := BEBytes(Pattern(v, kind.width), kind.width);
    BytesAfter(view, off, bytes);
    ReadBEOfWriteBE(v, kind, BytesOf(view[off + kind.width..]));
  }

  lemma ReadRawIntOfCells(view: seq<Octet>, off: nat, kind: IntKind, v: int)
    requires kind.Valid() && kind.Holds(v) && HoldsAt(view, off, IntCells(kind, v))
    ensures ReadRawIntAt(view, off, kind) == Step(Ok(v), off + kind.width)
  {
    IntOfIntCells(kind, v);
  }

  lemma ReadRawRealOfCells(view: seq<Octet>, off: nat, x: real, width: nat)
    requires width > 0 && HoldsAt(view, off, RealCells(x, width))
    ensures ReadRawRealAt(view, off, width) == Step(Ok(x), off + width)
  {
    RealOfRealCells(x, width);
  }

  lemma ReadVarUInt64OfCells(view: seq<Octet>, off: nat, v: nat)
    requires v < TWO64 && HoldsAt(view, off, VarCells(v))
    ensures ReadVarUInt64At(view, off) == Step(Ok(v), off + |VarCells(v)|)
  {
    BytesAfter(view, off, Leb128(v));
    DecodeOfEncode(v, BytesOf(view[off + |Leb128(v)|..]));
  }

  lemma ReadVarUInt32OfCells(view: seq<Octet>, off: nat, v: nat)
    requires v <= UINT32_MAX && HoldsAt(view, off, VarCells(v))
    ensures ReadVarUInt32At(view, off) == Step(Ok(v), off + |VarCells(v)|)
  {
    BytesAfter(view, off, Leb128(v));
    DecodeVarUInt32OfEncode(v, BytesOf(view[off + |Leb128(v)|..]));
  }

  lemma ReadVarInt32OfCells(view: seq<Octet>, off: nat, v: int)
    requires I32.Holds(v) && HoldsAt(view, off, VarCells(ZigZagEncode(v)))
    ensures ReadVarInt32At(view, off) == Step(Ok(v), off + |VarCells(ZigZagEncode(v))|)
  {
    var u := ZigZagEncode(v);
    BytesAfter(view, off, Leb128(u));
    DecodeVarInt32OfEncode(v, BytesOf(view[off + |Leb128(u)|..]));
  }

  /** `writeVarInt64` then `readVarInt64` gives the value back through ZigZag. */
  lemma ReadVarInt64OfCells(view: seq<Octet>, off: nat, v: int)
    requires I64.Holds(v) && HoldsAt(view, off, VarCells(ZigZagEncode(v)))
    ensures ReadVarInt64At(view, off) == Step(Ok(v), off + |VarCells(ZigZagEncode(v))|)
  {
    ZigZagRanges(v, 0);
    Pow256Values();
    ReadVarUInt64OfCells(view, off, ZigZagEncode(v));
    ZigZagRoundTrip(v, 0);
  }

  lemma ReadStringOfCells(view: seq<Octet>, off: nat, s: string)
    requires IsByteString(s) && |s| < TWO32 && HoldsAt(view, off, WireStringCells(s))
    ensures ReadStringAt(view, off) == Step(Ok(s), off + |WireStringCells(s)|)
  {
    var n := |s|;
    assert n % TWO32 == n by {
      ModOfSmall(n, TWO32);
    }
    assert n <= UINT32_MAX;
    var len := VarCells(n);
    HoldsAtSplit(view, off, len, Raws(StringBytes(s)));
    ReadVarUInt32OfCells(view, off, n);
    BytesOfSlice(view, off + |len|, StringBytes(s));
    ReadStringOfParts(view, off, s, off + |len|);
  }

  /** A length prefix followed by that many bytes of a byte string. */
  lemma ReadStringOfParts(view: seq<Octet>, off: nat, s: string, p: nat)
    requires IsByteString(s) && off <= |view| && p + |s| <= |view|
    requires ReadVarUInt32At(view, off) == Step(Ok(|s|), p)
    requires BytesOf(view[p..p + |s|]) == StringBytes(s)
    ensures ReadStringAt(view, off) == Step(Ok(s), p + |s|)
  {
    StringRoundTrip(s);
  }

  /** A length prefix with too few bytes behind it: `readString` throws "string
      overflow", and the offset stays past the length it has consumed. */
  lemma StringOverflowKeepsLength(view: seq<Octet>, off: nat, n: nat)
    requires n <= UINT32_MAX && HoldsAt(view, off, VarCells(n))
    requires off + |VarCells(n)| + n > |view|
    ensures ReadStringAt(view, off) == Step(Err(ErrStringOverflow), off + |VarCells(n)|)
  {
    ReadVarUInt32OfCells(view, off, n);
  }

  /** What one writer produced, read by one reader over the whole buffer: a varint64,
      a string and a big-endian u16 come back in order and the reader ends at eof. */
  lemma WriterThenReader(v: int, s: string, h: int)
    requires I64.Holds(v) && IsByteString(s) && |s| < TWO32 && U16.Holds(h)
    ensures var buf := VarCells(ZigZagEncode(v)) + WireStringCells(s) + BECells(U16, h);
      var a := ReadVarInt64At(buf, 0);
      a.result == Ok(v) && a.pos <= |buf| &&
      var b := ReadStringAt(buf, a.pos);
      b.result == Ok(s) && b.pos <= |buf| &&
      var c := ReadBEAt(buf, b.pos, U16);
      c.result == Ok(h) && c.pos == |buf|
  {
    var c1 := VarCells(ZigZagEncode(v));
    var c2 := WireStringCells(s);
    var c3 := BECells(U16, h);
    var buf := c1 + c2 + c3;
    assert HoldsAt(buf, 0, c1 + c2 + c3);
    HoldsAtSplit(buf, 0, c1 + c2, c3);
    HoldsAtSplit(buf, 0, c1, c2);
    var p1, p2 := |c1|, |c1| + |c2|;
    ReadVarInt64OfCells(buf, 0, v);
    assert ReadVarInt64At(buf, 0) == Step(Ok(v), p1);
    ReadStringOfCells(buf, p1, s);
    assert ReadStringAt(buf, p1) == Step(Ok(s), p2);
    ReadBEOfCells(buf, p2, U16, h);
  }
}
