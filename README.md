# NetGame core in Dafny

NetGame is a small C++ client/server 2D game engine. This project models the parts
of it that are sequential and self-contained, and proves properties of them:

- **Continuous collision.** `Sweeps` holds the pairwise sweep tests: the swept
  AABB slab test, the rectangle–circle reduction, the circle–circle quadratic, the
  SAT polygon fallback and the shape dispatcher. `Physics` holds the world's physics
  step, which is the `World::Tick` substep loop with its earliest-contact search and
  the inelastic `ResolveCollision`. `Collisions` holds the collision-group table and
  `GMath` the vector and rectangle arithmetic.
- **Wire layer.** `VarInt` holds big-endian integers, LEB128 varints and ZigZag.
  `Octets` and `ByteBuffers` hold the byte containers and `Codec` the `PacketCodec`
  cursor buffer. `PacketStreams` holds `PacketWriter`/`PacketReader` and `Layers`
  the codec layer stack. `Framing` holds whole packets and `Protocol` the packet id
  registries and the dispatcher. `Packets` holds the concrete packets.
- **UUIDs.** `Uuid` parses and formats the 8-4-4-4-12 text form of section 3 of
  RFC 4122. It also covers the version and variant fields.
- **Objects and events.**
  - `Shapes` and `Components` hold hitbox shapes and components.
  - `Instances` holds instances with their type-keyed component map and locks.
  - `GameObjects` holds the game object, entity, living-entity and player-entity
    classes.
  - `Worlds` holds the world's object list with its destroy and replication queues.
  - `Players` holds logical players.
  - `Signals` holds the `Signal` listener list with `Connection`.
  - `Input` holds the input bindings, `Commands` the console command parser,
    `Resources` resource locations and `Cameras` the camera visibility tests.

### How values are modelled

- Numbers:
  - `double` and `float` are `real`, so the model reasons about the exact values the
    code computes, without rounding.
  - The IEEE infinities the slab test uses are the `ExtReal` datatype.
  - `sqrt` (and so `Length`/`Normalized`) is a function parameter. A lemma that
    needs something of it says so in its `requires`.
- Objects and values:
  - An object whose fields the C++ code updates in place is a Dafny `class` with
    those fields. Its methods state the new state.
  - Immutable values, such as shapes, packets' field tuples and resource locations,
    are datatypes.
  - Each reader is specified by a function `ReadXAt(buffer, cursor)`. That function
    returns the value or the exception's message, with the cursor left behind, and
    each reading method is proved to do exactly that.
- Buffers:
  - A buffer is a sequence of `Octet`s. Integers occupy the bytes of their host
    (little-endian) form.
  - A `float` or `double` occupies as many octets as its width. The octets remember
    the value, so the buffer has the exact length of the C++ one.
- Callbacks:
  - A `std::function` callback is a number (its slot).
  - Firing a signal appends the slots it ran, with their arguments, to the signal's
    `log`.
  - Which slot a class connects (for instance the world's destroy-queue callback)
    is a parameter.
- Class hierarchies:
  - `typeid`/`dynamic_cast` dispatch over a class hierarchy becomes a datatype tag:
    `Kind` for components, `ObjectClass` for game objects, `PacketClass` for packets
    and the shape constructor for hitbox shapes.
  - The iteration order of a map keyed by type is fixed to `AllKinds`.

Where the code and the comments next to it disagree, the model follows the code:
- The collision-group filter skips a pair of hitboxes when `ShouldCollide` is
  **true** (src/CoreImpl/World.cpp:55).
- Trigger contacts are still resolved physically, because the `continue` in
  src/CoreImpl/World.cpp:111-114 is commented out.
- The circle–circle normal is `cA0 - cB0`, which points from B to A, although the
  comment on SweepResult's normal field says it points from A to B.
- The shape dispatcher, and so the physics step, uses the box and rectangle–circle
  sweeps as written (src/Util/Physics/RectSwept.h:232-251). The findings below show
  where those differ from the evident intent. `Sweeps.ShapeSweepCorrected`
  dispatches to the corrected sweeps instead.
- `InsideCamera(object)` is the complement of the outside test as written
  (src/Client/Render/Camera.h:73-75). `Cameras.Camera.InsideObjectCorrected` uses
  the corrected test.

## Model

| member | source | states |
|---|---|---|
| GMath.LtIsStrictTotalOrder | src/Util/Physics/RectSwept.h:37-43 | `<` on doubles with the two infinities is a strict total order |
| GMath.EMaxEMinBounds | src/Util/Physics/RectSwept.h:42-43 | `std::max` returns one of its arguments and bounds both from above; `std::min` one that bounds both from below |
| GMath.AddSubInverse | src/Util/GMath.h:18-46 | `operator+` and `operator-` undo each other, subtracting is adding the negation, unary minus is scaling by -1, and addition commutes |
| GMath.DotBilinear | src/Util/GMath.h:48-62 | `Dot` is symmetric and linear in each argument; `LengthSquared` is the dot product with itself and never negative |
| GMath.Normalized | src/Util/GMath.h:55-59 | the zero vector when the length is 0; otherwise a vector that, scaled by the length, gives back the input |
| GMath.NormalizedIsPositiveMultiple | src/Util/GMath.h:51-59 | when the square root is positive on positive numbers, a vector of positive squared length has positive length and normalizes to itself divided by it |
| GMath.ScaledDotMonotone | src/Util/GMath.h:60-62 | projections onto a positive multiple of an axis keep their order |
| GMath.Clamp | src/Util/GMath.h:251-255 | min below min, max above max, the value otherwise, and the result lies in [min, max] whenever min ≤ max |
| GMath.ClampIdempotent | src/Util/GMath.h:251-255 | clamping twice is clamping once |
| GMath.WrapSpecInRange | src/Util/GMath.h:258-264 | for a non-empty range the wrapped value lies in [min, max) |
| GMath.WrapSpecIsModulo | src/Util/GMath.h:258-264 | a value already in [min, max) is kept, and shifting the input by the range does not change the result |
| GMath.WrapSpecOfShifted | src/Util/GMath.h:258-264 | a value a whole number of ranges away from a representative in [min, max) wraps to that representative |
| GMath.Wrap | src/Util/GMath.h:258-264 | the two loops return min for an empty or inverted range, and otherwise the representative in [min, max) that differs from the input by a whole number of ranges |
| GMath.Rect2.Intersection | src/Util/GMath.h:313-320 | the zero rectangle when either overlap extent is negative; otherwise a rectangle of non-negative size inside both inputs |
| GMath.IntersectionHoldsCommonPoints | src/Util/GMath.h:313-320 | every point of both rectangles is in their intersection |
| GMath.Rect2.Translated | src/Util/GMath.h:379-381 | keeps the size, and contains a point exactly when the original contains the point shifted back |
| GMath.Rect2.Expanded | src/Util/GMath.h:395-397 | every edge moves outwards by r |
| GMath.ExpandedIsMinkowskiSquare | src/Util/GMath.h:395-397 | for r ≥ 0 the expanded rectangle holds exactly the points within r, on each axis, of the nearest point of the rectangle |
| GMath.NearPointInExpanded | src/Util/GMath.h:395-397 | a point within r on both axes of a point of the rectangle lies in the expanded rectangle |
| GMath.Rect2.GetOverlap | src/Util/GMath.h:383-393 | (0,0) unless both overlaps are positive; otherwise exactly one component is nonzero, on the axis of smaller overlap (y on ties), equal in size to that overlap and negative exactly when this centre is before the other's |
| GMath.ContainsCorners | src/Util/GMath.h:303-306 | a rectangle of non-negative size contains its four corners, so `Contains` is inclusive on every edge |
| GMath.IntersectsSymmetric | src/Util/GMath.h:308-311 | `Intersects` is symmetric |
| GMath.CommonPointIntersects | src/Util/GMath.h:303-311 | two rectangles with a common point intersect |
| GMath.IntersectsHasCommonPoint | src/Util/GMath.h:303-311 | rectangles of non-negative size intersect exactly when they share a point (the corner of the larger x and y) |
| GMath.CenterIsMidpointOnlyAtOrigin | src/Util/GMath.h:349-354 | the centre as written, (x + width)/2, is the midpoint x + width/2 only when x is 0 (and likewise for y) |
| VarInt.Pattern | src/Common/Network/VarIntEndian.h:18-30 | the bit pattern of a value in a given width is below 256^width |
| VarInt.InterpretPattern | src/Common/Network/VarIntEndian.h:18-30 | reading a value's bit pattern back as the same integer type gives the value |
| VarInt.BEBytes | src/Common/Network/VarIntEndian.h:17-19 | the big-endian form of a pattern has exactly n bytes |
| VarInt.FromBE | src/Common/Network/VarIntEndian.h:28-31 | the value read from n big-endian bytes is below 256^n |
| VarInt.BEBytesIndex | src/Common/Network/VarIntEndian.h:17-19 | byte i of the big-endian form is `(value >> 8*(n-1-i)) & 0xFF` |
| VarInt.FromBEInvertsBEBytes | src/Common/Network/VarIntEndian.h:11-33 | reading the big-endian bytes of a pattern gives the pattern back |
| VarInt.BEBytesInvertsFromBE | src/Common/Network/VarIntEndian.h:11-33 | writing back what was read from bytes gives the same bytes |
| VarInt.WriteBE | src/Common/Network/VarIntEndian.h:11-20 | appends exactly sizeof(T) bytes, most significant first, to the output |
| VarInt.ReadBE | src/Common/Network/VarIntEndian.h:22-33 | fails with "readBE overflow" when fewer than sizeof(T) bytes are available; otherwise the first sizeof(T) bytes read big-endian as a T |
| VarInt.ReadBEOfWriteBE | src/Common/Network/VarIntEndian.h:11-33 | `readBE` of what `writeBE` wrote, whatever follows, gives the value back |
| VarInt.Leb128 | src/Common/Network/VarIntEndian.h:38-46 | the base-128 form is never empty |
| VarInt.EncodeVarUInt64 | src/Common/Network/VarIntEndian.h:38-46 | the loop produces the base-128 form: 7-bit groups, least significant first, all but the last with the high bit set |
| VarInt.Leb128Shape | src/Common/Network/VarIntEndian.h:38-46 | a value below 2^(7k) takes at most k bytes; the last byte is below 128 and every other has the continuation bit |
| VarInt.Leb128Of64Bit | src/Common/Network/VarIntEndian.h:38-46 | a 64-bit value takes between 1 and 10 bytes |
| VarInt.DecodeVarUInt64 | src/Common/Network/VarIntEndian.h:49-63 | the loop computes `DecodeVarUInt64Spec`: the value and bytes consumed, "varuint64 overflow" once the shift reaches 64, "varuint64 truncated" when the bytes run out |
| VarInt.DecodeFromOk | src/Common/Network/VarIntEndian.h:49-63 | a successful decode stops at the first byte below 128, within 10 bytes, and gives a 64-bit value |
| VarInt.DecodeFromErr | src/Common/Network/VarIntEndian.h:49-63 | a failed decode saw only continuation bytes, and fails for overflow exactly when ten of them were there |
| VarInt.DecodeFromLeb128 | src/Common/Network/VarIntEndian.h:38-63 | decoding the base-128 form of v from any position adds v's bits to what was decoded before and consumes exactly its bytes |
| VarInt.DecodeOfEncode | src/Common/Network/VarIntEndian.h:38-63 | decoding an encoded 64-bit value, whatever follows, gives the value and its encoded length |
| VarInt.DecodeOutcome | src/Common/Network/VarIntEndian.h:49-63 | success means the value fits in 64 bits and the consumed bytes are continuation bytes ending in one below 128; failure is overflow exactly when ten or more bytes were available and truncation otherwise |
| VarInt.ZigZagEncode | src/Common/Network/VarIntEndian.h:68-70 | the low bit of the ZigZag form carries the sign: even exactly for non-negative values |
| VarInt.ZigZagDecode | src/Common/Network/VarIntEndian.h:71-73 | decoding gives a non-negative value exactly for an even input |
| VarInt.ZigZagRoundTrip | src/Common/Network/VarIntEndian.h:68-73 | ZigZag decoding inverts encoding in both directions |
| VarInt.ZigZagRanges | src/Common/Network/VarIntEndian.h:68-73 | ZigZag maps 64-bit and 32-bit signed values into the unsigned range of the same width and back, and 0, -1, 1 go to 0, 1, 2 |
| VarInt.Leb128Of32Bit | src/Common/Network/VarIntEndian.h:76-78 | a 32-bit value takes between 1 and 5 bytes, the last without the continuation bit |
| VarInt.EncodeVarUInt32 | src/Common/Network/VarIntEndian.h:76-78 | the widened 64-bit encoding: never empty, and at most five bytes ending without the continuation bit for a 32-bit value |
| VarInt.EncodeVarInt32 | src/Common/Network/VarIntEndian.h:84-86 | ZigZag, then the unsigned encoding: never empty, at most five bytes for a 32-bit signed value |
| VarInt.DecodeVarInt32 | src/Common/Network/VarIntEndian.h:87-90 | succeeds exactly when the unsigned 32-bit decode does and fails with its error; a success is a 32-bit signed value whose ZigZag form is the unsigned value read, with the same length |
| VarInt.DecodeVarUInt32 | src/Common/Network/VarIntEndian.h:79-83 | succeeds with the 64-bit decode's result when it fits in 32 bits and fails with "varuint32 overflow" when it does not |
| VarInt.DecodeVarUInt32OfEncode | src/Common/Network/VarIntEndian.h:76-83 | decoding an encoded 32-bit unsigned value gives it back with its length |
| VarInt.DecodeVarInt32OfEncode | src/Common/Network/VarIntEndian.h:84-90 | decoding an encoded 32-bit signed value gives it back with its length |
| Octets.FromLEInvertsLEBytes | src/Common/Network/PacketCodec.h:35-104 | the host-order (little-endian) bytes that `Write<T>` copies out of a value are read back by `Read<T>` as the same value |
| Octets.LEBytesInvertsFromLE | src/Common/Network/PacketCodec.h:35-104 | copying out the value read from n bytes gives the same n bytes |
| Octets.IntOfIntCells | src/Common/Network/PacketCodec.h:35-104 | an integer of any fixed width and signedness that fits its type is read back unchanged from the bytes written for it |
| Octets.RealOfRealCells | src/Common/Network/PacketCodec.h:59-104 | a float or double is read back unchanged from the bytes written for it |
| Octets.StringBytes | src/Common/Network/PacketCodec.h:42-46 | a string's bytes are its characters taken modulo 256, one per character |
| Octets.StringOfBytes | src/Common/Network/PacketCodec.h:106-114 | the string built from bytes has one character per byte with the byte's value |
| Octets.StringRoundTrip | src/Common/Network/PacketCodec.h:42-114 | a string of byte-sized characters survives conversion to bytes and back |
| Octets.ReadListAt | src/Common/Network/PacketCodec.h:147-155 | reading n items, when it succeeds, gives exactly n items |
| Octets.ReadIntoOk | src/Common/Packets/S2C/ReplicationPacket.h:61-63 | a loop that decodes each list entry in place, when every item reads, leaves each entry from the start index merged with the item read for it |
| Octets.ReadIntoFails | src/Common/Packets/S2C/ReplicationPacket.h:61-63 | a loop that decodes each list entry in place, when an item fails to read, stops at some entry: the entries before it merged, that one updated by the failed read, the later ones untouched |
| Octets.ReadListOfCells | src/Common/Network/PacketCodec.h:78-155 | when each item reads back what was written for it, the concatenated encodings of a list read back as the list, ending just after them |
| ByteBuffers.ByteView.Slice | src/Common/Network/ByteBuffer.h:17-20 | fails exactly when offset + length exceeds the size; otherwise the view of `length` bytes starting at `offset` |
| ByteBuffers.ByteBuffer.constructor | src/Common/Network/ByteBuffer.h:26 | a new buffer is empty |
| ByteBuffers.ByteBuffer.Sized | src/Common/Network/ByteBuffer.h:27 | a sized buffer holds `size` zero bytes |
| ByteBuffers.ByteBuffer.Clear | src/Common/Network/ByteBuffer.h:33 | the buffer becomes empty |
| ByteBuffers.ByteBuffer.Append | src/Common/Network/ByteBuffer.h:35-39 | the buffer grows by `len` bytes, the old bytes are kept and the new tail is the source |
| ByteBuffers.ByteBuffer.AppendView | src/Common/Network/ByteBuffer.h:41 | appending a view appends its bytes |
| ByteBuffers.ByteBuffer.View | src/Common/Network/ByteBuffer.h:46 | the view has the buffer's size and bytes |
| Codec.ReadIntAt | src/Common/Network/PacketCodec.h:94-104 | `Read<T>` fails with "insufficient data for read." exactly when fewer than sizeof(T) bytes remain, leaving the position; otherwise it advances by sizeof(T) |
| Codec.ReadBoolAt | src/Common/Network/PacketCodec.h:94-104 | a bool read fails exactly when no byte remains, otherwise consumes one byte and is true iff that byte is non-zero |
| Codec.ReadRealAt | src/Common/Network/PacketCodec.h:94-104 | a float or double read fails exactly when fewer than its width remain, otherwise advances by its width |
| Codec.ReadCountedAt | src/Common/Network/PacketCodec.h:106-124 | a length-prefixed read, on success, consumes the 4-byte length and exactly that many bytes within the buffer; on failure the position is before or just after the length |
| Codec.ReadStringAt | src/Common/Network/PacketCodec.h:106-114 | a string read gives only byte-sized characters and ends within the buffer |
| Codec.ReadUuidAt | src/Common/Network/PacketCodec.h:126-132 | a UUID read succeeds only with the 16 bytes `ReadBytes` gave, and fails with "invalid UUID byte length." when `ReadBytes` gave any other count |
| Codec.ReadVector2At | src/Common/Network/PacketCodec.h:134-138 | succeeds exactly when 16 bytes remain |
| Codec.ReadVector3At | src/Common/Network/PacketCodec.h:140-145 | succeeds exactly when 24 bytes remain |
| Codec.ReadRect2At | src/Common/Network/PacketCodec.h:157-165 | succeeds exactly when 32 bytes remain |
| Codec.ReadIntOfCells | src/Common/Network/PacketCodec.h:34-104 | an integer written with `Write<T>` is read back with `Read<T>` and the position moves past it |
| Codec.ReadBoolOfCells | src/Common/Network/PacketCodec.h:34-104 | a bool written is read back |
| Codec.ReadRealOfCells | src/Common/Network/PacketCodec.h:59-104 | a float or double written is read back |
| Codec.ReadCountedOfCells | src/Common/Network/PacketCodec.h:42-124 | a length-prefixed byte string shorter than 2^32 is read back whole |
| Codec.ReadCountedAfterLength | src/Common/Network/PacketCodec.h:106-124 | once the length n has been read and n bytes remain, the read gives exactly those n bytes |
| Codec.ReadLengthOfCells | src/Common/Network/PacketCodec.h:42-107 | the length prefix reads back as the size truncated to 32 bits, which is the size itself below 2^32 |
| Codec.ReadStringOfCells | src/Common/Network/PacketCodec.h:42-114 | `ReadString` inverts `WriteString` for strings shorter than 2^32 |
| Codec.ReadBytesOfCells | src/Common/Network/PacketCodec.h:49-124 | `ReadBytes` inverts `WriteBytes` for arrays shorter than 2^32 |
| Codec.ReadUuidOfCells | src/Common/Network/PacketCodec.h:55-132 | `ReadUUID` inverts `WriteUUID` |
| Codec.ReadVector2OfCells | src/Common/Network/PacketCodec.h:67-138 | `ReadVector2` inverts `WriteVector2` |
| Codec.ReadVector3OfCells | src/Common/Network/PacketCodec.h:72-145 | `ReadVector3` inverts `WriteVector3` |
| Codec.ReadRect2OfCells | src/Common/Network/PacketCodec.h:84-165 | `ReadRect2` inverts `WriteRect2` |
| Codec.ReadStringsOfCells | src/Common/Network/PacketCodec.h:80-152 | the strings written one after another are read back one after another |
| Codec.ReadStringArrayOfCells | src/Common/Network/PacketCodec.h:78-155 | `ReadStringArray` inverts `WriteStringArray` |
| Codec.ReadCountOfCells | src/Common/Network/PacketCodec.h:79-148 | the size_t count is read back unchanged |
| Codec.LongStringTruncated | src/Common/Network/PacketCodec.h:42-114 | a string of 2^32 or more characters reads back as its prefix of length size mod 2^32, because the length is cast to uint32_t |
| Codec.PacketCodec.constructor | src/Common/Network/PacketCodec.h:17-20 | a new codec is empty and reads from position 0 |
| Codec.PacketCodec.FromData | src/Common/Network/PacketCodec.h:21 | a codec over data holds the data and reads from position 0 |
| Codec.PacketCodec.Data | src/Common/Network/PacketCodec.h:23-24 | the data has `Size()` bytes |
| Codec.PacketCodec.Reset | src/Common/Network/PacketCodec.h:25 | empties the buffer and rewinds |
| Codec.PacketCodec.ResetRead | src/Common/Network/PacketCodec.h:26 | rewinds and keeps the buffer |
| Codec.PacketCodec.SetBuffer | src/Common/Network/PacketCodec.h:29 | replaces the buffer and keeps the read position |
| Codec.PacketCodec.WriteInt | src/Common/Network/PacketCodec.h:34-39 | appends the value's sizeof(T) bytes, read position unchanged |
| Codec.PacketCodec.WriteBool | src/Common/Network/PacketCodec.h:34-39 | appends one byte for the bool |
| Codec.PacketCodec.WriteReal | src/Common/Network/PacketCodec.h:59-65 | appends the float or double's bytes |
| Codec.PacketCodec.WriteString | src/Common/Network/PacketCodec.h:42-46 | appends a 32-bit length and the characters |
| Codec.PacketCodec.WriteBytes | src/Common/Network/PacketCodec.h:49-53 | appends a 32-bit length and the bytes |
| Codec.PacketCodec.WriteUuid | src/Common/Network/PacketCodec.h:55-57 | appends the UUID's 16 bytes as a byte array |
| Codec.PacketCodec.WriteVector2 | src/Common/Network/PacketCodec.h:67-70 | appends x then y as doubles |
| Codec.PacketCodec.WriteVector3 | src/Common/Network/PacketCodec.h:72-76 | appends x, y, z as doubles |
| Codec.PacketCodec.WriteStringArray | src/Common/Network/PacketCodec.h:78-82 | appends a size_t count and each string in order |
| Codec.PacketCodec.WriteStrings | src/Common/Network/PacketCodec.h:80-81 | the loop appends the strings' encodings in order |
| Codec.PacketCodec.WriteRect2 | src/Common/Network/PacketCodec.h:84-89 | appends x, y, width, height as doubles |
| Codec.PacketCodec.ReadInt | src/Common/Network/PacketCodec.h:94-104 | result and new position are those of `ReadIntAt` at the old position; the buffer is unchanged |
| Codec.PacketCodec.ReadBool | src/Common/Network/PacketCodec.h:94-104 | result and new position are those of `ReadBoolAt` |
| Codec.PacketCodec.ReadReal | src/Common/Network/PacketCodec.h:94-104 | result and new position are those of `ReadRealAt` |
| Codec.PacketCodec.ReadCounted | src/Common/Network/PacketCodec.h:106-124 | result and new position are those of `ReadCountedAt` |
| Codec.PacketCodec.ReadString | src/Common/Network/PacketCodec.h:106-114 | result and new position are those of `ReadStringAt` |
| Codec.PacketCodec.ReadBytes | src/Common/Network/PacketCodec.h:116-124 | result and new position are those of `ReadBytesAt` |
| Codec.PacketCodec.ReadUuid | src/Common/Network/PacketCodec.h:126-132 | result and new position are those of `ReadUuidAt` |
| Codec.PacketCodec.ReadVector2 | src/Common/Network/PacketCodec.h:134-138 | result and new position are those of `ReadVector2At` |
| Codec.PacketCodec.ReadVector3 | src/Common/Network/PacketCodec.h:140-145 | result and new position are those of `ReadVector3At` |
| Codec.PacketCodec.ReadRect2 | src/Common/Network/PacketCodec.h:157-165 | result and new position are those of `ReadRect2At` |
| Codec.PacketCodec.ReadStringArray | src/Common/Network/PacketCodec.h:147-155 | result and new position are those of `ReadStringArrayAt` |
| Codec.PacketCodec.ReadStrings | src/Common/Network/PacketCodec.h:151-152 | the loop reads n strings as `ReadListAt` does, stopping at the first failure |
| Codec.WriteThenRead | src/Common/Network/PacketCodec.h:34-132 | an int32, a string, a vector and a UUID written in sequence are read back in sequence |
| PacketStreams.BECells | src/Common/Network/PacketIO.h:15-21 | a big-endian write appends exactly sizeof(T) bytes |
| PacketStreams.VarCells | src/Common/Network/PacketIO.h:31-46 | a varint encoding is never empty |
| PacketStreams.WireStringCells | src/Common/Network/PacketIO.h:49-52 | a wire string is its varint length (truncated to 32 bits) followed by its characters |
| PacketStreams.PacketWriter.constructor | src/Common/Network/PacketIO.h:12 | a new writer's buffer is empty |
| PacketStreams.PacketWriter.WriteBE | src/Common/Network/PacketIO.h:15-21 | appends the big-endian bytes of the value |
| PacketStreams.PacketWriter.WriteRawInt | src/Common/Network/PacketIO.h:24-28 | appends the host-order bytes of an integer |
| PacketStreams.PacketWriter.WriteRawReal | src/Common/Network/PacketIO.h:24-28 | appends the bytes of a float or double |
| PacketStreams.PacketWriter.WriteVarUInt32 | src/Common/Network/PacketIO.h:31-34 | appends the base-128 form of the value |
| PacketStreams.PacketWriter.WriteVarUInt64 | src/Common/Network/PacketIO.h:35-38 | appends the base-128 form of the value |
| PacketStreams.PacketWriter.WriteVarInt32 | src/Common/Network/PacketIO.h:39-42 | appends the base-128 form of the ZigZag encoding |
| PacketStreams.PacketWriter.WriteVarInt64 | src/Common/Network/PacketIO.h:43-46 | appends the base-128 form of the ZigZag encoding |
| PacketStreams.PacketWriter.WriteString | src/Common/Network/PacketIO.h:49-52 | appends the varint length and then the characters |
| PacketStreams.ReadBEAt | src/Common/Network/PacketIO.h:63-70 | a big-endian read never moves past the end of the view |
| PacketStreams.ReadRawIntAt | src/Common/Network/PacketIO.h:72-80 | a raw integer read never moves past the end of the view |
| PacketStreams.ReadRawRealAt | src/Common/Network/PacketIO.h:72-80 | a raw float read never moves past the end of the view |
| PacketStreams.ReadVarUInt64At | src/Common/Network/PacketIO.h:87-91 | a varint read never moves past the end of the view |
| PacketStreams.ReadVarUInt32At | src/Common/Network/PacketIO.h:82-86 | a varint read never moves past the end of the view |
| PacketStreams.ReadVarInt32At | src/Common/Network/PacketIO.h:92-96 | a signed varint read never moves past the end of the view |
| PacketStreams.ReadVarInt64At | src/Common/Network/PacketIO.h:97-101 | a signed varint read never moves past the end of the view |
| PacketStreams.ReadStringAt | src/Common/Network/PacketIO.h:103-109 | a string read never moves past the end of the view |
| PacketStreams.PacketReader.constructor | src/Common/Network/PacketIO.h:61 | a reader starts at offset 0 of its view |
| PacketStreams.PacketReader.Eof | src/Common/Network/PacketIO.h:111 | end of input exactly when the offset has reached the view's size |
| PacketStreams.PacketReader.ReadBE | src/Common/Network/PacketIO.h:63-70 | fails with "readBE overflow" when fewer than sizeof(T) bytes remain; result and new offset are those of `ReadBEAt` |
| PacketStreams.PacketReader.ReadRawInt | src/Common/Network/PacketIO.h:72-80 | fails with "readRaw overflow" when too few bytes remain; result and new offset are those of `ReadRawIntAt` |
| PacketStreams.PacketReader.ReadRawReal | src/Common/Network/PacketIO.h:72-80 | result and new offset are those of `ReadRawRealAt` |
| PacketStreams.PacketReader.ReadVarUInt64 | src/Common/Network/PacketIO.h:87-91 | result and new offset are those of `ReadVarUInt64At` |
| PacketStreams.PacketReader.ReadVarUInt32 | src/Common/Network/PacketIO.h:82-86 | result and new offset are those of `ReadVarUInt32At` |
| PacketStreams.PacketReader.ReadVarInt32 | src/Common/Network/PacketIO.h:92-96 | result and new offset are those of `ReadVarInt32At` |
| PacketStreams.PacketReader.ReadVarInt64 | src/Common/Network/PacketIO.h:97-101 | result and new offset are those of `ReadVarInt64At` |
| PacketStreams.PacketReader.ReadString | src/Common/Network/PacketIO.h:103-109 | result and new offset are those of `ReadStringAt` |
| PacketStreams.ReadBEOfCells | src/Common/Network/PacketIO.h:15-70 | `readBE` reads back what `writeBE` wrote |
| PacketStreams.ReadRawIntOfCells | src/Common/Network/PacketIO.h:24-80 | `readRaw` reads back an integer `writeRaw` wrote |
| PacketStreams.ReadRawRealOfCells | src/Common/Network/PacketIO.h:24-80 | `readRaw` reads back a float `writeRaw` wrote |
| PacketStreams.ReadVarUInt64OfCells | src/Common/Network/PacketIO.h:35-91 | `readVarUInt64` reads back what `writeVarUInt64` wrote |
| PacketStreams.ReadVarUInt32OfCells | src/Common/Network/PacketIO.h:31-86 | `readVarUInt32` reads back what `writeVarUInt32` wrote |
| PacketStreams.ReadVarInt32OfCells | src/Common/Network/PacketIO.h:39-96 | `readVarInt32` reads back what `writeVarInt32` wrote |
| PacketStreams.ReadVarInt64OfCells | src/Common/Network/PacketIO.h:43-101 | `readVarInt64` reads back what `writeVarInt64` wrote |
| PacketStreams.ReadStringOfCells | src/Common/Network/PacketIO.h:49-109 | `readString` reads back a string shorter than 2^32 that `writeString` wrote |
| PacketStreams.ReadStringOfParts | src/Common/Network/PacketIO.h:103-109 | a length read as the varint prefix followed by that many characters reads as the string |
| PacketStreams.StringOverflowKeepsLength | src/Common/Network/PacketIO.h:104-105 | when the declared length runs past the view, `readString` fails with "string overflow" and the offset stays just after the length it consumed |
| PacketStreams.WriterThenReader | src/Common/Network/PacketIO.h:9-109 | a signed varint, a string and a big-endian u16 written in sequence are read back in sequence |
| Layers.ApplyAllSnoc | src/Common/Network/CodecBuilder.h:24-30 | running one more transform after a list of them is the same as applying it to their output |
| Layers.DecodeInvertsEncode | src/Common/Network/CodecBuilder.h:18-38 | when every decoder undoes the encoder added with it, running the decoders (in their stored order) over the encoders' output gives the data back |
| Layers.CodecBuilder.constructor | src/Common/Network/CodecBuilder.h:14-15 | a new builder has no layers |
| Layers.CodecBuilder.AddLayer | src/Common/Network/CodecBuilder.h:18-22 | the encoder goes to the back of the encoders and the decoder to the front of the decoders, so paired layers stay paired |
| Layers.CodecBuilder.Encode | src/Common/Network/CodecBuilder.h:24-30 | the loop applies the encoders in order to the codec's bytes |
| Layers.CodecBuilder.Decode | src/Common/Network/CodecBuilder.h:32-38 | the loop applies the decoders in order and returns a fresh codec over the result, reading from 0 |
| Layers.LayerOrder | src/Common/Network/CodecBuilder.h:18-38 | with two layers, encoding runs the first then the second encoder, and decoding runs the second then the first decoder |
| Framing.ReadBodyAt | src/Common/Network/PacketIO.h:135-136 | a body decoded into the packet created for a class is a value of that class |
| Framing.ReadPacketAt | src/Common/Network/PacketIO.h:132-138 | a decoded packet's leading 32-bit id was registered and the packet is of the class registered for it |
| Framing.ReadBodyOfCells | src/Common/Network/PacketIO.h:127-136 | each packet class's `Decode` reads back what its `Encode` wrote (a replication packet's objects as sent) |
| Framing.PacketRoundTrip | src/Common/Network/PacketIO.h:124-138 | `DecodePacket(EncodePacket(p))` gives a packet of p's class with p's contents when the layers are paired and p's id maps back to its class |
| Framing.ProtocolRoundTrip | src/Common/Network/PacketIO.h:124-138 | with the protocol's registry, every packet class round-trips through `EncodePacket` and `DecodePacket` |
| Framing.InputPacketUnknown | src/Common/Network/ProtocolRegistry.h:25 | a frame with id 4 is refused with "Unknown packet ID: 4" because `InputPacket` is not registered |
| Framing.PacketIO.constructor | src/Common/Network/PacketIO.h:120-121 | keeps the registry and the builder |
| Framing.PacketIO.EncodePacket | src/Common/Network/PacketIO.h:124-129 | the bytes are the builder's encoders applied to the 32-bit id followed by the packet's body |
| Framing.PacketIO.DecodePacket | src/Common/Network/PacketIO.h:132-138 | the result is `ReadPacketAt` over the decoded bytes, with a fresh packet on success |
| Framing.WriteFrame | src/Common/Network/PacketIO.h:125-127 | a fresh codec holding the id and the body |
| Framing.EncodeBody | src/Common/Network/PacketIO.h:127 | appends the packet's body as its class encodes it |
| Framing.DecodeBody | src/Common/Network/PacketIO.h:136 | reads the body as `ReadBodyAt` does and, on success, the packet holds what was read |
| Protocol.Value | src/Common/Network/Packet.h:1-17 | a packet's value is of the packet's class |
| Protocol.DefaultValue | src/Common/Network/PacketRegistry.h:24 | a default-constructed packet's value is of its class |
| Protocol.NewPacket | src/Common/Network/PacketRegistry.h:24 | `std::make_unique<T>()`: a fresh packet of the class, default-constructed |
| Protocol.DigitChar | src/Common/Network/PacketRegistry.h:31 | a decimal digit is a character '0'..'9' |
| Protocol.Decimal | src/Common/Network/PacketRegistry.h:31 | `std::to_string` of a non-negative number is a non-empty string of digits without a leading zero |
| Protocol.DecimalRoundTrip | src/Common/Network/PacketRegistry.h:31 | the decimal text of n reads back as n |
| Protocol.PacketRegistry.constructor | src/Common/Network/PacketRegistry.h:17-18 | a new registry has no factories and no ids |
| Protocol.PacketRegistry.Lookup | src/Common/Network/PacketRegistry.h:28-34 | finds a factory exactly when the id is registered, otherwise the error "Unknown packet ID: " followed by the id |
| Protocol.PacketRegistry.GetID | src/Common/Network/PacketRegistry.h:36-43 | finds an id exactly when the class is registered, otherwise "Packet type not registered." |
| Protocol.PacketRegistry.Register | src/Common/Network/PacketRegistry.h:21-26 | overwrites both tables' entries, so the id maps to the class and the class to the id, and nothing else changes |
| Protocol.PacketRegistry.Create | src/Common/Network/PacketRegistry.h:28-34 | succeeds exactly for a registered id, with a fresh default packet of the registered class; otherwise fails with the unknown-id message |
| Protocol.CreateProtocolRegistry | src/Common/Network/ProtocolRegistry.h:13-28 | the registry holds exactly the protocol's id table in both directions |
| Protocol.ProtocolTable | src/Common/Network/ProtocolRegistry.h:17-25 | ids 5, 6 and 42 map to HandshakeAck, Handshake and Replication, ids 1 and 2 to PlayerJoin and ChatMessage unless the leave packet's id shadows them, id 4 is absent unless it is the leave packet's, and every class maps to its `PACKET_ID` |
| Protocol.ProtocolTableInverse | src/Common/Network/ProtocolRegistry.h:17-24 | when the leave packet's id clashes with no other, the id table and the class table are inverse bijections |
| Protocol.PacketDispatcher.constructor | src/Common/Network/PacketDispatcher.h:11-12 | a new dispatcher has no signals |
| Protocol.PacketDispatcher.Register | src/Common/Network/PacketDispatcher.h:16-26 | installs a fresh signal without listeners for the class, replacing any earlier one |
| Protocol.PacketDispatcher.GetSignal | src/Common/Network/PacketDispatcher.h:29-35 | finds the signal exactly when the class is registered, otherwise "Signal for this packet type is not registered." |
| Protocol.PacketDispatcher.Dispatch | src/Common/Network/PacketDispatcher.h:37-42 | fires the class's signal with the packet and client id when registered (each listener is called once and one-shot listeners are dropped, as `Signals.Signal.Fire` states) and touches no other signal |
| Protocol.ReRegisterDetaches | src/Common/Network/PacketDispatcher.h:16-42 | registering a class twice leaves the listener of the first signal unreachable: a dispatched packet reaches only the new, empty signal |
| Packets.ReadHandshakeOfCells | src/Common/Packets/C2S/HandshakePacket.h:14-22 | `Decode` reads back the client version and token `Encode` wrote, 24 bytes in all |
| Packets.HandshakeTruncated | src/Common/Packets/C2S/HandshakePacket.h:19-22 | any proper prefix of an encoded handshake fails to decode |
| Packets.HandshakePacket.constructor | src/Common/Packets/C2S/HandshakePacket.h:6-8 | a new handshake has version 0 and the nil token |
| Packets.HandshakePacket.Encode | src/Common/Packets/C2S/HandshakePacket.h:14-17 | appends the 32-bit version and the token |
| Packets.HandshakePacket.Decode | src/Common/Packets/C2S/HandshakePacket.h:19-22 | reads as `ReadHandshakeAt`; each field is assigned when its own read succeeds and kept otherwise |
| Packets.ReadHandshakeAckOfCells | src/Common/Packets/S2C/HandshakeAckPacket.h:16-24 | `Decode` reads back the flag and message `Encode` wrote |
| Packets.HandshakeAckPacket.constructor | src/Common/Packets/S2C/HandshakeAckPacket.h:9 | a default acknowledgement is unsuccessful with an empty message |
| Packets.HandshakeAckPacket.Make | src/Common/Packets/S2C/HandshakeAckPacket.h:10 | the two-argument constructor keeps its arguments |
| Packets.HandshakeAckPacket.Encode | src/Common/Packets/S2C/HandshakeAckPacket.h:16-19 | appends the bool and the string |
| Packets.HandshakeAckPacket.Decode | src/Common/Packets/S2C/HandshakeAckPacket.h:21-24 | reads as `ReadHandshakeAckAt`; each field is assigned when its own read succeeds |
| Packets.ReadChatMessageOfCells | src/Common/Packets/2W/ChatMessagePacket.h:14-22 | `Decode` reads back the sender and then the message, as `Encode` wrote them |
| Packets.ChatMessagePacket.constructor | src/Common/Packets/2W/ChatMessagePacket.h:7-8 | both strings start empty |
| Packets.ChatMessagePacket.Encode | src/Common/Packets/2W/ChatMessagePacket.h:14-17 | appends the sender, then the message |
| Packets.ChatMessagePacket.Decode | src/Common/Packets/2W/ChatMessagePacket.h:19-22 | reads as `ReadChatMessageAt`; each field is assigned when its own read succeeds |
| Packets.ReadPlayerJoinOfCells | src/Common/Packets/2W/PlayerJoinPacket.h:13-21 | `Decode` reads back the username and UUID `Encode` wrote |
| Packets.PlayerJoinPacket.constructor | src/Common/Packets/2W/PlayerJoinPacket.h:6-7 | empty username and nil UUID |
| Packets.PlayerJoinPacket.Encode | src/Common/Packets/2W/PlayerJoinPacket.h:13-16 | appends the username, then the UUID |
| Packets.PlayerJoinPacket.Decode | src/Common/Packets/2W/PlayerJoinPacket.h:18-21 | reads as `ReadPlayerJoinAt`; each field is assigned when its own read succeeds |
| Packets.ReadStateAt | src/Common/Packets/S2C/ReplicationPacket.h:28-36 | a decoded object state carries an instance exactly when its type is not Destroy |
| Packets.Resized | src/Common/Packets/S2C/ReplicationPacket.h:61 | `resize(count)` keeps the first entries and fills new ones with default states |
| Packets.Merged | src/Common/Packets/S2C/ReplicationPacket.h:62-63 | decoding over existing entries keeps one entry per decoded state; a Destroy entry keeps the instance the old entry at its index had, since `Decode` does not reset it |
| Packets.SentAll | src/Common/Packets/S2C/ReplicationPacket.h:21-26 | what is sent has one state per object |
| Packets.ReadStateOfCells | src/Common/Packets/S2C/ReplicationPacket.h:21-36 | an encoded object state decodes to the state as sent: a Destroy state without its instance, any other with its instance |
| Packets.FlattenSent | src/Common/Packets/S2C/ReplicationPacket.h:21-26 | the bytes written for the objects equal those written for the objects as sent |
| Packets.ReadReplicationOfCells | src/Common/Packets/S2C/ReplicationPacket.h:53-64 | a replication packet's encoding decodes to its objects as sent |
| Packets.DecodedIntoEmpty | src/Common/Packets/S2C/ReplicationPacket.h:59-64 | decoding into a fresh packet gives exactly the decoded states |
| Packets.ReplicationPacket.constructor | src/Common/Packets/S2C/ReplicationPacket.h:40 | a new replication packet has no objects |
| Packets.ReplicationPacket.AddObject | src/Common/Packets/S2C/ReplicationPacket.h:43-49 | appends a state with the object's UUID, the type and a copy of the instance |
| Packets.ReplicationPacket.Encode | src/Common/Packets/S2C/ReplicationPacket.h:53-57 | appends the 32-bit count and each object's state |
| Packets.ReplicationPacket.Decode | src/Common/Packets/S2C/ReplicationPacket.h:59-64 | reads as `ReadReplicationAt`; on success the list is resized to the count and each entry overwritten by its decoded state; if the count cannot be read the list is left as it was, and a later failure leaves it resized and decoded in place up to and into the failing state (`DecodedInto`) |
| Packets.DecodedState | src/Common/Packets/S2C/ReplicationPacket.h:28-36 | decoding one state over an entry: a state that reads is merged over the entry; a failed UUID read leaves the entry unchanged; after the UUID is read it is assigned even if a later read fails, and a failed instance read leaves the fresh instance just stored |
| Packets.DecodedIntoOk | src/Common/Packets/S2C/ReplicationPacket.h:59-64 | when every state reads, decoding the list in place gives the states read, each merged over its entry |
| Packets.DecodedIntoFails | src/Common/Packets/S2C/ReplicationPacket.h:59-64 | when a state fails to read, decoding in place leaves the states before it merged over their entries, the failing entry partly assigned, and every later entry as it was |
| Packets.EncodeState | src/Common/Packets/S2C/ReplicationPacket.h:21-26 | appends the UUID, the type byte and, unless Destroy, the instance |
| Packets.DecodeStates | src/Common/Packets/S2C/ReplicationPacket.h:62-63 | the loop reads n states as `ReadListAt` does and leaves the list as `DecodedInto`, decoded in place entry by entry, stopping at the first failure |
| Packets.DecodeState | src/Common/Packets/S2C/ReplicationPacket.h:28-36 | reads one state as `ReadStateAt` does and leaves the entry as `DecodedState`, with the fields assigned before a failure kept |
| Uuid.HexVal | src/Util/UUID.hpp:78-83 | a character's hex value is in 0..15 exactly for a hex digit of either case, and -1 otherwise |
| Uuid.HexDigit | src/Util/UUID.hpp:99-100 | `std::hex` writes each nibble as a lower-case digit whose hex value is the nibble |
| Uuid.HexOf | src/Util/UUID.hpp:100 | each byte is written as exactly two digits (`setw(2)`, `setfill('0')`) |
| Uuid.ToLower | src/Util/UUID.hpp:59 | lower-casing keeps the length and leaves no upper-case letter |
| Uuid.RemoveHyphens | src/Util/UUID.hpp:68-74 | the kept characters are no more than the input's and none is a hyphen |
| Uuid.Parse | src/Util/UUID.hpp:54-95 | parsing succeeds exactly when the input, with braces and hyphens removed, is 32 hex digits, and byte i is digit 2i times 16 plus digit 2i+1 |
| Uuid.UrnNeverStripped | src/Util/UUID.hpp:56-61 | the URN prefix is never removed: the lower-cased input prefix can never equal "urn:UUID:", which holds upper-case letters |
| Uuid.UrnFormRejected | src/Util/UUID.hpp:56-76 | consequently "urn:uuid:" followed by a formatted UUID is rejected |
| Uuid.TryParse | src/Util/UUID.hpp:54-95 | the loops succeed exactly when `Parse` does, give its UUID, and leave `out` untouched on failure |
| Uuid.FromString | src/Util/UUID.hpp:44-50 | succeeds exactly when `try_parse` does, with its UUID, and otherwise fails with "UUID::from_string: invalid UUID string" |
| Uuid.Layout | src/Util/UUID.hpp:102-110 | the 8-4-4-4-12 layout of 32 digits is 36 characters |
| Uuid.LayoutChar | src/Util/UUID.hpp:102-110 | positions 8, 13, 18 and 23 hold '-', every other position holds the matching digit |
| Uuid.PutRange | src/Util/UUID.hpp:100-110 | a `put` loop over bytes lo..hi appends their two-digit forms |
| Uuid.ToString | src/Util/UUID.hpp:97-112 | `to_string` produces the canonical 8-4-4-4-12 lower-case form |
| Uuid.FormatLayout | src/Util/UUID.hpp:97-112 | the text has 36 characters, hyphens exactly at the four group breaks and lower-case hex digits elsewhere |
| Uuid.RemoveHyphensAppend | src/Util/UUID.hpp:68-74 | removing hyphens distributes over concatenation |
| Uuid.RemoveHyphensOfLayout | src/Util/UUID.hpp:68-110 | removing the hyphens from the layout gives the 32 digits back |
| Uuid.DigitsOfFormat | src/Util/UUID.hpp:63-112 | stripping braces and hyphens from a formatted UUID leaves its 32 hex digits |
| Uuid.HexBytesOfHexOf | src/Util/UUID.hpp:85-100 | the digits written for 16 bytes are hex digits and read back as the bytes |
| Uuid.ParseFormat | src/Util/UUID.hpp:54-112 | `try_parse(to_string(u))` gives u back |
| Uuid.Version | src/Util/UUID.hpp:123 | the version is the high nibble of byte 6 |
| Uuid.Variant | src/Util/UUID.hpp:124-129 | variant 0 when byte 8 is below 0x80, 2 when it is 10xxxxxx, 6 otherwise |
| Uuid.Random | src/Util/UUID.hpp:28-42 | from two 64-bit draws, a version-4, variant-2 UUID holding the draws' big-endian bytes except the overwritten version and variant bits |
| Uuid.PutBigEndian | src/Util/UUID.hpp:36-37 | the loop writes the 8 big-endian bytes of x at the base position and leaves the other bytes |
| Uuid.LexLessIsFirstDifference | src/Util/UUID.hpp:119 | the byte order is lexicographic: a is below b exactly when, at the first position where they differ, a's byte is smaller, or a is a proper prefix of b |
| Uuid.LexLessStrictTotal | src/Util/UUID.hpp:119 | the byte-wise order of `operator<` is irreflexive, asymmetric, transitive and total |
| Uuid.NullIsLeast | src/Util/UUID.hpp:52-119 | the nil UUID is below every other UUID and nothing is below it |
| Shapes.Shape.GetType | src/Core/Objects/Hitbox/HitboxShape.h:29-83 | each shape reports its own type, and only its own |
| Shapes.DefaultShape | src/Core/Objects/Hitbox/HitboxShape.h:27-81 | the default-constructed shapes: the unit rectangle at the origin without rotation, a zero circle at the origin, a polygon without vertices |
| Shapes.ReadShapeAt | src/Core/Objects/Hitbox/HitboxShape.h:38-96 | a shape decoded into a shape of a given type has that type |
| Shapes.ReadShapeOfCells | src/Core/Objects/Hitbox/HitboxShape.h:33-96 | each shape's `Decode` reads back what its `Encode` wrote (bounds and rotation, centre and radius, or the counted vertices) |
| Shapes.EncodeShape | src/Core/Objects/Hitbox/HitboxShape.h:33-88 | appends the shape's fields in its own format |
| Shapes.WriteVertices | src/Core/Objects/Hitbox/HitboxShape.h:87 | the loop appends each vertex in order |
| Shapes.DecodeShape | src/Core/Objects/Hitbox/HitboxShape.h:38-96 | reads as `ReadShapeAt` does |
| Shapes.ReadVertices | src/Core/Objects/Hitbox/HitboxShape.h:92-95 | the loop reads `count` vertices as `ReadListAt` does |
| Shapes.NameIn | src/Core/Objects/Hitbox/HitboxShapeRegistry.h:42-46 | a registered type's name, or "Unknown" |
| Shapes.HitboxShapeRegistry.constructor | src/Core/Objects/Hitbox/HitboxShapeRegistry.h:11-19 | both tables start empty |
| Shapes.HitboxShapeRegistry.Register | src/Core/Objects/Hitbox/HitboxShapeRegistry.h:22-26 | the name creates a default shape of the type and the type is named by the name; other entries stay |
| Shapes.HitboxShapeRegistry.RegStatic | src/Core/Objects/Hitbox/HitboxShapeRegistry.h:28-32 | registers "RectShape", "CircleShape" and "PolygonShape" for the three types, in both directions |
| Shapes.HitboxShapeRegistry.Create | src/Core/Objects/Hitbox/HitboxShapeRegistry.h:34-40 | nothing (`nullptr`) exactly for an unregistered name, otherwise a shape of the registered type |
| Shapes.HitboxShapeRegistry.GetName | src/Core/Objects/Hitbox/HitboxShapeRegistry.h:42-46 | "Unknown" for an unregistered type |
| Components.Payload.KindOf | src/Core/Components/ComponentRegistry.h:30-34 | each component's data identifies its class, and only it |
| Components.TransformAt | src/CoreImpl/TransformComponent.cpp:7-8 | a transform at the position, scale and rotation, with zero velocity and acceleration |
| Components.HealthOf | src/Core/Components/HealthComponent.h:11-12 | health starts full at the maximum, with no healing |
| Components.MassFloor | src/Core/Components/PhysicalPropertiesComponent.h:11-14 | `max(0.001, m)`: at least 0.001, the mass itself when it is at least 0.001 |
| Components.PhysicalOf | src/Core/Components/PhysicalPropertiesComponent.h:11 | the one-argument constructor floors the mass and is not anchored |
| Components.DefaultPayload | src/Core/Components/ComponentRegistry.h:25 | what each registered factory builds: transform at the origin with unit scale, no hitboxes, mass 1 unanchored, health 100 of 100, move speed 1 without consuming items |
| Components.ClampInt | src/Core/Components/HealthComponent.h:21-36 | `std::clamp`: within the bounds, the value itself when it already is, otherwise a bound |
| Components.TickedHealth | src/Core/Components/HealthComponent.h:60-64 | a tick heals only when healing is positive and health is below the maximum, then strictly raises health without passing the maximum; health in range stays in range |
| Components.TickPayload | src/Core/Components/HealthComponent.h:60-64 | only health components change on a tick, and their health stays in range |
| Components.TickingHeals | src/Core/Components/HealthComponent.h:60-64 | over n ticks health stays between its start and the maximum, and reaches the maximum once n is at least the missing health |
| Components.ReadHitboxAt | src/Core/Components/HitboxComponent.h:46-53 | a hitbox decodes only when its type name is registered, with a shape of that type |
| Components.ReadHitboxFieldsAt | src/Core/Components/HitboxComponent.h:49-53 | the shape read has the requested type |
| Components.ReadHitboxFlagsAt | src/Core/Components/HitboxComponent.h:51-53 | the trigger flag and group are attached to the shape read |
| Components.ReadTransformAt | src/Core/Components/TransformComponent.h:48-54 | a decoded transform is a transform |
| Components.ReadHitboxesAt | src/Core/Components/HitboxComponent.h:42-55 | decoded hitboxes are a hitbox list |
| Components.ReadPhysicalAt | src/Core/Components/PhysicalPropertiesComponent.h:24-27 | decoded physical properties are physical properties |
| Components.ReadHealthAt | src/Core/Components/HealthComponent.h:46-50 | decoded health is health |
| Components.ReadAttributesAt | src/Core/Components/EntityAttributesComponent.h:19-22 | decoded attributes are attributes |
| Components.ReadPayloadAt | src/Core/Components/Component.h:30 | decoding a component of a class gives data of that class |
| Components.ReadHitboxOfCells | src/Core/Components/HitboxComponent.h:31-53 | a hitbox whose type name reads back in the registry is decoded as it was encoded |
| Components.ReadHitboxFieldsOfCells | src/Core/Components/HitboxComponent.h:36-53 | the shape, trigger flag and group read back |
| Components.ReadHitboxFlagsOfCells | src/Core/Components/HitboxComponent.h:37-52 | the trigger flag and group read back |
| Components.HitboxReadsBack | src/Core/Components/HitboxComponent.h:31-53 | each encodable hitbox reads back what was written for it |
| Components.ReadHitboxesOfCells | src/Core/Components/HitboxComponent.h:29-55 | a hitbox component's encoding decodes to the same hitboxes |
| Components.ReadTransformOfCells | src/Core/Components/TransformComponent.h:40-54 | a transform's encoding decodes to the same transform |
| Components.ReadHealthOfCells | src/Core/Components/HealthComponent.h:40-50 | a health component's encoding (12 bytes) decodes to the same values |
| Components.ReadPayloadOfCells | src/Core/Components/Component.h:29-30 | every component class's `Decode` reads back what its `Encode` wrote |
| Components.DecodeKeepsSmallMass | src/Core/Components/PhysicalPropertiesComponent.h:11-27 | `Decode` assigns a mass below 0.001 without the floor the setter and constructor apply |
| Components.UnregisteredShapeFails | src/Core/Components/HitboxComponent.h:46-49 | a hitbox whose type name is not registered makes the decode fail (the source dereferences the null shape) |
| Components.WriteHitboxes | src/Core/Components/HitboxComponent.h:31-39 | the loop appends each hitbox's encoding in order |
| Components.WriteHitbox | src/Core/Components/HitboxComponent.h:32-38 | appends the type name, the shape, the trigger flag and the group |
| Components.EncodePayload | src/Core/Components/Component.h:29 | appends the component's encoding for its class |
| Components.ReadHitbox | src/Core/Components/HitboxComponent.h:46-53 | reads one hitbox as `ReadHitboxAt` does |
| Components.ReadHitboxes | src/Core/Components/HitboxComponent.h:45-54 | the loop reads `count` hitboxes as `ReadListAt` does |
| Components.DecodePayload | src/Core/Components/Component.h:30 | reads as `ReadPayloadAt` does for the class |
| Components.Component.constructor | src/CoreImpl/Component.cpp:5 | a new component has no owner, is enabled and its signals have no listeners |
| Components.Component.OnAttach | src/CoreImpl/Component.cpp:8-10 | sets the owner only |
| Components.Component.OnDetach | src/CoreImpl/Component.cpp:12-14 | clears the owner only |
| Components.Component.SetEnabled | src/CoreImpl/Component.cpp:18-23 | nothing fires when the flag does not change; otherwise the flag changes and exactly one of Enabled or Disabled fires |
| Components.Component.Tick | src/CoreImpl/Component.cpp:16 | the data becomes `TickPayload` of the old data |
| Components.Component.SetHealth | src/Core/Components/HealthComponent.h:20-24 | health is clamped to 0..maxHealth |
| Components.Component.Heal | src/Core/Components/HealthComponent.h:26-28 | health rises by the amount, clamped |
| Components.Component.TakeDamage | src/Core/Components/HealthComponent.h:30-32 | health falls by the amount, clamped |
| Components.Component.SetMaxHealth | src/Core/Components/HealthComponent.h:34-37 | the maximum becomes `max(0, amount)` and health is clamped into it |
| Components.Component.SetHealAmount | src/Core/Components/HealthComponent.h:56-58 | sets the heal amount only |
| Components.Component.SetMass | src/Core/Components/PhysicalPropertiesComponent.h:14 | the mass becomes the floored value, at least 0.001 |
| Components.Component.SetAnchored | src/Core/Components/PhysicalPropertiesComponent.h:16 | sets the anchored flag only |
| Components.Component.SetPosition | src/CoreImpl/TransformComponent.cpp:10-12 | sets the position only |
| Components.Component.Translate | src/CoreImpl/TransformComponent.cpp:18-20 | adds the delta to the position |
| Components.Component.SetRotation | src/CoreImpl/TransformComponent.cpp:22-24 | sets the rotation only |
| Components.Component.Rotate | src/CoreImpl/TransformComponent.cpp:30-32 | adds the delta to the rotation |
| Components.Component.SetScale | src/CoreImpl/TransformComponent.cpp:34-36 | sets the scale only |
| Components.Component.Scale | src/CoreImpl/TransformComponent.cpp:42-45 | multiplies the scale component-wise |
| Components.Component.SetVelocity | src/CoreImpl/TransformComponent.cpp:55-57 | sets the velocity only |
| Components.Component.SetAcceleration | src/CoreImpl/TransformComponent.cpp:67-77 | sets the acceleration only (`Accelerate` does the same) |
| Components.Component.ResetTransform | src/CoreImpl/TransformComponent.cpp:47-53 | back to the default transform, velocity and acceleration zero |
| Components.Component.AddHitbox | src/Core/Components/HitboxComponent.h:17-19 | appends one hitbox with the shape, group and trigger flag |
| Components.Component.ClearHitboxes | src/Core/Components/HitboxComponent.h:21-23 | no hitboxes remain |
| Components.Component.Encode | src/Core/Components/Component.h:29 | appends the encoding of the component's data |
| Components.Component.Decode | src/Core/Components/Component.h:30 | reads as `ReadPayloadAt` for the component's class and, on success, holds what was read |
| Components.EncodeDecode | src/Core/Components/Component.h:29-30 | a component encoded and decoded into a fresh component of its class has the same data |
| Components.ComponentNameIn | src/Core/Components/ComponentRegistry.h:45-49 | a registered class's name, or "Unknown" |
| Components.StaticNamesReadBack | src/Core/Components/ComponentRegistry.h:29-35 | after `RegStatic` every class's name looks up that class |
| Components.ComponentRegistry.constructor | src/Core/Components/ComponentRegistry.h:12-20 | both tables start empty |
| Components.ComponentRegistry.Register | src/Core/Components/ComponentRegistry.h:23-27 | the name maps to the class and the class to the name, other entries stay |
| Components.ComponentRegistry.RegStatic | src/Core/Components/ComponentRegistry.h:29-35 | registers the five component classes under their names, so every class's name looks it up |
| Components.ComponentRegistry.Lookup | src/Core/Components/ComponentRegistry.h:38-42 | finds the class exactly for a registered name |
| Components.ComponentRegistry.Create | src/Core/Components/ComponentRegistry.h:37-43 | `nullptr` exactly for an unregistered name, otherwise a fresh enabled, ownerless component with the class's default data |
| Components.ComponentRegistry.GetName | src/Core/Components/ComponentRegistry.h:45-49 | the registered name, or "Unknown" |
| Instances.KindListed | src/Core/Components/ComponentRegistry.h:30-34 | every component class is one of the five, listed once |
| Instances.PresentIsKeys | src/CoreImpl/Instance.cpp:43 | the classes visited when iterating the component map are exactly its keys, each once |
| Instances.Entries | src/CoreImpl/Instance.cpp:43-49 | one encoded entry per visited class |
| Instances.ReadEntryAt | src/CoreImpl/Instance.cpp:59-70 | an entry yields a component only when its type name is registered, of the registered class |
| Instances.Overlay | src/CoreImpl/Instance.cpp:70 | storing decoded components by their class keeps every class already present and keeps each entry under its own class |
| Instances.OverlaySnoc | src/CoreImpl/Instance.cpp:58-71 | one more decoded entry overwrites its class's slot, and an unknown entry changes nothing |
| Instances.EntryReadsBack | src/CoreImpl/Instance.cpp:45-69 | a component whose class name is registered reads back as written |
| Instances.ReadEntryOfCells | src/CoreImpl/Instance.cpp:45-69 | the type name and payload written for a component decode to that component |
| Instances.ReadEntryOfParts | src/CoreImpl/Instance.cpp:59-69 | a registered name followed by a payload of its class reads as that component |
| Instances.OverlayEntriesOf | src/CoreImpl/Instance.cpp:43-71 | decoding the entries written for some of a map's classes rebuilds the map on exactly those classes |
| Instances.OverlayEntries | src/CoreImpl/Instance.cpp:36-71 | decoding all the entries written for a component map into an empty instance rebuilds the map |
| Instances.ReadInstanceOfCells | src/CoreImpl/Instance.cpp:36-71 | an instance's encoding decodes to its UUID, its tags and its component entries |
| Instances.ReadInstanceSteps | src/CoreImpl/Instance.cpp:52-56 | the UUID, the tags and the components are read one after the other |
| Instances.ReadComponentsOfCells | src/CoreImpl/Instance.cpp:41-71 | the counted component entries decode to the entries written |
| Instances.EntriesReadBack | src/CoreImpl/Instance.cpp:43-49 | each entry written for an encodable map reads back |
| Instances.UnknownComponentNotSkipped | src/CoreImpl/Instance.cpp:61-65 | an entry whose type name is unregistered is dropped without consuming its payload, so the next read starts inside that payload |
| Instances.DataOf | src/Core/Instance.h:24 | the component data has one entry per attached component |
| Instances.AttachStep | src/CoreImpl/Instance.cpp:67-70 | attaching a decoded component to the instance and storing it keeps every component owned by the instance and the data equal to the overlay so far |
| Instances.Instance.Data | src/Core/Instance.h:24 | one data entry per component |
| Instances.Instance.constructor | src/Core/Instance.h:34 | a new instance has the UUID, no tags, components or locks, no world, is neither destroyed nor dirty, and its Destroyed signal has no listeners |
| Instances.Instance.AddTag | src/Core/Instance.h:37-39 | appends the tag and changes nothing else |
| Instances.Instance.HasTag | src/Core/Instance.h:41-46 | the loop finds the tag exactly when it is among the tags |
| Instances.Instance.RemoveTag | src/Core/Instance.h:48-50 | every copy of the tag goes, the other tags stay in order |
| Instances.Instance.SetWorld | src/CoreImpl/Instance.cpp:16 | sets the world only |
| Instances.Instance.SetDirty | src/Core/Instance.h:95-97 | sets the dirty flag only |
| Instances.Instance.ClearDirty | src/Core/Instance.h:99 | clears the dirty flag only |
| Instances.Instance.SameAs | src/Core/Instance.h:56-58 | two instances compare equal when their UUIDs are equal, whatever else differs; an instance equals itself |
| Instances.Instance.SameAsEquivalence | src/Core/Instance.h:56-58 | instance equality is symmetric and transitive |
| Instances.Instance.GetAllComponents | src/Core/Instance.h:67-73 | empty once destroyed, otherwise the component map |
| Instances.Instance.GetComponent | src/Core/Instance.inl:23-30 | `nullptr` exactly when the class has no component, otherwise that component |
| Instances.Instance.HasComponent | src/Core/Instance.inl:47-51 | true exactly when `GetComponent` finds one |
| Instances.Instance.AddComponent | src/Core/Instance.inl:5-21 | a locked class fails with the locked-add message and changes nothing; otherwise a fresh enabled component with the data, attached to this instance, replaces the slot |
| Instances.Instance.RemoveComponent | src/Core/Instance.inl:32-45 | a locked class of a live instance fails with the locked-remove message; otherwise the slot is emptied and its component detached |
| Instances.Instance.LockComponent | src/Core/Instance.inl:53-57 | adds the class to the locked set only |
| Instances.Instance.Tick | src/CoreImpl/Instance.cpp:19-25 | nothing happens once destroyed; otherwise every enabled component ticks and disabled ones stay |
| Instances.Instance.DetachAll | src/CoreImpl/Instance.cpp:30-31 | the loop detaches every component and changes nothing else about them |
| Instances.Instance.Destroy | src/CoreImpl/Instance.cpp:27-34 | a second call does nothing; the first marks the instance destroyed, detaches every component, fires Destroyed once and empties the components |
| Instances.Instance.Finalize | src/CoreImpl/Instance.cpp:4-14 | the destructor fires Destroyed only if the instance was not destroyed, then detaches and drops every component |
| Instances.Instance.Encode | src/CoreImpl/Instance.cpp:36-50 | appends the UUID, the tags, the component count and each component's name and payload |
| Instances.Instance.Decode | src/CoreImpl/Instance.cpp:52-72 | reads as `ReadInstanceAt`; on success the UUID and tags are replaced and each decoded component overwrites its class's slot, the others staying |
| Instances.Instance.Store | src/CoreImpl/Instance.cpp:53-70 | commits a successful read's UUID, tags and components |
| Instances.WriteInstance | src/CoreImpl/Instance.cpp:36-50 | appends the instance's encoding |
| Instances.WriteComponents | src/CoreImpl/Instance.cpp:41-49 | appends the count and the entries |
| Instances.WriteEntries | src/CoreImpl/Instance.cpp:43-49 | the loop appends each present component's entry in iteration order |
| Instances.WriteEntry | src/CoreImpl/Instance.cpp:45-48 | one loop step appends the entry of the next present class |
| Instances.ReadInstance | src/CoreImpl/Instance.cpp:52-71 | reads as `ReadInstanceAt` and builds attached components whose data is the overlay of what was read |
| Instances.ReadComponents | src/CoreImpl/Instance.cpp:56-71 | reads as `ReadComponentsAt` and builds attached components for them |
| Instances.ReadEntries | src/CoreImpl/Instance.cpp:58-71 | the loop reads `compCount` entries as `ReadListAt` does, attaching each component |
| Instances.ReadNext | src/CoreImpl/Instance.cpp:59-70 | one loop step reads the next entry and attaches its component |
| Instances.ReadEntry | src/CoreImpl/Instance.cpp:59-69 | reads one entry; a known one yields a fresh enabled component attached to the owner holding the payload |
| Instances.EncodeDecode | src/CoreImpl/Instance.cpp:36-72 | decoding an instance's encoding into a fresh instance gives the same UUID, tags and component data |
| Instances.EncodeForRead | src/CoreImpl/Instance.cpp:36-50 | the encoding of an instance decodes to its UUID, tags and entries |
| Signals.Calls | src/Core/Connection.h:109-115 | `Fire(a)` makes one call per listener, in list order, each with the listener's callback and the arguments |
| Signals.PersistentIdempotent | src/Core/Connection.h:135-147 | after one `Fire` only persistent listeners are left, so a further `Fire` disconnects nothing more |
| Signals.FiredSnoc | src/Core/Connection.h:109-147 | over repeated `Fire`s, the first calls every listener and every later one calls only the persistent listeners |
| Signals.FilterKeepsIdsIncreasing | src/Core/Connection.h:117-137 | erasing listeners keeps the ids increasing along the list and below the next id |
| Signals.WithoutAbsent | src/Core/Connection.h:117-121 | disconnecting an id no listener holds leaves the list as it is |
| Signals.WithoutExactly | src/Core/Connection.h:117-121 | after `Disconnect(id)` a listener is there exactly when it was there before and has another id |
| Signals.WithoutNewest | src/Core/Connection.h:117-132 | disconnecting the listener just added gives back the list it was added to |
| Signals.Signal.constructor | src/Core/Connection.h:81-85 | a signal starts with no listeners and next id 0 |
| Signals.Signal.AddListener | src/Core/Connection.h:128-147 | the listener is appended with id next_id, next_id grows by one, and the returned handle refers to that id with the requested auto-disconnect |
| Signals.Signal.Connect | src/Core/Connection.h:89-91 | appends a lasting listener with the next id and returns a handle that disconnects on destruction |
| Signals.Signal.ConnectPersistent | src/Core/Connection.h:94-96 | appends a lasting listener with the next id and returns a handle that does not disconnect on destruction |
| Signals.Signal.ConnectOnce | src/Core/Connection.h:99-101 | appends a one-shot listener with the next id and returns a handle that disconnects on destruction |
| Signals.Signal.ConnectOncePersistent | src/Core/Connection.h:104-106 | appends a one-shot listener with the next id and returns a handle that does not disconnect on destruction |
| Signals.Signal.Fire | src/Core/Connection.h:109-143 | every listener's callback runs once in list order, and exactly the one-shot listeners are disconnected afterwards; the code does this only when no listener follows a one-shot one (see Left out) |
| Signals.Signal.Disconnect | src/Core/Connection.h:117-121 | removes exactly the listeners with that id and keeps the others in order, so no listener has the id afterwards |
| Signals.Signal.DisconnectAll | src/Core/Connection.h:123-125 | empties the listener list |
| Signals.Connection.Empty | src/Core/Connection.h:23 | a default handle refers to no listener and auto-disconnects |
| Signals.Connection.constructor | src/Core/Connection.h:24-25 | the handle refers to the given signal and id with the given auto-disconnect, and its function has not run |
| Signals.Connection.Disconnect | src/Core/Connection.h:46-53 | the disconnect function runs, and removes the listener, exactly when the listener is still there; otherwise nothing changes, so it runs at most once |
| Signals.Connection.Detach | src/Core/Connection.h:55 | turns auto-disconnect off and changes nothing else |
| Signals.Connection.Destroy | src/Core/Connection.h:57-61 | the destructor disconnects when auto-disconnect is on and leaves the listeners alone otherwise |
| Signals.Connection.Moved | src/Core/Connection.h:28-33 | the new handle takes over the signal, id and auto-disconnect, and the moved-from handle no longer disconnects anything |
| Signals.Connection.MoveAssign | src/Core/Connection.h:35-44 | self-assignment changes nothing; otherwise the target first disconnects its own listener, then takes over the other handle, which no longer disconnects anything |
| Signals.ConnectDiscarded | src/Core/Connection.h:57-91 | a discarded `Connect` result removes its listener at once: the listeners are as before and one id has been used |
| Signals.OnceFiresOnce | src/Core/Connection.h:135-147 | a one-shot listener is called on the first `Fire` and not on the second |
| GameObjects.BodyData | src/CoreImpl/GameObject.cpp:15-17 | every game object starts with a transform, a hitbox list and physical properties |
| GameObjects.BodyLocks | src/CoreImpl/GameObject.cpp:19-21 | and those three classes are locked |
| GameObjects.InitialData | src/CoreImpl/GameObject.cpp:12-22 | the body components for every class, entity attributes exactly for entities, and health 100 of 100 exactly for living entities |
| GameObjects.InitialLocks | src/CoreImpl/Entity.cpp:5-9 | the body classes are locked for every class, attributes exactly for entities, and health never |
| GameObjects.IdCounter.constructor | src/CoreImpl/GameObject.cpp:10 | the id counter starts at 0 |
| GameObjects.GameObject.GetPosition | src/CoreImpl/GameObject.cpp:29 | the transform component's position |
| GameObjects.GameObject.GetVelocity | src/CoreImpl/GameObject.cpp:71 | the transform component's velocity |
| GameObjects.GameObject.GetAcceleration | src/CoreImpl/GameObject.cpp:74 | the transform component's acceleration |
| GameObjects.GameObject.SetPosition | src/CoreImpl/GameObject.cpp:31-34 | the position becomes `pos`, nothing else in the components changes, and Moved fires once with `pos` |
| GameObjects.GameObject.Move | src/CoreImpl/GameObject.cpp:36-39 | the position moves by the delta; Moved fires with the new position exactly when the delta is non-zero |
| GameObjects.GameObject.Translate | src/CoreImpl/TransformComponent.cpp:18-20 | the position moves by the delta without firing Moved |
| GameObjects.GameObject.SetRotation | src/CoreImpl/TransformComponent.cpp:22-24 | only the transform's rotation changes |
| GameObjects.GameObject.SetVelocity | src/CoreImpl/GameObject.cpp:70 | only the velocity changes |
| GameObjects.GameObject.SetAcceleration | src/CoreImpl/GameObject.cpp:73 | only the acceleration changes |
| GameObjects.GameObject.Destroy | src/CoreImpl/GameObject.cpp:53-56 | fires Destroyed once per call, even a repeated one, and marks the object for destruction; its other flags stay as they were |
| GameObjects.GameObject.OnCollision | src/Core/Objects/GameObject.h:56-58 | Collided fires once with the other object |
| GameObjects.GameObject.SetShouldRender | src/Core/Objects/GameObject.h:32 | sets the render flag only |
| GameObjects.GameObject.SetAge | src/CoreImpl/Entity.cpp:20 | sets the age only |
| GameObjects.GameObject.SetAlive | src/Core/Objects/AliveEntity.h:20 | sets the alive flag only |
| GameObjects.GameObject.SetPlayer | src/Core/Objects/PlayerEntity.h:17-19 | sets the controlling player only |
| GameObjects.GameObject.HealthFields | src/Core/Objects/AliveEntity.h:22-26 | fails with "AliveEntity missing HealthComponent" exactly when there is no health component |
| GameObjects.GameObject.GetHealth | src/Core/Objects/AliveEntity.h:32-34 | the health, or the missing-component error |
| GameObjects.GameObject.GetMaxHealth | src/Core/Objects/AliveEntity.h:28-30 | the maximum, or the missing-component error |
| GameObjects.GameObject.GetHealAmount | src/Core/Objects/AliveEntity.h:36-38 | the heal amount, or the missing-component error |
| GameObjects.GameObject.SetHealth | src/Core/Objects/AliveEntity.h:40-42 | health clamped to 0..max, or the missing-component error with nothing changed |
| GameObjects.GameObject.TakeDamage | src/Core/Objects/AliveEntity.h:52-54 | health lowered by the amount and clamped, or the missing-component error |
| GameObjects.GameObject.SetMaxHealth | src/Core/Objects/AliveEntity.h:44-46 | maximum `max(0, hp)` with health clamped into it, or the missing-component error |
| GameObjects.GameObject.SetHealAmount | src/Core/Objects/AliveEntity.h:48-50 | sets the heal amount, or the missing-component error |
| GameObjects.GameObject.BaseTick | src/CoreImpl/GameObject.cpp:48-51 | Ticked fires once with dt, then every enabled component ticks unless the instance is destroyed |
| GameObjects.GameObject.TickComponents | src/CoreImpl/Instance.cpp:19-25 | every enabled component ticks unless the instance is destroyed |
| GameObjects.GameObject.EntityTick | src/CoreImpl/Entity.cpp:13-17 | nothing happens once the instance is destroyed; otherwise the age goes up by one and the base tick runs |
| GameObjects.GameObject.CheckDeath | src/Core/Objects/AliveEntity.h:61-64 | a living entity whose health is at most 0 becomes dead and fires Dead once; otherwise nothing changes |
| GameObjects.GameObject.AliveTick | src/Core/Objects/AliveEntity.h:56-65 | a destroyed, dead entity does nothing; otherwise the entity tick runs and death is checked |
| GameObjects.GameObject.Tick | src/CoreImpl/PlayerEntity.cpp:6-9 | the virtual `Tick` per class: components tick unless destroyed; entities also age; Ticked fires exactly when the class chain reaches the base tick; death is checked exactly when a living entity is not both destroyed and dead |
| GameObjects.GameObject.constructor | src/CoreImpl/GameObject.cpp:12-13 | a new object is not marked for destruction, renders, has age 0, is alive, has no controller, and its signals have no listeners |
| GameObjects.NewObject | src/CoreImpl/GameObject.cpp:10-22 | takes the next id from the counter (`++next_id`) and builds a fresh object with its class's initial components and locks |
| GameObjects.TickedData | src/CoreImpl/Instance.cpp:19-25 | ticking keeps the set of components |
| GameObjects.DeadFiresAtMostOnce | src/Core/Objects/AliveEntity.h:61-64 | over any sequence of health values seen by successive ticks, Dead fires at most once, never for an entity already dead, and exactly when some health is at most 0 |
| GameObjects.BuildInstance | src/Core/Objects/AliveEntity.h:13-16 | the constructor chain adds and locks the body and attribute components and adds health, per class |
| GameObjects.BuildBody | src/CoreImpl/GameObject.cpp:15-21 | adds the three body components and locks them |
| GameObjects.AddAndLock | src/CoreImpl/Entity.cpp:7-8 | adds a component and locks its class |
| GameObjects.AddUnlocked | src/Core/Objects/AliveEntity.h:15 | adds a component without locking it |
| Physics.Moving | src/CoreImpl/GameObject.cpp:36-37 | moving a body shifts its position by the delta and keeps everything else |
| Physics.MoveEvents | src/CoreImpl/GameObject.cpp:38 | a move reports at most one Moved event, exactly when the delta is non-zero, carrying the new position |
| Physics.Integrated | src/CoreImpl/World.cpp:9-14 | a body with physical properties that is not anchored gains `acceleration * dt` in velocity; any other body is unchanged |
| Physics.IntegratedAll | src/CoreImpl/World.cpp:8-16 | integration applies to every object, keeping the list's length and order |
| Physics.TickEvents | src/CoreImpl/World.cpp:15 | every object is ticked once with dt, in list order |
| Physics.Advanced | src/CoreImpl/World.cpp:99-103 | an anchored body stays put; any other moves by `velocity * step` |
| Physics.AdvancedAll | src/CoreImpl/World.cpp:126-130 | advancing applies to every object, keeping the list's length and order |
| Physics.Clamp01 | src/CoreImpl/World.cpp:72 | the time of impact is clamped into [0, 1], leaving values already inside unchanged |
| Physics.HitOf | src/CoreImpl/World.cpp:69-75 | a sweep gives a contact exactly when it hits, at absolute time `clamp(toi) * remaining` with the sweep's normal |
| Physics.Probe | src/CoreImpl/World.cpp:55-56 | a hitbox pair whose groups the matrix marks gives no contact (the matrix is read as "skip") |
| Physics.PairContacts | src/CoreImpl/World.cpp:37-48 | a pair gives no contacts when either object lacks a hitbox component or both are anchored (every game object has a transform) |
| Physics.FoldOfferIsFirstMinimum | src/CoreImpl/World.cpp:77-86 | the search keeps the first contact with the strictly smallest impact below the bound; with none below the bound it keeps nothing and the bound stays |
| Physics.ProbeRowSearchFolds | src/CoreImpl/World.cpp:54-86 | the loop over b's hitboxes, run from any state, is the search over the contacts of that hitbox row, in order |
| Physics.ProbeGridSearchFolds | src/CoreImpl/World.cpp:53-87 | the two hitbox loops are the search over the contacts of the whole hitbox grid, row after row |
| Physics.PairSearchFolds | src/CoreImpl/World.cpp:34-88 | the body of the pair loop is the search over that pair's contacts, and leaves the state alone for a pair that is skipped |
| Physics.PairStepFolds | src/CoreImpl/World.cpp:34-88 | the same holds for every state and every pair of one pass |
| Physics.RowSearchFolds | src/CoreImpl/World.cpp:33-89 | the `j` loop is the search over the contacts of the pairs `(i, j)`, `j` ascending |
| Physics.AllSearchFolds | src/CoreImpl/World.cpp:32-90 | the `i` and `j` loops are the search over all contacts in the loops' order |
| Physics.EarliestFolds | src/CoreImpl/World.cpp:23-90 | the search from `earliest = remaining` and no hit is the first strictly smallest impact over all contacts, so `FoldOfferIsFirstMinimum` describes it |
| Physics.ConsiderHitboxes | src/CoreImpl/World.cpp:58-86 | one hitbox pair updates the running best as the search specification says |
| Physics.KeepIfEarlier | src/CoreImpl/World.cpp:77-86 | a hit replaces the best only when strictly earlier |
| Physics.ScanHitboxRow | src/CoreImpl/World.cpp:54-87 | the inner hitbox loop computes the specification's fold over that row |
| Physics.ScanPair | src/CoreImpl/World.cpp:34-88 | the loop over one object pair computes the specification's fold over its contacts |
| Physics.ScanPairsFrom | src/CoreImpl/World.cpp:33-89 | the `j` loop computes the fold over the pairs `(i, j)` with `j > i` |
| Physics.FindEarliest | src/CoreImpl/World.cpp:23-90 | the nested search loops compute `Earliest`, the first strictly smallest impact over all pairs `i < j` |
| Physics.ProbeRowNamesPair | src/CoreImpl/World.cpp:80-81 | every contact from one hitbox row names the pair being scanned |
| Physics.ProbeGridNamesPair | src/CoreImpl/World.cpp:53-54 | every contact from the hitbox grid names the pair being scanned |
| Physics.RowContactsNamePairs | src/CoreImpl/World.cpp:33 | every contact of row `i` names `i` and a later object |
| Physics.AllContactsNamePairs | src/CoreImpl/World.cpp:32-33 | every contact names two distinct objects, the first before the second |
| Physics.PairStepSkipsUntested | src/CoreImpl/World.cpp:37-48 | the pair loop's body leaves the search state as it is for a pair that is not examined |
| Physics.NoHitboxesSearchUnchanged | src/CoreImpl/World.cpp:32-39 | without hitbox components the two pair loops keep their initial state: no hit, `earliest` unchanged |
| Physics.NoHitboxesRowUnchanged | src/CoreImpl/World.cpp:33-39 | without hitbox components the inner pair loop keeps its state |
| Physics.InverseMass | src/CoreImpl/World.cpp:143-146 | the inverse mass is never negative, and is 0 for anchored bodies and bodies without physical properties |
| Physics.Damped | src/CoreImpl/World.cpp:176-178 | an acceleration that does not push into the normal is kept |
| Physics.Pushed | src/CoreImpl/World.cpp:168-195 | an anchored body is untouched; any other gains the velocity change and the shift |
| Physics.ResolvedWith | src/CoreImpl/World.cpp:164-195 | the impulse, damping and bias step keeps properties and hitboxes and leaves anchored bodies untouched |
| Physics.Resolved | src/CoreImpl/World.cpp:136-200 | `ResolveCollision` returns early (nothing changes) when both bodies are static or already separating; otherwise it applies the impulse step; anchored bodies never change |
| Physics.ResolvedAtCases | src/CoreImpl/World.cpp:136-200 | without an impact the list and the log stay as they are; with one, the two bodies are replaced by the impulse step's results and their moves are logged |
| Physics.ResolvedAt | src/CoreImpl/World.cpp:136 | resolving a pair inside the list keeps its length |
| Physics.VelocitiesWith | src/CoreImpl/World.cpp:168-171 | A gains `j * invMa` along the normal and B loses `j * invMb` |
| Physics.RelativeVelocityWith | src/CoreImpl/World.cpp:153-171 | the relative velocity changes by `j * (invMa + invMb)` along the normal |
| Physics.ResolveChangesVelocityAlongNormal | src/CoreImpl/World.cpp:164-171 | both velocities change only along the normal |
| Physics.ImpulseCancels | src/CoreImpl/World.cpp:165 | the impulse times the inverse-mass sum cancels the approaching normal speed |
| Physics.StopsApproachWith | src/CoreImpl/World.cpp:164-171 | with a unit normal, such an impulse leaves no relative normal speed |
| Physics.ResolveStopsApproach | src/CoreImpl/World.cpp:155-171 | after resolving an approaching pair with a unit normal, the relative normal speed is 0 (no bounce) |
| Physics.DampedStopsPushing | src/CoreImpl/World.cpp:173-180 | after damping, the acceleration no longer pushes into a unit normal |
| Physics.ResolveDampsAcceleration | src/CoreImpl/World.cpp:173-188 | for each movable body with properties, the acceleration stops pushing into the contact and is unchanged when it did not push |
| Physics.PositionsWith | src/CoreImpl/World.cpp:190-195 | the bias moves the bodies apart by shares proportional to their inverse masses |
| Physics.ResolveSeparates | src/CoreImpl/World.cpp:190-195 | after resolving, the positions are further apart along the normal by exactly the bias 0.001 times the normal's squared length |
| Physics.Substep | src/CoreImpl/World.cpp:22-134 | one pass of the loop keeps every body's shape, and the remaining time stays non-negative and drops by at least `min(MIN_STEP, remaining)` |
| Physics.SettleKeepsShapes | src/CoreImpl/World.cpp:22-134 | the whole loop keeps the number of objects, their properties and their hitboxes |
| Physics.SettleEndsBelowEps | src/CoreImpl/World.cpp:22 | the loop ends with the remaining time in [0, EPS] |
| Physics.SettleFreeFlight | src/CoreImpl/World.cpp:125-133 | without hitboxes, one pass moves every object through the whole remaining time and ends with 0 remaining |
| Physics.SettleUnfold | src/CoreImpl/World.cpp:22-134 | one turn of the `while (remaining > EPS)` loop is a substep followed by the rest of the loop, and it strictly lowers the remaining time and the loop's measure |
| Physics.World.constructor | src/CoreImpl/World.cpp:6 | a world holds the given bodies and no events |
| Physics.World.Move | src/CoreImpl/GameObject.cpp:36-39 | moves one body and logs its Moved event |
| Physics.World.SetVelocity | src/CoreImpl/GameObject.cpp:70 | changes one body's velocity only |
| Physics.World.SetAcceleration | src/CoreImpl/GameObject.cpp:73 | changes one body's acceleration only |
| Physics.World.Integrate | src/CoreImpl/World.cpp:8-16 | the integration loop computes `IntegratedAll` and logs one tick per object |
| Physics.World.Advance | src/CoreImpl/World.cpp:126-130 | the advancing loop computes `AdvancedAll` and logs the moves |
| Physics.World.ResolveCollision | src/CoreImpl/World.cpp:136-200 | the bodies become `ResolvedAt` of the old bodies, with the moves it makes logged |
| Physics.World.ApplyImpulse | src/CoreImpl/World.cpp:164-195 | the impulse, damping and bias steps together compute `ResolvedWith` |
| Physics.World.ImpulseStep | src/CoreImpl/World.cpp:166-171 | the velocities of the movable bodies change by the impulse times their inverse masses |
| Physics.World.DampStep | src/CoreImpl/World.cpp:173-188 | the accelerations of the movable bodies with properties are damped against the normal |
| Physics.World.RunSubstep | src/CoreImpl/World.cpp:23-134 | one pass of the loop computes `Substep` |
| Physics.World.AdvanceAndResolve | src/CoreImpl/World.cpp:95-122 | advances everything by the step, fires Collided on both objects (A then B), then resolves the pair, triggers included |
| Physics.World.Tick | src/CoreImpl/World.cpp:6-135 | `World::Tick` computes `Settle` over the integrated bodies with `SweepWith(sqrt)`, the dispatcher as written, logging the ticks first |
| Sweeps.TouchRelative | src/Util/Physics/RectSwept.h:15 | two rectangles each moving for time t touch exactly when one moving at the relative velocity touches the other still one |
| Sweeps.QuotientCompare | src/Util/Physics/RectSwept.h:37-40 | comparing a gap divided by the velocity against a time is comparing the gap against velocity times time, with the order flipped for a negative velocity |
| Sweeps.AxisAsWritten | src/Util/Physics/RectSwept.h:21-40 | without relative motion the axis's entry is -INFINITY and its exit +INFINITY whatever the gap; otherwise the gaps divided by the velocity |
| Sweeps.Axis | src/Util/Physics/RectSwept.h:21-40 | the corrected axis keeps the source's gaps |
| Sweeps.AxisAgrees | src/Util/Physics/RectSwept.h:37-40 | the corrected axis equals the one as written exactly when there is relative motion or the projections already meet |
| Sweeps.AxisMeetsBetween | src/Util/Physics/RectSwept.h:21-40 | on the corrected axis, the projections meet at time t exactly when t lies between entry and exit |
| Sweeps.Slab | src/Util/Physics/RectSwept.h:42-58 | a hit exactly when exit is not before entry, not both entries are negative and entry is at most 1; the time is the entry clamped at 0 and the normal is the axis with the later entry, signed by its gap |
| Sweeps.SweptAABBAsWritten | src/Util/Physics/RectSwept.h:13-59 | the slab test as written reports no hit as the default result and a hit time in [0, 1], and never hits without relative motion |
| Sweeps.SweptAABB | src/Util/Physics/RectSwept.h:13-59 | the corrected slab test reports no hit as the default result and a hit time in [0, 1] |
| Sweeps.StillNeverHits | src/Util/Physics/RectSwept.h:37-47 | as written, with equal velocities the test never hits, even for rectangles that already overlap |
| Sweeps.SweptAABBAgrees | src/Util/Physics/RectSwept.h:37-40 | with relative motion on both axes the corrected test equals the one as written |
| Sweeps.SlabFirstCommonTime | src/Util/Physics/RectSwept.h:42-51 | a reported time is the first at which both axes meet; without a hit no time in [0, 1] meets unless time 0 does |
| Sweeps.TouchBetween | src/Util/Physics/RectSwept.h:15-43 | the rectangles touch at time t exactly when t is between the entry and exit of both corrected axes |
| Sweeps.ZeroAxisFalseHit | src/Util/Physics/RectSwept.h:37-47 | as written, a box moving up past a box far off to the right is reported hit at time 1 though the two never touch |
| Sweeps.SweptAABBFirstContact | src/Util/Physics/RectSwept.h:13-59 | the corrected test's hit time is a time the rectangles touch and none in [0, hit) is; without a hit they touch in [0, 1] only if they touch at 0 |
| Sweeps.SweptRectCircleAsWritten | src/Util/Physics/RectSwept.h:61-80 | the grown rectangle, moved against the circle's motion, swept against the centre as written: no hit is the default result, a hit time is in [0, 1], and equal displacements never hit |
| Sweeps.SweptRectCircle | src/Util/Physics/RectSwept.h:61-80 | the rectangle grown by the radius is swept against the circle's centre; no hit is the default result and a hit time is in [0, 1] |
| Sweeps.TouchIsCentreInGrownBox | src/Util/Physics/RectSwept.h:73-77 | the grown box moving at the relative displacement touches the centre point exactly when, both moving, the centre is inside the grown box |
| Sweeps.SweptRectCircleFirstContact | src/Util/Physics/RectSwept.h:61-80 | the corrected test's hit time is the first in [0, 1] at which the centre is inside the grown box; without a hit the centre enters in [0, 1] only if it is inside at 0 |
| Sweeps.ApproachingCircleMissed | src/Util/Physics/RectSwept.h:67-77 | as written, a circle moving into a still square is reported as no hit, though its centre is inside the grown square at time 0.75 |
| Sweeps.ApproachingCircleCaught | src/Util/Physics/RectSwept.h:67-77 | the corrected test reports that circle at time 0.75 |
| Sweeps.SlabOneAxis | src/Util/Physics/RectSwept.h:42-51 | with one axis always meeting, the hit time is the other axis's entry |
| Sweeps.Projections | src/Util/Physics/RectSwept.h:89-98 | the projection of each vertex on the axis |
| Sweeps.ProjectionRange | src/Util/Physics/RectSwept.h:86-98 | the min/max loop gives (+INFINITY, -INFINITY) for no vertices, and otherwise the least and greatest projection |
| Sweeps.OverlapOnAxis | src/Util/Physics/RectSwept.h:81-101 | true exactly when the two projection ranges meet |
| Sweeps.TestAxes | src/Util/Physics/RectSwept.h:107-118 | true exactly when the projections meet on the normalised normal of every edge of the polygon |
| Sweeps.SATIntersects | src/Util/Physics/RectSwept.h:103-121 | true exactly when no edge normal of either polygon separates them |
| Sweeps.SharedVertexIntersects | src/Util/Physics/RectSwept.h:103-121 | polygons sharing a vertex always intersect |
| Sweeps.NormalisingKeepsProjectionsMeet | src/Util/Physics/RectSwept.h:113 | normalising a non-zero axis does not change whether the projections meet |
| Sweeps.EmptyPolygonsIntersect | src/Util/Physics/RectSwept.h:100-120 | two empty vertex lists count as intersecting |
| Sweeps.EmptyAgainstPolygon | src/Util/Physics/RectSwept.h:86-100 | an empty vertex list never intersects a non-empty one |
| Sweeps.Shifted | src/Util/Physics/RectSwept.h:133-134 | every vertex moved by the offset |
| Sweeps.ShiftKeepsSeparatingAxisFree | src/Util/Physics/RectSwept.h:103-121 | moving both polygons by the same offset does not change the test |
| Sweeps.ShiftInPlace | src/Util/Physics/RectSwept.h:133 | the in-place loop leaves the shifted vertices in the array |
| Sweeps.PolygonSweep | src/Util/Physics/RectSwept.h:124-153 | the discrete polygon test hits only at time 0 or 1, and otherwise reports the default result |
| Sweeps.SweptPolygonSweep | src/Util/Physics/RectSwept.h:124-153 | the method with its in-place vertex loops computes `PolygonSweep` |
| Sweeps.PolygonSweepEnds | src/Util/Physics/RectSwept.h:136-150 | time 0 exactly when the polygons intersect at the start, time 1 exactly when they do only at the end, with normal (0, 1) |
| Sweeps.PolygonSweepCommonMotion | src/Util/Physics/RectSwept.h:144-146 | with equal displacements the test hits exactly when the polygons intersect at the start |
| Sweeps.ImpactTime | src/Util/Physics/RectSwept.h:177-204 | a root chosen by the quadratic step is in [0, 1] |
| Sweeps.SweptCircleCircle | src/Util/Physics/RectSwept.h:155-216 | no hit is the default result and a hit time is in [0, 1] |
| Sweeps.QuadSigns | src/Util/Physics/RectSwept.h:191-196 | the quadratic is positive outside its roots, zero at the first and not positive between them |
| Sweeps.QuadWithoutRoots | src/Util/Physics/RectSwept.h:192 | with a negative discriminant the quadratic stays positive |
| Sweeps.CentreGapIsQuad | src/Util/Physics/RectSwept.h:170-174 | the squared centre distance minus the squared radius sum at time t is the quadratic `a t^2 + b t + c` |
| Sweeps.QuadFirstRootInStep | src/Util/Physics/RectSwept.h:195-202 | when apart at the start, the first root in [0, 1] is a contact and nothing before it is |
| Sweeps.ImpactTimeIsFirstContact | src/Util/Physics/RectSwept.h:177-204 | the chosen time is a contact (overlap at 0) with no contact before it; with motion and no time chosen, no time in [0, 1] is a contact |
| Sweeps.CircleSweepTime | src/Util/Physics/RectSwept.h:155-207 | the circle sweep hits exactly when a time is chosen, at that time |
| Sweeps.CircleHitTouches | src/Util/Physics/RectSwept.h:177-207 | at a reported time the circles touch or overlap; at a positive reported time they just touch |
| Sweeps.CircleNoEarlierContact | src/Util/Physics/RectSwept.h:177-204 | the circles do not touch before a reported time; with relative motion and no hit they never touch in [0, 1] |
| Sweeps.Flipped | src/Util/Physics/RectSwept.h:255 | the same result with the normal reversed |
| Sweeps.ShapeSweep | src/Util/Physics/RectSwept.h:218-271 | the dispatch by shape kinds, on the box and rectangle-circle sweeps as written, reports the default result on a miss and a time in [0, 1] on a hit |
| Sweeps.SweptShapeCollision | src/Util/Physics/RectSwept.h:218-271 | the method, calling the sweeps as written, computes `ShapeSweep` |
| Sweeps.ShapeSweepCorrected | src/Util/Physics/RectSwept.h:218-271 | the same dispatch on the corrected box and rectangle-circle sweeps reports the default result on a miss and a time in [0, 1] on a hit |
| Sweeps.ShapeSweepCorrectedAgrees | src/Util/Physics/RectSwept.h:218-271 | the two dispatchers agree on two circles, two polygons, mixed polygons, and two rectangles in relative motion on both axes |
| Sweeps.CircleRectIsSwapped | src/Util/Physics/RectSwept.h:250-256 | circle against rectangle is rectangle against circle with the normal flipped |
| Sweeps.MixedPolygonNeverHits | src/Util/Physics/RectSwept.h:267-270 | a polygon against a non-polygon is never a hit |
| Collisions.Put | src/Core/World/CollisionMatrix.h:51 | the entry for (a, b) reads the value afterwards and every other entry reads as before |
| Collisions.PutBothKeepsSymmetric | src/Core/World/CollisionMatrix.h:50-53 | writing both (a, b) and (b, a) keeps a symmetric matrix symmetric |
| Collisions.PutTrueKeepsOnlyTrue | src/Core/World/CollisionMatrix.h:43 | writing true keeps a matrix without false entries free of them |
| Collisions.OnlyTrueLookup | src/Core/World/CollisionMatrix.h:55-61 | in a matrix without false entries, a pair collides exactly when its entry exists |
| Collisions.FromString | src/Core/World/CollisionMatrix.h:17-27 | the four group names map to their groups and any other name fails with "Unknown CollisionGroup name: " followed by the name |
| Collisions.FromStringInjective | src/Core/World/CollisionMatrix.h:18-23 | two names for the same group are the same name |
| Collisions.CollisionMatrix.constructor | src/Core/World/CollisionMatrix.h:14-15 | the matrix starts empty, so no pair collides, and is symmetric |
| Collisions.CollisionMatrix.ShouldCollide | src/Core/World/CollisionMatrix.h:55-61 | a missing row or entry reads as false; in a symmetric matrix the order of the pair does not matter, and without false entries a pair collides exactly when it is stored |
| Collisions.CollisionMatrix.Set | src/Core/World/CollisionMatrix.h:50-53 | both (a, b) and (b, a) read the value and every other pair reads as before; symmetry is kept, and writing true keeps every true entry |
| Collisions.CollisionMatrix.Load | src/Core/World/CollisionMatrix.h:39-45 | succeeds exactly when every name in the configuration names a group; then every listed pair collides; symmetry, the absence of false entries and every true entry are kept either way |
| Collisions.CollisionMatrix.LoadRow | src/Core/World/CollisionMatrix.h:40-44 | one row succeeds exactly when all its names are groups, and then its group collides with every group it lists |
| Input.Insert | src/Client/Input/InputContext.h:49-51 | inserting into the list adds exactly one copy of the element |
| Input.InsertSorted | src/Client/Input/InputContext.h:49-51 | inserting into a list sorted by descending priority keeps it sorted |
| Input.SortDescending | src/Client/Input/InputContext.h:49-51 | the result is a permutation of the list sorted by descending priority (ties in any order, as `std::sort` leaves them) |
| Input.WithoutKeyExactly | src/Client/Input/InputAction.h:28-30 | after removal exactly the other keys remain |
| Input.InputAction.constructor | src/Client/Input/InputAction.h:18-19 | a new action has the name, the priority, no keys and two fresh signals without listeners |
| Input.InputAction.AddKey | src/Client/Input/InputAction.h:23-26 | the key is appended unless already bound; the keys stay distinct and the key matches afterwards |
| Input.InputAction.RemoveKey | src/Client/Input/InputAction.h:28-30 | every copy of the key is removed, the others keep their order, and the key no longer matches |
| Input.InputAction.SetPriority | src/Client/Input/InputAction.h:39 | sets the priority only |
| Input.ListsOkGrow | src/Client/Input/InputContext.h:41-44 | the key lists stay consistent when actions only gain keys |
| Input.PushedContents | src/Client/Input/InputContext.h:43-44 | after the push loop a key's list is its old list followed by one copy of the action per occurrence of the key among the arguments |
| Input.PushedKeepsOk | src/Client/Input/InputContext.h:42-44 | pushing an action under keys it is bound to keeps every listed action bound to its key |
| Input.RearrangedSnoc | src/Client/Input/InputContext.h:47-52 | sorting one more key's list extends the rearrangement to that key |
| Input.RearrangedKeepsOk | src/Client/Input/InputContext.h:47-52 | reordering the lists keeps them consistent with the bindings |
| Input.EraseAction | src/Client/Input/InputContext.h:89 | the erase–remove idiom keeps exactly the other actions in order |
| Input.UnlistAtExactly | src/Client/Input/InputContext.h:86-92 | after unlisting, exactly the other (key, action) pairs are listed and no list is left empty |
| Input.UnlistAtKeepsOk | src/Client/Input/InputContext.h:84-92 | removing the key from the action and the action from the key's list keeps the lists consistent |
| Input.UnlistKeysExactly | src/Client/Input/InputContext.h:101-109 | after the loop exactly the pairs not naming one of the keys with the action remain, with no empty list |
| Input.UnlistBoundKeys | src/Client/Input/InputContext.h:101-111 | unlisting all of an action's keys leaves it in no list, consistent with the bindings without it |
| Input.AddedKeys | src/Client/Input/InputContext.h:42 | adding keys keeps the old keys first, in order |
| Input.AddedKeysContents | src/Client/Input/InputAction.h:23-26 | afterwards exactly the old and the new keys are bound, still distinct |
| Input.InputContext.constructor | src/Client/Input/InputContext.h:14 | a new context has no actions and no key lists |
| Input.InputContext.GetAction | src/Client/Input/InputContext.h:73-76 | the action stored under the name, or none (the null pointer) when absent |
| Input.InputContext.Target | src/Client/Input/InputContext.h:55-70 | only a key event with a non-empty list fires, and it fires the first action's Pressed on key down and Released on key up |
| Input.InputContext.TargetOwned | src/Client/Input/InputContext.h:63-65 | the action fired is one the context owns |
| Input.InputContext.HandleEvent | src/Client/Input/InputContext.h:55-71 | fires the target signal once, or nothing when there is none |
| Input.InputContext.Obtain | src/Client/Input/InputContext.h:25-35 | reuses the action stored under the name with the new priority, or stores a fresh one with no keys |
| Input.InputContext.Reprioritize | src/Client/Input/InputContext.h:33-34 | an existing action gets the new priority and keeps its keys |
| Input.InputContext.Prepare | src/Client/Input/InputContext.h:25-39 | the action under the name, reused with the new priority or created fresh without keys, with one more listener on each signal; the key lists are untouched, and no other action or signal changes (the frame names only the named action and its signals) |
| Input.InputContext.Hook | src/Client/Input/InputContext.h:38-39 | both signals gain one persistent listener |
| Input.InputContext.AddKeys | src/Client/Input/InputContext.h:42 | the action's keys become the old keys plus the new ones not yet bound |
| Input.InputContext.PushAll | src/Client/Input/InputContext.h:43-44 | the action is appended to the list of each key, once per occurrence |
| Input.InputContext.SortLists | src/Client/Input/InputContext.h:47-52 | each listed key's list becomes a permutation sorted by descending priority and every other list is untouched |
| Input.InputContext.BindWithPriority | src/Client/Input/InputContext.h:24-53 | the named action exists with the priority, gains the keys and one listener per signal, and each key's list is the old list plus the action, sorted by descending priority; no other action or signal changes |
| Input.InputContext.Register | src/Client/Input/InputContext.h:42-52 | the key registration and sorting half of the bind |
| Input.InputContext.EraseFromKey | src/Client/Input/InputContext.h:86-92 | the action leaves the key's list, and an emptied list is removed |
| Input.InputContext.UnbindKey | src/Client/Input/InputContext.h:79-93 | an unknown name changes nothing; otherwise the key leaves the action and the action leaves the key's list |
| Input.InputContext.UnbindAction | src/Client/Input/InputContext.h:95-112 | an unknown name changes nothing; otherwise the action is removed and no key lists it any more |
| Input.InputContext.ClearAllBindings | src/Client/Input/InputContext.h:114-117 | no actions and no key lists remain |
| Input.InputService.constructor | src/Client/Input/InputService.h:11-16 | no contexts, enabled |
| Input.InputService.SetEnabled | src/Client/Input/InputService.h:25 | sets the flag only |
| Input.InputService.RegisterContext | src/Client/Input/InputService.h:29-35 | the entry is added and the entries are a permutation sorted by descending priority |
| Input.InputService.UnregisterContext | src/Client/Input/InputService.h:38-42 | exactly the entries of other contexts remain, in order |
| Input.InputService.ClearContexts | src/Client/Input/InputService.h:45-47 | no contexts remain |
| Input.InputService.Plan | src/Client/Input/InputService.h:53-55 | the signal each entry's context would fire, in entry order |
| Input.InputService.HandleEvent | src/Client/Input/InputService.h:50-56 | disabled, nothing fires; enabled, each signal fires once per entry whose context targets it |
| Commands.SplitWords | src/Client/Utils/CommandParser.h:38-44 | every token is a non-empty run of non-whitespace characters |
| Commands.SplitKeepsCharacters | src/Client/Utils/CommandParser.h:38-44 | the tokens joined together are exactly the input's non-whitespace characters, in order |
| Commands.SplitAtSpace | src/Client/Utils/CommandParser.h:42 | whitespace always ends a token: the tokens of `a + space + b` are those of `a` followed by those of `b` |
| Commands.SplitWord | src/Client/Utils/CommandParser.h:42 | a word on its own is a single token |
| Commands.BlankHasNoTokens | src/Client/Utils/CommandParser.h:23 | blank input has no tokens |
| Commands.SplitArgs | src/Client/Utils/CommandParser.h:38-44 | the `iss >> token` loop yields the whitespace-separated tokens `Tokens(s)` |
| Commands.CommandParser.constructor | src/Client/Utils/CommandParser.h:35 | no commands, nothing run |
| Commands.CommandParser.RegisterCommand | src/Client/Utils/CommandParser.h:16-18 | stores the handler under the name, replacing an earlier one |
| Commands.CommandParser.ParseCommand | src/Client/Utils/CommandParser.h:21-32 | blank input and unknown commands run nothing; otherwise the first token's handler runs once with all the tokens |
| Resources.ResourceLocation.ToString | src/Core/Resources/ResourceLocation.h:42-44 | the namespace, a colon, then the path |
| Resources.ResourceLocation.GetTexturePath | src/Core/Resources/ResourceLocation.h:67-69 | "textures/" before the raw path |
| Resources.ResourceLocation.GetModelPath | src/Core/Resources/ResourceLocation.h:71-73 | "models/" before the raw path |
| Resources.ResourceLocation.GetSoundPath | src/Core/Resources/ResourceLocation.h:75-77 | "sounds/" before the raw path |
| Resources.ResourceLocation.GetScriptPath | src/Core/Resources/ResourceLocation.h:79-81 | "scripts/" before the raw path |
| Resources.ResourceLocation.GetRawDataPath | src/Core/Resources/ResourceLocation.h:87-89 | "data/" before the raw path |
| Resources.ResourceLocation.GetRawPath | src/Core/Resources/ResourceLocation.h:83-85 | the namespace, a slash, then the path |
| Resources.FromPath | src/Core/Resources/ResourceLocation.h:55-57 | the path in the namespace "default" |
| Resources.Empty | src/Core/Resources/ResourceLocation.h:63-65 | empty namespace and path |
| Resources.Find | src/Core/Resources/ResourceLocation.h:47 | the index of the first occurrence, or -1 (`npos`) when there is none |
| Resources.FromString | src/Core/Resources/ResourceLocation.h:46-53 | without a colon, the whole string in "default"; otherwise split at the first colon, so the namespace has none |
| Resources.FromStringSplitsAtFirstColon | src/Core/Resources/ResourceLocation.h:51 | a namespace without a colon and any path come back apart |
| Resources.ToStringRoundTrip | src/Core/Resources/ResourceLocation.h:42-53 | parsing the printed form gives back any location whose namespace has no colon |
| Resources.ColonInNamespaceMoves | src/Core/Resources/ResourceLocation.h:47-51 | a namespace with a colon does not survive the round trip |
| Resources.StrLessIrreflexive | src/Core/Resources/ResourceLocation.h:105 | no string is less than itself |
| Resources.StrLessTransitive | src/Core/Resources/ResourceLocation.h:105 | string order is transitive |
| Resources.StrLessTrichotomy | src/Core/Resources/ResourceLocation.h:105-106 | two strings are ordered one way, equal, or ordered the other way, and never both ways |
| Resources.LessIsStrictTotalOrder | src/Core/Resources/ResourceLocation.h:104-107 | `operator<` (namespace first, then path) is a strict total order |
| Cameras.OutsidePointIsNotContained | src/Client/Render/Camera.h:27-30 | a point is outside exactly when it is not in the closed view rectangle |
| Cameras.VisibleRectIntersects | src/Client/Render/Camera.h:43-48 | a rectangle hitbox passes the loop's test exactly when its placed bounds meet the view |
| Cameras.FarObjectNotOutside | src/Client/Render/Camera.h:70 | as written, an object far outside the view is reported as not outside |
| Cameras.Camera.constructor | src/Client/Render/Camera.h:12 | the camera sits at the origin with the given size |
| Cameras.Camera.SetPosition | src/Client/Render/Camera.h:15 | sets the position only |
| Cameras.Camera.SetDimensions | src/Client/Render/Camera.h:19 | sets width and height only |
| Cameras.Camera.SetWidth | src/Client/Render/Camera.h:22 | sets the width only |
| Cameras.Camera.SetHeight | src/Client/Render/Camera.h:25 | sets the height only |
| Cameras.Camera.OutsideCamera | src/Client/Render/Camera.h:27-30 | a point is outside exactly when it is not in the closed view rectangle |
| Cameras.Camera.InsideCamera | src/Client/Render/Camera.h:77-79 | a point is inside exactly when it is in the closed view rectangle |
| Cameras.Camera.OutsideObject | src/Client/Render/Camera.h:32-71 | as written, outside exactly when the transform or the hitbox component is missing |
| Cameras.Camera.OutsideObjectCorrected | src/Client/Render/Camera.h:32-71 | outside exactly when a component is missing or no hitbox passes the visibility test |
| Cameras.Camera.InsideObject | src/Client/Render/Camera.h:70-75 | the complement of the test as written: inside exactly when the object has both a transform and a hitbox component, whatever its hitboxes |
| Cameras.Camera.InsideObjectCorrected | src/Client/Render/Camera.h:32-75 | the complement of the corrected test: inside exactly when both components are present and some hitbox is visible |
| Cameras.Camera.FirstVisible | src/Client/Render/Camera.h:41-68 | the hitbox loop finds a visible hitbox exactly when one exists |
| Players.FindIn | src/Core/World/World.h:81-87 | the position found holds an object with the UUID and every earlier object has another UUID; there is none exactly when no object has the UUID |
| Players.Found | src/Core/World/World.h:81-87 | the object found is in the list with the UUID, and it is null exactly when no object has the UUID |
| Players.Find | src/Core/World/World.h:81-87 | the search loop returns `Found`: the first object with the UUID, or null when none has it |
| Players.FoundByOwnId | src/Core/World/World.h:81-87 | when UUIDs are unique, looking up an object's own UUID finds that object |
| Players.AsPlayer | src/CoreImpl/LogicalPlayer.cpp:40 | the `dynamic_cast<PlayerEntity*>` of the found object: the object when it is a player entity, null otherwise |
| Players.EntityResolves | src/CoreImpl/LogicalPlayer.cpp:39-41 | a player entity of a world with unique UUIDs is taken back from its UUID |
| Players.ReadPlayerOfCells | src/CoreImpl/LogicalPlayer.cpp:26-43 | reading what `Encode` writes gives back the id, the name and the entity UUID, and the cursor stops right after them |
| Players.LogicalPlayer.constructor | src/Core/Player/Player.h:15-16 | the player starts with the given id and name, no entity, and an `OnEntityUnassigned` signal without listeners |
| Players.LogicalPlayer.SetName | src/CoreImpl/LogicalPlayer.cpp:6 | the name is replaced and nothing else changes |
| Players.LogicalPlayer.EntityId | src/CoreImpl/LogicalPlayer.cpp:29-32 | the UUID written for the entity: the entity's own, or the nil UUID when there is none |
| Players.LogicalPlayer.SetPlayerEntity | src/CoreImpl/LogicalPlayer.cpp:8-20 | the entity already held changes nothing; another entity is stored, and the discarded connection to its `Destroyed` signal leaves its listeners as they were |
| Players.LogicalPlayer.Encode | src/CoreImpl/LogicalPlayer.cpp:26-33 | appends the 32-bit id, the length-prefixed name and the entity UUID (nil without an entity) and leaves the read cursor alone |
| Players.LogicalPlayer.Decode | src/CoreImpl/LogicalPlayer.cpp:35-43 | reads id, name and UUID in that order, updates id and name as far as the reads succeed, and takes the player entity with that UUID only when the UUID is not nil |
| Players.LogicalPlayer.ResolveEntity | src/CoreImpl/LogicalPlayer.cpp:39-42 | a nil UUID keeps the entity; any other is replaced by the player entity found with it, or null |
| Players.PlayerRoundTrip | src/CoreImpl/LogicalPlayer.cpp:26-43 | decoding what one player encodes gives another player of the same world the same id, name and controlled entity |
| Worlds.Synced | src/Core/World/ServerWorld.h:36-42 | the objects the pass sends, in queue order: only queued dirty objects, at most one per instance, and every dirty queued instance among them |
| Worlds.SyncedExactly | src/Core/World/ServerWorld.h:36-42 | when no two queued objects share an instance, the replication pass sends exactly the non-null queued objects that are dirty |
| Worlds.World.constructor | src/Core/World/World.h:24 | a world records whether it is a server and starts with no objects, queues or players |
| Worlds.World.Find | src/Core/World/World.h:81-87 | the result is the first object with the UUID (`Found`), it is in the list with that UUID, and it is null exactly when no object has that UUID |
| Worlds.World.ResolveObject | src/Core/World/World.h:76-79 | fails, with the "could not find entity" message, exactly when `Find` gives null; otherwise returns the object `Find` gives |
| Worlds.World.SpawnObject | src/Core/World/World.h:31-45 | appends exactly one new object of the requested class with its world set to this world, the next object id and the initial components; the existing objects keep their order and the queues and players are unchanged |
| Worlds.NewObjectIn | src/Core/World/World.h:34-41 | the new object is valid, owned by the world, has the class's initial component data, and its `Destroyed` signal has no listener left after the discarded connection |
| Worlds.Join | src/Core/World/World.h:36-41 | setting the world and making the discarded connection keep the object's components, flags and listeners, and consume one listener id |
| Worlds.World.Adopt | src/Core/World/World.h:43 | the `push_back` appends the object and changes neither the other fields nor the object's component data |
| Worlds.World.SpawnPlayer | src/Core/World/World.h:47-58 | the new player entity belongs to this world, is the player's controlled entity, has the initial player data except a transform at the given position with rotation 0; objects gain exactly that entity, and players gain the player only when it was absent |
| Worlds.NewPlayerEntity | src/Core/World/World.h:48-52 | the entity built for `SpawnPlayer` is fresh, valid, owned by the world, controlled by the player and placed at the position with rotation 0 |
| Worlds.SpawnedTransform | src/Core/World/World.h:51-52 | placing a freshly spawned player entity gives exactly the transform with the position, unit scale and rotation 0 |
| Worlds.Equip | src/Core/World/World.h:49-52 | handing the entity to the player and placing it change only the player's entity and the transform's position and rotation |
| Worlds.GiveEntity | src/Core/World/World.h:49 | `SetPlayerEntity` on the new entity makes the player control it and keeps the entity valid with the same component data |
| Worlds.Place | src/Core/World/World.h:51-52 | `SetPosition` then `SetRotation(0)` replace the transform's position and rotation and nothing else |
| Worlds.World.Register | src/Core/World/World.h:43-55 | the entity is appended to the objects and the player to the players unless already there; the entity's component data is unchanged |
| Worlds.World.AddPlayer | src/Core/World/World.h:60-62 | appends the player and changes nothing else |
| Worlds.World.AddObject | src/CoreImpl/World.cpp:238-253 | null is refused with "Cannot add null GameObject" and nothing changes; otherwise the object's world becomes this world, it is appended, its UUID is returned, and its listeners are as before because the connection is discarded |
| Worlds.World.RemoveObject | src/CoreImpl/World.cpp:216-229 | null changes nothing; otherwise every entry for the object leaves both the object list and the destroy queue, the rest keep their order, and the object is detached when it was in the list |
| Worlds.EraseDetaching | src/CoreImpl/World.cpp:219-226 | the kept list is the input without the object, in order, and the object's world is null exactly when it was in the list |
| Worlds.World.RemoveObjectById | src/CoreImpl/World.cpp:231-236 | an unknown UUID changes nothing; otherwise the object `Find` gives is removed from both lists and detached |
| Worlds.World.ProcessDestroyQueue | src/CoreImpl/World.cpp:203-214 | an empty queue changes nothing; otherwise exactly the objects that should be destroyed and are queued are erased, the others keep their order, and the queue is emptied |
| Worlds.EraseDoomed | src/CoreImpl/World.cpp:206-211 | the kept objects are the input objects, in order, that are not both marked for destruction and queued |
| Worlds.World.QueueReplication | src/Core/World/ServerWorld.h:21-25 | off a server nothing changes; on a server the object is appended exactly when absent, so a queue without duplicates stays without duplicates |
| Worlds.World.ProcessReplicationQueue | src/Core/World/ServerWorld.h:31-47 | off a server nothing changes and there is no packet; on a server the packet holds one Full Sync state per object `Synced` sends, in queue order, every queued object ends clean, its identity and components are unchanged, and the queue is empty |
| Worlds.SendDirty | src/Core/World/ServerWorld.h:34-42 | a new packet receives the Full Sync states of the queue's sent objects as they were, and every queued object ends clean |
| Worlds.Fill | src/Core/World/ServerWorld.h:36-42 | the loop appends the Full Sync states of `Synced(q)` to the packet, clears the dirty flags and keeps each object's UUID, tags, components and world |
| Worlds.SyncStep | src/Core/World/ServerWorld.h:37-41 | a null or clean entry is skipped; a dirty one appends its Full Sync state and becomes clean |
| Worlds.SetObjectDirty | src/CoreImpl/GameObject.cpp:41-46 | stores the flag, and a dirty object of a server world is queued for replication exactly when it is not yet queued |

## Left out

- Networking, sockets, threads and the game loop are left out. The physics step
  assumes it has exclusive access for one `Tick`.
- Rendering, textures and UI are left out. The camera keeps only its visibility
  tests and setters.
- Floating point is modelled as exact reals. Left out are IEEE rounding, NaN, the
  float/double narrowing in `ResolveCollision` and the bit patterns of floating-point
  values in buffers.
- `sqrt`, `Length` and `Normalized` are uninterpreted. `MathUtils::Rotate`,
  `DegreesToRadians`, `Lerp` and `Rect2::RayIntersectsRect` are not modelled, because
  each depends on trigonometry or IEEE division by zero.
- The thresholds 1e-12, 1e-6 and 1e-5 appear as exact constants. Nothing about their
  floating-point behaviour is modelled.
- Reading the collision configuration file and `PrintMatrix` are left out.
  `Collisions.CollisionMatrix.Load` takes the parsed (group, names) pairs.
- `ResourceLocation::NormalizeString`, `operator==` and `Hash` are left out. They
  depend on `std::filesystem::lexically_normal`, on lower-casing and on `std::hash`.
- `UUID::random`'s Mersenne Twister is left out. Its two 64-bit draws are
  parameters, so only the version and variant bits it fixes are stated.
  `std::hash<UUID>` is left out.
- Host byte order is taken to be little-endian. That is what `memcpy` of an integer
  gives on the x86 hosts the code targets.
- `Signals.Signal.Fire` matches the code only when no listener follows a one-shot
  listener in the list. A one-shot listener's wrapper calls `Disconnect(id)`, which
  erases it from `listeners` while the range-for in `Fire` still iterates over that
  vector. When another listener follows, the loop's iterator is invalidated, which
  is undefined behaviour in C++. The contract states the intended outcome for every
  list: each callback runs once and the one-shot listeners are gone afterwards.
  `Protocol.PacketDispatcher.Dispatch` inherits this through `Fire`.
- Callbacks that change the signal they are called from (re-entrancy) are not
  modelled. Neither are the bodies of callbacks.
- `Components.TickedHealth` does not model 32-bit `int` overflow of
  `health + regenRate`. Signed overflow is undefined behaviour in C++; health is
  an unbounded integer here.
- `Components.Component.Tick` does not model 32-bit `int` overflow in the health
  regeneration it applies (`Components.TickedHealth`).
- `Components.Component.Heal` does not model 32-bit `int` overflow of
  `health + amount` before the clamp.
- `Components.Component.TakeDamage` does not model 32-bit `int` overflow of
  `health - amount` before the clamp.
- `GameObjects.GameObject.TakeDamage` does not model the 32-bit `int` overflow of
  the health component's subtraction.
- `GameObjects.GameObject.EntityTick` does not model 32-bit overflow of the age
  counter or of the health regeneration in the base tick.
- `Sweeps.ShapeSweep`, `Sweeps.SweptShapeCollision`, `Physics.SweepWith` and
  `Physics.World.Tick` follow the code as written. They use `SweptAABBAsWritten`
  and `SweptRectCircleAsWritten`, so the physics step inherits both findings
  below. `Sweeps.ShapeSweepCorrected` is the same dispatcher on the corrected
  sweeps.
- `Dump`, `ToString` and `RegDump` text formatting and all console output are left
  out. This includes "Unknown command" and the no-argument `SpawnPlayer`, which only
  prints.
- src/Common/Packets/C2S/InputPacket.h and PlayerLeavePacket.h are not part of this
  model. The leave packet's id is the parameter `leaveId`.
- Discarded connections: the `Destroyed` callbacks that `SpawnObject`, `AddObject` and
  `LogicalPlayer::SetPlayerEntity` connect are disconnected again at once, because the
  `Connection` handle returned by `Connect` is dropped. The model keeps the listener
  lists as they were, so the destroy queue is filled only by explicit calls.
- Broadcasting the replication packet is left to the caller.
  `Worlds.World.ProcessReplicationQueue` returns the packet instead of sending it.
- A `ServerWorld` is a world with `isServer` set.
- `Instance::GetWorld` is a parameter where the code reads it.
- `World::ResolveObject` returns the object rather than a typed pointer.
- An uninitialised pointer is modelled as null.
- The `uuid` parameter of object construction stands for the `UUID::random()` call.
  `GameObjects.IdCounter` stands for the static `next_id`.
- `Worlds.World.SpawnPlayer` appends the new object to the list after setting its
  player and position, where the code appends it before. Nothing observes the
  difference.
- `Worlds.SetObjectDirty` takes the world as an argument instead of reading the
  object's world pointer.
- `Instances.Instance.Decode` does not state that the components it creates are
  fresh objects.
- `Components.Component.Decode` and `Instances.Instance.Decode` keep the old state when
  a read fails. The C++ code instead leaves the fields read before the failing read
  assigned.
- `Packets.DecodedState` inherits this for the instance part: when an object state's
  instance fails to decode, the entry holds a fresh instance with no tags and no
  components (`Packets.FreshCopy`), not the partly decoded one. The fresh instance's
  UUID is `Null`, where `Instance()` draws a random one.
- `Instances.Instance.Decode` on an unknown component name is modelled as written: the
  component's payload is not skipped (`Instances.UnknownComponentNotSkipped`).
- `Uuid.TryParse` is modelled as written: it never removes a "urn:uuid:" prefix, so
  that form is rejected (`Uuid.UrnFormRejected`).

## Findings

| source | as written | input that shows it | evidently intended | confidence | as-written member | corrected member |
|---|---|---|---|---|---|---|
| src/Util/Physics/RectSwept.h:37-47 | On an axis without relative motion, the entry time is -INFINITY and the exit time +INFINITY, even when the projections on that axis are apart. The slab test then reports a hit. | Box (0,0,1,1) moving (0,1) against a still box (10,2,1,1): reported as a hit at time 1 with normal (0,-1), though they never touch. | An axis without motion meets at all times only when its projections already overlap, and otherwise never. | not executed | Sweeps.ZeroAxisFalseHit | Sweeps.SweptAABBFirstContact |
| src/Util/Physics/RectSwept.h:67-77 | The relative displacement `circleDisp - rectDisp` is applied to the grown rectangle, moving it against the circle's motion. | A still square (0,0,1,1) and a circle of radius 0.5 at (3,0.5) moving (-2,0) towards it: no hit, though the centre is inside the grown square at time 0.75. | The rectangle moves by `rectDisp - circleDisp` relative to the centre. | not executed | Sweeps.ApproachingCircleMissed | Sweeps.SweptRectCircleFirstContact |
| src/Client/Render/Camera.h:70 | `OutsideCamera(object)` ends with `return false`, so an object with both a transform and a hitbox component is never outside. | A 10-by-10 camera at the origin and an object at (100,100) with one unit rectangle: reported as not outside. | After the hitbox loop finds nothing visible, the object is outside (`return true`). | not executed | Cameras.FarObjectNotOutside | Cameras.Camera.OutsideObjectCorrected |
