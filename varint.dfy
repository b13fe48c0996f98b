/** Network-order fixed-width integers, LEB128 base-128 varints and the ZigZag signed
    mapping used by Protocol Buffers (Common/Network/VarIntEndian.h).

    A C++ integer type `T` is an `IntKind`: its width in bytes and its signedness. The
    byte loops are methods proved against the recursive functions `BEBytes`, `FromBE`,
    `Leb128` and `DecodeFrom`; the round trips are lemmas about those functions. */
module VarInt {
  import opened Arith
  import opened Wrappers

  // ---------------------------------------------------------------------------
  // Integer kinds
  // ---------------------------------------------------------------------------

  datatype IntKind = IntKind(width: nat, signed: bool) {
    predicate Valid() { width == 1 || width == 2 || width == 4 || width == 8 }

    /** v is a value of the type. */
    predicate Holds(v: int) {
      if signed then -(Pow256(width) / 2) <= v < Pow256(width) / 2
      else 0 <= v < Pow256(width)
    }
  }

  const U8 := IntKind(1, false)
  const U16 := IntKind(2, false)
  const U32 := IntKind(4, false)
  const I32 := IntKind(4, true)
  const U64 := IntKind(8, false)
  const I64 := IntKind(8, true)

  const UINT32_MAX: nat := 0xFFFF_FFFF

  /** The two's-complement bit pattern of `v` in `width` bytes (what a cast to the
      unsigned type of that width yields). */
  function Pattern(v: int, width: nat): (u: nat)
    ensures u < Pow256(width)
  {
    v % Pow256(width)
  }

  /** The value of bit pattern `u` read as a `kind`: patterns with the top bit set are
      negative for a signed kind. */
  function Interpret(u: nat, kind: IntKind): int {
    if kind.signed && u >= Pow256(kind.width) / 2 then u - Pow256(kind.width) else u
  }

  lemma InterpretPattern(v: int, kind: IntKind)
    requires kind.Valid() && kind.Holds(v)
    ensures Interpret(Pattern(v, kind.width), kind) == v
  {
    var m := Pow256(kind.width);
    assert m == 2 * (m / 2) by {
      Pow256Values();
    }
    if v < 0 {
      DivModUnique(v, m, -1, v + m);
    } else {
      DivModUnique(v, m, 0, v);
    }
  }

  // ---------------------------------------------------------------------------
  // writeBE / readBE
  // ---------------------------------------------------------------------------

  /** The n low-order bytes of u, most significant first. */
  function BEBytes(u: nat, n: nat): (r: seq<Byte>)
    ensures |r| == n
  {
    if n == 0 then [] else BEBytes(u / 256, n - 1) + [u % 256]
  }

  /** The number whose big-endian bytes are s. */
  function FromBE(s: seq<Byte>): (r: nat)
    ensures r < Pow256(|s|)
  {
    if |s| == 0 then 0
    else
      var hi := FromBE(s[..|s| - 1]);
      assert hi * 256 + s[|s| - 1] < Pow256(|s|) by {
        assert hi <= Pow256(|s| - 1) - 1;
        MulLe(hi, Pow256(|s| - 1) - 1, 256);
      }
      hi * 256 + s[|s| - 1]
  }

  /** Byte i of `BEBytes(u, n)` is the byte of u shifted right by 8 * (n - 1 - i). */
  lemma {:induction false} BEBytesIndex(u: nat, n: nat, i: nat)
    requires i < n
    ensures BEBytes(u, n)[i] == u / Pow256(n - 1 - i) % 256
    decreases n
  {
    if i == n - 1 {
      assert BEBytes(u, n)[i] == u % 256;
    } else {
      BEBytesIndex(u / 256, n - 1, i);
      DivDiv(u, 256, Pow256(n - 2 - i));
      assert 256 * Pow256(n - 2 - i) == Pow256(n - 1 - i);
    }
  }

  /** Reading back the bytes of u gives u, for u that fits in n bytes. */
  lemma {:induction false} FromBEInvertsBEBytes(u: nat, n: nat)
    requires u < Pow256(n)
    ensures FromBE(BEBytes(u, n)) == u
    decreases n
  {
    if n > 0 {
      var s := BEBytes(u, n);
      assert s[..n - 1] == BEBytes(u / 256, n - 1);
      assert u / 256 < Pow256(n - 1) by {
        DivModUnique(u, 256, u / 256, u % 256);
      }
      FromBEInvertsBEBytes(u / 256, n - 1);
    }
  }

  /** And writing the value of any byte string gives the string back. */
  lemma {:induction false} BEBytesInvertsFromBE(s: seq<Byte>)
    ensures BEBytes(FromBE(s), |s|) == s
    decreases |s|
  {
    if |s| > 0 {
      var hi := FromBE(s[..|s| - 1]);
      DivModAddMultiple(s[|s| - 1], hi, 256);
      BEBytesInvertsFromBE(s[..|s| - 1]);
      assert s == s[..|s| - 1] + [s[|s| - 1]];
    }
  }

  /** `writeBE<T>`: grows `out` by sizeof(T) bytes and fills them with `value`, most
      significant byte first. */
  method WriteBE(out: seq<Byte>, kind: IntKind, value: int) returns (res: seq<Byte>)
    requires kind.Valid() && kind.Holds(value)
    ensures res == out + BEBytes(Pattern(value, kind.width), kind.width)
  {
    var n := kind.width;
    var u := Pattern(value, n);
    res := out + seq(n, _ => 0);
    for i := 0 to n
      invariant |res| == |out| + n
      invariant res[..|out|] == out
      invariant forall j :: 0 <= j < i ==> res[|out| + j] == BEBytes(u, n)[j]
    {
      BEBytesIndex(u, n, i);
      res := res[|res| - n + i := u / Pow256(n - 1 - i) % 256];
    }
    assert res == out + BEBytes(u, n);
  }

  /** What `readBE<T>` returns for the bytes at `data`: an error when fewer than
      sizeof(T) bytes are available, else the first sizeof(T) bytes read as a T. */
  function ReadBESpec(data: seq<Byte>, kind: IntKind): Result<int> {
    if |data| < kind.width then Err("readBE overflow")
    else Ok(Interpret(FromBE(data[..kind.width]), kind))
  }

  method ReadBE(data: seq<Byte>, kind: IntKind) returns (r: Result<int>)
    requires kind.Valid()
    ensures r == ReadBESpec(data, kind)
  {
    var n := kind.width;
    if |data| < n {
      return Err("readBE overflow");
    }
    var value: nat := 0;
    for i := 0 to n
      invariant value == FromBE(data[..i])
    {
      assert data[..i + 1][..i] == data[..i];
      value := value * 256 + data[i];
    }
    r := Ok(Interpret(value, kind));
  }

  /** `readBE<T>` returns what `writeBE<T>` wrote, whatever follows it. */
  lemma ReadBEOfWriteBE(value: int, kind: IntKind, rest: seq<Byte>)
    requires kind.Valid() && kind.Holds(value)
    ensures ReadBESpec(BEBytes(Pattern(value, kind.width), kind.width) + rest, kind) == Ok(value)
  {
    var bytes := BEBytes(Pattern(value, kind.width), kind.width);
    assert (bytes + rest)[..kind.width] == bytes;
    FromBEInvertsBEBytes(Pattern(value, kind.width), kind.width);
    InterpretPattern(value, kind);
  }

  // ---------------------------------------------------------------------------
  // LEB128 varints
  // ---------------------------------------------------------------------------

  /** The base-128 encoding of v: seven bits per byte, least significant group first,
      bit 0x80 set on every byte but the last. */
  function Leb128(v: nat): (r: seq<Byte>)
    ensures |r| >= 1
    decreases v
  {
    if v < 128 then [v] else [v % 128 + 128] + Leb128(v / 128)
  }

  /** `encodeVarUInt64`. */
  method EncodeVarUInt64(v: nat) returns (out: seq<Byte>)
    requires v < TWO64
    ensures out == Leb128(v)
  {
    out := [];
    var w := v;
    while w >= 0x80
      invariant out + Leb128(w) == Leb128(v)
      decreases w
    {
      out := out + [w % 128 + 128];
      w := w / 128;
    }
    out := out + [w];
  }

  /** Every byte but the last carries the continuation bit, the last does not, and a
      64-bit value needs between 1 and 10 bytes. */
  lemma {:induction false} Leb128Shape(v: nat, k: nat)
    requires v < Pow2(7 * k)
    ensures 1 <= |Leb128(v)| <= if k == 0 then 1 else k
    ensures Leb128(v)[|Leb128(v)| - 1] < 128
    ensures forall j :: 0 <= j < |Leb128(v)| - 1 ==> Leb128(v)[j] >= 128
    decreases v
  {
    if v >= 128 {
      assert k >= 2 by {
        if k <= 1 {
          Pow2Monotone(7 * k, 7);
          Pow2Values();
        }
      }
      assert v / 128 < Pow2(7 * (k - 1)) by {
        Pow2Add(7, 7 * (k - 1));
        Pow2Values();
        DivModUnique(v, 128, v / 128, v % 128);
        if v / 128 >= Pow2(7 * (k - 1)) {
          MulLe(Pow2(7 * (k - 1)), v / 128, 128);
        }
      }
      Leb128Shape(v / 128, k - 1);
    }
  }

  lemma Leb128Of64Bit(v: nat)
    requires v < TWO64
    ensures 1 <= |Leb128(v)| <= 10
  {
    Pow2Values();
    Pow2Monotone(64, 70);
    Leb128Shape(v, 10);
  }

  /** `decodeVarUInt64` from byte i on, with `shift` bits already decoded into `acc`.
      The source ORs each shifted 7-bit group into the result; the group's bits lie at
      or above `shift` and acc < 2^shift, so the OR is an addition. A group shifted by
      63 is truncated to 64 bits. The result is (value, bytes consumed). */
  function DecodeFrom(data: seq<Byte>, i: nat, shift: nat, acc: nat): Result<(nat, nat)>
    decreases |data| - i
  {
    if i >= |data| then Err("varuint64 truncated")
    else
      var b := data[i];
      var acc' := acc + (b % 128) * Pow2(shift) % TWO64;
      if b < 128 then Ok((acc', i + 1))
      else if shift + 7 >= 64 then Err("varuint64 overflow")
      else DecodeFrom(data, i + 1, shift + 7, acc')
  }

  function DecodeVarUInt64Spec(data: seq<Byte>): Result<(nat, nat)> {
    DecodeFrom(data, 0, 0, 0)
  }

  /** `decodeVarUInt64`. */
  method DecodeVarUInt64(data: seq<Byte>) returns (r: Result<(nat, nat)>)
    ensures r == DecodeVarUInt64Spec(data)
  {
    var result: nat := 0;
    var shift: nat := 0;
    var i: nat := 0;
    while i < |data|
      invariant i <= |data|
      invariant DecodeFrom(data, i, shift, result) == DecodeVarUInt64Spec(data)
      decreases |data| - i
    {
      var b := data[i];
      i := i + 1;
      result := result + (b % 128) * Pow2(shift) % TWO64;
      if b < 128 {
        return Ok((result, i));
      }
      shift := shift + 7;
      if shift >= 64 {
        return Err("varuint64 overflow");
      }
    }
    return Err("varuint64 truncated");
  }

  /** The accumulator stays below 2^shift, so the result fits in 64 bits; a success
      ends at the first byte without the continuation bit, within 10 - k bytes. */
  lemma {:induction false} DecodeFromOk(data: seq<Byte>, i: nat, k: nat, acc: nat)
    requires 7 * k <= 63 && acc < Pow2(7 * k)
    ensures DecodeFrom(data, i, 7 * k, acc).Ok? ==>
      var (v, n) := DecodeFrom(data, i, 7 * k, acc).value;
      v < TWO64 && i < n <= |data| && n - i <= 10 - k && data[n - 1] < 128 &&
      forall j :: i <= j < n - 1 ==> data[j] >= 128
    decreases |data| - i
  {
    if i < |data| {
      var b := data[i];
      var shift := 7 * k;
      var acc' := acc + (b % 128) * Pow2(shift) % TWO64;
      GroupBound(b, k, acc);
      if b >= 128 && shift + 7 < 64 {
        assert 7 * (k + 1) == shift + 7;
        DecodeFromOk(data, i + 1, k + 1, acc');
        assert DecodeFrom(data, i, shift, acc) == DecodeFrom(data, i + 1, shift + 7, acc');
      }
    }
  }

  /** A failure means every available byte among the next 10 - k carries the
      continuation bit: an overflow when all 10 - k are there, truncation otherwise. */
  lemma {:induction false} DecodeFromErr(data: seq<Byte>, i: nat, k: nat, acc: nat)
    requires 7 * k <= 63
    ensures DecodeFrom(data, i, 7 * k, acc).Err? ==>
      (forall j :: i <= j < |data| && j - i < 10 - k ==> data[j] >= 128) &&
      (DecodeFrom(data, i, 7 * k, acc).error == "varuint64 overflow" <==> |data| - i >= 10 - k) &&
      (DecodeFrom(data, i, 7 * k, acc).error == "varuint64 truncated" <==> |data| - i < 10 - k)
    decreases |data| - i
  {
    if i < |data| {
      var b := data[i];
      if b >= 128 && 7 * k + 7 < 64 {
        DecodeFromErr(data, i + 1, k + 1, acc + (b % 128) * Pow2(7 * k) % TWO64);
      }
    }
  }

  /** One more 7-bit group, truncated to 64 bits, keeps the accumulator below both
      2^(shift+7) and 2^64. */
  lemma GroupBound(b: Byte, k: nat, acc: nat)
    requires 7 * k <= 63 && acc < Pow2(7 * k)
    ensures acc + (b % 128) * Pow2(7 * k) % TWO64 < Pow2(7 * k + 7)
    ensures acc + (b % 128) * Pow2(7 * k) % TWO64 < TWO64
  {
    var p := Pow2(7 * k);
    var c := b % 128;
    Pow2Add(7 * k, 7);
    Pow2Values();
    if k <= 8 {
      Pow2Monotone(7 * k + 7, 64);
      LowGroup(c, p, acc, Pow2(7 * k + 7));
    } else {
      assert p == TWO63;
      TopGroup(c, acc);
      Pow2Monotone(64, 70);
    }
  }

  /** A group below bit 64 is not truncated. */
  lemma LowGroup(c: nat, p: nat, acc: nat, q: nat)
    requires c < 128 && acc < p && q == p * 128 && q <= TWO64
    ensures c * p % TWO64 == c * p && acc + c * p < q
  {
    MulLe(c, 127, p);
    assert q == 127 * p + p;
    ModOfSmall(c * p, TWO64);
  }

  /** The group shifted by 63 keeps only its lowest bit. */
  lemma TopGroup(c: nat, acc: nat)
    requires c < 128 && acc < TWO63
    ensures c * TWO63 % TWO64 == (c % 2) * TWO63 && acc + c * TWO63 % TWO64 < TWO64
  {
    DivModUnique(c * TWO63, TWO64, c / 2, (c % 2) * TWO63);
  }

  /** The group taken from the encoding of v, shifted, does not reach bit 64. */
  lemma GroupFits(v: nat, k: nat, acc: nat)
    requires 7 * k <= 63 && acc + v * Pow2(7 * k) < TWO64
    ensures (v % 128) * Pow2(7 * k) % TWO64 == (v % 128) * Pow2(7 * k)
    ensures v >= 128 ==> 7 * k + 7 < 64
  {
    var p := Pow2(7 * k);
    LowPartFits(v, p, acc);
    if v >= 128 && 7 * k + 7 >= 64 {
      assert k == 9;
      Pow2Values();
      TopPartOverflows(v, p, acc);
    }
  }

  lemma LowPartFits(v: nat, p: nat, acc: nat)
    requires acc + v * p < TWO64
    ensures (v % 128) * p % TWO64 == (v % 128) * p
  {
    MulLe(v % 128, v, p);
    ModOfSmall((v % 128) * p, TWO64);
  }

  lemma TopPartOverflows(v: nat, p: nat, acc: nat)
    requires v >= 128 && p == TWO63
    ensures acc + v * p >= TWO64
  {
    MulLe(2, v, p);
  }

  /** Splitting v into its low group and the rest. */
  lemma GroupSplit(v: nat, k: nat, acc: nat)
    ensures Pow2(7 * k + 7) == 128 * Pow2(7 * k)
    ensures acc + (v % 128) * Pow2(7 * k) + (v / 128) * Pow2(7 * k + 7) == acc + v * Pow2(7 * k)
  {
    Pow2Add(7 * k, 7);
    Pow2Values();
    MulSplit(v, v / 128, v % 128, Pow2(7 * k));
  }

  lemma MulSplit(v: nat, q: nat, r: nat, p: nat)
    requires v == q * 128 + r
    ensures r * p + q * (128 * p) == v * p
  {
    assert v * p == (q * 128) * p + r * p;
  }

  /** Decoding the encoding of a 64-bit value returns the value and the encoding's
      length, and ignores whatever follows. */
  lemma {:induction false} DecodeFromLeb128(data: seq<Byte>, i: nat, k: nat, acc: nat, v: nat)
    requires 7 * k <= 63 && acc < Pow2(7 * k)
    requires acc + v * Pow2(7 * k) < TWO64
    requires i + |Leb128(v)| <= |data| && data[i..i + |Leb128(v)|] == Leb128(v)
    ensures DecodeFrom(data, i, 7 * k, acc) == Ok((acc + v * Pow2(7 * k), i + |Leb128(v)|))
    decreases v
  {
    var shift := 7 * k;
    var p := Pow2(shift);
    var b := data[i];
    LebAt(data, i, v);
    GroupFits(v, k, acc);
    var acc' := acc + (v % 128) * p;
    assert acc' == acc + (b % 128) * p % TWO64;
    if v < 128 {
      assert acc' == acc + v * p;
    } else {
      var v' := v / 128;
      var p' := Pow2(shift + 7);
      GroupSplit(v, k, acc);
      GroupBound(b, k, acc);
      assert acc' < p' && acc' + v' * p' == acc + v * p;
      assert 7 * (k + 1) == shift + 7;
      DecodeFromLeb128(data, i + 1, k + 1, acc', v');
      assert DecodeFrom(data, i, shift, acc) == DecodeFrom(data, i + 1, shift + 7, acc');
    }
  }

  /** The first byte of an encoding found in `data` at i, and where the rest of it is. */
  lemma LebAt(data: seq<Byte>, i: nat, v: nat)
    requires i + |Leb128(v)| <= |data| && data[i..i + |Leb128(v)|] == Leb128(v)
    ensures data[i] % 128 == v % 128 && (data[i] < 128 <==> v < 128)
    ensures v >= 128 ==> |Leb128(v)| == 1 + |Leb128(v / 128)|
    ensures v >= 128 ==> data[i + 1..i + 1 + |Leb128(v / 128)|] == Leb128(v / 128)
  {
    assert data[i] == Leb128(v)[0];
    if v >= 128 {
      assert data[i + 1..i + 1 + |Leb128(v / 128)|] == data[i..i + |Leb128(v)|][1..];
    }
  }

  lemma DecodeOfEncode(v: nat, rest: seq<Byte>)
    requires v < TWO64
    ensures DecodeVarUInt64Spec(Leb128(v) + rest) == Ok((v, |Leb128(v)|))
  {
    var data := Leb128(v) + rest;
    assert data[0..|Leb128(v)|] == Leb128(v);
    DecodeFromLeb128(data, 0, 0, 0, v);
  }

  /** A successful decode consumed 1 to 10 bytes ending in the first byte without the
      continuation bit; a failure means the first ten available bytes all carry it,
      reported as an overflow when ten were available and as truncation otherwise. */
  lemma DecodeOutcome(data: seq<Byte>)
    ensures DecodeVarUInt64Spec(data).Ok? ==>
      var (v, n) := DecodeVarUInt64Spec(data).value;
      v < TWO64 && 1 <= n <= 10 && n <= |data| && data[n - 1] < 128 &&
      forall j :: 0 <= j < n - 1 ==> data[j] >= 128
    ensures DecodeVarUInt64Spec(data).Err? ==>
      (forall j :: 0 <= j < |data| && j < 10 ==> data[j] >= 128) &&
      (DecodeVarUInt64Spec(data).error == "varuint64 overflow" <==> |data| >= 10) &&
      (DecodeVarUInt64Spec(data).error == "varuint64 truncated" <==> |data| < 10)
  {
    DecodeFromOk(data, 0, 0, 0);
    DecodeFromErr(data, 0, 0, 0);
  }

  // ---------------------------------------------------------------------------
  // ZigZag
  // ---------------------------------------------------------------------------

  /** `zigzagEncode64`: `(v << 1) ^ (v >> 63)` on the 64-bit pattern. For v >= 0 the
      arithmetic shift yields 0 and the result is 2v; for v < 0 it yields all ones,
      which complements 2v mod 2^64 into -2v - 1. */
  function ZigZagEncode(v: int): (r: nat)
    ensures r % 2 == 0 <==> v >= 0
  {
    if v >= 0 then 2 * v else -2 * v - 1
  }

  /** `zigzagDecode64`: `(u >> 1) ^ -(u & 1)`, i.e. u/2 for even u and the complement
      of u/2, -(u/2) - 1, for odd u. */
  function ZigZagDecode(u: nat): (r: int)
    ensures r >= 0 <==> u % 2 == 0
  {
    if u % 2 == 0 then u / 2 else -(u / 2) - 1
  }

  lemma ZigZagRoundTrip(v: int, u: nat)
    ensures ZigZagDecode(ZigZagEncode(v)) == v
    ensures ZigZagEncode(ZigZagDecode(u)) == u
  {
  }

  lemma ZigZagRanges(v: int, u: nat)
    ensures I64.Holds(v) ==> U64.Holds(ZigZagEncode(v))
    ensures I32.Holds(v) ==> U32.Holds(ZigZagEncode(v))
    ensures U64.Holds(u) ==> I64.Holds(ZigZagDecode(u))
    ensures U32.Holds(u) ==> I32.Holds(ZigZagDecode(u))
    ensures ZigZagEncode(0) == 0 && ZigZagEncode(-1) == 1 && ZigZagEncode(1) == 2
  {
    Pow256Values();
  }

  // ---------------------------------------------------------------------------
  // 32-bit wrappers
  // ---------------------------------------------------------------------------

  /** A 32-bit value takes between 1 and 5 bytes. */
  lemma Leb128Of32Bit(v: nat)
    requires v <= UINT32_MAX
    ensures 1 <= |Leb128(v)| <= 5
    ensures Leb128(v)[|Leb128(v)| - 1] < 128
  {
    Pow2Values();
    Pow2Monotone(32, 35);
    Leb128Shape(v, 5);
  }

  /** `encodeVarUInt32`: the 64-bit encoding of the widened value, at most five
      bytes for a 32-bit value, the last without the continuation bit. */
  function EncodeVarUInt32(v: nat): (r: seq<Byte>)
    ensures 1 <= |r|
    ensures v <= UINT32_MAX ==> |r| <= 5 && r[|r| - 1] < 128
  {
    if v <= UINT32_MAX then Leb128Of32Bit(v); Leb128(v) else Leb128(v)
  }

  /** `decodeVarUInt32`: the 64-bit decode, rejecting values above UINT32_MAX. */
  function DecodeVarUInt32(data: seq<Byte>): (r: Result<(nat, nat)>)
    ensures r.Ok? ==> r.value.0 <= UINT32_MAX && DecodeVarUInt64Spec(data) == Ok(r.value)
    ensures DecodeVarUInt64Spec(data).Ok? && DecodeVarUInt64Spec(data).value.0 > UINT32_MAX ==>
      r == Err("varuint32 overflow")
  {
    match DecodeVarUInt64Spec(data)
    case Err(e) => Err(e)
    case Ok((v, n)) => if v > UINT32_MAX then Err("varuint32 overflow") else Ok((v, n))
  }

  /** `encodeVarInt32`: ZigZag, then the unsigned encoding; at most five bytes for
      a 32-bit value. */
  function EncodeVarInt32(v: int): (r: seq<Byte>)
    ensures 1 <= |r|
    ensures I32.Holds(v) ==> |r| <= 5
  {
    ZigZagRanges(v, 0);
    Pow256Values();
    EncodeVarUInt32(ZigZagEncode(v))
  }

  /** `decodeVarInt32`: the unsigned 32-bit decode, its errors included, then
      ZigZag; a success is a 32-bit signed value whose ZigZag form is what the
      unsigned decode read. */
  function DecodeVarInt32(data: seq<Byte>): (r: Result<(int, nat)>)
    ensures r.Ok? <==> DecodeVarUInt32(data).Ok?
    ensures r.Err? ==> r == Err(DecodeVarUInt32(data).error)
    ensures r.Ok? ==> I32.Holds(r.value.0) && r.value.1 == DecodeVarUInt32(data).value.1
    ensures r.Ok? ==> ZigZagEncode(r.value.0) == DecodeVarUInt32(data).value.0
  {
    match DecodeVarUInt32(data)
    case Err(e) => Err(e)
    case Ok((u, n)) =>
      ZigZagRanges(0, u);
      ZigZagRoundTrip(0, u);
      Pow256Values();
      Ok((ZigZagDecode(u), n))
  }

  lemma DecodeVarUInt32OfEncode(v: nat, rest: seq<Byte>)
    requires v <= UINT32_MAX
    ensures DecodeVarUInt32(EncodeVarUInt32(v) + rest) == Ok((v, |EncodeVarUInt32(v)|))
  {
    DecodeOfEncode(v, rest);
  }

  lemma DecodeVarInt32OfEncode(v: int, rest: seq<Byte>)
    requires I32.Holds(v)
    ensures DecodeVarInt32(EncodeVarInt32(v) + rest) == Ok((v, |EncodeVarInt32(v)|))
  {
    ZigZagRanges(v, 0);
    Pow256Values();
    DecodeVarUInt32OfEncode(ZigZagEncode(v), rest);
    ZigZagRoundTrip(v, 0);
  }
}
