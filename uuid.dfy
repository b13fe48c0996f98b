/** `Util::UUID` (Util/UUID.hpp): 16 bytes, their text form in the 8-4-4-4-12 layout of
    section 3 of RFC 4122, and the version and variant fields of sections 4.1.3 and
    4.1.1. Parsing and formatting are loops, proved against the functions `Parse` and
    `Format`; the random source of `random` becomes the two 64-bit draws it takes. */
module Uuid {
  import opened Arith
  import opened Wrappers
  import VarInt

  type Bytes16 = s: seq<Byte> | |s| == 16 witness [0, 0, 0, 0, 0, 0, 0, 0, 0, 0, 0, 0, 0, 0, 0, 0]

  datatype UUID = UUID(data: Bytes16)

  /** The default constructor and `null()`: sixteen zero bytes. */
  const Null: UUID := UUID([0, 0, 0, 0, 0, 0, 0, 0, 0, 0, 0, 0, 0, 0, 0, 0])

  // ---------------------------------------------------------------------------
  // Hex digits
  // ---------------------------------------------------------------------------

  /** `hexval`: the digit's value, or -1 for a character that is not a hex digit. */
  function HexVal(c: char): (v: int)
    ensures -1 <= v < 16
    ensures v >= 0 <==> IsHexDigit(c)
  {
    if '0' <= c <= '9' then c as int - '0' as int
    else if 'a' <= c <= 'f' then 10 + (c as int - 'a' as int)
    else if 'A' <= c <= 'F' then 10 + (c as int - 'A' as int)
    else -1
  }

  predicate IsHexDigit(c: char) {
    '0' <= c <= '9' || 'a' <= c <= 'f' || 'A' <= c <= 'F'
  }

  /** The lowercase digit `std::hex` prints for 0 <= d < 16. */
  function HexDigit(d: nat): (c: char)
    requires d < 16
    ensures HexVal(c) == d && c != '-'
    ensures '0' <= c <= '9' || 'a' <= c <= 'f'
  {
    if d < 10 then ('0' as int + d) as char else ('a' as int + d - 10) as char
  }

  /** Two lowercase hex digits for a byte (`setw(2)` with fill '0'). */
  function HexPair(b: Byte): (s: string)
    ensures |s| == 2
  {
    [HexDigit(b / 16), HexDigit(b % 16)]
  }

  /** Hex digit j of the bytes `bs`: the high nibble of byte j / 2 for even j, the
      low nibble for odd j. */
  function Nibble(bs: seq<Byte>, j: nat): char
    requires j < 2 * |bs|
  {
    if j % 2 == 0 then HexDigit(bs[j / 2] / 16) else HexDigit(bs[j / 2] % 16)
  }

  /** The hex text of `bs`: two digits per byte, high nibble first. */
  function HexOf(bs: seq<Byte>): (s: string)
    ensures |s| == 2 * |bs|
  {
    seq(2 * |bs|, (j: int) requires 0 <= j < 2 * |bs| => Nibble(bs, j))
  }

  // ---------------------------------------------------------------------------
  // Parsing
  // ---------------------------------------------------------------------------

  /** The prefix `try_parse` compares with after lower-casing. */
  const UrnPrefix: string := "urn:UUID:"

  /** The prefix of the URN form of section 3 of RFC 4122. */
  const UrnPrefixLower: string := "urn:uuid:"

  /** `std::tolower` on the ASCII letters. */
  function ToLower(s: string): (r: string)
    ensures |r| == |s|
    ensures forall i :: 0 <= i < |s| ==> !('A' <= r[i] <= 'Z')
  {
    if |s| == 0 then ""
    else [if 'A' <= s[0] <= 'Z' then (s[0] as int + 32) as char else s[0]] + ToLower(s[1..])
  }

  function StripUrn(s: string): string {
    if |s| >= |UrnPrefix| && ToLower(s[..|UrnPrefix|]) == UrnPrefix then s[|UrnPrefix|..] else s
  }

  function StripBraces(s: string): (r: string)
    ensures |r| <= |s|
  {
    if |s| > 0 && s[0] == '{' && s[|s| - 1] == '}' then s[1..|s| - 1] else s
  }

  function RemoveHyphens(s: string): (r: string)
    ensures |r| <= |s|
    ensures forall i :: 0 <= i < |r| ==> r[i] != '-'
  {
    if |s| == 0 then ""
    else if s[|s| - 1] == '-' then RemoveHyphens(s[..|s| - 1])
    else RemoveHyphens(s[..|s| - 1]) + [s[|s| - 1]]
  }

  /** The bytes encoded by 32 hex digits, two digits per byte, high nibble first. */
  function HexBytes(hex: string): (b: Bytes16)
    requires |hex| == 32 && forall i :: 0 <= i < 32 ==> IsHexDigit(hex[i])
  {
    seq(16, (i: int) requires 0 <= i < 16 => HexVal(hex[2 * i]) * 16 + HexVal(hex[2 * i + 1]))
  }

  /** The digits `try_parse` is left with. */
  function Digits(s: string): string {
    RemoveHyphens(StripBraces(StripUrn(s)))
  }

  /** What `try_parse` stores on success. */
  function Parse(s: string): (r: Option<UUID>)
    ensures r.Some? <==> |Digits(s)| == 32 && forall i :: 0 <= i < 32 ==> IsHexDigit(Digits(s)[i])
    ensures r.Some? ==> forall i :: 0 <= i < 16 ==>
      r.value.data[i] == HexVal(Digits(s)[2 * i]) * 16 + HexVal(Digits(s)[2 * i + 1])
  {
    var hex := Digits(s);
    if |hex| == 32 && forall i :: 0 <= i < 32 ==> IsHexDigit(hex[i]) then Some(UUID(HexBytes(hex)))
    else None
  }

  /** The URN prefix is written with upper-case "UUID" but compared with a lower-cased
      copy of the input, so it never matches and is never stripped. */
  lemma UrnNeverStripped(s: string)
    ensures StripUrn(s) == s
  {
    if |s| >= |UrnPrefix| {
      var p := ToLower(s[..|UrnPrefix|]);
      assert !('A' <= p[5] <= 'Z');
      assert UrnPrefix[5] == 'U';
    }
  }

  /** `try_parse`. On failure `out` keeps its value; on success it holds the parsed
      bytes. The loops build the digit string and the bytes as the source does. */
  method TryParse(s0: string, out0: UUID) returns (ok: bool, out: UUID)
    ensures ok <==> Parse(s0).Some?
    ensures ok ==> out == Parse(s0).value
    ensures !ok ==> out == out0
  {
    out := out0;
    var s := StripBraces(StripUrn(s0));
    var hex: string := "";
    for j := 0 to |s|
      invariant hex == RemoveHyphens(s[..j])
    {
      assert s[..j + 1][..j] == s[..j];
      if s[j] == '-' {
        continue;
      }
      hex := hex + [s[j]];
    }
    assert s[..|s|] == s;
    if |hex| != 32 {
      return false, out;
    }
    var b: seq<Byte> := seq(16, _ => 0);
    for i := 0 to 16
      invariant |b| == 16
      invariant forall k :: 0 <= k < 2 * i ==> IsHexDigit(hex[k])
      invariant forall k :: 0 <= k < i ==> b[k] == HexVal(hex[2 * k]) * 16 + HexVal(hex[2 * k + 1])
    {
      var hi := HexVal(hex[i * 2]);
      var lo := HexVal(hex[i * 2 + 1]);
      if hi == -1 || lo == -1 {
        assert !IsHexDigit(hex[2 * i]) || !IsHexDigit(hex[2 * i + 1]);
        return false, out;
      }
      b := b[i := hi * 16 + lo];
    }
    out := UUID(b);
    ok := true;
  }

  /** `from_string`: the parsed UUID, or an error exactly when `try_parse` fails. */
  function FromString(s: string): (r: Result<UUID>)
    ensures r.Ok? <==> Parse(s).Some?
    ensures r.Ok? ==> r.value == Parse(s).value
  {
    match Parse(s)
    case Some(u) => Ok(u)
    case None => Err("UUID::from_string: invalid UUID string")
  }

  // ---------------------------------------------------------------------------
  // Formatting
  // ---------------------------------------------------------------------------

  /** 32 hex digits in groups of 8, 4, 4, 4 and 12 separated by '-'. */
  function Layout(h: string): (r: string)
    requires |h| == 32
    ensures |r| == 36
  {
    h[0..8] + "-" + h[8..12] + "-" + h[12..16] + "-" + h[16..20] + "-" + h[20..32]
  }

  predicate IsHyphenPos(i: int) {
    i == 8 || i == 13 || i == 18 || i == 23
  }

  /** The digit shown at position i of the layout: i less the hyphens before it. */
  function DigitIndex(i: int): int {
    if i < 8 then i else if i < 13 then i - 1 else if i < 18 then i - 2
    else if i < 23 then i - 3 else i - 4
  }

  lemma LayoutChar(h: string, i: int)
    requires |h| == 32 && 0 <= i < 36
    ensures IsHyphenPos(i) ==> Layout(h)[i] == '-'
    ensures !IsHyphenPos(i) ==> 0 <= DigitIndex(i) < 32 && Layout(h)[i] == h[DigitIndex(i)]
  {
  }

  /** The text `to_string` produces: the lowercase hex digits of the 16 bytes, laid
      out as 4, 2, 2, 2 and 6 bytes separated by '-'. */
  function Format(u: UUID): string {
    Layout(HexOf(u.data))
  }

  /** Appends the hex pairs of `data[lo..hi]`, as one of the `put` loops does. */
  method PutRange(os: string, data: Bytes16, lo: nat, hi: nat) returns (r: string)
    requires lo <= hi <= 16
    ensures r == os + HexOf(data)[2 * lo..2 * hi]
  {
    r := os;
    ghost var h := HexOf(data);
    for i := lo to hi
      invariant r == os + h[2 * lo..2 * i]
    {
      HexOfStep(data, lo, i);
      r := r + HexPair(data[i]);
    }
  }

  /** The hex text of bytes lo..i+1 is that of lo..i followed by the pair of byte i. */
  lemma HexOfStep(data: Bytes16, lo: nat, i: nat)
    requires lo <= i < 16
    ensures HexOf(data)[2 * lo..2 * i + 2] == HexOf(data)[2 * lo..2 * i] + HexPair(data[i])
  {
    var h := HexOf(data);
    assert h[2 * i] == HexDigit(data[i] / 16);
    assert h[2 * i + 1] == HexDigit(data[i] % 16);
    assert h[2 * lo..2 * i + 2] == h[2 * lo..2 * i] + [h[2 * i], h[2 * i + 1]];
  }

  /** `to_string`. */
  method ToString(u: UUID) returns (s: string)
    ensures s == Format(u)
  {
    s := PutRange("", u.data, 0, 4);
    s := s + "-";
    s := PutRange(s, u.data, 4, 6);
    s := s + "-";
    s := PutRange(s, u.data, 6, 8);
    s := s + "-";
    s := PutRange(s, u.data, 8, 10);
    s := s + "-";
    s := PutRange(s, u.data, 10, 16);
  }

  /** Every character of the hex text is a lowercase hex digit. */
  lemma HexOfDigits(d: seq<Byte>, k: nat)
    requires k < 2 * |d|
    ensures '0' <= HexOf(d)[k] <= '9' || 'a' <= HexOf(d)[k] <= 'f'
  {
  }

  /** The text form has 36 characters, '-' at 8, 13, 18 and 23 and a lowercase hex
      digit everywhere else. */
  lemma FormatLayout(u: UUID)
    ensures |Format(u)| == 36
    ensures forall i :: 0 <= i < 36 ==> (Format(u)[i] == '-' <==> IsHyphenPos(i))
    ensures forall i :: 0 <= i < 36 && !IsHyphenPos(i) ==>
      '0' <= Format(u)[i] <= '9' || 'a' <= Format(u)[i] <= 'f'
  {
    forall i | 0 <= i < 36
      ensures Format(u)[i] == '-' <==> IsHyphenPos(i)
      ensures !IsHyphenPos(i) ==> '0' <= Format(u)[i] <= '9' || 'a' <= Format(u)[i] <= 'f'
    {
      LayoutChar(HexOf(u.data), i);
      if !IsHyphenPos(i) {
        HexOfDigits(u.data, DigitIndex(i));
      }
    }
  }

  lemma {:induction false} RemoveHyphensNoHyphen(s: string)
    requires forall i :: 0 <= i < |s| ==> s[i] != '-'
    ensures RemoveHyphens(s) == s
    decreases |s|
  {
    if |s| > 0 {
      RemoveHyphensNoHyphen(s[..|s| - 1]);
    }
  }

  lemma {:induction false} RemoveHyphensAppend(a: string, b: string)
    ensures RemoveHyphens(a + b) == RemoveHyphens(a) + RemoveHyphens(b)
    decreases |b|
  {
    if |b| == 0 {
      assert a + b == a;
    } else {
      assert (a + b)[..|a + b| - 1] == a + b[..|b| - 1];
      RemoveHyphensAppend(a, b[..|b| - 1]);
    }
  }

  /** Removing the hyphens of `a + "-" + b`. */
  lemma RemoveHyphensJoin(a: string, b: string)
    ensures RemoveHyphens(a + "-" + b) == RemoveHyphens(a) + RemoveHyphens(b)
  {
    RemoveHyphensAppend(a, "-");
    RemoveHyphensAppend(a + "-", b);
    assert RemoveHyphens("-") == "";
  }

  /** Removing the hyphens of the layout gives the digits back. */
  lemma RemoveHyphensOfLayout(h: string)
    requires |h| == 32 && forall k :: 0 <= k < 32 ==> h[k] != '-'
    ensures RemoveHyphens(Layout(h)) == h
  {
    RemoveHyphensNoHyphen(h);
    var p1 := h[0..8];
    var p2 := p1 + "-" + h[8..12];
    var p3 := p2 + "-" + h[12..16];
    var p4 := p3 + "-" + h[16..20];
    var p5 := p4 + "-" + h[20..32];
    assert p5 == Layout(h);
    RemoveHyphensNoHyphen(p1);
    RemoveHyphensNoHyphen(h[8..12]);
    RemoveHyphensNoHyphen(h[12..16]);
    RemoveHyphensNoHyphen(h[16..20]);
    RemoveHyphensNoHyphen(h[20..32]);
    RemoveHyphensJoin(p1, h[8..12]);
    assert RemoveHyphens(p2) == h[0..12];
    RemoveHyphensJoin(p2, h[12..16]);
    assert RemoveHyphens(p3) == h[0..16];
    RemoveHyphensJoin(p3, h[16..20]);
    assert RemoveHyphens(p4) == h[0..20];
    RemoveHyphensJoin(p4, h[20..32]);
    assert h[0..20] + h[20..32] == h;
  }

  /** The digits `try_parse` keeps from the text form are the hex text of the bytes. */
  lemma DigitsOfFormat(u: UUID)
    ensures RemoveHyphens(Format(u)) == HexOf(u.data)
    ensures Digits(Format(u)) == HexOf(u.data)
  {
    var h := HexOf(u.data);
    var f := Format(u);
    UrnNeverStripped(f);
    HexOfDigits(u.data, 0);
    assert StripBraces(f) == f;
    forall k | 0 <= k < 32
      ensures h[k] != '-'
    {
      HexOfDigits(u.data, k);
    }
    RemoveHyphensOfLayout(h);
  }

  /** The hex text of 16 bytes is 32 hex digits that decode to the same bytes. */
  lemma HexBytesOfHexOf(d: Bytes16)
    ensures forall k :: 0 <= k < 32 ==> IsHexDigit(HexOf(d)[k])
    ensures HexBytes(HexOf(d)) == d
  {
    var h := HexOf(d);
    forall k | 0 <= k < 32
      ensures IsHexDigit(h[k])
    {
      HexOfDigits(d, k);
    }
    forall i | 0 <= i < 16
      ensures HexBytes(h)[i] == d[i]
    {
      HexOfByte(d, i);
    }
  }

  /** The two digits of byte i decode to byte i. */
  lemma HexOfByte(d: Bytes16, i: nat)
    requires i < 16
    ensures HexVal(HexOf(d)[2 * i]) * 16 + HexVal(HexOf(d)[2 * i + 1]) == d[i]
  {
    var b := d[i];
    var hi, lo := b / 16, b % 16;
    assert HexOf(d)[2 * i] == HexDigit(hi);
    assert HexOf(d)[2 * i + 1] == HexDigit(lo);
  }

  /** Parsing the text form of a UUID gives the UUID back. */
  lemma ParseFormat(u: UUID)
    ensures Parse(Format(u)) == Some(u)
  {
    DigitsOfFormat(u);
    HexBytesOfHexOf(u.data);
  }

  /** A URN-prefixed form does not parse: the nine prefix characters stay in the
      digit string. */
  lemma UrnFormRejected(u: UUID)
    ensures Parse(UrnPrefixLower + Format(u)).None?
  {
    DigitsOfFormat(u);
    UrnDigits(Format(u));
  }

  /** Behind the URN prefix, `try_parse` strips nothing but hyphens. */
  lemma UrnDigits(t: string)
    ensures Digits(UrnPrefixLower + t) == UrnPrefixLower + RemoveHyphens(t)
  {
    var s := UrnPrefixLower + t;
    UrnNotBraced(t);
    DigitsOfUnbraced(s);
    UrnHyphens(t);
  }

  lemma DigitsOfUnbraced(s: string)
    requires StripBraces(s) == s
    ensures Digits(s) == RemoveHyphens(s)
  {
    UrnNeverStripped(s);
  }

  lemma UrnHyphens(t: string)
    ensures RemoveHyphens(UrnPrefixLower + t) == UrnPrefixLower + RemoveHyphens(t)
  {
    RemoveHyphensNoHyphen(UrnPrefixLower);
    RemoveHyphensAppend(UrnPrefixLower, t);
  }

  lemma UrnNotBraced(t: string)
    ensures StripBraces(UrnPrefixLower + t) == UrnPrefixLower + t
  {
    assert (UrnPrefixLower + t)[0] == 'u';
  }

  // ---------------------------------------------------------------------------
  // Version, variant, order and the bits `random` fixes
  // ---------------------------------------------------------------------------

  /** `version()`: the high nibble of byte 6. */
  function Version(u: UUID): (v: int)
    ensures 0 <= v < 16
  {
    u.data[6] / 16 % 16
  }

  /** `variant()`: 0 when the top bit of byte 8 is clear, 2 when its top two bits are
      10, and 6 otherwise. */
  function Variant(u: UUID): (v: int)
    ensures v == 0 <==> u.data[8] < 0x80
    ensures v == 2 <==> 0x80 <= u.data[8] < 0xC0
    ensures v == 6 <==> u.data[8] >= 0xC0
  {
    var c := u.data[8];
    if c / 128 == 0 then 0 else if c / 64 == 2 then 2 else 6
  }

  /** `random`, given the two 64-bit draws: their big-endian bytes, with the version
      nibble of byte 6 forced to 4 and the top bits of byte 8 forced to 10. */
  method Random(a: nat, c: nat) returns (u: UUID)
    requires a < TWO64 && c < TWO64
    ensures Version(u) == 4 && Variant(u) == 2
    ensures u.data[6] % 16 == VarInt.BEBytes(a, 8)[6] % 16
    ensures u.data[8] % 64 == VarInt.BEBytes(c, 8)[0] % 64
    ensures forall i :: 0 <= i < 8 && i != 6 ==> u.data[i] == VarInt.BEBytes(a, 8)[i]
    ensures forall i :: 9 <= i < 16 ==> u.data[i] == VarInt.BEBytes(c, 8)[i - 8]
  {
    var b: Bytes16 := seq(16, _ => 0);
    b := PutBigEndian(b, 0, a);
    b := PutBigEndian(b, 8, c);
    b := b[6 := b[6] % 16 + 0x40];
    b := b[8 := b[8] % 64 + 0x80];
    u := UUID(b);
  }

  /** One of `random`'s loops: the eight bytes of x, most significant first, stored
      from `base` on. */
  method PutBigEndian(b0: Bytes16, base: nat, x: nat) returns (b: Bytes16)
    requires base <= 8
    ensures forall k :: 0 <= k < 8 ==> b[base + k] == VarInt.BEBytes(x, 8)[k]
    ensures forall k :: 0 <= k < 16 && !(base <= k < base + 8) ==> b[k] == b0[k]
  {
    b := b0;
    for i := 0 to 8
      invariant forall k :: 0 <= k < i ==> b[base + k] == VarInt.BEBytes(x, 8)[k]
      invariant forall k :: 0 <= k < 16 && !(base <= k < base + 8) ==> b[k] == b0[k]
    {
      VarInt.BEBytesIndex(x, 8, i);
      b := b[base + i := x / Pow256(7 - i) % 256];
    }
  }

  /** `operator<`: lexicographic order on the bytes. */
  predicate LexLess(a: seq<Byte>, b: seq<Byte>) {
    |b| > 0 && (|a| == 0 || a[0] < b[0] || (a[0] == b[0] && LexLess(a[1..], b[1..])))
  }

  predicate Less(a: UUID, b: UUID) {
    LexLess(a.data, b.data)
  }

  /** The order `std::array`'s `operator<` promises: at the first position where the
      two differ a's byte is smaller, or a is a proper prefix of b. */
  predicate FirstDifferenceLess(a: seq<Byte>, b: seq<Byte>) {
    exists i :: 0 <= i <= |a| && i < |b| && a[..i] == b[..i] && (i == |a| || a[i] < b[i])
  }

  /** The recursive order is that lexicographic order. */
  lemma {:induction false} LexLessIsFirstDifference(a: seq<Byte>, b: seq<Byte>)
    ensures LexLess(a, b) <==> FirstDifferenceLess(a, b)
    decreases |a|
  {
    if |b| == 0 || |a| == 0 {
      if |b| > 0 {
        assert a[..0] == b[..0];
      }
    } else if a[0] < b[0] {
      assert a[..0] == b[..0];
    } else if a[0] > b[0] {
      forall i | 0 < i <= |a| && i < |b|
        ensures a[..i] != b[..i]
      {
        assert a[..i][0] != b[..i][0];
      }
    } else {
      LexLessIsFirstDifference(a[1..], b[1..]);
      if LexLess(a, b) {
        var i :| 0 <= i <= |a[1..]| && i < |b[1..]| && a[1..][..i] == b[1..][..i] &&
                 (i == |a[1..]| || a[1..][i] < b[1..][i]);
        assert a[..i + 1] == [a[0]] + a[1..][..i];
        assert b[..i + 1] == [b[0]] + b[1..][..i];
        assert a[..i + 1] == b[..i + 1];
      }
      if FirstDifferenceLess(a, b) {
        var i :| 0 <= i <= |a| && i < |b| && a[..i] == b[..i] && (i == |a| || a[i] < b[i]);
        assert i > 0;
        assert a[1..][..i - 1] == a[..i][1..] && b[1..][..i - 1] == b[..i][1..];
        assert FirstDifferenceLess(a[1..], b[1..]);
      }
    }
  }

  /** The order is a strict total order on same-length byte strings. */
  lemma {:induction false} LexLessStrictTotal(a: seq<Byte>, b: seq<Byte>, c: seq<Byte>)
    requires |a| == |b| == |c|
    ensures !LexLess(a, a)
    ensures LexLess(a, b) ==> !LexLess(b, a)
    ensures LexLess(a, b) && LexLess(b, c) ==> LexLess(a, c)
    ensures a == b || LexLess(a, b) || LexLess(b, a)
    decreases |a|
  {
    if |a| > 0 {
      LexLessStrictTotal(a[1..], b[1..], c[1..]);
      if a[0] == b[0] && a[1..] == b[1..] {
        assert a == [a[0]] + a[1..] && b == [b[0]] + b[1..];
      }
    }
  }

  lemma NullIsLeast(u: UUID)
    ensures u == Null || Less(Null, u)
    ensures !Less(u, Null)
  {
    LeastBytes(u.data, Null.data);
  }

  lemma {:induction false} LeastBytes(a: seq<Byte>, z: seq<Byte>)
    requires |a| == |z| && forall i :: 0 <= i < |z| ==> z[i] == 0
    ensures a == z || LexLess(z, a)
    ensures !LexLess(a, z)
    decreases |a|
  {
    if |a| > 0 {
      LeastBytes(a[1..], z[1..]);
      if a[0] == 0 && a[1..] == z[1..] {
        assert a == [a[0]] + a[1..] && z == [z[0]] + z[1..];
      }
    }
  }
}
