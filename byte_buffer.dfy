/** Memory as the wire layer sees it, and the byte containers of
    Common/Network/ByteBuffer.h.

    A buffer is a sequence of `Octet`s. Integer bytes are `Raw` octets. The bit pattern
    of a `float` or `double` is not modelled: a floating-point value of width w occupies
    w `RealPart` octets that remember the value and their index, so a buffer has the
    exact length the C++ one has and a reader that finds the same w octets gets the
    value back. Strings are byte strings: every character is below 256. */
module Octets {
  import opened Arith
  import opened Wrappers
  import opened VarInt
  import opened Seqs

  datatype Octet = Raw(b: Byte) | RealPart(x: real, index: nat, width: nat)

  /** The byte an octet holds; the bytes of a floating-point value are not modelled
      and read as 0. */
  function ByteOf(o: Octet): Byte {
    if o.Raw? then o.b else 0
  }

  function BytesOf(s: seq<Octet>): (r: seq<Byte>)
    ensures |r| == |s|
  {
    seq(|s|, (i: int) requires 0 <= i < |s| => ByteOf(s[i]))
  }

  function Raws(s: seq<Byte>): (r: seq<Octet>)
    ensures |r| == |s|
  {
    seq(|s|, (i: int) requires 0 <= i < |s| => Raw(s[i]))
  }

  lemma BytesOfRaws(s: seq<Byte>)
    ensures BytesOf(Raws(s)) == s
  {
    assert forall i :: 0 <= i < |s| ==> BytesOf(Raws(s))[i] == s[i];
  }

  lemma RawsDistributes(a: seq<Byte>, b: seq<Byte>)
    ensures Raws(a + b) == Raws(a) + Raws(b)
  {
    assert forall i :: 0 <= i < |a + b| ==> Raws(a + b)[i] == (Raws(a) + Raws(b))[i];
  }

  // ---------------------------------------------------------------------------
  // Host (little-endian) integers
  // ---------------------------------------------------------------------------

  /** The n low-order bytes of u, least significant first (the x86 host order that
      `memcpy` of an integer produces). */
  function LEBytes(u: nat, n: nat): (r: seq<Byte>)
    ensures |r| == n
  {
    if n == 0 then [] else [u % 256] + LEBytes(u / 256, n - 1)
  }

  function FromLE(s: seq<Byte>): (r: nat)
    ensures r < Pow256(|s|)
  {
    if |s| == 0 then 0
    else
      var hi := FromLE(s[1..]);
      assert s[0] + 256 * hi < Pow256(|s|) by {
        MulLe(hi, Pow256(|s| - 1) - 1, 256);
      }
      s[0] + 256 * hi
  }

  lemma {:induction false} FromLEInvertsLEBytes(u: nat, n: nat)
    requires u < Pow256(n)
    ensures FromLE(LEBytes(u, n)) == u
    decreases n
  {
    if n > 0 {
      var s := LEBytes(u, n);
      assert s[1..] == LEBytes(u / 256, n - 1);
      DivModUnique(u, 256, u / 256, u % 256);
      FromLEInvertsLEBytes(u / 256, n - 1);
    }
  }

  lemma {:induction false} LEBytesInvertsFromLE(s: seq<Byte>)
    ensures LEBytes(FromLE(s), |s|) == s
    decreases |s|
  {
    if |s| > 0 {
      DivModAddMultiple(s[0], FromLE(s[1..]), 256);
      LEBytesInvertsFromLE(s[1..]);
      assert s == [s[0]] + s[1..];
    }
  }

  /** The octets `Write<T>(v)` appends for an integer type T. */
  function IntCells(kind: IntKind, v: int): (r: seq<Octet>)
    ensures |r| == kind.width
  {
    Raws(LEBytes(Pattern(v, kind.width), kind.width))
  }

  /** The T that `memcpy` produces from octets. */
  function IntOfCells(cells: seq<Octet>, kind: IntKind): int {
    Interpret(FromLE(BytesOf(cells)), kind)
  }

  lemma IntOfIntCells(kind: IntKind, v: int)
    requires kind.Valid() && kind.Holds(v)
    ensures IntOfCells(IntCells(kind, v), kind) == v
  {
    BytesOfRaws(LEBytes(Pattern(v, kind.width), kind.width));
    FromLEInvertsLEBytes(Pattern(v, kind.width), kind.width);
    InterpretPattern(v, kind);
  }

  /** `bool` is one byte, 1 for true; reading any non-zero byte gives true. */
  function BoolCells(b: bool): seq<Octet> {
    [Raw(if b then 1 else 0)]
  }

  function BoolOfCells(cells: seq<Octet>): bool
    requires |cells| == 1
  {
    ByteOf(cells[0]) != 0
  }

  // ---------------------------------------------------------------------------
  // Floating point
  // ---------------------------------------------------------------------------

  const FLOAT := 4
  const DOUBLE := 8

  function RealCells(x: real, width: nat): (r: seq<Octet>)
    ensures |r| == width
  {
    seq(width, (i: int) requires 0 <= i < width => RealPart(x, i, width))
  }

  /** The value a reader finds in `width` octets: the value they were written from, or
      0.0 for octets that do not hold one whole floating-point value (their IEEE
      meaning is not modelled). */
  function RealOfCells(cells: seq<Octet>, width: nat): real
    requires |cells| == width
  {
    if width > 0 && cells[0].RealPart? && cells == RealCells(cells[0].x, width) then cells[0].x
    else 0.0
  }

  lemma RealOfRealCells(x: real, width: nat)
    requires width > 0
    ensures RealOfCells(RealCells(x, width), width) == x
  {
  }

  // ---------------------------------------------------------------------------
  // Byte strings
  // ---------------------------------------------------------------------------

  /** A `std::string`: characters are bytes. */
  predicate IsByteString(s: string) {
    forall i :: 0 <= i < |s| ==> s[i] as int < 256
  }

  /** The bytes of a string; a character is taken modulo 256, which leaves the
      characters of a byte string unchanged. */
  function StringBytes(s: string): (r: seq<Byte>)
    ensures |r| == |s|
    ensures forall i :: 0 <= i < |s| ==> r[i] == s[i] as int % 256
  {
    seq(|s|, (i: int) requires 0 <= i < |s| => s[i] as int % 256)
  }

  function StringOfBytes(b: seq<Byte>): (r: string)
    ensures |r| == |b| && IsByteString(r)
    ensures forall i :: 0 <= i < |b| ==> r[i] as int == b[i]
  {
    if |b| == 0 then [] else [b[0] as char] + StringOfBytes(b[1..])
  }

  lemma StringRoundTrip(s: string)
    requires IsByteString(s)
    ensures StringOfBytes(StringBytes(s)) == s
  {
    var r := StringOfBytes(StringBytes(s));
    assert |r| == |s|;
    forall i | 0 <= i < |s|
      ensures r[i] == s[i]
    {
      assert s[i] as int < 256;
      assert r[i] as int == s[i] as int;
    }
  }

  /** The first n raw octets of a byte string read back as its first n characters. */
  lemma StringOfRawsPrefix(s: string, n: nat)
    requires IsByteString(s) && n <= |s|
    ensures StringOfBytes(BytesOf(Raws(StringBytes(s))[..n])) == s[..n]
  {
    var r := StringOfBytes(BytesOf(Raws(StringBytes(s))[..n]));
    forall i | 0 <= i < n
      ensures r[i] == s[i]
    {
      assert s[i] as int < 256;
      assert r[i] as int == s[i] as int;
    }
  }

  /** Splitting a slice of a buffer that holds `a + b`. */
  lemma SliceSplit<T>(buf: seq<T>, pos: nat, a: seq<T>, b: seq<T>)
    requires pos + |a| + |b| <= |buf| && buf[pos..pos + |a| + |b|] == a + b
    ensures buf[pos..pos + |a|] == a
    ensures buf[pos + |a|..pos + |a| + |b|] == b
  {
    assert buf[pos..pos + |a|] == buf[pos..pos + |a| + |b|][..|a|];
    assert buf[pos + |a|..pos + |a| + |b|] == buf[pos..pos + |a| + |b|][|a|..];
  }

  // ---------------------------------------------------------------------------
  // Cursors
  // ---------------------------------------------------------------------------

  /** The outcome of a reader and the cursor it leaves behind. */
  datatype Step<+T> = Step(result: Result<T>, pos: nat)

  /** `buf` holds `cells` from `pos` on. */
  predicate HoldsAt(buf: seq<Octet>, pos: nat, cells: seq<Octet>) {
    pos + |cells| <= |buf| && buf[pos..pos + |cells|] == cells
  }

  lemma HoldsAtSplit(buf: seq<Octet>, pos: nat, a: seq<Octet>, b: seq<Octet>)
    requires HoldsAt(buf, pos, a + b)
    ensures HoldsAt(buf, pos, a) && HoldsAt(buf, pos + |a|, b)
  {
    SliceSplit(buf, pos, a, b);
  }

  lemma BytesOfSlice(buf: seq<Octet>, p: nat, data: seq<Byte>)
    requires HoldsAt(buf, p, Raws(data))
    ensures BytesOf(buf[p..p + |data|]) == data
  {
    BytesOfRaws(data);
  }

  /** The items read so far, in front of what the remaining reads of a list return. */
  function Prepend<T>(out: seq<T>, rest: Step<seq<T>>): Step<seq<T>> {
    if rest.result.Ok? then Step(Ok(out + rest.result.value), rest.pos) else rest
  }

  lemma PrependNothing<T>(rest: Step<seq<T>>)
    ensures Prepend([], rest) == rest
  {
    if rest.result.Ok? {
      assert [] + rest.result.value == rest.result.value;
    }
  }

  /** A reader: what it returns, and where it leaves the cursor, at a position of a
      buffer. */
  type Reader<T> = (seq<Octet>, nat) -> Step<T>

  /** `n` items read one after the other; the first failure ends the list. */
  function ReadListAt<T>(buf: seq<Octet>, pos: nat, n: nat, item: Reader<T>): (s: Step<seq<T>>)
    ensures s.result.Ok? ==> |s.result.value| == n
    decreases n, 1
  {
    if n == 0 then Step(Ok([]), pos) else ReadListFrom(buf, pos, n, item)
  }

  /** A list of n > 0 items: the first, then the other n - 1. */
  function ReadListFrom<T>(buf: seq<Octet>, pos: nat, n: nat, item: Reader<T>): (s: Step<seq<T>>)
    requires n > 0
    ensures s.result.Ok? ==> |s.result.value| == n
    decreases n, 0
  {
    var first := item(buf, pos);
    if first.result.Err? then Step(Err(first.result.error), first.pos)
    else
      var rest := ReadListAt(buf, first.pos, n - 1, item);
      if rest.result.Err? then rest
      else Step(Ok([first.result.value] + rest.result.value), rest.pos)
  }

  /** Wherever the cells of x are found, `item` returns x and moves past them. */
  ghost predicate ReadsBack<T>(item: Reader<T>, cells: T -> seq<Octet>, x: T) {
    forall buf: seq<Octet>, p: nat :: HoldsAt(buf, p, cells(x)) ==>
      item(buf, p) == Step(Ok(x), p + |cells(x)|)
  }

  /** A list written item by item is read back item by item. */
  lemma {:induction false} ReadListOfCells<T>(buf: seq<Octet>, pos: nat, v: seq<T>,
                                               item: Reader<T>, cells: T -> seq<Octet>)
    requires forall i :: 0 <= i < |v| ==> ReadsBack(item, cells, v[i])
    requires HoldsAt(buf, pos, Flatten(v, cells))
    ensures ReadListAt(buf, pos, |v|, item) == Step(Ok(v), pos + |Flatten(v, cells)|)
    decreases |v|
  {
    if |v| > 0 {
      var x, tail := v[0], v[1..];
      FlattenCons(v, cells);
      HoldsAtSplit(buf, pos, cells(x), Flatten(tail, cells));
      assert ReadsBack(item, cells, x);
      assert item(buf, pos) == Step(Ok(x), pos + |cells(x)|);
      forall i | 0 <= i < |tail|
        ensures ReadsBack(item, cells, tail[i])
      {
        assert tail[i] == v[i + 1];
      }
      ReadListOfCells(buf, pos + |cells(x)|, tail, item, cells);
      assert [x] + tail == v;
    }
  }

  /** Reading m > 0 items is reading one and then m - 1: the step a reader loop takes. */
  lemma ReadListStep<T>(buf: seq<Octet>, pos: nat, m: nat, out: seq<T>, item: Reader<T>)
    requires m > 0
    ensures var first := item(buf, pos);
      first.result.Err? ==> Prepend(out, ReadListAt(buf, pos, m, item)) == Step(Err(first.result.error), first.pos)
    ensures var first := item(buf, pos);
      first.result.Ok? ==>
        Prepend(out, ReadListAt(buf, pos, m, item)) ==
        Prepend(out + [first.result.value], ReadListAt(buf, first.pos, m - 1, item))
  {
    var first := item(buf, pos);
    if first.result.Ok? {
      var rest := ReadListAt(buf, first.pos, m - 1, item);
      if rest.result.Ok? {
        assert out + ([first.result.value] + rest.result.value) ==
          (out + [first.result.value]) + rest.result.value;
      }
    }
  }

  /** What an entry becomes when it is decoded over in place from a position of a
      buffer, whether the reads succeed or not. */
  type Updater<!E> = (seq<Octet>, nat, E) -> E

  /** A loop that decodes the entries of `objs` from index i on in place, reading
      from `pos`: each entry becomes what `update` makes of it, and the first entry
      whose read by `item` fails ends the loop, later entries untouched. */
  function ReadInto<T, E>(buf: seq<Octet>, pos: nat, objs: seq<E>, i: nat, item: Reader<T>,
                          update: Updater<E>): (r: seq<E>)
    requires i <= |objs|
    ensures |r| == |objs|
    ensures forall j :: 0 <= j < i ==> r[j] == objs[j]
    decreases |objs| - i
  {
    if i == |objs| then objs
    else
      var s := item(buf, pos);
      var next := objs[i := update(buf, pos, objs[i])];
      if s.result.Err? then next else ReadInto(buf, s.pos, next, i + 1, item, update)
  }

  /** Wherever `item` reads a value, `update` leaves the entry merged with it. */
  ghost predicate UpdatesBy<T, E(!new)>(item: Reader<T>, update: Updater<E>, merge: (E, T) -> E) {
    forall b: seq<Octet>, p: nat, e: E :: item(b, p).result.Ok? ==>
      update(b, p, e) == merge(e, item(b, p).result.value)
  }

  /** When every item reads, the loop leaves each entry from i on merged with the
      item read for it. */
  lemma {:induction false} ReadIntoOk<T, E(!new)>(buf: seq<Octet>, pos: nat, objs: seq<E>, i: nat, item: Reader<T>,
                                            update: Updater<E>, merge: (E, T) -> E)
    requires i <= |objs|
    requires UpdatesBy(item, update, merge)
    requires ReadListAt(buf, pos, |objs| - i, item).result.Ok?
    ensures var read := ReadListAt(buf, pos, |objs| - i, item).result.value;
      forall j :: i <= j < |objs| ==> ReadInto(buf, pos, objs, i, item, update)[j] == merge(objs[j], read[j - i])
    decreases |objs| - i
  {
    if i < |objs| {
      var s := item(buf, pos);
      var all := ReadListAt(buf, pos, |objs| - i, item);
      assert all == ReadListFrom(buf, pos, |objs| - i, item);
      var rest := ReadListAt(buf, s.pos, |objs| - i - 1, item);
      assert rest.result.Ok? && all.result.value == [s.result.value] + rest.result.value;
      var next := objs[i := update(buf, pos, objs[i])];
      assert next[i] == merge(objs[i], s.result.value);
      var r := ReadInto(buf, pos, objs, i, item, update);
      assert r == ReadInto(buf, s.pos, next, i + 1, item, update);
      ReadIntoOk(buf, s.pos, next, i + 1, item, update, merge);
      forall j | i <= j < |objs|
        ensures r[j] == merge(objs[j], all.result.value[j - i])
      {
        if j > i {
          assert all.result.value[j - i] == rest.result.value[j - (i + 1)];
        }
      }
    }
  }

  /** The loop stopped at entry i + m: the m items before it read, each merged into
      its entry, the entry at i + m became what `update` makes of it as its read
      failed, and the entries after it are untouched. */
  ghost predicate StopsAt<T, E>(buf: seq<Octet>, pos: nat, objs: seq<E>, i: nat, m: nat, item: Reader<T>,
                                update: Updater<E>, merge: (E, T) -> E)
    requires i + m < |objs|
  {
    var done := ReadListAt(buf, pos, m, item);
    var r := ReadInto(buf, pos, objs, i, item, update);
    && done.result.Ok?
    && item(buf, done.pos).result.Err?
    && (forall j :: i <= j < i + m ==> r[j] == merge(objs[j], done.result.value[j - i]))
    && r[i + m] == update(buf, done.pos, objs[i + m])
    && (forall j :: i + m < j < |objs| ==> r[j] == objs[j])
  }

  /** When some item fails to read, the loop stops at the first one that fails. */
  lemma {:induction false} ReadIntoFails<T, E(!new)>(buf: seq<Octet>, pos: nat, objs: seq<E>, i: nat, item: Reader<T>,
                                               update: Updater<E>, merge: (E, T) -> E)
    requires i <= |objs|
    requires UpdatesBy(item, update, merge)
    requires ReadListAt(buf, pos, |objs| - i, item).result.Err?
    ensures exists m: nat :: i + m < |objs| && StopsAt(buf, pos, objs, i, m, item, update, merge)
    decreases |objs| - i
  {
    var s := item(buf, pos);
    var next := objs[i := update(buf, pos, objs[i])];
    var r := ReadInto(buf, pos, objs, i, item, update);
    if s.result.Err? {
      assert ReadListAt(buf, pos, 0, item) == Step(Ok([]), pos);
      assert StopsAt(buf, pos, objs, i, 0, item, update, merge);
    } else {
      assert ReadListAt(buf, pos, |objs| - i, item) == ReadListFrom(buf, pos, |objs| - i, item);
      assert r == ReadInto(buf, s.pos, next, i + 1, item, update);
      ReadIntoFails(buf, s.pos, next, i + 1, item, update, merge);
      var m: nat :| i + 1 + m < |objs| && StopsAt(buf, s.pos, next, i + 1, m, item, update, merge);
      var done := ReadListAt(buf, s.pos, m, item);
      var all := ReadListAt(buf, pos, m + 1, item);
      assert all == ReadListFrom(buf, pos, m + 1, item);
      assert all == Step(Ok([s.result.value] + done.result.value), done.pos);
      forall j | i <= j < i + m + 1
        ensures r[j] == merge(objs[j], all.result.value[j - i])
      {
        if j == i {
          assert r[i] == next[i];
        } else {
          assert all.result.value[j - i] == done.result.value[j - (i + 1)];
        }
      }
      assert StopsAt(buf, pos, objs, i, m + 1, item, update, merge);
    }
  }

  /** The bytes from a cursor on start with the bytes of the raw octets found there. */
  lemma BytesAfter(buf: seq<Octet>, pos: nat, bytes: seq<Byte>)
    requires HoldsAt(buf, pos, Raws(bytes))
    ensures BytesOf(buf[pos..]) == bytes + BytesOf(buf[pos + |bytes|..])
  {
    var d := BytesOf(buf[pos..]);
    assert forall i :: 0 <= i < |bytes| ==> d[i] == ByteOf(buf[pos + i]) == bytes[i];
    assert forall i :: |bytes| <= i < |d| ==> d[i] == BytesOf(buf[pos + |bytes|..])[i - |bytes|];
  }
}

/** `ByteView` (a pointer and a length) and `ByteBuffer` (an owned vector). */
module ByteBuffers {
  import opened Wrappers
  import opened Octets

  /** A view of `data.size()` octets of some memory; it is its contents. */
  datatype ByteView = ByteView(data: seq<Octet>) {
    function Size(): nat { |data| }

    /** `slice`: the `length` octets from `offset`, or an error when they run past the
        end of the view. */
    function Slice(offset: nat, length: nat): (r: Result<ByteView>)
      ensures r.Err? <==> offset + length > Size()
      ensures r.Ok? ==> r.value.Size() == length
      ensures r.Ok? ==> forall i :: 0 <= i < length ==> r.value.data[i] == data[offset + i]
    {
      if offset + length > |data| then Err("slice out of range")
      else Ok(ByteView(data[offset..offset + length]))
    }
  }

  class ByteBuffer {
    var buf: seq<Octet>

    constructor()
      ensures buf == []
    {
      buf := [];
    }

    /** `ByteBuffer(size)`: `size` zero bytes. */
    constructor Sized(size: nat)
      ensures |buf| == size && forall i :: 0 <= i < size ==> buf[i] == Raw(0)
    {
      buf := seq(size, _ => Raw(0));
    }

    function Size(): nat
      reads this
    {
      |buf|
    }

    method Clear()
      modifies this
      ensures buf == []
    {
      buf := [];
    }

    /** `append(src, len)`: the buffer grows by len and its tail becomes the source. */
    method Append(src: seq<Octet>)
      modifies this
      ensures |buf| == |old(buf)| + |src|
      ensures buf[..|old(buf)|] == old(buf) && buf[|old(buf)|..] == src
    {
      buf := buf + src;
    }

    /** `append(view)`: appends the view's octets. */
    method AppendView(view: ByteView)
      modifies this
      ensures buf == old(buf) + view.data
    {
      Append(view.data);
    }

    /** `view()`: the whole buffer. */
    function View(): (v: ByteView)
      reads this
      ensures v.Size() == Size() && v.data == buf
    {
      ByteView(buf)
    }
  }
}
