/** Callback collectors.  A callback is the list of nonempty chunks it answers with,
followed by empty answers for ever; every call is recorded with the offset and the point
it was given. */
module Collectors {
  import opened Values
  import opened SyntaxTree
  import opened Unicode

  const MAX_CALLS: nat := 0x10_0000
  const NEWLINE: nat := 10

  datatype Call = Call(offset: u32, point: Point)

  datatype Error = TooLong | OddLength | NoProgress | UnsupportedEncoding

  datatype Result<+T> = Ok(value: T) | Err(error: Error)

  /** The text of the first `n` chunks. */
  function Upto<T>(chunks: seq<seq<T>>, n: nat): seq<T>
    requires n <= |chunks|
  {
    if n == 0 then [] else Upto(chunks, n - 1) + chunks[n - 1]
  }

  function Concat<T>(chunks: seq<seq<T>>): seq<T> {
    Upto(chunks, |chunks|)
  }

  lemma {:induction false} UptoMonotone<T>(chunks: seq<seq<T>>, i: nat, j: nat)
    requires i <= j <= |chunks|
    ensures |Upto(chunks, i)| <= |Upto(chunks, j)|
    decreases j
  {
    if i < j {
      UptoMonotone(chunks, i, j - 1);
    }
  }

  // ---------------------------------------------------------------- points

  /** Newlines so far and units since the last one, unbounded. */
  function RowOf(units: seq<int>): nat {
    if units == [] then 0 else
    RowOf(units[..|units| - 1]) + (if units[|units| - 1] == NEWLINE then 1 else 0)
  }

  function ColumnOf(units: seq<int>): nat {
    if units == [] || units[|units| - 1] == NEWLINE then 0 else 1 + ColumnOf(units[..|units| - 1])
  }

  lemma {:induction false} PointBounds(units: seq<int>)
    ensures RowOf(units) + ColumnOf(units) <= |units|
    decreases |units|
  {
    if units != [] {
      PointBounds(units[..|units| - 1]);
    }
  }

  /** The position after a text of at most 2^32-1 units; it always fits the wire. */
  function PointOf(units: seq<int>): Point
    requires |units| <= U32_MAX
  {
    PointBounds(units);
    Point(RowOf(units), ColumnOf(units))
  }

  lemma {:induction false} PointStep(units: seq<int>, u: int)
    requires |units| < U32_MAX
    ensures var p := PointOf(units);
            && p.column < U32_MAX && p.row < U32_MAX
            && PointOf(units + [u]) == (if u == NEWLINE then Point(p.row + 1, 0) else Point(p.row, p.column + 1))
  {
    PointBounds(units);
    PointBounds(units + [u]);
    assert (units + [u])[..|units|] == units;
  }

  /** Advances a point over a chunk, one unit at a time. */
  method AdvancePoint(all: seq<int>, chunk: seq<int>, from: Point) returns (point: Point)
    requires |all| + |chunk| <= U32_MAX && from == PointOf(all)
    ensures point == PointOf(all + chunk)
  {
    point := from;
    assert all + chunk[..0] == all;
    for i := 0 to |chunk|
      invariant point == PointOf(all + chunk[..i])
    {
      PointStep(all + chunk[..i], chunk[i]);
      assert all + chunk[..i + 1] == (all + chunk[..i]) + [chunk[i]];
      if chunk[i] == NEWLINE {
        point := Point(point.row + 1, 0);
      } else {
        point := Point(point.row, point.column + 1);
      }
    }
    assert chunk[..|chunk|] == chunk;
  }

  // ---------------------------------------------------------------- bytes and units

  /** The text passes 2^32-1 within the calls a collector makes. */
  ghost predicate Overflows(chunks: seq<seq<int>>) {
    exists i :: 0 <= i <= |chunks| && i <= MAX_CALLS && |Upto(chunks, i)| > U32_MAX
  }

  /** The text of the first `n` chunks, and of fewer, fits. */
  ghost predicate FitsUpto(chunks: seq<seq<int>>, n: nat) {
    n <= |chunks| && forall i :: 0 <= i <= n ==> |Upto(chunks, i)| <= U32_MAX
  }

  lemma {:induction false} OverflowsIff(chunks: seq<seq<int>>)
    requires |chunks| <= MAX_CALLS
    ensures Overflows(chunks) <==> |Concat(chunks)| > U32_MAX
  {
    if Overflows(chunks) {
      var i :| 0 <= i <= |chunks| && i <= MAX_CALLS && |Upto(chunks, i)| > U32_MAX;
      UptoMonotone(chunks, i, |chunks|);
    }
  }

  /** What a collector must see at each call. */
  ghost predicate SawPrefixes(chunks: seq<seq<int>>, calls: seq<Call>) {
    && |calls| <= |chunks| + 1
    && forall i :: 0 <= i < |calls| ==>
         && |Upto(chunks, i)| <= U32_MAX
         && calls[i] == Call(|Upto(chunks, i)|, PointOf(Upto(chunks, i)))
  }

  /** Appending to a text of bytes or of units, whichever the callback returns. */
  method CollectInput(chunks: seq<seq<int>>) returns (r: Result<seq<int>>, ghost calls: seq<Call>)
    requires forall i :: 0 <= i < |chunks| ==> chunks[i] != []
    ensures r == if Overflows(chunks) then Err(TooLong)
                 else if |chunks| >= MAX_CALLS then Err(NoProgress)
                 else Ok(Concat(chunks))
    ensures r.Ok? ==> |calls| == |chunks| + 1
    ensures SawPrefixes(chunks, calls)
  {
    calls := [];
    var all: seq<int> := [];
    var point := Point(0, 0);
    for n := 0 to MAX_CALLS
      invariant n <= |chunks| && all == Upto(chunks, n) && |all| <= U32_MAX && point == PointOf(all)
      invariant |calls| == n && SawPrefixes(chunks, calls)
      invariant FitsUpto(chunks, n)
    {
      calls := calls + [Call(|all|, point)];
      var chunk := if n < |chunks| then chunks[n] else [];
      if |chunk| == 0 {
        return Ok(all), calls;
      }
      if |all| + |chunk| > U32_MAX {
        assert |Upto(chunks, n + 1)| > U32_MAX;
        return Err(TooLong), calls;
      }
      point := AdvancePoint(all, chunk, point);
      all := all + chunk;
    }
    return Err(NoProgress), calls;
  }

  // ---------------------------------------------------------------- UTF-16 in bytes

  datatype ByteOrder = LittleEndian | BigEndian

  function UnitAt(order: ByteOrder, first: int, second: int): int {
    if order.LittleEndian? then first + 0x100 * second else 0x100 * first + second
  }

  /** The complete units of a byte string; an odd last byte is left over. */
  function UnitsOf(order: ByteOrder, raw: seq<int>): (units: seq<int>)
    ensures |units| == |raw| / 2
  {
    seq(|raw| / 2, i requires 0 <= i < |raw| / 2 => UnitAt(order, raw[2 * i], raw[2 * i + 1]))
  }

  lemma {:induction false} UnitsOfStep(order: ByteOrder, raw: seq<int>, b: int)
    ensures |raw| % 2 == 0 ==> UnitsOf(order, raw + [b]) == UnitsOf(order, raw)
    ensures |raw| % 2 == 1 ==> UnitsOf(order, raw + [b]) == UnitsOf(order, raw) + [UnitAt(order, raw[|raw| - 1], b)]
  {
  }

  /** What the UTF-16 byte collector must see: byte offsets, unit points. */
  ghost predicate SawUnits(order: ByteOrder, chunks: seq<seq<int>>, calls: seq<Call>) {
    && |calls| <= |chunks| + 1
    && forall i :: 0 <= i < |calls| ==>
         && |Upto(chunks, i)| <= U32_MAX
         && calls[i] == Call(|Upto(chunks, i)|, PointOf(UnitsOf(order, Upto(chunks, i))))
  }

  lemma {:induction false} SawUnitsGrow(order: ByteOrder, chunks: seq<seq<int>>, calls: seq<Call>, pending: int, havePending: bool, point: Point)
    requires SawUnits(order, chunks, calls) && |calls| <= |chunks|
    requires Carry(order, Upto(chunks, |calls|), point, pending, havePending)
    ensures SawUnits(order, chunks, calls + [Call(|Upto(chunks, |calls|)|, point)])
  {
  }

  /** Carries a split unit from one chunk to the next. */
  method AdvanceUnits(order: ByteOrder, all: seq<int>, chunk: seq<int>, from: Point, carried: int, carrying: bool)
    returns (point: Point, pending: int, havePending: bool)
    requires |all| + |chunk| <= U32_MAX && Carry(order, all, from, carried, carrying)
    ensures Carry(order, all + chunk, point, pending, havePending)
  {
    point, pending, havePending := from, carried, carrying;
    assert all + chunk[..0] == all;
    for i := 0 to |chunk|
      invariant Carry(order, all + chunk[..i], point, pending, havePending)
    {
      assert all + chunk[..i + 1] == (all + chunk[..i]) + [chunk[i]];
      point, pending, havePending := AdvanceByte(order, all + chunk[..i], point, pending, havePending, chunk[i]);
    }
    assert chunk[..|chunk|] == chunk;
  }

  /** The collector's state after a prefix: the point of its complete units, and the
  first byte of a split unit. */
  ghost predicate Carry(order: ByteOrder, seen: seq<int>, point: Point, pending: int, havePending: bool) {
    && |seen| <= U32_MAX
    && point == PointOf(UnitsOf(order, seen))
    && (havePending <==> |seen| % 2 == 1)
    && (havePending ==> pending == seen[|seen| - 1])
  }

  method AdvanceByte(order: ByteOrder, ghost seen: seq<int>, from: Point, carried: int, carrying: bool, b: int)
    returns (point: Point, pending: int, havePending: bool)
    requires Carry(order, seen, from, carried, carrying) && |seen| < U32_MAX
    ensures Carry(order, seen + [b], point, pending, havePending)
  {
    UnitsOfStep(order, seen, b);
    point, pending, havePending := from, carried, carrying;
    if !havePending {
      pending, havePending := b, true;
      return;
    }
    var unit := UnitAt(order, pending, b);
    PointStep(UnitsOf(order, seen), unit);
    if unit == NEWLINE {
      point := Point(point.row + 1, 0);
    } else {
      point := Point(point.row, point.column + 1);
    }
    havePending := false;
  }

  method CollectUTF16BytesInput(chunks: seq<seq<int>>, order: ByteOrder) returns (r: Result<seq<int>>, ghost calls: seq<Call>)
    requires forall i :: 0 <= i < |chunks| ==> chunks[i] != []
    ensures r == if Overflows(chunks) then Err(TooLong)
                 else if |chunks| >= MAX_CALLS then Err(NoProgress)
                 else if |Concat(chunks)| % 2 == 1 then Err(OddLength)
                 else Ok(Concat(chunks))
    ensures r.Ok? ==> |calls| == |chunks| + 1
    ensures SawUnits(order, chunks, calls)
  {
    calls := [];
    var all: seq<int> := [];
    var point := Point(0, 0);
    var pending, havePending := 0, false;
    for n := 0 to MAX_CALLS
      invariant n <= |chunks| && all == Upto(chunks, n)
      invariant Carry(order, all, point, pending, havePending)
      invariant |calls| == n && SawUnits(order, chunks, calls)
      invariant FitsUpto(chunks, n)
    {
      SawUnitsGrow(order, chunks, calls, pending, havePending, point);
      calls := calls + [Call(|all|, point)];
      var chunk := if n < |chunks| then chunks[n] else [];
      if |chunk| == 0 {
        if havePending {
          return Err(OddLength), calls;
        }
        return Ok(all), calls;
      }
      if |all| + |chunk| > U32_MAX {
        assert |Upto(chunks, n + 1)| > U32_MAX;
        return Err(TooLong), calls;
      }
      point, pending, havePending := AdvanceUnits(order, all, chunk, point, pending, havePending);
      all := all + chunk;
    }
    return Err(NoProgress), calls;
  }

  // ---------------------------------------------------------------- one text, three forms

  predicate AreBytes(raw: seq<int>) {
    forall i :: 0 <= i < |raw| ==> 0 <= raw[i] < 0x100
  }

  /** The bytes of a unit sequence. */
  function BytesOf(order: ByteOrder, units: seq<u16>): (raw: seq<int>)
    ensures |raw| == 2 * |units| && AreBytes(raw)
  {
    if units == [] then [] else
    var u := units[|units| - 1];
    BytesOf(order, units[..|units| - 1]) + (if order.LittleEndian? then [u % 0x100, u / 0x100] else [u / 0x100, u % 0x100])
  }

  lemma {:induction false} UnitsOfBytesOf(order: ByteOrder, units: seq<u16>)
    ensures UnitsOf(order, BytesOf(order, units)) == units
    decreases |units|
  {
    if units != [] {
      var init, u := units[..|units| - 1], units[|units| - 1];
      UnitsOfBytesOf(order, init);
      var first, second := if order.LittleEndian? then u % 0x100 else u / 0x100, if order.LittleEndian? then u / 0x100 else u % 0x100;
      var raw := BytesOf(order, init);
      assert BytesOf(order, units) == (raw + [first]) + [second];
      UnitsOfStep(order, raw, first);
      UnitsOfStep(order, raw + [first], second);
      assert units == init + [u];
    }
  }

  function AsUnits(order: ByteOrder, raw: seq<int>): (units: seq<u16>)
    requires AreBytes(raw)
  {
    var units := UnitsOf(order, raw);
    assert forall i :: 0 <= i < |units| ==> units[i] == UnitAt(order, raw[2 * i], raw[2 * i + 1]);
    units
  }

  /** Decodes UTF-16 bytes unit by unit; an odd length is an error. */
  method Utf16BytesToUTF8(raw: seq<int>, order: ByteOrder) returns (r: Result<seq<u8>>)
    requires AreBytes(raw)
    ensures r == if |raw| % 2 != 0 then Err(OddLength) else Ok(Text(AsUnits(order, raw)))
  {
    if |raw| % 2 != 0 {
      return Err(OddLength);
    }
    ghost var expected := AsUnits(order, raw);
    var units: seq<u16> := [];
    for i := 0 to |raw| / 2
      invariant units == expected[..i]
    {
      var unit := UnitAt(order, raw[2 * i], raw[2 * i + 1]);
      assert unit == expected[i];
      units := units + [unit];
    }
    assert units == expected;
    return Ok(Text(units));
  }

  datatype Encoding = UTF8 | UTF16LE | UTF16BE | Custom

  function OrderOf(e: Encoding): ByteOrder {
    if e.UTF16LE? then LittleEndian else BigEndian
  }

  /** Collects and decodes an input descriptor. */
  method CollectInputEncoding(encoding: Encoding, chunks: seq<seq<int>>) returns (r: Result<seq<int>>)
    requires forall i :: 0 <= i < |chunks| ==> chunks[i] != []
    requires AreBytes(Concat(chunks))
    ensures encoding.Custom? ==> r == Err(UnsupportedEncoding)
    ensures !encoding.Custom? ==>
              (r.Ok? <==> |chunks| < MAX_CALLS && |Concat(chunks)| <= U32_MAX && (encoding.UTF8? || |Concat(chunks)| % 2 == 0))
    ensures r.Err? ==> !(r.error.OddLength? && encoding.UTF8?)
    ensures r.Ok? ==> r.value == if encoding.UTF8? then Concat(chunks) else Text(AsUnits(OrderOf(encoding), Concat(chunks)))
  {
    if |chunks| <= MAX_CALLS {
      OverflowsIff(chunks);
    }
    match encoding
    case UTF8 =>
      ghost var calls;
      r, calls := CollectInput(chunks);
    case Custom =>
      r := Err(UnsupportedEncoding);
    case _ =>
      var raw, _ := CollectUTF16BytesInput(chunks, OrderOf(encoding));
      if raw.Err? {
        return raw;
      }
      r := Utf16BytesToUTF8(raw.value, OrderOf(encoding));
  }

  /** Chunking independence: however a text is split, in either byte order, the collected
  input is the UTF-8 text of its units. */
  lemma {:induction false} OneTextThreeForms(units: seq<u16>, order: ByteOrder, chunks: seq<seq<int>>)
    requires Concat(chunks) == BytesOf(order, units)
    ensures AreBytes(Concat(chunks)) && |Concat(chunks)| % 2 == 0
    ensures Text(AsUnits(order, Concat(chunks))) == Text(units)
  {
    UnitsOfBytesOf(order, units);
  }
}
