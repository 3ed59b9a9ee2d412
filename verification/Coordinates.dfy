/** UTF-8 byte ranges as UTF-16 unit ranges. */
module Coordinates {
  import opened Values
  import opened SyntaxTree
  import opened Unicode

  datatype Boundary = Boundary(byteOffset: nat, unitOffset: nat)

  /** UTF-8 offset of a unit position. */
  function ByteOffset(source: seq<u16>, k: nat): nat
    requires k <= |source|
  {
    |Text(source[..k])|
  }

  /** A byte offset that is the start or end of a rune. */
  ghost predicate AtCut(source: seq<u16>, k: nat, offset: nat) {
    k <= |source| && Cut(source, k) && ByteOffset(source, k) == offset
  }

  ghost predicate EntryOk(source: seq<u16>, b: seq<Boundary>, i: nat)
    requires i < |b|
  {
    AtCut(source, b[i].unitOffset, b[i].byteOffset)
  }

  predicate Ascends(b: seq<Boundary>, i: nat, j: nat)
    requires i < |b| && j < |b|
  {
    b[i].byteOffset < b[j].byteOffset && b[i].unitOffset < b[j].unitOffset
  }

  ghost predicate Listed(b: seq<Boundary>, k: nat) { exists i: nat :: i < |b| && b[i].unitOffset == k }

  /** The boundary table: every cut up to `unit`, in order, with its byte offset. */
  ghost predicate Table(source: seq<u16>, unit: nat, b: seq<Boundary>) {
    && |b| >= 1 && b[0] == Boundary(0, 0)
    && b[|b| - 1].unitOffset == unit
    && (forall i: nat :: i < |b| ==> EntryOk(source, b, i))
    && (forall i: nat, j: nat :: i < j < |b| ==> Ascends(b, i, j))
    && (forall k: nat {:trigger Listed(b, k)} :: k <= unit && Cut(source, k) ==> Listed(b, k))
  }

  /** The text of the first rune alone. */
  lemma {:induction false} FirstText(tail: seq<u16>)
    requires tail != []
    ensures First(tail).1 <= |tail| && Text(tail[..First(tail).1]) == EncodeRune(First(tail).0)
  {
    var r := First(tail);
    var one := tail[..r.1];
    assert First(one) == r && one[r.1..] == [];
    assert DecodeUtf16(one) == [r.0] + DecodeUtf16([]);
    assert Utf8([r.0]) == EncodeRune(r.0) + Utf8([]) by {
      assert [r.0][1..] == [];
    }
  }

  /** The next rune after a cut ends at the next cut. */
  lemma {:induction false} NextCut(source: seq<u16>, unit: nat)
    requires Cut(source, unit) && unit < |source|
    ensures var r := First(source[unit..]);
            && unit + r.1 <= |source| && Cut(source, unit + r.1)
            && ByteOffset(source, unit + r.1) == ByteOffset(source, unit) + |EncodeRune(r.0)|
            && (forall k :: unit < k < unit + r.1 ==> !Cut(source, k))
  {
    var n := First(source[unit..]).1;
    assert Cut(source[unit..], n);
    CutCompose(source, unit, n);
    WidthOfNext(source, unit);
    NoCutInside(source, unit);
  }

  lemma {:induction false} WidthOfNext(source: seq<u16>, unit: nat)
    requires Cut(source, unit) && unit < |source| && Cut(source, unit + First(source[unit..]).1)
    ensures var r := First(source[unit..]);
      unit + r.1 <= |source| && ByteOffset(source, unit + r.1) == ByteOffset(source, unit) + |EncodeRune(r.0)|
  {
    var r := First(source[unit..]);
    WidthBetween(source, unit, unit + r.1);
    SliceOfTail(source, unit, r.1);
    FirstText(source[unit..]);
  }

  lemma {:induction false} WidthBetween(source: seq<u16>, i: nat, j: nat)
    requires Cut(source, i) && Cut(source, j) && i <= j
    ensures j <= |source| && ByteOffset(source, j) == ByteOffset(source, i) + |Text(source[i..j])|
  {
    TextBetweenCuts(source, i, j);
  }

  lemma {:induction false} OffsetInText(source: seq<u16>, k: nat)
    requires Cut(source, k)
    ensures k <= |source| && ByteOffset(source, k) <= |Text(source)|
  {
    CutSplits(source, k);
  }

  lemma {:induction false} SliceOfTail(source: seq<u16>, unit: nat, n: nat)
    requires unit + n <= |source|
    ensures source[unit..unit + n] == source[unit..][..n]
  {
  }

  lemma {:induction false} NoCutInside(source: seq<u16>, unit: nat)
    requires Cut(source, unit) && unit < |source|
    ensures forall k :: unit < k < unit + First(source[unit..]).1 ==> !Cut(source, k)
  {
    forall k | unit < k < unit + First(source[unit..]).1
      ensures !Cut(source, k)
    {
      CutCompose(source, unit, k - unit);
    }
  }

  /** Extending the table by one rune. */
  lemma {:induction false} TableGrows(source: seq<u16>, unit: nat, b: seq<Boundary>, byteOffset: nat, r: (rune, nat))
    requires Table(source, unit, b) && unit < |source| && b[|b| - 1].byteOffset == byteOffset
    requires r == First(source[unit..])
    ensures unit + r.1 <= |source| && byteOffset + |EncodeRune(r.0)| <= |Text(source)|
    ensures Table(source, unit + r.1, b + [Boundary(byteOffset + |EncodeRune(r.0)|, unit + r.1)])
  {
    assert EntryOk(source, b, |b| - 1);
    NextCut(source, unit);
    OffsetInText(source, unit + r.1);
    TableAppend(source, unit, b, Boundary(byteOffset + |EncodeRune(r.0)|, unit + r.1));
  }

  lemma {:induction false} TableStarts(source: seq<u16>)
    ensures Table(source, 0, [Boundary(0, 0)])
  {
    assert source[..0] == [];
    assert [Boundary(0, 0)][0].unitOffset == 0;
  }

  lemma {:induction false} TableAppend(source: seq<u16>, unit: nat, b: seq<Boundary>, entry: Boundary)
    requires Table(source, unit, b)
    requires AtCut(source, entry.unitOffset, entry.byteOffset)
    requires entry.unitOffset > unit && entry.byteOffset > b[|b| - 1].byteOffset
    requires forall k :: unit < k < entry.unitOffset ==> !Cut(source, k)
    ensures Table(source, entry.unitOffset, b + [entry])
  {
    var grown := b + [entry];
    forall k: nat | k <= entry.unitOffset && Cut(source, k)
      ensures Listed(grown, k)
    {
      if k <= unit {
        assert Listed(b, k);
        var i: nat :| i < |b| && b[i].unitOffset == k;
        assert grown[i].unitOffset == k;
      } else {
        assert grown[|b|].unitOffset == k;
      }
    }
    forall i: nat, j: nat | i < j < |grown|
      ensures Ascends(grown, i, j)
    {
      if j < |b| {
        assert Ascends(b, i, j);
      } else if i < |b| - 1 {
        assert Ascends(b, i, |b| - 1);
      }
    }
    forall i: nat | i < |grown|
      ensures EntryOk(source, grown, i)
    {
      if i < |b| {
        assert EntryOk(source, b, i);
      }
    }
  }

  /** `k` is the first cut at or after the byte offset. */
  ghost predicate CeilingCut(source: seq<u16>, target: nat, k: nat) {
    && k <= |source| && Cut(source, k) && target <= ByteOffset(source, k)
    && forall j :: 0 <= j < k && Cut(source, j) ==> ByteOffset(source, j) < target
  }

  /** `k` is the last cut at or before the byte offset. */
  ghost predicate FloorCut(source: seq<u16>, target: nat, k: nat) {
    && k <= |source| && Cut(source, k) && ByteOffset(source, k) <= target
    && forall j :: k < j <= |source| && Cut(source, j) ==> target < ByteOffset(source, j)
  }

  method BuildBoundaries(source: seq<u16>) returns (boundaries: seq<Boundary>, byteOffset: nat, ok: bool)
    ensures ok <==> |Text(source)| <= U32_MAX
    ensures ok ==> byteOffset == |Text(source)| && Table(source, |source|, boundaries)
  {
    boundaries := [Boundary(0, 0)];
    byteOffset := 0;
    var unit := 0;
    TableStarts(source);
    while unit < |source|
      invariant unit <= |source|
      invariant Table(source, unit, boundaries) && boundaries[|boundaries| - 1].byteOffset == byteOffset <= U32_MAX
    {
      var runeValue, units := ReadRune(source, unit);
      TableGrows(source, unit, boundaries, byteOffset, (runeValue, units));
      var width := |EncodeRune(runeValue)|;
      if U32_MAX - byteOffset < width {
        return boundaries, byteOffset, false;
      }
      byteOffset := byteOffset + width;
      unit := unit + units;
      boundaries := boundaries + [Boundary(byteOffset, unit)];
    }
    assert EntryOk(source, boundaries, |boundaries| - 1);
    assert source[..unit] == source;
    return boundaries, byteOffset, true;
  }

  /** Reads one rune, pairing surrogates only when both halves are there. */
  method ReadRune(source: seq<u16>, unit: nat) returns (runeValue: rune, units: nat)
    requires unit < |source|
    ensures (runeValue, units) == First(source[unit..])
  {
    var value: int := source[unit];
    units := 1;
    if 0xD800 <= value <= 0xDBFF {
      if unit + 1 < |source| && 0xDC00 <= source[unit + 1] <= 0xDFFF {
        units := 2;
        return FromPair(source[unit], source[unit + 1]), 2;
      }
    }
    if 0xD800 <= value <= 0xDFFF {
      return REPLACEMENT, 1;
    }
    return value, 1;
  }

  lemma {:induction false} CeilingAt(source: seq<u16>, b: seq<Boundary>, i: nat, target: nat)
    requires Table(source, |source|, b) && i < |b| && target <= b[i].byteOffset
    requires forall j :: 0 <= j < i ==> b[j].byteOffset < target
    ensures CeilingCut(source, target, b[i].unitOffset)
  {
    EntryBelow(source, b, i);
    forall k: nat | k < b[i].unitOffset && Cut(source, k)
      ensures ByteOffset(source, k) < target
    {
      assert Listed(b, k);
      var p: nat :| p < |b| && b[p].unitOffset == k;
      assert EntryOk(source, b, p);
      assert p > i ==> Ascends(b, i, p);
    }
  }

  lemma {:induction false} FloorAt(source: seq<u16>, b: seq<Boundary>, i: nat, target: nat)
    requires Table(source, |source|, b) && i < |b| && b[i].byteOffset <= target
    requires forall j :: i < j < |b| ==> target < b[j].byteOffset
    ensures FloorCut(source, target, b[i].unitOffset)
  {
    EntryBelow(source, b, i);
    forall k: nat | b[i].unitOffset < k <= |source| && Cut(source, k)
      ensures target < ByteOffset(source, k)
    {
      assert Listed(b, k);
      var p: nat :| p < |b| && b[p].unitOffset == k;
      assert EntryOk(source, b, p);
      assert p < i ==> Ascends(b, p, i);
    }
  }

  lemma {:induction false} EntryBelow(source: seq<u16>, b: seq<Boundary>, i: nat)
    requires Table(source, |source|, b) && i < |b|
    ensures AtCut(source, b[i].unitOffset, b[i].byteOffset)
  {
    assert EntryOk(source, b, i);
  }

  method FindStart(source: seq<u16>, boundaries: seq<Boundary>, target: nat) returns (k: nat)
    requires Table(source, |source|, boundaries) && target <= |Text(source)|
    ensures CeilingCut(source, target, k)
  {
    assert source[..|source|] == source;
    EntryBelow(source, boundaries, |boundaries| - 1);
    var i := 0;
    while i < |boundaries|
      invariant i < |boundaries|
      invariant forall j :: 0 <= j < i ==> boundaries[j].byteOffset < target
      decreases |boundaries| - i
    {
      if boundaries[i].byteOffset >= target {
        CeilingAt(source, boundaries, i, target);
        return boundaries[i].unitOffset;
      }
      i := i + 1;
    }
    assert false;
  }

  method FindEnd(source: seq<u16>, boundaries: seq<Boundary>, target: nat) returns (k: nat)
    requires Table(source, |source|, boundaries)
    ensures FloorCut(source, target, k)
  {
    EntryBelow(source, boundaries, 0);
    var i := |boundaries| - 1;
    while i >= 0
      invariant 0 <= i < |boundaries|
      invariant forall j :: i < j < |boundaries| ==> target < boundaries[j].byteOffset
    {
      if boundaries[i].byteOffset <= target {
        FloorAt(source, boundaries, i, target);
        return boundaries[i].unitOffset;
      }
      i := i - 1;
    }
    assert false;
  }

  /** The unit range of a byte range: starts snap up and ends snap down to whole runes,
  and a crossed range is empty. */
  method Utf16UnitRangeForUTF8Bytes(source: seq<u16>, startByte: u32, endByte: u32) returns (start: nat, end: nat, ok: bool)
    ensures ok <==> |Text(source)| <= U32_MAX && startByte <= |Text(source)| && endByte <= |Text(source)|
    ensures !ok ==> start == 0 && end == 0
    ensures ok ==> start <= end <= |source|
    ensures ok ==> CeilingCut(source, startByte, start)
    ensures ok ==> FloorCut(source, endByte, end) || (end == start && exists e: nat :: e < start && FloorCut(source, endByte, e))
  {
    var boundaries, byteOffset, fits := BuildBoundaries(source);
    if !fits {
      return 0, 0, false;
    }
    if startByte > byteOffset || endByte > byteOffset {
      return 0, 0, false;
    }
    start := FindStart(source, boundaries, startByte);
    end := FindEnd(source, boundaries, endByte);
    if end < start {
      end := start;
    }
    return start, end, true;
  }

  /** Offsets grow with cuts. */
  lemma {:induction false} OffsetsGrow(source: seq<u16>, i: nat, j: nat)
    requires i < j <= |source| && Cut(source, i) && Cut(source, j)
    ensures ByteOffset(source, i) < ByteOffset(source, j)
  {
    NextCut(source, i);
    var n := First(source[i..]).1;
    if i + n <= j {
      WidthBetween(source, i + n, j);
    }
  }

  /** On rune-aligned ranges the returned units read back as exactly the byte range. */
  lemma {:induction false} AlignedSliceIsExact(source: seq<u16>, startByte: nat, endByte: nat, i: nat, j: nat, start: nat, end: nat)
    requires AtCut(source, i, startByte) && AtCut(source, j, endByte) && startByte <= endByte
    requires start <= end <= |source| && CeilingCut(source, startByte, start)
    requires FloorCut(source, endByte, end) || (end == start && exists e: nat :: e < start && FloorCut(source, endByte, e))
    ensures start == i && end == j
    ensures endByte <= |Text(source)| && Text(source[start..end]) == Text(source)[startByte..endByte]
  {
    CutsMeet(source, startByte, i, start);
    if j < i {
      OffsetsGrow(source, j, i);
    }
    if FloorCut(source, endByte, end) {
      FloorsMeet(source, endByte, j, end);
    }
    TextBetweenCuts(source, i, j);
  }

  lemma {:induction false} CutsMeet(source: seq<u16>, target: nat, i: nat, k: nat)
    requires AtCut(source, i, target) && CeilingCut(source, target, k)
    ensures i == k
  {
    if k < i {
      OffsetsGrow(source, k, i);
    }
  }

  lemma {:induction false} FloorsMeet(source: seq<u16>, target: nat, j: nat, k: nat)
    requires AtCut(source, j, target) && FloorCut(source, target, k)
    ensures j == k
  {
    if j < k {
      OffsetsGrow(source, j, k);
    }
  }

  /** The units hold exactly the whole runes inside the range: those of an uncrossed range
  read back as their bytes, every stretch of whole runes inside the range is among them, and
  a crossed range, whose units are none, holds no whole rune. */
  lemma {:induction false} SliceHoldsWholeRunes(source: seq<u16>, startByte: nat, endByte: nat, start: nat, end: nat)
    requires CeilingCut(source, startByte, start) && FloorCut(source, endByte, end)
    ensures start <= end ==>
              && startByte <= ByteOffset(source, start) <= ByteOffset(source, end) <= endByte
              && ByteOffset(source, end) <= |Text(source)|
              && Text(source[start..end]) == Text(source)[ByteOffset(source, start)..ByteOffset(source, end)]
    ensures forall i: nat, j: nat ::
              i <= j <= |source| && Cut(source, i) && Cut(source, j) && startByte <= ByteOffset(source, i) && ByteOffset(source, j) <= endByte
              ==> start <= i && j <= end
  {
    if start <= end {
      TextBetweenCuts(source, start, end);
    }
  }

  /** The units a node covers. */
  method Utf16Text(source: seq<u16>, startByte: u32, endByte: u32) returns (text: seq<u16>, ok: bool)
    ensures ok ==> forall i, j :: AtCut(source, i, startByte) && AtCut(source, j, endByte) && startByte <= endByte
                                  ==> endByte <= |Text(source)| && Text(text) == Text(source)[startByte..endByte]
    ensures ok <==> source != [] && startByte <= endByte <= |Text(source)| <= U32_MAX
  {
    if |source| == 0 || endByte < startByte {
      return [], false;
    }
    var start, end, fits := Utf16UnitRangeForUTF8Bytes(source, startByte, endByte);
    if !fits {
      return [], false;
    }
    forall i, j | AtCut(source, i, startByte) && AtCut(source, j, endByte)
      ensures endByte <= |Text(source)| && Text(source[start..end]) == Text(source)[startByte..endByte]
    {
      AlignedSliceIsExact(source, startByte, endByte, i, j, start, end);
    }
    return source[start..end], true;
  }
}
