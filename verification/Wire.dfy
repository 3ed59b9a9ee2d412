/** Little-endian wire records: what the guest writes and the host reads back. */
module Wire {
  import opened Values

  function Low8(n: nat): u8 { n % 0x100 }

  function LE16(v: u16): (b: seq<u8>)
    ensures |b| == 2
  {
    [Low8(v), Low8(v / 0x100)]
  }

  function LE32(v: u32): (b: seq<u8>)
    ensures |b| == 4
  {
    [Low8(v), Low8(v / 0x100), Low8(v / 0x1_0000), Low8(v / 0x100_0000)]
  }

  function Get16(b: seq<u8>, off: nat): u16
    requires off + 2 <= |b|
  {
    var b0: int, b1: int := b[off], b[off + 1];
    b0 + 0x100 * b1
  }

  function Get32(b: seq<u8>, off: nat): u32
    requires off + 4 <= |b|
  {
    var b0: int, b1: int, b2: int, b3: int := b[off], b[off + 1], b[off + 2], b[off + 3];
    b0 + 0x100 * b1 + 0x1_0000 * b2 + 0x100_0000 * b3
  }

  /** Low byte first, at the byte offsets of the words. */
  lemma {:induction false} ByteOrder(b: seq<u8>, off: nat)
    requires off + 4 <= |b|
    ensures Get16(b, off) == b[off] as int + b[off + 1] as int * 256
    ensures Get32(b, off) == Get16(b, off) + 65536 * Get16(b, off + 2)
    ensures LE16(0x1234) == [0x34, 0x12] && LE32(0x12345678) == [0x78, 0x56, 0x34, 0x12]
  {
  }

  lemma {:induction false} Get32OfLE32(b: seq<u8>, off: nat, v: u32)
    requires off + 4 <= |b| && b[off..off + 4] == LE32(v)
    ensures Get32(b, off) == v
  {
    var part := b[off..off + 4];
    assert part[0] == b[off] && part[1] == b[off + 1] && part[2] == b[off + 2] && part[3] == b[off + 3];
    var q1, q2, q3 := v / 0x100, v / 0x1_0000, v / 0x100_0000;
    assert v == 0x100 * q1 + v % 0x100;
    assert q2 == q1 / 0x100 && q1 == 0x100 * q2 + q1 % 0x100;
    assert q3 == q2 / 0x100 && q2 == 0x100 * q3 + q2 % 0x100;
    assert q3 % 0x100 == q3;
  }

  lemma {:induction false} Get16OfLE16(b: seq<u8>, off: nat, v: u16)
    requires off + 2 <= |b| && b[off..off + 2] == LE16(v)
    ensures Get16(b, off) == v
  {
    var part := b[off..off + 2];
    assert part[0] == b[off] && part[1] == b[off + 1];
  }

  /** Bytes read as a word are the word's bytes. */
  lemma {:induction false} LE32OfGet32(b: seq<u8>, off: nat)
    requires off + 4 <= |b|
    ensures LE32(Get32(b, off)) == b[off..off + 4]
  {
    var b0: int, b1: int, b2: int, b3: int := b[off], b[off + 1], b[off + 2], b[off + 3];
    var v := Get32(b, off);
    assert v / 0x100 == b1 + 0x100 * b2 + 0x1_0000 * b3;
    assert v / 0x1_0000 == b2 + 0x100 * b3;
    assert v / 0x100_0000 == b3;
  }

  lemma {:induction false} LE16OfGet16(b: seq<u8>, off: nat)
    requires off + 2 <= |b|
    ensures LE16(Get16(b, off)) == b[off..off + 2]
  {
    assert Get16(b, off) / 0x100 == b[off + 1];
  }

  /** A capture on the wire: a node wrapper and a capture-name index. */
  datatype Entry = Entry(node: u32, index: u32)

  function EntryBytes(entries: seq<Entry>, n: nat): (b: seq<u8>)
    requires n <= |entries|
    ensures |b| == 8 * n
  {
    if n == 0 then [] else EntryBytes(entries, n - 1) + LE32(entries[n - 1].node) + LE32(entries[n - 1].index)
  }

  lemma {:induction false} EntryAt(entries: seq<Entry>, n: nat, i: nat)
    requires i < n <= |entries|
    ensures EntryBytes(entries, n)[8 * i..8 * i + 4] == LE32(entries[i].node)
    ensures EntryBytes(entries, n)[8 * i + 4..8 * i + 8] == LE32(entries[i].index)
    decreases n
  {
    var init := EntryBytes(entries, n - 1);
    var full := EntryBytes(entries, n);
    assert full == init + LE32(entries[n - 1].node) + LE32(entries[n - 1].index);
    if i < n - 1 {
      EntryAt(entries, n - 1, i);
      assert full[..8 * n - 8] == init;
      assert full[8 * i..8 * i + 4] == init[8 * i..8 * i + 4];
      assert full[8 * i + 4..8 * i + 8] == init[8 * i + 4..8 * i + 8];
    }
  }

  // ---------------------------------------------------------------- guest side

  method WriteU16(out: array<u8>, off: nat, value: u16)
    requires off + 2 <= out.Length
    modifies out
    ensures out[off..off + 2] == LE16(value)
    ensures forall i :: 0 <= i < out.Length && !(off <= i < off + 2) ==> out[i] == old(out[i])
  {
    out[off] := value % 0x100;
    out[off + 1] := value / 0x100;
  }

  method WriteU32(out: array<u8>, off: nat, value: u32)
    requires off + 4 <= out.Length
    modifies out
    ensures out[off..off + 4] == LE32(value)
    ensures forall i :: 0 <= i < out.Length && !(off <= i < off + 4) ==> out[i] == old(out[i])
  {
    out[off] := value % 0x100;
    out[off + 1] := value / 0x100 % 0x100;
    out[off + 2] := value / 0x1_0000 % 0x100;
    out[off + 3] := value / 0x100_0000;
  }

  // ---------------------------------------------------------------- host side

  /** A match as the host decodes it. */
  datatype RawMatch = RawMatch(id: u32, pattern: u16, captures: seq<Entry>)

  /** Where the fields of a match stand in its bytes, behind a header of this length. */
  predicate Fields(b: seq<u8>, header: nat, m: RawMatch) {
    && 8 <= header && header + 8 * |m.captures| <= |b|
    && Get32(b, 0) == m.id && Get16(b, 4) == m.pattern && Get16(b, 6) == |m.captures|
    && forall k :: 0 <= k < |m.captures| ==>
         Get32(b, header + 8 * k) == m.captures[k].node && Get32(b, header + 8 * k + 4) == m.captures[k].index
  }

  predicate Fits(m: RawMatch) { |m.captures| < 0x1_0000 }

  function MatchRecord(m: RawMatch): (b: seq<u8>)
    requires Fits(m)
    ensures |b| == 8 + 8 * |m.captures|
  {
    LE32(m.id) + LE16(m.pattern) + LE16(|m.captures|) + EntryBytes(m.captures, |m.captures|)
  }

  /** The capture record adds the selected ordinal and a zero word to the header. */
  function CaptureRecord(m: RawMatch, selected: u32): (b: seq<u8>)
    requires Fits(m)
    ensures |b| == 16 + 8 * |m.captures|
  {
    LE32(m.id) + LE16(m.pattern) + LE16(|m.captures|) + LE32(selected) + LE32(0) + EntryBytes(m.captures, |m.captures|)
  }

  /** Entries read from the bytes have these bytes. */
  lemma {:induction false} BytesOfEntries(b: seq<u8>, header: nat, captures: seq<Entry>, n: nat)
    requires n <= |captures| && header + 8 * n <= |b|
    requires forall k :: 0 <= k < n ==> captures[k] == EntryOf(b, header, k)
    ensures EntryBytes(captures, n) == b[header..header + 8 * n]
    decreases n
  {
    if n > 0 {
      var at := header + 8 * (n - 1);
      BytesOfEntries(b, header, captures, n - 1);
      OneMoreEntry(b, header, at, captures[n - 1]);
    }
  }

  lemma {:induction false} OneMoreEntry(b: seq<u8>, header: nat, at: nat, e: Entry)
    requires header <= at && at + 8 <= |b| && e == Entry(Get32(b, at), Get32(b, at + 4))
    ensures b[header..at] + LE32(e.node) + LE32(e.index) == b[header..at + 8]
  {
    LE32OfGet32(b, at);
    LE32OfGet32(b, at + 4);
    assert b[header..at + 8] == b[header..at] + b[at..at + 4] + b[at + 4..at + 8];
  }

  /** Reads the capture entries behind a header. */
  method DecodeEntries(b: seq<u8>, header: nat, count: nat) returns (captures: seq<Entry>)
    requires header + 8 * count <= |b|
    ensures |captures| == count && EntryBytes(captures, count) == b[header..header + 8 * count]
    ensures forall m: seq<Entry> :: |m| == count && b[header..header + 8 * count] == EntryBytes(m, count) ==> captures == m
    ensures forall k :: 0 <= k < count ==> Get32(b, header + 8 * k) == captures[k].node && Get32(b, header + 8 * k + 4) == captures[k].index
  {
    captures := [];
    for i := 0 to count
      invariant |captures| == i
      invariant forall k :: 0 <= k < i ==> captures[k] == EntryOf(b, header, k)
    {
      captures := captures + [EntryOf(b, header, i)];
    }
    BytesOfEntries(b, header, captures, count);
    forall m: seq<Entry> | |m| == count && b[header..header + 8 * count] == EntryBytes(m, count)
      ensures captures == m
    {
      forall k | 0 <= k < count
        ensures captures[k] == m[k]
      {
        EntryOfRecord(b, header, m, k);
      }
    }
  }

  function EntryOf(b: seq<u8>, header: nat, k: nat): Entry
    requires header + 8 * k + 8 <= |b|
  {
    Entry(Get32(b, header + 8 * k), Get32(b, header + 8 * k + 4))
  }

  lemma {:induction false} EntryOfRecord(b: seq<u8>, header: nat, m: seq<Entry>, k: nat)
    requires header + 8 * |m| <= |b| && b[header..header + 8 * |m|] == EntryBytes(m, |m|)
    requires k < |m|
    ensures EntryOf(b, header, k) == m[k]
  {
    EntryAt(m, |m|, k);
    EntryFrom(b, header, EntryBytes(m, |m|), k, m[k]);
  }

  lemma {:induction false} EntryFrom(b: seq<u8>, header: nat, body: seq<u8>, k: nat, e: Entry)
    requires header + |body| <= |b| && b[header..header + |body|] == body
    requires 8 * k + 8 <= |body|
    requires body[8 * k..8 * k + 4] == LE32(e.node) && body[8 * k + 4..8 * k + 8] == LE32(e.index)
    ensures EntryOf(b, header, k) == e
  {
    WordIn(b, header, body, 8 * k, e.node);
    WordIn(b, header, body, 8 * k + 4, e.index);
  }

  /** A word of a record, read from the buffer that holds the record. */
  lemma {:induction false} WordIn(b: seq<u8>, header: nat, body: seq<u8>, at: nat, v: u32)
    requires header + |body| <= |b| && b[header..header + |body|] == body
    requires at + 4 <= |body| && body[at..at + 4] == LE32(v)
    ensures Get32(b, header + at) == v
  {
    var off := header + at;
    forall i | 0 <= i < 4
      ensures b[off..off + 4][i] == LE32(v)[i]
    {
      assert body[at..at + 4][i] == body[at + i];
      assert b[header..header + |body|][at + i] == b[off + i];
    }
    assert b[off..off + 4] == LE32(v);
    Get32OfLE32(b, off, v);
  }

  /** Decodes a match record: exactly the one the bytes start with, and None when they start
  with none. */
  method DecodeMatch(b: seq<u8>) returns (r: Option<RawMatch>)
    ensures forall m: RawMatch :: r == Some(m) <==> Fits(m) && MatchRecord(m) <= b
    ensures r.Some? ==> Fields(b, 8, r.value)
  {
    if |b| < 8 {
      return None;
    }
    var count := Get16(b, 6);
    if 8 + count * 8 > |b| {
      NoRecord(b);
      return None;
    }
    var captures := DecodeEntries(b, 8, count);
    r := Some(RawMatch(Get32(b, 0), Get16(b, 4), captures));
    RecordStarts(b, r.value);
    forall m: RawMatch | Fits(m) && MatchRecord(m) <= b
      ensures r.value == m
    {
      OneRecord(b, r.value, m);
    }
  }

  /** The decoded record stands at the front of the bytes. */
  lemma {:induction false} RecordStarts(b: seq<u8>, m: RawMatch)
    requires |b| >= 8 + 8 * |m.captures| && Fits(m) && |m.captures| == Get16(b, 6)
    requires m.id == Get32(b, 0) && m.pattern == Get16(b, 4)
    requires EntryBytes(m.captures, |m.captures|) == b[8..8 + 8 * |m.captures|]
    ensures MatchRecord(m) <= b
  {
    LE32OfGet32(b, 0);
    LE16OfGet16(b, 4);
    LE16OfGet16(b, 6);
    assert b[..8 + 8 * |m.captures|] == b[0..4] + b[4..6] + b[6..8] + b[8..8 + 8 * |m.captures|];
  }

  lemma {:induction false} RecordBody(b: seq<u8>, m: RawMatch)
    requires Fits(m) && MatchRecord(m) <= b
    ensures 8 + 8 * |m.captures| <= |b| && b[8..8 + 8 * |m.captures|] == EntryBytes(m.captures, |m.captures|)
  {
    var n := 8 * |m.captures|;
    assert b[8..8 + n] == MatchRecord(m)[8..] == EntryBytes(m.captures, |m.captures|);
  }

  /** Bytes start with one record at most. */
  lemma {:induction false} OneRecord(b: seq<u8>, m: RawMatch, other: RawMatch)
    requires Fits(m) && MatchRecord(m) <= b && Fits(other) && MatchRecord(other) <= b
    ensures m == other
  {
    Header(b, m);
    Header(b, other);
    RecordBody(b, m);
    RecordBody(b, other);
    forall k | 0 <= k < |m.captures|
      ensures m.captures[k] == other.captures[k]
    {
      EntryOfRecord(b, 8, m.captures, k);
      EntryOfRecord(b, 8, other.captures, k);
    }
  }

  lemma {:induction false} NoRecord(b: seq<u8>)
    requires |b| >= 8 && |b| < 8 + 8 * Get16(b, 6)
    ensures forall m: RawMatch :: Fits(m) ==> !(MatchRecord(m) <= b)
  {
    forall m: RawMatch | Fits(m) && MatchRecord(m) <= b
      ensures false
    {
      Header(b, m);
    }
  }

  lemma {:induction false} Header(b: seq<u8>, m: RawMatch)
    requires Fits(m) && |b| >= 8
    requires LE32(m.id) + LE16(m.pattern) + LE16(|m.captures|) <= b
    ensures Get32(b, 0) == m.id && Get16(b, 4) == m.pattern && Get16(b, 6) == |m.captures|
  {
    var h := LE32(m.id) + LE16(m.pattern) + LE16(|m.captures|);
    assert b[..8] == h;
    assert b[0..4] == h[0..4] == LE32(m.id);
    assert b[4..6] == h[4..6] == LE16(m.pattern);
    assert b[6..8] == h[6..8] == LE16(|m.captures|);
    Get32OfLE32(b, 0, m.id);
    Get16OfLE16(b, 4, m.pattern);
    Get16OfLE16(b, 6, |m.captures|);
  }

  /** The bytes start with the record, whatever its reserved word holds. */
  predicate StartsCapture(b: seq<u8>, m: RawMatch, selected: u32)
    requires Fits(m)
  {
    var n := 16 + 8 * |m.captures|;
    |b| >= n && CaptureRecord(m, selected)[..12] == b[..12] && CaptureRecord(m, selected)[16..] == b[16..n]
  }

  /** Decodes a predicate-capture record and its selected ordinal: exactly the one the bytes
  start with, and None when they start with none. */
  method DecodeCaptureMatch(b: seq<u8>) returns (r: Option<(RawMatch, u32)>)
    ensures forall m: RawMatch, selected: u32 ::
              r == Some((m, selected)) <==> Fits(m) && selected < |m.captures| && StartsCapture(b, m, selected)
    ensures r.Some? ==> Fields(b, 16, r.value.0) && Get32(b, 8) == r.value.1
  {
    if |b| < 16 {
      return None;
    }
    var count := Get16(b, 6);
    var ordinal := Get32(b, 8);
    forall m: RawMatch, selected: u32 | Fits(m) && StartsCapture(b, m, selected)
      ensures Get32(b, 0) == m.id && Get16(b, 4) == m.pattern && count == |m.captures| && ordinal == selected
      ensures b[16..16 + 8 * |m.captures|] == EntryBytes(m.captures, |m.captures|)
    {
      CaptureHeader(b, m, selected);
    }
    if 16 + count * 8 > |b| || ordinal >= count {
      return None;
    }
    var captures := DecodeEntries(b, 16, count);
    var raw := RawMatch(Get32(b, 0), Get16(b, 4), captures);
    CaptureStarts(b, raw, ordinal);
    return Some((raw, ordinal));
  }

  lemma {:induction false} CaptureStarts(b: seq<u8>, m: RawMatch, selected: u32)
    requires |b| >= 16 + 8 * |m.captures| && Fits(m) && |m.captures| == Get16(b, 6)
    requires m.id == Get32(b, 0) && m.pattern == Get16(b, 4) && selected == Get32(b, 8)
    requires EntryBytes(m.captures, |m.captures|) == b[16..16 + 8 * |m.captures|]
    ensures StartsCapture(b, m, selected)
  {
    LE32OfGet32(b, 0);
    LE16OfGet16(b, 4);
    LE16OfGet16(b, 6);
    LE32OfGet32(b, 8);
    assert b[..12] == b[0..4] + b[4..6] + b[6..8] + b[8..12];
  }

  lemma {:induction false} CaptureHeader(b: seq<u8>, m: RawMatch, selected: u32)
    requires Fits(m) && StartsCapture(b, m, selected)
    ensures |b| >= 16
    ensures Get32(b, 0) == m.id && Get16(b, 4) == m.pattern && Get16(b, 6) == |m.captures| && Get32(b, 8) == selected
    ensures b[16..16 + 8 * |m.captures|] == EntryBytes(m.captures, |m.captures|)
  {
    var h, front := LE32(m.id) + LE16(m.pattern) + LE16(|m.captures|), b[..12];
    assert front[..8] == h && front[8..] == LE32(selected);
    assert b[..8] == h;
    Header(b, m);
    assert b[8..12] == front[8..];
    Get32OfLE32(b, 8, selected);
  }

  /** A single capture, as the compact capture call writes it. */
  datatype RawCapture = RawCapture(id: u32, pattern: u16, ordinal: u16, node: u32, index: u32)

  function CompactRecord(c: RawCapture): (b: seq<u8>)
    ensures |b| == 16
  {
    LE32(c.id) + LE16(c.pattern) + LE16(c.ordinal) + LE32(c.node) + LE32(c.index)
  }

  /** Decodes a compact record: exactly the one the bytes start with, and None when they are
  too few. */
  method DecodeCapture(b: seq<u8>) returns (r: Option<RawCapture>)
    ensures r.None? <==> |b| < 16
    ensures forall c: RawCapture :: r == Some(c) <==> CompactRecord(c) <= b
    ensures r.Some? ==>
              var c := r.value;
              && Get32(b, 0) == c.id && Get16(b, 4) == c.pattern && Get16(b, 6) == c.ordinal
              && Get32(b, 8) == c.node && Get32(b, 12) == c.index
  {
    if |b| < 16 {
      return None;
    }
    r := Some(RawCapture(Get32(b, 0), Get16(b, 4), Get16(b, 6), Get32(b, 8), Get32(b, 12)));
    CompactStarts(b, r.value);
    forall c: RawCapture | CompactRecord(c) <= b
      ensures r.value == c
    {
      CompactFields(b, c);
    }
  }

  lemma {:induction false} CompactStarts(b: seq<u8>, c: RawCapture)
    requires |b| >= 16 && c == RawCapture(Get32(b, 0), Get16(b, 4), Get16(b, 6), Get32(b, 8), Get32(b, 12))
    ensures CompactRecord(c) <= b
  {
    LE32OfGet32(b, 0);
    LE16OfGet16(b, 4);
    LE16OfGet16(b, 6);
    LE32OfGet32(b, 8);
    LE32OfGet32(b, 12);
    assert b[..16] == b[0..4] + b[4..6] + b[6..8] + b[8..12] + b[12..16];
  }

  lemma {:induction false} CompactFields(b: seq<u8>, c: RawCapture)
    requires CompactRecord(c) <= b
    ensures c == RawCapture(Get32(b, 0), Get16(b, 4), Get16(b, 6), Get32(b, 8), Get32(b, 12))
  {
    var front := CompactRecord(c);
    assert b[..16] == front;
    assert b[0..4] == front[0..4] == LE32(c.id) && b[4..6] == front[4..6] == LE16(c.pattern) && b[6..8] == front[6..8] == LE16(c.ordinal);
    assert b[8..12] == front[8..12] == LE32(c.node);
    assert b[12..16] == front[12..16] == LE32(c.index);
    Get32OfLE32(b, 0, c.id);
    Get16OfLE16(b, 4, c.pattern);
    Get16OfLE16(b, 6, c.ordinal);
    Get32OfLE32(b, 8, c.node);
    Get32OfLE32(b, 12, c.index);
  }
}
