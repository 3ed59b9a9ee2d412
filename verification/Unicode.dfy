/** UTF-8 (section 3 of RFC 3629) and UTF-16 (sections 2.1 and 2.2 of RFC 2781), with
lone surrogates read as U+FFFD. */
module Unicode {
  import opened Values

  predicate Scalar(n: int) {
    0 <= n < 0xD800 || 0xE000 <= n <= 0x10FFFF
  }

  /** Unicode scalar values. */
  type rune = n: int | 0 <= n < 0xD800 || 0xE000 <= n <= 0x10FFFF

  const REPLACEMENT: rune := 0xFFFD

  // ---------------------------------------------------------------- UTF-8

  function Byte(n: int): u8
    requires 0 <= n < 0x100
  {
    n
  }

  function EncodeRune(r: rune): (b: seq<u8>)
    ensures 1 <= |b| <= 4
  {
    if r < 0x80 then [Byte(r)]
    else if r < 0x800 then [Byte(0xC0 + r / 64), Byte(0x80 + r % 64)]
    else if r < 0x1_0000 then [Byte(0xE0 + r / 4096), Byte(0x80 + r / 64 % 64), Byte(0x80 + r % 64)]
    else [Byte(0xF0 + r / 262144), Byte(0x80 + r / 4096 % 64), Byte(0x80 + r / 64 % 64), Byte(0x80 + r % 64)]
  }

  predicate Continuation(b: u8) { 0x80 <= b < 0xC0 }

  datatype Decoded = Malformed | Rune(value: rune, width: nat)

  /** Reads one rune off the front of a byte sequence, strictly: shortest form only, no
  surrogates, nothing beyond U+10FFFF. */
  function DecodeRune(b: seq<u8>): (d: Decoded)
    ensures d.Rune? ==> 1 <= d.width <= |b|
  {
    if |b| == 0 then Malformed
    else if b[0] < 0x80 then Rune(b[0], 1)
    else if 0xC0 <= b[0] < 0xE0 && |b| >= 2 && Continuation(b[1]) then
      Shortest(Join(b[0], 0xC0, b[1]), 0x80, 2)
    else if 0xE0 <= b[0] < 0xF0 && |b| >= 3 && Continuation(b[1]) && Continuation(b[2]) then
      Shortest(Join(Join(b[0], 0xE0, b[1]), 0, b[2]), 0x800, 3)
    else if 0xF0 <= b[0] < 0xF8 && |b| >= 4 && Continuation(b[1]) && Continuation(b[2]) && Continuation(b[3]) then
      Shortest(Join(Join(Join(b[0], 0xF0, b[1]), 0, b[2]), 0, b[3]), 0x1_0000, 4)
    else Malformed
  }

  /** Six more bits from a continuation byte. */
  function Join(lead: int, tag: int, continuation: int): int {
    (lead - tag) * 64 + (continuation - 0x80)
  }

  function Shortest(n: int, least: int, width: nat): Decoded {
    if n >= least && Scalar(n) then Rune(n, width) else Malformed
  }

  lemma {:induction false} DecodesEncodedRune(r: rune, rest: seq<u8>)
    ensures DecodeRune(EncodeRune(r) + rest) == Rune(r, |EncodeRune(r)|)
  {
    var q, s := r / 64, r / 4096;
    assert s == q / 64 && r / 262144 == s / 64;
    assert r == 64 * q + r % 64 && q == 64 * s + q % 64 && s == 64 * (s / 64) + s % 64;
  }

  function Utf8(runes: seq<rune>): (b: seq<u8>) {
    if runes == [] then [] else EncodeRune(runes[0]) + Utf8(runes[1..])
  }

  function DecodeUtf8(b: seq<u8>): (runes: seq<rune>) {
    var d := DecodeRune(b);
    if d.Malformed? then [] else [d.value] + DecodeUtf8(b[d.width..])
  }

  /** The encoder loses nothing. */
  lemma {:induction false} Utf8RoundTrip(runes: seq<rune>)
    ensures DecodeUtf8(Utf8(runes)) == runes
    decreases |runes|
  {
    if runes != [] {
      DecodesEncodedRune(runes[0], Utf8(runes[1..]));
      assert (EncodeRune(runes[0]) + Utf8(runes[1..]))[|EncodeRune(runes[0])|..] == Utf8(runes[1..]);
      Utf8RoundTrip(runes[1..]);
    }
  }

  lemma {:induction false} Utf8Concat(a: seq<rune>, b: seq<rune>)
    ensures Utf8(a + b) == Utf8(a) + Utf8(b)
    decreases |a|
  {
    if a == [] {
      assert a + b == b;
    } else {
      assert (a + b)[1..] == a[1..] + b;
      Utf8Concat(a[1..], b);
    }
  }

  // ---------------------------------------------------------------- UTF-16

  predicate High(u: u16) { 0xD800 <= u <= 0xDBFF }

  predicate Low(u: u16) { 0xDC00 <= u <= 0xDFFF }

  function FromPair(high: int, low: int): (r: rune)
    requires 0xD800 <= high <= 0xDBFF && 0xDC00 <= low <= 0xDFFF
    ensures r >= 0x1_0000
  {
    0x1_0000 + (high - 0xD800) * 0x400 + (low - 0xDC00)
  }

  function Unit(n: int): u16
    requires 0 <= n < 0x1_0000
  {
    n
  }

  /** The rune at the front of a nonempty unit sequence and the units it takes. */
  function First(units: seq<u16>): (r: (rune, nat))
    requires units != []
    ensures 1 <= r.1 <= 2 && r.1 <= |units|
    ensures r.1 == 2 <==> High(units[0]) && |units| > 1 && Low(units[1])
  {
    if High(units[0]) && |units| > 1 && Low(units[1]) then
      (FromPair(units[0], units[1]), 2)
    else if Scalar(units[0]) then (units[0], 1)
    else (REPLACEMENT, 1)
  }

  function DecodeUtf16(units: seq<u16>): (runes: seq<rune>) {
    if units == [] then [] else [First(units).0] + DecodeUtf16(units[First(units).1..])
  }

  function EncodeUtf16Rune(r: rune): (u: seq<u16>)
    ensures 1 <= |u| <= 2
  {
    if r < 0x1_0000 then [Unit(r)]
    else [Unit(0xD800 + (r - 0x1_0000) / 0x400), Unit(0xDC00 + (r - 0x1_0000) % 0x400)]
  }

  function EncodeUtf16(runes: seq<rune>): (u: seq<u16>) {
    if runes == [] then [] else EncodeUtf16Rune(runes[0]) + EncodeUtf16(runes[1..])
  }

  /** Well-formed UTF-16 decodes to the runes it was made from. */
  lemma {:induction false} Utf16RoundTrip(runes: seq<rune>)
    ensures DecodeUtf16(EncodeUtf16(runes)) == runes
    decreases |runes|
  {
    if runes != [] {
      var head, rest := EncodeUtf16Rune(runes[0]), EncodeUtf16(runes[1..]);
      assert (head + rest)[|head|..] == rest;
      assert First(head + rest) == (runes[0], |head|);
      Utf16RoundTrip(runes[1..]);
    }
  }

  /** The UTF-8 text of a unit sequence. */
  function Text(units: seq<u16>): seq<u8> {
    Utf8(DecodeUtf16(units))
  }

  /** `k` units end at a rune boundary of the decoding. */
  predicate Cut(units: seq<u16>, k: nat) {
    k == 0 || (units != [] && k >= First(units).1 && Cut(units[First(units).1..], k - First(units).1))
  }

  lemma {:induction false} CutInRange(units: seq<u16>, k: nat)
    requires Cut(units, k)
    ensures k <= |units|
    decreases |units|
  {
    if k != 0 {
      CutInRange(units[First(units).1..], k - First(units).1);
    }
  }

  lemma {:induction false} FirstOfCut(units: seq<u16>, k: nat)
    requires units != [] && First(units).1 <= k <= |units|
    ensures First(units[..k]) == First(units) && units[..k][First(units).1..] == units[First(units).1..][..k - First(units).1]
  {
  }

  lemma {:induction false} CutStep(units: seq<u16>, k: nat, n: nat)
    requires units != [] && n == First(units).1 <= k <= |units|
    ensures DecodeUtf16(units) == [First(units).0] + DecodeUtf16(units[n..])
    ensures DecodeUtf16(units[..k]) == [First(units).0] + DecodeUtf16(units[n..][..k - n])
  {
    FirstOfCut(units, k);
  }

  /** What is behind a cut behind the first rune. */
  lemma {:induction false} CutBehind(units: seq<u16>, k: nat, n: nat)
    requires units != [] && n == First(units).1 <= k <= |units|
    requires DecodeUtf16(units[n..]) == DecodeUtf16(units[n..][..k - n]) + DecodeUtf16(units[n..][k - n..])
    ensures DecodeUtf16(units) == DecodeUtf16(units[..k]) + DecodeUtf16(units[k..])
  {
    CutStep(units, k, n);
    TailOfTail(units, n, k);
    hide First, DecodeUtf16;
    Regrouped([First(units).0], DecodeUtf16(units[n..][..k - n]), DecodeUtf16(units[k..]));
  }

  lemma {:induction false} TailOfTail<T>(s: seq<T>, n: nat, k: nat)
    requires n <= k <= |s|
    ensures s[n..][k - n..] == s[k..]
  {
  }

  lemma {:induction false} Regrouped<T>(a: seq<T>, b: seq<T>, c: seq<T>)
    ensures a + (b + c) == a + b + c
  {
  }

  lemma {:induction false} CutDecodes(units: seq<u16>, k: nat)
    requires Cut(units, k)
    ensures k <= |units| && DecodeUtf16(units) == DecodeUtf16(units[..k]) + DecodeUtf16(units[k..])
    decreases |units|
  {
    CutInRange(units, k);
    hide DecodeUtf16;
    if k == 0 {
      NothingDecodes();
      assert units[..k] == [] && units[k..] == units;
    } else {
      CutDecodes(units[First(units).1..], k - First(units).1);
      CutBehind(units, k, First(units).1);
    }
  }

  lemma {:induction false} NothingDecodes()
    ensures DecodeUtf16([]) == []
  {
  }

  /** Text splits at a cut: a lone surrogate on either side stays lone. */
  lemma {:induction false} CutSplits(units: seq<u16>, k: nat)
    requires Cut(units, k)
    ensures k <= |units|
    ensures DecodeUtf16(units) == DecodeUtf16(units[..k]) + DecodeUtf16(units[k..])
    ensures Text(units) == Text(units[..k]) + Text(units[k..])
  {
    CutDecodes(units, k);
    Utf8Concat(DecodeUtf16(units[..k]), DecodeUtf16(units[k..]));
  }

  /** A cut of a tail is a cut of the whole, shifted. */
  lemma {:induction false} CutCompose(units: seq<u16>, k: nat, j: nat)
    requires Cut(units, k) && k <= |units|
    ensures Cut(units[k..], j) <==> Cut(units, k + j)
    decreases |units|
  {
    if k == 0 {
      assert units[k..] == units;
    } else {
      var n := First(units).1;
      CutInRange(units, k);
      TailOfTail(units, n, k);
      CutCompose(units[n..], k - n, j);
    }
  }

  lemma {:induction false} CutsNest(units: seq<u16>, i: nat, j: nat)
    requires Cut(units, i) && Cut(units, j) && i <= j
    ensures j <= |units| && Cut(units[i..], j - i)
    decreases |units|
  {
    CutInRange(units, j);
    CutCompose(units, i, j - i);
  }

  /** Between two cuts the text is exactly that stretch of the whole text. */
  lemma {:induction false} TextBetweenCuts(units: seq<u16>, i: nat, j: nat)
    requires Cut(units, i) && Cut(units, j) && i <= j
    ensures j <= |units|
    ensures |Text(units[..i])| <= |Text(units[..j])| <= |Text(units)|
    ensures Text(units[i..j]) == Text(units)[|Text(units[..i])|..|Text(units[..j])|]
  {
    CutsNest(units, i, j);
    CutSplits(units, i);
    CutSplits(units, j);
    assert units[..j][..i] == units[..i] && units[..j][i..] == units[i..j];
    CutOfPrefix(units, i, j);
    CutSplits(units[..j], i);
    var a, b, c := Text(units[..i]), Text(units[i..j]), Text(units[j..]);
    assert Text(units[..j]) == a + b;
    assert Text(units) == (a + b) + c;
    assert ((a + b) + c)[|a|..|a + b|] == b;
  }

  /** A cut stays a cut when the units after a later cut are dropped. */
  lemma {:induction false} CutOfPrefix(units: seq<u16>, i: nat, j: nat)
    requires Cut(units, i) && Cut(units, j) && i <= j <= |units|
    ensures Cut(units[..j], i)
    decreases |units|
  {
    if i != 0 {
      var n := First(units).1;
      assert First(units[..j]) == First(units);
      assert units[..j][n..] == units[n..][..j - n];
      CutInRange(units[n..], j - n);
      CutOfPrefix(units[n..], i - n, j - n);
    }
  }
}
