/** What a range setter does to the values left in a sequence, in terms of where their nodes
lie.  `Materialized` leaves open how a cursor narrows; here it keeps the values that meet the
range. */
module QueryRanges {
  import opened Values
  import opened SyntaxTree
  import opened Replay
  import opened Materialized

  // ---------------------------------------------------------------- keeping what meets a range

  /** `kept` holds exactly the values of `items` that pass the test, in their order: the `i`th
  stood at `at[i]`. */
  ghost predicate Picks<T(!new)>(kept: seq<T>, items: seq<T>, test: T -> bool, at: seq<nat>) {
    && |at| == |kept|
    && (forall i :: 0 <= i < |at| ==> at[i] < |items| && kept[i] == items[at[i]] && test(kept[i]))
    && (forall i, j :: 0 <= i < j < |at| ==> at[i] < at[j])
    && (forall k: nat :: k < |items| && test(items[k]) ==> k in at)
  }

  ghost predicate LeavesExactly<T(!new)>(kept: seq<T>, items: seq<T>, test: T -> bool) { exists at :: Picks(kept, items, test, at) }

  lemma {:induction false} KeepIfPicks<T(!new)>(items: seq<T>, test: T -> bool) returns (at: seq<nat>)
    ensures Picks(KeepIf(items, test), items, test, at)
    decreases |items|
  {
    if items == [] {
      at := [];
    } else {
      var n := |items| - 1;
      var before := KeepIfPicks(items[..n], test);
      at := if test(items[n]) then before + [n] else before;
      PicksOneMore(KeepIf(items[..n], test), items, test, before, KeepIf(items, test), at);
    }
  }

  lemma {:induction false} PicksOneMore<T(!new)>(kept: seq<T>, items: seq<T>, test: T -> bool, before: seq<nat>, more: seq<T>, at: seq<nat>)
    requires items != [] && Picks(kept, items[..|items| - 1], test, before)
    requires var n := |items| - 1; if test(items[n]) then more == kept + [items[n]] && at == before + [n] else more == kept && at == before
    ensures Picks(more, items, test, at)
  {
    var n := |items| - 1;
    forall k: nat | k < |items| && test(items[k])
      ensures k in at
    {
      if k < n {
        assert items[..n][k] == items[k];
        assert k in before && before <= at;
      } else {
        assert at[|before|] == n;
      }
    }
  }

  lemma {:induction false} KeepIfCount<T>(items: seq<T>, test: T -> bool, x: T)
    ensures multiset(KeepIf(items, test))[x] == if test(x) then multiset(items)[x] else 0
    decreases |items|
  {
    if items != [] {
      var n := |items| - 1;
      assert items == items[..n] + [items[n]];
      KeepIfCount(items[..n], test, x);
    }
  }

  /** Two tests keep the same values exactly when they agree on every value there is. */
  lemma {:induction false} KeepIfSame<T(!new)>(items: seq<T>, p: T -> bool, q: T -> bool)
    ensures KeepIf(items, p) == KeepIf(items, q) <==> forall x :: x in items ==> (p(x) <==> q(x))
    decreases |items|
  {
    if KeepIf(items, p) == KeepIf(items, q) {
      forall x | x in items
        ensures p(x) <==> q(x)
      {
        KeepIfCount(items, p, x);
        KeepIfCount(items, q, x);
      }
    } else {
      var n := |items| - 1;
      KeepIfSame(items[..n], p, q);
    }
  }

  function Meeting<T(!new)>(meets: (T, RangeOp) -> bool, op: RangeOp): T -> bool { item => meets(item, op) }

  /** A cursor over a list of values, each its own key, that narrows to those that meet the range. */
  function Sieve<T(!new)>(meets: (T, RangeOp) -> bool): Machine<seq<T>, T, T> {
    Machine(
      (s: seq<T>) => if s == [] then None else Some((s[0], s[1..])),
      (s: seq<T>, op: RangeOp) => KeepIf(s, Meeting(meets, op)),
      (item: T) => item,
      (s: seq<T>) => |s|)
  }

  lemma {:induction false} SieveDrains<T(!new)>(meets: (T, RangeOp) -> bool, s: seq<T>)
    ensures Finite(Sieve(meets)) && Drain(Sieve(meets), s) == s
    decreases |s|
  {
    if s != [] {
      SieveDrains(meets, s[1..]);
    }
  }

  lemma {:induction false} SieveKeys<T(!new)>(meets: (T, RangeOp) -> bool, s: seq<T>)
    ensures Keys(Sieve(meets), s) == s
  {
  }

  lemma {:induction false} MarkedKeeps<T>(items: seq<T>, test: T -> bool)
    ensures Marked(items, seq(|items|, i requires 0 <= i < |items| => test(items[i]))) == KeepIf(items, test)
    decreases |items|
  {
    if items != [] {
      var n := |items| - 1;
      var marks := seq(|items|, i requires 0 <= i < |items| => test(items[i]));
      MarkedKeeps(items[..n], test);
      assert marks[..n] == seq(n, i requires 0 <= i < n => test(items[..n][i]));
    }
  }

  /** Equal values meet the range together, so the filter can find what is left. */
  lemma {:induction false} KeepIfRecoverable<T(!new)>(items: seq<T>, test: T -> bool)
    ensures Recoverable(items, KeepIf(items, test))
  {
    var marks := seq(|items|, i requires 0 <= i < |items| => test(items[i]));
    MarkedKeeps(items, test);
    assert LeftmostMarked(items, marks);
  }

  /** What a setter leaves of the values when it comes down to the range `op`: with a replay
  exactly those that meet it, and otherwise those the local test keeps, which is what the
  lazy cursor still yields exactly when the two tests agree on every value that was left. */
  ghost predicate Narrows<T(!new)>(meets: (T, RangeOp) -> bool, op: RangeOp, execOk: bool, local: T -> bool,
      had: seq<T>, has: seq<T>, exact: bool)
  {
    && LeavesExactly(has, had, if execOk then Meeting(meets, op) else local)
    && (exact <==> execOk || forall item :: item in had ==> (local(item) <==> meets(item, op)))
  }

  lemma {:induction false} Narrowing<T(!new)>(meets: (T, RangeOp) -> bool, op: RangeOp, execOk: bool, local: T -> bool,
      had: seq<T>, has: seq<T>, exact: bool)
    requires has == KeepIf(had, if execOk then Meeting(meets, op) else local)
    requires exact <==> has == KeepIf(had, Meeting(meets, op))
    ensures Narrows(meets, op, execOk, local, had, has, exact)
  {
    var at := KeepIfPicks(had, if execOk then Meeting(meets, op) else local);
    KeepIfSame(had, local, Meeting(meets, op));
  }

  /** A sequence over such a cursor that matches it. */
  ghost predicate Sieving<T(!new)>(q: QueryItems<seq<T>, T, T>, meets: (T, RangeOp) -> bool)
    reads q, q.stream, q.backing
  {
    q.Valid() && q.exact && q.stream.m == Sieve(meets)
  }

  /** A setter that comes down to the range `op`. */
  method SetNormalized<T(!new, ==)>(ghost meets: (T, RangeOp) -> bool, q: QueryItems<seq<T>, T, T>, setter: Setter, ghost op: RangeOp,
      execOk: bool, local: T -> bool)
    requires Sieving(q, meets) && Normalize(setter) == Some(op)
    modifies q, q.stream, q.backing
    ensures q.Valid() && Narrows(meets, op, execOk || old(q.lo == q.hi), local, old(q.Contents()), q.Contents(), q.exact)
    ensures q.stream.operations
         == if old(q.lo == q.hi) then old(q.stream.operations) else old(q.stream.operations) + [LogEntry(q.stream.consumed, op)]
  {
    ghost var m, had, s := q.stream.m, q.Contents(), q.lazy;
    SieveKeys(meets, had);
    SieveDrains(meets, s);
    SieveKeys(meets, s);
    q.SetRange(setter, execOk, local);
    SieveDrains(meets, q.lazy);
    SieveKeys(meets, q.lazy);
    SieveKeys(meets, q.Contents());
    KeepIfRecoverable(had, Meeting(meets, op));
    Narrowing(meets, op, execOk || had == [], local, had, q.Contents(), q.exact);
  }

  /** An end of zero means no end; a range that is reversed then changes nothing, and any other
  is logged as it stands and leaves exactly the values that meet it. */
  method SetByteRange<T(!new, ==)>(ghost meets: (T, RangeOp) -> bool, q: QueryItems<seq<T>, T, T>, start: u32, end: u32,
      execOk: bool, local: T -> bool)
    requires Sieving(q, meets)
    modifies q, q.stream, q.backing
    ensures q.Valid()
    ensures end != 0 && start > end ==>
              Sieving(q, meets) && q.Contents() == old(q.Contents()) && q.lazy == old(q.lazy) && q.stream.operations == old(q.stream.operations)
    ensures end == 0 || start <= end ==>
              var op := ByteRange(start, if end == 0 then U32_MAX else end);
              && Narrows(meets, op, execOk || old(q.lo == q.hi), local, old(q.Contents()), q.Contents(), q.exact)
              && (old(q.lo < q.hi) ==> q.stream.operations == old(q.stream.operations) + [LogEntry(q.stream.consumed, op)])
  {
    if end != 0 && start > end {
      q.SetRange(SetBytes(start, end), execOk, local);
    } else {
      SetNormalized(meets, q, SetBytes(start, end), ByteRange(start, if end == 0 then U32_MAX else end), execOk, local);
    }
  }

  /** The same for points, whose zero is the origin. */
  method SetPointRange<T(!new, ==)>(ghost meets: (T, RangeOp) -> bool, q: QueryItems<seq<T>, T, T>, start: Point, end: Point,
      execOk: bool, local: T -> bool)
    requires Sieving(q, meets)
    modifies q, q.stream, q.backing
    ensures q.Valid()
    ensures end != Point(0, 0) && Behind(end, start) ==>
              Sieving(q, meets) && q.Contents() == old(q.Contents()) && q.lazy == old(q.lazy) && q.stream.operations == old(q.stream.operations)
    ensures end == Point(0, 0) || !Behind(end, start) ==>
              var op := PointRange(start, if end == Point(0, 0) then Point(U32_MAX, U32_MAX) else end);
              && Narrows(meets, op, execOk || old(q.lo == q.hi), local, old(q.Contents()), q.Contents(), q.exact)
              && (old(q.lo < q.hi) ==> q.stream.operations == old(q.stream.operations) + [LogEntry(q.stream.consumed, op)])
  {
    if end != Point(0, 0) && Behind(end, start) {
      q.SetRange(SetPoints(start, end), execOk, local);
    } else {
      SetNormalized(meets, q, SetPoints(start, end),
                    PointRange(start, if end == Point(0, 0) then Point(U32_MAX, U32_MAX) else end), execOk, local);
    }
  }

  // ---------------------------------------------------------------- where nodes lie

  /** Where a node lies, in bytes and in points. */
  datatype Span = Span(startByte: u32, endByte: u32, startPoint: Point, endPoint: Point)

  predicate NodeIntersectsByteRange(node: Span, start: u32, end: u32) {
    var e := if end == 0 then U32_MAX else end;
    if node.startByte == node.endByte then start <= node.startByte < e else node.startByte < e && start < node.endByte
  }

  predicate NodeIntersectsPointRange(node: Span, start: Point, end: Point) {
    var e := if end == Point(0, 0) then Point(U32_MAX, U32_MAX) else end;
    if node.startPoint == node.endPoint then ComparePoint(node.startPoint, start) >= 0 && ComparePoint(node.startPoint, e) < 0
    else ComparePoint(node.startPoint, e) < 0 && ComparePoint(node.endPoint, start) > 0
  }

  predicate ByteIn(b: nat, start: nat, end: nat) { start <= b < end }

  predicate PointIn(p: Point, start: Point, end: Point) { !Behind(p, start) && Behind(p, end) }

  /** A node that is not empty meets a range that is not empty exactly when they share a byte,
  and an empty one exactly when it stands in the range. */
  lemma {:induction false} SharesByte(node: Span, start: u32, end: u32, e: u32)
    requires e == if end == 0 then U32_MAX else end
    requires node.startByte <= node.endByte && (end == 0 || start < end) && start < U32_MAX
    ensures NodeIntersectsByteRange(node, start, end)
       <==> exists b :: ByteIn(b, start, e) && (b == node.startByte || ByteIn(b, node.startByte, node.endByte))
  {
    if NodeIntersectsByteRange(node, start, end) {
      var b := if node.startByte < start then start else node.startByte;
      assert ByteIn(b, start, e) && (b == node.startByte || ByteIn(b, node.startByte, node.endByte));
    }
  }

  lemma {:induction false} SharesPoint(node: Span, start: Point, end: Point, e: Point)
    requires e == if end == Point(0, 0) then Point(U32_MAX, U32_MAX) else end
    requires !Behind(node.endPoint, node.startPoint) && start != Point(U32_MAX, U32_MAX) && (end == Point(0, 0) || Behind(start, end))
    ensures NodeIntersectsPointRange(node, start, end)
       <==> exists p :: PointIn(p, start, e) && (p == node.startPoint || PointIn(p, node.startPoint, node.endPoint))
  {
    if NodeIntersectsPointRange(node, start, end) {
      var p := if Behind(node.startPoint, start) then start else node.startPoint;
      assert PointIn(p, start, e) && (p == node.startPoint || PointIn(p, node.startPoint, node.endPoint));
    }
  }

  /** A match: the root of its pattern, where known, and the captured nodes. */
  datatype Match = Match(root: Option<Span>, captures: seq<Span>)

  predicate NodeMeets(node: Span, op: RangeOp) {
    match op
    case ByteRange(start, end) => NodeIntersectsByteRange(node, start, end)
    case PointRange(start, end) => NodeIntersectsPointRange(node, start, end)
  }

  /** How a cursor narrows its matches: by the nodes their patterns are rooted at. */
  function RootMeets(): (Match, RangeOp) -> bool {
    (m: Match, op: RangeOp) => m.root.None? || NodeMeets(m.root.value, op)
  }

  /** How the local test does: by the captured nodes, and by the root only when there are none. */
  predicate CapturesMeet(m: Match, op: RangeOp) {
    if m.captures == [] then m.root.None? || NodeMeets(m.root.value, op)
    else exists k :: 0 <= k < |m.captures| && NodeMeets(m.captures[k], op)
  }

  method QueryMatchIntersectsByteRange(m: Match, start: u32, end: u32) returns (r: bool)
    ensures r <==> CapturesMeet(m, ByteRange(start, end))
  {
    if |m.captures| == 0 {
      if m.root.Some? {
        return NodeIntersectsByteRange(m.root.value, start, end);
      }
      return true;
    }
    for k := 0 to |m.captures|
      invariant forall j :: 0 <= j < k ==> !NodeMeets(m.captures[j], ByteRange(start, end))
    {
      if NodeIntersectsByteRange(m.captures[k], start, end) {
        assert NodeMeets(m.captures[k], ByteRange(start, end));
        return true;
      }
    }
    return false;
  }

  method QueryMatchIntersectsPointRange(m: Match, start: Point, end: Point) returns (r: bool)
    ensures r <==> CapturesMeet(m, PointRange(start, end))
  {
    if |m.captures| == 0 {
      if m.root.Some? {
        return NodeIntersectsPointRange(m.root.value, start, end);
      }
      return true;
    }
    for k := 0 to |m.captures|
      invariant forall j :: 0 <= j < k ==> !NodeMeets(m.captures[j], PointRange(start, end))
    {
      if NodeIntersectsPointRange(m.captures[k], start, end) {
        assert NodeMeets(m.captures[k], PointRange(start, end));
        return true;
      }
    }
    return false;
  }

  /** A match rooted in bytes 0 to 9 whose only capture is byte 8, when the range becomes 0 to
  5: the lazy cursor keeps it, and so does a sequence that replays; the local test drops it. */
  lemma {:induction false} RootOutsideCapture(execOk: bool, local: Match -> bool, has: seq<Match>, exact: bool)
    requires forall m :: local(m) <==> CapturesMeet(m, ByteRange(0, 5))
    requires Narrows(RootMeets(), ByteRange(0, 5), execOk, local, [LateCapture()], has, exact)
    ensures has == (if execOk then [LateCapture()] else []) && (exact <==> execOk)
  {
    var found, op := LateCapture(), ByteRange(0, 5);
    assert NodeMeets(found.root.value, op) && !NodeMeets(found.captures[0], op);
    assert [found][0] == found;
    OneLeft(has, found, if execOk then Meeting(RootMeets(), op) else local);
  }

  function LateCapture(): Match {
    Match(Some(Span(0, 10, Point(0, 0), Point(0, 10))), [Span(8, 9, Point(0, 8), Point(0, 9))])
  }

  lemma {:induction false} OneLeft<T(!new)>(kept: seq<T>, item: T, test: T -> bool)
    requires LeavesExactly(kept, [item], test)
    ensures kept == if test(item) then [item] else []
  {
    var at :| Picks(kept, [item], test, at);
    if at != [] {
      Rising(at, |at| - 1);
      assert kept == [item];
    }
    assert test([item][0]) ==> 0 in at;
  }

  lemma {:induction false} Rising(at: seq<nat>, k: nat)
    requires k < |at| && forall i, j :: 0 <= i < j < |at| ==> at[i] < at[j]
    ensures k <= at[k]
  {
    if k > 0 {
      Rising(at, k - 1);
    }
  }
}
