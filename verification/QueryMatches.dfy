/** The public match and capture sequences.  A sequence is a window on a shared backing
array; it is consumed from the front and filtered in place by the range setters.
Matches and captures differ only in what an item and its key are. */
module Materialized {
  import opened Values
  import opened SyntaxTree
  import opened Replay

  /** The state of a lazy cursor after `n` more steps. */
  ghost function Advance<S(!new), Item, Key>(m: Machine<S, Item, Key>, s: S, n: nat): S
    requires Finite(m) && n <= |Drain(m, s)|
    decreases n
  {
    if n == 0 then s else Advance(m, m.next(s).value.1, n - 1)
  }

  lemma {:induction false} DrainAdvance<S(!new), Item, Key>(m: Machine<S, Item, Key>, s: S, n: nat)
    requires Finite(m) && n <= |Drain(m, s)|
    ensures Drain(m, Advance(m, s, n)) == Drain(m, s)[n..]
    ensures n < |Drain(m, s)| ==> m.next(Advance(m, s, n)) != None && Advance(m, s, n + 1) == m.next(Advance(m, s, n)).value.1
    decreases n
  {
    if n > 0 {
      DrainAdvance(m, m.next(s).value.1, n - 1);
    }
  }

  /** Range setters as the caller writes them. */
  datatype Setter =
    | SetBytes(byteStart: u32, byteEnd: u32)
    | SetPoints(pointStart: Point, pointEnd: Point)

  /** An all-zero end means unbounded; a range reversed after that is ignored. */
  function Normalize(s: Setter): (r: Option<RangeOp>)
  {
    match s
    case SetBytes(start, end) =>
      var end' := if end == 0 then U32_MAX else end;
      if start > end' then None else Some(ByteRange(start, end'))
    case SetPoints(start, end) =>
      var end' := if end == Point(0, 0) then Point(U32_MAX, U32_MAX) else end;
      if ComparePoint(start, end') > 0 then None else Some(PointRange(start, end'))
  }

  /** The counts left over once the values in `seen` have used theirs up. */
  ghost function Left<S, Item, Key>(m: Machine<S, Item, Key>, seen: seq<Item>, eligible: multiset<Key>): multiset<Key> {
    eligible - multiset(Keys(m, seen))
  }

  /** What one more value does to the values kept and the counts left over. */
  ghost predicate FilterStep<S(!new), Item(!new), Key(!new)>(m: Machine<S, Item, Key>, items: seq<Item>, kept: seq<seq<Item>>, left: seq<multiset<Key>>, n: nat)
    requires n < |items| && |kept| == |left| == |items| + 1
  {
    var key := m.key(items[n]);
    && kept[n + 1] == (if left[n][key] > 0 then kept[n] + [items[n]] else kept[n])
    && left[n + 1] == (if left[n][key] > 0 then left[n] - multiset{key} else left[n])
  }

  /** The filter's states over a window, from none of its values seen to all. */
  ghost predicate IsFiltering<S(!new), Item(!new), Key(!new)>(m: Machine<S, Item, Key>, items: seq<Item>, eligible: multiset<Key>, kept: seq<seq<Item>>, left: seq<multiset<Key>>) {
    && |kept| == |left| == |items| + 1 && kept[0] == [] && left[0] == eligible
    && forall n: nat :: n < |items| ==> FilterStep(m, items, kept, left, n)
  }

  /** The last value of a window decides over itself alone. */
  lemma {:induction false} LeftmostLast<S(!new), Item(!new), Key(!new)>(m: Machine<S, Item, Key>, items: seq<Item>, eligible: multiset<Key>)
    requires items != []
    ensures var init, last := items[..|items| - 1], items[|items| - 1];
      Leftmost(m, items, eligible)
      == if Left(m, init, eligible)[m.key(last)] > 0 then Leftmost(m, init, eligible) + [last] else Leftmost(m, init, eligible)
  {
    var init, last := items[..|items| - 1], items[|items| - 1];
    assert Left(m, init, eligible)[m.key(last)] > 0 <==> multiset(Keys(m, init))[m.key(last)] < eligible[m.key(last)];
  }

  lemma {:induction false} LeftLast<S(!new), Item(!new), Key(!new)>(m: Machine<S, Item, Key>, items: seq<Item>, eligible: multiset<Key>)
    requires items != []
    ensures var init, last := items[..|items| - 1], items[|items| - 1];
      var left, key := Left(m, init, eligible), m.key(last);
      Left(m, items, eligible) == if left[key] > 0 then left - multiset{key} else left
  {
    var init, last := items[..|items| - 1], items[|items| - 1];
    assert items == init + [last];
    KeysAppend(m, init, last);
  }

  lemma {:induction false} Filtering<S(!new), Item(!new), Key(!new)>(m: Machine<S, Item, Key>, items: seq<Item>, eligible: multiset<Key>)
    returns (kept: seq<seq<Item>>, left: seq<multiset<Key>>)
    ensures IsFiltering(m, items, eligible, kept, left)
    ensures kept[|items|] == Leftmost(m, items, eligible) && left[|items|] == Left(m, items, eligible)
    decreases |items|
  {
    if items == [] {
      kept, left := [[]], [eligible];
    } else {
      var init := items[..|items| - 1];
      var k, l := Filtering(m, init, eligible);
      LeftmostLast(m, items, eligible);
      LeftLast(m, items, eligible);
      kept, left := k + [Leftmost(m, items, eligible)], l + [Left(m, items, eligible)];
      FilteringGrows(m, items, eligible, k, l, kept, left);
    }
  }

  lemma {:induction false} FilteringGrows<S(!new), Item(!new), Key(!new)>(m: Machine<S, Item, Key>, items: seq<Item>, eligible: multiset<Key>,
      k: seq<seq<Item>>, l: seq<multiset<Key>>, kept: seq<seq<Item>>, left: seq<multiset<Key>>)
    requires items != [] && IsFiltering(m, items[..|items| - 1], eligible, k, l)
    requires |kept| == |left| == |items| + 1 && kept[..|items|] == k && left[..|items|] == l
    requires FilterStep(m, items, kept, left, |items| - 1)
    ensures IsFiltering(m, items, eligible, kept, left)
  {
    var init := items[..|items| - 1];
    assert kept[0] == k[0] && left[0] == l[0];
    forall n: nat | n < |items|
      ensures FilterStep(m, items, kept, left, n)
    {
      if n < |init| {
        assert FilterStep(m, init, k, l, n);
        assert kept[n] == k[n] && kept[n + 1] == k[n + 1] && left[n] == l[n] && left[n + 1] == l[n + 1];
      }
    }
  }

  /** Writes a kept value behind those kept before it. */
  method Keep<T(!new)>(a: array<T>, lo: nat, write: nat, item: T)
    requires lo <= write < a.Length
    modifies a
    ensures a[lo..write + 1] == old(a[lo..write]) + [item]
    ensures forall i :: 0 <= i < a.Length && i != write ==> a[i] == old(a[i])
  {
    a[write] := item;
  }

  ghost predicate KeepStep<Item>(items: seq<Item>, keep: Item -> bool, kept: seq<seq<Item>>, n: nat)
    requires n < |items| && |kept| == |items| + 1
  {
    kept[n + 1] == if keep(items[n]) then kept[n] + [items[n]] else kept[n]
  }

  /** Keeps the values of a window that pass a test. */
  method KeepMatching<Item(!new)>(a: array<Item>, lo: nat, hi: nat, keep: Item -> bool, ghost before: seq<Item>, ghost kept: seq<seq<Item>>)
    returns (write: nat)
    requires lo <= hi <= a.Length && a[lo..hi] == before && |kept| == |before| + 1 && kept[0] == []
    requires forall n: nat :: n < |before| ==> KeepStep(before, keep, kept, n)
    modifies a
    ensures lo <= write <= hi && a[lo..write] == kept[|before|]
    ensures forall i :: 0 <= i < lo || write <= i < a.Length ==> a[i] == old(a[i])
  {
    ghost var n: nat := 0;
    write := lo;
    var read := lo;
    while read < hi
      invariant lo <= write <= read == lo + n <= hi
      invariant forall i :: 0 <= i < lo ==> a[i] == old(a[i])
      invariant forall i :: write <= i < a.Length ==> a[i] == old(a[i])
      invariant a[lo..write] == kept[n]
    {
      var item := a[read];
      assert item == old(a[lo..hi])[n] && KeepStep(before, keep, kept, n);
      if keep(item) {
        Keep(a, lo, write, item);
        write := write + 1;
      }
      read, n := read + 1, n + 1;
    }
  }

  /** The loop of the filter: it goes through the filtering's states. */
  method Compact<S(!new), Item(!new), Key(!new, ==)>(m: Machine<S, Item, Key>, a: array<Item>, lo: nat, hi: nat, eligible: multiset<Key>,
      ghost before: seq<Item>, ghost kept: seq<seq<Item>>, ghost left: seq<multiset<Key>>) returns (write: nat)
    requires lo <= hi <= a.Length && a[lo..hi] == before && IsFiltering(m, before, eligible, kept, left)
    modifies a
    ensures lo <= write <= hi && a[lo..write] == kept[|before|]
    ensures forall i :: 0 <= i < lo || write <= i < a.Length ==> a[i] == old(a[i])
  {
    ghost var n: nat := 0;
    var budget := eligible;
    write := lo;
    var read := lo;
    while read < hi
      invariant lo <= write <= read == lo + n <= hi
      invariant forall i :: 0 <= i < lo ==> a[i] == old(a[i])
      invariant forall i :: write <= i < a.Length ==> a[i] == old(a[i])
      invariant a[lo..write] == kept[n] && budget == left[n]
    {
      var item := a[read];
      var key := m.key(item);
      assert item == old(a[lo..hi])[n] && FilterStep(m, before, kept, left, n);
      if budget[key] > 0 {
        Keep(a, lo, write, item);
        write := write + 1;
        budget := budget - multiset{key};
      }
      read, n := read + 1, n + 1;
    }
  }

  /** Keeps the eligible values of a window, writing them over its front. */
  method FilterWindow<S(!new), Item(!new), Key(!new, ==)>(m: Machine<S, Item, Key>, a: array<Item>, lo: nat, hi: nat, eligible: multiset<Key>)
    returns (write: nat)
    requires lo <= hi <= a.Length
    modifies a
    ensures lo <= write <= hi
    ensures a[lo..write] == Leftmost(m, old(a[lo..hi]), eligible)
    ensures forall i :: 0 <= i < lo || write <= i < a.Length ==> a[i] == old(a[i])
  {
    ghost var before := a[lo..hi];
    ghost var kept, left := Filtering(m, before, eligible);
    write := Compact(m, a, lo, hi, eligible, before, kept, left);
  }

  class QueryItems<S(!new), Item(!new), Key(!new, ==)> {
    const backing: array<Item>
    const stream: QueryIteratorStream<S, Item, Key>
    var lo: nat
    var hi: nat
    /** The state of the lazy cursor that saw the same calls. */
    ghost var lazy: S
    /** What is left still matches that cursor. */
    ghost var exact: bool

    ghost predicate Valid()
      reads this, stream, backing
    {
      && lo <= hi <= backing.Length
      && stream.Valid()
      && stream.consumed + (hi - lo) <= U64_MAX
      && (exact ==>
            && Keys(stream.m, Contents()) == Keys(stream.m, Drain(stream.m, lazy))
            && (lo < hi ==> stream.Lazy() == Some(lazy)))
    }

    ghost function Contents(): seq<Item>
      reads this, backing
      requires lo <= hi <= backing.Length
    {
      backing[lo..hi]
    }

    ghost function Left(): seq<Key>
      reads this, backing
      requires lo <= hi <= backing.Length
    {
      Keys(stream.m, Contents())
    }

    /** Drains a fresh cursor into a slice, up to its end or until a progress callback cancels the
    drain; only a complete drain matches the lazy cursor. */
    constructor (m: Machine<S, Item, Key>, start: S, drained: array<Item>)
      requires Finite(m) && drained[..] <= Drain(m, start) && drained.Length <= U64_MAX
      ensures Valid() && fresh(stream) && backing == drained && Contents() == drained[..]
      ensures stream.m == m && stream.start == start && lazy == start
      ensures exact <==> drained[..] == Drain(m, start)
    {
      backing := drained;
      stream := new QueryIteratorStream(m, start);
      lo, hi := 0, drained.Length;
      lazy, exact := start, drained[..] == Drain(m, start);
    }

    /** Pops values until one is found whose match was not removed. */
    method Next(removed: Item -> bool) returns (r: Option<Item>)
      requires Valid()
      modifies this, stream
      ensures Valid() && exact == old(exact) && stream.operations == old(stream.operations)
      ensures hi == old(hi) && backing[..] == old(backing[..]) && old(lo) <= lo
      ensures r.None? ==> lo == hi && forall i :: 0 <= i < |old(Contents())| ==> removed(old(Contents())[i])
      ensures r.Some? ==>
                && lo > old(lo) && r.value == backing[lo - 1] && !removed(r.value)
                && (forall i :: old(lo) <= i < lo - 1 ==> removed(backing[i]))
      ensures stream.consumed == old(stream.consumed) + (lo - old(lo))
      ensures exact ==> lo - old(lo) <= |Drain(stream.m, old(lazy))| && lazy == Advance(stream.m, old(lazy), lo - old(lo))
    {
      r := None;
      ghost var first := lo;
      while lo < hi
        invariant Valid() && exact == old(exact) && stream.operations == old(stream.operations)
        invariant first <= lo <= hi == old(hi) && backing[..] == old(backing[..])
        invariant stream.consumed == old(stream.consumed) + (lo - first)
        invariant forall i :: first <= i < lo ==> removed(backing[i])
        invariant exact ==> lo - first <= |Drain(stream.m, old(lazy))| && lazy == Advance(stream.m, old(lazy), lo - first)
        decreases hi - lo
      {
        var item := PopFront();
        if removed(item) {
          continue;
        }
        return Some(item);
      }
    }

    /** Consumes one value and tells the stream. */
    method PopFront() returns (item: Item)
      requires Valid() && lo < hi
      modifies this, stream
      ensures Valid() && exact == old(exact) && stream.operations == old(stream.operations)
      ensures lo == old(lo) + 1 && hi == old(hi) && item == backing[old(lo)]
      ensures stream.consumed == old(stream.consumed) + 1
      ensures exact ==> forall s: S, n: nat :: n <= |Drain(stream.m, s)| && old(lazy) == Advance(stream.m, s, n)
                          ==> n + 1 <= |Drain(stream.m, s)| && lazy == Advance(stream.m, s, n + 1)
      ensures exact ==> stream.m.next(old(lazy)).Some? && stream.m.key(item) == stream.m.key(stream.m.next(old(lazy)).value.0)
    {
      ghost var m, before := stream.m, lazy;
      item := backing[lo];
      if exact {
        assert Left()[0] == m.key(item);
        assert |Drain(m, lazy)| == hi - lo;
        assert Left()[1..] == Keys(m, backing[lo + 1..hi]);
        assert Keys(m, Drain(m, lazy))[1..] == Keys(m, Drain(m, lazy)[1..]);
        lazy := m.next(lazy).value.1;
      }
      lo := lo + 1;
      stream.ConsumedOne();
      if exact {
        forall s: S, n: nat | n <= |Drain(m, s)| && before == Advance(m, s, n)
          ensures n + 1 <= |Drain(m, s)| && lazy == Advance(m, s, n + 1)
        {
          DrainAdvance(m, s, n);
        }
      }
    }

    /** Keeps the eligible values, writing them over the front of the window. */
    method FilterInPlace(eligible: multiset<Key>)
      requires lo <= hi <= backing.Length
      modifies this`hi, backing
      ensures lo <= hi <= old(hi)
      ensures Contents() == Leftmost(stream.m, old(Contents()), eligible)
      ensures forall i :: 0 <= i < backing.Length && !(lo <= i < hi) ==> backing[i] == old(backing[i])
    {
      hi := FilterWindow(stream.m, backing, lo, hi, eligible);
    }

    /** The compatibility filter used when the history cannot be replayed. */
    method FilterLocally(intersects: Item -> bool)
      requires lo <= hi <= backing.Length
      modifies this`hi, backing
      ensures lo <= hi <= old(hi)
      ensures Contents() == KeepIf(old(Contents()), intersects)
      ensures forall i :: 0 <= i < backing.Length && !(lo <= i < hi) ==> backing[i] == old(backing[i])
    {
      ghost var kept := Keeping(Contents(), intersects);
      hi := KeepMatching(backing, lo, hi, intersects, Contents(), kept);
    }

    /** Applies a range setter to what is left.  The sequence still matches the lazy cursor
    exactly when what is left now has the keys the narrowed cursor still yields: after a
    replay, exactly when those keys are found by keeping leftmost occurrences. */
    method SetRange(setter: Setter, execOk: bool, intersects: Item -> bool)
      requires Valid()
      modifies this, stream, backing
      ensures Valid() && lo == old(lo) && hi <= old(hi)
      ensures stream.consumed == old(stream.consumed)
      ensures forall i :: 0 <= i < backing.Length && !(lo <= i < hi) ==> backing[i] == old(backing[i])
      ensures Normalize(setter).None? ==> Contents() == old(Contents()) && exact == old(exact) && lazy == old(lazy)
      ensures stream.operations == if Normalize(setter).None? || old(lo == hi) then old(stream.operations)
                                   else old(stream.operations) + [LogEntry(stream.consumed, Normalize(setter).value)]
      ensures Normalize(setter).Some? ==> lazy == stream.m.narrow(old(lazy), Normalize(setter).value)
      ensures Normalize(setter).Some? && old(lo < hi) ==>
                && stream.Lazy() == Narrowed(stream.m, old(stream.Lazy()), Normalize(setter).value)
                && Contents() == Filtered(stream.m, old(Contents()), stream.Lazy(), execOk, intersects)
      ensures Normalize(setter).Some? ==> (exact <==> old(exact) && Left() == Keys(stream.m, Drain(stream.m, lazy)))
      ensures Normalize(setter).Some? && old(exact) && (execOk || old(lo == hi))
              ==> (exact <==> Recoverable(old(Left()), Keys(stream.m, Drain(stream.m, lazy))))
    {
      var op := Normalize(setter);
      if op.Some? {
        ApplyRange(op.value, execOk, intersects);
      }
    }

    /** A setter whose range is neither unbounded nor reversed any more. */
    method ApplyRange(op: RangeOp, execOk: bool, intersects: Item -> bool)
      requires Valid()
      modifies this, stream, backing
      ensures Valid() && lo == old(lo) && hi <= old(hi)
      ensures stream.consumed == old(stream.consumed)
      ensures forall i :: 0 <= i < backing.Length && !(lo <= i < hi) ==> backing[i] == old(backing[i])
      ensures stream.operations == if old(lo == hi) then old(stream.operations) else old(stream.operations) + [LogEntry(stream.consumed, op)]
      ensures lazy == stream.m.narrow(old(lazy), op)
      ensures old(lo < hi) ==>
                && stream.Lazy() == Narrowed(stream.m, old(stream.Lazy()), op)
                && Contents() == Filtered(stream.m, old(Contents()), stream.Lazy(), execOk, intersects)
      ensures exact <==> old(exact) && Left() == Keys(stream.m, Drain(stream.m, lazy))
      ensures old(exact) && (execOk || old(lo == hi)) ==> (exact <==> Recoverable(old(Left()), Keys(stream.m, Drain(stream.m, lazy))))
    {
      ghost var m, items, narrowed := stream.m, Contents(), stream.m.narrow(lazy, op);
      LeftmostRecoversIff(m, items, Keys(m, Drain(m, narrowed)));
      if lo == hi {
        // Nothing is left to name the stream, so the setter is not logged.
        assert Contents() == [] && Leftmost(m, items, multiset(Keys(m, Drain(m, narrowed)))) == [];
      } else {
        NarrowWindow(op, execOk, intersects);
      }
      lazy, exact := narrowed, exact && Left() == Keys(m, Drain(m, narrowed));
    }

    /** The part of a range setter that reaches the stream and the window. */
    method NarrowWindow(op: RangeOp, execOk: bool, intersects: Item -> bool)
      requires Valid() && lo < hi
      modifies stream, this`hi, backing
      ensures stream.Valid() && stream.consumed == old(stream.consumed) && lo <= hi <= old(hi)
      ensures stream.Lazy() == Narrowed(stream.m, old(stream.Lazy()), op)
      ensures stream.operations == old(stream.operations) + [LogEntry(stream.consumed, op)]
      ensures Contents() == Filtered(stream.m, old(Contents()), stream.Lazy(), execOk, intersects)
      ensures forall i :: 0 <= i < backing.Length && !(lo <= i < hi) ==> backing[i] == old(backing[i])
    {
      var ok := FilterByReplay(op, execOk);
      if !ok {
        FilterLocally(intersects);
      }
    }

    /** Logs the setter, replays, and filters what is left by the keys still on offer. */
    method FilterByReplay(op: RangeOp, execOk: bool) returns (ok: bool)
      requires Valid() && lo < hi
      modifies stream, this`hi, backing
      ensures stream.Valid() && stream.consumed == old(stream.consumed) && lo <= hi <= old(hi)
      ensures stream.Lazy() == Narrowed(stream.m, old(stream.Lazy()), op)
      ensures stream.operations == old(stream.operations) + [LogEntry(stream.consumed, op)]
      ensures ok <==> execOk && stream.Lazy().Some?
      ensures ok ==> Contents() == Leftmost(stream.m, old(Contents()), multiset(Keys(stream.m, Drain(stream.m, stream.Lazy().value))))
      ensures !ok ==> hi == old(hi) && Contents() == old(Contents()) && backing[..] == old(backing[..])
      ensures forall i :: 0 <= i < backing.Length && !(lo <= i < hi) ==> backing[i] == old(backing[i])
    {
      var eligible;
      eligible, ok := stream.SnapshotRangeOperation(op, execOk);
      if ok {
        FilterInPlace(eligible);
      }
    }
  }

  /** The replayed cursor once the setter is logged too. */
  ghost function Narrowed<S, Item, Key>(m: Machine<S, Item, Key>, replayed: Option<S>, op: RangeOp): Option<S> {
    if replayed.None? then None else Some(m.narrow(replayed.value, op))
  }

  /** What a range setter leaves of the values: the leftmost ones the replayed cursor still
  yields, or without a replay those that intersect the range. */
  ghost function Filtered<S(!new), Item, Key>(m: Machine<S, Item, Key>, items: seq<Item>, replayed: Option<S>, execOk: bool,
      intersects: Item -> bool): seq<Item>
    requires Finite(m)
  {
    if execOk && replayed.Some? then Leftmost(m, items, multiset(Keys(m, Drain(m, replayed.value)))) else KeepIf(items, intersects)
  }

  function KeepIf<Item>(items: seq<Item>, keep: Item -> bool): seq<Item> {
    if items == [] then [] else
    var kept := KeepIf(items[..|items| - 1], keep);
    if keep(items[|items| - 1]) then kept + [items[|items| - 1]] else kept
  }

  lemma {:induction false} Keeping<Item>(items: seq<Item>, keep: Item -> bool) returns (kept: seq<seq<Item>>)
    ensures |kept| == |items| + 1 && kept[0] == [] && kept[|items|] == KeepIf(items, keep)
    ensures forall n: nat :: n < |items| ==> KeepStep(items, keep, kept, n)
    decreases |items|
  {
    if items == [] {
      kept := [[]];
    } else {
      var init := items[..|items| - 1];
      var k := Keeping(init, keep);
      kept := k + [KeepIf(items, keep)];
      forall n: nat | n < |items|
        ensures KeepStep(items, keep, kept, n)
      {
        if n < |init| {
          assert KeepStep(init, keep, k, n);
        }
      }
    }
  }

  /** What the keys of the kept values are, when only keys decide. */
  lemma {:induction false} KeepIfKeys<S, Item, Key>(m: Machine<S, Item, Key>, items: seq<Item>, keep: Key -> bool)
    ensures Keys(m, KeepIf(items, item => keep(m.key(item)))) == KeepIf(Keys(m, items), keep)
    decreases |items|
  {
    if items != [] {
      var init, last := items[..|items| - 1], items[|items| - 1];
      KeysSplit(m, items);
      KeepIfKeys(m, init, keep);
      KeysAppend(m, KeepIf(init, item => keep(m.key(item))), last);
    }
  }

  // ---------------------------------------------------------------- whole histories

  /** A setter comes with what the fresh cursor's execution will do, and with the test of
  the compatibility filter. */
  datatype Event<!Key> = Take | Narrow(setter: Setter, execOk: bool, intersects: Key -> bool)

  /** The keys a lazy cursor reports for a history: one entry per Take, None at the end. */
  ghost function LazyReports<S(!new), Item, Key>(m: Machine<S, Item, Key>, s: S, events: seq<Event<Key>>): seq<Option<Key>>
  {
    if events == [] then [] else
    var rest := LazyReports(m, LazyAfter(m, s, events[0]), events[1..]);
    match events[0]
    case Take => [if m.next(s).None? then None else Some(m.key(m.next(s).value.0))] + rest
    case Narrow(_, _, _) => rest
  }

  /** The lazy cursor after one event. */
  ghost function LazyAfter<S, Item, Key>(m: Machine<S, Item, Key>, s: S, event: Event<Key>): S {
    match event
    case Take => if m.next(s).None? then s else m.next(s).value.1
    case Narrow(setter, _, _) => if Normalize(setter).None? then s else m.narrow(s, Normalize(setter).value)
  }

  /** The setter can be made up for on the values left: the narrowed cursor's keys are found
  among them by keeping leftmost occurrences, or, when the history cannot be replayed, are
  those the compatibility filter keeps. */
  ghost predicate MadeUpFor<S(!new), Item, Key(!new)>(m: Machine<S, Item, Key>, s: S, event: Event<Key>)
    requires Finite(m)
  {
    event.Narrow? && Normalize(event.setter).Some? ==>
      var had, has := Keys(m, Drain(m, s)), Keys(m, Drain(m, LazyAfter(m, s, event)));
      if event.execOk || had == [] then Recoverable(had, has) else KeepIf(had, event.intersects) == has
  }

  ghost predicate AllMadeUpFor<S(!new), Item, Key(!new)>(m: Machine<S, Item, Key>, s: S, events: seq<Event<Key>>)
    requires Finite(m)
  {
    events != [] ==> MadeUpFor(m, s, events[0]) && AllMadeUpFor(m, LazyAfter(m, s, events[0]), events[1..])
  }

  /** Every setter of the history is replayed and only takes values away. */
  ghost predicate AllNarrowing<S(!new), Item, Key(!new)>(m: Machine<S, Item, Key>, s: S, events: seq<Event<Key>>)
    requires Finite(m)
  {
    events != [] ==>
      var t := LazyAfter(m, s, events[0]);
      && (events[0].Narrow? && Normalize(events[0].setter).Some? ==>
            events[0].execOk && Subsequence(Keys(m, Drain(m, t)), Keys(m, Drain(m, s))))
      && AllNarrowing(m, t, events[1..])
  }

  /** With distinct keys such a history can always be made up for. */
  lemma {:induction false} DistinctMadeUpFor<S(!new), Item, Key(!new)>(m: Machine<S, Item, Key>, s: S, events: seq<Event<Key>>)
    requires Finite(m) && Distinct(Keys(m, Drain(m, s))) && AllNarrowing(m, s, events)
    ensures AllMadeUpFor(m, s, events)
    decreases |events|
  {
    if events != [] {
      var t := LazyAfter(m, s, events[0]);
      var had, has := Keys(m, Drain(m, s)), Keys(m, Drain(m, t));
      if events[0].Narrow? && Normalize(events[0].setter).Some? {
        DistinctRecoverable(had, has);
        SubsequenceDistinct(has, had);
      } else if events[0].Take? && m.next(s).Some? {
        assert has == had[1..];
      }
      DistinctMadeUpFor(m, t, events[1..]);
    }
  }

  /** Replay refinement: over any history of `Next` and range setters, with any repeated
  keys, a drained sequence still matches the lazy cursor at the end exactly when each setter
  could be made up for; and as long as it could, it reports what the lazy cursor does. */
  method Run<S(!new), Item(!new), Key(!new, ==)>(q: QueryItems<S, Item, Key>, events: seq<Event<Key>>)
    returns (reports: seq<Option<Key>>)
    requires q.Valid()
    modifies q, q.stream, q.backing
    ensures q.Valid()
    ensures q.exact <==> old(q.exact) && AllMadeUpFor(q.stream.m, old(q.lazy), events)
    ensures q.exact ==> reports == LazyReports(q.stream.m, old(q.lazy), events)
    decreases |events|
  {
    if events == [] {
      return [];
    }
    var head := RunOne(q, events[0]);
    var rest := Run(q, events[1..]);
    return head + rest;
  }

  /** One event, and what it reports. */
  method RunOne<S(!new), Item(!new), Key(!new, ==)>(q: QueryItems<S, Item, Key>, event: Event<Key>) returns (head: seq<Option<Key>>)
    requires q.Valid()
    modifies q, q.stream, q.backing
    ensures q.Valid() && (q.exact ==> q.lazy == LazyAfter(q.stream.m, old(q.lazy), event))
    ensures q.exact <==> old(q.exact) && MadeUpFor(q.stream.m, old(q.lazy), event)
    ensures event.Narrow? ==> head == []
    ensures event.Take? && q.exact ==>
              var step := q.stream.m.next(old(q.lazy)); head == [if step.None? then None else Some(q.stream.m.key(step.value.0))]
  {
    match event
    case Take => head := TakeOne(q);
    case Narrow(setter, execOk, intersects) =>
      head := [];
      NarrowOne(q, setter, execOk, intersects);
  }

  method TakeOne<S(!new), Item(!new), Key(!new, ==)>(q: QueryItems<S, Item, Key>) returns (head: seq<Option<Key>>)
    requires q.Valid()
    modifies q, q.stream
    ensures q.Valid() && q.exact == old(q.exact)
    ensures q.exact ==> q.lazy == LazyAfter(q.stream.m, old(q.lazy), Take)
    ensures q.exact ==>
              var step := q.stream.m.next(old(q.lazy)); head == [if step.None? then None else Some(q.stream.m.key(step.value.0))]
  {
    ghost var m, items, keys, s := q.stream.m, q.Contents(), q.Left(), q.lazy;
    var never := (_: Item) => false;
    assert |items| > 0 ==> !never(items[0]) && q.backing[q.lo] == items[0];
    var item := q.Next(never);
    head := [if item.None? then None else Some(q.stream.m.key(item.value))];
    if q.exact {
      assert keys == Keys(m, Drain(m, s));
      if item.None? {
        assert |items| == 0;
      } else {
        assert keys[0] == m.key(item.value) && Drain(m, s)[0] == m.next(s).value.0;
        assert Advance(m, s, 1) == Advance(m, m.next(s).value.1, 0);
      }
    }
  }

  method NarrowOne<S(!new), Item(!new), Key(!new, ==)>(q: QueryItems<S, Item, Key>, setter: Setter, execOk: bool, intersects: Key -> bool)
    requires q.Valid()
    modifies q, q.stream, q.backing
    ensures q.Valid()
    ensures q.lazy == LazyAfter(q.stream.m, old(q.lazy), Narrow(setter, execOk, intersects))
    ensures q.exact <==> old(q.exact) && MadeUpFor(q.stream.m, old(q.lazy), Narrow(setter, execOk, intersects))
  {
    ghost var m, items := q.stream.m, q.Contents();
    KeepIfKeys(m, items, intersects);
    var key := q.stream.m.key;
    q.SetRange(setter, execOk, item => intersects(key(item)));
  }

  // ---------------------------------------------------------------- a setter that cannot be made up for

  /** A cursor over a list of numbers, each its own key; narrowing drops the first. */
  function Dropping(): Machine<seq<nat>, nat, nat> {
    Machine(
      (s: seq<nat>) => if s == [] then None else Some((s[0], s[1..])),
      (s: seq<nat>, op: RangeOp) => if s == [] then s else s[1..],
      (item: nat) => item,
      (s: seq<nat>) => |s|)
  }

  lemma {:induction false} DroppingDrains(s: seq<nat>)
    ensures Finite(Dropping()) && Drain(Dropping(), s) == s && Keys(Dropping(), s) == s
    decreases |s|
  {
    if s != [] {
      DroppingDrains(s[1..]);
    }
  }

  lemma {:induction false} DroppingExample(op: RangeOp)
    ensures Finite(Dropping()) && Dropping().narrow([1, 2, 1], op) == [2, 1]
    ensures Drain(Dropping(), [1, 2, 1]) == [1, 2, 1] && Drain(Dropping(), [2, 1]) == [2, 1] && Subsequence([2, 1], [1, 2, 1])
    ensures Leftmost(Dropping(), [1, 2, 1], multiset(Keys(Dropping(), [2, 1]))) == [1, 2]
    ensures Keys(Dropping(), [1, 2]) == [1, 2] && Keys(Dropping(), [2, 1]) == [2, 1]
  {
    DroppingDrains([1, 2, 1]);
    DroppingDrains([2, 1]);
    DroppingDrains(Leftmost(Dropping(), [1, 2, 1], multiset([2, 1])));
    DuplicateKeysReorder(Dropping());
    assert [1, 2, 1][1..] == [2, 1];
  }

  /** The keys of the narrowed cursor are a subsequence of those left, yet the filter keeps
  the wrong one of two equal keys: the lazy cursor yields 2, 1 and the sequence 1, 2. */
  method ReorderedRange() returns (q: QueryItems<seq<nat>, nat, nat>)
    ensures q.Valid() && !q.exact && q.Contents() == [1, 2]
    ensures q.stream.m == Dropping() && Drain(Dropping(), q.lazy) == [2, 1] && Subsequence([2, 1], [1, 2, 1])
  {
    DroppingExample(ByteRange(0, U32_MAX));
    var drained := new nat[] [1, 2, 1];
    assert drained[..] == [1, 2, 1];
    q := new QueryItems(Dropping(), [1, 2, 1], drained);
    q.SetRange(SetBytes(0, 0), true, _ => true);
    assert q.stream.Lazy() == Some([2, 1]);
  }
}
