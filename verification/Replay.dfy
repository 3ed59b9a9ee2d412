/** Materialised query iterators.

A drained slice must keep behaving like a lazy cursor whose range changes in
mid-stream.  It does so by logging every range setter with the position at which it
happened, replaying the log on a fresh cursor, and filtering what is left of the slice
by the multiset of keys the fresh cursor still has to offer. */
module Replay {
  import opened Values
  import opened SyntaxTree

  datatype RangeOp =
    | ByteRange(byteStart: u32, byteEnd: u32)
    | PointRange(pointStart: Point, pointEnd: Point)

  /** A lazy native cursor: how it yields, how a range setter changes it, how a value is
  keyed, and a bound on what it can still yield. */
  datatype Machine<!S, !Item, !Key> = Machine(
    next: S -> Option<(Item, S)>,
    narrow: (S, RangeOp) -> S,
    key: Item -> Key,
    size: S -> nat)

  ghost predicate Finite<S(!new), Item, Key>(m: Machine<S, Item, Key>) {
    forall s :: m.next(s).Some? ==> m.size(m.next(s).value.1) < m.size(s)
  }

  /** Everything a cursor state still yields. */
  ghost function Drain<S(!new), Item, Key>(m: Machine<S, Item, Key>, s: S): seq<Item>
    requires Finite(m)
    decreases m.size(s)
  {
    if m.next(s).None? then [] else [m.next(s).value.0] + Drain(m, m.next(s).value.1)
  }

  ghost function Keys<S, Item, Key>(m: Machine<S, Item, Key>, items: seq<Item>): (r: seq<Key>)
    ensures |r| == |items| && forall i :: 0 <= i < |items| ==> r[i] == m.key(items[i])
  {
    seq(|items|, i requires 0 <= i < |items| => m.key(items[i]))
  }

  // ---------------------------------------------------------------- the log

  datatype LogEntry = LogEntry(position: nat, op: RangeOp)

  /** Applies the setters logged at one position, in the order they were made. */
  function ApplyAt<S, Item, Key>(m: Machine<S, Item, Key>, s: S, log: seq<LogEntry>, position: nat): S
  {
    if log == [] then s else
    var before := ApplyAt(m, s, log[..|log| - 1], position);
    var last := log[|log| - 1];
    if last.position == position then m.narrow(before, last.op) else before
  }

  /** A fresh cursor after the setters at position 0 and `n` steps, each followed by the
  setters logged there; None when the cursor ends before that. */
  function ReplayTo<S, Item, Key>(m: Machine<S, Item, Key>, start: S, log: seq<LogEntry>, n: nat): Option<S>
  {
    if n == 0 then Some(ApplyAt(m, start, log, 0)) else
    match ReplayTo(m, start, log, n - 1)
    case None => None
    case Some(s) =>
      match m.next(s)
      case None => None
      case Some(step) => Some(ApplyAt(m, step.1, log, n))
  }

  lemma {:induction false} ApplyAtUnlogged<S, Item, Key>(m: Machine<S, Item, Key>, s: S, log: seq<LogEntry>, position: nat)
    requires forall e :: e in log ==> e.position != position
    ensures ApplyAt(m, s, log, position) == s
    decreases |log|
  {
    if log != [] {
      ApplyAtUnlogged(m, s, log[..|log| - 1], position);
    }
  }

  /** Logging a setter at the current position sets it last, and changes nothing before. */
  lemma {:induction false} ReplayLogged<S, Item, Key>(m: Machine<S, Item, Key>, start: S, log: seq<LogEntry>, e: LogEntry, n: nat)
    requires n <= e.position
    ensures n < e.position ==> ReplayTo(m, start, log + [e], n) == ReplayTo(m, start, log, n)
    ensures n == e.position && ReplayTo(m, start, log, n).Some?
            ==> ReplayTo(m, start, log + [e], n) == Some(m.narrow(ReplayTo(m, start, log, n).value, e.op))
    ensures n == e.position && ReplayTo(m, start, log, n).None? ==> ReplayTo(m, start, log + [e], n).None?
    decreases n
  {
    var longer := log + [e];
    assert longer[..|longer| - 1] == log;
    if n > 0 {
      ReplayLogged(m, start, log, e, n - 1);
    }
  }

  /** Taking one value replays to the next state of the cursor. */
  lemma {:induction false} ReplayTaken<S, Item, Key>(m: Machine<S, Item, Key>, start: S, log: seq<LogEntry>, n: nat)
    requires forall e :: e in log ==> e.position <= n
    requires ReplayTo(m, start, log, n).Some? && m.next(ReplayTo(m, start, log, n).value).Some?
    ensures ReplayTo(m, start, log, n + 1) == Some(m.next(ReplayTo(m, start, log, n).value).value.1)
  {
    var s := m.next(ReplayTo(m, start, log, n).value).value.1;
    ApplyAtUnlogged(m, s, log, n + 1);
  }

  // ---------------------------------------------------------------- filtering by a multiset

  /** Keeps an item when fewer than the eligible number of equal keys stand before it. */
  ghost function Leftmost<S, Item, Key>(m: Machine<S, Item, Key>, items: seq<Item>, eligible: multiset<Key>): (r: seq<Item>)
  {
    if items == [] then [] else
    var init, last := items[..|items| - 1], items[|items| - 1];
    var kept := Leftmost(m, init, eligible);
    if multiset(Keys(m, init))[m.key(last)] < eligible[m.key(last)] then kept + [last] else kept
  }

  lemma {:induction false} KeysAppend<S, Item, Key>(m: Machine<S, Item, Key>, a: seq<Item>, x: Item)
    ensures Keys(m, a + [x]) == Keys(m, a) + [m.key(x)]
    ensures multiset(Keys(m, a + [x])) == multiset(Keys(m, a)) + multiset{m.key(x)}
  {
  }

  lemma {:induction false} KeysSplit<S, Item, Key>(m: Machine<S, Item, Key>, items: seq<Item>)
    requires items != []
    ensures var init, last := items[..|items| - 1], items[|items| - 1];
            && items == init + [last]
            && Keys(m, items) == Keys(m, init) + [m.key(last)]
            && Keys(m, items)[..|items| - 1] == Keys(m, init)
            && multiset(Keys(m, items)) == multiset(Keys(m, init)) + multiset{m.key(last)}
  {
    var init, last := items[..|items| - 1], items[|items| - 1];
    assert items == init + [last];
    KeysAppend(m, init, last);
  }

  /** The kept keys are the multiset intersection of the old keys with the eligible ones. */
  lemma {:induction false} LeftmostIsIntersection<S, Item, Key>(m: Machine<S, Item, Key>, items: seq<Item>, eligible: multiset<Key>)
    ensures multiset(Keys(m, Leftmost(m, items, eligible))) == multiset(Keys(m, items)) * eligible
    decreases |items|
  {
    if items != [] {
      var init, last := items[..|items| - 1], items[|items| - 1];
      LeftmostIsIntersection(m, init, eligible);
      KeysSplit(m, items);
      KeysAppend(m, Leftmost(m, init, eligible), last);
    }
  }

  predicate Subsequence<T(==)>(a: seq<T>, b: seq<T>)
    decreases |b|
  {
    a == [] ||
    (b != [] &&
     ((a[|a| - 1] == b[|b| - 1] && Subsequence(a[..|a| - 1], b[..|b| - 1])) || Subsequence(a, b[..|b| - 1])))
  }

  ghost predicate Distinct<T>(s: seq<T>) {
    forall i, j :: 0 <= i < j < |s| ==> s[i] != s[j]
  }

  lemma {:induction false} SubsequenceMembers<T>(a: seq<T>, b: seq<T>)
    requires Subsequence(a, b)
    ensures forall x :: x in a ==> x in b
    decreases |b|
  {
    if a != [] {
      var b' := b[..|b| - 1];
      if a[|a| - 1] == b[|b| - 1] && Subsequence(a[..|a| - 1], b') {
        SubsequenceMembers(a[..|a| - 1], b');
        assert a == a[..|a| - 1] + [a[|a| - 1]];
      } else {
        SubsequenceMembers(a, b');
      }
    }
  }

  lemma {:induction false} SubsequenceDistinct<T>(a: seq<T>, b: seq<T>)
    requires Subsequence(a, b) && Distinct(b)
    ensures Distinct(a)
    decreases |b|
  {
    if a != [] {
      var b' := b[..|b| - 1];
      if a[|a| - 1] == b[|b| - 1] && Subsequence(a[..|a| - 1], b') {
        var a', x := a[..|a| - 1], a[|a| - 1];
        SubsequenceDistinct(a', b');
        SubsequenceMembers(a', b');
        assert x !in b';
        assert a == a' + [x];
        assert forall i :: 0 <= i < |a'| ==> a[i] == a'[i] && a'[i] in a';
      } else {
        SubsequenceDistinct(a, b');
      }
    }
  }

  lemma {:induction false} SubsequenceGrow<T>(a: seq<T>, b: seq<T>, x: T)
    requires Subsequence(a, b)
    ensures Subsequence(a, b + [x]) && Subsequence(a + [x], b + [x])
  {
    assert (b + [x])[..|b + [x]| - 1] == b && (a + [x])[..|a + [x]| - 1] == a;
  }

  /** The filter never invents or reorders. */
  lemma {:induction false} LeftmostIsSubsequence<S, Item, Key>(m: Machine<S, Item, Key>, items: seq<Item>, eligible: multiset<Key>)
    ensures Subsequence(Keys(m, Leftmost(m, items, eligible)), Keys(m, items))
    decreases |items|
  {
    if items != [] {
      var init, last := items[..|items| - 1], items[|items| - 1];
      LeftmostIsSubsequence(m, init, eligible);
      KeysSplit(m, items);
      KeysAppend(m, Leftmost(m, init, eligible), last);
      SubsequenceGrow(Keys(m, Leftmost(m, init, eligible)), Keys(m, init), m.key(last));
    }
  }

  /** The marked keys, in order. */
  function Marked<Key>(keys: seq<Key>, marks: seq<bool>): (r: seq<Key>)
    requires |marks| == |keys|
  {
    if keys == [] then [] else
    var n := |keys| - 1;
    var r := Marked(keys[..n], marks[..n]);
    if marks[n] then r + [keys[n]] else r
  }

  /** Of equal keys, the earlier ones are marked first. */
  ghost predicate LeftmostMarked<Key>(keys: seq<Key>, marks: seq<bool>) {
    |marks| == |keys| && forall i, k :: 0 <= i < k < |keys| && keys[i] == keys[k] && marks[k] ==> marks[i]
  }

  /** The sequence is what is left of the keys after dropping, of equal ones, the last. */
  ghost predicate Recoverable<Key(!new)>(keys: seq<Key>, target: seq<Key>) {
    exists marks :: LeftmostMarked(keys, marks) && Marked(keys, marks) == target
  }

  /** Filtering by the multiset of a sequence recovers that sequence exactly when it is
  found by keeping the leftmost occurrences of each of its keys, whatever keys repeat. */
  lemma {:induction false} LeftmostRecoversIff<S, Item, Key(!new)>(m: Machine<S, Item, Key>, items: seq<Item>, target: seq<Key>)
    ensures Keys(m, Leftmost(m, items, multiset(target))) == target <==> Recoverable(Keys(m, items), target)
  {
    if Recoverable(Keys(m, items), target) {
      var marks :| LeftmostMarked(Keys(m, items), marks) && Marked(Keys(m, items), marks) == target;
      MarkedIsKept(m, items, marks);
    }
    KeptIsMarked(m, items, multiset(target));
  }

  /** Eligibility counts beyond what the items have are all the same. */
  lemma {:induction false} LeftmostSaturated<S, Item, Key>(m: Machine<S, Item, Key>, items: seq<Item>, a: multiset<Key>, b: multiset<Key>)
    requires forall k :: k in Keys(m, items) ==> a[k] == b[k] || (multiset(Keys(m, items))[k] <= a[k] && multiset(Keys(m, items))[k] <= b[k])
    ensures Leftmost(m, items, a) == Leftmost(m, items, b)
    decreases |items|
  {
    if items != [] {
      KeysSplit(m, items);
      var init, last := items[..|items| - 1], items[|items| - 1];
      assert m.key(last) in Keys(m, items);
      forall k | k in Keys(m, init)
        ensures a[k] == b[k] || (multiset(Keys(m, init))[k] <= a[k] && multiset(Keys(m, init))[k] <= b[k])
      {
        assert k in Keys(m, items);
      }
      LeftmostSaturated(m, init, a, b);
    }
  }

  /** A key marked wherever it occurs is found as often as it occurs. */
  lemma {:induction false} MarkedCount<Key>(keys: seq<Key>, marks: seq<bool>, x: Key)
    requires |marks| == |keys| && forall i :: 0 <= i < |keys| && keys[i] == x ==> marks[i]
    ensures multiset(Marked(keys, marks))[x] == multiset(keys)[x]
    decreases |keys|
  {
    if keys != [] {
      var n := |keys| - 1;
      assert keys == keys[..n] + [keys[n]];
      MarkedCount(keys[..n], marks[..n], x);
    }
  }

  lemma {:induction false} MarkedIsKept<S, Item, Key>(m: Machine<S, Item, Key>, items: seq<Item>, marks: seq<bool>)
    requires LeftmostMarked(Keys(m, items), marks)
    ensures Keys(m, Leftmost(m, items, multiset(Marked(Keys(m, items), marks)))) == Marked(Keys(m, items), marks)
    decreases |items|
  {
    if items != [] {
      var n := |items| - 1;
      KeysSplit(m, items);
      MarkedIsKept(m, items[..n], marks[..n]);
      if marks[n] {
        MarkedLast(m, items[..n], items[n], marks[..n]);
      } else {
        LeftmostIsIntersection(m, items[..n], multiset(Marked(Keys(m, items[..n]), marks[..n])));
      }
    }
  }

  /** A marked last item is kept, for all earlier ones with its key are marked. */
  lemma {:induction false} MarkedLast<S, Item, Key>(m: Machine<S, Item, Key>, init: seq<Item>, last: Item, marks: seq<bool>)
    requires |marks| == |init| && forall i :: 0 <= i < |init| && Keys(m, init)[i] == m.key(last) ==> marks[i]
    requires Keys(m, Leftmost(m, init, multiset(Marked(Keys(m, init), marks)))) == Marked(Keys(m, init), marks)
    ensures var found := Marked(Keys(m, init), marks) + [m.key(last)];
      Keys(m, Leftmost(m, init + [last], multiset(found))) == found
  {
    var k, items, shorter := m.key(last), init + [last], Marked(Keys(m, init), marks);
    var eligible := multiset(shorter + [k]);
    assert eligible == multiset(shorter) + multiset{k};
    MarkedCount(Keys(m, init), marks, k);
    LeftmostSaturated(m, init, eligible, multiset(shorter));
    assert items[..|items| - 1] == init;
    KeysAppend(m, Leftmost(m, init, eligible), last);
  }

  /** The marks the filter makes. */
  ghost function Kept<Key>(keys: seq<Key>, eligible: multiset<Key>): (r: seq<bool>) {
    seq(|keys|, i requires 0 <= i < |keys| => multiset(keys[..i])[keys[i]] < eligible[keys[i]])
  }

  lemma {:induction false} KeptIsMarked<S, Item, Key>(m: Machine<S, Item, Key>, items: seq<Item>, eligible: multiset<Key>)
    ensures LeftmostMarked(Keys(m, items), Kept(Keys(m, items), eligible))
    ensures Marked(Keys(m, items), Kept(Keys(m, items), eligible)) == Keys(m, Leftmost(m, items, eligible))
    decreases |items|
  {
    KeptIsLeftmost(Keys(m, items), eligible);
    if items != [] {
      var n := |items| - 1;
      KeysSplit(m, items);
      KeptIsMarked(m, items[..n], eligible);
      KeptShorter(Keys(m, items), eligible);
      KeysAppend(m, Leftmost(m, items[..n], eligible), items[n]);
    }
  }

  lemma {:induction false} KeptShorter<Key>(keys: seq<Key>, eligible: multiset<Key>)
    requires keys != []
    ensures Kept(keys, eligible)[..|keys| - 1] == Kept(keys[..|keys| - 1], eligible)
  {
    var n := |keys| - 1;
    forall i | 0 <= i < n
      ensures Kept(keys, eligible)[i] == Kept(keys[..n], eligible)[i]
    {
      assert keys[..n][..i] == keys[..i];
    }
  }

  lemma {:induction false} KeptIsLeftmost<Key>(keys: seq<Key>, eligible: multiset<Key>)
    ensures LeftmostMarked(keys, Kept(keys, eligible))
  {
    forall i, k | 0 <= i < k < |keys| && keys[i] == keys[k] && Kept(keys, eligible)[k]
      ensures Kept(keys, eligible)[i]
    {
      assert keys[..k] == keys[..i] + keys[i..k];
      assert multiset(keys[..k]) == multiset(keys[..i]) + multiset(keys[i..k]);
    }
  }

  /** With distinct keys any subsequence is found so. */
  lemma {:induction false} SubsequenceMarked<T>(target: seq<T>, keys: seq<T>) returns (marks: seq<bool>)
    requires Subsequence(target, keys)
    ensures |marks| == |keys| && Marked(keys, marks) == target
    decreases |keys|
  {
    marks := [];
    if keys != [] {
      var n := |keys| - 1;
      if target != [] && target[|target| - 1] == keys[n] && Subsequence(target[..|target| - 1], keys[..n]) {
        var before := SubsequenceMarked(target[..|target| - 1], keys[..n]);
        marks := before + [true];
      } else {
        var before := SubsequenceMarked(target, keys[..n]);
        marks := before + [false];
      }
      assert marks[..n] == marks[..|marks| - 1];
    }
  }

  /** With distinct keys, leftmost means nothing: being a subsequence is enough. */
  lemma {:induction false} DistinctRecoverable<Key(!new)>(keys: seq<Key>, target: seq<Key>)
    requires Distinct(keys) && Subsequence(target, keys)
    ensures Recoverable(keys, target)
  {
    var marks := SubsequenceMarked(target, keys);
    assert LeftmostMarked(keys, marks);
  }

  /** With distinct keys, filtering by the multiset of a sequence recovers that sequence
  exactly when it is a subsequence of what is left. */
  lemma {:induction false} LeftmostRecovers<S, Item, Key(!new)>(m: Machine<S, Item, Key>, items: seq<Item>, target: seq<Key>)
    requires Distinct(Keys(m, items))
    ensures Keys(m, Leftmost(m, items, multiset(target))) == target <==> Subsequence(target, Keys(m, items))
  {
    LeftmostIsSubsequence(m, items, multiset(target));
    LeftmostRecoversIff(m, items, target);
    if Subsequence(target, Keys(m, items)) {
      DistinctRecoverable(Keys(m, items), target);
    }
  }

  /** Two equal keys around a third can come back reordered. */
  lemma {:induction false} DuplicateKeysReorder<S>(m: Machine<S, nat, nat>)
    requires forall i: nat :: m.key(i) == i
    ensures Subsequence([2, 1], [1, 2, 1])
    ensures Keys(m, Leftmost(m, [1, 2, 1], multiset([2, 1]))) == [1, 2]
  {
    var items: seq<nat> := [1, 2, 1];
    assert items[..2] == [1, 2] && items[..2][..1] == [1] && items[..1][..0] == [];
    assert [2, 1][..1] == [2] && [1, 2][..1] == [1] && [2][..0] == [];
    assert Keys(m, [1]) == [1] && Keys(m, [1, 2]) == [1, 2];
    assert Subsequence([2], [1, 2]);
    var e := multiset([2, 1]);
    assert e == multiset{1, 2};
    assert Leftmost(m, [1], e) == [1];
    assert Leftmost(m, [1, 2], e) == [1, 2];
    assert multiset(Keys(m, [1, 2])) == multiset{1, 2};
    assert Leftmost(m, items, e) == [1, 2];
  }

  // ---------------------------------------------------------------- the stream

  const U64_MAX: nat := 0xFFFF_FFFF_FFFF_FFFF

  class QueryIteratorStream<S(!new), Item(!new), Key(!new, ==)> {
    const m: Machine<S, Item, Key>
    const start: S
    var consumed: nat
    var operations: seq<LogEntry>

    ghost predicate Valid()
      reads this
    {
      Finite(m) && forall e :: e in operations ==> e.position <= consumed
    }

    /** The state a lazy cursor with this history is in. */
    ghost function Lazy(): Option<S>
      reads this
    {
      ReplayTo(m, start, operations, consumed)
    }

    constructor (m: Machine<S, Item, Key>, start: S)
      requires Finite(m)
      ensures Valid() && this.m == m && this.start == start && consumed == 0 && Lazy() == Some(start)
    {
      this.m, this.start := m, start;
      consumed, operations := 0, [];
    }

    /** Counts one consumed value; the counter sticks at its maximum. */
    method ConsumedOne()
      requires Valid()
      modifies this`consumed
      ensures Valid()
      ensures consumed == if old(consumed) == U64_MAX then U64_MAX else old(consumed) + 1
      ensures old(consumed) < U64_MAX && old(Lazy()).Some? && m.next(old(Lazy()).value).Some?
              ==> Lazy() == Some(m.next(old(Lazy()).value).value.1)
    {
      if consumed != U64_MAX {
        if Lazy().Some? && m.next(Lazy().value).Some? {
          ReplayTaken(m, start, operations, consumed);
        }
        consumed := consumed + 1;
      }
    }

    /** Logs a setter, then replays the whole history on a fresh cursor and counts the
    keys it still yields.  `execOk` says whether the fresh cursor could be executed. */
    method SnapshotRangeOperation(op: RangeOp, execOk: bool) returns (keys: multiset<Key>, ok: bool)
      requires Valid()
      modifies this`operations
      ensures Valid() && consumed == old(consumed)
      ensures old(Lazy()).Some? ==> Lazy() == Some(m.narrow(old(Lazy()).value, op))
      ensures old(Lazy()).None? ==> Lazy().None?
      ensures ok <==> execOk && Lazy().Some?
      ensures ok ==> keys == multiset(Keys(m, Drain(m, Lazy().value)))
      ensures operations == old(operations) + [LogEntry(consumed, op)]
    {
      var entry := LogEntry(consumed, op);
      ReplayLogged(m, start, operations, entry, consumed);
      operations := operations + [entry];
      keys := multiset{};
      if !execOk {
        return keys, false;
      }
      var shadow := ReplayHistory();
      if shadow.None? {
        return keys, false;
      }
      keys := CountKeys(m, shadow.value);
      return keys, true;
    }

    /** Re-executes the history on a fresh cursor. */
    method ReplayHistory() returns (r: Option<S>)
      ensures r == Lazy()
    {
      var shadow := ApplyAt(m, start, operations, 0);
      for i := 0 to consumed
        invariant ReplayTo(m, start, operations, i) == Some(shadow)
      {
        var step := m.next(shadow);
        if step.None? {
          ReplayEnded(m, start, operations, i + 1, consumed);
          return None;
        }
        shadow := ApplyAt(m, step.value.1, operations, i + 1);
      }
      return Some(shadow);
    }
  }

  /** Drains a cursor, counting keys. */
  method CountKeys<S(!new), Item, Key(==)>(m: Machine<S, Item, Key>, from: S) returns (keys: multiset<Key>)
    requires Finite(m)
    ensures keys == multiset(Keys(m, Drain(m, from)))
  {
    keys := multiset{};
    var shadow := from;
    ghost var taken: seq<Item> := [];
    while true
      invariant Drain(m, from) == taken + Drain(m, shadow)
      invariant keys == multiset(Keys(m, taken))
      decreases m.size(shadow)
    {
      var step := m.next(shadow);
      if step.None? {
        break;
      }
      KeysAppend(m, taken, step.value.0);
      assert taken + Drain(m, shadow) == (taken + [step.value.0]) + Drain(m, step.value.1);
      taken := taken + [step.value.0];
      keys := keys + multiset{m.key(step.value.0)};
      shadow := step.value.1;
    }
    assert taken == Drain(m, from);
  }

  /** A replay that ended stays ended. */
  lemma {:induction false} ReplayEnded<S, Item, Key>(m: Machine<S, Item, Key>, start: S, log: seq<LogEntry>, i: nat, n: nat)
    requires i <= n && ReplayTo(m, start, log, i).None?
    ensures ReplayTo(m, start, log, n).None?
    decreases n
  {
    if i < n {
      ReplayEnded(m, start, log, i, n - 1);
    }
  }
}
