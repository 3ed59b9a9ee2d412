/** Node wrappers in the guest: the allocator, the records that hand wrappers to the host,
and the loop that makes one wrapper for each capture.

The allocator is a function of the live wrappers, so what one call does is determined by
its arguments and the heap; it may have no room at any point, and a call may trap between
any two allocations. */
module NodeWrappers {
  import opened Values
  import opened Wire

  datatype NodeCapture = NodeCapture(node: nat, index: u32)

  // ---------------------------------------------------------------- the allocator

  /** Where the next wrapper goes, given the live ones. */
  type Alloc = set<u32> -> u32

  /** The allocator has room: it offers an address that is neither null nor in use. */
  predicate Grants(alloc: Alloc, live: set<u32>) {
    alloc(live) != 0 && alloc(live) !in live
  }

  /** The live wrappers after `n` allocations. */
  function LiveAfter(alloc: Alloc, live: set<u32>, n: nat): set<u32> {
    if n == 0 then live else
    var before := LiveAfter(alloc, live, n - 1);
    before + {alloc(before)}
  }

  predicate GrantsAll(alloc: Alloc, live: set<u32>, n: nat) {
    n == 0 || (GrantsAll(alloc, live, n - 1) && Grants(alloc, LiveAfter(alloc, live, n - 1)))
  }

  lemma {:induction false} GrantsFewer(alloc: Alloc, live: set<u32>, k: nat, n: nat)
    requires k <= n && GrantsAll(alloc, live, n)
    ensures GrantsAll(alloc, live, k)
    decreases n
  {
    if k < n {
      GrantsFewer(alloc, live, k, n - 1);
    }
  }

  lemma {:induction false} GrantsCount(alloc: Alloc, live: set<u32>, n: nat)
    requires GrantsAll(alloc, live, n)
    ensures |LiveAfter(alloc, live, n)| == |live| + n
  {
    if n > 0 {
      GrantsCount(alloc, live, n - 1);
    }
  }

  /** The allocator has room for as long as fewer than `capacity` wrappers are live. */
  ghost predicate Roomy(alloc: Alloc, capacity: nat) {
    forall live: set<u32> :: HasRoom(alloc, capacity, live)
  }

  predicate HasRoom(alloc: Alloc, capacity: nat, live: set<u32>) {
    |live| < capacity ==> Grants(alloc, live)
  }

  lemma {:induction false} RoomyGrants(alloc: Alloc, capacity: nat, live: set<u32>, n: nat)
    requires Roomy(alloc, capacity) && |live| + n <= capacity
    ensures GrantsAll(alloc, live, n) && |LiveAfter(alloc, live, n)| == |live| + n
  {
    if n > 0 {
      RoomyGrants(alloc, capacity, live, n - 1);
      RoomyOnce(alloc, capacity, LiveAfter(alloc, live, n - 1));
    }
  }

  lemma {:induction false} RoomyOnce(alloc: Alloc, capacity: nat, live: set<u32>)
    requires Roomy(alloc, capacity) && |live| < capacity
    ensures Grants(alloc, live) && |live + {alloc(live)}| == |live| + 1
  {
    assert HasRoom(alloc, capacity, live);
  }

  // ---------------------------------------------------------------- the guest heap

  class GuestHeap {
    /** Live node wrappers and the node each one holds. */
    var wrappers: map<u32, nat>
    /** Number of live capture-list blocks. */
    var blocks: nat

    constructor ()
      ensures wrappers == map[] && blocks == 0
    {
      wrappers, blocks := map[], 0;
    }

    method WrapNode(node: nat, alloc: Alloc) returns (handle: u32)
      modifies this`wrappers
      ensures handle == if Grants(alloc, old(wrappers.Keys)) then alloc(old(wrappers.Keys)) else 0
      ensures wrappers == if handle == 0 then old(wrappers) else old(wrappers)[handle := node]
    {
      var offered := alloc(wrappers.Keys);
      if offered == 0 || offered in wrappers {
        return 0;
      }
      wrappers := wrappers[offered := node];
      return offered;
    }

    method FreeNode(handle: u32)
      requires handle in wrappers
      modifies this`wrappers
      ensures wrappers == old(wrappers) - {handle}
    {
      wrappers := wrappers - {handle};
    }
  }

  // ---------------------------------------------------------------- the wrappers of a list

  /** The live wrappers once the leading captures are wrapped. */
  function Filled(before: map<u32, nat>, alloc: Alloc, captures: seq<NodeCapture>, n: nat): map<u32, nat>
    requires n <= |captures|
  {
    if n == 0 then before else
    var filled := Filled(before, alloc, captures, n - 1);
    filled[alloc(filled.Keys) := captures[n - 1].node]
  }

  /** The record entries of those wrappers. */
  function Handles(before: map<u32, nat>, alloc: Alloc, captures: seq<NodeCapture>, n: nat): (entries: seq<Entry>)
    requires n <= |captures|
    ensures |entries| == n
  {
    if n == 0 then [] else
    Handles(before, alloc, captures, n - 1)
    + [Entry(alloc(Filled(before, alloc, captures, n - 1).Keys), captures[n - 1].index)]
  }

  lemma {:induction false} FilledKeys(before: map<u32, nat>, alloc: Alloc, captures: seq<NodeCapture>, n: nat)
    requires n <= |captures|
    ensures Filled(before, alloc, captures, n).Keys == LiveAfter(alloc, before.Keys, n)
  {
    if n > 0 {
      FilledKeys(before, alloc, captures, n - 1);
      var filled := Filled(before, alloc, captures, n - 1);
      assert filled[alloc(filled.Keys) := captures[n - 1].node].Keys == filled.Keys + {alloc(filled.Keys)};
    }
  }

  function NodeSet(entries: seq<Entry>): set<u32> {
    set e | e in entries :: e.node
  }

  /** The entries are live wrappers of the leading captures. */
  ghost predicate Holds(entries: seq<Entry>, captures: seq<NodeCapture>, wrappers: map<u32, nat>) {
    && |entries| <= |captures|
    && forall k :: 0 <= k < |entries| ==> HoldsAt(entries[k], captures[k], wrappers)
  }

  predicate HoldsAt(e: Entry, c: NodeCapture, wrappers: map<u32, nat>) {
    e.node != 0 && e.node in wrappers && wrappers[e.node] == c.node && e.index == c.index
  }

  predicate Distinct(entries: seq<Entry>) {
    forall i, j :: 0 <= i < j < |entries| ==> entries[i].node != entries[j].node
  }

  /** The live wrappers are the earlier ones and the given new ones. */
  ghost predicate Grown(before: map<u32, nat>, after: map<u32, nat>, added: set<u32>) {
    forall a: u32 :: GrownAt(a, before, after, added)
  }

  predicate GrownAt(a: u32, before: map<u32, nat>, after: map<u32, nat>, added: set<u32>) {
    if a in before then a !in added && a in after && after[a] == before[a]
    else a in after <==> a in added
  }

  lemma {:induction false} GrownByNone(before: map<u32, nat>, after: map<u32, nat>)
    ensures Grown(before, after, {}) <==> before == after
  {
    assert forall a: u32 :: GrownAt(a, before, before, {});
    if Grown(before, after, {}) {
      forall a | a in before
        ensures a in after && before[a] == after[a]
      {
        assert GrownAt(a, before, after, {});
      }
      forall a | a in after
        ensures a in before
      {
        assert GrownAt(a, before, after, {});
      }
    }
  }

  /** Wrappers that were live stay so. */
  ghost predicate Extends(before: map<u32, nat>, after: map<u32, nat>) {
    forall a :: a in before ==> a in after && after[a] == before[a]
  }

  lemma {:induction false} GrownExtends(before: map<u32, nat>, after: map<u32, nat>, added: set<u32>)
    requires Grown(before, after, added)
    ensures Extends(before, after)
  {
    forall a | a in before
      ensures a in after && after[a] == before[a]
    {
      assert GrownAt(a, before, after, added);
    }
  }

  /** Wrapping with room makes a new wrapper for each capture and changes nothing else. */
  lemma {:induction false} Wrapping(before: map<u32, nat>, alloc: Alloc, captures: seq<NodeCapture>, n: nat)
    requires n <= |captures| && GrantsAll(alloc, before.Keys, n)
    ensures var entries, after := Handles(before, alloc, captures, n), Filled(before, alloc, captures, n);
            Holds(entries, captures, after) && Distinct(entries) && Grown(before, after, NodeSet(entries))
  {
    if n == 0 {
      GrownByNone(before, before);
    } else {
      Wrapping(before, alloc, captures, n - 1);
      FilledKeys(before, alloc, captures, n - 1);
      var filled, entries := Filled(before, alloc, captures, n - 1), Handles(before, alloc, captures, n - 1);
      WrapsOneMore(before, filled, captures, entries, alloc(filled.Keys));
    }
  }

  lemma {:induction false} WrapsOneMore(before: map<u32, nat>, filled: map<u32, nat>, captures: seq<NodeCapture>, entries: seq<Entry>, handle: u32)
    requires |entries| < |captures| && handle != 0 && handle !in filled
    requires Holds(entries, captures, filled) && Distinct(entries) && Grown(before, filled, NodeSet(entries))
    ensures var c := captures[|entries|];
            var more, after := entries + [Entry(handle, c.index)], filled[handle := c.node];
            Holds(more, captures, after) && Distinct(more) && Grown(before, after, NodeSet(more))
  {
    var c := captures[|entries|];
    var more, after := entries + [Entry(handle, c.index)], filled[handle := c.node];
    forall k | 0 <= k < |more|
      ensures HoldsAt(more[k], captures[k], after)
    {
      assert k < |entries| ==> HoldsAt(entries[k], captures[k], filled);
    }
    forall i, j | 0 <= i < j < |more|
      ensures more[i].node != more[j].node
    {
      assert HoldsAt(entries[i], captures[i], filled);
    }
    NodeSetGrows(entries, more[|entries|]);
    forall a: u32
      ensures GrownAt(a, before, after, NodeSet(more))
    {
      assert GrownAt(a, before, filled, NodeSet(entries));
    }
  }

  lemma {:induction false} NodeSetGrows(entries: seq<Entry>, e: Entry)
    ensures NodeSet(entries + [e]) == NodeSet(entries) + {e.node}
  {
    forall a | a in NodeSet(entries) + {e.node}
      ensures a in NodeSet(entries + [e])
    {
      var f := if a == e.node then e else var f :| f in entries && f.node == a; f;
      assert f in entries + [e];
    }
  }

  lemma {:induction false} EntryBytesPrefix(a: seq<Entry>, b: seq<Entry>, n: nat)
    requires n <= |a| && n <= |b| && a[..n] == b[..n]
    ensures EntryBytes(a, n) == EntryBytes(b, n)
    decreases n
  {
    if n > 0 {
      assert a[..n - 1] == a[..n][..n - 1] == b[..n][..n - 1] == b[..n - 1];
      assert a[n - 1] == a[..n][n - 1] == b[..n][n - 1] == b[n - 1];
      EntryBytesPrefix(a, b, n - 1);
    }
  }

  /** Writes entry number `n` behind those already written. */
  method WriteEntry(out: array<u8>, header: nat, n: nat, ghost entries: seq<Entry>, e: Entry)
    requires |entries| == n && header + 8 * n + 8 <= out.Length
    requires out[header..header + 8 * n] == EntryBytes(entries, n)
    modifies out
    ensures out[..header] == old(out[..header])
    ensures out[header..header + 8 * n + 8] == EntryBytes(entries + [e], n + 1)
  {
    var at := header + 8 * n;
    ghost var written := out[header..at];
    WriteU32(out, at, e.node);
    WriteU32(out, at + 4, e.index);
    EntryBytesPrefix(entries, entries + [e], n);
    assert out[header..at] == written;
    assert out[at..at + 4] == LE32(e.node);
    assert out[header..at + 8] == out[header..at] + out[at..at + 4] + out[at + 4..at + 8];
  }

  method ReadNode(out: array<u8>, header: nat, n: nat, j: nat, ghost entries: seq<Entry>) returns (node: u32)
    requires j < |entries| == n && header + 8 * n <= out.Length
    requires out[header..header + 8 * n] == EntryBytes(entries, n)
    ensures node == entries[j].node
  {
    assert out[..][header..header + 8 * n] == out[header..header + 8 * n];
    EntryOfRecord(out[..], header, entries, j);
    node := Get32(out[..], header + 8 * j);
  }

  lemma {:induction false} FreedOne(before: map<u32, nat>, live: map<u32, nat>, entries: seq<Entry>, j: nat)
    requires j < |entries| && Grown(before, live, NodeSet(entries[j..])) && Distinct(entries)
    ensures entries[j].node in live && Grown(before, live - {entries[j].node}, NodeSet(entries[j + 1..]))
  {
    var handle, fewer, left := entries[j].node, live - {entries[j].node}, entries[j + 1..];
    assert entries[j..] == [entries[j]] + left;
    assert GrownAt(handle, before, live, NodeSet(entries[j..])) by {
      assert entries[j] in entries[j..];
    }
    forall a: u32
      ensures GrownAt(a, before, fewer, NodeSet(left))
    {
      assert GrownAt(a, before, live, NodeSet(entries[j..]));
    }
  }

  /** Reads back the wrappers written so far and frees each once. */
  method FreeWritten(out: array<u8>, header: nat, n: nat, ghost entries: seq<Entry>, ghost before: map<u32, nat>, heap: GuestHeap)
    requires |entries| == n && header + 8 * n <= out.Length
    requires out[header..header + 8 * n] == EntryBytes(entries, n)
    requires Grown(before, heap.wrappers, NodeSet(entries)) && Distinct(entries)
    modifies heap`wrappers
    ensures heap.wrappers == before
  {
    assert entries[0..] == entries;
    for j := 0 to n
      invariant Grown(before, heap.wrappers, NodeSet(entries[j..]))
    {
      var previous := ReadNode(out, header, n, j, entries);
      FreedOne(before, heap.wrappers, entries, j);
      heap.FreeNode(previous);
    }
    assert NodeSet(entries[n..]) == {};
    GrownByNone(before, heap.wrappers);
  }

  // ---------------------------------------------------------------- wrapping a whole list

  /** What becomes of writing a list: the record was written, the allocator had no room for a
  wrapper, or the guest trapped after some allocations. */
  datatype Wrap = Fetched | Dry | Cut

  /** `stop` is the number of wrappers after which the guest traps, if it does. */
  function WrapFate(need: nat, alloc: Alloc, live: set<u32>, stop: Option<nat>): Wrap {
    if stop.Some? && stop.value <= need && GrantsAll(alloc, live, stop.value) then Cut
    else if GrantsAll(alloc, live, need) then Fetched
    else Dry
  }

  /** How many wrappers that leaves live. */
  function Made(wrap: Wrap, need: nat, stop: Option<nat>): nat {
    if wrap.Fetched? then need
    else if wrap.Cut? && stop.Some? && stop.value <= need then stop.value
    else 0
  }

  /** Wraps every capture, writing the entries behind a header.  When the allocator runs
  dry the wrappers already made are freed; when the guest traps they stay. */
  method WrapAll(out: array<u8>, header: nat, captures: seq<NodeCapture>, alloc: Alloc, stop: Option<nat>, heap: GuestHeap)
    returns (wrap: Wrap)
    requires header + 8 * |captures| <= out.Length
    modifies out, heap`wrappers
    ensures out[..header] == old(out[..header])
    ensures wrap == WrapFate(|captures|, alloc, old(heap.wrappers.Keys), stop)
    ensures heap.wrappers == Filled(old(heap.wrappers), alloc, captures, Made(wrap, |captures|, stop))
    ensures wrap.Fetched? ==>
              out[header..header + 8 * |captures|] == EntryBytes(Handles(old(heap.wrappers), alloc, captures, |captures|), |captures|)
  {
    ghost var before := heap.wrappers;
    var made, room := WrapMany(out, header, captures, alloc, stop, heap);
    if !room {
      NeverGranted(alloc, before.Keys, made + 1, |captures|, stop);
      Wrapping(before, alloc, captures, made);
      FreeWritten(out, header, made, Handles(before, alloc, captures, made), before, heap);
      return Dry;
    }
    wrap := if stop == Some(made) then Cut else Fetched;
  }

  /** Wraps the leading captures until all are, the guest traps, or the allocator has no room. */
  method WrapMany(out: array<u8>, header: nat, captures: seq<NodeCapture>, alloc: Alloc, stop: Option<nat>, heap: GuestHeap)
    returns (made: nat, room: bool)
    requires header + 8 * |captures| <= out.Length
    modifies out, heap`wrappers
    ensures out[..header] == old(out[..header])
    ensures made <= |captures| && GrantsAll(alloc, old(heap.wrappers.Keys), made)
    ensures Wrote(out[header..], old(heap.wrappers), heap.wrappers, alloc, captures, made)
    ensures stop.Some? && stop.value <= |captures| ==> made <= stop.value
    ensures room ==> made == |captures| || stop == Some(made)
    ensures !room ==> made < |captures| && stop != Some(made) && !GrantsAll(alloc, old(heap.wrappers).Keys, made + 1)
  {
    ghost var before := heap.wrappers;
    ghost var prefix := out[..header];
    made, room := 0, true;
    while made < |captures| && stop != Some(made) && room
      invariant made <= |captures| && GrantsAll(alloc, before.Keys, made)
      invariant out[..header] == prefix
      invariant Wrote(out[header..], before, heap.wrappers, alloc, captures, made)
      invariant stop.Some? && stop.value <= |captures| ==> made <= stop.value
      invariant !room ==> made < |captures| && stop != Some(made) && !GrantsAll(alloc, before.Keys, made + 1)
      decreases |captures| - made, room
    {
      room := WrapOne(out, header, made, captures, alloc, before, heap);
      made := if room then made + 1 else made;
    }
  }

  /** The leading captures are wrapped and their entries stand in front of the bytes. */
  ghost predicate Wrote(bytes: seq<u8>, before: map<u32, nat>, after: map<u32, nat>, alloc: Alloc, captures: seq<NodeCapture>, n: nat)
    requires n <= |captures|
  {
    && after == Filled(before, alloc, captures, n)
    && |bytes| >= 8 * n && bytes[..8 * n] == EntryBytes(Handles(before, alloc, captures, n), n)
  }

  lemma {:induction false} NeverGranted(alloc: Alloc, live: set<u32>, k: nat, need: nat, stop: Option<nat>)
    requires k <= need && !GrantsAll(alloc, live, k)
    requires stop.Some? && stop.value <= need ==> k <= stop.value
    ensures WrapFate(need, alloc, live, stop) == Dry
  {
    if GrantsAll(alloc, live, need) {
      GrantsFewer(alloc, live, k, need);
    }
    if stop.Some? && stop.value <= need && GrantsAll(alloc, live, stop.value) {
      GrantsFewer(alloc, live, k, stop.value);
    }
  }

  method WrapOne(out: array<u8>, header: nat, i: nat, captures: seq<NodeCapture>, alloc: Alloc, ghost before: map<u32, nat>, heap: GuestHeap)
    returns (room: bool)
    requires i < |captures| && header + 8 * i + 8 <= out.Length
    requires GrantsAll(alloc, before.Keys, i) && Wrote(out[header..], before, heap.wrappers, alloc, captures, i)
    modifies out, heap`wrappers
    ensures out[..header] == old(out[..header])
    ensures room <==> GrantsAll(alloc, before.Keys, i + 1)
    ensures Wrote(out[header..], before, heap.wrappers, alloc, captures, if room then i + 1 else i)
  {
    FilledKeys(before, alloc, captures, i);
    var node := heap.WrapNode(captures[i].node, alloc);
    if node == 0 {
      return false;
    }
    WriteEntry(out, header, i, Handles(before, alloc, captures, i), Entry(node, captures[i].index));
    room := true;
  }
}
