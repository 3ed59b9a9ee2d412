/** Ownership of node wrappers on the host: a tree registers the wrappers its nodes stand
for, and whatever a query reads must end up registered or freed.

Every live wrapper is registered in the tree or belongs to the others: the wrappers of other
trees, and those that earlier failures left to nobody. */
module HostTree {
  import opened Values
  import opened Wire
  import opened NodeWrappers
  import opened GuestMachine

  // ---------------------------------------------------------------- trees

  class Tree {
    var nodes: set<u32>
    var closed: bool

    constructor ()
      ensures nodes == {} && !closed
    {
      nodes, closed := {}, false;
    }

    /** Records a wrapper; a closed tree reclaims it at once and yields no node.  The delete
    call may fail, which nobody notices. */
    method RegisterNode(handle: u32, deleted: bool, heap: GuestHeap) returns (node: Option<u32>)
      requires handle != 0 ==> handle in heap.wrappers
      modifies this`nodes, heap`wrappers
      ensures node == if handle == 0 || closed then None else Some(handle)
      ensures nodes == if node.Some? then old(nodes) + {handle} else old(nodes)
      ensures heap.wrappers == if handle != 0 && closed && deleted then old(heap.wrappers) - {handle} else old(heap.wrappers)
    {
      if handle == 0 {
        return None;
      }
      if closed {
        if deleted {
          heap.FreeNode(handle);
        }
        return None;
      }
      nodes := nodes + {handle};
      return Some(handle);
    }

    /** Releases every registered wrapper exactly once; closing again does nothing.  The
    wrappers whose delete calls fail are left to nobody. */
    method Close(heap: GuestHeap, deleted: u32 -> bool, ghost others: set<u32>) returns (ghost leaked: set<u32>)
      requires Conserved(heap, this, others)
      modifies this, heap`wrappers
      ensures closed && nodes == {} && Conserved(heap, this, others + leaked)
      ensures leaked == set n | n in old(nodes) && !deleted(n)
      ensures heap.wrappers == old(heap.wrappers) - (old(nodes) - leaked)
    {
      leaked := set n | n in nodes && !deleted(n);
      if closed {
        assert leaked == {};
        OwnedDrops(heap.wrappers.Keys, heap.wrappers.Keys, nodes, others, leaked);
        return;
      }
      closed := true;
      var pending := nodes;
      nodes := {};
      while pending != {}
        invariant pending <= old(nodes)
        invariant heap.wrappers == old(heap.wrappers) - (old(nodes) - leaked - pending)
        invariant closed && nodes == {}
        decreases pending
      {
        var node :| node in pending;
        if deleted(node) {
          assert OwnedAt(node, old(heap.wrappers.Keys), old(nodes), others);
          heap.FreeNode(node);
        }
        pending := pending - {node};
      }
      OwnedDrops(old(heap.wrappers.Keys), heap.wrappers.Keys, old(nodes), others, leaked);
    }
  }

  /** Every live wrapper is registered in the tree or belongs to the others. */
  ghost predicate Conserved(heap: GuestHeap, tree: Tree, others: set<u32>)
    reads heap, tree
  {
    Owned(heap.wrappers.Keys, tree.nodes, others) && (tree.closed ==> tree.nodes == {})
  }

  ghost predicate Owned(live: set<u32>, nodes: set<u32>, others: set<u32>) {
    forall a: u32 :: OwnedAt(a, live, nodes, others)
  }

  predicate OwnedAt(a: u32, live: set<u32>, nodes: set<u32>, others: set<u32>) {
    && (a in live <==> a in nodes || a in others)
    && !(a in nodes && a in others)
  }

  /** New wrappers, some registered and the others left to nobody; none of the earlier ones is
  touched. */
  ghost predicate Moves(before: map<u32, nat>, after: map<u32, nat>, fewer: set<u32>, more: set<u32>) {
    && Extends(before, after) && fewer <= more
    && forall a :: a in more && a !in fewer ==> a in after && a !in before
  }

  /** The new wrappers that are not registered. */
  function LeftOver(before: map<u32, nat>, after: map<u32, nat>, more: set<u32>): set<u32> {
    after.Keys - before.Keys - more
  }

  lemma {:induction false} OwnedMoves(before: map<u32, nat>, after: map<u32, nat>, fewer: set<u32>, more: set<u32>, others: set<u32>)
    requires Owned(before.Keys, fewer, others) && Moves(before, after, fewer, more)
    ensures Owned(after.Keys, more, others + LeftOver(before, after, more))
  {
    forall a: u32
      ensures OwnedAt(a, after.Keys, more, others + LeftOver(before, after, more))
    {
      assert OwnedAt(a, before.Keys, fewer, others);
    }
  }

  lemma {:induction false} MovesTwice(first: map<u32, nat>, second: map<u32, nat>, third: map<u32, nat>, few: set<u32>, more: set<u32>, most: set<u32>)
    requires Moves(first, second, few, more) && Moves(second, third, more, most)
    ensures Moves(first, third, few, most)
    ensures LeftOver(first, third, most) == LeftOver(first, second, more) + LeftOver(second, third, most)
  {
  }

  /** Growing by some wrappers that are registered and some that are not. */
  lemma {:induction false} GrownMoves(before: map<u32, nat>, after: map<u32, nat>, nodes: set<u32>, registered: set<u32>, leaked: set<u32>)
    requires Grown(before, after, registered + leaked) && registered !! leaked && nodes <= before.Keys
    ensures Moves(before, after, nodes, nodes + registered) && LeftOver(before, after, nodes + registered) == leaked
  {
    GrownExtends(before, after, registered + leaked);
    forall a: u32
      ensures a in registered ==> a in after && a !in before
      ensures a in LeftOver(before, after, nodes + registered) <==> a in leaked
    {
      assert GrownAt(a, before, after, registered + leaked);
    }
  }

  /** Wrapping without registering leaves every new wrapper to nobody. */
  lemma {:induction false} WrappingMoves(before: map<u32, nat>, alloc: Alloc, captures: seq<NodeCapture>, n: nat, nodes: set<u32>)
    requires n <= |captures| && GrantsAll(alloc, before.Keys, n) && nodes <= before.Keys
    ensures var after := Filled(before, alloc, captures, n);
            && Moves(before, after, nodes, nodes) && |after.Keys| == |before.Keys| + n
            && (LeftOver(before, after, nodes) == {} <==> n == 0)
  {
    var entries, after := Handles(before, alloc, captures, n), Filled(before, alloc, captures, n);
    Wrapping(before, alloc, captures, n);
    assert {} + NodeSet(entries) == NodeSet(entries) && nodes + {} == nodes;
    GrownMoves(before, after, nodes, {}, NodeSet(entries));
    assert n > 0 ==> entries[0] in entries && entries[0].node in NodeSet(entries);
    FilledKeys(before, alloc, captures, n);
    GrantsCount(alloc, before.Keys, n);
  }

  /** Wrappers left over from registered ones stay with nobody. */
  lemma {:induction false} OwnedDrops(live: set<u32>, left: set<u32>, nodes: set<u32>, others: set<u32>, leaked: set<u32>)
    requires Owned(live, nodes, others) && leaked <= nodes && left == live - (nodes - leaked)
    ensures Owned(left, {}, others + leaked)
  {
    forall a: u32
      ensures OwnedAt(a, left, {}, others + leaked)
    {
      assert OwnedAt(a, live, nodes, others);
    }
  }

  // ---------------------------------------------------------------- wrappers of one record

  ghost predicate AllLive(wrappers: map<u32, nat>, entries: seq<Entry>) {
    (forall i :: 0 <= i < |entries| ==> entries[i].node != 0 && entries[i].node in wrappers) && Distinct(entries)
  }

  /** The match a record denotes, read through its wrappers. */
  function View(wrappers: map<u32, nat>, raw: RawMatch): (m: QMatch)
    requires forall i :: 0 <= i < |raw.captures| ==> raw.captures[i].node in wrappers
  {
    QMatch(raw.id, raw.pattern,
      seq(|raw.captures|, i requires 0 <= i < |raw.captures| => NodeCapture(wrappers[raw.captures[i].node], raw.captures[i].index)))
  }

  /** A fetched record denotes exactly the match the guest wrapped. */
  lemma {:induction false} ViewOfWrapped(wrappers: map<u32, nat>, m: QMatch, raw: RawMatch)
    requires raw.id == m.id && raw.pattern == m.pattern && |raw.captures| == |m.captures|
    requires Holds(raw.captures, m.captures, wrappers) && Distinct(raw.captures)
    ensures AllLive(wrappers, raw.captures) && View(wrappers, raw) == m
  {
    forall i | 0 <= i < |raw.captures|
      ensures raw.captures[i].node != 0 && raw.captures[i].node in wrappers
      ensures NodeCapture(wrappers[raw.captures[i].node], raw.captures[i].index) == m.captures[i]
    {
      assert HoldsAt(raw.captures[i], m.captures[i], wrappers);
    }
    assert View(wrappers, raw).captures == m.captures;
  }

  /** Which wrappers of a record are given back, and which of them stay because their delete
  call fails. */
  ghost function Freed(entries: seq<Entry>, n: nat, keep: int, deleted: nat -> bool): set<u32>
    requires n <= |entries|
  {
    set k | 0 <= k < n && k != keep && deleted(k) :: entries[k].node
  }

  ghost function Undeleted(entries: seq<Entry>, keep: int, deleted: nat -> bool): set<u32> {
    set k | 0 <= k < |entries| && k != keep && !deleted(k) :: entries[k].node
  }

  /** Frees the wrappers of a rejected record, except one that is kept. */
  method FreeExcept(entries: seq<Entry>, keep: int, deleted: nat -> bool, heap: GuestHeap)
    requires AllLive(heap.wrappers, entries)
    modifies heap`wrappers
    ensures heap.wrappers == old(heap.wrappers) - Freed(entries, |entries|, keep, deleted)
    ensures forall k :: 0 <= k < |entries| ==> (entries[k].node in heap.wrappers <==> k == keep || !deleted(k))
    ensures forall a :: a in old(heap.wrappers) && a !in NodeSet(entries) ==> a in heap.wrappers
  {
    ghost var before := heap.wrappers;
    for i := 0 to |entries|
      invariant heap.wrappers == old(heap.wrappers) - Freed(entries, i, keep, deleted)
    {
      FreedStep(entries, i, keep, deleted);
      if i == keep || entries[i].node == 0 || !deleted(i) {
        continue;
      }
      assert entries[i].node !in Freed(entries, i, keep, deleted);
      heap.FreeNode(entries[i].node);
    }
    FreedExactly(before, entries, keep, deleted);
  }

  /** Of the wrappers of a record exactly those stay that are kept or whose delete fails. */
  lemma {:induction false} FreedExactly(wrappers: map<u32, nat>, entries: seq<Entry>, keep: int, deleted: nat -> bool)
    requires AllLive(wrappers, entries)
    ensures var left := wrappers - Freed(entries, |entries|, keep, deleted);
            && (forall k :: 0 <= k < |entries| ==> (entries[k].node in left <==> k == keep || !deleted(k)))
            && forall a :: a in wrappers && a !in NodeSet(entries) ==> a in left
  {
    var freed := Freed(entries, |entries|, keep, deleted);
    forall k | 0 <= k < |entries|
      ensures entries[k].node in freed <==> k != keep && deleted(k)
    {
      if entries[k].node in freed {
        var j :| 0 <= j < |entries| && j != keep && deleted(j) && entries[j].node == entries[k].node;
        assert j == k;
      }
    }
    forall a | a in freed
      ensures a in NodeSet(entries)
    {
      var j :| 0 <= j < |entries| && entries[j].node == a;
      assert entries[j] in entries;
    }
  }

  lemma {:induction false} FreedStep(entries: seq<Entry>, i: nat, keep: int, deleted: nat -> bool)
    requires i < |entries|
    ensures Freed(entries, i + 1, keep, deleted)
         == Freed(entries, i, keep, deleted) + (if i == keep || !deleted(i) then {} else {entries[i].node})
  {
  }

  /** A record's wrappers are those freed, those that stay, and the kept one. */
  lemma {:induction false} FreedParts(wrappers: map<u32, nat>, entries: seq<Entry>, keep: int, deleted: nat -> bool)
    requires AllLive(wrappers, entries)
    ensures var kept := if 0 <= keep < |entries| then {entries[keep].node} else {};
            && NodeSet(entries) == Freed(entries, |entries|, keep, deleted) + Undeleted(entries, keep, deleted) + kept
            && Freed(entries, |entries|, keep, deleted) !! Undeleted(entries, keep, deleted)
            && kept !! (Freed(entries, |entries|, keep, deleted) + Undeleted(entries, keep, deleted))
    ensures Undeleted(entries, keep, deleted) == {} <==> AllDeleted(|entries|, keep, deleted)
  {
    assert forall k :: 0 <= k < |entries| && k != keep && !deleted(k) ==> entries[k].node in Undeleted(entries, keep, deleted);
  }

  /** Freeing a rejected record leaves the wrappers whose deletes fail. */
  lemma {:induction false} RefusedGrows(before: map<u32, nat>, read: map<u32, nat>, after: map<u32, nat>, entries: seq<Entry>, deleted: nat -> bool)
    requires AllLive(read, entries) && Grown(before, read, NodeSet(entries))
    requires after == read - Freed(entries, |entries|, -1, deleted)
    ensures Grown(before, after, Undeleted(entries, -1, deleted))
    ensures Undeleted(entries, -1, deleted) == {} <==> AllDeleted(|entries|, -1, deleted)
  {
    FreedParts(read, entries, -1, deleted);
    forall a: u32
      ensures GrownAt(a, before, after, Undeleted(entries, -1, deleted))
    {
      assert GrownAt(a, before, read, NodeSet(entries));
    }
  }

  /** Freeing all but the kept wrapper leaves that one and those whose deletes fail. */
  lemma {:induction false} KeptGrows(before: map<u32, nat>, read: map<u32, nat>, after: map<u32, nat>, entries: seq<Entry>, keep: nat, deleted: nat -> bool)
    requires AllLive(read, entries) && Grown(before, read, NodeSet(entries)) && keep < |entries|
    requires after == read - Freed(entries, |entries|, keep, deleted)
    ensures Grown(before, after, {entries[keep].node} + Undeleted(entries, keep, deleted))
    ensures {entries[keep].node} !! Undeleted(entries, keep, deleted)
    ensures Undeleted(entries, keep, deleted) == {} <==> AllDeleted(|entries|, keep, deleted)
    ensures entries[keep].node in after && after[entries[keep].node] == read[entries[keep].node]
  {
    FreedParts(read, entries, keep, deleted);
    var added := {entries[keep].node} + Undeleted(entries, keep, deleted);
    forall a: u32
      ensures GrownAt(a, before, after, added)
    {
      assert GrownAt(a, before, read, NodeSet(entries));
    }
  }

  ghost predicate AllDeleted(n: nat, keep: int, deleted: nat -> bool) {
    forall k :: 0 <= k < n && k != keep ==> deleted(k)
  }

  /** Registers every wrapper of an accepted record. */
  method RegisterAll(tree: Tree, entries: seq<Entry>, heap: GuestHeap)
    requires !tree.closed && AllLive(heap.wrappers, entries)
    modifies tree`nodes, heap`wrappers
    ensures heap.wrappers == old(heap.wrappers) && tree.nodes == old(tree.nodes) + NodeSet(entries)
  {
    for i := 0 to |entries|
      invariant heap.wrappers == old(heap.wrappers)
      invariant tree.nodes == old(tree.nodes) + NodeSet(entries[..i])
    {
      var _ := tree.RegisterNode(entries[i].node, true, heap);
      assert entries[..i + 1] == entries[..i] + [entries[i]];
      NodeSetGrows(entries[..i], entries[i]);
    }
    assert entries[..|entries|] == entries;
  }
}
