/** The host's query cursor, whose fields the calls update in place, and its refinement of the
machines in `HostMachine`, `HostDrains` and `HostCaptures`. */
module HostQuery {
  import opened Values
  import opened Wire
  import opened NodeWrappers
  import opened GuestMachine
  import opened GuestQuery
  import opened GuestRuns
  import opened HostTree
  import opened HostMachine
  import opened HostDrains
  import opened HostCaptures

  /** The bytes a fetch yields. */
  ghost predicate HoldsRecord(kind: Kind, grip: Option<Grip>, b: Option<seq<u8>>) {
    match grip
    case None => b.None?
    case Some(g) =>
      && Sound(kind, g.event) && |g.entries| == |Wraps(kind, g.event)|
      && b == Some(RecordOf(kind, g.event, g.entries))
  }

  lemma {:induction false} MatchBytes(grip: Option<Grip>, b: Option<seq<u8>>)
    requires HoldsRecord(Matching, grip, b) && b.Some?
    ensures grip.Some? && Fits(grip.value.Raw()) && MatchRecord(grip.value.Raw()) <= b.value
  {
  }

  lemma {:induction false} CaptureBytes(grip: Option<Grip>, b: Option<seq<u8>>)
    requires HoldsRecord(Capturing, grip, b) && b.Some?
    ensures grip.Some? && grip.value.event.ordinal < 0x1_0000 && |grip.value.entries| == 1
    ensures var e, entry := grip.value.event, grip.value.entries[0];
            CompactRecord(RawCapture(e.match_.id, e.match_.pattern, e.ordinal, entry.node, entry.index)) <= b.value
  {
  }

  lemma {:induction false} EventBytes(grip: Option<Grip>, b: Option<seq<u8>>)
    requires HoldsRecord(Whole, grip, b) && b.Some?
    ensures grip.Some? && Fits(grip.value.Raw()) && grip.value.event.ordinal < |grip.value.entries|
    ensures StartsCapture(b.value, grip.value.Raw(), grip.value.event.ordinal)
  {
    assert b.value[..12] == CaptureRecord(grip.value.Raw(), grip.value.event.ordinal)[..12];
  }

  /** A match as the caller gets it. */
  function MatchOf(grip: Option<Grip>): Option<RawMatch> {
    match grip
    case None => None
    case Some(g) => Some(g.Raw())
  }

  function MatchesOf(grips: seq<Grip>): seq<RawMatch> {
    seq(|grips|, i requires 0 <= i < |grips| => grips[i].Raw())
  }

  /** A capture with its match. */
  function EventOf(grip: Option<Grip>): Option<(RawMatch, nat)> {
    match grip
    case None => None
    case Some(g) => Some((g.Raw(), g.event.ordinal))
  }

  function PairsOf(grips: seq<Grip>): seq<(RawMatch, nat)> {
    seq(|grips|, i requires 0 <= i < |grips| => (grips[i].Raw(), grips[i].event.ordinal))
  }

  /** What searches and drains return: the matches read, around the entries decoded. */
  lemma {:induction false} ResultsHold(grips: seq<Grip>, i: nat)
    requires i < |grips|
    ensures var e, captures := grips[i].event, grips[i].entries;
      var raw := RawMatch(e.match_.id, e.match_.pattern, captures);
      && MatchOf(Some(grips[i])) == Some(raw) && EventOf(Some(grips[i])) == Some((raw, e.ordinal))
      && |MatchesOf(grips)| == |PairsOf(grips)| == |grips|
      && MatchesOf(grips)[i] == raw && PairsOf(grips)[i] == (raw, e.ordinal)
    ensures MatchOf(None).None? && EventOf(None).None?
  {
  }

  /** A single capture. */
  predicate IsCapture(grip: Option<Grip>, raw: Option<RawCapture>) {
    match grip
    case None => raw.None?
    case Some(g) =>
      && g.event.ordinal < 0x1_0000 && |g.entries| == 1
      && raw == Some(RawCapture(g.event.match_.id, g.event.match_.pattern, g.event.ordinal, g.entries[0].node, g.entries[0].index))
  }

  predicate IsRaw(q: Queued, raw: RawCapture) {
    && raw.id == q.event.match_.id && raw.pattern == q.event.match_.pattern && raw.ordinal == q.event.ordinal
    && raw.node == q.entry.node && raw.index == q.entry.index
  }

  predicate AreRaw(queued: seq<Queued>, raws: seq<RawCapture>) {
    |raws| == |queued| && forall k :: 0 <= k < |queued| ==> IsRaw(queued[k], raws[k])
  }

  class QueryCursor<S(!new)> {
    const guest: SWQueryCursor<S>
    const heap: GuestHeap
    const tree: Tree
    /** The bridge exports the removal of a match. */
    const removes: bool
    var scratch: array?<u8>
    var captureQueue: seq<RawCapture>
    /** The events and record entries of the queued captures. */
    ghost var queued: seq<Queued>

    ghost predicate Valid()
      reads this, guest, heap
    {
      && guest.Valid() && heap.blocks >= guest.Owned()
      && AreRaw(queued, captureQueue)
    }

    ghost function Now(): HostState<S>
      reads this, guest, heap, tree
    {
      HostState(guest.Now(heap), Capacity(scratch), tree.nodes)
    }

    constructor (guest: SWQueryCursor<S>, heap: GuestHeap, tree: Tree, removes: bool)
      requires guest.Valid() && heap.blocks >= guest.Owned()
      ensures Valid() && this.guest == guest && this.heap == heap && this.tree == tree && this.removes == removes
      ensures Now() == HostState(guest.Now(heap), 0, tree.nodes) && scratch == null && queued == []
    {
      this.guest, this.heap, this.tree, this.removes, scratch := guest, heap, tree, removes, null;
      captureQueue, queued := [], [];
    }

    /** A reusable buffer of at least the required size, grown by doubling. */
    method EnsureScratch(required: nat, allocOk: bool) returns (ok: bool)
      requires 0 < required <= MAX_RECORD
      modifies this`scratch
      ensures ok <==> allocOk || Capacity(old(scratch)) >= required
      ensures scratch == old(scratch) || (scratch != null && fresh(scratch))
      ensures Capacity(scratch) == if ok then RoomFor(Capacity(old(scratch)), required) else Capacity(old(scratch))
    {
      if scratch != null && scratch.Length >= required {
        return true;
      }
      var capacity := if scratch == null then 0 else scratch.Length;
      if capacity < 16 {
        capacity := 16;
      }
      ghost var start := capacity;
      while capacity < required
        invariant capacity >= 16 && Doubled(start, required) == Doubled(capacity, required)
        decreases required - capacity
      {
        if capacity > MAX_RECORD / 2 {
          capacity := required;
          break;
        }
        capacity := capacity * 2;
      }
      if capacity > MAX_RECORD {
        capacity := required;
      }
      if !allocOk {
        return false;
      }
      scratch := new u8[capacity];
      return true;
    }

    // -------------------------------------------------------------- reads

    /** Asks for the size of the next record; zero when the host cannot tell. */
    method Probe(kind: Kind, f: Faults) returns (required: nat)
      requires Valid() && !f.probe.Skipped?
      modifies guest, heap
      ensures Valid()
      ensures Now() == old(Now()).(world := Advance(guest.native, kind, f.AsCall(0), old(Now()).world))
      ensures var reply := OutcomeOf(guest.native, kind, f.AsCall(0), old(Now()).world).reply;
              required == if f.probe.Unread? || reply.None? then 0 else reply.value
    {
      var reply := CallGuest(guest, kind, null, f.AsCall(0), heap);
      if f.probe.Unread? || reply.None? {
        return 0;
      }
      required := reply.value;
    }

    /** Fetches a record of the given size into the reusable buffer. */
    method Fetch(kind: Kind, f: Faults, required: nat) returns (b: Option<seq<u8>>)
      requires Valid() && IsSize(guest.native, kind, guest.State(), required)
      modifies this`scratch, guest, heap
      modifies if scratch == null then {} else {scratch}
      ensures Valid()
      ensures scratch == old(scratch) || (scratch != null && fresh(scratch))
      ensures var r := FetchOf(guest.native, kind, f, old(Now()), required);
              Now() == r.state && HoldsRecord(kind, r.grip, b)
    {
      assert HoldsRecord(kind, None, None);
      hide Advance, OutcomeOf, Head, EntriesOf, WellFormed, HoldsRecord, RoomFor;
      var ok := EnsureScratch(required, f.scratchOk);
      if !ok || f.fetch.Skipped? {
        return None;
      }
      b := FetchInto(kind, f, required, scratch);
    }

    method FetchInto(kind: Kind, f: Faults, required: nat, out: array<u8>) returns (b: Option<seq<u8>>)
      requires Valid() && IsSize(guest.native, kind, guest.State(), required) && out.Length >= required && !f.fetch.Skipped?
      modifies guest, heap, out
      ensures Valid()
      ensures var h := old(Now());
              var call, head := f.AsCall(required), Head(guest.native, kind, h.world.guest);
              var reply := OutcomeOf(guest.native, kind, call, h.world).reply;
              && Now() == h.(world := Advance(guest.native, kind, call, h.world))
              && HoldsRecord(kind, if reply.None? || reply.value < required || f.fetch.Unread? || !f.readOk || head.None? then None
                                   else Some(Grip(head.value, EntriesOf(kind, call, head.value, h.world.wrappers))), b)
    {
      FetchedRecord(guest.native, kind, f.AsCall(required), guest.Now(heap));
      hide Advance, OutcomeOf, Head, EntriesOf, IsSize, WellFormed;
      var reply := CallGuest(guest, kind, out, f.AsCall(required), heap);
      if reply.None? || reply.value < required || f.fetch.Unread? || !f.readOk {
        return None;
      }
      b := Some(out[..required]);
    }

    /** Reads the next record: a compact one has a fixed size, the others are probed for theirs. */
    method ReadRecord(kind: Kind, f: Faults) returns (b: Option<seq<u8>>)
      requires Valid()
      modifies this`scratch, guest, heap
      modifies if scratch == null then {} else {scratch}
      ensures Valid()
      ensures scratch == old(scratch) || (scratch != null && fresh(scratch))
      ensures var r := ReadOf(guest.native, kind, f, old(Now()));
              Now() == r.state && HoldsRecord(kind, r.grip, b)
    {
      SizesFit(guest.native, kind, f, guest.Now(heap));
      assert HoldsRecord(kind, None, None);
      hide Advance, OutcomeOf, FetchOf, Head, IsSize, WellFormed, HoldsRecord;
      if kind.Capturing? {
        b := Fetch(kind, f, 16);
        return;
      }
      if f.probe.Skipped? {
        return None;
      }
      var required := Probe(kind, f);
      if required == 0 {
        return None;
      }
      b := Fetch(kind, f, required);
    }

    /** Probes for the next match and fetches it. */
    method NextNativeMatch(f: Faults) returns (raw: Option<RawMatch>)
      requires Valid()
      modifies this`scratch, guest, heap
      modifies if scratch == null then {} else {scratch}
      ensures Valid()
      ensures scratch == old(scratch) || (scratch != null && fresh(scratch))
      ensures var r := ReadOf(guest.native, Matching, f, old(Now()));
              Now() == r.state && raw == MatchOf(r.grip)
      ensures raw.Some? ==> Fits(raw.value)
    {
      hide ReadOf, MatchRecord;
      ghost var grip := ReadOf(guest.native, Matching, f, Now()).grip;
      var b := ReadRecord(Matching, f);
      if b.None? {
        return None;
      }
      MatchBytes(grip, b);
      raw := DecodeMatch(b.value);
    }

    /** Fetches one compact capture record; the host always offers a full buffer. */
    method NextNativeCapture(f: Faults) returns (raw: Option<RawCapture>)
      requires Valid()
      modifies this`scratch, guest, heap
      modifies if scratch == null then {} else {scratch}
      ensures Valid()
      ensures scratch == old(scratch) || (scratch != null && fresh(scratch))
      ensures var r := ReadOf(guest.native, Capturing, f, old(Now()));
              Now() == r.state && IsCapture(r.grip, raw)
    {
      hide ReadOf, CompactRecord;
      ghost var grip := ReadOf(guest.native, Capturing, f, Now()).grip;
      var b := ReadRecord(Capturing, f);
      if b.None? {
        return None;
      }
      CaptureBytes(grip, b);
      raw := DecodeCapture(b.value);
    }

    /** Probes for the next capture event and fetches it with its whole match. */
    method NextNativePredicateCapture(f: Faults) returns (raw: Option<(RawMatch, u32)>)
      requires Valid()
      modifies this`scratch, guest, heap
      modifies if scratch == null then {} else {scratch}
      ensures Valid()
      ensures scratch == old(scratch) || (scratch != null && fresh(scratch))
      ensures var r := ReadOf(guest.native, Whole, f, old(Now()));
              Now() == r.state && raw == EventOf(r.grip)
    {
      hide ReadOf, StartsCapture;
      ghost var grip := ReadOf(guest.native, Whole, f, Now()).grip;
      var b := ReadRecord(Whole, f);
      if b.None? {
        return None;
      }
      EventBytes(grip, b);
      raw := DecodeCaptureMatch(b.value);
    }

    // -------------------------------------------------------------- matches

    /** What this cursor does with a value, by the text predicates of its query. */
    function PolicyFor(accept: QMatch -> bool, full: bool): Policy {
      Policy(accept, removes, full)
    }

    /** Reads one match and settles its wrappers: registered when accepted, freed when
    refused by a text predicate. */
    method TryMatch(accept: QMatch -> bool, f: Faults) returns (result: Option<RawMatch>, refused: bool)
      requires Valid() && !tree.closed
      modifies this`scratch, guest, heap, tree`nodes
      modifies if scratch == null then {} else {scratch}
      ensures Valid()
      ensures scratch == old(scratch) || (scratch != null && fresh(scratch))
      ensures var t := TryOf(guest.native, Matching, PolicyFor(accept, true), f, old(Now()));
              Now() == t.state && result == MatchOf(t.result) && refused == t.refused
      ensures result.Some? ==> Fits(result.value)
    {
      ghost var before := Now();
      var raw := NextNativeMatch(f);
      if raw.None? {
        return None, false;
      }
      ReadGrips(guest.native, Matching, f, before);
      refused := SettleMatch(raw.value, accept, f, ReadOf(guest.native, Matching, f, before).grip.value);
      result := if refused then None else raw;
    }

    /** Registers an accepted record's wrappers; gives a refused one's back. */
    method SettleMatch(raw: RawMatch, accept: QMatch -> bool, f: Faults, ghost g: Grip) returns (refused: bool)
      requires Valid() && !tree.closed && GripHolds(Matching, g, heap.wrappers) && raw == g.Raw()
      modifies heap`wrappers, tree`nodes
      ensures Valid()
      ensures var t := SettleOf(guest.native, Matching, PolicyFor(accept, true), f, old(Now()), g);
              Now() == t.state && refused == t.refused && t.result == if refused then None else Some(g)
    {
      ViewOfWrapped(heap.wrappers, g.event.match_, raw);
      if accept(View(heap.wrappers, raw)) {
        RegisterAll(tree, raw.captures, heap);
        return false;
      }
      FreeExcept(raw.captures, -1, f.deleted, heap);
      refused := true;
    }

    /** The next match whose text predicates accept it.  Refused matches free their wrappers;
    the accepted one registers them. */
    method NextMatch(accept: QMatch -> bool, faults: nat -> Faults) returns (result: Option<RawMatch>)
      requires Valid()
      modifies this`scratch, guest, heap, tree`nodes
      modifies if scratch == null then {} else {scratch}
      ensures Valid()
      ensures scratch == old(scratch) || (scratch != null && fresh(scratch))
      ensures tree.closed ==> result.None? && Now() == old(Now())
      ensures !tree.closed ==>
                var t := SearchOf(guest.native, Matching, PolicyFor(accept, true), faults, 0, old(Now())).trial;
                Now() == t.state && result == MatchOf(t.result)
      ensures result.Some? ==> Fits(result.value)
      // what the caller then holds
      ensures !tree.closed && old(tree.nodes <= heap.wrappers.Keys) ==>
                var s := SearchOf(guest.native, Matching, PolicyFor(accept, true), faults, 0, old(Now()));
                CallerHolds(Matching, true, accept, old(Now()), s)
      ensures Accounts(old(Now()), Now())
    {
      result := None;
      SameAccounts(Now());
      if tree.closed {
        return;
      }
      ghost var p, start := PolicyFor(accept, true), Now();
      SearchAccounts(guest.native, Matching, p, faults, start);
      if tree.nodes <= heap.wrappers.Keys {
        SearchHolds(guest.native, Matching, p, faults, start);
      }
      hide Accounts, CallerHolds;
      var step, refused := 0, true;
      while refused
        invariant Valid()
        invariant scratch == old(scratch) || (scratch != null && fresh(scratch))
        invariant refused ==>
                    SearchOf(guest.native, Matching, p, faults, step, Now()).trial == SearchOf(guest.native, Matching, p, faults, 0, start).trial
        invariant !refused ==>
                    var t := SearchOf(guest.native, Matching, p, faults, 0, start).trial;
                    Now() == t.state && result == MatchOf(t.result)
        invariant result.Some? ==> Fits(result.value)
        decreases refused, guest.native.size(guest.value), guest.hasPending
      {
        TryShrinks(guest.native, Matching, p, faults(step), Now());
        result, refused := TryMatch(accept, faults(step));
        step := step + 1;
      }
    }

    /** Drains the cursor into a slice. */
    method CollectMatches(accept: QMatch -> bool, faults: nat -> nat -> Faults) returns (result: seq<RawMatch>)
      requires Valid()
      modifies this`scratch, guest, heap, tree`nodes
      modifies if scratch == null then {} else {scratch}
      ensures Valid()
      ensures scratch == old(scratch) || (scratch != null && fresh(scratch))
      ensures tree.closed ==> result == [] && Now() == old(Now())
      ensures !tree.closed ==>
                var d := CollectOf(guest.native, Matching, PolicyFor(accept, true), faults, 0, old(Now()));
                Now() == d.search.trial.state && result == MatchesOf(d.results)
      // what the caller then holds
      ensures !tree.closed && old(tree.nodes <= heap.wrappers.Keys) ==>
                var d := CollectOf(guest.native, Matching, PolicyFor(accept, true), faults, 0, old(Now()));
                HoldingAll(accept, d.results, heap.wrappers, tree.nodes)
      ensures Accounts(old(Now()), Now())
    {
      result := [];
      ghost var d, got := CollectOf(guest.native, Matching, PolicyFor(accept, true), faults, 0, Now()), [];
      var round, found := 0, true;
      SameAccounts(Now());
      if tree.closed {
        return; // the first search finds nothing
      }
      CollectAccounts(guest.native, Matching, PolicyFor(accept, true), faults, Now());
      if tree.nodes <= heap.wrappers.Keys {
        CollectHolds(guest.native, Matching, PolicyFor(accept, true), faults, Now());
      }
      CollectingStarts(guest.native, Matching, PolicyFor(accept, true), faults, Now());
      hide CollectOf, SearchOf, WellFormed, Collecting, Accounts, HoldingAll, MatchesOf, AreRaw, Closer;
      while found
        invariant Valid()
        invariant scratch == old(scratch) || (scratch != null && fresh(scratch))
        invariant result == MatchesOf(got) && Collecting(guest.native, Matching, PolicyFor(accept, true), faults, d, got, round, Now(), found)
        decreases found, guest.native.size(guest.value), guest.hasPending
      {
        var next;
        next, got := CollectMatch(accept, faults, round, d, got);
        if next.Some? {
          result := result + [next.value];
        } else {
          found := false;
        }
        round := round + 1;
      }
    }

    /** One round of the drain. */
    method CollectMatch(accept: QMatch -> bool, faults: nat -> nat -> Faults, round: nat, ghost d: Drain<S>, ghost got: seq<Grip>)
      returns (next: Option<RawMatch>, ghost more: seq<Grip>)
      requires Valid() && !tree.closed && Collecting(guest.native, Matching, PolicyFor(accept, true), faults, d, got, round, Now(), true)
      modifies this`scratch, guest, heap, tree`nodes
      modifies if scratch == null then {} else {scratch}
      ensures Valid()
      ensures scratch == old(scratch) || (scratch != null && fresh(scratch))
      ensures Collecting(guest.native, Matching, PolicyFor(accept, true), faults, d, more, round + 1, Now(), next.Some?)
      ensures MatchesOf(more) == MatchesOf(got) + (if next.Some? then [next.value] else [])
      ensures next.Some? ==> Closer(guest.native, old(Now()).world.guest, Now().world.guest)
    {
      more := CollectsMore(guest.native, Matching, PolicyFor(accept, true), faults, d, got, round, Now());
      hide CollectOf, SearchOf, WellFormed, Collecting, MatchesOf, PairsOf, MatchOf, Closer, CallerHolds, Accounts, AreRaw;
      next := NextMatch(accept, faults(round));
    }

    // -------------------------------------------------------------- captures, compactly

    /** The next capture of a query without text predicates. */
    method NextCapture(f: Faults) returns (result: Option<RawCapture>)
      requires Valid()
      modifies this`scratch, guest, heap, tree`nodes
      modifies if scratch == null then {} else {scratch}
      ensures Valid()
      ensures scratch == old(scratch) || (scratch != null && fresh(scratch))
      ensures tree.closed ==> result.None? && Now() == old(Now())
      ensures !tree.closed ==>
                var t := TryOf(guest.native, Capturing, NoPredicates(), f, old(Now()));
                Now() == t.state && IsCapture(t.result, result)
      ensures result.Some? ==>
                var e := Head(guest.native, Capturing, old(Now()).world.guest);
                && e.Some? && e.value.InRange() && result.value.ordinal == e.value.ordinal
                && result.value.node in heap.wrappers && heap.wrappers[result.value.node] == e.value.Capture().node
                && result.value.index == e.value.Capture().index && tree.nodes == old(tree.nodes) + {result.value.node}
      ensures Accounts(old(Now()), Now())
    {
      SameAccounts(Now());
      TryAccounts(guest.native, Capturing, NoPredicates(), f, Now());
      hide Accounts;
      if tree.closed {
        return None;
      }
      ghost var before := Now();
      result := NextNativeCapture(f);
      if result.None? {
        return;
      }
      ReadGrips(guest.native, Capturing, f, before);
      CaptureHeld(guest.native, f, before);
      RegisterCapture(result.value, f, ReadOf(guest.native, Capturing, f, before).grip.value);
    }

    method RegisterCapture(raw: RawCapture, f: Faults, ghost g: Grip)
      requires Valid() && !tree.closed && GripHolds(Capturing, g, heap.wrappers) && IsCapture(Some(g), Some(raw))
      modifies heap`wrappers, tree`nodes
      ensures Valid()
      ensures var t := SettleOf(guest.native, Capturing, NoPredicates(), f, old(Now()), g);
              Now() == t.state && t.result == Some(g)
    {
      assert g.entries == [] + [g.entries[0]];
      NodeSetGrows([], g.entries[0]);
      var _ := tree.RegisterNode(raw.node, true, heap);
    }

    // -------------------------------------------------------------- captures with predicates

    /** Reads one capture event with its match and settles the wrappers. */
    method TryPredicateCapture(accept: QMatch -> bool, f: Faults, full: bool) returns (result: Option<(RawMatch, u32)>, refused: bool)
      requires Valid() && !tree.closed
      modifies this`scratch, guest, heap, tree`nodes
      modifies if scratch == null then {} else {scratch}
      ensures Valid()
      ensures scratch == old(scratch) || (scratch != null && fresh(scratch))
      ensures var t := TryOf(guest.native, Whole, PolicyFor(accept, full), f, old(Now()));
              Now() == t.state && result == EventOf(t.result) && refused == t.refused
    {
      ghost var before := Now();
      var raw := NextNativePredicateCapture(f);
      if raw.None? {
        return None, false;
      }
      ReadGrips(guest.native, Whole, f, before);
      result, refused := SettleRead(raw.value, accept, f, full, ReadOf(guest.native, Whole, f, before).grip.value);
    }

    /** Settles an event that was read: an accepted one is handed over, and a refused one also
    loses its match's state in the guest. */
    method SettleRead(raw: (RawMatch, u32), accept: QMatch -> bool, f: Faults, full: bool, ghost g: Grip)
      returns (result: Option<(RawMatch, u32)>, refused: bool)
      requires Valid() && !tree.closed && GripHolds(Whole, g, heap.wrappers) && Some(raw) == EventOf(Some(g))
      modifies guest, heap, tree`nodes
      ensures Valid()
      ensures var t := SettleOf(guest.native, Whole, PolicyFor(accept, full), f, old(Now()), g);
              Now() == t.state && result == EventOf(t.result) && refused == t.refused
    {
      var accepted := SettleEvent(raw, accept, f, full, g);
      if accepted {
        return Some(raw), false;
      }
      refused := RemoveRefused(f, raw.0.id, g);
      result := None;
    }

    /** Registers the wrappers of an accepted event that are kept and frees the others; a
    refused one gives all of them back. */
    method SettleEvent(raw: (RawMatch, u32), accept: QMatch -> bool, f: Faults, full: bool, ghost g: Grip) returns (accepted: bool)
      requires Valid() && !tree.closed && GripHolds(Whole, g, heap.wrappers) && Some(raw) == EventOf(Some(g))
      modifies heap`wrappers, tree`nodes
      ensures Valid() && (accepted <==> accept(g.event.match_))
      ensures Now() == if accepted then Accepting(Whole, PolicyFor(accept, full), f, old(Now()), g) else Refusing(f, old(Now()), g)
    {
      var record, selected: nat := raw.0, raw.1;
      ViewOfWrapped(heap.wrappers, g.event.match_, record);
      accepted := accept(View(heap.wrappers, record));
      if !accepted {
        FreeExcept(record.captures, -1, f.deleted, heap);
      } else if full {
        RegisterAll(tree, record.captures, heap);
      } else {
        var _ := tree.RegisterNode(record.captures[selected].node, true, heap);
        FreeExcept(record.captures, selected, f.deleted, heap);
      }
    }

    /** Asks the guest to drop a refused match; false when the call fails. */
    method RemoveRefused(f: Faults, id: u32, ghost g: Grip) returns (going: bool)
      requires Valid() && id == g.event.match_.id
      modifies guest, heap`blocks
      ensures Valid() && (going <==> !removes || f.removal.Removed?)
      ensures Now() == if removes then Removing(guest.native, f, old(Now()), g) else old(Now())
    {
      if !removes {
        return true;
      }
      if !f.removal.NotRemoved? {
        guest.RemoveMatch(id, heap);
      }
      going := f.removal.Removed?;
    }

    /** The next capture whose match the text predicates accept, in native capture order.
    A refused match frees its wrappers and its native state; of an accepted one the
    selected wrapper is registered, or all of them when the full match is wanted. */
    method NextPredicateCapture(accept: QMatch -> bool, faults: nat -> Faults, full: bool) returns (result: Option<(RawMatch, u32)>)
      requires Valid()
      modifies this`scratch, guest, heap, tree`nodes
      modifies if scratch == null then {} else {scratch}
      ensures Valid()
      ensures scratch == old(scratch) || (scratch != null && fresh(scratch))
      ensures tree.closed ==> result.None? && Now() == old(Now())
      ensures !tree.closed ==>
                var t := SearchOf(guest.native, Whole, PolicyFor(accept, full), faults, 0, old(Now())).trial;
                Now() == t.state && result == EventOf(t.result)
      // what the caller then holds
      ensures !tree.closed && old(tree.nodes <= heap.wrappers.Keys) ==>
                var s := SearchOf(guest.native, Whole, PolicyFor(accept, full), faults, 0, old(Now()));
                CallerHolds(Whole, full, accept, old(Now()), s)
      ensures Accounts(old(Now()), Now())
    {
      result := None;
      SameAccounts(Now());
      if tree.closed {
        return;
      }
      ghost var p, start := PolicyFor(accept, full), Now();
      SearchAccounts(guest.native, Whole, p, faults, start);
      if tree.nodes <= heap.wrappers.Keys {
        SearchHolds(guest.native, Whole, p, faults, start);
      }
      hide Accounts, CallerHolds;
      var step, refused := 0, true;
      while refused
        invariant Valid()
        invariant scratch == old(scratch) || (scratch != null && fresh(scratch))
        invariant refused ==>
                    SearchOf(guest.native, Whole, p, faults, step, Now()).trial == SearchOf(guest.native, Whole, p, faults, 0, start).trial
        invariant !refused ==>
                    var t := SearchOf(guest.native, Whole, p, faults, 0, start).trial;
                    Now() == t.state && result == EventOf(t.result)
        decreases refused, guest.native.size(guest.value), guest.hasPending
      {
        TryShrinks(guest.native, Whole, p, faults(step), Now());
        result, refused := TryPredicateCapture(accept, faults(step), full);
        step := step + 1;
      }
    }

    /** Drains the captures into a slice, each with its whole match. */
    method CollectCaptures(accept: QMatch -> bool, faults: nat -> nat -> Faults) returns (result: seq<(RawMatch, nat)>)
      requires Valid()
      modifies this`scratch, guest, heap, tree`nodes
      modifies if scratch == null then {} else {scratch}
      ensures Valid()
      ensures scratch == old(scratch) || (scratch != null && fresh(scratch))
      ensures tree.closed ==> result == [] && Now() == old(Now())
      ensures !tree.closed ==>
                var d := CollectOf(guest.native, Whole, PolicyFor(accept, true), faults, 0, old(Now()));
                Now() == d.search.trial.state && result == PairsOf(d.results)
      // what the caller then holds
      ensures !tree.closed && old(tree.nodes <= heap.wrappers.Keys) ==>
                var d := CollectOf(guest.native, Whole, PolicyFor(accept, true), faults, 0, old(Now()));
                HoldingAll(accept, d.results, heap.wrappers, tree.nodes)
      ensures Accounts(old(Now()), Now())
    {
      result := [];
      ghost var d, got := CollectOf(guest.native, Whole, PolicyFor(accept, true), faults, 0, Now()), [];
      var round, found := 0, true;
      SameAccounts(Now());
      if tree.closed {
        return; // the first search finds nothing
      }
      CollectAccounts(guest.native, Whole, PolicyFor(accept, true), faults, Now());
      if tree.nodes <= heap.wrappers.Keys {
        CollectHolds(guest.native, Whole, PolicyFor(accept, true), faults, Now());
      }
      CollectingStarts(guest.native, Whole, PolicyFor(accept, true), faults, Now());
      hide CollectOf, SearchOf, WellFormed, Collecting, Accounts, HoldingAll, PairsOf, AreRaw, Closer;
      while found
        invariant Valid()
        invariant scratch == old(scratch) || (scratch != null && fresh(scratch))
        invariant result == PairsOf(got) && Collecting(guest.native, Whole, PolicyFor(accept, true), faults, d, got, round, Now(), found)
        decreases found, guest.native.size(guest.value), guest.hasPending
      {
        var next;
        next, got := CollectCapture(accept, faults, round, d, got);
        if next.Some? {
          result := result + [next.value];
        } else {
          found := false;
        }
        round := round + 1;
      }
    }

    /** One round of the drain. */
    method CollectCapture(accept: QMatch -> bool, faults: nat -> nat -> Faults, round: nat, ghost d: Drain<S>, ghost got: seq<Grip>)
      returns (next: Option<(RawMatch, nat)>, ghost more: seq<Grip>)
      requires Valid() && !tree.closed && Collecting(guest.native, Whole, PolicyFor(accept, true), faults, d, got, round, Now(), true)
      modifies this`scratch, guest, heap, tree`nodes
      modifies if scratch == null then {} else {scratch}
      ensures Valid()
      ensures scratch == old(scratch) || (scratch != null && fresh(scratch))
      ensures Collecting(guest.native, Whole, PolicyFor(accept, true), faults, d, more, round + 1, Now(), next.Some?)
      ensures PairsOf(more) == PairsOf(got) + (if next.Some? then [next.value] else [])
      ensures next.Some? ==> Closer(guest.native, old(Now()).world.guest, Now().world.guest)
    {
      more := CollectsMore(guest.native, Whole, PolicyFor(accept, true), faults, d, got, round, Now());
      hide CollectOf, SearchOf, WellFormed, Collecting, MatchesOf, PairsOf, EventOf, Closer, CallerHolds, Accounts, AreRaw;
      next := NextPredicateCapture(accept, faults(round), true);
    }

    // -------------------------------------------------------------- captures by flattening

    /** The next capture of the flattened matches, registering a whole match at a time. */
    method NextFlattenedCapture(accept: QMatch -> bool, faults: nat -> Faults) returns (result: Option<RawCapture>)
      requires Valid()
      modifies this, guest, heap, tree`nodes
      modifies if scratch == null then {} else {scratch}
      ensures Valid()
      ensures tree.closed ==> result.None? && Now() == old(Now()) && queued == old(queued)
      ensures !tree.closed ==>
                var r := FlatOf(guest.native, PolicyFor(accept, true), faults, old(FlatState(Now(), queued)));
                && FlatState(Now(), queued) == r.state && (result.Some? <==> r.result.Some?)
                && (result.Some? ==> IsRaw(r.result.value, result.value))
                && (result.Some? ==>
                      result.value.node == r.result.value.entry.node && result.value.index == r.result.value.entry.index
                      && result.value.id == r.result.value.event.match_.id && result.value.ordinal == r.result.value.event.ordinal)
      ensures Accounts(old(Now()), Now())
    {
      SameAccounts(Now());
      SearchAccounts(guest.native, Matching, WithCaptures(PolicyFor(accept, true)), faults, Now());
      hide Accounts, SearchOf;
      if tree.closed {
        return None;
      }
      if |captureQueue| == 0 {
        FillQueue(accept, faults);
        if |captureQueue| == 0 {
          return None;
        }
      }
      result := Some(captureQueue[0]);
      captureQueue, queued := captureQueue[1..], queued[1..];
    }

    /** Reads matches until one is accepted that has captures, and queues them. */
    method FillQueue(accept: QMatch -> bool, faults: nat -> Faults)
      requires Valid() && !tree.closed && captureQueue == []
      modifies this, guest, heap, tree`nodes
      modifies if scratch == null then {} else {scratch}
      ensures Valid()
      ensures var t := SearchOf(guest.native, Matching, WithCaptures(PolicyFor(accept, true)), faults, 0, old(Now())).trial;
              Now() == t.state && queued == if t.result.Some? then QueueOf(t.result.value) else []
    {
      ghost var t := SearchOf(guest.native, Matching, WithCaptures(PolicyFor(accept, true)), faults, 0, Now()).trial;
      hide SearchOf;
      var found := NextMatch(HasCaptures(accept), faults);
      if found.Some? {
        Enqueue(found.value, t.result.value);
      }
    }

    /** Queues every capture of a registered match. */
    method Enqueue(record: RawMatch, ghost g: Grip)
      requires Valid() && captureQueue == [] && record == g.Raw() && Fits(record)
      modifies this`captureQueue, this`queued
      ensures Valid() && queued == QueueOf(g)
    {
      queued := [];
      for i := 0 to |record.captures|
        invariant |queued| == i && AreRaw(queued, captureQueue)
        invariant queued == QueueOf(g)[..i]
      {
        captureQueue := captureQueue + [RawCapture(record.id, record.pattern, i, record.captures[i].node, record.captures[i].index)];
        queued := queued + [QueueOf(g)[i]];
      }
    }
  }

  /** A drain that has got some values goes on as a drain from where it stands, or is done. */
  ghost predicate Collecting<S(!new)>(n: Native<S>, kind: Kind, p: Policy, faults: nat -> nat -> Faults, d: Drain<S>, got: seq<Grip>,
                                      round: nat, h: HostState<S>, found: bool) {
    && WellFormed(n, h.world.guest) && !kind.Capturing?
    && if !found then d.results == got && d.search.trial.state == h
       else
         var rest := CollectOf(n, kind, p, faults, round, h);
         d.results == got + rest.results && d.search == rest.search
  }

  /** One more search: it adds a value and leaves less to come, or ends the drain. */
  lemma {:induction false} CollectsOne<S(!new)>(n: Native<S>, kind: Kind, p: Policy, faults: nat -> nat -> Faults, d: Drain<S>, got: seq<Grip>,
                                      round: nat, h: HostState<S>)
    requires Collecting(n, kind, p, faults, d, got, round, h, true)
    ensures var t := SearchOf(n, kind, p, faults(round), 0, h).trial;
            match t.result
            case None => Collecting(n, kind, p, faults, d, got, round + 1, t.state, false)
            case Some(g) => Collecting(n, kind, p, faults, d, got + [g], round + 1, t.state, true) && Closer(n, h.world.guest, t.state.world.guest)
  {
    SearchShrinks(n, kind, p, faults(round), 0, h);
    var t := SearchOf(n, kind, p, faults(round), 0, h).trial;
    if t.result.Some? {
      var rest := CollectOf(n, kind, p, faults, round + 1, t.state);
      assert got + ([t.result.value] + rest.results) == (got + [t.result.value]) + rest.results;
    }
    hide SearchOf, WellFormed;
  }

  lemma {:induction false} ResultsGrow(got: seq<Grip>, g: Grip)
    ensures MatchesOf(got + [g]) == MatchesOf(got) + [g.Raw()]
    ensures PairsOf(got + [g]) == PairsOf(got) + [(g.Raw(), g.event.ordinal)]
  {
  }

  /** The same, with what the value adds to the results. */
  lemma {:induction false} CollectsMore<S(!new)>(n: Native<S>, kind: Kind, p: Policy, faults: nat -> nat -> Faults, d: Drain<S>, got: seq<Grip>,
                                       round: nat, h: HostState<S>) returns (more: seq<Grip>)
    requires Collecting(n, kind, p, faults, d, got, round, h, true)
    ensures var t := SearchOf(n, kind, p, faults(round), 0, h).trial;
            && Collecting(n, kind, p, faults, d, more, round + 1, t.state, t.result.Some?)
            && (t.result.Some? ==> Closer(n, h.world.guest, t.state.world.guest))
            && (MatchOf(t.result).Some? <==> t.result.Some?) && (EventOf(t.result).Some? <==> t.result.Some?)
            && MatchesOf(more) == MatchesOf(got) + (if t.result.Some? then [MatchOf(t.result).value] else [])
            && PairsOf(more) == PairsOf(got) + (if t.result.Some? then [EventOf(t.result).value] else [])
  {
    CollectsOne(n, kind, p, faults, d, got, round, h);
    hide CollectOf, SearchOf, WellFormed, Collecting, Closer, MatchesOf, PairsOf;
    var t := SearchOf(n, kind, p, faults(round), 0, h).trial;
    match t.result {
      case None => more := got;
      case Some(g) =>
        more := got + [g];
        ResultsGrow(got, g);
    }
  }

  lemma {:induction false} CollectingStarts<S(!new)>(n: Native<S>, kind: Kind, p: Policy, faults: nat -> nat -> Faults, h: HostState<S>)
    requires WellFormed(n, h.world.guest) && !kind.Capturing?
    ensures Collecting(n, kind, p, faults, CollectOf(n, kind, p, faults, 0, h), [], 0, h, true)
    ensures MatchesOf([]) == [] && PairsOf([]) == []
  {
    var d := CollectOf(n, kind, p, faults, 0, h);
    assert [] + d.results == d.results;
  }

  // ---------------------------------------------------------------- where conservation fails

  const ONE_MATCH := QMatch(0, 0, [NodeCapture(7, 0)])

  function OneMatchNative(): Native<nat> {
    Native(s => if s == 0 then Some((ONE_MATCH, 1)) else None, s => None, (s, id) => s, s => if s == 0 then 1 else 0)
  }

  function LostAnswer(): Faults {
    Faults(Copies, true, live => 1, None, Read, true, Unread, true, k => true, Removed)
  }

  function OneMatchHost(): HostState<nat> {
    HostState(World(GuestState(0, None), map[]), 0, {})
  }

  lemma {:induction false} LostAnswerEnding()
    ensures Proper(OneMatchNative()) && Head(OneMatchNative(), Matching, OneMatchHost().world.guest) == Some(Event(ONE_MATCH, 0))
    ensures EndingOf(OneMatchNative(), Matching, LostAnswer(), OneMatchHost()) == Missed(1)
  {
    assert GrantsAll(LostAnswer().alloc, {}, 1);
  }

  lemma {:induction false} LostAnswerLeaks()
    ensures Proper(OneMatchNative())
    ensures ReadOf(OneMatchNative(), Matching, LostAnswer(), OneMatchHost()).state.world.wrappers.Keys == {1}
  {
    LostAnswerEnding();
    ReadEnds(OneMatchNative(), Matching, LostAnswer(), OneMatchHost());
    FilledKeys(map[], LostAnswer().alloc, ONE_MATCH.captures, 1);
    assert LiveAfter(LostAnswer().alloc, {}, 1) == {1};
    hide ReadOf, EndingOf, Head, LeavesGuest;
  }

  /** One match with one capture is fetched, and the answer gets lost: the wrapper is live and
  registered nowhere. */
  method LeakExample() returns (live: set<u32>, registered: set<u32>)
    ensures live == {1} && registered == {}
  {
    var guest := new SWQueryCursor<nat>(OneMatchNative(), 0);
    var heap := new GuestHeap();
    var tree := new Tree();
    var cursor := new QueryCursor<nat>(guest, heap, tree, true);
    LostAnswerLeaks();
    hide ReadOf;
    var _ := cursor.NextNativeMatch(LostAnswer());
    live, registered := heap.wrappers.Keys, tree.nodes;
  }
}
