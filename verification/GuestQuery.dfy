/** The guest's query-cursor wrapper, whose fields the calls update in place, and its refinement
of the machine in `GuestMachine`. */
module GuestQuery {
  import opened Values
  import opened Wire
  import opened NodeWrappers
  import opened GuestMachine

  /** A null buffer has no room at all. */
  function Capacity(out: array?<u8>): nat {
    if out == null then 0 else out.Length
  }

  /** The record in the part of the buffer that was offered, as far as the reply says there is
  one. */
  function Written(out: array?<u8>, offered: nat, reply: Option<nat>): seq<u8>
    requires offered <= Capacity(out)
    reads out
  {
    if out != null && reply.Some? && reply.value <= offered then out[..reply.value] else []
  }

  /** The result of making something pending: it is; there is nothing, or its list could not be
  copied; or the guest trapped. */
  datatype Pends = Held | Unheld | Trapped

  class SWQueryCursor<S(!new)> {
    const native: Native<S>
    var value: S
    var hasPending: bool
    var pendingIsCapture: bool
    var pendingMatch: QMatch
    var pendingCaptureIndex: nat
    /** The wrapper holds a copied capture list. */
    var ownsBlock: bool

    ghost predicate Valid()
      reads this
    {
      && WellFormed(native, State())
      && (ownsBlock <==> hasPending && pendingMatch.captures != [])
    }

    ghost function State(): GuestState<S>
      reads this
    {
      GuestState(value, if hasPending then Some(Kept(pendingMatch, pendingCaptureIndex, pendingIsCapture)) else None)
    }

    ghost function Now(heap: GuestHeap): World<S>
      reads this, heap
    {
      World(State(), heap.wrappers)
    }

    /** Blocks on the heap that this wrapper is responsible for. */
    ghost function Owned(): nat
      reads this
    {
      if ownsBlock then 1 else 0
    }

    constructor (native: Native<S>, start: S)
      requires Proper(native)
      ensures Valid() && this.native == native && State() == GuestState(start, None)
    {
      this.native, value := native, start;
      hasPending, pendingIsCapture, ownsBlock := false, false, false;
      pendingMatch, pendingCaptureIndex := QMatch(0, 0, []), 0;
    }

    method ClearPending(heap: GuestHeap)
      requires Proper(native) && heap.blocks >= Owned()
      modifies this, heap`blocks
      ensures Valid() && State() == GuestState(old(value), None)
      ensures heap.blocks == old(heap.blocks) - old(Owned())
    {
      if ownsBlock {
        heap.blocks := heap.blocks - 1;
      }
      ownsBlock := false;
      pendingMatch := QMatch(0, 0, []);
      hasPending, pendingIsCapture, pendingCaptureIndex := false, false, 0;
    }

    /** Starts a new execution. */
    method Exec(start: S, heap: GuestHeap)
      requires Valid() && heap.blocks >= Owned()
      modifies this, heap`blocks
      ensures Valid() && State() == GuestState(start, None)
      ensures heap.blocks == old(heap.blocks) - old(Owned())
    {
      ClearPending(heap);
      value := start;
    }

    /** Retains a match or capture just produced by the native cursor.  When its list cannot be
    copied it is gone. */
    method Retain(m: QMatch, ordinal: nat, isCapture: bool, copy: Copying, heap: GuestHeap) returns (pends: Pends)
      requires Valid() && !hasPending && Fitting(Kept(m, ordinal, isCapture))
      modifies this, heap`blocks
      ensures Valid() && (pends.Held? <==> copy.Copies? || m.captures == [])
      ensures pends.Trapped? ==> copy.CopyTraps?
      ensures pends.Unheld? ==> copy.NoMemory?
      ensures State() == GuestState(old(value), if pends.Held? then Some(Kept(m, ordinal, isCapture)) else None)
      ensures heap.blocks == old(heap.blocks) + Owned()
    {
      if |m.captures| != 0 {
        if !copy.Copies? {
          return if copy.NoMemory? then Unheld else Trapped;
        }
        heap.blocks := heap.blocks + 1;
        ownsBlock := true;
      }
      pendingMatch, pendingCaptureIndex := m, ordinal;
      hasPending, pendingIsCapture := true, isCapture;
      return Held;
    }

    /** What making something pending comes to. */
    ghost predicate Pended(kind: Kind, copy: Copying, s: GuestState<S>, pends: Pends)
      reads this
    {
      && (pends.Held? <==> Head(native, kind, s).Some? && !Starves(native, kind, s, copy))
      && (pends.Trapped? <==> Starves(native, kind, s, copy) && copy.CopyTraps?)
      && State() == if pends.Held? then Holding(native, kind, s) else GuestState(Behind(native, kind, s), None)
    }

    /** Makes a complete match pending.  A pending capture is dropped, not replayed. */
    method Pending(copy: Copying, heap: GuestHeap) returns (pends: Pends)
      requires Valid() && heap.blocks >= Owned()
      modifies this, heap`blocks
      ensures Valid() && heap.blocks - Owned() == old(heap.blocks - Owned())
      ensures Pended(Matching, copy, old(State()), pends)
      // a match without captures has nothing to copy
      ensures var head := Head(native, Matching, old(State())); head.Some? && head.value.match_.captures == [] ==> pends.Held? && hasPending
    {
      if hasPending {
        if pendingIsCapture {
          ClearPending(heap);
        } else {
          return Held;
        }
      }
      ClearPending(heap);
      var step := native.nextMatch(value);
      if step.None? {
        return Unheld;
      }
      value := step.value.1;
      pends := Retain(step.value.0, 0, false, copy, heap);
    }

    /** Makes one capture event pending: the next of a retained match, or the native
    cursor's next. */
    method PendingCapture(kind: Kind, copy: Copying, heap: GuestHeap) returns (pends: Pends)
      requires Valid() && heap.blocks >= Owned() && !kind.Matching?
      modifies this, heap`blocks
      ensures Valid() && heap.blocks - Owned() == old(heap.blocks - Owned())
      ensures Pended(kind, copy, old(State()), pends)
    {
      if hasPending {
        if pendingIsCapture {
          return Held;
        }
        if pendingCaptureIndex < |pendingMatch.captures| {
          return Held;
        }
        ClearPending(heap);
      }
      ClearPending(heap);
      var step := native.nextCapture(value);
      if step.None? {
        return Unheld;
      }
      value := step.value.1;
      pends := Retain(step.value.0.match_, step.value.0.ordinal, true, copy, heap);
    }

    // -------------------------------------------------------------- the three calls

    /** One `next_match` call.  A null or short buffer is a probe. */
    method NextMatch(out: array?<u8>, call: Call, heap: GuestHeap) returns (reply: Option<nat>)
      requires Valid() && heap.blocks >= Owned() && call.capacity <= Capacity(out)
      modifies this, heap
      modifies if out == null then {} else {out}
      ensures Valid() && heap.blocks - Owned() == old(heap.blocks - Owned())
      ensures Now(heap) == Advance(native, Matching, call, old(Now(heap)))
      ensures Outcome(reply, Written(out, call.capacity, reply)) == OutcomeOf(native, Matching, call, old(Now(heap)))
      ensures Written(out, call.capacity, reply) != [] ==>
                var head := Head(native, Matching, old(State()));
                && head.Some?
                && Shows(Matching, head.value, Written(out, call.capacity, reply), EntriesOf(Matching, call, head.value, old(heap.wrappers)), heap.wrappers)
    {
      ghost var before := Now(heap);
      OutcomeShows(native, Matching, call, before);
      hide Shows;
      var pends := Pending(call.copy, heap);
      if !pends.Held? {
        return if pends.Trapped? then None else Some(0);
      }
      HoldingSame(native, Matching, call, before);
      reply := EmitMatch(out, call, heap);
    }

    /** Answers with the pending match: its size when the buffer is short, else its record. */
    method EmitMatch(out: array?<u8>, call: Call, heap: GuestHeap) returns (reply: Option<nat>)
      requires Valid() && heap.blocks >= Owned() && call.capacity <= Capacity(out) && FromKept(Matching, State())
      modifies this, heap
      modifies if out == null then {} else {out}
      ensures Valid() && heap.blocks - Owned() == old(heap.blocks - Owned())
      ensures Now(heap) == Advance(native, Matching, call, old(Now(heap)))
      ensures Outcome(reply, Written(out, call.capacity, reply)) == OutcomeOf(native, Matching, call, old(Now(heap)))
    {
      var required := 8 + |pendingMatch.captures| * 8;
      if out == null || call.capacity < required {
        return Some(required);
      }
      if !call.ranged {
        return Some(0);
      }
      var wrap := WriteMatch(out, call, heap);
      if wrap.Cut? {
        return None;
      }
      ClearPending(heap);
      reply := Some(if wrap.Dry? then 0 else required);
    }

    /** Writes the record of the pending match around new wrappers. */
    method WriteMatch(out: array<u8>, call: Call, heap: GuestHeap) returns (wrap: Wrap)
      requires Valid() && hasPending && out.Length >= 8 + 8 * |pendingMatch.captures|
      modifies out, heap`wrappers
      ensures var e := Event(pendingMatch, 0);
              Filling(Matching, e, call, wrap, old(heap.wrappers), heap.wrappers, out[..])
    {
      var m := pendingMatch;
      var count := |m.captures|;
      WriteHeader(out, m, count);
      wrap := WrapAll(out, 8, m.captures, call.alloc, call.stop, heap);
      if wrap.Fetched? {
        assert out[..][..8 + 8 * count] == out[..8] + out[8..8 + 8 * count];
      }
    }

    static method WriteHeader(out: array<u8>, m: QMatch, field: u16)
      requires out.Length >= 8
      modifies out
      ensures out[..8] == LE32(m.id) + LE16(m.pattern) + LE16(field)
      ensures forall i :: 8 <= i < out.Length ==> out[i] == old(out[i])
    {
      WriteU32(out, 0, m.id);
      WriteU16(out, 4, m.pattern);
      WriteU16(out, 6, field);
      assert out[0..4] == LE32(m.id) && out[4..6] == LE16(m.pattern);
      assert out[..8] == out[0..4] + out[4..6] + out[6..8];
    }

    static method WriteEventHeader(out: array<u8>, m: QMatch, count: u16, selected: u32)
      requires out.Length >= 16
      modifies out
      ensures out[..16] == LE32(m.id) + LE16(m.pattern) + LE16(count) + LE32(selected) + LE32(0)
    {
      WriteHeader(out, m, count);
      ghost var header := out[..8];
      WriteU32(out, 8, selected);
      WriteU32(out, 12, 0);
      assert out[..8] == header;
      assert out[8..12] == LE32(selected);
      assert out[..16] == out[..8] + out[8..12] + out[12..16];
    }

    /** One `next_capture` call: the selected capture alone, in sixteen bytes. */
    method NextCapture(out: array?<u8>, call: Call, heap: GuestHeap) returns (reply: Option<nat>)
      requires Valid() && heap.blocks >= Owned() && call.capacity <= Capacity(out)
      modifies this, heap
      modifies if out == null then {} else {out}
      ensures Valid() && heap.blocks - Owned() == old(heap.blocks - Owned())
      ensures Now(heap) == Advance(native, Capturing, call, old(Now(heap)))
      ensures Outcome(reply, Written(out, call.capacity, reply)) == OutcomeOf(native, Capturing, call, old(Now(heap)))
      ensures Written(out, call.capacity, reply) != [] ==>
                var head := Head(native, Capturing, old(State()));
                && head.Some?
                && Shows(Capturing, head.value, Written(out, call.capacity, reply), EntriesOf(Capturing, call, head.value, old(heap.wrappers)), heap.wrappers)
    {
      ghost var before := Now(heap);
      OutcomeShows(native, Capturing, call, before);
      hide Shows;
      var pends := PendingCapture(Capturing, call.copy, heap);
      if !pends.Held? {
        return if pends.Trapped? then None else Some(0);
      }
      HoldingSame(native, Capturing, call, before);
      reply := EmitCapture(out, call, heap);
    }

    /** Answers with the pending capture. */
    method EmitCapture(out: array?<u8>, call: Call, heap: GuestHeap) returns (reply: Option<nat>)
      requires Valid() && heap.blocks >= Owned() && call.capacity <= Capacity(out) && FromKept(Capturing, State())
      modifies this, heap
      modifies if out == null then {} else {out}
      ensures Valid() && heap.blocks - Owned() == old(heap.blocks - Owned())
      ensures Now(heap) == Advance(native, Capturing, call, old(Now(heap)))
      ensures Outcome(reply, Written(out, call.capacity, reply)) == OutcomeOf(native, Capturing, call, old(Now(heap)))
    {
      if out == null || call.capacity < 16 {
        return Some(16);
      }
      if !call.ranged {
        return Some(0);
      }
      var wrap := WriteSelected(out, call, heap);
      if wrap.Cut? {
        return None;
      }
      if wrap.Dry? {
        ClearPending(heap);
        return Some(0);
      }
      AdvanceSelected(heap);
      reply := Some(16);
    }

    /** Writes the compact record of the selected capture around a new wrapper. */
    method WriteSelected(out: array<u8>, call: Call, heap: GuestHeap) returns (wrap: Wrap)
      requires Valid() && hasPending && pendingCaptureIndex < |pendingMatch.captures| && out.Length >= 16
      modifies out, heap`wrappers
      ensures var e := Event(pendingMatch, pendingCaptureIndex);
              Filling(Capturing, e, call, wrap, old(heap.wrappers), heap.wrappers, out[..])
    {
      var m, selected := pendingMatch, pendingCaptureIndex;
      WriteHeader(out, m, selected);
      ghost var header, before := out[..8], heap.wrappers;
      wrap := WrapAll(out, 8, [m.captures[selected]], call.alloc, call.stop, heap);
      if wrap.Fetched? {
        ghost var entries := Handles(before, call.alloc, [m.captures[selected]], 1);
        assert EntryBytes(entries, 1) == LE32(entries[0].node) + LE32(entries[0].index);
        assert out[..][..16] == out[..8] + out[8..16];
      }
    }

    /** Moves past the capture just emitted. */
    method AdvanceSelected(heap: GuestHeap)
      requires Valid() && hasPending && pendingCaptureIndex < |pendingMatch.captures| && heap.blocks >= Owned()
      modifies this, heap`blocks
      ensures Valid() && heap.blocks - Owned() == old(heap.blocks - Owned())
      ensures State() == After(native, Capturing, old(State()), Wrote(Fetched))
    {
      if pendingIsCapture {
        ClearPending(heap);
      } else {
        pendingCaptureIndex := pendingCaptureIndex + 1;
        if pendingCaptureIndex >= |pendingMatch.captures| {
          ClearPending(heap);
        }
      }
    }

    /** One `next_capture_match` call: the selected ordinal with its whole match.  It
    always drops the pending state, so what was left of a retained match goes with it. */
    method NextCaptureMatch(out: array?<u8>, call: Call, heap: GuestHeap) returns (reply: Option<nat>)
      requires Valid() && heap.blocks >= Owned() && call.capacity <= Capacity(out)
      modifies this, heap
      modifies if out == null then {} else {out}
      ensures Valid() && heap.blocks - Owned() == old(heap.blocks - Owned())
      ensures Now(heap) == Advance(native, Whole, call, old(Now(heap)))
      ensures Outcome(reply, Written(out, call.capacity, reply)) == OutcomeOf(native, Whole, call, old(Now(heap)))
      ensures Written(out, call.capacity, reply) != [] ==>
                var head := Head(native, Whole, old(State()));
                && head.Some?
                && Shows(Whole, head.value, Written(out, call.capacity, reply), EntriesOf(Whole, call, head.value, old(heap.wrappers)), heap.wrappers)
    {
      ghost var before := Now(heap);
      OutcomeShows(native, Whole, call, before);
      hide Shows;
      var pends := PendingCapture(Whole, call.copy, heap);
      if !pends.Held? {
        return if pends.Trapped? then None else Some(0);
      }
      HoldingSame(native, Whole, call, before);
      reply := EmitFull(out, call, heap);
    }

    /** Answers with the pending event and its whole match, dropping what is pending. */
    method EmitFull(out: array?<u8>, call: Call, heap: GuestHeap) returns (reply: Option<nat>)
      requires Valid() && heap.blocks >= Owned() && call.capacity <= Capacity(out) && FromKept(Whole, State())
      modifies this, heap
      modifies if out == null then {} else {out}
      ensures Valid() && heap.blocks - Owned() == old(heap.blocks - Owned())
      ensures Now(heap) == Advance(native, Whole, call, old(Now(heap)))
      ensures Outcome(reply, Written(out, call.capacity, reply)) == OutcomeOf(native, Whole, call, old(Now(heap)))
    {
      var required := 16 + |pendingMatch.captures| * 8;
      if out == null || call.capacity < required {
        return Some(required);
      }
      if !call.ranged {
        return Some(0);
      }
      var wrap := WriteFull(out, call, heap);
      if wrap.Cut? {
        return None;
      }
      ClearPending(heap);
      reply := Some(if wrap.Dry? then 0 else required);
    }

    /** Writes the full record of the pending event around new wrappers. */
    method WriteFull(out: array<u8>, call: Call, heap: GuestHeap) returns (wrap: Wrap)
      requires Valid() && hasPending && pendingCaptureIndex < |pendingMatch.captures|
      requires out.Length >= 16 + 8 * |pendingMatch.captures|
      modifies out, heap`wrappers
      ensures var e := Event(pendingMatch, pendingCaptureIndex);
              Filling(Whole, e, call, wrap, old(heap.wrappers), heap.wrappers, out[..])
    {
      var m, selected := pendingMatch, pendingCaptureIndex;
      var count := |m.captures|;
      WriteEventHeader(out, m, count, selected);
      wrap := WrapAll(out, 16, m.captures, call.alloc, call.stop, heap);
      if wrap.Fetched? {
        assert out[..][..16 + 8 * count] == out[..16] + out[16..16 + 8 * count];
      }
    }

    /** Removes a match: a retained one with this id, and the native in-progress state. */
    method RemoveMatch(id: u32, heap: GuestHeap)
      requires Valid() && heap.blocks >= Owned()
      modifies this, heap`blocks
      ensures Valid() && heap.blocks - Owned() == old(heap.blocks - Owned())
      ensures State() == Remove(native, old(State()), id)
      ensures hasPending <==> old(hasPending && pendingMatch.id != id)
    {
      if hasPending && pendingMatch.id == id {
        ClearPending(heap);
      }
      value := native.remove(value, id);
    }
  }

  /** Writing a record wraps the leading captures, as many as the allocator and a trap allow,
  and the bytes start with the record when it is complete. */
  ghost predicate Filling(kind: Kind, e: Event, call: Call, wrap: Wrap, before: map<u32, nat>, after: map<u32, nat>, bytes: seq<u8>) {
    && wrap == WrapFate(|Wraps(kind, e)|, call.alloc, before.Keys, call.stop)
    && after == Filled(before, call.alloc, Wraps(kind, e), MadeBy(kind, call, e, Wrote(wrap)))
    && (wrap.Fetched? ==>
          && Sound(kind, e) && |bytes| >= Size(kind, e)
          && bytes[..Size(kind, e)] == RecordOf(kind, e, EntriesOf(kind, call, e, before)))
  }
}
