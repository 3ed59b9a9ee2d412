/** The host's side of one step of the query protocol as a machine: probe, fetch, decode, then
register or free the node wrappers the guest handed over.

A guest call may not run at all, trap while it copies a list or between two wrappers, refuse
its buffer, or run and give an answer the host cannot read; memory reads, deletes, removals and
allocations may fail.  How a step ends, what it takes off the stream and
what it leaves to nobody are functions of those failures. */
module HostMachine {
  import opened Values
  import opened Wire
  import opened NodeWrappers
  import opened GuestMachine
  import opened GuestRuns
  import opened HostTree

  const MAX_RECORD: nat := 0x400_0000

  // ---------------------------------------------------------------- failures

  /** What the host learns from a guest call: the answer; nothing, although the call ran to
  its end (an error, or an empty, too wide or short result); or nothing, and it did not run. */
  datatype Answer = Read | Unread | Skipped

  /** What becomes of a removal: done, unknown to the host but done or not. */
  datatype Removal = Removed | RemovedUnread | NotRemoved

  /** Everything that may go wrong during one probe and fetch and the settling after it. */
  datatype Faults = Faults(
    copy: Copying,
    ranged: bool,
    alloc: Alloc,
    stop: Option<nat>,
    probe: Answer,
    scratchOk: bool,
    fetch: Answer,
    readOk: bool,
    deleted: nat -> bool,
    removal: Removal)
  {
    /** The call as the guest sees it, with a buffer of the given size. */
    function AsCall(capacity: nat): Call {
      Call(capacity, copy, ranged, alloc, stop)
    }

    /** Nothing goes wrong while fewer than `capacity` wrappers are live. */
    ghost predicate Benign(capacity: nat) {
      && Faultless(AsCall(0), capacity) && probe.Read? && scratchOk && fetch.Read? && readOk
      && removal.Removed? && forall k :: deleted(k)
    }
  }

  /** How a step ends: with a value; at the end of the stream; with its head gone to a failed
  allocation, or fetched and unread; with the stream as it was; or because the removal of a
  refused match failed.  A read that was missed or stalled may leave wrappers that the host
  does not know of. */
  datatype Ending = Got | Exhausted | Lost | Missed(leak: nat) | Stalled(leak: nat) | Halted {
    function Leak(): nat {
      if Missed? || Stalled? then leak else 0
    }

    /** The head of the stream is gone. */
    predicate Takes() { Got? || Lost? || Missed? }
  }

  // ---------------------------------------------------------------- the host's state

  /** The guest and its live wrappers, the size of the reusable buffer, and the wrappers that
  the tree has registered. */
  datatype HostState<S> = HostState(world: World<S>, room: nat, nodes: set<u32>)

  /** Doubling from a size until a record fits, within a bound. */
  function Doubled(capacity: nat, required: nat): (r: nat)
    requires capacity >= 16
    ensures r >= required && (required <= MAX_RECORD ==> r <= MAX_RECORD || r == capacity)
    ensures r == capacity || r == required || 2 * capacity <= r < 2 * required
    decreases required - capacity
  {
    if capacity >= required then capacity
    else if capacity > MAX_RECORD / 2 then required
    else Doubled(capacity * 2, required)
  }

  /** The size of the reusable buffer once a record fits. */
  function RoomFor(room: nat, required: nat): (r: nat)
    ensures r >= required && (r == room || room < required)
    ensures required <= MAX_RECORD && room <= MAX_RECORD ==> r <= MAX_RECORD
    ensures r == room || r == required || r == 16 || 2 * room <= r < 2 * required
    ensures required <= MAX_RECORD ==> r <= room || r <= MAX_RECORD
  {
    if room >= required then room
    else
      var capacity := Doubled(if room < 16 then 16 else room, required);
      if capacity > MAX_RECORD then required else capacity
  }

  /** What a read hands the host: an event, and the wrappers of what it captures. */
  datatype Grip = Grip(event: Event, entries: seq<Entry>) {
    function Raw(): RawMatch { RawMatch(event.match_.id, event.match_.pattern, entries) }
  }

  datatype Reading<S> = Reading(state: HostState<S>, grip: Option<Grip>)

  /** The size is that of the record the guest would write. */
  predicate IsSize<S>(n: Native<S>, kind: Kind, s: GuestState<S>, required: nat) {
    0 < required <= MAX_RECORD && (Head(n, kind, s).Some? ==> required == Size(kind, Head(n, kind, s).value))
  }

  /** A fetch into the reusable buffer, of a record of the given size. */
  ghost function FetchOf<S(!new)>(n: Native<S>, kind: Kind, f: Faults, h: HostState<S>, required: nat): Reading<S>
    requires WellFormed(n, h.world.guest) && IsSize(n, kind, h.world.guest, required)
  {
    if h.room < required && !f.scratchOk then Reading(h, None)
    else
      var ready := h.(room := RoomFor(h.room, required));
      if f.fetch.Skipped? then Reading(ready, None)
      else
        var reply, head := OutcomeOf(n, kind, f.AsCall(required), h.world).reply, Head(n, kind, h.world.guest);
        var after := ready.(world := Advance(n, kind, f.AsCall(required), h.world));
        if reply.None? || reply.value < required || f.fetch.Unread? || !f.readOk || head.None? then Reading(after, None)
        else Reading(after, Some(Grip(head.value, EntriesOf(kind, f.AsCall(required), head.value, h.world.wrappers))))
  }

  /** A compact record has a fixed size, and a probe reports the size of the others. */
  lemma {:induction false} SizesFit<S(!new)>(n: Native<S>, kind: Kind, f: Faults, w: World<S>)
    requires WellFormed(n, w.guest)
    ensures kind.Capturing? ==> IsSize(n, kind, w.guest, 16)
    ensures var reply, probed := OutcomeOf(n, kind, f.AsCall(0), w).reply, Advance(n, kind, f.AsCall(0), w);
            WellFormed(n, probed.guest) && (reply.Some? && reply.value != 0 ==> IsSize(n, kind, probed.guest, reply.value))
  {
    HeadSound(n, kind, w.guest);
    AfterWellFormed(n, kind, w.guest, FateOf(n, kind, f.AsCall(0), w.guest, w.wrappers.Keys));
    if Head(n, kind, w.guest).Some? {
      HoldingSame(n, kind, f.AsCall(0), w);
    }
  }

  /** A fetch of the right size that answers so has written the record of the head. */
  lemma {:induction false} FetchedRecord<S(!new)>(n: Native<S>, kind: Kind, call: Call, w: World<S>)
    requires WellFormed(n, w.guest) && IsSize(n, kind, w.guest, call.capacity)
    ensures var head, outcome := Head(n, kind, w.guest), OutcomeOf(n, kind, call, w);
            && (head.None? ==> outcome.reply == Some(0))
            && (head.Some? ==> Sound(kind, head.value))
            && (outcome.reply.Some? && outcome.reply.value >= call.capacity ==>
                  && head.Some? && outcome.reply.value == call.capacity
                  && outcome.record == RecordOf(kind, head.value, EntriesOf(kind, call, head.value, w.wrappers)))
  {
    HeadSound(n, kind, w.guest);
  }

  /** One read: compact captures have a fixed size, the other records are probed for theirs. */
  ghost function ReadOf<S(!new)>(n: Native<S>, kind: Kind, f: Faults, h: HostState<S>): Reading<S>
    requires WellFormed(n, h.world.guest)
  {
    SizesFit(n, kind, f, h.world);
    if kind.Capturing? then FetchOf(n, kind, f, h, 16)
    else if f.probe.Skipped? then Reading(h, None)
    else
      var reply, probed := OutcomeOf(n, kind, f.AsCall(0), h.world).reply, h.(world := Advance(n, kind, f.AsCall(0), h.world));
      if f.probe.Unread? || reply.None? || reply.value == 0 then Reading(probed, None)
      else FetchOf(n, kind, f, probed, reply.value)
  }

  // ---------------------------------------------------------------- how a read ends

  /** How a fetch with room for the record ends. */
  function FetchEnding(f: Faults, need: nat, live: set<u32>): Ending {
    if !f.ranged then Stalled(0)
    else match WrapFate(need, f.alloc, live, f.stop)
         case Cut => Stalled(Made(Cut, need, f.stop))
         case Fetched => if f.fetch.Read? && f.readOk then Got else Missed(need)
         case Dry => Lost
  }

  /** How a fetch of a record that is ready in the guest ends. */
  function ReadyEnding(f: Faults, room: nat, required: nat, need: nat, live: set<u32>): Ending {
    if !(f.scratchOk || room >= required) || f.fetch.Skipped? then Stalled(0)
    else FetchEnding(f, need, live)
  }

  /** How a read ends. */
  function EndingOf<S>(n: Native<S>, kind: Kind, f: Faults, h: HostState<S>): Ending {
    var head, live := Head(n, kind, h.world.guest), h.world.wrappers.Keys;
    if kind.Capturing? && (!(f.scratchOk || h.room >= 16) || f.fetch.Skipped?) then Stalled(0)
    else if !kind.Capturing? && f.probe.Skipped? then Stalled(0)
    else if head.None? then Exhausted
    else if Starves(n, kind, h.world.guest, f.copy) then Lost
    else if !kind.Capturing? && f.probe.Unread? then Stalled(0)
    else ReadyEnding(f, h.room, Size(kind, head.value), |Wraps(kind, head.value)|, live)
  }

  /** The failure behind each ending. */
  predicate Cause(kind: Kind, f: Faults, live: set<u32>, need: nat, ending: Ending) {
    match ending
    case Got => true
    case Exhausted => true
    case Lost => !f.copy.Copies? || !GrantsAll(f.alloc, live, need)
    case Missed(leak) => leak == need && (f.fetch.Unread? || !f.readOk)
    case Stalled(leak) =>
      && (|| (!kind.Capturing? && !f.probe.Read?) || !f.scratchOk || f.fetch.Skipped? || !f.ranged || f.stop.Some?)
      && (leak > 0 ==> f.stop == Some(leak))
    case Halted => kind.Whole? && !f.removal.Removed?
  }

  /** A read ends at the end of the stream or has a cause that is a failure of one of its own
  calls. */
  lemma {:induction false} EndingCaused<S(!new)>(n: Native<S>, kind: Kind, f: Faults, h: HostState<S>)
    requires WellFormed(n, h.world.guest)
    ensures var head, ending := Head(n, kind, h.world.guest), EndingOf(n, kind, f, h);
            && !ending.Halted? && (ending.Exhausted? ==> head.None?) && (head.None? ==> !ending.Takes())
            && Cause(kind, f, h.world.wrappers.Keys, if head.Some? then |Wraps(kind, head.value)| else 0, ending)
  {
  }

  /** Without failures and with room a read gets the head, if there is one. */
  lemma {:induction false} BenignEnding<S(!new)>(n: Native<S>, kind: Kind, f: Faults, h: HostState<S>, capacity: nat)
    requires WellFormed(n, h.world.guest) && f.Benign(capacity) && |h.world.wrappers.Keys| + 0xFFFF <= capacity
    ensures EndingOf(n, kind, f, h) == if Head(n, kind, h.world.guest).Some? then Got else Exhausted
  {
    HeadSound(n, kind, h.world.guest);
    if Head(n, kind, h.world.guest).Some? {
      FaultlessFetches(f.AsCall(0), capacity, h.world.wrappers.Keys, |Wraps(kind, Head(n, kind, h.world.guest).value)|);
    }
  }

  /** What a read leaves of the guest. */
  ghost predicate LeavesGuest<S(!new)>(n: Native<S>, kind: Kind, ending: Ending, s: GuestState<S>, left: GuestState<S>) {
    if ending.Got? || ending.Missed? then left == After(n, kind, s, Wrote(Fetched))
    else if ending.Lost? || ending.Exhausted? then left == GuestState(Behind(n, kind, s), None)
    else left == s || left == Holding(n, kind, s)
  }

  /** How many wrappers a read leaves live. */
  function MadeIn(ending: Ending, need: nat): nat {
    if ending.Got? then need else ending.Leak()
  }

  /** What a read comes to: how it ends, and the guest and the wrappers it leaves. */
  ghost predicate Reads<S(!new)>(n: Native<S>, kind: Kind, f: Faults, h: HostState<S>, ending: Ending, r: Reading<S>)
  {
    var head := Head(n, kind, h.world.guest);
    && (r.grip.Some? <==> ending.Got?)
    && r.state.nodes == h.nodes && (r.state.room == h.room || r.state.room > h.room)
    && LeavesGuest(n, kind, ending, h.world.guest, r.state.world.guest)
    && match head
       case None => r.grip.None? && r.state.world.wrappers == h.world.wrappers
       case Some(e) =>
         && MadeIn(ending, |Wraps(kind, e)|) <= |Wraps(kind, e)|
         && GrantsAll(f.alloc, h.world.wrappers.Keys, MadeIn(ending, |Wraps(kind, e)|))
         && r.state.world.wrappers == Filled(h.world.wrappers, f.alloc, Wraps(kind, e), MadeIn(ending, |Wraps(kind, e)|))
         && (r.grip.Some? ==> r.grip.value == Grip(e, Handles(h.world.wrappers, f.alloc, Wraps(kind, e), |Wraps(kind, e)|)))
  }

  /** A fetch that is made with room for the record. */
  lemma {:induction false} FetchFates<S(!new)>(n: Native<S>, kind: Kind, f: Faults, w: World<S>)
    requires WellFormed(n, w.guest) && Head(n, kind, w.guest).Some? && !Starves(n, kind, w.guest, f.copy)
    ensures var e := Head(n, kind, w.guest).value;
            var call, fate := f.AsCall(Size(kind, e)), if f.ranged then Wrote(WrapFate(|Wraps(kind, e)|, f.alloc, w.wrappers.Keys, f.stop)) else Barred;
            && Advance(n, kind, call, w)
               == World(After(n, kind, w.guest, fate), Filled(w.wrappers, f.alloc, Wraps(kind, e), MadeBy(kind, call, e, fate)))
            && OutcomeOf(n, kind, call, w).reply
               == if fate == Wrote(Fetched) then Some(Size(kind, e)) else if fate == Wrote(Cut) then None else Some(0)
  {
  }

  /** What a fetch with room leaves of the guest and the wrappers, by how it ends. */
  lemma {:induction false} FetchLeaves<S(!new)>(n: Native<S>, kind: Kind, f: Faults, s: GuestState<S>, e: Event, live: set<u32>)
    requires Head(n, kind, s) == Some(e)
    ensures var call, fate := f.AsCall(Size(kind, e)), if f.ranged then Wrote(WrapFate(|Wraps(kind, e)|, f.alloc, live, f.stop)) else Barred;
            var ending := FetchEnding(f, |Wraps(kind, e)|, live);
            && LeavesGuest(n, kind, ending, s, After(n, kind, s, fate)) && MadeIn(ending, |Wraps(kind, e)|) == MadeBy(kind, call, e, fate)
            && (ending.Got? <==> fate == Wrote(Fetched) && f.fetch.Read? && f.readOk)
            && GrantsAll(f.alloc, live, MadeIn(ending, |Wraps(kind, e)|))
  {
    hide Holding, Behind, Head, Wraps;
    assert GrantsAll(f.alloc, live, 0);
  }

  lemma {:induction false} FetchReads<S(!new)>(n: Native<S>, kind: Kind, f: Faults, h: HostState<S>)
    requires WellFormed(n, h.world.guest) && Head(n, kind, h.world.guest).Some? && !Starves(n, kind, h.world.guest, f.copy)
    ensures var e := Head(n, kind, h.world.guest).value;
            IsSize(n, kind, h.world.guest, Size(kind, e)) && Reads(n, kind, f, h, ReadyEnding(f, h.room, Size(kind, e), |Wraps(kind, e)|, h.world.wrappers.Keys), FetchOf(n, kind, f, h, Size(kind, e)))
  {
    var e := Head(n, kind, h.world.guest).value;
    HeadSound(n, kind, h.world.guest);
    if (h.room < Size(kind, e) && !f.scratchOk) || f.fetch.Skipped? {
      Untouched(n, kind, f, h, Stalled(0), if h.room < Size(kind, e) && !f.scratchOk then h else h.(room := RoomFor(h.room, Size(kind, e))));
    } else {
      FetchFates(n, kind, f, h.world);
      FetchLeaves(n, kind, f, h.world.guest, e, h.world.wrappers.Keys);
      hide Advance, OutcomeOf, After, Head, Wraps, Filled, Handles, FetchEnding, LeavesGuest, GrantsAll, WrapFate;
    }
  }

  /** A read that stalls before the guest is called. */
  lemma {:induction false} Untouched<S(!new)>(n: Native<S>, kind: Kind, f: Faults, h: HostState<S>, ending: Ending, left: HostState<S>)
    requires ending == Stalled(0) && left.world == h.world && left.nodes == h.nodes && left.room >= h.room
    ensures Reads(n, kind, f, h, ending, Reading(left, None))
  {
    if Head(n, kind, h.world.guest).Some? {
      assert Filled(h.world.wrappers, f.alloc, Wraps(kind, Head(n, kind, h.world.guest).value), 0) == h.world.wrappers;
      assert GrantsAll(f.alloc, h.world.wrappers.Keys, 0);
    }
  }

  /** Reading what the guest holds already is reading what it would have held. */
  lemma {:induction false} HeldReads<S(!new)>(n: Native<S>, kind: Kind, f: Faults, h: HostState<S>, ending: Ending, r: Reading<S>)
    requires WellFormed(n, h.world.guest) && Head(n, kind, h.world.guest).Some?
    requires Reads(n, kind, f, h.(world := World(Holding(n, kind, h.world.guest), h.world.wrappers)), ending, r)
    ensures Reads(n, kind, f, h, ending, r)
  {
    HoldingSame(n, kind, f.AsCall(0), h.world);
  }

  /** A probe that finds nothing it can keep. */
  lemma {:induction false} NothingHeld<S(!new)>(n: Native<S>, kind: Kind, f: Faults, h: HostState<S>, capacity: nat, left: HostState<S>)
    requires WellFormed(n, h.world.guest) && (Head(n, kind, h.world.guest).None? || Starves(n, kind, h.world.guest, f.copy))
    requires left == h.(world := Advance(n, kind, f.AsCall(capacity), h.world), room := left.room) && left.room >= h.room
    ensures OutcomeOf(n, kind, f.AsCall(capacity), h.world).reply.None? || OutcomeOf(n, kind, f.AsCall(capacity), h.world).reply == Some(0)
    ensures Reads(n, kind, f, h, if Head(n, kind, h.world.guest).None? then Exhausted else Lost, Reading(left, None))
  {
    if Head(n, kind, h.world.guest).Some? {
      assert Filled(h.world.wrappers, f.alloc, Wraps(kind, Head(n, kind, h.world.guest).value), 0) == h.world.wrappers;
      assert GrantsAll(f.alloc, h.world.wrappers.Keys, 0);
    }
  }

  /** A probe that keeps the head reports the size of its record. */
  lemma {:induction false} ProbeKeeps<S(!new)>(n: Native<S>, kind: Kind, f: Faults, w: World<S>)
    requires WellFormed(n, w.guest) && Head(n, kind, w.guest).Some? && !Starves(n, kind, w.guest, f.copy)
    ensures Advance(n, kind, f.AsCall(0), w) == World(Holding(n, kind, w.guest), w.wrappers)
    ensures OutcomeOf(n, kind, f.AsCall(0), w).reply == Some(Size(kind, Head(n, kind, w.guest).value))
    ensures var held := World(Holding(n, kind, w.guest), w.wrappers);
            && WellFormed(n, held.guest) && Head(n, kind, held.guest) == Head(n, kind, w.guest) && !Starves(n, kind, held.guest, f.copy)
  {
    HoldingSame(n, kind, f.AsCall(0), w);
  }

  /** A read that only probes leaves the stream as it was. */
  lemma {:induction false} OnlyProbed<S(!new)>(n: Native<S>, kind: Kind, f: Faults, h: HostState<S>)
    requires WellFormed(n, h.world.guest) && Head(n, kind, h.world.guest).Some?
    ensures Reads(n, kind, f, h, Stalled(0), Reading(h.(world := World(Holding(n, kind, h.world.guest), h.world.wrappers)), None))
  {
    assert Filled(h.world.wrappers, f.alloc, Wraps(kind, Head(n, kind, h.world.guest).value), 0) == h.world.wrappers;
    assert GrantsAll(f.alloc, h.world.wrappers.Keys, 0);
  }

  /** A read ends as its failures say, whatever was pending in the guest, and that is what it
  takes and leaves. */
  lemma {:induction false} ReadEnds<S(!new)>(n: Native<S>, kind: Kind, f: Faults, h: HostState<S>)
    requires WellFormed(n, h.world.guest)
    ensures Reads(n, kind, f, h, EndingOf(n, kind, f, h), ReadOf(n, kind, f, h))
  {
    if kind.Capturing? {
      CompactReadEnds(n, f, h);
    } else {
      ProbedReadEnds(n, kind, f, h);
    }
  }

  lemma {:induction false} CompactReadEnds<S(!new)>(n: Native<S>, f: Faults, h: HostState<S>)
    requires WellFormed(n, h.world.guest)
    ensures Reads(n, Capturing, f, h, EndingOf(n, Capturing, f, h), ReadOf(n, Capturing, f, h))
  {
    var head := Head(n, Capturing, h.world.guest);
    HeadSound(n, Capturing, h.world.guest);
    if (h.room < 16 && !f.scratchOk) || f.fetch.Skipped? {
      Untouched(n, Capturing, f, h, Stalled(0), if h.room < 16 && !f.scratchOk then h else h.(room := RoomFor(h.room, 16)));
    } else if head.None? || Starves(n, Capturing, h.world.guest, f.copy) {
      NothingHeld(n, Capturing, f, h, 16, h.(world := Advance(n, Capturing, f.AsCall(16), h.world), room := RoomFor(h.room, 16)));
      hide Advance, OutcomeOf, Reads, Head, Starves, RoomFor;
    } else {
      FetchReads(n, Capturing, f, h);
      assert Size(Capturing, head.value) == 16;
      hide Advance, OutcomeOf, Reads, Starves, RoomFor, FetchOf;
    }
  }

  lemma {:induction false} ProbedReadEnds<S(!new)>(n: Native<S>, kind: Kind, f: Faults, h: HostState<S>)
    requires WellFormed(n, h.world.guest) && !kind.Capturing?
    ensures Reads(n, kind, f, h, EndingOf(n, kind, f, h), ReadOf(n, kind, f, h))
  {
    var head := Head(n, kind, h.world.guest);
    AfterWellFormed(n, kind, h.world.guest, FateOf(n, kind, f.AsCall(0), h.world.guest, h.world.wrappers.Keys));
    if f.probe.Skipped? {
      Untouched(n, kind, f, h, Stalled(0), h);
    } else if head.None? || Starves(n, kind, h.world.guest, f.copy) {
      NothingHeld(n, kind, f, h, 0, h.(world := Advance(n, kind, f.AsCall(0), h.world)));
      hide Advance, OutcomeOf, Reads, Head, Starves, FetchOf;
    } else {
      ProbeKeeps(n, kind, f, h.world);
      OnlyProbed(n, kind, f, h);
      var held := h.(world := World(Holding(n, kind, h.world.guest), h.world.wrappers));
      FetchReads(n, kind, f, held);
      HeldReads(n, kind, f, h, ReadyEnding(f, h.room, Size(kind, head.value), |Wraps(kind, head.value)|, h.world.wrappers.Keys),
                FetchOf(n, kind, f, held, Size(kind, head.value)));
      hide Advance, OutcomeOf, Reads, Head, Starves, FetchOf, Holding, ReadyEnding, Size, Wraps;
    }
  }

  /** The guest is well formed after a read. */
  lemma {:induction false} ReadWellFormed<S(!new)>(n: Native<S>, kind: Kind, f: Faults, h: HostState<S>)
    requires WellFormed(n, h.world.guest)
    ensures WellFormed(n, ReadOf(n, kind, f, h).state.world.guest)
  {
    ReadEnds(n, kind, f, h);
    AfterWellFormed(n, kind, h.world.guest, Wrote(Fetched));
    hide ReadOf;
  }

  // ---------------------------------------------------------------- settling what was read

  /** What the host does with what it reads: its text predicates, whether the bridge exports the
  removal of a match, and whether a capture is wanted with its whole match. */
  datatype Policy = Policy(accept: QMatch -> bool, removes: bool, full: bool)

  /** Only the wrapper of the selected capture is wanted. */
  predicate Selects(kind: Kind, p: Policy) { kind.Whole? && !p.full }

  /** How one step ends, and what it comes to. */
  datatype Trial<S> = Trial(state: HostState<S>, result: Option<Grip>, refused: bool, ending: Ending)

  /** The wrappers that an accepted value registers. */
  function Registered(kind: Kind, p: Policy, g: Grip): set<u32> {
    if Selects(kind, p) && g.event.ordinal < |g.entries| then {g.entries[g.event.ordinal].node} else NodeSet(g.entries)
  }

  /** An accepted value: its wrappers are registered, but when only one is wanted the others are
  freed. */
  ghost function Accepting<S>(kind: Kind, p: Policy, f: Faults, h: HostState<S>, g: Grip): HostState<S> {
    if Selects(kind, p) && g.event.ordinal < |g.entries| then
      h.(nodes := h.nodes + Registered(kind, p, g),
         world := h.world.(wrappers := h.world.wrappers - Freed(g.entries, |g.entries|, g.event.ordinal, f.deleted)))
    else h.(nodes := h.nodes + Registered(kind, p, g))
  }

  /** A refused value: its wrappers are freed. */
  ghost function Refusing<S>(f: Faults, h: HostState<S>, g: Grip): HostState<S> {
    h.(world := h.world.(wrappers := h.world.wrappers - Freed(g.entries, |g.entries|, -1, f.deleted)))
  }

  /** A refused capture also loses its match's state in the guest. */
  ghost function Removing<S>(n: Native<S>, f: Faults, h: HostState<S>, g: Grip): HostState<S> {
    if f.removal.NotRemoved? then h
    else h.(world := h.world.(guest := Remove(n, h.world.guest, g.event.match_.id)))
  }

  ghost function SettleOf<S>(n: Native<S>, kind: Kind, p: Policy, f: Faults, h: HostState<S>, g: Grip): Trial<S> {
    if p.accept(g.event.match_) then Trial(Accepting(kind, p, f, h, g), Some(g), false, Got)
    else if !kind.Whole? || !p.removes then Trial(Refusing(f, h, g), None, true, Got)
    else Trial(Removing(n, f, Refusing(f, h, g), g), None, f.removal.Removed?, if f.removal.Removed? then Got else Halted)
  }

  /** One step: a read, and the settling of its value. */
  ghost function TryOf<S(!new)>(n: Native<S>, kind: Kind, p: Policy, f: Faults, h: HostState<S>): Trial<S>
    requires WellFormed(n, h.world.guest)
  {
    var r := ReadOf(n, kind, f, h);
    if r.grip.None? then Trial(r.state, None, false, EndingOf(n, kind, f, h))
    else SettleOf(n, kind, p, f, r.state, r.grip.value)
  }

  ghost predicate HostMoves<S>(h: HostState<S>, after: HostState<S>) {
    Moves(h.world.wrappers, after.world.wrappers, h.nodes, after.nodes)
  }

  /** The wrappers that are left to nobody. */
  function Leaked<S>(h: HostState<S>, after: HostState<S>): set<u32> {
    LeftOver(h.world.wrappers, after.world.wrappers, after.nodes)
  }

  /** Every live wrapper stays accounted for: registered before and after, or new and registered,
  or one of the others, to which those left over are added. */
  lemma {:induction false} StaysOwned<S>(h: HostState<S>, after: HostState<S>, others: set<u32>)
    requires Owned(h.world.wrappers.Keys, h.nodes, others) && HostMoves(h, after)
    ensures Owned(after.world.wrappers.Keys, after.nodes, others + Leaked(h, after))
    ensures after.nodes <= after.world.wrappers.Keys
  {
    OwnedMoves(h.world.wrappers, after.world.wrappers, h.nodes, after.nodes, others);
    forall a | a in after.nodes
      ensures a in after.world.wrappers
    {
      assert OwnedAt(a, after.world.wrappers.Keys, after.nodes, others + Leaked(h, after));
    }
  }

  /** A step leaves no wrapper to nobody: the deletes it makes succeed, or the read left none. */
  ghost predicate Tidy<S>(kind: Kind, p: Policy, f: Faults, e: Option<Event>, t: Trial<S>) {
    if e.None? then true
    else if t.refused || t.ending.Halted? then AllDeleted(|Wraps(kind, e.value)|, -1, f.deleted)
    else if t.ending.Got? then kind.Whole? && !p.full ==> AllDeleted(|Wraps(kind, e.value)|, e.value.ordinal, f.deleted)
    else t.ending.Leak() == 0
  }

  /** A result is its event with registered live wrappers of what the caller wants of it: of every
  capture of the record, or, when a capture is wanted without its match, of the selected one. */
  ghost predicate Shown(kind: Kind, p: Policy, g: Grip, wrappers: map<u32, nat>, nodes: set<u32>) {
    && Sound(kind, g.event) && |g.entries| == |Wraps(kind, g.event)| && p.accept(g.event.match_)
    && if kind.Whole? && !p.full then
         && |g.entries| == |g.event.match_.captures| && g.entries[g.event.ordinal].node in nodes
         && HoldsAt(g.entries[g.event.ordinal], g.event.match_.captures[g.event.ordinal], wrappers)
       else OfEvent(kind, g.event, g.entries, wrappers) && Distinct(g.entries) && NodeSet(g.entries) <= nodes
  }

  lemma {:induction false} ShownStays<S>(kind: Kind, p: Policy, g: Grip, h: HostState<S>, after: HostState<S>)
    requires Shown(kind, p, g, h.world.wrappers, h.nodes) && HostMoves(h, after)
    ensures Shown(kind, p, g, after.world.wrappers, after.nodes)
  {
    if !(kind.Whole? && !p.full) {
      OfEventStays(kind, g.event, g.entries, h.world.wrappers, after.world.wrappers);
    }
  }

  /** What an accepted value adds to the registered wrappers, and of a record of which only the
  selected one is wanted, which of the others are left: those whose deletes fail. */
  ghost predicate Settled<S>(kind: Kind, p: Policy, f: Faults, g: Grip, h: HostState<S>, after: HostState<S>) {
    if kind.Whole? && !p.full then
      && g.event.ordinal < |g.entries| && after.nodes == h.nodes + {g.entries[g.event.ordinal].node}
      && forall k :: 0 <= k < |g.entries| && k != g.event.ordinal ==> (g.entries[k].node in after.world.wrappers <==> !f.deleted(k))
    else after.nodes == h.nodes + NodeSet(g.entries)
  }

  /** What a step comes to for the wrappers: new ones are registered or left to nobody, and none
  is left to nobody exactly when the step is tidy. */
  ghost predicate Settles<S>(kind: Kind, p: Policy, f: Faults, e: Option<Event>, h: HostState<S>, t: Trial<S>) {
    && HostMoves(h, t.state) && (Leaked(h, t.state) == {} <==> Tidy(kind, p, f, e, t))
    && (t.result.Some? <==> t.ending.Got? && !t.refused)
    && match t.result
       case None => t.state.nodes == h.nodes
       case Some(g) =>
         && Some(g.event) == e && Shown(kind, p, g, t.state.world.wrappers, t.state.nodes)
         && Settled(kind, p, f, g, h, t.state)
  }

  /** A value that was read: its wrappers hold what the event captures. */
  ghost predicate GripHolds(kind: Kind, g: Grip, wrappers: map<u32, nat>) {
    && Sound(kind, g.event) && |g.entries| == |Wraps(kind, g.event)|
    && OfEvent(kind, g.event, g.entries, wrappers) && Distinct(g.entries)
  }

  lemma {:induction false} GripLive(kind: Kind, g: Grip, wrappers: map<u32, nat>)
    requires GripHolds(kind, g, wrappers)
    ensures AllLive(wrappers, g.entries)
  {
    forall k | 0 <= k < |g.entries|
      ensures g.entries[k].node != 0 && g.entries[k].node in wrappers
    {
      assert !kind.Capturing? ==> HoldsAt(g.entries[k], g.event.match_.captures[k], wrappers);
    }
  }

  /** And they are new. */
  ghost predicate Gripped<S>(kind: Kind, before: HostState<S>, h: HostState<S>, g: Grip) {
    && before.nodes <= before.world.wrappers.Keys && h.nodes == before.nodes
    && GripHolds(kind, g, h.world.wrappers) && Grown(before.world.wrappers, h.world.wrappers, NodeSet(g.entries))
  }

  lemma {:induction false} AcceptingSettles<S>(kind: Kind, p: Policy, f: Faults, before: HostState<S>, h: HostState<S>, g: Grip)
    requires Gripped(kind, before, h, g) && p.accept(g.event.match_)
    ensures Settles(kind, p, f, Some(g.event), before, Trial(Accepting(kind, p, f, h, g), Some(g), false, Got))
  {
    var after := Accepting(kind, p, f, h, g);
    GripLive(kind, g, h.world.wrappers);
    if Selects(kind, p) {
      var keep := g.event.ordinal;
      KeptGrows(before.world.wrappers, h.world.wrappers, after.world.wrappers, g.entries, keep, f.deleted);
      GrownMoves(before.world.wrappers, after.world.wrappers, before.nodes, {g.entries[keep].node}, Undeleted(g.entries, keep, f.deleted));
      assert HoldsAt(g.entries[keep], g.event.match_.captures[keep], h.world.wrappers);
      FreedExactly(h.world.wrappers, g.entries, keep, f.deleted);
    } else {
      assert NodeSet(g.entries) + {} == NodeSet(g.entries);
      GrownMoves(before.world.wrappers, after.world.wrappers, before.nodes, NodeSet(g.entries), {});
    }
  }

  lemma {:induction false} RefusingSettles<S>(kind: Kind, f: Faults, before: HostState<S>, h: HostState<S>, g: Grip)
    requires Gripped(kind, before, h, g)
    ensures var after := Refusing(f, h, g);
            && HostMoves(before, after) && after.nodes == before.nodes
            && (Leaked(before, after) == {} <==> AllDeleted(|Wraps(kind, g.event)|, -1, f.deleted))
  {
    var after := Refusing(f, h, g);
    GripLive(kind, g, h.world.wrappers);
    RefusedGrows(before.world.wrappers, h.world.wrappers, after.world.wrappers, g.entries, f.deleted);
    assert {} + Undeleted(g.entries, -1, f.deleted) == Undeleted(g.entries, -1, f.deleted);
    GrownMoves(before.world.wrappers, after.world.wrappers, before.nodes, {}, Undeleted(g.entries, -1, f.deleted));
    assert before.nodes + {} == before.nodes;
  }

  lemma {:induction false} SettlingSettles<S>(n: Native<S>, kind: Kind, p: Policy, f: Faults, before: HostState<S>, h: HostState<S>, g: Grip)
    requires Gripped(kind, before, h, g)
    ensures Settles(kind, p, f, Some(g.event), before, SettleOf(n, kind, p, f, h, g))
  {
    AcceptingSettlesIf(kind, p, f, before, h, g);
    RefusingSettles(kind, f, before, h, g);
    hide Accepting, Refusing, Moves, LeftOver, AllDeleted, Wraps, Shown;
  }

  lemma {:induction false} AcceptingSettlesIf<S>(kind: Kind, p: Policy, f: Faults, before: HostState<S>, h: HostState<S>, g: Grip)
    requires Gripped(kind, before, h, g)
    ensures p.accept(g.event.match_) ==> Settles(kind, p, f, Some(g.event), before, Trial(Accepting(kind, p, f, h, g), Some(g), false, Got))
  {
    if p.accept(g.event.match_) {
      AcceptingSettles(kind, p, f, before, h, g);
    }
  }

  /** A read that hands nothing over leaves to nobody what its ending says. */
  lemma {:induction false} UnreadSettles<S(!new)>(n: Native<S>, kind: Kind, p: Policy, f: Faults, h: HostState<S>, ending: Ending, r: Reading<S>)
    requires h.nodes <= h.world.wrappers.Keys && !ending.Got? && !ending.Halted? && Reads(n, kind, f, h, ending, r)
    ensures Settles(kind, p, f, Head(n, kind, h.world.guest), h, Trial(r.state, None, false, ending))
    ensures |r.state.world.wrappers.Keys| == |h.world.wrappers.Keys| + if Head(n, kind, h.world.guest).Some? then ending.Leak() else 0
  {
    var head := Head(n, kind, h.world.guest);
    WrappingMoves(h.world.wrappers, f.alloc, if head.Some? then Wraps(kind, head.value) else [],
                  if head.Some? then ending.Leak() else 0, h.nodes);
  }

  lemma {:induction false} ReadGrips<S(!new)>(n: Native<S>, kind: Kind, f: Faults, h: HostState<S>)
    requires WellFormed(n, h.world.guest) && ReadOf(n, kind, f, h).grip.Some?
    ensures var r, e := ReadOf(n, kind, f, h), Head(n, kind, h.world.guest);
            && e.Some? && r.grip.value.event == e.value && GripHolds(kind, r.grip.value, r.state.world.wrappers)
            && (h.nodes <= h.world.wrappers.Keys ==> Gripped(kind, h, r.state, r.grip.value))
  {
    ReadEnds(n, kind, f, h);
    HeadSound(n, kind, h.world.guest);
    var e := Head(n, kind, h.world.guest).value;
    Wrapping(h.world.wrappers, f.alloc, Wraps(kind, e), |Wraps(kind, e)|);
    WrapsOfEvent(kind, e, ReadOf(n, kind, f, h).grip.value.entries, ReadOf(n, kind, f, h).state.world.wrappers);
    hide ReadOf;
  }

  /** What a step makes of the wrappers, under any failures. */
  lemma {:induction false} TrySettles<S(!new)>(n: Native<S>, kind: Kind, p: Policy, f: Faults, h: HostState<S>)
    requires WellFormed(n, h.world.guest) && h.nodes <= h.world.wrappers.Keys
    ensures Settles(kind, p, f, Head(n, kind, h.world.guest), h, TryOf(n, kind, p, f, h))
  {
    var r, ending := ReadOf(n, kind, f, h), EndingOf(n, kind, f, h);
    ReadEnds(n, kind, f, h);
    EndingCaused(n, kind, f, h);
    if r.grip.Some? {
      ReadGrips(n, kind, f, h);
      SettlingSettles(n, kind, p, f, h, r.state, r.grip.value);
    } else {
      UnreadSettles(n, kind, p, f, h, ending, r);
    }
    hide ReadOf, EndingOf, Settles, SettleOf, Reads;
  }

  // ---------------------------------------------------------------- where conservation fails

  /** A read that hands nothing over leaves wrappers to nobody exactly when a fetch was made on
  something ready in the guest, with room and in range, made wrappers, and then trapped or gave
  nothing the host could read. */
  lemma {:induction false} ReadLeaksIff<S(!new)>(n: Native<S>, kind: Kind, f: Faults, h: HostState<S>)
    requires WellFormed(n, h.world.guest) && !EndingOf(n, kind, f, h).Got?
    ensures var head, live := Head(n, kind, h.world.guest), h.world.wrappers.Keys;
            var need := if head.Some? then |Wraps(kind, head.value)| else 0;
            var traps := f.stop.Some? && f.stop.value <= need && GrantsAll(f.alloc, live, f.stop.value);
            ReadOf(n, kind, f, h).state.world.wrappers != h.world.wrappers <==>
              && head.Some? && !Starves(n, kind, h.world.guest, f.copy) && (kind.Capturing? || f.probe.Read?)
              && (f.scratchOk || h.room >= Size(kind, head.value)) && !f.fetch.Skipped? && f.ranged
              && if traps then f.stop.value > 0
                 else need > 0 && GrantsAll(f.alloc, live, need) && (f.fetch.Unread? || !f.readOk)
  {
    HeadSound(n, kind, h.world.guest);
    ReadLeaves(n, kind, f, h);
    hide ReadOf;
    if kind.Capturing? && Head(n, kind, h.world.guest).Some? {
      assert Size(kind, Head(n, kind, h.world.guest).value) == 16;
    }
  }

  lemma {:induction false} ReadLeaves<S(!new)>(n: Native<S>, kind: Kind, f: Faults, h: HostState<S>)
    requires WellFormed(n, h.world.guest) && !EndingOf(n, kind, f, h).Got?
    ensures ReadOf(n, kind, f, h).state.world.wrappers != h.world.wrappers
       <==> Head(n, kind, h.world.guest).Some? && EndingOf(n, kind, f, h).Leak() > 0
  {
    var head, ending := Head(n, kind, h.world.guest), EndingOf(n, kind, f, h);
    ReadEnds(n, kind, f, h);
    if head.Some? {
      WrappingMoves(h.world.wrappers, f.alloc, Wraps(kind, head.value), ending.Leak(), {});
    }
    hide ReadOf, EndingOf, Head, Wraps;
  }
}
