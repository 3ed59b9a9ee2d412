/** The guest's query-cursor wrapper as a machine: what each kind of call does to the wrapper
and to the live node wrappers, and what it answers, as functions of the state before.

The native cursor behind the wrapper is an arbitrary deterministic machine.  The wrapper keeps
one match or capture so that a call whose buffer is too short loses nothing. */
module GuestMachine {
  import opened Values
  import opened Wire
  import opened NodeWrappers

  datatype QMatch = QMatch(id: u32, pattern: u16, captures: seq<NodeCapture>)

  /** A match and the ordinal of one of its captures.  A match that is handed over as such is
  written as its event of ordinal 0. */
  datatype Event = Event(match_: QMatch, ordinal: nat) {
    predicate InRange() { ordinal < |match_.captures| < 0x1_0000 }

    function Capture(): NodeCapture
      requires InRange()
    {
      match_.captures[ordinal]
    }
  }

  // ---------------------------------------------------------------- the native cursor

  datatype Native<!S> = Native(
    nextMatch: S -> Option<(QMatch, S)>,
    nextCapture: S -> Option<(Event, S)>,
    remove: (S, u32) -> S,
    size: S -> nat)

  /** The native cursor is finite and its records fit their 16-bit fields. */
  ghost predicate Proper<S(!new)>(n: Native<S>) {
    && (forall s :: n.nextMatch(s).Some? ==>
          && n.size(n.nextMatch(s).value.1) < n.size(s)
          && |n.nextMatch(s).value.0.captures| < 0x1_0000)
    && (forall s :: n.nextCapture(s).Some? ==>
          && n.size(n.nextCapture(s).value.1) < n.size(s)
          && n.nextCapture(s).value.0.InRange())
    && (forall s, id :: n.size(n.remove(s, id)) <= n.size(s))
  }

  /** Calls for whole matches, for single captures, and for captures with their whole match. */
  datatype Kind = Matching | Capturing | Whole

  /** What the native cursor yields to a kind of call, and its state behind that. */
  function Pull<S>(n: Native<S>, kind: Kind, v: S): Option<(Event, S)> {
    if !kind.Matching? then n.nextCapture(v)
    else match n.nextMatch(v)
         case None => None
         case Some(p) => Some((Event(p.0, 0), p.1))
  }

  /** All that it yields to calls of one kind. */
  ghost function Items<S(!new)>(n: Native<S>, kind: Kind, v: S): seq<Event>
    requires Proper(n)
    decreases n.size(v)
  {
    match Pull(n, kind, v)
    case None => []
    case Some(p) => [p.0] + Items(n, kind, p.1)
  }

  // ---------------------------------------------------------------- the wrapper's state

  /** What the wrapper keeps: a complete match with the next of its captures to emit, or one
  capture on its own. */
  datatype Kept = Kept(match_: QMatch, ordinal: nat, alone: bool)

  datatype GuestState<S> = GuestState(value: S, kept: Option<Kept>)

  predicate Fitting(k: Kept) {
    && |k.match_.captures| < 0x1_0000
    && (k.alone || k.match_.captures != [] ==> k.ordinal < |k.match_.captures|)
  }

  ghost predicate WellFormed<S(!new)>(n: Native<S>, s: GuestState<S>) {
    Proper(n) && (s.kept.Some? ==> Fitting(s.kept.value))
  }

  /** What is kept answers a call of this kind; otherwise the call drops it. */
  predicate FromKept<S>(kind: Kind, s: GuestState<S>) {
    && s.kept.Some?
    && if kind.Matching? then !s.kept.value.alone else s.kept.value.alone || s.kept.value.match_.captures != []
  }

  /** A complete match with captures is kept. */
  predicate Retained<S>(s: GuestState<S>) {
    s.kept.Some? && !s.kept.value.alone && s.kept.value.match_.captures != []
  }

  /** What the next call of a kind is about. */
  function Head<S>(n: Native<S>, kind: Kind, s: GuestState<S>): Option<Event> {
    if FromKept(kind, s) then Some(Event(s.kept.value.match_, if kind.Matching? then 0 else s.kept.value.ordinal))
    else match Pull(n, kind, s.value)
         case None => None
         case Some(p) => Some(p.0)
  }

  /** The native state behind that. */
  function Behind<S>(n: Native<S>, kind: Kind, s: GuestState<S>): S {
    if FromKept(kind, s) then s.value
    else match Pull(n, kind, s.value)
         case None => s.value
         case Some(p) => p.1
  }

  /** The wrapper once that is kept. */
  function Holding<S>(n: Native<S>, kind: Kind, s: GuestState<S>): GuestState<S> {
    if FromKept(kind, s) then s
    else match Pull(n, kind, s.value)
         case None => GuestState(s.value, None)
         case Some(p) => GuestState(p.1, Some(Kept(p.0.match_, p.0.ordinal, !kind.Matching?)))
  }

  // ---------------------------------------------------------------- one call

  /** What becomes of the copy of a capture list: made, refused for want of memory, or the
  guest traps. */
  datatype Copying = Copies | NoMemory | CopyTraps

  /** One guest call: the size of its buffer, and what fails while it runs; `ranged` says that
  the guest accepts the address of a buffer that is long enough. */
  datatype Call = Call(capacity: nat, copy: Copying, ranged: bool, alloc: Alloc, stop: Option<nat>)

  /** What a call comes to: there was nothing to yield, the list of what there was could not
  be copied, the buffer was too short, or not accepted, or writing the record began. */
  datatype Fate = Nothing | Starved | Probed | Barred | Wrote(wrap: Wrap)

  /** The captures a call wraps. */
  function Wraps(kind: Kind, e: Event): seq<NodeCapture> {
    if !kind.Capturing? then e.match_.captures
    else if e.ordinal < |e.match_.captures| then [e.match_.captures[e.ordinal]]
    else []
  }

  /** The size of the record a call writes. */
  function Size(kind: Kind, e: Event): nat {
    (if kind.Whole? then 16 else 8) + 8 * |Wraps(kind, e)|
  }

  /** The list of what the native cursor yields cannot be copied. */
  predicate Starves<S>(n: Native<S>, kind: Kind, s: GuestState<S>, copy: Copying) {
    !FromKept(kind, s) && Head(n, kind, s).Some? && Head(n, kind, s).value.match_.captures != [] && !copy.Copies?
  }

  function FateOf<S>(n: Native<S>, kind: Kind, call: Call, s: GuestState<S>, live: set<u32>): Fate {
    match Head(n, kind, s)
    case None => Nothing
    case Some(e) =>
      if Starves(n, kind, s, call.copy) then Starved
      else if call.capacity < Size(kind, e) then Probed
      else if !call.ranged then Barred
      else Wrote(WrapFate(|Wraps(kind, e)|, call.alloc, live, call.stop))
  }

  /** The call leaves its head kept. */
  predicate Keeps(fate: Fate) { fate.Probed? || fate.Barred? || fate == Wrote(Cut) }

  /** The call takes its head away. */
  predicate Takes(fate: Fate) { fate.Starved? || fate == Wrote(Fetched) || fate == Wrote(Dry) }

  /** The wrapper after a call.  A compact fetch of a complete match goes on to its next
  capture; every other call that does not keep its head keeps nothing. */
  function After<S>(n: Native<S>, kind: Kind, s: GuestState<S>, fate: Fate): GuestState<S> {
    if Keeps(fate) then Holding(n, kind, s)
    else if kind.Capturing? && Retained(s) && fate == Wrote(Fetched)
            && s.kept.value.ordinal + 1 < |s.kept.value.match_.captures| then
      GuestState(s.value, Some(s.kept.value.(ordinal := s.kept.value.ordinal + 1)))
    else GuestState(Behind(n, kind, s), None)
  }

  /** The wrapper and the live node wrappers. */
  datatype World<S> = World(guest: GuestState<S>, wrappers: map<u32, nat>)

  /** How many node wrappers a call leaves live. */
  function MadeBy(kind: Kind, call: Call, e: Event, fate: Fate): (made: nat)
    ensures made <= |Wraps(kind, e)|
  {
    if fate.Wrote? then Made(fate.wrap, |Wraps(kind, e)|, call.stop) else 0
  }

  /** One call. */
  function Advance<S>(n: Native<S>, kind: Kind, call: Call, w: World<S>): World<S> {
    var fate := FateOf(n, kind, call, w.guest, w.wrappers.Keys);
    World(After(n, kind, w.guest, fate),
          match Head(n, kind, w.guest)
          case None => w.wrappers
          case Some(e) => Filled(w.wrappers, call.alloc, Wraps(kind, e), MadeBy(kind, call, e, fate)))
  }

  /** What the host is told: the record's size, zero, or nothing when the guest traps; and the
  record in its buffer, if one was written. */
  datatype Outcome = Outcome(reply: Option<nat>, record: seq<u8>)

  predicate Sound(kind: Kind, e: Event) {
    |e.match_.captures| < 0x1_0000 && (!kind.Matching? ==> e.ordinal < |e.match_.captures|)
  }

  /** The record of a match, of one capture, or of a capture with its match. */
  function RecordOf(kind: Kind, e: Event, entries: seq<Entry>): (r: seq<u8>)
    requires Sound(kind, e) && |entries| == |Wraps(kind, e)|
    ensures |r| == Size(kind, e)
  {
    match kind
    case Matching => MatchRecord(RawMatch(e.match_.id, e.match_.pattern, entries))
    case Capturing => CompactRecord(RawCapture(e.match_.id, e.match_.pattern, e.ordinal, entries[0].node, entries[0].index))
    case Whole => CaptureRecord(RawMatch(e.match_.id, e.match_.pattern, entries), e.ordinal)
  }

  /** Entries for an event: of its selected capture alone, or of all captures of its match. */
  ghost predicate OfEvent(kind: Kind, e: Event, entries: seq<Entry>, wrappers: map<u32, nat>) {
    match kind
    case Capturing => e.InRange() && |entries| == 1 && HoldsAt(entries[0], e.Capture(), wrappers)
    case _ => |entries| == |e.match_.captures| && Holds(entries, e.match_.captures, wrappers)
  }

  lemma {:induction false} WrapsOfEvent(kind: Kind, e: Event, entries: seq<Entry>, wrappers: map<u32, nat>)
    requires Sound(kind, e)
    ensures OfEvent(kind, e, entries, wrappers) <==> |entries| == |Wraps(kind, e)| && Holds(entries, Wraps(kind, e), wrappers)
  {
    if kind.Capturing? && |entries| == 1 {
      assert Wraps(kind, e) == [e.Capture()];
      assert Holds(entries, Wraps(kind, e), wrappers) <==> HoldsAt(entries[0], Wraps(kind, e)[0], wrappers);
    }
  }

  /** Wrappers stay what they are when others come. */
  lemma {:induction false} OfEventStays(kind: Kind, e: Event, entries: seq<Entry>, before: map<u32, nat>, after: map<u32, nat>)
    requires OfEvent(kind, e, entries, before) && Extends(before, after)
    ensures OfEvent(kind, e, entries, after)
  {
    if !kind.Capturing? {
      forall k | 0 <= k < |entries|
        ensures HoldsAt(entries[k], e.match_.captures[k], after)
      {
        assert HoldsAt(entries[k], e.match_.captures[k], before);
      }
    }
  }

  /** The entries of the record a call writes. */
  function EntriesOf(kind: Kind, call: Call, e: Event, wrappers: map<u32, nat>): seq<Entry> {
    Handles(wrappers, call.alloc, Wraps(kind, e), |Wraps(kind, e)|)
  }

  ghost function OutcomeOf<S(!new)>(n: Native<S>, kind: Kind, call: Call, w: World<S>): Outcome
    requires WellFormed(n, w.guest)
  {
    var fate := FateOf(n, kind, call, w.guest, w.wrappers.Keys);
    match Head(n, kind, w.guest)
    case None => Outcome(Some(0), [])
    case Some(e) =>
      if fate.Probed? then Outcome(Some(Size(kind, e)), [])
      else if fate == Wrote(Fetched) then Outcome(Some(Size(kind, e)), RecordOf(kind, e, EntriesOf(kind, call, e, w.wrappers)))
      else Outcome(if fate == Wrote(Cut) || (fate.Starved? && call.copy.CopyTraps?) then None else Some(0), [])
  }

  lemma {:induction false} HeadSound<S(!new)>(n: Native<S>, kind: Kind, s: GuestState<S>)
    requires WellFormed(n, s)
    ensures Head(n, kind, s).Some? ==> Sound(kind, Head(n, kind, s).value)
  {
  }

  /** The bytes are the record of the event around live wrappers: of its selected capture for a
  compact call, and of every capture of its match for the others. */
  ghost predicate Shows(kind: Kind, e: Event, record: seq<u8>, entries: seq<Entry>, wrappers: map<u32, nat>) {
    && |e.match_.captures| < 0x1_0000 && Distinct(entries)
    && match kind
       case Matching =>
         && |entries| == |e.match_.captures| && Holds(entries, e.match_.captures, wrappers)
         && record == MatchRecord(RawMatch(e.match_.id, e.match_.pattern, entries))
       case Capturing =>
         && e.ordinal < |e.match_.captures| && |entries| == 1 && HoldsAt(entries[0], e.match_.captures[e.ordinal], wrappers)
         && record == CompactRecord(RawCapture(e.match_.id, e.match_.pattern, e.ordinal, entries[0].node, entries[0].index))
       case Whole =>
         && e.ordinal < |e.match_.captures| == |entries| && Holds(entries, e.match_.captures, wrappers)
         && record == CaptureRecord(RawMatch(e.match_.id, e.match_.pattern, entries), e.ordinal)
  }

  /** A record that is handed out is that of the head. */
  lemma {:induction false} OutcomeShows<S(!new)>(n: Native<S>, kind: Kind, call: Call, w: World<S>)
    requires WellFormed(n, w.guest)
    ensures var head, record := Head(n, kind, w.guest), OutcomeOf(n, kind, call, w).record;
            && (record != [] <==> FateOf(n, kind, call, w.guest, w.wrappers.Keys) == Wrote(Fetched))
            && (record != [] ==> head.Some? && Shows(kind, head.value, record, EntriesOf(kind, call, head.value, w.wrappers),
                                                     Advance(n, kind, call, w).wrappers))
  {
    HeadSound(n, kind, w.guest);
    var head := Head(n, kind, w.guest);
    if head.Some? && FateOf(n, kind, call, w.guest, w.wrappers.Keys) == Wrote(Fetched) {
      Wrapping(w.wrappers, call.alloc, Wraps(kind, head.value), |Wraps(kind, head.value)|);
      WrapsOfEvent(kind, head.value, EntriesOf(kind, call, head.value, w.wrappers), Advance(n, kind, call, w).wrappers);
    }
  }

  /** Every call leaves the wrapper well formed. */
  lemma {:induction false} AfterWellFormed<S(!new)>(n: Native<S>, kind: Kind, s: GuestState<S>, fate: Fate)
    requires WellFormed(n, s)
    ensures WellFormed(n, After(n, kind, s, fate)) && WellFormed(n, Holding(n, kind, s))
  {
  }

  /** Once its head is kept, a call does what it would have done, unless the copy fails. */
  lemma {:induction false} HoldingSame<S(!new)>(n: Native<S>, kind: Kind, call: Call, w: World<S>)
    requires WellFormed(n, w.guest) && Head(n, kind, w.guest).Some?
    ensures var held := World(Holding(n, kind, w.guest), w.wrappers);
            && WellFormed(n, held.guest) && FromKept(kind, held.guest) && Head(n, kind, held.guest) == Head(n, kind, w.guest)
            && (Starves(n, kind, w.guest, call.copy)
                || (Advance(n, kind, call, held) == Advance(n, kind, call, w) && OutcomeOf(n, kind, call, held) == OutcomeOf(n, kind, call, w)))
  {
  }

  /** Removes a match: a kept one with this id, and the native in-progress state. */
  function Remove<S>(n: Native<S>, s: GuestState<S>, id: u32): GuestState<S> {
    GuestState(n.remove(s.value, id), if s.kept.Some? && s.kept.value.match_.id == id then None else s.kept)
  }
}
