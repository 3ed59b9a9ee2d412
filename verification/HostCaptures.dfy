/** Captures on bridges of either kind: read one by one in compact records, or, without a capture
iterator, queued from the matches they belong to. */
module HostCaptures {
  import opened Values
  import opened Wire
  import opened NodeWrappers
  import opened GuestMachine
  import opened GuestRuns
  import opened HostTree
  import opened HostMachine
  import opened HostDrains

  // ---------------------------------------------------------------- compact captures

  /** A query without text predicates. */
  function NoPredicates(): Policy { Policy(m => true, false, false) }

  /** What a compact read takes off its stream: its head, or when memory runs out all that was
  due. */
  ghost function CaptureTaken(ending: Ending, due: seq<Event>): seq<Event> {
    if due == [] then []
    else if ending.Got? || ending.Missed? then [due[0]]
    else if ending.Lost? then due
    else []
  }

  lemma {:induction false} NothingDue<S(!new)>(n: Native<S>, s: GuestState<S>, left: GuestState<S>)
    requires Proper(n) && Head(n, Capturing, s).None? && (left == s || left == GuestState(s.value, None))
    ensures StreamOf(n, Capturing, s) == [] && StreamOf(n, Capturing, left) == []
  {
  }

  /** What a compact read leaves of the guest. */
  lemma {:induction false} CaptureLeaves<S(!new)>(n: Native<S>, ending: Ending, s: GuestState<S>, left: GuestState<S>)
    requires WellFormed(n, s) && LeavesGuest(n, Capturing, ending, s, left)
    requires (ending.Exhausted? ==> Head(n, Capturing, s).None?) && (Head(n, Capturing, s).None? ==> !ending.Takes()) && !ending.Halted?
    ensures StreamOf(n, Capturing, s) == CaptureTaken(ending, Due(n, Capturing, s)) + StreamOf(n, Capturing, left)
  {
    DueHead(n, Capturing, s);
    if Head(n, Capturing, s).None? {
      NothingDue(n, s, left);
    } else if ending.Stalled? {
      HeldStream(n, Capturing, s);
    } else {
      CaptureGone(n, s, if ending.Lost? then Starved else Wrote(Fetched));
    }
    hide StreamOf, Due, Head, Holding, Behind;
  }

  /** A compact call that takes its head away. */
  lemma {:induction false} CaptureGone<S(!new)>(n: Native<S>, s: GuestState<S>, fate: Fate)
    requires WellFormed(n, s) && Head(n, Capturing, s).Some? && (fate.Starved? || fate == Wrote(Fetched))
    ensures Due(n, Capturing, s) != []
    ensures StreamOf(n, Capturing, s)
         == (if fate.Starved? then Due(n, Capturing, s) else [Due(n, Capturing, s)[0]]) + StreamOf(n, Capturing, After(n, Capturing, s, fate))
    ensures fate.Starved? ==> After(n, Capturing, s, fate) == GuestState(Behind(n, Capturing, s), None)
  {
    DueHead(n, Capturing, s);
    StreamAfter(n, Capturing, s, fate);
    GoneAndLeft(fate, Due(n, Capturing, s), Items(n, Capturing, Behind(n, Capturing, s)));
    hide Due, Head, Behind, Items, StillDue;
  }

  lemma {:induction false} GoneAndLeft(fate: Fate, due: seq<Event>, later: seq<Event>)
    requires due != [] && (fate.Starved? || fate == Wrote(Fetched))
    ensures due + later == (if fate.Starved? then due else [due[0]]) + (StillDue(Capturing, fate, due) + later)
  {
    assert due == [due[0]] + due[1..];
    assert [] + later == later;
  }

  /** A compact read that hands its event over: the record's wrapper is registered, live and holds
  the selected capture. */
  lemma {:induction false} CaptureHeld<S(!new)>(n: Native<S>, f: Faults, h: HostState<S>)
    requires WellFormed(n, h.world.guest) && TryOf(n, Capturing, NoPredicates(), f, h).result.Some?
    ensures var t, e := TryOf(n, Capturing, NoPredicates(), f, h), Head(n, Capturing, h.world.guest);
            && e == Some(t.result.value.event) && e.value.InRange() && |t.result.value.entries| == 1
            && HoldsAt(t.result.value.entries[0], e.value.Capture(), t.state.world.wrappers)
            && t.state.nodes == h.nodes + {t.result.value.entries[0].node}
  {
    var g := TryOf(n, Capturing, NoPredicates(), f, h).result.value;
    ReadGrips(n, Capturing, f, h);
    assert g.entries == [] + [g.entries[0]];
    NodeSetGrows([], g.entries[0]);
    hide ReadOf, EndingOf;
  }

  /** Reading a compact capture takes the head of the capture stream, whatever was pending; what
  else it takes and leaves to nobody its ending says, and that has a cause among its own calls. */
  lemma {:induction false} CaptureServes<S(!new)>(n: Native<S>, f: Faults, h: HostState<S>)
    requires WellFormed(n, h.world.guest) && h.nodes <= h.world.wrappers.Keys
    ensures var t, due := TryOf(n, Capturing, NoPredicates(), f, h), Due(n, Capturing, h.world.guest);
            && !t.refused && t.ending == EndingOf(n, Capturing, f, h)
            && Cause(Capturing, f, h.world.wrappers.Keys, 1, t.ending)
            && StreamOf(n, Capturing, h.world.guest) == CaptureTaken(t.ending, due) + StreamOf(n, Capturing, t.state.world.guest)
            && HostMoves(h, t.state) && (Leaked(h, t.state) == {} <==> t.ending.Leak() == 0)
            && (t.result.Some? <==> t.ending.Got?)
            && (t.result.Some? ==> due != [] && t.result.value.event == due[0]
                                   && Shown(Capturing, NoPredicates(), t.result.value, t.state.world.wrappers, t.state.nodes)
                                   && HoldsAt(t.result.value.entries[0], due[0].Capture(), t.state.world.wrappers))
            && (t.ending.Exhausted? ==> StreamOf(n, Capturing, h.world.guest) == [])
  {
    var t := TryOf(n, Capturing, NoPredicates(), f, h);
    CaptureEnds(n, f, h);
    if t.result.Some? {
      CaptureHeld(n, f, h);
    }
    TrySettles(n, Capturing, NoPredicates(), f, h);
    EndingCaused(n, Capturing, f, h);
    DueHead(n, Capturing, h.world.guest);
    HeadSound(n, Capturing, h.world.guest);
    CaptureLeaves(n, t.ending, h.world.guest, t.state.world.guest);
    hide TryOf, EndingOf, Head, HostMoves, Leaked, LeavesGuest, StreamOf, Due, Shown, NoPredicates;
  }

  lemma {:induction false} CaptureEnds<S(!new)>(n: Native<S>, f: Faults, h: HostState<S>)
    requires WellFormed(n, h.world.guest)
    ensures var t := TryOf(n, Capturing, NoPredicates(), f, h);
            && !t.refused && t.ending == EndingOf(n, Capturing, f, h)
            && LeavesGuest(n, Capturing, t.ending, h.world.guest, t.state.world.guest)
            && (Head(n, Capturing, h.world.guest).None? ==> t.ending.Leak() == 0)
  {
    ReadEnds(n, Capturing, f, h);
    hide ReadOf, LeavesGuest, Freed, Filled, Handles;
  }

  // ---------------------------------------------------------------- flattened captures

  function HasCaptures(accept: QMatch -> bool): QMatch -> bool {
    m => accept(m) && m.captures != []
  }

  /** Matches without captures have nothing to queue. */
  function WithCaptures(p: Policy): Policy {
    p.(accept := HasCaptures(p.accept))
  }

  /** A queued capture: the event it stands for and its record entry. */
  datatype Queued = Queued(event: Event, entry: Entry)

  /** Every capture of a match that was read. */
  function QueueOf(g: Grip): (q: seq<Queued>)
    ensures |q| == |g.entries|
  {
    seq(|g.entries|, i requires 0 <= i < |g.entries| => Queued(Event(g.event.match_, i), g.entries[i]))
  }

  /** The host's state and the captures it has queued. */
  datatype FlatState<S> = FlatState(host: HostState<S>, queue: seq<Queued>)

  datatype Flat<S> = Flat(state: FlatState<S>, result: Option<Queued>, search: Option<Search<S>>)

  /** The next capture: from the queue, or from the next accepted match that has captures. */
  ghost function FlatOf<S(!new)>(n: Native<S>, p: Policy, faults: nat -> Faults, f: FlatState<S>): Flat<S>
    requires WellFormed(n, f.host.world.guest)
  {
    if f.queue != [] then Flat(f.(queue := f.queue[1..]), Some(f.queue[0]), None)
    else
      var s := SearchOf(n, Matching, WithCaptures(p), faults, 0, f.host);
      var queue := if s.trial.result.Some? then QueueOf(s.trial.result.value) else [];
      if queue == [] then Flat(FlatState(s.trial.state, []), None, Some(s))
      else Flat(FlatState(s.trial.state, queue[1..]), Some(queue[0]), Some(s))
  }

  /** The captures of matches, one after the other. */
  ghost function Flattened(s: seq<Event>): seq<Event> {
    if s == [] then [] else EventsFrom(s[0].match_, 0) + Flattened(s[1..])
  }

  lemma {:induction false} FlattenedOne(e: Event, rest: seq<Event>)
    ensures Flattened([e] + rest) == EventsFrom(e.match_, 0) + Flattened(rest)
  {
    assert ([e] + rest)[1..] == rest;
  }

  function QueuedEvents(queue: seq<Queued>): (events: seq<Event>)
    ensures |events| == |queue|
  {
    seq(|queue|, i requires 0 <= i < |queue| => queue[i].event)
  }

  /** What a caller still gets: what is queued, and then the captures of the matches to come that
  the text predicates accept. */
  ghost function FlatDue<S(!new)>(n: Native<S>, p: Policy, f: FlatState<S>): seq<Event>
    requires Proper(n)
  {
    QueuedEvents(f.queue) + Flattened(Accepted(p.accept, StreamOf(n, Matching, f.host.world.guest)))
  }

  /** Matches without captures add nothing to it. */
  lemma {:induction false} FlattenedSkips(p: Policy, s: seq<Event>)
    ensures Flattened(Accepted(WithCaptures(p).accept, s)) == Flattened(Accepted(p.accept, s))
  {
    if s != [] {
      var e, rest := s[0], Accepted(p.accept, s[1..]);
      FlattenedSkips(p, s[1..]);
      FlattenedOne(e, rest);
      FlattenedOne(e, Accepted(WithCaptures(p).accept, s[1..]));
      assert e.match_.captures == [] ==> EventsFrom(e.match_, 0) == [];
      assert [] + rest == rest && [] + Accepted(WithCaptures(p).accept, s[1..]) == Accepted(WithCaptures(p).accept, s[1..]);
    }
  }

  /** The same by what the host's searches find. */
  ghost function FlatAhead<S(!new)>(n: Native<S>, p: Policy, f: FlatState<S>): seq<Event>
    requires Proper(n)
  {
    QueuedEvents(f.queue) + Flattened(FilteredOf(n, Matching, WithCaptures(p), f.host.world.guest))
  }

  lemma {:induction false} FlatDueAhead<S(!new)>(n: Native<S>, p: Policy, f: FlatState<S>)
    requires WellFormed(n, f.host.world.guest)
    ensures FlatDue(n, p, f) == FlatAhead(n, p, f)
  {
    MatchesFiltered(n, WithCaptures(p), f.host.world.guest);
    FlattenedSkips(p, StreamOf(n, Matching, f.host.world.guest));
  }

  /** Each queued capture is a registered live wrapper of its event's node. */
  ghost predicate QueueOk<S>(f: FlatState<S>) {
    forall k :: 0 <= k < |f.queue| ==> IsQueued(f.queue[k], f.host.world.wrappers, f.host.nodes)
  }

  predicate IsQueued(q: Queued, wrappers: map<u32, nat>, nodes: set<u32>) {
    && q.event.InRange() && HoldsAt(q.entry, q.event.Capture(), wrappers) && q.entry.node in nodes
  }

  lemma {:induction false} QueueShown(p: Policy, g: Grip, wrappers: map<u32, nat>, nodes: set<u32>)
    requires Shown(Matching, WithCaptures(p), g, wrappers, nodes)
    ensures QueueOf(g) != [] && QueuedEvents(QueueOf(g)) == EventsFrom(g.event.match_, 0)
    ensures forall k :: 0 <= k < |QueueOf(g)| ==> IsQueued(QueueOf(g)[k], wrappers, nodes)
  {
    forall k | 0 <= k < |QueueOf(g)|
      ensures IsQueued(QueueOf(g)[k], wrappers, nodes)
    {
      assert HoldsAt(g.entries[k], Wraps(Matching, g.event)[k], wrappers);
      assert g.entries[k] in g.entries && g.entries[k].node in NodeSet(g.entries);
    }
  }

  /** What a call comes to: the head of the flattened stream, registered; or the search for the
  next match ended, at the end of the stream or by a failure that says what is left. */
  ghost predicate FlatServesOf<S(!new)>(n: Native<S>, p: Policy, f: FlatState<S>, r: Flat<S>, due: seq<Event>, left: seq<Event>)
    requires Proper(n)
  {
    && QueueOk(r.state) && HostMoves(f.host, r.state.host)
    && (r.search.Some? <==> f.queue == [])
    && match r.result
       case Some(q) =>
         && due == [q.event] + left
         && IsQueued(q, r.state.host.world.wrappers, r.state.host.nodes)
       case None =>
         && r.search.Some? && r.state.queue == []
         && due == Flattened(StillOwed(n, Matching, WithCaptures(p), r.search.value))
         && Serves(n, Matching, WithCaptures(p), StillOwed(n, Matching, WithCaptures(p), r.search.value), r.search.value)
         && !r.search.value.trial.ending.Got?
  }

  ghost predicate FlatServes<S(!new)>(n: Native<S>, p: Policy, f: FlatState<S>, r: Flat<S>)
    requires Proper(n)
  {
    FlatServesOf(n, p, f, r, FlatDue(n, p, f), FlatDue(n, p, r.state))
  }

  lemma {:induction false} FlatWellFormed<S(!new)>(n: Native<S>, p: Policy, faults: nat -> Faults, f: FlatState<S>)
    requires WellFormed(n, f.host.world.guest)
    ensures WellFormed(n, FlatOf(n, p, faults, f).state.host.world.guest)
  {
    SearchShrinks(n, Matching, WithCaptures(p), faults, 0, f.host);
    hide SearchOf, WellFormed;
  }

  lemma {:induction false} FlatCallServes<S(!new)>(n: Native<S>, p: Policy, faults: nat -> Faults, f: FlatState<S>)
    requires WellFormed(n, f.host.world.guest) && f.host.nodes <= f.host.world.wrappers.Keys && QueueOk(f)
    ensures FlatServes(n, p, f, FlatOf(n, p, faults, f))
  {
    FlatCallAhead(n, p, faults, f);
    FlatWellFormed(n, p, faults, f);
    FlatDueAhead(n, p, f);
    FlatDueAhead(n, p, FlatOf(n, p, faults, f).state);
    hide FlatOf, FlatDue, FlatAhead, FlatServesOf;
  }

  lemma {:induction false} FlatCallAhead<S(!new)>(n: Native<S>, p: Policy, faults: nat -> Faults, f: FlatState<S>)
    requires WellFormed(n, f.host.world.guest) && f.host.nodes <= f.host.world.wrappers.Keys && QueueOk(f)
    ensures var r := FlatOf(n, p, faults, f);
            FlatServesOf(n, p, f, r, FlatAhead(n, p, f), FlatAhead(n, p, r.state))
  {
    if f.queue != [] {
      QueueServes(n, p, faults, f);
    } else {
      var s := SearchOf(n, Matching, WithCaptures(p), faults, 0, f.host);
      SearchServes(n, Matching, WithCaptures(p), faults, 0, f.host);
      assert QueuedEvents(f.queue) == [];
      if s.trial.result.Some? {
        FoundServes(n, p, faults, f, s);
      }
      hide SearchOf, FilteredOf, HostMoves, Leaked, Tidy, PassedDeleted, Shown, Owed, Cause, WithCaptures, Flattened;
    }
  }

  /** The head of the queue comes first, and the rest stays queued. */
  lemma {:induction false} QueueHead(queue: seq<Queued>, later: seq<Event>, wrappers: map<u32, nat>, nodes: set<u32>)
    requires queue != [] && forall k :: 0 <= k < |queue| ==> IsQueued(queue[k], wrappers, nodes)
    ensures QueuedEvents(queue) + later == [queue[0].event] + (QueuedEvents(queue[1..]) + later)
    ensures forall k :: 0 <= k < |queue[1..]| ==> IsQueued(queue[1..][k], wrappers, nodes)
  {
    assert QueuedEvents(queue) == [queue[0].event] + QueuedEvents(queue[1..]);
    forall k | 0 <= k < |queue[1..]|
      ensures IsQueued(queue[1..][k], wrappers, nodes)
    {
      assert IsQueued(queue[k + 1], wrappers, nodes);
    }
  }

  lemma {:induction false} QueueServes<S(!new)>(n: Native<S>, p: Policy, faults: nat -> Faults, f: FlatState<S>)
    requires WellFormed(n, f.host.world.guest) && QueueOk(f) && f.queue != []
    ensures var r := FlatOf(n, p, faults, f);
            FlatServesOf(n, p, f, r, FlatAhead(n, p, f), FlatAhead(n, p, r.state))
  {
    QueueHead(f.queue, Flattened(FilteredOf(n, Matching, WithCaptures(p), f.host.world.guest)), f.host.world.wrappers, f.host.nodes);
  }

  lemma {:induction false} FoundServes<S(!new)>(n: Native<S>, p: Policy, faults: nat -> Faults, f: FlatState<S>, s: Search<S>)
    requires WellFormed(n, f.host.world.guest) && f.queue == [] && s == SearchOf(n, Matching, WithCaptures(p), faults, 0, f.host)
    requires s.trial.result.Some? && HostMoves(f.host, s.trial.state)
    requires Serves(n, Matching, WithCaptures(p), FilteredOf(n, Matching, WithCaptures(p), f.host.world.guest), s)
    ensures var r := FlatOf(n, p, faults, f);
            FlatServesOf(n, p, f, r, FlatAhead(n, p, f), FlatAhead(n, p, r.state))
  {
    var g := s.trial.result.value;
    var queue, left := QueueOf(g), FilteredOf(n, Matching, WithCaptures(p), s.trial.state.world.guest);
    QueueShown(p, g, s.trial.state.world.wrappers, s.trial.state.nodes);
    FlattenedOne(g.event, left);
    QueueHead(queue, Flattened(left), s.trial.state.world.wrappers, s.trial.state.nodes);
    assert QueuedEvents(f.queue) + Flattened([g.event] + left) == Flattened([g.event] + left);
    hide SearchOf, FilteredOf, HostMoves, Shown, Owed, Cause, WithCaptures, Flattened, Registered, IsQueued, QueueOf, QueuedEvents, EventsFrom;
  }

  /** Without failures a call finds the head of the flattened stream, or its end. */
  lemma {:induction false} BenignFlat<S(!new)>(n: Native<S>, p: Policy, faults: nat -> Faults, f: FlatState<S>, capacity: nat)
    requires WellFormed(n, f.host.world.guest) && f.host.nodes <= f.host.world.wrappers.Keys && QueueOk(f)
    requires AllBenign(faults, capacity) && RoomAhead(n, Matching, WithCaptures(p), f.host, capacity)
    ensures var r := FlatOf(n, p, faults, f);
            && (r.result.None? ==> FlatDue(n, p, f) == []) && Leaked(f.host, r.state.host) == {}
            && (r.result.Some? ==> RoomAhead(n, Matching, WithCaptures(p), r.state.host, capacity))
  {
    FlatCallServes(n, p, faults, f);
    if f.queue == [] {
      BenignServes(n, Matching, WithCaptures(p), faults, f.host, capacity);
      SearchServes(n, Matching, WithCaptures(p), faults, 0, f.host);
      FlatDueAhead(n, p, f);
      assert QueuedEvents(f.queue) == [] && Flattened([]) == [];
      hide FilteredOf, SearchOf, Owed, HostMoves, Leaked, Shown, Cause, WithCaptures, Flattened, RoomAhead, AllBenign, Passes, FlatServes, QueuedEvents,
           FlatDue;
    } else {
      assert Leaked(f.host, f.host) == {};
    }
  }
}
