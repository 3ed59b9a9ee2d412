/** Runs of guest calls: what the host is handed over any schedule of probes and fetches, in
one mode of iteration and across a change of mode. */
module GuestRuns {
  import opened Values
  import opened Wire
  import opened NodeWrappers
  import opened GuestMachine
  import opened GuestQuery

  // ---------------------------------------------------------------- streams

  /** The captures of a match from an ordinal on, one event each. */
  ghost function EventsFrom(m: QMatch, ordinal: nat): (r: seq<Event>)
    ensures |r| == if ordinal <= |m.captures| then |m.captures| - ordinal else 0
    ensures forall i :: 0 <= i < |r| ==> r[i] == Event(m, ordinal + i)
    decreases |m.captures| - ordinal
  {
    if ordinal >= |m.captures| then [] else [Event(m, ordinal)] + EventsFrom(m, ordinal + 1)
  }

  /** The events that one call settles: all that a retained match still owes to capture calls,
  or the head. */
  ghost function Due<S(!new)>(n: Native<S>, kind: Kind, s: GuestState<S>): seq<Event> {
    if !kind.Matching? && Retained(s) then EventsFrom(s.kept.value.match_, s.kept.value.ordinal)
    else if Head(n, kind, s).Some? then [Head(n, kind, s).value]
    else []
  }

  /** What a caller that only makes calls for matches, or only calls for captures, still gets. */
  ghost function StreamOf<S(!new)>(n: Native<S>, kind: Kind, s: GuestState<S>): seq<Event>
    requires Proper(n)
  {
    Due(n, kind, s) + Items(n, kind, Behind(n, kind, s))
  }

  lemma {:induction false} DueHead<S(!new)>(n: Native<S>, kind: Kind, s: GuestState<S>)
    requires WellFormed(n, s)
    ensures Head(n, kind, s).None? <==> Due(n, kind, s) == []
    ensures Head(n, kind, s).Some? ==> Due(n, kind, s)[0] == Head(n, kind, s).value
    ensures Head(n, kind, s).None? ==> StreamOf(n, kind, s) == []
  {
  }

  /** With nothing kept that answers it, a call is about what the native cursor yields. */
  lemma {:induction false} StreamUnkept<S(!new)>(n: Native<S>, kind: Kind, s: GuestState<S>)
    requires Proper(n) && !FromKept(kind, s)
    ensures StreamOf(n, kind, s) == Items(n, kind, s.value)
  {
  }

  // ---------------------------------------------------------------- one call

  /** What one call takes off its stream: an event handed over, and events that nobody gets. */
  datatype Step = Step(delivered: Option<Event>, missed: seq<Event>) {
    function Taken(): seq<Event> {
      (if delivered.Some? then [delivered.value] else []) + missed
    }
  }

  /** A fetch hands its head over, and a whole-match fetch drops what else was due; a call that
  runs out of memory drops all that was due. */
  ghost function StepFor(kind: Kind, fate: Fate, due: seq<Event>): Step {
    if due == [] || !Takes(fate) then Step(None, [])
    else if fate == Wrote(Fetched) then Step(Some(due[0]), if kind.Whole? then due[1..] else [])
    else Step(None, due)
  }

  ghost function StepOf<S(!new)>(n: Native<S>, kind: Kind, call: Call, w: World<S>): Step {
    StepFor(kind, FateOf(n, kind, call, w.guest, w.wrappers.Keys), Due(n, kind, w.guest))
  }

  /** What a call leaves of what was due. */
  ghost function StillDue(kind: Kind, fate: Fate, due: seq<Event>): seq<Event> {
    if Keeps(fate) || due == [] then due
    else if kind.Capturing? && fate == Wrote(Fetched) then due[1..]
    else []
  }

  lemma {:induction false} TakenAndLeft(kind: Kind, fate: Fate, due: seq<Event>, later: seq<Event>)
    requires (fate.Nothing? <==> due == []) && (kind.Matching? ==> |due| <= 1)
    ensures due + later == StepFor(kind, fate, due).Taken() + (StillDue(kind, fate, due) + later)
  {
    var step, left := StepFor(kind, fate, due), StillDue(kind, fate, due);
    assert fate.Wrote? ==> fate.wrap.Fetched? || fate.wrap.Dry? || fate.wrap.Cut?;
    if fate == Wrote(Fetched) {
      assert due == [due[0]] + due[1..];
      assert step.Taken() == (if kind.Whole? then due else [due[0]]);
    } else {
      assert step.Taken() == (if Takes(fate) then due else []);
    }
    assert due == step.Taken() + left;
    SameAppended(due, step.Taken(), left, later);
  }

  lemma {:induction false} SameAppended(whole: seq<Event>, front: seq<Event>, back: seq<Event>, later: seq<Event>)
    requires whole == front + back
    ensures whole + later == front + (back + later)
  {
  }

  lemma {:induction false} StreamAfter<S(!new)>(n: Native<S>, kind: Kind, s: GuestState<S>, fate: Fate)
    requires WellFormed(n, s) && (fate.Nothing? <==> Head(n, kind, s).None?)
    ensures StreamOf(n, kind, After(n, kind, s, fate)) == StillDue(kind, fate, Due(n, kind, s)) + Items(n, kind, Behind(n, kind, s))
  {
    DueHead(n, kind, s);
    if Keeps(fate) {
      HeldStream(n, kind, s);
    } else if After(n, kind, s, fate).kept.Some? {
      assert Due(n, kind, s)[1..] == EventsFrom(s.kept.value.match_, s.kept.value.ordinal + 1);
    } else {
      StreamUnkept(n, kind, After(n, kind, s, fate));
      assert StillDue(kind, fate, Due(n, kind, s)) == [];
    }
  }

  /** Nothing lost, nothing doubled: what a call takes and what is left are the stream. */
  lemma {:induction false} CallAccounts<S(!new)>(n: Native<S>, kind: Kind, call: Call, w: World<S>)
    requires WellFormed(n, w.guest)
    ensures StreamOf(n, kind, w.guest) == StepOf(n, kind, call, w).Taken() + StreamOf(n, kind, Advance(n, kind, call, w).guest)
    ensures WellFormed(n, Advance(n, kind, call, w).guest)
  {
    var fate := FateOf(n, kind, call, w.guest, w.wrappers.Keys);
    AfterWellFormed(n, kind, w.guest, fate);
    DueHead(n, kind, w.guest);
    StreamAfter(n, kind, w.guest, fate);
    TakenAndLeft(kind, fate, Due(n, kind, w.guest), Items(n, kind, Behind(n, kind, w.guest)));
  }

  lemma {:induction false} HeldStream<S(!new)>(n: Native<S>, kind: Kind, s: GuestState<S>)
    requires WellFormed(n, s) && Head(n, kind, s).Some?
    ensures StreamOf(n, kind, Holding(n, kind, s)) == StreamOf(n, kind, s)
  {
  }

  /** A call hands its head over exactly when there is one, its list is copied, the buffer is
  long enough and accepted, and every wrapper is made. */
  lemma {:induction false} DeliversIff<S(!new)>(n: Native<S>, kind: Kind, call: Call, w: World<S>)
    requires WellFormed(n, w.guest)
    ensures StepOf(n, kind, call, w).delivered ==
              var head := Head(n, kind, w.guest);
              if head.Some? && !Starves(n, kind, w.guest, call.copy) && call.capacity >= Size(kind, head.value) && call.ranged
                 && WrapFate(|Wraps(kind, head.value)|, call.alloc, w.wrappers.Keys, call.stop).Fetched?
              then head else None
  {
    DueHead(n, kind, w.guest);
  }

  /** What a call has to fail in for its stream to lose something: the list cannot be copied,
  or a wrapper cannot be made; or a whole-match fetch meets a match with later captures. */
  predicate Loses<S>(n: Native<S>, kind: Kind, call: Call, w: World<S>) {
    && Head(n, kind, w.guest).Some?
    && (|| Starves(n, kind, w.guest, call.copy)
        || FateOf(n, kind, call, w.guest, w.wrappers.Keys) == Wrote(Dry)
        || (FateOf(n, kind, call, w.guest, w.wrappers.Keys) == Wrote(Fetched) && DropsLater(kind, w.guest)))
  }

  /** A whole-match call meets a retained match that owes more than one capture. */
  predicate DropsLater<S>(kind: Kind, s: GuestState<S>) {
    kind.Whole? && Retained(s) && s.kept.value.ordinal + 1 < |s.kept.value.match_.captures|
  }

  /** A call makes the stream lose something exactly then. */
  lemma {:induction false} MissesIff<S(!new)>(n: Native<S>, kind: Kind, call: Call, w: World<S>)
    requires WellFormed(n, w.guest)
    ensures StepOf(n, kind, call, w).missed != [] <==> Loses(n, kind, call, w)
    ensures Loses(n, kind, call, w) ==>
              || !call.copy.Copies?
              || !GrantsAll(call.alloc, w.wrappers.Keys, |Wraps(kind, Head(n, kind, w.guest).value)|)
              || DropsLater(kind, w.guest)
  {
    DueHead(n, kind, w.guest);
  }

  /** A whole-match fetch keeps the rest of the stream if and only if no later capture of a
  retained match was due. */
  lemma {:induction false} WholeFetchKeepsRestIff<S(!new)>(n: Native<S>, call: Call, w: World<S>)
    requires WellFormed(n, w.guest) && StepOf(n, Whole, call, w).delivered.Some?
    ensures StreamOf(n, Whole, w.guest) == [StepOf(n, Whole, call, w).delivered.value] + StreamOf(n, Whole, Advance(n, Whole, call, w).guest)
       <==> !DropsLater(Whole, w.guest)
  {
    var step, left := StepOf(n, Whole, call, w), StreamOf(n, Whole, Advance(n, Whole, call, w).guest);
    CallAccounts(n, Whole, call, w);
    MissesIff(n, Whole, call, w);
    assert FateOf(n, Whole, call, w.guest, w.wrappers.Keys) == Wrote(Fetched) && !Starves(n, Whole, w.guest, call.copy);
    DueHead(n, Whole, w.guest);
    NothingDropped(step.delivered.value, step.missed, left);
  }

  lemma {:induction false} NothingDropped(e: Event, missed: seq<Event>, left: seq<Event>)
    ensures [e] + missed + left == [e] + left <==> missed == []
  {
    assert |[e] + missed + left| == 1 + |missed| + |left|;
    if missed == [] {
      assert [e] + missed == [e];
    }
  }

  /** Wrappers that a call makes are new, and the earlier ones stay. */
  lemma {:induction false} CallGrows<S(!new)>(n: Native<S>, kind: Kind, call: Call, w: World<S>)
    ensures var e, fate := Head(n, kind, w.guest), FateOf(n, kind, call, w.guest, w.wrappers.Keys);
            var made := if e.Some? then MadeBy(kind, call, e.value, fate) else 0;
            && (e.Some? ==> GrantsAll(call.alloc, w.wrappers.Keys, made))
            && Extends(w.wrappers, Advance(n, kind, call, w).wrappers)
            && Advance(n, kind, call, w).wrappers.Keys == LiveAfter(call.alloc, w.wrappers.Keys, made)
  {
    var head, fate := Head(n, kind, w.guest), FateOf(n, kind, call, w.guest, w.wrappers.Keys);
    if head.Some? {
      var made := MadeBy(kind, call, head.value, fate);
      assert GrantsAll(call.alloc, w.wrappers.Keys, made);
      Wrapping(w.wrappers, call.alloc, Wraps(kind, head.value), made);
      FilledKeys(w.wrappers, call.alloc, Wraps(kind, head.value), made);
      GrownExtends(w.wrappers, Filled(w.wrappers, call.alloc, Wraps(kind, head.value), made),
                   NodeSet(Handles(w.wrappers, call.alloc, Wraps(kind, head.value), made)));
    }
  }

  /** A call hands bytes out exactly when it hands over an event, and then they are its record. */
  lemma {:induction false} CallShows<S(!new)>(n: Native<S>, kind: Kind, call: Call, w: World<S>)
    requires WellFormed(n, w.guest)
    ensures var step, outcome := StepOf(n, kind, call, w), OutcomeOf(n, kind, call, w);
            && (outcome.record != [] <==> step.delivered.Some?)
            && (step.delivered.Some? ==>
                  Shows(kind, step.delivered.value, outcome.record, EntriesOf(kind, call, step.delivered.value, w.wrappers),
                        Advance(n, kind, call, w).wrappers))
  {
    DueHead(n, kind, w.guest);
    OutcomeShows(n, kind, call, w);
    hide Shows;
  }

  lemma {:induction false} ShowsStays(kind: Kind, e: Event, record: seq<u8>, entries: seq<Entry>, before: map<u32, nat>, after: map<u32, nat>)
    requires Shows(kind, e, record, entries, before) && Extends(before, after)
    ensures Shows(kind, e, record, entries, after)
  {
    OfEventStays(kind, e, entries, before, after);
  }

  // ---------------------------------------------------------------- runs

  datatype Turn = Turn(kind: Kind, call: Call)

  /** The wrapper and the live node wrappers after a run of calls. */
  ghost function Run<S(!new)>(n: Native<S>, turns: seq<Turn>, w: World<S>): World<S> {
    if turns == [] then w else Run(n, turns[1..], Advance(n, turns[0].kind, turns[0].call, w))
  }

  /** What each call takes off its stream. */
  ghost function Log<S(!new)>(n: Native<S>, turns: seq<Turn>, w: World<S>): (log: seq<Step>)
    ensures |log| == |turns|
  {
    if turns == [] then [] else
    [StepOf(n, turns[0].kind, turns[0].call, w)] + Log(n, turns[1..], Advance(n, turns[0].kind, turns[0].call, w))
  }

  /** What each call answers. */
  ghost function Outcomes<S(!new)>(n: Native<S>, turns: seq<Turn>, w: World<S>): (outcomes: seq<Outcome>)
    requires WellFormed(n, w.guest)
    ensures |outcomes| == |turns|
  {
    if turns == [] then [] else
    AfterWellFormed(n, turns[0].kind, w.guest, FateOf(n, turns[0].kind, turns[0].call, w.guest, w.wrappers.Keys));
    [OutcomeOf(n, turns[0].kind, turns[0].call, w)] + Outcomes(n, turns[1..], Advance(n, turns[0].kind, turns[0].call, w))
  }

  /** The state in which each call of a run is made. */
  lemma {:induction false} RunAt<S(!new)>(n: Native<S>, turns: seq<Turn>, w: World<S>, i: nat)
    requires i < |turns| && WellFormed(n, w.guest)
    ensures var at := Run(n, turns[..i], w);
            && WellFormed(n, at.guest) && Log(n, turns, w)[i] == StepOf(n, turns[i].kind, turns[i].call, at)
            && Outcomes(n, turns, w)[i] == OutcomeOf(n, turns[i].kind, turns[i].call, at)
            && Run(n, turns, w) == Run(n, turns[i + 1..], Advance(n, turns[i].kind, turns[i].call, at))
    decreases i
  {
    if i > 0 {
      AfterWellFormed(n, turns[0].kind, w.guest, FateOf(n, turns[0].kind, turns[0].call, w.guest, w.wrappers.Keys));
      RunAt(n, turns[1..], Advance(n, turns[0].kind, turns[0].call, w), i - 1);
      assert turns[..i][1..] == turns[1..][..i - 1];
      assert turns[1..][i..] == turns[i + 1..];
    }
  }

  function Consumed(log: seq<Step>): seq<Event> {
    if log == [] then [] else log[0].Taken() + Consumed(log[1..])
  }

  function Deliveries(log: seq<Step>): seq<Event> {
    if log == [] then [] else
    (if log[0].delivered.Some? then [log[0].delivered.value] else []) + Deliveries(log[1..])
  }

  ghost predicate NoneMissed(log: seq<Step>) {
    forall i :: 0 <= i < |log| ==> log[i].missed == []
  }

  /** The calls are for matches, or all of them for captures, alone or with their matches. */
  ghost predicate OneMode(kind: Kind, turns: seq<Turn>) {
    forall i :: 0 <= i < |turns| ==> (turns[i].kind.Matching? <==> kind.Matching?)
  }

  /** Both kinds of capture calls have one stream. */
  lemma {:induction false} CaptureKinds<S(!new)>(n: Native<S>, v: S)
    requires Proper(n)
    ensures Items(n, Capturing, v) == Items(n, Whole, v)
    decreases n.size(v)
  {
    if n.nextCapture(v).Some? {
      CaptureKinds(n, n.nextCapture(v).value.1);
    }
  }

  lemma {:induction false} ModeStream<S(!new)>(n: Native<S>, kind: Kind, other: Kind, s: GuestState<S>)
    requires Proper(n) && (kind.Matching? <==> other.Matching?)
    ensures StreamOf(n, kind, s) == StreamOf(n, other, s)
  {
    CaptureKinds(n, Behind(n, kind, s));
  }

  /** Over any schedule of probes and fetches in one mode, with buffers of any size and any
  failures, what is handed over, what is missed and what is still to come is the stream, in
  order. */
  lemma {:induction false} RunAccounts<S(!new)>(n: Native<S>, kind: Kind, turns: seq<Turn>, w: World<S>)
    requires WellFormed(n, w.guest) && OneMode(kind, turns)
    ensures StreamOf(n, kind, w.guest) == Consumed(Log(n, turns, w)) + StreamOf(n, kind, Run(n, turns, w).guest)
    ensures WellFormed(n, Run(n, turns, w).guest)
  {
    hide Advance, StepOf, StreamOf;
    if turns != [] {
      var next := Advance(n, turns[0].kind, turns[0].call, w);
      CallAccounts(n, turns[0].kind, turns[0].call, w);
      RunAccounts(n, kind, turns[1..], next);
      ModeStream(n, kind, turns[0].kind, w.guest);
      ModeStream(n, kind, turns[0].kind, next.guest);
    }
  }

  /** Whatever is missed in a run, of any mixture of calls, the call that missed it lost. */
  lemma {:induction false} MissedByFailing<S(!new)>(n: Native<S>, turns: seq<Turn>, w: World<S>, i: nat)
    requires WellFormed(n, w.guest) && i < |turns|
    ensures Log(n, turns, w)[i].missed != [] <==> Loses(n, turns[i].kind, turns[i].call, Run(n, turns[..i], w))
  {
    RunAt(n, turns, w, i);
    MissesIff(n, turns[i].kind, turns[i].call, Run(n, turns[..i], w));
  }

  lemma {:induction false} RunExtends<S(!new)>(n: Native<S>, turns: seq<Turn>, w: World<S>)
    ensures Extends(w.wrappers, Run(n, turns, w).wrappers)
  {
    if turns != [] {
      CallGrows(n, turns[0].kind, turns[0].call, w);
      RunExtends(n, turns[1..], Advance(n, turns[0].kind, turns[0].call, w));
    }
  }

  /** A call of a run hands bytes out exactly when it hands over an event; they are its record,
  and at the end of the run its wrappers still hold what it captures. */
  lemma {:induction false} RunShows<S(!new)>(n: Native<S>, turns: seq<Turn>, w: World<S>, i: nat)
    requires WellFormed(n, w.guest) && i < |turns|
    ensures var step, outcome := Log(n, turns, w)[i], Outcomes(n, turns, w)[i];
            && (outcome.record != [] <==> step.delivered.Some?)
            && (step.delivered.Some? ==>
                  Shows(turns[i].kind, step.delivered.value, outcome.record,
                        EntriesOf(turns[i].kind, turns[i].call, step.delivered.value, Run(n, turns[..i], w).wrappers),
                        Run(n, turns, w).wrappers))
  {
    var at := Run(n, turns[..i], w);
    RunAt(n, turns, w, i);
    CallShows(n, turns[i].kind, turns[i].call, at);
    var step, outcome, next := Log(n, turns, w)[i], Outcomes(n, turns, w)[i], Advance(n, turns[i].kind, turns[i].call, at);
    RunExtends(n, turns[i + 1..], next);
    if step.delivered.Some? {
      ShowsStays(turns[i].kind, step.delivered.value, outcome.record,
                 EntriesOf(turns[i].kind, turns[i].call, step.delivered.value, at.wrappers), next.wrappers, Run(n, turns, w).wrappers);
    }
  }

  // ---------------------------------------------------------------- runs without failures

  /** Nothing fails in a call: the list is copied, the buffer accepted, the guest does not trap,
  and the allocator has room while fewer than `capacity` wrappers are live. */
  ghost predicate Faultless(c: Call, capacity: nat) {
    c.copy.Copies? && c.ranged && c.stop.None? && Roomy(c.alloc, capacity)
  }

  lemma {:induction false} FaultlessFetches(c: Call, capacity: nat, live: set<u32>, need: nat)
    requires Faultless(c, capacity) && |live| + need <= capacity
    ensures WrapFate(need, c.alloc, live, c.stop) == Fetched
    ensures |LiveAfter(c.alloc, live, need)| == |live| + need
  {
    RoomyGrants(c.alloc, capacity, live, need);
  }

  /** Wrappers that handing over events takes. */
  ghost function Need(kind: Kind, s: seq<Event>): nat {
    if s == [] then 0 else |Wraps(kind, s[0])| + Need(kind, s[1..])
  }

  /** The calls are all of one kind and do not fail. */
  ghost predicate AllFaultless(kind: Kind, turns: seq<Turn>, capacity: nat) {
    forall i :: 0 <= i < |turns| ==> turns[i].kind == kind && Faultless(turns[i].call, capacity)
  }

  /** There is room for every wrapper that is still to come, and no whole-match fetch drops
  captures of a retained match. */
  ghost predicate Ready<S(!new)>(n: Native<S>, kind: Kind, w: World<S>, capacity: nat) {
    && WellFormed(n, w.guest) && |w.wrappers.Keys| + Need(kind, StreamOf(n, kind, w.guest)) <= capacity
    && (kind.Whole? ==> !Retained(w.guest))
  }

  function HeadIfFits(kind: Kind, call: Call, head: Option<Event>): Option<Event> {
    if head.Some? && call.capacity >= Size(kind, head.value) then head else None
  }

  function FaultlessFate(kind: Kind, call: Call, head: Option<Event>): Fate {
    if head.None? then Nothing
    else if call.capacity < Size(kind, head.value) then Probed
    else Wrote(Fetched)
  }

  lemma {:induction false} FaultlessFates<S(!new)>(n: Native<S>, kind: Kind, call: Call, w: World<S>, capacity: nat)
    requires Ready(n, kind, w, capacity) && Faultless(call, capacity)
    ensures var head := Head(n, kind, w.guest);
            && FateOf(n, kind, call, w.guest, w.wrappers.Keys) == FaultlessFate(kind, call, head)
            && (head.Some? ==> |LiveAfter(call.alloc, w.wrappers.Keys, |Wraps(kind, head.value)|)| == |w.wrappers.Keys| + |Wraps(kind, head.value)|)
  {
    var head := Head(n, kind, w.guest);
    if head.Some? {
      DueHead(n, kind, w.guest);
      assert StreamOf(n, kind, w.guest)[0] == head.value;
      FaultlessFetches(call, capacity, w.wrappers.Keys, |Wraps(kind, head.value)|);
    }
  }

  lemma {:induction false} WholeRetainsNothing<S(!new)>(n: Native<S>, s: GuestState<S>, fate: Fate)
    requires !Retained(s)
    ensures !Retained(After(n, Whole, s, fate))
  {
  }

  /** Without failures a call hands the head over if and only if its buffer is long enough, and
  otherwise leaves the stream as it is. */
  lemma {:induction false} FaultlessCall<S(!new)>(n: Native<S>, kind: Kind, call: Call, w: World<S>, capacity: nat)
    requires Ready(n, kind, w, capacity) && Faultless(call, capacity)
    ensures var step, stream := StepOf(n, kind, call, w), StreamOf(n, kind, w.guest);
            && step == Step(HeadIfFits(kind, call, Head(n, kind, w.guest)), [])
            && StreamOf(n, kind, Advance(n, kind, call, w).guest) == (if step.delivered.Some? then stream[1..] else stream)
            && (Head(n, kind, w.guest).Some? <==> stream != [])
            && (stream != [] ==> Head(n, kind, w.guest).value == stream[0])
    ensures Ready(n, kind, Advance(n, kind, call, w), capacity)
  {
    var head, fate, due := Head(n, kind, w.guest), FateOf(n, kind, call, w.guest, w.wrappers.Keys), Due(n, kind, w.guest);
    var stream, left := StreamOf(n, kind, w.guest), StreamOf(n, kind, Advance(n, kind, call, w).guest);
    CallAccounts(n, kind, call, w);
    DueHead(n, kind, w.guest);
    FaultlessFates(n, kind, call, w, capacity);
    CallGrows(n, kind, call, w);
    assert kind.Whole? ==> |due| <= 1;
    if kind.Whole? {
      WholeRetainsNothing(n, w.guest, fate);
    }
    StillReady(kind, call, head, due, stream, left, |w.wrappers.Keys|, |Advance(n, kind, call, w).wrappers.Keys|, capacity);
  }

  lemma {:induction false} StillReady(kind: Kind, call: Call, head: Option<Event>, due: seq<Event>, stream: seq<Event>, left: seq<Event>,
                                      before: nat, after: nat, capacity: nat)
    requires (head.None? <==> due == []) && (head.Some? ==> due[0] == head.value) && (head.None? ==> stream == [])
    requires kind.Whole? ==> |due| <= 1
    requires var step := StepFor(kind, FaultlessFate(kind, call, head), due);
             stream == step.Taken() + left
    requires before + Need(kind, stream) <= capacity
    requires after == before + if HeadIfFits(kind, call, head).Some? then |Wraps(kind, head.value)| else 0
    ensures var step := StepFor(kind, FaultlessFate(kind, call, head), due);
            && step == Step(HeadIfFits(kind, call, head), [])
            && left == (if step.delivered.Some? then stream[1..] else stream)
    ensures after + Need(kind, left) <= capacity
  {
    var step := StepFor(kind, FaultlessFate(kind, call, head), due);
    assert step.delivered == HeadIfFits(kind, call, head) && step.missed == [];
    if step.delivered.Some? {
      assert stream == [head.value] + left;
      assert stream[1..] == left;
    }
  }

  /** Without failures a run misses nothing; each call hands the head over if and only if its
  buffer is long enough. */
  lemma {:induction false} FaultlessRun<S(!new)>(n: Native<S>, kind: Kind, turns: seq<Turn>, w: World<S>, capacity: nat)
    requires Ready(n, kind, w, capacity) && AllFaultless(kind, turns, capacity)
    ensures NoneMissed(Log(n, turns, w)) && Ready(n, kind, Run(n, turns, w), capacity)
    ensures StreamOf(n, kind, w.guest) == Deliveries(Log(n, turns, w)) + StreamOf(n, kind, Run(n, turns, w).guest)
    ensures forall i :: 0 <= i < |turns| ==>
              Log(n, turns, w)[i] == Step(HeadIfFits(kind, turns[i].call, Head(n, kind, Run(n, turns[..i], w).guest)), [])
  {
    hide Advance, StepOf, StreamOf, Head, HeadIfFits;
    var log := Log(n, turns, w);
    if turns != [] {
      FaultlessCall(n, kind, turns[0].call, w, capacity);
      var next := Advance(n, kind, turns[0].call, w);
      FaultlessRun(n, kind, turns[1..], next, capacity);
      forall i | 0 <= i < |turns|
        ensures log[i] == Step(HeadIfFits(kind, turns[i].call, Head(n, kind, Run(n, turns[..i], w).guest)), [])
      {
        if i > 0 {
          assert log[i] == Log(n, turns[1..], next)[i - 1];
          assert turns[..i][1..] == turns[1..][..i - 1];
        }
      }
      CallAccounts(n, kind, turns[0].call, w);
    }
  }

  /** Every buffer has room for every record. */
  ghost predicate Ample(kind: Kind, turns: seq<Turn>, stream: seq<Event>) {
    forall i, k :: 0 <= i < |turns| && 0 <= k < |stream| ==> turns[i].call.capacity >= Size(kind, stream[k])
  }

  /** With buffers that are long enough and no failures, a run hands over exactly the leading
  events of the stream, one a call, until there are no more. */
  lemma {:induction false} AmpleRun<S(!new)>(n: Native<S>, kind: Kind, turns: seq<Turn>, w: World<S>, capacity: nat)
    requires Ready(n, kind, w, capacity) && AllFaultless(kind, turns, capacity)
    requires Ample(kind, turns, StreamOf(n, kind, w.guest))
    ensures var stream := StreamOf(n, kind, w.guest);
            var k := if |turns| <= |stream| then |turns| else |stream|;
            Deliveries(Log(n, turns, w)) == stream[..k] && StreamOf(n, kind, Run(n, turns, w).guest) == stream[k..]
  {
    hide Advance, StepOf, StreamOf, Head, Size;
    var stream := StreamOf(n, kind, w.guest);
    if turns != [] {
      var next := Advance(n, kind, turns[0].call, w);
      FaultlessCall(n, kind, turns[0].call, w, capacity);
      var rest := StreamOf(n, kind, next.guest);
      assert stream != [] ==> turns[0].call.capacity >= Size(kind, stream[0]);
      assert Ample(kind, turns[1..], rest) by {
        forall i, k | 0 <= i < |turns[1..]| && 0 <= k < |rest|
          ensures turns[1..][i].call.capacity >= Size(kind, rest[k])
        {
          assert turns[i + 1].call.capacity >= Size(kind, stream[k + 1]);
        }
      }
      AmpleRun(n, kind, turns[1..], next, capacity);
    }
  }

  // ---------------------------------------------------------------- mixing the calls

  /** Changing from matches to captures: the captures of a kept match that were not emitted yet
  come first. */
  lemma {:induction false} FromMatchesToCaptures<S(!new)>(n: Native<S>, s: GuestState<S>)
    requires WellFormed(n, s) && FromKept(Matching, s)
    ensures StreamOf(n, Capturing, s)
         == (if s.kept.value.match_.captures == [] then [] else EventsFrom(s.kept.value.match_, s.kept.value.ordinal)) + Items(n, Capturing, s.value)
  {
    if s.kept.value.match_.captures == [] {
      StreamUnkept(n, Capturing, s);
    }
  }

  /** Changing from captures to matches: a kept match comes as a whole, and a capture kept on
  its own does not come at all. */
  lemma {:induction false} FromCapturesToMatches<S(!new)>(n: Native<S>, s: GuestState<S>)
    requires WellFormed(n, s)
    ensures StreamOf(n, Matching, s)
         == (if FromKept(Matching, s) then [Event(s.kept.value.match_, 0)] else []) + Items(n, Matching, s.value)
  {
    if !FromKept(Matching, s) {
      StreamUnkept(n, Matching, s);
    }
  }

  /** What a probe that runs leaves: its head, kept. */
  lemma {:induction false} ProbeHolds<S(!new)>(n: Native<S>, kind: Kind, call: Call, w: World<S>)
    requires WellFormed(n, w.guest) && call.capacity == 0 && Head(n, kind, w.guest).Some? && !Starves(n, kind, w.guest, call.copy)
    ensures Advance(n, kind, call, w) == World(Holding(n, kind, w.guest), w.wrappers) && WellFormed(n, Holding(n, kind, w.guest))
    ensures OutcomeOf(n, kind, call, w) == Outcome(Some(Size(kind, Head(n, kind, w.guest).value)), [])
  {
    AfterWellFormed(n, kind, w.guest, Probed);
  }

  /** A match probe followed by capture calls: without failures each capture of the probed match
  that was not emitted yet is handed over once, in order, and then the native captures behind
  it. */
  lemma {:induction false} RetainedDrain<S(!new)>(n: Native<S>, probe: Call, turns: seq<Turn>, w: World<S>, capacity: nat)
    requires WellFormed(n, w.guest) && probe.capacity == 0 && Head(n, Matching, w.guest).Some? && !Starves(n, Matching, w.guest, probe.copy)
    requires AllFaultless(Capturing, turns, capacity)
    ensures var m, first := Head(n, Matching, w.guest).value.match_, if FromKept(Matching, w.guest) then w.guest.kept.value.ordinal else 0;
            var stream := (if m.captures == [] then [] else EventsFrom(m, first)) + Items(n, Capturing, Behind(n, Matching, w.guest));
            var probed := Advance(n, Matching, probe, w);
            && StreamOf(n, Capturing, probed.guest) == stream
            && (|w.wrappers.Keys| + Need(Capturing, stream) <= capacity && Ample(Capturing, turns, stream) ==>
                  var k := if |turns| <= |stream| then |turns| else |stream|;
                  && Deliveries(Log(n, turns, probed)) == stream[..k]
                  && StreamOf(n, Capturing, Run(n, turns, probed).guest) == stream[k..])
  {
    var probed := Advance(n, Matching, probe, w);
    ProbeHolds(n, Matching, probe, w);
    FromMatchesToCaptures(n, probed.guest);
    if |w.wrappers.Keys| + Need(Capturing, StreamOf(n, Capturing, probed.guest)) <= capacity
       && Ample(Capturing, turns, StreamOf(n, Capturing, probed.guest)) {
      AmpleRun(n, Capturing, turns, probed, capacity);
    }
  }

  /** A complete match is kept of which `k` captures were emitted, or nothing once all were. */
  ghost predicate Drained<S>(s: GuestState<S>, m: QMatch, v: S, k: nat) {
    && k <= |m.captures|
    && s == GuestState(v, if k < |m.captures| then Some(Kept(m, k, false)) else None)
  }

  /** How many of the calls have room for a compact record. */
  function Fetches(turns: seq<Turn>): nat {
    if turns == [] then 0 else (if turns[0].call.capacity >= 16 then 1 else 0) + Fetches(turns[1..])
  }

  /** The calls are made while the match still owes captures, `due` of them at the start. */
  predicate WhileDue(turns: seq<Turn>, due: nat) {
    turns == [] || Fetches(turns[..|turns| - 1]) < due
  }

  lemma {:induction false} WhileDueLater(turns: seq<Turn>, due: nat)
    requires turns != [] && WhileDue(turns, due)
    ensures due > 0 && Fetches(turns) <= due
    ensures WhileDue(turns[1..], due - if turns[0].call.capacity >= 16 then 1 else 0)
    decreases |turns|
  {
    if |turns| > 1 {
      assert turns[..|turns| - 1][1..] == turns[1..][..|turns| - 2];
      WhileDueLater(turns[1..], due - if turns[0].call.capacity >= 16 then 1 else 0);
    }
  }

  lemma {:induction false} DrainsOne<S(!new)>(n: Native<S>, call: Call, w: World<S>, m: QMatch, v: S, k: nat, capacity: nat)
    requires WellFormed(n, w.guest) && Drained(w.guest, m, v, k) && k < |m.captures|
    requires Faultless(call, capacity) && |w.wrappers.Keys| < capacity
    ensures var next, fetch := Advance(n, Capturing, call, w), if call.capacity >= 16 then 1 else 0;
            && WellFormed(n, next.guest) && Drained(next.guest, m, v, k + fetch) && |next.wrappers.Keys| == |w.wrappers.Keys| + fetch
            && StepOf(n, Capturing, call, w) == Step(if call.capacity >= 16 then Some(Event(m, k)) else None, [])
  {
    FaultlessFetches(call, capacity, w.wrappers.Keys, 1);
    CallGrows(n, Capturing, call, w);
    var fate := FateOf(n, Capturing, call, w.guest, w.wrappers.Keys);
    AfterWellFormed(n, Capturing, w.guest, fate);
    assert fate == if call.capacity >= 16 then Wrote(Fetched) else Probed;
  }

  /** Probes and fetches of the captures of a retained match, while it owes some. */
  lemma {:induction false} DrainsMatch<S(!new)>(n: Native<S>, turns: seq<Turn>, w: World<S>, m: QMatch, v: S, k: nat, capacity: nat)
    requires WellFormed(n, w.guest) && Drained(w.guest, m, v, k) && WhileDue(turns, |m.captures| - k)
    requires AllFaultless(Capturing, turns, capacity) && |w.wrappers.Keys| + |turns| <= capacity
    ensures k + Fetches(turns) <= |m.captures| && Drained(Run(n, turns, w).guest, m, v, k + Fetches(turns))
    ensures Deliveries(Log(n, turns, w)) == EventsFrom(m, k)[..Fetches(turns)]
    ensures |Run(n, turns, w).wrappers.Keys| <= |w.wrappers.Keys| + |turns|
  {
    hide Advance, StepOf, WellFormed, WhileDue, Faultless;
    if turns != [] {
      WhileDueLater(turns, |m.captures| - k);
      DrainsOne(n, turns[0].call, w, m, v, k, capacity);
      DrainsMatch(n, turns[1..], Advance(n, Capturing, turns[0].call, w), m, v, if turns[0].call.capacity >= 16 then k + 1 else k, capacity);
      assert EventsFrom(m, k) == [Event(m, k)] + EventsFrom(m, k + 1);
    }
  }

  /** Some captures of a probed match are fetched one by one, then a match call is made.  While
  captures are due it hands the whole match out, so exactly those already handed over come
  twice; once none is due it hands out the next match, or nothing after the last. */
  lemma {:induction false} MatchCallReplays<S(!new)>(n: Native<S>, turns: seq<Turn>, last: Call, w: World<S>, capacity: nat)
    requires WellFormed(n, w.guest) && Retained(w.guest) && w.guest.kept.value.ordinal == 0
    requires WhileDue(turns, |w.guest.kept.value.match_.captures|) && AllFaultless(Capturing, turns, capacity) && Faultless(last, capacity)
    requires |w.wrappers.Keys| + |turns| + 0xFFFF <= capacity && last.capacity >= 8 + 8 * 0xFFFF
    ensures var m, k, at := w.guest.kept.value.match_, Fetches(turns), Run(n, turns, w);
            var next := if k < |m.captures| then Some(Event(m, 0)) else Head(n, Matching, GuestState(w.guest.value, None));
            && k <= |m.captures| && Deliveries(Log(n, turns, w)) == EventsFrom(m, 0)[..k]
            && WellFormed(n, at.guest) && StepOf(n, Matching, last, at) == Step(next, [])
            && StreamOf(n, Matching, Advance(n, Matching, last, at).guest)
               == if k < |m.captures| then Items(n, Matching, w.guest.value)
                  else if next.Some? then Items(n, Matching, w.guest.value)[1..] else []
  {
    var m, v, k := w.guest.kept.value.match_, w.guest.value, Fetches(turns);
    var at := Run(n, turns, w);
    DrainsMatch(n, turns, w, m, v, 0, capacity);
    RunAccounts(n, Capturing, turns, w);
    var head := Head(n, Matching, at.guest);
    HeadSound(n, Matching, at.guest);
    DeliversIff(n, Matching, last, at);
    MissesIff(n, Matching, last, at);
    CallAccounts(n, Matching, last, at);
    FromCapturesToMatches(n, at.guest);
    if head.Some? {
      FaultlessFetches(last, capacity, at.wrappers.Keys, |head.value.match_.captures|);
    }
  }

  /** After a capture call that was not about a retained match, match calls go on behind it. */
  lemma {:induction false} CaptureProbeGoesOn<S(!new)>(n: Native<S>, probe: Call, w: World<S>)
    requires WellFormed(n, w.guest) && probe.capacity == 0 && !Retained(w.guest)
    ensures var probed := Advance(n, Capturing, probe, w);
            && WellFormed(n, probed.guest) && probed.wrappers == w.wrappers
            && StreamOf(n, Matching, probed.guest) == Items(n, Matching, Behind(n, Capturing, w.guest))
  {
    AfterWellFormed(n, Capturing, w.guest, FateOf(n, Capturing, probe, w.guest, w.wrappers.Keys));
    FromCapturesToMatches(n, Advance(n, Capturing, probe, w).guest);
  }

  /** A capture that a probe kept is never handed out as a match: after the probe match calls
  go on behind it, and without failures hand over every match there. */
  lemma {:induction false} CaptureNeverReplayed<S(!new)>(n: Native<S>, probe: Call, turns: seq<Turn>, w: World<S>, capacity: nat)
    requires WellFormed(n, w.guest) && probe.capacity == 0 && !Retained(w.guest)
    requires AllFaultless(Matching, turns, capacity)
    ensures var stream := Items(n, Matching, Behind(n, Capturing, w.guest));
            var probed := Advance(n, Capturing, probe, w);
            && StreamOf(n, Matching, probed.guest) == stream
            && (|w.wrappers.Keys| + Need(Matching, stream) <= capacity && Ample(Matching, turns, stream) ==>
                  var k := if |turns| <= |stream| then |turns| else |stream|;
                  && Deliveries(Log(n, turns, probed)) == stream[..k]
                  && StreamOf(n, Matching, Run(n, turns, probed).guest) == stream[k..])
  {
    var probed := Advance(n, Capturing, probe, w);
    CaptureProbeGoesOn(n, probe, w);
    hide Advance;
    if |w.wrappers.Keys| + Need(Matching, StreamOf(n, Matching, probed.guest)) <= capacity
       && Ample(Matching, turns, StreamOf(n, Matching, probed.guest)) {
      AmpleRun(n, Matching, turns, probed, capacity);
    }
  }

  // ---------------------------------------------------------------- the wrapper makes these runs

  method Buffer(capacity: nat) returns (out: array?<u8>)
    ensures Capacity(out) == capacity && (out != null ==> fresh(out))
  {
    out := null;
    if capacity > 0 {
      out := new u8[capacity];
    }
  }

  /** One call of any kind. */
  method CallGuest<S(!new)>(w: SWQueryCursor<S>, kind: Kind, out: array?<u8>, call: Call, heap: GuestHeap) returns (reply: Option<nat>)
    requires w.Valid() && heap.blocks >= w.Owned() && call.capacity <= Capacity(out)
    modifies w, heap
    modifies if out == null then {} else {out}
    ensures w.Valid() && heap.blocks - w.Owned() == old(heap.blocks - w.Owned())
    ensures w.Now(heap) == Advance(w.native, kind, call, old(w.Now(heap)))
    ensures Outcome(reply, Written(out, call.capacity, reply)) == OutcomeOf(w.native, kind, call, old(w.Now(heap)))
  {
    match kind {
      case Matching =>
        reply := w.NextMatch(out, call, heap);
      case Capturing =>
        reply := w.NextCapture(out, call, heap);
      case Whole =>
        reply := w.NextCaptureMatch(out, call, heap);
    }
  }

  /** One call of any kind, with a buffer of the given size. */
  method Invoke<S(!new)>(w: SWQueryCursor<S>, turn: Turn, heap: GuestHeap) returns (outcome: Outcome)
    requires w.Valid() && heap.blocks >= w.Owned()
    modifies w, heap
    ensures w.Valid() && heap.blocks - w.Owned() == old(heap.blocks - w.Owned())
    ensures w.Now(heap) == Advance(w.native, turn.kind, turn.call, old(w.Now(heap)))
    ensures outcome == OutcomeOf(w.native, turn.kind, turn.call, old(w.Now(heap)))
  {
    var out := Buffer(turn.call.capacity);
    var reply := CallGuest(w, turn.kind, out, turn.call, heap);
    outcome := Outcome(reply, Written(out, turn.call.capacity, reply));
  }

  /** Any schedule of calls of any kind, each with its failures, runs as the machine does, and
  the wrapper holds a copied list exactly while it keeps one. */
  method RunCalls<S(!new)>(w: SWQueryCursor<S>, turns: seq<Turn>, heap: GuestHeap) returns (outcomes: seq<Outcome>)
    requires w.Valid() && heap.blocks >= w.Owned()
    modifies w, heap
    ensures w.Valid() && heap.blocks - w.Owned() == old(heap.blocks - w.Owned())
    ensures w.Now(heap) == Run(w.native, turns, old(w.Now(heap)))
    ensures outcomes == Outcomes(w.native, turns, old(w.Now(heap)))
    decreases |turns|
  {
    if turns == [] {
      return [];
    }
    var first := Invoke(w, turns[0], heap);
    var later := RunCalls(w, turns[1..], heap);
    outcomes := [first] + later;
  }
}
