/** How executions and `Tree.Close` wait for each other at the lifetime gates.

A gate is a writer-preferring lock: executions hold it shared until their cursor is drained or
closed, and a waiting close keeps new ones out.  An `Exec` takes its gate while it holds the
coordinator, one mutex for all gates. */
module Coordinator {
  import opened Values

  /** How many executions hold the gate, which closes wait for it, and which one holds it. */
  datatype GateSt = GateSt(readers: nat, waiting: set<nat>, writer: Option<nat>)

  /** Where a thread stands in `Exec` or `Tree.Close` on a tree. */
  datatype Pc = Idle | WantPair(t: nat) | WantGate(t: nat) | GotGate(t: nat) | WantWrite(t: nat) | Writing(t: nat)

  datatype State = State(pair: Option<nat>, gates: seq<GateSt>, threads: seq<Pc>)

  /** A thread starts an operation or takes its next step, or some cursor's execution on a tree
  ends: it is drained, canceled or closed, which takes no gate and not the coordinator. */
  datatype Event = StartExec(i: nat, t: nat) | StartClose(i: nat, t: nat) | Proceed(i: nat) | Ends(t: nat)

  function At(s: State, i: nat, pc: Pc): State
    requires i < |s.threads|
  {
    s.(threads := s.threads[i := pc])
  }

  function WithGate(s: State, t: nat, g: GateSt): State
    requires t < |s.gates|
  {
    s.(gates := s.gates[t := g])
  }

  /** The next step of a thread inside an operation, if it is not blocked. */
  function Go(s: State, i: nat): Option<State>
    requires i < |s.threads| && (!s.threads[i].Idle? ==> s.threads[i].t < |s.gates|)
  {
    match s.threads[i]
    case Idle => None
    case WantPair(t) => if s.pair.None? then Some(At(s.(pair := Some(i)), i, WantGate(t))) else None
    case WantGate(t) =>
      if s.gates[t].waiting == {} && s.gates[t].writer.None? then
        Some(At(WithGate(s, t, s.gates[t].(readers := s.gates[t].readers + 1)), i, GotGate(t)))
      else None
    case GotGate(t) => Some(At(s.(pair := None), i, Idle))
    case WantWrite(t) =>
      if s.gates[t].readers == 0 && s.gates[t].writer.None? then
        Some(At(WithGate(s, t, s.gates[t].(writer := Some(i), waiting := s.gates[t].waiting - {i})), i, Writing(t)))
      else None
    case Writing(t) => Some(At(WithGate(s, t, s.gates[t].(writer := None)), i, Idle))
  }

  function Step(s: State, e: Event): Option<State> {
    match e
    case StartExec(i, t) => if i < |s.threads| && s.threads[i].Idle? && t < |s.gates| then Some(At(s, i, WantPair(t))) else None
    case StartClose(i, t) =>
      if i < |s.threads| && s.threads[i].Idle? && t < |s.gates| then
        Some(At(WithGate(s, t, s.gates[t].(waiting := s.gates[t].waiting + {i})), i, WantWrite(t)))
      else None
    case Proceed(i) => if i < |s.threads| && (!s.threads[i].Idle? ==> s.threads[i].t < |s.gates|) then Go(s, i) else None
    case Ends(t) =>
      if t < |s.gates| && s.gates[t].readers > 0 then Some(WithGate(s, t, s.gates[t].(readers := s.gates[t].readers - 1))) else None
  }

  function Run(s: State, events: seq<Event>): Option<State>
    decreases |events|
  {
    if events == [] then Some(s)
    else match Step(s, events[0])
         case None => None
         case Some(next) => Run(next, events[1..])
  }

  lemma {:induction false} RunAppend(s: State, first: seq<Event>, more: seq<Event>)
    requires Run(s, first).Some?
    ensures Run(s, first + more) == Run(Run(s, first).value, more)
    decreases |first|
  {
    if first == [] {
      assert first + more == more;
    } else {
      assert (first + more)[1..] == first[1..] + more;
      RunAppend(Step(s, first[0]).value, first[1..], more);
    }
  }

  // ---------------------------------------------------------------- invariant

  /** A thread's place agrees with the locks. */
  predicate Placed(s: State, i: nat)
    requires i < |s.threads|
  {
    && (!s.threads[i].Idle? ==> s.threads[i].t < |s.gates|)
    && (s.pair == Some(i) <==> s.threads[i].WantGate? || s.threads[i].GotGate?)
    && (s.threads[i].WantWrite? ==> i in s.gates[s.threads[i].t].waiting)
    && (s.threads[i].Writing? ==> s.gates[s.threads[i].t].writer == Some(i))
  }

  /** A gate's waiting and writing closes are threads that stand there. */
  ghost predicate Manned(s: State, t: nat)
    requires t < |s.gates|
  {
    && (forall i :: i in s.gates[t].waiting ==> i < |s.threads| && s.threads[i] == WantWrite(t))
    && (s.gates[t].writer.Some? ==>
          s.gates[t].readers == 0 && s.gates[t].writer.value < |s.threads| && s.threads[s.gates[t].writer.value] == Writing(t))
  }

  ghost predicate Sound(s: State) {
    && (s.pair.Some? ==> s.pair.value < |s.threads|)
    && (forall i :: 0 <= i < |s.threads| ==> Placed(s, i))
    && (forall t :: 0 <= t < |s.gates| ==> Manned(s, t))
  }

  lemma {:induction false} StepPlaces(s: State, e: Event, i: nat)
    requires Sound(s) && Step(s, e).Some? && i < |s.threads|
    ensures Placed(Step(s, e).value, i)
  {
    assert Placed(s, i);
    if s.pair.Some? {
      assert Placed(s, s.pair.value);
    }
    if e.Proceed? {
      assert Placed(s, e.i);
    }
  }

  lemma {:induction false} StepMans(s: State, e: Event, t: nat)
    requires Sound(s) && Step(s, e).Some? && t < |s.gates|
    ensures Manned(Step(s, e).value, t)
  {
    assert Manned(s, t);
    if e.Proceed? {
      assert Placed(s, e.i);
    }
  }

  /** Every step keeps threads and locks in agreement. */
  lemma {:induction false} StepSound(s: State, e: Event)
    requires Sound(s) && Step(s, e).Some?
    ensures Sound(Step(s, e).value)
  {
    var s' := Step(s, e).value;
    assert |s'.threads| == |s.threads| && |s'.gates| == |s.gates|;
    forall i | 0 <= i < |s'.threads|
      ensures Placed(s', i)
    {
      StepPlaces(s, e, i);
    }
    forall t | 0 <= t < |s'.gates|
      ensures Manned(s', t)
    {
      StepMans(s, e, t);
    }
    hide Step, Placed, Manned;
  }

  // ---------------------------------------------------------------- a jam

  /** An `Exec` holds the coordinator and waits for a gate that a close waits for too, while
  executions hold it. */
  predicate Jam(s: State, i: nat, t: nat) {
    && s.pair == Some(i) && i < |s.threads| && t < |s.gates| && s.threads[i] == WantGate(t)
    && s.gates[t].readers > 0 && s.gates[t].waiting != {}
  }

  function EndsOf(events: seq<Event>, t: nat): nat {
    if events == [] then 0 else (if events[0] == Ends(t) then 1 else 0) + EndsOf(events[1..], t)
  }

  /** No thread that waits for the coordinator has got it. */
  ghost predicate StillWaiting(s: State, after: State) {
    && |after.threads| == |s.threads| && |after.gates| == |s.gates|
    && (forall j :: 0 <= j < |s.threads| && s.threads[j].WantPair? ==> after.threads[j] == s.threads[j])
    && (forall u :: 0 <= u < |s.gates| ==> after.gates[u].readers <= s.gates[u].readers)
  }

  lemma {:induction false} JamStep(s: State, e: Event, i: nat, t: nat)
    requires Sound(s) && Jam(s, i, t) && Step(s, e).Some? && (e == Ends(t) ==> s.gates[t].readers > 1)
    ensures var s' := Step(s, e).value;
            && Jam(s', i, t) && StillWaiting(s, s')
            && s'.gates[t].readers == s.gates[t].readers - (if e == Ends(t) then 1 else 0)
  {
    assert Placed(s, i) && Manned(s, t);
    if e.Proceed? {
      assert Placed(s, e.i);
    }
  }

  /** In a jam on any tree no execution starts on any tree, whatever else happens, until as many
  executions on that tree have ended as hold its gate. */
  lemma {:induction false} JamStays(s: State, events: seq<Event>, i: nat, t: nat)
    requires Sound(s) && Jam(s, i, t) && Run(s, events).Some? && EndsOf(events, t) < s.gates[t].readers
    ensures Jam(Run(s, events).value, i, t) && StillWaiting(s, Run(s, events).value)
    decreases |events|
  {
    if events != [] {
      assert events[0] == Ends(t) ==> EndsOf(events, t) >= 1;
      JamStep(s, events[0], i, t);
      StepSound(s, events[0]);
      JamStays(Step(s, events[0]).value, events[1..], i, t);
    }
  }

  // ---------------------------------------------------------------- out of a jam

  /** Only steps of threads that are already inside their operations. */
  predicate OnlyProceeds(events: seq<Event>) {
    forall k :: 0 <= k < |events| ==> events[k].Proceed?
  }

  lemma {:induction false} NoEnds(events: seq<Event>, t: nat)
    requires OnlyProceeds(events)
    ensures EndsOf(events, t) == 0
  {
    if events != [] {
      NoEnds(events[1..], t);
    }
  }

  /** The thread holds the coordinator and waits for the gate, or just got it. */
  predicate InGate(s: State, i: nat, t: nat) {
    i < |s.threads| && t < |s.gates| && s.pair == Some(i) && (s.threads[i] == WantGate(t) || s.threads[i] == GotGate(t))
  }

  /** Without a jam the holder of the coordinator gets its gate and gives the coordinator back,
  once the closes before it are through; nobody has to end an execution for that. */
  lemma {:induction false} Clears(s: State, i: nat, t: nat) returns (events: seq<Event>)
    requires Sound(s) && InGate(s, i, t) && !Jam(s, i, t)
    ensures OnlyProceeds(events) && Run(s, events).Some? && Run(s, events).value.pair.None?
    decreases if s.threads[i].GotGate? then 0 else 1, |s.gates[t].waiting|, s.gates[t].writer.Some?
  {
    assert Placed(s, i);
    assert Manned(s, t);
    var j := if s.threads[i].GotGate? then i
             else if s.gates[t].writer.Some? then s.gates[t].writer.value
             else if s.gates[t].waiting != {} then var k :| k in s.gates[t].waiting; k
             else i;
    assert Placed(s, j);
    var next := Step(s, Proceed(j)).value;
    StepSound(s, Proceed(j));
    if s.threads[i].GotGate? {
      events := [Proceed(j)];
      assert Run(next, events[1..]) == Some(next);
    } else {
      if s.gates[t].waiting != {} && s.gates[t].writer.None? {
        assert next.gates[t].waiting < s.gates[t].waiting;
        Fewer(next.gates[t].waiting, s.gates[t].waiting, j);
      }
      var rest := Clears(next, i, t);
      events := [Proceed(j)] + rest;
      assert events[1..] == rest;
    }
  }

  lemma {:induction false} Fewer(s: set<nat>, t: set<nat>, x: nat)
    requires x in t && s == t - {x}
    ensures |s| < |t|
  {
  }

  /** The coordinator can come free by itself if and only if there is no jam. */
  lemma {:induction false} StuckIffJam(s: State, i: nat, t: nat)
    requires Sound(s) && InGate(s, i, t)
    ensures !Jam(s, i, t) <==> exists events :: Frees(s, events)
  {
    if !Jam(s, i, t) {
      var events := Clears(s, i, t);
      assert Frees(s, events);
    } else {
      forall events | Frees(s, events)
        ensures false
      {
        NoEnds(events, t);
        JamStays(s, events, i, t);
      }
    }
  }

  ghost predicate Frees(s: State, events: seq<Event>) {
    OnlyProceeds(events) && Run(s, events).Some? && Run(s, events).value.pair.None?
  }

  function AllEnd(t: nat, n: nat): seq<Event> {
    seq(n, k => Ends(t))
  }

  lemma {:induction false} EndsRun(s: State, t: nat, n: nat)
    requires Sound(s) && t < |s.gates| && n <= s.gates[t].readers
    ensures Run(s, AllEnd(t, n)) == Some(WithGate(s, t, s.gates[t].(readers := s.gates[t].readers - n)))
    ensures Sound(WithGate(s, t, s.gates[t].(readers := s.gates[t].readers - n)))
    decreases n
  {
    if n == 0 {
      assert s.gates[t := s.gates[t]] == s.gates;
    } else {
      var next := Step(s, Ends(t)).value;
      StepSound(s, Ends(t));
      EndsRun(next, t, n - 1);
      assert AllEnd(t, n)[1..] == AllEnd(t, n - 1);
      assert s.gates[t := next.gates[t]][t := next.gates[t].(readers := next.gates[t].readers - (n - 1))]
          == s.gates[t := s.gates[t].(readers := s.gates[t].readers - n)];
    }
  }

  /** Draining or closing the cursors that hold the gate ends a jam: then the close gets its gate,
  the execution after it, and the coordinator comes free. */
  lemma {:induction false} EndingFrees(s: State, i: nat, t: nat) returns (events: seq<Event>)
    requires Sound(s) && Jam(s, i, t)
    ensures Run(s, AllEnd(t, s.gates[t].readers) + events).Some?
    ensures OnlyProceeds(events) && Run(s, AllEnd(t, s.gates[t].readers) + events).value.pair.None?
  {
    var n := s.gates[t].readers;
    EndsRun(s, t, n);
    var ended := Run(s, AllEnd(t, n)).value;
    events := Clears(ended, i, t);
    RunAppend(s, AllEnd(t, n), events);
  }

  /** One undrained cursor, a close of its tree, and an execution on that tree are a jam. */
  lemma {:induction false} OneCursorJams(threads: nat, t: nat, trees: nat)
    requires threads >= 2 && t < trees
    ensures var start := State(None, seq(trees, u => GateSt(if u == t then 1 else 0, {}, None)), seq(threads, j => Idle));
            && Sound(start)
            && var s := Run(start, [StartClose(0, t), StartExec(1, t), Proceed(1)]);
               s.Some? && Jam(s.value, 1, t)
  {
    var start := State(None, seq(trees, u => GateSt(if u == t then 1 else 0, {}, None)), seq(threads, j => Idle));
    var events := [StartClose(0, t), StartExec(1, t), Proceed(1)];
    var first := Step(start, events[0]).value;
    var second := Step(first, events[1]).value;
    assert events[1..] == [StartExec(1, t), Proceed(1)] && events[1..][1..] == [Proceed(1)] && events[1..][1..][1..] == [];
    var third := Step(second, events[2]).value;
    assert Run(third, []) == Some(third) && Run(second, [Proceed(1)]) == Some(third);
    assert Run(first, events[1..]) == Some(third);
  }
}
