/** Searches for the next accepted value and drains of a whole stream, as runs of the steps in
`HostMachine`: what they hand over, what they leave, why they end, and which wrappers nobody
gets. */
module HostDrains {
  import opened Values
  import opened Wire
  import opened NodeWrappers
  import opened GuestMachine
  import opened GuestRuns
  import opened HostTree
  import opened HostMachine

  // ---------------------------------------------------------------- filtered streams

  function Accepted(accept: QMatch -> bool, s: seq<Event>): seq<Event> {
    if s == [] then [] else (if accept(s[0].match_) then [s[0]] else []) + Accepted(accept, s[1..])
  }

  /** The native state once a refused event is dealt with: of a capture the match's state is
  removed, when the bridge can. */
  function Dropped<S>(n: Native<S>, kind: Kind, p: Policy, v: S, e: Event): S {
    if kind.Whole? && p.removes then n.remove(v, e.match_.id) else v
  }

  /** What a caller gets from a native state on if nothing fails. */
  ghost function Filtered<S(!new)>(n: Native<S>, kind: Kind, p: Policy, v: S): seq<Event>
    requires Proper(n)
    decreases n.size(v)
  {
    match Pull(n, kind, v)
    case None => []
    case Some(step) =>
      if p.accept(step.0.match_) then [step.0] + Filtered(n, kind, p, step.1)
      else Filtered(n, kind, p, Dropped(n, kind, p, step.1, step.0))
  }

  /** The same, once an event was taken: nothing of it when its match is refused. */
  ghost function FilteredBehind<S(!new)>(n: Native<S>, kind: Kind, p: Policy, e: Event, v: S): seq<Event>
    requires Proper(n)
  {
    if p.accept(e.match_) then [e] + Filtered(n, kind, p, v) else Filtered(n, kind, p, Dropped(n, kind, p, v, e))
  }

  /** The same from a state of the wrapper on. */
  ghost function FilteredOf<S(!new)>(n: Native<S>, kind: Kind, p: Policy, s: GuestState<S>): seq<Event>
    requires Proper(n)
  {
    match Head(n, kind, s)
    case None => []
    case Some(e) => FilteredBehind(n, kind, p, e, Behind(n, kind, s))
  }

  lemma {:induction false} FilteredUnkept<S(!new)>(n: Native<S>, kind: Kind, p: Policy, v: S)
    requires Proper(n)
    ensures FilteredOf(n, kind, p, GuestState(v, None)) == Filtered(n, kind, p, v)
  {
  }

  lemma {:induction false} FilteredHeld<S(!new)>(n: Native<S>, kind: Kind, p: Policy, s: GuestState<S>)
    requires WellFormed(n, s) && Head(n, kind, s).Some?
    ensures FilteredOf(n, kind, p, Holding(n, kind, s)) == FilteredOf(n, kind, p, s)
  {
  }

  /** Unless refused captures are removed, the filtered stream is the native one, filtered. */
  lemma {:induction false} FilteredIsAccepted<S(!new)>(n: Native<S>, kind: Kind, p: Policy, v: S)
    requires Proper(n) && !(kind.Whole? && p.removes)
    ensures Filtered(n, kind, p, v) == Accepted(p.accept, Items(n, kind, v))
    decreases n.size(v)
  {
    if Pull(n, kind, v).Some? {
      var step := Pull(n, kind, v).value;
      FilteredIsAccepted(n, kind, p, step.1);
      assert ([step.0] + Items(n, kind, step.1))[1..] == Items(n, kind, step.1);
    }
  }

  /** So a caller that asks for matches gets those of its stream that the predicates accept. */
  lemma {:induction false} MatchesFiltered<S(!new)>(n: Native<S>, p: Policy, s: GuestState<S>)
    requires WellFormed(n, s)
    ensures FilteredOf(n, Matching, p, s) == Accepted(p.accept, StreamOf(n, Matching, s))
  {
    DueHead(n, Matching, s);
    if Head(n, Matching, s).Some? {
      var e, rest := Head(n, Matching, s).value, Items(n, Matching, Behind(n, Matching, s));
      FilteredIsAccepted(n, Matching, p, Behind(n, Matching, s));
      assert StreamOf(n, Matching, s) == [e] + rest;
      assert ([e] + rest)[1..] == rest;
    }
  }

  // ---------------------------------------------------------------- one step

  /** What was due before a step, given what is left after it: the same, save the value handed
  over or gone. */
  ghost function Owed<S(!new)>(n: Native<S>, kind: Kind, p: Policy, f: Faults, e: Option<Event>, t: Trial<S>): seq<Event>
    requires Proper(n)
  {
    var left := FilteredOf(n, kind, p, t.state.world.guest);
    if e.None? then []
    else match t.ending
         case Got => (if t.refused then [] else [e.value]) + left
         case Exhausted => left
         case Stalled(_) => left
         case Halted => if f.removal.NotRemoved? then FilteredBehind(n, kind, p, e.value, t.state.world.guest.value) else left
         case _ => FilteredBehind(n, kind, p, e.value, t.state.world.guest.value)
  }

  /** A read that hands nothing over leaves the stream, or what is behind its head. */
  lemma {:induction false} UnreadOwes<S(!new)>(n: Native<S>, kind: Kind, p: Policy, f: Faults, h: HostState<S>, t: Trial<S>)
    requires WellFormed(n, h.world.guest) && !kind.Capturing? && !t.ending.Got? && !t.ending.Halted?
    requires t.ending.Exhausted? ==> Head(n, kind, h.world.guest).None?
    requires LeavesGuest(n, kind, t.ending, h.world.guest, t.state.world.guest)
    ensures FilteredOf(n, kind, p, h.world.guest) == Owed(n, kind, p, f, Head(n, kind, h.world.guest), t)
  {
    if Head(n, kind, h.world.guest).Some? {
      FilteredHeld(n, kind, p, h.world.guest);
    }
  }

  /** A value that is settled leaves what is behind it. */
  lemma {:induction false} SettlingOwes<S(!new)>(n: Native<S>, kind: Kind, p: Policy, f: Faults, s: GuestState<S>, h: HostState<S>, g: Grip)
    requires Proper(n) && !kind.Capturing? && Head(n, kind, s) == Some(g.event)
    requires h.world.guest == GuestState(Behind(n, kind, s), None)
    ensures FilteredOf(n, kind, p, s) == Owed(n, kind, p, f, Some(g.event), SettleOf(n, kind, p, f, h, g))
  {
    var t := SettleOf(n, kind, p, f, h, g);
    assert t.state.world.guest.kept.None?;
    FilteredUnkept(n, kind, p, t.state.world.guest.value);
  }

  /** For every ending, what a step leaves of the filtered stream. */
  lemma {:induction false} TryOwes<S(!new)>(n: Native<S>, kind: Kind, p: Policy, f: Faults, h: HostState<S>)
    requires WellFormed(n, h.world.guest) && !kind.Capturing?
    ensures FilteredOf(n, kind, p, h.world.guest) == Owed(n, kind, p, f, Head(n, kind, h.world.guest), TryOf(n, kind, p, f, h))
  {
    var r := ReadOf(n, kind, f, h);
    ReadEnds(n, kind, f, h);
    EndingCaused(n, kind, f, h);
    if r.grip.Some? {
      SettlingOwes(n, kind, p, f, h.world.guest, r.state, r.grip.value);
      assert r.grip.value.event == Head(n, kind, h.world.guest).value;
    } else {
      UnreadOwes(n, kind, p, f, h, Trial(r.state, None, false, EndingOf(n, kind, f, h)));
    }
    hide ReadOf, EndingOf, SettleOf, Owed, FilteredOf, Head;
  }

  /** A step that hands nothing over ends at the end of the stream or by a failure of its own. */
  lemma {:induction false} TryCaused<S(!new)>(n: Native<S>, kind: Kind, p: Policy, f: Faults, h: HostState<S>)
    requires WellFormed(n, h.world.guest)
    ensures var head, t := Head(n, kind, h.world.guest), TryOf(n, kind, p, f, h);
            && (t.ending.Exhausted? ==> head.None?)
            && (head.None? ==> !t.ending.Takes() && !t.ending.Halted?)
            && (t.refused ==> head.Some? && !p.accept(head.value.match_))
            && Cause(kind, f, h.world.wrappers.Keys, if head.Some? then |Wraps(kind, head.value)| else 0, t.ending)
  {
    EndingCaused(n, kind, f, h);
    ReadEnds(n, kind, f, h);
    hide ReadOf, EndingOf, Head, LeavesGuest;
  }

  // ---------------------------------------------------------------- searches

  /** A refused value was taken off the guest, which is closer to its end. */
  lemma {:induction false} TryShrinks<S(!new)>(n: Native<S>, kind: Kind, p: Policy, f: Faults, h: HostState<S>)
    requires WellFormed(n, h.world.guest) && !kind.Capturing?
    ensures var t := TryOf(n, kind, p, f, h);
            && WellFormed(n, t.state.world.guest)
            && (t.refused || t.result.Some? ==>
                  && Head(n, kind, h.world.guest).Some? && Closer(n, h.world.guest, t.state.world.guest))
  {
    var r := ReadOf(n, kind, f, h);
    ReadEnds(n, kind, f, h);
    ReadWellFormed(n, kind, f, h);
    if r.grip.Some? {
      BehindCloser(n, kind, h.world.guest);
      SettlingShrinks(n, kind, p, f, r.state, r.grip.value);
      assert r.state.world.guest == GuestState(Behind(n, kind, h.world.guest), None);
    }
    hide ReadOf, EndingOf, SettleOf, Head, Behind, LeavesGuest, Filled, Handles;
  }

  lemma {:induction false} SettlingShrinks<S(!new)>(n: Native<S>, kind: Kind, p: Policy, f: Faults, h: HostState<S>, g: Grip)
    requires Proper(n) && h.world.guest.kept.None?
    ensures var left := SettleOf(n, kind, p, f, h, g).state.world.guest;
            left.kept.None? && n.size(left.value) <= n.size(h.world.guest.value)
  {
  }

  /** Nothing is kept, and less is left: of the native stream, or because something was kept. */
  ghost predicate Closer<S>(n: Native<S>, s: GuestState<S>, left: GuestState<S>) {
    && left.kept.None? && n.size(left.value) <= n.size(s.value)
    && (s.kept.None? ==> n.size(left.value) < n.size(s.value))
  }

  lemma {:induction false} BehindCloser<S(!new)>(n: Native<S>, kind: Kind, s: GuestState<S>)
    requires WellFormed(n, s) && Head(n, kind, s).Some?
    ensures Closer(n, s, GuestState(Behind(n, kind, s), None))
  {
  }

  /** A search: its last step with the state and the failures that step met, and the refused
  events before it. */
  datatype Search<S> = Search(trial: Trial<S>, passed: seq<Event>, last: HostState<S>, fault: Faults)

  /** Steps are made until one does not refuse its value. */
  ghost function SearchOf<S(!new)>(n: Native<S>, kind: Kind, p: Policy, faults: nat -> Faults, k: nat, h: HostState<S>): Search<S>
    requires WellFormed(n, h.world.guest) && !kind.Capturing?
    decreases n.size(h.world.guest.value), if h.world.guest.kept.Some? then 1 else 0
  {
    TryShrinks(n, kind, p, faults(k), h);
    var t := TryOf(n, kind, p, faults(k), h);
    if !t.refused then Search(t, [], h, faults(k))
    else
      var s := SearchOf(n, kind, p, faults, k + 1, t.state);
      s.(passed := [Head(n, kind, h.world.guest).value] + s.passed)
  }

  /** The deletes for refused events all succeed. */
  ghost predicate PassedDeleted(kind: Kind, faults: nat -> Faults, k: nat, passed: seq<Event>) {
    forall i :: 0 <= i < |passed| ==> AllDeleted(|Wraps(kind, passed[i])|, -1, faults(k + i).deleted)
  }

  /** What a search comes to before its last step: only refused events were taken, which the
  filtered stream does not miss. */
  ghost predicate Passes<S(!new)>(n: Native<S>, kind: Kind, p: Policy, faults: nat -> Faults, k: nat, h: HostState<S>, s: Search<S>) {
    && WellFormed(n, h.world.guest) && WellFormed(n, s.last.world.guest)
    && s.trial == TryOf(n, kind, p, s.fault, s.last) && !s.trial.refused && s.fault == faults(k + |s.passed|)
    && (forall e :: e in s.passed ==> !p.accept(e.match_))
    && FilteredOf(n, kind, p, h.world.guest) == FilteredOf(n, kind, p, s.last.world.guest)
    && HostMoves(h, s.last) && s.last.nodes == h.nodes
    && (Leaked(h, s.last) == {} <==> PassedDeleted(kind, faults, k, s.passed))
  }

  /** A refused value is missed by nobody, and its wrappers are freed as far as deletes go. */
  ghost predicate Passing<S(!new)>(n: Native<S>, kind: Kind, p: Policy, f: Faults, h: HostState<S>, e: Event, after: HostState<S>) {
    && WellFormed(n, h.world.guest) && WellFormed(n, after.world.guest) && !p.accept(e.match_)
    && FilteredOf(n, kind, p, h.world.guest) == FilteredOf(n, kind, p, after.world.guest)
    && HostMoves(h, after) && after.nodes == h.nodes && (Leaked(h, after) == {} <==> AllDeleted(|Wraps(kind, e)|, -1, f.deleted))
  }

  lemma {:induction false} RefusedPasses<S(!new)>(n: Native<S>, kind: Kind, p: Policy, f: Faults, h: HostState<S>)
    requires WellFormed(n, h.world.guest) && !kind.Capturing? && h.nodes <= h.world.wrappers.Keys
    requires TryOf(n, kind, p, f, h).refused
    ensures Head(n, kind, h.world.guest).Some?
    ensures Passing(n, kind, p, f, h, Head(n, kind, h.world.guest).value, TryOf(n, kind, p, f, h).state)
  {
    RefusedGot(n, kind, p, f, h);
    TryShrinks(n, kind, p, f, h);
    TrySettles(n, kind, p, f, h);
    TryOwes(n, kind, p, f, h);
    TryCaused(n, kind, p, f, h);
    hide TryOf, FilteredOf, FilteredBehind, Head, HostMoves, Leaked, AllDeleted, Cause, Shown, Wraps, Closer, Selects, Registered;
  }

  lemma {:induction false} RefusedGot<S(!new)>(n: Native<S>, kind: Kind, p: Policy, f: Faults, h: HostState<S>)
    requires WellFormed(n, h.world.guest) && TryOf(n, kind, p, f, h).refused
    ensures TryOf(n, kind, p, f, h).ending.Got?
  {
    hide ReadOf, EndingOf;
  }

  lemma {:induction false} SearchPasses<S(!new)>(n: Native<S>, kind: Kind, p: Policy, faults: nat -> Faults, k: nat, h: HostState<S>)
    requires WellFormed(n, h.world.guest) && !kind.Capturing? && h.nodes <= h.world.wrappers.Keys
    ensures Passes(n, kind, p, faults, k, h, SearchOf(n, kind, p, faults, k, h))
    decreases n.size(h.world.guest.value), if h.world.guest.kept.Some? then 1 else 0
  {
    var t := TryOf(n, kind, p, faults(k), h);
    TryShrinks(n, kind, p, faults(k), h);
    if t.refused {
      RefusedPasses(n, kind, p, faults(k), h);
      MovesLive(h, t.state);
      SearchPasses(n, kind, p, faults, k + 1, t.state);
      PassesOne(n, kind, p, faults, k, h, Head(n, kind, h.world.guest).value, t.state, SearchOf(n, kind, p, faults, k + 1, t.state));
    } else {
      assert HostMoves(h, h) && Leaked(h, h) == {};
    }
    hide TryOf, Passes, FilteredOf, Head;
  }

  lemma {:induction false} MovesLive<S>(h: HostState<S>, after: HostState<S>)
    requires HostMoves(h, after) && h.nodes <= h.world.wrappers.Keys
    ensures after.nodes <= after.world.wrappers.Keys
  {
    forall a | a in after.nodes
      ensures a in after.world.wrappers
    {
      assert a in h.nodes ==> a in h.world.wrappers;
    }
  }

  lemma {:induction false} PassesOne<S(!new)>(n: Native<S>, kind: Kind, p: Policy, faults: nat -> Faults, k: nat, h: HostState<S>,
                                     e: Event, next: HostState<S>, s: Search<S>)
    requires Passing(n, kind, p, faults(k), h, e, next) && Passes(n, kind, p, faults, k + 1, next, s)
    ensures Passes(n, kind, p, faults, k, h, s.(passed := [e] + s.passed))
  {
    hide FilteredOf, TryOf, HostMoves, Leaked, AllDeleted, PassedDeleted, WellFormed, Wraps;
    LeakedTwice(h, next, s.last);
    PassedOneMore(kind, faults, k, e, s.passed);
  }

  lemma {:induction false} LeakedTwice<S>(h: HostState<S>, middle: HostState<S>, after: HostState<S>)
    requires HostMoves(h, middle) && HostMoves(middle, after)
    ensures HostMoves(h, after) && (Leaked(h, after) == {} <==> Leaked(h, middle) == {} && Leaked(middle, after) == {})
  {
    MovesTwice(h.world.wrappers, middle.world.wrappers, after.world.wrappers, h.nodes, middle.nodes, after.nodes);
  }

  lemma {:induction false} PassedOneMore(kind: Kind, faults: nat -> Faults, k: nat, e: Event, later: seq<Event>)
    ensures PassedDeleted(kind, faults, k, [e] + later)
       <==> AllDeleted(|Wraps(kind, e)|, -1, faults(k).deleted) && PassedDeleted(kind, faults, k + 1, later)
  {
    var passed := [e] + later;
    if PassedDeleted(kind, faults, k, passed) {
      assert passed[0] == e;
      forall i | 0 <= i < |later|
        ensures AllDeleted(|Wraps(kind, later[i])|, -1, faults(k + 1 + i).deleted)
      {
        assert passed[i + 1] == later[i];
      }
    }
    if AllDeleted(|Wraps(kind, e)|, -1, faults(k).deleted) && PassedDeleted(kind, faults, k + 1, later) {
      forall i | 0 <= i < |passed|
        ensures AllDeleted(|Wraps(kind, passed[i])|, -1, faults(k + i).deleted)
      {
        if i > 0 {
          assert passed[i] == later[i - 1] && k + i == k + 1 + (i - 1);
        }
      }
    }
  }

  function NeedAt<S>(n: Native<S>, kind: Kind, s: GuestState<S>): nat {
    if Head(n, kind, s).Some? then |Wraps(kind, Head(n, kind, s).value)| else 0
  }

  /** What a search comes to: with a value, the head of the filtered stream, shown to the caller;
  otherwise it ended at the end of that stream or by a failure of its last step, which says what
  is left. */
  ghost predicate Serves<S(!new)>(n: Native<S>, kind: Kind, p: Policy, due: seq<Event>, s: Search<S>)
    requires Proper(n)
  {
    && (s.trial.result.Some? <==> s.trial.ending.Got?)
    && due == Owed(n, kind, p, s.fault, Head(n, kind, s.last.world.guest), s.trial)
    && Cause(kind, s.fault, s.last.world.wrappers.Keys, NeedAt(n, kind, s.last.world.guest), s.trial.ending)
    && (s.trial.ending.Exhausted? ==> due == [])
    && match s.trial.result
       case None => s.trial.state.nodes == s.last.nodes
       case Some(g) =>
         && due == [g.event] + FilteredOf(n, kind, p, s.trial.state.world.guest)
         && Shown(kind, p, g, s.trial.state.world.wrappers, s.trial.state.nodes)
         && s.trial.state.nodes == s.last.nodes + Registered(kind, p, g) && Settled(kind, p, s.fault, g, s.last, s.trial.state)
  }

  lemma {:induction false} TryServes<S(!new)>(n: Native<S>, kind: Kind, p: Policy, s: Search<S>)
    requires WellFormed(n, s.last.world.guest) && !kind.Capturing? && s.last.nodes <= s.last.world.wrappers.Keys
    requires s.trial == TryOf(n, kind, p, s.fault, s.last) && !s.trial.refused
    ensures Serves(n, kind, p, FilteredOf(n, kind, p, s.last.world.guest), s)
    ensures HostMoves(s.last, s.trial.state)
    ensures Leaked(s.last, s.trial.state) == {} <==> Tidy(kind, p, s.fault, Head(n, kind, s.last.world.guest), s.trial)
  {
    TrySettles(n, kind, p, s.fault, s.last);
    TryOwes(n, kind, p, s.fault, s.last);
    TryCaused(n, kind, p, s.fault, s.last);
    hide TryOf, FilteredOf, FilteredBehind, Head, HostMoves, Leaked, Tidy, Cause, Shown, Wraps, WellFormed;
  }

  /** A search takes what the predicates refuse and serves the filtered stream; every live
  wrapper stays accounted for, and none is left to nobody exactly when no delete failed and the
  last step left none. */
  lemma {:induction false} SearchServes<S(!new)>(n: Native<S>, kind: Kind, p: Policy, faults: nat -> Faults, k: nat, h: HostState<S>)
    requires WellFormed(n, h.world.guest) && !kind.Capturing? && h.nodes <= h.world.wrappers.Keys
    ensures var s := SearchOf(n, kind, p, faults, k, h);
            && Passes(n, kind, p, faults, k, h, s) && Serves(n, kind, p, FilteredOf(n, kind, p, h.world.guest), s)
            && HostMoves(h, s.trial.state)
            && (Leaked(h, s.trial.state) == {}
                <==> PassedDeleted(kind, faults, k, s.passed) && Tidy(kind, p, s.fault, Head(n, kind, s.last.world.guest), s.trial))
  {
    var s := SearchOf(n, kind, p, faults, k, h);
    SearchPasses(n, kind, p, faults, k, h);
    MovesLive(h, s.last);
    TryServes(n, kind, p, s);
    LeakedTwice(h, s.last, s.trial.state);
    hide SearchOf, TryOf, FilteredOf, Head, HostMoves, Leaked, Tidy, Serves, PassedDeleted, WellFormed;
  }

  // ---------------------------------------------------------------- searches without failures

  ghost predicate AllBenign(faults: nat -> Faults, capacity: nat) {
    forall k :: faults(k).Benign(capacity)
  }

  ghost predicate NeverFails(faults: nat -> nat -> Faults, capacity: nat) {
    forall r :: AllBenign(faults(r), capacity)
  }

  lemma {:induction false} NeverFailsIn(faults: nat -> nat -> Faults, capacity: nat, r: nat)
    requires NeverFails(faults, capacity)
    ensures AllBenign(faults(r), capacity)
  {
  }

  /** There is room for all that is still to come, and for one match more. */
  ghost predicate RoomAhead<S(!new)>(n: Native<S>, kind: Kind, p: Policy, h: HostState<S>, capacity: nat)
    requires Proper(n)
  {
    |h.world.wrappers.Keys| + Need(kind, FilteredOf(n, kind, p, h.world.guest)) + 0xFFFF <= capacity
  }

  lemma {:induction false} BenignDeletes(f: Faults, capacity: nat, count: nat, keep: int)
    requires f.Benign(capacity)
    ensures AllDeleted(count, keep, f.deleted)
  {
  }

  /** Without leaks the live wrappers are the earlier ones and those registered since. */
  lemma {:induction false} LiveCount<S>(h: HostState<S>, after: HostState<S>, registered: set<u32>)
    requires HostMoves(h, after) && Leaked(h, after) == {} && after.nodes == h.nodes + registered && h.nodes <= h.world.wrappers.Keys
    ensures |after.world.wrappers.Keys| <= |h.world.wrappers.Keys| + |registered|
  {
    var live, now := h.world.wrappers.Keys, after.world.wrappers.Keys;
    assert now == live + (now - live);
    SubsetCount(now - live, registered) by {
      forall a | a in now - live
        ensures a in registered
      {
        assert a !in Leaked(h, after);
      }
    }
  }

  lemma {:induction false} SubsetCount(s: set<u32>, t: set<u32>)
    requires s <= t
    ensures |s| <= |t|
  {
    assert t == s + (t - s);
  }

  lemma {:induction false} NodeCount(entries: seq<Entry>)
    ensures |NodeSet(entries)| <= |entries|
  {
    if entries != [] {
      var init, e := entries[..|entries| - 1], entries[|entries| - 1];
      NodeCount(init);
      NodeSetGrows(init, e);
      assert entries == init + [e];
    }
  }

  /** A step without failures gets the head of the stream, unless there is none, and leaves no
  wrapper to nobody. */
  lemma {:induction false} BenignTry<S(!new)>(n: Native<S>, kind: Kind, p: Policy, f: Faults, h: HostState<S>, capacity: nat)
    requires WellFormed(n, h.world.guest) && f.Benign(capacity) && |h.world.wrappers.Keys| + 0xFFFF <= capacity
    ensures var t := TryOf(n, kind, p, f, h);
            && t.ending == (if Head(n, kind, h.world.guest).Some? then Got else Exhausted)
            && Tidy(kind, p, f, Head(n, kind, h.world.guest), t)
  {
    var t, head := TryOf(n, kind, p, f, h), Head(n, kind, h.world.guest);
    BenignEnding(n, kind, f, h, capacity);
    ReadEnds(n, kind, f, h);
    if head.Some? {
      BenignDeletes(f, capacity, |Wraps(kind, head.value)|, -1);
      BenignDeletes(f, capacity, |Wraps(kind, head.value)|, head.value.ordinal);
    }
    hide ReadOf, EndingOf, Head, Wraps, LeavesGuest, AllDeleted, Freed, Filled, Handles;
  }

  /** Without failures a search finds the first accepted value, or the end of the stream; it
  leaves no wrapper to nobody and uses no more room than the value takes. */
  lemma {:induction false} BenignSearch<S(!new)>(n: Native<S>, kind: Kind, p: Policy, faults: nat -> Faults, k: nat, h: HostState<S>, capacity: nat)
    requires WellFormed(n, h.world.guest) && !kind.Capturing? && h.nodes <= h.world.wrappers.Keys
    requires AllBenign(faults, capacity) && RoomAhead(n, kind, p, h, capacity)
    ensures var s, due := SearchOf(n, kind, p, faults, k, h), FilteredOf(n, kind, p, h.world.guest);
            && s.trial.ending == (if due == [] then Exhausted else Got) && Leaked(h, s.trial.state) == {}
            && (s.trial.result.Some? ==> RoomAhead(n, kind, p, s.trial.state, capacity))
  {
    var s := SearchOf(n, kind, p, faults, k, h);
    SearchServes(n, kind, p, faults, k, h);
    BenignPasses(n, kind, p, faults, k, h, s, capacity);
    BenignTry(n, kind, p, s.fault, s.last, capacity);
    FilteredHead(n, kind, p, s.last.world.guest);
    if s.trial.result.Some? {
      ServedRoom(n, kind, p, h, s, capacity);
    }
    hide SearchOf, TryOf, HostMoves, Leaked, FilteredOf, Head, PassedDeleted, Tidy, RoomAhead, WellFormed, Owed, Shown, Registered, Cause;
  }

  /** Without failures the refused events leave no wrapper. */
  lemma {:induction false} BenignPasses<S(!new)>(n: Native<S>, kind: Kind, p: Policy, faults: nat -> Faults, k: nat, h: HostState<S>, s: Search<S>, capacity: nat)
    requires Passes(n, kind, p, faults, k, h, s) && AllBenign(faults, capacity) && h.nodes <= h.world.wrappers.Keys
    ensures PassedDeleted(kind, faults, k, s.passed) && s.fault.Benign(capacity)
    ensures |s.last.world.wrappers.Keys| <= |h.world.wrappers.Keys|
  {
    hide FilteredOf, TryOf, WellFormed, HostMoves, Leaked, AllDeleted, Wraps;
    forall i | 0 <= i < |s.passed|
      ensures AllDeleted(|Wraps(kind, s.passed[i])|, -1, faults(k + i).deleted)
    {
      assert faults(k + i).Benign(capacity);
      BenignDeletes(faults(k + i), capacity, |Wraps(kind, s.passed[i])|, -1);
    }
    assert s.last.nodes == h.nodes + {};
    LiveCount(h, s.last, {});
  }

  lemma {:induction false} FilteredHead<S(!new)>(n: Native<S>, kind: Kind, p: Policy, s: GuestState<S>)
    requires Proper(n)
    ensures Head(n, kind, s).None? ==> FilteredOf(n, kind, p, s) == []
  {
  }

  lemma {:induction false} ServedRoom<S(!new)>(n: Native<S>, kind: Kind, p: Policy, h: HostState<S>, s: Search<S>, capacity: nat)
    requires Proper(n) && HostMoves(h, s.trial.state) && Leaked(h, s.trial.state) == {} && s.last.nodes == h.nodes
    requires h.nodes <= h.world.wrappers.Keys
    requires s.trial.result.Some? && Serves(n, kind, p, FilteredOf(n, kind, p, h.world.guest), s) && RoomAhead(n, kind, p, h, capacity)
    ensures RoomAhead(n, kind, p, s.trial.state, capacity)
  {
    var g, left := s.trial.result.value, FilteredOf(n, kind, p, s.trial.state.world.guest);
    LiveCount(h, s.trial.state, Registered(kind, p, g));
    NodeCount(g.entries);
    RegisteredCount(kind, p, g);
    assert ([g.event] + left)[1..] == left;
    hide FilteredOf, Owed, HostMoves, Leaked, Head;
  }

  lemma {:induction false} RegisteredCount(kind: Kind, p: Policy, g: Grip)
    ensures |Registered(kind, p, g)| <= |g.entries|
  {
    NodeCount(g.entries);
  }

  // ---------------------------------------------------------------- drains

  /** A drain: the values it handed over, and the search it ended with. */
  datatype Drain<S> = Drain(results: seq<Grip>, search: Search<S>)

  ghost function CollectOf<S(!new)>(n: Native<S>, kind: Kind, p: Policy, faults: nat -> nat -> Faults, r: nat, h: HostState<S>): Drain<S>
    requires WellFormed(n, h.world.guest) && !kind.Capturing?
    decreases n.size(h.world.guest.value), if h.world.guest.kept.Some? then 1 else 0
  {
    SearchShrinks(n, kind, p, faults(r), 0, h);
    var s := SearchOf(n, kind, p, faults(r), 0, h);
    if s.trial.result.None? then Drain([], s)
    else
      var d := CollectOf(n, kind, p, faults, r + 1, s.trial.state);
      Drain([s.trial.result.value] + d.results, d.search)
  }

  lemma {:induction false} SearchShrinks<S(!new)>(n: Native<S>, kind: Kind, p: Policy, faults: nat -> Faults, k: nat, h: HostState<S>)
    requires WellFormed(n, h.world.guest) && !kind.Capturing?
    ensures var s := SearchOf(n, kind, p, faults, k, h);
            && WellFormed(n, s.trial.state.world.guest)
            && (s.trial.result.Some? ==> Closer(n, h.world.guest, s.trial.state.world.guest))
    decreases n.size(h.world.guest.value), if h.world.guest.kept.Some? then 1 else 0
  {
    TryShrinks(n, kind, p, faults(k), h);
    var t := TryOf(n, kind, p, faults(k), h);
    if t.refused {
      SearchShrinks(n, kind, p, faults, k + 1, t.state);
    }
    hide TryOf, WellFormed, Head;
  }

  function EventsOf(results: seq<Grip>): seq<Event> {
    if results == [] then [] else [results[0].event] + EventsOf(results[1..])
  }

  /** Every value is shown to the caller. */
  ghost predicate AllShown<S>(kind: Kind, p: Policy, results: seq<Grip>, h: HostState<S>) {
    forall i :: 0 <= i < |results| ==> Shown(kind, p, results[i], h.world.wrappers, h.nodes)
  }

  /** What the caller of a search that ended is still owed. */
  ghost function StillOwed<S(!new)>(n: Native<S>, kind: Kind, p: Policy, s: Search<S>): seq<Event>
    requires Proper(n)
  {
    Owed(n, kind, p, s.fault, Head(n, kind, s.last.world.guest), s.trial)
  }

  /** A drain hands the filtered stream over in order; what it did not hand over is what its last
  step left or took, and that step ended at the end of the stream or by a failure of its own. */
  ghost predicate Drains<S(!new)>(n: Native<S>, kind: Kind, p: Policy, due: seq<Event>, d: Drain<S>) {
    && WellFormed(n, d.search.last.world.guest)
    && d.search.trial.result.None? && d.search.trial == TryOf(n, kind, p, d.search.fault, d.search.last)
    && Serves(n, kind, p, StillOwed(n, kind, p, d.search), d.search)
    && due == EventsOf(d.results) + StillOwed(n, kind, p, d.search)
    && AllShown(kind, p, d.results, d.search.trial.state)
  }

  /** Every drain, under any failures. */
  lemma {:induction false} CollectDrains<S(!new)>(n: Native<S>, kind: Kind, p: Policy, faults: nat -> nat -> Faults, r: nat, h: HostState<S>)
    requires WellFormed(n, h.world.guest) && !kind.Capturing? && h.nodes <= h.world.wrappers.Keys
    ensures var d := CollectOf(n, kind, p, faults, r, h);
            Drains(n, kind, p, FilteredOf(n, kind, p, h.world.guest), d) && HostMoves(h, d.search.trial.state)
    decreases n.size(h.world.guest.value), if h.world.guest.kept.Some? then 1 else 0
  {
    var s := SearchOf(n, kind, p, faults(r), 0, h);
    SearchShrinks(n, kind, p, faults(r), 0, h);
    SearchServes(n, kind, p, faults(r), 0, h);
    if s.trial.result.Some? {
      MovesLive(h, s.trial.state);
      CollectDrains(n, kind, p, faults, r + 1, s.trial.state);
      var d := CollectOf(n, kind, p, faults, r + 1, s.trial.state);
      LeakedTwice(h, s.trial.state, d.search.trial.state);
      DrainsOne(n, kind, p, s, d, h);
    } else {
      DrainsNone(n, kind, p, s, h);
    }
    hide SearchOf, HostMoves, Leaked, FilteredOf, Drains, Serves, TryOf, PassedDeleted, Tidy;
  }

  lemma {:induction false} DrainsNone<S(!new)>(n: Native<S>, kind: Kind, p: Policy, s: Search<S>, h: HostState<S>)
    requires WellFormed(n, s.last.world.guest) && s.trial.result.None? && s.trial == TryOf(n, kind, p, s.fault, s.last)
    requires Serves(n, kind, p, FilteredOf(n, kind, p, h.world.guest), s)
    ensures Drains(n, kind, p, FilteredOf(n, kind, p, h.world.guest), Drain([], s))
  {
    hide FilteredOf, Owed, TryOf, Shown, Cause;
  }

  lemma {:induction false} DrainsOne<S(!new)>(n: Native<S>, kind: Kind, p: Policy, s: Search<S>, d: Drain<S>, h: HostState<S>)
    requires Proper(n) && s.trial.result.Some? && Serves(n, kind, p, FilteredOf(n, kind, p, h.world.guest), s)
    requires Drains(n, kind, p, FilteredOf(n, kind, p, s.trial.state.world.guest), d) && HostMoves(s.trial.state, d.search.trial.state)
    ensures Drains(n, kind, p, FilteredOf(n, kind, p, h.world.guest), Drain([s.trial.result.value] + d.results, d.search))
  {
    hide FilteredOf, StillOwed, Owed, TryOf, HostMoves, Shown, Cause, EventsOf;
    var g := s.trial.result.value;
    ShownStays(kind, p, g, s.trial.state, d.search.trial.state);
    EventsOfOne(g, d.results);
  }

  lemma {:induction false} EventsOfOne(g: Grip, rest: seq<Grip>)
    ensures EventsOf([g] + rest) == [g.event] + EventsOf(rest)
  {
    assert ([g] + rest)[1..] == rest;
  }

  lemma {:induction false} BenignServes<S(!new)>(n: Native<S>, kind: Kind, p: Policy, faults: nat -> Faults, h: HostState<S>, capacity: nat)
    requires WellFormed(n, h.world.guest) && !kind.Capturing? && h.nodes <= h.world.wrappers.Keys
    requires AllBenign(faults, capacity) && RoomAhead(n, kind, p, h, capacity)
    ensures var s, due := SearchOf(n, kind, p, faults, 0, h), FilteredOf(n, kind, p, h.world.guest);
            && HostMoves(h, s.trial.state) && Leaked(h, s.trial.state) == {} && WellFormed(n, s.trial.state.world.guest)
            && match s.trial.result
               case None => s.trial.ending.Exhausted? && due == []
               case Some(g) => due == [g.event] + FilteredOf(n, kind, p, s.trial.state.world.guest) && RoomAhead(n, kind, p, s.trial.state, capacity)
  {
    SearchShrinks(n, kind, p, faults, 0, h);
    SearchServes(n, kind, p, faults, 0, h);
    BenignSearch(n, kind, p, faults, 0, h, capacity);
    hide SearchOf, HostMoves, Leaked, FilteredOf, Passes, Owed, RoomAhead, Shown, Cause, WellFormed;
  }

  /** Without failures a drain hands over the whole filtered stream, ends at its end and leaves no
  wrapper to nobody. */
  lemma {:induction false} BenignCollect<S(!new)>(n: Native<S>, kind: Kind, p: Policy, faults: nat -> nat -> Faults, r: nat, h: HostState<S>, capacity: nat)
    requires WellFormed(n, h.world.guest) && !kind.Capturing? && h.nodes <= h.world.wrappers.Keys
    requires NeverFails(faults, capacity) && RoomAhead(n, kind, p, h, capacity)
    ensures var d := CollectOf(n, kind, p, faults, r, h);
            && EventsOf(d.results) == FilteredOf(n, kind, p, h.world.guest)
            && d.search.trial.ending.Exhausted? && HostMoves(h, d.search.trial.state) && Leaked(h, d.search.trial.state) == {}
    decreases n.size(h.world.guest.value), if h.world.guest.kept.Some? then 1 else 0
  {
    hide SearchOf, HostMoves, Leaked, FilteredOf, RoomAhead, NeverFails, AllBenign;
    var s := SearchOf(n, kind, p, faults(r), 0, h);
    SearchShrinks(n, kind, p, faults(r), 0, h);
    NeverFailsIn(faults, capacity, r);
    BenignServes(n, kind, p, faults(r), h, capacity);
    if s.trial.result.Some? {
      MovesLive(h, s.trial.state);
      BenignCollect(n, kind, p, faults, r + 1, s.trial.state, capacity);
      var d := CollectOf(n, kind, p, faults, r + 1, s.trial.state);
      LeakedTwice(h, s.trial.state, d.search.trial.state);
      EventsOfOne(s.trial.result.value, d.results);
    }
  }

  // ---------------------------------------------------------------- wrappers stay accounted for

  /** Wrappers that were live and registered stay so, and the new ones are registered or left to
  nobody. */
  ghost predicate Accounts<S>(h: HostState<S>, after: HostState<S>) {
    h.nodes <= h.world.wrappers.Keys ==> HostMoves(h, after)
  }

  lemma {:induction false} SameAccounts<S>(h: HostState<S>)
    ensures Accounts(h, h)
  {
  }

  lemma {:induction false} TryAccounts<S(!new)>(n: Native<S>, kind: Kind, p: Policy, f: Faults, h: HostState<S>)
    requires WellFormed(n, h.world.guest)
    ensures Accounts(h, TryOf(n, kind, p, f, h).state)
  {
    if h.nodes <= h.world.wrappers.Keys {
      TrySettles(n, kind, p, f, h);
    }
  }

  lemma {:induction false} SearchAccounts<S(!new)>(n: Native<S>, kind: Kind, p: Policy, faults: nat -> Faults, h: HostState<S>)
    requires WellFormed(n, h.world.guest) && !kind.Capturing?
    ensures Accounts(h, SearchOf(n, kind, p, faults, 0, h).trial.state)
  {
    if h.nodes <= h.world.wrappers.Keys {
      SearchServes(n, kind, p, faults, 0, h);
    }
    hide SearchOf;
  }

  lemma {:induction false} CollectAccounts<S(!new)>(n: Native<S>, kind: Kind, p: Policy, faults: nat -> nat -> Faults, h: HostState<S>)
    requires WellFormed(n, h.world.guest) && !kind.Capturing?
    ensures Accounts(h, CollectOf(n, kind, p, faults, 0, h).search.trial.state)
  {
    if h.nodes <= h.world.wrappers.Keys {
      CollectDrains(n, kind, p, faults, 0, h);
    }
    hide CollectOf;
  }

  // ---------------------------------------------------------------- what the caller holds

  /** Every capture of a match is held in a registered live wrapper. */
  ghost predicate HeldWhole(m: QMatch, entries: seq<Entry>, wrappers: map<u32, nat>, nodes: set<u32>) {
    && |entries| == |m.captures|
    && forall k :: 0 <= k < |entries| ==> entries[k].node in nodes && HoldsAt(entries[k], m.captures[k], wrappers)
  }

  /** One capture of a match is held alone: its wrapper is live and the only one registered, and
  the others of the record are deleted, unless their deletes fail. */
  ghost predicate HeldAlone(e: Event, entries: seq<Entry>, deleted: nat -> bool, wrappers: map<u32, nat>, fewer: set<u32>, nodes: set<u32>) {
    && e.ordinal < |e.match_.captures| == |entries|
    && HoldsAt(entries[e.ordinal], e.match_.captures[e.ordinal], wrappers) && nodes == fewer + {entries[e.ordinal].node}
    && forall k :: 0 <= k < |entries| && k != e.ordinal ==> (entries[k].node in wrappers <==> !deleted(k))
  }

  lemma {:induction false} ShownWhole(kind: Kind, p: Policy, g: Grip, wrappers: map<u32, nat>, nodes: set<u32>)
    requires Shown(kind, p, g, wrappers, nodes) && (kind.Matching? || (kind.Whole? && p.full))
    ensures HeldWhole(g.event.match_, g.entries, wrappers, nodes) && p.accept(g.event.match_)
  {
    forall k | 0 <= k < |g.entries|
      ensures g.entries[k].node in nodes && HoldsAt(g.entries[k], g.event.match_.captures[k], wrappers)
    {
      assert g.entries[k] in g.entries && g.entries[k].node in NodeSet(g.entries);
    }
  }

  /** What the caller of a search holds when it found a value: an accepted match whole, or of a
  capture event, when the match is not wanted, the selected capture alone. */
  ghost predicate CallerHolds<S>(kind: Kind, full: bool, accept: QMatch -> bool, h: HostState<S>, s: Search<S>) {
    s.trial.result.Some? ==>
      var g, now := s.trial.result.value, s.trial.state;
      && accept(g.event.match_)
      && if kind.Whole? && !full then HeldAlone(g.event, g.entries, s.fault.deleted, now.world.wrappers, h.nodes, now.nodes)
         else HeldWhole(g.event.match_, g.entries, now.world.wrappers, now.nodes) && now.nodes == h.nodes + NodeSet(g.entries)
  }

  lemma {:induction false} SearchHolds<S(!new)>(n: Native<S>, kind: Kind, p: Policy, faults: nat -> Faults, h: HostState<S>)
    requires WellFormed(n, h.world.guest) && h.nodes <= h.world.wrappers.Keys && !kind.Capturing?
    ensures CallerHolds(kind, p.full, p.accept, h, SearchOf(n, kind, p, faults, 0, h))
  {
    var s := SearchOf(n, kind, p, faults, 0, h);
    SearchServes(n, kind, p, faults, 0, h);
    if s.trial.result.Some? && !(kind.Whole? && !p.full) {
      ShownWhole(kind, p, s.trial.result.value, s.trial.state.world.wrappers, s.trial.state.nodes);
    }
    hide SearchOf, HostMoves, Leaked, Tidy, FilteredOf, Owed, Cause, HeldWhole;
  }

  /** What the caller of a drain holds: every accepted match, whole. */
  ghost predicate HoldingAll(accept: QMatch -> bool, results: seq<Grip>, wrappers: map<u32, nat>, nodes: set<u32>) {
    forall i :: 0 <= i < |results| ==> accept(results[i].event.match_) && HeldWhole(results[i].event.match_, results[i].entries, wrappers, nodes)
  }

  lemma {:induction false} CollectHolds<S(!new)>(n: Native<S>, kind: Kind, p: Policy, faults: nat -> nat -> Faults, h: HostState<S>)
    requires WellFormed(n, h.world.guest) && h.nodes <= h.world.wrappers.Keys && (kind.Matching? || (kind.Whole? && p.full))
    ensures var d := CollectOf(n, kind, p, faults, 0, h);
            HoldingAll(p.accept, d.results, d.search.trial.state.world.wrappers, d.search.trial.state.nodes)
  {
    var d := CollectOf(n, kind, p, faults, 0, h);
    CollectDrains(n, kind, p, faults, 0, h);
    forall i | 0 <= i < |d.results|
      ensures p.accept(d.results[i].event.match_)
      ensures HeldWhole(d.results[i].event.match_, d.results[i].entries, d.search.trial.state.world.wrappers, d.search.trial.state.nodes)
    {
      ShownWhole(kind, p, d.results[i], d.search.trial.state.world.wrappers, d.search.trial.state.nodes);
    }
  }
}
