/** Lock acquisition across trees and cursors.

Threads run straight-line lock programs.  A read-write lock prefers writers: once a
writer has announced itself no new reader gets in.  Every operation follows one rank
order; the two places that take two locks of one rank hold a coordinator meanwhile. */
module Locks {
  import opened Values

  datatype Lock =
    | CursorPair
    | Cursor(c: nat)
    | Life(t: nat)
    | TreePair
    | TreeMu(t: nat)
    | Rt(r: nat)

  datatype Mode = Shared | Exclusive

  datatype Instr = Acquire(lock: Lock, mode: Mode) | Release(lock: Lock)

  datatype Thread = Thread(rest: seq<Instr>, held: map<Lock, Mode>, announced: bool)

  type State = seq<Thread>

  // ---------------------------------------------------------------- steps

  /** The thread waits to acquire `l`. */
  predicate WaitsFor(th: Thread, l: Lock) {
    th.rest != [] && th.rest[0].Acquire? && th.rest[0].lock == l
  }

  predicate AnnouncedOn(th: Thread, l: Lock) {
    WaitsFor(th, l) && th.rest[0].mode.Exclusive? && th.announced
  }

  /** Can thread `i` take its next step?  Releasing and announcing always can. */
  ghost predicate Enabled(s: State, i: nat) {
    i < |s| && s[i].rest != [] &&
    match s[i].rest[0]
    case Release(l) => true
    case Acquire(l, Shared) =>
      forall j :: 0 <= j < |s| && j != i ==> !(l in s[j].held && s[j].held[l].Exclusive?) && !AnnouncedOn(s[j], l)
    case Acquire(l, Exclusive) =>
      s[i].announced ==> forall j :: 0 <= j < |s| && j != i ==> l !in s[j].held
  }

  function Advance(th: Thread): Thread
    requires th.rest != []
  {
    match th.rest[0]
    case Release(l) => Thread(th.rest[1..], th.held - {l}, false)
    case Acquire(l, Shared) => Thread(th.rest[1..], th.held[l := Shared], false)
    case Acquire(l, Exclusive) =>
      if th.announced then Thread(th.rest[1..], th.held[l := Exclusive], false)
      else th.(announced := true)
  }

  function Step(s: State, i: nat): State
    requires i < |s| && s[i].rest != []
  {
    s[i := Advance(s[i])]
  }

  predicate Done(s: State) {
    forall i :: 0 <= i < |s| ==> s[i].rest == []
  }

  // ---------------------------------------------------------------- the discipline

  function Rank(l: Lock): nat {
    match l
    case CursorPair => 0
    case Cursor(_) => 1
    case Life(_) => 1
    case TreePair => 2
    case TreeMu(_) => 3
    case Rt(_) => 4
  }

  /** A second cursor lock under the cursor coordinator, or a second shared tree lock
  under the tree coordinator. */
  predicate SecondOfPair(held: map<Lock, Mode>, h: Lock, l: Lock, mode: Mode)
    requires h in held
  {
    || (h.Cursor? && l.Cursor? && CursorPair in held)
    || (h.TreeMu? && l.TreeMu? && TreePair in held && mode.Shared? && held[h].Shared?)
  }

  ghost predicate Allowed(held: map<Lock, Mode>, l: Lock, mode: Mode) {
    && l !in held
    && forall h :: h in held ==> Rank(h) < Rank(l) || SecondOfPair(held, h, l, mode)
  }

  /** The locks held after a program, or None when it breaks the discipline. */
  ghost function After(held: map<Lock, Mode>, p: seq<Instr>): (r: (bool, map<Lock, Mode>))
    decreases |p|
  {
    if p == [] then (true, held) else
    match p[0]
    case Acquire(l, mode) => if Allowed(held, l, mode) then After(held[l := mode], p[1..]) else (false, held)
    case Release(l) => if l in held then After(held - {l}, p[1..]) else (false, held)
  }

  /** From these locks the program keeps the discipline and ends holding nothing. */
  ghost predicate Disciplined(held: map<Lock, Mode>, p: seq<Instr>) {
    After(held, p) == (true, map[])
  }

  lemma {:induction false} AfterConcat(held: map<Lock, Mode>, p: seq<Instr>, q: seq<Instr>)
    requires After(held, p).0
    ensures After(held, p + q) == After(After(held, p).1, q)
    decreases |p|
  {
    if p == [] {
      assert p + q == q;
    } else {
      assert (p + q)[1..] == p[1..] + q;
      match p[0] {
        case Acquire(l, mode) => AfterConcat(held[l := mode], p[1..], q);
        case Release(l) => AfterConcat(held - {l}, p[1..], q);
      }
    }
  }

  // ---------------------------------------------------------------- the invariant

  ghost predicate Compatible(a: Thread, b: Thread) {
    forall l :: l in a.held && l in b.held ==> a.held[l].Shared? && b.held[l].Shared?
  }

  ghost predicate Safe(s: State) {
    && (forall i :: 0 <= i < |s| ==> Disciplined(s[i].held, s[i].rest))
    && (forall i, j :: 0 <= i < |s| && 0 <= j < |s| && i != j ==> Compatible(s[i], s[j]))
  }

  lemma {:induction false} StepKeepsSafe(s: State, i: nat)
    requires Safe(s) && Enabled(s, i)
    ensures Safe(Step(s, i))
  {
    var next := Step(s, i);
    assert Disciplined(s[i].held, s[i].rest);
    forall j, k | 0 <= j < |s| && 0 <= k < |s| && j != k
      ensures Compatible(next[j], next[k])
    {
      assert Compatible(s[j], s[k]);
    }
  }

  /** Each step uses up a fixed amount of work, so every run is finite. */
  function Work(s: State): nat {
    if s == [] then 0 else 2 * |s[0].rest| - (if s[0].announced && s[0].rest != [] then 1 else 0) + Work(s[1..])
  }

  lemma {:induction false} StepDoesWork(s: State, i: nat)
    requires i < |s| && s[i].rest != []
    ensures Work(Step(s, i)) < Work(s)
    decreases i
  {
    var next := Step(s, i);
    if i == 0 {
      assert next[1..] == s[1..];
    } else {
      assert next[1..] == Step(s[1..], i - 1);
      StepDoesWork(s[1..], i - 1);
    }
  }

  // ---------------------------------------------------------------- no wait cycle

  /** Nobody can move although somebody has not finished. */
  ghost predicate Stuck(s: State) {
    !Done(s) && forall i :: 0 <= i < |s| ==> !Enabled(s, i)
  }

  /** In a stuck state an unfinished thread waits, and somebody else holds what it waits
  for: directly, or because a writer that announced itself waits for the holder. */
  lemma {:induction false} Blocker(s: State, i: nat) returns (l: Lock, j: nat)
    requires Safe(s) && Stuck(s) && i < |s| && s[i].rest != []
    ensures WaitsFor(s[i], l) && j < |s| && l in s[j].held && s[j].rest != []
    ensures l !in s[i].held && Allowed(s[i].held, l, s[i].rest[0].mode)
  {
    assert !Enabled(s, i);
    assert Disciplined(s[i].held, s[i].rest);
    l := s[i].rest[0].lock;
    if s[i].rest[0].mode.Exclusive? {
      j :| 0 <= j < |s| && j != i && l in s[j].held;
    } else {
      var k :| 0 <= k < |s| && k != i && ((l in s[k].held && s[k].held[l].Exclusive?) || AnnouncedOn(s[k], l));
      if l in s[k].held {
        j := k;
      } else {
        assert !Enabled(s, k);
        j :| 0 <= j < |s| && j != k && l in s[j].held;
      }
    }
    assert Disciplined(s[j].held, s[j].rest);
  }

  /** The holder of a lock, in a stuck state, itself waits for a lock of higher rank or
  for the second of a pair. */
  lemma {:induction false} HolderWaits(s: State, j: nat, l: Lock) returns (next: Lock, k: nat)
    requires Safe(s) && Stuck(s) && j < |s| && s[j].rest != [] && l in s[j].held
    ensures WaitsFor(s[j], next) && next !in s[j].held
    ensures Rank(l) < Rank(next) || SecondOfPair(s[j].held, l, next, s[j].rest[0].mode)
    ensures k < |s| && next in s[k].held && s[k].rest != []
  {
    next, k := Blocker(s, j);
  }

  /** The holder of a coordinator is alone, so the locks it waits for cannot be held by
  another pair in the making. */
  lemma {:induction false} SameHolder(s: State, j: nat, k: nat, l: Lock)
    requires Safe(s) && j < |s| && k < |s| && l in s[j].held && l in s[k].held && s[j].held[l].Exclusive?
    ensures j == k
  {
    assert j != k ==> Compatible(s[j], s[k]);
  }

  /** Waiting chains climb: from a holder of rank `Rank(l)` there is a waiting thread
  whose lock is held one rank higher, until the runtime lock, whose holder never waits. */
  lemma {:induction false} NobodyHolds(s: State, j: nat, l: Lock)
    requires Safe(s) && Stuck(s) && j < |s| && s[j].rest != [] && l in s[j].held
    requires CoordinatorsExclusive(s)
    ensures false
    decreases 4 - Rank(l), 1
  {
    var next, k := HolderWaits(s, j, l);
    if Rank(l) < Rank(next) {
      NobodyHolds(s, k, next);
    } else {
      PairHolderMoves(s, j, l, next, k);
    }
  }

  /** A thread half way through a pair waits for a lock whose holder is not half way
  through a pair itself. */
  lemma {:induction false} PairHolderMoves(s: State, j: nat, l: Lock, next: Lock, k: nat)
    requires Safe(s) && Stuck(s) && j < |s| && s[j].rest != [] && l in s[j].held
    requires WaitsFor(s[j], next) && next !in s[j].held && Rank(l) == Rank(next)
    requires SecondOfPair(s[j].held, l, next, s[j].rest[0].mode)
    requires k < |s| && next in s[k].held && s[k].rest != []
    requires CoordinatorsExclusive(s)
    ensures false
    decreases 4 - Rank(l), 0
  {
    var after, h := HolderWaits(s, k, next);
    if Rank(next) < Rank(after) {
      NobodyHolds(s, h, after);
    } else {
      var coordinator := if l.Cursor? then CursorPair else TreePair;
      assert coordinator in s[j].held && coordinator in s[k].held;
      SameHolder(s, j, k, coordinator);
    }
  }

  /** The two coordinators are plain mutexes. */
  ghost predicate CoordinatorsExclusive(s: State) {
    forall i :: 0 <= i < |s| ==>
      && (CursorPair in s[i].held ==> s[i].held[CursorPair].Exclusive?)
      && (TreePair in s[i].held ==> s[i].held[TreePair].Exclusive?)
      && forall k :: 0 <= k < |s[i].rest| ==> Plain(s[i].rest[k])
  }

  predicate Plain(i: Instr) {
    i.Acquire? && !i.lock.TreeMu? && !i.lock.Life? ==> i.mode.Exclusive?
  }

  lemma {:induction false} StepKeepsCoordinators(s: State, i: nat)
    requires CoordinatorsExclusive(s) && i < |s| && s[i].rest != []
    ensures CoordinatorsExclusive(Step(s, i))
  {
    var next := Step(s, i);
    assert Plain(s[i].rest[0]);
    forall j | 0 <= j < |next|
      ensures (CursorPair in next[j].held ==> next[j].held[CursorPair].Exclusive?)
      ensures (TreePair in next[j].held ==> next[j].held[TreePair].Exclusive?)
      ensures forall k :: 0 <= k < |next[j].rest| ==> Plain(next[j].rest[k])
    {
      forall k | 0 <= k < |next[j].rest|
        ensures Plain(next[j].rest[k])
      {
        assert j == i ==> next[j].rest[k] == s[i].rest[k] || (k + 1 < |s[i].rest| && next[j].rest[k] == s[i].rest[k + 1]);
      }
    }
  }

  lemma {:induction false} NeverStuck(s: State)
    requires Safe(s) && CoordinatorsExclusive(s) && !Done(s)
    ensures exists i :: Enabled(s, i)
  {
    if !exists i :: Enabled(s, i) {
      var i :| 0 <= i < |s| && s[i].rest != [];
      var l, j := Blocker(s, i);
      NobodyHolds(s, j, l);
    }
  }

  // ---------------------------------------------------------------- the operations

  /** A program run while holding one more lock. */
  function Around(l: Lock, mode: Mode, p: seq<Instr>): seq<Instr> {
    [Acquire(l, mode)] + p + [Release(l)]
  }

  /** A guest call made while holding whatever is held. */
  function GuestCall(r: nat): seq<Instr> {
    Around(Rt(r), Exclusive, [])
  }

  function Repeat(p: seq<Instr>, n: nat): seq<Instr> {
    if n == 0 then [] else p + Repeat(p, n - 1)
  }

  /** What a cursor move does to trees while it holds its own mutex: node and cursor calls
  under a read lock, identity tests over two trees, and wrapper registration. */
  datatype SubOp =
    | NodeCall(t: nat, calls: nat)
    | Equal(n: nat, other: nat, calls: nat)
    | RegisterNode(t: nat)
    | Bare(calls: nat)

  datatype Op =
    | ResetTo(c: nat, source: nat, oldTree: nat, sourceTree: nat)
    | Reset(c: nat, oldTree: nat, newTree: nat)
    | CursorMove(c: nat, subs: seq<SubOp>)
    | Plainly(sub: SubOp)
    | ChangedRanges(t: nat, newTree: nat)
    | Edit(t: nat)
    | Close(t: nat, wrappers: nat)

  /** Read locks on one or two trees, taken under the coordinator. */
  function LockPair(first: nat, second: nat): seq<Instr> {
    [Acquire(TreePair, Exclusive), Acquire(TreeMu(first), Shared)]
    + (if second != first then [Acquire(TreeMu(second), Shared)] else [])
    + [Release(TreePair)]
  }

  function UnlockPair(first: nat, second: nat): seq<Instr> {
    (if second != first then [Release(TreeMu(second))] else []) + [Release(TreeMu(first))]
  }

  function EqualCall(r: nat, n: nat): seq<Instr> {
    Around(TreeMu(n), Shared, GuestCall(r))
  }

  function SubProgram(r: nat, sub: SubOp): seq<Instr> {
    match sub
    case NodeCall(t, calls) => Around(TreeMu(t), Shared, Repeat(GuestCall(r), calls))
    case Equal(n, other, calls) =>
      var body := Repeat(EqualCall(r, n), calls);
      Around(TreePair, Exclusive, if n != other then Around(TreeMu(other), Shared, body) else body)
    case RegisterNode(t) => Around(TreeMu(t), Exclusive, [])
    case Bare(calls) => Repeat(GuestCall(r), calls)
  }

  /** A guest call over two trees. */
  function WithTrees(r: nat, first: nat, second: nat): seq<Instr> {
    LockPair(first, second) + GuestCall(r) + UnlockPair(first, second)
  }

  function SubPrograms(r: nat, subs: seq<SubOp>): seq<Instr> {
    if subs == [] then [] else SubProgram(r, subs[0]) + SubPrograms(r, subs[1..])
  }

  /** The lock program of an operation; copying a cursor onto itself does nothing. */
  function Program(r: nat, op: Op): seq<Instr> {
    match op
    case ResetTo(c, source, oldTree, sourceTree) =>
      if c == source then [] else
      Around(CursorPair, Exclusive, Around(Cursor(c), Exclusive, Around(Cursor(source), Exclusive, WithTrees(r, oldTree, sourceTree))))
      + GuestCall(r)
    case Reset(c, oldTree, newTree) => Around(Cursor(c), Exclusive, WithTrees(r, oldTree, newTree)) + GuestCall(r)
    case CursorMove(c, subs) => Around(Cursor(c), Exclusive, SubPrograms(r, subs))
    case Plainly(sub) => SubProgram(r, sub)
    case ChangedRanges(t, newTree) => WithTrees(r, t, newTree)
    case Edit(t) => Around(TreeMu(t), Exclusive, GuestCall(r))
    case Close(t, wrappers) =>
      Around(Life(t), Exclusive, Around(TreeMu(t), Exclusive, []) + (Repeat(GuestCall(r), wrappers) + GuestCall(r)))
  }

  /** The program keeps the discipline from `held` and gives everything back. */
  ghost predicate Returns(held: map<Lock, Mode>, p: seq<Instr>) {
    After(held, p) == (true, held)
  }

  lemma {:induction false} ReturnsConcat(held: map<Lock, Mode>, p: seq<Instr>, q: seq<Instr>)
    requires Returns(held, p) && Returns(held, q)
    ensures Returns(held, p + q)
  {
    AfterConcat(held, p, q);
  }

  /** Taking one allowed lock around a returning program returns. */
  lemma {:induction false} Bracket(held: map<Lock, Mode>, l: Lock, mode: Mode, p: seq<Instr>)
    requires Allowed(held, l, mode) && Returns(held[l := mode], p)
    ensures Returns(held, Around(l, mode, p))
  {
    var inner := held[l := mode];
    var tail := p + [Release(l)];
    AfterConcat(inner, p, [Release(l)]);
    assert [Release(l)][1..] == [];
    assert inner - {l} == held;
    assert [Acquire(l, mode)] + p + [Release(l)] == [Acquire(l, mode)] + tail;
    assert ([Acquire(l, mode)] + tail)[1..] == tail;
  }

  lemma {:induction false} RepeatReturns(held: map<Lock, Mode>, p: seq<Instr>, n: nat)
    requires Returns(held, p)
    ensures Returns(held, Repeat(p, n))
    decreases n
  {
    if n > 0 {
      RepeatReturns(held, p, n - 1);
      ReturnsConcat(held, p, Repeat(p, n - 1));
    }
  }

  /** Nothing of rank four is held. */
  ghost predicate BelowRuntime(held: map<Lock, Mode>) {
    forall h :: h in held ==> Rank(h) < 4
  }

  ghost predicate BelowTrees(held: map<Lock, Mode>) {
    forall h :: h in held ==> Rank(h) < 2
  }

  lemma {:induction false} GuestCallReturns(held: map<Lock, Mode>, r: nat)
    requires BelowRuntime(held)
    ensures Returns(held, GuestCall(r))
  {
    Bracket(held, Rt(r), Exclusive, []);
  }

  /** Pairs are taken under the coordinator, used, and given back. */
  lemma {:induction false} PairReturns(held: map<Lock, Mode>, first: nat, second: nat, r: nat)
    requires BelowTrees(held)
    ensures Returns(held, WithTrees(r, first, second))
  {
    var h := WithPair(held, first, second);
    LockPairTakes(held, first, second);
    GuestCallReturns(h, r);
    UnlockPairGives(held, first, second);
    AfterConcat(held, LockPair(first, second), GuestCall(r));
    AfterConcat(held, LockPair(first, second) + GuestCall(r), UnlockPair(first, second));
  }

  ghost function WithPair(held: map<Lock, Mode>, first: nat, second: nat): map<Lock, Mode> {
    held[TreeMu(first) := Shared][TreeMu(second) := Shared]
  }

  lemma {:induction false} LockPairTakes(held: map<Lock, Mode>, first: nat, second: nat)
    requires BelowTrees(held)
    ensures After(held, LockPair(first, second)) == (true, WithPair(held, first, second))
  {
    var h1 := held[TreePair := Exclusive];
    var h2 := h1[TreeMu(first) := Shared];
    var h3 := h2[TreeMu(second) := Shared];
    var rel := [Release(TreePair)];
    assert rel[1..] == [] && h3 - {TreePair} == WithPair(held, first, second);
    if second != first {
      Takes(h2, TreeMu(second), Shared, rel);
      Takes(h1, TreeMu(first), Shared, [Acquire(TreeMu(second), Shared)] + rel);
      Takes(held, TreePair, Exclusive, [Acquire(TreeMu(first), Shared)] + ([Acquire(TreeMu(second), Shared)] + rel));
      assert LockPair(first, second)
          == [Acquire(TreePair, Exclusive)] + ([Acquire(TreeMu(first), Shared)] + ([Acquire(TreeMu(second), Shared)] + rel));
    } else {
      assert h3 == h2;
      Takes(h1, TreeMu(first), Shared, rel);
      Takes(held, TreePair, Exclusive, [Acquire(TreeMu(first), Shared)] + rel);
      assert LockPair(first, second) == [Acquire(TreePair, Exclusive)] + ([Acquire(TreeMu(first), Shared)] + rel);
    }
  }

  lemma {:induction false} Takes(held: map<Lock, Mode>, l: Lock, mode: Mode, q: seq<Instr>)
    requires Allowed(held, l, mode)
    ensures After(held, [Acquire(l, mode)] + q) == After(held[l := mode], q)
  {
    assert ([Acquire(l, mode)] + q)[1..] == q;
  }

  lemma {:induction false} Gives(held: map<Lock, Mode>, l: Lock, q: seq<Instr>)
    requires l in held
    ensures After(held, [Release(l)] + q) == After(held - {l}, q)
  {
    assert ([Release(l)] + q)[1..] == q;
  }

  lemma {:induction false} UnlockPairGives(held: map<Lock, Mode>, first: nat, second: nat)
    requires BelowTrees(held)
    ensures After(WithPair(held, first, second), UnlockPair(first, second)) == (true, held)
  {
    var h := WithPair(held, first, second);
    assert TreeMu(first) !in held && TreeMu(second) !in held;
    if second != first {
      Gives(h, TreeMu(second), [Release(TreeMu(first))]);
      Gives(h - {TreeMu(second)}, TreeMu(first), []);
      assert [Release(TreeMu(first))] + [] == [Release(TreeMu(first))];
      assert h - {TreeMu(second)} - {TreeMu(first)} == held;
    } else {
      Gives(h, TreeMu(first), []);
      assert UnlockPair(first, second) == [Release(TreeMu(first))] + [];
      assert h - {TreeMu(first)} == held;
    }
  }

  lemma {:induction false} SubReturns(held: map<Lock, Mode>, r: nat, sub: SubOp)
    requires BelowTrees(held)
    ensures Returns(held, SubProgram(r, sub))
  {
    match sub {
      case NodeCall(t, calls) =>
        var h := held[TreeMu(t) := Shared];
        GuestCallReturns(h, r);
        RepeatReturns(h, GuestCall(r), calls);
        Bracket(held, TreeMu(t), Shared, Repeat(GuestCall(r), calls));
      case Equal(n, other, calls) =>
        EqualReturns(held, r, n, other, calls);
      case RegisterNode(t) =>
        Bracket(held, TreeMu(t), Exclusive, []);
      case Bare(calls) =>
        GuestCallReturns(held, r);
        RepeatReturns(held, GuestCall(r), calls);
    }
  }

  lemma {:induction false} EqualReturns(held: map<Lock, Mode>, r: nat, n: nat, other: nat, calls: nat)
    requires BelowTrees(held)
    ensures Returns(held, SubProgram(r, Equal(n, other, calls)))
  {
    var h1 := held[TreePair := Exclusive];
    var body := Repeat(EqualCall(r, n), calls);
    if n != other {
      EqualInner(h1[TreeMu(other) := Shared], r, n, calls);
      Bracket(h1, TreeMu(other), Shared, body);
      Bracket(held, TreePair, Exclusive, Around(TreeMu(other), Shared, body));
    } else {
      EqualInner(h1, r, n, calls);
      Bracket(held, TreePair, Exclusive, body);
    }
  }

  /** The calls of an identity test, under the coordinator and perhaps another tree. */
  lemma {:induction false} EqualInner(held: map<Lock, Mode>, r: nat, n: nat, calls: nat)
    requires Allowed(held, TreeMu(n), Shared) && BelowRuntime(held)
    ensures Returns(held, Repeat(EqualCall(r, n), calls))
  {
    GuestCallReturns(held[TreeMu(n) := Shared], r);
    Bracket(held, TreeMu(n), Shared, GuestCall(r));
    RepeatReturns(held, EqualCall(r, n), calls);
  }

  lemma {:induction false} SubsReturn(held: map<Lock, Mode>, r: nat, subs: seq<SubOp>)
    requires BelowTrees(held)
    ensures Returns(held, SubPrograms(r, subs))
    decreases |subs|
  {
    if subs != [] {
      SubReturns(held, r, subs[0]);
      SubsReturn(held, r, subs[1..]);
      ReturnsConcat(held, SubProgram(r, subs[0]), SubPrograms(r, subs[1..]));
    }
  }

  /** Every operation keeps the discipline. */
  lemma {:induction false} OpDisciplined(r: nat, op: Op)
    ensures Disciplined(map[], Program(r, op))
  {
    GuestCallReturns(map[], r);
    match op {
      case ResetTo(c, source, oldTree, sourceTree) =>
        ResetToReturns(r, c, source, oldTree, sourceTree);
      case Reset(c, oldTree, newTree) =>
        var h := map[Cursor(c) := Exclusive];
        PairReturns(h, oldTree, newTree, r);
        Bracket(map[], Cursor(c), Exclusive, WithTrees(r, oldTree, newTree));
        ReturnsConcat(map[], Around(Cursor(c), Exclusive, WithTrees(r, oldTree, newTree)), GuestCall(r));
      case CursorMove(c, subs) =>
        SubsReturn(map[Cursor(c) := Exclusive], r, subs);
        Bracket(map[], Cursor(c), Exclusive, SubPrograms(r, subs));
      case Plainly(sub) =>
        SubReturns(map[], r, sub);
      case ChangedRanges(t, newTree) =>
        PairReturns(map[], t, newTree, r);
      case Edit(t) =>
        GuestCallReturns(map[TreeMu(t) := Exclusive], r);
        Bracket(map[], TreeMu(t), Exclusive, GuestCall(r));
      case Close(t, wrappers) =>
        CloseReturns(r, t, wrappers);
    }
  }

  lemma {:induction false} ResetToReturns(r: nat, c: nat, source: nat, oldTree: nat, sourceTree: nat)
    ensures Returns(map[], Program(r, ResetTo(c, source, oldTree, sourceTree)))
  {
    if c != source {
      var h1: map<Lock, Mode> := map[CursorPair := Exclusive];
      var h2 := h1[Cursor(c) := Exclusive];
      var trees := WithTrees(r, oldTree, sourceTree);
      PairReturns(h2[Cursor(source) := Exclusive], oldTree, sourceTree, r);
      Bracket(h2, Cursor(source), Exclusive, trees);
      Bracket(h1, Cursor(c), Exclusive, Around(Cursor(source), Exclusive, trees));
      var inner := Around(Cursor(c), Exclusive, Around(Cursor(source), Exclusive, trees));
      Bracket(map[], CursorPair, Exclusive, inner);
      GuestCallReturns(map[], r);
      ReturnsConcat(map[], Around(CursorPair, Exclusive, inner), GuestCall(r));
    }
  }

  lemma {:induction false} CloseReturns(r: nat, t: nat, wrappers: nat)
    ensures Returns(map[], Program(r, Close(t, wrappers)))
  {
    var h: map<Lock, Mode> := map[Life(t) := Exclusive];
    var frees := Repeat(GuestCall(r), wrappers);
    Bracket(h, TreeMu(t), Exclusive, []);
    GuestCallReturns(h, r);
    RepeatReturns(h, GuestCall(r), wrappers);
    ReturnsConcat(h, frees, GuestCall(r));
    ReturnsConcat(h, Around(TreeMu(t), Exclusive, []), frees + GuestCall(r));
    Bracket(map[], Life(t), Exclusive, Around(TreeMu(t), Exclusive, []) + (frees + GuestCall(r)));
  }

  // ---------------------------------------------------------------- every run

  /** An operation and the runtime its trees belong to. */
  datatype Request = Request(r: nat, op: Op)

  /** One thread per operation, none started. */
  function Start(ops: seq<Request>): State {
    seq(|ops|, i requires 0 <= i < |ops| => Thread(Program(ops[i].r, ops[i].op), map[], false))
  }

  /** The state after a schedule of enabled steps. */
  ghost predicate IsRun(s: State, schedule: seq<nat>)
    decreases |schedule|
  {
    schedule == [] || (Enabled(s, schedule[0]) && IsRun(Step(s, schedule[0]), schedule[1..]))
  }

  ghost function Final(s: State, schedule: seq<nat>): State
    requires IsRun(s, schedule)
    decreases |schedule|
  {
    if schedule == [] then s else Final(Step(s, schedule[0]), schedule[1..])
  }

  lemma {:induction false} RunKeepsSafe(s: State, schedule: seq<nat>)
    requires Safe(s) && CoordinatorsExclusive(s) && IsRun(s, schedule)
    ensures Safe(Final(s, schedule)) && CoordinatorsExclusive(Final(s, schedule))
    ensures Work(Final(s, schedule)) + |schedule| <= Work(s)
    decreases |schedule|
  {
    if schedule != [] {
      StepKeepsSafe(s, schedule[0]);
      StepKeepsCoordinators(s, schedule[0]);
      StepDoesWork(s, schedule[0]);
      RunKeepsSafe(Step(s, schedule[0]), schedule[1..]);
    }
  }

  ghost predicate AllPlain(p: seq<Instr>) {
    forall k :: 0 <= k < |p| ==> Plain(p[k])
  }

  lemma {:induction false} PlainConcat(p: seq<Instr>, q: seq<Instr>)
    requires AllPlain(p) && AllPlain(q)
    ensures AllPlain(p + q)
  {
  }

  lemma {:induction false} PlainAround(l: Lock, mode: Mode, p: seq<Instr>)
    requires AllPlain(p) && Plain(Acquire(l, mode))
    ensures AllPlain(Around(l, mode, p))
  {
  }

  lemma {:induction false} PlainRepeat(p: seq<Instr>, n: nat)
    requires AllPlain(p)
    ensures AllPlain(Repeat(p, n))
    decreases n
  {
    if n > 0 {
      PlainRepeat(p, n - 1);
      PlainConcat(p, Repeat(p, n - 1));
    }
  }

  lemma {:induction false} PlainTrees(r: nat, first: nat, second: nat)
    ensures AllPlain(WithTrees(r, first, second))
  {
    PlainAround(Rt(r), Exclusive, []);
    assert AllPlain(LockPair(first, second)) && AllPlain(UnlockPair(first, second));
    PlainConcat(LockPair(first, second), GuestCall(r));
    PlainConcat(LockPair(first, second) + GuestCall(r), UnlockPair(first, second));
  }

  lemma {:induction false} PlainSub(r: nat, sub: SubOp)
    ensures AllPlain(SubProgram(r, sub))
  {
    PlainAround(Rt(r), Exclusive, []);
    match sub {
      case NodeCall(t, calls) =>
        PlainRepeat(GuestCall(r), calls);
        PlainAround(TreeMu(t), Shared, Repeat(GuestCall(r), calls));
      case Equal(n, other, calls) =>
        PlainAround(TreeMu(n), Shared, GuestCall(r));
        PlainRepeat(EqualCall(r, n), calls);
        PlainAround(TreeMu(other), Shared, Repeat(EqualCall(r, n), calls));
        PlainAround(TreePair, Exclusive, if n != other then Around(TreeMu(other), Shared, Repeat(EqualCall(r, n), calls)) else Repeat(EqualCall(r, n), calls));
      case RegisterNode(t) =>
        PlainAround(TreeMu(t), Exclusive, []);
      case Bare(calls) =>
        PlainRepeat(GuestCall(r), calls);
    }
  }

  lemma {:induction false} PlainSubs(r: nat, subs: seq<SubOp>)
    ensures AllPlain(SubPrograms(r, subs))
    decreases |subs|
  {
    if subs != [] {
      PlainSub(r, subs[0]);
      PlainSubs(r, subs[1..]);
      PlainConcat(SubProgram(r, subs[0]), SubPrograms(r, subs[1..]));
    }
  }

  lemma {:induction false} ProgramPlain(r: nat, op: Op)
    ensures AllPlain(Program(r, op))
  {
    PlainAround(Rt(r), Exclusive, []);
    match op {
      case ResetTo(c, source, oldTree, sourceTree) =>
        var trees := WithTrees(r, oldTree, sourceTree);
        PlainTrees(r, oldTree, sourceTree);
        PlainAround(Cursor(source), Exclusive, trees);
        PlainAround(Cursor(c), Exclusive, Around(Cursor(source), Exclusive, trees));
        var inner := Around(Cursor(c), Exclusive, Around(Cursor(source), Exclusive, trees));
        PlainAround(CursorPair, Exclusive, inner);
        PlainConcat(Around(CursorPair, Exclusive, inner), GuestCall(r));
      case Reset(c, oldTree, newTree) =>
        PlainTrees(r, oldTree, newTree);
        PlainAround(Cursor(c), Exclusive, WithTrees(r, oldTree, newTree));
        PlainConcat(Around(Cursor(c), Exclusive, WithTrees(r, oldTree, newTree)), GuestCall(r));
      case CursorMove(c, subs) =>
        PlainSubs(r, subs);
        PlainAround(Cursor(c), Exclusive, SubPrograms(r, subs));
      case Plainly(sub) =>
        PlainSub(r, sub);
      case ChangedRanges(t, newTree) =>
        PlainTrees(r, t, newTree);
      case Edit(t) =>
        PlainAround(TreeMu(t), Exclusive, GuestCall(r));
      case Close(t, wrappers) =>
        PlainRepeat(GuestCall(r), wrappers);
        PlainConcat(Repeat(GuestCall(r), wrappers), GuestCall(r));
        PlainAround(TreeMu(t), Exclusive, []);
        PlainConcat(Around(TreeMu(t), Exclusive, []), Repeat(GuestCall(r), wrappers) + GuestCall(r));
        PlainAround(Life(t), Exclusive, Around(TreeMu(t), Exclusive, []) + (Repeat(GuestCall(r), wrappers) + GuestCall(r)));
    }
  }

  /** Deadlock freedom: however any number of operations interleave, a state in which
  somebody has not finished has a thread that can move. */
  lemma {:induction false} NoDeadlock(ops: seq<Request>, schedule: seq<nat>)
    requires IsRun(Start(ops), schedule)
    ensures var s := Final(Start(ops), schedule); Done(s) || exists i :: Enabled(s, i)
  {
    var s0 := Start(ops);
    StartIsSafe(ops);
    RunKeepsSafe(s0, schedule);
    var s := Final(s0, schedule);
    if !Done(s) {
      NeverStuck(s);
    }
  }

  lemma {:induction false} StartIsSafe(ops: seq<Request>)
    ensures Safe(Start(ops)) && CoordinatorsExclusive(Start(ops))
  {
    forall i | 0 <= i < |ops|
      ensures Disciplined(Start(ops)[i].held, Start(ops)[i].rest)
      ensures AllPlain(Start(ops)[i].rest)
    {
      OpDisciplined(ops[i].r, ops[i].op);
      ProgramPlain(ops[i].r, ops[i].op);
    }
  }

  /** And every run can be carried on to the end: there is a schedule that finishes all. */
  lemma {:induction false} RunCompletes(s: State) returns (schedule: seq<nat>)
    requires Safe(s) && CoordinatorsExclusive(s)
    ensures IsRun(s, schedule) && Done(Final(s, schedule))
    decreases Work(s)
  {
    if Done(s) {
      return [];
    }
    NeverStuck(s);
    var i :| Enabled(s, i);
    StepKeepsSafe(s, i);
    StepKeepsCoordinators(s, i);
    StepDoesWork(s, i);
    var rest := RunCompletes(Step(s, i));
    schedule := [i] + rest;
    assert schedule[1..] == rest;
  }

  // ---------------------------------------------------------------- why the coordinator

  /** Two read locks taken in opposite orders without the coordinator, with a writer
  announced on each tree: nobody can move. */
  lemma {:induction false} UncoordinatedPairsStick(t: nat, u: nat)
    requires t != u
    ensures Stuck([
      Thread([Acquire(TreeMu(u), Shared), Release(TreeMu(u)), Release(TreeMu(t))], map[TreeMu(t) := Shared], false),
      Thread([Acquire(TreeMu(t), Shared), Release(TreeMu(t)), Release(TreeMu(u))], map[TreeMu(u) := Shared], false),
      Thread([Acquire(TreeMu(t), Exclusive), Release(TreeMu(t))], map[], true),
      Thread([Acquire(TreeMu(u), Exclusive), Release(TreeMu(u))], map[], true)])
  {
    var s := [
      Thread([Acquire(TreeMu(u), Shared), Release(TreeMu(u)), Release(TreeMu(t))], map[TreeMu(t) := Shared], false),
      Thread([Acquire(TreeMu(t), Shared), Release(TreeMu(t)), Release(TreeMu(u))], map[TreeMu(u) := Shared], false),
      Thread([Acquire(TreeMu(t), Exclusive), Release(TreeMu(t))], map[], true),
      Thread([Acquire(TreeMu(u), Exclusive), Release(TreeMu(u))], map[], true)];
    assert AnnouncedOn(s[3], TreeMu(u)) && !Enabled(s, 0);
    assert AnnouncedOn(s[2], TreeMu(t)) && !Enabled(s, 1);
    assert TreeMu(t) in s[0].held && !Enabled(s, 2);
    assert TreeMu(u) in s[1].held && !Enabled(s, 3);
    assert s[0].rest != [];
  }
}
