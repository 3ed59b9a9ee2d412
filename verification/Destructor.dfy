/** When the guest's query-cursor destructor finds its tree freed: over every schedule,
exactly when an execution was exhausted or stopped with its handle kept, and the tree was
freed afterwards. */
module Destructor {
  import opened Values
  import opened Lifetime

  // ---------------------------------------------------------------- the history of a handle

  /** The tree a handle still points into although its gate was released, and whether that
  tree was freed since. */
  datatype History = History(loose: Option<nat>, freed: bool)

  /** The step releases the gate of cursor `c` and keeps its handle: `NextMatch` or
  `NextCapture` without a result, or either of them on a cursor found canceled or closed. */
  predicate Loosens(s: State, pc: Pc, c: nat) {
    && ((pc.Next? && pc.n == NextEnd(false) && pc.c == c) || (pc.OnCursor? && pc.k.StopOwn? && pc.c == c))
    && c < |s.cursors| && s.cursors[c].gate.Some? && s.cursors[c].native == Bound(s.cursors[c].gate.value)
  }

  /** The step destroys the handle of cursor `c` or points it elsewhere. */
  predicate Rebinds(s: State, pc: Pc, c: nat) {
    || (pc.Exec? && (pc.x.ExecRetire? || pc.x.ExecCall? || pc.x.ExecAbort?) && pc.c == c)
    || (pc.OnCursor? && pc.k.CloseOwn? && pc.c == c)
    || (pc.OnCursor? && pc.k.CancelOwn? && pc.c == c && c < |s.cursors| && !s.cursors[c].closed)
  }

  function After(s: State, pc: Pc, c: nat, h: History): History {
    if Loosens(s, pc, c) then History(s.cursors[c].gate, false)
    else if Rebinds(s, pc, c) then History(None, false)
    else if pc.OnTree? && pc.z.TreeDelete? && h.loose == Some(pc.t) then History(h.loose, true)
    else h
  }

  /** The history of cursor `c`'s handle over a run. */
  ghost function HistoryOf(s: State, schedule: seq<(nat, Choice)>, c: nat): History
    requires Inv(s)
  {
    if schedule == [] then History(None, false)
    else
      var before, last := schedule[..|schedule| - 1], schedule[|schedule| - 1];
      var p := RunFrom(s, before);
      if last.0 < |p.threads| && Step(p, last.0, last.1).Some? then After(p, p.threads[last.0], c, HistoryOf(s, before, c))
      else HistoryOf(s, before, c)
  }

  // ---------------------------------------------------------------- what ties it to the state

  /** Where the thread that owns a cursor stands with it. */
  function OwnerPc(s: State, c: nat): Pc {
    if c < |s.cursors| && s.cursors[c].owner.Some? && s.cursors[c].owner.value < |s.threads| then s.threads[s.cursors[c].owner.value]
    else Idle
  }

  /** The owner has just been refused by the guest, and destroys the handle next. */
  predicate Calling(s: State, c: nat, t: nat) {
    var pc := OwnerPc(s, c);
    pc.Exec? && pc.x == ExecAbort(true) && pc.c == c && pc.t == t
  }

  /** The owner has destroyed the handle and releases the gate next. */
  predicate Ungating(s: State, c: nat) {
    var pc := OwnerPc(s, c);
    || (pc.Exec? && pc.x.ExecUngate? && pc.c == c)
    || (pc.OnCursor? && (pc.k.CancelUngate? || pc.k.CloseUngate?) && pc.c == c)
  }

  predicate Starting(s: State, c: nat) {
    var pc := OwnerPc(s, c);
    pc.Exec? && pc.x.ExecCall? && pc.c == c
  }

  /** A handle points into the tree its cursor was started on; a canceled cursor, and one
  whose `Close` is through, has none. */
  predicate HandleOk(s: State, c: nat) {
    c < |s.cursors| ==>
      var x := s.cursors[c];
      && (x.native.Bound? ==> x.native.t < |s.trees| && x.target.Some? && x.target.value.0 == x.native.t)
      && (x.canceled ==> !x.native.Bound?)
      && (x.closed && x.closer.None? ==> !x.native.Bound?)
      && (Ungating(s, c) ==> !x.native.Bound?)
      && (Starting(s, c) ==> !x.canceled)
  }

  /** A handle points into a tree its cursor's gate keeps, into one its owner holds, or is
  loose; a loose one's tree is freed as the history says. */
  predicate Tied(s: State, c: nat, h: History) {
    c < |s.cursors| ==>
      var x := s.cursors[c];
      && (h.loose.Some? ==>
            && x.native == Bound(h.loose.value) && x.gate.None? && h.loose.value < |s.trees|
            && (h.freed <==> !s.trees[h.loose.value].live))
      && (x.native.Bound? ==> x.gate == Some(x.native.t) || h.loose == Some(x.native.t) || Calling(s, c, x.native.t))
  }

  lemma {:induction false} InitiallyTied(s: State, c: nat)
    requires Initial(s)
    ensures HandleOk(s, c) && Tied(s, c, History(None, false))
  {
  }

  // ---------------------------------------------------------------- every step

  /** What the locks and gates say about cursor `c` and the moving thread. */
  predicate Ready(s: State, i: nat, c: nat) {
    && i < |s.threads| && c < |s.cursors| && TargetsInRange(s, s.cursors[c])
    && var x, held := s.cursors[c], ResOf(s.threads[i]);
       && (held.own == Some(c) <==> x.owner == Some(i))
       && (held.closing == Some(c) <==> x.closer == Some(i))
       && (held.ungated == Some(c) ==> x.gate.None?)
       && (held.starting == Some(c) ==> x.closed ==> x.closer.Some?)
       && (x.closer.Some? ==> x.closed)
       && (x.gate.Some? ==> s.trees[x.gate.value].live && (x.native.Bound? ==> x.native.t == x.gate.value))
  }

  lemma {:induction false} InvReady(s: State, i: nat, c: nat)
    requires Inv(s) && i < |s.threads| && c < |s.cursors|
    ensures Ready(s, i, c) && InRange(s, s.threads[i])
  {
    var v := ViewOf(s);
    assert OwnerAt(v, c, i) && CloserAt(v, c, i) && CursorOk(v, c) && Sound(v, i);
    assert v.threads[i] == ResOf(s.threads[i]);
    if s.cursors[c].gate.Some? {
      assert TreeOk(v, s.cursors[c].gate.value);
    }
  }

  /** The step of the thread that stands at `pc` keeps the tie of cursor `c`. */
  ghost predicate Keeps(s: State, r: State, pc: Pc, c: nat, h: History) {
    HandleOk(r, c) && Tied(r, c, After(s, pc, c, h))
  }

  /** A step that leaves the cursor, its owner's place and the loose tree alone. */
  lemma {:induction false} AsideTied(s: State, r: State, i: nat, c: nat, h: History)
    requires Ready(s, i, c) && HandleOk(s, c) && Tied(s, c, h)
    requires |r.trees| == |s.trees| && |r.cursors| == |s.cursors| && r.cursors[c] == s.cursors[c]
    requires OnlyAt(s.threads, r.threads, i) && s.cursors[c].owner != Some(i)
    requires h.loose.Some? ==> r.trees[h.loose.value].live == s.trees[h.loose.value].live
    ensures HandleOk(r, c) && Tied(r, c, h)
  {
    assert OwnerPc(r, c) == OwnerPc(s, c);
  }

  lemma {:induction false} ExecStartsTied(s: State, i: nat, at: ExecAt, c: nat, q: nat, t: nat, ch: Choice, h: History)
    requires Ready(s, i, c) && s.threads[i] == Exec(at, c, q, t) && q < |s.queries| && t < |s.trees|
    requires at.ExecWant? || at.ExecOwn? || at.ExecWantQuery? || at.ExecWantLife?
    requires StepExec(s, i, at, c, q, t, ch).Some? && HandleOk(s, c) && Tied(s, c, h)
    ensures Keeps(s, StepExec(s, i, at, c, q, t, ch).value, s.threads[i], c, h)
  {
  }

  lemma {:induction false} ExecEndsTied(s: State, i: nat, at: ExecAt, c: nat, q: nat, t: nat, ch: Choice, h: History)
    requires Ready(s, i, c) && s.threads[i] == Exec(at, c, q, t) && q < |s.queries| && t < |s.trees|
    requires at.ExecCheck? || at.ExecRelease? || at.ExecUnlockQuery?
    requires StepExec(s, i, at, c, q, t, ch).Some? && HandleOk(s, c) && Tied(s, c, h)
    ensures Keeps(s, StepExec(s, i, at, c, q, t, ch).value, s.threads[i], c, h)
  {
  }

  lemma {:induction false} ExecDropsTied(s: State, i: nat, at: ExecAt, c: nat, q: nat, t: nat, ch: Choice, h: History)
    requires Ready(s, i, c) && s.threads[i] == Exec(at, c, q, t) && q < |s.queries| && t < |s.trees|
    requires at.ExecRetire? || at.ExecUngate? || at.ExecCall? || at.ExecAbort?
    requires StepExec(s, i, at, c, q, t, ch).Some? && HandleOk(s, c) && Tied(s, c, h)
    ensures Keeps(s, StepExec(s, i, at, c, q, t, ch).value, s.threads[i], c, h)
  {
  }

  lemma {:induction false} NextChecksTied(s: State, i: nat, at: NextAt, c: nat, q: nat, t: nat, temp: bool, ch: Choice, h: History)
    requires Ready(s, i, c) && s.threads[i] == Next(at, c, q, t, temp) && q < |s.queries| && t < |s.trees|
    requires at.NextCheck? || at.NextWantQuery? || at.NextCheckQuery?
    requires StepNext(s, i, at, c, q, t, temp, ch).Some? && HandleOk(s, c) && Tied(s, c, h)
    ensures Keeps(s, StepNext(s, i, at, c, q, t, temp, ch).value, s.threads[i], c, h)
  {
  }

  lemma {:induction false} NextCallsTied(s: State, i: nat, at: NextAt, c: nat, q: nat, t: nat, temp: bool, ch: Choice, h: History)
    requires Ready(s, i, c) && s.threads[i] == Next(at, c, q, t, temp) && q < |s.queries| && t < |s.trees|
    requires at.NextCall? || at.NextEval? || at.NextRelease?
    requires StepNext(s, i, at, c, q, t, temp, ch).Some? && HandleOk(s, c) && Tied(s, c, h)
    ensures Keeps(s, StepNext(s, i, at, c, q, t, temp, ch).value, s.threads[i], c, h)
  {
  }

  lemma {:induction false} NextEndsTied(s: State, i: nat, at: NextAt, c: nat, q: nat, t: nat, temp: bool, ch: Choice, h: History)
    requires Ready(s, i, c) && s.threads[i] == Next(at, c, q, t, temp) && q < |s.queries| && t < |s.trees|
    requires at.NextEnd?
    requires StepNext(s, i, at, c, q, t, temp, ch).Some? && HandleOk(s, c) && Tied(s, c, h)
    ensures Keeps(s, StepNext(s, i, at, c, q, t, temp, ch).value, s.threads[i], c, h)
  {
  }

  lemma {:induction false} CursorTakesTied(s: State, i: nat, at: CursorAt, c: nat, h: History)
    requires Ready(s, i, c) && s.threads[i] == OnCursor(at, c)
    requires at.NextWant? || at.CancelWant? || at.StopWant? || at.CloseWant?
    requires StepCursor(s, i, at, c).Some? && HandleOk(s, c) && Tied(s, c, h)
    ensures Keeps(s, StepCursor(s, i, at, c).value, s.threads[i], c, h)
  {
  }

  lemma {:induction false} CursorFindsTied(s: State, i: nat, at: CursorAt, c: nat, h: History)
    requires Ready(s, i, c) && s.threads[i] == OnCursor(at, c)
    requires at.NextOwn? || at.Unlock?
    requires StepCursor(s, i, at, c).Some? && HandleOk(s, c) && Tied(s, c, h)
    ensures Keeps(s, StepCursor(s, i, at, c).value, s.threads[i], c, h)
  {
  }

  lemma {:induction false} CursorStopsTied(s: State, i: nat, at: CursorAt, c: nat, h: History)
    requires Ready(s, i, c) && s.threads[i] == OnCursor(at, c)
    requires at.CancelOwn? || at.CancelUngate? || at.StopOwn?
    requires StepCursor(s, i, at, c).Some? && HandleOk(s, c) && Tied(s, c, h)
    ensures Keeps(s, StepCursor(s, i, at, c).value, s.threads[i], c, h)
  {
  }

  lemma {:induction false} CursorClosesTied(s: State, i: nat, at: CursorAt, c: nat, h: History)
    requires Ready(s, i, c) && s.threads[i] == OnCursor(at, c)
    requires at.CloseOwn? || at.CloseUngate?
    requires StepCursor(s, i, at, c).Some? && HandleOk(s, c) && Tied(s, c, h)
    ensures Keeps(s, StepCursor(s, i, at, c).value, s.threads[i], c, h)
  {
  }

  lemma {:induction false} TreeTied(s: State, i: nat, at: TreeAt, t: nat, c: nat, h: History)
    requires Ready(s, i, c) && s.threads[i] == OnTree(at, t) && t < |s.trees|
    requires StepTree(s, i, at, t).Some? && HandleOk(s, c) && Tied(s, c, h)
    ensures Keeps(s, StepTree(s, i, at, t).value, s.threads[i], c, h)
  {
  }

  lemma {:induction false} BeginTied(s: State, i: nat, ch: Choice, c: nat, h: History)
    requires Ready(s, i, c) && s.threads[i].Idle?
    requires Begin(s, i, ch).Some? && HandleOk(s, c) && Tied(s, c, h)
    ensures Keeps(s, Begin(s, i, ch).value, s.threads[i], c, h)
  {
    if ch != StartClose(c) {
      AsideTied(s, Begin(s, i, ch).value, i, c, h);
    }
  }

  lemma {:induction false} ExecAside(s: State, i: nat, at: ExecAt, d: nat, q: nat, t: nat, ch: Choice, c: nat, h: History)
    requires Ready(s, i, c) && s.threads[i] == Exec(at, d, q, t) && d < |s.cursors| && q < |s.queries| && t < |s.trees|
    requires d != c && TargetsInRange(s, s.cursors[d])
    requires StepExec(s, i, at, d, q, t, ch).Some? && HandleOk(s, c) && Tied(s, c, h)
    ensures Keeps(s, StepExec(s, i, at, d, q, t, ch).value, s.threads[i], c, h)
  {
    AsideTied(s, StepExec(s, i, at, d, q, t, ch).value, i, c, h);
  }

  lemma {:induction false} NextAside(s: State, i: nat, at: NextAt, d: nat, q: nat, t: nat, temp: bool, ch: Choice, c: nat, h: History)
    requires Ready(s, i, c) && s.threads[i] == Next(at, d, q, t, temp) && d < |s.cursors| && q < |s.queries| && t < |s.trees|
    requires d != c && TargetsInRange(s, s.cursors[d])
    requires StepNext(s, i, at, d, q, t, temp, ch).Some? && HandleOk(s, c) && Tied(s, c, h)
    ensures Keeps(s, StepNext(s, i, at, d, q, t, temp, ch).value, s.threads[i], c, h)
  {
    AsideTied(s, StepNext(s, i, at, d, q, t, temp, ch).value, i, c, h);
  }

  lemma {:induction false} CursorAside(s: State, i: nat, at: CursorAt, d: nat, c: nat, h: History)
    requires Ready(s, i, c) && s.threads[i] == OnCursor(at, d) && d < |s.cursors|
    requires d != c && TargetsInRange(s, s.cursors[d])
    requires StepCursor(s, i, at, d).Some? && HandleOk(s, c) && Tied(s, c, h)
    ensures Keeps(s, StepCursor(s, i, at, d).value, s.threads[i], c, h)
  {
    AsideTied(s, StepCursor(s, i, at, d).value, i, c, h);
  }

  lemma {:induction false} QueryAside(s: State, i: nat, at: QueryAt, q: nat, c: nat, h: History)
    requires Ready(s, i, c) && s.threads[i] == OnQuery(at, q) && q < |s.queries|
    requires StepQuery(s, i, at, q).Some? && HandleOk(s, c) && Tied(s, c, h)
    ensures Keeps(s, StepQuery(s, i, at, q).value, s.threads[i], c, h)
  {
    AsideTied(s, StepQuery(s, i, at, q).value, i, c, h);
  }

  /** Every step of every thread keeps each cursor's tie to its history. */
  lemma {:induction false} StepTied(s: State, i: nat, ch: Choice, c: nat, h: History)
    requires Inv(s) && i < |s.threads| && c < |s.cursors| && Step(s, i, ch).Some?
    requires HandleOk(s, c) && Tied(s, c, h)
    ensures Keeps(s, Step(s, i, ch).value, s.threads[i], c, h)
  {
    InvReady(s, i, c);
    match s.threads[i] {
      case Idle => BeginTied(s, i, ch, c, h);
      case Exec(at, d, q, t) =>
        if d != c {
          ExecAside(s, i, at, d, q, t, ch, c, h);
        } else if at.ExecWant? || at.ExecOwn? || at.ExecWantQuery? || at.ExecWantLife? {
          ExecStartsTied(s, i, at, c, q, t, ch, h);
        } else if at.ExecCheck? || at.ExecRelease? || at.ExecUnlockQuery? {
          ExecEndsTied(s, i, at, c, q, t, ch, h);
        } else {
          ExecDropsTied(s, i, at, c, q, t, ch, h);
        }
      case Next(at, d, q, t, temp) =>
        if d != c {
          NextAside(s, i, at, d, q, t, temp, ch, c, h);
        } else if at.NextCheck? || at.NextWantQuery? || at.NextCheckQuery? {
          NextChecksTied(s, i, at, c, q, t, temp, ch, h);
        } else if at.NextEnd? {
          NextEndsTied(s, i, at, c, q, t, temp, ch, h);
        } else {
          NextCallsTied(s, i, at, c, q, t, temp, ch, h);
        }
      case OnCursor(at, d) =>
        if d != c {
          CursorAside(s, i, at, d, c, h);
        } else if at.NextOwn? || at.Unlock? {
          CursorFindsTied(s, i, at, c, h);
        } else if at.CancelOwn? || at.CancelUngate? || at.StopOwn? {
          CursorStopsTied(s, i, at, c, h);
        } else if at.CloseOwn? || at.CloseUngate? {
          CursorClosesTied(s, i, at, c, h);
        } else {
          CursorTakesTied(s, i, at, c, h);
        }
      case OnQuery(at, q) => QueryAside(s, i, at, q, c, h);
      case OnTree(at, t) => TreeTied(s, i, at, t, c, h);
    }
  }

  // ---------------------------------------------------------------- every run

  lemma {:induction false} RunTied(s: State, schedule: seq<(nat, Choice)>, c: nat)
    requires Initial(s) && Inv(s) && c < |s.cursors|
    ensures HandleOk(RunFrom(s, schedule), c) && Tied(RunFrom(s, schedule), c, HistoryOf(s, schedule, c))
  {
    if schedule == [] {
      InitiallyTied(s, c);
    } else {
      var before, last := schedule[..|schedule| - 1], schedule[|schedule| - 1];
      RunTied(s, before, c);
      var p := RunFrom(s, before);
      if last.0 < |p.threads| && Step(p, last.0, last.1).Some? {
        StepTied(p, last.0, last.1, c, HistoryOf(s, before, c));
      }
    }
  }

  /** A thread whose execution the guest has just refused still holds the tree. */
  lemma {:induction false} CallingLive(r: State, c: nat, t: nat)
    requires Inv(r) && Calling(r, c, t)
    ensures t < |r.trees| && r.trees[t].live
  {
    var v, i := ViewOf(r), r.cursors[c].owner.value;
    assert v.threads[i] == ResOf(r.threads[i]);
    assert Sound(v, i) && TreeOk(v, t);
  }

  /** Over every schedule: a handle points into a freed tree exactly when a step released
  its gate and kept it, no step has destroyed or rebound it since, and the tree was freed
  after the release. */
  lemma {:induction false} DanglesIff(s: State, schedule: seq<(nat, Choice)>, c: nat)
    requires Initial(s) && c < |s.cursors|
    ensures Inv(s)
    ensures var r, h := RunFrom(s, schedule), HistoryOf(s, schedule, c);
      r.cursors[c].native.Bound? ==>
        && r.cursors[c].native.t < |r.trees|
        && (!r.trees[r.cursors[c].native.t].live <==> h == History(Some(r.cursors[c].native.t), true))
        && (r.cursors[c].gate.Some? ==> r.trees[r.cursors[c].native.t].live)
  {
    InitialInv(s);
    RunTied(s, schedule, c);
    var r := RunFrom(s, schedule);
    if r.cursors[c].native.Bound? {
      var t := r.cursors[c].native.t;
      if r.cursors[c].gate == Some(t) {
        assert CursorOk(ViewOf(r), c) && TreeOk(ViewOf(r), t);
      } else if Calling(r, c, t) {
        CallingLive(r, c, t);
      }
    }
  }

  // ---------------------------------------------------------------- closing cursors first

  /** A cursor that closing tree `t` cannot hurt: canceled, closed and through with it,
  never started, or started on another tree. */
  predicate Settled(x: CursorSt, t: nat) {
    x.canceled || (x.closed && x.closer.None?) || x.target.None? || x.target.value.0 != t
  }

  /** Each `Tree.Close` of the schedule finds every cursor settled. */
  ghost predicate Orderly(s: State, schedule: seq<(nat, Choice)>)
    requires Inv(s)
  {
    schedule != [] ==>
      var before, last := schedule[..|schedule| - 1], schedule[|schedule| - 1];
      Orderly(s, before) && OrderlyStep(RunFrom(s, before), last.0, last.1)
  }

  ghost predicate OrderlyStep(p: State, i: nat, ch: Choice) {
    i < |p.threads| && p.threads[i].Idle? && ch.StartTreeClose? && Begin(p, i, ch).Some? ==>
      forall c :: 0 <= c < |p.cursors| ==> Settled(p.cursors[c], ch.t)
  }

  /** The tree a handle points into is allocated, and nobody is closing it. */
  predicate Clear(s: State, c: nat) {
    c < |s.cursors| && s.cursors[c].native.Bound? && s.cursors[c].native.t < |s.trees| ==>
      s.trees[s.cursors[c].native.t].writer.None? && s.trees[s.cursors[c].native.t].live
  }

  /** What the invariant says about the tree a thread is about to touch. */
  predicate TreeReady(s: State, i: nat) {
    && i < |s.threads|
    && var pc := s.threads[i];
       && (pc.Exec? && pc.x.ExecCall? ==> pc.t < |s.trees| && s.trees[pc.t].live && s.trees[pc.t].writer.None?)
       && (pc.OnTree? ==> pc.t < |s.trees| && s.trees[pc.t].writer == Some(i))
  }

  lemma {:induction false} InvTreeReady(s: State, i: nat)
    requires Inv(s) && i < |s.threads|
    ensures TreeReady(s, i)
  {
    var v, pc := ViewOf(s), s.threads[i];
    assert InRange(s, pc) && v.threads[i] == ResOf(pc);
    if pc.Exec? && pc.x.ExecCall? {
      LiveInUse(s, i);
    } else if pc.OnTree? {
      assert TreeWriterAt(v, pc.t, i);
    }
  }

  lemma {:induction false} ExecClear(s: State, i: nat, at: ExecAt, d: nat, q: nat, t: nat, ch: Choice, c: nat)
    requires TreeReady(s, i) && s.threads[i] == Exec(at, d, q, t) && d < |s.cursors| && q < |s.queries| && t < |s.trees|
    requires TargetsInRange(s, s.cursors[d]) && StepExec(s, i, at, d, q, t, ch).Some? && Clear(s, c)
    ensures Clear(StepExec(s, i, at, d, q, t, ch).value, c)
  {
  }

  lemma {:induction false} NextClear(s: State, i: nat, at: NextAt, d: nat, q: nat, t: nat, temp: bool, ch: Choice, c: nat)
    requires TreeReady(s, i) && s.threads[i] == Next(at, d, q, t, temp) && d < |s.cursors| && q < |s.queries| && t < |s.trees|
    requires TargetsInRange(s, s.cursors[d]) && StepNext(s, i, at, d, q, t, temp, ch).Some? && Clear(s, c)
    ensures Clear(StepNext(s, i, at, d, q, t, temp, ch).value, c)
  {
  }

  lemma {:induction false} CursorClear(s: State, i: nat, at: CursorAt, d: nat, c: nat)
    requires TreeReady(s, i) && s.threads[i] == OnCursor(at, d) && d < |s.cursors|
    requires TargetsInRange(s, s.cursors[d]) && StepCursor(s, i, at, d).Some? && Clear(s, c)
    ensures Clear(StepCursor(s, i, at, d).value, c)
  {
  }

  lemma {:induction false} BeginClear(s: State, i: nat, ch: Choice, c: nat)
    requires i < |s.threads| && s.threads[i].Idle? && Begin(s, i, ch).Some?
    requires c < |s.cursors| && HandleOk(s, c) && Clear(s, c)
    requires ch.StartTreeClose? ==> Settled(s.cursors[c], ch.t)
    ensures Clear(Begin(s, i, ch).value, c)
  {
  }

  lemma {:induction false} StepClear(s: State, i: nat, ch: Choice, c: nat)
    requires Inv(s) && i < |s.threads| && c < |s.cursors| && Step(s, i, ch).Some?
    requires HandleOk(s, c) && Clear(s, c) && OrderlyStep(s, i, ch)
    ensures Clear(Step(s, i, ch).value, c)
  {
    InvTreeReady(s, i);
    assert InRange(s, s.threads[i]);
    match s.threads[i] {
      case Idle => BeginClear(s, i, ch, c);
      case Exec(at, d, q, t) => ExecClear(s, i, at, d, q, t, ch, c);
      case Next(at, d, q, t, temp) => NextClear(s, i, at, d, q, t, temp, ch, c);
      case OnCursor(at, d) => CursorClear(s, i, at, d, c);
      case OnQuery(_, _) =>
      case OnTree(_, _) =>
    }
  }

  /** When each tree is closed only after its cursors were closed or canceled, no handle
  ever points into a freed tree, so the destructor is always safe. */
  lemma {:induction false} NeverDangles(s: State, schedule: seq<(nat, Choice)>, c: nat)
    requires Initial(s) && Inv(s) && c < |s.cursors| && Orderly(s, schedule)
    ensures var r := RunFrom(s, schedule);
      r.cursors[c].native.Bound? ==> r.cursors[c].native.t < |r.trees| && r.trees[r.cursors[c].native.t].live
    ensures Clear(RunFrom(s, schedule), c)
  {
    RunTied(s, schedule, c);
    if schedule != [] {
      var before, last := schedule[..|schedule| - 1], schedule[|schedule| - 1];
      NeverDangles(s, before, c);
      RunTied(s, before, c);
      var p := RunFrom(s, before);
      if last.0 < |p.threads| && Step(p, last.0, last.1).Some? {
        StepClear(p, last.0, last.1, c);
      }
    }
  }
}
