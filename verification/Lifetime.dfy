/** Lifetime gates: query cursors, queries and trees opened and closed by any number of
threads, one guest call or lock transition at a time.

A tree's gate is a read-write lock: executions hold it shared, `Tree.Close` takes it
exclusively before the guest tree is freed.  A query's lock plays the same part. */
module Lifetime {
  import opened Values

  /** Who holds a tree's gate shared: a cursor for its execution, or a thread for a call. */
  datatype Holder = Gate(c: nat) | Temp(i: nat)

  datatype TreeSt = TreeSt(closed: bool, live: bool, life: set<Holder>, writer: Option<nat>)

  datatype QuerySt = QuerySt(closed: bool, live: bool, readers: set<nat>, writer: Option<nat>)

  /** The guest's query cursor: absent, without pointers, or pointing into a tree. */
  datatype Native = NoHandle | Fresh | Bound(t: nat)

  datatype CursorSt = CursorSt(
    owner: Option<nat>,
    closed: bool,
    /** History: the thread whose `Close` has not yet reached the gate. */
    closer: Option<nat>,
    canceled: bool,
    native: Native,
    target: Option<(nat, nat)>,
    gate: Option<nat>)

  /** Where a thread stands in `Exec`. */
  datatype ExecAt =
    | ExecWant | ExecOwn | ExecRetire | ExecUngate | ExecWantQuery | ExecWantLife | ExecCheck | ExecCall
    | ExecAbort(called: bool) | ExecRelease | ExecUnlockQuery

  /** In `NextMatch` or `NextCapture`, once it has found the execution. */
  datatype NextAt =
    | NextCheck
    | NextWantQuery(remove: bool)
    | NextCheckQuery(remove: bool)
    | NextCall(remove: bool)
    | NextEval
    | NextEnd(found: bool)
    | NextRelease

  /** In the parts of any cursor operation that concern the cursor alone. */
  datatype CursorAt =
    | NextWant | NextOwn | CancelWant | CancelOwn | CancelUngate | StopWant | StopOwn
    | CloseWant | CloseOwn | CloseUngate | Unlock

  datatype QueryAt = QueryWant | QueryDelete | QueryUnlock

  datatype TreeAt = TreeOwn | TreeDelete | TreeUnlock

  /** `temp` says that the call took the tree's gate itself. */
  datatype Pc =
    | Idle
    | Exec(x: ExecAt, c: nat, q: nat, t: nat)
    | Next(n: NextAt, c: nat, q: nat, t: nat, temp: bool)
    | OnCursor(k: CursorAt, c: nat)
    | OnQuery(y: QueryAt, q: nat)
    | OnTree(z: TreeAt, t: nat)

  datatype State = State(trees: seq<TreeSt>, queries: seq<QuerySt>, cursors: seq<CursorSt>, threads: seq<Pc>)

  /** What the environment decides at a step: which operation an idle thread starts, and
  how a guest call or a predicate turns out. */
  datatype Choice =
    | StartExec(c: nat, q: nat, t: nat)
    | StartNext(c: nat)
    | StartCancel(c: nat)
    | StartStop(c: nat)
    | StartClose(c: nat)
    | StartQueryClose(q: nat)
    | StartTreeClose(t: nat)
    | Yes
    | No
    | Again

  // ---------------------------------------------------------------- what a thread holds

  /** A thread's locks and duties, and what it goes on relying on. */
  datatype Res = Res(
    /** The cursor whose mutex it holds. */
    own: Option<nat>,
    /** The cursor whose gate its `Close` is going to release. */
    closing: Option<nat>,
    /** The query whose lock it holds shared, and the one it holds exclusively. */
    query: Option<nat>,
    writesQuery: Option<nat>,
    /** The tree whose gate it holds shared itself, and the one it holds exclusively. */
    temp: Option<nat>,
    writesTree: Option<nat>,
    /** The cursor and tree of the execution gate it counts on. */
    cover: Option<(nat, nat)>,
    /** The tree and the query it has found open. */
    relyTree: Option<nat>,
    relyQuery: Option<nat>,
    /** The cursor it knows to hold no gate, and the one it found open when it took it. */
    ungated: Option<nat>,
    starting: Option<nat>,
    /** The tree and the query it has marked closed. */
    shutTree: Option<nat>,
    shutQuery: Option<nat>)

  const NOTHING := Res(None, None, None, None, None, None, None, None, None, None, None, None, None)

  function If(b: bool, t: nat): Option<nat> { if b then Some(t) else None }

  /** The gate a call counts on when it did not take one itself. */
  function CoverFor(temp: bool, c: nat, t: nat): Option<(nat, nat)> { if temp then None else Some((c, t)) }

  function ExecRes(at: ExecAt, c: nat, q: nat, t: nat): Res {
    match at
    case ExecWant => NOTHING
    case ExecOwn => NOTHING.(own := Some(c))
    case ExecRetire => NOTHING.(own := Some(c), starting := Some(c))
    case ExecUngate => NOTHING.(own := Some(c), starting := Some(c))
    case ExecWantQuery => NOTHING.(own := Some(c), ungated := Some(c), starting := Some(c))
    case ExecWantLife => NOTHING.(own := Some(c), query := Some(q), ungated := Some(c), starting := Some(c))
    case ExecCheck =>
      NOTHING.(own := Some(c), query := Some(q), temp := Some(t), relyQuery := Some(q), ungated := Some(c), starting := Some(c))
    case ExecCall =>
      NOTHING.(own := Some(c), query := Some(q), temp := Some(t), relyTree := Some(t), relyQuery := Some(q),
               ungated := Some(c), starting := Some(c))
    case ExecAbort(called) =>
      NOTHING.(own := Some(c), query := Some(q), temp := Some(t), relyTree := If(called, t), ungated := Some(c))
    case ExecRelease => NOTHING.(own := Some(c), query := Some(q), temp := Some(t))
    case ExecUnlockQuery => NOTHING.(own := Some(c), query := Some(q))
  }

  function NextRes(at: NextAt, c: nat, q: nat, t: nat, temp: bool): Res {
    var held := NOTHING.(own := Some(c), temp := If(temp, t));
    var covered := held.(cover := CoverFor(temp, c, t));
    match at
    case NextCheck => covered
    case NextWantQuery(_) => covered.(relyTree := Some(t))
    case NextCheckQuery(_) => covered.(relyTree := Some(t), query := Some(q))
    case NextCall(_) => covered.(relyTree := Some(t), query := Some(q), relyQuery := Some(q))
    case NextEval => covered.(relyTree := Some(t))
    case NextEnd(_) => held
    case NextRelease => held
  }

  function CursorRes(at: CursorAt, c: nat): Res {
    match at
    case NextWant => NOTHING
    case CancelWant => NOTHING
    case StopWant => NOTHING
    case CloseWant => NOTHING.(closing := Some(c))
    case CloseOwn => NOTHING.(own := Some(c), closing := Some(c))
    case CloseUngate => NOTHING.(own := Some(c), closing := Some(c))
    case _ => NOTHING.(own := Some(c))
  }

  function QueryRes(at: QueryAt, q: nat): Res {
    match at
    case QueryWant => NOTHING.(shutQuery := Some(q))
    case QueryDelete => NOTHING.(writesQuery := Some(q), shutQuery := Some(q))
    case QueryUnlock => NOTHING.(writesQuery := Some(q))
  }

  function TreeRes(at: TreeAt, t: nat): Res {
    NOTHING.(writesTree := Some(t), shutTree := If(at.TreeDelete?, t))
  }

  function ResOf(pc: Pc): Res {
    match pc
    case Idle => NOTHING
    case Exec(at, c, q, t) => ExecRes(at, c, q, t)
    case Next(at, c, q, t, temp) => NextRes(at, c, q, t, temp)
    case OnCursor(at, c) => CursorRes(at, c)
    case OnQuery(at, q) => QueryRes(at, q)
    case OnTree(at, t) => TreeRes(at, t)
  }

  // ---------------------------------------------------------------- guest calls

  /** The tree and query the next step of a thread dereferences through execution. */
  function UsesTree(pc: Pc): Option<nat> {
    match pc
    case Exec(ExecCall, _, _, t) => Some(t)
    case Next(NextCall(_), _, _, t, _) => Some(t)
    case Next(NextEval, _, _, t, _) => Some(t)
    case _ => None
  }

  function UsesQuery(pc: Pc): Option<nat> {
    match pc
    case Exec(ExecCall, _, q, _) => Some(q)
    case Next(NextCall(_), _, q, _, _) => Some(q)
    case _ => None
  }

  /** The cursor whose guest handle the next step of a thread destroys. */
  function Destroys(pc: Pc): Option<nat> {
    match pc
    case Exec(ExecRetire, c, _, _) => Some(c)
    case Exec(ExecAbort(_), c, _, _) => Some(c)
    case OnCursor(CancelOwn, c) => Some(c)
    case OnCursor(CloseOwn, c) => Some(c)
    case _ => None
  }

  // ---------------------------------------------------------------- steps

  function At(s: State, i: nat, pc: Pc): State
    requires i < |s.threads|
  {
    s.(threads := s.threads[i := pc])
  }

  function WithCursor(s: State, c: nat, x: CursorSt): State
    requires c < |s.cursors|
  {
    s.(cursors := s.cursors[c := x])
  }

  function WithTree(s: State, t: nat, x: TreeSt): State
    requires t < |s.trees|
  {
    s.(trees := s.trees[t := x])
  }

  function WithQuery(s: State, q: nat, x: QuerySt): State
    requires q < |s.queries|
  {
    s.(queries := s.queries[q := x])
  }

  function Enter(s: State, t: nat, h: Holder): State
    requires t < |s.trees|
  {
    WithTree(s, t, s.trees[t].(life := s.trees[t].life + {h}))
  }

  function Leave(s: State, t: nat, h: Holder): State
    requires t < |s.trees|
  {
    WithTree(s, t, s.trees[t].(life := s.trees[t].life - {h}))
  }

  function ReadQuery(s: State, q: nat, i: nat): State
    requires q < |s.queries|
  {
    WithQuery(s, q, s.queries[q].(readers := s.queries[q].readers + {i}))
  }

  function UnreadQuery(s: State, q: nat, i: nat): State
    requires q < |s.queries|
  {
    WithQuery(s, q, s.queries[q].(readers := s.queries[q].readers - {i}))
  }

  /** The indices an operation names exist. */
  predicate InRange(s: State, pc: Pc) {
    match pc
    case Idle => true
    case Exec(_, c, q, t) => c < |s.cursors| && q < |s.queries| && t < |s.trees|
    case Next(_, c, q, t, _) => c < |s.cursors| && q < |s.queries| && t < |s.trees|
    case OnCursor(_, c) => c < |s.cursors|
    case OnQuery(_, q) => q < |s.queries|
    case OnTree(_, t) => t < |s.trees|
  }

  predicate TargetsInRange(s: State, c: CursorSt) {
    && (c.target.Some? ==> c.target.value.0 < |s.trees| && c.target.value.1 < |s.queries|)
    && (c.gate.Some? ==> c.gate.value < |s.trees|)
  }

  predicate WellFormed(s: State) {
    && (forall i :: 0 <= i < |s.threads| ==> InRange(s, s.threads[i]))
    && (forall c :: 0 <= c < |s.cursors| ==> TargetsInRange(s, s.cursors[c]))
  }

  /** An idle thread starts an operation.  Closing a cursor or a query first flips its
  closed flag; only the first such call goes on. */
  function Begin(s: State, i: nat, ch: Choice): Option<State>
    requires i < |s.threads|
  {
    match ch
    case StartExec(c, q, t) =>
      if c < |s.cursors| && q < |s.queries| && t < |s.trees| then Some(At(s, i, Exec(ExecWant, c, q, t))) else None
    case StartNext(c) => if c < |s.cursors| then Some(At(s, i, OnCursor(NextWant, c))) else None
    case StartCancel(c) => if c < |s.cursors| then Some(At(s, i, OnCursor(CancelWant, c))) else None
    case StartStop(c) =>
      // `NextMatch` on a cursor it found canceled or closed
      if c < |s.cursors| && (s.cursors[c].closed || s.cursors[c].canceled) then Some(At(s, i, OnCursor(StopWant, c))) else None
    case StartClose(c) =>
      if c < |s.cursors| && !s.cursors[c].closed then
        Some(At(WithCursor(s, c, s.cursors[c].(closed := true, closer := Some(i))), i, OnCursor(CloseWant, c)))
      else None
    case StartQueryClose(q) =>
      if q < |s.queries| && !s.queries[q].closed then
        Some(At(WithQuery(s, q, s.queries[q].(closed := true)), i, OnQuery(QueryWant, q)))
      else None
    case StartTreeClose(t) =>
      // the write lock waits for every holder
      if t < |s.trees| && s.trees[t].life == {} && s.trees[t].writer.None? then
        Some(At(WithTree(s, t, s.trees[t].(writer := Some(i))), i, OnTree(TreeOwn, t)))
      else None
    case _ => None
  }

  /** Taking a cursor's mutex, or waiting for it. */
  function Take(s: State, i: nat, c: nat, pc: Pc): Option<State>
    requires i < |s.threads| && c < |s.cursors|
  {
    if s.cursors[c].owner.None? then Some(At(WithCursor(s, c, s.cursors[c].(owner := Some(i))), i, pc)) else None
  }

  /** Releases the cursor's gate, if it holds one, and forgets it. */
  function ReleaseGate(s: State, c: nat): State
    requires c < |s.cursors| && TargetsInRange(s, s.cursors[c])
  {
    match s.cursors[c].gate
    case None => s
    case Some(t) => WithCursor(Leave(s, t, Gate(c)), c, s.cursors[c].(gate := None))
  }

  function StepExec(s: State, i: nat, at: ExecAt, c: nat, q: nat, t: nat, ch: Choice): Option<State>
    requires i < |s.threads| && c < |s.cursors| && q < |s.queries| && t < |s.trees|
    requires TargetsInRange(s, s.cursors[c])
  {
    match at
    case ExecWant => Take(s, i, c, Exec(ExecOwn, c, q, t))
    case ExecOwn =>
      if s.cursors[c].closed then Some(At(s, i, OnCursor(Unlock, c)))
      else if s.cursors[c].gate.Some? then Some(At(s, i, Exec(ExecRetire, c, q, t)))
      else Some(At(s, i, Exec(ExecWantQuery, c, q, t)))
    case ExecRetire => Some(At(WithCursor(s, c, s.cursors[c].(native := NoHandle)), i, Exec(ExecUngate, c, q, t)))
    case ExecUngate => Some(At(ReleaseGate(s, c), i, Exec(ExecWantQuery, c, q, t)))
    case ExecWantQuery =>
      if s.queries[q].writer.None? then Some(At(ReadQuery(s, q, i), i, Exec(ExecWantLife, c, q, t))) else None
    case ExecWantLife =>
      if s.queries[q].closed then Some(At(s, i, Exec(ExecUnlockQuery, c, q, t)))
      else if s.trees[t].writer.None? then Some(At(Enter(s, t, Temp(i)), i, Exec(ExecCheck, c, q, t)))
      else None
    case ExecCheck =>
      if s.trees[t].closed then Some(At(s, i, Exec(ExecAbort(false), c, q, t)))
      else
        var x := s.cursors[c];
        var y := x.(native := if x.native.NoHandle? then Fresh else x.native, canceled := false);
        Some(At(WithCursor(s, c, y), i, Exec(ExecCall, c, q, t)))
    case ExecCall =>
      // the guest starts the query; on success the thread's hold becomes the cursor's
      var x := s.cursors[c].(native := Bound(t), target := Some((t, q)));
      if ch.Yes? then
        var kept := WithTree(s, t, s.trees[t].(life := s.trees[t].life - {Temp(i)} + {Gate(c)}));
        Some(At(WithCursor(kept, c, x.(gate := Some(t))), i, Exec(ExecUnlockQuery, c, q, t)))
      else Some(At(WithCursor(s, c, x), i, Exec(ExecAbort(true), c, q, t)))
    case ExecAbort(_) =>
      Some(At(WithCursor(s, c, s.cursors[c].(native := NoHandle, target := None)), i, Exec(ExecRelease, c, q, t)))
    case ExecRelease => Some(At(Leave(s, t, Temp(i)), i, Exec(ExecUnlockQuery, c, q, t)))
    case ExecUnlockQuery => Some(At(UnreadQuery(s, q, i), i, OnCursor(Unlock, c)))
  }

  function StepNext(s: State, i: nat, at: NextAt, c: nat, q: nat, t: nat, temp: bool, ch: Choice): Option<State>
    requires i < |s.threads| && c < |s.cursors| && q < |s.queries| && t < |s.trees|
    requires TargetsInRange(s, s.cursors[c])
  {
    match at
    case NextCheck =>
      var next := if s.trees[t].closed || !s.cursors[c].native.Bound? then NextEnd(false) else NextWantQuery(false);
      Some(At(s, i, Next(next, c, q, t, temp)))
    case NextWantQuery(remove) =>
      if s.queries[q].writer.None? then Some(At(ReadQuery(s, q, i), i, Next(NextCheckQuery(remove), c, q, t, temp))) else None
    case NextCheckQuery(remove) =>
      if s.queries[q].closed then Some(At(UnreadQuery(s, q, i), i, Next(NextEnd(false), c, q, t, temp)))
      else Some(At(s, i, Next(NextCall(remove), c, q, t, temp)))
    case NextCall(remove) =>
      // the guest advances, or removes a rejected match
      var next := if remove then NextWantQuery(false) else if ch.Yes? then NextEval else NextEnd(false);
      Some(At(UnreadQuery(s, q, i), i, Next(next, c, q, t, temp)))
    case NextEval =>
      // text predicates read the nodes of the tree
      var next := if ch.Yes? then NextEnd(true) else NextWantQuery(ch.Again?);
      Some(At(s, i, Next(next, c, q, t, temp)))
    case NextEnd(found) => Some(At(if found then s else ReleaseGate(s, c), i, Next(NextRelease, c, q, t, temp)))
    case NextRelease => Some(At(if temp then Leave(s, t, Temp(i)) else s, i, OnCursor(Unlock, c)))
  }

  /** `NextMatch` before it knows its execution, cancellation, and `Close`. */
  function StepCursor(s: State, i: nat, at: CursorAt, c: nat): Option<State>
    requires i < |s.threads| && c < |s.cursors| && TargetsInRange(s, s.cursors[c])
  {
    var x := s.cursors[c];
    match at
    case NextWant => Take(s, i, c, OnCursor(NextOwn, c))
    case NextOwn =>
      if x.closed || x.target.None? then Some(At(s, i, OnCursor(Unlock, c)))
      else
        var t, q := x.target.value.0, x.target.value.1;
        if x.gate.Some? then Some(At(s, i, Next(NextCheck, c, q, t, false)))
        else if s.trees[t].writer.None? then Some(At(Enter(s, t, Temp(i)), i, Next(NextCheck, c, q, t, true)))
        else None
    case CancelWant => Take(s, i, c, OnCursor(CancelOwn, c))
    case CancelOwn =>
      if x.closed then Some(At(s, i, OnCursor(Unlock, c)))
      else Some(At(WithCursor(s, c, x.(native := NoHandle, canceled := true)), i, OnCursor(CancelUngate, c)))
    case CancelUngate => Some(At(ReleaseGate(s, c), i, OnCursor(Unlock, c)))
    case StopWant => Take(s, i, c, OnCursor(StopOwn, c))
    case StopOwn => Some(At(ReleaseGate(s, c), i, OnCursor(Unlock, c)))
    case CloseWant => Take(s, i, c, OnCursor(CloseOwn, c))
    case CloseOwn => Some(At(WithCursor(s, c, x.(native := NoHandle, target := None)), i, OnCursor(CloseUngate, c)))
    case CloseUngate =>
      var released := ReleaseGate(s, c);
      Some(At(WithCursor(released, c, released.cursors[c].(closer := None)), i, OnCursor(Unlock, c)))
    case Unlock => Some(At(WithCursor(s, c, x.(owner := None)), i, Idle))
  }

  function StepQuery(s: State, i: nat, at: QueryAt, q: nat): Option<State>
    requires i < |s.threads| && q < |s.queries|
  {
    match at
    case QueryWant =>
      if s.queries[q].readers == {} && s.queries[q].writer.None? then
        Some(At(WithQuery(s, q, s.queries[q].(writer := Some(i))), i, OnQuery(QueryDelete, q)))
      else None
    case QueryDelete => Some(At(WithQuery(s, q, s.queries[q].(live := false)), i, OnQuery(QueryUnlock, q)))
    case QueryUnlock => Some(At(WithQuery(s, q, s.queries[q].(writer := None)), i, Idle))
  }

  function StepTree(s: State, i: nat, at: TreeAt, t: nat): Option<State>
    requires i < |s.threads| && t < |s.trees|
  {
    match at
    case TreeOwn =>
      if s.trees[t].closed then Some(At(s, i, OnTree(TreeUnlock, t)))
      else Some(At(WithTree(s, t, s.trees[t].(closed := true)), i, OnTree(TreeDelete, t)))
    case TreeDelete => Some(At(WithTree(s, t, s.trees[t].(live := false)), i, OnTree(TreeUnlock, t)))
    case TreeUnlock => Some(At(WithTree(s, t, s.trees[t].(writer := None)), i, Idle))
  }

  /** One step of one thread; None when it has to wait. */
  function Step(s: State, i: nat, ch: Choice): Option<State>
    requires WellFormed(s) && i < |s.threads|
  {
    assert InRange(s, s.threads[i]);
    match s.threads[i]
    case Idle => Begin(s, i, ch)
    case Exec(at, c, q, t) => StepExec(s, i, at, c, q, t, ch)
    case Next(at, c, q, t, temp) => StepNext(s, i, at, c, q, t, temp, ch)
    case OnCursor(at, c) => StepCursor(s, i, at, c)
    case OnQuery(at, q) => StepQuery(s, i, at, q)
    case OnTree(at, t) => StepTree(s, i, at, t)
  }

  // ---------------------------------------------------------------- locks and reliance

  /** The state as the locks see it. */
  datatype View = View(trees: seq<TreeSt>, queries: seq<QuerySt>, cursors: seq<CursorSt>, threads: seq<Res>)

  function ViewOf(s: State): View {
    View(s.trees, s.queries, s.cursors, seq(|s.threads|, i requires 0 <= i < |s.threads| => ResOf(s.threads[i])))
  }

  /** Each lock and its holder name each other; so do a `Close` and its cursor, and a gate
  and the tree it keeps. */
  ghost predicate OwnerAt(v: View, c: nat, i: nat) {
    c < |v.cursors| && i < |v.threads| ==> (v.threads[i].own == Some(c) <==> v.cursors[c].owner == Some(i))
  }

  ghost predicate CloserAt(v: View, c: nat, i: nat) {
    c < |v.cursors| && i < |v.threads| ==> (v.threads[i].closing == Some(c) <==> v.cursors[c].closer == Some(i))
  }

  ghost predicate ReaderAt(v: View, q: nat, i: nat) {
    q < |v.queries| && i < |v.threads| ==> (v.threads[i].query == Some(q) <==> i in v.queries[q].readers)
  }

  ghost predicate QueryWriterAt(v: View, q: nat, i: nat) {
    q < |v.queries| && i < |v.threads| ==> (v.threads[i].writesQuery == Some(q) <==> v.queries[q].writer == Some(i))
  }

  ghost predicate TempAt(v: View, t: nat, i: nat) {
    t < |v.trees| && i < |v.threads| ==> (v.threads[i].temp == Some(t) <==> Temp(i) in v.trees[t].life)
  }

  ghost predicate TreeWriterAt(v: View, t: nat, i: nat) {
    t < |v.trees| && i < |v.threads| ==> (v.threads[i].writesTree == Some(t) <==> v.trees[t].writer == Some(i))
  }

  ghost predicate GateAt(v: View, t: nat, c: nat) {
    t < |v.trees| && c < |v.cursors| ==> (v.cursors[c].gate == Some(t) <==> Gate(c) in v.trees[t].life)
  }

  /** A writer is alone, and only what was closed is freed. */
  ghost predicate QueryOk(v: View, q: nat) {
    q < |v.queries| ==>
      && (v.queries[q].writer.Some? ==> v.queries[q].readers == {} && v.queries[q].writer.value < |v.threads|)
      && (!v.queries[q].live ==> v.queries[q].closed)
  }

  ghost predicate TreeOk(v: View, t: nat) {
    t < |v.trees| ==>
      && (v.trees[t].writer.Some? ==> v.trees[t].life == {} && v.trees[t].writer.value < |v.threads|)
      && (!v.trees[t].live ==> v.trees[t].closed)
      && (forall h :: h in v.trees[t].life ==> if h.Gate? then h.c < |v.cursors| else h.i < |v.threads|)
  }

  /** A gate keeps an open tree, the one the cursor runs on and its handle points into; a
  cursor whose `Close` is through holds none. */
  ghost predicate CursorOk(v: View, c: nat) {
    c < |v.cursors| ==>
      var x := v.cursors[c];
      && (x.gate.Some? ==>
            && x.gate.value < |v.trees| && !v.trees[x.gate.value].closed
            && (x.target.Some? ==> x.target.value.0 == x.gate.value)
            && (x.native.Bound? ==> x.native.t == x.gate.value))
      && (x.closer.Some? ==> x.closed && x.closer.value < |v.threads|)
      && (x.closed && x.closer.None? ==> x.gate.None?)
  }

  /** What one thread counts on is so. */
  ghost predicate Sound(v: View, i: nat) {
    i < |v.threads| ==>
      var r := v.threads[i];
      && (r.cover.Some? ==>
            && r.own == Some(r.cover.value.0) && r.cover.value.0 < |v.cursors|
            && v.cursors[r.cover.value.0].gate == Some(r.cover.value.1))
      && (r.relyTree.Some? ==>
            && r.relyTree.value < |v.trees| && !v.trees[r.relyTree.value].closed
            && (r.temp == r.relyTree || (r.cover.Some? && r.cover.value.1 == r.relyTree.value)))
      && (r.relyQuery.Some? ==> r.relyQuery == r.query && r.relyQuery.value < |v.queries| && v.queries[r.relyQuery.value].live)
      && (r.ungated.Some? ==> r.own == r.ungated && r.ungated.value < |v.cursors| && v.cursors[r.ungated.value].gate.None?)
      && (r.starting.Some? ==>
            && r.own == r.starting && r.starting.value < |v.cursors|
            && (v.cursors[r.starting.value].closed ==> v.cursors[r.starting.value].closer.Some?))
      && (r.shutTree.Some? ==> r.shutTree.value < |v.trees| && v.trees[r.shutTree.value].closed)
      && (r.shutQuery.Some? ==> r.shutQuery.value < |v.queries| && v.queries[r.shutQuery.value].closed)
  }

  ghost predicate Owners(v: View) { forall c: nat, i: nat :: OwnerAt(v, c, i) }

  ghost predicate Closers(v: View) { forall c: nat, i: nat :: CloserAt(v, c, i) }

  ghost predicate Readers(v: View) { forall q: nat, i: nat :: ReaderAt(v, q, i) }

  ghost predicate QueryWriters(v: View) { forall q: nat, i: nat :: QueryWriterAt(v, q, i) }

  ghost predicate Temps(v: View) { forall t: nat, i: nat :: TempAt(v, t, i) }

  ghost predicate TreeWriters(v: View) { forall t: nat, i: nat :: TreeWriterAt(v, t, i) }

  ghost predicate Gates(v: View) { forall t: nat, c: nat :: GateAt(v, t, c) }

  ghost predicate QueriesOk(v: View) { forall q: nat :: QueryOk(v, q) }

  ghost predicate TreesOk(v: View) { forall t: nat :: TreeOk(v, t) }

  ghost predicate CursorsOk(v: View) { forall c: nat :: CursorOk(v, c) }

  ghost predicate AllSound(v: View) { forall i: nat :: Sound(v, i) }

  ghost predicate Held(v: View) {
    && Owners(v) && Closers(v) && Readers(v) && QueryWriters(v) && Temps(v) && TreeWriters(v) && Gates(v)
    && QueriesOk(v) && TreesOk(v) && CursorsOk(v) && AllSound(v)
  }

  // ---------------------------------------------------------------- one move

  ghost predicate OnlyAt<T>(a: seq<T>, b: seq<T>, k: nat) {
    |a| == |b| && forall j :: 0 <= j < |a| && j != k ==> b[j] == a[j]
  }

  /** `a` becomes `b`; nobody but `k` comes or goes. */
  predicate Swap(a: Option<nat>, b: Option<nat>, k: nat) {
    a == b || ((a.None? || a == Some(k)) && (b.None? || b == Some(k)))
  }

  /** Thread `i` moves, and touches at most one cursor, one tree and one query. */
  ghost predicate Shape(v: View, w: View, i: nat, c: nat, t: nat, q: nat) {
    && OnlyAt(v.threads, w.threads, i) && OnlyAt(v.cursors, w.cursors, c)
    && OnlyAt(v.trees, w.trees, t) && OnlyAt(v.queries, w.queries, q)
    && i < |v.threads|
  }

  /** The thread's side and the cursor's side of mutex, closing duty and gate move together. */
  ghost predicate MovesCursor(v: View, w: View, i: nat, c: nat, t: nat)
    requires i < |v.threads| == |w.threads| && |v.cursors| == |w.cursors|
  {
    && Swap(v.threads[i].own, w.threads[i].own, c) && OwnerAt(w, c, i)
    && Swap(v.threads[i].closing, w.threads[i].closing, c) && CloserAt(w, c, i)
    && GateAt(w, t, c) && CursorOk(w, c)
    && (c < |v.cursors| ==>
          var x, y := v.cursors[c], w.cursors[c];
          && Swap(x.owner, y.owner, i) && Swap(x.closer, y.closer, i) && Swap(x.gate, y.gate, t)
          && (x.owner == Some(i) || (x.gate == y.gate && (x.closed == y.closed || y.closer.Some?) && (x.closer == y.closer || y.closer.Some?))))
  }

  ghost predicate MovesTree(v: View, w: View, i: nat, c: nat, t: nat)
    requires i < |v.threads| == |w.threads| && |v.trees| == |w.trees|
  {
    && Swap(v.threads[i].temp, w.threads[i].temp, t) && TempAt(w, t, i)
    && Swap(v.threads[i].writesTree, w.threads[i].writesTree, t) && TreeWriterAt(w, t, i)
    && TreeOk(w, t)
    && (t < |v.trees| ==>
          var x, y := v.trees[t], w.trees[t];
          && Swap(x.writer, y.writer, i)
          && x.life - {Temp(i), Gate(c)} == y.life - {Temp(i), Gate(c)}
          && (x.closed ==> y.closed)
          && (y.closed ==> x.closed || x.life == {}))
  }

  ghost predicate MovesQuery(v: View, w: View, i: nat, q: nat)
    requires i < |v.threads| == |w.threads| && |v.queries| == |w.queries|
  {
    && Swap(v.threads[i].query, w.threads[i].query, q) && ReaderAt(w, q, i)
    && Swap(v.threads[i].writesQuery, w.threads[i].writesQuery, q) && QueryWriterAt(w, q, i)
    && QueryOk(w, q)
    && (q < |v.queries| ==>
          var x, y := v.queries[q], w.queries[q];
          && Swap(x.writer, y.writer, i)
          && x.readers - {i} == y.readers - {i}
          && (x.closed ==> y.closed)
          && (x.live ==> y.live || x.readers == {}))
  }

  ghost predicate Moves(v: View, w: View, i: nat, c: nat, t: nat, q: nat) {
    && Shape(v, w, i, c, t, q)
    && MovesCursor(v, w, i, c, t) && MovesTree(v, w, i, c, t) && MovesQuery(v, w, i, q)
    && Sound(w, i)
  }

  lemma {:induction false} KeepsOwners(v: View, w: View, i: nat, c: nat, t: nat, q: nat)
    requires Owners(v) && Moves(v, w, i, c, t, q)
    ensures Owners(w)
  {
    forall d: nat, k: nat
      ensures OwnerAt(w, d, k)
    {
      assert OwnerAt(v, d, k);
    }
  }

  lemma {:induction false} KeepsClosers(v: View, w: View, i: nat, c: nat, t: nat, q: nat)
    requires Closers(v) && Moves(v, w, i, c, t, q)
    ensures Closers(w)
  {
    forall d: nat, k: nat
      ensures CloserAt(w, d, k)
    {
      assert CloserAt(v, d, k);
    }
  }

  lemma {:induction false} KeepsQueries(v: View, w: View, i: nat, c: nat, t: nat, q: nat)
    requires Readers(v) && QueryWriters(v) && QueriesOk(v) && Moves(v, w, i, c, t, q)
    ensures Readers(w) && QueryWriters(w) && QueriesOk(w)
  {
    forall p: nat, k: nat
      ensures ReaderAt(w, p, k)
    {
      assert ReaderAt(v, p, k);
      assert p == q && q < |v.queries| && k != i ==>
               (k in v.queries[q].readers - {i} <==> k in w.queries[q].readers - {i});
    }
    forall p: nat, k: nat
      ensures QueryWriterAt(w, p, k)
    {
      assert QueryWriterAt(v, p, k);
    }
    forall p: nat
      ensures QueryOk(w, p)
    {
      assert QueryOk(v, p);
    }
  }

  lemma {:induction false} KeepsTrees(v: View, w: View, i: nat, c: nat, t: nat, q: nat)
    requires Temps(v) && TreeWriters(v) && TreesOk(v) && Moves(v, w, i, c, t, q)
    ensures Temps(w) && TreeWriters(w) && TreesOk(w)
  {
    forall u: nat, k: nat
      ensures TempAt(w, u, k)
    {
      assert TempAt(v, u, k);
      assert u == t && t < |v.trees| && k != i ==>
               (Temp(k) in v.trees[t].life - {Temp(i), Gate(c)} <==> Temp(k) in w.trees[t].life - {Temp(i), Gate(c)});
    }
    forall u: nat, k: nat
      ensures TreeWriterAt(w, u, k)
    {
      assert TreeWriterAt(v, u, k);
    }
    forall u: nat
      ensures TreeOk(w, u)
    {
      assert TreeOk(v, u);
    }
  }

  lemma {:induction false} KeepsGates(v: View, w: View, i: nat, c: nat, t: nat, q: nat)
    requires Gates(v) && CursorsOk(v) && Moves(v, w, i, c, t, q)
    ensures Gates(w) && CursorsOk(w)
  {
    forall u: nat, d: nat
      ensures GateAt(w, u, d)
    {
      assert GateAt(v, u, d);
      assert u == t && t < |v.trees| && d != c ==>
               (Gate(d) in v.trees[t].life - {Temp(i), Gate(c)} <==> Gate(d) in w.trees[t].life - {Temp(i), Gate(c)});
    }
    forall d: nat
      ensures CursorOk(w, d)
    {
      assert CursorOk(v, d) && GateAt(v, t, d);
    }
  }

  /** Nobody else loses what it counts on. */
  lemma {:induction false} KeepsSound(v: View, w: View, i: nat, c: nat, t: nat, q: nat)
    requires Held(v) && Moves(v, w, i, c, t, q)
    ensures AllSound(w)
  {
    forall k: nat
      ensures Sound(w, k)
    {
      if k < |v.threads| && k != i {
        assert Sound(v, k) && OwnerAt(v, c, k) && ReaderAt(v, q, k) && TempAt(v, t, k);
        if v.threads[k].cover.Some? {
          assert GateAt(v, t, v.threads[k].cover.value.0);
        }
      }
    }
  }

  lemma {:induction false} KeepsHeld(v: View, w: View, i: nat, c: nat, t: nat, q: nat)
    requires Held(v) && Moves(v, w, i, c, t, q)
    ensures Held(w)
  {
    KeepsOwners(v, w, i, c, t, q);
    KeepsClosers(v, w, i, c, t, q);
    KeepsQueries(v, w, i, c, t, q);
    KeepsTrees(v, w, i, c, t, q);
    KeepsGates(v, w, i, c, t, q);
    KeepsSound(v, w, i, c, t, q);
  }

  // ---------------------------------------------------------------- every step

  /** What the invariant says at the objects a step touches. */
  ghost predicate Here(v: View, i: nat, c: nat, t: nat, q: nat) {
    && OwnerAt(v, c, i) && CloserAt(v, c, i) && ReaderAt(v, q, i) && QueryWriterAt(v, q, i)
    && TempAt(v, t, i) && TreeWriterAt(v, t, i) && GateAt(v, t, c)
    && QueryOk(v, q) && TreeOk(v, t) && CursorOk(v, c) && Sound(v, i)
  }

  lemma {:induction false} HeldHere(v: View, i: nat, c: nat, t: nat, q: nat)
    requires Held(v)
    ensures Here(v, i, c, t, q)
  {
  }

  /** The tree whose gate a step on cursor `c` gives back, or else `t`. */
  function GateOr(s: State, c: nat, t: nat): nat {
    if c < |s.cursors| && s.cursors[c].gate.Some? then s.cursors[c].gate.value else t
  }

  lemma {:induction false} ExecTakes(s: State, i: nat, at: ExecAt, c: nat, q: nat, t: nat, ch: Choice)
    requires i < |s.threads| && s.threads[i] == Exec(at, c, q, t)
    requires c < |s.cursors| && q < |s.queries| && t < |s.trees| && TargetsInRange(s, s.cursors[c])
    requires at.ExecWant? || at.ExecOwn?
    requires Here(ViewOf(s), i, c, t, q) && StepExec(s, i, at, c, q, t, ch).Some?
    ensures Moves(ViewOf(s), ViewOf(StepExec(s, i, at, c, q, t, ch).value), i, c, t, q)
  {
  }

  lemma {:induction false} ExecRetires(s: State, i: nat, at: ExecAt, c: nat, q: nat, t: nat, ch: Choice)
    requires i < |s.threads| && s.threads[i] == Exec(at, c, q, t)
    requires c < |s.cursors| && q < |s.queries| && t < |s.trees| && TargetsInRange(s, s.cursors[c])
    requires at.ExecRetire? || at.ExecUngate?
    requires Here(ViewOf(s), i, c, GateOr(s, c, t), q) && StepExec(s, i, at, c, q, t, ch).Some?
    ensures Moves(ViewOf(s), ViewOf(StepExec(s, i, at, c, q, t, ch).value), i, c, GateOr(s, c, t), q)
  {
  }

  lemma {:induction false} ExecReads(s: State, i: nat, at: ExecAt, c: nat, q: nat, t: nat, ch: Choice)
    requires i < |s.threads| && s.threads[i] == Exec(at, c, q, t)
    requires c < |s.cursors| && q < |s.queries| && t < |s.trees| && TargetsInRange(s, s.cursors[c])
    requires at.ExecWantQuery?
    requires Here(ViewOf(s), i, c, t, q) && StepExec(s, i, at, c, q, t, ch).Some?
    ensures Moves(ViewOf(s), ViewOf(StepExec(s, i, at, c, q, t, ch).value), i, c, t, q)
  {
  }

  lemma {:induction false} ExecEnters(s: State, i: nat, at: ExecAt, c: nat, q: nat, t: nat, ch: Choice)
    requires i < |s.threads| && s.threads[i] == Exec(at, c, q, t)
    requires c < |s.cursors| && q < |s.queries| && t < |s.trees| && TargetsInRange(s, s.cursors[c])
    requires at.ExecWantLife?
    requires Here(ViewOf(s), i, c, t, q) && StepExec(s, i, at, c, q, t, ch).Some?
    ensures Moves(ViewOf(s), ViewOf(StepExec(s, i, at, c, q, t, ch).value), i, c, t, q)
  {
  }

  lemma {:induction false} ExecChecks(s: State, i: nat, at: ExecAt, c: nat, q: nat, t: nat, ch: Choice)
    requires i < |s.threads| && s.threads[i] == Exec(at, c, q, t)
    requires c < |s.cursors| && q < |s.queries| && t < |s.trees| && TargetsInRange(s, s.cursors[c])
    requires at.ExecCheck?
    requires Here(ViewOf(s), i, c, t, q) && StepExec(s, i, at, c, q, t, ch).Some?
    ensures Moves(ViewOf(s), ViewOf(StepExec(s, i, at, c, q, t, ch).value), i, c, t, q)
  {
  }

  lemma {:induction false} ExecCalls(s: State, i: nat, at: ExecAt, c: nat, q: nat, t: nat, ch: Choice)
    requires i < |s.threads| && s.threads[i] == Exec(at, c, q, t)
    requires c < |s.cursors| && q < |s.queries| && t < |s.trees| && TargetsInRange(s, s.cursors[c])
    requires at.ExecCall?
    requires Here(ViewOf(s), i, c, t, q) && StepExec(s, i, at, c, q, t, ch).Some?
    ensures Moves(ViewOf(s), ViewOf(StepExec(s, i, at, c, q, t, ch).value), i, c, t, q)
  {
  }

  lemma {:induction false} ExecAborts(s: State, i: nat, at: ExecAt, c: nat, q: nat, t: nat, ch: Choice)
    requires i < |s.threads| && s.threads[i] == Exec(at, c, q, t)
    requires c < |s.cursors| && q < |s.queries| && t < |s.trees| && TargetsInRange(s, s.cursors[c])
    requires at.ExecAbort?
    requires Here(ViewOf(s), i, c, t, q) && StepExec(s, i, at, c, q, t, ch).Some?
    ensures Moves(ViewOf(s), ViewOf(StepExec(s, i, at, c, q, t, ch).value), i, c, t, q)
  {
  }

  lemma {:induction false} ExecLeaves(s: State, i: nat, at: ExecAt, c: nat, q: nat, t: nat, ch: Choice)
    requires i < |s.threads| && s.threads[i] == Exec(at, c, q, t)
    requires c < |s.cursors| && q < |s.queries| && t < |s.trees| && TargetsInRange(s, s.cursors[c])
    requires at.ExecRelease?
    requires Here(ViewOf(s), i, c, t, q) && StepExec(s, i, at, c, q, t, ch).Some?
    ensures Moves(ViewOf(s), ViewOf(StepExec(s, i, at, c, q, t, ch).value), i, c, t, q)
  {
  }

  lemma {:induction false} ExecUnreads(s: State, i: nat, at: ExecAt, c: nat, q: nat, t: nat, ch: Choice)
    requires i < |s.threads| && s.threads[i] == Exec(at, c, q, t)
    requires c < |s.cursors| && q < |s.queries| && t < |s.trees| && TargetsInRange(s, s.cursors[c])
    requires at.ExecUnlockQuery?
    requires Here(ViewOf(s), i, c, t, q) && StepExec(s, i, at, c, q, t, ch).Some?
    ensures Moves(ViewOf(s), ViewOf(StepExec(s, i, at, c, q, t, ch).value), i, c, t, q)
  {
  }

  lemma {:induction false} NextChecks(s: State, i: nat, at: NextAt, c: nat, q: nat, t: nat, temp: bool, ch: Choice)
    requires i < |s.threads| && s.threads[i] == Next(at, c, q, t, temp)
    requires c < |s.cursors| && q < |s.queries| && t < |s.trees| && TargetsInRange(s, s.cursors[c])
    requires at.NextCheck?
    requires Here(ViewOf(s), i, c, t, q) && StepNext(s, i, at, c, q, t, temp, ch).Some?
    ensures Moves(ViewOf(s), ViewOf(StepNext(s, i, at, c, q, t, temp, ch).value), i, c, t, q)
  {
  }

  lemma {:induction false} NextReads(s: State, i: nat, at: NextAt, c: nat, q: nat, t: nat, temp: bool, ch: Choice)
    requires i < |s.threads| && s.threads[i] == Next(at, c, q, t, temp)
    requires c < |s.cursors| && q < |s.queries| && t < |s.trees| && TargetsInRange(s, s.cursors[c])
    requires at.NextWantQuery?
    requires Here(ViewOf(s), i, c, t, q) && StepNext(s, i, at, c, q, t, temp, ch).Some?
    ensures Moves(ViewOf(s), ViewOf(StepNext(s, i, at, c, q, t, temp, ch).value), i, c, t, q)
  {
  }

  lemma {:induction false} NextChecksQuery(s: State, i: nat, at: NextAt, c: nat, q: nat, t: nat, temp: bool, ch: Choice)
    requires i < |s.threads| && s.threads[i] == Next(at, c, q, t, temp)
    requires c < |s.cursors| && q < |s.queries| && t < |s.trees| && TargetsInRange(s, s.cursors[c])
    requires at.NextCheckQuery?
    requires Here(ViewOf(s), i, c, t, q) && StepNext(s, i, at, c, q, t, temp, ch).Some?
    ensures Moves(ViewOf(s), ViewOf(StepNext(s, i, at, c, q, t, temp, ch).value), i, c, t, q)
  {
  }

  lemma {:induction false} NextCalls(s: State, i: nat, at: NextAt, c: nat, q: nat, t: nat, temp: bool, ch: Choice)
    requires i < |s.threads| && s.threads[i] == Next(at, c, q, t, temp)
    requires c < |s.cursors| && q < |s.queries| && t < |s.trees| && TargetsInRange(s, s.cursors[c])
    requires at.NextCall?
    requires Here(ViewOf(s), i, c, t, q) && StepNext(s, i, at, c, q, t, temp, ch).Some?
    ensures Moves(ViewOf(s), ViewOf(StepNext(s, i, at, c, q, t, temp, ch).value), i, c, t, q)
  {
  }

  lemma {:induction false} NextJudges(s: State, i: nat, at: NextAt, c: nat, q: nat, t: nat, temp: bool, ch: Choice)
    requires i < |s.threads| && s.threads[i] == Next(at, c, q, t, temp)
    requires c < |s.cursors| && q < |s.queries| && t < |s.trees| && TargetsInRange(s, s.cursors[c])
    requires at.NextEval?
    requires Here(ViewOf(s), i, c, t, q) && StepNext(s, i, at, c, q, t, temp, ch).Some?
    ensures Moves(ViewOf(s), ViewOf(StepNext(s, i, at, c, q, t, temp, ch).value), i, c, t, q)
  {
  }

  lemma {:induction false} NextReleases(s: State, i: nat, at: NextAt, c: nat, q: nat, t: nat, temp: bool, ch: Choice)
    requires i < |s.threads| && s.threads[i] == Next(at, c, q, t, temp)
    requires c < |s.cursors| && q < |s.queries| && t < |s.trees| && TargetsInRange(s, s.cursors[c])
    requires at.NextRelease?
    requires Here(ViewOf(s), i, c, t, q) && StepNext(s, i, at, c, q, t, temp, ch).Some?
    ensures Moves(ViewOf(s), ViewOf(StepNext(s, i, at, c, q, t, temp, ch).value), i, c, t, q)
  {
  }

  lemma {:induction false} NextEnds(s: State, i: nat, at: NextAt, c: nat, q: nat, t: nat, temp: bool, ch: Choice)
    requires i < |s.threads| && s.threads[i] == Next(at, c, q, t, temp)
    requires c < |s.cursors| && q < |s.queries| && t < |s.trees| && TargetsInRange(s, s.cursors[c])
    requires at == NextEnd(false)
    requires Here(ViewOf(s), i, c, GateOr(s, c, t), q) && StepNext(s, i, at, c, q, t, temp, ch).Some?
    ensures Moves(ViewOf(s), ViewOf(StepNext(s, i, at, c, q, t, temp, ch).value), i, c, GateOr(s, c, t), q)
  {
  }

  lemma {:induction false} NextFound(s: State, i: nat, at: NextAt, c: nat, q: nat, t: nat, temp: bool, ch: Choice)
    requires i < |s.threads| && s.threads[i] == Next(at, c, q, t, temp)
    requires c < |s.cursors| && q < |s.queries| && t < |s.trees| && TargetsInRange(s, s.cursors[c])
    requires at == NextEnd(true)
    requires Here(ViewOf(s), i, c, GateOr(s, c, t), q) && StepNext(s, i, at, c, q, t, temp, ch).Some?
    ensures Moves(ViewOf(s), ViewOf(StepNext(s, i, at, c, q, t, temp, ch).value), i, c, GateOr(s, c, t), q)
  {
  }

  lemma {:induction false} CursorTakes(s: State, i: nat, at: CursorAt, c: nat)
    requires i < |s.threads| && s.threads[i] == OnCursor(at, c)
    requires c < |s.cursors| && TargetsInRange(s, s.cursors[c])
    requires at.NextWant? || at.CancelWant? || at.StopWant? || at.CloseWant?
    requires Here(ViewOf(s), i, c, |s.trees|, |s.queries|) && StepCursor(s, i, at, c).Some?
    ensures Moves(ViewOf(s), ViewOf(StepCursor(s, i, at, c).value), i, c, |s.trees|, |s.queries|)
  {
  }

  lemma {:induction false} NextFinds(s: State, i: nat, at: CursorAt, c: nat)
    requires i < |s.threads| && s.threads[i] == OnCursor(at, c)
    requires c < |s.cursors| && TargetsInRange(s, s.cursors[c])
    requires at.NextOwn?
    requires Here(ViewOf(s), i, c, if s.cursors[c].target.Some? then s.cursors[c].target.value.0 else |s.trees|, |s.queries|) && StepCursor(s, i, at, c).Some?
    ensures Moves(ViewOf(s), ViewOf(StepCursor(s, i, at, c).value), i, c, if s.cursors[c].target.Some? then s.cursors[c].target.value.0 else |s.trees|, |s.queries|)
  {
  }

  lemma {:induction false} CursorRetires(s: State, i: nat, at: CursorAt, c: nat)
    requires i < |s.threads| && s.threads[i] == OnCursor(at, c)
    requires c < |s.cursors| && TargetsInRange(s, s.cursors[c])
    requires at.CancelOwn? || at.CloseOwn? || at.Unlock?
    requires Here(ViewOf(s), i, c, |s.trees|, |s.queries|) && StepCursor(s, i, at, c).Some?
    ensures Moves(ViewOf(s), ViewOf(StepCursor(s, i, at, c).value), i, c, |s.trees|, |s.queries|)
  {
  }

  lemma {:induction false} CursorUngates(s: State, i: nat, at: CursorAt, c: nat)
    requires i < |s.threads| && s.threads[i] == OnCursor(at, c)
    requires c < |s.cursors| && TargetsInRange(s, s.cursors[c])
    requires at.CancelUngate? || at.StopOwn?
    requires Here(ViewOf(s), i, c, GateOr(s, c, |s.trees|), |s.queries|) && StepCursor(s, i, at, c).Some?
    ensures Moves(ViewOf(s), ViewOf(StepCursor(s, i, at, c).value), i, c, GateOr(s, c, |s.trees|), |s.queries|)
  {
  }

  lemma {:induction false} CloseUngates(s: State, i: nat, at: CursorAt, c: nat)
    requires i < |s.threads| && s.threads[i] == OnCursor(at, c)
    requires c < |s.cursors| && TargetsInRange(s, s.cursors[c])
    requires at.CloseUngate?
    requires Here(ViewOf(s), i, c, GateOr(s, c, |s.trees|), |s.queries|) && StepCursor(s, i, at, c).Some?
    ensures Moves(ViewOf(s), ViewOf(StepCursor(s, i, at, c).value), i, c, GateOr(s, c, |s.trees|), |s.queries|)
  {
  }

  lemma {:induction false} QueryCloses(s: State, i: nat, at: QueryAt, q: nat)
    requires i < |s.threads| && s.threads[i] == OnQuery(at, q)
    requires q < |s.queries|
    requires Here(ViewOf(s), i, |s.cursors|, |s.trees|, q) && StepQuery(s, i, at, q).Some?
    ensures Moves(ViewOf(s), ViewOf(StepQuery(s, i, at, q).value), i, |s.cursors|, |s.trees|, q)
  {
  }

  lemma {:induction false} TreeCloses(s: State, i: nat, at: TreeAt, t: nat)
    requires i < |s.threads| && s.threads[i] == OnTree(at, t)
    requires t < |s.trees|
    requires Here(ViewOf(s), i, |s.cursors|, t, |s.queries|) && StepTree(s, i, at, t).Some?
    ensures Moves(ViewOf(s), ViewOf(StepTree(s, i, at, t).value), i, |s.cursors|, t, |s.queries|)
  {
  }

  lemma {:induction false} Begins(s: State, i: nat, ch: Choice, c: nat, t: nat, q: nat)
    requires i < |s.threads| && s.threads[i].Idle? && Begin(s, i, ch).Some?
    requires c == if ch.StartClose? then ch.c else |s.cursors|
    requires t == if ch.StartTreeClose? then ch.t else |s.trees|
    requires q == if ch.StartQueryClose? then ch.q else |s.queries|
    requires Here(ViewOf(s), i, c, t, q)
    ensures Moves(ViewOf(s), ViewOf(Begin(s, i, ch).value), i, c, t, q)
  {
  }

  predicate SameSizes(s: State, r: State) {
    |r.threads| == |s.threads| && |r.cursors| == |s.cursors| && |r.trees| == |s.trees| && |r.queries| == |s.queries|
  }

  lemma {:induction false} StillWellFormed(s: State, r: State, i: nat, c: nat)
    requires WellFormed(s) && SameSizes(s, r) && i < |s.threads|
    requires OnlyAt(s.threads, r.threads, i) && OnlyAt(s.cursors, r.cursors, c)
    requires InRange(r, r.threads[i]) && (c < |r.cursors| ==> TargetsInRange(r, r.cursors[c]))
    ensures WellFormed(r)
  {
    forall k | 0 <= k < |r.threads|
      ensures InRange(r, r.threads[k])
    {
      assert InRange(s, s.threads[k]);
    }
    forall k | 0 <= k < |r.cursors|
      ensures TargetsInRange(r, r.cursors[k])
    {
      assert TargetsInRange(s, s.cursors[k]);
    }
  }

  lemma {:induction false} ExecWellFormed(s: State, i: nat, at: ExecAt, c: nat, q: nat, t: nat, ch: Choice)
    requires WellFormed(s) && i < |s.threads| && c < |s.cursors| && q < |s.queries| && t < |s.trees|
    ensures var r := StepExec(s, i, at, c, q, t, ch); r.Some? ==> WellFormed(r.value) && SameSizes(s, r.value)
  {
    var r := StepExec(s, i, at, c, q, t, ch);
    if r.Some? {
      StillWellFormed(s, r.value, i, c);
    }
  }

  lemma {:induction false} NextWellFormed(s: State, i: nat, at: NextAt, c: nat, q: nat, t: nat, temp: bool, ch: Choice)
    requires WellFormed(s) && i < |s.threads| && c < |s.cursors| && q < |s.queries| && t < |s.trees|
    ensures var r := StepNext(s, i, at, c, q, t, temp, ch); r.Some? ==> WellFormed(r.value) && SameSizes(s, r.value)
  {
    var r := StepNext(s, i, at, c, q, t, temp, ch);
    if r.Some? {
      StillWellFormed(s, r.value, i, c);
    }
  }

  lemma {:induction false} CursorWellFormed(s: State, i: nat, at: CursorAt, c: nat)
    requires WellFormed(s) && i < |s.threads| && c < |s.cursors|
    ensures var r := StepCursor(s, i, at, c); r.Some? ==> WellFormed(r.value) && SameSizes(s, r.value)
  {
    var r := StepCursor(s, i, at, c);
    if r.Some? {
      StillWellFormed(s, r.value, i, c);
    }
  }

  lemma {:induction false} BeginWellFormed(s: State, i: nat, ch: Choice)
    requires WellFormed(s) && i < |s.threads|
    ensures var r := Begin(s, i, ch); r.Some? ==> WellFormed(r.value) && SameSizes(s, r.value)
  {
    var r := Begin(s, i, ch);
    if r.Some? {
      StillWellFormed(s, r.value, i, if ch.StartClose? then ch.c else |s.cursors|);
    }
  }

  lemma {:induction false} QueryWellFormed(s: State, i: nat, at: QueryAt, q: nat)
    requires WellFormed(s) && i < |s.threads| && q < |s.queries|
    ensures var r := StepQuery(s, i, at, q); r.Some? ==> WellFormed(r.value) && SameSizes(s, r.value)
  {
    var r := StepQuery(s, i, at, q);
    if r.Some? {
      StillWellFormed(s, r.value, i, |s.cursors|);
    }
  }

  lemma {:induction false} TreeWellFormed(s: State, i: nat, at: TreeAt, t: nat)
    requires WellFormed(s) && i < |s.threads| && t < |s.trees|
    ensures var r := StepTree(s, i, at, t); r.Some? ==> WellFormed(r.value) && SameSizes(s, r.value)
  {
    var r := StepTree(s, i, at, t);
    if r.Some? {
      StillWellFormed(s, r.value, i, |s.cursors|);
    }
  }

  lemma {:induction false} StepWellFormed(s: State, i: nat, ch: Choice)
    requires WellFormed(s) && i < |s.threads| && Step(s, i, ch).Some?
    ensures WellFormed(Step(s, i, ch).value) && SameSizes(s, Step(s, i, ch).value)
  {
    assert InRange(s, s.threads[i]);
    match s.threads[i] {
      case Exec(at, c, q, t) => ExecWellFormed(s, i, at, c, q, t, ch);
      case Next(at, c, q, t, temp) => NextWellFormed(s, i, at, c, q, t, temp, ch);
      case OnCursor(at, c) => CursorWellFormed(s, i, at, c);
      case OnQuery(at, q) => QueryWellFormed(s, i, at, q);
      case OnTree(at, t) => TreeWellFormed(s, i, at, t);
      case Idle => BeginWellFormed(s, i, ch);
    }
  }

  lemma {:induction false} ExecHeld(s: State, i: nat, ch: Choice)
    requires Inv(s) && i < |s.threads| && s.threads[i].Exec? && Step(s, i, ch).Some?
    ensures Held(ViewOf(Step(s, i, ch).value))
  {
    var pc := s.threads[i];
    var at, c, q := pc.x, pc.c, pc.q;
    var t := if at.ExecRetire? || at.ExecUngate? then GateOr(s, c, pc.t) else pc.t;
    assert InRange(s, pc);
    HeldHere(ViewOf(s), i, c, t, q);
    match at {
      case ExecWant => ExecTakes(s, i, at, c, q, t, ch);
      case ExecOwn => ExecTakes(s, i, at, c, q, t, ch);
      case ExecRetire => ExecRetires(s, i, at, c, q, pc.t, ch);
      case ExecUngate => ExecRetires(s, i, at, c, q, pc.t, ch);
      case ExecWantQuery => ExecReads(s, i, at, c, q, t, ch);
      case ExecWantLife => ExecEnters(s, i, at, c, q, t, ch);
      case ExecCheck => ExecChecks(s, i, at, c, q, t, ch);
      case ExecCall => ExecCalls(s, i, at, c, q, t, ch);
      case ExecAbort(_) => ExecAborts(s, i, at, c, q, t, ch);
      case ExecRelease => ExecLeaves(s, i, at, c, q, t, ch);
      case ExecUnlockQuery => ExecUnreads(s, i, at, c, q, t, ch);
    }
    KeepsHeld(ViewOf(s), ViewOf(Step(s, i, ch).value), i, c, t, q);
  }

  lemma {:induction false} NextHeld(s: State, i: nat, ch: Choice)
    requires Inv(s) && i < |s.threads| && s.threads[i].Next? && Step(s, i, ch).Some?
    ensures Held(ViewOf(Step(s, i, ch).value))
  {
    var pc := s.threads[i];
    var at, c, q, temp := pc.n, pc.c, pc.q, pc.temp;
    var t := if at.NextEnd? then GateOr(s, c, pc.t) else pc.t;
    assert InRange(s, pc);
    HeldHere(ViewOf(s), i, c, t, q);
    match at {
      case NextCheck => NextChecks(s, i, at, c, q, t, temp, ch);
      case NextWantQuery(_) => NextReads(s, i, at, c, q, t, temp, ch);
      case NextCheckQuery(_) => NextChecksQuery(s, i, at, c, q, t, temp, ch);
      case NextCall(_) => NextCalls(s, i, at, c, q, t, temp, ch);
      case NextEval => NextJudges(s, i, at, c, q, t, temp, ch);
      case NextEnd(false) => NextEnds(s, i, at, c, q, pc.t, temp, ch);
      case NextEnd(true) => NextFound(s, i, at, c, q, pc.t, temp, ch);
      case NextRelease => NextReleases(s, i, at, c, q, t, temp, ch);
    }
    KeepsHeld(ViewOf(s), ViewOf(Step(s, i, ch).value), i, c, t, q);
  }

  lemma {:induction false} CursorHeld(s: State, i: nat, ch: Choice)
    requires Inv(s) && i < |s.threads| && s.threads[i].OnCursor? && Step(s, i, ch).Some?
    ensures Held(ViewOf(Step(s, i, ch).value))
  {
    var at, c, q := s.threads[i].k, s.threads[i].c, |s.queries|;
    assert InRange(s, s.threads[i]);
    var t :=
      if at.NextOwn? && s.cursors[c].target.Some? then s.cursors[c].target.value.0
      else if at.CancelUngate? || at.StopOwn? || at.CloseUngate? then GateOr(s, c, |s.trees|)
      else |s.trees|;
    HeldHere(ViewOf(s), i, c, t, q);
    match at {
      case NextWant => CursorTakes(s, i, at, c);
      case NextOwn => NextFinds(s, i, at, c);
      case CancelWant => CursorTakes(s, i, at, c);
      case CancelOwn => CursorRetires(s, i, at, c);
      case CancelUngate => CursorUngates(s, i, at, c);
      case StopWant => CursorTakes(s, i, at, c);
      case StopOwn => CursorUngates(s, i, at, c);
      case CloseWant => CursorTakes(s, i, at, c);
      case CloseOwn => CursorRetires(s, i, at, c);
      case CloseUngate => CloseUngates(s, i, at, c);
      case Unlock => CursorRetires(s, i, at, c);
    }
    KeepsHeld(ViewOf(s), ViewOf(Step(s, i, ch).value), i, c, t, q);
  }

  ghost predicate Inv(s: State) { WellFormed(s) && Held(ViewOf(s)) }

  /** Every step of every thread keeps the invariant. */
  lemma {:induction false} StepKeeps(s: State, i: nat, ch: Choice)
    requires Inv(s) && i < |s.threads| && Step(s, i, ch).Some?
    ensures Inv(Step(s, i, ch).value) && SameSizes(s, Step(s, i, ch).value)
  {
    StepWellFormed(s, i, ch);
    var v, w := ViewOf(s), ViewOf(Step(s, i, ch).value);
    assert InRange(s, s.threads[i]);
    match s.threads[i] {
      case Exec(_, _, _, _) => ExecHeld(s, i, ch);
      case Next(_, _, _, _, _) => NextHeld(s, i, ch);
      case OnCursor(_, _) => CursorHeld(s, i, ch);
      case OnQuery(at, q) =>
        HeldHere(v, i, |s.cursors|, |s.trees|, q);
        QueryCloses(s, i, at, q);
        KeepsHeld(v, w, i, |s.cursors|, |s.trees|, q);
      case OnTree(at, t) =>
        HeldHere(v, i, |s.cursors|, t, |s.queries|);
        TreeCloses(s, i, at, t);
        KeepsHeld(v, w, i, |s.cursors|, t, |s.queries|);
      case Idle =>
        var c := if ch.StartClose? then ch.c else |s.cursors|;
        var t := if ch.StartTreeClose? then ch.t else |s.trees|;
        var q := if ch.StartQueryClose? then ch.q else |s.queries|;
        HeldHere(v, i, c, t, q);
        Begins(s, i, ch, c, t, q);
        KeepsHeld(v, w, i, c, t, q);
    }
  }

  // ---------------------------------------------------------------- every run

  /** Open trees and queries, unused cursors, and threads that have not started. */
  ghost predicate Initial(s: State) {
    && (forall i :: 0 <= i < |s.threads| ==> s.threads[i].Idle?)
    && (forall t :: 0 <= t < |s.trees| ==> s.trees[t] == TreeSt(false, true, {}, None))
    && (forall q :: 0 <= q < |s.queries| ==> s.queries[q] == QuerySt(false, true, {}, None))
    && (forall c :: 0 <= c < |s.cursors| ==> s.cursors[c] == CursorSt(None, false, None, false, NoHandle, None, None))
  }

  lemma {:induction false} InitialInv(s: State)
    requires Initial(s)
    ensures Inv(s)
  {
  }

  /** Thread `i` moves if there is one and it does not have to wait. */
  ghost function Move(s: State, i: nat, ch: Choice): (r: State)
    requires Inv(s)
    ensures Inv(r) && SameSizes(s, r)
  {
    if i < |s.threads| && Step(s, i, ch).Some? then
      StepKeeps(s, i, ch);
      Step(s, i, ch).value
    else s
  }

  /** The state after a schedule: which thread moves and what the environment decides. */
  ghost function RunFrom(s: State, schedule: seq<(nat, Choice)>): (r: State)
    requires Inv(s)
    ensures Inv(r) && SameSizes(s, r)
  {
    if schedule == [] then s
    else
      var last := schedule[|schedule| - 1];
      Move(RunFrom(s, schedule[..|schedule| - 1]), last.0, last.1)
  }

  /** A tree or query is still allocated, and nobody holds its lock exclusively, whenever a
  guest call that dereferences it is under way. */
  lemma {:induction false} UsesAreLive(s: State, schedule: seq<(nat, Choice)>, i: nat)
    requires Initial(s) && i < |s.threads|
    ensures Inv(s)
    ensures var r := RunFrom(s, schedule); var pc := r.threads[i];
      && (UsesTree(pc).Some? ==>
            var t := UsesTree(pc).value; t < |r.trees| && r.trees[t].live && !r.trees[t].closed && r.trees[t].writer.None?)
      && (UsesQuery(pc).Some? ==>
            var q := UsesQuery(pc).value; q < |r.queries| && r.queries[q].live && r.queries[q].writer.None?)
  {
    InitialInv(s);
    var r := RunFrom(s, schedule);
    LiveInUse(r, i);
  }

  lemma {:induction false} LiveInUse(r: State, i: nat)
    requires Inv(r) && i < |r.threads|
    ensures var pc := r.threads[i];
      && (UsesTree(pc).Some? ==>
            var t := UsesTree(pc).value; t < |r.trees| && r.trees[t].live && !r.trees[t].closed && r.trees[t].writer.None?)
      && (UsesQuery(pc).Some? ==>
            var q := UsesQuery(pc).value; q < |r.queries| && r.queries[q].live && r.queries[q].writer.None?)
  {
    var v, pc := ViewOf(r), r.threads[i];
    assert v.threads[i] == ResOf(pc);
    if UsesTree(pc).Some? {
      HeldHere(v, i, pc.c, pc.t, pc.q);
      assert InRange(r, pc);
    }
  }

  // ---------------------------------------------------------------- the gate is released once

  /** The step makes an execution's hold on the tree the cursor's. */
  predicate Takes(pc: Pc, ch: Choice, c: nat) {
    pc.Exec? && pc.x.ExecCall? && pc.c == c && ch.Yes?
  }

  /** The step is the release on one of the paths that end an execution: exhaustion or an
  unusable stream, cancellation, `NextMatch` after either, `Close`, and the next `Exec`. */
  predicate Ends(pc: Pc, c: nat) {
    || (pc.Exec? && pc.x.ExecUngate? && pc.c == c)
    || (pc.Next? && pc.n == NextEnd(false) && pc.c == c)
    || (pc.OnCursor? && (pc.k.CancelUngate? || pc.k.StopOwn? || pc.k.CloseUngate?) && pc.c == c)
  }

  /** A step that takes finds the cursor without a gate, a step that releases one finds the
  tree held for this cursor, and after an ending step no tree is; no other step matters. */
  lemma {:induction false} GateStep(s: State, i: nat, ch: Choice, c: nat)
    requires Inv(s) && i < |s.threads| && c < |s.cursors| && Step(s, i, ch).Some?
    ensures var pc, r := s.threads[i], Step(s, i, ch).value;
      && Inv(r) && |r.cursors| == |s.cursors|
      && (Takes(pc, ch, c) ==> s.cursors[c].gate.None? && r.cursors[c].gate == Some(pc.t))
      && (Ends(pc, c) ==> r.cursors[c].gate.None? && forall t :: 0 <= t < |r.trees| ==> Gate(c) !in r.trees[t].life)
      && (Ends(pc, c) && s.cursors[c].gate.Some? ==>
            s.cursors[c].gate.value < |s.trees| && Gate(c) in s.trees[s.cursors[c].gate.value].life)
      && (!Takes(pc, ch, c) && !Ends(pc, c) ==> r.cursors[c].gate == s.cursors[c].gate)
  {
    StepKeeps(s, i, ch);
    var pc, r := s.threads[i], Step(s, i, ch).value;
    assert InRange(s, pc) && ViewOf(s).threads[i] == ResOf(pc);
    assert Sound(ViewOf(s), i) && CursorOk(ViewOf(s), c);
    if s.cursors[c].gate.Some? {
      assert GateAt(ViewOf(s), s.cursors[c].gate.value, c);
    }
    GateChange(s, i, ch, c);
    if Ends(pc, c) {
      forall t | 0 <= t < |r.trees|
        ensures Gate(c) !in r.trees[t].life
      {
        assert GateAt(ViewOf(r), t, c);
      }
    }
  }

  /** The gate a step of `pc` leaves cursor `c` with. */
  function GateAfter(s: State, pc: Pc, ch: Choice, c: nat): Option<nat>
    requires c < |s.cursors|
  {
    if Takes(pc, ch, c) then Some(pc.t) else if Ends(pc, c) then None else s.cursors[c].gate
  }

  lemma {:induction false} ExecGate(s: State, i: nat, at: ExecAt, c: nat, q: nat, t: nat, ch: Choice, d: nat)
    requires WellFormed(s) && i < |s.threads| && c < |s.cursors| && q < |s.queries| && t < |s.trees| && d < |s.cursors|
    ensures var r := StepExec(s, i, at, c, q, t, ch);
      r.Some? ==> |r.value.cursors| == |s.cursors| && r.value.cursors[d].gate == GateAfter(s, Exec(at, c, q, t), ch, d)
  {
  }

  lemma {:induction false} NextGate(s: State, i: nat, at: NextAt, c: nat, q: nat, t: nat, temp: bool, ch: Choice, d: nat)
    requires WellFormed(s) && i < |s.threads| && c < |s.cursors| && q < |s.queries| && t < |s.trees| && d < |s.cursors|
    ensures var r := StepNext(s, i, at, c, q, t, temp, ch);
      r.Some? ==> |r.value.cursors| == |s.cursors| && r.value.cursors[d].gate == GateAfter(s, Next(at, c, q, t, temp), ch, d)
  {
  }

  lemma {:induction false} CursorGate(s: State, i: nat, at: CursorAt, c: nat, ch: Choice, d: nat)
    requires WellFormed(s) && i < |s.threads| && c < |s.cursors| && d < |s.cursors|
    ensures var r := StepCursor(s, i, at, c);
      r.Some? ==> |r.value.cursors| == |s.cursors| && r.value.cursors[d].gate == GateAfter(s, OnCursor(at, c), ch, d)
  {
  }

  lemma {:induction false} GateChange(s: State, i: nat, ch: Choice, d: nat)
    requires WellFormed(s) && i < |s.threads| && d < |s.cursors| && Step(s, i, ch).Some?
    ensures var r := Step(s, i, ch).value;
      |r.cursors| == |s.cursors| && r.cursors[d].gate == GateAfter(s, s.threads[i], ch, d)
  {
    assert InRange(s, s.threads[i]);
    match s.threads[i] {
      case Exec(at, c, q, t) => ExecGate(s, i, at, c, q, t, ch, d);
      case Next(at, c, q, t, temp) => NextGate(s, i, at, c, q, t, temp, ch, d);
      case OnCursor(at, c) => CursorGate(s, i, at, c, ch, d);
      case _ =>
    }
  }

  /** How often a run took cursor `c`'s gate, and how often it released one. */
  ghost function Taken(s: State, schedule: seq<(nat, Choice)>, c: nat): nat
    requires Inv(s) && c < |s.cursors|
  {
    if schedule == [] then 0
    else
      var before, last := schedule[..|schedule| - 1], schedule[|schedule| - 1];
      var p := RunFrom(s, before);
      Taken(s, before, c)
      + if last.0 < |p.threads| && Step(p, last.0, last.1).Some? && Takes(p.threads[last.0], last.1, c) then 1 else 0
  }

  ghost function Released(s: State, schedule: seq<(nat, Choice)>, c: nat): nat
    requires Inv(s) && c < |s.cursors|
  {
    if schedule == [] then 0
    else
      var before, last := schedule[..|schedule| - 1], schedule[|schedule| - 1];
      var p := RunFrom(s, before);
      Released(s, before, c)
      + if last.0 < |p.threads| && Step(p, last.0, last.1).Some? && Ends(p.threads[last.0], c) && p.cursors[c].gate.Some? then 1 else 0
  }

  /** Over every run each gate taken is released exactly once, save the one still held. */
  lemma {:induction false} ReleasedOnce(s: State, schedule: seq<(nat, Choice)>, c: nat)
    requires Initial(s) && c < |s.cursors|
    ensures Inv(s)
    ensures Taken(s, schedule, c) == Released(s, schedule, c) + if RunFrom(s, schedule).cursors[c].gate.Some? then 1 else 0
  {
    InitialInv(s);
    if schedule == [] {
    } else {
      var before, last := schedule[..|schedule| - 1], schedule[|schedule| - 1];
      ReleasedOnce(s, before, c);
      var p := RunFrom(s, before);
      if last.0 < |p.threads| && Step(p, last.0, last.1).Some? {
        GateStep(p, last.0, last.1, c);
      }
    }
  }

  /** Once every cursor is closed and every call has returned, no tree is held: any of them
  can be closed. */
  lemma {:induction false} NothingLeaks(s: State, schedule: seq<(nat, Choice)>, i: nat, t: nat)
    requires Initial(s) && i < |s.threads| && t < |s.trees|
    ensures Inv(s)
    ensures var r := RunFrom(s, schedule);
      (forall k :: 0 <= k < |r.threads| ==> r.threads[k].Idle?) && (forall c :: 0 <= c < |r.cursors| ==> r.cursors[c].closed)
      ==> r.trees[t].life == {} && Step(r, i, StartTreeClose(t)).Some?
  {
    InitialInv(s);
    var r := RunFrom(s, schedule);
    if (forall k :: 0 <= k < |r.threads| ==> r.threads[k].Idle?) && (forall c :: 0 <= c < |r.cursors| ==> r.cursors[c].closed) {
      AtRest(r, t);
    }
  }

  lemma {:induction false} AtRest(r: State, t: nat)
    requires Inv(r) && t < |r.trees|
    requires forall k :: 0 <= k < |r.threads| ==> r.threads[k].Idle?
    requires forall c :: 0 <= c < |r.cursors| ==> r.cursors[c].closed
    ensures r.trees[t].life == {} && r.trees[t].writer.None?
  {
    var v := ViewOf(r);
    forall h: Holder
      ensures h !in r.trees[t].life
    {
      NotHeld(r, t, h);
    }
    assert r.trees[t].life == {};
    var k := if r.trees[t].writer.Some? then r.trees[t].writer.value else 0;
    assert TreeOk(v, t) && TreeWriterAt(v, t, k);
  }

  lemma {:induction false} NotHeld(r: State, t: nat, h: Holder)
    requires Inv(r) && t < |r.trees|
    requires forall k :: 0 <= k < |r.threads| ==> r.threads[k].Idle?
    requires forall c :: 0 <= c < |r.cursors| ==> r.cursors[c].closed
    ensures h !in r.trees[t].life
  {
    var v := ViewOf(r);
    assert TreeOk(v, t);
    match h {
      case Gate(c) =>
        assert GateAt(v, t, c) && CursorOk(v, c);
        var k := if c < |v.cursors| && v.cursors[c].closer.Some? then v.cursors[c].closer.value else 0;
        assert CloserAt(v, c, k);
      case Temp(k) => assert TempAt(v, t, k);
    }
  }

  // ---------------------------------------------------------------- when the destructor runs

  const OPEN := TreeSt(false, true, {}, None)
  const READY := QuerySt(false, true, {}, None)
  const UNUSED := CursorSt(None, false, None, false, NoHandle, None, None)
  const RUNNING := UNUSED.(native := Bound(0), target := Some((0, 0)), gate := Some(0))

  /** One tree, one query, one cursor, one thread. */
  predicate Shows(r: State, t: TreeSt, q: QuerySt, x: CursorSt, pc: Pc) {
    && |r.trees| == |r.queries| == |r.cursors| == |r.threads| == 1
    && r.trees[0] == t && r.queries[0] == q && r.cursors[0] == x && r.threads[0] == pc
  }

  /** A property of states that steps of the first thread keep. */
  ghost predicate Kept(p: State -> bool) {
    && (forall s :: p(s) ==> WellFormed(s))
    && (forall s, ch :: p(s) && |s.threads| > 0 && WellFormed(s) && Step(s, 0, ch).Some? ==> p(Step(s, 0, ch).value))
  }

  lemma {:induction false} GoBegin(p: State -> bool, r: State, ch: Choice) returns (next: State)
    requires Kept(p) && p(r) && |r.threads| == 1 && r.threads[0] == Idle && Begin(r, 0, ch).Some?
    ensures next == Begin(r, 0, ch).value && p(next)
  {
    next := Step(r, 0, ch).value;
  }

  lemma {:induction false} GoExec(p: State -> bool, r: State, at: ExecAt, ch: Choice) returns (next: State)
    requires Kept(p) && p(r) && |r.threads| == |r.cursors| == |r.queries| == |r.trees| == 1
    requires r.threads[0] == Exec(at, 0, 0, 0) && TargetsInRange(r, r.cursors[0]) && StepExec(r, 0, at, 0, 0, 0, ch).Some?
    ensures next == StepExec(r, 0, at, 0, 0, 0, ch).value && p(next)
  {
    next := Step(r, 0, ch).value;
  }

  lemma {:induction false} GoNext(p: State -> bool, r: State, at: NextAt) returns (next: State)
    requires Kept(p) && p(r) && |r.threads| == |r.cursors| == |r.queries| == |r.trees| == 1
    requires r.threads[0] == Next(at, 0, 0, 0, false) && TargetsInRange(r, r.cursors[0])
    requires StepNext(r, 0, at, 0, 0, 0, false, No).Some?
    ensures next == StepNext(r, 0, at, 0, 0, 0, false, No).value && p(next)
  {
    next := Step(r, 0, No).value;
  }

  lemma {:induction false} GoCursor(p: State -> bool, r: State, at: CursorAt) returns (next: State)
    requires Kept(p) && p(r) && |r.threads| == |r.cursors| == 1
    requires r.threads[0] == OnCursor(at, 0) && TargetsInRange(r, r.cursors[0]) && StepCursor(r, 0, at, 0).Some?
    ensures next == StepCursor(r, 0, at, 0).value && p(next)
  {
    next := Step(r, 0, No).value;
  }

  lemma {:induction false} GoTree(p: State -> bool, r: State, at: TreeAt) returns (next: State)
    requires Kept(p) && p(r) && |r.threads| == |r.trees| == 1 && r.threads[0] == OnTree(at, 0) && StepTree(r, 0, at, 0).Some?
    ensures next == StepTree(r, 0, at, 0).value && p(next)
  {
    next := Step(r, 0, No).value;
  }

  lemma {:induction false} ExampleStarts(p: State -> bool, r0: State) returns (r: State)
    requires Kept(p) && p(r0) && Shows(r0, OPEN, READY, UNUSED, Idle)
    ensures p(r) && Shows(r, OPEN, READY, UNUSED.(owner := Some(0)), Exec(ExecWantQuery, 0, 0, 0))
  {
    r := GoBegin(p, r0, StartExec(0, 0, 0));
    r := GoExec(p, r, ExecWant, No);
    r := GoExec(p, r, ExecOwn, No);
  }

  lemma {:induction false} ExampleCalls(p: State -> bool, r0: State) returns (r: State)
    requires Kept(p) && p(r0) && Shows(r0, OPEN, READY, UNUSED.(owner := Some(0)), Exec(ExecWantQuery, 0, 0, 0))
    ensures p(r)
    ensures Shows(r, OPEN.(life := {Temp(0)}), READY.(readers := {0}), UNUSED.(owner := Some(0), native := Fresh), Exec(ExecCall, 0, 0, 0))
  {
    r := GoExec(p, r0, ExecWantQuery, No);
    r := GoExec(p, r, ExecWantLife, No);
    r := GoExec(p, r, ExecCheck, No);
  }

  lemma {:induction false} ExampleRuns(p: State -> bool, r0: State) returns (r: State)
    requires Kept(p) && p(r0)
    requires Shows(r0, OPEN.(life := {Temp(0)}), READY.(readers := {0}), UNUSED.(owner := Some(0), native := Fresh), Exec(ExecCall, 0, 0, 0))
    ensures p(r) && Shows(r, OPEN.(life := {Gate(0)}), READY, RUNNING, Idle)
  {
    r := GoExec(p, r0, ExecCall, Yes);
    assert r.trees[0].life == {Gate(0)};
    r := GoExec(p, r, ExecUnlockQuery, No);
    assert r.queries[0].readers == {};
    r := GoCursor(p, r, Unlock);
  }

  lemma {:induction false} ExampleAsks(p: State -> bool, r0: State) returns (r: State)
    requires Kept(p) && p(r0) && Shows(r0, OPEN.(life := {Gate(0)}), READY, RUNNING, Idle)
    ensures p(r)
    ensures Shows(r, OPEN.(life := {Gate(0)}), READY, RUNNING.(owner := Some(0)), Next(NextCheck, 0, 0, 0, false))
  {
    r := GoBegin(p, r0, StartNext(0));
    r := GoCursor(p, r, NextWant);
    r := GoCursor(p, r, NextOwn);
  }

  lemma {:induction false} ExampleDrains(p: State -> bool, r0: State) returns (r: State)
    requires Kept(p) && p(r0)
    requires Shows(r0, OPEN.(life := {Gate(0)}), READY, RUNNING.(owner := Some(0)), Next(NextCheck, 0, 0, 0, false))
    ensures p(r)
    ensures Shows(r, OPEN.(life := {Gate(0)}), READY, RUNNING.(owner := Some(0)), Next(NextEnd(false), 0, 0, 0, false))
  {
    r := GoNext(p, r0, NextCheck);
    r := GoNext(p, r, NextWantQuery(false));
    r := GoNext(p, r, NextCheckQuery(false));
    r := GoNext(p, r, NextCall(false));
    assert r.queries[0].readers == {};
  }

  lemma {:induction false} ExampleRests(p: State -> bool, r0: State) returns (r: State)
    requires Kept(p) && p(r0)
    requires Shows(r0, OPEN.(life := {Gate(0)}), READY, RUNNING.(owner := Some(0)), Next(NextEnd(false), 0, 0, 0, false))
    ensures p(r) && Shows(r, OPEN, READY, RUNNING.(gate := None), Idle)
  {
    r := GoNext(p, r0, NextEnd(false));
    assert r.trees[0].life == {};
    r := GoNext(p, r, NextRelease);
    r := GoCursor(p, r, Unlock);
  }

  lemma {:induction false} ExampleFrees(p: State -> bool, r0: State) returns (r: State)
    requires Kept(p) && p(r0) && Shows(r0, OPEN, READY, RUNNING.(gate := None), Idle)
    ensures p(r) && Shows(r, TreeSt(true, false, {}, None), READY, RUNNING.(gate := None), Idle)
  {
    r := GoBegin(p, r0, StartTreeClose(0));
    r := GoTree(p, r, TreeOwn);
    r := GoTree(p, r, TreeDelete);
    r := GoTree(p, r, TreeUnlock);
  }

  lemma {:induction false} ExampleDestroys(p: State -> bool, r0: State) returns (r: State)
    requires Kept(p) && p(r0) && Shows(r0, OPEN, READY, UNUSED, Idle)
    ensures p(r) && |r.threads| == |r.cursors| == |r.trees| == 1
    ensures Destroys(r.threads[0]) == Some(0) && r.cursors[0].native == Bound(0) && !r.trees[0].live
  {
    r := ExampleStarts(p, r0);
    r := ExampleCalls(p, r);
    r := ExampleRuns(p, r);
    r := ExampleAsks(p, r);
    r := ExampleDrains(p, r);
    r := ExampleRests(p, r);
    r := ExampleFrees(p, r);
    r := GoBegin(p, r, StartClose(0));
    r := GoCursor(p, r, CloseWant);
  }

  ghost predicate Reached(s: State, r: State)
    requires Inv(s)
  {
    exists schedule :: RunFrom(s, schedule) == r
  }

  lemma {:induction false} ReachedKept(s: State)
    requires Inv(s)
    ensures Kept(r => Reached(s, r))
  {
    forall r, ch | Reached(s, r) && |r.threads| > 0 && WellFormed(r) && Step(r, 0, ch).Some?
      ensures Reached(s, Step(r, 0, ch).value)
    {
      var schedule :| RunFrom(s, schedule) == r;
      var longer := schedule + [(0, ch)];
      assert longer[..|longer| - 1] == schedule;
      assert RunFrom(s, longer) == Step(r, 0, ch).value;
    }
  }

  /** The gate goes when a stream is exhausted, but the handle stays: `Tree.Close` can then
  free the tree before the cursor's `Close` destroys the handle that points into it. */
  lemma {:induction false} DestroyedAfterTree() returns (s: State, r: State)
    ensures Initial(s) && Inv(s) && Reached(s, r) && |r.threads| == |r.cursors| == |r.trees| == 1
    ensures Destroys(r.threads[0]) == Some(0) && r.cursors[0].native == Bound(0) && !r.trees[0].live
  {
    s := State([OPEN], [READY], [UNUSED], [Idle]);
    InitialInv(s);
    assert RunFrom(s, []) == s;
    ReachedKept(s);
    r := ExampleDestroys(r => Reached(s, r), s);
  }
}
