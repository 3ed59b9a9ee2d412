/** Progress of the lifetime machine: a thread waits only for a lock that another thread
holds, some thread can always move, and every call under way can return. */
module Progress {
  import opened Values
  import opened Lifetime

  /** The threads named as holders exist. */
  ghost predicate HoldersIn(s: State) { OwnersIn(s) && ReadersIn(s) }

  ghost predicate OwnersIn(s: State) {
    forall c :: 0 <= c < |s.cursors| && s.cursors[c].owner.Some? ==> s.cursors[c].owner.value < |s.threads|
  }

  ghost predicate ReadersIn(s: State) {
    forall q, k :: 0 <= q < |s.queries| && k in s.queries[q].readers ==> k < |s.threads|
  }

  lemma {:induction false} ExecOwner(s: State, i: nat, ch: Choice, d: nat)
    requires WellFormed(s) && i < |s.threads| && s.threads[i].Exec? && Step(s, i, ch).Some? && d < |s.cursors|
    ensures var r := Step(s, i, ch).value;
      |r.cursors| == |s.cursors| && |r.threads| == |s.threads| && r.cursors[d].owner in [None, Some(i), s.cursors[d].owner]
  {
    assert InRange(s, s.threads[i]);
  }

  lemma {:induction false} ExecOwners(s: State, i: nat, ch: Choice)
    requires WellFormed(s) && OwnersIn(s) && i < |s.threads| && s.threads[i].Exec? && Step(s, i, ch).Some?
    ensures OwnersIn(Step(s, i, ch).value)
  {
    var r := Step(s, i, ch).value;
    assert |r.cursors| == |s.cursors| by {
      assert InRange(s, s.threads[i]);
      ExecOwner(s, i, ch, s.threads[i].c);
    }
    forall d | 0 <= d < |s.cursors|
      ensures |r.threads| == |s.threads| && r.cursors[d].owner in [None, Some(i), s.cursors[d].owner]
    {
      ExecOwner(s, i, ch, d);
    }
    hide Step;
  }

  lemma {:induction false} ExecReaders(s: State, i: nat, ch: Choice)
    requires WellFormed(s) && ReadersIn(s) && i < |s.threads| && s.threads[i].Exec? && Step(s, i, ch).Some?
    ensures ReadersIn(Step(s, i, ch).value)
  {
  }

  lemma {:induction false} NextOwner(s: State, i: nat, ch: Choice, d: nat)
    requires WellFormed(s) && i < |s.threads| && s.threads[i].Next? && Step(s, i, ch).Some? && d < |s.cursors|
    ensures var r := Step(s, i, ch).value;
      |r.cursors| == |s.cursors| && |r.threads| == |s.threads| && r.cursors[d].owner == s.cursors[d].owner
  {
    assert InRange(s, s.threads[i]);
  }

  lemma {:induction false} NextOwners(s: State, i: nat, ch: Choice)
    requires WellFormed(s) && OwnersIn(s) && i < |s.threads| && s.threads[i].Next? && Step(s, i, ch).Some?
    ensures OwnersIn(Step(s, i, ch).value)
  {
    var r := Step(s, i, ch).value;
    assert |r.cursors| == |s.cursors| by {
      assert InRange(s, s.threads[i]);
      NextOwner(s, i, ch, s.threads[i].c);
    }
    forall d | 0 <= d < |s.cursors|
      ensures |r.threads| == |s.threads| && r.cursors[d].owner == s.cursors[d].owner
    {
      NextOwner(s, i, ch, d);
    }
    hide Step;
  }

  lemma {:induction false} NextReaders(s: State, i: nat, ch: Choice)
    requires WellFormed(s) && ReadersIn(s) && i < |s.threads| && s.threads[i].Next? && Step(s, i, ch).Some?
    ensures ReadersIn(Step(s, i, ch).value)
  {
  }

  lemma {:induction false} CursorOwner(s: State, i: nat, ch: Choice, d: nat)
    requires WellFormed(s) && i < |s.threads| && s.threads[i].OnCursor? && Step(s, i, ch).Some? && d < |s.cursors|
    ensures var r := Step(s, i, ch).value;
      |r.cursors| == |s.cursors| && |r.threads| == |s.threads| && r.cursors[d].owner in [None, Some(i), s.cursors[d].owner]
  {
    assert InRange(s, s.threads[i]);
  }

  lemma {:induction false} CursorOwners(s: State, i: nat, ch: Choice)
    requires WellFormed(s) && OwnersIn(s) && i < |s.threads| && s.threads[i].OnCursor? && Step(s, i, ch).Some?
    ensures OwnersIn(Step(s, i, ch).value)
  {
    var r := Step(s, i, ch).value;
    assert |r.cursors| == |s.cursors| by {
      assert InRange(s, s.threads[i]);
      CursorOwner(s, i, ch, s.threads[i].c);
    }
    forall d | 0 <= d < |s.cursors|
      ensures |r.threads| == |s.threads| && r.cursors[d].owner in [None, Some(i), s.cursors[d].owner]
    {
      CursorOwner(s, i, ch, d);
    }
    hide Step;
  }

  lemma {:induction false} CursorReaders(s: State, i: nat, ch: Choice)
    requires WellFormed(s) && ReadersIn(s) && i < |s.threads| && s.threads[i].OnCursor? && Step(s, i, ch).Some?
    ensures ReadersIn(Step(s, i, ch).value)
  {
  }

  lemma {:induction false} OtherHolders(s: State, i: nat, ch: Choice)
    requires WellFormed(s) && HoldersIn(s) && i < |s.threads| && Step(s, i, ch).Some?
    requires s.threads[i].Idle? || s.threads[i].OnQuery? || s.threads[i].OnTree?
    ensures HoldersIn(Step(s, i, ch).value)
  {
  }

  lemma {:induction false} StepHolders(s: State, i: nat, ch: Choice)
    requires WellFormed(s) && HoldersIn(s) && i < |s.threads| && Step(s, i, ch).Some?
    ensures HoldersIn(Step(s, i, ch).value)
  {
    match s.threads[i] {
      case Exec(_, _, _, _) =>
        ExecOwners(s, i, ch);
        ExecReaders(s, i, ch);
      case Next(_, _, _, _, _) =>
        NextOwners(s, i, ch);
        NextReaders(s, i, ch);
      case OnCursor(_, _) =>
        CursorOwners(s, i, ch);
        CursorReaders(s, i, ch);
      case _ => OtherHolders(s, i, ch);
    }
  }

  lemma {:induction false} RunHolders(s: State, schedule: seq<(nat, Choice)>)
    requires Inv(s) && HoldersIn(s)
    ensures HoldersIn(RunFrom(s, schedule))
    decreases |schedule|
  {
    if schedule != [] {
      var before, last := schedule[..|schedule| - 1], schedule[|schedule| - 1];
      RunHolders(s, before);
      var r := RunFrom(s, before);
      if last.0 < |r.threads| && Step(r, last.0, last.1).Some? {
        StepHolders(r, last.0, last.1);
      }
    }
  }

  // ---------------------------------------------------------------- what threads wait for

  datatype Wait = Nothing | Mutex(c: nat) | QueryRead(q: nat) | QueryWrite(q: nat) | TreeGate(t: nat)

  /** The lock the next step of a thread takes. */
  function Wants(s: State, pc: Pc): Wait
    requires InRange(s, pc)
  {
    match pc
    case Exec(ExecWant, c, _, _) => Mutex(c)
    case Exec(ExecWantQuery, _, q, _) => QueryRead(q)
    case Exec(ExecWantLife, _, q, t) => if s.queries[q].closed then Nothing else TreeGate(t)
    case Next(NextWantQuery(_), _, q, _, _) => QueryRead(q)
    case OnCursor(NextWant, c) => Mutex(c)
    case OnCursor(CancelWant, c) => Mutex(c)
    case OnCursor(StopWant, c) => Mutex(c)
    case OnCursor(CloseWant, c) => Mutex(c)
    case OnCursor(NextOwn, c) =>
      var x := s.cursors[c];
      if x.closed || x.target.None? || x.gate.Some? then Nothing else TreeGate(x.target.value.0)
    case OnQuery(QueryWant, q) => QueryWrite(q)
    case _ => Nothing
  }

  /** Somebody holds that lock in a way that keeps others out. */
  predicate Taken(s: State, w: Wait) {
    match w
    case Nothing => false
    case Mutex(c) => c < |s.cursors| && s.cursors[c].owner.Some?
    case QueryRead(q) => q < |s.queries| && s.queries[q].writer.Some?
    case QueryWrite(q) => q < |s.queries| && (s.queries[q].readers != {} || s.queries[q].writer.Some?)
    case TreeGate(t) => t < |s.trees| && s.trees[t].writer.Some?
  }

  /** A call under way waits exactly while the lock it wants next is taken, whatever the
  guest calls answer. */
  lemma {:induction false} WaitsIffTaken(s: State, i: nat, ch: Choice)
    requires WellFormed(s) && i < |s.threads| && !s.threads[i].Idle?
    ensures InRange(s, s.threads[i]) && (Step(s, i, ch).None? <==> Taken(s, Wants(s, s.threads[i])))
  {
    assert InRange(s, s.threads[i]);
  }

  lemma {:induction false} TreeWriterMoves(s: State, t: nat) returns (k: nat)
    requires Inv(s) && t < |s.trees| && s.trees[t].writer.Some?
    ensures k < |s.threads| && !s.threads[k].Idle? && Step(s, k, Yes).Some?
  {
    k := s.trees[t].writer.value;
    assert TreeOk(ViewOf(s), t) && TreeWriterAt(ViewOf(s), t, k);
    assert ViewOf(s).threads[k] == ResOf(s.threads[k]);
    WaitsIffTaken(s, k, Yes);
  }

  lemma {:induction false} QueryWriterMoves(s: State, q: nat) returns (k: nat)
    requires Inv(s) && q < |s.queries| && s.queries[q].writer.Some?
    ensures k < |s.threads| && !s.threads[k].Idle? && Step(s, k, Yes).Some?
  {
    k := s.queries[q].writer.value;
    assert QueryOk(ViewOf(s), q) && QueryWriterAt(ViewOf(s), q, k);
    assert ViewOf(s).threads[k] == ResOf(s.threads[k]);
    WaitsIffTaken(s, k, Yes);
  }

  /** A thread that wants a query or a tree shared moves, or whoever shuts that moves. */
  lemma {:induction false} SharerMoves(s: State, i: nat) returns (k: nat)
    requires Inv(s) && i < |s.threads| && !s.threads[i].Idle?
    requires var w := WaitOf(s, i); w.Nothing? || w.QueryRead? || w.TreeGate?
    ensures k < |s.threads| && !s.threads[k].Idle? && Step(s, k, Yes).Some?
  {
    WaitsIffTaken(s, i, Yes);
    if Step(s, i, Yes).Some? {
      k := i;
    } else if WaitOf(s, i).QueryRead? {
      k := QueryWriterMoves(s, WaitOf(s, i).q);
    } else {
      k := TreeWriterMoves(s, WaitOf(s, i).t);
    }
  }

  function WaitOf(s: State, i: nat): Wait
    requires WellFormed(s) && i < |s.threads|
  {
    assert InRange(s, s.threads[i]);
    Wants(s, s.threads[i])
  }

  /** Whoever holds a cursor's mutex wants no other mutex, and is not closing a query. */
  lemma {:induction false} OwnerShares(s: State, c: nat)
    requires Inv(s) && HoldersIn(s) && c < |s.cursors| && s.cursors[c].owner.Some?
    ensures var k := s.cursors[c].owner.value;
      k < |s.threads| && !s.threads[k].Idle? && (WaitOf(s, k).Nothing? || WaitOf(s, k).QueryRead? || WaitOf(s, k).TreeGate?)
  {
    var k := s.cursors[c].owner.value;
    assert OwnerAt(ViewOf(s), c, k);
    assert ViewOf(s).threads[k] == ResOf(s.threads[k]);
  }

  lemma {:induction false} ReaderShares(s: State, q: nat, k: nat)
    requires Inv(s) && HoldersIn(s) && q < |s.queries| && k in s.queries[q].readers
    ensures k < |s.threads| && !s.threads[k].Idle? && (WaitOf(s, k).Nothing? || WaitOf(s, k).QueryRead? || WaitOf(s, k).TreeGate?)
  {
    assert ReaderAt(ViewOf(s), q, k);
    assert ViewOf(s).threads[k] == ResOf(s.threads[k]);
  }

  /** While a call is under way some call under way can move. */
  lemma {:induction false} NeverStuck(s: State, i: nat) returns (k: nat)
    requires Inv(s) && HoldersIn(s) && i < |s.threads| && !s.threads[i].Idle?
    ensures k < |s.threads| && !s.threads[k].Idle? && Step(s, k, Yes).Some?
  {
    WaitsIffTaken(s, i, Yes);
    if Step(s, i, Yes).Some? {
      k := i;
    } else {
      match WaitOf(s, i)
      case Mutex(c) =>
        OwnerShares(s, c);
        k := SharerMoves(s, s.cursors[c].owner.value);
      case QueryWrite(q) =>
        if s.queries[q].writer.Some? {
          k := QueryWriterMoves(s, q);
        } else {
          var reader :| reader in s.queries[q].readers;
          ReaderShares(s, q, reader);
          k := SharerMoves(s, reader);
        }
      case _ => k := SharerMoves(s, i);
    }
  }

  // ---------------------------------------------------------------- calls return

  /** How many steps a call may still take when guest calls succeed. */
  function Rank(pc: Pc): nat {
    match pc
    case Idle => 0
    case Exec(at, _, _, _) =>
      (match at
       case ExecWant => 12
       case ExecOwn => 11
       case ExecRetire => 10
       case ExecUngate => 9
       case ExecWantQuery => 8
       case ExecWantLife => 7
       case ExecCheck => 6
       case ExecCall => 5
       case ExecAbort(_) => 4
       case ExecRelease => 3
       case ExecUnlockQuery => 2)
    case Next(at, _, _, _, _) =>
      (match at
       case NextCheck => 11
       case NextWantQuery(remove) => if remove then 10 else 7
       case NextCheckQuery(remove) => if remove then 9 else 6
       case NextCall(remove) => if remove then 8 else 5
       case NextEval => 4
       case NextEnd(_) => 3
       case NextRelease => 2)
    case OnCursor(at, _) =>
      (match at
       case NextWant => 13
       case NextOwn => 12
       case CancelWant => 4
       case CancelOwn => 3
       case CancelUngate => 2
       case StopWant => 3
       case StopOwn => 2
       case CloseWant => 4
       case CloseOwn => 3
       case CloseUngate => 2
       case Unlock => 1)
    case OnQuery(at, _) => if at.QueryWant? then 3 else if at.QueryDelete? then 2 else 1
    case OnTree(at, _) => if at.TreeOwn? then 3 else if at.TreeDelete? then 2 else 1
  }

  function Total(pcs: seq<Pc>): nat { if pcs == [] then 0 else Total(pcs[..|pcs| - 1]) + Rank(pcs[|pcs| - 1]) }

  /** Only thread `k` moved, and it has less to do. */
  ghost predicate Nearer(s: State, r: State, k: nat)
    requires k < |s.threads|
  {
    |r.threads| == |s.threads| && r.threads == s.threads[k := r.threads[k]] && Rank(r.threads[k]) < Rank(s.threads[k])
  }

  lemma {:induction false} ExecRanks(s: State, k: nat)
    requires WellFormed(s) && k < |s.threads| && s.threads[k].Exec? && Step(s, k, Yes).Some?
    ensures Nearer(s, Step(s, k, Yes).value, k)
  {
    assert InRange(s, s.threads[k]);
  }

  lemma {:induction false} NextRanks(s: State, k: nat)
    requires WellFormed(s) && k < |s.threads| && s.threads[k].Next? && Step(s, k, Yes).Some?
    ensures Nearer(s, Step(s, k, Yes).value, k)
  {
    assert InRange(s, s.threads[k]);
  }

  lemma {:induction false} CursorRanks(s: State, k: nat)
    requires WellFormed(s) && k < |s.threads| && s.threads[k].OnCursor? && Step(s, k, Yes).Some?
    ensures Nearer(s, Step(s, k, Yes).value, k)
  {
    assert InRange(s, s.threads[k]);
  }

  lemma {:induction false} StepRanks(s: State, k: nat)
    requires WellFormed(s) && k < |s.threads| && !s.threads[k].Idle? && Step(s, k, Yes).Some?
    ensures Nearer(s, Step(s, k, Yes).value, k)
  {
    assert InRange(s, s.threads[k]);
    match s.threads[k] {
      case Exec(_, _, _, _) => ExecRanks(s, k);
      case Next(_, _, _, _, _) => NextRanks(s, k);
      case OnCursor(_, _) => CursorRanks(s, k);
      case _ =>
    }
  }

  lemma {:induction false} TotalDrops(pcs: seq<Pc>, k: nat, pc: Pc)
    requires k < |pcs| && Rank(pc) < Rank(pcs[k])
    ensures Total(pcs[k := pc]) < Total(pcs)
    decreases |pcs|
  {
    var n, next := |pcs| - 1, pcs[k := pc];
    if k < n {
      TotalDrops(pcs[..n], k, pc);
      assert next[..n] == pcs[..n][k := pc];
    } else {
      assert next[..n] == pcs[..n];
    }
  }

  lemma {:induction false} RunOn(s: State, before: seq<(nat, Choice)>, after: seq<(nat, Choice)>)
    requires Inv(s)
    ensures RunFrom(s, before + after) == RunFrom(RunFrom(s, before), after)
    decreases |after|
  {
    hide Step, Held, WellFormed;
    if after == [] {
      assert before + after == before;
    } else {
      var n := |after| - 1;
      RunOn(s, before, after[..n]);
      assert (before + after)[..|before| + n] == before + after[..n];
    }
  }

  ghost predicate AllIdle(s: State) { forall k :: 0 <= k < |s.threads| ==> s.threads[k].Idle? }

  lemma {:induction false} Finish(s: State) returns (schedule: seq<(nat, Choice)>)
    requires Inv(s) && HoldersIn(s)
    ensures AllIdle(RunFrom(s, schedule)) && forall j :: 0 <= j < |schedule| ==> schedule[j].1 == Yes
    decreases Total(s.threads)
  {
    if AllIdle(s) {
      schedule := [];
    } else {
      var i: nat :| i < |s.threads| && !s.threads[i].Idle?;
      var k := NeverStuck(s, i);
      var r := Step(s, k, Yes).value;
      StepKeeps(s, k, Yes);
      StepHolders(s, k, Yes);
      StepRanks(s, k);
      TotalDrops(s.threads, k, r.threads[k]);
      var rest := Finish(r);
      schedule := [(k, Yes)] + rest;
      assert [(k, Yes)][..0] == [];
      assert RunFrom(s, [(k, Yes)]) == r;
      RunOn(s, [(k, Yes)], rest);
    }
  }

  /** After any run, all calls under way can return without another being started. */
  lemma {:induction false} CallsReturn(s: State, schedule: seq<(nat, Choice)>) returns (more: seq<(nat, Choice)>)
    requires Initial(s)
    ensures Inv(s) && AllIdle(RunFrom(s, schedule + more)) && forall j :: 0 <= j < |more| ==> more[j].1 == Yes
  {
    InitialInv(s);
    RunHolders(s, schedule);
    more := Finish(RunFrom(s, schedule));
    RunOn(s, schedule, more);
  }

  // ---------------------------------------------------------------- how a search ends

  /** `NextMatch` hands a match out exactly when the guest found one that the predicates pass,
  and ends the execution exactly when the tree is closed, the handle gone or the query
  closed, or when the guest finds nothing more. */
  lemma {:induction false} SearchEnds(s: State, i: nat, ch: Choice)
    requires WellFormed(s) && i < |s.threads| && s.threads[i].Next? && Step(s, i, ch).Some?
    ensures var pc, r := s.threads[i], Step(s, i, ch).value;
      && |r.threads| == |s.threads| && pc.t < |s.trees| && pc.c < |s.cursors| && pc.q < |s.queries|
      && (r.threads[i].Next? && r.threads[i].n == NextEnd(true) <==> pc.n.NextEval? && ch.Yes?)
      && (r.threads[i].Next? && r.threads[i].n == NextEnd(false) <==>
            || (pc.n.NextCheck? && (s.trees[pc.t].closed || !s.cursors[pc.c].native.Bound?))
            || (pc.n.NextCheckQuery? && s.queries[pc.q].closed)
            || (pc.n == NextCall(false) && !ch.Yes?))
      && (pc.n.NextEval? && ch.Again? <==> r.threads[i].Next? && r.threads[i].n == NextWantQuery(true))
  {
    assert InRange(s, s.threads[i]);
  }

  // ---------------------------------------------------------------- what is closed is freed

  /** A closed tree is freed, or its closer is just about to free it. */
  ghost predicate TreeFreed(s: State, t: nat) {
    t < |s.trees| && s.trees[t].closed && s.trees[t].live ==>
      s.trees[t].writer.Some? && s.trees[t].writer.value < |s.threads| && s.threads[s.trees[t].writer.value] == OnTree(TreeDelete, t)
  }

  predicate ClosesQuery(pc: Pc, q: nat) { pc == OnQuery(QueryWant, q) || pc == OnQuery(QueryDelete, q) }

  ghost predicate QueryFreed(s: State, q: nat) {
    q < |s.queries| && s.queries[q].closed && s.queries[q].live ==> exists k :: 0 <= k < |s.threads| && ClosesQuery(s.threads[k], q)
  }

  predicate ClosesCursor(pc: Pc, c: nat) { pc == OnCursor(CloseWant, c) || pc == OnCursor(CloseOwn, c) }

  ghost predicate CursorFreed(s: State, c: nat) {
    c < |s.cursors| && s.cursors[c].closed && !s.cursors[c].native.NoHandle? ==>
      exists k :: 0 <= k < |s.threads| && ClosesCursor(s.threads[k], c)
  }

  ghost predicate Freed(s: State) {
    (forall t: nat :: TreeFreed(s, t)) && (forall q: nat :: QueryFreed(s, q)) && (forall c: nat :: CursorFreed(s, c))
  }

  /** A step changes what its own thread does next, and no other. */
  ghost predicate OthersStay(s: State, r: State, i: nat) {
    |r.threads| == |s.threads| && forall k :: 0 <= k < |s.threads| && k != i ==> r.threads[k] == s.threads[k]
  }

  /** The thread is still in a call that closes no tree and no query, or through with it. */
  ghost predicate GoesOn(r: State, i: nat) { i < |r.threads| && !r.threads[i].OnTree? && !r.threads[i].OnQuery? }

  /** Whether the tree is closed, freed and held exclusively, and the query closed and freed, stays so. */
  ghost predicate TreeStays(s: State, r: State, t: nat) {
    t < |s.trees| ==>
      t < |r.trees| && r.trees[t].closed == s.trees[t].closed && r.trees[t].live == s.trees[t].live && r.trees[t].writer == s.trees[t].writer
  }

  ghost predicate QueryStays(s: State, r: State, q: nat) {
    |r.queries| == |s.queries| && (q < |s.queries| ==> r.queries[q].closed == s.queries[q].closed && r.queries[q].live == s.queries[q].live)
  }

  lemma {:induction false} ExecOthers(s: State, i: nat, ch: Choice)
    requires WellFormed(s) && i < |s.threads| && s.threads[i].Exec? && Step(s, i, ch).Some?
    ensures OthersStay(s, Step(s, i, ch).value, i)
  {
    assert InRange(s, s.threads[i]);
  }

  lemma {:induction false} ExecGoesOn(s: State, i: nat, ch: Choice)
    requires WellFormed(s) && i < |s.threads| && s.threads[i].Exec? && Step(s, i, ch).Some?
    ensures GoesOn(Step(s, i, ch).value, i) && |Step(s, i, ch).value.trees| == |s.trees|
  {
    assert InRange(s, s.threads[i]);
  }

  lemma {:induction false} ExecTrees(s: State, i: nat, ch: Choice, t: nat)
    requires WellFormed(s) && i < |s.threads| && s.threads[i].Exec? && Step(s, i, ch).Some?
    ensures TreeStays(s, Step(s, i, ch).value, t)
  {
    assert InRange(s, s.threads[i]);
  }

  lemma {:induction false} ExecQueries(s: State, i: nat, ch: Choice, q: nat)
    requires WellFormed(s) && i < |s.threads| && s.threads[i].Exec? && Step(s, i, ch).Some?
    ensures QueryStays(s, Step(s, i, ch).value, q)
  {
    assert InRange(s, s.threads[i]);
  }

  lemma {:induction false} NextOthers(s: State, i: nat, ch: Choice)
    requires WellFormed(s) && i < |s.threads| && s.threads[i].Next? && Step(s, i, ch).Some?
    ensures OthersStay(s, Step(s, i, ch).value, i)
  {
    assert InRange(s, s.threads[i]);
  }

  lemma {:induction false} NextGoesOn(s: State, i: nat, ch: Choice)
    requires WellFormed(s) && i < |s.threads| && s.threads[i].Next? && Step(s, i, ch).Some?
    ensures GoesOn(Step(s, i, ch).value, i) && |Step(s, i, ch).value.trees| == |s.trees|
  {
    assert InRange(s, s.threads[i]);
  }

  lemma {:induction false} NextTrees(s: State, i: nat, ch: Choice, t: nat)
    requires WellFormed(s) && i < |s.threads| && s.threads[i].Next? && Step(s, i, ch).Some?
    ensures TreeStays(s, Step(s, i, ch).value, t)
  {
    assert InRange(s, s.threads[i]);
  }

  lemma {:induction false} NextQueries(s: State, i: nat, ch: Choice, q: nat)
    requires WellFormed(s) && i < |s.threads| && s.threads[i].Next? && Step(s, i, ch).Some?
    ensures QueryStays(s, Step(s, i, ch).value, q)
  {
    assert InRange(s, s.threads[i]);
  }

  lemma {:induction false} CursorOthers(s: State, i: nat, ch: Choice)
    requires WellFormed(s) && i < |s.threads| && s.threads[i].OnCursor? && Step(s, i, ch).Some?
    ensures OthersStay(s, Step(s, i, ch).value, i)
  {
    assert InRange(s, s.threads[i]);
  }

  lemma {:induction false} CursorGoesOn(s: State, i: nat, ch: Choice)
    requires WellFormed(s) && i < |s.threads| && s.threads[i].OnCursor? && Step(s, i, ch).Some?
    ensures GoesOn(Step(s, i, ch).value, i) && |Step(s, i, ch).value.trees| == |s.trees|
  {
    assert InRange(s, s.threads[i]);
  }

  lemma {:induction false} CursorTrees(s: State, i: nat, ch: Choice, t: nat)
    requires WellFormed(s) && i < |s.threads| && s.threads[i].OnCursor? && Step(s, i, ch).Some?
    ensures TreeStays(s, Step(s, i, ch).value, t)
  {
    assert InRange(s, s.threads[i]);
  }

  lemma {:induction false} CursorQueries(s: State, i: nat, ch: Choice, q: nat)
    requires WellFormed(s) && i < |s.threads| && s.threads[i].OnCursor? && Step(s, i, ch).Some?
    ensures QueryStays(s, Step(s, i, ch).value, q)
  {
    assert InRange(s, s.threads[i]);
  }

  predicate ClosesNothing(pc: Pc) { pc.Exec? || pc.Next? || pc.OnCursor? }

  lemma {:induction false} CallStays(s: State, i: nat, ch: Choice, t: nat, q: nat)
    requires WellFormed(s) && i < |s.threads| && ClosesNothing(s.threads[i]) && Step(s, i, ch).Some?
    ensures var r := Step(s, i, ch).value;
      OthersStay(s, r, i) && GoesOn(r, i) && |r.trees| == |s.trees| && TreeStays(s, r, t) && QueryStays(s, r, q)
  {
    match s.threads[i] {
      case Exec(_, _, _, _) =>
        ExecOthers(s, i, ch);
        ExecGoesOn(s, i, ch);
        ExecTrees(s, i, ch, t);
        ExecQueries(s, i, ch, q);
      case Next(_, _, _, _, _) =>
        NextOthers(s, i, ch);
        NextGoesOn(s, i, ch);
        NextTrees(s, i, ch, t);
        NextQueries(s, i, ch, q);
      case OnCursor(_, _) =>
        CursorOthers(s, i, ch);
        CursorGoesOn(s, i, ch);
        CursorTrees(s, i, ch, t);
        CursorQueries(s, i, ch, q);
    }
  }

  lemma {:induction false} StepTreeFreed(s: State, i: nat, ch: Choice, t: nat)
    requires Inv(s) && i < |s.threads| && Step(s, i, ch).Some? && TreeFreed(s, t)
    ensures TreeFreed(Step(s, i, ch).value, t)
  {
    assert InRange(s, s.threads[i]);
    assert TreeWriterAt(ViewOf(s), t, i) && ViewOf(s).threads[i] == ResOf(s.threads[i]);
    if ClosesNothing(s.threads[i]) {
      CallStays(s, i, ch, t, 0);
      hide Step;
    }
  }

  lemma {:induction false} StepQueryFreed(s: State, i: nat, ch: Choice, q: nat)
    requires Inv(s) && i < |s.threads| && Step(s, i, ch).Some? && QueryFreed(s, q)
    ensures QueryFreed(Step(s, i, ch).value, q)
  {
    assert InRange(s, s.threads[i]);
    var r := Step(s, i, ch).value;
    if q < |s.queries| && s.queries[q].closed && s.queries[q].live {
      var k :| 0 <= k < |s.threads| && ClosesQuery(s.threads[k], q);
      if ClosesNothing(s.threads[i]) {
        CallStays(s, i, ch, 0, q);
        assert ClosesQuery(r.threads[k], q);
      } else {
        assert |r.threads| == |s.threads| && r.threads[k] == if k == i then r.threads[i] else s.threads[k];
        assert r.queries[q].live ==> ClosesQuery(r.threads[k], q);
      }
    } else if ClosesNothing(s.threads[i]) {
      CallStays(s, i, ch, 0, q);
    } else if q < |s.queries| && !s.queries[q].closed {
      assert |r.threads| == |s.threads|;
      assert r.queries[q].closed ==> ClosesQuery(r.threads[i], q);
    }
  }

  /** Whoever holds the mutex of a cursor that is being closed is not the one that closes it,
  unless it has just taken it for that. */
  lemma {:induction false} CloserWaits(s: State, c: nat, i: nat)
    requires Inv(s) && c < |s.cursors| && s.cursors[c].closer.Some? && s.cursors[c].owner == Some(i) && i < |s.threads|
    requires s.threads[i] != OnCursor(CloseUngate, c)
    ensures var k := s.cursors[c].closer.value; k < |s.threads| && ClosesCursor(s.threads[k], c)
  {
    var k, v := s.cursors[c].closer.value, ViewOf(s);
    assert CursorOk(v, c) && CloserAt(v, c, k) && OwnerAt(v, c, k);
    assert v.threads[k] == ResOf(s.threads[k]);
  }

  predicate Starts(pc: Pc, c: nat) { pc.Exec? && pc.c == c && (pc.x.ExecCheck? || pc.x.ExecCall?) }

  /** A call flips no closed flag, and only one that starts an execution makes a handle. */
  ghost predicate CursorStays(s: State, r: State, i: nat, c: nat)
    requires i < |s.threads|
  {
    && |r.cursors| == |s.cursors|
    && (c < |s.cursors| ==>
          && r.cursors[c].closed == s.cursors[c].closed
          && (r.cursors[c].native == s.cursors[c].native || r.cursors[c].native.NoHandle? || Starts(s.threads[i], c)))
  }

  lemma {:induction false} ExecCursors(s: State, i: nat, ch: Choice, c: nat)
    requires WellFormed(s) && i < |s.threads| && s.threads[i].Exec? && Step(s, i, ch).Some?
    ensures CursorStays(s, Step(s, i, ch).value, i, c)
  {
    assert InRange(s, s.threads[i]);
  }

  lemma {:induction false} NextCursors(s: State, i: nat, ch: Choice, c: nat)
    requires WellFormed(s) && i < |s.threads| && s.threads[i].Next? && Step(s, i, ch).Some?
    ensures CursorStays(s, Step(s, i, ch).value, i, c)
  {
    assert InRange(s, s.threads[i]);
  }

  lemma {:induction false} CursorCursors(s: State, i: nat, ch: Choice, c: nat)
    requires WellFormed(s) && i < |s.threads| && s.threads[i].OnCursor? && Step(s, i, ch).Some?
    ensures CursorStays(s, Step(s, i, ch).value, i, c)
  {
    assert InRange(s, s.threads[i]);
  }

  lemma {:induction false} CallCursors(s: State, i: nat, ch: Choice, c: nat)
    requires WellFormed(s) && i < |s.threads| && ClosesNothing(s.threads[i]) && Step(s, i, ch).Some?
    ensures CursorStays(s, Step(s, i, ch).value, i, c)
  {
    match s.threads[i] {
      case Exec(_, _, _, _) => ExecCursors(s, i, ch, c);
      case Next(_, _, _, _, _) => NextCursors(s, i, ch, c);
      case OnCursor(_, _) => CursorCursors(s, i, ch, c);
    }
  }

  /** Who starts an execution on a cursor that is closed meanwhile is not its closer. */
  lemma {:induction false} StartedWhileClosing(s: State, i: nat, c: nat)
    requires Inv(s) && i < |s.threads| && Starts(s.threads[i], c) && c < |s.cursors| && s.cursors[c].closed
    ensures exists k :: 0 <= k < |s.threads| && k != i && ClosesCursor(s.threads[k], c)
  {
    var v := ViewOf(s);
    assert v.threads[i] == ResOf(s.threads[i]);
    assert Sound(v, i) && OwnerAt(v, c, i);
    CloserWaits(s, c, i);
    assert !ClosesCursor(s.threads[i], c);
  }

  /** The closer of a cursor goes on, or has just removed its handle. */
  lemma {:induction false} CloserGoesOn(s: State, i: nat, ch: Choice, c: nat)
    requires WellFormed(s) && i < |s.threads| && Step(s, i, ch).Some? && c < |s.cursors| && ClosesCursor(s.threads[i], c)
    ensures var r := Step(s, i, ch).value;
      |r.threads| == |s.threads| && |r.cursors| == |s.cursors| && (r.cursors[c].native.NoHandle? || ClosesCursor(r.threads[i], c))
  {
  }

  lemma {:induction false} CallCursorFreed(s: State, i: nat, ch: Choice, c: nat)
    requires Inv(s) && i < |s.threads| && ClosesNothing(s.threads[i]) && Step(s, i, ch).Some? && CursorFreed(s, c)
    ensures CursorFreed(Step(s, i, ch).value, c)
  {
    var r := Step(s, i, ch).value;
    CallCursors(s, i, ch, c);
    CallStays(s, i, ch, 0, 0);
    hide Step, Held;
    if c < |s.cursors| && s.cursors[c].closed && !r.cursors[c].native.NoHandle? {
      if Starts(s.threads[i], c) {
        StartedWhileClosing(s, i, c);
        var k :| 0 <= k < |s.threads| && k != i && ClosesCursor(s.threads[k], c);
        assert ClosesCursor(r.threads[k], c);
      } else {
        var k :| 0 <= k < |s.threads| && ClosesCursor(s.threads[k], c);
        if k == i {
          CloserGoesOn(s, i, ch, c);
        }
        assert ClosesCursor(r.threads[k], c);
      }
    }
  }

  lemma {:induction false} StepCursorFreed(s: State, i: nat, ch: Choice, c: nat)
    requires Inv(s) && i < |s.threads| && Step(s, i, ch).Some? && CursorFreed(s, c)
    ensures CursorFreed(Step(s, i, ch).value, c)
  {
    if ClosesNothing(s.threads[i]) {
      CallCursorFreed(s, i, ch, c);
    } else {
      assert InRange(s, s.threads[i]);
      var r := Step(s, i, ch).value;
      assert |r.threads| == |s.threads|;
      if c < |s.cursors| && s.cursors[c].closed && !s.cursors[c].native.NoHandle? {
        var k :| 0 <= k < |s.threads| && ClosesCursor(s.threads[k], c);
        assert ClosesCursor(r.threads[k], c);
      } else if ch == StartClose(c) && s.threads[i].Idle? && c < |s.cursors| {
        assert ClosesCursor(r.threads[i], c);
      }
    }
  }

  lemma {:induction false} RunFreed(s: State, schedule: seq<(nat, Choice)>)
    requires Initial(s)
    ensures Inv(s) && Freed(RunFrom(s, schedule))
    decreases |schedule|
  {
    InitialInv(s);
    if schedule != [] {
      var before, last := schedule[..|schedule| - 1], schedule[|schedule| - 1];
      RunFreed(s, before);
      var r := RunFrom(s, before);
      if last.0 < |r.threads| && Step(r, last.0, last.1).Some? {
        StepFreed(r, last.0, last.1);
      }
    }
  }

  lemma {:induction false} StepFreed(s: State, i: nat, ch: Choice)
    requires Inv(s) && Freed(s) && i < |s.threads| && Step(s, i, ch).Some?
    ensures Freed(Step(s, i, ch).value)
  {
    hide Step, TreeFreed, QueryFreed, CursorFreed, Held;
    var r := Step(s, i, ch).value;
    forall t: nat
      ensures TreeFreed(r, t)
    {
      StepTreeFreed(s, i, ch, t);
    }
    forall q: nat
      ensures QueryFreed(r, q)
    {
      StepQueryFreed(s, i, ch, q);
    }
    forall c: nat
      ensures CursorFreed(r, c)
    {
      StepCursorFreed(s, i, ch, c);
    }
  }

  /** Once every call has returned, exactly the closed trees and queries are freed, and no
  closed cursor has a handle left. */
  lemma {:induction false} ClosedIsFreed(s: State, schedule: seq<(nat, Choice)>)
    requires Initial(s)
    ensures Inv(s)
    ensures var r := RunFrom(s, schedule);
      AllIdle(r) ==>
        && (forall t :: 0 <= t < |r.trees| ==> (r.trees[t].live <==> !r.trees[t].closed))
        && (forall q :: 0 <= q < |r.queries| ==> (r.queries[q].live <==> !r.queries[q].closed))
        && (forall c :: 0 <= c < |r.cursors| && r.cursors[c].closed ==> r.cursors[c].native.NoHandle?)
  {
    RunFreed(s, schedule);
    var r := RunFrom(s, schedule);
    var v := ViewOf(r);
    if AllIdle(r) {
      forall t: nat | t < |r.trees|
        ensures r.trees[t].live <==> !r.trees[t].closed
      {
        assert TreeOk(v, t) && TreeFreed(r, t);
      }
      forall q: nat | q < |r.queries|
        ensures r.queries[q].live <==> !r.queries[q].closed
      {
        assert QueryOk(v, q) && QueryFreed(r, q);
      }
      forall c: nat | c < |r.cursors| && r.cursors[c].closed
        ensures r.cursors[c].native.NoHandle?
      {
        assert CursorFreed(r, c);
      }
    }
  }

  // ---------------------------------------------------------------- and only once

  ghost predicate TreeOnce(s: State, k: nat, t: nat) {
    k < |s.threads| && s.threads[k] == OnTree(TreeDelete, t) ==> t < |s.trees| && s.trees[t].live
  }

  ghost predicate QueryOnce(s: State, k: nat, q: nat) {
    k < |s.threads| && ClosesQuery(s.threads[k], q) ==>
      && q < |s.queries| && s.queries[q].live && s.queries[q].closed
      && forall j :: 0 <= j < |s.threads| && ClosesQuery(s.threads[j], q) ==> j == k
  }

  ghost predicate Once(s: State) {
    (forall k: nat, t: nat :: TreeOnce(s, k, t)) && (forall k: nat, q: nat :: QueryOnce(s, k, q))
  }

  lemma {:induction false} StepTreeOnce(s: State, i: nat, ch: Choice, k: nat, t: nat)
    requires Inv(s) && Once(s) && i < |s.threads| && Step(s, i, ch).Some?
    ensures TreeOnce(Step(s, i, ch).value, k, t)
  {
    assert InRange(s, s.threads[i]) && TreeOnce(s, k, t);
    var v := ViewOf(s);
    if ClosesNothing(s.threads[i]) {
      CallStays(s, i, ch, t, 0);
      hide Step;
    } else {
      assert TreeOk(v, t) && TreeWriterAt(v, t, i) && TreeWriterAt(v, t, k);
      assert v.threads[i] == ResOf(s.threads[i]) && (k < |s.threads| ==> v.threads[k] == ResOf(s.threads[k]));
    }
  }

  lemma {:induction false} OtherQueryOnce(s: State, i: nat, ch: Choice, k: nat, q: nat)
    requires WellFormed(s) && i < |s.threads| && !ClosesNothing(s.threads[i]) && Step(s, i, ch).Some?
    requires QueryOk(ViewOf(s), q) && forall j: nat :: QueryOnce(s, j, q)
    ensures QueryOnce(Step(s, i, ch).value, k, q)
  {
    assert InRange(s, s.threads[i]) && QueryOnce(s, k, q) && QueryOnce(s, i, q);
    var r := Step(s, i, ch).value;
    forall j: nat | j < |r.threads|
      ensures |r.threads| == |s.threads| && (j != i ==> r.threads[j] == s.threads[j]) && QueryOnce(s, j, q)
    {
    }
  }

  lemma {:induction false} StepQueryOnce(s: State, i: nat, ch: Choice, k: nat, q: nat)
    requires Inv(s) && Once(s) && i < |s.threads| && Step(s, i, ch).Some?
    ensures QueryOnce(Step(s, i, ch).value, k, q)
  {
    assert InRange(s, s.threads[i]) && QueryOnce(s, k, q) && QueryOnce(s, i, q);
    if ClosesNothing(s.threads[i]) {
      CallStays(s, i, ch, 0, q);
      hide Step;
    } else {
      assert QueryOk(ViewOf(s), q);
      forall j: nat
        ensures QueryOnce(s, j, q)
      {
      }
      OtherQueryOnce(s, i, ch, k, q);
    }
  }

  lemma {:induction false} RunOnce(s: State, schedule: seq<(nat, Choice)>)
    requires Initial(s)
    ensures Inv(s) && Once(RunFrom(s, schedule))
    decreases |schedule|
  {
    InitialInv(s);
    if schedule != [] {
      var before, last := schedule[..|schedule| - 1], schedule[|schedule| - 1];
      RunOnce(s, before);
      var r := RunFrom(s, before);
      if last.0 < |r.threads| && Step(r, last.0, last.1).Some? {
        StepOnce(r, last.0, last.1);
      }
    }
  }

  lemma {:induction false} StepOnce(s: State, i: nat, ch: Choice)
    requires Inv(s) && Once(s) && i < |s.threads| && Step(s, i, ch).Some?
    ensures Once(Step(s, i, ch).value)
  {
    hide Step, TreeOnce, QueryOnce, Held;
    var r := Step(s, i, ch).value;
    forall k: nat, t: nat
      ensures TreeOnce(r, k, t)
    {
      StepTreeOnce(s, i, ch, k, t);
    }
    forall k: nat, q: nat
      ensures QueryOnce(r, k, q)
    {
      StepQueryOnce(s, i, ch, k, q);
    }
  }

  /** Over every run, whoever is about to free a tree or a query finds it not yet freed. */
  lemma {:induction false} FreedOnce(s: State, schedule: seq<(nat, Choice)>, i: nat)
    requires Initial(s)
    ensures Inv(s)
    ensures var r := RunFrom(s, schedule);
      i < |r.threads| ==>
        && (r.threads[i].OnTree? && r.threads[i].z.TreeDelete? ==> r.threads[i].t < |r.trees| && r.trees[r.threads[i].t].live)
        && (r.threads[i].OnQuery? && r.threads[i].y.QueryDelete? ==> r.threads[i].q < |r.queries| && r.queries[r.threads[i].q].live)
  {
    RunOnce(s, schedule);
    var r := RunFrom(s, schedule);
    if i < |r.threads| && r.threads[i].OnTree? {
      assert TreeOnce(r, i, r.threads[i].t);
    } else if i < |r.threads| && r.threads[i].OnQuery? {
      assert QueryOnce(r, i, r.threads[i].q);
    }
  }
}
