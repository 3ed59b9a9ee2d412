/** Whole runs of a tree cursor: whatever the guest does, a run reports exactly what the
pure path cursor reports. */
module CursorRuns {
  import opened Values
  import opened SyntaxTree
  import opened CursorPaths
  import opened Cursor

  datatype Command = Step(move: Move) | ToGoal(goal: Goal) | Jump(index: nat)

  /** One command with everything the guest will answer while it and the observers run. */
  datatype Scheduled = Scheduled(command: Command, faults: Faults, nodeOk: bool, depthOk: bool, indexOk: bool)

  datatype Report = Report(moved: bool, child: Option<nat>, node: Path, depth: nat, index: nat)

  /** Jump targets are wire-sized. */
  predicate WireSized(s: Scheduled) {
    s.command.Jump? ==> s.command.index <= U32_MAX
  }

  /** The guest answers a goal move with no value or a too wide one. */
  predicate MayLose(s: Scheduled) {
    s.command.ToGoal? && s.faults.nodeOk && (s.faults.reply.NoValues? || s.faults.reply.TooWide?)
  }

  /** What the pure path cursor does with a command. */
  ghost function PureStep(t: Tree, root: Path, node: Path, c: Command): (r: (bool, Option<nat>, Path))
    requires Under(t, root, node) && ValidPath(t, node)
    ensures Under(t, root, r.2) && ValidPath(t, r.2)
  {
    UnderIsValid(t, root, node);
    match c
    case Step(move) =>
      var target := Target(t, root, node, move);
      (target.Some?, None, if target.Some? then target.value else node)
    case ToGoal(goal) =>
      var child := GoalChild(At(t, node), goal, 0);
      if child.Some? then
        RelIndexOfChild(t, root, node, child.value);
        (true, child, node + [child.value])
      else (false, None, node)
    case Jump(index) =>
      (true, None, JumpTarget(t, root, index))
  }

  ghost function ReportOf(t: Tree, root: Path, r: (bool, Option<nat>, Path)): Report
    requires Under(t, root, r.2)
  {
    Report(r.0, r.1, r.2, |r.2| - |root|, Sat(RelIndex(t, root, r.2)))
  }

  ghost function PureRun(t: Tree, root: Path, node: Path, schedule: seq<Scheduled>): seq<Report>
    requires Under(t, root, node) && ValidPath(t, node)
    decreases |schedule|
  {
    if schedule == [] then [] else
    var r := PureStep(t, root, node, schedule[0].command);
    [ReportOf(t, root, r)] + PureRun(t, root, r.2, schedule[1..])
  }

  /** What the cursor does with a command whose goal result is lost: it fails in place. */
  ghost function LossyStep(t: Tree, root: Path, node: Path, c: Command, lost: bool): (r: (bool, Option<nat>, Path))
    requires Under(t, root, node) && ValidPath(t, node)
    ensures Under(t, root, r.2) && ValidPath(t, r.2)
  {
    if lost then (false, None, node) else PureStep(t, root, node, c)
  }

  /** The run in which the marked commands are lost. */
  ghost function LossyRun(t: Tree, root: Path, node: Path, schedule: seq<Scheduled>, lost: seq<bool>): seq<Report>
    requires Under(t, root, node) && ValidPath(t, node) && |lost| == |schedule|
    decreases |schedule|
  {
    if schedule == [] then [] else
    var r := LossyStep(t, root, node, schedule[0].command, lost[0]);
    [ReportOf(t, root, r)] + LossyRun(t, root, r.2, schedule[1..], lost[1..])
  }

  lemma {:induction false} NothingLost(t: Tree, root: Path, node: Path, schedule: seq<Scheduled>, lost: seq<bool>)
    requires Under(t, root, node) && ValidPath(t, node) && |lost| == |schedule|
    requires forall i :: 0 <= i < |lost| ==> !lost[i]
    ensures LossyRun(t, root, node, schedule, lost) == PureRun(t, root, node, schedule)
    decreases |schedule|
  {
    if schedule != [] {
      var r := PureStep(t, root, node, schedule[0].command);
      assert !lost[0] && LossyStep(t, root, node, schedule[0].command, lost[0]) == r;
      NothingLost(t, root, r.2, schedule[1..], lost[1..]);
    }
  }

  /** One command and its observers. */
  method RunOne(c: TreeCursor, s: Scheduled) returns (report: Report, ghost lost: bool)
    requires c.Valid() && !c.closed && WireSized(s)
    modifies c
    ensures c.Valid() && c.SameRoot(old(c.tree), old(c.root), false)
    ensures Under(old(c.tree), old(c.root), old(c.node)) && ValidPath(old(c.tree), old(c.node))
    ensures lost <==> old(c.attached) && MayLose(s)
    ensures c.attached ==> old(c.attached) && !lost
    ensures var r := LossyStep(old(c.tree), old(c.root), old(c.node), s.command, lost);
            c.node == r.2 && report == ReportOf(c.tree, c.root, r)
  {
    lost := s.command.ToGoal? && LosesGoal(c.attached, s.faults);
    var moved, child := Dispatch(c, s);
    var current := c.CurrentNode(s.nodeOk);
    var depth := c.CurrentDepth(s.depthOk);
    var index := c.DescendantIndex(s.indexOk);
    report := Report(moved, child, current.value, depth, index);
  }

  /** A dispatched command does what the pure cursor does, except exactly when a goal
  move that should have found a child meets an empty or too wide result. */
  method Dispatch(c: TreeCursor, s: Scheduled) returns (moved: bool, child: Option<nat>)
    requires c.Valid() && !c.closed
    requires s.command.Jump? ==> s.command.index <= U32_MAX
    modifies c
    ensures c.Valid() && c.SameRoot(old(c.tree), old(c.root), false)
    ensures Under(old(c.tree), old(c.root), old(c.node)) && ValidPath(old(c.tree), old(c.node))
    ensures PureStep(old(c.tree), old(c.root), old(c.node), s.command) == (moved, child, c.node)
       <==> !(s.command.ToGoal? && LosesGoal(old(c.attached), s.faults)
              && GoalChild(At(old(c.tree), old(c.node)), s.command.goal, 0).Some?)
    ensures s.command.ToGoal? && LosesGoal(old(c.attached), s.faults) ==> !moved && child == None && c.node == old(c.node) && !c.attached
    ensures c.attached ==> old(c.attached)
  {
    hide Leads;
    child := None;
    match s.command
    case Step(move) =>
      match move {
        case FirstChild => moved := c.GoToFirstChild(s.faults);
        case LastChild => moved := c.GoToLastChild(s.faults);
        case NextSibling => moved := c.GoToNextSibling(s.faults);
        case PrevSibling => moved := c.GoToPrevSibling(s.faults);
        case Parent => moved := c.GoToParent(s.faults);
      }
    case ToGoal(goal) =>
      child := c.GotoFirstChildFor(goal, s.faults);
      moved := child.Some?;
    case Jump(index) =>
      c.GotoDescendant(index, s.faults);
      moved := true;
  }

  /** Simulation over whole runs, whatever the guest does: the reports are those of the pure
  path cursor in which exactly the goal moves that an attached guest answers with no value or
  a too wide one fail in place.  Such an answer detaches the guest for good, so at most one
  move of a run is lost; when none is, the run is the pure one. */
  method Run(c: TreeCursor, schedule: seq<Scheduled>) returns (reports: seq<Report>, ghost lost: seq<bool>, ghost attached: seq<bool>)
    requires c.Valid() && !c.closed
    requires forall i :: 0 <= i < |schedule| ==> WireSized(schedule[i])
    modifies c
    ensures c.Valid() && !c.closed
    ensures Under(old(c.tree), old(c.root), old(c.node)) && ValidPath(old(c.tree), old(c.node))
    ensures |lost| == |attached| == |schedule|
    ensures reports == LossyRun(old(c.tree), old(c.root), old(c.node), schedule, lost)
    ensures LosesExactly(schedule, old(c.attached), attached, lost)
    ensures forall i, j :: 0 <= i < j < |lost| ==> !(lost[i] && lost[j])
    ensures !old(c.attached) || NeverLoses(schedule) ==>
              reports == PureRun(old(c.tree), old(c.root), old(c.node), schedule)
    decreases |schedule|
  {
    if schedule == [] {
      UnderIsValid(c.tree, c.root, c.node);
      return [], [], [];
    }
    ghost var t, root, node, first := c.tree, c.root, c.node, c.attached;
    var report, later;
    ghost var one, rest, after;
    report, one := RunOne(c, schedule[0]);
    ghost var next := c.attached;
    later, rest, after := Run(c, schedule[1..]);
    reports, lost, attached := [report] + later, [one] + rest, [first] + after;
    LosesMore(schedule, first, one, next, rest, after);
    LosesOnce(schedule, first, attached, lost);
    assert lost[1..] == rest;
    if !first || NeverLoses(schedule) {
      NothingLost(t, root, node, schedule, lost);
    }
  }

  ghost predicate NeverLoses(schedule: seq<Scheduled>) {
    forall i :: 0 <= i < |schedule| ==> !MayLose(schedule[i])
  }

  lemma {:induction false} LosesMore(schedule: seq<Scheduled>, first: bool, one: bool, next: bool, rest: seq<bool>, after: seq<bool>)
    requires schedule != [] && |rest| == |after| == |schedule| - 1
    requires (one <==> first && MayLose(schedule[0])) && (next ==> first && !one)
    requires LosesExactly(schedule[1..], next, after, rest)
    ensures LosesExactly(schedule, first, [first] + after, [one] + rest)
  {
    var attached, lost := [first] + after, [one] + rest;
    forall i, j | 0 <= i < j < |schedule| && attached[j]
      ensures attached[i] && !lost[i]
    {
      assert after[j - 1] ==> after[0] == next;
    }
    forall i | 0 <= i < |schedule|
      ensures lost[i] <==> attached[i] && MayLose(schedule[i])
    {
      assert i > 0 ==> schedule[i] == schedule[1..][i - 1];
    }
  }

  /** At most one command is lost, and none by a guest that is not there or never answers so. */
  lemma {:induction false} LosesOnce(schedule: seq<Scheduled>, first: bool, attached: seq<bool>, lost: seq<bool>)
    requires |attached| == |lost| == |schedule| && LosesExactly(schedule, first, attached, lost)
    ensures forall i, j :: 0 <= i < j < |lost| ==> !(lost[i] && lost[j])
    ensures !first || NeverLoses(schedule) ==> forall i :: 0 <= i < |lost| ==> !lost[i]
  {
    forall i | 0 <= i < |lost|
      ensures attached[i] ==> first
    {
      assert i > 0 && attached[i] ==> attached[0];
    }
  }

  /** A command is lost exactly when the guest is attached then and gives such an answer; a
  guest once detached stays so, and a lost command detaches it. */
  ghost predicate LosesExactly(schedule: seq<Scheduled>, first: bool, attached: seq<bool>, lost: seq<bool>)
    requires |attached| == |lost| == |schedule|
  {
    && (schedule != [] ==> attached[0] == first)
    && (forall i :: 0 <= i < |schedule| ==> (lost[i] <==> attached[i] && MayLose(schedule[i])))
    && (forall i, j :: 0 <= i < j < |schedule| && attached[j] ==> attached[i] && !lost[i])
  }
}
