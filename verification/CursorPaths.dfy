/** The pure path cursor: what a cursor position is and what each move means, together
with the arithmetic relating paths to the pre-order indexes a cursor reports. */
module CursorPaths {
  import opened Values
  import opened SyntaxTree

  /** `p` lies in the subtree rooted at `root`. */
  predicate Under(t: Tree, root: Path, p: Path) {
    root <= p && ValidPath(t, root) && ValidPath(At(t, root), p[|root|..])
  }

  lemma {:induction false} UnderIsValid(t: Tree, root: Path, p: Path)
    ensures Under(t, root, p) <==> root <= p && ValidPath(t, p)
    ensures Under(t, root, p) ==> At(t, p) == At(At(t, root), p[|root|..])
  {
    if root <= p {
      assert p == root + p[|root|..];
      if ValidPath(t, p) {
        PathPrefix(t, p, |root|);
        assert p[..|root|] == root;
      }
      if ValidPath(t, root) {
        PathConcat(t, root, p[|root|..]);
      }
    }
  }

  /** Pre-order index of `p` counted from the cursor root, unbounded. */
  function RelIndex(t: Tree, root: Path, p: Path): nat
    requires Under(t, root, p)
  {
    Index(At(t, root), p[|root|..])
  }

  lemma {:induction false} RelIndexOfChild(t: Tree, root: Path, p: Path, i: nat)
    requires Under(t, root, p) && ValidPath(t, p) && i < |At(t, p).kids|
    ensures Under(t, root, p + [i]) && ValidPath(t, p + [i])
    ensures RelIndex(t, root, p + [i]) == RelIndex(t, root, p) + 1 + SumCounts(At(t, p), i)
  {
    UnderIsValid(t, root, p);
    ChildPath(t, p, i);
    UnderIsValid(t, root, p + [i]);
    IndexOfChild(At(t, root), p[|root|..], i);
    assert (p + [i])[|root|..] == p[|root|..] + [i];
  }

  lemma {:induction false} RelIndexOfNextSibling(t: Tree, root: Path, p: Path, i: nat)
    requires Under(t, root, p) && ValidPath(t, p) && i + 1 < |At(t, p).kids|
    ensures Under(t, root, p + [i]) && ValidPath(t, p + [i])
    ensures Under(t, root, p + [i + 1]) && ValidPath(t, p + [i + 1])
    ensures RelIndex(t, root, p + [i + 1]) == RelIndex(t, root, p + [i]) + Count(At(t, p + [i]))
  {
    RelIndexOfChild(t, root, p, i);
    RelIndexOfChild(t, root, p, i + 1);
    ChildPath(t, p, i);
  }

  /** A descendant's index is at least its ancestor's, and inside its ancestor's block. */
  lemma {:induction false} RelIndexInBlock(t: Tree, root: Path, p: Path, q: Path)
    requires Under(t, root, p) && ValidPath(t, p) && p <= q && ValidPath(t, q)
    ensures Under(t, root, q)
    ensures RelIndex(t, root, p) <= RelIndex(t, root, q) < RelIndex(t, root, p) + Count(At(t, p))
  {
    UnderIsValid(t, root, p);
    UnderIsValid(t, root, q);
    UnderIsValid(t, p, q);
    var a, b := p[|root|..], q[|p|..];
    assert q[|root|..] == a + b;
    IndexConcat(At(t, root), a, b);
    IndexBelowCount(At(t, p), b);
  }

  /** The shadow a value-style cursor keeps: proper ancestors from the root down, each
  with its own index, and the index of the current node, all in wire form. */
  ghost predicate Shadow(t: Tree, root: Path, node: Path, stack: seq<Path>, indices: seq<nat>, index: nat) {
    && Under(t, root, node)
    && |stack| == |indices| == |node| - |root|
    && (forall i :: 0 <= i < |stack| ==> ShadowAt(t, root, node, stack, indices, i))
    && index == Sat(RelIndex(t, root, node))
  }

  predicate ShadowAt(t: Tree, root: Path, node: Path, stack: seq<Path>, indices: seq<nat>, i: nat) {
    && |root| + i <= |node| && i < |stack| && i < |indices|
    && stack[i] == node[..|root| + i]
    && Under(t, root, stack[i])
    && indices[i] == Sat(RelIndex(t, root, stack[i]))
  }

  lemma {:induction false} ShadowPush(t: Tree, root: Path, node: Path, stack: seq<Path>, indices: seq<nat>, index: nat, i: nat, childIndex: nat)
    requires Shadow(t, root, node, stack, indices, index)
    requires Under(t, root, node + [i])
    requires childIndex == Sat(RelIndex(t, root, node + [i]))
    ensures Shadow(t, root, node + [i], stack + [node], indices + [index], childIndex)
  {
    var s, child := stack + [node], node + [i];
    forall k | 0 <= k < |s|
      ensures ShadowAt(t, root, child, s, indices + [index], k)
    {
      assert child[..|node|] == node;
      assert k < |stack| ==> ShadowAt(t, root, node, stack, indices, k);
    }
  }

  lemma {:induction false} ShadowPop(t: Tree, root: Path, node: Path, stack: seq<Path>, indices: seq<nat>, index: nat)
    requires Shadow(t, root, node, stack, indices, index) && stack != []
    ensures stack[|stack| - 1] == node[..|node| - 1]
    ensures Shadow(t, root, node[..|node| - 1], stack[..|stack| - 1], indices[..|stack| - 1], indices[|stack| - 1])
  {
    var last := |stack| - 1;
    var up := node[..|node| - 1];
    assert ShadowAt(t, root, node, stack, indices, last);
    forall k | 0 <= k < last
      ensures ShadowAt(t, root, up, stack[..last], indices[..last], k)
    {
      assert ShadowAt(t, root, node, stack, indices, k);
      assert up[..|root| + k] == node[..|root| + k];
    }
  }

  /** Moving to a sibling changes neither the ancestors nor their indexes. */
  lemma {:induction false} ShadowSibling(t: Tree, root: Path, parent: Path, i: nat, j: nat, stack: seq<Path>, indices: seq<nat>, index: nat)
    requires Shadow(t, root, parent + [i], stack, indices, index) && |parent| >= |root|
    requires Under(t, root, parent + [j])
    ensures Shadow(t, root, parent + [j], stack, indices, Sat(RelIndex(t, root, parent + [j])))
  {
    var a, b := parent + [i], parent + [j];
    forall k | 0 <= k < |stack|
      ensures ShadowAt(t, root, b, stack, indices, k)
    {
      assert ShadowAt(t, root, a, stack, indices, k);
      assert a[..|root| + k] == parent[..|root| + k] == b[..|root| + k];
    }
  }

  // ---------------------------------------------------------------- pure moves

  datatype Goal = ByteGoal(offset: nat) | PointGoal(point: Point)

  /** Does a child extend past the goal?  The point form also asks for a non-zero end
  byte: the C helper passes a zero byte goal along with the point. */
  predicate PastGoal(child: Tree, goal: Goal) {
    match goal
    case ByteGoal(offset) => child.endByte > offset
    case PointGoal(point) => child.endByte > 0 && ComparePoint(child.endPoint, point) > 0
  }

  datatype Move =
    | FirstChild
    | LastChild
    | NextSibling
    | PrevSibling
    | Parent

  /** Where a bool-returning move leads, or None when it must report false. */
  function Target(t: Tree, root: Path, node: Path, move: Move): (r: Option<Path>)
    requires Under(t, root, node) && ValidPath(t, node)
    ensures r.Some? ==> Under(t, root, r.value) && ValidPath(t, r.value)
  {
    UnderIsValid(t, root, node);
    var kids := |At(t, node).kids|;
    match move
    case FirstChild =>
      if kids == 0 then None else ChildAt(t, root, node, 0)
    case LastChild =>
      if kids == 0 then None else ChildAt(t, root, node, kids - 1)
    case Parent =>
      if node == root then None else Some(ParentOf(t, root, node))
    case NextSibling =>
      if node == root then None else
      var up := ParentOf(t, root, node);
      var k := node[|node| - 1];
      if k + 1 < |At(t, up).kids| then ChildAt(t, root, up, k + 1) else None
    case PrevSibling =>
      if node == root then None else
      var up := ParentOf(t, root, node);
      var k := node[|node| - 1];
      if k > 0 then ChildAt(t, root, up, k - 1) else None
  }

  function ChildAt(t: Tree, root: Path, node: Path, i: nat): (r: Option<Path>)
    requires Under(t, root, node) && ValidPath(t, node) && i < |At(t, node).kids|
    ensures r == Some(node + [i]) && Under(t, root, node + [i]) && ValidPath(t, node + [i])
  {
    RelIndexOfChild(t, root, node, i);
    Some(node + [i])
  }

  function ParentOf(t: Tree, root: Path, node: Path): (up: Path)
    requires Under(t, root, node) && ValidPath(t, node) && node != root
    ensures node == up + [node[|node| - 1]] && Under(t, root, up) && ValidPath(t, up)
    ensures node[|node| - 1] < |At(t, up).kids|
  {
    var up := node[..|node| - 1];
    assert root <= up;
    PathPrefix(t, node, |node| - 1);
    UnderIsValid(t, root, up);
    assert node == up + [node[|node| - 1]];
    ChildPath(t, up, node[|node| - 1]);
    up
  }

  /** What a move does, by position: down to the first or the last step there is, up by one
  step, or to the step behind or before the last one, and never above or beside the root. */
  predicate Leads(t: Tree, root: Path, from: Path, move: Move, moved: bool, to: Path) {
    var n := |from|;
    && (!moved ==> to == from)
    && match move
       case FirstChild => (moved <==> ValidPath(t, from + [0])) && (moved ==> to == from + [0])
       case LastChild =>
         && (moved <==> ValidPath(t, from + [0]))
         && (moved ==> from < to && |to| == n + 1 && ValidPath(t, to) && !ValidPath(t, from + [to[n] + 1]))
       case Parent => (moved <==> n > |root|) && (moved ==> n > 0 && to == from[..n - 1])
       case NextSibling =>
         && (moved <==> n > |root| && ValidPath(t, from[..n - 1] + [from[n - 1] + 1]))
         && (moved ==> n > 0 && to == from[..n - 1] + [from[n - 1] + 1])
       case PrevSibling =>
         && (moved <==> n > |root| && from[n - 1] > 0)
         && (moved ==> n > 0 && from[n - 1] > 0 && to == from[..n - 1] + [from[n - 1] - 1])
  }

  lemma {:induction false} TargetLeads(t: Tree, root: Path, node: Path, move: Move)
    requires Under(t, root, node) && ValidPath(t, node)
    ensures var r := Target(t, root, node, move);
            Leads(t, root, node, move, r.Some?, if r.Some? then r.value else node)
  {
    ChildPath(t, node, 0);
    ChildPath(t, node, |At(t, node).kids|);
    if node != root {
      ChildPath(t, ParentOf(t, root, node), node[|node| - 1] + 1);
    }
  }

  /** A previous move undoes a next one, a next one a previous one, and a parent move both
  moves down. */
  lemma {:induction false} MovesUndone(t: Tree, root: Path, node: Path, move: Move, to: Path, back: Move)
    requires Under(t, root, node) && ValidPath(t, node)
    requires Target(t, root, node, move) == Some(to)
    requires match move
             case NextSibling => back.PrevSibling?
             case PrevSibling => back.NextSibling?
             case Parent => false
             case _ => back.Parent?
    ensures Under(t, root, to) && ValidPath(t, to) && Target(t, root, to, back) == Some(node)
  {
    hide Target;
    TargetLeads(t, root, node, move);
    TargetLeads(t, root, to, back);
    var n := |node|;
    assert root <= node;
    if back.Parent? {
      assert |to| == n + 1 && to[..n] == node;
    } else {
      var up := node[..n - 1];
      assert to[..n - 1] == up && node == up + [node[n - 1]];
    }
  }

  /** The first child past the goal, or None. */
  ghost predicate IsGoalChild(t: Tree, goal: Goal, r: Option<nat>) {
    match r
    case Some(i) => i < |t.kids| && PastGoal(t.kids[i], goal) && forall k :: 0 <= k < i ==> !PastGoal(t.kids[k], goal)
    case None => forall k :: 0 <= k < |t.kids| ==> !PastGoal(t.kids[k], goal)
  }

  function GoalChild(t: Tree, goal: Goal, from: nat): (r: Option<nat>)
    requires from <= |t.kids|
    requires forall k :: 0 <= k < from ==> !PastGoal(t.kids[k], goal)
    ensures IsGoalChild(t, goal, r)
    decreases |t.kids| - from
  {
    if from == |t.kids| then None
    else if PastGoal(t.kids[from], goal) then Some(from)
    else GoalChild(t, goal, from + 1)
  }

  /** The node a jump to a pre-order index reaches: the root when out of range. */
  function JumpTarget(t: Tree, root: Path, index: nat): (p: Path)
    requires ValidPath(t, root)
    ensures Under(t, root, p) && ValidPath(t, p)
    ensures index < Count(At(t, root)) ==> RelIndex(t, root, p) == index
    ensures index >= Count(At(t, root)) ==> p == root
  {
    var q := if index < Count(At(t, root)) then NthNode(At(t, root), index) else [];
    var p := root + q;
    assert p[|root|..] == q;
    UnderIsValid(t, root, p);
    p
  }
}
