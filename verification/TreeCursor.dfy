/** The mutable tree cursor: a guest cursor that may trap or answer with malformed values
after it has already moved, and the Go-side shadow that takes over when it does.

Every foreign call is answered by a `Reply` the caller of the method chooses, so a
statement about a method holds for every schedule of failures. */
module Cursor {
  import opened Values
  import opened SyntaxTree
  import opened CursorPaths

  // ---------------------------------------------------------------- index arithmetic

  method FallbackVisibleSubtreeCount(n: Tree) returns (total: nat)
    ensures total == Sat(Count(n))
    decreases n
  {
    var count := 1;
    for i := 0 to |n.kids|
      invariant count == 1 + SumCounts(n, i) <= U32_MAX
    {
      SumCountsMono(n, i + 1, |n.kids|);
      var kid := FallbackVisibleSubtreeCount(n.kids[i]);
      count := count + kid;
      if count > U32_MAX {
        return U32_MAX;
      }
    }
    return count;
  }

  method FallbackChildDescendantIndex(parent: Tree, parentIndex: nat, childIndex: int) returns (index: nat)
    requires parentIndex <= U32_MAX
    ensures childIndex < 0 ==> index == parentIndex
    ensures 0 <= childIndex <= |parent.kids| ==> index == Sat(parentIndex + 1 + SumCounts(parent, childIndex))
    ensures childIndex > |parent.kids| ==> index == Sat(parentIndex + Count(parent))
  {
    if childIndex < 0 {
      return parentIndex;
    }
    var value := parentIndex + 1;
    if value > U32_MAX {
      return U32_MAX;
    }
    var i := 0;
    while i < childIndex && i < |parent.kids|
      invariant 0 <= i <= |parent.kids| && i <= childIndex
      invariant value == parentIndex + 1 + SumCounts(parent, i) <= U32_MAX
    {
      SumCountsMono(parent, i + 1, |parent.kids|);
      if childIndex <= |parent.kids| {
        SumCountsMono(parent, i + 1, childIndex);
      }
      var kid := FallbackVisibleSubtreeCount(parent.kids[i]);
      value := value + kid;
      if value > U32_MAX {
        return U32_MAX;
      }
      i := i + 1;
    }
    return value;
  }

  method SaturatingU32Add(a: nat, b: nat) returns (r: nat)
    requires a <= U32_MAX && b <= U32_MAX
    ensures r == Sat(a + b)
  {
    if a + b > U32_MAX {
      return U32_MAX;
    }
    return a + b;
  }

  // ---------------------------------------------------------------- node to path

  /** Walks pre-order from `root` for `target`.  It succeeds exactly when the target is
  in the subtree and its true index fits the wire, and then returns its exact shadow. */
  method FallbackPathToNode(t: Tree, root: Path, target: Path)
    returns (ancestors: seq<Path>, indices: seq<nat>, index: nat, ok: bool)
    requires ValidPath(t, root)
    ensures ok <==> Under(t, root, target) && RelIndex(t, root, target) <= U32_MAX
    ensures ok ==> Shadow(t, root, target, ancestors, indices, index)
  {
    UnderIsValid(t, root, root);
    UnderIsValid(t, root, target);
    ancestors, indices, index, ok := WalkToNode(t, root, root, At(t, root), 0, [], [], target);
  }

  method WalkToNode(t: Tree, root: Path, node: Path, sub: Tree, index: nat, ancestors: seq<Path>, indices: seq<nat>, target: Path)
    returns (resultPath: seq<Path>, resultIndices: seq<nat>, resultIndex: nat, ok: bool)
    requires ValidPath(t, node) && sub == At(t, node)
    requires Shadow(t, root, node, ancestors, indices, index) && RelIndex(t, root, node) == index <= U32_MAX
    ensures ok <==> node <= target && ValidPath(t, target) && Under(t, root, target) && RelIndex(t, root, target) <= U32_MAX
    ensures ok ==> Shadow(t, root, target, resultPath, resultIndices, resultIndex)
    decreases sub
  {
    if node == target {
      return ancestors, indices, index, true;
    }
    var next := index + 1;
    if next > U32_MAX {
      next := U32_MAX + 1;
    }
    var i := 0;
    while i < |sub.kids|
      invariant i <= |sub.kids|
      invariant next == WireNext(index + 1 + SumCounts(sub, i))
      invariant forall k :: 0 <= k < i ==> !Reachable(t, root, node + [k], target)
    {
      RelIndexOfChild(t, root, node, i);
      ChildPath(t, node, i);
      if next > U32_MAX {
        break;
      }
      var childIndex := next;
      ShadowPush(t, root, node, ancestors, indices, index, i, childIndex);
      resultPath, resultIndices, resultIndex, ok :=
        WalkToNode(t, root, node + [i], sub.kids[i], childIndex, ancestors + [node], indices + [index], target);
      if ok {
        assert node <= node + [i] <= target;
        return;
      }
      var childCount := FallbackVisibleSubtreeCount(sub.kids[i]);
      next := next + childCount;
      if next > U32_MAX + 1 {
        next := U32_MAX + 1;
      }
      i := i + 1;
    }
    NotBelow(t, root, node, i, target);
    return [], [], 0, false;
  }

  function WireNext(n: nat): nat {
    if n > U32_MAX then U32_MAX + 1 else n
  }

  ghost predicate Reachable(t: Tree, root: Path, from: Path, target: Path) {
    from <= target && ValidPath(t, target) && Under(t, root, target) && RelIndex(t, root, target) <= U32_MAX
  }

  /** If no child before `i` leads to the target and the children from `i` on lie past
  the wire, then nothing below `node` is the target. */
  lemma {:induction false} NotBelow(t: Tree, root: Path, node: Path, i: nat, target: Path)
    requires Under(t, root, node) && ValidPath(t, node) && node != target && i <= |At(t, node).kids|
    requires forall k :: 0 <= k < i ==> !Reachable(t, root, node + [k], target)
    requires i < |At(t, node).kids| ==> RelIndex(t, root, node) + 1 + SumCounts(At(t, node), i) > U32_MAX
    ensures !Reachable(t, root, node, target)
  {
    if node <= target && ValidPath(t, target) && Under(t, root, target) {
      var k := target[|node|];
      assert node + [k] == target[..|node| + 1];
      PathPrefix(t, target, |node| + 1);
      ChildPath(t, node, k);
      if i <= k {
        RelIndexOfChild(t, root, node, k);
        SumCountsMono(At(t, node), i, k);
        RelIndexInBlock(t, root, node + [k], target);
      }
    }
  }

  // ---------------------------------------------------------------- the cursor

  /** What a foreign movement call did.  `at` is where the guest ended up when the call
  did not simply perform the move; it is unconstrained. */
  datatype Reply =
    | Answer
    | Trap(at: Path)
    | NoValues(at: Path)
    | TooWide(at: Path)

  /** One movement call and the two accessor calls that follow it. */
  datatype Faults = Faults(reply: Reply, nodeOk: bool, indexOk: bool)

  /** A foreign child-index result: an i64, absent when the result vector was empty. */
  datatype GoalResult = Missing | Found(index: nat) | NoChild | Wide

  datatype CursorShadow = CursorShadow(
    node: Path,
    stack: seq<Path>,
    stackIndices: seq<nat>,
    descendantIndex: nat,
    descendantIndexKnown: bool)

  /** A byte or point move whose guest answered with no value, or with a value wider
  than a child index, while still naming a current node: the call is reported as failed. */
  predicate LosesGoal(attached: bool, f: Faults) {
    attached && f.nodeOk && (f.reply.NoValues? || f.reply.TooWide?)
  }

  class TreeCursor {
    var tree: Tree
    var node: Path
    var root: Path
    var stack: seq<Path>
    var stackIndices: seq<nat>
    var descendantIndex: nat
    var descendantIndexKnown: bool
    /** The guest handle is live. */
    var attached: bool
    /** The guest cursor's own position. */
    var guest: Path
    var closed: bool

    /** The shadow is the exact visible path, saturated to the wire. */
    ghost predicate ShadowOk()
      reads this
    {
      ValidPath(tree, node) && Shadow(tree, root, node, stack, stackIndices, descendantIndex)
    }

    ghost predicate SameShadow(s: seq<Path>, i: seq<nat>, d: nat)
      reads this
    {
      stack == s && stackIndices == i && descendantIndex == d
    }

    /** An attached guest stands on the same node, in a tree it can number. */
    ghost predicate Coherent()
      reads this
    {
      ShadowOk() && (attached ==> guest == node && Count(At(tree, root)) <= U32_MAX + 1)
    }

    ghost predicate Valid()
      reads this
    {
      !closed ==> Coherent()
    }

    /** A cursor on `path` of `t`; `created` says whether the guest gave out a cursor. */
    constructor (t: Tree, path: Path, created: bool)
      requires ValidPath(t, path)
      requires created ==> Count(At(t, path)) <= U32_MAX + 1
      ensures Valid() && !closed && tree == t && root == node == path && attached == created
    {
      tree, node, root := t, path, path;
      stack, stackIndices := [], [];
      descendantIndex, descendantIndexKnown := 0, false;
      attached, guest, closed := created, path, false;
      new;
      UnderIsValid(t, path, path);
    }

    method SnapshotShadow() returns (s: CursorShadow)
      ensures s == CursorShadow(node, stack, stackIndices, descendantIndex, descendantIndexKnown)
    {
      s := CursorShadow(node, stack, stackIndices, descendantIndex, descendantIndexKnown);
    }

    method RestoreShadow(s: CursorShadow)
      modifies `node, `stack, `stackIndices, `descendantIndex, `descendantIndexKnown
      ensures s == CursorShadow(node, stack, stackIndices, descendantIndex, descendantIndexKnown)
    {
      node, stack, stackIndices := s.node, s.stack, s.stackIndices;
      descendantIndex, descendantIndexKnown := s.descendantIndex, s.descendantIndexKnown;
    }

    /** Detaches the guest, rebuilding the visible path first. */
    method InvalidateNative()
      requires Under(tree, root, node) && ValidPath(tree, node)
      modifies `stack, `stackIndices, `descendantIndex, `descendantIndexKnown, `attached
      ensures !attached && (old(ShadowOk()) ==> ShadowOk())
      ensures old(attached) && RelIndex(tree, root, node) <= U32_MAX ==> ShadowOk() && descendantIndexKnown
      ensures !old(attached) || RelIndex(tree, root, node) > U32_MAX ==> SameShadow(old(stack), old(stackIndices), old(descendantIndex))
    {
      if !attached {
        return;
      }
      UnderIsValid(tree, root, node);
      var ancestors, indices, index, ok := FallbackPathToNode(tree, root, node);
      if ok {
        stack, stackIndices := ancestors, indices;
        descendantIndex, descendantIndexKnown := index, true;
      }
      attached := false;
    }

    /** Rebuilds a shadow whose index is unknown; a known one is taken at its word. */
    method NormalizeFallbackShadow()
      requires Under(tree, root, node) && ValidPath(tree, node)
      modifies `stack, `stackIndices, `descendantIndex, `descendantIndexKnown
      ensures old(ShadowOk()) ==> ShadowOk()
      ensures !old(descendantIndexKnown) && RelIndex(tree, root, node) <= U32_MAX ==> ShadowOk() && descendantIndexKnown
      ensures old(descendantIndexKnown) || RelIndex(tree, root, node) > U32_MAX ==> SameShadow(old(stack), old(stackIndices), old(descendantIndex))
    {
      if descendantIndexKnown {
        return;
      }
      UnderIsValid(tree, root, node);
      var ancestors, indices, index, ok := FallbackPathToNode(tree, root, node);
      if !ok {
        return;
      }
      stack, stackIndices := ancestors, indices;
      descendantIndex, descendantIndexKnown := index, true;
    }

    method PushFallbackAncestor()
      modifies `stack, `stackIndices
      ensures stack == old(stack) + [node] && stackIndices == old(stackIndices) + [descendantIndex]
    {
      stack := stack + [node];
      stackIndices := stackIndices + [descendantIndex];
    }

    method PopFallbackAncestor() returns (popped: bool)
      requires ShadowOk()
      modifies `node, `stack, `stackIndices, `descendantIndex
      ensures ShadowOk()
      ensures popped <==> old(node) != root
      ensures node == if popped then old(node)[..|old(node)| - 1] else old(node)
    {
      if |stack| == 0 {
        return false;
      }
      ParentStep(tree, root, node);
      ShadowPop(tree, root, node, stack, stackIndices, descendantIndex);
      var last := |stack| - 1;
      node := stack[last];
      if last < |stackIndices| {
        descendantIndex := stackIndices[last];
      }
      stack := stack[..last];
      if |stackIndices| > last {
        stackIndices := stackIndices[..last];
      }
      return true;
    }

    // -------------------------------------------------------------- guest calls

    /** Reads the guest's current node and index after it performed a call, and keeps the
    shadow in step.  `seen` is false when the current node could not be read. */
    method RefreshFromGuest(f: Faults) returns (seen: bool, shadowRebuilt: bool)
      requires ValidPath(tree, root)
      requires Under(tree, root, guest) && ValidPath(tree, guest) && Count(At(tree, root)) <= U32_MAX + 1
      modifies `node, `stack, `stackIndices, `descendantIndex, `descendantIndexKnown
      ensures seen == f.nodeOk
      ensures seen ==> node == guest
      ensures seen && shadowRebuilt ==> ShadowOk()
      ensures seen && !shadowRebuilt ==>
                stack == old(stack) && stackIndices == old(stackIndices) &&
                descendantIndexKnown && descendantIndex == RelIndex(tree, root, guest)
    {
      shadowRebuilt := false;
      UnderIsValid(tree, root, guest);
      UnderIsValid(tree, root, root);
      RelIndexInBlock(tree, root, root, guest);
      var indexKnown := false;
      if f.indexOk {
        descendantIndex := RelIndex(tree, root, guest);
        descendantIndexKnown := true;
        indexKnown := true;
      }
      if !indexKnown {
        descendantIndexKnown := false;
      }
      if !f.nodeOk {
        return false, false;
      }
      node := guest;
      if !indexKnown {
        var ancestors, indices, index, ok := FallbackPathToNode(tree, root, node);
        if ok {
          stack, stackIndices := ancestors, indices;
          descendantIndex, descendantIndexKnown := index, true;
          shadowRebuilt := true;
        }
      }
      return true, shadowRebuilt;
    }

    /** A bool-returning guest movement. */
    method NativeMove(move: Move, f: Faults) returns (used: bool, moved: bool, shadowRebuilt: bool)
      requires Coherent()
      modifies `node, `stack, `stackIndices, `descendantIndex, `descendantIndexKnown, `attached, `guest
      ensures !used ==> Coherent() && !attached && node == old(node)
      ensures used ==> old(attached) && attached && guest == node
      ensures used ==> moved == Target(tree, root, old(node), move).Some?
      ensures used ==> node == if moved then Target(tree, root, old(node), move).value else old(node)
      ensures used && shadowRebuilt ==> ShadowOk()
      ensures used && !shadowRebuilt ==>
                stack == old(stack) && stackIndices == old(stackIndices) &&
                descendantIndexKnown && descendantIndex == Sat(RelIndex(tree, root, node))
    {
      if !attached {
        return false, false, false;
      }
      var before := SnapshotShadow();
      UnderIsValid(tree, root, node);
      if f.reply.Trap? || f.reply.NoValues? {
        guest := f.reply.at;
        RestoreShadow(before);
        InvalidateNative();
        return false, false, false;
      }
      used, moved, shadowRebuilt := AnsweredMove(move, f, before);
    }

    /** The guest performed the move; its node is read back, or the move is undone. */
    method AnsweredMove(move: Move, f: Faults, before: CursorShadow) returns (used: bool, moved: bool, shadowRebuilt: bool)
      requires Coherent() && attached && before == CursorShadow(node, stack, stackIndices, descendantIndex, descendantIndexKnown)
      modifies `node, `stack, `stackIndices, `descendantIndex, `descendantIndexKnown, `attached, `guest
      ensures Under(tree, root, old(node)) && ValidPath(tree, old(node))
      ensures !used ==> Coherent() && !attached && node == old(node)
      ensures used ==> attached && guest == node
      ensures used ==> moved == Target(tree, root, old(node), move).Some?
      ensures used ==> node == if moved then Target(tree, root, old(node), move).value else old(node)
      ensures used && shadowRebuilt ==> ShadowOk()
      ensures used && !shadowRebuilt ==>
                stack == old(stack) && stackIndices == old(stackIndices) &&
                descendantIndexKnown && descendantIndex == Sat(RelIndex(tree, root, node))
    {
      var target := Target(tree, root, guest, move);
      moved := target.Some?;
      if moved {
        guest := target.value;
      }
      UnderIsValid(tree, root, root);
      RelIndexInBlock(tree, root, root, guest);
      used, shadowRebuilt := RefreshFromGuest(f);
      if !used {
        RestoreShadow(before);
        InvalidateNative();
        return false, false, false;
      }
    }

    /** A guest movement to the first child past a goal.  An empty or too wide result is
    not noticed here: the guest stands wherever it stopped and the caller decides. */
    method NativeGoalMove(goal: Goal, f: Faults) returns (used: bool, result: GoalResult, shadowRebuilt: bool)
      requires Coherent()
      modifies `node, `stack, `stackIndices, `descendantIndex, `descendantIndexKnown, `attached, `guest
      ensures Under(tree, root, old(node)) && ValidPath(tree, old(node))
      ensures !used ==> Coherent() && !attached && node == old(node)
      ensures !used <==> !old(attached) || f.reply.Trap? || !f.nodeOk
      ensures used ==> (f.reply.Answer? <==> result.Found? || result.NoChild?) && (f.reply.NoValues? <==> result.Missing?)
      ensures used ==> AtGoal(CursorShadow(old(node), old(stack), old(stackIndices), old(descendantIndex), old(descendantIndexKnown)), result, shadowRebuilt)
      ensures used && f.reply.Answer? ==> IsGoalChild(At(tree, old(node)), goal, if result.Found? then Some(result.index) else None)
    {
      if !attached {
        return false, Missing, false;
      }
      var before := SnapshotShadow();
      UnderIsValid(tree, root, node);
      if f.reply.Trap? {
        guest := f.reply.at;
        RestoreShadow(before);
        InvalidateNative();
        return false, Missing, false;
      }
      if !f.reply.Answer? {
        guest := f.reply.at;
        if !f.nodeOk {
          RestoreShadow(before);
          InvalidateNative();
          return false, Missing, false;
        }
        node := guest;
        return true, (if f.reply.NoValues? then Missing else Wide), false;
      }
      used, result, shadowRebuilt := AnsweredGoal(goal, f, before);
    }

    /** The guest performed the goal move; its node is read back, or the move is undone. */
    method AnsweredGoal(goal: Goal, f: Faults, before: CursorShadow) returns (used: bool, result: GoalResult, shadowRebuilt: bool)
      requires Coherent() && attached && before == CursorShadow(node, stack, stackIndices, descendantIndex, descendantIndexKnown)
      modifies `node, `stack, `stackIndices, `descendantIndex, `descendantIndexKnown, `attached, `guest
      ensures used <==> f.nodeOk
      ensures !used ==> Coherent() && !attached && node == old(node)
      ensures used ==>
                && attached && guest == node && (result.Found? || result.NoChild?)
                && IsGoalChild(At(tree, old(node)), goal, if result.Found? then Some(result.index) else None)
                && node == (if result.Found? then old(node) + [result.index] else old(node))
                && ValidPath(tree, node) && Under(tree, root, node)
      ensures used && shadowRebuilt ==> ShadowOk()
      ensures used && !shadowRebuilt ==>
                stack == old(stack) && stackIndices == old(stackIndices) &&
                descendantIndexKnown && descendantIndex == Sat(RelIndex(tree, root, node))
    {
      var child := GoalChild(At(tree, guest), goal, 0);
      if child.Some? {
        RelIndexOfChild(tree, root, guest, child.value);
        guest := guest + [child.value];
        result := Found(child.value);
      } else {
        result := NoChild;
      }
      UnderIsValid(tree, root, root);
      RelIndexInBlock(tree, root, root, guest);
      used, shadowRebuilt := RefreshFromGuest(f);
      if !used {
        RestoreShadow(before);
        InvalidateNative();
        return false, Missing, false;
      }
    }

    // -------------------------------------------------------------- bool moves

    /** Moves to the first child. */
    method GoToFirstChild(f: Faults) returns (moved: bool)
      requires Valid()
      modifies this
      ensures Valid() && SameRoot(old(tree), old(root), old(closed))
      ensures attached ==> old(attached)
      ensures !closed ==> FollowsMove(old(node), FirstChild, moved)
      ensures !closed ==> Leads(tree, root, old(node), FirstChild, moved, node)
      ensures closed ==> !moved
    {
      if closed {
        return false;
      }
      ghost var from := node;
      moved := MoveFirstChild(f);
      TargetLeads(tree, root, from, FirstChild);
    }

    /** The guest's move, or the fallback. */
    method MoveFirstChild(f: Faults) returns (moved: bool)
      requires Valid() && !closed
      modifies `node, `stack, `stackIndices, `descendantIndex, `descendantIndexKnown, `attached, `guest
      ensures Coherent() && (attached ==> old(attached)) && FollowsMove(old(node), FirstChild, moved)
    {
      if !attached {
        NormalizeFallbackShadow();
      }
      UnderIsValid(tree, root, node);
      var used;
      used, moved := NativeDescent(FirstChild, f);
      if !used {
        moved := FirstChildFallback();
      }
    }

    method FirstChildFallback() returns (moved: bool)
      requires Coherent() && !attached
      modifies `node, `stack, `stackIndices, `descendantIndex
      ensures Coherent() && FollowsMove(old(node), FirstChild, moved)
    {
      UnderIsValid(tree, root, node);
      if |At(tree, node).kids| == 0 {
        return false;
      }
      DescendFallback(0);
      return true;
    }

    /** Moves to the last child. */
    method GoToLastChild(f: Faults) returns (moved: bool)
      requires Valid()
      modifies this
      ensures Valid() && SameRoot(old(tree), old(root), old(closed))
      ensures attached ==> old(attached)
      ensures !closed ==> FollowsMove(old(node), LastChild, moved)
      ensures !closed ==> Leads(tree, root, old(node), LastChild, moved, node)
      ensures closed ==> !moved
    {
      if closed {
        return false;
      }
      ghost var from := node;
      moved := MoveLastChild(f);
      TargetLeads(tree, root, from, LastChild);
    }

    /** The guest's move, or the fallback. */
    method MoveLastChild(f: Faults) returns (moved: bool)
      requires Valid() && !closed
      modifies `node, `stack, `stackIndices, `descendantIndex, `descendantIndexKnown, `attached, `guest
      ensures Coherent() && (attached ==> old(attached)) && FollowsMove(old(node), LastChild, moved)
    {
      if !attached {
        NormalizeFallbackShadow();
      }
      UnderIsValid(tree, root, node);
      var used;
      used, moved := NativeDescent(LastChild, f);
      if !used {
        moved := LastChildFallback();
      }
    }

    method LastChildFallback() returns (moved: bool)
      requires Coherent() && !attached
      modifies `node, `stack, `stackIndices, `descendantIndex
      ensures Coherent() && FollowsMove(old(node), LastChild, moved)
    {
      UnderIsValid(tree, root, node);
      var count := |At(tree, node).kids|;
      if count == 0 {
        return false;
      }
      DescendFallback(count - 1);
      return true;
    }

    /** The guest's move to the first or last child, with the shadow brought along. */
    method NativeDescent(move: Move, f: Faults) returns (used: bool, moved: bool)
      requires Coherent() && (move.FirstChild? || move.LastChild?)
      modifies `node, `stack, `stackIndices, `descendantIndex, `descendantIndexKnown, `attached, `guest
      ensures Coherent()
      ensures used ==> old(attached) && FollowsMove(old(node), move, moved)
      ensures !used ==> !attached && node == old(node)
    {
      var oldNode, oldIndex := node, descendantIndex;
      UnderIsValid(tree, root, node);
      var shadowRebuilt;
      used, moved, shadowRebuilt := NativeMove(move, f);
      if used && moved && !shadowRebuilt {
        RecordAncestor(oldNode, oldIndex, if move.FirstChild? then 0 else |At(tree, oldNode).kids| - 1);
      }
    }

    /** The fallback descent: push the ancestor, then number the child. */
    method DescendFallback(i: nat)
      requires Coherent() && !attached && i < |At(tree, node).kids|
      modifies `node, `stack, `stackIndices, `descendantIndex
      ensures Coherent() && node == old(node) + [i]
    {
      var parent, parentIndex := node, descendantIndex;
      RelIndexOfChild(tree, root, parent, i);
      PushFallbackAncestor();
      node := parent + [i];
      descendantIndex := FallbackChildDescendantIndex(At(tree, parent), parentIndex, i);
      ShadowPush(tree, root, parent, old(stack), old(stackIndices), parentIndex, i, descendantIndex);
    }

    /** Moves to the next sibling, never leaving the cursor root. */
    method GoToNextSibling(f: Faults) returns (moved: bool)
      requires Valid()
      modifies this
      ensures Valid() && SameRoot(old(tree), old(root), old(closed))
      ensures attached ==> old(attached)
      ensures !closed ==> FollowsMove(old(node), NextSibling, moved)
      ensures !closed ==> Leads(tree, root, old(node), NextSibling, moved, node)
      ensures closed ==> !moved
    {
      if closed {
        return false;
      }
      ghost var from := node;
      moved := MoveNextSibling(f);
      TargetLeads(tree, root, from, NextSibling);
    }

    /** The guest's move, or the fallback. */
    method MoveNextSibling(f: Faults) returns (moved: bool)
      requires Valid() && !closed
      modifies `node, `stack, `stackIndices, `descendantIndex, `descendantIndexKnown, `attached, `guest
      ensures Coherent() && (attached ==> old(attached)) && FollowsMove(old(node), NextSibling, moved)
    {
      if !attached {
        NormalizeFallbackShadow();
      }
      var oldIndex := descendantIndex;
      var used;
      used, moved := NativeSibling(NextSibling, f);
      if !used {
        moved := NextSiblingFallback(oldIndex);
      }
    }

    /** The guest's move to a sibling, with the shadow brought along. */
    method NativeSibling(move: Move, f: Faults) returns (used: bool, moved: bool)
      requires Coherent() && (move.NextSibling? || move.PrevSibling?)
      modifies `node, `stack, `stackIndices, `descendantIndex, `descendantIndexKnown, `attached, `guest
      ensures Coherent()
      ensures used ==> old(attached) && FollowsMove(old(node), move, moved)
      ensures !used ==> !attached && node == old(node)
    {
      var oldNode, oldIndex := node, descendantIndex;
      UnderIsValid(tree, root, node);
      var shadowRebuilt;
      used, moved, shadowRebuilt := NativeMove(move, f);
      if used && moved && !shadowRebuilt {
        // No index is synthesised here: an attached guest numbers its whole tree, so one is
        // known whenever the path was not rebuilt.
        assert descendantIndexKnown;
        SiblingShadow(tree, root, oldNode, node, stack, stackIndices, oldIndex);
      }
    }

    method NextSiblingFallback(oldIndex: nat) returns (moved: bool)
      requires Coherent() && !attached && oldIndex == descendantIndex
      modifies `node, `descendantIndex
      ensures Coherent() && FollowsMove(old(node), NextSibling, moved)
    {
      if |stack| == 0 || node == root {
        return false;
      }
      var oldNode := node;
      var next := Target(tree, root, node, NextSibling);
      if next.None? {
        return false;
      }
      var up := ParentOf(tree, root, oldNode);
      RelIndexOfNextSibling(tree, root, up, oldNode[|oldNode| - 1]);
      SiblingShadow(tree, root, oldNode, next.value, stack, stackIndices, oldIndex);
      node := next.value;
      var count := FallbackVisibleSubtreeCount(At(tree, oldNode));
      descendantIndex := SaturatingU32Add(oldIndex, count);
      return true;
    }

    /** Moves to the previous sibling, never leaving the cursor root. */
    method GoToPrevSibling(f: Faults) returns (moved: bool)
      requires Valid()
      modifies this
      ensures Valid() && SameRoot(old(tree), old(root), old(closed))
      ensures attached ==> old(attached)
      ensures !closed ==> FollowsMove(old(node), PrevSibling, moved)
      ensures !closed ==> Leads(tree, root, old(node), PrevSibling, moved, node)
      ensures closed ==> !moved
    {
      if closed {
        return false;
      }
      ghost var from := node;
      moved := MovePrevSibling(f);
      TargetLeads(tree, root, from, PrevSibling);
    }

    /** The guest's move, or the fallback. */
    method MovePrevSibling(f: Faults) returns (moved: bool)
      requires Valid() && !closed
      modifies `node, `stack, `stackIndices, `descendantIndex, `descendantIndexKnown, `attached, `guest
      ensures Coherent() && (attached ==> old(attached)) && FollowsMove(old(node), PrevSibling, moved)
    {
      if !attached {
        NormalizeFallbackShadow();
      }
      var used;
      used, moved := NativeSibling(PrevSibling, f);
      if !used {
        moved := PrevSiblingFallback();
      }
    }

    method PrevSiblingFallback() returns (moved: bool)
      requires Coherent() && !attached
      modifies `node, `stack, `stackIndices, `descendantIndex, `descendantIndexKnown
      ensures Coherent() && FollowsMove(old(node), PrevSibling, moved)
    {
      if |stack| == 0 || node == root {
        return false;
      }
      ghost var oldNode := node;
      var prev := Target(tree, root, node, PrevSibling);
      if prev.None? {
        return false;
      }
      var ancestors, indices, index, ok := FallbackPathToNode(tree, root, prev.value);
      if ok {
        node := prev.value;
        stack, stackIndices := ancestors, indices;
        descendantIndex, descendantIndexKnown := index, true;
      } else {
        // The previous sibling is past the wire, so this node was as well and the index
        // kept from it is already the saturated one.
        var up := ParentOf(tree, root, oldNode);
        RelIndexOfNextSibling(tree, root, up, oldNode[|oldNode| - 1] - 1);
        SiblingShadow(tree, root, oldNode, prev.value, stack, stackIndices, descendantIndex);
        node := prev.value;
        descendantIndexKnown := false;
      }
      return true;
    }

    /** Moves to the parent, stopping at the cursor root. */
    method GoToParent(f: Faults) returns (moved: bool)
      requires Valid()
      modifies this
      ensures Valid() && SameRoot(old(tree), old(root), old(closed))
      ensures attached ==> old(attached)
      ensures !closed ==> FollowsMove(old(node), Parent, moved)
      ensures !closed ==> Leads(tree, root, old(node), Parent, moved, node)
      ensures closed ==> !moved
    {
      if closed {
        return false;
      }
      ghost var from := node;
      moved := MoveParent(f);
      TargetLeads(tree, root, from, Parent);
    }

    /** The guest's move, or the fallback. */
    method MoveParent(f: Faults) returns (moved: bool)
      requires Valid() && !closed
      modifies `node, `stack, `stackIndices, `descendantIndex, `descendantIndexKnown, `attached, `guest
      ensures Coherent() && (attached ==> old(attached)) && FollowsMove(old(node), Parent, moved)
    {
      if !attached {
        NormalizeFallbackShadow();
      }
      var used;
      used, moved := NativeParent(f);
      if !used {
        moved := ParentFallback();
      }
    }

    /** The guest's move to the parent, with the shadow brought along. */
    method NativeParent(f: Faults) returns (used: bool, moved: bool)
      requires Coherent()
      modifies `node, `stack, `stackIndices, `descendantIndex, `descendantIndexKnown, `attached, `guest
      ensures Coherent()
      ensures used ==> old(attached) && FollowsMove(old(node), Parent, moved)
      ensures !used ==> !attached && node == old(node)
    {
      ghost var oldNode, oldIndex := node, descendantIndex;
      UnderIsValid(tree, root, node);
      var shadowRebuilt;
      used, moved, shadowRebuilt := NativeMove(Parent, f);
      if used && moved && !shadowRebuilt && |stack| > 0 {
        ParentStep(tree, root, oldNode);
        DropAncestor(oldNode, oldIndex);
      }
    }

    method DropAncestor(ghost oldNode: Path, ghost oldIndex: nat)
      requires Shadow(tree, root, oldNode, stack, stackIndices, oldIndex) && |stack| > 0
      requires ValidPath(tree, node) && node == oldNode[..|oldNode| - 1]
      modifies `stack, `stackIndices, `descendantIndex
      ensures ShadowOk()
    {
      ShadowPop(tree, root, oldNode, stack, stackIndices, oldIndex);
      var last := |stack| - 1;
      stack := stack[..last];
      if |stackIndices| > last {
        descendantIndex := stackIndices[last];
        stackIndices := stackIndices[..last];
      }
    }

    /** Records the ancestor a successful guest descent left behind. */
    method RecordAncestor(oldNode: Path, oldIndex: nat, ghost i: nat)
      requires Shadow(tree, root, oldNode, stack, stackIndices, oldIndex)
      requires ValidPath(tree, node) && node == oldNode + [i] && Under(tree, root, node)
      requires descendantIndex == Sat(RelIndex(tree, root, node))
      modifies `stack, `stackIndices
      ensures ShadowOk()
    {
      ShadowPush(tree, root, oldNode, stack, stackIndices, oldIndex, i, descendantIndex);
      stack := stack + [oldNode];
      stackIndices := stackIndices + [oldIndex];
    }

    method ParentFallback() returns (moved: bool)
      requires Coherent() && !attached
      modifies `node, `stack, `stackIndices, `descendantIndex
      ensures Coherent() && FollowsMove(old(node), Parent, moved)
    {
      if |stack| == 0 || node == root {
        return false;
      }
      ParentStep(tree, root, node);
      var _ := PopFallbackAncestor();
      return true;
    }

    // -------------------------------------------------------------- goal moves

    /** Moves to the first child past a byte or point goal and returns its index. */
    method GotoFirstChildFor(goal: Goal, f: Faults) returns (child: Option<nat>)
      requires Valid()
      modifies this
      ensures Valid() && SameRoot(old(tree), old(root), old(closed))
      ensures attached ==> old(attached)
      ensures closed ==> child == None
      ensures !closed && LosesGoal(old(attached), f) ==> child == None && node == old(node) && !attached
      ensures !closed && !LosesGoal(old(attached), f) ==>
                && IsGoalChild(At(tree, old(node)), goal, child)
                && node == (if child.Some? then old(node) + [child.value] else old(node))
      // the first child that ends behind the byte, or behind the point and not at byte zero
      ensures !closed && !LosesGoal(old(attached), f) ==>
                var kids := At(tree, old(node)).kids;
                match goal
                case ByteGoal(offset) =>
                  && (child.Some? ==> child.value < |kids| && kids[child.value].endByte > offset)
                  && forall k :: 0 <= k < (if child.Some? then child.value else |kids|) ==> k < |kids| && kids[k].endByte <= offset
                case PointGoal(point) =>
                  && (child.Some? ==> child.value < |kids| && kids[child.value].endByte > 0 && Behind(point, kids[child.value].endPoint))
                  && forall k :: 0 <= k < (if child.Some? then child.value else |kids|) ==>
                       k < |kids| && (kids[k].endByte == 0 || !Behind(point, kids[k].endPoint))
    {
      if closed {
        return None;
      }
      if !attached {
        NormalizeFallbackShadow();
      }
      child := GoalMove(goal, f);
    }

    /** The guest's goal move, settled, or the fallback. */
    method GoalMove(goal: Goal, f: Faults) returns (child: Option<nat>)
      requires Coherent() && !closed
      modifies `node, `stack, `stackIndices, `descendantIndex, `descendantIndexKnown, `attached, `guest
      ensures Coherent() && (attached ==> old(attached))
      ensures LosesGoal(old(attached), f) ==> child == None && node == old(node) && !attached
      ensures !LosesGoal(old(attached), f) ==>
                && IsGoalChild(At(tree, old(node)), goal, child)
                && node == (if child.Some? then old(node) + [child.value] else old(node))
    {
      var oldShadow := SnapshotShadow();
      UnderIsValid(tree, root, node);
      var used, result, shadowRebuilt := NativeGoalMove(goal, f);
      if used {
        child := SettleGoalMove(result, shadowRebuilt, oldShadow);
      } else {
        child := GoalFallback(goal);
      }
    }

    /** Turns a guest result into the reported child: a missing or too wide value puts
    the old shadow back and drops the guest. */
    method SettleGoalMove(result: GoalResult, shadowRebuilt: bool, before: CursorShadow) returns (child: Option<nat>)
      requires !closed && AtGoal(before, result, shadowRebuilt)
      modifies `node, `stack, `stackIndices, `descendantIndex, `descendantIndexKnown, `attached
      ensures Coherent()
      ensures child == if result.Found? then Some(result.index) else None
      ensures node == if result.Found? then before.node + [result.index] else before.node
      ensures attached <==> result.Found? || result.NoChild?
    {
      match result
      case Missing =>
        RestoreShadow(before);
        InvalidateNative();
        return None;
      case NoChild =>
        RestoreShadow(before);
        return None;
      case Wide =>
        RestoreShadow(before);
        InvalidateNative();
        return None;
      case Found(index) =>
        if !shadowRebuilt {
          RecordAncestor(before.node, before.descendantIndex, index);
        }
        return Some(index);
    }

    /** Where a guest goal move left the cursor, the shadow before it being exact. */
    ghost predicate AtGoal(before: CursorShadow, result: GoalResult, shadowRebuilt: bool)
      reads this
    {
      && attached && ValidPath(tree, before.node) && ValidPath(tree, root) && Count(At(tree, root)) <= U32_MAX + 1
      && Shadow(tree, root, before.node, before.stack, before.stackIndices, before.descendantIndex)
      && (result.Found? || result.NoChild? ==> guest == node)
      && (result.NoChild? ==> node == before.node)
      && (result.Found? ==>
            && node == before.node + [result.index] && ValidPath(tree, node) && Under(tree, root, node)
            && (shadowRebuilt ==> ShadowOk())
            && (!shadowRebuilt ==>
                  && stack == before.stack && stackIndices == before.stackIndices
                  && descendantIndex == Sat(RelIndex(tree, root, node))))
    }

    method GoalFallback(goal: Goal) returns (child: Option<nat>)
      requires Coherent() && !attached
      modifies `node, `stack, `stackIndices, `descendantIndex
      ensures Coherent()
      ensures IsGoalChild(At(tree, old(node)), goal, child)
      ensures node == if child.Some? then old(node) + [child.value] else old(node)
    {
      var i := 0;
      while i < |At(tree, node).kids|
        invariant Coherent() && node == old(node)
        invariant i <= |At(tree, node).kids|
        invariant forall k :: 0 <= k < i ==> !PastGoal(At(tree, node).kids[k], goal)
      {
        if PastGoal(At(tree, node).kids[i], goal) {
          DescendFallback(i);
          return Some(i);
        }
        i := i + 1;
      }
      return None;
    }

    // -------------------------------------------------------------- jumps

    /** Moves to the descendant with a pre-order index, or to the root when there is none. */
    method GotoDescendant(index: nat, f: Faults)
      requires Valid() && index <= U32_MAX
      modifies this
      ensures Valid() && SameRoot(old(tree), old(root), old(closed))
      ensures attached ==> old(attached)
      ensures !closed ==> ValidPath(tree, root) && node == JumpTarget(tree, root, index)
    {
      if closed {
        return;
      }
      if !attached {
        NormalizeFallbackShadow();
      }
      UnderIsValid(tree, root, node);
      if attached {
        var used := NativeGotoDescendant(index, f);
        if used {
          RebuildShadow();
          return;
        }
      }
      GotoDescendantFallback(index);
    }

    /** After a guest jump the ancestors are found from the node. */
    method RebuildShadow()
      requires ValidPath(tree, root) && ValidPath(tree, node) && Under(tree, root, node)
      requires RelIndex(tree, root, node) <= U32_MAX
      requires descendantIndexKnown ==> descendantIndex == RelIndex(tree, root, node)
      modifies `stack, `stackIndices, `descendantIndex
      ensures ShadowOk()
    {
      var ancestors, indices, currentIndex, ok := FallbackPathToNode(tree, root, node);
      if ok {
        stack, stackIndices := ancestors, indices;
        if !descendantIndexKnown {
          descendantIndex := currentIndex;
        }
      }
    }

    method GotoDescendantFallback(index: nat)
      requires Coherent() && !attached && index <= U32_MAX
      modifies `node, `stack, `stackIndices, `descendantIndex
      ensures Coherent()
      ensures ValidPath(tree, root) && node == JumpTarget(tree, root, index)
    {
      node := root;
      stack, stackIndices := [], [];
      descendantIndex := 0;
      UnderIsValid(tree, root, root);
      if index == 0 {
        JumpUnique(tree, root, root, 0);
        return;
      }
      var found := WalkToIndex(root, At(tree, root), 0, [], [], index);
      if found {
        JumpUnique(tree, root, node, index);
      }
    }

    /** The pruned pre-order walk behind a fallback jump.  `uint32(next)` wraps at 2^32;
    no call ever reaches a child that far out. */
    method WalkToIndex(n: Path, sub: Tree, nIndex: nat, ancestors: seq<Path>, ancestorIndices: seq<nat>, index: nat) returns (found: bool)
      requires ValidPath(tree, n) && sub == At(tree, n)
      requires Shadow(tree, root, n, ancestors, ancestorIndices, nIndex) && RelIndex(tree, root, n) == nIndex
      requires nIndex <= index <= U32_MAX && index != nIndex
      modifies `node, `stack, `stackIndices, `descendantIndex
      ensures found <==> index < nIndex + Count(sub)
      ensures found ==> ShadowOk() && RelIndex(tree, root, node) == index
      ensures !found ==> node == old(node) && SameShadow(old(stack), old(stackIndices), old(descendantIndex))
      decreases sub, 1
    {
      var next := nIndex + 1;
      if next > U32_MAX {
        return false;
      }
      var i := 0;
      while i < |sub.kids|
        invariant i <= |sub.kids|
        invariant next == nIndex + 1 + SumCounts(sub, i) <= index
        invariant node == old(node) && SameShadow(old(stack), old(stackIndices), old(descendantIndex))
      {
        SumCountsMono(sub, i + 1, |sub.kids|);
        found := VisitChild(n, sub, i, next % (U32_MAX + 1), nIndex, ancestors, ancestorIndices, index);
        if found {
          return;
        }
        var childCount := FallbackVisibleSubtreeCount(sub.kids[i]);
        next := next + childCount;
        if next > U32_MAX + 1 {
          next := U32_MAX + 1;
        }
        i := i + 1;
      }
      return false;
    }

    /** Stops at a child that carries the index, and walks into the one that holds it. */
    method VisitChild(n: Path, sub: Tree, i: nat, childIndex: nat, nIndex: nat, ancestors: seq<Path>, ancestorIndices: seq<nat>, index: nat)
      returns (found: bool)
      requires ValidPath(tree, n) && sub == At(tree, n) && i < |sub.kids|
      requires Shadow(tree, root, n, ancestors, ancestorIndices, nIndex) && RelIndex(tree, root, n) == nIndex
      requires childIndex == nIndex + 1 + SumCounts(sub, i) <= index <= U32_MAX
      modifies `node, `stack, `stackIndices, `descendantIndex
      ensures found <==> index < childIndex + Count(sub.kids[i])
      ensures found ==> ShadowOk() && RelIndex(tree, root, node) == index
      ensures !found ==> node == old(node) && SameShadow(old(stack), old(stackIndices), old(descendantIndex))
      decreases sub, 0
    {
      var child := n + [i];
      ChildShadow(n, sub, i, ancestors, ancestorIndices, nIndex, childIndex);
      if childIndex == index {
        StandOn(child, ancestors + [n], ancestorIndices + [nIndex], childIndex);
        return true;
      }
      var childCount := FallbackVisibleSubtreeCount(sub.kids[i]);
      found := false;
      if index > childIndex && index < childIndex + childCount {
        found := WalkToIndex(child, sub.kids[i], childIndex, ancestors + [n], ancestorIndices + [nIndex], index);
      }
    }

    lemma {:induction false} ChildShadow(n: Path, sub: Tree, i: nat, ancestors: seq<Path>, ancestorIndices: seq<nat>, nIndex: nat, childIndex: nat)
      requires ValidPath(tree, n) && sub == At(tree, n) && i < |sub.kids|
      requires Shadow(tree, root, n, ancestors, ancestorIndices, nIndex) && RelIndex(tree, root, n) == nIndex
      requires childIndex == nIndex + 1 + SumCounts(sub, i) <= U32_MAX
      ensures ValidPath(tree, n + [i]) && At(tree, n + [i]) == sub.kids[i]
      ensures Shadow(tree, root, n + [i], ancestors + [n], ancestorIndices + [nIndex], childIndex)
      ensures RelIndex(tree, root, n + [i]) == childIndex
    {
      RelIndexOfChild(tree, root, n, i);
      ChildPath(tree, n, i);
      ShadowPush(tree, root, n, ancestors, ancestorIndices, nIndex, i, childIndex);
    }

    method StandOn(at: Path, ancestors: seq<Path>, indices: seq<nat>, index: nat)
      requires ValidPath(tree, at) && Shadow(tree, root, at, ancestors, indices, index)
      modifies `node, `stack, `stackIndices, `descendantIndex
      ensures node == at && ShadowOk()
    {
      node, stack, stackIndices, descendantIndex := at, ancestors, indices, index;
    }

    /** The void-returning guest jump: any answered call counts as performed. */
    method NativeGotoDescendant(index: nat, f: Faults) returns (used: bool)
      requires Coherent() && attached
      modifies `node, `stack, `stackIndices, `descendantIndex, `descendantIndexKnown, `attached, `guest
      ensures !used ==> Coherent() && !attached && node == old(node)
      ensures used ==> attached && ValidPath(tree, root) && guest == node == JumpTarget(tree, root, index)
      ensures used ==> Under(tree, root, node) && ValidPath(tree, node) && RelIndex(tree, root, node) <= U32_MAX
      ensures used && descendantIndexKnown ==> descendantIndex == RelIndex(tree, root, node)
    {
      var before := SnapshotShadow();
      used := GuestJump(index, f);
      if !used {
        RestoreShadow(before);
        InvalidateNative();
      }
    }

    /** The guest's side of the jump, and reading its node back. */
    method GuestJump(index: nat, f: Faults) returns (used: bool)
      requires Coherent() && attached
      modifies `node, `stack, `stackIndices, `descendantIndex, `descendantIndexKnown, `guest
      ensures Under(tree, root, old(node)) && ValidPath(tree, old(node))
      ensures used ==> ValidPath(tree, root) && guest == node == JumpTarget(tree, root, index)
      ensures used ==> Under(tree, root, node) && ValidPath(tree, node) && RelIndex(tree, root, node) <= U32_MAX
      ensures used && descendantIndexKnown ==> descendantIndex == RelIndex(tree, root, node)
    {
      UnderIsValid(tree, root, node);
      if f.reply.Trap? {
        guest := f.reply.at;
        return false;
      }
      guest := JumpTarget(tree, root, index);
      UnderIsValid(tree, root, root);
      RelIndexInBlock(tree, root, root, guest);
      var seen, _ := RefreshFromGuest(f);
      used := seen;
    }

    // -------------------------------------------------------------- observers

    /** The current node, detaching a guest that cannot name it. */
    method CurrentNode(nodeOk: bool) returns (current: Option<Path>)
      requires Valid()
      modifies this
      ensures Valid() && SameRoot(old(tree), old(root), old(closed)) && node == old(node)
      ensures attached ==> old(attached)
      ensures current == if closed then None else Some(node)
    {
      if closed {
        return None;
      }
      if attached {
        if nodeOk {
          node := guest;
          return Some(node);
        }
        InvalidateNative();
      }
      return Some(node);
    }

    /** Number of ancestors below the cursor root. */
    method CurrentDepth(depthOk: bool) returns (depth: nat)
      requires Valid()
      modifies this
      ensures Valid() && SameRoot(old(tree), old(root), old(closed)) && node == old(node)
      ensures attached ==> old(attached)
      ensures !closed ==> depth == |node| - |root|
      ensures closed ==> depth == 0
    {
      if closed {
        return 0;
      }
      if attached {
        if depthOk {
          return |guest| - |root|;
        }
        InvalidateNative();
      }
      return |stack|;
    }

    /** The pre-order index of the current node, saturated to the wire. */
    method DescendantIndex(indexOk: bool) returns (index: nat)
      requires Valid()
      modifies this
      ensures Valid() && SameRoot(old(tree), old(root), old(closed)) && node == old(node)
      ensures attached ==> old(attached)
      ensures !closed ==> Under(tree, root, node) && index == Sat(RelIndex(tree, root, node))
      ensures closed ==> index == 0
    {
      if closed {
        return 0;
      }
      if attached {
        UnderIsValid(tree, root, node);
        UnderIsValid(tree, root, root);
        RelIndexInBlock(tree, root, root, node);
        if indexOk {
          return RelIndex(tree, root, guest);
        }
        InvalidateNative();
      }
      return descendantIndex;
    }

    // -------------------------------------------------------------- resets

    /** Repositions the cursor at `path` of `t` and makes it the new root.  The guest is
    kept only when both trees live in one runtime and its reset call succeeds. */
    method Reset(t: Tree, path: Path, sameRuntime: bool, f: Faults)
      requires Valid() && ValidPath(t, path)
      requires f.reply.Answer? ==> Count(At(t, path)) <= U32_MAX + 1
      modifies this
      ensures Valid() && closed == old(closed)
      ensures !closed ==> tree == t && root == node == path
      ensures closed ==> SameRoot(old(tree), old(root), old(closed)) && node == old(node)
    {
      if closed {
        return;
      }
      var native := attached && sameRuntime && f.reply.Answer?;
      if native {
        guest := path;
      }
      if !native && attached {
        attached := false;
      }
      tree, node, root := t, path, path;
      stack, stackIndices := [], [];
      descendantIndex := 0;
      UnderIsValid(t, path, path);
    }

    /** Copies position and root from another cursor. */
    method ResetTo(other: TreeCursor, sameRuntime: bool, f: Faults)
      requires Valid() && other.Valid()
      modifies this
      ensures Valid() && closed == old(closed) && other.Valid()
      ensures this != other && !closed && !other.closed ==> tree == other.tree && root == other.root && node == other.node
      ensures this == other || closed || other.closed ==> unchanged(this)
    {
      if this == other || closed || other.closed {
        return;
      }
      var native := attached && other.attached && sameRuntime && f.reply.Answer?;
      if native {
        guest := other.guest;
      }
      if !native && attached {
        attached := false;
      }
      tree, node, root := other.tree, other.node, other.root;
      stack, stackIndices := other.stack, other.stackIndices;
      descendantIndex, descendantIndexKnown := other.descendantIndex, other.descendantIndexKnown;
    }

    /** An independent cursor at the same position. */
    method Copy(f: Faults) returns (out: TreeCursor?)
      requires Valid()
      ensures out == null <==> closed
      ensures out != null ==> fresh(out) && out.Valid() && !out.closed
      ensures out != null ==> out.tree == tree && out.root == root && out.node == node
    {
      if closed {
        return null;
      }
      UnderIsValid(tree, root, node);
      var c := new TreeCursor(tree, root, false);
      c.node, c.stack, c.stackIndices := node, stack, stackIndices;
      c.descendantIndex, c.descendantIndexKnown := descendantIndex, descendantIndexKnown;
      if attached && f.reply.Answer? {
        c.attached, c.guest := true, guest;
      }
      return c;
    }

    method Close()
      requires Valid()
      modifies this
      ensures Valid() && closed
    {
      if closed {
        return;
      }
      closed, attached := true, false;
      stack, stackIndices, descendantIndex := [], [], 0;
    }

    // -------------------------------------------------------------- what a move must do

    ghost predicate SameRoot(t: Tree, r: Path, wasClosed: bool)
      reads this
    {
      tree == t && root == r && closed == wasClosed
    }

    /** The cursor reports and stands where the pure path cursor does. */
    ghost predicate FollowsMove(from: Path, move: Move, moved: bool)
      reads this
    {
      && Under(tree, root, from) && ValidPath(tree, from)
      && var target := Target(tree, root, from, move);
         moved == target.Some? && node == (if moved then target.value else from)
    }
  }

  lemma {:induction false} ParentStep(t: Tree, root: Path, node: Path)
    requires ValidPath(t, node) && Under(t, root, node) && node != root
    ensures Under(t, root, node[..|node| - 1]) && ValidPath(t, node[..|node| - 1])
  {
    var up := ParentOf(t, root, node);
    assert up == node[..|node| - 1];
  }

  /** Two siblings share their ancestors. */
  lemma {:induction false} SiblingShadow(t: Tree, root: Path, from: Path, to: Path, stack: seq<Path>, indices: seq<nat>, index: nat)
    requires ValidPath(t, from) && Shadow(t, root, from, stack, indices, index) && from != root
    requires Under(t, root, to) && |to| == |from| && to[..|to| - 1] == from[..|from| - 1]
    ensures Shadow(t, root, to, stack, indices, Sat(RelIndex(t, root, to)))
  {
    var up := from[..|from| - 1];
    assert from == up + [from[|from| - 1]] && to == up + [to[|to| - 1]];
    ShadowSibling(t, root, up, from[|from| - 1], to[|to| - 1], stack, indices, index);
  }

  /** A node is its own jump target: indexes and paths undo each other. */
  lemma {:induction false} JumpUnique(t: Tree, root: Path, p: Path, index: nat)
    requires ValidPath(t, root) && Under(t, root, p) && RelIndex(t, root, p) == index
    ensures JumpTarget(t, root, index) == p
  {
    IndexBelowCount(At(t, root), p[|root|..]);
    var q := JumpTarget(t, root, index);
    IndexInjective(At(t, root), p[|root|..], q[|root|..]);
    assert p == root + p[|root|..] && q == root + q[|root|..];
  }
}
