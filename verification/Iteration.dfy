/** The queue-driven iterator: one `Next` either prepends or appends the children of the
node it pops.  Prepending yields pre-order, appending yields level order. */
module Iteration {
  import opened Values
  import opened SyntaxTree

  /** A node value: its identity and the subtree behind it. */
  datatype NodeRef = NodeRef(path: Path, sub: Tree)

  predicate Included(t: Tree, named: bool) { !named || t.named }

  /** The visible (or visible named) children among the first `k`, in source order. */
  function Kids(n: NodeRef, named: bool, k: nat): (r: seq<NodeRef>)
    requires k <= |n.sub.kids|
  {
    if k == 0 then [] else
    Kids(n, named, k - 1)
    + (if Included(n.sub.kids[k - 1], named) then [NodeRef(n.path + [k - 1], n.sub.kids[k - 1])] else [])
  }

  function AllKids(n: NodeRef, named: bool): seq<NodeRef> {
    Kids(n, named, |n.sub.kids|)
  }

  // ---------------------------------------------------------------- pre-order

  function Pre(n: NodeRef, named: bool): (r: seq<NodeRef>)
    decreases n.sub, 1
  {
    [n] + PreKids(n, named, |n.sub.kids|)
  }

  function PreKids(n: NodeRef, named: bool, k: nat): (r: seq<NodeRef>)
    requires k <= |n.sub.kids|
    decreases n.sub, 0, k
  {
    if k == 0 then [] else
    PreKids(n, named, k - 1)
    + (if Included(n.sub.kids[k - 1], named) then Pre(NodeRef(n.path + [k - 1], n.sub.kids[k - 1]), named) else [])
  }

  function PreForest(q: seq<NodeRef>, named: bool): (r: seq<NodeRef>) {
    if q == [] then [] else Pre(q[0], named) + PreForest(q[1..], named)
  }

  lemma {:induction false} PreForestConcat(a: seq<NodeRef>, b: seq<NodeRef>, named: bool)
    ensures PreForest(a + b, named) == PreForest(a, named) + PreForest(b, named)
    decreases |a|
  {
    if a == [] {
      assert a + b == b;
    } else {
      assert (a + b)[1..] == a[1..] + b;
      PreForestConcat(a[1..], b, named);
    }
  }

  lemma {:induction false} PreForestOfKids(n: NodeRef, named: bool, k: nat)
    requires k <= |n.sub.kids|
    ensures PreForest(Kids(n, named, k), named) == PreKids(n, named, k)
    decreases k
  {
    if k > 0 {
      PreForestOfKids(n, named, k - 1);
      var last := NodeRef(n.path + [k - 1], n.sub.kids[k - 1]);
      var tail := if Included(last.sub, named) then [last] else [];
      PreForestConcat(Kids(n, named, k - 1), tail, named);
      assert PreForest(tail, named) == if Included(last.sub, named) then Pre(last, named) else [] by {
        if tail == [last] {
          assert tail[1..] == [];
        }
      }
    }
  }

  /** Popping the head and prepending its children drops one node of the pre-order. */
  lemma {:induction false} DepthFirstStep(q: seq<NodeRef>, named: bool)
    requires q != []
    ensures PreForest(q, named) == [q[0]] + PreForest(AllKids(q[0], named) + q[1..], named)
  {
    PreForestConcat(AllKids(q[0], named), q[1..], named);
    PreForestOfKids(q[0], named, |q[0].sub.kids|);
  }

  /** Without the named filter the pre-order lists exactly the nodes the cursor numbers:
  position `i` holds the node with pre-order index `i`. */
  lemma {:induction false} PreIsNumbering(t: Tree)
    ensures |Pre(NodeRef([], t), false)| == Count(t)
    ensures forall i :: 0 <= i < Count(t) ==> Pre(NodeRef([], t), false)[i].path == NthNode(t, i)
  {
    forall i | 0 <= i < Count(t)
      ensures |Pre(NodeRef([], t), false)| == Count(t)
      ensures Pre(NodeRef([], t), false)[i].path == NthNode(t, i)
    {
      PreNumbers(NodeRef([], t), NthNode(t, i));
      assert [] + NthNode(t, i) == NthNode(t, i);
    }
    PreNumbers(NodeRef([], t), []);
  }

  /** Pre-order position of a descendant given by its relative path. */
  lemma {:induction false} PreNumbers(n: NodeRef, p: Path)
    requires ValidPath(n.sub, p)
    ensures |Pre(n, false)| == Count(n.sub)
    ensures Index(n.sub, p) < Count(n.sub)
    ensures Pre(n, false)[Index(n.sub, p)] == NodeRef(n.path + p, At(n.sub, p))
    decreases n.sub, 1, 0
  {
    IndexBelowCount(n.sub, p);
    PreKidsLength(n, |n.sub.kids|);
    if p == [] {
      assert n.path + p == n.path;
    } else {
      PreKidsNumbers(n, p, |n.sub.kids|);
    }
  }

  lemma {:induction false} PreKidsLength(n: NodeRef, k: nat)
    requires k <= |n.sub.kids|
    ensures |PreKids(n, false, k)| == SumCounts(n.sub, k)
    decreases n.sub, 0, k, 0
  {
    if k > 0 {
      PreKidsLength(n, k - 1);
      PreNumbers(NodeRef(n.path + [k - 1], n.sub.kids[k - 1]), []);
    }
  }

  lemma {:induction false} PreKidsNumbers(n: NodeRef, p: Path, k: nat)
    requires p != [] && ValidPath(n.sub, p) && p[0] < k <= |n.sub.kids|
    ensures Index(n.sub, p) - 1 < |PreKids(n, false, k)|
    ensures PreKids(n, false, k)[Index(n.sub, p) - 1] == NodeRef(n.path + p, At(n.sub, p))
    decreases n.sub, 0, k, 1
  {
    var kid := NodeRef(n.path + [k - 1], n.sub.kids[k - 1]);
    var whole, front, block := PreKids(n, false, k), PreKids(n, false, k - 1), Pre(kid, false);
    var at, found := Index(n.sub, p) - 1, NodeRef(n.path + p, At(n.sub, p));
    if p[0] == k - 1 {
      PathStep(n.sub, p);
      PreKidsLength(n, k - 1);
      PreNumbers(kid, p[1..]);
      PathJoins(n.path, p);
      InBack(whole, front, block, at, Index(kid.sub, p[1..]), found);
    } else {
      PreKidsNumbers(n, p, k - 1);
      InFront(whole, front, block, at, found);
    }
  }

  lemma {:induction false} PathJoins(a: Path, p: Path)
    requires p != []
    ensures (a + [p[0]]) + p[1..] == a + p
  {
  }

  lemma {:induction false} PathStep(t: Tree, p: Path)
    requires p != [] && ValidPath(t, p)
    ensures p[0] < |t.kids| && ValidPath(t.kids[p[0]], p[1..]) && At(t, p) == At(t.kids[p[0]], p[1..])
    ensures Index(t, p) - 1 == SumCounts(t, p[0]) + Index(t.kids[p[0]], p[1..])
  {
  }

  lemma {:induction false} InFront<T>(whole: seq<T>, a: seq<T>, b: seq<T>, at: nat, x: T)
    requires whole == a + b && at < |a| && a[at] == x
    ensures at < |whole| && whole[at] == x
  {
  }

  lemma {:induction false} InBack<T>(whole: seq<T>, a: seq<T>, b: seq<T>, at: nat, i: nat, x: T)
    requires whole == a + b && at == |a| + i && i < |b| && b[i] == x
    ensures at < |whole| && whole[at] == x
  {
  }

  // ---------------------------------------------------------------- level order

  function KidsOf(q: seq<NodeRef>, named: bool): (r: seq<NodeRef>) {
    if q == [] then [] else AllKids(q[0], named) + KidsOf(q[1..], named)
  }

  lemma {:induction false} KidsOfConcat(a: seq<NodeRef>, b: seq<NodeRef>, named: bool)
    ensures KidsOf(a + b, named) == KidsOf(a, named) + KidsOf(b, named)
    decreases |a|
  {
    if a == [] {
      assert a + b == b;
    } else {
      assert (a + b)[1..] == a[1..] + b;
      KidsOfConcat(a[1..], b, named);
    }
  }

  /** Number of nodes still to be visited from a queue. */
  function Size(q: seq<NodeRef>): nat {
    if q == [] then 0 else Count(q[0].sub) + Size(q[1..])
  }

  lemma {:induction false} SizeConcat(a: seq<NodeRef>, b: seq<NodeRef>)
    ensures Size(a + b) == Size(a) + Size(b)
    decreases |a|
  {
    if a == [] {
      assert a + b == b;
    } else {
      assert (a + b)[1..] == a[1..] + b;
      SizeConcat(a[1..], b);
    }
  }

  lemma {:induction false} SizeOfKids(n: NodeRef, named: bool, k: nat)
    requires k <= |n.sub.kids|
    ensures Size(Kids(n, named, k)) <= SumCounts(n.sub, k)
    decreases k
  {
    if k > 0 {
      SizeOfKids(n, named, k - 1);
      var last := NodeRef(n.path + [k - 1], n.sub.kids[k - 1]);
      var tail := if Included(last.sub, named) then [last] else [];
      assert tail != [] ==> tail[1..] == [];
      SizeConcat(Kids(n, named, k - 1), tail);
    }
  }

  lemma {:induction false} SizeOfKidsOf(q: seq<NodeRef>, named: bool)
    ensures Size(KidsOf(q, named)) + |q| <= Size(q)
    decreases |q|
  {
    if q != [] {
      SizeOfKidsOf(q[1..], named);
      SizeOfKids(q[0], named, |q[0].sub.kids|);
      SizeConcat(AllKids(q[0], named), KidsOf(q[1..], named));
    }
  }

  /** The queue as one level, then the next level below it, and so on. */
  function LevelOrder(q: seq<NodeRef>, named: bool): (r: seq<NodeRef>)
    decreases Size(q)
  {
    if q == [] then [] else
    SizeOfKidsOf(q, named);
    q + LevelOrder(KidsOf(q, named), named)
  }

  /** A queue may hold the rest of one level followed by the start of the next. */
  lemma {:induction false} LevelRotate(a: seq<NodeRef>, b: seq<NodeRef>, named: bool)
    ensures LevelOrder(a + b, named) == a + LevelOrder(b + KidsOf(a, named), named)
    decreases Size(a + b)
  {
    if a == [] {
      assert a + b == b && b + KidsOf(a, named) == b;
    } else {
      KidsOfConcat(a, b, named);
      SizeOfKidsOf(a + b, named);
      var ka, kb := KidsOf(a, named), KidsOf(b, named);
      LevelRotate(ka, kb, named);
      KidsOfConcat(b, ka, named);
      if b + ka == [] {
        assert b == [] && ka == [] && kb == [];
        assert a + b == a;
      } else {
        assert LevelOrder(b + ka, named) == (b + ka) + LevelOrder(kb + KidsOf(ka, named), named);
      }
      assert LevelOrder(a + b, named) == (a + b) + LevelOrder(ka + kb, named);
      Regroup(a, b, ka, LevelOrder(kb + KidsOf(ka, named), named));
    }
  }

  lemma {:induction false} Regroup(a: seq<NodeRef>, b: seq<NodeRef>, c: seq<NodeRef>, d: seq<NodeRef>)
    ensures (a + b) + (c + d) == a + ((b + c) + d)
  {
  }

  /** Popping the head and appending its children drops one node of the level order. */
  lemma {:induction false} BreadthFirstStep(q: seq<NodeRef>, named: bool)
    requires q != []
    ensures LevelOrder(q, named) == [q[0]] + LevelOrder(q[1..] + AllKids(q[0], named), named)
  {
    var head := [q[0]];
    assert head + q[1..] == q;
    assert head[1..] == [];
    assert KidsOf(head, named) == AllKids(q[0], named) + KidsOf([], named) == AllKids(q[0], named);
    LevelRotate(head, q[1..], named);
  }

  /** Both orders visit the same nodes, each the same number of times. */
  lemma {:induction false} OrdersVisitTheSame(q: seq<NodeRef>, named: bool)
    ensures multiset(LevelOrder(q, named)) == multiset(PreForest(q, named))
    decreases Size(q)
  {
    if q != [] {
      SizeOfKidsOf(q, named);
      OrdersVisitTheSame(KidsOf(q, named), named);
      PreForestByLevel(q, named);
    }
  }

  lemma {:induction false} PreForestByLevel(q: seq<NodeRef>, named: bool)
    ensures multiset(PreForest(q, named)) == multiset(q) + multiset(PreForest(KidsOf(q, named), named))
    decreases |q|
  {
    if q != [] {
      PreForestByLevel(q[1..], named);
      FirstTree(q, named);
      SameMembers(q, PreKids(q[0], named, |q[0].sub.kids|), PreForest(q[1..], named), PreForest(KidsOf(q[1..], named), named));
    }
  }

  /** The first tree of a queue, its root and what is below. */
  lemma {:induction false} FirstTree(q: seq<NodeRef>, named: bool)
    requires q != []
    ensures var n, rest := q[0], q[1..]; var below := PreKids(n, named, |n.sub.kids|);
      && PreForest(q, named) == [n] + below + PreForest(rest, named)
      && PreForest(KidsOf(q, named), named) == below + PreForest(KidsOf(rest, named), named)
  {
    PreForestConcat(AllKids(q[0], named), KidsOf(q[1..], named), named);
    PreForestOfKids(q[0], named, |q[0].sub.kids|);
  }

  lemma {:induction false} SameMembers(q: seq<NodeRef>, below: seq<NodeRef>, forest: seq<NodeRef>, kids: seq<NodeRef>)
    requires q != [] && multiset(forest) == multiset(q[1..]) + multiset(kids)
    ensures multiset([q[0]] + below + forest) == multiset(q) + multiset(below + kids)
  {
    assert [q[0]] + q[1..] == q;
  }

  /** Every node of the tree is visited exactly once, in either order. */
  lemma {:induction false} EachNodeOnce(t: Tree, p: Path)
    requires ValidPath(t, p)
    ensures multiset(LevelOrder([NodeRef([], t)], false))[NodeRef(p, At(t, p))] == 1
    ensures multiset(PreForest([NodeRef([], t)], false))[NodeRef(p, At(t, p))] == 1
  {
    var root := NodeRef([], t);
    var order := Pre(root, false);
    var x := NodeRef(p, At(t, p));
    assert [root][1..] == [];
    assert PreForest([root], false) == order + PreForest([], false) == order;
    OrdersVisitTheSame([root], false);
    PreNumbers(root, p);
    assert [] + p == p;
    var i := Index(t, p);
    PreIsNumbering(t);
    forall j | 0 <= j < |order| && order[j] == x
      ensures j == i
    {
      assert order[j].path == NthNode(t, j);
    }
    OnceOnly(order, i);
  }

  lemma {:induction false} OnceOnly<T>(s: seq<T>, i: nat)
    requires i < |s| && forall j :: 0 <= j < |s| && s[j] == s[i] ==> j == i
    ensures multiset(s)[s[i]] == 1
  {
    assert s == s[..i] + [s[i]] + s[i + 1..];
    assert s[i] !in s[..i] && s[i] !in s[i + 1..];
  }

  // ---------------------------------------------------------------- the iterator

  datatype Terminal = EndOfInput | UnsupportedMode

  const DFS_MODE: nat := 0
  const BFS_MODE: nat := 1

  datatype Step = Visit(node: NodeRef) | Stop(why: Terminal)

  lemma {:induction false} MoveOver(a: seq<NodeRef>, n: NodeRef, b: seq<NodeRef>)
    ensures a + ([n] + b) == (a + [n]) + b
  {
  }

  class Iterator {
    var named: bool
    var mode: nat
    var toVisit: seq<NodeRef>
    var invalid: Option<Terminal>

    /** A null node yields an exhausted iterator, an unknown mode a failing one. */
    constructor (node: Option<NodeRef>, mode: nat, named: bool)
      ensures invalid == (if node.None? then Some(EndOfInput)
                          else if mode != DFS_MODE && mode != BFS_MODE then Some(UnsupportedMode)
                          else None)
      ensures this.mode == mode && this.named == named
      ensures toVisit == if invalid.None? then [node.value] else []
    {
      this.named, this.mode := named, mode;
      if node.None? {
        invalid, toVisit := Some(EndOfInput), [];
      } else if mode != DFS_MODE && mode != BFS_MODE {
        invalid, toVisit := Some(UnsupportedMode), [];
      } else {
        invalid, toVisit := None, [node.value];
      }
    }

    /** The nodes this iterator has yet to yield, in order. */
    ghost function Remaining(): (r: seq<NodeRef>)
      reads this
    {
      if invalid.Some? then []
      else if mode == DFS_MODE then PreForest(toVisit, named)
      else LevelOrder(toVisit, named)
    }

    method Next() returns (r: Step)
      modifies this`toVisit
      ensures old(Remaining()) == [] <==> r.Stop?
      ensures r.Stop? ==> r.why == (if invalid.Some? then invalid.value else EndOfInput) && toVisit == old(toVisit)
      ensures r.Visit? ==> old(Remaining()) == [r.node] + Remaining() && Size(toVisit) < Size(old(toVisit))
    {
      if invalid.Some? {
        return Stop(invalid.value);
      }
      if |toVisit| == 0 {
        return Stop(EndOfInput);
      }
      ghost var before := toVisit;
      var node := toVisit[0];
      DepthFirstStep(before, named);
      BreadthFirstStep(before, named);
      toVisit := toVisit[1..];
      var children: seq<NodeRef> := [];
      var count := |node.sub.kids|;
      for i := 0 to count
        invariant children == Kids(node, named, i)
        invariant toVisit == before[1..]
      {
        if Included(node.sub.kids[i], named) {
          children := children + [NodeRef(node.path + [i], node.sub.kids[i])];
        }
      }
      SizeOfKids(node, named, count);
      SizeConcat(children, before[1..]);
      SizeConcat(before[1..], children);
      if mode == DFS_MODE {
        toVisit := children + toVisit;
      } else {
        toVisit := toVisit + children;
      }
      return Visit(node);
    }

    /** Visits every remaining node until the callback fails. */
    method ForEach(fails: NodeRef -> bool) returns (visited: seq<NodeRef>, failed: bool)
      modifies this`toVisit
      ensures old(Remaining()) == visited + Remaining()
      ensures !failed ==> Remaining() == [] && forall i :: 0 <= i < |visited| ==> !fails(visited[i])
      ensures failed ==> visited != [] && fails(visited[|visited| - 1]) && forall i :: 0 <= i < |visited| - 1 ==> !fails(visited[i])
    {
      visited, failed := [], false;
      ghost var whole := Remaining();
      ghost var ahead := whole;
      while true
        invariant ahead == Remaining() && whole == visited + ahead
        invariant forall i :: 0 <= i < |visited| ==> !fails(visited[i])
        decreases Size(toVisit)
      {
        var r := Next();
        if r.Stop? {
          return visited, false;
        }
        MoveOver(visited, r.node, Remaining());
        ahead := Remaining();
        visited := visited + [r.node];
        if fails(r.node) {
          return visited, true;
        }
      }
    }

    method Close()
      modifies this
      ensures Remaining() == [] && invalid == Some(EndOfInput)
    {
      toVisit, invalid := [], Some(EndOfInput);
    }
  }
}
