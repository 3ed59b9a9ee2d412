/** Range descent: the smallest node covering a byte or point range. */
module Covering {
  import opened Values
  import opened SyntaxTree

  datatype Axis = Bytes | Points

  /** Both coordinates of a node as numbers on one axis. */
  function Lo(axis: Axis, t: Tree): nat {
    if axis.Bytes? then t.startByte else PackPoint(t.startPoint)
  }

  function Hi(axis: Axis, t: Tree): nat {
    if axis.Bytes? then t.endByte else PackPoint(t.endPoint)
  }

  /** Children are ordered, disjoint and contained in their parent, all the way down. */
  ghost predicate Laid(axis: Axis, t: Tree) {
    && Lo(axis, t) <= Hi(axis, t)
    && (forall i, j :: 0 <= i < j < |t.kids| ==> Hi(axis, t.kids[i]) <= Lo(axis, t.kids[j]))
    && (forall i :: 0 <= i < |t.kids| ==>
          && Laid(axis, t.kids[i])
          && Lo(axis, t) <= Lo(axis, t.kids[i]) && Hi(axis, t.kids[i]) <= Hi(axis, t))
  }

  /** The node reaches over the range; an empty range may touch the end of an empty node,
  and otherwise must start before the node ends. */
  predicate Spans(axis: Axis, t: Tree, s: nat, e: nat) {
    Lo(axis, t) <= s && e <= Hi(axis, t) && (s < Hi(axis, t) || Lo(axis, t) == Hi(axis, t))
  }

  predicate Covers(axis: Axis, t: Tree, s: nat, e: nat) {
    Lo(axis, t) <= s && e <= Hi(axis, t)
  }

  /** A nonempty range is spanned exactly by the nodes that cover it. */
  lemma {:induction false} SpansIsCovers(axis: Axis, t: Tree, s: nat, e: nat)
    requires s < e
    ensures Spans(axis, t, s, e) <==> Covers(axis, t, s, e)
  {
  }

  /** Every node on the way from the receiver down to `p` spans the range, and no child
  of the last one does. */
  ghost predicate IsChain(axis: Axis, t: Tree, s: nat, e: nat, p: Path) {
    && ValidPath(t, p)
    && (forall k :: 0 < k <= |p| ==> ValidPath(t, p[..k]) && Spans(axis, At(t, p[..k]), s, e))
    && (forall i :: 0 <= i < |At(t, p).kids| ==> !Spans(axis, At(t, p).kids[i], s, e))
  }

  /** `r` is the last acceptable node on the chain to `p`, the receiver when none is. */
  ghost predicate LastAccepted(t: Tree, named: bool, p: Path, r: Path) {
    && ValidPath(t, p)
    && r <= p && ValidPath(t, r)
    && (r == [] || !named || At(t, r).named)
    && (forall k :: |r| < k <= |p| ==> ValidPath(t, p[..k]) && named && !At(t, p[..k]).named)
  }

  /** On a nonempty range the chain holds every covering node of the subtree: its end is
  the unique smallest one. */
  lemma {:induction false} ChainHoldsEveryCover(axis: Axis, t: Tree, s: nat, e: nat, p: Path, q: Path)
    requires Laid(axis, t) && s < e && IsChain(axis, t, s, e, p)
    requires q != [] && ValidPath(t, q) && Covers(axis, At(t, q), s, e)
    ensures q <= p
    decreases |q|
  {
    var k := q[0];
    KidCovers(axis, t, s, e, q);
    SpansIsCovers(axis, t.kids[k], s, e);
    assert Spans(axis, At(t, []).kids[k], s, e);
    if p != [] {
      assert p[..1] == [p[0]] && [p[0]][1..] == [];
      assert At(t, p[..1]) == t.kids[p[0]];
      assert Spans(axis, t.kids[p[0]], s, e);
      assert p[0] == k;
      ChainTail(axis, t, s, e, p);
      assert q == [k] + q[1..] && p == [k] + p[1..];
      if q[1..] != [] {
        ChainHoldsEveryCover(axis, t.kids[k], s, e, p[1..], q[1..]);
      }
    }
  }

  /** A covering node lies in a covering child. */
  lemma {:induction false} KidCovers(axis: Axis, t: Tree, s: nat, e: nat, q: Path)
    requires Laid(axis, t) && q != [] && ValidPath(t, q) && Covers(axis, At(t, q), s, e)
    ensures Covers(axis, t.kids[q[0]], s, e)
    decreases |q|
  {
    var kid, rest := t.kids[q[0]], q[1..];
    assert At(t, q) == At(kid, rest);
    if rest != [] {
      KidCovers(axis, kid, s, e, rest);
      assert Laid(axis, kid);
    }
  }

  lemma {:induction false} ChainTail(axis: Axis, t: Tree, s: nat, e: nat, p: Path)
    requires p != [] && IsChain(axis, t, s, e, p)
    ensures IsChain(axis, t.kids[p[0]], s, e, p[1..])
  {
    assert At(t, p) == At(t.kids[p[0]], p[1..]);
    forall k | 0 < k <= |p[1..]|
      ensures ValidPath(t.kids[p[0]], p[1..][..k]) && Spans(axis, At(t.kids[p[0]], p[1..][..k]), s, e)
    {
      assert p[..k + 1][1..] == p[1..][..k];
      assert p[..k + 1][0] == p[0];
    }
  }

  /** The two facts together: the descent's result is the smallest covering node, or the
  receiver when nothing below it covers the range. */
  lemma {:induction false} SmallestCover(axis: Axis, t: Tree, s: nat, e: nat, p: Path, q: Path)
    requires Laid(axis, t) && s < e && IsChain(axis, t, s, e, p)
    ensures p != [] ==> Covers(axis, At(t, p), s, e)
    ensures q != [] && ValidPath(t, q) && Covers(axis, At(t, q), s, e) ==> q <= p
    ensures q != [] && q <= p ==> ValidPath(t, q) && Covers(axis, At(t, q), s, e)
  {
    if q != [] && ValidPath(t, q) && Covers(axis, At(t, q), s, e) {
      ChainHoldsEveryCover(axis, t, s, e, p, q);
    }
    if q != [] && q <= p {
      assert p[..|q|] == q;
    }
    assert p[..|p|] == p;
  }

  // ---------------------------------------------------------------- the descents

  /** A pass over the children goes past the node: it ends before the range, or where a
  nonempty node may not. */
  predicate Skipped(axis: Axis, t: Tree, s: nat, e: nat) {
    Hi(axis, t) < e || (if Lo(axis, t) == Hi(axis, t) then Hi(axis, t) < s else Hi(axis, t) <= s)
  }

  /** The first child that is not skipped, or the number of children. */
  ghost predicate StopsAt(axis: Axis, t: Tree, s: nat, e: nat, j: nat) {
    && j <= |t.kids|
    && (j < |t.kids| ==> !Skipped(axis, t.kids[j], s, e))
    && forall k :: 0 <= k < j ==> Skipped(axis, t.kids[k], s, e)
  }

  /** The child a pass over the children settles on: the first one not skipped, unless it
  starts behind the range. */
  ghost predicate Settles(axis: Axis, t: Tree, s: nat, e: nat, r: Option<nat>) {
    match r
    case Some(i) => i < |t.kids| && StopsAt(axis, t, s, e, i) && Lo(axis, t.kids[i]) <= s
    case None => exists j: nat :: StopsAt(axis, t, s, e, j) && (j < |t.kids| ==> s < Lo(axis, t.kids[j]))
  }

  /** The pass at the node `k` steps down the way settles on the next one. */
  ghost predicate Steps(axis: Axis, t: Tree, s: nat, e: nat, p: Path, k: nat) {
    k < |p| && ValidPath(t, p[..k]) && Settles(axis, At(t, p[..k]), s, e, Some(p[k]))
  }

  /** The descent: at each node of the way the pass settles on the next, and on nothing at
  the last. */
  ghost predicate Descends(axis: Axis, t: Tree, s: nat, e: nat, p: Path) {
    && ValidPath(t, p)
    && (forall k: nat :: k < |p| ==> Steps(axis, t, s, e, p, k))
    && Settles(axis, At(t, p), s, e, None)
  }

  /** Among ordered children the pass settles on the first that spans the range, and on
  none exactly when none does. */
  lemma {:induction false} SettlesSpanning(axis: Axis, t: Tree, s: nat, e: nat, r: Option<nat>)
    requires s <= e && Settles(axis, t, s, e, r)
    ensures r.Some? ==> Spans(axis, t.kids[r.value], s, e) && forall k :: 0 <= k < r.value ==> !Spans(axis, t.kids[k], s, e)
    ensures r.None? && Laid(axis, t) ==> forall k :: 0 <= k < |t.kids| ==> !Spans(axis, t.kids[k], s, e)
  {
    if r.None? && Laid(axis, t) {
      var j: nat :| StopsAt(axis, t, s, e, j) && (j < |t.kids| ==> s < Lo(axis, t.kids[j]));
      forall k | 0 <= k < |t.kids|
        ensures !Spans(axis, t.kids[k], s, e)
      {
        assert k < j ==> Skipped(axis, t.kids[k], s, e);
        assert j < |t.kids| ==> Laid(axis, t.kids[j]);
      }
    }
  }

  /** In a laid-out tree the descent's way is a chain that cannot be continued. */
  lemma {:induction false} DescendsIsChain(axis: Axis, t: Tree, s: nat, e: nat, p: Path)
    requires s <= e && Laid(axis, t) && Descends(axis, t, s, e, p)
    ensures IsChain(axis, t, s, e, p)
  {
    LaidBelow(axis, t, p);
    SettlesSpanning(axis, At(t, p), s, e, None);
    forall k | 0 < k <= |p|
      ensures ValidPath(t, p[..k]) && Spans(axis, At(t, p[..k]), s, e)
    {
      var up := p[..k - 1];
      assert Steps(axis, t, s, e, p, k - 1);
      SettlesSpanning(axis, At(t, up), s, e, Some(p[k - 1]));
      ChildPath(t, up, p[k - 1]);
      assert p[..k] == up + [p[k - 1]];
    }
  }

  lemma {:induction false} ExtendDescent(axis: Axis, t: Tree, s: nat, e: nat, p: Path, i: nat)
    requires ValidPath(t, p) && Settles(axis, At(t, p), s, e, Some(i))
    requires forall k: nat :: k < |p| ==> Steps(axis, t, s, e, p, k)
    ensures ValidPath(t, p + [i]) && forall k: nat :: k < |p + [i]| ==> Steps(axis, t, s, e, p + [i], k)
  {
    ChildPath(t, p, i);
    var c := p + [i];
    forall k: nat | k < |c|
      ensures Steps(axis, t, s, e, c, k)
    {
      if k < |p| {
        assert Steps(axis, t, s, e, p, k);
        assert c[..k] == p[..k];
      } else {
        assert c[..k] == p;
      }
    }
  }

  lemma {:induction false} ExtendAccepted(t: Tree, p: Path, i: nat, named: bool, r: Path)
    requires ValidPath(t, p) && i < |At(t, p).kids| && LastAccepted(t, named, p, r)
    ensures LastAccepted(t, named, p + [i], if !named || At(t, p).kids[i].named then p + [i] else r)
  {
    ChildPath(t, p, i);
    var c := p + [i];
    forall k | 0 <= k <= |p|
      ensures c[..k] == p[..k]
    {
    }
    assert c[..|c|] == c;
  }

  lemma {:induction false} LaidBelow(axis: Axis, t: Tree, p: Path)
    requires Laid(axis, t) && ValidPath(t, p)
    ensures Laid(axis, At(t, p))
    decreases |p|
  {
    if p != [] {
      LaidBelow(axis, t.kids[p[0]], p[1..]);
    }
  }

  /** What the descent finds covers the range on any tree, and in a laid-out tree every
  acceptable node that does lies on the way to it. */
  lemma {:induction false} DescentFound(axis: Axis, t: Tree, s: nat, e: nat, named: bool, p: Path, r: Path)
    requires s <= e && Descends(axis, t, s, e, p) && LastAccepted(t, named, p, r)
    ensures r != [] ==> Covers(axis, At(t, r), s, e) && (named ==> At(t, r).named)
    ensures Laid(axis, t) ==> IsChain(axis, t, s, e, p)
    ensures Laid(axis, t) && s < e ==>
              forall q :: q != [] && ValidPath(t, q) && Covers(axis, At(t, q), s, e) && (named ==> At(t, q).named) ==> q <= r
  {
    if r != [] {
      LastCovers(axis, t, s, e, p, r);
    }
    if Laid(axis, t) {
      DescendsIsChain(axis, t, s, e, p);
      if s < e {
        forall q | q != [] && ValidPath(t, q) && Covers(axis, At(t, q), s, e) && (named ==> At(t, q).named)
          ensures q <= r
        {
          ChainHoldsEveryCover(axis, t, s, e, p, q);
          assert q == p[..|q|];
        }
      }
    }
  }

  lemma {:induction false} LastCovers(axis: Axis, t: Tree, s: nat, e: nat, p: Path, r: Path)
    requires s <= e && Descends(axis, t, s, e, p) && ValidPath(t, r) && r != [] && r <= p
    ensures Covers(axis, At(t, r), s, e)
  {
    var k := |r| - 1;
    assert Steps(axis, t, s, e, p, k);
    SettlesSpanning(axis, At(t, p[..k]), s, e, Some(p[k]));
    ChildPath(t, p[..k], p[k]);
    assert r == p[..k] + [p[k]];
  }

  /** Covering by points is covering by packed points. */
  lemma {:induction false} PackedCovers(t: Tree, start: Point, end: Point)
    ensures forall q :: ValidPath(t, q) ==>
              var node := At(t, q);
              Covers(Points, node, PackPoint(start), PackPoint(end)) <==> !Behind(start, node.startPoint) && !Behind(node.endPoint, end)
  {
    forall q | ValidPath(t, q)
      ensures var node := At(t, q);
        Covers(Points, node, PackPoint(start), PackPoint(end)) <==> !Behind(start, node.startPoint) && !Behind(node.endPoint, end)
    {
      PackPointOrder(start, At(t, q).startPoint);
      PackPointOrder(At(t, q).endPoint, end);
    }
  }

  // ---------------------------------------------------------------- empty ranges

  predicate SpanningAt(axis: Axis, t: Tree, q: Path, s: nat) {
    q != [] && ValidPath(t, q) && Spans(axis, At(t, q), s, s)
  }

  predicate IsEmptyAt(axis: Axis, t: Tree, s: nat) {
    Lo(axis, t) == s == Hi(axis, t)
  }

  /** The empty child `i` of `x` at `s` stands under the receiver or a node that spans `s`
  too, and no sibling of it does. */
  ghost predicate Alone(axis: Axis, t: Tree, x: Path, i: nat, s: nat)
    requires ValidPath(t, x) && i < |At(t, x).kids|
  {
    && (x == [] || Spans(axis, At(t, x), s, s))
    && forall j :: 0 <= j < |At(t, x).kids| && j != i ==> !Spans(axis, At(t, x).kids[j], s, s)
  }

  ghost predicate EmptiesAlone(axis: Axis, t: Tree, s: nat) {
    forall x: Path, i: nat | ValidPath(t, x) && i < |At(t, x).kids| && IsEmptyAt(axis, At(t, x).kids[i], s) :: Alone(axis, t, x, i, s)
  }

  /** On an empty range the chain may miss spanning nodes.  It holds all of them exactly
  when every empty node there has a spanning parent and no spanning sibling. */
  lemma {:induction false} EmptyRangeIff(axis: Axis, t: Tree, s: nat, p: Path)
    requires Laid(axis, t) && IsChain(axis, t, s, s, p)
    ensures (forall q :: SpanningAt(axis, t, q, s) ==> q <= p) <==> EmptiesAlone(axis, t, s)
  {
    if forall q :: SpanningAt(axis, t, q, s) ==> q <= p {
      forall x: Path, i: nat | ValidPath(t, x) && i < |At(t, x).kids| && IsEmptyAt(axis, At(t, x).kids[i], s)
        ensures Alone(axis, t, x, i, s)
      {
        HeldIsAlone(axis, t, s, p, x, i);
      }
    }
    if EmptiesAlone(axis, t, s) {
      forall q | SpanningAt(axis, t, q, s)
        ensures q <= p
      {
        AloneIsHeld(axis, t, s, p, q);
      }
    }
  }

  lemma {:induction false} HeldIsAlone(axis: Axis, t: Tree, s: nat, p: Path, x: Path, i: nat)
    requires IsChain(axis, t, s, s, p) && forall q :: SpanningAt(axis, t, q, s) ==> q <= p
    requires ValidPath(t, x) && i < |At(t, x).kids| && IsEmptyAt(axis, At(t, x).kids[i], s)
    ensures Alone(axis, t, x, i, s)
  {
    ChildPath(t, x, i);
    assert SpanningAt(axis, t, x + [i], s);
    assert p[..|x|] == x && p[|x|] == i;
    forall j | 0 <= j < |At(t, x).kids| && j != i
      ensures !Spans(axis, At(t, x).kids[j], s, s)
    {
      ChildPath(t, x, j);
      var y := x + [j];
      assert y[|x|] == j;
      assert SpanningAt(axis, t, y, s) ==> y <= p;
    }
  }

  /** The parent of a spanning node is the receiver or spans too. */
  lemma {:induction false} ParentSpans(axis: Axis, t: Tree, s: nat, x: Path, i: nat)
    requires Laid(axis, t) && EmptiesAlone(axis, t, s)
    requires ValidPath(t, x) && i < |At(t, x).kids| && Spans(axis, At(t, x).kids[i], s, s)
    ensures x == [] || Spans(axis, At(t, x), s, s)
  {
    LaidBelow(axis, t, x);
    if IsEmptyAt(axis, At(t, x).kids[i], s) {
      assert Alone(axis, t, x, i, s);
    }
  }

  /** At most one child of a node spans. */
  lemma {:induction false} OneSpans(axis: Axis, t: Tree, s: nat, x: Path, i: nat, j: nat)
    requires Laid(axis, t) && EmptiesAlone(axis, t, s) && ValidPath(t, x)
    requires i < |At(t, x).kids| && Spans(axis, At(t, x).kids[i], s, s)
    requires j < |At(t, x).kids| && Spans(axis, At(t, x).kids[j], s, s)
    ensures i == j
  {
    LaidBelow(axis, t, x);
    AloneAt(axis, t, s, x, i);
    AloneAt(axis, t, s, x, j);
  }

  lemma {:induction false} AloneAt(axis: Axis, t: Tree, s: nat, x: Path, i: nat)
    requires EmptiesAlone(axis, t, s) && ValidPath(t, x) && i < |At(t, x).kids|
    ensures IsEmptyAt(axis, At(t, x).kids[i], s) ==> Alone(axis, t, x, i, s)
  {
  }

  lemma {:induction false} AloneIsHeld(axis: Axis, t: Tree, s: nat, p: Path, q: Path)
    requires Laid(axis, t) && IsChain(axis, t, s, s, p) && EmptiesAlone(axis, t, s) && SpanningAt(axis, t, q, s)
    ensures q <= p
    decreases |q|
  {
    var x, i := q[..|q| - 1], q[|q| - 1];
    assert q == x + [i];
    PathPrefix(t, x, i);
    ParentSpans(axis, t, s, x, i);
    if x != [] {
      AloneIsHeld(axis, t, s, p, x);
    }
    assert |p| == |x| ==> p == x;
    if |p| > |x| {
      var j := p[|x|];
      assert p[..|x| + 1] == x + [j];
      PathPrefix(t, x, j);
      OneSpans(axis, t, s, x, i, j);
    }
  }

  lemma {:induction false} PathPrefix(t: Tree, x: Path, i: nat)
    requires ValidPath(t, x + [i])
    ensures ValidPath(t, x) && i < |At(t, x).kids| && At(t, x + [i]) == At(t, x).kids[i]
    decreases |x|
  {
    if x != [] {
      assert (x + [i])[0] == x[0] && (x + [i])[1..] == x[1..] + [i];
      PathPrefix(t.kids[x[0]], x[1..], i);
    } else {
      assert x + [i] == [i] && [i][1..] == [];
    }
  }

  /** So it is between two touching siblings: an empty one and the one that starts there
  span the range both, and the chain ends at the first. */
  lemma {:induction false} EmptyRangeHasTwo(empty: Tree, next: Tree)
    requires empty.startByte == empty.endByte == next.startByte < next.endByte
    requires empty.kids == [] && next.kids == []
    ensures var t := Tree(true, 0, next.endByte, Point(0, 0), Point(0, 0), [empty, next]);
            && Laid(Bytes, t)
            && Spans(Bytes, At(t, [0]), next.startByte, next.startByte)
            && Spans(Bytes, At(t, [1]), next.startByte, next.startByte)
            && IsChain(Bytes, t, next.startByte, next.startByte, [0])
            && !([1] <= [0])
  {
    var t := Tree(true, 0, next.endByte, Point(0, 0), Point(0, 0), [empty, next]);
    assert [0][1..] == [] && [1][1..] == [];
    assert t.kids[0] == empty && t.kids[1] == next;
    assert At(empty, []) == empty && At(next, []) == next;
    assert At(t, [0]) == empty && At(t, [1]) == next;
    assert [0][..1] == [0];
    assert Laid(Bytes, empty) && Laid(Bytes, next);
  }

  /** One pass over the children, byte form. */
  method PickChild(current: Tree, start: u32, end: u32) returns (r: Option<nat>)
    ensures Settles(Bytes, current, start, end, r)
    ensures r.Some? ==>
              var child := current.kids[r.value];
              child.startByte <= start && end <= child.endByte && (start < child.endByte || child.startByte == child.endByte)
    ensures forall k :: 0 <= k < (if r.Some? then r.value else 0) ==>
              var child := current.kids[k];
              child.endByte < end || child.endByte < start || (child.endByte == start && child.startByte != start)
    ensures forall k :: r.None? && 0 <= k < |current.kids| ==>
              var child := current.kids[k];
              child.startByte <= start && end <= child.endByte && start < child.endByte ==> exists j :: 0 <= j < k && start < current.kids[j].startByte
  {
    var i := 0;
    while i < |current.kids|
      invariant i <= |current.kids|
      invariant forall k :: 0 <= k < i ==> Skipped(Bytes, current.kids[k], start, end)
    {
      var child := current.kids[i];
      var nodeEnd := child.endByte;
      if nodeEnd < end {
        i := i + 1;
        continue;
      }
      var empty := child.startByte == nodeEnd;
      if (empty && nodeEnd < start) || (!empty && nodeEnd <= start) {
        i := i + 1;
        continue;
      }
      assert StopsAt(Bytes, current, start, end, i);
      if start < child.startByte {
        return None;
      }
      return Some(i);
    }
    assert StopsAt(Bytes, current, start, end, i);
    return None;
  }

  /** One pass over the children, point form. */
  method PickChildForPoints(current: Tree, start: Point, end: Point) returns (r: Option<nat>)
    ensures Settles(Points, current, PackPoint(start), PackPoint(end), r)
    ensures r.Some? ==>
              var child := current.kids[r.value];
              && !Behind(start, child.startPoint) && !Behind(child.endPoint, end)
              && (Behind(start, child.endPoint) || child.startPoint == child.endPoint)
    ensures forall k :: 0 <= k < (if r.Some? then r.value else 0) ==>
              var child := current.kids[k];
              Behind(child.endPoint, end) || Behind(child.endPoint, start) || (child.endPoint == start && child.startPoint != start)
    ensures forall k :: r.None? && 0 <= k < |current.kids| ==>
              var child := current.kids[k];
              !Behind(start, child.startPoint) && !Behind(child.endPoint, end) && Behind(start, child.endPoint)
              ==> exists j :: 0 <= j < k && Behind(start, current.kids[j].startPoint)
  {
    ghost var s, e := PackPoint(start), PackPoint(end);
    var i := 0;
    while i < |current.kids|
      invariant i <= |current.kids|
      invariant forall k :: 0 <= k < i ==> Skipped(Points, current.kids[k], s, e)
    {
      var child := current.kids[i];
      var nodeEnd := child.endPoint;
      PackPointOrder(nodeEnd, end);
      PackPointOrder(nodeEnd, start);
      PackPointOrder(start, child.startPoint);
      PackPointOrder(child.startPoint, nodeEnd);
      if ComparePoint(nodeEnd, end) < 0 {
        i := i + 1;
        continue;
      }
      var empty := child.startPoint == nodeEnd;
      if (empty && ComparePoint(nodeEnd, start) < 0) || (!empty && ComparePoint(nodeEnd, start) <= 0) {
        i := i + 1;
        continue;
      }
      assert StopsAt(Points, current, s, e, i);
      if ComparePoint(start, child.startPoint) < 0 {
        return None;
      }
      return Some(i);
    }
    assert StopsAt(Points, current, s, e, i);
    return None;
  }

  /** The byte-range descent.  A null receiver or a reversed range yields the null node. */
  method DescendantFallback(n: Option<Tree>, start: u32, end: u32, named: bool) returns (r: Option<Path>, ghost chain: Path)
    ensures r.None? <==> n.None? || start > end
    ensures r.Some? ==> Descends(Bytes, n.value, start, end, chain) && LastAccepted(n.value, named, chain, r.value)
    ensures r.Some? && Laid(Bytes, n.value) ==> IsChain(Bytes, n.value, start, end, chain)
    ensures r.Some? && !named ==> r.value == chain
    ensures r.Some? && r.value != [] ==>
              var node := At(n.value, r.value); node.startByte <= start && end <= node.endByte && (named ==> node.named)
    ensures r.Some? && start < end && Laid(Bytes, n.value) ==>
              forall q :: q != [] && ValidPath(n.value, q) ==>
                var node := At(n.value, q); node.startByte <= start && end <= node.endByte && (named ==> node.named) ==> q <= r.value
  {
    chain := [];
    if n.None? || start > end {
      return None, [];
    }
    var root := n.value;
    var node: Path, lastVisible: Path := [], [];
    while true
      invariant ValidPath(root, node)
      invariant forall k: nat :: k < |node| ==> Steps(Bytes, root, start, end, node, k)
      invariant LastAccepted(root, named, node, lastVisible)
      decreases At(root, node)
    {
      var current := At(root, node);
      var picked := PickChild(current, start, end);
      if picked.None? {
        break;
      }
      ExtendDescent(Bytes, root, start, end, node, picked.value);
      ExtendAccepted(root, node, picked.value, named, lastVisible);
      ChildPath(root, node, picked.value);
      node := node + [picked.value];
      if !named || current.kids[picked.value].named {
        lastVisible := node;
      }
    }
    assert node[..|node|] == node;
    DescentFound(Bytes, root, start, end, named, node, lastVisible);
    return Some(lastVisible), node;
  }

  /** The point-range descent, the same law under `ComparePoint`. */
  method DescendantPointFallback(n: Option<Tree>, start: Point, end: Point, named: bool) returns (r: Option<Path>, ghost chain: Path)
    ensures r.None? <==> n.None? || ComparePoint(start, end) > 0
    ensures r.Some? ==> Descends(Points, n.value, PackPoint(start), PackPoint(end), chain) && LastAccepted(n.value, named, chain, r.value)
    ensures r.Some? && Laid(Points, n.value) ==> IsChain(Points, n.value, PackPoint(start), PackPoint(end), chain)
    ensures r.Some? && !named ==> r.value == chain
    ensures r.Some? && r.value != [] ==>
              var node := At(n.value, r.value); !Behind(start, node.startPoint) && !Behind(node.endPoint, end) && (named ==> node.named)
    ensures r.Some? && Behind(start, end) && Laid(Points, n.value) ==>
              forall q :: q != [] && ValidPath(n.value, q) ==>
                var node := At(n.value, q);
                !Behind(start, node.startPoint) && !Behind(node.endPoint, end) && (named ==> node.named) ==> q <= r.value
  {
    chain := [];
    if n.None? || ComparePoint(start, end) > 0 {
      return None, [];
    }
    var root := n.value;
    var node: Path, lastVisible: Path := [], [];
    while true
      invariant ValidPath(root, node)
      invariant forall k: nat :: k < |node| ==> Steps(Points, root, PackPoint(start), PackPoint(end), node, k)
      invariant LastAccepted(root, named, node, lastVisible)
      decreases At(root, node)
    {
      var current := At(root, node);
      var picked := PickChildForPoints(current, start, end);
      if picked.None? {
        break;
      }
      ExtendDescent(Points, root, PackPoint(start), PackPoint(end), node, picked.value);
      ExtendAccepted(root, node, picked.value, named, lastVisible);
      ChildPath(root, node, picked.value);
      node := node + [picked.value];
      if !named || current.kids[picked.value].named {
        lastVisible := node;
      }
    }
    PackPointOrder(start, end);
    assert node[..|node|] == node;
    DescentFound(Points, root, PackPoint(start), PackPoint(end), named, node, lastVisible);
    PackedCovers(root, start, end);
    return Some(lastVisible), node;
  }
}
