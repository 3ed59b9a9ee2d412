/** Finite ordered syntax trees, as the node accessors of the runtime expose them.

A node is named by its path from the top of the tree; two paths are equal exactly when
the runtime's identity test `Node.Equal` answers true.  The pre-order numbering of
the visible nodes, its inverse and the wire-sized (saturating) form of both are defined
here and shared by the cursor, the iterators and the range descent. */
module SyntaxTree {
  import opened Values

  datatype Point = Point(row: u32, column: u32)

  datatype Tree = Tree(
    named: bool,
    startByte: u32,
    endByte: u32,
    startPoint: Point,
    endPoint: Point,
    kids: seq<Tree>)

  type Path = seq<nat>

  /** The order of positions: rows first, then columns. */
  function ComparePoint(a: Point, b: Point): int {
    if a.row < b.row || (a.row == b.row && a.column < b.column) then -1
    else if a == b then 0
    else 1
  }

  /** One point lies behind another: in a later row, or in the same row at a later column. */
  predicate Behind(a: Point, b: Point) {
    a.row < b.row || (a.row == b.row && a.column < b.column)
  }

  /** A point as one u64 argument: the row in the high half, the column in the low. */
  function PackPoint(p: Point): nat {
    p.row * 0x1_0000_0000 + p.column
  }

  function UnpackPoint(v: nat): Point
    requires v < 0x1_0000_0000_0000_0000
  {
    Point(v / 0x1_0000_0000, v % 0x1_0000_0000)
  }

  /** Packing loses nothing and turns the order of positions into the order of numbers. */
  lemma {:induction false} PackPointOrder(a: Point, b: Point)
    ensures PackPoint(a) < 0x1_0000_0000_0000_0000 && UnpackPoint(PackPoint(a)) == a
    ensures ComparePoint(a, b) < 0 <==> PackPoint(a) < PackPoint(b)
    ensures ComparePoint(a, b) == 0 <==> PackPoint(a) == PackPoint(b)
    ensures ComparePoint(a, b) > 0 <==> PackPoint(a) > PackPoint(b)
  {
    if a.row != b.row {
      assert a.row < b.row ==> a.row * 0x1_0000_0000 + 0x1_0000_0000 <= b.row * 0x1_0000_0000;
      assert b.row < a.row ==> b.row * 0x1_0000_0000 + 0x1_0000_0000 <= a.row * 0x1_0000_0000;
    }
  }

  // ---------------------------------------------------------------- paths

  predicate ValidPath(t: Tree, p: Path) {
    p == [] || (p[0] < |t.kids| && ValidPath(t.kids[p[0]], p[1..]))
  }

  function At(t: Tree, p: Path): (r: Tree)
    requires ValidPath(t, p)
  {
    if p == [] then t else At(t.kids[p[0]], p[1..])
  }

  lemma {:induction false} PathConcat(t: Tree, p: Path, q: Path)
    requires ValidPath(t, p)
    ensures ValidPath(t, p + q) <==> ValidPath(At(t, p), q)
    ensures ValidPath(t, p + q) ==> At(t, p + q) == At(At(t, p), q)
  {
    if p == [] {
      assert p + q == q;
    } else {
      assert (p + q)[1..] == p[1..] + q;
      PathConcat(t.kids[p[0]], p[1..], q);
    }
  }

  lemma {:induction false} PathPrefix(t: Tree, p: Path, k: nat)
    requires ValidPath(t, p) && k <= |p|
    ensures ValidPath(t, p[..k]) && ValidPath(At(t, p[..k]), p[k..])
    ensures At(t, p) == At(At(t, p[..k]), p[k..])
    decreases |p|
  {
    if k == 0 {
      assert p[..k] == [] && p[k..] == p;
    } else {
      PathPrefix(t.kids[p[0]], p[1..], k - 1);
      assert p[..k][1..] == p[1..][..k - 1];
      assert p[k..] == p[1..][k - 1..];
    }
  }

  lemma {:induction false} ChildPath(t: Tree, p: Path, i: nat)
    requires ValidPath(t, p)
    ensures ValidPath(t, p + [i]) <==> i < |At(t, p).kids|
    ensures i < |At(t, p).kids| ==> At(t, p + [i]) == At(t, p).kids[i]
  {
    PathConcat(t, p, [i]);
    assert [i][1..] == [];
  }

  // ---------------------------------------------------------------- pre-order numbering

  /** Number of visible nodes of a subtree, its root included. */
  function Count(t: Tree): (n: nat)
    ensures n >= 1
    decreases t, 1
  {
    1 + SumCounts(t, |t.kids|)
  }

  /** Number of visible nodes under the first `k` children. */
  function SumCounts(t: Tree, k: nat): (n: nat)
    requires k <= |t.kids|
    ensures n >= k
    decreases t, 0, k
  {
    if k == 0 then 0 else SumCounts(t, k - 1) + Count(t.kids[k - 1])
  }

  lemma {:induction false} SumCountsMono(t: Tree, j: nat, k: nat)
    requires j <= k <= |t.kids|
    ensures SumCounts(t, j) + (k - j) <= SumCounts(t, k)
    ensures j < k ==> SumCounts(t, j) + Count(t.kids[j]) <= SumCounts(t, k)
  {
    if j < k {
      SumCountsMono(t, j, k - 1);
    }
  }

  /** Pre-order index of a path, unbounded. */
  function Index(t: Tree, p: Path): nat
    requires ValidPath(t, p)
  {
    if p == [] then 0 else 1 + SumCounts(t, p[0]) + Index(t.kids[p[0]], p[1..])
  }

  lemma {:induction false} IndexBelowCount(t: Tree, p: Path)
    requires ValidPath(t, p)
    ensures Index(t, p) < Count(t)
    decreases |p|
  {
    if p != [] {
      IndexBelowCount(t.kids[p[0]], p[1..]);
      SumCountsMono(t, p[0], |t.kids|);
    }
  }

  lemma {:induction false} IndexConcat(t: Tree, p: Path, q: Path)
    requires ValidPath(t, p) && ValidPath(At(t, p), q)
    ensures ValidPath(t, p + q)
    ensures Index(t, p + q) == Index(t, p) + Index(At(t, p), q)
    decreases |p|
  {
    PathConcat(t, p, q);
    if p == [] {
      assert p + q == q;
    } else {
      assert (p + q)[1..] == p[1..] + q;
      IndexConcat(t.kids[p[0]], p[1..], q);
    }
  }

  lemma {:induction false} IndexOfChild(t: Tree, p: Path, i: nat)
    requires ValidPath(t, p) && i < |At(t, p).kids|
    ensures ValidPath(t, p + [i])
    ensures Index(t, p + [i]) == Index(t, p) + 1 + SumCounts(At(t, p), i)
  {
    assert [i][1..] == [];
    IndexConcat(t, p, [i]);
  }

  /** The `i`-th node in pre-order: the inverse of `Index`. */
  function NthNode(t: Tree, i: nat): (p: Path)
    requires i < Count(t)
    ensures ValidPath(t, p) && Index(t, p) == i
    decreases t, 1
  {
    if i == 0 then [] else
    var k := ChildHolding(t, i - 1, |t.kids|);
    var rest := NthNode(t.kids[k], i - 1 - SumCounts(t, k));
    assert ([k] + rest)[1..] == rest;
    [k] + rest
  }

  /** The child whose block of pre-order numbers contains offset `o`. */
  function ChildHolding(t: Tree, o: nat, k: nat): (c: nat)
    requires k <= |t.kids| && o < SumCounts(t, k)
    ensures c < k && SumCounts(t, c) <= o < SumCounts(t, c) + Count(t.kids[c])
    decreases t, 0, k
  {
    if SumCounts(t, k - 1) <= o then k - 1 else ChildHolding(t, o, k - 1)
  }

  /** Distinct nodes have distinct pre-order numbers. */
  lemma {:induction false} IndexInjective(t: Tree, p: Path, q: Path)
    requires ValidPath(t, p) && ValidPath(t, q)
    requires Index(t, p) == Index(t, q)
    ensures p == q
    decreases |p|
  {
    if p == [] || q == [] {
    } else {
      IndexBelowCount(t.kids[p[0]], p[1..]);
      IndexBelowCount(t.kids[q[0]], q[1..]);
      if p[0] < q[0] {
        SumCountsMono(t, p[0], q[0]);
      } else if q[0] < p[0] {
        SumCountsMono(t, q[0], p[0]);
      }
      assert p[0] == q[0];
      IndexInjective(t.kids[p[0]], p[1..], q[1..]);
      assert p == [p[0]] + p[1..] && q == [q[0]] + q[1..];
    }
  }

  /** A pre-order number as the uint32 wire format carries it. */
  function Sat(n: nat): nat {
    if n > U32_MAX then U32_MAX else n
  }
}
