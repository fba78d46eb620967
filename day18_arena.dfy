/**
 * The storage arena of day18/src/main.rs: a vector of elements in which a pair
 * names its halves by index. A ghost `Layout` records which indices form the
 * tree; `Holds` says the storage really links them that way and `Shape` reads
 * the snailfish number off it.
 */
module Day18Arena {
  import opened Common
  import opened Day18Snail

  /** One slot of the arena: a pair of two indices or a regular number. */
  datatype Element = Pair(l: nat, r: nat) | Value(n: nat)

  /** The indices of a tree in the arena, arranged as the tree is. */
  datatype Layout = Leaf(at: nat) | Node(at: nat, l: Layout, r: Layout)

  // ----- The accessors, each defined only on the variant it expects -----

  function Left(e: Element): nat
    requires e.Pair?
  {
    e.l
  }

  function Right(e: Element): nat
    requires e.Pair?
  {
    e.r
  }

  function ValueOf(e: Element): nat
    requires e.Value?
  {
    e.n
  }

  function SetLeft(e: Element, l: nat): Element
    requires e.Pair?
  {
    Pair(l, e.r)
  }

  function SetRight(e: Element, r: nat): Element
    requires e.Pair?
  {
    Pair(e.l, r)
  }

  function AddValue(e: Element, v: nat): Element
    requires e.Value?
  {
    Value(e.n + v)
  }

  /** What is set is what is read back, setting one half keeps the other, and adding to a value adds. */
  lemma AccessorLaws(e: Element, x: nat, v: nat)
    requires e.Pair? || e.Value?
    ensures e.Pair? ==> SetLeft(e, Left(e)) == e && SetRight(e, Right(e)) == e
    ensures e.Pair? ==> Left(SetLeft(e, x)) == x && Right(SetLeft(e, x)) == Right(e)
    ensures e.Pair? ==> Right(SetRight(e, x)) == x && Left(SetRight(e, x)) == Left(e)
    ensures e.Value? ==> ValueOf(AddValue(e, v)) == ValueOf(e) + v && AddValue(e, 0) == e
  {
  }

  // ----- Layouts -----

  /** The storage links the indices of `c` as `c` arranges them. */
  predicate Holds(s: seq<Element>, c: Layout)
  {
    c.at < |s| &&
    match c
    case Leaf(a) => s[a].Value?
    case Node(a, l, r) => s[a] == Pair(l.at, r.at) && Holds(s, l) && Holds(s, r)
  }

  /** The snailfish number the storage holds along `c`. */
  function Shape(s: seq<Element>, c: Layout): Snail
    requires Holds(s, c)
  {
    match c
    case Leaf(a) => Regular(s[a].n)
    case Node(_, l, r) => Nest(Shape(s, l), Shape(s, r))
  }

  function Indices(c: Layout): set<nat>
  {
    match c
    case Leaf(a) => {a}
    case Node(a, l, r) => {a} + Indices(l) + Indices(r)
  }

  /** No index occurs twice in `c`. */
  predicate Distinct(c: Layout)
  {
    match c
    case Leaf(_) => true
    case Node(a, l, r) =>
      a !in Indices(l) && a !in Indices(r) && Indices(l) !! Indices(r) && Distinct(l) && Distinct(r)
  }

  /** The parent map sends both halves of every pair of `c` to the pair. */
  predicate Parents(parent: map<nat, nat>, c: Layout)
  {
    match c
    case Leaf(_) => true
    case Node(a, l, r) =>
      l.at in parent && parent[l.at] == a && r.at in parent && parent[r.at] == a &&
      Parents(parent, l) && Parents(parent, r)
  }

  /** A well-formed number: its storage, its parent map and its root agree with the layout `c`. */
  predicate Arena(s: seq<Element>, parent: map<nat, nat>, root: nat, c: Layout)
  {
    Holds(s, c) && Distinct(c) && c.at == root && root !in parent && Parents(parent, c) &&
    forall k :: k in parent ==> k < |s|
  }

  predicate OnLayout(c: Layout, p: Path)
    decreases |p|
  {
    p == [] || (c.Node? && OnLayout(if p[0] == GoLeft then c.l else c.r, p[1..]))
  }

  /** The part of `c` that `p` leads to (the last one reached when `p` runs off). */
  function Sub(c: Layout, p: Path): Layout
    decreases |p|
  {
    if p == [] || c.Leaf? then c else Sub(if p[0] == GoLeft then c.l else c.r, p[1..])
  }

  /** The indices of the regular numbers of `c`, left to right. */
  function LeafIdx(c: Layout): (r: seq<nat>)
    ensures r != []
  {
    match c
    case Leaf(a) => [a]
    case Node(_, l, r) => LeafIdx(l) + LeafIdx(r)
  }

  /** The indices of the regular numbers left of the part `p` leads to. */
  function LeftOf(c: Layout, p: Path): seq<nat>
    decreases |p|
  {
    if p == [] || c.Leaf? then []
    else if p[0] == GoLeft then LeftOf(c.l, p[1..])
    else LeafIdx(c.l) + LeftOf(c.r, p[1..])
  }

  /** The indices of the regular numbers right of the part `p` leads to. */
  function RightOf(c: Layout, p: Path): seq<nat>
    decreases |p|
  {
    if p == [] || c.Leaf? then []
    else if p[0] == GoLeft then RightOf(c.l, p[1..]) + LeafIdx(c.r)
    else RightOf(c.r, p[1..])
  }

  /** `c` with the part `p` leads to replaced by `x`. */
  function ReplaceLayout(c: Layout, p: Path, x: Layout): Layout
    decreases |p|
  {
    if p == [] then x
    else if c.Leaf? then c
    else if p[0] == GoLeft then Node(c.at, ReplaceLayout(c.l, p[1..], x), c.r)
    else Node(c.at, c.l, ReplaceLayout(c.r, p[1..], x))
  }

  /** `c` with every index moved up by `m`. */
  function ShiftLayout(c: Layout, m: nat): Layout
  {
    match c
    case Leaf(a) => Leaf(a + m)
    case Node(a, l, r) => Node(a + m, ShiftLayout(l, m), ShiftLayout(r, m))
  }

  /** An element with its indices moved up by `m`, as `add` moves the other number's pairs. */
  function ShiftElement(e: Element, m: nat): Element
  {
    match e
    case Pair(l, r) => Pair(l + m, r + m)
    case Value(_) => e
  }

  /** `Element::magnitude`: the magnitude of the number stored from index `i` along `c`. */
  function MagnitudeAt(s: seq<Element>, i: nat, ghost c: Layout): (r: nat)
    requires Holds(s, c) && c.at == i
    ensures r == Magnitude(Shape(s, c))
    decreases c
  {
    match s[i]
    case Value(n) => n
    case Pair(l, r) => 3 * MagnitudeAt(s, l, c.l) + 2 * MagnitudeAt(s, r, c.r)
  }

  // ----- Reading the tree off the storage -----

  /** Storage that agrees with `s` on the indices of `c` holds the same number along `c`. */
  lemma {:induction false} HoldsFrame(s: seq<Element>, s2: seq<Element>, c: Layout)
    requires Holds(s, c)
    requires forall i :: i in Indices(c) && i < |s| ==> i < |s2| && s2[i] == s[i]
    ensures Holds(s2, c) && Shape(s2, c) == Shape(s, c)
  {
    match c
    case Leaf(_) =>
    case Node(_, l, r) =>
      HoldsFrame(s, s2, l);
      HoldsFrame(s, s2, r);
  }

  /** Storage that only grows keeps every number it holds. */
  lemma HoldsGrow(s: seq<Element>, s2: seq<Element>, c: Layout)
    requires Holds(s, c) && |s| <= |s2| && s2[..|s|] == s
    ensures Holds(s2, c) && Shape(s2, c) == Shape(s, c)
  {
    forall i | i in Indices(c) && i < |s|
      ensures i < |s2| && s2[i] == s[i]
    {
      assert s2[..|s|][i] == s2[i];
    }
    HoldsFrame(s, s2, c);
  }

  /** The indices of a layout the storage holds are slots of the storage. */
  lemma {:induction false} IndicesBelow(s: seq<Element>, c: Layout)
    requires Holds(s, c)
    ensures forall i :: i in Indices(c) ==> i < |s|
  {
    match c
    case Leaf(_) =>
    case Node(_, l, r) =>
      IndicesBelow(s, l);
      IndicesBelow(s, r);
  }

  /** Paths through the layout are paths through the number, and lead to the part holding the same node. */
  lemma {:induction false} SubShape(s: seq<Element>, c: Layout, p: Path)
    requires Holds(s, c)
    ensures OnLayout(c, p) <==> OnPath(Shape(s, c), p)
    ensures Holds(s, Sub(c, p)) && Shape(s, Sub(c, p)) == At(Shape(s, c), p)
    decreases |p|
  {
    if p != [] && c.Node? {
      SubShape(s, if p[0] == GoLeft then c.l else c.r, p[1..]);
    }
  }

  lemma {:induction false} SubIndices(c: Layout, p: Path)
    ensures Indices(Sub(c, p)) <= Indices(c)
    decreases |p|
  {
    if p != [] && c.Node? {
      SubIndices(if p[0] == GoLeft then c.l else c.r, p[1..]);
    }
  }

  lemma {:induction false} SubDistinct(c: Layout, p: Path)
    requires Distinct(c)
    ensures Distinct(Sub(c, p))
    decreases |p|
  {
    if p != [] && c.Node? {
      SubDistinct(if p[0] == GoLeft then c.l else c.r, p[1..]);
    }
  }

  /** One more turn from a pair leads to that pair's half. */
  lemma {:induction false} SubTurn(c: Layout, q: Path, d: Turn)
    requires OnLayout(c, q) && Sub(c, q).Node?
    ensures OnLayout(c, q + [d])
    ensures Sub(c, q + [d]) == if d == GoLeft then Sub(c, q).l else Sub(c, q).r
    decreases |q|
  {
    if q != [] {
      assert (q + [d])[1..] == q[1..] + [d];
      SubTurn(if q[0] == GoLeft then c.l else c.r, q[1..], d);
    }
  }

  /** The parent map sends a node off the root to the node one turn above it. */
  lemma {:induction false} ParentOf(parent: map<nat, nat>, c: Layout, p: Path)
    requires Parents(parent, c) && OnLayout(c, p) && p != []
    ensures Sub(c, p).at in parent && parent[Sub(c, p).at] == Sub(c, p[..|p| - 1]).at
    decreases |p|
  {
    var h := if p[0] == GoLeft then c.l else c.r;
    if |p| > 1 {
      assert p[1..][..|p| - 2] == p[..|p| - 1][1..];
      ParentOf(parent, h, p[1..]);
    }
  }

  // ----- Regular numbers in order -----

  lemma {:induction false} LeafCount(s: seq<Element>, c: Layout)
    requires Holds(s, c)
    ensures |LeafIdx(c)| == |Leaves(Shape(s, c))|
    ensures forall i :: i in LeafIdx(c) ==> i in Indices(c) && i < |s| && s[i].Value?
  {
    match c
    case Leaf(_) =>
    case Node(_, l, r) =>
      LeafCount(s, l);
      LeafCount(s, r);
  }

  /** The leaf indices left of, under and right of a node make up all of them. */
  lemma {:induction false} LayoutAround(c: Layout, p: Path)
    requires OnLayout(c, p)
    ensures LeafIdx(c) == LeftOf(c, p) + LeafIdx(Sub(c, p)) + RightOf(c, p)
    decreases |p|
  {
    if p != [] {
      var h, q := if p[0] == GoLeft then c.l else c.r, p[1..];
      LayoutAround(h, q);
      assert Sub(c, p) == Sub(h, q) && LeafIdx(c) == LeafIdx(c.l) + LeafIdx(c.r);
      if p[0] == GoLeft {
        assert LeftOf(c, p) == LeftOf(h, q) && RightOf(c, p) == RightOf(h, q) + LeafIdx(c.r);
      } else {
        assert LeftOf(c, p) == LeafIdx(c.l) + LeftOf(h, q) && RightOf(c, p) == RightOf(h, q);
      }
    }
  }

  /** As many leaf indices lie left of a node as regular numbers do. */
  lemma {:induction false} LeftOfCount(s: seq<Element>, c: Layout, p: Path)
    requires Holds(s, c)
    ensures |LeftOf(c, p)| == |LeftLeaves(Shape(s, c), p)|
    decreases |p|
  {
    if p != [] && c.Node? {
      LeftOfCount(s, if p[0] == GoLeft then c.l else c.r, p[1..]);
      LeafCount(s, c.l);
    }
  }

  /** A turn left adds nothing on the left; a turn right adds the left half's numbers. */
  lemma {:induction false} LeftOfTurn(c: Layout, q: Path, d: Turn)
    requires OnLayout(c, q) && Sub(c, q).Node?
    ensures LeftOf(c, q + [d]) == LeftOf(c, q) + if d == GoLeft then [] else LeafIdx(Sub(c, q).l)
    decreases |q|
  {
    if q != [] {
      assert (q + [d])[1..] == q[1..] + [d];
      LeftOfTurn(if q[0] == GoLeft then c.l else c.r, q[1..], d);
    }
  }

  /** A turn right adds nothing on the right; a turn left adds the right half's numbers. */
  lemma {:induction false} RightOfTurn(c: Layout, q: Path, d: Turn)
    requires OnLayout(c, q) && Sub(c, q).Node?
    ensures RightOf(c, q + [d]) == (if d == GoRight then [] else LeafIdx(Sub(c, q).r)) + RightOf(c, q)
    decreases |q|
  {
    if q != [] {
      assert (q + [d])[1..] == q[1..] + [d];
      RightOfTurn(if q[0] == GoLeft then c.l else c.r, q[1..], d);
    }
  }

  /**
   * Adding to the value at the `j`-th leaf index adds to the `j`-th regular
   * number and to nothing else.
   */
  lemma {:induction false} BumpStore(s: seq<Element>, c: Layout, j: nat, v: nat, s2: seq<Element>)
    requires Holds(s, c) && Distinct(c) && j < |LeafIdx(c)|
    requires LeafIdx(c)[j] < |s| && s[LeafIdx(c)[j]].Value?
    requires s2 == s[LeafIdx(c)[j] := Value(s[LeafIdx(c)[j]].n + v)]
    ensures Holds(s2, c) && Shape(s2, c) == Bump(Shape(s, c), j, v)
    decreases c, 1
  {
    match c
    case Leaf(_) =>
    case Node(a, l, r) =>
      LeafCount(s, l);
      if j < |LeafIdx(l)| {
        BumpStoreLeft(s, c, j, v, s2);
      } else {
        BumpStoreRight(s, c, j, v, s2);
      }
  }

  lemma {:induction false} BumpStoreLeft(s: seq<Element>, c: Layout, j: nat, v: nat, s2: seq<Element>)
    requires Holds(s, c) && Distinct(c) && c.Node? && j < |LeafIdx(c.l)|
    requires LeafIdx(c)[j] < |s| && s[LeafIdx(c)[j]].Value?
    requires s2 == s[LeafIdx(c)[j] := Value(s[LeafIdx(c)[j]].n + v)]
    ensures Holds(s2, c) && Shape(s2, c) == Nest(Bump(Shape(s, c.l), j, v), Shape(s, c.r))
    decreases c, 0
  {
    var k := LeafIdx(c)[j];
    LeafCount(s, c.l);
    assert k == LeafIdx(c.l)[j] && k in Indices(c.l);
    BumpStore(s, c.l, j, v, s2);
    HoldsFrame(s, s2, c.r);
  }

  lemma {:induction false} BumpStoreRight(s: seq<Element>, c: Layout, j: nat, v: nat, s2: seq<Element>)
    requires Holds(s, c) && Distinct(c) && c.Node? && |LeafIdx(c.l)| <= j < |LeafIdx(c)|
    requires LeafIdx(c)[j] < |s| && s[LeafIdx(c)[j]].Value?
    requires s2 == s[LeafIdx(c)[j] := Value(s[LeafIdx(c)[j]].n + v)]
    ensures Holds(s2, c) && Shape(s2, c) == Nest(Shape(s, c.l), Bump(Shape(s, c.r), j - |LeafIdx(c.l)|, v))
    decreases c, 0
  {
    var k := LeafIdx(c)[j];
    LeafCount(s, c.r);
    assert k == LeafIdx(c.r)[j - |LeafIdx(c.l)|] && k in Indices(c.r);
    BumpStore(s, c.r, j - |LeafIdx(c.l)|, v, s2);
    HoldsFrame(s, s2, c.l);
  }

  // ----- Redirecting a child link -----

  /**
   * Pointing the pair above the node `p` leads to at the new part `x`, and
   * leaving every other slot of `c` alone, holds `c` with `x` in place of that
   * node.
   */
  lemma {:induction false} Relink(s: seq<Element>, s2: seq<Element>, c: Layout, p: Path, x: Layout)
    requires Holds(s, c) && Distinct(c) && OnLayout(c, p) && p != [] && Holds(s2, x)
    requires var up := Sub(c, p[..|p| - 1]).at;
      up < |s| && s[up].Pair? && up < |s2| &&
      s2[up] == (if p[|p| - 1] == GoLeft then SetLeft(s[up], x.at) else SetRight(s[up], x.at)) &&
      forall i :: i in Indices(c) && i != up && i < |s| ==> i < |s2| && s2[i] == s[i]
    ensures Holds(s2, ReplaceLayout(c, p, x))
    ensures Shape(s2, ReplaceLayout(c, p, x)) == ReplaceAt(Shape(s, c), p, Shape(s2, x))
    decreases |p|
  {
    var up := Sub(c, p[..|p| - 1]).at;
    var h, q := if p[0] == GoLeft then c.l else c.r, p[1..];
    var o := if p[0] == GoLeft then c.r else c.l;
    if q == [] {
      assert up == c.at;
    } else {
      assert q[..|q| - 1] == p[..|p| - 1][1..];
      SubIndices(h, q[..|q| - 1]);
      Relink(s, s2, h, q, x);
      assert up != c.at;
    }
    HoldsFrame(s, s2, o);
  }

  /** Replacing a part by one with fresh indices keeps the indices distinct. */
  lemma {:induction false} ReplaceDistinct(c: Layout, p: Path, x: Layout)
    requires Distinct(c) && Distinct(x) && Indices(c) !! Indices(x)
    ensures Indices(ReplaceLayout(c, p, x)) <= Indices(c) + Indices(x)
    ensures Distinct(ReplaceLayout(c, p, x))
    ensures p != [] ==> ReplaceLayout(c, p, x).at == c.at
    decreases |p|
  {
    if p != [] && c.Node? {
      ReplaceDistinct(if p[0] == GoLeft then c.l else c.r, p[1..], x);
    }
  }

  /**
   * The parent links of `c` with the node `p` leads to replaced by `x` hold once
   * `x`'s own links hold and `x`'s top points at the pair above the node.
   */
  lemma {:induction false} ReplaceParents(parent: map<nat, nat>, parent2: map<nat, nat>, c: Layout, p: Path, x: Layout)
    requires Parents(parent, c) && Parents(parent2, x) && OnLayout(c, p) && p != []
    requires x.at in parent2 && parent2[x.at] == Sub(c, p[..|p| - 1]).at
    requires forall i :: i in Indices(c) && i in parent ==> i in parent2 && parent2[i] == parent[i]
    ensures Parents(parent2, ReplaceLayout(c, p, x))
    decreases |p|
  {
    var h, q := if p[0] == GoLeft then c.l else c.r, p[1..];
    if q != [] {
      assert q[..|q| - 1] == p[..|p| - 1][1..];
      ReplaceParents(parent, parent2, h, q, x);
    }
    ParentsFrame(parent, parent2, c.l);
    ParentsFrame(parent, parent2, c.r);
  }

  lemma {:induction false} ParentsFrame(parent: map<nat, nat>, parent2: map<nat, nat>, c: Layout)
    requires Parents(parent, c)
    requires forall i :: i in Indices(c) && i in parent ==> i in parent2 && parent2[i] == parent[i]
    ensures Parents(parent2, c)
  {
    match c
    case Leaf(_) =>
    case Node(_, l, r) =>
      ParentsFrame(parent, parent2, l);
      ParentsFrame(parent, parent2, r);
  }

  /** The replacement sits where it was put. */
  lemma {:induction false} SubReplaced(c: Layout, p: Path, x: Layout)
    requires OnLayout(c, p)
    ensures Sub(ReplaceLayout(c, p, x), p) == x && OnLayout(ReplaceLayout(c, p, x), p)
    decreases |p|
  {
    if p != [] {
      SubReplaced(if p[0] == GoLeft then c.l else c.r, p[1..], x);
    }
  }

  /** Parts right of the replaced one are untouched. */
  lemma {:induction false} SubApart(c: Layout, p: Path, x: Layout, q: Path)
    requires Precedes(p, q)
    ensures Sub(ReplaceLayout(c, p, x), q) == Sub(c, q)
    decreases |p|
  {
    if c.Node? && p[0] == q[0] {
      SubApart(if p[0] == GoLeft then c.l else c.r, p[1..], x, q[1..]);
    }
  }

  // ----- Moving a number up the arena -----

  /** A number copied `m` slots up, with its pairs' indices moved along, is held along the moved layout. */
  lemma {:induction false} HoldsShift(s: seq<Element>, s2: seq<Element>, c: Layout, m: nat)
    requires Holds(s, c)
    requires |s| + m <= |s2| && forall i :: 0 <= i < |s| ==> s2[i + m] == ShiftElement(s[i], m)
    ensures Holds(s2, ShiftLayout(c, m)) && Shape(s2, ShiftLayout(c, m)) == Shape(s, c)
    ensures ShiftLayout(c, m).at == c.at + m
  {
    match c
    case Leaf(a) =>
      assert s2[a + m] == ShiftElement(s[a], m);
    case Node(a, l, r) =>
      assert s2[a + m] == ShiftElement(s[a], m);
      HoldsShift(s, s2, l, m);
      HoldsShift(s, s2, r, m);
  }

  lemma {:induction false} ShiftIndices(c: Layout, m: nat)
    ensures forall i :: i in Indices(ShiftLayout(c, m)) <==> m <= i && i - m in Indices(c)
  {
    match c
    case Leaf(_) =>
    case Node(_, l, r) =>
      ShiftIndices(l, m);
      ShiftIndices(r, m);
  }

  lemma {:induction false} ShiftDistinct(c: Layout, m: nat)
    requires Distinct(c)
    ensures Distinct(ShiftLayout(c, m))
  {
    match c
    case Leaf(_) =>
    case Node(_, l, r) =>
      ShiftIndices(l, m);
      ShiftIndices(r, m);
      ShiftDistinct(l, m);
      ShiftDistinct(r, m);
  }

  /** The parent links moved up by `m` are the moved layout's links. */
  lemma {:induction false} ParentsShift(parent: map<nat, nat>, parent2: map<nat, nat>, c: Layout, m: nat)
    requires Parents(parent, c)
    requires forall k :: k in parent ==> k + m in parent2 && parent2[k + m] == parent[k] + m
    ensures Parents(parent2, ShiftLayout(c, m))
  {
    match c
    case Leaf(_) =>
    case Node(_, l, r) =>
      ParentsShift(parent, parent2, l, m);
      ParentsShift(parent, parent2, r, m);
  }
}
