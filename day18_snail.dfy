/**
 * Snailfish numbers (day 18) as trees: the number an arena of
 * day18/src/main.rs stands for, the puzzle's reduction rules on it, and the
 * facts the arena operations are proved against.
 */
module Day18Snail {
  import opened Common

  /** A snailfish number: a regular number or a pair of numbers. */
  datatype Snail = Regular(n: nat) | Nest(l: Snail, r: Snail)

  /** One step down from a pair, into its left or its right half. */
  datatype Turn = GoLeft | GoRight

  /** The way from the root to a node; its length is the node's depth. */
  type Path = seq<Turn>

  function Half(t: Snail, d: Turn): Snail
    requires t.Nest?
  {
    if d == GoLeft then t.l else t.r
  }

  /** `p` leads from the root of `t` to one of its nodes. */
  predicate OnPath(t: Snail, p: Path)
    decreases |p|
  {
    p == [] || (t.Nest? && OnPath(Half(t, p[0]), p[1..]))
  }

  /** The node `p` leads to (the last node reached when `p` runs off the tree). */
  function At(t: Snail, p: Path): Snail
    decreases |p|
  {
    if p == [] || t.Regular? then t else At(Half(t, p[0]), p[1..])
  }

  /** The regular numbers of `t`, left to right. */
  function Leaves(t: Snail): seq<nat>
  {
    match t
    case Regular(n) => [n]
    case Nest(l, r) => Leaves(l) + Leaves(r)
  }

  /** The regular numbers left of the node `p` leads to, in order. */
  function LeftLeaves(t: Snail, p: Path): seq<nat>
    decreases |p|
  {
    if p == [] || t.Regular? then []
    else if p[0] == GoLeft then LeftLeaves(t.l, p[1..])
    else Leaves(t.l) + LeftLeaves(t.r, p[1..])
  }

  /** The regular numbers right of the node `p` leads to, in order. */
  function RightLeaves(t: Snail, p: Path): seq<nat>
    decreases |p|
  {
    if p == [] || t.Regular? then []
    else if p[0] == GoLeft then RightLeaves(t.l, p[1..]) + Leaves(t.r)
    else RightLeaves(t.r, p[1..])
  }

  /** `t` with the node `p` leads to replaced by `u`. */
  function ReplaceAt(t: Snail, p: Path, u: Snail): Snail
    decreases |p|
  {
    if p == [] then u
    else if t.Regular? then t
    else if p[0] == GoLeft then Nest(ReplaceAt(t.l, p[1..], u), t.r)
    else Nest(t.l, ReplaceAt(t.r, p[1..], u))
  }

  /** `t` with `v` added to its regular number number `k`, counting from 0 on the left; `t` when there is none. */
  function Bump(t: Snail, k: nat, v: nat): Snail
  {
    match t
    case Regular(n) => if k == 0 then Regular(n + v) else t
    case Nest(l, r) =>
      if k < |Leaves(l)| then Nest(Bump(l, k, v), r) else Nest(l, Bump(r, k - |Leaves(l)|, v))
  }

  /** The magnitude: a regular number is its own, a pair three times its left plus twice its right. */
  function Magnitude(t: Snail): nat
  {
    match t
    case Regular(n) => n
    case Nest(l, r) => 3 * Magnitude(l) + 2 * Magnitude(r)
  }

  /** How many pairs the most deeply nested regular number sits in. */
  function Depth(t: Snail): nat
  {
    match t
    case Regular(_) => 0
    case Nest(l, r) => 1 + Max(Depth(l), Depth(r))
  }

  /** Every regular number of `t` is a single digit. */
  predicate Small(t: Snail)
  {
    match t
    case Regular(n) => n <= 9
    case Nest(l, r) => Small(l) && Small(r)
  }

  /** The puzzle's reduced numbers: no pair inside four pairs, no regular number above 9. */
  predicate Reduced(t: Snail)
  {
    Depth(t) <= 4 && Small(t)
  }

  /** A pair of two regular numbers, the only kind the puzzle explodes. */
  predicate Explodes(t: Snail)
  {
    t.Nest? && t.l.Regular? && t.r.Regular?
  }

  function Under(d: Turn, ps: seq<Path>): seq<Path>
  {
    seq(|ps|, k requires 0 <= k < |ps| => [d] + ps[k])
  }

  /**
   * The paths to the pairs of `t` that sit inside exactly four pairs, when `t`
   * itself sits inside `d`, left to right.
   */
  function Nested(t: Snail, d: nat): seq<Path>
  {
    match t
    case Regular(_) => []
    case Nest(l, r) =>
      if d == 4 then [[]] else Under(GoLeft, Nested(l, d + 1)) + Under(GoRight, Nested(r, d + 1))
  }

  /** `p` leads to a node left of the one `q` leads to: they part with `p` turning left. */
  predicate Precedes(p: Path, q: Path)
    decreases |p|
  {
    p != [] && q != [] &&
    ((p[0] == GoLeft && q[0] == GoRight) || (p[0] == q[0] && Precedes(p[1..], q[1..])))
  }

  /** The path to the leftmost regular number above 9. */
  function FirstBig(t: Snail): (r: Option<Path>)
    ensures r.Some? ==> OnPath(t, r.value) && At(t, r.value).Regular? && At(t, r.value).n > 9
    ensures r.Some? && t.Nest? ==> r.value != []
  {
    match t
    case Regular(n) => if n > 9 then Some([]) else None
    case Nest(l, r) =>
      match FirstBig(l)
      case Some(p) =>
        assert ([GoLeft] + p)[1..] == p;
        Some([GoLeft] + p)
      case None =>
        match FirstBig(r)
        case Some(p) =>
          assert ([GoRight] + p)[1..] == p;
          Some([GoRight] + p)
        case None => None
  }

  /**
   * The puzzle's explosion of the pair `p` leads to: its left value is added to
   * the nearest regular number on its left, its right value to the nearest on
   * its right, and the pair becomes the regular number 0.
   */
  function Explode(t: Snail, p: Path): Snail
    requires Explodes(At(t, p))
  {
    ReplaceAt(Bumped(t, p), p, Regular(0))
  }

  /** `t` with the values of the pair `p` leads to added to its neighbours, before the pair itself goes. */
  function Bumped(t: Snail, p: Path): Snail
    requires Explodes(At(t, p))
  {
    var pair := At(t, p);
    var s := |LeftLeaves(t, p)|;
    Bump(if s == 0 then t else Bump(t, s - 1, pair.l.n), s + 2, pair.r.n)
  }

  /** The split of the regular number `p` leads to into a pair of its halves, rounded down and up. */
  function Split(t: Snail, p: Path): Snail
    requires OnPath(t, p) && At(t, p).Regular?
  {
    var v := At(t, p).n;
    ReplaceAt(t, p, Nest(Regular(v / 2), Regular(v / 2 + if v % 2 == 0 then 0 else 1)))
  }

  /**
   * One reduction action: explode the leftmost pair inside four pairs, or if
   * there is none split the leftmost regular number above 9; None when neither
   * applies or the pair to explode does not hold two regular numbers.
   */
  function Step(t: Snail): Option<Snail>
  {
    var deep := Nested(t, 0);
    if deep != [] then
      if Explodes(At(t, deep[0])) then Some(Explode(t, deep[0])) else None
    else
      match FirstBig(t)
      case Some(p) => Some(Split(t, p))
      case None => None
  }

  /** The number after `k` reduction actions, None when an action does not apply on the way. */
  function Iterate(t: Snail, k: nat): Option<Snail>
    decreases k
  {
    if k == 0 then Some(t)
    else
      match Step(t)
      case None => None
      case Some(u) => Iterate(u, k - 1)
  }

  // ----- Paths and the pairs `reduce` queues -----

  lemma UnderIn(d: Turn, ps: seq<Path>, p: Path)
    ensures p in Under(d, ps) <==> (p != [] && p[0] == d && p[1..] in ps)
  {
    if p in Under(d, ps) {
      var k :| 0 <= k < |ps| && Under(d, ps)[k] == p;
      assert p[1..] == ps[k];
    }
    if p != [] && p[0] == d && p[1..] in ps {
      var k :| 0 <= k < |ps| && ps[k] == p[1..];
      assert Under(d, ps)[k] == p;
    }
  }

  /** The queued paths are exactly the paths to the pairs inside exactly four pairs. */
  lemma {:induction false} NestedIff(t: Snail, d: nat, p: Path)
    requires d <= 4
    ensures p in Nested(t, d) <==> (OnPath(t, p) && |p| + d == 4 && At(t, p).Nest?)
  {
    match t
    case Regular(_) =>
    case Nest(l, r) =>
      if d < 4 {
        UnderIn(GoLeft, Nested(l, d + 1), p);
        UnderIn(GoRight, Nested(r, d + 1), p);
        if p != [] {
          NestedIff(Half(t, p[0]), d + 1, p[1..]);
        }
      }
  }

  lemma UnderPrecedes(d: Turn, p: Path, q: Path)
    requires Precedes(p, q)
    ensures Precedes([d] + p, [d] + q)
  {
    assert ([d] + p)[1..] == p;
    assert ([d] + q)[1..] == q;
  }

  /** The queued paths run from left to right. */
  lemma {:induction false} NestedSorted(t: Snail, d: nat)
    ensures forall i, j :: 0 <= i < j < |Nested(t, d)| ==> Precedes(Nested(t, d)[i], Nested(t, d)[j])
  {
    match t
    case Regular(_) =>
    case Nest(l, r) =>
      if d != 4 {
        var a := Nested(l, d + 1);
        var b := Nested(r, d + 1);
        NestedSorted(l, d + 1);
        NestedSorted(r, d + 1);
        var ns := Under(GoLeft, a) + Under(GoRight, b);
        forall i, j | 0 <= i < j < |ns|
          ensures Precedes(ns[i], ns[j])
        {
          if j < |a| {
            UnderPrecedes(GoLeft, a[i], a[j]);
          } else if |a| <= i {
            UnderPrecedes(GoRight, b[i - |a|], b[j - |a|]);
          }
        }
      }
  }

  /** Nothing is queued exactly when no pair sits inside four pairs. */
  lemma {:induction false} NestedEmpty(t: Snail, d: nat)
    requires d <= 4
    ensures Nested(t, d) == [] <==> Depth(t) + d <= 4
  {
    match t
    case Regular(_) =>
    case Nest(l, r) =>
      if d < 4 {
        NestedEmpty(l, d + 1);
        NestedEmpty(r, d + 1);
      }
  }

  /** When no regular number sits inside more than five pairs, every queued pair holds two regular numbers. */
  lemma {:induction false} NestedExplodes(t: Snail, d: nat, p: Path)
    requires d <= 4 && Depth(t) + d <= 5 && p in Nested(t, d)
    ensures Explodes(At(t, p))
  {
    match t
    case Nest(l, r) =>
      if d < 4 {
        UnderIn(GoLeft, Nested(l, d + 1), p);
        UnderIn(GoRight, Nested(r, d + 1), p);
        NestedExplodes(Half(t, p[0]), d + 1, p[1..]);
      }
  }

  /** A node `p` leads to sits inside |p| pairs, below which its own nesting adds up to at most the depth. */
  lemma {:induction false} PathDepth(t: Snail, p: Path)
    requires OnPath(t, p)
    ensures |p| + Depth(At(t, p)) <= Depth(t)
    decreases |p|
  {
    if p != [] {
      PathDepth(Half(t, p[0]), p[1..]);
    }
  }

  // ----- Regular numbers in order -----

  /** The regular numbers of `t` are those left of the node `p` leads to, the node's own and those right of it. */
  lemma {:induction false} LeavesAround(t: Snail, p: Path)
    requires OnPath(t, p)
    ensures Leaves(t) == LeftLeaves(t, p) + Leaves(At(t, p)) + RightLeaves(t, p)
    decreases |p|
  {
    if p != [] {
      var c, q := Half(t, p[0]), p[1..];
      LeavesAround(c, q);
      assert At(t, p) == At(c, q) && Leaves(t) == Leaves(t.l) + Leaves(t.r);
      if p[0] == GoLeft {
        assert LeftLeaves(t, p) == LeftLeaves(c, q) && RightLeaves(t, p) == RightLeaves(c, q) + Leaves(t.r);
      } else {
        assert LeftLeaves(t, p) == Leaves(t.l) + LeftLeaves(c, q) && RightLeaves(t, p) == RightLeaves(c, q);
      }
    }
  }

  /** Replacing a node splices the new node's regular numbers in place of the old one's. */
  lemma {:induction false} ReplaceLeaves(t: Snail, p: Path, u: Snail)
    requires OnPath(t, p)
    ensures Leaves(ReplaceAt(t, p, u)) == LeftLeaves(t, p) + Leaves(u) + RightLeaves(t, p)
    decreases |p|
  {
    if p != [] {
      var c, q := Half(t, p[0]), p[1..];
      ReplaceLeaves(c, q, u);
      if p[0] == GoLeft {
        assert ReplaceAt(t, p, u) == Nest(ReplaceAt(c, q, u), t.r);
        assert LeftLeaves(t, p) == LeftLeaves(c, q) && RightLeaves(t, p) == RightLeaves(c, q) + Leaves(t.r);
      } else {
        assert ReplaceAt(t, p, u) == Nest(t.l, ReplaceAt(c, q, u));
        assert LeftLeaves(t, p) == Leaves(t.l) + LeftLeaves(c, q) && RightLeaves(t, p) == RightLeaves(c, q);
      }
    }
  }

  /** `Bump` adds to exactly one regular number, when there is one at that place. */
  lemma {:induction false} BumpLeaves(t: Snail, k: nat, v: nat)
    ensures Leaves(Bump(t, k, v)) == if k < |Leaves(t)| then Leaves(t)[k := Leaves(t)[k] + v] else Leaves(t)
  {
    match t
    case Regular(_) =>
    case Nest(l, r) =>
      BumpLeaves(l, k, v);
      if k >= |Leaves(l)| {
        BumpLeaves(r, k - |Leaves(l)|, v);
      }
  }

  /** With no regular number at that place, `Bump` changes nothing. */
  lemma {:induction false} BumpBeyond(t: Snail, k: nat, v: nat)
    requires k >= |Leaves(t)|
    ensures Bump(t, k, v) == t
  {
    match t
    case Regular(_) =>
    case Nest(l, r) =>
      BumpBeyond(r, k - |Leaves(l)|, v);
  }

  /** `Bump` leaves the shape alone: the same paths and as many regular numbers left of and below each node. */
  lemma {:induction false} BumpShape(t: Snail, k: nat, v: nat, p: Path)
    requires OnPath(t, p)
    ensures OnPath(Bump(t, k, v), p) && |LeftLeaves(Bump(t, k, v), p)| == |LeftLeaves(t, p)|
    ensures |Leaves(At(Bump(t, k, v), p))| == |Leaves(At(t, p))|
    decreases |p|
  {
    BumpLeaves(t, k, v);
    if p != [] {
      BumpLeaves(t.l, k, v);
      if p[0] == GoLeft && k < |Leaves(t.l)| {
        BumpShape(t.l, k, v, p[1..]);
      } else if p[0] == GoRight && k >= |Leaves(t.l)| {
        BumpShape(t.r, k - |Leaves(t.l)|, v, p[1..]);
      }
    }
  }

  lemma {:induction false} BumpNested(t: Snail, k: nat, v: nat, d: nat)
    ensures Nested(Bump(t, k, v), d) == Nested(t, d) && Depth(Bump(t, k, v)) == Depth(t)
  {
    match t
    case Regular(_) =>
    case Nest(l, r) =>
      BumpNested(l, k, v, d + 1);
      if k >= |Leaves(l)| {
        BumpNested(r, k - |Leaves(l)|, v, d + 1);
      }
  }

  /** `xs` with `v` added to its last element, if any. */
  function AddLast(xs: seq<nat>, v: nat): seq<nat>
  {
    if xs == [] then [] else xs[..|xs| - 1] + [xs[|xs| - 1] + v]
  }

  /** `xs` with `v` added to its first element, if any. */
  function AddFirst(xs: seq<nat>, v: nat): seq<nat>
  {
    if xs == [] then [] else [xs[0] + v] + xs[1..]
  }

  lemma SameCut(x1: seq<nat>, y1: seq<nat>, z1: seq<nat>, x2: seq<nat>, y2: seq<nat>, z2: seq<nat>)
    requires x1 + y1 + z1 == x2 + y2 + z2 && |x1| == |x2| && |y1| == |y2|
    ensures x1 == x2 && y1 == y2 && z1 == z2
  {
    var w := x1 + y1 + z1;
    assert x1 == w[..|x1|] == x2;
    assert y1 == w[|x1|..|x1| + |y1|] == y2;
    assert z1 == w[|x1| + |y1|..] == z2;
  }

  lemma BumpLast(xs: seq<nat>, ys: seq<nat>, zs: seq<nat>, v: nat)
    requires xs != []
    ensures (xs + ys + zs)[|xs| - 1 := (xs + ys + zs)[|xs| - 1] + v] == AddLast(xs, v) + ys + zs
  {
  }

  lemma BumpFirst(xs: seq<nat>, ys: seq<nat>, zs: seq<nat>, v: nat)
    ensures |AddFirst(zs, v)| == |zs|
    ensures (if |xs| + |ys| < |xs + ys + zs|
      then (xs + ys + zs)[|xs| + |ys| := (xs + ys + zs)[|xs| + |ys|] + v]
      else xs + ys + zs) == xs + ys + AddFirst(zs, v)
  {
  }

  lemma BumpLastLeaves(t: Snail, p: Path, v: nat)
    requires OnPath(t, p) && LeftLeaves(t, p) != []
    ensures Leaves(Bump(t, |LeftLeaves(t, p)| - 1, v))
      == AddLast(LeftLeaves(t, p), v) + Leaves(At(t, p)) + RightLeaves(t, p)
  {
    var xs, ys, zs := LeftLeaves(t, p), Leaves(At(t, p)), RightLeaves(t, p);
    LeavesAround(t, p);
    assert Leaves(t) == xs + ys + zs;
    BumpLeaves(t, |xs| - 1, v);
    BumpLast(xs, ys, zs, v);
  }

  lemma BumpFirstLeaves(t: Snail, p: Path, v: nat)
    requires OnPath(t, p)
    ensures Leaves(Bump(t, |LeftLeaves(t, p)| + |Leaves(At(t, p))|, v))
      == LeftLeaves(t, p) + Leaves(At(t, p)) + AddFirst(RightLeaves(t, p), v)
  {
    var xs, ys, zs := LeftLeaves(t, p), Leaves(At(t, p)), RightLeaves(t, p);
    LeavesAround(t, p);
    assert Leaves(t) == xs + ys + zs;
    BumpLeaves(t, |xs| + |ys|, v);
    BumpFirst(xs, ys, zs, v);
  }

  /** Adding to the nearest regular number on the left of a node changes only that number. */
  lemma BumpBefore(t: Snail, p: Path, v: nat, u: Snail)
    requires OnPath(t, p) && LeftLeaves(t, p) != [] && u == Bump(t, |LeftLeaves(t, p)| - 1, v)
    ensures OnPath(u, p) && LeftLeaves(u, p) == AddLast(LeftLeaves(t, p), v)
    ensures Leaves(At(u, p)) == Leaves(At(t, p)) && RightLeaves(u, p) == RightLeaves(t, p)
  {
    BumpLastLeaves(t, p, v);
    BumpShape(t, |LeftLeaves(t, p)| - 1, v, p);
    LeavesAround(u, p);
    SameCut(LeftLeaves(u, p), Leaves(At(u, p)), RightLeaves(u, p),
      AddLast(LeftLeaves(t, p), v), Leaves(At(t, p)), RightLeaves(t, p));
  }

  /** Adding to the nearest regular number on the right of a node changes only that number. */
  lemma BumpAfter(t: Snail, p: Path, v: nat, u: Snail)
    requires OnPath(t, p) && u == Bump(t, |LeftLeaves(t, p)| + |Leaves(At(t, p))|, v)
    ensures OnPath(u, p) && LeftLeaves(u, p) == LeftLeaves(t, p)
    ensures Leaves(At(u, p)) == Leaves(At(t, p)) && RightLeaves(u, p) == AddFirst(RightLeaves(t, p), v)
  {
    BumpFirstLeaves(t, p, v);
    BumpShape(t, |LeftLeaves(t, p)| + |Leaves(At(t, p))|, v, p);
    LeavesAround(u, p);
    SameCut(LeftLeaves(u, p), Leaves(At(u, p)), RightLeaves(u, p),
      LeftLeaves(t, p), Leaves(At(t, p)), AddFirst(RightLeaves(t, p), v));
  }

  /** Before the pair goes, its neighbours have gained its values and nothing else has changed. */
  lemma BumpedLeaves(t: Snail, p: Path)
    requires Explodes(At(t, p))
    ensures OnPath(Bumped(t, p), p) && Leaves(At(Bumped(t, p), p)) == Leaves(At(t, p))
    ensures LeftLeaves(Bumped(t, p), p) == AddLast(LeftLeaves(t, p), At(t, p).l.n)
    ensures RightLeaves(Bumped(t, p), p) == AddFirst(RightLeaves(t, p), At(t, p).r.n)
  {
    var pair := At(t, p);
    var xs := LeftLeaves(t, p);
    AtOnPath(t, p);
    assert Leaves(pair) == [pair.l.n, pair.r.n];
    var t1 := if xs == [] then t else Bump(t, |xs| - 1, pair.l.n);
    if xs != [] {
      BumpBefore(t, p, pair.l.n, t1);
    }
    assert |LeftLeaves(t1, p)| == |xs| && |Leaves(At(t1, p))| == 2;
    BumpAfter(t1, p, pair.r.n, Bumped(t, p));
  }

  /**
   * What an explosion does to the regular numbers, in order: the pair's two
   * values give way to a single 0, the nearest number on the left gains the
   * left value and the nearest on the right gains the right value.
   */
  lemma ExplodeLeaves(t: Snail, p: Path)
    requires Explodes(At(t, p))
    ensures Leaves(t) == LeftLeaves(t, p) + [At(t, p).l.n, At(t, p).r.n] + RightLeaves(t, p)
    ensures Leaves(Explode(t, p))
      == AddLast(LeftLeaves(t, p), At(t, p).l.n) + [0] + AddFirst(RightLeaves(t, p), At(t, p).r.n)
  {
    AtOnPath(t, p);
    LeavesAround(t, p);
    assert Leaves(At(t, p)) == [At(t, p).l.n, At(t, p).r.n];
    BumpedLeaves(t, p);
    ReplaceLeaves(Bumped(t, p), p, Regular(0));
  }

  /** A pair of two regular numbers is only reached on a path through the tree. */
  lemma {:induction false} AtOnPath(t: Snail, p: Path)
    requires At(t, p).Nest?
    ensures OnPath(t, p)
    decreases |p|
  {
    if p != [] {
      AtOnPath(Half(t, p[0]), p[1..]);
    }
  }

  /** The two halves of a split: rounded down and rounded up, adding up to the number. */
  lemma Halves(v: nat)
    ensures v / 2 + (if v % 2 == 0 then 0 else 1) == v - v / 2
  {
  }

  /** What a split does to the regular numbers, in order: the number gives way to its halves. */
  lemma SplitLeaves(t: Snail, p: Path)
    requires OnPath(t, p) && At(t, p).Regular?
    ensures Leaves(t) == LeftLeaves(t, p) + [At(t, p).n] + RightLeaves(t, p)
    ensures Leaves(Split(t, p)) == LeftLeaves(t, p) + [At(t, p).n / 2, At(t, p).n - At(t, p).n / 2] + RightLeaves(t, p)
  {
    var v := At(t, p).n;
    LeavesAround(t, p);
    var pair := Nest(Regular(v / 2), Regular(v / 2 + if v % 2 == 0 then 0 else 1));
    Halves(v);
    assert Leaves(pair) == [v / 2, v - v / 2];
    ReplaceLeaves(t, p, pair);
  }

  // ----- How explosions and splits change the queue, and the reduction as a whole -----

  /** Turning the leftmost queued pair into a regular number drops it from the queue and leaves the rest. */
  lemma {:induction false} ReplaceNested(t: Snail, d: nat, p: Path, x: nat)
    requires Nested(t, d) != [] && Nested(t, d)[0] == p
    ensures Nested(ReplaceAt(t, p, Regular(x)), d) == Nested(t, d)[1..]
  {
    match t
    case Nest(l, r) =>
      if d != 4 {
        var a, b := Nested(l, d + 1), Nested(r, d + 1);
        if a != [] {
          assert p == [GoLeft] + a[0] && p[1..] == a[0];
          ReplaceNested(l, d + 1, a[0], x);
          assert ReplaceAt(t, p, Regular(x)) == Nest(ReplaceAt(l, a[0], Regular(x)), r);
          assert Under(GoLeft, a)[1..] == Under(GoLeft, a[1..]);
        } else {
          assert Nested(t, d) == Under(GoRight, b);
          assert p == [GoRight] + b[0] && p[1..] == b[0];
          ReplaceNested(r, d + 1, b[0], x);
          assert ReplaceAt(t, p, Regular(x)) == Nest(l, ReplaceAt(r, b[0], Regular(x)));
          assert Under(GoRight, b)[1..] == Under(GoRight, b[1..]);
        }
      }
  }

  /** Replacing a node nests the new one as deep as the old one sat. */
  lemma {:induction false} DepthReplace(t: Snail, p: Path, u: Snail)
    requires OnPath(t, p)
    ensures Depth(ReplaceAt(t, p, u)) <= Max(Depth(t), |p| + Depth(u))
    decreases |p|
  {
    if p != [] {
      DepthReplace(Half(t, p[0]), p[1..], u);
    }
  }

  /** Exploding the leftmost queued pair drops it from the queue, keeps the rest and nests nothing deeper. */
  lemma ExplodeNested(t: Snail)
    requires Nested(t, 0) != [] && Explodes(At(t, Nested(t, 0)[0]))
    ensures Nested(Explode(t, Nested(t, 0)[0]), 0) == Nested(t, 0)[1..]
    ensures Depth(Explode(t, Nested(t, 0)[0])) <= Depth(t)
  {
    var p := Nested(t, 0)[0];
    var pair := At(t, p);
    var xs := LeftLeaves(t, p);
    var t1 := if xs == [] then t else Bump(t, |xs| - 1, pair.l.n);
    if xs != [] {
      BumpNested(t, |xs| - 1, pair.l.n, 0);
    }
    BumpNested(t1, |xs| + 2, pair.r.n, 0);
    BumpedLeaves(t, p);
    assert Bumped(t, p) == Bump(t1, |xs| + 2, pair.r.n);
    ReplaceNested(Bumped(t, p), 0, p, 0);
    DepthReplace(Bumped(t, p), p, Regular(0));
    PathDepth(Bumped(t, p), p);
  }

  /** Splitting a regular number when nothing is queued queues the new pair exactly when it sits inside four pairs. */
  lemma {:induction false} SplitNested(t: Snail, d: nat, p: Path, a: nat, b: nat)
    requires d <= 4 && Nested(t, d) == [] && OnPath(t, p) && At(t, p).Regular?
    ensures Nested(ReplaceAt(t, p, Nest(Regular(a), Regular(b))), d) == if |p| + d == 4 then [p] else []
    decreases |p|
  {
    var pair := Nest(Regular(a), Regular(b));
    if p == [] {
      assert Nested(pair, d) == if d == 4 then [[]] else Under(GoLeft, []) + Under(GoRight, []);
    } else {
      assert |Under(GoLeft, Nested(t.l, d + 1))| == |Nested(t.l, d + 1)|;
      SplitNested(Half(t, p[0]), d + 1, p[1..], a, b);
      SplitUnder(t, d, p, pair);
    }
  }

  /** The step of `SplitNested` from a half to the pair holding it. */
  lemma SplitUnder(t: Snail, d: nat, p: Path, pair: Snail)
    requires d < 4 && t.Nest? && Nested(t.l, d + 1) == [] && Nested(t.r, d + 1) == [] && p != []
    requires Nested(ReplaceAt(Half(t, p[0]), p[1..], pair), d + 1) == if |p| + d == 4 then [p[1..]] else []
    ensures Nested(ReplaceAt(t, p, pair), d) == if |p| + d == 4 then [p] else []
  {
    var c, q := Half(t, p[0]), p[1..];
    var news := if |q| + d + 1 == 4 then [q] else [];
    if p[0] == GoLeft {
      assert ReplaceAt(t, p, pair) == Nest(ReplaceAt(c, q, pair), t.r);
      assert p == [GoLeft] + q;
      assert Under(GoLeft, news) == if |p| + d == 4 then [p] else [];
      assert Under(GoRight, []) == [];
    } else {
      assert ReplaceAt(t, p, pair) == Nest(t.l, ReplaceAt(c, q, pair));
      assert p == [GoRight] + q;
      assert Under(GoRight, news) == if |p| + d == 4 then [p] else [];
      assert Under(GoLeft, []) == [];
    }
  }

  /**
   * A split happens only when nothing is queued; the new pair is queued when it
   * sits inside four pairs, and no regular number ends up inside more than five.
   */
  lemma SplitStep(t: Snail)
    requires Nested(t, 0) == [] && FirstBig(t).Some?
    ensures |FirstBig(t).value| <= 4
    ensures Nested(Split(t, FirstBig(t).value), 0) == if |FirstBig(t).value| == 4 then [FirstBig(t).value] else []
    ensures Depth(Split(t, FirstBig(t).value)) <= 5
  {
    var p := FirstBig(t).value;
    var v := At(t, p).n;
    NestedEmpty(t, 0);
    PathDepth(t, p);
    var pair := Nest(Regular(v / 2), Regular(v / 2 + if v % 2 == 0 then 0 else 1));
    SplitNested(t, 0, p, pair.l.n, pair.r.n);
    DepthReplace(t, p, pair);
  }

  lemma {:induction false} SmallLeaves(t: Snail)
    ensures Small(t) <==> forall x :: x in Leaves(t) ==> x <= 9
  {
    match t
    case Regular(n) =>
      assert Leaves(t) == [n] && n in Leaves(t);
    case Nest(l, r) =>
      SmallLeaves(l);
      SmallLeaves(r);
      assert forall x :: x in Leaves(t) <==> x in Leaves(l) || x in Leaves(r);
  }

  /**
   * `FirstBig` finds the leftmost regular number above 9: there is none exactly
   * when every number is a single digit, and every number left of the one found
   * is a single digit.
   */
  lemma {:induction false} FirstBigLeftmost(t: Snail)
    ensures FirstBig(t).None? <==> Small(t)
    ensures FirstBig(t).Some? ==> forall x :: x in LeftLeaves(t, FirstBig(t).value) ==> x <= 9
  {
    match t
    case Regular(_) =>
    case Nest(l, r) =>
      FirstBigLeftmost(l);
      FirstBigLeftmost(r);
      match FirstBig(l)
      case Some(p) =>
        assert ([GoLeft] + p)[1..] == p;
      case None =>
        SmallLeaves(l);
        if FirstBig(r).Some? {
          var p := FirstBig(r).value;
          assert ([GoRight] + p)[1..] == p;
          assert LeftLeaves(t, [GoRight] + p) == Leaves(l) + LeftLeaves(r, p);
        }
  }

  /**
   * While no regular number sits inside more than five pairs, a number is
   * reduced exactly when no reduction action applies.
   */
  lemma ReducedIffStops(t: Snail)
    requires Depth(t) <= 5
    ensures Reduced(t) <==> Step(t).None?
  {
    NestedEmpty(t, 0);
    FirstBigLeftmost(t);
    if Nested(t, 0) != [] {
      NestedExplodes(t, 0, Nested(t, 0)[0]);
    }
  }

  lemma {:induction false} IterateMore(t: Snail, k: nat, u: Snail)
    requires Iterate(t, k) == Some(u) && Step(u).Some?
    ensures Iterate(t, k + 1) == Step(u)
    decreases k
  {
    if k > 0 {
      IterateMore(Step(t).value, k - 1, u);
    }
  }

  /** Actions run one after another: `a` actions then `b` more are `a + b` actions. */
  lemma {:induction false} IterateAdd(t: Snail, a: nat, b: nat, u: Snail)
    requires Iterate(t, a) == Some(u)
    ensures Iterate(t, a + b) == Iterate(u, b)
    decreases a
  {
    if a > 0 {
      IterateAdd(Step(t).value, a - 1, b, u);
    }
  }

  /** Reduction has one outcome: two runs of reduction actions that both end in a reduced number end in the same one. */
  lemma {:induction false} ReductionUnique(t: Snail, j: nat, k: nat)
    requires Iterate(t, j).Some? && Reduced(Iterate(t, j).value)
    requires Iterate(t, k).Some? && Reduced(Iterate(t, k).value)
    ensures j == k && Iterate(t, j) == Iterate(t, k)
    decreases j
  {
    NestedEmpty(t, 0);
    FirstBigLeftmost(t);
    if j > 0 && k > 0 {
      ReductionUnique(Step(t).value, j - 1, k - 1);
    }
  }
}
