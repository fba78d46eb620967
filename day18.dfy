/**
 * Day 18 of day18/src/main.rs: snailfish numbers kept in a storage arena with
 * a parent map. Parsing, the queue of pairs to explode, the search for a split,
 * the reduction loop and addition are proved against the tree model of
 * `Day18Snail` through the layouts of `Day18Arena`.
 */
module Day18 {
  import opened Common
  import opened Day18Snail
  import opened Day18Arena

  // ----- Parsing -----

  /**
   * The grammar `parse_inner` reads: '[' then a number, one separator, a
   * number and one closing character (neither is checked); commas before a
   * number are skipped; a decimal digit is a regular number. None where the
   * program would panic: the text runs out or a number starts with another
   * character. Also gives the text left over.
   */
  function Scan(text: seq<char>): (r: Option<(Snail, seq<char>)>)
    ensures r.Some? ==> |r.value.1| < |text|
    decreases |text|
  {
    if text == [] then None
    else if text[0] == '[' then
      match Scan(text[1..])
      case None => None
      case Some((l, r1)) =>
        if r1 == [] then None
        else
          match Scan(r1[1..])
          case None => None
          case Some((r, r2)) => if r2 == [] then None else Some((Nest(l, r), r2[1..]))
    else if text[0] == ',' then Scan(text[1..])
    else if '0' <= text[0] <= '9' then Some((Regular((text[0] as int - '0' as int) as nat), text[1..]))
    else None
  }

  /** The puzzle's text of a number whose regular numbers are single digits. */
  function Text(t: Snail): seq<char>
    requires Small(t)
  {
    match t
    case Regular(n) => [('0' as int + n) as char]
    case Nest(l, r) => ['['] + Text(l) + [','] + Text(r) + [']']
  }

  /** Reading the text of a number gives the number back and leaves what follows it. */
  lemma {:induction false} ScanText(t: Snail, rest: seq<char>)
    requires Small(t)
    ensures Scan(Text(t) + rest) == Some((t, rest))
  {
    match t
    case Regular(n) =>
      assert (Text(t) + rest)[1..] == rest;
    case Nest(l, r) =>
      var s := Text(t) + rest;
      var r2 := [']'] + rest;
      var r1 := [','] + (Text(r) + r2);
      TextPair(l, r, rest);
      ScanText(l, r1);
      ScanText(r, r2);
      ScanPair(s, l, r1, r, r2);
  }

  lemma TextPair(l: Snail, r: Snail, rest: seq<char>)
    requires Small(l) && Small(r)
    ensures (Text(Nest(l, r)) + rest)[1..] == Text(l) + ([','] + (Text(r) + ([']'] + rest)))
    ensures Text(Nest(l, r)) + rest != [] && (Text(Nest(l, r)) + rest)[0] == '['
    ensures ([','] + (Text(r) + ([']'] + rest)))[1..] == Text(r) + ([']'] + rest)
    ensures ([']'] + rest)[1..] == rest
  {
    Regroup(['['], Text(l), [','], Text(r), [']'], rest);
  }

  lemma Regroup(a: seq<char>, b: seq<char>, c: seq<char>, d: seq<char>, e: seq<char>, f: seq<char>)
    ensures a + b + c + d + e + f == a + (b + (c + (d + (e + f))))
  {
  }

  lemma ScanPair(s: seq<char>, l: Snail, r1: seq<char>, r: Snail, r2: seq<char>)
    requires s != [] && s[0] == '[' && Scan(s[1..]) == Some((l, r1))
    requires r1 != [] && Scan(r1[1..]) == Some((r, r2)) && r2 != []
    ensures Scan(s) == Some((Nest(l, r), r2[1..]))
  {
  }

  /**
   * `parse_inner`: reads one number from `text`, pushing its elements after
   * those of `s0` (the root last) and linking each half to its pair in the
   * parent map. `ok` is false where the program panics.
   */
  method ParseInner(s0: seq<Element>, parent0: map<nat, nat>, text: seq<char>)
    returns (ok: bool, s: seq<Element>, parent: map<nat, nat>, idx: nat, rest: seq<char>, ghost c: Layout)
    requires forall k :: k in parent0 ==> k < |s0|
    ensures ok <==> Scan(text).Some?
    ensures |s0| <= |s| && s[..|s0|] == s0
    ensures forall k :: k in parent0 ==> k in parent && parent[k] == parent0[k]
    ensures forall k :: k in parent ==> k in parent0 || |s0| <= k < |s|
    ensures ok ==> Holds(s, c) && Shape(s, c) == Scan(text).value.0 && rest == Scan(text).value.1
    ensures ok ==> idx == c.at == |s| - 1 && idx !in parent
    ensures ok ==> Distinct(c) && Parents(parent, c) && forall i :: i in Indices(c) ==> |s0| <= i < |s|
    decreases |text|
  {
    s, parent, idx, rest, c := s0, parent0, 0, [], Leaf(0);
    if text == [] {
      ok := false;
    } else if text[0] == '[' {
      var ok1, s1, parent1, l, r1, cl := ParseInner(s0, parent0, text[1..]);
      if !ok1 || r1 == [] {
        ok, s, parent := false, s1, parent1;
        return;
      }
      var ok2, s2, parent2, r, r2, cr := ParseInner(s1, parent1, r1[1..]);
      s, parent := s2 + [Pair(l, r)], parent2;
      if !ok2 || r2 == [] {
        ok := false;
        return;
      }
      rest := r2[1..];
      idx := |s| - 1;
      parent := parent[l := idx][r := idx];
      c := Node(idx, cl, cr);
      ok := true;
      ParsedPair(s0, s1, s2, s, parent0, parent1, parent2, parent, cl, cr);
    } else if text[0] == ',' {
      ok, s, parent, idx, rest, c := ParseInner(s0, parent0, text[1..]);
    } else if '0' <= text[0] <= '9' {
      s := s0 + [Value((text[0] as int - '0' as int) as nat)];
      idx, rest, c := |s| - 1, text[1..], Leaf(|s| - 1);
      ok := true;
    } else {
      ok := false;
    }
  }

  /** The pair `parse_inner` pushes after both halves links them correctly. */
  lemma ParsedPair(s0: seq<Element>, s1: seq<Element>, s2: seq<Element>, s: seq<Element>,
                   parent0: map<nat, nat>, parent1: map<nat, nat>, parent2: map<nat, nat>, parent: map<nat, nat>,
                   cl: Layout, cr: Layout)
    requires |s0| <= |s1| <= |s2| && s1[..|s0|] == s0 && s2[..|s1|] == s1 && s == s2 + [Pair(cl.at, cr.at)]
    requires Holds(s1, cl) && Distinct(cl) && Parents(parent1, cl) && cl.at == |s1| - 1 && cl.at !in parent1
    requires forall i :: i in Indices(cl) ==> |s0| <= i < |s1|
    requires Holds(s2, cr) && Distinct(cr) && Parents(parent2, cr) && cr.at == |s2| - 1 && cr.at !in parent2
    requires forall i :: i in Indices(cr) ==> |s1| <= i < |s2|
    requires forall k :: k in parent1 ==> k in parent2 && parent2[k] == parent1[k]
    requires forall k :: k in parent2 ==> k in parent1 || |s1| <= k < |s2|
    requires forall k :: k in parent1 ==> k in parent0 || |s0| <= k < |s1|
    requires forall k :: k in parent0 ==> k < |s0|
    requires parent == parent2[cl.at := |s| - 1][cr.at := |s| - 1]
    ensures Holds(s, Node(|s| - 1, cl, cr)) && Distinct(Node(|s| - 1, cl, cr))
    ensures Shape(s, Node(|s| - 1, cl, cr)) == Nest(Shape(s1, cl), Shape(s2, cr))
    ensures Parents(parent, Node(|s| - 1, cl, cr)) && |s| - 1 !in parent
  {
    HoldsGrow(s1, s, cl);
    HoldsGrow(s2, s, cr);
    ParentsFrame(parent1, parent, cl);
    ParentsFrame(parent2, parent, cr);
  }

  /** `parse`: a whole number read from a line into the storage `s0`, with a fresh parent map. */
  method Parse(s0: seq<Element>, text: seq<char>)
    returns (ok: bool, root: nat, parent: map<nat, nat>, s: seq<Element>, ghost c: Layout)
    ensures ok <==> Scan(text).Some?
    ensures |s0| <= |s| && s[..|s0|] == s0
    ensures ok ==> Arena(s, parent, root, c) && Shape(s, c) == Scan(text).value.0
  {
    var rest;
    ok, s, parent, root, rest, c := ParseInner(s0, map[], text);
  }

  // ----- The queue of pairs to explode -----

  /** `Explode(idx, depth)`: a pair waiting to explode and the number of pairs it sits in. */
  datatype Explosion = Explosion(idx: nat, depth: nat)

  /** The queue entries for the pairs `ps` leads to in `c`, when `c` sits inside `d` pairs. */
  function Entries(c: Layout, ps: seq<Path>, d: nat): seq<Explosion>
  {
    seq(|ps|, i requires 0 <= i < |ps| => Explosion(Sub(c, ps[i]).at, d + |ps[i]|))
  }

  lemma EntriesUnder(c: Layout, a: seq<Path>, b: seq<Path>, d: nat)
    requires c.Node?
    ensures Entries(c, Under(GoLeft, a) + Under(GoRight, b), d) == Entries(c.l, a, d + 1) + Entries(c.r, b, d + 1)
  {
    var ps := Under(GoLeft, a) + Under(GoRight, b);
    forall i | 0 <= i < |ps|
      ensures Entries(c, ps, d)[i] == (Entries(c.l, a, d + 1) + Entries(c.r, b, d + 1))[i]
    {
      if i < |a| {
        assert ps[i] == [GoLeft] + a[i] && ps[i][1..] == a[i];
      } else {
        assert ps[i] == [GoRight] + b[i - |a|] && ps[i][1..] == b[i - |a|];
      }
    }
  }

  /** Replacing a part leaves the entries of the parts right of it as they were. */
  lemma EntriesApart(c: Layout, p: Path, x: Layout, ps: seq<Path>, d: nat)
    requires forall q :: q in ps ==> Precedes(p, q)
    ensures Entries(ReplaceLayout(c, p, x), ps, d) == Entries(c, ps, d)
  {
    forall i | 0 <= i < |ps|
      ensures Sub(ReplaceLayout(c, p, x), ps[i]) == Sub(c, ps[i])
    {
      SubApart(c, p, x, ps[i]);
    }
  }

  /** `entry(k).or_insert(v)`: `m` with `k` sent to `v` unless `k` already has an entry. */
  /** Once the leftmost queued pair has exploded, the rest of the queue names the pairs still inside four pairs. */
  lemma QueueAfter(c: Layout, t: Snail, x: Layout)
    requires Nested(t, 0) != []
    ensures Entries(c, Nested(t, 0), 0)[1..] == Entries(ReplaceLayout(c, Nested(t, 0)[0], x), Nested(t, 0)[1..], 0)
  {
    var ns := Nested(t, 0);
    NestedSorted(t, 0);
    forall q | q in ns[1..]
      ensures Precedes(ns[0], q)
    {
      var j :| 0 <= j < |ns[1..]| && ns[1..][j] == q;
      assert ns[j + 1] == q;
    }
    EntriesApart(c, ns[0], x, ns[1..], 0);
    assert Entries(c, ns, 0)[1..] == Entries(c, ns[1..], 0);
  }

  /** Where the leftmost regular number above 9 of a pair is: in its left half if there is one, else in its right. */
  lemma FirstBigNode(s: seq<Element>, c: Layout)
    requires Holds(s, c) && c.Node?
    ensures var t, l, r := FirstBig(Shape(s, c)), FirstBig(Shape(s, c.l)), FirstBig(Shape(s, c.r));
      (l.Some? ==> t.value == [GoLeft] + l.value && Sub(c, t.value) == Sub(c.l, l.value)) &&
      (l.None? && r.Some? ==> t.value == [GoRight] + r.value && Sub(c, t.value) == Sub(c.r, r.value)) &&
      (l.None? && r.None? ==> t.None?)
  {
    var l, r := FirstBig(Shape(s, c.l)), FirstBig(Shape(s, c.r));
    if l.Some? {
      assert ([GoLeft] + l.value)[1..] == l.value;
    } else if r.Some? {
      assert ([GoRight] + r.value)[1..] == r.value;
    }
  }

  function OrInsert(m: map<nat, nat>, k: nat, v: nat): map<nat, nat>
  {
    if k in m then m else m[k := v]
  }

  // ----- Where the layout and the parent map lead -----

  /** A node off the root sits one turn below a pair, whose two halves are distinct. */
  lemma Above(s: seq<Element>, parent: map<nat, nat>, root: nat, c: Layout, p: Path)
    requires Arena(s, parent, root, c) && OnLayout(c, p) && p != []
    ensures OnLayout(c, p[..|p| - 1]) && Sub(c, p[..|p| - 1]).Node? && p[..|p| - 1] + [p[|p| - 1]] == p
    ensures Sub(c, p) == if p[|p| - 1] == GoLeft then Sub(c, p[..|p| - 1]).l else Sub(c, p[..|p| - 1]).r
    ensures Sub(c, p).at in parent && parent[Sub(c, p).at] == Sub(c, p[..|p| - 1]).at
    ensures Sub(c, p[..|p| - 1]).at < |s| && s[Sub(c, p[..|p| - 1]).at] == Pair(Sub(c, p[..|p| - 1]).l.at, Sub(c, p[..|p| - 1]).r.at)
    ensures Sub(c, p[..|p| - 1]).l.at != Sub(c, p[..|p| - 1]).r.at
  {
    var up := p[..|p| - 1];
    OnLayoutUp(c, p);
    SubTurn(c, up, p[|p| - 1]);
    assert up + [p[|p| - 1]] == p;
    ParentOf(parent, c, p);
    SubShape(s, c, up);
    SubDistinct(c, up);
  }

  lemma {:induction false} OnLayoutUp(c: Layout, p: Path)
    requires OnLayout(c, p) && p != []
    ensures OnLayout(c, p[..|p| - 1]) && Sub(c, p[..|p| - 1]).Node?
    decreases |p|
  {
    if |p| > 1 {
      assert p[1..][..|p| - 2] == p[..|p| - 1][1..];
      OnLayoutUp(if p[0] == GoLeft then c.l else c.r, p[1..]);
    }
  }

  /** The number just left of the node `p` leads to is the `j`-th, stored at the last index left of it. */
  lemma LeftNeighbour(s: seq<Element>, c: Layout, p: Path)
    requires Holds(s, c) && OnLayout(c, p) && LeftOf(c, p) != []
    ensures |LeftOf(c, p)| == |LeftLeaves(Shape(s, c), p)| <= |LeafIdx(c)|
    ensures LeafIdx(c)[|LeftOf(c, p)| - 1] == LeftOf(c, p)[|LeftOf(c, p)| - 1]
  {
    LayoutAround(c, p);
    LeftOfCount(s, c, p);
  }

  /** The number just right of the node `p` leads to comes after its own, stored at the first index right of it. */
  lemma RightNeighbour(s: seq<Element>, c: Layout, p: Path)
    requires Holds(s, c) && OnLayout(c, p)
    ensures |LeftOf(c, p)| == |LeftLeaves(Shape(s, c), p)|
    ensures |LeftOf(c, p)| + |LeafIdx(Sub(c, p))| + |RightOf(c, p)| == |LeafIdx(c)| == |Leaves(Shape(s, c))|
    ensures RightOf(c, p) != [] ==> LeafIdx(c)[|LeftOf(c, p)| + |LeafIdx(Sub(c, p))|] == RightOf(c, p)[0]
  {
    LayoutAround(c, p);
    LeftOfCount(s, c, p);
    LeafCount(s, c);
  }

  /** The pair about to explode: a node of two leaves, off the root. */
  lemma ExplodeSite(s: seq<Element>, c: Layout, p: Path)
    requires Holds(s, c) && Explodes(At(Shape(s, c), p))
    ensures OnLayout(c, p) && Sub(c, p).Node? && Sub(c, p).l.Leaf? && Sub(c, p).r.Leaf?
    ensures Sub(c, p).at < |s| && s[Sub(c, p).at] == Pair(Sub(c, p).l.at, Sub(c, p).r.at)
    ensures Sub(c, p).l.at < |s| && Sub(c, p).r.at < |s|
    ensures s[Sub(c, p).l.at] == Value(At(Shape(s, c), p).l.n) && s[Sub(c, p).r.at] == Value(At(Shape(s, c), p).r.n)
    ensures |LeafIdx(Sub(c, p))| == 2
  {
    AtOnPath(Shape(s, c), p);
    SubShape(s, c, p);
  }

  /** Adding to the nearest regular number on the left of the node `p` leads to, found by its index. */
  lemma BumpLeftArena(s: seq<Element>, parent: map<nat, nat>, root: nat, c: Layout, p: Path, v: nat)
    requires Arena(s, parent, root, c) && OnLayout(c, p) && LeftOf(c, p) != []
    ensures var k := LeftOf(c, p)[|LeftOf(c, p)| - 1];
      k < |s| && s[k].Value? && Arena(s[k := AddValue(s[k], v)], parent, root, c) &&
      Shape(s[k := AddValue(s[k], v)], c) == Bump(Shape(s, c), |LeftOf(c, p)| - 1, v)
  {
    var j := |LeftOf(c, p)| - 1;
    LeftNeighbour(s, c, p);
    LeafCount(s, c);
    assert LeafIdx(c)[j] in LeafIdx(c);
    BumpStore(s, c, j, v, s[LeafIdx(c)[j] := AddValue(s[LeafIdx(c)[j]], v)]);
  }

  /** Adding to the nearest regular number on the right of the node `p` leads to, found by its index. */
  lemma BumpRightArena(s: seq<Element>, parent: map<nat, nat>, root: nat, c: Layout, p: Path, v: nat)
    requires Arena(s, parent, root, c) && OnLayout(c, p) && RightOf(c, p) != []
    ensures var k := RightOf(c, p)[0];
      k < |s| && s[k].Value? && Arena(s[k := AddValue(s[k], v)], parent, root, c) &&
      Shape(s[k := AddValue(s[k], v)], c) == Bump(Shape(s, c), |LeftOf(c, p)| + |LeafIdx(Sub(c, p))|, v)
  {
    var j := |LeftOf(c, p)| + |LeafIdx(Sub(c, p))|;
    RightNeighbour(s, c, p);
    LeafCount(s, c);
    assert LeafIdx(c)[j] in LeafIdx(c);
    BumpStore(s, c, j, v, s[LeafIdx(c)[j] := AddValue(s[LeafIdx(c)[j]], v)]);
  }

  lemma NoRightNeighbour(s: seq<Element>, c: Layout, p: Path, v: nat)
    requires Holds(s, c) && OnLayout(c, p) && RightOf(c, p) == []
    ensures Bump(Shape(s, c), |LeftOf(c, p)| + |LeafIdx(Sub(c, p))|, v) == Shape(s, c)
  {
    RightNeighbour(s, c, p);
    BumpBeyond(Shape(s, c), |LeftOf(c, p)| + |LeafIdx(Sub(c, p))|, v);
  }

  /** The two additions by index are the tree's additions to the neighbours of an exploding pair. */
  lemma BumpedByLayout(s: seq<Element>, c: Layout, p: Path, t1: Snail, t2: Snail)
    requires Holds(s, c) && Explodes(At(Shape(s, c), p))
    requires t1 == if LeftOf(c, p) == [] then Shape(s, c) else Bump(Shape(s, c), |LeftOf(c, p)| - 1, At(Shape(s, c), p).l.n)
    requires t2 == Bump(t1, |LeftOf(c, p)| + |LeafIdx(Sub(c, p))|, At(Shape(s, c), p).r.n)
    ensures t2 == Bumped(Shape(s, c), p)
  {
    ExplodeSite(s, c, p);
    LeftOfCount(s, c, p);
  }

  /**
   * Redirecting the link of the pair above the node `p` leads to at a new part
   * `x` pushed after the old storage, with `x`'s parent links in place, keeps a
   * well-formed number, with `x` in place of that node.
   */
  lemma RelinkArena(s0: seq<Element>, parent0: map<nat, nat>, root: nat, c: Layout, p: Path, x: Layout,
                    s1: seq<Element>, s2: seq<Element>, parent2: map<nat, nat>)
    requires Arena(s0, parent0, root, c) && p != [] && OnLayout(c, p)
    requires |s0| <= |s1| && s1[..|s0|] == s0 && Holds(s1, x) && Distinct(x)
    requires forall i :: i in Indices(x) ==> |s0| <= i < |s1|
    requires var u := Sub(c, p[..|p| - 1]).at;
      u < |s1| && s1[u].Pair? &&
      s2 == s1[u := if Left(s1[u]) == Sub(c, p).at then SetLeft(s1[u], x.at) else SetRight(s1[u], x.at)] &&
      x.at in parent2 && parent2[x.at] == u
    requires Parents(parent2, x) && forall k :: k in parent0 ==> k in parent2 && parent2[k] == parent0[k]
    requires root !in parent2 && forall k :: k in parent2 ==> k < |s2|
    ensures Arena(s2, parent2, root, ReplaceLayout(c, p, x))
    ensures Shape(s2, ReplaceLayout(c, p, x)) == ReplaceAt(Shape(s0, c), p, Shape(s1, x))
  {
    Above(s0, parent0, root, c, p);
    IndicesBelow(s0, c);
    HoldsGrow(s0, s1, c);
    HoldsFrame(s1, s2, x);
    Relink(s1, s2, c, p, x);
    ReplaceDistinct(c, p, x);
    ReplaceParents(parent0, parent2, c, p, x);
  }

  /**
   * The links an explosion leaves: a regular number 0 pushed at the end, its
   * parent the pair's parent, and that parent's link redirected to it.
   */
  lemma ExplodeLinks(s0: seq<Element>, parent0: map<nat, nat>, root: nat, c: Layout, p: Path,
                     s1: seq<Element>, s2: seq<Element>, parent2: map<nat, nat>)
    requires Arena(s0, parent0, root, c) && p != [] && OnLayout(c, p)
    requires s1 == s0 + [Value(0)]
    requires var u := Sub(c, p[..|p| - 1]).at;
      u < |s1| && s1[u].Pair? &&
      s2 == s1[u := if Left(s1[u]) == Sub(c, p).at then SetLeft(s1[u], |s0|) else SetRight(s1[u], |s0|)] &&
      parent2 == OrInsert(parent0, |s0|, u)
    ensures Arena(s2, parent2, root, ReplaceLayout(c, p, Leaf(|s0|)))
    ensures Shape(s2, ReplaceLayout(c, p, Leaf(|s0|))) == ReplaceAt(Shape(s0, c), p, Regular(0))
  {
    assert |s0| !in parent0;
    RelinkArena(s0, parent0, root, c, p, Leaf(|s0|), s1, s2, parent2);
  }

  /**
   * The links a split leaves: the two halves and their pair pushed at the end,
   * the halves' parent the new pair, the new pair's parent the old number's,
   * and that parent's link redirected to the new pair.
   */
  lemma SplitLinks(s0: seq<Element>, parent0: map<nat, nat>, root: nat, c: Layout, p: Path,
                   s1: seq<Element>, s2: seq<Element>, parent2: map<nat, nat>)
    requires Arena(s0, parent0, root, c) && p != [] && OnPath(Shape(s0, c), p) && At(Shape(s0, c), p).Regular?
    requires var v := At(Shape(s0, c), p).n;
      s1 == s0 + [Value(v / 2), Value(v / 2 + if v % 2 == 0 then 0 else 1), Pair(|s0|, |s0| + 1)]
    requires var u := Sub(c, p[..|p| - 1]).at;
      u < |s1| && s1[u].Pair? &&
      s2 == s1[u := if Left(s1[u]) == Sub(c, p).at then SetLeft(s1[u], |s0| + 2) else SetRight(s1[u], |s0| + 2)] &&
      parent2 == OrInsert(OrInsert(OrInsert(parent0, |s0|, |s0| + 2), |s0| + 1, |s0| + 2), |s0| + 2, u)
    ensures var x := Node(|s0| + 2, Leaf(|s0|), Leaf(|s0| + 1));
      Arena(s2, parent2, root, ReplaceLayout(c, p, x)) && Shape(s2, ReplaceLayout(c, p, x)) == Split(Shape(s0, c), p)
  {
    var x := Node(|s0| + 2, Leaf(|s0|), Leaf(|s0| + 1));
    SubShape(s0, c, p);
    assert |s0| !in parent0 && |s0| + 1 !in parent0 && |s0| + 2 !in parent0;
    RelinkArena(s0, parent0, root, c, p, x, s1, s2, parent2);
  }

  /**
   * The storage and parent links `Number::add` builds from two numbers' arenas:
   * the first arena, the new pair, then the second arena moved up past the pair.
   */
  method JoinStorage(storage: seq<Element>, parent: map<nat, nat>, root: nat, ghost c: Layout,
                     so: seq<Element>, po: map<nat, nat>, ro: nat, ghost co: Layout)
    returns (s: seq<Element>, links: map<nat, nat>)
    requires Arena(storage, parent, root, c) && Arena(so, po, ro, co)
    ensures Arena(s, links, |storage|, Node(|storage|, c, ShiftLayout(co, |storage| + 1)))
    ensures Shape(s, Node(|storage|, c, ShiftLayout(co, |storage| + 1))) == Nest(Shape(storage, c), Shape(so, co))
  {
    var off := |storage|;
    var m := off + 1;
    var copied := storage + [Pair(root, ro + m)] + so;
    var joined := ExtendShifted(parent, po, m, |so|);
    links := joined[root := off][ro + m := off];
    s := ShiftPairs(copied, m, m);
    forall j | 0 <= j < |so|
      ensures s[j + m] == ShiftElement(so[j], m)
    {
      assert copied[j + m] == so[j];
    }
    assert s[..off] == copied[..off] == storage;
    AddArena(storage, parent, root, c, so, po, ro, co, m, s, joined, links);
  }

  /** The loop of `add` over the storage after `from`: every pair there has its indices moved up by `m`. */
  method ShiftPairs(s: seq<Element>, from: nat, m: nat) returns (r: seq<Element>)
    requires from <= |s|
    ensures |r| == |s| && r[..from] == s[..from]
    ensures forall j :: from <= j < |s| ==> r[j] == ShiftElement(s[j], m)
  {
    r := s;
    var i := from;
    while i < |r|
      invariant from <= i <= |r| == |s| && r[..from] == s[..from]
      invariant forall j :: from <= j < i ==> r[j] == ShiftElement(s[j], m)
      invariant forall j :: i <= j < |s| ==> r[j] == s[j]
    {
      r := r[i := ShiftElement(r[i], m)];
      i := i + 1;
    }
  }

  /**
   * `HashMap::extend` with the other number's links moved up by `m`: every
   * link of `parent` stays, every link `k -> v` of `po` arrives as
   * `k + m -> v + m`, and nothing else comes in.
   */
  method ExtendShifted(parent: map<nat, nat>, po: map<nat, nat>, m: nat, b: nat) returns (links: map<nat, nat>)
    requires forall k :: k in parent ==> k < m
    requires forall k :: k in po ==> k < b
    ensures forall k :: k in parent ==> k in links && links[k] == parent[k]
    ensures forall k :: k in po ==> k + m in links && links[k + m] == po[k] + m
    ensures forall j :: j in links ==> j in parent || m <= j < m + b
  {
    links := parent;
    var rest := po.Keys;
    while rest != {}
      invariant rest <= po.Keys
      invariant forall k :: k in parent ==> k in links && links[k] == parent[k]
      invariant forall k :: k in po && k !in rest ==> k + m in links && links[k + m] == po[k] + m
      invariant forall j :: j in links ==> j in parent || m <= j < m + b
      decreases rest
    {
      var k :| k in rest;
      links := links[k + m := po[k] + m];
      rest := rest - {k};
    }
  }

  /**
   * The storage `add` builds: this number's storage, the new pair of the two
   * roots, and the other number's storage with its indices moved up by `m`,
   * with both parent maps joined and the two roots' parent the new pair.
   */
  lemma AddArena(s: seq<Element>, parent: map<nat, nat>, root: nat, c: Layout,
                 so: seq<Element>, po: map<nat, nat>, ro: nat, co: Layout,
                 m: nat, s2: seq<Element>, joined: map<nat, nat>, parent2: map<nat, nat>)
    requires Arena(s, parent, root, c) && Arena(so, po, ro, co) && m == |s| + 1
    requires |s2| == m + |so| && s2[..|s|] == s && s2[|s|] == Pair(root, ro + m)
    requires forall i :: 0 <= i < |so| ==> s2[i + m] == ShiftElement(so[i], m)
    requires forall k :: k in parent ==> k in joined && joined[k] == parent[k]
    requires forall k :: k in po ==> k + m in joined && joined[k + m] == po[k] + m
    requires forall j :: j in joined ==> j in parent || m <= j < m + |so|
    requires parent2 == joined[root := |s|][ro + m := |s|]
    ensures Arena(s2, parent2, |s|, Node(|s|, c, ShiftLayout(co, m)))
    ensures Shape(s2, Node(|s|, c, ShiftLayout(co, m))) == Nest(Shape(s, c), Shape(so, co))
  {
    HoldsGrow(s, s2, c);
    HoldsShift(so, s2, co, m);
    AddDistinct(s, c, so, co, m);
    JoinedLinks(parent, root, po, ro, |s|, |so|, m, joined, parent2);
    AddParents(parent, root, c, po, ro, co, |s|, m, parent2);
  }

  lemma AddDistinct(s: seq<Element>, c: Layout, so: seq<Element>, co: Layout, m: nat)
    requires Holds(s, c) && Distinct(c) && Distinct(co) && m == |s| + 1
    ensures Distinct(Node(|s|, c, ShiftLayout(co, m)))
  {
    IndicesBelow(s, c);
    ShiftIndices(co, m);
    ShiftDistinct(co, m);
  }

  /** The parent links `add` builds hold for both numbers, and the new pair has none. */
  lemma AddParents(parent: map<nat, nat>, root: nat, c: Layout, po: map<nat, nat>, ro: nat, co: Layout,
                   n: nat, m: nat, parent2: map<nat, nat>)
    requires Parents(parent, c) && Parents(po, co) && c.at == root && co.at == ro
    requires forall k :: k in parent ==> k in parent2 && parent2[k] == parent[k]
    requires forall k :: k in po ==> k + m in parent2 && parent2[k + m] == po[k] + m
    requires root in parent2 && parent2[root] == n && ro + m in parent2 && parent2[ro + m] == n
    ensures Parents(parent2, Node(n, c, ShiftLayout(co, m)))
  {
    ParentsFrame(parent, parent2, c);
    ParentsShift(po, parent2, co, m);
  }

  /** Giving the two roots the new pair as parent keeps every other link of the joined map. */
  lemma JoinedLinks(parent: map<nat, nat>, root: nat, po: map<nat, nat>, ro: nat, n: nat, b: nat, m: nat,
                    joined: map<nat, nat>, parent2: map<nat, nat>)
    requires root !in parent && ro !in po && root < n && ro < b && m == n + 1
    requires forall k :: k in parent ==> k < n
    requires forall k :: k in parent ==> k in joined && joined[k] == parent[k]
    requires forall k :: k in po ==> k + m in joined && joined[k + m] == po[k] + m
    requires forall j :: j in joined ==> j in parent || m <= j < m + b
    requires parent2 == joined[root := n][ro + m := n]
    ensures forall k :: k in parent ==> k in parent2 && parent2[k] == parent[k]
    ensures forall k :: k in po ==> k + m in parent2 && parent2[k + m] == po[k] + m
    ensures root in parent2 && parent2[root] == n && ro + m in parent2 && parent2[ro + m] == n
    ensures n !in parent2 && forall k :: k in parent2 ==> k < m + b
  {
  }

  // ----- A number -----

  /** `Number`: the storage arena, the parent map and the index of the root. */
  class Number {
    var storage: seq<Element>
    var parent: map<nat, nat>
    var root: nat
    ghost var layout: Layout

    ghost predicate Valid()
      reads this
    {
      Arena(storage, parent, root, layout)
    }

    /** The snailfish number this stands for. */
    ghost function Tree(): Snail
      reads this
      requires Valid()
    {
      Shape(storage, layout)
    }

    /** The number `Number { storage, parent, root }` builds from the pieces `parse` returns. */
    constructor (storage: seq<Element>, parent: map<nat, nat>, root: nat, ghost c: Layout)
      requires Arena(storage, parent, root, c)
      ensures Valid() && Tree() == Shape(storage, c)
      ensures this.storage == storage && this.parent == parent && this.root == root
    {
      this.storage := storage;
      this.parent := parent;
      this.root := root;
      this.layout := c;
    }

    /** `Number::magnitude`. */
    function Magnitude(): (r: nat)
      reads this
      requires Valid()
      ensures r == Day18Snail.Magnitude(Tree())
    {
      MagnitudeAt(storage, root, layout)
    }

    /**
     * `first_on_left`: from the pair `start` that `q` leads to, coming up from
     * its half `idx` (the turn `d`), the index of the nearest regular number on
     * the left of `idx`; None when there is none.
     */
    method FirstOnLeft(start: nat, idx: nat, depth: nat, ghost q: Path, ghost d: Turn) returns (r: Option<(nat, nat)>)
      requires Valid() && OnLayout(layout, q) && Sub(layout, q).Node?
      requires start == Sub(layout, q).at && idx == Sub(layout, q + [d]).at && depth == |q|
      ensures r.None? <==> LeftOf(layout, q + [d]) == []
      ensures r.Some? ==> r.value.0 == LeftOf(layout, q + [d])[|LeftOf(layout, q + [d])| - 1]
      decreases |q|
    {
      ghost var n := Sub(layout, q);
      SubTurn(layout, q, d);
      Above(storage, parent, root, layout, q + [d]);
      assert (q + [d])[..|q|] == q;
      LeftOfTurn(layout, q, d);
      if q != [] {
        Above(storage, parent, root, layout, q);
      }
      // The `if let` always matches: `start` holds a pair.
      var candidate := Left(storage[start]);
      if candidate == idx {
        if start in parent {
          r := FirstOnLeft(parent[start], start, depth - 1, q[..|q| - 1], q[|q| - 1]);
          return;
        }
        r := None;
        return;
      }
      var depthNow: nat := depth + 1;
      ghost var part := n.l;
      SubShape(storage, layout, q);
      while storage[candidate].Pair?
        invariant Holds(storage, part) && candidate == part.at
        invariant LeafIdx(part)[|LeafIdx(part)| - 1] == LeafIdx(n.l)[|LeafIdx(n.l)| - 1]
        decreases part
      {
        candidate := Right(storage[candidate]);
        depthNow := depthNow + 1;
        part := part.r;
      }
      r := Some((candidate, depthNow));
    }

    /**
     * `first_on_right`: from the pair `start` that `q` leads to, coming up from
     * its half `idx` (the turn `d`), the index of the nearest regular number on
     * the right of `idx`; None when there is none.
     */
    method FirstOnRight(start: nat, idx: nat, depth: nat, ghost q: Path, ghost d: Turn) returns (r: Option<(nat, nat)>)
      requires Valid() && OnLayout(layout, q) && Sub(layout, q).Node?
      requires start == Sub(layout, q).at && idx == Sub(layout, q + [d]).at && depth == |q|
      ensures r.None? <==> RightOf(layout, q + [d]) == []
      ensures r.Some? ==> r.value.0 == RightOf(layout, q + [d])[0]
      decreases |q|
    {
      ghost var n := Sub(layout, q);
      SubTurn(layout, q, d);
      Above(storage, parent, root, layout, q + [d]);
      assert (q + [d])[..|q|] == q;
      RightOfTurn(layout, q, d);
      if q != [] {
        Above(storage, parent, root, layout, q);
      }
      // The `if let` always matches: `start` holds a pair.
      var candidate := Right(storage[start]);
      if candidate == idx {
        if start in parent {
          r := FirstOnRight(parent[start], start, depth - 1, q[..|q| - 1], q[|q| - 1]);
          return;
        }
        r := None;
        return;
      }
      var depthNow: nat := depth + 1;
      ghost var part := n.r;
      SubShape(storage, layout, q);
      while storage[candidate].Pair?
        invariant Holds(storage, part) && candidate == part.at
        invariant LeafIdx(part)[0] == LeafIdx(n.r)[0]
        decreases part
      {
        candidate := Left(storage[candidate]);
        depthNow := depthNow + 1;
        part := part.l;
      }
      r := Some((candidate, depthNow));
    }

    /**
     * `find_split`: the index of the leftmost regular number above 9 in the
     * number stored from `idx` along `c`, and how many pairs it sits in when
     * that number sits in `depth`.
     */
    function FindSplit(idx: nat, depth: nat, ghost c: Layout): (r: Option<(nat, nat)>)
      reads this
      requires Holds(storage, c) && c.at == idx
      ensures r.None? <==> FirstBig(Shape(storage, c)).None?
      ensures r.Some? ==> r.value == (Sub(c, FirstBig(Shape(storage, c)).value).at, depth + |FirstBig(Shape(storage, c)).value|)
      decreases c
    {
      match storage[idx]
      case Value(n) => if n > 9 then Some((idx, depth)) else None
      case Pair(l, r) =>
        FirstBigNode(storage, c);
        var found := FindSplit(l, depth + 1, c.l);
        if found.Some? then found else FindSplit(r, depth + 1, c.r)
    }

    /**
     * `reduce`: appends to `queue` the pairs of the number stored from `idx`
     * along `c` that sit inside exactly four pairs, left to right, when that
     * number sits inside `depth`.
     */
    method Reduce(idx: nat, depth: nat, ghost c: Layout, queue: seq<Explosion>) returns (out: seq<Explosion>)
      requires Holds(storage, c) && c.at == idx
      ensures out == queue + Entries(c, Nested(Shape(storage, c), depth), depth)
      decreases c
    {
      out := queue;
      match storage[idx]
      case Pair(left, right) =>
        if depth == 4 {
          assert Entries(c, [[]], depth) == [Explosion(idx, depth)];
          out := out + [Explosion(idx, depth)];
        } else {
          out := Reduce(left, depth + 1, c.l, out);
          out := Reduce(right, depth + 1, c.r, out);
          EntriesUnder(c, Nested(Shape(storage, c.l), depth + 1), Nested(Shape(storage, c.r), depth + 1), depth);
        }
      case Value(_) =>
    }
 
    /**
     * The first half of an explosion in `apply_reduce`: the left value of the
     * pair `p` leads to is added to the nearest regular number on its left and
     * the right value to the nearest on its right.
     */
    method AddToNeighbours(idx: nat, depth: nat, ghost p: Path)
      modifies this
      requires Valid() && p != [] && Explodes(At(Tree(), p))
      requires idx == Sub(layout, p).at && depth == |p|
      ensures Valid() && Tree() == Bumped(old(Tree()), p)
      ensures layout == old(layout) && parent == old(parent) && root == old(root) && |storage| == |old(storage)|
    {
      ghost var t, s0 := Tree(), storage;
      ghost var up, d := p[..|p| - 1], p[|p| - 1];
      ExplodeSite(storage, layout, p);
      Above(storage, parent, root, layout, p);
      var pair := storage[idx];
      var parentIdx := parent[idx];
      var lv := ValueOf(storage[Left(pair)]);
      var rv := ValueOf(storage[Right(pair)]);
      var left := FirstOnLeft(parentIdx, idx, depth - 1, up, d);
      if left.Some? {
        BumpLeftArena(storage, parent, root, layout, p, lv);
        storage := storage[left.value.0 := AddValue(storage[left.value.0], lv)];
      }
      ghost var t1 := Tree();
      var right := FirstOnRight(parentIdx, idx, depth - 1, up, d);
      if right.Some? {
        BumpRightArena(storage, parent, root, layout, p, rv);
        storage := storage[right.value.0 := AddValue(storage[right.value.0], rv)];
      } else {
        NoRightNeighbour(storage, layout, p, rv);
      }
      BumpedByLayout(s0, layout, p, t1, Tree());
    }

    /**
     * An explosion in `apply_reduce`: after the neighbours have gained the
     * pair's values, a new regular number 0 is pushed and the pair's parent
     * points at it in place of the pair.
     */
    method ExplodeAt(idx: nat, depth: nat, ghost p: Path)
      modifies this
      requires Valid() && p != [] && Explodes(At(Tree(), p))
      requires idx == Sub(layout, p).at && depth == |p|
      ensures Valid() && Tree() == Explode(old(Tree()), p)
      ensures layout == ReplaceLayout(old(layout), p, Leaf(|old(storage)|))
      ensures |storage| == |old(storage)| + 1
    {
      ExplodeSite(storage, layout, p);
      AddToNeighbours(idx, depth, p);
      Above(storage, parent, root, layout, p);
      var parentIdx := parent[idx];
      var elemIdx := |storage|;
      var s := storage + [Value(0)];
      ghost var s1 := s;
      var links := OrInsert(parent, elemIdx, parentIdx);
      if Left(s[parentIdx]) == idx {
        s := s[parentIdx := SetLeft(s[parentIdx], elemIdx)];
      } else {
        s := s[parentIdx := SetRight(s[parentIdx], elemIdx)];
      }
      ExplodeLinks(storage, parent, root, layout, p, s1, s, links);
      storage, parent, layout := s, links, ReplaceLayout(layout, p, Leaf(elemIdx));
    }

    /**
     * A split in `apply_reduce`: the regular number `p` leads to gives way to a
     * new pair of its halves, rounded down and up, pushed after everything else.
     */
    method SplitAt(idx: nat, ghost p: Path)
      modifies this
      requires Valid() && p != [] && OnPath(Tree(), p) && At(Tree(), p).Regular? && idx == Sub(layout, p).at
      ensures Valid() && Tree() == Split(old(Tree()), p)
      ensures layout == ReplaceLayout(old(layout), p, Node(|old(storage)| + 2, Leaf(|old(storage)|), Leaf(|old(storage)| + 1)))
      ensures |storage| == |old(storage)| + 3
    {
      SubShape(storage, layout, p);
      Above(storage, parent, root, layout, p);
      var value := ValueOf(storage[idx]);
      var leftV := value / 2;
      var rightV := value / 2 + if value % 2 == 0 then 0 else 1;
      var off := |storage|;
      var s := storage + [Value(leftV), Value(rightV), Pair(off, off + 1)];
      ghost var s1 := s;
      var parentIdx := parent[idx];
      var links := OrInsert(parent, off, off + 2);
      links := OrInsert(links, off + 1, off + 2);
      links := OrInsert(links, off + 2, parentIdx);
      if Left(s[parentIdx]) == idx {
        s := s[parentIdx := SetLeft(s[parentIdx], off + 2)];
      } else {
        s := s[parentIdx := SetRight(s[parentIdx], off + 2)];
      }
      SplitLinks(storage, parent, root, layout, p, s1, s, links);
      storage, parent, layout := s, links, ReplaceLayout(layout, p, Node(off + 2, Leaf(off), Leaf(off + 1)));
    }

    /**
     * The explosion loop of `apply_reduce`: explodes the queued pairs left to
     * right, one reduction action each, with at most `fuel` actions;
     * `finished` is false when the fuel runs out first.
     */
    method ExplodeQueued(explosions: seq<Explosion>, fuel: nat) returns (anyOperation: bool, budget: nat, finished: bool, ghost steps: nat)
      modifies this
      requires Valid() && Tree().Nest? && Depth(Tree()) <= 5
      requires explosions == Entries(layout, Nested(Tree(), 0), 0)
      ensures Valid() && Tree().Nest? && Depth(Tree()) <= 5 && Iterate(old(Tree()), steps) == Some(Tree())
      ensures budget <= fuel && (anyOperation ==> budget < fuel)
      ensures finished ==> Nested(Tree(), 0) == []
    {
      ghost var t0 := Tree();
      steps := 0;
      var queue := explosions;
      budget := fuel;
      anyOperation := false;
      while queue != []
        invariant Valid() && Tree().Nest? && Depth(Tree()) <= 5
        invariant queue == Entries(layout, Nested(Tree(), 0), 0)
        invariant Iterate(t0, steps) == Some(Tree())
        invariant budget <= fuel && (anyOperation ==> budget < fuel)
        decreases |queue|
      {
        ghost var t, p := Tree(), Nested(Tree(), 0)[0];
        var e := queue[0];
        queue := queue[1..];
        NestedIff(t, 0, p);
        SubShape(storage, layout, p);
        Above(storage, parent, root, layout, p);
        var up := parent[e.idx];
        // An entry whose pair is gone is skipped; every entry here is live.
        if Left(storage[up]) == e.idx || Right(storage[up]) == e.idx {
          if budget == 0 {
            finished := false;
            return;
          }
          budget := budget - 1;
          anyOperation := true;
          NestedExplodes(t, 0, p);
          ExplodeNested(t);
          QueueAfter(layout, t, Leaf(|storage|));
          IterateMore(t0, steps, t);
          ExplodeAt(e.idx, e.depth, p);
          steps := steps + 1;
        }
      }
      finished := true;
    }

    /**
     * The split loop of `apply_reduce`: splits the leftmost regular number
     * above 9, one reduction action each, until there is none or a split makes
     * a pair inside four pairs, which `queue` then names; at most `fuel`
     * actions, and `finished` is false when the fuel runs out first.
     */
    method SplitUntilDeep(fuel: nat) returns (anyOperation: bool, budget: nat, finished: bool, queue: seq<Explosion>, ghost steps: nat)
      modifies this
      requires Valid() && Tree().Nest? && Depth(Tree()) <= 5 && Nested(Tree(), 0) == []
      ensures Valid() && Tree().Nest? && Depth(Tree()) <= 5 && Iterate(old(Tree()), steps) == Some(Tree())
      ensures queue == Entries(layout, Nested(Tree(), 0), 0)
      ensures budget <= fuel && (anyOperation ==> budget < fuel)
      ensures finished && !anyOperation ==> Small(Tree()) && queue == []
    {
      ghost var t0 := Tree();
      steps := 0;
      queue := [];
      budget := fuel;
      anyOperation := false;
      while true
        invariant Valid() && Tree().Nest? && Depth(Tree()) <= 5
        invariant queue == [] && Nested(Tree(), 0) == []
        invariant Iterate(t0, steps) == Some(Tree())
        invariant budget <= fuel && (anyOperation ==> budget < fuel)
        decreases budget
      {
        var found := FindSplit(root, 0, layout);
        if found.None? {
          FirstBigLeftmost(Tree());
          finished := true;
          return;
        }
        if budget == 0 {
          finished := false;
          return;
        }
        budget := budget - 1;
        anyOperation := true;
        ghost var t, p := Tree(), FirstBig(Tree()).value;
        var idx, depth := found.value.0, found.value.1;
        SplitStep(t);
        IterateMore(t0, steps, t);
        SubShape(storage, layout, p);
        SubReplaced(layout, p, Node(|storage| + 2, Leaf(|storage|), Leaf(|storage| + 1)));
        var off := |storage|;
        SplitAt(idx, p);
        steps := steps + 1;
        if depth == 4 {
          assert Entries(layout, [p], 0) == [Explosion(off + 2, depth)];
          queue := [Explosion(off + 2, depth)] + queue;
          finished := true;
          return;
        }
      }
    }

    /**
     * `apply_reduce`: explodes the queued pairs, then splits until a split
     * makes a pair inside four pairs, and starts over until neither applies.
     * `steps` reduction actions lead from the old number to the new one, which
     * is reduced when the loop ends by itself; `fuel` bounds the actions, and
     * `done` is false when it runs out first.
     */
    method ApplyReduce(explosions: seq<Explosion>, fuel: nat) returns (done: bool, ghost steps: nat)
      modifies this
      requires Valid() && Tree().Nest? && Depth(Tree()) <= 5
      requires explosions == Entries(layout, Nested(Tree(), 0), 0)
      ensures Valid() && Tree().Nest? && Iterate(old(Tree()), steps) == Some(Tree())
      ensures done ==> Reduced(Tree())
    {
      ghost var t0 := Tree();
      steps := 0;
      var queue := explosions;
      var budget := fuel;
      while true
        invariant Valid() && Tree().Nest? && Depth(Tree()) <= 5
        invariant queue == Entries(layout, Nested(Tree(), 0), 0)
        invariant Iterate(t0, steps) == Some(Tree())
        decreases budget
      {
        ghost var before, t1 := budget, Tree();
        var exploded, split, finished: bool;
        ghost var more: nat;
        exploded, budget, finished, more := ExplodeQueued(queue, budget);
        IterateAdd(t0, steps, more, t1);
        steps := steps + more;
        if !finished {
          done := false;
          return;
        }
        ghost var t2 := Tree();
        split, budget, finished, queue, more := SplitUntilDeep(budget);
        IterateAdd(t0, steps, more, t2);
        steps := steps + more;
        if !finished {
          done := false;
          return;
        }
        if !(exploded || split) {
          NestedEmpty(Tree(), 0);
          done := true;
          return;
        }
      }
    }

    /**
     * The copying half of `Number::add`: this number's storage, then the new
     * pair, then `other`'s storage with its indices moved up past the pair,
     * and the parent links of both joined; the result stands for the pair of
     * the two numbers.
     */
    method Join(other: Number)
      modifies this
      requires other != this && Valid() && other.Valid()
      ensures Valid() && Tree() == Nest(old(Tree()), other.Tree())
    {
      var off := |storage|;
      var s, links := JoinStorage(storage, parent, root, layout, other.storage, other.parent, other.root, other.layout);
      storage, parent, root, layout := s, links, off, Node(off, layout, ShiftLayout(other.layout, off + 1));
    }

    /**
     * `Number::add`: the pair of this number and `other`, stored as this
     * number's storage, then the new pair, then a copy of `other`'s storage
     * with its indices moved up past the pair; then reduced. `steps` reduction
     * actions lead from the pair to the new number, which is reduced unless
     * `fuel` ran out first (`done` false).
     */
    method Add(other: Number, fuel: nat) returns (done: bool, ghost steps: nat)
      modifies this
      requires other != this && Valid() && other.Valid() && Depth(Tree()) <= 4 && Depth(other.Tree()) <= 4
      ensures Valid() && Iterate(Nest(old(Tree()), other.Tree()), steps) == Some(Tree())
      ensures done ==> Reduced(Tree())
    {
      Join(other);
      var explosions := Reduce(root, 0, layout, []);
      done, steps := ApplyReduce(explosions, fuel);
    }
  }
}
