/**
 * Dumbo octopuses (day 11): a 10 x 10 board of energy levels.  A step adds 1
 * to every octopus; each one reaching 10 flashes, adding 1 to its (up to
 * eight) neighbours, which may flash in turn, at most once per step; every
 * octopus that flashed ends the step at 0.
 *
 * The flashed set is characterised without reference to the work list that
 * finds it: writing g0 for the board after the first increment, it is the
 * least set F of cells such that a cell is in F exactly when g0 plus the
 * number of its neighbours in F reaches 10.
 */
module Day11 {
  import opened Common
  import opened Text

  /** `GRID_SIZE`. */
  const GridSize: nat := 10

  type Cell = (nat, nat)

  /** A board as rows of energy levels, indexed [y][x]. */
  type Grid = seq<seq<int>>

  predicate IsGrid(g: Grid)
  {
    |g| == GridSize && forall y :: 0 <= y < |g| ==> |g[y]| == GridSize
  }

  predicate InGrid(c: (int, int))
  {
    0 <= c.0 < GridSize && 0 <= c.1 < GridSize
  }

  function Get(g: Grid, c: Cell): int
    requires IsGrid(g) && InGrid(c)
  {
    g[c.1][c.0]
  }

  function SetCell(g: Grid, c: Cell, v: int): (r: Grid)
    requires IsGrid(g) && InGrid(c)
    ensures IsGrid(r)
    ensures forall d: Cell {:trigger Get(r, d)} :: InGrid(d) ==> Get(r, d) == if d == c then v else Get(g, d)
  {
    g[c.1 := g[c.1][c.0 := v]]
  }

  /** Two boards with the same level everywhere are the same board. */
  lemma GridEq(a: Grid, b: Grid)
    requires IsGrid(a) && IsGrid(b)
    requires forall c: Cell :: InGrid(c) ==> Get(a, c) == Get(b, c)
    ensures a == b
  {
    forall y | 0 <= y < GridSize
      ensures a[y] == b[y]
    {
      forall x | 0 <= x < GridSize
        ensures a[y][x] == b[y][x]
      {
        assert Get(a, (x, y)) == Get(b, (x, y));
      }
    }
  }

  // Neighbours

  /** The eight surrounding cells: at most one step away on each axis, and not the cell itself. */
  predicate Around(p: (int, int), q: (int, int))
  {
    p != q && -1 <= p.0 - q.0 <= 1 && -1 <= p.1 - q.1 <= 1
  }

  predicate Distinct<T(==)>(s: seq<T>)
  {
    forall i, j :: 0 <= i < j < |s| ==> s[i] != s[j]
  }

  /** The filter of `neighbours`: inside the board and not the centre. */
  function KeepAround(cands: seq<(int, int)>, centre: (int, int)): (r: seq<Cell>)
  {
    if cands == [] then []
    else if InGrid(cands[0]) && cands[0] != centre then [(cands[0].0 as nat, cands[0].1 as nat)] + KeepAround(cands[1..], centre)
    else KeepAround(cands[1..], centre)
  }

  /** The filter keeps exactly the candidates on the board other than the centre, each once. */
  lemma {:induction false} KeepAroundKeeps(cands: seq<(int, int)>, centre: (int, int))
    ensures var r := KeepAround(cands, centre);
            && |r| <= |cands|
            && (forall i :: 0 <= i < |r| ==> r[i] in cands && InGrid(r[i]) && r[i] != centre)
            && (forall c: Cell :: c in cands && InGrid(c) && c != centre ==> c in r)
            && (centre in cands ==> |r| < |cands|)
            && (Distinct(cands) ==> Distinct(r))
  {
    if cands != [] {
      KeepAroundKeeps(cands[1..], centre);
      assert cands == [cands[0]] + cands[1..];
      assert Distinct(cands) ==> cands[0] !in cands[1..] && Distinct(cands[1..]);
    }
  }

  /** `neighbours`: the cells around (x, y) in the order of the offsets (-1, 0, 1) x (-1, 0, 1), kept inside the board. */
  function Neighbours(x: nat, y: nat): (r: seq<Cell>)
  {
    KeepAround(Candidates(x, y), (x, y))
  }

  function Candidates(x: nat, y: nat): (cands: seq<(int, int)>)
  {
    var xi, yi := x as int, y as int;
    [(xi - 1, yi - 1), (xi - 1, yi), (xi - 1, yi + 1),
     (xi, yi - 1), (xi, yi), (xi, yi + 1),
     (xi + 1, yi - 1), (xi + 1, yi), (xi + 1, yi + 1)]
  }

  /** The nine offsets are nine different cells, the centre among them, and they cover every cell around it. */
  lemma CandidatesCover(x: nat, y: nat)
    ensures var cands := Candidates(x, y);
            |cands| == 9 && cands[4] == (x, y) && Distinct(cands)
            && forall c :: Around(c, (x, y)) ==> c in cands
  {
  }

  /** At most eight neighbours, each listed once. */
  lemma NeighboursDistinct(x: nat, y: nat)
    ensures |Neighbours(x, y)| <= 8 && Distinct(Neighbours(x, y))
  {
    CandidatesCover(x, y);
    KeepAroundKeeps(Candidates(x, y), (x, y));
  }

  /** Every neighbour is on the board and around the cell. */
  lemma NeighboursAround(x: nat, y: nat)
    ensures forall i :: 0 <= i < |Neighbours(x, y)| ==> InGrid(Neighbours(x, y)[i]) && Around(Neighbours(x, y)[i], (x, y))
  {
    KeepAroundKeeps(Candidates(x, y), (x, y));
  }

  /** Every cell of the board around the cell is a neighbour. */
  lemma NeighboursComplete(x: nat, y: nat)
    ensures forall c: Cell :: InGrid(c) && Around(c, (x, y)) ==> c in Neighbours(x, y)
  {
    CandidatesCover(x, y);
    KeepAroundKeeps(Candidates(x, y), (x, y));
  }

  /** Being neighbours is symmetric. */
  lemma NeighbourSymmetric(p: Cell, q: Cell)
    requires InGrid(p) && InGrid(q)
    ensures q in Neighbours(p.0, p.1) <==> p in Neighbours(q.0, q.1)
  {
    NeighboursAround(p.0, p.1);
    NeighboursAround(q.0, q.1);
    NeighboursComplete(p.0, p.1);
    NeighboursComplete(q.0, q.1);
  }

  // Counting flashed neighbours

  /** How many of the cells ns are in s. */
  function CountIn(ns: seq<Cell>, s: set<Cell>): (n: nat)
    ensures n <= |ns|
  {
    if ns == [] then 0 else CountIn(ns[..|ns| - 1], s) + if ns[|ns| - 1] in s then 1 else 0
  }

  lemma {:induction false} CountInMono(ns: seq<Cell>, s: set<Cell>, t: set<Cell>)
    requires s <= t
    ensures CountIn(ns, s) <= CountIn(ns, t)
  {
    if ns != [] {
      CountInMono(ns[..|ns| - 1], s, t);
    }
  }

  lemma {:induction false} CountInAdd(ns: seq<Cell>, s: set<Cell>, p: Cell)
    requires Distinct(ns)
    ensures CountIn(ns, s + {p}) == CountIn(ns, s) + if p in ns && p !in s then 1 else 0
  {
    if ns != [] {
      var n := |ns| - 1;
      assert Distinct(ns[..n]);
      CountInAdd(ns[..n], s, p);
      assert p in ns <==> p in ns[..n] || p == ns[n];
    }
  }

  /** The number of neighbours of c in s. */
  function Flashed(c: Cell, s: set<Cell>): nat
  {
    CountIn(Neighbours(c.0, c.1), s)
  }

  /** Adding p to s adds one to the count of exactly p's neighbours. */
  lemma FlashedAdd(c: Cell, s: set<Cell>, p: Cell)
    requires InGrid(c) && InGrid(p) && p !in s
    ensures Flashed(c, s + {p}) == Flashed(c, s) + if c in Neighbours(p.0, p.1) then 1 else 0
  {
    NeighboursDistinct(c.0, c.1);
    CountInAdd(Neighbours(c.0, c.1), s, p);
    NeighbourSymmetric(c, p);
  }

  // The flash rule

  /** Cell c of the incremented board g0 reaches 10 once the cells of s have flashed. */
  predicate Reaches(g0: Grid, c: Cell, s: set<Cell>)
    requires IsGrid(g0) && InGrid(c)
  {
    Get(g0, c) + Flashed(c, s) >= 10
  }

  /** F is a fixed point of the flash rule: a cell is in F exactly when it reaches 10 given F. */
  ghost predicate Stable(g0: Grid, F: set<Cell>)
    requires IsGrid(g0)
  {
    (forall c :: c in F ==> InGrid(c)) && forall c: Cell {:trigger Reaches(g0, c, F)} :: InGrid(c) ==> (c in F <==> Reaches(g0, c, F))
  }

  /** G is closed under the flash rule: a cell outside G does not reach 10 given G. */
  ghost predicate Closed(g0: Grid, G: set<Cell>)
    requires IsGrid(g0)
  {
    forall c: Cell {:trigger Reaches(g0, c, G)} :: InGrid(c) && c !in G ==> !Reaches(g0, c, G)
  }

  function SetOf(s: seq<Cell>): set<Cell>
  {
    set i | 0 <= i < |s| :: s[i]
  }

  /** The i-th cell of the order reached 10 from the cells before it alone. */
  ghost predicate ReachesAt(g0: Grid, order: seq<Cell>, i: nat)
    requires IsGrid(g0) && i < |order| && InGrid(order[i])
  {
    Reaches(g0, order[i], SetOf(order[..i]))
  }

  /** Each cell in the order reached 10 from the cells before it alone. */
  ghost predicate Justified(g0: Grid, order: seq<Cell>)
    requires IsGrid(g0)
  {
    Distinct(order) && (forall i :: 0 <= i < |order| ==> InGrid(order[i]))
    && forall i: nat {:trigger ReachesAt(g0, order, i)} :: i < |order| ==> ReachesAt(g0, order, i)
  }

  lemma SetOfPrefix(s: seq<Cell>, i: nat, j: nat)
    requires i <= j <= |s|
    ensures SetOf(s[..i]) <= SetOf(s[..j])
  {
    forall c | c in SetOf(s[..i])
      ensures c in SetOf(s[..j])
    {
      var k :| 0 <= k < i && s[..i][k] == c;
      assert s[..j][k] == c;
    }
  }

  lemma JustifiedAt(g0: Grid, order: seq<Cell>, i: nat)
    requires IsGrid(g0) && Justified(g0, order) && i < |order|
    ensures InGrid(order[i]) && Reaches(g0, order[i], SetOf(order[..i]))
  {
    assert ReachesAt(g0, order, i);
  }

  lemma PrefixIn(order: seq<Cell>, G: set<Cell>, m: nat)
    requires m <= |order| && forall i :: 0 <= i < m ==> order[i] in G
    ensures SetOf(order[..m]) <= G
  {
    forall d | d in SetOf(order[..m])
      ensures d in G
    {
      var k :| 0 <= k < m && order[..m][k] == d;
    }
  }

  /** A cell that reaches 10 from flashed cells all inside a closed set is inside it too. */
  lemma ClosedStep(g0: Grid, c: Cell, before: set<Cell>, G: set<Cell>)
    requires IsGrid(g0) && InGrid(c) && Reaches(g0, c, before) && before <= G && Closed(g0, G)
    ensures c in G
  {
    CountInMono(Neighbours(c.0, c.1), before, G);
    assert Reaches(g0, c, G);
  }

  /** If the cells before position m of a justified order lie in a closed set, so does the cell at m. */
  lemma NextInClosed(g0: Grid, order: seq<Cell>, G: set<Cell>, m: nat)
    requires IsGrid(g0) && Justified(g0, order) && Closed(g0, G) && m < |order|
    requires forall i :: 0 <= i < m ==> order[i] in G
    ensures order[m] in G
  {
    JustifiedAt(g0, order, m);
    PrefixIn(order, G, m);
    ClosedStep(g0, order[m], SetOf(order[..m]), G);
  }

  /** A justified order lies inside every closed set. */
  lemma {:induction false} JustifiedInClosed(g0: Grid, order: seq<Cell>, G: set<Cell>, n: nat)
    requires IsGrid(g0) && Justified(g0, order) && Closed(g0, G) && n <= |order|
    ensures forall i :: 0 <= i < n ==> order[i] in G
  {
    if n > 0 {
      JustifiedInClosed(g0, order, G, n - 1);
      NextInClosed(g0, order, G, n - 1);
    }
  }

  /** So a justified fixed point is the least closed set. */
  lemma LeastFlashSet(g0: Grid, order: seq<Cell>, G: set<Cell>)
    requires IsGrid(g0) && Justified(g0, order) && Closed(g0, G)
    ensures SetOf(order) <= G
  {
    JustifiedInClosed(g0, order, G, |order|);
  }

  /** Two justified fixed points are the same set: the flashed set of a step is determined by the board. */
  lemma FlashSetUnique(g0: Grid, o1: seq<Cell>, o2: seq<Cell>)
    requires IsGrid(g0) && Justified(g0, o1) && Stable(g0, SetOf(o1)) && Justified(g0, o2) && Stable(g0, SetOf(o2))
    ensures SetOf(o1) == SetOf(o2)
  {
    LeastFlashSet(g0, o1, SetOf(o2));
    LeastFlashSet(g0, o2, SetOf(o1));
  }

  /** At most 100 cells: the board has 100. */
  lemma {:induction false} CellsBound(s: set<Cell>, k: nat)
    requires forall c :: c in s ==> InGrid(c) && c.1 * GridSize + c.0 < k
    ensures |s| <= k
  {
    if k > 0 {
      var e: Cell := ((k - 1) % GridSize, (k - 1) / GridSize);
      var rest := s - {e};
      forall c | c in rest
        ensures c.1 * GridSize + c.0 < k - 1
      {
      }
      CellsBound(rest, k - 1);
    } else {
      assert forall c :: c in s ==> c.1 * GridSize + c.0 >= 0;
    }
  }

  lemma GridCells(s: set<Cell>)
    requires forall c :: c in s ==> InGrid(c)
    ensures |s| <= GridSize * GridSize
  {
    CellsBound(s, GridSize * GridSize);
  }

  /** The board after the first increment of a step. */
  function Incremented(g: Grid): (r: Grid)
    requires IsGrid(g)
    ensures IsGrid(r) && forall c: Cell {:trigger Get(r, c)} :: InGrid(c) ==> Get(r, c) == Get(g, c) + 1
  {
    seq(GridSize, y requires 0 <= y < GridSize => seq(GridSize, x requires 0 <= x < GridSize => g[y][x] + 1))
  }

  /** The board at the end of a step whose flashed set is F. */
  function AfterFlashes(g0: Grid, F: set<Cell>): (r: Grid)
    requires IsGrid(g0)
    ensures IsGrid(r)
    ensures forall c: Cell {:trigger Get(r, c)} :: InGrid(c) ==> Get(r, c) == if c in F then 0 else Get(g0, c) + Flashed(c, F)
  {
    seq(GridSize, y requires 0 <= y < GridSize =>
      seq(GridSize, x requires 0 <= x < GridSize => if (x, y) in F then 0 else g0[y][x] + Flashed((x, y), F)))
  }

  /** After a step every octopus that flashed is at 0 and every other one is at most 9. */
  lemma AfterStepBounded(g: Grid, F: set<Cell>)
    requires IsGrid(g) && Stable(Incremented(g), F)
    ensures forall c: Cell :: InGrid(c) ==> (c in F <==> Get(AfterFlashes(Incremented(g), F), c) == 0 && Get(g, c) + 1 + Flashed(c, F) >= 10)
    ensures forall c: Cell :: InGrid(c) ==> Get(AfterFlashes(Incremented(g), F), c) <= 9
  {
    var g0 := Incremented(g);
    var a := AfterFlashes(g0, F);
    forall c: Cell | InGrid(c)
      ensures (c in F <==> Get(a, c) == 0 && Get(g, c) + 1 + Flashed(c, F) >= 10) && Get(a, c) <= 9
    {
      assert Get(g0, c) == Get(g, c) + 1;
      assert c in F <==> Reaches(g0, c, F);
    }
  }

  /** Levels that start non-negative stay non-negative. */
  lemma AfterStepNonNegative(g: Grid, F: set<Cell>)
    requires IsGrid(g) && forall c: Cell :: InGrid(c) ==> Get(g, c) >= 0
    ensures forall c: Cell :: InGrid(c) ==> Get(AfterFlashes(Incremented(g), F), c) >= 0
  {
  }

  // The state of the flash loop of `step`

  /** The levels are the incremented ones plus one per flashed (popped) neighbour, plus one per cell of `extra`. */
  ghost predicate Increments(g0: Grid, cur: Grid, done: set<Cell>, extra: seq<Cell>)
  {
    IsGrid(g0) && IsGrid(cur)
    && forall c: Cell {:trigger Get(cur, c)} :: InGrid(c) ==> Get(cur, c) == Get(g0, c) + Flashed(c, done) + if c in extra then 1 else 0
  }

  /** `already_flashed` holds exactly the cells at 10 or more. */
  ghost predicate Flagged(cur: Grid, F: set<Cell>)
    requires IsGrid(cur)
  {
    (forall c :: c in F ==> InGrid(c)) && forall c: Cell {:trigger Get(cur, c)} :: InGrid(c) ==> (c in F <==> Get(cur, c) >= 10)
  }

  /** The work list holds the flagged cells not yet popped, once each. */
  ghost predicate Worklist(stack: seq<Cell>, F: set<Cell>, done: set<Cell>)
  {
    Distinct(stack) && done <= F && forall c :: c in stack <==> c in F && c !in done
  }

  /** The order lists the members of F. */
  ghost predicate Lists(F: set<Cell>, order: seq<Cell>)
  {
    forall c :: c in F <==> c in order
  }

  lemma ListsSetOf(F: set<Cell>, order: seq<Cell>)
    requires Lists(F, order)
    ensures F == SetOf(order)
  {
    SetOfMembers(order);
  }

  /**
   * The loop state between two pops.  (The conjunction is named so that the
   * verifier checks it as one obligation rather than one per conjunct.)
   */
  ghost predicate Flashing(g0: Grid, cur: Grid, F: set<Cell>, order: seq<Cell>, stack: seq<Cell>, done: set<Cell>)
  {
    var holds := Increments(g0, cur, done, []) && Flagged(cur, F) && Justified(g0, order) && Lists(F, order)
                 && Worklist(stack, F, done);
    holds
  }

  /** The loop state while the neighbours ns of popped cell p are raised, the first j of them so far. */
  ghost predicate Raising(g0: Grid, cur: Grid, F: set<Cell>, order: seq<Cell>, stack: seq<Cell>, done: set<Cell>,
                          p: Cell, ns: seq<Cell>, j: nat)
  {
    var holds := InGrid(p) && ns == Neighbours(p.0, p.1) && j <= |ns|
                 && Increments(g0, cur, done, ns[..j]) && Flagged(cur, F) && Justified(g0, order) && Lists(F, order)
                 && p in F && p !in done && Worklist(stack, F, done + {p});
    holds
  }

  lemma SetOfAppend(s: seq<Cell>, c: Cell)
    ensures SetOf(s + [c]) == SetOf(s) + {c}
  {
    var t := s + [c];
    forall d | d in SetOf(t)
      ensures d in SetOf(s) + {c}
    {
      var k :| 0 <= k < |t| && t[k] == d;
      if k < |s| { assert s[k] == d; }
    }
    forall d | d in SetOf(s)
      ensures d in SetOf(t)
    {
      var k :| 0 <= k < |s| && s[k] == d;
      assert t[k] == d;
    }
    assert t[|s|] == c;
  }

  lemma SetOfMembers(s: seq<Cell>)
    ensures forall c :: c in SetOf(s) <==> c in s
  {
    forall c | c in s
      ensures c in SetOf(s)
    {
      var k :| 0 <= k < |s| && s[k] == c;
    }
  }

  /** The incremented board seen as the state before the first pop. */
  lemma StartFlashing(g0: Grid, stack: seq<Cell>)
    requires IsGrid(g0) && Distinct(stack)
    requires forall c :: c in stack <==> InGrid(c) && Get(g0, c) >= 10
    ensures Flashing(g0, g0, SetOf(stack), stack, stack, {})
  {
    SetOfMembers(stack);
    forall c: Cell | InGrid(c)
      ensures Flashed(c, {}) == 0
    {
      CountInMono(Neighbours(c.0, c.1), {}, {});
      ZeroCount(Neighbours(c.0, c.1));
    }
    forall i: nat | i < |stack|
      ensures ReachesAt(g0, stack, i)
    {
      assert stack[i] in stack;
    }
  }

  lemma {:induction false} ZeroCount(ns: seq<Cell>)
    ensures CountIn(ns, {}) == 0
  {
    if ns != [] {
      ZeroCount(ns[..|ns| - 1]);
    }
  }

  /** Popping the last cell of the work list starts raising its neighbours. */
  lemma Pop(g0: Grid, cur: Grid, F: set<Cell>, order: seq<Cell>, stack: seq<Cell>, done: set<Cell>)
    requires Flashing(g0, cur, F, order, stack, done) && stack != []
    ensures InGrid(stack[|stack| - 1])
    ensures Raising(g0, cur, F, order, stack[..|stack| - 1], done, stack[|stack| - 1], Neighbours(stack[|stack| - 1].0, stack[|stack| - 1].1), 0)
  {
    var p := stack[|stack| - 1];
    var rest := stack[..|stack| - 1];
    assert p in stack;
    assert Distinct(rest);
    forall c
      ensures c in rest <==> c in F && c !in done + {p}
    {
      assert c in stack <==> c in rest || c == p;
      if c in rest {
        var k :| 0 <= k < |rest| && rest[k] == c;
        assert stack[k] == c && k != |stack| - 1;
      }
    }
  }

  /** Raising neighbour ns[j] by one keeps the levels in step with the raised prefix of ns. */
  lemma RaiseLevel(g0: Grid, cur: Grid, done: set<Cell>, ns: seq<Cell>, j: nat)
    requires j < |ns| && Increments(g0, cur, done, ns[..j]) && Distinct(ns) && InGrid(ns[j])
    ensures Increments(g0, SetCell(cur, ns[j], Get(cur, ns[j]) + 1), done, ns[..j + 1])
  {
    var n := ns[j];
    assert ns[..j + 1] == ns[..j] + [n];
    assert n !in ns[..j] by {
      forall k | 0 <= k < j
        ensures ns[..j][k] != n
      {
        assert ns[..j][k] == ns[k];
      }
    }
  }

  /** Appending a cell that reaches 10 from the cells already listed keeps the order justified. */
  lemma JustifiedAppend(g0: Grid, order: seq<Cell>, n: Cell)
    requires IsGrid(g0) && Justified(g0, order) && InGrid(n) && n !in order && Reaches(g0, n, SetOf(order))
    ensures Justified(g0, order + [n])
  {
    var order' := order + [n];
    assert order'[..|order|] == order;
    forall i: nat | i < |order'|
      ensures ReachesAt(g0, order', i)
    {
      if i < |order| {
        assert ReachesAt(g0, order, i);
        assert order'[..i] == order[..i];
      }
    }
  }

  /** A neighbour n of the popped cell p that reaches 10 is justified by the cells flagged before it. */
  lemma Flag(g0: Grid, cur: Grid, F: set<Cell>, order: seq<Cell>, done: set<Cell>, p: Cell, n: Cell)
    requires IsGrid(g0) && IsGrid(cur) && Justified(g0, order) && Lists(F, order) && InGrid(p) && InGrid(n) && n !in F
    requires done + {p} <= F && p !in done && n in Neighbours(p.0, p.1)
    requires Get(cur, n) == Get(g0, n) + Flashed(n, done) + 1 && Get(cur, n) >= 10
    ensures Justified(g0, order + [n])
  {
    FlashedAdd(n, done, p);
    NeighbourSymmetric(n, p);
    ListsSetOf(F, order);
    CountInMono(Neighbours(n.0, n.1), done + {p}, F);
    JustifiedAppend(g0, order, n);
  }

  /** The state of the flash loop: the levels, `already_flashed`, the order of flagging, and the work list. */
  datatype FlashState = FlashState(levels: Grid, flagged: set<Cell>, order: seq<Cell>, stack: seq<Cell>)

  /** One neighbour n goes up by one; reaching 10 for the first time flags and pushes it. */
  function RaiseOne(t: FlashState, n: Cell): (r: FlashState)
    requires IsGrid(t.levels) && InGrid(n)
    ensures IsGrid(r.levels)
  {
    var level := Get(t.levels, n) + 1;
    var raised := SetCell(t.levels, n, level);
    if level >= 10 && n !in t.flagged
    then FlashState(raised, t.flagged + {n}, t.order + [n], t.stack + [n])
    else t.(levels := raised)
  }

  /** The neighbours ns raised one after the other. */
  function RaiseAll(s: FlashState, ns: seq<Cell>): (r: FlashState)
    requires IsGrid(s.levels) && forall i :: 0 <= i < |ns| ==> InGrid(ns[i])
    ensures IsGrid(r.levels)
  {
    if ns == [] then s else RaiseOne(RaiseAll(s, ns[..|ns| - 1]), ns[|ns| - 1])
  }

  /** Raising cell n by one flags it exactly when it reaches 10. */
  lemma FlaggedRaise(cur: Grid, F: set<Cell>, n: Cell, raised: Grid)
    requires IsGrid(cur) && Flagged(cur, F) && InGrid(n) && raised == SetCell(cur, n, Get(cur, n) + 1)
    ensures Flagged(raised, if Get(cur, n) + 1 >= 10 then F + {n} else F)
  {
  }

  /** Pushing a cell that was not flagged yet keeps the work list and the order in step with the flagged set. */
  lemma Push(F: set<Cell>, order: seq<Cell>, stack: seq<Cell>, done: set<Cell>, n: Cell)
    requires Lists(F, order) && Worklist(stack, F, done) && n !in F
    ensures Lists(F + {n}, order + [n]) && Worklist(stack + [n], F + {n}, done)
  {
    assert n !in stack;
  }

  /** Raising one more neighbour keeps the loop state. */
  lemma RaiseOneKeeps(g0: Grid, t: FlashState, done: set<Cell>, p: Cell, ns: seq<Cell>, j: nat)
    requires Raising(g0, t.levels, t.flagged, t.order, t.stack, done, p, ns, j) && j < |ns| && InGrid(ns[j])
    ensures var r := RaiseOne(t, ns[j]);
            Raising(g0, r.levels, r.flagged, r.order, r.stack, done, p, ns, j + 1)
  {
    var n := ns[j];
    var raised := SetCell(t.levels, n, Get(t.levels, n) + 1);
    NeighboursDistinct(p.0, p.1);
    RaiseLevel(g0, t.levels, done, ns, j);
    FlaggedRaise(t.levels, t.flagged, n, raised);
    if Get(t.levels, n) + 1 >= 10 && n !in t.flagged {
      assert RaiseOne(t, n) == FlashState(raised, t.flagged + {n}, t.order + [n], t.stack + [n]);
      assert n in ns[..j + 1];
      Flag(g0, raised, t.flagged, t.order, done, p, n);
      Push(t.flagged, t.order, t.stack, done + {p}, n);
    } else {
      assert RaiseOne(t, n) == t.(levels := raised);
      assert (if Get(t.levels, n) + 1 >= 10 then t.flagged + {n} else t.flagged) == t.flagged;
    }
  }

  /** Raising the neighbours of a popped cell one by one keeps the loop state. */
  lemma {:induction false} RaiseAllKeeps(g0: Grid, s: FlashState, done: set<Cell>, p: Cell, ns: seq<Cell>, j: nat)
    requires Raising(g0, s.levels, s.flagged, s.order, s.stack, done, p, ns, 0) && j <= |ns|
    requires forall i :: 0 <= i < |ns| ==> InGrid(ns[i])
    ensures var r := RaiseAll(s, ns[..j]);
            Raising(g0, r.levels, r.flagged, r.order, r.stack, done, p, ns, j)
  {
    if j == 0 {
      assert ns[..0] == [];
    } else {
      RaiseAllKeeps(g0, s, done, p, ns, j - 1);
      assert ns[..j][..j - 1] == ns[..j - 1];
      RaiseOneKeeps(g0, RaiseAll(s, ns[..j - 1]), done, p, ns, j - 1);
    }
  }

  /** Once every neighbour was raised, the popped cell counts as flashed. */
  lemma Raised(g0: Grid, cur: Grid, F: set<Cell>, order: seq<Cell>, stack: seq<Cell>, done: set<Cell>,
               p: Cell, ns: seq<Cell>)
    requires Raising(g0, cur, F, order, stack, done, p, ns, |ns|)
    ensures Flashing(g0, cur, F, order, stack, done + {p})
  {
    assert ns[..|ns|] == ns;
    forall c: Cell | InGrid(c)
      ensures Get(cur, c) == Get(g0, c) + Flashed(c, done + {p})
    {
      FlashedAdd(c, done, p);
    }
  }

  /** One round of the flash loop: pop the last cell of the work list and raise its neighbours. */
  lemma FlashRound(g0: Grid, t: FlashState, done: set<Cell>)
    requires Flashing(g0, t.levels, t.flagged, t.order, t.stack, done) && t.stack != []
    ensures var p := t.stack[|t.stack| - 1];
            var ns := Neighbours(p.0, p.1);
            && InGrid(p) && p !in done && |done + {p}| <= GridSize * GridSize
            && (forall i :: 0 <= i < |ns| ==> InGrid(ns[i]))
            && var r := RaiseAll(t.(stack := t.stack[..|t.stack| - 1]), ns);
               Flashing(g0, r.levels, r.flagged, r.order, r.stack, done + {p})
  {
    var p := t.stack[|t.stack| - 1];
    var ns := Neighbours(p.0, p.1);
    var popped := t.(stack := t.stack[..|t.stack| - 1]);
    Pop(g0, t.levels, t.flagged, t.order, t.stack, done);
    NeighboursAround(p.0, p.1);
    RaiseAllKeeps(g0, popped, done, p, ns, |ns|);
    assert ns[..|ns|] == ns;
    var r := RaiseAll(popped, ns);
    Raised(g0, r.levels, r.flagged, r.order, r.stack, done, p, ns);
    GridCells(done + {p});
  }

  /** An empty work list: every flagged cell was popped, and the flagged set is a justified fixed point. */
  lemma Settled(g0: Grid, cur: Grid, F: set<Cell>, order: seq<Cell>, done: set<Cell>)
    requires Flashing(g0, cur, F, order, [], done)
    ensures done == F && Stable(g0, F) && F == SetOf(order)
    ensures forall c: Cell :: InGrid(c) ==> Get(cur, c) == Get(g0, c) + Flashed(c, F)
  {
    assert done == F by {
      forall c | c in F
        ensures c in done
      {
        assert c !in [];
      }
    }
    forall c: Cell | InGrid(c)
      ensures c in F <==> Reaches(g0, c, F)
    {
      assert Get(cur, c) == Get(g0, c) + Flashed(c, done);
    }
    ListsSetOf(F, order);
  }

  /** The value of a digit character as `(digit as i32 - 0x30) as u8` computes it. */
  function DigitValue(ch: char): (v: nat)
    ensures v < 256
    ensures '0' <= ch <= '9' ==> v == ch as int - '0' as int
  {
    (ch as int - 0x30) % 256
  }

  /** `from_str`: the first ten characters of the first ten lines; cells past a short line or a missing line stay 0. */
  function ParseGrid(s: string): (g: Grid)
    ensures IsGrid(g)
  {
    var lines := Lines(s);
    seq(GridSize, y requires 0 <= y < GridSize =>
      seq(GridSize, x requires 0 <= x < GridSize =>
        if y < |lines| && x < |lines[y]| then DigitValue(lines[y][x]) as int else 0))
  }

  /** Ten lines of ten digits are read as their digit values. */
  lemma ParseDigits(s: string)
    requires |Lines(s)| >= GridSize
    requires forall y :: 0 <= y < GridSize ==> |Lines(s)[y]| >= GridSize && forall x :: 0 <= x < GridSize ==> IsDigit(Lines(s)[y][x])
    ensures forall c: Cell :: InGrid(c) ==> 0 <= Get(ParseGrid(s), c) <= 9 && Get(ParseGrid(s), c) == Lines(s)[c.1][c.0] as int - '0' as int
  {
  }

  /** Board g becomes board g2 in one step with n flashes. */
  ghost predicate StepsTo(g: Grid, g2: Grid, n: nat)
  {
    var holds := IsGrid(g) && exists order: seq<Cell> :: StepBy(g, g2, n, order);
    holds
  }

  /** Board g becomes g2 in one step whose flashes, in the order they were found, are `order`. */
  ghost predicate StepBy(g: Grid, g2: Grid, n: nat, order: seq<Cell>)
    requires IsGrid(g)
  {
    var g0, F := Incremented(g), SetOf(order);
    Justified(g0, order) && Stable(g0, F) && g2 == AfterFlashes(g0, F) && n == |F|
  }

  /** What the flash loop leaves: a justified fixed point F listed by order, each cell of F raised by its flashed neighbours. */
  ghost predicate Cascaded(g0: Grid, cur: Grid, F: set<Cell>, order: seq<Cell>)
  {
    var holds := IsGrid(g0) && Justified(g0, order) && Stable(g0, F) && F == SetOf(order) && Increments(g0, cur, F, []);
    holds
  }

  /** The phases of `step` put together: increment, flash to the fixed point, reset the flashed cells. */
  lemma StepPhases(g: Grid, cur: Grid, F: set<Cell>, order: seq<Cell>)
    requires IsGrid(g) && Cascaded(Incremented(g), cur, F, order)
    ensures StepBy(g, AfterFlashes(Incremented(g), F), |F|, order) && StepsTo(g, AfterFlashes(Incremented(g), F), |F|)
  {
    assert StepBy(g, AfterFlashes(Incremented(g), F), |F|, order);
  }

  /** A step is a function of the board: its result and its number of flashes are determined. */
  lemma StepDeterministic(g: Grid, g1: Grid, n1: nat, g2: Grid, n2: nat)
    requires StepsTo(g, g1, n1) && StepsTo(g, g2, n2)
    ensures g1 == g2 && n1 == n2
  {
    var o1 :| StepBy(g, g1, n1, o1);
    var o2 :| StepBy(g, g2, n2, o2);
    FlashSetUnique(Incremented(g), o1, o2);
  }

  /** boards[i] steps to boards[i + 1] with counts[i] flashes. */
  ghost predicate Run(boards: seq<Grid>, counts: seq<nat>)
  {
    |boards| == |counts| + 1 && forall i :: 0 <= i < |counts| ==> StepsTo(boards[i], boards[i + 1], counts[i])
  }

  /** Runs of the same length from the same board agree on every board and every count. */
  lemma {:induction false} RunDeterministic(b1: seq<Grid>, c1: seq<nat>, b2: seq<Grid>, c2: seq<nat>)
    requires Run(b1, c1) && Run(b2, c2) && b1[0] == b2[0] && |c1| == |c2|
    ensures b1 == b2 && c1 == c2
  {
    if c1 != [] {
      var k := |c1| - 1;
      RunDeterministic(b1[..k + 1], c1[..k], b2[..k + 1], c2[..k]);
      assert b1[k] == b1[..k + 1][k] && b2[k] == b2[..k + 1][k];
      StepDeterministic(b1[k], b1[k + 1], c1[k], b2[k + 1], c2[k]);
      assert b1 == b1[..k + 1] + [b1[k + 1]] && b2 == b2[..k + 1] + [b2[k + 1]];
      assert c1 == c1[..k] + [c1[k]] && c2 == c2[..k] + [c2[k]];
    }
  }

  lemma RunPrefix(boards: seq<Grid>, counts: seq<nat>, k: nat)
    requires Run(boards, counts) && k <= |counts|
    ensures Run(boards[..k + 1], counts[..k])
  {
  }

  lemma RunExtend(boards: seq<Grid>, counts: seq<nat>, g: Grid, n: nat)
    requires Run(boards, counts) && StepsTo(boards[|boards| - 1], g, n)
    ensures Run(boards + [g], counts + [n])
  {
  }

  function Sum(counts: seq<nat>): nat
  {
    if counts == [] then 0 else Sum(counts[..|counts| - 1]) + counts[|counts| - 1]
  }

  /** Every step flashes at most the 100 octopuses, so k steps flash at most 100 k times. */
  lemma {:induction false} SumBound(boards: seq<Grid>, counts: seq<nat>)
    requires Run(boards, counts)
    ensures Sum(counts) <= GridSize * GridSize * |counts|
  {
    if counts != [] {
      var k := |counts| - 1;
      RunPrefix(boards, counts, k);
      SumBound(boards[..k + 1], counts[..k]);
      assert StepsTo(boards[k], boards[k + 1], counts[k]);
      var o :| StepBy(boards[k], boards[k + 1], counts[k], o);
      GridCells(SetOf(o));
    }
  }

  /** The reset loop of `step`: the cells of F already handled are at 0, the rest hold their final levels. */
  ghost predicate Resetting(g0: Grid, cur: Grid, F: set<Cell>, rest: set<Cell>)
  {
    IsGrid(g0) && IsGrid(cur) && rest <= F
    && forall c: Cell {:trigger Get(cur, c)} :: InGrid(c) ==> Get(cur, c) == if c in F && c !in rest then 0 else Get(g0, c) + Flashed(c, F)
  }

  lemma ResetStart(g0: Grid, cur: Grid, F: set<Cell>)
    requires Increments(g0, cur, F, [])
    ensures Resetting(g0, cur, F, F)
  {
  }

  lemma ResetOne(g0: Grid, cur: Grid, F: set<Cell>, rest: set<Cell>, c: Cell)
    requires Resetting(g0, cur, F, rest) && c in rest && InGrid(c)
    ensures Resetting(g0, SetCell(cur, c, 0), F, rest - {c})
  {
  }

  lemma ResetDone(g0: Grid, cur: Grid, F: set<Cell>)
    requires Resetting(g0, cur, F, {})
    ensures cur == AfterFlashes(g0, F)
  {
    GridEq(cur, AfterFlashes(g0, F));
  }

}

/** The board of day 11 as the mutable grid the program steps. */
module Day11Octopus {
  import opened Common
  import opened Text
  import opened Day11

  /** `OctopusGrid`. */
  class OctopusGrid {
    var board: array2<int>

    ghost predicate Valid()
      reads this
    {
      board.Length0 == GridSize && board.Length1 == GridSize
    }

    /** The board array holds the levels of g. */
    ghost predicate Holds(g: Grid)
      reads this, board
      requires Valid()
    {
      IsGrid(g) && forall c: Cell {:trigger Get(g, c)} :: InGrid(c) ==> board[c.1, c.0] == Get(g, c)
    }

    /** The levels of the board. */
    ghost function Levels(): (g: Grid)
      reads this, board
      requires Valid()
      ensures Holds(g)
    {
      seq(GridSize, y requires 0 <= y < GridSize && Valid() reads this, board =>
        seq(GridSize, x requires 0 <= x < GridSize && 0 <= y < GridSize && Valid() reads this, board =>
          board[y, x]))
    }

    lemma HoldsLevels(g: Grid)
      requires Valid() && Holds(g)
      ensures Levels() == g
    {
      GridEq(Levels(), g);
    }

    /** Writes level v into cell c; the board then holds g with that one cell changed. */
    method SetLevel(c: Cell, v: int, ghost g: Grid) returns (ghost g': Grid)
      requires Valid() && Holds(g) && InGrid(c)
      modifies board
      ensures Valid() && Holds(g') && g' == SetCell(g, c, v)
    {
      board[c.1, c.0] := v;
      g' := SetCell(g, c, v);
    }

    /** `from_str`. */
    constructor (s: string)
      ensures Valid() && Levels() == ParseGrid(s)
    {
      var lines := Lines(s);
      var b := new int[GridSize, GridSize]((_, _) => 0);
      ghost var g := ParseGrid(s);
      for y := 0 to GridSize
        invariant forall c: Cell :: InGrid(c) ==> b[c.1, c.0] == if c.1 < y then Get(g, c) else 0
      {
        for x := 0 to GridSize
          invariant forall c: Cell :: InGrid(c) ==> b[c.1, c.0] == if c.1 < y || (c.1 == y && c.0 < x) then Get(g, c) else 0
        {
          if y < |lines| && x < |lines[y]| {
            b[y, x] := DigitValue(lines[y][x]);
          }
        }
      }
      board := b;
      new;
      HoldsLevels(g);
    }

    /** The first phase of `step`: every level goes up by one. */
    method IncrementAll()
      requires Valid()
      modifies board
      ensures Valid() && Levels() == Incremented(old(Levels()))
    {
      ghost var start := Levels();
      ghost var cur := start;
      for y := 0 to GridSize
        invariant Holds(cur)
        invariant forall c: Cell :: InGrid(c) ==> Get(cur, c) == Get(start, c) + if c.1 < y then 1 else 0
      {
        for x := 0 to GridSize
          invariant Holds(cur)
          invariant forall c: Cell :: InGrid(c) ==> Get(cur, c) == Get(start, c) + if c.1 < y || (c.1 == y && c.0 < x) then 1 else 0
        {
          cur := SetLevel((x, y), board[y, x] + 1, cur);
        }
      }
      GridEq(cur, Incremented(start));
      HoldsLevels(cur);
    }

    /** The cells at 10 or more, once each, in the order of the product (x, y). */
    method FlashPositions() returns (positions: seq<Cell>)
      requires Valid()
      ensures Distinct(positions)
      ensures forall c :: c in positions <==> InGrid(c) && board[c.1, c.0] >= 10
    {
      positions := [];
      for x := 0 to GridSize
        invariant Distinct(positions)
        invariant forall c :: c in positions <==> InGrid(c) && c.0 < x && board[c.1, c.0] >= 10
      {
        for y := 0 to GridSize
          invariant Distinct(positions)
          invariant forall c :: c in positions <==> InGrid(c) && (c.0 < x || (c.0 == x && c.1 < y)) && board[c.1, c.0] >= 10
        {
          if board[y, x] >= 10 {
            positions := positions + [(x, y)];
          }
        }
      }
    }

    /** The inner loop of the flash loop: each neighbour of the popped cell p goes up by one, and is pushed when it first reaches 10. */
    method RaiseNeighbours(ns: seq<Cell>, stack: seq<Cell>, F: set<Cell>, ghost order: seq<Cell>, ghost cur: Grid)
      returns (stack': seq<Cell>, F': set<Cell>, ghost order': seq<Cell>, ghost cur': Grid)
      requires Valid() && Holds(cur) && IsGrid(cur) && forall i :: 0 <= i < |ns| ==> InGrid(ns[i])
      modifies board
      ensures Valid() && Holds(cur') && FlashState(cur', F', order', stack') == RaiseAll(FlashState(cur, F, order, stack), ns)
    {
      ghost var start := FlashState(cur, F, order, stack);
      stack', F', order', cur' := stack, F, order, cur;
      for j := 0 to |ns|
        invariant Valid() && Holds(cur') && IsGrid(cur')
        invariant FlashState(cur', F', order', stack') == RaiseAll(start, ns[..j])
      {
        var n := ns[j];
        ghost var before := FlashState(cur', F', order', stack');
        assert ns[..j + 1][..j] == ns[..j] && ns[..j + 1][j] == n;
        assert RaiseAll(start, ns[..j + 1]) == RaiseOne(before, n);
        var level := board[n.1, n.0] + 1;
        assert level == Get(cur', n) + 1;
        cur' := SetLevel(n, level, cur');
        if level >= 10 && n !in F' {
          stack' := stack' + [n];
          F' := F' + {n};
          order' := order' + [n];
        }
      }
      assert ns[..|ns|] == ns;
    }

    /**
     * The flash loop of `step`: pops cells off the work list, raising their
     * neighbours and pushing those that reach 10 for the first time.  The
     * flagged set it returns is the justified fixed point of the flash rule.
     */
    method Cascade(positions: seq<Cell>) returns (flashes: nat, alreadyFlashed: set<Cell>, ghost flashed: seq<Cell>)
      requires Valid() && Distinct(positions)
      requires forall c :: c in positions <==> InGrid(c) && board[c.1, c.0] >= 10
      modifies board
      ensures Valid() && Cascaded(old(Levels()), Levels(), alreadyFlashed, flashed)
      ensures flashes == |alreadyFlashed| <= GridSize * GridSize
    {
      ghost var g0 := Levels();
      ghost var cur := g0;
      var flashPositions := positions;
      alreadyFlashed := SetOf(positions);
      flashed := positions;
      ghost var done: set<Cell> := {};
      StartFlashing(g0, positions);
      flashes := 0;
      while flashPositions != []
        invariant Valid() && Holds(cur)
        invariant Flashing(g0, cur, alreadyFlashed, flashed, flashPositions, done)
        invariant flashes == |done|
        decreases GridSize * GridSize - |done|
      {
        FlashRound(g0, FlashState(cur, alreadyFlashed, flashed, flashPositions), done);
        var p := flashPositions[|flashPositions| - 1];
        flashPositions := flashPositions[..|flashPositions| - 1];
        flashes := flashes + 1;
        var ns := Neighbours(p.0, p.1);
        flashPositions, alreadyFlashed, flashed, cur := RaiseNeighbours(ns, flashPositions, alreadyFlashed, flashed, cur);
        done := done + {p};
      }
      Settled(g0, cur, alreadyFlashed, flashed, done);
      GridCells(done);
      HoldsLevels(cur);
    }

    /** The last phase of `step`: every flashed cell goes back to 0. */
    method ResetFlashed(F: set<Cell>, ghost g0: Grid, ghost order: seq<Cell>)
      requires Valid() && Cascaded(g0, Levels(), F, order)
      modifies board
      ensures Valid() && Levels() == AfterFlashes(g0, F)
    {
      ghost var cur := Levels();
      ResetStart(g0, cur, F);
      var rest := F;
      while rest != {}
        invariant Valid() && Holds(cur) && Resetting(g0, cur, F, rest)
        decreases rest
      {
        var c :| c in rest;
        ResetOne(g0, cur, F, rest, c);
        cur := SetLevel(c, 0, cur);
        rest := rest - {c};
      }
      ResetDone(g0, cur, F);
      HoldsLevels(cur);
    }

    /**
     * `step`: returns the number of flashes.  The flashed cells are the
     * least fixed point of the flash rule on the incremented board; they end
     * at 0 and every other cell gains one per flashed neighbour.
     */
    method Step() returns (flashes: nat)
      requires Valid()
      modifies board
      ensures Valid() && StepsTo(old(Levels()), Levels(), flashes) && flashes <= GridSize * GridSize
    {
      ghost var start := Levels();
      IncrementAll();
      ghost var mid, flashedSet, flashed;
      flashes, mid, flashedSet, flashed := FlashAndReset();
      StepPhases(start, mid, flashedSet, flashed);
    }

    /** The flashing phases of `step`, on the incremented board: the cascade, then the reset. */
    method FlashAndReset() returns (flashes: nat, ghost mid: Grid, ghost F: set<Cell>, ghost order: seq<Cell>)
      requires Valid()
      modifies board
      ensures Valid() && Cascaded(old(Levels()), mid, F, order) && Levels() == AfterFlashes(old(Levels()), F)
      ensures flashes == |F| <= GridSize * GridSize
    {
      ghost var g0 := Levels();
      var positions := FlashPositions();
      var alreadyFlashed;
      flashes, alreadyFlashed, order := Cascade(positions);
      F := alreadyFlashed;
      mid := Levels();
      ResetFlashed(alreadyFlashed, g0, order);
    }

    /** The sum of the flash counts of `steps` consecutive steps (the first answer of `main` takes 100). */
    method FlashesOver(steps: nat) returns (total: nat, ghost boards: seq<Grid>, ghost counts: seq<nat>)
      requires Valid()
      modifies board
      ensures Valid() && Run(boards, counts) && |counts| == steps
      ensures boards[0] == old(Levels()) && boards[steps] == Levels()
      ensures total == Sum(counts)
    {
      total := 0;
      boards, counts := [Levels()], [];
      for k := 0 to steps
        invariant Valid() && Run(boards, counts) && |counts| == k
        invariant boards[0] == old(Levels()) && boards[k] == Levels()
        invariant total == Sum(counts)
      {
        ghost var before := Levels();
        var n := Step();
        RunExtend(boards, counts, Levels(), n);
        boards, counts := boards + [Levels()], counts + [n];
        total := total + n;
      }
    }

    /**
     * `synchronized_step`: steps until a step flashes all 100 octopuses and
     * returns how many steps that took.  The loop is bounded by `limit`
     * steps; None means no step among the first `limit` synchronised.
     */
    method SynchronizedStep(limit: nat) returns (r: Option<nat>, ghost boards: seq<Grid>, ghost counts: seq<nat>)
      requires Valid()
      modifies board
      ensures Valid() && Run(boards, counts)
      ensures boards[0] == old(Levels()) && boards[|counts|] == Levels()
      ensures r.Some? ==> 1 <= r.value == |counts| && counts[r.value - 1] == GridSize * GridSize
      ensures r.Some? ==> forall i :: 0 <= i < r.value - 1 ==> counts[i] != GridSize * GridSize
      ensures r.None? ==> |counts| == limit && forall i :: 0 <= i < limit ==> counts[i] != GridSize * GridSize
    {
      var stepCount := 0;
      boards, counts := [Levels()], [];
      while stepCount < limit
        invariant Valid() && Run(boards, counts) && |counts| == stepCount <= limit
        invariant boards[0] == old(Levels()) && boards[stepCount] == Levels()
        invariant forall i :: 0 <= i < stepCount ==> counts[i] != GridSize * GridSize
        decreases limit - stepCount
      {
        ghost var before := Levels();
        var n := Step();
        RunExtend(boards, counts, Levels(), n);
        boards, counts := boards + [Levels()], counts + [n];
        if n == GridSize * GridSize {
          return Some(stepCount + 1), boards, counts;
        }
        stepCount := stepCount + 1;
      }
      r := None;
    }
  }
}
