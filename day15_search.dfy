/**
 * The search of `lowest_risk_level`: a best-first walk over the cave from the
 * top-left cell, where entering a cell costs its risk level. A cell is marked
 * used when it is first pushed and is never pushed again; because the cost of
 * a step is the level of the cell entered, the first push of a cell already
 * carries its lowest risk.
 */
module Day15Search {
  import opened Common
  import opened Text
  import opened Day15

  /** `Point(cost, x, y)`: a heap entry, the risk of the route that reached the cell. */
  datatype Point = Point(cost: nat, x: nat, y: nat)

  datatype Ordering = Less | Equal | Greater

  /** `Ord for Point`: the costs compared and the answer reversed; the cell plays no part. */
  function Compare(a: Point, b: Point): Ordering
  {
    if a.cost < b.cost then Greater else if a.cost == b.cost then Equal else Less
  }

  function Spot(p: Point): Cell
  {
    (p.x, p.y)
  }

  /** `BinaryHeap::pop` on a non-empty heap: a greatest point, which is a cheapest one (ties broken arbitrarily). */
  method Pop(heap: multiset<Point>) returns (p: Point, rest: multiset<Point>)
    requires heap != multiset{}
    ensures p in heap && rest == heap - multiset{p}
    ensures forall q :: q in heap ==> Compare(p, q) != Less
    ensures forall q :: q in heap ==> p.cost <= q.cost
  {
    ghost var w := CheapestIn(heap);
    p :| p in heap && forall q :: q in heap ==> p.cost <= q.cost;
    rest := heap - multiset{p};
  }

  /** A non-empty heap holds a point no dearer than any other. */
  lemma {:induction false} CheapestIn(heap: multiset<Point>) returns (p: Point)
    requires heap != multiset{}
    ensures p in heap && forall q :: q in heap ==> p.cost <= q.cost
    decreases |heap|
  {
    var x :| x in heap;
    var others := heap - multiset{x};
    assert forall q :: q in heap ==> q == x || q in others;
    if others == multiset{} {
      p := x;
    } else {
      var y := CheapestIn(others);
      p := if x.cost <= y.cost then x else y;
    }
  }

  // The cave and its routes

  function Width(m: CaveMap, t: CaveType): nat
  {
    m.maxX * Multiplier(t)
  }

  function Height(m: CaveMap, t: CaveType): nat
  {
    m.maxY * Multiplier(t)
  }

  /** The bottom-right cell, where the search stops. */
  function Target(m: CaveMap, t: CaveType): (c: Cell)
    requires WellFormed(m) && m.maxX >= 1
    ensures c.0 < Width(m, t) && c.1 < Height(m, t)
  {
    (Width(m, t) - 1, Height(m, t) - 1)
  }

  ghost function Cells(m: CaveMap, t: CaveType): (r: set<Cell>)
    ensures forall c :: c in r <==> c.0 < Width(m, t) && c.1 < Height(m, t)
  {
    set x: nat, y: nat | x < Width(m, t) && y < Height(m, t) :: (x, y)
  }

  function Last(path: seq<Cell>): Cell
    requires path != []
  {
    path[|path| - 1]
  }

  function Listed(ns: seq<Cell>): (r: set<Cell>)
  {
    set n | n in ns
  }

  /** A route from the top-left cell, each step to one of the `neighbours` of the cell before. */
  ghost predicate IsRoute(m: CaveMap, t: CaveType, path: seq<Cell>)
  {
    |path| >= 1 && path[0] == (0, 0) &&
    forall i :: 0 <= i < |path| - 1 ==> path[i + 1] in Neighbours(m, path[i].0, path[i].1, t)
  }

  /** The risk of a route: the levels of the cells it enters, the start not counted. */
  function RouteRisk(m: CaveMap, path: seq<Cell>): nat
    requires WellFormed(m) && m.maxX >= 1
    decreases |path|
  {
    if |path| <= 1 then 0 else RouteRisk(m, path[..|path| - 1]) + CostOf(m, Last(path).0, Last(path).1)
  }

  ghost predicate Reachable(m: CaveMap, t: CaveType, c: Cell)
  {
    exists path :: IsRoute(m, t, path) && Last(path) == c
  }

  /** `risk` is the risk of some route to `c`, and no route to `c` has less. */
  ghost predicate Lowest(m: CaveMap, t: CaveType, c: Cell, risk: nat)
    requires WellFormed(m) && m.maxX >= 1
  {
    (exists path :: IsRoute(m, t, path) && Last(path) == c && RouteRisk(m, path) == risk) &&
    forall path :: IsRoute(m, t, path) && Last(path) == c ==> risk <= RouteRisk(m, path)
  }

  lemma RouteSnoc(m: CaveMap, t: CaveType, path: seq<Cell>, n: Cell)
    requires IsRoute(m, t, path) && n in Neighbours(m, Last(path).0, Last(path).1, t)
    ensures IsRoute(m, t, path + [n]) && Last(path + [n]) == n
  {
    var p := path + [n];
    forall i | 0 <= i < |p| - 1
      ensures p[i + 1] in Neighbours(m, p[i].0, p[i].1, t)
    {
      if i < |path| - 1 {
        assert p[i] == path[i] && p[i + 1] == path[i + 1];
      }
    }
  }

  lemma RoutePrefix(m: CaveMap, t: CaveType, path: seq<Cell>)
    requires IsRoute(m, t, path) && |path| >= 2
    ensures IsRoute(m, t, path[..|path| - 1])
    ensures Last(path) in Neighbours(m, Last(path[..|path| - 1]).0, Last(path[..|path| - 1]).1, t)
  {
    var k := |path| - 2;
    assert path[k + 1] in Neighbours(m, path[k].0, path[k].1, t);
  }

  /** The route that goes along the top row and then straight down. */
  function Corner(x: nat, y: nat): (path: seq<Cell>)
    decreases x + y
  {
    if y > 0 then Corner(x, y - 1) + [(x, y)]
    else if x > 0 then Corner(x - 1, 0) + [(x, 0)]
    else [(0, 0)]
  }

  /** Every cell of the cave can be reached, so the search never drains its heap before the target. */
  lemma {:induction false} CornerRoute(m: CaveMap, t: CaveType, x: nat, y: nat)
    requires x < Width(m, t) && y < Height(m, t)
    ensures IsRoute(m, t, Corner(x, y)) && Last(Corner(x, y)) == (x, y)
    decreases x + y
  {
    if y > 0 {
      CornerRoute(m, t, x, y - 1);
      NeighboursSpec(m, x, y - 1, t, (x, y));
      RouteSnoc(m, t, Corner(x, y - 1), (x, y));
    } else if x > 0 {
      CornerRoute(m, t, x - 1, 0);
      NeighboursSpec(m, x - 1, 0, t, (x, 0));
      RouteSnoc(m, t, Corner(x - 1, 0), (x, 0));
    }
  }

  lemma TargetReachable(m: CaveMap, t: CaveType)
    requires WellFormed(m) && m.maxX >= 1
    ensures Reachable(m, t, Target(m, t))
  {
    var c := Target(m, t);
    CornerRoute(m, t, c.0, c.1);
  }

  // The search

  /**
   * The proof's view of the search: the cells already popped, the risk each
   * used cell was pushed with and a route of that risk, and the cost of the
   * last point popped.
   */
  datatype Search = Search(closed: set<Cell>, best: map<Cell, nat>, route: map<Cell, seq<Cell>>, last: nat)

  /** The used cells lie in the cave and are those with a pushed risk; the target is never popped before the end. */
  ghost predicate Shape(m: CaveMap, t: CaveType, used: set<Cell>, g: Search)
    requires WellFormed(m) && m.maxX >= 1
  {
    (0, 0) in used && used <= Cells(m, t) && g.best.Keys == used && g.route.Keys == used &&
    g.closed <= used && Target(m, t) !in g.closed
  }

  /** The heap holds exactly one point for each used cell not yet popped, at the risk it was pushed with. */
  ghost predicate Entries(heap: multiset<Point>, g: Search)
  {
    (forall p :: p in heap ==> Spot(p) in g.best && Spot(p) !in g.closed && g.best[Spot(p)] == p.cost && heap[p] == 1) &&
    forall c :: c in g.best && c !in g.closed ==> Point(g.best[c], c.0, c.1) in heap
  }

  /** Each pushed risk is the risk of a route to its cell. */
  ghost predicate Routes(m: CaveMap, t: CaveType, g: Search)
    requires WellFormed(m) && m.maxX >= 1
  {
    forall c :: c in g.route ==>
      IsRoute(m, t, g.route[c]) && Last(g.route[c]) == c && c in g.best && RouteRisk(m, g.route[c]) == g.best[c]
  }

  /** The neighbours of every popped cell are used. */
  ghost predicate Covered(m: CaveMap, t: CaveType, g: Search)
  {
    forall c, n :: c in g.closed && n in Neighbours(m, c.0, c.1, t) ==> n in g.best
  }

  /** Points leave the heap in order of cost. */
  ghost predicate Ordered(heap: multiset<Point>, g: Search)
  {
    (forall c :: c in g.closed && c in g.best ==> g.best[c] <= g.last) &&
    forall p :: p in heap ==> g.last <= p.cost
  }

  /** No route to a used cell has less risk than the risk it was pushed with. */
  ghost predicate Optimal(m: CaveMap, t: CaveType, g: Search)
    requires WellFormed(m) && m.maxX >= 1
  {
    forall path :: IsRoute(m, t, path) && Last(path) in g.best ==> g.best[Last(path)] <= RouteRisk(m, path)
  }

  ghost predicate Inv(m: CaveMap, t: CaveType, heap: multiset<Point>, used: set<Cell>, g: Search)
    requires WellFormed(m) && m.maxX >= 1
  {
    var holds := Shape(m, t, used, g) && Entries(heap, g) && Routes(m, t, g) && Covered(m, t, g) &&
      Ordered(heap, g) && Optimal(m, t, g);
    holds
  }

  /**
   * `lowest_risk_level`: None when the map has no columns (the target's
   * `max_x * multiplier - 1` underflows); otherwise the lowest risk of a route
   * to the bottom-right cell, or `usize::MAX` if there were none (which
   * `TargetReachable` rules out).
   */
  method LowestRiskLevel(m: CaveMap, t: CaveType) returns (r: Option<nat>)
    requires WellFormed(m)
    ensures r.None? <==> m.maxX == 0
    ensures r.Some? && Reachable(m, t, Target(m, t)) ==> Lowest(m, t, Target(m, t), r.value)
    ensures r.Some? && !Reachable(m, t, Target(m, t)) ==> r.value == USIZE_MAX
  {
    if m.maxX == 0 {
      return None;
    }
    var heap := multiset{Point(0, 0, 0)};
    var used := {(0, 0)};
    ghost var g := Search({}, map[(0, 0) := 0], map[(0, 0) := [(0, 0)]], 0);
    Started(m, t);
    while heap != multiset{}
      invariant Inv(m, t, heap, used, g)
      decreases |Cells(m, t) - g.closed|
    {
      var p, rest := Pop(heap);
      if Spot(p) == Target(m, t) {
        Found(m, t, heap, used, g, p);
        return Some(p.cost);
      }
      var ns := Neighbours(m, p.x, p.y, t);
      var heap', used' := Offer(m, p.cost, ns, rest, used);
      ghost var g' := Expanded(m, g, p, ns);
      Expand(m, t, heap, used, g, p, rest, heap', used');
      Fewer(m, t, g.closed, Spot(p));
      heap, used, g := heap', used', g';
    }
    Drained(m, t, used, g);
    return Some(USIZE_MAX);
  }

  /** The `for_each` over the neighbours: push each unused one at `cost` plus its level and mark it used. */
  method Offer(m: CaveMap, cost: nat, ns: seq<Cell>, heap: multiset<Point>, used: set<Cell>)
    returns (heap': multiset<Point>, used': set<Cell>)
    requires WellFormed(m) && m.maxX >= 1
    ensures heap' == heap + Pushed(m, cost, ns, used)
    ensures used' == used + Listed(ns)
  {
    heap', used' := heap, used;
    for i := 0 to |ns|
      invariant heap' == heap + Pushed(m, cost, ns[..i], used)
      invariant used' == used + Listed(ns[..i])
    {
      var n := ns[i];
      assert ns[..i + 1][..i] == ns[..i];
      if n !in used' {
        heap' := heap' + multiset{Entry(m, cost, n)};
        used' := used' + {n};
      }
    }
    assert ns[..|ns|] == ns;
  }

  /** The points `Offer` pushes. */
  function Pushed(m: CaveMap, cost: nat, ns: seq<Cell>, used: set<Cell>): multiset<Point>
    requires WellFormed(m) && m.maxX >= 1
    decreases |ns|
  {
    if ns == [] then multiset{}
    else
      var n, init := Last(ns), ns[..|ns| - 1];
      Pushed(m, cost, init, used) +
      if n in used + Listed(init) then multiset{} else multiset{Entry(m, cost, n)}
  }

  /** The point pushed for neighbour `n` of a cell popped at `cost`. */
  function Entry(m: CaveMap, cost: nat, n: Cell): (e: Point)
    requires WellFormed(m) && m.maxX >= 1
  {
    Point(cost + CostOf(m, n.0, n.1), n.0, n.1)
  }

  /** `Offer` pushes one point for each listed cell not used before, at `cost` plus its level, and nothing else. */
  lemma {:induction false} PushedSpec(m: CaveMap, cost: nat, ns: seq<Cell>, used: set<Cell>)
    requires WellFormed(m) && m.maxX >= 1
    ensures forall q :: q in Pushed(m, cost, ns, used) ==>
      Spot(q) in ns && Spot(q) !in used && q == Entry(m, cost, Spot(q)) && Pushed(m, cost, ns, used)[q] == 1
    ensures forall n :: n in ns && n !in used ==> Entry(m, cost, n) in Pushed(m, cost, ns, used)
    decreases |ns|
  {
    if ns != [] {
      var n, init := Last(ns), ns[..|ns| - 1];
      PushedSpec(m, cost, init, used);
      assert ns == init + [n];
    }
  }

  /** The proof's view after popping `p` and pushing its unused neighbours `ns`. */
  ghost function Expanded(m: CaveMap, g: Search, p: Point, ns: seq<Cell>): Search
    requires WellFormed(m) && m.maxX >= 1 && Spot(p) in g.route
  {
    var added := Listed(ns) - g.best.Keys;
    Search(g.closed + {Spot(p)},
      map c | c in g.best.Keys + added :: if c in g.best then g.best[c] else Entry(m, p.cost, c).cost,
      map c | c in g.route.Keys + added :: if c in g.route then g.route[c] else g.route[Spot(p)] + [c],
      p.cost)
  }

  lemma Started(m: CaveMap, t: CaveType)
    requires WellFormed(m) && m.maxX >= 1
    ensures Inv(m, t, multiset{Point(0, 0, 0)}, {(0, 0)}, Search({}, map[(0, 0) := 0], map[(0, 0) := [(0, 0)]], 0))
  {
  }

  /**
   * A route to a cell not yet popped passes a point in the heap no dearer
   * than the route: the first cell on it that was not popped.
   */
  lemma {:induction false} Frontier(m: CaveMap, t: CaveType, heap: multiset<Point>, used: set<Cell>, g: Search, path: seq<Cell>)
    requires WellFormed(m) && m.maxX >= 1 && Shape(m, t, used, g) && Entries(heap, g) && Covered(m, t, g) && Optimal(m, t, g) && IsRoute(m, t, path)
    ensures Last(path) !in g.closed ==> exists e :: e in heap && e.cost <= RouteRisk(m, path)
    decreases |path|
  {
    var c := Last(path);
    if c !in g.closed {
      if |path| == 1 {
        assert Point(g.best[c], c.0, c.1) in heap;
      } else {
        var prefix := path[..|path| - 1];
        RoutePrefix(m, t, path);
        if Last(prefix) in g.closed {
          assert Point(g.best[c], c.0, c.1) in heap;
        } else {
          Frontier(m, t, heap, used, g, prefix);
        }
      }
    }
  }

  lemma Found(m: CaveMap, t: CaveType, heap: multiset<Point>, used: set<Cell>, g: Search, p: Point)
    requires WellFormed(m) && m.maxX >= 1 && Inv(m, t, heap, used, g) && p in heap && Spot(p) == Target(m, t)
    ensures Lowest(m, t, Target(m, t), p.cost)
  {
    var c := Spot(p);
    assert IsRoute(m, t, g.route[c]) && Last(g.route[c]) == c && RouteRisk(m, g.route[c]) == p.cost;
  }

  lemma Drained(m: CaveMap, t: CaveType, used: set<Cell>, g: Search)
    requires WellFormed(m) && m.maxX >= 1 && Inv(m, t, multiset{}, used, g)
    ensures !Reachable(m, t, Target(m, t))
  {
    forall path | IsRoute(m, t, path)
      ensures Last(path) != Target(m, t)
    {
      Frontier(m, t, multiset{}, used, g, path);
    }
  }

  lemma Expand(m: CaveMap, t: CaveType, heap: multiset<Point>, used: set<Cell>, g: Search, p: Point,
      rest: multiset<Point>, heap': multiset<Point>, used': set<Cell>)
    requires WellFormed(m) && m.maxX >= 1
    requires Shape(m, t, used, g) && Entries(heap, g) && Routes(m, t, g) && Covered(m, t, g) && Ordered(heap, g) && Optimal(m, t, g)
    requires p in heap && rest == heap - multiset{p} && Spot(p) != Target(m, t)
    requires forall q :: q in heap ==> p.cost <= q.cost
    requires heap' == rest + Pushed(m, p.cost, Neighbours(m, p.x, p.y, t), used)
    requires used' == used + Listed(Neighbours(m, p.x, p.y, t))
    ensures Spot(p) in g.route
    ensures Inv(m, t, heap', used', Expanded(m, g, p, Neighbours(m, p.x, p.y, t)))
    ensures Spot(p) in Cells(m, t) && Spot(p) !in g.closed
  {
    var ns := Neighbours(m, p.x, p.y, t);
    var g' := Expanded(m, g, p, ns);
    PushedSpec(m, p.cost, ns, used);
    ShapeKept(m, t, heap, used, g, p, used');
    EntriesKept(m, t, heap, used, g, p, rest, heap');
    RoutesKept(m, t, heap, used, g, p);
    CoveredKept(m, t, heap, used, g, p);
    OrderedKept(m, t, heap, used, g, p, rest, heap');
    OptimalKept(m, t, heap, used, g, p);
  }

  lemma ShapeKept(m: CaveMap, t: CaveType, heap: multiset<Point>, used: set<Cell>, g: Search, p: Point, used': set<Cell>)
    requires WellFormed(m) && m.maxX >= 1 && Shape(m, t, used, g) && Entries(heap, g)
    requires p in heap && Spot(p) != Target(m, t)
    requires used' == used + Listed(Neighbours(m, p.x, p.y, t))
    ensures Spot(p) in g.route && Shape(m, t, used', Expanded(m, g, p, Neighbours(m, p.x, p.y, t)))
  {
    forall n | n in Neighbours(m, p.x, p.y, t)
      ensures n in Cells(m, t)
    {
      NeighboursSpec(m, p.x, p.y, t, n);
    }
  }

  lemma EntriesKept(m: CaveMap, t: CaveType, heap: multiset<Point>, used: set<Cell>, g: Search, p: Point,
      rest: multiset<Point>, heap': multiset<Point>)
    requires WellFormed(m) && m.maxX >= 1 && Shape(m, t, used, g) && Entries(heap, g)
    requires p in heap && rest == heap - multiset{p}
    requires heap' == rest + Pushed(m, p.cost, Neighbours(m, p.x, p.y, t), used)
    ensures Spot(p) in g.route && Entries(heap', Expanded(m, g, p, Neighbours(m, p.x, p.y, t)))
  {
    var ns := Neighbours(m, p.x, p.y, t);
    PushedSpec(m, p.cost, ns, used);
    PointsKept(m, heap, used, g, p, ns, rest, heap');
    CellsKept(m, heap, used, g, p, ns, rest, heap');
  }

  /** After the pops and pushes every point of the heap still stands for its unpopped cell, once. */
  lemma PointsKept(m: CaveMap, heap: multiset<Point>, used: set<Cell>, g: Search, p: Point, ns: seq<Cell>,
      rest: multiset<Point>, heap': multiset<Point>)
    requires WellFormed(m) && m.maxX >= 1 && g.best.Keys == used && g.route.Keys == used && g.closed <= used && Entries(heap, g)
    requires p in heap && rest == heap - multiset{p}
    requires forall q :: q in Pushed(m, p.cost, ns, used) ==>
      Spot(q) in ns && Spot(q) !in used && q == Entry(m, p.cost, Spot(q)) && Pushed(m, p.cost, ns, used)[q] == 1
    requires heap' == rest + Pushed(m, p.cost, ns, used)
    ensures forall q :: q in heap' ==>
      Spot(q) in Expanded(m, g, p, ns).best && Spot(q) !in Expanded(m, g, p, ns).closed &&
      Expanded(m, g, p, ns).best[Spot(q)] == q.cost && heap'[q] == 1
  {
    var g' := Expanded(m, g, p, ns);
    var pushed := Pushed(m, p.cost, ns, used);
    assert rest[p] == 0;
    forall q | q in heap'
      ensures Spot(q) in g'.best && Spot(q) !in g'.closed && g'.best[Spot(q)] == q.cost && heap'[q] == 1
    {
      if q in rest {
        assert q in heap && q != p;
        assert pushed[q] == 0;
      } else {
        assert q in pushed;
      }
    }
  }

  /** After the pops and pushes every used cell not popped still has its point in the heap. */
  lemma CellsKept(m: CaveMap, heap: multiset<Point>, used: set<Cell>, g: Search, p: Point, ns: seq<Cell>,
      rest: multiset<Point>, heap': multiset<Point>)
    requires WellFormed(m) && m.maxX >= 1 && g.best.Keys == used && g.route.Keys == used && g.closed <= used && Entries(heap, g)
    requires p in heap && rest == heap - multiset{p}
    requires forall n :: n in ns && n !in used ==> Entry(m, p.cost, n) in Pushed(m, p.cost, ns, used)
    requires heap' == rest + Pushed(m, p.cost, ns, used)
    ensures forall c :: c in Expanded(m, g, p, ns).best && c !in Expanded(m, g, p, ns).closed ==>
      Point(Expanded(m, g, p, ns).best[c], c.0, c.1) in heap'
  {
    var g' := Expanded(m, g, p, ns);
    forall c | c in g'.best && c !in g'.closed
      ensures Point(g'.best[c], c.0, c.1) in heap'
    {
      if c in g.best {
        assert Point(g.best[c], c.0, c.1) in heap && Point(g.best[c], c.0, c.1) != p;
      } else {
        assert Entry(m, p.cost, c) in heap';
      }
    }
  }

  lemma RoutesKept(m: CaveMap, t: CaveType, heap: multiset<Point>, used: set<Cell>, g: Search, p: Point)
    requires WellFormed(m) && m.maxX >= 1 && Shape(m, t, used, g) && Entries(heap, g) && Routes(m, t, g) && p in heap
    ensures Spot(p) in g.route && Routes(m, t, Expanded(m, g, p, Neighbours(m, p.x, p.y, t)))
  {
    var ns := Neighbours(m, p.x, p.y, t);
    var g' := Expanded(m, g, p, ns);
    var base := g.route[Spot(p)];
    forall c | c in g'.route && c !in g.route
      ensures IsRoute(m, t, g'.route[c]) && Last(g'.route[c]) == c && c in g'.best && RouteRisk(m, g'.route[c]) == g'.best[c]
    {
      assert g'.route[c] == base + [c];
      RouteSnoc(m, t, base, c);
      assert (base + [c])[..|base|] == base;
    }
  }

  lemma CoveredKept(m: CaveMap, t: CaveType, heap: multiset<Point>, used: set<Cell>, g: Search, p: Point)
    requires WellFormed(m) && m.maxX >= 1 && Shape(m, t, used, g) && Entries(heap, g) && Covered(m, t, g) && p in heap
    ensures Spot(p) in g.route && Covered(m, t, Expanded(m, g, p, Neighbours(m, p.x, p.y, t)))
  {
  }

  lemma OrderedKept(m: CaveMap, t: CaveType, heap: multiset<Point>, used: set<Cell>, g: Search, p: Point,
      rest: multiset<Point>, heap': multiset<Point>)
    requires WellFormed(m) && m.maxX >= 1 && Shape(m, t, used, g) && Entries(heap, g) && Ordered(heap, g)
    requires p in heap && rest == heap - multiset{p} && forall q :: q in heap ==> p.cost <= q.cost
    requires heap' == rest + Pushed(m, p.cost, Neighbours(m, p.x, p.y, t), used)
    ensures Spot(p) in g.route && Ordered(heap', Expanded(m, g, p, Neighbours(m, p.x, p.y, t)))
  {
    var ns := Neighbours(m, p.x, p.y, t);
    PushedSpec(m, p.cost, ns, used);
    PoppedInOrder(m, heap, used, g, p, ns);
    PushedInOrder(m, heap, used, g, p, ns, rest, heap');
  }

  /** The popped cells, `p`'s included, were pushed no dearer than `p`. */
  lemma PoppedInOrder(m: CaveMap, heap: multiset<Point>, used: set<Cell>, g: Search, p: Point, ns: seq<Cell>)
    requires WellFormed(m) && m.maxX >= 1 && g.best.Keys == used && g.route.Keys == used && g.closed <= used
    requires Entries(heap, g) && Ordered(heap, g)
    requires p in heap
    ensures forall c :: c in Expanded(m, g, p, ns).closed && c in Expanded(m, g, p, ns).best ==>
      Expanded(m, g, p, ns).best[c] <= p.cost
  {
    var g' := Expanded(m, g, p, ns);
    assert g.best[Spot(p)] == p.cost;
    forall c | c in g'.closed && c in g'.best
      ensures g'.best[c] <= p.cost
    {
      if c != Spot(p) {
        assert c in g.closed && c in g.best;
      }
    }
  }

  /** Every point left in the heap or pushed costs at least as much as `p`. */
  lemma PushedInOrder(m: CaveMap, heap: multiset<Point>, used: set<Cell>, g: Search, p: Point, ns: seq<Cell>,
      rest: multiset<Point>, heap': multiset<Point>)
    requires WellFormed(m) && m.maxX >= 1
    requires p in heap && rest == heap - multiset{p} && forall q :: q in heap ==> p.cost <= q.cost
    requires forall q :: q in Pushed(m, p.cost, ns, used) ==>
      Spot(q) in ns && Spot(q) !in used && q == Entry(m, p.cost, Spot(q)) && Pushed(m, p.cost, ns, used)[q] == 1
    requires heap' == rest + Pushed(m, p.cost, ns, used)
    ensures forall q :: q in heap' ==> p.cost <= q.cost
  {
    forall q | q in heap'
      ensures p.cost <= q.cost
    {
      if q !in rest {
        assert q == Entry(m, p.cost, Spot(q));
      }
    }
  }

  lemma OptimalKept(m: CaveMap, t: CaveType, heap: multiset<Point>, used: set<Cell>, g: Search, p: Point)
    requires WellFormed(m) && m.maxX >= 1 && Shape(m, t, used, g) && Entries(heap, g) && Covered(m, t, g) && Optimal(m, t, g)
    requires p in heap && forall q :: q in heap ==> p.cost <= q.cost
    ensures Spot(p) in g.route && Optimal(m, t, Expanded(m, g, p, Neighbours(m, p.x, p.y, t)))
  {
    var ns := Neighbours(m, p.x, p.y, t);
    var g' := Expanded(m, g, p, ns);
    forall path | IsRoute(m, t, path) && Last(path) in g'.best && Last(path) !in g.best
      ensures g'.best[Last(path)] <= RouteRisk(m, path)
    {
      Detour(m, t, heap, used, g, p, path);
    }
  }

  /**
   * A route to a cell first reached from `p` costs at least what it was pushed
   * with: the route leaves the popped cells somewhere, through a point no
   * cheaper than `p`.
   */
  lemma Detour(m: CaveMap, t: CaveType, heap: multiset<Point>, used: set<Cell>, g: Search, p: Point, path: seq<Cell>)
    requires WellFormed(m) && m.maxX >= 1 && Shape(m, t, used, g) && Entries(heap, g) && Covered(m, t, g) && Optimal(m, t, g)
    requires p in heap && forall q :: q in heap ==> p.cost <= q.cost
    requires IsRoute(m, t, path) && Last(path) !in used
    ensures |path| >= 2 && p.cost + CostOf(m, Last(path).0, Last(path).1) <= RouteRisk(m, path)
  {
    assert path[0] in used;
    var prefix := path[..|path| - 1];
    RoutePrefix(m, t, path);
    assert Last(prefix) !in g.closed;
    Frontier(m, t, heap, used, g, prefix);
  }

  /** Popping a cell leaves fewer cells of the cave to pop. */
  lemma Fewer(m: CaveMap, t: CaveType, closed: set<Cell>, c: Cell)
    requires c in Cells(m, t) && c !in closed
    ensures |Cells(m, t) - (closed + {c})| < |Cells(m, t) - closed|
  {
    assert Cells(m, t) - (closed + {c}) == (Cells(m, t) - closed) - {c};
  }
}
