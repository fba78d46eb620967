/**
 * Sea cucumbers (day 25): two herds on a grid that wraps around at its edges.
 * In a step the east-facing herd first moves one cell east where that cell is
 * free, then the south-facing herd moves one cell south where that cell is
 * free in the map as the east herd left it.  The program counts the steps
 * until a step in which nobody moves.
 */
module Day25 {
  import opened Common
  import opened Text

  /** A position (x, y): column, then row. */
  type Pos = (nat, nat)

  /** The two step functions `perform_step` is handed. */
  datatype Direction = East | South

  /** The value of a map: both herds and the (width, height) boundaries. */
  datatype Floor = Floor(east: set<Pos>, south: set<Pos>, boundaries: (nat, nat))

  /** The boundary a direction wraps at: the width for east, the height for south. */
  function Bound(f: Floor, dir: Direction): nat
  {
    if dir == East then f.boundaries.0 else f.boundaries.1
  }

  /** The positions of the herd that moves in a direction. */
  function Herd(f: Floor, dir: Direction): set<Pos>
  {
    if dir == East then f.east else f.south
  }

  /** `next_east` and `next_south`: one cell on, wrapping modulo the width or the height. */
  function Next(f: Floor, dir: Direction, p: Pos): Pos
    requires Bound(f, dir) > 0
  {
    if dir == East then ((p.0 + 1) % f.boundaries.0, p.1) else (p.0, (p.1 + 1) % f.boundaries.1)
  }

  /** `occupied`: a member of either herd sits there. */
  predicate Occupied(f: Floor, p: Pos)
  {
    p in f.east || p in f.south
  }

  /** A step function can be called for every member of the herd: a modulus of zero would panic. */
  predicate Steppable(f: Floor)
  {
    (f.east != {} ==> f.boundaries.0 > 0) && (f.south != {} ==> f.boundaries.1 > 0)
  }

  /** The members of `herd` whose next cell is free in `f`. */
  function Movers(f: Floor, herd: set<Pos>, dir: Direction): set<Pos>
    requires herd != {} ==> Bound(f, dir) > 0
  {
    set p | p in herd && !Occupied(f, Next(f, dir, p))
  }

  /** Where a member of `herd` ends up in a half-step: on its next cell if that is free in `f`, else where it was. */
  function Target(f: Floor, dir: Direction, p: Pos): Pos
    requires Bound(f, dir) > 0
  {
    var q := Next(f, dir, p);
    if Occupied(f, q) then p else q
  }

  /** The herd after a half-step checked against `f`. */
  function Advance(f: Floor, herd: set<Pos>, dir: Direction): set<Pos>
    requires herd != {} ==> Bound(f, dir) > 0
  {
    set p | p in herd :: Target(f, dir, p)
  }

  /** `step` on the map's value: the east half-step, then the south half-step against the moved east herd; with the number of moves. */
  function StepValue(f: Floor): (Floor, nat)
    requires Steppable(f)
  {
    var east := Advance(f, f.east, East);
    var half := f.(east := east);
    var south := Advance(half, f.south, South);
    (half.(south := south), |Movers(f, f.east, East)| + |Movers(half, f.south, South)|)
  }

  /** The map after n steps. */
  function After(f: Floor, n: nat): (r: Floor)
    requires Steppable(f)
    ensures Steppable(r) && r.boundaries == f.boundaries
  {
    if n == 0 then f
    else
      var g := After(f, n - 1);
      StepKeepsSteppable(g);
      StepValue(g).0
  }

  /** A step keeps the boundaries and never makes an empty herd non-empty, so it can be taken again. */
  lemma StepKeepsSteppable(f: Floor)
    requires Steppable(f)
    ensures Steppable(StepValue(f).0) && StepValue(f).0.boundaries == f.boundaries
  {
  }

  // Properties of the half-step

  /** (x + 1) mod w for x inside 0..w-1: the next value, or 0 past the last. */
  lemma Wrap(x: nat, w: nat)
    requires x < w
    ensures (x + 1) % w == if x + 1 == w then 0 else x + 1
  {
  }

  predicate InBounds(f: Floor, p: Pos)
  {
    p.0 < f.boundaries.0 && p.1 < f.boundaries.1
  }

  /** Inside the grid the step functions stay inside it and never send two cells to the same cell. */
  lemma NextOnGrid(f: Floor, dir: Direction, p: Pos, q: Pos)
    requires InBounds(f, p) && InBounds(f, q)
    ensures InBounds(f, Next(f, dir, p))
    ensures Next(f, dir, p) == Next(f, dir, q) ==> p == q
  {
    Wrap(p.0, f.boundaries.0);
    Wrap(q.0, f.boundaries.0);
    Wrap(p.1, f.boundaries.1);
    Wrap(q.1, f.boundaries.1);
  }

  /**
   * A half-step of one of the map's herds: every member either stays, when its
   * next cell is occupied, or moves onto its next cell, which was free; and the
   * herd is unchanged exactly when nobody moves.
   */
  lemma AdvanceMeaning(f: Floor, dir: Direction)
    requires Herd(f, dir) != {} ==> Bound(f, dir) > 0
    ensures var herd := Herd(f, dir);
      (Movers(f, herd, dir) == {} <==> Advance(f, herd, dir) == herd)
      && (forall p :: p in herd && Occupied(f, Next(f, dir, p)) ==> p in Advance(f, herd, dir))
      && (forall p :: p in Movers(f, herd, dir) ==> Next(f, dir, p) in Advance(f, herd, dir) && !Occupied(f, Next(f, dir, p)))
      && (forall q :: q in Advance(f, herd, dir) ==>
            (q in herd && Occupied(f, Next(f, dir, q))) || exists p :: p in Movers(f, herd, dir) && q == Next(f, dir, p))
  {
    var herd := Herd(f, dir);
    var moved := Advance(f, herd, dir);
    if Movers(f, herd, dir) == {} {
      forall p | p in herd
        ensures Target(f, dir, p) == p
      {
        assert p !in Movers(f, herd, dir);
      }
      assert moved == herd;
    } else {
      var p :| p in Movers(f, herd, dir);
      assert Target(f, dir, p) in moved;
      assert Next(f, dir, p) !in herd;
    }
    forall q | q in moved
      ensures (q in herd && Occupied(f, Next(f, dir, q))) || exists p :: p in Movers(f, herd, dir) && q == Next(f, dir, p)
    {
      var p :| p in herd && Target(f, dir, p) == q;
      if !Occupied(f, Next(f, dir, p)) {
        assert p in Movers(f, herd, dir);
      }
    }
  }

  /** `step` moved nothing exactly when the map is a fixed point of `step`. */
  lemma NoMovesFixed(f: Floor)
    requires Steppable(f)
    ensures StepValue(f).1 == 0 <==> StepValue(f).0 == f
  {
    AdvanceMeaning(f, East);
    var half := f.(east := Advance(f, f.east, East));
    AdvanceMeaning(half, South);
  }

  /** A map whose herds lie inside the grid and never share a cell. */
  predicate WellFormed(f: Floor)
  {
    (forall p :: p in f.east ==> InBounds(f, p))
    && (forall p :: p in f.south ==> InBounds(f, p))
    && f.east !! f.south
  }

  /** A half-step of a herd inside the grid keeps it inside the grid and away from every other occupied cell, and loses nobody. */
  lemma AdvanceKeeps(f: Floor, herd: set<Pos>, dir: Direction)
    requires herd <= f.east + f.south && forall p :: p in herd ==> InBounds(f, p)
    requires herd != {} ==> Bound(f, dir) > 0
    ensures forall q :: q in Advance(f, herd, dir) ==> InBounds(f, q)
    ensures forall q :: q in Advance(f, herd, dir) && q !in herd ==> !Occupied(f, q)
    ensures |Advance(f, herd, dir)| == |herd|
  {
    forall q | q in Advance(f, herd, dir)
      ensures InBounds(f, q) && (q !in herd ==> !Occupied(f, q))
    {
      var p :| p in herd && Target(f, dir, p) == q;
      NextOnGrid(f, dir, p, p);
    }
    AdvanceSize(f, herd, herd, dir);
  }

  /** Cells of distinct members never coincide after a half-step, so the moved part of the herd keeps its size. */
  lemma {:induction false} AdvanceSize(f: Floor, herd: set<Pos>, part: set<Pos>, dir: Direction)
    requires part <= herd && herd <= f.east + f.south && forall p :: p in herd ==> InBounds(f, p)
    requires herd != {} ==> Bound(f, dir) > 0
    ensures |Advance(f, part, dir)| == |part|
    decreases |part|
  {
    if part != {} {
      var p :| p in part;
      var rest := part - {p};
      AdvanceSize(f, herd, rest, dir);
      var q := Target(f, dir, p);
      forall r | r in rest
        ensures Target(f, dir, r) != q
      {
        NextOnGrid(f, dir, p, r);
      }
      assert Advance(f, part, dir) == Advance(f, rest, dir) + {q};
      assert q !in Advance(f, rest, dir);
    }
  }

  /** A step keeps a well-formed map well-formed and keeps the size of each herd. */
  lemma StepKeepsWellFormed(f: Floor)
    requires WellFormed(f) && Steppable(f)
    ensures WellFormed(StepValue(f).0)
    ensures |StepValue(f).0.east| == |f.east| && |StepValue(f).0.south| == |f.south|
  {
    var half := f.(east := Advance(f, f.east, East));
    HalfStepKeeps(f, half, East);
    HalfStepKeeps(half, StepValue(f).0, South);
  }

  /** One half-step keeps a well-formed map well formed and keeps the size of the herd that moved. */
  lemma HalfStepKeeps(f: Floor, g: Floor, dir: Direction)
    requires WellFormed(f) && (Herd(f, dir) != {} ==> Bound(f, dir) > 0)
    requires g == if dir == East then f.(east := Advance(f, f.east, East)) else f.(south := Advance(f, f.south, South))
    ensures WellFormed(g) && |Herd(g, dir)| == |Herd(f, dir)|
  {
    var herd := Herd(f, dir);
    AdvanceKeeps(f, herd, dir);
    var moved := Advance(f, herd, dir);
    assert Herd(g, dir) == moved;
    forall q | q in moved
      ensures q !in (if dir == East then f.south else f.east)
    {
      if q in herd {
        assert q in (if dir == East then f.east else f.south);
      }
    }
  }

  // The map object

  class CucumberMap {
    var eastCucumbers: set<Pos>
    var southCucumbers: set<Pos>
    var boundaries: (nat, nat)

    function Value(): Floor
      reads this
    {
      Floor(eastCucumbers, southCucumbers, boundaries)
    }

    /** A map holding `f`. */
    constructor Of(f: Floor)
      ensures Value() == f
    {
      eastCucumbers := f.east;
      southCucumbers := f.south;
      boundaries := f.boundaries;
    }

    /**
     * `perform_step`: each member of `cucumbers` is put on its next cell when
     * that cell is occupied by neither herd of this map, and where it was
     * otherwise; the count is the number of members that moved.
     */
    method PerformStep(cucumbers: set<Pos>, dir: Direction) returns (moves: nat, newCucumbers: set<Pos>)
      requires cucumbers != {} ==> Bound(Value(), dir) > 0
      ensures moves == |Movers(Value(), cucumbers, dir)|
      ensures newCucumbers == Advance(Value(), cucumbers, dir)
    {
      moves := 0;
      newCucumbers := {};
      var rest := cucumbers;
      while rest != {}
        invariant rest <= cucumbers
        invariant moves == |Movers(Value(), cucumbers - rest, dir)|
        invariant newCucumbers == Advance(Value(), cucumbers - rest, dir)
        decreases |rest|
      {
        var cucumber :| cucumber in rest;
        ghost var done := cucumbers - rest;
        var nextPos := Next(Value(), dir, cucumber);
        if !Occupied(Value(), nextPos) {
          newCucumbers := newCucumbers + {nextPos};
          moves := moves + 1;
        } else {
          newCucumbers := newCucumbers + {cucumber};
        }
        rest := rest - {cucumber};
        HalfStepGrows(Value(), done, cucumber, dir);
        assert cucumbers - rest == done + {cucumber};
      }
      assert cucumbers - rest == cucumbers;
    }

    /** `step`: the east herd moves first, then the south herd against the moved east herd; returns the number of moves. */
    method Step() returns (moves: nat)
      requires Steppable(Value())
      modifies this
      ensures Value() == StepValue(old(Value())).0
      ensures moves == StepValue(old(Value())).1
    {
      moves := 0;
      var eastMoves, east := PerformStep(eastCucumbers, East);
      eastCucumbers := east;
      moves := moves + eastMoves;
      var southMoves, south := PerformStep(southCucumbers, South);
      southCucumbers := south;
      moves := moves + southMoves;
    }
  }

  /** One more member handled by the half-step loop: it joins the movers if its next cell is free, and its target joins the result. */
  lemma HalfStepGrows(f: Floor, done: set<Pos>, p: Pos, dir: Direction)
    requires Bound(f, dir) > 0 && p !in done
    ensures Advance(f, done + {p}, dir) == Advance(f, done, dir) + {Target(f, dir, p)}
    ensures Movers(f, done + {p}, dir) == Movers(f, done, dir) + (if Occupied(f, Next(f, dir, p)) then {} else {p})
    ensures |Movers(f, done + {p}, dir)| == |Movers(f, done, dir)| + (if Occupied(f, Next(f, dir, p)) then 0 else 1)
  {
    AdvanceGrows(f, done, p, dir);
    MoversGrow(f, done, p, dir);
  }

  lemma AdvanceGrows(f: Floor, done: set<Pos>, p: Pos, dir: Direction)
    requires Bound(f, dir) > 0
    ensures Advance(f, done + {p}, dir) == Advance(f, done, dir) + {Target(f, dir, p)}
  {
    var a, b := Advance(f, done + {p}, dir), Advance(f, done, dir) + {Target(f, dir, p)};
    forall q | q in a ensures q in b {
      var r :| r in done + {p} && Target(f, dir, r) == q;
    }
  }

  lemma MoversGrow(f: Floor, done: set<Pos>, p: Pos, dir: Direction)
    requires Bound(f, dir) > 0 && p !in done
    ensures Movers(f, done + {p}, dir) == Movers(f, done, dir) + (if Occupied(f, Next(f, dir, p)) then {} else {p})
    ensures p !in Movers(f, done, dir)
  {
  }

  /**
   * `steps_to_stop` on a copy of the map, with at most `fuel` steps: the number
   * of steps up to and including the first one in which nobody moves, or None
   * when each of the first `fuel` steps moved somebody.
   */
  method StepsToStop(cucumberMap: CucumberMap, fuel: nat) returns (r: Option<nat>)
    requires Steppable(cucumberMap.Value())
    ensures r.Some? ==> 1 <= r.value <= fuel && StepValue(After(cucumberMap.Value(), r.value - 1)).1 == 0
    ensures r.Some? ==> forall j :: 0 <= j < r.value - 1 ==> StepValue(After(cucumberMap.Value(), j)).1 > 0
    ensures r.None? ==> forall j :: 0 <= j < fuel ==> StepValue(After(cucumberMap.Value(), j)).1 > 0
  {
    ghost var start := cucumberMap.Value();
    var current := new CucumberMap.Of(cucumberMap.Value());
    var steps := 0;
    while steps < fuel
      invariant steps <= fuel && cucumberMap.Value() == start
      invariant current.Value() == After(start, steps)
      invariant forall j :: 0 <= j < steps ==> StepValue(After(start, j)).1 > 0
    {
      steps := steps + 1;
      var moves := current.Step();
      if moves == 0 {
        return Some(steps);
      }
    }
    return None;
  }

  /** Once a step moves nobody, every later step moves nobody: the count is where the herds stop for good. */
  lemma {:induction false} StoppedForGood(f: Floor, k: nat, n: nat)
    requires Steppable(f) && StepValue(After(f, k)).1 == 0 && k <= n
    ensures After(f, n) == After(f, k) && StepValue(After(f, n)).1 == 0
    decreases n - k
  {
    NoMovesFixed(After(f, k));
    if n > k {
      StoppedForGood(f, k, n - 1);
      NoMovesFixed(After(f, n - 1));
    }
  }

  // Reading the map

  /** The cells holding `ch` in the rows before row y, and in row y before column x. */
  function Seen(lines: seq<string>, ch: char, y: nat, x: nat): set<Pos>
  {
    set j: nat, i: nat | j < |lines| && i < |lines[j]| && (j < y || (j == y && i < x)) && lines[j][i] == ch :: (i, j)
  }

  /** The cells holding `ch` anywhere in the lines. */
  function Cells(lines: seq<string>, ch: char): set<Pos>
  {
    Seen(lines, ch, |lines|, 0)
  }

  /** `from_str` on the lines of the input: '>' joins the east herd, 'v' the south herd; the width is the first line's. */
  function ParseValue(lines: seq<string>): Floor
    requires lines != []
  {
    Floor(Cells(lines, '>'), Cells(lines, 'v'), (|lines[0]|, |lines|))
  }

  /** The herds read hold exactly the positions of their characters. */
  lemma CellsMeaning(lines: seq<string>, ch: char, p: Pos)
    ensures p in Cells(lines, ch) <==> p.1 < |lines| && p.0 < |lines[p.1]| && lines[p.1][p.0] == ch
  {
    if p.1 < |lines| && p.0 < |lines[p.1]| && lines[p.1][p.0] == ch {
      assert p == (p.0, p.1);
    }
  }

  /** A map read from lines of equal length is well formed and can be stepped. */
  lemma ParsedWellFormed(lines: seq<string>)
    requires lines != [] && forall k :: 0 <= k < |lines| ==> |lines[k]| == |lines[0]|
    ensures WellFormed(ParseValue(lines)) && Steppable(ParseValue(lines))
  {
    var f := ParseValue(lines);
    forall p | p in f.east || p in f.south
      ensures InBounds(f, p)
    {
      CellsMeaning(lines, '>', p);
      CellsMeaning(lines, 'v', p);
    }
    forall p | p in f.east
      ensures p !in f.south
    {
      CellsMeaning(lines, '>', p);
      CellsMeaning(lines, 'v', p);
    }
  }

  /** The character at column x of row y adds that cell to its herd, if it is one of the two. */
  lemma SeenStep(lines: seq<string>, ch: char, y: nat, x: nat)
    requires y < |lines| && x < |lines[y]|
    ensures Seen(lines, ch, y, x + 1) == Seen(lines, ch, y, x) + (if lines[y][x] == ch then {(x, y)} else {})
  {
  }

  /** Finishing a row is starting the next one. */
  lemma SeenRow(lines: seq<string>, ch: char, y: nat)
    requires y < |lines|
    ensures Seen(lines, ch, y + 1, 0) == Seen(lines, ch, y, |lines[y]|)
  {
  }

  /**
   * `CucumberMap::from_str`: None where the program panics on an input
   * without lines, otherwise a map holding the parsed herds.
   */
  method FromStr(s: string) returns (r: Option<CucumberMap>)
    ensures r.None? <==> Lines(s) == []
    ensures r.Some? ==> fresh(r.value) && r.value.Value() == ParseValue(Lines(s))
  {
    var lines := Lines(s);
    if lines == [] {
      return None;
    }
    var boundaries := (|lines[0]|, |lines|);
    var westCucumbers: set<Pos> := {};
    var southCucumbers: set<Pos> := {};
    for y := 0 to |lines|
      invariant westCucumbers == Seen(lines, '>', y, 0)
      invariant southCucumbers == Seen(lines, 'v', y, 0)
    {
      var line := lines[y];
      for x := 0 to |line|
        invariant westCucumbers == Seen(lines, '>', y, x)
        invariant southCucumbers == Seen(lines, 'v', y, x)
      {
        SeenStep(lines, '>', y, x);
        SeenStep(lines, 'v', y, x);
        if line[x] == '>' {
          westCucumbers := westCucumbers + {(x, y)};
        } else if line[x] == 'v' {
          southCucumbers := southCucumbers + {(x, y)};
        }
      }
      SeenRow(lines, '>', y);
      SeenRow(lines, 'v', y);
    }
    var m := new CucumberMap.Of(Floor(westCucumbers, southCucumbers, boundaries));
    return Some(m);
  }
}
