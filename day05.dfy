/**
 * Hydrothermal venture (day 5): vent lines between two grid points, the grid
 * cells each line covers, and the count of cells covered by at least two
 * lines, computed by incrementing a grid.
 */
module Day05 {
  import opened Common
  import opened Text
  import opened Utils

  datatype Vent = Vent(start: (nat, nat), end: (nat, nat))

  datatype VentOrientation = Horizontal | Vertical | Diagonal

  /** Whether `y` lies between `a` and `b`, in whichever order they come. */
  predicate Between(a: nat, y: nat, b: nat)
  {
    (a <= y <= b) || (b <= y <= a)
  }

  /** `y_axis_overlap`: one of `other`'s y endpoints lies in this vent's inclusive y-range. */
  function YAxisOverlap(v: Vent, other: Vent): (r: bool)
    ensures r <==> Between(v.start.1, other.start.1, v.end.1) || Between(v.start.1, other.end.1, v.end.1)
  {
    var (s, e) := (Min(v.start.1, v.end.1), Max(v.start.1, v.end.1));
    var (otherS, otherE) := (Min(other.start.1, other.end.1), Max(other.start.1, other.end.1));
    (s <= otherS <= e) || (s <= otherE <= e)
  }

  /** Equal x values make a vertical vent (checked first), equal y values a horizontal one. */
  function Orientation(v: Vent): (r: VentOrientation)
    ensures r == Vertical <==> v.start.0 == v.end.0
    ensures r == Horizontal <==> v.start.0 != v.end.0 && v.start.1 == v.end.1
  {
    if v.start.0 == v.end.0 then Vertical
    else if v.start.1 == v.end.1 then Horizontal
    else Diagonal
  }

  /** The corners of the vent's bounding box: componentwise minimum and maximum of the endpoints. */
  function OrderedPositions(v: Vent): (r: ((nat, nat), (nat, nat)))
    ensures r.0.0 <= r.1.0 && r.0.1 <= r.1.1
    ensures {r.0.0, r.1.0} == {v.start.0, v.end.0} && {r.0.1, r.1.1} == {v.start.1, v.end.1}
  {
    ((Min(v.start.0, v.end.0), Min(v.start.1, v.end.1)), (Max(v.start.0, v.end.0), Max(v.start.1, v.end.1)))
  }

  /** `lo..=hi`, ascending. */
  function Range(lo: nat, hi: nat): (r: seq<nat>)
    ensures |r| == if lo <= hi then hi - lo + 1 else 0
    ensures forall i :: 0 <= i < |r| ==> r[i] == lo + i
  {
    if lo > hi then [] else seq(hi - lo + 1, i requires 0 <= i <= hi - lo => lo + i)
  }

  /** `(to..=from).rev()` when `from > to`, else `from..=to`: the coordinates from `from` to `to`, one by one. */
  function Walk(from: nat, to: nat): (r: seq<nat>)
    ensures |r| == if from <= to then to - from + 1 else from - to + 1
    ensures forall i :: 0 <= i < |r| ==> r[i] == if from <= to then from + i else from - i
  {
    if from > to then
      var up := Range(to, from);
      seq(|up|, i requires 0 <= i < |up| => up[|up| - 1 - i])
    else Range(from, to)
  }

  /** `points`: the cells of the vent, as the program lists them. */
  function Points(v: Vent): seq<(nat, nat)>
  {
    var (start, end) := OrderedPositions(v);
    match Orientation(v)
    case Horizontal =>
      var xs := Range(start.0, end.0);
      seq(|xs|, i requires 0 <= i < |xs| => (xs[i], start.1))
    case Vertical =>
      var ys := Range(start.1, end.1);
      seq(|ys|, i requires 0 <= i < |ys| => (start.0, ys[i]))
    case Diagonal => Zip(Walk(v.start.0, v.end.0), Walk(v.start.1, v.end.1))
  }

  /**
   * A horizontal or vertical vent lists the cells of its segment in ascending
   * order, max - min + 1 of them, and a cell is listed iff it lies on the segment.
   */
  lemma StraightPoints(v: Vent, p: (nat, nat))
    requires Orientation(v) != Diagonal
    ensures var (lo, hi) := OrderedPositions(v);
      |Points(v)| == (if Orientation(v) == Horizontal then hi.0 - lo.0 else hi.1 - lo.1) + 1
    ensures var (lo, hi) := OrderedPositions(v);
      forall i :: 0 <= i < |Points(v)| ==> Points(v)[i] == (if Orientation(v) == Horizontal then (lo.0 + i, lo.1) else (lo.0, lo.1 + i))
    ensures var (lo, hi) := OrderedPositions(v);
      p in Points(v) <==> lo.0 <= p.0 <= hi.0 && lo.1 <= p.1 <= hi.1
  {
    var (lo, hi) := OrderedPositions(v);
    var pts := Points(v);
    if lo.0 <= p.0 <= hi.0 && lo.1 <= p.1 <= hi.1 {
      var i := if Orientation(v) == Horizontal then p.0 - lo.0 else p.1 - lo.1;
      assert pts[i] == p;
    }
  }

  /**
   * A diagonal vent starts at its start point and steps by one on both axes
   * towards its end; for a 45-degree vent it has |dx| + 1 cells and ends at its end point.
   */
  lemma DiagonalPoints(v: Vent)
    requires Orientation(v) == Diagonal
    ensures Points(v) != [] && Points(v)[0] == v.start
    ensures forall i :: 0 <= i < |Points(v)| ==>
      Points(v)[i] == (if v.start.0 <= v.end.0 then v.start.0 + i else v.start.0 - i,
                       if v.start.1 <= v.end.1 then v.start.1 + i else v.start.1 - i)
    ensures Distance(v.start.0, v.end.0) == Distance(v.start.1, v.end.1) ==>
      |Points(v)| == Distance(v.start.0, v.end.0) + 1 && Points(v)[|Points(v)| - 1] == v.end
  {
  }

  function Distance(a: nat, b: nat): nat
  {
    if a <= b then b - a else a - b
  }

  /** Every cell of a vent lies in its bounding box. */
  lemma PointsInBox(v: Vent)
    ensures var (lo, hi) := OrderedPositions(v);
      forall p :: p in Points(v) ==> lo.0 <= p.0 <= hi.0 && lo.1 <= p.1 <= hi.1
  {
    var (lo, hi) := OrderedPositions(v);
    if Orientation(v) == Diagonal {
      DiagonalPoints(v);
      forall p | p in Points(v) ensures lo.0 <= p.0 <= hi.0 && lo.1 <= p.1 <= hi.1 {
        var i :| 0 <= i < |Points(v)| && Points(v)[i] == p;
      }
    } else {
      forall p | p in Points(v) ensures lo.0 <= p.0 <= hi.0 && lo.1 <= p.1 <= hi.1 {
        StraightPoints(v, p);
      }
    }
  }

  /** The two ways `try_from` fails: a missing part, or a coordinate that is not a usize. */
  datatype VentError = MalformedInput | InvalidNumber

  /** The text before the first " -> " of a line (k = 0) or after it, up to any further arrow (k = 1). */
  function Side(line: string, k: nat): string
    requires k < 2 && Find(line, " -> ").Some?
  {
    Split(line, " -> ")[k]
  }

  /** Every comma-separated piece of `text` reads as a usize. */
  predicate Numbers(text: string)
  {
    var pieces := Split(text, ",");
    forall k :: 0 <= k < |pieces| ==> ParseUsize(pieces[k]).Some?
  }

  /** The k-th comma-separated number of `text`. */
  function Coordinate(text: string, k: nat): nat
    requires Numbers(text) && k < |Split(text, ",")|
  {
    ParseUsize(Split(text, ",")[k]).value
  }

  /**
   * `HydrothermalVent::try_from` for a line "x1,y1 -> x2,y2".  A line without
   * an arrow, or with fewer than two numbers on a side, is malformed; a piece
   * that is not a usize is an invalid number (it is checked before the count).
   */
  function ParseVent(line: string): (r: Result<Vent, VentError>)
    ensures Find(line, " -> ").None? ==> r == Err(MalformedInput)
    ensures r == Err(InvalidNumber) <==>
      Find(line, " -> ").Some? && !(Numbers(Side(line, 0)) && Numbers(Side(line, 1)))
    ensures r.Ok? <==>
      Find(line, " -> ").Some? && Numbers(Side(line, 0)) && Numbers(Side(line, 1)) &&
      |Split(Side(line, 0), ",")| >= 2 && |Split(Side(line, 1), ",")| >= 2
    ensures r.Ok? ==>
      r.value.start == (Coordinate(Side(line, 0), 0), Coordinate(Side(line, 0), 1)) &&
      r.value.end == (Coordinate(Side(line, 1), 0), Coordinate(Side(line, 1), 1))
  {
    var arrow := Split(line, " -> ");
    if |arrow| < 2 then Err(MalformedInput)
    else
      match ParseEach(Split(arrow[0], ","))
      case None => Err(InvalidNumber)
      case Some(startPos) =>
        match ParseEach(Split(arrow[1], ","))
        case None => Err(InvalidNumber)
        case Some(endPos) =>
          if |startPos| < 2 || |endPos| < 2 then Err(MalformedInput)
          else Ok(Vent((startPos[0], startPos[1]), (endPos[0], endPos[1])))
  }

  /** A vent written the way the input file states it: "x1,y1 -> x2,y2". */
  function Written(v: Vent): string
  {
    WrittenPoint(v.start) + " -> " + WrittenPoint(v.end)
  }

  function WrittenPoint(p: (nat, nat)): string
  {
    Decimal(p.0) + "," + Decimal(p.1)
  }

  lemma NoSeparator(n: nat)
    ensures !(',' in Decimal(n)) && !(' ' in Decimal(n))
  {
    var d := Decimal(n);
    assert forall c :: c in d ==> IsDigit(c);
  }

  lemma CoordinatesRead(a: nat, b: nat)
    requires a <= USIZE_MAX && b <= USIZE_MAX
    ensures ParseEach(Split(WrittenPoint((a, b)), ",")) == Some([a, b])
    ensures !(' ' in WrittenPoint((a, b)))
  {
    NoSeparator(a);
    NoSeparator(b);
    SplitTwo(Decimal(a), ",", Decimal(b));
    ParseDecimal(a);
    ParseDecimal(b);
    var words := [Decimal(a), Decimal(b)];
    assert ParseUsize(words[0]) == Some(a) && ParseUsize(words[1]) == Some(b);
    var r := ParseEach(words);
    assert r.Some? && |r.value| == 2 && r.value[0] == a && r.value[1] == b;
    assert r.value == [a, b];
  }

  /** A vent written as "x1,y1 -> x2,y2" is read back unchanged. */
  lemma ParseWritten(v: Vent)
    requires v.start.0 <= USIZE_MAX && v.start.1 <= USIZE_MAX && v.end.0 <= USIZE_MAX && v.end.1 <= USIZE_MAX
    ensures ParseVent(Written(v)) == Ok(v)
  {
    var a, b := WrittenPoint(v.start), WrittenPoint(v.end);
    CoordinatesRead(v.start.0, v.start.1);
    CoordinatesRead(v.end.0, v.end.1);
    SplitTwo(a, " -> ", b);
    assert Split(Written(v), " -> ") == [a, b];
  }

  /** The cells of all vents, vent after vent. */
  function AllPoints(vents: seq<Vent>): seq<(nat, nat)>
  {
    if vents == [] then [] else AllPoints(vents[..|vents| - 1]) + Points(vents[|vents| - 1])
  }

  /** The largest x (or, with `y`, the largest y) among the vents' endpoints. */
  function MaxCoord(vents: seq<Vent>, y: bool): (r: nat)
    requires vents != []
    ensures forall k :: 0 <= k < |vents| ==> Coord(vents[k].start, y) <= r && Coord(vents[k].end, y) <= r
  {
    var v := vents[|vents| - 1];
    var here := Max(Coord(v.start, y), Coord(v.end, y));
    if |vents| == 1 then here else Max(MaxCoord(vents[..|vents| - 1], y), here)
  }

  function Coord(p: (nat, nat), y: bool): nat
  {
    if y then p.1 else p.0
  }

  /** The cells of a vent whose endpoints lie inside a grid lie inside the grid. */
  lemma VentInGrid(v: Vent, w: nat, h: nat)
    requires v.start.0 < w && v.end.0 < w && v.start.1 < h && v.end.1 < h
    ensures forall p :: p in Points(v) ==> p.0 < w && p.1 < h
  {
    PointsInBox(v);
  }

  /** Every cell of every vent lies inside the grid spanned by the largest coordinates. */
  lemma {:induction false} AllPointsInGrid(vents: seq<Vent>, w: nat, h: nat)
    requires forall k :: 0 <= k < |vents| ==> vents[k].start.0 < w && vents[k].end.0 < w && vents[k].start.1 < h && vents[k].end.1 < h
    ensures forall p :: p in AllPoints(vents) ==> p.0 < w && p.1 < h
  {
    if vents != [] {
      AllPointsInGrid(vents[..|vents| - 1], w, h);
      VentInGrid(vents[|vents| - 1], w, h);
    }
  }

  /** The number of cells (x, y) with x < width on row y covered at least twice. */
  function RowDanger(cover: multiset<(nat, nat)>, y: nat, width: nat): nat
  {
    if width == 0 then 0 else RowDanger(cover, y, width - 1) + (if cover[(width - 1, y)] > 1 then 1 else 0)
  }

  /** The number of cells of the width x height grid covered at least twice. */
  function GridDanger(cover: multiset<(nat, nat)>, height: nat, width: nat): nat
  {
    if height == 0 then 0 else GridDanger(cover, height - 1, width) + RowDanger(cover, height - 1, width)
  }

  /** The cells covered at least twice. */
  function Dangerous(cover: multiset<(nat, nat)>): set<(nat, nat)>
  {
    set p | p in cover && cover[p] > 1
  }

  function RowCells(cover: multiset<(nat, nat)>, y: nat, width: nat): set<(nat, nat)>
  {
    set p | p in cover && cover[p] > 1 && p.1 == y && p.0 < width
  }

  function GridCells(cover: multiset<(nat, nat)>, height: nat, width: nat): set<(nat, nat)>
  {
    set p | p in cover && cover[p] > 1 && p.1 < height && p.0 < width
  }

  lemma {:induction false} RowDangerCounts(cover: multiset<(nat, nat)>, y: nat, width: nat)
    ensures RowDanger(cover, y, width) == |RowCells(cover, y, width)|
  {
    if width == 0 {
      assert RowCells(cover, y, 0) == {};
    } else {
      RowDangerCounts(cover, y, width - 1);
      var cell := (width - 1, y);
      if cover[cell] > 1 {
        assert RowCells(cover, y, width) == RowCells(cover, y, width - 1) + {cell};
      } else {
        assert RowCells(cover, y, width) == RowCells(cover, y, width - 1);
      }
    }
  }

  lemma {:induction false} GridDangerCounts(cover: multiset<(nat, nat)>, height: nat, width: nat)
    ensures GridDanger(cover, height, width) == |GridCells(cover, height, width)|
  {
    if height == 0 {
      assert GridCells(cover, 0, width) == {};
    } else {
      GridDangerCounts(cover, height - 1, width);
      RowDangerCounts(cover, height - 1, width);
      var upper := GridCells(cover, height - 1, width);
      var row := RowCells(cover, height - 1, width);
      assert GridCells(cover, height, width) == upper + row;
      assert upper * row == {};
    }
  }

  /**
   * When the grid holds every covered cell, counting the grid cells covered
   * at least twice counts exactly the dangerous cells.
   */
  lemma GridCountsDangerous(cover: multiset<(nat, nat)>, height: nat, width: nat)
    requires forall p :: p in cover ==> p.0 < width && p.1 < height
    ensures GridDanger(cover, height, width) == |Dangerous(cover)|
  {
    GridDangerCounts(cover, height, width);
    assert GridCells(cover, height, width) == Dangerous(cover);
  }

  /**
   * `overlapping_vents_brute`: the number of cells covered by at least two
   * vent cells (counted with repetition), 0 for no vents.
   */
  method OverlappingVentsBrute(vents: seq<Vent>) returns (count: nat)
    ensures count == |Dangerous(multiset(AllPoints(vents)))|
  {
    if vents == [] {
      assert Dangerous(multiset(AllPoints(vents))) == {};
      return 0;
    }
    count := CountOnBoard(vents);
  }

  /** The body of `overlapping_vents_brute` for at least one vent: mark a board spanning all vents, then count. */
  method CountOnBoard(vents: seq<Vent>) returns (count: nat)
    requires vents != []
    ensures count == |Dangerous(multiset(AllPoints(vents)))|
  {
    var maxX, maxY := MaxCoord(vents, false), MaxCoord(vents, true);
    VentsBelowMax(vents);
    GridCoversAll(vents, maxX + 1, maxY + 1);
    count := MarkAndCount(vents, maxX + 1, maxY + 1);
  }

  /** Marks the vents on a fresh board of the given size and counts the cells covered at least twice. */
  method MarkAndCount(vents: seq<Vent>, width: nat, height: nat) returns (count: nat)
    requires forall k :: 0 <= k < |vents| ==> vents[k].start.0 < width && vents[k].end.0 < width
    requires forall k :: 0 <= k < |vents| ==> vents[k].start.1 < height && vents[k].end.1 < height
    ensures count == GridDanger(multiset(AllPoints(vents)), height, width)
  {
    var board := NewBoard(height, width);
    MarkVents(board, vents);
    count := CountDangerous(board, multiset(AllPoints(vents)));
  }

  /** A grid that holds every vent's endpoints counts exactly the dangerous cells. */
  lemma GridCoversAll(vents: seq<Vent>, w: nat, h: nat)
    requires forall k :: 0 <= k < |vents| ==> vents[k].start.0 < w && vents[k].end.0 < w && vents[k].start.1 < h && vents[k].end.1 < h
    ensures GridDanger(multiset(AllPoints(vents)), h, w) == |Dangerous(multiset(AllPoints(vents)))|
  {
    AllPointsInGrid(vents, w, h);
    GridCountsDangerous(multiset(AllPoints(vents)), h, w);
  }

  /** Every endpoint of every vent is at most the largest coordinate on its axis. */
  lemma VentsBelowMax(vents: seq<Vent>)
    requires vents != []
    ensures forall k :: 0 <= k < |vents| ==> vents[k].start.0 <= MaxCoord(vents, false) && vents[k].end.0 <= MaxCoord(vents, false)
    ensures forall k :: 0 <= k < |vents| ==> vents[k].start.1 <= MaxCoord(vents, true) && vents[k].end.1 <= MaxCoord(vents, true)
  {
    assert forall k :: 0 <= k < |vents| ==> Coord(vents[k].start, false) <= MaxCoord(vents, false);
  }

  /** `vec![vec![0; max_x + 1]; max_y + 1]`: a board of zeros, rows first. */
  method NewBoard(height: nat, width: nat) returns (board: array2<nat>)
    ensures fresh(board) && board.Length0 == height && board.Length1 == width
    ensures forall a, b :: 0 <= b < height && 0 <= a < width ==> board[b, a] == 0
  {
    board := new nat[height, width]((_, _) => 0);
  }

  /** The loop over the vents: afterwards each board cell holds the number of vent cells on it. */
  method MarkVents(board: array2<nat>, vents: seq<Vent>)
    requires forall k :: 0 <= k < |vents| ==> vents[k].start.0 < board.Length1 && vents[k].end.0 < board.Length1
    requires forall k :: 0 <= k < |vents| ==> vents[k].start.1 < board.Length0 && vents[k].end.1 < board.Length0
    requires forall a, b :: 0 <= b < board.Length0 && 0 <= a < board.Length1 ==> board[b, a] == 0
    modifies board
    ensures forall a, b :: 0 <= b < board.Length0 && 0 <= a < board.Length1 ==> board[b, a] == multiset(AllPoints(vents))[(a, b)]
  {
    for i := 0 to |vents|
      invariant forall a, b :: 0 <= b < board.Length0 && 0 <= a < board.Length1 ==> board[b, a] == multiset(AllPoints(vents[..i]))[(a, b)]
    {
      var points := Points(vents[i]);
      assert AllPoints(vents[..i + 1]) == AllPoints(vents[..i]) + points by {
        assert vents[..i + 1][..i] == vents[..i];
      }
      VentInGrid(vents[i], board.Length1, board.Length0);
      MarkPoints(board, points, multiset(AllPoints(vents[..i])));
    }
    assert vents[..|vents|] == vents;
  }

  /** One vent's `for_each(|(x, y)| board[y][x] += 1)`. */
  method MarkPoints(board: array2<nat>, points: seq<(nat, nat)>, ghost before: multiset<(nat, nat)>)
    requires forall p :: p in points ==> p.1 < board.Length0 && p.0 < board.Length1
    requires forall a, b :: 0 <= b < board.Length0 && 0 <= a < board.Length1 ==> board[b, a] == before[(a, b)]
    modifies board
    ensures forall a, b :: 0 <= b < board.Length0 && 0 <= a < board.Length1 ==> board[b, a] == (before + multiset(points))[(a, b)]
  {
    for j := 0 to |points|
      invariant forall a, b :: 0 <= b < board.Length0 && 0 <= a < board.Length1 ==> board[b, a] == (before + multiset(points[..j]))[(a, b)]
    {
      var (x, y) := points[j];
      assert points[j] in points;
      assert points[..j + 1] == points[..j] + [points[j]];
      board[y, x] := board[y, x] + 1;
    }
    assert points[..|points|] == points;
  }

  /** The final count: the board cells holding more than one. */
  method CountDangerous(board: array2<nat>, ghost cover: multiset<(nat, nat)>) returns (count: nat)
    requires forall a, b :: 0 <= b < board.Length0 && 0 <= a < board.Length1 ==> board[b, a] == cover[(a, b)]
    ensures count == GridDanger(cover, board.Length0, board.Length1)
  {
    count := 0;
    for y := 0 to board.Length0
      invariant count == GridDanger(cover, y, board.Length1)
    {
      for x := 0 to board.Length1
        invariant count == GridDanger(cover, y, board.Length1) + RowDanger(cover, y, x)
      {
        if board[y, x] > 1 {
          count := count + 1;
        }
      }
    }
  }
}
