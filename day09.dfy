/**
 * Smoke Basin (day 9): a heightmap of digits.  A low point is lower than all
 * of its orthogonal neighbours; the risk level adds one plus the height of
 * every low point; a basin grows from a low point over neighbours that are
 * higher and not of height 9.
 */
module Day09 {
  import opened Common
  import opened Text

  /** `Heightmap`: the rows of heights, the first row's width and the number of rows. */
  datatype Heightmap = Heightmap(data: seq<seq<nat>>, maxX: nat, maxY: nat)

  datatype HeightmapError = EmptyHeightmap | NotADigit(ch: char)

  /** `Heightmap::new`: an empty grid is refused; the width is taken from the first row. */
  function NewHeightmap(data: seq<seq<nat>>): (r: Result<Heightmap, HeightmapError>)
    ensures r.Err? <==> data == []
    ensures r.Ok? ==> r.value.data == data && r.value.maxY == |data| && r.value.maxX == |data[0]|
  {
    if |data| == 0 then Err(EmptyHeightmap)
    else Ok(Heightmap(data, |data[0]|, |data|))
  }

  /** Every cell inside the first row's width can be read: no row is shorter than the first. */
  predicate Readable(h: Heightmap)
  {
    |h.data| == h.maxY && forall y :: 0 <= y < h.maxY ==> |h.data[y]| >= h.maxX
  }

  predicate InBounds(h: Heightmap, p: (int, int))
  {
    0 <= p.0 < h.maxX && 0 <= p.1 < h.maxY
  }

  function Height(h: Heightmap, p: (nat, nat)): nat
    requires Readable(h) && InBounds(h, p)
  {
    h.data[p.1][p.0]
  }

  /** Two cells one step apart, horizontally or vertically. */
  predicate Adjacent(p: (int, int), q: (int, int))
  {
    (p.1 == q.1 && (p.0 == q.0 + 1 || q.0 == p.0 + 1)) || (p.0 == q.0 && (p.1 == q.1 + 1 || q.1 == p.1 + 1))
  }

  /** The candidates kept by the bounds filter of `neighbours`, in order. */
  function InBoundsOnly(h: Heightmap, candidates: seq<(int, int)>): (r: seq<(nat, nat)>)
    ensures |r| <= |candidates|
    ensures forall i :: 0 <= i < |r| ==> r[i] in candidates && InBounds(h, r[i])
    ensures forall p: (nat, nat) :: p in candidates && InBounds(h, p) ==> p in r
  {
    if candidates == [] then []
    else
      var rest := InBoundsOnly(h, candidates[1..]);
      var c := candidates[0];
      assert candidates == [c] + candidates[1..];
      if InBounds(h, c) then [(c.0 as nat, c.1 as nat)] + rest else rest
  }

  /** `neighbours`: left, right, up, down, kept when inside the map. */
  function Neighbours(h: Heightmap, x: nat, y: nat): (r: seq<(nat, nat)>)
    ensures |r| <= 4
    ensures forall i :: 0 <= i < |r| ==> InBounds(h, r[i]) && Adjacent(r[i], (x, y))
    ensures forall p: (nat, nat) :: InBounds(h, p) && Adjacent(p, (x, y)) ==> p in r
  {
    var xi, yi := x as int, y as int;
    var candidates := [(xi - 1, yi), (xi + 1, yi), (xi, yi - 1), (xi, yi + 1)];
    assert forall p :: Adjacent(p, (x, y)) ==> p in candidates;
    InBoundsOnly(h, candidates)
  }

  /** Being neighbours is symmetric. */
  lemma NeighbourSymmetric(h: Heightmap, p: (nat, nat), q: (nat, nat))
    requires InBounds(h, p) && q in Neighbours(h, p.0, p.1)
    ensures p in Neighbours(h, q.0, q.1)
  {
  }

  /** A low point: every in-bounds orthogonal neighbour is strictly higher. */
  ghost predicate IsLowPoint(h: Heightmap, p: (nat, nat))
    requires Readable(h) && InBounds(h, p)
  {
    forall n: (nat, nat) {:trigger Adjacent(n, p)} :: InBounds(h, n) && Adjacent(n, p) ==> Height(h, n) > Height(h, p)
  }

  /** The test of `low_points`: every neighbour is strictly higher. */
  predicate NeighboursHigher(h: Heightmap, p: (nat, nat))
    requires Readable(h) && InBounds(h, p)
  {
    var ns := Neighbours(h, p.0, p.1);
    forall i :: 0 <= i < |ns| ==> Height(h, ns[i]) > Height(h, p)
  }

  /** The test on `neighbours` is the low-point property. */
  lemma LowPointTest(h: Heightmap, p: (nat, nat))
    requires Readable(h) && InBounds(h, p)
    ensures NeighboursHigher(h, p) <==> IsLowPoint(h, p)
  {
    var ns := Neighbours(h, p.0, p.1);
    if NeighboursHigher(h, p) {
      forall n: (nat, nat) | InBounds(h, n) && Adjacent(n, p)
        ensures Height(h, n) > Height(h, p)
      {
        assert n in ns;
      }
    }
  }

  /** Cartesian-product order: by x, then by y. */
  predicate Before(p: (nat, nat), q: (nat, nat))
  {
    p.0 < q.0 || (p.0 == q.0 && p.1 < q.1)
  }

  predicate Ordered(ps: seq<(nat, nat)>)
  {
    forall i, j :: 0 <= i < j < |ps| ==> Before(ps[i], ps[j])
  }

  /** The cells (x, y) of column x with y below `yEnd` that `keep` accepts, top to bottom. */
  function ColumnWhere(x: nat, yEnd: nat, keep: ((nat, nat)) -> bool): seq<(nat, nat)>
  {
    if yEnd == 0 then []
    else ColumnWhere(x, yEnd - 1, keep) + if keep((x, yEnd - 1)) then [(x, yEnd - 1)] else []
  }

  /** The cells of `(0..xEnd).cartesian_product(0..yEnd)` that `keep` accepts, in that order. */
  function ProductWhere(xEnd: nat, yEnd: nat, keep: ((nat, nat)) -> bool): seq<(nat, nat)>
  {
    if xEnd == 0 then [] else ProductWhere(xEnd - 1, yEnd, keep) + ColumnWhere(xEnd - 1, yEnd, keep)
  }

  lemma {:induction false} ColumnWhereSpec(x: nat, yEnd: nat, keep: ((nat, nat)) -> bool)
    ensures Ordered(ColumnWhere(x, yEnd, keep))
    ensures forall p :: p in ColumnWhere(x, yEnd, keep) <==> p.0 == x && p.1 < yEnd && keep(p)
  {
    if yEnd > 0 {
      ColumnWhereSpec(x, yEnd - 1, keep);
      var front := ColumnWhere(x, yEnd - 1, keep);
      assert forall i :: 0 <= i < |front| ==> front[i] in front;
    }
  }

  /** The filtered product holds exactly the accepted cells, each once, in cartesian-product order. */
  lemma {:induction false} ProductWhereSpec(xEnd: nat, yEnd: nat, keep: ((nat, nat)) -> bool)
    ensures Ordered(ProductWhere(xEnd, yEnd, keep))
    ensures forall p :: p in ProductWhere(xEnd, yEnd, keep) <==> p.0 < xEnd && p.1 < yEnd && keep(p)
  {
    if xEnd > 0 {
      ProductWhereSpec(xEnd - 1, yEnd, keep);
      ColumnWhereSpec(xEnd - 1, yEnd, keep);
      var front := ProductWhere(xEnd - 1, yEnd, keep);
      var column := ColumnWhere(xEnd - 1, yEnd, keep);
      assert forall i :: 0 <= i < |front| ==> front[i] in front;
      assert forall j :: 0 <= j < |column| ==> column[j] in column;
    }
  }

  /** `low_points`: the cells of the product that pass the neighbours test. */
  function LowPoints(h: Heightmap): seq<(nat, nat)>
    requires Readable(h)
  {
    ProductWhere(h.maxX, h.maxY, (p: (nat, nat)) => InBounds(h, p) && NeighboursHigher(h, p))
  }

  /** `low_points` keeps exactly the cells passing its test, each once, in cartesian-product order. */
  lemma LowPointsTested(h: Heightmap)
    requires Readable(h)
    ensures Ordered(LowPoints(h))
    ensures forall p :: p in LowPoints(h) ==> InBounds(h, p) && NeighboursHigher(h, p)
    ensures forall p: (nat, nat) :: InBounds(h, p) && NeighboursHigher(h, p) ==> p in LowPoints(h)
  {
    ProductWhereSpec(h.maxX, h.maxY, (p: (nat, nat)) => InBounds(h, p) && NeighboursHigher(h, p));
  }

  /** The low points are exactly the cells lower than all their neighbours, each once, in cartesian-product order. */
  lemma LowPointsSpec(h: Heightmap)
    requires Readable(h)
    ensures Ordered(LowPoints(h))
    ensures forall p :: p in LowPoints(h) <==> InBounds(h, p) && IsLowPoint(h, p)
  {
    LowPointsTested(h);
    forall p: (nat, nat) | InBounds(h, p)
      ensures p in LowPoints(h) <==> IsLowPoint(h, p)
    {
      LowPointTest(h, p);
    }
  }

  /** The sum of height + 1 over the given cells. */
  function RiskOf(h: Heightmap, points: seq<(nat, nat)>): nat
    requires Readable(h) && forall p :: p in points ==> InBounds(h, p)
  {
    if points == [] then 0
    else
      var last := points[|points| - 1];
      RiskOf(h, points[..|points| - 1]) + Height(h, last) + 1
  }

  /** `risk_level`. */
  function RiskLevel(h: Heightmap): nat
    requires Readable(h)
  {
    LowPointsSpec(h);
    RiskOf(h, LowPoints(h))
  }

  /** Each cell adds at least one and, with heights below 10, at most ten. */
  lemma {:induction false} RiskBounds(h: Heightmap, points: seq<(nat, nat)>)
    requires Readable(h) && forall p :: p in points ==> InBounds(h, p)
    ensures RiskOf(h, points) >= |points|
    ensures (forall p :: p in points ==> Height(h, p) < 10) ==> RiskOf(h, points) <= 10 * |points|
  {
    if points != [] {
      var front := points[..|points| - 1];
      assert forall p :: p in front ==> p in points;
      RiskBounds(h, front);
    }
  }

  /** The risk level lies between the number of low points and ten times it, for a map of digits. */
  lemma RiskLevelBounds(h: Heightmap)
    requires Readable(h)
    ensures RiskLevel(h) >= |LowPoints(h)|
    ensures (forall y, x :: 0 <= y < h.maxY && 0 <= x < h.maxX ==> h.data[y][x] < 10) ==> RiskLevel(h) <= 10 * |LowPoints(h)|
  {
    LowPointsSpec(h);
    RiskBounds(h, LowPoints(h));
  }

  /** A cell lower than every other cell is a low point. */
  lemma LowestIsLowPoint(h: Heightmap, p: (nat, nat))
    requires Readable(h) && InBounds(h, p)
    requires forall q :: InBounds(h, q) && q != p ==> Height(h, q) > Height(h, p)
    ensures p in LowPoints(h)
  {
    LowPointsSpec(h);
    forall n | n in Neighbours(h, p.0, p.1)
      ensures Height(h, n) > Height(h, p)
    {
      assert n != p;
    }
  }

  /** On a flat map with more than one cell no cell is a low point. */
  lemma FlatHasNoLowPoints(h: Heightmap)
    requires Readable(h) && h.maxX * h.maxY > 1
    requires forall p, q :: InBounds(h, p) && InBounds(h, q) ==> Height(h, p) == Height(h, q)
    ensures forall p :: p !in LowPoints(h)
  {
    LowPointsSpec(h);
    forall p: (nat, nat) | InBounds(h, p)
      ensures !IsLowPoint(h, p)
    {
      var n := SomeNeighbour(h, p);
    }
  }

  /** In a map of more than one cell every cell has a neighbour. */
  function SomeNeighbour(h: Heightmap, p: (nat, nat)): (n: (nat, nat))
    requires InBounds(h, p) && h.maxX * h.maxY > 1
    ensures InBounds(h, n) && Adjacent(n, p)
  {
    assert h.maxX == 1 ==> h.maxX * h.maxY == h.maxY;
    if p.0 > 0 then (p.0 - 1, p.1)
    else if p.0 + 1 < h.maxX then (p.0 + 1, p.1)
    else if p.1 > 0 then (p.0, p.1 - 1)
    else (p.0, p.1 + 1)
  }

  // `basins`: flood fill from each low point.

  /** A label grid of the map's shape: `max_y` rows of `max_x` labels. */
  predicate Shaped(h: Heightmap, labels: seq<seq<nat>>)
  {
    |labels| == h.maxY && forall y :: 0 <= y < |labels| ==> |labels[y]| == h.maxX
  }

  function At(labels: seq<seq<nat>>, p: (nat, nat)): nat
    requires p.1 < |labels| && p.0 < |labels[p.1]|
  {
    labels[p.1][p.0]
  }

  function SetAt(labels: seq<seq<nat>>, p: (nat, nat), v: nat): (r: seq<seq<nat>>)
    requires p.1 < |labels| && p.0 < |labels[p.1]|
    ensures |r| == |labels| && forall y :: 0 <= y < |r| ==> |r[y]| == |labels[y]|
    ensures forall q: (nat, nat) :: q.1 < |r| && q.0 < |r[q.1]| ==> At(r, q) == if q == p then v else At(labels, q)
  {
    var row: seq<nat> := labels[p.1][p.0 := v];
    labels[p.1 := row]
  }

  /** How many entries of a row, or of the whole grid, hold label l. */
  function CountRow(row: seq<nat>, l: nat): nat
  {
    if row == [] then 0 else CountRow(row[..|row| - 1], l) + if row[|row| - 1] == l then 1 else 0
  }

  function CountGrid(labels: seq<seq<nat>>, l: nat): nat
  {
    if labels == [] then 0 else CountGrid(labels[..|labels| - 1], l) + CountRow(labels[|labels| - 1], l)
  }

  /** The number of entries of the grid. */
  function Cells(labels: seq<seq<nat>>): nat
  {
    if labels == [] then 0 else Cells(labels[..|labels| - 1]) + |labels[|labels| - 1]|
  }

  lemma {:induction false} CountRowSet(row: seq<nat>, x: nat, v: nat)
    requires x < |row|
    ensures forall l :: CountRow(row[x := v], l) + (if row[x] == l then 1 else 0) == CountRow(row, l) + (if v == l then 1 else 0)
  {
    var n := |row| - 1;
    if x < n {
      CountRowSet(row[..n], x, v);
      assert row[x := v][..n] == row[..n][x := v];
    } else {
      assert row[x := v][..n] == row[..n];
    }
  }

  /** Relabelling one entry moves one count from its old label to its new one. */
  lemma {:induction false} CountGridSet(labels: seq<seq<nat>>, p: (nat, nat), v: nat)
    requires p.1 < |labels| && p.0 < |labels[p.1]|
    ensures forall l :: CountGrid(SetAt(labels, p, v), l) + (if At(labels, p) == l then 1 else 0)
                        == CountGrid(labels, l) + (if v == l then 1 else 0)
    ensures Cells(SetAt(labels, p, v)) == Cells(labels)
  {
    var n := |labels| - 1;
    var r := SetAt(labels, p, v);
    if p.1 < n {
      CountGridSet(labels[..n], p, v);
      assert r[..n] == SetAt(labels[..n], p, v);
      assert r[n] == labels[n];
    } else {
      assert r[..n] == labels[..n];
      CountRowSet(labels[n], p.0, v);
    }
  }

  lemma {:induction false} CountRowBounds(row: seq<nat>, l: nat)
    ensures CountRow(row, l) <= |row|
    ensures (forall x :: 0 <= x < |row| ==> row[x] == l) ==> CountRow(row, l) == |row|
    ensures (forall x :: 0 <= x < |row| ==> row[x] != l) ==> CountRow(row, l) == 0
  {
    if row != [] {
      CountRowBounds(row[..|row| - 1], l);
    }
  }

  /** No entry holds l: the count is 0; every entry does: it is the number of entries. */
  lemma {:induction false} CountGridBounds(labels: seq<seq<nat>>, l: nat)
    ensures CountGrid(labels, l) <= Cells(labels)
    ensures (forall y, x :: 0 <= y < |labels| && 0 <= x < |labels[y]| ==> labels[y][x] == l) ==> CountGrid(labels, l) == Cells(labels)
    ensures (forall y, x :: 0 <= y < |labels| && 0 <= x < |labels[y]| ==> labels[y][x] != l) ==> CountGrid(labels, l) == 0
  {
    if labels != [] {
      var n := |labels| - 1;
      CountGridBounds(labels[..n], l);
      CountRowBounds(labels[n], l);
    }
  }

  lemma {:induction false} CountRowPositive(row: seq<nat>, x: nat, l: nat)
    requires x < |row| && row[x] == l
    ensures CountRow(row, l) >= 1
  {
    if x < |row| - 1 {
      CountRowPositive(row[..|row| - 1], x, l);
    }
  }

  /** A label held somewhere is counted at least once. */
  lemma {:induction false} CountGridPositive(labels: seq<seq<nat>>, p: (nat, nat), l: nat)
    requires p.1 < |labels| && p.0 < |labels[p.1]| && At(labels, p) == l
    ensures CountGrid(labels, l) >= 1
  {
    var n := |labels| - 1;
    if p.1 < n {
      CountGridPositive(labels[..n], p, l);
    } else {
      CountRowPositive(labels[n], p.0, l);
    }
  }

  lemma {:induction false} CellsOfShape(labels: seq<seq<nat>>, w: nat)
    requires forall y :: 0 <= y < |labels| ==> |labels[y]| == w
    ensures Cells(labels) == |labels| * w
  {
    if labels != [] {
      CellsOfShape(labels[..|labels| - 1], w);
    }
  }

  /** The sum of the basin sizes. */
  function SumSizes(basins: seq<(nat, nat)>): nat
  {
    if basins == [] then 0 else SumSizes(basins[..|basins| - 1]) + basins[|basins| - 1].1
  }

  /** The cells accepted around an expanded cell: not labelled yet, not a 9, higher. */
  predicate Joins(h: Heightmap, labels: seq<seq<nat>>, c: (nat, nat), n: (nat, nat))
    requires Readable(h) && Shaped(h, labels) && InBounds(h, c) && InBounds(h, n)
  {
    At(labels, n) == 0 && Height(h, n) != 9 && Height(h, n) > Height(h, c)
  }

  /** An expanded cell: each neighbour it could have taken in is labelled. */
  ghost predicate Closed(h: Heightmap, labels: seq<seq<nat>>, c: (nat, nat))
    requires Readable(h) && Shaped(h, labels) && InBounds(h, c)
  {
    forall n: (nat, nat) {:trigger Adjacent(n, c)} :: InBounds(h, n) && Adjacent(n, c) ==> !Joins(h, labels, c, n)
  }

  /** A labelled cell is its basin's low point, or was taken in from a lower neighbour of the same basin. */
  ghost predicate Joined(h: Heightmap, lows: seq<(nat, nat)>, labels: seq<seq<nat>>, c: (nat, nat))
    requires Readable(h) && Shaped(h, labels) && InBounds(h, c) && 0 < At(labels, c) <= |lows|
  {
    c == lows[At(labels, c) - 1]
    || (Height(h, c) != 9
        && exists n: (nat, nat) {:trigger Adjacent(n, c)} :: InBounds(h, n) && Adjacent(n, c)
             && At(labels, n) == At(labels, c) && Height(h, n) < Height(h, c))
  }

  /** The low points of the map, each once, in order. */
  ghost predicate LowPointList(h: Heightmap, lows: seq<(nat, nat)>)
  {
    Readable(h) && Ordered(lows) && forall p :: p in lows <==> InBounds(h, p) && IsLowPoint(h, p)
  }

  /** No label above top is in use. */
  ghost predicate LabelsBelow(h: Heightmap, labels: seq<seq<nat>>, top: nat)
    requires Shaped(h, labels)
  {
    forall p: (nat, nat) :: InBounds(h, p) ==> At(labels, p) <= top
  }

  /** Low point i carries label i + 1 when i < top, and none otherwise. */
  ghost predicate LowsLabelled(h: Heightmap, lows: seq<(nat, nat)>, labels: seq<seq<nat>>, top: nat)
    requires Shaped(h, labels)
  {
    forall i :: 0 <= i < |lows| ==> InBounds(h, lows[i]) && At(labels, lows[i]) == if i < top then i + 1 else 0
  }

  /** Every labelled cell joined its basin by the rule. */
  ghost predicate AllJoined(h: Heightmap, lows: seq<(nat, nat)>, labels: seq<seq<nat>>)
    requires Readable(h) && Shaped(h, labels)
  {
    forall p: (nat, nat) :: InBounds(h, p) && 0 < At(labels, p) <= |lows| ==> Joined(h, lows, labels, p)
  }

  /**
   * Labels 1..top are in use; low point i carries label i + 1 when i < top
   * and none otherwise; every labelled cell joined its basin by the rule.
   */
  ghost predicate Labelled(h: Heightmap, lows: seq<(nat, nat)>, labels: seq<seq<nat>>, top: nat)
  {
    LowPointList(h, lows) && Shaped(h, labels) && top <= |lows|
    && LabelsBelow(h, labels, top) && LowsLabelled(h, lows, labels, top) && AllJoined(h, lows, labels)
  }

  /** Two ordered low points at different positions differ. */
  lemma OrderedDistinct(lows: seq<(nat, nat)>, i: nat, j: nat)
    requires Ordered(lows) && i < |lows| && j < |lows| && i != j
    ensures lows[i] != lows[j]
  {
  }

  lemma BelowKept(h: Heightmap, labels: seq<seq<nat>>, top: nat, p: (nat, nat), v: nat)
    requires Shaped(h, labels) && LabelsBelow(h, labels, top) && InBounds(h, p) && v <= top
    ensures Shaped(h, SetAt(labels, p, v)) && LabelsBelow(h, SetAt(labels, p, v), top)
  {
  }

  lemma BelowRaised(h: Heightmap, labels: seq<seq<nat>>, top: nat)
    requires Shaped(h, labels) && LabelsBelow(h, labels, top)
    ensures LabelsBelow(h, labels, top + 1)
  {
  }

  /** Labelling low point k with k + 1 opens basin k + 1. */
  lemma LowStarted(h: Heightmap, lows: seq<(nat, nat)>, labels: seq<seq<nat>>, k: nat)
    requires Shaped(h, labels) && Ordered(lows) && k < |lows| && LowsLabelled(h, lows, labels, k)
    ensures Shaped(h, SetAt(labels, lows[k], k + 1)) && LowsLabelled(h, lows, SetAt(labels, lows[k], k + 1), k + 1)
  {
    var r := SetAt(labels, lows[k], k + 1);
    forall i | 0 <= i < |lows|
      ensures InBounds(h, lows[i]) && At(r, lows[i]) == if i < k + 1 then i + 1 else 0
    {
      if i != k { OrderedDistinct(lows, i, k); }
    }
  }

  /** Labelling a cell that is not a low point leaves the low points' labels alone. */
  lemma LowsKept(h: Heightmap, lows: seq<(nat, nat)>, labels: seq<seq<nat>>, top: nat, p: (nat, nat), v: nat)
    requires Shaped(h, labels) && LowsLabelled(h, lows, labels, top) && InBounds(h, p) && p !in lows
    ensures Shaped(h, SetAt(labels, p, v)) && LowsLabelled(h, lows, SetAt(labels, p, v), top)
  {
    var r := SetAt(labels, p, v);
    forall i | 0 <= i < |lows|
      ensures InBounds(h, lows[i]) && At(r, lows[i]) == if i < top then i + 1 else 0
    {
      assert lows[i] in lows;
    }
  }

  /**
   * Giving an unlabelled cell p the label v keeps every cell joined,
   * provided p itself joins basin v.
   */
  lemma JoinedKept(h: Heightmap, lows: seq<(nat, nat)>, labels: seq<seq<nat>>, p: (nat, nat), v: nat)
    requires Readable(h) && Shaped(h, labels) && AllJoined(h, lows, labels)
    requires InBounds(h, p) && At(labels, p) == 0 && 0 < v <= |lows|
    requires Joined(h, lows, SetAt(labels, p, v), p)
    ensures Shaped(h, SetAt(labels, p, v)) && AllJoined(h, lows, SetAt(labels, p, v))
  {
    var r := SetAt(labels, p, v);
    forall d: (nat, nat) | InBounds(h, d) && 0 < At(r, d) <= |lows|
      ensures Joined(h, lows, r, d)
    {
      if d != p {
        assert Joined(h, lows, labels, d);
        if d != lows[At(labels, d) - 1] {
          var e: (nat, nat) :| InBounds(h, e) && Adjacent(e, d) && At(labels, e) == At(labels, d) && Height(h, e) < Height(h, d);
          assert At(r, e) == At(r, d);
        }
      }
    }
  }

  /** A cell higher than one of its neighbours is not a low point. */
  lemma NotLow(h: Heightmap, lows: seq<(nat, nat)>, c: (nat, nat), n: (nat, nat))
    requires LowPointList(h, lows) && InBounds(h, c) && InBounds(h, n) && Adjacent(n, c)
    requires Height(h, n) > Height(h, c)
    ensures n !in lows
  {
    assert Adjacent(c, n);
  }

  /** Labelling an unlabelled cell leaves every closed cell closed. */
  lemma ClosedKept(h: Heightmap, labels: seq<seq<nat>>, p: (nat, nat), v: nat)
    requires Readable(h) && Shaped(h, labels) && InBounds(h, p) && At(labels, p) == 0 && v != 0
    ensures forall d: (nat, nat) :: InBounds(h, d) && Closed(h, labels, d) ==> Closed(h, SetAt(labels, p, v), d)
  {
    var r := SetAt(labels, p, v);
    forall d: (nat, nat) | InBounds(h, d) && Closed(h, labels, d)
      ensures Closed(h, r, d)
    {
      forall e: (nat, nat) | InBounds(h, e) && Adjacent(e, d)
        ensures !Joins(h, r, d, e)
      {
        assert !Joins(h, labels, d, e);
      }
    }
  }

  /** Every labelled cell outside `open` is closed. */
  ghost predicate ClosedBut(h: Heightmap, labels: seq<seq<nat>>, open: seq<(nat, nat)>)
    requires Readable(h) && Shaped(h, labels)
  {
    forall d: (nat, nat) :: InBounds(h, d) && At(labels, d) != 0 && d !in open ==> Closed(h, labels, d)
  }

  /** The first k basins are numbered and sized by their labels. */
  ghost predicate Sized(labels: seq<seq<nat>>, basins: seq<(nat, nat)>, k: nat)
  {
    forall i :: 0 <= i < k && i < |basins| ==> basins[i] == (i + 1, CountGrid(labels, i + 1))
  }

  /** Between basins: the first k basins are filled. */
  ghost predicate Filled(h: Heightmap, lows: seq<(nat, nat)>, labels: seq<seq<nat>>, basins: seq<(nat, nat)>, k: nat)
  {
    |basins| == k && Labelled(h, lows, labels, k) && Sized(labels, basins, k)
    && SumSizes(basins) + CountGrid(labels, 0) == Cells(labels) == h.maxX * h.maxY
  }

  /** Every cell on the stack is in the map and labelled v. */
  ghost predicate OnStack(h: Heightmap, labels: seq<seq<nat>>, stack: seq<(nat, nat)>, v: nat)
    requires Shaped(h, labels)
  {
    forall i :: 0 <= i < |stack| ==> InBounds(h, stack[i]) && At(labels, stack[i]) == v
  }

  /**
   * While basin k + 1 fills: its size so far plus the cells waiting on the
   * stack is the number of cells labelled k + 1.
   */
  ghost predicate Filling(h: Heightmap, lows: seq<(nat, nat)>, labels: seq<seq<nat>>, basins: seq<(nat, nat)>, stack: seq<(nat, nat)>, k: nat)
  {
    k < |lows| && |basins| == k + 1 && Labelled(h, lows, labels, k + 1) && Sized(labels, basins, k)
    && basins[k].0 == k + 1 && basins[k].1 + |stack| == CountGrid(labels, k + 1)
    && OnStack(h, labels, stack, k + 1)
    && SumSizes(basins) + |stack| + CountGrid(labels, 0) == Cells(labels) == h.maxX * h.maxY
  }

  /** The first j neighbours of c were offered and refused. */
  ghost predicate Refused(h: Heightmap, labels: seq<seq<nat>>, c: (nat, nat), ns: seq<(nat, nat)>, j: nat)
    requires Readable(h) && Shaped(h, labels) && InBounds(h, c)
    requires forall i :: 0 <= i < |ns| ==> InBounds(h, ns[i])
  {
    forall i :: 0 <= i < j && i < |ns| ==> !Joins(h, labels, c, ns[i])
  }

  /** While the neighbours of popped cell c are offered. */
  ghost predicate Offering(h: Heightmap, lows: seq<(nat, nat)>, labels: seq<seq<nat>>, basins: seq<(nat, nat)>,
                           stack: seq<(nat, nat)>, k: nat, c: (nat, nat), ns: seq<(nat, nat)>, j: nat)
  {
    Filling(h, lows, labels, basins, stack, k) && InBounds(h, c) && At(labels, c) == k + 1
    && ClosedBut(h, labels, stack + [c]) && ns == Neighbours(h, c.0, c.1) && j <= |ns|
    && Refused(h, labels, c, ns, j)
  }

  /** The blank label grid: nothing filled yet. */
  lemma NoneFilled(h: Heightmap, labels: seq<seq<nat>>)
    requires Readable(h) && labels == seq(h.maxY, _ => seq(h.maxX, _ => 0))
    ensures Filled(h, LowPoints(h), labels, [], 0) && ClosedBut(h, labels, [])
  {
    var lows := LowPoints(h);
    LowPointsSpec(h);
    assert Shaped(h, labels);
    assert forall p: (nat, nat) :: InBounds(h, p) ==> At(labels, p) == 0;
    forall i | 0 <= i < |lows|
      ensures InBounds(h, lows[i]) && At(labels, lows[i]) == 0
    {
      assert lows[i] in lows;
    }
    CountGridBounds(labels, 0);
    CellsOfShape(labels, h.maxX);
  }

  /** Basin k + 1 is empty while its low point is unlabelled. */
  lemma BasinEmpty(h: Heightmap, labels: seq<seq<nat>>, k: nat)
    requires Shaped(h, labels) && LabelsBelow(h, labels, k)
    ensures CountGrid(labels, k + 1) == 0
  {
    forall y, x | 0 <= y < |labels| && 0 <= x < |labels[y]|
      ensures labels[y][x] != k + 1
    {
      assert At(labels, (x, y)) <= k;
    }
    CountGridBounds(labels, k + 1);
  }

  /** Pushing low point k opens basin k + 1 with nothing counted yet. */
  lemma BeginFill(h: Heightmap, lows: seq<(nat, nat)>, labels: seq<seq<nat>>, basins: seq<(nat, nat)>, k: nat)
    requires Filled(h, lows, labels, basins, k) && ClosedBut(h, labels, []) && k < |lows|
    ensures Shaped(h, labels) && InBounds(h, lows[k])
    ensures Filling(h, lows, SetAt(labels, lows[k], k + 1), basins + [(k + 1, 0)], [lows[k]], k)
    ensures ClosedBut(h, SetAt(labels, lows[k], k + 1), [lows[k]])
  {
    var p := lows[k];
    var r := SetAt(labels, p, k + 1);
    var b := basins + [(k + 1, 0)];
    assert InBounds(h, p) && At(labels, p) == 0;
    BelowRaised(h, labels, k);
    BelowKept(h, labels, k + 1, p, k + 1);
    LowStarted(h, lows, labels, k);
    assert Joined(h, lows, r, p);
    JoinedKept(h, lows, labels, p, k + 1);
    BasinEmpty(h, labels, k);
    CountGridSet(labels, p, k + 1);
    ClosedKept(h, labels, p, k + 1);
    SizedKept(labels, basins, k, p);
    assert b[..k] == basins;
    forall i | 0 <= i < k
      ensures b[i] == (i + 1, CountGrid(r, i + 1))
    {
      assert b[i] == basins[i];
    }
  }

  /** Labelling an unlabelled cell k + 1 leaves the sizes of the first k basins alone. */
  lemma SizedKept(labels: seq<seq<nat>>, basins: seq<(nat, nat)>, k: nat, p: (nat, nat))
    requires p.1 < |labels| && p.0 < |labels[p.1]| && At(labels, p) == 0 && Sized(labels, basins, k)
    ensures Sized(SetAt(labels, p, k + 1), basins, k)
  {
    CountGridSet(labels, p, k + 1);
  }

  /** Pushing a cell labelled v keeps every stacked cell labelled v. */
  lemma StackKept(h: Heightmap, labels: seq<seq<nat>>, stack: seq<(nat, nat)>, n: (nat, nat), v: nat)
    requires Shaped(h, labels) && OnStack(h, labels, stack, v) && InBounds(h, n) && At(labels, n) == 0
    ensures Shaped(h, SetAt(labels, n, v)) && OnStack(h, SetAt(labels, n, v), stack + [n], v)
  {
    var r := SetAt(labels, n, v);
    var st := stack + [n];
    forall i | 0 <= i < |st|
      ensures InBounds(h, st[i]) && At(r, st[i]) == v
    {
      if i < |stack| {
        assert st[i] == stack[i];
      }
    }
  }

  /** An empty stack closes basin k + 1. */
  lemma EndFill(h: Heightmap, lows: seq<(nat, nat)>, labels: seq<seq<nat>>, basins: seq<(nat, nat)>, k: nat)
    requires Filling(h, lows, labels, basins, [], k)
    ensures Filled(h, lows, labels, basins, k + 1)
  {
  }

  /** Popping a cell counts it into the open basin and starts offering its neighbours. */
  lemma PopCell(h: Heightmap, lows: seq<(nat, nat)>, labels: seq<seq<nat>>, basins: seq<(nat, nat)>, stack: seq<(nat, nat)>, k: nat)
    requires Filling(h, lows, labels, basins, stack, k) && ClosedBut(h, labels, stack) && stack != []
    ensures InBounds(h, stack[|stack| - 1])
    ensures Offering(h, lows, labels, Grow(basins), stack[..|stack| - 1], k, stack[|stack| - 1],
                     Neighbours(h, stack[|stack| - 1].0, stack[|stack| - 1].1), 0)
  {
    var g := Grow(basins);
    var c := stack[|stack| - 1];
    var rest := stack[..|stack| - 1];
    assert g[..k] == basins[..k];
    forall i | 0 <= i < k
      ensures g[i] == (i + 1, CountGrid(labels, i + 1))
    {
      assert g[i] == g[..k][i];
    }
    assert rest + [c] == stack;
  }

  /** Facts the loop body reads off the offering state. */
  lemma OfferingFacts(h: Heightmap, lows: seq<(nat, nat)>, labels: seq<seq<nat>>, basins: seq<(nat, nat)>,
                      stack: seq<(nat, nat)>, k: nat, c: (nat, nat), ns: seq<(nat, nat)>, j: nat)
    requires Offering(h, lows, labels, basins, stack, k, c, ns, j) && j < |ns|
    ensures Readable(h) && Shaped(h, labels) && InBounds(h, c) && InBounds(h, ns[j])
  {
  }

  /** A refused neighbour is added to the refusals. */
  lemma Refuse(h: Heightmap, lows: seq<(nat, nat)>, labels: seq<seq<nat>>, basins: seq<(nat, nat)>,
               stack: seq<(nat, nat)>, k: nat, c: (nat, nat), ns: seq<(nat, nat)>, j: nat)
    requires Offering(h, lows, labels, basins, stack, k, c, ns, j) && j < |ns| && !Joins(h, labels, c, ns[j])
    ensures Offering(h, lows, labels, basins, stack, k, c, ns, j + 1)
  {
  }

  /** Taking in neighbour n keeps the labelling: n joins the basin through c. */
  lemma TakeLabelled(h: Heightmap, lows: seq<(nat, nat)>, labels: seq<seq<nat>>, k: nat, c: (nat, nat), n: (nat, nat))
    requires Labelled(h, lows, labels, k + 1) && InBounds(h, c) && InBounds(h, n)
    requires At(labels, c) == k + 1 && Adjacent(n, c) && Joins(h, labels, c, n)
    ensures Labelled(h, lows, SetAt(labels, n, k + 1), k + 1)
  {
    var r := SetAt(labels, n, k + 1);
    NotLow(h, lows, c, n);
    BelowKept(h, labels, k + 1, n, k + 1);
    LowsKept(h, lows, labels, k + 1, n, k + 1);
    assert Adjacent(c, n) && At(r, c) == At(r, n) && Height(h, c) < Height(h, n);
    JoinedKept(h, lows, labels, n, k + 1);
  }

  /** Taking in a neighbour pushes it labelled with the open basin. */
  lemma TakeFilling(h: Heightmap, lows: seq<(nat, nat)>, labels: seq<seq<nat>>, basins: seq<(nat, nat)>,
                    stack: seq<(nat, nat)>, k: nat, c: (nat, nat), n: (nat, nat))
    requires Filling(h, lows, labels, basins, stack, k) && InBounds(h, c) && InBounds(h, n)
    requires At(labels, c) == k + 1 && Adjacent(n, c) && Joins(h, labels, c, n)
    ensures Filling(h, lows, SetAt(labels, n, k + 1), basins, stack + [n], k)
    ensures CountGrid(SetAt(labels, n, k + 1), 0) + 1 == CountGrid(labels, 0)
  {
    var r := SetAt(labels, n, k + 1);
    TakeLabelled(h, lows, labels, k, c, n);
    CountGridSet(labels, n, k + 1);
    StackKept(h, labels, stack, n, k + 1);
    SizedKept(labels, basins, k, n);
  }

  /** The pushed cell joins the open ones; every other closed cell stays closed. */
  lemma TakeClosed(h: Heightmap, labels: seq<seq<nat>>, stack: seq<(nat, nat)>, c: (nat, nat), n: (nat, nat), v: nat)
    requires Readable(h) && Shaped(h, labels) && InBounds(h, n) && At(labels, n) == 0 && v != 0
    requires ClosedBut(h, labels, stack + [c])
    ensures ClosedBut(h, SetAt(labels, n, v), stack + [n] + [c])
  {
    ClosedKept(h, labels, n, v);
    forall d: (nat, nat) | InBounds(h, d) && At(SetAt(labels, n, v), d) != 0 && d !in stack + [n] + [c]
      ensures Closed(h, SetAt(labels, n, v), d)
    {
      assert d !in stack + [c];
    }
  }

  /** Labelling the offered neighbour keeps the earlier refusals and refuses it too. */
  lemma TakeRefused(h: Heightmap, labels: seq<seq<nat>>, c: (nat, nat), ns: seq<(nat, nat)>, j: nat, v: nat)
    requires Readable(h) && Shaped(h, labels) && InBounds(h, c) && j < |ns|
    requires forall i :: 0 <= i < |ns| ==> InBounds(h, ns[i])
    requires Refused(h, labels, c, ns, j)
    requires At(labels, ns[j]) == 0 && v != 0
    ensures Shaped(h, SetAt(labels, ns[j], v)) && Refused(h, SetAt(labels, ns[j], v), c, ns, j + 1)
  {
    var r := SetAt(labels, ns[j], v);
    forall i | 0 <= i < j + 1
      ensures !Joins(h, r, c, ns[i])
    {
      if i < j {
        assert !Joins(h, labels, c, ns[i]);
      }
    }
  }

  /** Taking in the offered neighbour: labelled, pushed, refused from now on. */
  lemma Take(h: Heightmap, lows: seq<(nat, nat)>, labels: seq<seq<nat>>, basins: seq<(nat, nat)>,
             stack: seq<(nat, nat)>, k: nat, c: (nat, nat), ns: seq<(nat, nat)>, j: nat)
    requires Offering(h, lows, labels, basins, stack, k, c, ns, j) && j < |ns| && Joins(h, labels, c, ns[j])
    ensures Offering(h, lows, SetAt(labels, ns[j], k + 1), basins, stack + [ns[j]], k, c, ns, j + 1)
    ensures CountGrid(SetAt(labels, ns[j], k + 1), 0) + 1 == CountGrid(labels, 0)
  {
    var n := ns[j];
    TakeFilling(h, lows, labels, basins, stack, k, c, n);
    TakeClosed(h, labels, stack, c, n, k + 1);
    TakeRefused(h, labels, c, ns, j, k + 1);
    assert stack + [n] + [c] == (stack + [n]) + [c];
  }

  /** Once every neighbour of c was refused, c is closed. */
  lemma CloseCell(h: Heightmap, lows: seq<(nat, nat)>, labels: seq<seq<nat>>, basins: seq<(nat, nat)>,
                  stack: seq<(nat, nat)>, k: nat, c: (nat, nat), ns: seq<(nat, nat)>)
    requires Offering(h, lows, labels, basins, stack, k, c, ns, |ns|)
    ensures Filling(h, lows, labels, basins, stack, k) && ClosedBut(h, labels, stack)
  {
    forall n: (nat, nat) | InBounds(h, n) && Adjacent(n, c)
      ensures !Joins(h, labels, c, n)
    {
      assert n in ns;
    }
    forall d: (nat, nat) | InBounds(h, d) && At(labels, d) != 0 && d !in stack
      ensures Closed(h, labels, d)
    {
      if d != c {
        assert d !in stack + [c];
      }
    }
  }

  /** When all basins are filled: the grid is fully labelled and closed, and the sizes fit the map. */
  lemma AllFilled(h: Heightmap, labels: seq<seq<nat>>, basins: seq<(nat, nat)>)
    requires Readable(h) && Filled(h, LowPoints(h), labels, basins, |LowPoints(h)|) && ClosedBut(h, labels, [])
    ensures forall c: (nat, nat) :: InBounds(h, c) && At(labels, c) != 0 ==> Closed(h, labels, c)
    ensures forall i :: 0 <= i < |basins| ==> basins[i] == (i + 1, CountGrid(labels, i + 1))
    ensures SumSizes(basins) <= h.maxX * h.maxY
    ensures forall i :: 0 <= i < |basins| ==> basins[i].1 >= 1
  {
    var lows := LowPoints(h);
    forall i | 0 <= i < |basins|
      ensures basins[i].1 >= 1
    {
      CountGridPositive(labels, lows[i], i + 1);
    }
  }

  /**
   * `basins`: for each low point, in order, a basin numbered from 1 whose
   * size counts the cells popped from its stack.  Also returns the final
   * label grid (the program's local `basin_map`).
   */
  method Basins(h: Heightmap) returns (basins: seq<(nat, nat)>, labels: seq<seq<nat>>)
    requires Readable(h)
    ensures |basins| == |LowPoints(h)|
    ensures Labelled(h, LowPoints(h), labels, |basins|)
    ensures forall i :: 0 <= i < |basins| ==> basins[i] == (i + 1, CountGrid(labels, i + 1))
    ensures forall c: (nat, nat) :: InBounds(h, c) && At(labels, c) != 0 ==> Closed(h, labels, c)
    ensures SumSizes(basins) <= h.maxX * h.maxY
    ensures forall i :: 0 <= i < |basins| ==> basins[i].1 >= 1
  {
    var lows := LowPoints(h);
    var blank: seq<nat> := seq(h.maxX, _ => 0);
    labels := seq(h.maxY, _ => blank);
    basins := [];
    NoneFilled(h, labels);
    var basinIdx := 1;
    for k := 0 to |lows|
      invariant basinIdx == k + 1
      invariant Filled(h, lows, labels, basins, k) && ClosedBut(h, labels, [])
    {
      var low := lows[k];
      BeginFill(h, lows, labels, basins, k);
      var stack := [low];
      basins := basins + [(basinIdx, 0)];
      labels := SetAt(labels, low, basinIdx);
      while stack != []
        invariant Filling(h, lows, labels, basins, stack, k) && ClosedBut(h, labels, stack)
        decreases CountGrid(labels, 0), |stack|
      {
        PopCell(h, lows, labels, basins, stack, k);
        var c := stack[|stack| - 1];
        stack := stack[..|stack| - 1];
        var value := Height(h, c);
        basins := Grow(basins);
        var ns := Neighbours(h, c.0, c.1);
        ghost var zeros, depth := CountGrid(labels, 0), |stack|;
        for j := 0 to |ns|
          invariant Offering(h, lows, labels, basins, stack, k, c, ns, j)
          invariant CountGrid(labels, 0) + |stack| == zeros + depth && CountGrid(labels, 0) <= zeros
        {
          OfferingFacts(h, lows, labels, basins, stack, k, c, ns, j);
          var n := ns[j];
          var notBasinAlready := At(labels, n) == 0;
          var formsBasin := Height(h, n) != 9 && Height(h, n) > value;
          if notBasinAlready && formsBasin {
            Take(h, lows, labels, basins, stack, k, c, ns, j);
            labels := SetAt(labels, n, basinIdx);
            stack := stack + [n];
          } else {
            Refuse(h, lows, labels, basins, stack, k, c, ns, j);
          }
        }
        CloseCell(h, lows, labels, basins, stack, k, c, ns);
      }
      EndFill(h, lows, labels, basins, k);
      basinIdx := basinIdx + 1;
    }
    AllFilled(h, labels, basins);
  }

  /** `*basin_size += 1` on the open (last) basin. */
  function Grow(basins: seq<(nat, nat)>): (r: seq<(nat, nat)>)
    requires basins != []
    ensures |r| == |basins| && r[..|r| - 1] == basins[..|basins| - 1]
    ensures r[|r| - 1] == (basins[|basins| - 1].0, basins[|basins| - 1].1 + 1)
    ensures SumSizes(r) == SumSizes(basins) + 1
  {
    var n := |basins| - 1;
    var r := basins[n := (basins[n].0, basins[n].1 + 1)];
    assert r[..n] == basins[..n];
    r
  }

  /** `digit_to_usize`. */
  function DigitToUsize(ch: char): (r: Result<nat, HeightmapError>)
    ensures r.Ok? <==> IsDigit(ch)
    ensures r.Ok? ==> r.value < 10 && ch == ('0' as int + r.value) as char
    ensures r.Err? ==> r.error == NotADigit(ch)
  {
    if '0' <= ch <= '9' then Ok(ch as int - '0' as int) else Err(NotADigit(ch))
  }

  /** A row of digits. */
  function ParseRow(line: string): (r: Result<seq<nat>, HeightmapError>)
    ensures r.Ok? <==> AllDigits(line)
    ensures r.Ok? ==> |r.value| == |line| && forall i :: 0 <= i < |line| ==> r.value[i] < 10 && r.value[i] == line[i] as int - '0' as int
    ensures r.Err? ==> r.error.NotADigit? && r.error.ch in line && !IsDigit(r.error.ch)
  {
    if line == [] then Ok([])
    else
      match ParseRow(line[..|line| - 1])
      case Err(e) => Err(e)
      case Ok(front) =>
        match DigitToUsize(line[|line| - 1])
        case Err(e) => Err(e)
        case Ok(d) => Ok(front + [d])
  }

  function ParseRows(lines: seq<string>): (r: Result<seq<seq<nat>>, HeightmapError>)
    ensures r.Ok? <==> forall k :: 0 <= k < |lines| ==> AllDigits(lines[k])
    ensures r.Ok? ==> |r.value| == |lines| && forall k :: 0 <= k < |lines| ==> |r.value[k]| == |lines[k]|
    ensures r.Ok? ==> forall k, i :: 0 <= k < |lines| && 0 <= i < |lines[k]| ==>
      r.value[k][i] == lines[k][i] as int - '0' as int
    ensures r.Err? ==> r.error.NotADigit? && exists k :: 0 <= k < |lines| && r.error.ch in lines[k] && !IsDigit(r.error.ch)
  {
    if lines == [] then Ok([])
    else
      match ParseRows(lines[..|lines| - 1])
      case Err(e) => Err(e)
      case Ok(front) =>
        match ParseRow(lines[|lines| - 1])
        case Err(e) => Err(e)
        case Ok(row) => Ok(front + [row])
  }

  /** `Heightmap::from_str`: the lines as rows of digits. */
  function ParseHeightmap(s: string): (r: Result<Heightmap, HeightmapError>)
    ensures r.Ok? <==> Lines(s) != [] && forall k :: 0 <= k < |Lines(s)| ==> AllDigits(Lines(s)[k])
    ensures r.Ok? ==> r.value.maxY == |Lines(s)| && r.value.maxX == |Lines(s)[0]|
    ensures r.Ok? ==> |r.value.data| == |Lines(s)|
    ensures r.Ok? ==> forall k :: 0 <= k < |Lines(s)| ==> |r.value.data[k]| == |Lines(s)[k]|
    ensures r.Ok? ==> forall k, i :: 0 <= k < |Lines(s)| && 0 <= i < |Lines(s)[k]| ==>
      r.value.data[k][i] == Lines(s)[k][i] as int - '0' as int
    ensures r == Err(EmptyHeightmap) <==> Lines(s) == []
  {
    match ParseRows(Lines(s))
    case Err(e) => Err(e)
    case Ok(data) => NewHeightmap(data)
  }
}
