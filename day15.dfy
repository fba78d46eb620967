/**
 * Chiton (day 15): a map of risk levels, read from a grid of digits, and the
 * five-by-five "full cave" built from it, in which every tile further right or
 * down adds one to each risk level, wrapping 9 round to 1.
 */
module Day15 {
  import opened Common
  import opened Text

  /** A cell `(x, y)`: x grows to the right, y downwards. */
  type Cell = (nat, nat)

  /** `CaveMap`: the risk levels row by row, with the width and height read from the text. */
  datatype CaveMap = CaveMap(data: seq<seq<nat>>, maxX: nat, maxY: nat)

  /** The shape parsing guarantees: `maxY` rows, at least one, of `maxX` risk levels each. */
  predicate WellFormed(m: CaveMap)
  {
    m.maxY >= 1 && |m.data| == m.maxY && forall y :: 0 <= y < |m.data| ==> |m.data[y]| == m.maxX
  }

  /** `CaveType`: the map as read, or the full cave of five by five tiles. */
  datatype CaveType = PartialCave | FullCave

  function Multiplier(t: CaveType): (k: nat)
    ensures k == if t.FullCave? then 5 else 1
  {
    match t
    case FullCave => 5
    case PartialCave => 1
  }

  // Parsing

  /** `(c as u8 - '0' as u8) as usize`: the character's low byte less 48; below '0' the subtraction underflows and panics (None). */
  function RiskOf(c: char): (r: Option<nat>)
    ensures '0' <= c <= '9' ==> r == Some(c as int - '0' as int)
    ensures c < '0' ==> r.None?
  {
    var b := (c as int) % 256;
    if b < '0' as int then None else Some(b - '0' as int)
  }

  /** The values of a line's characters, or None if one of them underflows. */
  function RowValues(line: string): (r: Option<seq<nat>>)
    ensures r.Some? <==> forall i :: 0 <= i < |line| ==> RiskOf(line[i]).Some?
    ensures r.Some? ==> |r.value| == |line| && forall i :: 0 <= i < |line| ==> r.value[i] == RiskOf(line[i]).value
  {
    if line == [] then Some([])
    else
      match RowValues(line[..|line| - 1])
      case None => None
      case Some(init) =>
        match RiskOf(line[|line| - 1])
        case None => None
        case Some(v) => Some(init + [v])
  }

  /** `maxX` cells of the placeholder risk 10 the program starts every row with. */
  function Tens(n: nat): (r: seq<nat>)
    ensures |r| == n && forall i :: 0 <= i < n ==> r[i] == 10
  {
    seq(n, _ => 10)
  }

  /**
   * One row of the map: the line's values, then 10 in every column the line
   * does not reach; None (a panic) when the line is longer than the first or
   * holds a character below '0'.
   */
  function RowOf(line: string, maxX: nat): (r: Option<seq<nat>>)
    ensures r.Some? ==> |r.value| == maxX
  {
    if |line| > maxX then None
    else
      match RowValues(line)
      case None => None
      case Some(values) => Some(values + Tens(maxX - |line|))
  }

  /** The rows of all lines, or None as soon as one of them fails. */
  function Rows(lines: seq<string>, maxX: nat): (r: Option<seq<seq<nat>>>)
    ensures r.Some? ==> |r.value| == |lines| && forall y :: 0 <= y < |lines| ==> |r.value[y]| == maxX
    ensures r.Some? <==> forall y :: 0 <= y < |lines| ==> RowOf(lines[y], maxX).Some?
    ensures r.Some? ==> forall y :: 0 <= y < |lines| ==> r.value[y] == RowOf(lines[y], maxX).value
  {
    if lines == [] then Some([])
    else
      match Rows(lines[..|lines| - 1], maxX)
      case None => None
      case Some(init) =>
        match RowOf(lines[|lines| - 1], maxX)
        case None => None
        case Some(row) => Some(init + [row])
  }

  /** The map a text describes: the width is the first line's length and the height the number of lines; None for an empty text (a panic). */
  function CaveMapOf(s: string): (r: Option<CaveMap>)
    ensures r.Some? ==> WellFormed(r.value)
    ensures Lines(s) == [] ==> r.None?
  {
    var lines := Lines(s);
    if lines == [] then None
    else
      match Rows(lines, |lines[0]|)
      case None => None
      case Some(data) => Some(CaveMap(data, |lines[0]|, |lines|))
  }

  /** `CaveMap::from_str`: a grid of 10s the size of the text, overwritten line by line. */
  method ParseCaveMap(s: string) returns (r: Option<CaveMap>)
    ensures r == CaveMapOf(s)
  {
    var lines := Lines(s);
    var maxY := |lines|;
    if lines == [] {
      return None;
    }
    var maxX := |lines[0]|;
    var caveMap: seq<seq<nat>> := seq(maxY, _ => Tens(maxX));
    for y := 0 to maxY
      invariant |caveMap| == maxY
      invariant forall j :: y <= j < maxY ==> caveMap[j] == Tens(maxX)
      invariant Rows(lines[..y], maxX) == Some(caveMap[..y])
    {
      var row := FillRow(lines[y], caveMap[y]);
      RowsSnoc(lines, y, maxX);
      if row.None? {
        RowsFail(lines, y + 1, maxX);
        return None;
      }
      caveMap := caveMap[y := row.value];
      assert caveMap[..y + 1] == caveMap[..y] + [row.value];
    }
    assert lines[..maxY] == lines && caveMap[..maxY] == caveMap;
    r := Some(CaveMap(caveMap, maxX, maxY));
  }

  /** The inner loop of parsing: each character's value written over the row's placeholder. */
  method FillRow(line: string, row: seq<nat>) returns (r: Option<seq<nat>>)
    requires row == Tens(|row|)
    ensures r == RowOf(line, |row|)
  {
    var filled := row;
    for x := 0 to |line|
      invariant |filled| == |row|
      invariant x <= |row|
      invariant RowValues(line[..x]) == Some(filled[..x])
      invariant filled[x..] == row[x..]
    {
      if x >= |row| {
        return None;
      }
      var value := RiskOf(line[x]);
      assert line[..x + 1][..x] == line[..x];
      if value.None? {
        return None;
      }
      filled := filled[x := value.value];
      assert filled[..x + 1] == filled[..x] + [value.value];
    }
    assert line[..|line|] == line;
    assert row[|line|..] == Tens(|row| - |line|);
    assert filled == filled[..|line|] + filled[|line|..];
    r := Some(filled);
  }

  /** The rows of a prefix one line longer. */
  lemma RowsSnoc(lines: seq<string>, y: nat, maxX: nat)
    requires y < |lines|
    ensures Rows(lines[..y + 1], maxX) ==
      match Rows(lines[..y], maxX)
      case None => None
      case Some(init) =>
        match RowOf(lines[y], maxX)
        case None => None
        case Some(row) => Some(init + [row])
  {
    assert lines[..y + 1][..y] == lines[..y];
  }

  /** A prefix that fails makes the whole text fail. */
  lemma RowsFail(lines: seq<string>, y: nat, maxX: nat)
    requires y <= |lines| && Rows(lines[..y], maxX).None?
    ensures Rows(lines, maxX).None?
  {
    var k :| 0 <= k < y && RowOf(lines[..y][k], maxX).None?;
    assert lines[..y][k] == lines[k];
  }

  /** A line of decimal digits no longer than the map is as wide gives the digit values, padded with 10s. */
  lemma DigitRow(line: string, maxX: nat)
    requires |line| <= maxX && forall i :: 0 <= i < |line| ==> '0' <= line[i] <= '9'
    ensures RowOf(line, maxX).Some?
    ensures forall i :: 0 <= i < maxX ==>
      RowOf(line, maxX).value[i] == if i < |line| then line[i] as int - '0' as int else 10
  {
  }

  // Neighbours

  /** Two cells side by side or one above the other. */
  predicate Adjacent(a: Cell, b: Cell)
  {
    (a.1 == b.1 && (a.0 == b.0 + 1 || b.0 == a.0 + 1)) || (a.0 == b.0 && (a.1 == b.1 + 1 || b.1 == a.1 + 1))
  }

  /** A candidate kept by the filter of `neighbours` when it lies inside a `w` by `h` cave. */
  function Keep(c: (int, int), w: nat, h: nat): (r: seq<Cell>)
  {
    if 0 <= c.0 < w && 0 <= c.1 < h then [(c.0 as nat, c.1 as nat)] else []
  }

  /** `neighbours`: left, right, up and down, each kept only inside the cave of `Multiplier(t)` tiles each way. */
  function Neighbours(m: CaveMap, x: nat, y: nat, t: CaveType): (r: seq<Cell>)
  {
    var w, h := m.maxX * Multiplier(t), m.maxY * Multiplier(t);
    Keep((x - 1, y), w, h) + Keep((x + 1, y), w, h) + Keep((x, y - 1), w, h) + Keep((x, y + 1), w, h)
  }

  /** The neighbours are exactly the adjacent cells inside the cave. */
  lemma NeighboursSpec(m: CaveMap, x: nat, y: nat, t: CaveType, c: Cell)
    ensures c in Neighbours(m, x, y, t) <==>
      c.0 < m.maxX * Multiplier(t) && c.1 < m.maxY * Multiplier(t) && Adjacent((x, y), c)
  {
  }

  /** No cell is listed twice, and there are at most four. */
  lemma NeighboursDistinct(m: CaveMap, x: nat, y: nat, t: CaveType)
    ensures |Neighbours(m, x, y, t)| <= 4
    ensures forall i, j :: 0 <= i < j < |Neighbours(m, x, y, t)| ==> Neighbours(m, x, y, t)[i] != Neighbours(m, x, y, t)[j]
  {
  }

  // Risk levels in the full cave

  /** The risk level of a cell of the full cave: the tile's own level plus its tile row and column, wrapping above 9 by taking 9 off. */
  function CostOf(m: CaveMap, x: nat, y: nat): nat
    requires WellFormed(m) && m.maxX >= 1
  {
    if x < m.maxX && y < m.maxY then m.data[y][x]
    else Wrap(TileLevel(m, x, y) + x / m.maxX + y / m.maxY)
  }

  /** The level of the cell of the first tile at the same place as (x, y) in its own tile. */
  function TileLevel(m: CaveMap, x: nat, y: nat): nat
    requires WellFormed(m) && m.maxX >= 1
  {
    m.data[y % m.maxY][x % m.maxX]
  }

  /** A raised level above 9 has 9 taken off. */
  function Wrap(sum: nat): nat
  {
    if sum > 9 then sum - 9 else sum
  }

  /** Every cell of a map of levels 1 to 9 has a level from 1 to 9, in all twenty-five tiles. */
  lemma CostInRange(m: CaveMap, x: nat, y: nat)
    requires WellFormed(m) && m.maxX >= 1 && x < 5 * m.maxX && y < 5 * m.maxY
    requires forall j, i :: 0 <= j < m.maxY && 0 <= i < m.maxX ==> 1 <= m.data[j][i] <= 9
    ensures 1 <= CostOf(m, x, y) <= 9
  {
    if x < m.maxX && y < m.maxY {
      assert 1 <= m.data[y][x] <= 9;
    } else {
      LaterTileInRange(m, x, y);
    }
  }

  lemma LaterTileInRange(m: CaveMap, x: nat, y: nat)
    requires WellFormed(m) && m.maxX >= 1 && x < 5 * m.maxX && y < 5 * m.maxY
    requires forall j, i :: 0 <= j < m.maxY && 0 <= i < m.maxX ==> 1 <= m.data[j][i] <= 9
    requires !(x < m.maxX && y < m.maxY)
    ensures 1 <= CostOf(m, x, y) <= 9
  {
    DivBelow(x, m.maxX, 5);
    DivBelow(y, m.maxY, 5);
    var j, i := y % m.maxY, x % m.maxX;
    assert j < m.maxY && i < m.maxX;
    var raw := m.data[j][i];
    assert 1 <= raw <= 9;
    Wrapped(raw, x / m.maxX, y / m.maxY);
  }

  /** A level from 1 to 9 raised by at most 4 and 4, with 9 taken off above 9, is again from 1 to 9. */
  lemma Wrapped(raw: nat, ax: nat, ay: nat)
    requires 1 <= raw <= 9 && ax <= 4 && ay <= 4
    ensures 1 <= Wrap(raw + ax + ay) <= 9
  {
  }

  /** One tile further right: each level one higher, 9 wrapping round to 1. */
  lemma CostNextTileRight(m: CaveMap, x: nat, y: nat)
    requires WellFormed(m) && m.maxX >= 1 && x + m.maxX < 5 * m.maxX && y < 5 * m.maxY
    requires forall j, i :: 0 <= j < m.maxY && 0 <= i < m.maxX ==> 1 <= m.data[j][i] <= 9
    ensures CostOf(m, x + m.maxX, y) == if CostOf(m, x, y) == 9 then 1 else CostOf(m, x, y) + 1
  {
    DivShift(x, m.maxX);
    DivBelow(x + m.maxX, m.maxX, 5);
    DivBelow(y, m.maxY, 5);
    DivSmall(x, m.maxX);
    DivSmall(y, m.maxY);
  }

  /** One tile further down: each level one higher, 9 wrapping round to 1. */
  lemma CostNextTileDown(m: CaveMap, x: nat, y: nat)
    requires WellFormed(m) && m.maxX >= 1 && x < 5 * m.maxX && y + m.maxY < 5 * m.maxY
    requires forall j, i :: 0 <= j < m.maxY && 0 <= i < m.maxX ==> 1 <= m.data[j][i] <= 9
    ensures CostOf(m, x, y + m.maxY) == if CostOf(m, x, y) == 9 then 1 else CostOf(m, x, y) + 1
  {
    DivShift(y, m.maxY);
    DivBelow(x, m.maxX, 5);
    DivBelow(y + m.maxY, m.maxY, 5);
    DivSmall(x, m.maxX);
    DivSmall(y, m.maxY);
  }

  // Integer division facts, from the uniqueness of quotient and remainder

  /** n * d is at least n when d >= 1 and at most -n when d <= -1. */
  lemma {:induction false} MulSign(n: nat, d: int)
    ensures d >= 1 ==> n * d >= n
    ensures d <= -1 ==> n * d + n <= 0
    decreases if d >= 0 then d else -d
  {
    if d > 1 {
      MulSign(n, d - 1);
      assert n * d == n * (d - 1) + n;
    } else if d < -1 {
      MulSign(n, d + 1);
      assert n * d == n * (d + 1) - n;
    }
  }

  /** Quotient and remainder are the only pair with x == n * q + r and 0 <= r < n. */
  lemma DivUnique(x: nat, n: nat, q: nat, r: nat)
    requires n >= 1 && r < n && x == n * q + r
    ensures x / n == q && x % n == r
  {
    var q0, r0 := x / n, x % n;
    assert n * (q - q0) == r0 - r;
    MulSign(n, q - q0);
  }

  /** x < n * k makes x / n < k. */
  lemma DivBelow(x: nat, n: nat, k: nat)
    requires n >= 1 && x < n * k
    ensures x / n < k
  {
    var q := x / n;
    assert n * q - n * k == n * (q - k);
    MulSign(n, q - k);
  }

  /** Below n the quotient is 0 and the remainder the number itself. */
  lemma DivSmall(x: nat, n: nat)
    requires n >= 1
    ensures x < n ==> x / n == 0 && x % n == x
  {
    if x < n {
      DivUnique(x, n, 0, x);
    }
  }

  /** Adding n moves one step in the quotient and leaves the remainder. */
  lemma DivShift(x: nat, n: nat)
    requires n >= 1
    ensures (x + n) / n == x / n + 1 && (x + n) % n == x % n
  {
    var q, r := x / n, x % n;
    assert x + n == n * (q + 1) + r;
    DivUnique(x + n, n, q + 1, r);
  }

  /**
   * `cost_of` as the program writes it: outside the first tile the column is
   * taken modulo the HEIGHT; None where that column is past the end of the
   * row (an index panic).
   */
  function CostOfAsWritten(m: CaveMap, x: nat, y: nat): (r: Option<nat>)
    requires WellFormed(m) && m.maxX >= 1
  {
    if x < m.maxX && y < m.maxY then Some(m.data[y][x])
    else if x % m.maxY >= m.maxX then None
    else
      var raw := m.data[y % m.maxY][x % m.maxY];
      Some(Wrap(raw + x / m.maxX + y / m.maxY))
  }

  /** On a square map the written `cost_of` is the intended one. */
  lemma SquareAgrees(m: CaveMap, x: nat, y: nat)
    requires WellFormed(m) && m.maxX >= 1 && m.maxX == m.maxY
    ensures CostOfAsWritten(m, x, y) == Some(CostOf(m, x, y))
  {
  }

  /** On a map one row high and two columns wide, the written `cost_of` reads the wrong column in the second tile. */
  lemma WrongColumn()
    ensures var m := CaveMap([[1, 2]], 2, 1);
      WellFormed(m) && CostOfAsWritten(m, 3, 0) == Some(2) && CostOf(m, 3, 0) == 3
  {
  }
}
