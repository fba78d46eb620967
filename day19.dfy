/**
 * Beacon scanner (day 19): scanners report beacons in their own frame; the
 * program places every scanner in the frame of scanner 0 by matching the
 * sets of Manhattan distances between beacons, then trying the 24
 * orientations for one in which at least twelve beacons coincide.
 */
module Day19 {
  import opened Common
  import opened Text

  /** `na::Point3<i64>`: a position, or the difference of two. */
  datatype Point = Point(x: int, y: int, z: int)

  /** `na::Matrix3<i64>`, row by row. */
  datatype Matrix = Matrix(r0: Point, r1: Point, r2: Point)

  const ORIGIN := Point(0, 0, 0)

  function Plus(p: Point, q: Point): Point
  {
    Point(p.x + q.x, p.y + q.y, p.z + q.z)
  }

  function Minus(p: Point, q: Point): Point
  {
    Point(p.x - q.x, p.y - q.y, p.z - q.z)
  }

  function Neg(p: Point): Point
  {
    Point(-p.x, -p.y, -p.z)
  }

  function Dot(r: Point, p: Point): int
  {
    r.x * p.x + r.y * p.y + r.z * p.z
  }

  /** `matrix * point`. */
  function Times(m: Matrix, p: Point): Point
  {
    Point(Dot(m.r0, p), Dot(m.r1, p), Dot(m.r2, p))
  }

  function Abs(v: int): nat
  {
    if v < 0 then -v else v
  }

  /** `p.abs().sum()`: the Manhattan length. */
  function Manhattan(p: Point): nat
  {
    Abs(p.x) + Abs(p.y) + Abs(p.z)
  }

  /** `(p - q).abs().sum()`. */
  function Distance(p: Point, q: Point): nat
  {
    Manhattan(Minus(p, q))
  }

  // The orientations

  const ROTATIONS: seq<Matrix> := [
    Matrix(Point(1, 0, 0), Point(0, 1, 0), Point(0, 0, 1)),
    Matrix(Point(1, 0, 0), Point(0, 0, -1), Point(0, 1, 0)),
    Matrix(Point(1, 0, 0), Point(0, -1, 0), Point(0, 0, -1)),
    Matrix(Point(1, 0, 0), Point(0, 0, 1), Point(0, -1, 0)),
    Matrix(Point(0, -1, 0), Point(1, 0, 0), Point(0, 0, 1)),
    Matrix(Point(0, 0, 1), Point(1, 0, 0), Point(0, 1, 0)),
    Matrix(Point(0, 1, 0), Point(1, 0, 0), Point(0, 0, -1)),
    Matrix(Point(0, 0, -1), Point(1, 0, 0), Point(0, -1, 0)),
    Matrix(Point(-1, 0, 0), Point(0, -1, 0), Point(0, 0, 1)),
    Matrix(Point(-1, 0, 0), Point(0, 0, -1), Point(0, -1, 0)),
    Matrix(Point(-1, 0, 0), Point(0, 1, 0), Point(0, 0, -1)),
    Matrix(Point(-1, 0, 0), Point(0, 0, 1), Point(0, 1, 0)),
    Matrix(Point(0, 1, 0), Point(-1, 0, 0), Point(0, 0, 1)),
    Matrix(Point(0, 0, 1), Point(-1, 0, 0), Point(0, -1, 0)),
    Matrix(Point(0, -1, 0), Point(-1, 0, 0), Point(0, 0, -1)),
    Matrix(Point(0, 0, -1), Point(-1, 0, 0), Point(0, 1, 0)),
    Matrix(Point(0, 0, -1), Point(0, 1, 0), Point(1, 0, 0)),
    Matrix(Point(0, 1, 0), Point(0, 0, 1), Point(1, 0, 0)),
    Matrix(Point(0, 0, 1), Point(0, -1, 0), Point(1, 0, 0)),
    Matrix(Point(0, -1, 0), Point(0, 0, -1), Point(1, 0, 0)),
    Matrix(Point(0, 0, -1), Point(0, -1, 0), Point(-1, 0, 0)),
    Matrix(Point(0, -1, 0), Point(0, 0, 1), Point(-1, 0, 0)),
    Matrix(Point(0, 0, 1), Point(0, 1, 0), Point(-1, 0, 0)),
    Matrix(Point(0, 1, 0), Point(0, 0, -1), Point(-1, 0, 0))]

  /** A row with a single non-zero entry, 1 or -1. */
  predicate UnitRow(r: Point)
  {
    (Abs(r.x) == 1 && r.y == 0 && r.z == 0)
    || (r.x == 0 && Abs(r.y) == 1 && r.z == 0)
    || (r.x == 0 && r.y == 0 && Abs(r.z) == 1)
  }

  /** The axis a unit row picks: 0 for x, 1 for y, 2 for z. */
  function Axis(r: Point): nat
  {
    if r.x != 0 then 0 else if r.y != 0 then 1 else 2
  }

  function Component(p: Point, axis: nat): int
  {
    if axis == 0 then p.x else if axis == 1 then p.y else p.z
  }

  /** A signed permutation matrix: each row picks a different axis, with sign 1 or -1. */
  predicate SignedPermutation(m: Matrix)
  {
    UnitRow(m.r0) && UnitRow(m.r1) && UnitRow(m.r2)
    && Axis(m.r0) != Axis(m.r1) && Axis(m.r0) != Axis(m.r2) && Axis(m.r1) != Axis(m.r2)
  }

  function Determinant(m: Matrix): int
  {
    m.r0.x * (m.r1.y * m.r2.z - m.r1.z * m.r2.y)
    - m.r0.y * (m.r1.x * m.r2.z - m.r1.z * m.r2.x)
    + m.r0.z * (m.r1.x * m.r2.y - m.r1.y * m.r2.x)
  }

  /** A rotation of the grid: a signed permutation that keeps handedness. */
  predicate Rotation(m: Matrix)
  {
    SignedPermutation(m) && Determinant(m) == 1
  }

  /** Every entry of `ROTATIONS` is a rotation of the grid. */
  lemma RotationsAreRotations(i: nat)
    requires i < |ROTATIONS|
    ensures Rotation(ROTATIONS[i])
  {
    var m := ROTATIONS[i];
    assert SignedPermutation(m);
    assert Determinant(m) == 1;
  }

  /** The 24 entries of `ROTATIONS` are different from each other. */
  lemma RotationsDistinct(i: nat, j: nat)
    requires i < j < |ROTATIONS|
    ensures ROTATIONS[i] != ROTATIONS[j]
  {
  }

  /** Every rotation of the grid is in `ROTATIONS`: the program tries all 24 orientations. */
  lemma RotationsComplete(m: Matrix)
    requires Rotation(m)
    ensures m in ROTATIONS
  {
  }

  /** A unit row reads one coordinate of a point, up to its sign. */
  lemma DotUnitRow(r: Point, p: Point)
    requires UnitRow(r)
    ensures Abs(Dot(r, p)) == Abs(Component(p, Axis(r)))
  {
    if r.x != 0 {
      assert Dot(r, p) == r.x * p.x;
    } else if r.y != 0 {
      assert Dot(r, p) == r.y * p.y;
    } else {
      assert Dot(r, p) == r.z * p.z;
    }
  }

  /** A signed permutation keeps the Manhattan length of every point. */
  lemma {:induction false} TimesKeepsLength(m: Matrix, p: Point)
    requires SignedPermutation(m)
    ensures Manhattan(Times(m, p)) == Manhattan(p)
  {
    DotUnitRow(m.r0, p);
    DotUnitRow(m.r1, p);
    DotUnitRow(m.r2, p);
  }

  /** A row of a matrix distributes over a difference. */
  lemma DotMinus(r: Point, p: Point, q: Point)
    ensures Dot(r, Minus(p, q)) == Dot(r, p) - Dot(r, q)
  {
    assert r.x * (p.x - q.x) == r.x * p.x - r.x * q.x;
    assert r.y * (p.y - q.y) == r.y * p.y - r.y * q.y;
    assert r.z * (p.z - q.z) == r.z * p.z - r.z * q.z;
  }

  /** `matrix * (p - q) == matrix * p - matrix * q`. */
  lemma TimesMinus(m: Matrix, p: Point, q: Point)
    ensures Times(m, Minus(p, q)) == Minus(Times(m, p), Times(m, q))
  {
    DotMinus(m.r0, p, q);
    DotMinus(m.r1, p, q);
    DotMinus(m.r2, p, q);
  }

  /** The point cloud of a scanner moved into another frame: `matrix * p + translation` for each beacon. */
  function Image(m: Matrix, t: Point, beacons: set<Point>): set<Point>
  {
    set p | p in beacons :: Plus(Times(m, p), t)
  }

  /** A rotation and a translation keep the distance between any two beacons. */
  lemma {:induction false} MoveKeepsDistance(m: Matrix, t: Point, p: Point, q: Point)
    requires SignedPermutation(m)
    ensures Distance(Plus(Times(m, p), t), Plus(Times(m, q), t)) == Distance(p, q)
  {
    TimesMinus(m, p, q);
    assert Minus(Plus(Times(m, p), t), Plus(Times(m, q), t)) == Times(m, Minus(p, q));
    TimesKeepsLength(m, Minus(p, q));
  }

  /** A signed permutation moves different points to different points. */
  lemma {:induction false} TimesInjective(m: Matrix, p: Point, q: Point)
    requires SignedPermutation(m) && p != q
    ensures Times(m, p) != Times(m, q)
  {
    TimesMinus(m, p, q);
    TimesKeepsLength(m, Minus(p, q));
  }

  // Distance fingerprints

  /** The Manhattan distances from one beacon to every beacon of its cloud, itself included. */
  function DistancesFrom(cloud: set<Point>, b: Point): set<int>
  {
    set b2 | b2 in cloud :: Distance(b, b2) as int
  }

  /** What `point_cloud_distances` builds: each beacon's set of distances. */
  function CloudDistances(cloud: set<Point>): map<Point, set<int>>
  {
    map b | b in cloud :: DistancesFrom(cloud, b)
  }

  /** Every beacon's fingerprint holds 0, its distance to itself. */
  lemma ZeroInFingerprint(cloud: set<Point>, b: Point)
    requires b in cloud
    ensures b in CloudDistances(cloud) && 0 in CloudDistances(cloud)[b]
  {
    assert Minus(b, b) == ORIGIN;
    var own := DistancesFrom(cloud, b);
    assert Distance(b, b) as int in own;
    assert CloudDistances(cloud)[b] == own;
  }

  /** A distance seen from one beacon is seen from the other end as well. */
  lemma {:induction false} FingerprintSymmetric(cloud: set<Point>, b: Point, b2: Point)
    requires b in cloud && b2 in cloud
    ensures Distance(b, b2) as int in CloudDistances(cloud)[b]
    ensures Distance(b, b2) as int in CloudDistances(cloud)[b2]
  {
    assert Minus(b2, b) == Neg(Minus(b, b2));
    assert Distance(b2, b) == Distance(b, b2);
  }

  /**
   * Moving a scanner's cloud by a rotation and a translation keeps every
   * beacon's fingerprint: this is why `find_match` can compare fingerprints
   * of clouds in different frames.
   */
  lemma {:induction false} MoveKeepsFingerprint(m: Matrix, t: Point, cloud: set<Point>, b: Point)
    requires SignedPermutation(m) && b in cloud
    ensures Plus(Times(m, b), t) in CloudDistances(Image(m, t, cloud))
    ensures CloudDistances(Image(m, t, cloud))[Plus(Times(m, b), t)] == CloudDistances(cloud)[b]
  {
    var moved := Image(m, t, cloud);
    var mb := Plus(Times(m, b), t);
    assert mb in moved;
    forall d | d in DistancesFrom(moved, mb)
      ensures d in DistancesFrom(cloud, b)
    {
      var q :| q in cloud && d == Distance(mb, Plus(Times(m, q), t)) as int;
      MoveKeepsDistance(m, t, b, q);
    }
    forall d | d in DistancesFrom(cloud, b)
      ensures d in DistancesFrom(moved, mb)
    {
      var q :| q in cloud && d == Distance(b, q) as int;
      MoveKeepsDistance(m, t, b, q);
      assert Plus(Times(m, q), t) in moved;
    }
  }

  /** `point_cloud_distances`: each beacon's fingerprint, built by two loops over the cloud. */
  method PointCloudDistances(cloud: set<Point>) returns (result: map<Point, set<int>>)
    ensures result == CloudDistances(cloud)
  {
    result := map[];
    var rest := cloud;
    while rest != {}
      invariant rest <= cloud
      invariant result == map b | b in cloud - rest :: DistancesFrom(cloud, b)
      decreases |rest|
    {
      var beacon :| beacon in rest;
      var distances := BeaconDistances(cloud, beacon);
      assert cloud - (rest - {beacon}) == (cloud - rest) + {beacon};
      result := result[beacon := distances];
      rest := rest - {beacon};
    }
    assert cloud - rest == cloud;
  }

  /** The inner loop of `point_cloud_distances`: one beacon's distances to the whole cloud. */
  method BeaconDistances(cloud: set<Point>, beacon: Point) returns (distances: set<int>)
    ensures distances == DistancesFrom(cloud, beacon)
  {
    distances := {};
    var others := cloud;
    while others != {}
      invariant others <= cloud
      invariant distances == DistancesFrom(cloud - others, beacon)
      decreases |others|
    {
      var beacon2 :| beacon2 in others;
      DistancesFromGrows(cloud - others, beacon, beacon2);
      distances := distances + {Distance(beacon, beacon2) as int};
      assert cloud - (others - {beacon2}) == (cloud - others) + {beacon2};
      others := others - {beacon2};
    }
    assert cloud - others == cloud;
  }

  lemma DistancesFromGrows(done: set<Point>, b: Point, b2: Point)
    ensures DistancesFrom(done + {b2}, b) == DistancesFrom(done, b) + {Distance(b, b2) as int}
  {
  }

  /** Two beacons, one per map, whose fingerprints share at least twelve distances. */
  predicate Shares(origin: map<Point, set<int>>, unknown: map<Point, set<int>>, p: Point, q: Point)
  {
    p in origin && q in unknown && |origin[p] * unknown[q]| >= 12
  }

  /**
   * `find_match`: the first pair, in the maps' iteration order (which is
   * left open here), whose fingerprints share at least twelve distances.
   */
  method FindMatch(origin: map<Point, set<int>>, unknown: map<Point, set<int>>)
    returns (r: Option<(Point, Point)>)
    ensures r.Some? ==> Shares(origin, unknown, r.value.0, r.value.1)
    ensures r.None? ==> forall p, q :: !Shares(origin, unknown, p, q)
  {
    var outer := origin.Keys;
    while outer != {}
      invariant outer <= origin.Keys
      invariant forall p, q :: p !in outer ==> !Shares(origin, unknown, p, q)
      decreases |outer|
    {
      var p :| p in outer;
      var inner := unknown.Keys;
      while inner != {}
        invariant inner <= unknown.Keys
        invariant forall q :: q !in inner ==> !Shares(origin, unknown, p, q)
        decreases |inner|
      {
        var q :| q in inner;
        if |origin[p] * unknown[q]| >= 12 {
          return Some((p, q));
        }
        inner := inner - {q};
      }
      outer := outer - {p};
    }
    return None;
  }

  // Orientation

  /** The translation that takes the rotated unknown beacon onto the known one. */
  function Translation(m: Matrix, known: Point, unknown: Point): Point
  {
    Minus(known, Times(m, unknown))
  }

  /** Orientation `i` puts at least twelve of the scanner's beacons on known beacons. */
  predicate Fits(beacons: set<Point>, anchor: Point, beacon: Point, known: set<Point>, i: nat)
    requires i < |ROTATIONS|
  {
    |Image(ROTATIONS[i], Translation(ROTATIONS[i], anchor, beacon), beacons) * known| >= 12
  }

  /** The first orientation from `k` on that fits, as the `for matrix in ROTATIONS` loop finds it. */
  function FirstFit(beacons: set<Point>, anchor: Point, beacon: Point, known: set<Point>, k: nat): (r: Option<nat>)
    requires k <= |ROTATIONS|
    ensures r.Some? ==> k <= r.value < |ROTATIONS| && Fits(beacons, anchor, beacon, known, r.value)
    ensures r.Some? ==> forall j | k <= j < r.value :: !Fits(beacons, anchor, beacon, known, j)
    ensures r.None? ==> forall j | k <= j < |ROTATIONS| :: !Fits(beacons, anchor, beacon, known, j)
    decreases |ROTATIONS| - k
  {
    if k == |ROTATIONS| then None
    else if Fits(beacons, anchor, beacon, known, k) then Some(k)
    else FirstFit(beacons, anchor, beacon, known, k + 1)
  }

  /**
   * The rotation loop of `scanner_positions`: the first orientation that
   * fits, with its translation and the moved beacons.
   */
  method Orient(beacons: set<Point>, anchor: Point, beacon: Point, known: set<Point>)
    returns (r: Option<(Matrix, Point, set<Point>)>)
    ensures r.None? <==> FirstFit(beacons, anchor, beacon, known, 0).None?
    ensures r.Some? ==> var i := FirstFit(beacons, anchor, beacon, known, 0).value;
      r.value == (ROTATIONS[i], Translation(ROTATIONS[i], anchor, beacon),
                  Image(ROTATIONS[i], Translation(ROTATIONS[i], anchor, beacon), beacons))
  {
    for i := 0 to |ROTATIONS|
      invariant FirstFit(beacons, anchor, beacon, known, 0) == FirstFit(beacons, anchor, beacon, known, i)
    {
      var matrix := ROTATIONS[i];
      var rotated := Times(matrix, beacon);
      var translation := Minus(anchor, rotated);
      var translated := set p | p in beacons :: Plus(Times(matrix, p), translation);
      if |translated * known| >= 12 {
        return Some((matrix, translation, translated));
      }
    }
    return None;
  }

  // Placing the scanners

  /** A scanner: its id from the header and its beacons in its own frame. */
  datatype Scanner = Scanner(beacons: set<Point>, id: nat)

  /**
   * How one scanner was placed: its index, the rotation and translation that
   * move its beacons into the frame of scanner 0, and the known beacon
   * (`anchor`) and scanner beacon (`beacon`) that `find_match` paired.
   */
  datatype Placement = Placement(index: nat, rotation: Matrix, translation: Point, anchor: Point, beacon: Point)

  predicate Indexed(scanners: seq<Scanner>, ps: seq<Placement>)
  {
    forall k | 0 <= k < |ps| :: ps[k].index < |scanners|
  }

  /** The beacons of a placed scanner, in the frame of scanner 0. */
  function Moved(scanners: seq<Scanner>, p: Placement): set<Point>
    requires p.index < |scanners|
  {
    Image(p.rotation, p.translation, scanners[p.index].beacons)
  }

  /** The known cloud after the placements `ps`: scanner 0's beacons and every placed scanner's moved beacons. */
  function Known(scanners: seq<Scanner>, ps: seq<Placement>): set<Point>
    requires scanners != [] && Indexed(scanners, ps)
    decreases |ps|
  {
    if ps == [] then scanners[0].beacons
    else Known(scanners, ps[..|ps| - 1]) + Moved(scanners, ps[|ps| - 1])
  }

  /** The origins recorded for the placements `ps`: (0,0,0) for scanner 0, then `-translation` for each. */
  function Origins(ps: seq<Placement>): seq<Point>
    decreases |ps|
  {
    if ps == [] then [ORIGIN] else Origins(ps[..|ps| - 1]) + [Neg(ps[|ps| - 1].translation)]
  }

  /** The ids recorded for the placements `ps`: scanner 0's, then each placed scanner's. */
  function Ids(scanners: seq<Scanner>, ps: seq<Placement>): seq<nat>
    requires scanners != [] && Indexed(scanners, ps)
    decreases |ps|
  {
    if ps == [] then [scanners[0].id] else Ids(scanners, ps[..|ps| - 1]) + [scanners[ps[|ps| - 1].index].id]
  }

  /**
   * What the program checks before accepting placement `p` while `known` is
   * the known cloud: `p` uses one of the 24 rotations, its translation takes
   * the paired scanner beacon onto the paired known beacon, and at least
   * twelve moved beacons are already known.
   */
  predicate Accepted(scanners: seq<Scanner>, p: Placement, known: set<Point>)
  {
    && p.index < |scanners|
    && p.rotation in ROTATIONS
    && p.anchor in known
    && p.beacon in scanners[p.index].beacons
    && p.translation == Translation(p.rotation, p.anchor, p.beacon)
    && |Moved(scanners, p) * known| >= 12
  }

  /** Each placement in `ps` was accepted against the cloud known just before it. */
  predicate Placed(scanners: seq<Scanner>, ps: seq<Placement>)
    requires scanners != [] && Indexed(scanners, ps)
    decreases |ps|
  {
    ps == [] || (Placed(scanners, ps[..|ps| - 1]) && Accepted(scanners, ps[|ps| - 1], Known(scanners, ps[..|ps| - 1])))
  }

  predicate Distinct(ids: seq<nat>)
  {
    forall i, j | 0 <= i < j < |ids| :: ids[i] != ids[j]
  }

  /** The state of `scanner_positions` between steps: `origins`, `ids` and `known_cloud` record the placements `ps`. */
  predicate Records(scanners: seq<Scanner>, origins: seq<Point>, ids: seq<nat>, known: set<Point>, ps: seq<Placement>)
  {
    && scanners != []
    && Indexed(scanners, ps)
    && Placed(scanners, ps)
    && origins == Origins(ps)
    && ids == Ids(scanners, ps)
    && known == Known(scanners, ps)
    && Distinct(ids)
  }

  lemma {:induction false} OriginsLength(ps: seq<Placement>)
    ensures |Origins(ps)| == |ps| + 1
    decreases |ps|
  {
    if ps != [] {
      OriginsLength(ps[..|ps| - 1]);
    }
  }

  /**
   * One step of the `for unknown in scanners.iter()` loop: skip a scanner
   * whose id is recorded; otherwise pair two beacons by fingerprint and, if
   * an orientation fits, record the scanner.
   */
  method Visit(scanners: seq<Scanner>, i: nat, fingerprints: map<Point, set<int>>, ghost start: set<Point>,
               origins: seq<Point>, ids: seq<nat>, known: set<Point>, ghost ps: seq<Placement>)
    returns (origins': seq<Point>, ids': seq<nat>, known': set<Point>, ghost ps': seq<Placement>)
    requires i < |scanners| && Records(scanners, origins, ids, known, ps)
    requires fingerprints == CloudDistances(start) && start <= known
    ensures Records(scanners, origins', ids', known', ps') && known <= known'
    ensures ps' == ps || (|ps'| == |ps| + 1 && ps'[..|ps|] == ps && ps'[|ps|].index == i)
  {
    origins', ids', known', ps' := origins, ids, known, ps;
    var unknown := scanners[i];
    if unknown.id in ids {
      return;
    }
    var distances := PointCloudDistances(unknown.beacons);
    var paired := FindMatch(fingerprints, distances);
    if paired.Some? {
      var (anchor, beacon) := paired.value;
      var oriented := Orient(unknown.beacons, anchor, beacon, known);
      if oriented.Some? {
        var (matrix, translation, translated) := oriented.value;
        ghost var p := Placement(i, matrix, translation, anchor, beacon);
        OrientAccepted(scanners, p, known);
        RecordsExtend(scanners, origins, ids, known, ps, p);
        known' := known + translated;
        origins' := origins + [Neg(translation)];
        ids' := ids + [unknown.id];
        ps' := ps + [p];
        assert ps'[..|ps|] == ps;
      }
    }
  }

  /** The orientation the rotation loop finds makes an accepted placement. */
  lemma OrientAccepted(scanners: seq<Scanner>, p: Placement, known: set<Point>)
    requires p.index < |scanners| && p.anchor in known && p.beacon in scanners[p.index].beacons
    requires FirstFit(scanners[p.index].beacons, p.anchor, p.beacon, known, 0).Some?
    requires var i := FirstFit(scanners[p.index].beacons, p.anchor, p.beacon, known, 0).value;
      p.rotation == ROTATIONS[i] && p.translation == Translation(ROTATIONS[i], p.anchor, p.beacon)
    ensures Accepted(scanners, p, known)
  {
  }

  /** Recording an accepted placement of a scanner whose id is new keeps the records. */
  lemma RecordsExtend(scanners: seq<Scanner>, origins: seq<Point>, ids: seq<nat>, known: set<Point>,
                      ps: seq<Placement>, p: Placement)
    requires Records(scanners, origins, ids, known, ps)
    requires Accepted(scanners, p, known) && scanners[p.index].id !in ids
    ensures Records(scanners, origins + [Neg(p.translation)], ids + [scanners[p.index].id],
                    known + Moved(scanners, p), ps + [p])
  {
    var ps' := ps + [p];
    assert ps'[..|ps|] == ps;
    assert Indexed(scanners, ps');
    assert Distinct(ids + [scanners[p.index].id]);
  }

  /**
   * One round of the `while` loop of `scanner_positions`: fingerprint the
   * known cloud once, then visit every scanner in order.
   */
  method Round(scanners: seq<Scanner>, origins: seq<Point>, ids: seq<nat>, known: set<Point>, ghost ps: seq<Placement>)
    returns (origins': seq<Point>, ids': seq<nat>, known': set<Point>, ghost ps': seq<Placement>)
    requires Records(scanners, origins, ids, known, ps)
    ensures Records(scanners, origins', ids', known', ps') && known <= known'
    ensures |ps| <= |ps'| && ps'[..|ps|] == ps
  {
    var fingerprints := PointCloudDistances(known);
    origins', ids', known', ps' := origins, ids, known, ps;
    for i := 0 to |scanners|
      invariant Records(scanners, origins', ids', known', ps') && known <= known'
      invariant |ps| <= |ps'| && ps'[..|ps|] == ps
    {
      ghost var before := ps';
      origins', ids', known', ps' := Visit(scanners, i, fingerprints, known, origins', ids', known', ps');
      assert ps'[..|ps|] == before[..|ps|];
    }
  }

  /**
   * `scanner_positions`, with at most `fuel` rounds of its `while` loop: the
   * origins and the known cloud once as many origins as scanners are
   * recorded, or None when the rounds run out first.
   */
  method ScannerPositions(scanners: seq<Scanner>, fuel: nat)
    returns (r: Option<(seq<Point>, set<Point>)>, ghost ps: seq<Placement>)
    requires scanners != []
    ensures Indexed(scanners, ps) && Placed(scanners, ps) && Distinct(Ids(scanners, ps))
    ensures r.Some? ==> |ps| + 1 >= |scanners|
    ensures r.Some? ==> r.value == (Origins(ps), Known(scanners, ps))
  {
    var origins := [ORIGIN];
    var ids := [scanners[0].id];
    var known := scanners[0].beacons;
    ps := [];
    var rounds := fuel;
    assert Origins(ps) == origins && Ids(scanners, ps) == ids && Known(scanners, ps) == known;
    while |origins| < |scanners|
      invariant Records(scanners, origins, ids, known, ps)
      decreases rounds
    {
      if rounds == 0 {
        return None, ps;
      }
      origins, ids, known, ps := Round(scanners, origins, ids, known, ps);
      rounds := rounds - 1;
    }
    OriginsLength(ps);
    return Some((origins, known)), ps;
  }

  /** The known cloud only grows: the cloud after a prefix of the placements is part of the final one. */
  lemma {:induction false} KnownOnlyGrows(scanners: seq<Scanner>, ps: seq<Placement>, k: nat)
    requires scanners != [] && Indexed(scanners, ps) && k <= |ps|
    ensures Known(scanners, ps[..k]) <= Known(scanners, ps)
    decreases |ps|
  {
    if k < |ps| {
      var front := ps[..|ps| - 1];
      assert front[..k] == ps[..k];
      KnownOnlyGrows(scanners, front, k);
    } else {
      assert ps[..k] == ps;
    }
  }

  /** Scanner 0's beacons and the moved beacons of every placed scanner are in the known cloud. */
  lemma {:induction false} PlacedBeaconsKnown(scanners: seq<Scanner>, ps: seq<Placement>, k: nat)
    requires scanners != [] && Indexed(scanners, ps) && k < |ps|
    ensures scanners[0].beacons <= Known(scanners, ps)
    ensures Moved(scanners, ps[k]) <= Known(scanners, ps)
  {
    KnownOnlyGrows(scanners, ps, 0);
    assert ps[..0] == [];
    KnownOnlyGrows(scanners, ps, k + 1);
    var upto := ps[..k + 1];
    assert upto[..k] == ps[..k] && upto[k] == ps[k];
  }

  /** The recorded origin of a placed scanner is the mirror image of its position in the frame of scanner 0. */
  lemma {:induction false} OriginMirrorsPosition(ps: seq<Placement>, k: nat)
    requires k < |ps|
    ensures |Origins(ps)| == |ps| + 1
    ensures Origins(ps)[k + 1] == Neg(Plus(Times(ps[k].rotation, ORIGIN), ps[k].translation))
    decreases |ps|
  {
    OriginsLength(ps);
    var front := ps[..|ps| - 1];
    if k < |front| {
      OriginMirrorsPosition(front, k);
    } else {
      OriginsLength(front);
    }
  }

  /** Mirroring every origin keeps their pairwise distances, so the largest distance between scanners is unaffected. */
  lemma MirrorKeepsDistance(p: Point, q: Point)
    ensures Distance(Neg(p), Neg(q)) == Distance(p, q)
  {
  }

  /** The distances from `p` to the first `j` origins, in order. */
  function Row(origins: seq<Point>, p: Point, j: nat): (r: seq<nat>)
    requires j <= |origins|
    ensures |r| == j
    decreases j
  {
    if j == 0 then [] else Row(origins, p, j - 1) + [Distance(p, origins[j - 1])]
  }

  /** The distances `main` collects for the first `i` origins: each with every origin, in order. */
  function Rows(origins: seq<Point>, i: nat): (r: seq<nat>)
    requires i <= |origins|
    decreases i
  {
    if i == 0 then [] else Rows(origins, i - 1) + Row(origins, origins[i - 1], |origins|)
  }

  /** The distance from `p` to each of the first `j` origins is in the row. */
  lemma {:induction false} RowHasPair(origins: seq<Point>, p: Point, j: nat, b: nat)
    requires b < j <= |origins|
    ensures Distance(p, origins[b]) in Row(origins, p, j)
    decreases j
  {
    if b < j - 1 {
      RowHasPair(origins, p, j - 1, b);
    }
  }

  /** Every distance in the row is the distance from `p` to one of the first `j` origins. */
  lemma {:induction false} RowPair(origins: seq<Point>, p: Point, j: nat, x: nat) returns (b: nat)
    requires j <= |origins| && x in Row(origins, p, j)
    ensures b < j && x == Distance(p, origins[b])
    decreases j
  {
    if x in Row(origins, p, j - 1) {
      b := RowPair(origins, p, j - 1, x);
    } else {
      b := j - 1;
    }
  }

  /** The distance of every pair whose first origin is among the first `i` is collected. */
  lemma {:induction false} RowsHavePair(origins: seq<Point>, i: nat, a: nat, b: nat)
    requires a < i <= |origins| && b < |origins|
    ensures Distance(origins[a], origins[b]) in Rows(origins, i)
    decreases i
  {
    if a < i - 1 {
      RowsHavePair(origins, i - 1, a, b);
    } else {
      RowHasPair(origins, origins[a], |origins|, b);
    }
  }

  /** Every collected distance is the distance of a pair whose first origin is among the first `i`. */
  lemma {:induction false} RowsPair(origins: seq<Point>, i: nat, x: nat) returns (a: nat, b: nat)
    requires i <= |origins| && x in Rows(origins, i)
    ensures a < i && b < |origins| && x == Distance(origins[a], origins[b])
    decreases i
  {
    if x in Rows(origins, i - 1) {
      a, b := RowsPair(origins, i - 1, x);
    } else {
      a := i - 1;
      b := RowPair(origins, origins[a], |origins|, x);
    }
  }

  /** The nested loops of `main`: the distance of every ordered pair of origins. */
  method PairDistances(origins: seq<Point>) returns (distances: seq<nat>)
    ensures distances == Rows(origins, |origins|)
  {
    distances := [];
    for i := 0 to |origins|
      invariant distances == Rows(origins, i)
    {
      ghost var before := distances;
      for j := 0 to |origins|
        invariant distances == before + Row(origins, origins[i], j)
      {
        var distance := Distance(origins[i], origins[j]);
        ghost var row := Row(origins, origins[i], j);
        assert Row(origins, origins[i], j + 1) == row + [distance];
        assert (before + row) + [distance] == before + (row + [distance]);
        distances := distances + [distance];
      }
    }
  }

  /** `iter().max().unwrap()`: the largest value, which panics on an empty list. */
  method Largest(values: seq<nat>) returns (m: nat)
    requires values != []
    ensures m in values
    ensures forall k :: 0 <= k < |values| ==> values[k] <= m
  {
    m := values[0];
    for k := 1 to |values|
      invariant m in values[..k]
      invariant forall l :: 0 <= l < k ==> values[l] <= m
    {
      if values[k] > m {
        m := values[k];
      }
    }
    assert values[..|values|] == values;
  }

  /**
   * The second answer of `main`: the largest distance between two scanner
   * origins, over every ordered pair of them, a scanner with itself included.
   */
  method LargestSeparation(origins: seq<Point>) returns (d: nat)
    requires origins != []
    ensures exists i, j :: 0 <= i < |origins| && 0 <= j < |origins| && d == Distance(origins[i], origins[j])
    ensures forall i, j :: 0 <= i < |origins| && 0 <= j < |origins| ==> Distance(origins[i], origins[j]) <= d
  {
    var distances := PairDistances(origins);
    RowsHavePair(origins, |origins|, 0, 0);
    d := Largest(distances);
    var a, b := RowsPair(origins, |origins|, d);
    forall i, j | 0 <= i < |origins| && 0 <= j < |origins|
      ensures Distance(origins[i], origins[j]) <= d
    {
      RowsHavePair(origins, |origins|, i, j);
    }
  }

  /** The ids of the scanners, in input order. */
  function ScannerIds(scanners: seq<Scanner>): seq<nat>
  {
    seq(|scanners|, i requires 0 <= i < |scanners| => scanners[i].id)
  }

  function Elements(ids: seq<nat>): set<nat>
    decreases |ids|
  {
    if ids == [] then {} else Elements(ids[..|ids| - 1]) + {ids[|ids| - 1]}
  }

  lemma {:induction false} ElementsMembers(ids: seq<nat>)
    ensures forall x :: x in Elements(ids) <==> x in ids
    decreases |ids|
  {
    if ids != [] {
      var front := ids[..|ids| - 1];
      ElementsMembers(front);
      assert ids == front + [ids[|ids| - 1]];
    }
  }

  lemma {:induction false} DistinctElements(ids: seq<nat>)
    requires Distinct(ids)
    ensures |Elements(ids)| == |ids|
    decreases |ids|
  {
    if ids != [] {
      var front := ids[..|ids| - 1];
      DistinctElements(front);
      ElementsMembers(front);
      assert ids[|ids| - 1] !in front;
    }
  }

  /** Every recorded id is the id of one of the scanners. */
  lemma {:induction false} IdsOfScanners(scanners: seq<Scanner>, ps: seq<Placement>)
    requires scanners != [] && Indexed(scanners, ps)
    ensures forall x :: x in Ids(scanners, ps) ==> x in ScannerIds(scanners)
    decreases |ps|
  {
    if ps == [] {
      assert ScannerIds(scanners)[0] == scanners[0].id;
    } else {
      var front := ps[..|ps| - 1];
      IdsOfScanners(scanners, front);
      var last := ps[|ps| - 1].index;
      assert ScannerIds(scanners)[last] == scanners[last].id;
    }
  }

  /**
   * When the scanners' ids differ and the search finishes, every scanner has
   * been placed exactly once: its id is recorded, and there are exactly as
   * many origins as scanners.
   */
  lemma EveryScannerPlaced(scanners: seq<Scanner>, ps: seq<Placement>)
    requires scanners != [] && Indexed(scanners, ps) && Distinct(Ids(scanners, ps))
    requires Distinct(ScannerIds(scanners)) && |ps| + 1 >= |scanners|
    ensures |ps| + 1 == |scanners|
    ensures forall i | 0 <= i < |scanners| :: scanners[i].id in Ids(scanners, ps)
  {
    var recorded := Ids(scanners, ps);
    var all := ScannerIds(scanners);
    IdsLength(scanners, ps);
    IdsOfScanners(scanners, ps);
    ElementsMembers(recorded);
    ElementsMembers(all);
    DistinctElements(recorded);
    DistinctElements(all);
    assert Elements(recorded) <= Elements(all);
    assert Elements(recorded) == Elements(all) by {
      var missing := Elements(all) - Elements(recorded);
      assert |Elements(all)| == |Elements(recorded)| + |missing|;
    }
    forall i | 0 <= i < |scanners|
      ensures scanners[i].id in recorded
    {
      assert all[i] == scanners[i].id;
    }
  }

  lemma {:induction false} IdsLength(scanners: seq<Scanner>, ps: seq<Placement>)
    requires scanners != [] && Indexed(scanners, ps)
    ensures |Ids(scanners, ps)| == |ps| + 1
    decreases |ps|
  {
    if ps != [] {
      IdsLength(scanners, ps[..|ps| - 1]);
    }
  }

  // Reading the report

  /** `str::strip_suffix`: `s` without `suffix` when it ends with it. */
  function StripSuffix(s: string, suffix: string): (r: Option<string>)
    ensures r.Some? ==> s == r.value + suffix
    ensures r.None? ==> !(|suffix| <= |s| && s[|s| - |suffix|..] == suffix)
  {
    if |suffix| <= |s| && s[|s| - |suffix|..] == suffix then Some(s[..|s| - |suffix|]) else None
  }

  /** The id in a header line "--- scanner N ---"; None where the program panics on the header. */
  function ParseHeader(line: string): (r: Option<nat>)
    ensures r.Some? ==> r.value <= USIZE_MAX
  {
    match StripPrefix(line, "--- scanner ")
    case None => None
    case Some(rest) =>
      match StripSuffix(rest, " ---")
      case None => None
      case Some(digits) => ParseUsize(digits)
  }

  /** `flat_map(str::parse::<i64>)`: the values of the pieces that parse, in order; the others are dropped. */
  function ParsedI64s(pieces: seq<string>): (r: seq<int>)
    ensures |r| <= |pieces|
  {
    if pieces == [] then []
    else
      var init := ParsedI64s(pieces[..|pieces| - 1]);
      match ParseSigned(pieces[|pieces| - 1], I64_MIN, I64_MAX)
      case Some(v) => init + [v]
      case None => init
  }

  /**
   * A beacon line: the first three values that parse among its
   * comma-separated pieces; None when fewer than three do and indexing
   * `xyz` panics.
   */
  function Coordinates(line: string): Option<Point>
  {
    var xyz := ParsedI64s(Split(line, ","));
    if |xyz| < 3 then None else Some(Point(xyz[0], xyz[1], xyz[2]))
  }

  /** What one line says when read as a header and as a beacon, and whether it is empty. */
  datatype Reading = Reading(header: Option<nat>, point: Option<Point>, blank: bool)

  function Read(line: string): Reading
  {
    Reading(ParseHeader(line), Coordinates(line), line == "")
  }

  /** Every line's reading; the report's structure is parsed from these. */
  function Readings(lines: seq<string>): (rs: seq<Reading>)
    ensures |rs| == |lines|
    decreases |lines|
  {
    if lines == [] then [] else Readings(lines[..|lines| - 1]) + [Read(lines[|lines| - 1])]
  }

  lemma {:induction false} ReadingAt(lines: seq<string>, i: nat)
    requires i < |lines|
    ensures Readings(lines)[i] == Read(lines[i])
    decreases |lines|
  {
    if i < |lines| - 1 {
      ReadingAt(lines[..|lines| - 1], i);
    }
  }

  /** `rs` holds the reading of every line. */
  predicate ReadAll(lines: seq<string>, rs: seq<Reading>)
  {
    |rs| == |lines| && forall j {:trigger Read(lines[j])} :: 0 <= j < |lines| ==> rs[j] == Read(lines[j])
  }

  lemma ReadingsReadAll(lines: seq<string>)
    ensures ReadAll(lines, Readings(lines))
  {
    forall j | 0 <= j < |lines| ensures Readings(lines)[j] == Read(lines[j]) {
      ReadingAt(lines, j);
    }
  }

  /**
   * The beacon lines from line `i` on: one line is read unconditionally, and
   * reading stops before an empty line or at the end. The beacons and the
   * index of the first line not read, or None where the program panics.
   */
  function BeaconsFrom(rs: seq<Reading>, i: nat): (r: Option<(set<Point>, nat)>)
    ensures r.Some? ==> i < r.value.1 <= |rs|
    decreases |rs| - i
  {
    if i >= |rs| then None
    else match rs[i].point
      case None => None
      case Some(p) =>
        if i + 1 == |rs| || rs[i + 1].blank then Some(({p}, i + 1))
        else Prepend({p}, BeaconsFrom(rs, i + 1))
  }

  function Prepend(points: set<Point>, rest: Option<(set<Point>, nat)>): Option<(set<Point>, nat)>
  {
    match rest
    case None => None
    case Some((more, next)) => Some((points + more, next))
  }

  /** `Scanner::from_iter` from line `pos`: the scanner and the index of the first line not read. */
  function ScannerAt(rs: seq<Reading>, pos: nat): (r: Option<(Scanner, nat)>)
    ensures r.Some? ==> pos + 2 <= r.value.1 <= |rs|
  {
    if pos >= |rs| then None
    else match rs[pos].header
      case None => None
      case Some(id) =>
        match BeaconsFrom(rs, pos + 1)
        case None => None
        case Some((beacons, next)) => Some((Scanner(beacons, id), next))
  }

  /** `ScannerMap::from_str` from line `pos`: scanners separated by one line, until the input ends after one. */
  function ScannersFrom(rs: seq<Reading>, pos: nat): Option<seq<Scanner>>
    decreases |rs| - pos
  {
    match ScannerAt(rs, pos)
    case None => None
    case Some((scanner, next)) =>
      if next < |rs| then
        match ScannersFrom(rs, next + 1)
        case None => None
        case Some(more) => Some([scanner] + more)
      else Some([scanner])
  }

  /** The scanners of a report, or None where the program panics. */
  function ParseReport(s: string): Option<seq<Scanner>>
  {
    ScannersFrom(Readings(Lines(s)), 0)
  }

  /** `Scanner::from_iter`: the header, then the beacon loop. */
  method ReadScanner(lines: seq<string>, ghost rs: seq<Reading>, pos: nat) returns (r: Option<(Scanner, nat)>)
    requires ReadAll(lines, rs)
    ensures r == ScannerAt(rs, pos)
  {
    if pos >= |lines| {
      return None;
    }
    assert rs[pos] == Read(lines[pos]);
    var header := ParseHeader(lines[pos]);
    if header.None? {
      return None;
    }
    var beacons := ReadBeacons(lines, rs, pos + 1);
    if beacons.None? {
      return None;
    }
    return Some((Scanner(beacons.value.0, header.value), beacons.value.1));
  }

  /** The beacon loop of `Scanner::from_iter`, with its peek at the next line. */
  method ReadBeacons(lines: seq<string>, ghost rs: seq<Reading>, first: nat) returns (r: Option<(set<Point>, nat)>)
    requires ReadAll(lines, rs)
    ensures r == BeaconsFrom(rs, first)
  {
    var points := {};
    var i := first;
    PrependNothing(BeaconsFrom(rs, i));
    while true
      invariant first <= i
      invariant BeaconsFrom(rs, first) == Prepend(points, BeaconsFrom(rs, i))
      decreases |lines| - i
    {
      if i >= |lines| {
        return None;
      }
      assert rs[i] == Read(lines[i]);
      var point := Coordinates(lines[i]);
      if point.None? {
        return None;
      }
      ghost var before := points;
      points := points + {point.value};
      if i + 1 < |lines| {
        assert rs[i + 1] == Read(lines[i + 1]);
      }
      if i + 1 == |lines| || lines[i + 1] == "" {
        BeaconsLast(rs, i, point.value);
        return Some((points, i + 1));
      }
      BeaconsStep(rs, i, point.value);
      PrependTwice(before, {point.value}, BeaconsFrom(rs, i + 1));
      i := i + 1;
    }
  }

  lemma BeaconsLast(rs: seq<Reading>, i: nat, p: Point)
    requires i < |rs| && rs[i].point == Some(p) && (i + 1 == |rs| || rs[i + 1].blank)
    ensures BeaconsFrom(rs, i) == Some(({p}, i + 1))
  {
  }

  lemma BeaconsStep(rs: seq<Reading>, i: nat, p: Point)
    requires i + 1 < |rs| && rs[i].point == Some(p) && !rs[i + 1].blank
    ensures BeaconsFrom(rs, i) == Prepend({p}, BeaconsFrom(rs, i + 1))
  {
  }

  lemma PrependTwice(a: set<Point>, b: set<Point>, rest: Option<(set<Point>, nat)>)
    ensures Prepend(a, Prepend(b, rest)) == Prepend(a + b, rest)
  {
    if rest.Some? {
      assert a + (b + rest.value.0) == (a + b) + rest.value.0;
    }
  }

  lemma PrependNothing(rest: Option<(set<Point>, nat)>)
    ensures Prepend({}, rest) == rest
  {
    if rest.Some? {
      assert {} + rest.value.0 == rest.value.0;
    }
  }

  /** `ScannerMap::from_str`: the lines of the input, read as scanner reports. */
  method ParseScannerMap(s: string) returns (r: Option<seq<Scanner>>)
    ensures r == ParseReport(s)
  {
    ReadingsReadAll(Lines(s));
    r := ReadScanners(Lines(s), Readings(Lines(s)));
  }

  /**
   * `Scanner::from_str`: the first scanner of the text; the lines after it
   * are not read. It is the first scanner of the whole report whenever the
   * report parses.
   */
  method ScannerFromStr(s: string) returns (r: Option<Scanner>)
    ensures r.None? <==> ScannerAt(Readings(Lines(s)), 0).None?
    ensures ParseReport(s).Some? ==> r == Some(ParseReport(s).value[0])
  {
    ReadingsReadAll(Lines(s));
    var read := ReadScanner(Lines(s), Readings(Lines(s)), 0);
    FirstOfReport(Readings(Lines(s)));
    if read.None? {
      return None;
    }
    return Some(read.value.0);
  }

  /** A report that parses starts with a scanner that parses, and that scanner comes first. */
  lemma FirstOfReport(rs: seq<Reading>)
    ensures ScannersFrom(rs, 0).Some? ==> ScannerAt(rs, 0).Some?
    ensures ScannersFrom(rs, 0).Some? ==> ScannersFrom(rs, 0).value != [] && ScannersFrom(rs, 0).value[0] == ScannerAt(rs, 0).value.0
  {
  }

  /** The loop of `ScannerMap::from_str`: read a scanner; if a line follows, skip it and read the next. */
  method ReadScanners(lines: seq<string>, ghost rs: seq<Reading>) returns (r: Option<seq<Scanner>>)
    requires ReadAll(lines, rs)
    ensures r == ScannersFrom(rs, 0)
  {
    var scanners := [];
    var pos := 0;
    assert PrependAll([], ScannersFrom(rs, 0)) == ScannersFrom(rs, 0) by {
      if ScannersFrom(rs, 0).Some? {
        assert [] + ScannersFrom(rs, 0).value == ScannersFrom(rs, 0).value;
      }
    }
    while true
      invariant ScannersFrom(rs, 0) == PrependAll(scanners, ScannersFrom(rs, pos))
      decreases |lines| - pos
    {
      var read := ReadScanner(lines, rs, pos);
      if read.None? {
        return None;
      }
      var (scanner, next) := read.value;
      ScannersStep(rs, pos, scanner, next);
      PrependOne(scanners, scanner, if next < |lines| then ScannersFrom(rs, next + 1) else Some([]));
      scanners := scanners + [scanner];
      if next < |lines| {
        pos := next + 1;
      } else {
        return Some(scanners);
      }
    }
  }

  function PrependAll(scanners: seq<Scanner>, rest: Option<seq<Scanner>>): Option<seq<Scanner>>
  {
    match rest
    case None => None
    case Some(more) => Some(scanners + more)
  }

  lemma ScannersStep(rs: seq<Reading>, pos: nat, scanner: Scanner, next: nat)
    requires ScannerAt(rs, pos) == Some((scanner, next))
    ensures ScannersFrom(rs, pos)
      == PrependAll([scanner], if next < |rs| then ScannersFrom(rs, next + 1) else Some([]))
  {
    if next >= |rs| {
      assert [scanner] + [] == [scanner];
    }
  }

  lemma PrependOne(scanners: seq<Scanner>, scanner: Scanner, rest: Option<seq<Scanner>>)
    ensures PrependAll(scanners, PrependAll([scanner], rest)) == PrependAll(scanners + [scanner], rest)
  {
    if rest.Some? {
      assert scanners + ([scanner] + rest.value) == (scanners + [scanner]) + rest.value;
    }
  }

  // Written reports read back

  /** A scanner report as written: the id and the beacons in the order listed. */
  datatype Report = Report(id: nat, beacons: seq<Point>)

  function HeaderText(id: nat): string
  {
    "--- scanner " + Decimal(id) + " ---"
  }

  /** A beacon line: the three coordinates joined by commas. */
  function PointText(p: Point): string
  {
    Join([SignedText(p.x), SignedText(p.y), SignedText(p.z)], ",")
  }

  function BeaconLines(beacons: seq<Point>): (r: seq<string>)
    ensures |r| == |beacons|
    decreases |beacons|
  {
    if beacons == [] then [] else [PointText(beacons[0])] + BeaconLines(beacons[1..])
  }

  lemma {:induction false} BeaconLineAt(beacons: seq<Point>, k: nat)
    requires k < |beacons|
    ensures BeaconLines(beacons)[k] == PointText(beacons[k])
    decreases |beacons|
  {
    if k > 0 {
      BeaconLineAt(beacons[1..], k - 1);
    }
  }

  /** The lines of the reports: each header and its beacon lines, one empty line between reports. */
  function ReportsLines(reports: seq<Report>): seq<string>
    decreases |reports|
  {
    if reports == [] then []
    else
      var lines := [HeaderText(reports[0].id)] + BeaconLines(reports[0].beacons);
      if |reports| == 1 then lines else lines + [""] + ReportsLines(reports[1..])
  }

  /** The scanner a report describes. */
  function Listed(r: Report): Scanner
  {
    Scanner((set p | p in r.beacons), r.id)
  }

  function ListedAll(reports: seq<Report>): (r: seq<Scanner>)
    ensures |r| == |reports|
    ensures forall k :: 0 <= k < |reports| ==> r[k] == Listed(reports[k])
    decreases |reports|
  {
    if reports == [] then [] else [Listed(reports[0])] + ListedAll(reports[1..])
  }

  predicate InI64(p: Point)
  {
    I64_MIN <= p.x <= I64_MAX && I64_MIN <= p.y <= I64_MAX && I64_MIN <= p.z <= I64_MAX
  }

  /** A report the program can read back: an id that fits a usize and at least one beacon, every coordinate an i64. */
  predicate Writable(r: Report)
  {
    r.id <= USIZE_MAX && r.beacons != [] && forall k :: 0 <= k < |r.beacons| ==> InI64(r.beacons[k])
  }

  lemma HeaderReads(id: nat)
    requires id <= USIZE_MAX
    ensures ParseHeader(HeaderText(id)) == Some(id)
  {
    var line := HeaderText(id);
    var rest := Decimal(id) + " ---";
    assert line == "--- scanner " + rest;
    assert StripPrefix(line, "--- scanner ") == Some(rest);
    assert rest[|rest| - 4..] == " ---";
    assert StripSuffix(rest, " ---") == Some(Decimal(id));
    ParseDecimal(id);
  }

  lemma NoComma(v: int)
    ensures !(',' in SignedText(v))
  {
  }

  /** A beacon line holds at least the two commas, so it is not empty. */
  lemma PointTextNotEmpty(p: Point)
    ensures |PointText(p)| >= 2
  {
    var a, b, c := SignedText(p.x), SignedText(p.y), SignedText(p.z);
    assert [a, b, c][1..] == [b, c];
    assert [b, c][1..] == [c];
    assert Join([b, c], ",") == b + "," + c;
  }

  lemma ParsedThree(a: string, b: string, c: string, p: Point)
    requires ParseSigned(a, I64_MIN, I64_MAX) == Some(p.x)
    requires ParseSigned(b, I64_MIN, I64_MAX) == Some(p.y)
    requires ParseSigned(c, I64_MIN, I64_MAX) == Some(p.z)
    ensures ParsedI64s([a, b, c]) == [p.x, p.y, p.z]
  {
    assert ParsedI64s([a]) == [p.x] by {
      assert [a][..0] == [];
    }
    assert ParsedI64s([a, b]) == [p.x, p.y] by {
      assert [a, b][..1] == [a];
    }
    assert [a, b, c][..2] == [a, b];
  }

  /** A beacon line as written reads back as the beacon. */
  lemma PointReads(p: Point)
    requires InI64(p)
    ensures Coordinates(PointText(p)) == Some(p)
  {
    var a, b, c := SignedText(p.x), SignedText(p.y), SignedText(p.z);
    NoComma(p.x);
    NoComma(p.y);
    NoComma(p.z);
    JoinSplit([a, b, c], ",");
    ParseSignedText(p.x);
    ParseSignedText(p.y);
    ParseSignedText(p.z);
    ParsedThree(a, b, c, p);
  }

  /** Beacon lines laid out from line `i`, ending at the end or before an empty line, read back as their set. */
  lemma {:induction false} BeaconsReadBack(rs: seq<Reading>, i: nat, bs: seq<Point>)
    requires bs != [] && i + |bs| <= |rs|
    requires forall j :: i <= j < i + |bs| ==> rs[j].point == Some(bs[j - i]) && !rs[j].blank
    requires i + |bs| == |rs| || rs[i + |bs|].blank
    ensures BeaconsFrom(rs, i) == Some(((set p | p in bs), (i + |bs|) as nat))
    decreases |bs|
  {
    assert rs[i].point == Some(bs[0]);
    if |bs| == 1 {
      assert (set p | p in bs) == {bs[0]};
    } else {
      var tail := bs[1..];
      assert !rs[i + 1].blank;
      BeaconsReadBack(rs, i + 1, tail);
      assert (set p | p in bs) == {bs[0]} + (set p | p in tail) by {
        assert bs == [bs[0]] + tail;
      }
    }
  }

  /** A header line as written reads as its id. */
  lemma HeaderLine(lines: seq<string>, rs: seq<Reading>, j: nat, id: nat)
    requires ReadAll(lines, rs)
    requires j < |lines| && lines[j] == HeaderText(id) && id <= USIZE_MAX
    ensures rs[j].header == Some(id)
  {
    assert rs[j] == Read(lines[j]);
    HeaderReads(id);
  }

  /** Line `j` of the beacon lines laid out from line `i` reads as its beacon, and is not empty. */
  lemma PointLine(lines: seq<string>, rs: seq<Reading>, i: nat, bs: seq<Point>, j: nat)
    requires ReadAll(lines, rs)
    requires i <= j < i + |bs| <= |lines| && InI64(bs[j - i])
    requires lines[i..i + |bs|] == BeaconLines(bs)
    ensures rs[j].point == Some(bs[j - i]) && !rs[j].blank
  {
    var k := j - i;
    assert lines[j] == lines[i..i + |bs|][k];
    BeaconLineAt(bs, k);
    assert rs[j] == Read(lines[j]);
    PointReads(bs[k]);
    PointTextNotEmpty(bs[k]);
  }

  /** Beacon lines as written, from line `i` on, read as their beacons. */
  lemma PointLines(lines: seq<string>, rs: seq<Reading>, i: nat, bs: seq<Point>)
    requires ReadAll(lines, rs)
    requires i + |bs| <= |lines| && forall k :: 0 <= k < |bs| ==> InI64(bs[k])
    requires lines[i..i + |bs|] == BeaconLines(bs)
    ensures forall j :: i <= j < i + |bs| ==> rs[j].point == Some(bs[j - i]) && !rs[j].blank
  {
    forall j | i <= j < i + |bs|
      ensures rs[j].point == Some(bs[j - i]) && !rs[j].blank
    {
      PointLine(lines, rs, i, bs, j);
    }
  }

  /** The end of the input, or an empty line. */
  lemma EndOrBlank(lines: seq<string>, rs: seq<Reading>, j: nat)
    requires ReadAll(lines, rs)
    requires j == |lines| || (j < |lines| && lines[j] == "")
    ensures j == |lines| || (j < |lines| && rs[j].blank)
  {
    if j < |lines| {
      assert rs[j] == Read(lines[j]);
    }
  }

  /** A header reading followed by the readings of the report's beacons makes its scanner. */
  lemma ReportAt(rs: seq<Reading>, pos: nat, first: nat, r: Report)
    requires r.beacons != [] && first == pos + 1 && first + |r.beacons| <= |rs|
    requires rs[pos].header == Some(r.id)
    requires forall j :: first <= j < first + |r.beacons| ==> rs[j].point == Some(r.beacons[j - first]) && !rs[j].blank
    requires first + |r.beacons| == |rs| || rs[first + |r.beacons|].blank
    ensures ScannerAt(rs, pos) == Some((Listed(r), first + |r.beacons|))
  {
    BeaconsReadBack(rs, first, r.beacons);
  }

  /** Where the lines of reports are laid out from line `pos`, the first report's lines are in place. */
  lemma FirstReportLines(lines: seq<string>, pos: nat, first: nat, reports: seq<Report>)
    requires reports != [] && first == pos + 1 && pos <= |lines| && lines[pos..] == ReportsLines(reports)
    ensures first + |reports[0].beacons| <= |lines|
    ensures lines[pos] == HeaderText(reports[0].id)
    ensures lines[first..first + |reports[0].beacons|] == BeaconLines(reports[0].beacons)
  {
    var r := reports[0];
    var own := [HeaderText(r.id)] + BeaconLines(r.beacons);
    var layout := ReportsLines(reports);
    assert layout[..|own|] == own;
    assert lines[pos] == layout[0];
    assert lines[first..first + |r.beacons|] == layout[1..|own|];
    assert own[1..] == BeaconLines(r.beacons);
  }

  /**
   * The readings from line `pos` on are those of the reports, laid out as
   * written: a header, the beacon lines, and an empty line before each
   * further report.
   */
  predicate Laid(rs: seq<Reading>, pos: nat, reports: seq<Report>)
    decreases |reports|
  {
    && reports != []
    && var r, first := reports[0], pos + 1;
    && r.beacons != []
    && first + |r.beacons| <= |rs|
    && rs[pos].header == Some(r.id)
    && (forall j :: first <= j < first + |r.beacons| ==> rs[j].point == Some(r.beacons[j - first]) && !rs[j].blank)
    && if |reports| == 1 then first + |r.beacons| == |rs|
       else first + |r.beacons| < |rs| && rs[first + |r.beacons|].blank && Laid(rs, first + |r.beacons| + 1, reports[1..])
  }

  /** A single report laid out up to the end of the readings. */
  lemma LaidOne(rs: seq<Reading>, pos: nat, first: nat, r: Report)
    requires r.beacons != [] && first == pos + 1 && first + |r.beacons| == |rs|
    requires rs[pos].header == Some(r.id)
    requires forall j :: first <= j < first + |r.beacons| ==> rs[j].point == Some(r.beacons[j - first]) && !rs[j].blank
    ensures Laid(rs, pos, [r])
  {
  }

  /** A report laid out, an empty line, and further reports laid out. */
  lemma LaidMore(rs: seq<Reading>, pos: nat, first: nat, reports: seq<Report>)
    requires |reports| > 1 && first == pos + 1
    requires reports[0].beacons != [] && first + |reports[0].beacons| < |rs|
    requires rs[pos].header == Some(reports[0].id)
    requires forall j :: first <= j < first + |reports[0].beacons| ==>
               rs[j].point == Some(reports[0].beacons[j - first]) && !rs[j].blank
    requires rs[first + |reports[0].beacons|].blank
    requires Laid(rs, first + |reports[0].beacons| + 1, reports[1..])
    ensures Laid(rs, pos, reports)
  {
  }

  /** Readings laid out as reports parse as the scanners the reports describe. */
  lemma {:induction false} LaidReports(rs: seq<Reading>, pos: nat, reports: seq<Report>)
    requires Laid(rs, pos, reports)
    ensures ScannersFrom(rs, pos) == Some(ListedAll(reports))
    decreases |reports|
  {
    var r := reports[0];
    var next := pos + 1 + |r.beacons|;
    ReportAt(rs, pos, pos + 1, r);
    ScannersStep(rs, pos, Listed(r), next);
    if |reports| == 1 {
      assert ListedAll(reports) == [Listed(r)] + [];
    } else {
      LaidReports(rs, next + 1, reports[1..]);
      assert ListedAll(reports) == [Listed(r)] + ListedAll(reports[1..]);
    }
  }

  /**
   * The lines from line `pos` on are those of the reports, laid out as
   * written: a header, the beacon lines, and an empty line before each
   * further report.
   */
  predicate LinesLaid(lines: seq<string>, pos: nat, reports: seq<Report>)
    decreases |reports|
  {
    && reports != []
    && var r, first := reports[0], pos + 1;
    && first + |r.beacons| <= |lines|
    && lines[pos] == HeaderText(r.id)
    && lines[first..first + |r.beacons|] == BeaconLines(r.beacons)
    && if |reports| == 1 then first + |r.beacons| == |lines|
       else first + |r.beacons| < |lines| && lines[first + |r.beacons|] == "" && LinesLaid(lines, first + |r.beacons| + 1, reports[1..])
  }

  /** A single report's lines laid out up to the end. */
  lemma LinesOne(lines: seq<string>, pos: nat, first: nat, r: Report)
    requires first == pos + 1 && first + |r.beacons| == |lines|
    requires lines[pos] == HeaderText(r.id)
    requires lines[first..first + |r.beacons|] == BeaconLines(r.beacons)
    ensures LinesLaid(lines, pos, [r])
  {
  }

  /** A report's lines, an empty line, and the lines of further reports laid out. */
  lemma LinesMore(lines: seq<string>, pos: nat, first: nat, reports: seq<Report>)
    requires |reports| > 1 && first == pos + 1 && first + |reports[0].beacons| < |lines|
    requires lines[pos] == HeaderText(reports[0].id)
    requires lines[first..first + |reports[0].beacons|] == BeaconLines(reports[0].beacons)
    requires lines[first + |reports[0].beacons|] == ""
    requires LinesLaid(lines, first + |reports[0].beacons| + 1, reports[1..])
    ensures LinesLaid(lines, pos, reports)
  {
  }

  /** The first of several reports laid out, in front of the others laid out. */
  lemma {:induction false} LinesStep(lines: seq<string>, pos: nat, first: nat, reports: seq<Report>)
    requires |reports| > 1 && first == pos + 1 && pos <= |lines| && lines[pos..] == ReportsLines(reports)
    ensures LinesLaid(lines, pos, reports)
    decreases |reports|, 0
  {
    FirstReportLines(lines, pos, first, reports);
    SeparatedReports(lines, pos, reports);
    LinesLaidOut(lines, first + |reports[0].beacons| + 1, reports[1..]);
    LinesMore(lines, pos, first, reports);
  }

  /** The lines of a single report end the input. */
  lemma OneReportEnds(lines: seq<string>, pos: nat, reports: seq<Report>)
    requires |reports| == 1 && pos <= |lines| && lines[pos..] == ReportsLines(reports)
    ensures pos + 1 + |reports[0].beacons| == |lines|
  {
    assert ReportsLines(reports) == [HeaderText(reports[0].id)] + BeaconLines(reports[0].beacons);
  }

  /** The lines of the reports, from line `pos` to the end, are laid out report by report. */
  lemma {:induction false} LinesLaidOut(lines: seq<string>, pos: nat, reports: seq<Report>)
    requires reports != [] && pos <= |lines| && lines[pos..] == ReportsLines(reports)
    ensures LinesLaid(lines, pos, reports)
    decreases |reports|, 1
  {
    var first := pos + 1;
    if |reports| == 1 {
      FirstReportLines(lines, pos, first, reports);
      OneReportEnds(lines, pos, reports);
      assert reports == [reports[0]];
      LinesOne(lines, pos, first, reports[0]);
    } else {
      LinesStep(lines, pos, first, reports);
    }
  }

  /** The further reports of writable reports are writable. */
  lemma WritableRest(reports: seq<Report>)
    requires reports != [] && forall k :: 0 <= k < |reports| ==> Writable(reports[k])
    ensures forall k :: 0 <= k < |reports[1..]| ==> Writable(reports[1..][k])
  {
    forall k | 0 <= k < |reports[1..]| ensures Writable(reports[1..][k]) {
      assert reports[1..][k] == reports[k + 1];
    }
  }

  /** Lines laid out as writable reports have the readings of the reports laid out. */
  lemma {:induction false} ReportsReadBack(lines: seq<string>, rs: seq<Reading>, pos: nat, reports: seq<Report>)
    requires ReadAll(lines, rs)
    requires forall k :: 0 <= k < |reports| ==> Writable(reports[k])
    requires LinesLaid(lines, pos, reports)
    ensures Laid(rs, pos, reports)
    decreases |reports|
  {
    var r := reports[0];
    var first := pos + 1;
    assert Writable(r);
    HeaderLine(lines, rs, pos, r.id);
    PointLines(lines, rs, first, r.beacons);
    if |reports| == 1 {
      LaidOne(rs, pos, first, r);
    } else {
      EndOrBlank(lines, rs, first + |r.beacons|);
      WritableRest(reports);
      ReportsReadBack(lines, rs, first + |r.beacons| + 1, reports[1..]);
      LaidMore(rs, pos, first, reports);
    }
  }

  /** After the first of several reports come an empty line and the lines of the others. */
  lemma SeparatedReports(lines: seq<string>, pos: nat, reports: seq<Report>)
    requires |reports| > 1 && pos <= |lines| && lines[pos..] == ReportsLines(reports)
    ensures pos + 1 + |reports[0].beacons| < |lines|
    ensures lines[pos + 1 + |reports[0].beacons|] == ""
    ensures lines[pos + 1 + |reports[0].beacons| + 1..] == ReportsLines(reports[1..])
  {
    var r := reports[0];
    var own := [HeaderText(r.id)] + BeaconLines(r.beacons);
    var layout := ReportsLines(reports);
    var n := |own|;
    assert layout == own + [""] + ReportsLines(reports[1..]);
    assert lines[pos + n] == layout[n];
    assert lines[pos + n + 1..] == lines[pos..][n + 1..];
  }

  predicate PlainLine(line: string)
  {
    !('\n' in line) && !('\r' in line)
  }

  lemma PointPlain(p: Point)
    ensures PlainLine(PointText(p))
  {
    var a, b, c := SignedText(p.x), SignedText(p.y), SignedText(p.z);
    SignedPlain(p.x);
    SignedPlain(p.y);
    SignedPlain(p.z);
    JoinFree([a, b, c], ",", '\n');
    JoinFree([a, b, c], ",", '\r');
  }

  /** The lines of one report hold no line feed or carriage return. */
  lemma ReportPlain(r: Report, k: nat)
    requires k < 1 + |r.beacons|
    ensures PlainLine(([HeaderText(r.id)] + BeaconLines(r.beacons))[k])
  {
    if k == 0 {
      DecimalPlain(r.id);
    } else {
      BeaconLineAt(r.beacons, k - 1);
      PointPlain(r.beacons[k - 1]);
    }
  }

  /** No line of written reports holds a line feed or a carriage return. */
  lemma {:induction false} ReportsPlain(reports: seq<Report>, k: nat)
    requires k < |ReportsLines(reports)|
    ensures PlainLine(ReportsLines(reports)[k])
    decreases |reports|
  {
    var r := reports[0];
    var own := [HeaderText(r.id)] + BeaconLines(r.beacons);
    if k < |own| {
      if |reports| > 1 {
        assert ReportsLines(reports)[k] == own[k];
      }
      ReportPlain(r, k);
    } else if k > |own| {
      var more := ReportsLines(reports[1..]);
      assert ReportsLines(reports)[k] == more[k - |own| - 1];
      ReportsPlain(reports[1..], k - |own| - 1);
    }
  }

  lemma DecimalPlain(id: nat)
    ensures PlainLine(HeaderText(id))
  {
  }

  lemma SignedPlain(v: int)
    ensures !('\n' in SignedText(v)) && !('\r' in SignedText(v))
  {
  }

  /** A report written one line per line feed parses back to the scanners it describes. */
  lemma ParseWrittenReport(reports: seq<Report>)
    requires reports != [] && forall k :: 0 <= k < |reports| ==> Writable(reports[k])
    ensures ParseReport(Join(ReportsLines(reports), "\n")) == Some(ListedAll(reports))
  {
    var lines := ReportsLines(reports);
    forall k | 0 <= k < |lines| ensures !('\n' in lines[k]) && !('\r' in lines[k]) {
      ReportsPlain(reports, k);
    }
    LastLine(reports);
    LinesOfJoined(lines);
    assert lines[0..] == lines;
    LinesLaidOut(lines, 0, reports);
    ReadingsReadAll(lines);
    ReportsReadBack(lines, Readings(lines), 0, reports);
    LaidReports(Readings(lines), 0, reports);
  }

  /** The last line of a written report is a beacon line, so it is not empty. */
  lemma {:induction false} LastLine(reports: seq<Report>)
    requires reports != [] && forall k :: 0 <= k < |reports| ==> Writable(reports[k])
    ensures ReportsLines(reports) != [] && ReportsLines(reports)[|ReportsLines(reports)| - 1] != []
    decreases |reports|
  {
    var r := reports[0];
    if |reports| == 1 {
      var bs := r.beacons;
      BeaconLineAt(bs, |bs| - 1);
      PointTextNotEmpty(bs[|bs| - 1]);
      assert ReportsLines(reports) == [HeaderText(r.id)] + BeaconLines(bs);
    } else {
      var more := reports[1..];
      forall k | 0 <= k < |more| ensures Writable(more[k]) {
        assert more[k] == reports[k + 1];
      }
      LastLine(more);
      var tail := ReportsLines(more);
      assert ReportsLines(reports) == [HeaderText(r.id)] + BeaconLines(r.beacons) + [""] + tail;
    }
  }
}
