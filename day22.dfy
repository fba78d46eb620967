/**
 * Reactor reboot (day 22): a list of steps, each turning on or off every
 * cube of a cuboid.  The program counts the cubes left on by inclusion and
 * exclusion: each step adds, with the opposite sign, its overlap with every
 * cuboid counted so far, and an "on" step adds its own cuboid; the answer is
 * the sum of the signed volumes.
 */
module Day22 {
  import opened Common
  import opened Text

  datatype Instruction = On | Off

  /** `RebootInstruction::inverse`: the other instruction. */
  function Inverse(i: Instruction): (r: Instruction)
    ensures r != i
  {
    match i
    case On => Off
    case Off => On
  }

  /** Inverting twice gives the instruction back. */
  lemma InverseInvolution(i: Instruction)
    ensures Inverse(Inverse(i)) == i
  {
  }

  /**
   * `RebootCuboid`: the cubes (x, y, z) with x0 <= x <= x1, y0 <= y <= y1 and
   * z0 <= z <= z1.  Regions of space below are cuboids too, whose instruction
   * is not used.
   */
  datatype Cuboid = Cuboid(x0: int, x1: int, y0: int, y1: int, z0: int, z1: int, instruction: Instruction)

  type Point = (int, int, int)

  predicate Contains(c: Cuboid, p: Point)
  {
    c.x0 <= p.0 <= c.x1 && c.y0 <= p.1 <= c.y1 && c.z0 <= p.2 <= c.z1
  }

  /** A cuboid with at least one cube along every axis. */
  predicate Proper(c: Cuboid)
  {
    c.x0 <= c.x1 && c.y0 <= c.y1 && c.z0 <= c.z1
  }

  /** The bounds of `c` lie within those of `d`. */
  predicate Inside(c: Cuboid, d: Cuboid)
  {
    d.x0 <= c.x0 && c.x1 <= d.x1 && d.y0 <= c.y0 && c.y1 <= d.y1 && d.z0 <= c.z0 && c.z1 <= d.z1
  }

  /**
   * `intersect`: the cubes both cuboids hold, None when there are none, with
   * the receiver's instruction inverted.
   */
  function Intersect(a: Cuboid, b: Cuboid): (r: Option<Cuboid>)
    ensures r.None? <==> forall p :: !(Contains(a, p) && Contains(b, p))
    ensures r.Some? ==> forall p :: Contains(r.value, p) <==> Contains(a, p) && Contains(b, p)
    ensures r.Some? ==> Proper(r.value) && Inside(r.value, a) && Inside(r.value, b)
    ensures r.Some? ==> r.value.instruction == Inverse(a.instruction)
  {
    var x0, x1 := Max(a.x0, b.x0), Min(a.x1, b.x1);
    var y0, y1 := Max(a.y0, b.y0), Min(a.y1, b.y1);
    var z0, z1 := Max(a.z0, b.z0), Min(a.z1, b.z1);
    if x0 > x1 || y0 > y1 || z0 > z1 then None
    else
      assert Contains(a, (x0, y0, z0)) && Contains(b, (x0, y0, z0));
      Some(Cuboid(x0, x1, y0, y1, z0, z1, Inverse(a.instruction)))
  }

  /** The bounds of an intersection do not depend on the order of the two cuboids. */
  lemma IntersectSymmetric(a: Cuboid, b: Cuboid)
    ensures Intersect(a, b).None? <==> Intersect(b, a).None?
    ensures Intersect(a, b).Some? ==> Intersect(a, b).value.(instruction := On) == Intersect(b, a).value.(instruction := On)
  {
  }

  /** `in_limit`: no limit admits every cuboid; a limit (min, max) admits one whose six bounds lie in min..=max. */
  function InLimit(c: Cuboid, limit: Option<(int, int)>): bool
  {
    match limit
    case None => true
    case Some((min, max)) =>
      min <= c.x0 <= max && min <= c.x1 <= max && min <= c.y0 <= max
      && min <= c.y1 <= max && min <= c.z0 <= max && min <= c.z1 <= max
  }

  /** The cube min..=max along every axis. */
  function LimitCube(min: int, max: int): Cuboid
  {
    Cuboid(min, max, min, max, min, max, On)
  }

  /** A proper cuboid is within the limit exactly when every cube of it lies in the limit's cube. */
  lemma InLimitCubes(c: Cuboid, min: int, max: int)
    requires Proper(c)
    ensures InLimit(c, Some((min, max))) <==> forall p :: Contains(c, p) ==> Contains(LimitCube(min, max), p)
    ensures InLimit(c, Some((min, max))) <==> Inside(c, LimitCube(min, max))
  {
    if forall p :: Contains(c, p) ==> Contains(LimitCube(min, max), p) {
      assert Contains(c, (c.x0, c.y0, c.z0));
      assert Contains(c, (c.x1, c.y1, c.z1));
    }
  }

  /** `area`: the product of the three side lengths, negated for Off. */
  function Area(c: Cuboid): int
  {
    var volume := (c.x1 - c.x0 + 1) * (c.y1 - c.y0 + 1) * (c.z1 - c.z0 + 1);
    match c.instruction
    case Off => -volume
    case On => volume
  }

  // Sums over the cubes of a region

  /** The sum of f over the cubes (x, y, z) with z from r.z0 up to z1. */
  ghost function SumZ(f: Point -> int, r: Cuboid, x: int, y: int, z1: int): int
    decreases z1 - r.z0 + 1
  {
    if z1 < r.z0 then 0 else SumZ(f, r, x, y, z1 - 1) + f((x, y, z1))
  }

  /** The sum of f over the cubes (x, y, z) of r with y up to y1. */
  ghost function SumY(f: Point -> int, r: Cuboid, x: int, y1: int): int
    decreases y1 - r.y0 + 1
  {
    if y1 < r.y0 then 0 else SumY(f, r, x, y1 - 1) + SumZ(f, r, x, y1, r.z1)
  }

  /** The sum of f over the cubes of r with x up to x1. */
  ghost function SumX(f: Point -> int, r: Cuboid, x1: int): int
    decreases x1 - r.x0 + 1
  {
    if x1 < r.x0 then 0 else SumX(f, r, x1 - 1) + SumY(f, r, x1, r.y1)
  }

  /** The sum of f over every cube of the region r. */
  ghost function SumOver(f: Point -> int, r: Cuboid): int
  {
    SumX(f, r, r.x1)
  }

  lemma {:induction false} SumZAdd(f: Point -> int, g: Point -> int, h: Point -> int, r: Cuboid, x: int, y: int, z1: int)
    requires forall p :: h(p) == f(p) + g(p)
    ensures SumZ(h, r, x, y, z1) == SumZ(f, r, x, y, z1) + SumZ(g, r, x, y, z1)
    decreases z1 - r.z0 + 1
  {
    if z1 >= r.z0 {
      SumZAdd(f, g, h, r, x, y, z1 - 1);
    }
  }

  lemma {:induction false} SumYAdd(f: Point -> int, g: Point -> int, h: Point -> int, r: Cuboid, x: int, y1: int)
    requires forall p :: h(p) == f(p) + g(p)
    ensures SumY(h, r, x, y1) == SumY(f, r, x, y1) + SumY(g, r, x, y1)
    decreases y1 - r.y0 + 1
  {
    if y1 >= r.y0 {
      SumYAdd(f, g, h, r, x, y1 - 1);
      SumZAdd(f, g, h, r, x, y1, r.z1);
    }
  }

  lemma {:induction false} SumXAdd(f: Point -> int, g: Point -> int, h: Point -> int, r: Cuboid, x1: int)
    requires forall p :: h(p) == f(p) + g(p)
    ensures SumX(h, r, x1) == SumX(f, r, x1) + SumX(g, r, x1)
    decreases x1 - r.x0 + 1
  {
    if x1 >= r.x0 {
      SumXAdd(f, g, h, r, x1 - 1);
      SumYAdd(f, g, h, r, x1, r.y1);
    }
  }

  /** Summing is additive: the sum of f + g over a region is the sum of f plus the sum of g. */
  lemma SumOverAdd(f: Point -> int, g: Point -> int, h: Point -> int, r: Cuboid)
    requires forall p :: h(p) == f(p) + g(p)
    ensures SumOver(h, r) == SumOver(f, r) + SumOver(g, r)
  {
    SumXAdd(f, g, h, r, r.x1);
  }

  lemma {:induction false} SumZSame(f: Point -> int, g: Point -> int, r: Cuboid, x: int, y: int, z1: int)
    requires r.x0 <= x <= r.x1 && r.y0 <= y <= r.y1 && z1 <= r.z1
    requires forall p :: Contains(r, p) ==> f(p) == g(p)
    ensures SumZ(f, r, x, y, z1) == SumZ(g, r, x, y, z1)
    decreases z1 - r.z0 + 1
  {
    if z1 >= r.z0 {
      SumZSame(f, g, r, x, y, z1 - 1);
      assert Contains(r, (x, y, z1));
    }
  }

  lemma {:induction false} SumYSame(f: Point -> int, g: Point -> int, r: Cuboid, x: int, y1: int)
    requires r.x0 <= x <= r.x1 && y1 <= r.y1
    requires forall p :: Contains(r, p) ==> f(p) == g(p)
    ensures SumY(f, r, x, y1) == SumY(g, r, x, y1)
    decreases y1 - r.y0 + 1
  {
    if y1 >= r.y0 {
      SumYSame(f, g, r, x, y1 - 1);
      SumZSame(f, g, r, x, y1, r.z1);
    }
  }

  lemma {:induction false} SumXSame(f: Point -> int, g: Point -> int, r: Cuboid, x1: int)
    requires x1 <= r.x1
    requires forall p :: Contains(r, p) ==> f(p) == g(p)
    ensures SumX(f, r, x1) == SumX(g, r, x1)
    decreases x1 - r.x0 + 1
  {
    if x1 >= r.x0 {
      SumXSame(f, g, r, x1 - 1);
      SumYSame(f, g, r, x1, r.y1);
    }
  }

  /** Functions that agree on every cube of a region have the same sum over it. */
  lemma SumOverSame(f: Point -> int, g: Point -> int, r: Cuboid)
    requires forall p :: Contains(r, p) ==> f(p) == g(p)
    ensures SumOver(f, r) == SumOver(g, r)
  {
    SumXSame(f, g, r, r.x1);
  }

  /** The number of integers in both a0..=a1 and b0..=b1. */
  function Overlap(a0: int, a1: int, b0: int, b1: int): (n: nat)
  {
    if Min(a1, b1) < Max(a0, b0) then 0 else Min(a1, b1) - Max(a0, b0) + 1
  }

  /** Extending b0..=b1 by one at the top adds one to the overlap when b1 + 1 lies in a0..=a1. */
  lemma OverlapStep(a0: int, a1: int, b0: int, b1: int)
    requires b0 <= b1 + 1
    ensures Overlap(a0, a1, b0, b1 + 1) == Overlap(a0, a1, b0, b1) + (if a0 <= b1 + 1 <= a1 then 1 else 0)
  {
  }

  /** v with the sign of the instruction. */
  function Signed(i: Instruction, v: int): int
  {
    if i == On then v else -v
  }

  /** The cuboid's sign on the cubes it holds, 0 elsewhere. */
  function Cover(c: Cuboid, p: Point): int
  {
    if Contains(c, p) then Signed(c.instruction, 1) else 0
  }

  ghost function CoverOf(c: Cuboid): Point -> int
  {
    p => Cover(c, p)
  }

  lemma MulStep(n: int, k: int, d: int)
    requires d == 0 || d == 1
    ensures (n + d) * k == n * k + (if d == 1 then k else 0)
  {
  }

  lemma {:induction false} CoverZ(c: Cuboid, r: Cuboid, x: int, y: int, z1: int)
    requires r.z0 <= z1 + 1
    ensures SumZ(CoverOf(c), r, x, y, z1)
      == if c.x0 <= x <= c.x1 && c.y0 <= y <= c.y1 then Signed(c.instruction, Overlap(c.z0, c.z1, r.z0, z1)) else 0
    decreases z1 - r.z0 + 1
  {
    if z1 >= r.z0 {
      CoverZ(c, r, x, y, z1 - 1);
      OverlapStep(c.z0, c.z1, r.z0, z1 - 1);
    }
  }

  lemma {:induction false} CoverY(c: Cuboid, r: Cuboid, x: int, y1: int)
    requires r.y0 <= y1 + 1 && r.z0 <= r.z1 + 1
    ensures SumY(CoverOf(c), r, x, y1)
      == if c.x0 <= x <= c.x1 then Signed(c.instruction, Overlap(c.y0, c.y1, r.y0, y1) * Overlap(c.z0, c.z1, r.z0, r.z1)) else 0
    decreases y1 - r.y0 + 1
  {
    if y1 >= r.y0 {
      CoverY(c, r, x, y1 - 1);
      CoverZ(c, r, x, y1, r.z1);
      OverlapStep(c.y0, c.y1, r.y0, y1 - 1);
      MulStep(Overlap(c.y0, c.y1, r.y0, y1 - 1), Overlap(c.z0, c.z1, r.z0, r.z1), if c.y0 <= y1 <= c.y1 then 1 else 0);
    }
  }

  lemma {:induction false} CoverX(c: Cuboid, r: Cuboid, x1: int)
    requires r.x0 <= x1 + 1 && r.y0 <= r.y1 + 1 && r.z0 <= r.z1 + 1
    ensures SumX(CoverOf(c), r, x1)
      == Signed(c.instruction, Overlap(c.x0, c.x1, r.x0, x1) * (Overlap(c.y0, c.y1, r.y0, r.y1) * Overlap(c.z0, c.z1, r.z0, r.z1)))
    decreases x1 - r.x0 + 1
  {
    if x1 >= r.x0 {
      CoverX(c, r, x1 - 1);
      CoverY(c, r, x1, r.y1);
      OverlapStep(c.x0, c.x1, r.x0, x1 - 1);
      MulStep(Overlap(c.x0, c.x1, r.x0, x1 - 1), Overlap(c.y0, c.y1, r.y0, r.y1) * Overlap(c.z0, c.z1, r.z0, r.z1),
        if c.x0 <= x1 <= c.x1 then 1 else 0);
    }
  }

  /**
   * The area of a proper cuboid is the number of its cubes, counted with its
   * sign: summing the cuboid's sign over any region around it gives `area`.
   */
  lemma AreaCounts(c: Cuboid, r: Cuboid)
    requires Proper(c) && Inside(c, r)
    ensures Area(c) == SumOver(CoverOf(c), r)
  {
    CoverX(c, r, r.x1);
    var a, b, d := c.x1 - c.x0 + 1, c.y1 - c.y0 + 1, c.z1 - c.z0 + 1;
    assert Overlap(c.x0, c.x1, r.x0, r.x1) == a && Overlap(c.y0, c.y1, r.y0, r.y1) == b && Overlap(c.z0, c.z1, r.z0, r.z1) == d;
    assert a * (b * d) == a * b * d;
  }

  // The steps and what they leave on

  /** Whether cube p is on after the steps: the last step whose cuboid holds it decides. */
  predicate IsOn(steps: seq<Cuboid>, p: Point)
  {
    if steps == [] then false
    else if Contains(steps[|steps| - 1], p) then steps[|steps| - 1].instruction == On
    else IsOn(steps[..|steps| - 1], p)
  }

  ghost function OnOf(steps: seq<Cuboid>): Point -> int
  {
    p => if IsOn(steps, p) then 1 else 0
  }

  /** The number of cubes of the region r that are on after the steps. */
  ghost function CubesOn(steps: seq<Cuboid>, r: Cuboid): int
  {
    SumOver(OnOf(steps), r)
  }

  /** The sum of the signs of the cuboids that hold p. */
  function Weight(cuboids: seq<Cuboid>, p: Point): int
  {
    if cuboids == [] then 0 else Weight(cuboids[..|cuboids| - 1], p) + Cover(cuboids[|cuboids| - 1], p)
  }

  ghost function WeightOf(cuboids: seq<Cuboid>): Point -> int
  {
    p => Weight(cuboids, p)
  }

  /** The intersections of each counted cuboid with the new step's, in order, where they are not empty. */
  function Intersections(counted: seq<Cuboid>, cube: Cuboid): (r: seq<Cuboid>)
    ensures |r| <= |counted|
  {
    if counted == [] then []
    else
      var init := Intersections(counted[..|counted| - 1], cube);
      match Intersect(counted[|counted| - 1], cube)
      case Some(c) => init + [c]
      case None => init
  }

  /** One turn of the loop of `on_cubes_count`: the step's own cuboid if it is On, then the intersections. */
  function AddStep(counted: seq<Cuboid>, cube: Cuboid): seq<Cuboid>
  {
    counted + (if cube.instruction == On then [cube] else []) + Intersections(counted, cube)
  }

  /** `matching_cubes` after the steps. */
  function Matching(steps: seq<Cuboid>): seq<Cuboid>
  {
    if steps == [] then [] else AddStep(Matching(steps[..|steps| - 1]), steps[|steps| - 1])
  }

  /** The sum of the areas. */
  function SignedVolume(cuboids: seq<Cuboid>): int
  {
    if cuboids == [] then 0 else SignedVolume(cuboids[..|cuboids| - 1]) + Area(cuboids[|cuboids| - 1])
  }

  lemma {:induction false} WeightAppend(a: seq<Cuboid>, b: seq<Cuboid>, p: Point)
    ensures Weight(a + b, p) == Weight(a, p) + Weight(b, p)
    decreases |b|
  {
    if b == [] {
      assert a + b == a;
    } else {
      var n := |b| - 1;
      assert (a + b)[..|a + b| - 1] == a + b[..n];
      WeightAppend(a, b[..n], p);
    }
  }

  /** The intersections weigh, on a cube of the new step, minus what the counted cuboids weigh there, and nothing elsewhere. */
  lemma {:induction false} WeightIntersections(counted: seq<Cuboid>, cube: Cuboid, p: Point)
    ensures Weight(Intersections(counted, cube), p) == if Contains(cube, p) then -Weight(counted, p) else 0
    decreases |counted|
  {
    if counted != [] {
      var front, other := counted[..|counted| - 1], counted[|counted| - 1];
      WeightIntersections(front, cube, p);
      var init := Intersections(front, cube);
      match Intersect(other, cube)
      case Some(c) =>
        WeightAppend(init, [c], p);
        assert Weight([c], p) == Cover(c, p) by { assert [c][..0] == []; }
        assert Cover(c, p) == if Contains(cube, p) then -Cover(other, p) else 0 by {
          assert Contains(c, p) <==> Contains(other, p) && Contains(cube, p);
        }
      case None =>
        assert !(Contains(other, p) && Contains(cube, p));
    }
  }

  /**
   * Inclusion and exclusion at every cube: the signed cuboids of
   * `matching_cubes` that hold a cube weigh 1 if the steps leave it on and 0
   * if they leave it off.
   */
  lemma {:induction false} MatchingWeighs(steps: seq<Cuboid>, p: Point)
    ensures Weight(Matching(steps), p) == if IsOn(steps, p) then 1 else 0
    decreases |steps|
  {
    if steps != [] {
      var front, cube := steps[..|steps| - 1], steps[|steps| - 1];
      var counted := Matching(front);
      MatchingWeighs(front, p);
      var own: seq<Cuboid> := if cube.instruction == On then [cube] else [];
      WeightAppend(counted + own, Intersections(counted, cube), p);
      WeightAppend(counted, own, p);
      WeightIntersections(counted, cube, p);
      if cube.instruction == On {
        assert Weight(own, p) == Cover(cube, p) by { assert own[..0] == []; }
      }
    }
  }

  /** Every cuboid counted for proper steps inside a region is proper and inside the region too. */
  lemma {:induction false} MatchingInside(steps: seq<Cuboid>, r: Cuboid)
    requires forall k :: 0 <= k < |steps| ==> Proper(steps[k]) && Inside(steps[k], r)
    ensures forall k :: 0 <= k < |Matching(steps)| ==> Proper(Matching(steps)[k]) && Inside(Matching(steps)[k], r)
    decreases |steps|
  {
    if steps != [] {
      var front, cube := steps[..|steps| - 1], steps[|steps| - 1];
      MatchingInside(front, r);
      IntersectionsInside(Matching(front), cube);
    }
  }

  lemma {:induction false} IntersectionsInside(counted: seq<Cuboid>, cube: Cuboid)
    ensures forall k :: 0 <= k < |Intersections(counted, cube)| ==>
      Proper(Intersections(counted, cube)[k]) && Inside(Intersections(counted, cube)[k], cube)
    decreases |counted|
  {
    if counted != [] {
      IntersectionsInside(counted[..|counted| - 1], cube);
    }
  }

  /** Summed over a region around them, the weights of proper cuboids add up to their signed volume. */
  lemma {:induction false} WeightsSum(cuboids: seq<Cuboid>, r: Cuboid)
    requires forall k :: 0 <= k < |cuboids| ==> Proper(cuboids[k]) && Inside(cuboids[k], r)
    ensures SumOver(WeightOf(cuboids), r) == SignedVolume(cuboids)
    decreases |cuboids|
  {
    if cuboids == [] {
      ZeroSum(WeightOf(cuboids), r);
    } else {
      var front, c := cuboids[..|cuboids| - 1], cuboids[|cuboids| - 1];
      WeightsSum(front, r);
      SumOverAdd(WeightOf(front), CoverOf(c), WeightOf(cuboids), r);
      AreaCounts(c, r);
    }
  }

  lemma ZeroSum(zero: Point -> int, r: Cuboid)
    requires forall p :: zero(p) == 0
    ensures SumOver(zero, r) == 0
  {
    SumOverAdd(zero, zero, zero, r);
  }

  /**
   * The signed volume of `matching_cubes` is the number of cubes left on,
   * counted over any region that holds every step's cuboid.
   */
  lemma CountsCubesOn(steps: seq<Cuboid>, r: Cuboid)
    requires forall k :: 0 <= k < |steps| ==> Proper(steps[k]) && Inside(steps[k], r)
    ensures SignedVolume(Matching(steps)) == CubesOn(steps, r)
  {
    MatchingInside(steps, r);
    WeightsSum(Matching(steps), r);
    forall p
      ensures WeightOf(Matching(steps))(p) == OnOf(steps)(p)
    {
      MatchingWeighs(steps, p);
    }
    SumOverSame(WeightOf(Matching(steps)), OnOf(steps), r);
  }

  /** The steps a limit admits, in order. */
  function Limited(steps: seq<Cuboid>, limit: Option<(int, int)>): (r: seq<Cuboid>)
    ensures |r| <= |steps|
    ensures forall k :: 0 <= k < |r| ==> InLimit(r[k], limit) && r[k] in steps
  {
    if steps == [] then []
    else
      var init := Limited(steps[..|steps| - 1], limit);
      if InLimit(steps[|steps| - 1], limit) then init + [steps[|steps| - 1]] else init
  }

  /** The `filter(|c| c.in_limit(&limit))` of `on_cubes_count`. */
  method KeepInLimit(steps: seq<Cuboid>, limit: Option<(int, int)>) returns (kept: seq<Cuboid>)
    ensures kept == Limited(steps, limit)
  {
    kept := [];
    for i := 0 to |steps|
      invariant kept == Limited(steps[..i], limit)
    {
      assert steps[..i + 1][..i] == steps[..i];
      if InLimit(steps[i], limit) {
        kept := kept + [steps[i]];
      }
    }
    assert steps[..|steps|] == steps;
  }

  /** The inner loop of `on_cubes_count`: `new_intersects` for one step. */
  method IntersectAll(matching: seq<Cuboid>, cube: Cuboid) returns (newIntersects: seq<Cuboid>)
    ensures newIntersects == Intersections(matching, cube)
  {
    newIntersects := [];
    for j := 0 to |matching|
      invariant newIntersects == Intersections(matching[..j], cube)
    {
      assert matching[..j + 1][..j] == matching[..j];
      var c := Intersect(matching[j], cube);
      if c.Some? {
        newIntersects := newIntersects + [c.value];
      }
    }
    assert matching[..|matching|] == matching;
  }

  /** `matching_cubes.iter().map(RebootCuboid::area).sum()`. */
  method SumAreas(matching: seq<Cuboid>) returns (total: int)
    ensures total == SignedVolume(matching)
  {
    total := 0;
    for i := 0 to |matching|
      invariant total == SignedVolume(matching[..i])
    {
      assert matching[..i + 1][..i] == matching[..i];
      total := total + Area(matching[i]);
    }
    assert matching[..|matching|] == matching;
  }

  /**
   * `on_cubes_count`: with a limit, the count for the steps the limit admits;
   * without one, the signed volume of `matching_cubes` built step by step.
   */
  method OnCubesCount(steps: seq<Cuboid>, limit: Option<(int, int)>) returns (count: int)
    ensures count == SignedVolume(Matching(Limited(steps, limit)))
    decreases if limit.Some? then 1 else 0
  {
    if limit.Some? {
      var limited := KeepInLimit(steps, limit);
      count := OnCubesCount(limited, None);
      LimitedAll(limited);
      return;
    }
    var matching: seq<Cuboid> := [];
    for i := 0 to |steps|
      invariant matching == Matching(steps[..i])
    {
      assert steps[..i + 1][..i] == steps[..i];
      var cube := steps[i];
      var newIntersects := IntersectAll(matching, cube);
      if cube.instruction == On {
        matching := matching + [cube];
      }
      matching := matching + newIntersects;
    }
    assert steps[..|steps|] == steps;
    LimitedAll(steps);
    count := SumAreas(matching);
  }

  /** Without a limit every step is kept. */
  lemma {:induction false} LimitedAll(steps: seq<Cuboid>)
    ensures Limited(steps, None) == steps
  {
    if steps != [] {
      LimitedAll(steps[..|steps| - 1]);
    }
  }

  /**
   * What the program counts: without a limit, the cubes left on by all the
   * steps; with a limit, the cubes left on by the steps whose cuboid lies
   * entirely within the limit's cube.
   */
  lemma OnCubesCountMeaning(steps: seq<Cuboid>, limit: Option<(int, int)>, r: Cuboid, count: int)
    requires forall k :: 0 <= k < |steps| ==> Proper(steps[k]) && Inside(steps[k], r)
    requires limit.Some? ==> r == LimitCube(limit.value.0, limit.value.1)
    requires count == SignedVolume(Matching(Limited(steps, limit)))
    ensures count == CubesOn(Limited(steps, limit), r)
  {
    var kept := Limited(steps, limit);
    forall k | 0 <= k < |kept|
      ensures Proper(kept[k]) && Inside(kept[k], r)
    {
      var c := kept[k];
      assert c in steps;
      var i :| 0 <= i < |steps| && steps[i] == c;
      if limit.Some? {
        InLimitCubes(c, limit.value.0, limit.value.1);
      }
    }
    CountsCubesOn(kept, r);
  }

  // The limited count as evidently intended

  /** The part of a step's cuboid within the limit's cube, keeping its instruction. */
  function Clip(c: Cuboid, min: int, max: int): Option<Cuboid>
  {
    match Intersect(c, LimitCube(min, max))
    case None => None
    case Some(d) => Some(d.(instruction := c.instruction))
  }

  /** Every step clipped to the limit's cube, dropping those entirely outside it. */
  function Clipped(steps: seq<Cuboid>, min: int, max: int): (r: seq<Cuboid>)
    ensures forall k :: 0 <= k < |r| ==> Proper(r[k]) && Inside(r[k], LimitCube(min, max))
  {
    if steps == [] then []
    else
      var init := Clipped(steps[..|steps| - 1], min, max);
      match Clip(steps[|steps| - 1], min, max)
      case None => init
      case Some(c) => init + [c]
  }

  /** Inside the limit's cube, the clipped steps turn every cube on or off as the steps themselves do. */
  lemma {:induction false} ClippedSame(steps: seq<Cuboid>, min: int, max: int, p: Point)
    requires Contains(LimitCube(min, max), p)
    ensures IsOn(Clipped(steps, min, max), p) == IsOn(steps, p)
    decreases |steps|
  {
    if steps != [] {
      var front, c := steps[..|steps| - 1], steps[|steps| - 1];
      ClippedSame(front, min, max, p);
      var init := Clipped(front, min, max);
      match Clip(c, min, max)
      case None =>
        assert !Contains(c, p);
      case Some(d) =>
        assert (init + [d])[..|init|] == init;
    }
  }

  /**
   * The count over the limit's cube as the puzzle asks for it: every step is
   * clipped to the cube instead of dropped when it reaches outside.
   */
  function OnCubesCountClipped(steps: seq<Cuboid>, min: int, max: int): int
  {
    SignedVolume(Matching(Clipped(steps, min, max)))
  }

  /** The clipped count is the number of cubes of the limit's cube that all the steps leave on. */
  lemma ClippedCountsCubesOn(steps: seq<Cuboid>, min: int, max: int)
    ensures OnCubesCountClipped(steps, min, max) == CubesOn(steps, LimitCube(min, max))
  {
    var r := LimitCube(min, max);
    CountsCubesOn(Clipped(steps, min, max), r);
    forall p | Contains(r, p)
      ensures OnOf(Clipped(steps, min, max))(p) == OnOf(steps)(p)
    {
      ClippedSame(steps, min, max, p);
    }
    SumOverSame(OnOf(Clipped(steps, min, max)), OnOf(steps), r);
  }

  /**
   * A step reaching one cube past the limit is dropped whole by the program:
   * turning on x = 0..=51 of the line y = z = 0 counts 0 cubes within
   * -50..=50, where 51 of them lie in that cube and are on.
   */
  lemma StraddlingStepDropped()
    ensures var steps := [Cuboid(0, 51, 0, 0, 0, 0, On)];
      SignedVolume(Matching(Limited(steps, Some((-50, 50))))) == 0
      && OnCubesCountClipped(steps, -50, 50) == 51
  {
    var steps := [Cuboid(0, 51, 0, 0, 0, 0, On)];
    assert Limited(steps, Some((-50, 50))) == [] by {
      assert steps[..0] == [];
    }
    var clipped := Cuboid(0, 50, 0, 0, 0, 0, On);
    assert Clipped(steps, -50, 50) == [clipped] by {
      assert steps[..0] == [];
    }
    assert Matching([clipped]) == [clipped] by {
      assert [clipped][..0] == [];
    }
    assert SignedVolume([clipped]) == 51 by {
      assert [clipped][..0] == [];
    }
  }

  // Parsing

  datatype ParseError =
    | MissingCuboid        // no space after the instruction
    | UnknownInstruction   // an instruction other than "on" and "off"
    | MissingDimension     // fewer than three comma-separated ranges
    | MissingAxis          // a range without "x=", "y=" or "z="
    | InvalidNumber        // a bound that is not an `isize`
    | MissingEnd           // a range without "..": `unwrap` panics in the program

  /** The range after its "x=", "y=" or "z=" prefix, whichever it has. */
  function StripAxis(piece: string): (r: Option<string>)
    ensures r.None? <==> !("x=" <= piece || "y=" <= piece || "z=" <= piece)
    ensures r.Some? ==> piece == piece[..2] + r.value
  {
    if "x=" <= piece then StripPrefix(piece, "x=")
    else if "y=" <= piece then StripPrefix(piece, "y=")
    else StripPrefix(piece, "z=")
  }

  /** Two `isize` bounds separated by "..", the first read before the second is looked for. */
  function ParseBounds(dim: string): (r: Result<(int, int), ParseError>)
    ensures r.Ok? ==> I64_MIN <= r.value.0 <= I64_MAX && I64_MIN <= r.value.1 <= I64_MAX
    ensures r.Ok? <==> (|Split(dim, "..")| >= 2
      && ParseSigned(Split(dim, "..")[0], I64_MIN, I64_MAX).Some?
      && ParseSigned(Split(dim, "..")[1], I64_MIN, I64_MAX).Some?)
  {
    var bounds := Split(dim, "..");
    match ParseSigned(bounds[0], I64_MIN, I64_MAX)
    case None => Err(InvalidNumber)
    case Some(first) =>
      if |bounds| < 2 then Err(MissingEnd)
      else match ParseSigned(bounds[1], I64_MIN, I64_MAX)
        case None => Err(InvalidNumber)
        case Some(second) => Ok((first, second))
  }

  /** `parse_dim`: "x=", "y=" or "z=" and two `isize` bounds separated by "..". */
  function ParseDim(piece: string): Result<(int, int), ParseError>
  {
    match StripAxis(piece)
    case None => Err(MissingAxis)
    case Some(dim) => ParseBounds(dim)
  }

  /** The k-th range of the cuboid, an error when there are not that many. */
  function DimAt(dims: seq<string>, k: nat): Result<(int, int), ParseError>
  {
    if |dims| <= k then Err(MissingDimension) else ParseDim(dims[k])
  }

  /** The instruction word and the three ranges of a step, the first failure being the error. */
  function ParseStep(word: string, dims: seq<string>): (r: Result<Cuboid, ParseError>)
    ensures r.Ok? ==> (word == "on" || word == "off") && r.value.instruction == (if word == "on" then On else Off)
    ensures r.Ok? ==> (|dims| >= 3
      && ParseDim(dims[0]) == Ok((r.value.x0, r.value.x1))
      && ParseDim(dims[1]) == Ok((r.value.y0, r.value.y1))
      && ParseDim(dims[2]) == Ok((r.value.z0, r.value.z1)))
    ensures word != "on" && word != "off" ==> r == Err(UnknownInstruction)
  {
    var instruction := if word == "on" then Some(On) else if word == "off" then Some(Off) else None;
    match instruction
    case None => Err(UnknownInstruction)
    case Some(i) =>
      match DimAt(dims, 0)
      case Err(e) => Err(e)
      case Ok((x0, x1)) =>
        match DimAt(dims, 1)
        case Err(e) => Err(e)
        case Ok((y0, y1)) =>
          match DimAt(dims, 2)
          case Err(e) => Err(e)
          case Ok((z0, z1)) => Ok(Cuboid(x0, x1, y0, y1, z0, z1, i))
  }

  /**
   * `RebootCuboid::from_str`: an instruction and a cuboid separated by a
   * space, the cuboid being three comma-separated ranges; a missing cuboid
   * is noticed before the instruction is checked.
   */
  function ParseCuboid(s: string): Result<Cuboid, ParseError>
  {
    var pieces := Split(s, " ");
    if |pieces| < 2 then Err(MissingCuboid) else ParseStep(pieces[0], Split(pieces[1], ","))
  }

  /** `RebootManual::from_str`: every line's cuboid, or the error of the first line that fails. */
  function ParseManual(lines: seq<string>): (r: Result<seq<Cuboid>, ParseError>)
    ensures r.Ok? <==> forall k :: 0 <= k < |lines| ==> ParseCuboid(lines[k]).Ok?
    ensures r.Ok? ==> |r.value| == |lines| && forall k :: 0 <= k < |lines| ==> ParseCuboid(lines[k]) == Ok(r.value[k])
    ensures r.Err? ==> exists k :: (0 <= k < |lines| && ParseCuboid(lines[k]) == Err(r.error)
      && forall j :: 0 <= j < k ==> ParseCuboid(lines[j]).Ok?)
  {
    var rs := seq(|lines|, k requires 0 <= k < |lines| => ParseCuboid(lines[k]));
    var r := Collect(rs);
    assert forall k :: 0 <= k < |lines| ==> rs[k] == ParseCuboid(lines[k]);
    r
  }

  // Writing a step back

  /** The text of an `isize` has none of the separators the parser splits at. */
  lemma SignedTextFree(v: int, ch: char)
    requires ch == '.' || ch == ',' || ch == ' '
    ensures !(ch in SignedText(v))
  {
    var r := SignedText(v);
    assert forall i :: 0 <= i < |r| ==> r[i] != ch;
  }

  /** A range as the puzzle writes it, "x=10..12". */
  function RangeText(axis: char, lo: int, hi: int): string
  {
    [axis, '='] + SignedText(lo) + ".." + SignedText(hi)
  }

  /** A step as the puzzle writes it: "on x=10..12,y=10..12,z=10..12". */
  function CuboidText(c: Cuboid): string
  {
    InstructionText(c.instruction) + " "
    + RangeText('x', c.x0, c.x1) + "," + RangeText('y', c.y0, c.y1) + "," + RangeText('z', c.z0, c.z1)
  }

  predicate Representable(c: Cuboid)
  {
    I64_MIN <= c.x0 <= I64_MAX && I64_MIN <= c.x1 <= I64_MAX && I64_MIN <= c.y0 <= I64_MAX
    && I64_MIN <= c.y1 <= I64_MAX && I64_MIN <= c.z0 <= I64_MAX && I64_MIN <= c.z1 <= I64_MAX
  }

  lemma StripAxisText(axis: char, rest: string)
    requires axis == 'x' || axis == 'y' || axis == 'z'
    ensures StripAxis([axis, '='] + rest) == Some(rest)
  {
    var s := [axis, '='] + rest;
    assert s[..2] == [axis, '='];
    assert s[0] == axis;
    if axis == 'x' {
      assert "x=" <= s;
    } else if axis == 'y' {
      assert !("x=" <= s) && "y=" <= s;
    } else {
      assert !("x=" <= s) && !("y=" <= s) && "z=" <= s;
    }
  }

  lemma BoundsText(lo: int, hi: int)
    requires I64_MIN <= lo <= I64_MAX && I64_MIN <= hi <= I64_MAX
    ensures ParseBounds(SignedText(lo) + ".." + SignedText(hi)) == Ok((lo, hi))
  {
    SignedTextFree(lo, '.');
    SignedTextFree(hi, '.');
    SplitTwo(SignedText(lo), "..", SignedText(hi));
    ParseSignedText(lo);
    ParseSignedText(hi);
  }

  lemma RangeRoundTrip(axis: char, lo: int, hi: int)
    requires axis == 'x' || axis == 'y' || axis == 'z'
    requires I64_MIN <= lo <= I64_MAX && I64_MIN <= hi <= I64_MAX
    ensures ParseDim(RangeText(axis, lo, hi)) == Ok((lo, hi))
  {
    var rest := SignedText(lo) + ".." + SignedText(hi);
    assert RangeText(axis, lo, hi) == [axis, '='] + rest;
    StripAxisText(axis, rest);
    BoundsText(lo, hi);
  }

  lemma RangeTextFree(axis: char, lo: int, hi: int, ch: char)
    requires ch == ',' || ch == ' '
    requires axis != ch
    ensures !(ch in RangeText(axis, lo, hi))
  {
    var a, b := SignedText(lo), SignedText(hi);
    SignedTextFree(lo, ch);
    SignedTextFree(hi, ch);
    assert RangeText(axis, lo, hi) == [axis, '='] + a + ".." + b;
    assert !(ch in a) && !(ch in b);
  }

  function InstructionText(i: Instruction): string
  {
    if i == On then "on" else "off"
  }

  lemma StepRoundTrip(c: Cuboid)
    requires Representable(c)
    ensures ParseStep(InstructionText(c.instruction),
      [RangeText('x', c.x0, c.x1), RangeText('y', c.y0, c.y1), RangeText('z', c.z0, c.z1)]) == Ok(c)
  {
    RangeRoundTrip('x', c.x0, c.x1);
    RangeRoundTrip('y', c.y0, c.y1);
    RangeRoundTrip('z', c.z0, c.z1);
  }

  lemma ThreeRanges(rx: string, ry: string, rz: string)
    requires !(',' in rx) && !(',' in ry) && !(',' in rz)
    requires !(' ' in rx) && !(' ' in ry) && !(' ' in rz)
    ensures Split(rx + "," + ry + "," + rz, ",") == [rx, ry, rz]
    ensures !(' ' in rx + "," + ry + "," + rz)
  {
    var body := Join([rx, ry, rz], ",");
    assert body == rx + "," + ry + "," + rz by {
      assert [rx, ry, rz][1..] == [ry, rz];
      assert [ry, rz][1..] == [rz];
      assert Join([ry, rz], ",") == ry + "," + rz;
      assert body == rx + "," + (ry + "," + rz);
    }
    JoinFree([rx, ry, rz], ",", ' ');
    JoinSplit([rx, ry, rz], ",");
  }

  lemma CuboidPieces(c: Cuboid)
    ensures var dims := [RangeText('x', c.x0, c.x1), RangeText('y', c.y0, c.y1), RangeText('z', c.z0, c.z1)];
      var pieces := Split(CuboidText(c), " ");
      |pieces| == 2 && pieces[0] == InstructionText(c.instruction) && Split(pieces[1], ",") == dims
  {
    RangeTextFree('x', c.x0, c.x1, ','); RangeTextFree('x', c.x0, c.x1, ' ');
    RangeTextFree('y', c.y0, c.y1, ','); RangeTextFree('y', c.y0, c.y1, ' ');
    RangeTextFree('z', c.z0, c.z1, ','); RangeTextFree('z', c.z0, c.z1, ' ');
    TextPieces(InstructionText(c.instruction), RangeText('x', c.x0, c.x1), RangeText('y', c.y0, c.y1),
      RangeText('z', c.z0, c.z1));
  }

  /** A word, a space and three comma-separated fields split back into the word and the fields. */
  lemma TextPieces(head: string, rx: string, ry: string, rz: string)
    requires !(' ' in head)
    requires !(',' in rx) && !(',' in ry) && !(',' in rz)
    requires !(' ' in rx) && !(' ' in ry) && !(' ' in rz)
    ensures var pieces := Split(head + " " + rx + "," + ry + "," + rz, " ");
      |pieces| == 2 && pieces[0] == head && Split(pieces[1], ",") == [rx, ry, rz]
  {
    var body := rx + "," + ry + "," + rz;
    ThreeRanges(rx, ry, rz);
    assert head + " " + rx + "," + ry + "," + rz == head + " " + body;
    SplitTwo(head, " ", body);
  }

  /** Reading a step written out gives it back. */
  lemma CuboidRoundTrip(c: Cuboid)
    requires Representable(c)
    ensures ParseCuboid(CuboidText(c)) == Ok(c)
  {
    CuboidPieces(c);
    StepRoundTrip(c);
  }
}
