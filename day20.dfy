/**
 * Trench map (day 20): an image enhancement algorithm of 512 bits maps every
 * 3 x 3 window of an infinite image, read as a 9-bit number, to the centre's
 * new value.  The image keeps the lit pixels only; every pixel outside their
 * bounding box counts as lit after an odd number of steps when the
 * algorithm's bit 0 is set (the background flips), and as dark otherwise.
 */
module Day20 {
  import opened Common
  import opened Text

  type Point = (int, int)

  datatype Axis = X | Y

  function Coord(p: Point, axis: Axis): int
  {
    if axis == X then p.0 else p.1
  }

  /** The bounding box of the lit pixels, both ends inclusive. */
  datatype Box = Box(minX: int, maxX: int, minY: int, maxY: int)

  /** lo and hi are the least and the greatest coordinate along `axis` of the points. */
  ghost predicate IsExtent(data: set<Point>, axis: Axis, lo: int, hi: int)
  {
    (forall p :: p in data ==> lo <= Coord(p, axis) <= hi)
    && (exists p :: p in data && Coord(p, axis) == lo)
    && (exists p :: p in data && Coord(p, axis) == hi)
  }

  ghost predicate IsBox(data: set<Point>, b: Box)
  {
    IsExtent(data, X, b.minX, b.maxX) && IsExtent(data, Y, b.minY, b.maxY)
  }

  /** Every non-empty set of points has an extent along each axis. */
  lemma {:induction false} ExtentExists(data: set<Point>, axis: Axis) returns (lo: int, hi: int)
    requires data != {}
    ensures IsExtent(data, axis, lo, hi)
    decreases |data|
  {
    var p :| p in data;
    if data == {p} {
      lo, hi := Coord(p, axis), Coord(p, axis);
    } else {
      var l, h := ExtentExists(data - {p}, axis);
      lo, hi := Min(l, Coord(p, axis)), Max(h, Coord(p, axis));
      var pl :| pl in data - {p} && Coord(pl, axis) == l;
      var ph :| ph in data - {p} && Coord(ph, axis) == h;
      assert Coord(if l <= Coord(p, axis) then pl else p, axis) == lo;
      assert Coord(if h <= Coord(p, axis) then p else ph, axis) == hi;
    }
  }

  /** The bounding box of a non-empty image: it exists and is unique. */
  ghost function BoxOf(data: set<Point>): (b: Box)
    requires data != {}
    ensures IsBox(data, b)
  {
    BoxExists(data);
    var b :| IsBox(data, b); b
  }

  lemma BoxExists(data: set<Point>)
    requires data != {}
    ensures exists b :: IsBox(data, b)
  {
    var minX, maxX := ExtentExists(data, X);
    var minY, maxY := ExtentExists(data, Y);
    assert IsBox(data, Box(minX, maxX, minY, maxY));
  }

  lemma BoxUnique(data: set<Point>, b: Box, c: Box)
    requires IsBox(data, b) && IsBox(data, c)
    ensures b == c
  {
    var p :| p in data && p.0 == b.minX;
    var q :| q in data && q.0 == c.minX;
    var r :| r in data && r.0 == b.maxX;
    var s :| s in data && s.0 == c.maxX;
    var t :| t in data && t.1 == b.minY;
    var u :| u in data && u.1 == c.minY;
    var v :| v in data && v.1 == b.maxY;
    var w :| w in data && w.1 == c.maxY;
  }

  predicate InBox(b: Box, x: int, y: int)
  {
    b.minX <= x <= b.maxX && b.minY <= y <= b.maxY
  }

  /** The value of the background after `step` steps: `step & 1 & algorithm[0]`. */
  function Background(algorithm: seq<nat>, step: nat): (r: nat)
    requires |algorithm| == 512
    ensures r <= 1 && (r == 1 <==> step % 2 == 1 && algorithm[0] % 2 == 1)
  {
    if step % 2 == 1 && algorithm[0] % 2 == 1 then 1 else 0
  }

  /** `pixel`: 1 for a lit pixel of the box, the background outside it. */
  function Pixel(algorithm: seq<nat>, data: set<Point>, step: nat, b: Box, x: int, y: int): (r: nat)
    requires |algorithm| == 512
    ensures r <= 1
    ensures InBox(b, x, y) ==> (r == 1 <==> (x, y) in data)
    ensures !InBox(b, x, y) ==> r == Background(algorithm, step)
  {
    if !(b.minX <= x <= b.maxX) || !(b.minY <= y <= b.maxY) then Background(algorithm, step)
    else if (x, y) in data then 1 else 0
  }

  /** The 3 x 3 window around (x, y), row by row from the top left. */
  function Window(algorithm: seq<nat>, data: set<Point>, step: nat, b: Box, x: int, y: int): (w: seq<nat>)
    requires |algorithm| == 512
    ensures |w| == 9 && forall k :: 0 <= k < 9 ==> w[k] <= 1
  {
    [Pixel(algorithm, data, step, b, x - 1, y - 1), Pixel(algorithm, data, step, b, x, y - 1), Pixel(algorithm, data, step, b, x + 1, y - 1),
     Pixel(algorithm, data, step, b, x - 1, y), Pixel(algorithm, data, step, b, x, y), Pixel(algorithm, data, step, b, x + 1, y),
     Pixel(algorithm, data, step, b, x - 1, y + 1), Pixel(algorithm, data, step, b, x, y + 1), Pixel(algorithm, data, step, b, x + 1, y + 1)]
  }

  /** The index `convolve` computes: the window's pixels weighted 256 down to 1. */
  function Index(algorithm: seq<nat>, data: set<Point>, step: nat, b: Box, x: int, y: int): (i: nat)
    requires |algorithm| == 512
  {
    Pixel(algorithm, data, step, b, x - 1, y - 1) * 256
    + Pixel(algorithm, data, step, b, x, y - 1) * 128
    + Pixel(algorithm, data, step, b, x + 1, y - 1) * 64
    + Pixel(algorithm, data, step, b, x - 1, y) * 32
    + Pixel(algorithm, data, step, b, x, y) * 16
    + Pixel(algorithm, data, step, b, x + 1, y) * 8
    + Pixel(algorithm, data, step, b, x - 1, y + 1) * 4
    + Pixel(algorithm, data, step, b, x, y + 1) * 2
    + Pixel(algorithm, data, step, b, x + 1, y + 1)
  }

  /** A sequence of bits read as a binary number, most significant first. */
  function FromBits(bits: seq<nat>): nat
  {
    if bits == [] then 0 else FromBits(bits[..|bits| - 1]) * 2 + bits[|bits| - 1]
  }

  /** The k lowest binary digits of n, most significant first. */
  function ToBits(n: nat, k: nat): (r: seq<nat>)
    ensures |r| == k
  {
    if k == 0 then [] else ToBits(n / 2, k - 1) + [n % 2]
  }

  /** Reading k bits gives a number below 2^k, and writing it back in k bits gives the bits. */
  lemma {:induction false} BitsRoundTrip(bits: seq<nat>)
    requires forall k :: 0 <= k < |bits| ==> bits[k] <= 1
    ensures FromBits(bits) < Pow2(|bits|)
    ensures ToBits(FromBits(bits), |bits|) == bits
  {
    if bits != [] {
      var front := bits[..|bits| - 1];
      BitsRoundTrip(front);
      var n := FromBits(bits);
      assert n / 2 == FromBits(front) && n % 2 == bits[|bits| - 1];
      assert front + [bits[|bits| - 1]] == bits;
    }
  }

  /** Nine bits read most significant first weigh 256 down to 1. */
  lemma FromBitsNine(w: seq<nat>)
    requires |w| == 9
    ensures FromBits(w) == w[0] * 256 + w[1] * 128 + w[2] * 64 + w[3] * 32 + w[4] * 16 + w[5] * 8 + w[6] * 4 + w[7] * 2 + w[8]
  {
    FromBitsFive(w);
    var v5 := FromBits(w[..5]);
    FromBitsPrefix(w, 5);
    var v6 := FromBits(w[..6]);
    FromBitsPrefix(w, 6);
    var v7 := FromBits(w[..7]);
    FromBitsPrefix(w, 7);
    var v8 := FromBits(w[..8]);
    FromBitsPrefix(w, 8);
    assert w[..9] == w;
  }

  /** The first five bits weigh 16 down to 1. */
  lemma FromBitsFive(w: seq<nat>)
    requires |w| >= 5
    ensures FromBits(w[..5]) == w[0] * 16 + w[1] * 8 + w[2] * 4 + w[3] * 2 + w[4]
  {
    FromBitsPrefix(w, 0);
    assert w[..0] == [];
    FromBitsPrefix(w, 1);
    FromBitsPrefix(w, 2);
    FromBitsPrefix(w, 3);
    FromBitsPrefix(w, 4);
  }

  /** Reading one more bit doubles the value read so far and adds the bit. */
  lemma FromBitsPrefix(w: seq<nat>, k: nat)
    requires k < |w|
    ensures FromBits(w[..k + 1]) == FromBits(w[..k]) * 2 + w[k]
  {
    assert w[..k + 1][..k] == w[..k];
  }

  /**
   * The index of a window is the window read as a 9-bit number: it lies in
   * 0..511 and its binary digits are the window's pixels.
   */
  lemma IndexIsWindow(algorithm: seq<nat>, data: set<Point>, step: nat, b: Box, x: int, y: int)
    requires |algorithm| == 512
    ensures var w := Window(algorithm, data, step, b, x, y);
      Index(algorithm, data, step, b, x, y) == FromBits(w)
      && Index(algorithm, data, step, b, x, y) < 512
      && ToBits(Index(algorithm, data, step, b, x, y), 9) == w
  {
    var w := Window(algorithm, data, step, b, x, y);
    FromBitsNine(w);
    BitsRoundTrip(w);
    assert Pow2(9) == 512;
  }

  /** `convolve`: the algorithm's bit at the window's index. */
  function Convolve(algorithm: seq<nat>, data: set<Point>, step: nat, b: Box, x: int, y: int): nat
    requires |algorithm| == 512
  {
    algorithm[Index(algorithm, data, step, b, x, y)]
  }

  /**
   * A cell further than one from the box sees only background, so its new
   * value is the algorithm's bit 0 or bit 511: the same for every such cell,
   * which is why `enhance` evaluates the grown box only.
   */
  lemma OutsideIsBackground(algorithm: seq<nat>, data: set<Point>, step: nat, b: Box, x: int, y: int)
    requires |algorithm| == 512
    requires !(b.minX - 1 <= x <= b.maxX + 1 && b.minY - 1 <= y <= b.maxY + 1)
    ensures Index(algorithm, data, step, b, x, y) == if Background(algorithm, step) == 1 then 511 else 0
  {
  }

  /** The cells of the box grown by one on each side whose window maps to 1. */
  function Enhanced(algorithm: seq<nat>, data: set<Point>, step: nat, b: Box): set<Point>
    requires |algorithm| == 512
  {
    set x: int, y: int | b.minX - 1 <= x <= b.maxX + 1 && b.minY - 1 <= y <= b.maxY + 1
      && Convolve(algorithm, data, step, b, x, y) == 1 :: (x, y)
  }

  /** The part of `Enhanced` in the columns before `col`, and in column `col` above row `row`. */
  function EnhancedUpTo(algorithm: seq<nat>, data: set<Point>, step: nat, b: Box, col: int, row: int): set<Point>
    requires |algorithm| == 512
  {
    set x: int, y: int | b.minX - 1 <= x <= b.maxX + 1 && b.minY - 1 <= y <= b.maxY + 1
      && (x < col || (x == col && y < row)) && Convolve(algorithm, data, step, b, x, y) == 1 :: (x, y)
  }

  /** A lit cell after a step is one of the grown box whose window maps to 1. */
  lemma EnhancedMeaning(algorithm: seq<nat>, data: set<Point>, step: nat, b: Box, p: Point)
    requires |algorithm| == 512
    ensures p in Enhanced(algorithm, data, step, b) <==>
      b.minX - 1 <= p.0 <= b.maxX + 1 && b.minY - 1 <= p.1 <= b.maxY + 1 && Convolve(algorithm, data, step, b, p.0, p.1) == 1
  {
    if b.minX - 1 <= p.0 <= b.maxX + 1 && b.minY - 1 <= p.1 <= b.maxY + 1 && Convolve(algorithm, data, step, b, p.0, p.1) == 1 {
      assert p == (p.0, p.1);
    }
  }

  lemma EnhancedCell(algorithm: seq<nat>, data: set<Point>, step: nat, b: Box, col: int, row: int)
    requires |algorithm| == 512 && b.minX - 1 <= col <= b.maxX + 1 && b.minY - 1 <= row <= b.maxY + 1
    ensures EnhancedUpTo(algorithm, data, step, b, col, row + 1)
      == EnhancedUpTo(algorithm, data, step, b, col, row) + (if Convolve(algorithm, data, step, b, col, row) == 1 then {(col, row)} else {})
  {
  }

  lemma EnhancedColumn(algorithm: seq<nat>, data: set<Point>, step: nat, b: Box, col: int)
    requires |algorithm| == 512
    ensures EnhancedUpTo(algorithm, data, step, b, col, b.maxY + 2) == EnhancedUpTo(algorithm, data, step, b, col + 1, b.minY - 1)
  {
  }

  lemma EnhancedAll(algorithm: seq<nat>, data: set<Point>, step: nat, b: Box)
    requires |algorithm| == 512
    ensures EnhancedUpTo(algorithm, data, step, b, b.maxX + 2, b.minY - 1) == Enhanced(algorithm, data, step, b)
  {
  }

  /** `min_by_key` and `max_by_key` along an axis, in one pass over the points. */
  method Extent(data: set<Point>, axis: Axis) returns (lo: int, hi: int)
    requires data != {}
    ensures IsExtent(data, axis, lo, hi)
  {
    var first :| first in data;
    lo, hi := Coord(first, axis), Coord(first, axis);
    var rest := data - {first};
    while rest != {}
      invariant rest <= data && first !in rest
      invariant IsExtent(data - rest, axis, lo, hi)
      decreases |rest|
    {
      var p :| p in rest;
      ghost var done := data - rest;
      ghost var pl :| pl in done && Coord(pl, axis) == lo;
      ghost var ph :| ph in done && Coord(ph, axis) == hi;
      if Coord(p, axis) < lo {
        lo := Coord(p, axis);
        pl := p;
      }
      if Coord(p, axis) > hi {
        hi := Coord(p, axis);
        ph := p;
      }
      rest := rest - {p};
      assert data - rest == done + {p};
      assert pl in data - rest && ph in data - rest;
    }
    assert data - rest == data;
  }

  class TrenchMap {
    var algorithm: seq<nat>
    var data: set<Point>
    var step: nat

    constructor (algorithm: seq<nat>, data: set<Point>)
      ensures this.algorithm == algorithm && this.data == data && step == 0
    {
      this.algorithm := algorithm;
      this.data := data;
      step := 0;
    }

    /**
     * `enhance`: evaluates every cell of the lit pixels' bounding box grown by
     * one, replaces the lit pixels by the cells that map to 1, counts the step
     * and returns the number of lit pixels.
     */
    method Enhance() returns (lit: nat)
      requires |algorithm| == 512 && data != {}
      modifies this
      ensures algorithm == old(algorithm) && step == old(step) + 1
      ensures data == Enhanced(algorithm, old(data), old(step), BoxOf(old(data)))
      ensures lit == |data|
    {
      var newData: set<Point> := {};
      var algorithm, data, step := this.algorithm, this.data, this.step;
      var minX, maxX := Extent(data, X);
      var minY, maxY := Extent(data, Y);
      var b := Box(minX, maxX, minY, maxY);
      BoxUnique(data, b, BoxOf(data));
      var x := minX - 1;
      while x <= maxX + 1
        invariant minX - 1 <= x <= maxX + 2
        invariant newData == EnhancedUpTo(algorithm, data, step, b, x, minY - 1)
        invariant this.algorithm == algorithm && this.step == step
      {
        var y := minY - 1;
        while y <= maxY + 1
          invariant minY - 1 <= y <= maxY + 2
          invariant newData == EnhancedUpTo(algorithm, data, step, b, x, y)
          invariant this.algorithm == algorithm && this.step == step
        {
          EnhancedCell(algorithm, data, step, b, x, y);
          var pixel := Convolve(algorithm, data, step, b, x, y);
          if pixel == 1 {
            newData := newData + {(x, y)};
          }
          y := y + 1;
        }
        EnhancedColumn(algorithm, data, step, b, x);
        x := x + 1;
      }
      EnhancedAll(algorithm, data, step, b);
      this.data := newData;
      this.step := step + 1;
      lit := |newData|;
    }
  }

  // The infinite image, and an enhancement that tracks it

  predicate Bits(algorithm: seq<nat>)
  {
    |algorithm| == 512 && forall i :: 0 <= i < 512 ==> algorithm[i] <= 1
  }

  /** The value of pixel (x, y) of the infinite image after k enhancements of `image`. */
  ghost function TrueValue(algorithm: seq<nat>, image: set<Point>, k: nat, x: int, y: int): (v: nat)
    requires Bits(algorithm)
    ensures v <= 1
    decreases k, 0
  {
    if k == 0 then (if (x, y) in image then 1 else 0)
    else algorithm[TrueIndex(algorithm, image, k - 1, x, y)]
  }

  /** The window index of (x, y) in the infinite image after k enhancements. */
  ghost function TrueIndex(algorithm: seq<nat>, image: set<Point>, k: nat, x: int, y: int): (i: nat)
    requires Bits(algorithm)
    ensures i < 512
    decreases k, 1
  {
    TrueValue(algorithm, image, k, x - 1, y - 1) * 256
    + TrueValue(algorithm, image, k, x, y - 1) * 128
    + TrueValue(algorithm, image, k, x + 1, y - 1) * 64
    + TrueValue(algorithm, image, k, x - 1, y) * 32
    + TrueValue(algorithm, image, k, x, y) * 16
    + TrueValue(algorithm, image, k, x + 1, y) * 8
    + TrueValue(algorithm, image, k, x - 1, y + 1) * 4
    + TrueValue(algorithm, image, k, x, y + 1) * 2
    + TrueValue(algorithm, image, k, x + 1, y + 1)
  }

  /**
   * A finite picture of an infinite image: the lit pixels inside a region,
   * and one background value for every pixel outside it.
   */
  datatype Image = Image(data: set<Point>, region: Box, background: nat)

  function ImagePixel(img: Image, x: int, y: int): nat
  {
    if InBox(img.region, x, y) then (if (x, y) in img.data then 1 else 0) else img.background
  }

  function ImageIndex(img: Image, x: int, y: int): nat
  {
    ImagePixel(img, x - 1, y - 1) * 256
    + ImagePixel(img, x, y - 1) * 128
    + ImagePixel(img, x + 1, y - 1) * 64
    + ImagePixel(img, x - 1, y) * 32
    + ImagePixel(img, x, y) * 16
    + ImagePixel(img, x + 1, y) * 8
    + ImagePixel(img, x - 1, y + 1) * 4
    + ImagePixel(img, x, y + 1) * 2
    + ImagePixel(img, x + 1, y + 1)
  }

  function Grow(b: Box): Box
  {
    Box(b.minX - 1, b.maxX + 1, b.minY - 1, b.maxY + 1)
  }

  ghost predicate Pictures(algorithm: seq<nat>, image: set<Point>, k: nat, img: Image)
    requires Bits(algorithm)
  {
    img.background <= 1 && forall x: int, y: int :: ImagePixel(img, x, y) == TrueValue(algorithm, image, k, x, y)
  }

  /**
   * `enhance` as intended: the region grows by one on each side whatever is
   * lit, and the background becomes the algorithm's bit for an all-background
   * window.
   */
  function EnhanceIntended(algorithm: seq<nat>, img: Image): (r: Image)
    requires Bits(algorithm) && img.background <= 1
    ensures r.region == Grow(img.region) && r.background <= 1
  {
    var grown := Grow(img.region);
    var data := set x: int, y: int | grown.minX <= x <= grown.maxX && grown.minY <= y <= grown.maxY
      && ImageIndex(img, x, y) < 512 && algorithm[ImageIndex(img, x, y)] == 1 :: (x, y);
    Image(data, grown, algorithm[if img.background == 1 then 511 else 0])
  }

  /** The starting picture: the parsed lit pixels in their bounding box, on a dark background. */
  lemma StartPictures(algorithm: seq<nat>, image: set<Point>)
    requires Bits(algorithm) && image != {}
    ensures Pictures(algorithm, image, 0, Image(image, BoxOf(image), 0))
  {
    var b := BoxOf(image);
    forall x: int, y: int
      ensures ImagePixel(Image(image, b, 0), x, y) == TrueValue(algorithm, image, 0, x, y)
    {
      if (x, y) in image {
        var p := (x, y);
        assert p in image && Coord(p, X) == x && Coord(p, Y) == y;
      }
    }
  }

  /** The window of a pixel is the same in the picture and in the image it pictures. */
  lemma SameIndex(algorithm: seq<nat>, image: set<Point>, k: nat, img: Image, x: int, y: int)
    requires Bits(algorithm) && Pictures(algorithm, image, k, img)
    ensures ImageIndex(img, x, y) == TrueIndex(algorithm, image, k, x, y)
  {
    assert ImagePixel(img, x - 1, y - 1) == TrueValue(algorithm, image, k, x - 1, y - 1);
    assert ImagePixel(img, x, y - 1) == TrueValue(algorithm, image, k, x, y - 1);
    assert ImagePixel(img, x + 1, y - 1) == TrueValue(algorithm, image, k, x + 1, y - 1);
    assert ImagePixel(img, x - 1, y) == TrueValue(algorithm, image, k, x - 1, y);
    assert ImagePixel(img, x, y) == TrueValue(algorithm, image, k, x, y);
    assert ImagePixel(img, x + 1, y) == TrueValue(algorithm, image, k, x + 1, y);
    assert ImagePixel(img, x - 1, y + 1) == TrueValue(algorithm, image, k, x - 1, y + 1);
    assert ImagePixel(img, x, y + 1) == TrueValue(algorithm, image, k, x, y + 1);
    assert ImagePixel(img, x + 1, y + 1) == TrueValue(algorithm, image, k, x + 1, y + 1);
  }

  /** The intended enhancement keeps picturing the infinite image, one step further each time. */
  lemma IntendedTracks(algorithm: seq<nat>, image: set<Point>, k: nat, img: Image)
    requires Bits(algorithm) && Pictures(algorithm, image, k, img)
    ensures Pictures(algorithm, image, k + 1, EnhanceIntended(algorithm, img))
  {
    var next := EnhanceIntended(algorithm, img);
    forall x: int, y: int
      ensures ImagePixel(next, x, y) == TrueValue(algorithm, image, k + 1, x, y)
    {
      SameIndex(algorithm, image, k, img, x, y);
      if !InBox(next.region, x, y) {
        assert ImageIndex(img, x, y) == if img.background == 1 then 511 else 0;
      } else if algorithm[ImageIndex(img, x, y)] == 1 {
        assert (x, y) in next.data;
      }
    }
  }

  /** The algorithm of the counterexample: '#' at indices 0 and 16 only. */
  function FlipAlgorithm(): (r: seq<nat>)
    ensures Bits(r)
  {
    seq(512, i => if i == 0 || i == 16 then 1 else 0)
  }

  /** After one step of the single-pixel image, only the pixel itself is lit inside the grown box. */
  lemma FirstStep()
    ensures Enhanced(FlipAlgorithm(), {(0, 0)}, 0, Box(0, 0, 0, 0)) == {(0, 0)}
  {
    var a, d, b := FlipAlgorithm(), {(0, 0)}, Box(0, 0, 0, 0);
    forall p | p in Enhanced(a, d, 0, b)
      ensures p == (0, 0)
    {
      EnhancedMeaning(a, d, 0, b, p);
      BoxIndex(p.0, p.1);
    }
    EnhancedMeaning(a, d, 0, b, (0, 0));
    BoxIndex(0, 0);
  }

  /** In the box of the single pixel, before any step, only the origin is lit. */
  lemma BoxStart(x: int, y: int)
    ensures Pixel(FlipAlgorithm(), {(0, 0)}, 0, Box(0, 0, 0, 0), x, y) == if x == 0 && y == 0 then 1 else 0
  {
  }

  /** Around the single-pixel box, a window maps to 1 exactly at the origin. */
  lemma BoxIndex(x: int, y: int)
    requires -1 <= x <= 1 && -1 <= y <= 1
    ensures Convolve(FlipAlgorithm(), {(0, 0)}, 0, Box(0, 0, 0, 0), x, y) == if x == 0 && y == 0 then 1 else 0
  {
    var i := Index(FlipAlgorithm(), {(0, 0)}, 0, Box(0, 0, 0, 0), x, y);
    BoxStart(x - 1, y - 1);
    BoxStart(x, y - 1);
    BoxStart(x + 1, y - 1);
    BoxStart(x - 1, y);
    BoxStart(x, y);
    BoxStart(x + 1, y);
    BoxStart(x - 1, y + 1);
    BoxStart(x, y + 1);
    BoxStart(x + 1, y + 1);
    assert i != 0 && (i == 16 <==> x == 0 && y == 0);
    assert FlipAlgorithm()[i] == if i == 0 || i == 16 then 1 else 0;
  }

  /** Before any step, the single-pixel image is lit at the origin only. */
  lemma OriginStart(x: int, y: int)
    ensures TrueValue(FlipAlgorithm(), {(0, 0)}, 0, x, y) == if x == 0 && y == 0 then 1 else 0
  {
  }

  /** Around the origin every window sees the origin once, at the centre only for the origin itself. */
  lemma OriginIndex(x: int, y: int)
    requires -1 <= x <= 1 && -1 <= y <= 1
    ensures var i := TrueIndex(FlipAlgorithm(), {(0, 0)}, 0, x, y); i != 0 && (i == 16 <==> x == 0 && y == 0)
  {
    OriginStart(x - 1, y - 1);
    OriginStart(x, y - 1);
    OriginStart(x + 1, y - 1);
    OriginStart(x - 1, y);
    OriginStart(x, y);
    OriginStart(x + 1, y);
    OriginStart(x - 1, y + 1);
    OriginStart(x, y + 1);
    OriginStart(x + 1, y + 1);
  }

  /** In the infinite image, one step later, the origin is lit and its eight neighbours are dark. */
  lemma TrueFirstStep(x: int, y: int)
    requires -1 <= x <= 1 && -1 <= y <= 1
    ensures TrueValue(FlipAlgorithm(), {(0, 0)}, 1, x, y) == if x == 0 && y == 0 then 1 else 0
  {
    var i := TrueIndex(FlipAlgorithm(), {(0, 0)}, 0, x, y);
    OriginIndex(x, y);
    assert FlipAlgorithm()[i] == if i == 0 || i == 16 then 1 else 0;
  }

  /** The bounding box of the single pixel (0, 0) is that pixel. */
  lemma OriginBox()
    ensures BoxOf({(0, 0)}) == Box(0, 0, 0, 0)
  {
    var p := (0, 0);
    assert p in {(0, 0)} && Coord(p, X) == 0 && Coord(p, Y) == 0;
    assert IsBox({(0, 0)}, Box(0, 0, 0, 0));
    BoxUnique({(0, 0)}, Box(0, 0, 0, 0), BoxOf({(0, 0)}));
  }

  /** On an odd step the background is lit, so the box's own window is all lit and maps to dark. */
  lemma SecondStepDark()
    ensures Enhanced(FlipAlgorithm(), {(0, 0)}, 1, Box(0, 0, 0, 0)) == {}
  {
    var a, d, b := FlipAlgorithm(), {(0, 0)}, Box(0, 0, 0, 0);
    forall q | q in Enhanced(a, d, 1, b)
      ensures false
    {
      EnhancedMeaning(a, d, 1, b, q);
    }
  }

  /** In the infinite image the origin is lit after two steps: its window reads 16 again. */
  lemma TrueSecondStep()
    ensures TrueValue(FlipAlgorithm(), {(0, 0)}, 2, 0, 0) == 1
  {
    TrueFirstStep(-1, -1);
    TrueFirstStep(0, -1);
    TrueFirstStep(1, -1);
    TrueFirstStep(-1, 0);
    TrueFirstStep(0, 0);
    TrueFirstStep(1, 0);
    TrueFirstStep(-1, 1);
    TrueFirstStep(0, 1);
    TrueFirstStep(1, 1);
    assert TrueIndex(FlipAlgorithm(), {(0, 0)}, 1, 0, 0) == 16;
  }

  /**
   * The program misreads a shrunken box: with the algorithm lit at 0 and 16
   * only and the single pixel (0, 0) lit, the first enhancement keeps (0, 0)
   * lit and the box of the lit pixels shrinks back to that pixel, so the
   * second enhancement reads the dark neighbours of (0, 0) as lit background
   * and leaves no pixel lit, while in the infinite image (0, 0) is lit after
   * two steps.
   */
  lemma ShrunkBoxMisread()
    ensures Enhanced(FlipAlgorithm(), {(0, 0)}, 0, BoxOf({(0, 0)})) == {(0, 0)}
    ensures Enhanced(FlipAlgorithm(), {(0, 0)}, 1, BoxOf({(0, 0)})) == {}
    ensures TrueValue(FlipAlgorithm(), {(0, 0)}, 2, 0, 0) == 1
  {
    OriginBox();
    FirstStep();
    SecondStepDark();
    TrueSecondStep();
  }

  // Reading the input

  /**
   * `EnhancementPixel::from_str`: bit i is 1 exactly when character i is '#',
   * and 0 past the end of the line; None where a line longer than 512
   * characters would write past the array.
   */
  method ParseAlgorithm(s: string) returns (r: Option<seq<nat>>)
    ensures r.None? <==> |s| > 512
    ensures r.Some? ==> |r.value| == 512
    ensures r.Some? ==> forall i :: 0 <= i < 512 ==> r.value[i] == (if i < |s| && s[i] == '#' then 1 else 0)
  {
    var algorithm := new nat[512](_ => 0);
    for i := 0 to |s|
      invariant forall k :: 0 <= k < 512 ==> algorithm[k] == (if k < i && s[k] == '#' then 1 else 0)
    {
      if i >= 512 {
        return None;
      }
      algorithm[i] := if s[i] == '#' then 1 else 0;
    }
    return Some(algorithm[..]);
  }

  /** The lit pixels of the lines: (column, row) of every '#'. */
  function Lit(lines: seq<string>, row: nat, col: nat): set<Point>
  {
    set j: nat, i: nat | j < |lines| && i < |lines[j]| && (j < row || (j == row && i < col)) && lines[j][i] == '#' :: (i as int, j as int)
  }

  /** The image holds a point exactly when its line has '#' at its column. */
  lemma LitMeaning(lines: seq<string>, p: Point)
    ensures p in Lit(lines, |lines|, 0) <==>
      0 <= p.1 < |lines| && 0 <= p.0 < |lines[p.1]| && lines[p.1][p.0] == '#'
  {
    if 0 <= p.1 < |lines| && 0 <= p.0 < |lines[p.1]| && lines[p.1][p.0] == '#' {
      assert p == (p.0 as nat as int, p.1 as nat as int);
    }
  }

  lemma LitCell(lines: seq<string>, row: nat, col: nat)
    requires row < |lines| && col < |lines[row]|
    ensures Lit(lines, row, col + 1) == Lit(lines, row, col) + (if lines[row][col] == '#' then {(col as int, row as int)} else {})
  {
  }

  lemma LitRow(lines: seq<string>, row: nat)
    requires row < |lines|
    ensures Lit(lines, row + 1, 0) == Lit(lines, row, |lines[row]|)
  {
  }

  /** `InputImage::from_str` on the image's lines. */
  method ParseImage(lines: seq<string>) returns (data: set<Point>)
    ensures data == Lit(lines, |lines|, 0)
  {
    data := {};
    for y := 0 to |lines|
      invariant data == Lit(lines, y, 0)
    {
      var l := lines[y];
      for x := 0 to |l|
        invariant data == Lit(lines, y, x)
      {
        LitCell(lines, y, x);
        if l[x] == '#' {
          data := data + {(x, y)};
        }
      }
      LitRow(lines, y);
    }
  }

  /**
   * `TrenchMap::from_str`: the first line is the algorithm, the second is
   * skipped, the rest is the image; None where the program panics (fewer than
   * two lines, or an algorithm line over 512 characters).
   */
  method ParseTrenchMap(s: string) returns (r: Option<TrenchMap>)
    ensures r.None? <==> |Lines(s)| < 2 || |Lines(s)[0]| > 512
    ensures r.Some? ==> fresh(r.value) && r.value.step == 0 && |r.value.algorithm| == 512
    ensures r.Some? ==> forall i :: 0 <= i < 512 ==>
      r.value.algorithm[i] == (if i < |Lines(s)[0]| && Lines(s)[0][i] == '#' then 1 else 0)
    ensures r.Some? ==> r.value.data == Lit(Lines(s)[2..], |Lines(s)| - 2, 0)
  {
    var lines := Lines(s);
    if |lines| < 2 {
      return None;
    }
    var algorithm := ParseAlgorithm(lines[0]);
    if algorithm.None? {
      return None;
    }
    var image := ParseImage(lines[2..]);
    var trench := new TrenchMap(algorithm.value, image);
    return Some(trench);
  }
}
