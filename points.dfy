/** The `Point` struct of the Voronoi generator: a coloured seed on the canvas,
    its comparison operators, its squared distance to a pixel, and the way a
    new point is drawn from a random source. */
module Points {

  /** The canvas size the generator is built for. */
  const Width: int := 800
  const Height: int := 600

  /** An 8-bit colour channel. */
  newtype u8 = b: int | 0 <= b < 256

  /** An RGB colour with 8 bits per channel. */
  datatype Rgb = Rgb(r: u8, g: u8, b: u8)

  const Black: Rgb := Rgb(0, 0, 0)

  /** A colour whose three channels hold the same value. */
  predicate IsGrey(c: Rgb) {
    c.r == c.g == c.b
  }

  /** A point of the plane together with the colour of its Voronoi cell.
      The getters of the program are the destructors `x`, `y` and `color`. */
  datatype Point = Point(x: int, y: int, color: Rgb)

  datatype Ordering = Less | Equal | Greater

  datatype Option<T> = None | Some(value: T)

  // ---------------------------------------------------------------------------
  // Comparison operators: they look at the coordinates only, never at colour.
  // ---------------------------------------------------------------------------

  /** `PartialEq::eq`: two points are equal when their coordinates match. */
  predicate Eq(a: Point, b: Point) {
    a.x == b.x && a.y == b.y
  }

  /** `Ord::cmp`: Equal on matching coordinates, Greater only when `a` is
      strictly greater in both coordinates, Less in every other case. */
  function Cmp(a: Point, b: Point): (r: Ordering)
    ensures r == Equal <==> Eq(a, b)
    ensures r == Greater <==> a.x > b.x && a.y > b.y
    ensures r == Less <==> !Eq(a, b) && !(a.x > b.x && a.y > b.y)
  {
    if b.x == a.x && b.y == a.y then Equal
    else if b.x < a.x && b.y < a.y then Greater
    else Less
  }

  /** `PartialOrd::partial_cmp`: always defined, and agreeing with `Cmp`. */
  function PartialCmp(a: Point, b: Point): (r: Option<Ordering>)
    ensures r.Some?
    ensures r.value == Equal <==> Eq(a, b)
  {
    Some(Cmp(a, b))
  }

  /** `Ord::max`: `a` exactly when `Cmp` calls `a` the greater one, and `b`
      otherwise, also when the two are equal or incomparable. */
  function Max(a: Point, b: Point): (r: Point)
    ensures r == if Cmp(a, b) == Greater then a else b
  {
    match a.x > b.x && a.y > b.y
    case true => a
    case false => b
  }

  /** `Ord::min`: `a` exactly when `Cmp` calls `b` the greater one, and `b`
      otherwise, also when the two are equal or incomparable. */
  function Min(a: Point, b: Point): (r: Point)
    ensures r == if Cmp(b, a) == Greater then a else b
  {
    match a.x < b.x && a.y < b.y
    case true => a
    case false => b
  }

  /** `impl Eq for Point`: `Eq` is an equivalence relation (reflexive,
      symmetric and transitive), as Rust's `Eq` trait requires. */
  lemma EqIsEquivalence(a: Point, b: Point, c: Point)
    ensures Eq(a, a)
    ensures Eq(a, b) ==> Eq(b, a)
    ensures Eq(a, b) && Eq(b, c) ==> Eq(a, c)
  {
  }

  /** Greater is irreflexive and transitive: a strict partial order. */
  lemma GreaterIsStrictPartialOrder(a: Point, b: Point, c: Point)
    ensures Cmp(a, a) != Greater
    ensures Cmp(a, b) == Greater && Cmp(b, c) == Greater ==> Cmp(a, c) == Greater
    ensures Cmp(a, b) == Greater ==> Cmp(b, a) == Less
  {
  }

  /** The operators are not a total order: two points that differ and are
      incomparable are each "Less" than the other, and `Max` and `Min` of
      them return the same point. */
  lemma CmpIsNotTotal()
    ensures var a, b := Point(0, 1, Black), Point(1, 0, Black);
            Cmp(a, b) == Less && Cmp(b, a) == Less &&
            Max(a, b) == b && Min(a, b) == b
  {
  }

  /** Equality ignores colour: points with the same coordinates are equal
      whatever their colours. */
  lemma EqIgnoresColor(x: int, y: int, c: Rgb, d: Rgb)
    ensures Eq(Point(x, y, c), Point(x, y, d))
    ensures Cmp(Point(x, y, c), Point(x, y, d)) == Equal
  {
  }

  // ---------------------------------------------------------------------------
  // Distance
  // ---------------------------------------------------------------------------

  /** `get_distance_from`: the squared Euclidean distance from `p` to the
      pixel (x, y). The program computes it in `f32`; see `DistWithinSentinel`
      for why integers give the same values on the canvas. */
  function Dist(p: Point, x: int, y: int): (d: int)
    ensures d >= 0
    ensures d == 0 <==> x == p.x && y == p.y
  {
    var dx, dy := x - p.x, y - p.y;
    SquareZero(dx);
    SquareZero(dy);
    dx * dx + dy * dy
  }

  lemma SquareZero(n: int)
    ensures n * n >= 0
    ensures n * n == 0 <==> n == 0
  {
  }

  // ---------------------------------------------------------------------------
  // Seed generation
  // ---------------------------------------------------------------------------

  /** One outcome of the random source: the raw values behind the three
      `gen_range` calls of `Point::new`, in the order they are made. */
  datatype Draw = Draw(grey: nat, x: nat, y: nat)

  /** `gen_range(lo..hi)` applied to a raw random value: the model keeps only
      which values may come out, not their distribution. */
  function GenRange(lo: int, hi: int, raw: nat): (v: int)
    requires lo < hi
    ensures lo <= v < hi
    ensures raw < hi - lo ==> v == lo + raw
  {
    lo + raw % (hi - lo)
  }

  /** Every value of the range can be drawn, so the model rules out no
      outcome of the random source. */
  lemma GenRangeOnto(lo: int, hi: int, v: int)
    requires lo <= v < hi
    ensures exists raw: nat :: GenRange(lo, hi, raw) == v
  {
    assert GenRange(lo, hi, v - lo) == v;
  }

  /** The bounds every generated point satisfies on a `w` by `h` canvas:
      never on the last column or row, and a grey colour below 254. */
  predicate IsGenerated(p: Point, w: int, h: int) {
    0 <= p.x < w - 1 && 0 <= p.y < h - 1 &&
    IsGrey(p.color) && p.color.r < 254
  }

  /** `Point::new` for a `w` by `h` canvas, with the random source given as
      a `Draw`. The program draws from `0..w-1` and `0..h-1`, which must not
      be empty. */
  function NewPoint(w: int, h: int, d: Draw): (p: Point)
    requires w >= 2 && h >= 2
    ensures IsGenerated(p, w, h)
  {
    var grey := GenRange(0, 254, d.grey) as u8;
    var x := GenRange(0, w - 1, d.x);
    var y := GenRange(0, h - 1, d.y);
    Point(x, y, Rgb(grey, grey, grey))
  }

  /** Every point allowed by `IsGenerated` is produced by some draw. */
  lemma NewPointOnto(w: int, h: int, p: Point)
    requires w >= 2 && h >= 2
    requires IsGenerated(p, w, h)
    ensures NewPoint(w, h, Draw(p.color.r as nat, p.x, p.y)) == p
  {
  }

  /** `(0..n).map(|_| Point::new()).collect()`: one point per draw, in draw
      order. */
  function GenerateSeeds(w: int, h: int, draws: seq<Draw>): (seeds: seq<Point>)
    requires w >= 2 && h >= 2
    ensures |seeds| == |draws|
    ensures forall i :: 0 <= i < |seeds| ==> IsGenerated(seeds[i], w, h)
  {
    seq(|draws|, i requires 0 <= i < |draws| => NewPoint(w, h, draws[i]))
  }
}
