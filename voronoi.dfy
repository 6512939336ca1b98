/** The brute-force Voronoi rasterizer: every pixel of the canvas takes the
    colour of the seed nearest to it under squared Euclidean distance, and on
    a tie the seed that comes LAST in the seed list wins. */
module Voronoi {
  import opened Points

  /** The initial "smallest distance" of the per-pixel scan. */
  const Sentinel: int := 10000000

  /** 2^24: every integer of magnitude up to this is exact in `f32`. */
  const F32Exact: int := 0x100_0000

  /** Number of seeds the program generates. */
  const SeedCount: nat := 100

  /** The pixel (x, y) lies on a `w` by `h` canvas. */
  predicate InCanvas(x: int, y: int, w: int, h: int) {
    0 <= x < w && 0 <= y < h
  }

  predicate AllInCanvas(seeds: seq<Point>, w: int, h: int) {
    forall i :: 0 <= i < |seeds| ==> InCanvas(seeds[i].x, seeds[i].y, w, h)
  }

  /** `c` is the colour of some seed in the list. */
  predicate IsSeedColor(seeds: seq<Point>, c: Rgb) {
    exists i :: 0 <= i < |seeds| && seeds[i].color == c
  }

  /** The canvas is small enough that no distance between two of its
      pixels exceeds the sentinel. */
  predicate CanvasFits(w: int, h: int) {
    0 <= w && 0 <= h && (w - 1) * (w - 1) + (h - 1) * (h - 1) <= Sentinel
  }

  /** The reference canvas fits, and so does every canvas no larger. */
  lemma ReferenceCanvasFits(w: int, h: int)
    requires 0 <= w <= Width && 0 <= h <= Height
    ensures CanvasFits(w, h)
  {
    SquareMono(if w == 0 then 1 else w - 1, Width - 1);
    SquareMono(if h == 0 then 1 else h - 1, Height - 1);
  }

  lemma SquareMono(a: int, b: int)
    requires 0 <= a <= b
    ensures a * a <= b * b
  {
  }

  /** On a canvas that fits, every distance from a pixel to a seed is at
      most the sentinel, and both lie below 2^24: every value the program's
      `f32` arithmetic handles here is an exactly representable integer. */
  lemma DistWithinSentinel(p: Point, x: int, y: int, w: int, h: int)
    requires CanvasFits(w, h)
    requires InCanvas(p.x, p.y, w, h) && InCanvas(x, y, w, h)
    ensures Dist(p, x, y) <= Sentinel < F32Exact
  {
    var dx := if x < p.x then p.x - x else x - p.x;
    var dy := if y < p.y then p.y - y else y - p.y;
    SquareMono(dx, w - 1);
    SquareMono(dy, h - 1);
    assert dx * dx == (x - p.x) * (x - p.x);
    assert dy * dy == (y - p.y) * (y - p.y);
  }

  // ---------------------------------------------------------------------------
  // Specification of the nearest seed
  // ---------------------------------------------------------------------------

  /** The smallest distance from (x, y) to any seed. */
  function MinDist(seeds: seq<Point>, x: int, y: int): (m: int)
    requires |seeds| > 0
    ensures forall j :: 0 <= j < |seeds| ==> m <= Dist(seeds[j], x, y)
    ensures exists j :: 0 <= j < |seeds| && m == Dist(seeds[j], x, y)
  {
    if |seeds| == 1 then Dist(seeds[0], x, y)
    else
      var rest := MinDist(seeds[..|seeds| - 1], x, y);
      var last := Dist(seeds[|seeds| - 1], x, y);
      if last <= rest then last else rest
  }

  /** Seed `k` is the one whose colour pixel (x, y) receives: it is at the
      minimum distance, and every later seed is strictly farther. */
  ghost predicate IsLastNearest(seeds: seq<Point>, x: int, y: int, k: int) {
    && 0 <= k < |seeds|
    && (forall j :: 0 <= j < |seeds| ==> Dist(seeds[k], x, y) <= Dist(seeds[j], x, y))
    && (forall j :: k < j < |seeds| ==> Dist(seeds[k], x, y) < Dist(seeds[j], x, y))
  }

  /** The index of the last seed at the minimum distance from (x, y). */
  function LastNearest(seeds: seq<Point>, x: int, y: int): (k: nat)
    requires |seeds| > 0
    ensures IsLastNearest(seeds, x, y, k)
  {
    if |seeds| == 1 then 0
    else
      var k := LastNearest(seeds[..|seeds| - 1], x, y);
      if Dist(seeds[|seeds| - 1], x, y) <= Dist(seeds[k], x, y) then |seeds| - 1 else k
  }

  /** Only one index satisfies `IsLastNearest`, so it determines the winning
      seed on its own. */
  lemma LastNearestUnique(seeds: seq<Point>, x: int, y: int, k: int)
    requires IsLastNearest(seeds, x, y, k)
    ensures k == LastNearest(seeds, x, y)
  {
  }

  /** The colour pixel (x, y) receives: that of the last nearest seed, or
      black when there are no seeds. */
  function NearestColor(seeds: seq<Point>, x: int, y: int): (c: Rgb)
    ensures |seeds| == 0 ==> c == Black
    ensures |seeds| > 0 ==>
      exists k :: IsLastNearest(seeds, x, y, k) && c == seeds[k].color
  {
    if |seeds| == 0 then Black else seeds[LastNearest(seeds, x, y)].color
  }

  /** Tie-break: of two seeds both at the minimum distance, the earlier one
      never gives the pixel its colour; the last such seed does. */
  lemma LaterTieWins(seeds: seq<Point>, x: int, y: int, i: int, j: int)
    requires 0 <= i < j < |seeds|
    requires Dist(seeds[i], x, y) == Dist(seeds[j], x, y)
    requires forall k :: 0 <= k < |seeds| ==> Dist(seeds[j], x, y) <= Dist(seeds[k], x, y)
    ensures LastNearest(seeds, x, y) != i
    ensures LastNearest(seeds, x, y) >= j
  {
  }

  /** The winning seed's distance is the minimum distance. */
  lemma LastNearestAttainsMin(seeds: seq<Point>, x: int, y: int)
    requires |seeds| > 0
    ensures Dist(seeds[LastNearest(seeds, x, y)], x, y) == MinDist(seeds, x, y)
  {
  }

  /** Coverage: with at least one seed, every pixel's colour is the colour of
      some seed in the list. */
  lemma NearestColorIsSeedColor(seeds: seq<Point>, x: int, y: int)
    requires |seeds| > 0
    ensures IsSeedColor(seeds, NearestColor(seeds, x, y))
  {
  }

  /** The worked tie of two seeds: (10,10) white and (14,10) black are both
      at distance 4 from pixel (12,10), and the later, black one wins. */
  lemma TieExample()
    ensures NearestColor([Point(10, 10, Rgb(255, 255, 255)), Point(14, 10, Black)], 12, 10) == Black
  {
  }

  /** A single seed colours the whole canvas. */
  lemma SingleSeedColorsAll(p: Point, x: int, y: int)
    ensures NearestColor([p], x, y) == p.color
  {
  }

  // ---------------------------------------------------------------------------
  // The per-pixel scan and the rasterization loop of `main`
  // ---------------------------------------------------------------------------

  /** The inner loop of `main` for pixel (x, y): start from the sentinel and
      black, and take every seed whose distance is `<=` the best so far.
      Afterwards `smallest` is the minimum distance and `color` the colour
      of the last seed at that distance. */
  method ScanPixel(seeds: seq<Point>, x: int, y: int, w: int, h: int)
    returns (color: Rgb, smallest: int)
    requires CanvasFits(w, h) && AllInCanvas(seeds, w, h) && InCanvas(x, y, w, h)
    ensures color == NearestColor(seeds, x, y)
    ensures |seeds| == 0 ==> color == Black && smallest == Sentinel
    ensures |seeds| > 0 ==> smallest == MinDist(seeds, x, y)
  {
    smallest := Sentinel;
    color := Black;
    for i := 0 to |seeds|
      invariant i == 0 ==> color == Black && smallest == Sentinel
      invariant i > 0 ==> smallest == MinDist(seeds[..i], x, y)
      invariant i > 0 ==> color == seeds[LastNearest(seeds[..i], x, y)].color
    {
      DistWithinSentinel(seeds[i], x, y, w, h);
      assert seeds[..i + 1][..i] == seeds[..i];
      if Dist(seeds[i], x, y) <= smallest {
        color := seeds[i].color;
        smallest := Dist(seeds[i], x, y);
      }
    }
    assert seeds[..|seeds|] == seeds;
  }

  /** One row of the pixel loop of `main`: write every pixel of row `y`
      with the colour of its last nearest seed, and touch no other row.
      `img[x, y]` is the pixel in column x and row y. */
  method FillRow(seeds: seq<Point>, img: array2<Rgb>, y: int)
    requires CanvasFits(img.Length0, img.Length1)
    requires AllInCanvas(seeds, img.Length0, img.Length1)
    requires 0 <= y < img.Length1
    modifies img
    ensures forall x :: 0 <= x < img.Length0 ==> img[x, y] == NearestColor(seeds, x, y)
    ensures forall i, j :: 0 <= i < img.Length0 && 0 <= j < img.Length1 && j != y ==>
      img[i, j] == old(img[i, j])
  {
    var w, h := img.Length0, img.Length1;
    for x := 0 to w
      invariant forall i :: 0 <= i < x ==> img[i, y] == NearestColor(seeds, i, y)
      invariant forall i, j :: 0 <= i < w && 0 <= j < h && j != y ==> img[i, j] == old(img[i, j])
    {
      var color, _ := ScanPixel(seeds, x, y, w, h);
      img[x, y] := color;
    }
  }

  /** The pixel loop of `main`: visit the canvas row by row, writing each
      pixel with the colour of its last nearest seed. The contract states
      the final contents of the buffer. */
  method Rasterize(seeds: seq<Point>, img: array2<Rgb>)
    requires CanvasFits(img.Length0, img.Length1)
    requires AllInCanvas(seeds, img.Length0, img.Length1)
    modifies img
    ensures forall x, y :: 0 <= x < img.Length0 && 0 <= y < img.Length1 ==>
      img[x, y] == NearestColor(seeds, x, y)
  {
    for y := 0 to img.Length1
      invariant forall i, j :: 0 <= i < img.Length0 && 0 <= j < y ==>
        img[i, j] == NearestColor(seeds, i, j)
    {
      FillRow(seeds, img, y);
    }
  }

  /** `main` without the final `save`: generate `SeedCount` seeds from the
      random draws, allocate a black `Width` by `Height` buffer and
      rasterize it. Every pixel ends up with the grey of some seed. */
  method Render(draws: seq<Draw>) returns (seeds: seq<Point>, img: array2<Rgb>)
    requires |draws| == SeedCount
    ensures seeds == GenerateSeeds(Width, Height, draws)
    ensures |seeds| == SeedCount
    ensures forall i :: 0 <= i < |seeds| ==> IsGenerated(seeds[i], Width, Height)
    ensures fresh(img) && img.Length0 == Width && img.Length1 == Height
    ensures forall x, y :: 0 <= x < Width && 0 <= y < Height ==>
      img[x, y] == NearestColor(seeds, x, y)
    ensures forall x, y :: 0 <= x < Width && 0 <= y < Height ==> IsSeedColor(seeds, img[x, y])
  {
    img := new Rgb[Width, Height]((x, y) => Black);
    seeds := GenerateSeeds(Width, Height, draws);
    ReferenceCanvasFits(Width, Height);
    Rasterize(seeds, img);
    forall x, y | 0 <= x < Width && 0 <= y < Height
      ensures IsSeedColor(seeds, img[x, y])
    {
      NearestColorIsSeedColor(seeds, x, y);
    }
  }
}
