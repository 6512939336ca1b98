# Voronoi generation — a Dafny model

The program draws 100 random grey seed points on an 800 × 600 canvas. It
then paints every pixel with the colour of its nearest seed under squared
Euclidean distance, and saves the picture as `voronoi.png`. The nearest seed
is found by brute force. For each pixel the program starts from a sentinel
distance of 10000000 and black. It walks the seeds in list order and takes
every seed whose distance is `<=` the best so far. On a tie the LAST seed at
the minimum distance therefore wins.

The model has two modules:

- `Points` (`points.dfy`) covers the `Point` struct and its colour as an
  `Rgb` triple of 8-bit channels. It holds the comparison operators `eq`,
  `partial_cmp`, `cmp`, `max` and `min`, and the squared distance
  `get_distance_from`. It also holds `Point::new`, with the random source
  passed in as raw draws, and the collection of the seed list. The getters
  `get_x`, `get_y` and `get_color` are the datatype's destructors.
- `Voronoi` (`voronoi.dfy`) covers the rasterizer.
  - `MinDist`, `LastNearest` and `NearestColor` are the specification.
    `IsLastNearest` is the independent, declarative definition of the winning
    seed.
  - `ScanPixel` is the imperative per-pixel scan, with its `smallest` and
    `color` locals.
  - `FillRow` and `Rasterize` are the nested pixel loop, which writes an
    `array2<Rgb>` in place.
  - `Render` is `main` up to the final save.

The distances are computed in `f32` in the program and in `int` here.
On a canvas accepted by `CanvasFits` every distance is at most the sentinel
10000000. That is below 2^24, and `DistWithinSentinel` proves it. Every
integer of that size is exact in `f32`, so the casts to `f32`, the addition
and the comparison `d <= smallest` give the same results as integer
arithmetic. The squares are computed with `powf(2.0)`, whose precision Rust
leaves unspecified and platform-dependent; the model assumes that the
platform's `powf` returns the exact square of a small integer (it does when
`powf` is accurate to within one ulp, or when the compiler rewrites it as a
multiplication). That assumption is stated, not proved.

The pixel `img[x, y]` is column `x`, row `y`, so `Length0` is the width.
The loops go row by row, in the order in which `enumerate_pixels_mut` yields
the pixels.

Two edge cases of the code, as the model has them:

- With an empty seed list every pixel stays black, and `ScanPixel` and
  `NearestColor` give black.
- `gen_range` panics on an empty range, so `NewPoint` and `GenerateSeeds`
  require `w >= 2 && h >= 2`.

## Model

| member | source | states |
|---|---|---|
| `Points.EqIsEquivalence` | src/main.rs:16-26 | `eq` is reflexive, symmetric and transitive, as `impl Eq for Point` promises |
| `Points.EqIgnoresColor` | src/main.rs:16-20 | `eq` holds, and `cmp` gives `Equal`, for two points with the same coordinates, whatever their colours |
| `Points.PartialCmp` | src/main.rs:21-25 | `partial_cmp` is always `Some`, and it is `Equal` exactly when `eq` holds |
| `Points.Cmp` | src/main.rs:28-36 | `Equal` iff the coordinates match; `Greater` iff both of `a`'s coordinates are strictly greater; `Less` in every other case |
| `Points.Max` | src/main.rs:37-42 | `max` picks `a` exactly when `cmp(a, b)` is `Greater`, and `b` otherwise, also on `Equal` and on incomparable points |
| `Points.Min` | src/main.rs:43-48 | `min` picks `a` exactly when `cmp(b, a)` is `Greater`, and `b` otherwise, also on `Equal` and on incomparable points |
| `Points.GreaterIsStrictPartialOrder` | src/main.rs:28-36 | `Greater` is irreflexive and transitive, and `a > b` gives `b < a` |
| `Points.CmpIsNotTotal` | src/main.rs:28-48 | for (0,1) and (1,0) each is `Less` than the other, and `max` and `min` both return (1,0): the operators are not a total order |
| `Points.Dist` | src/main.rs:83-85 | the squared distance is non-negative, and zero exactly when the pixel is at the point's coordinates |
| `Points.GenRange` | src/main.rs:57-67 | a `gen_range(lo..hi)` draw lies in `[lo, hi)` |
| `Points.GenRangeOnto` | src/main.rs:57-67 | every value of `[lo, hi)` is the outcome of some draw |
| `Points.NewPoint` | src/main.rs:55-73 | a new point has `0 <= x < w-1` and `0 <= y < h-1`, and three equal colour channels below 254 |
| `Points.NewPointOnto` | src/main.rs:55-73 | every point within those bounds is produced by some draw |
| `Points.GenerateSeeds` | src/main.rs:96 | one seed per draw, each within the generator's bounds |
| `Voronoi.ReferenceCanvasFits` | src/main.rs:4-5 | the 800 × 600 canvas, and every smaller one, keeps all distances within the sentinel |
| `Voronoi.DistWithinSentinel` | src/main.rs:101-110 | with seed and pixel on such a canvas, the distance is at most the sentinel 10000000, which is below 2^24 |
| `Voronoi.MinDist` | src/main.rs:105-112 | the minimum distance is at most every seed's distance and is attained by some seed |
| `Voronoi.LastNearest` | src/main.rs:105-112 | the chosen seed is at the minimum distance, and every later seed is strictly farther |
| `Voronoi.LastNearestUnique` | src/main.rs:108-111 | exactly one index satisfies that characterisation |
| `Voronoi.LastNearestAttainsMin` | src/main.rs:108-110 | the chosen seed's distance equals the minimum distance |
| `Voronoi.NearestColor` | src/main.rs:101-114 | a pixel's colour is black with no seeds, and otherwise the colour of the seed that is last among those at the minimum distance |
| `Voronoi.LaterTieWins` | src/main.rs:108-111 | when two seeds tie and no seed is nearer, the earlier one never wins and the winner is at or after the later one |
| `Voronoi.NearestColorIsSeedColor` | src/main.rs:101-114 | with at least one seed, every pixel's colour is the colour of some seed |
| `Voronoi.TieExample` | src/main.rs:108-111 | seeds (10,10) white and (14,10) black tie at pixel (12,10), and the later, black seed wins |
| `Voronoi.SingleSeedColorsAll` | src/main.rs:105-111 | a single seed gives its colour to every pixel |
| `Voronoi.ScanPixel` | src/main.rs:99-112 | after the scan, `color` is the last nearest seed's colour and `smallest` is the minimum distance; with no seeds they stay black and the sentinel |
| `Voronoi.FillRow` | src/main.rs:98-115 | every pixel of one row gets its nearest-seed colour, and no other row changes |
| `Voronoi.Rasterize` | src/main.rs:98-115 | every pixel of the buffer gets the colour of its last nearest seed, which depends only on its coordinates and the seed list |
| `Voronoi.Render` | src/main.rs:92-116 | `main` makes 100 seeds, one per draw and each within the generator's bounds, and an 800 × 600 buffer in which every pixel has its nearest-seed colour, always the colour of some seed |

## Left out

- The random source (`rand::thread_rng`, `gen_range`) is replaced by raw draws given as input. Only the set of possible outcomes is modelled, not their distribution.
- `f32` and `powf` arithmetic is replaced by integer arithmetic. The casts, the addition and `<=` are exact on integers below 2^24; that `powf(2.0)` returns the exact square is an assumption about the platform's `powf`, whose precision Rust does not specify. Neither is proved.
- `i32` coordinates are unbounded integers. On the canvas no subtraction or square can overflow, so no wrap-around is modelled.
- Saving the buffer as `voronoi.png` is PNG encoding and file I/O in an external crate, so it is not modelled. `ImageBuffer::new` becomes an `array2<Rgb>` filled with black.
- The comparison operators that Rust derives from `partial_cmp` (`<`, `<=`, …) are not modelled separately. The program never uses them.
