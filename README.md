# Spiralizer native kernels, modelled in Dafny

The spiralizer draws the Voronoi tessellation of a Fermat spiral. Three hot-path
loops of that pipeline are written natively in `src/spiral_rcpp.cpp`; this project
models each of them as an imperative Dafny method over arrays and proves it
against a pure specification function, with lemmas about those functions.

- `Spiral` — `generate_spiral_cpp`: `numPoints` angles evenly spaced over the closed
  interval `[angleStart, angleEnd]` (`θ_i = angleStart + i·step`,
  `step = (angleEnd - angleStart)/(numPoints - 1)`), each written as the row
  `(√θ·cos θ, √θ·sin θ)` of a freshly allocated `numPoints`×2 matrix (`array2<real>`).
  Square root, cosine and sine are the C library's; the model does not compute them
  and receives them as a `Trig` value holding three functions on reals.
- `PlotLimits` — `calculate_limits_cpp`: a scan over the rows of the vertex matrix
  that keeps the running maximum of `|x|` and `|y|` (starting from 0, replacing it
  only on a strictly larger value), then returns `(-⌈max·padding⌉, ⌈max·padding⌉)`,
  or `(-10, 10)` for a matrix with no rows. The padding defaults to 1.1. The ceiling
  is exact: `Ceil(r) = -((-r).Floor)`.
- `BoundedCells` — `count_bounded_cells_cpp`: the number of `false` entries of the
  "cell has an infinite vertex" flag vector.
- `Geometry` — the shared `Point` row type, `Abs`, and the view of a matrix's first
  two columns as a sequence of points.

The spiral kernel accepts zero samples (it returns an empty matrix) and any
interval; only one sample, which divides by zero, is excluded. The range for an
empty vertex matrix is the fixed `(-10, 10)`.

## Model

| member | source | states |
|---|---|---|
| `Spiral.GenerateSpiral` | src/spiral_rcpp.cpp:21-42 | the result is a new matrix with exactly `numPoints` rows and 2 columns, and its rows are exactly `SpiralPoints`: row `i` is `(√θ_i·cos θ_i, √θ_i·sin θ_i)` for `θ_i = angleStart + i·step`, every row written; with at least two rows the first row is the point of `angleStart` and the last that of `angleEnd` |
| `Spiral.Step` | src/spiral_rcpp.cpp:27 | with at least two samples, `numPoints - 1` steps span exactly `angleEnd - angleStart` |
| `Spiral.Angle` | src/spiral_rcpp.cpp:31 | with at least two samples, the angle of row `i` is the linear interpolation `(numPoints - 1)·(θ_i - angleStart) = i·(angleEnd - angleStart)` |
| `Spiral.FermatPoint` | src/spiral_rcpp.cpp:32-35 | the point lies on the line through the origin of direction `(cos θ, sin θ)` (`x·sin θ = y·cos θ`), on the ray of that direction (`x·cos θ + y·sin θ ≥ 0`) when `√θ ≥ 0`, and is the origin when `√θ = 0` |
| `Spiral.SpiralPoints` | src/spiral_rcpp.cpp:23 | the point sequence has one point per requested sample |
| `Spiral.AngleEndpoints` | src/spiral_rcpp.cpp:27-31 | with at least two samples, row 0 uses `angleStart` and row `numPoints-1` uses exactly `angleEnd` |
| `Spiral.AnglesEvenlySpaced` | src/spiral_rcpp.cpp:27-31 | consecutive sampled angles differ by the same step |
| `Spiral.AnglesNondecreasing` | src/spiral_rcpp.cpp:27-31 | for `angleEnd ≥ angleStart` the angles never decrease along the rows |
| `Spiral.AnglesWithinInterval` | src/spiral_rcpp.cpp:27-31 | for `angleEnd ≥ angleStart` every sampled angle lies in `[angleStart, angleEnd]` |
| `Spiral.SpiralEndpoints` | src/spiral_rcpp.cpp:30-35 | the first row is the spiral point of `angleStart` and the last row that of `angleEnd` |
| `Spiral.SpiralStartsAtOrigin` | src/spiral_rcpp.cpp:31-35 | when `√0 = 0`, a spiral starting at angle 0 starts at the origin `(0, 0)` |
| `Geometry.Rows` | src/spiral_rcpp.cpp:61-62 | defines the view of columns 0 and 1 of a matrix as one point per row, `(m[i,0], m[i,1])`; a matrix without rows needs no columns (a definition, not a proved property) |
| `Geometry.Abs` | src/spiral_rcpp.cpp:61-62 | the absolute value is non-negative and equals the value or its negation |
| `PlotLimits.Ceil` | src/spiral_rcpp.cpp:68 | the ceiling `c` of `r` satisfies `r ≤ c < r + 1` |
| `PlotLimits.Update` | src/spiral_rcpp.cpp:61-65 | one loop iteration: the new maximum is at least the old one, `|x|` and `|y|`, and equals one of the three |
| `PlotLimits.MaxAbs` | src/spiral_rcpp.cpp:58-66 | the fold of that iteration over all rows from 0 is non-negative |
| `PlotLimits.MaxAbsBounds` | src/spiral_rcpp.cpp:58-66 | the scan's maximum is non-negative and bounds `|x|` and `|y|` of every row |
| `PlotLimits.MaxAbsAttained` | src/spiral_rcpp.cpp:58-66 | the scan's maximum is 0 or the absolute value of some row's x or y |
| `PlotLimits.MaxAbsIsLeastBound` | src/spiral_rcpp.cpp:58-66 | any non-negative bound of all coordinates that is 0 or attained equals the scan's maximum, so the scan computes the largest absolute coordinate |
| `PlotLimits.Limits` | src/spiral_rcpp.cpp:53-70 | the pair is symmetric; with no rows the half-width is 10; otherwise the half-width `h` satisfies `h - 1 < max·padding ≤ h` |
| `PlotLimits.LimitsNonNegative` | src/spiral_rcpp.cpp:68-70 | with a non-negative padding the range is `lo ≤ 0 ≤ hi` |
| `PlotLimits.LimitCoversMaxAbs` | src/spiral_rcpp.cpp:68-70 | with a padding of at least 1 the half-width is at least the largest absolute coordinate |
| `PlotLimits.LimitsContainVertices` | src/spiral_rcpp.cpp:58-70 | with a padding of at least 1 every vertex coordinate lies inside the returned range |
| `PlotLimits.LimitsOfFive` | src/spiral_rcpp.cpp:53-70 | every vertex set whose coordinates are all at most 5 in absolute value, with some coordinate of absolute value 5, gives `(-6, 6)` with the default padding 1.1 |
| `PlotLimits.ScanMaxAbs` | src/spiral_rcpp.cpp:58-66 | the loop's running maximum ends equal to `MaxAbs` of all rows and bounds every coordinate |
| `PlotLimits.CalculateLimits` | src/spiral_rcpp.cpp:53-71 | the kernel returns `Limits` of the matrix rows: `(-10, 10)` for no rows, a symmetric pair, non-inverted for a non-negative padding, containing every vertex for a padding of at least 1 |
| `BoundedCells.CountFalse` | src/spiral_rcpp.cpp:84-92 | the number of false flags, counted in loop order, lies between 0 and the number of cells |
| `BoundedCells.CountFalseIsCardinality` | src/spiral_rcpp.cpp:86-90 | the count equals the number of indices `i` with `has_infinite[i] == false` |
| `BoundedCells.CountFalseNoneInfinite` | src/spiral_rcpp.cpp:84-92 | with no flag set, every cell is counted |
| `BoundedCells.CountFalseAllInfinite` | src/spiral_rcpp.cpp:84-92 | with every flag set, the count is 0 |
| `BoundedCells.CountBoundedCells` | src/spiral_rcpp.cpp:83-93 | the kernel returns exactly the number of false flags, which is at most the vector's length, and leaves the vector unchanged (it has no `modifies` clause) |

## Left out

- Floating point: coordinates, angles and limits are exact reals, so the last angle equals `angleEnd` exactly and the ceiling has no rounding error; IEEE rounding, NaN and infinities are not modelled.
- `std::sqrt`, `std::cos` and `std::sin` are not computed; they are the three functions of a `Trig` parameter, and `√0 = 0` is required only by the origin property.
- Spiral.GenerateSpiral: requires `numPoints ≠ 1`, because one sample divides by zero and yields a NaN row in the source; a negative `num_points` (whose matrix allocation fails inside Rcpp) is excluded by the `nat` type.
- Spiral.GenerateSpiral: a negative angle makes `std::sqrt` return NaN in the source; the model hands every angle to the abstract square root and says nothing about negative angles.
- PlotLimits.CalculateLimits: NaN coordinates, which the source's `>` comparisons skip, are not modelled; a matrix with rows is required to have at least the two columns the source reads without checking (a matrix without rows may have any number of columns and gives `(-10, 10)`).
- PlotLimits.CalculateLimits: the limits are returned as integers, the exact value of `std::ceil`, rather than as doubles.
- BoundedCells.CountBoundedCells: the index and the count are unbounded `nat`s; for an R long vector of more than 2^31 - 1 entries the source's 32-bit `int` index and count overflow, which the model does not capture.
- BoundedCells.CountBoundedCells: the flags are `bool`; an R logical vector may also hold NA, which the source treats as true (not counted), and the model cannot represent NA.
- R marshalling (`NumericMatrix`, `NumericVector`, `LogicalVector`), the `x`/`y` column names and the export attributes are not modelled; the comment that documents a `vertex_counts` parameter describes no parameter of the function.
- The Voronoi/Delaunay construction that produces the vertex matrix and the infinite-vertex flags is an external geometry library; both are inputs here.
- The R-side cache tiers, parameter validation, truncation filter, colour mapping, performance profiles, UI and export code are not part of this model.
