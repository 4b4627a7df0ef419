# humber hull rasteriser — Dafny model

humber turns a piecewise description of a ship hull into a filled voxel
volume. A hull file gives the size of the volume (length, width and
height in voxels), an output name and an ordered list of hulls. Each hull
has a palette index and an ordered list of sections. A section gives a
longitudinal start, a normalised width, a normalised keel offset and a
tween algorithm.

This project models three parts of the program:

- `tween_algorithm.dfy` (module `Tween`): the tween algorithm enumeration
  and its mapping to and from the tokens `linear`, `square_root`,
  `reverse_square_root` and `square`, plus its JSON encoding.
- `hull.dfy` (module `Hulls`): the cross-section interpolator
  `GetDimensions`. It works in four steps:
  - a scan with `break` finds the sections that bracket a slice;
  - a zero-length interval is patched to length 1;
  - the current section's algorithm chooses two blend weights. For
    Spline, the tangent blended at the current progress, times the
    distance covered (progress times the interval length), is added to
    the current width;
  - the result is denormalised to voxels with Go's truncating `int()`.

  `GetDimensions` is an imperative method proved equal to the function
  `DimensionsAt`. The properties of the interpolator are lemmas about
  `DimensionsAt` and its parts (`BracketAt`, `Weights`, `Blend`).
- `voxel_hull.dfy` (module `Voxels`): the rasteriser `WriteHull`.
  - A `VoxelObject` class holds a three-dimensional byte array with a
    `Set` method.
  - Loops over hulls, slices, columns and rows fill each cell that the
    ellipse test selects.
  - The methods are proved against the function `CellAfter`. It gives the
    final value of each cell: the index of the last hull that selects the
    cell, or the cell's initial value when no hull does.
- `wrappers.dfy` (module `Wrappers`): an `Option` type.

Go `float64` values are exact reals. `math.Sqrt` is a parameter `sqrt`;
a lemma that needs a fact about it (sqrt 0 = 0, sqrt 1 = 1, or that it
maps [0, 1] into [0, 1]) states that fact as a precondition.

The files of the repository come from different revisions, which forces
three choices:

- `voxel_hull.go:16` calls `GetDimensions(i, hf.Length, hf.Width, hf.Height)`,
  but `hull.go:34` takes only `x` and reads the sizes from the hull. The
  model follows the call, so `GetDimensions` takes the volume size as
  parameters.
- `HullFile` holds a file name, a length, a width, a height and a sequence
  of hulls. Each hull has an `index` and `sections`. These fields are
  inferred from their uses in `voxel_hull.go`.
- `hull.go:92` uses `TweenAlgorithmSpline`, but the enumeration at
  `tween_algorithm.go:10-15` has only four constants. `TweenAlgorithm` is
  an `int` newtype with the constants 0 to 3, and Spline is a separate
  value, 4, outside that range. As a result:
  - the name of Spline is "unknown";
  - no token maps to Spline;
  - any other value falls through every case of the switch and keeps the
    weights (1, 0).

Three behaviours of the code are worth noting:

- dimensions are converted to voxels with Go's `int()`, which truncates
  toward zero (`hull.go:97-106`);
- the Spline case is the tangent blend of `hull.go:92-100`;
- the token "spline" gives Linear, because `GetTweenAlgorithmFromName`
  has no case for it (`tween_algorithm.go:32-45`).

## Model

| member | source | states |
|---|---|---|
| Tween.String | internal/hull/tween_algorithm.go:17-30 | Each of the four constants gets a known token that parses back to that constant. The result is "unknown" exactly when the value is none of the four, Spline included. |
| Tween.GetTweenAlgorithmFromName | internal/hull/tween_algorithm.go:32-45 | Total. Always one of the four constants, never Spline. Every token outside the four known names, "unknown" included, gives Linear. |
| Tween.NameOfParsedToken | internal/hull/tween_algorithm.go:17-45 | The other direction of the round trip: each known token is the name of the constant it parses to. |
| Tween.NamesDistinct | internal/hull/tween_algorithm.go:19-26 | The four constants have pairwise distinct names. |
| Tween.MarshalJSON | internal/hull/tween_algorithm.go:47-49 | Never fails. The output is a double-quoted string whose content is the algorithm's name. |
| Tween.MarshalRoundTrip | internal/hull/tween_algorithm.go:32-49 | Unquoting the JSON encoding of one of the four constants and parsing the name gives the constant back. |
| Hulls.Truncate | internal/hull/hull.go:97-106 | Go's `int()`: the result is the integer next to the argument on the side toward zero. |
| Hulls.NextIndex | internal/hull/hull.go:43-54 | The index of the first section in list order whose start is beyond the fraction, or the section count when there is none. |
| Hulls.GetDimensions | internal/hull/hull.go:34-107 | The scan, the zero-interval guard and the switch compute exactly `DimensionsAt`: the bracket of the slice, the blend at the slice's progress, then truncation. |
| Hulls.BlendSections | internal/hull/hull.go:76-106 | The switch with its t1 = 1, t2 = 0 defaults and the early return of the Spline case computes `Blend` for every algorithm value. |
| Hulls.TweenLength | internal/hull/hull.go:68-74 | The interval length used for division is never zero. It is 1 when the two starts coincide, and their difference otherwise. |
| Hulls.Weights | internal/hull/hull.go:76-94 | For the four constants and Spline, t1 + t2 = 1 for any `sqrt`. An unmatched value keeps (1, 0). With sqrt 0 = 0 and sqrt 1 = 1, progress 0 gives (1, 0) and progress 1 gives (0, 1). |
| Hulls.Slope | internal/hull/hull.go:50-62 | The tangent the scan computes at section i: the width difference to section i - 1 divided by the difference of their starts. It is defined only when the starts differ. |
| Hulls.WellSpaced | internal/hull/hull.go:43-62 | The precondition of the scan: each tangent division it reaches for this fraction has a non-zero divisor. |
| Hulls.BracketAt | internal/hull/hull.go:37-65 | The scan's result. Next is section `NextIndex`, or the default start 1, width 0, keel 1. Current is the section before it, or the default 0, 0, 0 with Linear. Each tangent is the slope into its section, or 0 where the scan takes none. |
| Hulls.TweenOf | internal/hull/hull.go:74 | The progress through the interval: the distance of the fraction past the current start, divided by the patched interval length. |
| Hulls.Blend | internal/hull/hull.go:76-106 | The normalised (width, keel) of the switch: `Mix` under the weights `Weights` gives for the algorithm. |
| Hulls.Mix | internal/hull/hull.go:95-106 | With weights (t1, t2), the keel is curKeel·t1 + nextKeel·t2. For Spline, the width is curWidth plus the blended tangent (curTangent·t1 + nextTangent·t2) times tweenLength times the progress. For every other value, the width is curWidth·t1 + nextWidth·t2. |
| Hulls.Denormalise | internal/hull/hull.go:97-106 | Converts to voxels: the width is `int(widthFraction·width)`, and the keel is `int((1 - keelFraction)·height)`, inverted because a keel fraction of 1 is the top. |
| Hulls.DimensionsAt | internal/hull/hull.go:34-107 | The dimensions of slice x: the bracket of x/length, blended at its progress, then denormalised. `Hulls.GetDimensions` is proved equal to it. |
| Hulls.UpperBracketDefault | internal/hull/hull.go:38-54 | When no section starts beyond the fraction, next is the default: start 1, width 0, keel 1, tangent 0. Current is the last section. |
| Hulls.BracketOfFirstBeyond | internal/hull/hull.go:37-65 | Next is the first section in list order that starts beyond the fraction. Current is the section just before it. When next is section 0, current is the default 0, 0, 0, Linear. |
| Hulls.EmptyProfileBracket | internal/hull/hull.go:37-43 | An empty section list brackets every fraction with the two defaults. |
| Hulls.AscendingIsWellSpaced | internal/hull/hull.go:50-62 | With strictly ascending starts, every tangent division the scan performs has a non-zero divisor. |
| Hulls.NextIndexAtSectionStart | internal/hull/hull.go:43-59 | With strictly ascending starts, a fraction equal to section i's start makes section i current and section i + 1 next. |
| Hulls.BlendAtIntervalStart | internal/hull/hull.go:74-106 | At progress 0, every branch, Spline included, yields the current section's width and keel (given sqrt 0 = 0, sqrt 1 = 1). |
| Hulls.BlendAtIntervalEnd | internal/hull/hull.go:79-106 | At progress 1, the four constants yield the next section's width and keel. So does Spline when the next tangent is the interval's slope. |
| Hulls.NextTangentIsIntervalSlope | internal/hull/hull.go:44-53 | Inside the profile, the next tangent times the interval length is the width difference across the interval. |
| Hulls.UnmatchedAlgorithmKeepsCurrent | internal/hull/hull.go:76-106 | A value matching no case returns the current section's width and keel unblended. |
| Hulls.SplineKeelIsLinear | internal/hull/hull.go:92-100 | The Spline branch blends the keel exactly as the Linear branch does. |
| Hulls.SquareAtHalfway | internal/hull/hull.go:89-91 | Square at progress 1/2 has covered a quarter of the width change. |
| Hulls.DimensionsAtCurrentStart | internal/hull/hull.go:74-106 | A slice at the current section's start gets the denormalised current values, `int(curWidth*width)` and `int((1-curKeel)*height)`. |
| Hulls.DimensionsAtSectionStart | internal/hull/hull.go:34-107 | With ascending starts, a slice exactly at section i's start gets section i's width and keel, truncated. This holds whatever algorithm governs the interval before section i. |
| Hulls.UnmatchedAlgorithmDimensions | internal/hull/hull.go:76-106 | A slice whose current algorithm matches no case gets the current section's values, truncated. |
| Hulls.TweenWithinInterval | internal/hull/hull.go:68-74 | With starts in [0, 1] and a fraction in [0, 1], the progress through the interval lies in [0, 1]. |
| Hulls.WeightsConvex | internal/hull/hull.go:80-91 | Linear and Square weights are non-negative and sum to 1. So are the two root algorithms' weights, given a sqrt into [0, 1]. |
| Hulls.BlendedWidthWithinVolume | internal/hull/hull.go:80-104 | For a slice within the hull, starts and widths in [0, 1] and a convex algorithm, the width in voxels lies in [0, width]. |
| Hulls.BlendReachesNextSection | internal/hull/hull.go:79-106 | Evaluated at progress 1, the blend of the interval that ends at a section gives that section's width and keel, for the four constants and for Spline. For Linear, Square and Spline the blend is a polynomial in the progress, so the profile has no jump at that section. For the two root algorithms the same follows only for a `sqrt` that is continuous at 0 and 1, which the model does not assume. |
| Hulls.ExampleLinearRamp | internal/hull/hull.go:34-107 | Sections (0, width 0) and (0.5, width 1, Linear) give half the volume width at fraction 1/4. |
| Hulls.ExampleWidestSlice | internal/hull/hull.go:34-107 | The five-section tapered profile is at full width and depth (26 by 8) at slice 44 of 88. |
| Voxels.EllipseContains | internal/voxels/voxel_hull.go:26 | The test x²/a² + y²/b² <= 1. Where a or b is zero, Go's division gives +Inf or NaN, neither of which is <= 1, so that case is an explicit branch that is false. |
| Voxels.Inside | internal/voxels/voxel_hull.go:18-26 | The ellipse test for cell (j, k) of a slice, with a = width/2, x = j - (W-1)/2, b = keel/2 and y = k/2 - (H-1)/2. |
| Voxels.Selects | internal/voxels/voxel_hull.go:15-27 | A hull fills cell (p, j, k) when the ellipse of its slice length - 1 - p contains (j, k). |
| Voxels.VoxelObject.constructor | internal/voxels/voxel_hull.go:11-12 | A fresh volume of the hull file's size with every cell 0. |
| Voxels.VoxelObject.Set | internal/voxels/voxel_hull.go:27-28 | Only a coordinate inside the volume may be written. It gets the index, and every other cell is unchanged. |
| Voxels.FillSlice | internal/voxels/voxel_hull.go:17-31 | At the slice's coordinate, cell (j, k) receives the index exactly when the ellipse test selects it: a = width/2, x = j - (W-1)/2, b = keel/2, y = k/2 - (H-1)/2. Every other cell keeps its value. |
| Voxels.RasterizeHull | internal/voxels/voxel_hull.go:15-32 | The dimensions of slice i are written only at coordinate length - 1 - i, which is in range. The cells the hull selects get its index, and the rest are unchanged. |
| Voxels.Rasterize | internal/voxels/voxel_hull.go:14-33 | After the hulls are processed in list order, every cell holds `CellAfter` of its initial value. |
| Voxels.WriteHull | internal/voxels/voxel_hull.go:10-37 | A fresh volume of the file's size whose cells are `CellAfter` over 0. The returned error is the save step's error. |
| Voxels.CellAfter | internal/voxels/voxel_hull.go:14-33 | A cell's final value is its initial value or the index of one of the hulls. |
| Voxels.InsideSymmetric | internal/voxels/voxel_hull.go:19-26 | Within a slice, column j is selected exactly when column W-1-j is. |
| Voxels.EmptySliceFillsNothing | internal/voxels/voxel_hull.go:18-26 | A slice of zero width or zero keel selects no cell. In Go the division gives +Inf or NaN, and neither is <= 1. |
| Voxels.CellAfterUnselected | internal/voxels/voxel_hull.go:26-29 | A cell that no hull selects keeps its initial value. |
| Voxels.CellAfterLastSelecting | internal/voxels/voxel_hull.go:14-28 | Where hulls overlap, the cell holds the index of the last hull in the list that selects it. |
| Voxels.SelectsSymmetric | internal/voxels/voxel_hull.go:16-26 | A hull selects column j of a slice exactly when it selects column W-1-j. |
| Voxels.CellAfterSymmetric | internal/voxels/voxel_hull.go:14-31 | The finished volume is symmetric across its width. |
| Voxels.ExampleCentreFilled | internal/voxels/voxel_hull.go:10-37 | In any 88 by 26 by 8 hull file whose only hull is the tapered profile, the centre cell of the widest slice receives the hull's index. |

## Left out

- `FromFile` (internal/hull/hull.go:109-127): file reading and JSON decoding are I/O.
- `UnmarshalJSON` (internal/hull/tween_algorithm.go:51-59): it depends on the JSON library. Its effect is `GetTweenAlgorithmFromName` applied to the decoded string.
- The foreign voxel library (`magica.NewVoxelObject`, `geometry.NewPoint`, `palette.GetDefault`): it is replaced by the `VoxelObject` class. Its volume is taken to start with every cell 0, and the palette is not modelled.
- `SaveToFile`: the external writer is a parameter `saveToFile`, a function from the output name to an optional error.
- cmd/humber.go: command-line parsing, logging and progress output are not part of this model.
- IEEE-754 arithmetic: reals are exact, so rounding, overflow to infinity and NaN are not modelled. The one place where the program relies on infinity or NaN, the ellipse test with a zero semi-axis, is an explicit branch that selects nothing.
- `math.Sqrt` is an uninterpreted parameter.
- Integer widths: Go `int` is unbounded here, and the volume sizes are `nat`. With a negative width or height Go's hull and slice loops still run but no cell is written; what the foreign library does with a negative size is not part of this model.
- Hulls.GetDimensions: it requires a positive length and non-zero spacing between adjacent starts at every tangent division the scan reaches (`WellSpaced`). A zero length makes Go's fraction Inf or NaN. Coincident adjacent starts make only a tangent Inf or NaN, and only the Spline branch reads it, so Go still gives finite dimensions for such a step profile under the other algorithms. The precondition excludes step profiles for every algorithm, and the model says nothing about them.
- Voxels.Rasterize: it requires every slice of every hull to be well spaced (`AllRasterizable`), because it calls `Hulls.GetDimensions` for each slice; step profiles are excluded as above.
- Voxels.RasterizeHull: it requires every slice of its hull to be well spaced (`Rasterizable`), because it calls `Hulls.GetDimensions` for each slice; step profiles are excluded as above.
- Voxels.WriteHull: it requires every slice of every hull to be well spaced (`AllRasterizable`), inherited from `Voxels.Rasterize`; step profiles are excluded as above.
- Voxel bytes are integers in 0..255 (`Byte`). Strings are sequences of characters, not UTF-8 bytes.
