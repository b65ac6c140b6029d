# Country grids and the resampling post-processing of poets

This project models two parts of poets, a Python package that clips
satellite images to a country and resamples them onto a regular
longitude/latitude lattice. It proves properties of the model in
Dafny.

- **The country grid** (`poets/grid/grids.py`).
  - `_minmaxcoord` snaps a bounding interval to the cell centres of a
    zero-anchored lattice with spacing `res`.
  - `CountryGrid.__init__` builds one candidate axis per direction with
    `arange`.
  - `_remove_blank_frame` trims, from each of the four sides, the lines
    with no point inside the country. It scans at most half of each axis.
  - The trimmed axes are meshed and flattened into the grid's point
    arrays.
  - `get_country_gridpoints` filters a bounding-box query down to the
    point indices (gpis) inside the country.
  - The four predefined global grids use the same layout.
- **The resampling post-processing** (`poets/image/resampling.py`).
  - `_create_grid` picks a global grid from the spatial resolution.
  - `resample_to_shape` builds the destination lattice from the country
    grid's unique longitudes and its reversed unique latitudes.
  - A double loop builds a boolean mask: a cell is flagged when it is
    outside the country or masked in the first variable.
  - Every masked cell of every variable is filled with -99.
  - Each variable `k` is renamed `prefix_k`.

Coordinates are exact `real`s, so this is the arithmetic the source means,
not IEEE doubles. The country polygon is a parameter
`within: (real, real) -> bool`. Shapely defines `poly.contains(p)` as
`p.within(poly)`, so the trimming test (`grids.py:271`) and the point
selection test (`grids.py:228`) use this one relation: a point exactly
on the boundary is treated the same way by both.

The resolution `Settings.sp_res` is a parameter `res`. `CountryGrid.__init__`
ignores its own `resolution` argument (`grids.py:188`, `197`), so the model
has only one resolution.

The trimming, the gpi filter and the mask, fill and rename steps are loops
in the source. Each becomes a Dafny `method` with loop invariants. Each
method is proved equal to a specification function, and the properties
are lemmas about that function:
- `Trimming.OutsideCount`, `LowTrim`, `HighTrim`, `Deleted` and `TrimAxis` for the trimming
- `CountryGrids.InsidePoints` for the gpi filter
- `Resampling.CountryMask` and `Processed` for the mask, fill and rename steps

Modules:
- `Common`: options, results, sequence predicates and matrices.
- `Lattice`: `_minmaxcoord`, `arange`, `meshgrid` and flattening, and the
  global grids.
- `Trimming` and `TrimmingProperties`: `_remove_blank_frame` and what it
  guarantees.
- `CountryGrids`: `CountryGrid`.
- `Resampling`: `_create_grid` and `resample_to_shape`.

## Model

| member | source | states |
|---|---|---|
| Lattice.Ceil | poets/grid/grids.py:350 | `int(math.ceil(x))` is the integer `c` with `c - 1 < x <= c` |
| Lattice.Floor | poets/grid/grids.py:351 | `int(math.floor(x))` is the integer `f` with `f <= x < f + 1` |
| Lattice.MinMaxCoord | poets/grid/grids.py:328-363 | both results are cell centres (`v / res - 1/2` is an integer); `min <= minval < min + res` and `max - res < maxval <= max` |
| Lattice.LowerCentre | poets/grid/grids.py:350-356 | the lower end is a cell centre in `[min, min + res)` |
| Lattice.UpperCentre | poets/grid/grids.py:351-361 | the upper end is a cell centre in `(max - res, max]` |
| Lattice.MinCoordIsLeast | poets/grid/grids.py:350-356 | no cell centre at or above `min` is below `minval` |
| Lattice.MaxCoordIsGreatest | poets/grid/grids.py:351-361 | no cell centre at or below `max` is above `maxval` |
| Lattice.MinMaxCoordOrdered | poets/grid/grids.py:328-363 | an interval at least one cell wide gives `minval <= maxval` |
| Lattice.MinMaxCoordCanReverse | poets/grid/grids.py:328-363 | a narrow interval gives a reversed range: `(0.1, 0.2)` with `res = 1` gives `(0.5, -0.5)` |
| Lattice.CentreIndex | poets/grid/grids.py:353-361 | for a cell centre, returns the cell whose centre it is |
| Lattice.CentreIsCentre | poets/grid/grids.py:353-361 | `(k + 1/2) * res` is a cell centre |
| Lattice.CentreStep | poets/grid/grids.py:353-361 | the centres of cells `k < m` are at least one spacing apart, in order |
| Lattice.Arange | poets/grid/grids.py:197-198 | `arange(start, stop, step)`: entry `i` is `start + i*step`, every entry is below `stop`, and the next point would not be |
| Lattice.ArangeHas | poets/grid/grids.py:197-198 | every point `start + i*step` below `stop` is on the range |
| Lattice.ArangeIncreasing | poets/grid/grids.py:197-198 | the range increases strictly |
| Lattice.MeshLon | poets/grid/grids.py:202 | `meshgrid` first output: `len(latdim)` rows, and cell `(i, j)` is `londim[j]` |
| Lattice.MeshLat | poets/grid/grids.py:202 | `meshgrid` second output: cell `(i, j)` is `latdim[i]` |
| Lattice.Flatten | poets/grid/grids.py:204 | row-major `flatten`, the rows one after the other; its length and layout are stated by `FlattenLength` and `FlattenRowCol` |
| Lattice.FlattenLength | poets/grid/grids.py:204-205 | flattening a `rows x cols` array gives `rows * cols` entries |
| Lattice.FlattenRowCol | poets/grid/grids.py:204-205 | entry `(i, j)` lands at position `i * cols + j` |
| Lattice.RowOf | poets/grid/grids.py:204-205 | position `k` of a `rows x cols` flattening is in row `k / cols`, column `k % cols` |
| Lattice.RegularGrid | poets/grid/grids.py:202-205 | the grid has shape `(len(latdim), len(londim))` and `len(latdim) * len(londim)` points |
| Lattice.RegularGridPoint | poets/grid/grids.py:202-205 | point `k` is `(londim[k mod nlon], latdim[k div nlon])` |
| Lattice.RegularGridRowColumn | poets/grid/grids.py:202-205 | the point in row `i`, column `j` has gpi `i * nlon + j` |
| Lattice.GlobalLonAxis | poets/grid/grids.py:34-87 | the longitude axis `arange(-180 + res/2, 180, res)` of a global grid; `GlobalGridShape` states its length and first entry |
| Lattice.GlobalLatAxis | poets/grid/grids.py:34-87 | the latitude axis `arange(-90 + res/2, 90, res)` of a global grid; `GlobalGridShape` states its length and first entry |
| Lattice.GlobalGrid | poets/grid/grids.py:34-87 | `HundredthDegGrid`, `TenthDegGrid`, `QuarterDegGrid`, `OneDegGrid` as the regular grid of the two axes; `GlobalGridShape` states its shape |
| Lattice.GlobalGridShape | poets/grid/grids.py:34-87 | each global grid has `360/res` longitudes and `180/res` latitudes, starting at the south-western centre `(-180 + res/2, -90 + res/2)`; `OneDegGrid` has 360 and 180 |
| Trimming.OutsideCount | poets/grid/grids.py:268-273 | the checksum is at most the line length, and equals it exactly when no point of the line is inside |
| Trimming.Checksum | poets/grid/grids.py:268-272 | the inner loop computes `OutsideCount` |
| Trimming.LowScan | poets/grid/grids.py:267-276 | the scan from the low end stops at the cap or at the first line with a point inside; every line it passes is blank |
| Trimming.HighScan | poets/grid/grids.py:279-288 | the same for the scan from the high end, on the mirrored indices |
| Trimming.LowTrim | poets/grid/grids.py:267-276 | how many lines the low-side loop deletes: the scan from index 0 capped at `n / 2`; `TrimStopRule` states what it deletes and where it stops |
| Trimming.HighTrim | poets/grid/grids.py:279-288 | how many lines the high-side loop deletes; `TrimStopRule` states what it deletes and where it stops |
| Trimming.FrameIndices | poets/grid/grids.py:274-286 | the collected indices are `0 .. lo-1` and then `n-1, n-2, ..., n-hi` |
| Trimming.FrameIndicesGrowLow | poets/grid/grids.py:274 | one more deleted index on the low side appends `lo` |
| Trimming.FrameIndicesGrowHigh | poets/grid/grids.py:286 | one more deleted index on the high side appends `n - 1 - hi` |
| Trimming.Deleted | poets/grid/grids.py:266-288 | the list `del_lons` (or `del_lats`) in the order the loops append it; `DeletedAreBlank`, `FrameSidesDisjoint` and `DeletedInRange` state its properties |
| Trimming.TrimAxis | poets/grid/grids.py:314-323 | the axis that remains, `axis[lo .. n - hi]`; `KeepDeletedIsTrim` proves the removal loop leaves exactly this |
| Trimming.ScanDeletions | poets/grid/grids.py:266-312 | the two scanning loops of one axis collect exactly `Deleted` |
| Trimming.RemoveFirst | poets/grid/grids.py:317-323 | `list.remove(v)` shortens the list by one when `v` is present and leaves it alone otherwise |
| Trimming.KeepIndices | poets/grid/grids.py:317-323 | keeping the entries whose index is not deleted keeps at most the input, and only its values |
| Trimming.KeepIndicesHas | poets/grid/grids.py:317-323 | on an axis without repeats, a value survives exactly when its index is not deleted |
| Trimming.RemoveFirstAppend | poets/grid/grids.py:317-323 | `remove` on a concatenation acts on the first part that holds the value |
| Trimming.RemoveFirstIsIndexRemoval | poets/grid/grids.py:317-323 | on an axis without repeats, removing the value at index `i` is removing index `i` |
| Trimming.RemoveEarlierIndex | poets/grid/grids.py:317-323 | the same, for an index before the last |
| Trimming.RemoveLastIndex | poets/grid/grids.py:317-323 | the same, for the last index |
| Trimming.KeepIndicesSame | poets/grid/grids.py:317-323 | deleted sets that agree on the axis's indices keep the same entries |
| Trimming.KeepIndicesNone | poets/grid/grids.py:317-323 | deleting every index leaves nothing |
| Trimming.KeepIndicesTail | poets/grid/grids.py:317-323 | deleted indices past `hi` can be cut off first |
| Trimming.KeepIndicesFrom | poets/grid/grids.py:317-323 | deleting exactly the indices below `lo` keeps `s[lo..]` |
| Trimming.KeepIndicesBand | poets/grid/grids.py:317-323 | deleting everything outside `[lo, hi)` keeps the slice `s[lo..hi]` |
| Trimming.RemoveStep | poets/grid/grids.py:318-319 | one guarded `remove` that follows the deleted prefix keeps removing by index |
| Trimming.RemoveListed | poets/grid/grids.py:314-323 | on an axis without repeats, the removal loop keeps exactly the entries whose index was not collected |
| Trimming.RemoveBlankFrame | poets/grid/grids.py:238-325 | on axes without repeats, longitudes are trimmed against the untrimmed latitudes and latitudes against the untrimmed longitudes, giving `TrimAxis` for each |
| Trimming.DeletedInRange | poets/grid/grids.py:274-286 | every collected index is an index of the axis |
| Trimming.KeepDeletedIsTrim | poets/grid/grids.py:314-323 | removing the collected indices leaves the band `axis[lo .. n - hi]` |
| TrimmingProperties.TrimStopRule | poets/grid/grids.py:267-312 | both scans are capped at `n / 2`; the deleted prefix and suffix are blank; the line where a scan stopped short of its cap has a point inside and is kept |
| TrimmingProperties.DeletedAreBlank | poets/grid/grids.py:266-289 | every deleted line has no point inside for any value of the untrimmed other axis |
| TrimmingProperties.FrameSidesDisjoint | poets/grid/grids.py:267-319 | low-side indices are `< n/2` and high-side ones `>= n - n/2`; the collected indices are distinct; the output has `n - len(del)` entries |
| TrimmingProperties.InsideLineSurvives | poets/grid/grids.py:273-288 | a line with a point inside is never deleted and keeps its value |
| TrimmingProperties.OddMiddleSurvives | poets/grid/grids.py:267-279 | with an odd number of lines the middle one always survives |
| TrimmingProperties.LowScanAllBlank | poets/grid/grids.py:267-276 | over blank lines the low scan runs to its cap |
| TrimmingProperties.HighScanAllBlank | poets/grid/grids.py:279-288 | over blank lines the high scan runs to its cap |
| TrimmingProperties.EvenAllBlankEmpties | poets/grid/grids.py:267-319 | an even axis of blank lines ends up empty, and nothing checks for this |
| TrimmingProperties.EndsNotBlankKeepsAll | poets/grid/grids.py:273-288 | when both end lines hold a point inside, nothing is trimmed |
| TrimmingProperties.KeptLineNotBlank | poets/grid/grids.py:291-325 | a kept line still has a point inside after the other axis is trimmed |
| TrimmingProperties.TrimAgainKeepsAxis | poets/grid/grids.py:238-325 | when neither scan of an axis reached its cap, a second pass leaves that axis unchanged |
| TrimmingProperties.TrimTwiceWhenUncapped | poets/grid/grids.py:238-325 | when no scan reached its cap, trimming twice equals trimming once |
| TrimmingProperties.FirstPassOnSix | poets/grid/grids.py:267-276 | on longitudes `0..5` with inside points at longitude 4 and above, one pass keeps `[3, 4, 5]` |
| TrimmingProperties.SecondPassOnThree | poets/grid/grids.py:267-276 | a second pass on `[3, 4, 5]` keeps `[4, 5]` |
| TrimmingProperties.TrimTwiceCanRemoveMore | poets/grid/grids.py:238-325 | trimming is not idempotent in general: a scan stopped by the half-way cap can remove more on a second pass |
| CountryGrids.CentreOffset | poets/grid/grids.py:197-198 | moving `i` steps of `res` from a centre reaches the centre `i` cells on |
| CountryGrids.CentreMonotone | poets/grid/grids.py:197-198 | cell centres are ordered like their cells |
| CountryGrids.CandidateAxis | poets/grid/grids.py:194-198 | `arange(minval, maxval + res, res)` after `_minmaxcoord`; `CandidateAxisAt`, `CandidateAxisWithin` and `CandidateAxisCovers` state its entries |
| CountryGrids.CandidateAxisAt | poets/grid/grids.py:194-198 | entry `i` of the candidate axis is the centre `i` cells above `minval` |
| CountryGrids.CandidateAxisWithin | poets/grid/grids.py:194-198 | the candidate axis increases strictly, and its entries are cell centres within the bounding interval |
| CountryGrids.CandidateAxisCovers | poets/grid/grids.py:194-198 | every cell centre within the bounding interval is on the candidate axis |
| CountryGrids.CandidateAxisDistinct | poets/grid/grids.py:197-198 | the candidate axis has no repeated value, so value-based removal is index removal |
| CountryGrids.CountryLonAxis | poets/grid/grids.py:194-200 | the longitude candidate axis trimmed against the untrimmed latitudes; `CountryAxesIncreasing` and `TrimmedAxisWithin` state its properties |
| CountryGrids.CountryLatAxis | poets/grid/grids.py:194-200 | the latitude candidate axis trimmed against the untrimmed longitudes; `CountryAxesIncreasing` and `TrimmedAxisWithin` state its properties |
| CountryGrids.CountryLattice | poets/grid/grids.py:188-205 | the country grid meshed from the two trimmed axes; `CountryLatticeInBox` and `CountryLatticeKeepsInside` state which points it has |
| CountryGrids.CountryAxesIncreasing | poets/grid/grids.py:194-200 | both trimmed axes increase strictly |
| CountryGrids.NewCountryGrid | poets/grid/grids.py:188-205 | the constructor keeps the country and shape, and its grid is the meshed, flattened pair of trimmed candidate axes |
| CountryGrids.TrimmedAxisWithin | poets/grid/grids.py:194-200 | every trimmed-axis entry is a cell centre within the bounding interval |
| CountryGrids.CountryLatticeInBox | poets/grid/grids.py:188-205 | every point of the country grid is a cell centre inside the bounding box |
| CountryGrids.TrimmedGridKeepsPoint | poets/grid/grids.py:200-205 | a candidate point inside the polygon is a point of the trimmed grid |
| CountryGrids.GridHasPoint | poets/grid/grids.py:202-205 | the grid holds the point of every row and column |
| CountryGrids.CountryLatticeKeepsInside | poets/grid/grids.py:188-205 | every cell centre in the bounding box and inside the polygon is a point of the country grid |
| CountryGrids.InsidePoints | poets/grid/grids.py:226-231 | the selected gpis are valid indices of the grid |
| CountryGrids.InsidePointsMembers | poets/grid/grids.py:218-235 | a gpi is selected exactly when it is in the box and the polygon contains its point |
| CountryGrids.InsidePointsInBoxOrder | poets/grid/grids.py:226-231 | the selected gpis are a subsequence of the box, in box order |
| CountryGrids.SubsequenceExtend | poets/grid/grids.py:226-231 | a subsequence stays one when the sequence grows |
| CountryGrids.SubsequenceDropLast | poets/grid/grids.py:226-231 | dropping the last element of a subsequence keeps a subsequence |
| CountryGrids.GetCountryGridpoints | poets/grid/grids.py:207-235 | the loop returns `InsidePoints`, with `lons` and `lats` aligned index by index |
| Resampling.CreateGrid | poets/image/resampling.py:31-50 | a grid exists exactly for resolutions 0.01, 0.1, 0.25 and 1; for every one but 0.25 it has the requested spacing |
| Resampling.CreateGridQuarterIsTenth | poets/image/resampling.py:45-46 | resolution 0.25 yields the 0.1-degree grid, whose spacing is not 0.25 and which has 3600 x 1800 points |
| Resampling.CreateGridIntended | poets/image/resampling.py:31-50 | the corrected dispatch: a grid exists for the same four resolutions, always with the requested spacing |
| Resampling.CreateGridIntendedShape | poets/image/resampling.py:45-46 | for every accepted resolution, 0.25 included, the corrected dispatch gives a grid of `360/res` longitudes by `180/res` latitudes |
| Resampling.CreateGridAgreesElsewhere | poets/image/resampling.py:41-48 | both dispatches agree on every resolution but 0.25 |
| Resampling.Insert | poets/image/resampling.py:93-94 | inserting into a strictly increasing sequence keeps it strictly increasing and adds exactly that value |
| Resampling.SortedUnique | poets/image/resampling.py:93-94 | `np.unique` is strictly increasing and holds exactly the values of its input |
| Resampling.IncreasingByValues | poets/image/resampling.py:93-94 | two strictly increasing sequences with the same values are equal |
| Resampling.UniqueOfIncreasing | poets/image/resampling.py:93-94 | `np.unique` of a strictly increasing axis is that axis |
| Common.Reversed | poets/image/resampling.py:94 | numpy `[::-1]`: same length, entry `i` is entry `n - 1 - i` of the input |
| Resampling.DestinationMesh | poets/image/resampling.py:93-94 | `meshgrid(unique(arrlon), unique(arrlat)[::-1])`; `DestinationMeshLayout` states its shape and cells |
| Resampling.GridLongitudes | poets/image/resampling.py:93 | the longitudes of a grid with at least one row are its longitude axis |
| Resampling.GridLatitudes | poets/image/resampling.py:94 | the latitudes of a grid with at least one column are its latitude axis |
| Resampling.DestinationMeshLayout | poets/image/resampling.py:93-94 | the destination lattice has the grid's shape; cell `(i, j)` is `(londim[j], latdim[rows-1-i])`, so rows run from north to south |
| Resampling.CountryMask | poets/image/resampling.py:102-112 | the mask has the grid's shape |
| Resampling.BuildMask | poets/image/resampling.py:102-112 | cell `(i, j)` is set exactly when the destination point is not within the polygon or the first variable is masked there |
| Resampling.Cells | poets/image/resampling.py:102-112 | the array's rows hold its cells |
| Resampling.WithMask | poets/image/resampling.py:116 | `masked_array(x, mask=mask)` with the default `keep_mask`: the new mask is the given one or the variable's own; `ProcessedCells` states its effect within one pass of the loop |
| Resampling.FillMasked | poets/image/resampling.py:117-118 | the copy with -99 in every flagged cell; `ProcessedCells` states its effect within one pass of the loop |
| Resampling.BuiltMaskIsCountryMask | poets/image/resampling.py:102-112 | the array the double loop fills is `CountryMask` |
| Resampling.Processed | poets/image/resampling.py:116-119 | a processed variable keeps the grid's shape |
| Resampling.ProcessedCells | poets/image/resampling.py:116-119 | the output mask is the country mask; a cell flagged by it or by the variable's own mask holds -99; any other cell keeps its resampled value |
| Resampling.Prefixed | poets/image/resampling.py:79-115 | the new name `prefix + '_' + key`; `PrefixedInjective` states that it is injective in the key |
| Resampling.PrefixedInjective | poets/image/resampling.py:115 | different keys get different new names under one prefix |
| Resampling.RenameStep | poets/image/resampling.py:114-120 | one pass of the renaming loop keeps its invariant |
| Resampling.UntouchedStep | poets/image/resampling.py:114-120 | later variables are still present and unchanged after a pass |
| Resampling.RenamedStep | poets/image/resampling.py:115-119 | the renamed variables so far, plus the new one, hold their processed fields |
| Resampling.RemovedStep | poets/image/resampling.py:120 | the renamed originals so far, plus the new one, are gone; every key is an original or a new name |
| Resampling.RenamedAll | poets/image/resampling.py:114-120 | after the last pass every key is a new name |
| Resampling.ShapesStep | poets/image/resampling.py:114-120 | one pass keeps every variable shaped and the later ones present |
| Resampling.RenameAndFill | poets/image/resampling.py:114-120 | without name collisions: each `prefix_k` holds the processed field of `k`, every original key is gone, and every key is some `prefix_k` |
| Resampling.ResampleToShape | poets/image/resampling.py:78-122 | `ValueError` exactly when the country grid has no point (`arrlat.min()` of an empty array at line 96); otherwise `IndexError` exactly when there is no variable; otherwise `TypeError` exactly when there is no prefix; otherwise returns the destination lattice of the country grid, and the renamed, masked and filled variables over the country mask drawn from the first variable |

## Left out

- Geometry: shapefile loading (`Shape(country)`) and shapely are not modelled. The polygon is the parameter `within`, and the bounding box is a field of `Shape`.
- `nc.clip_bbox` and `resample.resample_to_grid` are not modelled. `ResampleToShape` takes the variables already resampled onto the destination lattice, in the lattice's shape. It takes them as a list of keys plus a map, and the first key is the one whose mask is read.
- `ResampleToShape`: it requires every variable to have the country grid's shape, because that is what the resampler produces. A country grid without points never reaches the resampler: the bounding-box query at `resampling.py:96` takes the minimum of an empty array, and the model returns `ValueError` there.
- `RenameAndFill`, `ResampleToShape`: the contents of the output are stated only when no new name `prefix_k` equals an original key. When they collide, the source overwrites and deletes entries in an order-dependent way, and the model does not describe that result.
- `RemoveListed`, `RemoveBlankFrame`: the result is stated only for axes without repeated values. For such axes `list.remove` by value equals removal by index. The axes `CountryGrid` builds are strictly increasing (`CandidateAxisDistinct`), so the constructor is fully specified.
- `get_bbox_grid_points`, `gpi2lonlat` and the kd-tree are part of pytesmo's `BasicGrid` and are not modelled. The box is a given sequence of gpis, and a gpi's point is read from the grid arrays.
- The pandas DataFrame of `get_country_gridpoints` becomes three aligned sequences.
- The `gpis` and `timestamp` results of `resample_to_shape` are not modelled. They come from the external calls above.
- `np.arange` and the whole model use exact arithmetic. The float drift of `arange` with a float step, which can change the element count by one, is not modelled.
- `_create_grid` for an unlisted resolution raises `UnboundLocalError`, because `grid` is never assigned. The model returns `None`. The `setup_kdTree` flag is not modelled.
- `poets/image/geotiff.py` is a GDAL wrapper and is not part of this model.
- `resample_to_gridpoints` is not part of this model. It is pyresample kd-tree resampling, and it calls `getCountryPoints`, which `grids.py` does not define.
- The `fill_falue` misspelling at `resampling.py:119` is an ignored keyword. Only the given mask takes effect, and that is what `Processed` does.
- `TrimTwiceWhenUncapped`: trimming is not idempotent in general, so idempotence is proved only when no scan of the first pass reached its half-way cap. `TrimTwiceCanRemoveMore` gives an input where a second pass removes more.

## Findings

| source | as written | input that shows it | evidently intended | confidence | as-written member | corrected member |
|---|---|---|---|---|---|---|
| poets/image/resampling.py:45-46 | resolution 0.25 builds a `TenthDegGrid` | `Settings.sp_res = 0.25` gives a 3600 x 1800 grid of spacing 0.1 | `QuarterDegGrid`, the grid of spacing 0.25 with `360/0.25` by `180/0.25` points | not executed | Resampling.CreateGridQuarterIsTenth | Resampling.CreateGridIntendedShape |
