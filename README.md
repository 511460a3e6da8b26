# Zonal-mean mass stream function and Hadley-cell bounds

This is a Dafny model of two routines from the `meteorology` package of kw_lib.

- **The mass stream function.** `mass_stream_func` averages the meridional wind over longitude. It lines the latitude and pressure arrays up with the result and puts the levels in ascending order. It then integrates `dv * dp` (the layer-mean wind times the layer thickness) down the pressure axis and multiplies by the geometric factor `2*pi*R_e*cos(lat)/g`. The routine exists twice:
  - `meteorology/mass_stream_func.py` returns `(psi, p)`;
  - `meteorology/hadley_cell_bounds.py` also returns the first row of the truncated latitude grid.
- **The Hadley-cell detector.** `hadley_cell_bounds` and its helper `zero_cross` implement the method of Stachnik and Schumacher (2011). The detector first finds the critical latitudes: the stream-function maximum north of the equator and the minimum at or south of it, both taken at pressures of at most 800 hPa (p <= 8e4 Pa). It then finds the zero crossings, over latitude, of the 700-400 hPa mean stream function. The northern boundary is the first crossing beyond the northern critical latitude. The southern boundary is the last crossing before the southern critical latitude.

Files:

- `common.dfy`: `Option`, `Result` and the `Error` kinds. Errors are returned in the order the program raises them. Each `Error` kind stands for one exception the program raises, with two exceptions to the rule, both listed under "## Left out":
  - `AllMissing` stands for no exception: the program's `nanmean` yields NaN there and carries on;
  - `ShapeMismatch` on a 2-D coordinate also covers shapes that numpy would broadcast without raising.
- `array_ops.dfy` (module `ArrayOps`): the subset of numpy that is used. This covers `nanmean`, transpose, reversal along an axis, `cumsum`, `where`, `argmax`/`argmin` with `unravel_index`, and fancy-index sub-arrays, with shapes passed explicitly.
- `stream_function.dfy` (module `StreamFunction`): the stream-function engine `Compute` and `mass_stream_func.py`'s `MassStreamFunc`.
- `hadley_cell.dfy` (module `HadleyCell`): `zero_cross` as a method with a loop, the boundary selection, the `hadley_cell_bounds.py` copy of `mass_stream_func`, and `hadley_cell_bounds`.

Modelling choices:

- Numbers are `real`. A missing (NaN) wind sample is `None`.
- A 3-D wind `Field` carries its dimensions, so that empty dimensions are represented.
- A latitude or level argument is a `Coord`: either 1-D (`Axis`) or 2-D (`Grid2`).
- The transcendental factor `2*pi*R_e*cos(radians(lat))/g` is the parameter `scale`.
- The windspharm decomposition into an irrotational wind is the parameter `decomposer`. It is `None` when the library failed to import. It returns the latitude as the library reordered it, together with a wind of the input's shape. A 1-D latitude of N values comes back 1-D with N values, since `order_latdim` at most reverses it.
- For L levels and N latitudes in the documented layout, `psi` has L-1 rows of N entries and `p` has L-1 entries. The returned latitude axis keeps all N latitudes, because `lat[:-1,:]` drops a level row, not a latitude.
- A square grid (N = L) with a 1-D latitude is a special case. Line 47 of `meteorology/mass_stream_func.py` (line 60 of the copy) then sees `lat.size == dims[0]` and transposes the documented [nlvl, nlat] mean wind, so the cumulative sum runs over latitude rather than pressure. `Orient` models this behaviour as written. The shapes are as above, so `RegularShapes` and both `MassStreamFunc` contracts include square grids.

## Model

| member | source | states |
|---|---|---|
| ArrayOps.Transpose | meteorology/mass_stream_func.py:47-48 | the transpose has the swapped shape, and entry (i, j) is the input's (j, i) |
| ArrayOps.Reverse | meteorology/mass_stream_func.py:60-61 | `a[::-1]`: same length, and entry i is the input's entry n-1-i |
| ArrayOps.ReverseReverse | meteorology/mass_stream_func.py:60-61 | reversing twice gives back the input |
| ArrayOps.DropLast | meteorology/mass_stream_func.py:52 | `s[:-1]` has one entry fewer (none when `s` is empty), and keeps the entries before the last |
| ArrayOps.NanMean | meteorology/mass_stream_func.py:44 | `nanmean` of one line is missing exactly when every sample is missing; otherwise it is the mean of the present samples, as described by `NanMeanIgnoresMissing` and `NanMeanConstant` |
| ArrayOps.NanMeanIgnoresMissing | meteorology/mass_stream_func.py:44 | inserting a missing sample anywhere leaves the nanmean unchanged |
| ArrayOps.NanMeanConstant | meteorology/mass_stream_func.py:44 | if every present sample equals v0, the nanmean is v0 when one is present and missing when all are missing |
| ArrayOps.MeanBounds | meteorology/hadley_cell_bounds.py:142 | a mean lies within any bounds that hold for all its values |
| ArrayOps.CumSum | meteorology/mass_stream_func.py:68 | `cumsum(axis=0)` keeps the shape; its entries are the column prefix sums (`CumSumIsColumnSum`, `CumSumStep`) |
| ArrayOps.CumSumIsColumnSum | meteorology/mass_stream_func.py:68 | entry (k, j) of `cumsum(axis=0)` is the sum of column j over rows 0..k |
| ArrayOps.CumSumStep | meteorology/mass_stream_func.py:68 | the running sum starts at row 0, and row k+1 is row k plus input row k+1 |
| ArrayOps.Where | meteorology/hadley_cell_bounds.py:116-117 | `np.where(test)[0]`: in-range indices that pass the test, strictly increasing, and with no passing index left out |
| ArrayOps.ArgMax | meteorology/hadley_cell_bounds.py:132 | the index of a maximum of a flat array, and the first such index |
| ArrayOps.ArgMin | meteorology/hadley_cell_bounds.py:131 | the index of a minimum, and the first such index |
| ArrayOps.Unravel | meteorology/hadley_cell_bounds.py:133-134 | `unravel_index(k, (rows, cols))` is in range and its row-major position is k |
| ArrayOps.FlattenAt | meteorology/hadley_cell_bounds.py:131-134 | row-major flattening puts cell (a, b) at position a*cols+b |
| ArrayOps.ArgMaxCell | meteorology/hadley_cell_bounds.py:132-134 | the unravelled argmax is a maximum cell, and every earlier cell in row-major order is strictly smaller |
| ArrayOps.ArgMinCell | meteorology/hadley_cell_bounds.py:131-133 | the unravelled argmin is a minimum cell, and every earlier cell is strictly larger |
| ArrayOps.SubGrid | meteorology/hadley_cell_bounds.py:130-132 | `g[rows, :][:, cols]` has shape (len rows, len cols), and entry (a, b) is `g[rows[a]][cols[b]]` |
| StreamFunction.WindToIntegrate | meteorology/mass_stream_func.py:34-42 | fails exactly when the run is not global and the library is missing; a global run uses `vv` and `lat` untouched |
| StreamFunction.GlobalIgnoresDecomposer | meteorology/mass_stream_func.py:34-36 | a global run gives the same result whatever the decomposition library is |
| StreamFunction.LonMean | meteorology/mass_stream_func.py:44 | `nanmean(vv, axis=2)` has shape (nlvl, nlat), and each cell is the nanmean of its longitudes |
| StreamFunction.LonMeanOfConstant | meteorology/mass_stream_func.py:44 | a cell whose present samples all equal v0, with at least one present, averages to v0 |
| StreamFunction.Orient | meteorology/mass_stream_func.py:45-50 | a 1-D latitude of the first dimension's size transposes the wind; other sizes fail unless they equal the second dimension; every row of the repeated latitude is the input latitude; a 2-D latitude leaves the wind unchanged |
| StreamFunction.LevelGrid | meteorology/mass_stream_func.py:54-55 | a 1-D level array succeeds exactly when it has one entry per row, and row i is then constantly `lvl[i]` |
| StreamFunction.Ascending | meteorology/mass_stream_func.py:57-61 | afterwards `lvl[0,0] <= lvl[-1,0]`; levels and wind are either both unchanged or both reversed; they are unchanged when already ascending |
| StreamFunction.AscendingOfReversed | meteorology/mass_stream_func.py:57-61 | reversing both inputs beforehand gives the same ordered pair, unless the end levels are equal |
| StreamFunction.LayerDiff | meteorology/mass_stream_func.py:63 | `dp` has L-1 rows, and `dp[i][j] = lvl[i+1][j] - lvl[i][j]` |
| StreamFunction.LayerMean | meteorology/mass_stream_func.py:64 | `dv` has L-1 rows, and `dv[i][j] = (vv[i+1][j] + vv[i][j]) / 2` |
| StreamFunction.LayerDiffTelescopes | meteorology/mass_stream_func.py:63 | the running sum of `dp` up to row k is `lvl[k+1] - lvl[0]` |
| StreamFunction.Midpoints | meteorology/mass_stream_func.py:66 | `p` has L-1 entries, and each is equidistant from, and between, the two adjacent first-column levels |
| StreamFunction.Layers | meteorology/mass_stream_func.py:57-64 | the layer winds and thicknesses after ordering both have L-1 rows |
| StreamFunction.Scaled | meteorology/mass_stream_func.py:67-68 | each cell is the scale of its latitude times the integral |
| StreamFunction.Psi | meteorology/mass_stream_func.py:67-68 | the scaled running integral of `dv * dp` keeps the layers-by-columns shape; its rows are determined by `PsiIsRunningIntegral` when each column's latitude is constant, and `PsiOfZeroWind` gives zero psi for zero wind |
| StreamFunction.PsiIsRunningIntegral | meteorology/mass_stream_func.py:67-68 | `psi[0][j] = scale * dv[0][j] * dp[0][j]`, and where the latitude is the same on rows k and k+1, `psi[k+1][j] - psi[k][j] = scale * dv[k+1][j] * dp[k+1][j]` |
| StreamFunction.PsiOfZeroWind | meteorology/mass_stream_func.py:67-68 | zero layer winds give zero psi everywhere |
| StreamFunction.ZeroWindGivesZeroPsi | meteorology/mass_stream_func.py:57-68 | an all-zero wind gives an all-zero psi, whatever the levels, their order and the latitudes |
| StreamFunction.Integrate | meteorology/mass_stream_func.py:57-68 | psi has L-1 rows by the grid's columns, `p` has L-1 entries, and the latitude passed in is returned |
| StreamFunction.IntegrateOfReversed | meteorology/mass_stream_func.py:57-68 | psi, p and lat do not depend on the order in which the levels are given, unless the end levels are equal |
| StreamFunction.Compute | meteorology/mass_stream_func.py:34-68 | fails with `NoDecomposer` exactly when non-global without the library; psi, p and the latitude grid have equal lengths and equal row widths |
| StreamFunction.RegularShapes | meteorology/mass_stream_func.py:34-68 | for levels-by-latitudes input with 1-D coordinates, in global and in zonal-subset mode, square grids included: succeeds exactly when the wind to integrate exists, both sizes are non-empty and, with two or more levels, no cell of the longitude mean of that wind is all-missing; psi is (L-1) x N; p has L-1 entries; every latitude row is the latitude the wind step handed on (the input latitude in a global run) |
| StreamFunction.ComputeAfterWind | meteorology/mass_stream_func.py:34-68 | once the wind step has succeeded, the result equals a global run on the library's wind and latitude: lines 44-68 never look at `Global` again |
| StreamFunction.GlobalShapes | meteorology/mass_stream_func.py:44-68 | the shape contract of `RegularShapes` for a global run, stated on `vv` and `lat` themselves |
| StreamFunction.NoMissingTranspose | meteorology/mass_stream_func.py:47-48 | transposing the mean wind neither creates nor removes an all-missing cell |
| StreamFunction.MassStreamFunc | meteorology/mass_stream_func.py:12-70 | returns only (psi, p), of equal lengths; fails with `NoDecomposer` exactly when non-global without the library; for levels-by-latitudes input with 1-D coordinates, in either mode and square grids included, succeeds under the same conditions as `RegularShapes`, with psi of (L-1) x N and p of L-1 entries |
| HadleyCell.CrossAt | meteorology/hadley_cell_bounds.py:17-20 | a pair emits nothing exactly when its first sample is non-zero and there is no strict sign change |
| HadleyCell.CrossAtMeaning | meteorology/hadley_cell_bounds.py:17-20 | a zero first sample emits `x[i]`; a strict sign change emits a point where the linear interpolant vanishes, strictly between `x[i]` and `x[i+1]` when they differ |
| HadleyCell.InterpolantVanishes | meteorology/hadley_cell_bounds.py:20 | the interpolation formula gives the zero of the line through the two samples, between the two coordinates |
| HadleyCell.CrossingsUpTo | meteorology/hadley_cell_bounds.py:15-20 | after n steps the list has at most n entries |
| HadleyCell.Crossings | meteorology/hadley_cell_bounds.py:14-21 | at most `x.size - 1` crossings |
| HadleyCell.ZeroCross | meteorology/hadley_cell_bounds.py:14-21 | the loop returns exactly the list of `Crossings` |
| HadleyCell.CrossIndices | meteorology/hadley_cell_bounds.py:16-20 | the indices of the pairs that emit: in range, each one emitting, strictly increasing, none left out |
| HadleyCell.CrossingsAtIndices | meteorology/hadley_cell_bounds.py:16-21 | the k-th value returned is the crossing of the k-th emitting pair, so values come in increasing pair order |
| HadleyCell.NoCrossingsIff | meteorology/hadley_cell_bounds.py:16-21 | the list is empty exactly when no pair has a zero first sample or a strict sign change |
| HadleyCell.FinalZeroNotEmitted | meteorology/hadley_cell_bounds.py:16-19 | a zero in the last sample after a non-zero one adds nothing |
| HadleyCell.WhereMembers | meteorology/hadley_cell_bounds.py:116-124 | an index is selected exactly when it is in range and passes the test |
| HadleyCell.WhereEmpty | meteorology/hadley_cell_bounds.py:118-128 | a selection is empty exactly when no entry passes its test |
| HadleyCell.MidBandInLowBand | meteorology/hadley_cell_bounds.py:116-121 | every 700-400 hPa index is also an index at a pressure of at most 800 hPa (p <= 8e4 Pa), so the second check cannot fail once the first passes |
| HadleyCell.HemispheresPartition | meteorology/hadley_cell_bounds.py:123-124 | every latitude index is in exactly one hemisphere, and the two counts add up to the number of latitudes |
| HadleyCell.MaxCellOver | meteorology/hadley_cell_bounds.py:130-134 | the argmax of the sub-array, taken back to indices of psi, is a maximum over the selected rows and columns, and the first one in row-major order |
| HadleyCell.MinCellOver | meteorology/hadley_cell_bounds.py:130-133 | the same for argmin |
| HadleyCell.NorthPeak | meteorology/hadley_cell_bounds.py:132-139 | `psi_N_star` and `p_N_star`: a cell at a pressure of at most 800 hPa (p <= 8e4 Pa) and north of the equator with the largest psi there, the first in row-major order |
| HadleyCell.SouthTrough | meteorology/hadley_cell_bounds.py:131-140 | `psi_S_star` and `p_S_star`: the first cell with the smallest psi at a pressure of at most 800 hPa (p <= 8e4 Pa) and at or south of the equator |
| HadleyCell.BandMean | meteorology/hadley_cell_bounds.py:142 | the 700-400 hPa mean has one value per latitude; each lies within the range of that column's selected values (`BandMeanBounds`, `BandMeanPositive`) |
| HadleyCell.BandMeanBounds | meteorology/hadley_cell_bounds.py:142 | each column's 700-400 hPa mean lies within the range of that column's values |
| HadleyCell.BandMeanPositive | meteorology/hadley_cell_bounds.py:142 | the band mean of positive values is positive |
| HadleyCell.BandCrossings | meteorology/hadley_cell_bounds.py:142 | at most N-1 crossings of the band mean over latitude |
| HadleyCell.Normalize | meteorology/hadley_cell_bounds.py:143 | afterwards `cross[0] <= cross[-1]`; the list is the input or its reversal; it is unchanged when already in order |
| HadleyCell.NormalizeMembers | meteorology/hadley_cell_bounds.py:143 | normalising keeps exactly the same crossings |
| HadleyCell.NormalizeIdempotent | meteorology/hadley_cell_bounds.py:143 | normalising twice is normalising once |
| HadleyCell.NormalizeOfReversed | meteorology/hadley_cell_bounds.py:143 | the normalised list does not depend on the order the crossings were found in, unless the end points are equal |
| HadleyCell.FirstAbove | meteorology/hadley_cell_bounds.py:145-146 | absent exactly when no crossing exceeds the critical latitude; otherwise a crossing beyond it with none beyond it earlier in the list |
| HadleyCell.LastBelow | meteorology/hadley_cell_bounds.py:148-149 | absent exactly when no crossing is below the critical latitude; otherwise a crossing below it with none below it later in the list |
| HadleyCell.BoundsOf | meteorology/hadley_cell_bounds.py:116-149 | each error exactly when its check fails, in the program's order; `NoLowBand` never occurs; success exactly when the selections are non-empty and there is a crossing; the boundaries are then the first crossing beyond the northern critical latitude and the last before the southern one |
| HadleyCell.BoundsAreCrossings | meteorology/hadley_cell_bounds.py:136-149 | a northern boundary that is found is a crossing beyond a positive critical latitude; a southern one is a crossing below a non-positive critical latitude |
| HadleyCell.BoundsOfGuarded | meteorology/hadley_cell_bounds.py:100-103 | the intended behaviour: never fails for lack of crossings, reports no boundary then, and otherwise agrees with the program |
| HadleyCell.PositivePsiFails | meteorology/hadley_cell_bounds.py:142-143 | a positive stream function makes the program fail, while the guarded version reports no boundaries |
| HadleyCell.MassStreamFunc | meteorology/hadley_cell_bounds.py:23-83 | like the standalone copy, plus the first latitude row; psi has one row per entry of p and N columns; for levels-by-latitudes input with 1-D coordinates, in either mode and square grids included, it succeeds exactly when the wind to integrate exists, there are two or more levels and at least one latitude, and no cell of that wind's longitude mean is all-missing; it then returns the latitude the wind step handed on (the input latitude in a global run) |
| HadleyCell.HadleyCellBounds | meteorology/hadley_cell_bounds.py:85-151 | fails with `NoDecomposer` exactly as the stream function does and never with `NoLowBand`; a northern boundary is a band-mean crossing north of the equator, a southern one a crossing south of it; psi and p are those of the stream function |
| HadleyCell.HadleyCellBoundsGuarded | meteorology/hadley_cell_bounds.py:85-151 | agrees with `HadleyCellBounds` except that a missing crossing gives two absent boundaries instead of a failure |

## Left out

- The windspharm calls (`prep_data`, `order_latdim`, `VectorWind`, `irrotationalcomponent`, `recover_data`) are foreign code. They are the `decomposer` parameter. It is assumed to return a well-formed latitude and a wind of the input's shape, and to hand a 1-D latitude of N values back as a 1-D latitude of N values (`DecomposerFits`). `uu` only reaches this parameter.
- `np.cos`, `np.radians`, `R_e` and `g` are transcendental floating point. They are the parameter `scale`, a function of latitude.
- The model does not capture IEEE rounding or NaN propagation. Missing samples are `None` cells, and `nanmean` skips them.
- StreamFunction.Compute: in the program, a (level, latitude) cell that is missing at every longitude gives NaN, which then spreads into psi. The model returns `AllMissing` instead. It does so only when there are two or more levels, because with one level no arithmetic reads the wind.
- StreamFunction.Compute: numpy broadcasting of 2-D coordinates is not modelled. A 2-D latitude or level array must have exactly the oriented wind shape, and any other shape gives `ShapeMismatch`. A failed `reshape` of a 1-D coordinate is also `ShapeMismatch`.
- StreamFunction.PsiIsRunningIntegral: the per-row difference is stated only where a column's latitude is the same on both rows. Otherwise the scale differs between the two rows.
- HadleyCell.ZeroCross: requires `y` to be at least as long as `x`. With a shorter `y` the program raises `IndexError` only if the loop reads past the end of `y`. For example, x = [0, 1, 2] and y = [1, 0] returns [1], because the zero at `y[1]` takes the first branch and `y[2]` is never read. The only caller (line 142) passes arrays of equal length.
- The 700-400 hPa mean uses `Mean`, not `nanmean`, because the model's psi has no missing values.
- The `print` calls, the unused `revFlat` flag and the `p_N_star` / `p_S_star` values are not outputs. The critical pressures are still the row of `NorthPeak` / `SouthTrough`.
- The `__main__` block of `meteorology/hadley_cell_bounds.py` (lines 153-209) is not part of this model. It covers argument parsing, netCDF reading, time averaging, longitude selection, printing and plotting.
- `meteorology/zhang_wang_2013_hadley_test.py` is not part of this model. It is a script of file I/O and plotting around one call.
- Exception messages are not modelled. Only the kind of failure is kept.

## Findings

| source | as written | input that shows it | evidently intended | confidence | as-written member | corrected member |
|---|---|---|---|---|---|---|
| meteorology/hadley_cell_bounds.py:142-143 | `cross[0]` is read without checking that `zero_cross` found any crossing, so an empty list raises `IndexError` | a 700-400 hPa mean of one sign at every latitude, e.g. psi = [[1, 2]], p = [50000], latitude = [-10, 10] | both boundaries NaN ("Will be NaN if no boundary found!", lines 100-103) | not executed | HadleyCell.PositivePsiFails | HadleyCell.BoundsOfGuarded |
