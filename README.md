# Radial-profile computations of StagPy's `rprof` module

StagPy post-processes the output of the StagYY mantle-convection code. Its
`rprof` module plots horizontally averaged radial profiles: the simulator
writes, for every timestep, one row per depth level into one flat table, and
the number of depth levels may change between epochs of the run. This
project models the deterministic computations inside the plotting code and
proves what they compute:

- **Row-range resolver** (`ProfileIndex`): from the resolution-change table
  `nzi` (last timestep of each epoch, timesteps in it, rows per timestep)
  and a timestep, the first and last row `ir0`/`ir1` of that timestep's
  block, including Python's negative-index wrap for `inn == 0` and the
  IndexError for `inn == len(nzi)`.
- **Per-step loop** (`ProfileLoop`): the `for step in range(...)` loop of
  `plotprofiles` when temperature profiles are plotted with their difference
  to the overturned initial profile, as a method that appends one maximum
  vertical velocity per timestep to `wmax`, proved against a specification
  function. The exceptions that can abort the loop are modelled: the zero
  `istep` in `num_plots`, the negative count given to `np.linspace`, the
  resolver's IndexError, the time-table lookup for the curve label, the
  empty or one-row profile given to `_extrap` on the first step, the
  subtraction of `temp0` from a profile of another length, and `max` of no
  rows.
- **Energy balance** (`EnergyBalance`): `_calc_energy`, the advective,
  conductive and total heat flux of one timestep's block.
- **Boundary extrapolation** (`Extrapolation`): `_extrap`, `np.interp`
  followed by in-place overwriting of the out-of-range entries of an array
  with values on the boundary lines.
- **Time averaging** (`TimeAverage`): `chunks` and the per-depth mean of
  `plotaveragedprofiles`.
- `PyBuiltins` holds the Python and numpy primitives these rely on
  (`sorted`, `list.index`, `max`, `range`, slicing, `int()` on a float, the
  exceptions raised), and `ProfileTable` the table's column layout.

All numbers are Dafny `real`; floating-point rounding, `inf` and `nan` are
not modelled. The exceptions that the resolver, the per-step loop, the time
averaging and the two boundary quotients of `_calc_energy` raise are
modelled as `Err(IndexError)`, `Err(ValueError)` or
`Err(ZeroDivisionError)`. The interior quotients of `_calc_energy` and of
`_extrap` are numpy array divisions, which give `inf` or `nan` instead of
raising; those are kept out by preconditions (see "Left out").

`plotprofiles` needs a numpy release older than 1.18, in which `np.float`
still exists and `np.linspace` accepts the float `num_plots` as its count
(truncating it with `int()`); the loop model follows that behaviour.
`plotaveragedprofiles` runs on any release; for chunks of unequal length
the model follows numpy 1.24 and later, which raise ValueError (the
older behaviour is listed under "Left out").

For a resolution table with a single row `(L, L, nz)`, a timestep
`step <= L` gets `inn == 0`, so `nzi[inn - 1]` is that same row and `ir0`
is `(step - L - 1) * nz`, a negative number, and not `(step - 1) * nz`.
`ProfileIndex.ConstantResolution` shows that a leading row with boundary 0
gives `(step - 1) * nz` directly, and `ProfileLoop.SingleEpochSlice` shows
that with a one-row table the slice `data[ir0:ir1]` still lands on the
right rows, because a negative slice bound counts from the end of a table
of `L * nz` rows.

## Model

| member | source | states |
|---|---|---|
| PyBuiltins.Sorted | stagpy/rprof.py:108 | `sorted` returns an ascending permutation of its input |
| PyBuiltins.IndexOf | stagpy/rprof.py:110 | `list.index` returns the position of the first occurrence |
| PyBuiltins.MaxOf | stagpy/rprof.py:175-176 | `max` of a non-empty list is one of its elements and bounds all of them |
| PyBuiltins.PyRange | stagpy/rprof.py:104 | `range(start, stop, stride)` lists `start + k * stride` while below (above, for a negative stride) `stop`, and the next one would not be |
| PyBuiltins.PySlice | stagpy/rprof.py:175 | a slice has `hi - lo` elements when the wrapped and clamped bounds satisfy `lo < hi` and none otherwise, and is the contiguous run starting at `lo`; in-range bounds give `s[i..j]` |
| PyBuiltins.SliceFromEnd | stagpy/rprof.py:175 | two negative bounds count from the end: `s[i:j]` is `s[n+i : n+j]` |
| PyBuiltins.PyIndex | stagpy/rprof.py:152 | an index into a sequence of length `n` succeeds exactly for `-n <= i < n`, names a position below `n` congruent to `i` modulo `n`, and otherwise raises IndexError |
| PyBuiltins.PyInt | stagpy/rprof.py:99-102 | `int()` of a float truncates toward zero: it is the largest integer not above a non-negative value and the smallest integer not below a negative one |
| ProfileIndex.Inn | stagpy/rprof.py:108-110 | `inn` is the number of boundaries strictly below `step`, whatever the order of `nzi` |
| ProfileIndex.Resolve | stagpy/rprof.py:108-115 | the resolver raises IndexError exactly when `step` lies above every boundary (including an empty table); otherwise `inn` names a row of `nzi` and `ir1 = ir0 + nzi[inn,2] - 1` |
| ProfileIndex.RowsOfSplit | stagpy/rprof.py:112-114 | the row total `np.sum(nnz[...])` of two consecutive runs of epochs is the sum of their totals |
| ProfileIndex.RowsOfBounds | stagpy/rprof.py:112-114 | with non-negative epoch sizes the row total is non-negative and at least the size `nzi[k,1] * nzi[k,2]` of every epoch in it |
| ProfileIndex.ResolveInEpoch | stagpy/rprof.py:108-115 | for sorted boundaries and `nzi[k-1,0] < step <= nzi[k,0]`, `inn == k`, `ir0` is the rows of epochs before `k` plus one block per earlier timestep of epoch `k`, and `ir1 = ir0 + nzi[k,2] - 1` |
| ProfileIndex.ConsecutiveStepsAdjacent | stagpy/rprof.py:114-115 | consecutive timesteps of one epoch get adjacent, non-overlapping blocks: `ir0(step+1) = ir1(step) + 1 = ir0(step) + nzi[k,2]` |
| ProfileIndex.EpochHandover | stagpy/rprof.py:112-115 | in a consistent table the last timestep of epoch `k` ends just before the first timestep of epoch `k+1` starts, at the total row count of epochs `0..k` |
| ProfileIndex.FirstEpochWraps | stagpy/rprof.py:110-114 | a timestep at or below the first boundary gets `inn == 0` and its `ir0` is computed from the last row of `nzi` |
| ProfileIndex.ConstantResolution | stagpy/rprof.py:108-115 | with a leading boundary-0 row and one epoch of `nz` rows, timestep `step` occupies rows `(step-1)*nz .. step*nz - 1` |
| ProfileLoop.NumPlots | stagpy/rprof.py:99-102 | for a positive `istep`, `int(num_plots)` handed to `np.linspace` is the number of steps of `range(istart+1, ilast+1, istep)`, or negative when that range is empty |
| ProfileLoop.PlottedRows | stagpy/rprof.py:143-144 | the plotted rows `data[ir0:ir1]` (also sliced at line 175) exist exactly when the resolver of lines 108-115 succeeds; otherwise the step raises IndexError |
| ProfileLoop.InTimeTable | stagpy/rprof.py:152 | the label lookup `tsteps[step - 1, 2]` succeeds exactly when Python's index `step - 1` is valid for the time table, and for timesteps `1..ntimes` it reads row `step - 1` |
| ProfileLoop.Temp0Length | stagpy/rprof.py:143-165 | the first step yields `temp0` exactly when its block resolves, `tsteps[step-1]` exists, and its profile has at least two rows; `temp0` is then as long as the profile |
| ProfileLoop.StepWmax | stagpy/rprof.py:143-176 | a step completes exactly when it resolves, lies in the time table and has a non-empty profile as long as `temp0` or of one row; it then appends a column-7 value of its plotted rows that bounds all of them |
| ProfileLoop.WmaxSeries | stagpy/rprof.py:104-176 | the loop completes exactly when the first step yields `temp0` and every step completes, and then `wmax` has one entry per step, `wmax[k]` being step `k`'s maximum |
| ProfileLoop.MaxVelocitySeries | stagpy/rprof.py:99-176 | a zero `istep` raises ZeroDivisionError, a negative `int(num_plots)` raises ValueError in `np.linspace`, and otherwise the loop over `range(istart+1, ilast+1, istep)` ends with the `wmax` list of the specification or the first error a step raises |
| ProfileLoop.CollectMaxima | stagpy/rprof.py:104-176 | the `while` loop that appends each step's maximum to `wmax` ends with the specification's outcome for the steps: the list of all maxima, or the first error |
| ProfileLoop.FirstErrorPersists | stagpy/rprof.py:104-176 | once a step has raised, the outcome of the whole loop is that error |
| ProfileLoop.BlockRows | stagpy/rprof.py:114-176 | for a timestep inside epoch `k` whose block lies in the table, the resolver returns that block and the plotted slice is its first `nzi[k,2] - 1` rows: row `ir1` is left out |
| ProfileLoop.StepWmaxInEpoch | stagpy/rprof.py:114-176 | for such a timestep, with `temp0` as long as its profile, the appended value is the maximum of column 7 over exactly rows `ir0 .. ir1 - 1` |
| ProfileLoop.ResolutionChangeAborts | stagpy/rprof.py:165-173 | a run whose first step and a later step lie in epochs with different rows per step (the later not 2, whose one-row profile would broadcast) cannot complete |
| ProfileLoop.ResolutionChangeExample | stagpy/rprof.py:104-176 | epochs of 4 and then 6 rows per step, timesteps 1 to 4: the run raises |
| ProfileLoop.SingleEpochSlice | stagpy/rprof.py:114-176 | with a one-row resolution table, `ir0` is negative but the slice `data[ir0:ir1]` is the first `nz - 1` rows of block `step - 1` |
| EnergyBalance.CalcEnergy | stagpy/rprof.py:38-54 | raises ZeroDivisionError exactly when the lowest level sits at `z = 0` or the highest at `z = 1` (lines 49-50); otherwise the four arrays are the coordinate and the fluxes below, and `qtot = qadv + qcond` entry by entry, so its ends are the two boundary conduction terms |
| EnergyBalance.PlotCoordinate | stagpy/rprof.py:40-41 | `zgrid` is column 63 of rows `ir0..ir1-1` followed by `1.0` |
| EnergyBalance.AdvectiveFlux | stagpy/rprof.py:44-46 | `qadv` is zero at both ends and column 60 of rows `ir0..ir1-2` in between |
| EnergyBalance.ConductiveFlux | stagpy/rprof.py:42-52 | `qcond` is the bottom quotient `(1 - T[ir0]) / z[ir0]`, the interior quotients `(T[i-1] - T[i]) / (z[i] - z[i-1])`, then the top quotient `T[ir1] / (1 - z[ir1])` |
| EnergyBalance.ConductiveStateHasUnitFlux | stagpy/rprof.py:47-52 | for the conductive profile `T = 1 - z` strictly inside the layer, `_calc_energy` succeeds and every conductive flux, boundaries included, is 1 |
| EnergyBalance.LinearProfileInteriorFlux | stagpy/rprof.py:47-48 | for a linear profile `T = a - g z` every interior conductive flux is the gradient `g` |
| Extrapolation.Extrap | stagpy/rprof.py:23-35 | the result is a new array as long as `xpos`; entries inside `[xp[0], xp[-1]]` keep `np.interp`'s value, entries below take the lower line, entries above the upper line (which wins when both masks select) |
| Extrapolation.BelowLine | stagpy/rprof.py:29-31 | the lower line passes through the first two samples, so the extrapolation meets the profile at its lower end |
| Extrapolation.AboveLine | stagpy/rprof.py:32-34 | the upper line passes through the last two samples, so the extrapolation meets the profile at its upper end |
| Extrapolation.LinesHaveBoundarySlope | stagpy/rprof.py:29-34 | the lines are the point-slope lines through the outer samples with the slope of the outermost segment |
| TimeAverage.Chunks | stagpy/rprof.py:303-305 | concatenating the chunks gives back the data; every chunk but the last has exactly `nbz` elements, and the last is non-empty with at most `nbz` |
| TimeAverage.ChunkCount | stagpy/rprof.py:303-305 | there are `ceil(len / nbz)` chunks |
| TimeAverage.ChunksFromAt | stagpy/rprof.py:305 | chunk `k` is `d[k*nbz : (k+1)*nbz]`, clamped at the end |
| TimeAverage.ChunksUniform | stagpy/rprof.py:305-312 | all chunks have `nz` elements exactly when `nz` divides the length, which is when `np.mean` sees a rectangular array |
| TimeAverage.RowsPerStep | stagpy/rprof.py:308 | `nztot = int(len(data) / len(tsteps))` is the truncated true quotient, the largest `n` with `n * ntsteps <= rows` |
| TimeAverage.MeanAxis0 | stagpy/rprof.py:312 | `np.mean(..., axis=0)` over blocks of shape `(nz, w)` has that shape, and entry `(i, c)` is the sum of entry `(i, c)` over the blocks divided by their number |
| TimeAverage.AverageProfiles | stagpy/rprof.py:308-312 | the average exists exactly when there are timesteps, `nztot = int(rows / ntsteps) > 0`, and `nztot` divides the row count; no timesteps is ZeroDivisionError, the other failures ValueError; a result has `nztot` levels of the table's width |
| TimeAverage.AverageIsStridedMean | stagpy/rprof.py:308-312 | level `i` of a defined average is the mean of rows `i, i + nztot, ...` over all chunks |
| TimeAverage.ConstantResolutionAverage | stagpy/rprof.py:308-312 | `nt` timesteps of `nz` rows each always average, to the mean of each level over the `nt` timesteps |
| TimeAverage.MeanOfIdentical | stagpy/rprof.py:312 | the per-depth mean of identical blocks is that block |
| TimeAverage.AverageOfRepeatedProfile | stagpy/rprof.py:308-312 | timesteps that all carry the same profile average to exactly that profile |

## Left out

- Plotting: figures, colours, labels, legends, axis limits and saving (matplotlib), and the `radius` coordinate that `plotaveragedprofiles` chunks only to plot against; errors matplotlib itself might raise are not modelled.
- The `statmin.dat` file and the difference-summary figure: file output.
- Reading the profile and timestep tables and the resolution-change table: the loader, the list of plottable variables and the argument helpers are not part of this model; the tables are inputs, and the time table enters only through its row count.
- `_normprof` and with it the values of the `tempdif` list the loop appends: a trapezoidal integral in scipy.
- The theoretical initial profile `rsup`/`initprof` and the overturn transform `rfin`: fractional powers that Dafny reals cannot express.
- The growth-rate fit `sigma` (logarithm and exponential) and `fmttime` (scientific-notation formatting).
- Solidus lines, the air-layer search and the continent line: plot decoration.
- `np.interp` itself: it is a parameter of `Extrapolation.Extrap`.
- Floating-point rounding, `inf` and `nan`: numbers are exact reals.
- The energy series (`plot_energy`) and the grid plots: `_calc_energy` is modelled on its own, not the plots built from it.
- EnergyBalance.CalcEnergy: requires distinct consecutive levels; the interior quotients are numpy array divisions that give `inf`/`nan` there, which exact reals do not model.
- EnergyBalance.ConductiveFlux: requires `z[ir0] != 0`, `z[ir1] != 1` and distinct consecutive levels; `CalcEnergy` returns ZeroDivisionError before calling it in the first two cases.
- EnergyBalance.CalcEnergy: requires `ir0 < ir1 < len(data)`; the source's clamped slices for other bounds are not modelled.
- Extrapolation.Extrap: requires at least two samples with distinct outer abscissas; the source divides by their difference with numpy, which gives `inf`/`nan` otherwise.
- TimeAverage.AverageProfiles: ragged chunks are a ValueError, as numpy 1.24 and later raise; older numpy averaged a ragged list differently (an object array, or broadcasting a one-row last chunk), which is not modelled.
- ProfileLoop.MaxVelocitySeries: models the `wmax` list of the temperature difference plot only; the concentration branch (`conc0`, `concdif`), other quantities and the integrated profiles are not modelled, and of `temp0` and the differences only the lengths are, which decide whether a step raises.
- ProfileLoop.NumPlots: the count handed to `np.linspace` is stated for a positive `istep` only; for a negative one `num_plots` exceeds the number of steps, which changes only the spacing of the colours.
- ProfileLoop.StepWmax: a later step with a one-row profile broadcasts against `temp0` and then reaches `_normprof`, whose trapezoidal integral over a one-point radius may raise; that error inside `_normprof` is not modelled.
