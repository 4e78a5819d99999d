/** The `for step` loop of `plotprofiles` when temperature profiles are
    plotted together with their difference to the overturned initial
    profile. For every requested timestep it resolves the step's block of
    rows, labels the curve with the step's time, on the first step builds
    the overturned profile `temp0`, subtracts `temp0` from the step's
    temperature profile, and appends the largest root-mean-square vertical
    velocity of the plotted rows `data[ir0:ir1]` to the list `wmax`. Only the
    lengths of the profiles decide whether a step raises, so the values of
    `temp0` and of the differences are not part of this module. */
module ProfileLoop {
  import opened PyBuiltins
  import opened ProfileTable
  import opened ProfileIndex

  /** `num_plots = (ilast - istart - 1) / istep + 1`, a float under Python's
      true division; a zero `istep` is a ZeroDivisionError. */
  function NumPlots(istart: int, ilast: int, istep: int): (num: real)
    requires istep != 0
    ensures istep > 0 ==> PyInt(num) == |PyRange(istart + 1, ilast + 1, istep)|
                          || (PyInt(num) < 0 && PyRange(istart + 1, ilast + 1, istep) == [])
  {
    var num := (ilast - istart - 1) as real / istep as real + 1.0;
    if istep > 0 then
      NumPlotsCountsSteps(istart, ilast, istep, num);
      num
    else num
  }

  /** For a positive stride, `int(num_plots)` is the number of steps of
      `range(istart + 1, ilast + 1, istep)`, or negative when that range is
      empty: both are the least `m` with `ilast - istart <= m * istep`. */
  lemma NumPlotsCountsSteps(istart: int, ilast: int, istep: int, num: real)
    requires istep > 0 && num == (ilast - istart - 1) as real / istep as real + 1.0
    ensures PyInt(num) == |PyRange(istart + 1, ilast + 1, istep)|
            || (PyInt(num) < 0 && PyRange(istart + 1, ilast + 1, istep) == [])
  {
    var a := ilast - istart;
    var steps := PyRange(istart + 1, ilast + 1, istep);
    if a >= 1 {
      RangeCeiling(istart, ilast, istep);
      NumPlotsCeiling(a, istep, num);
      OnlyCeiling(a, istep, |steps|, PyInt(num));
    } else {
      var q := (a - 1) as real / istep as real;
      assert q * istep as real == (a - 1) as real;
      RealScaleStrict(q, 0.0, istep as real);
      assert num < 1.0;
    }
  }

  /** A non-empty `range(istart + 1, ilast + 1, s)` has the least `n` steps
      with `ilast - istart <= n * s`. */
  lemma RangeCeiling(istart: int, ilast: int, s: int)
    requires s > 0 && ilast - istart >= 1
    ensures var n := |PyRange(istart + 1, ilast + 1, s)|;
            (n - 1) * s < ilast - istart <= n * s
  {
    var steps := PyRange(istart + 1, ilast + 1, s);
    var n := |steps|;
    assert n >= 1;
    assert steps[n - 1] == istart + 1 + (n - 1) * s;
  }

  /** `int((a - 1) / s + 1)` for `a >= 1` is the least `m` with `a <= m * s`. */
  lemma NumPlotsCeiling(a: int, s: int, num: real)
    requires s > 0 && a >= 1 && num == (a - 1) as real / s as real + 1.0
    ensures var m := PyInt(num); (m - 1) * s < a <= m * s
  {
    var m := PyInt(num);
    var q := (a - 1) as real / s as real;
    assert q * s as real == (a - 1) as real;
    assert num * s as real == (a - 1 + s) as real;
    assert 0.0 <= num;
    RealScaleInt(m, num, s);
    RealScaleStrictInt(num, m + 1, s);
    assert m * s <= a - 1 + s < (m + 1) * s;
  }

  lemma RealScaleStrict(u: real, v: real, k: real)
    requires u < v && k > 0.0
    ensures u * k < v * k
  {
  }

  /** At most one `m` has `(m - 1) * s < a <= m * s`. */
  lemma OnlyCeiling(a: int, s: int, n: int, m: int)
    requires s > 0
    requires (n - 1) * s < a <= n * s
    requires (m - 1) * s < a <= m * s
    ensures n == m
  {
    if n < m {
      MulBelow(n, m - 1, s);
    } else if m < n {
      MulBelow(m, n - 1, s);
    }
  }

  /** The rows `data[ir0:ir1]` that `step` plots, or the resolver's IndexError. */
  function PlottedRows(data: Table, nzi: seq<Epoch>, step: int): (r: Result<Table>)
    requires WellFormed(data)
    ensures r.Err? <==> Resolve(nzi, step).Err?
    ensures r.Err? ==> r.error == IndexError
    ensures r.Ok? ==> WellFormed(r.value)
  {
    match Resolve(nzi, step)
    case Err(e) => Err(e)
    case Ok(block) => Ok(PySlice(data, block.first, block.last))
  }

  /** `tsteps[step - 1, 2]` names a row of a time table of `ntimes` rows. */
  predicate InTimeTable(ntimes: nat, step: int)
    ensures InTimeTable(ntimes, step) <==> PyIndex(ntimes, step - 1).Ok?
    ensures 1 <= step <= ntimes ==> InTimeTable(ntimes, step) && PyIndex(ntimes, step - 1) == Ok(step - 1)
  {
    -(ntimes as int) <= step - 1 < ntimes as int
  }

  /** The first step builds `temp0 = _extrap(rfin, radius, profiles[:, 0])`
      from its plotted rows and yields the length of `temp0`: before that the
      curve label reads `tsteps[step - 1, 2]` (IndexError outside the time
      table); `np.interp` raises ValueError on an empty profile, and `_extrap`
      IndexError on a one-row profile, which has no second sample. */
  function Temp0Length(data: Table, nzi: seq<Epoch>, ntimes: nat, step: int): (r: Result<nat>)
    requires WellFormed(data)
    ensures r.Ok? <==> PlottedRows(data, nzi, step).Ok? && InTimeTable(ntimes, step)
                       && |PlottedRows(data, nzi, step).value| >= 2
    ensures r.Ok? ==> r.value == |PlottedRows(data, nzi, step).value|
  {
    match PlottedRows(data, nzi, step)
    case Err(e) => Err(e)
    case Ok(rows) =>
      if !InTimeTable(ntimes, step) then Err(IndexError)
      else if |rows| == 0 then Err(ValueError)
      else if |rows| == 1 then Err(IndexError)
      else Ok(|rows|)
  }

  /** One step with `temp0` of length `temp0Len`: the curve label reads
      `tsteps[step - 1, 2]`; `profiles[:, 0] - temp0` raises ValueError
      unless the profile has `temp0`'s length or broadcasts from one row;
      `max(data[ir0:ir1, 7])` raises ValueError on no rows. The value
      appended is the largest column-7 entry of the plotted rows. */
  function StepWmax(data: Table, nzi: seq<Epoch>, ntimes: nat, temp0Len: nat, step: int): (r: Result<real>)
    requires WellFormed(data)
    ensures r.Ok? <==>
              PlottedRows(data, nzi, step).Ok? && InTimeTable(ntimes, step) &&
              var rows := PlottedRows(data, nzi, step).value;
              0 < |rows| && (|rows| == temp0Len || |rows| == 1)
    ensures r.Ok? ==>
              var rows := PlottedRows(data, nzi, step).value;
              (exists k | 0 <= k < |rows| :: r.value == rows[k][VerticalVelocity]) &&
              forall k | 0 <= k < |rows| :: rows[k][VerticalVelocity] <= r.value
  {
    match PlottedRows(data, nzi, step)
    case Err(e) => Err(e)
    case Ok(rows) =>
      if !InTimeTable(ntimes, step) then Err(IndexError)
      else if |rows| != temp0Len && |rows| != 1 then Err(ValueError)
      else if |rows| == 0 then Err(ValueError)
      else
        Ok(MaxOf(Column(rows, VerticalVelocity)))
  }

  /** The outcome of every step of `steps`, in order. */
  function StepResults(data: Table, nzi: seq<Epoch>, ntimes: nat, temp0Len: nat, steps: seq<int>)
    : (rs: seq<Result<real>>)
    requires WellFormed(data)
    ensures |rs| == |steps|
    ensures forall k | 0 <= k < |steps| :: rs[k] == StepWmax(data, nzi, ntimes, temp0Len, steps[k])
  {
    seq(|steps|, k requires 0 <= k < |steps| => StepWmax(data, nzi, ntimes, temp0Len, steps[k]))
  }

  /** Appending the values of `rs` one by one to an empty list; the first
      error aborts the loop and is the outcome. */
  function Collect<T>(rs: seq<Result<T>>): (r: Result<seq<T>>)
    ensures r.Ok? ==> |r.value| == |rs|
  {
    if rs == [] then Ok([])
    else
      match Collect(rs[..|rs| - 1])
      case Err(e) => Err(e)
      case Ok(prefix) =>
        match rs[|rs| - 1]
        case Err(e) => Err(e)
        case Ok(m) => Ok(prefix + [m])
  }

  /** The list `wmax` after the loop has run over `steps`, or the first
      error raised on the way: the loop completes exactly when the first step
      yields `temp0` and every step yields a maximum, and then `wmax[k]` is
      the maximum of step `steps[k]`. */
  function WmaxSeries(data: Table, nzi: seq<Epoch>, ntimes: nat, steps: seq<int>): (r: Result<seq<real>>)
    requires WellFormed(data)
    ensures steps == [] ==> r == Ok([])
    ensures steps != [] ==>
              (r.Ok? <==> Temp0Length(data, nzi, ntimes, steps[0]).Ok? &&
                          forall k | 0 <= k < |steps| ::
                            StepWmax(data, nzi, ntimes, Temp0Length(data, nzi, ntimes, steps[0]).value, steps[k]).Ok?)
    ensures r.Ok? && steps != [] ==>
              |r.value| == |steps| &&
              forall k | 0 <= k < |steps| ::
                StepWmax(data, nzi, ntimes, Temp0Length(data, nzi, ntimes, steps[0]).value, steps[k])
                == Ok(r.value[k])
  {
    if steps == [] then Ok([])
    else
      match Temp0Length(data, nzi, ntimes, steps[0])
      case Err(e) => Err(e)
      case Ok(temp0Len) =>
        var rs := StepResults(data, nzi, ntimes, temp0Len, steps);
        CollectAll(rs);
        Collect(rs)
  }

  /** The loop over `range(istart + 1, ilast + 1, istep)`. Before it,
      `num_plots` divides by `istep` (ZeroDivisionError for zero) and
      `np.linspace` rejects a negative `int(num_plots)` with a ValueError. */
  method MaxVelocitySeries(data: Table, nzi: seq<Epoch>, ntimes: nat, istart: int, ilast: int, istep: int)
    returns (r: Result<seq<real>>)
    requires WellFormed(data)
    ensures istep == 0 ==> r == Err(ZeroDivisionError)
    ensures istep != 0 && PyInt(NumPlots(istart, ilast, istep)) < 0 ==> r == Err(ValueError)
    ensures istep != 0 && PyInt(NumPlots(istart, ilast, istep)) >= 0 ==>
              r == WmaxSeries(data, nzi, ntimes, PyRange(istart + 1, ilast + 1, istep))
  {
    if istep == 0 {
      return Err(ZeroDivisionError);
    }
    var numPlots := NumPlots(istart, ilast, istep);
    if PyInt(numPlots) < 0 {
      return Err(ValueError);
    }
    var steps := PyRange(istart + 1, ilast + 1, istep);
    if |steps| == 0 {
      return Ok([]);
    }
    var first := Temp0Length(data, nzi, ntimes, steps[0]);
    if first.Err? {
      return Err(first.error);
    }
    r := CollectMaxima(data, nzi, ntimes, first.value, steps);
  }

  /** The loop body proper: each step's outcome is computed in turn and its
      maximum appended to `wmax`; the first error ends the loop. */
  method CollectMaxima(data: Table, nzi: seq<Epoch>, ntimes: nat, temp0Len: nat, steps: seq<int>)
    returns (r: Result<seq<real>>)
    requires WellFormed(data)
    ensures r == Collect(StepResults(data, nzi, ntimes, temp0Len, steps))
  {
    ghost var rs := StepResults(data, nzi, ntimes, temp0Len, steps);
    var wmax: seq<real> := [];
    var k := 0;
    while k < |steps|
      invariant 0 <= k <= |steps|
      invariant Collect(rs[..k]) == Ok(wmax)
    {
      var m := StepWmax(data, nzi, ntimes, temp0Len, steps[k]);
      CollectNext(rs, k);
      if m.Err? {
        FirstErrorPersists(rs, k + 1);
        return Err(m.error);
      }
      wmax := wmax + [m.value];
      k := k + 1;
    }
    assert rs[..k] == rs;
    return Ok(wmax);
  }

  /** One more iteration: a value is appended, an error ends the loop. */
  lemma CollectNext<T>(rs: seq<Result<T>>, k: nat)
    requires k < |rs| && Collect(rs[..k]).Ok?
    ensures Collect(rs[..k + 1])
            == if rs[k].Ok? then Ok(Collect(rs[..k]).value + [rs[k].value]) else Err(rs[k].error)
  {
    assert rs[..k + 1][..k] == rs[..k];
  }

  /** Once the loop has raised on a prefix of the steps, the whole run
      raises that error. */
  lemma {:induction false} FirstErrorPersists<T>(rs: seq<Result<T>>, j: nat)
    requires j <= |rs| && Collect(rs[..j]).Err?
    ensures Collect(rs) == Collect(rs[..j])
    decreases |rs| - j
  {
    if j < |rs| {
      assert rs[..j + 1][..j] == rs[..j];
      FirstErrorPersists(rs, j + 1);
    } else {
      assert rs[..j] == rs;
    }
  }

  /** Collecting succeeds exactly when every entry is a value. */
  lemma {:induction false} CollectDefined<T>(rs: seq<Result<T>>)
    ensures Collect(rs).Ok? <==> forall k | 0 <= k < |rs| :: rs[k].Ok?
  {
    if rs != [] {
      var init := rs[..|rs| - 1];
      CollectDefined(init);
      assert forall k | 0 <= k < |init| :: init[k] == rs[k];
    }
  }

  /** A successful collection lists the values in order. */
  lemma {:induction false} CollectValues<T>(rs: seq<Result<T>>, k: nat)
    requires Collect(rs).Ok? && k < |rs|
    ensures rs[k] == Ok(Collect(rs).value[k])
  {
    var init := rs[..|rs| - 1];
    if k < |init| {
      CollectValues(init, k);
      assert init[k] == rs[k];
    }
  }

  lemma CollectAll<T>(rs: seq<Result<T>>)
    ensures Collect(rs).Ok? <==> forall k | 0 <= k < |rs| :: rs[k].Ok?
    ensures Collect(rs).Ok? ==> forall k | 0 <= k < |rs| :: rs[k] == Ok(Collect(rs).value[k])
  {
    CollectDefined(rs);
    if Collect(rs).Ok? {
      forall k | 0 <= k < |rs| ensures rs[k] == Ok(Collect(rs).value[k]) {
        CollectValues(rs, k);
      }
    }
  }

  /** Start row of a timestep inside epoch `k`. */
  function EpochStart(nzi: seq<Epoch>, step: int, k: nat): int
    requires 0 < k < |nzi|
  {
    RowsOf(nzi[..k]) + (step - nzi[k - 1].lastStep - 1) * nzi[k].rowsPerStep
  }

  /** For a step inside epoch `k` whose block lies inside the table, the
      plotted slice `data[ir0:ir1]` is the first `rowsPerStep - 1` rows of
      the block: the block's last row `ir1` is not plotted. */
  lemma BlockRows(data: Table, nzi: seq<Epoch>, step: int, k: nat)
    requires WellFormed(data)
    requires IsSorted(Boundaries(nzi))
    requires 0 < k < |nzi| && nzi[k - 1].lastStep < step <= nzi[k].lastStep
    requires nzi[k].rowsPerStep >= 1
    requires 0 <= EpochStart(nzi, step, k) && EpochStart(nzi, step, k) + nzi[k].rowsPerStep - 1 < |data|
    ensures Resolve(nzi, step)
            == Ok(RowRange(EpochStart(nzi, step, k), EpochStart(nzi, step, k) + nzi[k].rowsPerStep - 1))
    ensures PlottedRows(data, nzi, step)
            == Ok(data[EpochStart(nzi, step, k)..EpochStart(nzi, step, k) + nzi[k].rowsPerStep - 1])
  {
    ResolveInEpoch(nzi, step, k);
  }

  /** For a step inside epoch `k` whose block lies inside the table, with
      `temp0` as long as the step's plotted profile, `wmax` gets the maximum
      of column 7 over exactly rows `ir0 .. ir1 - 1`. */
  lemma StepWmaxInEpoch(data: Table, nzi: seq<Epoch>, ntimes: nat, step: int, k: nat)
    requires WellFormed(data)
    requires IsSorted(Boundaries(nzi))
    requires 0 < k < |nzi| && nzi[k - 1].lastStep < step <= nzi[k].lastStep
    requires nzi[k].rowsPerStep >= 2 && InTimeTable(ntimes, step)
    requires 0 <= EpochStart(nzi, step, k) && EpochStart(nzi, step, k) + nzi[k].rowsPerStep - 1 < |data|
    ensures StepWmax(data, nzi, ntimes, nzi[k].rowsPerStep - 1, step)
            == Ok(MaxOf(ColumnSlice(data, EpochStart(nzi, step, k),
                                    EpochStart(nzi, step, k) + nzi[k].rowsPerStep - 1, VerticalVelocity)))
  {
    BlockRows(data, nzi, step, k);
    var first := EpochStart(nzi, step, k);
    var rows := data[first..first + nzi[k].rowsPerStep - 1];
    assert PlottedRows(data, nzi, step) == Ok(rows) && |rows| == nzi[k].rowsPerStep - 1;
    assert StepWmax(data, nzi, ntimes, nzi[k].rowsPerStep - 1, step) == Ok(MaxOf(Column(rows, VerticalVelocity)));
    assert Column(rows, VerticalVelocity)
           == ColumnSlice(data, first, first + nzi[k].rowsPerStep - 1, VerticalVelocity);
  }

  /** A run whose first step lies in epoch `k0` and a later step in epoch
      `kj` with a different number of rows per step (other than 2, whose
      one-row profile would broadcast) cannot complete: `temp0` keeps the
      first epoch's length and the subtraction in the later step raises
      (or an earlier step raised already). */
  lemma ResolutionChangeAborts(data: Table, nzi: seq<Epoch>, ntimes: nat, steps: seq<int>, j: nat, k0: nat, kj: nat)
    requires WellFormed(data)
    requires IsSorted(Boundaries(nzi))
    requires 0 < j < |steps|
    requires 0 < k0 < |nzi| && nzi[k0 - 1].lastStep < steps[0] <= nzi[k0].lastStep
    requires 0 < kj < |nzi| && nzi[kj - 1].lastStep < steps[j] <= nzi[kj].lastStep
    requires nzi[k0].rowsPerStep >= 1 && nzi[kj].rowsPerStep >= 1
    requires nzi[kj].rowsPerStep != nzi[k0].rowsPerStep && nzi[kj].rowsPerStep != 2
    requires 0 <= EpochStart(nzi, steps[0], k0)
    requires EpochStart(nzi, steps[0], k0) + nzi[k0].rowsPerStep - 1 < |data|
    requires 0 <= EpochStart(nzi, steps[j], kj)
    requires EpochStart(nzi, steps[j], kj) + nzi[kj].rowsPerStep - 1 < |data|
    ensures WmaxSeries(data, nzi, ntimes, steps).Err?
  {
    BlockRows(data, nzi, steps[0], k0);
    BlockRows(data, nzi, steps[j], kj);
    var t := Temp0Length(data, nzi, ntimes, steps[0]);
    if t.Ok? {
      assert t.value == nzi[k0].rowsPerStep - 1;
      assert !StepWmax(data, nzi, ntimes, t.value, steps[j]).Ok?;
    }
  }

  /** Epochs of 4 and 6 rows per step over 20 rows, timesteps 1 to 4: the
      run raises at the latest on step 3, whose 5-row profile does not
      broadcast against the 3-entry `temp0` of step 1. */
  lemma ResolutionChangeExample(data: Table, ntimes: nat)
    requires WellFormed(data) && |data| == 20
    ensures WmaxSeries(data, [Epoch(0, 0, 4), Epoch(2, 2, 4), Epoch(4, 2, 6)], ntimes, [1, 2, 3, 4]).Err?
  {
    var nzi := [Epoch(0, 0, 4), Epoch(2, 2, 4), Epoch(4, 2, 6)];
    assert Boundaries(nzi) == [0, 2, 4];
    assert nzi[..1] == [Epoch(0, 0, 4)] && nzi[..1][..0] == [];
    assert nzi[..2] == [Epoch(0, 0, 4), Epoch(2, 2, 4)] && nzi[..2][..1] == nzi[..1];
    assert EpochStart(nzi, 1, 1) == 0;
    assert EpochStart(nzi, 3, 2) == 8;
    ResolutionChangeAborts(data, nzi, ntimes, [1, 2, 3, 4], 2, 1, 2);
  }

  /** A one-row resolution table `[(L, L, nz)]` for a table of exactly
      `L * nz` rows: every step up to `L` gets `inn == 0` and a negative
      `ir0`, yet the slice `data[ir0:ir1]` counts from the end and lands on
      the first `nz - 1` rows of block `step - 1`, as for a constant
      resolution. */
  lemma SingleEpochSlice<T>(data: seq<T>, lastStep: int, nz: int, step: int)
    requires nz >= 1 && 0 < step <= lastStep && |data| == lastStep * nz
    ensures Resolve([Epoch(lastStep, lastStep, nz)], step).Ok?
    ensures var block := Resolve([Epoch(lastStep, lastStep, nz)], step).value;
            block.first < 0 &&
            PySlice(data, block.first, block.last) == data[(step - 1) * nz..step * nz - 1]
  {
    var nzi := [Epoch(lastStep, lastStep, nz)];
    assert Boundaries(nzi) == [lastStep];
    FirstEpochWraps(nzi, step);
    var first := (step - lastStep - 1) * nz;
    var last := first + nz - 1;
    assert first == (step - 1) * nz - lastStep * nz;
    assert last == step * nz - 1 - lastStep * nz;
    MulNonNeg(step - 1, nz);
    MulBelow(step, lastStep, nz);
    assert SliceBound(|data|, first) == (step - 1) * nz;
    assert SliceBound(|data|, last) == step * nz - 1;
  }

  lemma MulNonNeg(a: int, b: int)
    requires a >= 0 && b >= 0
    ensures a * b >= 0
  {
  }

  lemma MulBelow(a: int, b: int, n: int)
    requires a <= b && n >= 1
    ensures a * n <= b * n
  {
  }
}
