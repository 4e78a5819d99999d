/** Where one timestep's profile lives in the flat profile table.

    The simulator writes, for every timestep, one row per depth level, and the
    number of depth levels may change between epochs of the run. The
    resolution-change table `nzi` has one row per epoch: the last timestep of
    the epoch, the number of timesteps in it and the number of rows written per
    timestep. `plotprofiles` turns a requested timestep into the indices
    `ir0`/`ir1` of the first and last row of its block. */
module ProfileIndex {
  import opened PyBuiltins

  /** One row of the resolution-change table: `nzi[k, 0]`, `nzi[k, 1]`, `nzi[k, 2]`. */
  datatype Epoch = Epoch(lastStep: int, steps: int, rowsPerStep: int)

  /** The block of one timestep: `first` is `ir0`, `last` is `ir1`. */
  datatype RowRange = RowRange(first: int, last: int)

  /** The column `nzi[:, 0]`. */
  function Boundaries(nzi: seq<Epoch>): (b: seq<int>)
    ensures |b| == |nzi|
    ensures forall k | 0 <= k < |nzi| :: b[k] == nzi[k].lastStep
  {
    seq(|nzi|, k requires 0 <= k < |nzi| => nzi[k].lastStep)
  }

  /** Total number of rows written during the epochs `es`:
      the sum of `nnz = nzi[:, 1] * nzi[:, 2]` over them. */
  function RowsOf(es: seq<Epoch>): int
  {
    if es == [] then 0
    else RowsOf(es[..|es| - 1]) + es[|es| - 1].steps * es[|es| - 1].rowsPerStep
  }

  /** With non-negative epoch sizes the total is non-negative and at least
      the size of each epoch in it. */
  lemma {:induction false} RowsOfBounds(es: seq<Epoch>)
    requires forall k | 0 <= k < |es| :: 0 <= es[k].steps && 0 <= es[k].rowsPerStep
    ensures 0 <= RowsOf(es)
    ensures forall k | 0 <= k < |es| :: es[k].steps * es[k].rowsPerStep <= RowsOf(es)
  {
    if es != [] {
      var init := es[..|es| - 1];
      RowsOfBounds(init);
      var last := es[|es| - 1];
      assert 0 <= last.steps * last.rowsPerStep;
      forall k | 0 <= k < |es| ensures es[k].steps * es[k].rowsPerStep <= RowsOf(es) {
        if k < |es| - 1 {
          assert es[k] == init[k];
        }
      }
    }
  }

  /** The rows of consecutive runs of epochs add up: the rows before epoch
      `inn` and the rows from it on make up the whole table. */
  lemma {:induction false} RowsOfSplit(a: seq<Epoch>, b: seq<Epoch>)
    ensures RowsOf(a + b) == RowsOf(a) + RowsOf(b)
    decreases |b|
  {
    if b != [] {
      var last := b[|b| - 1];
      assert (a + b)[..|a + b| - 1] == a + b[..|b| - 1];
      RowsOfSplit(a, b[..|b| - 1]);
    } else {
      assert a + b == a;
    }
  }

  /** `inn`: the position of `step` in `sorted(nzi[:, 0] + [step])`, which
      is the number of boundaries strictly below `step`: `sorted` puts them
      first and `list.index` finds the first occurrence of `step` right after
      them, whatever the order of `nzi`. */
  function Inn(nzi: seq<Epoch>, step: int): (inn: nat)
    ensures inn == CountLess(Boundaries(nzi), step)
  {
    var withStep := Boundaries(nzi) + [step];
    assert withStep[|nzi|] == step;
    assert step in multiset(Sorted(withStep));
    IndexOfSorted(Sorted(withStep), step);
    CountLessSorted(withStep, step);
    CountLessAppend(Boundaries(nzi), [step], step);
    assert CountLess([step], step) == 0;
    IndexOf(Sorted(withStep), step)
  }

  /** The row range of timestep `step`, or the IndexError that Python raises
      when `inn` runs past the last row of `nzi`, which happens exactly when
      `step` lies above every boundary (in particular for an empty table).
      For `inn == 0` the expression `nzi[inn - 1, 0]` reads the LAST row of
      the table, as a negative index does in Python. */
  function Resolve(nzi: seq<Epoch>, step: int): (r: Result<RowRange>)
    ensures r.Err? <==> forall k | 0 <= k < |nzi| :: nzi[k].lastStep < step
    ensures r.Err? ==> r.error == IndexError
    ensures r.Ok? ==> Inn(nzi, step) < |nzi| &&
                      r.value.last == r.value.first + nzi[Inn(nzi, step)].rowsPerStep - 1
  {
    CountLessBelowLength(Boundaries(nzi), step);
    var inn := Inn(nzi, step);
    if inn == |nzi| then Err(IndexError)
    else
      var previous := nzi[if inn == 0 then |nzi| - 1 else inn - 1];
      var ir0 := RowsOf(nzi[..inn]) + (step - previous.lastStep - 1) * nzi[inn].rowsPerStep;
      Ok(RowRange(ir0, ir0 + nzi[inn].rowsPerStep - 1))
  }

  /** Number of elements of `s` strictly below `x`. */
  function CountLess(s: seq<int>, x: int): (n: nat)
    ensures n <= |s|
  {
    if s == [] then 0
    else (if s[0] < x then 1 else 0) + CountLess(s[1..], x)
  }

  predicate StrictlyIncreasing(s: seq<int>) {
    forall i, j | 0 <= i < j < |s| :: s[i] < s[j]
  }

  lemma {:induction false} CountLessAppend(a: seq<int>, b: seq<int>, x: int)
    ensures CountLess(a + b, x) == CountLess(a, x) + CountLess(b, x)
  {
    if a == [] {
      assert a + b == b;
    } else {
      assert (a + b)[1..] == a[1..] + b;
      CountLessAppend(a[1..], b, x);
    }
  }

  lemma {:induction false} CountLessNone(s: seq<int>, x: int)
    requires forall i | 0 <= i < |s| :: x <= s[i]
    ensures CountLess(s, x) == 0
  {
    if s != [] {
      CountLessNone(s[1..], x);
    }
  }

  lemma {:induction false} CountLessAll(s: seq<int>, x: int)
    requires forall i | 0 <= i < |s| :: s[i] < x
    ensures CountLess(s, x) == |s|
  {
    if s != [] {
      CountLessAll(s[1..], x);
    }
  }

  /** Inserting `y` into a sorted list adds one to the count below `x` exactly when `y < x`. */
  lemma {:induction false} CountLessInsert(y: int, s: seq<int>, x: int)
    requires IsSorted(s)
    ensures CountLess(Insert(y, s), x) == CountLess(s, x) + (if y < x then 1 else 0)
  {
    if s != [] && y > s[0] {
      CountLessInsert(y, s[1..], x);
      assert Insert(y, s)[1..] == Insert(y, s[1..]);
    } else {
      assert Insert(y, s)[1..] == s;
    }
  }

  /** Sorting does not change how many elements lie below `x`. */
  lemma {:induction false} CountLessSorted(s: seq<int>, x: int)
    ensures CountLess(Sorted(s), x) == CountLess(s, x)
  {
    if s != [] {
      CountLessSorted(s[1..], x);
      CountLessInsert(s[0], Sorted(s[1..]), x);
    }
  }

  /** In a sorted list, the first occurrence of `x` sits right after the
      elements below `x`. */
  lemma {:induction false} IndexOfSorted(s: seq<int>, x: int)
    requires IsSorted(s) && x in s
    ensures IndexOf(s, x) == CountLess(s, x)
  {
    if s[0] == x {
      CountLessNone(s, x);
    } else {
      var j :| 0 <= j < |s| && s[j] == x;
      assert s[0] <= s[j];
      assert x in s[1..] by { assert s[1..][j - 1] == x; }
      IndexOfSorted(s[1..], x);
    }
  }

  lemma {:induction false} CountLessBelowLength(s: seq<int>, x: int)
    ensures CountLess(s, x) < |s| <==> exists k | 0 <= k < |s| :: x <= s[k]
  {
    if s != [] {
      CountLessBelowLength(s[1..], x);
      if exists k | 0 <= k < |s| :: x <= s[k] {
        var k :| 0 <= k < |s| && x <= s[k];
        if k > 0 {
          assert s[1..][k - 1] == s[k];
        }
      }
      if exists k | 0 <= k < |s[1..]| :: x <= s[1..][k] {
        var k :| 0 <= k < |s[1..]| && x <= s[1..][k];
        assert s[k + 1] == s[1..][k];
      }
    }
  }

  lemma CountLessSplit(s: seq<int>, k: nat, x: int)
    requires k <= |s|
    ensures CountLess(s, x) == CountLess(s[..k], x) + CountLess(s[k..], x)
  {
    assert s == s[..k] + s[k..];
    CountLessAppend(s[..k], s[k..], x);
  }

  lemma SortedPrefixBelow(s: seq<int>, k: nat, x: int)
    requires IsSorted(s) && 0 < k <= |s| && s[k - 1] < x
    ensures CountLess(s[..k], x) == k
  {
    var below := s[..k];
    forall i | 0 <= i < |below| ensures below[i] < x {
      assert below[i] == s[i];
      assert s[i] <= s[k - 1];
    }
    CountLessAll(below, x);
  }

  lemma SortedSuffixAbove(s: seq<int>, k: nat, x: int)
    requires IsSorted(s) && k < |s| && x <= s[k]
    ensures CountLess(s[k..], x) == 0
  {
    var rest := s[k..];
    forall i | 0 <= i < |rest| ensures x <= rest[i] {
      assert rest[i] == s[k + i];
      assert s[k] <= s[k + i];
    }
    CountLessNone(rest, x);
  }

  /** In a sorted list, exactly `k` elements lie below any `x` in `(s[k-1], s[k]]`. */
  lemma CountLessBetween(s: seq<int>, k: nat, x: int)
    requires IsSorted(s) && k <= |s|
    requires k > 0 ==> s[k - 1] < x
    requires k < |s| ==> x <= s[k]
    ensures CountLess(s, x) == k
  {
    CountLessSplit(s, k, x);
    if k > 0 {
      SortedPrefixBelow(s, k, x);
    } else {
      assert s[..k] == [];
    }
    if k < |s| {
      SortedSuffixAbove(s, k, x);
    } else {
      assert s[k..] == [];
    }
  }

  /** With sorted boundaries, a timestep in epoch `k` (after the last step of
      epoch `k - 1`, up to the last step of epoch `k`) starts after all rows of
      the earlier epochs plus one block per earlier timestep of its own epoch,
      and its block is `nzi[k, 2]` rows long, ending at `ir1`. */
  lemma ResolveInEpoch(nzi: seq<Epoch>, step: int, k: nat)
    requires IsSorted(Boundaries(nzi))
    requires 0 < k < |nzi|
    requires nzi[k - 1].lastStep < step <= nzi[k].lastStep
    ensures Inn(nzi, step) == k
    ensures Resolve(nzi, step).Ok?
    ensures Resolve(nzi, step).value.first
            == RowsOf(nzi[..k]) + (step - nzi[k - 1].lastStep - 1) * nzi[k].rowsPerStep
    ensures Resolve(nzi, step).value.last
            == Resolve(nzi, step).value.first + nzi[k].rowsPerStep - 1
  {
    CountLessBetween(Boundaries(nzi), k, step);
  }

  /** Two consecutive timesteps of the same epoch get adjacent blocks that do
      not overlap: the second starts one row after the first ends, one block
      length after the first starts. */
  lemma ConsecutiveStepsAdjacent(nzi: seq<Epoch>, step: int, k: nat)
    requires IsSorted(Boundaries(nzi))
    requires 0 < k < |nzi|
    requires nzi[k - 1].lastStep < step && step + 1 <= nzi[k].lastStep
    ensures Resolve(nzi, step).Ok? && Resolve(nzi, step + 1).Ok?
    ensures Resolve(nzi, step + 1).value.first == Resolve(nzi, step).value.last + 1
    ensures Resolve(nzi, step + 1).value.first
            == Resolve(nzi, step).value.first + nzi[k].rowsPerStep
  {
    ResolveInEpoch(nzi, step, k);
    ResolveInEpoch(nzi, step + 1, k);
    var d := step - nzi[k - 1].lastStep - 1;
    assert (d + 1) * nzi[k].rowsPerStep == d * nzi[k].rowsPerStep + nzi[k].rowsPerStep;
  }

  /** When the table is consistent (epoch `k` holds as many timesteps as
      its boundaries say), the last timestep of epoch `k` ends on the row just
      before the first timestep of epoch `k + 1` starts, and that row is the
      total row count of epochs `0..k`. */
  lemma EpochHandover(nzi: seq<Epoch>, k: nat)
    requires StrictlyIncreasing(Boundaries(nzi))
    requires 0 < k && k + 1 < |nzi|
    requires nzi[k].steps == nzi[k].lastStep - nzi[k - 1].lastStep
    ensures Resolve(nzi, nzi[k].lastStep).Ok? && Resolve(nzi, nzi[k].lastStep + 1).Ok?
    ensures Resolve(nzi, nzi[k].lastStep).value.last + 1
            == Resolve(nzi, nzi[k].lastStep + 1).value.first
            == RowsOf(nzi[..k + 1])
  {
    var b := Boundaries(nzi);
    assert b[k - 1] < b[k] < b[k + 1];
    ResolveInEpoch(nzi, nzi[k].lastStep, k);
    ResolveInEpoch(nzi, nzi[k].lastStep + 1, k + 1);
    assert nzi[..k + 1][..k] == nzi[..k];
    var n := nzi[k].steps;
    var rps := nzi[k].rowsPerStep;
    assert (n - 1) * rps + rps == n * rps;
  }


  /** A timestep at or below the first boundary gets `inn == 0`, and the
      start row is then computed from the LAST row of the table
      (`nzi[-1, 0]`): the resolver is meaningful only for
      `nzi[0, 0] < step <= nzi[-1, 0]`. */
  lemma FirstEpochWraps(nzi: seq<Epoch>, step: int)
    requires IsSorted(Boundaries(nzi))
    requires |nzi| > 0 && step <= nzi[0].lastStep
    ensures Inn(nzi, step) == 0
    ensures Resolve(nzi, step)
            == Ok(RowRange((step - nzi[|nzi| - 1].lastStep - 1) * nzi[0].rowsPerStep,
                           (step - nzi[|nzi| - 1].lastStep - 1) * nzi[0].rowsPerStep
                           + nzi[0].rowsPerStep - 1))
  {
    CountLessBetween(Boundaries(nzi), 0, step);
  }

  /** A run at one resolution, described by a leading row with boundary 0 and
      no timesteps followed by the single epoch: timestep `step` starts at row
      `(step - 1) * nz` and ends at row `step * nz - 1`. */
  lemma ConstantResolution(nz: int, lastStep: int, r0: int, step: int)
    requires 0 < step <= lastStep
    ensures Resolve([Epoch(0, 0, r0), Epoch(lastStep, lastStep, nz)], step)
            == Ok(RowRange((step - 1) * nz, step * nz - 1))
  {
    var nzi := [Epoch(0, 0, r0), Epoch(lastStep, lastStep, nz)];
    assert Boundaries(nzi) == [0, lastStep];
    ResolveInEpoch(nzi, step, 1);
    assert nzi[..1] == [Epoch(0, 0, r0)];
    assert RowsOf(nzi[..1]) == 0 by {
      assert nzi[..1][..0] == [];
    }
    assert (step - 1) * nz + nz == step * nz;
  }
}
