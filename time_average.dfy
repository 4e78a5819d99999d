/** Time-averaged profiles (`plotaveragedprofiles`): the flat table of
    selected columns is cut into one block of `nztot` rows per timestep by
    `chunks`, and `np.mean(..., axis=0)` averages the blocks depth by depth. */
module TimeAverage {
  import opened PyBuiltins

  function Min(a: int, b: int): int {
    if a <= b then a else b
  }

  /** `[d[ii:ii + nbz] for ii in range(start, len(d), nbz)]`. */
  function ChunksFrom<T>(d: seq<T>, nbz: nat, start: nat): seq<seq<T>>
    requires nbz > 0
    decreases |d| - start
  {
    if start < |d| then [d[start..Min(start + nbz, |d|)]] + ChunksFrom(d, nbz, start + nbz)
    else []
  }

  /** `chunks(mydata, nbz)`: consecutive pieces of `nbz` elements that
      concatenate back to the data; every piece but the last holds exactly
      `nbz` elements, and the last is non-empty. */
  function Chunks<T>(d: seq<T>, nbz: nat): (r: seq<seq<T>>)
    requires nbz > 0
    ensures Flatten(r) == d
    ensures forall k | 0 <= k < |r| - 1 :: |r[k]| == nbz
    ensures |r| > 0 ==> 0 < |r[|r| - 1]| <= nbz
  {
    ChunksFromFlatten(d, nbz, 0);
    ChunksFromSizes(d, nbz);
    ChunksFrom(d, nbz, 0)
  }

  /** Concatenation of a list of lists. */
  function Flatten<T>(xs: seq<seq<T>>): seq<T> {
    if xs == [] then [] else xs[0] + Flatten(xs[1..])
  }

  lemma {:induction false} ChunksFromFlatten<T>(d: seq<T>, nbz: nat, start: nat)
    requires nbz > 0 && start <= |d|
    ensures Flatten(ChunksFrom(d, nbz, start)) == d[start..]
    decreases |d| - start
  {
    if start < |d| {
      var r := ChunksFrom(d, nbz, start);
      var m := Min(start + nbz, |d|);
      assert r[1..] == ChunksFrom(d, nbz, start + nbz);
      if start + nbz < |d| {
        ChunksFromFlatten(d, nbz, start + nbz);
      } else {
        assert ChunksFrom(d, nbz, start + nbz) == [];
        assert d[m..] == [];
      }
      assert d[start..] == d[start..m] + d[m..];
    }
  }

  /** Chunk `k` starting from `start` is `d[start + k*nbz : start + (k+1)*nbz]`
      (clamped to the end), and it starts inside `d`. */
  lemma {:induction false} ChunksFromAt<T>(d: seq<T>, nbz: nat, start: nat, k: nat)
    requires nbz > 0 && k < |ChunksFrom(d, nbz, start)|
    ensures start + k * nbz < |d|
    ensures ChunksFrom(d, nbz, start)[k] == d[start + k * nbz..Min(start + (k + 1) * nbz, |d|)]
    decreases |d| - start
  {
    var r := ChunksFrom(d, nbz, start);
    if k > 0 {
      assert r[k] == ChunksFrom(d, nbz, start + nbz)[k - 1];
      ChunksFromAt(d, nbz, start + nbz, k - 1);
      assert start + nbz + (k - 1) * nbz == start + k * nbz;
      assert start + nbz + k * nbz == start + (k + 1) * nbz;
    }
  }

  /** The number of chunks from `start` is the ceiling of `(|d| - start) / nbz`,
      stated without division. */
  lemma {:induction false} ChunksFromCount<T>(d: seq<T>, nbz: nat, start: nat)
    requires nbz > 0
    ensures start >= |d| ==> |ChunksFrom(d, nbz, start)| == 0
    ensures start < |d| ==>
              (|ChunksFrom(d, nbz, start)| - 1) * nbz < |d| - start <= |ChunksFrom(d, nbz, start)| * nbz
    decreases |d| - start
  {
    if start < |d| {
      var n := |ChunksFrom(d, nbz, start)|;
      ChunksFromCount(d, nbz, start + nbz);
      assert n == 1 + |ChunksFrom(d, nbz, start + nbz)|;
      assert n * nbz == nbz + (n - 1) * nbz;
      if n > 1 {
        assert (n - 1) * nbz == nbz + (n - 2) * nbz;
      }
    }
  }

  lemma ChunksFromSizes<T>(d: seq<T>, nbz: nat)
    requires nbz > 0
    ensures forall k | 0 <= k < |ChunksFrom(d, nbz, 0)| - 1 :: |ChunksFrom(d, nbz, 0)[k]| == nbz
    ensures |ChunksFrom(d, nbz, 0)| > 0 ==>
              0 < |ChunksFrom(d, nbz, 0)[|ChunksFrom(d, nbz, 0)| - 1]| <= nbz
  {
    var r := ChunksFrom(d, nbz, 0);
    ChunksFromCount(d, nbz, 0);
    forall k | 0 <= k < |r| - 1 ensures |r[k]| == nbz {
      ChunksFromAt(d, nbz, 0, k);
      MulMono(k + 1, |r| - 1, nbz);
      assert (k + 1) * nbz == k * nbz + nbz;
      assert Min((k + 1) * nbz, |d|) == (k + 1) * nbz;
    }
    if |r| > 0 {
      ChunksFromAt(d, nbz, 0, |r| - 1);
    }
  }

  /** There are `ceil(|d| / nbz)` chunks. */
  lemma ChunkCount<T>(d: seq<T>, nbz: nat)
    requires nbz > 0
    ensures |Chunks(d, nbz)| == (|d| + nbz - 1) / nbz
  {
    var n := |Chunks(d, nbz)|;
    ChunksFromCount(d, nbz, 0);
    if |d| == 0 {
      assert (nbz - 1) / nbz == 0;
    } else {
      FloorDivision(|d| + nbz - 1, nbz, n);
    }
  }

  lemma {:induction false} MulMono(a: nat, b: nat, n: nat)
    requires a <= b
    ensures a * n <= b * n
    decreases b - a
  {
    if a < b {
      MulMono(a, b - 1, n);
      assert (b - 1) * n + n == b * n;
    }
  }

  lemma FloorDivision(m: nat, n: nat, q: nat)
    requires n > 0 && q * n <= m < q * n + n
    ensures m / n == q
  {
    var p, r := m / n, m % n;
    assert m == p * n + r && 0 <= r < n;
    if p < q {
      MulMono(p + 1, q, n);
      assert false;
    } else if p > q {
      MulMono(q + 1, p, n);
      assert false;
    }
  }

  /** `ndarray` of shape `(nz, w)`. */
  predicate Shaped(b: seq<seq<real>>, nz: nat, w: nat) {
    |b| == nz && forall i | 0 <= i < nz :: |b[i]| == w
  }

  predicate AllShaped(blocks: seq<seq<seq<real>>>, nz: nat, w: nat) {
    forall k | 0 <= k < |blocks| :: Shaped(blocks[k], nz, w)
  }

  /** The sum over the blocks of entry `(i, c)`. */
  function SumAt(blocks: seq<seq<seq<real>>>, nz: nat, w: nat, i: nat, c: nat): real
    requires AllShaped(blocks, nz, w) && i < nz && c < w
  {
    if blocks == [] then 0.0
    else SumAt(blocks[..|blocks| - 1], nz, w, i, c) + blocks[|blocks| - 1][i][c]
  }

  /** `np.mean(blocks, axis=0)` over `|blocks|` arrays of shape `(nz, w)`. */
  function MeanAxis0(blocks: seq<seq<seq<real>>>, nz: nat, w: nat): (m: seq<seq<real>>)
    requires |blocks| > 0 && AllShaped(blocks, nz, w)
    ensures Shaped(m, nz, w)
    ensures forall i, c | 0 <= i < nz && 0 <= c < w ::
              m[i][c] == SumAt(blocks, nz, w, i, c) / (|blocks| as real)
  {
    seq(nz, i requires 0 <= i < nz =>
      seq(w, c requires 0 <= c < w => SumAt(blocks, nz, w, i, c) / (|blocks| as real)))
  }

  /** The rows of the data all hold `w` selected columns. */
  predicate Rectangular(d: seq<seq<real>>, w: nat) {
    forall r | 0 <= r < |d| :: |d[r]| == w
  }

  /** `int(len(data) / len(tsteps))`: rows per timestep. */
  function RowsPerStep(rows: nat, ntsteps: nat): (nztot: nat)
    requires ntsteps > 0
    ensures nztot == PyInt(rows as real / ntsteps as real)
    ensures nztot * ntsteps <= rows < (nztot + 1) * ntsteps
  {
    var nztot := rows / ntsteps;
    TruncatedQuotient(rows, ntsteps, nztot);
    nztot
  }

  /** Truncating the true quotient of two naturals gives the integer
      quotient. */
  lemma TruncatedQuotient(rows: nat, ntsteps: nat, q: nat)
    requires ntsteps > 0 && q == rows / ntsteps
    ensures q * ntsteps <= rows < (q + 1) * ntsteps
    ensures q == PyInt(rows as real / ntsteps as real)
  {
    var x := rows as real / ntsteps as real;
    var k := ntsteps as real;
    assert x * k == rows as real;
    var m := PyInt(x);
    assert 0 <= m;
    RealScaleInt(m, x, ntsteps);
    RealScaleStrictInt(x, m + 1, ntsteps);
    FloorDivision(rows, ntsteps, m);
  }

  lemma ChunksShaped(d: seq<seq<real>>, w: nat, nz: nat)
    requires Rectangular(d, w) && nz > 0
    requires forall k | 0 <= k < |Chunks(d, nz)| :: |Chunks(d, nz)[k]| == nz
    ensures AllShaped(Chunks(d, nz), nz, w)
  {
    var r := Chunks(d, nz);
    forall k | 0 <= k < |r| ensures Shaped(r[k], nz, w) {
      ChunksFromAt(d, nz, 0, k);
    }
  }

  /** The averaged profile of `plotaveragedprofiles` for the selected
      columns `donnee` and `ntsteps` timesteps: ZeroDivisionError without
      timesteps, ValueError from `range` when there are fewer rows than
      timesteps (`nztot == 0`), ValueError from `np.mean` when the chunks are
      ragged; otherwise the per-depth mean over all chunks. */
  function AverageProfiles(donnee: seq<seq<real>>, w: nat, ntsteps: nat): (r: Result<seq<seq<real>>>)
    requires Rectangular(donnee, w)
    ensures r.Ok? <==> ntsteps > 0 && |donnee| / ntsteps > 0 && |donnee| % (|donnee| / ntsteps) == 0
    ensures ntsteps == 0 ==> r == Err(ZeroDivisionError)
    ensures ntsteps > 0 && r.Err? ==> r == Err(ValueError)
    ensures r.Ok? ==> Shaped(r.value, |donnee| / ntsteps, w)
  {
    if ntsteps == 0 then Err(ZeroDivisionError)
    else
      var nztot := RowsPerStep(|donnee|, ntsteps);
      if nztot == 0 then Err(ValueError)
      else
        var chunks := Chunks(donnee, nztot);
        ChunksUniform(donnee, nztot);
        if exists k | 0 <= k < |chunks| :: |chunks[k]| != nztot then Err(ValueError)
        else
          ChunksShaped(donnee, w, nztot);
          ChunksFromCount(donnee, nztot, 0);
          Ok(MeanAxis0(chunks, nztot, w))
  }

  /** The chunks are all of length `nz` exactly when `nz` divides the
      length of the data. */
  lemma ChunksUniform<T>(d: seq<T>, nz: nat)
    requires nz > 0
    ensures (forall k | 0 <= k < |Chunks(d, nz)| :: |Chunks(d, nz)[k]| == nz) <==> |d| % nz == 0
  {
    var r := Chunks(d, nz);
    if |d| > 0 {
      LastChunkFull(d, nz);
      assert |r| > 0 by {
        assert Flatten(r) == d;
      }
    }
  }

  /** The last chunk is full exactly when `nz` divides the length. */
  lemma LastChunkFull<T>(d: seq<T>, nz: nat)
    requires nz > 0 && |d| > 0
    ensures |ChunksFrom(d, nz, 0)| > 0
    ensures |ChunksFrom(d, nz, 0)[|ChunksFrom(d, nz, 0)| - 1]| == nz <==> |d| % nz == 0
  {
    var r := ChunksFrom(d, nz, 0);
    ChunksFromCount(d, nz, 0);
    var n := |r|;
    ChunksFromAt(d, nz, 0, n - 1);
    var last := |r[n - 1]|;
    assert last == |d| - (n - 1) * nz;
    if last == nz {
      assert |d| == n * nz;
      ModOfMultiple(n, nz);
    } else {
      assert (n - 1) * nz < |d| < n * nz;
      FloorDivision(|d|, nz, n - 1);
      assert |d| % nz == |d| - (n - 1) * nz;
    }
  }

  lemma ModOfMultiple(n: nat, nz: nat)
    requires nz > 0
    ensures (n * nz) % nz == 0
  {
    FloorDivision(n * nz, nz, n);
  }

  /** `sum(d[k*nz + i][c] for k in range(count))`: the values of depth
      level `i` over the first `count` timesteps. */
  function StridedSum(d: seq<seq<real>>, w: nat, nz: nat, count: nat, i: nat, c: nat): real
    requires Rectangular(d, w) && i < nz && c < w && count * nz <= |d|
  {
    if count == 0 then 0.0
    else
      assert (count - 1) * nz + nz == count * nz;
      StridedSum(d, w, nz, count - 1, i, c) + d[(count - 1) * nz + i][c]
  }

  lemma {:induction false} SumOfChunks(d: seq<seq<real>>, w: nat, nz: nat, count: nat, i: nat, c: nat)
    requires Rectangular(d, w) && nz > 0 && i < nz && c < w
    requires AllShaped(Chunks(d, nz), nz, w)
    requires count <= |Chunks(d, nz)|
    ensures count * nz <= |d|
    ensures SumAt(Chunks(d, nz)[..count], nz, w, i, c) == StridedSum(d, w, nz, count, i, c)
  {
    var r := Chunks(d, nz);
    if count > 0 {
      SumOfChunks(d, w, nz, count - 1, i, c);
      ChunksFromAt(d, nz, 0, count - 1);
      assert |r[count - 1]| == nz;
      assert (count - 1) * nz + nz == count * nz;
      assert r[..count][..count - 1] == r[..count - 1];
      assert r[..count][count - 1][i] == d[(count - 1) * nz + i];
    }
  }

  /** Entry `(i, c)` of the average is the mean of depth level `i`, column
      `c`, over all `len(data) / nztot` timesteps. */
  lemma AverageIsStridedMean(donnee: seq<seq<real>>, w: nat, ntsteps: nat, nz: nat, count: nat)
    requires Rectangular(donnee, w)
    requires AverageProfiles(donnee, w, ntsteps).Ok?
    requires ntsteps > 0 && nz == |donnee| / ntsteps && count * nz == |donnee|
    ensures nz > 0 && count > 0
    ensures Shaped(AverageProfiles(donnee, w, ntsteps).value, nz, w)
    ensures forall i, c | 0 <= i < nz && 0 <= c < w ::
              AverageProfiles(donnee, w, ntsteps).value[i][c]
              == StridedSum(donnee, w, nz, count, i, c) / (count as real)
  {
    var r := Chunks(donnee, nz);
    var m := AverageProfiles(donnee, w, ntsteps).value;
    ChunksShaped(donnee, w, nz);
    ChunksFromCount(donnee, nz, 0);
    var n := |r|;
    ChunksFromAt(donnee, nz, 0, n - 1);
    assert |donnee| == n * nz;
    FloorDivision(|donnee|, nz, n);
    FloorDivision(|donnee|, nz, count);
    assert n == count;
    forall i, c | 0 <= i < nz && 0 <= c < w
      ensures m[i][c] == StridedSum(donnee, w, nz, n, i, c) / (n as real)
    {
      SumOfChunks(donnee, w, nz, n, i, c);
      assert r[..n] == r;
    }
  }

  /** With one resolution for the whole run (`nt` timesteps of `nz` rows),
      the average is defined and averages each depth level over exactly the
      `nt` timesteps. */
  lemma ConstantResolutionAverage(donnee: seq<seq<real>>, w: nat, nt: nat, nz: nat)
    requires Rectangular(donnee, w)
    requires nt > 0 && nz > 0 && |donnee| == nt * nz
    ensures AverageProfiles(donnee, w, nt) == Ok(StridedMeans(donnee, w, nz, nt))
  {
    ConstantResolutionDefined(donnee, w, nt, nz);
    AverageIsStridedMean(donnee, w, nt, nz, nt);
    SameTable(AverageProfiles(donnee, w, nt).value, StridedMeans(donnee, w, nz, nt), nz, w);
  }

  lemma ConstantResolutionDefined(donnee: seq<seq<real>>, w: nat, nt: nat, nz: nat)
    requires Rectangular(donnee, w)
    requires nt > 0 && nz > 0 && |donnee| == nt * nz
    ensures |donnee| / nt == nz
    ensures AverageProfiles(donnee, w, nt).Ok?
  {
    assert nt * nz == nz * nt;
    FloorDivision(|donnee|, nt, nz);
    ModOfMultiple(nt, nz);
  }

  /** The mean of identical blocks is that block. */
  lemma MeanOfIdentical(blocks: seq<seq<seq<real>>>, nz: nat, w: nat, b: seq<seq<real>>)
    requires |blocks| > 0 && AllShaped(blocks, nz, w)
    requires forall k | 0 <= k < |blocks| :: blocks[k] == b
    ensures MeanAxis0(blocks, nz, w) == b
  {
    var m := MeanAxis0(blocks, nz, w);
    assert b == blocks[0];
    forall i, c | 0 <= i < nz && 0 <= c < w ensures m[i][c] == b[i][c] {
      SumOfIdentical(blocks, nz, w, b, i, c);
    }
    forall i | 0 <= i < nz ensures m[i] == b[i] {
      assert |m[i]| == |b[i]|;
    }
  }

  lemma {:induction false} SumOfIdentical(blocks: seq<seq<seq<real>>>, nz: nat, w: nat, b: seq<seq<real>>, i: nat, c: nat)
    requires AllShaped(blocks, nz, w) && Shaped(b, nz, w) && i < nz && c < w
    requires forall k | 0 <= k < |blocks| :: blocks[k] == b
    ensures SumAt(blocks, nz, w, i, c) == (|blocks| as real) * b[i][c]
  {
    if blocks != [] {
      SumOfIdentical(blocks[..|blocks| - 1], nz, w, b, i, c);
    }
  }

  /** `n` copies of the profile `p`, one after the other. */
  function Repeat(p: seq<seq<real>>, n: nat): (d: seq<seq<real>>)
    ensures |d| == n * |p|
  {
    if n == 0 then [] else Repeat(p, n - 1) + p
  }

  lemma {:induction false} RepeatAt(p: seq<seq<real>>, n: nat, k: nat, i: nat)
    requires k < n && i < |p|
    ensures k * |p| + i < n * |p|
    ensures Repeat(p, n)[k * |p| + i] == p[i]
  {
    assert (n - 1) * |p| + |p| == n * |p|;
    if k < n - 1 {
      RepeatAt(p, n - 1, k, i);
    } else {
      assert k * |p| == (n - 1) * |p|;
    }
  }

  lemma {:induction false} StridedSumOfRepeat(p: seq<seq<real>>, w: nat, n: nat, count: nat, i: nat, c: nat)
    requires Rectangular(p, w) && Rectangular(Repeat(p, n), w)
    requires i < |p| && c < w && count <= n
    ensures count * |p| <= n * |p|
    ensures StridedSum(Repeat(p, n), w, |p|, count, i, c) == (count as real) * p[i][c]
  {
    MulMono(count, n, |p|);
    if count > 0 {
      StridedSumOfRepeat(p, w, n, count - 1, i, c);
      RepeatAt(p, n, count - 1, i);
      assert ((count - 1) as real) * p[i][c] + p[i][c] == (count as real) * p[i][c];
    }
  }

  /** Timesteps that all carry the same profile average to that profile. */
  lemma AverageOfRepeatedProfile(p: seq<seq<real>>, w: nat, nt: nat)
    requires Rectangular(p, w) && |p| > 0 && nt > 0
    ensures Rectangular(Repeat(p, nt), w)
    ensures AverageProfiles(Repeat(p, nt), w, nt) == Ok(p)
  {
    RepeatRectangular(p, w, nt);
    ConstantResolutionAverage(Repeat(p, nt), w, nt, |p|);
    MeansOfRepeat(p, w, nt);
  }

  /** Every level of `nt` copies of `p` has mean `p`'s value. */
  lemma MeansOfRepeat(p: seq<seq<real>>, w: nat, nt: nat)
    requires Rectangular(p, w) && |p| > 0 && nt > 0 && Rectangular(Repeat(p, nt), w)
    ensures StridedMeans(Repeat(p, nt), w, |p|, nt) == p
  {
    var t := StridedMeans(Repeat(p, nt), w, |p|, nt);
    forall i, c | 0 <= i < |p| && 0 <= c < w ensures t[i][c] == p[i][c] {
      StridedSumOfRepeat(p, w, nt, nt, i, c);
    }
    SameTable(t, p, |p|, w);
  }

  lemma RepeatRectangular(p: seq<seq<real>>, w: nat, nt: nat)
    requires Rectangular(p, w) && |p| > 0
    ensures Rectangular(Repeat(p, nt), w)
  {
  }

  /** The table of per-level means over `count` timesteps. */
  function StridedMeans(d: seq<seq<real>>, w: nat, nz: nat, count: nat): (t: seq<seq<real>>)
    requires Rectangular(d, w) && count > 0 && count * nz <= |d|
    ensures Shaped(t, nz, w)
    ensures forall i, c | 0 <= i < nz && 0 <= c < w ::
              t[i][c] == StridedSum(d, w, nz, count, i, c) / (count as real)
  {
    seq(nz, i requires 0 <= i < nz =>
      seq(w, c requires 0 <= c < w => StridedSum(d, w, nz, count, i, c) / (count as real)))
  }

  /** Two tables of the same shape with the same entries are equal. */
  lemma SameTable(a: seq<seq<real>>, b: seq<seq<real>>, nz: nat, w: nat)
    requires Shaped(a, nz, w) && Shaped(b, nz, w)
    requires forall i, c | 0 <= i < nz && 0 <= c < w :: a[i][c] == b[i][c]
    ensures a == b
  {
    forall i | 0 <= i < nz ensures a[i] == b[i] {
      assert |a[i]| == |b[i]|;
    }
  }
}
