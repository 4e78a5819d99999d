/** The Python and numpy built-ins that the radial-profile code relies on
    (`sorted`, `list.index`, `max`, `range`, slicing with negative bounds),
    stated over Dafny values, together with the exceptions they raise. */
module PyBuiltins {

  /** The exceptions that the profile code can raise. */
  datatype Error = IndexError | ValueError | ZeroDivisionError

  /** A value, or the exception raised while computing it. */
  datatype Result<+T> = Ok(value: T) | Err(error: Error)

  predicate IsSorted(s: seq<int>) {
    forall i, j | 0 <= i < j < |s| :: s[i] <= s[j]
  }

  /** Inserts `x` into the sorted list `s` before its first element not below `x`. */
  function Insert(x: int, s: seq<int>): (r: seq<int>)
    requires IsSorted(s)
    ensures |r| == |s| + 1
    ensures r[0] == if s == [] || x <= s[0] then x else s[0]
    ensures IsSorted(r)
    ensures multiset(r) == multiset(s) + multiset{x}
  {
    if s == [] || x <= s[0] then [x] + s
    else
      var tail := Insert(x, s[1..]);
      assert s == [s[0]] + s[1..];
      [s[0]] + tail
  }

  /** Python's `sorted` on a list of integers: the sorted permutation of `s`. */
  function Sorted(s: seq<int>): (r: seq<int>)
    ensures IsSorted(r)
    ensures multiset(r) == multiset(s)
    ensures |r| == |s|
  {
    if s == [] then []
    else
      assert s == [s[0]] + s[1..];
      Insert(s[0], Sorted(s[1..]))
  }

  /** Python's `list.index`: the position of the first occurrence of `x`. */
  function IndexOf(s: seq<int>, x: int): (i: nat)
    requires x in s
    ensures i < |s| && s[i] == x
    ensures forall j | 0 <= j < i :: s[j] != x
  {
    if s[0] == x then 0 else 1 + IndexOf(s[1..], x)
  }

  /** Python's `max` over a non-empty sequence of reals. */
  function MaxOf(s: seq<real>): (m: real)
    requires |s| > 0
    ensures m in s
    ensures forall i | 0 <= i < |s| :: s[i] <= m
  {
    if |s| == 1 then s[0]
    else
      var rest := MaxOf(s[1..]);
      if s[0] >= rest then s[0] else rest
  }

  /** Python's `range(start, stop, stride)` for a non-zero stride. */
  function PyRange(start: int, stop: int, stride: int): (r: seq<int>)
    requires stride != 0
    ensures forall k | 0 <= k < |r| :: r[k] == start + k * stride
    ensures stride > 0 ==> forall k | 0 <= k < |r| :: r[k] < stop
    ensures stride < 0 ==> forall k | 0 <= k < |r| :: r[k] > stop
    ensures stride > 0 ==> start + |r| * stride >= stop
    ensures stride < 0 ==> start + |r| * stride <= stop
    decreases if stride > 0 then stop - start else start - stop
  {
    if (stride > 0 && start < stop) || (stride < 0 && start > stop) then
      var rest := PyRange(start + stride, stop, stride);
      RangeCons(start, stride, rest);
      [start] + rest
    else []
  }

  /** Putting `start` in front of the range from `start + stride` gives the
      range from `start`. */
  lemma RangeCons(start: int, stride: int, rest: seq<int>)
    requires forall k | 0 <= k < |rest| :: rest[k] == (start + stride) + k * stride
    ensures forall k | 0 <= k < |rest| + 1 :: ([start] + rest)[k] == start + k * stride
    ensures start + (|rest| + 1) * stride == (start + stride) + |rest| * stride
  {
    forall k | 0 <= k < |rest| + 1 ensures ([start] + rest)[k] == start + k * stride {
      if k > 0 {
        assert ([start] + rest)[k] == rest[k - 1];
        assert (k - 1) * stride + stride == k * stride;
      }
    }
    assert (|rest| + 1) * stride == |rest| * stride + stride;
  }

  /** Where a slice bound `i` lands in a sequence of length `n`:
      a negative bound counts from the end, and both ends are clamped. */
  function SliceBound(n: nat, i: int): (b: nat)
    ensures b <= n
    ensures 0 <= i <= n ==> b == i
    ensures -(n as int) <= i < 0 ==> b == n + i
  {
    if i < 0 then (if n + i < 0 then 0 else n + i)
    else if i > n then n
    else i
  }

  /** Python's slice `s[i:j]` with unit step: a contiguous run of `s` that
      starts where the lower bound lands. */
  function PySlice<T>(s: seq<T>, i: int, j: int): (r: seq<T>)
    ensures |r| == if SliceBound(|s|, i) < SliceBound(|s|, j) then SliceBound(|s|, j) - SliceBound(|s|, i) else 0
    ensures SliceBound(|s|, i) + |r| <= |s|
    ensures r == s[SliceBound(|s|, i)..SliceBound(|s|, i) + |r|]
    ensures 0 <= i <= j <= |s| ==> r == s[i..j]
  {
    var lo, hi := SliceBound(|s|, i), SliceBound(|s|, j);
    if lo < hi then s[lo..hi] else []
  }

  /** Two negative bounds count from the end: `s[i:j]` is `s[n+i:n+j]`. */
  lemma SliceFromEnd<T>(s: seq<T>, i: int, j: int)
    requires -|s| <= i <= j < 0
    ensures PySlice(s, i, j) == s[|s| + i..|s| + j]
  {
  }

  /** Python's index `s[i]` into a sequence of length `n`: a negative index
      counts from the end, and one outside `-n .. n - 1` is an IndexError. */
  function PyIndex(n: nat, i: int): (r: Result<nat>)
    ensures r.Ok? <==> -(n as int) <= i < n
    ensures r.Err? ==> r.error == IndexError
    ensures r.Ok? ==> r.value < n && r.value % n == i % n
  {
    if 0 <= i < n then Ok(i)
    else if -(n as int) <= i < 0 then Ok(n + i)
    else Err(IndexError)
  }

  /** Python's `int(x)` on a float: truncation toward zero. */
  function PyInt(x: real): (n: int)
    ensures 0.0 <= x ==> n as real <= x < n as real + 1.0
    ensures x < 0.0 ==> n as real - 1.0 < x <= n as real
  {
    if x >= 0.0 then x.Floor else -((-x).Floor)
  }

  /** `m <= x` scaled by a positive integer, read back as integers. */
  lemma RealScaleInt(m: int, x: real, n: nat)
    requires m as real <= x && n > 0
    ensures (m * n) as real <= x * n as real
  {
    assert (m * n) as real == (m as real) * (n as real);
  }

  /** `x < m` scaled by a positive integer, read back as integers. */
  lemma RealScaleStrictInt(x: real, m: int, n: nat)
    requires x < m as real && n > 0
    ensures x * n as real < (m * n) as real
  {
    assert (m * n) as real == (m as real) * (n as real);
  }
}
