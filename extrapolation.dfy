/** `_extrap`: `np.interp` with linear extrapolation outside the sampled
    range, used to map the overturned radius back onto a profile.
    `np.interp` itself is not modelled: the caller supplies it as `interp`,
    applied to one position and the two sample arrays. */
module Extrapolation {

  /** `np.interp(x, xpoints, ypoints)` for a single position `x`. */
  type Interp = (real, seq<real>, seq<real>) -> real

  /** At least two samples of equal length, and the two outer pairs of
      abscissas distinct, so that both boundary slopes are defined. */
  predicate Samples(xp: seq<real>, yp: seq<real>) {
    |xp| >= 2 && |yp| == |xp| && xp[0] != xp[1] && xp[|xp| - 1] != xp[|xp| - 2]
  }

  /** The value written below the range: the line through the first two
      samples, so it meets the sampled profile at its lower end. */
  function BelowLine(x: real, xp: seq<real>, yp: seq<real>): (y: real)
    requires Samples(xp, yp)
    ensures x == xp[0] ==> y == yp[0]
    ensures x == xp[1] ==> y == yp[1]
  {
    LineThroughBoth(x, xp[0], yp[0], xp[1], yp[1]);
    yp[0] + (x - xp[0]) * (yp[0] - yp[1]) / (xp[0] - xp[1])
  }

  /** The value written above the range: the line through the last two
      samples, so it meets the sampled profile at its upper end. */
  function AboveLine(x: real, xp: seq<real>, yp: seq<real>): (y: real)
    requires Samples(xp, yp)
    ensures x == xp[|xp| - 1] ==> y == yp[|yp| - 1]
    ensures x == xp[|xp| - 2] ==> y == yp[|yp| - 2]
  {
    var n := |xp|;
    LineThroughBoth(x, xp[n - 1], yp[n - 1], xp[n - 2], yp[n - 2]);
    yp[n - 1] + (x - xp[n - 1]) * (yp[n - 1] - yp[n - 2]) / (xp[n - 1] - xp[n - 2])
  }

  /** Slope of the segment from `(xa, ya)` to `(xb, yb)`. */
  function Slope(xa: real, ya: real, xb: real, yb: real): real
    requires xa != xb
  {
    (yb - ya) / (xb - xa)
  }

  /** `_extrap(xpos, xpoints, ypoints)`: `ypos` starts as `np.interp`'s
      result; then the entries whose position lies below `xpoints[0]` are
      overwritten from the lower line, then those above `xpoints[-1]` from the
      upper line (which wins if both masks select an entry, possible only when
      `xpoints[0] > xpoints[-1]`). */
  method Extrap(xpos: seq<real>, xp: seq<real>, yp: seq<real>, interp: Interp) returns (ypos: array<real>)
    requires Samples(xp, yp)
    ensures fresh(ypos)
    ensures ypos.Length == |xpos|
    ensures forall i | 0 <= i < |xpos| && xp[0] <= xpos[i] <= xp[|xp| - 1] ::
              ypos[i] == interp(xpos[i], xp, yp)
    ensures forall i | 0 <= i < |xpos| && xpos[i] < xp[0] && xpos[i] <= xp[|xp| - 1] ::
              ypos[i] == BelowLine(xpos[i], xp, yp)
    ensures forall i | 0 <= i < |xpos| && xpos[i] > xp[|xp| - 1] ::
              ypos[i] == AboveLine(xpos[i], xp, yp)
  {
    ypos := new real[|xpos|](i => if 0 <= i < |xpos| then interp(xpos[i], xp, yp) else 0.0);
    forall i | 0 <= i < |xpos| && xpos[i] < xp[0] {
      ypos[i] := BelowLine(xpos[i], xp, yp);
    }
    forall i | 0 <= i < |xpos| && xpos[i] > xp[|xp| - 1] {
      ypos[i] := AboveLine(xpos[i], xp, yp);
    }
  }

  /** The lines are the point-slope lines through the first and through the
      last sample with the slope of the outermost segment. */
  lemma LinesHaveBoundarySlope(x: real, xp: seq<real>, yp: seq<real>)
    requires Samples(xp, yp)
    ensures BelowLine(x, xp, yp) == yp[0] + (x - xp[0]) * Slope(xp[0], yp[0], xp[1], yp[1])
    ensures AboveLine(x, xp, yp)
            == yp[|yp| - 1] + (x - xp[|xp| - 1]) * Slope(xp[|xp| - 2], yp[|yp| - 2], xp[|xp| - 1], yp[|yp| - 1])
  {
  }

  /** The line `y0 + (x - x0) * (y0 - y1) / (x0 - x1)` takes the value `y0`
      at `x0` and `y1` at `x1`. */
  lemma LineThroughBoth(x: real, x0: real, y0: real, x1: real, y1: real)
    requires x0 != x1
    ensures x == x0 ==> y0 + (x - x0) * (y0 - y1) / (x0 - x1) == y0
    ensures x == x1 ==> y0 + (x - x0) * (y0 - y1) / (x0 - x1) == y1
  {
    var d, b := x0 - x1, y0 - y1;
    if x == x0 {
      assert x - x0 == 0.0;
      assert (x - x0) * b == 0.0;
    } else if x == x1 {
      assert x - x0 == -d;
      assert (x - x0) * b == -(d * b);
      assert -(d * b) / d == -b;
    }
  }
}
