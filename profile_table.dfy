/** The flat radial-profile table that the data loader hands to the plotting
    code: one row per depth level, the rows of all timesteps concatenated,
    every row holding the same physical quantities at fixed column indices. */
module ProfileTable {

  type Table = seq<seq<real>>

  /** Height of the level above the core-mantle boundary. */
  const Z: nat := 0
  /** Temperature. */
  const Temperature: nat := 1
  /** Root-mean-square vertical velocity. */
  const VerticalVelocity: nat := 7
  /** Advective heat flux. */
  const Advection: nat := 60
  /** Depth coordinate that the energy balance is plotted against. */
  const ZGrid: nat := 63

  /** Every column the core reads exists in every row. */
  const Width: nat := 64

  predicate WellFormed(data: Table) {
    forall r | 0 <= r < |data| :: |data[r]| >= Width
  }

  /** numpy's `data[lo:hi, c]` for bounds inside the table. */
  function ColumnSlice(data: Table, lo: nat, hi: nat, c: nat): (col: seq<real>)
    requires WellFormed(data) && lo <= hi <= |data| && c < Width
    ensures |col| == hi - lo
    ensures forall i | 0 <= i < hi - lo :: col[i] == data[lo + i][c]
  {
    seq(hi - lo, i requires 0 <= i < hi - lo => data[lo + i][c])
  }

  /** numpy's `rows[:, c]`. */
  function Column(rows: Table, c: nat): (col: seq<real>)
    requires forall r | 0 <= r < |rows| :: c < |rows[r]|
    ensures |col| == |rows|
    ensures forall r | 0 <= r < |rows| :: col[r] == rows[r][c]
  {
    seq(|rows|, r requires 0 <= r < |rows| => rows[r][c])
  }
}
