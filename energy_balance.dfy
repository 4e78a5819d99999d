/** The energy balance of one timestep (`_calc_energy`): advective,
    conductive and total heat flux at every depth level of the block
    `ir0..ir1`, in nondimensional units where the bottom boundary sits at
    height 0 with temperature 1 and the top boundary at height 1 with
    temperature 0. */
module EnergyBalance {
  import opened PyBuiltins
  import opened ProfileTable

  /** The four arrays `_calc_energy` returns, in its order. */
  datatype Energy = Energy(qtot: seq<real>, qadv: seq<real>, qcond: seq<real>, zgrid: seq<real>)

  /** Element-wise `a + b`. */
  function Add(a: seq<real>, b: seq<real>): (r: seq<real>)
    requires |a| == |b|
    ensures |r| == |a|
    ensures forall i | 0 <= i < |r| :: r[i] == a[i] + b[i]
  {
    seq(|a|, i requires 0 <= i < |a| => a[i] + b[i])
  }

  /** Element-wise `a - b`. */
  function Sub(a: seq<real>, b: seq<real>): (r: seq<real>)
    requires |a| == |b|
    ensures |r| == |a|
    ensures forall i | 0 <= i < |r| :: r[i] == a[i] - b[i]
  {
    seq(|a|, i requires 0 <= i < |a| => a[i] - b[i])
  }

  /** Element-wise `a / b`. */
  function Div(a: seq<real>, b: seq<real>): (r: seq<real>)
    requires |a| == |b|
    requires forall i | 0 <= i < |b| :: b[i] != 0.0
    ensures |r| == |a|
    ensures forall i | 0 <= i < |r| :: r[i] == a[i] / b[i]
  {
    seq(|a|, i requires 0 <= i < |a| => a[i] / b[i])
  }

  /** The spacings between consecutive levels of the block are non-zero,
      so that the finite differences are defined. */
  predicate DistinctLevels(data: Table, ir0: nat, ir1: nat)
    requires WellFormed(data) && ir1 < |data|
  {
    forall i | ir0 <= i < ir1 - 1 :: data[i + 1][Z] != data[i][Z]
  }

  /** `zgrid`: the plotting coordinate of levels `ir0..ir1 - 1`, then the
      top boundary `1.0`. */
  function PlotCoordinate(data: Table, ir0: nat, ir1: nat): (zgrid: seq<real>)
    requires WellFormed(data) && ir0 < ir1 < |data|
    ensures |zgrid| == ir1 - ir0 + 1
    ensures forall i | 0 <= i < ir1 - ir0 :: zgrid[i] == data[ir0 + i][ZGrid]
    ensures zgrid[ir1 - ir0] == 1.0
  {
    ColumnSlice(data, ir0, ir1, ZGrid) + [1.0]
  }

  /** `qadv`: the advective flux of levels `ir0..ir1 - 2`, padded with a zero
      at both boundaries. */
  function AdvectiveFlux(data: Table, ir0: nat, ir1: nat): (qadv: seq<real>)
    requires WellFormed(data) && ir0 < ir1 < |data|
    ensures |qadv| == ir1 - ir0 + 1
    ensures qadv[0] == 0.0 && qadv[ir1 - ir0] == 0.0
    ensures forall i | 0 < i < ir1 - ir0 :: qadv[i] == data[ir0 + i - 1][Advection]
  {
    [0.0] + ColumnSlice(data, ir0, ir1 - 1, Advection) + [0.0]
  }

  /** `qcond`: at the bottom the one-sided difference quotient from the
      boundary `(z, T) = (0, 1)` to level `ir0`, inside the quotients between
      consecutive levels, at the top the one-sided quotient from level `ir1`
      to the boundary `(1, 0)`. */
  function ConductiveFlux(data: Table, ir0: nat, ir1: nat): (qcond: seq<real>)
    requires WellFormed(data) && ir0 < ir1 < |data|
    requires data[ir0][Z] != 0.0 && data[ir1][Z] != 1.0
    requires DistinctLevels(data, ir0, ir1)
    ensures |qcond| == ir1 - ir0 + 1
    ensures qcond[0] == (1.0 - data[ir0][Temperature]) / data[ir0][Z]
    ensures qcond[ir1 - ir0] == data[ir1][Temperature] / (1.0 - data[ir1][Z])
    ensures forall i | 0 < i < ir1 - ir0 ::
              qcond[i] == (data[ir0 + i - 1][Temperature] - data[ir0 + i][Temperature])
                          / (data[ir0 + i][Z] - data[ir0 + i - 1][Z])
  {
    var dzg := Sub(ColumnSlice(data, ir0 + 1, ir1, Z), ColumnSlice(data, ir0, ir1 - 1, Z));
    var dT := Sub(ColumnSlice(data, ir0, ir1 - 1, Temperature), ColumnSlice(data, ir0 + 1, ir1, Temperature));
    var qcond0 := (1.0 - data[ir0][Temperature]) / data[ir0][Z];
    var qtop := data[ir1][Temperature] / (1.0 - data[ir1][Z]);
    [qcond0] + Div(dT, dzg) + [qtop]
  }

  /** `_calc_energy(data, ir0, ir1)`: one entry per level of the block
      `ir0..ir1`, and at every level the total flux is the advective plus the
      conductive flux. The two boundary quotients are Python float
      divisions, which raise ZeroDivisionError when the lowest level sits on
      the bottom boundary or the highest level on the top boundary. */
  function CalcEnergy(data: Table, ir0: nat, ir1: nat): (r: Result<Energy>)
    requires WellFormed(data)
    requires ir0 < ir1 < |data|
    requires DistinctLevels(data, ir0, ir1)
    ensures r.Err? <==> data[ir0][Z] == 0.0 || data[ir1][Z] == 1.0
    ensures r.Err? ==> r.error == ZeroDivisionError
    ensures r.Ok? ==>
              var e := r.value;
              e.zgrid == PlotCoordinate(data, ir0, ir1) &&
              e.qadv == AdvectiveFlux(data, ir0, ir1) &&
              e.qcond == ConductiveFlux(data, ir0, ir1) &&
              |e.qtot| == ir1 - ir0 + 1 &&
              (forall i | 0 <= i <= ir1 - ir0 :: e.qtot[i] == e.qadv[i] + e.qcond[i]) &&
              e.qtot[0] == (1.0 - data[ir0][Temperature]) / data[ir0][Z] &&
              e.qtot[ir1 - ir0] == data[ir1][Temperature] / (1.0 - data[ir1][Z])
  {
    if data[ir0][Z] == 0.0 || data[ir1][Z] == 1.0 then Err(ZeroDivisionError)
    else
      var qadv := AdvectiveFlux(data, ir0, ir1);
      var qcond := ConductiveFlux(data, ir0, ir1);
      Ok(Energy(Add(qadv, qcond), qadv, qcond, PlotCoordinate(data, ir0, ir1)))
  }

  /** The purely conductive state `T = 1 - z` carries unit conductive flux
      at every level: the two boundary terms are the same difference quotient
      as the interior stencil, taken against the boundary values. */
  lemma ConductiveStateHasUnitFlux(data: Table, ir0: nat, ir1: nat)
    requires WellFormed(data)
    requires ir0 < ir1 < |data|
    requires data[ir0][Z] != 0.0 && data[ir1][Z] != 1.0
    requires DistinctLevels(data, ir0, ir1)
    requires forall i | ir0 <= i <= ir1 :: data[i][Temperature] == 1.0 - data[i][Z]
    ensures CalcEnergy(data, ir0, ir1).Ok?
    ensures forall i | 0 <= i <= ir1 - ir0 :: CalcEnergy(data, ir0, ir1).value.qcond[i] == 1.0
  {
    var e := ConductiveFlux(data, ir0, ir1);
    forall i | 0 <= i <= ir1 - ir0 ensures e[i] == 1.0 {
      if i == 0 {
        UnitQuotient(data[ir0][Z], 1.0 - data[ir0][Temperature]);
      } else if i == ir1 - ir0 {
        UnitQuotient(1.0 - data[ir1][Z], data[ir1][Temperature]);
      } else {
        var lo, hi := data[ir0 + i - 1], data[ir0 + i];
        UnitQuotient(hi[Z] - lo[Z], lo[Temperature] - hi[Temperature]);
      }
    }
  }

  /** With a linear temperature profile `T = a - g z` over the block, every
      interior conductive flux equals the gradient `g`. */
  lemma LinearProfileInteriorFlux(data: Table, ir0: nat, ir1: nat, a: real, g: real)
    requires WellFormed(data)
    requires ir0 < ir1 < |data|
    requires data[ir0][Z] != 0.0 && data[ir1][Z] != 1.0
    requires DistinctLevels(data, ir0, ir1)
    requires forall i | ir0 <= i <= ir1 :: data[i][Temperature] == a - g * data[i][Z]
    ensures CalcEnergy(data, ir0, ir1).Ok?
    ensures forall i | 0 < i < ir1 - ir0 :: CalcEnergy(data, ir0, ir1).value.qcond[i] == g
  {
    var e := ConductiveFlux(data, ir0, ir1);
    forall i | 0 < i < ir1 - ir0 ensures e[i] == g {
      var lo, hi := data[ir0 + i - 1], data[ir0 + i];
      var dz := hi[Z] - lo[Z];
      assert lo[Temperature] - hi[Temperature] == g * dz;
      ScaledQuotient(g, dz);
    }
  }

  lemma UnitQuotient(d: real, n: real)
    requires d != 0.0 && n == d
    ensures n / d == 1.0
  {
  }

  lemma ScaledQuotient(g: real, d: real)
    requires d != 0.0
    ensures (g * d) / d == g
  {
  }
}
