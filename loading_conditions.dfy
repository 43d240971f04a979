/** The loads of the cantilever benchmark (src/loading_conditions.cpp): no
    body force, and a parabolic shear traction on the free end x0 ≥ 47.8 of
    a beam of depth d = 12 under the end load p = −5·10⁵.  Squares and the
    cube d³ that the code takes with `pow` are exact real powers here. */
module LoadingConditions {
  import opened LinAlg

  /** `external_force_function`: the body force, zero everywhere. */
  function ExternalForceFunction(x: Vector, qBar: Vector): (f: Vector)
    ensures f == ZeroVector(2)
  {
    [0.0, 0.0]
  }

  /** The second moment of area d³/12 of the beam section. */
  function SecondMoment(d: real): real
  {
    (1.0 / 12.0) * (d * d * d)
  }

  /** The y traction 0.5·(p/I)·(d²/4 − x1²) on the loaded end. */
  function ShearTraction(x1: real): real
  {
    var d := 12.0;
    var p := -5.0e5;
    0.5 * (p / SecondMoment(d)) * (d * d / 4.0 - x1 * x1)
  }

  /** The entries of x the traction reads: x0 always, x1 only on the
      loaded end. */
  predicate TractionReadable(x: Vector)
  {
    |x| >= 1 && (x[0] >= 47.8 ==> |x| >= 2)
  }

  /** `external_traction_function`: (0, 0) left of x0 = 47.8, and
      (0, ShearTraction(x1)) from there on. */
  function ExternalTractionFunction(x: Vector, ej: Vector): (t: Vector)
    requires TractionReadable(x)
    ensures |t| == 2 && t[0] == 0.0
    ensures x[0] < 47.8 ==> t[1] == 0.0
    ensures x[0] >= 47.8 ==> t[1] == ShearTraction(x[1])
  {
    var to := [0.0, 0.0];
    if x[0] >= 47.8 then to[1 := ShearTraction(x[1])] else to
  }

  /** With I = 12³/12 = 144 the traction is −(5·10⁵/288)·(36 − x1²). */
  lemma ShearTractionClosedForm(x1: real)
    ensures SecondMoment(12.0) == 144.0
    ensures ShearTraction(x1) == 0.5 * (-5.0e5 / 144.0) * (36.0 - x1 * x1)
  {
    assert 12.0 * 12.0 * 12.0 == 1728.0;
  }

  /** The traction profile is even in x1, vanishes at the top and bottom
      faces x1 = ±6, and peaks at −62500 on the axis x1 = 0. */
  lemma ShearTractionProfile(x1: real)
    ensures ShearTraction(x1) == ShearTraction(-x1)
    ensures ShearTraction(6.0) == 0.0 && ShearTraction(-6.0) == 0.0
    ensures ShearTraction(0.0) == -62500.0
  {
    ShearTractionClosedForm(x1);
    ShearTractionClosedForm(-x1);
    ShearTractionClosedForm(6.0);
    ShearTractionClosedForm(-6.0);
    ShearTractionClosedForm(0.0);
    assert (-x1) * (-x1) == x1 * x1;
  }
}
