/** The plane-stress elasticity matrix of the benchmark material
    (src/material.cpp): Young's modulus E = 3·10⁷ N/m² and Poisson ratio
    ν = 0.3.  The square ν² that the code takes with `pow(ν, 2.0)` is the
    exact real square here. */
module Material {
  import opened LinAlg

  /** Every entry of m multiplied by s (`m *= s`). */
  function Scaled(m: Matrix, s: real): (r: Matrix)
    ensures |r| == |m| && forall i :: 0 <= i < |m| ==> |r[i]| == |m[i]|
    ensures forall i, j :: 0 <= i < |m| && 0 <= j < |m[i]| ==> r[i][j] == s * m[i][j]
  {
    seq(|m|, i requires 0 <= i < |m| => seq(|m[i]|, j requires 0 <= j < |m[i]| => s * m[i][j]))
  }

  /** `get_elasticity_matrix`: C = E/(1−ν²)·[[1, ν, 0], [ν, 1, 0], [0, 0, (1−ν)/2]].
      C is symmetric with zeros off the normal/shear coupling,
      C00 = C11 = E/(1−ν²), C01 = C10 = ν·E/(1−ν²), C22 is the shear
      modulus E/(2(1+ν)), and the diagonal is positive. */
  function ElasticityMatrix(): (c: Matrix)
    ensures IsSymmetric(c, 3)
    ensures c[0][2] == 0.0 && c[1][2] == 0.0 && c[2][0] == 0.0 && c[2][1] == 0.0
    ensures c[0][0] == c[1][1] == 3.0e7 / (1.0 - 0.3 * 0.3)
    ensures c[0][1] == c[1][0] == 0.3 * 3.0e7 / (1.0 - 0.3 * 0.3)
    ensures c[2][2] == 3.0e7 / (2.0 * (1.0 + 0.3))
    ensures c[0][0] > 0.0 && c[1][1] > 0.0 && c[2][2] > 0.0
  {
    var gamma := 0.3;
    var epsilon := 3.0e7;
    var d := [[1.0, gamma, 0.0], [gamma, 1.0, 0.0], [0.0, 0.0, (1.0 - gamma) / 2.0]];
    Scaled(d, epsilon / (1.0 - gamma * gamma))
  }
}
