/** `find_vector_range` (include/gp_utils.h): the minimum, the maximum and
    their difference of a non-empty vector. */
module GpUtils {

  datatype Range = Range(min: real, max: real, val: real)

  /** Smallest of v[0..n-1] (the value `std::min_element` points at). */
  function MinOf(v: seq<real>, n: nat): (m: real)
    requires 0 < n <= |v|
    ensures exists k :: 0 <= k < n && v[k] == m
    ensures forall j :: 0 <= j < n ==> m <= v[j]
  {
    if n == 1 then v[0]
    else
      var rest := MinOf(v, n - 1);
      if v[n - 1] < rest then v[n - 1] else rest
  }

  /** Largest of v[0..n-1] (the value `std::max_element` points at). */
  function MaxOf(v: seq<real>, n: nat): (m: real)
    requires 0 < n <= |v|
    ensures exists k :: 0 <= k < n && v[k] == m
    ensures forall j :: 0 <= j < n ==> v[j] <= m
  {
    if n == 1 then v[0]
    else
      var rest := MaxOf(v, n - 1);
      if rest < v[n - 1] then v[n - 1] else rest
  }

  /** `find_vector_range`.  The vector must not be empty: the C++ code
      dereferences the end iterator of an empty vector. */
  function FindVectorRange(v: seq<real>): (r: Range)
    requires |v| > 0
    ensures r.min in v && r.max in v
    ensures forall j :: 0 <= j < |v| ==> r.min <= v[j] <= r.max
    ensures r.val == r.max - r.min && r.val >= 0.0
  {
    var lo := MinOf(v, |v|);
    var hi := MaxOf(v, |v|);
    Range(lo, hi, hi - lo)
  }

  /** A constant vector has a zero range. */
  lemma FindVectorRangeConstant(v: seq<real>, c: real)
    requires |v| > 0
    requires forall j :: 0 <= j < |v| ==> v[j] == c
    ensures FindVectorRange(v) == Range(c, c, 0.0)
  {
    var r := FindVectorRange(v);
    assert r.min <= v[0] <= r.max;
  }
}
