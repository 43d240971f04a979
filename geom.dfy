/** Basic geometric values shared by every component (include/geom.h):
    points, a point cloud split into coordinate vectors, the RPIM parameters,
    and the stable arg-sort `sorted_indices`.  Doubles are modelled as `real`. */
module Geom {

  /** A point of a cloud; clouds are plain sequences of points whose
      positions are the global indices used by every other component. */
  datatype Point = Point(x: real, y: real, z: real)

  /** A cloud stored as three parallel coordinate vectors. */
  datatype PointCloudVec = PointCloudVec(x: seq<real>, y: seq<real>, z: seq<real>)

  /** A triangle of the background mesh, by node index.  Indices are C++ `int`s,
      so a failed look-up (-1) can be stored in them. */
  datatype Triangular2DElement = Triangular2DElement(node1: int, node2: int, node3: int)

  /** A boundary segment of the background mesh, by node index. */
  datatype LineElement = LineElement(node1: int, node2: int)

  /** The RPIM constants: exponent `q`, nodal spacings `dc`, `dcX`, `dcY` and
      the support-domain scale `alphaS` (the field `as` of the C++ struct). */
  datatype RPIMParameters = RPIMParameters(q: real, dc: real, dcX: real, dcY: real, alphaS: real)

  /** `std::abs` on doubles. */
  function Abs(x: real): real
  {
    if x < 0.0 then -x else x
  }

  /** `conv_pc_to_pc_vec`: split a cloud into its coordinate vectors, one
      `push_back` per point. */
  function ConvPcToPcVec(pts: seq<Point>): (v: PointCloudVec)
    ensures |v.x| == |pts| && |v.y| == |pts| && |v.z| == |pts|
    ensures forall i :: 0 <= i < |pts| ==> v.x[i] == pts[i].x && v.y[i] == pts[i].y && v.z[i] == pts[i].z
  {
    if |pts| == 0 then PointCloudVec([], [], [])
    else
      var front := ConvPcToPcVec(pts[..|pts| - 1]);
      var last := pts[|pts| - 1];
      PointCloudVec(front.x + [last.x], front.y + [last.y], front.z + [last.z])
  }

  /** Re-assembles points from three coordinate vectors of equal length. */
  function ZipPcVec(v: PointCloudVec): (pts: seq<Point>)
    requires |v.x| == |v.y| == |v.z|
    ensures |pts| == |v.x|
  {
    seq(|v.x|, i requires 0 <= i < |v.x| => Point(v.x[i], v.y[i], v.z[i]))
  }

  /** Splitting a cloud and zipping it back loses nothing. */
  lemma ConvPcToPcVecRoundTrip(pts: seq<Point>)
    ensures var v := ConvPcToPcVec(pts); |v.x| == |v.y| == |v.z| && ZipPcVec(v) == pts
  {
    var v := ConvPcToPcVec(pts);
    var back := ZipPcVec(v);
    assert forall i :: 0 <= i < |pts| ==> back[i] == pts[i];
  }

  // ---------------------------------------------------------------------
  // sorted_indices: a stable arg-sort.  The C++ code runs std::stable_sort
  // over the identity permutation with the comparator v[i1] < v[i2]; the
  // model builds the same permutation by stable insertion.
  // ---------------------------------------------------------------------

  /** Index k placed after every index whose value is not greater than v[k]. */
  function InsertIndex(s: seq<nat>, v: seq<real>, k: nat): (r: seq<nat>)
    requires k < |v|
    requires forall j :: 0 <= j < |s| ==> s[j] < |v|
    ensures |r| == |s| + 1
    ensures multiset(r) == multiset(s) + multiset{k}
    ensures forall j :: 0 <= j < |r| ==> r[j] < |v|
  {
    if s == [] then [k]
    else if v[k] < v[s[0]] then [k] + s
    else
      assert s == [s[0]] + s[1..];
      [s[0]] + InsertIndex(s[1..], v, k)
  }

  /** The arg-sort of the prefix v[..n]. */
  function SortedPrefix(v: seq<real>, n: nat): (r: seq<nat>)
    requires n <= |v|
    ensures |r| == n
    ensures forall j :: 0 <= j < |r| ==> r[j] < n
  {
    if n == 0 then []
    else
      var r := InsertIndex(SortedPrefix(v, n - 1), v, n - 1);
      assert forall j :: 0 <= j < |r| ==> r[j] in multiset(r);
      r
  }

  /** `sorted_indices(v)` */
  function SortedIndices(v: seq<real>): (idx: seq<nat>)
    ensures |idx| == |v|
  {
    SortedPrefix(v, |v|)
  }

  /** Values visited in non-decreasing order; equal values keep ascending indices. */
  ghost predicate StablySorted(idx: seq<nat>, v: seq<real>)
    requires forall j :: 0 <= j < |idx| ==> idx[j] < |v|
  {
    forall a, b :: 0 <= a < b < |idx| ==>
      v[idx[a]] <= v[idx[b]] && (v[idx[a]] == v[idx[b]] ==> idx[a] < idx[b])
  }

  lemma {:induction false} InsertIndexMember(s: seq<nat>, v: seq<real>, k: nat, j: nat)
    requires k < |v|
    requires forall i :: 0 <= i < |s| ==> s[i] < |v|
    requires j <= |s|
    ensures InsertIndex(s, v, k)[j] == k || InsertIndex(s, v, k)[j] in s
  {
    if s != [] && !(v[k] < v[s[0]]) && j > 0 {
      InsertIndexMember(s[1..], v, k, j - 1);
    }
  }

  /** Putting an index with a strictly smaller value in front keeps the
      order. */
  lemma PrependSmaller(s: seq<nat>, v: seq<real>, k: nat)
    requires k < |v| && s != []
    requires forall j :: 0 <= j < |s| ==> s[j] < |v|
    requires v[k] < v[s[0]]
    requires StablySorted(s, v)
    ensures StablySorted([k] + s, v)
  {
    var r := [k] + s;
    forall a, b | 0 <= a < b < |r|
      ensures v[r[a]] <= v[r[b]] && (v[r[a]] == v[r[b]] ==> r[a] < r[b])
    {
      assert r[b] == s[b - 1];
      if a == 0 {
        if b > 1 { assert v[s[0]] <= v[s[b - 1]]; }
      } else {
        assert r[a] == s[a - 1];
      }
    }
  }

  /** A head that precedes every later entry keeps the order. */
  lemma ConsSorted(h: nat, t: seq<nat>, v: seq<real>)
    requires h < |v|
    requires forall j :: 0 <= j < |t| ==> t[j] < |v|
    requires StablySorted(t, v)
    requires forall b :: 0 <= b < |t| ==> v[h] <= v[t[b]] && (v[h] == v[t[b]] ==> h < t[b])
    ensures StablySorted([h] + t, v)
  {
    var r := [h] + t;
    forall a, b | 0 <= a < b < |r|
      ensures v[r[a]] <= v[r[b]] && (v[r[a]] == v[r[b]] ==> r[a] < r[b])
    {
      assert r[b] == t[b - 1];
      if a > 0 { assert r[a] == t[a - 1]; }
    }
  }

  lemma {:induction false} InsertIndexSorted(s: seq<nat>, v: seq<real>, k: nat)
    requires k < |v|
    requires forall j :: 0 <= j < |s| ==> s[j] < k
    requires StablySorted(s, v)
    ensures StablySorted(InsertIndex(s, v, k), v)
  {
    if s == [] {
    } else if v[k] < v[s[0]] {
      PrependSmaller(s, v, k);
    } else {
      var tail := s[1..];
      InsertIndexSorted(tail, v, k);
      var rt := InsertIndex(tail, v, k);
      forall b | 0 <= b < |rt|
        ensures v[s[0]] <= v[rt[b]] && (v[s[0]] == v[rt[b]] ==> s[0] < rt[b])
      {
        InsertIndexMember(tail, v, k, b);
        if rt[b] != k {
          var j :| 0 <= j < |tail| && tail[j] == rt[b];
          assert tail[j] == s[j + 1];
        }
      }
      ConsSorted(s[0], rt, v);
    }
  }

  lemma {:induction false} SortedPrefixSorted(v: seq<real>, n: nat)
    requires n <= |v|
    ensures StablySorted(SortedPrefix(v, n), v)
  {
    if n > 0 {
      var s := SortedPrefix(v, n - 1);
      SortedPrefixSorted(v, n - 1);
      InsertIndexSorted(s, v, n - 1);
      assert SortedPrefix(v, n) == InsertIndex(s, v, n - 1);
    }
  }

  lemma IdentitySnoc(n: nat)
    requires n > 0
    ensures seq(n, i => i) == seq(n - 1, i => i) + [n - 1]
  {
  }

  lemma {:induction false} SortedPrefixPermutes(v: seq<real>, n: nat)
    requires n <= |v|
    ensures multiset(SortedPrefix(v, n)) == multiset(seq(n, i => i))
  {
    if n > 0 {
      SortedPrefixPermutes(v, n - 1);
      IdentitySnoc(n);
    }
  }

  /** `sorted_indices` returns a permutation of 0..|v|-1 that lists the values
      in non-decreasing order, ties in ascending index order (stability). */
  lemma SortedIndicesCorrect(v: seq<real>)
    ensures |SortedIndices(v)| == |v|
    ensures multiset(SortedIndices(v)) == multiset(seq(|v|, i => i))
    ensures forall i :: 0 <= i < |v| <==> i in SortedIndices(v)
    ensures forall k :: 0 <= k < |v| - 1 ==> v[SortedIndices(v)[k]] <= v[SortedIndices(v)[k + 1]]
    ensures forall a, b :: 0 <= a < b < |v| && v[SortedIndices(v)[a]] == v[SortedIndices(v)[b]] ==>
              SortedIndices(v)[a] < SortedIndices(v)[b]
  {
    var idx := SortedIndices(v);
    SortedPrefixSorted(v, |v|);
    SortedPrefixPermutes(v, |v|);
    forall i | 0 <= i < |v| ensures i in idx {
      var iota := seq(|v|, i => i);
      assert iota[i] == i;
      assert i in multiset(iota);
    }
    forall k | 0 <= k < |v| - 1 ensures v[idx[k]] <= v[idx[k + 1]] {
    }
  }
}
