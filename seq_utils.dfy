/** Sequence helpers shared by the quadrature generators: the cell-major
    concatenation of per-cell lists and the index arithmetic that goes with
    it. */
module SeqUtils {

  /** Concatenation of the lists in order (cell 0's, then cell 1's, ...). */
  function Flatten<T>(s: seq<seq<T>>): seq<T>
  {
    if |s| == 0 then [] else Flatten(s[..|s| - 1]) + s[|s| - 1]
  }

  /** Consecutive naturals lo, lo+1, ..., lo+n-1. */
  function Iota(lo: nat, n: nat): (s: seq<nat>)
    ensures |s| == n && forall j :: 0 <= j < n ==> s[j] == lo + j
  {
    seq(n, j requires 0 <= j < n => lo + j)
  }

  predicate AllOfLength<T>(s: seq<seq<T>>, k: nat)
  {
    forall j :: 0 <= j < |s| ==> |s[j]| == k
  }

  lemma {:induction false} FlattenLength<T>(s: seq<seq<T>>, k: nat)
    requires AllOfLength(s, k)
    ensures |Flatten(s)| == |s| * k
  {
    if |s| > 0 {
      FlattenLength(s[..|s| - 1], k);
      assert (|s| - 1) * k + k == |s| * k;
    }
  }

  /** With every list of length k, element j of list i sits at i*k + j. */
  lemma {:induction false} FlattenIndex<T>(s: seq<seq<T>>, k: nat, i: nat, j: nat)
    requires AllOfLength(s, k)
    requires i < |s| && j < k
    ensures i * k + j < |Flatten(s)|
    ensures Flatten(s)[i * k + j] == s[i][j]
  {
    FlattenLength(s, k);
    var front := s[..|s| - 1];
    FlattenLength(front, k);
    if i < |s| - 1 {
      FlattenIndex(front, k, i, j);
      assert i * k + j < (|s| - 1) * k by {
        assert i * k <= (|s| - 2) * k by { MulMono(i, |s| - 2, k); }
        assert (|s| - 2) * k + k == (|s| - 1) * k;
      }
    } else {
      assert i * k == (|s| - 1) * k;
    }
  }

  lemma MulMono(a: nat, b: nat, k: nat)
    requires a <= b
    ensures a * k <= b * k
  {
  }

  /** Appending one more list extends the concatenation by it. */
  lemma FlattenSnoc<T>(s: seq<seq<T>>, t: seq<T>)
    ensures Flatten(s + [t]) == Flatten(s) + t
  {
    assert (s + [t])[..|s|] == s;
  }
}
