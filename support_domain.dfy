/** Support-domain construction (src/support_domain.cpp).

    `generate` inverts a radius search: every field node queries the merged
    cloud, and each quadrature point it finds gets that field node appended
    to its support lists.  The k-d tree search of nanoflann is not part of
    this model; it is a parameter whose contract is the L1 (x, y, z) radius
    query of include/kd_trees.h. */
module SupportDomain {
  import opened Geom

  /** `SupportDomainPoint`: the quadrature point's cloud index and (x, y),
      and the recorded supports with their (x, y). */
  datatype SupportDomainPoint = SupportDomainPoint(
    pointIdx: nat,
    pointCoords: seq<real>,
    supportIndices: seq<nat>,
    supportCoords: seq<seq<real>>)

  /** A value-initialised entry of `std::vector<SupportDomainPoint>(n)`. */
  const EmptyEntry := SupportDomainPoint(0, [], [], [])

  /** The (x, y) part of a point, as the two-entry vectors the entries store. */
  function Planar(p: Point): seq<real>
  {
    [p.x, p.y]
  }

  /** The distance of nanoflann's `L1_Adaptor` over (x, y, z). */
  function L1Distance(a: Point, b: Point): real
  {
    Abs(a.x - b.x) + Abs(a.y - b.y) + Abs(a.z - b.z)
  }

  // ---------------------------------------------------------------------
  // The search oracle.  `search(q, r)` is `radius_search(q, r)`: the cloud
  // indices found around field node q.  Whether a point at distance exactly
  // r is found is left open.
  // ---------------------------------------------------------------------

  /** What `generate` relies on: every index found names a cloud point. */
  ghost predicate SearchInRange(search: (nat, real) -> seq<int>, fieldNum: nat, dataNum: nat)
  {
    forall q: nat, r: real {:trigger search(q, r)} :: q < fieldNum ==>
      forall i :: 0 <= i < |search(q, r)| ==> 0 <= search(q, r)[i] < dataNum
  }

  /** The full L1 radius-query contract: found points are within r of the
      query node, and every point strictly closer than r is found. */
  ghost predicate RadiusSearchSpec(search: (nat, real) -> seq<int>, field: seq<Point>, data: seq<Point>)
  {
    && SearchInRange(search, |field|, |data|)
    && (forall q: nat, r: real {:trigger search(q, r)} :: q < |field| ==>
          && (forall i :: 0 <= i < |search(q, r)| ==> L1Distance(field[q], data[search(q, r)[i]]) <= r)
          && (forall j :: 0 <= j < |data| && L1Distance(field[q], data[j]) < r ==> j in search(q, r)))
  }

  /** Square of half the rectangle diagonal. */
  function HalfDiagonalSquared(width: real, height: real): real
  {
    (width / 2.0) * (width / 2.0) + (height / 2.0) * (height / 2.0)
  }

  /** `search_radius`: half the diagonal of the `as·dc_x` by `as·dc_y`
      rectangle; `pow(·, 2.0)` is an exact square. */
  function SearchRadius(params: RPIMParameters, sqrt: real -> real): real
  {
    sqrt(HalfDiagonalSquared(params.alphaS * params.dcX, params.alphaS * params.dcY))
  }

  // ---------------------------------------------------------------------
  // Specification of the result of `generate`.
  // ---------------------------------------------------------------------

  /** Positions among the first n entries of the match list ms that name
      cloud point `target`, in ascending order. */
  function Hits(ms: seq<int>, target: int, n: nat): seq<nat>
    requires n <= |ms|
  {
    if n == 0 then []
    else Hits(ms, target, n - 1) + (if ms[n - 1] == target then [n - 1] else [])
  }

  /** Every position Hits lists is a position of `target`... */
  lemma {:induction false} HitsSound(ms: seq<int>, target: int, n: nat, j: nat)
    requires n <= |ms| && j < |Hits(ms, target, n)|
    ensures Hits(ms, target, n)[j] < n && ms[Hits(ms, target, n)[j]] == target
  {
    var before := Hits(ms, target, n - 1);
    if j < |before| {
      HitsSound(ms, target, n - 1, j);
    }
  }

  /** ...and every position of `target` is listed. */
  lemma {:induction false} HitsComplete(ms: seq<int>, target: int, n: nat, i: nat)
    requires i < n <= |ms| && ms[i] == target
    ensures i in Hits(ms, target, n)
  {
    if i < n - 1 {
      HitsComplete(ms, target, n - 1, i);
    }
  }

  function Repeat<T>(c: T, n: nat): (s: seq<T>)
    ensures |s| == n && forall j :: 0 <= j < n ==> s[j] == c
  {
    seq(n, _ => c)
  }

  /** The support indices `target` collects from the first q queries, whose
      match lists are ms[0], ms[1], ... */
  function SupportIndices(ms: seq<seq<int>>, target: int, q: nat): seq<nat>
    requires q <= |ms|
  {
    if q == 0 then []
    else SupportIndices(ms, target, q - 1) + Hits(ms[q - 1], target, |ms[q - 1]|)
  }

  /** The support coordinates `target` collects from the first q queries:
      field node q's (x, y) once per match of q on `target`.  There is one
      per support index. */
  function SupportCoords(field: seq<Point>, ms: seq<seq<int>>, target: int, q: nat): (c: seq<seq<real>>)
    requires q <= |ms| <= |field|
    ensures |c| == |SupportIndices(ms, target, q)|
  {
    if q == 0 then []
    else
      SupportCoords(field, ms, target, q - 1) +
      Repeat(Planar(field[q - 1]), |Hits(ms[q - 1], target, |ms[q - 1]|)|)
  }

  /** Entry k once the lists `idxs` and `coords` are recorded for it: it keeps
      its initial value until its first support is recorded. */
  function Entry(data: seq<Point>, fieldNum: nat, k: nat, idxs: seq<nat>, coords: seq<seq<real>>): SupportDomainPoint
    requires fieldNum + k < |data|
  {
    if |idxs| == 0 then EmptyEntry
    else SupportDomainPoint(fieldNum + k, Planar(data[fieldNum + k]), idxs, coords)
  }

  /** The match lists of all field-node queries at radius r. */
  function Matches(search: (nat, real) -> seq<int>, r: real, n: nat): (ms: seq<seq<int>>)
    ensures |ms| == n && forall q :: 0 <= q < n ==> ms[q] == search(q, r)
  {
    seq(n, q requires 0 <= q < n => search(q, r))
  }

  /** The support domains after the first q queries, one entry per non-field
      point of the cloud. */
  function SupportDomains(field: seq<Point>, data: seq<Point>, ms: seq<seq<int>>, q: nat): (sd: seq<SupportDomainPoint>)
    requires |field| <= |data| && q <= |ms| <= |field|
    ensures |sd| == |data| - |field|
  {
    seq(|data| - |field|, k requires 0 <= k < |data| - |field| =>
      Entry(data, |field|, k, SupportIndices(ms, |field| + k, q), SupportCoords(field, ms, |field| + k, q)))
  }

  // ---------------------------------------------------------------------
  // generate
  // ---------------------------------------------------------------------

  /** `generate`: one entry per cloud point after the field nodes; the entries
      are filled by the matches of the field-node queries, in query order.
      The cloud must hold the field nodes first, so that it is at least as
      long as the field-node list (otherwise the size of the result
      underflows). */
  method Generate(field: seq<Point>, data: seq<Point>, params: RPIMParameters,
                  sqrt: real -> real, search: (nat, real) -> seq<int>)
      returns (sup: seq<SupportDomainPoint>)
    requires |field| <= |data|
    requires SearchInRange(search, |field|, |data|)
    ensures sup == SupportDomains(field, data, Matches(search, SearchRadius(params, sqrt), |field|), |field|)
  {
    var radius := SearchRadius(params, sqrt);
    ghost var ms := Matches(search, radius, |field|);
    sup := seq(|data| - |field|, _ => EmptyEntry);
    forall k | 0 <= k < |sup|
      ensures sup[k] == SupportDomains(field, data, ms, 0)[k]
    {
      assert SupportIndices(ms, |field| + k, 0) == [];
      assert sup[k] == EmptyEntry;
      var e := SupportDomains(field, data, ms, 0)[k];
      assert e == Entry(data, |field|, k, SupportIndices(ms, |field| + k, 0), SupportCoords(field, ms, |field| + k, 0));
      assert e == EmptyEntry;
    }
    var queryIdx := 0;
    while queryIdx < |field|
      invariant 0 <= queryIdx <= |field|
      invariant sup == SupportDomains(field, data, ms, queryIdx)
    {
      var indices := search(queryIdx, radius);
      sup := AddQueryMatches(sup, field, data, ms, queryIdx, indices);
      queryIdx := queryIdx + 1;
    }
  }

  /** Entry k after the first q queries and the first i matches of query q. */
  function PrefixEntry(field: seq<Point>, data: seq<Point>, ms: seq<seq<int>>, q: nat, i: nat, k: nat)
    : SupportDomainPoint
    requires |field| <= |data| && q < |ms| <= |field| && i <= |ms[q]| && k < |data| - |field|
  {
    Entry(data, |field|, k,
          SupportIndices(ms, |field| + k, q) + Hits(ms[q], |field| + k, i),
          SupportCoords(field, ms, |field| + k, q) + Repeat(Planar(field[q]), |Hits(ms[q], |field| + k, i)|))
  }

  /** The support domains after the first q queries and the first i
      matches of query q. */
  function QueryPrefix(field: seq<Point>, data: seq<Point>, ms: seq<seq<int>>, q: nat, i: nat)
    : (sd: seq<SupportDomainPoint>)
    requires |field| <= |data| && q < |ms| <= |field| && i <= |ms[q]|
    ensures |sd| == |data| - |field|
  {
    seq(|data| - |field|, k requires 0 <= k < |data| - |field| => PrefixEntry(field, data, ms, q, i, k))
  }

  lemma PrefixEntryStart(field: seq<Point>, data: seq<Point>, ms: seq<seq<int>>, q: nat, k: nat)
    requires |field| <= |data| && q < |ms| <= |field| && k < |data| - |field|
    ensures PrefixEntry(field, data, ms, q, 0, k) == SupportDomains(field, data, ms, q)[k]
  {
    var t := |field| + k;
    var idxs := SupportIndices(ms, t, q);
    var coords := SupportCoords(field, ms, t, q);
    assert Hits(ms[q], t, 0) == [];
    assert Repeat(Planar(field[q]), 0) == [];
    assert idxs + [] == idxs;
    assert coords + [] == coords;
  }

  lemma QueryPrefixStart(field: seq<Point>, data: seq<Point>, ms: seq<seq<int>>, q: nat)
    requires |field| <= |data| && q < |ms| <= |field|
    ensures QueryPrefix(field, data, ms, q, 0) == SupportDomains(field, data, ms, q)
  {
    forall k | 0 <= k < |data| - |field|
      ensures PrefixEntry(field, data, ms, q, 0, k) == SupportDomains(field, data, ms, q)[k]
    {
      PrefixEntryStart(field, data, ms, q, k);
    }
  }

  lemma PrefixEntryEnd(field: seq<Point>, data: seq<Point>, ms: seq<seq<int>>, q: nat, k: nat)
    requires |field| <= |data| && q < |ms| <= |field| && k < |data| - |field|
    ensures PrefixEntry(field, data, ms, q, |ms[q]|, k) == SupportDomains(field, data, ms, q + 1)[k]
  {
    var t := |field| + k;
    var h := Hits(ms[q], t, |ms[q]|);
    assert SupportIndices(ms, t, q + 1) == SupportIndices(ms, t, q) + h;
    assert SupportCoords(field, ms, t, q + 1) == SupportCoords(field, ms, t, q) + Repeat(Planar(field[q]), |h|);
  }

  lemma QueryPrefixEnd(field: seq<Point>, data: seq<Point>, ms: seq<seq<int>>, q: nat)
    requires |field| <= |data| && q < |ms| <= |field|
    ensures QueryPrefix(field, data, ms, q, |ms[q]|) == SupportDomains(field, data, ms, q + 1)
  {
    forall k | 0 <= k < |data| - |field|
      ensures PrefixEntry(field, data, ms, q, |ms[q]|, k) == SupportDomains(field, data, ms, q + 1)[k]
    {
      PrefixEntryEnd(field, data, ms, q, k);
    }
  }

  /** One match of query q seen from entry k: the entry of the matched
      point gets the match position and q's (x, y) appended; every other
      entry stays as it is. */
  lemma PrefixEntryStep(field: seq<Point>, data: seq<Point>, ms: seq<seq<int>>, q: nat, i: nat, k: nat)
    requires |field| <= |data| && q < |ms| <= |field| && i < |ms[q]| && k < |data| - |field|
    ensures var before := PrefixEntry(field, data, ms, q, i, k);
      PrefixEntry(field, data, ms, q, i + 1, k) ==
        if ms[q][i] == |field| + k
        then SupportDomainPoint(|field| + k, Planar(data[|field| + k]),
                                before.supportIndices + [i], before.supportCoords + [Planar(field[q])])
        else before
  {
    var t := |field| + k;
    var c := Planar(field[q]);
    var h := Hits(ms[q], t, i);
    var idxs := SupportIndices(ms, t, q) + h;
    var coords := SupportCoords(field, ms, t, q) + Repeat(c, |h|);
    assert |idxs| == |coords|;
    if ms[q][i] == t {
      assert Hits(ms[q], t, i + 1) == h + [i];
      assert Repeat(c, |h| + 1) == Repeat(c, |h|) + [c];
      assert SupportIndices(ms, t, q) + (h + [i]) == idxs + [i];
      assert SupportCoords(field, ms, t, q) + (Repeat(c, |h|) + [c]) == coords + [c];
    } else {
      assert Hits(ms[q], t, i + 1) == h;
    }
  }

  /** One match of query q: a match at a non-field point appends the match
      position and q's (x, y) to that point's entry; a match at a field node
      changes nothing. */
  lemma QueryPrefixStep(field: seq<Point>, data: seq<Point>, ms: seq<seq<int>>, q: nat, i: nat)
    requires |field| <= |data| && q < |ms| <= |field| && i < |ms[q]|
    requires 0 <= ms[q][i] < |data|
    ensures var before := QueryPrefix(field, data, ms, q, i);
      var idx := ms[q][i];
      QueryPrefix(field, data, ms, q, i + 1) ==
        if idx < |field| then before
        else before[idx - |field| := SupportDomainPoint(idx, Planar(data[idx]),
               before[idx - |field|].supportIndices + [i],
               before[idx - |field|].supportCoords + [Planar(field[q])])]
  {
    forall k | 0 <= k < |data| - |field|
      ensures PrefixEntry(field, data, ms, q, i + 1, k) ==
        if ms[q][i] == |field| + k
        then SupportDomainPoint(|field| + k, Planar(data[|field| + k]),
               PrefixEntry(field, data, ms, q, i, k).supportIndices + [i],
               PrefixEntry(field, data, ms, q, i, k).supportCoords + [Planar(field[q])])
        else PrefixEntry(field, data, ms, q, i, k)
    {
      PrefixEntryStep(field, data, ms, q, i, k);
    }
  }

  /** The inner loop of `generate` for query node q: every match at a
      non-field point appends the match position and q's (x, y) to that
      point's entry. */
  method AddQueryMatches(sup: seq<SupportDomainPoint>, field: seq<Point>, data: seq<Point>,
                         ghost ms: seq<seq<int>>, q: nat, indices: seq<int>)
      returns (sup': seq<SupportDomainPoint>)
    requires |field| <= |data| && q < |ms| == |field|
    requires indices == ms[q]
    requires forall i :: 0 <= i < |indices| ==> 0 <= indices[i] < |data|
    requires sup == SupportDomains(field, data, ms, q)
    ensures sup' == SupportDomains(field, data, ms, q + 1)
  {
    var fieldNum := |field|;
    var c := Planar(field[q]);
    QueryPrefixStart(field, data, ms, q);
    sup' := sup;
    var i := 0;
    while i < |indices|
      invariant 0 <= i <= |indices|
      invariant sup' == QueryPrefix(field, data, ms, q, i)
    {
      QueryPrefixStep(field, data, ms, q, i);
      var idx := indices[i];
      if idx > fieldNum - 1 {
        var goal := idx - fieldNum;
        var e := sup'[goal];
        sup' := sup'[goal := SupportDomainPoint(idx, Planar(data[idx]),
                                                e.supportIndices + [i], e.supportCoords + [c])];
      }
      i := i + 1;
    }
    assert sup' == QueryPrefix(field, data, ms, q, |ms[q]|);
    QueryPrefixEnd(field, data, ms, q);
  }

  // ---------------------------------------------------------------------
  // What the entries mean.
  // ---------------------------------------------------------------------

  /** Every recorded support is a match: support j of `target` is the
      position of `target` in the match list of some field node qq, and the
      stored coordinates are that node's (x, y).  The stored index is the
      match position, not qq. */
  lemma {:induction false} SupportsAreMatches(field: seq<Point>, ms: seq<seq<int>>, target: int, q: nat, j: nat)
    requires q <= |ms| <= |field|
    requires j < |SupportIndices(ms, target, q)|
    ensures exists qq :: (0 <= qq < q &&
      SupportIndices(ms, target, q)[j] < |ms[qq]| &&
      ms[qq][SupportIndices(ms, target, q)[j]] == target &&
      SupportCoords(field, ms, target, q)[j] == Planar(field[qq]))
  {
    var before := SupportIndices(ms, target, q - 1);
    var coordsBefore := SupportCoords(field, ms, target, q - 1);
    var h := Hits(ms[q - 1], target, |ms[q - 1]|);
    assert SupportIndices(ms, target, q) == before + h;
    assert SupportCoords(field, ms, target, q) == coordsBefore + Repeat(Planar(field[q - 1]), |h|);
    if j < |before| {
      SupportsAreMatches(field, ms, target, q - 1, j);
      var qq :| 0 <= qq < q - 1 && before[j] < |ms[qq]| && ms[qq][before[j]] == target &&
                coordsBefore[j] == Planar(field[qq]);
      assert SupportIndices(ms, target, q)[j] == before[j];
      assert SupportCoords(field, ms, target, q)[j] == coordsBefore[j];
    } else {
      HitsSound(ms[q - 1], target, |ms[q - 1]|, j - |before|);
      assert SupportIndices(ms, target, q)[j] == h[j - |before|];
      assert SupportCoords(field, ms, target, q)[j] == Planar(field[q - 1]);
    }
  }

  /** Conversely every match is recorded: if field node qq found `target` at
      position i of its match list, then i is among `target`'s support
      indices with qq's (x, y) beside it. */
  lemma {:induction false} MatchesAreSupports(field: seq<Point>, ms: seq<seq<int>>, target: int, q: nat,
                                              qq: nat, i: nat)
    requires q <= |ms| <= |field|
    requires qq < q && i < |ms[qq]| && ms[qq][i] == target
    ensures exists j :: (0 <= j < |SupportIndices(ms, target, q)| &&
      SupportIndices(ms, target, q)[j] == i &&
      SupportCoords(field, ms, target, q)[j] == Planar(field[qq]))
  {
    var before := SupportIndices(ms, target, q - 1);
    var coordsBefore := SupportCoords(field, ms, target, q - 1);
    var h := Hits(ms[q - 1], target, |ms[q - 1]|);
    assert SupportIndices(ms, target, q) == before + h;
    assert SupportCoords(field, ms, target, q) == coordsBefore + Repeat(Planar(field[q - 1]), |h|);
    if qq < q - 1 {
      MatchesAreSupports(field, ms, target, q - 1, qq, i);
      var j :| 0 <= j < |before| && before[j] == i && coordsBefore[j] == Planar(field[qq]);
      assert SupportIndices(ms, target, q)[j] == i;
      assert SupportCoords(field, ms, target, q)[j] == coordsBefore[j];
    } else {
      HitsComplete(ms[q - 1], target, |ms[q - 1]|, i);
      assert i in h;
      var m :| 0 <= m < |h| && h[m] == i;
      var j := |before| + m;
      assert SupportIndices(ms, target, q)[j] == i;
      assert SupportCoords(field, ms, target, q)[j] == Planar(field[q - 1]);
    }
  }

  /** The entries of `generate`'s result: entry k stands for cloud point
      F + k; it is touched exactly when some field node found that point,
      and then it records that point's index and (x, y); its two support
      lists always have the same length. */
  lemma EntryMeaning(field: seq<Point>, data: seq<Point>, ms: seq<seq<int>>, k: nat)
    requires |field| <= |data| && |ms| == |field| && k < |data| - |field|
    ensures var e := SupportDomains(field, data, ms, |field|)[k];
      && |e.supportIndices| == |e.supportCoords|
      && (e != EmptyEntry <==>
            exists qq, i :: 0 <= qq < |field| && 0 <= i < |ms[qq]| && ms[qq][i] == |field| + k)
      && (e != EmptyEntry ==> e.pointIdx == |field| + k && e.pointCoords == Planar(data[|field| + k]))
  {
    var t := |field| + k;
    var idxs := SupportIndices(ms, t, |field|);
    var coords := SupportCoords(field, ms, t, |field|);
    var e := SupportDomains(field, data, ms, |field|)[k];
    assert e == Entry(data, |field|, k, idxs, coords);
    if |idxs| > 0 {
      SupportsAreMatches(field, ms, t, |field|, 0);
    }
    if exists qq, i :: 0 <= qq < |field| && 0 <= i < |ms[qq]| && ms[qq][i] == t {
      var qq, i :| 0 <= qq < |field| && 0 <= i < |ms[qq]| && ms[qq][i] == t;
      MatchesAreSupports(field, ms, t, |field|, qq, i);
    }
  }

  /** Support j of entry k of the final result comes from the match of
      field node qq at position i on cloud point F + k. */
  lemma EntrySupportSource(field: seq<Point>, data: seq<Point>, ms: seq<seq<int>>, k: nat, j: nat)
      returns (qq: nat, i: nat)
    requires |field| <= |data| && |ms| == |field| && k < |data| - |field|
    requires j < |SupportDomains(field, data, ms, |field|)[k].supportCoords|
    ensures qq < |field| && i < |ms[qq]| && ms[qq][i] == |field| + k
    ensures |SupportDomains(field, data, ms, |field|)[k].supportIndices| == |SupportDomains(field, data, ms, |field|)[k].supportCoords|
    ensures SupportDomains(field, data, ms, |field|)[k].supportIndices[j] == i
    ensures SupportDomains(field, data, ms, |field|)[k].supportCoords[j] == Planar(field[qq])
  {
    var t := |field| + k;
    var idxs := SupportIndices(ms, t, |field|);
    var coords := SupportCoords(field, ms, t, |field|);
    assert SupportDomains(field, data, ms, |field|)[k] == Entry(data, |field|, k, idxs, coords);
    SupportsAreMatches(field, ms, t, |field|, j);
    qq :| 0 <= qq < |field| && idxs[j] < |ms[qq]| && ms[qq][idxs[j]] == t && coords[j] == Planar(field[qq]);
    i := idxs[j];
  }

  /** The match of field node qq at position i on cloud point F + k is
      recorded in entry k of the final result. */
  lemma EntryRecordsMatch(field: seq<Point>, data: seq<Point>, ms: seq<seq<int>>, k: nat, qq: nat, i: nat)
      returns (j: nat)
    requires |field| <= |data| && |ms| == |field| && k < |data| - |field|
    requires qq < |field| && i < |ms[qq]| && ms[qq][i] == |field| + k
    ensures j < |SupportDomains(field, data, ms, |field|)[k].supportCoords|
    ensures |SupportDomains(field, data, ms, |field|)[k].supportIndices| == |SupportDomains(field, data, ms, |field|)[k].supportCoords|
    ensures SupportDomains(field, data, ms, |field|)[k].supportIndices[j] == i
    ensures SupportDomains(field, data, ms, |field|)[k].supportCoords[j] == Planar(field[qq])
  {
    var t := |field| + k;
    var idxs := SupportIndices(ms, t, |field|);
    var coords := SupportCoords(field, ms, t, |field|);
    assert SupportDomains(field, data, ms, |field|)[k] == Entry(data, |field|, k, idxs, coords);
    MatchesAreSupports(field, ms, t, |field|, qq, i);
    j :| 0 <= j < |idxs| && idxs[j] == i && coords[j] == Planar(field[qq]);
  }

  /** With the L1 radius-query contract, every support of a quadrature
      point is a field node qq within the search radius of it. */
  lemma SupportsWithinRadius(field: seq<Point>, data: seq<Point>, search: (nat, real) -> seq<int>,
                             r: real, k: nat, j: nat)
      returns (qq: nat)
    requires |field| <= |data| && k < |data| - |field|
    requires RadiusSearchSpec(search, field, data)
    requires j < |SupportDomains(field, data, Matches(search, r, |field|), |field|)[k].supportCoords|
    ensures qq < |field|
    ensures SupportDomains(field, data, Matches(search, r, |field|), |field|)[k].supportCoords[j] == Planar(field[qq])
    ensures L1Distance(field[qq], data[|field| + k]) <= r
  {
    var ms := Matches(search, r, |field|);
    var i;
    qq, i := EntrySupportSource(field, data, ms, k, j);
    assert ms[qq] == search(qq, r);
    FoundWithinRadius(search, field, data, qq, r, i);
  }

  /** With the L1 radius-query contract, every field node strictly inside
      the search radius of a quadrature point is one of its supports. */
  lemma NearNodesAreSupports(field: seq<Point>, data: seq<Point>, search: (nat, real) -> seq<int>,
                             r: real, k: nat, qq: nat)
    requires |field| <= |data| && k < |data| - |field|
    requires RadiusSearchSpec(search, field, data)
    requires qq < |field| && L1Distance(field[qq], data[|field| + k]) < r
    ensures Planar(field[qq]) in SupportDomains(field, data, Matches(search, r, |field|), |field|)[k].supportCoords
  {
    var ms := Matches(search, r, |field|);
    var t := |field| + k;
    assert ms[qq] == search(qq, r);
    assert t in search(qq, r);
    var i :| 0 <= i < |ms[qq]| && ms[qq][i] == t;
    var j := EntryRecordsMatch(field, data, ms, k, qq, i);
  }

  lemma FoundWithinRadius(search: (nat, real) -> seq<int>, field: seq<Point>, data: seq<Point>,
                          q: nat, r: real, i: nat)
    requires RadiusSearchSpec(search, field, data)
    requires q < |field| && i < |search(q, r)|
    ensures 0 <= search(q, r)[i] < |data| && L1Distance(field[q], data[search(q, r)[i]]) <= r
  {
  }

  /** The recorded support index is the match position, not the field node:
      with two field nodes that both find cloud point 2 at match position 1,
      entry 0 records index 1 twice, once with node 0's coordinates. */
  lemma SupportIndexIsMatchPosition(p0: Point, p1: Point, p2: Point)
    ensures var sd := SupportDomains([p0, p1], [p0, p1, p2], [[0, 2], [1, 2]], 2);
      sd[0].supportIndices == [1, 1] && sd[0].supportCoords == [Planar(p0), Planar(p1)]
  {
    var ms: seq<seq<int>> := [[0, 2], [1, 2]];
    assert Hits(ms[0], 2, 2) == [1];
    assert Hits(ms[1], 2, 2) == [1];
    assert SupportIndices(ms, 2, 1) == [1];
    assert SupportIndices(ms, 2, 2) == [1, 1];
    assert Repeat(Planar(p0), 1) == [Planar(p0)];
    assert Repeat(Planar(p1), 1) == [Planar(p1)];
    assert SupportCoords([p0, p1], ms, 2, 1) == [Planar(p0)];
    assert SupportCoords([p0, p1], ms, 2, 2) == [Planar(p0), Planar(p1)];
    var sd := SupportDomains([p0, p1], [p0, p1, p2], ms, 2);
    assert sd[0] == Entry([p0, p1, p2], 2, 0, [1, 1], [Planar(p0), Planar(p1)]);
  }

  // ---------------------------------------------------------------------
  // rectangle and get_equal_idx
  // ---------------------------------------------------------------------

  /** `rectangle`: the closed outline upper-left, lower-left, lower-right,
      upper-right, upper-left of the box centred at (cx, cy); only x and y
      are filled. */
  function Rectangle(cx: real, cy: real, width: real, height: real): (pc: PointCloudVec)
  {
    var w2 := width / 2.0;
    var h2 := height / 2.0;
    PointCloudVec([cx - w2, cx - w2, cx + w2, cx + w2, cx - w2],
                  [cy + h2, cy - h2, cy - h2, cy + h2, cy + h2], [])
  }

  /** The outline is closed, its sides have the given width and height, and
      its four corners average to the centre. */
  lemma RectangleShape(cx: real, cy: real, width: real, height: real)
    ensures var pc := Rectangle(cx, cy, width, height);
      && |pc.x| == 5 && |pc.y| == 5 && |pc.z| == 0
      && pc.x[4] == pc.x[0] && pc.y[4] == pc.y[0]
      && pc.x[0] == pc.x[1] && pc.x[2] == pc.x[3] && pc.x[2] - pc.x[1] == width
      && pc.y[1] == pc.y[2] && pc.y[0] == pc.y[3] && pc.y[0] - pc.y[1] == height
      && (pc.x[0] + pc.x[1] + pc.x[2] + pc.x[3]) / 4.0 == cx
      && (pc.y[0] + pc.y[1] + pc.y[2] + pc.y[3]) / 4.0 == cy
  {
  }

  /** A CGAL `Point_2`. */
  datatype Point2 = Point2(x: real, y: real)

  /** Both coordinate differences are within tol. */
  predicate Coincides(a: Point2, b: Point2, tol: real)
  {
    Abs(a.x - b.x) <= tol && Abs(a.y - b.y) <= tol
  }

  /** `get_equal_idx`: the scan keeps overwriting `idx`, so the result is the
      last point that coincides with p, or 0 when none does. */
  method GetEqualIdx(p: Point2, pts: seq<Point2>, tol: real) returns (idx: nat)
    ensures (exists i :: 0 <= i < |pts| && Coincides(p, pts[i], tol)) ==>
      idx < |pts| && Coincides(p, pts[idx], tol) &&
      forall j :: idx < j < |pts| ==> !Coincides(p, pts[j], tol)
    ensures (forall i :: 0 <= i < |pts| ==> !Coincides(p, pts[i], tol)) ==> idx == 0
  {
    idx := 0;
    ghost var found := false;
    var i := 0;
    while i < |pts|
      invariant 0 <= i <= |pts|
      invariant found <==> exists m :: 0 <= m < i && Coincides(p, pts[m], tol)
      invariant found ==> idx < i && Coincides(p, pts[idx], tol)
      invariant found ==> forall j :: idx < j < i ==> !Coincides(p, pts[j], tol)
      invariant !found ==> idx == 0
    {
      var diffX := Abs(p.x - pts[i].x);
      var diffY := Abs(p.y - pts[i].y);
      if diffX <= tol && diffY <= tol {
        idx := i;
        found := true;
      }
      i := i + 1;
    }
  }
}
