/** The G-vector set (class Gvec in src/SDDK/gvec.hpp): its z-columns, their distribution over
    the ranks, the two index tables, the shells and the map from a base set, as init leaves
    them, with the accessors the rest of the code reads them through. */
module GvecSet {
  import opened Seqs
  import opened Wrappers
  import opened ZColumns
  import opened Distribution
  import opened GvecIndex
  import opened Shells

  /** A G-vector in lattice coordinates. */
  type Vec = (int, int, int)

  /** The state init builds: the box and reduction flag, the communicator (numRanks ranks, this
      one is rank), z_columns_, num_gvec_, zcol_distr_ and gvec_distr_ (counts and offsets),
      gvec_full_index_, gvec_index_by_xy_, gvec_shell_, num_gvec_shells_, the shell keys
      (gvec_shell_len_) and gvec_base_mapping_. */
  datatype Gvec = Gvec(
    box: Box, reduce: bool, bare: bool, numRanks: nat, rank: nat,
    cols: seq<ZColumn>, numGvec: int,
    zcolCounts: seq<int>, zcolOffsets: seq<int>, gvecCounts: seq<int>, gvecOffsets: seq<int>,
    fullIndex: seq<int>, byXY: map<(int, int), XYEntry>,
    shell: seq<int>, numShells: int, shellLen: seq<int>,
    baseMapping: seq<int>)

  function TablesOf(g: Gvec): Tables
  {
    Tables(g.box, g.reduce, g.cols, g.fullIndex, g.byXY)
  }

  /** The distribution over p ranks: rank r owns the zcol_count(r) columns from zcol_offset(r)
      on, and the G-vectors of those columns are exactly its gvec_count(r) vectors from
      gvec_offset(r) on. */
  ghost predicate DistributedParts(p: int, cols: seq<ZColumn>, zcolCounts: seq<int>, zcolOffsets: seq<int>,
                                   gvecCounts: seq<int>, gvecOffsets: seq<int>)
  {
    && 1 <= p && |zcolCounts| == p && |gvecCounts| == p && |zcolOffsets| == p && |gvecOffsets| == p
    && (forall r :: 0 <= r < p ==> zcolCounts[r] >= 0)
    && (forall r {:trigger zcolOffsets[r]} {:trigger gvecOffsets[r]} :: 0 <= r < p ==>
          zcolOffsets[r] == PrefixSum(zcolCounts, r) && gvecOffsets[r] == PrefixSum(gvecCounts, r))
    && PrefixSum(zcolCounts, p) == |cols|
    && (forall r {:trigger ColumnStart(cols, PrefixSum(zcolCounts, r))} :: 0 <= r <= p ==>
          0 <= PrefixSum(zcolCounts, r) <= |cols| &&
          ColumnStart(cols, PrefixSum(zcolCounts, r)) == PrefixSum(gvecCounts, r))
  }

  ghost predicate Distributed(g: Gvec)
  {
    && g.rank < g.numRanks
    && DistributedParts(g.numRanks, g.cols, g.zcolCounts, g.zcolOffsets, g.gvecCounts, g.gvecOffsets)
  }

  /** What a successful init guarantees: the distribution, index tables built from the columns
      within the capacity limits, a non-empty set whose first column is the (0, 0) column
      starting at z = 0 (so that its first vector is G = 0) and sits on rank 0, and, for a bare
      set (G-vectors, not G+k), a shell number for every vector; a G+k set has no shells. */
  ghost predicate Consistent(g: Gvec)
  {
    && Distributed(g)
    && Built(TablesOf(g))
    && g.numGvec == |g.fullIndex| > 0
    && |g.cols| > 0 && XY(g.cols[0]) == (0, 0) && |g.cols[0].z| > 0 && g.cols[0].z[0] == 0
    && g.zcolCounts[0] > 0
    && (g.reduce ==> forall i, j :: 0 <= i < |g.cols| && 0 <= j < |g.cols| ==> MirrorApart(g.cols, i, j))
    && (g.bare ==> |g.shell| == g.numGvec && |g.shellLen| == g.numShells
                   && forall ig :: 0 <= ig < g.numGvec ==> 0 <= g.shell[ig] < g.numShells)
    && (!g.bare ==> g.shell == [] && g.shellLen == [] && g.numShells == 0)
  }

  /** Two different columns are not mirror images of each other (named, so that the pairs are
      only looked at where a proof names them). */
  ghost predicate MirrorApart(cols: seq<ZColumn>, i: int, j: int)
    requires 0 <= i < |cols| && 0 <= j < |cols|
  {
    i != j ==> XY(cols[i]) != Mirror(XY(cols[j]))
  }

  /*** Accessors ***/

  /** num_gvec: the total size of the columns. */
  function NumGvec(g: Gvec): (n: int)
    requires Consistent(g)
    ensures n == SumBy(g.cols, ColumnSize) && n > 0
  {
    FullIndexLength(g.cols, |g.cols|);
    ColumnStartSumBy(g.cols, |g.cols|);
    g.numGvec
  }

  /** num_zcol: the columns of all ranks together. */
  function NumZcol(g: Gvec): (n: int)
    requires Distributed(g)
    ensures n == PrefixSum(g.zcolCounts, g.numRanks)
  {
    |g.cols|
  }

  /** zcol_offset: the number of columns of the ranks before r. */
  function ZcolOffset(g: Gvec, r: int): (o: int)
    requires Distributed(g) && 0 <= r < g.numRanks
    ensures o == PrefixSum(g.zcolCounts, r) && 0 <= o <= |g.cols|
  {
    SplitPoint(g, r);
    g.zcolOffsets[r]
  }

  /** zcol_count: rank r's columns end where rank r + 1's begin. */
  function ZcolCount(g: Gvec, r: int): (c: int)
    requires Distributed(g) && 0 <= r < g.numRanks
    ensures c >= 0 && ZcolOffset(g, r) + c == PrefixSum(g.zcolCounts, r + 1) <= |g.cols|
  {
    SplitPoint(g, r + 1);
    g.zcolCounts[r]
  }

  /** gvec_offset: the G-vectors of the columns before rank r's. */
  function GvecOffset(g: Gvec, r: int): (o: int)
    requires Distributed(g) && 0 <= r < g.numRanks
    ensures o == ColumnStart(g.cols, ZcolOffset(g, r))
  {
    SplitPoint(g, r);
    g.gvecOffsets[r]
  }

  /** gvec_count: the G-vectors of rank r's columns. */
  function GvecCount(g: Gvec, r: int): (c: int)
    requires Distributed(g) && 0 <= r < g.numRanks
    ensures GvecOffset(g, r) + c == ColumnStart(g.cols, ZcolOffset(g, r) + ZcolCount(g, r))
    ensures c >= 0
  {
    SplitPoint(g, r + 1);
    ColumnStartMonotone(g.cols, ZcolOffset(g, r), ZcolOffset(g, r) + ZcolCount(g, r));
    g.gvecCounts[r]
  }

  /** The ranks before r own a prefix of the columns, and the vectors of that prefix. */
  lemma SplitPoint(g: Gvec, r: int)
    requires Distributed(g) && 0 <= r <= g.numRanks
    ensures 0 <= PrefixSum(g.zcolCounts, r) <= |g.cols|
    ensures ColumnStart(g.cols, PrefixSum(g.zcolCounts, r)) == PrefixSum(g.gvecCounts, r)
  {
    PrefixSumGrows(g.zcolCounts, 0, r);
    PrefixSumGrows(g.zcolCounts, r, g.numRanks);
  }

  /** count: this rank's G-vectors, a range inside the set. */
  function Count(g: Gvec): (c: int)
    requires Consistent(g)
    ensures 0 <= c && 0 <= Offset(g) && Offset(g) + c <= g.numGvec
    ensures c == GvecCount(g, g.rank)
  {
    var a := ZcolOffset(g, g.rank);
    ColumnStartMonotone(g.cols, 0, a);
    ColumnStartMonotone(g.cols, a + ZcolCount(g, g.rank), |g.cols|);
    FullIndexLength(g.cols, |g.cols|);
    GvecCount(g, g.rank)
  }

  /** offset: where this rank's G-vectors start in the global index. */
  function Offset(g: Gvec): (o: int)
    requires Distributed(g)
    ensures o == GvecOffset(g, g.rank)
  {
    GvecOffset(g, g.rank)
  }

  /** skip_g0: 1 exactly on the rank whose local G-vectors include G = 0 (global index 0). */
  function SkipG0(g: Gvec): (s: int)
    requires Consistent(g)
    ensures s == 1 <==> Offset(g) <= 0 < Offset(g) + Count(g)
    ensures s == 0 || s == 1
  {
    ZeroOnRankZero(g);
    if g.rank == 0 then 1 else 0
  }

  /** Rank 0's range starts at 0 and is not empty; every other rank's range starts after 0. */
  lemma ZeroOnRankZero(g: Gvec)
    requires Consistent(g)
    ensures GvecOffset(g, 0) == 0 < GvecCount(g, 0)
    ensures g.rank > 0 ==> Offset(g) > 0
  {
    ColumnsNonEmpty(g);
    ColumnStartMonotone(g.cols, 0, ZcolCount(g, 0));
    if g.rank > 0 {
      PrefixSumGrows(g.zcolCounts, 1, g.rank);
      ColumnStartMonotone(g.cols, ZcolCount(g, 0), ZcolOffset(g, g.rank));
    }
  }

  /** gvec: the vector with global index ig, a member of the set that index_by_gvec maps
      back to ig. */
  function GvecOf(g: Gvec, ig: int): (v: Vec)
    requires Consistent(g) && 0 <= ig < g.numGvec
    ensures Member(TablesOf(g), v) && g.box.InXY((v.0, v.1))
    ensures LookupSafe(TablesOf(g)) && IndexByGvec(TablesOf(g), v) == ig
  {
    var t := TablesOf(g);
    IndexRoundTrip(t, ig);
    var i := ColumnOfIndex(g.cols, ig);
    assert Member(t, GvecAt(t, ig)) by {
      var j := ig - ColumnStart(g.cols, i);
      assert GvecAt(t, ig) == (g.cols[i].x, g.cols[i].y, g.cols[i].z[j]);
    }
    GvecAt(t, ig)
  }

  /** index_by_gvec: a member's global index; -1 for an (x, y) without a column and for
      (0, 0, z < 0) in a reduced set. */
  function IndexOf(g: Gvec, v: Vec): (ig: int)
    requires Consistent(g) && g.box.InXY((v.0, v.1))
    ensures Member(TablesOf(g), v) ==> 0 <= ig < g.numGvec && GvecOf(g, ig) == v
    ensures (forall i :: 0 <= i < |g.cols| ==> XY(g.cols[i]) != (v.0, v.1)) ==> ig == -1
    ensures g.reduce && v.0 == 0 && v.1 == 0 && v.2 < 0 ==> ig == -1
  {
    IndexOfCases(g, v);
    IndexByGvec(TablesOf(g), v)
  }

  lemma IndexOfCases(g: Gvec, v: Vec)
    requires Consistent(g) && g.box.InXY((v.0, v.1))
    ensures LookupSafe(TablesOf(g))
    ensures Member(TablesOf(g), v) ==>
      0 <= IndexByGvec(TablesOf(g), v) < g.numGvec && GvecAt(TablesOf(g), IndexByGvec(TablesOf(g), v)) == v
    ensures (forall i :: 0 <= i < |g.cols| ==> XY(g.cols[i]) != (v.0, v.1)) ==> IndexByGvec(TablesOf(g), v) == -1
    ensures g.reduce && v.0 == 0 && v.1 == 0 && v.2 < 0 ==> IndexByGvec(TablesOf(g), v) == -1
  {
    var t := TablesOf(g);
    BuiltLookupSafe(t);
    if Member(t, v) {
      IndexOfMember(t, v);
    }
    if (forall i :: 0 <= i < |g.cols| ==> XY(g.cols[i]) != (v.0, v.1)) || (g.reduce && v.0 == 0 && v.1 == 0 && v.2 < 0) {
      IndexOfAbsent(t, v);
    }
  }

  function Diff(a: Vec, b: Vec): Vec
  {
    (a.0 - b.0, a.1 - b.1, a.2 - b.2)
  }

  function Neg(v: Vec): Vec
  {
    (-v.0, -v.1, -v.2)
  }

  /** index_g12_safe: the index of G1 - G2, or, when that lookup is negative, the index of
      G2 - G1 flagged as a conjugate; an index outside [0, num_gvec) stops the program. The
      table is read at the (x, y) of each vector looked up, which must lie in the box. */
  function IndexG12Safe(g: Gvec, g1: Vec, g2: Vec): (r: Result<(int, bool), string>)
    requires Consistent(g) && g.box.InXY((Diff(g1, g2).0, Diff(g1, g2).1))
    requires IndexOf(g, Diff(g1, g2)) < 0 ==> g.box.InXY((Neg(Diff(g1, g2)).0, Neg(Diff(g1, g2)).1))
    ensures r.Success? ==> 0 <= r.value.0 < g.numGvec
    ensures r.Success? && !r.value.1 ==> IndexOf(g, Diff(g1, g2)) == r.value.0
    ensures r.Success? && r.value.1 ==> IndexOf(g, Diff(g1, g2)) < 0 && IndexOf(g, Neg(Diff(g1, g2))) == r.value.0
    ensures r.Failure? <==>
      IndexOf(g, Diff(g1, g2)) >= g.numGvec
      || (IndexOf(g, Diff(g1, g2)) < 0 && !(0 <= IndexOf(g, Neg(Diff(g1, g2))) < g.numGvec))
    ensures r.Failure? ==> r.error == "wrong index of G-G' vector"
  {
    var v := Diff(g1, g2);
    var idx := IndexOf(g, v);
    var (idx', conj) := if idx < 0 then (IndexOf(g, Neg(v)), true) else (idx, false);
    if idx' < 0 || idx' >= g.numGvec then Failure("wrong index of G-G' vector")
    else Success((idx', conj))
  }

  /** When G1 - G2 is in the set, index_g12_safe finds it directly. */
  lemma IndexG12Direct(g: Gvec, g1: Vec, g2: Vec)
    requires Consistent(g) && Member(TablesOf(g), Diff(g1, g2))
    ensures g.box.InXY((Diff(g1, g2).0, Diff(g1, g2).1))
    ensures var r := IndexG12Safe(g, g1, g2);
            r.Success? && !r.value.1 && GvecOf(g, r.value.0) == Diff(g1, g2)
  {
    var v := Diff(g1, g2);
    var i, j :| 0 <= i < |g.cols| && 0 <= j < |g.cols[i].z| && v == (g.cols[i].x, g.cols[i].y, g.cols[i].z[j]);
    assert g.box.InXY(XY(g.cols[i]));
  }

  /** When the column of G1 - G2 is missing (or it is a negative z on the (0, 0) column of a
      reduced set) and G2 - G1 is in the set, index_g12_safe finds G2 - G1 as a conjugate. */
  lemma IndexG12Conjugate(g: Gvec, g1: Vec, g2: Vec)
    requires Consistent(g) && g.box.InXY((Diff(g1, g2).0, Diff(g1, g2).1))
    requires (forall i :: 0 <= i < |g.cols| ==> XY(g.cols[i]) != (Diff(g1, g2).0, Diff(g1, g2).1))
             || (g.reduce && Diff(g1, g2).0 == 0 && Diff(g1, g2).1 == 0 && Diff(g1, g2).2 < 0)
    requires Member(TablesOf(g), Neg(Diff(g1, g2)))
    ensures IndexOf(g, Diff(g1, g2)) == -1 && g.box.InXY((Neg(Diff(g1, g2)).0, Neg(Diff(g1, g2)).1))
    ensures var r := IndexG12Safe(g, g1, g2);
            r.Success? && r.value.1 && GvecOf(g, r.value.0) == Neg(Diff(g1, g2))
  {
    var w := Neg(Diff(g1, g2));
    var i, j :| 0 <= i < |g.cols| && 0 <= j < |g.cols[i].z| && w == (g.cols[i].x, g.cols[i].y, g.cols[i].z[j]);
    assert g.box.InXY(XY(g.cols[i]));
  }

  /** In a reduced set no column is the mirror of a column off (0, 0). */
  lemma MirrorAbsent(g: Gvec, i: int, k: int)
    requires Consistent(g) && g.reduce && 0 <= i < |g.cols| && 0 <= k < |g.cols| && XY(g.cols[i]) != (0, 0)
    ensures XY(g.cols[k]) != Mirror(XY(g.cols[i]))
  {
    if k != i {
      assert MirrorApart(g.cols, k, i);
    }
  }

  /** In a reduced set every vector or its negative is looked up: a non-zero G1 - G2 whose
      negative is in the set has no column of its own (or is a negative z on the (0, 0)
      column), so index_g12_safe returns the negative's index flagged as a conjugate. */
  lemma IndexG12Reduced(g: Gvec, g1: Vec, g2: Vec)
    requires Consistent(g) && g.reduce && g.box.InXY((Diff(g1, g2).0, Diff(g1, g2).1))
    requires Member(TablesOf(g), Neg(Diff(g1, g2))) && Diff(g1, g2) != (0, 0, 0)
    ensures var r := IndexG12Safe(g, g1, g2);
            r.Success? && r.value.1 && GvecOf(g, r.value.0) == Neg(Diff(g1, g2))
  {
    var v := Diff(g1, g2);
    var w := Neg(v);
    var i, j :| 0 <= i < |g.cols| && 0 <= j < |g.cols[i].z| && w == (g.cols[i].x, g.cols[i].y, g.cols[i].z[j]);
    if v.0 == 0 && v.1 == 0 {
      assert XY(g.cols[i]) == (0, 0);
      assert g.cols[i].z[j] >= 0;
      assert v.2 < 0;
    } else {
      forall k | 0 <= k < |g.cols|
        ensures XY(g.cols[k]) != (v.0, v.1)
      {
        MirrorAbsent(g, i, k);
      }
    }
    IndexG12Conjugate(g, g1, g2);
  }

  /** shell: the shell number of vector ig; only a bare set has shells. What the number means
      (ordered and grouped by length) is ShellsByKey, which Init and Assemble establish. */
  function Shell(g: Gvec, ig: int): (s: int)
    requires Consistent(g) && g.bare && 0 <= ig < g.numGvec
    ensures 0 <= s < g.numShells
  {
    g.shell[ig]
  }

  /** Every column of a consistent set is non-empty. */
  lemma ColumnsNonEmpty(g: Gvec)
    requires Consistent(g)
    ensures forall i :: 0 <= i < |g.cols| ==> |g.cols[i].z| > 0
  {
  }

  /** G-vector ig belongs to rank r exactly when its column does. */
  lemma LocalRange(g: Gvec, r: int, ig: int)
    requires Consistent(g) && 0 <= r < g.numRanks && 0 <= ig < g.numGvec
    ensures 0 <= ColumnOfIndex(g.cols, ig) < |g.cols|
    ensures GvecOffset(g, r) <= ig < GvecOffset(g, r) + GvecCount(g, r) <==>
            ZcolOffset(g, r) <= ColumnOfIndex(g.cols, ig) < ZcolOffset(g, r) + ZcolCount(g, r)
  {
    ColumnRange(g.cols, ZcolOffset(g, r), ZcolOffset(g, r) + ZcolCount(g, r), ig);
  }

  /*** init ***/

  /** The (x, y) list of a base set's columns, in its order. */
  function BaseXY(base: Option<Gvec>): (b: Option<seq<(int, int)>>)
    ensures b.Some? <==> base.Some?
    ensures base.Some? ==> (|b.value| == |base.value.cols| &&
            forall i :: 0 <= i < |base.value.cols| ==> b.value[i] == XY(base.value.cols[i]))
  {
    if base.None? then None
    else Some(seq(|base.value.cols|, i requires 0 <= i < |base.value.cols| => XY(base.value.cols[i])))
  }

  /** The base set is a subset of the new one: every vector of every base column is in the
      new box and inside the new cutoff. */
  ghost predicate SubsetOf(base: Gvec, box: Box, inside: Inside)
  {
    forall i, j :: 0 <= i < |base.cols| && 0 <= j < |base.cols[i].z| ==>
      var z := base.cols[i].z[j];
      box.InXY(XY(base.cols[i])) && box.zHi - box.nz + 1 <= z <= box.zHi && inside(base.cols[i].x, base.cols[i].y, z)
  }

  /** What the constructor from a base set takes over from it and demands of it. */
  ghost predicate BaseOk(base: Gvec, box: Box, inside: Inside, reduce: bool, p: nat, rank: nat)
  {
    && Consistent(base) && SubsetOf(base, box, inside)
    && base.reduce == reduce && base.numRanks == p && base.rank == rank
  }

  /** Column q of rank r has the (x, y) of column q of rank r in the base set. */
  ghost predicate SameXYAt(cols: seq<ZColumn>, zcolOffsets: seq<int>, zcolCounts: seq<int>, base: Gvec, r: int, q: int)
    requires 0 <= r < |zcolCounts| == |zcolOffsets| && r < |base.zcolOffsets|
  {
    && q < zcolCounts[r]
    && 0 <= zcolOffsets[r] + q < |cols|
    && 0 <= base.zcolOffsets[r] + q < |base.cols|
    && XY(cols[zcolOffsets[r] + q]) == XY(base.cols[base.zcolOffsets[r] + q])
  }

  /** Rank r's columns begin with the (x, y) of the columns rank r had in the base set, in base
      order. */
  ghost predicate KeepsBaseXY(p: int, cols: seq<ZColumn>, zcolOffsets: seq<int>, zcolCounts: seq<int>, base: Gvec)
    requires |zcolCounts| == |zcolOffsets| == |base.zcolCounts| == |base.zcolOffsets| == p
  {
    forall r, q :: 0 <= r < p && 0 <= q < base.zcolCounts[r] ==> SameXYAt(cols, zcolOffsets, zcolCounts, base, r, q)
  }

  /** Column c has the (x, y) of column b and holds all of b's z. */
  ghost predicate Covers(c: ZColumn, b: ZColumn)
  {
    XY(c) == XY(b) && forall j :: 0 <= j < |b.z| ==> b.z[j] in c.z
  }

  /** Column q of rank r covers column q of rank r in the base set. */
  ghost predicate KeptAt(cols: seq<ZColumn>, zcolOffsets: seq<int>, zcolCounts: seq<int>, base: Gvec, r: int, q: int)
    requires 0 <= r < |zcolCounts| == |zcolOffsets| && r < |base.zcolOffsets|
  {
    && q < zcolCounts[r]
    && 0 <= zcolOffsets[r] + q < |cols|
    && 0 <= base.zcolOffsets[r] + q < |base.cols|
    && Covers(cols[zcolOffsets[r] + q], base.cols[base.zcolOffsets[r] + q])
  }

  /** Rank r's columns begin with columns that cover the ones rank r had in the base set, in
      base order. */
  ghost predicate KeepsBase(p: int, cols: seq<ZColumn>, zcolOffsets: seq<int>, zcolCounts: seq<int>, base: Gvec)
    requires |zcolCounts| == |zcolOffsets| == |base.zcolCounts| == |base.zcolOffsets| == p
  {
    forall r, q :: 0 <= r < p && 0 <= q < base.zcolCounts[r] ==> KeptAt(cols, zcolOffsets, zcolCounts, base, r, q)
  }

  /** The shell keys of the vectors, by global index. */
  function KeysOf(t: Tables, key: Vec -> int): (keys: seq<int>)
    requires Built(t)
    ensures |keys| == |t.fullIndex| && forall ig :: 0 <= ig < |keys| ==> keys[ig] == key(GvecAt(t, ig))
  {
    seq(|t.fullIndex|, ig requires 0 <= ig < |t.fullIndex| => key(GvecAt(t, ig)))
  }

  /** The second pass of find_gvec_shells: equal keys share a shell, smaller keys come in
      smaller shells, each shell records its key, and there is one shell per distinct key. */
  ghost predicate ShellsByKey(g: Gvec, key: Vec -> int)
    requires Consistent(g) && g.bare
  {
    var keys := KeysOf(TablesOf(g), key);
    && (forall a, b :: 0 <= a < g.numGvec && 0 <= b < g.numGvec ==>
          (keys[a] == keys[b] <==> g.shell[a] == g.shell[b]) && (keys[a] < keys[b] <==> g.shell[a] < g.shell[b]))
    && (forall ig :: 0 <= ig < g.numGvec ==> g.shellLen[g.shell[ig]] == keys[ig])
    && g.numShells == |set k | k in keys|
  }

  /** The local vectors of a set, in local order: gvec(offset() + igloc). */
  function LocalVectors(g: Gvec): (vs: seq<Vec>)
    requires Consistent(g)
    ensures |vs| == Count(g)
    ensures forall igloc :: 0 <= igloc < |vs| ==> vs[igloc] == GvecOf(g, Offset(g) + igloc)
  {
    VectorsFrom(TablesOf(g), Offset(g), Count(g))
  }

  /** The n vectors from global index offset on. */
  function VectorsFrom(t: Tables, offset: int, n: int): (vs: seq<Vec>)
    requires Built(t) && 0 <= offset && 0 <= n && offset + n <= |t.fullIndex|
    ensures |vs| == n
    ensures forall k :: 0 <= k < n ==> vs[k] == GvecAt(t, offset + k)
  {
    if n == 0 then [] else VectorsFrom(t, offset, n - 1) + [GvecAt(t, offset + n - 1)]
  }

  /** gvec_base_mapping_: every local vector of the base set is a local vector of this rank,
      at the mapped position. */
  ghost predicate MapsBase(g: Gvec, base: Gvec)
    requires Consistent(g) && Consistent(base)
  {
    MapsVectors(TablesOf(g), Offset(g), Count(g), LocalVectors(base), g.baseMapping)
  }

  /** m maps every vector of vs to a local index below count whose global index (offset
      added) names it in the tables t. */
  ghost predicate MapsVectors(t: Tables, offset: int, count: int, vs: seq<Vec>, m: seq<int>)
    requires Built(t)
  {
    && |m| == |vs|
    && forall k :: 0 <= k < |vs| ==>
         0 <= m[k] < count && 0 <= offset + m[k] < |t.fullIndex| && GvecAt(t, offset + m[k]) == vs[k]
  }

  /** Gvec::init: find the columns, distribute them, build the index tables, check the count,
      the round trip and the first vector, number the shells of a bare set (find_gvec_shells
      returns at once for a G+k set) and map the base set. The reverse
      entry is kept as an unsigned number (the signed entry is IndexByGvecAsWritten); with it
      only the check on the first vector can fire, and it fires exactly when G = 0 is outside
      the cutoff. */
  method Init(box: Box, inside: Inside, reduce: bool, bare: bool, key: Vec -> int, p: nat, rank: nat, base: Option<Gvec>)
    returns (r: Result<Gvec, string>)
    requires box.Valid() && box.nz < ZSpan && ConvexInZ(inside)
    requires rank < p
    requires |Recorded(box, inside, reduce, BaseXY(base)).cols| <= ColumnSpan
    requires base.Some? ==> BaseOk(base.value, box, inside, reduce, p, rank)
    ensures r.Success? ==>
      && Consistent(r.value)
      && r.value.box == box && r.value.reduce == reduce && r.value.bare == bare
      && r.value.numRanks == p && r.value.rank == rank
      && WellFormed(box, inside, reduce, r.value.cols)
      && multiset(r.value.cols) == multiset(Recorded(box, inside, reduce, BaseXY(base)).cols)
      && r.value.numGvec == Recorded(box, inside, reduce, BaseXY(base)).numGvec
      && (bare ==> ShellsByKey(r.value, key))
      && (!bare ==> r.value.shell == [] && r.value.shellLen == [] && r.value.numShells == 0)
      && (base.Some? ==> KeepsBase(p, r.value.cols, r.value.zcolOffsets, r.value.zcolCounts, base.value) && MapsBase(r.value, base.value))
    ensures r.Success? <==> inside(0, 0, 0)
    ensures r.Failure? ==> r.error == "first G-vector is not zero"
  {
    var cols, zcolCounts, zcolOffsets, gvecCounts, gvecOffsets, numGvec := InitColumns(box, inside, reduce, p, base);
    assert |cols| == |Recorded(box, inside, reduce, BaseXY(base)).cols| by {
      assert |multiset(cols)| == |multiset(Recorded(box, inside, reduce, BaseXY(base)).cols)|;
    }
    r := Assemble(box, inside, reduce, bare, key, p, rank, cols, zcolCounts, zcolOffsets, gvecCounts, gvecOffsets, numGvec);
    if r.Success? && base.Some? {
      var g := MapBaseSet(r.value, base.value);
      if bare {
        ShellsKept(r.value, g.baseMapping, key);
      }
      r := Success(g);
    }
  }

  /** The rest of init once the columns are distributed: the index tables with the count and
      round-trip checks, the check that the first vector is G = 0, and the shells of a bare set.
      The set has no base mapping yet. */
  method Assemble(box: Box, inside: Inside, reduce: bool, bare: bool, key: Vec -> int, p: nat, rank: nat,
                  cols: seq<ZColumn>, zcolCounts: seq<int>, zcolOffsets: seq<int>, gvecCounts: seq<int>,
                  gvecOffsets: seq<int>, numGvec: int)
    returns (r: Result<Gvec, string>)
    requires box.Valid() && box.nz < ZSpan && ConvexInZ(inside) && rank < p
    requires WellFormed(box, inside, reduce, cols) && |cols| <= ColumnSpan
    requires numGvec == SumBy(cols, ColumnSize)
    requires DistributedParts(p, cols, zcolCounts, zcolOffsets, gvecCounts, gvecOffsets)
    requires inside(0, 0, 0) ==>
      |cols| > 0 && XY(cols[0]) == (0, 0) && |cols[0].z| > 0 && cols[0].z[0] == 0 && zcolCounts[0] > 0
    ensures r.Success? ==>
      && Consistent(r.value) && r.value.bare == bare
      && (bare ==> ShellsByKey(r.value, key))
      && (!bare ==> r.value.shell == [] && r.value.shellLen == [] && r.value.numShells == 0)
      && r.value.box == box && r.value.reduce == reduce && r.value.numRanks == p && r.value.rank == rank
      && r.value.cols == cols && r.value.numGvec == numGvec
      && r.value.zcolCounts == zcolCounts && r.value.zcolOffsets == zcolOffsets
      && r.value.gvecCounts == gvecCounts && r.value.gvecOffsets == gvecOffsets
    ensures r.Success? <==> inside(0, 0, 0)
    ensures r.Failure? ==> r.error == "first G-vector is not zero"
  {
    var t, ig := IndexTables(box, inside, reduce, cols);
    var fullIndex, byXY := t.fullIndex, t.byXY;
    // every counted vector got a full index
    assert ig == numGvec;
    // the vector with full index 0 has to be the origin
    if ig > 0 {
      FullIndexDecode(t, 0);
    }
    if ig == 0 || GvecByFullIndex(cols, fullIndex[0]) != (0, 0, 0) {
      assert !inside(0, 0, 0) by {
        if inside(0, 0, 0) {
          FirstVectorZero(t);
        }
      }
      return Failure("first G-vector is not zero");
    }
    FirstVectorInside(box, inside, reduce, t);
    var shell, numShells, lens := [], 0, [];
    if bare {
      var keys := KeysOf(t, key);
      shell, numShells, lens := AssignShells(keys);
    }
    var g := Gvec(box, reduce, bare, p, rank, cols, ig, zcolCounts, zcolOffsets, gvecCounts, gvecOffsets,
                  fullIndex, byXY, shell, numShells, lens, []);
    AssembledConsistent(g, inside, key);
    r := Success(g);
  }

  /** A set whose distribution and tables are in place, whose first column starts at G = 0 and
      whose shells were numbered from the keys of its vectors (or, for a G+k set, left empty)
      is consistent. */
  lemma AssembledConsistent(g: Gvec, inside: Inside, key: Vec -> int)
    requires g.rank < g.numRanks && DistributedParts(g.numRanks, g.cols, g.zcolCounts, g.zcolOffsets, g.gvecCounts, g.gvecOffsets)
    requires WellFormed(g.box, inside, g.reduce, g.cols) && Built(TablesOf(g)) && g.numGvec == |g.fullIndex| > 0
    requires |g.cols| > 0 && XY(g.cols[0]) == (0, 0) && |g.cols[0].z| > 0 && g.cols[0].z[0] == 0 && g.zcolCounts[0] > 0
    requires !g.bare ==> g.shell == [] && g.shellLen == [] && g.numShells == 0
    requires g.bare ==> var keys := KeysOf(TablesOf(g), key);
      && |g.shell| == |keys| && |g.shellLen| == g.numShells
      && (forall i :: 0 <= i < |keys| ==> 0 <= g.shell[i] < g.numShells && g.shellLen[g.shell[i]] == keys[i])
      && (forall i, j :: 0 <= i < |keys| && 0 <= j < |keys| ==> (keys[i] < keys[j] <==> g.shell[i] < g.shell[j]))
      && (forall i, j :: 0 <= i < |keys| && 0 <= j < |keys| ==> (keys[i] == keys[j] <==> g.shell[i] == g.shell[j]))
      && g.numShells == |set k | k in keys|
    ensures Consistent(g) && (g.bare ==> ShellsByKey(g, key))
  {
    if g.reduce {
      forall i, j | 0 <= i < |g.cols| && 0 <= j < |g.cols| ensures MirrorApart(g.cols, i, j) {
      }
    }
  }

  /** The index loop of init and its round-trip check: index_by_gvec(gvec(ig)) == ig for every
      ig, which holds for every well-formed column list within the capacity limits. */
  method IndexTables(box: Box, inside: Inside, reduce: bool, cols: seq<ZColumn>) returns (t: Tables, ig: int)
    requires box.Valid() && box.nz < ZSpan && ConvexInZ(inside)
    requires WellFormed(box, inside, reduce, cols) && |cols| <= ColumnSpan
    ensures Built(t) && t.box == box && t.reduce == reduce && t.cols == cols
    ensures ig == |t.fullIndex| == SumBy(cols, ColumnSize) && LookupSafe(t)
    ensures forall k :: 0 <= k < ig ==> IndexByGvec(t, GvecAt(t, k)) == k
  {
    var fullIndex, byXY;
    fullIndex, byXY, ig := BuildIndex(cols);
    t := Tables(box, reduce, cols, fullIndex, byXY);
    WellFormedIndexable(box, inside, reduce, cols);
    BuiltLookupSafe(t);
    forall k | 0 <= k < ig ensures IndexByGvec(t, GvecAt(t, k)) == k {
      IndexRoundTrip(t, k);
    }
  }

  /** The base-mapping step of init on a set that kept the base set's columns: the mapping
      cannot fail, and it is stored without changing anything else. */
  method MapBaseSet(g: Gvec, base: Gvec) returns (g': Gvec)
    requires Consistent(g) && Consistent(base)
    requires base.numRanks == g.numRanks && base.rank == g.rank
    requires KeepsBase(g.numRanks, g.cols, g.zcolOffsets, g.zcolCounts, base)
    ensures Consistent(g') && g' == g.(baseMapping := g'.baseMapping) && MapsBase(g', base)
  {
    var vs := LocalVectors(base);
    BaseStaysLocal(base, g);
    var m := MapBase(g, vs);
    MapBaseMaps(g, vs, m.value);
    MappingStored(g, vs, m.value);
    g' := WithMapping(g, m.value);
  }

  /** find_z_columns and distribute_z_columns, with what init needs from them. */
  method InitColumns(box: Box, inside: Inside, reduce: bool, p: nat, base: Option<Gvec>)
    returns (cols: seq<ZColumn>, zcolCounts: seq<int>, zcolOffsets: seq<int>, gvecCounts: seq<int>,
             gvecOffsets: seq<int>, numGvec: int)
    requires box.Valid() && p >= 1
    requires base.Some? ==> BaseOk(base.value, box, inside, reduce, p, base.value.rank)
    ensures WellFormed(box, inside, reduce, cols)
    ensures multiset(cols) == multiset(Recorded(box, inside, reduce, BaseXY(base)).cols)
    ensures numGvec == Recorded(box, inside, reduce, BaseXY(base)).numGvec == SumBy(cols, ColumnSize)
    ensures DistributedParts(p, cols, zcolCounts, zcolOffsets, gvecCounts, gvecOffsets)
    ensures inside(0, 0, 0) ==>
      |cols| > 0 && XY(cols[0]) == (0, 0) && |cols[0].z| > 0 && cols[0].z[0] == 0 && zcolCounts[0] > 0
    ensures base.Some? ==> KeepsBase(p, cols, zcolOffsets, zcolCounts, base.value)
  {
    var cols0;
    cols0, numGvec := FindColumns(box, inside, reduce, base);
    var baseCounts: Option<seq<int>> := None;
    if base.Some? {
      BaseColumnsKept(p, cols0, base.value);
      baseCounts := Some(base.value.zcolCounts);
    }
    cols, zcolCounts, zcolOffsets, gvecCounts, gvecOffsets := DistributeZColumns(p, cols0, baseCounts);
    WellFormedPermutation(box, inside, reduce, cols0, cols);
    SumByPermutation(cols, cols0, ColumnSize);
    DistributedOf(p, cols0, baseCounts);
    if inside(0, 0, 0) {
      FirstColumnStays(p, cols0, baseCounts);
    }
    if base.Some? {
      KeptColumnsCover(box, inside, reduce, cols, zcolOffsets, zcolCounts, base.value);
    }
  }

  /** find_z_columns, from the base set's column order when there is one, with what init
      needs from it: well-formed columns that start with the base set's (x, y) and, when G = 0
      is inside, with the (0, 0) column. */
  method FindColumns(box: Box, inside: Inside, reduce: bool, base: Option<Gvec>) returns (cols: seq<ZColumn>, numGvec: int)
    requires box.Valid()
    requires base.Some? ==> Consistent(base.value) && SubsetOf(base.value, box, inside) && base.value.reduce == reduce
    ensures WellFormed(box, inside, reduce, cols)
    ensures multiset(cols) == multiset(Recorded(box, inside, reduce, BaseXY(base)).cols)
    ensures numGvec == Recorded(box, inside, reduce, BaseXY(base)).numGvec == SumBy(cols, ColumnSize)
    ensures base.Some? ==>
      |cols| >= |base.value.cols| && forall i :: 0 <= i < |base.value.cols| ==> XY(cols[i]) == XY(base.value.cols[i])
    ensures inside(0, 0, 0) ==>
      && |cols| > 0 && XY(cols[0]) == (0, 0) && |cols[0].z| > 0 && cols[0].z[0] == 0
      && (base.Some? ==> base.value.zcolCounts[0] > 0)
  {
    var baseXY := BaseXY(base);
    if base.Some? {
      BaseFitsFromSubset(base.value, box, inside);
    }
    cols, numGvec := FindZColumns(box, inside, reduce, baseXY);
    assert WellFormed(box, inside, reduce, cols) && numGvec == SumBy(cols, ColumnSize) by {
      var rec := Recorded(box, inside, reduce, baseXY);
      RecordedWellFormed(box, inside, reduce, baseXY);
      WellFormedPermutation(box, inside, reduce, rec.cols, cols);
      SumByPermutation(cols, rec.cols, ColumnSize);
    }
    if inside(0, 0, 0) {
      FirstFoundColumn(box, inside, reduce, cols, base);
    }
  }

  /** The base-mapping loop of init: for every local vector of the base set, its global index
      in the new set made local to this rank; it fails (a fatal error) on the first vector that
      is not a local vector of this rank. */
  method MapBase(g: Gvec, vs: seq<Vec>) returns (r: Result<seq<int>, string>)
    requires Consistent(g)
    requires forall k :: 0 <= k < |vs| ==> g.box.InXY((vs[k].0, vs[k].1))
    ensures r.Success? <==> forall k :: 0 <= k < |vs| ==> 0 <= IndexOf(g, vs[k]) - Offset(g) < Count(g)
    ensures r.Success? ==> |r.value| == |vs| && forall k :: 0 <= k < |vs| ==> r.value[k] == IndexOf(g, vs[k]) - Offset(g)
    ensures r.Failure? ==> r.error == "local G-vector index is not found"
  {
    var m: seq<int> := [];
    for igloc := 0 to |vs|
      invariant |m| == igloc
      invariant forall k :: 0 <= k < igloc ==> m[k] == IndexOf(g, vs[k]) - Offset(g) && 0 <= m[k] < Count(g)
    {
      // the base vector's place in this set, counted from this rank's offset
      var ig := IndexOf(g, vs[igloc]) - Offset(g);
      if 0 <= ig < Count(g) {
        m := m + [ig];
      } else {
        return Failure("local G-vector index is not found");
      }
    }
    return Success(m);
  }

  /** A successful mapping maps every vector to a local index that names it. */
  lemma MapBaseMaps(g: Gvec, vs: seq<Vec>, m: seq<int>)
    requires Consistent(g)
    requires forall k :: 0 <= k < |vs| ==> g.box.InXY((vs[k].0, vs[k].1)) && Member(TablesOf(g), vs[k])
    requires |m| == |vs| && forall k :: 0 <= k < |vs| ==> m[k] == IndexOf(g, vs[k]) - Offset(g) && 0 <= m[k] < Count(g)
    ensures MapsVectors(TablesOf(g), Offset(g), Count(g), vs, m)
  {
  }

  /** A mapping stays a mapping once it is stored in the set. */
  lemma MappingStored(g: Gvec, vs: seq<Vec>, m: seq<int>)
    requires Consistent(g) && MapsVectors(TablesOf(g), Offset(g), Count(g), vs, m)
    ensures var g' := g.(baseMapping := m);
            Consistent(g') && MapsVectors(TablesOf(g'), Offset(g'), Count(g'), vs, m)
  {
    SameLocalVectors(g, m);
  }

  /** Storing a mapping keeps the index tables and the local range. */
  lemma SameLocalVectors(g: Gvec, m: seq<int>)
    requires Consistent(g)
    ensures Consistent(g.(baseMapping := m))
    ensures Count(g.(baseMapping := m)) == Count(g) && Offset(g.(baseMapping := m)) == Offset(g)
    ensures TablesOf(g.(baseMapping := m)) == TablesOf(g)
  {
    var g' := WithMapping(g, m);
  }

  /** Storing a mapping keeps the shells. */
  lemma ShellsKept(g: Gvec, m: seq<int>, key: Vec -> int)
    requires Consistent(g) && g.bare && ShellsByKey(g, key)
    ensures Consistent(g.(baseMapping := m)) && ShellsByKey(g.(baseMapping := m), key)
  {
    SameLocalVectors(g, m);
  }

  /** Storing the base mapping changes nothing else. */
  function WithMapping(g: Gvec, m: seq<int>): (g': Gvec)
    requires Consistent(g)
    ensures Consistent(g') && g'.baseMapping == m && TablesOf(g') == TablesOf(g)
    ensures g' == g.(baseMapping := m)
  {
    g.(baseMapping := m)
  }

  /*** Lemmas behind init ***/

  /** A well-formed column list within the capacity limits can be indexed. */
  lemma WellFormedIndexable(box: Box, inside: Inside, reduce: bool, cols: seq<ZColumn>)
    requires box.Valid() && box.nz < ZSpan && ConvexInZ(inside)
    requires WellFormed(box, inside, reduce, cols) && |cols| <= ColumnSpan
    ensures Indexable(box, reduce, cols)
  {
    forall i, j | 0 <= i < |cols| && 0 <= j < |cols| ensures XYDiffer(cols, i, j) {
    }
    forall i | 0 <= i < |cols|
      ensures |cols[i].z| < ZSpan && OffsetRule(cols[i].z)
      ensures reduce && XY(cols[i]) == (0, 0) ==> forall j :: 0 <= j < |cols[i].z| ==> cols[i].z[j] >= 0
    {
      assert ColumnOk(box, inside, reduce, cols[i]);
      ColumnMembers(box, inside, reduce, cols[i].x, cols[i].y);
      ColumnOffsetRule(box, inside, reduce, cols[i].x, cols[i].y);
      if reduce && XY(cols[i]) == (0, 0) {
        forall j | 0 <= j < |cols[i].z| ensures cols[i].z[j] >= 0 {
          assert cols[i].z[j] in ColumnZ(box, inside, reduce, 0, 0);
        }
      }
    }
  }

  /** Every vector of a base set that is a subset of the new one lies in the new column of its
      (x, y). */
  lemma BaseVectorInNewColumn(base: Gvec, box: Box, inside: Inside, i: int, j: int)
    requires Built(TablesOf(base)) && box.Valid() && SubsetOf(base, box, inside)
    requires 0 <= i < |base.cols| && 0 <= j < |base.cols[i].z|
    ensures box.InXY(XY(base.cols[i]))
    ensures base.cols[i].z[j] in ColumnZ(box, inside, base.reduce, base.cols[i].x, base.cols[i].y)
  {
    var z := base.cols[i].z[j];
    assert box.InXY(XY(base.cols[i])) && box.zHi - box.nz + 1 <= z <= box.zHi && inside(base.cols[i].x, base.cols[i].y, z);
    assert base.reduce && XY(base.cols[i]) == (0, 0) ==> z >= 0;
    ColumnMembers(box, inside, base.reduce, base.cols[i].x, base.cols[i].y);
  }

  /** A base set that is a subset of the new one has its columns visited first and kept. */
  lemma BaseFitsFromSubset(base: Gvec, box: Box, inside: Inside)
    requires Consistent(base) && box.Valid() && SubsetOf(base, box, inside)
    ensures BaseFits(box, inside, base.reduce, BaseXY(Some(base)).value)
  {
    var b := BaseXY(Some(base)).value;
    forall i | 0 <= i < |b|
      ensures box.InXY(b[i]) && |ColumnZ(box, inside, base.reduce, b[i].0, b[i].1)| > 0
    {
      BaseVectorInNewColumn(base, box, inside, i, 0);
    }
    forall i, j | 0 <= i < |b| && 0 <= j < |b| && i != j
      ensures b[i] != b[j] && (base.reduce ==> b[i] != Mirror(b[j]))
    {
      assert XYDiffer(base.cols, i, j);
      if base.reduce {
        assert MirrorApart(base.cols, i, j);
      }
    }
  }

  /** The columns and counts distribute_z_columns produces satisfy the distribution invariant. */
  lemma DistributedOf(p: nat, cols0: seq<ZColumn>, bc: Option<seq<int>>)
    requires p >= 1 && (bc.Some? ==> BaseCountsFit(p, cols0, bc.value))
    ensures var st := Distribute(p, cols0, bc);
      DistributedParts(p, Flatten(st.buckets), Lengths(st.buckets), Offsets(Lengths(st.buckets)),
                       st.gvecCounts, Offsets(st.gvecCounts))
  {
    var st := Distribute(p, cols0, bc);
    var cols, ls := Flatten(st.buckets), Lengths(st.buckets);
    DistributeAccounts(p, cols0, bc);
    FlattenLength(st.buckets);
    forall r | 0 <= r <= p
      ensures 0 <= PrefixSum(ls, r) <= |cols|
      ensures ColumnStart(cols, PrefixSum(ls, r)) == PrefixSum(st.gvecCounts, r)
    {
      FlattenPrefixSum(st.buckets, ColumnSize, st.gvecCounts, r);
      PrefixSumIsSum(ls, r);
      PrefixSumIsSum(st.gvecCounts, r);
      ColumnStartSumBy(cols, PrefixSum(ls, r));
    }
    forall r | 0 <= r < p
      ensures Offsets(ls)[r] == PrefixSum(ls, r) && Offsets(st.gvecCounts)[r] == PrefixSum(st.gvecCounts, r)
    {
      PrefixSumIsSum(ls, r);
      PrefixSumIsSum(st.gvecCounts, r);
    }
    PrefixSumTotal(ls);
  }

  /** Base columns keep their rank and their order within it. */
  lemma BaseColumnsKept(p: nat, cols0: seq<ZColumn>, base: Gvec)
    requires p >= 1 && |base.zcolCounts| == |base.zcolOffsets| == p && PrefixSum(base.zcolCounts, p) == |base.cols|
    requires forall r :: 0 <= r < p ==> base.zcolCounts[r] >= 0
    requires forall r {:trigger base.zcolOffsets[r]} :: 0 <= r < p ==> base.zcolOffsets[r] == PrefixSum(base.zcolCounts, r)
    requires |cols0| >= |base.cols| && forall i :: 0 <= i < |base.cols| ==> XY(cols0[i]) == XY(base.cols[i])
    ensures BaseCountsFit(p, cols0, base.zcolCounts)
    ensures var bs := Distribute(p, cols0, Some(base.zcolCounts)).buckets;
            |bs| == p && KeepsBaseXY(p, Flatten(bs), Offsets(Lengths(bs)), Lengths(bs), base)
  {
    var bc := base.zcolCounts;
    PrefixSumTotal(bc);
    assert BaseCountsFit(p, cols0, bc);
    var bs := Distribute(p, cols0, Some(bc)).buckets;
    forall r, q | 0 <= r < p && 0 <= q < bc[r]
      ensures SameXYAt(Flatten(bs), Offsets(Lengths(bs)), Lengths(bs), base, r, q)
    {
      BaseColumnKept(p, cols0, base.cols, bc, r, q);
      assert base.zcolOffsets[r] == PrefixSum(bc, r);
    }
  }

  /** Column q of rank r's base slice keeps its place among rank r's columns. */
  lemma BaseColumnKept(p: nat, cols0: seq<ZColumn>, baseCols: seq<ZColumn>, bc: seq<int>, r: int, q: int)
    requires p >= 1 && BaseCountsFit(p, cols0, bc) && Sum(bc) == |baseCols|
    requires |cols0| >= |baseCols| && forall i :: 0 <= i < |baseCols| ==> XY(cols0[i]) == XY(baseCols[i])
    requires 0 <= r < p && 0 <= q < bc[r]
    ensures var bs := Distribute(p, cols0, Some(bc)).buckets;
      && |bs| == p
      && q < Lengths(bs)[r]
      && 0 <= Offsets(Lengths(bs))[r] + q < |Flatten(bs)|
      && 0 <= PrefixSum(bc, r) + q < |baseCols|
      && XY(Flatten(bs)[Offsets(Lengths(bs))[r] + q]) == XY(baseCols[PrefixSum(bc, r) + q])
  {
    var bs := Distribute(p, cols0, Some(bc)).buckets;
    BaseColumnsStay(p, cols0, bc, r);
    BaseSliceAt(cols0, bc, r, q);
    assert bs[r][q] == cols0[Offsets(bc)[r] + q] by {
      assert bs[r][q] == bs[r][..bc[r]][q];
    }
    FlattenIndex(bs, r, q);
    assert Offsets(bc)[r] == PrefixSum(bc, r) && PrefixSum(bc, r) + q < |baseCols| by {
      PrefixSumIsSum(bc, r);
      PrefixSumGrows(bc, r + 1, p);
      PrefixSumTotal(bc);
    }
  }

  /** In a well-formed new set, the columns that kept a base column's (x, y) hold all of its
      vectors. */
  lemma KeptColumnsCover(box: Box, inside: Inside, reduce: bool, cols: seq<ZColumn>, zcolOffsets: seq<int>,
                         zcolCounts: seq<int>, base: Gvec)
    requires box.Valid() && WellFormed(box, inside, reduce, cols)
    requires Distributed(base) && Built(TablesOf(base)) && SubsetOf(base, box, inside) && base.reduce == reduce
    requires |zcolCounts| == |zcolOffsets| == base.numRanks
    requires KeepsBaseXY(base.numRanks, cols, zcolOffsets, zcolCounts, base)
    ensures KeepsBase(base.numRanks, cols, zcolOffsets, zcolCounts, base)
  {
    forall r, q | 0 <= r < base.numRanks && 0 <= q < base.zcolCounts[r]
      ensures KeptAt(cols, zcolOffsets, zcolCounts, base, r, q)
    {
      assert SameXYAt(cols, zcolOffsets, zcolCounts, base, r, q);
      var iN := zcolOffsets[r] + q;
      var ib := base.zcolOffsets[r] + q;
      forall j | 0 <= j < |base.cols[ib].z| ensures base.cols[ib].z[j] in cols[iN].z {
        BaseVectorInNewColumn(base, box, inside, ib, j);
        ColumnHolds(box, inside, reduce, cols, iN, base.cols[ib].z[j]);
      }
    }
  }

  /** The first column found stays the first column after distribution: rank 0 receives it
      (the first greedy pick, or its base slice when rank 0 of the base set holds columns). */
  lemma FirstColumnStays(p: nat, cols0: seq<ZColumn>, bc: Option<seq<int>>)
    requires p >= 1 && |cols0| > 0
    requires bc.Some? ==> BaseCountsFit(p, cols0, bc.value) && bc.value[0] > 0
    ensures var bs := Distribute(p, cols0, bc).buckets;
            |bs| == p && |bs[0]| > 0 && |Flatten(bs)| > 0 && Flatten(bs)[0] == cols0[0]
  {
    var bs := Distribute(p, cols0, bc).buckets;
    if bc.None? {
      FirstColumnToRankZero(p, cols0);
    } else {
      BaseColumnsStay(p, cols0, bc.value, 0);
      BaseSliceAt(cols0, bc.value, 0, 0);
      OffsetsStep(bc.value, 0);
      assert bs[0][0] == bs[0][..bc.value[0]][0];
    }
    FlattenIndex(bs, 0, 0);
    assert Lengths(bs)[..0] == [];
  }

  /** The (0, 0) column starts at z = 0 when G = 0 is inside the cutoff. */
  lemma ZeroColumnStart(box: Box, inside: Inside, reduce: bool, c: ZColumn)
    requires box.Valid() && inside(0, 0, 0) && ColumnOk(box, inside, reduce, c) && XY(c) == (0, 0)
    ensures c.z[0] == 0
  {
    FilterRangeFirst(inside, 0, 0, 0, box.zHi);
  }

  /** The first column find_z_columns returns is the (0, 0) column when G = 0 is inside the
      cutoff: without a base set it is swapped to the front, with one it is the base set's
      first column. */
  lemma FirstFoundColumn(box: Box, inside: Inside, reduce: bool, cols0: seq<ZColumn>, base: Option<Gvec>)
    requires box.Valid() && inside(0, 0, 0)
    requires WellFormed(box, inside, reduce, cols0)
    requires multiset(cols0) == multiset(Recorded(box, inside, reduce, BaseXY(base)).cols)
    requires base.None? && (exists i :: 0 <= i < |cols0| && XY(cols0[i]) == (0, 0)) ==> XY(cols0[0]) == (0, 0)
    requires base.Some? ==> Consistent(base.value)
    requires base.Some? ==> (|cols0| >= |base.value.cols| &&
             forall i :: 0 <= i < |base.value.cols| ==> XY(cols0[i]) == BaseXY(base).value[i])
    ensures |cols0| > 0 && XY(cols0[0]) == (0, 0) && |cols0[0].z| > 0 && cols0[0].z[0] == 0
    ensures base.Some? ==> base.value.zcolCounts[0] > 0
  {
    if base.None? {
      ZeroColumnFound(box, inside, reduce, cols0);
    }
    assert ColumnOk(box, inside, reduce, cols0[0]);
    ZeroColumnStart(box, inside, reduce, cols0[0]);
  }

  /** Without a base set the (0, 0) column is recorded when G = 0 is inside the cutoff. */
  lemma ZeroColumnFound(box: Box, inside: Inside, reduce: bool, cols0: seq<ZColumn>)
    requires box.Valid() && inside(0, 0, 0)
    requires multiset(cols0) == multiset(Recorded(box, inside, reduce, None).cols)
    ensures exists i :: 0 <= i < |cols0| && XY(cols0[i]) == (0, 0)
  {
    ColumnMembers(box, inside, reduce, 0, 0);
    assert 0 in ColumnZ(box, inside, reduce, 0, 0);
    RecordedCovers(box, inside, reduce, None, (0, 0));
    var rec := Recorded(box, inside, reduce, None).cols;
    var i :| 0 <= i < |rec| && XY(rec[i]) == (0, 0);
    assert rec[i] in multiset(cols0);
  }

  /** A first column (0, 0) starting at z = 0 makes the first vector zero. */
  lemma FirstVectorZero(t: Tables)
    requires Built(t) && |t.cols| > 0 && XY(t.cols[0]) == (0, 0) && |t.cols[0].z| > 0 && t.cols[0].z[0] == 0
    ensures |t.fullIndex| > 0
    ensures 0 <= FullColumn(t.fullIndex[0]) < |t.cols| && 0 <= FullPosition(t.fullIndex[0]) < |t.cols[FullColumn(t.fullIndex[0])].z|
    ensures GvecByFullIndex(t.cols, t.fullIndex[0]) == (0, 0, 0)
  {
    FullIndexAt(t.cols, 0, 0);
    FullIndexRoundTrip(0, 0);
  }

  /** When the first vector is zero, G = 0 is inside the cutoff. */
  lemma FirstVectorInside(box: Box, inside: Inside, reduce: bool, t: Tables)
    requires box.Valid() && Built(t) && WellFormed(box, inside, reduce, t.cols)
    requires |t.fullIndex| > 0
    requires 0 <= FullColumn(t.fullIndex[0]) < |t.cols| && 0 <= FullPosition(t.fullIndex[0]) < |t.cols[FullColumn(t.fullIndex[0])].z|
    requires GvecByFullIndex(t.cols, t.fullIndex[0]) == (0, 0, 0)
    ensures inside(0, 0, 0)
    ensures GvecAt(t, 0) == (0, 0, 0)
  {
    var i := FullColumn(t.fullIndex[0]);
    assert ColumnOk(box, inside, reduce, t.cols[i]);
    ColumnMembers(box, inside, reduce, 0, 0);
    assert t.cols[i].z[FullPosition(t.fullIndex[0])] == 0;
  }

  /** Vector j of a column of rank r is one of rank r's vectors. */
  lemma ColumnVectorLocal(g: Gvec, r: int, i: int, j: int)
    requires Consistent(g) && 0 <= r < g.numRanks
    requires ZcolOffset(g, r) <= i < ZcolOffset(g, r) + ZcolCount(g, r) && 0 <= j < |g.cols[i].z|
    ensures var v := (g.cols[i].x, g.cols[i].y, g.cols[i].z[j]);
            g.box.InXY((v.0, v.1)) && Member(TablesOf(g), v) &&
            GvecOffset(g, r) <= IndexOf(g, v) < GvecOffset(g, r) + GvecCount(g, r)
  {
    var t := TablesOf(g);
    ColumnEntryIndex(t, i, j);
    var k := ColumnStart(g.cols, i) + j;
    ColumnRange(g.cols, i, i + 1, k);
    LocalRange(g, r, k);
  }

  /** v lies in one of rank r's columns. */
  ghost predicate InRank(g: Gvec, r: int, v: Vec)
    requires Distributed(g) && 0 <= r < g.numRanks
  {
    exists i :: g.zcolOffsets[r] <= i < g.zcolOffsets[r] + g.zcolCounts[r] && 0 <= i < |g.cols| &&
      XY(g.cols[i]) == (v.0, v.1) && v.2 in g.cols[i].z
  }

  /** A local vector of a set lies in one of its rank's columns. */
  lemma LocalInRank(g: Gvec, igloc: int)
    requires Consistent(g) && 0 <= igloc < Count(g)
    ensures InRank(g, g.rank, GvecOf(g, Offset(g) + igloc))
  {
    var ig := Offset(g) + igloc;
    LocalRange(g, g.rank, ig);
    var i := ColumnOfIndex(g.cols, ig);
    assert GvecOf(g, ig) == GvecAt(TablesOf(g), ig);
    assert g.cols[i].z[ig - ColumnStart(g.cols, i)] in g.cols[i].z;
  }

  /** A vector of one of this rank's columns is one of this rank's local vectors. */
  lemma RankVectorLocal(g: Gvec, v: Vec)
    requires Consistent(g) && InRank(g, g.rank, v)
    ensures g.box.InXY((v.0, v.1)) && Member(TablesOf(g), v) && 0 <= IndexOf(g, v) - Offset(g) < Count(g)
  {
    var i :| g.zcolOffsets[g.rank] <= i < g.zcolOffsets[g.rank] + g.zcolCounts[g.rank] && 0 <= i < |g.cols| &&
      XY(g.cols[i]) == (v.0, v.1) && v.2 in g.cols[i].z;
    var j :| 0 <= j < |g.cols[i].z| && g.cols[i].z[j] == v.2;
    ColumnVectorLocal(g, g.rank, i, j);
  }

  /** A vector of one of the base set's columns of rank r lies in one of the new set's columns of
      rank r, the column that covers it. */
  lemma CoveredInRank(base: Gvec, g: Gvec, r: int, v: Vec)
    requires Distributed(base) && Distributed(g) && base.numRanks == g.numRanks && 0 <= r < g.numRanks
    requires KeepsBase(g.numRanks, g.cols, g.zcolOffsets, g.zcolCounts, base)
    requires InRank(base, r, v)
    ensures InRank(g, r, v)
  {
    var i :| base.zcolOffsets[r] <= i < base.zcolOffsets[r] + base.zcolCounts[r] && 0 <= i < |base.cols| &&
      XY(base.cols[i]) == (v.0, v.1) && v.2 in base.cols[i].z;
    var q := i - base.zcolOffsets[r];
    assert KeptAt(g.cols, g.zcolOffsets, g.zcolCounts, base, r, q);
    var iN := g.zcolOffsets[r] + q;
    assert Covers(g.cols[iN], base.cols[i]);
    var j :| 0 <= j < |base.cols[i].z| && base.cols[i].z[j] == v.2;
    assert XY(g.cols[iN]) == (v.0, v.1) && v.2 in g.cols[iN].z;
  }

  /** A well-formed column holds every z of its (x, y) that passes the cutoff. */
  lemma ColumnHolds(box: Box, inside: Inside, reduce: bool, cols: seq<ZColumn>, i: int, z: int)
    requires WellFormed(box, inside, reduce, cols) && 0 <= i < |cols|
    requires z in ColumnZ(box, inside, reduce, cols[i].x, cols[i].y)
    ensures z in cols[i].z
  {
    assert ColumnOk(box, inside, reduce, cols[i]);
  }

  /** Every local vector of a base set that is a subset of the new one is among this rank's
      local vectors of the new set: base columns keep their rank, and a column's vectors belong
      to the rank of the column. */
  lemma BaseStaysLocal(base: Gvec, g: Gvec)
    requires Consistent(base) && Consistent(g)
    requires base.numRanks == g.numRanks && base.rank == g.rank
    requires KeepsBase(g.numRanks, g.cols, g.zcolOffsets, g.zcolCounts, base)
    ensures var vs := LocalVectors(base); forall k :: 0 <= k < |vs| ==>
      g.box.InXY((vs[k].0, vs[k].1)) && Member(TablesOf(g), vs[k]) && 0 <= IndexOf(g, vs[k]) - Offset(g) < Count(g)
  {
    var vs := LocalVectors(base);
    forall k | 0 <= k < |vs|
      ensures g.box.InXY((vs[k].0, vs[k].1)) && Member(TablesOf(g), vs[k]) && 0 <= IndexOf(g, vs[k]) - Offset(g) < Count(g)
    {
      LocalInRank(base, k);
      CoveredInRank(base, g, g.rank, vs[k]);
      RankVectorLocal(g, vs[k]);
    }
  }
}
