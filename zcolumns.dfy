/** Z-columns of G-vectors inside the cutoff sphere (Gvec::find_z_columns in src/SDDK/gvec.hpp).
    A z-column is the list of z-coordinates of the G-vectors that share (x, y). */
module ZColumns {
  import opened Seqs
  import opened Wrappers

  /** The cutoff test `|M (x, y, z) + k| <= Gmax`, left abstract. */
  type Inside = (int, int, int) -> bool

  /** The bounding FFT box: x in [xLo, xHi], y in [yLo, yHi], and nz z-coordinates. The FFT
      coordinate iz holds frequency iz while iz <= zHi and iz - nz after that, so the box
      stores positive frequencies ascending and then negative ones up to -1. */
  datatype Box = Box(xLo: int, xHi: int, yLo: int, yHi: int, zHi: int, nz: int)
  {
    predicate Valid()
    {
      xLo <= 0 <= xHi && yLo <= 0 <= yHi && 0 <= zHi < nz
    }

    predicate InXY(p: (int, int))
    {
      xLo <= p.0 <= xHi && yLo <= p.1 <= yHi
    }

    /** FFT3D_grid::freq_by_coord<2>. */
    function FreqByCoord(iz: int): int
    {
      if iz <= zHi then iz else iz - nz
    }
  }

  datatype ZColumn = ZColumn(x: int, y: int, z: seq<int>)

  function XY(c: ZColumn): (int, int)
  {
    (c.x, c.y)
  }

  function ColumnSize(c: ZColumn): int
  {
    |c.z|
  }

  function Mirror(p: (int, int)): (int, int)
  {
    (-p.0, -p.1)
  }

  /** Along every line of fixed (x, y) the vectors inside the cutoff form an interval of z
      (true of a sphere); the reverse lookup of the index builder depends on it. */
  ghost predicate ConvexInZ(inside: Inside)
  {
    forall x, y, k1, k, k2 :: k1 <= k <= k2 && inside(x, y, k1) && inside(x, y, k2) ==> inside(x, y, k)
  }

  /** The frequencies k in [a, b], ascending, with inside(x, y, k). */
  function FilterRange(inside: Inside, x: int, y: int, a: int, b: int): seq<int>
    decreases b - a
  {
    if b < a then [] else FilterRange(inside, x, y, a, b - 1) + (if inside(x, y, b) then [b] else [])
  }

  /** The z-list of column (x, y), in FFT storage order: the scan of add_new_column over
      coordinates iz in [0, zmax], where the (0, 0) column of a reduced set stops at zHi. */
  function ColumnZ(box: Box, inside: Inside, reduce: bool, x: int, y: int): seq<int>
  {
    if reduce && x == 0 && y == 0 then FilterRange(inside, x, y, 0, box.zHi)
    else FilterRange(inside, x, y, 0, box.zHi) + FilterRange(inside, x, y, box.zHi - box.nz + 1, -1)
  }

  /** The offset of z inside a column, as index_by_gvec computes it from the column's first
      z-coordinate and its size. */
  function ZOffset(z: seq<int>, k: int): int
    requires |z| > 0
  {
    var z0 := k - z[0];
    if z0 >= 0 then z0 else z0 + |z|
  }

  /** s is a run of consecutive integers. */
  ghost predicate IsRun(s: seq<int>)
  {
    forall j :: 0 <= j < |s| ==> s[j] == s[0] + j
  }

  lemma {:induction false} FilterRangeMembers(inside: Inside, x: int, y: int, a: int, b: int)
    ensures forall k :: k in FilterRange(inside, x, y, a, b) <==> a <= k <= b && inside(x, y, k)
    ensures |FilterRange(inside, x, y, a, b)| <= if b < a then 0 else b - a + 1
    decreases b - a
  {
    if b >= a {
      FilterRangeMembers(inside, x, y, a, b - 1);
    }
  }

  /** A scan that starts at a frequency inside the cutoff keeps it first. */
  lemma {:induction false} FilterRangeFirst(inside: Inside, x: int, y: int, a: int, b: int)
    requires a <= b && inside(x, y, a)
    ensures |FilterRange(inside, x, y, a, b)| > 0 && FilterRange(inside, x, y, a, b)[0] == a
    decreases b - a
  {
    if b > a {
      FilterRangeFirst(inside, x, y, a, b - 1);
    }
  }

  /** With a convex cutoff the selected frequencies are consecutive. */
  lemma {:induction false} FilterRangeIsRun(inside: Inside, x: int, y: int, a: int, b: int)
    requires ConvexInZ(inside)
    ensures IsRun(FilterRange(inside, x, y, a, b))
    decreases b - a
  {
    if b >= a {
      var r := FilterRange(inside, x, y, a, b - 1);
      FilterRangeIsRun(inside, x, y, a, b - 1);
      FilterRangeMembers(inside, x, y, a, b - 1);
      if inside(x, y, b) && |r| > 0 {
        var k := r[0];
        assert inside(x, y, k) && a <= k <= b - 1;
        assert inside(x, y, b - 1);
        assert b - 1 in r;
        var t :| 0 <= t < |r| && r[t] == b - 1;
        assert r[|r| - 1] == b - 1;
      }
    }
  }

  /** The offset formula of index_by_gvec recovers the position of every entry of a column:
      the three layouts (all positive, all negative, positive then negative) all work. */
  ghost predicate OffsetRule(z: seq<int>)
  {
    forall j :: 0 <= j < |z| ==> ZOffset(z, z[j]) == j
  }

  lemma RunOffsetRule(z: seq<int>)
    requires IsRun(z)
    ensures OffsetRule(z)
  {
  }

  /** A run of non-negative frequencies from 0 followed by a run of negative ones ending at -1. */
  lemma TwoRunsOffsetRule(pos: seq<int>, neg: seq<int>)
    requires IsRun(pos) && IsRun(neg) && |pos| > 0 && |neg| > 0
    requires pos[0] == 0 && neg[|neg| - 1] == -1
    ensures OffsetRule(pos + neg)
  {
    var z := pos + neg;
    forall j | 0 <= j < |z| ensures ZOffset(z, z[j]) == j {
      if j >= |pos| {
        assert z[j] == neg[j - |pos|];
      }
    }
  }

  /** When the cutoff selects both non-negative and negative frequencies of a line, it selects
      0 and -1, so the non-negative run starts at 0 and the negative run ends at -1. */
  lemma RunsMeetAtZero(inside: Inside, x: int, y: int, a: int, b: int)
    requires ConvexInZ(inside) && a <= -1 && 0 <= b
    requires |FilterRange(inside, x, y, 0, b)| > 0 && |FilterRange(inside, x, y, a, -1)| > 0
    ensures FilterRange(inside, x, y, 0, b)[0] == 0
    ensures var neg := FilterRange(inside, x, y, a, -1); neg[|neg| - 1] == -1
  {
    var pos := FilterRange(inside, x, y, 0, b);
    var neg := FilterRange(inside, x, y, a, -1);
    FilterRangeIsRun(inside, x, y, 0, b);
    FilterRangeIsRun(inside, x, y, a, -1);
    FilterRangeMembers(inside, x, y, 0, b);
    FilterRangeMembers(inside, x, y, a, -1);
    assert pos[0] in pos && neg[0] in neg;
    assert inside(x, y, -1) && inside(x, y, 0);
    assert -1 in neg && 0 in pos;
  }

  lemma ColumnOffsetRule(box: Box, inside: Inside, reduce: bool, x: int, y: int)
    requires box.Valid() && ConvexInZ(inside)
    ensures OffsetRule(ColumnZ(box, inside, reduce, x, y))
  {
    var pos := FilterRange(inside, x, y, 0, box.zHi);
    var neg := FilterRange(inside, x, y, box.zHi - box.nz + 1, -1);
    FilterRangeIsRun(inside, x, y, 0, box.zHi);
    FilterRangeIsRun(inside, x, y, box.zHi - box.nz + 1, -1);
    var z := ColumnZ(box, inside, reduce, x, y);
    if reduce && x == 0 && y == 0 {
      RunOffsetRule(pos);
    } else if |pos| == 0 {
      assert z == neg;
      RunOffsetRule(neg);
    } else if |neg| == 0 {
      assert z == pos;
      RunOffsetRule(pos);
    } else {
      RunsMeetAtZero(inside, x, y, box.zHi - box.nz + 1, box.zHi);
      TwoRunsOffsetRule(pos, neg);
    }
  }

  /** Every frequency of a column lies in the box and inside the cutoff, and every in-box
      frequency inside the cutoff is in its column (for the (0, 0) column of a reduced set,
      every non-negative one). */
  lemma ColumnMembers(box: Box, inside: Inside, reduce: bool, x: int, y: int)
    requires box.Valid()
    ensures forall k :: k in ColumnZ(box, inside, reduce, x, y) <==>
      inside(x, y, k) && box.zHi - box.nz + 1 <= k <= box.zHi && (reduce && x == 0 && y == 0 ==> k >= 0)
    ensures |ColumnZ(box, inside, reduce, x, y)| <= box.nz
  {
    FilterRangeMembers(inside, x, y, 0, box.zHi);
    FilterRangeMembers(inside, x, y, box.zHi - box.nz + 1, -1);
  }

  /** The columns inside the cutoff (in the order they are visited) form a set in which
      no (x, y) appears twice, every column has the z-list of its (x, y), and, when the set is
      reduced by inversion symmetry, no column is the mirror image of another. */
  ghost predicate WellFormed(box: Box, inside: Inside, reduce: bool, cols: seq<ZColumn>)
  {
    && (forall i :: 0 <= i < |cols| ==> ColumnOk(box, inside, reduce, cols[i]))
    && (forall i, j :: 0 <= i < |cols| && 0 <= j < |cols| && i != j ==> XY(cols[i]) != XY(cols[j]))
    && (reduce ==> forall i, j :: 0 <= i < |cols| && 0 <= j < |cols| && i != j ==> XY(cols[i]) != Mirror(XY(cols[j])))
  }

  ghost predicate ColumnOk(box: Box, inside: Inside, reduce: bool, c: ZColumn)
  {
    box.InXY(XY(c)) && c.z == ColumnZ(box, inside, reduce, c.x, c.y) && |c.z| > 0
  }

  /** Reordering a well-formed column list keeps it well-formed. */
  lemma WellFormedPermutation(box: Box, inside: Inside, reduce: bool, a: seq<ZColumn>, b: seq<ZColumn>)
    requires WellFormed(box, inside, reduce, a)
    requires multiset(a) == multiset(b)
    ensures WellFormed(box, inside, reduce, b)
  {
    assert NoDuplicates(a) by {
      forall i, j | 0 <= i < j < |a| ensures a[i] != a[j] {
        assert XY(a[i]) != XY(a[j]);
      }
    }
    PermutationNoDuplicates(a, b);
    forall i | 0 <= i < |b| ensures ColumnOk(box, inside, reduce, b[i]) && b[i] in a {
      assert b[i] in multiset(a);
    }
    forall i, j | 0 <= i < |b| && 0 <= j < |b| && i != j
      ensures XY(b[i]) != XY(b[j])
      ensures reduce ==> XY(b[i]) != Mirror(XY(b[j]))
    {
      assert b[i] != b[j];
      var p :| 0 <= p < |a| && a[p] == b[i];
      var q :| 0 <= q < |a| && a[q] == b[j];
      assert p != q;
    }
  }

  /** What find_z_columns accumulates: the column list, the non_zero_columns marks and num_gvec_. */
  datatype ScanState = ScanState(cols: seq<ZColumn>, marked: set<(int, int)>, numGvec: int)

  /** The add_new_column lambda: a non-empty, unmarked column is appended and marked, and in a
      reduced set its in-box mirror is marked too. */
  function AddNewColumn(box: Box, inside: Inside, reduce: bool, st: ScanState, p: (int, int)): ScanState
  {
    var zcol := ColumnZ(box, inside, reduce, p.0, p.1);
    if |zcol| > 0 && p !in st.marked then
      ScanState(st.cols + [ZColumn(p.0, p.1, zcol)],
                st.marked + {p} + (if reduce && box.InXY(Mirror(p)) then {Mirror(p)} else {}),
                st.numGvec + |zcol|)
    else st
  }

  /** The state after visiting the (x, y) pairs of `order` one after another. */
  function ScanAll(box: Box, inside: Inside, reduce: bool, order: seq<(int, int)>): ScanState
    decreases |order|
  {
    if |order| == 0 then ScanState([], {}, 0)
    else AddNewColumn(box, inside, reduce, ScanAll(box, inside, reduce, order[..|order| - 1]), order[|order| - 1])
  }

  /** The marks add_new_column sets for a new column at p. */
  function MarksOf(box: Box, reduce: bool, p: (int, int)): set<(int, int)>
  {
    {p} + (if reduce && box.InXY(Mirror(p)) then {Mirror(p)} else {})
  }

  /** The marks of all recorded columns. */
  function MarkedFor(box: Box, reduce: bool, cols: seq<ZColumn>): set<(int, int)>
    decreases |cols|
  {
    if |cols| == 0 then {} else MarkedFor(box, reduce, cols[..|cols| - 1]) + MarksOf(box, reduce, XY(cols[|cols| - 1]))
  }

  lemma {:induction false} MarkedForMembers(box: Box, reduce: bool, cols: seq<ZColumn>, q: (int, int))
    ensures q in MarkedFor(box, reduce, cols) <==>
      exists i :: 0 <= i < |cols| && q in MarksOf(box, reduce, XY(cols[i]))
    decreases |cols|
  {
    if |cols| > 0 {
      var n := |cols| - 1;
      MarkedForMembers(box, reduce, cols[..n], q);
      if q in MarkedFor(box, reduce, cols[..n]) {
        var i :| 0 <= i < n && q in MarksOf(box, reduce, XY(cols[..n][i]));
        assert cols[..n][i] == cols[i];
      }
      if exists i :: 0 <= i < |cols| && q in MarksOf(box, reduce, XY(cols[i])) {
        var i :| 0 <= i < |cols| && q in MarksOf(box, reduce, XY(cols[i]));
        if i < n {
          assert cols[..n][i] == cols[i];
        }
      }
    }
  }

  ghost predicate ScanInv(box: Box, inside: Inside, reduce: bool, order: seq<(int, int)>, st: ScanState)
  {
    && WellFormed(box, inside, reduce, st.cols)
    && st.marked == MarkedFor(box, reduce, st.cols)
    && st.numGvec == SumBy(st.cols, ColumnSize)
    && |st.cols| <= |order|
    // every visited (x, y) with a non-empty column is recorded, or its mirror is
    && (forall p :: p in order && |ColumnZ(box, inside, reduce, p.0, p.1)| > 0 ==> p in st.marked)
  }

  /** An unmarked point with a non-empty column can be appended without breaking well-formedness. */
  lemma WellFormedAppend(box: Box, inside: Inside, reduce: bool, cols: seq<ZColumn>, p: (int, int))
    requires WellFormed(box, inside, reduce, cols)
    requires box.InXY(p) && |ColumnZ(box, inside, reduce, p.0, p.1)| > 0
    requires p !in MarkedFor(box, reduce, cols)
    ensures WellFormed(box, inside, reduce, cols + [ZColumn(p.0, p.1, ColumnZ(box, inside, reduce, p.0, p.1))])
  {
    var c := ZColumn(p.0, p.1, ColumnZ(box, inside, reduce, p.0, p.1));
    var cols' := cols + [c];
    UnmarkedApart(box, reduce, cols, p);
    forall i | 0 <= i < |cols'| ensures ColumnOk(box, inside, reduce, cols'[i]) {
      if i < |cols| { assert cols'[i] == cols[i]; }
    }
    forall i, j | 0 <= i < |cols'| && 0 <= j < |cols'| && i != j
      ensures XY(cols'[i]) != XY(cols'[j])
      ensures reduce ==> XY(cols'[i]) != Mirror(XY(cols'[j]))
    {
      if i < |cols| && j < |cols| {
        assert cols'[i] == cols[i] && cols'[j] == cols[j];
      } else if i < |cols| {
        assert cols'[i] == cols[i] && cols'[j] == c;
      } else if j < |cols| {
        assert cols'[j] == cols[j] && cols'[i] == c;
      }
    }
  }

  /** A point that is not marked is neither a recorded column nor, in a reduced set, the
      mirror image of one. */
  lemma UnmarkedApart(box: Box, reduce: bool, cols: seq<ZColumn>, p: (int, int))
    requires box.InXY(p) && p !in MarkedFor(box, reduce, cols)
    ensures forall i :: 0 <= i < |cols| ==> XY(cols[i]) != p && (reduce ==> XY(cols[i]) != Mirror(p))
  {
    MarkedForMembers(box, reduce, cols, p);
    forall i | 0 <= i < |cols| ensures XY(cols[i]) != p && (reduce ==> XY(cols[i]) != Mirror(p)) {
      assert p !in MarksOf(box, reduce, XY(cols[i]));
    }
  }

  lemma AddNewColumnInv(box: Box, inside: Inside, reduce: bool, order: seq<(int, int)>, st: ScanState, p: (int, int))
    requires ScanInv(box, inside, reduce, order, st)
    requires box.InXY(p)
    ensures ScanInv(box, inside, reduce, order + [p], AddNewColumn(box, inside, reduce, st, p))
  {
    var zcol := ColumnZ(box, inside, reduce, p.0, p.1);
    if |zcol| > 0 && p !in st.marked {
      var c := ZColumn(p.0, p.1, zcol);
      var cols' := st.cols + [c];
      WellFormedAppend(box, inside, reduce, st.cols, p);
      assert cols'[..|cols'| - 1] == st.cols;
      SumByAppend(st.cols, [c], ColumnSize);
      assert SumBy([c], ColumnSize) == |zcol| by {
        assert [c][..0] == [];
      }
    }
  }

  lemma {:induction false} ScanAllInv(box: Box, inside: Inside, reduce: bool, order: seq<(int, int)>)
    requires forall p :: p in order ==> box.InXY(p)
    ensures ScanInv(box, inside, reduce, order, ScanAll(box, inside, reduce, order))
    decreases |order|
  {
    if |order| > 0 {
      var n := |order| - 1;
      ScanAllInv(box, inside, reduce, order[..n]);
      AddNewColumnInv(box, inside, reduce, order[..n], ScanAll(box, inside, reduce, order[..n]), order[n]);
      assert order[..n] + [order[n]] == order;
    }
  }

  /** Columns are only ever appended: the columns recorded after visiting a prefix of the
      visiting order are a prefix of the final list. */
  lemma {:induction false} ScanAllExtends(box: Box, inside: Inside, reduce: bool, a: seq<(int, int)>, b: seq<(int, int)>)
    ensures var s := ScanAll(box, inside, reduce, a).cols;
            var t := ScanAll(box, inside, reduce, a + b).cols;
            |s| <= |t| && t[..|s|] == s
    decreases |b|
  {
    if |b| == 0 {
      assert a + b == a;
    } else {
      var n := |b| - 1;
      assert (a + b)[..|a + b| - 1] == a + b[..n];
      ScanAllExtends(box, inside, reduce, a, b[..n]);
    }
  }

  /** The base set's (x, y) pairs, visited first, are all recorded, in base order: they are
      distinct, mirror-free, in the box, and their columns are non-empty under the new cutoff. */
  ghost predicate BaseFits(box: Box, inside: Inside, reduce: bool, base: seq<(int, int)>)
  {
    && (forall i :: 0 <= i < |base| ==> box.InXY(base[i]) && |ColumnZ(box, inside, reduce, base[i].0, base[i].1)| > 0)
    && (forall i, j :: 0 <= i < |base| && 0 <= j < |base| && i != j ==> base[i] != base[j])
    && (reduce ==> forall i, j :: 0 <= i < |base| && 0 <= j < |base| && i != j ==> base[i] != Mirror(base[j]))
  }

  lemma {:induction false} ScanBase(box: Box, inside: Inside, reduce: bool, base: seq<(int, int)>)
    requires BaseFits(box, inside, reduce, base)
    ensures var cols := ScanAll(box, inside, reduce, base).cols;
            |cols| == |base| && forall i :: 0 <= i < |base| ==> XY(cols[i]) == base[i]
    decreases |base|
  {
    if |base| > 0 {
      var n := |base| - 1;
      var pre := base[..n];
      BaseFitsPrefix(box, inside, reduce, base);
      ScanBase(box, inside, reduce, pre);
      ScanAllMarked(box, inside, reduce, pre);
      var st := ScanAll(box, inside, reduce, pre);
      BaseNotMarked(box, inside, reduce, base, st.cols);
      var cols := ScanAll(box, inside, reduce, base).cols;
      assert cols == st.cols + [ZColumn(base[n].0, base[n].1, ColumnZ(box, inside, reduce, base[n].0, base[n].1))];
      forall i | 0 <= i < |base| ensures XY(cols[i]) == base[i] {
        if i < n {
          assert cols[i] == st.cols[i];
        }
      }
    }
  }

  lemma BaseFitsPrefix(box: Box, inside: Inside, reduce: bool, base: seq<(int, int)>)
    requires BaseFits(box, inside, reduce, base) && |base| > 0
    ensures BaseFits(box, inside, reduce, base[..|base| - 1])
  {
    var pre := base[..|base| - 1];
    assert forall i :: 0 <= i < |pre| ==> pre[i] == base[i];
  }

  /** The marks of the scan are the marks of the columns it recorded. */
  lemma {:induction false} ScanAllMarked(box: Box, inside: Inside, reduce: bool, order: seq<(int, int)>)
    ensures ScanAll(box, inside, reduce, order).marked == MarkedFor(box, reduce, ScanAll(box, inside, reduce, order).cols)
    decreases |order|
  {
    if |order| > 0 {
      var n := |order| - 1;
      ScanAllMarked(box, inside, reduce, order[..n]);
      var st := ScanAll(box, inside, reduce, order[..n]);
      var cols := st.cols + [ZColumn(order[n].0, order[n].1, ColumnZ(box, inside, reduce, order[n].0, order[n].1))];
      assert cols[..|cols| - 1] == st.cols;
    }
  }

  /** Once the columns of the first |base| - 1 base pairs are recorded, the last base pair is
      still unmarked. */
  lemma BaseNotMarked(box: Box, inside: Inside, reduce: bool, base: seq<(int, int)>, cols: seq<ZColumn>)
    requires BaseFits(box, inside, reduce, base) && |base| > 0 && |cols| == |base| - 1
    requires forall i :: 0 <= i < |cols| ==> XY(cols[i]) == base[i]
    ensures base[|base| - 1] !in MarkedFor(box, reduce, cols)
  {
    var n := |base| - 1;
    MarkedForMembers(box, reduce, cols, base[n]);
    forall i | 0 <= i < |cols| ensures base[n] !in MarksOf(box, reduce, XY(cols[i])) {
      assert base[i] != base[n];
      if reduce {
        assert base[n] != Mirror(base[i]);
      }
    }
  }

  /** The pairs (x, y) with y from yFrom up to yHi: the rest of a row of the box scan. */
  function RowFrom(box: Box, x: int, yFrom: int): seq<(int, int)>
    decreases box.yHi - yFrom
  {
    if yFrom > box.yHi then [] else [(x, yFrom)] + RowFrom(box, x, yFrom + 1)
  }

  /** The rows from xFrom up to xHi, each with y ascending: the rest of the box scan. */
  function RowsFrom(box: Box, xFrom: int): seq<(int, int)>
    decreases box.xHi - xFrom
  {
    if xFrom > box.xHi then [] else RowFrom(box, xFrom, box.yLo) + RowsFrom(box, xFrom + 1)
  }

  lemma {:induction false} RowFromMembers(box: Box, x: int, yFrom: int)
    ensures forall p :: p in RowFrom(box, x, yFrom) <==> p.0 == x && yFrom <= p.1 <= box.yHi
    decreases box.yHi - yFrom
  {
    if yFrom <= box.yHi {
      RowFromMembers(box, x, yFrom + 1);
    }
  }

  /** The box scan visits exactly the in-box pairs from row xFrom on. */
  lemma {:induction false} RowsFromMembers(box: Box, xFrom: int)
    requires box.xLo <= xFrom
    ensures forall p :: p in RowsFrom(box, xFrom) <==> xFrom <= p.0 && box.InXY(p)
    decreases box.xHi - xFrom
  {
    if xFrom <= box.xHi {
      RowFromMembers(box, xFrom, box.yLo);
      RowsFromMembers(box, xFrom + 1);
    }
  }

  /** The order in which find_z_columns visits (x, y): the base columns first, then the box. */
  function VisitOrder(box: Box, base: Option<seq<(int, int)>>): seq<(int, int)>
  {
    (if base.Some? then base.value else []) + RowsFrom(box, box.xLo)
  }

  /** The columns find_z_columns records, before they are reordered. */
  function Recorded(box: Box, inside: Inside, reduce: bool, base: Option<seq<(int, int)>>): ScanState
  {
    ScanAll(box, inside, reduce, VisitOrder(box, base))
  }

  /** The whole column set before reordering is well-formed and num_gvec_ is its total size. */
  lemma RecordedWellFormed(box: Box, inside: Inside, reduce: bool, base: Option<seq<(int, int)>>)
    requires base.Some? ==> BaseFits(box, inside, reduce, base.value)
    ensures ScanInv(box, inside, reduce, VisitOrder(box, base), Recorded(box, inside, reduce, base))
  {
    RowsFromMembers(box, box.xLo);
    ScanAllInv(box, inside, reduce, VisitOrder(box, base));
  }

  /** No in-box (x, y) with a non-empty column is missed; in a reduced set, either it or its
      mirror is kept. */
  lemma RecordedCovers(box: Box, inside: Inside, reduce: bool, base: Option<seq<(int, int)>>, p: (int, int))
    requires base.Some? ==> BaseFits(box, inside, reduce, base.value)
    requires box.InXY(p) && |ColumnZ(box, inside, reduce, p.0, p.1)| > 0
    ensures var cols := Recorded(box, inside, reduce, base).cols;
            exists i :: 0 <= i < |cols| && (XY(cols[i]) == p || (reduce && XY(cols[i]) == Mirror(p)))
  {
    var st := Recorded(box, inside, reduce, base);
    assert p in st.marked by {
      RecordedWellFormed(box, inside, reduce, base);
      RowsFromMembers(box, box.xLo);
      assert p in VisitOrder(box, base);
    }
    assert st.marked == MarkedFor(box, reduce, st.cols) by {
      RecordedWellFormed(box, inside, reduce, base);
    }
    MarkedForMembers(box, reduce, st.cols, p);
    var i :| 0 <= i < |st.cols| && p in MarksOf(box, reduce, XY(st.cols[i]));
    assert XY(st.cols[i]) == p || (reduce && XY(st.cols[i]) == Mirror(p));
  }

  /** The base set's columns come first, in base order. */
  lemma RecordedBasePrefix(box: Box, inside: Inside, reduce: bool, base: seq<(int, int)>)
    requires BaseFits(box, inside, reduce, base)
    ensures var cols := Recorded(box, inside, reduce, Some(base)).cols;
            |cols| >= |base| && forall i :: 0 <= i < |base| ==> XY(cols[i]) == base[i]
  {
    ScanBase(box, inside, reduce, base);
    ScanAllExtends(box, inside, reduce, base, RowsFrom(box, box.xLo));
  }

  /** The inner z loop of add_new_column: scan FFT coordinates iz in [0, zmax] and keep the
      frequencies inside the cutoff. */
  method ScanColumn(box: Box, inside: Inside, reduce: bool, x: int, y: int) returns (zcol: seq<int>)
    requires box.Valid()
    ensures zcol == ColumnZ(box, inside, reduce, x, y)
  {
    zcol := [];
    var zmax := box.nz - 1;
    if reduce && x == 0 && y == 0 {
      zmax := box.zHi;
    }
    var iz := 0;
    while iz <= zmax
      invariant 0 <= iz <= zmax + 1
      invariant zmax == box.zHi || zmax == box.nz - 1
      invariant reduce && x == 0 && y == 0 ==> zmax == box.zHi
      invariant iz <= box.zHi + 1 ==> zcol == FilterRange(inside, x, y, 0, iz - 1)
      invariant iz > box.zHi + 1 ==>
        zcol == FilterRange(inside, x, y, 0, box.zHi) + FilterRange(inside, x, y, box.zHi - box.nz + 1, iz - 1 - box.nz)
    {
      var k := box.FreqByCoord(iz);
      if inside(x, y, k) {
        zcol := zcol + [k];
      }
      if iz == box.zHi {
        assert FilterRange(inside, x, y, box.zHi - box.nz + 1, iz - box.nz) == [];
      }
      iz := iz + 1;
    }
    if zmax == box.nz - 1 && !(reduce && x == 0 && y == 0) && zmax == box.zHi {
      assert FilterRange(inside, x, y, box.zHi - box.nz + 1, -1) == [];
    }
  }

  /** add_new_column over the model's state: the column list, the marks and the count. */
  method AddNewColumnTo(box: Box, inside: Inside, reduce: bool, st: ScanState, i: int, j: int)
    returns (st': ScanState)
    requires box.Valid()
    ensures st' == AddNewColumn(box, inside, reduce, st, (i, j))
  {
    var zcol := ScanColumn(box, inside, reduce, i, j);
    st' := st;
    if |zcol| > 0 && (i, j) !in st.marked {
      st' := st'.(cols := st'.cols + [ZColumn(i, j, zcol)]);
      st' := st'.(numGvec := st'.numGvec + |zcol|);
      st' := st'.(marked := st'.marked + {(i, j)});
      if reduce {
        var mi := -i;
        var mj := -j;
        if box.xLo <= mi <= box.xHi && box.yLo <= mj <= box.yHi {
          st' := st'.(marked := st'.marked + {(mi, mj)});
        }
      }
    }
  }

  /** Put the (0, 0) column first by swapping it with the first column. */
  method SwapZeroColumnFirst(cols: seq<ZColumn>) returns (r: seq<ZColumn>)
    ensures multiset(r) == multiset(cols) && |r| == |cols|
    ensures (exists i :: 0 <= i < |cols| && XY(cols[i]) == (0, 0)) ==> XY(r[0]) == (0, 0)
  {
    r := cols;
    var i := 0;
    while i < |r|
      invariant 0 <= i <= |r| == |cols|
      invariant r == cols
      invariant forall k :: 0 <= k < i ==> XY(cols[k]) != (0, 0)
    {
      if r[i].x == 0 && r[i].y == 0 {
        r := r[0 := cols[i]][i := cols[0]];
        assert multiset(r) == multiset(cols);
        return;
      }
      i := i + 1;
    }
  }

  lemma ScanAllSnoc(box: Box, inside: Inside, reduce: bool, order: seq<(int, int)>, p: (int, int))
    ensures ScanAll(box, inside, reduce, order + [p]) == AddNewColumn(box, inside, reduce, ScanAll(box, inside, reduce, order), p)
  {
    assert (order + [p])[..|order|] == order;
  }

  /** The loop over the base set's columns, which fixes the order of the first columns. */
  method ScanBaseColumns(box: Box, inside: Inside, reduce: bool, b: seq<(int, int)>) returns (st: ScanState)
    requires box.Valid()
    ensures st == ScanAll(box, inside, reduce, b)
  {
    st := ScanState([], {}, 0);
    for icol := 0 to |b|
      invariant st == ScanAll(box, inside, reduce, b[..icol])
    {
      ScanAllSnoc(box, inside, reduce, b[..icol], b[icol]);
      assert b[..icol + 1] == b[..icol] + [b[icol]];
      st := AddNewColumnTo(box, inside, reduce, st, b[icol].0, b[icol].1);
    }
    assert b[..|b|] == b;
  }

  /** The scan continued from state st along order, one add_new_column per pair. */
  function ScanFrom(box: Box, inside: Inside, reduce: bool, st: ScanState, order: seq<(int, int)>): ScanState
    decreases |order|
  {
    if |order| == 0 then st else ScanFrom(box, inside, reduce, AddNewColumn(box, inside, reduce, st, order[0]), order[1..])
  }

  lemma {:induction false} ScanFromAppend(box: Box, inside: Inside, reduce: bool, st: ScanState, a: seq<(int, int)>, b: seq<(int, int)>)
    ensures ScanFrom(box, inside, reduce, st, a + b) == ScanFrom(box, inside, reduce, ScanFrom(box, inside, reduce, st, a), b)
    decreases |a|
  {
    if |a| == 0 {
      assert a + b == b;
    } else {
      assert (a + b)[1..] == a[1..] + b;
      ScanFromAppend(box, inside, reduce, AddNewColumn(box, inside, reduce, st, a[0]), a[1..], b);
    }
  }

  /** Continuing the scan of a prefix along the rest is the scan of the whole order. */
  lemma {:induction false} ScanFromAll(box: Box, inside: Inside, reduce: bool, a: seq<(int, int)>, b: seq<(int, int)>)
    ensures ScanFrom(box, inside, reduce, ScanAll(box, inside, reduce, a), b) == ScanAll(box, inside, reduce, a + b)
    decreases |b|
  {
    if |b| == 0 {
      assert a + b == a;
    } else {
      ScanAllSnoc(box, inside, reduce, a, b[0]);
      assert (a + [b[0]]) + b[1..] == a + b;
      ScanFromAll(box, inside, reduce, a + [b[0]], b[1..]);
    }
  }

  /** One row of the box scan: y ascending at fixed x. */
  method ScanRow(box: Box, inside: Inside, reduce: bool, x: int, st: ScanState) returns (st': ScanState)
    requires box.Valid()
    ensures st' == ScanFrom(box, inside, reduce, st, RowFrom(box, x, box.yLo))
  {
    st' := st;
    for j := box.yLo to box.yHi + 1
      invariant ScanFrom(box, inside, reduce, st', RowFrom(box, x, j)) == ScanFrom(box, inside, reduce, st, RowFrom(box, x, box.yLo))
    {
      assert RowFrom(box, x, j)[1..] == RowFrom(box, x, j + 1);
      st' := AddNewColumnTo(box, inside, reduce, st', x, j);
    }
  }

  /** The scan of the whole box, row by row with x ascending. */
  method ScanBox(box: Box, inside: Inside, reduce: bool, st: ScanState) returns (st': ScanState)
    requires box.Valid()
    ensures st' == ScanFrom(box, inside, reduce, st, RowsFrom(box, box.xLo))
  {
    st' := st;
    for i := box.xLo to box.xHi + 1
      invariant ScanFrom(box, inside, reduce, st', RowsFrom(box, i)) == ScanFrom(box, inside, reduce, st, RowsFrom(box, box.xLo))
    {
      ScanFromAppend(box, inside, reduce, st', RowFrom(box, i, box.yLo), RowsFrom(box, i + 1));
      st' := ScanRow(box, inside, reduce, i, st');
    }
  }

  /** The comparator `a.z.size() > b.z.size()` of find_z_columns as an ascending sort key. */
  function LargerFirst(c: ZColumn): int
  {
    -|c.z|
  }

  /** Sort the columns after the first n by non-increasing size, keeping the first n. */
  method SortTail(cols: seq<ZColumn>, n: nat) returns (r: seq<ZColumn>)
    ensures multiset(r) == multiset(cols) && |r| == |cols|
    ensures n <= |cols| ==> r[..n] == cols[..n]
    ensures forall i, j :: n <= i < j < |r| ==> |r[i].z| >= |r[j].z|
  {
    r := cols;
    if n < |cols| {
      SortByKeyAscSorted(cols[n..], LargerFirst);
      var tail := SortByKeyAsc(cols[n..], LargerFirst);
      assert cols == cols[..n] + cols[n..];
      r := cols[..n] + tail;
      forall i, j | n <= i < j < |r| ensures |r[i].z| >= |r[j].z| {
        assert r[i] == tail[i - n] && r[j] == tail[j - n];
        assert LargerFirst(tail[i - n]) <= LargerFirst(tail[j - n]);
      }
    }
  }

  /** The reordering at the end of find_z_columns: with no base set the (0, 0) column goes
      first; then every column after the fixed prefix is sorted by non-increasing size. */
  method OrderColumns(recorded: seq<ZColumn>, base: Option<seq<(int, int)>>) returns (cols: seq<ZColumn>)
    requires base.Some? ==> |recorded| >= |base.value| && forall i :: 0 <= i < |base.value| ==> XY(recorded[i]) == base.value[i]
    ensures multiset(cols) == multiset(recorded)
    ensures base.Some? ==> |cols| >= |base.value| && forall i :: 0 <= i < |base.value| ==> XY(cols[i]) == base.value[i]
    ensures base.None? && (exists i :: 0 <= i < |cols| && XY(cols[i]) == (0, 0)) ==> XY(cols[0]) == (0, 0)
    ensures var n := if base.Some? then |base.value| else 1;
            forall i, j :: n <= i < j < |cols| ==> |cols[i].z| >= |cols[j].z|
  {
    cols := recorded;
    var n := if base.Some? then |base.value| else 1;
    if base.None? {
      // the column through the origin goes first
      cols := SwapZeroColumnFirst(cols);
    }
    // the rest is sorted; the leading n columns stay where they are
    ghost var before := cols;
    cols := SortTail(cols, n);
    if base.None? && exists i :: 0 <= i < |cols| && XY(cols[i]) == (0, 0) {
      ghost var i :| 0 <= i < |cols| && XY(cols[i]) == (0, 0);
      assert cols[i] in multiset(recorded);
      ghost var k :| 0 <= k < |recorded| && recorded[k] == cols[i];
      assert XY(recorded[k]) == (0, 0);
      assert cols[0] == before[0] by {
        assert cols[..1] == before[..1];
      }
    }
    if base.Some? {
      forall i | 0 <= i < n ensures XY(cols[i]) == base.value[i] {
        assert cols[i] == cols[..n][i] == recorded[..n][i];
      }
    }
  }

  /** Gvec::find_z_columns: visit the base set's columns (if any) and then the box row by row,
      put the (0, 0) column first when there is no base set, and sort the columns after the
      fixed prefix by non-increasing size. */
  method FindZColumns(box: Box, inside: Inside, reduce: bool, base: Option<seq<(int, int)>>)
    returns (cols: seq<ZColumn>, numGvec: int)
    requires box.Valid()
    requires base.Some? ==> BaseFits(box, inside, reduce, base.value)
    ensures multiset(cols) == multiset(Recorded(box, inside, reduce, base).cols)
    ensures numGvec == Recorded(box, inside, reduce, base).numGvec
    ensures base.Some? ==> |cols| >= |base.value| && forall i :: 0 <= i < |base.value| ==> XY(cols[i]) == base.value[i]
    ensures base.None? && (exists i :: 0 <= i < |cols| && XY(cols[i]) == (0, 0)) ==> XY(cols[0]) == (0, 0)
    ensures var n := if base.Some? then |base.value| else 1;
            forall i, j :: n <= i < j < |cols| ==> |cols[i].z| >= |cols[j].z|
  {
    var pre: seq<(int, int)> := if base.Some? then base.value else [];
    // the base set's columns come first, in their order
    var st := ScanBaseColumns(box, inside, reduce, pre);
    st := ScanBox(box, inside, reduce, st);
    assert st == Recorded(box, inside, reduce, base) by {
      ScanFromAll(box, inside, reduce, pre, RowsFrom(box, box.xLo));
    }
    cols, numGvec := st.cols, st.numGvec;
    if base.Some? {
      RecordedBasePrefix(box, inside, reduce, base.value);
    }
    cols := OrderColumns(cols, base);
  }
}
