/** The packed forward and reverse G-vector indices built by Gvec::init and read by
    gvec_by_full_index and index_by_gvec (src/SDDK/gvec.hpp). */
module GvecIndex {
  import opened Seqs
  import opened ZColumns

  /** 2^12: the forward entry keeps a column position in its low 12 bits. */
  const ZSpan: int := 0x1000
  /** 2^20: the reverse entry keeps a column index in its low 20 bits. */
  const ColumnSpan: int := 0x10_0000
  const Two31: int := 0x8000_0000
  const Two32: int := 0x1_0000_0000

  /** A value stored in a uint32_t: its residue modulo 2^32. */
  function UInt32(v: int): (w: int)
    ensures 0 <= w < Two32 && (v - w) % Two32 == 0
  {
    v % Two32
  }

  /** static_cast<int> of a wider value: the two's complement wrap into [-2^31, 2^31). */
  function Int32(v: int): (w: int)
    ensures -Two31 <= w < Two31 && (v - w) % Two32 == 0
    ensures -Two31 <= v < Two31 ==> w == v
  {
    (v + Two31) % Two32 - Two31
  }

  /*** The forward entry gvec_full_index_[ig] = (i << 12) + j. ***/

  function PackFull(i: int, j: int): int
  {
    UInt32(i * ZSpan + j)
  }

  /** idx >> 12 on an unsigned value. */
  function FullColumn(idx: int): int
  {
    idx / ZSpan
  }

  /** idx & 0xFFF. */
  function FullPosition(idx: int): int
  {
    idx % ZSpan
  }

  /** Within the documented capacity (fewer than 2^20 columns, fewer than 2^12 positions)
      the forward entry decodes back to the column and the position. */
  lemma FullIndexRoundTrip(i: int, j: int)
    requires 0 <= i < ColumnSpan && 0 <= j < ZSpan
    ensures FullColumn(PackFull(i, j)) == i && FullPosition(PackFull(i, j)) == j
  {
    assert 0 <= i * ZSpan + j < Two32;
  }

  /*** The reverse entry gvec_index_by_xy_(1, x, y) = (size << 20) + i. ***/

  /** The entry as an unsigned 32-bit number. */
  function PackSize(size: int, i: int): int
  {
    UInt32(size * ColumnSpan + i)
  }

  /** The entry as the source stores it: cast to a signed int. */
  function PackSizeAsWritten(size: int, i: int): int
  {
    Int32(size * ColumnSpan + i)
  }

  /** v & 0xFFFFF (the low 20 bits of the two's complement representation). */
  function PackedColumn(v: int): int
  {
    v % ColumnSpan
  }

  /** v >> 20 (an arithmetic shift: division rounding down). */
  function PackedSize(v: int): int
  {
    v / ColumnSpan
  }

  /** Read as an unsigned number, the entry decodes back for every size below 2^12. */
  lemma PackSizeRoundTrip(size: int, i: int)
    requires 0 <= size < ZSpan && 0 <= i < ColumnSpan
    ensures PackedSize(PackSize(size, i)) == size && PackedColumn(PackSize(size, i)) == i
  {
    assert 0 <= size * ColumnSpan + i < Two32;
  }

  /** The signed entry decodes back only while the size stays below 2^11. */
  lemma PackSizeAsWrittenRoundTrip(size: int, i: int)
    requires 0 <= size < ZSpan / 2 && 0 <= i < ColumnSpan
    ensures PackedSize(PackSizeAsWritten(size, i)) == size && PackedColumn(PackSizeAsWritten(size, i)) == i
  {
    assert 0 <= size * ColumnSpan + i < Two31;
  }

  /** A column of 2048 vectors packs into a negative int, and the shift gives size -2048. */
  lemma PackSizeAsWrittenWraps(i: int)
    requires 0 <= i < ColumnSpan
    ensures PackSizeAsWritten(2048, i) < 0
    ensures PackedSize(PackSizeAsWritten(2048, i)) == -2048 && PackedColumn(PackSizeAsWritten(2048, i)) == i
  {
    assert PackSizeAsWritten(2048, i) == i - Two31;
  }

  /** The cast keeps the low 20 bits. */
  lemma Int32LowBits(v: int)
    ensures PackedColumn(Int32(v)) == PackedColumn(v)
  {
    var q := (v + Two31) / Two32;
    assert Int32(v) == v - q * Two32;
    assert v - q * Two32 == v + (-q * 4096) * ColumnSpan;
  }

  /*** The tables Gvec::init fills. ***/

  /** The two numbers of gvec_index_by_xy_ for one (x, y): the first G-vector index of the
      column and the packed column size and index. */
  datatype XYEntry = XYEntry(start: int, packed: int)

  /** The G-vector index of the first vector of column i: the sizes of the columns before it. */
  function ColumnStart(cols: seq<ZColumn>, i: int): int
    requires 0 <= i <= |cols|
  {
    if i == 0 then 0 else ColumnStart(cols, i - 1) + |cols[i - 1].z|
  }

  /** The column starts are the running sums of the column sizes. */
  lemma {:induction false} ColumnStartSumBy(cols: seq<ZColumn>, i: int)
    requires 0 <= i <= |cols|
    ensures ColumnStart(cols, i) == SumBy(cols[..i], ColumnSize)
    ensures i == |cols| ==> ColumnStart(cols, i) == SumBy(cols, ColumnSize)
    decreases i
  {
    if i > 0 {
      ColumnStartSumBy(cols, i - 1);
      assert cols[..i][..i - 1] == cols[..i - 1];
    }
    assert cols[..|cols|] == cols;
  }

  /** gvec_full_index_: column after column, the packed (column, position) of each vector. */
  function FullIndexOf(cols: seq<ZColumn>): seq<int>
  {
    FullIndexUpTo(cols, |cols|)
  }

  /** The forward entries of the first n columns. */
  function FullIndexUpTo(cols: seq<ZColumn>, n: int): seq<int>
    requires 0 <= n <= |cols|
  {
    if n == 0 then []
    else FullIndexUpTo(cols, n - 1) + seq(|cols[n - 1].z|, j => PackFull(n - 1, j))
  }

  /** gvec_index_by_xy_ over the columns, later columns overwriting earlier ones; (x, y)
      pairs that are not keys hold the fill value -1. */
  function XYTable(cols: seq<ZColumn>): map<(int, int), XYEntry>
  {
    XYTableUpTo(cols, |cols|)
  }

  /** The reverse entries of the first n columns. */
  function XYTableUpTo(cols: seq<ZColumn>, n: int): map<(int, int), XYEntry>
    requires 0 <= n <= |cols|
  {
    if n == 0 then map[]
    else XYTableUpTo(cols, n - 1)[XY(cols[n - 1]) := XYEntry(ColumnStart(cols, n - 1), PackSize(|cols[n - 1].z|, n - 1))]
  }

  /** No (x, y) appears twice among the columns. The pairs are stated through XYDiffer so
      that they are only looked at where a proof names them. */
  ghost predicate DistinctXY(cols: seq<ZColumn>)
  {
    forall i, j :: 0 <= i < |cols| && 0 <= j < |cols| ==> XYDiffer(cols, i, j)
  }

  ghost predicate XYDiffer(cols: seq<ZColumn>, i: int, j: int)
    requires 0 <= i < |cols| && 0 <= j < |cols|
  {
    i != j ==> XY(cols[i]) != XY(cols[j])
  }

  /** What init relies on: the capacity limits, distinct (x, y), columns in the box whose
      offsets the FFT-order formula recovers, and no negative z in the (0, 0) column of a
      reduced set. */
  ghost predicate Indexable(box: Box, reduce: bool, cols: seq<ZColumn>)
  {
    && |cols| <= ColumnSpan
    && DistinctXY(cols)
    && (forall i :: 0 <= i < |cols| ==> box.InXY(XY(cols[i])) && 0 < |cols[i].z| < ZSpan)
    && (forall i :: 0 <= i < |cols| ==> OffsetRule(cols[i].z))
    && (reduce ==> forall i, j :: 0 <= i < |cols| && XY(cols[i]) == (0, 0) && 0 <= j < |cols[i].z| ==> cols[i].z[j] >= 0)
  }

  /** Column starts grow with the column number, by at least one per non-empty column. */
  lemma {:induction false} ColumnStartMonotone(cols: seq<ZColumn>, a: int, b: int)
    requires 0 <= a <= b <= |cols|
    ensures ColumnStart(cols, a) <= ColumnStart(cols, b)
    ensures (forall i :: 0 <= i < |cols| ==> |cols[i].z| > 0) ==> ColumnStart(cols, a) + (b - a) <= ColumnStart(cols, b)
    decreases b - a
  {
    if a < b {
      ColumnStartMonotone(cols, a, b - 1);
    }
  }

  /** The first n columns hold ColumnStart(cols, n) forward entries. */
  lemma {:induction false} FullIndexLength(cols: seq<ZColumn>, n: int)
    requires 0 <= n <= |cols|
    ensures |FullIndexUpTo(cols, n)| == ColumnStart(cols, n)
    decreases n
  {
    if n > 0 {
      FullIndexLength(cols, n - 1);
    }
  }

  /** Vector j of column i has G-vector index ColumnStart(cols, i) + j, and its forward entry
      packs (i, j). */
  lemma FullIndexAt(cols: seq<ZColumn>, i: int, j: int)
    requires 0 <= i < |cols| && 0 <= j < |cols[i].z|
    ensures 0 <= ColumnStart(cols, i) + j < |FullIndexOf(cols)|
    ensures FullIndexOf(cols)[ColumnStart(cols, i) + j] == PackFull(i, j)
  {
    FullIndexUpToAt(cols, |cols|, i, j);
  }

  lemma {:induction false} FullIndexUpToAt(cols: seq<ZColumn>, n: int, i: int, j: int)
    requires 0 <= i < n <= |cols| && 0 <= j < |cols[i].z|
    ensures 0 <= ColumnStart(cols, i) + j < |FullIndexUpTo(cols, n)|
    ensures FullIndexUpTo(cols, n)[ColumnStart(cols, i) + j] == PackFull(i, j)
    decreases n
  {
    FullIndexLength(cols, n - 1);
    ColumnStartMonotone(cols, 0, i);
    if i < n - 1 {
      FullIndexUpToAt(cols, n - 1, i, j);
    }
  }

  /** The column that G-vector index k falls in (the last column when k is past the end). */
  function ColumnOfIndex(cols: seq<ZColumn>, k: int): int
  {
    ColumnBelow(cols, |cols|, k)
  }

  /** The column among the first n that index k falls in. */
  function ColumnBelow(cols: seq<ZColumn>, n: int, k: int): int
    requires 0 <= n <= |cols|
  {
    if n <= 1 then 0
    else if k < ColumnStart(cols, n - 1) then ColumnBelow(cols, n - 1, k) else n - 1
  }

  /** Every G-vector index belongs to a (column, position) pair. */
  lemma FullIndexLocate(cols: seq<ZColumn>, k: int)
    requires 0 <= k < |FullIndexOf(cols)|
    ensures var i := ColumnOfIndex(cols, k);
            0 <= i < |cols| && ColumnStart(cols, i) <= k < ColumnStart(cols, i) + |cols[i].z|
  {
    FullIndexLength(cols, |cols|);
    ColumnBelowLocates(cols, |cols|, k);
  }

  lemma {:induction false} ColumnBelowLocates(cols: seq<ZColumn>, n: int, k: int)
    requires 0 <= n <= |cols| && 0 <= k < ColumnStart(cols, n)
    ensures var i := ColumnBelow(cols, n, k);
            0 <= i < n && ColumnStart(cols, i) <= k < ColumnStart(cols, i) + |cols[i].z|
    decreases n
  {
    if n > 1 && k < ColumnStart(cols, n - 1) {
      ColumnBelowLocates(cols, n - 1, k);
    }
  }

  /** Index k lies in the vectors of columns a to b - 1 exactly when its column does. */
  lemma ColumnRange(cols: seq<ZColumn>, a: int, b: int, k: int)
    requires 0 <= a <= b <= |cols| && 0 <= k < |FullIndexOf(cols)|
    ensures 0 <= ColumnOfIndex(cols, k) < |cols|
    ensures ColumnStart(cols, a) <= k < ColumnStart(cols, b) <==> a <= ColumnOfIndex(cols, k) < b
  {
    FullIndexLocate(cols, k);
    var i := ColumnOfIndex(cols, k);
    if i < a {
      ColumnStartMonotone(cols, i + 1, a);
    } else if i >= b {
      ColumnStartMonotone(cols, b, i);
    } else {
      ColumnStartMonotone(cols, a, i);
      ColumnStartMonotone(cols, i + 1, b);
    }
  }

  /** Within capacity, the forward entry of index ig decodes to the (column, position) pair
      the index belongs to. */
  lemma FullIndexDecode(t: Tables, ig: int)
    requires Built(t) && 0 <= ig < |t.fullIndex|
    ensures var i := FullColumn(t.fullIndex[ig]);
            0 <= i < |t.cols| && i == ColumnOfIndex(t.cols, ig) &&
            FullPosition(t.fullIndex[ig]) == ig - ColumnStart(t.cols, i) < |t.cols[i].z|
  {
    FullIndexLocate(t.cols, ig);
    var i := ColumnOfIndex(t.cols, ig);
    var j := ig - ColumnStart(t.cols, i);
    FullIndexAt(t.cols, i, j);
    FullIndexRoundTrip(i, j);
  }

  /** The keys of the reverse table are the (x, y) of the columns. */
  lemma XYTableKeys(cols: seq<ZColumn>, p: (int, int))
    ensures p in XYTable(cols) <==> exists i :: 0 <= i < |cols| && XY(cols[i]) == p
  {
    XYTableUpToKeys(cols, |cols|, p);
  }

  lemma {:induction false} XYTableUpToKeys(cols: seq<ZColumn>, n: int, p: (int, int))
    requires 0 <= n <= |cols|
    ensures p in XYTableUpTo(cols, n) <==> exists i :: 0 <= i < n && XY(cols[i]) == p
    decreases n
  {
    if n > 0 {
      XYTableUpToKeys(cols, n - 1, p);
      if XY(cols[n - 1]) == p {
        assert exists i :: 0 <= i < n && XY(cols[i]) == p;
      }
    }
  }

  /** With distinct (x, y), the entry of column i's (x, y) holds its start and packs its size
      and index. */
  lemma XYTableAt(cols: seq<ZColumn>, i: int)
    requires DistinctXY(cols) && 0 <= i < |cols|
    ensures XY(cols[i]) in XYTable(cols)
    ensures XYTable(cols)[XY(cols[i])] == XYEntry(ColumnStart(cols, i), PackSize(|cols[i].z|, i))
  {
    XYTableUpToAt(cols, |cols|, i);
  }

  lemma {:induction false} XYTableUpToAt(cols: seq<ZColumn>, n: int, i: int)
    requires DistinctXY(cols) && 0 <= i < n <= |cols|
    ensures XY(cols[i]) in XYTableUpTo(cols, n)
    ensures XYTableUpTo(cols, n)[XY(cols[i])] == XYEntry(ColumnStart(cols, i), PackSize(|cols[i].z|, i))
    decreases n
  {
    if i < n - 1 {
      XYTableUpToAt(cols, n - 1, i);
      assert XYDiffer(cols, i, n - 1);
    }
  }

  /*** Lookups. ***/

  /** Gvec's index tables: the FFT box, whether the set is reduced, the column list and the
      two indices. */
  datatype Tables = Tables(box: Box, reduce: bool, cols: seq<ZColumn>, fullIndex: seq<int>,
                           byXY: map<(int, int), XYEntry>)

  /** The tables init builds from a column list. */
  ghost predicate Built(t: Tables)
  {
    && Indexable(t.box, t.reduce, t.cols)
    && t.fullIndex == FullIndexOf(t.cols)
    && t.byXY == XYTable(t.cols)
  }

  /** Every reverse entry names a real, non-empty column (read either way). */
  ghost predicate LookupSafe(t: Tables)
  {
    forall p :: p in t.byXY ==>
      0 <= PackedColumn(t.byXY[p].packed) < |t.cols| && |t.cols[PackedColumn(t.byXY[p].packed)].z| > 0
  }

  lemma BuiltLookupSafe(t: Tables)
    requires Built(t)
    ensures LookupSafe(t)
  {
    forall p | p in t.byXY
      ensures 0 <= PackedColumn(t.byXY[p].packed) < |t.cols| && |t.cols[PackedColumn(t.byXY[p].packed)].z| > 0
    {
      XYTableKeys(t.cols, p);
      var i :| 0 <= i < |t.cols| && XY(t.cols[i]) == p;
      XYTableAt(t.cols, i);
      PackSizeRoundTrip(|t.cols[i].z|, i);
    }
  }

  /** gvec_by_full_index: the (x, y, z) a forward entry names. */
  function GvecByFullIndex(cols: seq<ZColumn>, idx: int): (int, int, int)
    requires 0 <= FullColumn(idx) < |cols| && 0 <= FullPosition(idx) < |cols[FullColumn(idx)].z|
  {
    var c := cols[FullColumn(idx)];
    (c.x, c.y, c.z[FullPosition(idx)])
  }

  /** Gvec::gvec: the G-vector with global index ig. */
  function GvecAt(t: Tables, ig: int): (g: (int, int, int))
    requires Built(t) && 0 <= ig < |t.fullIndex|
    ensures 0 <= ColumnOfIndex(t.cols, ig) < |t.cols|
    ensures var i := ColumnOfIndex(t.cols, ig);
            var j := ig - ColumnStart(t.cols, i);
            0 <= j < |t.cols[i].z| && g == (t.cols[i].x, t.cols[i].y, t.cols[i].z[j])
  {
    FullIndexDecode(t, ig);
    GvecByFullIndex(t.cols, t.fullIndex[ig])
  }

  /** The offset of z in a column from its first frequency and its size (three layouts: all
      negative, all positive, positive then negative in FFT order). */
  function ColumnOffset(z0: int, size: int): int
  {
    if z0 >= 0 then z0 else z0 + size
  }

  /** index_by_gvec with the reverse entry read as an unsigned number. */
  function IndexByGvec(t: Tables, g: (int, int, int)): int
    requires LookupSafe(t) && t.box.InXY((g.0, g.1))
  {
    if t.reduce && g.0 == 0 && g.1 == 0 && g.2 < 0 then -1
    else if (g.0, g.1) !in t.byXY then -1
    else
      var e := t.byXY[(g.0, g.1)];
      var icol := PackedColumn(e.packed);
      e.start + ColumnOffset(g.2 - t.cols[icol].z[0], PackedSize(e.packed))
  }

  /** index_by_gvec as written: the reverse entry went through static_cast<int>. */
  function IndexByGvecAsWritten(t: Tables, g: (int, int, int)): int
    requires LookupSafe(t) && t.box.InXY((g.0, g.1))
  {
    if t.reduce && g.0 == 0 && g.1 == 0 && g.2 < 0 then -1
    else if (g.0, g.1) !in t.byXY then -1
    else
      var e := t.byXY[(g.0, g.1)];
      var v := Int32(e.packed);
      Int32LowBits(e.packed);
      var icol := PackedColumn(v);
      e.start + ColumnOffset(g.2 - t.cols[icol].z[0], PackedSize(v))
  }

  /** The G-vectors of the set: a z in the column of (x, y). */
  ghost predicate Member(t: Tables, g: (int, int, int))
  {
    exists i, j :: 0 <= i < |t.cols| && 0 <= j < |t.cols[i].z| && g == (t.cols[i].x, t.cols[i].y, t.cols[i].z[j])
  }

  /** Looking up vector j of column i gives its index ColumnStart(cols, i) + j. */
  lemma LookupColumnEntry(t: Tables, i: int, j: int)
    requires Built(t) && 0 <= i < |t.cols| && 0 <= j < |t.cols[i].z|
    ensures LookupSafe(t) && t.box.InXY((t.cols[i].x, t.cols[i].y))
    ensures IndexByGvec(t, (t.cols[i].x, t.cols[i].y, t.cols[i].z[j])) == ColumnStart(t.cols, i) + j
  {
    BuiltLookupSafe(t);
    XYTableAt(t.cols, i);
    PackSizeRoundTrip(|t.cols[i].z|, i);
    assert OffsetRule(t.cols[i].z);
  }

  /** The check of init: index_by_gvec(gvec(ig)) == ig for every ig. */
  lemma IndexRoundTrip(t: Tables, ig: int)
    requires Built(t) && 0 <= ig < |t.fullIndex|
    ensures LookupSafe(t) && t.box.InXY((GvecAt(t, ig).0, GvecAt(t, ig).1))
    ensures IndexByGvec(t, GvecAt(t, ig)) == ig
  {
    FullIndexLocate(t.cols, ig);
    var i := ColumnOfIndex(t.cols, ig);
    LookupColumnEntry(t, i, ig - ColumnStart(t.cols, i));
  }

  /** The other direction: every member's index names the member. */
  lemma IndexOfMember(t: Tables, g: (int, int, int))
    requires Built(t) && Member(t, g)
    ensures LookupSafe(t) && t.box.InXY((g.0, g.1))
    ensures 0 <= IndexByGvec(t, g) < |t.fullIndex| && GvecAt(t, IndexByGvec(t, g)) == g
  {
    var i, j :| 0 <= i < |t.cols| && 0 <= j < |t.cols[i].z| && g == (t.cols[i].x, t.cols[i].y, t.cols[i].z[j]);
    ColumnEntryIndex(t, i, j);
  }

  /** Vector j of column i has index ColumnStart(cols, i) + j, and that index names it. */
  lemma ColumnEntryIndex(t: Tables, i: int, j: int)
    requires Built(t) && 0 <= i < |t.cols| && 0 <= j < |t.cols[i].z|
    ensures LookupSafe(t) && t.box.InXY((t.cols[i].x, t.cols[i].y))
    ensures var k := ColumnStart(t.cols, i) + j;
            && IndexByGvec(t, (t.cols[i].x, t.cols[i].y, t.cols[i].z[j])) == k
            && 0 <= k < |t.fullIndex| && GvecAt(t, k) == (t.cols[i].x, t.cols[i].y, t.cols[i].z[j])
  {
    LookupColumnEntry(t, i, j);
    ColumnEntryVector(t, i, j);
  }

  /** Index ColumnStart(cols, i) + j names vector j of column i. */
  lemma ColumnEntryVector(t: Tables, i: int, j: int)
    requires Built(t) && 0 <= i < |t.cols| && 0 <= j < |t.cols[i].z|
    ensures var k := ColumnStart(t.cols, i) + j;
            0 <= k < |t.fullIndex| && GvecAt(t, k) == (t.cols[i].x, t.cols[i].y, t.cols[i].z[j])
  {
    FullIndexAt(t.cols, i, j);
    FullIndexRoundTrip(i, j);
  }

  /** An (x, y) without a column, and (0, 0, z < 0) in a reduced set, give -1. */
  lemma IndexOfAbsent(t: Tables, g: (int, int, int))
    requires Built(t) && t.box.InXY((g.0, g.1))
    requires (forall i :: 0 <= i < |t.cols| ==> XY(t.cols[i]) != (g.0, g.1)) || (t.reduce && g.0 == 0 && g.1 == 0 && g.2 < 0)
    ensures LookupSafe(t) && IndexByGvec(t, g) == -1
  {
    BuiltLookupSafe(t);
    XYTableKeys(t.cols, (g.0, g.1));
  }

  /** With every column shorter than 2^11, the lookup as written agrees with the unsigned one. */
  lemma AsWrittenAgreesBelow2048(t: Tables, g: (int, int, int))
    requires Built(t) && t.box.InXY((g.0, g.1))
    requires forall i :: 0 <= i < |t.cols| ==> |t.cols[i].z| < ZSpan / 2
    ensures LookupSafe(t) && IndexByGvecAsWritten(t, g) == IndexByGvec(t, g)
  {
    BuiltLookupSafe(t);
    if (g.0, g.1) in t.byXY {
      XYTableKeys(t.cols, (g.0, g.1));
      var i :| 0 <= i < |t.cols| && XY(t.cols[i]) == (g.0, g.1);
      XYTableAt(t.cols, i);
      PackSizeRoundTrip(|t.cols[i].z|, i);
      PackSizeAsWrittenRoundTrip(|t.cols[i].z|, i);
    }
  }

  /** Init's round-trip check on the signed entry passes while every column is shorter than
      2^11. */
  lemma AsWrittenRoundTripBelow2048(t: Tables, ig: int)
    requires Built(t) && 0 <= ig < |t.fullIndex|
    requires forall i :: 0 <= i < |t.cols| ==> |t.cols[i].z| < ZSpan / 2
    ensures LookupSafe(t) && t.box.InXY((GvecAt(t, ig).0, GvecAt(t, ig).1))
    ensures IndexByGvecAsWritten(t, GvecAt(t, ig)) == ig
  {
    IndexRoundTrip(t, ig);
    AsWrittenAgreesBelow2048(t, GvecAt(t, ig));
  }

  /*** A 2048-vector column: the as-written lookup fails where the unsigned one does not. ***/

  /** Column (0, 0) of a 2048-point z grid, all frequencies inside the cutoff: 0 .. 1023 then
      -1024 .. -1. */
  function WideColumn(): ZColumn
  {
    ZColumn(0, 0, seq(2048, k => if k < 1024 then k else k - 2048))
  }

  function WideTables(): Tables
  {
    Tables(Box(0, 0, 0, 0, 1023, 2048), false, [WideColumn()], FullIndexOf([WideColumn()]), XYTable([WideColumn()]))
  }

  /** G = (0, 0, -1) is the last vector of the column, index 2047; the as-written lookup returns
      -2049, so init stops with "wrong G-vector index". */
  lemma AsWrittenLookupFails()
    ensures Built(WideTables()) && LookupSafe(WideTables())
    ensures GvecAt(WideTables(), 2047) == (0, 0, -1)
    ensures IndexByGvec(WideTables(), (0, 0, -1)) == 2047
    ensures IndexByGvecAsWritten(WideTables(), (0, 0, -1)) == -2049
  {
    var t := WideTables();
    var c := WideColumn();
    assert OffsetRule(c.z) by {
      forall j | 0 <= j < |c.z| ensures ZOffset(c.z, c.z[j]) == j {
      }
    }
    assert Indexable(t.box, t.reduce, t.cols);
    BuiltLookupSafe(t);
    LookupColumnEntry(t, 0, 2047);
    assert ColumnStart(t.cols, 0) == 0;
    IndexRoundTrip(t, 2047);
    XYTableAt(t.cols, 0);
    PackSizeAsWrittenWraps(0);
  }

  /*** The loop of init that fills the two tables. ***/

  /** Gvec::init's index loop: a running ig over the columns, one forward entry per vector, one
      reverse entry per column. Returns the final ig (the G-vector count check). */
  method BuildIndex(cols: seq<ZColumn>) returns (fullIndex: seq<int>, byXY: map<(int, int), XYEntry>, ig: int)
    ensures fullIndex == FullIndexOf(cols) && byXY == XYTable(cols)
    ensures ig == SumBy(cols, ColumnSize) && ig == |fullIndex|
  {
    fullIndex := [];
    byXY := map[];
    ig := 0;
    for i := 0 to |cols|
      invariant fullIndex == FullIndexUpTo(cols, i) && byXY == XYTableUpTo(cols, i)
      invariant ig == ColumnStart(cols, i)
    {
      // the column's first full index, and its size and number packed into one entry
      byXY := byXY[XY(cols[i]) := XYEntry(ig, PackSize(|cols[i].z|, i))];
      fullIndex, ig := AppendColumnEntries(fullIndex, ig, i, |cols[i].z|);
    }
    FullIndexLength(cols, |cols|);
    ColumnStartSumBy(cols, |cols|);
  }

  /** The inner loop of the index loop: the forward entries of the size vectors of column i,
      each one advancing ig. */
  method AppendColumnEntries(fullIndex: seq<int>, ig: int, i: int, size: nat) returns (fullIndex': seq<int>, ig': int)
    ensures fullIndex' == fullIndex + seq(size, j => PackFull(i, j))
    ensures ig' == ig + size
  {
    fullIndex', ig' := fullIndex, ig;
    for j := 0 to size
      invariant fullIndex' == fullIndex + seq(j, jj => PackFull(i, jj))
      invariant ig' == ig + j
    {
      fullIndex' := fullIndex' + [PackFull(i, j)];
      ig' := ig' + 1;
    }
  }
}
