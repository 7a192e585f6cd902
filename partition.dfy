/** The "fat-slab" partition of a G-vector set (class Gvec_partition in src/SDDK/gvec.hpp): the
    ranks of the set's communicator form a grid of fftSize FFT ranks by orthoSize orthogonal
    ranks; each FFT rank gathers the columns and G-vectors of the ranks in its row of the grid. */
module GvecPartition {
  import opened Seqs
  import opened Wrappers
  import opened ZColumns
  import opened GvecIndex
  import opened GvecSet

  /*** The rank grid and the rank map ***/

  /** Rank q of the set's communicator has rank grid[q].0 in the FFT communicator and rank
      grid[q].1 in the orthogonal one; two ranks never share a cell. */
  ghost predicate GridLayout(grid: seq<(int, int)>, fftSize: int, orthoSize: int)
  {
    && (forall q :: 0 <= q < |grid| ==> 0 <= grid[q].0 < fftSize && 0 <= grid[q].1 < orthoSize)
    && (forall q, q' :: 0 <= q < q' < |grid| ==> grid[q] != grid[q'])
  }

  /** The allreduce of the rank map at one cell over the first n ranks: each rank adds its own
      number to its own cell and zero everywhere else. */
  function CellSum(grid: seq<(int, int)>, cell: (int, int), n: int): int
    requires 0 <= n <= |grid|
  {
    if n == 0 then 0 else CellSum(grid, cell, n - 1) + (if grid[n - 1] == cell then n - 1 else 0)
  }

  /** rank_map_ after the allreduce: row a, column b holds the rank in cell (a, b). */
  function RankMapOf(grid: seq<(int, int)>, fftSize: nat, orthoSize: nat): (rm: seq<seq<int>>)
    ensures |rm| == fftSize && forall a :: 0 <= a < fftSize ==> |rm[a]| == orthoSize
    ensures forall a, b :: 0 <= a < fftSize && 0 <= b < orthoSize ==> rm[a][b] == CellSum(grid, (a, b), |grid|)
  {
    seq(fftSize, a => seq(orthoSize, b => CellSum(grid, (a, b), |grid|)))
  }

  /** The allreduce finds the one rank sitting in a cell. */
  lemma {:induction false} CellSumFinds(grid: seq<(int, int)>, q: int, n: int)
    requires 0 <= q < n <= |grid| && forall q1, q2 :: 0 <= q1 < q2 < |grid| ==> grid[q1] != grid[q2]
    ensures CellSum(grid, grid[q], n) == q
  {
    if q < n - 1 {
      CellSumFinds(grid, q, n - 1);
    } else {
      CellSumEmpty(grid, grid[q], n - 1);
    }
  }

  /** A cell none of the first n ranks sits in sums to 0. */
  lemma {:induction false} CellSumEmpty(grid: seq<(int, int)>, cell: (int, int), n: int)
    requires 0 <= n <= |grid| && forall q :: 0 <= q < n ==> grid[q] != cell
    ensures CellSum(grid, cell, n) == 0
  {
    if n > 0 {
      CellSumEmpty(grid, cell, n - 1);
    }
  }

  /** The cells (a, b) of row a with 0 <= b < n. */
  function RowCells(a: int, n: int): set<(int, int)>
  {
    if n <= 0 then {} else RowCells(a, n - 1) + {(a, n - 1)}
  }

  lemma {:induction false} RowCellsMembers(a: int, n: int, c: (int, int))
    ensures c in RowCells(a, n) <==> c.0 == a && 0 <= c.1 < n
  {
    if n > 0 {
      RowCellsMembers(a, n - 1, c);
    }
  }

  lemma {:induction false} RowCellsSize(a: int, n: nat)
    ensures |RowCells(a, n)| == n
  {
    if n > 0 {
      RowCellsSize(a, n - 1);
      RowCellsMembers(a, n - 1, (a, n - 1));
    }
  }

  /** The cells of the first f rows of a grid with o columns. */
  function GridCells(f: int, o: int): set<(int, int)>
  {
    if f <= 0 then {} else GridCells(f - 1, o) + RowCells(f - 1, o)
  }

  lemma {:induction false} GridCellsMembers(f: int, o: int, c: (int, int))
    ensures c in GridCells(f, o) <==> 0 <= c.0 < f && 0 <= c.1 < o
  {
    if f > 0 {
      GridCellsMembers(f - 1, o, c);
      RowCellsMembers(f - 1, o, c);
    }
  }

  lemma {:induction false} GridCellsSize(f: nat, o: nat)
    ensures |GridCells(f, o)| == f * o
  {
    if f > 0 {
      GridCellsSize(f - 1, o);
      RowCellsSize(f - 1, o);
      var top, row := GridCells(f - 1, o), RowCells(f - 1, o);
      forall c | c in top * row
        ensures false
      {
        GridCellsMembers(f - 1, o, c);
        RowCellsMembers(f - 1, o, c);
      }
      assert top * row == {};
      assert |top + row| == |top| + |row|;
      assert f * o == (f - 1) * o + o;
    }
  }

  /** The cells taken by the first n ranks. */
  function Occupied(grid: seq<(int, int)>, n: int): set<(int, int)>
    requires 0 <= n <= |grid|
  {
    if n == 0 then {} else Occupied(grid, n - 1) + {grid[n - 1]}
  }

  lemma {:induction false} OccupiedMembers(grid: seq<(int, int)>, n: int, c: (int, int))
    requires 0 <= n <= |grid|
    ensures c in Occupied(grid, n) ==> exists q :: 0 <= q < n && grid[q] == c
    ensures forall q :: 0 <= q < n && grid[q] == c ==> c in Occupied(grid, n)
  {
    if n > 0 {
      OccupiedMembers(grid, n - 1, c);
    }
  }

  lemma {:induction false} OccupiedSize(grid: seq<(int, int)>, n: int)
    requires 0 <= n <= |grid| && forall q, q' :: 0 <= q < q' < |grid| ==> grid[q] != grid[q']
    ensures |Occupied(grid, n)| == n
  {
    if n > 0 {
      OccupiedSize(grid, n - 1);
      OccupiedMembers(grid, n - 1, grid[n - 1]);
    }
  }

  /** With as many cells as ranks, every cell of the grid holds a rank. */
  lemma GridFull(grid: seq<(int, int)>, fftSize: nat, orthoSize: nat, a: int, b: int)
    requires GridLayout(grid, fftSize, orthoSize) && |grid| == fftSize * orthoSize
    requires 0 <= a < fftSize && 0 <= b < orthoSize
    ensures exists q :: 0 <= q < |grid| && grid[q] == (a, b)
  {
    var occ := Occupied(grid, |grid|);
    var all := GridCells(fftSize, orthoSize);
    OccupiedSize(grid, |grid|);
    GridCellsSize(fftSize, orthoSize);
    forall c | c in occ
      ensures c in all
    {
      OccupiedMembers(grid, |grid|, c);
      GridCellsMembers(fftSize, orthoSize, c);
    }
    assert occ * all == occ;
    assert all + occ == all;
    assert |all - occ| == 0;
    GridCellsMembers(fftSize, orthoSize, (a, b));
    assert (a, b) !in all - occ;
    OccupiedMembers(grid, |grid|, (a, b));
  }

  /** The rank map is the inverse of the grid layout: every cell names a rank that sits in it,
      and every rank is found at its own cell. */
  ghost predicate InverseOf(rm: seq<seq<int>>, grid: seq<(int, int)>)
  {
    CellsHoldRanks(rm, grid) && RanksAtCells(rm, grid)
  }

  ghost predicate CellsHoldRanks(rm: seq<seq<int>>, grid: seq<(int, int)>)
  {
    forall a, b :: 0 <= a < |rm| && 0 <= b < |rm[a]| ==>
      0 <= rm[a][b] < |grid| && grid[rm[a][b]].0 == a && grid[rm[a][b]].1 == b
  }

  ghost predicate RanksAtCells(rm: seq<seq<int>>, grid: seq<(int, int)>)
  {
    forall q :: 0 <= q < |grid| ==>
      0 <= grid[q].0 < |rm| && 0 <= grid[q].1 < |rm[grid[q].0]| && rm[grid[q].0][grid[q].1] == q
  }

  /** With as many cells as ranks, the allreduce builds the inverse of the grid layout. */
  lemma RankMapInverse(grid: seq<(int, int)>, fftSize: nat, orthoSize: nat)
    requires GridLayout(grid, fftSize, orthoSize) && |grid| == fftSize * orthoSize
    ensures InverseOf(RankMapOf(grid, fftSize, orthoSize), grid)
  {
    RankMapCells(grid, fftSize, orthoSize);
    RankMapRanks(grid, fftSize, orthoSize);
  }

  lemma RankMapCells(grid: seq<(int, int)>, fftSize: nat, orthoSize: nat)
    requires GridLayout(grid, fftSize, orthoSize) && |grid| == fftSize * orthoSize
    ensures CellsHoldRanks(RankMapOf(grid, fftSize, orthoSize), grid)
  {
    var rm := RankMapOf(grid, fftSize, orthoSize);
    forall a, b | 0 <= a < |rm| && 0 <= b < |rm[a]|
      ensures 0 <= rm[a][b] < |grid| && grid[rm[a][b]].0 == a && grid[rm[a][b]].1 == b
    {
      CellHolder(grid, fftSize, orthoSize, a, b);
    }
  }

  lemma RankMapRanks(grid: seq<(int, int)>, fftSize: nat, orthoSize: nat)
    requires GridLayout(grid, fftSize, orthoSize)
    ensures RanksAtCells(RankMapOf(grid, fftSize, orthoSize), grid)
  {
    var rm := RankMapOf(grid, fftSize, orthoSize);
    forall q | 0 <= q < |grid|
      ensures 0 <= grid[q].0 < |rm| && 0 <= grid[q].1 < |rm[grid[q].0]| && rm[grid[q].0][grid[q].1] == q
    {
      CellSumFinds(grid, q, |grid|);
    }
  }

  lemma CellHolder(grid: seq<(int, int)>, fftSize: nat, orthoSize: nat, a: int, b: int)
    requires GridLayout(grid, fftSize, orthoSize) && |grid| == fftSize * orthoSize
    requires 0 <= a < fftSize && 0 <= b < orthoSize
    ensures 0 <= CellSum(grid, (a, b), |grid|) < |grid| && grid[CellSum(grid, (a, b), |grid|)] == (a, b)
  {
    GridFull(grid, fftSize, orthoSize, a, b);
    var q :| 0 <= q < |grid| && grid[q] == (a, b);
    CellSumFinds(grid, q, |grid|);
  }

  /** Every rank of the communicator appears exactly once in the rank map. */
  ghost predicate EachRankOnce(rm: seq<seq<int>>, p: int)
  {
    p >= 0 && RanksIn(rm, p) && multiset(Flatten(rm)) == multiset(Range(0, p))
  }

  /** Every entry of a row of the rank map is a rank of the set's communicator. */
  ghost predicate RowIn(row: seq<int>, p: int)
  {
    forall b :: 0 <= b < |row| ==> 0 <= row[b] < p
  }

  ghost predicate RanksIn(rm: seq<seq<int>>, p: int)
  {
    forall a :: 0 <= a < |rm| ==> RowIn(rm[a], p)
  }

  /** The inverse of a grid layout lists every rank exactly once. */
  lemma InverseOnce(rm: seq<seq<int>>, grid: seq<(int, int)>)
    requires InverseOf(rm, grid)
    ensures EachRankOnce(rm, |grid|)
  {
    forall v
      ensures multiset(Flatten(rm))[v] == multiset(Range(0, |grid|))[v]
    {
      RangeCount(0, |grid|, v);
      var a0 := if 0 <= v < |grid| then grid[v].0 else |rm|;
      forall a | 0 <= a < |rm|
        ensures multiset(rm[a])[v] == if a == a0 then 1 else 0
      {
        RowHits(rm, grid, a, v);
      }
      FlattenOnce(rm, v, a0);
    }
    assert multiset(Flatten(rm)) == multiset(Range(0, |grid|));
  }

  /** Rank v appears in row a of the rank map once if it sits in that row of the grid, and
      otherwise not at all. */
  lemma RowHits(rm: seq<seq<int>>, grid: seq<(int, int)>, a: int, v: int)
    requires InverseOf(rm, grid) && 0 <= a < |rm|
    ensures multiset(rm[a])[v] == if 0 <= v < |grid| && grid[v].0 == a then 1 else 0
  {
    var row := rm[a];
    forall b | 0 <= b < |row| && row[b] == v
      ensures 0 <= v < |grid| && grid[v].0 == a && grid[v].1 == b
    {
    }
    if 0 <= v < |grid| && grid[v].0 == a {
      CountOnce(row, v, grid[v].1);
    } else {
      assert v !in row;
    }
  }

  /*** The FFT distribution (build_fft_distr) ***/

  /** The counts of the ranks in a row of the rank map, in row order. */
  function RowCounts(counts: seq<int>, row: seq<int>): (c: seq<int>)
    requires RowIn(row, |counts|)
    ensures |c| == |row| && forall b :: 0 <= b < |row| ==> c[b] == counts[row[b]]
  {
    seq(|row|, b requires 0 <= b < |row| => counts[row[b]])
  }

  /** The counts of the first n ranks of a row added up. */
  function RowSum(counts: seq<int>, row: seq<int>, n: int): int
    requires RowIn(row, |counts|) && 0 <= n <= |row|
  {
    if n == 0 then 0 else RowSum(counts, row, n - 1) + counts[row[n - 1]]
  }

  /** The row sums of the first a FFT ranks added up. */
  function FftSum(counts: seq<int>, rm: seq<seq<int>>, a: int): int
    requires RanksIn(rm, |counts|) && 0 <= a <= |rm|
  {
    if a == 0 then 0 else FftSum(counts, rm, a - 1) + RowSum(counts, rm[a - 1], |rm[a - 1]|)
  }

  /** The row sum is the sum of the row's counts. */
  lemma {:induction false} RowSumCounts(counts: seq<int>, row: seq<int>, n: int)
    requires RowIn(row, |counts|) && 0 <= n <= |row|
    ensures PrefixSum(RowCounts(counts, row), n) == RowSum(counts, row, n)
  {
    if n > 0 {
      RowSumCounts(counts, row, n - 1);
    }
  }

  /** For each FFT rank, the counts of the ranks in its row added up. */
  function FftCounts(counts: seq<int>, rm: seq<seq<int>>): (c: seq<int>)
    requires RanksIn(rm, |counts|)
    ensures |c| == |rm|
    ensures forall a :: 0 <= a < |rm| ==> c[a] == RowSum(counts, rm[a], |rm[a]|)
  {
    seq(|rm|, a requires 0 <= a < |rm| => RowSum(counts, rm[a], |rm[a]|))
  }

  /** The offset of FFT rank a is the sum of the rows before it. */
  lemma {:induction false} FftSumOffsets(counts: seq<int>, rm: seq<seq<int>>, a: int)
    requires RanksIn(rm, |counts|) && 0 <= a <= |rm|
    ensures PrefixSum(FftCounts(counts, rm), a) == FftSum(counts, rm, a)
  {
    if a > 0 {
      FftSumOffsets(counts, rm, a - 1);
    }
  }

  /** build_fft_distr: the G-vector and column counts of each FFT rank, and their offsets. */
  method BuildFftDistr(g: Gvec, rm: seq<seq<int>>)
    returns (gvecCounts: seq<int>, gvecOffsets: seq<int>, zcolCounts: seq<int>, zcolOffsets: seq<int>)
    requires Distributed(g) && RanksIn(rm, g.numRanks)
    ensures gvecCounts == FftCounts(g.gvecCounts, rm) && gvecOffsets == Offsets(gvecCounts)
    ensures zcolCounts == FftCounts(g.zcolCounts, rm) && zcolOffsets == Offsets(zcolCounts)
  {
    gvecCounts := seq(|rm|, _ => 0);
    zcolCounts := seq(|rm|, _ => 0);
    for rank := 0 to |rm|
      invariant |gvecCounts| == |zcolCounts| == |rm|
      invariant forall a :: 0 <= a < rank ==>
                  gvecCounts[a] == FftCounts(g.gvecCounts, rm)[a] && zcolCounts[a] == FftCounts(g.zcolCounts, rm)[a]
      invariant forall a :: rank <= a < |rm| ==> gvecCounts[a] == 0 && zcolCounts[a] == 0
    {
      for i := 0 to |rm[rank]|
        invariant |gvecCounts| == |zcolCounts| == |rm|
        invariant forall a :: 0 <= a < rank ==>
                    gvecCounts[a] == FftCounts(g.gvecCounts, rm)[a] && zcolCounts[a] == FftCounts(g.zcolCounts, rm)[a]
        invariant gvecCounts[rank] == RowSum(g.gvecCounts, rm[rank], i)
        invariant zcolCounts[rank] == RowSum(g.zcolCounts, rm[rank], i)
        invariant forall a :: rank < a < |rm| ==> gvecCounts[a] == 0 && zcolCounts[a] == 0
      {
        var r := rm[rank][i];
        gvecCounts := gvecCounts[rank := gvecCounts[rank] + GvecCount(g, r)];
        zcolCounts := zcolCounts[rank := zcolCounts[rank] + ZcolCount(g, r)];
      }
    }
    zcolOffsets := Offsets(zcolCounts);
    gvecOffsets := Offsets(gvecCounts);
  }

  /** The FFT counts regroup the per-rank counts: with every rank in the map exactly once,
      they add up to the same total. */
  lemma FftCountsTotal(counts: seq<int>, rm: seq<seq<int>>)
    requires EachRankOnce(rm, |counts|)
    ensures Sum(FftCounts(counts, rm)) == Sum(counts)
  {
    var f := r => if 0 <= r < |counts| then counts[r] else 0;
    var fc := FftCounts(counts, rm);
    forall a | 0 <= a < |rm|
      ensures fc[a] == SumBy(rm[a], f)
    {
      RowCountsSumBy(counts, rm[a], f, |rm[a]|);
      assert rm[a][..|rm[a]|] == rm[a];
    }
    SumByFlatten(rm, f, fc);
    SumByPermutation(Flatten(rm), Range(0, |counts|), f);
    SumByRange(counts, f, |counts|);
    PrefixSumTotal(counts);
  }

  lemma {:induction false} RowCountsSumBy(counts: seq<int>, row: seq<int>, f: int -> int, n: int)
    requires RowIn(row, |counts|) && 0 <= n <= |row|
    requires forall r :: 0 <= r < |counts| ==> f(r) == counts[r]
    ensures RowSum(counts, row, n) == SumBy(row[..n], f)
  {
    if n > 0 {
      RowCountsSumBy(counts, row, f, n - 1);
      assert row[..n][..n - 1] == row[..n - 1];
    }
  }

  lemma {:induction false} SumByRange(counts: seq<int>, f: int -> int, n: int)
    requires 0 <= n <= |counts| && forall r :: 0 <= r < |counts| ==> f(r) == counts[r]
    ensures SumBy(Range(0, n), f) == PrefixSum(counts, n)
  {
    if n > 0 {
      SumByRange(counts, f, n - 1);
      assert Range(0, n)[..n - 1] == Range(0, n - 1);
    }
  }

  /*** The column order of the fat slabs (idx_zcol_) ***/

  /** Every entry is in [0, n). */
  ghost predicate IdsIn(ids: seq<int>, n: int)
  {
    forall p :: 0 <= p < |ids| ==> 0 <= ids[p] < n
  }

  /** offsets holds the exclusive prefix sums of counts. */
  ghost predicate StartsOf(offsets: seq<int>, counts: seq<int>)
  {
    |offsets| == |counts| && forall r :: 0 <= r < |counts| ==> offsets[r] == PrefixSum(counts, r)
  }

  /** Counts that no rank has fewer than zero of. */
  ghost predicate NonNegative(counts: seq<int>)
  {
    forall r :: 0 <= r < |counts| ==> counts[r] >= 0
  }

  /** The block of rank r, given the counts of all ranks: offset(r), ..., offset(r) +
      count(r) - 1 (rank r's columns for the column counts, its G-vectors for the G-vector
      counts). */
  function RankBlock(zc: seq<int>, r: int): (cs: seq<int>)
    requires NonNegative(zc) && 0 <= r < |zc|
    ensures |cs| == zc[r]
  {
    Range(PrefixSum(zc, r), zc[r])
  }

  /** The blocks of the first n ranks of a row of the rank map, one rank after the other. */
  function RowBlocks(zc: seq<int>, row: seq<int>, n: int): (cs: seq<int>)
    requires NonNegative(zc) && RowIn(row, |zc|) && 0 <= n <= |row|
    ensures |cs| == RowSum(zc, row, n)
  {
    if n == 0 then [] else RowBlocks(zc, row, n - 1) + RankBlock(zc, row[n - 1])
  }

  /** The columns of FFT rank a: those of the ranks in its row of the grid. */
  function FftColumns(zc: seq<int>, rm: seq<seq<int>>, a: int): (cs: seq<int>)
    requires NonNegative(zc) && RanksIn(rm, |zc|) && 0 <= a < |rm|
    ensures |cs| == RowSum(zc, rm[a], |rm[a]|)
  {
    RowBlocks(zc, rm[a], |rm[a]|)
  }

  /** idx_zcol_ once the first a FFT ranks are done. */
  function ZcolOrder(zc: seq<int>, rm: seq<seq<int>>, a: int): (cs: seq<int>)
    requires NonNegative(zc) && RanksIn(rm, |zc|) && 0 <= a <= |rm|
    ensures |cs| == FftSum(zc, rm, a)
  {
    if a == 0 then [] else ZcolOrder(zc, rm, a - 1) + FftColumns(zc, rm, a - 1)
  }

  /** The loops of the constructor that fill idx_zcol_: FFT rank by FFT rank, the columns of
      each rank of its row. */
  method BuildIdxZcol(g: Gvec, rm: seq<seq<int>>, zcolCountsFft: seq<int>, zcolOffsetsFft: seq<int>)
    returns (idx: seq<int>)
    requires NonNegative(g.zcolCounts) && StartsOf(g.zcolOffsets, g.zcolCounts) && RanksIn(rm, |g.zcolCounts|)
    requires zcolCountsFft == FftCounts(g.zcolCounts, rm) && zcolOffsetsFft == Offsets(zcolCountsFft)
    ensures idx == ZcolOrder(g.zcolCounts, rm, |rm|)
  {
    var zc := g.zcolCounts;
    OffsetsPrefixSums(zcolCountsFft);
    idx := [];
    for rank := 0 to |rm|
      invariant idx == ZcolOrder(zc, rm, rank)
    {
      idx := AppendRow(zc, g.zcolOffsets, idx, rm[rank]);
      FftSumOffsets(zc, rm, rank);
      assert |idx| == zcolCountsFft[rank] + zcolOffsetsFft[rank];
    }
  }

  /** The middle loop of the constructor: appends the blocks of the ranks of one row, given
      the counts of all ranks and their offsets. */
  method AppendRow(counts: seq<int>, offsets: seq<int>, s: seq<int>, row: seq<int>) returns (s': seq<int>)
    requires NonNegative(counts) && RowIn(row, |counts|) && StartsOf(offsets, counts)
    ensures s' == s + RowBlocks(counts, row, |row|)
  {
    s' := s;
    for i := 0 to |row|
      invariant s' == s + RowBlocks(counts, row, i)
    {
      var r := row[i];
      s' := AppendRange(s', offsets[r], counts[r]);
    }
  }

  /** The innermost loop of the constructor: appends offset, ..., offset + count - 1. */
  method AppendRange(s: seq<int>, offset: int, count: int) returns (s': seq<int>)
    requires count >= 0
    ensures s' == s + Range(offset, count)
  {
    s' := s;
    for k := 0 to count
      invariant s' == s + Range(offset, k)
    {
      s' := s' + [offset + k];
    }
  }

  /** The rank whose columns include column c, searching from rank r on; -1 when none does. */
  function OwnerFrom(zc: seq<int>, c: int, r: int): (o: int)
    requires NonNegative(zc) && 0 <= r <= |zc|
    ensures o == -1 || (r <= o < |zc| && PrefixSum(zc, o) <= c < PrefixSum(zc, o + 1))
    ensures PrefixSum(zc, r) <= c < PrefixSum(zc, |zc|) ==> o != -1
    decreases |zc| - r
  {
    if r == |zc| then -1
    else if PrefixSum(zc, r) <= c < PrefixSum(zc, r + 1) then r
    else OwnerFrom(zc, c, r + 1)
  }

  /** The rank whose block holds index c, or -1 when no block does. */
  function BlockOwner(zc: seq<int>, c: int): (o: int)
    requires NonNegative(zc)
    ensures o == -1 <==> c < 0 || c >= PrefixSum(zc, |zc|)
    ensures o != -1 ==> 0 <= o < |zc| && PrefixSum(zc, o) <= c < PrefixSum(zc, o + 1)
  {
    PrefixSumGrows(zc, 0, |zc|);
    var o := OwnerFrom(zc, c, 0);
    if o == -1 then o else PrefixSumGrows(zc, 0, o); PrefixSumGrows(zc, o + 1, |zc|); o
  }

  /** Each index has a single owner: a rank whose block holds c is the owner. */
  lemma OwnerUnique(zc: seq<int>, c: int, r: int)
    requires NonNegative(zc) && 0 <= r < |zc| && PrefixSum(zc, r) <= c < PrefixSum(zc, r + 1)
    ensures BlockOwner(zc, c) == r
  {
    var o := BlockOwner(zc, c);
    PrefixSumGrows(zc, 0, r);
    PrefixSumGrows(zc, r + 1, |zc|);
    if o < r {
      PrefixSumGrows(zc, o + 1, r);
    } else if r < o {
      PrefixSumGrows(zc, r + 1, o);
    }
  }

  /** Index c occurs in rank r's block once if r owns it, and otherwise not at all. */
  lemma RankBlockCount(zc: seq<int>, r: int, c: int)
    requires NonNegative(zc) && 0 <= r < |zc|
    ensures Occ(RankBlock(zc, r), zc[r], c) == if BlockOwner(zc, c) == r then 1 else 0
  {
    RangeOcc(PrefixSum(zc, r), zc[r], c);
    if PrefixSum(zc, r) <= c < PrefixSum(zc, r + 1) {
      OwnerUnique(zc, c, r);
    }
  }

  /** Index c occurs in the blocks of a row as often as its owner occurs in the row. */
  lemma {:induction false} RowBlocksCount(zc: seq<int>, row: seq<int>, n: int, c: int)
    requires NonNegative(zc) && RowIn(row, |zc|) && 0 <= n <= |row|
    ensures var cs := RowBlocks(zc, row, n); Occ(cs, |cs|, c) == Occ(row, n, BlockOwner(zc, c))
  {
    if n > 0 {
      RowBlocksCount(zc, row, n - 1, c);
      RankBlockCount(zc, row[n - 1], c);
      OccAppend(RowBlocks(zc, row, n - 1), RankBlock(zc, row[n - 1]), zc[row[n - 1]], c);
    }
  }

  /** Column c occurs in idx_zcol_ as often as its owner occurs in the rank map. */
  lemma {:induction false} ZcolOrderCount(zc: seq<int>, rm: seq<seq<int>>, a: int, c: int)
    requires NonNegative(zc) && RanksIn(rm, |zc|) && 0 <= a <= |rm|
    ensures var cs := ZcolOrder(zc, rm, a); Occ(cs, |cs|, c) == ListsOcc(rm, a, BlockOwner(zc, c))
  {
    if a > 0 {
      ZcolOrderCount(zc, rm, a - 1, c);
      RowBlocksCount(zc, rm[a - 1], |rm[a - 1]|, c);
      OccAppend(ZcolOrder(zc, rm, a - 1), FftColumns(zc, rm, a - 1), |FftColumns(zc, rm, a - 1)|, c);
    }
  }

  /** The number of columns of all ranks together. */
  function Total(zc: seq<int>): (n: nat)
    requires NonNegative(zc)
    ensures n == PrefixSum(zc, |zc|)
  {
    PrefixSumGrows(zc, 0, |zc|);
    PrefixSum(zc, |zc|)
  }

  /** With every rank in the map once, idx_zcol_ lists every column of the set exactly once. */
  lemma ZcolOrderOnce(zc: seq<int>, rm: seq<seq<int>>)
    requires NonNegative(zc) && EachRankOnce(rm, |zc|)
    ensures multiset(ZcolOrder(zc, rm, |rm|)) == multiset(Range(0, Total(zc)))
    ensures |ZcolOrder(zc, rm, |rm|)| == Total(zc) && NoDuplicates(ZcolOrder(zc, rm, |rm|))
    ensures IdsIn(ZcolOrder(zc, rm, |rm|), Total(zc))
  {
    var order := ZcolOrder(zc, rm, |rm|);
    var n := Total(zc);
    forall c
      ensures multiset(order)[c] == multiset(Range(0, n))[c]
    {
      ColumnOnce(zc, rm, c);
    }
    assert multiset(order) == multiset(Range(0, n));
    assert |order| == |multiset(order)|;
    forall i, j | 0 <= i < j < |order|
      ensures order[i] != order[j]
    {
      if order[i] == order[j] {
        TwoPositionsCount(order, i, j);
        RangeCount(0, n, order[i]);
      }
    }
    forall p | 0 <= p < |order|
      ensures 0 <= order[p] < n
    {
      assert order[p] in multiset(order);
      RangeCount(0, n, order[p]);
    }
  }

  lemma ColumnOnce(zc: seq<int>, rm: seq<seq<int>>, c: int)
    requires NonNegative(zc) && EachRankOnce(rm, |zc|)
    ensures multiset(ZcolOrder(zc, rm, |rm|))[c] == multiset(Range(0, Total(zc)))[c]
  {
    var order := ZcolOrder(zc, rm, |rm|);
    var o := BlockOwner(zc, c);
    ZcolOrderCount(zc, rm, |rm|, c);
    ListsOccFlatten(rm, o);
    RangeCount(0, |zc|, o);
    RangeCount(0, Total(zc), c);
    OccMultiset(order, |order|, c);
    assert order[..|order|] == order;
  }

  /** The columns of FFT ranks a, ..., b - 1, in idx_zcol_ order. */
  function ZcolRest(zc: seq<int>, rm: seq<seq<int>>, a: int, b: int): seq<int>
    requires NonNegative(zc) && RanksIn(rm, |zc|) && 0 <= a <= b <= |rm|
    decreases b
  {
    if b == a then [] else ZcolRest(zc, rm, a, b - 1) + FftColumns(zc, rm, b - 1)
  }

  /** idx_zcol_ once b FFT ranks are done starts with what it held after a <= b of them. */
  lemma {:induction false} ZcolOrderSplit(zc: seq<int>, rm: seq<seq<int>>, a: int, b: int)
    requires NonNegative(zc) && RanksIn(rm, |zc|) && 0 <= a <= b <= |rm|
    ensures ZcolOrder(zc, rm, b) == ZcolOrder(zc, rm, a) + ZcolRest(zc, rm, a, b)
    decreases b
  {
    if b > a {
      ZcolOrderSplit(zc, rm, a, b - 1);
      var head, rest, last := ZcolOrder(zc, rm, a), ZcolRest(zc, rm, a, b - 1), FftColumns(zc, rm, b - 1);
      assert ZcolOrder(zc, rm, b) == (head + rest) + last;
      assert ZcolRest(zc, rm, a, b) == rest + last;
      AppendAssociative(head, rest, last);
    }
  }

  /** Block counts that are non-negative add up to non-negative FFT counts. */
  lemma FftCountsNonNegative(counts: seq<int>, rm: seq<seq<int>>)
    requires NonNegative(counts) && RanksIn(rm, |counts|)
    ensures NonNegative(FftCounts(counts, rm))
  {
    forall a | 0 <= a < |rm|
      ensures FftCounts(counts, rm)[a] >= 0
    {
      RowSumNonNegative(counts, rm[a], |rm[a]|);
    }
  }

  lemma {:induction false} RowSumNonNegative(counts: seq<int>, row: seq<int>, n: int)
    requires NonNegative(counts) && RowIn(row, |counts|) && 0 <= n <= |row|
    ensures RowSum(counts, row, n) >= 0
  {
    if n > 0 {
      RowSumNonNegative(counts, row, n - 1);
    }
  }

  /** A block of rank a ends where the blocks of the later ranks start. */
  lemma BlockBefore(counts: seq<int>, a: int, b: int)
    requires NonNegative(counts) && 0 <= a < b <= |counts|
    ensures PrefixSum(counts, a) + counts[a] <= PrefixSum(counts, b)
  {
    assert forall i :: 0 <= i < |counts| ==> counts[i] >= 0;
    PrefixSumGrows(counts, a + 1, b);
    assert PrefixSum(counts, a + 1) == PrefixSum(counts, a) + counts[a];
  }

  /*** The column offsets inside each FFT buffer (calc_offsets) ***/

  /** The number of G-vectors of column c; 0 for an id that names no column. */
  function ColumnSizeAt(cols: seq<ZColumn>, c: int): (n: int)
    ensures n >= 0
  {
    if 0 <= c < |cols| then |cols[c].z| else 0
  }

  /** The G-vectors of the columns listed at positions start, ..., start + n - 1 of ids. */
  function SizeRun(cols: seq<ZColumn>, ids: seq<int>, start: int, n: int): (s: int)
    requires 0 <= start && 0 <= n && start + n <= |ids|
  {
    if n == 0 then 0 else SizeRun(cols, ids, start, n - 1) + ColumnSizeAt(cols, ids[start + n - 1])
  }

  /** A window of ids that names the same columns as the start of ids' has the same size. */
  lemma {:induction false} SizeRunAgree(cols: seq<ZColumn>, ids: seq<int>, start: int, ids': seq<int>, n: int)
    requires 0 <= start && 0 <= n && start + n <= |ids| && n <= |ids'|
    requires forall k :: 0 <= k < n ==> ids[start + k] == ids'[k]
    ensures SizeRun(cols, ids, start, n) == SizeRun(cols, ids', 0, n)
  {
    if n > 0 {
      SizeRunAgree(cols, ids, start, ids', n - 1);
    }
  }

  /** The size of a concatenation of two lists is the sum of their sizes. */
  lemma {:induction false} SizeRunAppend(cols: seq<ZColumn>, s: seq<int>, t: seq<int>, n: int)
    requires 0 <= n <= |t|
    ensures SizeRun(cols, s + t, 0, |s| + n) == SizeRun(cols, s, 0, |s|) + SizeRun(cols, t, 0, n)
  {
    if n == 0 {
      SizeRunAgree(cols, s + t, 0, s, |s|);
    } else {
      SizeRunAppend(cols, s, t, n - 1);
      assert (s + t)[|s| + n - 1] == t[n - 1];
    }
  }

  /** The columns lo, ..., lo + n - 1 hold the G-vectors between their column starts. */
  lemma {:induction false} SizeRange(cols: seq<ZColumn>, lo: int, n: int)
    requires 0 <= lo && 0 <= n && lo + n <= |cols|
    ensures SizeRun(cols, Range(lo, n), 0, n) == ColumnStart(cols, lo + n) - ColumnStart(cols, lo)
  {
    if n > 0 {
      SizeRange(cols, lo, n - 1);
      SizeRunAppend(cols, Range(lo, n - 1), [lo + n - 1], 1);
    }
  }

  /** The column blocks of the ranks hold the G-vector counts of the ranks. */
  ghost predicate BlockSizes(cols: seq<ZColumn>, zc: seq<int>, gc: seq<int>)
  {
    && NonNegative(zc) && |gc| == |zc|
    && forall r {:trigger RankBlock(zc, r)} :: 0 <= r < |zc| ==> SizeRun(cols, RankBlock(zc, r), 0, zc[r]) == gc[r]
  }

  /** In a distributed set, rank r's columns hold its gvec_count(r) G-vectors. */
  lemma DistributedBlockSizes(g: Gvec)
    requires Distributed(g)
    ensures BlockSizes(g.cols, g.zcolCounts, g.gvecCounts)
  {
    var zc := g.zcolCounts;
    forall r | 0 <= r < |zc|
      ensures SizeRun(g.cols, RankBlock(zc, r), 0, zc[r]) == g.gvecCounts[r]
    {
      SplitPoint(g, r);
      SplitPoint(g, r + 1);
      SizeRange(g.cols, PrefixSum(zc, r), zc[r]);
    }
  }

  /** The columns of the first n ranks of a row hold the G-vector counts of those ranks. */
  lemma {:induction false} RowBlocksSize(cols: seq<ZColumn>, zc: seq<int>, gc: seq<int>, row: seq<int>, n: int)
    requires BlockSizes(cols, zc, gc) && RowIn(row, |zc|) && 0 <= n <= |row|
    ensures SizeRun(cols, RowBlocks(zc, row, n), 0, RowSum(zc, row, n)) == RowSum(gc, row, n)
  {
    if n > 0 {
      var before := RowBlocks(zc, row, n - 1);
      var r := row[n - 1];
      RowBlocksSize(cols, zc, gc, row, n - 1);
      SizeRunAppend(cols, before, RankBlock(zc, r), zc[r]);
      assert RowBlocks(zc, row, n) == before + RankBlock(zc, r);
      assert SizeRun(cols, RankBlock(zc, r), 0, zc[r]) == gc[r];
      assert SizeRun(cols, RowBlocks(zc, row, n), 0, RowSum(zc, row, n))
          == SizeRun(cols, before + RankBlock(zc, r), 0, |before| + zc[r]);
    }
  }

  /** The columns of FFT rank a hold exactly the G-vectors counted for it. */
  lemma FftColumnsFill(cols: seq<ZColumn>, zc: seq<int>, gc: seq<int>, rm: seq<seq<int>>, a: int)
    requires BlockSizes(cols, zc, gc) && RanksIn(rm, |zc|) && 0 <= a < |rm|
    ensures SizeRun(cols, FftColumns(zc, rm, a), 0, RowSum(zc, rm[a], |rm[a]|)) == RowSum(gc, rm[a], |rm[a]|)
  {
    RowBlocksSize(cols, zc, gc, rm[a], |rm[a]|);
  }

  /** The columns at positions start, ..., start + n - 1 of ids have offsets running from 0:
      each one starts after the G-vectors of the columns before it in the window. */
  ghost predicate RunFrom(cols: seq<ZColumn>, ids: seq<int>, start: int, n: int, zcolOffs: seq<int>)
  {
    && 0 <= start && 0 <= n && start + n <= |ids|
    && (forall p :: start <= p < start + n ==> 0 <= ids[p] < |zcolOffs|)
    && forall p {:trigger zcolOffs[ids[p]]} :: start <= p < start + n ==>
         zcolOffs[ids[p]] == SizeRun(cols, ids, start, p - start)
  }

  /** What calc_offsets stores: the columns of each FFT rank a, at positions offsets[a], ...,
      offsets[a] + counts[a] - 1 of ids, have offsets running from 0. */
  ghost predicate OffsetsAt(cols: seq<ZColumn>, ids: seq<int>, counts: seq<int>, offsets: seq<int>, zcolOffs: seq<int>)
  {
    && |offsets| == |counts|
    && forall a :: 0 <= a < |counts| ==> RunFrom(cols, ids, offsets[a], counts[a], zcolOffs)
  }

  /** calc_offsets: FFT rank after FFT rank, the running sum of the sizes of the rank's columns
      in idx_zcol_ order. */
  method CalcOffsets(cols: seq<ZColumn>, ids: seq<int>, counts: seq<int>, offsets: seq<int>)
    returns (zcolOffs: seq<int>)
    requires NoDuplicates(ids) && IdsIn(ids, |cols|)
    requires NonNegative(counts) && StartsOf(offsets, counts) && PrefixSum(counts, |counts|) <= |ids|
    ensures |zcolOffs| == |cols| && OffsetsAt(cols, ids, counts, offsets, zcolOffs)
  {
    zcolOffs := seq(|cols|, _ => 0);
    for rank := 0 to |counts|
      invariant |zcolOffs| == |cols|
      invariant forall a :: 0 <= a < rank ==> RunFrom(cols, ids, offsets[a], counts[a], zcolOffs)
    {
      PrefixSumGrows(counts, 0, rank);
      BlockBefore(counts, rank, |counts|);
      assert offsets[rank] == PrefixSum(counts, rank);
      ghost var prev := zcolOffs;
      zcolOffs := OffsetsOfRank(cols, ids, offsets[rank], counts[rank], zcolOffs);
      RunsKept(cols, ids, counts, offsets, prev, zcolOffs, rank);
    }
  }

  /** Entries written only at the positions of FFT rank `rank` leave the runs of the FFT
      ranks before it intact, so that with rank's own run all runs up to it hold. */
  lemma RunsKept(cols: seq<ZColumn>, ids: seq<int>, counts: seq<int>, offsets: seq<int>,
                 zcolOffs: seq<int>, zcolOffs': seq<int>, rank: int)
    requires IdsIn(ids, |zcolOffs|) && |zcolOffs'| == |zcolOffs|
    requires NonNegative(counts) && StartsOf(offsets, counts) && 0 <= rank < |counts|
    requires forall a :: 0 <= a < rank ==> RunFrom(cols, ids, offsets[a], counts[a], zcolOffs)
    requires forall p {:trigger zcolOffs'[ids[p]]} :: 0 <= p < offsets[rank] && p < |ids| ==> zcolOffs'[ids[p]] == zcolOffs[ids[p]]
    requires RunFrom(cols, ids, offsets[rank], counts[rank], zcolOffs')
    ensures forall a :: 0 <= a < rank + 1 ==> RunFrom(cols, ids, offsets[a], counts[a], zcolOffs')
  {
    forall a | 0 <= a < rank + 1
      ensures RunFrom(cols, ids, offsets[a], counts[a], zcolOffs')
    {
      if a < rank {
        BlockBefore(counts, a, rank);
        assert offsets[a] == PrefixSum(counts, a) && offsets[rank] == PrefixSum(counts, rank);
        RunKept(cols, ids, offsets[a], counts[a], zcolOffs, zcolOffs', offsets[rank]);
      } else {
        assert a == rank;
      }
    }
  }

  /** Entries written only at positions from lo on leave a window that ends before lo intact. */
  lemma RunKept(cols: seq<ZColumn>, ids: seq<int>, start: int, n: int, zcolOffs: seq<int>, zcolOffs': seq<int>, lo: int)
    requires RunFrom(cols, ids, start, n, zcolOffs) && start + n <= lo && |zcolOffs'| == |zcolOffs|
    requires IdsIn(ids, |zcolOffs|)
    requires forall p {:trigger zcolOffs'[ids[p]]} :: 0 <= p < lo && p < |ids| ==> zcolOffs'[ids[p]] == zcolOffs[ids[p]]
    ensures RunFrom(cols, ids, start, n, zcolOffs')
  {
  }

  /** The inner loop of calc_offsets for one FFT rank, whose n columns sit at positions start,
      ..., start + n - 1 of ids; the entries of the columns before them are kept. */
  method OffsetsOfRank(cols: seq<ZColumn>, ids: seq<int>, start: int, n: int, zcolOffs: seq<int>)
    returns (zcolOffs': seq<int>)
    requires NoDuplicates(ids) && IdsIn(ids, |cols|) && |zcolOffs| == |cols|
    requires 0 <= start && 0 <= n && start + n <= |ids|
    ensures |zcolOffs'| == |cols| && RunFrom(cols, ids, start, n, zcolOffs')
    ensures forall p {:trigger zcolOffs'[ids[p]]} :: 0 <= p < start ==> zcolOffs'[ids[p]] == zcolOffs[ids[p]]
  {
    zcolOffs' := zcolOffs;
    var offs := 0;
    for i := 0 to n
      invariant |zcolOffs'| == |cols| && offs == SizeRun(cols, ids, start, i)
      invariant RunFrom(cols, ids, start, i, zcolOffs')
      invariant forall p {:trigger zcolOffs'[ids[p]]} :: 0 <= p < start ==> zcolOffs'[ids[p]] == zcolOffs[ids[p]]
    {
      var icol := ids[start + i];
      zcolOffs' := zcolOffs'[icol := offs];
      offs := offs + |cols[icol].z|;
    }
  }

  /** zcol_offs_ in terms of the FFT ranks' columns: column i of FFT rank a starts after the
      G-vectors of the rank's columns before it. */
  ghost predicate RunningOffsets(cols: seq<ZColumn>, zc: seq<int>, rm: seq<seq<int>>, zcolOffs: seq<int>)
    requires NonNegative(zc) && RanksIn(rm, |zc|)
  {
    forall a :: 0 <= a < |rm| ==> RunFrom(cols, FftColumns(zc, rm, a), 0, |FftColumns(zc, rm, a)|, zcolOffs)
  }

  /** Offsets stored along idx_zcol_ are the running sums over each FFT rank's columns. */
  lemma OffsetsByColumns(cols: seq<ZColumn>, zc: seq<int>, rm: seq<seq<int>>, zcolOffs: seq<int>)
    requires NonNegative(zc) && RanksIn(rm, |zc|)
    requires OffsetsAt(cols, ZcolOrder(zc, rm, |rm|), FftCounts(zc, rm), Offsets(FftCounts(zc, rm)), zcolOffs)
    ensures RunningOffsets(cols, zc, rm, zcolOffs)
  {
    var counts := FftCounts(zc, rm);
    OffsetsPrefixSums(counts);
    forall a | 0 <= a < |rm|
      ensures RunFrom(cols, FftColumns(zc, rm, a), 0, |FftColumns(zc, rm, a)|, zcolOffs)
    {
      assert RunFrom(cols, ZcolOrder(zc, rm, |rm|), Offsets(counts)[a], counts[a], zcolOffs);
      FftSumOffsets(zc, rm, a);
      OffsetAt(cols, zc, rm, zcolOffs, a);
    }
  }

  /** One FFT rank of OffsetsByColumns: the offsets stored along FFT rank a's part of
      idx_zcol_ run along the rank's columns. */
  lemma OffsetAt(cols: seq<ZColumn>, zc: seq<int>, rm: seq<seq<int>>, zcolOffs: seq<int>, a: int)
    requires NonNegative(zc) && RanksIn(rm, |zc|) && 0 <= a < |rm|
    requires RunFrom(cols, ZcolOrder(zc, rm, |rm|), |ZcolOrder(zc, rm, a)|, |FftColumns(zc, rm, a)|, zcolOffs)
    ensures RunFrom(cols, FftColumns(zc, rm, a), 0, |FftColumns(zc, rm, a)|, zcolOffs)
  {
    ZcolOrderSplit(zc, rm, a + 1, |rm|);
    assert ZcolOrder(zc, rm, a + 1) == ZcolOrder(zc, rm, a) + FftColumns(zc, rm, a);
    RunInside(cols, ZcolOrder(zc, rm, a), FftColumns(zc, rm, a), ZcolRest(zc, rm, a + 1, |rm|), zcolOffs);
  }

  lemma AppendAssociative(s: seq<int>, t: seq<int>, u: seq<int>)
    ensures (s + t) + u == s + (t + u)
  {
  }

  /** The running offsets of the middle part of a concatenation. */
  lemma RunInside(cols: seq<ZColumn>, before: seq<int>, ids: seq<int>, after: seq<int>, zcolOffs: seq<int>)
    requires RunFrom(cols, before + ids + after, |before|, |ids|, zcolOffs)
    ensures RunFrom(cols, ids, 0, |ids|, zcolOffs)
  {
    var all := before + ids + after;
    forall k | 0 <= k < |ids|
      ensures all[|before| + k] == ids[k]
    {
    }
    RunShift(cols, all, |before|, ids, zcolOffs);
  }

  /** A window of ids that another sequence starts with has the same running offsets. */
  lemma RunShift(cols: seq<ZColumn>, ids: seq<int>, start: int, ids': seq<int>, zcolOffs: seq<int>)
    requires RunFrom(cols, ids, start, |ids'|, zcolOffs)
    requires forall k :: 0 <= k < |ids'| ==> ids[start + k] == ids'[k]
    ensures RunFrom(cols, ids', 0, |ids'|, zcolOffs)
  {
    forall p | 0 <= p < |ids'|
      ensures 0 <= ids'[p] < |zcolOffs| && zcolOffs[ids'[p]] == SizeRun(cols, ids', 0, p)
    {
      assert ids[start + p] == ids'[p];
      SizeRunAgree(cols, ids, start, ids', p);
    }
  }

  /*** The fat-slab G-vectors (idx_gvec_) and slabs (pile_gvec) ***/

  /** The G-vector counts of a distributed set are non-negative. */
  lemma GvecCountsNonNegative(g: Gvec)
    requires Distributed(g)
    ensures NonNegative(g.gvecCounts)
  {
    forall r | 0 <= r < g.numRanks
      ensures g.gvecCounts[r] >= 0
    {
      var c := GvecCount(g, r);
    }
  }

  /** The counts of a distributed set are non-negative and its offsets are their prefix sums. */
  lemma DistributedStarts(g: Gvec)
    requires Distributed(g)
    ensures NonNegative(g.zcolCounts) && StartsOf(g.zcolOffsets, g.zcolCounts)
    ensures NonNegative(g.gvecCounts) && StartsOf(g.gvecOffsets, g.gvecCounts)
  {
    GvecCountsNonNegative(g);
  }

  /** The loops of the constructor that fill idx_gvec_: the global indices of the G-vectors of
      the ranks in one row of the rank map, rank after rank. */
  method BuildIdxGvec(g: Gvec, row: seq<int>) returns (idx: seq<int>)
    requires NonNegative(g.gvecCounts) && StartsOf(g.gvecOffsets, g.gvecCounts) && RowIn(row, |g.gvecCounts|)
    ensures idx == RowBlocks(g.gvecCounts, row, |row|)
  {
    idx := AppendRow(g.gvecCounts, g.gvecOffsets, [], row);
  }

  /** A G-vector occurs in the fat slab of a row as often as its owner occurs in the row. */
  lemma IdxGvecCount(gc: seq<int>, row: seq<int>, c: int)
    requires NonNegative(gc) && RowIn(row, |gc|)
    ensures multiset(RowBlocks(gc, row, |row|))[c] == multiset(row)[BlockOwner(gc, c)]
  {
    var idx := RowBlocks(gc, row, |row|);
    RowBlocksCount(gc, row, |row|, c);
    OccMultiset(idx, |idx|, c);
    OccMultiset(row, |row|, BlockOwner(gc, c));
    assert idx[..|idx|] == idx;
    assert row[..|row|] == row;
  }

  /** pile_gvec: the G-vector counts of the slabs piled into this FFT rank's fat slab, and
      their offsets; the slabs fill the fat slab exactly. */
  method PileGvec(g: Gvec, rm: seq<seq<int>>, fftRank: int) returns (slabCounts: seq<int>, slabOffsets: seq<int>)
    requires Distributed(g) && RanksIn(rm, g.numRanks) && 0 <= fftRank < |rm| && |rm[fftRank]| > 0
    ensures slabCounts == RowCounts(g.gvecCounts, rm[fftRank]) && slabOffsets == Offsets(slabCounts)
    ensures Sum(slabCounts) == FftCounts(g.gvecCounts, rm)[fftRank]
    ensures slabOffsets[|slabCounts| - 1] + slabCounts[|slabCounts| - 1] == FftCounts(g.gvecCounts, rm)[fftRank]
  {
    var row := rm[fftRank];
    slabCounts := seq(|row|, _ => 0);
    for i := 0 to |row|
      invariant |slabCounts| == |row|
      invariant forall b :: 0 <= b < i ==> slabCounts[b] == g.gvecCounts[row[b]]
    {
      slabCounts := slabCounts[i := GvecCount(g, row[i])];
    }
    slabOffsets := Offsets(slabCounts);
    OffsetsEnd(slabCounts);
    PrefixSumTotal(slabCounts);
    RowSumCounts(g.gvecCounts, row, |row|);
  }

  /*** The constructor ***/

  /** The data members of Gvec_partition; fftRank is this rank's rank in the FFT communicator. */
  datatype Partition = Partition(
    fftSize: nat, orthoSize: nat, fftRank: int, rankMap: seq<seq<int>>,
    gvecCountsFft: seq<int>, gvecOffsetsFft: seq<int>, zcolCountsFft: seq<int>, zcolOffsetsFft: seq<int>,
    idxZcol: seq<int>, zcolOffs: seq<int>, idxGvec: seq<int>, slabCounts: seq<int>, slabOffsets: seq<int>)

  /** What the constructor builds for the set g with its ranks laid out on the grid. */
  ghost predicate PartitionOf(g: Gvec, grid: seq<(int, int)>, p: Partition)
  {
    && LayoutOf(g, grid, p.fftSize, p.orthoSize, p.rankMap, p.fftRank)
    && FftDistrOf(g, p.rankMap, p.gvecCountsFft, p.gvecOffsetsFft, p.zcolCountsFft, p.zcolOffsetsFft)
    && ZcolsOf(g, p.rankMap, p.gvecCountsFft, p.idxZcol, p.zcolOffs)
    && SlabsOf(g.gvecCounts, p.rankMap[p.fftRank], p.gvecCountsFft[p.fftRank], p.idxGvec, p.slabCounts, p.slabOffsets)
  }

  /** The rank map of the grid, and the FFT rank of this rank. */
  ghost predicate LayoutOf(g: Gvec, grid: seq<(int, int)>, fftSize: nat, orthoSize: nat, rm: seq<seq<int>>, fftRank: int)
  {
    && |g.zcolCounts| == |g.gvecCounts| == |grid| == g.numRanks && g.rank < g.numRanks
    && rm == RankMapOf(grid, fftSize, orthoSize) && InverseOf(rm, grid)
    && RanksIn(rm, g.numRanks) && EachRankOnce(rm, g.numRanks)
    && fftRank == grid[g.rank].0 && 0 <= fftRank < |rm|
  }

  /** build_fft_distr: the FFT counts and offsets, which regroup all the set's G-vectors and
      columns. */
  ghost predicate FftDistrOf(g: Gvec, rm: seq<seq<int>>, gvecCountsFft: seq<int>, gvecOffsetsFft: seq<int>,
                             zcolCountsFft: seq<int>, zcolOffsetsFft: seq<int>)
    requires RanksIn(rm, |g.zcolCounts|) && |g.gvecCounts| == |g.zcolCounts|
  {
    && gvecCountsFft == FftCounts(g.gvecCounts, rm) && gvecOffsetsFft == Offsets(gvecCountsFft)
    && zcolCountsFft == FftCounts(g.zcolCounts, rm) && zcolOffsetsFft == Offsets(zcolCountsFft)
    && Sum(gvecCountsFft) == Sum(g.gvecCounts) && Sum(zcolCountsFft) == |g.cols|
  }

  /** idx_zcol_ holds every column once, grouped by FFT rank, and calc_offsets has stored the
      running offsets along each FFT rank's columns, which hold that rank's G-vectors. */
  ghost predicate ZcolsOf(g: Gvec, rm: seq<seq<int>>, gvecCountsFft: seq<int>, idxZcol: seq<int>, zcolOffs: seq<int>)
    requires RanksIn(rm, |g.zcolCounts|) && |gvecCountsFft| == |rm|
  {
    var zc := g.zcolCounts;
    && NonNegative(zc) && idxZcol == ZcolOrder(zc, rm, |rm|)
    && multiset(idxZcol) == multiset(Range(0, |g.cols|))
    && RunningOffsets(g.cols, zc, rm, zcolOffs)
    && (forall a :: 0 <= a < |rm| ==> SizeRun(g.cols, FftColumns(zc, rm, a), 0, |FftColumns(zc, rm, a)|) == gvecCountsFft[a])
  }

  /** idx_gvec_ and pile_gvec for this rank's row of the rank map, whose fat slab holds
      gvecCount G-vectors. */
  ghost predicate SlabsOf(gc: seq<int>, row: seq<int>, gvecCount: int, idxGvec: seq<int>, slabCounts: seq<int>, slabOffsets: seq<int>)
    requires RowIn(row, |gc|)
  {
    && NonNegative(gc) && idxGvec == RowBlocks(gc, row, |row|)
    && slabCounts == RowCounts(gc, row) && slabOffsets == Offsets(slabCounts)
    && Sum(slabCounts) == gvecCount
  }

  /** The Gvec_partition constructor: it stops unless the FFT and orthogonal communicators
      tile the set's communicator. */
  method NewPartition(g: Gvec, grid: seq<(int, int)>, fftSize: nat, orthoSize: nat) returns (r: Result<Partition, string>)
    requires Distributed(g) && |grid| == g.numRanks && GridLayout(grid, fftSize, orthoSize)
    ensures r.Failure? <==> fftSize * orthoSize != g.numRanks
    ensures r.Failure? ==> r.error == "wrong size of communicators"
    ensures r.Success? ==> r.value.fftSize == fftSize && r.value.orthoSize == orthoSize && PartitionOf(g, grid, r.value)
  {
    if fftSize * orthoSize != g.numRanks {
      return Failure("wrong size of communicators");
    }
    var p := BuildPartition(g, grid, fftSize, orthoSize);
    r := Success(p);
    assert r.value == p;
  }

  /** The body of the constructor once the communicators are known to tile the set's one. */
  method BuildPartition(g: Gvec, grid: seq<(int, int)>, fftSize: nat, orthoSize: nat) returns (p: Partition)
    requires Distributed(g) && |grid| == g.numRanks && GridLayout(grid, fftSize, orthoSize)
    requires fftSize * orthoSize == g.numRanks
    ensures p.fftSize == fftSize && p.orthoSize == orthoSize && PartitionOf(g, grid, p)
  {
    var rm, fftRank := RankLayout(g, grid, fftSize, orthoSize);
    var gvecCountsFft, gvecOffsetsFft, zcolCountsFft, zcolOffsetsFft := FftDistr(g, rm);
    var idxZcol, zcolOffs := Zcols(g, rm, gvecCountsFft, zcolCountsFft, zcolOffsetsFft);
    var idxGvec, slabCounts, slabOffsets := Slabs(g, rm, fftRank, gvecCountsFft);
    p := Partition(fftSize, orthoSize, fftRank, rm, gvecCountsFft, gvecOffsetsFft, zcolCountsFft,
                   zcolOffsetsFft, idxZcol, zcolOffs, idxGvec, slabCounts, slabOffsets);
  }

  /** The rank map (gathered by the allreduce) and this rank's FFT rank. */
  method RankLayout(g: Gvec, grid: seq<(int, int)>, fftSize: nat, orthoSize: nat) returns (rm: seq<seq<int>>, fftRank: int)
    requires Distributed(g) && |grid| == g.numRanks && GridLayout(grid, fftSize, orthoSize)
    requires fftSize * orthoSize == g.numRanks
    ensures LayoutOf(g, grid, fftSize, orthoSize, rm, fftRank) && |rm[fftRank]| > 0
  {
    rm := RankMapOf(grid, fftSize, orthoSize);
    RankMapInverse(grid, fftSize, orthoSize);
    InverseOnce(rm, grid);
    fftRank := grid[g.rank].0;
    assert RanksAtCells(rm, grid);
    assert 0 <= fftRank < |rm| && 0 <= grid[g.rank].1 < |rm[fftRank]|;
  }

  /** build_fft_distr in the constructor, with the totals it preserves. */
  method FftDistr(g: Gvec, rm: seq<seq<int>>)
    returns (gvecCountsFft: seq<int>, gvecOffsetsFft: seq<int>, zcolCountsFft: seq<int>, zcolOffsetsFft: seq<int>)
    requires Distributed(g) && EachRankOnce(rm, g.numRanks)
    ensures FftDistrOf(g, rm, gvecCountsFft, gvecOffsetsFft, zcolCountsFft, zcolOffsetsFft)
  {
    gvecCountsFft, gvecOffsetsFft, zcolCountsFft, zcolOffsetsFft := BuildFftDistr(g, rm);
    FftCountsTotal(g.gvecCounts, rm);
    FftCountsTotal(g.zcolCounts, rm);
    PrefixSumTotal(g.zcolCounts);
  }

  /** The loops that fill idx_zcol_, then calc_offsets. */
  method Zcols(g: Gvec, rm: seq<seq<int>>, gvecCountsFft: seq<int>, zcolCountsFft: seq<int>, zcolOffsetsFft: seq<int>)
    returns (idxZcol: seq<int>, zcolOffs: seq<int>)
    requires Distributed(g) && EachRankOnce(rm, g.numRanks)
    requires gvecCountsFft == FftCounts(g.gvecCounts, rm)
    requires zcolCountsFft == FftCounts(g.zcolCounts, rm) && zcolOffsetsFft == Offsets(zcolCountsFft)
    ensures ZcolsOf(g, rm, gvecCountsFft, idxZcol, zcolOffs)
  {
    DistributedStarts(g);
    idxZcol := BuildIdxZcol(g, rm, zcolCountsFft, zcolOffsetsFft);
    zcolOffs := CalcZcolOffs(g, rm, idxZcol, zcolCountsFft, zcolOffsetsFft);
    ZcolOrderOnce(g.zcolCounts, rm);
    assert Total(g.zcolCounts) == |g.cols|;
    ColumnsHoldGvecs(g, rm);
  }

  /** The loops that fill idx_gvec_ for this rank's row, then pile_gvec. */
  method Slabs(g: Gvec, rm: seq<seq<int>>, fftRank: int, gvecCountsFft: seq<int>)
    returns (idxGvec: seq<int>, slabCounts: seq<int>, slabOffsets: seq<int>)
    requires Distributed(g) && RanksIn(rm, g.numRanks) && 0 <= fftRank < |rm| && |rm[fftRank]| > 0
    requires gvecCountsFft == FftCounts(g.gvecCounts, rm)
    ensures SlabsOf(g.gvecCounts, rm[fftRank], gvecCountsFft[fftRank], idxGvec, slabCounts, slabOffsets)
  {
    DistributedStarts(g);
    idxGvec := BuildIdxGvec(g, rm[fftRank]);
    slabCounts, slabOffsets := PileGvec(g, rm, fftRank);
  }

  /** The call of calc_offsets in the constructor, on idx_zcol_ and the FFT column counts. */
  method CalcZcolOffs(g: Gvec, rm: seq<seq<int>>, idxZcol: seq<int>, zcolCountsFft: seq<int>, zcolOffsetsFft: seq<int>)
    returns (zcolOffs: seq<int>)
    requires Distributed(g) && EachRankOnce(rm, g.numRanks)
    requires NonNegative(g.zcolCounts) && idxZcol == ZcolOrder(g.zcolCounts, rm, |rm|)
    requires zcolCountsFft == FftCounts(g.zcolCounts, rm) && zcolOffsetsFft == Offsets(zcolCountsFft)
    ensures |zcolOffs| == |g.cols| && RunningOffsets(g.cols, g.zcolCounts, rm, zcolOffs)
  {
    var zc := g.zcolCounts;
    ZcolOrderOnce(zc, rm);
    assert Total(zc) == |g.cols|;
    FftCountsNonNegative(zc, rm);
    OffsetsPrefixSums(zcolCountsFft);
    FftSumOffsets(zc, rm, |rm|);
    assert PrefixSum(zcolCountsFft, |zcolCountsFft|) == |idxZcol|;
    zcolOffs := CalcOffsets(g.cols, idxZcol, zcolCountsFft, zcolOffsetsFft);
    OffsetsByColumns(g.cols, zc, rm, zcolOffs);
  }

  /** Each FFT rank's columns hold its G-vectors. */
  lemma ColumnsHoldGvecs(g: Gvec, rm: seq<seq<int>>)
    requires Distributed(g) && RanksIn(rm, g.numRanks)
    ensures NonNegative(g.zcolCounts)
    ensures forall a :: 0 <= a < |rm| ==>
              SizeRun(g.cols, FftColumns(g.zcolCounts, rm, a), 0, |FftColumns(g.zcolCounts, rm, a)|) == FftCounts(g.gvecCounts, rm)[a]
  {
    DistributedBlockSizes(g);
    forall a | 0 <= a < |rm|
      ensures SizeRun(g.cols, FftColumns(g.zcolCounts, rm, a), 0, |FftColumns(g.zcolCounts, rm, a)|) == FftCounts(g.gvecCounts, rm)[a]
    {
      FftColumnsFill(g.cols, g.zcolCounts, g.gvecCounts, rm, a);
    }
  }
}
