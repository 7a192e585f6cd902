/** Distribution of z-columns between the P ranks of the communicator
    (Gvec::distribute_z_columns in src/SDDK/gvec.hpp). */
module Distribution {
  import opened Seqs
  import opened ZColumns
  import opened Wrappers

  /** Per-rank column lists and G-vector tallies, the pool of ranks still free in the current
      greedy round, and (for the proofs) the ranks chosen round by round. */
  datatype DistState = DistState(buckets: seq<seq<ZColumn>>, gvecCounts: seq<int>, pool: seq<int>,
                                 rounds: seq<seq<int>>)

  ghost predicate WfState(p: nat, st: DistState)
  {
    && |st.buckets| == p && |st.gvecCounts| == p
    && (forall k :: 0 <= k < |st.pool| ==> 0 <= st.pool[k] < p)
  }

  /** The ranks 0, 1, ..., p-1 (std::iota). */
  function Iota(p: nat): (rs: seq<int>)
    ensures |rs| == p && forall k :: 0 <= k < p ==> rs[k] == k
  {
    seq(p, k => k)
  }

  /** The G-vector tally of rank r (zero for a number that names no rank). */
  function Tally(counts: seq<int>, r: int): int
  {
    if 0 <= r < |counts| then counts[r] else 0
  }

  /** std::min_element over the pool with the tally as key: the first position whose tally is
      smallest. */
  function FirstMinIndex(pool: seq<int>, counts: seq<int>): (k: int)
    requires |pool| > 0
    ensures 0 <= k < |pool|
  {
    if |pool| == 1 then 0
    else
      var n := |pool| - 1;
      var k := FirstMinIndex(pool[..n], counts);
      if Tally(counts, pool[n]) < Tally(counts, pool[k]) then n else k
  }

  /** FirstMinIndex finds a smallest tally, and no earlier position has one as small. */
  lemma {:induction false} FirstMinIndexIsFirstMin(pool: seq<int>, counts: seq<int>)
    requires |pool| > 0
    ensures var k := FirstMinIndex(pool, counts);
            && (forall j :: 0 <= j < |pool| ==> Tally(counts, pool[k]) <= Tally(counts, pool[j]))
            && (forall j :: 0 <= j < k ==> Tally(counts, pool[j]) > Tally(counts, pool[k]))
    decreases |pool|
  {
    if |pool| > 1 {
      var n := |pool| - 1;
      FirstMinIndexIsFirstMin(pool[..n], counts);
      var k := FirstMinIndex(pool[..n], counts);
      assert forall j :: 0 <= j < n ==> pool[..n][j] == pool[j];
    }
  }

  /** The pool the next step chooses from: the current one, or all ranks when it is empty. */
  function Refilled(p: nat, st: DistState): seq<int>
  {
    if |st.pool| == 0 then Iota(p) else st.pool
  }

  /** Position, in the refilled pool, of the rank the next step gives its column to. */
  function PickedAt(p: nat, st: DistState): (k: int)
    requires p >= 1
    ensures 0 <= k < |Refilled(p, st)|
  {
    FirstMinIndex(Refilled(p, st), st.gvecCounts)
  }

  /** The rank the next step gives its column to. */
  function Picked(p: nat, st: DistState): int
    requires p >= 1
  {
    Refilled(p, st)[PickedAt(p, st)]
  }

  /** Column list r with c appended. */
  function AppendTo(bs: seq<seq<ZColumn>>, r: int, c: ZColumn): (bs': seq<seq<ZColumn>>)
    ensures |bs'| == |bs|
    ensures 0 <= r < |bs| ==> bs' == bs[r := bs[r] + [c]]
    ensures forall q :: 0 <= q < |bs| ==> bs'[q] == if q == r then bs[q] + [c] else bs[q]
  {
    if 0 <= r < |bs| then bs[r := bs[r] + [c]] else bs
  }

  /** Tally r increased by d. */
  function AddTo(counts: seq<int>, r: int, d: int): (counts': seq<int>)
    ensures |counts'| == |counts|
    ensures 0 <= r < |counts| ==> counts' == counts[r := counts[r] + d]
    ensures forall q :: 0 <= q < |counts| ==> counts'[q] == if q == r then counts[q] + d else counts[q]
  {
    if 0 <= r < |counts| then counts[r := counts[r] + d] else counts
  }

  /** One iteration of the greedy loop: refill an empty pool with all ranks, give the column to
      the pool rank with the fewest G-vectors, and take that rank out of the pool. */
  function GreedyStep(p: nat, st: DistState, c: ZColumn): DistState
    requires p >= 1
  {
    DistState(AppendTo(st.buckets, Picked(p, st), c),
              AddTo(st.gvecCounts, Picked(p, st), |c.z|),
              PoolAfter(p, st),
              RoundsAfter(p, st))
  }

  /** The pool after a step: the refilled pool without the rank picked. */
  function PoolAfter(p: nat, st: DistState): seq<int>
    requires p >= 1
  {
    var pool := Refilled(p, st);
    var k := PickedAt(p, st);
    pool[..k] + pool[k + 1..]
  }

  /** The rounds after a step: the rank picked opens a new round when the pool was refilled,
      and joins the current round otherwise. */
  function RoundsAfter(p: nat, st: DistState): seq<seq<int>>
    requires p >= 1
  {
    if |st.pool| == 0 || |st.rounds| == 0 then st.rounds + [[Picked(p, st)]]
    else st.rounds[..|st.rounds| - 1] + [Last(st.rounds) + [Picked(p, st)]]
  }

  function Last<T>(s: seq<seq<T>>): seq<T>
  {
    if |s| == 0 then [] else s[|s| - 1]
  }

  /** The greedy loop over the columns cs, starting from st. */
  function Greedy(p: nat, st: DistState, cs: seq<ZColumn>): DistState
    requires p >= 1
    decreases |cs|
  {
    if |cs| == 0 then st else Greedy(p, GreedyStep(p, st, cs[0]), cs[1..])
  }

  /** The greedy loop over cols[i..] is one step on cols[i] followed by the loop over
      cols[i + 1..]. */
  lemma GreedyFirst(p: nat, st: DistState, cols: seq<ZColumn>, i: int)
    requires p >= 1 && 0 <= i < |cols|
    ensures Greedy(p, st, cols[i..]) == Greedy(p, GreedyStep(p, st, cols[i]), cols[i + 1..])
  {
    assert cols[i..][1..] == cols[i + 1..];
  }

  /** A greedy step keeps the list and tally arrays' length and only ever picks real ranks. */
  lemma StepWf(p: nat, st: DistState, c: ZColumn)
    requires p >= 1 && WfState(p, st)
    ensures 0 <= Picked(p, st) < p
    ensures WfState(p, GreedyStep(p, st, c))
  {
    var pool := Refilled(p, st);
    var k := PickedAt(p, st);
    var rest := pool[..k] + pool[k + 1..];
    forall j | 0 <= j < |rest| ensures 0 <= rest[j] < p {
      if j < k { assert rest[j] == pool[j]; }
      else { assert rest[j] == pool[j + 1]; }
    }
  }

  lemma {:induction false} GreedyWf(p: nat, st: DistState, cs: seq<ZColumn>)
    requires p >= 1 && WfState(p, st)
    ensures WfState(p, Greedy(p, st, cs))
    decreases |cs|
  {
    if |cs| > 0 {
      StepWf(p, st, cs[0]);
      GreedyWf(p, GreedyStep(p, st, cs[0]), cs[1..]);
    }
  }

  /** The base set's distribution: rank r gets the base's columns
      [zcol_offset(r), zcol_offset(r) + zcol_count(r)). */
  ghost predicate BaseCountsFit(p: nat, cols: seq<ZColumn>, baseCounts: seq<int>)
  {
    |baseCounts| == p && (forall r :: 0 <= r < p ==> baseCounts[r] >= 0) && Sum(baseCounts) <= |cols|
  }

  function BaseSlice(cols: seq<ZColumn>, baseCounts: seq<int>, r: int): (s: seq<ZColumn>)
    requires BaseCountsFit(|baseCounts|, cols, baseCounts) && 0 <= r < |baseCounts|
    ensures |s| == baseCounts[r]
  {
    OffsetsStep(baseCounts, r);
    PrefixSumMonotone(baseCounts, 0, r);
    PrefixSumMonotone(baseCounts, r + 1, |baseCounts|);
    assert baseCounts[..|baseCounts|] == baseCounts;
    cols[Offsets(baseCounts)[r]..Offsets(baseCounts)[r] + baseCounts[r]]
  }

  /** Element i of base slice r is column Offsets(baseCounts)[r] + i. */
  lemma BaseSliceAt(cols: seq<ZColumn>, baseCounts: seq<int>, r: int, i: int)
    requires BaseCountsFit(|baseCounts|, cols, baseCounts) && 0 <= r < |baseCounts| && 0 <= i < baseCounts[r]
    ensures 0 <= Offsets(baseCounts)[r] + i < |cols| && cols[Offsets(baseCounts)[r] + i] == BaseSlice(cols, baseCounts, r)[i]
  {
    OffsetsStep(baseCounts, r);
    PrefixSumMonotone(baseCounts, 0, r);
    PrefixSumMonotone(baseCounts, r + 1, |baseCounts|);
    assert baseCounts[..|baseCounts|] == baseCounts;
  }

  /** The state after the base phase (or the empty state when there is no base set). */
  function InitialState(p: nat, cols: seq<ZColumn>, baseCounts: Option<seq<int>>): (st: DistState)
    requires baseCounts.Some? ==> BaseCountsFit(p, cols, baseCounts.value)
    ensures WfState(p, st)
  {
    if baseCounts.None? then DistState(NoColumns(p), seq(p, _ => 0), [], [])
    else
      var bs := seq(p, r requires 0 <= r < p => BaseSlice(cols, baseCounts.value, r));
      DistState(bs, seq(p, r requires 0 <= r < p => SumBy(bs[r], ColumnSize)), [], [])
  }

  function BaseColumnCount(baseCounts: Option<seq<int>>): int
  {
    if baseCounts.Some? then Sum(baseCounts.value) else 0
  }

  /** The per-rank column lists and tallies distribute_z_columns ends with. */
  function Distribute(p: nat, cols: seq<ZColumn>, baseCounts: Option<seq<int>>): (st: DistState)
    requires p >= 1
    requires baseCounts.Some? ==> BaseCountsFit(p, cols, baseCounts.value)
    ensures |st.buckets| == p && |st.gvecCounts| == p
  {
    var n := BaseColumnCount(baseCounts);
    assert 0 <= n <= |cols| by {
      if baseCounts.Some? {
        SumNonNegative(baseCounts.value);
      }
    }
    GreedyWf(p, InitialState(p, cols, baseCounts), cols[n..]);
    Greedy(p, InitialState(p, cols, baseCounts), cols[n..])
  }

  /*** Accounting: every column lands in exactly one list and the tallies add up. ***/

  ghost predicate Accounts(st: DistState, seen: multiset<ZColumn>)
  {
    Balanced(st.buckets, st.gvecCounts, seen)
  }

  /** The lists hold exactly the columns seen, and each tally is the size of its list. */
  ghost predicate Balanced(bs: seq<seq<ZColumn>>, counts: seq<int>, seen: multiset<ZColumn>)
  {
    && |counts| == |bs|
    && (forall r :: 0 <= r < |bs| ==> counts[r] == SumBy(bs[r], ColumnSize))
    && multiset(Flatten(bs)) == seen
  }

  /** One greedy step appends the column to one list and adds its size to that list's tally. */
  lemma StepAccounts(p: nat, st: DistState, seen: multiset<ZColumn>, c: ZColumn)
    requires p >= 1 && WfState(p, st) && Accounts(st, seen)
    ensures Accounts(GreedyStep(p, st, c), seen + multiset{c})
  {
    StepParts(p, st, c);
    AppendBalanced(st.buckets, st.gvecCounts, seen, Picked(p, st), c);
  }

  /** A greedy step appends the column to the picked rank's list and adds its size to that
      rank's tally. */
  lemma StepParts(p: nat, st: DistState, c: ZColumn)
    requires p >= 1 && WfState(p, st)
    ensures 0 <= Picked(p, st) < p
    ensures var r := Picked(p, st);
            && GreedyStep(p, st, c).buckets == st.buckets[r := st.buckets[r] + [c]]
            && GreedyStep(p, st, c).gvecCounts == st.gvecCounts[r := st.gvecCounts[r] + |c.z|]
  {
    StepWf(p, st, c);
  }

  /** Appending a column to list r and adding its size to tally r keeps the balance. */
  lemma AppendBalanced(bs: seq<seq<ZColumn>>, counts: seq<int>, seen: multiset<ZColumn>, r: int, c: ZColumn)
    requires Balanced(bs, counts, seen) && 0 <= r < |bs|
    ensures Balanced(bs[r := bs[r] + [c]], counts[r := counts[r] + |c.z|], seen + multiset{c})
  {
    var bs', counts' := bs[r := bs[r] + [c]], counts[r := counts[r] + |c.z|];
    forall q | 0 <= q < |bs'| ensures counts'[q] == SumBy(bs'[q], ColumnSize) {
      if q == r {
        AppendTally(bs[r], c);
      }
    }
    FlattenAppendAt(bs, r, c);
  }

  lemma AppendTally(b: seq<ZColumn>, c: ZColumn)
    ensures SumBy(b + [c], ColumnSize) == SumBy(b, ColumnSize) + |c.z|
  {
    SumByAppend(b, [c], ColumnSize);
    assert [c][..0] == [];
  }

  lemma {:induction false} GreedyAccounts(p: nat, st: DistState, seen: multiset<ZColumn>, cs: seq<ZColumn>)
    requires p >= 1 && WfState(p, st) && Accounts(st, seen)
    ensures Accounts(Greedy(p, st, cs), seen + multiset(cs))
    decreases |cs|
  {
    if |cs| > 0 {
      var st', seen' := GreedyStep(p, st, cs[0]), seen + multiset{cs[0]};
      StepAccounts(p, st, seen, cs[0]);
      StepWf(p, st, cs[0]);
      GreedyAccounts(p, st', seen', cs[1..]);
      MultisetFirst(cs);
      assert seen' + multiset(cs[1..]) == seen + multiset(cs);
    }
  }

  /** The base phase hands out exactly the first Sum(baseCounts) columns, in order. */
  lemma {:induction false} BaseSlicesFlatten(p: nat, cols: seq<ZColumn>, baseCounts: seq<int>, k: int)
    requires BaseCountsFit(p, cols, baseCounts) && 0 <= k <= p
    ensures 0 <= Sum(baseCounts[..k]) <= |cols|
    ensures Flatten(seq(k, r requires 0 <= r < k => BaseSlice(cols, baseCounts, r))) == cols[..Sum(baseCounts[..k])]
    decreases k
  {
    PrefixSumMonotone(baseCounts, k, p);
    PrefixSumMonotone(baseCounts, 0, k);
    assert baseCounts[..p] == baseCounts;
    if k > 0 {
      BaseSlicesFlatten(p, cols, baseCounts, k - 1);
      var ss := seq(k, r requires 0 <= r < k => BaseSlice(cols, baseCounts, r));
      assert ss[..k - 1] == seq(k - 1, r requires 0 <= r < k - 1 => BaseSlice(cols, baseCounts, r));
      OffsetsStep(baseCounts, k - 1);
      PrefixSumMonotone(baseCounts, 0, k - 1);
      assert cols[..Sum(baseCounts[..k])] == cols[..Sum(baseCounts[..k - 1])] + ss[k - 1];
    }
  }

  lemma InitialAccounts(p: nat, cols: seq<ZColumn>, baseCounts: Option<seq<int>>)
    requires baseCounts.Some? ==> BaseCountsFit(p, cols, baseCounts.value)
    ensures 0 <= BaseColumnCount(baseCounts) <= |cols|
    ensures Accounts(InitialState(p, cols, baseCounts), multiset(cols[..BaseColumnCount(baseCounts)]))
  {
    var st := InitialState(p, cols, baseCounts);
    if baseCounts.Some? {
      SumNonNegative(baseCounts.value);
      BaseSlicesFlatten(p, cols, baseCounts.value, p);
      assert baseCounts.value[..p] == baseCounts.value;
      assert st.buckets == seq(p, r requires 0 <= r < p => BaseSlice(cols, baseCounts.value, r));
    } else {
      EmptyFlatten(p);
    }
  }

  function NoColumns(p: nat): (bs: seq<seq<ZColumn>>)
    ensures |bs| == p && forall r :: 0 <= r < p ==> bs[r] == []
  {
    seq(p, _ => [])
  }

  lemma {:induction false} EmptyFlatten(p: nat)
    ensures Flatten(NoColumns(p)) == []
    decreases p
  {
    if p > 0 {
      EmptyFlatten(p - 1);
      assert NoColumns(p)[..p - 1] == NoColumns(p - 1);
    }
  }

  /** The distribution keeps every column exactly once, each rank's tally is the size of its
      columns, and the tallies add up to num_gvec_ (the sanity check at the end of
      distribute_z_columns). */
  lemma DistributeAccounts(p: nat, cols: seq<ZColumn>, baseCounts: Option<seq<int>>)
    requires p >= 1
    requires baseCounts.Some? ==> BaseCountsFit(p, cols, baseCounts.value)
    ensures var st := Distribute(p, cols, baseCounts);
      && |st.buckets| == p && |st.gvecCounts| == p
      && multiset(Flatten(st.buckets)) == multiset(cols)
      && (forall r :: 0 <= r < p ==> st.gvecCounts[r] == SumBy(st.buckets[r], ColumnSize))
      && Sum(st.gvecCounts) == SumBy(cols, ColumnSize)
      && Sum(Lengths(st.buckets)) == |cols|
  {
    var n := BaseColumnCount(baseCounts);
    InitialAccounts(p, cols, baseCounts);
    GreedyAccounts(p, InitialState(p, cols, baseCounts), multiset(cols[..n]), cols[n..]);
    MultisetSplit(cols, n);
    GreedyWf(p, InitialState(p, cols, baseCounts), cols[n..]);
    FinalAccounts(Distribute(p, cols, baseCounts), cols);
  }

  lemma FinalAccounts(st: DistState, cols: seq<ZColumn>)
    requires Accounts(st, multiset(cols))
    ensures Sum(st.gvecCounts) == SumBy(cols, ColumnSize)
    ensures Sum(Lengths(st.buckets)) == |cols|
  {
    SumByFlatten(st.buckets, ColumnSize, st.gvecCounts);
    SumByPermutation(Flatten(st.buckets), cols, ColumnSize);
    FlattenLength(st.buckets);
    assert |multiset(Flatten(st.buckets))| == |multiset(cols)|;
  }

  /*** Base columns stay with their base rank: the greedy phase only appends. ***/

  lemma {:induction false} GreedyAppends(p: nat, st: DistState, cs: seq<ZColumn>, r: int)
    requires p >= 1 && 0 <= r < |st.buckets|
    ensures var b := Greedy(p, st, cs).buckets;
            |b| == |st.buckets| && |st.buckets[r]| <= |b[r]| && b[r][..|st.buckets[r]|] == st.buckets[r]
    decreases |cs|
  {
    if |cs| > 0 {
      var st' := GreedyStep(p, st, cs[0]);
      GreedyAppends(p, st', cs[1..], r);
      var m := |st.buckets[r]|;
      assert st'.buckets[r][..m] == st.buckets[r];
    }
  }

  /** With a base set, rank r's list starts with exactly the base columns the base set gave
      rank r. */
  lemma BaseColumnsStay(p: nat, cols: seq<ZColumn>, baseCounts: seq<int>, r: int)
    requires p >= 1 && BaseCountsFit(p, cols, baseCounts) && 0 <= r < p
    ensures var bs := Distribute(p, cols, Some(baseCounts)).buckets;
            && |bs| == p && |bs[r]| >= baseCounts[r] && bs[r][..baseCounts[r]] == BaseSlice(cols, baseCounts, r)
  {
    SumNonNegative(baseCounts);
    GreedyAppends(p, InitialState(p, cols, Some(baseCounts)), cols[Sum(baseCounts)..], r);
  }

  /** Without a base set the first column goes to rank 0: all tallies start at zero and the
      first rank of the pool wins the tie. */
  lemma FirstColumnToRankZero(p: nat, cols: seq<ZColumn>)
    requires p >= 1 && |cols| > 0
    ensures var bs := Distribute(p, cols, None).buckets;
            |bs| == p && |bs[0]| > 0 && bs[0][0] == cols[0]
  {
    var st0 := InitialState(p, cols, None);
    assert cols[0..] == cols;
    var pool := Refilled(p, st0);
    FirstMinIndexIsFirstMin(pool, st0.gvecCounts);
    var k := PickedAt(p, st0);
    assert st0.gvecCounts == seq(p, _ => 0);
    assert pool == Iota(p);
    assert Tally(st0.gvecCounts, pool[0]) == 0 == Tally(st0.gvecCounts, pool[k]);
    assert k == 0;
    StepWf(p, st0, cols[0]);
    var st1 := GreedyStep(p, st0, cols[0]);
    assert st1.buckets[0] == [cols[0]];
    GreedyAppends(p, st1, cols[1..], 0);
    GreedyWf(p, st1, cols[1..]);
  }

  /*** Greedy rounds: the pool hands every rank one column per round. ***/

  ghost predicate Distinct(s: seq<int>)
  {
    forall i, j :: 0 <= i < j < |s| ==> s[i] != s[j]
  }

  ghost predicate Ascending(s: seq<int>)
  {
    forall i, j :: 0 <= i < j < |s| ==> s[i] < s[j]
  }

  /** The round structure: each round names distinct ranks, every finished round names every
      rank, and the pool holds exactly the ranks the current round has not yet named, in
      increasing order. */
  ghost predicate RoundsInv(p: nat, st: DistState)
  {
    WfState(p, st) && RoundsOk(p, st.pool, st.rounds)
  }

  ghost predicate RoundsOk(p: nat, pool: seq<int>, rounds: seq<seq<int>>)
  {
    && Ascending(pool)
    && (|rounds| == 0 ==> |pool| == 0)
    && (forall k :: 0 <= k < |rounds| ==> Distinct(rounds[k]))
    && (forall k, r :: 0 <= k < |rounds| - 1 && 0 <= r < p ==> r in rounds[k])
    && (|rounds| > 0 ==> forall r :: 0 <= r < p ==> (r in pool <==> r !in Last(rounds)))
    && (forall k, i :: 0 <= k < |rounds| && 0 <= i < |rounds[k]| ==> 0 <= rounds[k][i] < p)
  }

  lemma RemoveKeepsAscending(pool: seq<int>, k: int)
    requires Ascending(pool) && 0 <= k < |pool|
    ensures Ascending(pool[..k] + pool[k + 1..])
    ensures forall x :: x in pool[..k] + pool[k + 1..] <==> x in pool && x != pool[k]
  {
    var q := pool[..k] + pool[k + 1..];
    forall i | 0 <= i < |q| ensures q[i] == (if i < k then pool[i] else pool[i + 1]) {
    }
    forall x | x in pool && x != pool[k] ensures x in q {
      var i :| 0 <= i < |pool| && pool[i] == x;
      if i < k { assert q[i] == x; } else { assert q[i - 1] == x; }
    }
  }

  /** The rank a greedy step picks is in the pool, has the smallest tally there, and is the
      lowest-numbered pool rank with that tally. */
  lemma StepChoice(p: nat, st: DistState)
    requires p >= 1 && Ascending(st.pool)
    ensures var pool := Refilled(p, st);
            var r := Picked(p, st);
            && r in pool
            && (forall q :: q in pool ==> Tally(st.gvecCounts, r) <= Tally(st.gvecCounts, q))
            && (forall q :: q in pool && Tally(st.gvecCounts, q) == Tally(st.gvecCounts, r) ==> r <= q)
  {
    var pool := Refilled(p, st);
    var k := PickedAt(p, st);
    var r := pool[k];
    FirstMinIndexIsFirstMin(pool, st.gvecCounts);
    assert Ascending(pool);
    forall q | q in pool ensures Tally(st.gvecCounts, r) <= Tally(st.gvecCounts, q) {
      var j :| 0 <= j < |pool| && pool[j] == q;
    }
    forall q | q in pool && Tally(st.gvecCounts, q) == Tally(st.gvecCounts, r) ensures r <= q {
      var j :| 0 <= j < |pool| && pool[j] == q;
      assert k <= j;
    }
  }

  /** One greedy step keeps the round structure. */
  lemma StepRounds(p: nat, st: DistState, c: ZColumn)
    requires p >= 1 && RoundsInv(p, st)
    ensures RoundsInv(p, GreedyStep(p, st, c))
    ensures Last(GreedyStep(p, st, c).rounds) == (if |st.pool| == 0 then [] else Last(st.rounds)) + [Picked(p, st)]
  {
    StepWf(p, st, c);
    if |st.pool| == 0 {
      RefillRounds(p, st);
    } else {
      ContinueRounds(p, st);
    }
  }

  /** A step on an empty pool opens a new round with the rank picked. */
  lemma RefillRounds(p: nat, st: DistState)
    requires p >= 1 && WfState(p, st) && RoundsOk(p, st.pool, st.rounds) && |st.pool| == 0
    ensures RoundsOk(p, PoolAfter(p, st), RoundsAfter(p, st))
    ensures Last(RoundsAfter(p, st)) == [Picked(p, st)]
  {
    var pool := Refilled(p, st);
    var k := PickedAt(p, st);
    var r := pool[k];
    var pool', rounds' := PoolAfter(p, st), RoundsAfter(p, st);
    RemoveKeepsAscending(pool, k);
    assert rounds' == st.rounds + [[r]];
    forall q | 0 <= q < p ensures q in pool { assert pool[q] == q; }
    forall q | 0 <= q < p ensures q in pool' <==> q !in Last(rounds') {
      assert pool[q] == q;
    }
    forall kk, q | 0 <= kk < |rounds'| - 1 && 0 <= q < p ensures q in rounds'[kk] {
      assert rounds'[kk] == st.rounds[kk];
      if kk == |st.rounds| - 1 {
        assert q !in st.pool;
      }
    }
    forall kk, i | 0 <= kk < |rounds'| && 0 <= i < |rounds'[kk]| ensures 0 <= rounds'[kk][i] < p {
      if kk < |st.rounds| { assert rounds'[kk] == st.rounds[kk]; }
    }
  }

  /** A step on a non-empty pool adds the rank picked to the current round. */
  lemma ContinueRounds(p: nat, st: DistState)
    requires p >= 1 && WfState(p, st) && RoundsOk(p, st.pool, st.rounds) && |st.pool| > 0
    ensures RoundsOk(p, PoolAfter(p, st), RoundsAfter(p, st))
    ensures Last(RoundsAfter(p, st)) == Last(st.rounds) + [Picked(p, st)]
  {
    var pool := st.pool;
    var k := PickedAt(p, st);
    var r := pool[k];
    var pool', rounds' := PoolAfter(p, st), RoundsAfter(p, st);
    RemoveKeepsAscending(pool, k);
    var prev := Last(st.rounds);
    assert rounds' == st.rounds[..|st.rounds| - 1] + [prev + [r]];
    var round := Last(rounds');
    assert round == prev + [r];
    assert r !in prev;
    forall q | 0 <= q < p ensures q in pool' <==> q !in round {
      assert q in round <==> q in prev || q == r;
    }
    forall kk | 0 <= kk < |rounds'| ensures Distinct(rounds'[kk]) {
      if kk < |st.rounds| - 1 { assert rounds'[kk] == st.rounds[kk]; }
    }
    forall kk, q | 0 <= kk < |rounds'| - 1 && 0 <= q < p ensures q in rounds'[kk] {
      assert rounds'[kk] == st.rounds[kk];
    }
    forall kk, i | 0 <= kk < |rounds'| && 0 <= i < |rounds'[kk]| ensures 0 <= rounds'[kk][i] < p {
      if kk < |st.rounds| - 1 { assert rounds'[kk] == st.rounds[kk]; }
      else if i < |prev| { assert rounds'[kk][i] == prev[i]; }
    }
  }

  lemma {:induction false} GreedyRounds(p: nat, st: DistState, cs: seq<ZColumn>)
    requires p >= 1 && RoundsInv(p, st)
    ensures RoundsInv(p, Greedy(p, st, cs))
    decreases |cs|
  {
    if |cs| > 0 {
      StepRounds(p, st, cs[0]);
      GreedyRounds(p, GreedyStep(p, st, cs[0]), cs[1..]);
    }
  }

  /** Every greedy round gives its columns to distinct ranks, and every round but the last
      gives one column to each of the p ranks. */
  lemma DistributeRounds(p: nat, cols: seq<ZColumn>, baseCounts: Option<seq<int>>)
    requires p >= 1
    requires baseCounts.Some? ==> BaseCountsFit(p, cols, baseCounts.value)
    ensures var rounds := Distribute(p, cols, baseCounts).rounds;
      && (forall k :: 0 <= k < |rounds| ==> Distinct(rounds[k]))
      && (forall k, r :: 0 <= k < |rounds| - 1 && 0 <= r < p ==> r in rounds[k])
      && (forall k, i :: 0 <= k < |rounds| && 0 <= i < |rounds[k]| ==> 0 <= rounds[k][i] < p)
  {
    var n := BaseColumnCount(baseCounts);
    InitialAccounts(p, cols, baseCounts);
    GreedyRounds(p, InitialState(p, cols, baseCounts), cols[n..]);
  }

  /*** The imperative code. ***/

  /** The base phase of distribute_z_columns: each rank gets its base columns, in order. */
  method AssignBase(p: nat, cols: seq<ZColumn>, bc: seq<int>)
    returns (zcols: seq<seq<ZColumn>>, zcolCounts: seq<int>, gvecCounts: seq<int>)
    requires BaseCountsFit(p, cols, bc)
    ensures zcols == InitialState(p, cols, Some(bc)).buckets
    ensures gvecCounts == InitialState(p, cols, Some(bc)).gvecCounts
    ensures zcolCounts == Lengths(zcols)
  {
    zcols := NoColumns(p);
    zcolCounts := seq(p, _ => 0);
    gvecCounts := seq(p, _ => 0);
    var offs := Offsets(bc);
    for rank := 0 to p
      invariant |zcols| == p && |gvecCounts| == p && zcolCounts == Lengths(zcols)
      invariant forall r :: 0 <= r < rank ==> zcols[r] == BaseSlice(cols, bc, r)
      invariant forall r :: rank <= r < p ==> zcols[r] == []
      invariant forall r :: 0 <= r < p ==> gvecCounts[r] == SumBy(zcols[r], ColumnSize)
    {
      zcols, zcolCounts, gvecCounts := AssignBaseRank(cols, bc, offs, rank, zcols, zcolCounts, gvecCounts);
    }
  }

  /** The inner loop of the base phase: rank `rank` gets the base columns
      [offs[rank], offs[rank] + bc[rank]), in order. */
  method AssignBaseRank(cols: seq<ZColumn>, bc: seq<int>, offs: seq<int>, rank: int,
                        zcols0: seq<seq<ZColumn>>, zcolCounts0: seq<int>, gvecCounts0: seq<int>)
    returns (zcols: seq<seq<ZColumn>>, zcolCounts: seq<int>, gvecCounts: seq<int>)
    requires BaseCountsFit(|bc|, cols, bc) && offs == Offsets(bc) && 0 <= rank < |bc|
    requires |zcols0| == |bc| && |gvecCounts0| == |bc| && zcolCounts0 == Lengths(zcols0)
    requires zcols0[rank] == [] && gvecCounts0[rank] == 0
    ensures zcols == zcols0[rank := BaseSlice(cols, bc, rank)]
    ensures gvecCounts == gvecCounts0[rank := SumBy(BaseSlice(cols, bc, rank), ColumnSize)]
    ensures zcolCounts == Lengths(zcols)
  {
    ghost var slice := BaseSlice(cols, bc, rank);
    zcols, zcolCounts, gvecCounts := zcols0, zcolCounts0, gvecCounts0;
    assert slice[..0] == [];
    for i := 0 to bc[rank]
      invariant zcols == zcols0[rank := slice[..i]]
      invariant gvecCounts == gvecCounts0[rank := SumBy(slice[..i], ColumnSize)]
      invariant zcolCounts == Lengths(zcols)
    {
      var icol := offs[rank] + i;
      BaseSliceAt(cols, bc, rank, i);
      assert slice[..i + 1] == slice[..i] + [cols[icol]];
      AppendTally(slice[..i], cols[icol]);
      zcols, zcolCounts, gvecCounts := AppendColumn(zcols, zcolCounts, gvecCounts, rank, cols[icol]);
    }
    assert slice[..bc[rank]] == slice;
  }

  /** Give column c to rank r: append it to r's list and count its G-vectors. */
  method AppendColumn(zcols: seq<seq<ZColumn>>, zcolCounts: seq<int>, gvecCounts: seq<int>, r: int, c: ZColumn)
    returns (zcols': seq<seq<ZColumn>>, zcolCounts': seq<int>, gvecCounts': seq<int>)
    requires 0 <= r < |zcols| && |gvecCounts| == |zcols| && zcolCounts == Lengths(zcols)
    ensures zcols' == zcols[r := zcols[r] + [c]]
    ensures gvecCounts' == gvecCounts[r := gvecCounts[r] + |c.z|]
    ensures zcolCounts' == Lengths(zcols')
  {
    zcols' := zcols[r := zcols[r] + [c]];
    zcolCounts' := zcolCounts[r := zcolCounts[r] + 1];
    gvecCounts' := gvecCounts[r := gvecCounts[r] + |c.z|];
  }

  /** One iteration of the greedy loop of distribute_z_columns. */
  method GreedyIteration(p: nat, zcols: seq<seq<ZColumn>>, zcolCounts: seq<int>, gvecCounts: seq<int>,
                         ranks: seq<int>, ghost rounds: seq<seq<int>>, c: ZColumn)
    returns (zcols': seq<seq<ZColumn>>, zcolCounts': seq<int>, gvecCounts': seq<int>,
             ranks': seq<int>, ghost rounds': seq<seq<int>>)
    requires p >= 1 && WfState(p, DistState(zcols, gvecCounts, ranks, rounds)) && zcolCounts == Lengths(zcols)
    ensures DistState(zcols', gvecCounts', ranks', rounds') == GreedyStep(p, DistState(zcols, gvecCounts, ranks, rounds), c)
    ensures zcolCounts' == Lengths(zcols')
  {
    ghost var st := DistState(zcols, gvecCounts, ranks, rounds);
    StepWf(p, st, c);
    var pool := ranks;
    // a new round starts with every rank available again
    if |pool| == 0 {
      pool := Iota(p);
    }
    assert pool == Refilled(p, st);
    // the lightest rank still in the pool takes the column
    var k := FirstMinIndex(pool, gvecCounts);
    var r := pool[k];
    zcols', zcolCounts', gvecCounts' := AppendColumn(zcols, zcolCounts, gvecCounts, r, c);
    // and sits out until the round ends
    ranks' := pool[..k] + pool[k + 1..];
    rounds' := if |ranks| == 0 || |rounds| == 0 then rounds + [[r]] else rounds[..|rounds| - 1] + [Last(rounds) + [r]];
  }

  /** The greedy phase of distribute_z_columns over the columns from position n on. */
  method AssignGreedy(p: nat, cols: seq<ZColumn>, n: int, zcols0: seq<seq<ZColumn>>,
                      zcolCounts0: seq<int>, gvecCounts0: seq<int>, ghost init: DistState)
    returns (zcols: seq<seq<ZColumn>>, zcolCounts: seq<int>, gvecCounts: seq<int>)
    requires p >= 1 && 0 <= n <= |cols| && WfState(p, init) && init.pool == [] && init.rounds == []
    requires zcols0 == init.buckets && gvecCounts0 == init.gvecCounts && zcolCounts0 == Lengths(zcols0)
    ensures zcols == Greedy(p, init, cols[n..]).buckets
    ensures gvecCounts == Greedy(p, init, cols[n..]).gvecCounts
    ensures zcolCounts == Lengths(zcols)
  {
    zcols := zcols0;
    zcolCounts := zcolCounts0;
    gvecCounts := gvecCounts0;
    var ranks: seq<int> := [];
    ghost var rounds: seq<seq<int>> := [];
    for i := n to |cols|
      invariant zcolCounts == Lengths(zcols)
      invariant WfState(p, DistState(zcols, gvecCounts, ranks, rounds))
      invariant Greedy(p, DistState(zcols, gvecCounts, ranks, rounds), cols[i..]) == Greedy(p, init, cols[n..])
    {
      ghost var st := DistState(zcols, gvecCounts, ranks, rounds);
      GreedyFirst(p, st, cols, i);
      StepWf(p, st, cols[i]);
      zcols, zcolCounts, gvecCounts, ranks, rounds := GreedyIteration(p, zcols, zcolCounts, gvecCounts, ranks, rounds, cols[i]);
    }
    assert cols[|cols|..] == [];
  }

  /** The new column order: the rank lists one after another. */
  method Concatenate(zcols: seq<seq<ZColumn>>) returns (newCols: seq<ZColumn>)
    ensures newCols == Flatten(zcols)
  {
    newCols := [];
    for rank := 0 to |zcols|
      invariant newCols == Flatten(zcols[..rank])
    {
      assert zcols[..rank + 1][..rank] == zcols[..rank];
      newCols := newCols + zcols[rank];
    }
    assert zcols[..|zcols|] == zcols;
  }

  /** distribute_z_columns: hand the base set's columns to their base ranks, the other columns
      greedily, then rebuild the column list rank by rank and compute the two
      block_data_descriptor count and offset arrays. */
  method DistributeZColumns(p: nat, cols: seq<ZColumn>, baseCounts: Option<seq<int>>)
    returns (newCols: seq<ZColumn>, zcolCounts: seq<int>, zcolOffsets: seq<int>,
             gvecCounts: seq<int>, gvecOffsets: seq<int>)
    requires p >= 1
    requires baseCounts.Some? ==> BaseCountsFit(p, cols, baseCounts.value)
    ensures var st := Distribute(p, cols, baseCounts);
      && newCols == Flatten(st.buckets)
      && zcolCounts == Lengths(st.buckets) && zcolOffsets == Offsets(zcolCounts)
      && gvecCounts == st.gvecCounts && gvecOffsets == Offsets(gvecCounts)
    ensures multiset(newCols) == multiset(cols)
    ensures Sum(gvecCounts) == SumBy(cols, ColumnSize)
  {
    var zcols := NoColumns(p);
    zcolCounts := seq(p, _ => 0);
    gvecCounts := seq(p, _ => 0);
    var n := 0;
    // the base set's columns keep their ranks
    if baseCounts.Some? {
      zcols, zcolCounts, gvecCounts := AssignBase(p, cols, baseCounts.value);
      SumNonNegative(baseCounts.value);
      n := Sum(baseCounts.value);
    }
    ghost var init := InitialState(p, cols, baseCounts);
    assert zcols == init.buckets && gvecCounts == init.gvecCounts && zcolCounts == Lengths(zcols);
    zcols, zcolCounts, gvecCounts := AssignGreedy(p, cols, n, zcols, zcolCounts, gvecCounts, init);
    gvecOffsets := Offsets(gvecCounts);
    zcolOffsets := Offsets(zcolCounts);
    // the columns are renumbered rank by rank
    newCols := Concatenate(zcols);
    DistributeAccounts(p, cols, baseCounts);
  }
}
