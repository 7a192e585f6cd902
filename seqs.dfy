/** Sums, prefix sums and permutation facts shared by the G-vector modules. */
module Seqs {

  /** Sum of a sequence of integers. */
  function Sum(s: seq<int>): int
  {
    if |s| == 0 then 0 else Sum(s[..|s| - 1]) + s[|s| - 1]
  }

  lemma {:induction false} SumAppend(a: seq<int>, b: seq<int>)
    ensures Sum(a + b) == Sum(a) + Sum(b)
    decreases |b|
  {
    if |b| == 0 {
      assert a + b == a;
    } else {
      assert (a + b)[..|a + b| - 1] == a + b[..|b| - 1];
      SumAppend(a, b[..|b| - 1]);
    }
  }

  lemma {:induction false} SumNonNegative(s: seq<int>)
    requires forall i :: 0 <= i < |s| ==> s[i] >= 0
    ensures Sum(s) >= 0
    decreases |s|
  {
    if |s| > 0 {
      SumNonNegative(s[..|s| - 1]);
    }
  }

  /** Sum of f over the elements of s. */
  function SumBy<T>(s: seq<T>, f: T -> int): int
  {
    if |s| == 0 then 0 else SumBy(s[..|s| - 1], f) + f(s[|s| - 1])
  }

  lemma {:induction false} SumByAppend<T>(a: seq<T>, b: seq<T>, f: T -> int)
    ensures SumBy(a + b, f) == SumBy(a, f) + SumBy(b, f)
    decreases |b|
  {
    if |b| == 0 {
      assert a + b == a;
    } else {
      assert (a + b)[..|a + b| - 1] == a + b[..|b| - 1];
      SumByAppend(a, b[..|b| - 1], f);
    }
  }

  lemma MultisetSplit<T>(s: seq<T>, n: int)
    requires 0 <= n <= |s|
    ensures multiset(s[..n]) + multiset(s[n..]) == multiset(s)
  {
    assert s[..n] + s[n..] == s;
  }

  /** Taking one element out of a list takes it out of the multiset. */
  lemma MultisetRemove<T>(b: seq<T>, k: int)
    requires 0 <= k < |b|
    ensures multiset(b[..k] + b[k + 1..]) == multiset(b) - multiset{b[k]}
  {
    assert b == b[..k] + [b[k]] + b[k + 1..];
    assert multiset(b) == multiset(b[..k]) + multiset{b[k]} + multiset(b[k + 1..]);
  }

  /** Taking one element out of a list takes its value out of the sum. */
  lemma {:induction false} SumByRemove<T>(b: seq<T>, k: int, f: T -> int)
    requires 0 <= k < |b|
    ensures SumBy(b, f) == SumBy(b[..k] + b[k + 1..], f) + f(b[k])
    decreases |b|
  {
    var n := |b| - 1;
    var rest := b[..k] + b[k + 1..];
    if k == n {
      assert rest == b[..n];
    } else {
      var init := b[..n];
      SumByRemove(init, k, f);
      assert rest[..|rest| - 1] == init[..k] + init[k + 1..];
      assert rest[|rest| - 1] == b[n];
    }
  }

  lemma SumBySingle<T>(x: T, f: T -> int)
    ensures SumBy([x], f) == f(x)
  {
    assert [x][..0] == [];
  }

  /** Reordering the elements does not change the sum. */
  lemma {:induction false} SumByPermutation<T>(a: seq<T>, b: seq<T>, f: T -> int)
    requires multiset(a) == multiset(b)
    ensures SumBy(a, f) == SumBy(b, f)
    decreases |a|
  {
    if |a| == 0 {
      assert |b| == |multiset(b)| == 0;
    } else {
      var n := |a| - 1;
      var x := a[n];
      assert a == a[..n] + [x];
      assert x in multiset(b);
      var k :| 0 <= k < |b| && b[k] == x;
      MultisetRemove(b, k);
      assert multiset(a) == multiset(a[..n]) + multiset{x};
      SumByPermutation(a[..n], b[..k] + b[k + 1..], f);
      SumByRemove(b, k, f);
      SumByAppend(a[..n], [x], f);
      SumBySingle(x, f);
    }
  }

  /** Exclusive prefix sums: what block_data_descriptor::calc_offsets stores in `offsets`. */
  function Offsets(counts: seq<int>): (offs: seq<int>)
    ensures |offs| == |counts|
    ensures forall r :: 0 <= r < |counts| ==> offs[r] == Sum(counts[..r])
  {
    seq(|counts|, r requires 0 <= r < |counts| => Sum(counts[..r]))
  }

  /** The offsets start at 0 and each one adds the previous count. */
  lemma OffsetsStep(counts: seq<int>, r: int)
    requires 0 <= r < |counts|
    ensures Offsets(counts)[r] + counts[r] == Sum(counts[..r + 1])
    ensures r == 0 ==> Offsets(counts)[r] == 0
  {
    assert counts[..r + 1][..r] == counts[..r];
  }

  /** The last offset plus the last count is the total (block_data_descriptor::size). */
  lemma OffsetsEnd(counts: seq<int>)
    requires |counts| > 0
    ensures Offsets(counts)[|counts| - 1] + counts[|counts| - 1] == Sum(counts)
  {
    OffsetsStep(counts, |counts| - 1);
    assert counts[..|counts|] == counts;
  }

  /** Offsets are non-decreasing when the counts are non-negative. */
  lemma {:induction false} PrefixSumMonotone(counts: seq<int>, a: int, b: int)
    requires 0 <= a <= b <= |counts|
    requires forall i :: 0 <= i < |counts| ==> counts[i] >= 0
    ensures Sum(counts[..a]) <= Sum(counts[..b])
    decreases b - a
  {
    if a < b {
      PrefixSumMonotone(counts, a, b - 1);
      assert counts[..b][..b - 1] == counts[..b - 1];
    }
  }

  /** The sum of the first n counts, taken position by position. */
  function PrefixSum(counts: seq<int>, n: int): int
    requires 0 <= n <= |counts|
  {
    if n == 0 then 0 else PrefixSum(counts, n - 1) + counts[n - 1]
  }

  /** The positional prefix sum is the sum of the prefix. */
  lemma {:induction false} PrefixSumIsSum(counts: seq<int>, n: int)
    requires 0 <= n <= |counts|
    ensures PrefixSum(counts, n) == Sum(counts[..n])
    decreases n
  {
    if n > 0 {
      PrefixSumIsSum(counts, n - 1);
      assert counts[..n][..n - 1] == counts[..n - 1];
    }
  }

  /** The prefix sum over all counts is their sum. */
  lemma PrefixSumTotal(counts: seq<int>)
    ensures PrefixSum(counts, |counts|) == Sum(counts)
  {
    PrefixSumIsSum(counts, |counts|);
    assert counts[..|counts|] == counts;
  }

  /** The offsets are the positional prefix sums. */
  lemma OffsetsPrefixSums(counts: seq<int>)
    ensures forall r :: 0 <= r < |counts| ==> Offsets(counts)[r] == PrefixSum(counts, r)
  {
    forall r | 0 <= r < |counts|
      ensures Offsets(counts)[r] == PrefixSum(counts, r)
    {
      PrefixSumIsSum(counts, r);
    }
  }

  /** Prefix sums of non-negative counts do not decrease. */
  lemma {:induction false} PrefixSumGrows(counts: seq<int>, a: int, b: int)
    requires 0 <= a <= b <= |counts|
    requires forall i :: 0 <= i < |counts| ==> counts[i] >= 0
    ensures PrefixSum(counts, a) <= PrefixSum(counts, b)
    decreases b - a
  {
    if a < b {
      PrefixSumGrows(counts, a, b - 1);
    }
  }

  /** lo, lo + 1, ..., lo + n - 1. */
  function Range(lo: int, n: int): (s: seq<int>)
    requires n >= 0
    ensures |s| == n
  {
    if n == 0 then [] else Range(lo, n - 1) + [lo + n - 1]
  }

  /** Entry k of Range(lo, n) is lo + k. */
  lemma {:induction false} RangeAt(lo: int, n: int, k: int)
    requires 0 <= k < n
    ensures Range(lo, n)[k] == lo + k
  {
    if k < n - 1 {
      RangeAt(lo, n - 1, k);
    }
  }

  /** Every value of [lo, lo + n) occurs once in Range(lo, n), and no other value occurs. */
  lemma {:induction false} RangeCount(lo: int, n: int, c: int)
    requires n >= 0
    ensures multiset(Range(lo, n))[c] == if lo <= c < lo + n then 1 else 0
    decreases n
  {
    if n > 0 {
      RangeCount(lo, n - 1, c);
    }
  }

  /** A value found at exactly one position occurs once. */
  lemma CountOnce<T>(s: seq<T>, v: T, k: int)
    requires 0 <= k < |s| && s[k] == v && forall i :: 0 <= i < |s| && s[i] == v ==> i == k
    ensures multiset(s)[v] == 1
  {
    assert s == s[..k] + [v] + s[k + 1..];
    assert v !in s[..k];
    assert v !in s[k + 1..] by {
      var t := s[k + 1..];
      forall i | 0 <= i < |t|
        ensures t[i] != v
      {
        assert t[i] == s[k + 1 + i];
      }
    }
  }

  /** A value occurring once in list a0 of ss, and in no other list, occurs once in the
      concatenation (a0 past the end: it occurs nowhere). */
  lemma {:induction false} FlattenOnce<T>(ss: seq<seq<T>>, v: T, a0: int)
    requires a0 >= 0 && forall a :: 0 <= a < |ss| ==> multiset(ss[a])[v] == if a == a0 then 1 else 0
    ensures multiset(Flatten(ss))[v] == if a0 < |ss| then 1 else 0
    decreases |ss|
  {
    if |ss| > 0 {
      var n := |ss| - 1;
      assert forall a :: 0 <= a < n ==> ss[..n][a] == ss[a];
      FlattenOnce(ss[..n], v, a0);
    }
  }

  /** How many of the first n elements of s are v. */
  function Occ<T(==)>(s: seq<T>, n: int, v: T): nat
    requires 0 <= n <= |s|
  {
    if n == 0 then 0 else Occ(s, n - 1, v) + (if s[n - 1] == v then 1 else 0)
  }

  /** Occ only looks at the first n elements. */
  lemma {:induction false} OccAgree<T>(s: seq<T>, t: seq<T>, n: int, v: T)
    requires 0 <= n <= |s| && n <= |t| && forall k :: 0 <= k < n ==> s[k] == t[k]
    ensures Occ(s, n, v) == Occ(t, n, v)
  {
    if n > 0 {
      OccAgree(s, t, n - 1, v);
    }
  }

  lemma {:induction false} OccAppend<T>(a: seq<T>, b: seq<T>, n: int, v: T)
    requires 0 <= n <= |b|
    ensures Occ(a + b, |a| + n, v) == Occ(a, |a|, v) + Occ(b, n, v)
  {
    if n == 0 {
      OccAgree(a + b, a, |a|, v);
    } else {
      OccAppend(a, b, n - 1, v);
    }
  }

  /** Occ counts what the multiset of the prefix counts. */
  lemma {:induction false} OccMultiset<T>(s: seq<T>, n: int, v: T)
    requires 0 <= n <= |s|
    ensures Occ(s, n, v) == multiset(s[..n])[v]
  {
    if n > 0 {
      OccMultiset(s, n - 1, v);
      assert s[..n] == s[..n - 1] + [s[n - 1]];
    }
  }

  /** Every value of [lo, lo + n) occurs once in Range(lo, n), and no other value occurs. */
  lemma {:induction false} RangeOcc(lo: int, n: int, c: int)
    requires n >= 0
    ensures Occ(Range(lo, n), n, c) == if lo <= c < lo + n then 1 else 0
  {
    if n > 0 {
      RangeOcc(lo, n - 1, c);
      OccAgree(Range(lo, n), Range(lo, n - 1), n - 1, c);
    }
  }

  /** How many elements of the first a lists of ss are v. */
  function ListsOcc<T(==)>(ss: seq<seq<T>>, a: int, v: T): nat
    requires 0 <= a <= |ss|
  {
    if a == 0 then 0 else ListsOcc(ss, a - 1, v) + Occ(ss[a - 1], |ss[a - 1]|, v)
  }

  lemma {:induction false} ListsOccFlatten<T>(ss: seq<seq<T>>, v: T)
    ensures ListsOcc(ss, |ss|, v) == multiset(Flatten(ss))[v]
    decreases |ss|
  {
    if |ss| > 0 {
      var n := |ss| - 1;
      ListsOccFlatten(ss[..n], v);
      ListsOccAgree(ss, ss[..n], n, v);
      OccMultiset(ss[n], |ss[n]|, v);
      assert ss[n][..|ss[n]|] == ss[n];
    }
  }

  lemma {:induction false} ListsOccAgree<T>(ss: seq<seq<T>>, tt: seq<seq<T>>, a: int, v: T)
    requires 0 <= a <= |ss| && a <= |tt| && forall k :: 0 <= k < a ==> ss[k] == tt[k]
    ensures ListsOcc(ss, a, v) == ListsOcc(tt, a, v)
  {
    if a > 0 {
      ListsOccAgree(ss, tt, a - 1, v);
    }
  }

  /** Sequences with no repeated element. */
  ghost predicate NoDuplicates<T>(s: seq<T>)
  {
    forall i, j :: 0 <= i < j < |s| ==> s[i] != s[j]
  }

  /** An element that occurs at two positions occurs at least twice in the multiset. */
  lemma TwoPositionsCount<T>(s: seq<T>, i: int, j: int)
    requires 0 <= i < j < |s| && s[i] == s[j]
    ensures multiset(s)[s[i]] >= 2
  {
    assert s == s[..j] + [s[j]] + s[j + 1..];
    assert s[i] in s[..j];
    assert multiset(s) == multiset(s[..j]) + multiset{s[j]} + multiset(s[j + 1..]);
  }

  /** An element that occurs at least twice occurs at two positions. */
  lemma {:induction false} CountTwoPositions<T>(s: seq<T>, x: T)
    requires multiset(s)[x] >= 2
    ensures exists i, j :: 0 <= i < j < |s| && s[i] == x && s[j] == x
    decreases |s|
  {
    var n := |s| - 1;
    assert s == s[..n] + [s[n]];
    assert multiset(s) == multiset(s[..n]) + multiset{s[n]};
    if s[n] == x {
      assert x in multiset(s[..n]);
      var i :| 0 <= i < n && s[..n][i] == x;
      assert s[i] == x;
    } else {
      CountTwoPositions(s[..n], x);
      var i, j :| 0 <= i < j < n && s[..n][i] == x && s[..n][j] == x;
      assert s[i] == x && s[j] == x;
    }
  }

  /** A permutation of a sequence without repetitions has none either. */
  lemma PermutationNoDuplicates<T>(a: seq<T>, b: seq<T>)
    requires multiset(a) == multiset(b)
    requires NoDuplicates(a)
    ensures NoDuplicates(b)
  {
    forall i, j | 0 <= i < j < |b|
      ensures b[i] != b[j]
    {
      if b[i] == b[j] {
        TwoPositionsCount(b, i, j);
        CountTwoPositions(a, b[i]);
        assert false;
      }
    }
  }

  /** Stable insertion of x into s by a non-decreasing integer key. */
  function InsertByKeyAsc<T>(x: T, s: seq<T>, key: T -> int): (r: seq<T>)
    ensures multiset(r) == multiset(s) + multiset{x}
    ensures |r| == |s| + 1
  {
    if |s| == 0 then [x]
    else if key(x) < key(s[0]) then [x] + s
    else
      assert s == [s[0]] + s[1..];
      [s[0]] + InsertByKeyAsc(x, s[1..], key)
  }

  ghost predicate SortedAsc<T>(s: seq<T>, key: T -> int)
  {
    forall i, j :: 0 <= i < j < |s| ==> key(s[i]) <= key(s[j])
  }

  /** Putting an element no greater than any of a sorted list in front keeps it sorted. */
  lemma SortedAscCons<T>(a: T, t: seq<T>, key: T -> int)
    requires SortedAsc(t, key)
    requires forall i :: 0 <= i < |t| ==> key(a) <= key(t[i])
    ensures SortedAsc([a] + t, key)
  {
    var r := [a] + t;
    forall i, j | 0 <= i < j < |r| ensures key(r[i]) <= key(r[j]) {
      assert r[j] == t[j - 1];
      if i > 0 {
        assert r[i] == t[i - 1];
      }
    }
  }

  lemma {:induction false} InsertSortedAsc<T>(x: T, s: seq<T>, key: T -> int)
    requires SortedAsc(s, key)
    ensures SortedAsc(InsertByKeyAsc(x, s, key), key)
    decreases |s|
  {
    if |s| == 0 {
    } else if key(x) < key(s[0]) {
      forall i | 0 <= i < |s| ensures key(x) <= key(s[i]) {
        if i > 0 {
          assert key(s[0]) <= key(s[i]);
        }
      }
      SortedAscCons(x, s, key);
    } else {
      var tail := s[1..];
      assert SortedAsc(tail, key) by {
        forall i, j | 0 <= i < j < |tail| ensures key(tail[i]) <= key(tail[j]) {
          assert tail[i] == s[i + 1] && tail[j] == s[j + 1];
        }
      }
      InsertSortedAsc(x, tail, key);
      var t := InsertByKeyAsc(x, tail, key);
      forall i | 0 <= i < |t| ensures key(s[0]) <= key(t[i]) {
        assert t[i] in multiset(t);
        if t[i] != x {
          assert t[i] in multiset(tail);
          var k :| 0 <= k < |tail| && tail[k] == t[i];
          assert tail[k] == s[k + 1];
        }
      }
      SortedAscCons(s[0], t, key);
    }
  }

  /** Stable sort by a non-decreasing key. */
  function SortByKeyAsc<T>(s: seq<T>, key: T -> int): (r: seq<T>)
    ensures multiset(r) == multiset(s)
    ensures |r| == |s|
  {
    if |s| == 0 then []
    else
      assert s == s[..|s| - 1] + [s[|s| - 1]];
      InsertByKeyAsc(s[|s| - 1], SortByKeyAsc(s[..|s| - 1], key), key)
  }

  lemma {:induction false} SortByKeyAscSorted<T>(s: seq<T>, key: T -> int)
    ensures SortedAsc(SortByKeyAsc(s, key), key)
    decreases |s|
  {
    if |s| > 0 {
      SortByKeyAscSorted(s[..|s| - 1], key);
      InsertSortedAsc(s[|s| - 1], SortByKeyAsc(s[..|s| - 1], key), key);
    }
  }

  /** The lists of ss concatenated in order. */
  function Flatten<T>(ss: seq<seq<T>>): seq<T>
  {
    if |ss| == 0 then [] else Flatten(ss[..|ss| - 1]) + ss[|ss| - 1]
  }

  function Lengths<T>(ss: seq<seq<T>>): (ls: seq<int>)
    ensures |ls| == |ss| && forall r :: 0 <= r < |ss| ==> ls[r] == |ss[r]|
  {
    seq(|ss|, r requires 0 <= r < |ss| => |ss[r]|)
  }

  lemma {:induction false} FlattenLength<T>(ss: seq<seq<T>>)
    ensures |Flatten(ss)| == Sum(Lengths(ss))
    decreases |ss|
  {
    if |ss| > 0 {
      var n := |ss| - 1;
      FlattenLength(ss[..n]);
      assert Lengths(ss[..n]) == Lengths(ss)[..n];
    }
  }

  lemma {:induction false} FlattenPrefix<T>(ss: seq<seq<T>>, k: int)
    requires 0 <= k <= |ss|
    ensures |Flatten(ss[..k])| <= |Flatten(ss)| && Flatten(ss)[..|Flatten(ss[..k])|] == Flatten(ss[..k])
    decreases |ss| - k
  {
    if k == |ss| {
      assert ss[..k] == ss;
    } else {
      var n := |ss| - 1;
      FlattenPrefix(ss[..n], k);
      assert ss[..n][..k] == ss[..k];
    }
  }

  /** Element i of list r sits at position (sum of the lengths before r) + i of the concatenation. */
  lemma FlattenIndex<T>(ss: seq<seq<T>>, r: int, i: int)
    requires 0 <= r < |ss| && 0 <= i < |ss[r]|
    ensures 0 <= Sum(Lengths(ss)[..r]) + i < |Flatten(ss)| &&
            Flatten(ss)[Sum(Lengths(ss)[..r]) + i] == ss[r][i]
  {
    FlattenPrefix(ss, r + 1);
    FlattenLength(ss[..r]);
    assert ss[..r + 1][..r] == ss[..r];
    assert Lengths(ss[..r]) == Lengths(ss)[..r];
    assert Flatten(ss[..r + 1]) == Flatten(ss[..r]) + ss[r];
  }

  /** Appending x to list r adds x to the concatenation's multiset. */
  lemma {:induction false} FlattenAppendAt<T>(ss: seq<seq<T>>, r: int, x: T)
    requires 0 <= r < |ss|
    ensures multiset(Flatten(ss[r := ss[r] + [x]])) == multiset(Flatten(ss)) + multiset{x}
    decreases |ss|
  {
    var n := |ss| - 1;
    var ss' := ss[r := ss[r] + [x]];
    if r == n {
      assert ss'[..n] == ss[..n];
    } else {
      assert ss'[..n] == ss[..n][r := ss[r] + [x]];
      FlattenAppendAt(ss[..n], r, x);
    }
  }

  /** A sum over the concatenation is the sum of the per-list sums. */
  lemma {:induction false} SumByFlatten<T>(ss: seq<seq<T>>, f: T -> int, totals: seq<int>)
    requires |totals| == |ss| && forall r :: 0 <= r < |ss| ==> totals[r] == SumBy(ss[r], f)
    ensures SumBy(Flatten(ss), f) == Sum(totals)
    decreases |ss|
  {
    if |ss| > 0 {
      var n := |ss| - 1;
      SumByFlatten(ss[..n], f, totals[..n]);
      SumByAppend(Flatten(ss[..n]), ss[n], f);
    }
  }

  /** The first r lists of a concatenation hold the first r totals. */
  lemma FlattenPrefixSum<T>(ss: seq<seq<T>>, f: T -> int, totals: seq<int>, r: int)
    requires |totals| == |ss| && forall q :: 0 <= q < |ss| ==> totals[q] == SumBy(ss[q], f)
    requires 0 <= r <= |ss|
    ensures 0 <= Sum(Lengths(ss)[..r]) <= |Flatten(ss)|
    ensures SumBy(Flatten(ss)[..Sum(Lengths(ss)[..r])], f) == Sum(totals[..r])
  {
    FlattenPrefix(ss, r);
    FlattenLength(ss[..r]);
    assert Lengths(ss[..r]) == Lengths(ss)[..r];
    SumByFlatten(ss[..r], f, totals[..r]);
  }

  /** Adding d to one entry adds d to the sum. */
  lemma {:induction false} SumUpdate(s: seq<int>, r: int, d: int)
    requires 0 <= r < |s|
    ensures Sum(s[r := s[r] + d]) == Sum(s) + d
    decreases |s|
  {
    var n := |s| - 1;
    if r < n {
      assert s[r := s[r] + d][..n] == s[..n][r := s[r] + d];
      SumUpdate(s[..n], r, d);
    } else {
      assert s[r := s[r] + d][..n] == s[..n];
    }
  }

  lemma MultisetFirst<T>(s: seq<T>)
    requires |s| > 0
    ensures multiset(s) == multiset{s[0]} + multiset(s[1..])
  {
    assert s == [s[0]] + s[1..];
  }
}
