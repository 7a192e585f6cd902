/** The second pass of Gvec::find_gvec_shells (src/SDDK/gvec.hpp): the G-vectors are sorted by
    their quantized length and numbered shell by shell. The quantized lengths (the 1e10-scaled
    shell radii of the first pass) are given as integer keys. */
module Shells {
  import opened Seqs

  function PairKey(p: (int, int)): int
  {
    p.0
  }

  /** The (length, index) pairs tmp of the pass, before sorting. */
  function KeyPairs(keys: seq<int>): (ps: seq<(int, int)>)
    ensures |ps| == |keys| && forall ig :: 0 <= ig < |keys| ==> ps[ig] == (keys[ig], ig)
  {
    seq(|keys|, ig requires 0 <= ig < |keys| => (keys[ig], ig))
  }

  /** s is tmp after the sort: the pairs ordered by length. */
  ghost predicate SortedOf(keys: seq<int>, s: seq<(int, int)>)
  {
    |s| == |keys| && SortedAsc(s, PairKey) && multiset(s) == multiset(KeyPairs(keys))
  }

  /** The sort of the (length, index) pairs by length. */
  method SortPairs(keys: seq<int>) returns (s: seq<(int, int)>)
    ensures SortedOf(keys, s)
  {
    s := SortByKeyAsc(KeyPairs(keys), PairKey);
    SortByKeyAscSorted(KeyPairs(keys), PairKey);
  }

  /** The shell index the pass gives each position of the sorted list: 0 for the first, and
      one more than the previous position's at every change of length. */
  function Ids(s: seq<(int, int)>): (ids: seq<int>)
    ensures |ids| == |s|
    decreases |s|
  {
    if |s| == 0 then []
    else
      var n := |s| - 1;
      var pre := Ids(s[..n]);
      pre + [if n == 0 then 0 else pre[n - 1] + (if s[n].0 != s[n - 1].0 then 1 else 0)]
  }

  lemma {:induction false} IdsStep(s: seq<(int, int)>, k: int)
    requires 0 <= k < |s|
    ensures k == 0 ==> Ids(s)[k] == 0
    ensures k > 0 ==> Ids(s)[k] == Ids(s)[k - 1] + (if s[k].0 != s[k - 1].0 then 1 else 0)
    decreases |s|
  {
    var n := |s| - 1;
    if k < n {
      IdsStep(s[..n], k);
      assert s[..n][k] == s[k];
      if k > 0 {
        assert s[..n][k - 1] == s[k - 1];
      }
    }
  }

  /** Along a sorted list the shell index never decreases, and two positions share it exactly
      when their lengths are equal. */
  lemma {:induction false} IdsOrder(s: seq<(int, int)>, a: int, b: int)
    requires SortedAsc(s, PairKey) && 0 <= a <= b < |s|
    ensures Ids(s)[a] <= Ids(s)[b]
    ensures s[a].0 == s[b].0 <==> Ids(s)[a] == Ids(s)[b]
    decreases b - a
  {
    if a < b {
      IdsOrder(s, a, b - 1);
      IdsStep(s, b);
      assert PairKey(s[a]) <= PairKey(s[b - 1]) <= PairKey(s[b]);
    }
  }

  /** Shell indices compare as the lengths do. */
  lemma IdsCompare(s: seq<(int, int)>, a: int, b: int)
    requires SortedAsc(s, PairKey) && 0 <= a < |s| && 0 <= b < |s|
    ensures s[a].0 < s[b].0 <==> Ids(s)[a] < Ids(s)[b]
  {
    if a <= b {
      IdsOrder(s, a, b);
      assert PairKey(s[a]) <= PairKey(s[b]);
    } else {
      IdsOrder(s, b, a);
      assert PairKey(s[b]) <= PairKey(s[a]);
    }
  }

  /** Every shell index up to that of position t is the index of some position up to t. */
  lemma {:induction false} IdsHit(s: seq<(int, int)>, t: int, v: int) returns (k: int)
    requires 0 <= t < |s| && 0 <= v <= Ids(s)[t]
    ensures 0 <= k <= t && Ids(s)[k] == v
    decreases t
  {
    IdsStep(s, t);
    if v < Ids(s)[t] {
      k := IdsHit(s, t - 1, v);
    } else {
      k := t;
    }
  }

  /** The sorted pairs name every G-vector exactly once, each with its own length. */
  lemma SortedPairsIndex(keys: seq<int>, s: seq<(int, int)>, t: int)
    requires SortedOf(keys, s) && 0 <= t < |keys|
    ensures 0 <= s[t].1 < |keys| && s[t].0 == keys[s[t].1]
  {
    assert s[t] in multiset(KeyPairs(keys));
    var ig :| 0 <= ig < |keys| && KeyPairs(keys)[ig] == s[t];
  }

  lemma SortedPairsDistinct(keys: seq<int>, s: seq<(int, int)>, t1: int, t2: int)
    requires SortedOf(keys, s) && 0 <= t1 < |keys| && 0 <= t2 < |keys| && t1 != t2
    ensures s[t1].1 != s[t2].1
  {
    assert NoDuplicates(KeyPairs(keys)) by {
      forall i, j | 0 <= i < j < |keys| ensures KeyPairs(keys)[i] != KeyPairs(keys)[j] {
      }
    }
    PermutationNoDuplicates(KeyPairs(keys), s);
    SortedPairsIndex(keys, s, t1);
    SortedPairsIndex(keys, s, t2);
    if t1 < t2 {
      assert s[t1] != s[t2];
    } else {
      assert s[t2] != s[t1];
    }
  }

  lemma SortedPairsCover(keys: seq<int>, s: seq<(int, int)>, ig: int) returns (t: int)
    requires SortedOf(keys, s) && 0 <= ig < |keys|
    ensures 0 <= t < |keys| && s[t] == (keys[ig], ig)
  {
    assert KeyPairs(keys)[ig] in multiset(s);
    t :| 0 <= t < |s| && s[t] == (keys[ig], ig);
  }

  /** Positions 0..t-1 of the sorted list are numbered: each one's vector carries the
      position's shell index, and that shell's length is the position's length. */
  ghost predicate Numbered(s: seq<(int, int)>, shell: seq<int>, lens: seq<int>, t: int)
  {
    && t <= |s|
    && forall k :: 0 <= k < t ==>
         && 0 <= s[k].1 < |shell| && shell[s[k].1] == Ids(s)[k]
         && 0 <= Ids(s)[k] < |lens| && lens[Ids(s)[k]] == s[k].0
  }

  /** One iteration of the numbering loop numbers one more position. */
  lemma NumberingStep(keys: seq<int>, s: seq<(int, int)>, shell: seq<int>, lens: seq<int>, ig: int)
    requires SortedOf(keys, s) && 1 <= ig < |keys| && |shell| == |keys|
    requires Numbered(s, shell, lens, ig) && |lens| == Ids(s)[ig - 1] + 1
    ensures 0 <= s[ig].1 < |keys|
    ensures var lens' := if s[ig].0 != s[ig - 1].0 then lens + [s[ig].0] else lens;
            && |lens'| == Ids(s)[ig] + 1
            && Numbered(s, shell[s[ig].1 := |lens'| - 1], lens', ig + 1)
  {
    SortedPairsIndex(keys, s, ig);
    IdsStep(s, ig);
    var lens' := if s[ig].0 != s[ig - 1].0 then lens + [s[ig].0] else lens;
    var shell' := shell[s[ig].1 := |lens'| - 1];
    forall k | 0 <= k < ig + 1
      ensures && 0 <= s[k].1 < |shell'| && shell'[s[k].1] == Ids(s)[k]
              && 0 <= Ids(s)[k] < |lens'| && lens'[Ids(s)[k]] == s[k].0
    {
      if k < ig {
        SortedPairsDistinct(keys, s, k, ig);
        IdsOrder(s, k, ig - 1);
      }
    }
  }

  /** Every vector's shell is in range and carries the vector's length. */
  lemma ShellsInRange(keys: seq<int>, s: seq<(int, int)>, shell: seq<int>, lens: seq<int>)
    requires SortedOf(keys, s) && |shell| == |keys| && Numbered(s, shell, lens, |keys|)
    ensures forall i :: 0 <= i < |keys| ==> 0 <= shell[i] < |lens| && lens[shell[i]] == keys[i]
  {
    forall i | 0 <= i < |keys| ensures 0 <= shell[i] < |lens| && lens[shell[i]] == keys[i] {
      var t := SortedPairsCover(keys, s, i);
      assert s[t] == (keys[i], i);
      assert shell[i] == Ids(s)[t] && lens[Ids(s)[t]] == keys[i];
    }
  }

  /** Shells are numbered in order of length. */
  lemma ShellsOrdered(keys: seq<int>, s: seq<(int, int)>, shell: seq<int>, lens: seq<int>)
    requires SortedOf(keys, s) && |shell| == |keys| && Numbered(s, shell, lens, |keys|)
    ensures forall i, j :: 0 <= i < |keys| && 0 <= j < |keys| ==> (keys[i] < keys[j] <==> shell[i] < shell[j])
  {
    forall i, j | 0 <= i < |keys| && 0 <= j < |keys| ensures keys[i] < keys[j] <==> shell[i] < shell[j] {
      var ti := SortedPairsCover(keys, s, i);
      var tj := SortedPairsCover(keys, s, j);
      IdsCompare(s, ti, tj);
    }
  }

  /** What Numbered says about one position. */
  lemma NumberedAt(s: seq<(int, int)>, shell: seq<int>, lens: seq<int>, t: int, k: int)
    requires Numbered(s, shell, lens, t) && 0 <= k < t
    ensures 0 <= s[k].1 < |shell| && shell[s[k].1] == Ids(s)[k]
    ensures 0 <= Ids(s)[k] < |lens| && lens[Ids(s)[k]] == s[k].0
  {
  }

  /** No shell index is skipped: every shell holds some vector. */
  lemma ShellsCovered(s: seq<(int, int)>, shell: seq<int>, lens: seq<int>)
    requires |s| > 0 && Numbered(s, shell, lens, |s|) && |lens| == Ids(s)[|s| - 1] + 1
    ensures forall sh :: 0 <= sh < |lens| ==> sh in shell
  {
    forall sh | 0 <= sh < |lens| ensures sh in shell {
      var k := IdsHit(s, |s| - 1, sh);
      NumberedAt(s, shell, lens, |s|, k);
      assert shell[s[k].1] == sh;
    }
  }

  /** The shell lengths increase with the shell index. */
  lemma ShellLengthsAscend(s: seq<(int, int)>, shell: seq<int>, lens: seq<int>)
    requires |s| > 0 && SortedAsc(s, PairKey) && Numbered(s, shell, lens, |s|)
    requires |lens| == Ids(s)[|s| - 1] + 1
    ensures forall a, b :: 0 <= a < b < |lens| ==> lens[a] < lens[b]
  {
    forall a, b | 0 <= a < b < |lens| ensures lens[a] < lens[b] {
      var ka := IdsHit(s, |s| - 1, a);
      var kb := IdsHit(s, |s| - 1, b);
      NumberedAt(s, shell, lens, |s|, ka);
      NumberedAt(s, shell, lens, |s|, kb);
      IdsCompare(s, ka, kb);
    }
  }

  /** The numbering loop over the sorted pairs: the first vector opens shell 0, and each
      change of length opens the next shell. */
  method NumberSorted(ghost keys: seq<int>, tmp: seq<(int, int)>) returns (shell: seq<int>, numShells: int, lens: seq<int>)
    requires SortedOf(keys, tmp) && |tmp| > 0
    ensures |shell| == |keys| && numShells == |lens| == Ids(tmp)[|tmp| - 1] + 1
    ensures Numbered(tmp, shell, lens, |tmp|)
  {
    var n := |tmp|;
    shell := seq(n, _ => -1);
    SortedPairsIndex(keys, tmp, 0);
    IdsStep(tmp, 0);
    // the shortest vector opens shell 0
    shell := shell[tmp[0].1 := 0];
    numShells := 1;
    lens := [tmp[0].0];
    for ig := 1 to n
      invariant |shell| == n && numShells == |lens| == Ids(tmp)[ig - 1] + 1
      invariant Numbered(tmp, shell, lens, ig)
    {
      NumberingStep(keys, tmp, shell, lens, ig);
      // a longer vector opens a new shell with its length
      if tmp[ig].0 != tmp[ig - 1].0 {
        numShells := numShells + 1;
        lens := lens + [tmp[ig].0];
      }
      shell := shell[tmp[ig].1 := numShells - 1];
    }
  }

  /** find_gvec_shells, second pass: sort (length, index) pairs, give the first vector shell 0,
      open a new shell at every change of length, and record each shell's length. Returns
      gvec_shell_, num_gvec_shells_ and the shell lengths. */
  method AssignShells(keys: seq<int>) returns (shell: seq<int>, numShells: int, lens: seq<int>)
    requires |keys| > 0
    ensures |shell| == |keys| && |lens| == numShells && 1 <= numShells
    ensures forall i :: 0 <= i < |keys| ==> 0 <= shell[i] < numShells && lens[shell[i]] == keys[i]
    ensures forall i, j :: 0 <= i < |keys| && 0 <= j < |keys| ==> (keys[i] < keys[j] <==> shell[i] < shell[j])
    ensures forall i, j :: 0 <= i < |keys| && 0 <= j < |keys| ==> (keys[i] == keys[j] <==> shell[i] == shell[j])
    ensures forall sh :: 0 <= sh < numShells ==> sh in shell
    ensures forall a, b :: 0 <= a < b < numShells ==> lens[a] < lens[b]
    ensures numShells == |set k | k in keys|
  {
    var tmp := SortPairs(keys);
    shell, numShells, lens := NumberSorted(keys, tmp);
    ShellsInRange(keys, tmp, shell, lens);
    ShellsOrdered(keys, tmp, shell, lens);
    ShellsCovered(tmp, shell, lens);
    ShellLengthsAscend(tmp, shell, lens);
    NumShellsIsDistinctLengths(keys, shell, numShells, lens);
    assert forall i, j :: 0 <= i < |keys| && 0 <= j < |keys| ==> (keys[i] == keys[j] <==> shell[i] == shell[j]) by {
      forall i, j | 0 <= i < |keys| && 0 <= j < |keys| ensures keys[i] == keys[j] <==> shell[i] == shell[j] {
        assert keys[i] < keys[j] <==> shell[i] < shell[j];
        assert keys[j] < keys[i] <==> shell[j] < shell[i];
      }
    }
  }

  /** A strictly increasing list has as many distinct values as entries. */
  lemma {:induction false} AscendingCard(s: seq<int>)
    requires forall a, b :: 0 <= a < b < |s| ==> s[a] < s[b]
    ensures |set x | x in s| == |s|
    decreases |s|
  {
    if |s| > 0 {
      var n := |s| - 1;
      AscendingCard(s[..n]);
      assert (set x | x in s) == (set x | x in s[..n]) + {s[n]};
      assert s[n] !in (set x | x in s[..n]);
    }
  }

  /** num_gvec_shells_ is the number of distinct lengths. */
  lemma NumShellsIsDistinctLengths(keys: seq<int>, shell: seq<int>, numShells: int, lens: seq<int>)
    requires |shell| == |keys| && |lens| == numShells
    requires forall i :: 0 <= i < |keys| ==> 0 <= shell[i] < numShells && lens[shell[i]] == keys[i]
    requires forall sh :: 0 <= sh < numShells ==> sh in shell
    requires forall a, b :: 0 <= a < b < numShells ==> lens[a] < lens[b]
    ensures numShells == |set k | k in keys|
  {
    AscendingCard(lens);
    assert (set x | x in lens) == (set k | k in keys) by {
      forall x | x in lens ensures x in keys {
        var a :| 0 <= a < |lens| && lens[a] == x;
        assert a in shell;
        var i :| 0 <= i < |shell| && shell[i] == a;
        assert keys[i] == x;
      }
      forall k | k in keys ensures k in lens {
        var i :| 0 <= i < |keys| && keys[i] == k;
        assert lens[shell[i]] == k;
      }
    }
  }
}
