/** Gvec_shells (src/SDDK/gvec.hpp): the G-vectors redistributed so that every rank holds
    complete shells. Shell igsh belongs to rank igsh mod p (a block-cyclic split with block
    size 1); each rank sends each of its G-vectors to the owner of its shell, in a bucket
    order fixed by per-destination counts and offsets, and receives the vectors of its own
    shells from every rank in rank order. The forward remap packs a payload into that order
    before the all-to-all exchange; the backward remap unpacks it from the same positions
    after the reverse exchange. */
module GvecShells {
  import opened Seqs
  import opened Collectives
  import opened GvecIndex
  import opened GvecSet

  /** The rank that owns shell igsh (spl_num_gsh.local_rank): shells are dealt out to the
      p ranks in turn. */
  function Owner(igsh: int, p: int): (r: int)
    requires p >= 1
    ensures 0 <= r < p
  {
    igsh % p
  }

  /** What Gvec_shells reads from the G-vector set: p ranks, rank r holding the gvec_count(r)
      vectors from gvec_offset(r) on, and a shell number for each of the |shell| vectors. */
  ghost predicate LayoutOf(g: Gvec)
  {
    && g.numRanks >= 1 && g.rank < g.numRanks
    && |g.gvecCounts| == g.numRanks && |g.gvecOffsets| == g.numRanks
    && (forall r :: 0 <= r < g.numRanks ==> g.gvecCounts[r] >= 0)
    && (forall r :: 0 <= r < g.numRanks ==> g.gvecOffsets[r] == PrefixSum(g.gvecCounts, r))
    && PrefixSum(g.gvecCounts, g.numRanks) == |g.shell|
  }

  /** A consistent bare G-vector set has that layout, with one shell number per G-vector. */
  lemma GvecLayout(g: Gvec)
    requires Consistent(g) && g.bare
    ensures LayoutOf(g) && |g.shell| == g.numGvec
    ensures forall ig :: 0 <= ig < g.numGvec ==> g.shell[ig] == Shell(g, ig)
  {
    forall r | 0 <= r < g.numRanks
      ensures g.gvecCounts[r] >= 0
    {
      var c := GvecCount(g, r);
    }
    SplitPoint(g, g.numRanks);
    FullIndexLength(g.cols, |g.cols|);
  }

  /** Rank r's G-vectors are a run inside the set, ending where rank r + 1's begin. */
  lemma RankRun(g: Gvec, r: int)
    requires LayoutOf(g) && 0 <= r < g.numRanks
    ensures 0 <= g.gvecOffsets[r]
    ensures g.gvecOffsets[r] + g.gvecCounts[r] == PrefixSum(g.gvecCounts, r + 1) <= |g.shell|
  {
    PrefixSumGrows(g.gvecCounts, 0, r);
    PrefixSumGrows(g.gvecCounts, r + 1, g.numRanks);
  }

  /*** Counting by owner ***/

  /** How many of the n vectors from lo on have their shell owned by rank q. */
  function OwnedCount(shell: seq<int>, p: int, q: int, lo: int, n: int): nat
    requires p >= 1 && 0 <= lo && 0 <= n && lo + n <= |shell|
  {
    if n == 0 then 0
    else OwnedCount(shell, p, q, lo, n - 1) + (if Owner(shell[lo + n - 1], p) == q then 1 else 0)
  }

  /** Counting a run is counting its two halves. */
  lemma {:induction false} OwnedCountSplit(shell: seq<int>, p: int, q: int, lo: int, a: int, b: int)
    requires p >= 1 && 0 <= lo && 0 <= a && 0 <= b && lo + a + b <= |shell|
    ensures OwnedCount(shell, p, q, lo, a + b) == OwnedCount(shell, p, q, lo, a) + OwnedCount(shell, p, q, lo + a, b)
    decreases b
  {
    if b > 0 {
      OwnedCountSplit(shell, p, q, lo, a, b - 1);
    }
  }

  /** The count grows with the run, strictly past a vector rank q owns. */
  lemma OwnedCountGrows(shell: seq<int>, p: int, q: int, lo: int, a: int, b: int)
    requires p >= 1 && 0 <= lo && 0 <= a <= b && lo + b <= |shell|
    ensures OwnedCount(shell, p, q, lo, a) <= OwnedCount(shell, p, q, lo, b)
    ensures a < b && Owner(shell[lo + a], p) == q ==>
              OwnedCount(shell, p, q, lo, a) < OwnedCount(shell, p, q, lo, b)
  {
    OwnedCountSplit(shell, p, q, lo, a, b - a);
    if a < b {
      OwnedCountSplit(shell, p, q, lo + a, 1, b - a - 1);
    }
  }

  function Zeros(p: nat): (z: seq<int>)
    ensures |z| == p && forall q :: 0 <= q < p ==> z[q] == 0
  {
    seq(p, q => 0)
  }

  lemma {:induction false} SumZeros(p: nat)
    ensures Sum(Zeros(p)) == 0
  {
    if p > 0 {
      SumZeros(p - 1);
      assert Zeros(p)[..p - 1] == Zeros(p - 1);
    }
  }

  /** The per-destination counts after bucketing the n vectors from lo on: each vector adds
      one to the count of its shell's owner (a2a_send.counts[r]++). */
  function Histogram(shell: seq<int>, p: int, lo: int, n: int): (h: seq<int>)
    requires p >= 1 && 0 <= lo && 0 <= n && lo + n <= |shell|
    ensures |h| == p
  {
    if n == 0 then Zeros(p)
    else
      var h := Histogram(shell, p, lo, n - 1);
      var o := Owner(shell[lo + n - 1], p);
      h[o := h[o] + 1]
  }

  /** One more vector adds one to the count of its shell's owner. */
  lemma HistogramStep(shell: seq<int>, p: int, lo: int, n: int)
    requires p >= 1 && 0 <= lo && 0 <= n && lo + n < |shell|
    ensures var o := Owner(shell[lo + n], p);
            Histogram(shell, p, lo, n + 1) == Histogram(shell, p, lo, n)[o := Histogram(shell, p, lo, n)[o] + 1]
  {
  }

  /** Bucket q of the histogram counts the vectors whose shell rank q owns. */
  lemma {:induction false} HistogramCounts(shell: seq<int>, p: int, lo: int, n: int)
    requires p >= 1 && 0 <= lo && 0 <= n && lo + n <= |shell|
    ensures forall q :: 0 <= q < p ==> Histogram(shell, p, lo, n)[q] == OwnedCount(shell, p, q, lo, n)
    decreases n
  {
    if n > 0 {
      HistogramCounts(shell, p, lo, n - 1);
    }
  }

  /** Every vector lands in exactly one bucket: the counts add up to the number of vectors. */
  lemma {:induction false} HistogramSum(shell: seq<int>, p: int, lo: int, n: int)
    requires p >= 1 && 0 <= lo && 0 <= n && lo + n <= |shell|
    ensures Sum(Histogram(shell, p, lo, n)) == n
    ensures PrefixSum(Histogram(shell, p, lo, n), p) == n
    decreases n
  {
    if n == 0 {
      SumZeros(p);
    } else {
      HistogramSum(shell, p, lo, n - 1);
      var h := Histogram(shell, p, lo, n - 1);
      SumUpdate(h, Owner(shell[lo + n - 1], p), 1);
    }
    PrefixSumTotal(Histogram(shell, p, lo, n));
  }

  /*** Bucket contents ***/

  /** The entries of d (entry i belonging to vector lo + i) whose shell rank q owns, in order. */
  function Picked<T>(shell: seq<int>, p: int, q: int, lo: int, n: int, d: seq<T>): (s: seq<T>)
    requires p >= 1 && 0 <= lo && 0 <= n && lo + n <= |shell| && n <= |d|
    ensures |s| == OwnedCount(shell, p, q, lo, n)
  {
    if n == 0 then []
    else Picked(shell, p, q, lo, n - 1, d) + (if Owner(shell[lo + n - 1], p) == q then [d[n - 1]] else [])
  }

  /** Entry i, owned by q, is picked at the position counting the owned entries before it. */
  lemma {:induction false} PickedAt<T>(shell: seq<int>, p: int, q: int, lo: int, n: int, d: seq<T>, i: int)
    requires p >= 1 && 0 <= lo && 0 <= n && lo + n <= |shell| && n <= |d|
    requires 0 <= i < n && Owner(shell[lo + i], p) == q
    ensures OwnedCount(shell, p, q, lo, i) < OwnedCount(shell, p, q, lo, n)
    ensures Picked(shell, p, q, lo, n, d)[OwnedCount(shell, p, q, lo, i)] == d[i]
    decreases n
  {
    OwnedCountGrows(shell, p, q, lo, i, n);
    if i < n - 1 {
      PickedAt(shell, p, q, lo, n - 1, d, i);
    }
  }

  /** Every picked entry is an entry owned by q, found at that position. */
  lemma {:induction false} PickedFrom<T>(shell: seq<int>, p: int, q: int, lo: int, n: int, d: seq<T>, k: int)
    returns (i: int)
    requires p >= 1 && 0 <= lo && 0 <= n && lo + n <= |shell| && n <= |d|
    requires 0 <= k < OwnedCount(shell, p, q, lo, n)
    ensures 0 <= i < n && Owner(shell[lo + i], p) == q && OwnedCount(shell, p, q, lo, i) == k
    ensures Picked(shell, p, q, lo, n, d)[k] == d[i]
    decreases n
  {
    if k < OwnedCount(shell, p, q, lo, n - 1) {
      i := PickedFrom(shell, p, q, lo, n - 1, d, k);
    } else {
      i := n - 1;
    }
  }

  /** Picking from entries without repetitions gives entries without repetitions. */
  lemma PickedDistinct<T>(shell: seq<int>, p: int, q: int, lo: int, n: int, d: seq<T>)
    requires p >= 1 && 0 <= lo && 0 <= n && lo + n <= |shell| && n <= |d|
    requires forall i, j :: 0 <= i < j < n ==> d[i] != d[j]
    ensures NoDuplicates(Picked(shell, p, q, lo, n, d))
  {
    var s := Picked(shell, p, q, lo, n, d);
    forall k1, k2 | 0 <= k1 < k2 < |s|
      ensures s[k1] != s[k2]
    {
      var i1 := PickedFrom(shell, p, q, lo, n, d, k1);
      var i2 := PickedFrom(shell, p, q, lo, n, d, k2);
      if i2 <= i1 {
        OwnedCountGrows(shell, p, q, lo, i2, i1);
      }
    }
  }

  /*** The send buffer ***/

  /** The buckets of the n local entries of d, one per destination rank. */
  function Buckets<T>(shell: seq<int>, p: int, lo: int, n: int, d: seq<T>): (bs: seq<seq<T>>)
    requires p >= 1 && 0 <= lo && 0 <= n && lo + n <= |shell| && n <= |d|
    ensures |bs| == p && forall q :: 0 <= q < p ==> bs[q] == Picked(shell, p, q, lo, n, d)
  {
    seq(p, q requires 0 <= q < p => Picked(shell, p, q, lo, n, d))
  }

  /** send_buf of remap_forward: the buckets one after another, destination by destination. */
  function SendBuffer<T>(shell: seq<int>, p: int, lo: int, n: int, d: seq<T>): seq<T>
    requires p >= 1 && 0 <= lo && 0 <= n && lo + n <= |shell| && n <= |d|
  {
    Flatten(Buckets(shell, p, lo, n, d))
  }

  /** The bucket sizes are the send counts, and they cover the whole send buffer. */
  lemma BucketLengths<T>(shell: seq<int>, p: int, lo: int, n: int, d: seq<T>)
    requires p >= 1 && 0 <= lo && 0 <= n && lo + n <= |shell| && n <= |d|
    ensures Lengths(Buckets(shell, p, lo, n, d)) == Histogram(shell, p, lo, n)
    ensures Fits(SendBuffer(shell, p, lo, n, d), Histogram(shell, p, lo, n))
    ensures |SendBuffer(shell, p, lo, n, d)| == n
  {
    HistogramCounts(shell, p, lo, n);
    HistogramSum(shell, p, lo, n);
    var bs := Buckets(shell, p, lo, n, d);
    FlattenLength(bs);
    PrefixSumTotal(Lengths(bs));
  }

  /** Where local entry i goes in the send buffer: the offset of its owner's bucket plus the
      number of earlier entries in that bucket (a2a_send.offsets[r] + counts[r]). It is a
      slot of the buffer. */
  function SendPos(shell: seq<int>, p: int, lo: int, n: int, i: int): (pos: int)
    requires p >= 1 && 0 <= lo && 0 <= i < n && lo + n <= |shell|
    ensures 0 <= pos < n
  {
    var h := Histogram(shell, p, lo, n);
    var o := Owner(shell[lo + i], p);
    HistogramCounts(shell, p, lo, n);
    HistogramSum(shell, p, lo, n);
    OwnedCountGrows(shell, p, o, lo, i, n);
    PrefixSumGrows(h, 0, o);
    PrefixSumGrows(h, o + 1, p);
    PrefixSum(h, o) + OwnedCount(shell, p, o, lo, i)
  }

  /** The send buffer holds entry i at its send position. */
  lemma SendBufferAt<T>(shell: seq<int>, p: int, lo: int, n: int, d: seq<T>, i: int)
    requires p >= 1 && 0 <= lo && 0 <= i < n && lo + n <= |shell| && n <= |d|
    ensures |SendBuffer(shell, p, lo, n, d)| == n
    ensures SendBuffer(shell, p, lo, n, d)[SendPos(shell, p, lo, n, i)] == d[i]
  {
    var o := Owner(shell[lo + i], p);
    var c := OwnedCount(shell, p, o, lo, i);
    var h := Histogram(shell, p, lo, n);
    var bs := Buckets(shell, p, lo, n, d);
    var sb := SendBuffer(shell, p, lo, n, d);
    BucketLengths(shell, p, lo, n, d);
    FlattenBlock(bs, o);
    assert Block(sb, h, o) == Picked(shell, p, o, lo, n, d);
    PickedAt(shell, p, o, lo, n, d, i);
    BlockAt(sb, h, o, c);
    assert SendPos(shell, p, lo, n, i) == PrefixSum(h, o) + c;
  }

  /** What the backward remap leaves in data__: entry i read back from its send position. */
  function Unpacked<T>(shell: seq<int>, p: int, lo: int, n: int, buf: seq<T>): (d: seq<T>)
    requires p >= 1 && 0 <= lo && 0 <= n && lo + n <= |shell| && |buf| == n
    ensures |d| == n
  {
    seq(n, i requires 0 <= i < n => buf[SendPos(shell, p, lo, n, i)])
  }

  /** Unpacking the packed buffer gives back the payload. */
  lemma UnpackSendBuffer<T>(shell: seq<int>, p: int, lo: int, n: int, d: seq<T>)
    requires p >= 1 && 0 <= lo && 0 <= n && lo + n <= |shell| && |d| == n
    ensures |SendBuffer(shell, p, lo, n, d)| == n
    ensures Unpacked(shell, p, lo, n, SendBuffer(shell, p, lo, n, d)) == d
  {
    BucketLengths(shell, p, lo, n, d);
    var u := Unpacked(shell, p, lo, n, SendBuffer(shell, p, lo, n, d));
    forall i | 0 <= i < n
      ensures u[i] == d[i]
    {
      SendBufferAt(shell, p, lo, n, d, i);
    }
  }

  /*** Counts and offsets of the exchange ***/

  /** How many of rank r's G-vectors have their shell owned by rank me: what r sends to me. */
  function RankOwned(g: Gvec, me: int, r: int): nat
    requires LayoutOf(g) && 0 <= r < g.numRanks
  {
    RankRun(g, r);
    OwnedCount(g.shell, g.numRanks, me, g.gvecOffsets[r], g.gvecCounts[r])
  }

  /** a2a_send.counts on rank r: its G-vectors bucketed by the owner of their shell. */
  function SendCountsOf(g: Gvec, r: int): (c: seq<int>)
    requires LayoutOf(g) && 0 <= r < g.numRanks
    ensures |c| == g.numRanks
  {
    RankRun(g, r);
    Histogram(g.shell, g.numRanks, g.gvecOffsets[r], g.gvecCounts[r])
  }

  /** a2a_recv.counts on rank me: entry r counts rank r's G-vectors whose shell me owns. */
  function RecvCountsOf(g: Gvec, me: int): (c: seq<int>)
    requires LayoutOf(g)
    ensures |c| == g.numRanks && forall r :: 0 <= r < g.numRanks ==> c[r] == RankOwned(g, me, r)
  {
    seq(g.numRanks, r requires 0 <= r < g.numRanks => RankOwned(g, me, r))
  }

  /** The send counts of all ranks, row r being rank r's. */
  function SendMatrix(g: Gvec): (m: seq<seq<int>>)
    requires LayoutOf(g)
    ensures |m| == g.numRanks && forall r :: 0 <= r < g.numRanks ==> m[r] == SendCountsOf(g, r)
  {
    seq(g.numRanks, r requires 0 <= r < g.numRanks => SendCountsOf(g, r))
  }

  /** What rank me expects from each rank is what that rank sends it: the receive counts are
      the transposed send counts. */
  lemma RecvIsTransposed(g: Gvec, me: int)
    requires LayoutOf(g) && 0 <= me < g.numRanks
    ensures Transpose(SendMatrix(g))[me] == RecvCountsOf(g, me)
  {
    var m := SendMatrix(g);
    forall r | 0 <= r < g.numRanks
      ensures m[r][me] == RankOwned(g, me, r)
    {
      RankRun(g, r);
      HistogramCounts(g.shell, g.numRanks, g.gvecOffsets[r], g.gvecCounts[r]);
    }
  }

  /** The ranks before k send rank me the G-vectors of the prefix they hold whose shell me
      owns. */
  lemma {:induction false} RecvPrefix(g: Gvec, me: int, k: int)
    requires LayoutOf(g) && 0 <= k <= g.numRanks
    ensures 0 <= PrefixSum(g.gvecCounts, k) <= |g.shell|
    ensures PrefixSum(RecvCountsOf(g, me), k) == OwnedCount(g.shell, g.numRanks, me, 0, PrefixSum(g.gvecCounts, k))
    decreases k
  {
    PrefixSumGrows(g.gvecCounts, 0, k);
    PrefixSumGrows(g.gvecCounts, k, g.numRanks);
    if k > 0 {
      RecvPrefix(g, me, k - 1);
      RankRun(g, k - 1);
      OwnedCountSplit(g.shell, g.numRanks, me, 0, PrefixSum(g.gvecCounts, k - 1), g.gvecCounts[k - 1]);
    }
  }

  /** block_data_descriptor::size: the last offset plus the last count, i.e. the total. */
  function DescriptorSize(counts: seq<int>, offsets: seq<int>): (n: int)
    requires |counts| > 0 && offsets == Offsets(counts)
    ensures n == Sum(counts)
  {
    OffsetsEnd(counts);
    offsets[|offsets| - 1] + counts[|counts| - 1]
  }

  /*** The remapped set ***/

  /** All G-vectors in global order (gvec(ig) for every ig). */
  function AllVectors(g: Gvec): (vs: seq<Vec>)
    requires Consistent(g)
    ensures |vs| == g.numGvec && forall ig :: 0 <= ig < g.numGvec ==> vs[ig] == GvecOf(g, ig)
  {
    VectorsFrom(TablesOf(g), 0, g.numGvec)
  }

  /** Different global indices name different G-vectors. */
  lemma AllVectorsDistinct(g: Gvec)
    requires Consistent(g)
    ensures forall i, j :: 0 <= i < j < g.numGvec ==> AllVectors(g)[i] != AllVectors(g)[j]
  {
    var vs := AllVectors(g);
    forall i, j | 0 <= i < j < g.numGvec
      ensures vs[i] != vs[j]
    {
      assert IndexByGvec(TablesOf(g), vs[i]) == i;
      assert IndexByGvec(TablesOf(g), vs[j]) == j;
    }
  }

  /** The state of Gvec_shells: the send and receive descriptors, gvec_remapped_,
      gvec_shell_remapped_ and idx_gvec (the communicator is numRanks ranks, this one rank). */
  datatype Shells = Shells(
    numRanks: nat, rank: nat,
    sendCounts: seq<int>, sendOffsets: seq<int>,
    recvCounts: seq<int>, recvOffsets: seq<int>,
    gvecRemapped: seq<Vec>, shellRemapped: seq<int>,
    idxGvec: map<Vec, int>)

  /** The descriptors and the remapped shells as the constructor leaves them on rank s.rank. */
  ghost predicate CountsFor(g: Gvec, s: Shells)
    requires LayoutOf(g)
  {
    && s.numRanks == g.numRanks && s.rank < g.numRanks
    && s.sendCounts == SendCountsOf(g, s.rank) && s.sendOffsets == Offsets(s.sendCounts)
    && s.recvCounts == RecvCountsOf(g, s.rank) && s.recvOffsets == Offsets(s.recvCounts)
    && s.shellRemapped == Picked(g.shell, g.numRanks, s.rank, 0, |g.shell|, g.shell)
  }

  /** idx_gvec maps exactly the listed vectors, each to a position holding it. */
  ghost predicate IndexedBy(vs: seq<Vec>, idx: map<Vec, int>)
  {
    && (forall v :: v in idx <==> v in vs)
    && (forall v :: v in idx ==> 0 <= idx[v] < |vs| && vs[idx[v]] == v)
  }

  /** The remapped vectors and their index as the constructor leaves them. */
  ghost predicate VectorsFor(g: Gvec, s: Shells)
    requires Consistent(g) && LayoutOf(g)
  {
    && s.gvecRemapped == Picked(g.shell, g.numRanks, s.rank, 0, |g.shell|, AllVectors(g))
    && IndexedBy(s.gvecRemapped, s.idxGvec)
  }

  /** s is what the constructor builds from g on rank s.rank. */
  ghost predicate ConstructedFrom(g: Gvec, s: Shells)
  {
    && Consistent(g) && g.bare && LayoutOf(g) && |g.shell| == g.numGvec
    && CountsFor(g, s) && VectorsFor(g, s)
  }

  /*** The constructor ***/

  /** The first loop of the constructor: this rank's G-vectors counted by the owner of their
      shell (a2a_send.counts). */
  method CountSend(g: Gvec) returns (counts: seq<int>)
    requires LayoutOf(g)
    ensures counts == SendCountsOf(g, g.rank)
  {
    var p := g.numRanks;
    RankRun(g, g.rank);
    var offset := g.gvecOffsets[g.rank];
    counts := Zeros(p);
    for igloc := 0 to g.gvecCounts[g.rank]
      invariant counts == Histogram(g.shell, p, offset, igloc)
    {
      var ig := offset + igloc;
      var igsh := g.shell[ig];
      var r := Owner(igsh, p);
      counts := counts[r := counts[r] + 1];
    }
  }

  /** The second loop: for every rank r, the number of its G-vectors whose shell this rank
      owns (a2a_recv.counts). */
  method CountRecv(g: Gvec) returns (counts: seq<int>)
    requires LayoutOf(g)
    ensures counts == RecvCountsOf(g, g.rank)
  {
    var p := g.numRanks;
    var me := g.rank;
    counts := Zeros(p);
    for r := 0 to p
      invariant |counts| == p
      invariant forall r' :: 0 <= r' < r ==> counts[r'] == RankOwned(g, me, r')
      invariant forall r' :: r <= r' < p ==> counts[r'] == 0
    {
      RankRun(g, r);
      var offset := g.gvecOffsets[r];
      for igloc := 0 to g.gvecCounts[r]
        invariant |counts| == p
        invariant forall r' :: 0 <= r' < r ==> counts[r'] == RankOwned(g, me, r')
        invariant counts[r] == OwnedCount(g.shell, p, me, offset, igloc)
        invariant forall r' :: r < r' < p ==> counts[r'] == 0
      {
        var ig := offset + igloc;
        var igsh := g.shell[ig];
        if Owner(igsh, p) == me {
          counts := counts[r := counts[r] + 1];
        }
      }
    }
  }

  /** The remapped vectors and shells of the first m G-vectors sit at the front of vs and shs
      (all holding gvec(ig) at ig). */
  ghost predicate Filled(g: Gvec, all: seq<Vec>, me: int, m: int, vs: seq<Vec>, shs: seq<int>)
    requires LayoutOf(g) && |all| == |g.shell| && 0 <= m <= |g.shell|
  {
    var k := OwnedCount(g.shell, g.numRanks, me, 0, m);
    && k <= |vs| && k <= |shs|
    && vs[..k] == Picked(g.shell, g.numRanks, me, 0, m, all)
    && shs[..k] == Picked(g.shell, g.numRanks, me, 0, m, g.shell)
  }

  /** Storing G-vector m, when this rank owns its shell, at the next free position extends the
      filled prefix by one; otherwise the prefix already covers m + 1 vectors. */
  lemma FillStep(g: Gvec, all: seq<Vec>, me: int, m: int, vs: seq<Vec>, shs: seq<int>)
    requires LayoutOf(g) && |all| == |g.shell| && 0 <= m < |g.shell| && |vs| == |shs|
    requires Filled(g, all, me, m, vs, shs)
    requires OwnedCount(g.shell, g.numRanks, me, 0, m + 1) <= |vs|
    ensures Owner(g.shell[m], g.numRanks) == me ==>
              var pos := OwnedCount(g.shell, g.numRanks, me, 0, m);
              pos < |vs| && Filled(g, all, me, m + 1, vs[pos := all[m]], shs[pos := g.shell[m]])
    ensures Owner(g.shell[m], g.numRanks) != me ==> Filled(g, all, me, m + 1, vs, shs)
  {
    var k := OwnedCount(g.shell, g.numRanks, me, 0, m);
    if Owner(g.shell[m], g.numRanks) == me {
      assert vs[k := all[m]][..k + 1] == vs[..k] + [all[m]];
      assert shs[k := g.shell[m]][..k + 1] == shs[..k] + [g.shell[m]];
    }
  }

  /** The outer loop's state: the vectors of ranks 0 .. r-1 are placed and no later rank has been counted. */
  ghost predicate RanksPlaced(g: Gvec, all: seq<Vec>, r: int, counts: seq<int>, vs: seq<Vec>, shs: seq<int>)
  {
    && LayoutOf(g) && |all| == |g.shell| && 0 <= r <= g.numRanks
    && |counts| == g.numRanks && (forall r' :: r <= r' < g.numRanks ==> counts[r'] == 0)
    && 0 <= PrefixSum(g.gvecCounts, r) <= |g.shell|
    && Filled(g, all, g.rank, PrefixSum(g.gvecCounts, r), vs, shs)
  }

  /** Once every rank's vectors are placed, the buffers are exactly the picked vectors and shells. */
  lemma FilledAll(g: Gvec, all: seq<Vec>, vs: seq<Vec>, shs: seq<int>)
    requires LayoutOf(g) && |all| == |g.shell|
    requires |vs| == |shs| == OwnedCount(g.shell, g.numRanks, g.rank, 0, |g.shell|)
    requires Filled(g, all, g.rank, PrefixSum(g.gvecCounts, g.numRanks), vs, shs)
    ensures vs == Picked(g.shell, g.numRanks, g.rank, 0, |g.shell|, all)
    ensures shs == Picked(g.shell, g.numRanks, g.rank, 0, |g.shell|, g.shell)
  {
    assert vs == vs[..|vs|];
    assert shs == shs[..|shs|];
  }

  /** One rank's receive offset, taken out of ReceiveOffsets. */
  lemma ReceiveOffsetAt(g: Gvec, recvCounts: seq<int>, recvOffsets: seq<int>, r: int)
    requires LayoutOf(g) && 0 <= r < g.numRanks
    requires recvCounts == RecvCountsOf(g, g.rank) && recvOffsets == Offsets(recvCounts)
    ensures 0 <= PrefixSum(g.gvecCounts, r) <= |g.shell|
    ensures recvOffsets[r] == OwnedCount(g.shell, g.numRanks, g.rank, 0, PrefixSum(g.gvecCounts, r))
  {
    ReceiveOffsets(g, recvCounts, recvOffsets);
  }

  /** The receive buffer holds exactly the vectors this rank owns. */
  lemma ReceiveTotal(g: Gvec, recvCounts: seq<int>, recvOffsets: seq<int>)
    requires LayoutOf(g)
    requires recvCounts == RecvCountsOf(g, g.rank) && recvOffsets == Offsets(recvCounts)
    ensures Sum(recvCounts) == OwnedCount(g.shell, g.numRanks, g.rank, 0, |g.shell|)
  {
    ReceiveOffsets(g, recvCounts, recvOffsets);
  }

  /** The third loop: every rank's G-vectors whose shell this rank owns, stored at
      a2a_recv.offsets[r] + counts[r] (gvec_remapped_ and gvec_shell_remapped_); all[ig] is
      the vector gvec(ig). */
  method FillRemapped(g: Gvec, all: seq<Vec>, recvCounts: seq<int>, recvOffsets: seq<int>)
    returns (vs: array<Vec>, shs: array<int>)
    requires LayoutOf(g) && |all| == |g.shell|
    requires recvCounts == RecvCountsOf(g, g.rank) && recvOffsets == Offsets(recvCounts)
    ensures vs[..] == Picked(g.shell, g.numRanks, g.rank, 0, |g.shell|, all)
    ensures shs[..] == Picked(g.shell, g.numRanks, g.rank, 0, |g.shell|, g.shell)
    ensures fresh(vs) && fresh(shs)
  {
    var p := g.numRanks;
    ghost var n := |g.shell|;
    ReceiveTotal(g, recvCounts, recvOffsets);
    var total := DescriptorSize(recvCounts, recvOffsets);
    vs := new Vec[total];
    shs := new int[total];
    var counts := Zeros(p);
    for r := 0 to p
      invariant vs.Length == shs.Length == total
      invariant RanksPlaced(g, all, r, counts, vs[..], shs[..])
    {
      ReceiveOffsetAt(g, recvCounts, recvOffsets, r);
      counts := FillRank(g, all, recvOffsets[r], r, counts, vs, shs);
    }
    FilledAll(g, all, vs[..], shs[..]);
  }

  /** The receive offsets count the remapped vectors held by the ranks before, and the
      receive size counts them all. */
  lemma ReceiveOffsets(g: Gvec, recvCounts: seq<int>, recvOffsets: seq<int>)
    requires LayoutOf(g)
    requires recvCounts == RecvCountsOf(g, g.rank) && recvOffsets == Offsets(recvCounts)
    ensures forall r :: 0 <= r < g.numRanks ==>
              0 <= PrefixSum(g.gvecCounts, r) <= |g.shell| &&
              recvOffsets[r] == OwnedCount(g.shell, g.numRanks, g.rank, 0, PrefixSum(g.gvecCounts, r))
    ensures Sum(recvCounts) == OwnedCount(g.shell, g.numRanks, g.rank, 0, |g.shell|)
  {
    OffsetsPrefixSums(recvCounts);
    forall r | 0 <= r < g.numRanks
      ensures 0 <= PrefixSum(g.gvecCounts, r) <= |g.shell|
      ensures recvOffsets[r] == OwnedCount(g.shell, g.numRanks, g.rank, 0, PrefixSum(g.gvecCounts, r))
    {
      RecvPrefix(g, g.rank, r);
    }
    RecvPrefix(g, g.rank, g.numRanks);
    PrefixSumTotal(recvCounts);
  }

  /** One pass of the third loop: rank r's G-vectors, placed from offset start on. */
  method FillRank(g: Gvec, all: seq<Vec>, start: int, r: int, counts: seq<int>, vs: array<Vec>, shs: array<int>)
    returns (counts': seq<int>)
    requires RanksPlaced(g, all, r, counts, vs[..], shs[..]) && r < g.numRanks
    requires start == OwnedCount(g.shell, g.numRanks, g.rank, 0, PrefixSum(g.gvecCounts, r))
    requires vs.Length == shs.Length == OwnedCount(g.shell, g.numRanks, g.rank, 0, |g.shell|)
    modifies vs, shs
    ensures RanksPlaced(g, all, r + 1, counts', vs[..], shs[..])
  {
    var p := g.numRanks;
    var me := g.rank;
    RankRun(g, r);
    var offset := g.gvecOffsets[r];
    counts' := counts;
    for igloc := 0 to g.gvecCounts[r]
      invariant |counts'| == p
      invariant forall r' :: r < r' < p ==> counts'[r'] == 0
      invariant start + counts'[r] == OwnedCount(g.shell, p, me, 0, offset + igloc)
      invariant Filled(g, all, me, offset + igloc, vs[..], shs[..])
    {
      var ig := offset + igloc;
      var igsh := g.shell[ig];
      var G := all[ig];
      OwnedCountGrows(g.shell, p, me, 0, ig + 1, |g.shell|);
      ghost var vs0, shs0 := vs[..], shs[..];
      FillStep(g, all, me, ig, vs0, shs0);
      if Owner(igsh, p) == me {
        var pos := start + counts'[r];
        vs[pos] := G;
        shs[pos] := igsh;
        assert vs[..] == vs0[pos := G] && shs[..] == shs0[pos := igsh];
        counts' := counts'[r := counts'[r] + 1];
        assert OwnedCount(g.shell, p, me, 0, ig + 1) == OwnedCount(g.shell, p, me, 0, ig) + 1;
      } else {
        assert OwnedCount(g.shell, p, me, 0, ig + 1) == OwnedCount(g.shell, p, me, 0, ig);
      }
      assert start + counts'[r] == OwnedCount(g.shell, p, me, 0, ig + 1);
      assert Filled(g, all, me, ig + 1, vs[..], shs[..]);
    }
  }

  /** The last loop: idx_gvec[gvec_remapped(ig)] = ig for every remapped vector. */
  method IndexMap(vs: seq<Vec>) returns (idx: map<Vec, int>)
    ensures IndexedBy(vs, idx)
  {
    idx := map[];
    for ig := 0 to |vs|
      invariant forall v :: v in idx <==> v in vs[..ig]
      invariant forall v :: v in idx ==> 0 <= idx[v] < ig && vs[idx[v]] == v
    {
      idx := idx[vs[ig] := ig];
    }
    assert vs[..|vs|] == vs;
  }

  /** Gvec_shells(gvec): the descriptors of the exchange and the remapped set of this rank.
      Both sanity checks hold: everything this rank holds is sent somewhere (the first), and
      the remapped counts of all ranks add up to num_gvec (RemappedTotal, the second). */
  method NewShells(g: Gvec) returns (s: Shells)
    requires Consistent(g) && g.bare
    ensures s.rank == g.rank && ConstructedFrom(g, s)
  {
    GvecLayout(g);
    var p := g.numRanks;
    var sendCounts := CountSend(g);
    var sendOffsets := Offsets(sendCounts);
    RankRun(g, g.rank);
    HistogramSum(g.shell, p, g.gvecOffsets[g.rank], g.gvecCounts[g.rank]);
    assert DescriptorSize(sendCounts, sendOffsets) == Count(g);
    var recvCounts := CountRecv(g);
    var recvOffsets := Offsets(recvCounts);
    var vs, shs := FillRemapped(g, AllVectors(g), recvCounts, recvOffsets);
    var idx := IndexMap(vs[..]);
    s := Shells(p, g.rank, sendCounts, sendOffsets, recvCounts, recvOffsets, vs[..], shs[..], idx);
  }

  /*** remap_forward and remap_backward on one rank ***/

  /** The first k of the n local entries are in their buckets: block q of b begins with the
      entries among the first k whose shell rank q owns, in order. */
  ghost predicate Packed<T>(shell: seq<int>, p: int, lo: int, n: int, d: seq<T>, k: int, b: seq<T>)
    requires p >= 1 && 0 <= lo && 0 <= k <= n && lo + n <= |shell| && n <= |d|
  {
    var h := Histogram(shell, p, lo, n);
    && Fits(b, h)
    && forall q :: 0 <= q < p ==>
         OwnedCount(shell, p, q, lo, k) <= h[q] &&
         Block(b, h, q)[..OwnedCount(shell, p, q, lo, k)] == Picked(shell, p, q, lo, k, d)
  }

  /** Before the loop no bucket holds anything. */
  lemma PackStart<T>(shell: seq<int>, p: int, lo: int, n: int, d: seq<T>, b: seq<T>)
    requires p >= 1 && 0 <= lo && 0 <= n && lo + n <= |shell| && n <= |d| && |b| == n
    ensures Packed(shell, p, lo, n, d, 0, b)
  {
    HistogramCounts(shell, p, lo, n);
    HistogramSum(shell, p, lo, n);
  }

  /** Bucket q after storing entry k - 1 at its send position: the entry appended when q
      owns its shell, unchanged otherwise. */
  lemma PackBucket<T>(shell: seq<int>, p: int, lo: int, n: int, d: seq<T>, k: int, b: seq<T>, q: int)
    requires p >= 1 && 0 <= lo && 0 < k <= n && lo + n <= |shell| && n <= |d| && 0 <= q < p
    requires Fits(b, Histogram(shell, p, lo, n))
    requires OwnedCount(shell, p, q, lo, k - 1) <= Histogram(shell, p, lo, n)[q]
    requires Block(b, Histogram(shell, p, lo, n), q)[..OwnedCount(shell, p, q, lo, k - 1)] == Picked(shell, p, q, lo, k - 1, d)
    ensures 0 <= SendPos(shell, p, lo, n, k - 1) < |b|
    ensures Fits(b[SendPos(shell, p, lo, n, k - 1) := d[k - 1]], Histogram(shell, p, lo, n))
    ensures OwnedCount(shell, p, q, lo, k) <= Histogram(shell, p, lo, n)[q]
    ensures Block(b[SendPos(shell, p, lo, n, k - 1) := d[k - 1]], Histogram(shell, p, lo, n), q)[..OwnedCount(shell, p, q, lo, k)]
            == Picked(shell, p, q, lo, k, d)
  {
    var h := Histogram(shell, p, lo, n);
    var j := k - 1;
    var o := Owner(shell[lo + j], p);
    var c := OwnedCount(shell, p, o, lo, j);
    HistogramSum(shell, p, lo, n);
    HistogramCounts(shell, p, lo, n);
    assert SendPos(shell, p, lo, n, j) == PrefixSum(h, o) + c;
    OwnedCountGrows(shell, p, o, lo, j, n);
    OwnedCountGrows(shell, p, q, lo, k, n);
    var b' := b[PrefixSum(h, o) + c := d[j]];
    if q != o {
      BlockWriteElsewhere(b, h, o, c, d[j], q);
      assert Picked(shell, p, q, lo, k, d) == Picked(shell, p, q, lo, j, d);
    } else {
      BlockWrite(b, h, o, c, d[j]);
      var bl := Block(b, h, o);
      var bw := Block(b', h, o);
      assert bw[..c + 1] == bl[..c] + [d[j]] by {
        forall i | 0 <= i <= c
          ensures bw[i] == (bl[..c] + [d[j]])[i]
        {
        }
      }
      assert Picked(shell, p, o, lo, k, d) == Picked(shell, p, o, lo, j, d) + [d[j]];
    }
    assert Block(b', h, q)[..OwnedCount(shell, p, q, lo, k)] == Picked(shell, p, q, lo, k, d);
    assert b' == b[SendPos(shell, p, lo, n, j) := d[j]];
  }

  /** Storing entry k - 1 at its send position appends it to its owner's bucket and leaves
      the other buckets alone. */
  lemma PackStep<T>(shell: seq<int>, p: int, lo: int, n: int, d: seq<T>, k: int, b: seq<T>)
    requires p >= 1 && 0 <= lo && 0 < k <= n && lo + n <= |shell| && n <= |d|
    requires Packed(shell, p, lo, n, d, k - 1, b)
    ensures 0 <= SendPos(shell, p, lo, n, k - 1) < |b|
    ensures Packed(shell, p, lo, n, d, k, b[SendPos(shell, p, lo, n, k - 1) := d[k - 1]])
  {
    PackBucket(shell, p, lo, n, d, k, b, 0);
    forall q | 0 <= q < p
      ensures OwnedCount(shell, p, q, lo, k) <= Histogram(shell, p, lo, n)[q]
      ensures Block(b[SendPos(shell, p, lo, n, k - 1) := d[k - 1]], Histogram(shell, p, lo, n), q)[..OwnedCount(shell, p, q, lo, k)]
              == Picked(shell, p, q, lo, k, d)
    {
      PackBucket(shell, p, lo, n, d, k, b, q);
    }
  }

  /** The buffer after the first k entries have been stored at their send positions. */
  ghost function PackLoop<T>(shell: seq<int>, p: int, lo: int, n: int, d: seq<T>, k: int, init: seq<T>): (b: seq<T>)
    requires p >= 1 && 0 <= lo && 0 <= k <= n && lo + n <= |shell| && n <= |d| && |init| == n
    ensures |b| == n
  {
    if k == 0 then init
    else PackLoop(shell, p, lo, n, d, k - 1, init)[SendPos(shell, p, lo, n, k - 1) := d[k - 1]]
  }

  /** After k stores the first k entries are in their buckets. */
  lemma {:induction false} PackLoopPacked<T>(shell: seq<int>, p: int, lo: int, n: int, d: seq<T>, k: int, init: seq<T>)
    requires p >= 1 && 0 <= lo && 0 <= k <= n && lo + n <= |shell| && n <= |d| && |init| == n
    ensures Packed(shell, p, lo, n, d, k, PackLoop(shell, p, lo, n, d, k, init))
    decreases k
  {
    if k == 0 {
      PackStart(shell, p, lo, n, d, init);
    } else {
      PackLoopPacked(shell, p, lo, n, d, k - 1, init);
      PackStep(shell, p, lo, n, d, k, PackLoop(shell, p, lo, n, d, k - 1, init));
    }
  }

  /** After all n stores the buffer is the send buffer, whatever it held before. */
  lemma PackLoopResult<T>(shell: seq<int>, p: int, lo: int, n: int, d: seq<T>, init: seq<T>)
    requires p >= 1 && 0 <= lo && 0 <= n && lo + n <= |shell| && n <= |d| && |init| == n
    ensures PackLoop(shell, p, lo, n, d, n, init) == SendBuffer(shell, p, lo, n, d)
  {
    PackLoopPacked(shell, p, lo, n, d, n, init);
    PackedAll(shell, p, lo, n, d, PackLoop(shell, p, lo, n, d, n, init));
  }

  /** Once every entry is stored, the buffer is the send buffer. */
  lemma PackedAll<T>(shell: seq<int>, p: int, lo: int, n: int, d: seq<T>, b: seq<T>)
    requires p >= 1 && 0 <= lo && 0 <= n && lo + n <= |shell| && n <= |d|
    requires Packed(shell, p, lo, n, d, n, b)
    ensures b == SendBuffer(shell, p, lo, n, d)
  {
    var h := Histogram(shell, p, lo, n);
    var bs := Buckets(shell, p, lo, n, d);
    HistogramCounts(shell, p, lo, n);
    forall q | 0 <= q < p
      ensures Blocks(b, h)[q] == bs[q]
    {
      assert Block(b, h, q)[..h[q]] == Block(b, h, q);
    }
    assert Blocks(b, h) == bs;
    BlocksTile(b, h);
  }

  /** The position the loops compute, a2a_send.offsets[r] + counts[r] with counts the
      histogram of the entries before i, is the send position of entry i. */
  lemma SendPosIs(shell: seq<int>, p: int, lo: int, n: int, i: int, offsets: seq<int>, counts: seq<int>)
    requires p >= 1 && 0 <= lo && 0 <= i < n && lo + n <= |shell|
    requires offsets == Offsets(Histogram(shell, p, lo, n)) && counts == Histogram(shell, p, lo, i)
    ensures var o := Owner(shell[lo + i], p);
            offsets[o] + counts[o] == SendPos(shell, p, lo, n, i)
  {
    OffsetsPrefixSums(Histogram(shell, p, lo, n));
    HistogramCounts(shell, p, lo, i);
  }

  /** send_buf of remap_forward on rank r, for the payload d of its G-vectors. */
  function SendBufferOf<T>(g: Gvec, r: int, d: seq<T>): (sb: seq<T>)
    requires LayoutOf(g) && 0 <= r < g.numRanks && |d| == g.gvecCounts[r]
    ensures |sb| == g.gvecCounts[r] && Fits(sb, SendCountsOf(g, r))
  {
    RankRun(g, r);
    BucketLengths(g.shell, g.numRanks, g.gvecOffsets[r], g.gvecCounts[r], d);
    SendBuffer(g.shell, g.numRanks, g.gvecOffsets[r], g.gvecCounts[r], d)
  }

  /** data__ after remap_backward on rank r, given the buffer the reverse exchange returned. */
  function UnpackedOf<T>(g: Gvec, r: int, buf: seq<T>): (d: seq<T>)
    requires LayoutOf(g) && 0 <= r < g.numRanks && |buf| == g.gvecCounts[r]
    ensures |d| == g.gvecCounts[r]
  {
    RankRun(g, r);
    Unpacked(g.shell, g.numRanks, g.gvecOffsets[r], g.gvecCounts[r], buf)
  }

  /** The packing loop of remap_forward: every local entry stored at
      a2a_send.offsets[r] + counts[r] for the owner r of its shell. */
  method PackForward<T(0)>(g: Gvec, s: Shells, data: seq<T>) returns (sendBuf: array<T>)
    requires LayoutOf(g) && s.rank == g.rank && CountsFor(g, s)
    requires |data| == g.gvecCounts[g.rank]
    ensures sendBuf[..] == SendBufferOf(g, g.rank, data)
    ensures fresh(sendBuf)
  {
    var p := g.numRanks;
    RankRun(g, g.rank);
    var offset := g.gvecOffsets[g.rank];
    var n := g.gvecCounts[g.rank];
    sendBuf := new T[n];
    ghost var init := sendBuf[..];
    var counts := Zeros(p);
    for igloc := 0 to n
      invariant counts == Histogram(g.shell, p, offset, igloc)
      invariant sendBuf[..] == PackLoop(g.shell, p, offset, n, data, igloc, init)
    {
      var ig := offset + igloc;
      var igsh := g.shell[ig];
      var r := Owner(igsh, p);
      assert r == Owner(g.shell[offset + igloc], p);
      SendPosIs(g.shell, p, offset, n, igloc, s.sendOffsets, counts);
      HistogramStep(g.shell, p, offset, igloc);
      assert PackLoop(g.shell, p, offset, n, data, igloc + 1, init)
          == PackLoop(g.shell, p, offset, n, data, igloc, init)[SendPos(g.shell, p, offset, n, igloc) := data[igloc]];
      sendBuf[s.sendOffsets[r] + counts[r]] := data[igloc];
      counts := counts[r := counts[r] + 1];
      assert counts == Histogram(g.shell, p, offset, igloc + 1);
      assert sendBuf[..] == PackLoop(g.shell, p, offset, n, data, igloc + 1, init);
    }
    PackLoopResult(g.shell, p, offset, n, data, init);
  }

  /** The unpacking loop of remap_backward: every local entry read back from
      a2a_send.offsets[r] + counts[r], the slot remap_forward stored it in. */
  method UnpackBackward<T>(g: Gvec, s: Shells, recvBuf: seq<T>, data: array<T>)
    requires LayoutOf(g) && s.rank == g.rank && CountsFor(g, s)
    requires |recvBuf| == g.gvecCounts[g.rank] && data.Length == g.gvecCounts[g.rank]
    modifies data
    ensures data[..] == UnpackedOf(g, g.rank, recvBuf)
  {
    var p := g.numRanks;
    RankRun(g, g.rank);
    var offset := g.gvecOffsets[g.rank];
    var n := g.gvecCounts[g.rank];
    var counts := Zeros(p);
    for igloc := 0 to n
      invariant counts == Histogram(g.shell, p, offset, igloc)
      invariant forall i :: 0 <= i < igloc ==> data[i] == recvBuf[SendPos(g.shell, p, offset, n, i)]
    {
      var ig := offset + igloc;
      var igsh := g.shell[ig];
      var r := Owner(igsh, p);
      assert r == Owner(g.shell[offset + igloc], p);
      SendPosIs(g.shell, p, offset, n, igloc, s.sendOffsets, counts);
      HistogramStep(g.shell, p, offset, igloc);
      data[igloc] := recvBuf[s.sendOffsets[r] + counts[r]];
      assert data[igloc] == recvBuf[SendPos(g.shell, p, offset, n, igloc)];
      counts := counts[r := counts[r] + 1];
      assert counts == Histogram(g.shell, p, offset, igloc + 1);
    }
  }

  /*** Accessors ***/

  /** gvec_count_remapped: the size of the receive descriptor, i.e. the number of G-vectors
      whose shell this rank owns, which is the length of the remapped lists. */
  function GvecCountRemapped(g: Gvec, s: Shells): (n: int)
    requires LayoutOf(g) && CountsFor(g, s)
    ensures n == |s.shellRemapped| == OwnedCount(g.shell, g.numRanks, s.rank, 0, |g.shell|)
  {
    RecvPrefix(g, s.rank, g.numRanks);
    PrefixSumTotal(s.recvCounts);
    DescriptorSize(s.recvCounts, s.recvOffsets)
  }

  /** index_by_gvec: the local index of G in the remapped set, or -1 when G is not there. */
  function IndexInRemapped(s: Shells, v: Vec): (i: int)
    requires IndexedBy(s.gvecRemapped, s.idxGvec)
    ensures i == -1 <==> v !in s.gvecRemapped
    ensures i != -1 ==> 0 <= i < |s.gvecRemapped| && s.gvecRemapped[i] == v
  {
    if v in s.idxGvec then s.idxGvec[v] else -1
  }

  /** The remapped vectors are distinct, so looking one up finds its own local index. */
  lemma IndexRemappedRoundTrip(g: Gvec, s: Shells, k: int)
    requires ConstructedFrom(g, s) && 0 <= k < |s.gvecRemapped|
    ensures IndexInRemapped(s, s.gvecRemapped[k]) == k
  {
    AllVectorsDistinct(g);
    PickedDistinct(g.shell, g.numRanks, s.rank, 0, |g.shell|, AllVectors(g));
  }

  /** Every remapped entry is a G-vector of a shell this rank owns, stored with that shell. */
  lemma RemappedEntry(g: Gvec, s: Shells, k: int) returns (ig: int)
    requires ConstructedFrom(g, s) && 0 <= k < |s.gvecRemapped|
    ensures 0 <= ig < g.numGvec
    ensures s.gvecRemapped[k] == GvecOf(g, ig) && s.shellRemapped[k] == Shell(g, ig)
    ensures Owner(Shell(g, ig), g.numRanks) == s.rank
  {
    ig := PickedFrom(g.shell, g.numRanks, s.rank, 0, |g.shell|, AllVectors(g), k);
    PickedAt(g.shell, g.numRanks, s.rank, 0, |g.shell|, g.shell, ig);
  }

  /** Every G-vector of a shell this rank owns is in the remapped set, after the owned
      G-vectors that precede it in the global order: the shells are complete. */
  lemma RemappedComplete(g: Gvec, s: Shells, ig: int)
    requires ConstructedFrom(g, s) && 0 <= ig < g.numGvec
    requires Owner(Shell(g, ig), g.numRanks) == s.rank
    ensures IndexInRemapped(s, GvecOf(g, ig)) == OwnedCount(g.shell, g.numRanks, s.rank, 0, ig)
    ensures s.shellRemapped[IndexInRemapped(s, GvecOf(g, ig))] == Shell(g, ig)
  {
    var k := OwnedCount(g.shell, g.numRanks, s.rank, 0, ig);
    PickedAt(g.shell, g.numRanks, s.rank, 0, |g.shell|, AllVectors(g), ig);
    PickedAt(g.shell, g.numRanks, s.rank, 0, |g.shell|, g.shell, ig);
    IndexRemappedRoundTrip(g, s, k);
  }

  /** A vector is in the remapped set exactly when it is a G-vector whose shell this rank
      owns; index_by_gvec answers -1 for every other vector. */
  lemma RemappedMembers(g: Gvec, s: Shells, v: Vec)
    requires ConstructedFrom(g, s)
    ensures v in s.gvecRemapped <==>
              exists ig :: 0 <= ig < g.numGvec && GvecOf(g, ig) == v && Owner(Shell(g, ig), g.numRanks) == s.rank
  {
    if v in s.gvecRemapped {
      var k := IndexInRemapped(s, v);
      var ig := RemappedEntry(g, s, k);
    }
    if exists ig :: 0 <= ig < g.numGvec && GvecOf(g, ig) == v && Owner(Shell(g, ig), g.numRanks) == s.rank {
      var ig :| 0 <= ig < g.numGvec && GvecOf(g, ig) == v && Owner(Shell(g, ig), g.numRanks) == s.rank;
      RemappedComplete(g, s, ig);
    }
  }

  /** The remapped sizes of all ranks, the terms of the constructor's allreduce. */
  function RemappedSizes(g: Gvec, ss: seq<Shells>): (c: seq<int>)
    requires LayoutOf(g) && |ss| == g.numRanks
    requires forall q :: 0 <= q < g.numRanks ==> ss[q].rank == q && CountsFor(g, ss[q])
    ensures |c| == g.numRanks && forall q :: 0 <= q < g.numRanks ==> c[q] == GvecCountRemapped(g, ss[q])
  {
    seq(g.numRanks, q requires 0 <= q < g.numRanks => GvecCountRemapped(g, ss[q]))
  }

  /** The second sanity check of the constructor: the remapped sizes add up to num_gvec,
      since every shell has exactly one owner. */
  lemma RemappedTotal(g: Gvec, ss: seq<Shells>)
    requires Consistent(g) && g.bare && LayoutOf(g) && |ss| == g.numRanks
    requires forall q :: 0 <= q < g.numRanks ==> ss[q].rank == q && CountsFor(g, ss[q])
    ensures Sum(RemappedSizes(g, ss)) == g.numGvec
  {
    GvecLayout(g);
    var n := |g.shell|;
    HistogramCounts(g.shell, g.numRanks, 0, n);
    HistogramSum(g.shell, g.numRanks, 0, n);
    assert RemappedSizes(g, ss) == Histogram(g.shell, g.numRanks, 0, n);
  }

  /*** The exchange across all ranks ***/

  /** One payload per rank, as long as that rank's share of the G-vectors. */
  ghost predicate Payloads<T>(g: Gvec, ds: seq<seq<T>>)
    requires LayoutOf(g)
  {
    |ds| == g.numRanks && forall r :: 0 <= r < g.numRanks ==> |ds[r]| == g.gvecCounts[r]
  }

  /** Rank r's share of a global array: the entries of its G-vectors. */
  function Share<T>(g: Gvec, all: seq<T>, r: int): (d: seq<T>)
    requires LayoutOf(g) && |all| == |g.shell| && 0 <= r < g.numRanks
    ensures |d| == g.gvecCounts[r]
    ensures forall i :: 0 <= i < |d| ==> 0 <= g.gvecOffsets[r] + i < |all| && d[i] == all[g.gvecOffsets[r] + i]
  {
    RankRun(g, r);
    all[g.gvecOffsets[r]..g.gvecOffsets[r] + g.gvecCounts[r]]
  }

  /** A global array cut into the ranks' local shares (data__ on every rank). */
  function Split<T>(g: Gvec, all: seq<T>): (ds: seq<seq<T>>)
    requires LayoutOf(g) && |all| == |g.shell|
    ensures Payloads(g, ds) && forall r :: 0 <= r < g.numRanks ==> ds[r] == Share(g, all, r)
  {
    seq(g.numRanks, r requires 0 <= r < g.numRanks => Share(g, all, r))
  }

  /** The send buffers of all ranks. */
  function SendBuffers<T>(g: Gvec, ds: seq<seq<T>>): (bufs: seq<seq<T>>)
    requires LayoutOf(g) && Payloads(g, ds)
    ensures |bufs| == g.numRanks && forall r :: 0 <= r < g.numRanks ==> bufs[r] == SendBufferOf(g, r, ds[r])
    ensures Sendable(bufs, SendMatrix(g))
  {
    seq(g.numRanks, r requires 0 <= r < g.numRanks => SendBufferOf(g, r, ds[r]))
  }

  /** remap_forward on every rank: what each rank receives in the exchange. */
  function RemapForward<T>(g: Gvec, ds: seq<seq<T>>): (out: seq<seq<T>>)
    requires LayoutOf(g) && Payloads(g, ds)
    ensures |out| == g.numRanks
  {
    Alltoall(SendBuffers(g, ds), SendMatrix(g))
  }

  /** The reverse exchange returns to every rank as many entries as it holds G-vectors. */
  lemma BackSizes<T>(g: Gvec, bufs: seq<seq<T>>)
    requires LayoutOf(g) && Sendable(bufs, Transpose(SendMatrix(g)))
    ensures forall r :: 0 <= r < g.numRanks ==>
              |Alltoall(bufs, Transpose(SendMatrix(g)))[r]| == g.gvecCounts[r]
  {
    var m := SendMatrix(g);
    AlltoallSendable(bufs, Transpose(m));
    TransposeTwice(m);
    forall r | 0 <= r < g.numRanks
      ensures |Alltoall(bufs, Transpose(m))[r]| == g.gvecCounts[r]
    {
      RankRun(g, r);
      HistogramSum(g.shell, g.numRanks, g.gvecOffsets[r], g.gvecCounts[r]);
    }
  }

  /** remap_backward on every rank: the exchange with the counts swapped, then each rank
      unpacks what came back. */
  function RemapBackward<T>(g: Gvec, bufs: seq<seq<T>>): (ds: seq<seq<T>>)
    requires LayoutOf(g) && Sendable(bufs, Transpose(SendMatrix(g)))
    ensures Payloads(g, ds)
  {
    BackSizes(g, bufs);
    var back := Alltoall(bufs, Transpose(SendMatrix(g)));
    seq(g.numRanks, r requires 0 <= r < g.numRanks => UnpackedOf(g, r, back[r]))
  }

  /** Rank r gets back its own payload. */
  lemma ReturnedPayload<T>(g: Gvec, ds: seq<seq<T>>, r: int)
    requires LayoutOf(g) && Payloads(g, ds) && 0 <= r < g.numRanks
    ensures Sendable(RemapForward(g, ds), Transpose(SendMatrix(g)))
    ensures RemapBackward(g, RemapForward(g, ds))[r] == ds[r]
  {
    var bufs := SendBuffers(g, ds);
    var m := SendMatrix(g);
    var fwd := RemapForward(g, ds);
    assert fwd == Alltoall(bufs, m);
    AlltoallInverse(bufs, m);
    var ret := Alltoall(fwd, Transpose(m));
    assert ret[r] == bufs[r] == SendBufferOf(g, r, ds[r]);
    assert RemapBackward(g, fwd)[r] == UnpackedOf(g, r, ret[r]);
    RankRun(g, r);
    UnpackSendBuffer(g.shell, g.numRanks, g.gvecOffsets[r], g.gvecCounts[r], ds[r]);
  }

  /** remap_backward undoes remap_forward: every rank gets back exactly its payload. */
  lemma RemapRoundTrip<T>(g: Gvec, ds: seq<seq<T>>)
    requires LayoutOf(g) && Payloads(g, ds)
    ensures Sendable(RemapForward(g, ds), Transpose(SendMatrix(g)))
    ensures RemapBackward(g, RemapForward(g, ds)) == ds
  {
    AlltoallInverse(SendBuffers(g, ds), SendMatrix(g));
    forall r | 0 <= r < g.numRanks
      ensures RemapBackward(g, RemapForward(g, ds))[r] == ds[r]
    {
      ReturnedPayload(g, ds, r);
    }
  }

  /** Picking from a run is picking from its two halves. */
  lemma {:induction false} PickedSplit<T>(shell: seq<int>, p: int, q: int, lo: int, a: int, b: int, d: seq<T>, e: seq<T>)
    requires p >= 1 && 0 <= lo && 0 <= a && 0 <= b && lo + a + b <= |shell| && a + b <= |d| && b <= |e|
    requires forall i :: 0 <= i < b ==> e[i] == d[a + i]
    ensures Picked(shell, p, q, lo, a + b, d) == Picked(shell, p, q, lo, a, d) + Picked(shell, p, q, lo + a, b, e)
    decreases b
  {
    if b > 0 {
      var j := b - 1;
      PickedSplit(shell, p, q, lo, a, j, d, e);
      assert a + b - 1 == a + j;
      assert lo + a + b - 1 == lo + a + j;
      assert e[j] == d[a + j];
    }
  }

  /** The block rank r sends to rank q holds r's entries whose shell q owns. */
  lemma SentBlock<T>(g: Gvec, ds: seq<seq<T>>, r: int, q: int)
    requires LayoutOf(g) && Payloads(g, ds) && 0 <= r < g.numRanks && 0 <= q < g.numRanks
    ensures 0 <= g.gvecOffsets[r] && g.gvecOffsets[r] + g.gvecCounts[r] <= |g.shell|
    ensures Block(SendBufferOf(g, r, ds[r]), SendCountsOf(g, r), q)
            == Picked(g.shell, g.numRanks, q, g.gvecOffsets[r], g.gvecCounts[r], ds[r])
  {
    RankRun(g, r);
    var bs := Buckets(g.shell, g.numRanks, g.gvecOffsets[r], g.gvecCounts[r], ds[r]);
    BucketLengths(g.shell, g.numRanks, g.gvecOffsets[r], g.gvecCounts[r], ds[r]);
    FlattenBlock(bs, q);
  }

  /** Picking from the G-vectors up to the end of rank j's run is picking up to its start,
      then from rank j's share. */
  lemma ShareSplit<T>(g: Gvec, all: seq<T>, q: int, j: int)
    requires LayoutOf(g) && |all| == |g.shell| && 0 <= q < g.numRanks && 0 <= j < g.numRanks
    ensures 0 <= g.gvecOffsets[j] && g.gvecOffsets[j] + g.gvecCounts[j] <= |g.shell|
    ensures Picked(g.shell, g.numRanks, q, 0, g.gvecOffsets[j] + g.gvecCounts[j], all)
            == Picked(g.shell, g.numRanks, q, 0, g.gvecOffsets[j], all)
               + Picked(g.shell, g.numRanks, q, g.gvecOffsets[j], g.gvecCounts[j], Share(g, all, j))
  {
    RankRun(g, j);
    PickedSplit(g.shell, g.numRanks, q, 0, g.gvecOffsets[j], g.gvecCounts[j], all, Share(g, all, j));
  }

  /** What rank q receives from rank j: the entries of j's share whose shell q owns. */
  lemma ForwardBlock<T>(g: Gvec, all: seq<T>, q: int, j: int)
    requires LayoutOf(g) && |all| == |g.shell| && 0 <= q < g.numRanks && 0 <= j < g.numRanks
    ensures 0 <= g.gvecOffsets[j] && g.gvecOffsets[j] + g.gvecCounts[j] <= |g.shell|
    ensures |Incoming(SendBuffers(g, Split(g, all)), SendMatrix(g), q)| == g.numRanks
    ensures Incoming(SendBuffers(g, Split(g, all)), SendMatrix(g), q)[j]
            == Picked(g.shell, g.numRanks, q, g.gvecOffsets[j], g.gvecCounts[j], Share(g, all, j))
  {
    var ds := Split(g, all);
    SentBlock(g, ds, j, q);
    assert ds[j] == Share(g, all, j);
  }

  /** Block j of inc holds the entries of rank j's share whose shell q owns. */
  ghost predicate PicksShares<T>(g: Gvec, all: seq<T>, q: int, inc: seq<seq<T>>)
    requires LayoutOf(g) && |all| == |g.shell| && 0 <= q < g.numRanks
  {
    && |inc| == g.numRanks
    && forall j :: 0 <= j < g.numRanks ==>
         && 0 <= g.gvecOffsets[j] && g.gvecOffsets[j] + g.gvecCounts[j] <= |g.shell|
         && inc[j] == Picked(g.shell, g.numRanks, q, g.gvecOffsets[j], g.gvecCounts[j], Share(g, all, j))
  }

  /** One more rank's block extends the picked prefix by that rank's run. */
  lemma ForwardStep<T>(g: Gvec, all: seq<T>, q: int, inc: seq<seq<T>>, k: int)
    requires LayoutOf(g) && |all| == |g.shell| && 0 <= q < g.numRanks && 0 < k <= |inc| && k <= g.numRanks
    requires 0 <= PrefixSum(g.gvecCounts, k - 1) <= |g.shell|
    requires Flatten(inc[..k - 1]) == Picked(g.shell, g.numRanks, q, 0, PrefixSum(g.gvecCounts, k - 1), all)
    requires 0 <= g.gvecOffsets[k - 1] && g.gvecOffsets[k - 1] + g.gvecCounts[k - 1] <= |g.shell|
    requires inc[k - 1] == Picked(g.shell, g.numRanks, q, g.gvecOffsets[k - 1], g.gvecCounts[k - 1], Share(g, all, k - 1))
    ensures 0 <= PrefixSum(g.gvecCounts, k) <= |g.shell|
    ensures Flatten(inc[..k]) == Picked(g.shell, g.numRanks, q, 0, PrefixSum(g.gvecCounts, k), all)
  {
    var j := k - 1;
    FlattenStep(inc, k);
    assert g.gvecOffsets[j] == PrefixSum(g.gvecCounts, j);
    assert PrefixSum(g.gvecCounts, k) == PrefixSum(g.gvecCounts, j) + g.gvecCounts[j];
    ShareSplit(g, all, q, j);
    var off, cnt := g.gvecOffsets[j], g.gvecCounts[j];
    assert Flatten(inc[..j]) == Picked(g.shell, g.numRanks, q, 0, off, all);
    assert Flatten(inc[..k]) == Flatten(inc[..j]) + inc[j];
    assert Picked(g.shell, g.numRanks, q, 0, off + cnt, all)
        == Picked(g.shell, g.numRanks, q, 0, off, all) + Picked(g.shell, g.numRanks, q, off, cnt, Share(g, all, j));
  }

  /** Blocks that each pick from one rank's share, flattened over the ranks before k, pick
      from the whole array up to the end of rank k - 1's run. */
  lemma {:induction false} ForwardPrefix<T>(g: Gvec, all: seq<T>, q: int, inc: seq<seq<T>>, k: int)
    requires LayoutOf(g) && |all| == |g.shell| && 0 <= q < g.numRanks && 0 <= k <= g.numRanks
    requires PicksShares(g, all, q, inc)
    ensures 0 <= PrefixSum(g.gvecCounts, k) <= |g.shell|
    ensures Flatten(inc[..k]) == Picked(g.shell, g.numRanks, q, 0, PrefixSum(g.gvecCounts, k), all)
    decreases k
  {
    if k == 0 {
      assert inc[..0] == [];
    } else {
      ForwardPrefix(g, all, q, inc, k - 1);
      ForwardStep(g, all, q, inc, k);
    }
  }

  /** Over all ranks, the blocks pick from the whole array. */
  lemma PicksAll<T>(g: Gvec, all: seq<T>, q: int, inc: seq<seq<T>>)
    requires LayoutOf(g) && |all| == |g.shell| && 0 <= q < g.numRanks
    requires PicksShares(g, all, q, inc)
    ensures Flatten(inc) == Picked(g.shell, g.numRanks, q, 0, |g.shell|, all)
  {
    ForwardPrefix(g, all, q, inc, g.numRanks);
    assert inc[..g.numRanks] == inc;
  }

  /** Every rank's block for rank q picks from that rank's share. */
  lemma IncomingPicks<T>(g: Gvec, all: seq<T>, q: int)
    requires LayoutOf(g) && |all| == |g.shell| && 0 <= q < g.numRanks
    ensures PicksShares(g, all, q, Incoming(SendBuffers(g, Split(g, all)), SendMatrix(g), q))
  {
    forall j | 0 <= j < g.numRanks
      ensures 0 <= g.gvecOffsets[j] && g.gvecOffsets[j] + g.gvecCounts[j] <= |g.shell|
      ensures Incoming(SendBuffers(g, Split(g, all)), SendMatrix(g), q)[j]
              == Picked(g.shell, g.numRanks, q, g.gvecOffsets[j], g.gvecCounts[j], Share(g, all, j))
    {
      ForwardBlock(g, all, q, j);
    }
  }

  /** remap_forward of a global array cut into the ranks' shares delivers to each rank the
      entries of the G-vectors whose shell it owns, in global order. */
  lemma ForwardDelivers<T>(g: Gvec, all: seq<T>, q: int)
    requires LayoutOf(g) && |all| == |g.shell| && 0 <= q < g.numRanks
    ensures RemapForward(g, Split(g, all))[q] == Picked(g.shell, g.numRanks, q, 0, |g.shell|, all)
  {
    var inc := Incoming(SendBuffers(g, Split(g, all)), SendMatrix(g), q);
    IncomingPicks(g, all, q);
    PicksAll(g, all, q, inc);
    assert RemapForward(g, Split(g, all))[q] == Flatten(inc);
  }

  /** The order the constructor lays out is the order the exchange delivers: remapping the
      G-vectors and their shell indices forward gives gvec_remapped_ and gvec_shell_remapped_. */
  lemma ForwardMatchesRemapped(g: Gvec, s: Shells)
    requires ConstructedFrom(g, s)
    ensures RemapForward(g, Split(g, AllVectors(g)))[s.rank] == s.gvecRemapped
    ensures RemapForward(g, Split(g, g.shell))[s.rank] == s.shellRemapped
  {
    ForwardDelivers(g, AllVectors(g), s.rank);
    ForwardDelivers(g, g.shell, s.rank);
  }
}
