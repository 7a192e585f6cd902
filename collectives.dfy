/** The personalised all-to-all exchange (Communicator::alltoall, MPI_Alltoallv) that
    Gvec_shells uses to move payloads between ranks, as a pure function of the send buffers
    of all ranks. Rank r sends sc[r][q] elements to rank q, taken from its buffer at the
    prefix sum of sc[r] before q; rank q receives them at the prefix sum of its receive
    counts before r, i.e. the blocks from ranks 0, 1, ... in rank order. */
module Collectives {
  import opened Seqs

  /** The counts are non-negative and together cover the whole buffer. */
  ghost predicate Fits<T>(buf: seq<T>, counts: seq<int>)
  {
    && (forall q :: 0 <= q < |counts| ==> counts[q] >= 0)
    && PrefixSum(counts, |counts|) == |buf|
  }

  /** The counts[q] elements of buf that go to (or came from) rank q. */
  function Block<T>(buf: seq<T>, counts: seq<int>, q: int): (b: seq<T>)
    requires Fits(buf, counts) && 0 <= q < |counts|
    ensures |b| == counts[q]
  {
    PrefixSumGrows(counts, 0, q);
    PrefixSumGrows(counts, q + 1, |counts|);
    buf[PrefixSum(counts, q)..PrefixSum(counts, q) + counts[q]]
  }

  /** Element t of block q is element (prefix sum before q) + t of the buffer. */
  lemma BlockAt<T>(buf: seq<T>, counts: seq<int>, q: int, t: int)
    requires Fits(buf, counts) && 0 <= q < |counts| && 0 <= t < counts[q]
    ensures 0 <= PrefixSum(counts, q) + t < |buf|
    ensures Block(buf, counts, q)[t] == buf[PrefixSum(counts, q) + t]
  {
    PrefixSumGrows(counts, 0, q);
    PrefixSumGrows(counts, q + 1, |counts|);
  }

  /** Writing an element of block o changes that block at the same place inside it. */
  lemma BlockWrite<T>(buf: seq<T>, counts: seq<int>, o: int, t: int, x: T)
    requires Fits(buf, counts) && 0 <= o < |counts| && 0 <= t < counts[o]
    ensures 0 <= PrefixSum(counts, o) + t < |buf|
    ensures Fits(buf[PrefixSum(counts, o) + t := x], counts)
    ensures Block(buf[PrefixSum(counts, o) + t := x], counts, o) == Block(buf, counts, o)[t := x]
  {
    PrefixSumGrows(counts, 0, o);
    PrefixSumGrows(counts, o + 1, |counts|);
    var st := PrefixSum(counts, o);
    var b := Block(buf, counts, o);
    var b' := Block(buf[st + t := x], counts, o);
    forall i | 0 <= i < counts[o]
      ensures b'[i] == b[t := x][i]
    {
      assert b'[i] == buf[st + t := x][st + i];
    }
  }

  /** Writing an element of block o leaves every other block as it was. */
  lemma BlockWriteElsewhere<T>(buf: seq<T>, counts: seq<int>, o: int, t: int, x: T, q: int)
    requires Fits(buf, counts) && 0 <= o < |counts| && 0 <= t < counts[o]
    requires 0 <= q < |counts| && q != o
    ensures 0 <= PrefixSum(counts, o) + t < |buf|
    ensures Fits(buf[PrefixSum(counts, o) + t := x], counts)
    ensures Block(buf[PrefixSum(counts, o) + t := x], counts, q) == Block(buf, counts, q)
  {
    PrefixSumGrows(counts, 0, o);
    PrefixSumGrows(counts, o + 1, |counts|);
    var j := PrefixSum(counts, o) + t;
    PrefixSumGrows(counts, q + 1, |counts|);
    if q < o {
      PrefixSumGrows(counts, q + 1, o);
    } else {
      PrefixSumGrows(counts, o + 1, q);
    }
    var sq := PrefixSum(counts, q);
    var buf' := buf[j := x];
    assert Fits(buf', counts);
    forall i | 0 <= i < counts[q]
      ensures Block(buf', counts, q)[i] == Block(buf, counts, q)[i]
    {
      BlockAt(buf, counts, q, i);
      BlockAt(buf', counts, q, i);
      assert sq + i != j;
    }
  }

  /** buf cut into its blocks, one per rank. */
  function Blocks<T>(buf: seq<T>, counts: seq<int>): (bs: seq<seq<T>>)
    requires Fits(buf, counts)
    ensures |bs| == |counts|
  {
    seq(|counts|, q requires 0 <= q < |counts| => Block(buf, counts, q))
  }

  /** Every rank has a buffer and a row of p send counts that fits it. */
  ghost predicate Sendable<T>(bufs: seq<seq<T>>, sc: seq<seq<int>>)
  {
    && |sc| == |bufs|
    && forall r :: 0 <= r < |bufs| ==> |sc[r]| == |bufs| && Fits(bufs[r], sc[r])
  }

  /** What rank q is sent: column q of the count matrix, i.e. its receive counts. */
  function Column(sc: seq<seq<int>>, q: int): (c: seq<int>)
    requires 0 <= q && forall r :: 0 <= r < |sc| ==> q < |sc[r]|
    ensures |c| == |sc| && forall r :: 0 <= r < |sc| ==> c[r] == sc[r][q]
  {
    seq(|sc|, r requires 0 <= r < |sc| => sc[r][q])
  }

  /** The receive counts of every rank: the transposed send counts. */
  function Transpose(sc: seq<seq<int>>): (t: seq<seq<int>>)
    requires forall r :: 0 <= r < |sc| ==> |sc[r]| == |sc|
    ensures |t| == |sc| && forall q :: 0 <= q < |sc| ==> t[q] == Column(sc, q)
  {
    seq(|sc|, q requires 0 <= q < |sc| => Column(sc, q))
  }

  /** Transposing twice gives back the count matrix. */
  lemma TransposeTwice(sc: seq<seq<int>>)
    requires forall r :: 0 <= r < |sc| ==> |sc[r]| == |sc|
    ensures Transpose(Transpose(sc)) == sc
  {
    var t := Transpose(sc);
    var tt := Transpose(t);
    forall r | 0 <= r < |sc|
      ensures tt[r] == sc[r]
    {
      assert |tt[r]| == |sc[r]|;
      forall q | 0 <= q < |sc|
        ensures tt[r][q] == sc[r][q]
      {
        assert tt[r][q] == t[q][r];
      }
    }
  }

  /** The blocks rank q receives, in rank order. */
  function Incoming<T>(bufs: seq<seq<T>>, sc: seq<seq<int>>, q: int): (bs: seq<seq<T>>)
    requires Sendable(bufs, sc) && 0 <= q < |bufs|
    ensures |bs| == |bufs| && forall r :: 0 <= r < |bufs| ==> bs[r] == Block(bufs[r], sc[r], q)
  {
    seq(|bufs|, r requires 0 <= r < |bufs| => Block(bufs[r], sc[r], q))
  }

  /** The receive buffers of all ranks after the exchange. */
  function Alltoall<T>(bufs: seq<seq<T>>, sc: seq<seq<int>>): (out: seq<seq<T>>)
    requires Sendable(bufs, sc)
    ensures |out| == |bufs|
    ensures forall q :: 0 <= q < |bufs| ==> out[q] == Flatten(Incoming(bufs, sc, q))
  {
    seq(|bufs|, q requires 0 <= q < |bufs| => Flatten(Incoming(bufs, sc, q)))
  }

  /** The lengths of the incoming blocks are the receive counts. */
  lemma IncomingLengths<T>(bufs: seq<seq<T>>, sc: seq<seq<int>>, q: int)
    requires Sendable(bufs, sc) && 0 <= q < |bufs|
    ensures Lengths(Incoming(bufs, sc, q)) == Column(sc, q)
  {
  }

  /** Each rank's receive buffer is exactly as long as its receive counts say, so the
      exchange can be answered with the transposed counts. */
  lemma AlltoallSendable<T>(bufs: seq<seq<T>>, sc: seq<seq<int>>)
    requires Sendable(bufs, sc)
    ensures Sendable(Alltoall(bufs, sc), Transpose(sc))
  {
    var out := Alltoall(bufs, sc);
    forall q | 0 <= q < |bufs|
      ensures Fits(out[q], Transpose(sc)[q])
    {
      var bs := Incoming(bufs, sc, q);
      FlattenLength(bs);
      IncomingLengths(bufs, sc, q);
      PrefixSumTotal(Column(sc, q));
    }
  }

  /** The first k lists are the first k - 1 followed by list k - 1. */
  lemma FlattenStep<T>(ss: seq<seq<T>>, k: int)
    requires 0 < k <= |ss|
    ensures Flatten(ss[..k]) == Flatten(ss[..k - 1]) + ss[k - 1]
  {
    assert ss[..k][..k - 1] == ss[..k - 1];
  }

  /** The lists before r fill the prefix sum of their lengths. */
  lemma FlattenPrefixLength<T>(ss: seq<seq<T>>, r: int)
    requires 0 <= r <= |ss|
    ensures |Flatten(ss[..r])| == PrefixSum(Lengths(ss), r)
  {
    FlattenLength(ss[..r]);
    assert Lengths(ss[..r]) == Lengths(ss)[..r];
    PrefixSumIsSum(Lengths(ss), r);
  }

  /** List r sits in the concatenation right after the lists before it. */
  lemma FlattenSlice<T>(ss: seq<seq<T>>, r: int)
    requires 0 <= r < |ss|
    ensures |Flatten(ss[..r])| + |ss[r]| <= |Flatten(ss)|
    ensures Flatten(ss)[|Flatten(ss[..r])|..|Flatten(ss[..r])| + |ss[r]|] == ss[r]
  {
    var f := Flatten(ss);
    var head := Flatten(ss[..r]);
    FlattenPrefix(ss, r + 1);
    assert ss[..r + 1][..r] == ss[..r];
    assert Flatten(ss[..r + 1]) == head + ss[r];
    assert f[..|head| + |ss[r]|] == head + ss[r];
    assert f[|head|..|head| + |ss[r]|] == (head + ss[r])[|head|..];
  }

  /** Block r of a concatenation, located by the prefix sum of the lengths. */
  lemma FlattenBlock<T>(ss: seq<seq<T>>, r: int)
    requires 0 <= r < |ss|
    ensures Fits(Flatten(ss), Lengths(ss))
    ensures Block(Flatten(ss), Lengths(ss), r) == ss[r]
  {
    var ls := Lengths(ss);
    FlattenLength(ss);
    PrefixSumTotal(ls);
    FlattenPrefixLength(ss, r);
    FlattenSlice(ss, r);
  }

  /** The first k blocks of buf, concatenated, are the prefix they cover. */
  lemma {:induction false} BlocksPrefix<T>(buf: seq<T>, counts: seq<int>, k: int)
    requires Fits(buf, counts) && 0 <= k <= |counts|
    ensures 0 <= PrefixSum(counts, k) <= |buf|
    ensures Flatten(Blocks(buf, counts)[..k]) == buf[..PrefixSum(counts, k)]
    decreases k
  {
    PrefixSumGrows(counts, 0, k);
    PrefixSumGrows(counts, k, |counts|);
    if k > 0 {
      var bs := Blocks(buf, counts);
      BlocksPrefix(buf, counts, k - 1);
      assert bs[..k][..k - 1] == bs[..k - 1];
      assert bs[..k][k - 1] == Block(buf, counts, k - 1);
      assert buf[..PrefixSum(counts, k)] == buf[..PrefixSum(counts, k - 1)] + Block(buf, counts, k - 1);
    }
  }

  /** The blocks tile the buffer. */
  lemma BlocksTile<T>(buf: seq<T>, counts: seq<int>)
    requires Fits(buf, counts)
    ensures Flatten(Blocks(buf, counts)) == buf
  {
    var bs := Blocks(buf, counts);
    BlocksPrefix(buf, counts, |counts|);
    assert bs[..|counts|] == bs;
    assert buf[..PrefixSum(counts, |counts|)] == buf;
  }

  /** The block rank q received from rank r is the block rank r sent to q. */
  lemma ReceivedBlock<T>(bufs: seq<seq<T>>, sc: seq<seq<int>>, q: int, r: int)
    requires Sendable(bufs, sc) && 0 <= q < |bufs| && 0 <= r < |bufs|
    ensures Sendable(Alltoall(bufs, sc), Transpose(sc))
    ensures Block(Alltoall(bufs, sc)[q], Transpose(sc)[q], r) == Block(bufs[r], sc[r], q)
  {
    AlltoallSendable(bufs, sc);
    var bs := Incoming(bufs, sc, q);
    IncomingLengths(bufs, sc, q);
    FlattenBlock(bs, r);
  }

  /** Rank r gets back, block by block, the buffer it sent. */
  lemma ReturnedBuffer<T>(bufs: seq<seq<T>>, sc: seq<seq<int>>, r: int)
    requires Sendable(bufs, sc) && 0 <= r < |bufs|
    ensures Sendable(Alltoall(bufs, sc), Transpose(sc))
    ensures Flatten(Incoming(Alltoall(bufs, sc), Transpose(sc), r)) == bufs[r]
  {
    AlltoallSendable(bufs, sc);
    var bs := Incoming(Alltoall(bufs, sc), Transpose(sc), r);
    forall q | 0 <= q < |bufs|
      ensures bs[q] == Blocks(bufs[r], sc[r])[q]
    {
      ReceivedBlock(bufs, sc, q, r);
    }
    assert bs == Blocks(bufs[r], sc[r]);
    BlocksTile(bufs[r], sc[r]);
  }

  /** Answering an exchange with the transposed counts sends every element back where it
      came from: the backward remap undoes the forward one. */
  lemma AlltoallInverse<T>(bufs: seq<seq<T>>, sc: seq<seq<int>>)
    requires Sendable(bufs, sc)
    ensures Sendable(Alltoall(bufs, sc), Transpose(sc))
    ensures Alltoall(Alltoall(bufs, sc), Transpose(sc)) == bufs
  {
    AlltoallSendable(bufs, sc);
    var back := Alltoall(Alltoall(bufs, sc), Transpose(sc));
    forall r | 0 <= r < |bufs|
      ensures back[r] == bufs[r]
    {
      ReturnedBuffer(bufs, sc, r);
    }
  }
}
