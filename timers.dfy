/** The wall-clock timers of src/timer.cpp: a Timer is started and stopped; every stop
    appends the elapsed time to the label's history in one of two process-wide tables
    (Timer::timers_ for local timers, Timer::global_timers_ for global ones);
    collect_timer_stats turns the histories into count / total / min / max / average, for
    global timers aggregated over all MPI ranks. Clock readings are parameters, the MPI
    collectives are pure functions of every rank's tables, and double arithmetic is exact
    real arithmetic. */
module Timers {
  import opened Wrappers
  import opened Seqs
  import opened Collectives

  datatype TimerType = LocalTimer | GlobalTimer

  /** A gettimeofday reading. */
  datatype Timeval = Timeval(sec: int, usec: int)

  /** Seconds from t0 to t1, as Timer::stop computes them. */
  function Elapsed(t0: Timeval, t1: Timeval): real
  {
    (t1.sec - t0.sec) as real + (t1.usec - t0.usec) as real / 1000000.0
  }

  /** A table of sample histories by label. */
  type Histories = map<string, seq<real>>

  /** The history of a label: std::map::operator[] yields an empty one for a new label. */
  function History(m: Histories, name: string): seq<real>
  {
    if name in m then m[name] else []
  }

  /** Appending sample v to the history of label. */
  function Record(m: Histories, name: string, v: real): (m': Histories)
    ensures m'.Keys == m.Keys + {name}
    ensures History(m', name) == History(m, name) + [v]
    ensures forall l :: l != name ==> History(m', l) == History(m, l)
  {
    m[name := History(m, name) + [v]]
  }

  /** The sum of a history, accumulated from the front. */
  function SumReal(s: seq<real>): real
  {
    if |s| == 0 then 0.0 else SumReal(s[..|s| - 1]) + s[|s| - 1]
  }

  /** The sum of two histories laid end to end is the sum of their sums. */
  lemma {:induction false} SumRealAppend(a: seq<real>, b: seq<real>)
    ensures SumReal(a + b) == SumReal(a) + SumReal(b)
    decreases |b|
  {
    if |b| > 0 {
      var n := |b| - 1;
      SumRealAppend(a, b[..n]);
      assert (a + b)[..|a + b| - 1] == a + b[..n];
      assert (a + b)[|a + b| - 1] == b[n];
    } else {
      assert a + b == a;
    }
  }

  /** Recording a sample adds it to the label's total and leaves the other totals alone. */
  lemma RecordedTotal(m: Histories, name: string, v: real, other: string)
    ensures SumReal(History(Record(m, name, v), name)) == SumReal(History(m, name)) + v
    ensures other != name ==> SumReal(History(Record(m, name, v), other)) == SumReal(History(m, other))
  {
    SumRealAppend(History(m, name), [v]);
    assert SumReal([v]) == SumReal([]) + v;
  }

  /** The two process-wide tables shared by all timers (the static members of Timer). */
  class Registry {
    var timers: Histories
    var globalTimers: Histories

    constructor ()
      ensures timers == map[] && globalTimers == map[]
    {
      timers := map[];
      globalTimers := map[];
    }
  }

  class Timer {
    const name: string
    const timerType: TimerType
    const registry: Registry
    var active: bool
    var startingTime: Timeval

    /** A timer that is not running yet. */
    constructor (name: string, timerType: TimerType, registry: Registry)
      ensures this.name == name && this.timerType == timerType && this.registry == registry
      ensures !active
    {
      this.name := name;
      this.timerType := timerType;
      this.registry := registry;
      active := false;
      startingTime := Timeval(0, 0);
    }

    /** The table this timer records into. */
    function Table(): Histories
      reads this, registry
    {
      match timerType
      case LocalTimer => registry.timers
      case GlobalTimer => registry.globalTimers
    }

    /** The samples recorded so far under this timer's label. */
    function Samples(): seq<real>
      reads this, registry
    {
      History(Table(), name)
    }

    /** Starting a running timer aborts; otherwise the clock reading is kept and the timer runs. */
    method Start(now: Timeval)
      requires !active
      modifies this
      ensures active && startingTime == now
    {
      startingTime := now;
      active := true;
    }

    /** Stopping a timer that is not running aborts; otherwise exactly one sample, the time
        since Start, is appended to the label's history in the table of the timer's type,
        the other table is untouched, and the timer stops. */
    method Stop(now: Timeval)
      requires active
      modifies this, registry
      ensures !active && startingTime == old(startingTime)
      ensures timerType == LocalTimer ==>
                registry.timers == Record(old(registry.timers), name, Elapsed(old(startingTime), now))
                && registry.globalTimers == old(registry.globalTimers)
      ensures timerType == GlobalTimer ==>
                registry.globalTimers == Record(old(registry.globalTimers), name, Elapsed(old(startingTime), now))
                && registry.timers == old(registry.timers)
      ensures Samples() == old(Samples()) + [Elapsed(old(startingTime), now)]
    {
      var val := Elapsed(startingTime, now);
      match timerType {
        case LocalTimer =>
          registry.timers := registry.timers[name := History(registry.timers, name) + [val]];
        case GlobalTimer =>
          registry.globalTimers := registry.globalTimers[name := History(registry.globalTimers, name) + [val]];
      }
      active := false;
    }

    /** A running timer is an error; otherwise the sum of the label's samples (0 for none).
        Looking the label up inserts an empty history for a label never stopped. */
    method Value() returns (r: Result<real, string>)
      modifies registry
      ensures old(active) ==> r == Failure("timer " + name + " is active") && unchanged(registry)
      ensures !old(active) ==> r == Success(SumReal(old(Samples())))
      ensures !old(active) ==> Samples() == old(Samples()) && Table() == old(Table())[name := old(Samples())]
      ensures !old(active) && timerType == LocalTimer ==> registry.globalTimers == old(registry.globalTimers)
      ensures !old(active) && timerType == GlobalTimer ==> registry.timers == old(registry.timers)
    {
      if active {
        return Failure("timer " + name + " is active");
      }
      var values: seq<real>;
      match timerType {
        case LocalTimer =>
          values := History(registry.timers, name);
          registry.timers := registry.timers[name := values];
        case GlobalTimer =>
          values := History(registry.globalTimers, name);
          registry.globalTimers := registry.globalTimers[name := values];
      }
      var d := 0.0;
      var i := 0;
      while i < |values|
        invariant 0 <= i <= |values|
        invariant d == SumReal(values[..i])
      {
        assert values[..i + 1][..i] == values[..i];
        d := d + values[i];
        i := i + 1;
      }
      assert values[..i] == values;
      return Success(d);
    }
  }

  /** Stopping a timer adds the elapsed time to what Value reports for it. */
  lemma StopAddsToValue(samples: seq<real>, t0: Timeval, t1: Timeval)
    ensures SumReal(samples + [Elapsed(t0, t1)]) == SumReal(samples) + Elapsed(t0, t1)
  {
    SumRealAppend(samples, [Elapsed(t0, t1)]);
    assert SumReal([Elapsed(t0, t1)]) == SumReal([]) + Elapsed(t0, t1);
  }

  /** The statistics reported for one label (struct timer_stats). */
  datatype TimerStats = TimerStats(timerType: TimerType, count: int, total: real, min: real, max: real, average: real)

  /** The value min starts from before the samples are scanned. */
  const MinSeed: real := 1e100

  function Min(a: real, b: real): real { if b < a then b else a }

  function Max(a: real, b: real): real { if a < b then b else a }

  /** std::min folded over the samples, starting from seed. */
  function MinFold(seed: real, s: seq<real>): real
  {
    if |s| == 0 then seed else Min(MinFold(seed, s[..|s| - 1]), s[|s| - 1])
  }

  /** std::max folded over the samples, starting from seed. */
  function MaxFold(seed: real, s: seq<real>): real
  {
    if |s| == 0 then seed else Max(MaxFold(seed, s[..|s| - 1]), s[|s| - 1])
  }

  /** The statistics of one history, as the scan in collect_timer_stats produces them. */
  function StatsOf(s: seq<real>, tt: TimerType): TimerStats
  {
    TimerStats(tt, |s|, SumReal(s),
               if |s| == 0 then 0.0 else MinFold(MinSeed, s),
               MaxFold(0.0, s),
               if |s| == 0 then 0.0 else SumReal(s) / |s| as real)
  }

  /** The fold of min is at most the seed and every sample, and is the seed or a sample. */
  lemma {:induction false} MinFoldBounds(seed: real, s: seq<real>)
    ensures MinFold(seed, s) <= seed
    ensures forall i :: 0 <= i < |s| ==> MinFold(seed, s) <= s[i]
    ensures MinFold(seed, s) == seed || exists i :: 0 <= i < |s| && MinFold(seed, s) == s[i]
    decreases |s|
  {
    if |s| > 0 {
      var n := |s| - 1;
      MinFoldBounds(seed, s[..n]);
      assert forall i :: 0 <= i < n ==> s[..n][i] == s[i];
    }
  }

  /** The fold of max is at least the seed and every sample, and is the seed or a sample. */
  lemma {:induction false} MaxFoldBounds(seed: real, s: seq<real>)
    ensures MaxFold(seed, s) >= seed
    ensures forall i :: 0 <= i < |s| ==> MaxFold(seed, s) >= s[i]
    ensures MaxFold(seed, s) == seed || exists i :: 0 <= i < |s| && MaxFold(seed, s) == s[i]
    decreases |s|
  {
    if |s| > 0 {
      var n := |s| - 1;
      MaxFoldBounds(seed, s[..n]);
      assert forall i :: 0 <= i < n ==> s[..n][i] == s[i];
    }
  }

  /** Local statistics: count samples, total their sum, min no larger and max no smaller than
      any sample, each one of the samples (or the starting value 1e100 / 0 when every sample
      lies beyond it), average total / count; an empty history reports all zeros. */
  lemma StatsMeaning(s: seq<real>, tt: TimerType)
    ensures StatsOf(s, tt).timerType == tt && StatsOf(s, tt).count == |s| && StatsOf(s, tt).total == SumReal(s)
    ensures |s| == 0 ==> StatsOf(s, tt) == TimerStats(tt, 0, 0.0, 0.0, 0.0, 0.0)
    ensures |s| > 0 ==> StatsOf(s, tt).average * |s| as real == StatsOf(s, tt).total
    ensures forall i :: 0 <= i < |s| ==> StatsOf(s, tt).min <= s[i] <= StatsOf(s, tt).max
    ensures StatsOf(s, tt).max >= 0.0
    ensures |s| > 0 ==> StatsOf(s, tt).min == MinSeed || exists i :: 0 <= i < |s| && StatsOf(s, tt).min == s[i]
    ensures StatsOf(s, tt).max == 0.0 || exists i :: 0 <= i < |s| && StatsOf(s, tt).max == s[i]
  {
    MinFoldBounds(MinSeed, s);
    MaxFoldBounds(0.0, s);
  }

  /** The scan over one history (done locally for every timer and
      again for each rank's gathered history). */
  method ScanStats(s: seq<real>, tt: TimerType) returns (ts: TimerStats)
    ensures ts == StatsOf(s, tt)
  {
    var count := |s|;
    var total, min, max := 0.0, MinSeed, 0.0;
    var i := 0;
    while i < count
      invariant 0 <= i <= count
      invariant total == SumReal(s[..i]) && min == MinFold(MinSeed, s[..i]) && max == MaxFold(0.0, s[..i])
    {
      assert s[..i + 1][..i] == s[..i];
      total := total + s[i];
      min := Min(min, s[i]);
      max := Max(max, s[i]);
      i := i + 1;
    }
    assert s[..i] == s;
    var average := if count == 0 then 0.0 else total / count as real;
    if count == 0 {
      min := 0.0;
    }
    ts := TimerStats(tt, count, total, min, max, average);
  }

  /** What one rank reports for a global label: zeros when it has no such timer. */
  function RankStats(m: Histories, name: string): TimerStats
  {
    if name !in m then TimerStats(GlobalTimer, 0, 0.0, 0.0, 0.0, 0.0)
    else StatsOf(m[name], GlobalTimer)
  }

  /** The per-rank statistics of a label, gathered from every rank (the two allgathers). */
  function Gather(tables: seq<Histories>, name: string): (g: seq<TimerStats>)
    ensures |g| == |tables| && forall k :: 0 <= k < |tables| ==> g[k] == RankStats(tables[k], name)
  {
    seq(|tables|, k requires 0 <= k < |tables| => RankStats(tables[k], name))
  }

  function MaxTotal(g: seq<TimerStats>): real
  {
    if |g| == 0 then 0.0 else Max(MaxTotal(g[..|g| - 1]), g[|g| - 1].total)
  }

  function MinOfMins(seed: real, g: seq<TimerStats>): real
  {
    if |g| == 0 then seed else Min(MinOfMins(seed, g[..|g| - 1]), g[|g| - 1].min)
  }

  function MaxOfMaxes(seed: real, g: seq<TimerStats>): real
  {
    if |g| == 0 then seed else Max(MaxOfMaxes(seed, g[..|g| - 1]), g[|g| - 1].max)
  }

  function SumTotals(g: seq<TimerStats>): real
  {
    if |g| == 0 then 0.0 else SumTotals(g[..|g| - 1]) + g[|g| - 1].total
  }

  function SumCounts(g: seq<TimerStats>): int
  {
    if |g| == 0 then 0 else SumCounts(g[..|g| - 1]) + g[|g| - 1].count
  }

  /** A rank's own statistics combined with everyone's: the count stays the rank's own. */
  function Combined(mine: TimerStats, g: seq<TimerStats>): TimerStats
  {
    var count := SumCounts(g);
    mine.(total := MaxTotal(g),
          min := MinOfMins(mine.min, g),
          max := MaxOfMaxes(mine.max, g),
          average := if count == 0 then 0.0 else SumTotals(g) / count as real)
  }

  /** The reduction over the gathered statistics. */
  method Aggregate(mine: TimerStats, g: seq<TimerStats>) returns (ts: TimerStats)
    ensures ts == Combined(mine, g)
  {
    ts := mine;
    var maxTotal, total, totalCount := 0.0, 0.0, 0;
    var k := 0;
    while k < |g|
      invariant 0 <= k <= |g| && ts.count == mine.count && ts.timerType == mine.timerType
      invariant maxTotal == MaxTotal(g[..k]) && total == SumTotals(g[..k]) && totalCount == SumCounts(g[..k])
      invariant ts.min == MinOfMins(mine.min, g[..k]) && ts.max == MaxOfMaxes(mine.max, g[..k])
      invariant ts.total == mine.total && ts.average == mine.average
    {
      assert g[..k + 1][..k] == g[..k];
      maxTotal := Max(maxTotal, g[k].total);
      ts := ts.(min := Min(ts.min, g[k].min), max := Max(ts.max, g[k].max));
      total := total + g[k].total;
      totalCount := totalCount + g[k].count;
      k := k + 1;
    }
    assert g[..k] == g;
    ts := ts.(total := maxTotal, average := if totalCount == 0 then 0.0 else total / totalCount as real);
  }

  /** The global statistics of a label on one rank. */
  function GlobalStats(tables: seq<Histories>, rank: int, name: string): TimerStats
    requires 0 <= rank < |tables|
  {
    Combined(RankStats(tables[rank], name), Gather(tables, name))
  }

  /** The maximum of the totals is at least each total and zero, and is zero or one of them. */
  lemma {:induction false} MaxTotalBounds(g: seq<TimerStats>)
    ensures MaxTotal(g) >= 0.0 && forall k :: 0 <= k < |g| ==> MaxTotal(g) >= g[k].total
    ensures MaxTotal(g) == 0.0 || exists k :: 0 <= k < |g| && MaxTotal(g) == g[k].total
    decreases |g|
  {
    if |g| > 0 {
      var n := |g| - 1;
      MaxTotalBounds(g[..n]);
      assert forall k :: 0 <= k < n ==> g[..n][k] == g[k];
    }
  }

  /** Folding min over a list that contains the seed's value gives the least min, whatever
      the seed. */
  lemma {:induction false} MinOfMinsLeast(seed: real, g: seq<TimerStats>)
    ensures MinOfMins(seed, g) <= seed && forall k :: 0 <= k < |g| ==> MinOfMins(seed, g) <= g[k].min
    ensures MinOfMins(seed, g) == seed || exists k :: 0 <= k < |g| && MinOfMins(seed, g) == g[k].min
    decreases |g|
  {
    if |g| > 0 {
      var n := |g| - 1;
      MinOfMinsLeast(seed, g[..n]);
      assert forall k :: 0 <= k < n ==> g[..n][k] == g[k];
    }
  }

  lemma {:induction false} MaxOfMaxesGreatest(seed: real, g: seq<TimerStats>)
    ensures MaxOfMaxes(seed, g) >= seed && forall k :: 0 <= k < |g| ==> MaxOfMaxes(seed, g) >= g[k].max
    ensures MaxOfMaxes(seed, g) == seed || exists k :: 0 <= k < |g| && MaxOfMaxes(seed, g) == g[k].max
    decreases |g|
  {
    if |g| > 0 {
      var n := |g| - 1;
      MaxOfMaxesGreatest(seed, g[..n]);
      assert forall k :: 0 <= k < n ==> g[..n][k] == g[k];
    }
  }

  /** Global aggregation: the reported total is the largest total over the ranks (or 0),
      min and max are the least min and greatest max over the ranks, the average is the sum
      of the totals over the sum of the counts (0 when no rank has samples), and the count is
      the rank's own. */
  lemma GlobalStatsMeaning(tables: seq<Histories>, rank: int, name: string)
    requires 0 <= rank < |tables|
    ensures var ts, g := GlobalStats(tables, rank, name), Gather(tables, name);
      && ts.timerType == GlobalTimer
      && ts.count == |History(tables[rank], name)|
      && ts.total >= 0.0 && (forall k :: 0 <= k < |g| ==> ts.total >= g[k].total)
      && (ts.total == 0.0 || exists k :: 0 <= k < |g| && ts.total == g[k].total)
      && (forall k :: 0 <= k < |g| ==> ts.min <= g[k].min && ts.max >= g[k].max)
      && (exists k :: 0 <= k < |g| && ts.min == g[k].min)
      && (exists k :: 0 <= k < |g| && ts.max == g[k].max)
      && ts.average == if SumCounts(g) == 0 then 0.0 else SumTotals(g) / SumCounts(g) as real
  {
    var g := Gather(tables, name);
    var mine := RankStats(tables[rank], name);
    assert g[rank] == mine;
    MaxTotalBounds(g);
    MinOfMinsLeast(mine.min, g);
    MaxOfMaxesGreatest(mine.max, g);
  }

  /** Every rank reports the same total, min, max and average for a global label. */
  lemma GlobalStatsAgree(tables: seq<Histories>, a: int, b: int, name: string)
    requires 0 <= a < |tables| && 0 <= b < |tables|
    ensures GlobalStats(tables, a, name).total == GlobalStats(tables, b, name).total
    ensures GlobalStats(tables, a, name).min == GlobalStats(tables, b, name).min
    ensures GlobalStats(tables, a, name).max == GlobalStats(tables, b, name).max
    ensures GlobalStats(tables, a, name).average == GlobalStats(tables, b, name).average
  {
    GlobalStatsMeaning(tables, a, name);
    GlobalStatsMeaning(tables, b, name);
    var g := Gather(tables, name);
    var ta, tb := GlobalStats(tables, a, name), GlobalStats(tables, b, name);
    var i :| 0 <= i < |g| && ta.min == g[i].min;
    var j :| 0 <= j < |g| && tb.min == g[j].min;
    assert ta.min <= g[j].min && tb.min <= g[i].min;
    var i' :| 0 <= i' < |g| && ta.max == g[i'].max;
    var j' :| 0 <= j' < |g| && tb.max == g[j'].max;
    assert ta.max >= g[j'].max && tb.max >= g[i'].max;
  }

  /** A rank without the label, or without samples for it, reports min 0, so the global
      min is at most 0. */
  lemma MissingRankZeroMin(tables: seq<Histories>, rank: int, k: int, name: string)
    requires 0 <= rank < |tables| && 0 <= k < |tables|
    requires name !in tables[k] || |tables[k][name]| == 0
    ensures Gather(tables, name)[k].count == 0 && Gather(tables, name)[k].total == 0.0
    ensures GlobalStats(tables, rank, name).min <= 0.0
  {
    GlobalStatsMeaning(tables, rank, name);
  }

  /** The labels as one count per label and one array of their characters (rank 0's
      side of the broadcast). */
  method FlattenLabels(labels: seq<string>) returns (sizes: seq<int>, chars: seq<char>)
    ensures sizes == Lengths(labels) && chars == Flatten(labels)
  {
    sizes, chars := [], [];
    var n := 0;
    while n < |labels|
      invariant 0 <= n <= |labels|
      invariant sizes == Lengths(labels[..n]) && chars == Flatten(labels[..n])
    {
      var name := labels[n];
      sizes := sizes + [|name|];
      var i := 0;
      while i < |name|
        invariant 0 <= i <= |name|
        invariant chars == Flatten(labels[..n]) + name[..i]
      {
        chars := chars + [name[i]];
        i := i + 1;
      }
      assert name[..i] == name;
      FlattenStep(labels, n + 1);
      assert Lengths(labels[..n + 1]) == Lengths(labels[..n]) + [|name|];
      n := n + 1;
    }
    assert labels[..n] == labels;
  }

  /** The labels cut back out of the character array with a running offset (what every
      rank but 0 does after the broadcast). */
  method RebuildLabels(sizes: seq<int>, chars: seq<char>) returns (labels: seq<string>)
    requires Fits(chars, sizes)
    ensures labels == Blocks(chars, sizes)
  {
    labels := [];
    var offset := 0;
    var r := 0;
    while r < |sizes|
      invariant 0 <= r <= |sizes| && offset == PrefixSum(sizes, r)
      invariant |labels| == r && forall q :: 0 <= q < r ==> labels[q] == Block(chars, sizes, q)
    {
      PrefixSumGrows(sizes, 0, r);
      PrefixSumGrows(sizes, r + 1, |sizes|);
      labels := labels + [chars[offset..offset + sizes[r]]];
      offset := offset + sizes[r];
      r := r + 1;
    }
  }

  /** Flattening the labels and cutting them back out gives the same labels in the same
      order, and cutting a fitting array and flattening the pieces gives the array back. */
  lemma LabelsRoundTrip(labels: seq<string>, sizes: seq<int>, chars: seq<char>)
    ensures Fits(Flatten(labels), Lengths(labels))
    ensures Blocks(Flatten(labels), Lengths(labels)) == labels
    ensures Fits(chars, sizes) ==> Lengths(Blocks(chars, sizes)) == sizes && Flatten(Blocks(chars, sizes)) == chars
  {
    if |labels| > 0 {
      FlattenBlock(labels, 0);
    } else {
      assert Fits(Flatten(labels), Lengths(labels));
    }
    forall r | 0 <= r < |labels|
      ensures Blocks(Flatten(labels), Lengths(labels))[r] == labels[r]
    {
      FlattenBlock(labels, r);
    }
    if Fits(chars, sizes) {
      BlocksTile(chars, sizes);
    }
  }

  /** labels lists the keys of a table, each once. */
  ghost predicate Enumerates(labels: seq<string>, m: Histories)
  {
    NoDuplicates(labels) && (forall l :: l in m <==> l in labels)
  }

  /** The local statistics of every local timer. */
  method CollectLocal(timers: Histories, localLabels: seq<string>) returns (tstats: map<string, TimerStats>)
    requires Enumerates(localLabels, timers)
    ensures tstats.Keys == timers.Keys
    ensures forall l :: l in timers ==> tstats[l] == StatsOf(timers[l], LocalTimer)
  {
    tstats := map[];
    var n := 0;
    while n < |localLabels|
      invariant 0 <= n <= |localLabels|
      invariant forall l :: l in tstats <==> l in localLabels[..n]
      invariant forall l :: l in tstats ==> l in timers && tstats[l] == StatsOf(timers[l], LocalTimer)
    {
      var ts := ScanStats(timers[localLabels[n]], LocalTimer);
      tstats := tstats[localLabels[n] := ts];
      assert localLabels[..n + 1] == localLabels[..n] + [localLabels[n]];
      n := n + 1;
    }
    assert localLabels[..n] == localLabels;
  }

  /** Rank 0 flattens its labels and broadcasts sizes and characters; every other rank cuts
      them back out, so all ranks hold rank 0's list. */
  method BroadcastLabels(rank: int, rootLabels: seq<string>) returns (labels: seq<string>)
    ensures labels == rootLabels
  {
    var sizes, chars := FlattenLabels(rootLabels);
    labels := rootLabels;
    if rank != 0 {
      LabelsRoundTrip(rootLabels, sizes, chars);
      labels := RebuildLabels(sizes, chars);
    }
  }

  /** The global statistics of every broadcast label, each replacing what tstats held for it. */
  method CollectGlobal(tstats: map<string, TimerStats>, labels: seq<string>, tables: seq<Histories>, rank: int)
    returns (out: map<string, TimerStats>)
    requires 0 <= rank < |tables|
    ensures out.Keys == tstats.Keys + set l | l in labels
    ensures forall l :: l in labels ==> out[l] == GlobalStats(tables, rank, l)
    ensures forall l :: l in tstats && l !in labels ==> out[l] == tstats[l]
  {
    out := tstats;
    var n := 0;
    while n < |labels|
      invariant 0 <= n <= |labels|
      invariant forall l :: l in out <==> l in tstats || l in labels[..n]
      invariant forall l :: l in labels[..n] ==> out[l] == GlobalStats(tables, rank, l)
      invariant forall l :: l in tstats && l !in labels[..n] ==> out[l] == tstats[l]
    {
      var name := labels[n];
      var mine: TimerStats;
      if name !in tables[rank] {
        mine := TimerStats(GlobalTimer, 0, 0.0, 0.0, 0.0, 0.0);
      } else {
        mine := ScanStats(tables[rank][name], GlobalTimer);
      }
      var ts := Aggregate(mine, Gather(tables, name));
      out := out[name := ts];
      assert labels[..n + 1] == labels[..n] + [name];
      n := n + 1;
    }
    assert labels[..n] == labels;
  }

  /** collect_timer_stats on one rank: the local statistics of every local timer, then the
      global statistics of every label rank 0 has a global timer for, each overriding a
      local timer of the same label. tables[k] is rank k's global_timers_; localLabels and
      rootLabels are the iteration orders of timers_ and of rank 0's global_timers_. */
  method CollectTimerStats(timers: Histories, localLabels: seq<string>, tables: seq<Histories>, rank: int,
                           rootLabels: seq<string>) returns (tstats: map<string, TimerStats>)
    requires 0 <= rank < |tables|
    requires Enumerates(localLabels, timers) && Enumerates(rootLabels, tables[0])
    ensures tstats.Keys == timers.Keys + tables[0].Keys
    ensures forall l :: l in tables[0] ==> tstats[l] == GlobalStats(tables, rank, l)
    ensures forall l :: l in timers && l !in tables[0] ==> tstats[l] == StatsOf(timers[l], LocalTimer)
  {
    var local := CollectLocal(timers, localLabels);
    var labels := BroadcastLabels(rank, rootLabels);
    tstats := CollectGlobal(local, labels, tables, rank);
  }
}
