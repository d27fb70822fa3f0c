// Model of add_spi_stat in drivers/common/fpga_spi_v3.c: 16-bit event counters of
// the peer, sampled now and then, accumulated into totals that do not wrap.
module SpiCounters {
  type uint16 = x: int | 0 <= x < 0x10000

  // What one poll adds to a total.
  function Increment(previous: uint16, sample: uint16): uint16 {
    var inc := (sample - previous) % 0x10000;
    if inc > 0x8000 then sample else inc
  }

  // What the peer did between two polls: counted on, or restarted its counter
  // from zero after `lost` events and then counted `events` more.
  datatype Interval = Steady(events: nat) | Restart(lost: nat, events: nat)

  function Sample(previous: uint16, step: Interval): uint16 {
    match step
    case Steady(n) => (previous + n) % 0x10000
    case Restart(_, n) => n % 0x10000
  }

  function TrueEvents(step: Interval): nat {
    match step
    case Steady(n) => n
    case Restart(lost, n) => lost + n
  }

  predicate Countable(previous: uint16, step: Interval) {
    match step
    case Steady(n) => n <= 0x8000 || (previous == 0 && n < 0x10000)
    case Restart(lost, n) =>
      || (lost == 0 && n < 0x10000 && (previous == 0 || 0 < previous - n < 0x8000 || n - previous > 0x8000))
      || (lost + previous == 0x10000 && n + 0x8000 <= previous)
  }

  // One poll counts the events exactly if and only if the interval is countable.
  lemma PollExact(previous: uint16, step: Interval)
    ensures Increment(previous, Sample(previous, step)) == TrueEvents(step)
       <==> Countable(previous, step)
  {
    match step
    case Steady(n) => SteadyExact(previous, n);
    case Restart(lost, n) => RestartExact(previous, lost, n);
  }

  lemma SteadyExact(previous: uint16, n: nat)
    ensures Increment(previous, Sample(previous, Steady(n))) == n <==> Countable(previous, Steady(n))
  {
    var d := n % 0x10000;
    assert (Sample(previous, Steady(n)) - previous) % 0x10000 == d;
  }

  lemma RestartExact(previous: uint16, lost: nat, n: nat)
    ensures Increment(previous, Sample(previous, Restart(lost, n))) == lost + n
       <==> Countable(previous, Restart(lost, n))
  {
    var s := n % 0x10000;
    assert n < 0x10000 ==> s == n;
    assert (s - previous) % 0x10000 == if s >= previous then s - previous else s - previous + 0x10000;
  }

  // The case the code is written for: at most 0x8000 events between polls, and a
  // restart seen as a smaller sample below 0x8000.
  lemma UsualIntervalsCountable(previous: uint16, step: Interval)
    requires match step
      case Steady(n) => n <= 0x8000
      case Restart(lost, n) => lost == 0 && n < previous < 0x8000
    ensures Countable(previous, step)
  {
  }

  // ---------- runs of polls, some of which fail ----------

  // One interval after another.
  function Merge(a: Interval, b: Interval): Interval {
    match (a, b)
    case (Steady(m), Steady(n)) => Steady(m + n)
    case (Steady(m), Restart(lost, n)) => Restart(m + lost, n)
    case (Restart(lost, m), Steady(n)) => Restart(lost, m + n)
    case (Restart(lost, m), Restart(more, n)) => Restart(lost + m + more, n)
  }

  lemma MergeCounts(previous: uint16, a: Interval, b: Interval)
    ensures Sample(previous, Merge(a, b)) == Sample(Sample(previous, a), b)
    ensures TrueEvents(Merge(a, b)) == TrueEvents(a) + TrueEvents(b)
  {
    match a
    case Steady(m) => WrapsOnce(previous + m, b.events);
    case Restart(_, m) => WrapsOnce(m, b.events);
  }

  lemma WrapsOnce(x: nat, n: nat)
    ensures (x % 0x10000 + n) % 0x10000 == (x + n) % 0x10000
  {
    var q := x / 0x10000;
    assert x + n == 0x10000 * q + (x % 0x10000 + n);
  }

  // What a poll yields: nothing, when it fails, or a sample.
  datatype Observation = Missed | Seen(sample: uint16)

  // What the code keeps: the total so far and the previous sample.
  datatype Tracked = Tracked(total: int, last: uint16)

  function Accumulate(start: uint16, polls: seq<Observation>): Tracked {
    if polls == [] then Tracked(0, start)
    else
      var t := Accumulate(start, polls[..|polls| - 1]);
      match polls[|polls| - 1]
      case Missed => t
      case Seen(sample) => Tracked(t.total + Increment(t.last, sample), sample)
  }

  // The peer's counter after these intervals.
  function Counter(start: uint16, steps: seq<Interval>): uint16 {
    if steps == [] then start else Sample(Counter(start, steps[..|steps| - 1]), steps[|steps| - 1])
  }

  function TrueTotal(steps: seq<Interval>): nat {
    if steps == [] then 0 else TrueTotal(steps[..|steps| - 1]) + TrueEvents(steps[|steps| - 1])
  }

  // Interval k precedes poll k, and every sample seen is the counter's value then.
  predicate Truthful(start: uint16, steps: seq<Interval>, polls: seq<Observation>) {
    && |steps| == |polls|
    && forall k :: 0 <= k < |polls| && polls[k].Seen? ==> polls[k].sample == Counter(start, steps[..k + 1])
  }

  // What happened since the last poll that succeeded, as one interval.
  function Pending(steps: seq<Interval>, polls: seq<Observation>): Interval
    requires |steps| == |polls|
  {
    if polls == [] || polls[|polls| - 1].Seen? then Steady(0)
    else Merge(Pending(steps[..|steps| - 1], polls[..|polls| - 1]), steps[|steps| - 1])
  }

  // True events up to the last poll that succeeded.
  function SeenTotal(steps: seq<Interval>, polls: seq<Observation>): nat
    requires |steps| == |polls|
  {
    if polls == [] then 0
    else if polls[|polls| - 1].Seen? then TrueTotal(steps)
    else SeenTotal(steps[..|steps| - 1], polls[..|polls| - 1])
  }

  // If poll k succeeds, the merged interval it closes is countable.
  predicate CountableAt(start: uint16, steps: seq<Interval>, polls: seq<Observation>, k: nat)
    requires k < |steps| == |polls|
  {
    polls[k].Seen? ==>
      Countable(Accumulate(start, polls[..k]).last, Merge(Pending(steps[..k], polls[..k]), steps[k]))
  }

  // The total is the true count after the first k polls.
  predicate ExactAfter(start: uint16, steps: seq<Interval>, polls: seq<Observation>, k: nat)
    requires k <= |steps| == |polls|
  {
    Accumulate(start, polls[..k]).total == SeenTotal(steps[..k], polls[..k])
  }

  lemma {:induction false} PendingBalances(start: uint16, steps: seq<Interval>, polls: seq<Observation>)
    requires Truthful(start, steps, polls)
    ensures Sample(Accumulate(start, polls).last, Pending(steps, polls)) == Counter(start, steps)
    ensures SeenTotal(steps, polls) + TrueEvents(Pending(steps, polls)) == TrueTotal(steps)
    decreases |polls|
  {
    hide Increment, Merge;
    if polls == [] {
    } else {
      var n := |polls| - 1;
      TruthfulPrefix(start, steps, polls, n);
      PendingBalances(start, steps[..n], polls[..n]);
      MergeCounts(Accumulate(start, polls[..n]).last, Pending(steps[..n], polls[..n]), steps[n]);
      assert steps[..n + 1] == steps;
    }
  }

  lemma TruthfulPrefix(start: uint16, steps: seq<Interval>, polls: seq<Observation>, n: nat)
    requires Truthful(start, steps, polls) && n <= |polls|
    ensures Truthful(start, steps[..n], polls[..n])
  {
    forall k | 0 <= k < n && polls[k].Seen? ensures polls[k].sample == Counter(start, steps[..n][..k + 1]) {
      assert steps[..n][..k + 1] == steps[..k + 1];
    }
  }

  lemma ExactNext(start: uint16, steps: seq<Interval>, polls: seq<Observation>)
    requires Truthful(start, steps, polls) && polls != [] && ExactAfter(start, steps, polls, |polls| - 1)
    ensures ExactAfter(start, steps, polls, |polls|) <==> CountableAt(start, steps, polls, |polls| - 1)
  {
    hide Increment, Merge, Countable;
    var n := |polls| - 1;
    var last, pending := Accumulate(start, polls[..n]).last, Pending(steps[..n], polls[..n]);
    assert steps[..n + 1] == steps && polls[..n + 1] == polls;
    TruthfulPrefix(start, steps, polls, n);
    PendingBalances(start, steps[..n], polls[..n]);
    MergeCounts(last, pending, steps[n]);
    PollExact(last, Merge(pending, steps[n]));
  }

  // Main result: over any run of polls the total is always the true count up to the
  // last successful poll if and only if every interval between successful polls is
  // countable.
  lemma {:induction false} TotalIsTrueCount(start: uint16, steps: seq<Interval>, polls: seq<Observation>)
    requires Truthful(start, steps, polls)
    ensures (forall k :: 0 <= k <= |polls| ==> ExactAfter(start, steps, polls, k))
       <==> (forall k :: 0 <= k < |polls| ==> CountableAt(start, steps, polls, k))
    decreases |polls|
  {
    hide Increment, Countable, Accumulate, Pending, SeenTotal;
    if polls == [] {
      assert ExactAfter(start, steps, polls, 0) by { ExactAtFirst(start, steps, polls); }
    } else {
      var n := |polls| - 1;
      TruthfulPrefix(start, steps, polls, n);
      TotalIsTrueCount(start, steps[..n], polls[..n]);
      forall k: nat | k <= n
        ensures ExactAfter(start, steps[..n], polls[..n], k) == ExactAfter(start, steps, polls, k)
        ensures k < n ==> CountableAt(start, steps[..n], polls[..n], k) == CountableAt(start, steps, polls, k)
      {
        assert steps[..n][..k] == steps[..k] && polls[..n][..k] == polls[..k];
      }
      if ExactAfter(start, steps, polls, n) { ExactNext(start, steps, polls); }
    }
  }

  lemma ExactAtFirst(start: uint16, steps: seq<Interval>, polls: seq<Observation>)
    requires |steps| == |polls|
    ensures ExactAfter(start, steps, polls, 0)
  {
  }
}
