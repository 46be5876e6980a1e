/** The integer-valued part of `calculate_statistics`: the records after
    `calculate_times`, the waiting and turnaround totals (whose quotients by
    the count are the averages), their maxima, the throughput counts at the
    four checkpoints, the total burst and the largest completion time (the
    operands of the CPU efficiency) and the context-switch count. */
module Stats {

  import opened Wrappers
  import opened Processes

  /** The times at which throughput is counted. */
  const Checkpoints: seq<int> := [50, 100, 150, 200]

  datatype Statistics = Statistics(
    records: seq<Proc>,
    totalWaiting: int,
    maxWaiting: int,
    totalTurnaround: int,
    maxTurnaround: int,
    throughput: seq<nat>,
    totalBurst: int,
    totalTime: int,
    contextSwitches: int)

  // ---- the per-record columns ---------------------------------------------

  function Waitings(ps: seq<Proc>): (ws: seq<int>)
    ensures |ws| == |ps| && forall i :: 0 <= i < |ps| ==> ws[i] == ps[i].waiting
  {
    if ps == [] then [] else [ps[0].waiting] + Waitings(ps[1..])
  }

  function Turnarounds(ps: seq<Proc>): (ts: seq<int>)
    ensures |ts| == |ps| && forall i :: 0 <= i < |ps| ==> ts[i] == ps[i].turnaround
  {
    if ps == [] then [] else [ps[0].turnaround] + Turnarounds(ps[1..])
  }

  function Bursts(ps: seq<Proc>): (bs: seq<int>)
    ensures |bs| == |ps| && forall i :: 0 <= i < |ps| ==> bs[i] == ps[i].burst
  {
    if ps == [] then [] else [ps[0].burst] + Bursts(ps[1..])
  }

  function Completions(ps: seq<Proc>): (cs: seq<int>)
    ensures |cs| == |ps| && forall i :: 0 <= i < |ps| ==> cs[i] == ps[i].completion
  {
    if ps == [] then [] else [ps[0].completion] + Completions(ps[1..])
  }

  // ---- sum and maximum ----------------------------------------------------

  /** Python's `sum`. */
  function Sum(xs: seq<int>): int
  {
    if xs == [] then 0 else xs[0] + Sum(xs[1..])
  }

  /** `sum` splits over a concatenation, so it does not depend on where the
      list is cut. */
  lemma {:induction false} SumConcat(a: seq<int>, b: seq<int>)
    ensures Sum(a + b) == Sum(a) + Sum(b)
  {
    if a == [] {
      assert a + b == b;
    } else {
      assert (a + b)[1..] == a[1..] + b;
      SumConcat(a[1..], b);
    }
  }

  /** A sum of values bounded by `m` is at most `|xs| * m`: the average
      never exceeds the maximum. */
  lemma {:induction false} SumBelow(xs: seq<int>, m: int)
    requires forall i :: 0 <= i < |xs| ==> xs[i] <= m
    ensures Sum(xs) <= |xs| * m
  {
    if xs != [] {
      SumBelow(xs[1..], m);
    }
  }

  /** Python's `max` of a non-empty list: an element of the list that no
      element exceeds. */
  function MaxOf(xs: seq<int>): (m: int)
    requires |xs| > 0
    ensures m in xs
    ensures forall i :: 0 <= i < |xs| ==> xs[i] <= m
  {
    if |xs| == 1 then xs[0]
    else
      var m := MaxOf(xs[1..]);
      assert forall i :: 1 <= i < |xs| ==> xs[i] == xs[1..][i - 1];
      if xs[0] < m then m else xs[0]
  }

  /** The maximum is the only element that bounds all the others: any
      element with that property equals it. */
  lemma MaxOfUnique(xs: seq<int>, m: int)
    requires |xs| > 0 && m in xs
    requires forall i :: 0 <= i < |xs| ==> xs[i] <= m
    ensures MaxOf(xs) == m
  {
  }

  // ---- throughput -----------------------------------------------------------

  /** `sum(1 for p in processes if p.completion <= t)`, added up from the
      end of the list. */
  function CompletedBy(ps: seq<Proc>, t: int): (n: nat)
    ensures n <= |ps|
  {
    if ps == [] then 0
    else CompletedBy(ps[..|ps| - 1], t) + (if ps[|ps| - 1].completion <= t then 1 else 0)
  }

  /** The indices of the records the count at `t` includes. */
  ghost function DoneSet(ps: seq<Proc>, t: int): set<nat>
  {
    set i: nat | i < |ps| && ps[i].completion <= t
  }

  /** The count is the number of records whose completion is at most `t`. */
  lemma {:induction false} CompletedByCounts(ps: seq<Proc>, t: int)
    ensures CompletedBy(ps, t) == |DoneSet(ps, t)|
  {
    if ps != [] {
      var n := |ps| - 1;
      CompletedByCounts(ps[..n], t);
      var front := DoneSet(ps[..n], t);
      assert n !in front;
      if ps[n].completion <= t {
        assert DoneSet(ps, t) == front + {n};
      } else {
        assert DoneSet(ps, t) == front;
      }
    }
  }

  /** Every record completed by `t` is counted: the count is the whole list
      exactly when no completion lies beyond `t`. */
  lemma {:induction false} CompletedByAll(ps: seq<Proc>, t: int)
    ensures CompletedBy(ps, t) == |ps| <==> forall i :: 0 <= i < |ps| ==> ps[i].completion <= t
  {
    if ps != [] {
      CompletedByAll(ps[..|ps| - 1], t);
    }
  }

  /** A later checkpoint counts at least as many records. */
  lemma {:induction false} CompletedByMonotone(ps: seq<Proc>, t: int, u: int)
    requires t <= u
    ensures CompletedBy(ps, t) <= CompletedBy(ps, u)
  {
    if ps != [] {
      CompletedByMonotone(ps[..|ps| - 1], t, u);
    }
  }

  /** The throughput dictionary as its four values, in checkpoint order. */
  function Throughput(ps: seq<Proc>): (r: seq<nat>)
    ensures |r| == |Checkpoints|
    ensures forall k :: 0 <= k < |r| ==> r[k] <= |ps|
    ensures forall k, l :: 0 <= k <= l < |r| ==> r[k] <= r[l]
  {
    CompletedByMonotone(ps, 50, 100);
    CompletedByMonotone(ps, 100, 150);
    CompletedByMonotone(ps, 150, 200);
    [CompletedBy(ps, 50), CompletedBy(ps, 100), CompletedBy(ps, 150), CompletedBy(ps, 200)]
  }

  /** Each throughput value counts the records done by its checkpoint. */
  lemma ThroughputCounts(ps: seq<Proc>, k: nat)
    requires k < |Checkpoints|
    ensures Throughput(ps)[k] == |DoneSet(ps, Checkpoints[k])|
  {
    CompletedByCounts(ps, Checkpoints[k]);
  }

  // ---- calculate_statistics -------------------------------------------------

  /** `for p in processes: p.calculate_times()`. */
  function CalculateAll(ps: seq<Proc>): (qs: seq<Proc>)
    ensures |qs| == |ps|
    ensures forall i :: 0 <= i < |ps| ==> qs[i] == CalculateTimes(ps[i])
  {
    if ps == [] then [] else [CalculateTimes(ps[0])] + CalculateAll(ps[1..])
  }

  /** Recalculating changes nothing, so statistics taken twice agree. */
  lemma CalculateAllIdempotent(ps: seq<Proc>)
    ensures CalculateAll(CalculateAll(ps)) == CalculateAll(ps)
  {
    forall i | 0 <= i < |ps|
      ensures CalculateAll(CalculateAll(ps))[i] == CalculateAll(ps)[i]
    {
      CalculateTimesIdempotent(ps[i]);
    }
  }

  /** `calculate_statistics(processes, ...)`: `None` for the empty list (the
      source returns `{}`), otherwise the integer statistics of the records
      after `calculate_times`. The throughput is that of the records passed
      in, since `calculate_times` does not touch completion times, and the
      context-switch count depends on nothing but the number of records. */
  function CalculateStatistics(ps: seq<Proc>): (r: Option<Statistics>)
    ensures r.None? <==> ps == []
    ensures r.Some? ==>
      && r.value.records == CalculateAll(ps)
      && r.value.contextSwitches == |ps| - 1
      && r.value.throughput == Throughput(ps)
      && r.value.totalBurst == Sum(Bursts(ps))
  {
    if ps == [] then None
    else
      var qs := CalculateAll(ps);
      ThroughputUnchanged(ps);
      assert Bursts(qs) == Bursts(ps);
      Some(Statistics(qs, Sum(Waitings(qs)), MaxOf(Waitings(qs)),
                      Sum(Turnarounds(qs)), MaxOf(Turnarounds(qs)), Throughput(qs),
                      Sum(Bursts(qs)), MaxOf(Completions(qs)), |ps| - 1))
  }

  /** `max_waiting` is the largest waiting time after `calculate_times`,
      attained by some record, and the waiting total is at most the count
      times it (the average never exceeds the maximum). */
  lemma StatisticsMaxWaiting(ps: seq<Proc>, st: Statistics)
    requires CalculateStatistics(ps) == Some(st)
    ensures forall i :: 0 <= i < |ps| ==> st.records[i].waiting <= st.maxWaiting
    ensures exists i :: 0 <= i < |ps| && st.records[i].waiting == st.maxWaiting
    ensures st.totalWaiting <= |ps| * st.maxWaiting
  {
    var ws := Waitings(st.records);
    SumBelow(ws, st.maxWaiting);
    var w :| 0 <= w < |ws| && ws[w] == st.maxWaiting;
  }

  /** `max_turnaround` likewise for the turnaround times. */
  lemma StatisticsMaxTurnaround(ps: seq<Proc>, st: Statistics)
    requires CalculateStatistics(ps) == Some(st)
    ensures forall i :: 0 <= i < |ps| ==> st.records[i].turnaround <= st.maxTurnaround
    ensures exists i :: 0 <= i < |ps| && st.records[i].turnaround == st.maxTurnaround
    ensures st.totalTurnaround <= |ps| * st.maxTurnaround
  {
    var ts := Turnarounds(st.records);
    SumBelow(ts, st.maxTurnaround);
    var u :| 0 <= u < |ts| && ts[u] == st.maxTurnaround;
  }

  /** The total time is the latest completion among the records passed in. */
  lemma StatisticsTotalTime(ps: seq<Proc>, st: Statistics)
    requires CalculateStatistics(ps) == Some(st)
    ensures forall i :: 0 <= i < |ps| ==> ps[i].completion <= st.totalTime
    ensures exists i :: 0 <= i < |ps| && ps[i].completion == st.totalTime
  {
    var qs := CalculateAll(ps);
    assert st.totalTime == MaxOf(Completions(qs));
    forall i | 0 <= i < |ps|
      ensures qs[i].completion == ps[i].completion
    {
      assert qs[i] == CalculateTimes(ps[i]);
    }
    LatestCompletion(ps, qs, st.totalTime);
  }

  /** The maximum of the completion times of records that share their
      completion times with `ps` is the latest completion in `ps`. */
  lemma LatestCompletion(ps: seq<Proc>, qs: seq<Proc>, m: int)
    requires |qs| == |ps| > 0 && forall i :: 0 <= i < |ps| ==> qs[i].completion == ps[i].completion
    requires m == MaxOf(Completions(qs))
    ensures forall i :: 0 <= i < |ps| ==> ps[i].completion <= m
    ensures exists i :: 0 <= i < |ps| && ps[i].completion == m
  {
    var cs := Completions(qs);
    var c :| 0 <= c < |cs| && cs[c] == m;
    assert ps[c].completion == m;
  }

  /** Once every record has completed by a checkpoint, the throughput there
      and at every later checkpoint is the whole count. */
  lemma ThroughputAllDone(ps: seq<Proc>, k: nat)
    requires k < |Checkpoints|
    requires forall i :: 0 <= i < |ps| ==> ps[i].completion <= Checkpoints[k]
    ensures forall l :: k <= l < |Checkpoints| ==> Throughput(ps)[l] == |ps|
  {
    forall l | k <= l < |Checkpoints|
      ensures Throughput(ps)[l] == |ps|
    {
      CompletedByAll(ps, Checkpoints[l]);
    }
  }

  /** `calculate_times` leaves the completion times alone, so the throughput
      of the returned records is that of the records passed in. */
  lemma ThroughputUnchanged(ps: seq<Proc>)
    ensures Throughput(CalculateAll(ps)) == Throughput(ps)
  {
    CompletedBySame(ps, CalculateAll(ps), 50);
    CompletedBySame(ps, CalculateAll(ps), 100);
    CompletedBySame(ps, CalculateAll(ps), 150);
    CompletedBySame(ps, CalculateAll(ps), 200);
  }

  lemma {:induction false} CompletedBySame(ps: seq<Proc>, qs: seq<Proc>, t: int)
    requires |ps| == |qs| && forall i :: 0 <= i < |ps| ==> ps[i].completion == qs[i].completion
    ensures CompletedBy(ps, t) == CompletedBy(qs, t)
  {
    if ps != [] {
      CompletedBySame(ps[..|ps| - 1], qs[..|qs| - 1], t);
    }
  }

  /** For records every policy returns (completed, started no earlier than
      arrival, completion after the start), the maximum waiting time is
      below the maximum turnaround and neither is negative. */
  lemma MaxWaitingBelowTurnaround(ps: seq<Proc>)
    requires ps != []
    requires forall i :: 0 <= i < |ps| ==>
      && ps[i].arrival <= ps[i].startTime < ps[i].completion
      && 0 < ps[i].completion
    ensures var st := CalculateStatistics(ps).value;
      0 <= st.maxWaiting < st.maxTurnaround
  {
    var st := CalculateStatistics(ps).value;
    StatisticsMaxWaiting(ps, st);
    StatisticsMaxTurnaround(ps, st);
    var i :| 0 <= i < |ps| && st.records[i].waiting == st.maxWaiting;
    assert st.records[i].turnaround <= st.maxTurnaround;
  }
}
