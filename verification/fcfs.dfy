/** `Scheduler.fcfs`: the records sorted by arrival (stably, so equal arrivals
    keep their input order) and run one after another, each to completion.
    Unlike the other policies it does not copy: the records it returns are the
    caller's own records with `start_time`, `completion` and `is_completed`
    overwritten, and nothing else about them touched. */
module Fcfs {

  import opened Processes
  import opened Timeline
  import opened Sorting

  function ArrivalOf(p: Proc): int
  {
    p.arrival
  }

  /** `sorted(processes, key=lambda x: x.arrival)`: the same records,
      ordered by arrival. */
  function ByArrival(ps: seq<Proc>): (r: seq<Proc>)
    ensures |r| == |ps|
    ensures multiset(r) == multiset(ps)
    ensures forall i, j :: 0 <= i < j < |r| ==> r[i].arrival <= r[j].arrival
  {
    var r := SortBy(ps, ArrivalOf);
    assert forall i, j :: 0 <= i < j < |r| ==> ArrivalOf(r[i]) <= ArrivalOf(r[j]);
    r
  }

  /** Python's sort is stable: records with equal arrival keep their input
      order. */
  lemma ByArrivalStable(ps: seq<Proc>, a: int)
    ensures WithKey(ByArrival(ps), ArrivalOf, a) == WithKey(ps, ArrivalOf, a)
  {
    SortByStable(ps, ArrivalOf, a);
  }

  /** `p` run without interruption from the first moment that is no earlier
      than `t` and no earlier than its arrival. */
  function Dispatched(p: Proc, t: int): Proc
  {
    var start := Max(t, p.arrival);
    p.(startTime := start, completion := start + p.burst, isCompleted := true)
  }

  /** The loop of `fcfs` over already sorted records, from time `t`: an IDLE
      segment up to the arrival when the CPU is free before it, then one
      segment for the whole burst. */
  function Run(ps: seq<Proc>, t: int): (r: Schedule)
    ensures |r.procs| == |ps|
    decreases |ps|
  {
    if ps == [] then Schedule([], [])
    else
      var p := ps[0];
      var idle := if t < p.arrival then [Segment(t, Idle, p.arrival)] else [];
      var start := if t < p.arrival then p.arrival else t;
      var q := p.(startTime := start, completion := start + p.burst, isCompleted := true);
      var rest := Run(ps[1..], q.completion);
      Schedule(idle + [Segment(start, Ran(p.pid), q.completion)] + rest.timeline, [q] + rest.procs)
  }

  /** One step of the loop: the head segments for `ps[0]` followed by the
      rest of the loop from its completion. */
  lemma RunUnfold(ps: seq<Proc>, t: int)
    requires ps != []
    ensures var p := ps[0];
      var start := Max(t, p.arrival);
      var rest := Run(ps[1..], start + p.burst);
      && Run(ps, t).timeline
         == (if t < p.arrival then [Segment(t, Idle, p.arrival)] else [])
            + [Segment(start, Ran(p.pid), start + p.burst)] + rest.timeline
      && Run(ps, t).procs == [Dispatched(p, t)] + rest.procs
  {
  }

  /** Each record is dispatched at the completion of the one before it (at
      `t` for the first). */
  lemma {:induction false} RunDispatch(ps: seq<Proc>, t: int)
    ensures |ps| > 0 ==> Run(ps, t).procs[0] == Dispatched(ps[0], t)
    ensures forall i, j :: 0 <= i < |ps| && 0 <= j < |ps| && j == i + 1 ==>
              Run(ps, t).procs[j] == Dispatched(ps[j], Run(ps, t).procs[i].completion)
    decreases |ps|
  {
    if ps != [] {
      var p := ps[0];
      var start := Max(t, p.arrival);
      var rest := Run(ps[1..], start + p.burst).procs;
      var r := Run(ps, t).procs;
      RunUnfold(ps, t);
      RunDispatch(ps[1..], start + p.burst);
      forall i, j | 0 <= i < |ps| && 0 <= j < |ps| && j == i + 1
        ensures r[j] == Dispatched(ps[j], r[i].completion)
      {
        assert r[j] == rest[i] && ps[j] == ps[1..][i];
        if i > 0 {
          assert r[i] == rest[i - 1];
        }
      }
    }
  }

  /** A loop that reaches a record before its arrival idles up to the
      arrival and then goes on exactly as a loop started there. */
  lemma RunIdleStep(ps: seq<Proc>, t: int)
    requires ps != [] && t < ps[0].arrival
    ensures Run(ps, t) == Schedule([Segment(t, Idle, ps[0].arrival)] + Run(ps, ps[0].arrival).timeline,
                                   Run(ps, ps[0].arrival).procs)
  {
    var p := ps[0];
    var a := p.arrival;
    RunUnfold(ps, t);
    RunUnfold(ps, a);
    RunIdleShape(Run(ps, t), Run(ps, a), Segment(t, Idle, a), [Segment(a, Ran(p.pid), a + p.burst)],
              Run(ps[1..], a + p.burst), Dispatched(p, t), Dispatched(p, a));
  }

  /** The sequence bookkeeping of `RunIdleStep`, apart from `Run`. */
  lemma RunIdleShape(r1: Schedule, r2: Schedule, idle: Segment, seg: seq<Segment>, rest: Schedule, d1: Proc, d2: Proc)
    requires d1 == d2
    requires r1.timeline == [idle] + seg + rest.timeline && r1.procs == [d1] + rest.procs
    requires r2.timeline == [] + seg + rest.timeline && r2.procs == [d2] + rest.procs
    ensures r1 == Schedule([idle] + r2.timeline, r2.procs)
  {
    assert [] + seg == seg;
  }

  /** The record as it was before dispatching: start, completion and the
      completed flag back to their initial values. */
  function Undispatched(q: Proc): (p: Proc)
    ensures q == p.(startTime := q.startTime, completion := q.completion, isCompleted := q.isCompleted)
    ensures !p.isCompleted && p.startTime == NotStarted && p.completion == 0
  {
    q.(startTime := NotStarted, completion := 0, isCompleted := false)
  }

  /** Dispatching an unstarted record is undone by `Undispatched`. */
  lemma UndispatchDispatched(p: Proc, t: int)
    requires Unstarted(p)
    ensures Undispatched(Dispatched(p, t)) == p
  {
  }

  function UndispatchedAll(qs: seq<Proc>): (ps: seq<Proc>)
    ensures |ps| == |qs|
    ensures forall i :: 0 <= i < |qs| ==> ps[i] == Undispatched(qs[i])
  {
    if qs == [] then [] else [Undispatched(qs[0])] + UndispatchedAll(qs[1..])
  }

  /** Taking back the dispatch keeps each pid's demand. */
  lemma DemandUndispatched(qs: seq<Proc>, pid: string)
    ensures Demand(UndispatchedAll(qs), pid) == Demand(qs, pid)
  {
    DemandPointwise(UndispatchedAll(qs), qs, pid);
  }

  /** The segments tile the time from `t` to the last completion. */
  lemma {:induction false} RunContiguous(ps: seq<Proc>, t: int)
    ensures Contiguous(Run(ps, t).timeline, t)
    ensures EndTime(Run(ps, t).timeline, t) == if |ps| == 0 then t else Run(ps, t).procs[|ps| - 1].completion
    decreases |ps|
  {
    if ps != [] {
      var p := ps[0];
      var start := Max(t, p.arrival);
      var head := (if t < p.arrival then [Segment(t, Idle, p.arrival)] else [])
                  + [Segment(start, Ran(p.pid), start + p.burst)];
      var rest := Run(ps[1..], start + p.burst);
      RunUnfold(ps, t);
      RunContiguous(ps[1..], start + p.burst);
      HeadContiguous(t, p);
      assert Dispatched(p, t).completion == start + p.burst;
      ContiguousStep(Run(ps, t).timeline, head, rest.timeline, t, start + p.burst, Run(ps, t).procs, Dispatched(p, t), rest.procs);
    }
  }

  /** The segments of one dispatch (the idle wait, if any, then the run)
      tile the time from `t` to the record's completion. */
  lemma HeadContiguous(t: int, p: Proc)
    ensures var start := Max(t, p.arrival);
      var head := (if t < p.arrival then [Segment(t, Idle, p.arrival)] else [])
                  + [Segment(start, Ran(p.pid), start + p.burst)];
      Contiguous(head, t) && EndTime(head, t) == start + p.burst
  {
  }

  /** One dispatch followed by a tiling of the rest tiles the whole, up to
      the last completion. */
  lemma ContiguousStep(tl: seq<Segment>, head: seq<Segment>, rtl: seq<Segment>, t: int, m: int,
                       procs: seq<Proc>, q: Proc, rprocs: seq<Proc>)
    requires tl == head + rtl && procs == [q] + rprocs && q.completion == m
    requires Contiguous(head, t) && EndTime(head, t) == m
    requires Contiguous(rtl, m) && EndTime(rtl, m) == if |rprocs| == 0 then m else rprocs[|rprocs| - 1].completion
    ensures Contiguous(tl, t) && EndTime(tl, t) == procs[|procs| - 1].completion
  {
    ContiguousConcat(head, rtl, t);
    if |rprocs| > 0 {
      assert procs[|procs| - 1] == rprocs[|rprocs| - 1];
    }
  }

  /** `fcfs(processes)`: the loop run from time 0 on the records sorted by
      arrival. Each record is started at the later of the previous completion
      (0 for the first) and its own arrival, and completed one burst later. */
  function Fcfs(ps: seq<Proc>): (r: Schedule)
    ensures |r.procs| == |ps|
    ensures |ps| > 0 ==> r.procs[0] == Dispatched(ByArrival(ps)[0], 0)
    ensures forall i, j :: 0 <= i < |ps| && 0 <= j < |ps| && j == i + 1 ==>
              r.procs[j] == Dispatched(ByArrival(ps)[j], r.procs[i].completion)
    ensures Contiguous(r.timeline, 0)
    ensures EndTime(r.timeline, 0) == if ps == [] then 0 else r.procs[|ps| - 1].completion
  {
    RunDispatch(ByArrival(ps), 0);
    RunContiguous(ByArrival(ps), 0);
    Run(ByArrival(ps), 0)
  }

  /** The returned records are the input records in arrival order (see
      `ByArrival`); only the start, completion and completed flag differ from
      the caller's record. */
  lemma FcfsOrder(ps: seq<Proc>)
    ensures forall i :: 0 <= i < |ps| ==>
              Fcfs(ps).procs[i] == ByArrival(ps)[i].(startTime := Fcfs(ps).procs[i].startTime,
                                                   completion := Fcfs(ps).procs[i].completion,
                                                   isCompleted := true)
  {
    var r := Fcfs(ps).procs;
    var sorted := ByArrival(ps);
    forall i | 0 <= i < |ps|
      ensures r[i] == sorted[i].(startTime := r[i].startTime, completion := r[i].completion, isCompleted := true)
    {
      var t := if i == 0 then 0 else r[i - 1].completion;
      assert r[i] == Dispatched(sorted[i], t);
    }
  }

  /** Each record waits only for the CPU: it starts no earlier than it
      arrives and no earlier than the previous one finishes, and completes
      one burst after it starts. */
  lemma FcfsTimes(ps: seq<Proc>)
    ensures |ps| > 0 ==> Fcfs(ps).procs[0].startTime == Max(0, Fcfs(ps).procs[0].arrival)
    ensures forall i :: 0 < i < |ps| ==>
              Fcfs(ps).procs[i].startTime == Max(Fcfs(ps).procs[i - 1].completion, Fcfs(ps).procs[i].arrival)
    ensures forall i :: 0 <= i < |ps| ==>
              && Fcfs(ps).procs[i].isCompleted
              && Fcfs(ps).procs[i].completion == Fcfs(ps).procs[i].startTime + Fcfs(ps).procs[i].burst
              && Fcfs(ps).procs[i].completion >= Fcfs(ps).procs[i].arrival + Fcfs(ps).procs[i].burst
  {
    var r := Fcfs(ps).procs;
    var sorted := ByArrival(ps);
    forall i | 0 <= i < |ps|
      ensures r[i].startTime == Max(if i == 0 then 0 else r[i - 1].completion, r[i].arrival)
      ensures r[i].isCompleted && r[i].completion == r[i].startTime + r[i].burst
      ensures r[i].completion >= r[i].arrival + r[i].burst
    {
      var t := if i == 0 then 0 else r[i - 1].completion;
      assert r[i] == Dispatched(sorted[i], t);
    }
  }

  /** For positive bursts no segment is empty and none starts before `t`. */
  lemma {:induction false} RunSegments(ps: seq<Proc>, t: int)
    requires PositiveBursts(ps)
    ensures NonEmpty(Run(ps, t).timeline)
    ensures forall k :: 0 <= k < |Run(ps, t).timeline| ==> Run(ps, t).timeline[k].start >= t
    decreases |ps|
  {
    if ps != [] {
      var p := ps[0];
      var start := Max(t, p.arrival);
      var head := (if t < p.arrival then [Segment(t, Idle, p.arrival)] else [])
                  + [Segment(start, Ran(p.pid), start + p.burst)];
      var rest := Run(ps[1..], start + p.burst);
      RunUnfold(ps, t);
      RunSegments(ps[1..], start + p.burst);
      SegmentsStep(Run(ps, t).timeline, head, rest.timeline, t, start + p.burst);
    }
  }

  /** Segments that start no earlier than `t`, followed by segments that
      start no earlier than `m >= t`, start no earlier than `t`; none is
      empty when neither part has an empty one. */
  lemma SegmentsStep(tl: seq<Segment>, head: seq<Segment>, rtl: seq<Segment>, t: int, m: int)
    requires tl == head + rtl && t <= m
    requires forall k :: 0 <= k < |head| ==> head[k].start < head[k].end && head[k].start >= t
    requires NonEmpty(rtl) && forall k :: 0 <= k < |rtl| ==> rtl[k].start >= m
    ensures NonEmpty(tl) && forall k :: 0 <= k < |tl| ==> tl[k].start >= t
  {
    forall k | 0 <= k < |tl|
      ensures tl[k].start < tl[k].end && tl[k].start >= t
    {
      if k >= |head| {
        assert tl[k] == rtl[k - |head|];
      } else {
        assert tl[k] == head[k];
      }
    }
  }

  /** The loop keeps every record's arrival and burst, and completes it. */
  lemma {:induction false} RunKeeps(ps: seq<Proc>, t: int)
    ensures forall i :: 0 <= i < |ps| ==>
              && Run(ps, t).procs[i].arrival == ps[i].arrival
              && Run(ps, t).procs[i].burst == ps[i].burst
              && Run(ps, t).procs[i].isCompleted
    decreases |ps|
  {
    if ps != [] {
      var p := ps[0];
      var start := Max(t, p.arrival);
      var rest := Run(ps[1..], start + p.burst).procs;
      RunUnfold(ps, t);
      RunKeeps(ps[1..], start + p.burst);
      forall i | 1 <= i < |ps|
        ensures Run(ps, t).procs[i].arrival == ps[i].arrival
      {
        assert Run(ps, t).procs[i] == rest[i - 1] && ps[i] == ps[1..][i - 1];
      }
    }
  }

  /** Whenever the loop idles before a record, no record from that one on
      arrives earlier than it: the idle time is then forced. */
  predicate EarliestWhenIdle(ps: seq<Proc>, t: int)
    decreases |ps|
  {
    ps == [] ||
    (&& (t < ps[0].arrival ==> forall j :: 0 <= j < |ps| ==> ps[0].arrival <= ps[j].arrival)
     && EarliestWhenIdle(ps[1..], Max(t, ps[0].arrival) + ps[0].burst))
  }

  /** Records sorted by arrival never idle needlessly, whatever the start
      time. */
  lemma {:induction false} SortedEarliestWhenIdle(ps: seq<Proc>, t: int)
    requires forall i, j :: 0 <= i < j < |ps| ==> ps[i].arrival <= ps[j].arrival
    ensures EarliestWhenIdle(ps, t)
    decreases |ps|
  {
    if ps != [] {
      SortedEarliestWhenIdle(ps[1..], Max(t, ps[0].arrival) + ps[0].burst);
    }
  }

  /** When the loop idles only for the earliest remaining record, IDLE
      appears only while every record has finished or not yet arrived. */
  lemma {:induction false} RunIdleJustified(ps: seq<Proc>, t: int)
    requires PositiveBursts(ps)
    requires EarliestWhenIdle(ps, t)
    ensures IdleJustified(Run(ps, t).timeline, Run(ps, t).procs)
    decreases |ps|
  {
    if ps != [] {
      var p := ps[0];
      var start := Max(t, p.arrival);
      var rest := Run(ps[1..], start + p.burst);
      RunUnfold(ps, t);
      RunIdleJustified(ps[1..], start + p.burst);
      RunSegments(ps[1..], start + p.burst);
      RunKeeps(ps[1..], start + p.burst);
      StepIdle(Run(ps, t), p, t, rest);
    }
  }

  /** Bookkeeping for one step of the loop, kept apart from `Run`'s
      definition: the head IDLE segment ends at `p`'s arrival, which no later
      record precedes, and every later segment starts after `p` completes. */
  lemma StepIdle(r: Schedule, p: Proc, t: int, rest: Schedule)
    requires p.burst > 0
    requires var start := Max(t, p.arrival);
      && r.timeline == (if t < p.arrival then [Segment(t, Idle, p.arrival)] else [])
                       + [Segment(start, Ran(p.pid), start + p.burst)] + rest.timeline
      && r.procs == [Dispatched(p, t)] + rest.procs
      && forall k :: 0 <= k < |rest.timeline| ==> rest.timeline[k].start >= start + p.burst
    requires t < p.arrival ==> forall i :: 0 <= i < |rest.procs| ==> rest.procs[i].arrival >= p.arrival
    requires IdleJustified(rest.timeline, rest.procs)
    ensures IdleJustified(r.timeline, r.procs)
  {
    var start := Max(t, p.arrival);
    var head := (if t < p.arrival then [Segment(t, Idle, p.arrival)] else [])
                + [Segment(start, Ran(p.pid), start + p.burst)];
    forall k, i | 0 <= k < |r.timeline| && 0 <= i < |r.procs| && r.timeline[k].owner == Idle
      ensures (r.procs[i].isCompleted && r.procs[i].completion <= r.timeline[k].start)
           || r.procs[i].arrival >= r.timeline[k].end
    {
      if k >= |head| {
        assert r.timeline[k] == rest.timeline[k - |head|];
        if i > 0 {
          assert r.procs[i] == rest.procs[i - 1];
        }
      } else {
        assert r.timeline[k] == Segment(t, Idle, p.arrival);
        if i > 0 {
          assert r.procs[i] == rest.procs[i - 1];
        }
      }
    }
  }

  /** The head segments of one step show `p` running for its burst and no
      other pid running at all. */
  lemma HeadAllocated(p: Proc, t: int, x: string)
    ensures var start := Max(t, p.arrival);
      Allocated((if t < p.arrival then [Segment(t, Idle, p.arrival)] else [])
                + [Segment(start, Ran(p.pid), start + p.burst)], x)
      == if p.pid == x then p.burst else 0
  {
    var start := Max(t, p.arrival);
    var idle := if t < p.arrival then [Segment(t, Idle, p.arrival)] else [];
    var seg := [Segment(start, Ran(p.pid), start + p.burst)];
    AllocatedConcat(idle, seg, x);
    assert Allocated(seg, x) == if p.pid == x then p.burst else 0 by {
      assert seg[..0] == [];
    }
    if idle != [] {
      assert idle[..0] == [];
    }
  }

  /** Each pid is shown running for exactly the bursts of the records that
      carry it. */
  lemma {:induction false} RunAllocated(ps: seq<Proc>, t: int, x: string)
    ensures Allocated(Run(ps, t).timeline, x) == Demand(Run(ps, t).procs, x)
    decreases |ps|
  {
    if ps != [] {
      RunAllocated(ps[1..], Max(t, ps[0].arrival) + ps[0].burst, x);
      RunStepAllocated(ps, t, x);
    }
  }

  /** One step of `RunAllocated`: the head record's segments added to what
      the rest of the loop shows. */
  lemma RunStepAllocated(ps: seq<Proc>, t: int, x: string)
    requires ps != []
    requires var rest := Run(ps[1..], Max(t, ps[0].arrival) + ps[0].burst);
      Allocated(rest.timeline, x) == Demand(rest.procs, x)
    ensures Allocated(Run(ps, t).timeline, x) == Demand(Run(ps, t).procs, x)
  {
    var p := ps[0];
    var start := Max(t, p.arrival);
    var head := (if t < p.arrival then [Segment(t, Idle, p.arrival)] else [])
                + [Segment(start, Ran(p.pid), start + p.burst)];
    var rest := Run(ps[1..], start + p.burst);
    RunUnfold(ps, t);
    HeadAllocated(p, t, x);
    StepAllocated(Run(ps, t), head, rest, Dispatched(p, t), x);
  }

  /** Bookkeeping for one step of the loop, kept apart from `Run`'s
      definition. */
  lemma StepAllocated(r: Schedule, head: seq<Segment>, rest: Schedule, q: Proc, x: string)
    requires r.timeline == head + rest.timeline && r.procs == [q] + rest.procs
    requires Allocated(head, x) == if q.pid == x then q.burst else 0
    requires Allocated(rest.timeline, x) == Demand(rest.procs, x)
    ensures Allocated(r.timeline, x) == Demand(r.procs, x)
  {
    AllocatedConcat(head, rest.timeline, x);
    DemandCons(q, rest.procs, x);
  }

  /** FCFS's timeline over positive bursts partitions the time from 0 to the
      last completion into non-empty segments, idles only while every record
      has finished or not yet arrived, and shows each pid running for exactly
      the bursts of its records. */
  lemma FcfsTimeline(ps: seq<Proc>)
    requires PositiveBursts(ps)
    ensures var r := Fcfs(ps);
      && Contiguous(r.timeline, 0)
      && NonEmpty(r.timeline)
      && IdleJustified(r.timeline, r.procs)
      && forall x :: Allocated(r.timeline, x) == Demand(r.procs, x)
  {
    var sorted := ByArrival(ps);
    forall i | 0 <= i < |sorted|
      ensures sorted[i].burst > 0
    {
      assert sorted[i] in multiset(ps);
    }
    RunSegments(sorted, 0);
    SortedEarliestWhenIdle(sorted, 0);
    RunIdleJustified(sorted, 0);
    forall x
      ensures Allocated(Fcfs(ps).timeline, x) == Demand(Fcfs(ps).procs, x)
    {
      RunAllocated(sorted, 0, x);
    }
  }

  /** Each pid is given exactly the CPU time its input records ask for. */
  lemma FcfsAllocated(ps: seq<Proc>, x: string)
    ensures Allocated(Fcfs(ps).timeline, x) == Demand(ps, x)
  {
    RunAllocated(ByArrival(ps), 0, x);
    FcfsOrder(ps);
    DemandPointwise(Fcfs(ps).procs, ByArrival(ps), x);
    DemandPermutation(ByArrival(ps), ps, x);
  }
}
