/** `Scheduler.round_robin`: a FIFO ready queue; the record at its head runs
    for at most one quantum, the records that arrived during that slice join
    the queue in arrival order, and then the record itself rejoins at the
    back unless it has finished. */
module RoundRobin {

  import opened Wrappers
  import opened Processes
  import opened Timeline
  import opened Select
  import opened Sorting

  /** The quantum `round_robin` uses when its caller gives none. */
  const DefaultQuantum := 4

  /** When `last_start` is moved to the current time. The source moves it at
      every slice (`EverySlice`), so a run of consecutive slices of one pid
      is emitted as its last slice only; `OnSwitch` moves it only when
      another pid takes the CPU, which keeps the whole run. */
  datatype Reset = EverySlice | OnSwitch

  /** The loop's variables: the copies, the ready queue as indices into
      them, `current_time`, `last_pid`, `last_start`, the timeline emitted so
      far and `len(completed)`. */
  datatype RState = RState(procs: seq<Proc>, queue: seq<nat>, time: int, last: Option<string>,
                           lastStart: int, timeline: seq<Segment>, done: nat)

  /** Some queue entry is a record with this pid (the source compares pids,
      not records). */
  predicate Queued(procs: seq<Proc>, queue: seq<nat>, pid: string)
  {
    exists e :: 0 <= e < |queue| && queue[e] < |procs| && procs[queue[e]].pid == pid
  }

  /** The filter of `new_arrivals`: arrived after `after` (when given) and
      by `upTo`, not completed, and no record of its pid already queued. */
  predicate Enters(procs: seq<Proc>, queue: seq<nat>, after: Option<int>, upTo: int, j: nat)
    requires j < |procs|
  {
    var p := procs[j];
    && (after.None? || after.value < p.arrival) && p.arrival <= upTo
    && !p.isCompleted && !Queued(procs, queue, p.pid)
  }

  /** The indices from `j` on that pass the filter, in input order. */
  function Entering(procs: seq<Proc>, queue: seq<nat>, after: Option<int>, upTo: int, j: nat): (r: seq<nat>)
    ensures forall e :: e in r <==> j <= e < |procs| && Enters(procs, queue, after, upTo, e)
    ensures forall a, b :: 0 <= a < b < |r| ==> r[a] < r[b]
    decreases |procs| - j
  {
    if j >= |procs| then []
    else
      var tail := Entering(procs, queue, after, upTo, j + 1);
      assert forall b :: 0 <= b < |tail| ==> tail[b] in tail;
      if Enters(procs, queue, after, upTo, j) then [j] + tail else tail
  }

  function ArrivalKey(procs: seq<Proc>): nat -> int
  {
    (j: nat) => if j < |procs| then procs[j].arrival else 0
  }

  /** `sorted(new_arrivals, key=lambda x: x.arrival)`: the records that
      pass the filter, each once, in arrival order (ties in input order). */
  function Admit(procs: seq<Proc>, queue: seq<nat>, after: Option<int>, upTo: int): (r: seq<nat>)
    ensures forall e: nat :: e in r <==> e < |procs| && Enters(procs, queue, after, upTo, e)
    ensures forall a :: 0 <= a < |r| ==> r[a] < |procs|
    ensures forall a, b :: 0 <= a < b < |r| ==> r[a] != r[b]
    ensures forall a, b :: 0 <= a < b < |r| ==> procs[r[a]].arrival <= procs[r[b]].arrival
  {
    var s := Entering(procs, queue, after, upTo, 0);
    var r := SortBy(s, ArrivalKey(procs));
    SortBySameElements(s, ArrivalKey(procs));
    SortByKeepsUnique(s, ArrivalKey(procs));
    assert forall a :: 0 <= a < |r| ==> r[a] in r;
    assert forall a, b :: 0 <= a < b < |r| ==> ArrivalKey(procs)(r[a]) <= ArrivalKey(procs)(r[b]);
    r
  }

  /** The head record after running one slice from `time`: its start set
      if it had none, `min(quantum, remaining)` units taken off. */
  function Advance(p: Proc, time: int, quantum: int): Proc
  {
    p.(startTime := if p.startTime == NotStarted then time else p.startTime,
       remaining := p.remaining - Min(quantum, p.remaining))
  }

  /** The records that join the queue after the head's slice: those that
      arrived during it, judged with the head already advanced. */
  function Joining(s: RState, quantum: int): seq<nat>
    requires s.queue != [] && s.queue[0] < |s.procs|
  {
    var c := s.queue[0];
    var p := s.procs[c];
    Admit(s.procs[c := Advance(p, s.time, quantum)], s.queue[1..], Some(s.time), s.time + Min(quantum, p.remaining))
  }

  /** The timeline with the open segment closed, if it belongs to a pid
      other than `pid` (the one about to run). */
  function Closed(s: RState, pid: string): seq<Segment>
  {
    if s.last.Some? && s.last.value != pid then s.timeline + [Segment(s.lastStart, Ran(s.last.value), s.time)]
    else s.timeline
  }

  /** Where the segment of the slice about to run for `pid` starts. */
  function SliceStart(s: RState, pid: string, reset: Reset): int
  {
    if reset == EverySlice || s.last != Some(pid) then s.time else s.lastStart
  }

  /** One pass of the ready branch: the head of the queue runs for
      `min(quantum, remaining)`; the open segment is closed first if it
      belongs to another pid; the arrivals of the slice are queued; the
      record completes or rejoins the back of the queue. */
  function Slice(s: RState, quantum: int, reset: Reset): (r: RState)
    requires s.queue != [] && s.queue[0] < |s.procs|
  {
    var c := s.queue[0];
    var p := s.procs[c];
    var tl := Closed(s, p.pid);
    var ls := SliceStart(s, p.pid, reset);
    var t := s.time + Min(quantum, p.remaining);
    var q := Advance(p, s.time, quantum);
    var queue := s.queue[1..] + Joining(s, quantum);
    if q.remaining == 0 then
      RState(s.procs[c := q.(completion := t, isCompleted := true)], queue, t, None, ls,
             tl + [Segment(ls, Ran(p.pid), t)], s.done + 1)
    else
      RState(s.procs[c := q], queue + [c], t, Some(p.pid), ls, tl, s.done)
  }

  /** The idle branch: close any open segment, idle up to the earliest
      arrival among the records not completed, and queue every record not
      completed that has arrived by then. */
  function IdleStep(s: RState): (r: RState)
    requires AnyPending(s.procs, UntilCompleted)
  {
    var tl := if s.last.Some? then s.timeline + [Segment(s.lastStart, Ran(s.last.value), s.time)] else s.timeline;
    var a := NextArrival(s.procs, UntilCompleted);
    RState(s.procs, s.queue + Admit(s.procs, s.queue, None, a), a, None, a, tl + [Segment(s.time, Idle, a)], s.done)
  }

  /** Every queue entry is an index of a record. */
  predicate InRange(s: RState)
  {
    forall e :: 0 <= e < |s.queue| ==> s.queue[e] < |s.procs|
  }

  /** What bounds the loop: the completions still to count and the units
      still to run. */
  function Measure(s: RState): nat
  {
    (if s.done < |s.procs| then |s.procs| - s.done else 0) + Work(s.procs)
  }

  lemma SliceInRange(s: RState, quantum: int, reset: Reset)
    requires InRange(s) && s.queue != []
    ensures InRange(Slice(s, quantum, reset)) && |Slice(s, quantum, reset).procs| == |s.procs|
  {
    var r := Slice(s, quantum, reset);
    forall e | 0 <= e < |r.queue|
      ensures r.queue[e] < |r.procs|
    {
      if e >= |s.queue| - 1 {
        var x := r.queue[e];
        assert x in r.queue;
      }
    }
  }

  /** A slice that does not complete its record removes one quantum of
      work; one that does counts a completion. */
  lemma SliceMeasure(s: RState, quantum: int, reset: Reset)
    requires quantum > 0 && s.done < |s.procs| && s.queue != [] && s.queue[0] < |s.procs|
    ensures Measure(Slice(s, quantum, reset)) < Measure(s)
  {
    var c := s.queue[0];
    var r := Slice(s, quantum, reset);
    WorkUpdate(s.procs, c, r.procs[c]);
  }

  /** After idling the queue holds the record whose arrival the clock
      jumped to. */
  lemma IdleFills(s: RState)
    requires AnyPending(s.procs, UntilCompleted) && s.queue == []
    ensures IdleStep(s).queue != [] && InRange(IdleStep(s))
  {
    var a := NextArrival(s.procs, UntilCompleted);
    var i :| 0 <= i < |s.procs| && Pending(UntilCompleted, s.procs[i]) && s.procs[i].arrival == a;
    assert Enters(s.procs, [], None, a, i);
    assert i in Admit(s.procs, [], None, a);
    var r := IdleStep(s);
    forall e | 0 <= e < |r.queue|
      ensures r.queue[e] < |r.procs|
    {
      assert r.queue[e] in r.queue;
    }
  }

  /** `while len(completed) < len(procs)`. The loop also stops if the queue
      is empty and every record is completed, where the source would spin;
      the invariant `QueueOk`, kept by `DriveKeeps`, shows that the count is
      then already reached. */
  function Drive(s: RState, quantum: int, reset: Reset): (r: RState)
    requires quantum > 0 && InRange(s)
    ensures |r.procs| == |s.procs|
    ensures r.done >= |r.procs| || !AnyPending(r.procs, UntilCompleted)
    decreases Measure(s), if s.queue == [] then 1 else 0
  {
    if s.done >= |s.procs| then s
    else if s.queue != [] then
      SliceMeasure(s, quantum, reset);
      SliceInRange(s, quantum, reset);
      Drive(Slice(s, quantum, reset), quantum, reset)
    else if !AnyPending(s.procs, UntilCompleted) then s
    else
      IdleFills(s);
      Drive(IdleStep(s), quantum, reset)
  }

  /** The state before the loop: fresh copies, and the ones that have
      arrived by time 0 queued in arrival order. */
  function Initial(ps: seq<Proc>): (s: RState)
    ensures InRange(s)
  {
    var procs := CopyAll(ps);
    var q := Admit(procs, [], None, 0);
    assert forall e :: 0 <= e < |q| ==> q[e] in q;
    RState(procs, q, 0, None, 0, [], 0)
  }

  function RoundRobinWith(ps: seq<Proc>, quantum: int, reset: Reset): (r: Schedule)
    requires quantum > 0
    ensures |r.procs| == |ps|
  {
    var f := Drive(Initial(ps), quantum, reset);
    Schedule(f.timeline, f.procs)
  }

  /** `round_robin` as written. */
  function RoundRobin(ps: seq<Proc>, quantum: int): (r: Schedule)
    requires quantum > 0
    ensures |r.procs| == |ps|
  {
    RoundRobinWith(ps, quantum, EverySlice)
  }

  /** `round_robin` with `last_start` moved only on a change of pid. */
  function RoundRobinMerged(ps: seq<Proc>, quantum: int): (r: Schedule)
    requires quantum > 0
    ensures |r.procs| == |ps|
  {
    RoundRobinWith(ps, quantum, OnSwitch)
  }

  /** What one slice does to the records and the clock: only the head of
      the queue changes; it runs for `min(quantum, remaining)` units, which
      is positive, gets its start if it had none, and completes exactly
      when nothing remains. */
  lemma SliceEffect(s: RState, quantum: int, reset: Reset)
    requires quantum > 0 && s.queue != [] && s.queue[0] < |s.procs| && s.procs[s.queue[0]].remaining > 0
    ensures var r := Slice(s, quantum, reset); var c := s.queue[0]; var p := s.procs[c];
      var run := Min(quantum, p.remaining); var q := r.procs[c];
      && 0 < run <= quantum && run <= p.remaining
      && r.time == s.time + run
      && |r.procs| == |s.procs|
      && (forall j :: 0 <= j < |s.procs| && j != c ==> r.procs[j] == s.procs[j])
      && q == p.(startTime := q.startTime, remaining := q.remaining, completion := q.completion,
                 isCompleted := q.isCompleted)
      && q.remaining == p.remaining - run
      && q.startTime == (if p.startTime == NotStarted then s.time else p.startTime)
      && (q.remaining == 0 ==> q.completion == r.time && q.isCompleted && r.done == s.done + 1 && r.last.None?)
      && (q.remaining != 0 ==> q.completion == p.completion && q.isCompleted == p.isCompleted
                               && r.done == s.done && r.last == Some(p.pid))
  {
  }

  /** What one slice does to the queue: the head leaves; the records that
      arrived during the slice, are not completed and have no queued pid
      join in arrival order; the head rejoins last unless it completed. */
  lemma SliceQueue(s: RState, quantum: int, reset: Reset)
    requires s.queue != [] && s.queue[0] < |s.procs|
    ensures var r := Slice(s, quantum, reset);
      r.queue == s.queue[1..] + Joining(s, quantum) + (if r.procs[s.queue[0]].remaining == 0 then [] else [s.queue[0]])
  {
  }

  /** The joiners are the records that arrived during the slice, are not
      completed and have no pid in the rest of the queue, each once. */
  lemma JoiningMembers(s: RState, quantum: int)
    requires s.queue != [] && s.queue[0] < |s.procs| && s.procs[s.queue[0]].arrival <= s.time
    ensures var j := Joining(s, quantum); var p := s.procs[s.queue[0]];
      && (forall a, b :: 0 <= a < b < |j| ==> j[a] != j[b])
      && (forall e: nat :: e in j <==>
            e < |s.procs| && Enters(s.procs, s.queue[1..], Some(s.time), s.time + Min(quantum, p.remaining), e))
  {
    var c := s.queue[0];
    var p := s.procs[c];
    EntersUpdate(s.procs, c, Advance(p, s.time, quantum), s.queue[1..], s.time, s.time + Min(quantum, p.remaining),
                 s.procs[c := Advance(p, s.time, quantum)]);
  }

  /** Updating the run state of a record that arrived by `after` changes
      nobody's admission: the record itself is not admitted either way, and
      its pid is unchanged. */
  lemma EntersUpdate(ps: seq<Proc>, c: nat, q: Proc, rest: seq<nat>, after: int, upTo: int, ps1: seq<Proc>)
    requires c < |ps| && ps1 == ps[c := q] && q.pid == ps[c].pid && q.arrival == ps[c].arrival
    requires ps[c].arrival <= after
    ensures forall e: nat :: e < |ps| ==>
      (Enters(ps1, rest, Some(after), upTo, e) <==> Enters(ps, rest, Some(after), upTo, e))
  {
    forall pid
      ensures Queued(ps1, rest, pid) <==> Queued(ps, rest, pid)
    {
      if Queued(ps1, rest, pid) {
        var e :| 0 <= e < |rest| && rest[e] < |ps1| && ps1[rest[e]].pid == pid;
        assert ps[rest[e]].pid == pid;
      }
      if Queued(ps, rest, pid) {
        var e :| 0 <= e < |rest| && rest[e] < |ps| && ps[rest[e]].pid == pid;
        assert ps1[rest[e]].pid == pid;
      }
    }
    forall e: nat | e < |ps|
      ensures Enters(ps1, rest, Some(after), upTo, e) <==> Enters(ps, rest, Some(after), upTo, e)
    {
      if e != c {
        assert ps1[e] == ps[e];
      }
    }
  }

  /** No index occurs twice. */
  predicate Unique(q: seq<nat>)
  {
    forall a, b :: 0 <= a < b < |q| ==> q[a] != q[b]
  }

  lemma UniqueConcat(x: seq<nat>, y: seq<nat>)
    requires Unique(x) && Unique(y) && forall e :: e in x ==> e !in y
    ensures Unique(x + y)
  {
    var z := x + y;
    forall a, b | 0 <= a < b < |z|
      ensures z[a] != z[b]
    {
      if a < |x| && b >= |x| {
        assert z[a] in x && z[b] == y[b - |x|] && z[b] in y;
      } else if a >= |x| {
        assert z[a] == y[a - |x|] && z[b] == y[b - |x|];
      }
    }
  }

  /** `len(completed)` recomputed from the records. */
  function Completed(ps: seq<Proc>): nat
  {
    if ps == [] then 0 else (if ps[0].isCompleted then 1 else 0) + Completed(ps[1..])
  }

  lemma {:induction false} CompletedUpdate(ps: seq<Proc>, i: nat, q: Proc)
    requires i < |ps|
    ensures Completed(ps[i := q]) == Completed(ps) - (if ps[i].isCompleted then 1 else 0) + (if q.isCompleted then 1 else 0)
    decreases |ps|
  {
    if i > 0 {
      assert ps[i := q][1..] == ps[1..][i - 1 := q];
      CompletedUpdate(ps[1..], i - 1, q);
    } else {
      assert ps[i := q][1..] == ps[1..];
    }
  }

  lemma {:induction false} CompletedBelow(ps: seq<Proc>, j: nat)
    requires j < |ps| && !ps[j].isCompleted
    ensures Completed(ps) < |ps|
    decreases |ps|
  {
    if j > 0 {
      CompletedBelow(ps[1..], j - 1);
    } else {
      CompletedAtMost(ps[1..]);
    }
  }

  lemma {:induction false} CompletedAtMost(ps: seq<Proc>)
    ensures Completed(ps) <= |ps|
    decreases |ps|
  {
    if ps != [] {
      CompletedAtMost(ps[1..]);
    }
  }

  lemma {:induction false} CompletedNone(ps: seq<Proc>)
    requires forall j :: 0 <= j < |ps| ==> !ps[j].isCompleted
    ensures Completed(ps) == 0
    decreases |ps|
  {
    if ps != [] {
      CompletedNone(ps[1..]);
    }
  }

  /** The ready queue at the head of the loop: valid distinct indices of
      records that have arrived and are not completed; every such record is
      queued; `len(completed)` counts the completed records; and the record
      of an open segment waits at the back of the queue. */
  predicate QueueOk(s: RState)
  {
    && InRange(s) && Unique(s.queue)
    && (forall e :: 0 <= e < |s.queue| ==> !s.procs[s.queue[e]].isCompleted && s.procs[s.queue[e]].arrival <= s.time)
    && (forall j :: 0 <= j < |s.procs| && !s.procs[j].isCompleted && s.procs[j].arrival <= s.time ==> j in s.queue)
    && s.done == Completed(s.procs)
    && (s.last.Some? ==> s.queue != [] && s.procs[s.queue[|s.queue| - 1]].pid == s.last.value)
  }

  /** The records are the copies `orig`, in order, each with its task
      unchanged and its progress consistent with the clock. */
  predicate Records(s: RState, orig: seq<Proc>)
  {
    && |s.procs| == |orig|
    && forall j :: 0 <= j < |orig| ==> SameTask(s.procs[j], orig[j]) && Progress(s.procs[j], s.time)
  }

  /** The clock and the open segment: an open segment started before now
      (one slice before, when `last_start` moves every slice). */
  predicate Clock(s: RState, quantum: int, reset: Reset)
  {
    && s.time >= 0 && 0 <= s.lastStart <= s.time
    && (s.last.Some? ==> s.lastStart < s.time)
    && (reset == EverySlice && s.last.Some? ==> s.time - s.lastStart <= quantum)
  }

  /** The head of a well-kept queue can run: it has arrived and has time
      left. */
  lemma HeadRunnable(s: RState, orig: seq<Proc>)
    requires Records(s, orig) && QueueOk(s) && PositiveBursts(orig) && s.queue != []
    ensures s.queue[0] < |s.procs| && s.procs[s.queue[0]].remaining > 0 && s.procs[s.queue[0]].arrival <= s.time
  {
    var c := s.queue[0];
    assert Progress(s.procs[c], s.time) && SameTask(s.procs[c], orig[c]);
  }

  lemma SliceRecords(s: RState, orig: seq<Proc>, quantum: int, reset: Reset)
    requires Records(s, orig) && QueueOk(s) && Clock(s, quantum, reset) && PositiveBursts(orig)
    requires quantum > 0 && s.queue != []
    ensures Records(Slice(s, quantum, reset), orig) && Clock(Slice(s, quantum, reset), quantum, reset)
  {
    HeadRunnable(s, orig);
    SliceEffect(s, quantum, reset);
    var r := Slice(s, quantum, reset);
    var c := s.queue[0];
    forall j | 0 <= j < |orig|
      ensures SameTask(r.procs[j], orig[j]) && Progress(r.procs[j], r.time)
    {
      if j != c {
        assert r.procs[j] == s.procs[j];
      }
    }
  }

  lemma DistinctKept(s: RState, orig: seq<Proc>)
    requires Records(s, orig) && DistinctPids(orig)
    ensures DistinctPids(s.procs)
  {
  }

  /** The queue after a slice is again made of distinct indices: the rest
      of the queue had arrived by the slice's start, the joiners arrived
      during it, and the head is in neither. */
  lemma SliceUnique(s: RState, orig: seq<Proc>, quantum: int, reset: Reset)
    requires Records(s, orig) && QueueOk(s) && PositiveBursts(orig) && quantum > 0 && s.queue != []
    ensures Unique(Slice(s, quantum, reset).queue) && InRange(Slice(s, quantum, reset))
  {
    HeadRunnable(s, orig);
    SliceQueue(s, quantum, reset);
    JoiningMembers(s, quantum);
    var c := s.queue[0];
    var joining := Joining(s, quantum);
    JoinersFresh(s, joining, s.time + Min(quantum, s.procs[c].remaining));
    QueueUnique(s.queue, joining, Slice(s, quantum, reset).procs[c].remaining != 0);
    SliceInRange(s, quantum, reset);
  }

  /** The records that join after a slice arrived during it, so none of
      them was queued before. */
  lemma JoinersFresh(s: RState, joining: seq<nat>, upTo: int)
    requires QueueOk(s) && s.queue != []
    requires forall e: nat :: e in joining ==> e < |s.procs| && Enters(s.procs, s.queue[1..], Some(s.time), upTo, e)
    ensures forall k :: 0 <= k < |s.queue| ==> s.queue[k] !in joining
  {
    forall k | 0 <= k < |s.queue|
      ensures s.queue[k] !in joining
    {
      assert s.procs[s.queue[k]].arrival <= s.time;
    }
  }

  /** Moving the head behind fresh, distinct joiners (or dropping it)
      keeps a queue free of duplicates. */
  lemma QueueUnique(q: seq<nat>, joining: seq<nat>, keep: bool)
    requires q != [] && Unique(q) && Unique(joining)
    requires forall k :: 0 <= k < |q| ==> q[k] !in joining
    ensures Unique(q[1..] + joining + (if keep then [q[0]] else []))
  {
    var rest := q[1..];
    assert Unique(rest) by {
      forall a, b | 0 <= a < b < |rest|
        ensures rest[a] != rest[b]
      {
        assert rest[a] == q[a + 1] && rest[b] == q[b + 1];
      }
    }
    forall e | e in rest
      ensures e !in joining
    {
      var k :| 0 <= k < |rest| && rest[k] == e;
      assert q[k + 1] == e;
    }
    UniqueConcat(rest, joining);
    if keep {
      forall k | 0 <= k < |rest|
        ensures rest[k] != q[0]
      {
        assert rest[k] == q[k + 1];
      }
      assert q[0] !in rest;
      assert q[0] !in joining;
      UniqueConcat(rest + joining, [q[0]]);
    } else {
      assert rest + joining + [] == rest + joining;
    }
  }

  /** After a slice every record that has arrived and is not completed is
      queued: it was queued before, or it is the head rejoining, or it
      arrived during the slice and joined. */
  lemma SliceCovered(s: RState, orig: seq<Proc>, quantum: int, reset: Reset)
    requires Records(s, orig) && QueueOk(s) && DistinctPids(orig) && PositiveBursts(orig) && quantum > 0 && s.queue != []
    ensures var r := Slice(s, quantum, reset);
      forall j :: 0 <= j < |r.procs| && !r.procs[j].isCompleted && r.procs[j].arrival <= r.time ==> j in r.queue
  {
    HeadRunnable(s, orig);
    SliceEffect(s, quantum, reset);
    SliceQueue(s, quantum, reset);
    JoiningMembers(s, quantum);
    DistinctKept(s, orig);
    CoveredStep(s, Slice(s, quantum, reset), s.queue[0], Joining(s, quantum));
  }

  /** The covering half of the queue invariant, for any state reached by
      running the head: the rest of the queue stays, the arrivals of the
      run join, and the head rejoins unless it completed. */
  lemma CoveredStep(s: RState, r: RState, c: nat, joining: seq<nat>)
    requires QueueOk(s) && DistinctPids(s.procs) && s.queue != [] && c == s.queue[0]
    requires |r.procs| == |s.procs| && forall j :: 0 <= j < |s.procs| && j != c ==> r.procs[j] == s.procs[j]
    requires r.time >= s.time && (r.procs[c].remaining == 0 ==> r.procs[c].isCompleted)
    requires r.queue == s.queue[1..] + joining + (if r.procs[c].remaining == 0 then [] else [c])
    requires forall e: nat :: e < |s.procs| && Enters(s.procs, s.queue[1..], Some(s.time), r.time, e) ==> e in joining
    ensures forall j :: 0 <= j < |r.procs| && !r.procs[j].isCompleted && r.procs[j].arrival <= r.time ==> j in r.queue
  {
    var rest := s.queue[1..];
    forall j | 0 <= j < |r.procs| && !r.procs[j].isCompleted && r.procs[j].arrival <= r.time
      ensures j in r.queue
    {
      if j == c {
        assert r.queue[|r.queue| - 1] == c;
      } else {
        assert r.procs[j] == s.procs[j];
        if s.procs[j].arrival <= s.time {
          assert j in s.queue;
          var k :| 0 <= k < |s.queue| && s.queue[k] == j;
          assert rest[k - 1] == j;
        } else {
          forall e | 0 <= e < |rest|
            ensures s.procs[rest[e]].pid != s.procs[j].pid
          {
            assert rest[e] == s.queue[e + 1];
          }
          assert Enters(s.procs, rest, Some(s.time), r.time, j);
        }
      }
    }
  }

  /** After a slice the queue invariant holds again. */
  lemma SliceQueueOk(s: RState, orig: seq<Proc>, quantum: int, reset: Reset)
    requires Records(s, orig) && QueueOk(s) && DistinctPids(orig) && PositiveBursts(orig) && quantum > 0 && s.queue != []
    ensures QueueOk(Slice(s, quantum, reset))
  {
    HeadRunnable(s, orig);
    SliceEffect(s, quantum, reset);
    SliceQueue(s, quantum, reset);
    JoiningMembers(s, quantum);
    SliceUnique(s, orig, quantum, reset);
    SliceCovered(s, orig, quantum, reset);
    var r := Slice(s, quantum, reset);
    var c := s.queue[0];
    CompletedUpdate(s.procs, c, r.procs[c]);
    QueuedStep(s, r, c, Joining(s, quantum));
  }

  /** Every record queued after running the head has arrived and is not
      completed: the rest of the queue was so before, the joiners arrived
      during the run, and the head rejoins only when it has time left. */
  lemma QueuedStep(s: RState, r: RState, c: nat, joining: seq<nat>)
    requires QueueOk(s) && InRange(r) && s.queue != [] && c == s.queue[0]
    requires |r.procs| == |s.procs| && forall j :: 0 <= j < |s.procs| && j != c ==> r.procs[j] == s.procs[j]
    requires r.time >= s.time && r.procs[c].arrival == s.procs[c].arrival
    requires r.procs[c].remaining != 0 ==> !r.procs[c].isCompleted
    requires r.queue == s.queue[1..] + joining + (if r.procs[c].remaining == 0 then [] else [c])
    requires forall e: nat :: e in joining ==> e < |s.procs| && Enters(s.procs, s.queue[1..], Some(s.time), r.time, e)
    ensures forall e :: 0 <= e < |r.queue| ==> !r.procs[r.queue[e]].isCompleted && r.procs[r.queue[e]].arrival <= r.time
  {
    var rest := s.queue[1..];
    forall e | 0 <= e < |r.queue|
      ensures !r.procs[r.queue[e]].isCompleted && r.procs[r.queue[e]].arrival <= r.time
    {
      var x := r.queue[e];
      if e < |rest| {
        assert x == s.queue[e + 1];
        assert x != c;
      } else if e < |rest| + |joining| {
        assert x == joining[e - |rest|];
        assert x in joining;
      }
    }
  }

  /** With the queue empty nothing is open and every record not completed
      is still to arrive, so the clock jumps strictly forward. */
  lemma IdleGap(s: RState)
    requires QueueOk(s) && s.queue == [] && AnyPending(s.procs, UntilCompleted)
    ensures s.last.None? && NextArrival(s.procs, UntilCompleted) > s.time
  {
    var a := NextArrival(s.procs, UntilCompleted);
    var i :| 0 <= i < |s.procs| && Pending(UntilCompleted, s.procs[i]) && s.procs[i].arrival == a;
  }

  lemma IdleRecords(s: RState, orig: seq<Proc>, quantum: int, reset: Reset)
    requires Records(s, orig) && QueueOk(s) && Clock(s, quantum, reset)
    requires s.queue == [] && AnyPending(s.procs, UntilCompleted)
    ensures Records(IdleStep(s), orig) && Clock(IdleStep(s), quantum, reset)
  {
    IdleGap(s);
    var r := IdleStep(s);
    forall j | 0 <= j < |orig|
      ensures Progress(r.procs[j], r.time)
    {
      assert Progress(s.procs[j], s.time);
    }
  }

  /** A queue freshly filled with every record not completed that has
      arrived by now, and nothing open, is a well-kept queue. */
  lemma AdmittedQueueOk(r: RState)
    requires r.queue == Admit(r.procs, [], None, r.time) && r.last.None? && r.done == Completed(r.procs)
    ensures QueueOk(r)
  {
    forall j | 0 <= j < |r.procs| && !r.procs[j].isCompleted && r.procs[j].arrival <= r.time
      ensures j in r.queue
    {
      assert Enters(r.procs, [], None, r.time, j);
    }
    forall e | 0 <= e < |r.queue|
      ensures r.queue[e] < |r.procs| && !r.procs[r.queue[e]].isCompleted && r.procs[r.queue[e]].arrival <= r.time
    {
      assert r.queue[e] in r.queue;
    }
  }

  lemma IdleQueueOk(s: RState)
    requires QueueOk(s) && s.queue == [] && AnyPending(s.procs, UntilCompleted)
    ensures QueueOk(IdleStep(s))
  {
    IdleGap(s);
    var r := IdleStep(s);
    assert r.queue == Admit(r.procs, [], None, r.time);
    AdmittedQueueOk(r);
  }

  /** Where the next segment starts: at `last_start` while a segment is
      open, else now. */
  function Mark(s: RState): int
  {
    if s.last.Some? then s.lastStart else s.time
  }

  /** Every segment of a process is at most one quantum long. */
  predicate Sliced(tl: seq<Segment>, quantum: int)
  {
    forall k :: 0 <= k < |tl| && tl[k].owner.Ran? ==> tl[k].end - tl[k].start <= quantum
  }

  /** The closed segments: in time order from 0, none empty, none past the
      mark; with `last_start` moved every slice each is one slice long, and
      with it moved only on a switch they tile `[0, mark)`. */
  predicate Shape(s: RState, quantum: int, reset: Reset)
  {
    var tl := s.timeline;
    && NonEmpty(tl) && OrderedFrom(tl, 0) && EndTime(tl, 0) <= Mark(s)
    && (reset == EverySlice ==> Sliced(tl, quantum))
    && (reset == OnSwitch ==> Contiguous(tl, 0) && EndTime(tl, 0) == Mark(s))
  }

  /** What one slice does to the timeline: it is closed for the head's
      pid and, if the head completes, the head's segment from the slice
      start to the new time is appended. */
  lemma SliceTimeline(s: RState, quantum: int, reset: Reset)
    requires s.queue != [] && s.queue[0] < |s.procs|
    ensures var r := Slice(s, quantum, reset); var pid := s.procs[s.queue[0]].pid;
      && r.lastStart == SliceStart(s, pid, reset)
      && r.timeline == Closed(s, pid) + (if r.last.None? then [Segment(r.lastStart, Ran(pid), r.time)] else [])
  {
  }

  /** Closing the open segment keeps the shape, ending at the slice start. */
  lemma ClosedShape(s: RState, pid: string, quantum: int, reset: Reset)
    requires Clock(s, quantum, reset) && Shape(s, quantum, reset)
    ensures var tl := Closed(s, pid); var ls := SliceStart(s, pid, reset);
      && NonEmpty(tl) && OrderedFrom(tl, 0) && EndTime(tl, 0) <= ls <= s.time
      && (reset == EverySlice ==> Sliced(tl, quantum))
      && (reset == OnSwitch ==> Contiguous(tl, 0) && EndTime(tl, 0) == ls)
  {
    if s.last.Some? && s.last.value != pid {
      var closed := Segment(s.lastStart, Ran(s.last.value), s.time);
      OrderedSnoc(s.timeline, closed, 0);
      if reset == OnSwitch {
        ContiguousSnoc(s.timeline, closed, 0);
      }
    }
  }

  lemma SliceShape(s: RState, orig: seq<Proc>, quantum: int, reset: Reset)
    requires Records(s, orig) && QueueOk(s) && Clock(s, quantum, reset) && Shape(s, quantum, reset)
    requires PositiveBursts(orig) && quantum > 0 && s.queue != []
    ensures Shape(Slice(s, quantum, reset), quantum, reset)
  {
    HeadRunnable(s, orig);
    SliceEffect(s, quantum, reset);
    SliceTimeline(s, quantum, reset);
    var c := s.queue[0];
    ShapeStep(s, Slice(s, quantum, reset), s.procs[c].pid, Min(quantum, s.procs[c].remaining), quantum, reset);
  }

  /** A state reached from `s` by running `pid` for `run` time units,
      with the timeline closed for `pid` and the new segment appended
      when the run completes, keeps the shape. */
  lemma ShapeStep(s: RState, r: RState, pid: string, run: int, quantum: int, reset: Reset)
    requires Clock(s, quantum, reset) && Shape(s, quantum, reset)
    requires 0 < run <= quantum && r.time == s.time + run
    requires r.last.None? || r.last == Some(pid)
    requires r.lastStart == SliceStart(s, pid, reset)
    requires r.timeline == Closed(s, pid) + (if r.last.None? then [Segment(r.lastStart, Ran(pid), r.time)] else [])
    ensures Shape(r, quantum, reset)
  {
    ClosedShape(s, pid, quantum, reset);
    var tl := Closed(s, pid);
    if r.last.None? {
      var own := Segment(r.lastStart, Ran(pid), r.time);
      OrderedSnoc(tl, own, 0);
      if reset == OnSwitch {
        ContiguousSnoc(tl, own, 0);
      }
      if reset == EverySlice {
        var c := tl + [own];
        forall k | 0 <= k < |c| && c[k].owner.Ran?
          ensures c[k].end - c[k].start <= quantum
        {
          if k < |tl| {
            assert c[k] == tl[k];
          }
        }
      }
    } else {
      assert r.timeline == tl + [] == tl;
    }
  }

  lemma IdleShape(s: RState, quantum: int, reset: Reset)
    requires QueueOk(s) && Clock(s, quantum, reset) && Shape(s, quantum, reset)
    requires s.queue == [] && AnyPending(s.procs, UntilCompleted)
    ensures Shape(IdleStep(s), quantum, reset)
  {
    IdleGap(s);
    var seg := Segment(s.time, Idle, NextArrival(s.procs, UntilCompleted));
    OrderedSnoc(s.timeline, seg, 0);
    if reset == OnSwitch {
      ContiguousSnoc(s.timeline, seg, 0);
    }
  }

  /** What keeps the timeline coalesced: an open segment's pid differs
      from the last closed segment's; a closed segment left last when
      nothing is open belongs to a completed pid; and the timeline ends in
      IDLE only while the queue is not empty. */
  predicate Merged(s: RState)
  {
    var tl := s.timeline;
    && Coalesced(tl)
    && (s.last.Some? && tl != [] ==> tl[|tl| - 1].owner != Ran(s.last.value))
    && (s.last.None? && tl != [] && tl[|tl| - 1].owner.Ran? ==>
          forall j :: 0 <= j < |s.procs| && s.procs[j].pid == tl[|tl| - 1].owner.pid ==> s.procs[j].isCompleted)
    && (tl != [] && tl[|tl| - 1].owner == Idle ==> s.queue != [])
  }

  /** Closing the open segment for a pid that still has a record to run
      keeps the timeline coalesced and leaves it ending in another label. */
  lemma ClosedMerged(s: RState, i: nat)
    requires Merged(s) && i < |s.procs| && !s.procs[i].isCompleted
    ensures var tl := Closed(s, s.procs[i].pid);
      Coalesced(tl) && (tl != [] ==> tl[|tl| - 1].owner != Ran(s.procs[i].pid))
  {
    var pid := s.procs[i].pid;
    if s.last.Some? && s.last.value != pid {
      CoalescedSnoc(s.timeline, Segment(s.lastStart, Ran(s.last.value), s.time));
    }
  }

  /** A slice that completes its record leaves no record of that pid to
      run (pids being distinct); one that does not leaves the record
      queued. */
  lemma SliceLeaves(s: RState, orig: seq<Proc>, quantum: int, reset: Reset)
    requires Records(s, orig) && QueueOk(s) && DistinctPids(orig) && PositiveBursts(orig) && quantum > 0 && s.queue != []
    ensures var r := Slice(s, quantum, reset); var pid := s.procs[s.queue[0]].pid;
      && (r.last.None? ==> forall j :: 0 <= j < |r.procs| && r.procs[j].pid == pid ==> r.procs[j].isCompleted)
      && (r.last.Some? ==> r.queue != [])
  {
    HeadRunnable(s, orig);
    SliceEffect(s, quantum, reset);
    SliceQueue(s, quantum, reset);
    DistinctKept(s, orig);
  }

  lemma SliceMerged(s: RState, orig: seq<Proc>, quantum: int, reset: Reset)
    requires Records(s, orig) && QueueOk(s) && Merged(s)
    requires DistinctPids(orig) && PositiveBursts(orig) && quantum > 0 && s.queue != []
    ensures Merged(Slice(s, quantum, reset))
  {
    HeadRunnable(s, orig);
    SliceTimeline(s, quantum, reset);
    SliceLeaves(s, orig, quantum, reset);
    SliceEffect(s, quantum, reset);
    assert s.queue[0] in s.queue;
    MergedStep(s, Slice(s, quantum, reset), s.queue[0]);
  }

  /** The merging of one slice, for any state `r` whose timeline is `s`'s
      closed for the pid at `c`, plus that pid's segment when nothing is
      left open. */
  lemma MergedStep(s: RState, r: RState, c: nat)
    requires Merged(s) && c < |s.procs| && !s.procs[c].isCompleted
    requires var pid := s.procs[c].pid;
      && r.timeline == Closed(s, pid) + (if r.last.None? then [Segment(r.lastStart, Ran(pid), r.time)] else [])
      && (r.last.None? ==> forall j :: 0 <= j < |r.procs| && r.procs[j].pid == pid ==> r.procs[j].isCompleted)
      && (r.last.Some? ==> r.last == Some(pid) && r.queue != [])
    ensures Merged(r)
  {
    var pid := s.procs[c].pid;
    var tl := Closed(s, pid);
    ClosedMerged(s, c);
    if r.last.None? {
      CoalescedSnoc(tl, Segment(r.lastStart, Ran(pid), r.time));
    } else {
      assert r.timeline == tl + [] == tl;
    }
  }

  lemma IdleMerged(s: RState)
    requires QueueOk(s) && Merged(s) && s.queue == [] && AnyPending(s.procs, UntilCompleted)
    ensures Merged(IdleStep(s))
  {
    IdleGap(s);
    IdleFills(s);
    CoalescedSnoc(s.timeline, Segment(s.time, Idle, NextArrival(s.procs, UntilCompleted)));
  }

  /** The units of `pid` in the open segment. */
  function Open(s: RState, pid: string): int
  {
    if s.last == Some(pid) then s.time - s.lastStart else 0
  }

  /** The timeline shows no more units of a pid than its records have run,
      and, with `last_start` moved only on a switch, exactly as many. */
  ghost predicate Accounted(s: RState, reset: Reset)
  {
    forall pid :: && Allocated(s.timeline, pid) + Open(s, pid) <= Done(s.procs, pid)
                  && (reset == OnSwitch ==> Allocated(s.timeline, pid) + Open(s, pid) == Done(s.procs, pid))
  }

  lemma SliceAccounted(s: RState, orig: seq<Proc>, quantum: int, reset: Reset)
    requires Records(s, orig) && QueueOk(s) && Clock(s, quantum, reset) && Accounted(s, reset)
    requires PositiveBursts(orig) && quantum > 0 && s.queue != []
    ensures Accounted(Slice(s, quantum, reset), reset)
  {
    HeadRunnable(s, orig);
    SliceEffect(s, quantum, reset);
    SliceTimeline(s, quantum, reset);
    var r := Slice(s, quantum, reset);
    var c := s.queue[0];
    assert r.procs == s.procs[c := r.procs[c]];
    AccountedStep(s, r, c, reset);
  }

  /** The accounting of one slice, for any state `r` that changes only the
      record at `c` and runs it from `s.time` to `r.time`. */
  lemma AccountedStep(s: RState, r: RState, c: nat, reset: Reset)
    requires Accounted(s, reset) && s.lastStart <= s.time
    requires c < |s.procs| == |r.procs| && r.procs == s.procs[c := r.procs[c]]
    requires r.procs[c].pid == s.procs[c].pid && r.procs[c].burst == s.procs[c].burst
    requires var pid := s.procs[c].pid;
      && r.time == s.time + (s.procs[c].remaining - r.procs[c].remaining)
      && r.lastStart == SliceStart(s, pid, reset)
      && (r.last.None? || r.last == Some(pid))
      && r.timeline == Closed(s, pid) + (if r.last.None? then [Segment(r.lastStart, Ran(pid), r.time)] else [])
    ensures Accounted(r, reset)
  {
    var pid := s.procs[c].pid;
    var tl := Closed(s, pid);
    forall x
      ensures Allocated(r.timeline, x) + Open(r, x) <= Done(r.procs, x)
      ensures reset == OnSwitch ==> Allocated(r.timeline, x) + Open(r, x) == Done(r.procs, x)
    {
      assert Allocated(s.timeline, x) + Open(s, x) <= Done(s.procs, x);
      assert reset == OnSwitch ==> Allocated(s.timeline, x) + Open(s, x) == Done(s.procs, x);
      DoneUpdate(s.procs, c, r.procs[c], x);
      if s.last.Some? && s.last.value != pid {
        AllocatedSnoc(s.timeline, Segment(s.lastStart, Ran(s.last.value), s.time), x);
      }
      if r.last.None? {
        AllocatedSnoc(tl, Segment(r.lastStart, Ran(pid), r.time), x);
        assert Allocated(r.timeline, x) == Allocated(tl, x) + (if x == pid then r.time - r.lastStart else 0);
      } else {
        assert r.timeline == tl + [] == tl;
      }
      assert Done(r.procs, x) == Done(s.procs, x) + (if x == pid then s.procs[c].remaining - r.procs[c].remaining else 0);
      assert Open(r, x) == if r.last == Some(x) then r.time - r.lastStart else 0;
      if x == pid {
        assert Allocated(tl, x) == Allocated(s.timeline, x);
      } else {
        assert Open(r, x) == 0;
        assert Allocated(tl, x) == Allocated(s.timeline, x) + Open(s, x);
      }
    }
  }

  lemma IdleAccounted(s: RState, reset: Reset)
    requires QueueOk(s) && Accounted(s, reset) && s.queue == [] && AnyPending(s.procs, UntilCompleted)
    ensures Accounted(IdleStep(s), reset)
  {
    IdleGap(s);
    var r := IdleStep(s);
    forall x
      ensures Allocated(r.timeline, x) + Open(r, x) <= Done(r.procs, x)
      ensures reset == OnSwitch ==> Allocated(r.timeline, x) + Open(r, x) == Done(r.procs, x)
    {
      AllocatedSnoc(s.timeline, Segment(s.time, Idle, r.time), x);
    }
  }

  lemma SliceIdleJustified(s: RState, orig: seq<Proc>, quantum: int, reset: Reset)
    requires Records(s, orig) && QueueOk(s) && IdleJustified(s.timeline, s.procs)
    requires PositiveBursts(orig) && quantum > 0 && s.queue != []
    ensures IdleJustified(Slice(s, quantum, reset).timeline, Slice(s, quantum, reset).procs)
  {
    HeadRunnable(s, orig);
    SliceEffect(s, quantum, reset);
    SliceTimeline(s, quantum, reset);
    assert s.queue[0] in s.queue;
    JustifiedStep(s, Slice(s, quantum, reset), s.queue[0]);
  }

  /** IDLE stays justified through one slice, for any state `r` that runs
      the unfinished record at `c` and extends `s`'s timeline with that
      record's segments only. */
  lemma JustifiedStep(s: RState, r: RState, c: nat)
    requires IdleJustified(s.timeline, s.procs)
    requires c < |s.procs| == |r.procs| && !s.procs[c].isCompleted && r.procs[c].arrival == s.procs[c].arrival
    requires forall j :: 0 <= j < |s.procs| && j != c ==> r.procs[j] == s.procs[j]
    requires var pid := s.procs[c].pid;
      r.timeline == Closed(s, pid) + (if r.last.None? then [Segment(r.lastStart, Ran(pid), r.time)] else [])
    ensures IdleJustified(r.timeline, r.procs)
  {
    var pid := s.procs[c].pid;
    JustifiedRecords(s.timeline, s.procs, r.procs, c);
    if s.last.Some? && s.last.value != pid {
      IdleAppend(s.timeline, r.procs, Segment(s.lastStart, Ran(s.last.value), s.time));
    }
    var tl := Closed(s, pid);
    if r.last.None? {
      IdleAppend(tl, r.procs, Segment(r.lastStart, Ran(pid), r.time));
    } else {
      assert r.timeline == tl + [] == tl;
    }
  }

  lemma IdleIdleJustified(s: RState, orig: seq<Proc>)
    requires Records(s, orig) && QueueOk(s) && IdleJustified(s.timeline, s.procs)
    requires s.queue == [] && AnyPending(s.procs, UntilCompleted)
    ensures IdleJustified(IdleStep(s).timeline, IdleStep(s).procs)
  {
    IdleGap(s);
    var a := NextArrival(s.procs, UntilCompleted);
    forall j | 0 <= j < |s.procs|
      ensures (s.procs[j].isCompleted && s.procs[j].completion <= s.time) || s.procs[j].arrival >= a
    {
      if s.procs[j].isCompleted {
        assert Progress(s.procs[j], s.time);
      }
    }
    IdleAppend(s.timeline, s.procs, Segment(s.time, Idle, a));
  }

  /** Everything the loop keeps, for the copies `orig` it started from. */
  ghost predicate Inv(s: RState, orig: seq<Proc>, quantum: int, reset: Reset)
  {
    && Records(s, orig) && QueueOk(s) && Clock(s, quantum, reset) && Shape(s, quantum, reset)
    && Merged(s) && Accounted(s, reset) && IdleJustified(s.timeline, s.procs)
  }

  lemma SliceInv(s: RState, orig: seq<Proc>, quantum: int, reset: Reset)
    requires Inv(s, orig, quantum, reset) && DistinctPids(orig) && PositiveBursts(orig)
    requires quantum > 0 && s.queue != []
    ensures Inv(Slice(s, quantum, reset), orig, quantum, reset)
  {
    SliceRecords(s, orig, quantum, reset);
    SliceQueueOk(s, orig, quantum, reset);
    SliceShape(s, orig, quantum, reset);
    SliceMerged(s, orig, quantum, reset);
    SliceAccounted(s, orig, quantum, reset);
    SliceIdleJustified(s, orig, quantum, reset);
  }

  lemma IdleInv(s: RState, orig: seq<Proc>, quantum: int, reset: Reset)
    requires Inv(s, orig, quantum, reset)
    requires s.queue == [] && AnyPending(s.procs, UntilCompleted)
    ensures Inv(IdleStep(s), orig, quantum, reset)
  {
    IdleRecords(s, orig, quantum, reset);
    IdleQueueOk(s);
    IdleShape(s, quantum, reset);
    IdleMerged(s);
    IdleAccounted(s, reset);
    IdleIdleJustified(s, orig);
  }

  lemma {:induction false} DriveKeeps(s: RState, orig: seq<Proc>, quantum: int, reset: Reset)
    requires quantum > 0 && DistinctPids(orig) && PositiveBursts(orig)
    requires Inv(s, orig, quantum, reset)
    ensures Inv(Drive(s, quantum, reset), orig, quantum, reset)
    decreases Measure(s), if s.queue == [] then 1 else 0, 1
  {
    if s.done >= |s.procs| {
      DriveDone(s, quantum, reset);
    } else if s.queue != [] {
      SliceKeeps(s, orig, quantum, reset);
    } else if AnyPending(s.procs, UntilCompleted) {
      IdleKeeps(s, orig, quantum, reset);
    } else {
      DriveStops(s, quantum, reset);
    }
  }

  /** `DriveKeeps` when the loop runs a slice next. */
  lemma {:induction false} SliceKeeps(s: RState, orig: seq<Proc>, quantum: int, reset: Reset)
    requires quantum > 0 && DistinctPids(orig) && PositiveBursts(orig)
    requires Inv(s, orig, quantum, reset) && s.done < |s.procs| && s.queue != []
    ensures Inv(Drive(s, quantum, reset), orig, quantum, reset)
    decreases Measure(s), 0, 0
  {
    SliceMeasure(s, quantum, reset);
    SliceInv(s, orig, quantum, reset);
    DriveSlice(s, quantum, reset);
    DriveKeeps(Slice(s, quantum, reset), orig, quantum, reset);
  }

  /** `DriveKeeps` when the loop idles next. */
  lemma {:induction false} IdleKeeps(s: RState, orig: seq<Proc>, quantum: int, reset: Reset)
    requires quantum > 0 && DistinctPids(orig) && PositiveBursts(orig)
    requires Inv(s, orig, quantum, reset) && s.done < |s.procs| && s.queue == [] && AnyPending(s.procs, UntilCompleted)
    ensures Inv(Drive(s, quantum, reset), orig, quantum, reset)
    decreases Measure(s), 1, 0
  {
    IdleInv(s, orig, quantum, reset);
    DriveIdle(s, quantum, reset);
    DriveKeeps(IdleStep(s), orig, quantum, reset);
  }

  /** With records left and the queue not empty, the loop runs a slice. */
  lemma DriveSlice(s: RState, quantum: int, reset: Reset)
    requires quantum > 0 && InRange(s) && s.done < |s.procs| && s.queue != []
    ensures InRange(Slice(s, quantum, reset))
    ensures Drive(s, quantum, reset) == Drive(Slice(s, quantum, reset), quantum, reset)
  {
    SliceInRange(s, quantum, reset);
  }

  /** With records left, the queue empty and a record still to arrive, the
      loop idles up to that arrival. */
  lemma DriveIdle(s: RState, quantum: int, reset: Reset)
    requires quantum > 0 && InRange(s) && s.done < |s.procs| && s.queue == [] && AnyPending(s.procs, UntilCompleted)
    ensures InRange(IdleStep(s))
    ensures Drive(s, quantum, reset) == Drive(IdleStep(s), quantum, reset)
  {
    IdleFills(s);
  }

  /** With the queue empty and no record left to arrive, the loop stops. */
  lemma DriveStops(s: RState, quantum: int, reset: Reset)
    requires quantum > 0 && InRange(s) && s.queue == [] && !AnyPending(s.procs, UntilCompleted)
    ensures Drive(s, quantum, reset) == s
  {
  }

  lemma InitialQueueOk(ps: seq<Proc>)
    ensures QueueOk(Initial(ps))
  {
    var s := Initial(ps);
    CompletedNone(s.procs);
    AdmittedQueueOk(s);
  }

  lemma InitialAccounted(ps: seq<Proc>, reset: Reset)
    ensures Accounted(Initial(ps), reset)
  {
    var s := Initial(ps);
    forall pid
      ensures Allocated(s.timeline, pid) + Open(s, pid) == Done(s.procs, pid)
    {
      DoneUnstarted(s.procs, pid);
    }
  }

  lemma InitialInv(ps: seq<Proc>, quantum: int, reset: Reset)
    ensures Inv(Initial(ps), CopyAll(ps), quantum, reset)
  {
    InitialQueueOk(ps);
    InitialAccounted(ps, reset);
    var s := Initial(ps);
    assert Records(s, CopyAll(ps));
  }

  /** The loop's final state: the invariant holds, every record is
      completed and nothing is open. */
  lemma Final(ps: seq<Proc>, quantum: int, reset: Reset)
    requires quantum > 0 && DistinctPids(ps) && PositiveBursts(ps)
    ensures var f := Drive(Initial(ps), quantum, reset);
      && Inv(f, CopyAll(ps), quantum, reset) && f.last.None?
      && forall j :: 0 <= j < |f.procs| ==> f.procs[j].isCompleted
  {
    var orig := CopyAll(ps);
    assert DistinctPids(orig) && PositiveBursts(orig);
    InitialInv(ps, quantum, reset);
    DriveKeeps(Initial(ps), orig, quantum, reset);
    Settled(Drive(Initial(ps), quantum, reset), orig, quantum, reset);
  }

  /** Where the loop stops with the invariant holding, every record is
      completed and nothing is open. */
  lemma Settled(f: RState, orig: seq<Proc>, quantum: int, reset: Reset)
    requires Inv(f, orig, quantum, reset)
    requires f.done >= |f.procs| || !AnyPending(f.procs, UntilCompleted)
    ensures f.last.None? && forall j :: 0 <= j < |f.procs| ==> f.procs[j].isCompleted
  {
    forall j | 0 <= j < |f.procs|
      ensures f.procs[j].isCompleted
    {
      if !f.procs[j].isCompleted {
        CompletedBelow(f.procs, j);
      }
    }
  }

  /** When nothing is open, the timeline ends at the clock, and the clock
      stands where the last segment closed: at the completion of the record
      that ran in it, or at the end of an IDLE gap with some record still
      to run. */
  predicate Ended(s: RState)
  {
    s.last.None? ==>
      && EndTime(s.timeline, 0) == s.time
      && (|| s.timeline == []
          || AnyPending(s.procs, UntilCompleted)
          || exists j :: 0 <= j < |s.procs| && s.procs[j].isCompleted && s.procs[j].completion == s.time)
  }

  lemma SliceEnded(s: RState, quantum: int, reset: Reset)
    requires s.queue != [] && s.queue[0] < |s.procs|
    ensures Ended(Slice(s, quantum, reset))
  {
    var r := Slice(s, quantum, reset);
    var c := s.queue[0];
    SliceTimeline(s, quantum, reset);
    if r.last.None? {
      assert r.procs[c].isCompleted && r.procs[c].completion == r.time;
    }
  }

  lemma IdleEnded(s: RState)
    requires AnyPending(s.procs, UntilCompleted)
    ensures Ended(IdleStep(s))
  {
  }

  lemma {:induction false} DriveEnded(s: RState, quantum: int, reset: Reset)
    requires quantum > 0 && InRange(s) && Ended(s)
    ensures Ended(Drive(s, quantum, reset))
    decreases Measure(s), if s.queue == [] then 1 else 0, 1
  {
    if s.done >= |s.procs| {
      DriveDone(s, quantum, reset);
    } else if s.queue != [] {
      SliceEnds(s, quantum, reset);
    } else if AnyPending(s.procs, UntilCompleted) {
      IdleEnds(s, quantum, reset);
    } else {
      DriveStops(s, quantum, reset);
    }
  }

  /** `DriveEnded` when the loop runs a slice next. */
  lemma {:induction false} SliceEnds(s: RState, quantum: int, reset: Reset)
    requires quantum > 0 && InRange(s) && Ended(s) && s.done < |s.procs| && s.queue != []
    ensures Ended(Drive(s, quantum, reset))
    decreases Measure(s), 0, 0
  {
    SliceMeasure(s, quantum, reset);
    SliceEnded(s, quantum, reset);
    DriveSlice(s, quantum, reset);
    DriveEnded(Slice(s, quantum, reset), quantum, reset);
  }

  /** `DriveEnded` when the loop idles next. */
  lemma {:induction false} IdleEnds(s: RState, quantum: int, reset: Reset)
    requires quantum > 0 && InRange(s) && Ended(s) && s.done < |s.procs| && s.queue == []
    requires AnyPending(s.procs, UntilCompleted)
    ensures Ended(Drive(s, quantum, reset))
    decreases Measure(s), 1, 0
  {
    IdleEnded(s);
    IdleFills(s);
    DriveIdle(s, quantum, reset);
    DriveEnded(IdleStep(s), quantum, reset);
  }

  /** A finished loop's timeline ends at the latest completion: no record
      completes after the end, and the last segment closes at the
      completion of some record. */
  lemma SettledEnds(f: RState, orig: seq<Proc>)
    requires Records(f, orig) && Ended(f) && f.last.None?
    requires forall j :: 0 <= j < |f.procs| ==> f.procs[j].isCompleted
    ensures forall j :: 0 <= j < |f.procs| ==> f.procs[j].completion <= EndTime(f.timeline, 0)
    ensures f.timeline != [] ==>
      exists j :: 0 <= j < |f.procs| && f.procs[j].isCompleted && f.procs[j].completion == EndTime(f.timeline, 0)
  {
    forall j | 0 <= j < |f.procs|
      ensures f.procs[j].completion <= f.time
    {
      assert Progress(f.procs[j], f.time);
    }
    assert !AnyPending(f.procs, UntilCompleted);
  }

  /** The loop's final state ends its timeline at the latest completion. */
  lemma FinalEnds(ps: seq<Proc>, quantum: int, reset: Reset)
    requires quantum > 0 && DistinctPids(ps) && PositiveBursts(ps)
    ensures var f := Drive(Initial(ps), quantum, reset);
      && (forall j :: 0 <= j < |f.procs| ==> f.procs[j].completion <= EndTime(f.timeline, 0))
      && (f.timeline != [] ==>
            exists j :: 0 <= j < |f.procs| && f.procs[j].isCompleted && f.procs[j].completion == EndTime(f.timeline, 0))
  {
    Final(ps, quantum, reset);
    DriveEnded(Initial(ps), quantum, reset);
    SettledEnds(Drive(Initial(ps), quantum, reset), CopyAll(ps));
  }

  /** The final records, in either mode: input order and task fields
      kept; every process completed with nothing remaining, started no
      earlier than its arrival and completed no earlier than its start
      plus its burst and no later than the end of the timeline. */
  lemma RoundRobinRecords(ps: seq<Proc>, quantum: int, reset: Reset)
    requires quantum > 0 && DistinctPids(ps) && PositiveBursts(ps)
    ensures var r := RoundRobinWith(ps, quantum, reset);
      && |r.procs| == |ps|
      && (forall j :: 0 <= j < |ps| ==>
            && r.procs[j].pid == ps[j].pid && r.procs[j].arrival == ps[j].arrival
            && r.procs[j].burst == ps[j].burst && r.procs[j].priority == ps[j].priority)
      && (forall j :: 0 <= j < |ps| ==>
            && r.procs[j].isCompleted && r.procs[j].remaining == 0
            && ps[j].arrival <= r.procs[j].startTime
            && r.procs[j].startTime + ps[j].burst <= r.procs[j].completion <= EndTime(r.timeline, 0))
  {
    var f := Drive(Initial(ps), quantum, reset);
    var orig := CopyAll(ps);
    Final(ps, quantum, reset);
    FinalEnds(ps, quantum, reset);
    forall j | 0 <= j < |ps|
      ensures Progress(f.procs[j], f.time) && SameTask(f.procs[j], orig[j])
    {
    }
  }

  /** With every record finished, the timeline shows each pid no more (as
      written) or exactly (moving `last_start` only on a switch) its total
      burst. */
  lemma FinalAllocated(ps: seq<Proc>, quantum: int, reset: Reset, pid: string)
    requires quantum > 0 && DistinctPids(ps) && PositiveBursts(ps)
    ensures Allocated(Drive(Initial(ps), quantum, reset).timeline, pid) <= Demand(ps, pid)
    ensures reset == OnSwitch ==> Allocated(Drive(Initial(ps), quantum, reset).timeline, pid) == Demand(ps, pid)
  {
    Final(ps, quantum, reset);
    SettledAllocated(Drive(Initial(ps), quantum, reset), CopyAll(ps), ps, reset, pid);
  }

  /** A final state's timeline against the caller's records. */
  lemma SettledAllocated(f: RState, orig: seq<Proc>, ps: seq<Proc>, reset: Reset, pid: string)
    requires Records(f, orig) && Accounted(f, reset) && f.last.None? && orig == CopyAll(ps)
    requires forall j :: 0 <= j < |f.procs| ==> f.procs[j].isCompleted
    ensures Allocated(f.timeline, pid) <= Demand(ps, pid)
    ensures reset == OnSwitch ==> Allocated(f.timeline, pid) == Demand(ps, pid)
  {
    forall j | 0 <= j < |f.procs|
      ensures f.procs[j].remaining == 0
    {
      assert Progress(f.procs[j], f.time) && SameTask(f.procs[j], orig[j]);
    }
    DoneAll(f.procs, pid);
    DemandPointwise(f.procs, ps, pid);
    assert Allocated(f.timeline, pid) + Open(f, pid) <= Done(f.procs, pid);
  }

  /** `round_robin` as written: segments in time order from 0, none empty,
      none of a process longer than one quantum, no two neighbours with the
      same label, IDLE only when forced, never more time for a pid than
      its burst, and an end at the latest completion. */
  lemma RoundRobinTimeline(ps: seq<Proc>, quantum: int)
    requires quantum > 0 && DistinctPids(ps) && PositiveBursts(ps)
    ensures var r := RoundRobin(ps, quantum);
      && OrderedFrom(r.timeline, 0) && NonEmpty(r.timeline) && Sliced(r.timeline, quantum)
      && Coalesced(r.timeline) && IdleJustified(r.timeline, r.procs)
      && (forall pid :: Allocated(r.timeline, pid) <= Demand(ps, pid))
      && (forall j :: 0 <= j < |r.procs| ==> r.procs[j].completion <= EndTime(r.timeline, 0))
      && (r.timeline != [] ==>
            exists j :: 0 <= j < |r.procs| && r.procs[j].isCompleted && r.procs[j].completion == EndTime(r.timeline, 0))
  {
    Final(ps, quantum, EverySlice);
    FinalEnds(ps, quantum, EverySlice);
    forall pid
      ensures Allocated(RoundRobin(ps, quantum).timeline, pid) <= Demand(ps, pid)
    {
      FinalAllocated(ps, quantum, EverySlice, pid);
    }
  }

  /** With `last_start` moved only on a switch: the timeline tiles the
      schedule from 0 with no gap, no overlap and no empty segment, no two
      neighbours share a label, IDLE only when forced, every pid is shown
      for exactly its burst, and the timeline ends at the latest
      completion, so it partitions `[0, latest completion)`. */
  lemma RoundRobinMergedTimeline(ps: seq<Proc>, quantum: int)
    requires quantum > 0 && DistinctPids(ps) && PositiveBursts(ps)
    ensures var r := RoundRobinMerged(ps, quantum);
      && Contiguous(r.timeline, 0) && NonEmpty(r.timeline)
      && Coalesced(r.timeline) && IdleJustified(r.timeline, r.procs)
      && (forall pid :: Allocated(r.timeline, pid) == Demand(ps, pid))
      && (forall j :: 0 <= j < |r.procs| ==> r.procs[j].completion <= EndTime(r.timeline, 0))
      && (r.timeline != [] ==>
            exists j :: 0 <= j < |r.procs| && r.procs[j].isCompleted && r.procs[j].completion == EndTime(r.timeline, 0))
  {
    Final(ps, quantum, OnSwitch);
    FinalEnds(ps, quantum, OnSwitch);
    forall pid
      ensures Allocated(RoundRobinMerged(ps, quantum).timeline, pid) == Demand(ps, pid)
    {
      FinalAllocated(ps, quantum, OnSwitch, pid);
    }
  }

  /** The first state of the one-process example below. */
  lemma ExampleStart(ps: seq<Proc>)
    requires |ps| == 1 && ps[0].arrival == 0 && ps[0].burst == 8
    ensures Initial(ps) == RState(CopyAll(ps), [0], 0, None, 0, [], 0)
  {
    var procs := CopyAll(ps);
    assert Entering(procs, [], None, 0, 1) == [];
    assert Entering(procs, [], None, 0, 0) == [0];
  }

  /** With a single record, nothing joins the queue after its slice: the
      record, which arrived before the slice, is the only one. */
  lemma JoiningAlone(s: RState, quantum: int)
    requires |s.procs| == 1 && s.queue == [0] && s.procs[0].arrival <= s.time
    ensures Joining(s, quantum) == []
  {
    var p1 := Advance(s.procs[0], s.time, quantum);
    var procs := s.procs[0 := p1];
    var upTo := s.time + Min(quantum, s.procs[0].remaining);
    assert !Enters(procs, [], Some(s.time), upTo, 0);
    assert Entering(procs, [], Some(s.time), upTo, 1) == [];
  }

  /** Its first slice, in either mode: P1 runs `[0, 4)` and rejoins. */
  lemma ExampleFirstSlice(s0: RState, reset: Reset)
    requires |s0.procs| == 1 && s0.procs[0].arrival == 0 && Unstarted(s0.procs[0]) && s0.procs[0].burst == 8
    requires s0.queue == [0] && s0.time == 0 && s0.last.None? && s0.lastStart == 0 && s0.timeline == [] && s0.done == 0
    ensures Slice(s0, 4, reset) == RState([Advance(s0.procs[0], 0, 4)], [0], 4, Some(s0.procs[0].pid), 0, [], 0)
  {
    JoiningAlone(s0, 4);
    var p1 := Advance(s0.procs[0], 0, 4);
    assert p1.remaining == 4;
    assert s0.procs[0 := p1] == [p1];
  }

  /** Its second slice: P1 runs `[4, 8)` and completes; the segment
      emitted starts at 4 as written and at 0 when `last_start` stays. */
  lemma ExampleSecondSlice(s1: RState, reset: Reset)
    requires |s1.procs| == 1 && s1.procs[0].remaining == 4 && s1.procs[0].arrival == 0
    requires s1.queue == [0] && s1.time == 4 && s1.last == Some(s1.procs[0].pid) && s1.lastStart == 0
    requires s1.timeline == [] && s1.done == 0
    ensures var r := Slice(s1, 4, reset);
      && r.done == 1 && r.last.None?
      && r.timeline == [Segment(if reset == EverySlice then 4 else 0, Ran(s1.procs[0].pid), 8)]
  {
    JoiningAlone(s1, 4);
    assert Advance(s1.procs[0], 4, 4).remaining == 0;
  }

  /** The whole run of the example in one mode. */
  lemma ExampleRun(ps: seq<Proc>, reset: Reset)
    requires |ps| == 1 && ps[0].arrival == 0 && ps[0].burst == 8
    ensures Drive(Initial(ps), 4, reset).timeline == [Segment(if reset == EverySlice then 4 else 0, Ran(ps[0].pid), 8)]
  {
    ExampleStart(ps);
    var s0 := Initial(ps);
    ExampleFirstSlice(s0, reset);
    DriveSlice(s0, 4, reset);
    var s1 := Slice(s0, 4, reset);
    ExampleSecondSlice(s1, reset);
    DriveSlice(s1, 4, reset);
    DriveDone(Slice(s1, 4, reset), 4, reset);
  }

  /** Once the count reaches the number of records the loop stops. */
  lemma DriveDone(s: RState, quantum: int, reset: Reset)
    requires quantum > 0 && InRange(s) && s.done >= |s.procs|
    ensures Drive(s, quantum, reset) == s
  {
  }

  /** Allocation of a timeline made of one segment. */
  lemma AllocatedSingle(tl: seq<Segment>, pid: string)
    requires |tl| == 1 && tl[0].owner == Ran(pid)
    ensures Allocated(tl, pid) == tl[0].end - tl[0].start
  {
    AllocatedSnoc([], tl[0], pid);
    assert [] + [tl[0]] == tl;
  }

  /** As written, a lone process with burst 8 and quantum 4 is drawn as a
      single segment [4, 8]: the first slice [0, 4] is lost because the
      segment start is reset at every slice. */
  lemma RoundRobinDropsSlices(ps: seq<Proc>)
    requires |ps| == 1 && ps[0].arrival == 0 && ps[0].burst == 8
    ensures RoundRobin(ps, 4).timeline == [Segment(4, Ran(ps[0].pid), 8)]
    ensures Allocated(RoundRobin(ps, 4).timeline, ps[0].pid) == 4
  {
    ExampleRun(ps, EverySlice);
    AllocatedSingle(RoundRobin(ps, 4).timeline, ps[0].pid);
  }

  /** With the segment start kept while the same process keeps the CPU, the
      same input is drawn as [0, 8]. */
  lemma RoundRobinMergedKeepsSlices(ps: seq<Proc>)
    requires |ps| == 1 && ps[0].arrival == 0 && ps[0].burst == 8
    ensures RoundRobinMerged(ps, 4).timeline == [Segment(0, Ran(ps[0].pid), 8)]
  {
    ExampleRun(ps, OnSwitch);
  }
}
