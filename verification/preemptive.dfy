/** `Scheduler.sjf_preemptive` (SRTF) and `Scheduler.priority_preemptive`:
    one time unit at a time, the ready record of least key runs, and runs of
    the same pid are merged into one timeline segment. The two differ only in
    the key (`remaining`, `priority_num`), so one loop with a `Key` parameter
    models both. */
module Preemptive {

  import opened Wrappers
  import opened Processes
  import opened Timeline
  import opened Select

  /** The loop's variables: the copies, `current_time`, `last_pid`,
      `last_start` and the timeline emitted so far. While `last` is set, the
      segment of that pid from `lastStart` to `time` is still open. */
  datatype PState = PState(procs: seq<Proc>, time: int, last: Option<string>, lastStart: int, timeline: seq<Segment>)

  /** One tick of the ready branch with `procs[i]` picked: the open segment
      is closed if it belongs to another pid, the record's start is set if
      it had none, one unit of it runs, and on its last unit it is completed
      and its segment closed. */
  function Tick(s: PState, i: nat): (r: PState)
    requires i < |s.procs|
  {
    var p := s.procs[i];
    var switched := s.last.Some? && s.last.value != p.pid;
    var tl := if switched then s.timeline + [Segment(s.lastStart, Ran(s.last.value), s.time)] else s.timeline;
    var ls := if switched then s.time else s.lastStart;
    var q := p.(startTime := if p.startTime == NotStarted then s.time else p.startTime,
                remaining := p.remaining - 1);
    var t := s.time + 1;
    if q.remaining == 0 then
      PState(s.procs[i := q.(completion := t, isCompleted := true)], t, None, t, tl + [Segment(ls, Ran(p.pid), t)])
    else
      PState(s.procs[i := q], t, Some(p.pid), ls, tl)
  }

  /** What one tick does to the records: only the picked one changes; its
      remaining time drops by exactly one and stays non-negative, its start
      is set only if it had none, and it is completed, at the new time,
      exactly when its remaining time reaches 0. Time advances by one. */
  lemma TickEffect(s: PState, i: nat)
    requires i < |s.procs| && s.procs[i].remaining > 0
    ensures var r := Tick(s, i); var p := s.procs[i]; var q := r.procs[i];
      && r.time == s.time + 1
      && |r.procs| == |s.procs|
      && (forall j :: 0 <= j < |s.procs| && j != i ==> r.procs[j] == s.procs[j])
      && q == p.(startTime := q.startTime, remaining := q.remaining, completion := q.completion,
                 isCompleted := q.isCompleted)
      && q.remaining == p.remaining - 1 >= 0
      && q.startTime == (if p.startTime == NotStarted then s.time else p.startTime)
      && (q.remaining == 0 ==> q.completion == r.time && q.isCompleted)
      && (q.remaining != 0 ==> q.completion == p.completion && q.isCompleted == p.isCompleted)
  {
  }

  /** The idle branch: close any open segment (this cannot happen: an open
      segment's pid is still ready), then idle up to the earliest arrival
      among the records with time left. */
  function IdleStep(s: PState): (r: PState)
    requires AnyPending(s.procs, WhileRemaining)
  {
    var tl := if s.last.Some? then s.timeline + [Segment(s.lastStart, Ran(s.last.value), s.time)] else s.timeline;
    var a := NextArrival(s.procs, WhileRemaining);
    PState(s.procs, a, None, a, tl + [Segment(s.time, Idle, a)])
  }

  /** `while any(p.remaining > 0 for p in procs)`: tick the ready record of
      least key (the first such in input order) or idle up to the next
      arrival, until no record has time left. */
  function Drive(s: PState, k: Key): (r: PState)
    ensures !AnyPending(r.procs, WhileRemaining)
    decreases Work(s.procs), if AnyReady(s.procs, WhileRemaining, s.time) then 0 else 1
  {
    if !AnyPending(s.procs, WhileRemaining) then s
    else
      match Pick(s.procs, WhileRemaining, s.time, k)
      case Some(i) =>
        WorkUpdate(s.procs, i, Tick(s, i).procs[i]);
        Drive(Tick(s, i), k)
      case None =>
        IdleJump(s.procs, WhileRemaining, s.time);
        Drive(IdleStep(s), k)
  }

  /** While some record has time left and some record is ready, the loop
      ticks the ready record of least key, the first such in input order,
      even when another record was running. */
  lemma DriveTicks(s: PState, k: Key, i: nat)
    requires AnyPending(s.procs, WhileRemaining)
    requires IsFirstMin(s.procs, WhileRemaining, s.time, k, i)
    ensures Drive(s, k) == Drive(Tick(s, i), k)
  {
    var j := Pick(s.procs, WhileRemaining, s.time, k).value;
    FirstMinUnique(s.procs, WhileRemaining, s.time, k, i, j);
  }

  /** While some record has time left but none is ready, the loop idles up
      to the next arrival. */
  lemma DriveIdles(s: PState, k: Key)
    requires AnyPending(s.procs, WhileRemaining) && !AnyReady(s.procs, WhileRemaining, s.time)
    ensures Drive(s, k) == Drive(IdleStep(s), k)
  {
  }

  /** The state before the loop: fresh copies, time 0, nothing open. */
  function Initial(ps: seq<Proc>): PState
  {
    PState(CopyAll(ps), 0, None, 0, [])
  }

  /** The policy with key `k`: the timeline and the copies, in input order. */
  function Preemptive(ps: seq<Proc>, k: Key): (r: Schedule)
    ensures |r.procs| == |ps|
  {
    var f := Drive(Initial(ps), k);
    DriveLength(Initial(ps), k);
    Schedule(f.timeline, f.procs)
  }

  /** `sjf_preemptive`: every tick runs the ready record with the least
      remaining time. */
  function SjfPreemptive(ps: seq<Proc>): (r: Schedule)
    ensures |r.procs| == |ps|
  {
    Preemptive(ps, ByRemaining)
  }

  /** `priority_preemptive`: every tick runs the ready record of the most
      urgent priority class. */
  function PriorityPreemptive(ps: seq<Proc>): (r: Schedule)
    ensures |r.procs| == |ps|
  {
    Preemptive(ps, ByPriority)
  }

  lemma {:induction false} DriveLength(s: PState, k: Key)
    ensures |Drive(s, k).procs| == |s.procs|
    decreases Work(s.procs), if AnyReady(s.procs, WhileRemaining, s.time) then 0 else 1
  {
    if AnyPending(s.procs, WhileRemaining) {
      match Pick(s.procs, WhileRemaining, s.time, k)
      case Some(i) =>
        WorkUpdate(s.procs, i, Tick(s, i).procs[i]);
        DriveLength(Tick(s, i), k);
      case None =>
        IdleJump(s.procs, WhileRemaining, s.time);
        DriveLength(IdleStep(s), k);
    }
  }

  /** The records are the copies `orig`, in the same order, each with its
      task unchanged and its progress consistent with the clock. */
  predicate Records(s: PState, orig: seq<Proc>)
  {
    && |s.procs| == |orig|
    && forall j :: 0 <= j < |orig| ==> SameTask(s.procs[j], orig[j]) && Progress(s.procs[j], s.time)
  }

  /** The clock and the open segment: an open segment started before now,
      and its record can still run, so the idle branch never finds one. */
  predicate Clock(s: PState)
  {
    && s.time >= 0 && s.lastStart <= s.time
    && (s.last.None? ==> s.lastStart == s.time)
    && (s.last.Some? ==> s.lastStart < s.time && AnyReady(s.procs, WhileRemaining, s.time))
  }

  lemma TickRecords(s: PState, orig: seq<Proc>, i: nat)
    requires Records(s, orig) && Clock(s)
    requires i < |s.procs| && Ready(WhileRemaining, s.procs[i], s.time)
    ensures Records(Tick(s, i), orig) && Clock(Tick(s, i))
  {
    var r := Tick(s, i);
    TickEffect(s, i);
    forall j | 0 <= j < |orig|
      ensures SameTask(r.procs[j], orig[j]) && Progress(r.procs[j], r.time)
    {
      if j != i {
        assert r.procs[j] == s.procs[j];
      }
    }
    if r.last.Some? {
      assert Ready(WhileRemaining, r.procs[i], r.time);
    }
  }

  lemma IdleRecords(s: PState, orig: seq<Proc>)
    requires Records(s, orig) && Clock(s)
    requires AnyPending(s.procs, WhileRemaining) && !AnyReady(s.procs, WhileRemaining, s.time)
    ensures Records(IdleStep(s), orig) && Clock(IdleStep(s))
  {
    IdleJump(s.procs, WhileRemaining, s.time);
    var r := IdleStep(s);
    forall j | 0 <= j < |orig|
      ensures Progress(r.procs[j], r.time)
    {
      assert Progress(s.procs[j], s.time);
    }
  }

  /** The closed segments tile `[0, lastStart)` with no empty segment. */
  predicate Tiled(s: PState)
  {
    Contiguous(s.timeline, 0) && EndTime(s.timeline, 0) == s.lastStart && NonEmpty(s.timeline)
  }

  lemma TickTiled(s: PState, i: nat)
    requires Tiled(s) && Clock(s)
    requires i < |s.procs| && Ready(WhileRemaining, s.procs[i], s.time)
    ensures Tiled(Tick(s, i))
  {
    var p := s.procs[i];
    var switched := s.last.Some? && s.last.value != p.pid;
    var tl := if switched then s.timeline + [Segment(s.lastStart, Ran(s.last.value), s.time)] else s.timeline;
    var ls := if switched then s.time else s.lastStart;
    if switched {
      ContiguousSnoc(s.timeline, Segment(s.lastStart, Ran(s.last.value), s.time), 0);
    }
    assert Contiguous(tl, 0) && EndTime(tl, 0) == ls && NonEmpty(tl) && ls <= s.time;
    if p.remaining == 1 {
      ContiguousSnoc(tl, Segment(ls, Ran(p.pid), s.time + 1), 0);
    }
  }

  lemma IdleTiled(s: PState)
    requires Tiled(s) && Clock(s)
    requires AnyPending(s.procs, WhileRemaining) && !AnyReady(s.procs, WhileRemaining, s.time)
    ensures Tiled(IdleStep(s))
  {
    IdleJump(s.procs, WhileRemaining, s.time);
    ContiguousSnoc(s.timeline, Segment(s.time, Idle, NextArrival(s.procs, WhileRemaining)), 0);
  }

  /** The units of `pid` in the open segment. */
  function Open(s: PState, pid: string): int
  {
    if s.last == Some(pid) then s.time - s.lastStart else 0
  }

  /** Every unit a record has run is in the timeline or the open segment. */
  ghost predicate Accounted(s: PState)
  {
    forall pid :: Allocated(s.timeline, pid) + Open(s, pid) == Done(s.procs, pid)
  }

  lemma TickAccounted(s: PState, i: nat)
    requires Accounted(s) && Clock(s)
    requires i < |s.procs| && Ready(WhileRemaining, s.procs[i], s.time)
    ensures Accounted(Tick(s, i))
  {
    var r := Tick(s, i);
    var p := s.procs[i];
    var switched := s.last.Some? && s.last.value != p.pid;
    var closed := Segment(s.lastStart, if s.last.Some? then Ran(s.last.value) else Idle, s.time);
    var tl := if switched then s.timeline + [closed] else s.timeline;
    var ls := if switched then s.time else s.lastStart;
    TickEffect(s, i);
    forall pid
      ensures Allocated(r.timeline, pid) + Open(r, pid) == Done(r.procs, pid)
    {
      DoneUpdate(s.procs, i, r.procs[i], pid);
      if switched {
        AllocatedSnoc(s.timeline, closed, pid);
      }
      if p.remaining == 1 {
        AllocatedSnoc(tl, Segment(ls, Ran(p.pid), s.time + 1), pid);
      }
    }
  }

  lemma IdleAccounted(s: PState)
    requires Accounted(s) && Clock(s)
    requires AnyPending(s.procs, WhileRemaining) && !AnyReady(s.procs, WhileRemaining, s.time)
    ensures Accounted(IdleStep(s))
  {
    var r := IdleStep(s);
    forall pid
      ensures Allocated(r.timeline, pid) + Open(r, pid) == Done(r.procs, pid)
    {
      AllocatedSnoc(s.timeline, Segment(s.time, Idle, r.time), pid);
    }
  }

  /** What keeps the timeline coalesced: the open segment's pid differs
      from the last closed segment's; a closed segment left as the last one
      when nothing is open belongs to a pid with no time left; and the
      timeline ends in IDLE only while some record is ready. */
  predicate Merged(s: PState)
  {
    var tl := s.timeline;
    && Coalesced(tl)
    && (s.last.Some? && tl != [] ==> tl[|tl| - 1].owner != Ran(s.last.value))
    && (s.last.None? && tl != [] && tl[|tl| - 1].owner.Ran? ==>
          forall j :: 0 <= j < |s.procs| && s.procs[j].pid == tl[|tl| - 1].owner.pid ==> s.procs[j].remaining <= 0)
    && (tl != [] && tl[|tl| - 1].owner == Idle ==> AnyReady(s.procs, WhileRemaining, s.time))
  }

  /** The record of a pid that has just used up its time is the only one
      with that pid, so its closed segment leaves no one of that pid to run. */
  lemma FinishedAlone(s: PState, i: nat)
    requires DistinctPids(s.procs)
    requires i < |s.procs| && s.procs[i].remaining == 1
    ensures var r := Tick(s, i);
      forall j :: 0 <= j < |r.procs| && r.procs[j].pid == s.procs[i].pid ==> r.procs[j].remaining <= 0
  {
    TickEffect(s, i);
  }

  lemma TickMerged(s: PState, i: nat)
    requires Merged(s) && Clock(s) && DistinctPids(s.procs)
    requires i < |s.procs| && Ready(WhileRemaining, s.procs[i], s.time)
    ensures Merged(Tick(s, i))
  {
    var r := Tick(s, i);
    var p := s.procs[i];
    var switched := s.last.Some? && s.last.value != p.pid;
    var closed := Segment(s.lastStart, if s.last.Some? then Ran(s.last.value) else Idle, s.time);
    var tl := if switched then s.timeline + [closed] else s.timeline;
    var ls := if switched then s.time else s.lastStart;
    var own := Segment(ls, Ran(p.pid), s.time + 1);
    TickEffect(s, i);
    if switched {
      CoalescedSnoc(s.timeline, closed);
    }
    if s.last.None? && s.timeline != [] && s.timeline[|s.timeline| - 1].owner.Ran? {
      assert s.timeline[|s.timeline| - 1].owner != Ran(p.pid);
    }
    assert tl != [] ==> tl[|tl| - 1].owner != Ran(p.pid);
    if p.remaining == 1 {
      CoalescedSnoc(tl, own);
      FinishedAlone(s, i);
      assert r.timeline == tl + [own];
    } else {
      assert Ready(WhileRemaining, r.procs[i], r.time);
    }
  }

  lemma IdleMerged(s: PState)
    requires Merged(s) && Clock(s)
    requires AnyPending(s.procs, WhileRemaining) && !AnyReady(s.procs, WhileRemaining, s.time)
    ensures Merged(IdleStep(s))
  {
    IdleJump(s.procs, WhileRemaining, s.time);
    CoalescedSnoc(s.timeline, Segment(s.time, Idle, NextArrival(s.procs, WhileRemaining)));
  }

  lemma TickIdleJustified(s: PState, orig: seq<Proc>, i: nat)
    requires Records(s, orig) && IdleJustified(s.timeline, s.procs)
    requires i < |s.procs| && Ready(WhileRemaining, s.procs[i], s.time)
    ensures IdleJustified(Tick(s, i).timeline, Tick(s, i).procs)
  {
    var r := Tick(s, i);
    TickEffect(s, i);
    assert s.timeline <= r.timeline;
    assert forall k :: |s.timeline| <= k < |r.timeline| ==> r.timeline[k].owner != Idle;
    assert !s.procs[i].isCompleted by {
      assert Progress(s.procs[i], s.time);
    }
    forall k, j | 0 <= k < |r.timeline| && 0 <= j < |r.procs| && r.timeline[k].owner == Idle
      ensures (r.procs[j].isCompleted && r.procs[j].completion <= r.timeline[k].start) || r.procs[j].arrival >= r.timeline[k].end
    {
      assert r.timeline[k] == s.timeline[k];
    }
  }

  lemma IdleIdleJustified(s: PState, orig: seq<Proc>)
    requires Records(s, orig) && Clock(s) && PositiveBursts(orig) && IdleJustified(s.timeline, s.procs)
    requires AnyPending(s.procs, WhileRemaining) && !AnyReady(s.procs, WhileRemaining, s.time)
    ensures IdleJustified(IdleStep(s).timeline, IdleStep(s).procs)
  {
    var r := IdleStep(s);
    var n := |s.timeline|;
    assert r.timeline == s.timeline + [Segment(s.time, Idle, r.time)];
    forall k, j | 0 <= k < |r.timeline| && 0 <= j < |r.procs| && r.timeline[k].owner == Idle
      ensures (r.procs[j].isCompleted && r.procs[j].completion <= r.timeline[k].start) || r.procs[j].arrival >= r.timeline[k].end
    {
      if k < n {
        assert r.timeline[k] == s.timeline[k];
      } else if s.procs[j].remaining <= 0 {
        assert Progress(s.procs[j], s.time) && SameTask(s.procs[j], orig[j]);
      }
    }
  }

  /** Everything the loop keeps, for the copies `orig` it started from. */
  ghost predicate Inv(s: PState, orig: seq<Proc>)
  {
    && Records(s, orig) && Clock(s) && Tiled(s) && Accounted(s)
    && (DistinctPids(orig) ==> Merged(s))
    && (PositiveBursts(orig) ==> IdleJustified(s.timeline, s.procs))
  }

  lemma DistinctKept(s: PState, orig: seq<Proc>)
    requires Records(s, orig) && DistinctPids(orig)
    ensures DistinctPids(s.procs)
  {
  }

  lemma TickInv(s: PState, orig: seq<Proc>, i: nat)
    requires Inv(s, orig)
    requires i < |s.procs| && Ready(WhileRemaining, s.procs[i], s.time)
    ensures Inv(Tick(s, i), orig)
  {
    TickRecords(s, orig, i);
    TickTiled(s, i);
    TickAccounted(s, i);
    if DistinctPids(orig) {
      DistinctKept(s, orig);
      TickMerged(s, i);
    }
    if PositiveBursts(orig) {
      TickIdleJustified(s, orig, i);
    }
  }

  lemma IdleInv(s: PState, orig: seq<Proc>)
    requires Inv(s, orig)
    requires AnyPending(s.procs, WhileRemaining) && !AnyReady(s.procs, WhileRemaining, s.time)
    ensures Inv(IdleStep(s), orig)
  {
    IdleRecords(s, orig);
    IdleTiled(s);
    IdleAccounted(s);
    if DistinctPids(orig) {
      IdleMerged(s);
    }
    if PositiveBursts(orig) {
      IdleIdleJustified(s, orig);
    }
  }

  lemma {:induction false} DriveKeeps(s: PState, k: Key, orig: seq<Proc>)
    requires Inv(s, orig)
    ensures Inv(Drive(s, k), orig)
    decreases Work(s.procs), if AnyReady(s.procs, WhileRemaining, s.time) then 0 else 1
  {
    if AnyPending(s.procs, WhileRemaining) {
      match Pick(s.procs, WhileRemaining, s.time, k)
      case Some(i) =>
        WorkUpdate(s.procs, i, Tick(s, i).procs[i]);
        TickInv(s, orig, i);
        DriveKeeps(Tick(s, i), k, orig);
      case None =>
        IdleJump(s.procs, WhileRemaining, s.time);
        IdleInv(s, orig);
        DriveKeeps(IdleStep(s), k, orig);
    }
  }

  lemma InitialInv(ps: seq<Proc>)
    ensures Inv(Initial(ps), CopyAll(ps))
  {
    var s := Initial(ps);
    forall pid
      ensures Allocated(s.timeline, pid) + Open(s, pid) == Done(s.procs, pid)
    {
      DoneUnstarted(s.procs, pid);
    }
  }

  /** When nothing is open and something has been emitted, the clock
      stands where the last segment closed: at the completion of the record
      that ran in it, or at the end of an IDLE gap with some record still
      to run. */
  predicate Ended(s: PState)
  {
    s.last.None? && s.timeline != [] ==>
      || AnyPending(s.procs, WhileRemaining)
      || exists j :: 0 <= j < |s.procs| && s.procs[j].isCompleted && s.procs[j].completion == s.time
  }

  lemma TickEnded(s: PState, i: nat)
    requires i < |s.procs|
    ensures Ended(Tick(s, i))
  {
    var r := Tick(s, i);
    if r.last.None? {
      assert r.procs[i].isCompleted && r.procs[i].completion == r.time;
    }
  }

  lemma IdleEnded(s: PState)
    requires AnyPending(s.procs, WhileRemaining)
    ensures Ended(IdleStep(s))
  {
  }

  lemma {:induction false} DriveEnded(s: PState, k: Key)
    requires Ended(s)
    ensures Ended(Drive(s, k))
    decreases Work(s.procs), if AnyReady(s.procs, WhileRemaining, s.time) then 0 else 1
  {
    if AnyPending(s.procs, WhileRemaining) {
      match Pick(s.procs, WhileRemaining, s.time, k)
      case Some(i) =>
        WorkUpdate(s.procs, i, Tick(s, i).procs[i]);
        TickEnded(s, i);
        DriveEnded(Tick(s, i), k);
      case None =>
        IdleJump(s.procs, WhileRemaining, s.time);
        IdleEnded(s);
        DriveEnded(IdleStep(s), k);
    }
  }

  /** A stopped loop's timeline ends at the latest completion: no record
      completes after the end, and the last segment closes at the
      completion of some record. */
  lemma SettledEnds(f: PState, orig: seq<Proc>)
    requires Records(f, orig) && Clock(f) && Tiled(f) && Ended(f)
    requires !AnyPending(f.procs, WhileRemaining) && f.last.None?
    ensures forall j :: 0 <= j < |f.procs| ==> f.procs[j].completion <= EndTime(f.timeline, 0)
    ensures f.timeline != [] ==>
      exists j :: 0 <= j < |f.procs| && f.procs[j].isCompleted && f.procs[j].completion == EndTime(f.timeline, 0)
  {
    assert EndTime(f.timeline, 0) == f.time;
    forall j | 0 <= j < |f.procs|
      ensures f.procs[j].completion <= f.time
    {
      assert Progress(f.procs[j], f.time) && !Pending(WhileRemaining, f.procs[j]);
    }
  }

  /** The loop's final state ends its timeline at the latest completion. */
  lemma FinalEnds(ps: seq<Proc>, k: Key)
    ensures var f := Drive(Initial(ps), k);
      && (forall j :: 0 <= j < |f.procs| ==> f.procs[j].completion <= EndTime(f.timeline, 0))
      && (f.timeline != [] ==>
            exists j :: 0 <= j < |f.procs| && f.procs[j].isCompleted && f.procs[j].completion == EndTime(f.timeline, 0))
  {
    Final(ps, k);
    DriveEnded(Initial(ps), k);
    SettledEnds(Drive(Initial(ps), k), CopyAll(ps));
  }

  /** The loop's final state: the invariant holds, no record has time left
      and so no segment is open. */
  lemma Final(ps: seq<Proc>, k: Key)
    ensures var f := Drive(Initial(ps), k);
      Inv(f, CopyAll(ps)) && !AnyPending(f.procs, WhileRemaining) && f.last.None?
  {
    InitialInv(ps);
    DriveKeeps(Initial(ps), k, CopyAll(ps));
  }

  /** The final records of both preemptive policies: input order and task
      fields kept; every process with a positive burst completed, having
      started no earlier than its arrival and completed no earlier than its
      start plus its burst and no later than the end of the timeline; a
      process with no positive burst never ran. */
  lemma PreemptiveRecords(ps: seq<Proc>, k: Key)
    ensures var r := Preemptive(ps, k);
      && |r.procs| == |ps|
      && (forall j :: 0 <= j < |ps| ==>
            && r.procs[j].pid == ps[j].pid && r.procs[j].arrival == ps[j].arrival
            && r.procs[j].burst == ps[j].burst && r.procs[j].priority == ps[j].priority)
      && (forall j :: 0 <= j < |ps| && ps[j].burst > 0 ==>
            && r.procs[j].isCompleted && r.procs[j].remaining == 0
            && ps[j].arrival <= r.procs[j].startTime
            && r.procs[j].startTime + ps[j].burst <= r.procs[j].completion <= EndTime(r.timeline, 0))
      && (forall j :: 0 <= j < |ps| && ps[j].burst <= 0 ==> Unstarted(r.procs[j]))
  {
    var f := Drive(Initial(ps), k);
    Final(ps, k);
    var orig := CopyAll(ps);
    forall j | 0 <= j < |ps|
      ensures Progress(f.procs[j], f.time) && SameTask(f.procs[j], orig[j]) && f.procs[j].remaining <= 0
    {
      assert !Ready(WhileRemaining, f.procs[j], f.time) || !Pending(WhileRemaining, f.procs[j]);
    }
  }

  /** With positive bursts every final record has used up its time, so
      the units run per pid are the pid's total burst. */
  lemma FinalAllocated(ps: seq<Proc>, k: Key, pid: string)
    requires PositiveBursts(ps)
    ensures Allocated(Drive(Initial(ps), k).timeline, pid) == Demand(ps, pid)
  {
    Final(ps, k);
    SettledAllocated(Drive(Initial(ps), k), CopyAll(ps), ps, pid);
  }

  /** A final state's timeline against the caller's records. */
  lemma SettledAllocated(f: PState, orig: seq<Proc>, ps: seq<Proc>, pid: string)
    requires Records(f, orig) && Accounted(f) && orig == CopyAll(ps) && PositiveBursts(ps)
    requires !AnyPending(f.procs, WhileRemaining) && f.last.None?
    ensures Allocated(f.timeline, pid) == Demand(ps, pid)
  {
    assert Allocated(f.timeline, pid) == Done(f.procs, pid);
    forall j | 0 <= j < |f.procs|
      ensures f.procs[j].remaining == 0
    {
      assert Progress(f.procs[j], f.time) && SameTask(f.procs[j], orig[j]);
      assert !Pending(WhileRemaining, f.procs[j]);
    }
    DoneAll(f.procs, pid);
    DemandPointwise(f.procs, ps, pid);
  }

  /** The timeline of both preemptive policies starts at 0 with no gap, no
      overlap and no empty segment; with distinct pids it never shows two
      neighbouring segments of the same label; with positive bursts every
      IDLE segment is forced and each pid holds exactly its bursts; and it
      ends at the latest completion. */
  lemma PreemptiveTimeline(ps: seq<Proc>, k: Key)
    ensures var r := Preemptive(ps, k);
      && Contiguous(r.timeline, 0) && NonEmpty(r.timeline)
      && (DistinctPids(ps) ==> Coalesced(r.timeline))
      && (PositiveBursts(ps) ==> IdleJustified(r.timeline, r.procs))
      && (PositiveBursts(ps) ==> forall pid :: Allocated(r.timeline, pid) == Demand(ps, pid))
      && (forall j :: 0 <= j < |r.procs| ==> r.procs[j].completion <= EndTime(r.timeline, 0))
      && (r.timeline != [] ==>
            exists j :: 0 <= j < |r.procs| && r.procs[j].isCompleted && r.procs[j].completion == EndTime(r.timeline, 0))
  {
    var orig := CopyAll(ps);
    Final(ps, k);
    FinalEnds(ps, k);
    if PositiveBursts(ps) {
      assert PositiveBursts(orig);
      forall pid
        ensures Allocated(Drive(Initial(ps), k).timeline, pid) == Demand(ps, pid)
      {
        FinalAllocated(ps, k, pid);
      }
    }
    if DistinctPids(ps) {
      assert DistinctPids(orig);
    }
  }
}
