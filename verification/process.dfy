/** The mutable `Process` record of the scheduler, as an immutable value:
    every mutation in the source becomes a record update that returns a new
    value. */
module Processes {

  import opened Text

  /** One task. `pid`, `arrival`, `burst` and `priority` are the task as read;
      the other fields are the run state a policy fills in. */
  datatype Proc = Proc(
    pid: string,
    arrival: int,
    burst: int,
    priority: string,
    priorityNum: int,
    remaining: int,
    completion: int,
    waiting: int,
    turnaround: int,
    startTime: int,
    isCompleted: bool)

  /** The `start_time` of a process that has never been dispatched. */
  const NotStarted: int := -1

  /** Priority class to number, compared case-insensitively: 'high' is 1,
      'normal' is 2 and every other string (not only 'low') is 3. */
  function PriorityNum(priority: string): (n: int)
    ensures 1 <= n <= 3
    ensures n == 1 <==> Lower(priority) == "high"
    ensures n == 2 <==> Lower(priority) == "normal"
  {
    var l := Lower(priority);
    if l == "high" then 1 else if l == "normal" then 2 else 3
  }

  /** The class is compared case-insensitively: a string and its lower-case
      form get the same number. */
  lemma PriorityNumIgnoresCase(priority: string)
    ensures PriorityNum(Lower(priority)) == PriorityNum(priority)
  {
    LowerIdempotent(priority);
  }

  /** The task fields of two records agree. */
  predicate SameTask(p: Proc, q: Proc)
  {
    && p.pid == q.pid && p.arrival == q.arrival && p.burst == q.burst
    && p.priority == q.priority && p.priorityNum == q.priorityNum
  }

  /** The run state of a record nobody has scheduled yet. */
  predicate Unstarted(p: Proc)
  {
    && p.remaining == p.burst && p.startTime == NotStarted
    && p.completion == 0 && p.waiting == 0 && p.turnaround == 0
    && !p.isCompleted
  }

  /** `Process(pid, arrival, burst, priority)`. */
  function NewProc(pid: string, arrival: int, burst: int, priority: string): (p: Proc)
    ensures p.pid == pid && p.arrival == arrival && p.burst == burst && p.priority == priority
    ensures p.priorityNum == PriorityNum(priority) && 1 <= p.priorityNum <= 3
    ensures Unstarted(p)
  {
    Proc(pid, arrival, burst, priority, PriorityNum(priority),
         burst, 0, 0, 0, NotStarted, false)
  }

  /** The fresh copy each policy except FCFS makes of a caller's record,
      `Process(p.pid, p.arrival, p.burst, p.priority)`: the task is kept, the
      priority number recomputed from the priority class and the run state
      reset, whatever the original had been through. */
  function CopyOf(p: Proc): (q: Proc)
    ensures q.pid == p.pid && q.arrival == p.arrival && q.burst == p.burst && q.priority == p.priority
    ensures q.priorityNum == PriorityNum(p.priority)
    ensures p.priorityNum == PriorityNum(p.priority) ==> SameTask(q, p)
    ensures Unstarted(q)
  {
    NewProc(p.pid, p.arrival, p.burst, p.priority)
  }

  /** Every record of the sequence was built by `NewProc` (its priority
      number is the one its class maps to). */
  predicate WellFormed(ps: seq<Proc>)
  {
    forall i :: 0 <= i < |ps| ==> ps[i].priorityNum == PriorityNum(ps[i].priority)
  }

  /** `[Process(p.pid, p.arrival, p.burst, p.priority) for p in processes]`. */
  function CopyAll(ps: seq<Proc>): (qs: seq<Proc>)
    ensures |qs| == |ps|
    ensures forall i :: 0 <= i < |ps| ==> qs[i] == CopyOf(ps[i]) && Unstarted(qs[i])
    ensures WellFormed(qs)
    ensures WellFormed(ps) ==> forall i :: 0 <= i < |ps| ==> SameTask(qs[i], ps[i])
  {
    if ps == [] then [] else [CopyOf(ps[0])] + CopyAll(ps[1..])
  }

  /** No two records share a pid (the scheduler tells processes apart and
      coalesces ticks by pid alone). */
  predicate DistinctPids(ps: seq<Proc>)
  {
    forall i, j :: 0 <= i < |ps| && 0 <= j < |ps| && i != j ==> ps[i].pid != ps[j].pid
  }

  /** Every burst is positive, as the scheduler's callers are expected to
      ensure. */
  predicate PositiveBursts(ps: seq<Proc>)
  {
    forall i :: 0 <= i < |ps| ==> ps[i].burst > 0
  }

  function Max(a: int, b: int): int
  {
    if a < b then b else a
  }

  function Min(a: int, b: int): int
  {
    if a < b then a else b
  }

  /** `calculate_times`: once the record has a positive completion time,
      turnaround is completion minus arrival and waiting is start minus
      arrival clamped at 0; otherwise the record is returned unchanged. No
      field other than these two is touched. */
  function CalculateTimes(p: Proc): (q: Proc)
    ensures q == p.(waiting := q.waiting, turnaround := q.turnaround)
    ensures p.completion > 0 ==> q.turnaround == p.completion - p.arrival
    ensures p.completion > 0 ==> q.waiting == Max(0, p.startTime - p.arrival) && q.waiting >= 0
    ensures p.completion <= 0 ==> q == p
  {
    if p.completion > 0 then
      var w := p.startTime - p.arrival;
      p.(turnaround := p.completion - p.arrival, waiting := if w < 0 then 0 else w)
    else
      p
  }

  /** Calling `calculate_times` twice leaves the same fields as calling it
      once. */
  lemma CalculateTimesIdempotent(p: Proc)
    ensures CalculateTimes(CalculateTimes(p)) == CalculateTimes(p)
  {
  }

  /** For a record that ran in one piece from its start (start + burst =
      completion, start not before arrival), the waiting time computed from the
      start agrees with the textbook definition, turnaround minus burst. */
  lemma WaitingIsTurnaroundMinusBurst(p: Proc)
    requires p.completion > 0 && p.startTime >= p.arrival
    requires p.completion == p.startTime + p.burst
    ensures CalculateTimes(p).waiting == CalculateTimes(p).turnaround - p.burst
  {
  }

  function Pos(n: int): nat
  {
    if n > 0 then n else 0
  }

  /** The time units still to run: the positive remainders. */
  function Work(ps: seq<Proc>): nat
  {
    if ps == [] then 0 else Pos(ps[0].remaining) + Work(ps[1..])
  }

  lemma {:induction false} WorkUpdate(ps: seq<Proc>, i: nat, q: Proc)
    requires i < |ps|
    ensures Work(ps[i := q]) == Work(ps) - Pos(ps[i].remaining) + Pos(q.remaining)
    decreases |ps|
  {
    if i > 0 {
      assert ps[i := q][1..] == ps[1..][i - 1 := q];
      WorkUpdate(ps[1..], i - 1, q);
    } else {
      assert ps[i := q][1..] == ps[1..];
    }
  }

  /** How far a record has got by time `t`: untouched, or started no
      earlier than its arrival, with the units it has run fitting between
      its start and `t`, and completed, no later than `t`, exactly when
      nothing remains. */
  predicate Progress(p: Proc, t: int)
  {
    || Unstarted(p)
    || (&& 0 <= p.remaining < p.burst
        && 0 <= p.startTime && p.arrival <= p.startTime
        && p.startTime + (p.burst - p.remaining) <= t
        && p.waiting == 0 && p.turnaround == 0
        && (p.isCompleted <==> p.remaining == 0)
        && (p.remaining == 0 ==> p.startTime + p.burst <= p.completion <= t)
        && (p.remaining > 0 ==> p.completion == 0))
  }
}
