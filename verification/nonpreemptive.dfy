/** `Scheduler.sjf_non_preemptive` and `Scheduler.priority_non_preemptive`.
    The two differ only in the key `min` compares (`burst`, `priority_num`),
    so one loop with a `Key` parameter models both.

    The source keeps every copy in `procs` and flags the finished ones; here
    the loop carries the unfinished copies only, in their input order. The
    ready list the source builds (`procs` filtered by arrival and
    `not is_completed`, in input order) is then the ready part of `rest`, in
    the same order, so Python's `min` picks the same record. */
module NonPreemptive {

  import opened Wrappers
  import opened Processes
  import opened Timeline
  import opened Select
  import opened Fcfs

  predicate AllUnstarted(ps: seq<Proc>)
  {
    forall i :: 0 <= i < |ps| ==> Unstarted(ps[i])
  }

  /** `s` with the record at `i` taken out, the others in order. */
  function Without(s: seq<Proc>, i: nat): (r: seq<Proc>)
    requires i < |s|
    ensures |r| == |s| - 1
    ensures forall j :: 0 <= j < i ==> r[j] == s[j]
    ensures forall j :: i <= j < |r| ==> r[j] == s[j + 1]
    ensures multiset(r) + multiset{s[i]} == multiset(s)
  {
    assert s == s[..i] + [s[i]] + s[i + 1..];
    s[..i] + s[i + 1..]
  }

  /** The `while len(completed) < len(procs)` loop from time `t` over the
      unfinished copies `rest`. With a record ready, the first one of least
      key runs to completion from `t`; with none ready, the CPU idles up to
      the earliest arrival. The result holds the timeline and the `completed`
      list, in completion order. */
  function Loop(rest: seq<Proc>, t: int, k: Key): (r: Schedule)
    requires AllUnstarted(rest)
    ensures |r.procs| == |rest|
    decreases |rest|, if AnyReady(rest, UntilCompleted, t) then 0 else 1
  {
    if rest == [] then Schedule([], [])
    else
      match Pick(rest, UntilCompleted, t, k)
      case Some(i) =>
        var p := rest[i];
        var q := p.(startTime := t, completion := t + p.burst, isCompleted := true);
        var r := Loop(Without(rest, i), q.completion, k);
        Schedule([Segment(t, Ran(p.pid), q.completion)] + r.timeline, [q] + r.procs)
      case None =>
        assert Pending(UntilCompleted, rest[0]);
        var a := NextArrival(rest, UntilCompleted);
        IdleJump(rest, UntilCompleted, t);
        var r := Loop(rest, a, k);
        Schedule([Segment(t, Idle, a)] + r.timeline, r.procs)
  }

  /** The record `min` picks has arrived, and the others are still
      unstarted. */
  lemma PickReady(rest: seq<Proc>, t: int, k: Key, i: nat)
    requires AllUnstarted(rest) && Pick(rest, UntilCompleted, t, k) == Some(i)
    ensures i < |rest| && Unstarted(rest[i]) && rest[i].arrival <= t
    ensures AllUnstarted(Without(rest, i))
  {
  }

  /** The loop's step when a record is ready at `t`: the record `min`
      picks runs from `t` to `t2`, and the loop goes on over the rest `w`. */
  lemma LoopReady(rest: seq<Proc>, t: int, k: Key, i: nat, w: seq<Proc>, t2: int)
    requires AllUnstarted(rest) && Pick(rest, UntilCompleted, t, k) == Some(i)
    requires i < |rest| && w == Without(rest, i) && t2 == t + rest[i].burst
    ensures AllUnstarted(w)
    ensures Loop(rest, t, k)
            == Schedule([Segment(t, Ran(rest[i].pid), t2)] + Loop(w, t2, k).timeline,
                        [rest[i].(startTime := t, completion := t2, isCompleted := true)] + Loop(w, t2, k).procs)
  {
    PickReady(rest, t, k, i);
    LoopPicked(rest, t, k, i);
    LoopPickedTimeline(rest, t, k, i);
    var l := Loop(rest, t, k);
    var r := Loop(w, t2, k);
    ConsSplit(l.timeline, Segment(t, Ran(rest[i].pid), t2), r.timeline);
    ConsSplit(l.procs, rest[i].(startTime := t, completion := t2, isCompleted := true), r.procs);
  }

  /** The ready branch of `Loop`, unfolded once: the records, head and
      tail apart. */
  lemma LoopPicked(rest: seq<Proc>, t: int, k: Key, i: nat)
    requires AllUnstarted(rest) && Pick(rest, UntilCompleted, t, k) == Some(i)
    requires i < |rest| && AllUnstarted(Without(rest, i))
    ensures var p := rest[i]; var q := p.(startTime := t, completion := t + p.burst, isCompleted := true);
      var l := Loop(rest, t, k); var r := Loop(Without(rest, i), q.completion, k);
      l.procs != [] && l.procs[0] == q && l.procs[1..] == r.procs
  {
  }

  /** The same for the timeline. */
  lemma LoopPickedTimeline(rest: seq<Proc>, t: int, k: Key, i: nat)
    requires AllUnstarted(rest) && Pick(rest, UntilCompleted, t, k) == Some(i)
    requires i < |rest| && AllUnstarted(Without(rest, i))
    ensures var p := rest[i]; var q := p.(startTime := t, completion := t + p.burst, isCompleted := true);
      var l := Loop(rest, t, k); var r := Loop(Without(rest, i), q.completion, k);
      l.timeline != [] && l.timeline[0] == Segment(t, Ran(p.pid), q.completion) && l.timeline[1..] == r.timeline
  {
  }

  /** A non-empty sequence is its head followed by its tail. */
  lemma ConsSplit<T>(s: seq<T>, a: T, tl: seq<T>)
    requires s != [] && s[0] == a && s[1..] == tl
    ensures s == [a] + tl
  {
  }

  /** The loop's step when nothing is ready at `t` but records remain. */
  lemma LoopIdle(rest: seq<Proc>, t: int, k: Key)
    requires AllUnstarted(rest) && rest != [] && Pick(rest, UntilCompleted, t, k).None?
    ensures AnyPending(rest, UntilCompleted)
    ensures t < NextArrival(rest, UntilCompleted)
    ensures AnyReady(rest, UntilCompleted, NextArrival(rest, UntilCompleted))
    ensures forall j :: 0 <= j < |rest| ==> NextArrival(rest, UntilCompleted) <= rest[j].arrival
    ensures Loop(rest, t, k)
            == Schedule([Segment(t, Idle, NextArrival(rest, UntilCompleted))]
                        + Loop(rest, NextArrival(rest, UntilCompleted), k).timeline,
                        Loop(rest, NextArrival(rest, UntilCompleted), k).procs)
  {
    assert Pending(UntilCompleted, rest[0]);
    IdleJump(rest, UntilCompleted, t);
  }

  /** The policy with key `k` on fresh copies of the caller's records, from
      time 0. */
  function NonPreemptive(ps: seq<Proc>, k: Key): (r: Schedule)
    ensures |r.procs| == |ps|
  {
    Loop(CopyAll(ps), 0, k)
  }

  /** `sjf_non_preemptive`: the shortest burst among the ready records runs
      to completion. */
  function SjfNonPreemptive(ps: seq<Proc>): (r: Schedule)
    ensures |r.procs| == |ps|
  {
    NonPreemptive(ps, ByBurst)
  }

  /** `priority_non_preemptive`: the most urgent priority class among the
      ready records runs to completion. */
  function PriorityNonPreemptive(ps: seq<Proc>): (r: Schedule)
    ensures |r.procs| == |ps|
  {
    NonPreemptive(ps, ByPriority)
  }

  /** Every unfinished copy is completed exactly once: taking back the
      dispatch gives the same records the loop started with, reordered. */
  lemma {:induction false} LoopPermutes(rest: seq<Proc>, t: int, k: Key)
    requires AllUnstarted(rest)
    ensures multiset(UndispatchedAll(Loop(rest, t, k).procs)) == multiset(rest)
    decreases |rest|, if AnyReady(rest, UntilCompleted, t) then 0 else 1, 1
  {
    if rest != [] {
      match Pick(rest, UntilCompleted, t, k)
      case Some(i) =>
        LoopPermutesReady(rest, t, k, i);
      case None =>
        LoopIdle(rest, t, k);
        LoopPermutes(rest, NextArrival(rest, UntilCompleted), k);
    }
  }

  lemma {:induction false} LoopPermutesReady(rest: seq<Proc>, t: int, k: Key, i: nat)
    requires AllUnstarted(rest) && Pick(rest, UntilCompleted, t, k) == Some(i)
    ensures multiset(UndispatchedAll(Loop(rest, t, k).procs)) == multiset(rest)
    decreases |rest|, 0, 0
  {
    PickReady(rest, t, k, i);
    var w := Without(rest, i);
    var t' := t + rest[i].burst;
    LoopReady(rest, t, k, i, w, t');
    var q := rest[i].(startTime := t, completion := t', isCompleted := true);
    LoopPermutes(w, t', k);
    PermuteStep(rest, i, q, Loop(w, t', k).procs);
  }

  /** Bookkeeping for one dispatch, kept apart from `Loop`'s definition. */
  lemma PermuteStep(rest: seq<Proc>, i: nat, q: Proc, procs: seq<Proc>)
    requires i < |rest| && Undispatched(q) == rest[i]
    requires multiset(UndispatchedAll(procs)) == multiset(Without(rest, i))
    ensures multiset(UndispatchedAll([q] + procs)) == multiset(rest)
  {
    assert ([q] + procs)[1..] == procs;
    assert UndispatchedAll([q] + procs) == [rest[i]] + UndispatchedAll(procs);
  }

  /** Every record the loop completes comes from `rest`. */
  lemma LoopFrom(rest: seq<Proc>, t: int, k: Key, j: nat)
    requires AllUnstarted(rest) && j < |rest|
    ensures exists m :: 0 <= m < |rest| && rest[m] == Undispatched(Loop(rest, t, k).procs[j])
  {
    LoopPermutes(rest, t, k);
    var u := UndispatchedAll(Loop(rest, t, k).procs);
    assert u[j] in multiset(rest);
  }

  /** With a record ready, the loop starts by running one that has arrived. */
  lemma LoopReadyHead(rest: seq<Proc>, t: int, k: Key)
    requires AllUnstarted(rest) && AnyReady(rest, UntilCompleted, t)
    ensures rest != [] && Loop(rest, t, k).procs[0].arrival <= t
  {
    var i := Pick(rest, UntilCompleted, t, k).value;
    PickReady(rest, t, k, i);
    LoopReady(rest, t, k, i, Without(rest, i), t + rest[i].burst);
  }

  /** After idling, the first record run is one arriving exactly at the end
      of the idle time, and none of the later ones arrives before it. */
  lemma LoopAfterIdle(rest: seq<Proc>, t: int, k: Key)
    requires AllUnstarted(rest) && rest != [] && Pick(rest, UntilCompleted, t, k).None?
    ensures AnyPending(rest, UntilCompleted)
    ensures var u := UndispatchedAll(Loop(rest, NextArrival(rest, UntilCompleted), k).procs);
      && u != [] && u[0].arrival == NextArrival(rest, UntilCompleted)
      && forall j :: 0 <= j < |u| ==> NextArrival(rest, UntilCompleted) <= u[j].arrival
  {
    LoopIdle(rest, t, k);
    var a := NextArrival(rest, UntilCompleted);
    var u := UndispatchedAll(Loop(rest, a, k).procs);
    LoopReadyHead(rest, a, k);
    forall j | 0 <= j < |u|
      ensures a <= u[j].arrival
    {
      LoopFrom(rest, a, k, j);
    }
  }

  /** The non-preemptive loop is FCFS over its own completion order: run the
      records it completed, in that order, through the FCFS loop and the
      same timeline and records come out. */
  lemma {:induction false} LoopIsRun(rest: seq<Proc>, t: int, k: Key)
    requires AllUnstarted(rest)
    ensures Loop(rest, t, k) == Run(UndispatchedAll(Loop(rest, t, k).procs), t)
    decreases |rest|, if AnyReady(rest, UntilCompleted, t) then 0 else 1, 1
  {
    if rest != [] {
      match Pick(rest, UntilCompleted, t, k)
      case Some(i) =>
        LoopIsRunReady(rest, t, k, i);
      case None =>
        LoopIdle(rest, t, k);
        LoopAfterIdle(rest, t, k);
        var a := NextArrival(rest, UntilCompleted);
        var l := Loop(rest, a, k);
        LoopIsRun(rest, a, k);
        IdleRunStep(l, t, a);
    }
  }

  lemma {:induction false} LoopIsRunReady(rest: seq<Proc>, t: int, k: Key, i: nat)
    requires AllUnstarted(rest) && Pick(rest, UntilCompleted, t, k) == Some(i)
    ensures Loop(rest, t, k) == Run(UndispatchedAll(Loop(rest, t, k).procs), t)
    decreases |rest|, 0, 0
  {
    PickReady(rest, t, k, i);
    var w := Without(rest, i);
    var t' := t + rest[i].burst;
    LoopReady(rest, t, k, i, w, t');
    LoopIsRun(w, t', k);
    ReadyRunStep(rest[i], t, t', Loop(w, t', k), Loop(rest, t, k));
  }

  /** Bookkeeping for one dispatch, kept apart from `Loop`'s definition. */
  lemma ReadyRunStep(p: Proc, t: int, t2: int, r: Schedule, l: Schedule)
    requires Unstarted(p) && p.arrival <= t && t2 == t + p.burst
    requires r == Run(UndispatchedAll(r.procs), t2)
    requires l == Schedule([Segment(t, Ran(p.pid), t2)] + r.timeline,
                           [p.(startTime := t, completion := t2, isCompleted := true)] + r.procs)
    ensures l == Run(UndispatchedAll(l.procs), t)
  {
    var q := p.(startTime := t, completion := t2, isCompleted := true);
    var u := UndispatchedAll(l.procs);
    UndispatchDispatched(p, t);
    UndispatchCons(l.procs, q, r.procs);
    assert u[0] == p && Dispatched(p, t) == q;
    RunReadyHead(u, t, r);
  }

  /** `Run` from a time by which its first record has arrived: that record
      runs at once, then the rest follows. */
  lemma RunReadyHead(u: seq<Proc>, t: int, r: Schedule)
    requires u != [] && u[0].arrival <= t && Run(u[1..], t + u[0].burst) == r
    ensures Run(u, t) == Schedule([Segment(t, Ran(u[0].pid), t + u[0].burst)] + r.timeline, [Dispatched(u[0], t)] + r.procs)
  {
    RunUnfold(u, t);
    var seg := Segment(t, Ran(u[0].pid), t + u[0].burst);
    assert Run(u, t).timeline == [] + [seg] + r.timeline;
    assert [] + [seg] + r.timeline == [seg] + r.timeline;
  }

  /** Taking back the dispatch of a list distributes over its head and tail. */
  lemma UndispatchCons(ls: seq<Proc>, q: Proc, rs: seq<Proc>)
    requires ls == [q] + rs
    ensures UndispatchedAll(ls) != [] && UndispatchedAll(ls)[0] == Undispatched(q)
    ensures UndispatchedAll(ls)[1..] == UndispatchedAll(rs)
  {
    var u := UndispatchedAll(ls);
    forall j | 0 <= j < |rs|
      ensures u[1..][j] == UndispatchedAll(rs)[j]
    {
      assert ls[j + 1] == rs[j];
    }
  }

  /** Bookkeeping for one idle step, kept apart from `Loop`'s definition. */
  lemma IdleRunStep(l: Schedule, t: int, a: int)
    requires l == Run(UndispatchedAll(l.procs), a)
    requires l.procs != [] && UndispatchedAll(l.procs)[0].arrival == a && t < a
    ensures Schedule([Segment(t, Idle, a)] + l.timeline, l.procs) == Run(UndispatchedAll(l.procs), t)
  {
    RunIdleStep(UndispatchedAll(l.procs), t);
  }

  /** The loop idles only up to the earliest arrival among the records it
      has still to run. */
  lemma {:induction false} LoopEarliestWhenIdle(rest: seq<Proc>, t: int, k: Key)
    requires AllUnstarted(rest)
    ensures EarliestWhenIdle(UndispatchedAll(Loop(rest, t, k).procs), t)
    decreases |rest|, if AnyReady(rest, UntilCompleted, t) then 0 else 1, 1
  {
    if rest != [] {
      match Pick(rest, UntilCompleted, t, k)
      case Some(i) =>
        LoopEarliestReady(rest, t, k, i);
      case None =>
        LoopIdle(rest, t, k);
        LoopAfterIdle(rest, t, k);
        var a := NextArrival(rest, UntilCompleted);
        LoopEarliestWhenIdle(rest, a, k);
        EarliestIdleStep(UndispatchedAll(Loop(rest, a, k).procs), t, a);
    }
  }

  lemma {:induction false} LoopEarliestReady(rest: seq<Proc>, t: int, k: Key, i: nat)
    requires AllUnstarted(rest) && Pick(rest, UntilCompleted, t, k) == Some(i)
    ensures EarliestWhenIdle(UndispatchedAll(Loop(rest, t, k).procs), t)
    decreases |rest|, 0, 0
  {
    PickReady(rest, t, k, i);
    var w := Without(rest, i);
    var t' := t + rest[i].burst;
    LoopReady(rest, t, k, i, w, t');
    LoopEarliestWhenIdle(w, t', k);
    EarliestReadyStep(rest[i], t, t', Loop(w, t', k).procs, Loop(rest, t, k).procs);
  }

  lemma EarliestReadyStep(p: Proc, t: int, t2: int, procs: seq<Proc>, l: seq<Proc>)
    requires Unstarted(p) && p.arrival <= t && t2 == t + p.burst
    requires EarliestWhenIdle(UndispatchedAll(procs), t2)
    requires l == [p.(startTime := t, completion := t2, isCompleted := true)] + procs
    ensures EarliestWhenIdle(UndispatchedAll(l), t)
  {
    assert l[1..] == procs;
    var u := UndispatchedAll(l);
    assert u == [p] + UndispatchedAll(procs);
    assert u[1..] == UndispatchedAll(procs);
  }

  lemma EarliestIdleStep(u: seq<Proc>, t: int, a: int)
    requires u != [] && u[0].arrival == a && t < a
    requires forall j :: 0 <= j < |u| ==> a <= u[j].arrival
    requires EarliestWhenIdle(u, a)
    ensures EarliestWhenIdle(u, t)
  {
    assert Max(t, a) == Max(a, a);
  }

  /** No record ready at a start was passed over for one with a larger key:
      a record that had arrived by the time another was started, but
      completed after it, has a key no smaller. */
  predicate Greedy(r: seq<Proc>, k: Key)
  {
    forall i, j :: 0 <= i < j < |r| && r[j].arrival <= r[i].startTime ==> KeyOf(k, r[i]) <= KeyOf(k, r[j])
  }

  lemma GreedyCons(q: Proc, procs: seq<Proc>, k: Key)
    requires Greedy(procs, k)
    requires forall j :: 0 <= j < |procs| && procs[j].arrival <= q.startTime ==> KeyOf(k, q) <= KeyOf(k, procs[j])
    ensures Greedy([q] + procs, k)
  {
    var l := [q] + procs;
    forall i, j | 0 <= i < j < |l| && l[j].arrival <= l[i].startTime
      ensures KeyOf(k, l[i]) <= KeyOf(k, l[j])
    {
      assert l[j] == procs[j - 1];
      if i > 0 {
        assert l[i] == procs[i - 1];
      }
    }
  }

  lemma {:induction false} LoopGreedy(rest: seq<Proc>, t: int, k: Key)
    requires AllUnstarted(rest)
    ensures Greedy(Loop(rest, t, k).procs, k)
    decreases |rest|, if AnyReady(rest, UntilCompleted, t) then 0 else 1
  {
    if rest != [] {
      match Pick(rest, UntilCompleted, t, k)
      case Some(i) =>
        PickReady(rest, t, k, i);
        var w := Without(rest, i);
        var t' := t + rest[i].burst;
        LoopReady(rest, t, k, i, w, t');
        var procs := Loop(w, t', k).procs;
        LoopGreedy(w, t', k);
        forall j | 0 <= j < |procs| && procs[j].arrival <= t
          ensures KeyOf(k, rest[i]) <= KeyOf(k, procs[j])
        {
          LoopFrom(w, t', k, j);
          PassedOver(rest, i, t, k, procs[j]);
        }
        GreedyCons(rest[i].(startTime := t, completion := t', isCompleted := true), procs, k);
      case None =>
        LoopIdle(rest, t, k);
        LoopGreedy(rest, NextArrival(rest, UntilCompleted), k);
    }
  }

  /** A record left in the loop after the pick, and arrived by `t`, was
      ready at `t`, so the first-minimum pick has a key no larger. */
  lemma PassedOver(rest: seq<Proc>, i: nat, t: int, k: Key, r: Proc)
    requires AllUnstarted(rest) && IsFirstMin(rest, UntilCompleted, t, k, i)
    requires exists m :: 0 <= m < |Without(rest, i)| && Without(rest, i)[m] == Undispatched(r)
    requires r.arrival <= t
    ensures KeyOf(k, rest[i]) <= KeyOf(k, r)
  {
    var w := Without(rest, i);
    var m :| 0 <= m < |w| && w[m] == Undispatched(r);
    var m' := if m < i then m else m + 1;
    assert rest[m'] == w[m];
    assert Ready(UntilCompleted, rest[m'], t);
  }

  /** The records `NonPreemptive` returns are the caller's records, each
      completed exactly once, in some order: taking back the dispatch gives
      the fresh copies, reordered. */
  lemma NonPreemptivePermutes(ps: seq<Proc>, k: Key)
    ensures multiset(UndispatchedAll(NonPreemptive(ps, k).procs)) == multiset(CopyAll(ps))
  {
    LoopPermutes(CopyAll(ps), 0, k);
  }

  /** The result is what FCFS computes over the completion order. */
  lemma NonPreemptiveIsFcfsRun(ps: seq<Proc>, k: Key)
    ensures NonPreemptive(ps, k) == Run(UndispatchedAll(NonPreemptive(ps, k).procs), 0)
    ensures EarliestWhenIdle(UndispatchedAll(NonPreemptive(ps, k).procs), 0)
  {
    LoopIsRun(CopyAll(ps), 0, k);
    LoopEarliestWhenIdle(CopyAll(ps), 0, k);
  }

  /** Each record runs once, without interruption: it starts at the later of
      the previous completion (0 for the first) and its own arrival, and
      completes one burst later. No record is passed over for one with a
      larger key that it had arrived in time to compete with. */
  lemma NonPreemptiveTimes(ps: seq<Proc>, k: Key)
    ensures var r := NonPreemptive(ps, k).procs;
      && (forall i :: 0 <= i < |r| ==>
            && r[i].isCompleted
            && r[i].arrival <= r[i].startTime
            && r[i].completion == r[i].startTime + r[i].burst)
      && (|r| > 0 ==> r[0].startTime == Max(0, r[0].arrival))
      && (forall i, j :: 0 <= i < |r| && 0 <= j < |r| && j == i + 1 ==>
            r[j].startTime == Max(r[i].completion, r[j].arrival))
      && Greedy(r, k)
  {
    var s := NonPreemptive(ps, k);
    var u := UndispatchedAll(s.procs);
    NonPreemptiveIsFcfsRun(ps, k);
    LoopGreedy(CopyAll(ps), 0, k);
    RunDispatch(u, 0);
    DispatchChain(s.procs, u);
  }

  /** Records dispatched one after another, the first at time 0, each start
      at the later of the previous completion and their own arrival. */
  lemma DispatchChain(r: seq<Proc>, u: seq<Proc>)
    requires |r| == |u|
    requires |r| > 0 ==> r[0] == Dispatched(u[0], 0)
    requires forall i, j :: 0 <= i < |r| && 0 <= j < |r| && j == i + 1 ==> r[j] == Dispatched(u[j], r[i].completion)
    ensures forall i :: 0 <= i < |r| ==>
              && r[i].isCompleted
              && r[i].arrival <= r[i].startTime
              && r[i].completion == r[i].startTime + r[i].burst
    ensures |r| > 0 ==> r[0].startTime == Max(0, r[0].arrival)
    ensures forall i, j :: 0 <= i < |r| && 0 <= j < |r| && j == i + 1 ==>
              r[j].startTime == Max(r[i].completion, r[j].arrival)
  {
    forall i | 0 <= i < |r|
      ensures r[i].isCompleted && r[i].arrival <= r[i].startTime
      ensures r[i].completion == r[i].startTime + r[i].burst
    {
      if i > 0 {
        assert r[i] == Dispatched(u[i], r[i - 1].completion);
      }
    }
  }

  /** Each pid is shown running for exactly the total burst the caller gave
      it. */
  lemma NonPreemptiveAllocated(ps: seq<Proc>, k: Key, x: string)
    ensures Allocated(NonPreemptive(ps, k).timeline, x) == Demand(ps, x)
  {
    var s := NonPreemptive(ps, k);
    var u := UndispatchedAll(s.procs);
    var c := CopyAll(ps);
    NonPreemptiveIsFcfsRun(ps, k);
    NonPreemptivePermutes(ps, k);
    RunAllocated(u, 0, x);
    DemandUndispatched(s.procs, x);
    DemandPermutation(u, c, x);
    DemandCopyAll(ps, x);
  }

  lemma PositiveAfterPermuting(ps: seq<Proc>, u: seq<Proc>)
    requires PositiveBursts(ps) && multiset(u) == multiset(CopyAll(ps))
    ensures PositiveBursts(u)
  {
    forall i | 0 <= i < |u|
      ensures u[i].burst > 0
    {
      assert u[i] in multiset(CopyAll(ps));
    }
  }

  /** The timeline partitions the time from 0 to the last completion, idles
      only while every record has finished or not yet arrived, and shows each
      pid running for exactly the total burst the caller gave it. */
  lemma NonPreemptiveTimeline(ps: seq<Proc>, k: Key)
    requires PositiveBursts(ps)
    ensures var r := NonPreemptive(ps, k);
      && Contiguous(r.timeline, 0)
      && EndTime(r.timeline, 0) == (if ps == [] then 0 else r.procs[|ps| - 1].completion)
      && NonEmpty(r.timeline)
      && IdleJustified(r.timeline, r.procs)
      && forall x :: Allocated(r.timeline, x) == Demand(ps, x)
  {
    var u := UndispatchedAll(NonPreemptive(ps, k).procs);
    NonPreemptiveIsFcfsRun(ps, k);
    NonPreemptivePermutes(ps, k);
    PositiveAfterPermuting(ps, u);
    RunContiguous(u, 0);
    RunSegments(u, 0);
    RunIdleJustified(u, 0);
    forall x
      ensures Allocated(NonPreemptive(ps, k).timeline, x) == Demand(ps, x)
    {
      NonPreemptiveAllocated(ps, k, x);
    }
  }
}
