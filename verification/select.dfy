/** The ready-set machinery shared by the SJF and Priority policies: which
    records are ready, which one Python's `min` picks, and where an idle CPU
    jumps to. */
module Select {

  import opened Wrappers
  import opened Processes

  /** The selection key: `burst` (non-preemptive SJF), `remaining` (SRTF) or
      `priority_num` (both Priority policies). Smaller is better. */
  datatype Key = ByBurst | ByRemaining | ByPriority

  function KeyOf(k: Key, p: Proc): int
  {
    match k
    case ByBurst => p.burst
    case ByRemaining => p.remaining
    case ByPriority => p.priorityNum
  }

  /** What "not finished" means: the non-preemptive policies test
      `not is_completed`, the preemptive ones `remaining > 0`. */
  datatype Liveness = UntilCompleted | WhileRemaining

  predicate Pending(l: Liveness, p: Proc)
  {
    match l
    case UntilCompleted => !p.isCompleted
    case WhileRemaining => p.remaining > 0
  }

  /** Arrived by `t` and not finished. */
  predicate Ready(l: Liveness, p: Proc, t: int)
  {
    p.arrival <= t && Pending(l, p)
  }

  predicate AnyPending(ps: seq<Proc>, l: Liveness)
  {
    exists i :: 0 <= i < |ps| && Pending(l, ps[i])
  }

  predicate AnyReady(ps: seq<Proc>, l: Liveness, t: int)
  {
    exists i :: 0 <= i < |ps| && Ready(l, ps[i], t)
  }

  /** `i` is ready and has the smallest key among the ready records of
      `ps[..n]`, and every ready record before it has a strictly larger key:
      the element Python's `min` returns, since it keeps the first of equal
      minima. */
  predicate IsFirstMinBelow(ps: seq<Proc>, n: nat, l: Liveness, t: int, k: Key, i: nat)
  {
    && i < n <= |ps| && Ready(l, ps[i], t)
    && (forall j :: 0 <= j < n && Ready(l, ps[j], t) ==> KeyOf(k, ps[i]) <= KeyOf(k, ps[j]))
    && (forall j :: 0 <= j < i && Ready(l, ps[j], t) ==> KeyOf(k, ps[i]) < KeyOf(k, ps[j]))
  }

  predicate IsFirstMin(ps: seq<Proc>, l: Liveness, t: int, k: Key, i: nat)
  {
    IsFirstMinBelow(ps, |ps|, l, t, k, i)
  }

  /** The left-to-right scan `min(ready, key=...)` performs: a later record
      replaces the best so far only with a strictly smaller key. */
  function Scan(ps: seq<Proc>, l: Liveness, t: int, k: Key, n: nat, best: Option<nat>): (r: Option<nat>)
    requires n <= |ps|
    requires best.None? ==> forall j :: 0 <= j < n ==> !Ready(l, ps[j], t)
    requires best.Some? ==> IsFirstMinBelow(ps, n, l, t, k, best.value)
    ensures r.None? <==> !AnyReady(ps, l, t)
    ensures r.Some? ==> IsFirstMin(ps, l, t, k, r.value)
    decreases |ps| - n
  {
    if n == |ps| then best
    else if Ready(l, ps[n], t) && (best.None? || KeyOf(k, ps[n]) < KeyOf(k, ps[best.value])) then
      Scan(ps, l, t, k, n + 1, Some(n))
    else
      Scan(ps, l, t, k, n + 1, best)
  }

  /** `min([p for p in ps if ready], key=...)`, as an index into `ps`, or
      `None` when nothing is ready. */
  function Pick(ps: seq<Proc>, l: Liveness, t: int, k: Key): (r: Option<nat>)
    ensures r.None? <==> !AnyReady(ps, l, t)
    ensures r.Some? ==> IsFirstMin(ps, l, t, k, r.value)
  {
    Scan(ps, l, t, k, 0, None)
  }

  /** The first-minimum rule leaves no choice: at most one index meets it. */
  lemma FirstMinUnique(ps: seq<Proc>, l: Liveness, t: int, k: Key, i: nat, j: nat)
    requires IsFirstMin(ps, l, t, k, i) && IsFirstMin(ps, l, t, k, j)
    ensures i == j
  {
  }

  /** `min(p.arrival for p in ps if pending)`: the earliest arrival among the
      unfinished records. */
  function NextArrival(ps: seq<Proc>, l: Liveness): (a: int)
    requires AnyPending(ps, l)
    ensures exists i :: 0 <= i < |ps| && Pending(l, ps[i]) && ps[i].arrival == a
    ensures forall i :: 0 <= i < |ps| && Pending(l, ps[i]) ==> a <= ps[i].arrival
  {
    var rest := ps[1..];
    assert forall i :: 1 <= i < |ps| ==> ps[i] == rest[i - 1];
    if !Pending(l, ps[0]) then
      assert AnyPending(rest, l) by {
        var i :| 0 <= i < |ps| && Pending(l, ps[i]);
        assert Pending(l, rest[i - 1]);
      }
      NextArrival(rest, l)
    else if AnyPending(rest, l) then
      var a := NextArrival(rest, l);
      if ps[0].arrival <= a then ps[0].arrival else a
    else
      ps[0].arrival
  }

  /** When nothing is ready at `t`, the idle CPU jumps forward, and at the
      jump target something is ready. */
  lemma IdleJump(ps: seq<Proc>, l: Liveness, t: int)
    requires AnyPending(ps, l) && !AnyReady(ps, l, t)
    ensures NextArrival(ps, l) > t
    ensures AnyReady(ps, l, NextArrival(ps, l))
  {
    var a := NextArrival(ps, l);
    var i :| 0 <= i < |ps| && Pending(l, ps[i]) && ps[i].arrival == a;
    assert !Ready(l, ps[i], t);
    assert Ready(l, ps[i], a);
  }
}
