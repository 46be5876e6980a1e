/** The timeline a policy returns: segments `(start, label, end)` whose label
    is a pid or IDLE, rendered by the source as `"[start] - label - [end]"`. */
module Timeline {

  import opened Text
  import opened Processes

  datatype Label = Idle | Ran(pid: string)

  datatype Segment = Segment(start: int, owner: Label, end: int)

  /** What every policy returns: the timeline and the final records. */
  datatype Schedule = Schedule(timeline: seq<Segment>, procs: seq<Proc>)

  /** The first segment starts at `from` and each later one where its
      predecessor ended: no gap and no overlap. */
  predicate Contiguous(tl: seq<Segment>, from: int)
  {
    && (|tl| > 0 ==> tl[0].start == from)
    && forall i, j :: 0 <= i < |tl| && 0 <= j < |tl| && j == i + 1 ==> tl[j].start == tl[i].end
  }

  /** Where the timeline ends (`from` when it is empty). */
  function EndTime(tl: seq<Segment>, from: int): int
  {
    if tl == [] then from else tl[|tl| - 1].end
  }

  /** Two contiguous pieces, the second starting where the first ends, make
      one contiguous timeline ending where the second does. */
  lemma ContiguousConcat(a: seq<Segment>, b: seq<Segment>, from: int)
    requires Contiguous(a, from) && Contiguous(b, EndTime(a, from))
    ensures Contiguous(a + b, from)
    ensures EndTime(a + b, from) == EndTime(b, EndTime(a, from))
  {
    var c := a + b;
    forall i, j | 0 <= i < j < |c| && j == i + 1
      ensures c[j].start == c[i].end
    {
      if j >= |a| {
        assert c[j] == b[j - |a|];
        if j > |a| {
          assert c[i] == b[i - |a|];
        }
      }
    }
  }

  /** Appending one segment that starts where the timeline ends keeps it
      contiguous and moves its end to the segment's end. */
  lemma ContiguousSnoc(tl: seq<Segment>, s: Segment, from: int)
    requires Contiguous(tl, from) && s.start == EndTime(tl, from)
    ensures Contiguous(tl + [s], from) && EndTime(tl + [s], from) == s.end
  {
    ContiguousConcat(tl, [s], from);
  }

  /** Every segment covers at least one time unit. */
  predicate NonEmpty(tl: seq<Segment>)
  {
    forall i :: 0 <= i < |tl| ==> tl[i].start < tl[i].end
  }

  /** Neighbouring segments carry different labels: runs of the same label
      have been merged into one segment. */
  predicate Coalesced(tl: seq<Segment>)
  {
    forall i, j :: 0 <= i < |tl| && 0 <= j < |tl| && j == i + 1 ==> tl[i].owner != tl[j].owner
  }

  /** Appending a segment whose label differs from the last one keeps the
      timeline coalesced. */
  lemma CoalescedSnoc(tl: seq<Segment>, s: Segment)
    requires Coalesced(tl) && (tl != [] ==> tl[|tl| - 1].owner != s.owner)
    ensures Coalesced(tl + [s])
  {
    var c := tl + [s];
    forall i, j | 0 <= i < |c| && 0 <= j < |c| && j == i + 1
      ensures c[i].owner != c[j].owner
    {
      if j < |tl| {
        assert c[i] == tl[i] && c[j] == tl[j];
      }
    }
  }

  /** Segments come in time order and do not overlap, gaps allowed. */
  predicate Ordered(tl: seq<Segment>)
  {
    forall i, j :: 0 <= i < |tl| && 0 <= j < |tl| && j == i + 1 ==> tl[i].end <= tl[j].start
  }

  /** Ordered, and nothing before `from`. */
  predicate OrderedFrom(tl: seq<Segment>, from: int)
  {
    Ordered(tl) && (|tl| > 0 ==> from <= tl[0].start)
  }

  /** Appending a segment that starts no earlier than the timeline ends
      keeps it ordered. */
  lemma OrderedSnoc(tl: seq<Segment>, s: Segment, from: int)
    requires OrderedFrom(tl, from) && EndTime(tl, from) <= s.start
    ensures OrderedFrom(tl + [s], from) && EndTime(tl + [s], from) == s.end
  {
    var c := tl + [s];
    forall i, j | 0 <= i < |c| && 0 <= j < |c| && j == i + 1
      ensures c[i].end <= c[j].start
    {
      if j < |tl| {
        assert c[i] == tl[i] && c[j] == tl[j];
      }
    }
  }

  /** Total length of the segments owned by `pid`: the CPU time the
      timeline shows for that process. */
  function Allocated(tl: seq<Segment>, pid: string): int
  {
    if tl == [] then 0
    else
      var s := tl[|tl| - 1];
      Allocated(tl[..|tl| - 1], pid) + (if s.owner == Ran(pid) then s.end - s.start else 0)
  }

  /** Appending one segment adds its length to its own pid only. */
  lemma AllocatedSnoc(tl: seq<Segment>, s: Segment, pid: string)
    ensures Allocated(tl + [s], pid) == Allocated(tl, pid) + (if s.owner == Ran(pid) then s.end - s.start else 0)
  {
    assert (tl + [s])[..|tl|] == tl;
  }

  lemma {:induction false} AllocatedConcat(a: seq<Segment>, b: seq<Segment>, pid: string)
    ensures Allocated(a + b, pid) == Allocated(a, pid) + Allocated(b, pid)
    decreases |b|
  {
    if b != [] {
      assert (a + b)[..|a + b| - 1] == a + b[..|b| - 1];
      AllocatedConcat(a, b[..|b| - 1], pid);
    } else {
      assert a + b == a;
    }
  }

  /** The CPU time the records carrying `pid` ask for: the sum of their
      bursts. */
  function Demand(ps: seq<Proc>, pid: string): int
  {
    if ps == [] then 0
    else (if ps[0].pid == pid then ps[0].burst else 0) + Demand(ps[1..], pid)
  }

  lemma DemandCons(p: Proc, ps: seq<Proc>, pid: string)
    ensures Demand([p] + ps, pid) == (if p.pid == pid then p.burst else 0) + Demand(ps, pid)
  {
    assert ([p] + ps)[1..] == ps;
  }

  lemma {:induction false} DemandAbsent(ps: seq<Proc>, pid: string)
    requires forall i :: 0 <= i < |ps| ==> ps[i].pid != pid
    ensures Demand(ps, pid) == 0
  {
    if ps != [] {
      DemandAbsent(ps[1..], pid);
    }
  }

  /** With distinct pids a pid's demand is the burst of its one record. */
  lemma {:induction false} DemandDistinct(ps: seq<Proc>, i: nat)
    requires DistinctPids(ps) && i < |ps|
    ensures Demand(ps, ps[i].pid) == ps[i].burst
  {
    if i == 0 {
      DemandAbsent(ps[1..], ps[0].pid);
    } else {
      DemandDistinct(ps[1..], i - 1);
    }
  }

  lemma {:induction false} DemandConcat(a: seq<Proc>, b: seq<Proc>, pid: string)
    ensures Demand(a + b, pid) == Demand(a, pid) + Demand(b, pid)
    decreases |a|
  {
    if a != [] {
      assert (a + b)[1..] == a[1..] + b;
      DemandConcat(a[1..], b, pid);
    } else {
      assert a + b == b;
    }
  }

  /** Taking the record at `m` out removes its burst from its pid's demand. */
  lemma DemandRemove(b: seq<Proc>, m: nat, pid: string)
    requires m < |b|
    ensures Demand(b, pid) == (if b[m].pid == pid then b[m].burst else 0) + Demand(b[..m] + b[m + 1..], pid)
  {
    assert b == b[..m] + [b[m]] + b[m + 1..];
    DemandConcat(b[..m] + [b[m]], b[m + 1..], pid);
    DemandConcat(b[..m], [b[m]], pid);
    DemandConcat(b[..m], b[m + 1..], pid);
    DemandCons(b[m], [], pid);
  }

  /** Taking the same element out of two permutations of each other leaves
      permutations of each other. */
  lemma MultisetRemove<T>(a: seq<T>, b: seq<T>, m: nat)
    requires a != [] && m < |b| && b[m] == a[0] && multiset(a) == multiset(b)
    ensures multiset(a[1..]) == multiset(b[..m] + b[m + 1..])
  {
    var l, r := b[..m], b[m + 1..];
    assert b == l + [b[m]] + r;
    assert multiset(b) == multiset(l) + multiset{b[m]} + multiset(r);
    assert multiset(l + r) == multiset(l) + multiset(r);
    assert a == [a[0]] + a[1..];
    assert multiset(a) == multiset{a[0]} + multiset(a[1..]);
    assert multiset(a[1..]) == multiset(a) - multiset{a[0]};
    assert multiset(l + r) == multiset(b) - multiset{b[m]};
  }

  /** Demand depends on the records, not on their order. */
  lemma {:induction false} DemandPermutation(a: seq<Proc>, b: seq<Proc>, pid: string)
    requires multiset(a) == multiset(b)
    ensures Demand(a, pid) == Demand(b, pid)
    decreases |a|
  {
    if a == [] {
      assert |b| == |multiset(b)| == 0;
    } else {
      assert a[0] in multiset(b);
      var m :| 0 <= m < |b| && b[m] == a[0];
      MultisetRemove(a, b, m);
      DemandPermutation(a[1..], b[..m] + b[m + 1..], pid);
      DemandRemove(b, m, pid);
    }
  }

  /** Demand sees only the pid and burst of each record. */
  lemma {:induction false} DemandPointwise(a: seq<Proc>, b: seq<Proc>, pid: string)
    requires |a| == |b|
    requires forall i :: 0 <= i < |a| ==> a[i].pid == b[i].pid && a[i].burst == b[i].burst
    ensures Demand(a, pid) == Demand(b, pid)
    decreases |a|
  {
    if a != [] {
      DemandPointwise(a[1..], b[1..], pid);
    }
  }

  /** Copying keeps each pid's demand. */
  lemma DemandCopyAll(ps: seq<Proc>, pid: string)
    ensures Demand(CopyAll(ps), pid) == Demand(ps, pid)
  {
    DemandPointwise(CopyAll(ps), ps, pid);
  }

  /** The units of `pid` run so far, by the records: `burst - remaining`
      summed over its records. */
  function Done(ps: seq<Proc>, pid: string): int
  {
    if ps == [] then 0 else (if ps[0].pid == pid then ps[0].burst - ps[0].remaining else 0) + Done(ps[1..], pid)
  }

  lemma {:induction false} DoneUpdate(ps: seq<Proc>, i: nat, q: Proc, pid: string)
    requires i < |ps| && q.pid == ps[i].pid && q.burst == ps[i].burst
    ensures Done(ps[i := q], pid) == Done(ps, pid) + (if q.pid == pid then ps[i].remaining - q.remaining else 0)
    decreases |ps|
  {
    if i > 0 {
      assert ps[i := q][1..] == ps[1..][i - 1 := q];
      DoneUpdate(ps[1..], i - 1, q, pid);
    } else {
      assert ps[i := q][1..] == ps[1..];
    }
  }

  lemma {:induction false} DoneUnstarted(ps: seq<Proc>, pid: string)
    requires forall j :: 0 <= j < |ps| ==> ps[j].remaining == ps[j].burst
    ensures Done(ps, pid) == 0
    decreases |ps|
  {
    if ps != [] {
      DoneUnstarted(ps[1..], pid);
    }
  }

  /** When no record has time left, the units run add up to the demand. */
  lemma {:induction false} DoneAll(ps: seq<Proc>, pid: string)
    requires forall j :: 0 <= j < |ps| ==> ps[j].remaining == 0
    ensures Done(ps, pid) == Demand(ps, pid)
    decreases |ps|
  {
    if ps != [] {
      DoneAll(ps[1..], pid);
    }
  }

  /** An IDLE segment only where every process had either finished by the
      start of the idle time or had not arrived before its end. */
  predicate IdleJustified(tl: seq<Segment>, ps: seq<Proc>)
  {
    forall k, i :: 0 <= k < |tl| && 0 <= i < |ps| && tl[k].owner == Idle ==>
      (ps[i].isCompleted && ps[i].completion <= tl[k].start) || ps[i].arrival >= tl[k].end
  }

  /** Appending a segment keeps IDLE justified when the segment is a
      process's, or is IDLE at a time when every record had finished or was
      still to arrive. */
  lemma IdleAppend(tl: seq<Segment>, ps: seq<Proc>, seg: Segment)
    requires IdleJustified(tl, ps)
    requires seg.owner == Idle ==> forall j :: 0 <= j < |ps| ==>
      (ps[j].isCompleted && ps[j].completion <= seg.start) || ps[j].arrival >= seg.end
    ensures IdleJustified(tl + [seg], ps)
  {
    var r := tl + [seg];
    forall k, j | 0 <= k < |r| && 0 <= j < |ps| && r[k].owner == Idle
      ensures (ps[j].isCompleted && ps[j].completion <= r[k].start) || ps[j].arrival >= r[k].end
    {
      if k < |tl| {
        assert r[k] == tl[k];
      }
    }
  }

  /** Running a record that had not finished, without moving its arrival,
      keeps every earlier IDLE segment justified. */
  lemma JustifiedRecords(tl: seq<Segment>, ps: seq<Proc>, qs: seq<Proc>, c: nat)
    requires IdleJustified(tl, ps)
    requires c < |ps| == |qs| && !ps[c].isCompleted && qs[c].arrival == ps[c].arrival
    requires forall j :: 0 <= j < |ps| && j != c ==> qs[j] == ps[j]
    ensures IdleJustified(tl, qs)
  {
    forall k, j | 0 <= k < |tl| && 0 <= j < |qs| && tl[k].owner == Idle
      ensures (qs[j].isCompleted && qs[j].completion <= tl[k].start) || qs[j].arrival >= tl[k].end
    {
      if j != c {
        assert qs[j] == ps[j];
      }
    }
  }

  /** `"[start] - label - [end]"`, the text the source appends. */
  function Render(s: Segment): string
  {
    var name := match s.owner
      case Idle => "IDLE"
      case Ran(pid) => pid;
    "[" + IntToString(s.start) + "] - " + name + " - [" + IntToString(s.end) + "]"
  }
}
