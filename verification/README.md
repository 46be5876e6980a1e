# CPU scheduling simulator: a Dafny model of its scheduling engine

This project models the core of a small CPU-scheduling simulator. That core has three parts:

- six scheduling policies over a list of process records:
  - FCFS;
  - non-preemptive SJF;
  - preemptive SJF (SRTF);
  - Round Robin;
  - non-preemptive Priority;
  - preemptive Priority;
- the process record those policies read and update;
- the integer parts of the statistics and the per-line rules of the CSV reader.

Each policy returns a timeline of `(start, label, end)` segments and the final records. The label is a pid or IDLE.

In the model, every mutable record becomes an immutable `Proc` value. Every policy loop becomes a pure function with a termination measure:

- FCFS and the non-preemptive policies recurse on the records still to run.
- The preemptive policies tick one time unit at a time and merge runs of one pid into a single segment.
- Round Robin steps one slice at a time over a FIFO queue of record indices.

Modules follow the program:

| module | file | models |
|---|---|---|
| `Processes` | process.dfy | `Process`: constructor defaults, `priority_num`, `calculate_times` |
| `Timeline` | timeline.dfy | segments, contiguity, merging, time per pid, rendering `"[s] - pid - [e]"` |
| `Select` | select.dfy | the ready set, Python `min` returning the first minimum, the jump to the next arrival |
| `Sorting` | sorting.dfy | `sorted(..., key=...)` as a stable sort |
| `Fcfs` | fcfs.dfy | `Scheduler.fcfs` |
| `NonPreemptive` | nonpreemptive.dfy | `sjf_non_preemptive` and `priority_non_preemptive`, one loop with a key parameter |
| `Preemptive` | preemptive.dfy | `sjf_preemptive` and `priority_preemptive`, one tick loop with a key parameter |
| `RoundRobin` | roundrobin.dfy | `round_robin` as written, and with the segment-start fix described under Findings |
| `Stats` | stats.dfy | the integer results of `calculate_statistics` |
| `Text`, `Csv` | text.dfy, csv.dfy | the string methods used, and the per-line rules of `read_csv` |

Where the code departs from the usual textbook reading, the model follows the code:

- An unrecognised priority class gives `priority_num` 3 inside `Process`. Only `read_csv` turns such a class into 'normal' first.
- Waiting time is `start_time - arrival` clamped at 0, not turnaround minus burst. `Processes.WaitingIsTurnaroundMinusBurst` shows the two agree for a record that ran in one piece.
- The Round Robin timeline as written is not gap-free (see Findings).
- `context_switches` is the record count minus one, whatever the schedule.

Every policy module except FCFS begins with `Process(p.pid, ...)` copies of the records. The scheduler file never imports `Process`, so those lines would fail as written. The model gives them their evident meaning: fresh copies of each record (`Processes.CopyAll`).

## Model

| member | source | states |
|---|---|---|
| `Processes.PriorityNum` | process.py:14-20 | The number is in 1..3. It is 1 exactly when the lower-cased class is 'high', 2 exactly when it is 'normal', and 3 for every other string. |
| `Processes.PriorityNumIgnoresCase` | process.py:15-20 | A class and its lower-cased form get the same number. |
| `Processes.NewProc` | process.py:2-12 | A new record keeps pid, arrival, burst and class. It has remaining = burst, start -1, completion, waiting and turnaround 0, not completed, and a priority number in 1..3. |
| `Processes.CopyOf` | scheduler.py:28 | A copy keeps the task, recomputes the priority number from the class, and resets the run state whatever the original had been through. |
| `Processes.CopyAll` | scheduler.py:54 | The copies are in input order, one per record, each unstarted, and have the same task when the input was well formed. |
| `Processes.CalculateTimes` | process.py:22-28 | Only waiting and turnaround change. When completion > 0, turnaround = completion - arrival and waiting = max(0, start - arrival) >= 0. Otherwise the record is unchanged. |
| `Processes.CalculateTimesIdempotent` | process.py:22-28 | Calling `calculate_times` twice gives the same record as calling it once. |
| `Processes.WaitingIsTurnaroundMinusBurst` | process.py:23-27 | For a record run in one piece from its start, the computed waiting equals turnaround minus burst. |
| `Text.Strip` | utils.py:27 | `strip()` returns an infix of the input. Everything cut off is white space, and what is left neither starts nor ends with white space. |
| `Text.StripIdempotent` | utils.py:16 | Stripping twice is stripping once. |
| `Text.Split` | utils.py:32 | `split(',')` gives at least one piece. No piece holds a comma, and joining the pieces with commas gives the line back. |
| `Text.SplitCount` | utils.py:32-33 | There is one more piece than there are commas. |
| `Text.Lower` | utils.py:39 | `lower()` keeps the length and maps each ASCII capital to its small letter. |
| `Text.Contains` | utils.py:21 | The `in` test holds exactly when the substring occurs at some offset. |
| `Text.LowerKeepsOccurrence` | utils.py:21 | An occurrence survives lower-casing of both strings. |
| `Text.ParseInt` | utils.py:37-38 | `int()` of a stripped field succeeds exactly on an optionally signed run of decimal digits. |
| `Text.ParseRendered` | utils.py:37-38 | Parsing the decimal rendering of any integer gives it back. |
| `Select.Pick` | scheduler.py:33-36 | No index exactly when no record is ready. Otherwise it returns the first index, in input order, of least key among the ready records, as `min(ready, key=...)` does. |
| `Select.FirstMinUnique` | scheduler.py:36 | The first-minimum choice is unique. |
| `Select.NextArrival` | scheduler.py:46 | The result is the arrival of a pending record and no pending record arrives earlier. |
| `Select.IdleJump` | scheduler.py:45-48 | When records are pending but none is ready, the next arrival is later than now and some record is ready then. |
| `Sorting.SortBy` | scheduler.py:9 | The result is a permutation of the input, sorted by key. |
| `Sorting.SortByStable` | scheduler.py:9 | For every key value, the records with that key keep their input order. |
| `Fcfs.ByArrival` | scheduler.py:9 | The caller's records are reordered by non-decreasing arrival. |
| `Fcfs.ByArrivalStable` | scheduler.py:9 | Records with equal arrival keep their input order. |
| `Fcfs.Fcfs` | scheduler.py:7-24 | The result has one record per input. The first runs from max(0, arrival) and each later one from max(previous completion, arrival). The timeline is contiguous from 0 and ends at the last completion. |
| `Fcfs.FcfsOrder` | scheduler.py:9-24 | The returned records are the caller's records in arrival order. Only start, completion and the completed flag are overwritten. |
| `Fcfs.FcfsTimes` | scheduler.py:12-22 | Each start is max(previous completion, arrival), from 0 for the first. Every record is completed, with completion = start + burst >= arrival + burst. |
| `Fcfs.RunIdleStep` | scheduler.py:13-15 | When the CPU is free before the next arrival, exactly one IDLE segment runs up to that arrival and time jumps there. |
| `Fcfs.FcfsTimeline` | scheduler.py:12-18 | With positive bursts, the timeline is contiguous from 0 and has no empty segment. IDLE appears only when no record was ready. Each pid's time matches its records' bursts. |
| `Fcfs.FcfsAllocated` | scheduler.py:18 | For any input, each pid is given exactly the CPU time its input records ask for. |
| `NonPreemptive.LoopReady` | scheduler.py:33-44 | With the first-minimum ready record picked, one segment `[t, t + burst]` runs it to completion. The rest of the run continues from t + burst without it. |
| `NonPreemptive.LoopIdle` | scheduler.py:45-48 | With nothing ready, one IDLE segment runs up to the least arrival among unfinished records, and the run continues from there. |
| `NonPreemptive.NonPreemptivePermutes` | scheduler.py:44-50 | The returned list holds every copy exactly once. |
| `NonPreemptive.NonPreemptiveIsFcfsRun` | scheduler.py:32-50 | The schedule equals FCFS's loop run over the records in completion order. Whenever that loop idles before a record, no later record arrives earlier than it. |
| `NonPreemptive.NonPreemptiveTimes` | scheduler.py:32-50 | Every record completes, starts no earlier than its arrival and completes one burst after its start. The first starts at max(0, arrival), and each later one at max(previous completion, arrival). A record dispatched later that had already arrived at a dispatch never has a smaller key than the record dispatched then. |
| `NonPreemptive.NonPreemptiveAllocated` | scheduler.py:39 | Each pid is given exactly the burst its input records ask for. |
| `NonPreemptive.NonPreemptiveTimeline` | scheduler.py:32-50 | With positive bursts, the timeline is contiguous from 0 to the last completion and has no empty segment. IDLE appears only when no record was ready. Each pid gets exactly its demand. |
| `Preemptive.TickEffect` | scheduler.py:65-81 | Only the picked record changes. Its remaining time drops by exactly 1 and stays >= 0. Its start is set only if it was -1. It is completed at the new time exactly when remaining reaches 0. Time advances by 1. |
| `Preemptive.DriveTicks` | scheduler.py:59-74 | While work is left, each tick runs the first ready record of least key (remaining time or priority number), even if that preempts the running record. |
| `Preemptive.DriveIdles` | scheduler.py:82-90 | While work is left but nothing is ready, the loop idles up to the next arrival. |
| `Preemptive.TickMerged` | scheduler.py:65-81 | With distinct pids, one tick of a ready record keeps the emitted timeline free of neighbouring segments with the same label. |
| `Preemptive.PreemptiveRecords` | scheduler.py:52-92 | The records come back in input order with their task unchanged. Each record with positive burst is completed with nothing remaining, started no earlier than its arrival, and completes between start + burst and the end of the timeline. A record with burst <= 0 is never touched. |
| `Preemptive.PreemptiveTimeline` | scheduler.py:59-90 | The timeline is contiguous from 0 with no empty segment. It ends at the latest completion: no record completes after its end, and its last segment closes at some record's completion. With distinct pids, no two neighbouring segments share a label. With positive bursts, IDLE appears only when nothing was ready and each pid gets exactly its demand. |
| `RoundRobin.Admit` | scheduler.py:123-125 | The newly queued indices are exactly the uncompleted, unqueued records that arrived in the window. They have no duplicates and are ordered by arrival. |
| `RoundRobin.SliceEffect` | scheduler.py:110-133 | A slice runs the queue head for min(quantum, remaining) > 0 units. It sets the start only once. It completes the record, at the new time, exactly when nothing remains. No other record changes. |
| `RoundRobin.SliceQueue` | scheduler.py:123-134 | After a slice the queue is the rest of the old queue, then the records that arrived during the slice, then the head again unless it completed. |
| `RoundRobin.SliceQueueOk` | scheduler.py:123-134 | A slice keeps the queue free of duplicates and of completed or unarrived records. Every arrived uncompleted record stays queued, and the count of completed records stays exact. |
| `RoundRobin.DriveSlice` | scheduler.py:107-109 | While records remain and the queue is non-empty, the loop takes one slice from the head. |
| `RoundRobin.IdleFills` | scheduler.py:140-148 | With an empty queue and records pending, the idle step queues at least one record. |
| `RoundRobin.RoundRobinRecords` | scheduler.py:94-151 | With distinct pids, positive bursts and quantum > 0, the records come back in input order with their task unchanged. Each one completes with nothing remaining, starts no earlier than its arrival, and completes between start + burst and the end of the timeline. |
| `RoundRobin.RoundRobinTimeline` | scheduler.py:111-145 | With distinct pids, positive bursts and quantum > 0, as written, the segments are ordered from 0 and non-empty. Each pid segment is at most one quantum long. Neighbouring segments never share a label, and IDLE appears only when nothing was ready. A pid gets no more than its demand. The timeline ends at the latest completion: no record completes after its end, and its last segment closes at some record's completion. |
| `RoundRobin.RoundRobinDropsSlices` | scheduler.py:111-131 | As written, one record with arrival 0 and burst 8 under quantum 4 yields the single segment [4, 8], so only 4 of its 8 units are drawn. |
| `RoundRobin.RoundRobinMergedTimeline` | scheduler.py:111-145 | With distinct pids, positive bursts and quantum > 0, and with the fix, the timeline is contiguous from 0 with no empty segment and ends at the latest completion, so it partitions `[0, latest completion)`. Neighbouring segments never share a label, IDLE appears only when nothing was ready, and each pid gets exactly its demand. |
| `RoundRobin.RoundRobinMergedKeepsSlices` | scheduler.py:119 | With the fix, the same input yields the single segment [0, 8]. |
| `Stats.MaxOf` | utils.py:88 | `max` returns an element of the list that no element exceeds. |
| `Stats.CompletedByCounts` | utils.py:99 | The count at t is the size of the set of records whose completion is <= t. |
| `Stats.CompletedByAll` | utils.py:99-100 | The count equals the number of records exactly when every completion is <= t. |
| `Stats.Throughput` | utils.py:96-100 | There are four counts, one per checkpoint 50, 100, 150 and 200. They never decrease from one checkpoint to the next and never exceed the record count. |
| `Stats.ThroughputCounts` | utils.py:97-100 | Each count is the number of records done by its checkpoint. |
| `Stats.ThroughputAllDone` | utils.py:96-100 | Once every record is done by a checkpoint, that count and all later ones equal the record count. |
| `Stats.ThroughputUnchanged` | utils.py:82-100 | `calculate_times` leaves completions alone, so the throughput is the same before and after it. |
| `Stats.CalculateAll` | utils.py:82-83 | `calculate_times` is applied to each record in place, in order. |
| `Stats.CalculateAllIdempotent` | utils.py:82-83 | Computing the statistics again recalculates nothing. |
| `Stats.CalculateStatistics` | utils.py:74-108 | The empty list gives no statistics. Otherwise the result holds the recalculated records, the throughput of the input, the total burst, and a context-switch count of exactly n - 1. |
| `Stats.StatisticsMaxWaiting` | utils.py:86-88 | `max_waiting` bounds every recalculated waiting time and is one of them. The waiting total is at most n times it. |
| `Stats.StatisticsMaxTurnaround` | utils.py:91-93 | `max_turnaround` bounds every recalculated turnaround and is one of them. The turnaround total is at most n times it. |
| `Stats.StatisticsTotalTime` | utils.py:104 | The total time is the latest completion among the records. |
| `Stats.MaxWaitingBelowTurnaround` | utils.py:86-93 | For non-empty records that each started no earlier than their arrival and completed, at a positive time, after starting, 0 <= `max_waiting` < `max_turnaround`. |
| `Csv.NormalizePriority` | utils.py:39-43 | The class is stripped and lower-cased. It is kept when it is 'high', 'normal' or 'low' and becomes 'normal' otherwise. |
| `Csv.NormalizePriorityIdempotent` | utils.py:39-43 | A normalised class is left as it is by a second normalisation. |
| `Csv.NormalizedPriorityNum` | utils.py:42-46 | A record read from a file gets priority number 1, 2 or 3 exactly as its class is 'high', 'normal' or 'low'. |
| `Csv.IsHeaderIff` | utils.py:16-23 | The first line is skipped exactly when its stripped, lower-cased form contains "process_id". The case-sensitive "Process_ID" test adds nothing. |
| `Csv.ParseLine` | utils.py:27-47 | A line yields a record exactly when the stripped line is non-empty, has at least four comma-separated fields, and has integer second and third fields. Fields after the fourth are ignored. The record is a fresh `Process` with a known class. |
| `Csv.ReadCsv` | utils.py:8-47 | The first line is skipped exactly when its stripped, lower-cased form contains "process_id". The records are those of the remaining lines that parse: one for each such line, none for any other, in increasing line order. An empty file gives no records. |
| `Csv.ParseLinesConcat` | utils.py:26-47 | Records keep file order: two runs of lines give the first run's records followed by the second's. |
| `Csv.DroppedLine` | utils.py:28-52 | A blank, short or unparsable line is dropped without affecting the lines around it. |
| `Csv.KeptLine` | utils.py:46-47 | A line that parses adds its record at its place in file order. |
| `Csv.ParseLinesFrom` | utils.py:26-47 | Every loaded record is the parse of one of the lines. |
| `Csv.ParseLinesRecords` | utils.py:39-47 | Every loaded record has a known class and an untouched run state. |
| `Csv.ParseFormatted` | utils.py:32-47 | A record written as `pid,arrival,burst,class` reads back as the same record. This needs a plain pid (non-empty, no comma, no surrounding space) and a known class. |
| `Csv.HeaderLineIsHeader` | utils.py:21 | The data files' header line is recognised as a header. |
| `Csv.ReadCsvFormatted` | utils.py:16-47 | A file made of the header and written records reads back as fresh copies of those records, in order. |

## Left out

- I/O and printing are not modelled: `open`/`readlines`, every `print`, `save_timeline`, `save_results`, `generate_report`, and all of `main.py` (prompts, directories, wall-clock timing). `read_csv` is modelled on the list of lines the file holds.
- Exceptions are modelled only where they decide the result. In `read_csv`, an empty file (whose `lines[0]` raises) gives no records, and a `ValueError` skips the line. A missing file is I/O.
- Floating point is not modelled. The averages, `cpu_efficiency` and `round(...)` are left out. The model keeps their integer operands instead: the waiting and turnaround totals, the total burst and the total time.
- The dictionary returned by `calculate_statistics` is a `Statistics` datatype. The algorithm and case names it copies through are left out.
- Python `int()` is modelled on an already stripped field as an optional sign followed by ASCII digits. Underscores and non-ASCII digits, which Python also accepts, are not modelled.
- `str.lower` is modelled for ASCII letters only. Other characters pass through unchanged.
- `queue.Queue` is a sequence of record indices used first-in first-out. The membership test by pid is a predicate over that sequence.
- `Timeline.Render` gives the `"[s] - label - [e]"` text of a segment. No property is stated about it beyond its definition.
- `NonPreemptive.SjfNonPreemptive`, `NonPreemptive.PriorityNonPreemptive`, `Preemptive.SjfPreemptive` and `Preemptive.PriorityPreemptive` are the parameterised loops with a fixed key. Their properties are stated once, for any key, on `NonPreemptive.NonPreemptive` and `Preemptive.Preemptive`.
- Round Robin requires quantum > 0. With quantum <= 0 the source never finishes: no slice ever reduces the remaining time.
- `RoundRobin.Drive` returns its state if the queue is empty, nothing is pending, and still not every record is counted as completed. The source would spin forever there. The proved queue invariant shows this state is never reached from the initial state.
- The pending-segment flushes in the idle branches (scheduler.py:83-85, 136-138, 210-212) are modelled but have no lemma of their own. The loop invariants `Preemptive.Clock` and `RoundRobin.QueueOk` imply they never fire: an open segment's record is always still ready or queued.
- `RoundRobin.RoundRobinTimeline`: states only that each pid gets at most its demand, and orders the segments without claiming they are contiguous. As written the code drops slices (see Findings), so equality and gap-freedom do not hold.
- `RoundRobin.RoundRobinRecords`, `RoundRobin.RoundRobinTimeline`, `RoundRobin.RoundRobinMergedTimeline`: assume distinct pids and positive bursts. Distinct pids and positive bursts are the caller's obligation; for other input the results are not specified. The code itself still runs on such input. A burst of 0 completes at once with the empty segment `[t] - pid - [t]`. A negative burst moves `current_time` backwards and still completes. Records sharing a pid are told apart only by pid in the queue test, so one of them can be kept out of the queue, after which the idle step can move the clock backwards.
- `Preemptive.PreemptiveTimeline`: assumes distinct pids for the merging claim and positive bursts for the demand and IDLE claims. Records sharing a pid are merged into one segment by the source itself.
- `Fcfs.FcfsTimeline`, `NonPreemptive.NonPreemptiveTimeline`: assume positive bursts. A burst of 0 gives an empty segment in the source.

## Findings

| source | as written | input that shows it | evidently intended | confidence | as-written member | corrected member |
|---|---|---|---|---|---|---|
| scheduler.py:119 | `last_start = current_time` at every slice. The segment of a process that keeps the CPU for consecutive slices is emitted only from the start of its last slice, so the earlier slices vanish from the timeline. | One process with arrival 0 and burst 8, quantum 4: the timeline is `[4] - P1 - [8]` alone. | Move `last_start` only when the running pid changes, giving `[0] - P1 - [8]`, a gap-free timeline in which every pid's time equals its bursts. | not executed | `RoundRobin.RoundRobinDropsSlices` | `RoundRobin.RoundRobinMergedTimeline` |
