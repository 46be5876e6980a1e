/** The record-level rules of `read_csv`, on the lines of the file as
    `readlines` returns them: a header line is skipped, blank lines and lines
    with fewer than four comma-separated fields are dropped, fields beyond
    the fourth are ignored, a line whose arrival or burst is not an integer
    is skipped, and the priority class is stripped, lower-cased and
    normalised to one of 'high', 'normal' and 'low'. */
module Csv {

  import opened Wrappers
  import opened Text
  import opened Processes

  /** The priority classes `read_csv` keeps as they are. */
  predicate KnownPriority(p: string)
  {
    p == "high" || p == "normal" || p == "low"
  }

  /** `priority = parts[3].strip().lower()`, replaced by 'normal' when it is
      not a known class. */
  function NormalizePriority(field: string): (r: string)
    ensures KnownPriority(r)
    ensures KnownPriority(Lower(Strip(field))) ==> r == Lower(Strip(field))
    ensures !KnownPriority(Lower(Strip(field))) ==> r == "normal"
  {
    var p := Lower(Strip(field));
    if KnownPriority(p) then p else "normal"
  }

  /** The known classes are already stripped and lower-case. */
  lemma KnownPriorityClean(r: string)
    requires KnownPriority(r)
    ensures Strip(r) == r && Lower(r) == r
  {
    if r == "high" {
      Clean("high");
    } else if r == "normal" {
      Clean("normal");
    } else {
      Clean("low");
    }
  }

  /** A lower-case word is its own `strip().lower()`. */
  lemma Clean(w: string)
    requires w != [] && forall i :: 0 <= i < |w| ==> 'a' <= w[i] <= 'z'
    ensures Strip(w) == w && Lower(w) == w
  {
    LetterNotSpace(w[0]);
    LetterNotSpace(w[|w| - 1]);
    StripStripped(w);
    LowerFixed(w);
  }

  lemma LetterNotSpace(c: char)
    requires 'a' <= c <= 'z'
    ensures !IsSpace(c)
  {
  }

  /** A string with no capital letter is its own lower-case form. */
  lemma LowerFixed(w: string)
    requires forall i :: 0 <= i < |w| ==> !('A' <= w[i] <= 'Z')
    ensures Lower(w) == w
  {
    assert forall i :: 0 <= i < |w| ==> Lower(w)[i] == w[i];
  }

  /** A normalised class is left as it is by a second normalisation. */
  lemma NormalizePriorityIdempotent(field: string)
    ensures NormalizePriority(NormalizePriority(field)) == NormalizePriority(field)
  {
    KnownPriorityClean(NormalizePriority(field));
  }

  /** The priority number of a normalised class is 1, 2 or 3 as the class is
      'high', 'normal' or 'low'; an unknown class read from a file therefore
      ends up as 2, not as the 3 `Process` gives it directly. */
  lemma NormalizedPriorityNum(field: string)
    ensures var r := NormalizePriority(field);
      PriorityNum(r) == (if r == "high" then 1 else if r == "normal" then 2 else 3)
  {
    KnownPriorityClean(NormalizePriority(field));
  }

  /** The header test on the stripped first line: it contains "Process_ID",
      or "process_id" once lower-cased. */
  predicate IsHeader(line: string)
  {
    var first := Strip(line);
    Contains(first, "Process_ID") || Contains(Lower(first), "process_id")
  }

  lemma LowerMark()
    ensures Lower("Process_ID") == "process_id"
  {
    var s := "Process_ID";
    var r := Lower(s);
    assert r[0] == LowerChar('P') == 'p';
    assert r[1] == 'r' && r[2] == 'o' && r[3] == 'c' && r[4] == 'e' && r[5] == 's' && r[6] == 's';
    assert r[7] == LowerChar('_') == '_';
    assert r[8] == LowerChar('I') == 'i';
    assert r[9] == LowerChar('D') == 'd';
  }

  /** An occurrence of "Process_ID" is one of "process_id" once lower-cased. */
  lemma MarkLowered(first: string)
    requires Contains(first, "Process_ID")
    ensures Contains(Lower(first), "process_id")
  {
    LowerKeepsOccurrence(first, "Process_ID");
    LowerMark();
  }

  /** The first test is subsumed by the second: a line is a header exactly
      when its lower-cased form contains "process_id". */
  lemma IsHeaderIff(line: string)
    ensures IsHeader(line) <==> Contains(Lower(Strip(line)), "process_id")
  {
    if Contains(Strip(line), "Process_ID") {
      MarkLowered(Strip(line));
    }
  }

  /** One line after the header: `None` when the line is dropped or skipped,
      otherwise the record `Process(pid, arrival, burst, priority)` built
      from the stripped fields. */
  function ParseLine(line: string): (r: Option<Proc>)
    ensures r.Some? <==>
      var l := Strip(line);
      var parts := Split(l, ',');
      && l != []
      && |parts| >= 4
      && IsIntLiteral(Strip(parts[1]))
      && IsIntLiteral(Strip(parts[2]))
    ensures r.Some? ==>
      var parts := Split(Strip(line), ',');
      && r.value == NewProc(Strip(parts[0]), ParseInt(Strip(parts[1])).value,
                            ParseInt(Strip(parts[2])).value, NormalizePriority(parts[3]))
      && KnownPriority(r.value.priority)
      && Unstarted(r.value)
  {
    var l := Strip(line);
    if l == [] then None
    else
      var parts := Split(l, ',');
      if |parts| < 4 then None
      else
        var arrival := ParseInt(Strip(parts[1]));
        var burst := ParseInt(Strip(parts[2]));
        if arrival.None? || burst.None? then None
        else Some(NewProc(Strip(parts[0]), arrival.value, burst.value, NormalizePriority(parts[3])))
  }

  /** The values of the `Some`s, in order: what the loop appends. */
  function Somes<T>(os: seq<Option<T>>): (vs: seq<T>)
    ensures |vs| <= |os|
  {
    if os == [] then []
    else match os[0]
      case None => Somes(os[1..])
      case Some(v) => [v] + Somes(os[1..])
  }

  lemma {:induction false} SomesConcat<T>(a: seq<Option<T>>, b: seq<Option<T>>)
    ensures Somes(a + b) == Somes(a) + Somes(b)
  {
    if a == [] {
      assert a + b == b;
    } else {
      assert (a + b)[1..] == a[1..] + b;
      SomesConcat(a[1..], b);
    }
  }

  lemma SomesSingle<T>(o: Option<T>)
    ensures Somes([o]) == if o.Some? then [o.value] else []
  {
    assert [o][1..] == [];
  }

  /** Each kept value comes from some entry. */
  lemma {:induction false} SomesFrom<T>(os: seq<Option<T>>, k: nat)
    requires k < |Somes(os)|
    ensures exists j :: 0 <= j < |os| && os[j] == Some(Somes(os)[k])
  {
    match os[0]
    case None =>
      SomesFrom(os[1..], k);
      var j :| 0 <= j < |os[1..]| && os[1..][j] == Some(Somes(os[1..])[k]);
      assert os[j + 1] == Some(Somes(os)[k]);
    case Some(v) =>
      if k == 0 {
        assert os[0] == Some(Somes(os)[k]);
      } else {
        SomesFrom(os[1..], k - 1);
        var j :| 0 <= j < |os[1..]| && os[1..][j] == Some(Somes(os[1..])[k - 1]);
        assert os[j + 1] == Some(Somes(os)[k]);
      }
  }

  /** The outcome of every line. */
  function ParseEach(lines: seq<string>): (os: seq<Option<Proc>>)
    ensures |os| == |lines|
    ensures forall j :: 0 <= j < |lines| ==> os[j] == ParseLine(lines[j])
  {
    if lines == [] then [] else [ParseLine(lines[0])] + ParseEach(lines[1..])
  }

  lemma {:induction false} ParseEachConcat(a: seq<string>, b: seq<string>)
    ensures ParseEach(a + b) == ParseEach(a) + ParseEach(b)
  {
    if a == [] {
      assert a + b == b;
    } else {
      assert (a + b)[1..] == a[1..] + b;
      assert (a + b)[0] == a[0];
      ParseEachConcat(a[1..], b);
    }
  }

  lemma ParseEachSingle(line: string)
    ensures ParseEach([line]) == [ParseLine(line)]
  {
    assert [line][1..] == [];
  }

  /** The loop over the lines after the header: the records of the lines that
      parse, in file order. */
  function ParseLines(lines: seq<string>): (ps: seq<Proc>)
    ensures |ps| <= |lines|
  {
    Somes(ParseEach(lines))
  }

  /** `read_csv` on the lines of a file: the first line is skipped when its
      lower-cased, stripped form contains "process_id", and the records
      are those of the remaining lines that parse, one per such line, in
      file order. An empty file makes `lines[0]` fail, which the source
      catches, returning the empty list. */
  function ReadCsv(lines: seq<string>): (ps: seq<Proc>)
    ensures var skip := if lines != [] && Contains(Lower(Strip(lines[0])), "process_id") then 1 else 0;
      exists idx :: PickedLines(lines, skip, idx, ps)
  {
    if lines == [] then
      LinesPicked(lines, 0);
      []
    else if IsHeader(lines[0]) then
      IsHeaderIff(lines[0]);
      LinesPicked(lines, 1);
      ParseLines(lines[1..])
    else
      IsHeaderIff(lines[0]);
      LinesPicked(lines, 0);
      assert lines[0..] == lines;
      ParseLines(lines)
  }

  /** `idx` lists, in increasing order, exactly the lines from `skip` on
      that parse, and `ps` holds their records, one for each. */
  predicate PickedLines(lines: seq<string>, skip: nat, idx: seq<nat>, ps: seq<Proc>)
  {
    && |idx| == |ps|
    && (forall k :: 0 <= k < |idx| ==> skip <= idx[k] < |lines| && ParseLine(lines[idx[k]]) == Some(ps[k]))
    && (forall a, b :: 0 <= a < b < |idx| ==> idx[a] < idx[b])
    && (forall j :: skip <= j < |lines| && ParseLine(lines[j]).Some? ==> j in idx)
  }

  /** `idx` lists, in increasing order, exactly the entries from `skip` on
      that are `Some`, and `vs` holds their values. */
  predicate Picked<T(==)>(os: seq<Option<T>>, skip: nat, idx: seq<nat>, vs: seq<T>)
  {
    && |idx| == |vs|
    && (forall k :: 0 <= k < |idx| ==> skip <= idx[k] < |os| && os[idx[k]] == Some(vs[k]))
    && (forall a, b :: 0 <= a < b < |idx| ==> idx[a] < idx[b])
    && (forall j :: skip <= j < |os| && os[j].Some? ==> j in idx)
  }

  /** The entries from `i` on that are `Some`. */
  function SomesAt<T>(os: seq<Option<T>>, i: nat): seq<nat>
    decreases |os| - i
  {
    if i >= |os| then []
    else if os[i].Some? then [i] + SomesAt(os, i + 1)
    else SomesAt(os, i + 1)
  }

  /** The values kept from `os[i..]` are those of its `Some` entries, in
      order. */
  lemma {:induction false} SomesPicked<T>(os: seq<Option<T>>, i: nat)
    requires i <= |os|
    ensures Picked(os, i, SomesAt(os, i), Somes(os[i..]))
    decreases |os| - i
  {
    if i < |os| {
      SomesPicked(os, i + 1);
      assert os[i..][1..] == os[i + 1..];
      match os[i]
      case Some(v) =>
        PickedKept(os, i, SomesAt(os, i + 1), Somes(os[i + 1..]), v);
      case None =>
    }
  }

  lemma PickedKept<T>(os: seq<Option<T>>, i: nat, idx: seq<nat>, vs: seq<T>, v: T)
    requires i < |os| && os[i] == Some(v) && Picked(os, i + 1, idx, vs)
    ensures Picked(os, i, [i] + idx, [v] + vs)
  {
    var idx' := [i] + idx;
    var vs' := [v] + vs;
    forall k | 0 < k < |idx'|
      ensures idx'[k] == idx[k - 1] && vs'[k] == vs[k - 1]
    {
    }
  }

  /** The records of the lines from `skip` on are those of the lines that
      parse, in order. */
  lemma LinesPicked(lines: seq<string>, skip: nat)
    requires skip <= |lines|
    ensures exists idx :: PickedLines(lines, skip, idx, ParseLines(lines[skip..]))
  {
    var os := ParseEach(lines);
    SomesPicked(os, skip);
    ParseEachConcat(lines[..skip], lines[skip..]);
    assert lines[..skip] + lines[skip..] == lines;
    assert os[skip..] == ParseEach(lines[skip..]);
    var idx := SomesAt(os, skip);
    assert PickedLines(lines, skip, idx, ParseLines(lines[skip..]));
  }

  /** Loaded records keep file order: reading two runs of lines one after
      the other gives the records of the first followed by those of the
      second, whatever lines in either were dropped. */
  lemma ParseLinesConcat(a: seq<string>, b: seq<string>)
    ensures ParseLines(a + b) == ParseLines(a) + ParseLines(b)
  {
    ParseEachConcat(a, b);
    SomesConcat(ParseEach(a), ParseEach(b));
  }

  /** A dropped or skipped line changes nothing around it. */
  lemma DroppedLine(a: seq<string>, line: string, b: seq<string>)
    requires ParseLine(line).None?
    ensures ParseLines(a + [line] + b) == ParseLines(a) + ParseLines(b)
  {
    ParseLinesConcat(a + [line], b);
    ParseLinesConcat(a, [line]);
    ParseEachSingle(line);
    SomesSingle(ParseLine(line));
  }

  /** A line that parses adds its record at its place. */
  lemma KeptLine(a: seq<string>, line: string, b: seq<string>, p: Proc)
    requires ParseLine(line) == Some(p)
    ensures ParseLines(a + [line] + b) == ParseLines(a) + [p] + ParseLines(b)
  {
    ParseLinesConcat(a + [line], b);
    ParseLinesConcat(a, [line]);
    ParseEachSingle(line);
    SomesSingle(Some(p));
  }

  /** A first line that parses puts its record first. */
  lemma KeptFirst(line: string, rest: seq<string>, p: Proc)
    requires ParseLine(line) == Some(p)
    ensures ParseLines([line] + rest) == [p] + ParseLines(rest)
  {
    var os := ParseEach([line] + rest);
    assert ([line] + rest)[1..] == rest;
    assert os == [Some(p)] + ParseEach(rest);
    assert os[1..] == ParseEach(rest);
  }

  /** Every loaded record is the parse of one of the lines. */
  lemma ParseLinesFrom(lines: seq<string>, k: nat)
    requires k < |ParseLines(lines)|
    ensures exists j :: 0 <= j < |lines| && ParseLine(lines[j]) == Some(ParseLines(lines)[k])
  {
    SomesFrom(ParseEach(lines), k);
  }

  /** Every loaded record has a known priority class and an untouched run
      state. */
  lemma ParseLinesRecords(lines: seq<string>)
    ensures forall k :: 0 <= k < |ParseLines(lines)| ==>
      KnownPriority(ParseLines(lines)[k].priority) && Unstarted(ParseLines(lines)[k])
  {
    forall k | 0 <= k < |ParseLines(lines)|
      ensures KnownPriority(ParseLines(lines)[k].priority) && Unstarted(ParseLines(lines)[k])
    {
      ParseLinesFrom(lines, k);
    }
  }

  // ---- writing a record back as a line --------------------------------------

  /** A field that survives `strip()` and `split(',')` unchanged. */
  predicate PlainField(f: string)
  {
    f != [] && !IsSpace(f[0]) && !IsSpace(f[|f| - 1]) && ',' !in f
  }

  /** The line `pid,arrival,burst,priority`. */
  function FormatLine(pid: string, arrival: int, burst: int, priority: string): string
  {
    Join([pid, IntToString(arrival), IntToString(burst), priority], ',')
  }

  /** Splitting undoes joining when no part contains the separator. */
  lemma {:induction false} SplitJoin(parts: seq<string>, sep: char)
    requires |parts| >= 1
    requires forall k :: 0 <= k < |parts| ==> sep !in parts[k]
    ensures Split(Join(parts, sep), sep) == parts
    decreases |parts|
  {
    var s := Join(parts, sep);
    if |parts| == 1 {
      assert IndexOf(s, sep) == |s|;
    } else {
      var p0 := parts[0];
      var tail := Join(parts[1..], sep);
      assert s == p0 + [sep] + tail;
      assert s[|p0|] == sep;
      assert forall k :: 0 <= k < |p0| ==> s[k] == p0[k];
      var i := IndexOf(s, sep);
      assert i == |p0|;
      assert s[..i] == p0;
      assert s[i + 1..] == tail;
      SplitJoin(parts[1..], sep);
    }
  }

  /** Decimal renderings are plain fields. */
  lemma IntPlain(n: int)
    ensures PlainField(IntToString(n))
  {
    var s := IntToString(n);
    if n < 0 {
      assert s[1..] == NatToString(-n);
      assert IsDigit(s[|s| - 1]);
    }
    assert forall k :: 0 <= k < |s| ==> s[k] == '-' || IsDigit(s[k]) by {
      if n < 0 {
        forall k | 0 <= k < |s| ensures s[k] == '-' || IsDigit(s[k]) {
          if k > 0 {
            assert s[k] == s[1..][k - 1];
          }
        }
      }
    }
  }

  /** The line spelled out. */
  lemma FormatLineShape(pid: string, a: string, b: string, priority: string)
    ensures Join([pid, a, b, priority], ',') == pid + [','] + a + [','] + b + [','] + priority
  {
    var parts := [pid, a, b, priority];
    assert parts[1..] == [a, b, priority];
    assert [a, b, priority][1..] == [b, priority];
    assert [b, priority][1..] == [priority];
    assert Join([priority], ',') == priority;
    var j2 := Join([b, priority], ',');
    assert j2 == b + [','] + Join([priority], ',');
    var j1 := Join([a, b, priority], ',');
    assert j1 == a + [','] + j2;
    assert Join(parts, ',') == pid + [','] + j1;
  }

  /** A line made of plain fields has nothing to strip. */
  lemma FormatLineStripped(pid: string, arrival: int, burst: int, priority: string)
    requires PlainField(pid) && PlainField(priority)
    ensures var line := FormatLine(pid, arrival, burst, priority);
      Strip(line) == line
  {
    var a := IntToString(arrival);
    var b := IntToString(burst);
    FormatLineShape(pid, a, b, priority);
    var line := FormatLine(pid, arrival, burst, priority);
    assert line[0] == pid[0];
    assert line[|line| - 1] == priority[|priority| - 1];
    StripStripped(line);
  }

  /** A line made of plain fields splits back into them. */
  lemma FormatLineSplit(pid: string, arrival: int, burst: int, priority: string)
    requires PlainField(pid) && PlainField(priority)
    ensures Split(FormatLine(pid, arrival, burst, priority), ',') ==
            [pid, IntToString(arrival), IntToString(burst), priority]
  {
    var parts := [pid, IntToString(arrival), IntToString(burst), priority];
    IntPlain(arrival);
    IntPlain(burst);
    SplitJoin(parts, ',');
  }

  /** A known class is kept by the normalisation. */
  lemma NormalizeKnown(priority: string)
    requires KnownPriority(priority)
    ensures NormalizePriority(priority) == priority
  {
    KnownPriorityClean(priority);
  }

  /** A line whose stripped form splits into `parts`, at least four of them,
      with integer second and third fields, reads as the record built from
      those fields. */
  lemma ParseLineFields(line: string, parts: seq<string>)
    requires Strip(line) != [] && Split(Strip(line), ',') == parts && |parts| >= 4
    requires IsIntLiteral(Strip(parts[1])) && IsIntLiteral(Strip(parts[2]))
    ensures ParseLine(line) == Some(NewProc(Strip(parts[0]), ParseInt(Strip(parts[1])).value,
                                            ParseInt(Strip(parts[2])).value, NormalizePriority(parts[3])))
  {
  }

  /** A record written as a line with plain fields and a known priority class
      reads back as the same record. */
  lemma ParseFormatted(pid: string, arrival: int, burst: int, priority: string)
    requires PlainField(pid) && KnownPriority(priority)
    ensures ParseLine(FormatLine(pid, arrival, burst, priority)) == Some(NewProc(pid, arrival, burst, priority))
  {
    var a := IntToString(arrival);
    var b := IntToString(burst);
    KnownPriorityClean(priority);
    NormalizeKnown(priority);
    var line := FormatLine(pid, arrival, burst, priority);
    FormatLineStripped(pid, arrival, burst, priority);
    FormatLineSplit(pid, arrival, burst, priority);
    IntPlain(arrival);
    IntPlain(burst);
    StripStripped(pid);
    StripStripped(a);
    StripStripped(b);
    ParseRendered(arrival);
    ParseRendered(burst);
    ParseLineFields(line, [pid, a, b, priority]);
  }

  // ---- a whole file ---------------------------------------------------------

  /** The header line the data files carry. */
  const HeaderLine: string := "Process_ID" + ",Arrival_Time,CPU_Burst_Time,Priority"

  /** A line that starts with "Process_ID" and does not end in white space
      is a header. */
  lemma StartsWithMark(line: string, rest: string)
    requires line == "Process_ID" + rest && !IsSpace(line[|line| - 1])
    ensures IsHeader(line)
  {
    PrefixAt(line, "Process_ID", rest);
    assert line[0] == 'P';
    StripStripped(line);
  }

  lemma PrefixAt(line: string, mark: string, rest: string)
    requires line == mark + rest
    ensures ContainsAt(line, mark, 0)
  {
    assert line[..|mark|] == mark;
  }

  lemma HeaderLineIsHeader()
    ensures IsHeader(HeaderLine)
  {
    var rest := ",Arrival_Time,CPU_Burst_Time,Priority";
    assert HeaderLine[|HeaderLine| - 1] == rest[|rest| - 1] == 'y';
    StartsWithMark(HeaderLine, rest);
  }

  /** The records written one per line. */
  function FormatAll(ps: seq<Proc>): (lines: seq<string>)
    ensures |lines| == |ps|
  {
    if ps == [] then []
    else [FormatLine(ps[0].pid, ps[0].arrival, ps[0].burst, ps[0].priority)] + FormatAll(ps[1..])
  }

  /** Records whose pid is a plain field and whose class is known. */
  predicate Writable(ps: seq<Proc>)
  {
    forall k :: 0 <= k < |ps| ==> PlainField(ps[k].pid) && KnownPriority(ps[k].priority)
  }

  /** A written record in front of other lines reads back in front of
      their records. */
  lemma ParseFormattedStep(p: Proc, rest: seq<string>)
    requires PlainField(p.pid) && KnownPriority(p.priority)
    ensures ParseLines([FormatLine(p.pid, p.arrival, p.burst, p.priority)] + rest) == [CopyOf(p)] + ParseLines(rest)
  {
    var line := FormatLine(p.pid, p.arrival, p.burst, p.priority);
    ParseFormatted(p.pid, p.arrival, p.burst, p.priority);
    KeptFirst(line, rest, CopyOf(p));
  }

  /** Written records read back, in order, as fresh copies of themselves. */
  lemma {:induction false} ParseFormattedAll(ps: seq<Proc>)
    requires Writable(ps)
    ensures ParseLines(FormatAll(ps)) == CopyAll(ps)
  {
    if ps != [] {
      var p := ps[0];
      assert Writable(ps[1..]);
      ParseFormattedAll(ps[1..]);
      ParseFormattedStep(p, FormatAll(ps[1..]));
    }
  }

  /** A file made of the header and the written records reads back as fresh
      copies of the records, in file order. */
  lemma ReadCsvFormatted(ps: seq<Proc>)
    requires Writable(ps)
    ensures ReadCsv([HeaderLine] + FormatAll(ps)) == CopyAll(ps)
  {
    HeaderLineIsHeader();
    ParseFormattedAll(ps);
    assert ([HeaderLine] + FormatAll(ps))[1..] == FormatAll(ps);
  }
}
