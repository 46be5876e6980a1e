/** String helpers standing in for the Python `str` methods the core relies on:
    `lower`, `strip`, `split(',')`, the `in` substring test and `int()` on a
    decimal field. Only the characters these methods treat specially are
    modelled; everything else is passed through unchanged. */
module Text {

  import opened Wrappers

  /** `str.lower` on one character, for the ASCII letters. */
  function LowerChar(c: char): char
  {
    if 'A' <= c <= 'Z' then (c as int + 32) as char else c
  }

  /** `str.lower`: every character mapped by `LowerChar`, length kept. */
  function Lower(s: string): (r: string)
    ensures |r| == |s|
    ensures forall i :: 0 <= i < |s| ==> r[i] == LowerChar(s[i])
  {
    if s == [] then [] else [LowerChar(s[0])] + Lower(s[1..])
  }

  lemma LowerIdempotent(s: string)
    ensures Lower(Lower(s)) == Lower(s)
  {
  }

  /** The characters `str.isspace` accepts (the Unicode White_Space set used by
      `str.strip()` with no argument). */
  predicate IsSpace(c: char)
  {
    || c == ' ' || ('\t' <= c <= '\r') || ('\U{1c}' <= c <= '\U{1f}')
    || c == '\U{85}' || c == '\U{a0}' || c == '\U{1680}'
    || ('\U{2000}' <= c <= '\U{200a}') || c == '\U{2028}' || c == '\U{2029}'
    || c == '\U{202f}' || c == '\U{205f}' || c == '\U{3000}'
  }

  /** Leading white space removed. */
  function TrimStart(s: string): (r: string)
    ensures |r| <= |s| && r == s[|s| - |r|..]
    ensures forall i :: 0 <= i < |s| - |r| ==> IsSpace(s[i])
    ensures r == [] || !IsSpace(r[0])
  {
    if s != [] && IsSpace(s[0]) then TrimStart(s[1..]) else s
  }

  /** Trailing white space removed. */
  function TrimEnd(s: string): (r: string)
    ensures |r| <= |s| && r == s[..|r|]
    ensures forall i :: |r| <= i < |s| ==> IsSpace(s[i])
    ensures r == [] || !IsSpace(r[|r| - 1])
  {
    if s != [] && IsSpace(s[|s| - 1]) then TrimEnd(s[..|s| - 1]) else s
  }

  /** `str.strip()`: the longest infix of `s` that neither starts nor ends
      with white space, everything cut off being white space. */
  function Strip(s: string): (r: string)
    ensures exists i, j ::
              && 0 <= i <= j <= |s| && r == s[i..j]
              && (forall k :: 0 <= k < i ==> IsSpace(s[k]))
              && (forall k :: j <= k < |s| ==> IsSpace(s[k]))
    ensures r == [] || (!IsSpace(r[0]) && !IsSpace(r[|r| - 1]))
  {
    var t := TrimStart(s);
    var r := TrimEnd(t);
    assert r == s[|s| - |t|..|s| - |t| + |r|];
    r
  }

  /** A string with nothing to strip is its own `strip()`. */
  lemma {:induction false} StripStripped(s: string)
    requires s == [] || (!IsSpace(s[0]) && !IsSpace(s[|s| - 1]))
    ensures Strip(s) == s
  {
    assert TrimStart(s) == s;
    assert TrimEnd(s) == s;
  }

  /** `str.strip()` is idempotent. */
  lemma StripIdempotent(s: string)
    ensures Strip(Strip(s)) == Strip(s)
  {
    StripStripped(Strip(s));
  }

  /** Index of the first `c` in `s`, or `|s|` when there is none. */
  function IndexOf(s: string, c: char): (i: nat)
    ensures i <= |s|
    ensures i < |s| ==> s[i] == c
    ensures forall k :: 0 <= k < i ==> s[k] != c
  {
    if s == [] then 0
    else if s[0] == c then 0
    else 1 + IndexOf(s[1..], c)
  }

  /** The parts joined back together with `sep` between neighbours. */
  function Join(parts: seq<string>, sep: char): string
    requires |parts| >= 1
  {
    if |parts| == 1 then parts[0] else parts[0] + [sep] + Join(parts[1..], sep)
  }

  /** `str.split(sep)` with a one-character separator: the pieces between
      separators, empty pieces included, so that joining them gives back the
      string. A string without `sep` is one piece. */
  function Split(s: string, sep: char): (parts: seq<string>)
    ensures |parts| >= 1
    ensures forall k :: 0 <= k < |parts| ==> sep !in parts[k]
    ensures Join(parts, sep) == s
    decreases |s|
  {
    var i := IndexOf(s, sep);
    if i == |s| then
      assert sep !in s;
      [s]
    else
      var rest := Split(s[i + 1..], sep);
      assert sep !in s[..i];
      assert s == s[..i] + [sep] + s[i + 1..];
      [s[..i]] + rest
  }

  /** The number of pieces is one more than the number of separators. */
  lemma {:induction false} SplitCount(s: string, sep: char)
    ensures |Split(s, sep)| == 1 + Occurrences(s, sep)
    decreases |s|
  {
    var i := IndexOf(s, sep);
    OccurrencesSplit(s, sep, i);
    if i < |s| {
      SplitCount(s[i + 1..], sep);
      OccurrencesSplit(s[i..], sep, 1);
      assert s[i..][1..] == s[i + 1..];
      assert s[i..][..1] == [sep];
      assert s[..i] == s[..i];
      OccurrencesNone(s[..i], sep);
    } else {
      OccurrencesNone(s, sep);
    }
  }

  function Occurrences(s: string, c: char): nat
  {
    if s == [] then 0 else (if s[0] == c then 1 else 0) + Occurrences(s[1..], c)
  }

  lemma {:induction false} OccurrencesNone(s: string, c: char)
    requires c !in s
    ensures Occurrences(s, c) == 0
  {
    if s != [] {
      OccurrencesNone(s[1..], c);
    }
  }

  lemma {:induction false} OccurrencesSplit(s: string, c: char, i: nat)
    requires i <= |s|
    ensures Occurrences(s, c) == Occurrences(s[..i], c) + Occurrences(s[i..], c)
  {
    if i > 0 {
      OccurrencesSplit(s[1..], c, i - 1);
      assert s[1..][..i - 1] == s[..i][1..];
      assert s[1..][i - 1..] == s[i..];
    }
  }

  /** Python's `sub in s`: `sub` occurs in `s` at some offset. */
  predicate ContainsAt(s: string, sub: string, i: nat)
  {
    i + |sub| <= |s| && s[i..i + |sub|] == sub
  }

  function Contains(s: string, sub: string): (b: bool)
    ensures b <==> exists i: nat :: ContainsAt(s, sub, i)
    decreases |s|
  {
    if |sub| > |s| then
      assert forall i: nat :: !ContainsAt(s, sub, i);
      false
    else if s[..|sub|] == sub then
      assert ContainsAt(s, sub, 0);
      true
    else
      var b := Contains(s[1..], sub);
      assert forall i: nat :: ContainsAt(s[1..], sub, i) <==> ContainsAt(s, sub, i + 1) by {
        forall i: nat ensures ContainsAt(s[1..], sub, i) <==> ContainsAt(s, sub, i + 1) {
          if i + |sub| <= |s[1..]| {
            assert s[1..][i..i + |sub|] == s[i + 1..i + 1 + |sub|];
          }
        }
      }
      assert !ContainsAt(s, sub, 0);
      assert (exists i: nat :: ContainsAt(s, sub, i)) ==> exists i: nat :: ContainsAt(s[1..], sub, i) by {
        if exists i: nat :: ContainsAt(s, sub, i) {
          var i: nat :| ContainsAt(s, sub, i);
          assert i > 0;
          assert ContainsAt(s[1..], sub, i - 1);
        }
      }
      b
  }

  /** Lower-casing keeps every occurrence: an upper-case match becomes a
      lower-case one. */
  lemma LowerKeepsOccurrence(s: string, sub: string)
    requires Contains(s, sub)
    ensures Contains(Lower(s), Lower(sub))
  {
    var i: nat :| ContainsAt(s, sub, i);
    var w := Lower(s)[i..i + |sub|];
    forall j | 0 <= j < |sub|
      ensures w[j] == Lower(sub)[j]
    {
      assert s[i + j] == s[i..i + |sub|][j] == sub[j];
    }
    assert w == Lower(sub);
    assert ContainsAt(Lower(s), Lower(sub), i);
  }

  // ---- decimal integers -------------------------------------------------

  predicate IsDigit(c: char)
  {
    '0' <= c <= '9'
  }

  predicate AllDigits(s: string)
  {
    forall i :: 0 <= i < |s| ==> IsDigit(s[i])
  }

  /** The value of a run of decimal digits, most significant first. */
  function DigitsValue(s: string): nat
    requires AllDigits(s)
  {
    if s == [] then 0
    else 10 * DigitsValue(s[..|s| - 1]) + (s[|s| - 1] as int - '0' as int)
  }

  /** The fields `int()` accepts here: an optional sign and at least one
      digit. */
  predicate IsIntLiteral(s: string)
  {
    if |s| > 0 && (s[0] == '-' || s[0] == '+') then
      |s| > 1 && AllDigits(s[1..])
    else
      |s| > 0 && AllDigits(s)
  }

  /** `int(s)` on an already stripped field: the value of a well-formed
      literal, `None` where Python raises `ValueError`. */
  function ParseInt(s: string): (r: Option<int>)
    ensures r.Some? <==> IsIntLiteral(s)
  {
    if |s| > 0 && (s[0] == '-' || s[0] == '+') then
      if |s| > 1 && AllDigits(s[1..]) then
        var v: int := DigitsValue(s[1..]);
        Some(if s[0] == '-' then -v else v)
      else None
    else if |s| > 0 && AllDigits(s) then Some(DigitsValue(s))
    else None
  }

  /** Decimal rendering of a natural number, as an f-string does it. */
  function NatToString(n: nat): (s: string)
    ensures |s| > 0 && AllDigits(s)
    ensures DigitsValue(s) == n
  {
    var d := ['0' + (n % 10) as char];
    if n < 10 then
      d
    else
      var s := NatToString(n / 10) + d;
      assert s[..|s| - 1] == NatToString(n / 10);
      s
  }

  /** Decimal rendering of an integer, with a leading '-' when negative. */
  function IntToString(n: int): string
  {
    if n < 0 then "-" + NatToString(-n) else NatToString(n)
  }

  /** Rendering then parsing gives the number back. */
  lemma ParseRendered(n: int)
    ensures ParseInt(IntToString(n)) == Some(n)
  {
    if n < 0 {
      var s := IntToString(n);
      assert s[1..] == NatToString(-n);
    } else {
      assert NatToString(n)[0] != '-' && NatToString(n)[0] != '+';
    }
  }
}
