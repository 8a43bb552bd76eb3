/** The scribe agent (backend/agents/scribe.js): its own `sanitizeJSON`, the
    one-shot brace-balance repair and the post-processing of
    `synthesizeDebate`. */
module Scribe {
  import opened Text
  import opened Records
  import opened Sanitizer

  const MaxReportLength := 1000
  const WrapPrefix := "Failed to synthesize debate: "
  const NoJson := "Failed to synthesize debate - no JSON in response"
  /** V8's message for `response.substring(0, 300)` when the reply is undefined. */
  const UndefinedSubstring := "Cannot read properties of undefined (reading 'substring')"

  /** The text after a comma closes a container once white space is skipped. */
  predicate ClosesAfterSpace(t: string)
  {
    var u := TrimStart(t);
    |u| > 0 && IsCloser(u[0])
  }

  /** `s.replace(/,(\s*[}\]])/g, '$1')`: each comma whose next non-space
      character is `}` or `]` is dropped. A match consumes only white space and
      the closer after its comma, and neither is a comma, so deciding comma by
      comma on the original text gives the same result. */
  function DropTrailingCommas(s: string): (r: string)
    ensures |r| <= |s|
  {
    if |s| == 0 then ""
    else if s[0] == ',' && ClosesAfterSpace(s[1..]) then DropTrailingCommas(s[1..])
    else [s[0]] + DropTrailingCommas(s[1..])
  }

  /** A first character that is not a comma is kept. */
  lemma DropKeepsFirst(s: string)
    requires |s| > 0 && s[0] != ','
    ensures var r := DropTrailingCommas(s); |r| > 0 && r[0] == s[0]
  {
  }

  /** The last character is kept: a comma there has nothing after it. */
  lemma {:induction false} DropKeepsLast(s: string, ch: char)
    requires LastIs(s, ch)
    ensures LastIs(DropTrailingCommas(s), ch)
    decreases |s|
  {
    var t := s[1..];
    if |s| == 1 {
      assert DropTrailingCommas(s) == [s[0]] + DropTrailingCommas(t) by {
        assert !ClosesAfterSpace(t);
      }
    } else {
      assert LastIs(t, ch) by { assert t[|t| - 1] == s[|s| - 1]; }
      DropKeepsLast(t, ch);
      if !(s[0] == ',' && ClosesAfterSpace(t)) {
        LastOfCons(s[0], DropTrailingCommas(t));
        assert DropTrailingCommas(s) == [s[0]] + DropTrailingCommas(t);
      } else {
        assert DropTrailingCommas(s) == DropTrailingCommas(t);
      }
    }
  }

  /** Only commas are dropped: the other characters stay, in order, and a text
      without commas is unchanged. */
  lemma {:induction false} DropOnlyCommas(s: string)
    ensures WithoutCommas(DropTrailingCommas(s)) == WithoutCommas(s)
    ensures ',' !in s ==> DropTrailingCommas(s) == s
    decreases |s|
  {
    if |s| > 0 {
      var t := s[1..];
      var rest := DropTrailingCommas(t);
      DropOnlyCommas(t);
      WithoutCommasCons(s[0], t);
      assert [s[0]] + t == s;
      if !(s[0] == ',' && ClosesAfterSpace(t)) {
        WithoutCommasCons(s[0], rest);
        assert DropTrailingCommas(s) == [s[0]] + rest;
        assert ',' !in s ==> ',' !in t by {
          if ',' !in s { forall i | 0 <= i < |t| ensures t[i] != ',' { assert t[i] == s[i + 1]; } }
        }
      }
    }
  }

  /** How WithoutCommas treats a first character. */
  lemma WithoutCommasCons(c: char, t: string)
    ensures WithoutCommas([c] + t) == (if c == ',' then "" else [c]) + WithoutCommas(t)
  {
    assert ([c] + t)[1..] == t;
  }

  /** Dropping commas adds no control character. */
  lemma {:induction false} DropKeepsControlFree(s: string)
    requires ControlFree(s)
    ensures ControlFree(DropTrailingCommas(s))
    decreases |s|
  {
    if |s| > 0 {
      assert ControlFree(s[1..]) by {
        forall i | 0 <= i < |s| - 1 ensures !IsControl(s[1..][i]) { assert s[1..][i] == s[i + 1]; }
      }
      DropKeepsControlFree(s[1..]);
    }
  }

  /** The text with every comma taken out. */
  function WithoutCommas(s: string): string
  {
    if |s| == 0 then "" else (if s[0] == ',' then "" else [s[0]]) + WithoutCommas(s[1..])
  }

  /** The "fix common JSON issues" chain of lines 21-28, in order. The three
      quote rewrites replace a character with itself. */
  function FixCommon(s: string): (r: string)
    ensures ControlFree(s) ==> r == DropTrailingCommas(s)
  {
    var a := DropTrailingCommas(s);
    assert ControlFree(s) ==> ControlFree(a) by {
      if ControlFree(s) { DropKeepsControlFree(s); }
    }
    var b := ReplaceChar(a, '\n', "\\n");
    var c := ReplaceChar(b, '\r', "");
    var d := ReplaceChar(c, '\t', "\\t");
    var e := ReplaceChar(d, '"', "\"");
    var f := ReplaceChar(e, '"', "\"");
    ReplaceChar(f, '\'', "'")
  }

  /** scribe.js `sanitizeJSON`. Control characters are gone before the
      rewrites of `\n`, `\r` and `\t` run, so those never fire and the result is
      as short as the input. */
  function SanitizeJson(s: string): (r: string)
    ensures |r| <= |s|
    ensures ControlFree(r)
    ensures r == Trim(DropTrailingCommas(RemoveControl(CutValue(StripFences(s)))))
  {
    var u := RemoveControl(CutValue(StripFences(s)));
    DropKeepsControlFree(u);
    Trim(FixCommon(u))
  }

  /** If the fence-free text has an opener, the sanitized text begins with the earliest one. */
  lemma SanitizeStart(s: string)
    ensures var t := StripFences(s); var r := SanitizeJson(s);
      FirstOpener(t) >= 0 ==> |r| > 0 && r[0] == t[FirstOpener(t)]
  {
    var t := StripFences(s);
    if FirstOpener(t) >= 0 {
      var c := CutValue(t);
      CutValueEnds(t);
      TidyKeepsFirst(c);
      var u := RemoveControl(c);
      assert |u| > 0 && u[0] == c[0];
      var d := DropTrailingCommas(u);
      DropKeepsFirst(u);
      assert |d| > 0 && d[0] == c[0];
    }
  }

  /** Removing control characters and trailing commas keep a closer at the back. */
  lemma CleanupKeepsCloser(c: string)
    requires |c| > 0 && IsCloser(c[|c| - 1])
    ensures LastIs(DropTrailingCommas(RemoveControl(c)), c[|c| - 1])
  {
    var ch := c[|c| - 1];
    BracketIsPlain(ch);
    var u := RemoveControl(c);
    assert LastIs(u, ch);
    DropKeepsLast(u, ch);
  }

  /** The steps after the cuts keep a closer at the back. */
  lemma TidyKeepsCloser(c: string)
    requires |c| > 0 && IsCloser(c[|c| - 1])
    ensures LastIs(Trim(DropTrailingCommas(RemoveControl(c))), c[|c| - 1])
  {
    CleanupKeepsCloser(c);
    TrimKeepsCloser(DropTrailingCommas(RemoveControl(c)), c[|c| - 1]);
  }

  lemma TrimKeepsCloser(d: string, ch: char)
    requires LastIs(d, ch) && IsCloser(ch)
    ensures LastIs(Trim(d), ch)
  {
    BracketIsPlain(ch);
  }

  /** If a closer is left after the prefix cut, the sanitized text ends with the last one. */
  lemma SanitizeEnd(s: string)
    ensures var t := StripFences(s); var a := AfterFirstOpener(t); var r := SanitizeJson(s);
      LastCloser(a) >= 0 ==> |r| > 0 && r[|r| - 1] == a[LastCloser(a)]
  {
    var t := StripFences(s);
    var a := AfterFirstOpener(t);
    if LastCloser(a) >= 0 {
      var c := CutValue(t);
      assert |c| > 0 && IsCloser(c[|c| - 1]) && c[|c| - 1] == a[LastCloser(a)] by {
        CutValueEnds(t);
      }
      TidyKeepsCloser(c);
      assert SanitizeJson(s) == Trim(DropTrailingCommas(RemoveControl(c)));
    }
  }

  // ---------------------------------------------------------------------------
  // The repair scan of lines 136-167.

  /** The loop's variables `braceCount`, `inString` and `escape`. */
  datatype ScanState = ScanState(braceCount: int, inString: bool, escape: bool)

  const Start := ScanState(0, false, false)

  /** The variables after the loop body has looked at `ch` without breaking. */
  function Step(st: ScanState, ch: char): ScanState
  {
    if st.escape then st.(escape := false)
    else if ch == '\\' then st.(escape := true)
    else
      var inString := if ch == '"' then !st.inString else st.inString;
      var count :=
        if inString then st.braceCount
        else if ch == '{' then st.braceCount + 1
        else if ch == '}' then st.braceCount - 1
        else st.braceCount;
      ScanState(count, inString, false)
  }

  /** The body breaks on `ch`: it reaches the outside-string test with a zero count. */
  predicate StopsOn(st: ScanState, ch: char)
  {
    !st.escape && ch != '\\' && !Step(st, ch).inString && Step(st, ch).braceCount == 0
  }

  /** The variables after the first `n` characters, none of which broke the loop. */
  function StateAfter(s: string, n: nat): ScanState
    requires n <= |s|
  {
    if n == 0 then Start else Step(StateAfter(s, n - 1), s[n - 1])
  }

  /** The loop breaks at position `k` if it gets there. */
  predicate StopsAt(s: string, k: nat)
    requires k < |s|
  {
    StopsOn(StateAfter(s, k), s[k])
  }

  /** `validEnd` from position `i` on: one past the first character at which the
      loop breaks, or -1 when it runs to the end. */
  function FirstStop(s: string, i: nat): (e: int)
    requires i <= |s|
    ensures e == -1 <==> forall k :: i <= k < |s| ==> !StopsAt(s, k)
    ensures e != -1 ==> i < e <= |s| && StopsAt(s, e - 1)
    ensures e != -1 ==> forall k :: i <= k < e - 1 ==> !StopsAt(s, k)
    decreases |s| - i
  {
    if i == |s| then -1
    else if StopsAt(s, i) then i + 1
    else FirstStop(s, i + 1)
  }

  /** The `validEnd` the scan computes over the whole candidate. */
  function ValidEnd(s: string): int
  {
    FirstStop(s, 0)
  }

  /** The loop of lines 141-167, as written, with its `continue`s and `break`. */
  method FindValidEnd(cleaned: string) returns (validEnd: int)
    ensures validEnd == ValidEnd(cleaned)
  {
    var braceCount := 0;
    var inString := false;
    var escape := false;
    validEnd := -1;
    for i := 0 to |cleaned|
      invariant ScanState(braceCount, inString, escape) == StateAfter(cleaned, i)
      invariant validEnd == -1
      invariant forall k :: 0 <= k < i ==> !StopsAt(cleaned, k)
    {
      var ch := cleaned[i];
      ghost var before := ScanState(braceCount, inString, escape);
      assert StateAfter(cleaned, i + 1) == Step(before, ch);
      if escape {
        escape := false;
        continue;
      }
      if ch == '\\' {
        escape := true;
        continue;
      }
      if ch == '"' && !escape {
        inString := !inString;
      }
      if !inString {
        if ch == '{' {
          braceCount := braceCount + 1;
        }
        if ch == '}' {
          braceCount := braceCount - 1;
        }
        if braceCount == 0 && validEnd == -1 {
          assert StopsAt(cleaned, i);
          validEnd := i + 1;
          StopIsFirst(cleaned, validEnd);
          break;
        }
      }
    }
    if validEnd == -1 {
      StopIsFirst(cleaned, validEnd);
    }
  }

  /** A position that is the first stop is what `ValidEnd` returns, and no stop means -1. */
  lemma StopIsFirst(s: string, e: int)
    requires e == -1 ==> forall k :: 0 <= k < |s| ==> !StopsAt(s, k)
    requires e != -1 ==>
      (0 < e <= |s| && StopsAt(s, e - 1)
       && forall k :: 0 <= k < e - 1 ==> !StopsAt(s, k))
    ensures e == ValidEnd(s)
  {
  }

  /** Before the scan stops, a candidate that opens with `{` stays at a positive count. */
  lemma {:induction false} PositiveBeforeStop(s: string, n: nat)
    requires 1 <= n <= |s| && s[0] == '{'
    requires forall k :: 0 <= k < n - 1 ==> !StopsAt(s, k)
    ensures StateAfter(s, n).braceCount >= 1 || StopsAt(s, n - 1)
    decreases n
  {
    if n > 1 {
      PositiveBeforeStop(s, n - 1);
      assert !StopsAt(s, n - 2);
      var st := StateAfter(s, n - 1);
      assert st.braceCount >= 1;
      assert StateAfter(s, n) == Step(st, s[n - 1]);
    } else {
      assert StateAfter(s, 1) == Step(Start, '{');
    }
  }

  /** On a candidate that opens with `{`, a repair cut is the shortest prefix whose
      unescaped, outside-string braces balance: the count is zero after it, positive
      after every shorter non-empty prefix, and the prefix ends in `}`. */
  lemma RepairIsShortestBalanced(s: string)
    requires |s| > 0 && s[0] == '{' && ValidEnd(s) != -1
    ensures var e := ValidEnd(s);
      && 2 <= e <= |s| && s[e - 1] == '}'
      && StateAfter(s, e).braceCount == 0 && !StateAfter(s, e).inString
      && forall k :: 1 <= k < e ==> StateAfter(s, k).braceCount >= 1
  {
    var e := ValidEnd(s);
    assert StateAfter(s, 1).braceCount == 1;
    forall k | 1 <= k < e
      ensures StateAfter(s, k).braceCount >= 1
    {
      PositiveBeforeStop(s, k);
    }
    if e > 1 {
      assert StateAfter(s, e - 1).braceCount >= 1;
    }
  }

  /** A candidate that does not open with `{`, `}`, a quote or a backslash stops
      the scan at once, with the count at zero: the cut keeps one character. */
  lemma RepairKeepsOneChar(s: string)
    requires |s| > 0 && s[0] != '{' && s[0] != '}' && s[0] != '"' && s[0] != '\\'
    ensures ValidEnd(s) == 1
  {
  }

  // ---------------------------------------------------------------------------
  // synthesizeDebate.

  /** What the prompt of lines 94-111 is built from. */
  datatype Request = Request(factor: Factor, advocate: Argument, skeptic: Counter, report: string)

  /** The parse and the single repair attempt of lines 128-176, on a candidate
      that passed the length test. */
  function ParseOrRepair(cleaned: string, parse: string -> Parsed<Synthesis>): Result<Synthesis>
  {
    match parse(cleaned)
    case Parsed(v) => Ok(v)
    case SyntaxError(m) =>
      var e := ValidEnd(cleaned);
      if e > 0 then
        match parse(cleaned[..e])
        case Parsed(v) => Ok(v)
        case SyntaxError(m2) => Err(m2)
      else Err(m)
  }

  /** The inner outcome of the `try` block, before the error is wrapped. */
  function Attempt(reply: Reply, parse: string -> Parsed<Synthesis>): Result<Synthesis>
  {
    match reply
    case Failed(m) => Err(m)
    case Missing => Err(UndefinedSubstring)
    case Content(response) =>
      var cleaned := SanitizeJson(response);
      if |cleaned| < 10 then Err(NoJson) else ParseOrRepair(cleaned, parse)
  }

  /** `synthesizeDebate(factor, advocateArg, skepticArg, reportText)`: the
      inference call is `ask`, `JSON.parse` is `parse`. */
  function Synthesize(
    factor: Factor, arg: Argument, counter: Counter, reportText: string,
    ask: Request -> Reply, parse: string -> Parsed<Synthesis>): (r: Result<Synthesis>)
    ensures r.Err? ==> StartsWith(r.message, WrapPrefix)
  {
    var reply := ask(Request(factor, arg, counter, Truncate(reportText, MaxReportLength)));
    match Attempt(reply, parse)
    case Ok(v) => Ok(v)
    case Err(m) => Err(WrapPrefix + m)
  }

  /** Every failure keeps its inner message after the prefix. */
  lemma SynthesizeWrapsErrors(
    factor: Factor, arg: Argument, counter: Counter, reportText: string,
    ask: Request -> Reply, parse: string -> Parsed<Synthesis>)
    ensures var reply := ask(Request(factor, arg, counter, Truncate(reportText, MaxReportLength)));
      var r := Synthesize(factor, arg, counter, reportText, ask, parse);
      var a := Attempt(reply, parse);
      && (r.Err? <==> a.Err?)
      && (r.Err? ==> r.message == WrapPrefix + a.message)
      && (r.Ok? ==> r.value == a.value)
  {
  }

  /** The service sees the report truncated to its first 1000 characters: two
      long reports that agree on those give the same outcome. */
  lemma SynthesizeSeesTruncatedReport(
    factor: Factor, arg: Argument, counter: Counter, report1: string, report2: string,
    ask: Request -> Reply, parse: string -> Parsed<Synthesis>)
    requires |report1| > MaxReportLength && |report2| > MaxReportLength
    requires report1[..MaxReportLength] == report2[..MaxReportLength]
    ensures Synthesize(factor, arg, counter, report1, ask, parse)
      == Synthesize(factor, arg, counter, report2, ask, parse)
  {
    assert Truncate(report1, MaxReportLength) == Truncate(report2, MaxReportLength);
  }

  /** A cleaned candidate under 10 characters fails with the no-JSON error, whatever the parser does. */
  lemma ShortCandidateRejected(response: string, parse: string -> Parsed<Synthesis>)
    requires |SanitizeJson(response)| < 10
    ensures Attempt(Content(response), parse) == Err(NoJson)
  {
  }

  /** An undefined reply fails at the `substring` call of line 116. */
  lemma MissingReplyFails(parse: string -> Parsed<Synthesis>)
    ensures Attempt(Missing, parse) == Err(UndefinedSubstring)
  {
  }

  /** There is one repair attempt: when the scan finds no end, the first parse
      error is the one reported; otherwise the outcome is the parse of the cut. */
  lemma SingleRepairAttempt(cleaned: string, parse: string -> Parsed<Synthesis>)
    requires parse(cleaned).SyntaxError?
    ensures ValidEnd(cleaned) <= 0 ==> ParseOrRepair(cleaned, parse) == Err(parse(cleaned).message)
    ensures var e := ValidEnd(cleaned); e > 0 ==>
      ParseOrRepair(cleaned, parse) ==
        (match parse(cleaned[..e]) case Parsed(v) => Ok(v) case SyntaxError(m) => Err(m))
  {
  }

  /** A synthesis that is returned is the parse of the cleaned candidate or of one of its prefixes. */
  lemma OkComesFromCandidate(response: string, parse: string -> Parsed<Synthesis>)
    requires Attempt(Content(response), parse).Ok?
    ensures var cleaned := SanitizeJson(response); var v := Attempt(Content(response), parse).value;
      |cleaned| >= 10 &&
      exists n :: 0 < n <= |cleaned| && parse(cleaned[..n]) == Parsed(v)
  {
    var cleaned := SanitizeJson(response);
    assert |cleaned| >= 10 && Attempt(Content(response), parse) == ParseOrRepair(cleaned, parse);
    RepairComesFromPrefix(cleaned, parse);
  }

  /** What the parse-or-repair step returns is the parse of the candidate or of a prefix of it. */
  lemma RepairComesFromPrefix(cleaned: string, parse: string -> Parsed<Synthesis>)
    requires |cleaned| > 0 && ParseOrRepair(cleaned, parse).Ok?
    ensures exists n :: 0 < n <= |cleaned| && parse(cleaned[..n]) == Parsed(ParseOrRepair(cleaned, parse).value)
  {
    var v := ParseOrRepair(cleaned, parse).value;
    if parse(cleaned).Parsed? {
      assert cleaned[..|cleaned|] == cleaned;
    } else {
      var e := ValidEnd(cleaned);
      assert 0 < e <= |cleaned| && parse(cleaned[..e]) == Parsed(v);
    }
  }

  /** A candidate that opens with `[` is cut to `[` by the repair: what is reported
      is the outcome of parsing that one character. */
  lemma ArrayCandidateRepairsToBracket(cleaned: string, parse: string -> Parsed<Synthesis>)
    requires |cleaned| > 0 && cleaned[0] == '[' && parse(cleaned).SyntaxError?
    ensures ParseOrRepair(cleaned, parse) ==
      (match parse("[") case Parsed(v) => Ok(v) case SyntaxError(m) => Err(m))
  {
    RepairKeepsOneChar(cleaned);
    assert cleaned[..1] == "[";
  }
}
