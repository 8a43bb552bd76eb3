/** The steps of the agents' `sanitizeJSON` helpers and of their greedy
    `match` of a candidate, on strings. The analyst's helper is `CleanValue`;
    the advocate's and the skeptic's, which are the same text, are
    `CleanObject`; the scribe adds its own steps on top (module Scribe). */
module Sanitizer {
  import opened Text
  import opened Records

  const JsonFence := "```json"
  const Fence := "```"

  /** `s.replace(/<marker>\s*\/g, '')`: every occurrence of `marker`, scanning
      from the left, is removed with the white space after it. */
  function StripMarker(s: string, marker: string): (r: string)
    requires |marker| > 0
    ensures |r| <= |s|
    decreases |s|
  {
    if |s| == 0 then ""
    else if StartsWith(s, marker) then StripMarker(TrimStart(s[|marker|..]), marker)
    else [s[0]] + StripMarker(s[1..], marker)
  }

  /** The first character survives when it cannot begin the marker. */
  lemma StripMarkerKeepsFirst(s: string, marker: string)
    requires |marker| > 0 && |s| > 0 && s[0] != marker[0]
    ensures var r := StripMarker(s, marker); |r| > 0 && r[0] == s[0]
  {
    assert !StartsWith(s, marker) by {
      if |marker| <= |s| { assert s[..|marker|][0] == s[0]; }
    }
  }

  /** The last character survives when it is neither white space nor part of the marker. */
  lemma {:induction false} StripMarkerKeepsLast(s: string, marker: string)
    requires |marker| > 0 && |s| > 0
    requires s[|s| - 1] !in marker && !IsSpace(s[|s| - 1])
    ensures var r := StripMarker(s, marker); |r| > 0 && r[|r| - 1] == s[|s| - 1]
    decreases |s|, 1
  {
    if StartsWith(s, marker) {
      KeepsLastAfterMarker(s, marker);
    } else {
      KeepsLastAfterChar(s, marker);
    }
  }

  /** The marker case: what follows the marker and its white space keeps the last character. */
  lemma {:induction false} KeepsLastAfterMarker(s: string, marker: string)
    requires |marker| > 0 && |s| > 0 && StartsWith(s, marker)
    requires s[|s| - 1] !in marker && !IsSpace(s[|s| - 1])
    ensures var r := StripMarker(s, marker); |r| > 0 && r[|r| - 1] == s[|s| - 1]
    decreases |s|, 0
  {
    var rest := TrimStart(s[|marker|..]);
    assert |rest| > 0 && rest[|rest| - 1] == s[|s| - 1] by {
      assert |s| != |marker|;
      var tail := s[|marker|..];
      assert tail[|tail| - 1] == s[|s| - 1];
    }
    StripMarkerKeepsLast(rest, marker);
    assert StripMarker(s, marker) == StripMarker(rest, marker);
  }

  /** The plain case: the first character is kept and the rest keeps the last one. */
  lemma {:induction false} KeepsLastAfterChar(s: string, marker: string)
    requires |marker| > 0 && |s| > 0 && !StartsWith(s, marker)
    requires s[|s| - 1] !in marker && !IsSpace(s[|s| - 1])
    ensures var r := StripMarker(s, marker); |r| > 0 && r[|r| - 1] == s[|s| - 1]
    decreases |s|, 0
  {
    if |s| > 1 {
      assert s[1..][|s| - 2] == s[|s| - 1];
      StripMarkerKeepsLast(s[1..], marker);
    } else {
      assert |StripMarker(s[1..], marker)| == 0;
    }
    LastOfCons(s[0], StripMarker(s[1..], marker));
  }

  /** Putting a character in front of a text leaves the last character as it is,
      or makes the character the last one when the text is empty. */
  lemma LastOfCons(c: char, x: string)
    ensures var r := [c] + x; r[|r| - 1] == if |x| > 0 then x[|x| - 1] else c
  {
  }

  /** Both fence removals: `replace(/```json\s*\/g, '').replace(/```\s*\/g, '')`. */
  function StripFences(s: string): (r: string)
    ensures |r| <= |s|
  {
    StripMarker(StripMarker(s, JsonFence), Fence)
  }

  /** A candidate that begins with an opener and ends with a closer keeps both ends. */
  lemma StripFencesKeepsEnds(s: string)
    requires |s| > 0 && s[0] != '`' && s[|s| - 1] !in JsonFence && !IsSpace(s[|s| - 1])
    ensures var r := StripFences(s); |r| > 0 && r[0] == s[0] && r[|r| - 1] == s[|s| - 1]
  {
    StripMarkerKeepsFirst(s, JsonFence);
    StripMarkerKeepsLast(s, JsonFence);
    var t := StripMarker(s, JsonFence);
    StripMarkerKeepsFirst(t, Fence);
    StripMarkerKeepsLast(t, Fence);
  }

  /** `str.replace(/[\x00-\x1F\x7F]/g, '')`. */
  function RemoveControl(s: string): (r: string)
    ensures |r| <= |s|
    ensures ControlFree(r)
    ensures ControlFree(s) ==> r == s
    ensures |s| > 0 && !IsControl(s[0]) ==> |r| > 0 && r[0] == s[0]
    ensures |s| > 0 && !IsControl(s[|s| - 1]) ==> |r| > 0 && r[|r| - 1] == s[|s| - 1]
  {
    if |s| == 0 then ""
    else (if IsControl(s[0]) then "" else [s[0]]) + RemoveControl(s[1..])
  }

  predicate IsOpener(c: char) { c == '{' || c == '[' }
  predicate IsCloser(c: char) { c == '}' || c == ']' }

  /** analyst.js:6-8 / scribe.js:8-10: the earlier of the first `{` and the first `[`, or -1. */
  function FirstOpener(s: string): (k: int)
    ensures -1 <= k < |s|
    ensures k == -1 <==> forall i :: 0 <= i < |s| ==> !IsOpener(s[i])
    ensures 0 <= k ==> IsOpener(s[k]) && forall i :: 0 <= i < k ==> !IsOpener(s[i])
  {
    var firstBrace := IndexOf(s, '{');
    var firstBracket := IndexOf(s, '[');
    if firstBrace == -1 then firstBracket
    else if firstBracket == -1 then firstBrace
    else Min(firstBrace, firstBracket)
  }

  /** analyst.js:10-12 / scribe.js:13-15: the later of the last `}` and the last `]`, or -1. */
  function LastCloser(s: string): (k: int)
    ensures -1 <= k < |s|
    ensures k == -1 <==> forall i :: 0 <= i < |s| ==> !IsCloser(s[i])
    ensures 0 <= k ==> IsCloser(s[k]) && forall i :: k < i < |s| ==> !IsCloser(s[i])
  {
    Max(LastIndexOf(s, '}'), LastIndexOf(s, ']'))
  }

  /** `if (start > 0) str = str.substring(start)`. */
  function DropBefore(s: string, start: int): string
    requires start < |s|
  {
    if start > 0 then s[start..] else s
  }

  /** `if (end !== -1) str = str.substring(0, end + 1)`. */
  function KeepThrough(s: string, end: int): string
    requires -1 <= end < |s|
  {
    if end != -1 then s[..end + 1] else s
  }

  /** The prefix cut of the analyst and the scribe. */
  function AfterFirstOpener(s: string): string
  {
    DropBefore(s, FirstOpener(s))
  }

  /** Both cuts of the analyst and the scribe. */
  function CutValue(s: string): (r: string)
    ensures |r| <= |s|
  {
    var t := AfterFirstOpener(s);
    KeepThrough(t, LastCloser(t))
  }

  /** The cut text starts at the first opener when there is one and ends at the
      last closer after it. */
  lemma CutValueEnds(s: string)
    ensures var r := CutValue(s);
      && (FirstOpener(s) >= 0 ==> |r| > 0 && r[0] == s[FirstOpener(s)])
      && (var t := AfterFirstOpener(s); LastCloser(t) >= 0 ==> |r| > 0 && r[|r| - 1] == t[LastCloser(t)])
  {
  }

  /** `r` occurs in `s` starting at position `a`. */
  predicate PieceAt(r: string, s: string, a: int)
  {
    0 <= a <= |s| - |r| && s[a..a + |r|] == r
  }

  /** The cut text is a contiguous piece of the input. */
  lemma CutValueFromInput(s: string)
    ensures var r := CutValue(s); exists a :: PieceAt(r, s, a)
  {
    var k := if FirstOpener(s) > 0 then FirstOpener(s) else 0;
    var t := AfterFirstOpener(s);
    DropBeforeIsSuffix(s, FirstOpener(s));
    var r := CutValue(s);
    KeepThroughIsPrefix(t, LastCloser(t));
    assert PieceAt(r, s, k) by {
      assert t[..|r|] == s[k..k + |r|];
    }
  }

  /** The prefix cut keeps a suffix of the text. */
  lemma DropBeforeIsSuffix(s: string, start: int)
    requires start < |s|
    ensures DropBefore(s, start) == s[if start > 0 then start else 0..]
  {
  }

  /** The suffix cut keeps a prefix of the text. */
  lemma KeepThroughIsPrefix(t: string, end: int)
    requires -1 <= end < |t|
    ensures var r := KeepThrough(t, end); |r| <= |t| && r == t[..|r|]
  {
  }

  /** The prefix cut of the advocate and the skeptic. */
  function AfterFirstBrace(s: string): string
  {
    DropBefore(s, IndexOf(s, '{'))
  }

  /** Both cuts of the advocate and the skeptic (braces only). */
  function CutObject(s: string): (r: string)
    ensures |r| <= |s|
  {
    var t := AfterFirstBrace(s);
    KeepThrough(t, LastIndexOf(t, '}'))
  }

  /** The cut text starts with `{` when the input has one, and ends with `}`
      when one is left after the prefix cut. */
  lemma CutObjectEnds(s: string)
    ensures var r := CutObject(s);
      && ('{' in s ==> |r| > 0 && r[0] == '{')
      && (var t := AfterFirstBrace(s); '}' in t ==> |r| > 0 && r[|r| - 1] == '}')
  {
  }

  /** analyst.js `sanitizeJSON`. */
  function CleanValue(s: string): (r: string)
    ensures |r| <= |s|
    ensures ControlFree(r)
  {
    Trim(RemoveControl(CutValue(StripFences(s))))
  }

  /** advocate.js and skeptic.js `sanitizeJSON`. */
  function CleanObject(s: string): (r: string)
    ensures |r| <= |s|
    ensures ControlFree(r)
  {
    Trim(RemoveControl(CutObject(StripFences(s))))
  }

  /** A bracket is neither white space nor a control character. */
  lemma BracketIsPlain(ch: char)
    requires IsOpener(ch) || IsCloser(ch)
    ensures !IsSpace(ch) && !IsControl(ch)
  {
  }

  /** Removing control characters and trimming keep a bracket at the front. */
  lemma TidyKeepsFirst(c: string)
    requires |c| > 0 && (IsOpener(c[0]) || IsCloser(c[0]))
    ensures var r := Trim(RemoveControl(c)); |r| > 0 && r[0] == c[0]
  {
    BracketIsPlain(c[0]);
    var u := RemoveControl(c);
    assert |u| > 0 && u[0] == c[0];
    assert !IsSpace(u[0]);
  }

  /** Removing control characters and trimming keep a bracket at the back. */
  lemma TidyKeepsLast(c: string)
    requires |c| > 0 && (IsOpener(c[|c| - 1]) || IsCloser(c[|c| - 1]))
    ensures var r := Trim(RemoveControl(c)); |r| > 0 && r[|r| - 1] == c[|c| - 1]
  {
    BracketIsPlain(c[|c| - 1]);
    var u := RemoveControl(c);
    assert |u| > 0 && u[|u| - 1] == c[|c| - 1];
    assert !IsSpace(u[|u| - 1]);
  }

  /** If the fence-free text has an opener, the output begins with the earliest one. */
  lemma CleanValueStart(s: string)
    ensures var t := StripFences(s); var r := CleanValue(s);
      FirstOpener(t) >= 0 ==> |r| > 0 && r[0] == t[FirstOpener(t)]
  {
    var t := StripFences(s);
    var c := CutValue(t);
    CutValueEnds(t);
    if FirstOpener(t) >= 0 {
      TidyKeepsFirst(c);
    }
  }

  /** If a closer is left after the prefix cut, the output ends with the last one. */
  lemma CleanValueEnd(s: string)
    ensures var t := StripFences(s); var a := AfterFirstOpener(t); var r := CleanValue(s);
      LastCloser(a) >= 0 ==> |r| > 0 && r[|r| - 1] == a[LastCloser(a)]
  {
    var t := StripFences(s);
    var c := CutValue(t);
    var a := AfterFirstOpener(t);
    CutValueEnds(t);
    if LastCloser(a) >= 0 {
      assert |c| > 0 && c[|c| - 1] == a[LastCloser(a)];
      assert CleanValue(s) == Trim(RemoveControl(c));
      TidyKeepsLast(c);
    }
  }

  /** The same for the brace-only helper: it begins with the first `{` and, when a
      `}` follows, ends with the last `}`. */
  lemma CleanObjectEnds(s: string)
    ensures var t := StripFences(s); var r := CleanObject(s);
      && ('{' in t ==> |r| > 0 && r[0] == '{')
      && ('}' in AfterFirstBrace(t) ==> |r| > 0 && r[|r| - 1] == '}')
  {
    var t := StripFences(s);
    var c := CutObject(t);
    CutObjectEnds(t);
    assert CleanObject(s) == Trim(RemoveControl(c));
    if '{' in t {
      assert |c| > 0 && c[0] == '{';
      TidyKeepsFirst(c);
    }
    if '}' in AfterFirstBrace(t) {
      assert |c| > 0 && c[|c| - 1] == '}';
      TidyKeepsLast(c);
    }
  }

  /** At least two characters, the first `open` and the last `close`. */
  predicate Bracketed(s: string, open: char, close: char)
  {
    |s| >= 2 && s[0] == open && s[|s| - 1] == close
  }

  /** `s.match(/<open>[\s\S]*<close>/)`: from the first `open` to the last `close`
      after it, or no match. */
  function GreedySpan(s: string, open: char, close: char): (r: Option<string>)
    requires open != close
    ensures r.Some? ==> Bracketed(r.value, open, close)
  {
    var i := IndexOf(s, open);
    var j := LastIndexOf(s, close);
    if 0 <= i < j then Some(s[i..j + 1]) else None
  }

  /** The greedy match exists exactly when an `open` precedes a later `close`. */
  lemma GreedySpanExists(s: string, open: char, close: char)
    requires open != close
    ensures GreedySpan(s, open, close).Some? <==> exists i, j :: 0 <= i < j < |s| && s[i] == open && s[j] == close
  {
  }

  /** A text that already opens with `{` and closes with `}` is not cut, and
      tidying it keeps both braces. */
  lemma BracesUncut(t: string)
    requires Bracketed(t, '{', '}')
    ensures CutObject(t) == t
    ensures Trim(RemoveControl(CutObject(t))) == Trim(RemoveControl(t))
    ensures Bracketed(Trim(RemoveControl(CutObject(t))), '{', '}')
  {
    TidyKeepsBoth(t);
    assert IndexOf(t, '{') == 0;
    assert AfterFirstBrace(t) == t;
    assert LastIndexOf(t, '}') == |t| - 1;
    assert t[..|t|] == t;
  }

  /** A text that already opens with `[` and closes with `]` is not cut, and
      tidying it keeps both brackets. */
  lemma BracketsUncut(t: string)
    requires Bracketed(t, '[', ']')
    ensures CutValue(t) == t
    ensures Trim(RemoveControl(CutValue(t))) == Trim(RemoveControl(t))
    ensures Bracketed(Trim(RemoveControl(CutValue(t))), '[', ']')
  {
    TidyKeepsBoth(t);
    assert FirstOpener(t) == 0;
    assert AfterFirstOpener(t) == t;
    assert LastCloser(t) == |t| - 1;
    assert t[..|t|] == t;
  }

  /** An opening and a closing bracket at the two ends of a text both survive,
      so at least two characters are left. */
  lemma TidyKeepsBoth(c: string)
    requires |c| >= 2 && IsOpener(c[0]) && IsCloser(c[|c| - 1])
    ensures var r := Trim(RemoveControl(c)); |r| >= 2 && r[0] == c[0] && r[|r| - 1] == c[|c| - 1]
  {
    TidyKeepsFirst(c);
    TidyKeepsLast(c);
  }

  /** Fence removal keeps the braces of a brace span, and the two cuts of
      `CleanObject` then change nothing. */
  lemma BraceSpanIsUncut(m: string)
    requires Bracketed(m, '{', '}')
    ensures Bracketed(StripFences(m), '{', '}') && CutObject(StripFences(m)) == StripFences(m)
  {
    StripFencesKeepsEnds(m);
    BracesUncut(StripFences(m));
  }

  /** A brace span is cleaned into itself without fences, control characters
      and outer white space, with both braces kept. */
  lemma BraceSpanCleaned(m: string)
    requires Bracketed(m, '{', '}')
    ensures CleanObject(m) == Trim(RemoveControl(StripFences(m)))
    ensures Bracketed(CleanObject(m), '{', '}')
  {
    StripFencesKeepsEnds(m);
    BracesUncut(StripFences(m));
  }

  /** The greedy brace match followed by the brace-only helper: the text the
      advocate and the skeptic hand to `JSON.parse`, or None when nothing matches. */
  function ObjectCandidate(response: string): (r: Option<string>)
    ensures r.None? <==> GreedySpan(response, '{', '}').None?
  {
    match GreedySpan(response, '{', '}')
    case None => None
    case Some(m) => Some(CleanObject(m))
  }

  /** What is parsed is the matched span without fences, control characters and
      outer white space: it opens with `{` and closes with `}`. */
  lemma ObjectCandidateShape(response: string)
    requires GreedySpan(response, '{', '}').Some?
    ensures ObjectCandidate(response).Some?
    ensures Bracketed(ObjectCandidate(response).value, '{', '}')
    ensures ObjectCandidate(response).value == Trim(RemoveControl(StripFences(GreedySpan(response, '{', '}').value)))
  {
    BraceSpanCleaned(GreedySpan(response, '{', '}').value);
  }

  /** Fence removal keeps the brackets of a bracket span, and the two cuts of
      `CleanValue` then change nothing. */
  lemma BracketSpanIsUncut(m: string)
    requires Bracketed(m, '[', ']')
    ensures Bracketed(StripFences(m), '[', ']') && CutValue(StripFences(m)) == StripFences(m)
  {
    StripFencesKeepsEnds(m);
    BracketsUncut(StripFences(m));
  }

  /** A bracket span is cleaned into itself without fences, control characters
      and outer white space, with both brackets kept. */
  lemma BracketSpanCleaned(m: string)
    requires Bracketed(m, '[', ']')
    ensures CleanValue(m) == Trim(RemoveControl(StripFences(m)))
    ensures Bracketed(CleanValue(m), '[', ']')
  {
    StripFencesKeepsEnds(m);
    BracketsUncut(StripFences(m));
  }

  /** The greedy bracket match followed by the analyst's helper. */
  function ArrayCandidate(response: string): (r: Option<string>)
    ensures r.None? <==> GreedySpan(response, '[', ']').None?
  {
    match GreedySpan(response, '[', ']')
    case None => None
    case Some(m) => Some(CleanValue(m))
  }

  /** On the matched bracket span the candidate is the span without fences,
      control characters and outer white space; it opens with `[` and closes with `]`. */
  lemma ArrayCandidateShape(response: string)
    requires GreedySpan(response, '[', ']').Some?
    ensures ArrayCandidate(response).Some?
    ensures Bracketed(ArrayCandidate(response).value, '[', ']')
    ensures ArrayCandidate(response).value == Trim(RemoveControl(StripFences(GreedySpan(response, '[', ']').value)))
  {
    BracketSpanCleaned(GreedySpan(response, '[', ']').value);
  }
}
