/** The skeptic agent (backend/agents/skeptic.js): report truncation, the
    undefined-reply guard and the post-processing of `generateSkepticCounter`.
    Its `sanitizeJSON` is `Sanitizer.CleanObject`. */
module Skeptic {
  import opened Text
  import opened Records
  import opened Sanitizer

  const MaxReportLength := 1500
  const WrapPrefix := "Failed to generate skeptic counter: "
  const NoJson := "Failed to generate skeptic counter - no JSON in response"
  const UndefinedResponse := "API returned undefined response"

  /** What the prompt of lines 69-93 is built from. */
  datatype Request = Request(factor: Factor, advocate: Argument, report: string)

  /** The inner outcome of the `try` block of lines 96-112. */
  function Attempt(reply: Reply, parse: string -> Parsed<Counter>): Result<Counter>
  {
    match reply
    case Failed(m) => Err(m)
    case Missing => Err(UndefinedResponse)
    case Content(response) =>
      if response == "" then Err(UndefinedResponse)
      else
        match ObjectCandidate(response)
        case None => Err(NoJson)
        case Some(c) =>
          match parse(c)
          case Parsed(v) => Ok(v)
          case SyntaxError(m) => Err(m)
  }

  /** `generateSkepticCounter(factor, advocateArgument, reportText)`. */
  function Generate(
    factor: Factor, arg: Argument, reportText: string, ask: Request -> Reply, parse: string -> Parsed<Counter>)
    : (r: Result<Counter>)
    ensures r.Err? ==> StartsWith(r.message, WrapPrefix)
  {
    match Attempt(ask(Request(factor, arg, Truncate(reportText, MaxReportLength))), parse)
    case Ok(v) => Ok(v)
    case Err(m) => Err(WrapPrefix + m)
  }

  /** Every failure is re-raised with the prefix in front of the inner message,
      which is kept whole at the end. */
  lemma GenerateWrapsErrors(
    factor: Factor, arg: Argument, reportText: string, ask: Request -> Reply, parse: string -> Parsed<Counter>)
    ensures var a := Attempt(ask(Request(factor, arg, Truncate(reportText, MaxReportLength))), parse);
      var r := Generate(factor, arg, reportText, ask, parse);
      && (r.Err? <==> a.Err?)
      && (r.Err? ==> r.message == WrapPrefix + a.message && EndsWith(r.message, a.message))
      && (r.Ok? ==> r.value == a.value)
  {
    var a := Attempt(ask(Request(factor, arg, Truncate(reportText, MaxReportLength))), parse);
    if a.Err? {
      var msg := WrapPrefix + a.message;
      assert msg[|msg| - |a.message|..] == a.message;
    }
  }

  /** The service sees at most the first 1500 characters of the report. */
  lemma GenerateSeesTruncatedReport(
    factor: Factor, arg: Argument, report1: string, report2: string,
    ask: Request -> Reply, parse: string -> Parsed<Counter>)
    requires |report1| > MaxReportLength && |report2| > MaxReportLength
    requires report1[..MaxReportLength] == report2[..MaxReportLength]
    ensures Generate(factor, arg, report1, ask, parse) == Generate(factor, arg, report2, ask, parse)
  {
    assert Truncate(report1, MaxReportLength) == Truncate(report2, MaxReportLength);
  }

  /** An undefined or empty reply is refused before any matching. */
  lemma EmptyReplyRejected(parse: string -> Parsed<Counter>)
    ensures Attempt(Missing, parse) == Err(UndefinedResponse)
    ensures Attempt(Content(""), parse) == Err(UndefinedResponse)
  {
  }

  /** A non-empty reply with no `{` before a later `}` fails with the no-JSON error. */
  lemma NoSpanRejected(response: string, parse: string -> Parsed<Counter>)
    requires response != ""
    requires forall i, j :: 0 <= i < j < |response| ==> !(response[i] == '{' && response[j] == '}')
    ensures Attempt(Content(response), parse) == Err(NoJson)
  {
    GreedySpanExists(response, '{', '}');
  }

  /** A counter that comes back is the parse of the candidate cut from the
      greedy `{`…`}` span (see `Sanitizer.ObjectCandidateShape` for its form). */
  lemma OkIsParsedSpan(response: string, parse: string -> Parsed<Counter>)
    requires Attempt(Content(response), parse).Ok?
    ensures GreedySpan(response, '{', '}').Some? && ObjectCandidate(response).Some?
    ensures parse(ObjectCandidate(response).value) == Parsed(Attempt(Content(response), parse).value)
  {
  }
}
