/** The advocate agent (backend/agents/advocate.js): report truncation and the
    post-processing of `generateAdvocateArgument`. Its `sanitizeJSON` is
    `Sanitizer.CleanObject`. */
module Advocate {
  import opened Text
  import opened Records
  import opened Sanitizer

  const MaxReportLength := 1500
  const WrapPrefix := "Failed to generate advocate argument: "
  const NoJson := "Failed to generate advocate argument - no JSON in response"
  /** V8's message for `response.match(...)` when the reply is undefined. */
  const UndefinedMatch := "Cannot read properties of undefined (reading 'match')"

  /** What the prompt of lines 64-73 is built from. */
  datatype Request = Request(factor: Factor, report: string)

  /** The inner outcome of the `try` block of lines 75-88. */
  function Attempt(reply: Reply, parse: string -> Parsed<Argument>): Result<Argument>
  {
    match reply
    case Failed(m) => Err(m)
    case Missing => Err(UndefinedMatch)
    case Content(response) =>
      match ObjectCandidate(response)
      case None => Err(NoJson)
      case Some(c) =>
        match parse(c)
        case Parsed(v) => Ok(v)
        case SyntaxError(m) => Err(m)
  }

  /** `generateAdvocateArgument(factor, reportText)`. */
  function Generate(factor: Factor, reportText: string, ask: Request -> Reply, parse: string -> Parsed<Argument>)
    : (r: Result<Argument>)
    ensures r.Err? ==> StartsWith(r.message, WrapPrefix)
  {
    match Attempt(ask(Request(factor, Truncate(reportText, MaxReportLength))), parse)
    case Ok(v) => Ok(v)
    case Err(m) => Err(WrapPrefix + m)
  }

  /** Every failure is re-raised with the prefix in front of the inner message. */
  lemma GenerateWrapsErrors(factor: Factor, reportText: string, ask: Request -> Reply, parse: string -> Parsed<Argument>)
    ensures var a := Attempt(ask(Request(factor, Truncate(reportText, MaxReportLength))), parse);
      var r := Generate(factor, reportText, ask, parse);
      && (r.Err? <==> a.Err?)
      && (r.Err? ==> r.message == WrapPrefix + a.message)
      && (r.Ok? ==> r.value == a.value)
  {
  }

  /** The service sees at most the first 1500 characters of the report: two long
      reports that agree on those give the same outcome. */
  lemma GenerateSeesTruncatedReport(
    factor: Factor, report1: string, report2: string, ask: Request -> Reply, parse: string -> Parsed<Argument>)
    requires |report1| > MaxReportLength && |report2| > MaxReportLength
    requires report1[..MaxReportLength] == report2[..MaxReportLength]
    ensures Generate(factor, report1, ask, parse) == Generate(factor, report2, ask, parse)
  {
    assert Truncate(report1, MaxReportLength) == Truncate(report2, MaxReportLength);
  }

  /** A reply with no `{` before a later `}` fails with the no-JSON error, whatever the parser does. */
  lemma NoSpanRejected(response: string, parse: string -> Parsed<Argument>)
    requires forall i, j :: 0 <= i < j < |response| ==> !(response[i] == '{' && response[j] == '}')
    ensures Attempt(Content(response), parse) == Err(NoJson)
  {
    GreedySpanExists(response, '{', '}');
  }

  /** An argument that comes back is the parse of the candidate cut from the
      greedy `{`…`}` span (see `Sanitizer.ObjectCandidateShape` for its form). */
  lemma OkIsParsedSpan(response: string, parse: string -> Parsed<Argument>)
    requires Attempt(Content(response), parse).Ok?
    ensures GreedySpan(response, '{', '}').Some? && ObjectCandidate(response).Some?
    ensures parse(ObjectCandidate(response).value) == Parsed(Attempt(Content(response), parse).value)
  {
  }
}
