/** The analyst agent (backend/agents/analyst.js): the choice of prompt and
    attachment and the post-processing of `extractFactors`. Its `sanitizeJSON`
    is `Sanitizer.CleanValue`. */
module Analyst {
  import opened Text
  import opened Records
  import opened Sanitizer

  const MaxImageFactors := 3
  const WrapPrefix := "Failed to extract factors: "
  const NoJsonArray := "Failed to extract factors - no JSON array in response"
  /** V8's message for `response.match(...)` when the reply is undefined. */
  const UndefinedMatch := "Cannot read properties of undefined (reading 'match')"

  /** The chart prompt carries no report text; the text prompt carries all of it. */
  datatype Prompt = ChartPrompt | ReportPrompt(report: string)

  /** `{ mimetype, data }`. */
  datatype Attachment = Attachment(mimetype: string, data: string)

  /** The arguments of the call at line 107 that vary with the input. */
  datatype Request = Request(prompt: Prompt, image: Option<Attachment>)

  predicate IsImage(report: Report) { report.kind == "image" }

  /** `imageData`: the attachment exists exactly for images and carries their fields. */
  function ImageData(report: Report): (r: Option<Attachment>)
    ensures r.Some? <==> IsImage(report)
    ensures r.Some? ==> r.value.mimetype == report.mimetype && r.value.data == report.data
  {
    if IsImage(report) then Some(Attachment(report.mimetype, report.data)) else None
  }

  /** The prompt: the chart prompt for images, otherwise the text prompt with the
      whole, untruncated report text. */
  function PromptFor(report: Report): (p: Prompt)
    ensures p.ChartPrompt? <==> IsImage(report)
    ensures p.ReportPrompt? ==> p.report == report.text
  {
    if IsImage(report) then ChartPrompt else ReportPrompt(report.text)
  }

  /** Lines 121-124: images keep at most their first three factors. */
  function CapFactors(parsed: seq<Factor>, isImage: bool): (r: seq<Factor>)
    ensures |r| == if isImage then Min(MaxImageFactors, |parsed|) else |parsed|
    ensures r == parsed[..|r|]
  {
    if isImage && |parsed| > MaxImageFactors then parsed[..MaxImageFactors] else parsed
  }

  /** The inner outcome of the `try` block of lines 106-126. */
  function Attempt(reply: Reply, isImage: bool, parse: string -> Parsed<seq<Factor>>): Result<seq<Factor>>
  {
    match reply
    case Failed(m) => Err(m)
    case Missing => Err(UndefinedMatch)
    case Content(response) =>
      match ArrayCandidate(response)
      case None => Err(NoJsonArray)
      case Some(c) =>
        match parse(c)
        case Parsed(v) => Ok(CapFactors(v, isImage))
        case SyntaxError(m) => Err(m)
  }

  /** `extractFactors(reportData)`. */
  function Extract(report: Report, ask: Request -> Reply, parse: string -> Parsed<seq<Factor>>)
    : (r: Result<seq<Factor>>)
    ensures r.Err? ==> StartsWith(r.message, WrapPrefix)
  {
    match Attempt(ask(Request(PromptFor(report), ImageData(report))), IsImage(report), parse)
    case Ok(v) => Ok(v)
    case Err(m) => Err(WrapPrefix + m)
  }

  /** Every failure is re-raised with the prefix in front of the inner message. */
  lemma ExtractWrapsErrors(report: Report, ask: Request -> Reply, parse: string -> Parsed<seq<Factor>>)
    ensures var a := Attempt(ask(Request(PromptFor(report), ImageData(report))), IsImage(report), parse);
      var r := Extract(report, ask, parse);
      && (r.Err? <==> a.Err?)
      && (r.Err? ==> r.message == WrapPrefix + a.message)
      && (r.Ok? ==> r.value == a.value)
  {
  }

  /** A reply with no `[` before a later `]` fails with the no-array error. */
  lemma NoSpanRejected(response: string, isImage: bool, parse: string -> Parsed<seq<Factor>>)
    requires forall i, j :: 0 <= i < j < |response| ==> !(response[i] == '[' && response[j] == ']')
    ensures Attempt(Content(response), isImage, parse) == Err(NoJsonArray)
  {
    GreedySpanExists(response, '[', ']');
  }

  /** The factors that come back are the parsed ones from the candidate cut from
      the greedy `[`…`]` span (see `Sanitizer.ArrayCandidateShape` for its form),
      in order: all of them for text, the first three at most for an image. */
  lemma OkIsParsedSpan(response: string, isImage: bool, parse: string -> Parsed<seq<Factor>>)
    requires Attempt(Content(response), isImage, parse).Ok?
    ensures GreedySpan(response, '[', ']').Some? && ArrayCandidate(response).Some?
    ensures var c := ArrayCandidate(response).value;
      var fs := Attempt(Content(response), isImage, parse).value;
      && parse(c).Parsed?
      && fs == parse(c).value[..|fs|]
      && (isImage ==> |fs| == Min(MaxImageFactors, |parse(c).value|))
      && (!isImage ==> fs == parse(c).value)
  {
  }
}
