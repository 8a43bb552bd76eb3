/** The records that flow through the pipeline: the document, the factors, the
    three agents' outputs, the debate records, the final report and the progress
    events. Each parsed record is given the shape the agents' prompts ask for. */
module Records {

  datatype Option<+T> = None | Some(value: T)

  /** A failure carries the `message` of the JavaScript error that was thrown. */
  datatype Result<+T> = Ok(value: T) | Err(message: string)

  /** What the inference service's call resolves to: the text of the first
      choice, an undefined reply, or a thrown error with its message. */
  datatype Reply = Content(text: string) | Missing | Failed(message: string)

  /** What `JSON.parse` (read as a record of the expected shape) gives back. */
  datatype Parsed<+T> = Parsed(value: T) | SyntaxError(message: string)

  /** `{type, text, mimetype, data}` as the coordinator and the analyst read it. */
  datatype Report = Report(kind: string, text: string, mimetype: string, data: string)

  datatype Factor = Factor(id: string, name: string, description: string, context: string)

  datatype Argument = Argument(claim: string, evidence: seq<string>, reasoning: string, dataLimitations: seq<string>)

  datatype Counter = Counter(
    respondsTo: string, quotedClaim: string, counterArgument: string,
    evidence: seq<string>, reasoning: string, dataLimitations: seq<string>)

  datatype Synthesis = Synthesis(
    verdict: string, whatWorked: seq<string>, whatFailed: seq<string>, whyItHappened: string,
    howToImprove: seq<string>, dataGaps: seq<string>, confidence: string)

  datatype Debate = Debate(factor: Factor, advocate: Argument, skeptic: Counter, synthesis: Synthesis)

  datatype FinalReport = FinalReport(
    executiveSummary: string, keyFindings: seq<string>, topPriorities: seq<string>,
    overallAssessment: string, factorsAnalyzed: nat, totalFactors: nat, isPartial: bool)

  /** The `state` strings the coordinator and the client use. */
  datatype Phase =
    | Idle | Starting | ExtractingFactors | AdvocateArguing | SkepticCountering
    | Synthesizing | RateLimitReached | GeneratingFinalReport | Complete | Error

  /** The human-readable `message` of a progress event, by kind and the values it interpolates. */
  datatype Note =
    | Deciphering(isImage: bool)
    | FoundFactors(count: nat)
    | AdvocateOpening(factorName: string)
    | AdvocateClaim(claim: string)
    | SkepticChallenging
    | SkepticCounter(counterArgument: string)
    | ScribeJudging
    | Verdict(verdict: string)
    | RateLimitNote(completed: nat)
    | GeneratingNote(isPartial: bool, completed: nat, total: nat)
    | CompleteNote(isPartial: bool, analyzed: nat, total: nat)
    | ErrorNote(cause: string)
    | Plain(text: string)

  /** The `data` object of a progress event. */
  datatype Payload =
    | NoData
    | FactorsData(factors: seq<Factor>)
    | Position(currentFactor: nat, totalFactors: nat)
    | AdvocateData(advocateArgument: Argument)
    | SkepticData(skepticArgument: Counter)
    | VerdictData(synthesis: Synthesis, debate: Debate)
    | CompletedData(debates: seq<Debate>, finalReport: FinalReport)

  datatype Progress = Progress(state: Phase, note: Note, data: Payload)
}
