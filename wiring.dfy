/** The coordinator's imports of the four agents (backend/coordinator.js,
    lines 1-4): each agent entry point applied to its own inference call and
    parser, and what the coordinator then makes of an undefined skeptic reply. */
module Wiring {
  import opened Text
  import opened Records
  import opened Coordinator
  import opened CoordinatorFacts
  import Analyst
  import Advocate
  import Skeptic
  import Scribe

  /** The agents the coordinator calls, built from the agent modules. */
  function Wire(
    askAnalyst: Analyst.Request -> Reply, parseFactors: string -> Parsed<seq<Factor>>,
    askAdvocate: Advocate.Request -> Reply, parseArgument: string -> Parsed<Argument>,
    askSkeptic: Skeptic.Request -> Reply, parseCounter: string -> Parsed<Counter>,
    askScribe: Scribe.Request -> Reply, parseSynthesis: string -> Parsed<Synthesis>): Agents
  {
    Agents(
      (report: Report) => Analyst.Extract(report, askAnalyst, parseFactors),
      (factor: Factor, text: string) => Advocate.Generate(factor, text, askAdvocate, parseArgument),
      (factor: Factor, arg: Argument, text: string) => Skeptic.Generate(factor, arg, text, askSkeptic, parseCounter),
      (factor: Factor, arg: Argument, counter: Counter, text: string) =>
        Scribe.Synthesize(factor, arg, counter, text, askScribe, parseSynthesis))
  }

  /** An undefined skeptic reply leaves the skeptic's error reading as a rate limit. */
  lemma MissingSkepticReplyIsRateLimit(
    askAnalyst: Analyst.Request -> Reply, parseFactors: string -> Parsed<seq<Factor>>,
    askAdvocate: Advocate.Request -> Reply, parseArgument: string -> Parsed<Argument>,
    askSkeptic: Skeptic.Request -> Reply, parseCounter: string -> Parsed<Counter>,
    askScribe: Scribe.Request -> Reply, parseSynthesis: string -> Parsed<Synthesis>,
    factor: Factor, arg: Argument, text: string)
    requires askSkeptic(Skeptic.Request(factor, arg, Truncate(text, Skeptic.MaxReportLength))) == Missing
    ensures var agents := Wire(askAnalyst, parseFactors, askAdvocate, parseArgument, askSkeptic, parseCounter,
                               askScribe, parseSynthesis);
      var r := agents.skeptic(factor, arg, text);
      r.Err? && IsRateLimit(r.message)
  {
    var inner := Skeptic.UndefinedResponse;
    var piece := "API returned undefined";
    assert inner[0..|piece|] == piece;
    ContainsAt(inner, piece, 0);
    RateLimitSurvivesWrapping(Skeptic.WrapPrefix, inner);
  }

  /** End to end: when the first factor's debate completes and the skeptic's reply
      on the second factor is undefined, the run still succeeds, with one debate
      and a partial report. */
  lemma MissingSkepticReplyGivesPartialReport(
    askAnalyst: Analyst.Request -> Reply, parseFactors: string -> Parsed<seq<Factor>>,
    askAdvocate: Advocate.Request -> Reply, parseArgument: string -> Parsed<Argument>,
    askSkeptic: Skeptic.Request -> Reply, parseCounter: string -> Parsed<Counter>,
    askScribe: Scribe.Request -> Reply, parseSynthesis: string -> Parsed<Synthesis>,
    report: Report)
    requires var agents := Wire(askAnalyst, parseFactors, askAdvocate, parseArgument, askSkeptic, parseCounter,
                                askScribe, parseSynthesis);
      && agents.extract(report).Ok? && |agents.extract(report).value| >= 2
      && Chain(agents, agents.extract(report).value[0], report.text).Ok?
      && var second := agents.extract(report).value[1];
         && agents.advocate(second, report.text).Ok?
         && askSkeptic(Skeptic.Request(second, agents.advocate(second, report.text).value,
                                       Truncate(report.text, Skeptic.MaxReportLength))) == Missing
    ensures var agents := Wire(askAnalyst, parseFactors, askAdvocate, parseArgument, askSkeptic, parseCounter,
                               askScribe, parseSynthesis);
      var run := ProcessSpec(agents, report, [], [], None);
      run.outcome.Ok? && |run.debates| == 1 && run.outcome.value.finalReport.isPartial
  {
    var agents := Wire(askAnalyst, parseFactors, askAdvocate, parseArgument, askSkeptic, parseCounter,
                       askScribe, parseSynthesis);
    var second := agents.extract(report).value[1];
    var arg := agents.advocate(second, report.text).value;
    MissingSkepticReplyIsRateLimit(askAnalyst, parseFactors, askAdvocate, parseArgument, askSkeptic, parseCounter,
                                   askScribe, parseSynthesis, second, arg, report.text);
    RateLimitAfterFirstDebate(agents, report, [], None);
  }
}
