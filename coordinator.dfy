/** The debate pipeline of backend/coordinator.js: `DebateCoordinator` and its
    `processReport`. The four agents are parameters; `onProgress` is modelled
    by returning the events in the order they are emitted. */
module Coordinator {
  import opened Text
  import opened Records
  import opened LocalReport

  /** The agent entry points the coordinator calls, each returning its record
      or the message of the error it throws. */
  datatype Agents = Agents(
    extract: Report -> Result<seq<Factor>>,
    advocate: (Factor, string) -> Result<Argument>,
    skeptic: (Factor, Argument, string) -> Result<Counter>,
    synthesize: (Factor, Argument, Counter, string) -> Result<Synthesis>)

  /** What a successful `processReport` resolves to. */
  datatype Outcome = Outcome(factors: seq<Factor>, debates: seq<Debate>, finalReport: FinalReport)

  /** Lines 104-107: an error message that reads as a rate limit. */
  predicate IsRateLimit(message: string)
  {
    || Contains(message, "429")
    || Contains(message, "rate_limit")
    || Contains(message, "Rate limit")
    || Contains(message, "API returned undefined")
  }

  /** Advocate, then skeptic on the advocate's argument, then scribe on both:
      the debate record of one factor, or the first error. */
  function Chain(agents: Agents, factor: Factor, text: string): (r: Result<Debate>)
    ensures r.Ok? <==>
      && agents.advocate(factor, text).Ok?
      && agents.skeptic(factor, agents.advocate(factor, text).value, text).Ok?
      && agents.synthesize(factor, agents.advocate(factor, text).value,
           agents.skeptic(factor, agents.advocate(factor, text).value, text).value, text).Ok?
    ensures r.Ok? ==> Completed(agents, text, factor, r.value)
  {
    match agents.advocate(factor, text)
    case Err(m) => Err(m)
    case Ok(a) =>
      match agents.skeptic(factor, a, text)
      case Err(m) => Err(m)
      case Ok(c) =>
        match agents.synthesize(factor, a, c, text)
        case Err(m) => Err(m)
        case Ok(s) => Ok(Debate(factor, a, c, s))
  }

  /** `d` is what the three agents produced for `factor`, each fed the earlier ones' output. */
  predicate Completed(agents: Agents, text: string, factor: Factor, d: Debate)
  {
    && d.factor == factor
    && agents.advocate(factor, text) == Ok(d.advocate)
    && agents.skeptic(factor, d.advocate, text) == Ok(d.skeptic)
    && agents.synthesize(factor, d.advocate, d.skeptic, text) == Ok(d.synthesis)
  }

  /** One pass of the loop body (lines 47-101): the events it emits, the debate
      or the error, and the phase `this.state` is left in. */
  datatype RoundEnd = RoundEnd(events: seq<Progress>, result: Result<Debate>, phase: Phase)

  function Round(agents: Agents, factor: Factor, i: nat, total: nat, text: string, debates: seq<Debate>)
    : (r: RoundEnd)
    requires i <= |debates|
    ensures r.result == Chain(agents, factor, text)
    ensures 1 <= |r.events| <= 6
    ensures forall k :: 0 <= k < |r.events| ==> r.events[k].state != RateLimitReached && r.events[k].state != Error
  {
    var opening := Progress(AdvocateArguing, AdvocateOpening(factor.name), Position(i + 1, total));
    match agents.advocate(factor, text)
    case Err(m) => RoundEnd([opening], Err(m), AdvocateArguing)
    case Ok(a) =>
      var argued := [opening, Progress(AdvocateArguing, AdvocateClaim(a.claim), AdvocateData(a)),
                     Progress(SkepticCountering, SkepticChallenging, NoData)];
      match agents.skeptic(factor, a, text)
      case Err(m) => RoundEnd(argued, Err(m), SkepticCountering)
      case Ok(c) =>
        var countered := argued + [Progress(SkepticCountering, SkepticCounter(c.counterArgument), SkepticData(c)),
                                   Progress(Synthesizing, ScribeJudging, NoData)];
        match agents.synthesize(factor, a, c, text)
        case Err(m) => RoundEnd(countered, Err(m), Synthesizing)
        case Ok(s) =>
          var d := Debate(factor, a, c, s);
          RoundEnd(countered + [Progress(Synthesizing, Verdict(s.verdict), VerdictData(s, (debates + [d])[i]))],
                   Ok(d), Synthesizing)
  }

  /** How the factor loop ends: the debates and events so far, and the error it
      rethrows, if any. */
  datatype LoopEnd = LoopEnd(debates: seq<Debate>, events: seq<Progress>, error: Option<string>)

  /** The factor loop of lines 38-122 from factor `i` on. */
  function Iterate(agents: Agents, factors: seq<Factor>, text: string, i: nat, debates: seq<Debate>, events: seq<Progress>)
    : LoopEnd
    requires i <= |factors| && i <= |debates|
    decreases |factors| - i
  {
    if i == |factors| then LoopEnd(debates, events, None)
    else
      var r := Round(agents, factors[i], i, |factors|, text, debates);
      match r.result
      case Ok(d) => Iterate(agents, factors, text, i + 1, debates + [d], events + r.events)
      case Err(m) =>
        if IsRateLimit(m) && |debates| > 0 then
          LoopEnd(debates, events + r.events + [Progress(RateLimitReached, RateLimitNote(|debates|), NoData)], None)
        else LoopEnd(debates, events + r.events, Some(m))
  }

  function Syntheses(debates: seq<Debate>): (r: seq<Synthesis>)
    ensures |r| == |debates|
    ensures forall k :: 0 <= k < |r| ==> r[k] == debates[k].synthesis
  {
    if |debates| == 0 then [] else [debates[0].synthesis] + Syntheses(debates[1..])
  }

  /** Everything `processReport` leaves behind: the events, the fields and the outcome. */
  datatype Run = Run(
    events: seq<Progress>, state: Phase, factors: seq<Factor>, debates: seq<Debate>,
    finalReport: Option<FinalReport>, outcome: Result<Outcome>)

  function ErrorEvent(message: string): Progress
  {
    Progress(Error, ErrorNote(message), NoData)
  }

  /** The two extraction events before the factor loop. */
  function Found(report: Report, fs: seq<Factor>): seq<Progress>
  {
    [Progress(ExtractingFactors, Deciphering(report.kind == "image"), NoData),
     Progress(ExtractingFactors, FoundFactors(|fs|), FactorsData(fs))]
  }

  /** `processReport(reportData)` on a coordinator holding `factors0`, `debates0`
      and `finalReport0`. */
  function ProcessSpec(agents: Agents, report: Report, factors0: seq<Factor>, debates0: seq<Debate>,
                       finalReport0: Option<FinalReport>): Run
  {
    var opening := [Progress(ExtractingFactors, Deciphering(report.kind == "image"), NoData)];
    match agents.extract(report)
    case Err(m) => Run(opening + [ErrorEvent(m)], Error, factors0, debates0, finalReport0, Err(m))
    case Ok(fs) =>
      var end := Iterate(agents, fs, report.text, 0, debates0, Found(report, fs));
      match end.error
      case Some(m) => Run(end.events + [ErrorEvent(m)], Error, fs, end.debates, finalReport0, Err(m))
      case None =>
        var completed := |end.debates|;
        var isPartial := completed < |fs|;
        var rep := Build(Syntheses(end.debates), |fs|);
        var closing := [
          Progress(GeneratingFinalReport, GeneratingNote(isPartial, completed, |fs|), NoData),
          Progress(Complete, CompleteNote(rep.isPartial, rep.factorsAnalyzed, rep.totalFactors),
                   CompletedData(end.debates, rep))];
        Run(end.events + closing, Complete, fs, end.debates, Some(rep), Ok(Outcome(fs, end.debates, rep)))
  }

  class DebateCoordinator {
    var state: Phase
    var currentReport: Option<string>
    var factors: seq<Factor>
    var debates: seq<Debate>
    var finalReport: Option<FinalReport>

    constructor()
      ensures state == Idle && currentReport == None && factors == [] && debates == [] && finalReport == None
    {
      state := Idle;
      currentReport := None;
      factors := [];
      debates := [];
      finalReport := None;
    }

    /** The `try` body of lines 41-101 for factor `i`. */
    method RunRound(agents: Agents, factor: Factor, i: nat, total: nat, text: string)
      returns (events: seq<Progress>, result: Result<Debate>)
      requires i <= |debates|
      modifies this
      ensures var r := Round(agents, factor, i, total, text, old(debates));
        events == r.events && result == r.result && state == r.phase
      ensures debates == if result.Ok? then old(debates) + [result.value] else old(debates)
      ensures factors == old(factors) && finalReport == old(finalReport) && currentReport == old(currentReport)
    {
      state := AdvocateArguing;
      events := [Progress(state, AdvocateOpening(factor.name), Position(i + 1, total))];
      var advocateArg := agents.advocate(factor, text);
      if advocateArg.Err? {
        return events, Err(advocateArg.message);
      }
      events := events + [Progress(state, AdvocateClaim(advocateArg.value.claim), AdvocateData(advocateArg.value))];

      state := SkepticCountering;
      events := events + [Progress(state, SkepticChallenging, NoData)];
      var skepticArg := agents.skeptic(factor, advocateArg.value, text);
      if skepticArg.Err? {
        return events, Err(skepticArg.message);
      }
      events := events + [Progress(state, SkepticCounter(skepticArg.value.counterArgument), SkepticData(skepticArg.value))];

      state := Synthesizing;
      events := events + [Progress(state, ScribeJudging, NoData)];
      var synthesis := agents.synthesize(factor, advocateArg.value, skepticArg.value, text);
      if synthesis.Err? {
        return events, Err(synthesis.message);
      }
      var d := Debate(factor, advocateArg.value, skepticArg.value, synthesis.value);
      debates := debates + [d];
      events := events + [Progress(state, Verdict(synthesis.value.verdict), VerdictData(synthesis.value, debates[i]))];
      result := Ok(d);
    }

    /** The factor loop of lines 38-122: one round per factor, in order, until a
        rate limit with completed debates ends it early or another error escapes. */
    method DebateFactors(agents: Agents, text: string, found: seq<Progress>)
      returns (events: seq<Progress>, failure: Option<string>)
      modifies this
      ensures LoopEnd(debates, events, failure) == Iterate(agents, factors, text, 0, old(debates), found)
      ensures factors == old(factors) && finalReport == old(finalReport) && currentReport == old(currentReport)
    {
      events := found;
      failure := None;
      for i := 0 to |factors|
        invariant factors == old(factors) && finalReport == old(finalReport) && currentReport == old(currentReport)
        invariant |debates| == |old(debates)| + i
        invariant Iterate(agents, factors, text, i, debates, events) == Iterate(agents, factors, text, 0, old(debates), found)
        invariant failure == None
      {
        var roundEvents, result := RunRound(agents, factors[i], i, |factors|, text);
        events := events + roundEvents;
        if result.Err? {
          if IsRateLimit(result.message) && |debates| > 0 {
            events := events + [Progress(RateLimitReached, RateLimitNote(|debates|), NoData)];
            break;
          }
          failure := Some(result.message);
          break;
        }
      }
    }

    /** `processReport(reportData, onProgress)`. */
    method ProcessReport(agents: Agents, report: Report) returns (events: seq<Progress>, outcome: Result<Outcome>)
      modifies this
      ensures var run := ProcessSpec(agents, report, old(factors), old(debates), old(finalReport));
        && events == run.events && outcome == run.outcome
        && state == run.state && factors == run.factors && debates == run.debates
        && finalReport == run.finalReport
      ensures currentReport == Some(report.text)
    {
      var text := report.text;
      var isImage := report.kind == "image";
      state := ExtractingFactors;
      events := [Progress(state, Deciphering(isImage), NoData)];
      currentReport := Some(text);
      var extracted := agents.extract(report);
      if extracted.Err? {
        state := Error;
        events := events + [ErrorEvent(extracted.message)];
        return events, Err(extracted.message);
      }
      factors := extracted.value;
      events := events + [Progress(state, FoundFactors(|factors|), FactorsData(factors))];
      assert events == Found(report, factors);

      var failure;
      events, failure := DebateFactors(agents, text, events);
      if failure.Some? {
        state := Error;
        events := events + [ErrorEvent(failure.value)];
        return events, Err(failure.value);
      }

      state := GeneratingFinalReport;
      var completedFactors := |debates|;
      var totalFactors := |factors|;
      var isPartial := completedFactors < totalFactors;
      events := events + [Progress(state, GeneratingNote(isPartial, completedFactors, totalFactors), NoData)];
      var built := Build(Syntheses(debates), totalFactors);
      finalReport := Some(built);
      state := Complete;
      events := events + [Progress(state, CompleteNote(built.isPartial, built.factorsAnalyzed, built.totalFactors),
                                   CompletedData(debates, built))];
      outcome := Ok(Outcome(factors, debates, built));
    }
  }
}
