/** What `processReport` guarantees, stated over `Coordinator.ProcessSpec`, which
    `DebateCoordinator.ProcessReport` is proved to follow. Most facts are for a
    fresh coordinator (no debates yet), which is how the server uses it: one
    new coordinator per analysis. */
module CoordinatorFacts {
  import opened Text
  import opened Records
  import opened LocalReport
  import opened Coordinator

  /** No event of `events` is the rate-limit event. */
  predicate NoRateLimitEvent(events: seq<Progress>)
  {
    forall k :: 0 <= k < |events| ==> events[k].state != RateLimitReached
  }

  /** The facts the factor loop keeps when it starts with one debate per factor done. */
  lemma IterateFacts(
    agents: Agents, fs: seq<Factor>, text: string, i: nat, debates: seq<Debate>, events: seq<Progress>)
    requires i <= |fs| && |debates| == i
    requires forall k :: 0 <= k < i ==> Completed(agents, text, fs[k], debates[k])
    requires NoRateLimitEvent(events)
    ensures var e := Iterate(agents, fs, text, i, debates, events);
      && i <= |e.debates| <= |fs|
      && (forall k :: 0 <= k < |e.debates| ==> Completed(agents, text, fs[k], e.debates[k]))
      && (e.error.Some? ==> |e.debates| < |fs| && Chain(agents, fs[|e.debates|], text) == Err(e.error.value)
                            && !(IsRateLimit(e.error.value) && |e.debates| > 0))
      && (e.error.None? && |e.debates| < |fs| ==>
            |e.debates| > 0 && Chain(agents, fs[|e.debates|], text).Err?
            && IsRateLimit(Chain(agents, fs[|e.debates|], text).message))
      && (e.error.None? && |e.debates| < |fs| <==> !NoRateLimitEvent(e.events))
  {
    IterateCompleted(agents, fs, text, i, debates, events);
    IterateError(agents, fs, text, i, debates, events);
    IterateStop(agents, fs, text, i, debates, events);
  }

  /** The loop only appends debates, one per factor at most, each completed for its factor. */
  lemma {:induction false} IterateCompleted(
    agents: Agents, fs: seq<Factor>, text: string, i: nat, debates: seq<Debate>, events: seq<Progress>)
    requires i <= |fs| && |debates| == i
    requires forall k :: 0 <= k < i ==> Completed(agents, text, fs[k], debates[k])
    ensures var e := Iterate(agents, fs, text, i, debates, events);
      && i <= |e.debates| <= |fs|
      && (forall k :: 0 <= k < |e.debates| ==> Completed(agents, text, fs[k], e.debates[k]))
    decreases |fs| - i
  {
    if i < |fs| {
      var r := Round(agents, fs[i], i, |fs|, text, debates);
      if r.result.Ok? {
        var next := debates + [r.result.value];
        assert forall k :: 0 <= k < i + 1 ==> Completed(agents, text, fs[k], next[k]) by {
          forall k | 0 <= k < i + 1 ensures Completed(agents, text, fs[k], next[k]) {
            if k < i { assert next[k] == debates[k]; }
          }
        }
        IterateCompleted(agents, fs, text, i + 1, next, events + r.events);
      }
    }
  }

  /** A rethrown error is the failure of the factor after the last debate, and
      not a rate limit after a debate. */
  lemma {:induction false} IterateError(
    agents: Agents, fs: seq<Factor>, text: string, i: nat, debates: seq<Debate>, events: seq<Progress>)
    requires i <= |fs| && |debates| == i
    ensures var e := Iterate(agents, fs, text, i, debates, events);
      e.error.Some? ==> |e.debates| < |fs| && Chain(agents, fs[|e.debates|], text) == Err(e.error.value)
                        && !(IsRateLimit(e.error.value) && |e.debates| > 0)
    decreases |fs| - i
  {
    if i < |fs| {
      var r := Round(agents, fs[i], i, |fs|, text, debates);
      if r.result.Ok? {
        IterateError(agents, fs, text, i + 1, debates + [r.result.value], events + r.events);
      }
    }
  }

  /** The loop stops early without an error only on a rate limit after a debate,
      and that is exactly when it emits the rate-limit event. */
  lemma {:induction false} IterateStop(
    agents: Agents, fs: seq<Factor>, text: string, i: nat, debates: seq<Debate>, events: seq<Progress>)
    requires i <= |fs| && |debates| == i
    requires NoRateLimitEvent(events)
    ensures var e := Iterate(agents, fs, text, i, debates, events);
      && (e.error.None? && |e.debates| < |fs| ==>
            |e.debates| > 0 && Chain(agents, fs[|e.debates|], text).Err?
            && IsRateLimit(Chain(agents, fs[|e.debates|], text).message))
      && (e.error.None? && |e.debates| < |fs| <==> !NoRateLimitEvent(e.events))
    decreases |fs| - i
  {
    if i < |fs| {
      var r := Round(agents, fs[i], i, |fs|, text, debates);
      assert NoRateLimitEvent(events + r.events);
      if r.result.Ok? {
        IterateStop(agents, fs, text, i + 1, debates + [r.result.value], events + r.events);
      } else if IsRateLimit(r.result.message) && |debates| > 0 {
        var stopped := events + r.events + [Progress(RateLimitReached, RateLimitNote(|debates|), NoData)];
        assert stopped[|stopped| - 1].state == RateLimitReached;
      }
    }
  }

  /** The run on a fresh coordinator when extraction succeeds with `fs`. */
  lemma FreshRunLoop(agents: Agents, report: Report, factors0: seq<Factor>, finalReport0: Option<FinalReport>)
    requires agents.extract(report).Ok?
    ensures var fs := agents.extract(report).value;
      var e := Iterate(agents, fs, report.text, 0, [], Found(report, fs));
      var run := ProcessSpec(agents, report, factors0, [], finalReport0);
      && run.factors == fs && run.debates == e.debates
      && (run.outcome.Err? <==> e.error.Some?)
      && (run.outcome.Err? ==> run.outcome.message == e.error.value)
      && (run.outcome.Ok? ==>
            && |run.events| == |e.events| + 2 && run.events[..|e.events|] == e.events
            && run.events[|e.events|].state == GeneratingFinalReport
            && run.events[|e.events| + 1].state == Complete)
  {
    var fs := agents.extract(report).value;
    var e := Iterate(agents, fs, report.text, 0, [], Found(report, fs));
    var run := ProcessSpec(agents, report, factors0, [], finalReport0);
    if e.error.None? {
      assert run.events[..|e.events|] == e.events;
    }
  }

  /** Debates are recorded in factor order, one per factor at most, each from the
      advocate, the skeptic fed that argument and the scribe fed both. */
  lemma DebatesFollowFactors(agents: Agents, report: Report, factors0: seq<Factor>, finalReport0: Option<FinalReport>)
    requires agents.extract(report).Ok?
    ensures var run := ProcessSpec(agents, report, factors0, [], finalReport0);
      && run.factors == agents.extract(report).value
      && |run.debates| <= |run.factors|
      && forall k :: 0 <= k < |run.debates| ==> Completed(agents, report.text, run.factors[k], run.debates[k])
  {
    var fs := agents.extract(report).value;
    var found := Found(report, fs);
    IterateFacts(agents, fs, report.text, 0, [], found);
    FreshRunLoop(agents, report, factors0, finalReport0);
  }

  /** A successful run reports how many factors were analysed out of how many,
      is partial exactly when fewer debates than factors completed, and ends with
      the final-report event and then the completion event. */
  lemma SuccessfulRunReport(agents: Agents, report: Report, factors0: seq<Factor>, finalReport0: Option<FinalReport>)
    requires ProcessSpec(agents, report, factors0, [], finalReport0).outcome.Ok?
    ensures var run := ProcessSpec(agents, report, factors0, [], finalReport0);
      var rep := run.outcome.value.finalReport;
      && run.state == Complete && run.finalReport == Some(rep)
      && run.outcome.value == Outcome(run.factors, run.debates, rep)
      && rep.factorsAnalyzed == |run.debates| && rep.totalFactors == |run.factors|
      && (rep.isPartial <==> |run.debates| < |run.factors|)
      && rep.overallAssessment == Join(Verdicts(Syntheses(run.debates)), Separator)
      && |run.events| >= 2
      && run.events[|run.events| - 2].state == GeneratingFinalReport
      && run.events[|run.events| - 1] ==
           Progress(Complete, CompleteNote(rep.isPartial, |run.debates|, |run.factors|), CompletedData(run.debates, rep))
  {
  }

  /** Early stop: a successful run that is partial stopped at the first factor whose
      debate failed with a rate-limit message, after at least one debate, and it
      emitted the rate-limit event; a complete run emitted none. The coordinator's
      own state is never the rate-limit state. */
  lemma PartialRunStoppedOnRateLimit(agents: Agents, report: Report, factors0: seq<Factor>, finalReport0: Option<FinalReport>)
    requires ProcessSpec(agents, report, factors0, [], finalReport0).outcome.Ok?
    ensures var run := ProcessSpec(agents, report, factors0, [], finalReport0);
      var n := |run.debates|;
      && run.state != RateLimitReached
      && (n < |run.factors| ==>
            n >= 1 && Chain(agents, run.factors[n], report.text).Err?
            && IsRateLimit(Chain(agents, run.factors[n], report.text).message))
      && (n < |run.factors| <==> !NoRateLimitEvent(run.events))
  {
    var fs := agents.extract(report).value;
    var found := Found(report, fs);
    var e := Iterate(agents, fs, report.text, 0, [], found);
    IterateFacts(agents, fs, report.text, 0, [], found);
    FreshRunLoop(agents, report, factors0, finalReport0);
    var run := ProcessSpec(agents, report, factors0, [], finalReport0);
    NoRateLimitAfterPrefix(run.events, e.events);
  }

  /** Two closing events that are not the rate-limit event change nothing about
      whether one occurred. */
  lemma NoRateLimitAfterPrefix(all: seq<Progress>, pre: seq<Progress>)
    requires |all| == |pre| + 2 && all[..|pre|] == pre
    requires all[|pre|].state != RateLimitReached && all[|pre| + 1].state != RateLimitReached
    ensures NoRateLimitEvent(all) <==> NoRateLimitEvent(pre)
  {
    if NoRateLimitEvent(pre) {
      forall k | 0 <= k < |all| ensures all[k].state != RateLimitReached {
        if k < |pre| { assert all[k] == pre[k]; }
      }
    } else {
      var k :| 0 <= k < |pre| && pre[k].state == RateLimitReached;
      assert all[k] == pre[k];
    }
  }

  /** On any coordinator, a failed run leaves the state `ERROR`, emits the error
      event with the message last, rethrows that same message and keeps the final
      report it had. */
  lemma FailedRunIsError(agents: Agents, report: Report, factors0: seq<Factor>, debates0: seq<Debate>,
                         finalReport0: Option<FinalReport>)
    requires ProcessSpec(agents, report, factors0, debates0, finalReport0).outcome.Err?
    ensures var run := ProcessSpec(agents, report, factors0, debates0, finalReport0);
      && run.state == Error
      && |run.events| > 0 && run.events[|run.events| - 1] == ErrorEvent(run.outcome.message)
      && run.finalReport == finalReport0
  {
  }

  /** On a fresh coordinator, the error a failed run rethrows is the extraction
      error, or the error of the first factor whose debate failed, and that
      error was no rate limit unless no debate had completed. */
  lemma FailedRunCause(agents: Agents, report: Report, factors0: seq<Factor>, finalReport0: Option<FinalReport>)
    requires ProcessSpec(agents, report, factors0, [], finalReport0).outcome.Err?
    ensures var run := ProcessSpec(agents, report, factors0, [], finalReport0);
      var m := run.outcome.message;
      || (agents.extract(report) == Err(m) && run.debates == [])
      || (&& agents.extract(report).Ok?
          && |run.debates| < |run.factors|
          && Chain(agents, run.factors[|run.debates|], report.text) == Err(m)
          && (IsRateLimit(m) ==> run.debates == []))
  {
    if agents.extract(report).Ok? {
      var fs := agents.extract(report).value;
      var found := Found(report, fs);
      IterateFacts(agents, fs, report.text, 0, [], found);
      FreshRunLoop(agents, report, factors0, finalReport0);
    }
  }

  /** If the first factor's debate fails, a fresh run fails with that error and
      records no debate, whether or not the message reads as a rate limit. */
  lemma FirstFactorFailureIsFatal(agents: Agents, report: Report, factors0: seq<Factor>, finalReport0: Option<FinalReport>)
    requires agents.extract(report).Ok? && |agents.extract(report).value| > 0
    requires Chain(agents, agents.extract(report).value[0], report.text).Err?
    ensures var run := ProcessSpec(agents, report, factors0, [], finalReport0);
      && run.outcome == Err(Chain(agents, agents.extract(report).value[0], report.text).message)
      && run.debates == [] && run.state == Error
  {
  }

  /** On a fresh coordinator, the verdict event of a round carries the debate that
      round has just recorded. */
  lemma VerdictCarriesPushedDebate(agents: Agents, factor: Factor, i: nat, total: nat, text: string, debates: seq<Debate>)
    requires |debates| == i
    ensures var r := Round(agents, factor, i, total, text, debates);
      r.result.Ok? ==>
        r.events[|r.events| - 1] ==
          Progress(Synthesizing, Verdict(r.result.value.synthesis.verdict),
                   VerdictData(r.result.value.synthesis, r.result.value))
  {
    var r := Round(agents, factor, i, total, text, debates);
    if r.result.Ok? {
      assert (debates + [r.result.value])[i] == r.result.value;
    }
  }

  /** A message that reads as a rate limit still does with a prefix put in front,
      so the agents' wrapping keeps the classification. */
  lemma RateLimitSurvivesWrapping(prefix: string, message: string)
    requires IsRateLimit(message)
    ensures IsRateLimit(prefix + message)
  {
    if Contains(message, "429") {
      ContainsAfterPrefix(prefix, message, "429");
    } else if Contains(message, "rate_limit") {
      ContainsAfterPrefix(prefix, message, "rate_limit");
    } else if Contains(message, "Rate limit") {
      ContainsAfterPrefix(prefix, message, "Rate limit");
    } else {
      ContainsAfterPrefix(prefix, message, "API returned undefined");
    }
  }

  /** A fresh run whose first debate completes and whose second fails with a
      rate-limit message completes with that one debate and a partial report. */
  lemma RateLimitAfterFirstDebate(agents: Agents, report: Report, factors0: seq<Factor>, finalReport0: Option<FinalReport>)
    requires agents.extract(report).Ok? && |agents.extract(report).value| >= 2
    requires Chain(agents, agents.extract(report).value[0], report.text).Ok?
    requires var c := Chain(agents, agents.extract(report).value[1], report.text); c.Err? && IsRateLimit(c.message)
    ensures var run := ProcessSpec(agents, report, factors0, [], finalReport0);
      && run.outcome.Ok? && run.debates == [Chain(agents, agents.extract(report).value[0], report.text).value]
      && run.outcome.value.finalReport.isPartial
  {
    var fs := agents.extract(report).value;
    var d := Chain(agents, fs[0], report.text).value;
    var r0 := Round(agents, fs[0], 0, |fs|, report.text, []);
    assert Iterate(agents, fs, report.text, 0, [], Found(report, fs))
      == Iterate(agents, fs, report.text, 1, [d], Found(report, fs) + r0.events);
  }
}
