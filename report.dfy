/** The final report that `processReport` assembles locally from the completed
    syntheses (backend/coordinator.js, lines 124-160). */
module LocalReport {
  import opened Text
  import opened Records

  const MaxFindings := 8
  const MaxPriorities := 5
  const Worked := "\U{2705} "
  const Failed := "\U{274C} "
  const Separator := " | "
  const Concern := "Several concerns identified requiring immediate attention."
  const Strength := "Overall performance shows areas of strength with opportunities for improvement."
  const PartialNote := "\U{26A0}\U{FE0F} Note: Analysis stopped at factor "
  const PartialTail := " due to rate limits. Results below are based on completed factors only."

  /** `items.map(w => prefix + w)`. */
  function Prefixed(prefix: string, items: seq<string>): (r: seq<string>)
    ensures |r| == |items|
    ensures forall k :: 0 <= k < |r| ==> r[k] == prefix + items[k]
  {
    if |items| == 0 then [] else [prefix + items[0]] + Prefixed(prefix, items[1..])
  }

  /** One synthesis's findings: what worked, then what failed, each marked. */
  function Findings(s: Synthesis): seq<string>
  {
    Prefixed(Worked, s.whatWorked) + Prefixed(Failed, s.whatFailed)
  }

  /** The `flatMap` of the findings over the syntheses, in debate order. */
  function AllFindings(ss: seq<Synthesis>): seq<string>
  {
    if |ss| == 0 then [] else Findings(ss[0]) + AllFindings(ss[1..])
  }

  /** The `flatMap` of the improvement items over the syntheses, in debate order. */
  function AllPriorities(ss: seq<Synthesis>): seq<string>
  {
    if |ss| == 0 then [] else ss[0].howToImprove + AllPriorities(ss[1..])
  }

  /** `syntheses.map(s => s.verdict)`. */
  function Verdicts(ss: seq<Synthesis>): (r: seq<string>)
    ensures |r| == |ss|
    ensures forall k :: 0 <= k < |r| ==> r[k] == ss[k].verdict
  {
    if |ss| == 0 then [] else [ss[0].verdict] + Verdicts(ss[1..])
  }

  /** `s.verdict && s.verdict.toLowerCase().includes('concerning')`. An empty
      verdict contains nothing, and no character outside ASCII lower-cases to
      one of the letters of `concerning` on its own, so ASCII lower-casing decides
      the same. */
  predicate IsConcerning(s: Synthesis)
  {
    Contains(AsciiLower(s.verdict), "concerning")
  }

  predicate AnyConcerning(ss: seq<Synthesis>)
  {
    exists k :: 0 <= k < |ss| && IsConcerning(ss[k])
  }

  /** The `executive_summary` template literal. */
  function Summary(completed: nat, total: nat, isPartial: bool, concern: bool): string
  {
    "Analysis of " + NatToString(completed) + " "
    + (if isPartial then "out of " + NatToString(total) else "")
    + " key factors from the report. "
    + (if isPartial then PartialNote + NatToString(completed) + PartialTail else "")
    + " "
    + (if concern then Concern else Strength)
  }

  /** The report object of lines 141-160, built from the syntheses of the
      completed debates and the number of extracted factors. */
  function Build(ss: seq<Synthesis>, total: nat): (r: FinalReport)
    ensures r.factorsAnalyzed == |ss| && r.totalFactors == total
    ensures r.isPartial <==> |ss| < total
    ensures |r.keyFindings| == Min(MaxFindings, |AllFindings(ss)|)
    ensures r.keyFindings == AllFindings(ss)[..|r.keyFindings|]
    ensures |r.topPriorities| == Min(MaxPriorities, |AllPriorities(ss)|)
    ensures r.topPriorities == AllPriorities(ss)[..|r.topPriorities|]
  {
    var isPartial := |ss| < total;
    FinalReport(
      Summary(|ss|, total, isPartial, AnyConcerning(ss)),
      Take(AllFindings(ss), MaxFindings),
      Take(AllPriorities(ss), MaxPriorities),
      Join(Verdicts(ss), Separator),
      |ss|, total, isPartial)
  }

  /** With no factors the report is never partial. */
  lemma NoFactorsNotPartial(ss: seq<Synthesis>)
    requires ss == []
    ensures !Build(ss, 0).isPartial && Build(ss, 0).factorsAnalyzed == 0
  {
  }

  /** The findings of one more synthesis go after those of the earlier ones. */
  lemma {:induction false} AllFindingsSnoc(ss: seq<Synthesis>, s: Synthesis)
    ensures AllFindings(ss + [s]) == AllFindings(ss) + Findings(s)
    decreases |ss|
  {
    if |ss| == 0 {
      assert [s][1..] == [];
      assert ss + [s] == [s];
    } else {
      var t := ss[1..];
      calc {
        AllFindings(ss + [s]);
        == { assert (ss + [s])[1..] == t + [s]; }
        Findings(ss[0]) + AllFindings(t + [s]);
        == { AllFindingsSnoc(t, s); }
        Findings(ss[0]) + (AllFindings(t) + Findings(s));
        == { AppendAssoc(Findings(ss[0]), AllFindings(t), Findings(s)); }
        AllFindings(ss) + Findings(s);
      }
    }
  }

  /** The improvement items of one more synthesis go after those of the earlier ones. */
  lemma {:induction false} AllPrioritiesSnoc(ss: seq<Synthesis>, s: Synthesis)
    ensures AllPriorities(ss + [s]) == AllPriorities(ss) + s.howToImprove
    decreases |ss|
  {
    if |ss| == 0 {
      assert [s][1..] == [];
    } else {
      assert (ss + [s])[1..] == ss[1..] + [s];
      AllPrioritiesSnoc(ss[1..], s);
    }
  }

  /** Once eight findings are known, later debates do not change the key findings. */
  lemma KeyFindingsSettle(ss: seq<Synthesis>, s: Synthesis, total1: nat, total2: nat)
    requires |AllFindings(ss)| >= MaxFindings
    ensures Build(ss + [s], total1).keyFindings == Build(ss, total2).keyFindings
  {
    AllFindingsSnoc(ss, s);
    assert AllFindings(ss + [s])[..MaxFindings] == AllFindings(ss)[..MaxFindings];
  }

  /** The assessment lists the verdicts in debate order, separated by ` | `. */
  lemma AssessmentSnoc(ss: seq<Synthesis>, s: Synthesis, total: nat)
    ensures Build(ss + [s], total).overallAssessment ==
      if ss == [] then s.verdict else Build(ss, total).overallAssessment + Separator + s.verdict
  {
    assert Verdicts(ss + [s]) == Verdicts(ss) + [s.verdict];
    JoinSnoc(Verdicts(ss), s.verdict, Separator);
  }

  /** The two closing sentences exclude each other at the end of a text. */
  lemma ClosingsDiffer(x: string, y: string)
    ensures !EndsWith(x + Concern, Strength)
    ensures !EndsWith(y + Strength, Concern)
  {
    var a := x + Concern;
    assert a[|a| - 2] == 'n' && Strength[|Strength| - 2] == 't';
    var b := y + Strength;
    assert b[|b| - 2] == 't' && Concern[|Concern| - 2] == 'n';
  }

  /** The summary opens with the number of completed factors. */
  lemma SummaryStart(completed: nat, total: nat, isPartial: bool, concern: bool)
    ensures StartsWith(Summary(completed, total, isPartial, concern), "Analysis of " + NatToString(completed) + " ")
  {
    var head := "Analysis of " + NatToString(completed) + " ";
    var s1 := head + (if isPartial then "out of " + NatToString(total) else "");
    StartsWithAppend(head, if isPartial then "out of " + NatToString(total) else "");
    var s2 := s1 + " key factors from the report. ";
    StartsWithExtend(s1, " key factors from the report. ", head);
    var s3 := s2 + (if isPartial then PartialNote + NatToString(completed) + PartialTail else "");
    StartsWithExtend(s2, if isPartial then PartialNote + NatToString(completed) + PartialTail else "", head);
    StartsWithExtend(s3, " ", head);
    StartsWithExtend(s3 + " ", if concern then Concern else Strength, head);
  }

  /** A partial summary names the total. */
  lemma SummaryNamesTotal(completed: nat, total: nat, concern: bool)
    ensures Contains(Summary(completed, total, true, concern), "out of " + NatToString(total))
  {
    var head := "Analysis of " + NatToString(completed) + " ";
    var mid := "out of " + NatToString(total);
    assert Contains(mid, mid) by { assert mid[..|mid|] == mid; }
    ContainsAfterPrefix(head, mid, mid);
    var s1 := head + mid + " key factors from the report. ";
    ContainsBeforeSuffix(head + mid, " key factors from the report. ", mid);
    var s2 := s1 + (PartialNote + NatToString(completed) + PartialTail);
    ContainsBeforeSuffix(s1, PartialNote + NatToString(completed) + PartialTail, mid);
    ContainsBeforeSuffix(s2, " ", mid);
    ContainsBeforeSuffix(s2 + " ", if concern then Concern else Strength, mid);
  }

  /** The summary closes with the sentence `concern` selects, and not with the other. */
  lemma SummaryClosing(completed: nat, total: nat, isPartial: bool, concern: bool)
    ensures var sum := Summary(completed, total, isPartial, concern);
      && (EndsWith(sum, Concern) <==> concern)
      && (EndsWith(sum, Strength) <==> !concern)
  {
    var sum := Summary(completed, total, isPartial, concern);
    var closing := if concern then Concern else Strength;
    var pre := sum[..|sum| - |closing|];
    assert sum == pre + closing;
    ClosingsDiffer(pre, pre);
  }

  /** The summary opens with the number of completed factors, names the total
      when partial, and closes with the concern sentence exactly when some
      verdict is concerning, the strength sentence otherwise. */
  lemma SummaryShape(ss: seq<Synthesis>, total: nat)
    ensures var r := Build(ss, total); var sum := r.executiveSummary;
      && StartsWith(sum, "Analysis of " + NatToString(|ss|) + " ")
      && (r.isPartial ==> Contains(sum, "out of " + NatToString(total)))
      && (EndsWith(sum, Concern) <==> AnyConcerning(ss))
      && (EndsWith(sum, Strength) <==> !AnyConcerning(ss))
  {
    var isPartial := |ss| < total;
    SummaryStart(|ss|, total, isPartial, AnyConcerning(ss));
    if isPartial {
      SummaryNamesTotal(|ss|, total, AnyConcerning(ss));
    }
    SummaryClosing(|ss|, total, isPartial, AnyConcerning(ss));
  }
}
