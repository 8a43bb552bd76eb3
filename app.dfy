/** The client's progress reducer: the five pieces of `App` state, the three
    handlers that overwrite them, the debate list's de-duplication by factor id
    and the condition under which the final report is shown. */
module Client {
  import opened Records

  /** The five state values of `App`, as one record. */
  datatype View = View(
    analysisId: Option<string>, debates: seq<Debate>, finalReport: Option<FinalReport>,
    currentState: Phase, factors: seq<Factor>)

  /** The state before any analysis, and after a reset. */
  const Initial := View(None, [], None, Idle, [])

  /** `debates.some(d => d.factor.id === id)` */
  predicate HasFactor(debates: seq<Debate>, id: string)
  {
    exists k :: 0 <= k < |debates| && debates[k].factor.id == id
  }

  /** No two debates in the list are about factors with the same id. */
  predicate DistinctIds(debates: seq<Debate>)
  {
    forall j, k :: 0 <= j < k < |debates| ==> debates[j].factor.id != debates[k].factor.id
  }

  /** The `setDebates(prev => …)` updater: append `d` unless a debate on a factor
      with the same id is already listed. */
  function WithDebate(prev: seq<Debate>, d: Debate): (r: seq<Debate>)
    ensures HasFactor(r, d.factor.id)
    ensures prev <= r && |r| <= |prev| + 1
    ensures |r| == |prev| + 1 <==> !HasFactor(prev, d.factor.id)
    ensures |r| == |prev| + 1 ==> r[|prev|] == d
    ensures forall id :: HasFactor(r, id) <==> HasFactor(prev, id) || id == d.factor.id
    ensures DistinctIds(prev) ==> DistinctIds(r)
  {
    if HasFactor(prev, d.factor.id) then prev
    else
      var r := prev + [d];
      assert r[|prev|].factor.id == d.factor.id;
      assert forall id :: HasFactor(prev, id) ==> HasFactor(r, id) by {
        forall id | HasFactor(prev, id) ensures HasFactor(r, id) {
          var k :| 0 <= k < |prev| && prev[k].factor.id == id;
          assert r[k] == prev[k];
        }
      }
      r
  }

  /** Handing the same debate over twice leaves the list as handing it over once. */
  lemma WithDebateIdempotent(prev: seq<Debate>, d: Debate)
    ensures WithDebate(WithDebate(prev, d), d) == WithDebate(prev, d)
  {
  }

  /** `progress.data?.factors` */
  function FactorsIn(data: Payload): Option<seq<Factor>>
  {
    if data.FactorsData? then Some(data.factors) else None
  }

  /** `progress.data?.debate` */
  function DebateIn(data: Payload): Option<Debate>
  {
    if data.VerdictData? then Some(data.debate) else None
  }

  /** `progress.data?.finalReport` */
  function ReportIn(data: Payload): Option<FinalReport>
  {
    if data.CompletedData? then Some(data.finalReport) else None
  }

  /** `handleProgress(progress)`: the state always follows the event; factors
      and the final report are replaced when the event carries them; a carried
      debate goes through the de-duplicating updater. */
  function Reduce(v: View, p: Progress): View
  {
    View(
      v.analysisId,
      match DebateIn(p.data) case Some(d) => WithDebate(v.debates, d) case None => v.debates,
      match ReportIn(p.data) case Some(rep) => Some(rep) case None => v.finalReport,
      p.state,
      match FactorsIn(p.data) case Some(fs) => fs case None => v.factors)
  }

  /** `finalReport && currentState === 'COMPLETE'` */
  predicate ShowsFinalReport(v: View)
  {
    v.finalReport.Some? && v.currentState == Complete
  }

  /** The events handed to `handleProgress` one after the other, in order. */
  function Replay(v: View, events: seq<Progress>): View
  {
    if |events| == 0 then v else Reduce(Replay(v, events[..|events| - 1]), events[|events| - 1])
  }

  /** Every debate some event carries. */
  function Carried(events: seq<Progress>): set<Debate>
  {
    set j | 0 <= j < |events| && events[j].data.VerdictData? :: events[j].data.debate
  }

  /** The debates the events carry, in the order they arrive: never more than
      the events, and each one carried by one of them. */
  function DebatesIn(events: seq<Progress>): (r: seq<Debate>)
    ensures |r| <= |events|
    ensures forall k :: 0 <= k < |r| ==> r[k] in Carried(events)
  {
    if |events| == 0 then []
    else
      var init := events[..|events| - 1];
      var last := events[|events| - 1];
      var earlier := DebatesIn(init);
      var now := match DebateIn(last.data) case Some(d) => [d] case None => [];
      CarriedSnoc(init, events);
      assert forall k :: 0 <= k < |earlier| + |now| ==>
        (earlier + now)[k] == if k < |earlier| then earlier[k] else now[k - |earlier|];
      earlier + now
  }

  /** One more event carries what the earlier ones did, and its own debate. */
  lemma CarriedSnoc(init: seq<Progress>, events: seq<Progress>)
    requires |events| > 0 && init == events[..|events| - 1]
    ensures Carried(init) <= Carried(events)
    ensures events[|events| - 1].data.VerdictData? ==> events[|events| - 1].data.debate in Carried(events)
  {
    forall d | d in Carried(init) ensures d in Carried(events) {
      var j :| 0 <= j < |init| && init[j].data.VerdictData? && init[j].data.debate == d;
      assert events[j] == init[j];
    }
  }

  /** The updater applied to every debate in `ds`, in order. */
  function Collect(prev: seq<Debate>, ds: seq<Debate>): seq<Debate>
  {
    if |ds| == 0 then prev else WithDebate(Collect(prev, ds[..|ds| - 1]), ds[|ds| - 1])
  }

  /** One event: the state is the event's, the id never changes, the debates
      only grow at the end and by at most one, factor ids stay distinct, and
      factors and report change only when the event carries them. */
  lemma ReduceFacts(v: View, p: Progress)
    ensures var r := Reduce(v, p);
      && r.currentState == p.state && r.analysisId == v.analysisId
      && v.debates <= r.debates && |r.debates| <= |v.debates| + 1
      && (DistinctIds(v.debates) ==> DistinctIds(r.debates))
      && (FactorsIn(p.data).None? ==> r.factors == v.factors)
      && (ReportIn(p.data).None? ==> r.finalReport == v.finalReport)
      && (DebateIn(p.data).None? ==> r.debates == v.debates)
  {
  }

  /** An event carrying a debate on a factor not yet listed appends exactly that
      debate; one on a listed factor leaves the list as it was. */
  lemma ReduceDebate(v: View, p: Progress, d: Debate)
    requires DebateIn(p.data) == Some(d)
    ensures !HasFactor(v.debates, d.factor.id) ==> Reduce(v, p).debates == v.debates + [d]
    ensures HasFactor(v.debates, d.factor.id) ==> Reduce(v, p).debates == v.debates
  {
  }

  /** The final report is on screen after an event exactly when the event is
      `COMPLETE` and a report is held, carried by this event or an earlier one. */
  lemma ShowsAfter(v: View, p: Progress)
    ensures ShowsFinalReport(Reduce(v, p)) <==> p.state == Complete && (ReportIn(p.data).Some? || v.finalReport.Some?)
  {
  }

  /** A repeated event changes nothing: re-delivery is harmless. */
  lemma ReduceIdempotent(v: View, p: Progress)
    ensures Reduce(Reduce(v, p), p) == Reduce(v, p)
  {
    if d :| DebateIn(p.data) == Some(d) {
      WithDebateIdempotent(v.debates, d);
    }
  }

  /** Over any run of events the debates follow the updater over the carried
      debates, and factor ids stay distinct. */
  lemma {:induction false} ReplayDebates(v: View, events: seq<Progress>)
    ensures Replay(v, events).debates == Collect(v.debates, DebatesIn(events))
    ensures DistinctIds(v.debates) ==> DistinctIds(Replay(v, events).debates)
    ensures Replay(v, events).analysisId == v.analysisId
    decreases |events|
  {
    if |events| > 0 {
      var init := events[..|events| - 1];
      var last := events[|events| - 1];
      ReplayDebates(v, init);
      var ds := DebatesIn(init);
      match DebateIn(last.data)
      case Some(d) =>
        assert DebatesIn(events) == ds + [d];
        assert (ds + [d])[..|ds|] == ds;
      case None =>
        assert DebatesIn(events) == ds;
    }
  }

  /** When the carried debates have distinct factor ids, none of them already
      listed, every one of them is appended, in order. */
  lemma {:induction false} CollectDistinct(prev: seq<Debate>, ds: seq<Debate>)
    requires DistinctIds(ds)
    requires forall k :: 0 <= k < |ds| ==> !HasFactor(prev, ds[k].factor.id)
    ensures Collect(prev, ds) == prev + ds
    decreases |ds|
  {
    if |ds| > 0 {
      var init := ds[..|ds| - 1];
      var d := ds[|ds| - 1];
      assert DistinctIds(init) by {
        forall j, k | 0 <= j < k < |init| ensures init[j].factor.id != init[k].factor.id {
          assert init[j] == ds[j] && init[k] == ds[k];
        }
      }
      CollectDistinct(prev, init);
      assert !HasFactor(prev + init, d.factor.id) by {
        forall k | 0 <= k < |prev + init| ensures (prev + init)[k].factor.id != d.factor.id {
          if k < |prev| {
            assert (prev + init)[k] == prev[k];
          } else {
            assert (prev + init)[k] == ds[k - |prev|];
          }
        }
      }
      assert prev + init + [d] == prev + ds;
    }
  }

  /** The final report's visibility is decided by the last event alone once it
      is `COMPLETE` with a report, or is `ERROR`. */
  lemma ReplayLastEvent(v: View, events: seq<Progress>)
    requires |events| > 0
    ensures var last := events[|events| - 1];
      && Replay(v, events).currentState == last.state
      && (last.state == Complete && ReportIn(last.data).Some? ==>
            ShowsFinalReport(Replay(v, events)) && Replay(v, events).finalReport == ReportIn(last.data))
      && (last.state == Error ==> !ShowsFinalReport(Replay(v, events)))
  {
  }

  class App {
    var analysisId: Option<string>
    var debates: seq<Debate>
    var finalReport: Option<FinalReport>
    var currentState: Phase
    var factors: seq<Factor>

    /** The five values as one record. */
    function Snapshot(): View
      reads this
    {
      View(analysisId, debates, finalReport, currentState, factors)
    }

    /** The `useState` initial values. */
    constructor()
      ensures Snapshot() == Initial
    {
      analysisId := None;
      debates := [];
      finalReport := None;
      currentState := Idle;
      factors := [];
    }

    /** `handleAnalysisStart(id)` */
    method Start(id: string)
      modifies this
      ensures Snapshot() == View(Some(id), [], None, Starting, [])
    {
      analysisId := Some(id);
      debates := [];
      finalReport := None;
      factors := [];
      currentState := Starting;
    }

    /** `handleProgress(progress)` */
    method HandleProgress(p: Progress)
      modifies this
      ensures Snapshot() == Reduce(old(Snapshot()), p)
    {
      currentState := p.state;
      if p.data.FactorsData? {
        factors := p.data.factors;
      }
      if p.data.VerdictData? {
        debates := WithDebate(debates, p.data.debate);
      }
      if p.data.CompletedData? {
        finalReport := Some(p.data.finalReport);
      }
    }

    /** `handleReset()` */
    method Reset()
      modifies this
      ensures Snapshot() == Initial
    {
      analysisId := None;
      debates := [];
      finalReport := None;
      factors := [];
      currentState := Idle;
    }
  }
}
