/** From coordinator to screen: what a client that stays connected to a fresh
    session sees once the run's events have reached it through the server's
    fan-out and its own progress reducer. */
module EndToEnd {
  import opened Records
  import opened Coordinator
  import opened CoordinatorFacts
  import opened Server
  import opened Client

  /** No two factors share an id. */
  predicate DistinctFactorIds(fs: seq<Factor>)
  {
    forall j, k :: 0 <= j < k < |fs| ==> fs[j].id != fs[k].id
  }

  lemma {:induction false} DebatesInConcat(a: seq<Progress>, b: seq<Progress>)
    ensures DebatesIn(a + b) == DebatesIn(a) + DebatesIn(b)
    decreases |b|
  {
    if |b| == 0 {
      assert a + b == a;
    } else {
      var init := b[..|b| - 1];
      assert (a + b)[..|a + b| - 1] == a + init;
      DebatesInConcat(a, init);
    }
  }

  lemma {:induction false} NoDebateEvents(events: seq<Progress>)
    requires forall k :: 0 <= k < |events| ==> !events[k].data.VerdictData?
    ensures DebatesIn(events) == []
    decreases |events|
  {
    if |events| > 0 {
      NoDebateEvents(events[..|events| - 1]);
    }
  }

  /** A round's events carry its debate once, and nothing when it fails. */
  lemma RoundDebates(agents: Agents, factor: Factor, i: nat, total: nat, text: string, debates: seq<Debate>)
    requires |debates| == i
    ensures var r := Round(agents, factor, i, total, text, debates);
      DebatesIn(r.events) == if r.result.Ok? then [r.result.value] else []
  {
    var r := Round(agents, factor, i, total, text, debates);
    if r.result.Ok? {
      VerdictCarriesPushedDebate(agents, factor, i, total, text, debates);
      var init := r.events[..|r.events| - 1];
      assert |r.events| == 6;
      NoDebateEvents(init);
      assert r.events == init + [r.events[5]];
      DebatesInConcat(init, [r.events[5]]);
      assert DebatesIn([r.events[5]]) == [r.result.value] by {
        assert [r.events[5]][..0] == [];
      }
    } else {
      NoDebateEvents(r.events);
    }
  }

  /** Gluing one recorded debate in front of the rest of the loop's debates. */
  lemma GlueDebate(debates: seq<Debate>, d: Debate, rest: seq<Debate>, carried: seq<Debate>)
    requires |debates| + 1 <= |rest| && rest[..|debates| + 1] == debates + [d]
    ensures rest[..|debates|] == debates
    ensures carried + [d] + rest[|debates| + 1..] == carried + rest[|debates|..]
  {
    assert rest[..|debates|] == rest[..|debates| + 1][..|debates|];
    assert rest[|debates|..] == [d] + rest[|debates| + 1..];
  }

  /** The factor loop only appends to the debates it starts with. */
  lemma {:induction false} IteratePrefix(
    agents: Agents, fs: seq<Factor>, text: string, i: nat, debates: seq<Debate>, events: seq<Progress>)
    requires i <= |fs| && |debates| == i
    ensures var e := Iterate(agents, fs, text, i, debates, events);
      i <= |e.debates| && e.debates[..i] == debates
    decreases |fs| - i
  {
    if i < |fs| {
      var r := Round(agents, fs[i], i, |fs|, text, debates);
      if r.result.Ok? {
        var d := r.result.value;
        IteratePrefix(agents, fs, text, i + 1, debates + [d], events + r.events);
        var e := Iterate(agents, fs, text, i + 1, debates + [d], events + r.events);
        assert e.debates[..i] == e.debates[..i + 1][..i];
      }
    }
  }

  /** The factor loop's events carry exactly the debates it records, in order. */
  lemma {:induction false} IterateDebates(
    agents: Agents, fs: seq<Factor>, text: string, i: nat, debates: seq<Debate>, events: seq<Progress>)
    requires i <= |fs| && |debates| == i
    ensures var e := Iterate(agents, fs, text, i, debates, events);
      i <= |e.debates| && DebatesIn(e.events) == DebatesIn(events) + e.debates[i..]
    decreases |fs| - i
  {
    IteratePrefix(agents, fs, text, i, debates, events);
    if i < |fs| {
      var r := Round(agents, fs[i], i, |fs|, text, debates);
      RoundDebates(agents, fs[i], i, |fs|, text, debates);
      DebatesInConcat(events, r.events);
      if r.result.Ok? {
        var d := r.result.value;
        IterateDebates(agents, fs, text, i + 1, debates + [d], events + r.events);
        IteratePrefix(agents, fs, text, i + 1, debates + [d], events + r.events);
        var e := Iterate(agents, fs, text, i + 1, debates + [d], events + r.events);
        GlueDebate(debates, d, e.debates, DebatesIn(events));
      } else {
        StoppedDebates(events + r.events, |debates|);
      }
    }
  }

  lemma StoppedDebates(events: seq<Progress>, n: nat)
    ensures DebatesIn(events + [Progress(RateLimitReached, RateLimitNote(n), NoData)]) == DebatesIn(events)
  {
    var stop := [Progress(RateLimitReached, RateLimitNote(n), NoData)];
    NoDebateEvents(stop);
    DebatesInConcat(events, stop);
  }

  /** The error record the server adds carries no debate. */
  lemma StreamKeepsDebates(run: Run)
    ensures DebatesIn(Stream(run)) == DebatesIn(run.events)
  {
    var tail := if run.outcome.Err? then [ErrorRecord(run.outcome.message)] else [];
    NoDebateEvents(tail);
    DebatesInConcat(run.events, tail);
  }

  /** On a fresh coordinator, the run's events carry exactly the debates it
      records, in order, whether it succeeds or fails. */
  lemma RunDebates(agents: Agents, report: Report, factors0: seq<Factor>, finalReport0: Option<FinalReport>)
    ensures var run := ProcessSpec(agents, report, factors0, [], finalReport0);
      DebatesIn(run.events) == run.debates
  {
    var run := ProcessSpec(agents, report, factors0, [], finalReport0);
    if agents.extract(report).Err? {
      NoDebateEvents(run.events);
    } else {
      var fs := agents.extract(report).value;
      var found := Found(report, fs);
      var e := Iterate(agents, fs, report.text, 0, [], found);
      assert DebatesIn(e.events) == e.debates by {
        NoDebateEvents(found);
        IterateDebates(agents, fs, report.text, 0, [], found);
        assert e.debates[0..] == e.debates;
      }
      LoopThenClosing(agents, report, factors0, finalReport0);
      ClosingDebates(e.events, run.events);
    }
  }

  /** After the factor loop the coordinator only adds events that carry no debate. */
  lemma LoopThenClosing(agents: Agents, report: Report, factors0: seq<Factor>, finalReport0: Option<FinalReport>)
    requires agents.extract(report).Ok?
    ensures var fs := agents.extract(report).value;
      var e := Iterate(agents, fs, report.text, 0, [], Found(report, fs));
      var run := ProcessSpec(agents, report, factors0, [], finalReport0);
      && e.debates == run.debates
      && e.events <= run.events
      && forall k :: |e.events| <= k < |run.events| ==> !run.events[k].data.VerdictData?
  {
  }

  /** What the coordinator emits after the loop carries no debate. */
  lemma ClosingDebates(loop: seq<Progress>, events: seq<Progress>)
    requires loop <= events
    requires forall k :: |loop| <= k < |events| ==> !events[k].data.VerdictData?
    ensures DebatesIn(events) == DebatesIn(loop)
  {
    var closing := events[|loop|..];
    assert events == loop + closing;
    assert forall k :: 0 <= k < |closing| ==> closing[k] == events[|loop| + k];
    NoDebateEvents(closing);
    DebatesInConcat(loop, closing);
  }

  /** On a fresh coordinator, everything the server fans out carries exactly the
      debates the run records, in order. */
  lemma StreamDebates(agents: Agents, report: Report, factors0: seq<Factor>, finalReport0: Option<FinalReport>)
    ensures var run := ProcessSpec(agents, report, factors0, [], finalReport0);
      DebatesIn(Stream(run)) == run.debates
  {
    RunDebates(agents, report, factors0, finalReport0);
    StreamKeepsDebates(ProcessSpec(agents, report, factors0, [], finalReport0));
  }

  /** The client state right after `handleAnalysisStart(id)`. */
  function Started(id: string): View
  {
    View(Some(id), [], None, Starting, [])
  }

  /** What listener `l`'s client holds once the run's events have gone out,
      `lists[k]` being the listeners registered when the k-th of them is sent. */
  function Seen(agents: Agents, report: Report, lists: seq<seq<Listener>>, l: Listener, id: string): View
    requires |lists| == |Stream(ProcessSpec(agents, report, [], [], None))|
  {
    var run := ProcessSpec(agents, report, [], [], None);
    Replay(Started(id), ReceivedBy(BroadcastEach(lists, Stream(run)), l))
  }

  /** The listener lists over a run of `n` events as the server produces them:
      empty when the first event goes out, since `processReport` sends it before
      its first `await` and the client learns the id only from the reply that
      follows, and holding `l` for exactly the events from the k-th on. */
  predicate LateJoin(lists: seq<seq<Listener>>, n: nat, l: Listener, k: nat)
  {
    |lists| == n && 0 < n && k <= n && lists[0] == [] && AllDistinct(lists) && JoinedAt(lists, l, k)
  }

  /** A client whose listener joined at the k-th event misses at least the
      first one, keeps its analysis id and distinct factor ids, and, when the
      factor ids are distinct, lists the run's debates less those whose verdict
      went out before it joined: all of them when it joined before the first
      verdict. */
  lemma SeenDebates(agents: Agents, report: Report, lists: seq<seq<Listener>>, l: Listener, k: nat, id: string)
    requires LateJoin(lists, |Stream(ProcessSpec(agents, report, [], [], None))|, l, k)
    ensures var run := ProcessSpec(agents, report, [], [], None);
      var missed := DebatesIn(Stream(run)[..k]);
      var v := Seen(agents, report, lists, l, id);
      && 1 <= k
      && v.analysisId == Some(id)
      && DistinctIds(v.debates)
      && |missed| <= |run.debates|
      && (DistinctFactorIds(run.factors) ==> v.debates == run.debates[|missed|..])
      && (DistinctFactorIds(run.factors) && missed == [] ==> v.debates == run.debates)
  {
    var run := ProcessSpec(agents, report, [], [], None);
    var s := Stream(run);
    assert 1 <= k by {
      assert l !in lists[0];
    }
    LateJoinerGetsSuffix(lists, s, l, k);
    ReplayDebates(Started(id), s[k..]);
    StreamDebates(agents, report, [], None);
    SuffixDebates(s, k);
    var got := DebatesIn(s[k..]);
    if DistinctFactorIds(run.factors) {
      RunDebatesDistinct(agents, report);
      DistinctSuffix(run.debates, |DebatesIn(s[..k])|);
      CollectDistinct([], got);
    }
  }

  /** The debates carried from the k-th event on are those of the whole
      sequence less the ones carried before it. */
  lemma SuffixDebates(s: seq<Progress>, k: nat)
    requires k <= |s|
    ensures |DebatesIn(s[..k])| <= |DebatesIn(s)|
    ensures DebatesIn(s[k..]) == DebatesIn(s)[|DebatesIn(s[..k])|..]
  {
    assert s == s[..k] + s[k..];
    DebatesInConcat(s[..k], s[k..]);
  }

  /** Distinct factor ids stay distinct in a suffix. */
  lemma DistinctSuffix(ds: seq<Debate>, m: nat)
    requires m <= |ds| && DistinctIds(ds)
    ensures DistinctIds(ds[m..])
  {
    var t := ds[m..];
    forall j, k | 0 <= j < k < |t| ensures t[j].factor.id != t[k].factor.id {
      assert t[j] == ds[m + j] && t[k] == ds[m + k];
    }
  }

  /** A fresh run's debates have distinct factor ids when its factors do. */
  lemma RunDebatesDistinct(agents: Agents, report: Report)
    requires DistinctFactorIds(ProcessSpec(agents, report, [], [], None).factors)
    ensures DistinctIds(ProcessSpec(agents, report, [], [], None).debates)
  {
    var run := ProcessSpec(agents, report, [], [], None);
    if agents.extract(report).Ok? {
      DebatesFollowFactors(agents, report, [], None);
      forall j, k | 0 <= j < k < |run.debates|
        ensures run.debates[j].factor.id != run.debates[k].factor.id
      {
        assert run.debates[j].factor == run.factors[j] && run.debates[k].factor == run.factors[k];
      }
    }
  }

  /** After a successful run, a client whose listener joined before the last
      event shows the final report the coordinator built, in the `COMPLETE`
      state; one that joined later received nothing and still shows the state
      `handleAnalysisStart` set. */
  lemma SeenSuccess(agents: Agents, report: Report, lists: seq<seq<Listener>>, l: Listener, k: nat, id: string)
    requires LateJoin(lists, |Stream(ProcessSpec(agents, report, [], [], None))|, l, k)
    requires ProcessSpec(agents, report, [], [], None).outcome.Ok?
    ensures var run := ProcessSpec(agents, report, [], [], None);
      var v := Seen(agents, report, lists, l, id);
      && (k < |Stream(run)| ==>
            ShowsFinalReport(v) && v.currentState == Complete && v.finalReport == Some(run.outcome.value.finalReport))
      && (k == |Stream(run)| ==> v == Started(id))
  {
    var run := ProcessSpec(agents, report, [], [], None);
    var s := Stream(run);
    LateJoinerGetsSuffix(lists, s, l, k);
    SuccessfulRunReport(agents, report, [], None);
    if k < |s| {
      assert s[k..][|s[k..]| - 1] == s[|s| - 1];
      ReplayLastEvent(Started(id), s[k..]);
    } else {
      assert s[k..] == [];
    }
  }

  /** After a failed run, a client whose listener joined before the last event
      ends in `ERROR` and shows no final report; one that joined later received
      nothing and still shows the state `handleAnalysisStart` set. */
  lemma SeenFailure(agents: Agents, report: Report, lists: seq<seq<Listener>>, l: Listener, k: nat, id: string)
    requires LateJoin(lists, |Stream(ProcessSpec(agents, report, [], [], None))|, l, k)
    requires ProcessSpec(agents, report, [], [], None).outcome.Err?
    ensures var run := ProcessSpec(agents, report, [], [], None);
      var v := Seen(agents, report, lists, l, id);
      && (k < |Stream(run)| ==> v.currentState == Error && !ShowsFinalReport(v))
      && (k == |Stream(run)| ==> v == Started(id))
  {
    var run := ProcessSpec(agents, report, [], [], None);
    var s := Stream(run);
    LateJoinerGetsSuffix(lists, s, l, k);
    if k < |s| {
      assert s[k..][|s[k..]| - 1] == s[|s| - 1];
      ReplayLastEvent(Started(id), s[k..]);
    } else {
      assert s[k..] == [];
    }
  }
}
