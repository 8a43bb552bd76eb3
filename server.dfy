/** The server's bookkeeping: the registry of active analyses, each session's
    list of stream listeners, the fan-out of progress events to them, and the
    upload checks of the analyze endpoint. */
module Server {
  import opened Records
  import opened Coordinator

  /** A stream listener, told apart from the others by identity, as the
      `sendUpdate` closures are by `indexOf`. */
  type Listener = nat

  const NotFoundError := "Analysis session not found"
  const NoFileError := "No file uploaded"
  const PdfError := "Could not parse PDF. Ensure the file is not password protected."
  const UnsupportedError := "Unsupported file type. Please upload a PDF, DOCX, or TXT file."

  const PdfType := "application/pdf"
  const DocxType := "application/vnd.openxmlformats-officedocument.wordprocessingml.document"
  const TextType := "text/plain"

  /** `listeners.indexOf(l)`: the first position of `l`, or -1. */
  function Find(listeners: seq<Listener>, l: Listener): (r: int)
    ensures -1 <= r < |listeners|
    ensures r == -1 <==> l !in listeners
    ensures 0 <= r ==> listeners[r] == l && l !in listeners[..r]
  {
    if |listeners| == 0 then -1
    else if listeners[0] == l then 0
    else
      var r := Find(listeners[1..], l);
      if r == -1 then -1
      else
        assert listeners[..r + 1] == [listeners[0]] + listeners[1..][..r];
        r + 1
  }

  /** The close handler's effect on the list: `splice(indexOf(l), 1)` when `l`
      is listed, nothing otherwise. */
  function RemoveFirst(listeners: seq<Listener>, l: Listener): (r: seq<Listener>)
    ensures l !in listeners ==> r == listeners
    ensures l in listeners ==>
      exists i :: 0 <= i < |listeners| && listeners[i] == l && l !in listeners[..i]
                  && r == listeners[..i] + listeners[i + 1..]
    ensures multiset(r) == multiset(listeners) - multiset{l}
  {
    var i := Find(listeners, l);
    if i == -1 then listeners
    else
      assert listeners == listeners[..i] + [l] + listeners[i + 1..];
      listeners[..i] + listeners[i + 1..]
  }

  /** No listener is listed twice. */
  predicate Distinct(listeners: seq<Listener>)
  {
    forall j, k :: 0 <= j < k < |listeners| ==> listeners[j] != listeners[k]
  }

  /** Subscribing a new listener and closing its stream restores the list. */
  lemma SubscribeThenClose(listeners: seq<Listener>, l: Listener)
    requires l !in listeners
    ensures RemoveFirst(listeners + [l], l) == listeners
  {
    assert (listeners + [l])[..|listeners|] == listeners;
  }

  /** Closing keeps the list free of duplicates and the other listeners in their order. */
  lemma CloseKeepsDistinct(listeners: seq<Listener>, l: Listener)
    requires Distinct(listeners)
    ensures Distinct(RemoveFirst(listeners, l))
    ensures l !in RemoveFirst(listeners, l)
  {
    var r := RemoveFirst(listeners, l);
    var i := Find(listeners, l);
    if i != -1 {
      assert r == listeners[..i] + listeners[i + 1..];
      assert |r| == |listeners| - 1;
      assert forall j :: 0 <= j < |r| ==> r[j] == listeners[if j < i then j else j + 1];
    }
  }

  /** One call of a listener with an event. */
  datatype Delivery<E> = Delivery(to: Listener, event: E)

  /** `listeners.forEach(listener => listener(p))` */
  function Fanout<E>(listeners: seq<Listener>, p: E): (r: seq<Delivery<E>>)
    ensures |r| == |listeners|
    ensures forall k :: 0 <= k < |r| ==> r[k] == Delivery(listeners[k], p)
  {
    if |listeners| == 0 then [] else Fanout(listeners[..|listeners| - 1], p) + [Delivery(listeners[|listeners| - 1], p)]
  }

  /** Every event fanned out in turn to the same listeners. */
  function Broadcast<E>(listeners: seq<Listener>, events: seq<E>): seq<Delivery<E>>
  {
    if |events| == 0 then [] else Broadcast(listeners, events[..|events| - 1]) + Fanout(listeners, events[|events| - 1])
  }

  /** The events a listener was called with, in order. */
  function ReceivedBy<E>(sent: seq<Delivery<E>>, l: Listener): seq<E>
  {
    if |sent| == 0 then []
    else ReceivedBy(sent[..|sent| - 1], l) + if sent[|sent| - 1].to == l then [sent[|sent| - 1].event] else []
  }

  lemma {:induction false} ReceivedByConcat<E>(a: seq<Delivery<E>>, b: seq<Delivery<E>>, l: Listener)
    ensures ReceivedBy(a + b, l) == ReceivedBy(a, l) + ReceivedBy(b, l)
    decreases |b|
  {
    if |b| == 0 {
      assert a + b == a;
    } else {
      var init := b[..|b| - 1];
      assert (a + b)[..|a + b| - 1] == a + init;
      ReceivedByConcat(a, init, l);
    }
  }

  /** In one fan-out, a listener listed once is called once with the event, and
      one not listed is not called. */
  lemma {:induction false} ReceivedByFanout<E>(listeners: seq<Listener>, p: E, l: Listener)
    requires Distinct(listeners)
    ensures ReceivedBy(Fanout(listeners, p), l) == if l in listeners then [p] else []
    decreases |listeners|
  {
    if |listeners| > 0 {
      var init := listeners[..|listeners| - 1];
      var last := listeners[|listeners| - 1];
      assert listeners == init + [last];
      assert Distinct(init) by {
        forall j, k | 0 <= j < k < |init| ensures init[j] != init[k] {
          assert init[j] == listeners[j] && init[k] == listeners[k];
        }
      }
      ReceivedByFanout(init, p, l);
      var f := Fanout(listeners, p);
      assert f[..|f| - 1] == Fanout(init, p);
      if last == l {
        assert l !in init by {
          forall k | 0 <= k < |init| ensures init[k] != l {
            assert init[k] == listeners[k];
          }
        }
      }
    }
  }

  /** What a listener receives over one more event is what it received before,
      then what it receives from that event's fan-out. */
  lemma ReceivedBySnoc<E>(listeners: seq<Listener>, events: seq<E>, l: Listener)
    requires |events| > 0
    ensures ReceivedBy(Broadcast(listeners, events), l)
         == ReceivedBy(Broadcast(listeners, events[..|events| - 1]), l)
            + ReceivedBy(Fanout(listeners, events[|events| - 1]), l)
  {
    ReceivedByConcat(Broadcast(listeners, events[..|events| - 1]), Fanout(listeners, events[|events| - 1]), l);
  }

  /** A connected listener gets every event, once, in emission order. */
  lemma {:induction false} ConnectedGetsAll<E>(listeners: seq<Listener>, events: seq<E>, l: Listener)
    requires Distinct(listeners) && l in listeners
    ensures ReceivedBy(Broadcast(listeners, events), l) == events
    decreases |events|
  {
    if |events| > 0 {
      var init := events[..|events| - 1];
      var last := events[|events| - 1];
      calc {
        ReceivedBy(Broadcast(listeners, events), l);
        == { ReceivedBySnoc(listeners, events, l); }
        ReceivedBy(Broadcast(listeners, init), l) + ReceivedBy(Fanout(listeners, last), l);
        == { ConnectedGetsAll(listeners, init, l); ReceivedByFanout(listeners, last, l); }
        init + [last];
        == { assert init + [last] == events; }
        events;
      }
    }
  }

  /** A listener not in the list gets nothing. */
  lemma {:induction false} UnconnectedGetsNone<E>(listeners: seq<Listener>, events: seq<E>, l: Listener)
    requires Distinct(listeners) && l !in listeners
    ensures ReceivedBy(Broadcast(listeners, events), l) == []
    decreases |events|
  {
    if |events| > 0 {
      UnconnectedGetsNone(listeners, events[..|events| - 1], l);
      ReceivedBySnoc(listeners, events, l);
      ReceivedByFanout(listeners, events[|events| - 1], l);
    }
  }

  /** Each listener that stays connected gets every event, once, in the order
      the coordinator emitted them; a listener not connected gets none. */
  lemma EveryListenerGetsEveryEvent<E>(listeners: seq<Listener>, events: seq<E>, l: Listener)
    requires Distinct(listeners)
    ensures ReceivedBy(Broadcast(listeners, events), l) == if l in listeners then events else []
  {
    if l in listeners {
      ConnectedGetsAll(listeners, events, l);
    } else {
      UnconnectedGetsNone(listeners, events, l);
    }
  }

  /** Each event fanned out to the listeners registered at the moment it goes
      out: `lists[k]` is `analysis.listeners` when the k-th event is sent, so a
      stream handler that runs between two events shows up as a change of list. */
  function BroadcastEach<E>(lists: seq<seq<Listener>>, events: seq<E>): seq<Delivery<E>>
    requires |lists| == |events|
  {
    if |events| == 0 then []
    else BroadcastEach(lists[..|events| - 1], events[..|events| - 1]) + Fanout(lists[|events| - 1], events[|events| - 1])
  }

  /** No listener list repeats a listener. */
  predicate AllDistinct(lists: seq<seq<Listener>>)
  {
    forall k :: 0 <= k < |lists| ==> Distinct(lists[k])
  }

  /** `l` is registered for exactly the events from position `k` on: it
      subscribed before the k-th event went out and did not close. */
  predicate JoinedAt(lists: seq<seq<Listener>>, l: Listener, k: nat)
  {
    forall i :: 0 <= i < |lists| ==> (l in lists[i] <==> k <= i)
  }

  /** A listener that joins at the k-th event gets the events from there on,
      once each, in order, and none of the ones before. */
  lemma {:induction false} LateJoinerGetsSuffix<E>(lists: seq<seq<Listener>>, events: seq<E>, l: Listener, k: nat)
    requires |lists| == |events| && k <= |events|
    requires AllDistinct(lists) && JoinedAt(lists, l, k)
    ensures ReceivedBy(BroadcastEach(lists, events), l) == events[k..]
    decreases |events|
  {
    var n := |events|;
    if n > 0 {
      var il := lists[..n - 1];
      var ie := events[..n - 1];
      var k' := if k < n then k else n - 1;
      assert AllDistinct(il) by {
        forall j | 0 <= j < |il| ensures Distinct(il[j]) {
          assert il[j] == lists[j];
        }
      }
      assert JoinedAt(il, l, k') by {
        forall i | 0 <= i < |il| ensures (l in il[i] <==> k' <= i) {
          assert il[i] == lists[i];
        }
      }
      LateJoinerGetsSuffix(il, ie, l, k');
      assert Distinct(lists[n - 1]);
      ReceivedByConcat(BroadcastEach(il, ie), Fanout(lists[n - 1], events[n - 1]), l);
      ReceivedByFanout(lists[n - 1], events[n - 1], l);
      if k < n {
        assert l in lists[n - 1];
        assert events[k..] == ie[k..] + [events[n - 1]];
      } else {
        assert l !in lists[n - 1];
        assert ie[k'..] == [] && events[k..] == [];
      }
    }
  }

  /** `{ state: 'ERROR', message }`, sent to every listener when the run rejects. */
  function ErrorRecord(message: string): Progress
  {
    Progress(Error, Plain(message), NoData)
  }

  /** Everything the analyze handler fans out for a run: its progress events and,
      when the run fails, the error record after them. */
  function Stream(run: Run): (r: seq<Progress>)
    ensures run.events <= r
    ensures run.outcome.Ok? ==> r == run.events
    ensures run.outcome.Err? ==> |r| == |run.events| + 1 && r[|r| - 1] == ErrorRecord(run.outcome.message)
  {
    run.events + if run.outcome.Err? then [ErrorRecord(run.outcome.message)] else []
  }

  /** The upload, as multer hands it over; its bytes are only read by the parsers. */
  datatype Upload = Upload(mimetype: string, buffer: seq<bv8>)

  /** The branch `extractText` takes for a MIME type. */
  datatype FileKind = Pdf | Docx | PlainText | Unsupported

  function Classify(mimetype: string): (k: FileKind)
    ensures k == Pdf <==> mimetype == PdfType
    ensures k == Docx <==> mimetype == DocxType
    ensures k == PlainText <==> mimetype == TextType
    ensures k == Unsupported <==> mimetype !in {PdfType, DocxType, TextType}
  {
    if mimetype == PdfType then Pdf
    else if mimetype == DocxType then Docx
    else if mimetype == TextType then PlainText
    else Unsupported
  }

  /** `extractText(file)`, with the three libraries as parameters: a PDF parser
      whose failure is replaced by a fixed message, a DOCX reader whose error
      escapes as it is, and a UTF-8 decoder that cannot fail. */
  function ExtractText(file: Upload, parsePdf: seq<bv8> -> Result<string>,
                       readDocx: seq<bv8> -> Result<string>, decodeUtf8: seq<bv8> -> string)
    : (r: Result<string>)
    ensures Classify(file.mimetype) == Unsupported ==> r == Err(UnsupportedError)
    ensures Classify(file.mimetype) == Pdf ==>
      (r.Ok? <==> parsePdf(file.buffer).Ok?) && (r.Err? ==> r.message == PdfError)
    ensures Classify(file.mimetype) == Pdf && r.Ok? ==> r == parsePdf(file.buffer)
    ensures Classify(file.mimetype) == Docx ==> r == readDocx(file.buffer)
    ensures Classify(file.mimetype) == PlainText ==> r == Ok(decodeUtf8(file.buffer))
  {
    match Classify(file.mimetype)
    case Pdf => if parsePdf(file.buffer).Ok? then parsePdf(file.buffer) else Err(PdfError)
    case Docx => readDocx(file.buffer)
    case PlainText => Ok(decodeUtf8(file.buffer))
    case Unsupported => Err(UnsupportedError)
  }

  /** An HTTP reply: a status and a JSON body. */
  datatype Body = ErrorBody(error: string) | IdBody(analysisId: string)
  datatype Response = Response(status: nat, body: Body)

  /** What the stream endpoint does with an id. */
  datatype StreamReply = NotFound(error: string) | Subscribed

  /** One analysis: its id, its stream listeners and its own coordinator. */
  class Session {
    const id: string
    var listeners: seq<Listener>
    const coordinator: DebateCoordinator

    constructor(id: string)
      ensures this.id == id && listeners == [] && fresh(coordinator)
      ensures coordinator.state == Idle && coordinator.currentReport == None
      ensures coordinator.factors == [] && coordinator.debates == [] && coordinator.finalReport == None
    {
      this.id := id;
      listeners := [];
      coordinator := new DebateCoordinator();
    }

    /** `analysis.listeners.push(sendUpdate)` */
    method Subscribe(l: Listener)
      modifies this
      ensures listeners == old(listeners) + [l]
    {
      listeners := listeners + [l];
    }

    /** The close handler: `indexOf`, then `splice(idx, 1)` when found. */
    method Unsubscribe(l: Listener)
      modifies this
      ensures listeners == RemoveFirst(old(listeners), l)
    {
      var idx := Find(listeners, l);
      if idx > -1 {
        listeners := listeners[..idx] + listeners[idx + 1..];
      }
    }

    /** `analysis.listeners.forEach(listener => listener(p))` */
    method Deliver(p: Progress) returns (sent: seq<Delivery<Progress>>)
      ensures sent == Fanout(listeners, p)
    {
      sent := [];
      for k := 0 to |listeners|
        invariant sent == Fanout(listeners[..k], p)
      {
        assert listeners[..k + 1][..k] == listeners[..k];
        sent := sent + [Delivery(listeners[k], p)];
      }
      assert listeners[..|listeners|] == listeners;
    }

    /** The background run of the analyze handler: the coordinator's progress
        callback fans each event out, and the `catch` fans out the error record. */
    method Run(agents: Agents, report: Report) returns (sent: seq<Delivery<Progress>>)
      modifies coordinator
      ensures var run := ProcessSpec(agents, report, old(coordinator.factors), old(coordinator.debates),
                                     old(coordinator.finalReport));
        && sent == Broadcast(listeners, Stream(run))
        && coordinator.state == run.state && coordinator.factors == run.factors
        && coordinator.debates == run.debates && coordinator.finalReport == run.finalReport
      ensures coordinator.currentReport == Some(report.text)
    {
      ghost var run := ProcessSpec(agents, report, coordinator.factors, coordinator.debates, coordinator.finalReport);
      var events, outcome := coordinator.ProcessReport(agents, report);
      sent := [];
      for k := 0 to |events|
        invariant sent == Broadcast(listeners, events[..k])
        modifies {}
      {
        var out := Deliver(events[k]);
        assert events[..k + 1][..k] == events[..k];
        sent := sent + out;
      }
      assert events[..|events|] == events;
      if outcome.Err? {
        var out := Deliver(ErrorRecord(outcome.message));
        assert (events + [ErrorRecord(outcome.message)])[..|events|] == events;
        sent := sent + out;
      }
    }
  }

  /** `activeAnalyses`: the sessions by id. */
  class Registry {
    var active: map<string, Session>

    constructor()
      ensures active == map[]
    {
      active := map[];
    }

    /** `activeAnalyses.set(id, { id, listeners: [], coordinator: new DebateCoordinator() })`;
        an id already in use is taken over by the new session. */
    method Register(id: string) returns (s: Session)
      modifies this
      ensures fresh(s) && fresh(s.coordinator) && s.id == id && s.listeners == []
      ensures s.coordinator.debates == [] && s.coordinator.factors == [] && s.coordinator.finalReport == None
      ensures active == old(active)[id := s]
    {
      s := new Session(id);
      active := active[id := s];
    }

    /** The stream endpoint: an unknown id gets the error record and no listener
        is added anywhere; a known one gets `l` appended to its session's list. */
    method Open(id: string, l: Listener) returns (reply: StreamReply)
      modifies if id in active then {active[id]} else {}
      ensures id !in active ==> reply == NotFound(NotFoundError)
      ensures id in active ==> reply == Subscribed && active[id].listeners == old(active[id].listeners) + [l]
    {
      if id !in active {
        return NotFound(NotFoundError);
      }
      active[id].Subscribe(l);
      reply := Subscribed;
    }

    /** The analyze endpoint up to its reply: 400 without a file, 500 with the
        message when the text cannot be extracted, otherwise a fresh session
        registered under `id` and its id in the reply. The text is handed back
        for the background run. */
    method Analyze(file: Option<Upload>, id: string, parsePdf: seq<bv8> -> Result<string>,
                   readDocx: seq<bv8> -> Result<string>, decodeUtf8: seq<bv8> -> string)
      returns (response: Response, text: Option<string>)
      modifies this
      ensures file.None? ==> response == Response(400, ErrorBody(NoFileError)) && text == None
      ensures file.Some? && ExtractText(file.value, parsePdf, readDocx, decodeUtf8).Err? ==>
        && response == Response(500, ErrorBody(ExtractText(file.value, parsePdf, readDocx, decodeUtf8).message))
        && text == None
      ensures (file.None? || ExtractText(file.value, parsePdf, readDocx, decodeUtf8).Err?) ==> active == old(active)
      ensures file.Some? && ExtractText(file.value, parsePdf, readDocx, decodeUtf8).Ok? ==>
        && response == Response(200, IdBody(id))
        && text == Some(ExtractText(file.value, parsePdf, readDocx, decodeUtf8).value)
        && id in active && fresh(active[id]) && active[id].id == id && active[id].listeners == []
        && active == old(active)[id := active[id]]
        && fresh(active[id].coordinator) && active[id].coordinator.debates == []
        && active[id].coordinator.factors == [] && active[id].coordinator.finalReport == None
    {
      if file.None? {
        return Response(400, ErrorBody(NoFileError)), None;
      }
      var extracted := ExtractText(file.value, parsePdf, readDocx, decodeUtf8);
      if extracted.Err? {
        return Response(500, ErrorBody(extracted.message)), None;
      }
      var s := Register(id);
      response := Response(200, IdBody(id));
      text := Some(extracted.value);
    }
  }
}
