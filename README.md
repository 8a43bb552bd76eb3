# AETHER debate pipeline — a Dafny model

AETHER analyses an uploaded business report with four agents:

- The analyst ("Decipherer") extracts the key factors.
- For each factor in turn, the advocate argues for it and the skeptic counters the advocate.
- The scribe then judges the debate into a synthesis.

The `DebateCoordinator` runs this loop and reports progress events as it goes. It stops early with a partial report when a rate-limit error arrives after at least one debate has completed. It builds the final report locally from the syntheses.

The Express server keeps a registry of active analyses, and each analysis keeps a list of stream listeners. Every progress event is fanned out to every listener. On the client, the React `App` folds the events into its state. It de-duplicates debates by factor id and shows the final report once the state is `COMPLETE`.

This project models that core and proves its properties:

- `Text`: the JavaScript string built-ins the code relies on (`indexOf`, `lastIndexOf`, `trim`, `includes`, `slice`, `join`, the `substring` truncation).
- `Records`: the records that flow through the pipeline.
- `Sanitizer`: the `sanitizeJSON` helpers and the greedy `match` of the analyst, advocate and skeptic.
- `Advocate`, `Skeptic`, `Analyst`, `Scribe`: the four agent functions. The inference service and `JSON.parse` are function parameters. The scribe's brace-counting repair loop is a method proved against a specification function.
- `LocalReport`: the final-report assembly of `processReport`.
- `Coordinator`: the `DebateCoordinator` class. Its methods update its fields. They are proved against the specification function `ProcessSpec`, and `CoordinatorFacts` proves what the run guarantees.
- `Wiring`: the coordinator's agents built from the four agent modules.
- `Server`: the `activeAnalyses` registry, listener subscription and removal, the `forEach` fan-out, and the upload checks.
- `Client`: the `App` state, its three handlers and the show-report condition.
- `EndToEnd`: what a client sees at the end of a run, given the listener list the session holds as each event goes out. Every listener joins after the first event. `processReport` sends that event before its first `await` (backend/coordinator.js:21-28), while the session's list is still empty (backend/server.js:95, 102). The client learns the id only from the reply that follows (backend/server.js:113). So the "Decipherer is analyzing" message reaches no client.

## Model

| member | source | states |
|---|---|---|
| Text.IndexOf | backend/agents/advocate.js:6 | the result is -1 exactly when the character is absent, otherwise the position of its first occurrence |
| Text.LastIndexOf | backend/agents/advocate.js:8 | the result is -1 exactly when the character is absent, otherwise the position of its last occurrence |
| Text.Trim | backend/agents/advocate.js:11 | the result neither starts nor ends with white space, is no longer than the input, adds no control character, and keeps a non-space first or last character |
| Text.ReplaceChar | backend/agents/scribe.js:23-28 | replacing a character that is absent, or replacing a character with itself, leaves the text unchanged |
| Text.Take | backend/coordinator.js:154-155 | `slice(0, n)` yields the first min(n, length) items, in order |
| Text.JoinSnoc | backend/coordinator.js:156 | joining one more part appends the separator and that part, after the earlier parts |
| Text.Truncate | backend/agents/advocate.js:60-62 | a report within the limit is passed unchanged; a longer one is cut to its first `max` characters and ends with `...[truncated]` |
| Text.ContainsAfterPrefix | backend/agents/advocate.js:91 | text put in front of a message keeps every piece the message contained |
| Sanitizer.StripMarker | backend/agents/advocate.js:5 | removing a fence marker and the white space after it never lengthens the text |
| Sanitizer.StripMarkerKeepsFirst | backend/agents/advocate.js:5 | a first character that cannot begin the marker survives the removal |
| Sanitizer.StripMarkerKeepsLast | backend/agents/advocate.js:5 | a last character that is neither white space nor part of the marker survives the removal |
| Sanitizer.StripFences | backend/agents/advocate.js:5 | the two fence removals never lengthen the text |
| Sanitizer.StripFencesKeepsEnds | backend/agents/advocate.js:5 | a candidate that starts with a bracket and ends with a bracket keeps both ends through the fence removals |
| Sanitizer.RemoveControl | backend/agents/advocate.js:10 | the result holds no character in `\x00-\x1F` or `\x7F`; text without them is unchanged; a non-control first or last character is kept |
| Sanitizer.FirstOpener | backend/agents/analyst.js:6-8 | the earlier of the first `{` and the first `[`, or -1 exactly when there is neither |
| Sanitizer.LastCloser | backend/agents/analyst.js:10-12 | the later of the last `}` and the last `]`, or -1 exactly when there is neither |
| Sanitizer.CutValue | backend/agents/analyst.js:6-13 | the two cuts never lengthen the text |
| Sanitizer.CutValueEnds | backend/agents/analyst.js:6-13 | the cut text starts at the first opener when there is one, and ends at the last closer left after the prefix cut |
| Sanitizer.CutValueFromInput | backend/agents/analyst.js:6-13 | the cut text is a contiguous piece of the input |
| Sanitizer.CutObject | backend/agents/advocate.js:6-9 | the two cuts never lengthen the text |
| Sanitizer.CutObjectEnds | backend/agents/advocate.js:6-9 | the cut text starts with `{` when the input has one, and ends with `}` when one is left after the prefix cut |
| Sanitizer.CleanValue | backend/agents/analyst.js:4-16 | the analyst's `sanitizeJSON` never lengthens the text and leaves no control character |
| Sanitizer.CleanObject | backend/agents/advocate.js:4-12 | the advocate's and skeptic's `sanitizeJSON` never lengthens the text and leaves no control character |
| Sanitizer.TidyKeepsFirst | backend/agents/advocate.js:10-11 | control removal and trimming keep a bracket at the front |
| Sanitizer.TidyKeepsLast | backend/agents/advocate.js:10-11 | control removal and trimming keep a bracket at the back |
| Sanitizer.TidyKeepsBoth | backend/agents/advocate.js:10-11 | a text with an opening bracket first and a closing one last keeps at least both after control removal and trimming |
| Sanitizer.CleanValueStart | backend/agents/analyst.js:5-15 | when the fence-free text has an opener, the analyst's cleaned text begins with the earliest one |
| Sanitizer.CleanValueEnd | backend/agents/analyst.js:10-15 | when a closer is left after the prefix cut, the analyst's cleaned text ends with the last one |
| Sanitizer.CleanObjectEnds | backend/agents/advocate.js:5-11 | the advocate's cleaned text begins with the first `{` and ends with the last `}` after it, when those exist |
| Sanitizer.GreedySpan | backend/agents/advocate.js:80 | a match has at least two characters, begins with the opener and ends with the closer |
| Sanitizer.GreedySpanExists | backend/agents/advocate.js:80 | the greedy match exists exactly when an opener precedes a later closer |
| Sanitizer.BracesUncut | backend/agents/advocate.js:6-11 | a text that opens with `{` and closes with `}` is not cut, and control removal and trimming keep both braces |
| Sanitizer.BracketsUncut | backend/agents/analyst.js:6-15 | a text that opens with `[` and closes with `]` is not cut, and control removal and trimming keep both brackets |
| Sanitizer.BraceSpanIsUncut | backend/agents/advocate.js:80-86 | the matched brace span keeps its braces through the fence removals, and the two cuts then change nothing |
| Sanitizer.BraceSpanCleaned | backend/agents/advocate.js:80-86 | the advocate helper on the matched span is fence, control and white-space removal only, and keeps both braces |
| Sanitizer.ObjectCandidate | backend/agents/advocate.js:80-86 | there is a candidate to parse exactly when the greedy brace match succeeds |
| Sanitizer.ObjectCandidateShape | backend/agents/advocate.js:80-86 | the candidate is the matched span without fences and control characters, trimmed; it has at least two characters and starts with `{` and ends with `}` |
| Sanitizer.ArrayCandidate | backend/agents/analyst.js:111-117 | there is a candidate to parse exactly when the greedy bracket match succeeds |
| Sanitizer.BracketSpanIsUncut | backend/agents/analyst.js:111-117 | the matched bracket span keeps its brackets through the fence removals, and the two cuts then change nothing |
| Sanitizer.BracketSpanCleaned | backend/agents/analyst.js:111-117 | the analyst helper on the matched span is fence, control and white-space removal only, and keeps both brackets |
| Sanitizer.ArrayCandidateShape | backend/agents/analyst.js:111-117 | the candidate is the matched span without fences and control characters, trimmed; it starts with `[` and ends with `]` |
| Scribe.DropTrailingCommas | backend/agents/scribe.js:22 | dropping trailing commas never lengthens the text |
| Scribe.DropKeepsFirst | backend/agents/scribe.js:22 | a first character that is not a comma is kept |
| Scribe.DropKeepsLast | backend/agents/scribe.js:22 | the last character is kept |
| Scribe.DropOnlyCommas | backend/agents/scribe.js:22 | only commas are removed, the other characters stay in order, and a text without commas is unchanged |
| Scribe.DropKeepsControlFree | backend/agents/scribe.js:18-22 | dropping commas adds no control character |
| Scribe.FixCommon | backend/agents/scribe.js:21-28 | on control-free text, the "fix common issues" chain only drops trailing commas: the newline, return and tab rewrites never fire and the quote rewrites are the identity |
| Scribe.SanitizeJson | backend/agents/scribe.js:4-31 | the scribe's `sanitizeJSON` never lengthens the text, leaves no control character, and equals fence removal, cuts, control removal, comma dropping and trim in that order |
| Scribe.SanitizeStart | backend/agents/scribe.js:6-11 | when the fence-free text has an opener, the sanitized text begins with the earliest one |
| Scribe.CleanupKeepsCloser | backend/agents/scribe.js:18-22 | control removal and comma dropping keep a closer at the back |
| Scribe.TidyKeepsCloser | backend/agents/scribe.js:18-30 | the steps after the cuts keep a closer at the back |
| Scribe.TrimKeepsCloser | backend/agents/scribe.js:30 | trimming keeps a closer at the back |
| Scribe.SanitizeEnd | backend/agents/scribe.js:13-30 | when a closer is left after the prefix cut, the sanitized text ends with the last one |
| Scribe.FirstStop | backend/agents/scribe.js:141-167 | the scan result from a position is one past the first position at which the loop breaks, or -1 when it never breaks |
| Scribe.FindValidEnd | backend/agents/scribe.js:136-167 | the loop with its `continue`s and `break` computes exactly `ValidEnd` of the candidate |
| Scribe.StopIsFirst | backend/agents/scribe.js:158-165 | a position that is the first break point is what `ValidEnd` returns, and no break point means -1 |
| Scribe.PositiveBeforeStop | backend/agents/scribe.js:141-166 | on a candidate opening with `{`, the brace count stays positive until the scan breaks |
| Scribe.RepairIsShortestBalanced | backend/agents/scribe.js:141-170 | on a candidate opening with `{`, the repair cut is the shortest non-empty prefix whose braces outside strings balance, and it ends with `}` |
| Scribe.RepairKeepsOneChar | backend/agents/scribe.js:141-170 | a candidate that opens with anything but `{`, `}`, a quote or a backslash breaks at once: the cut keeps one character |
| Scribe.Synthesize | backend/agents/scribe.js:87-186 | every failure of `synthesizeDebate` carries the `Failed to synthesize debate: ` prefix |
| Scribe.SynthesizeWrapsErrors | backend/agents/scribe.js:178-186 | the call fails exactly when the inner attempt fails, its message is the prefix followed by the inner message, and a success is the inner result |
| Scribe.SynthesizeSeesTruncatedReport | backend/agents/scribe.js:89-92 | two long reports that agree on their first 1000 characters give the same outcome |
| Scribe.ShortCandidateRejected | backend/agents/scribe.js:119-125 | a sanitized candidate under 10 characters fails with the no-JSON error, whatever the parser does |
| Scribe.MissingReplyFails | backend/agents/scribe.js:115-116 | an undefined reply fails at the `substring` call with V8's TypeError message |
| Scribe.SingleRepairAttempt | backend/agents/scribe.js:128-176 | there is only one repair: with no scan end the first parse error is reported; otherwise the outcome is the parse of the cut prefix |
| Scribe.OkComesFromCandidate | backend/agents/scribe.js:119-174 | a returned synthesis is the parse of the sanitized candidate or of one of its prefixes |
| Scribe.RepairComesFromPrefix | backend/agents/scribe.js:128-176 | what the parse and its single repair return is the parse of the candidate or of a non-empty prefix of it |
| Scribe.ArrayCandidateRepairsToBracket | backend/agents/scribe.js:141-173 | a candidate that opens with `[` and fails to parse is cut to `[` alone by the repair, so the second parse decides the outcome |
| Advocate.Generate | backend/agents/advocate.js:57-93 | every failure of `generateAdvocateArgument` carries the `Failed to generate advocate argument: ` prefix |
| Advocate.GenerateWrapsErrors | backend/agents/advocate.js:89-92 | the call fails exactly when the inner attempt fails, and its message is the prefix followed by the inner message |
| Advocate.GenerateSeesTruncatedReport | backend/agents/advocate.js:59-62 | two long reports that agree on their first 1500 characters give the same outcome |
| Advocate.NoSpanRejected | backend/agents/advocate.js:80-84 | a reply with no `{` before a later `}` fails with the no-JSON error, whatever the parser does |
| Advocate.OkIsParsedSpan | backend/agents/advocate.js:80-88 | a returned argument is the parse of the candidate cut from the greedy brace match |
| Skeptic.Generate | backend/agents/skeptic.js:62-122 | every failure of `generateSkepticCounter` carries the `Failed to generate skeptic counter: ` prefix |
| Skeptic.GenerateWrapsErrors | backend/agents/skeptic.js:113-121 | the call fails exactly when the inner attempt fails, and its message is the prefix followed by the inner message |
| Skeptic.GenerateSeesTruncatedReport | backend/agents/skeptic.js:64-67 | two long reports that agree on their first 1500 characters give the same outcome |
| Skeptic.EmptyReplyRejected | backend/agents/skeptic.js:100-102 | an undefined or empty reply fails with `API returned undefined response` before any matching |
| Skeptic.NoSpanRejected | backend/agents/skeptic.js:104-108 | a non-empty reply with no `{` before a later `}` fails with the no-JSON error |
| Skeptic.OkIsParsedSpan | backend/agents/skeptic.js:104-112 | a returned counter is the parse of the candidate cut from the greedy brace match |
| Analyst.IsImage | backend/agents/analyst.js:51 | a report is an image exactly when its type is `image` |
| Analyst.ImageData | backend/agents/analyst.js:53 | the attachment exists exactly for images and carries their MIME type and data |
| Analyst.PromptFor | backend/agents/analyst.js:55-104 | images get the chart prompt; other reports get the text prompt with the whole report text |
| Analyst.CapFactors | backend/agents/analyst.js:121-124 | images keep the first min(3, n) factors, in order; other reports keep all of them |
| Analyst.Extract | backend/agents/analyst.js:49-131 | every failure of `extractFactors` carries the `Failed to extract factors: ` prefix |
| Analyst.ExtractWrapsErrors | backend/agents/analyst.js:127-130 | the call fails exactly when the inner attempt fails, and its message is the prefix followed by the inner message |
| Analyst.NoSpanRejected | backend/agents/analyst.js:111-115 | a reply with no `[` before a later `]` fails with the no-array error, whatever the parser does |
| Analyst.OkIsParsedSpan | backend/agents/analyst.js:111-126 | the returned factors are a prefix of the parse of the bracket candidate, all of it for text reports and at most three for images |
| LocalReport.Prefixed | backend/coordinator.js:152-153 | each finding is its marker followed by the item, in the items' order |
| LocalReport.Verdicts | backend/coordinator.js:156 | the verdicts are listed one per synthesis, in debate order |
| LocalReport.Build | backend/coordinator.js:127-160 | the counts are the completed and total factors; the report is partial exactly when fewer debates completed than factors exist; findings are capped at 8 and priorities at 5, as prefixes of the flattened lists |
| LocalReport.NoFactorsNotPartial | backend/coordinator.js:129 | with no factors the report is not partial and counts no factor |
| LocalReport.AllFindingsSnoc | backend/coordinator.js:151-153 | one more synthesis's findings go after the earlier ones, what worked before what failed |
| LocalReport.AllPrioritiesSnoc | backend/coordinator.js:155 | one more synthesis's improvement items go after the earlier ones |
| LocalReport.KeyFindingsSettle | backend/coordinator.js:151-154 | once eight findings are known, later debates do not change the key findings |
| LocalReport.AssessmentSnoc | backend/coordinator.js:156 | one more verdict goes at the end of the assessment, after ` \| ` |
| LocalReport.ClosingsDiffer | backend/coordinator.js:147-149 | neither closing sentence can end a text that ends with the other |
| LocalReport.SummaryStart | backend/coordinator.js:142 | the summary opens with `Analysis of ` and the number of completed factors |
| LocalReport.SummaryNamesTotal | backend/coordinator.js:142 | a partial summary names the total with `out of` |
| LocalReport.SummaryClosing | backend/coordinator.js:146-150 | the summary ends with the concern sentence exactly when a concern was found, and with the strength sentence otherwise |
| LocalReport.SummaryShape | backend/coordinator.js:142-150 | the built report's summary opens with the completed count, names the total when partial, and ends with the concern sentence exactly when some lower-cased verdict contains `concerning` |
| Coordinator.Chain | backend/coordinator.js:56-95 | a factor's debate succeeds exactly when advocate, skeptic on that argument, and scribe on both succeed; the debate holds their outputs |
| Coordinator.Round | backend/coordinator.js:41-101 | one round's outcome is the chain's; it emits between one and six events, none of them a rate-limit or error event |
| Coordinator.Syntheses | backend/coordinator.js:138 | one synthesis per debate, in debate order |
| Coordinator.DebateCoordinator.constructor | backend/coordinator.js:7-13 | a new coordinator is `IDLE` with no report, factors, debates or final report |
| Coordinator.DebateCoordinator.RunRound | backend/coordinator.js:41-101 | a round's events, outcome and final state follow `Round`; the debate is pushed only on success; other fields are unchanged |
| Coordinator.DebateCoordinator.DebateFactors | backend/coordinator.js:38-122 | the factor loop's debates, events and escaping error follow `Iterate`; factors, report and final report are unchanged |
| Coordinator.DebateCoordinator.ProcessReport | backend/coordinator.js:15-188 | the events, outcome and every field after `processReport` follow `ProcessSpec` on the old fields; the current report is the report text |
| CoordinatorFacts.IterateFacts | backend/coordinator.js:38-122 | the loop records at most one debate per factor, in order, each what the agents produced; it escapes with exactly the failing chain's error, unless that error is a rate limit after a completed debate, which stops the loop early with the rate-limit event |
| CoordinatorFacts.IterateCompleted | backend/coordinator.js:38-101 | the loop only appends debates, at most one per factor, each what the three agents produced for its factor |
| CoordinatorFacts.IterateError | backend/coordinator.js:102-120 | an error the loop rethrows is the chain error of the factor after the last debate, and never a rate limit after a debate |
| CoordinatorFacts.IterateStop | backend/coordinator.js:104-116 | the loop stops early without an error only on a rate limit after a debate, and exactly then emits the rate-limit event |
| CoordinatorFacts.FreshRunLoop | backend/coordinator.js:29-172 | on a fresh coordinator, a run with extracted factors fails exactly when the loop escapes with an error; a success adds the generating and complete events after the loop's |
| CoordinatorFacts.DebatesFollowFactors | backend/coordinator.js:38-101 | debates are recorded in factor order, at most one per factor, each from the three agents on that factor |
| CoordinatorFacts.SuccessfulRunReport | backend/coordinator.js:124-178 | a successful run ends `COMPLETE` with the report built from the debates, its counts and partial flag, the assessment of the verdicts, and the `GENERATING_FINAL_REPORT` then `COMPLETE` events last |
| CoordinatorFacts.PartialRunStoppedOnRateLimit | backend/coordinator.js:104-116 | a successful run is partial exactly when a rate-limit event was emitted, and then at least one debate completed and the next factor failed with a rate-limit message |
| CoordinatorFacts.NoRateLimitAfterPrefix | backend/coordinator.js:124-172 | two further events that are not the rate-limit event do not change whether one occurred |
| CoordinatorFacts.FailedRunIsError | backend/coordinator.js:180-187 | a failed run ends in `ERROR` with the error event last and the old final report kept |
| CoordinatorFacts.FailedRunCause | backend/coordinator.js:29-120 | a failed run's error is the extraction error, or the error of the first failed factor's chain, and a rate-limit error is fatal only before any debate completed |
| CoordinatorFacts.FirstFactorFailureIsFatal | backend/coordinator.js:109-120 | a failure on the first factor fails the whole run with that error, rate limit or not |
| CoordinatorFacts.VerdictCarriesPushedDebate | backend/coordinator.js:90-101 | on a fresh coordinator the verdict event carries the debate just pushed |
| CoordinatorFacts.RateLimitSurvivesWrapping | backend/coordinator.js:104-107 | an agent's wrapping prefix keeps a rate-limit message a rate-limit message |
| CoordinatorFacts.RateLimitAfterFirstDebate | backend/coordinator.js:104-116 | when the first factor completes and the second fails with a rate limit, the run succeeds with that one debate and a partial report |
| Wiring.MissingSkepticReplyIsRateLimit | backend/agents/skeptic.js:100-102 | an undefined skeptic reply yields an error the coordinator reads as a rate limit |
| Wiring.MissingSkepticReplyGivesPartialReport | backend/coordinator.js:104-116 | when the first debate completes and the skeptic's reply on the second factor is undefined, the run succeeds with one debate and a partial report |
| Server.Find | backend/server.js:72 | `indexOf` gives -1 exactly when the listener is absent, otherwise its first position |
| Server.RemoveFirst | backend/server.js:71-74 | closing removes the first occurrence of the listener and keeps the rest in order; an absent listener leaves the list unchanged; the multiset loses one copy |
| Server.SubscribeThenClose | backend/server.js:68-74 | subscribing a new listener and closing its stream restores the list |
| Server.CloseKeepsDistinct | backend/server.js:71-74 | closing keeps a duplicate-free list duplicate-free, and the closed listener is gone |
| Server.Fanout | backend/server.js:104 | one delivery per listener, in list order, each with the event |
| Server.ReceivedByConcat | backend/server.js:104 | what one listener received over two batches is the first batch's then the second's |
| Server.ReceivedByFanout | backend/server.js:104 | in one fan-out a listed listener is called once with the event and an unlisted one not at all |
| Server.ReceivedBySnoc | backend/server.js:104 | over one more event a listener receives what it received before, then what that event's fan-out gives it |
| Server.ConnectedGetsAll | backend/server.js:102-110 | a connected listener receives every event once, in emission order |
| Server.UnconnectedGetsNone | backend/server.js:102-110 | a listener not in the list receives nothing |
| Server.EveryListenerGetsEveryEvent | backend/server.js:102-110 | each connected listener receives every event once, in emission order; an unconnected one receives none |
| Server.LateJoinerGetsSuffix | backend/server.js:68 | when each event goes to the listeners registered at that moment, a listener registered from the k-th event on receives exactly the events from the k-th on, once each, in order |
| Server.Stream | backend/server.js:102-110 | the fanned-out events are the run's events, followed by the `ERROR` record only when the run fails |
| Server.Classify | backend/server.js:25-42 | exactly the PDF, DOCX and plain-text MIME types are accepted, each routed to its own branch |
| Server.ExtractText | backend/server.js:22-44 | an unsupported type fails with `Unsupported file type`; a PDF failure is replaced by the fixed message; DOCX results pass through; plain text is decoded |
| Server.Session.constructor | backend/server.js:93-97 | a session starts with no listeners and a fresh coordinator |
| Server.Session.Subscribe | backend/server.js:68 | the listener is appended at the end |
| Server.Session.Unsubscribe | backend/server.js:71-74 | the list becomes `RemoveFirst` of the old list |
| Server.Session.Deliver | backend/server.js:104 | the `forEach` loop makes exactly the fan-out deliveries |
| Server.Session.Run | backend/server.js:102-110 | the background run delivers the coordinator's events, then the error record on failure, to every listener; the coordinator's state, factors, debates, final report and current report end as `processReport` leaves them on the old state |
| Server.Registry.constructor | backend/server.js:16 | the registry starts empty |
| Server.Registry.Register | backend/server.js:93-99 | a fresh session with an empty listener list and a fresh coordinator is stored under the id |
| Server.Registry.Open | backend/server.js:56-68 | an unknown id gets `Analysis session not found` and no listener is added; a known id gets the listener appended to its session |
| Server.Registry.Analyze | backend/server.js:80-113 | no file gives 400 `No file uploaded`; an extraction error gives 500 with its message; in both the registry is unchanged; otherwise a fresh session with no listeners and a fresh coordinator with no factors, debates or final report is registered under the id, every other id keeps its session, and the id is returned |
| Client.WithDebate | frontend/src/App.jsx:29-33 | the debate's factor id is listed afterwards; the list grows by one, at the end, exactly when the id was absent; the ids are the old ids plus the new one; distinct ids stay distinct |
| Client.WithDebateIdempotent | frontend/src/App.jsx:29-33 | handing the same debate over twice gives the list it gives once |
| Client.DebatesIn | frontend/src/App.jsx:28 | no more carried debates than events, and each one is the debate some event carries |
| Client.ReduceFacts | frontend/src/App.jsx:21-39 | the state becomes the event's, the id is kept, debates only grow at the end and by at most one with ids kept distinct, and factors and report change only when the event carries them |
| Client.ReduceDebate | frontend/src/App.jsx:28-34 | a debate on an unlisted factor is appended; one on a listed factor leaves the list as it was |
| Client.ShowsAfter | frontend/src/App.jsx:21-39 | the report is shown after an event exactly when the event is `COMPLETE` and a report is held, from this event or an earlier one |
| Client.ReduceIdempotent | frontend/src/App.jsx:21-39 | delivering the same event twice has the effect of delivering it once |
| Client.ReplayDebates | frontend/src/App.jsx:28-34 | after any events the debates are the updater over the carried debates in order, distinct ids stay distinct, and the analysis id is kept |
| Client.CollectDistinct | frontend/src/App.jsx:28-34 | when the carried debates have distinct, unlisted factor ids, all of them are appended in order |
| Client.ReplayLastEvent | frontend/src/App.jsx:122 | the last event decides the state; a last `COMPLETE` event with a report shows that report; a last `ERROR` event hides the report |
| Client.App.constructor | frontend/src/App.jsx:7-11 | the state starts `IDLE` with no id, no debates, no factors and no report |
| Client.App.Start | frontend/src/App.jsx:13-19 | the id is set, the lists are emptied, the report is cleared and the state is `STARTING` |
| Client.App.HandleProgress | frontend/src/App.jsx:21-39 | the new state is `Reduce` of the old one with the event |
| Client.App.Reset | frontend/src/App.jsx:41-47 | the state is back to `IDLE` with no id, empty lists and no report |
| EndToEnd.DebatesInConcat | frontend/src/App.jsx:28 | the debates carried by two batches of events are those of the first then the second |
| EndToEnd.NoDebateEvents | frontend/src/App.jsx:28 | events without a verdict payload carry no debate |
| EndToEnd.RoundDebates | backend/coordinator.js:97-101 | a round's events carry its debate once, and nothing when the round fails |
| EndToEnd.GlueDebate | backend/coordinator.js:90-95 | a debate pushed after the earlier ones sits between them and the later ones |
| EndToEnd.IteratePrefix | backend/coordinator.js:38-122 | the factor loop only appends to the debates it starts with |
| EndToEnd.IterateDebates | backend/coordinator.js:38-122 | the factor loop's events carry exactly the debates it records, in order |
| EndToEnd.StoppedDebates | backend/coordinator.js:112-115 | the rate-limit event carries no debate |
| EndToEnd.StreamKeepsDebates | backend/server.js:105-109 | the server's error record carries no debate |
| EndToEnd.RunDebates | backend/coordinator.js:15-188 | on a fresh coordinator the run's events carry exactly its debates, in order, whether the run succeeds or fails |
| EndToEnd.LoopThenClosing | backend/coordinator.js:124-188 | after the factor loop the run keeps the loop's debates and events and adds only events without a debate |
| EndToEnd.ClosingDebates | backend/coordinator.js:131-172 | the events after the loop carry no debate |
| EndToEnd.StreamDebates | backend/server.js:102-110 | everything the server fans out for a fresh run carries exactly the run's debates, in order |
| EndToEnd.SeenDebates | frontend/src/App.jsx:28-34 | a client whose listener joined at the k-th event missed at least the first event, keeps its id and distinct factor ids, and with distinct factor ids lists exactly the run's debates less those whose verdict went out before it joined (all of them when it joined before the first verdict) |
| EndToEnd.SeenSuccess | frontend/src/App.jsx:122 | after a successful run a client that joined before the last event is `COMPLETE` and shows the report the coordinator built; one that joined later still holds the state `handleAnalysisStart` set |
| EndToEnd.SeenFailure | frontend/src/App.jsx:122 | after a failed run a client that joined before the last event is in `ERROR` and shows no report; one that joined later still holds the state `handleAnalysisStart` set |

## Notes on the code

- The scribe's repair scan breaks at the first character where the brace count is zero outside a string (backend/agents/scribe.js:162). The scan does not first wait for the count to become positive. So a candidate that does not open with `{` is cut to its first character. `Scribe.RepairKeepsOneChar` and `Scribe.ArrayCandidateRepairsToBracket` state this.
- The coordinator does not reset `this.debates` at the start of `processReport`. The verdict event carries `this.debates[i]`, which is the debate just pushed only on a fresh coordinator. The model keeps the indexing. The run-level facts are stated for a fresh coordinator, which is how the server uses it: one new coordinator per analysis.
- The analyst passes `imageData` to the inference call. The call ignores every argument after the two prompts (backend/gemini.js:2). The model keeps the attachment in the analyst's request record because the call site builds it.

## Left out

- The inference service (backend/gemini.js) is a function parameter returning a text, an undefined reply or a thrown message. HTTP, the API key, the model choice and token limits are not modelled.
- `JSON.parse` is a parser parameter per record type. Its result is typed, but the source does no shape check: each agent returns whatever `JSON.parse` gives (for example backend/agents/scribe.js:128-130). The JSON grammar and the messages V8 produces for syntax errors are not modelled.
- A synthesis that parses but has the wrong shape is not modelled. Examples are a missing `what_worked`, `what_failed` or `how_to_improve` field, or a truthy `verdict` that is not a string. In the source, its debate is pushed and its verdict event is sent. Then the report assembly throws a TypeError (backend/coordinator.js:147, 151-155), and the run ends in `ERROR` after every debate has completed (backend/coordinator.js:180-187). In the model, `LocalReport.Build` cannot fail, so that trace cannot arise.
- The model runs the coordinator on the `{type, text, mimetype, data}` record that `processReport` reads (backend/coordinator.js:18-19). backend/server.js:102 passes the extracted string instead. With a string, `reportData.text` is undefined. The analyst only interpolates it into its prompt. The advocate's `reportText.length` (backend/agents/advocate.js:60) throws a TypeError outside the advocate's own `try`. That message is not a rate limit, and it comes at the first factor, before any debate. So, as written and not executed, every upload that yields at least one factor ends in `ERROR` (backend/coordinator.js:116-119, 180-187). The model does not reproduce this call-site mismatch.
- The prompt texts are not modelled. Each agent's request is the record of values the prompt interpolates.
- The `setTimeout` delays (backend/coordinator.js:43-45, 55, 71, 87) and all logging are left out. They change timing, not outcomes.
- The human-readable progress messages are recorded by kind and by the values they interpolate, not as rendered text with emoji.
- `generateFinalReport` in backend/agents/scribe.js is not called by the coordinator, and it is not modelled.
- Server.Session.Run: the method runs the coordinator to the end and fans out to the listener list it holds. A stream handler that runs between two events is modelled only by the end-to-end lemmas, which take the listener list at each event as a parameter (`Server.BroadcastEach`).
- EndToEnd.SeenDebates, EndToEnd.SeenSuccess, EndToEnd.SeenFailure: a listener that closes before the run ends is not covered. The lemmas assume that it stays registered from the moment it joins. The re-subscription that frontend/src/components/DebateView.jsx:37 makes on every render of `App` is outside the model.
- Express, CORS, multer, pdf-parse and mammoth are left out. The PDF parser, the DOCX reader and the UTF-8 decoder are parameters of `Server.ExtractText`. The SSE headers and the `data: …` wire format are left out. So are `res.end()` and the 500 reply for the catch of an unexpected error.
- `Date.now()` ids are a parameter. Two uploads in the same millisecond share an id, and the later session takes over the registry slot, as `Map.set` does.
- The React rendering, the components under frontend/src/components, and the `EventSource` wiring in DebateView.jsx are left out. The client model starts where `handleProgress` receives an event.
- Lengths are counted in Unicode code points. JavaScript counts UTF-16 code units, so `substring(0, 1500)` and the 10-character test differ from the model for text outside the Basic Multilingual Plane.
- `toLowerCase` is modelled on ASCII letters only. That is enough for the `concerning` test: no non-ASCII character lower-cases to one of the word's letters on its own. The dotted capital I lower-cases to `i` followed by a combining dot, which breaks the word.
- A reply whose content is `null` rather than `undefined` would give V8 messages that mention `null`. The model's undefined reply covers `undefined` only.
- An undefined reply to the advocate or the scribe gives a V8 TypeError, which is not a rate-limit message. No lemma states this, because it needs literal-string non-membership facts that are costly to prove. Only the skeptic's undefined reply, which is a rate limit, is proved (`Wiring.MissingSkepticReplyIsRateLimit`).
- Client.DebatesIn: the contract bounds the count and says where each debate comes from, but not their order. The order is stated by `EndToEnd.DebatesInConcat` and `EndToEnd.StreamDebates`.
- The optional reads `progress.data?.factors`, `?.debate` and `?.finalReport` are modelled by the payload kind. Every payload the coordinator sends carries an array or an object in those fields, so JavaScript truthiness never differs from presence here.
