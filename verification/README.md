# Verification of the escalation engine

This project models the parts of the proxy where the complexity lives and proves what they promise:

- the **cascade** as a concurrent protocol: any number of requests in flight, interleaved at every
  lock and every counter, sharing the hourly budget, the sticky map, the history ring and the metrics;
- the **sentinel scanner** and the chunk loop that drives it, including the early exit and the release
  of withheld bytes;
- the **dialect translator**, the second incremental machine over the same line framing;
- the **`/model` command** rewriter and the route resolver.

`dafny verify dfyconfig.toml` checks everything.

## How it is laid out

| file | content |
|---|---|
| `Text`, `Utf8`, `Json`, `Framing`, `Wrappers` | strings, lossy UTF-8 decoding, JSON values, line framing |
| `Stream`, `LocalAttempt` | the scanner class, its declarative meaning, the verdict loop |
| `Readings`, `Cuts` | two readings of the same bytes cut differently; exactly when cuts inside characters are harmless |
| `Translator`, `Agreement`, `SentinelAgreement` | the translator class; what its client sees; agreement with the scanner and with the buffered paths |
| `Budget`, `History`, `Orchestrator` | the deque, the ring, and the class that holds both and the sticky map |
| `Protocol`, `ProtocolSafety`, `ProtocolBound` | the interleaved protocol, its invariants, runs that show the budget bound is tight |
| `Payload`, `Proxy`, `Gateway` | payload edits, the cascade as methods, the entry point; a lone cascade is a run of the protocol |
| `OpenAiRequest`, `ModelCommand`, `Routing` | request translation, command parsing and stripping, route choice |

The source's objects with fields are classes here (`SseTextScanner`, `SseTranslator`, `Orchestrator`,
and `Body` for a payload edited in place), its loops are loops, and each method is proved against a
function about which the theorems are then stated.

What the code cannot see is a parameter: JSON text (a function from a line or a body to an optional
value, and a printer, with "prints on one line and reads back" assumed only where a round trip is
stated), the SHA-256 digest (any function), clock readings and epoch seconds, and the upstream reply
(not configured, unreachable, an error status, an event stream of chunks that may break off, or a
buffered body). A run of the protocol is any list of arrivals, steps, clock ticks and budget reads.

## Where the code and its documentation differ

The model follows the code.

- `src/stream.rs:35-38` says that cutting a multi-byte character cannot affect detection. It can: a cut
  inside an ideographic space hides the sentinel behind it, in any JSON and for any sentinel that does
  not itself begin with white space (`SplitSpaceHidesSentinel`); the client of the released stream then
  reads the sentinel (`SplitSpaceLeaks`). For every reader and sentinel at once, cuts are harmless to a
  text if and only if every payload on its complete `data: ` lines is ASCII (`CutsHarmlessIff`); for one
  given reader, if and only if no cut of a single payload changes what that reader makes of it
  (`UnchangedForIff`). Nor do they matter when the bytes that settle the verdict are ASCII
  (`AsciiHeadSettles`) or when no chunk begins inside a character (`ChunkingIndependence`).
- `docs/USER_GUIDE.md:141-143` promises at most the configured number of escalations per hour. The
  clock is read before the lock is taken, so stamps arrive out of order; a window is safe if and only
  if it is no longer than an hour less the largest lag (`SafeWindowIff`), and a status page can turn a
  refusal into a grant if and only if reservations can be late at all (`ReadsHarmlessIff`). When none is
  late, as with a monotone clock, the promise holds in full.
- `src/stream.rs:18-19` requires nothing of the sentinel. With an empty one the outcome depends on how the
  network cuts the bytes, and only then (`CutsImmaterialIff`).
- `src/openai_compat.rs:152-153` calls `[DONE]` final. It is the last event if and only if nothing that
  emits follows the first `message_stop` (`DoneIsLast`).
- `src/model_command.rs:22-24` promises that the command is stripped. It is, if and only if exactly one
  space follows the command word (`StrippedIff`); `/model  a/b` is obeyed and passed on whole
  (`ExtraSpaceKeepsAll`).
- `src/proxy.rs:181` panics on a payload that is neither an object nor null (`ResolveRoute`).
- The streamed and the buffered sentinel check go by different texts (`WhatDecides`); they differ when a
  non-text block comes first (`NonTextFirstDiverges`) or the sentinel spans two text blocks
  (`TwoBlocksDiverge`).

## Model

| member | source | states |
|---|---|---|
| Utf8.DecodeEachIsDecode | src/stream.rs:69 | Decoding chunk by chunk gives what decoding all bytes at once gives, malformed bytes included, whenever no chunk begins with a continuation byte |
| Utf8.CutsShowIff | src/stream.rs:35-38 | For well-formed text, chunk-wise decoding returns the text if and only if no cut falls inside a character |
| Utf8.DecodeEncode | src/openai_compat.rs:183-188 | The lossy decoder recovers every string from its encoding |
| Utf8.CutOffCharacter | src/stream.rs:69 | A character that breaks off, however much of it arrived, decodes to one replacement character, and what follows decodes on its own |
| Utf8.ImproperReplaced | src/stream.rs:69 | Overlong forms, surrogates and values beyond Unicode have their first byte replaced |
| Utf8.StrayByteReplaced | src/stream.rs:69 | A byte that can begin no character is replaced on its own |
| Text.WhitespaceIs | src/stream.rs:21 | White space is the twenty-five characters of the Unicode property |
| Framing.LinesCover | src/stream.rs:70-72 | The complete lines and the held-back rest are the whole text; each line has exactly its final newline, the rest has none |
| Framing.CrlfLine | src/stream.rs:73-77 | A `data: ` line ended by CR LF carries what it carries ended by LF |
| Framing.EventsAppend | src/stream.rs:70-78 | The events of a text cut in two are those of the first piece followed by those of the held-back tail with the second piece, and the final tail is the same |
| Framing.PrintedEventsRead | src/openai_compat.rs:183-198 | Printing a list of events as `data: ` lines and reading the text returns the list and leaves nothing pending |
| Framing.NamedEventsRead | src/stream.rs:72-78 | The same with an `event:` line in front of each event; lines of other kinds carry nothing |
| Stream.LatchMeaning | src/stream.rs:43-51 | The latch equals a declarative fact about the whole event list: Sentinel iff some prefix free of non-text starts begins with the sentinel, open iff no non-text block has started, else Clean |
| Stream.VerdictMeaning | src/stream.rs:67-105 | The running verdict is the declared decision on the events seen so far |
| Stream.CheckIs | src/stream.rs:20-29 | Leading white space aside: Sentinel iff the text begins with the sentinel, Undetermined iff it is a proper beginning of it |
| Stream.UnresolvedMeaning | src/stream.rs:20-29 | An open latch means the text does not begin with the sentinel; Undetermined holds exactly when the trimmed text is a proper prefix of the sentinel and the latch is open |
| Stream.DecisionFinal | src/stream.rs:43-51 | A verdict other than Undetermined is never revised by further events, although a Clean verdict on text alone is not latched |
| Stream.SseTextScanner.constructor | src/stream.rs:56-64 | A fresh scanner has seen nothing |
| Stream.SseTextScanner.Push | src/stream.rs:67-81 | After each chunk the state is the scan of everything decoded so far and the verdict is the declared decision on it |
| Stream.SseTextScanner.AbsorbEvent | src/stream.rs:83-105 | One event changes text and latch as the specification says, the first verdict winning |
| LocalAttempt.ScanStream | src/proxy.rs:423-467 | The early-exit loop decides as the whole event list would: escalate iff it escalates, fail iff the verdict is open when the transport breaks, else release exactly the upstream stream |
| LocalAttempt.EarlyExitIsSound | src/proxy.rs:423-467 | Stopping at the first verdict, from any chunk on, gives the decision on all events of the stream |
| LocalAttempt.ChunkingIndependence | src/proxy.rs:423-467 | For cuts between characters the outcome is a function of the bytes alone |
| LocalAttempt.SameBytesSameOutcome | src/proxy.rs:423-467 | Two deliveries of the same bytes are escalated, failed or released alike, with the same bytes released |
| LocalAttempt.VerbatimWithoutLeak | src/proxy.rs:430-464 | A released stream is the upstream's chunk for chunk, and the text the scanner read of it, chunk by chunk, never begins with the sentinel at any point before a non-text block |
| LocalAttempt.ReleasedWithoutLeak | src/proxy.rs:430-464 | The text its client reads from the released bytes as a whole does not either, if no cut fell inside a character |
| Cuts.AsciiReleasedWithoutLeak | src/proxy.rs:430-464 | Nor if the payloads are ASCII, wherever the cuts fell; `Cuts.CutsHarmlessIff` shows that nothing weaker does for every reader |
| LocalAttempt.AsciiHeadSettles | src/stream.rs:35-38 | With any cuts whatever and for one given reader, an ASCII head that settles the verdict settles the outcome; `Cuts.CutsHarmlessIff` has the exact condition over all readers |
| LocalAttempt.SplitSpaceHidesSentinel | src/stream.rs:35-38 | Counterexample to the comment: for every sentinel not beginning with white space or a replacement character and any JSON around it, a cut inside an ideographic space before it turns escalation into release |
| LocalAttempt.SplitSpaceLeaks | src/stream.rs:35-38 | Under the same hypotheses a released stream whose client reads a reply beginning with the sentinel |
| Readings.AsciiPayloadsSurvive | src/stream.rs:67-79 | For arbitrary bytes, malformed or not, cut anywhere: if all payloads are ASCII the events read are those of the whole |
| Cuts.CutsHarmlessIff | src/stream.rs:35-38 | For every text: every payload on a complete `data: ` line is ASCII iff no cut changes the events for any reader, iff no cut changes the outcome for any reader and sentinel, iff no released body leaks the sentinel to its client for any reader and sentinel |
| Cuts.UnchangedForIff | src/openai_compat.rs:187-198 | For every text and one given reader: no cut of the stream changes the events iff no cut of a single payload changes what the reader makes of that payload |
| Readings.PayloadsRelated | src/stream.rs:70-78 | A relation between texts that keeps ASCII characters in place relates their payloads one for one, whichever lines carry them |
| LocalAttempt.CutsImmaterialIff | src/proxy.rs:423-467 | Decisions are independent of the cuts for exactly the non-empty sentinels |
| LocalAttempt.EmptySentinelDependsOnCuts | src/stream.rs:20-29 | With an empty sentinel an empty first chunk turns release into escalation |
| LocalAttempt.LocalAttempt | src/proxy.rs:353-486 | Every kind of reply leads to the specified outcome, and whatever is released is exactly what the upstream sent |
| LocalAttempt.OutcomeIs | src/proxy.rs:358-486 | What each kind of reply comes to: not configured, unreachable and broken bodies are errors, an error status is passed on, an event stream and a buffered body are judged, a body that is not JSON counts as empty text |
| Stream.FirstTextIs | src/stream.rs:112-121 | The block judged is the first of type text, whether or not it has a text |
| Translator.TranslateAppend | src/openai_compat.rs:187-234 | Translating two event lists in a row is translating their concatenation, output and session |
| Translator.PushHomomorphism | src/openai_compat.rs:187-234 | From every state, two pushes produce the output and the state of one push of the joined text |
| Translator.PushesAreOne | src/openai_compat.rs:187-234 | Any number of pushes equals one push of the concatenation |
| Translator.SseTranslator.constructor | src/openai_compat.rs:165-173 | The initial session carries the default id and model and owes `[DONE]` |
| Translator.SseTranslator.Push | src/openai_compat.rs:187-234 | The new state and the bytes returned are the specified effect of the decoded chunk on the old state |
| Translator.SseTranslator.Handle | src/openai_compat.rs:199-231 | One event changes the session and produces output as specified |
| Translator.SseTranslator.Finish | src/openai_compat.rs:236-243 | `[DONE]` is sent iff it has not been, and is recorded as sent |
| Translator.TranslateBody | src/chat_proxy.rs:230-244 | Pushing every chunk and finishing any positive number of times sends the translation of the whole event list, once terminated |
| Translator.SameBytesSameTranslation | src/openai_compat.rs:187-234 | The bytes sent do not depend on cuts between characters |
| Agreement.SameText | src/stream.rs:83-97 | For every byte stream the scanner's text is the text the translated stream's client assembles |
| Agreement.TranslateText | src/openai_compat.rs:199-220 | The delta contents emitted for a list of events concatenate to the text the scanner reads off it |
| Agreement.DoneExactlyOnce | src/openai_compat.rs:226-243 | Every complete translated stream carries `[DONE]` exactly once |
| Agreement.DoneIsLast | src/openai_compat.rs:226-243 | `[DONE]` is the last event iff no emitting event follows a message_stop |
| Agreement.DoneNotLast | src/openai_compat.rs:221-230 | For instance a stop reason after message_stop puts a chunk behind `[DONE]` |
| Agreement.ClientReadsBack | src/openai_compat.rs:175-184 | A client that decodes the bytes on the wire reads exactly the events emitted |
| Agreement.NoiseIsIgnored | src/openai_compat.rs:199-231 | Events of other types change neither output nor session |
| Agreement.StreamedAgreesWithBuffered | src/openai_compat.rs:106-143 | For every response and every streaming of it - any split of the texts over events, any further fields, pings anywhere, with or without block announcements and message_delta - the stream has the id, model, content and author role of the buffered object, and one finish reason per stop reason reported |
| Agreement.FinishReasonIs | src/openai_compat.rs:95-102 | The reason is `length` iff the stop reason is `max_tokens`, `tool_calls` iff it is `tool_use`, and `stop` otherwise |
| Agreement.FullIs | src/openai_compat.rs:119-142 | The buffered object's kind, time, default id and model, and token counts with their sum, absent usage counting zero |
| Agreement.ChunkIs | src/openai_compat.rs:175-184 | Every chunk's kind, time, index, delta and finish reason |
| Agreement.RespondsOnce | src/openai_compat.rs:199-231 | An event is answered by exactly one output event or none, and by one iff it emits or is the first message_stop |
| Agreement.BlocksTextAppend | src/openai_compat.rs:107-118 | The content is the texts of the text blocks in order, other blocks adding nothing |
| Agreement.WireIs | src/openai_compat.rs:183 | One output event is a `data: ` line and a blank line, the end being the literal marker |
| Agreement.TextStreams | src/openai_compat.rs:316-339 | The event lists that upstreams send, each event with its own further fields, with pings and block stops, are such streamings |
| Agreement.TestStream | src/openai_compat.rs:316-339 | The very stream of the repository's translator test is one |
| Agreement.OtherPartFits | src/stream.rs:83-97 | A tool or thinking block streams as its announcement and deltas without text |
| SentinelAgreement.StreamedBytesAgree | src/openai_compat.rs:106-234 | `StreamedAgreesWithBuffered` end to end: from upstream bytes, cut between characters or anywhere if the payloads are ASCII, to the events a client decodes |
| SentinelAgreement.ReleasedReplyAgrees | src/chat_proxy.rs:230-244 | One streamed response through both machines: escalated iff its leading text begins with the sentinel, otherwise released, and its chat client assembles the content the buffered response would have been translated to |
| SentinelAgreement.StreamedDecision | src/stream.rs:83-105 | A streamed response escalates iff the joined text before its first non-text block begins, trimmed, with the sentinel; only its block events matter |
| SentinelAgreement.PrintedCarries | src/stream.rs:67-81 | Printed events, with or without `event:` lines, are read from their bytes cut anywhere between characters |
| SentinelAgreement.TranslationWithoutLeak | src/chat_proxy.rs:230-244 | What a chat client has assembled from a released local stream at any point before a non-text block does not begin with the sentinel |
| SentinelAgreement.WhatDecides | src/proxy.rs:423-480 | Each path's exact condition: leading text for the stream, first text block for the buffered body |
| SentinelAgreement.StreamedAndBufferedDecideAlike | src/stream.rs:112-121 | One text block followed by non-text blocks is escalated alike on both paths, for every delta split and every harmless chunking |
| SentinelAgreement.NonTextFirstDiverges | src/proxy.rs:423-480 | With a non-text block first the stream is always released verbatim, while the buffered reply escalates iff the first text after that block begins with the sentinel |
| SentinelAgreement.TwoBlocksDiverge | src/proxy.rs:423-480 | With the sentinel across two text blocks the stream is escalated and the buffered reply released |
| Budget.PrunedIsSuffix | src/orchestrator.rs:72-80 | Pruning removes a prefix of aged stamps and stops at the first that is not aged, saturating for later stamps |
| Budget.GrantKeepsWindow | src/orchestrator.rs:117-126 | A grant lagging by at most `lag` keeps every window of an hour less `lag` at the cap |
| Budget.DequeBounded | src/orchestrator.rs:117-126 | In every run the deque is within the cap, the cast to u32 never truncates, and the deque is the grant log less stamps an hour older than the latest reading |
| Budget.BudgetSafety | src/orchestrator.rs:71-126 | In every run of reserve and read calls whose reservations lag by at most d, every half-open window of an hour less d holds at most the cap of grants |
| Budget.SafeWindowIff | docs/USER_GUIDE.md:141-143 | For every positive cap and every lag, a window length is safe over all runs iff it is at most 3600 seconds less the lag (or not positive) |
| Budget.BudgetExact | src/orchestrator.rs:71-80 | If no reservation is late the deque is sorted, and after every call with the latest reading so far it is exactly the granted stamps of the last hour |
| Budget.MonotoneIsTimely | src/orchestrator.rs:117-126 | A monotone clock is such a case, for every call |
| Budget.RefusedIffFull | src/orchestrator.rs:111-126 | If no reservation is late, one is refused iff the last hour holds the cap |
| Budget.ReadsAreTransparent | src/orchestrator.rs:155-164 | If no reservation is late, deleting every budget read, even stale ones, changes no grant and no refusal |
| Budget.ReadsHarmlessIff | src/orchestrator.rs:155-164 | For every positive cap, reads are harmless in all runs with lag at most d iff d is zero |
| Budget.LateReadMatters | src/orchestrator.rs:155-164 | For every positive cap and lag there is a run in which a read turns a refusal into a grant |
| History.RingRefinesLog | src/orchestrator.rs:131-153 | The ring holds the newest 500 events and the totals count the whole log by class |
| History.RecentIsNewestFirst | src/orchestrator.rs:192-196 | The status list is newest first, entry k being the k-th newest event |
| History.PrefixIs | src/orchestrator.rs:141 | A record shows the first eight characters of the key, or all of a shorter one |
| Orchestrator.Orchestrator.constructor | src/orchestrator.rs:91-98 | Everything starts empty |
| Orchestrator.Orchestrator.MarkCloud | src/orchestrator.rs:104-109 | The key becomes sticky; no other entry changes |
| Orchestrator.Orchestrator.PruneWindow | src/orchestrator.rs:71-80 | The loop leaves what the specification leaves |
| Orchestrator.Orchestrator.TryReserveCloudCallAt | src/orchestrator.rs:117-126 | Granted iff the pruned deque is below the cap, and then the stamp is appended; a refusal reserves nothing |
| Orchestrator.Orchestrator.BudgetUsedAt | src/orchestrator.rs:160-164 | The exact length of the pruned deque, nothing consumed |
| Orchestrator.Orchestrator.RecordEscalation | src/orchestrator.rs:131-153 | One more event in the ring and in the total of its class |
| Orchestrator.Orchestrator.StatusAt | src/orchestrator.rs:170-198 | Used and remaining add up to the cap, so the subtraction never saturates; the rest reflects the state |
| ProtocolSafety.StepShape | src/proxy.rs:222-346 | Each step keeps the request's shape (what it has sent, decided and been triggered by at each point), keeps sticky requests off the local tier and keeps sticky keys |
| ProtocolSafety.ReachableShapes | src/proxy.rs:222-346 | Hence every request of every reachable world has that shape |
| ProtocolSafety.ReachableBooks | src/proxy.rs:284-346 | In every reachable world each counter and total equals the number of times requests have caused it |
| ProtocolSafety.Conservation | src/proxy.rs:316-345 | Grants, history total, per-trigger counters, cloud counter and cloud dispatches agree up to the requests standing between the steps |
| ProtocolSafety.DenialConservation | src/proxy.rs:291-313 | Refusals, denied total and denied counter agree likewise, and a local count is an attempt or a denial |
| ProtocolSafety.TriggerCounts | src/proxy.rs:335-339 | Each trigger's counter counts the granted requests of that trigger past the counting step |
| ProtocolSafety.StaticConservation | src/proxy.rs:203-207 | In every reachable world the static counter equals the requests with a route of their own, up to those about to be counted |
| ProtocolSafety.QuiescentBalance | src/proxy.rs:222-346 | When all requests have finished the books balance exactly: tier_local = local attempts + denials, and so on |
| ProtocolSafety.HistoryIsLog | src/orchestrator.rs:131-153 | In every reachable world the shared history is the refinement of the log of recorded events |
| ProtocolSafety.ReachableOwned | src/proxy.rs:291-314 | Grants and granted requests correspond one to one |
| ProtocolSafety.DispatchesAreReserved | src/proxy.rs:284-346 | Every cloud dispatch has a granted reservation of its own, a request sends at most twice and at most once to the cloud, and explicit requests reserve nothing |
| ProtocolSafety.ReachableBudget | src/orchestrator.rs:111-126 | Under every interleaving the deque is within the cap and every window of an hour less the observed lag holds at most the cap of grants |
| ProtocolBound.BoundIsTight | src/orchestrator.rs:111-126 | For every positive cap and every lag up to an hour a protocol run (arrivals, ticks, one budget read, one delayed reservation) with that lag overfills the window one longer, and the full hour |
| ProtocolSafety.ReachableSticky | src/proxy.rs:316-318 | Every sticky key belongs to a granted request, and sticky keys never outnumber grants |
| ProtocolSafety.GrantedIsSticky | src/proxy.rs:316-318 | In every reachable world the conversation of every granted request that has passed its mark is sticky |
| ProtocolSafety.RunGrows | src/orchestrator.rs:100-109 | Along every run sticky keys stay |
| ProtocolSafety.LateArrivalsAreSticky | src/proxy.rs:227-233 | A cascade request arriving after its key was marked finds it marked |
| ProtocolSafety.StickyRun | src/proxy.rs:227-346 | Once a key is marked, later requests with it never try the local tier, reach the cloud iff granted, and stay sticky after a refusal |
| Payload.KeyIsStable | src/orchestrator.rs:201-226 | Once there is a user message, appended turns never change the conversation key or its absence |
| Payload.KeyIffSameText | src/orchestrator.rs:205-226 | With a hash that does not collide, two requests have the same key iff the texts of their first user messages are the same, and a key iff there is such a text |
| Payload.KeyTextIs | src/orchestrator.rs:207-224 | That text is, for the first message with the user role, its string or its text blocks joined by newlines |
| Payload.ArrayText | src/orchestrator.rs:212-222 | Block by block: a text block adds its text on a new line, any other adds nothing, no text block means no text |
| Payload.PayloadsTouchOnly | src/proxy.rs:235-240 | The attempt, the fallback and the cloud payload differ from the client's request only in model and system, the cloud's only in model |
| Payload.PayloadsWrite | src/proxy.rs:235-240 | What the edits write: the escalation model for the cloud; the local model if configured for the local copies; the instruction with the sentinel, or the note on unavailability, behind an existing system prompt |
| Payload.PayloadsKeepKey | src/proxy.rs:310-321 | None of the three edits changes the conversation key |
| Payload.Body.AppendSystemNote | src/orchestrator.rs:240-254 | The note is appended to a string, an array or an absent system prompt |
| Payload.Body.SetLocalModel | src/proxy.rs:271-280 | The model is replaced iff the local provider has a default |
| Proxy.Escalate | src/proxy.rs:284-346 | Runs the protocol's steps; and outright: below the cap the reservation is taken, the conversation is sticky afterwards, the event is recorded under its trigger, two counters go up and the original with the escalation model goes to the cloud; at the cap nothing is marked, the denial is recorded and counted and the local tier answers |
| Proxy.Deny | src/proxy.rs:291-314 | The refused branch runs the protocol's denial steps: recorded as budget_denied for the local provider and model, counted as denied and local, answered by the fallback |
| Proxy.Send | src/proxy.rs:316-345 | The granted branch runs the protocol's grant steps: the key marked, the event recorded for the escalation target, two counters up, the cloud payload sent |
| Proxy.Cascade | src/proxy.rs:222-267 | Runs the protocol from its first step; and outright: a sticky conversation is escalated without an attempt; otherwise a clean local reply is delivered and nothing but the local counter changes, the sentinel escalates, and a failure escalates or is returned as fail_mode says |
| Proxy.AloneIsARun | src/proxy.rs:222-346 | From every reachable world some list of steps of one request has exactly the effect the methods compute, so the methods' runs are runs of the protocol |
| Gateway.MessagesProxy | src/proxy.rs:188-209 | A request whose route nobody chose runs the cascade on the resolved payload, delivers its answer and leaves the static counter alone; any other is counted once as static and forwarded as resolved, and budget, stickiness and history stay |
| OpenAiRequest.FlatContent | src/openai_compat.rs:12-28 | Text is found in exactly the contents that give a conversation key, and it is the same text |
| OpenAiRequest.OpenAiToAnthropic | src/openai_compat.rs:32-85 | The loop computes the specified translation, or the first message's error |
| OpenAiRequest.AcceptedIff | src/openai_compat.rs:32-55 | Accepted iff there are messages, all with a known role and text, at least one of them a turn |
| OpenAiRequest.RejectedIs | src/openai_compat.rs:12-55 | What a rejected request is told, word for word, about the first message at fault: its role missing, its text missing, or its role unknown, in that order |
| OpenAiRequest.NoMessagesIs | src/openai_compat.rs:33-36 | A request without a message list is told so |
| OpenAiRequest.SplitIs | src/openai_compat.rs:46-51 | A user or assistant message becomes one turn with its role and text, a system or developer message joins the prompt, and nothing else does either |
| OpenAiRequest.AssembledIs | src/openai_compat.rs:57-84 | What a translated request consists of: empty model, the turns, the token limit with its alias and default, the joined prompt, sampling fields, stop sequences and streaming carried over, and no other field |
| OpenAiRequest.TranslationKeepsKey | src/openai_compat.rs:12-51 | A translated conversation has the key the same messages have in the Anthropic dialect, string or block form |
| ModelCommand.CommandRoundTrip | src/model_command.rs:133-161 | A printed command is parsed back to its provider, model and remaining text, with any white space around the command and the text |
| ModelCommand.RecognisedIff | src/model_command.rs:133-141 | Exactly which texts are commands for a provider and model |
| ModelCommand.WithoutRemoves | src/model_command.rs:145-147 | Every copy of the token is removed, not the first only |
| ModelCommand.StrippingRemovesToken | src/model_command.rs:143-152 | With one space, exactly the token is removed from what follows |
| ModelCommand.StrippingMissesExtraSpace | src/model_command.rs:136-147 | With extra white space after the command word, what is passed on still begins with the command word |
| ModelCommand.StrippedIff | src/model_command.rs:143-152 | For every recognised command: the remainder is what follows the identifier less further copies of the token if and only if exactly one space follows the command word |
| ModelCommand.ExtraSpaceKeepsAll | src/model_command.rs:136-147 | For any provider and model, a command typed with extra white space is obeyed and passed on whole |
| ModelCommand.CommandFound | src/model_command.rs:32-78 | The match is the first user message with a command, and there is none iff no message has one |
| ModelCommand.MessageCommandIff | src/model_command.rs:34-75 | Exactly which messages carry a command: those of the user whose string is one or whose array has a text block that is one |
| ModelCommand.BlockCommandIs | src/model_command.rs:55-71 | In an array the first such text block is matched and its remainder is read off it |
| ModelCommand.StrippedIs | src/model_command.rs:97-129 | Every message but the matched one stays in its place; the matched one goes iff nothing remains of it, otherwise only its string or the matched block changes, or an emptied block alone goes |
| ModelCommand.CommandSurvivesGrowth | src/model_command.rs:29-129 | Appended turns change neither the command found nor how the earlier messages are stripped |
| ModelCommand.BodyGrowth | src/model_command.rs:29-129 | The same for whole request bodies |
| ModelCommand.ParseAndStrip | src/model_command.rs:29-81 | The body is left as specified, and unchanged if there is no command |
| ModelCommand.MatchMessage | src/model_command.rs:34-75 | The scan of one message finds its first command, in a string or in a text block |
| ModelCommand.ApplyStrip | src/model_command.rs:97-129 | The matched text is replaced, or its block or its message removed when nothing is left |
| Routing.ResolveRoute | src/proxy.rs:143-183 | The route and the rewritten payload, and a panic iff the payload is neither an object nor null; the model field is the route's model |
| Routing.RouteIs | src/proxy.rs:143-183 | The source is Explicit iff there is a command, or the id has a configured provider and a model around its first slash, or names a provider with a model of its own; with provider and model in each case, all else passing through whole to the default provider |
| Routing.RoutedPayloadIs | src/proxy.rs:143-183 | Routing writes the model, strips a command from the messages and touches no other field |
| Routing.ArrayPanics | src/proxy.rs:181 | For instance every JSON array panics, while null does not |
| Routing.CommandAndFieldAgree | src/proxy.rs:143-183 | Typing `/model p/m` and sending the model id `p/m` choose the same provider, model and source, and the same payload if other text remains |
| Routing.BlockCommandAndFieldAgree | src/proxy.rs:143-183 | The same for a command typed into a text block |
| Routing.NoCommandKeepsKey | src/proxy.rs:143-183 | Without a command, routing changes neither the messages nor the conversation key |

## Left out

- Agreement.StreamedAgreesWithBuffered: compares id, model, content and finish reason; token usage exists only in the buffered object and a stream carries its own object name.
- HTTP transport, authentication, headers, status codes, TOML loading, environment keys, tracing and Prometheus: I/O and libraries; an upstream reply is a parameter.
- Chat settings, the model list, the pass-through endpoint, the panel, error bodies and the document export: thin dispatch and tables that would add only easy members.
- Real stream timing: a body is the list of chunks it ends up delivering; that the head is forwarded before the rest has arrived is not expressed.
- Cancelled requests: modelled as requests that take no further step, so their books stay open in the conservation equations as they do in the code.
- A dispatch is counted when the proxy decides on it; that a missing provider or key keeps it from being sent is not distinguished, except for the local attempt's outcome.
- 64-bit wrap-around of history totals and counters: they are naturals; token totals wrap as in a release build, and a debug build would panic.
- The status page takes three locks one after another; in the protocol only its budget read, the one that changes state, is an action.
- Mutex poisoning, and the memory used by the sticky map, which never shrinks.
- Deques are sequences, so the cost of operations at their ends is not modelled.
- JSON numbers that are not integers are kept as literals, and duplicate keys and key order are not modelled.
