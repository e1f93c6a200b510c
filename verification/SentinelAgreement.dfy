/** The sentinel decision on a streamed response and on the same response buffered, and the
    two translations of one response, both down to the bytes. */
module SentinelAgreement {
  import opened Wrappers
  import opened Text
  import opened Framing
  import opened Stream
  import opened Translator
  import opened Agreement
  import LocalAttempt
  import Readings
  import Json
  import Utf8

  // ----- The scanner and ignored events -----

  /** The events the scanner looks at: block starts and deltas. */
  function ContentOf(events: seq<Value>): seq<Value> {
    if events == [] then []
    else if IsContent(events[0]) then [events[0]] + ContentOf(events[1..])
    else ContentOf(events[1..])
  }

  lemma {:induction false} ScanContent(st: Scan, events: seq<Value>, sentinel: string)
    requires st.resolved.None? ==> CheckSentinel(st.text, sentinel) != Sentinel
    ensures ScanAll(st, events, sentinel) == ScanAll(st, ContentOf(events), sentinel)
    decreases |events|
  {
    if events != [] {
      var next := Absorb(st, events[0], sentinel);
      if IsContent(events[0]) {
        assert ContentOf(events)[1..] == ContentOf(events[1..]);
      } else {
        assert st.text + "" == st.text;
        assert next == st;
      }
      ScanContent(next, events[1..], sentinel);
    }
  }

  lemma EscalatesContent(events: seq<Value>, sentinel: string)
    requires sentinel != ""
    ensures Escalates(events, sentinel) <==> Escalates(ContentOf(events), sentinel)
  {
    ScanContent(START, events, sentinel);
    LatchMeaning(events, sentinel);
    LatchMeaning(ContentOf(events), sentinel);
  }

  // ----- The text that decides -----

  /** How many blocks come before the first non-text block. */
  function LeadCount(blocks: seq<Value>): (n: nat)
    ensures n <= |blocks|
    ensures forall i | 0 <= i < n :: !IsNonTextBlock(blocks[i])
    ensures n < |blocks| ==> IsNonTextBlock(blocks[n])
  {
    if blocks == [] || IsNonTextBlock(blocks[0]) then 0 else 1 + LeadCount(blocks[1..])
  }

  function LeadText(blocks: seq<Value>): string {
    BlocksText(blocks[..LeadCount(blocks)])
  }

  lemma SentinelStays(a: seq<Value>, b: seq<Value>, sentinel: string)
    requires sentinel != "" && BeginsWithSentinel(a, sentinel)
    ensures BeginsWithSentinel(a + b, sentinel)
  {
    TextAppend(a, b);
    TrimStartAppend(TextOf(a), TextOf(b));
  }

  /** A witness of escalation inside `head + tail` shows up in `head` already. */
  lemma WitnessInHead(head: seq<Value>, tail: seq<Value>, k: nat, sentinel: string)
    requires sentinel != ""
    requires (tail != [] && IsNonTextStart(tail[0])) || TextOf(tail) == ""
    requires k <= |head + tail| && OnlyText((head + tail)[..k]) && BeginsWithSentinel((head + tail)[..k], sentinel)
    ensures BeginsWithSentinel(head, sentinel)
  {
    if k <= |head| {
      assert (head + tail)[..k] == head[..k];
      TakeDrop(head, k);
      SentinelStays(head[..k], head[k..], sentinel);
    } else {
      var m := k - |head|;
      assert (head + tail)[..k] == head + tail[..m];
      TakeDrop(tail, m);
      BeyondHead(head, tail[..m], tail[m..], sentinel);
    }
  }

  lemma BeyondHead(head: seq<Value>, near: seq<Value>, far: seq<Value>, sentinel: string)
    requires near != []
    requires IsNonTextStart(near[0]) || TextOf(near + far) == ""
    requires OnlyText(head + near) && BeginsWithSentinel(head + near, sentinel)
    ensures BeginsWithSentinel(head, sentinel)
  {
    assert (head + near)[|head|] == near[0];
    TextAppend(near, far);
    TextAppend(head, near);
    assert TextOf(near) == "";
    Plus(TextOf(head));
  }

  /** Where only silence or a non-text block follows, the events before it decide. */
  lemma EscalatesAt(head: seq<Value>, tail: seq<Value>, sentinel: string)
    requires sentinel != "" && OnlyText(head)
    requires (tail != [] && IsNonTextStart(tail[0])) || TextOf(tail) == ""
    ensures Escalates(head + tail, sentinel) <==> BeginsWithSentinel(head, sentinel)
  {
    if Escalates(head + tail, sentinel) {
      var k :| 0 <= k <= |head + tail| && OnlyText((head + tail)[..k])
               && BeginsWithSentinel((head + tail)[..k], sentinel);
      WitnessInHead(head, tail, k, sentinel);
    }
    assert (head + tail)[..|head|] == head;
  }

  /** The blocks' parts up to and including the first non-text block; later parts are free. */
  ghost predicate LeadFits(blocks: seq<Value>, parts: seq<seq<Value>>) {
    && |parts| == |blocks|
    && forall i | 0 <= i < |parts| && i <= LeadCount(blocks) :: Fits(blocks[i], parts[i])
  }

  lemma {:induction false} LeadEvents(blocks: seq<Value>, parts: seq<seq<Value>>)
    returns (lead: seq<Value>, rest: seq<Value>)
    requires LeadFits(blocks, parts)
    ensures Flat(parts) == lead + rest
    ensures OnlyText(lead) && TextOf(lead) == LeadText(blocks)
    ensures rest == [] || IsNonTextStart(rest[0])
    decreases |blocks|
  {
    if blocks == [] {
      lead, rest := [], [];
    } else if IsNonTextBlock(blocks[0]) {
      lead, rest := [], Flat(parts);
      assert Fits(blocks[0], parts[0]);
    } else {
      assert Fits(blocks[0], parts[0]);
      lead, rest := LeadEvents(blocks[1..], parts[1..]);
      Assoc(parts[0], lead, rest);
      TextAppend(parts[0], lead);
      LeadTextFirst(blocks);
      lead := parts[0] + lead;
    }
  }

  lemma LeadTextFirst(blocks: seq<Value>)
    requires blocks != [] && !IsNonTextBlock(blocks[0])
    ensures LeadText(blocks) == BlockText(blocks[0]) + LeadText(blocks[1..])
  {
    var lead := blocks[..LeadCount(blocks)];
    assert lead[1..] == blocks[1..][..LeadCount(blocks[1..])];
  }

  /** A streamed response escalates exactly when the joined text of the blocks before its first
      non-text block begins, after trimming, with the sentinel. Only its block events matter. */
  lemma StreamedDecision(sentinel: string, blocks: seq<Value>, parts: seq<seq<Value>>, events: seq<Value>)
    requires sentinel != ""
    requires LeadFits(blocks, parts) && ContentOf(events) == Flat(parts)
    ensures Escalates(events, sentinel) <==> sentinel <= TrimStart(LeadText(blocks))
  {
    EscalatesContent(events, sentinel);
    var lead, rest := LeadEvents(blocks, parts);
    EscalatesAt(lead, rest, sentinel);
  }

  lemma {:induction false} ContentAppend(a: seq<Value>, b: seq<Value>)
    ensures ContentOf(a + b) == ContentOf(a) + ContentOf(b)
    ensures (forall e | e in a :: IsContent(e)) ==> ContentOf(a) == a
    ensures (forall e | e in a :: IsClosing(e)) ==> ContentOf(a) == []
  {
    if a == [] {
      Plus(b);
    } else {
      AppendTail(a, b);
      ContentAppend(a[1..], b);
      assert [a[0]] + a[1..] == a;
      assert a[0] in a && forall e | e in a[1..] :: e in a;
    }
  }

  lemma {:induction false} ContentDenoised(events: seq<Value>)
    ensures ContentOf(Denoise(events)) == ContentOf(events)
  {
    if events != [] {
      ContentDenoised(events[1..]);
      if !Noise(events[0]) {
        assert Denoise(events)[1..] == Denoise(events[1..]);
      }
    }
  }

  /** A streamed response in the translator's sense is one in the scanner's: the same parts. */
  lemma StreamsContent(events: seq<Value>, resp: Value, start: Value, parts: seq<seq<Value>>, closing: seq<Value>)
    requires Streams(events, resp, start, parts, closing)
    ensures ContentOf(events) == Flat(parts)
  {
    ContentDenoised(events);
    ContentAppend([start] + Flat(parts), closing);
    ContentAppend([start], Flat(parts));
    ContentAppend(Flat(parts), []);
    ContentAppend(closing, []);
    assert [start][1..] == [];
    Plus(Flat(parts));
  }

  /** Bytes that hold these events on complete lines - among any others - and are cut where it does no
      harm: between characters, or anywhere if the payloads are ASCII. */
  ghost predicate Carries(parse: JsonParser, chunks: seq<Utf8.Bytes>, events: seq<Value>) {
    && (Utf8.CutsBetweenCharacters(chunks) || Readings.AsciiPayloads(Utf8.Decode(Utf8.Flatten(chunks))))
    && Events(parse, Utf8.Decode(Utf8.Flatten(chunks))) == events
  }

  lemma CarriedEvents(parse: JsonParser, chunks: seq<Utf8.Bytes>, events: seq<Value>)
    requires Carries(parse, chunks, events)
    ensures Events(parse, Utf8.DecodeEach(chunks)) == events
  {
    if Utf8.CutsBetweenCharacters(chunks) {
      Utf8.DecodeEachIsDecode(chunks);
    } else {
      Readings.AsciiPayloadsSurvive(parse, chunks);
    }
  }

  /** Printed events are carried, with or without an `event:` line in front of each. */
  lemma PrintedCarries(parse: JsonParser, show: Printer<Value>, name: Value -> string,
                       chunks: seq<Utf8.Bytes>, events: seq<Value>)
    requires Utf8.CutsBetweenCharacters(chunks)
    requires forall e | e in events :: PrintsOneLine(parse, show, e) && '\n' !in name(e)
    requires Utf8.Flatten(chunks) == Utf8.Encode(PrintEvents(show, events))
             || Utf8.Flatten(chunks) == Utf8.Encode(PrintNamed(show, name, events))
    ensures Carries(parse, chunks, events)
  {
    Utf8.DecodeEncode(PrintEvents(show, events));
    Utf8.DecodeEncode(PrintNamed(show, name, events));
    PrintedEventsRead(parse, show, events);
    NamedEventsRead(parse, show, name, events);
  }

  /** What each path goes by: the streamed reply by the joined text before the first non-text
      block, the buffered one by its first text block. They agree on a response exactly when these
      two texts agree about the sentinel. */
  lemma WhatDecides(parse: JsonParser, parseBody: LocalAttempt.BodyParser, sentinel: string, resp: Value,
                    parts: seq<seq<Value>>, events: seq<Value>, stream: LocalAttempt.ByteStream, bytes: Utf8.Bytes)
    requires sentinel != ""
    requires LeadFits(ContentBlocks(resp), parts) && ContentOf(events) == Flat(parts)
    requires Carries(parse, stream.chunks, events)
    requires parseBody(bytes) == Some(resp)
    ensures LocalAttempt.LoopFrom(parse, sentinel, stream, 0).Escalate?
       <==> sentinel <= TrimStart(LeadText(ContentBlocks(resp)))
    ensures LocalAttempt.JsonOutcome(parseBody, sentinel, bytes).Escalate?
       <==> sentinel <= TrimStart(FirstText(ContentBlocks(resp)).GetOr(""))
  {
    CarriedEvents(parse, stream.chunks, events);
    LocalAttempt.EarlyExitIsSound(parse, sentinel, stream, 0);
    StreamedDecision(sentinel, ContentBlocks(resp), parts, events);
  }

  /** One text block, then any number of non-text blocks: both texts are that block's, so the
      streamed and the buffered reply are always escalated alike. */
  lemma StreamedAndBufferedDecideAlike(parse: JsonParser, parseBody: LocalAttempt.BodyParser, sentinel: string,
                                       resp: Value, parts: seq<seq<Value>>, events: seq<Value>,
                                       stream: LocalAttempt.ByteStream, bytes: Utf8.Bytes)
    requires sentinel != ""
    requires LeadFits(ContentBlocks(resp), parts) && ContentOf(events) == Flat(parts)
    requires Carries(parse, stream.chunks, events)
    requires parseBody(bytes) == Some(resp)
    requires ContentBlocks(resp) != [] && IsTextBlock(ContentBlocks(resp)[0])
    requires forall i | 0 < i < |ContentBlocks(resp)| :: IsNonTextBlock(ContentBlocks(resp)[i])
    ensures LocalAttempt.LoopFrom(parse, sentinel, stream, 0).Escalate?
       <==> LocalAttempt.JsonOutcome(parseBody, sentinel, bytes).Escalate?
  {
    var blocks := ContentBlocks(resp);
    assert LeadCount(blocks) == 1;
    WhatDecides(parse, parseBody, sentinel, resp, parts, events, stream, bytes);
    assert blocks[..1] == [blocks[0]];
    OneBlockText(blocks[0]);
  }

  lemma OneBlockText(b: Value)
    ensures BlocksText([b]) == BlockText(b)
  {
    var none: seq<Value> := [];
    assert [b][1..] == none;
  }

  /** A non-text block first: the stream is released, while the same response buffered is escalated
      whenever the first text after that block begins with the sentinel. */
  lemma NonTextFirstDiverges(parse: JsonParser, parseBody: LocalAttempt.BodyParser, sentinel: string,
                             resp: Value, parts: seq<seq<Value>>, events: seq<Value>,
                             stream: LocalAttempt.ByteStream, bytes: Utf8.Bytes)
    requires sentinel != ""
    requires LeadFits(ContentBlocks(resp), parts) && ContentOf(events) == Flat(parts)
    requires Carries(parse, stream.chunks, events)
    requires parseBody(bytes) == Some(resp)
    requires ContentBlocks(resp) != [] && IsNonTextBlock(ContentBlocks(resp)[0])
    ensures LocalAttempt.LoopFrom(parse, sentinel, stream, 0) == LocalAttempt.Release(stream)
    ensures LocalAttempt.JsonOutcome(parseBody, sentinel, bytes).Escalate?
       <==> sentinel <= TrimStart(FirstText(ContentBlocks(resp)[1..]).GetOr(""))
  {
    var blocks := ContentBlocks(resp);
    WhatDecides(parse, parseBody, sentinel, resp, parts, events, stream, bytes);
    assert LeadText(blocks) == "" by {
      assert blocks[..0] == [];
    }
    CarriedEvents(parse, stream.chunks, events);
    LocalAttempt.EarlyExitIsSound(parse, sentinel, stream, 0);
    assert Fits(blocks[0], parts[0]);
    ContentMembers(events);
    assert parts[0][0] == Flat(parts)[0] && Flat(parts)[0] in events;
  }

  lemma {:induction false} ContentMembers(events: seq<Value>)
    ensures forall e | e in ContentOf(events) :: e in events
  {
    if events != [] {
      ContentMembers(events[1..]);
    }
  }

  /** The sentinel across two text blocks: the stream is escalated, the same response buffered is
      released. */
  lemma TwoBlocksDiverge(parse: JsonParser, parseBody: LocalAttempt.BodyParser, sentinel: string,
                         resp: Value, parts: seq<seq<Value>>, events: seq<Value>,
                         stream: LocalAttempt.ByteStream, bytes: Utf8.Bytes)
    requires sentinel != ""
    requires LeadFits(ContentBlocks(resp), parts) && ContentOf(events) == Flat(parts)
    requires Carries(parse, stream.chunks, events)
    requires parseBody(bytes) == Some(resp)
    requires |ContentBlocks(resp)| == 2 && forall i | 0 <= i < 2 :: IsTextBlock(ContentBlocks(resp)[i])
    requires var a, b := BlockText(ContentBlocks(resp)[0]), BlockText(ContentBlocks(resp)[1]);
             sentinel <= TrimStart(a + b) && !(sentinel <= TrimStart(a))
    ensures LocalAttempt.LoopFrom(parse, sentinel, stream, 0).Escalate?
    ensures LocalAttempt.JsonOutcome(parseBody, sentinel, bytes)
         == LocalAttempt.Release(LocalAttempt.ByteStream([bytes], false))
  {
    var blocks := ContentBlocks(resp);
    WhatDecides(parse, parseBody, sentinel, resp, parts, events, stream, bytes);
    LeadTextFirst(blocks);
    LeadTextFirst(blocks[1..]);
    assert blocks[1..][1..] == [] && LeadText([]) == "";
    Plus(BlockText(blocks[1]));
  }

  /** On the chat path a released local stream is translated on the way out: what its client has
      assembled at any point before a non-text block does not begin with the sentinel. */
  lemma TranslationWithoutLeak(parse: JsonParser, sentinel: string, stream: LocalAttempt.ByteStream, created: nat, k: nat)
    requires sentinel != ""
    requires LocalAttempt.LoopFrom(parse, sentinel, stream, 0).Release?
    requires k <= |Events(parse, Utf8.DecodeEach(stream.chunks))|
    requires OnlyText(Events(parse, Utf8.DecodeEach(stream.chunks))[..k])
    ensures var body := LocalAttempt.LoopFrom(parse, sentinel, stream, 0).body;
            var events := Events(parse, Utf8.DecodeEach(body.chunks));
            k <= |events| && !(sentinel <= TrimStart(StreamText(Translate(OPENING, created, events[..k]).1)))
  {
    LocalAttempt.VerbatimWithoutLeak(parse, sentinel, stream, k);
    TranslateText(OPENING, created, Events(parse, Utf8.DecodeEach(stream.chunks))[..k]);
  }

  /** The whole way: the bytes of a streamed reply, cut between characters anywhere, translated,
      sent and read by the client, tell what the buffered translation tells. */
  lemma StreamedBytesAgree(parse: JsonParser, show: Printer<Value>, created: nat, resp: Value, events: seq<Value>,
                           start: Value, parts: seq<seq<Value>>, closing: seq<Value>, chunks: seq<Utf8.Bytes>)
    requires Readable(parse, show, StreamOutput(created, events))
    requires Streams(events, resp, start, parts, closing)
    requires Carries(parse, chunks, events)
    ensures var sent := Wire(show, StreamOutput(created, Events(parse, Utf8.DecodeEach(chunks))));
            var seen := Events(ClientParse(parse), Utf8.Decode(sent));
            var full := AnthropicToOpenai(resp, created);
            && Some(StreamText(seen)) == Json.PointerStr(FirstChoice(full), "message", "content")
            && Json.GetStr(FirstChoice(full), "finish_reason").Some?
            && (StopReasons(closing) == [Json.GetStr(resp, "stop_reason")] ==>
                  FinishReasons(seen) == [Json.GetStr(FirstChoice(full), "finish_reason").value])
            && Json.GetStr(full, "id").Some? && Json.GetStr(full, "model").Some?
            && AllFrom(seen, Json.GetStr(full, "id").value, Json.GetStr(full, "model").value)
            && DoneCount(seen) == 1
  {
    CarriedEvents(parse, chunks, events);
    ClientReadsBack(parse, show, StreamOutput(created, events));
    StreamedAgreesWithBuffered(created, resp, events, start, parts, closing);
    DoneExactlyOnce(created, events);
  }

  /** One streamed response, local attempt and chat path together: it is escalated exactly when its
      leading text begins with the sentinel, and otherwise the chat client assembles the very content
      that the buffered response would have been translated to. */
  lemma ReleasedReplyAgrees(parse: JsonParser, show: Printer<Value>, created: nat, sentinel: string, resp: Value,
                            events: seq<Value>, start: Value, parts: seq<seq<Value>>, closing: seq<Value>,
                            stream: LocalAttempt.ByteStream)
    requires sentinel != "" && !stream.broken
    requires Streams(events, resp, start, parts, closing) && LeadFits(ContentBlocks(resp), parts)
    requires Carries(parse, stream.chunks, events)
    requires Readable(parse, show, StreamOutput(created, events))
    ensures var outcome := LocalAttempt.LoopFrom(parse, sentinel, stream, 0);
            if sentinel <= TrimStart(LeadText(ContentBlocks(resp))) then outcome.Escalate?
            else
              && outcome.Release?
              && var sent := Wire(show, StreamOutput(created, Events(parse, Utf8.DecodeEach(outcome.body.chunks))));
                 var seen := Events(ClientParse(parse), Utf8.Decode(sent));
                 Some(StreamText(seen)) == Json.PointerStr(FirstChoice(AnthropicToOpenai(resp, created)), "message", "content")
  {
    StreamsContent(events, resp, start, parts, closing);
    StreamedDecision(sentinel, ContentBlocks(resp), parts, events);
    CarriedEvents(parse, stream.chunks, events);
    LocalAttempt.EarlyExitIsSound(parse, sentinel, stream, 0);
    StreamedBytesAgree(parse, show, created, resp, events, start, parts, closing, stream.chunks);
  }
}
