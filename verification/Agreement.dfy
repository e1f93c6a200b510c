/** What a client of the translated stream sees, and how it relates to the scanner and to the
    buffered translation. */
module Agreement {
  import opened Wrappers
  import opened Text
  import opened Framing
  import opened Translator
  import Json
  import Stream
  import Utf8

  // ----- Reading OpenAI objects -----

  function FirstChoice(v: Value): Value {
    var choices := Json.AsArray(Json.Get(v, "choices")).GetOr([]);
    if choices == [] then Json.Null else choices[0]
  }

  function ChunkText(o: OutEvent): string {
    if o.Chunk? then Json.PointerStr(FirstChoice(o.body), "delta", "content").GetOr("") else ""
  }

  /** The message a client assembles from the deltas. */
  function StreamText(outs: seq<OutEvent>): string {
    if outs == [] then "" else ChunkText(outs[0]) + StreamText(outs[1..])
  }

  function FinishOf(o: OutEvent): seq<string> {
    var r := if o.Chunk? then Json.GetStr(FirstChoice(o.body), "finish_reason") else None;
    if r.Some? then [r.value] else []
  }

  /** Every finish reason the stream announces, in order. */
  function FinishReasons(outs: seq<OutEvent>): seq<string> {
    if outs == [] then [] else FinishOf(outs[0]) + FinishReasons(outs[1..])
  }

  function DoneCount(outs: seq<OutEvent>): nat {
    if outs == [] then 0 else (if outs[0].Done? then 1 else 0) + DoneCount(outs[1..])
  }

  predicate AllFrom(outs: seq<OutEvent>, id: string, model: string) {
    forall o | o in outs && o.Chunk? :: Json.GetStr(o.body, "id") == Some(id) && Json.GetStr(o.body, "model") == Some(model)
  }

  lemma ChunkFields(s: Session, created: nat, delta: Value, finish: Value)
    ensures var o := ChunkOf(s, created, delta, finish);
            && Json.GetStr(o.body, "id") == Some(s.id) && Json.GetStr(o.body, "model") == Some(s.model)
            && ChunkText(o) == Json.GetStr(delta, "content").GetOr("")
            && Json.GetStr(FirstChoice(o.body), "finish_reason") == Json.AsStr(Some(finish))
  {
    var choice := Json.Obj(map["index" := Json.Int(0), "delta" := delta, "finish_reason" := finish]);
    assert FirstChoice(ChunkOf(s, created, delta, finish).body) == choice;
  }

  /** What every chunk says of itself. */
  lemma ChunkIs(s: Session, created: nat, delta: Value, finish: Value)
    ensures var body := ChunkOf(s, created, delta, finish).body;
            && Json.GetStr(body, "object") == Some("chat.completion.chunk")
            && Json.Get(body, "created") == Some(Json.Int(created))
            && Json.Get(FirstChoice(body), "index") == Some(Json.Int(0))
            && Json.Get(FirstChoice(body), "delta") == Some(delta)
            && Json.Get(FirstChoice(body), "finish_reason") == Some(finish)
  {
    assert FirstChoice(ChunkOf(s, created, delta, finish).body)
        == Json.Obj(map["index" := Json.Int(0), "delta" := delta, "finish_reason" := finish]);
  }

  /** The finish reasons OpenAI clients know: a cut-off answer, tool calls, and the end for all else. */
  lemma FinishReasonIs(reason: Option<string>)
    ensures FinishReason(reason) in {"length", "tool_calls", "stop"}
    ensures FinishReason(reason) == "length" <==> reason == Some("max_tokens")
    ensures FinishReason(reason) == "tool_calls" <==> reason == Some("tool_use")
  {
  }

  /** What a chunk announces as the role of its author. */
  function RoleOf(o: OutEvent): Option<string> {
    if o.Chunk? then Json.PointerStr(FirstChoice(o.body), "delta", "role") else None
  }

  lemma {:induction false} StreamTextAppend(a: seq<OutEvent>, b: seq<OutEvent>)
    ensures StreamText(a + b) == StreamText(a) + StreamText(b)
    ensures DoneCount(a + b) == DoneCount(a) + DoneCount(b)
    ensures FinishReasons(a + b) == FinishReasons(a) + FinishReasons(b)
  {
    if a == [] {
      Plus(b);
      Plus(StreamText(b));
      Plus(FinishReasons(b));
    } else {
      AppendTail(a, b);
      StreamTextAppend(a[1..], b);
      Assoc(ChunkText(a[0]), StreamText(a[1..]), StreamText(b));
      Assoc(FinishOf(a[0]), FinishReasons(a[1..]), FinishReasons(b));
    }
  }

  lemma OneOut(o: OutEvent)
    ensures StreamText([o]) == ChunkText(o)
    ensures DoneCount([o]) == if o.Done? then 1 else 0
    ensures FinishReasons([o]) == FinishOf(o)
  {
    var none: seq<OutEvent> := [];
    assert [o][1..] == none;
    Plus(ChunkText(o));
    Plus(FinishOf(o));
  }

  lemma TextFields(s: Session, created: nat, text: string)
    ensures ChunkText(TextChunk(s, created, text)) == text
    ensures FinishReasons([TextChunk(s, created, text)]) == []
    ensures StreamText([TextChunk(s, created, text)]) == text
    ensures AllFrom([TextChunk(s, created, text)], s.id, s.model)
  {
    OneOut(TextChunk(s, created, text));
    ChunkFields(s, created, Json.Obj(map["content" := Json.Str(text)]), Json.Null);
  }

  lemma RoleFields(s: Session, created: nat)
    ensures StreamText([RoleChunk(s, created)]) == ""
    ensures FinishReasons([RoleChunk(s, created)]) == []
    ensures AllFrom([RoleChunk(s, created)], s.id, s.model)
  {
    OneOut(RoleChunk(s, created));
    ChunkFields(s, created, Json.Obj(map["role" := Json.Str("assistant"), "content" := Json.Str("")]), Json.Null);
  }

  lemma RoleIs(s: Session, created: nat)
    ensures RoleOf(RoleChunk(s, created)) == Some("assistant")
  {
    ChunkIs(s, created, Json.Obj(map["role" := Json.Str("assistant"), "content" := Json.Str("")]), Json.Null);
  }

  lemma FinishFields(s: Session, created: nat, reason: string)
    ensures StreamText([FinishChunk(s, created, reason)]) == ""
    ensures FinishReasons([FinishChunk(s, created, reason)]) == [reason]
    ensures AllFrom([FinishChunk(s, created, reason)], s.id, s.model)
  {
    OneOut(FinishChunk(s, created, reason));
    ChunkFields(s, created, Json.Obj(map[]), Json.Str(reason));
  }

  // ----- The scanner and the translator read the same text -----

  lemma RespondText(s: Session, created: nat, e: Value)
    ensures StreamText(Respond(s, created, e).1) == Stream.EventText(e)
  {
    var s' := Respond(s, created, e).0;
    var kind := Json.GetStr(e, "type");
    if kind == Some("message_start") {
      RoleFields(s', created);
    } else if kind == Some("content_block_start") {
      TextFields(s, created, Json.PointerStr(e, "content_block", "text").GetOr(""));
    } else if kind == Some("content_block_delta") {
      TextFields(s, created, Json.PointerStr(e, "delta", "text").GetOr(""));
    } else if kind == Some("message_delta") {
      FinishFields(s, created, FinishReason(Json.PointerStr(e, "delta", "stop_reason")));
    } else if kind == Some("message_stop") && !s.doneSent {
      OneOut(Done);
    }
  }

  lemma {:induction false} TranslateText(s: Session, created: nat, events: seq<Value>)
    ensures StreamText(Translate(s, created, events).1) == Stream.TextOf(events)
    decreases |events|
  {
    if events != [] {
      var (s1, o1) := Respond(s, created, events[0]);
      RespondText(s, created, events[0]);
      TranslateText(s1, created, events[1..]);
      StreamTextAppend(o1, Translate(s1, created, events[1..]).1);
    }
  }

  /** For every sequence of chunks, well-formed or not, the text the scanner accumulates is the
      text the client of the translated stream assembles. */
  lemma SameText(parse: Parser<Value>, created: nat, sentinel: string, chunks: seq<Utf8.Bytes>)
    ensures var events := Events(parse, Utf8.DecodeEach(chunks));
            Stream.ScanAll(Stream.START, events, sentinel).text == StreamText(StreamOutput(created, events))
  {
    var events := Events(parse, Utf8.DecodeEach(chunks));
    Stream.ScanText(Stream.START, events, sentinel);
    TranslateText(OPENING, created, events);
    var (s, outs) := Translate(OPENING, created, events);
    StreamTextAppend(outs, Closing(s));
    OneOut(Done);
  }

  // ----- [DONE] -----

  predicate Stops(e: Value) {
    Json.GetStr(e, "type") == Some("message_stop")
  }

  /** Events answered with a chunk, whatever the state. */
  predicate Emits(e: Value) {
    var kind := Json.GetStr(e, "type");
    || kind == Some("message_start")
    || kind == Some("message_delta")
    || (kind == Some("content_block_start") && Json.PointerStr(e, "content_block", "text").GetOr("") != "")
    || (kind == Some("content_block_delta") && Json.PointerStr(e, "delta", "text").Some?)
  }

  predicate HasStop(events: seq<Value>) {
    events != [] && (Stops(events[0]) || HasStop(events[1..]))
  }

  lemma {:induction false} NoStop(events: seq<Value>)
    requires forall j | 0 <= j < |events| :: !Stops(events[j])
    ensures !HasStop(events)
  {
    if events != [] {
      NoStop(events[1..]);
    }
  }

  lemma RespondDone(s: Session, created: nat, e: Value)
    ensures var (s', outs) := Respond(s, created, e);
            && s'.doneSent == (s.doneSent || Stops(e))
            && DoneCount(outs) == (if s'.doneSent && !s.doneSent then 1 else 0)
  {
    var outs := Respond(s, created, e).1;
    if outs != [] {
      OneOut(outs[0]);
      assert outs == [outs[0]];
    }
  }

  /** One reaction to every event that calls for one, none to any other. */
  lemma RespondsOnce(s: Session, created: nat, e: Value)
    ensures |Respond(s, created, e).1| == if Emits(e) || (Stops(e) && !s.doneSent) then 1 else 0
  {
  }

  lemma {:induction false} DoneTracked(s: Session, created: nat, events: seq<Value>)
    ensures var (s', outs) := Translate(s, created, events);
            && s'.doneSent == (s.doneSent || HasStop(events))
            && DoneCount(outs) == (if s'.doneSent && !s.doneSent then 1 else 0)
    decreases |events|
  {
    if events != [] {
      var (s1, o1) := Respond(s, created, events[0]);
      RespondDone(s, created, events[0]);
      DoneTracked(s1, created, events[1..]);
      StreamTextAppend(o1, Translate(s1, created, events[1..]).1);
    }
  }

  /** Whatever arrives, and however it is cut, the stream carries `[DONE]` exactly once. */
  lemma DoneExactlyOnce(created: nat, events: seq<Value>)
    ensures DoneCount(StreamOutput(created, events)) == 1
  {
    DoneTracked(OPENING, created, events);
    var (s, outs) := Translate(OPENING, created, events);
    StreamTextAppend(outs, Closing(s));
    OneOut(Done);
  }

  lemma {:induction false} AfterDone(s: Session, created: nat, events: seq<Value>)
    requires s.doneSent
    ensures var (s', outs) := Translate(s, created, events);
            && s'.doneSent && Done !in outs
            && (outs == [] <==> forall e | e in events :: !Emits(e))
    decreases |events|
  {
    if events != [] {
      var (s1, o1) := Respond(s, created, events[0]);
      AfterDone(s1, created, events[1..]);
      assert o1 == [] <==> !Emits(events[0]);
      assert forall e | e in events :: e == events[0] || e in events[1..];
      assert forall e | e in events[1..] :: e in events;
      assert events[0] in events;
    }
  }

  predicate QuietAfterStop(events: seq<Value>) {
    forall i, j | 0 <= i < j < |events| && Stops(events[i]) :: !Emits(events[j])
  }

  lemma QuietFrom(events: seq<Value>, i: nat)
    requires i < |events| && Stops(events[i])
    requires forall j | 0 <= j < i :: !Stops(events[j])
    ensures QuietAfterStop(events) <==> forall e | e in events[i + 1..] :: !Emits(e)
  {
    var later := events[i + 1..];
    if QuietAfterStop(events) {
      forall e | e in later
        ensures !Emits(e)
      {
        var j :| 0 <= j < |later| && later[j] == e;
        assert events[i + 1 + j] == e;
      }
    }
    if forall e | e in later :: !Emits(e) {
      forall k, j | 0 <= k < j < |events| && Stops(events[k])
        ensures !Emits(events[j])
      {
        assert events[j] == later[j - i - 1];
      }
    }
  }

  lemma OutputAroundStop(created: nat, events: seq<Value>, i: nat) returns (o1: seq<OutEvent>, o2: seq<OutEvent>)
    requires i < |events| && Stops(events[i])
    requires forall j | 0 <= j < i :: !Stops(events[j])
    ensures StreamOutput(created, events) == o1 + [Done] + o2
    ensures Done !in o2
    ensures o2 == [] <==> forall e | e in events[i + 1..] :: !Emits(e)
  {
    var before, later := events[..i], events[i + 1..];
    var (s1, outs) := Translate(OPENING, created, before);
    o1 := outs;
    NoStop(before);
    DoneTracked(OPENING, created, before);
    var s2 := s1.(doneSent := true);
    assert Respond(s1, created, events[i]) == (s2, [Done]);
    TranslateOne(s1, created, events[i]);
    TranslateAppend(OPENING, created, before, [events[i]]);
    TranslateAppend(OPENING, created, before + [events[i]], later);
    assert before + [events[i]] + later == events;
    AfterDone(s2, created, later);
    o2 := Translate(s2, created, later).1;
    assert o1 + [Done] + o2 + [] == o1 + [Done] + o2;
  }

  lemma TranslateOne(s: Session, created: nat, e: Value)
    ensures Translate(s, created, [e]) == Respond(s, created, e)
  {
    var none: seq<Value> := [];
    assert [e][1..] == none;
    assert Respond(s, created, e).1 + [] == Respond(s, created, e).1;
  }

  lemma {:induction false} NeverStops(events: seq<Value>)
    requires !HasStop(events)
    ensures forall j | 0 <= j < |events| :: !Stops(events[j])
  {
    if events != [] {
      NeverStops(events[1..]);
    }
  }

  lemma {:induction false} FirstStop(events: seq<Value>) returns (i: nat)
    requires HasStop(events)
    ensures i < |events| && Stops(events[i])
    ensures forall j | 0 <= j < i :: !Stops(events[j])
  {
    if Stops(events[0]) {
      i := 0;
    } else {
      i := FirstStop(events[1..]);
      i := i + 1;
    }
  }

  /** `[DONE]` is the last event exactly when nothing that emits follows the first message_stop. */
  lemma DoneIsLast(created: nat, events: seq<Value>)
    ensures var outs := StreamOutput(created, events);
            outs != [] && (outs[|outs| - 1] == Done <==> QuietAfterStop(events))
  {
    var outs := StreamOutput(created, events);
    if HasStop(events) {
      var i := FirstStop(events);
      var o1, o2 := OutputAroundStop(created, events, i);
      QuietFrom(events, i);
      if o2 != [] {
        assert outs[|outs| - 1] == o2[|o2| - 1];
      }
    } else {
      NeverStops(events);
      DoneTracked(OPENING, created, events);
    }
  }

  /** For instance a stop reason reported after message_stop. */
  lemma DoneNotLast(created: nat, stop: Value, late: Value)
    requires Stops(stop) && Json.GetStr(late, "type") == Some("message_delta")
    ensures var outs := StreamOutput(created, [stop, late]);
            outs != [] && outs[|outs| - 1] != Done
  {
    DoneIsLast(created, [stop, late]);
    var events := [stop, late];
    assert Stops(events[0]) && Emits(events[1]);
  }

  // ----- Reading the bytes back -----

  /** How a client reads a payload: the literal marker, or JSON. */
  function ClientParse(parse: Parser<Value>): Parser<OutEvent> {
    (p: string) =>
      if p == "[DONE]" then Some(Done)
      else match parse(p) case Some(v) => Some(Chunk(v)) case None => None
  }

  /** The chunks print as JSON does. */
  ghost predicate Readable(parse: Parser<Value>, show: Printer<Value>, outs: seq<OutEvent>) {
    forall o | o in outs && o.Chunk? :: PrintsOneLine(parse, show, o.body) && show(o.body) != "[DONE]"
  }

  /** The bytes of one event: a data line and a blank line, the marker being literal. */
  lemma WireIs(show: Printer<Value>, o: OutEvent)
    ensures Wire(show, [o]) == Utf8.Encode("data: " + (if o.Done? then "[DONE]" else show(o.body)) + "\n\n")
  {
    var none: seq<OutEvent> := [];
    assert [o][1..] == none;
    assert PrintEvents(Payload(show), [o]) == PrintEvent(Payload(show), o) + PrintEvents(Payload(show), none);
    Plus(PrintEvent(Payload(show), o));
    assert Payload(show)(o) == if o.Done? then "[DONE]" else show(o.body);
  }

  /** The bytes on the wire mean what the model says they mean: a client decodes exactly the
      events that were emitted. */
  lemma ClientReadsBack(parse: Parser<Value>, show: Printer<Value>, outs: seq<OutEvent>)
    requires Readable(parse, show, outs)
    ensures Events(ClientParse(parse), Utf8.Decode(Wire(show, outs))) == outs
  {
    Utf8.DecodeEncode(PrintEvents(Payload(show), outs));
    forall o | o in outs
      ensures PrintsOneLine(ClientParse(parse), Payload(show), o)
    {
    }
    PrintedEventsRead(ClientParse(parse), Payload(show), outs);
  }

  // ----- Streaming and buffered responses -----

  predicate IsNonTextBlock(b: Value) {
    var t := Json.GetStr(b, "type");
    t.Some? && t != Some("text")
  }

  /** Events that stream one content block. The text they contribute is the block's; a block that is
      not text is announced as such, and no other is. Whatever else the events carry - an index,
      partial JSON, a thought - is free, and a block need not be announced at all if it is text. */
  predicate Fits(b: Value, part: seq<Value>) {
    && Stream.TextOf(part) == BlockText(b)
    && if IsNonTextBlock(b) then part != [] && Stream.IsNonTextStart(part[0]) else Stream.OnlyText(part)
  }

  function Flat<T>(parts: seq<seq<T>>): seq<T> {
    if parts == [] then [] else parts[0] + Flat(parts[1..])
  }

  /** Pings, block stops and anything else neither machine reacts to. */
  predicate Noise(e: Value) {
    Json.GetStr(e, "type") !in
      {Some("message_start"), Some("content_block_start"), Some("content_block_delta"),
       Some("message_delta"), Some("message_stop")}
  }

  function Denoise(events: seq<Value>): seq<Value> {
    if events == [] then []
    else if Noise(events[0]) then Denoise(events[1..])
    else [events[0]] + Denoise(events[1..])
  }

  lemma {:induction false} NoiseIsIgnored(s: Session, created: nat, events: seq<Value>)
    ensures Translate(s, created, events) == Translate(s, created, Denoise(events))
    decreases |events|
  {
    if events != [] {
      var (s1, o1) := Respond(s, created, events[0]);
      NoiseIsIgnored(s1, created, events[1..]);
      if Noise(events[0]) {
        assert s1 == s && o1 == [];
        assert [] + Translate(s1, created, events[1..]).1 == Translate(s1, created, events[1..]).1;
      } else {
        assert Denoise(events)[1..] == Denoise(events[1..]);
      }
    }
  }

  /** Content events: text only, no change of session, no finish. */
  predicate IsContent(e: Value) {
    Json.GetStr(e, "type") == Some("content_block_start") || Json.GetStr(e, "type") == Some("content_block_delta")
  }

  lemma ContentEvent(s: Session, created: nat, e: Value)
    requires IsContent(e)
    ensures var (s', outs) := Respond(s, created, e);
            s' == s && FinishReasons(outs) == [] && AllFrom(outs, s.id, s.model)
  {
    if Json.GetStr(e, "type") == Some("content_block_start") {
      TextFields(s, created, Json.PointerStr(e, "content_block", "text").GetOr(""));
    } else {
      TextFields(s, created, Json.PointerStr(e, "delta", "text").GetOr(""));
    }
  }

  lemma {:induction false} ContentEvents(s: Session, created: nat, events: seq<Value>)
    requires forall e | e in events :: IsContent(e)
    ensures var (s', outs) := Translate(s, created, events);
            s' == s && FinishReasons(outs) == [] && AllFrom(outs, s.id, s.model)
    decreases |events|
  {
    if events != [] {
      ContentEvent(s, created, events[0]);
      ContentEvents(s, created, events[1..]);
      StreamTextAppend(Respond(s, created, events[0]).1, Translate(s, created, events[1..]).1);
    }
  }

  lemma {:induction false} PartsText(blocks: seq<Value>, parts: seq<seq<Value>>)
    requires |blocks| == |parts|
    requires forall i | 0 <= i < |blocks| :: Stream.TextOf(parts[i]) == BlockText(blocks[i])
    ensures Stream.TextOf(Flat(parts)) == BlocksText(blocks)
  {
    if blocks != [] {
      PartsText(blocks[1..], parts[1..]);
      Stream.TextAppend(parts[0], Flat(parts[1..]));
    }
  }

  /** The events after the content: they announce finish reasons and the end, nothing else. */
  predicate IsClosing(e: Value) {
    Json.GetStr(e, "type") == Some("message_delta") || Json.GetStr(e, "type") == Some("message_stop")
  }

  /** The stop reasons a list of events reports, in order. */
  function StopReasons(events: seq<Value>): seq<Option<string>> {
    if events == [] then []
    else
      (if Json.GetStr(events[0], "type") == Some("message_delta")
       then [Json.PointerStr(events[0], "delta", "stop_reason")] else [])
      + StopReasons(events[1..])
  }

  function Mapped(reasons: seq<Option<string>>): seq<string> {
    if reasons == [] then [] else [FinishReason(reasons[0])] + Mapped(reasons[1..])
  }

  /** A streamed response, apart from events that no machine reacts to: it names the response, then
      streams each block in order, then closes. All fields but the ones named here are free. */
  ghost predicate Streams(events: seq<Value>, resp: Value, start: Value, parts: seq<seq<Value>>, closing: seq<Value>) {
    && Denoise(events) == [start] + Flat(parts) + closing
    && Json.GetStr(start, "type") == Some("message_start")
    && Json.PointerStr(start, "message", "id") == Json.GetStr(resp, "id")
    && Json.PointerStr(start, "message", "model") == Json.GetStr(resp, "model")
    && |parts| == |ContentBlocks(resp)|
    && (forall i | 0 <= i < |parts| :: Stream.TextOf(parts[i]) == BlockText(ContentBlocks(resp)[i]))
    && (forall e | e in Flat(parts) :: IsContent(e))
    && (forall e | e in closing :: IsClosing(e))
  }

  /** A streamed response and the same response buffered come out of the translation with the same
      id, model and text, for every way of splitting the text over events and every sprinkling of
      ignored events. The stream announces one finish reason for each stop reason it was told, so
      the buffered one if it was told that and no other. */
  lemma StreamedAgreesWithBuffered(created: nat, resp: Value, events: seq<Value>,
                                   start: Value, parts: seq<seq<Value>>, closing: seq<Value>)
    requires Streams(events, resp, start, parts, closing)
    ensures var outs := StreamOutput(created, events);
            var full := AnthropicToOpenai(resp, created);
            && Json.GetStr(full, "id").Some? && Json.GetStr(full, "model").Some?
            && AllFrom(outs, Json.GetStr(full, "id").value, Json.GetStr(full, "model").value)
            && Json.PointerStr(FirstChoice(full), "message", "content") == Some(StreamText(outs))
            && Json.GetStr(FirstChoice(full), "finish_reason").Some?
            && FinishReasons(outs) == Mapped(StopReasons(closing))
            && (StopReasons(closing) == [Json.GetStr(resp, "stop_reason")] ==>
                  FinishReasons(outs) == [Json.GetStr(FirstChoice(full), "finish_reason").value])
            && outs != [] && RoleOf(outs[0]) == Json.PointerStr(FirstChoice(full), "message", "role") == Some("assistant")
  {
    NoiseIsIgnored(OPENING, created, events);
    assert [start] + (Flat(parts) + closing) == Denoise(events) by {
      Assoc([start], Flat(parts), closing);
    }
    var (s1, o1) := Respond(OPENING, created, start);
    assert s1 == RespSession(resp) && o1 == [RoleChunk(s1, created)];
    TranslateOne(OPENING, created, start);
    TranslateAppend(OPENING, created, [start], Flat(parts) + closing);
    PartsText(ContentBlocks(resp), parts);
    BodyOutput(s1, created, Flat(parts), closing);
    FullFields(created, resp);
    var (s, outs) := Translate(s1, created, Flat(parts) + closing);
    WrapOutput(s1, created, outs, Closing(s));
    RoleIs(s1, created);
    Translated(created, events, start, s1, outs);
    assert StopReasons(closing) == [Json.GetStr(resp, "stop_reason")] ==>
        Mapped(StopReasons(closing)) == [FinishReason(Json.GetStr(resp, "stop_reason"))] by {
      OneReason(Json.GetStr(resp, "stop_reason"));
    }
  }

  lemma OneReason(reason: Option<string>)
    ensures Mapped([reason]) == [FinishReason(reason)]
  {
    assert [reason][1..] == [];
  }

  /** The stream is the role chunk, what the content and the closing events give, and the end. */
  lemma Translated(created: nat, events: seq<Value>, start: Value, s1: Session, outs: seq<OutEvent>)
    requires Denoise(events) != [] && Denoise(events)[0] == start
    requires Respond(OPENING, created, start) == (s1, [RoleChunk(s1, created)])
    requires Translate(s1, created, Denoise(events)[1..]).1 == outs
    ensures StreamOutput(created, events)
         == [RoleChunk(s1, created)] + outs + Closing(Translate(s1, created, Denoise(events)[1..]).0)
  {
    NoiseIsIgnored(OPENING, created, events);
  }

  lemma FullFields(created: nat, resp: Value)
    ensures var full := AnthropicToOpenai(resp, created);
            && Json.GetStr(full, "id") == Some(Json.GetStr(resp, "id").GetOr(DEFAULT_ID))
            && Json.GetStr(full, "model") == Some(Json.GetStr(resp, "model").GetOr(DEFAULT_MODEL))
            && Json.PointerStr(FirstChoice(full), "message", "content") == Some(BlocksText(ContentBlocks(resp)))
            && Json.GetStr(FirstChoice(full), "finish_reason") == Some(FinishReason(Json.GetStr(resp, "stop_reason")))
            && Json.PointerStr(FirstChoice(full), "message", "role") == Some("assistant")
  {
  }

  /** The rest of the buffered object: its kind, its time, and the token counts with their sum, absent
      or impossible counts being zero. */
  lemma FullIs(created: nat, resp: Value, input: nat, output: nat)
    requires input + output < 0x1_0000_0000_0000_0000
    ensures var full := AnthropicToOpenai(resp, created);
            && Json.GetStr(full, "object") == Some("chat.completion")
            && (Json.GetStr(resp, "id").None? ==> Json.GetStr(full, "id") == Some("chatcmpl-big-brother"))
            && (Json.GetStr(resp, "model").None? ==> Json.GetStr(full, "model") == Some("big-brother"))
            && Json.Get(full, "created") == Some(Json.Int(created))
            && Json.Get(FirstChoice(full), "index") == Some(Json.Int(0))
            && (Json.Pointer(resp, "usage", "input_tokens") == Some(Json.Int(input)) ==>
                  Json.Pointer(full, "usage", "prompt_tokens") == Some(Json.Int(input)))
            && (Json.Pointer(resp, "usage", "output_tokens") == Some(Json.Int(output)) ==>
                  Json.Pointer(full, "usage", "completion_tokens") == Some(Json.Int(output)))
            && (Json.Pointer(resp, "usage", "input_tokens") == Some(Json.Int(input))
                && Json.Pointer(resp, "usage", "output_tokens") == Some(Json.Int(output)) ==>
                  Json.Pointer(full, "usage", "total_tokens") == Some(Json.Int(input + output)))
            && (Json.Get(resp, "usage").None? ==>
                  && Json.Pointer(full, "usage", "prompt_tokens") == Some(Json.Int(0))
                  && Json.Pointer(full, "usage", "completion_tokens") == Some(Json.Int(0))
                  && Json.Pointer(full, "usage", "total_tokens") == Some(Json.Int(0)))
  {
  }

  /** Which blocks the content is made of: the texts of the text blocks, in order. */
  lemma {:induction false} BlocksTextAppend(blocks: seq<Value>, b: Value)
    ensures BlocksText(blocks + [b]) == BlocksText(blocks)
            + (if Json.GetStr(b, "type") == Some("text") then Json.GetStr(b, "text").GetOr("") else "")
  {
    if blocks == [] {
      Plus([b]);
      assert [b][1..] == [];
      Plus(BlockText(b));
    } else {
      AppendTail(blocks, [b]);
      BlocksTextAppend(blocks[1..], b);
      Assoc(BlockText(blocks[0]), BlocksText(blocks[1..]), BlockText(b));
    }
  }

  function RespSession(resp: Value): Session {
    Session(Json.GetStr(resp, "id").GetOr(DEFAULT_ID), Json.GetStr(resp, "model").GetOr(DEFAULT_MODEL), false)
  }

  /** Closing events emit finish chunks and `[DONE]`; they leave id and model alone. */
  lemma ClosingEvent(s: Session, created: nat, e: Value)
    requires IsClosing(e)
    ensures var (s', outs) := Respond(s, created, e);
            && s'.id == s.id && s'.model == s.model
            && FinishReasons(outs) == Mapped(StopReasons([e])) && StreamText(outs) == ""
            && AllFrom(outs, s.id, s.model)
  {
    assert StopReasons([e]) == (if Json.GetStr(e, "type") == Some("message_delta")
                                then [Json.PointerStr(e, "delta", "stop_reason")] else []) by {
      assert [e][1..] == [];
    }
    OneReason(Json.PointerStr(e, "delta", "stop_reason"));
    FinishFields(s, created, FinishReason(Json.PointerStr(e, "delta", "stop_reason")));
    OneOut(Done);
  }

  lemma MappedFirst(e: Value, rest: seq<Value>)
    ensures Mapped(StopReasons([e] + rest)) == Mapped(StopReasons([e])) + Mapped(StopReasons(rest))
  {
    assert ([e] + rest)[1..] == rest && [e][1..] == [];
    var reasons := StopReasons(rest);
    Plus(reasons);
    if Json.GetStr(e, "type") == Some("message_delta") {
      var r := Json.PointerStr(e, "delta", "stop_reason");
      assert ([r] + reasons)[1..] == reasons;
      assert StopReasons([e]) == [r] + [] == [r];
      OneReason(r);
    } else {
      assert StopReasons([e]) == [] + [] == [];
      Plus(Mapped(reasons));
    }
  }

  lemma {:induction false} ClosingEvents(s: Session, created: nat, events: seq<Value>)
    requires forall e | e in events :: IsClosing(e)
    ensures var (s', outs) := Translate(s, created, events);
            FinishReasons(outs) == Mapped(StopReasons(events)) && StreamText(outs) == "" && AllFrom(outs, s.id, s.model)
    decreases |events|
  {
    if events != [] {
      var (s1, o1) := Respond(s, created, events[0]);
      ClosingEvent(s, created, events[0]);
      ClosingEvents(s1, created, events[1..]);
      StreamTextAppend(o1, Translate(s1, created, events[1..]).1);
      MappedFirst(events[0], events[1..]);
      assert events == [events[0]] + events[1..];
    }
  }

  /** What content followed by closing events comes out as. */
  lemma BodyOutput(s: Session, created: nat, body: seq<Value>, closing: seq<Value>)
    requires forall e | e in body :: IsContent(e)
    requires forall e | e in closing :: IsClosing(e)
    ensures var outs := Translate(s, created, body + closing).1;
            && AllFrom(outs, s.id, s.model) && StreamText(outs) == Stream.TextOf(body)
            && FinishReasons(outs) == Mapped(StopReasons(closing))
  {
    ContentEvents(s, created, body);
    ClosingEvents(s, created, closing);
    TranslateText(s, created, body);
    TranslateAppend(s, created, body, closing);
    StreamTextAppend(Translate(s, created, body).1, Translate(s, created, closing).1);
    Plus(Stream.TextOf(body));
  }

  /** The role chunk and the closing marker add neither text nor finish reasons. */
  lemma WrapOutput(s: Session, created: nat, outs: seq<OutEvent>, end: seq<OutEvent>)
    requires end == [] || end == [Done]
    requires AllFrom(outs, s.id, s.model)
    ensures var all := [RoleChunk(s, created)] + outs + end;
            AllFrom(all, s.id, s.model) && StreamText(all) == StreamText(outs) && FinishReasons(all) == FinishReasons(outs)
  {
    RoleFields(s, created);
    OneOut(Done);
    StreamTextAppend([RoleChunk(s, created)], outs);
    StreamTextAppend([RoleChunk(s, created)] + outs, end);
    Plus(StreamText(outs));
    Plus(FinishReasons(outs));
  }

  // ----- What real streams look like -----

  predicate Announces(e: Value, kind: string, opening: Option<string>) {
    && Json.GetStr(e, "type") == Some("content_block_start")
    && Json.PointerStr(e, "content_block", "type") == Some(kind)
    && Json.PointerStr(e, "content_block", "text") == opening
  }

  predicate Adds(e: Value, text: Option<string>) {
    Json.GetStr(e, "type") == Some("content_block_delta") && Json.PointerStr(e, "delta", "text") == text
  }

  lemma {:induction false} DeltasText(part: seq<Value>, deltas: seq<string>)
    requires |part| == |deltas| && forall i | 0 <= i < |part| :: Adds(part[i], Some(deltas[i]))
    ensures Stream.TextOf(part) == Concat(deltas) && Stream.OnlyText(part)
    ensures forall e | e in part :: IsContent(e)
  {
    if part != [] {
      DeltasText(part[1..], deltas[1..]);
    }
  }

  /** A text block streams as an announcement with an opening text, then deltas; or as deltas only. */
  lemma TextPartFits(b: Value, start: Value, opening: string, part: seq<Value>, deltas: seq<string>)
    requires IsTextBlock(b) && Announces(start, "text", Some(opening))
    requires |part| == |deltas| && forall i | 0 <= i < |part| :: Adds(part[i], Some(deltas[i]))
    ensures opening + Concat(deltas) == BlockText(b) ==> Fits(b, [start] + part)
    ensures Concat(deltas) == BlockText(b) ==> Fits(b, part)
    ensures forall e | e in [start] + part :: IsContent(e)
  {
    DeltasText(part, deltas);
    assert ([start] + part)[1..] == part;
  }

  lemma {:induction false} SilentText(part: seq<Value>)
    requires forall e | e in part :: Adds(e, None)
    ensures Stream.TextOf(part) == ""
  {
    if part != [] {
      assert Adds(part[0], None);
      SilentText(part[1..]);
    }
  }

  /** Any other block streams as an announcement of its type and deltas without text. */
  lemma OtherPartFits(b: Value, start: Value, kind: string, part: seq<Value>)
    requires IsNonTextBlock(b) && kind != "text" && Announces(start, kind, None)
    requires forall e | e in part :: Adds(e, None)
    ensures Fits(b, [start] + part)
    ensures forall e | e in [start] + part :: IsContent(e)
  {
    SilentText(part);
    assert ([start] + part)[1..] == part;
  }

  lemma {:induction false} DenoiseAppend(a: seq<Value>, b: seq<Value>)
    ensures Denoise(a + b) == Denoise(a) + Denoise(b)
    ensures (forall e | e in a :: !Noise(e)) ==> Denoise(a) == a
  {
    if a == [] {
      Plus(b);
    } else {
      AppendTail(a, b);
      DenoiseAppend(a[1..], b);
      Assoc([a[0]], Denoise(a[1..]), Denoise(b));
      assert [a[0]] + a[1..] == a;
    }
  }

  /** The streams upstreams send are streams in this sense: one text block, each event with whatever
      further fields it has, pings and block stops around it, with or without a stop reason. */
  lemma TextStreams(resp: Value, start: Value, pings: seq<Value>, opening: Value, first: string,
                    adds: seq<Value>, deltas: seq<string>, stops: seq<Value>, closing: seq<Value>)
    requires Json.GetStr(start, "type") == Some("message_start")
    requires Json.PointerStr(start, "message", "id") == Json.GetStr(resp, "id")
    requires Json.PointerStr(start, "message", "model") == Json.GetStr(resp, "model")
    requires |ContentBlocks(resp)| == 1 && IsTextBlock(ContentBlocks(resp)[0])
    requires Announces(opening, "text", Some(first))
    requires |adds| == |deltas| && forall i | 0 <= i < |adds| :: Adds(adds[i], Some(deltas[i]))
    requires first + Concat(deltas) == BlockText(ContentBlocks(resp)[0])
    requires (forall e | e in pings :: Noise(e)) && (forall e | e in stops :: Noise(e))
    requires forall e | e in closing :: IsClosing(e)
    ensures Fits(ContentBlocks(resp)[0], [opening] + adds)
    ensures Streams([start] + pings + ([opening] + adds) + stops + closing, resp, start, [[opening] + adds], closing)
  {
    var part := [opening] + adds;
    TextPartFits(ContentBlocks(resp)[0], opening, first, adds, deltas);
    var none: seq<seq<Value>> := [];
    assert [part][1..] == none && Flat(none) == [];
    Plus(part);
    DenoisedShape(start, pings, part, stops, closing);
  }

  lemma {:induction false} AllNoise(events: seq<Value>)
    requires forall e | e in events :: Noise(e)
    ensures Denoise(events) == []
  {
    if events != [] {
      assert Noise(events[0]);
      AllNoise(events[1..]);
    }
  }

  lemma DenoisedShape(start: Value, pings: seq<Value>, part: seq<Value>, stops: seq<Value>, closing: seq<Value>)
    requires !Noise(start) && (forall e | e in pings :: Noise(e)) && (forall e | e in stops :: Noise(e))
    requires forall e | e in part :: IsContent(e)
    requires forall e | e in closing :: IsClosing(e)
    ensures Denoise([start] + pings + part + stops + closing) == [start] + part + closing
  {
    DenoiseAppend([start] + pings + part + stops, closing);
    DenoiseAppend([start] + pings + part, stops);
    DenoiseAppend([start] + pings, part);
    DenoiseAppend([start], pings);
    DenoiseAppend(part, []);
    DenoiseAppend(closing, []);
    AllNoise(pings);
    AllNoise(stops);
    assert [start][1..] == [] && Denoise([start]) == [start];
    Plus([start]);
    Plus([start] + part);
  }

  function Typed(kind: string, fields: map<string, Value>): Value {
    Json.Obj(fields["type" := Json.Str(kind)])
  }

  const TEST_START := Typed("message_start", map["message" := Json.Obj(map["id" := Json.Str("msg_9"), "model" := Json.Str("qwen3.6:27b")])])
  const TEST_OPENING := Typed("content_block_start",
                              map["index" := Json.Int(0),
                                  "content_block" := Json.Obj(map["type" := Json.Str("text"), "text" := Json.Str("")])])
  const TEST_DELTA := Typed("content_block_delta",
                            map["index" := Json.Int(0),
                                "delta" := Json.Obj(map["type" := Json.Str("text_delta"), "text" := Json.Str("Hi")])])
  const TEST_REASON := Typed("message_delta",
                             map["delta" := Json.Obj(map["stop_reason" := Json.Str("end_turn")]),
                                 "usage" := Json.Obj(map["output_tokens" := Json.Int(2)])])

  /** The stream of the repository's own translator test is one of them. */
  lemma TestStream(resp: Value)
    requires Json.GetStr(resp, "id") == Some("msg_9") && Json.GetStr(resp, "model") == Some("qwen3.6:27b")
    requires |ContentBlocks(resp)| == 1 && IsTextBlock(ContentBlocks(resp)[0]) && BlockText(ContentBlocks(resp)[0]) == "Hi"
    ensures Streams([TEST_START, TEST_OPENING, TEST_DELTA, TEST_REASON, Typed("message_stop", map[])], resp,
                    TEST_START, [[TEST_OPENING, TEST_DELTA]], [TEST_REASON, Typed("message_stop", map[])])
  {
    var closing := [TEST_REASON, Typed("message_stop", map[])];
    assert ["Hi"][1..] == [] && Concat(["Hi"]) == "Hi" + "" == "Hi";
    TextStreams(resp, TEST_START, [], TEST_OPENING, "", [TEST_DELTA], ["Hi"], [], closing);
    FiveInOrder(TEST_START, TEST_OPENING, TEST_DELTA, TEST_REASON, Typed("message_stop", map[]));
  }

  lemma FiveInOrder(a: Value, b: Value, c: Value, d: Value, e: Value)
    ensures [b] + [c] == [b, c] && [a] + [] + [b, c] + [] + [d, e] == [a, b, c, d, e]
  {
  }
}
