/** Anthropic responses in the OpenAI chat dialect, buffered and streaming
    (src/openai_compat.rs). */
module Translator {
  import opened Wrappers
  import opened Text
  import opened Framing
  import Json
  import Utf8

  type Value = Json.Value

  const DEFAULT_ID := "chatcmpl-big-brother"
  const DEFAULT_MODEL := "big-brother"

  function FinishReason(stopReason: Option<string>): string {
    if stopReason == Some("max_tokens") then "length"
    else if stopReason == Some("tool_use") then "tool_calls"
    else "stop"
  }

  // ----- The buffered form -----

  predicate IsTextBlock(b: Value) {
    Json.GetStr(b, "type") == Some("text") && Json.GetStr(b, "text").Some?
  }

  function BlockText(b: Value): string {
    if IsTextBlock(b) then Json.GetStr(b, "text").value else ""
  }

  function BlocksText(blocks: seq<Value>): string {
    if blocks == [] then "" else BlockText(blocks[0]) + BlocksText(blocks[1..])
  }

  function ContentBlocks(resp: Value): seq<Value> {
    Json.AsArray(Json.Get(resp, "content")).GetOr([])
  }

  /** A choice of a chat completion. */
  function Choice(fields: map<string, Value>): Value {
    Json.Arr([Json.Obj(fields)])
  }

  /** Token counts are 64-bit; their sum wraps as it does in a release build. */
  function AnthropicToOpenai(resp: Value, created: nat): Value {
    var prompt := Json.AsU64(Json.Pointer(resp, "usage", "input_tokens")).GetOr(0);
    var completion := Json.AsU64(Json.Pointer(resp, "usage", "output_tokens")).GetOr(0);
    Json.Obj(map[
      "id" := Json.Str(Json.GetStr(resp, "id").GetOr(DEFAULT_ID)),
      "object" := Json.Str("chat.completion"),
      "created" := Json.Int(created),
      "model" := Json.Str(Json.GetStr(resp, "model").GetOr(DEFAULT_MODEL)),
      "choices" := Choice(map[
        "index" := Json.Int(0),
        "message" := Json.Obj(map[
          "role" := Json.Str("assistant"),
          "content" := Json.Str(BlocksText(ContentBlocks(resp)))]),
        "finish_reason" := Json.Str(FinishReason(Json.GetStr(resp, "stop_reason")))]),
      "usage" := Json.Obj(map[
        "prompt_tokens" := Json.Int(prompt),
        "completion_tokens" := Json.Int(completion),
        "total_tokens" := Json.Int((prompt + completion) % 0x1_0000_0000_0000_0000)])])
  }

  // ----- The streaming form -----

  /** One server-sent event of the OpenAI stream. */
  datatype OutEvent = Chunk(body: Value) | Done

  datatype Session = Session(id: string, model: string, doneSent: bool)

  const OPENING := Session(DEFAULT_ID, DEFAULT_MODEL, false)

  function ChunkOf(s: Session, created: nat, delta: Value, finish: Value): OutEvent {
    Chunk(Json.Obj(map[
      "id" := Json.Str(s.id),
      "object" := Json.Str("chat.completion.chunk"),
      "created" := Json.Int(created),
      "model" := Json.Str(s.model),
      "choices" := Choice(map["index" := Json.Int(0), "delta" := delta, "finish_reason" := finish])]))
  }

  function TextChunk(s: Session, created: nat, text: string): OutEvent {
    ChunkOf(s, created, Json.Obj(map["content" := Json.Str(text)]), Json.Null)
  }

  function RoleChunk(s: Session, created: nat): OutEvent {
    ChunkOf(s, created, Json.Obj(map["role" := Json.Str("assistant"), "content" := Json.Str("")]), Json.Null)
  }

  function FinishChunk(s: Session, created: nat, reason: string): OutEvent {
    ChunkOf(s, created, Json.Obj(map[]), Json.Str(reason))
  }

  /** The reaction to one upstream event. */
  function Respond(s: Session, created: nat, e: Value): (Session, seq<OutEvent>) {
    match Json.GetStr(e, "type")
    case None => (s, [])
    case Some(kind) =>
      if kind == "message_start" then
        var s' := s.(id := Json.PointerStr(e, "message", "id").GetOr(s.id),
                     model := Json.PointerStr(e, "message", "model").GetOr(s.model));
        (s', [RoleChunk(s', created)])
      else if kind == "content_block_start" then
        var t := Json.PointerStr(e, "content_block", "text").GetOr("");
        (s, if t != "" then [TextChunk(s, created, t)] else [])
      else if kind == "content_block_delta" then
        var t := Json.PointerStr(e, "delta", "text");
        (s, if t.Some? then [TextChunk(s, created, t.value)] else [])
      else if kind == "message_delta" then
        (s, [FinishChunk(s, created, FinishReason(Json.PointerStr(e, "delta", "stop_reason")))])
      else if kind == "message_stop" && !s.doneSent then
        (s.(doneSent := true), [Done])
      else (s, [])
  }

  function Translate(s: Session, created: nat, events: seq<Value>): (Session, seq<OutEvent>)
    decreases |events|
  {
    if events == [] then (s, [])
    else
      var (s1, o1) := Respond(s, created, events[0]);
      var (s2, o2) := Translate(s1, created, events[1..]);
      (s2, o1 + o2)
  }

  /** `finish`: terminate the stream unless it has been. */
  function Closing(s: Session): seq<OutEvent> {
    if s.doneSent then [] else [Done]
  }

  /** The whole stream: every event translated, then `finish`. */
  function StreamOutput(created: nat, events: seq<Value>): seq<OutEvent> {
    var (s, outs) := Translate(OPENING, created, events);
    outs + Closing(s)
  }

  /** The payload of an output event on the wire. */
  function Payload(show: Printer<Value>): Printer<OutEvent> {
    (o: OutEvent) => match o case Chunk(body) => show(body) case Done => "[DONE]"
  }

  function Wire(show: Printer<Value>, outs: seq<OutEvent>): Utf8.Bytes {
    Utf8.Encode(PrintEvents(Payload(show), outs))
  }

  lemma {:induction false} TranslateAppend(s: Session, created: nat, a: seq<Value>, b: seq<Value>)
    ensures var (s1, o1) := Translate(s, created, a);
            var (s2, o2) := Translate(s1, created, b);
            Translate(s, created, a + b) == (s2, o1 + o2)
    decreases |a|
  {
    if a == [] {
      Plus(b);
      assert [] + Translate(s, created, b).1 == Translate(s, created, b).1;
    } else {
      AppendTail(a, b);
      var (s1, o1) := Respond(s, created, a[0]);
      var (s2, o2) := Translate(s1, created, a[1..]);
      var o3 := Translate(s2, created, b).1;
      TranslateAppend(s1, created, a[1..], b);
      Assoc(o1, o2, o3);
    }
  }

  lemma {:induction false} PrintEventsAppend<T>(show: Printer<T>, a: seq<T>, b: seq<T>)
    ensures PrintEvents(show, a + b) == PrintEvents(show, a) + PrintEvents(show, b)
  {
    if a == [] {
      Plus(b);
    } else {
      AppendTail(a, b);
      PrintEventsAppend(show, a[1..], b);
      Assoc(PrintEvent(show, a[0]), PrintEvents(show, a[1..]), PrintEvents(show, b));
    }
  }

  lemma WireAppend(show: Printer<Value>, a: seq<OutEvent>, b: seq<OutEvent>)
    ensures Wire(show, a + b) == Wire(show, a) + Wire(show, b)
  {
    PrintEventsAppend(Payload(show), a, b);
    Utf8.EncodeAppend(PrintEvents(Payload(show), a), PrintEvents(Payload(show), b));
  }

  lemma TranslateFirst(show: Printer<Value>, s: Session, created: nat, e: Value, rest: seq<Value>)
    ensures var (s1, o1) := Respond(s, created, e);
            && Translate(s, created, [e] + rest).0 == Translate(s1, created, rest).0
            && Wire(show, Translate(s, created, [e] + rest).1)
            == Wire(show, o1) + Wire(show, Translate(s1, created, rest).1)
  {
    var (s1, o1) := Respond(s, created, e);
    assert ([e] + rest)[1..] == rest;
    WireAppend(show, o1, Translate(s1, created, rest).1);
  }

  // ----- Chunking -----

  /** The translator between two pushes. */
  datatype Machine = Machine(pending: string, session: Session)

  /** The effect of one push that decodes to `s`. */
  function Fed(parse: Parser<Value>, created: nat, m: Machine, s: string): (Machine, seq<OutEvent>) {
    var arrived := m.pending + s;
    var (session, outs) := Translate(m.session, created, Events(parse, arrived));
    (Machine(Rest(arrived), session), outs)
  }

  /** Output is a homomorphism over chunking, from every state: two pushes in a row produce what
      one push of the joined text produces, and leave the same state. */
  lemma PushHomomorphism(parse: Parser<Value>, created: nat, m: Machine, a: string, b: string)
    ensures var (m1, o1) := Fed(parse, created, m, a);
            var (m2, o2) := Fed(parse, created, m1, b);
            Fed(parse, created, m, a + b) == (m2, o1 + o2)
  {
    var first := m.pending + a;
    assert m.pending + (a + b) == first + b;
    EventsAppend(parse, first, b);
    TranslateAppend(m.session, created, Events(parse, first), Events(parse, Rest(first) + b));
  }

  function FedAll(parse: Parser<Value>, created: nat, m: Machine, pieces: seq<string>): (Machine, seq<OutEvent>)
    decreases |pieces|
  {
    if pieces == [] then (m, [])
    else
      var (m1, o1) := Fed(parse, created, m, pieces[0]);
      var (m2, o2) := FedAll(parse, created, m1, pieces[1..]);
      (m2, o1 + o2)
  }

  /** Any number of pushes, from every state whose held-back text has no complete line in it -
      as after any push - amount to one. */
  lemma {:induction false} PushesAreOne(parse: Parser<Value>, created: nat, m: Machine, pieces: seq<string>)
    requires '\n' !in m.pending
    ensures FedAll(parse, created, m, pieces) == Fed(parse, created, m, Concat(pieces))
    decreases |pieces|
  {
    if pieces == [] {
      assert m.pending + "" == m.pending;
      IndexOfAbsent(m.pending, '\n');
    } else {
      var m1 := Fed(parse, created, m, pieces[0]).0;
      RestHasNoLine(m.pending + pieces[0]);
      PushesAreOne(parse, created, m1, pieces[1..]);
      PushHomomorphism(parse, created, m, pieces[0], Concat(pieces[1..]));
    }
  }

  lemma {:induction false} RestHasNoLine(s: string)
    ensures '\n' !in Rest(s)
    decreases |s|
  {
    var i := IndexOf(s, '\n');
    if i < |s| {
      RestHasNoLine(s[i + 1..]);
    } else {
      IndexOfAbsent(s, '\n');
    }
  }

  class SseTranslator {
    const parse: Parser<Value>
    const show: Printer<Value>
    const created: nat
    var pending: string
    var id: string
    var model: string
    var doneSent: bool

    function State(): Machine
      reads this
    {
      Machine(pending, Session(id, model, doneSent))
    }

    constructor (parse: Parser<Value>, show: Printer<Value>, created: nat)
      ensures State() == Machine("", OPENING)
      ensures this.parse == parse && this.show == show && this.created == created
    {
      this.parse := parse;
      this.show := show;
      this.created := created;
      pending, id, model, doneSent := "", DEFAULT_ID, DEFAULT_MODEL, false;
    }

    /** What translating the lines held in `text` from session `s` still has to send. */
    ghost function Owed(s: Session, text: string): Utf8.Bytes {
      Wire(show, Translate(s, created, Events(parse, text)).1)
    }

    ghost function Settled(s: Session, text: string): Session {
      Translate(s, created, Events(parse, text)).0
    }

    lemma OwedStep(s: Session, text: string, line: string, left: string)
      requires IndexOf(text, '\n') < |text|
      requires line == text[..IndexOf(text, '\n') + 1] && left == text[IndexOf(text, '\n') + 1..]
      ensures Rest(text) == Rest(left)
      ensures match EventOf(parse, line)
              case None => Owed(s, text) == Owed(s, left) && Settled(s, text) == Settled(s, left)
              case Some(e) =>
                var (s1, o1) := Respond(s, created, e);
                Owed(s, text) == Wire(show, o1) + Owed(s1, left) && Settled(s, text) == Settled(s1, left)
    {
      DrainOne(parse, text, line, left);
      var event := EventOf(parse, line);
      if event.Some? {
        TranslateFirst(show, s, created, event.value, Events(parse, left));
      }
    }

    lemma OwedDone(s: Session, text: string)
      requires IndexOf(text, '\n') == |text|
      ensures Owed(s, text) == [] && Settled(s, text) == s && Rest(text) == text
    {
    }

    method Push(chunk: Utf8.Bytes) returns (out: Utf8.Bytes)
      modifies this
      ensures var (after, outs) := Fed(parse, created, old(State()), Utf8.Decode(chunk));
              State() == after && out == Wire(show, outs)
    {
      pending := pending + Utf8.Decode(chunk);
      ghost var arrived, start := pending, State().session;
      ghost var owed, settled := Owed(start, arrived), Settled(start, arrived);
      out := [];
      Plus(owed);
      while IndexOf(pending, '\n') < |pending|
        invariant Rest(pending) == Rest(arrived)
        invariant settled == Settled(State().session, pending)
        invariant owed == out + Owed(State().session, pending)
        decreases |pending|
      {
        var newline := IndexOf(pending, '\n');
        OwedStep(State().session, pending, pending[..newline + 1], pending[newline + 1..]);
        var line := TrimEol(pending[..newline + 1]);
        pending := pending[newline + 1..];
        if DATA_PREFIX <= line {
          var event := parse(line[|DATA_PREFIX|..]);
          if event.Some? {
            var bytes := Handle(event.value);
            Assoc(out, bytes, Owed(State().session, pending));
            out := out + bytes;
          }
        }
      }
      OwedDone(State().session, pending);
      Plus(out);
    }

    /** The body of the loop over events. */
    method Handle(event: Value) returns (out: Utf8.Bytes)
      modifies this`id, this`model, this`doneSent
      ensures var (after, outs) := Respond(old(State()).session, created, event);
              State() == Machine(old(pending), after) && out == Wire(show, outs)
    {
      var kind := Json.GetStr(event, "type");
      out := [];
      if kind == Some("message_start") {
        var newId := Json.PointerStr(event, "message", "id");
        if newId.Some? {
          id := newId.value;
        }
        var newModel := Json.PointerStr(event, "message", "model");
        if newModel.Some? {
          model := newModel.value;
        }
        out := Emit(RoleChunk(Session(id, model, doneSent), created));
      } else if kind == Some("content_block_start") {
        var t := Json.PointerStr(event, "content_block", "text");
        if t.Some? && t.value != "" {
          out := Emit(TextChunk(Session(id, model, doneSent), created, t.value));
        }
      } else if kind == Some("content_block_delta") {
        var t := Json.PointerStr(event, "delta", "text");
        if t.Some? {
          out := Emit(TextChunk(Session(id, model, doneSent), created, t.value));
        }
      } else if kind == Some("message_delta") {
        var reason := FinishReason(Json.PointerStr(event, "delta", "stop_reason"));
        out := Emit(FinishChunk(Session(id, model, doneSent), created, reason));
      } else if kind == Some("message_stop") && !doneSent {
        out := Emit(Done);
        doneSent := true;
      }
    }

    function Emit(o: OutEvent): (bytes: Utf8.Bytes)
      ensures bytes == Wire(show, [o])
    {
      assert [o][1..] == [];
      assert PrintEvents(Payload(show), [o]) == PrintEvent(Payload(show), o) + "" == PrintEvent(Payload(show), o);
      Utf8.Encode(PrintEvent(Payload(show), o))
    }

    method Finish() returns (out: Utf8.Bytes)
      modifies this`doneSent
      ensures State() == old(State()).(session := old(State()).session.(doneSent := true))
      ensures out == Wire(show, Closing(old(State()).session))
    {
      if doneSent {
        return [];
      }
      doneSent := true;
      out := Emit(Done);
    }
  }

  /** A whole body through the translator: every chunk pushed, then `finish` called at least
      once (src/chat_proxy.rs, translate_response). */
  method TranslateBody(parse: Parser<Value>, show: Printer<Value>, created: nat,
                       chunks: seq<Utf8.Bytes>, finishes: nat)
    returns (out: Utf8.Bytes)
    requires finishes >= 1
    ensures out == Wire(show, StreamOutput(created, Events(parse, Utf8.DecodeEach(chunks))))
  {
    var translator := new SseTranslator(parse, show, created);
    out := [];
    ghost var outs: seq<OutEvent> := [];
    var i := 0;
    assert Events(parse, "") == [];
    while i < |chunks|
      invariant 0 <= i <= |chunks|
      invariant translator.parse == parse && translator.show == show && translator.created == created
      invariant (translator.State(), outs)
             == Fed(parse, created, Machine("", OPENING), Utf8.DecodeEach(chunks[..i]))
      invariant out == Wire(show, outs)
    {
      ghost var before := translator.State();
      var bytes := translator.Push(chunks[i]);
      ghost var new' := Fed(parse, created, before, Utf8.Decode(chunks[i])).1;
      TakeNext(chunks, i);
      OneChunk(chunks[..i], chunks[i]);
      PushHomomorphism(parse, created, Machine("", OPENING), Utf8.DecodeEach(chunks[..i]), Utf8.Decode(chunks[i]));
      WireAppend(show, outs, new');
      outs := outs + new';
      out := out + bytes;
      i := i + 1;
    }
    TakeDrop(chunks, i);
    Plus(Utf8.DecodeEach(chunks));
    ghost var session := translator.State().session;
    var j := 0;
    while j < finishes
      invariant 0 <= j <= finishes
      invariant translator.show == show
      invariant translator.State().session == if j == 0 then session else session.(doneSent := true)
      invariant out == Wire(show, if j == 0 then outs else outs + Closing(session))
    {
      var bytes := translator.Finish();
      WireAppend(show, outs, Closing(session));
      out := out + bytes;
      j := j + 1;
    }
  }

  /** How the network cuts the bytes between characters does not show in the translation. */
  lemma SameBytesSameTranslation(parse: Parser<Value>, show: Printer<Value>, created: nat,
                                 a: seq<Utf8.Bytes>, b: seq<Utf8.Bytes>)
    requires Utf8.CutsBetweenCharacters(a) && Utf8.CutsBetweenCharacters(b)
    requires Utf8.Flatten(a) == Utf8.Flatten(b)
    ensures Wire(show, StreamOutput(created, Events(parse, Utf8.DecodeEach(a))))
         == Wire(show, StreamOutput(created, Events(parse, Utf8.DecodeEach(b))))
  {
    Utf8.DecodeEachIsDecode(a);
    Utf8.DecodeEachIsDecode(b);
  }

  lemma OneChunk(before: seq<Utf8.Bytes>, chunk: Utf8.Bytes)
    ensures Utf8.DecodeEach(before + [chunk]) == Utf8.DecodeEach(before) + Utf8.Decode(chunk)
  {
    var none: seq<Utf8.Bytes> := [];
    assert [chunk][1..] == none;
    Utf8.DecodeEachAppend(before, [chunk]);
  }
}
