/** Request payloads: the conversation key and the edits made before sending
    (src/orchestrator.rs and src/proxy.rs). */
module Payload {
  import opened Wrappers
  import opened Text
  import Json

  type Value = Json.Value

  /** SHA-256 in hexadecimal; any function will do here. */
  type Hash = string -> string

  /** The texts of the text blocks, in order. */
  function TextParts(blocks: seq<Value>): seq<string> {
    if blocks == [] then []
    else
      var t := if Json.GetStr(blocks[0], "type") == Some("text") then Json.GetStr(blocks[0], "text") else None;
      (if t.Some? then [t.value] else []) + TextParts(blocks[1..])
  }

  function FirstUser(messages: seq<Value>): Option<Value> {
    if messages == [] then None
    else if Json.GetStr(messages[0], "role") == Some("user") then Some(messages[0])
    else FirstUser(messages[1..])
  }

  /** The text a message content stands for, if it has any. */
  function ContentText(content: Option<Value>): Option<string> {
    match content
    case Some(Str(s)) => Some(s)
    case Some(Arr(blocks)) =>
      var parts := TextParts(blocks);
      if parts == [] then None else Some(Join(parts, "\n"))
    case _ => None
  }

  function Messages(payload: Value): Option<seq<Value>> {
    Json.AsArray(Json.Get(payload, "messages"))
  }

  function ConversationKey(hash: Hash, payload: Value): Option<string> {
    var messages :- Messages(payload);
    var first :- FirstUser(messages);
    var text :- ContentText(Json.Get(first, "content"));
    Some(hash(text))
  }

  lemma {:induction false} FirstUserStays(messages: seq<Value>, more: seq<Value>)
    requires FirstUser(messages).Some?
    ensures FirstUser(messages + more) == FirstUser(messages)
  {
    AppendTail(messages, more);
    if Json.GetStr(messages[0], "role") != Some("user") {
      FirstUserStays(messages[1..], more);
    }
  }

  /** The first user message is the first whose role says so. */
  lemma {:induction false} FirstUserIs(messages: seq<Value>, i: nat)
    requires i < |messages| && Json.GetStr(messages[i], "role") == Some("user")
    requires forall j | 0 <= j < i :: Json.GetStr(messages[j], "role") != Some("user")
    ensures FirstUser(messages) == Some(messages[i])
  {
    if i > 0 {
      FirstUserIs(messages[1..], i - 1);
    }
  }

  lemma {:induction false} NoFirstUser(messages: seq<Value>)
    ensures FirstUser(messages).None? <==> forall j | 0 <= j < |messages| :: Json.GetStr(messages[j], "role") != Some("user")
  {
    if messages != [] {
      NoFirstUser(messages[1..]);
      assert forall j | 0 < j < |messages| :: messages[j] == messages[1..][j - 1];
    }
  }

  /** The text a conversation is named by. */
  function KeyText(payload: Value): Option<string> {
    var messages :- Messages(payload);
    var first :- FirstUser(messages);
    ContentText(Json.Get(first, "content"))
  }

  /** The key tells conversations apart: with a hash that does not collide, two requests have the same
      key if and only if the texts of their first user messages are the same. */
  lemma KeyIffSameText(hash: Hash, a: Value, b: Value)
    requires forall x, y :: hash(x) == hash(y) ==> x == y
    ensures ConversationKey(hash, a).Some? <==> KeyText(a).Some?
    ensures ConversationKey(hash, a) == ConversationKey(hash, b) <==> KeyText(a) == KeyText(b)
  {
  }

  /** What that text is: of the first user message the string, or its text blocks joined by newlines. */
  lemma KeyTextIs(payload: Value, messages: seq<Value>, i: nat)
    requires Messages(payload) == Some(messages) && i < |messages|
    requires Json.GetStr(messages[i], "role") == Some("user")
    requires forall j | 0 <= j < i :: Json.GetStr(messages[j], "role") != Some("user")
    ensures forall s: string :: Json.Get(messages[i], "content") == Some(Json.Str(s)) ==> KeyText(payload) == Some(s)
    ensures forall texts: seq<string> ::
              texts != [] && Json.Get(messages[i], "content") == Some(Json.Arr(TextBlocks(texts)))
              ==> KeyText(payload) == Some(Join(texts, "\n"))
  {
    FirstUserIs(messages, i);
    forall texts: seq<string>
      ensures TextParts(TextBlocks(texts)) == texts
    {
      PartsOfBlocks(texts);
    }
  }

  function TextBlocks(texts: seq<string>): seq<Value> {
    if texts == [] then [] else [TextBlock(texts[0])] + TextBlocks(texts[1..])
  }

  lemma {:induction false} PartsOfBlocks(texts: seq<string>)
    ensures TextParts(TextBlocks(texts)) == texts
  {
    if texts != [] {
      PartsOfBlocks(texts[1..]);
      assert TextBlocks(texts)[1..] == TextBlocks(texts[1..]);
      assert [texts[0]] + texts[1..] == texts;
    }
  }

  lemma {:induction false} PartsAppend(blocks: seq<Value>, b: Value)
    ensures TextParts(blocks + [b]) == TextParts(blocks) + TextParts([b])
  {
    if blocks == [] {
      Plus([b]);
      Plus(TextParts([b]));
    } else {
      AppendTail(blocks, [b]);
      PartsAppend(blocks[1..], b);
      assert [blocks[0]][1..] == [];
    }
  }

  lemma {:induction false} JoinAppend(parts: seq<string>, t: string, sep: string)
    ensures Join(parts + [t], sep) == if parts == [] then t else Join(parts, sep) + sep + t
  {
    if parts == [] {
      Plus([t]);
    } else {
      AppendTail(parts, [t]);
      JoinAppend(parts[1..], t, sep);
      if |parts| == 1 {
        assert parts[1..] + [t] == [t];
      } else {
        Assoc(parts[0] + sep, Join(parts[1..], sep), sep);
        Assoc(parts[0] + sep, Join(parts[1..], sep) + sep, t);
      }
    }
  }

  /** The text of an array of blocks, block by block: a text block adds its text on a new line, any
      other block adds nothing, and no text block at all means no text. */
  lemma ArrayText(blocks: seq<Value>, b: Value)
    ensures ContentText(Some(Json.Arr([]))) == None
    ensures var before := ContentText(Some(Json.Arr(blocks)));
            var after := ContentText(Some(Json.Arr(blocks + [b])));
            var t := Json.GetStr(b, "text");
            after == if Json.GetStr(b, "type") != Some("text") || t.None? then before
                     else if before.None? then t
                     else Some(before.value + "\n" + t.value)
  {
    PartsAppend(blocks, b);
    assert [b][1..] == [];
    var t := if Json.GetStr(b, "type") == Some("text") then Json.GetStr(b, "text") else None;
    if t.Some? {
      assert TextParts([b]) == [t.value] + [] == [t.value];
      JoinAppend(TextParts(blocks), t.value, "\n");
    } else {
      assert TextParts([b]) == [] + [] == [];
      Plus(TextParts(blocks));
    }
  }

  /** A conversation keeps its key as turns are appended; one whose first user message has no text
      never gets a key. */
  lemma KeyIsStable(hash: Hash, payload: Value, longer: Value, more: seq<Value>)
    requires Messages(payload).Some? && Messages(longer) == Some(Messages(payload).value + more)
    requires FirstUser(Messages(payload).value).Some?
    ensures ConversationKey(hash, longer) == ConversationKey(hash, payload)
  {
    FirstUserStays(Messages(payload).value, more);
  }

  // ----- Edits before sending -----

  function TextBlock(text: string): Value {
    Json.Obj(map["type" := Json.Str("text"), "text" := Json.Str(text)])
  }

  function WithSystemNote(payload: Value, note: string): Value
    requires Json.Indexable(payload)
  {
    var system :=
      match Json.Get(payload, "system")
      case Some(Str(s)) => Json.Str(s + "\n\n" + note)
      case Some(Arr(blocks)) => Json.Arr(blocks + [TextBlock(note)])
      case _ => Json.Str(note);
    Json.Set(payload, "system", system)
  }

  function WithModel(payload: Value, model: string): Value
    requires Json.Indexable(payload)
  {
    Json.Set(payload, "model", Json.Str(model))
  }

  function WithLocalModel(payload: Value, localModel: Option<string>): Value
    requires Json.Indexable(payload)
  {
    match localModel case Some(m) => WithModel(payload, m) case None => payload
  }

  const UNAVAILABLE_NOTE :=
    "Escalation is currently unavailable; answer the request yourself as best you can."

  function SentinelInstruction(sentinel: string): string {
    "If this task is beyond your capability, output " + sentinel + " as your very first token and nothing else."
  }

  /** The three payloads a cascade request may send. */
  function AttemptPayload(original: Value, localModel: Option<string>, sentinel: string): Value
    requires original.Obj?
  {
    WithSystemNote(WithLocalModel(original, localModel), SentinelInstruction(sentinel))
  }

  function FallbackPayload(original: Value, localModel: Option<string>): Value
    requires original.Obj?
  {
    WithSystemNote(WithLocalModel(original, localModel), UNAVAILABLE_NOTE)
  }

  function CloudPayload(original: Value, escalationModel: string): Value
    requires original.Obj?
  {
    WithModel(original, escalationModel)
  }

  /** Each of them differs from the client's request in the fields named and in no other; in
      particular the cloud's copy never carries an instruction. */
  lemma PayloadsTouchOnly(original: Value, localModel: Option<string>, sentinel: string, model: string, field: string)
    requires original.Obj?
    ensures field != "model" ==> Json.Get(CloudPayload(original, model), field) == Json.Get(original, field)
    ensures field != "model" && field != "system" ==>
              && Json.Get(AttemptPayload(original, localModel, sentinel), field) == Json.Get(original, field)
              && Json.Get(FallbackPayload(original, localModel), field) == Json.Get(original, field)
  {
  }

  /** What the edits write. The cloud gets the escalation model; local copies get the local model if one
      is configured; and each local copy carries its own note, which an existing system prompt keeps
      in front of it. */
  lemma PayloadsWrite(original: Value, localModel: Option<string>, sentinel: string, model: string)
    requires original.Obj?
    ensures Json.GetStr(CloudPayload(original, model), "model") == Some(model)
    ensures var attempt, fallback := AttemptPayload(original, localModel, sentinel), FallbackPayload(original, localModel);
            && Json.Get(attempt, "model") == Json.Get(fallback, "model")
            && Json.Get(attempt, "model")
            == (if localModel.Some? then Some(Json.Str(localModel.value)) else Json.Get(original, "model"))
            && NoteAdded(original, attempt,
                         "If this task is beyond your capability, output " + sentinel
                         + " as your very first token and nothing else.")
            && NoteAdded(original, fallback,
                         "Escalation is currently unavailable; answer the request yourself as best you can.")
  {
    var local := WithLocalModel(original, localModel);
    NoteIsAdded(local, SentinelInstruction(sentinel));
    NoteIsAdded(local, UNAVAILABLE_NOTE);
    assert Json.Get(local, "system") == Json.Get(original, "system");
  }

  lemma NoteIsAdded(payload: Value, note: string)
    requires payload.Obj?
    ensures NoteAdded(payload, WithSystemNote(payload, note), note)
    ensures Json.Get(WithSystemNote(payload, note), "model") == Json.Get(payload, "model")
  {
  }

  /** A string prompt is continued after a blank line, an array gets a text block more, and anything
      else is replaced. */
  predicate NoteAdded(original: Value, edited: Value, note: string) {
    match Json.Get(original, "system")
    case Some(Str(s)) => Json.GetStr(edited, "system") == Some(s + "\n\n" + note)
    case Some(Arr(blocks)) =>
      var now := Json.AsArray(Json.Get(edited, "system")).GetOr([]);
      && |now| == |blocks| + 1 && now[..|blocks|] == blocks
      && Json.GetStr(now[|blocks|], "type") == Some("text") && Json.GetStr(now[|blocks|], "text") == Some(note)
    case _ => Json.GetStr(edited, "system") == Some(note)
  }

  /** None of the edits changes which conversation a request belongs to. */
  lemma PayloadsKeepKey(original: Value, localModel: Option<string>, sentinel: string, model: string, hash: Hash)
    requires original.Obj?
    ensures ConversationKey(hash, CloudPayload(original, model)) == ConversationKey(hash, original)
    ensures ConversationKey(hash, AttemptPayload(original, localModel, sentinel)) == ConversationKey(hash, original)
    ensures ConversationKey(hash, FallbackPayload(original, localModel)) == ConversationKey(hash, original)
  {
    PayloadsTouchOnly(original, localModel, sentinel, model, "messages");
  }

  /** A request body edited in place. */
  class Body {
    var json: Value

    constructor (json: Value)
      ensures this.json == json
    {
      this.json := json;
    }

    /** The note goes last, whatever shape the system prompt has. */
    method AppendSystemNote(note: string)
      requires Json.Indexable(json)
      modifies this
      ensures json == WithSystemNote(old(json), note)
    {
      match Json.Get(json, "system") {
        case Some(Str(s)) =>
          var text := s + "\n\n";
          text := text + note;
          json := Json.Set(json, "system", Json.Str(text));
        case Some(Arr(blocks)) =>
          json := Json.Set(json, "system", Json.Arr(blocks + [TextBlock(note)]));
        case _ =>
          json := Json.Set(json, "system", Json.Str(note));
      }
    }

    method SetLocalModel(localModel: Option<string>)
      requires Json.Indexable(json)
      modifies this
      ensures json == WithLocalModel(old(json), localModel)
    {
      if localModel.Some? {
        json := Json.Set(json, "model", Json.Str(localModel.value));
      }
    }
  }
}
