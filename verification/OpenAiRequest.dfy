/** Chat-completion requests as Anthropic Messages payloads (src/openai_compat.rs,
    openai_to_anthropic). */
module OpenAiRequest {
  import opened Wrappers
  import opened Text
  import opened Payload
  import Json

  const NO_MESSAGES := "missing 'messages' array"
  const NO_ROLE := "message missing 'role'"
  const NO_TEXT := "message content has no text parts"
  const NO_CONTENT := "message missing 'content'"
  const NO_TURNS := "no user or assistant messages"

  function UnsupportedRole(role: string): string {
    "unsupported role '" + role + "'"
  }

  /** Flatten a message content to text, or say why that fails. */
  function FlatContent(content: Option<Value>): (r: Result<string, string>)
    ensures r.Ok? <==> ContentText(content).Some?
    ensures r.Ok? ==> ContentText(content) == Some(r.value)
  {
    match content
    case Some(Str(s)) => Ok(s)
    case Some(Arr(parts)) =>
      var texts := TextParts(parts);
      if texts == [] then Err(NO_TEXT) else Ok(Join(texts, "\n"))
    case _ => Err(NO_CONTENT)
  }

  predicate IsSystemRole(role: string) {
    role == "system" || role == "developer"
  }

  predicate IsTurnRole(role: string) {
    role == "user" || role == "assistant"
  }

  /** Why a message is rejected: the role is looked for first, then the text, then judged. */
  function MessageError(m: Value): Option<string> {
    match Json.GetStr(m, "role")
    case None => Some(NO_ROLE)
    case Some(role) =>
      match FlatContent(Json.Get(m, "content"))
      case Err(e) => Some(e)
      case Ok(_) => if IsSystemRole(role) || IsTurnRole(role) then None else Some(UnsupportedRole(role))
  }

  function FirstError(messages: seq<Value>): Option<string> {
    if messages == [] then None
    else if MessageError(messages[0]).Some? then MessageError(messages[0])
    else FirstError(messages[1..])
  }

  function Turn(role: string, text: string): Value {
    Json.Obj(map["role" := Json.Str(role), "content" := Json.Str(text)])
  }

  /** The user and assistant turns, in order. */
  function TurnsOf(messages: seq<Value>): seq<Value> {
    if messages == [] then []
    else
      var role := Json.GetStr(messages[0], "role").GetOr("");
      var text := ContentText(Json.Get(messages[0], "content")).GetOr("");
      (if IsTurnRole(role) then [Turn(role, text)] else []) + TurnsOf(messages[1..])
  }

  /** The system texts, in order. */
  function SystemsOf(messages: seq<Value>): seq<string> {
    if messages == [] then []
    else
      var role := Json.GetStr(messages[0], "role").GetOr("");
      var text := ContentText(Json.Get(messages[0], "content")).GetOr("");
      (if IsSystemRole(role) then [text] else []) + SystemsOf(messages[1..])
  }

  function MaxTokens(req: Value): nat {
    var field := if Json.Get(req, "max_tokens").Some? then Json.Get(req, "max_tokens")
                 else Json.Get(req, "max_completion_tokens");
    Json.AsU64(field).GetOr(4096)
  }

  function Copied(out: Value, req: Value, key: string): Value
    requires out.Obj?
  {
    match Json.Get(req, key) case Some(v) => Json.Set(out, key, v) case None => out
  }

  /** The payload around the turns. */
  function Assembled(req: Value, systems: seq<string>, turns: seq<Value>): Value {
    WithStream(WithStops(WithSampling(WithPrompt(req, systems, turns), req), req), req)
  }

  function WithPrompt(req: Value, systems: seq<string>, turns: seq<Value>): (out: Value)
    ensures out.Obj?
  {
    var base := Json.Obj(map["model" := Json.Str(""), "max_tokens" := Json.Int(MaxTokens(req)), "messages" := Json.Arr(turns)]);
    if systems == [] then base else Json.Set(base, "system", Json.Str(Join(systems, "\n\n")))
  }

  function WithSampling(out: Value, req: Value): (r: Value)
    requires out.Obj?
    ensures r.Obj?
  {
    Copied(Copied(out, req, "temperature"), req, "top_p")
  }

  function WithStops(out: Value, req: Value): (r: Value)
    requires out.Obj?
    ensures r.Obj?
  {
    match Json.Get(req, "stop")
    case Some(Str(s)) => Json.Set(out, "stop_sequences", Json.Arr([Json.Str(s)]))
    case Some(Arr(a)) => Json.Set(out, "stop_sequences", Json.Arr(a))
    case _ => out
  }

  function WithStream(out: Value, req: Value): (r: Value)
    requires out.Obj?
    ensures r.Obj?
  {
    if Json.Get(req, "stream") == Some(Json.Bool(true)) then Json.Set(out, "stream", Json.Bool(true)) else out
  }

  function Translated(req: Value): Result<Value, string> {
    match Messages(req)
    case None => Err(NO_MESSAGES)
    case Some(messages) =>
      match FirstError(messages)
      case Some(e) => Err(e)
      case None =>
        if TurnsOf(messages) == [] then Err(NO_TURNS)
        else Ok(Assembled(req, SystemsOf(messages), TurnsOf(messages)))
  }

  lemma {:induction false} SplitAppend(messages: seq<Value>, m: Value)
    ensures TurnsOf(messages + [m]) == TurnsOf(messages) + TurnsOf([m])
    ensures SystemsOf(messages + [m]) == SystemsOf(messages) + SystemsOf([m])
  {
    if messages == [] {
      Plus([m]);
      Plus(TurnsOf([m]));
      Plus(SystemsOf([m]));
    } else {
      AppendTail(messages, [m]);
      SplitAppend(messages[1..], m);
      Assoc(TurnsOf([messages[0]]), TurnsOf(messages[1..]), TurnsOf([m]));
      Assoc(SystemsOf([messages[0]]), SystemsOf(messages[1..]), SystemsOf([m]));
      SplitOne(messages[0]);
    }
  }

  lemma SplitOne(m: Value)
    ensures var role := Json.GetStr(m, "role").GetOr("");
            var text := ContentText(Json.Get(m, "content")).GetOr("");
            && TurnsOf([m]) == (if IsTurnRole(role) then [Turn(role, text)] else [])
            && SystemsOf([m]) == (if IsSystemRole(role) then [text] else [])
  {
    var none: seq<Value> := [];
    assert [m][1..] == none;
  }

  lemma {:induction false} FirstErrorAt(messages: seq<Value>, i: nat)
    requires i < |messages|
    requires forall j | 0 <= j < i :: MessageError(messages[j]).None?
    requires MessageError(messages[i]).Some?
    ensures FirstError(messages) == MessageError(messages[i])
  {
    if i > 0 {
      FirstErrorAt(messages[1..], i - 1);
    }
  }

  lemma {:induction false} NoError(messages: seq<Value>)
    ensures FirstError(messages).None? <==> forall j | 0 <= j < |messages| :: MessageError(messages[j]).None?
  {
    if messages != [] {
      NoError(messages[1..]);
      if FirstError(messages).None? {
        forall j | 0 <= j < |messages|
          ensures MessageError(messages[j]).None?
        {
          if j > 0 {
            assert messages[j] == messages[1..][j - 1];
          }
        }
      } else if MessageError(messages[0]).None? {
        var j :| 0 <= j < |messages[1..]| && MessageError(messages[1..][j]).Some?;
        assert messages[j + 1] == messages[1..][j];
      }
    }
  }

  method OpenAiToAnthropic(req: Value) returns (r: Result<Value, string>)
    ensures r == Translated(req)
  {
    var found := Messages(req);
    if found.None? {
      return Err(NO_MESSAGES);
    }
    var messages := found.value;
    var systems: seq<string> := [];
    var turns: seq<Value> := [];
    var i := 0;
    while i < |messages|
      invariant 0 <= i <= |messages|
      invariant forall j | 0 <= j < i :: MessageError(messages[j]).None?
      invariant systems == SystemsOf(messages[..i]) && turns == TurnsOf(messages[..i])
    {
      var m := messages[i];
      if MessageError(m).Some? {
        FirstErrorAt(messages, i);
      }
      TakeNext(messages, i);
      SplitAppend(messages[..i], m);
      SplitOne(m);
      var role := Json.GetStr(m, "role");
      if role.None? {
        return Err(NO_ROLE);
      }
      var text := FlatContent(Json.Get(m, "content"));
      if text.Err? {
        return Err(text.error);
      }
      if IsSystemRole(role.value) {
        systems := systems + [text.value];
      } else if IsTurnRole(role.value) {
        turns := turns + [Turn(role.value, text.value)];
      } else {
        return Err(UnsupportedRole(role.value));
      }
      i := i + 1;
    }
    TakeDrop(messages, i);
    NoError(messages);
    if turns == [] {
      return Err(NO_TURNS);
    }
    return Ok(Assembled(req, systems, turns));
  }

  predicate HasRole(m: Value, roles: set<string>) {
    var role := Json.GetStr(m, "role");
    role.Some? && role.value in roles
  }

  lemma {:induction false} TurnsExist(messages: seq<Value>)
    ensures TurnsOf(messages) != [] <==> exists i :: 0 <= i < |messages| && HasRole(messages[i], {"user", "assistant"})
  {
    if messages != [] {
      TurnsExist(messages[1..]);
      if HasRole(messages[0], {"user", "assistant"}) {
      } else if TurnsOf(messages[1..]) != [] {
        var i :| 0 <= i < |messages[1..]| && HasRole(messages[1..][i], {"user", "assistant"});
        assert messages[i + 1] == messages[1..][i];
      } else {
        forall i | 0 <= i < |messages|
          ensures !HasRole(messages[i], {"user", "assistant"})
        {
          if i > 0 {
            assert messages[i] == messages[1..][i - 1];
          }
        }
      }
    }
  }

  /** A request is accepted exactly when it has messages, every one of them has a known role and
      some text, and at least one is a turn. */
  lemma AcceptedIff(req: Value)
    ensures Translated(req).Ok? <==>
              && Messages(req).Some?
              && (forall i | 0 <= i < |Messages(req).value| ::
                    && HasRole(Messages(req).value[i], {"system", "developer", "user", "assistant"})
                    && ContentText(Json.Get(Messages(req).value[i], "content")).Some?)
              && (exists i :: 0 <= i < |Messages(req).value| && HasRole(Messages(req).value[i], {"user", "assistant"}))
  {
    if Messages(req).Some? {
      NoError(Messages(req).value);
      TurnsExist(Messages(req).value);
      forall i | 0 <= i < |Messages(req).value| {
        ErrorIff(Messages(req).value[i]);
      }
    }
  }

  /** What a rejected request is told: about the first message at fault, whose role is looked for first,
      then its text, and only then whether the role is known. */
  lemma RejectedIs(req: Value, messages: seq<Value>, i: nat)
    requires Messages(req) == Some(messages) && i <= |messages|
    requires forall j | 0 <= j < i :: MessageError(messages[j]).None?
    ensures i < |messages| && Json.GetStr(messages[i], "role").None? ==>
              Translated(req) == Err("message missing 'role'")
    ensures i < |messages| && Json.GetStr(messages[i], "role").Some? ==>
              var role, content := Json.GetStr(messages[i], "role").value, Json.Get(messages[i], "content");
              && (ContentText(content).None? ==>
                    Translated(req) == Err(if content.Some? && content.value.Arr? then "message content has no text parts"
                                           else "message missing 'content'"))
              && (ContentText(content).Some? && role !in {"system", "developer", "user", "assistant"} ==>
                    Translated(req) == Err("unsupported role '" + role + "'"))
    ensures i == |messages| && (forall j | 0 <= j < i :: !HasRole(messages[j], {"user", "assistant"})) ==>
              Translated(req) == Err("no user or assistant messages")
  {
    if i < |messages| {
      if MessageError(messages[i]).Some? {
        FirstErrorAt(messages, i);
      }
    } else {
      NoError(messages);
      TurnsExist(messages);
    }
  }

  lemma NoMessagesIs(req: Value)
    requires Messages(req).None?
    ensures Translated(req) == Err("missing 'messages' array")
  {
  }

  lemma ErrorIff(m: Value)
    ensures MessageError(m).None? <==>
              && HasRole(m, {"system", "developer", "user", "assistant"})
              && ContentText(Json.Get(m, "content")).Some?
  {
  }

  /** One message more: a user or assistant turn is appended with its role and text, a system or
      developer text joins the prompt, and neither list takes the other's. */
  lemma SplitIs(messages: seq<Value>, m: Value, role: string, text: string)
    requires Json.GetStr(m, "role") == Some(role) && ContentText(Json.Get(m, "content")) == Some(text)
    ensures var turns, systems := TurnsOf(messages + [m]), SystemsOf(messages + [m]);
            && (role in {"user", "assistant"} ==>
                  && |turns| == |TurnsOf(messages)| + 1 && TurnsOf(messages) <= turns
                  && Json.GetStr(turns[|turns| - 1], "role") == Some(role)
                  && Json.GetStr(turns[|turns| - 1], "content") == Some(text))
            && (role !in {"user", "assistant"} ==> turns == TurnsOf(messages))
            && systems == SystemsOf(messages) + (if role in {"system", "developer"} then [text] else [])
  {
    SplitAppend(messages, m);
    SplitOne(m);
    Plus(TurnsOf(messages));
  }

  predicate IsCount(v: Option<Value>) {
    v.Some? && v.value.Int? && 0 <= v.value.n < 0x1_0000_0000_0000_0000
  }

  /** What a translated request consists of. The model is left to routing; `max_tokens` wins over
      `max_completion_tokens` even if it is unusable, and 4096 stands in for an unusable or absent one;
      sampling fields, stop sequences and streaming carry over; everything else is dropped. */
  lemma AssembledIs(req: Value, systems: seq<string>, turns: seq<Value>)
    ensures var out := Assembled(req, systems, turns);
            && Json.GetStr(out, "model") == Some("") && Json.Get(out, "messages") == Some(Json.Arr(turns))
            && LimitCarried(req, out)
            && Json.Get(out, "system") == (if systems == [] then None else Some(Json.Str(Join(systems, "\n\n"))))
            && Json.Get(out, "temperature") == Json.Get(req, "temperature")
            && Json.Get(out, "top_p") == Json.Get(req, "top_p")
            && StopCarried(req, out)
            && Json.Get(out, "stream") == (if Json.Get(req, "stream") == Some(Json.Bool(true)) then Some(Json.Bool(true)) else None)
            && out.Obj?
            && out.fields.Keys <= {"model", "max_tokens", "messages", "system", "temperature", "top_p", "stop_sequences", "stream"}
  {
    AssembledHead(req, systems, turns);
    AssembledTail(req, systems, turns);
  }

  lemma AssembledHead(req: Value, systems: seq<string>, turns: seq<Value>)
    ensures Touches(WithPrompt(req, systems, turns), Assembled(req, systems, turns),
                    {"temperature", "top_p", "stop_sequences", "stream"})
    ensures var out := Assembled(req, systems, turns);
            && Json.GetStr(out, "model") == Some("") && Json.Get(out, "messages") == Some(Json.Arr(turns))
            && LimitCarried(req, out)
            && Json.Get(out, "system") == (if systems == [] then None else Some(Json.Str(Join(systems, "\n\n"))))
  {
    var o1 := WithPrompt(req, systems, turns);
    var o2 := WithSampling(o1, req);
    PromptIs(req, systems, turns);
    SamplingIs(o1, req);
    EndIs(o2, req);
    TouchesBoth(o1, o2, WithStream(WithStops(o2, req), req), {"temperature", "top_p"}, {"stop_sequences", "stream"});
  }

  lemma AssembledTail(req: Value, systems: seq<string>, turns: seq<Value>)
    ensures var out := Assembled(req, systems, turns);
            && Json.Get(out, "temperature") == Json.Get(req, "temperature")
            && Json.Get(out, "top_p") == Json.Get(req, "top_p")
            && StopCarried(req, out)
            && Json.Get(out, "stream") == (if Json.Get(req, "stream") == Some(Json.Bool(true)) then Some(Json.Bool(true)) else None)
  {
    var o1 := WithPrompt(req, systems, turns);
    PromptIs(req, systems, turns);
    SamplingIs(o1, req);
    EndIs(WithSampling(o1, req), req);
  }

  lemma EndIs(out: Value, req: Value)
    requires out.Obj? && Json.Get(out, "stop_sequences").None? && Json.Get(out, "stream").None?
    ensures var r := WithStream(WithStops(out, req), req);
            && StopCarried(req, r) && Touches(out, r, {"stop_sequences", "stream"})
            && Json.Get(r, "stream") == (if Json.Get(req, "stream") == Some(Json.Bool(true)) then Some(Json.Bool(true)) else None)
  {
    var o := WithStops(out, req);
    StopsAre(out, req);
    StreamIs(o, req);
    TouchesBoth(out, o, WithStream(o, req), {"stop_sequences"}, {"stream"});
  }

  lemma PromptIs(req: Value, systems: seq<string>, turns: seq<Value>)
    ensures var out := WithPrompt(req, systems, turns);
            && Json.GetStr(out, "model") == Some("") && LimitCarried(req, out)
            && Json.Get(out, "messages") == Some(Json.Arr(turns))
            && Json.Get(out, "system") == (if systems == [] then None else Some(Json.Str(Join(systems, "\n\n"))))
            && out.fields.Keys <= {"model", "max_tokens", "messages", "system"}
  {
  }

  /** Only these fields are touched. */
  ghost predicate Touches(was: Value, now: Value, names: set<string>) {
    && was.Obj? && now.Obj? && now.fields.Keys <= was.fields.Keys + names
    && forall f | f !in names :: Json.Get(now, f) == Json.Get(was, f)
  }

  lemma TouchesBoth(a: Value, b: Value, c: Value, m: set<string>, n: set<string>)
    requires Touches(a, b, m) && Touches(b, c, n)
    ensures Touches(a, c, m + n)
  {
  }

  lemma SamplingIs(out: Value, req: Value)
    requires out.Obj? && Json.Get(out, "temperature").None? && Json.Get(out, "top_p").None?
    ensures var r := WithSampling(out, req);
            && Json.Get(r, "temperature") == Json.Get(req, "temperature") && Json.Get(r, "top_p") == Json.Get(req, "top_p")
            && Touches(out, r, {"temperature", "top_p"})
  {
  }

  lemma StopsAre(out: Value, req: Value)
    requires out.Obj? && Json.Get(out, "stop_sequences").None?
    ensures StopCarried(req, WithStops(out, req)) && Touches(out, WithStops(out, req), {"stop_sequences"})
  {
  }

  lemma StreamIs(out: Value, req: Value)
    requires out.Obj? && Json.Get(out, "stream").None?
    ensures var r := WithStream(out, req);
            && Json.Get(r, "stream") == (if Json.Get(req, "stream") == Some(Json.Bool(true)) then Some(Json.Bool(true)) else None)
            && Touches(out, r, {"stream"})
  {
  }

  predicate LimitCarried(req: Value, out: Value) {
    var limit, alias := Json.Get(req, "max_tokens"), Json.Get(req, "max_completion_tokens");
    Json.Get(out, "max_tokens")
    == if IsCount(limit) then limit
       else if limit.None? && IsCount(alias) then alias
       else Some(Json.Int(4096))
  }

  predicate StopCarried(req: Value, out: Value) {
    match Json.Get(req, "stop")
    case Some(Str(s)) => Json.Get(out, "stop_sequences") == Some(Json.Arr([Json.Str(s)]))
    case Some(Arr(a)) => Json.Get(out, "stop_sequences") == Some(Json.Arr(a))
    case _ => Json.Get(out, "stop_sequences") == None
  }

  /** The turns arrive as the messages; nothing copied from the request can replace them. */
  lemma AssembledMessages(req: Value, systems: seq<string>, turns: seq<Value>)
    ensures Messages(Assembled(req, systems, turns)) == Some(turns)
  {
    AssembledIs(req, systems, turns);
  }

  lemma {:induction false} FirstUserTurn(messages: seq<Value>)
    requires forall j | 0 <= j < |messages| :: MessageError(messages[j]).None?
    ensures FirstUser(messages).Some? <==> FirstUser(TurnsOf(messages)).Some?
    ensures FirstUser(messages).Some? ==>
              ContentText(Json.Get(FirstUser(TurnsOf(messages)).value, "content"))
              == ContentText(Json.Get(FirstUser(messages).value, "content"))
  {
    if messages != [] {
      FirstUserTurn(messages[1..]);
      ErrorIff(messages[0]);
      var role := Json.GetStr(messages[0], "role").value;
      var turns := TurnsOf(messages);
      if IsTurnRole(role) {
        assert turns[1..] == TurnsOf(messages[1..]);
        assert Json.GetStr(turns[0], "role") == Some(role);
      } else {
        Plus(TurnsOf(messages[1..]));
      }
    }
  }

  /** Both front doors name a conversation alike: the translated request has the key the same
      messages would have had in the Anthropic dialect, string or block form. */
  lemma TranslationKeepsKey(hash: Hash, req: Value)
    requires Translated(req).Ok?
    ensures ConversationKey(hash, Translated(req).value) == ConversationKey(hash, req)
  {
    var messages := Messages(req).value;
    NoError(messages);
    FirstUserTurn(messages);
    AssembledMessages(req, SystemsOf(messages), TurnsOf(messages));
  }
}
