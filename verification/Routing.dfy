/** Choosing provider and model for a request (src/proxy.rs, resolve_route). */
module Routing {
  import opened Wrappers
  import opened Text
  import opened Payload
  import opened ModelCommand
  import Json

  /** The default route, and every configured provider with its default model if it has one. */
  datatype RouteConfig = RouteConfig(
    defaultProvider: string,
    defaultModel: string,
    providers: map<string, Option<string>>)

  datatype Source = Default | Explicit

  /** The route, or the panic of writing a field into something that is not an object. */
  datatype Route = Routed(provider: string, model: string, source: Source) | IndexPanic

  /** The route a model id selects when no command does. */
  function ModelRoute(cfg: RouteConfig, model: string): Route {
    match SplitOnce(model, '/')
    case Some(parts) =>
      if parts.1 != "" && parts.0 in cfg.providers then Routed(parts.0, parts.1, Explicit)
      else Routed(cfg.defaultProvider, model, Default)
    case None =>
      if model in cfg.providers && cfg.providers[model].Some? then Routed(model, cfg.providers[model].value, Explicit)
      else Routed(cfg.defaultProvider, model, Default)
  }

  function Resolved(cfg: RouteConfig, payload: Value): (Route, Value) {
    if !Json.Indexable(payload) then (IndexPanic, payload)
    else
      var (cmd, left) := Parsed(payload);
      var route := match cmd
                   case Some(c) => Routed(c.provider, c.model, Explicit)
                   case None => ModelRoute(cfg, Json.GetStr(payload, "model").GetOr(cfg.defaultModel));
      if route.Routed? && Json.Indexable(left) then (route, Json.Set(left, "model", Json.Str(route.model)))
      else (IndexPanic, payload)
  }

  method ResolveRoute(cfg: RouteConfig, body: Body) returns (route: Route)
    modifies body
    ensures (route, body.json) == Resolved(cfg, old(body.json))
    ensures route.IndexPanic? <==> !Json.Indexable(old(body.json))
    ensures route.Routed? ==> Json.GetStr(body.json, "model") == Some(route.model)
  {
    ghost var payload := body.json;
    var provider := cfg.defaultProvider;
    var model := Json.GetStr(body.json, "model").GetOr(cfg.defaultModel);
    var source := Default;
    var cmd := ParseAndStrip(body);
    ParsedStaysIndexable(payload);
    if cmd.Some? {
      provider, model, source := cmd.value.provider, cmd.value.model, Explicit;
    } else {
      var parts := SplitOnce(model, '/');
      if parts.Some? {
        if parts.value.1 != "" && parts.value.0 in cfg.providers {
          provider, model, source := parts.value.0, parts.value.1, Explicit;
        }
      } else if model in cfg.providers && cfg.providers[model].Some? {
        provider, model, source := model, cfg.providers[model].value, Explicit;
      }
    }
    if !Json.Indexable(body.json) {
      return IndexPanic;
    }
    body.json := Json.Set(body.json, "model", Json.Str(model));
    return Routed(provider, model, source);
  }

  lemma ParsedStaysIndexable(payload: Value)
    ensures Json.Indexable(Parsed(payload).1) <==> Json.Indexable(payload)
    ensures !Json.Indexable(payload) ==> Parsed(payload) == (None, payload)
  {
  }

  /** The model id asked for, or the configured one. */
  function Asked(cfg: RouteConfig, payload: Value): string {
    Json.GetStr(payload, "model").GetOr(cfg.defaultModel)
  }

  /** The id names a configured provider in front of its first slash, and a model behind it. */
  ghost predicate NamesBoth(cfg: RouteConfig, id: string) {
    exists p, m :: id == p + ("/" + m) && '/' !in p && p in cfg.providers && m != ""
  }

  /** The id is a configured provider with a model of its own. */
  predicate NamesProvider(cfg: RouteConfig, id: string) {
    '/' !in id && id in cfg.providers && cfg.providers[id].Some?
  }

  lemma SplitAtSlash(p: string, m: string)
    requires '/' !in p
    ensures SplitOnce(p + ("/" + m), '/') == Some((p, m))
  {
    Assoc(p, "/", m);
    SplitIdentifier(p, m);
  }

  lemma NamedRoute(cfg: RouteConfig, p: string, m: string)
    requires '/' !in p && p in cfg.providers && m != ""
    ensures ModelRoute(cfg, p + ("/" + m)) == Routed(p, m, Explicit)
  {
    SplitAtSlash(p, m);
  }

  lemma NoSlashRoute(cfg: RouteConfig, id: string)
    requires '/' !in id
    ensures ModelRoute(cfg, id)
         == if id in cfg.providers && cfg.providers[id].Some? then Routed(id, cfg.providers[id].value, Explicit)
            else Routed(cfg.defaultProvider, id, Default)
    ensures !NamesBoth(cfg, id)
  {
    IndexOfAbsent(id, '/');
    forall p: string, m: string
      ensures id != p + ("/" + m)
    {
      assert (p + ("/" + m))[|p|] == '/';
    }
  }

  lemma UnnamedRoute(cfg: RouteConfig, id: string)
    requires '/' in id && !NamesBoth(cfg, id)
    ensures ModelRoute(cfg, id) == Routed(cfg.defaultProvider, id, Default)
  {
    IndexOfAbsent(id, '/');
    var i := IndexOf(id, '/');
    assert id == id[..i] + ("/" + id[i + 1..]);
  }

  lemma ModelRouteIs(cfg: RouteConfig, id: string)
    ensures forall p, m :: id == p + ("/" + m) && '/' !in p && p in cfg.providers && m != "" ==>
              ModelRoute(cfg, id) == Routed(p, m, Explicit)
    ensures NamesProvider(cfg, id) ==> ModelRoute(cfg, id) == Routed(id, cfg.providers[id].value, Explicit)
    ensures !NamesBoth(cfg, id) && !NamesProvider(cfg, id) ==> ModelRoute(cfg, id) == Routed(cfg.defaultProvider, id, Default)
  {
    forall p, m | id == p + ("/" + m) && '/' !in p && p in cfg.providers && m != ""
      ensures ModelRoute(cfg, id) == Routed(p, m, Explicit)
    {
      NamedRoute(cfg, p, m);
    }
    if '/' !in id {
      NoSlashRoute(cfg, id);
    } else if !NamesBoth(cfg, id) {
      UnnamedRoute(cfg, id);
    }
  }

  /** Where a request goes. A command wins; then an id that names provider and model; then the bare name
      of a provider with a model of its own. Anything else, `x-ai/grok` with no such provider for one,
      passes through whole to the default provider. */
  lemma RouteIs(cfg: RouteConfig, payload: Value)
    requires Json.Indexable(payload)
    ensures var route, cmd, id := Resolved(cfg, payload).0, Parsed(payload).0, Asked(cfg, payload);
            && route.Routed?
            && (route.source == Explicit <==> cmd.Some? || NamesBoth(cfg, id) || NamesProvider(cfg, id))
            && (cmd.Some? ==> route == Routed(cmd.value.provider, cmd.value.model, Explicit))
            && (cmd.None? ==> forall p, m :: id == p + ("/" + m) && '/' !in p && p in cfg.providers && m != "" ==>
                  route == Routed(p, m, Explicit))
            && (cmd.None? && NamesProvider(cfg, id) ==> route == Routed(id, cfg.providers[id].value, Explicit))
            && (cmd.None? && !NamesBoth(cfg, id) && !NamesProvider(cfg, id) ==>
                  route == Routed(cfg.defaultProvider, id, Default))
  {
    ParsedStaysIndexable(payload);
    var id := Asked(cfg, payload);
    ModelRouteIs(cfg, id);
    if NamesBoth(cfg, id) {
      var p, m :| id == p + ("/" + m) && '/' !in p && p in cfg.providers && m != "";
      assert ModelRoute(cfg, id) == Routed(p, m, Explicit);
    }
  }

  /** What routing does to the payload: the model is written, a command is stripped from the messages,
      and no other field is touched. */
  lemma RoutedPayloadIs(cfg: RouteConfig, payload: Value, field: string)
    requires Json.Indexable(payload)
    ensures var (route, left) := Resolved(cfg, payload);
            && route.Routed? && left.Obj? && Json.GetStr(left, "model") == Some(route.model)
            && (field != "model" && field != "messages" ==> Json.Get(left, field) == Json.Get(payload, field))
            && (Parsed(payload).0.None? ==> Json.Get(left, "messages") == Json.Get(payload, "messages"))
            && (Parsed(payload).0.Some? ==>
                  && Messages(payload).Some? && FindCommand(Messages(payload).value).Some?
                  && var (i, cmd, target) := FindCommand(Messages(payload).value).value;
                     && i < |Messages(payload).value| && Parsed(payload).0 == Some(cmd)
                     && Messages(left) == Some(StrippedMessages(Messages(payload).value, i, target)))
  {
    ParsedStaysIndexable(payload);
  }

  /** For instance an array, which is well-formed JSON. */
  lemma ArrayPanics(cfg: RouteConfig, items: seq<Value>)
    ensures Resolved(cfg, Json.Arr(items)) == (IndexPanic, Json.Arr(items))
    ensures Resolved(cfg, Json.Arr([])).0 != Resolved(cfg, Json.Null).0
  {
  }

  /** A user message with this text. */
  function UserText(user: Value, text: string): Value
    requires user.Obj?
  {
    Json.Set(user, "content", Json.Str(text))
  }

  function Request(fields: map<string, Value>, model: Value, messages: seq<Value>): Value {
    Json.Obj(fields["model" := model]["messages" := Json.Arr(messages)])
  }

  lemma RequestFields(fields: map<string, Value>, model: Value, messages: seq<Value>)
    ensures Json.Get(Request(fields, model, messages), "model") == Some(model)
    ensures Messages(Request(fields, model, messages)) == Some(messages)
  {
  }

  lemma MessageHit(user: Value, text: string, cmd: Command, r: string)
    requires user.Obj? && Json.GetStr(user, "role") == Some("user")
    requires ExtractCommand(text) == Some((cmd, NonEmpty(r)))
    ensures MessageCommand(UserText(user, text)) == Some((cmd, Content(NonEmpty(r))))
    ensures r != "" ==> StrippedMessage(UserText(user, text), Content(NonEmpty(r))) == Some(UserText(user, r))
  {
    Json.SetGet(user, "content", Json.Str(text), "role");
    Json.SetTwice(user, "content", Json.Str(text), Json.Str(r));
  }

  /** A user message whose content is an array with this text in the block at `|lead|`. */
  function UserBlocks(user: Value, lead: seq<Value>, block: Value, text: string, rest: seq<Value>): Value
    requires user.Obj? && block.Obj?
  {
    Json.Set(user, "content", Json.Arr(lead + [Json.Set(block, "text", Json.Str(text))] + rest))
  }

  lemma {:induction false} BlockHit(lead: seq<Value>, block: Value, rest: seq<Value>)
    requires BlockCommand(lead).None?
    requires Json.GetStr(block, "type") == Some("text") && Json.GetStr(block, "text").Some?
    requires ExtractCommand(Json.GetStr(block, "text").value).Some?
    ensures var found := ExtractCommand(Json.GetStr(block, "text").value).value;
            BlockCommand(lead + [block] + rest) == Some((|lead|, found.0, found.1))
  {
    var all := lead + [block] + rest;
    if lead == [] {
      assert all[0] == block;
    } else {
      assert all[0] == lead[0] && all[1..] == lead[1..] + [block] + rest;
      BlockHit(lead[1..], block, rest);
    }
  }

  lemma BlocksHit(user: Value, lead: seq<Value>, block: Value, rest: seq<Value>, text: string, cmd: Command, r: string)
    requires user.Obj? && Json.GetStr(user, "role") == Some("user")
    requires block.Obj? && Json.GetStr(block, "type") == Some("text")
    requires BlockCommand(lead).None?
    requires ExtractCommand(text) == Some((cmd, NonEmpty(r)))
    ensures MessageCommand(UserBlocks(user, lead, block, text, rest)) == Some((cmd, Block(|lead|, NonEmpty(r))))
  {
    var carrying := Json.Set(block, "text", Json.Str(text));
    Json.SetGet(block, "text", Json.Str(text), "type");
    BlockHit(lead, carrying, rest);
    Json.SetGet(user, "content", Json.Arr(lead + [carrying] + rest), "role");
  }

  lemma BlocksStripped(user: Value, lead: seq<Value>, block: Value, rest: seq<Value>, text: string, r: string)
    requires user.Obj? && block.Obj? && r != ""
    ensures StrippedMessage(UserBlocks(user, lead, block, text, rest), Block(|lead|, NonEmpty(r)))
         == Some(UserBlocks(user, lead, block, r, rest))
  {
    var carrying, cleared := Json.Set(block, "text", Json.Str(text)), Json.Set(block, "text", Json.Str(r));
    var blocks, left := lead + [carrying] + rest, lead + [cleared] + rest;
    Replaced(lead, carrying, cleared, rest);
    Json.SetTwice(block, "text", Json.Str(text), Json.Str(r));
    Json.SetTwice(user, "content", Json.Arr(blocks), Json.Arr(left));
    Json.SetGet(user, "content", Json.Arr(blocks), "content");
  }

  lemma Replaced<T>(a: seq<T>, x: T, y: T, b: seq<T>)
    ensures (a + [x] + b)[|a|] == x
    ensures (a + [x] + b)[|a| := y] == a + [y] + b
  {
  }

  lemma CommandIsFound(before: seq<Value>, typed: Value, plain: Value, after: seq<Value>, cmd: Command, target: Target)
    requires MessageCommand(typed) == Some((cmd, target))
    requires FindCommand(before + [plain] + after).None?
    ensures FindCommand(before + [typed] + after) == Some((|before|, cmd, target))
    ensures StrippedMessage(typed, target) == Some(plain) ==>
              StrippedMessages(before + [typed] + after, |before|, target) == before + [plain] + after
  {
    var with, without := before + [typed] + after, before + [plain] + after;
    CommandFound(without);
    forall j | 0 <= j < |before|
      ensures MessageCommand(with[j]).None?
    {
      assert with[j] == without[j];
    }
    Replaced(before, typed, plain, after);
    FindCommandAt(with, |before|);
  }

  lemma ViaText(cfg: RouteConfig, fields: map<string, Value>, model: Value, messages: seq<Value>)
    requires FindCommand(messages).Some?
    ensures var (i, cmd, target) := FindCommand(messages).value;
            var request := Request(fields, model, messages);
            && i < |messages|
            && Resolved(cfg, request)
            == (Routed(cmd.provider, cmd.model, Explicit),
                Json.Set(Json.Set(request, "messages", Json.Arr(StrippedMessages(messages, i, target))),
                         "model", Json.Str(cmd.model)))
  {
    ParsedRequest(fields, model, messages);
    var (i, cmd, target) := FindCommand(messages).value;
    var left := Json.Set(Request(fields, model, messages), "messages", Json.Arr(StrippedMessages(messages, i, target)));
    assert Json.Indexable(left);
  }

  lemma ParsedRequest(fields: map<string, Value>, model: Value, messages: seq<Value>)
    requires FindCommand(messages).Some?
    ensures var (i, cmd, target) := FindCommand(messages).value;
            var request := Request(fields, model, messages);
            && i < |messages|
            && Parsed(request)
            == (Some(cmd), Json.Set(request, "messages", Json.Arr(StrippedMessages(messages, i, target))))
  {
    CommandFound(messages);
    RequestFields(fields, model, messages);
  }

  lemma ViaField(cfg: RouteConfig, fields: map<string, Value>, messages: seq<Value>, p: string, m: string)
    requires p in cfg.providers && '/' !in p && m != ""
    requires FindCommand(messages).None?
    ensures var request := Request(fields, Json.Str(p + "/" + m), messages);
            Resolved(cfg, request) == (Routed(p, m, Explicit), Json.Set(request, "model", Json.Str(m)))
  {
    RequestFields(fields, Json.Str(p + "/" + m), messages);
    SplitIdentifier(p, m);
  }

  /** What both forms of the agreement come down to. */
  lemma RoutesAgree(cfg: RouteConfig, fields: map<string, Value>, otherModel: Value, before: seq<Value>,
                    typed: Value, plain: Value, after: seq<Value>, p: string, m: string, target: Target)
    requires p in cfg.providers && '/' !in p && m != ""
    requires MessageCommand(typed) == Some((Command(p, m), target))
    requires FindCommand(before + [plain] + after).None?
    ensures Agree(cfg, fields, otherModel, before, typed, plain, after, p, m, StrippedMessage(typed, target) == Some(plain))
  {
    CommandIsFound(before, typed, plain, after, Command(p, m), target);
    ViaText(cfg, fields, otherModel, before + [typed] + after);
    ViaField(cfg, fields, before + [plain] + after, p, m);
    SameAfterwards(fields, otherModel, Json.Str(p + "/" + m), before + [typed] + after, before + [plain] + after, Json.Str(m));
  }

  /** The request that types the command and the one that names `p/m` in its model field take the
      same explicit route, and where `same` holds they are one request from there on. */
  predicate Agree(cfg: RouteConfig, fields: map<string, Value>, otherModel: Value, before: seq<Value>,
                  typed: Value, plain: Value, after: seq<Value>, p: string, m: string, same: bool)
  {
    var viaText := Resolved(cfg, Request(fields, otherModel, before + [typed] + after));
    var viaField := Resolved(cfg, Request(fields, Json.Str(p + "/" + m), before + [plain] + after));
    && viaText.0 == viaField.0 == Routed(p, m, Explicit)
    && Json.GetStr(viaText.1, "model") == Json.GetStr(viaField.1, "model") == Some(m)
    && (same ==> viaText.1 == viaField.1)
  }

  /** Two ways of choosing one route agree. Typing `/model p/m` in front of a message and sending
      `p/m` as the model id select the same provider and model, explicitly; and if the message says
      anything besides, the two requests are the same request from there on. */
  lemma CommandAndFieldAgree(cfg: RouteConfig, fields: map<string, Value>, otherModel: Value, user: Value,
                             before: seq<Value>, after: seq<Value>,
                             w: string, p: string, m: string, gap: string, r: string, trail: string)
    requires p in cfg.providers
    requires AllWhitespace(w) && AllWhitespace(gap) && AllWhitespace(trail) && (gap == "" ==> r == "")
    requires p != "" && NoWhitespace(p) && '/' !in p
    requires m != "" && NoWhitespace(m)
    requires Trimmed(r) && !Occurs(COMMAND + (p + "/" + m), r)
    requires user.Obj? && Json.GetStr(user, "role") == Some("user")
    requires FindCommand(before + [UserText(user, r)] + after).None?
    ensures var text := w + (COMMAND + (p + "/" + m) + (gap + (r + trail)));
            Agree(cfg, fields, otherModel, before, UserText(user, text), UserText(user, r), after, p, m, r != "")
  {
    var text := w + (COMMAND + (p + "/" + m) + (gap + (r + trail)));
    CommandRoundTrip(w, p, m, gap, r, trail);
    MessageHit(user, text, Command(p, m), r);
    RoutesAgree(cfg, fields, otherModel, before, UserText(user, text), UserText(user, r), after, p, m, Content(NonEmpty(r)));
  }

  /** The same when the command is typed into a text block of an array, behind blocks without one. */
  lemma BlockCommandAndFieldAgree(cfg: RouteConfig, fields: map<string, Value>, otherModel: Value, user: Value,
                                  before: seq<Value>, after: seq<Value>,
                                  lead: seq<Value>, block: Value, rest: seq<Value>,
                                  w: string, p: string, m: string, gap: string, r: string, trail: string)
    requires p in cfg.providers
    requires AllWhitespace(w) && AllWhitespace(gap) && AllWhitespace(trail) && (gap == "" ==> r == "")
    requires p != "" && NoWhitespace(p) && '/' !in p
    requires m != "" && NoWhitespace(m)
    requires Trimmed(r) && !Occurs(COMMAND + (p + "/" + m), r)
    requires user.Obj? && Json.GetStr(user, "role") == Some("user")
    requires block.Obj? && Json.GetStr(block, "type") == Some("text") && BlockCommand(lead).None?
    requires FindCommand(before + [UserBlocks(user, lead, block, r, rest)] + after).None?
    ensures var text := w + (COMMAND + (p + "/" + m) + (gap + (r + trail)));
            Agree(cfg, fields, otherModel, before, UserBlocks(user, lead, block, text, rest),
                  UserBlocks(user, lead, block, r, rest), after, p, m, r != "")
  {
    var text := w + (COMMAND + (p + "/" + m) + (gap + (r + trail)));
    CommandRoundTrip(w, p, m, gap, r, trail);
    BlocksHit(user, lead, block, rest, text, Command(p, m), r);
    if r != "" {
      BlocksStripped(user, lead, block, rest, text, r);
    }
    RoutesAgree(cfg, fields, otherModel, before, UserBlocks(user, lead, block, text, rest),
                UserBlocks(user, lead, block, r, rest), after, p, m, Block(|lead|, NonEmpty(r)));
  }

  lemma SameAfterwards(fields: map<string, Value>, model1: Value, model2: Value,
                       messages1: seq<Value>, messages2: seq<Value>, model: Value)
    ensures Json.Set(Json.Set(Request(fields, model1, messages1), "messages", Json.Arr(messages2)), "model", model)
         == Json.Set(Request(fields, model2, messages2), "model", model)
  {
  }

  /** Without a command in the messages the conversation is left as it came, and so is its key. */
  lemma NoCommandKeepsKey(cfg: RouteConfig, hash: Hash, payload: Value)
    requires payload.Obj? && Parsed(payload).0.None?
    ensures Messages(Resolved(cfg, payload).1) == Messages(payload)
    ensures ConversationKey(hash, Resolved(cfg, payload).1) == ConversationKey(hash, payload)
  {
  }
}
