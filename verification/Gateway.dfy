/** The `/v1/messages` entry: routing first, the cascade only for default routes
    (src/proxy.rs, messages_proxy). */
module Gateway {
  import opened Wrappers
  import opened Budget
  import opened Orchestrator
  import opened Protocol
  import opened Payload
  import opened Proxy
  import Routing
  import Json
  import opened ModelCommand
  import LA = LocalAttempt
  import Stream

  /** A request whose route a human chose: by command, by an id with a configured provider in front, or
      by the name of a provider. */
  ghost predicate Chosen(routes: Routing.RouteConfig, payload: Json.Value) {
    || Parsed(payload).0.Some?
    || Routing.NamesBoth(routes, Routing.Asked(routes, payload))
    || Routing.NamesProvider(routes, Routing.Asked(routes, payload))
  }

  /** A request enters the protocol as an explicit one if a human chose its route, or if no
      orchestrator is configured; such a request is counted, forwarded and nothing else. Any other one
      is cascaded and leaves the static counter alone. */
  method MessagesProxy(routes: Routing.RouteConfig, setup: Setup, orch: Orchestrator, enabled: bool,
                       counters: Counters, body: Body, hash: Hash,
                       parse: Stream.JsonParser, parseBody: LA.BodyParser, reply: LA.Reply,
                       now: Instant, epochSecs: nat)
    returns (answer: Option<Answer>)
    requires orch.Valid() && orch.cfg == setup.cfg
    modifies orch, counters, body
    ensures orch.Valid()
    ensures answer.None? <==> !Json.Indexable(old(body.json))
    ensures answer.Some? && (Chosen(routes, old(body.json)) || !enabled) ==>
              var (route, payload) := Routing.Resolved(routes, old(body.json));
              && route.Routed? && answer.value == Sent(route.provider, payload)
              && WasStatic(old(Snapshot(orch, counters)), Snapshot(orch, counters))
              && Snapshot(orch, counters)
              == Finish(setup, now, old(Snapshot(orch, counters)),
                        NewRequest(old(Snapshot(orch, counters)), true, ConversationKey(hash, payload)),
                        Env(ResultOf(LA.OutcomeOf(parse, parseBody, setup.cfg.sentinel, reply)), epochSecs)).0
    ensures answer.Some? && !Chosen(routes, old(body.json)) && enabled ==>
              var payload := Routing.Resolved(routes, old(body.json)).1;
              && payload.Obj?
              && CascadeRan(setup, old(Snapshot(orch, counters)), Snapshot(orch, counters), hash, payload,
                            LA.OutcomeOf(parse, parseBody, setup.cfg.sentinel, reply), now, epochSecs, answer.value)
  {
    if Json.Indexable(body.json) {
      Routing.RouteIs(routes, body.json);
    }
    var route := Routing.ResolveRoute(routes, body);
    if route.IndexPanic? {
      return None;
    }
    if route.source == Routing.Default && enabled {
      var result := DefaultRoute(setup, orch, counters, hash, parse, parseBody, body.json, reply, now, epochSecs);
      return Some(result);
    }
    StaticSteps(setup, now, Snapshot(orch, counters), ConversationKey(hash, body.json),
                Env(ResultOf(LA.OutcomeOf(parse, parseBody, setup.cfg.sentinel, reply)), epochSecs));
    counters.IncStatic();
    return Some(Sent(route.provider, body.json));
  }

  method DefaultRoute(setup: Setup, orch: Orchestrator, counters: Counters, hash: Hash,
                      parse: Stream.JsonParser, parseBody: LA.BodyParser, payload: Json.Value, reply: LA.Reply,
                      now: Instant, epochSecs: nat)
    returns (answer: Answer)
    requires orch.Valid() && orch.cfg == setup.cfg && payload.Obj?
    modifies orch, counters
    ensures orch.Valid()
    ensures CascadeRan(setup, old(Snapshot(orch, counters)), Snapshot(orch, counters), hash, payload,
                       LA.OutcomeOf(parse, parseBody, setup.cfg.sentinel, reply), now, epochSecs, answer)
  {
    ghost var before := Snapshot(orch, counters);
    var attempt, result := Cascade(setup, orch, counters, hash, parse, parseBody, payload, reply, now, epochSecs);
    CascadeKeepsStatic(setup, before, Snapshot(orch, counters), ConversationKey(hash, payload),
                       LA.OutcomeOf(parse, parseBody, setup.cfg.sentinel, reply), payload, now, epochSecs, attempt, result);
    return result;
  }

  lemma CascadeKeepsStatic(setup: Setup, before: Shared, after: Shared, key: Option<string>, outcome: LA.LocalOutcome,
                           original: Value, now: Instant, epochSecs: nat, attempt: Option<Value>, answer: Answer)
    requires original.Obj? && WasCascaded(setup, before, after, key, outcome, original, now, epochSecs, attempt, answer)
    ensures after.metrics.tierStatic == before.metrics.tierStatic
  {
  }

  /** One count in the static tier, and nothing else. */
  predicate WasStatic(before: Shared, after: Shared) {
    after == before.(metrics := before.metrics.(tierStatic := before.metrics.tierStatic + 1))
  }

  /** The cascade ran on this payload, and the protocol agrees. */
  predicate CascadeRan(setup: Setup, before: Shared, after: Shared, hash: Hash, payload: Value, outcome: LA.LocalOutcome,
                       now: Instant, epochSecs: nat, answer: Answer)
    requires payload.Obj?
  {
    var key := ConversationKey(hash, payload);
    var (end, r) := Finish(setup, now, before, NewRequest(before, false, key), Env(ResultOf(outcome), epochSecs));
    var attempt := if ToLocal in r.dispatches
                   then Some(AttemptPayload(payload, setup.localModel, setup.cfg.sentinel)) else None;
    && after == end && Delivers(setup, payload, outcome, r, answer)
    && WasCascaded(setup, before, after, key, outcome, payload, now, epochSecs, attempt, answer)
    && after.metrics.tierStatic == before.metrics.tierStatic
  }

  lemma StaticSteps(setup: Setup, now: Instant, sh: Shared, key: Option<string>, env: Env)
    ensures Finish(setup, now, sh, NewRequest(sh, true, key), env).0
         == sh.(metrics := sh.metrics.(tierStatic := sh.metrics.tierStatic + 1))
  {
    var r0 := NewRequest(sh, true, key);
    var sh' := sh.(metrics := sh.metrics.(tierStatic := sh.metrics.tierStatic + 1));
    var r1 := r0.(pc := SendStatic);
    var r2 := r1.(dispatches := r1.dispatches + [ToStatic], pc := Finished);
    assert StepRequest(setup, now, 0, sh, r0, env) == (sh', r1);
    assert Finish(setup, now, sh, r0, env) == Finish(setup, now, sh', r1, env);
    assert Finish(setup, now, sh', r1, env) == Finish(setup, now, sh', r2, env) == (sh', r2);
  }
}
