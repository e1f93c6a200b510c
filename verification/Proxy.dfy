/** The cascade as one request executes it when nothing interferes (src/proxy.rs), step for step
    the protocol's. */
module Proxy {
  import opened Wrappers
  import opened Text
  import opened Budget
  import opened History
  import opened Orchestrator
  import opened Protocol
  import opened Payload
  import LA = LocalAttempt
  import Json
  import Stream

  /** What the handler answers with. */
  datatype Answer =
    | LocalBody(body: LA.ByteStream)
    | LocalError(error: LA.LocalOutcome)
    | Sent(provider: string, payload: Value)

  class Counters {
    var m: Metrics

    constructor ()
      ensures m == NO_METRICS
    {
      m := NO_METRICS;
    }

    method IncLocal()
      modifies this
      ensures m == old(m).(tierLocal := old(m).tierLocal + 1)
    {
      m := m.(tierLocal := m.tierLocal + 1);
    }

    method IncStatic()
      modifies this
      ensures m == old(m).(tierStatic := old(m).tierStatic + 1)
    {
      m := m.(tierStatic := m.tierStatic + 1);
    }

    method IncCloud()
      modifies this
      ensures m == old(m).(tierCloud := old(m).tierCloud + 1)
    {
      m := m.(tierCloud := m.tierCloud + 1);
    }

    method IncDenied()
      modifies this
      ensures m == old(m).(budgetDenied := old(m).budgetDenied + 1)
    {
      m := m.(budgetDenied := m.budgetDenied + 1);
    }

    method IncEscalations(t: Trigger)
      modifies this
      ensures m == CountTrigger(old(m), t)
    {
      match t {
        case Sticky => m := m.(bySticky := m.bySticky + 1);
        case Sentinel => m := m.(bySentinel := m.bySentinel + 1);
        case FailMode => m := m.(byFailMode := m.byFailMode + 1);
      }
    }
  }

  function Snapshot(orch: Orchestrator, counters: Counters): Shared
    reads orch, counters
  {
    Shared(orch.sticky, orch.cloudCalls, orch.history, counters.m)
  }

  function Rank(pc: Pc): nat {
    match pc
    case CheckSticky => 12
    case CountLocal => 11
    case Attempt => 10
    case ReadClock => 9
    case Reserving(_) => 8
    case Mark => 7
    case RecordGrant => 6
    case CountEscalation => 5
    case CountCloud => 4
    case SendCloud => 3
    case RecordDenial => 7
    case CountDenied => 6
    case CountFallback => 5
    case SendFallback => 4
    case CountStatic => 2
    case SendStatic => 1
    case Finished => 0
  }

  /** One request stepped to its end with nothing in between. */
  function Finish(setup: Setup, clock: Instant, sh: Shared, rq: Request, env: Env): (Shared, Request)
    decreases Rank(rq.pc)
  {
    if rq.pc == Finished then (sh, rq)
    else
      var (sh', rq') := StepRequest(setup, clock, 0, sh, rq, env);
      Finish(setup, clock, sh', rq', env)
  }

  /** A request on its way to a reservation. */
  function Escalating(key: Option<string>, t: Trigger): Request {
    Request(false, key, t == Sticky, Some(t), Undecided, if t == Sticky then [] else [ToLocal], ReadClock)
  }

  /** Where a finished request last went. */
  predicate AnswersFor(setup: Setup, original: Value, r: Request, answer: Answer)
    requires original.Obj?
  {
    && r.pc == Finished && r.dispatches != []
    && match r.dispatches[|r.dispatches| - 1]
       case ToCloud =>
         answer == Sent(setup.cfg.escalationProvider, CloudPayload(original, setup.cfg.escalationModel))
       case ToFallback =>
         answer == Sent(setup.cfg.localProvider, FallbackPayload(original, setup.localModel))
       case ToLocal => !answer.Sent?
       case ToStatic => false
  }

  // ----- What a caller sees, without the protocol -----

  /** The counters of a granted escalation. */
  function CloudCounted(m: Metrics, trigger: string): Metrics {
    m.(tierCloud := m.tierCloud + 1,
       bySticky := m.bySticky + (if trigger == "sticky" then 1 else 0),
       bySentinel := m.bySentinel + (if trigger == "sentinel" then 1 else 0),
       byFailMode := m.byFailMode + (if trigger == "fail_mode" then 1 else 0))
  }

  /** A granted escalation: the conversation is sticky from now on, one event is recorded, two counters
      go up, and the original request goes to the cloud. */
  predicate WentToCloud(setup: Setup, before: Shared, after: Shared, key: Option<string>, trigger: string,
                        original: Value, epochSecs: nat, answer: Answer)
    requires original.Obj?
  {
    && answer == Sent(setup.cfg.escalationProvider, CloudPayload(original, setup.cfg.escalationModel))
    && after.calls == before.calls
    && after.sticky == (if key.Some? then before.sticky[key.value := Cloud] else before.sticky)
    && after.history == Recorded(before.history, Record(epochSecs, trigger, setup.cfg.escalationProvider,
                                                         setup.cfg.escalationModel, Prefix(key)))
    && after.metrics == CloudCounted(before.metrics, trigger)
  }

  /** A refused one: nothing is marked, the denial is recorded and counted, and the local tier answers
      with a note. */
  predicate WasDenied(setup: Setup, before: Shared, after: Shared, key: Option<string>,
                      original: Value, epochSecs: nat, answer: Answer)
    requires original.Obj?
  {
    && answer == Sent(setup.cfg.localProvider, FallbackPayload(original, setup.localModel))
    && after.calls == before.calls && after.sticky == before.sticky
    && after.history == Recorded(before.history, Record(epochSecs, "budget_denied", setup.cfg.localProvider,
                                                         setup.localModel.GetOr(""), Prefix(key)))
    && after.metrics == before.metrics.(budgetDenied := before.metrics.budgetDenied + 1,
                                        tierLocal := before.metrics.tierLocal + 1)
  }

  predicate WasEscalated(setup: Setup, before: Shared, after: Shared, key: Option<string>, trigger: string,
                         original: Value, now: Instant, epochSecs: nat, answer: Answer)
    requires original.Obj?
  {
    var left := Pruned(before.calls, now);
    if |left| < setup.cfg.maxCloudRequestsPerHour
    then WentToCloud(setup, before.(calls := left + [now]), after, key, trigger, original, epochSecs, answer)
    else WasDenied(setup, before.(calls := left), after, key, original, epochSecs, answer)
  }

  /** What is done about the outcome of the local attempt: a clean reply is delivered and nothing else
      happens; the sentinel escalates; a failure escalates or is surfaced, as configured. */
  predicate WasConcluded(setup: Setup, before: Shared, after: Shared, key: Option<string>, outcome: LA.LocalOutcome,
                         original: Value, now: Instant, epochSecs: nat, answer: Answer)
    requires original.Obj?
  {
    match outcome
    case Release(body) => answer == LocalBody(body) && after == before
    case Escalate => WasEscalated(setup, before, after, key, "sentinel", original, now, epochSecs, answer)
    case _ =>
      if setup.cfg.failMode == FailCloud
      then WasEscalated(setup, before, after, key, "fail_mode", original, now, epochSecs, answer)
      else answer == LocalError(outcome) && after == before
  }

  /** A whole cascade: a sticky conversation is escalated without an attempt, any other is tried locally
      first. */
  predicate WasCascaded(setup: Setup, before: Shared, after: Shared, key: Option<string>, outcome: LA.LocalOutcome,
                        original: Value, now: Instant, epochSecs: nat, attempt: Option<Value>, answer: Answer)
    requires original.Obj?
  {
    if key.Some? && key.value in before.sticky && before.sticky[key.value] == Cloud then
      attempt == None && WasEscalated(setup, before, after, key, "sticky", original, now, epochSecs, answer)
    else
      && attempt == Some(AttemptPayload(original, setup.localModel, setup.cfg.sentinel))
      && WasConcluded(setup, before.(metrics := before.metrics.(tierLocal := before.metrics.tierLocal + 1)), after,
                      key, outcome, original, now, epochSecs, answer)
  }

  // ----- The methods, proved against both -----

  /** `escalate` runs the protocol from the clock reading on. */
  method Escalate(setup: Setup, orch: Orchestrator, counters: Counters, key: Option<string>,
                  original: Value, t: Trigger, now: Instant, epochSecs: nat, ghost env: Env)
    returns (answer: Answer)
    requires orch.Valid() && orch.cfg == setup.cfg && original.Obj? && env.epochSecs == epochSecs
    modifies orch, counters
    ensures orch.Valid() && answer.Sent?
    ensures var (sh, r) := Finish(setup, now, old(Snapshot(orch, counters)), Escalating(key, t), env);
            Snapshot(orch, counters) == sh && AnswersFor(setup, original, r, answer)
    ensures WasEscalated(setup, old(Snapshot(orch, counters)), Snapshot(orch, counters), key,
                         TriggerName(t), original, now, epochSecs, answer)
    ensures key.Some? && |Pruned(old(orch.cloudCalls), now)| < setup.cfg.maxCloudRequestsPerHour ==>
              key.value in orch.sticky && orch.sticky[key.value] == Cloud
  {
    ghost var rq := Escalating(key, t);
    ghost var end := Finish(setup, now, Snapshot(orch, counters), rq, env);
    rq := StepRequest(setup, now, 0, Snapshot(orch, counters), rq, env).1;
    assert end == Finish(setup, now, Snapshot(orch, counters), rq, env);

    ghost var next := StepRequest(setup, now, 0, Snapshot(orch, counters), rq, env);
    var granted := orch.TryReserveCloudCallAt(now);
    rq := next.1;
    assert Snapshot(orch, counters) == next.0;
    assert end == Finish(setup, now, Snapshot(orch, counters), rq, env);
    if !granted {
      answer := Deny(setup, orch, counters, key, original, rq, now, epochSecs, env);
    } else {
      answer := Send(setup, orch, counters, key, original, rq, t, now, epochSecs, env);
    }
  }

  /** The refused branch: recorded, counted twice, answered locally with a note. */
  method Deny(setup: Setup, orch: Orchestrator, counters: Counters, key: Option<string>,
              original: Value, ghost rq: Request, now: Instant, epochSecs: nat, ghost env: Env)
    returns (answer: Answer)
    requires orch.Valid() && orch.cfg == setup.cfg && original.Obj? && env.epochSecs == epochSecs
    requires rq.pc == RecordDenial && rq.key == key
    modifies orch, counters
    ensures orch.Valid() && answer.Sent?
    ensures WasDenied(setup, old(Snapshot(orch, counters)), Snapshot(orch, counters), key, original, epochSecs, answer)
    ensures var (sh, r) := Finish(setup, now, old(Snapshot(orch, counters)), rq, env);
            Snapshot(orch, counters) == sh && AnswersFor(setup, original, r, answer)
  {
    ghost var r0, s0 := rq, Snapshot(orch, counters);
    orch.RecordEscalation(BUDGET_DENIED, orch.cfg.localProvider, setup.localModel.GetOr(""), key, epochSecs);
    ghost var r1 := r0.(pc := CountDenied);
    assert StepRequest(setup, now, 0, s0, r0, env) == (Snapshot(orch, counters), r1);
    ghost var s1 := Snapshot(orch, counters);
    counters.IncDenied();
    ghost var r2 := r1.(pc := CountFallback);
    assert StepRequest(setup, now, 0, s1, r1, env) == (Snapshot(orch, counters), r2);
    ghost var s2 := Snapshot(orch, counters);
    counters.IncLocal();
    ghost var r3 := r2.(pc := SendFallback);
    assert StepRequest(setup, now, 0, s2, r2, env) == (Snapshot(orch, counters), r3);
    ghost var s3 := Snapshot(orch, counters);

    var fallback := new Body(original);
    fallback.SetLocalModel(setup.localModel);
    fallback.AppendSystemNote(UNAVAILABLE_NOTE);
    answer := Sent(orch.cfg.localProvider, fallback.json);
    ghost var r4 := r3.(dispatches := r3.dispatches + [ToFallback], pc := Finished);
    assert Finish(setup, now, s3, r3, env) == Finish(setup, now, s3, r4, env) == (s3, r4);
    assert Finish(setup, now, s0, r0, env) == Finish(setup, now, s1, r1, env);
    assert Finish(setup, now, s1, r1, env) == Finish(setup, now, s2, r2, env);
    assert Finish(setup, now, s2, r2, env) == Finish(setup, now, s3, r3, env);
  }

  /** The granted branch: marked, recorded, counted twice, sent to the cloud. */
  method Send(setup: Setup, orch: Orchestrator, counters: Counters, key: Option<string>,
              original: Value, ghost rq: Request, t: Trigger, now: Instant, epochSecs: nat, ghost env: Env)
    returns (answer: Answer)
    requires orch.Valid() && orch.cfg == setup.cfg && original.Obj? && env.epochSecs == epochSecs
    requires rq.pc == Mark && rq.key == key && rq.trigger == Some(t)
    modifies orch, counters
    ensures orch.Valid() && answer.Sent?
    ensures WentToCloud(setup, old(Snapshot(orch, counters)), Snapshot(orch, counters), key, TriggerName(t), original, epochSecs, answer)
    ensures var (sh, r) := Finish(setup, now, old(Snapshot(orch, counters)), rq, env);
            Snapshot(orch, counters) == sh && AnswersFor(setup, original, r, answer)
  {
    ghost var r0, s0 := rq, Snapshot(orch, counters);
    if key.Some? {
      orch.MarkCloud(key.value);
    }
    ghost var r1 := r0.(pc := RecordGrant);
    assert StepRequest(setup, now, 0, s0, r0, env) == (Snapshot(orch, counters), r1);
    ghost var s1 := Snapshot(orch, counters);
    var cloud := Json.Set(original, "model", Json.Str(orch.cfg.escalationModel));
    orch.RecordEscalation(TriggerName(t), orch.cfg.escalationProvider, orch.cfg.escalationModel, key, epochSecs);
    ghost var r2 := r1.(pc := CountEscalation);
    assert StepRequest(setup, now, 0, s1, r1, env) == (Snapshot(orch, counters), r2);
    assert Finish(setup, now, s0, r0, env) == Finish(setup, now, s1, r1, env);
    assert Finish(setup, now, s1, r1, env) == Finish(setup, now, Snapshot(orch, counters), r2, env);
    CountGrant(setup, orch, counters, r2, t, now, env);
    answer := Sent(orch.cfg.escalationProvider, cloud);
  }

  /** The two counters of the granted branch. */
  method CountGrant(setup: Setup, orch: Orchestrator, counters: Counters, ghost rq: Request, t: Trigger,
                    now: Instant, ghost env: Env)
    requires rq.pc == CountEscalation && rq.trigger == Some(t)
    modifies counters
    ensures Finish(setup, now, old(Snapshot(orch, counters)), rq, env)
         == (Snapshot(orch, counters), rq.(dispatches := rq.dispatches + [ToCloud], pc := Finished))
    ensures counters.m == CloudCounted(old(counters.m), TriggerName(t))
  {
    ghost var s2 := Snapshot(orch, counters);
    counters.IncEscalations(t);
    ghost var r3, s3 := rq.(pc := CountCloud), Snapshot(orch, counters);
    assert StepRequest(setup, now, 0, s2, rq, env) == (s3, r3);
    counters.IncCloud();
    ghost var r4, s4 := r3.(pc := SendCloud), Snapshot(orch, counters);
    assert StepRequest(setup, now, 0, s3, r3, env) == (s4, r4);
    ghost var r5 := r4.(dispatches := r4.dispatches + [ToCloud], pc := Finished);
    assert Finish(setup, now, s4, r4, env) == Finish(setup, now, s4, r5, env) == (s4, r5);
    assert Finish(setup, now, s2, rq, env) == Finish(setup, now, s3, r3, env);
    assert Finish(setup, now, s3, r3, env) == Finish(setup, now, s4, r4, env);
  }

  function ResultOf(outcome: LA.LocalOutcome): LocalResult {
    match outcome
    case Release(_) => Delivered
    case Escalate => Escalated
    case Failed(_) => Broke
    case Error => Broke
  }

  /** The client gets what the request's last dispatch brought: the cloud's or the fallback's
      answer, the local body that was released, or the local error when errors are surfaced. */
  predicate Delivers(setup: Setup, original: Value, outcome: LA.LocalOutcome, r: Request, answer: Answer)
    requires original.Obj?
  {
    && AnswersFor(setup, original, r, answer)
    && (answer.LocalBody? ==> outcome == LA.Release(answer.body))
    && (answer.LocalError? ==> outcome == answer.error && setup.cfg.failMode == FailError)
  }

  /** `cascade` runs the protocol from its first step. `reply` is what the local tier answers to
      the instrumented attempt, should it be made. */
  method Cascade(setup: Setup, orch: Orchestrator, counters: Counters, hash: Hash,
                 parse: Stream.JsonParser, parseBody: LA.BodyParser, original: Value, reply: LA.Reply,
                 now: Instant, epochSecs: nat)
    returns (attempt: Option<Value>, answer: Answer)
    requires orch.Valid() && orch.cfg == setup.cfg && original.Obj?
    modifies orch, counters
    ensures orch.Valid()
    ensures var before := old(Snapshot(orch, counters));
            var outcome := LA.OutcomeOf(parse, parseBody, setup.cfg.sentinel, reply);
            var env := Env(ResultOf(outcome), epochSecs);
            var (sh, r) := Finish(setup, now, before, NewRequest(before, false, ConversationKey(hash, original)), env);
            && Snapshot(orch, counters) == sh
            && Delivers(setup, original, outcome, r, answer)
            && attempt == (if ToLocal in r.dispatches
                           then Some(AttemptPayload(original, setup.localModel, setup.cfg.sentinel)) else None)
    ensures WasCascaded(setup, old(Snapshot(orch, counters)), Snapshot(orch, counters), ConversationKey(hash, original),
                        LA.OutcomeOf(parse, parseBody, setup.cfg.sentinel, reply), original, now, epochSecs, attempt, answer)
  {
    var key := ConversationKey(hash, original);
    ghost var env := Env(ResultOf(LA.OutcomeOf(parse, parseBody, setup.cfg.sentinel, reply)), epochSecs);
    CascadeEntry(setup, now, Snapshot(orch, counters), key, env);
    if key.Some? {
      var tier := orch.StickyTier(key.value);
      if tier == Some(Cloud) {
        FinishKeepsDispatches(setup, now, Snapshot(orch, counters), Escalating(key, Sticky), env);
        attempt := None;
        answer := Escalate(setup, orch, counters, key, original, Sticky, now, epochSecs, env);
        return;
      }
    }
    attempt, answer := TryLocal(setup, orch, counters, key, parse, parseBody, original, reply, now, epochSecs, env);
  }

  /** The path of a conversation that is not sticky: count, attempt, act on the outcome. */
  method TryLocal(setup: Setup, orch: Orchestrator, counters: Counters, key: Option<string>,
                  parse: Stream.JsonParser, parseBody: LA.BodyParser, original: Value, reply: LA.Reply,
                  now: Instant, epochSecs: nat, ghost env: Env)
    returns (attempt: Option<Value>, answer: Answer)
    requires orch.Valid() && orch.cfg == setup.cfg && original.Obj?
    requires env == Env(ResultOf(LA.OutcomeOf(parse, parseBody, setup.cfg.sentinel, reply)), epochSecs)
    modifies orch, counters
    ensures orch.Valid()
    ensures var (sh, r) := Concluded(setup, now, LocalCounted(old(Snapshot(orch, counters))), key, env);
            && Snapshot(orch, counters) == sh && ToLocal in r.dispatches
            && Delivers(setup, original, LA.OutcomeOf(parse, parseBody, setup.cfg.sentinel, reply), r, answer)
    ensures attempt == Some(AttemptPayload(original, setup.localModel, setup.cfg.sentinel))
    ensures WasConcluded(setup, LocalCounted(old(Snapshot(orch, counters))), Snapshot(orch, counters), key,
                         LA.OutcomeOf(parse, parseBody, setup.cfg.sentinel, reply), original, now, epochSecs, answer)
  {
    ghost var before := Snapshot(orch, counters);
    var instrumented := Instrument(original, setup.localModel, orch.cfg.sentinel);
    attempt := Some(instrumented);
    counters.IncLocal();
    assert Snapshot(orch, counters) == LocalCounted(before);
    var outcome := LA.LocalAttempt(parse, parseBody, orch.cfg.sentinel, reply);
    answer := Conclude(setup, orch, counters, key, original, outcome, now, epochSecs, env);
  }

  function LocalCounted(sh: Shared): Shared {
    sh.(metrics := sh.metrics.(tierLocal := sh.metrics.tierLocal + 1))
  }

  method Instrument(original: Value, localModel: Option<string>, sentinel: string) returns (attempt: Value)
    requires original.Obj?
    ensures attempt == AttemptPayload(original, localModel, sentinel)
  {
    var body := new Body(original);
    body.SetLocalModel(localModel);
    body.AppendSystemNote(SentinelInstruction(sentinel));
    attempt := body.json;
  }

  /** What the outcome of the local attempt leads to. */
  function Concluded(setup: Setup, now: Instant, sh: Shared, key: Option<string>, env: Env): (Shared, Request) {
    var tried := Request(false, key, false, None, Undecided, [ToLocal], Finished);
    match env.local
    case Delivered => (sh, tried)
    case Escalated => Finish(setup, now, sh, Escalating(key, Sentinel), env)
    case Broke =>
      if setup.cfg.failMode == FailCloud then Finish(setup, now, sh, Escalating(key, FailMode), env) else (sh, tried)
  }

  lemma CascadeEntry(setup: Setup, now: Instant, sh: Shared, key: Option<string>, env: Env)
    ensures Finish(setup, now, sh, NewRequest(sh, false, key), env)
         == if IsSticky(sh, key) then Finish(setup, now, sh, Escalating(key, Sticky), env)
            else Concluded(setup, now, LocalCounted(sh), key, env)
  {
    var r0 := NewRequest(sh, false, key);
    if IsSticky(sh, key) {
      assert StepRequest(setup, now, 0, sh, r0, env) == (sh, Escalating(key, Sticky));
    } else {
      var none: seq<Dispatch> := [];
      assert none + [ToLocal] == [ToLocal];
      var sh' := LocalCounted(sh);
      var r1, r2 := r0.(pc := CountLocal), r0.(pc := Attempt);
      var r3 := StepRequest(setup, now, 0, sh', r2, env).1;
      assert StepRequest(setup, now, 0, sh, r0, env) == (sh, r1);
      assert StepRequest(setup, now, 0, sh, r1, env) == (sh', r2);
      assert Finish(setup, now, sh, r0, env) == Finish(setup, now, sh, r1, env);
      assert Finish(setup, now, sh, r1, env) == Finish(setup, now, sh', r2, env);
      assert Finish(setup, now, sh', r2, env) == Finish(setup, now, sh', r3, env);
    }
  }

  method Conclude(setup: Setup, orch: Orchestrator, counters: Counters, key: Option<string>, original: Value,
                  outcome: LA.LocalOutcome, now: Instant, epochSecs: nat, ghost env: Env)
    returns (answer: Answer)
    requires orch.Valid() && orch.cfg == setup.cfg && original.Obj?
    requires env == Env(ResultOf(outcome), epochSecs)
    modifies orch, counters
    ensures orch.Valid()
    ensures var (sh, r) := Concluded(setup, now, old(Snapshot(orch, counters)), key, env);
            Snapshot(orch, counters) == sh && ToLocal in r.dispatches && Delivers(setup, original, outcome, r, answer)
    ensures WasConcluded(setup, old(Snapshot(orch, counters)), Snapshot(orch, counters), key, outcome,
                         original, now, epochSecs, answer)
  {
    match outcome {
      case Release(released) =>
        answer := LocalBody(released);
      case Escalate =>
        FinishKeepsDispatches(setup, now, Snapshot(orch, counters), Escalating(key, Sentinel), env);
        answer := Escalate(setup, orch, counters, key, original, Sentinel, now, epochSecs, env);
      case _ =>
        if orch.cfg.failMode == FailCloud {
          FinishKeepsDispatches(setup, now, Snapshot(orch, counters), Escalating(key, FailMode), env);
          answer := Escalate(setup, orch, counters, key, original, FailMode, now, epochSecs, env);
        } else {
          answer := LocalError(outcome);
        }
    }
  }

  predicate PastAttempt(pc: Pc) {
    Rank(pc) <= 9
  }

  lemma {:induction false} FinishKeepsDispatches(setup: Setup, now: Instant, sh: Shared, rq: Request, env: Env)
    requires PastAttempt(rq.pc)
    ensures var r := Finish(setup, now, sh, rq, env).1;
            ToLocal in r.dispatches <==> ToLocal in rq.dispatches
    decreases Rank(rq.pc)
  {
    if rq.pc != Finished {
      var (sh', rq') := StepRequest(setup, now, 0, sh, rq, env);
      StepPastAttempt(setup, now, sh, rq, env);
      FinishKeepsDispatches(setup, now, sh', rq', env);
    }
  }

  lemma StepPastAttempt(setup: Setup, now: Instant, sh: Shared, rq: Request, env: Env)
    requires PastAttempt(rq.pc) && rq.pc != Finished
    ensures var rq' := StepRequest(setup, now, 0, sh, rq, env).1;
            && PastAttempt(rq'.pc) && Rank(rq'.pc) < Rank(rq.pc)
            && (ToLocal in rq'.dispatches <==> ToLocal in rq.dispatches)
  {
  }

  /** The same request up to the place its grant takes in the log. */
  predicate SameButSlot(a: Request, b: Request) {
    a == b || (Rank(a.pc) <= 7 && a.decision.Granted? && b.decision.Granted? && a == b.(decision := a.decision))
  }

  lemma SlotIsImmaterial(setup: Setup, clock: Instant, sh: Shared, rq: Request, env: Env, slot: nat)
    ensures var (s1, r1) := StepRequest(setup, clock, slot, sh, rq, env);
            var (s2, r2) := StepRequest(setup, clock, 0, sh, rq, env);
            s1 == s2 && SameButSlot(r1, r2)
  {
  }

  lemma StepSlot(setup: Setup, clock: Instant, sh: Shared, a: Request, b: Request, env: Env)
    requires SameButSlot(a, b) && a != b
    ensures var (s1, r1) := StepRequest(setup, clock, 0, sh, a, env);
            var (s2, r2) := StepRequest(setup, clock, 0, sh, b, env);
            s1 == s2 && SameButSlot(r1, r2)
  {
    if a.pc.RecordGrant? || a.pc.RecordDenial? {
      assert a.key == b.key && a.trigger == b.trigger;
    } else if Rank(a.pc) >= 5 {
    } else {
    }
  }

  lemma {:induction false} FinishSlot(setup: Setup, clock: Instant, sh: Shared, a: Request, b: Request, env: Env)
    requires SameButSlot(a, b)
    ensures var (s1, r1) := Finish(setup, clock, sh, a, env);
            var (s2, r2) := Finish(setup, clock, sh, b, env);
            s1 == s2 && SameButSlot(r1, r2)
    decreases Rank(a.pc)
  {
    if a.pc != Finished && a != b {
      StepSlot(setup, clock, sh, a, b, env);
      var (s1, r1) := StepRequest(setup, clock, 0, sh, a, env);
      FinishSlot(setup, clock, s1, r1, StepRequest(setup, clock, 0, sh, b, env).1, env);
    }
  }

  lemma StepAlone(setup: Setup, w: World, i: nat, env: Env)
    requires i < |w.requests| && w.requests[i].pc != Finished
    ensures var w' := Apply(setup, w, Step(i, env));
            && w'.clock == w.clock && |w'.requests| == |w.requests|
            && Rank(w'.requests[i].pc) < Rank(w.requests[i].pc)
            && Finish(setup, w.clock, w'.shared, w'.requests[i], env).0
            == Finish(setup, w.clock, w.shared, w.requests[i], env).0
            && Finish(setup, w.clock, w'.shared, w'.requests[i], env).1.dispatches
            == Finish(setup, w.clock, w.shared, w.requests[i], env).1.dispatches
  {
    var w' := Apply(setup, w, Step(i, env));
    SlotIsImmaterial(setup, w.clock, w.shared, w.requests[i], env, |w.log.grants|);
    FinishSlot(setup, w.clock, w'.shared, w'.requests[i], StepRequest(setup, w.clock, 0, w.shared, w.requests[i], env).1, env);
  }

  /** Running alone is one of the protocol's runs: from any reachable world, some list of steps of
      request `i` does to the shared state and to its dispatches exactly what Finish says. */
  lemma {:induction false} AloneIsARun(setup: Setup, clock: Instant, run: seq<Action>, i: nat, env: Env)
    returns (more: seq<Action>)
    requires i < |After(setup, clock, run).requests|
    ensures var w, w' := After(setup, clock, run), After(setup, clock, run + more);
            var (sh, r) := Finish(setup, w.clock, w.shared, w.requests[i], env);
            && w'.clock == w.clock && |w'.requests| == |w.requests|
            && w'.shared == sh && w'.requests[i].dispatches == r.dispatches
    decreases Rank(After(setup, clock, run).requests[i].pc)
  {
    var w := After(setup, clock, run);
    if w.requests[i].pc == Finished {
      more := [];
      Plus(run);
    } else {
      var longer := run + [Step(i, env)];
      assert longer[..|longer| - 1] == run;
      StepAlone(setup, w, i, env);
      more := AloneIsARun(setup, clock, longer, i, env);
      Assoc(run, [Step(i, env)], more);
      more := [Step(i, env)] + more;
    }
  }
}
