/** The escalation cascade as a concurrent protocol (src/proxy.rs, cascade and escalate): any
    number of requests in flight, interleaved at every lock and every counter. */
module Protocol {
  import opened Wrappers
  import opened Budget
  import opened History
  import opened Orchestrator

  /** What sent a request towards the cloud. */
  datatype Trigger = Sticky | Sentinel | FailMode

  function TriggerName(t: Trigger): string {
    match t
    case Sticky => "sticky"
    case Sentinel => "sentinel"
    case FailMode => "fail_mode"
  }

  /** The configuration, and the local provider's default model if it has one. */
  datatype Setup = Setup(cfg: Config, localModel: Option<string>)

  datatype Metrics = Metrics(
    tierLocal: nat,
    tierCloud: nat,
    tierStatic: nat,
    budgetDenied: nat,
    bySticky: nat,
    bySentinel: nat,
    byFailMode: nat)

  function CountTrigger(m: Metrics, t: Trigger): Metrics {
    match t
    case Sticky => m.(bySticky := m.bySticky + 1)
    case Sentinel => m.(bySentinel := m.bySentinel + 1)
    case FailMode => m.(byFailMode := m.byFailMode + 1)
  }

  /** Everything requests share. */
  datatype Shared = Shared(sticky: map<string, Tier>, calls: seq<Instant>, history: History, metrics: Metrics)

  /** How the local attempt turned out. */
  datatype LocalResult = Delivered | Escalated | Broke

  datatype Dispatch = ToLocal | ToCloud | ToFallback | ToStatic

  /** The fate of a request's reservation; a grant knows its place in the grant log. */
  datatype Decision = Undecided | Granted(slot: nat) | Refused

  /** The next thing a request does. */
  datatype Pc =
    | CheckSticky | CountLocal | Attempt
    | ReadClock | Reserving(now: Instant)
    | Mark | RecordGrant | CountEscalation | CountCloud | SendCloud
    | RecordDenial | CountDenied | CountFallback | SendFallback
    | CountStatic | SendStatic
    | Finished

  datatype Request = Request(
    explicit: bool,
    key: Option<string>,
    bornSticky: bool,
    trigger: Option<Trigger>,
    decision: Decision,
    dispatches: seq<Dispatch>,
    pc: Pc)

  /** What happens to be the case when a step is taken. */
  datatype Env = Env(local: LocalResult, epochSecs: nat)

  function IsSticky(sh: Shared, key: Option<string>): bool {
    key.Some? && key.value in sh.sticky && sh.sticky[key.value] == Cloud
  }

  function GrantRecord(setup: Setup, rq: Request, t: Trigger, env: Env): Record {
    Record(env.epochSecs, TriggerName(t), setup.cfg.escalationProvider, setup.cfg.escalationModel, Prefix(rq.key))
  }

  function DenialRecord(setup: Setup, rq: Request, env: Env): Record {
    Record(env.epochSecs, BUDGET_DENIED, setup.cfg.localProvider, setup.localModel.GetOr(""), Prefix(rq.key))
  }

  /** One atomic step of one request. `slot` is the length of the grant log. */
  function StepRequest(setup: Setup, clock: Instant, slot: nat, sh: Shared, rq: Request, env: Env): (Shared, Request) {
    match rq.pc
    case CheckSticky =>
      if IsSticky(sh, rq.key) then (sh, rq.(trigger := Some(Sticky), pc := ReadClock))
      else (sh, rq.(pc := CountLocal))
    case CountLocal =>
      (sh.(metrics := sh.metrics.(tierLocal := sh.metrics.tierLocal + 1)), rq.(pc := Attempt))
    case Attempt =>
      var tried := rq.(dispatches := rq.dispatches + [ToLocal]);
      (sh,
       match env.local
       case Delivered => tried.(pc := Finished)
       case Escalated => tried.(trigger := Some(Sentinel), pc := ReadClock)
       case Broke =>
         if setup.cfg.failMode == FailCloud then tried.(trigger := Some(FailMode), pc := ReadClock)
         else tried.(pc := Finished))
    case ReadClock => (sh, rq.(pc := Reserving(clock)))
    case Reserving(now) =>
      var (calls, granted) := TryReserve(sh.calls, now, setup.cfg.maxCloudRequestsPerHour);
      (sh.(calls := calls),
       if granted then rq.(decision := Granted(slot), pc := Mark)
       else rq.(decision := Refused, pc := RecordDenial))
    case Mark =>
      (if rq.key.Some? then sh.(sticky := sh.sticky[rq.key.value := Cloud]) else sh, rq.(pc := RecordGrant))
    case RecordGrant =>
      (sh.(history := Recorded(sh.history, GrantRecord(setup, rq, rq.trigger.GetOr(Sentinel), env))),
       rq.(pc := CountEscalation))
    case CountEscalation =>
      (sh.(metrics := CountTrigger(sh.metrics, rq.trigger.GetOr(Sentinel))), rq.(pc := CountCloud))
    case CountCloud =>
      (sh.(metrics := sh.metrics.(tierCloud := sh.metrics.tierCloud + 1)), rq.(pc := SendCloud))
    case SendCloud => (sh, rq.(dispatches := rq.dispatches + [ToCloud], pc := Finished))
    case RecordDenial =>
      (sh.(history := Recorded(sh.history, DenialRecord(setup, rq, env))), rq.(pc := CountDenied))
    case CountDenied =>
      (sh.(metrics := sh.metrics.(budgetDenied := sh.metrics.budgetDenied + 1)), rq.(pc := CountFallback))
    case CountFallback =>
      (sh.(metrics := sh.metrics.(tierLocal := sh.metrics.tierLocal + 1)), rq.(pc := SendFallback))
    case SendFallback => (sh, rq.(dispatches := rq.dispatches + [ToFallback], pc := Finished))
    case CountStatic =>
      (sh.(metrics := sh.metrics.(tierStatic := sh.metrics.tierStatic + 1)), rq.(pc := SendStatic))
    case SendStatic => (sh, rq.(dispatches := rq.dispatches + [ToStatic], pc := Finished))
    case Finished => (sh, rq)
  }

  /** What an observer writes down: every grant with its owner, the refusals, every history event,
      and how far the latest clock was ahead of any reservation when it got the lock. */
  datatype Log = Log(grants: seq<Instant>, owners: seq<nat>, refusals: nat, records: seq<Record>, lag: nat)

  datatype World = World(clock: Instant, shared: Shared, log: Log, requests: seq<Request>)

  /** One event of a run. A status or metrics page reads the budget, possibly with a stale clock. */
  datatype Action =
    | Arrive(explicit: bool, key: Option<string>)
    | Step(i: nat, env: Env)
    | Tick(d: nat)
    | ReadBudget(now: Instant)

  function NewRequest(sh: Shared, explicit: bool, key: Option<string>): Request {
    Request(explicit, key, !explicit && IsSticky(sh, key), None, Undecided, [],
            if explicit then CountStatic else CheckSticky)
  }

  function Noted(setup: Setup, clock: Instant, log: Log, i: nat, rq: Request, rq': Request, env: Env): Log {
    match rq.pc
    case Reserving(now) =>
      var behind := if now < clock then clock - now else 0;
      var lag := if log.lag < behind then behind else log.lag;
      if rq'.decision.Granted? then log.(grants := log.grants + [now], owners := log.owners + [i], lag := lag)
      else log.(refusals := log.refusals + 1, lag := lag)
    case RecordGrant => log.(records := log.records + [GrantRecord(setup, rq, rq.trigger.GetOr(Sentinel), env)])
    case RecordDenial => log.(records := log.records + [DenialRecord(setup, rq, env)])
    case _ => log
  }

  /** The world after an action; one that is not possible changes nothing. */
  function Apply(setup: Setup, w: World, a: Action): World {
    match a
    case Arrive(explicit, key) => w.(requests := w.requests + [NewRequest(w.shared, explicit, key)])
    case Step(i, env) =>
      if i < |w.requests| then
        var (sh, rq) := StepRequest(setup, w.clock, |w.log.grants|, w.shared, w.requests[i], env);
        World(w.clock, sh, Noted(setup, w.clock, w.log, i, w.requests[i], rq, env), w.requests[i := rq])
      else w
    case Tick(d) => w.(clock := w.clock + d)
    case ReadBudget(now) =>
      if now <= w.clock then w.(shared := w.shared.(calls := Pruned(w.shared.calls, now))) else w
  }

  const NO_METRICS := Metrics(0, 0, 0, 0, 0, 0, 0)

  function Start(clock: Instant): World {
    World(clock, Shared(map[], [], EMPTY, NO_METRICS), Log([], [], 0, [], 0), [])
  }

  /** The world a run leads to. Every list of actions is a run. */
  function After(setup: Setup, clock: Instant, run: seq<Action>): World {
    if run == [] then Start(clock)
    else Apply(setup, After(setup, clock, run[..|run| - 1]), run[|run| - 1])
  }
}
