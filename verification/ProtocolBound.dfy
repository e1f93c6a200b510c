/** The budget bound of the protocol cannot be improved: runs that overfill any longer window. */
module ProtocolBound {
  import opened Wrappers
  import opened Text
  import opened Budget
  import opened Orchestrator
  import opened Protocol

  function ApplyAll(setup: Setup, w: World, actions: seq<Action>): World
    decreases |actions|
  {
    if actions == [] then w else ApplyAll(setup, Apply(setup, w, actions[0]), actions[1..])
  }

  lemma {:induction false} AfterMore(setup: Setup, clock: Instant, run: seq<Action>, more: seq<Action>)
    ensures After(setup, clock, run + more) == ApplyAll(setup, After(setup, clock, run), more)
    decreases |more|
  {
    if more == [] {
      Plus(run);
    } else {
      var next := run + [more[0]];
      assert run + more == next + more[1..];
      assert next[..|run|] == run && next[|run|] == more[0];
      AfterMore(setup, clock, next, more[1..]);
    }
  }

  /** The local tier hands the request on. */
  const HANDED_ON := Env(Escalated, 0)

  /** A new request without a conversation key, up to the point where it has read the clock. */
  function Approach(i: nat): seq<Action> {
    [Arrive(false, None)] + (Twice(Step(i, HANDED_ON)) + Twice(Step(i, HANDED_ON)))
  }

  function Twice(a: Action): seq<Action> {
    [a, a]
  }

  lemma {:induction false} ApplyBoth(setup: Setup, w: World, a: seq<Action>, b: seq<Action>)
    ensures ApplyAll(setup, w, a + b) == ApplyAll(setup, ApplyAll(setup, w, a), b)
    decreases |a|
  {
    if a == [] {
      Plus(b);
    } else {
      AppendTail(a, b);
      ApplyBoth(setup, Apply(setup, w, a[0]), a[1..], b);
    }
  }

  lemma TwoActions(setup: Setup, w: World, a: Action)
    ensures ApplyAll(setup, w, Twice(a)) == Apply(setup, Apply(setup, w, a), a)
  {
    assert Twice(a)[1..] == [a];
    OneAction(setup, Apply(setup, w, a), a);
  }

  /** Only the requests and the local counter have changed. */
  predicate SameBudget(w: World, w': World) {
    w'.clock == w.clock && w'.shared.calls == w.shared.calls && w'.log == w.log
  }

  predicate Stands(w: World, i: nat, pc: Pc) {
    |w.requests| == i + 1 && w.requests[i].pc == pc
  }

  lemma Arrives(setup: Setup, w: World)
    ensures var w' := Apply(setup, w, Arrive(false, None));
            SameBudget(w, w') && Stands(w', |w.requests|, CheckSticky) && w'.requests[|w.requests|].key.None?
  {
  }

  lemma ReachesAttempt(setup: Setup, w: World, i: nat)
    requires Stands(w, i, CheckSticky) && w.requests[i].key.None?
    ensures var w1 := Apply(setup, w, Step(i, HANDED_ON));
            var w2 := Apply(setup, w1, Step(i, HANDED_ON));
            SameBudget(w, w2) && Stands(w2, i, Attempt)
  {
  }

  lemma ReachesClock(setup: Setup, w: World, i: nat)
    requires Stands(w, i, Attempt)
    ensures var w1 := Apply(setup, w, Step(i, HANDED_ON));
            var w2 := Apply(setup, w1, Step(i, HANDED_ON));
            SameBudget(w, w2) && Stands(w2, i, Reserving(w.clock))
  {
  }

  lemma ApproachResult(setup: Setup, w: World)
    ensures var w' := ApplyAll(setup, w, Approach(|w.requests|));
            SameBudget(w, w') && Stands(w', |w.requests|, Reserving(w.clock))
  {
    var i := |w.requests|;
    var a, two := Arrive(false, None), Twice(Step(i, HANDED_ON));
    var w1 := Apply(setup, w, a);
    var w2 := ApplyAll(setup, w1, two);
    ApplyBoth(setup, w, [a], two + two);
    OneAction(setup, w, a);
    ApplyBoth(setup, w1, two, two);
    TwoActions(setup, w1, Step(i, HANDED_ON));
    TwoActions(setup, w2, Step(i, HANDED_ON));
    Arrives(setup, w);
    ReachesAttempt(setup, w1, i);
    ReachesClock(setup, w2, i);
  }

  /** A reservation is granted, with what the log notes of it. */
  lemma GrantResult(setup: Setup, w: World, i: nat, now: Instant)
    requires Stands(w, i, Reserving(now))
    requires |Pruned(w.shared.calls, now)| < setup.cfg.maxCloudRequestsPerHour
    ensures var w' := Apply(setup, w, Step(i, HANDED_ON));
            && w'.clock == w.clock && |w'.requests| == |w.requests|
            && w'.shared.calls == Pruned(w.shared.calls, now) + [now]
            && w'.log.grants == w.log.grants + [now]
            && w'.log.lag == if w.log.lag < w.clock - now then w.clock - now else w.log.lag
  {
    FitsU32(|Pruned(w.shared.calls, now)|, setup.cfg.maxCloudRequestsPerHour);
  }

  /** `n` requests were granted at clock zero and nothing else has happened. */
  predicate AllGranted(w: World, n: nat) {
    && w.clock == 0 && w.log.lag == 0 && |w.requests| == n
    && w.shared.calls == w.log.grants && |w.log.grants| == n && AllZero(w.log.grants)
  }

  lemma OneMoreGranted(setup: Setup, w: World, n: nat)
    requires AllGranted(w, n) && n < setup.cfg.maxCloudRequestsPerHour
    ensures AllGranted(Apply(setup, ApplyAll(setup, w, Approach(n)), Step(n, HANDED_ON)), n + 1)
  {
    ApproachResult(setup, w);
    var w' := ApplyAll(setup, w, Approach(n));
    assert Pruned(w'.shared.calls, 0) == w'.shared.calls;
    GrantResult(setup, w', n, 0);
  }

  lemma {:induction false} BurstRun(setup: Setup, n: nat) returns (run: seq<Action>)
    requires n <= setup.cfg.maxCloudRequestsPerHour
    ensures AllGranted(After(setup, 0, run), n)
  {
    if n == 0 {
      run := [];
    } else {
      run := BurstRun(setup, n - 1);
      OneMoreGranted(setup, After(setup, 0, run), n - 1);
      AfterMore(setup, 0, run, Approach(n - 1));
      AfterMore(setup, 0, run + Approach(n - 1), [Step(n - 1, HANDED_ON)]);
      OneAction(setup, After(setup, 0, run + Approach(n - 1)), Step(n - 1, HANDED_ON));
      run := run + Approach(n - 1) + [Step(n - 1, HANDED_ON)];
    }
  }

  lemma OneAction(setup: Setup, w: World, a: Action)
    ensures ApplyAll(setup, w, [a]) == Apply(setup, w, a)
  {
    assert [a][1..] == [];
  }

  /** The world after one more action. */
  lemma Then(setup: Setup, run: seq<Action>, a: Action)
    ensures After(setup, 0, run + [a]) == Apply(setup, After(setup, 0, run), a)
  {
    AfterMore(setup, 0, run, [a]);
    OneAction(setup, After(setup, 0, run), a);
  }

  /** One more request reads the clock `d` before the hour is over. */
  lemma LateArrival(setup: Setup, burst: seq<Action>, n: nat, d: nat) returns (run: seq<Action>)
    requires d <= HOUR && AllGranted(After(setup, 0, burst), n)
    ensures var w, w' := After(setup, 0, burst), After(setup, 0, run);
            && w'.clock == HOUR - d && w'.shared.calls == w.shared.calls && w'.log == w.log
            && Stands(w', n, Reserving(HOUR - d))
  {
    var tick := Tick(HOUR - d);
    Then(setup, burst, tick);
    run := burst + [tick];
    ApproachResult(setup, After(setup, 0, run));
    AfterMore(setup, 0, run, Approach(n));
    run := run + Approach(n);
  }

  /** It gets the lock on the hour, just after a status page has read the budget. */
  lemma LateGrant(setup: Setup, waiting: seq<Action>, n: nat, d: nat) returns (run: seq<Action>)
    requires 0 < setup.cfg.maxCloudRequestsPerHour && d <= HOUR
    requires var w := After(setup, 0, waiting);
             && w.clock == HOUR - d && w.log.lag == 0 && AllZero(w.shared.calls)
             && Stands(w, n, Reserving(HOUR - d))
    ensures var w, w' := After(setup, 0, waiting), After(setup, 0, run);
            w'.log.lag == d && w'.log.grants == w.log.grants + [HOUR - d]
  {
    var step := Step(n, HANDED_ON);
    var w := After(setup, 0, waiting);
    var w1, w2 := Apply(setup, w, Tick(d)), Apply(setup, Apply(setup, w, Tick(d)), ReadBudget(HOUR));
    Then(setup, waiting, Tick(d));
    Then(setup, waiting + [Tick(d)], ReadBudget(HOUR));
    Then(setup, waiting + [Tick(d)] + [ReadBudget(HOUR)], step);
    run := waiting + [Tick(d)] + [ReadBudget(HOUR)] + [step];
    EmptiesDeque(w.shared.calls);
    ReadEmpties(setup, w, d);
    GrantResult(setup, w2, n, HOUR - d);
  }

  lemma ReadEmpties(setup: Setup, w: World, d: nat)
    requires w.clock == HOUR - d && Pruned(w.shared.calls, HOUR) == []
    ensures var w' := Apply(setup, Apply(setup, w, Tick(d)), ReadBudget(HOUR));
            w'.clock == HOUR && w'.shared.calls == [] && w'.log == w.log && w'.requests == w.requests
  {
  }

  lemma EmptiesDeque(calls: seq<Instant>)
    requires AllZero(calls)
    ensures Pruned(calls, HOUR) == []
  {
    var n := PrunedIsSuffix(calls, HOUR);
  }

  /** For every positive cap and every lag there is a run with that lag whose grants overfill a window
      one longer than the hour less the lag, and so the whole hour. */
  lemma BoundIsTight(setup: Setup, d: nat) returns (run: seq<Action>)
    requires setup.cfg.maxCloudRequestsPerHour > 0 && 0 < d <= HOUR
    ensures var w := After(setup, 0, run);
            && w.log.lag == d
            && CountIn(w.log.grants, 0, HOUR - w.log.lag + 1) > setup.cfg.maxCloudRequestsPerHour
            && CountIn(w.log.grants, 0, HOUR) > setup.cfg.maxCloudRequestsPerHour
  {
    var burst := BurstRun(setup, setup.cfg.maxCloudRequestsPerHour);
    var waiting := LateArrival(setup, burst, setup.cfg.maxCloudRequestsPerHour, d);
    run := LateGrant(setup, waiting, setup.cfg.maxCloudRequestsPerHour, d);
    var zeros := After(setup, 0, burst).log.grants;
    CountInZeros(zeros, HOUR - d + 1);
    CountInAppend(zeros, [HOUR - d], 0, HOUR - d + 1);
    assert CountIn([HOUR - d], 0, HOUR - d + 1) == 1;
    CountInShrinks(zeros + [HOUR - d], 0, HOUR, HOUR - d + 1);
  }
}
