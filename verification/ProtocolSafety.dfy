/** What holds in every reachable world of the cascade, whatever the interleaving. */
module ProtocolSafety {
  import opened Wrappers
  import opened Text
  import opened Budget
  import opened History
  import opened Orchestrator
  import opened Protocol

  // ----- The shape of a single request -----

  /** What a request has sent before it asks for a reservation. */
  function SentBefore(r: Request): seq<Dispatch> {
    if r.trigger == Some(Sentinel) || r.trigger == Some(FailMode) then [ToLocal] else []
  }

  predicate WellFormed(r: Request) {
    match r.pc
    case CheckSticky => !r.explicit && r.trigger.None? && r.decision.Undecided? && r.dispatches == []
    case CountLocal => !r.explicit && r.trigger.None? && r.decision.Undecided? && r.dispatches == []
    case Attempt => !r.explicit && r.trigger.None? && r.decision.Undecided? && r.dispatches == []
    case ReadClock => !r.explicit && r.trigger.Some? && r.decision.Undecided? && r.dispatches == SentBefore(r)
    case Reserving(_) => !r.explicit && r.trigger.Some? && r.decision.Undecided? && r.dispatches == SentBefore(r)
    case CountStatic => r.explicit && r.trigger.None? && r.decision.Undecided? && r.dispatches == []
    case SendStatic => r.explicit && r.trigger.None? && r.decision.Undecided? && r.dispatches == []
    case Finished =>
      if r.explicit then r.trigger.None? && r.decision.Undecided? && r.dispatches == [ToStatic]
      else
        (match r.decision
         case Undecided => r.trigger.None? && r.dispatches == [ToLocal]
         case Granted(_) => r.trigger.Some? && r.dispatches == SentBefore(r) + [ToCloud]
         case Refused => r.trigger.Some? && r.dispatches == SentBefore(r) + [ToFallback])
    case _ =>
      && !r.explicit && r.trigger.Some? && r.dispatches == SentBefore(r)
      && (if r.pc in {RecordDenial, CountDenied, CountFallback, SendFallback} then r.decision.Refused?
          else r.decision.Granted?)
  }

  /** Born sticky, a request never tries the local tier. */
  predicate KeepsSticky(sh: Shared, r: Request) {
    r.bornSticky ==>
      && !r.explicit && IsSticky(sh, r.key)
      && r.pc != CountLocal && r.pc != Attempt && ToLocal !in r.dispatches
      && (r.trigger.None? || r.trigger == Some(Sticky))
  }

  predicate StickyGrows(sh: Shared, sh': Shared) {
    forall k | k in sh.sticky && sh.sticky[k] == Cloud :: k in sh'.sticky && sh'.sticky[k] == Cloud
  }

  lemma StepWellFormed(setup: Setup, clock: Instant, slot: nat, sh: Shared, rq: Request, env: Env)
    requires WellFormed(rq)
    ensures WellFormed(StepRequest(setup, clock, slot, sh, rq, env).1)
  {
  }

  lemma StepIdentity(setup: Setup, clock: Instant, slot: nat, sh: Shared, rq: Request, env: Env)
    requires WellFormed(rq)
    ensures var (sh', rq') := StepRequest(setup, clock, slot, sh, rq, env);
            && StickyGrows(sh, sh')
            && rq'.key == rq.key && rq'.explicit == rq.explicit && rq'.bornSticky == rq.bornSticky
            && (rq.decision.Granted? ==> rq'.decision == rq.decision)
  {
  }

  lemma StepStaysSticky(setup: Setup, clock: Instant, slot: nat, sh: Shared, rq: Request, env: Env)
    requires WellFormed(rq) && KeepsSticky(sh, rq)
    ensures var (sh', rq') := StepRequest(setup, clock, slot, sh, rq, env);
            KeepsSticky(sh', rq')
  {
    StepIdentity(setup, clock, slot, sh, rq, env);
  }

  lemma StepShape(setup: Setup, clock: Instant, slot: nat, sh: Shared, rq: Request, env: Env)
    requires WellFormed(rq) && KeepsSticky(sh, rq)
    ensures var (sh', rq') := StepRequest(setup, clock, slot, sh, rq, env);
            && WellFormed(rq') && KeepsSticky(sh', rq') && StickyGrows(sh, sh')
            && rq'.key == rq.key && rq'.explicit == rq.explicit && rq'.bornSticky == rq.bornSticky
            && (rq.decision.Granted? ==> rq'.decision == rq.decision)
  {
    StepWellFormed(setup, clock, slot, sh, rq, env);
    StepIdentity(setup, clock, slot, sh, rq, env);
    StepStaysSticky(setup, clock, slot, sh, rq, env);
  }

  predicate Shapes(w: World) {
    forall i | 0 <= i < |w.requests| :: WellFormed(w.requests[i]) && KeepsSticky(w.shared, w.requests[i])
  }

  lemma ApplyShapes(setup: Setup, w: World, a: Action)
    requires Shapes(w)
    ensures Shapes(Apply(setup, w, a)) && StickyGrows(w.shared, Apply(setup, w, a).shared)
  {
    if a.Step? && a.i < |w.requests| {
      StepShape(setup, w.clock, |w.log.grants|, w.shared, w.requests[a.i], a.env);
    }
  }

  lemma {:induction false} ReachableShapes(setup: Setup, clock: Instant, run: seq<Action>)
    ensures Shapes(After(setup, clock, run))
  {
    if run != [] {
      ReachableShapes(setup, clock, run[..|run| - 1]);
      ApplyShapes(setup, After(setup, clock, run[..|run| - 1]), run[|run| - 1]);
    }
  }

  // ----- Conservation -----

  function Sum(requests: seq<Request>, f: Request -> int): int {
    if requests == [] then 0 else f(requests[0]) + Sum(requests[1..], f)
  }

  lemma {:induction false} SumUpdate(requests: seq<Request>, i: nat, r: Request, f: Request -> int)
    requires i < |requests|
    ensures Sum(requests[i := r], f) == Sum(requests, f) - f(requests[i]) + f(r)
  {
    var updated := requests[i := r];
    if i == 0 {
      assert updated[1..] == requests[1..];
    } else {
      assert updated[1..] == requests[1..][i - 1 := r];
      SumUpdate(requests[1..], i - 1, r, f);
    }
  }

  lemma {:induction false} SumAppend(requests: seq<Request>, r: Request, f: Request -> int)
    ensures Sum(requests + [r], f) == Sum(requests, f) + f(r)
  {
    if requests == [] {
      Plus([r]);
      assert [r][1..] == [];
    } else {
      AppendTail(requests, [r]);
      SumAppend(requests[1..], r, f);
    }
  }

  /** Sums add up where the summands do. */
  lemma {:induction false} SumSplit(requests: seq<Request>, f: Request -> int, g: Request -> int, h: Request -> int)
    requires forall i | 0 <= i < |requests| :: f(requests[i]) == g(requests[i]) + h(requests[i])
    ensures Sum(requests, f) == Sum(requests, g) + Sum(requests, h)
  {
    if requests != [] {
      SumSplit(requests[1..], f, g, h);
    }
  }

  function Bit(b: bool): int {
    if b then 1 else 0
  }

  /** The events each counter counts, as seen on one request: which of them it has caused. */
  datatype Column =
    | Grants | GrantsRecorded | Escalations(t: Trigger) | AllEscalations | CloudCounts | CloudSends
    | Refusals | DenialsRecorded | Denials | LocalCounts | LocalTries | StaticRequests | StaticCounts
    | Standing(pcs: set<Pc>)

  function TriedLocally(r: Request): bool {
    r.dispatches != [] && r.dispatches[0] == ToLocal
  }

  function Entry(c: Column, r: Request): int {
    match c
    case Grants => Bit(r.decision.Granted?)
    case GrantsRecorded => Bit(r.decision.Granted? && r.pc !in {Mark, RecordGrant})
    case AllEscalations => Bit(r.decision.Granted? && r.pc !in {Mark, RecordGrant, CountEscalation})
    case Escalations(t) =>
      Bit(r.decision.Granted? && r.pc !in {Mark, RecordGrant, CountEscalation} && r.trigger == Some(t))
    case CloudCounts => Bit(r.decision.Granted? && r.pc !in {Mark, RecordGrant, CountEscalation, CountCloud})
    case CloudSends => Bit(ToCloud in r.dispatches)
    case Refusals => Bit(r.decision.Refused?)
    case DenialsRecorded => Bit(r.decision.Refused? && r.pc != RecordDenial)
    case Denials => Bit(r.decision.Refused? && r.pc !in {RecordDenial, CountDenied})
    case LocalCounts =>
      Bit(r.pc == Attempt || TriedLocally(r))
      + Bit(r.decision.Refused? && r.pc !in {RecordDenial, CountDenied, CountFallback})
    case LocalTries => Bit(TriedLocally(r))
    case StaticRequests => Bit(r.explicit)
    case StaticCounts => Bit(r.explicit && r.pc != CountStatic)
    case Standing(pcs) => Bit(r.pc in pcs)
  }

  /** How often the requests have caused it. */
  function Caused(requests: seq<Request>, c: Column): int {
    Sum(requests, r => Entry(c, r))
  }

  /** How many requests stand at one of these points. */
  function At(requests: seq<Request>, pcs: set<Pc>): int {
    Caused(requests, Standing(pcs))
  }

  /** What the shared state shows for a column that has a counter. */
  function Shown(w: World, c: Column): int {
    var m := w.shared.metrics;
    match c
    case Grants => |w.log.grants|
    case GrantsRecorded => w.shared.history.totalEscalations
    case Escalations(t) =>
      (match t case Sticky => m.bySticky case Sentinel => m.bySentinel case FailMode => m.byFailMode)
    case AllEscalations => m.bySticky + m.bySentinel + m.byFailMode
    case CloudCounts => m.tierCloud
    case Refusals => w.log.refusals
    case DenialsRecorded => w.shared.history.totalBudgetDenied
    case Denials => m.budgetDenied
    case LocalCounts => m.tierLocal
    case StaticCounts => m.tierStatic
    case _ => 0
  }

  predicate HasCounter(c: Column) {
    !c.CloudSends? && !c.LocalTries? && !c.StaticRequests? && !c.Standing?
  }

  lemma TriggerNamesDiffer(t: Trigger)
    ensures TriggerName(t) != BUDGET_DENIED
  {
    assert |BUDGET_DENIED| == 13;
  }

  predicate IsCloudColumn(c: Column) {
    c.Grants? || c.GrantsRecorded? || c.Escalations? || c.AllEscalations? || c.CloudCounts?
  }

  lemma {:induction false} StepCloudBooks(setup: Setup, w: World, i: nat, env: Env, c: Column)
    requires i < |w.requests| && WellFormed(w.requests[i]) && IsCloudColumn(c)
    ensures var w' := Apply(setup, w, Step(i, env));
            Shown(w', c) - Shown(w, c) == Entry(c, w'.requests[i]) - Entry(c, w.requests[i])
  {
    TriggerNamesDiffer(w.requests[i].trigger.GetOr(Sentinel));
  }

  lemma StepDenialBooks(setup: Setup, w: World, i: nat, env: Env, c: Column)
    requires i < |w.requests| && WellFormed(w.requests[i]) && (c.Refusals? || c.DenialsRecorded? || c.Denials?)
    ensures var w' := Apply(setup, w, Step(i, env));
            Shown(w', c) - Shown(w, c) == Entry(c, w'.requests[i]) - Entry(c, w.requests[i])
  {
    TriggerNamesDiffer(w.requests[i].trigger.GetOr(Sentinel));
  }

  lemma StepLocalBooks(setup: Setup, w: World, i: nat, env: Env, c: Column)
    requires i < |w.requests| && WellFormed(w.requests[i]) && (c.LocalCounts? || c.StaticCounts?)
    ensures var w' := Apply(setup, w, Step(i, env));
            Shown(w', c) - Shown(w, c) == Entry(c, w'.requests[i]) - Entry(c, w.requests[i])
  {
  }

  /** A step changes every counter by exactly what it changes in the request's own entry. */
  lemma StepBooks(setup: Setup, w: World, i: nat, env: Env, c: Column)
    requires i < |w.requests| && WellFormed(w.requests[i]) && HasCounter(c)
    ensures var w' := Apply(setup, w, Step(i, env));
            Shown(w', c) - Shown(w, c) == Entry(c, w'.requests[i]) - Entry(c, w.requests[i])
  {
    if IsCloudColumn(c) {
      StepCloudBooks(setup, w, i, env, c);
    } else if c.LocalCounts? || c.StaticCounts? {
      StepLocalBooks(setup, w, i, env, c);
    } else {
      StepDenialBooks(setup, w, i, env, c);
    }
  }

  predicate Booked(w: World, c: Column) {
    Shown(w, c) == Caused(w.requests, c)
  }

  lemma ApplyBooks(setup: Setup, w: World, a: Action, c: Column)
    requires HasCounter(c) && Booked(w, c) && Shapes(w)
    ensures Booked(Apply(setup, w, a), c)
  {
    match a {
      case Step(i, env) =>
        if i < |w.requests| {
          StepBooked(setup, w, i, env, c);
        }
      case Arrive(explicit, key) =>
        ArriveBooked(setup, w, explicit, key, c);
      case _ =>
        assert Apply(setup, w, a).requests == w.requests && Shown(Apply(setup, w, a), c) == Shown(w, c);
    }
  }

  lemma ArriveBooked(setup: Setup, w: World, explicit: bool, key: Option<string>, c: Column)
    requires HasCounter(c) && Booked(w, c)
    ensures Booked(Apply(setup, w, Arrive(explicit, key)), c)
  {
    SumAppend(w.requests, NewRequest(w.shared, explicit, key), r => Entry(c, r));
  }

  lemma StepBooked(setup: Setup, w: World, i: nat, env: Env, c: Column)
    requires i < |w.requests| && WellFormed(w.requests[i]) && HasCounter(c) && Booked(w, c)
    ensures Booked(Apply(setup, w, Step(i, env)), c)
  {
    StepBooks(setup, w, i, env, c);
    var w' := Apply(setup, w, Step(i, env));
    assert w'.requests == w.requests[i := w'.requests[i]];
    SumUpdate(w.requests, i, w'.requests[i], r => Entry(c, r));
  }

  lemma {:induction false} ReachableBooks(setup: Setup, clock: Instant, run: seq<Action>, c: Column)
    requires HasCounter(c)
    ensures Booked(After(setup, clock, run), c)
  {
    if run != [] {
      var init := run[..|run| - 1];
      ReachableBooks(setup, clock, init, c);
      ReachableShapes(setup, clock, init);
      ApplyBooks(setup, After(setup, clock, init), run[|run| - 1], c);
    }
  }

  /** Two columns of a well-formed request differ by where it stands. */
  lemma EntryGaps(r: Request)
    requires WellFormed(r)
    ensures Entry(Grants, r) == Entry(GrantsRecorded, r) + Entry(Standing({Mark, RecordGrant}), r)
    ensures Entry(GrantsRecorded, r) == Entry(AllEscalations, r) + Entry(Standing({CountEscalation}), r)
    ensures Entry(AllEscalations, r) == Entry(CloudCounts, r) + Entry(Standing({CountCloud}), r)
    ensures Entry(CloudCounts, r) == Entry(CloudSends, r) + Entry(Standing({SendCloud}), r)
  {
  }

  lemma EntryDenialGaps(r: Request)
    requires WellFormed(r)
    ensures Entry(Refusals, r) == Entry(DenialsRecorded, r) + Entry(Standing({RecordDenial}), r)
    ensures Entry(DenialsRecorded, r) == Entry(Denials, r) + Entry(Standing({CountDenied}), r)
    ensures Entry(LocalCounts, r) + Entry(Standing({CountFallback}), r)
         == Entry(LocalTries, r) + Entry(Standing({Attempt}), r) + Entry(Denials, r)
  {
  }

  lemma Gap(requests: seq<Request>, big: Column, small: Column, pcs: set<Pc>)
    requires forall i | 0 <= i < |requests| ::
               Entry(big, requests[i]) == Entry(small, requests[i]) + Entry(Standing(pcs), requests[i])
    ensures Caused(requests, big) == Caused(requests, small) + At(requests, pcs)
  {
    SumSplit(requests, r => Entry(big, r), r => Entry(small, r), r => Entry(Standing(pcs), r));
  }

  lemma {:induction false} LocalGap(requests: seq<Request>)
    requires forall i | 0 <= i < |requests| :: WellFormed(requests[i])
    ensures Caused(requests, LocalCounts) + At(requests, {CountFallback})
         == Caused(requests, LocalTries) + At(requests, {Attempt}) + Caused(requests, Denials)
  {
    if requests != [] {
      LocalGap(requests[1..]);
      EntryDenialGaps(requests[0]);
    }
  }

  /** Concurrent conservation: in every reachable world the grants, the history total, the
      per-trigger counters, the cloud counter and the cloud dispatches agree up to the requests
      standing between the steps concerned. */
  lemma Conservation(setup: Setup, clock: Instant, run: seq<Action>)
    ensures var w := After(setup, clock, run);
            var m, h, rs := w.shared.metrics, w.shared.history, w.requests;
            var escalations := m.bySticky + m.bySentinel + m.byFailMode;
            && |w.log.grants| == h.totalEscalations + At(rs, {Mark, RecordGrant})
            && h.totalEscalations == escalations + At(rs, {CountEscalation})
            && escalations == m.tierCloud + At(rs, {CountCloud})
            && m.tierCloud == Caused(rs, CloudSends) + At(rs, {SendCloud})
  {
    var rs := After(setup, clock, run).requests;
    ReachableShapes(setup, clock, run);
    ReachableBooks(setup, clock, run, Grants);
    ReachableBooks(setup, clock, run, GrantsRecorded);
    ReachableBooks(setup, clock, run, AllEscalations);
    ReachableBooks(setup, clock, run, CloudCounts);
    forall i | 0 <= i < |rs| {
      EntryGaps(rs[i]);
    }
    Gap(rs, Grants, GrantsRecorded, {Mark, RecordGrant});
    Gap(rs, GrantsRecorded, AllEscalations, {CountEscalation});
    Gap(rs, AllEscalations, CloudCounts, {CountCloud});
    Gap(rs, CloudCounts, CloudSends, {SendCloud});
  }

  /** Likewise for refusals and for the local tier: a local count stands for an attempt or for a
      denial answered locally. */
  lemma {:induction false} DenialConservation(setup: Setup, clock: Instant, run: seq<Action>)
    ensures var w := After(setup, clock, run);
            var m, h, rs := w.shared.metrics, w.shared.history, w.requests;
            && w.log.refusals == h.totalBudgetDenied + At(rs, {RecordDenial})
            && h.totalBudgetDenied == m.budgetDenied + At(rs, {CountDenied})
            && m.tierLocal + At(rs, {CountFallback}) == Caused(rs, LocalTries) + At(rs, {Attempt}) + m.budgetDenied
  {
    var rs := After(setup, clock, run).requests;
    ReachableShapes(setup, clock, run);
    ReachableBooks(setup, clock, run, Refusals);
    ReachableBooks(setup, clock, run, DenialsRecorded);
    ReachableBooks(setup, clock, run, Denials);
    ReachableBooks(setup, clock, run, LocalCounts);
    DenialGaps(rs);
  }

  lemma DenialGaps(rs: seq<Request>)
    requires forall i | 0 <= i < |rs| :: WellFormed(rs[i])
    ensures Caused(rs, Refusals) == Caused(rs, DenialsRecorded) + At(rs, {RecordDenial})
    ensures Caused(rs, DenialsRecorded) == Caused(rs, Denials) + At(rs, {CountDenied})
    ensures Caused(rs, LocalCounts) + At(rs, {CountFallback})
         == Caused(rs, LocalTries) + At(rs, {Attempt}) + Caused(rs, Denials)
  {
    forall i | 0 <= i < |rs| {
      EntryDenialGaps(rs[i]);
    }
    Gap(rs, Refusals, DenialsRecorded, {RecordDenial});
    Gap(rs, DenialsRecorded, Denials, {CountDenied});
    LocalGap(rs);
  }

  /** Each trigger's counter counts the granted requests of that trigger that have passed it. */
  lemma TriggerCounts(setup: Setup, clock: Instant, run: seq<Action>, t: Trigger)
    ensures var w := After(setup, clock, run);
            Shown(w, Escalations(t)) == Caused(w.requests, Escalations(t))
  {
    ReachableBooks(setup, clock, run, Escalations(t));
  }

  /** The static counter counts exactly the requests that came with a route of their own. */
  lemma StaticConservation(setup: Setup, clock: Instant, run: seq<Action>)
    ensures var w := After(setup, clock, run);
            Caused(w.requests, StaticRequests) == w.shared.metrics.tierStatic + At(w.requests, {CountStatic})
  {
    var rs := After(setup, clock, run).requests;
    ReachableShapes(setup, clock, run);
    ReachableBooks(setup, clock, run, StaticCounts);
    forall i | 0 <= i < |rs| {
      EntryStaticGap(rs[i]);
    }
    Gap(rs, StaticRequests, StaticCounts, {CountStatic});
  }

  lemma EntryStaticGap(r: Request)
    requires WellFormed(r)
    ensures Entry(StaticRequests, r) == Entry(StaticCounts, r) + Entry(Standing({CountStatic}), r)
  {
  }

  predicate Quiescent(w: World) {
    forall i | 0 <= i < |w.requests| :: w.requests[i].pc == Finished
  }

  lemma {:induction false} NobodyAt(requests: seq<Request>, pcs: set<Pc>)
    requires Finished !in pcs
    requires forall i | 0 <= i < |requests| :: requests[i].pc == Finished
    ensures At(requests, pcs) == 0
  {
    if requests != [] {
      assert Entry(Standing(pcs), requests[0]) == 0;
      NobodyAt(requests[1..], pcs);
    }
  }

  /** When every request has finished, the books balance exactly. */
  lemma QuiescentBalance(setup: Setup, clock: Instant, run: seq<Action>)
    requires Quiescent(After(setup, clock, run))
    ensures var w := After(setup, clock, run);
            var m, h, rs := w.shared.metrics, w.shared.history, w.requests;
            && |w.log.grants| == h.totalEscalations == m.bySticky + m.bySentinel + m.byFailMode
            && m.tierCloud == |w.log.grants| == Caused(rs, CloudSends)
            && w.log.refusals == h.totalBudgetDenied == m.budgetDenied
            && m.tierLocal == Caused(rs, LocalTries) + m.budgetDenied
            && m.tierStatic == Caused(rs, StaticRequests)
  {
    Conservation(setup, clock, run);
    DenialConservation(setup, clock, run);
    var rs := After(setup, clock, run).requests;
    NobodyAt(rs, {Mark, RecordGrant});
    NobodyAt(rs, {CountEscalation});
    NobodyAt(rs, {CountCloud});
    NobodyAt(rs, {SendCloud});
    NobodyAt(rs, {RecordDenial});
    NobodyAt(rs, {CountDenied});
    NobodyAt(rs, {CountFallback});
    NobodyAt(rs, {Attempt});
    StaticConservation(setup, clock, run);
    NobodyAt(rs, {CountStatic});
  }

  // ----- The history is the log of events -----

  lemma {:induction false} HistoryIsLog(setup: Setup, clock: Instant, run: seq<Action>)
    ensures After(setup, clock, run).shared.history == RecordAll(After(setup, clock, run).log.records)
  {
    if run != [] {
      var init, a := run[..|run| - 1], run[|run| - 1];
      HistoryIsLog(setup, clock, init);
      var w, w' := After(setup, clock, init), After(setup, clock, run);
      if w'.log.records != w.log.records {
        assert w'.log.records[..|w'.log.records| - 1] == w.log.records;
      }
    }
  }

  // ----- Reservations -----

  /** Grants and granted requests correspond one to one. */
  predicate Owned(w: World) {
    && |w.log.owners| == |w.log.grants|
    && (forall s | 0 <= s < |w.log.owners| ::
          && w.log.owners[s] < |w.requests|
          && w.requests[w.log.owners[s]].decision == Granted(s))
    && (forall i | 0 <= i < |w.requests| && w.requests[i].decision.Granted? ::
          && w.requests[i].decision.slot < |w.log.owners|
          && w.log.owners[w.requests[i].decision.slot] == i)
  }

  lemma StepOwned(setup: Setup, w: World, i: nat, env: Env)
    requires Owned(w) && i < |w.requests| && WellFormed(w.requests[i])
    ensures Owned(Apply(setup, w, Step(i, env)))
  {
    var rq := w.requests[i];
    var w' := Apply(setup, w, Step(i, env));
    var rq' := w'.requests[i];
    if rq.pc.Reserving? && rq'.decision.Granted? {
      var n := |w.log.owners|;
      assert rq'.decision == Granted(n) && w'.log.owners == w.log.owners + [i];
      forall s | 0 <= s < |w'.log.owners|
        ensures w'.log.owners[s] < |w'.requests| && w'.requests[w'.log.owners[s]].decision == Granted(s)
      {
        if s < n {
          assert w.requests[w.log.owners[s]].decision == Granted(s);
        }
      }
    } else {
      assert rq'.decision.Granted? <==> rq.decision.Granted?;
      assert w'.log.owners == w.log.owners;
      assert rq.decision.Granted? ==> rq'.decision == rq.decision;
    }
  }

  lemma {:induction false} ReachableOwned(setup: Setup, clock: Instant, run: seq<Action>)
    ensures Owned(After(setup, clock, run))
  {
    if run != [] {
      var init, a := run[..|run| - 1], run[|run| - 1];
      ReachableOwned(setup, clock, init);
      ReachableShapes(setup, clock, init);
      var w := After(setup, clock, init);
      if a.Step? && a.i < |w.requests| {
        StepOwned(setup, w, a.i, a.env);
      }
    }
  }

  /** Every cloud dispatch stands on a granted reservation of its own, and every request sends at
      most twice, the cloud being reached only with a grant. */
  lemma DispatchesAreReserved(setup: Setup, clock: Instant, run: seq<Action>, i: nat, j: nat)
    requires i < |After(setup, clock, run).requests| && j < |After(setup, clock, run).requests|
    ensures var w := After(setup, clock, run);
            var ri, rj := w.requests[i], w.requests[j];
            && |ri.dispatches| <= 2
            && multiset(ri.dispatches)[ToCloud] <= 1
            && (ToCloud in ri.dispatches ==> ri.decision.Granted? && ri.decision.slot < |w.log.grants|)
            && (ri.pc == Finished && !ri.explicit ==> (ToCloud in ri.dispatches <==> ri.decision.Granted?))
            && (i != j && ri.decision.Granted? && rj.decision.Granted? ==> ri.decision.slot != rj.decision.slot)
            && (ri.explicit ==> ri.decision.Undecided? && ToCloud !in ri.dispatches && ToLocal !in ri.dispatches)
  {
    ReachableShapes(setup, clock, run);
    ReachableOwned(setup, clock, run);
  }

  /** The budget inside the protocol: whatever the interleaving, with requests delayed between
      reading the clock and getting the lock by at most the observed lag, every interval of an hour
      less that lag holds at most the cap of granted stamps. */
  predicate BudgetKept(setup: Setup, w: World, from: Instant) {
    && Accounts(w.shared.calls, w.log.grants, w.clock)
    && |w.shared.calls| <= setup.cfg.maxCloudRequestsPerHour
    && (forall i | 0 <= i < |w.requests| && w.requests[i].pc.Reserving? :: w.requests[i].pc.now <= w.clock)
    && CountIn(w.log.grants, from, HOUR - w.log.lag) <= setup.cfg.maxCloudRequestsPerHour
  }

  lemma ReserveKeepsBudget(setup: Setup, w: World, i: nat, env: Env, from: Instant)
    requires BudgetKept(setup, w, from)
    requires i < |w.requests| && w.requests[i].pc.Reserving?
    ensures BudgetKept(setup, Apply(setup, w, Step(i, env)), from)
  {
    var w' := Apply(setup, w, Step(i, env));
    ReserveLedger(w.shared.calls, w.log.grants, w.clock, w.requests[i].pc.now, w.log.lag, w'.log.lag,
                  setup.cfg.maxCloudRequestsPerHour, from);
  }

  lemma ReserveLedger(calls: seq<Instant>, grants: seq<Instant>, clock: Instant, now: Instant,
                      lag: nat, lag': nat, cap: u32, from: Instant)
    requires Accounts(calls, grants, clock) && |calls| <= cap
    requires now <= clock && clock - now <= lag' && lag <= lag'
    requires CountIn(grants, from, HOUR - lag) <= cap
    ensures var (calls', granted) := TryReserve(calls, now, cap);
            var grants' := if granted then grants + [now] else grants;
            && Accounts(calls', grants', clock) && |calls'| <= cap
            && CountIn(grants', from, HOUR - lag') <= cap
  {
    var kept := Pruned(calls, now);
    PruneAccounts(calls, grants, clock, now, clock);
    FitsU32(|kept|, cap);
    CountInShrinks(grants, from, HOUR - lag, HOUR - lag');
    if |kept| < cap {
      GrantKeepsWindow(kept, grants, clock, now, lag', cap, from);
      GrantAccounts(kept, grants, clock, now);
    }
  }

  lemma OtherStepKeepsBudget(setup: Setup, w: World, i: nat, env: Env, from: Instant)
    requires BudgetKept(setup, w, from)
    requires i < |w.requests| && !w.requests[i].pc.Reserving?
    ensures BudgetKept(setup, Apply(setup, w, Step(i, env)), from)
  {
    var w' := Apply(setup, w, Step(i, env));
    assert w'.shared.calls == w.shared.calls && w'.log.grants == w.log.grants && w'.log.lag == w.log.lag;
  }

  lemma ApplyKeepsBudget(setup: Setup, w: World, a: Action, from: Instant)
    requires BudgetKept(setup, w, from)
    ensures BudgetKept(setup, Apply(setup, w, a), from)
  {
    match a {
      case Step(i, env) =>
        if i < |w.requests| {
          if w.requests[i].pc.Reserving? {
            ReserveKeepsBudget(setup, w, i, env, from);
          } else {
            OtherStepKeepsBudget(setup, w, i, env, from);
          }
        }
      case ReadBudget(now) =>
        if now <= w.clock {
          PruneAccounts(w.shared.calls, w.log.grants, w.clock, now, w.clock);
        }
      case Arrive(_, _) =>
      case Tick(_) =>
    }
  }

  lemma {:induction false} ReachableBudget(setup: Setup, clock: Instant, run: seq<Action>, from: Instant)
    ensures BudgetKept(setup, After(setup, clock, run), from)
  {
    if run != [] {
      ReachableBudget(setup, clock, run[..|run| - 1], from);
      ApplyKeepsBudget(setup, After(setup, clock, run[..|run| - 1]), run[|run| - 1], from);
    }
  }

  // ----- Stickiness -----

  /** Every sticky key was put there for a granted request. */
  predicate StickyEarned(w: World) {
    forall k | k in w.shared.sticky :: w.shared.sticky[k] == Cloud && GrantedFor(w.requests, k)
  }

  predicate GrantedFor(requests: seq<Request>, k: string) {
    exists i :: 0 <= i < |requests| && requests[i].key == Some(k) && requests[i].decision.Granted?
  }

  /** Each sticky key has used up a grant, and requests about to mark hold one each. */
  predicate StickyCounted(w: World) {
    |w.shared.sticky| + At(w.requests, {Mark}) <= |w.log.grants|
  }

  lemma StepStickyEarned(setup: Setup, w: World, i: nat, env: Env)
    requires StickyEarned(w) && i < |w.requests| && WellFormed(w.requests[i])
    ensures StickyEarned(Apply(setup, w, Step(i, env)))
  {
    var rq := w.requests[i];
    var w' := Apply(setup, w, Step(i, env));
    forall k | k in w'.shared.sticky
      ensures w'.shared.sticky[k] == Cloud && GrantedFor(w'.requests, k)
    {
      if k in w.shared.sticky {
        var j :| 0 <= j < |w.requests| && w.requests[j].key == Some(k) && w.requests[j].decision.Granted?;
        assert w'.requests[j].key == Some(k) && w'.requests[j].decision.Granted?;
      } else {
        assert w'.requests[i].key == Some(k) && w'.requests[i].decision.Granted?;
      }
    }
  }

  lemma StepStickyCounted(setup: Setup, w: World, i: nat, env: Env)
    requires StickyCounted(w) && i < |w.requests|
    ensures StickyCounted(Apply(setup, w, Step(i, env)))
  {
    var rq' := Apply(setup, w, Step(i, env)).requests[i];
    MarkStep(setup, w, i, env);
    SumUpdate(w.requests, i, rq', r => Entry(Standing({Mark}), r));
  }

  /** A grant pays for the mark to come, and the mark for at most one key. */
  lemma MarkStep(setup: Setup, w: World, i: nat, env: Env)
    requires i < |w.requests|
    ensures var w' := Apply(setup, w, Step(i, env));
            (|w'.shared.sticky| + Bit(w'.requests[i].pc == Mark) - |w'.log.grants|
             <= |w.shared.sticky| + Bit(w.requests[i].pc == Mark) - |w.log.grants|)
  {
    var rq := w.requests[i];
    if rq.pc == Mark && rq.key.Some? {
      OneMoreKey(w.shared.sticky, rq.key.value);
    }
  }

  lemma OneMoreKey(sticky: map<string, Tier>, key: string)
    ensures |sticky[key := Cloud]| <= |sticky| + 1
  {
    assert sticky[key := Cloud].Keys == sticky.Keys + {key};
  }

  lemma ArriveSticky(setup: Setup, w: World, explicit: bool, key: Option<string>)
    requires StickyEarned(w) && StickyCounted(w)
    ensures var w' := Apply(setup, w, Arrive(explicit, key));
            StickyEarned(w') && StickyCounted(w')
  {
    var w' := Apply(setup, w, Arrive(explicit, key));
    SumAppend(w.requests, NewRequest(w.shared, explicit, key), r => Entry(Standing({Mark}), r));
    forall k | k in w'.shared.sticky
      ensures GrantedFor(w'.requests, k)
    {
      var j :| 0 <= j < |w.requests| && w.requests[j].key == Some(k) && w.requests[j].decision.Granted?;
      assert w'.requests[j] == w.requests[j];
    }
  }

  lemma ApplySticky(setup: Setup, w: World, a: Action)
    requires StickyEarned(w) && StickyCounted(w) && Shapes(w)
    ensures var w' := Apply(setup, w, a);
            StickyEarned(w') && StickyCounted(w')
  {
    match a {
      case Step(i, env) =>
        if i < |w.requests| {
          StepStickyEarned(setup, w, i, env);
          StepStickyCounted(setup, w, i, env);
        }
      case Arrive(explicit, key) =>
        ArriveSticky(setup, w, explicit, key);
      case Tick(_) =>
      case ReadBudget(_) =>
    }
  }

  /** Stickiness is earned: in every reachable world each sticky key belongs to a request that was
      granted a reservation, and there are never more sticky keys than grants. */
  lemma {:induction false} ReachableSticky(setup: Setup, clock: Instant, run: seq<Action>)
    ensures StickyEarned(After(setup, clock, run)) && StickyCounted(After(setup, clock, run))
  {
    if run != [] {
      var init := run[..|run| - 1];
      ReachableSticky(setup, clock, init);
      ReachableShapes(setup, clock, init);
      ApplySticky(setup, After(setup, clock, init), run[|run| - 1]);
    }
  }

  /** Every granted request that has passed its mark has made its conversation sticky. */
  predicate GrantsStick(w: World) {
    forall i | 0 <= i < |w.requests| ::
      var r := w.requests[i];
      r.decision.Granted? && r.pc != Mark && r.key.Some? ==> IsSticky(w.shared, r.key)
  }

  lemma StepSticks(setup: Setup, clock: Instant, slot: nat, sh: Shared, rq: Request, env: Env)
    requires WellFormed(rq)
    requires rq.decision.Granted? && rq.pc != Mark && rq.key.Some? ==> IsSticky(sh, rq.key)
    ensures var (sh', rq') := StepRequest(setup, clock, slot, sh, rq, env);
            rq'.decision.Granted? && rq'.pc != Mark && rq'.key.Some? ==> IsSticky(sh', rq'.key)
  {
  }

  lemma ApplySticks(setup: Setup, w: World, a: Action)
    requires Shapes(w) && GrantsStick(w)
    ensures GrantsStick(Apply(setup, w, a))
  {
    ApplyShapes(setup, w, a);
    if a.Step? && a.i < |w.requests| {
      StepSticks(setup, w.clock, |w.log.grants|, w.shared, w.requests[a.i], a.env);
    }
  }

  /** Granting makes sticky: in every reachable world the conversation of a granted request is sticky
      as soon as the request has taken the step that marks it. */
  lemma {:induction false} GrantedIsSticky(setup: Setup, clock: Instant, run: seq<Action>)
    ensures GrantsStick(After(setup, clock, run))
  {
    if run != [] {
      var init := run[..|run| - 1];
      GrantedIsSticky(setup, clock, init);
      ReachableShapes(setup, clock, init);
      ApplySticks(setup, After(setup, clock, init), run[|run| - 1]);
    }
  }

  /** Along a run a sticky key stays, and requests are only ever added. */
  lemma {:induction false} RunGrows(setup: Setup, clock: Instant, run: seq<Action>, more: seq<Action>)
    ensures var w, w' := After(setup, clock, run), After(setup, clock, run + more);
            StickyGrows(w.shared, w'.shared) && |w.requests| <= |w'.requests|
  {
    if more == [] {
      Plus(run);
    } else {
      var n := |more| - 1;
      RunGrows(setup, clock, run, more[..n]);
      assert (run + more)[..|run + more| - 1] == run + more[..n];
      ReachableShapes(setup, clock, run + more[..n]);
      ApplyShapes(setup, After(setup, clock, run + more[..n]), more[n]);
    }
  }

  /** A cascade request that arrives once its key is sticky knows it. */
  lemma {:induction false} LateArrivalsAreSticky(setup: Setup, clock: Instant, run: seq<Action>, more: seq<Action>,
                                                 k: string, i: nat)
    requires IsSticky(After(setup, clock, run).shared, Some(k))
    requires |After(setup, clock, run).requests| <= i < |After(setup, clock, run + more).requests|
    requires After(setup, clock, run + more).requests[i].key == Some(k)
    requires !After(setup, clock, run + more).requests[i].explicit
    ensures After(setup, clock, run + more).requests[i].bornSticky
  {
    if more == [] {
      Plus(run);
    } else {
      var n := |more| - 1;
      var longer := run + more[..n];
      assert (run + more)[..|run + more| - 1] == longer;
      var w, w' := After(setup, clock, longer), After(setup, clock, run + more);
      RunGrows(setup, clock, run, more[..n]);
      ReachableShapes(setup, clock, longer);
      assert w' == Apply(setup, w, more[n]);
      if i < |w.requests| {
        ApplyKeepsIdentity(setup, w, more[n], i);
        LateArrivalsAreSticky(setup, clock, run, more[..n], k, i);
      } else {
        ArrivalKnows(setup, w, more[n], i);
      }
    }
  }

  lemma ApplyKeepsIdentity(setup: Setup, w: World, a: Action, i: nat)
    requires Shapes(w) && i < |w.requests|
    ensures var w' := Apply(setup, w, a);
            && i < |w'.requests| && w'.requests[i].key == w.requests[i].key
            && w'.requests[i].explicit == w.requests[i].explicit && w'.requests[i].bornSticky == w.requests[i].bornSticky
  {
    if a.Step? && a.i < |w.requests| {
      StepIdentity(setup, w.clock, |w.log.grants|, w.shared, w.requests[a.i], a.env);
    }
  }

  lemma ArrivalKnows(setup: Setup, w: World, a: Action, i: nat)
    requires |w.requests| <= i < |Apply(setup, w, a).requests|
    ensures var r := Apply(setup, w, a).requests[i];
            r.bornSticky <==> !r.explicit && IsSticky(w.shared, r.key)
  {
  }

  /** Sticky runs: once a key is marked, no later request of that conversation ever makes the
      instrumented local attempt; it reaches the cloud exactly when its own reservation is granted,
      and a refusal does not end the stickiness. */
  lemma StickyRun(setup: Setup, clock: Instant, run: seq<Action>, more: seq<Action>, k: string, i: nat)
    requires IsSticky(After(setup, clock, run).shared, Some(k))
    requires |After(setup, clock, run).requests| <= i < |After(setup, clock, run + more).requests|
    requires After(setup, clock, run + more).requests[i].key == Some(k)
    requires !After(setup, clock, run + more).requests[i].explicit
    ensures var w := After(setup, clock, run + more);
            var r := w.requests[i];
            && IsSticky(w.shared, Some(k))
            && r.pc != CountLocal && r.pc != Attempt && ToLocal !in r.dispatches
            && (r.pc == Finished ==>
                  && r.trigger == Some(Sticky)
                  && (r.decision.Granted? ==> r.dispatches == [ToCloud])
                  && (!r.decision.Granted? ==> r.decision.Refused? && r.dispatches == [ToFallback]))
  {
    LateArrivalsAreSticky(setup, clock, run, more, k, i);
    ReachableShapes(setup, clock, run + more);
  }
}
