/** The sliding one-hour budget of cloud calls (src/orchestrator.rs). Clock readings are taken
    before the lock, so stamps may reach the deque out of order. */
module Budget {
  import opened Text

  /** A clock reading in nanoseconds. */
  type Instant = int

  type u32 = n: int | 0 <= n < 0x1_0000_0000

  const HOUR: int := 3_600_000_000_000

  /** `now.duration_since(t)`: zero for a `t` later than `now`. */
  function DurationSince(now: Instant, t: Instant): nat {
    if t <= now then now - t else 0
  }

  predicate Aged(now: Instant, t: Instant) {
    DurationSince(now, t) >= HOUR
  }

  /** What prune_window leaves: it stops at the first stamp that is not aged. */
  function Pruned(calls: seq<Instant>, now: Instant): seq<Instant> {
    if calls != [] && Aged(now, calls[0]) then Pruned(calls[1..], now) else calls
  }

  /** `len as u32` */
  function AsU32(n: nat): u32 {
    n % 0x1_0000_0000
  }

  /** One reservation: the new deque and whether it was granted. */
  function TryReserve(calls: seq<Instant>, now: Instant, cap: u32): (seq<Instant>, bool) {
    var kept := Pruned(calls, now);
    if AsU32(|kept|) < cap then (kept + [now], true) else (kept, false)
  }

  /** Pruning removes a prefix, all of it aged, and leaves nothing aged in front. */
  lemma {:induction false} PrunedIsSuffix(calls: seq<Instant>, now: Instant) returns (n: nat)
    ensures n <= |calls| && Pruned(calls, now) == calls[n..]
    ensures forall i | 0 <= i < n :: Aged(now, calls[i])
    ensures n < |calls| ==> !Aged(now, calls[n])
  {
    if calls != [] && Aged(now, calls[0]) {
      n := PrunedIsSuffix(calls[1..], now);
      n := n + 1;
    } else {
      n := 0;
    }
  }

  /** How many stamps fall into the half-open interval `[from, from + len)`. */
  function CountIn(stamps: seq<Instant>, from: Instant, len: int): nat {
    if stamps == [] then 0
    else (if from <= stamps[0] < from + len then 1 else 0) + CountIn(stamps[1..], from, len)
  }

  lemma {:induction false} CountInAppend(a: seq<Instant>, b: seq<Instant>, from: Instant, len: int)
    ensures CountIn(a + b, from, len) == CountIn(a, from, len) + CountIn(b, from, len)
  {
    if a == [] {
      Plus(b);
    } else {
      AppendTail(a, b);
      CountInAppend(a[1..], b, from, len);
    }
  }

  lemma {:induction false} CountInAtMost(stamps: seq<Instant>, from: Instant, len: int)
    ensures CountIn(stamps, from, len) <= |stamps|
  {
    if stamps != [] {
      CountInAtMost(stamps[1..], from, len);
    }
  }

  lemma {:induction false} CountInNone(stamps: seq<Instant>, from: Instant, len: int)
    requires forall i | 0 <= i < |stamps| :: !(from <= stamps[i] < from + len)
    ensures CountIn(stamps, from, len) == 0
  {
    if stamps != [] {
      CountInNone(stamps[1..], from, len);
    }
  }

  lemma {:induction false} CountInShrinks(stamps: seq<Instant>, from: Instant, len: int, shorter: int)
    requires shorter <= len
    ensures CountIn(stamps, from, shorter) <= CountIn(stamps, from, len)
  {
    if stamps != [] {
      CountInShrinks(stamps[1..], from, len, shorter);
    }
  }

  /** The deque is what is left of the grant log after `popped` of its oldest entries, each an
      hour older than the latest reading any call has presented. */
  predicate Accounts(calls: seq<Instant>, grants: seq<Instant>, latest: Instant) {
    && |calls| <= |grants|
    && calls == grants[|grants| - |calls|..]
    && forall i | 0 <= i < |grants| - |calls| :: grants[i] + HOUR <= latest
  }

  lemma PruneAccounts(calls: seq<Instant>, grants: seq<Instant>, latest: Instant, now: Instant, latest': Instant)
    requires Accounts(calls, grants, latest)
    requires latest <= latest' && now <= latest'
    ensures Accounts(Pruned(calls, now), grants, latest')
    ensures |Pruned(calls, now)| <= |calls|
  {
    var n := PrunedIsSuffix(calls, now);
    var p := |grants| - |calls|;
    forall i | 0 <= i < p + n
      ensures grants[i] + HOUR <= latest'
    {
      if p <= i {
        assert grants[i] == calls[i - p];
      }
    }
  }

  /** The step that carries the bound: a granted stamp behind the latest reading by at most `lag`
      shares no window of length HOUR - lag with any stamp already popped. */
  lemma GrantKeepsWindow(calls: seq<Instant>, grants: seq<Instant>, latest: Instant, now: Instant,
                         lag: int, cap: u32, from: Instant)
    requires Accounts(calls, grants, latest) && |calls| < cap
    requires latest - now <= lag
    requires CountIn(grants, from, HOUR - lag) <= cap
    ensures CountIn(grants + [now], from, HOUR - lag) <= cap
  {
    var len := HOUR - lag;
    var p := |grants| - |calls|;
    TakeDrop(grants, p);
    CountInAppend(grants, [now], from, len);
    CountInAppend(grants[..p], calls, from, len);
    CountInAtMost(calls, from, len);
    CountInAtMost([now], from, len);
    if from <= now < from + len {
      CountInNone(grants[..p], from, len);
    } else {
      CountInNone([now], from, len);
    }
  }

  // ----- Runs of interleaved calls -----

  datatype Call = Reserve(now: Instant) | Read(now: Instant)

  /** The deque, and the log of what was granted and answered. */
  datatype Ledger = Ledger(calls: seq<Instant>, grants: seq<Instant>, answers: seq<bool>)

  function Step(l: Ledger, c: Call, cap: u32): Ledger {
    match c
    case Read(now) => l.(calls := Pruned(l.calls, now))
    case Reserve(now) =>
      var (calls, granted) := TryReserve(l.calls, now, cap);
      Ledger(calls, if granted then l.grants + [now] else l.grants, l.answers + [granted])
  }

  function Run(run: seq<Call>, cap: u32): Ledger {
    if run == [] then Ledger([], [], [])
    else Step(Run(run[..|run| - 1], cap), run[|run| - 1], cap)
  }

  function Latest(run: seq<Call>): Instant
    requires run != []
  {
    var now := run[|run| - 1].now;
    if |run| == 1 then now
    else
      var before := Latest(run[..|run| - 1]);
      if before < now then now else before
  }

  lemma {:induction false} LatestIsMax(run: seq<Call>)
    requires run != []
    ensures forall i | 0 <= i < |run| :: run[i].now <= Latest(run)
    ensures exists i :: 0 <= i < |run| && run[i].now == Latest(run)
  {
    if |run| > 1 {
      var init := run[..|run| - 1];
      LatestIsMax(init);
      var i :| 0 <= i < |init| && init[i].now == Latest(init);
      assert run[i].now == Latest(init);
      assert forall j | 0 <= j < |init| :: run[j] == init[j];
    }
    assert run[|run| - 1].now <= Latest(run);
  }

  /** Every reservation's reading is behind the largest earlier reading by at most `d`. */
  predicate LagsAtMost(run: seq<Call>, d: nat) {
    forall i, j | 0 <= i < j < |run| && run[j].Reserve? :: run[i].now - run[j].now <= d
  }

  /** The cast to u32 never truncates, and the deque is a suffix of the grant log. */
  lemma {:induction false} DequeBounded(run: seq<Call>, cap: u32)
    ensures var l := Run(run, cap);
            && |l.calls| <= cap && AsU32(|l.calls|) == |l.calls|
            && (run == [] ==> l.grants == [])
            && (run != [] ==> Accounts(l.calls, l.grants, Latest(run)))
  {
    if run != [] {
      var init, c := run[..|run| - 1], run[|run| - 1];
      DequeBounded(init, cap);
      StepAccounts(Run(init, cap), c, cap, Before(init, c.now), Latest(run));
    }
    FitsU32(|Run(run, cap).calls|, cap);
  }

  /** The largest reading before a call made at `now`. */
  function Before(init: seq<Call>, now: Instant): Instant {
    if init == [] then now else Latest(init)
  }

  lemma FitsU32(n: nat, cap: u32)
    requires n <= cap
    ensures AsU32(n) == n
  {
  }

  lemma GrantAccounts(calls: seq<Instant>, grants: seq<Instant>, latest: Instant, now: Instant)
    requires Accounts(calls, grants, latest)
    ensures Accounts(calls + [now], grants + [now], latest)
  {
    var p := |grants| - |calls|;
    assert (grants + [now])[p..] == grants[p..] + [now];
    assert forall i | 0 <= i < p :: (grants + [now])[i] == grants[i];
  }

  lemma StepAccounts(l: Ledger, c: Call, cap: u32, latest: Instant, latest': Instant)
    requires Accounts(l.calls, l.grants, latest) && |l.calls| <= cap
    requires latest <= latest' && c.now <= latest'
    ensures var l' := Step(l, c, cap);
            Accounts(l'.calls, l'.grants, latest') && |l'.calls| <= cap
  {
    PruneAccounts(l.calls, l.grants, latest, c.now, latest');
    GrantAccounts(Pruned(l.calls, c.now), l.grants, latest', c.now);
  }

  lemma LastLag(run: seq<Call>, d: nat)
    requires run != [] && LagsAtMost(run, d)
    ensures LagsAtMost(run[..|run| - 1], d)
    ensures run[|run| - 1].Reserve? ==> Latest(run) - run[|run| - 1].now <= d
  {
    LatestIsMax(run);
    var i :| 0 <= i < |run| && run[i].now == Latest(run);
  }

  lemma StepKeepsWindow(l: Ledger, c: Call, cap: u32, latest: Instant, latest': Instant, d: nat, from: Instant)
    requires Accounts(l.calls, l.grants, latest) && |l.calls| <= cap
    requires latest <= latest' && c.now <= latest'
    requires c.Reserve? ==> latest' - c.now <= d
    requires CountIn(l.grants, from, HOUR - d) <= cap
    ensures CountIn(Step(l, c, cap).grants, from, HOUR - d) <= cap
  {
    var kept := Pruned(l.calls, c.now);
    PruneAccounts(l.calls, l.grants, latest, c.now, latest');
    FitsU32(|kept|, cap);
    if c.Reserve? && |kept| < cap {
      GrantKeepsWindow(kept, l.grants, latest', c.now, d, cap, from);
    }
  }

  /** Budget safety with late stamps: if no reservation is more than `d` behind, every half-open
      interval of an hour less `d` holds at most the cap. With `d` zero: every hour. */
  lemma {:induction false} BudgetSafety(run: seq<Call>, cap: u32, d: nat, from: Instant)
    requires LagsAtMost(run, d)
    ensures CountIn(Run(run, cap).grants, from, HOUR - d) <= cap
  {
    if run != [] {
      var init, c := run[..|run| - 1], run[|run| - 1];
      LastLag(run, d);
      BudgetSafety(init, cap, d, from);
      DequeBounded(init, cap);
      StepKeepsWindow(Run(init, cap), c, cap, Before(init, c.now), Latest(run), d, from);
    }
  }

  /** No run whose reservations lag by at most `d` puts more than `cap` grants into an interval of
      length `len`. */
  ghost predicate WindowSafe(cap: u32, d: nat, len: int) {
    forall run: seq<Call>, from: Instant | LagsAtMost(run, d) :: CountIn(Run(run, cap).grants, from, len) <= cap
  }

  /** The bound is exact, for every cap and every lag: a window is safe if and only if it is at
      most an hour - 3600 seconds - less the lag. The full hour is safe only without lag. */
  lemma SafeWindowIff(cap: u32, d: nat, len: int)
    requires cap > 0
    ensures WindowSafe(cap, d, len) <==> len <= 3_600 * 1_000_000_000 - d || len <= 0
  {
    if len <= HOUR - d || len <= 0 {
      forall run: seq<Call>, from: Instant | LagsAtMost(run, d)
        ensures CountIn(Run(run, cap).grants, from, len) <= cap
      {
        ShortWindow(run, cap, d, from, len);
      }
    } else {
      var run := LongWindow(cap, d, len);
    }
  }

  lemma ShortWindow(run: seq<Call>, cap: u32, d: nat, from: Instant, len: int)
    requires LagsAtMost(run, d) && (len <= HOUR - d || len <= 0)
    ensures CountIn(Run(run, cap).grants, from, len) <= cap
  {
    if len <= 0 {
      CountInNone(Run(run, cap).grants, from, len);
    } else {
      BudgetSafety(run, cap, d, from);
      CountInShrinks(Run(run, cap).grants, from, HOUR - d, len);
    }
  }

  /** A full burst, a read an hour later and one late reservation overfill any longer window. */
  lemma LongWindow(cap: u32, d: nat, len: int) returns (run: seq<Call>)
    requires cap > 0 && len > HOUR - d && len > 0
    ensures LagsAtMost(run, d) && CountIn(Run(run, cap).grants, 0, len) > cap
  {
    var last := if d < HOUR then HOUR - d else 0;
    var burst := seq(cap, _ => Reserve(0));
    run := burst + [Read(HOUR)] + [Reserve(last)];
    LateLag(burst, last, d);
    var zeros := BurstThenLate(burst, cap, last);
    CountInZeros(zeros, len);
    CountInAppend(zeros, [last], 0, len);
    assert CountIn([last], 0, len) == 1;
  }

  predicate AllZero(s: seq<Instant>) {
    forall i | 0 <= i < |s| :: s[i] == 0
  }

  lemma {:induction false} CountInZeros(zeros: seq<Instant>, len: int)
    requires AllZero(zeros) && len > 0
    ensures CountIn(zeros, 0, len) == |zeros|
  {
    if zeros != [] {
      CountInZeros(zeros[1..], len);
    }
  }

  lemma RunStep(run: seq<Call>, c: Call, cap: u32)
    ensures Run(run + [c], cap) == Step(Run(run, cap), c, cap)
  {
    assert (run + [c])[..|run|] == run;
  }

  predicate AllReserveZero(burst: seq<Call>) {
    forall i | 0 <= i < |burst| :: burst[i] == Reserve(0)
  }

  /** Every reservation of a burst was granted and is still in the deque. */
  predicate Granted(l: Ledger, n: nat) {
    l.calls == l.grants && |l.calls| == n && AllZero(l.calls)
  }

  lemma BurstStep(l: Ledger, n: nat, cap: u32)
    requires n < cap && Granted(l, n)
    ensures Granted(Step(l, Reserve(0), cap), n + 1)
  {
    FitsU32(n, cap);
    assert Pruned(l.calls, 0) == l.calls;
  }

  lemma {:induction false} BurstRuns(burst: seq<Call>, cap: u32)
    requires AllReserveZero(burst) && |burst| <= cap
    ensures Granted(Run(burst, cap), |burst|)
  {
    if burst != [] {
      var init := burst[..|burst| - 1];
      assert AllReserveZero(init);
      BurstRuns(init, cap);
      BurstStep(Run(init, cap), |init|, cap);
      assert burst[|burst| - 1] == Reserve(0);
    }
  }

  /** A read an hour later empties the deque, and a late reservation is granted on top. */
  lemma BurstThenLate(burst: seq<Call>, cap: u32, last: Instant) returns (zeros: seq<Instant>)
    requires AllReserveZero(burst) && |burst| == cap > 0 && 0 <= last
    ensures AllZero(zeros) && |zeros| == cap
    ensures Run(burst + [Read(HOUR)] + [Reserve(last)], cap).grants == zeros + [last]
    ensures Run(burst + [Read(HOUR)] + [Reserve(last)], cap).answers == Run(burst, cap).answers + [true]
  {
    BurstRuns(burst, cap);
    RunStep(burst, Read(HOUR), cap);
    RunStep(burst + [Read(HOUR)], Reserve(last), cap);
    zeros := Run(burst, cap).grants;
    var n := PrunedIsSuffix(zeros, HOUR);
    assert Run(burst + [Read(HOUR)], cap).calls == [];
  }

  // ----- Without late reservations -----

  /** Each reading is at least the one before it. */
  predicate Monotone(run: seq<Call>) {
    forall i | 0 < i < |run| :: run[i - 1].now <= run[i].now
  }

  /** A monotone clock makes no reservation late and every reading the latest. */
  lemma {:induction false} MonotoneIsTimely(run: seq<Call>)
    requires Monotone(run)
    ensures LagsAtMost(run, 0)
    ensures run != [] ==> run[|run| - 1].now == Latest(run)
  {
    if run != [] {
      var init, c := run[..|run| - 1], run[|run| - 1];
      MonotoneIsTimely(init);
      if init != [] {
        LatestIsMax(init);
        assert init[|init| - 1] == run[|run| - 2];
        assert forall i | 0 <= i < |init| :: run[i] == init[i] && init[i].now <= c.now;
      }
    }
  }

  /** The granted stamps of the last hour, in order. */
  function Recent(grants: seq<Instant>, now: Instant): seq<Instant> {
    if grants == [] then []
    else (if Aged(now, grants[0]) then [] else [grants[0]]) + Recent(grants[1..], now)
  }

  predicate Sorted(s: seq<Instant>) {
    forall i, j | 0 <= i < j < |s| :: s[i] <= s[j]
  }

  lemma {:induction false} RecentAppend(a: seq<Instant>, b: seq<Instant>, now: Instant)
    ensures Recent(a + b, now) == Recent(a, now) + Recent(b, now)
  {
    if a == [] {
      Plus(b);
    } else {
      AppendTail(a, b);
      RecentAppend(a[1..], b, now);
      Assoc(if Aged(now, a[0]) then [] else [a[0]], Recent(a[1..], now), Recent(b, now));
    }
  }

  lemma {:induction false} RecentAll(s: seq<Instant>, now: Instant)
    requires forall i | 0 <= i < |s| :: !Aged(now, s[i])
    ensures Recent(s, now) == s
  {
    if s != [] {
      RecentAll(s[1..], now);
    }
  }

  lemma {:induction false} RecentNone(s: seq<Instant>, now: Instant)
    requires forall i | 0 <= i < |s| :: Aged(now, s[i])
    ensures Recent(s, now) == []
  {
    if s != [] {
      RecentNone(s[1..], now);
    }
  }

  /** On a sorted deque pruning is filtering. */
  lemma PrunedIsRecent(calls: seq<Instant>, grants: seq<Instant>, latest: Instant, now: Instant)
    requires Accounts(calls, grants, latest) && latest <= now && Sorted(calls)
    ensures Pruned(calls, now) == Recent(grants, now)
  {
    var n := PrunedIsSuffix(calls, now);
    var p := |grants| - |calls|;
    TakeDrop(grants, p + n);
    assert grants[p + n..] == calls[n..];
    forall i | 0 <= i < p + n
      ensures Aged(now, grants[i])
    {
      if p <= i {
        assert grants[i] == calls[i - p];
      }
    }
    assert forall i | n <= i < |calls| :: calls[n] <= calls[i];
    RecentNone(grants[..p + n], now);
    RecentAll(grants[p + n..], now);
    RecentAppend(grants[..p + n], grants[p + n..], now);
  }

  /** A deque in order, accounting for the grants, none of it later than `latest`. */
  predicate InOrder(l: Ledger, latest: Instant) {
    Accounts(l.calls, l.grants, latest) && Sorted(l.calls)
    && forall i | 0 <= i < |l.calls| :: l.calls[i] <= latest
  }

  /** A reading that is not late leaves exactly the stamps of the last hour. */
  lemma PruneInOrder(l: Ledger, now: Instant, latest: Instant)
    requires InOrder(l, latest) && latest <= now
    ensures InOrder(l.(calls := Pruned(l.calls, now)), now)
    ensures Pruned(l.calls, now) == Recent(l.grants, now)
    ensures |Pruned(l.calls, now)| <= |l.calls|
  {
    PruneAccounts(l.calls, l.grants, latest, now, now);
    PrunedIsRecent(l.calls, l.grants, latest, now);
    var n := PrunedIsSuffix(l.calls, now);
    SortedSuffix(l.calls, n);
  }

  /** A late one leaves more, but in order. */
  lemma LatePrune(l: Ledger, now: Instant, latest: Instant)
    requires InOrder(l, latest) && now <= latest
    ensures InOrder(l.(calls := Pruned(l.calls, now)), latest)
  {
    PruneAccounts(l.calls, l.grants, latest, now, latest);
    var n := PrunedIsSuffix(l.calls, now);
    SortedSuffix(l.calls, n);
  }

  lemma SortedSuffix(s: seq<Instant>, n: nat)
    requires Sorted(s) && n <= |s|
    ensures Sorted(s[n..])
  {
  }

  lemma GrantInOrder(l: Ledger, now: Instant)
    requires InOrder(l, now) && l.calls == Recent(l.grants, now)
    ensures var l' := l.(calls := l.calls + [now], grants := l.grants + [now]);
            InOrder(l', now) && l'.calls == Recent(l'.grants, now)
  {
    GrantAccounts(l.calls, l.grants, now, now);
    RecentAppend(l.grants, [now], now);
    RecentAll([now], now);
  }

  lemma StepInOrder(l: Ledger, c: Call, cap: u32, latest: Instant)
    requires InOrder(l, latest) && latest <= c.now && |l.calls| <= cap
    ensures InOrder(Step(l, c, cap), c.now)
    ensures Step(l, c, cap).calls == Recent(Step(l, c, cap).grants, c.now)
  {
    PruneInOrder(l, c.now, latest);
    GrantInOrder(l.(calls := Pruned(l.calls, c.now)), c.now);
  }

  /** Without late reservations the deque is sorted, and after every call whose reading is the latest
      so far it is exactly the granted stamps of the hour before. */
  lemma {:induction false} BudgetExact(run: seq<Call>, cap: u32)
    requires LagsAtMost(run, 0)
    ensures run == [] ==> Run(run, cap) == Ledger([], [], [])
    ensures run != [] ==>
              var l := Run(run, cap);
              && InOrder(l, Latest(run))
              && (run[|run| - 1].now == Latest(run) ==> l.calls == Recent(l.grants, Latest(run)))
  {
    if run != [] {
      var init, c := run[..|run| - 1], run[|run| - 1];
      LastLag(run, 0);
      BudgetExact(init, cap);
      DequeBounded(init, cap);
      if c.now == Latest(run) {
        StepInOrder(Run(init, cap), c, cap, Before(init, c.now));
      } else {
        LatePrune(Run(init, cap), c.now, Latest(run));
      }
    }
  }

  /** A reservation that is not late is refused exactly when the last hour already holds the cap. */
  lemma RefusedIffFull(run: seq<Call>, cap: u32, now: Instant)
    requires LagsAtMost(run + [Reserve(now)], 0)
    ensures var l := Run(run, cap);
            var l' := Run(run + [Reserve(now)], cap);
            var used := |Recent(l.grants, now)|;
            && used <= cap
            && l'.answers == l.answers + [used < cap]
            && l'.grants == (if used < cap then l.grants + [now] else l.grants)
  {
    var longer := run + [Reserve(now)];
    assert longer[..|longer| - 1] == run && longer[|longer| - 1] == Reserve(now);
    LastLag(longer, 0);
    BudgetExact(run, cap);
    DequeBounded(run, cap);
    var l := Run(run, cap);
    PruneInOrder(l, now, Before(run, now));
    FitsU32(|Pruned(l.calls, now)|, cap);
    RunStep(run, Reserve(now), cap);
  }

  // ----- Reading the budget -----

  function Reservations(run: seq<Call>): seq<Call> {
    if run == [] then []
    else
      var rest := Reservations(run[..|run| - 1]);
      if run[|run| - 1].Read? then rest else rest + [run[|run| - 1]]
  }

  lemma {:induction false} ReservationsLag(run: seq<Call>, d: nat)
    requires LagsAtMost(run, d)
    ensures LagsAtMost(Reservations(run), d)
    ensures run == [] ==> Reservations(run) == []
    ensures forall i | 0 <= i < |Reservations(run)| :: run != [] && Reservations(run)[i].now <= Latest(run)
  {
    if run != [] {
      LastLag(run, d);
      ReservationsLag(run[..|run| - 1], d);
    }
  }

  /** Reading the budget, with whatever clock, never changes a later answer as long as no reservation
      is late: the grants and refusals are those of the run without its reads. */
  lemma {:induction false} ReadsAreTransparent(run: seq<Call>, cap: u32)
    requires LagsAtMost(run, 0)
    ensures Run(run, cap).answers == Run(Reservations(run), cap).answers
    ensures Run(run, cap).grants == Run(Reservations(run), cap).grants
  {
    if run != [] {
      var init, c := run[..|run| - 1], run[|run| - 1];
      LastLag(run, 0);
      ReadsAreTransparent(init, cap);
      if c.Reserve? {
        ReservationsLag(run, 0);
        assert run == init + [Reserve(c.now)];
        assert Reservations(run) == Reservations(init) + [Reserve(c.now)];
        SameAnswer(init, Reservations(init), cap, c.now);
      }
    }
  }

  /** Two histories with the same grants answer a reservation alike. */
  lemma SameAnswer(a: seq<Call>, b: seq<Call>, cap: u32, now: Instant)
    requires LagsAtMost(a + [Reserve(now)], 0) && LagsAtMost(b + [Reserve(now)], 0)
    requires Run(a, cap).grants == Run(b, cap).grants && Run(a, cap).answers == Run(b, cap).answers
    ensures Run(a + [Reserve(now)], cap).grants == Run(b + [Reserve(now)], cap).grants
    ensures Run(a + [Reserve(now)], cap).answers == Run(b + [Reserve(now)], cap).answers
  {
    RefusedIffFull(a, cap, now);
    RefusedIffFull(b, cap, now);
  }

  /** Budget reads change no answer in any run whose reservations lag by at most `d`. */
  ghost predicate ReadsHarmless(cap: u32, d: nat) {
    forall run: seq<Call> | LagsAtMost(run, d) :: Run(run, cap).answers == Run(Reservations(run), cap).answers
  }

  /** Reads are harmless if and only if reservations are never late, for every cap that grants at all. */
  lemma ReadsHarmlessIff(cap: u32, d: nat)
    requires cap > 0
    ensures ReadsHarmless(cap, d) <==> d == 0
  {
    if d == 0 {
      forall run: seq<Call> | LagsAtMost(run, d)
        ensures Run(run, cap).answers == Run(Reservations(run), cap).answers
      {
        ReadsAreTransparent(run, cap);
      }
    } else {
      var run := LateReadMatters(cap, d);
    }
  }

  /** A read ahead of a late reservation turns its refusal into a grant. */
  lemma LateReadMatters(cap: u32, d: nat) returns (run: seq<Call>)
    requires cap > 0 && d > 0
    ensures LagsAtMost(run, d)
    ensures Run(run, cap).answers != Run(Reservations(run), cap).answers
  {
    var last := if d < HOUR then HOUR - d else 0;
    var burst := seq(cap, _ => Reserve(0));
    run := burst + [Read(HOUR)] + [Reserve(last)];
    LateLag(burst, last, d);
    LateAnswers(burst, cap, last);
  }

  lemma LateLag(burst: seq<Call>, last: Instant, d: nat)
    requires AllReserveZero(burst) && 0 <= last && HOUR - last <= d
    ensures LagsAtMost(burst + [Read(HOUR)] + [Reserve(last)], d)
  {
  }

  lemma LateAnswers(burst: seq<Call>, cap: u32, last: Instant)
    requires AllReserveZero(burst) && |burst| == cap > 0 && 0 <= last < HOUR
    ensures var run := burst + [Read(HOUR)] + [Reserve(last)];
            Run(run, cap).answers != Run(Reservations(run), cap).answers
  {
    var zeros := BurstThenLate(burst, cap, last);
    LateReservations(burst, last);
    BurstThenRefused(burst, cap, last);
    LastDiffers(Run(burst, cap).answers);
  }

  lemma LateReservations(burst: seq<Call>, last: Instant)
    requires AllReserveZero(burst)
    ensures Reservations(burst + [Read(HOUR)] + [Reserve(last)]) == burst + [Reserve(last)]
  {
    BurstIsReservations(burst);
    ReservationsStep(burst, Read(HOUR));
    ReservationsStep(burst + [Read(HOUR)], Reserve(last));
  }

  lemma LastDiffers(answers: seq<bool>)
    ensures answers + [true] != answers + [false]
  {
    assert (answers + [true])[|answers|] != (answers + [false])[|answers|];
  }

  lemma ReservationsStep(run: seq<Call>, c: Call)
    ensures Reservations(run + [c]) == if c.Read? then Reservations(run) else Reservations(run) + [c]
  {
    assert (run + [c])[..|run|] == run;
  }

  lemma {:induction false} BurstIsReservations(burst: seq<Call>)
    requires AllReserveZero(burst)
    ensures Reservations(burst) == burst
  {
    if burst != [] {
      BurstIsReservations(burst[..|burst| - 1]);
      assert burst[|burst| - 1] == Reserve(0);
    }
  }

  /** Without the read the late reservation meets a full deque. */
  lemma BurstThenRefused(burst: seq<Call>, cap: u32, last: Instant)
    requires AllReserveZero(burst) && |burst| == cap && 0 <= last < HOUR
    ensures Run(burst + [Reserve(last)], cap).answers == Run(burst, cap).answers + [false]
  {
    BurstRuns(burst, cap);
    RunStep(burst, Reserve(last), cap);
    FitsU32(cap, cap);
    var l := Run(burst, cap);
    assert Pruned(l.calls, last) == l.calls;
  }
}
