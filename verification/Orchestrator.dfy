/** The shared escalation state and the operations behind its three locks
    (src/orchestrator.rs, Orchestrator). */
module Orchestrator {
  import opened Wrappers
  import opened Budget
  import opened History

  datatype Tier = Local | Cloud

  datatype FailMode = FailCloud | FailError

  datatype Config = Config(
    localProvider: string,
    escalationProvider: string,
    escalationModel: string,
    sentinel: string,
    maxCloudRequestsPerHour: u32,
    failMode: FailMode)

  datatype Status = Status(
    maxPerHour: u32,
    usedLastHour: u32,
    remaining: nat,
    stickyConversations: nat,
    totalSinceStart: nat,
    deniedSinceStart: nat,
    recent: seq<Record>)

  class Orchestrator {
    const cfg: Config
    var sticky: map<string, Tier>
    var cloudCalls: seq<Instant>
    var history: History

    /** The deque never outgrows the cap, so its length always fits in 32 bits. */
    predicate Valid()
      reads this
    {
      |cloudCalls| <= cfg.maxCloudRequestsPerHour && |history.records| <= HISTORY_CAP
    }

    constructor (cfg: Config)
      ensures Valid() && this.cfg == cfg
      ensures sticky == map[] && cloudCalls == [] && history == EMPTY
    {
      this.cfg := cfg;
      sticky, cloudCalls, history := map[], [], EMPTY;
    }

    method StickyTier(key: string) returns (tier: Option<Tier>)
      ensures tier == if key in sticky then Some(sticky[key]) else None
    {
      tier := if key in sticky then Some(sticky[key]) else None;
    }

    method MarkCloud(key: string)
      modifies this`sticky
      ensures sticky == old(sticky)[key := Cloud]
    {
      sticky := sticky[key := Cloud];
    }

    method PruneWindow(now: Instant)
      modifies this`cloudCalls
      ensures cloudCalls == Pruned(old(cloudCalls), now)
      ensures |cloudCalls| <= |old(cloudCalls)|
    {
      while cloudCalls != [] && Aged(now, cloudCalls[0])
        invariant Pruned(cloudCalls, now) == Pruned(old(cloudCalls), now)
        invariant |cloudCalls| <= |old(cloudCalls)|
        decreases |cloudCalls|
      {
        cloudCalls := cloudCalls[1..];
      }
    }

    method TryReserveCloudCallAt(now: Instant) returns (granted: bool)
      requires Valid()
      modifies this`cloudCalls
      ensures Valid()
      ensures (cloudCalls, granted) == TryReserve(old(cloudCalls), now, cfg.maxCloudRequestsPerHour)
      ensures granted <==> |Pruned(old(cloudCalls), now)| < cfg.maxCloudRequestsPerHour
    {
      PruneWindow(now);
      FitsU32(|cloudCalls|, cfg.maxCloudRequestsPerHour);
      if AsU32(|cloudCalls|) < cfg.maxCloudRequestsPerHour {
        cloudCalls := cloudCalls + [now];
        return true;
      }
      return false;
    }

    method BudgetUsedAt(now: Instant) returns (used: u32)
      requires Valid()
      modifies this`cloudCalls
      ensures Valid()
      ensures cloudCalls == Pruned(old(cloudCalls), now)
      ensures used == |cloudCalls|
    {
      PruneWindow(now);
      FitsU32(|cloudCalls|, cfg.maxCloudRequestsPerHour);
      used := AsU32(|cloudCalls|);
    }

    method RecordEscalation(trigger: string, provider: string, model: string, key: Option<string>, epochSecs: nat)
      requires Valid()
      modifies this`history
      ensures Valid()
      ensures history == Recorded(old(history), Record(epochSecs, trigger, provider, model, Prefix(key)))
    {
      var record := Record(epochSecs, trigger, provider, model, Prefix(key));
      if trigger == BUDGET_DENIED {
        history := history.(totalBudgetDenied := history.totalBudgetDenied + 1);
      } else {
        history := history.(totalEscalations := history.totalEscalations + 1);
      }
      if |history.records| == HISTORY_CAP {
        history := history.(records := history.records[1..]);
      }
      history := history.(records := history.records + [record]);
    }

    method StickyCount() returns (n: nat)
      ensures n == |sticky|
    {
      n := |sticky|;
    }

    /** The snapshot loses nothing to the saturating subtraction: what is used and what remains
        always add up to the cap. */
    method StatusAt(now: Instant) returns (s: Status)
      requires Valid()
      modifies this`cloudCalls
      ensures Valid() && cloudCalls == Pruned(old(cloudCalls), now)
      ensures s.usedLastHour + s.remaining == s.maxPerHour == cfg.maxCloudRequestsPerHour
      ensures s.usedLastHour == |cloudCalls| && s.stickyConversations == |sticky|
      ensures s.totalSinceStart == history.totalEscalations && s.deniedSinceStart == history.totalBudgetDenied
      ensures s.recent == Reversed(history.records)
    {
      var used := BudgetUsedAt(now);
      var max := cfg.maxCloudRequestsPerHour;
      var stickyCount := StickyCount();
      s := Status(max, used, if used <= max then max - used else 0, stickyCount,
                  history.totalEscalations, history.totalBudgetDenied, Reversed(history.records));
    }
  }
}
