/** The escalation history: a ring of the newest records and totals that survive eviction
    (src/orchestrator.rs). */
module History {
  import opened Wrappers
  import opened Text

  const HISTORY_CAP: nat := 500

  const BUDGET_DENIED := "budget_denied"

  datatype Record = Record(
    atEpochSecs: nat,
    trigger: string,
    provider: string,
    model: string,
    keyPrefix: Option<string>)

  datatype History = History(records: seq<Record>, totalEscalations: nat, totalBudgetDenied: nat)

  const EMPTY := History([], 0, 0)

  /** `key.map(|k| k.chars().take(8).collect())` */
  function Prefix(key: Option<string>): Option<string> {
    match key
    case None => None
    case Some(k) => Some(if |k| < 8 then k else k[..8])
  }

  /** The history after one more event. */
  function Recorded(h: History, r: Record): History {
    var kept := if |h.records| == HISTORY_CAP then h.records[1..] else h.records;
    History(
      kept + [r],
      if r.trigger == BUDGET_DENIED then h.totalEscalations else h.totalEscalations + 1,
      if r.trigger == BUDGET_DENIED then h.totalBudgetDenied + 1 else h.totalBudgetDenied)
  }

  function RecordAll(log: seq<Record>): History {
    if log == [] then EMPTY else Recorded(RecordAll(log[..|log| - 1]), log[|log| - 1])
  }

  function Denials(log: seq<Record>): nat {
    if log == [] then 0 else (if log[0].trigger == BUDGET_DENIED then 1 else 0) + Denials(log[1..])
  }

  /** `iter().rev()` */
  function Reversed<T>(s: seq<T>): seq<T> {
    if s == [] then [] else Reversed(s[1..]) + [s[0]]
  }

  function Newest(log: seq<Record>): seq<Record> {
    if |log| <= HISTORY_CAP then log else log[|log| - HISTORY_CAP..]
  }

  lemma {:induction false} DenialsAppend(log: seq<Record>, r: Record)
    ensures Denials(log + [r]) == Denials(log) + (if r.trigger == BUDGET_DENIED then 1 else 0)
    ensures Denials(log) <= |log|
  {
    if log == [] {
      Plus([r]);
    } else {
      AppendTail(log, [r]);
      DenialsAppend(log[1..], r);
    }
  }

  lemma NewestStep(log: seq<Record>)
    requires log != []
    ensures var kept := Newest(log[..|log| - 1]);
            Newest(log) == (if |kept| == HISTORY_CAP then kept[1..] else kept) + [log[|log| - 1]]
  {
  }

  lemma {:induction false} ReversedAt<T>(s: seq<T>, k: nat)
    requires k < |s|
    ensures |Reversed(s)| == |s| && Reversed(s)[k] == s[|s| - 1 - k]
  {
    if |s| > 1 {
      ReversedAt(s[1..], if k < |s| - 1 then k else 0);
    }
  }

  /** The ring refines the full log: it holds the newest 500 events, and the totals still count
      every event ever recorded. */
  lemma {:induction false} RingRefinesLog(log: seq<Record>)
    ensures var h := RecordAll(log);
            && h.records == Newest(log)
            && h.totalBudgetDenied == Denials(log)
            && h.totalEscalations == |log| - Denials(log)
  {
    if log != [] {
      var n := |log| - 1;
      RingRefinesLog(log[..n]);
      assert log == log[..n] + [log[n]];
      DenialsAppend(log[..n], log[n]);
      var h := RecordAll(log[..n]);
      NewestStep(log);
      assert RecordAll(log) == Recorded(h, log[n]);
    }
  }

  /** A record shows the first eight characters of the key, or all of a shorter one, or nothing. */
  lemma PrefixIs(key: Option<string>)
    ensures Prefix(key).Some? <==> key.Some?
    ensures key.Some? ==>
              && Prefix(key).value <= key.value
              && |Prefix(key).value| == (if |key.value| < 8 then |key.value| else 8)
  {
  }

  lemma NewestAt(log: seq<Record>, i: nat)
    requires i < |Newest(log)|
    ensures Newest(log)[i] == log[|log| - |Newest(log)| + i]
  {
  }

  /** What the status panel shows: newest first, entry k being the k-th newest event. */
  lemma RecentIsNewestFirst(log: seq<Record>, k: nat)
    requires k < |log| && k < 500
    ensures var recent := Reversed(RecordAll(log).records);
            |recent| == (if |log| <= 500 then |log| else 500) && recent[k] == log[|log| - 1 - k]
  {
    RingRefinesLog(log);
    var newest := Newest(log);
    ReversedAt(newest, k);
    NewestAt(log, |newest| - 1 - k);
  }
}
