/**
 * Counter arithmetic of the batched statistics (content.js:305-348): events
 * are counted in memory, a flush takes the pending counts and adds them to
 * the stored totals, and a failed write puts them back.
 */
module Stats {
  import opened Wrappers

  /** `pendingStatsUpdate`. */
  datatype Counters = Counters(autoBuys: nat, detections: nat)

  const Zero := Counters(0, 0)

  function Add(a: Counters, b: Counters): Counters
  {
    Counters(a.autoBuys + b.autoBuys, a.detections + b.detections)
  }

  /** The `type` argument of `queueStatsUpdate`; any other string counts
      nothing. */
  datatype StatKind = AutoBuyStat | DetectionStat | OtherStat

  /** One event's worth of counts. */
  function Unit(kind: StatKind): (r: Counters)
    ensures kind.AutoBuyStat? ==> r == Counters(1, 0)
    ensures kind.DetectionStat? ==> r == Counters(0, 1)
    ensures kind.OtherStat? ==> r == Zero
  {
    match kind
    case AutoBuyStat => Counters(1, 0)
    case DetectionStat => Counters(0, 1)
    case OtherStat => Zero
  }

  /** The `stats` record in `chrome.storage.sync`. */
  datatype StatsRecord = StatsRecord(autoBuys: nat, detections: nat, todayBuys: nat, lastResetDate: Option<string>)

  const DefaultStats := StatsRecord(0, 0, 0, None)

  /** The record a flush writes: the stored record (or the default when none
      is stored), with the daily count reset on a new day, plus `d`. */
  function MergeStats(stored: Option<StatsRecord>, d: Counters, today: string): (r: StatsRecord)
    ensures var s := if stored.Some? then stored.value else DefaultStats;
      r.autoBuys == s.autoBuys + d.autoBuys && r.detections == s.detections + d.detections &&
      r.lastResetDate == Some(today) &&
      r.todayBuys == (if s.lastResetDate == Some(today) then s.todayBuys else 0) + d.autoBuys
  {
    var s := if stored.Some? then stored.value else DefaultStats;
    var base := if s.lastResetDate != Some(today) then s.(todayBuys := 0, lastResetDate := Some(today)) else s;
    StatsRecord(base.autoBuys + d.autoBuys, base.detections + d.detections, base.todayBuys + d.autoBuys, base.lastResetDate)
  }

  /** Two successful flushes on the same day store what one flush of their
      sum would. */
  lemma MergeTwice(stored: Option<StatsRecord>, d1: Counters, d2: Counters, today: string)
    ensures MergeStats(Some(MergeStats(stored, d1, today)), d2, today) == MergeStats(stored, Add(d1, d2), today)
  {
  }
}
