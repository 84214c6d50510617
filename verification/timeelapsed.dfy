/** The ticking elapsed-time hook: an older copy of the status classifier
    with fixed limits, and the mapping from intervals to durations with a
    status each. The timer that re-runs the mapping every second is not
    modelled; `now` is the instant of one run. */
module TimeElapsed {
  import opened Options
  import opened DateFns
  import opened UserSettingsHook
  import Utils

  const WarningTimeLimit: nat := 5
  const ErrorTimeLimit: nat := 10

  /** This copy names the top status "error" instead of "critical". */
  datatype ElapsedStatus = Good | Warning | Error

  /** The hook's own `getDurationStatus`, with the limits fixed at 5 and 10
      minutes. */
  function FixedLimitStatus(d: Duration): (r: ElapsedStatus)
    ensures r == Error <==> Utils.HasHourOrMore(d) || d.minutes >= ErrorTimeLimit
    ensures r == Warning <==> !Utils.HasHourOrMore(d) && WarningTimeLimit <= d.minutes < ErrorTimeLimit
    ensures d.minutes == 0 && !Utils.HasHourOrMore(d) ==> r == Good
  {
    if Utils.HasHourOrMore(d) || (d.minutes != 0 && d.minutes >= ErrorTimeLimit) then Error
    else if d.minutes != 0 && d.minutes >= WarningTimeLimit then Warning
    else Good
  }

  /** The status names of the two copies, matched up. */
  function AsDurationStatus(s: ElapsedStatus): Utils.DurationStatus
  {
    match s
    case Good => Utils.DurationStatus.Good
    case Warning => Utils.DurationStatus.Warning
    case Error => Utils.DurationStatus.Critical
  }

  /** The fixed-limit copy is the general classifier at the default
      settings, with "error" read as "critical". */
  lemma FixedLimitIsDefaultStatus(d: Duration)
    ensures AsDurationStatus(FixedLimitStatus(d)) == Utils.GetDurationStatus(d, Defaults)
  {
  }

  /** An interval with a start and, once it is over, an end. */
  datatype Interval = Interval(start: Instant, end: Option<Instant>)

  /** `hasOpen`: some interval has no end yet. */
  function HasOpen(intervals: seq<Interval>): (r: bool)
    ensures r <==> exists i :: 0 <= i < |intervals| && intervals[i].end.None?
  {
    if |intervals| == 0 then false
    else intervals[0].end.None? || HasOpen(intervals[1..])
  }

  /** Adding a closed interval does not change whether any is open. */
  lemma {:induction false} HasOpenIgnoresClosed(intervals: seq<Interval>, x: Interval)
    requires x.end.Some?
    ensures HasOpen(intervals + [x]) == HasOpen(intervals)
  {
    if HasOpen(intervals + [x]) {
      var i :| 0 <= i < |intervals + [x]| && (intervals + [x])[i].end.None?;
      assert i < |intervals| && intervals[i].end.None?;
    }
    if HasOpen(intervals) {
      var i :| 0 <= i < |intervals| && intervals[i].end.None?;
      assert (intervals + [x])[i].end.None?;
    }
  }

  /** One element of the hook's result before formatting. */
  datatype ElapsedEntry = ElapsedEntry(duration: Duration, status: ElapsedStatus)

  /** The entry of one interval, measured to `now` while it is open. */
  function EntryOf(iv: Interval, now: Instant): (e: ElapsedEntry)
    ensures Canonical(e.duration)
    ensures ToSeconds(e.duration) == Abs(iv.end.GetOr(now) - iv.start)
    ensures e.status == FixedLimitStatus(e.duration)
  {
    var duration := IntervalToDuration(iv.start, iv.end.GetOr(now));
    ElapsedEntry(duration, FixedLimitStatus(duration))
  }

  /** `createDurations()`: one entry per interval, in order. */
  function CreateDurations(intervals: seq<Interval>, now: Instant): (r: seq<ElapsedEntry>)
    ensures |r| == |intervals|
    ensures forall i :: 0 <= i < |r| ==> r[i] == EntryOf(intervals[i], now)
  {
    seq(|intervals|, i requires 0 <= i < |intervals| => EntryOf(intervals[i], now))
  }

  /** An interval that is closed reads the same at every instant. */
  lemma ClosedEntriesIgnoreNow(intervals: seq<Interval>, now1: Instant, now2: Instant)
    requires !HasOpen(intervals)
    ensures CreateDurations(intervals, now1) == CreateDurations(intervals, now2)
  {
    var a, b := CreateDurations(intervals, now1), CreateDurations(intervals, now2);
    forall i | 0 <= i < |a| ensures a[i] == b[i] {
      assert intervals[i].end.Some?;
    }
  }

  /** Every entry's status agrees with the general classifier at the
      default settings. */
  lemma EntryStatusAtDefaults(intervals: seq<Interval>, now: Instant)
    ensures forall e :: e in CreateDurations(intervals, now) ==>
      AsDurationStatus(e.status) == Utils.GetDurationStatus(e.duration, Defaults)
  {
    forall e | e in CreateDurations(intervals, now)
      ensures AsDurationStatus(e.status) == Utils.GetDurationStatus(e.duration, Defaults)
    {
      FixedLimitIsDefaultStatus(e.duration);
    }
  }
}
