/** `getPassStats`: folds a student's passes into per-group counts,
    accumulated durations and latest start times. The groups are `total`
    (every pass), `personal` and `official`.

    Durations accumulate the way the source does it: each group keeps an
    instant that starts at `now` and is advanced by every pass's duration
    (`add`), and the group's duration is the interval from `now` to that
    instant (`intervalToDuration`). */
module PassStatistics {
  import opened Options
  import opened DateFns
  import opened Passes
  import opened Folds

  datatype StatKey = Total | Personal | Official

  /** A record with one entry per group, like `Record<StatKeys, T>`. */
  datatype Keyed<T> = Keyed(total: T, personal: T, official: T) {

    function Get(k: StatKey): T
    {
      match k
      case Total => total
      case Personal => personal
      case Official => official
    }

    function Set(k: StatKey, v: T): (r: Keyed<T>)
      ensures r.Get(k) == v
      ensures forall j :: j != k ==> r.Get(j) == Get(j)
    {
      match k
      case Total => this.(total := v)
      case Personal => this.(personal := v)
      case Official => this.(official := v)
    }
  }

  datatype PassStats = PassStats(
    counts: Keyed<nat>,
    last: Keyed<Option<Instant>>,
    durations: Keyed<Duration>,
    times: Keyed<Instant>)

  /** The group a pass counts in besides `total`. */
  function GroupOf(p: Pass): StatKey
  {
    if p.isPersonal then Personal else Official
  }

  /** The pass counts towards group `k`. */
  predicate InGroup(p: Pass, k: StatKey)
  {
    k == Total || k == GroupOf(p)
  }

  /** The later of two optional instants, absent only when both are. */
  function MaxOpt(a: Option<Instant>, b: Option<Instant>): (r: Option<Instant>)
    ensures r.None? <==> a.None? && b.None?
    ensures r.Some? ==> (r == a || r == b)
    ensures a.Some? ==> r.Some? && a.value <= r.value
    ensures b.Some? ==> r.Some? && b.value <= r.value
  {
    match (a, b)
    case (None, _) => b
    case (_, None) => a
    case (Some(x), Some(y)) => if x < y then b else a
  }

  /** `accum.last[key] ? max(accum.last[key], start) : start`. */
  function Later(last: Option<Instant>, start: Instant): (r: Instant)
    ensures Some(r) == MaxOpt(last, Some(start))
  {
    match last
    case None => start
    case Some(l) => if l < start then start else l
  }

  /** The state `reduce` starts from. */
  function Initial(now: Instant): PassStats
  {
    PassStats(
      Keyed(0, 0, 0),
      Keyed(None, None, None),
      Keyed(IntervalToDuration(now, now), IntervalToDuration(now, now), IntervalToDuration(now, now)),
      Keyed(now, now, now))
  }

  /** `updateStat(key, duration)` for a pass that started at `start`. */
  function UpdateStat(s: PassStats, key: StatKey, start: Instant, d: Duration, now: Instant): PassStats
  {
    var t := Add(s.times.Get(key), d);
    PassStats(
      s.counts.Set(key, s.counts.Get(key) + 1),
      s.last.Set(key, Some(Later(s.last.Get(key), start))),
      s.durations.Set(key, IntervalToDuration(now, t)),
      s.times.Set(key, t))
  }

  /** One step of the reducer: the pass updates `total`, then its group. */
  function Step(s: PassStats, p: Pass, now: Instant): PassStats
  {
    var d := Elapsed(p, now);
    UpdateStat(UpdateStat(s, Total, p.startAt, d, now), GroupOf(p), p.startAt, d, now)
  }

  /** The reducer with `now` fixed. */
  function StepAt(now: Instant): (PassStats, Pass) -> PassStats
  {
    (s: PassStats, p: Pass) => Step(s, p, now)
  }

  // ---- Reference definitions, one group at a time -------------------------

  /** Number of passes in group `k`. */
  function CountIn(passes: seq<Pass>, k: StatKey): nat
  {
    if |passes| == 0 then 0
    else (if InGroup(passes[0], k) then 1 else 0) + CountIn(passes[1..], k)
  }

  /** Elapsed seconds of the passes in group `k`, summed. */
  function SecondsIn(passes: seq<Pass>, k: StatKey, now: Instant): nat
  {
    if |passes| == 0 then 0
    else (if InGroup(passes[0], k) then ElapsedSeconds(passes[0], now) else 0)
         + SecondsIn(passes[1..], k, now)
  }

  /** Latest start among the passes in group `k`. */
  function LatestIn(passes: seq<Pass>, k: StatKey): Option<Instant>
  {
    if |passes| == 0 then None
    else MaxOpt(if InGroup(passes[0], k) then Some(passes[0].startAt) else None,
                LatestIn(passes[1..], k))
  }

  /** `last` is the greatest start time in group `k`, and absent exactly
      when the group is empty. */
  ghost predicate IsLatestStart(passes: seq<Pass>, k: StatKey, last: Option<Instant>)
  {
    && (last.None? <==> forall i :: 0 <= i < |passes| ==> !InGroup(passes[i], k))
    && (last.Some? ==>
          && (exists i :: 0 <= i < |passes| && InGroup(passes[i], k) && passes[i].startAt == last.value)
          && (forall i :: 0 <= i < |passes| && InGroup(passes[i], k) ==> passes[i].startAt <= last.value))
  }

  lemma {:induction false} LatestInIsLatest(passes: seq<Pass>, k: StatKey)
    ensures IsLatestStart(passes, k, LatestIn(passes, k))
  {
    if |passes| > 0 {
      var tail := passes[1..];
      LatestInIsLatest(tail, k);
      var l := LatestIn(passes, k);
      var lt := LatestIn(tail, k);
      forall i | 1 <= i < |passes|
        ensures passes[i] == tail[i - 1]
      {
      }
      if l.Some? {
        if InGroup(passes[0], k) && l.value == passes[0].startAt {
        } else {
          assert lt.Some? && l == lt;
          var j :| 0 <= j < |tail| && InGroup(tail[j], k) && tail[j].startAt == lt.value;
          assert passes[j + 1] == tail[j];
        }
      }
    }
  }

  /** Group counts split the passes: every pass is in `total` and in
      exactly one of `personal` and `official`. */
  lemma {:induction false} CountsPartition(passes: seq<Pass>)
    ensures CountIn(passes, Total) == |passes|
    ensures CountIn(passes, Personal) + CountIn(passes, Official) == |passes|
  {
    if |passes| > 0 {
      CountsPartition(passes[1..]);
    }
  }

  /** The same holds for accumulated seconds. */
  lemma {:induction false} SecondsPartition(passes: seq<Pass>, now: Instant)
    ensures SecondsIn(passes, Personal, now) + SecondsIn(passes, Official, now)
            == SecondsIn(passes, Total, now)
  {
    if |passes| > 0 {
      SecondsPartition(passes[1..], now);
    }
  }

  // ---- What the fold computes -------------------------------------------

  /** Every group's duration is the interval from `now` to its instant. */
  ghost predicate DurationsMatchTimes(s: PassStats, now: Instant)
  {
    forall k :: s.durations.Get(k) == IntervalToDuration(now, s.times.Get(k))
  }

  lemma StepKeepsDurationsMatchingTimes(s: PassStats, p: Pass, now: Instant)
    requires DurationsMatchTimes(s, now)
    ensures DurationsMatchTimes(Step(s, p, now), now)
  {
    var s1 := UpdateStat(s, Total, p.startAt, Elapsed(p, now), now);
    assert DurationsMatchTimes(s1, now);
  }

  lemma {:induction false} FoldTallies(s: PassStats, passes: seq<Pass>, now: Instant, k: StatKey)
    requires DurationsMatchTimes(s, now)
    ensures var r := Reduce(StepAt(now), s, passes);
      && r.counts.Get(k) == s.counts.Get(k) + CountIn(passes, k)
      && r.times.Get(k) == s.times.Get(k) + SecondsIn(passes, k, now)
      && r.last.Get(k) == MaxOpt(s.last.Get(k), LatestIn(passes, k))
      && DurationsMatchTimes(r, now)
    decreases |passes|
  {
    if |passes| > 0 {
      var p := passes[0];
      var s' := Step(s, p, now);
      StepKeepsDurationsMatchingTimes(s, p, now);
      assert passes == [p] + passes[1..];
      ReduceCons(StepAt(now), s, p, passes[1..]);
      FoldTallies(s', passes[1..], now, k);
      var g := if InGroup(p, k) then Some(p.startAt) else None;
      var rest := LatestIn(passes[1..], k);
      assert s'.last.Get(k) == MaxOpt(s.last.Get(k), g);
      assert MaxOpt(MaxOpt(s.last.Get(k), g), rest) == MaxOpt(s.last.Get(k), MaxOpt(g, rest));
    }
  }

  /** `getPassStats(passes)` evaluated at instant `now`. */
  function GetPassStats(passes: seq<Pass>, now: Instant): (r: PassStats)
    ensures r.counts.total == |passes|
    ensures r.counts.personal + r.counts.official == |passes|
    ensures forall k :: r.counts.Get(k) == CountIn(passes, k)
    ensures forall k :: Canonical(r.durations.Get(k))
    ensures forall k :: ToSeconds(r.durations.Get(k)) == SecondsIn(passes, k, now)
    ensures forall k :: r.times.Get(k) == now + SecondsIn(passes, k, now)
    ensures forall k :: r.durations.Get(k) == IntervalToDuration(now, r.times.Get(k))
    ensures forall k :: IsLatestStart(passes, k, r.last.Get(k))
  {
    var r := Reduce(StepAt(now), Initial(now), passes);
    CountsPartition(passes);
    forall k
      ensures r.counts.Get(k) == CountIn(passes, k)
      ensures r.times.Get(k) == now + SecondsIn(passes, k, now)
      ensures r.durations.Get(k) == IntervalToDuration(now, r.times.Get(k))
      ensures IsLatestStart(passes, k, r.last.Get(k))
    {
      FoldTallies(Initial(now), passes, now, k);
      LatestInIsLatest(passes, k);
    }
    r
  }

  /** An empty list gives zero counts, zero durations and no latest start. */
  lemma EmptyPassStats(now: Instant)
    ensures GetPassStats([], now) == PassStats(
      Keyed(0, 0, 0), Keyed(None, None, None), Keyed(Zero, Zero, Zero), Keyed(now, now, now))
  {
  }

  // ---- Order independence ------------------------------------------------

  lemma UpdateStatCommutes(s: PassStats, k1: StatKey, a: Instant, da: Duration,
                           k2: StatKey, b: Instant, db: Duration, now: Instant)
    ensures UpdateStat(UpdateStat(s, k1, a, da, now), k2, b, db, now)
         == UpdateStat(UpdateStat(s, k2, b, db, now), k1, a, da, now)
  {
  }

  lemma StepCommutes(s: PassStats, p: Pass, q: Pass, now: Instant)
    ensures Step(Step(s, p, now), q, now) == Step(Step(s, q, now), p, now)
  {
    var dp, dq := Elapsed(p, now), Elapsed(q, now);
    var gp, gq := GroupOf(p), GroupOf(q);
    var a, b := p.startAt, q.startAt;
    var s1 := UpdateStat(s, Total, a, dp, now);
    var s2 := UpdateStat(s, Total, b, dq, now);
    UpdateStatCommutes(UpdateStat(s1, gp, a, dp, now), Total, b, dq, gq, b, dq, now);
    calc {
      Step(Step(s, p, now), q, now);
      UpdateStat(UpdateStat(UpdateStat(UpdateStat(s, Total, a, dp, now), gp, a, dp, now), Total, b, dq, now), gq, b, dq, now);
      { UpdateStatCommutes(s1, gp, a, dp, Total, b, dq, now);
        UpdateStatCommutes(s, Total, a, dp, Total, b, dq, now); }
      UpdateStat(UpdateStat(UpdateStat(UpdateStat(s, Total, b, dq, now), Total, a, dp, now), gp, a, dp, now), gq, b, dq, now);
      { UpdateStatCommutes(UpdateStat(s2, Total, a, dp, now), gp, a, dp, gq, b, dq, now);
        UpdateStatCommutes(s2, Total, a, dp, gq, b, dq, now); }
      UpdateStat(UpdateStat(UpdateStat(UpdateStat(s, Total, b, dq, now), gq, b, dq, now), Total, a, dp, now), gp, a, dp, now);
      Step(Step(s, q, now), p, now);
    }
  }

  /** The statistics do not depend on the order the passes come in. */
  lemma PassStatsOrderIndependent(xs: seq<Pass>, ys: seq<Pass>, now: Instant)
    requires multiset(xs) == multiset(ys)
    ensures GetPassStats(xs, now) == GetPassStats(ys, now)
  {
    forall st, p, q
      ensures StepAt(now)(StepAt(now)(st, p), q) == StepAt(now)(StepAt(now)(st, q), p)
    {
      StepCommutes(st, p, q, now);
    }
    ReducePermutation(StepAt(now), Initial(now), xs, ys);
  }

  // ---- Scenarios ----------------------------------------------------------

  /** The reference figures of a list of two passes, spelled out. */
  lemma TwoPassFigures(p: Pass, q: Pass, k: StatKey, now: Instant)
    ensures CountIn([p, q], k) == (if InGroup(p, k) then 1 else 0) + (if InGroup(q, k) then 1 else 0)
    ensures SecondsIn([p, q], k, now) == (if InGroup(p, k) then ElapsedSeconds(p, now) else 0)
                                       + (if InGroup(q, k) then ElapsedSeconds(q, now) else 0)
  {
    assert [p, q][1..] == [q] && [q][1..] == [];
    assert CountIn([q], k) == (if InGroup(q, k) then 1 else 0) + CountIn([], k);
    assert SecondsIn([q], k, now) == (if InGroup(q, k) then ElapsedSeconds(q, now) else 0) + SecondsIn([], k, now);
  }

  /** A personal walk of 4:05 starting at `a` and an official walk of
      24:05 starting at `b`, both closed. */
  function TwoClosed(a: Instant, b: Instant): seq<Pass>
  {
    [Pass("a", a, Some(a + 245), true), Pass("b", b, Some(b + 1445), false)]
  }

  lemma TwoClosedCounts(a: Instant, b: Instant, now: Instant)
    ensures GetPassStats(TwoClosed(a, b), now).counts == Keyed(2, 1, 1)
  {
    var ps := TwoClosed(a, b);
    var stats := GetPassStats(ps, now);
    TwoPassFigures(ps[0], ps[1], Personal, now);
    TwoPassFigures(ps[0], ps[1], Official, now);
    assert stats.counts.Get(Personal) == 1 && stats.counts.Get(Official) == 1;
  }

  /** A group's duration is the one canonical duration of its elapsed
      seconds. */
  lemma GroupDurationOfSeconds(passes: seq<Pass>, k: StatKey, now: Instant, d: Duration)
    requires Canonical(d) && SecondsIn(passes, k, now) == ToSeconds(d)
    ensures GetPassStats(passes, now).durations.Get(k) == d
  {
    CanonicalRoundTrip(GetPassStats(passes, now).durations.Get(k));
    CanonicalRoundTrip(d);
  }

  lemma TwoClosedSeconds(a: Instant, b: Instant, now: Instant)
    ensures SecondsIn(TwoClosed(a, b), Personal, now) == 245
    ensures SecondsIn(TwoClosed(a, b), Official, now) == 1445
    ensures SecondsIn(TwoClosed(a, b), Total, now) == 1690
  {
    var p, q := Pass("a", a, Some(a + 245), true), Pass("b", b, Some(b + 1445), false);
    assert ElapsedSeconds(p, now) == 245;
    assert ElapsedSeconds(q, now) == 1445;
    TwoPassFigures(p, q, Personal, now);
    TwoPassFigures(p, q, Official, now);
    TwoPassFigures(p, q, Total, now);
  }

  lemma TwoClosedDurations(a: Instant, b: Instant, now: Instant)
    ensures var stats := GetPassStats(TwoClosed(a, b), now);
      && stats.durations.personal == Duration(0, 0, 0, 0, 0, 4, 5)
      && stats.durations.official == Duration(0, 0, 0, 0, 0, 24, 5)
      && stats.durations.total == Duration(0, 0, 0, 0, 0, 28, 10)
  {
    TwoClosedSeconds(a, b, now);
    GroupDurationOfSeconds(TwoClosed(a, b), Personal, now, Duration(0, 0, 0, 0, 0, 4, 5));
    GroupDurationOfSeconds(TwoClosed(a, b), Official, now, Duration(0, 0, 0, 0, 0, 24, 5));
    GroupDurationOfSeconds(TwoClosed(a, b), Total, now, Duration(0, 0, 0, 0, 0, 28, 10));
  }

  lemma TwoClosedLatest(a: Instant, b: Instant, now: Instant)
    requires a < b
    ensures GetPassStats(TwoClosed(a, b), now).last == Keyed(Some(b), Some(a), Some(b))
  {
    var p, q := Pass("a", a, Some(a + 245), true), Pass("b", b, Some(b + 1445), false);
    var ps := [p, q];
    var stats := GetPassStats(ps, now);
    assert IsLatestStart(ps, Total, stats.last.Get(Total));
    assert IsLatestStart(ps, Personal, stats.last.Get(Personal));
    assert IsLatestStart(ps, Official, stats.last.Get(Official));
    assert ps[0] == p && ps[1] == q;
  }

  /** Two closed walks, the official one later: one walk in each group,
      4:05 personal, 24:05 official, 28:10 in total, and the official walk
      is the latest. */
  lemma TwoClosedPasses(a: Instant, b: Instant, now: Instant)
    requires a < b
    ensures var stats := GetPassStats(TwoClosed(a, b), now);
      && stats.counts == Keyed(2, 1, 1)
      && stats.durations.personal == Duration(0, 0, 0, 0, 0, 4, 5)
      && stats.durations.official == Duration(0, 0, 0, 0, 0, 24, 5)
      && stats.durations.total == Duration(0, 0, 0, 0, 0, 28, 10)
      && stats.last == Keyed(Some(b), Some(a), Some(b))
  {
    TwoClosedCounts(a, b, now);
    TwoClosedDurations(a, b, now);
    TwoClosedLatest(a, b, now);
  }

  /** An open pass 90 seconds old contributes 1:30 to its group and to the
      total. */
  lemma OpenPassNinetySeconds(start: Instant, personal: bool)
    ensures var stats := GetPassStats([Pass("open", start, None, personal)], start + 90);
      && stats.durations.total == Duration(0, 0, 0, 0, 0, 1, 30)
      && stats.durations.Get(GroupOf(Pass("open", start, None, personal))) == Duration(0, 0, 0, 0, 0, 1, 30)
  {
    var p := Pass("open", start, None, personal);
    var ps := [p];
    var now := start + 90;
    assert ps[1..] == [];
    assert ElapsedSeconds(p, now) == 90;
    assert SecondsIn(ps, Total, now) == 90;
    assert SecondsIn(ps, GroupOf(p), now) == 90;
    var stats := GetPassStats(ps, now);
    CanonicalRoundTrip(stats.durations.total);
    CanonicalRoundTrip(stats.durations.Get(GroupOf(p)));
  }
}
