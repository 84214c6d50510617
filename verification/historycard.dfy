/** The statistics shown on a student's history card. The card has its own
    copy of the pass reducer, which differs from `getPassStats`: it never
    records the latest official start, and it turns the accumulated
    instants into durations once, after the fold. */
module HistoryCard {
  import opened Options
  import opened Strings
  import opened DateFns
  import opened Passes
  import opened Folds
  import opened PassStatistics
  import opened Utils

  /** The accumulator: `ends` holds, per group, `now` advanced by the
      durations added so far (the source keeps these instants in a field
      called `durations`). */
  datatype CardState = CardState(counts: Keyed<nat>, last: Keyed<Option<Instant>>, ends: Keyed<Instant>)

  /** What the card shows: the "has not walked" message, or the counts,
      latest starts, durations and the recreational summary line. */
  datatype CardView =
    | NotWalked
    | Summary(counts: Keyed<nat>, last: Keyed<Option<Instant>>, durations: Keyed<Duration>, statLine: string)

  const NotWalkedMessage := "This Cadet has not walked in space."

  function CardInitial(now: Instant): CardState
  {
    CardState(Keyed(0, 0, 0), Keyed(None, None, None), Keyed(now, now, now))
  }

  /** One step of the card's reducer. */
  function CardStep(c: CardState, p: Pass, now: Instant): CardState
  {
    var d := Elapsed(p, now);
    var c1 := CardState(
      c.counts.(total := c.counts.total + 1),
      c.last.(total := Some(Later(c.last.total, p.startAt))),
      c.ends.(total := Add(c.ends.total, d)));
    if p.isPersonal then
      CardState(
        c1.counts.(personal := c1.counts.personal + 1),
        c1.last.(personal := Some(Later(c1.last.personal, p.startAt))),
        c1.ends.(personal := Add(c1.ends.personal, d)))
    else
      CardState(
        c1.counts.(official := c1.counts.official + 1),
        c1.last,
        c1.ends.(official := Add(c1.ends.official, d)))
  }

  function CardStepAt(now: Instant): (CardState, Pass) -> CardState
  {
    (c: CardState, p: Pass) => CardStep(c, p, now)
  }

  /** " walk " for one pass, " walks " otherwise. */
  function WalkNoun(count: nat): string
  {
    if count != 1 then " walks " else " walk "
  }

  /** `getStatString(count, duration)`: the count, "walk" or "walks", then
      the digital duration. The line reads back: its leading digits are the
      count, then comes the noun, then a clock reading of the duration. */
  function GetStatString(count: nat, d: Duration): (r: string)
    ensures var n := |NatToString(count)|;
      var m := n + |WalkNoun(count)|;
      && m <= |r|
      && AllDigits(r[..n]) && ParseDigits(r[..n]) == count
      && r[n..m] == (if count == 1 then " walk " else " walks ")
      && ParseClock(r[m..]) == Some(Clock(d.hours, d.minutes, d.seconds))
  {
    ParseNatToString(count);
    FormatDurationDigitalRoundTrip(d);
    ThreePieces(NatToString(count), WalkNoun(count), FormatDurationDigital(d), count, Clock(d.hours, d.minutes, d.seconds));
    NatToString(count) + WalkNoun(count) + FormatDurationDigital(d)
  }

  lemma ThreePieces(a: string, b: string, c: string, n: nat, clock: Clock)
    requires AllDigits(a) && ParseDigits(a) == n
    requires ParseClock(c) == Some(clock)
    ensures AllDigits((a + b + c)[..|a|]) && ParseDigits((a + b + c)[..|a|]) == n
    ensures (a + b + c)[|a|..|a| + |b|] == b
    ensures ParseClock((a + b + c)[|a| + |b|..]) == Some(clock)
  {
    assert (a + b + c)[..|a|] == a;
    assert (a + b + c)[|a| + |b|..] == c;
  }

  /** The card's accumulator tracks the `getPassStats` one: same counts,
      same instants, same latest total and personal starts, and no latest
      official start. */
  ghost predicate Tracks(c: CardState, s: PassStats)
  {
    && c.counts == s.counts
    && c.ends == s.times
    && c.last.total == s.last.total
    && c.last.personal == s.last.personal
    && c.last.official == None
  }

  lemma CardStepTracks(c: CardState, s: PassStats, p: Pass, now: Instant)
    requires Tracks(c, s)
    ensures Tracks(CardStep(c, p, now), Step(s, p, now))
  {
  }

  /** The card's fold, evaluated at instant `now`. */
  function CardFold(passes: seq<Pass>, now: Instant): (c: CardState)
    ensures Tracks(c, Reduce(StepAt(now), Initial(now), passes))
  {
    forall c, s, p | Tracks(c, s)
      ensures Tracks(CardStepAt(now)(c, p), StepAt(now)(s, p))
    {
      CardStepTracks(c, s, p, now);
    }
    ReduceSimulation(CardStepAt(now), StepAt(now), (c, s) => Tracks(c, s),
                     CardInitial(now), Initial(now), passes);
    Reduce(CardStepAt(now), CardInitial(now), passes)
  }

  /** `HallPassHistoryCard({ passes })` at instant `now`. */
  function HistoryCardView(passes: seq<Pass>, now: Instant): (v: CardView)
    ensures v.NotWalked? <==> |passes| == 0
    ensures v.Summary? ==>
      && v.counts == GetPassStats(passes, now).counts
      && v.durations == GetPassStats(passes, now).durations
      && v.last.total == GetPassStats(passes, now).last.total
      && v.last.personal == GetPassStats(passes, now).last.personal
      && v.last.official == None
      && v.statLine == GetStatString(v.counts.personal, v.durations.personal)
    ensures v.Summary? ==>
      && v.counts.total == v.counts.personal + v.counts.official == |passes|
      && (forall k :: ToSeconds(v.durations.Get(k)) == SecondsIn(passes, k, now))
      && IsLatestStart(passes, Total, v.last.total)
      && IsLatestStart(passes, Personal, v.last.personal)
  {
    if |passes| == 0 then NotWalked
    else
      var c := CardFold(passes, now);
      var durations := Keyed(
        IntervalToDuration(now, c.ends.total),
        IntervalToDuration(now, c.ends.personal),
        IntervalToDuration(now, c.ends.official));
      ghost var s := GetPassStats(passes, now);
      assert c.ends == s.times;
      assert durations.total == s.durations.Get(Total);
      assert durations.personal == s.durations.Get(Personal);
      assert durations.official == s.durations.Get(Official);
      assert IsLatestStart(passes, Total, s.last.Get(Total));
      assert IsLatestStart(passes, Personal, s.last.Get(Personal));
      Summary(c.counts, c.last, durations, GetStatString(c.counts.personal, durations.personal))
  }
}
