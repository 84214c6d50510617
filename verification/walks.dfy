/** The walks report: one row per pass with its student and elapsed
    duration, sorted by the column named in the query. */
module WalksReport {
  import opened Options
  import opened DateFns
  import opened Ordering
  import opened SearchParams
  import opened Reports
  import Strings
  import Utils

  /** A pass as loaded for this report, with its student. */
  datatype WalkPass = WalkPass(student: Student, startAt: Instant, endAt: Option<Instant>)

  /** One row: the student and the pass's duration. */
  datatype WalkRow = WalkRow(student: Student, duration: Duration)

  /** The row of one pass, measured to `now` while the pass is open
      (`endAt ?? new Date()`). */
  function ToRow(p: WalkPass, now: Instant): (r: WalkRow)
    ensures r.student == p.student
    ensures Canonical(r.duration)
    ensures p.endAt.Some? ==> ToSeconds(r.duration) == Abs(p.endAt.value - p.startAt)
    ensures p.endAt.None? ==> ToSeconds(r.duration) == Abs(now - p.startAt)
  {
    WalkRow(p.student, IntervalToDuration(p.startAt, p.endAt.GetOr(now)))
  }

  /** `passesRaw.map(...)`: one row per pass, in order. */
  function WalkRows(passes: seq<WalkPass>, now: Instant): (rows: seq<WalkRow>)
    ensures |rows| == |passes|
    ensures forall i :: 0 <= i < |rows| ==> rows[i] == ToRow(passes[i], now)
  {
    seq(|passes|, i requires 0 <= i < |passes| => ToRow(passes[i], now))
  }

  /** `durationCmp(a, b, directionFactor)`: the direction applies to the
      duration comparison only; equal durations fall back to ascending
      names. */
  function DurationCmp(a: WalkRow, b: WalkRow, factor: int): int
  {
    var diff := Utils.CompareDurations(a.duration, b.duration) * factor;
    if diff != 0 then diff else NameCmp(a.student, b.student)
  }

  /** The "period" comparator: periods in the chosen direction, ties by
      ascending names. */
  function PeriodCmp(a: WalkRow, b: WalkRow, factor: int): int
  {
    var diff := Strings.Compare(a.student.period, b.student.period) * factor;
    if diff != 0 then diff else NameCmp(a.student, b.student)
  }

  const WalkSortKeys := ["cadet", "period", "duration"]

  /** The comparator the loader hands to `sort`, or `None` for a key it
      does not recognise. */
  function WalkComparator(key: string, factor: int): (c: Option<(WalkRow, WalkRow) -> int>)
    ensures c.Some? <==> key in WalkSortKeys
  {
    if key == "cadet" then Some((a: WalkRow, b: WalkRow) => NameCmp(a.student, b.student) * factor)
    else if key == "period" then Some((a: WalkRow, b: WalkRow) => PeriodCmp(a, b, factor))
    else if key == "duration" then Some((a: WalkRow, b: WalkRow) => DurationCmp(a, b, factor))
    else None
  }

  const RowNameOrder := On(NameOrder, (r: WalkRow) => r.student)

  lemma NameColumnPreorder(factor: int)
    requires factor == 1 || factor == -1
    ensures TotalPreorder(WalkComparator("cadet", factor).value)
  {
    NameOrderPreorder();
    OnPreorder(NameOrder, (r: WalkRow) => r.student);
    ScaledPreorder(RowNameOrder, factor);
    SameSignPreorder(WalkComparator("cadet", factor).value, Scaled(RowNameOrder, factor));
  }

  /** A primary comparison in either direction, ties broken by ascending
      names, is a total preorder. */
  lemma TieBreakPreorder(primary: (WalkRow, WalkRow) -> int, factor: int)
    requires TotalPreorder(primary)
    requires factor == 1 || factor == -1
    ensures TotalPreorder(ThenBy(Scaled(primary, factor), RowNameOrder))
  {
    NameOrderPreorder();
    OnPreorder(NameOrder, (r: WalkRow) => r.student);
    ScaledPreorder(primary, factor);
    ThenByPreorder(Scaled(primary, factor), RowNameOrder);
  }

  lemma PeriodColumnPreorder(factor: int)
    requires factor == 1 || factor == -1
    ensures TotalPreorder(WalkComparator("period", factor).value)
  {
    var byPeriod := On(StringOrder, (r: WalkRow) => r.student.period);
    StringOrderPreorder();
    OnPreorder(StringOrder, (r: WalkRow) => r.student.period);
    TieBreakPreorder(byPeriod, factor);
    SameSignPreorder(WalkComparator("period", factor).value, ThenBy(Scaled(byPeriod, factor), RowNameOrder));
  }

  lemma DurationColumnPreorder(factor: int)
    requires factor == 1 || factor == -1
    ensures TotalPreorder(WalkComparator("duration", factor).value)
  {
    var durationOrder := (a: Duration, b: Duration) => Utils.CompareDurations(a, b);
    var byDuration := On(durationOrder, (r: WalkRow) => r.duration);
    Utils.CompareDurationsPreorder();
    OnPreorder(durationOrder, (r: WalkRow) => r.duration);
    TieBreakPreorder(byDuration, factor);
    SameSignPreorder(WalkComparator("duration", factor).value, ThenBy(Scaled(byDuration, factor), RowNameOrder));
  }

  /** Every comparator the loader can choose is a total preorder. */
  lemma WalkComparatorPreorder(key: string, factor: int)
    requires factor == 1 || factor == -1
    requires WalkComparator(key, factor).Some?
    ensures TotalPreorder(WalkComparator(key, factor).value)
  {
    if key == "cadet" {
      NameColumnPreorder(factor);
    } else if key == "period" {
      PeriodColumnPreorder(factor);
    } else {
      DurationColumnPreorder(factor);
    }
  }

  /** The walks loader after the data access. */
  function WalksLoader(passes: seq<WalkPass>, query: Params, now: Instant): (r: seq<WalkRow>)
    ensures |r| == |passes|
    ensures multiset(r) == multiset(WalkRows(passes, now))
    ensures WalkComparator(SortKey(query), DirectionFactor(query)).None? ==> r == WalkRows(passes, now)
    ensures WalkComparator(SortKey(query), DirectionFactor(query)).Some? ==>
      SortedBy(WalkComparator(SortKey(query), DirectionFactor(query)).value, r)
    ensures WalkComparator(SortKey(query), DirectionFactor(query)).Some? ==>
      var cmp := WalkComparator(SortKey(query), DirectionFactor(query)).value;
      forall p: WalkRow :: Ties(cmp, p, r) == Ties(cmp, p, WalkRows(passes, now))
  {
    var rows := WalkRows(passes, now);
    match WalkComparator(SortKey(query), DirectionFactor(query))
    case None => rows
    case Some(cmp) =>
      WalkComparatorPreorder(SortKey(query), DirectionFactor(query));
      SortSorted(cmp, rows);
      forall p: WalkRow ensures Ties(cmp, p, Sort(cmp, rows)) == Ties(cmp, p, rows) {
        SortStable(cmp, p, rows);
      }
      Sort(cmp, rows)
  }

  /** Equal durations are in ascending name order in both directions;
      otherwise the direction turns the duration comparison round. */
  lemma DurationDescendingKeepsNameTieBreak(a: WalkRow, b: WalkRow)
    ensures a.duration != b.duration ==> DurationCmp(a, b, -1) == DurationCmp(b, a, 1)
    ensures a.duration == b.duration ==>
      DurationCmp(a, b, -1) == DurationCmp(a, b, 1) == NameCmp(a.student, b.student)
  {
    Utils.CompareDurationsAntisymmetric(a.duration, b.duration);
  }

  /** Rows sorted by duration whose durations are canonical run up
      (ascending) or down (descending) in elapsed seconds; equal durations
      are in ascending name order either way. */
  lemma SortedByDuration(r: seq<WalkRow>, factor: int)
    requires factor == 1 || factor == -1
    requires forall i :: 0 <= i < |r| ==> Canonical(r[i].duration)
    requires SortedBy((a: WalkRow, b: WalkRow) => DurationCmp(a, b, factor), r)
    ensures forall i, j :: 0 <= i < j < |r| ==>
      && (factor == 1 ==> ToSeconds(r[i].duration) <= ToSeconds(r[j].duration))
      && (factor == -1 ==> ToSeconds(r[i].duration) >= ToSeconds(r[j].duration))
      && (r[i].duration == r[j].duration ==> NameCmp(r[i].student, r[j].student) <= 0)
  {
    forall i, j | 0 <= i < j < |r|
      ensures && (factor == 1 ==> ToSeconds(r[i].duration) <= ToSeconds(r[j].duration))
              && (factor == -1 ==> ToSeconds(r[i].duration) >= ToSeconds(r[j].duration))
              && (r[i].duration == r[j].duration ==> NameCmp(r[i].student, r[j].student) <= 0)
    {
      assert DurationCmp(r[i], r[j], factor) <= 0;
      Utils.CompareCanonicalBySeconds(r[i].duration, r[j].duration);
    }
  }

  /** The loader's output under "duration" orders the passes by elapsed
      seconds, longest first when descending; equal durations are in
      ascending name order. */
  lemma LoaderDurationOrder(passes: seq<WalkPass>, query: Params, now: Instant)
    requires SortKey(query) == "duration"
    ensures var r := WalksLoader(passes, query, now);
      forall i, j :: 0 <= i < j < |r| ==>
        && (DirectionFactor(query) == 1 ==> ToSeconds(r[i].duration) <= ToSeconds(r[j].duration))
        && (DirectionFactor(query) == -1 ==> ToSeconds(r[i].duration) >= ToSeconds(r[j].duration))
        && (r[i].duration == r[j].duration ==> NameCmp(r[i].student, r[j].student) <= 0)
  {
    var r, rows := WalksLoader(passes, query, now), WalkRows(passes, now);
    forall i | 0 <= i < |r| ensures Canonical(r[i].duration) {
      assert r[i] in multiset(rows);
      var k :| 0 <= k < |rows| && rows[k] == r[i];
    }
    SortedByDuration(r, DirectionFactor(query));
  }

  /** The loader's output under "period" orders the passes by period in the
      chosen direction; passes of one period are in ascending name order
      either way. */
  lemma LoaderPeriodOrder(passes: seq<WalkPass>, query: Params, now: Instant)
    requires SortKey(query) == "period"
    ensures var r, f := WalksLoader(passes, query, now), DirectionFactor(query);
      forall i, j :: 0 <= i < j < |r| ==>
        var pi, pj := r[i].student.period, r[j].student.period;
        && (f == 1 ==> Strings.Compare(pi, pj) <= 0)
        && (f == -1 ==> Strings.Compare(pj, pi) <= 0)
        && (pi == pj ==> NameCmp(r[i].student, r[j].student) <= 0)
  {
    var r, f := WalksLoader(passes, query, now), DirectionFactor(query);
    assert WalkComparator(SortKey(query), f).value
        == (a: WalkRow, b: WalkRow) => PeriodCmp(a, b, f);
    forall i, j | 0 <= i < j < |r|
      ensures var pi, pj := r[i].student.period, r[j].student.period;
        && (f == 1 ==> Strings.Compare(pi, pj) <= 0)
        && (f == -1 ==> Strings.Compare(pj, pi) <= 0)
        && (pi == pj ==> NameCmp(r[i].student, r[j].student) <= 0)
    {
      assert PeriodCmp(r[i], r[j], f) <= 0;
      Strings.CompareAntisymmetric(r[i].student.period, r[j].student.period);
    }
  }
}
