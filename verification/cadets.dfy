/** The cadets report: one row per student with the statistics of their
    passes, sorted by the column named in the query. */
module CadetsReport {
  import opened Options
  import opened DateFns
  import opened Ordering
  import opened Passes
  import opened PassStatistics
  import opened SearchParams
  import opened Reports
  import Strings
  import Utils

  /** A student with their passes, as loaded. */
  datatype StudentPasses = StudentPasses(student: Student, passes: seq<Pass>)

  /** `StudentStat`: the student's fields and the statistics of their passes. */
  datatype StudentStat = StudentStat(student: Student, passStats: PassStats)

  /** The row of one student. */
  function ToStat(s: StudentPasses, now: Instant): (r: StudentStat)
    ensures r.student == s.student
    ensures r.passStats.counts.total == |s.passes|
    ensures forall k :: r.passStats.counts.Get(k) == CountIn(s.passes, k)
    ensures forall k :: Canonical(r.passStats.durations.Get(k))
    ensures forall k :: ToSeconds(r.passStats.durations.Get(k)) == SecondsIn(s.passes, k, now)
  {
    StudentStat(s.student, GetPassStats(s.passes, now))
  }

  /** `studentsRaw.map(...)`: one row per student, in order. */
  function Rows(students: seq<StudentPasses>, now: Instant): (rows: seq<StudentStat>)
    ensures |rows| == |students|
    ensures forall i :: 0 <= i < |rows| ==> rows[i] == ToStat(students[i], now)
  {
    seq(|students|, i requires 0 <= i < |students| => ToStat(students[i], now))
  }

  /** `countCmp(a, b, key, directionFactor)`: the direction applies to the
      count difference only; a tie falls back to ascending names. */
  function CountCmp(a: StudentStat, b: StudentStat, key: StatKey, factor: int): int
  {
    var diff := (a.passStats.counts.Get(key) - b.passStats.counts.Get(key)) * factor;
    if diff != 0 then diff else NameCmp(a.student, b.student)
  }

  /** `durationCmp(a, b, key, directionFactor)`, likewise over durations. */
  function DurationCmp(a: StudentStat, b: StudentStat, key: StatKey, factor: int): int
  {
    var diff := Utils.CompareDurations(a.passStats.durations.Get(key), b.passStats.durations.Get(key)) * factor;
    if diff != 0 then diff else NameCmp(a.student, b.student)
  }

  /** The "period" comparator: periods in the chosen direction, ties by
      ascending names. */
  function PeriodCmp(a: StudentStat, b: StudentStat, factor: int): int
  {
    var diff := Strings.Compare(a.student.period, b.student.period) * factor;
    if diff != 0 then diff else NameCmp(a.student, b.student)
  }

  const SortKeys := ["cadet", "period", "recCount", "officialCount", "totalCount",
                     "recDuration", "officialDuration", "totalDuration"]

  /** The comparator the loader hands to `sort` for a sort key, or `None`
      for a key it does not recognise. */
  function CadetComparator(key: string, factor: int): (c: Option<(StudentStat, StudentStat) -> int>)
    ensures c.Some? <==> key in SortKeys
  {
    if key == "cadet" then Some((a: StudentStat, b: StudentStat) => NameCmp(a.student, b.student) * factor)
    else if key == "period" then Some((a: StudentStat, b: StudentStat) => PeriodCmp(a, b, factor))
    else if key == "recCount" then Some((a: StudentStat, b: StudentStat) => CountCmp(a, b, Personal, factor))
    else if key == "officialCount" then Some((a: StudentStat, b: StudentStat) => CountCmp(a, b, Official, factor))
    else if key == "totalCount" then Some((a: StudentStat, b: StudentStat) => CountCmp(a, b, Total, factor))
    else if key == "recDuration" then Some((a: StudentStat, b: StudentStat) => DurationCmp(a, b, Personal, factor))
    else if key == "officialDuration" then Some((a: StudentStat, b: StudentStat) => DurationCmp(a, b, Official, factor))
    else if key == "totalDuration" then Some((a: StudentStat, b: StudentStat) => DurationCmp(a, b, Total, factor))
    else None
  }

  const StatNameOrder := On(NameOrder, (s: StudentStat) => s.student)

  /** A primary comparison in either direction, ties broken by ascending
      names, is a total preorder. */
  lemma TieBreakPreorder(primary: (StudentStat, StudentStat) -> int, factor: int)
    requires TotalPreorder(primary)
    requires factor == 1 || factor == -1
    ensures TotalPreorder(ThenBy(Scaled(primary, factor), StatNameOrder))
  {
    NameOrderPreorder();
    OnPreorder(NameOrder, (s: StudentStat) => s.student);
    ScaledPreorder(primary, factor);
    ThenByPreorder(Scaled(primary, factor), StatNameOrder);
  }

  lemma NameColumnPreorder(factor: int)
    requires factor == 1 || factor == -1
    ensures TotalPreorder(CadetComparator("cadet", factor).value)
  {
    NameOrderPreorder();
    OnPreorder(NameOrder, (s: StudentStat) => s.student);
    ScaledPreorder(StatNameOrder, factor);
    SameSignPreorder(CadetComparator("cadet", factor).value, Scaled(StatNameOrder, factor));
  }

  lemma PeriodColumnPreorder(factor: int)
    requires factor == 1 || factor == -1
    ensures TotalPreorder(CadetComparator("period", factor).value)
  {
    var byPeriod := On(StringOrder, (s: StudentStat) => s.student.period);
    StringOrderPreorder();
    OnPreorder(StringOrder, (s: StudentStat) => s.student.period);
    TieBreakPreorder(byPeriod, factor);
    SameSignPreorder(CadetComparator("period", factor).value, ThenBy(Scaled(byPeriod, factor), StatNameOrder));
  }

  /** The comparator of a count column, as the loader builds it. */
  lemma CountColumnPreorder(k: StatKey, factor: int)
    requires factor == 1 || factor == -1
    ensures TotalPreorder((a: StudentStat, b: StudentStat) => CountCmp(a, b, k, factor))
  {
    var byCount := On(Difference, (s: StudentStat) => s.passStats.counts.Get(k) as int);
    DifferencePreorder();
    OnPreorder(Difference, (s: StudentStat) => s.passStats.counts.Get(k) as int);
    TieBreakPreorder(byCount, factor);
    SameSignPreorder((a: StudentStat, b: StudentStat) => CountCmp(a, b, k, factor),
                     ThenBy(Scaled(byCount, factor), StatNameOrder));
  }

  /** The comparator of a duration column, as the loader builds it. */
  lemma DurationColumnPreorder(k: StatKey, factor: int)
    requires factor == 1 || factor == -1
    ensures TotalPreorder((a: StudentStat, b: StudentStat) => DurationCmp(a, b, k, factor))
  {
    var durationOrder := (a: Duration, b: Duration) => Utils.CompareDurations(a, b);
    var byDuration := On(durationOrder, (s: StudentStat) => s.passStats.durations.Get(k));
    Utils.CompareDurationsPreorder();
    OnPreorder(durationOrder, (s: StudentStat) => s.passStats.durations.Get(k));
    TieBreakPreorder(byDuration, factor);
    SameSignPreorder((a: StudentStat, b: StudentStat) => DurationCmp(a, b, k, factor),
                     ThenBy(Scaled(byDuration, factor), StatNameOrder));
  }

  /** Every comparator the loader can choose is a total preorder, so the
      sort is well defined. */
  lemma CadetComparatorPreorder(key: string, factor: int)
    requires factor == 1 || factor == -1
    requires CadetComparator(key, factor).Some?
    ensures TotalPreorder(CadetComparator(key, factor).value)
  {
    if key == "cadet" {
      NameColumnPreorder(factor);
    } else if key == "period" {
      PeriodColumnPreorder(factor);
    } else if key == "recCount" || key == "officialCount" || key == "totalCount" {
      var k := if key == "recCount" then Personal else if key == "officialCount" then Official else Total;
      CountColumnPreorder(k, factor);
      assert CadetComparator(key, factor).value == (a: StudentStat, b: StudentStat) => CountCmp(a, b, k, factor);
    } else {
      var k := if key == "recDuration" then Personal else if key == "officialDuration" then Official else Total;
      DurationColumnPreorder(k, factor);
      assert CadetComparator(key, factor).value == (a: StudentStat, b: StudentStat) => DurationCmp(a, b, k, factor);
    }
  }

  /** The cadets loader after the data access: build the rows, then sort
      them when the key is recognised. */
  function CadetsLoader(students: seq<StudentPasses>, query: Params, now: Instant): (r: seq<StudentStat>)
    ensures |r| == |students|
    ensures multiset(r) == multiset(Rows(students, now))
    ensures CadetComparator(SortKey(query), DirectionFactor(query)).None? ==> r == Rows(students, now)
    ensures CadetComparator(SortKey(query), DirectionFactor(query)).Some? ==>
      SortedBy(CadetComparator(SortKey(query), DirectionFactor(query)).value, r)
    ensures CadetComparator(SortKey(query), DirectionFactor(query)).Some? ==>
      var cmp := CadetComparator(SortKey(query), DirectionFactor(query)).value;
      forall p: StudentStat :: Ties(cmp, p, r) == Ties(cmp, p, Rows(students, now))
  {
    var rows := Rows(students, now);
    match CadetComparator(SortKey(query), DirectionFactor(query))
    case None => rows
    case Some(cmp) =>
      CadetComparatorPreorder(SortKey(query), DirectionFactor(query));
      SortSorted(cmp, rows);
      forall p: StudentStat ensures Ties(cmp, p, Sort(cmp, rows)) == Ties(cmp, p, rows) {
        SortStable(cmp, p, rows);
      }
      Sort(cmp, rows)
  }

  /** Every output row is the row of some input student. */
  lemma LoaderRowsComeFromStudents(students: seq<StudentPasses>, query: Params, now: Instant)
    ensures forall r :: r in CadetsLoader(students, query, now) ==>
      exists i :: 0 <= i < |students| && r == ToStat(students[i], now)
  {
    var out, rows := CadetsLoader(students, query, now), Rows(students, now);
    forall r | r in out
      ensures exists i :: 0 <= i < |students| && r == ToStat(students[i], now)
    {
      assert r in multiset(out);
      assert r in rows;
      var i :| 0 <= i < |rows| && rows[i] == r;
    }
  }

  /** Descending by name is exactly ascending read backwards. */
  lemma CadetDescendingIsReverse(a: StudentStat, b: StudentStat)
    ensures CadetComparator("cadet", -1).value(a, b) == CadetComparator("cadet", 1).value(b, a)
  {
    NameCmpAntisymmetric(a.student, b.student);
  }

  /** Under "period", only the period comparison turns round; students
      of the same period stay in ascending name order in both directions. */
  lemma PeriodDescendingKeepsNameTieBreak(a: StudentStat, b: StudentStat)
    ensures a.student.period != b.student.period ==>
      PeriodCmp(a, b, -1) == PeriodCmp(b, a, 1)
    ensures a.student.period == b.student.period ==>
      PeriodCmp(a, b, -1) == PeriodCmp(a, b, 1) == NameCmp(a.student, b.student)
  {
    Strings.CompareAntisymmetric(a.student.period, b.student.period);
  }

  /** Sorted by a count column: counts run up (ascending) or down
      (descending), and equal counts are in ascending name order either way. */
  lemma SortedByCount(r: seq<StudentStat>, key: StatKey, factor: int)
    requires factor == 1 || factor == -1
    requires SortedBy((a: StudentStat, b: StudentStat) => CountCmp(a, b, key, factor), r)
    ensures forall i, j :: 0 <= i < j < |r| ==>
      var ci, cj := r[i].passStats.counts.Get(key), r[j].passStats.counts.Get(key);
      && (factor == 1 ==> ci <= cj)
      && (factor == -1 ==> ci >= cj)
      && (ci == cj ==> NameCmp(r[i].student, r[j].student) <= 0)
  {
    forall i, j | 0 <= i < j < |r|
      ensures var ci, cj := r[i].passStats.counts.Get(key), r[j].passStats.counts.Get(key);
        && (factor == 1 ==> ci <= cj)
        && (factor == -1 ==> ci >= cj)
        && (ci == cj ==> NameCmp(r[i].student, r[j].student) <= 0)
    {
      assert CountCmp(r[i], r[j], key, factor) <= 0;
    }
  }

  /** Sorted by a duration column, rows whose durations are canonical run
      up (ascending) or down (descending) in elapsed seconds, and equal
      durations are in ascending name order either way. */
  lemma SortedByDuration(r: seq<StudentStat>, key: StatKey, factor: int)
    requires factor == 1 || factor == -1
    requires forall i :: 0 <= i < |r| ==> Canonical(r[i].passStats.durations.Get(key))
    requires SortedBy((a: StudentStat, b: StudentStat) => DurationCmp(a, b, key, factor), r)
    ensures forall i, j :: 0 <= i < j < |r| ==>
      var di, dj := r[i].passStats.durations.Get(key), r[j].passStats.durations.Get(key);
      && (factor == 1 ==> ToSeconds(di) <= ToSeconds(dj))
      && (factor == -1 ==> ToSeconds(di) >= ToSeconds(dj))
      && (di == dj ==> NameCmp(r[i].student, r[j].student) <= 0)
  {
    forall i, j | 0 <= i < j < |r|
      ensures var di, dj := r[i].passStats.durations.Get(key), r[j].passStats.durations.Get(key);
        && (factor == 1 ==> ToSeconds(di) <= ToSeconds(dj))
        && (factor == -1 ==> ToSeconds(di) >= ToSeconds(dj))
        && (di == dj ==> NameCmp(r[i].student, r[j].student) <= 0)
    {
      var di, dj := r[i].passStats.durations.Get(key), r[j].passStats.durations.Get(key);
      assert DurationCmp(r[i], r[j], key, factor) <= 0;
      Utils.CompareCanonicalBySeconds(di, dj);
    }
  }

  /** The loader's output under a duration key orders the students by the
      elapsed seconds of that group's passes; equal durations are in
      ascending name order. */
  lemma LoaderDurationOrder(students: seq<StudentPasses>, query: Params, now: Instant, key: StatKey)
    requires SortKey(query) == (match key case Personal => "recDuration"
                                          case Official => "officialDuration"
                                          case Total => "totalDuration")
    ensures var r := CadetsLoader(students, query, now);
      forall i, j :: 0 <= i < j < |r| ==>
        var di, dj := r[i].passStats.durations.Get(key), r[j].passStats.durations.Get(key);
        && (DirectionFactor(query) == 1 ==> ToSeconds(di) <= ToSeconds(dj))
        && (DirectionFactor(query) == -1 ==> ToSeconds(di) >= ToSeconds(dj))
        && (di == dj ==> NameCmp(r[i].student, r[j].student) <= 0)
  {
    var r, f := CadetsLoader(students, query, now), DirectionFactor(query);
    LoaderRowsComeFromStudents(students, query, now);
    forall i | 0 <= i < |r| ensures Canonical(r[i].passStats.durations.Get(key)) {
      assert r[i] in r;
    }
    assert CadetComparator(SortKey(query), f).value
        == (a: StudentStat, b: StudentStat) => DurationCmp(a, b, key, f);
    SortedByDuration(r, key, f);
  }

  /** The loader's output under a count key orders the students by that
      group's number of passes; equal counts are in ascending name order. */
  lemma LoaderCountOrder(students: seq<StudentPasses>, query: Params, now: Instant, key: StatKey)
    requires SortKey(query) == (match key case Personal => "recCount"
                                          case Official => "officialCount"
                                          case Total => "totalCount")
    ensures var r := CadetsLoader(students, query, now);
      forall i, j :: 0 <= i < j < |r| ==>
        var ci, cj := r[i].passStats.counts.Get(key), r[j].passStats.counts.Get(key);
        && (DirectionFactor(query) == 1 ==> ci <= cj)
        && (DirectionFactor(query) == -1 ==> ci >= cj)
        && (ci == cj ==> NameCmp(r[i].student, r[j].student) <= 0)
  {
    var r, f := CadetsLoader(students, query, now), DirectionFactor(query);
    assert CadetComparator(SortKey(query), f).value
        == (a: StudentStat, b: StudentStat) => CountCmp(a, b, key, f);
    SortedByCount(r, key, f);
  }
}
