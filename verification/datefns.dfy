/** The two date-fns primitives the core relies on, `intervalToDuration`
    and `add`, over instants counted in whole seconds.

    `intervalToDuration` is modelled as the canonical decomposition of the
    elapsed seconds into days, hours, minutes and seconds with fixed-length
    days; it never produces weeks, months or years. Like the library, it
    yields the same breakdown whichever way round the two instants are. */
module DateFns {

  /** An instant, in seconds since the epoch. */
  type Instant = int

  const SecondsPerMinute := 60
  const SecondsPerHour := 3600
  const SecondsPerDay := 86400

  /** date-fns `Duration`; the source's optional fields are all present here,
      an absent field being 0. */
  datatype Duration = Duration(
    years: nat, months: nat, weeks: nat, days: nat,
    hours: nat, minutes: nat, seconds: nat)

  const Zero := Duration(0, 0, 0, 0, 0, 0, 0)

  function Abs(x: int): nat { if x < 0 then -x else x }

  /** Length of a duration in seconds, with a week of 7 days, a month of 30
      days and a year of 365 days. */
  function ToSeconds(d: Duration): nat
  {
    ((((d.years * 365 + d.months * 30 + d.weeks * 7 + d.days) * 24
       + d.hours) * 60 + d.minutes) * 60 + d.seconds)
  }

  /** The shape `intervalToDuration` produces: no calendar units above days
      and every sub-day field within its range. */
  predicate Canonical(d: Duration)
  {
    && d.years == 0 && d.months == 0 && d.weeks == 0
    && d.hours < 24 && d.minutes < 60 && d.seconds < 60
  }

  /** Decomposes `t` seconds into days, hours, minutes and seconds. */
  function FromSeconds(t: nat): (d: Duration)
    ensures Canonical(d)
    ensures ToSeconds(d) == t
  {
    var days := t / SecondsPerDay;
    var inDay := t % SecondsPerDay;
    var hours := inDay / SecondsPerHour;
    var inHour := inDay % SecondsPerHour;
    Duration(0, 0, 0, days, hours, inHour / SecondsPerMinute, inHour % SecondsPerMinute)
  }

  /** A canonical duration is the decomposition of its own length: the
      canonical form is unique. */
  lemma CanonicalRoundTrip(d: Duration)
    requires Canonical(d)
    ensures FromSeconds(ToSeconds(d)) == d
  {
    var t := ToSeconds(d);
    var inHour := d.minutes * 60 + d.seconds;
    var inDay := d.hours * 3600 + inHour;
    assert t == d.days * SecondsPerDay + inDay;
    assert t / SecondsPerDay == d.days && t % SecondsPerDay == inDay;
    assert inDay / SecondsPerHour == d.hours && inDay % SecondsPerHour == inHour;
  }

  /** `intervalToDuration({start, end})`. */
  function IntervalToDuration(start: Instant, end: Instant): (d: Duration)
    ensures Canonical(d)
    ensures ToSeconds(d) == Abs(end - start)
  {
    FromSeconds(Abs(end - start))
  }

  /** `add(t, d)`: the instant `d` after `t`. */
  function Add(t: Instant, d: Duration): (r: Instant)
    ensures r >= t
    ensures Canonical(d) ==> IntervalToDuration(t, r) == d
  {
    CanonicalRoundTripWhen(d);
    t + ToSeconds(d)
  }

  lemma CanonicalRoundTripWhen(d: Duration)
    ensures Canonical(d) ==> FromSeconds(ToSeconds(d)) == d
  {
    if Canonical(d) {
      CanonicalRoundTrip(d);
    }
  }

  lemma IntervalToSelfIsZero(t: Instant)
    ensures IntervalToDuration(t, t) == Zero
  {
  }
}
