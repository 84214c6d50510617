/** The shared helpers of `app/utils/utils.ts`: redirect and e-mail checks,
    the digital clock rendering of a duration, duration comparison, the
    three-level status classification and `capitalizeString`. */
module Utils {
  import opened Options
  import opened Strings
  import opened DateFns
  import opened Ordering
  import opened Passes
  import opened UserSettingsHook

  // ---- safeRedirect ------------------------------------------------------

  const DefaultRedirect := "/"

  /** A value read from a form or query: absent (`null`/`undefined`),
      text, or an uploaded file. */
  datatype FormEntry = Missing | TextEntry(s: string) | Upload

  /** A path that stays on this site: it starts with "/" but not "//". */
  predicate IsLocalPath(s: string)
  {
    StartsWith(s, "/") && !StartsWith(s, "//")
  }

  /** `safeRedirect(to, defaultRedirect)`: the requested destination when it
      is a local path, the default otherwise (missing, not text, empty, not
      starting with "/", or starting with "//"). */
  function SafeRedirect(to: FormEntry, defaultRedirect: string): (r: string)
    ensures to.TextEntry? && IsLocalPath(to.s) ==> r == to.s
    ensures !(to.TextEntry? && IsLocalPath(to.s)) ==> r == defaultRedirect
  {
    if to.Missing? || to.Upload? || to.s == "" then defaultRedirect
    else if !StartsWith(to.s, "/") || StartsWith(to.s, "//") then defaultRedirect
    else to.s
  }

  /** With the default destination "/", every result is a local path, and
      a result fed back in is returned unchanged. */
  lemma SafeRedirectIsLocal(to: FormEntry, d: string)
    ensures IsLocalPath(SafeRedirect(to, DefaultRedirect))
    ensures SafeRedirect(TextEntry(SafeRedirect(to, DefaultRedirect)), d) == SafeRedirect(to, DefaultRedirect)
  {
  }

  // ---- validateEmail -----------------------------------------------------

  /** A value of unknown type, as `validateEmail` receives it. */
  datatype Unknown = Str(s: string) | NonString

  /** `validateEmail(email)`: a string of more than three characters with
      an "@" somewhere in it. */
  function ValidateEmail(email: Unknown): (ok: bool)
    ensures ok <==> email.Str? && |email.s| >= 4 && exists i :: 0 <= i < |email.s| && email.s[i] == '@'
  {
    email.Str? && |email.s| > 3 && '@' in email.s
  }

  /** What passes is exactly a local part, an "@" and a domain of four or
      more characters in all: any such string passes, and every string
      that passes splits that way at some "@". Nothing but a string passes. */
  lemma ValidateEmailShape(local: string, domain: string, email: Unknown)
    ensures ValidateEmail(Str(local + "@" + domain)) <==> |local| + |domain| >= 3
    ensures ValidateEmail(email) ==>
      && email.Str?
      && exists i :: 0 <= i < |email.s| && email.s == email.s[..i] + "@" + email.s[i + 1..]
                     && |email.s[..i]| + |email.s[i + 1..]| >= 3
  {
    var s := local + "@" + domain;
    assert s[|local|] == '@';
    if ValidateEmail(email) {
      var t := email.s;
      var i :| 0 <= i < |t| && t[i] == '@';
      assert t == t[..i] + "@" + t[i + 1..];
    }
  }

  // ---- formatDurationDigital --------------------------------------------

  /** `String(n).padStart(2, "0")`. */
  function TwoDigits(n: nat): (r: string)
    ensures |r| >= 2 && AllDigits(r)
    ensures ParseDigits(r) == n
    ensures n < 100 ==> |r| == 2
  {
    var s := NatToString(n);
    var r := PadStart(s, 2, '0');
    ParseNatToString(n);
    assert r == r[..|r| - |s|] + s;
    ParseIgnoresLeadingZeros(r[..|r| - |s|], s);
    assert n < 100 ==> |s| <= 2 by {
      if n >= 10 && n < 100 {
        assert NatToString(n / 10) == [DigitChar(n / 10)];
      }
    }
    r
  }

  /** `formatDurationDigital(duration)`: "HH:MM:SS", or "MM:SS" when the
      hours field is zero; larger units are not shown. */
  function FormatDurationDigital(d: Duration): (r: string)
    ensures |r| >= 5
  {
    var minutesAndSeconds := TwoDigits(d.minutes) + ":" + TwoDigits(d.seconds);
    if d.hours != 0 then TwoDigits(d.hours) + ":" + minutesAndSeconds else minutesAndSeconds
  }

  /** What a digital clock reading shows. */
  datatype Clock = Clock(hours: nat, minutes: nat, seconds: nat)

  /** Reads "MM:SS" or "HH:MM:SS" back; any other shape is rejected. */
  function ParseClock(s: string): Option<Clock>
  {
    var parts := Split(s, ':');
    if |parts| == 2 && AllDigits(parts[0]) && AllDigits(parts[1]) then
      Some(Clock(0, ParseDigits(parts[0]), ParseDigits(parts[1])))
    else if |parts| == 3 && AllDigits(parts[0]) && AllDigits(parts[1]) && AllDigits(parts[2]) then
      Some(Clock(ParseDigits(parts[0]), ParseDigits(parts[1]), ParseDigits(parts[2])))
    else None
  }

  lemma DigitsHaveNoColon(s: string)
    requires AllDigits(s)
    ensures ':' !in s
  {
    forall i | 0 <= i < |s| ensures s[i] != ':' {
      assert IsDigit(s[i]);
    }
  }

  lemma SplitTwoParts(m: string, s: string)
    requires ':' !in m && ':' !in s
    ensures Split(m + ":" + s, ':') == [m, s]
  {
    SplitNoSeparator(s, ':');
    SplitAtSeparator(m, ':', s);
  }

  lemma SplitThreeParts(h: string, m: string, s: string)
    requires ':' !in h && ':' !in m && ':' !in s
    ensures Split(h + ":" + (m + ":" + s), ':') == [h, m, s]
  {
    SplitTwoParts(m, s);
    SplitAtSeparator(h, ':', m + ":" + s);
  }

  lemma ParseTwoParts(m: string, s: string)
    requires AllDigits(m) && AllDigits(s)
    ensures ParseClock(m + ":" + s) == Some(Clock(0, ParseDigits(m), ParseDigits(s)))
    ensures |Split(m + ":" + s, ':')| == 2
  {
    DigitsHaveNoColon(m);
    DigitsHaveNoColon(s);
    SplitTwoParts(m, s);
  }

  lemma ParseThreeParts(h: string, m: string, s: string)
    requires AllDigits(h) && AllDigits(m) && AllDigits(s)
    ensures ParseClock(h + ":" + (m + ":" + s))
            == Some(Clock(ParseDigits(h), ParseDigits(m), ParseDigits(s)))
    ensures |Split(h + ":" + (m + ":" + s), ':')| == 3
  {
    DigitsHaveNoColon(h);
    DigitsHaveNoColon(m);
    DigitsHaveNoColon(s);
    SplitThreeParts(h, m, s);
  }

  /** The digital rendering loses nothing it shows: reading it back gives
      the hours (zero when omitted), minutes and seconds of the duration,
      and the "HH:" prefix is present exactly when hours is nonzero. */
  lemma FormatDurationDigitalRoundTrip(d: Duration)
    ensures ParseClock(FormatDurationDigital(d)) == Some(Clock(d.hours, d.minutes, d.seconds))
    ensures |Split(FormatDurationDigital(d), ':')| == (if d.hours != 0 then 3 else 2)
  {
    if d.hours != 0 {
      ParseThreeParts(TwoDigits(d.hours), TwoDigits(d.minutes), TwoDigits(d.seconds));
    } else {
      ParseTwoParts(TwoDigits(d.minutes), TwoDigits(d.seconds));
    }
  }

  /** For a canonical duration under a day, the clock reading accounts for
      every second of it. */
  lemma ClockShowsAllOfSubDayDuration(d: Duration)
    requires Canonical(d) && d.days == 0
    ensures ParseClock(FormatDurationDigital(d)).Some?
    ensures var c := ParseClock(FormatDurationDigital(d)).value;
            c.hours * 3600 + c.minutes * 60 + c.seconds == ToSeconds(d)
  {
    FormatDurationDigitalRoundTrip(d);
    var c := ParseClock(FormatDurationDigital(d)).value;
    assert c == Clock(d.hours, d.minutes, d.seconds);
  }

  /** A zero duration renders as "00:00". */
  lemma ZeroDurationFormat()
    ensures FormatDurationDigital(Zero) == "00:00"
  {
    assert NatToString(0) == "0";
  }

  // ---- compareDurations -------------------------------------------------

  /** `compareDurations(a, b)`: the first nonzero field difference from
      years down to seconds, or 0. */
  function CompareDurations(a: Duration, b: Duration): (r: int)
    ensures r == 0 <==> a == b
  {
    if a.years != b.years then a.years - b.years
    else if a.months != b.months then a.months - b.months
    else if a.weeks != b.weeks then a.weeks - b.weeks
    else if a.days != b.days then a.days - b.days
    else if a.hours != b.hours then a.hours - b.hours
    else if a.minutes != b.minutes then a.minutes - b.minutes
    else a.seconds - b.seconds
  }

  lemma CompareDurationsAntisymmetric(a: Duration, b: Duration)
    ensures CompareDurations(a, b) == -CompareDurations(b, a)
  {
  }

  /** Duration comparison is a total preorder, so it can drive a sort. */
  lemma CompareDurationsPreorder()
    ensures TotalPreorder((a: Duration, b: Duration) => CompareDurations(a, b))
  {
    var c := (a: Duration, b: Duration) => CompareDurations(a, b);
    forall a, b ensures Sign(c(a, b)) == -Sign(c(b, a)) {
      CompareDurationsAntisymmetric(a, b);
    }
  }

  /** On the canonical durations that `intervalToDuration` produces, the
      field-by-field comparison orders by elapsed seconds. */
  lemma CompareCanonicalBySeconds(a: Duration, b: Duration)
    requires Canonical(a) && Canonical(b)
    ensures Sign(CompareDurations(a, b)) == Sign(ToSeconds(a) - ToSeconds(b))
  {
    var sa := a.hours * 3600 + a.minutes * 60 + a.seconds;
    var sb := b.hours * 3600 + b.minutes * 60 + b.seconds;
    assert ToSeconds(a) == a.days * 86400 + sa && ToSeconds(b) == b.days * 86400 + sb;
    assert 0 <= sa < 86400 && 0 <= sb < 86400;
    if a.days != b.days {
      if a.days < b.days {
        assert a.days * 86400 + 86400 <= b.days * 86400;
      } else {
        assert b.days * 86400 + 86400 <= a.days * 86400;
      }
    } else if a.hours != b.hours {
      if a.hours < b.hours {
        assert a.hours * 3600 + 3600 <= b.hours * 3600;
      } else {
        assert b.hours * 3600 + 3600 <= a.hours * 3600;
      }
    }
  }

  // ---- getDurationStatus ------------------------------------------------

  datatype DurationStatus = Good | Warning | Critical

  /** Severity order of the statuses. */
  function Rank(s: DurationStatus): nat
  {
    match s
    case Good => 0
    case Warning => 1
    case Critical => 2
  }

  /** Some unit of an hour or longer is nonzero. */
  predicate HasHourOrMore(d: Duration)
  {
    d.years != 0 || d.months != 0 || d.weeks != 0 || d.days != 0 || d.hours != 0
  }

  /** `getDurationStatus(duration, userSettings)`. Thresholds are in minutes
      and only the minutes field is compared with them; any unit of an hour
      or more makes the duration critical whatever the thresholds. */
  function GetDurationStatus(d: Duration, settings: UserSettings): (r: DurationStatus)
    ensures HasHourOrMore(d) ==> r == Critical
    ensures !HasHourOrMore(d) && d.minutes == 0 ==> r == Good
    ensures !HasHourOrMore(d) && d.minutes != 0 ==>
      && (r == Critical <==> d.minutes as real >= settings.critical)
      && (r == Warning <==> settings.warning <= d.minutes as real < settings.critical)
  {
    if HasHourOrMore(d) || (d.minutes != 0 && d.minutes as real >= settings.critical) then Critical
    else if d.minutes != 0 && d.minutes as real >= settings.warning then Warning
    else Good
  }

  /** The boundary cases at the default thresholds (warning 5, critical 10). */
  lemma DefaultStatusBoundaries()
    ensures GetDurationStatus(Duration(0, 0, 0, 0, 0, 5, 0), Defaults) == Warning
    ensures GetDurationStatus(Duration(0, 0, 0, 0, 0, 10, 0), Defaults) == Critical
    ensures GetDurationStatus(Duration(0, 0, 0, 0, 0, 4, 59), Defaults) == Good
    ensures GetDurationStatus(Duration(0, 0, 0, 0, 1, 0, 0), Defaults) == Critical
  {
  }

  /** A longer interval never has a lower status, whatever the thresholds. */
  lemma StatusMonotoneInElapsed(t1: nat, t2: nat, settings: UserSettings)
    requires t1 <= t2
    ensures Rank(GetDurationStatus(FromSeconds(t1), settings))
         <= Rank(GetDurationStatus(FromSeconds(t2), settings))
  {
    var d1, d2 := FromSeconds(t1), FromSeconds(t2);
    if t2 < 3600 {
      assert d1.minutes == t1 / 60 && d2.minutes == t2 / 60;
      assert t1 / 60 <= t2 / 60;
      assert !HasHourOrMore(d1) && !HasHourOrMore(d2);
    } else {
      assert d2.days != 0 || d2.hours != 0;
    }
  }

  /** Raising the thresholds never raises the status. */
  lemma StatusMonotoneInThresholds(d: Duration, lower: UserSettings, higher: UserSettings)
    requires lower.warning <= higher.warning && lower.critical <= higher.critical
    ensures Rank(GetDurationStatus(d, higher)) <= Rank(GetDurationStatus(d, lower))
  {
  }

  /** `getPassStatus(pass, userSettings)`: the status of the pass's elapsed
      time, measured to `now` while it is open. */
  function GetPassStatus(p: Pass, settings: UserSettings, now: Instant): (r: DurationStatus)
    ensures ElapsedSeconds(p, now) >= 3600 ==> r == Critical
    ensures ElapsedSeconds(p, now) < 60 ==> r == Good
  {
    var d := Elapsed(p, now);
    assert ToSeconds(d) >= 3600 ==> HasHourOrMore(d);
    GetDurationStatus(d, settings)
  }

  /** The status of a pass in terms of its elapsed seconds `t`: critical
      from an hour on, or from the critical minute; warning from the
      warning minute; whole minutes only. */
  lemma PassStatusBySeconds(p: Pass, settings: UserSettings, now: Instant)
    ensures var t := ElapsedSeconds(p, now);
      && (GetPassStatus(p, settings, now) == Critical <==>
            t >= 3600 || (t >= 60 && (t / 60) as real >= settings.critical))
      && (GetPassStatus(p, settings, now) == Warning <==>
            t < 3600 && t >= 60 && settings.warning <= (t / 60) as real < settings.critical)
  {
    var d := Elapsed(p, now);
    var t := ToSeconds(d);
    if t < 3600 {
      assert d.days == 0 && d.hours == 0;
      assert d.minutes == t / 60;
    } else {
      assert HasHourOrMore(d);
    }
  }

  // ---- capitalizeString --------------------------------------------------

  /** `capitalizeString(s)`: "" for a missing or empty string, otherwise the
      string with its first character upper-cased. */
  function CapitalizeString(s: Option<string>): (r: string)
    ensures s.None? || s.value == [] ==> r == []
    ensures s.Some? && s.value != [] ==>
      |r| == |s.value| && r[0] == UpperChar(s.value[0]) && r[1..] == s.value[1..]
  {
    if s.None? || s.value == [] then []
    else [UpperChar(s.value[0])] + s.value[1..]
  }

  /** Capitalizing twice is capitalizing once. */
  lemma CapitalizeIdempotent(s: Option<string>)
    ensures CapitalizeString(Some(CapitalizeString(s))) == CapitalizeString(s)
  {
  }
}
