/** A hall pass ("space walk") as the core reads it from the database. */
module Passes {
  import opened Options
  import opened DateFns

  /** `endAt` is `None` while the student is still out. */
  datatype Pass = Pass(id: string, startAt: Instant, endAt: Option<Instant>, isPersonal: bool)

  /** The end of the pass, or `now` for an open pass
      (`pass.endAt ? new Date(pass.endAt) : now`). */
  function EndOrNow(p: Pass, now: Instant): Instant
  {
    p.endAt.GetOr(now)
  }

  /** The pass's elapsed duration, measured to `now` while it is open. */
  function Elapsed(p: Pass, now: Instant): (d: Duration)
    ensures Canonical(d)
    ensures p.endAt.Some? ==> ToSeconds(d) == Abs(p.endAt.value - p.startAt)
    ensures p.endAt.None? ==> ToSeconds(d) == Abs(now - p.startAt)
  {
    IntervalToDuration(p.startAt, EndOrNow(p, now))
  }

  /** Elapsed seconds of the pass. */
  function ElapsedSeconds(p: Pass, now: Instant): nat
  {
    ToSeconds(Elapsed(p, now))
  }
}
