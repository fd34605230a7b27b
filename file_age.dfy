/**
 * The age of a file in whole days, as `GetFileAge` computes it: the spans
 * from today's midnight back to the last-write time and back to the creation
 * time, and `.Days` of the smaller one. Timestamps are integer ticks of
 * 100 ns; `today` is the tick count of today's midnight, given by the caller
 * in place of the clock.
 */
module FileAge {

  const TicksPerDay: int := 864_000_000_000

  /** `TimeSpan.Days`: the whole days in a span of ticks, rounded toward zero
      (a span of minus one hour is day 0, not day -1). */
  function WholeDays(span: int): (d: int)
    ensures span >= 0 ==> 0 <= d && d * TicksPerDay <= span < (d + 1) * TicksPerDay
    ensures span < 0 ==> d <= 0 && (d - 1) * TicksPerDay < span <= d * TicksPerDay
  {
    if span >= 0 then span / TicksPerDay else -((-span) / TicksPerDay)
  }

  function Max(a: int, b: int): int {
    if a < b then b else a
  }

  /** The age of a file: the youngest of its two dates decides. */
  function Age(today: int, lastWrite: int, created: int): (age: int)
    ensures age == WholeDays(today - Max(lastWrite, created))
  {
    var ageModified := today - lastWrite;
    var ageCreated := today - created;
    if ageModified < ageCreated then WholeDays(ageModified) else WholeDays(ageCreated)
  }

  /** Rounding toward zero keeps the order of spans. */
  lemma WholeDaysMonotone(a: int, b: int)
    requires a <= b
    ensures WholeDays(a) <= WholeDays(b)
  {
  }

  /** The age is never more than the days since either date. */
  lemma AgeIsAtMostEitherAge(today: int, lastWrite: int, created: int)
    ensures Age(today, lastWrite, created) <= WholeDays(today - lastWrite)
    ensures Age(today, lastWrite, created) <= WholeDays(today - created)
  {
    WholeDaysMonotone(today - Max(lastWrite, created), today - lastWrite);
    WholeDaysMonotone(today - Max(lastWrite, created), today - created);
  }

  /** Modified 10 days ago and created 30 days ago: the age is 10. */
  lemma AgeExampleTenAndThirty(today: int)
    ensures Age(today, today - 10 * TicksPerDay, today - 30 * TicksPerDay) == 10
  {
  }

  /** A file written after today's midnight, but less than a day ahead of it,
      has age 0 (floor division would give -1), so a threshold of 0 takes it;
      one dated a full day or more ahead has a negative age. */
  lemma AgeOfFilesFromTodayAndTheFuture(today: int, stamp: int)
    ensures today < stamp < today + TicksPerDay ==> Age(today, stamp, stamp) == 0
    ensures stamp >= today + TicksPerDay ==> Age(today, stamp, stamp) < 0
  {
  }
}
