/** Operating days (src/core/days.mjs): a row belongs to the day its time falls in, in Korea time.
    A day is its number, counted from 1970-01-01; the text `YYYY-MM-DD` orders the same way. */
module Days {
  const DAY_OFFSET_MINUTES: int := 9 * 60
  const DAY_MS: int := 86_400_000

  function DayOf(at: int, offsetMinutes: int): (day: int)
    ensures day * DAY_MS <= at + offsetMinutes * 60_000 < (day + 1) * DAY_MS
  {
    (at + offsetMinutes * 60_000) / DAY_MS
  }
}
