/** Points in time as the widget sees them: JavaScript `Date` values reduced to
    their millisecond timestamp, read in UTC. */
module Dates {

  /** Milliseconds since 1970-01-01T00:00:00Z, the value of `Date.getTime()`. */
  type Instant = int

  const MsPerDay: int := 86_400_000

  /** The calendar day an instant falls on, counted from 1970-01-01 (day 0).
      Dafny's division rounds down for a positive divisor, as a calendar does. */
  function DayNumber(t: Instant): int {
    t / MsPerDay
  }

  /** `Date.getDay()`: 0 is Sunday, 1 Monday, ..., 6 Saturday.
      Day 0 (1970-01-01) was a Thursday, so day 3 (1970-01-04) was a Sunday. */
  function Weekday(t: Instant): (w: int)
    ensures 0 <= w < 7
    ensures w == 0 <==> DayNumber(t) % 7 == 3
  {
    (DayNumber(t) + 4) % 7
  }

  /** `addDays(start, n)`: the instant `n` whole days after `t`, same time of day. */
  function AddDays(t: Instant, n: int): (r: Instant)
    ensures DayNumber(r) == DayNumber(t) + n
    ensures r % MsPerDay == t % MsPerDay
  {
    t + n * MsPerDay
  }

  /** Moving `n` days moves the weekday `n` places round the week. */
  lemma WeekdayAddDays(t: Instant, n: int)
    ensures Weekday(AddDays(t, n)) == (Weekday(t) + n) % 7
  {
  }
}
