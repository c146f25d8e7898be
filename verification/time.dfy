/**
 * Time as the model sees it. The source stores ISO date strings and reads them
 * back through `new Date(...)`, `toDateString()`, `getDay()` and `getHours()`.
 * Here a point in time is an integer count of milliseconds in the user's local
 * time (the time-zone offset already applied), so that the calendar functions
 * are plain arithmetic.
 */
module Time {

  /** Milliseconds since 1970-01-01 00:00 local time. */
  type Timestamp = int

  const MsPerSecond: int := 1000
  const MsPerMinute: int := 60 * MsPerSecond
  const MsPerHour: int := 60 * MsPerMinute
  const MsPerDay: int := 24 * MsPerHour

  /** The calendar day a timestamp falls on: equal days print the same `toDateString()`. */
  function DayOf(t: Timestamp): int
  {
    t / MsPerDay
  }

  /** `getHours()`: the hour of the day. */
  function HourOf(t: Timestamp): (h: int)
    ensures 0 <= h < 24
  {
    (t % MsPerDay) / MsPerHour
  }

  /** `getDay()`: 0 for Sunday up to 6 for Saturday; day 0 (1970-01-01) was a Thursday. */
  function WeekdayOf(t: Timestamp): (d: int)
    ensures 0 <= d < 7
  {
    (DayOf(t) + 4) % 7
  }
}
