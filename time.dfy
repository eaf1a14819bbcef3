/** Instants as whole milliseconds in the browser's local time, with 24-hour days. */
module Time {

  type Instant = int

  const MsPerSecond: int := 1000
  const MsPerMinute: int := 60 * MsPerSecond
  const MsPerHour: int := 60 * MsPerMinute
  const MsPerDay: int := 24 * MsPerHour

  /** The calendar day of an instant (`getFullYear`, `getMonth`, `getDate` together). */
  function Day(t: Instant): int {
    t / MsPerDay
  }

  /** `getHours`. */
  function Hour(t: Instant): int {
    (t % MsPerDay) / MsPerHour
  }

  /** `getMinutes`. */
  function Minute(t: Instant): int {
    (t % MsPerHour) / MsPerMinute
  }

  /** `new Date(y, m, d, 0, 0, 0)`. */
  function DayStart(day: int): Instant {
    day * MsPerDay
  }

  /** `new Date(y, m, d, 23, 59, 59)`. */
  function DayEnd(day: int): Instant {
    DayStart(day) + 23 * MsPerHour + 59 * MsPerMinute + 59 * MsPerSecond
  }

  /** Every instant between the two bounds of a day lies on that day. */
  lemma WithinDayIsSameDay(day: int, t: Instant)
    requires DayStart(day) <= t <= DayEnd(day)
    ensures Day(t) == day
  {
  }
}
