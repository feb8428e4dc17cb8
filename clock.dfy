/** Wall-clock time as the service reads it.

    Nothing in the model reads a clock: every operation that needs "now" or
    "today" receives a `Clock` snapshot. The service mixes three clocks, and
    the snapshot keeps them apart:
    - `jakarta`: `get_indonesia_time()`, wall time at UTC+7 (time-zone aware);
    - `utc`: `datetime.utcnow()`, the ORM's default for `created_at`;
    - `server`: `datetime.now()` / `datetime.today()`, the host's naive local time.
 */
module Clock {
  import opened Values

  const MicrosPerSecond: int := 1_000_000
  const SecondsPerDay: int := 86_400
  const MicrosPerDay: int := 86_400_000_000

  /** A naive `datetime`: a day number and the microsecond within that day. */
  datatype DateTime = DateTime(day: int, micros: int)

  predicate ValidDateTime(d: DateTime) {
    0 <= d.micros < MicrosPerDay
  }

  /** `a > b` on naive datetimes (field-by-field, as Python compares them). */
  predicate Later(a: DateTime, b: DateTime) {
    a.day > b.day || (a.day == b.day && a.micros > b.micros)
  }

  /** `datetime.combine(day, time)` for a time given in whole seconds. */
  function Combine(day: int, secondOfDay: nat): (r: DateTime)
    requires secondOfDay < SecondsPerDay
    ensures ValidDateTime(r) && r.day == day
    ensures r.micros % MicrosPerSecond == 0 && r.micros / MicrosPerSecond == secondOfDay
  {
    DateTime(day, secondOfDay * MicrosPerSecond)
  }

  /** A `datetime` that may carry a UTC offset (in minutes). */
  datatype Instant = Instant(wall: DateTime, utcOffsetMinutes: Option<int>)

  /** `dt.replace(tzinfo=None)`: keeps the wall-clock reading, drops the offset. */
  function StripTz(i: Instant): DateTime {
    i.wall
  }

  const JakartaOffsetMinutes: int := 7 * 60

  datatype Clock = Clock(jakarta: DateTime, utc: DateTime, server: DateTime)

  /** `get_indonesia_time()`: aware, UTC+7. */
  function JakartaNow(c: Clock): Instant {
    Instant(c.jakarta, Some(JakartaOffsetMinutes))
  }

  /** `get_indonesia_date()`. */
  function JakartaToday(c: Clock): int {
    c.jakarta.day
  }

  /** `datetime.today().date()`. */
  function ServerToday(c: Clock): int {
    c.server.day
  }
}
