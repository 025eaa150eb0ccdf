/** What every module shares: optional values and time. */
module Core {
  datatype Option<+T> = None | Some(value: T)

  /** Microseconds since the epoch, in UTC. */
  type Time = int

  const SECOND: int := 1_000_000
  const MINUTE: int := 60 * SECOND
  const HOUR: int := 60 * MINUTE
  const DAY: int := 24 * HOUR

  /** `timedelta(seconds=n)`, `timedelta(hours=n)`, `timedelta(days=n)`. */
  function Seconds(n: int): int { n * SECOND }

  function Hours(n: int): int { n * HOUR }

  function Days(n: int): int { n * DAY }

  /** The UTC calendar day of a moment, and the time of day. */
  function DayOf(t: Time): int { t / DAY }

  function TimeOfDay(t: Time): int { t % DAY }

  function Min(a: nat, b: nat): nat { if a <= b then a else b }
}
