/** Milliseconds per unit of time, as both countdowns compute them (`1000 * 60 * 60 * 24` for a day). */
module TimeUnits {
  const SecondMs: nat := 1000
  const MinuteMs: nat := 60000
  const HourMs: nat := 3600000
  const DayMs: nat := 86400000
}
