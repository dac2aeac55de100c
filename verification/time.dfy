/**
  Time as both back ends and the web client use it here: whole milliseconds
  since the epoch, with the usual unit lengths.
 */
module Time {
  const SecondMs: nat := 1000
  const MinuteMs: nat := 60000
  const HourMs: nat := 3600000
  const DayMs: nat := 86400000
}
