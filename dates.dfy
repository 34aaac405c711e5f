/** Instants as a JavaScript `Date` holds them (milliseconds since the Unix
    epoch) and the two operations the form applies to them: truncation to the
    local start of the day, which `setHours(0, 0, 0, 0)` performs, and
    serialisation for the wire, which `toISOString()` performs. The local time
    zone is a fixed offset from UTC in milliseconds (positive east of UTC). */
module Dates {

  const MsPerDay: int := 86_400_000

  /** A `Date` value: its time value in epoch milliseconds. */
  datatype Timestamp = Timestamp(ms: int)

  /** The local calendar day of `t`, counted in days since 1970-01-01 local:
      the day whose local time span contains `t`. */
  function DayOf(t: Timestamp, offsetMs: int): (d: int)
    ensures d * MsPerDay <= t.ms + offsetMs < d * MsPerDay + MsPerDay
  {
    (t.ms + offsetMs) / MsPerDay
  }

  /** `setHours(0, 0, 0, 0)` on a copy of `t`: the latest local midnight that
      is not after `t`. */
  function LocalMidnight(t: Timestamp, offsetMs: int): (m: Timestamp)
    ensures m.ms <= t.ms < m.ms + MsPerDay
    ensures (m.ms + offsetMs) % MsPerDay == 0
  {
    Timestamp(t.ms - (t.ms + offsetMs) % MsPerDay)
  }

  /** The local midnight of `t` lies exactly `DayOf(t)` whole days after the
      local epoch midnight. */
  lemma MidnightOfDay(t: Timestamp, offsetMs: int)
    ensures LocalMidnight(t, offsetMs).ms == DayOf(t, offsetMs) * MsPerDay - offsetMs
  {
    var x := t.ms + offsetMs;
    assert x == (x / MsPerDay) * MsPerDay + x % MsPerDay;
  }

  /** Comparing two truncated dates, as `sel < today` does, is comparing
      their local calendar days. */
  lemma MidnightOrder(a: Timestamp, b: Timestamp, offsetMs: int)
    ensures LocalMidnight(a, offsetMs).ms < LocalMidnight(b, offsetMs).ms
        <==> DayOf(a, offsetMs) < DayOf(b, offsetMs)
  {
    MidnightOfDay(a, offsetMs);
    MidnightOfDay(b, offsetMs);
  }

  /** Two instants in the same local day truncate to the same midnight. */
  lemma SameDaySameMidnight(a: Timestamp, b: Timestamp, offsetMs: int)
    requires DayOf(a, offsetMs) == DayOf(b, offsetMs)
    ensures LocalMidnight(a, offsetMs) == LocalMidnight(b, offsetMs)
  {
    MidnightOfDay(a, offsetMs);
    MidnightOfDay(b, offsetMs);
  }

  /** An instant one whole day earlier lies on the previous local day. */
  lemma DayBefore(t: Timestamp, offsetMs: int)
    ensures DayOf(Timestamp(t.ms - MsPerDay), offsetMs) == DayOf(t, offsetMs) - 1
  {
    var x := t.ms + offsetMs;
    assert x == (x / MsPerDay) * MsPerDay + x % MsPerDay;
    var y := x - MsPerDay;
    assert y == (y / MsPerDay) * MsPerDay + y % MsPerDay;
  }

  /** The value `toISOString()` produces, kept as the UTC instant it denotes
      (the "YYYY-MM-DDTHH:mm:ss.sssZ" rendering has millisecond resolution,
      so it loses nothing of a time value). */
  datatype IsoTimestamp = IsoTimestamp(epochMs: int)

  /** `toISOString()`: the serialised form denotes exactly the instant `t`. */
  function ToIso(t: Timestamp): (s: IsoTimestamp)
    ensures s.epochMs == t.ms
  {
    IsoTimestamp(t.ms)
  }
}
