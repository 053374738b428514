/** Calendar days over millisecond timestamps. The local time zone is taken to be UTC, so the
    midnight that `setHours(0, 0, 0, 0)` produces is the timestamp rounded down to a whole day. */
module Calendar {

  /** `24 * 60 * 60 * 1000` */
  const MsPerDay: int := 86_400_000

  /** Index of the calendar day a timestamp falls in (floor division, also before 1970). */
  function DayOf(t: int): int
  {
    t / MsPerDay
  }

  /** Midnight at the start of the day of `t`. */
  function DayStart(t: int): (d: int)
    ensures d <= t < d + MsPerDay
    ensures d % MsPerDay == 0
  {
    DayOf(t) * MsPerDay
  }

  /** `toDateString()` equality: both timestamps fall in the same calendar day. */
  predicate SameDay(a: int, b: int)
  {
    DayOf(a) == DayOf(b)
  }

  /** The query window `[midnight, midnight + 24h)` of a date holds exactly the timestamps of the same day. */
  lemma DayWindowIsSameDay(date: int, t: int)
    ensures DayStart(date) <= t < DayStart(date) + MsPerDay <==> SameDay(date, t)
  {
    var k := DayOf(date);
    if DayStart(date) <= t < DayStart(date) + MsPerDay {
      assert k * MsPerDay <= t < k * MsPerDay + MsPerDay;
      DivUnique(t, k);
    }
  }

  lemma DivUnique(t: int, k: int)
    requires k * MsPerDay <= t < k * MsPerDay + MsPerDay
    ensures t / MsPerDay == k
  {
    var q, r := t / MsPerDay, t % MsPerDay;
    assert t == q * MsPerDay + r && 0 <= r < MsPerDay;
  }
}
