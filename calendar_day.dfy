/**
 * Calendar-day arithmetic of src/lib/utils/date.ts.
 *
 * Instants are JavaScript `Date` values: whole milliseconds since the Unix
 * epoch. The time-zone database behind date-fns-tz is replaced by a zone with
 * a fixed offset from UTC, which is the concrete instance used throughout.
 * The three facts the rest of the model relies on are proved here as lemmas:
 * the start of a day lies on that day (StartOfDay's ensures), it is not later
 * than the instant it was computed from (StartOfDay's ensures), and the local
 * day is monotone (LocalDayMonotone).
 */
module CalendarDay {

  /** Milliseconds since 1970-01-01T00:00:00Z. */
  type Instant = int

  const MsPerDay: int := 86_400_000

  /** An IANA zone, represented by its offset from UTC in milliseconds. */
  datatype TimeZone = FixedOffset(offsetMs: int)

  /** The wall-clock calendar day (days since the epoch) of `x` as seen in `tz`. */
  function LocalDay(x: Instant, tz: TimeZone): int
  {
    (x + tz.offsetMs) / MsPerDay
  }

  lemma LocalDayMonotone(x: Instant, y: Instant, tz: TimeZone)
    requires x <= y
    ensures LocalDay(x, tz) <= LocalDay(y, tz)
  {
  }

  /** Moving an instant by whole days moves its local day by the same number. */
  lemma LocalDayShift(x: Instant, k: int, tz: TimeZone)
    ensures LocalDay(x + k * MsPerDay, tz) == LocalDay(x, tz) + k
  {
    var a := x + tz.offsetMs;
    var q, r := a / MsPerDay, a % MsPerDay;
    assert a == q * MsPerDay + r && 0 <= r < MsPerDay;
    assert a + k * MsPerDay == (q + k) * MsPerDay + r;
  }

  /**
   * getStartOfDayInTimezone (date.ts:7-11): the instant of local midnight
   * that begins the local day of `x`.
   */
  function StartOfDay(x: Instant, tz: TimeZone): (r: Instant)
    ensures LocalDay(r, tz) == LocalDay(x, tz)
    ensures r <= x < r + MsPerDay
  {
    LocalDay(x, tz) * MsPerDay - tz.offsetMs
  }

  /** The start of a day is the first instant of that local day. */
  lemma StartOfDayIsFirstInstant(x: Instant, y: Instant, tz: TimeZone)
    requires LocalDay(y, tz) == LocalDay(x, tz)
    ensures StartOfDay(x, tz) <= y
  {
    var d := LocalDay(x, tz);
    assert (y + tz.offsetMs) / MsPerDay == d;
    assert y + tz.offsetMs >= d * MsPerDay;
  }

  /** Two instants on the same local day have the same start of day. */
  lemma {:induction false} StartOfDaySameDay(x: Instant, y: Instant, tz: TimeZone)
    requires LocalDay(y, tz) == LocalDay(x, tz)
    ensures StartOfDay(x, tz) == StartOfDay(y, tz)
  {
    StartOfDayIsFirstInstant(x, StartOfDay(y, tz), tz);
    StartOfDayIsFirstInstant(y, StartOfDay(x, tz), tz);
  }

  lemma StartOfDayIdempotent(x: Instant, tz: TimeZone)
    ensures StartOfDay(StartOfDay(x, tz), tz) == StartOfDay(x, tz)
  {
    StartOfDaySameDay(x, StartOfDay(x, tz), tz);
  }

  /**
   * differenceInDays(startOfDay(zoned d2), startOfDay(zoned d1)), as used at
   * date.ts:37 and date.ts:47: the number of whole days from the midnight
   * that begins d1's local day to the one that begins d2's.
   */
  function DaysBetween(d1: Instant, d2: Instant, tz: TimeZone): (r: int)
    ensures r == LocalDay(d2, tz) - LocalDay(d1, tz)
  {
    var k := LocalDay(d2, tz) - LocalDay(d1, tz);
    assert StartOfDay(d2, tz) - StartOfDay(d1, tz) == k * MsPerDay;
    (StartOfDay(d2, tz) - StartOfDay(d1, tz)) / MsPerDay
  }

  /** isNextDay (date.ts:28-38): d2's local day is the one after d1's. */
  predicate IsNextDay(d1: Instant, d2: Instant, tz: TimeZone): (b: bool)
    ensures b <==> LocalDay(d2, tz) == LocalDay(d1, tz) + 1
  {
    DaysBetween(d1, d2, tz) == 1
  }

  /**
   * The same fact in terms of instants only: d2 is the next day of d1 exactly
   * when d2 falls within the 24 hours that start one day after d1's midnight.
   */
  lemma IsNextDayWindow(d1: Instant, d2: Instant, tz: TimeZone)
    ensures IsNextDay(d1, d2, tz) <==>
              StartOfDay(d1, tz) + MsPerDay <= d2 < StartOfDay(d1, tz) + 2 * MsPerDay
  {
    var s := StartOfDay(d1, tz);
    LocalDayShift(s, 1, tz);
    LocalDayShift(s, 2, tz);
    if s + MsPerDay <= d2 < s + 2 * MsPerDay {
      LocalDayMonotone(s + MsPerDay, d2, tz);
      LocalDayMonotone(d2, s + 2 * MsPerDay - 1, tz);
      LocalDayShift(s + MsPerDay, 1, tz);
      assert LocalDay(s + 2 * MsPerDay - 1, tz) == LocalDay(s + MsPerDay, tz);
    }
    if LocalDay(d2, tz) == LocalDay(d1, tz) + 1 {
      StartOfDayIsFirstInstant(s + MsPerDay, d2, tz);
      assert StartOfDay(s + MsPerDay, tz) == s + MsPerDay;
      assert d2 < StartOfDay(d2, tz) + MsPerDay;
      StartOfDaySameDay(d2, s + MsPerDay, tz);
    }
  }

  lemma IsNextDayIrreflexive(d: Instant, tz: TimeZone)
    ensures !IsNextDay(d, d, tz)
  {
  }

  lemma IsNextDayAsymmetric(a: Instant, b: Instant, tz: TimeZone)
    requires IsNextDay(a, b, tz)
    ensures !IsNextDay(b, a, tz)
  {
  }

  /** isNextDay ignores the time of day of either argument. */
  lemma IsNextDayIgnoresTimeOfDay(d1: Instant, d2: Instant, tz: TimeZone)
    ensures IsNextDay(StartOfDay(d1, tz), d2, tz) == IsNextDay(d1, d2, tz)
    ensures IsNextDay(d1, StartOfDay(d2, tz), tz) == IsNextDay(d1, d2, tz)
  {
  }

  /**
   * getDaysPending (date.ts:43-49), with the clock reading `now` passed in:
   * the local days elapsed since the task's day, floored at zero.
   */
  function DaysPending(taskDate: Instant, now: Instant, tz: TimeZone): (r: int)
    ensures r >= 0
    ensures r == 0 <==> LocalDay(taskDate, tz) >= LocalDay(now, tz)
    ensures r > 0 ==> r == LocalDay(now, tz) - LocalDay(taskDate, tz)
  {
    var diff := DaysBetween(taskDate, now, tz);
    if diff > 0 then diff else 0
  }

  /** A task's date before today's midnight has been pending at least one day. */
  lemma DaysPendingBeforeToday(taskDate: Instant, now: Instant, tz: TimeZone)
    requires taskDate < StartOfDay(now, tz)
    ensures DaysPending(taskDate, now, tz) >= 1
  {
    if LocalDay(taskDate, tz) >= LocalDay(now, tz) {
      LocalDayMonotone(StartOfDay(now, tz), taskDate, tz);
      StartOfDayIsFirstInstant(now, taskDate, tz);
    }
  }

  /** A date before today's midnight is exactly a date on an earlier local day. */
  lemma BeforeTodayIffEarlierDay(date: Instant, now: Instant, tz: TimeZone)
    ensures date < StartOfDay(now, tz) <==> LocalDay(date, tz) < LocalDay(now, tz)
  {
    if date < StartOfDay(now, tz) {
      DaysPendingBeforeToday(date, now, tz);
    } else {
      LocalDayMonotone(StartOfDay(now, tz), date, tz);
    }
  }

  /** A task dated day D, looked at three local days later, is three days pending. */
  lemma DaysPendingThreeDaysLater(taskDay: Instant, tz: TimeZone)
    ensures var task := StartOfDay(taskDay, tz);
            var now := task + 3 * MsPerDay;
            task < StartOfDay(now, tz) && DaysPending(task, now, tz) == 3
  {
    var task := StartOfDay(taskDay, tz);
    LocalDayShift(task, 3, tz);
    BeforeTodayIffEarlierDay(task, task + 3 * MsPerDay, tz);
  }
}
