/**
 * Whole days between two instants given in integer milliseconds:
 * the millisecond difference divided by the length of a day, rounded down.
 */
module Days {

  /** Milliseconds in one day, 1000 * 60 * 60 * 24. */
  const MsPerDay: int := 86_400_000

  /** The number of whole days from `date2` to `date1`, rounded toward negative infinity. */
  function DaysBetweenDates(date1: int, date2: int): (r: int)
    ensures r * MsPerDay <= date1 - date2 < (r + 1) * MsPerDay
  {
    (date1 - date2) / MsPerDay
  }

  /** The bracketing in DaysBetweenDates' postcondition determines the result. */
  lemma DaysUnique(date1: int, date2: int, q: int)
    requires q * MsPerDay <= date1 - date2 < (q + 1) * MsPerDay
    ensures DaysBetweenDates(date1, date2) == q
  {
  }

  /** An age shorter than one day (in particular, the same instant) is 0 days. */
  lemma LessThanADayIsZero(date1: int, date2: int)
    requires 0 <= date1 - date2 < MsPerDay
    ensures DaysBetweenDates(date1, date2) == 0
  {
    DaysUnique(date1, date2, 0);
  }

  /** A date in the future gives a negative count; one millisecond ahead is already -1 (floor, not truncation). */
  lemma EarlierIsNegative(date1: int, date2: int)
    requires date1 < date2
    ensures DaysBetweenDates(date1, date2) < 0
    ensures date2 - date1 <= MsPerDay ==> DaysBetweenDates(date1, date2) == -1
  {
    if date2 - date1 <= MsPerDay {
      DaysUnique(date1, date2, -1);
    }
  }

  /** A later `date1` or an earlier `date2` never gives fewer days. */
  lemma DaysMonotone(date1: int, date1': int, date2: int, date2': int)
    requires date1 <= date1' && date2' <= date2
    ensures DaysBetweenDates(date1, date2) <= DaysBetweenDates(date1', date2')
  {
  }

  /** Moving `date1` forward by exactly one day adds exactly one day. */
  lemma AddOneDay(date1: int, date2: int)
    ensures DaysBetweenDates(date1 + MsPerDay, date2) == DaysBetweenDates(date1, date2) + 1
  {
    var r := DaysBetweenDates(date1, date2);
    DaysUnique(date1 + MsPerDay, date2, r + 1);
  }

  /** "At least `k` days old" is "at least `k` days' worth of milliseconds old". */
  lemma AtLeastDaysIff(date1: int, date2: int, k: int)
    ensures DaysBetweenDates(date1, date2) >= k <==> date1 - date2 >= k * MsPerDay
  {
    var r := DaysBetweenDates(date1, date2);
    if r >= k {
      assert k * MsPerDay <= r * MsPerDay;
    } else {
      assert (r + 1) * MsPerDay <= k * MsPerDay;
    }
  }
}
