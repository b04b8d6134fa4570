/**
 * Calendar dates as the validators read them from a `Date`:
 * `getFullYear()`, `getMonth()` and `getDate()`. Parsing a date string and
 * reading the clock are left to the caller, which passes plain triples.
 */
module Calendar {

  datatype Date = Date(year: int, month: int, day: int)

  /** Lexicographic order on (year, month, day). */
  predicate OnOrBefore(a: Date, b: Date) {
    a.year < b.year
    || (a.year == b.year && a.month < b.month)
    || (a.year == b.year && a.month == b.month && a.day <= b.day)
  }

  /**
   * Whole years from `birth` to `today`: the year difference, less one when
   * this year's birthday (same month and day) is still ahead.
   */
  function CompletedYears(birth: Date, today: Date): (age: int)
    ensures age == today.year - birth.year || age == today.year - birth.year - 1
    ensures age == today.year - birth.year <==>
              OnOrBefore(Date(0, birth.month, birth.day), Date(0, today.month, today.day))
  {
    var age := today.year - birth.year;
    var monthDiff := today.month - birth.month;
    if monthDiff < 0 || (monthDiff == 0 && today.day < birth.day) then age - 1 else age
  }

  /** Having completed `n` years is the same as `n` years back from today being on or after the birth date. */
  lemma CompletedYearsAtLeast(birth: Date, today: Date, n: int)
    ensures CompletedYears(birth, today) >= n <==>
              OnOrBefore(birth, Date(today.year - n, today.month, today.day))
  {
  }
}
