/** The Gregorian calendar helpers behind the local-to-UTC conversion:
    month lengths, the day before and after a date, and the month lookup. */
module Calendar {
  import opened Wrappers

  /** An unsigned byte, as Rust's `u8`. */
  type U8 = x: int | 0 <= x < 256

  /** A calendar date as the program passes it around: an `i32` year and
      `u8` month and day, not necessarily valid. */
  datatype Date = Date(year: int, month: U8, day: U8)

  /** The Gregorian leap-year rule. Rust's `%` truncates, but a remainder is
      zero under truncation exactly when it is zero under Dafny's Euclidean
      `%`, so the rule reads the same for negative years. */
  predicate IsLeap(year: int) {
    year % 4 == 0 && (year % 100 != 0 || year % 400 == 0)
  }

  /** `days_in_month`; a month outside 1..12 counts as 30 days. */
  function DaysInMonth(year: int, month: U8): (n: U8)
    ensures 28 <= n <= 31
  {
    match month
    case 1 | 3 | 5 | 7 | 8 | 10 | 12 => 31
    case 4 | 6 | 9 | 11 => 30
    case 2 => if IsLeap(year) then 29 else 28
    case _ => 30
  }

  /** The thirty-one-day months are exactly 1, 3, 5, 7, 8, 10 and 12. */
  lemma LongMonths(year: int, month: U8)
    ensures DaysInMonth(year, month) == 31 <==> month in {1, 3, 5, 7, 8, 10, 12}
  {
  }

  /** February has 29 days exactly in leap years and 28 otherwise; every
      other month, in range or not, has 30 or 31. */
  lemma February(year: int, month: U8)
    ensures DaysInMonth(year, month) == 29 <==> month == 2 && IsLeap(year)
    ensures DaysInMonth(year, month) == 28 <==> month == 2 && !IsLeap(year)
    ensures month != 2 ==> DaysInMonth(year, month) >= 30
  {
  }

  /** The twelve months of a year add up to 366 days in a leap year and 365
      otherwise. */
  function DaysBeforeMonth(year: int, month: nat): (n: nat)
    requires month <= 12
    ensures n <= 31 * month
    decreases month
  {
    if month == 0 then 0 else DaysBeforeMonth(year, month - 1) + DaysInMonth(year, month)
  }

  lemma YearLength(year: int)
    ensures DaysBeforeMonth(year, 12) == if IsLeap(year) then 366 else 365
  {
  }

  /** The day's place in its year, 1 for 1 January. A day past the end of
      its month is counted on into the next month's numbers. */
  function DayOfYear(d: Date): nat
    requires 1 <= d.month <= 12
  {
    DaysBeforeMonth(d.year, d.month - 1) + d.day
  }

  /** A real calendar day: month 1..12 and a day that exists in it. */
  predicate Valid(d: Date) {
    1 <= d.month <= 12 && 1 <= d.day <= DaysInMonth(d.year, d.month)
  }

  /** `prev_day`. Any day 0 or 1 counts as the first of the month. */
  function PrevDay(d: Date): (r: Date)
    ensures d.day > 1 ==> r == d.(day := d.day - 1)
    ensures d.day <= 1 && d.month > 1 ==> r == Date(d.year, d.month - 1, DaysInMonth(d.year, d.month - 1))
    ensures d.day <= 1 && d.month <= 1 ==> r == Date(d.year - 1, 12, 31)
  {
    if d.day > 1 then
      Date(d.year, d.month, d.day - 1)
    else if d.month > 1 then
      var prevMonth := d.month - 1;
      Date(d.year, prevMonth, DaysInMonth(d.year, prevMonth))
    else
      Date(d.year - 1, 12, 31)
  }

  /** `next_day`. */
  function NextDay(d: Date): (r: Date)
    ensures d.day < DaysInMonth(d.year, d.month) ==> r == d.(day := d.day + 1)
    ensures d.day >= DaysInMonth(d.year, d.month) && d.month < 12 ==> r == Date(d.year, d.month + 1, 1)
    ensures d.day >= DaysInMonth(d.year, d.month) && d.month >= 12 ==> r == Date(d.year + 1, 1, 1)
  {
    var max := DaysInMonth(d.year, d.month);
    if d.day < max then
      Date(d.year, d.month, d.day + 1)
    else if d.month < 12 then
      Date(d.year, d.month + 1, 1)
    else
      Date(d.year + 1, 1, 1)
  }

  /** Both steps keep a date valid. */
  lemma StepsKeepValid(d: Date)
    requires Valid(d)
    ensures Valid(PrevDay(d)) && Valid(NextDay(d))
  {
  }

  /** On valid dates the two steps undo each other. */
  lemma NextOfPrev(d: Date)
    requires Valid(d)
    ensures NextDay(PrevDay(d)) == d
  {
  }

  lemma PrevOfNext(d: Date)
    requires Valid(d)
    ensures PrevDay(NextDay(d)) == d
  {
  }

  /** Within a year, the next day of a real calendar day is one further on. */
  lemma NextDayCountsOn(d: Date)
    requires Valid(d) && !(d.month == 12 && d.day == 31)
    ensures NextDay(d).year == d.year
    ensures DayOfYear(NextDay(d)) == DayOfYear(d) + 1
  {
    if d.day >= DaysInMonth(d.year, d.month) {
      assert DaysBeforeMonth(d.year, d.month) == DaysBeforeMonth(d.year, d.month - 1) + DaysInMonth(d.year, d.month);
    }
  }

  /** The last day of the year is followed by the first of the next. */
  lemma NewYear(year: int)
    ensures NextDay(Date(year, 12, 31)) == Date(year + 1, 1, 1)
    ensures PrevDay(Date(year + 1, 1, 1)) == Date(year, 12, 31)
  {
  }

  datatype Month = Jan | Feb | Mar | Apr | May | June | July | Aug | Sept | Oct | Nov | Dec

  /** The month's number, 1 for January. */
  function MonthNumber(m: Month): (n: U8)
    ensures 1 <= n <= 12
  {
    match m
    case Jan => 1 case Feb => 2 case Mar => 3 case Apr => 4
    case May => 5 case June => 6 case July => 7 case Aug => 8
    case Sept => 9 case Oct => 10 case Nov => 11 case Dec => 12
  }

  /** `month_from_u8`; `None` where the program panics. */
  function MonthFromU8(m: U8): (r: Option<Month>)
    ensures r.Some? <==> 1 <= m <= 12
  {
    match m
    case 1 => Some(Jan) case 2 => Some(Feb) case 3 => Some(Mar) case 4 => Some(Apr)
    case 5 => Some(May) case 6 => Some(June) case 7 => Some(July) case 8 => Some(Aug)
    case 9 => Some(Sept) case 10 => Some(Oct) case 11 => Some(Nov) case 12 => Some(Dec)
    case _ => None
  }

  /** The lookup and the month's number are inverse. */
  lemma MonthRoundTrip(m: Month, n: U8)
    ensures MonthFromU8(MonthNumber(m)) == Some(m)
    ensures MonthFromU8(n).Some? ==> MonthNumber(MonthFromU8(n).value) == n
  {
  }
}
