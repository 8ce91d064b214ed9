/** Civil dates of the proleptic Gregorian calendar, years 1 to 9999, and their day numbers. */
module Calendar {
  import opened Strings

  const MAX_YEAR: nat := 9999

  datatype Date = Date(year: int, month: int, day: int)

  predicate Leap(y: int) {
    y % 4 == 0 && (y % 100 != 0 || y % 400 == 0)
  }

  function MonthLength(y: int, m: int): (r: nat)
    ensures 28 <= r <= 31
  {
    if m == 2 then (if Leap(y) then 29 else 28)
    else if m == 4 || m == 6 || m == 9 || m == 11 then 30
    else 31
  }

  predicate ValidDate(d: Date) {
    1 <= d.year <= MAX_YEAR && 1 <= d.month <= 12 && 1 <= d.day <= MonthLength(d.year, d.month)
  }

  function YearLength(y: int): nat {
    if Leap(y) then 366 else 365
  }

  function DaysBeforeMonth(y: int, m: int): (r: nat)
    requires 1 <= m <= 12
    decreases m
  {
    if m == 1 then 0 else DaysBeforeMonth(y, m - 1) + MonthLength(y, m - 1)
  }

  function DaysBeforeYear(y: int): (r: nat)
    requires y >= 1
    decreases y
  {
    if y == 1 then 0 else DaysBeforeYear(y - 1) + YearLength(y - 1)
  }

  /** The day number; the first of January of year 1 is day 1. */
  function Ord(d: Date): (r: nat)
    requires ValidDate(d)
  {
    DaysBeforeYear(d.year) + DaysBeforeMonth(d.year, d.month) + d.day
  }

  /** Monday is 0; day 1 is a Monday. */
  function Weekday(d: Date): (r: nat)
    requires ValidDate(d)
    ensures r < 7
  {
    (Ord(d) + 6) % 7
  }

  function NextDay(d: Date): (r: Option<Date>)
    requires ValidDate(d)
    ensures r.Some? ==> ValidDate(r.value)
  {
    if d.day < MonthLength(d.year, d.month) then Some(d.(day := d.day + 1))
    else if d.month < 12 then Some(Date(d.year, d.month + 1, 1))
    else if d.year < MAX_YEAR then Some(Date(d.year + 1, 1, 1))
    else None
  }

  function PreviousDay(d: Date): (r: Option<Date>)
    requires ValidDate(d)
    ensures r.Some? ==> ValidDate(r.value)
  {
    if d.day > 1 then Some(d.(day := d.day - 1))
    else if d.month > 1 then Some(Date(d.year, d.month - 1, MonthLength(d.year, d.month - 1)))
    else if d.year > 1 then Some(Date(d.year - 1, 12, 31))
    else None
  }

  /** None when the result leaves the calendar. */
  function AddDays(d: Date, n: nat): (r: Option<Date>)
    requires ValidDate(d)
    ensures r.Some? ==> ValidDate(r.value)
  {
    if n == 0 then Some(d)
    else match AddDays(d, n - 1)
         case None => None
         case Some(e) => NextDay(e)
  }

  function SubtractDays(d: Date, n: nat): (r: Option<Date>)
    requires ValidDate(d)
    ensures r.Some? ==> ValidDate(r.value)
  {
    if n == 0 then Some(d)
    else match SubtractDays(d, n - 1)
         case None => None
         case Some(e) => PreviousDay(e)
  }

  predicate DateBefore(a: Date, b: Date) {
    a.year < b.year || (a.year == b.year && (a.month < b.month || (a.month == b.month && a.day < b.day)))
  }

  /* Day numbers follow the order of dates */

  lemma {:induction false} MonthsAscend(y: int, a: int, b: int)
    requires 1 <= a <= b <= 12
    ensures DaysBeforeMonth(y, a) <= DaysBeforeMonth(y, b)
    ensures a < b ==> DaysBeforeMonth(y, a) + MonthLength(y, a) <= DaysBeforeMonth(y, b)
    decreases b
  {
    if a < b {
      MonthsAscend(y, a, b - 1);
    }
  }

  lemma {:induction false} YearsAscend(a: int, b: int)
    requires 1 <= a <= b
    ensures DaysBeforeYear(a) <= DaysBeforeYear(b)
    ensures a < b ==> DaysBeforeYear(a) + YearLength(a) <= DaysBeforeYear(b)
    decreases b
  {
    if a < b {
      YearsAscend(a, b - 1);
    }
  }

  lemma LastMonth(y: int)
    ensures DaysBeforeMonth(y, 12) + MonthLength(y, 12) == YearLength(y)
  {
  }

  lemma OrdInYear(d: Date)
    requires ValidDate(d)
    ensures DaysBeforeYear(d.year) < Ord(d) <= DaysBeforeYear(d.year) + YearLength(d.year)
  {
    LastMonth(d.year);
    MonthsAscend(d.year, d.month, 12);
  }

  lemma OrdAscends(a: Date, b: Date)
    requires ValidDate(a) && ValidDate(b) && DateBefore(a, b)
    ensures Ord(a) < Ord(b)
  {
    if a.year < b.year {
      OrdInYear(a);
      OrdInYear(b);
      YearsAscend(a.year, b.year);
    } else if a.month < b.month {
      MonthsAscend(a.year, a.month, b.month);
    }
  }

  /** Day numbers order and identify dates. */
  lemma OrdOrders(a: Date, b: Date)
    requires ValidDate(a) && ValidDate(b)
    ensures Ord(a) < Ord(b) <==> DateBefore(a, b)
    ensures Ord(a) == Ord(b) <==> a == b
  {
    if DateBefore(a, b) {
      OrdAscends(a, b);
    } else if DateBefore(b, a) {
      OrdAscends(b, a);
    }
  }

  lemma NextDayOrd(d: Date)
    requires ValidDate(d)
    ensures NextDay(d).Some? ==> Ord(NextDay(d).value) == Ord(d) + 1
    ensures NextDay(d) == None <==> d == Date(MAX_YEAR, 12, 31)
  {
    if d.day == MonthLength(d.year, d.month) {
      if d.month < 12 {
        assert DaysBeforeMonth(d.year, d.month + 1) == DaysBeforeMonth(d.year, d.month) + MonthLength(d.year, d.month);
      } else if d.year < MAX_YEAR {
        NewYearOrd(d.year);
      }
    }
  }

  lemma NewYearOrd(y: int)
    requires 1 <= y < MAX_YEAR
    ensures Ord(Date(y + 1, 1, 1)) == Ord(Date(y, 12, 31)) + 1
  {
    LastMonth(y);
  }

  lemma PreviousDayOrd(d: Date)
    requires ValidDate(d)
    ensures PreviousDay(d).Some? ==> Ord(PreviousDay(d).value) == Ord(d) - 1
  {
    if PreviousDay(d).Some? {
      var e := PreviousDay(d).value;
      assert NextDay(e) == Some(d);
      NextDayOrd(e);
    }
  }

  lemma {:induction false} AddDaysOrd(d: Date, n: nat)
    requires ValidDate(d)
    ensures AddDays(d, n).Some? ==> Ord(AddDays(d, n).value) == Ord(d) + n
    decreases n
  {
    if n > 0 {
      AddDaysOrd(d, n - 1);
      if AddDays(d, n - 1).Some? {
        NextDayOrd(AddDays(d, n - 1).value);
      }
    }
  }

  /** Adding days fails only past the end of the calendar. */
  lemma {:induction false} AddDaysReaches(d: Date, n: nat, e: Date)
    requires ValidDate(d) && ValidDate(e) && Ord(d) + n <= Ord(e)
    ensures AddDays(d, n).Some?
    decreases n
  {
    if n > 0 {
      AddDaysReaches(d, n - 1, e);
      AddDaysOrd(d, n - 1);
      NotLastDay(AddDays(d, n - 1).value, e);
    }
  }

  lemma NotLastDay(d: Date, e: Date)
    requires ValidDate(d) && ValidDate(e) && Ord(d) < Ord(e)
    ensures NextDay(d).Some?
  {
    OrdOrders(d, e);
  }

  lemma {:induction false} SubtractDaysOrd(d: Date, n: nat)
    requires ValidDate(d)
    ensures SubtractDays(d, n).Some? ==> Ord(SubtractDays(d, n).value) == Ord(d) - n
    decreases n
  {
    if n > 0 {
      SubtractDaysOrd(d, n - 1);
      if SubtractDays(d, n - 1).Some? {
        PreviousDayOrd(SubtractDays(d, n - 1).value);
      }
    }
  }

  /** Subtracting days fails exactly before the beginning of the calendar. */
  lemma {:induction false} SubtractDaysExists(d: Date, n: nat)
    requires ValidDate(d)
    ensures SubtractDays(d, n).None? <==> Ord(d) <= n
    decreases n
  {
    if n == 0 {
      OrdInYear(d);
    } else {
      SubtractDaysExists(d, n - 1);
      SubtractDaysOrd(d, n - 1);
      if SubtractDays(d, n - 1).Some? {
        FirstDay(SubtractDays(d, n - 1).value);
      }
    }
  }

  lemma FirstDay(d: Date)
    requires ValidDate(d)
    ensures PreviousDay(d).None? <==> Ord(d) <= 1
  {
    if d.month > 1 {
      MonthsAscend(d.year, 1, d.month);
    }
    if d.year > 1 {
      YearsAscend(1, d.year);
    }
  }

  /** A year divisible by 100 is divisible by 4, and one divisible by 400 by 100. */
  lemma Centuries(y: nat)
    ensures (y % 100 == 0 ==> y % 4 == 0) && (y % 400 == 0 ==> y % 100 == 0)
  {
    if y % 100 == 0 {
      assert y == 4 * (25 * (y / 100));
    }
    if y % 400 == 0 {
      assert y == 100 * (4 * (y / 400));
    }
  }

  lemma OneYearOn(y: nat)
    ensures (y + 1) / 4 == y / 4 + (if (y + 1) % 4 == 0 then 1 else 0)
    ensures (y + 1) / 100 == y / 100 + (if (y + 1) % 100 == 0 then 1 else 0)
    ensures (y + 1) / 400 == y / 400 + (if (y + 1) % 400 == 0 then 1 else 0)
  {
  }

  /** The day numbers of the proleptic Gregorian calendar in closed form. */
  lemma {:induction false} DaysBeforeYearIs(y: nat)
    ensures DaysBeforeYear(y + 1) == 365 * y + y / 4 - y / 100 + y / 400
    decreases y
  {
    if y > 0 {
      DaysBeforeYearIs(y - 1);
      OneYearOn(y - 1);
      Centuries(y);
      assert DaysBeforeYear(y + 1) == DaysBeforeYear(y) + YearLength(y);
    }
  }
}
