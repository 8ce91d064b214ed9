/** When a report schedule fires next and which period a run covers. */
module ReportSchedule {
  import opened Strings
  import opened Calendar

  const HOUR: nat := 3_600_000_000
  const DAY: nat := 86_400_000_000

  /** A UTC instant: a date and the microseconds since its midnight. */
  datatype Instant = Instant(date: Date, micros: int)

  predicate ValidInstant(t: Instant) {
    ValidDate(t.date) && 0 <= t.micros < DAY
  }

  predicate Before(a: Instant, b: Instant) {
    DateBefore(a.date, b.date) || (a.date == b.date && a.micros < b.micros)
  }

  datatype Frequency = Weekly | Monthly | OnDemand | Unknown(name: string)

  datatype Next = At(instant: Instant) | Never | Error

  /** The next time the schedule fires. */
  function NextRunAt(frequency: Frequency, weekday: Option<int>, hour: int, after: Instant): (r: Next)
    requires ValidInstant(after)
  {
    match frequency
    case OnDemand => Never
    case Weekly =>
      if weekday == None || !(0 <= hour < 24) then Error else NextWeekly(weekday.value, hour, after)
    case Monthly => if !(0 <= hour < 24) then Error else NextMonthly(hour, after)
    case Unknown(_) => Error
  }

  function NextWeekly(weekday: int, hour: int, after: Instant): Next
    requires ValidInstant(after) && 0 <= hour < 24
  {
    var ahead := (weekday - Weekday(after.date)) % 7;
    match AddDays(after.date, ahead)
    case None => Error
    case Some(date) =>
      var candidate := Instant(date, hour * HOUR);
      if Before(after, candidate) then At(candidate)
      else match AddDays(date, 7)
           case None => Error
           case Some(later) => At(Instant(later, hour * HOUR))
  }

  function NextMonthly(hour: int, after: Instant): Next
    requires ValidInstant(after) && 0 <= hour < 24
  {
    var d := after.date;
    var first := Instant(Date(d.year, d.month, 1), hour * HOUR);
    if Before(after, first) then At(first)
    else if d.month == 12 then
      if d.year + 1 > MAX_YEAR then Error else At(Instant(Date(d.year + 1, 1, 1), hour * HOUR))
    else At(Instant(Date(d.year, d.month + 1, 1), hour * HOUR))
  }

  /** The instants at which a schedule is meant to fire. */
  predicate Fires(frequency: Frequency, weekday: Option<int>, hour: int, t: Instant)
    requires ValidInstant(t)
  {
    match frequency
    case Weekly => weekday.Some? && t.micros == hour * HOUR && Weekday(t.date) == weekday.value % 7
    case Monthly => t.micros == hour * HOUR && t.date.day == 1
    case _ => false
  }

  /* The next run is the least firing instant strictly after */

  lemma WholeWeeks(w: int, k: int)
    ensures (w + 7 * k) % 7 == w % 7
  {
    var q := w / 7;
    assert w == 7 * q + w % 7;
    assert w + 7 * k == 7 * (q + k) + w % 7;
  }

  /** Going ahead by the difference of weekdays from day `o` gives the weekday asked for. */
  lemma Ahead(o: nat, weekday: int)
    ensures (o + (weekday - (o + 6) % 7) % 7 + 6) % 7 == weekday % 7
  {
    var today := (o + 6) % 7;
    var p, q := (o + 6) / 7, (weekday - today) / 7;
    assert o + 6 == 7 * p + today && weekday - today == 7 * q + (weekday - today) % 7;
    WholeWeeks(weekday, p - q);
  }

  /** Days with the same weekday are whole weeks apart. */
  lemma WeeksApart(o: nat, x: nat)
    requires (o + 6) % 7 == (x + 6) % 7 && o < x
    ensures o + 7 <= x
  {
    var p, q := (o + 6) / 7, (x + 6) / 7;
    assert o + 6 == 7 * p + (o + 6) % 7 && x + 6 == 7 * q + (x + 6) % 7;
  }

  /** No day from `o` on with the weekday asked for is nearer than the first one ahead. */
  lemma NoNearer(o: nat, x: nat, weekday: int)
    requires o <= x && (x + 6) % 7 == weekday % 7
    ensures o + (weekday - (o + 6) % 7) % 7 <= x
  {
    var ahead := (weekday - (o + 6) % 7) % 7;
    Ahead(o, weekday);
    if x < o + ahead {
      WeeksApart(x, o + ahead);
    }
  }

  lemma SameResidue(weekday: int, w: nat)
    requires w < 7
    ensures (weekday - w) % 7 == 0 <==> w == weekday % 7
  {
    var q := weekday / 7;
    assert weekday == 7 * q + weekday % 7;
    WholeWeeks(weekday % 7 - w, q);
  }

  lemma BeforeOrd(a: Instant, b: Instant)
    requires ValidInstant(a) && ValidInstant(b)
    ensures Before(a, b) <==> Ord(a.date) < Ord(b.date) || (Ord(a.date) == Ord(b.date) && a.micros < b.micros)
  {
    OrdOrders(a.date, b.date);
  }

  /** The day on which a weekly schedule fires next, counted from `after`. */
  function WeeklyGap(weekday: int, hour: int, after: Instant): (n: nat)
    requires ValidInstant(after) && 0 <= hour < 24
    ensures n <= 7
  {
    var ahead := (weekday - Weekday(after.date)) % 7;
    if ahead == 0 && after.micros >= hour * HOUR then 7 else ahead
  }

  lemma NextWeeklyIs(weekday: int, hour: int, after: Instant)
    requires ValidInstant(after) && 0 <= hour < 24
    ensures var n, r := WeeklyGap(weekday, hour, after), NextWeekly(weekday, hour, after);
            && (AddDays(after.date, n) == None <==> r == Error)
            && (r != Error ==> r.At? && AddDays(after.date, n) == Some(r.instant.date) && r.instant.micros == hour * HOUR)
  {
    var ahead := (weekday - Weekday(after.date)) % 7;
    AddDaysOrd(after.date, ahead);
    if AddDays(after.date, ahead).Some? {
      BeforeOrd(after, Instant(AddDays(after.date, ahead).value, hour * HOUR));
    }
  }

  lemma WeeklyFires(weekday: int, hour: int, after: Instant)
    requires ValidInstant(after) && 0 <= hour < 24 && NextWeekly(weekday, hour, after).At?
    ensures var r := NextWeekly(weekday, hour, after).instant;
            ValidInstant(r) && Fires(Weekly, Some(weekday), hour, r) && Before(after, r)
  {
    var n, r := WeeklyGap(weekday, hour, after), NextWeekly(weekday, hour, after).instant;
    NextWeeklyIs(weekday, hour, after);
    AddDaysOrd(after.date, n);
    BeforeOrd(after, r);
    WeekdayOfGap(weekday, hour, after, r.date);
  }

  lemma WeekdayOfGap(weekday: int, hour: int, after: Instant, e: Date)
    requires ValidInstant(after) && 0 <= hour < 24 && ValidDate(e)
    requires Ord(e) == Ord(after.date) + WeeklyGap(weekday, hour, after)
    ensures Weekday(e) == weekday % 7
  {
    Ahead(Ord(after.date), weekday);
    SameResidue(weekday, Weekday(after.date));
    WholeWeeks(Ord(after.date) + 6, 1);
  }

  /** Any firing instant after `after` is at least the gap away. */
  lemma GapIsLeast(weekday: int, hour: int, after: Instant, x: Instant)
    requires ValidInstant(after) && 0 <= hour < 24 && ValidInstant(x)
    requires Fires(Weekly, Some(weekday), hour, x) && Before(after, x)
    ensures Ord(after.date) + WeeklyGap(weekday, hour, after) <= Ord(x.date)
  {
    var o := Ord(after.date);
    BeforeOrd(after, x);
    NoNearer(o, Ord(x.date), weekday);
    if WeeklyGap(weekday, hour, after) == 7 {
      SameResidue(weekday, Weekday(after.date));
      assert o < Ord(x.date);
      WeeksApart(o, Ord(x.date));
    }
  }

  lemma WeeklyLeast(weekday: int, hour: int, after: Instant, x: Instant)
    requires ValidInstant(after) && 0 <= hour < 24 && ValidInstant(x)
    requires Fires(Weekly, Some(weekday), hour, x) && Before(after, x)
    ensures var r := NextWeekly(weekday, hour, after); r.At? && (r.instant == x || Before(r.instant, x))
  {
    var n := WeeklyGap(weekday, hour, after);
    GapIsLeast(weekday, hour, after, x);
    AddDaysReaches(after.date, n, x.date);
    NextWeeklyIs(weekday, hour, after);
    AddDaysOrd(after.date, n);
    OrdOrders(AddDays(after.date, n).value, x.date);
  }

  lemma MonthlyFires(hour: int, after: Instant)
    requires ValidInstant(after) && 0 <= hour < 24 && NextMonthly(hour, after).At?
    ensures var r := NextMonthly(hour, after).instant;
            ValidInstant(r) && Fires(Monthly, None, hour, r) && Before(after, r)
  {
  }

  lemma MonthlyLeast(hour: int, after: Instant, x: Instant)
    requires ValidInstant(after) && 0 <= hour < 24 && ValidInstant(x)
    requires Fires(Monthly, None, hour, x) && Before(after, x)
    ensures var r := NextMonthly(hour, after); r.At? && (r.instant == x || Before(r.instant, x))
  {
  }

  lemma FiringHour(frequency: Frequency, weekday: Option<int>, hour: int, x: Instant)
    requires ValidInstant(x) && Fires(frequency, weekday, hour, x)
    ensures 0 <= hour < 24
  {
  }

  /** Whatever the frequency, weekday, hour and time: the next run is a firing instant strictly after
      `after` ... */
  lemma NextRunFires(frequency: Frequency, weekday: Option<int>, hour: int, after: Instant)
    requires ValidInstant(after) && NextRunAt(frequency, weekday, hour, after).At?
    ensures var r := NextRunAt(frequency, weekday, hour, after).instant;
            ValidInstant(r) && Fires(frequency, weekday, hour, r) && Before(after, r)
  {
    if frequency == Weekly {
      WeeklyFires(weekday.value, hour, after);
    } else {
      MonthlyFires(hour, after);
    }
  }

  /** ... and no later than any other: if any instant qualifies, it exists and is the least. So it fails to
      exist exactly when nothing qualifies before the calendar ends. */
  lemma NextRunLeast(frequency: Frequency, weekday: Option<int>, hour: int, after: Instant, x: Instant)
    requires ValidInstant(after) && ValidInstant(x) && Fires(frequency, weekday, hour, x) && Before(after, x)
    ensures var r := NextRunAt(frequency, weekday, hour, after); r.At? && (r.instant == x || Before(r.instant, x))
  {
    FiringHour(frequency, weekday, hour, x);
    if frequency == Weekly {
      WeeklyLeast(weekday.value, hour, after, x);
    } else {
      MonthlyLeast(hour, after, x);
    }
  }

  /** On-demand reports, and no others, have no next run; a schedule without a weekday, with an hour no day
      has, or of unknown frequency is refused; and any other has a next run exactly if an instant qualifies. */
  lemma NextRunExactlyWhen(frequency: Frequency, weekday: Option<int>, hour: int, after: Instant)
    requires ValidInstant(after)
    ensures var r := NextRunAt(frequency, weekday, hour, after);
            && (r == Never <==> frequency == OnDemand)
            && (r.At? <==> exists x :: ValidInstant(x) && Fires(frequency, weekday, hour, x) && Before(after, x))
            && (frequency.Unknown? ==> r == Error) && (frequency == Weekly && weekday == None ==> r == Error)
            && (frequency != OnDemand && !(0 <= hour < 24) ==> r == Error)
  {
    if NextRunAt(frequency, weekday, hour, after).At? {
      NextRunFires(frequency, weekday, hour, after);
    }
    forall x | ValidInstant(x) && Fires(frequency, weekday, hour, x) && Before(after, x)
      ensures NextRunAt(frequency, weekday, hour, after).At?
    {
      NextRunLeast(frequency, weekday, hour, after, x);
    }
  }

  /* Windows */

  datatype Window = Window(from: Date, to: Date)

  /** The days a run covers, from midnight to midnight; None outside the calendar. */
  function ReportWindow(frequency: Frequency, runAt: Instant): Option<Window>
    requires ValidInstant(runAt)
  {
    if frequency == Monthly then
      var to := Date(runAt.date.year, runAt.date.month, 1);
      if to.month == 1 then (if to.year == 1 then None else Some(Window(Date(to.year - 1, 12, 1), to)))
      else Some(Window(Date(to.year, to.month - 1, 1), to))
    else
      match SubtractDays(runAt.date, 7)
      case None => None
      case Some(from) => Some(Window(from, runAt.date))
  }

  predicate NextMonthOf(a: Date, b: Date) {
    if a.month == 12 then b.year == a.year + 1 && b.month == 1 else b.year == a.year && b.month == a.month + 1
  }

  /** Monthly runs at any instants of two months cover adjacent periods exactly when the months are
      consecutive. */
  lemma MonthlyWindowsTile(a: Instant, b: Instant)
    requires ValidInstant(a) && ValidInstant(b)
    requires ReportWindow(Monthly, a).Some? && ReportWindow(Monthly, b).Some?
    ensures ReportWindow(Monthly, b).value.from == ReportWindow(Monthly, a).value.to <==> NextMonthOf(a.date, b.date)
  {
  }

  /** A weekly run at `a` and one on the day the schedule fires next cover adjacent periods exactly when
      `a` was on a due day and not before its hour. */
  lemma WeeklyWindowsTile(weekday: int, hour: int, a: Instant, b: Instant)
    requires ValidInstant(a) && ValidInstant(b) && 0 <= hour < 24
    requires NextWeekly(weekday, hour, a).At? && b.date == NextWeekly(weekday, hour, a).instant.date
    requires ReportWindow(Weekly, a).Some? && ReportWindow(Weekly, b).Some?
    ensures ReportWindow(Weekly, b).value.from == ReportWindow(Weekly, a).value.to
       <==> Weekday(a.date) == weekday % 7 && a.micros >= hour * HOUR
  {
    var n := WeeklyGap(weekday, hour, a);
    NextWeeklyIs(weekday, hour, a);
    WeekLater(a.date, n, b.date);
    WholeWeekGap(weekday, hour, a);
  }

  lemma WholeWeekGap(weekday: int, hour: int, a: Instant)
    requires ValidInstant(a) && 0 <= hour < 24
    ensures WeeklyGap(weekday, hour, a) == 7 <==> Weekday(a.date) == weekday % 7 && a.micros >= hour * HOUR
  {
    SameResidue(weekday, Weekday(a.date));
  }

  lemma WeekLater(a: Date, n: nat, b: Date)
    requires ValidDate(a) && AddDays(a, n) == Some(b) && SubtractDays(b, 7).Some?
    ensures SubtractDays(b, 7).value == a <==> n == 7
  {
    AddDaysOrd(a, n);
    SubtractDaysOrd(b, 7);
    OrdOrders(SubtractDays(b, 7).value, a);
  }

  /** A window ends at midnight of the day of its run, or of the first of its month, and covers the seven
      days or the whole month before. */
  lemma WindowSpan(frequency: Frequency, runAt: Instant)
    requires ValidInstant(runAt) && ReportWindow(frequency, runAt).Some?
    ensures var w := ReportWindow(frequency, runAt).value;
            && ValidDate(w.from) && ValidDate(w.to)
            && Ord(w.to) == Ord(runAt.date) - (if frequency == Monthly then runAt.date.day - 1 else 0)
            && (frequency == Monthly ==> w.from.day == 1)
            && Ord(w.to) - Ord(w.from) == if frequency == Monthly then MonthLength(w.from.year, w.from.month) else 7
  {
    if frequency == Monthly {
      var to := Date(runAt.date.year, runAt.date.month, 1);
      PreviousMonth(to, ReportWindow(frequency, runAt).value.from);
    } else {
      SubtractDaysOrd(runAt.date, 7);
    }
  }

  /** There is no window exactly when it would begin before the calendar does. */
  lemma NoWindowExactlyWhen(frequency: Frequency, runAt: Instant)
    requires ValidInstant(runAt)
    ensures ReportWindow(frequency, runAt).None?
       <==> if frequency == Monthly then runAt.date.year == 1 && runAt.date.month == 1 else Ord(runAt.date) <= 7
  {
    SubtractDaysExists(runAt.date, 7);
  }

  lemma PreviousMonth(to: Date, from: Date)
    requires ValidDate(to) && to.day == 1 && ValidDate(from) && from.day == 1 && NextMonthOf(from, to)
    ensures Ord(to) == Ord(from) + MonthLength(from.year, from.month)
  {
    if to.month == 1 {
      LastMonth(from.year);
    }
  }

  /** A Monday schedule whose run started on Wednesday the 17th of January of year 1 (which began on a
      Monday): the next run is due on the 22nd, and covers the 15th and 16th once more. */
  lemma LateRunOverlaps()
    ensures var a, b := Instant(Date(1, 1, 17), 4 * HOUR), Instant(Date(1, 1, 22), 4 * HOUR);
            && ValidInstant(a) && NextRunAt(Weekly, Some(0), 4, a) == At(b)
            && ReportWindow(Weekly, a) == Some(Window(Date(1, 1, 10), Date(1, 1, 17)))
            && ReportWindow(Weekly, b) == Some(Window(Date(1, 1, 15), Date(1, 1, 22)))
  {
    var a := Instant(Date(1, 1, 17), 4 * HOUR);
    assert Weekday(a.date) == 2;
    assert AddDays(a.date, 5) == Some(Date(1, 1, 22));
  }
}
