/** Calendar fields of an order's creation time "%Y-%m-%d %H:%M:%S", taken
    from the already-split fields of the timestamp: the month, the day of the
    month, the hour, the date, and the ISO 8601 weekday and week number
    (section 4.1.4 of ISO 8601:2004: weeks start on Monday, and week 1 is the
    week holding the year's first Thursday), together with the d3 time
    formats the charts print them with. */
module Calendar {
  import opened Text

  /** A creation time, split into its fields. */
  datatype Timestamp = Timestamp(year: int, month: int, day: int, hour: int, minute: int, second: int)

  /** Gregorian leap years. */
  predicate IsLeapYear(y: int) {
    y % 4 == 0 && (y % 100 != 0 || y % 400 == 0)
  }

  function DaysInYear(y: int): (n: int)
    ensures n == 365 || n == 366
  {
    if IsLeapYear(y) then 366 else 365
  }

  function DaysInMonth(y: int, m: int): (n: int)
    requires 1 <= m <= 12
    ensures 28 <= n <= 31
  {
    if m == 2 then (if IsLeapYear(y) then 29 else 28)
    else if m == 4 || m == 6 || m == 9 || m == 11 then 30
    else 31
  }

  /** Days of the year `y` before the first of month `m`. */
  function DaysBeforeMonth(y: int, m: int): int
    requires 1 <= m <= 12
  {
    var leap := if IsLeapYear(y) then 1 else 0;
    if m == 1 then 0
    else if m == 2 then 31
    else if m == 3 then 59 + leap
    else if m == 4 then 90 + leap
    else if m == 5 then 120 + leap
    else if m == 6 then 151 + leap
    else if m == 7 then 181 + leap
    else if m == 8 then 212 + leap
    else if m == 9 then 243 + leap
    else if m == 10 then 273 + leap
    else if m == 11 then 304 + leap
    else 334 + leap
  }

  /** The month table adds up: each month starts where the previous one ends,
      and December ends with the year. */
  lemma DaysBeforeMonthStep(y: int, m: int)
    requires 1 <= m <= 12
    ensures m < 12 ==> DaysBeforeMonth(y, m + 1) == DaysBeforeMonth(y, m) + DaysInMonth(y, m)
    ensures m == 12 ==> DaysBeforeMonth(y, m) + DaysInMonth(y, m) == DaysInYear(y)
  {
  }

  /** What the timestamp parser accepts: a four-digit year and an existing
      date and time of day. */
  predicate ValidTimestamp(t: Timestamp) {
    && 0 <= t.year <= 9999
    && 1 <= t.month <= 12
    && 1 <= t.day <= DaysInMonth(t.year, t.month)
    && 0 <= t.hour < 24
    && 0 <= t.minute < 60
    && 0 <= t.second < 60
  }

  /** A creation time the parser accepted; an unparseable one is outside the model. */
  type Moment = t: Timestamp | ValidTimestamp(t) witness Timestamp(2024, 1, 1, 0, 0, 0)

  /** Ordinal day of the date within its year, 1 for January 1. */
  function DayOfYear(t: Timestamp): (n: int)
    requires ValidTimestamp(t)
    ensures 1 <= n <= DaysInYear(t.year)
  {
    DaysBeforeMonthStep(t.year, 12);
    DaysBeforeMonth(t.year, t.month) + t.day
  }

  /** Days since Monday, January 1 of year 1, in the proleptic Gregorian calendar. */
  function DayNumber(t: Timestamp): int
    requires ValidTimestamp(t)
  {
    var y := t.year - 1;
    365 * y + y / 4 - y / 100 + y / 400 + DayOfYear(t) - 1
  }

  /** The ISO weekday ("%u"): 1 for Monday through 7 for Sunday. */
  function IsoWeekday(t: Timestamp): (wd: int)
    requires ValidTimestamp(t)
    ensures 1 <= wd <= 7
  {
    DayNumber(t) % 7 + 1
  }

  /** The following calendar day at the same time of day. */
  function NextDay(t: Timestamp): (u: Timestamp)
    requires ValidTimestamp(t)
    requires t.year < 9999 || t.month < 12 || t.day < 31
    ensures ValidTimestamp(u)
  {
    if t.day < DaysInMonth(t.year, t.month) then t.(day := t.day + 1)
    else if t.month < 12 then t.(month := t.month + 1, day := 1)
    else t.(year := t.year + 1, month := 1, day := 1)
  }

  /** Within a year the next day is one ordinal day later; across a year end it is January 1. */
  lemma DayOfYearNext(t: Timestamp)
    requires ValidTimestamp(t)
    requires t.year < 9999 || t.month < 12 || t.day < 31
    ensures NextDay(t).year == t.year ==> DayOfYear(NextDay(t)) == DayOfYear(t) + 1
    ensures NextDay(t).year != t.year ==>
      NextDay(t).year == t.year + 1 && DayOfYear(NextDay(t)) == 1 && DayOfYear(t) == DaysInYear(t.year)
  {
    DaysBeforeMonthStep(t.year, t.month);
  }

  /** The day numbering has no gaps: the next day is numbered one higher. */
  lemma DayNumberNext(t: Timestamp)
    requires ValidTimestamp(t)
    requires t.year < 9999 || t.month < 12 || t.day < 31
    ensures DayNumber(NextDay(t)) == DayNumber(t) + 1
  {
    DayOfYearNext(t);
    var u := NextDay(t);
    if u.year != t.year {
      var y := t.year;
      assert y / 4 - (y - 1) / 4 == if y % 4 == 0 then 1 else 0;
      assert y / 100 - (y - 1) / 100 == if y % 100 == 0 then 1 else 0;
      assert y / 400 - (y - 1) / 400 == if y % 400 == 0 then 1 else 0;
    }
  }

  /** Weekdays cycle: Monday follows Sunday, and otherwise the weekday goes up by one. */
  lemma WeekdayNext(t: Timestamp)
    requires ValidTimestamp(t)
    requires t.year < 9999 || t.month < 12 || t.day < 31
    ensures IsoWeekday(NextDay(t)) == IsoWeekday(t) % 7 + 1
  {
    DayNumberNext(t);
    var d := DayNumber(t);
    ModSuccessor(d);
  }

  lemma ModSuccessor(d: int)
    ensures (d + 1) % 7 == (d % 7 + 1) % 7
  {
    var q := d / 7;
    assert d == 7 * q + d % 7;
    if d % 7 == 6 {
      assert d + 1 == 7 * (q + 1);
    } else {
      assert d + 1 == 7 * q + (d % 7 + 1);
    }
  }

  /** Ordinal day, within its own year, of the Thursday of the ISO week holding `t`. */
  function WeekThursday(t: Timestamp): (n: int)
    requires ValidTimestamp(t)
    ensures 1 <= n <= 366
  {
    var ord := DayOfYear(t) + 4 - IsoWeekday(t);
    if ord < 1 then ord + DaysInYear(t.year - 1)
    else if ord > DaysInYear(t.year) then ord - DaysInYear(t.year)
    else ord
  }

  /** The ISO week number ("%V"): the week of the year that holds the week's Thursday. */
  function IsoWeek(t: Timestamp): (w: int)
    requires ValidTimestamp(t)
    ensures 1 <= w <= 53
  {
    (WeekThursday(t) - 1) / 7 + 1
  }

  /** A Monday whose week's Thursday falls in the same year is in week (ordinal + 2) / 7 + 1. */
  lemma MondayWeek(t: Timestamp)
    requires ValidTimestamp(t) && IsoWeekday(t) == 1 && DayOfYear(t) + 3 <= DaysInYear(t.year)
    ensures IsoWeek(t) == (DayOfYear(t) + 2) / 7 + 1
  {
  }

  /** Weeks start on Monday: the Monday after a Sunday opens week 1 when it
      falls between December 29 and January 4 (its Thursday is then one of
      the first seven days of January), and the next week otherwise. */
  lemma WeekAdvancesOnMonday(t: Timestamp)
    requires ValidTimestamp(t)
    requires t.year < 9999 || t.month < 12 || t.day < 31
    requires IsoWeekday(t) == 7
    ensures var u := NextDay(t);
      if (u.month == 12 && u.day >= 29) || (u.month == 1 && u.day <= 4)
      then IsoWeek(u) == 1
      else IsoWeek(u) == IsoWeek(t) + 1
  {
    DayOfYearNext(t);
    WeekdayNext(t);
    var u := NextDay(t);
    assert IsoWeekday(u) == 1;
    DaysBeforeMonthStep(u.year, 12);
    assert (u.month == 12 && u.day >= 29) || (u.month == 1 && u.day <= 4)
      <==> DayOfYear(u) <= 4 || DayOfYear(u) >= DaysInYear(u.year) - 2;
    if u.year == t.year {
      assert DayOfYear(u) + 4 - IsoWeekday(u) == (DayOfYear(t) + 4 - IsoWeekday(t)) + 7;
    }
  }

  /** January 4 is always in week 1. */
  lemma FourthOfJanuaryInWeekOne(t: Timestamp)
    requires ValidTimestamp(t) && t.month == 1 && t.day == 4
    ensures IsoWeek(t) == 1
  {
  }

  /** The days from Monday to Sunday share one week number, also across a year end. */
  lemma WeekKeptUntilSunday(t: Timestamp)
    requires ValidTimestamp(t)
    requires t.year < 9999 || t.month < 12 || t.day < 31
    requires IsoWeekday(t) < 7
    ensures IsoWeek(NextDay(t)) == IsoWeek(t)
  {
    DayOfYearNext(t);
    WeekdayNext(t);
    var u := NextDay(t);
    var wd := IsoWeekday(t);
    assert IsoWeekday(u) == wd + 1;
    if u.year == t.year {
      assert DayOfYear(u) + 4 - IsoWeekday(u) == DayOfYear(t) + 4 - wd;
      assert WeekThursday(u) == WeekThursday(t);
    } else {
      assert u.year - 1 == t.year;
      assert DayOfYear(u) + 4 - IsoWeekday(u) == 4 - wd;
      assert DayOfYear(t) + 4 - wd == DaysInYear(t.year) + 4 - wd;
      assert WeekThursday(u) == WeekThursday(t);
    }
  }

  /** "%m": the two-digit month. */
  function MonthLabel(t: Timestamp): (m: string)
    requires ValidTimestamp(t)
    ensures |m| == 2 && AllDigits(m)
  {
    TwoDigits(t.month);
    PadZero(t.month, 2)
  }

  /** "%d", and getDate() padded to two digits: the two-digit day of the month. */
  function DayLabel(t: Timestamp): (d: string)
    requires ValidTimestamp(t)
    ensures |d| == 2 && AllDigits(d)
  {
    TwoDigits(t.day);
    PadZero(t.day, 2)
  }

  /** "%H:00-%H:59": the hour slot, from minute 00 to minute 59 of one two-digit hour. */
  function HourLabel(t: Timestamp): (h: string)
    requires ValidTimestamp(t)
    ensures |h| == 11 && AllDigits(h[..2]) && h[2..6] == ":00-" && h[6..8] == h[..2] && h[8..] == ":59"
  {
    TwoDigits(t.hour);
    PadZero(t.hour, 2) + ":00-" + PadZero(t.hour, 2) + ":59"
  }

  /** "%Y-%m-%d": the calendar date, as four, two and two digits joined by '-'. */
  function DateLabel(t: Timestamp): (d: string)
    requires ValidTimestamp(t)
    ensures |d| == 10 && d[4] == '-' && d[7] == '-'
    ensures AllDigits(d[..4]) && AllDigits(d[5..7]) && AllDigits(d[8..])
  {
    PadZeroLength(t.year % 10000, 4);
    TwoDigits(t.month);
    TwoDigits(t.day);
    PadZero(t.year % 10000, 4) + "-" + PadZero(t.month, 2) + "-" + PadZero(t.day, 2)
  }

  /** "%V": the two-digit ISO week number. */
  function WeekLabel(t: Timestamp): (w: string)
    requires ValidTimestamp(t)
    ensures |w| == 2 && AllDigits(w)
  {
    TwoDigits(IsoWeek(t));
    PadZero(IsoWeek(t), 2)
  }

  /** "%u": the ISO weekday digit, "1" for Monday to "7" for Sunday. */
  function WeekdayLabel(t: Timestamp): (w: string)
    requires ValidTimestamp(t)
    ensures |w| == 1 && '1' <= w[0] <= '7'
  {
    DecimalString(IsoWeekday(t))
  }

  /** getMonth() + 1: the month number. */
  function MonthNumber(t: Timestamp): int
    requires ValidTimestamp(t)
  {
    t.month
  }

  /** Number("%u") is the weekday, and the label is one digit from "1" to "7". */
  lemma WeekdayLabelValue(t: Timestamp)
    requires ValidTimestamp(t)
    ensures |WeekdayLabel(t)| == 1 && DecimalValue(WeekdayLabel(t)) == IsoWeekday(t)
  {
    DecimalRoundTrip(IsoWeekday(t));
  }

  /** Number("%m") is the month. */
  lemma MonthLabelValue(t: Timestamp)
    requires ValidTimestamp(t)
    ensures |MonthLabel(t)| == 2 && DecimalValue(MonthLabel(t)) == t.month
  {
    TwoDigits(t.month);
    TwoDigitsRoundTrip(t.month);
  }

  /** Two timestamps get the same "%m" exactly when they are in the same month of the year. */
  lemma MonthLabelSame(t: Timestamp, u: Timestamp)
    requires ValidTimestamp(t) && ValidTimestamp(u)
    ensures MonthLabel(t) == MonthLabel(u) <==> t.month == u.month
  {
    if MonthLabel(t) == MonthLabel(u) {
      TwoDigitsInjective(t.month, u.month);
    }
  }

  /** Two timestamps get the same "%d" exactly when they fall on the same day of the month. */
  lemma DayLabelSame(t: Timestamp, u: Timestamp)
    requires ValidTimestamp(t) && ValidTimestamp(u)
    ensures DayLabel(t) == DayLabel(u) <==> t.day == u.day
  {
    if DayLabel(t) == DayLabel(u) {
      TwoDigitsInjective(t.day, u.day);
    }
  }

  /** Two timestamps get the same "%V" exactly when they have the same week number, whatever their years. */
  lemma WeekLabelSame(t: Timestamp, u: Timestamp)
    requires ValidTimestamp(t) && ValidTimestamp(u)
    ensures WeekLabel(t) == WeekLabel(u) <==> IsoWeek(t) == IsoWeek(u)
  {
    if WeekLabel(t) == WeekLabel(u) {
      TwoDigitsInjective(IsoWeek(t), IsoWeek(u));
    }
  }

  /** Two timestamps get the same "%u" exactly when they fall on the same weekday. */
  lemma WeekdayLabelSame(t: Timestamp, u: Timestamp)
    requires ValidTimestamp(t) && ValidTimestamp(u)
    ensures WeekdayLabel(t) == WeekdayLabel(u) <==> IsoWeekday(t) == IsoWeekday(u)
  {
    if WeekdayLabel(t) == WeekdayLabel(u) {
      DecimalStringInjective(IsoWeekday(t), IsoWeekday(u));
    }
  }

  /** Two timestamps get the same hour slot exactly when they are in the same hour of the day. */
  lemma HourLabelSame(t: Timestamp, u: Timestamp)
    requires ValidTimestamp(t) && ValidTimestamp(u)
    ensures HourLabel(t) == HourLabel(u) <==> t.hour == u.hour
  {
    if HourLabel(t) == HourLabel(u) {
      TwoDigits(t.hour);
      TwoDigits(u.hour);
      assert HourLabel(t)[..2] == PadZero(t.hour, 2);
      assert HourLabel(u)[..2] == PadZero(u.hour, 2);
      TwoDigitsInjective(t.hour, u.hour);
    }
  }

  /** Hour slots compare as strings in the order of their hours: zero padding
      makes the lexicographic order of the labels the order of the day. */
  lemma HourLabelOrder(t: Timestamp, u: Timestamp)
    requires ValidTimestamp(t) && ValidTimestamp(u)
    ensures StringLess(HourLabel(t), HourLabel(u)) <==> t.hour < u.hour
  {
    var h, k := t.hour, u.hour;
    TwoDigits(h);
    TwoDigits(k);
    var a, b := HourLabel(t), HourLabel(u);
    var ra := a[1..];
    var rb := b[1..];
    assert a[0] == DigitChar(h / 10) && b[0] == DigitChar(k / 10);
    assert a[1] == DigitChar(h % 10) && b[1] == DigitChar(k % 10);
    if h / 10 == k / 10 {
      if h % 10 == k % 10 {
        assert h == k;
        StringLessAsymmetric(a, b);
        assert !StringLess(a, a) by { StringLessAsymmetric(a, a); }
      } else {
        assert StringLess(a, b) == StringLess(ra, rb);
        assert ra[0] == a[1] && rb[0] == b[1];
      }
    }
  }

  /** Three fields joined by "-" split back apart when the first two have the same widths. */
  lemma JoinedFieldsSame(p: string, q: string, r: string, p': string, q': string, r': string)
    requires |p| == |p'| && |q| == |q'|
    requires p + "-" + q + "-" + r == p' + "-" + q' + "-" + r'
    ensures p == p' && q == q' && r == r'
  {
    var a, b := p + "-" + q + "-" + r, p' + "-" + q' + "-" + r';
    assert p == a[..|p|] && p' == b[..|p|];
    assert q == a[|p| + 1..|p| + 1 + |q|] && q' == b[|p| + 1..|p| + 1 + |q|];
    assert r == a[|p| + |q| + 2..] && r' == b[|p| + |q| + 2..];
  }

  /** Two timestamps get the same "%Y-%m-%d" exactly when they fall on the same calendar date. */
  lemma DateLabelSame(t: Timestamp, u: Timestamp)
    requires ValidTimestamp(t) && ValidTimestamp(u)
    ensures DateLabel(t) == DateLabel(u) <==> (t.year, t.month, t.day) == (u.year, u.month, u.day)
  {
    if DateLabel(t) == DateLabel(u) {
      assert Pow10(4) == 10000 && Pow10(2) == 100;
      assert t.year % 10000 == t.year && u.year % 10000 == u.year;
      PadZeroLength(t.year, 4);
      PadZeroLength(u.year, 4);
      PadZeroLength(t.month, 2);
      PadZeroLength(u.month, 2);
      JoinedFieldsSame(PadZero(t.year, 4), PadZero(t.month, 2), PadZero(t.day, 2),
                       PadZero(u.year, 4), PadZero(u.month, 2), PadZero(u.day, 2));
      PadZeroInjective(t.year, u.year, 4);
      PadZeroInjective(t.month, u.month, 2);
      PadZeroInjective(t.day, u.day, 2);
    }
  }
}
