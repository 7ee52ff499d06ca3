/** The retention boundary: three calendar months back, clamped to shorter months. */
module Calendar {

  const BUCKET := 900
  const DAY := 86400
  /** The ordinal of 1970-01-01, day 1 being 0001-01-01. */
  const EPOCH_ORDINAL := 719163

  predicate Leap(year: int) {
    year % 4 == 0 && (year % 100 != 0 || year % 400 == 0)
  }

  function DaysInMonth(year: int, month: int): (days: int)
    requires 1 <= month <= 12
    ensures 28 <= days <= 31
  {
    if month == 2 then (if Leap(year) then 29 else 28)
    else if month == 4 || month == 6 || month == 9 || month == 11 then 30
    else 31
  }

  function YearDays(year: int): int {
    if Leap(year) then 366 else 365
  }

  /** Days in the years 1 to year - 1. */
  function DaysBeforeYear(year: int): int
    decreases year
  {
    if year <= 1 then 0 else DaysBeforeYear(year - 1) + YearDays(year - 1)
  }

  function DaysBeforeMonth(year: int, month: int): int
    requires 1 <= month <= 13
    decreases month
  {
    if month == 1 then 0 else DaysBeforeMonth(year, month - 1) + DaysInMonth(year, month - 1)
  }

  datatype Date = Date(year: int, month: int, day: int) {
    predicate Valid() {
      1 <= year && 1 <= month <= 12 && 1 <= day <= DaysInMonth(year, month)
    }

    /** Days since 0000-12-31 in the proleptic Gregorian calendar. */
    function Ordinal(): int
      requires Valid()
    {
      DaysBeforeYear(year) + DaysBeforeMonth(year, month) + day
    }
  }

  function LeapDays(years: int): int {
    years / 4 - years / 100 + years / 400
  }

  lemma LeapStep(year: int)
    ensures LeapDays(year) - LeapDays(year - 1) == if Leap(year) then 1 else 0
  {
    QuotientStep(year, 4);
    QuotientStep(year, 100);
    QuotientStep(year, 400);
  }

  /** The Gregorian leap rule in closed form. */
  lemma {:induction false} YearsInClosedForm(year: int)
    requires 1 <= year
    ensures DaysBeforeYear(year) == 365 * (year - 1) + LeapDays(year - 1)
    decreases year
  {
    if year > 1 {
      YearsInClosedForm(year - 1);
      LeapStep(year - 1);
    }
  }

  lemma QuotientStep(n: int, d: int)
    requires d > 0
    ensures n / d - (n - 1) / d == (if n % d == 0 then 1 else 0)
  {
    var q, r := n / d, n % d;
    assert n == q * d + r;
    if r == 0 {
      assert n - 1 == (q - 1) * d + (d - 1);
      DivUnique(n - 1, d, q - 1, d - 1);
    } else {
      assert n - 1 == q * d + (r - 1);
      DivUnique(n - 1, d, q, r - 1);
    }
  }

  lemma DivUnique(n: int, d: int, q: int, r: int)
    requires d > 0 && 0 <= r < d && n == q * d + r
    ensures n / d == q && n % d == r
  {
    var p := n / d;
    var gap := p - q;
    assert gap * d == p * d - q * d;
    if gap <= -1 {
      MultipleAtLeast(-gap, d);
    } else if gap >= 1 {
      MultipleAtLeast(gap, d);
    }
  }

  lemma MultipleAtLeast(k: int, d: int)
    requires 1 <= k && 0 < d
    ensures d <= k * d
  {
  }

  /** The cumulative month lengths, written out. */
  lemma MonthStarts(year: int)
    ensures var leap := if Leap(year) then 1 else 0;
            && DaysBeforeMonth(year, 1) == 0
            && DaysBeforeMonth(year, 2) == 31
            && DaysBeforeMonth(year, 3) == 59 + leap
            && DaysBeforeMonth(year, 4) == 90 + leap
            && DaysBeforeMonth(year, 5) == 120 + leap
            && DaysBeforeMonth(year, 6) == 151 + leap
            && DaysBeforeMonth(year, 7) == 181 + leap
            && DaysBeforeMonth(year, 8) == 212 + leap
            && DaysBeforeMonth(year, 9) == 243 + leap
            && DaysBeforeMonth(year, 10) == 273 + leap
            && DaysBeforeMonth(year, 11) == 304 + leap
            && DaysBeforeMonth(year, 12) == 334 + leap
            && DaysBeforeMonth(year, 13) == 365 + leap
  {
    assert DaysBeforeMonth(year, 4) == 90 + (if Leap(year) then 1 else 0);
    assert DaysBeforeMonth(year, 7) == 181 + (if Leap(year) then 1 else 0);
    assert DaysBeforeMonth(year, 10) == 273 + (if Leap(year) then 1 else 0);
  }

  lemma YearIsItsMonths(year: int)
    ensures DaysBeforeMonth(year, 13) == YearDays(year)
  {
    MonthStarts(year);
  }

  /** The year holding an ordinal, searched upwards from `year`. */
  function FindYear(ordinal: int, year: int): (y: int)
    requires 1 <= year && DaysBeforeYear(year) < ordinal
    ensures year <= y && DaysBeforeYear(y) < ordinal <= DaysBeforeYear(y + 1)
    decreases ordinal - DaysBeforeYear(year)
  {
    if ordinal <= DaysBeforeYear(year + 1) then year
    else FindYear(ordinal, year + 1)
  }

  function FindMonth(year: int, dayOfYear: int, month: int): (m: int)
    requires 1 <= month <= 12
    requires DaysBeforeMonth(year, month) < dayOfYear <= DaysBeforeMonth(year, 13)
    ensures month <= m <= 12
    ensures DaysBeforeMonth(year, m) < dayOfYear <= DaysBeforeMonth(year, m + 1)
    decreases 12 - month
  {
    if dayOfYear <= DaysBeforeMonth(year, month + 1) then month
    else FindMonth(year, dayOfYear, month + 1)
  }

  /** The calendar date with a given ordinal. */
  function FromOrdinal(ordinal: int): (date: Date)
    requires 1 <= ordinal
    ensures date.Valid() && date.Ordinal() == ordinal
  {
    var year := FindYear(ordinal, 1);
    var dayOfYear := ordinal - DaysBeforeYear(year);
    YearIsItsMonths(year);
    var month := FindMonth(year, dayOfYear, 1);
    Date(year, month, dayOfYear - DaysBeforeMonth(year, month))
  }

  /** Three calendar months earlier, the day clamped to the length of that month. */
  function ThreeMonthsBefore(date: Date): (earlier: Date)
    requires date.Valid() && 2 <= date.year
    ensures earlier.Valid()
  {
    var index := date.year * 12 + date.month - 1 - 3;
    var year, month := index / 12, index % 12 + 1;
    var last := DaysInMonth(year, month);
    Date(year, month, if date.day < last then date.day else last)
  }

  /** Seconds since 1970 of a second of a day. */
  function Instant(date: Date, second: int): int
    requires date.Valid()
  {
    (date.Ordinal() - EPOCH_ORDINAL) * DAY + second
  }

  function DateOf(now: int): (date: Date)
    requires 0 <= now
    ensures date.Valid() && 2 <= date.year && date.Ordinal() == now / DAY + EPOCH_ORDINAL
  {
    assert DaysBeforeYear(2) == 365;
    OrdinalAfterFirstYear(FromOrdinal(now / DAY + EPOCH_ORDINAL));
    FromOrdinal(now / DAY + EPOCH_ORDINAL)
  }

  function Cutoff(now: int): int
    requires 0 <= now
  {
    Instant(ThreeMonthsBefore(DateOf(now)), now % DAY) / BUCKET * BUCKET
  }

  /** The lengths of the three months before a given one, the last of which is clamped to. */
  lemma GapWithinYear(year: int, month: int)
    requires 4 <= month <= 12
    ensures DaysBeforeMonth(year, month) - DaysBeforeMonth(year, month - 3) ==
            DaysInMonth(year, month - 3) + DaysInMonth(year, month - 2) + DaysInMonth(year, month - 1)
  {
    assert DaysBeforeMonth(year, month - 1) == DaysBeforeMonth(year, month - 2) + DaysInMonth(year, month - 2);
  }

  lemma GapAcrossYears(year: int, month: int)
    requires 1 <= month <= 3
    ensures DaysBeforeMonth(year, 13) - DaysBeforeMonth(year, month + 9) + DaysBeforeMonth(year + 1, month) ==
            (if month == 1 then 92 else if month == 2 then 92 else 90 + (if Leap(year + 1) then 1 else 0))
  {
    MonthStarts(year);
    MonthStarts(year + 1);
  }

  lemma EarlierMonth(date: Date)
    requires date.Valid() && 2 <= date.year
    ensures var earlier := ThreeMonthsBefore(date);
            && earlier.year == (if date.month >= 4 then date.year else date.year - 1)
            && earlier.month == (if date.month >= 4 then date.month - 3 else date.month + 9)
  {
    var index := date.year * 12 + (date.month - 4);
    if date.month >= 4 {
      DivUnique(index, 12, date.year, date.month - 4);
    } else {
      DivUnique(index, 12, date.year - 1, date.month + 8);
    }
  }

  /** Three months are 89 to 92 days, whatever the months and leap years involved. */
  lemma ThreeMonthsInDays(date: Date)
    requires date.Valid() && 2 <= date.year
    ensures 89 <= date.Ordinal() - ThreeMonthsBefore(date).Ordinal() <= 92
  {
    var earlier := ThreeMonthsBefore(date);
    EarlierMonth(date);
    if date.month >= 4 {
      GapWithinYear(date.year, date.month);
    } else {
      GapAcrossYears(date.year - 1, date.month);
      YearIsItsMonths(date.year - 1);
    }
  }

  lemma DateOfInstant(date: Date, second: int)
    requires date.Valid() && EPOCH_ORDINAL <= date.Ordinal() && 0 <= second < DAY
    ensures 0 <= Instant(date, second)
    ensures 2 <= date.year && DateOf(Instant(date, second)) == date && Instant(date, second) % DAY == second
  {
    var day := date.Ordinal() - EPOCH_ORDINAL;
    DivUnique(Instant(date, second), DAY, day, second);
    OrdinalUnique(date, DateOf(Instant(date, second)));
  }

  /** Retention keeps at least 89 days and less than 92 days and one bucket; the boundary is bucket aligned. */
  lemma CutoffWindow(now: int)
    requires 0 <= now
    ensures Cutoff(now) % BUCKET == 0
    ensures 89 * DAY <= now - Cutoff(now) < 92 * DAY + BUCKET
  {
    var date := DateOf(now);
    var earlier := ThreeMonthsBefore(date);
    var days := date.Ordinal() - earlier.Ordinal();
    assert 89 <= days <= 92 by { ThreeMonthsInDays(date); }
    var instant := Instant(earlier, now % DAY);
    assert instant == now - days * DAY by {
      assert date.Ordinal() == now / DAY + EPOCH_ORDINAL;
    }
    assert Cutoff(now) == instant / BUCKET * BUCKET;
    Floored(instant);
  }

  lemma Floored(n: int)
    ensures n / BUCKET * BUCKET % BUCKET == 0
    ensures n - BUCKET < n / BUCKET * BUCKET <= n
  {
  }

  lemma Spring1971()
    ensures Date(1971, 2, 28).Ordinal() == 719586
    ensures Date(1971, 5, 28).Ordinal() == 719675
    ensures Date(1971, 5, 29).Ordinal() == 719676
    ensures ThreeMonthsBefore(Date(1971, 5, 28)) == ThreeMonthsBefore(Date(1971, 5, 29)) == Date(1971, 2, 28)
  {
    MonthStarts(1971);
    YearsInClosedForm(1971);
  }

  /** The last day of the month that lies three months before a date. */
  function LastDayBefore(date: Date): int
    requires date.Valid() && 2 <= date.year
  {
    var earlier := ThreeMonthsBefore(date);
    DaysInMonth(earlier.year, earlier.month)
  }

  /** Two days of one month that both fall on the last day of the month three months before. */
  predicate ClampedAlike(a: Date, b: Date)
    requires a.Valid() && b.Valid() && 2 <= a.year && 2 <= b.year
  {
    a.year == b.year && a.month == b.month && LastDayBefore(a) <= a.day && LastDayBefore(b) <= b.day
  }

  /** Three months back keeps the order of days, and joins exactly those that are clamped alike. */
  lemma EarlierDates(a: Date, b: Date)
    requires a.Valid() && b.Valid() && 2 <= a.year && 2 <= b.year && a.Ordinal() < b.Ordinal()
    ensures var before, after := ThreeMonthsBefore(a), ThreeMonthsBefore(b);
            if ClampedAlike(a, b) then before == after else before.Ordinal() < after.Ordinal()
  {
    LaterDate(a, b);
    EarlierMonth(a);
    EarlierMonth(b);
    var before, after := ThreeMonthsBefore(a), ThreeMonthsBefore(b);
    if before.year < after.year {
      EarlierYear(before, after);
    } else if before.month < after.month {
      EarlierInYear(before, after);
    }
  }

  lemma LaterDate(a: Date, b: Date)
    requires a.Valid() && b.Valid() && a.Ordinal() < b.Ordinal()
    ensures a.year < b.year || (a.year == b.year && (a.month < b.month || (a.month == b.month && a.day < b.day)))
  {
    if b.year < a.year {
      EarlierYear(b, a);
    } else if b.year == a.year && b.month < a.month {
      EarlierInYear(b, a);
    }
  }

  /** The quarter hour of the day an instant lies in. */
  function SlotOf(now: int): int { now % DAY / BUCKET }

  lemma CutoffInSlots(now: int)
    requires 0 <= now
    ensures 0 <= SlotOf(now) < 96
    ensures Cutoff(now) == ((ThreeMonthsBefore(DateOf(now)).Ordinal() - EPOCH_ORDINAL) * 96 + SlotOf(now)) * BUCKET
  {
    var day := ThreeMonthsBefore(DateOf(now)).Ordinal() - EPOCH_ORDINAL;
    WholeDays(day, now % DAY);
  }

  lemma WholeDays(day: int, second: int)
    ensures (day * DAY + second) / BUCKET == day * 96 + second / BUCKET
  {
  }

  /**
   The boundary moves back between two instants exactly when their days are clamped to the same day and the
   first instant lies in a later quarter hour of its day. Otherwise it never does.
   */
  lemma CutoffMonotone(a: int, b: int)
    requires 0 <= a <= b
    ensures Cutoff(a) <= Cutoff(b) <==> !(ClampedAlike(DateOf(a), DateOf(b)) && SlotOf(a) > SlotOf(b))
  {
    CutoffInSlots(a);
    CutoffInSlots(b);
    if a / DAY < b / DAY {
      EarlierDates(DateOf(a), DateOf(b));
    } else {
      SameDay(a, b);
      OrdinalUnique(DateOf(a), DateOf(b));
    }
  }

  lemma SameDay(a: int, b: int)
    requires 0 <= a <= b && a / DAY >= b / DAY
    ensures a / DAY == b / DAY && SlotOf(a) <= SlotOf(b)
  {
  }

  /** The boundary moves back for every two instants on days that are clamped alike. */
  lemma MovesBack(a: Date, b: Date, s: int, t: int)
    requires a.Valid() && b.Valid() && EPOCH_ORDINAL <= a.Ordinal() < b.Ordinal() && 2 <= a.year && 2 <= b.year
    requires ClampedAlike(a, b) && 0 <= t < s < DAY && t / BUCKET < s / BUCKET
    ensures 0 <= Instant(a, s) < Instant(b, t) && Cutoff(Instant(a, s)) > Cutoff(Instant(b, t))
  {
    DateOfInstant(a, s);
    DateOfInstant(b, t);
    CutoffMonotone(Instant(a, s), Instant(b, t));
  }

  /** So it is not monotone: 28 May 23:59 has a later boundary than 29 May 00:00 of a common year. */
  lemma CutoffIsNotMonotone()
    ensures var early, late := Instant(Date(1971, 5, 28), 86340), Instant(Date(1971, 5, 29), 0);
            0 <= early < late && Cutoff(early) > Cutoff(late)
  {
    Spring1971();
    MovesBack(Date(1971, 5, 28), Date(1971, 5, 29), 86340, 0);
  }

  lemma InYear(date: Date)
    requires date.Valid()
    ensures DaysBeforeYear(date.year) < date.Ordinal() <= DaysBeforeYear(date.year + 1)
  {
    var inYear := DaysBeforeMonth(date.year, date.month) + date.day;
    assert 0 < inYear <= DaysBeforeMonth(date.year, 13) by {
      MonthsIncrease(date.year, 1, date.month);
      MonthsIncrease(date.year, date.month + 1, 13);
    }
    YearIsItsMonths(date.year);
  }

  lemma OrdinalAfterFirstYear(date: Date)
    requires date.Valid() && 365 < date.Ordinal()
    ensures 2 <= date.year
  {
    InYear(date);
    assert DaysBeforeYear(2) == 365;
  }

  lemma {:induction false} MonthsIncrease(year: int, a: int, b: int)
    requires 1 <= a <= b <= 13
    ensures DaysBeforeMonth(year, a) <= DaysBeforeMonth(year, b)
    decreases b - a
  {
    if a < b {
      MonthsIncrease(year, a, b - 1);
    }
  }

  lemma EarlierYear(a: Date, b: Date)
    requires a.Valid() && b.Valid() && a.year < b.year
    ensures a.Ordinal() < b.Ordinal()
  {
    InYear(a);
    InYear(b);
    YearsIncrease(a.year + 1, b.year);
  }

  lemma EarlierInYear(a: Date, b: Date)
    requires a.Valid() && b.Valid() && a.year == b.year && a.month < b.month
    ensures a.Ordinal() < b.Ordinal()
  {
    MonthsIncrease(a.year, a.month + 1, b.month);
  }

  /** Distinct dates have distinct ordinals. */
  lemma OrdinalUnique(a: Date, b: Date)
    requires a.Valid() && b.Valid() && a.Ordinal() == b.Ordinal()
    ensures a == b
  {
    if a.year < b.year {
      EarlierYear(a, b);
    } else if b.year < a.year {
      EarlierYear(b, a);
    } else if a.month < b.month {
      EarlierInYear(a, b);
    } else if b.month < a.month {
      EarlierInYear(b, a);
    }
  }

  lemma {:induction false} YearsIncrease(a: int, b: int)
    requires 1 <= a <= b
    ensures DaysBeforeYear(a) <= DaysBeforeYear(b)
    decreases b - a
  {
    if a < b {
      YearsIncrease(a, b - 1);
    }
  }
}
