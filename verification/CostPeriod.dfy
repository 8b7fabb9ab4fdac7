/** Cost periods on the Gregorian calendar (ui/utils/cost_report.py), and the month lengths the
  * dashboard computes (ui/routes/dashboard.py).  Years are unbounded integers. */
module CostPeriod {

  // ----- dates -----------------------------------------------------------------------------------

  datatype RawDate = RawDate(year: int, month: int, day: int)

  predicate Leap(y: int) { y % 4 == 0 && (y % 100 != 0 || y % 400 == 0) }

  /** calendar.monthrange(y, m)[1]. */
  function DaysIn(y: int, m: int): int {
    if m == 2 then if Leap(y) then 29 else 28
    else if m == 4 || m == 6 || m == 9 || m == 11 then 30
    else 31
  }

  type Date = d: RawDate | 1 <= d.month <= 12 && 1 <= d.day <= DaysIn(d.year, d.month)
    witness RawDate(1, 1, 1)

  function DaysBeforeYear(y: int): int {
    365 * (y - 1) + (y - 1) / 4 - (y - 1) / 100 + (y - 1) / 400
  }

  function DaysBeforeMonth(y: int, m: int): int
    requires 1 <= m <= 13
    decreases m
  {
    if m == 1 then 0 else DaysBeforeMonth(y, m - 1) + DaysIn(y, m - 1)
  }

  /** The day number: 1 January of year 1 is day 1. */
  function Ord(d: Date): int {
    DaysBeforeYear(d.year) + DaysBeforeMonth(d.year, d.month) + d.day
  }

  /** Monday is 0. */
  function Weekday(d: Date): int { (Ord(d) + 6) % 7 }

  lemma YearLength(y: int)
    ensures DaysBeforeYear(y + 1) == DaysBeforeYear(y) + DaysBeforeMonth(y, 13)
  {
    hide DaysBeforeMonth;
    MonthsOfYear(y);
    MultiplesOf4(y);
    MultiplesOf100(y);
    MultiplesOf400(y);
  }

  lemma MonthsOfYear(y: int)
    ensures DaysBeforeMonth(y, 13) == 337 + DaysIn(y, 2)
  {
    assert DaysBeforeMonth(y, 3) == 31 + DaysIn(y, 2);
    assert DaysBeforeMonth(y, 6) == DaysBeforeMonth(y, 3) + 92;
    assert DaysBeforeMonth(y, 9) == DaysBeforeMonth(y, 6) + 92;
    assert DaysBeforeMonth(y, 12) == DaysBeforeMonth(y, 9) + 91;
  }

  lemma MultiplesOf4(y: int)
    ensures y / 4 - (y - 1) / 4 == if y % 4 == 0 then 1 else 0
  {
  }

  lemma MultiplesOf100(y: int)
    ensures y / 100 - (y - 1) / 100 == if y % 100 == 0 then 1 else 0
    ensures y % 100 == 0 ==> y % 4 == 0
  {
    if y % 100 == 0 {
      By100(y - 1, y / 100 - 1, 99);
      By4(y, 25 * (y / 100), 0);
    } else {
      By100(y - 1, y / 100, y % 100 - 1);
    }
  }

  lemma MultiplesOf400(y: int)
    ensures y / 400 - (y - 1) / 400 == if y % 400 == 0 then 1 else 0
    ensures y % 400 == 0 ==> y % 100 == 0
  {
    if y % 400 == 0 {
      By400(y - 1, y / 400 - 1, 399);
      By100(y, 4 * (y / 400), 0);
    } else {
      By400(y - 1, y / 400, y % 400 - 1);
    }
  }

  lemma By4(n: int, q: int, r: int)
    requires n == 4 * q + r && 0 <= r < 4
    ensures n / 4 == q && n % 4 == r
  {
  }

  lemma By100(n: int, q: int, r: int)
    requires n == 100 * q + r && 0 <= r < 100
    ensures n / 100 == q && n % 100 == r
  {
  }

  lemma By400(n: int, q: int, r: int)
    requires n == 400 * q + r && 0 <= r < 400
    ensures n / 400 == q && n % 400 == r
  {
  }

  lemma {:induction false} MonthsInOrder(y: int, m: int, m': int)
    requires 1 <= m <= m' <= 13
    ensures m < m' ==> DaysBeforeMonth(y, m) + DaysIn(y, m) <= DaysBeforeMonth(y, m')
    ensures DaysBeforeMonth(y, m) <= DaysBeforeMonth(y, m')
    decreases m' - m
  {
    if m < m' {
      MonthsInOrder(y, m + 1, m');
    }
  }

  lemma {:induction false} YearsInOrder(y: int, y': int)
    requires y <= y'
    ensures DaysBeforeYear(y) <= DaysBeforeYear(y')
    decreases y' - y
  {
    if y < y' {
      YearLength(y);
      MonthsInOrder(y, 1, 13);
      YearsInOrder(y + 1, y');
    }
  }

  predicate Earlier(a: Date, b: Date) {
    a.year < b.year || (a.year == b.year && (a.month < b.month || (a.month == b.month && a.day < b.day)))
  }

  /** Day numbers order dates as year, month, day do; in particular they identify them. */
  lemma OrdIsMonotone(a: Date, b: Date)
    ensures Earlier(a, b) <==> Ord(a) < Ord(b)
    ensures a == b <==> Ord(a) == Ord(b)
  {
    if Earlier(a, b) { EarlierIsLess(a, b); }
    if Earlier(b, a) { EarlierIsLess(b, a); }
  }

  lemma EarlierIsLess(a: Date, b: Date)
    requires Earlier(a, b)
    ensures Ord(a) < Ord(b)
  {
    hide DaysBeforeYear;
    MonthsInOrder(a.year, a.month, 13);
    MonthsInOrder(b.year, 1, b.month);
    if a.year < b.year {
      YearLength(a.year);
      YearsInOrder(a.year + 1, b.year);
    } else if a.month < b.month {
      MonthsInOrder(a.year, a.month, b.month);
    }
  }

  function Next(d: Date): (e: Date)
  {
    if d.day < DaysIn(d.year, d.month) then RawDate(d.year, d.month, d.day + 1)
    else if d.month < 12 then RawDate(d.year, d.month + 1, 1)
    else RawDate(d.year + 1, 1, 1)
  }

  function Previous(d: Date): (e: Date)
  {
    if d.day > 1 then RawDate(d.year, d.month, d.day - 1)
    else if d.month > 1 then RawDate(d.year, d.month - 1, DaysIn(d.year, d.month - 1))
    else RawDate(d.year - 1, 12, 31)
  }

  lemma NextByOrd(d: Date)
    ensures Ord(Next(d)) == Ord(d) + 1
  {
    hide DaysBeforeYear;
    if d.month == 12 {
      YearLength(d.year);
      assert DaysBeforeMonth(d.year, 13) == DaysBeforeMonth(d.year, 12) + DaysIn(d.year, 12);
    }
  }

  lemma NeighboursByOrd(d: Date)
    ensures Ord(Next(d)) == Ord(d) + 1
    ensures Ord(Previous(d)) == Ord(d) - 1
  {
    hide Ord;
    NextByOrd(d);
    NextByOrd(Previous(d));
    assert Next(Previous(d)) == d;
  }

  /** d + timedelta(days=k). */
  function AddDays(d: Date, k: int): Date
    decreases if k < 0 then -k else k
  {
    if k == 0 then d else if k > 0 then AddDays(Next(d), k - 1) else AddDays(Previous(d), k + 1)
  }

  lemma {:induction false} AddDaysByOrd(d: Date, k: int)
    ensures Ord(AddDays(d, k)) == Ord(d) + k
    decreases if k < 0 then -k else k
  {
    NeighboursByOrd(d);
    if k > 0 {
      AddDaysByOrd(Next(d), k - 1);
    } else if k < 0 {
      AddDaysByOrd(Previous(d), k + 1);
    }
  }

  // ----- periods ---------------------------------------------------------------------------------

  /** Any other name means a month. */
  datatype Granularity = Day | Week | Month | Year

  datatype Bucket = PerDay | PerMonth

  datatype Period = Period(start: Date, end: Date, prevStart: Date, prevEnd: Date, bucket: Bucket)

  function FirstOfMonth(d: Date): Date { RawDate(d.year, d.month, 1) }

  function LastOfMonth(d: Date): Date { RawDate(d.year, d.month, DaysIn(d.year, d.month)) }

  function Resolve(g: Granularity, anchor: Date): Period {
    match g
    case Day =>
      var before := AddDays(anchor, -1);
      Period(anchor, anchor, before, before, PerDay)
    case Week =>
      var start := AddDays(anchor, -Weekday(anchor));
      var end := AddDays(start, 6);
      Period(start, end, AddDays(start, -7), AddDays(end, -7), PerDay)
    case Year =>
      Period(RawDate(anchor.year, 1, 1), RawDate(anchor.year, 12, 31),
             RawDate(anchor.year - 1, 1, 1), RawDate(anchor.year - 1, 12, 31), PerMonth)
    case Month =>
      var start := FirstOfMonth(anchor);
      var prevLast := AddDays(start, -1);
      Period(start, LastOfMonth(anchor), FirstOfMonth(prevLast), prevLast, PerDay)
  }

  function ShiftAnchor(g: Granularity, anchor: Date, direction: int): Date {
    match g
    case Day => AddDays(anchor, direction)
    case Week => AddDays(anchor, 7 * direction)
    case Year => RawDate(anchor.year + direction, anchor.month, 1)
    case Month =>
      if direction < 0 then FirstOfMonth(AddDays(FirstOfMonth(anchor), -1))
      else AddDays(LastOfMonth(anchor), 1)
  }

  predicate Contains(p: Period, d: Date) { Ord(p.start) <= Ord(d) <= Ord(p.end) }

  lemma StartOfNextMonth(d: Date)
    ensures AddDays(LastOfMonth(d), 1) == if d.month < 12 then RawDate(d.year, d.month + 1, 1) else RawDate(d.year + 1, 1, 1)
    ensures AddDays(FirstOfMonth(d), -1) == if d.month > 1 then RawDate(d.year, d.month - 1, DaysIn(d.year, d.month - 1)) else RawDate(d.year - 1, 12, 31)
  {
    assert AddDays(Next(LastOfMonth(d)), 0) == Next(LastOfMonth(d));
    assert AddDays(Previous(FirstOfMonth(d)), 0) == Previous(FirstOfMonth(d));
  }

  lemma WeekFacts(a: Date)
    ensures var p := Resolve(Week, a);
            && Weekday(p.start) == 0 && Ord(p.end) == Ord(p.start) + 6
            && Ord(p.start) == Ord(a) - Weekday(a)
            && Ord(p.prevStart) == Ord(p.start) - 7 && Ord(p.prevEnd) == Ord(p.end) - 7
  {
    hide Ord, AddDays;
    var start := AddDays(a, -Weekday(a));
    AddDaysByOrd(a, -Weekday(a));
    AddDaysByOrd(start, 6);
    AddDaysByOrd(start, -7);
    AddDaysByOrd(AddDays(start, 6), -7);
    Monday(Ord(a));
  }

  lemma Monday(n: int)
    ensures (n - (n + 6) % 7 + 6) % 7 == 0
  {
  }

  /** A period contains its anchor, and the previous one ends the day before it starts. */
  lemma PeriodContainsAnchor(g: Granularity, a: Date)
    ensures var p := Resolve(g, a);
            Contains(p, a) && Ord(p.prevEnd) + 1 == Ord(p.start) && AddDays(p.prevEnd, 1) == p.start
  {
    hide Ord, AddDays;
    var p := Resolve(g, a);
    if g == Week {
      WeekFacts(a);
    } else {
      OrdIsMonotone(p.start, a);
      OrdIsMonotone(a, p.end);
      AddDaysByOrd(p.start, -1);
      StartOfNextMonth(p.start);
    }
    AddDaysByOrd(p.prevEnd, 1);
    OrdIsMonotone(AddDays(p.prevEnd, 1), p.start);
  }

  /** What a period is: the day itself; the Monday to the Sunday around it; its calendar month; its calendar
    * year.  Years are shown month by month, the others day by day. */
  lemma PeriodIs(g: Granularity, a: Date)
    ensures var p := Resolve(g, a);
            match g
            case Day => p.start == a && p.end == a && p.bucket == PerDay
            case Week =>
              && Ord(p.start) % 7 == 1 && Ord(p.end) == Ord(p.start) + 6 && Ord(p.start) <= Ord(a) <= Ord(p.end)
              && p.bucket == PerDay
            case Month =>
              && p.start == RawDate(a.year, a.month, 1) && p.end.year == a.year && p.end.month == a.month
              && p.end.day == (if a.month == 2 then if a.year % 4 == 0 && (a.year % 100 != 0 || a.year % 400 == 0) then 29 else 28
                               else if a.month in {4, 6, 9, 11} then 30 else 31)
              && p.bucket == PerDay
            case Year => p.start == RawDate(a.year, 1, 1) && p.end == RawDate(a.year, 12, 31) && p.bucket == PerMonth
  {
    hide Ord, AddDays;
    if g == Week { WeekIs(a); }
  }

  lemma WeekIs(a: Date)
    ensures var p := Resolve(Week, a);
            && Ord(p.start) % 7 == 1 && Ord(p.end) == Ord(p.start) + 6 && Ord(p.start) <= Ord(a) <= Ord(p.end)
            && p.bucket == PerDay
  {
    WeekFacts(a);
    hide Ord, AddDays;
    MondayIs(Ord(a));
  }

  lemma MondayIs(n: int)
    ensures var monday := n - (n + 6) % 7; monday % 7 == 1 && monday <= n <= monday + 6
  {
  }

  /** A day number in terms of the years and months before it. */
  lemma OrdIs(d: Date, years: int, months: int)
    requires DaysBeforeYear(d.year) == years && DaysBeforeMonth(d.year, d.month) == months
    ensures Ord(d) == years + months + d.day
  {
  }

  lemma KnownYears()
    ensures DaysBeforeYear(1) == 0 && DaysBeforeYear(1900) == 693595 && DaysBeforeYear(2024) == 738885
    ensures DaysIn(1900, 2) == 28 && DaysIn(2024, 2) == 29 && DaysIn(2024, 1) == 31 && DaysIn(1900, 3) == 31
  {
  }

  /** A known date: 1 March 1900, in no leap year. */
  lemma KnownDay(d: Date)
    requires d == RawDate(1900, 3, 1)
    ensures Ord(d) == 693655
  {
    hide Ord, DaysBeforeYear, DaysBeforeMonth, DaysIn;
    KnownYears();
    FirstMonths(1900);
    OrdIs(d, 693595, 59);
  }

  /** 1 January 2024 was a Monday: the first seven days of that year are its first week. */
  lemma KnownWeek(d: Date, monday: Date)
    requires d.year == 2024 && d.month == 1 && d.day <= 7 && monday == RawDate(2024, 1, 1)
    ensures Ord(monday) == 738886 && Resolve(Week, d).start == monday
  {
    hide Ord, Resolve, DaysBeforeYear, DaysBeforeMonth, DaysIn;
    KnownYears();
    FirstMonths(2024);
    OrdIs(monday, 738885, 0);
    OrdIs(d, 738885, 0);
    WeekOf(d, monday);
  }

  lemma FirstMonths(y: int)
    ensures DaysBeforeMonth(y, 1) == 0 && DaysBeforeMonth(y, 3) == 31 + DaysIn(y, 2)
  {
    assert DaysBeforeMonth(y, 2) == 31;
  }

  lemma WeekOf(a: Date, monday: Date)
    requires Ord(monday) % 7 == 1 && Ord(monday) <= Ord(a) <= Ord(monday) + 6
    ensures Resolve(Week, a).start == monday
  {
    hide Ord, AddDays;
    WeekIs(a);
    hide Resolve;
    OrdIsMonotone(Resolve(Week, a).start, monday);
  }

  /** Periods partition the calendar: a date lies in a period iff it resolves to that very period. */
  lemma PeriodsPartition(g: Granularity, a: Date, x: Date)
    ensures Contains(Resolve(g, a), x) <==> Resolve(g, x) == Resolve(g, a)
  {
    hide Ord, AddDays;
    var p, q := Resolve(g, a), Resolve(g, x);
    PeriodContainsAnchor(g, x);
    OrdIsMonotone(p.start, x);
    OrdIsMonotone(x, p.end);
    if g == Day {
      OrdIsMonotone(a, x);
    } else if g == Week {
      hide Weekday;
      WeekFacts(a);
      WeekFacts(x);
      SameWeek(a, x);
      OrdIsMonotone(p.start, q.start);
      OrdIsMonotone(p.end, q.end);
      OrdIsMonotone(p.prevStart, q.prevStart);
      OrdIsMonotone(p.prevEnd, q.prevEnd);
    }
  }

  lemma SameWeek(a: Date, x: Date)
    ensures var start := Ord(a) - Weekday(a);
            start <= Ord(x) <= start + 6 <==> Ord(x) - Weekday(x) == start
  {
    hide Ord;
  }

  /** Where a step leads: days and weeks on; the first of the same month of another year; the first of the
    * month before, or of the next one for a direction that is not negative. */
  lemma AnchorMoves(g: Granularity, a: Date, direction: int)
    ensures var b := ShiftAnchor(g, a, direction);
            match g
            case Day => Ord(b) == Ord(a) + direction
            case Week => Ord(b) == Ord(a) + 7 * direction
            case Year => b == RawDate(a.year + direction, a.month, 1)
            case Month =>
              b == if direction < 0 then if a.month > 1 then RawDate(a.year, a.month - 1, 1) else RawDate(a.year - 1, 12, 1)
                   else if a.month < 12 then RawDate(a.year, a.month + 1, 1) else RawDate(a.year + 1, 1, 1)
  {
    AddDaysByOrd(a, direction);
    AddDaysByOrd(a, 7 * direction);
    StartOfNextMonth(a);
    hide Ord, AddDays;
  }

  /** Stepping by one period lands on exactly the adjacent one, in both directions, and stepping
    * forward then back returns to the same period. */
  lemma ShiftIsAdjacent(g: Granularity, a: Date)
    ensures var p := Resolve(g, a);
            var next, prev := Resolve(g, ShiftAnchor(g, a, 1)), Resolve(g, ShiftAnchor(g, a, -1));
            && next.start == AddDays(p.end, 1) && next.prevStart == p.start && next.prevEnd == p.end
            && prev.start == p.prevStart && prev.end == p.prevEnd
            && Resolve(g, ShiftAnchor(g, ShiftAnchor(g, a, 1), -1)) == p
            && Resolve(g, ShiftAnchor(g, ShiftAnchor(g, a, -1), 1)) == p
  {
    hide Ord;
    match g
    case Day => DayShifts(a);
    case Week => WeekShifts(a);
    case Year => YearShifts(a);
    case Month => MonthShifts(a);
  }

  lemma AddDaysBack(d: Date, k: int, l: int)
    ensures AddDays(AddDays(d, k), l) == AddDays(d, k + l)
  {
    hide Ord;
    AddDaysByOrd(d, k);
    AddDaysByOrd(AddDays(d, k), l);
    AddDaysByOrd(d, k + l);
    OrdIsMonotone(AddDays(AddDays(d, k), l), AddDays(d, k + l));
  }

  lemma DayShifts(a: Date)
    ensures ShiftAnchor(Day, ShiftAnchor(Day, a, 1), -1) == a == ShiftAnchor(Day, ShiftAnchor(Day, a, -1), 1)
  {
    hide Ord;
    AddDaysBack(a, 1, -1);
    AddDaysBack(a, -1, 1);
  }

  lemma WeekShifts(a: Date)
    ensures var p := Resolve(Week, a);
            var next, prev := Resolve(Week, ShiftAnchor(Week, a, 1)), Resolve(Week, ShiftAnchor(Week, a, -1));
            && next.start == AddDays(p.end, 1) && next.prevStart == p.start && next.prevEnd == p.end
            && prev.start == p.prevStart && prev.end == p.prevEnd
            && ShiftAnchor(Week, ShiftAnchor(Week, a, 1), -1) == a
            && ShiftAnchor(Week, ShiftAnchor(Week, a, -1), 1) == a
  {
    hide *;
    var w := -Weekday(a);
    WeekFromAnchor(a);
    WeekFromAnchor(AddDays(a, 7));
    WeekFromAnchor(AddDays(a, -7));
    WeekdayShifts(a, 7);
    WeekdayShifts(a, -7);
    ShiftsOfWeek(a);
    ShiftsOfWeek(AddDays(a, 7));
    ShiftsOfWeek(AddDays(a, -7));
    AddDaysBack(a, 7, -7);
    AddDaysBack(a, -7, 7);
    AddDaysBack(a, w + 6, 1);
    AddDaysBack(a, 7, w);
    AddDaysBack(a, 7, w - 7);
    AddDaysBack(a, 7, w - 1);
    AddDaysBack(a, -7, w);
    AddDaysBack(a, -7, w + 6);
    NoDays(a);
  }

  lemma NoDays(a: Date)
    ensures AddDays(a, 0) == a
  {
  }

  lemma ShiftsOfWeek(a: Date)
    ensures ShiftAnchor(Week, a, 1) == AddDays(a, 7) && ShiftAnchor(Week, a, -1) == AddDays(a, -7)
  {
  }

  /** A week and the one before it, counted from the anchor. */
  lemma WeekFromAnchor(a: Date)
    ensures var w := -Weekday(a);
            Resolve(Week, a) == Period(AddDays(a, w), AddDays(a, w + 6), AddDays(a, w - 7), AddDays(a, w - 1), PerDay)
  {
    hide Ord, Weekday, AddDays;
    var w := -Weekday(a);
    AddDaysBack(a, w, 6);
    AddDaysBack(a, w, -7);
    AddDaysBack(a, w + 6, -7);
  }

  lemma WeekdayShifts(a: Date, k: int)
    requires k % 7 == 0
    ensures Weekday(AddDays(a, k)) == Weekday(a)
  {
    hide Ord;
    AddDaysByOrd(a, k);
  }

  lemma YearShifts(a: Date)
    ensures AddDays(RawDate(a.year, 12, 31), 1) == RawDate(a.year + 1, 1, 1)
  {
    hide Ord;
    StartOfNextMonth(RawDate(a.year, 12, 31));
  }

  lemma MonthShifts(a: Date)
    ensures var p := Resolve(Month, a);
            var next, prev := Resolve(Month, ShiftAnchor(Month, a, 1)), Resolve(Month, ShiftAnchor(Month, a, -1));
            && next.start == AddDays(p.end, 1) && next.prevStart == p.start && next.prevEnd == p.end
            && prev.start == p.prevStart && prev.end == p.prevEnd
            && Resolve(Month, ShiftAnchor(Month, ShiftAnchor(Month, a, 1), -1)) == p
            && Resolve(Month, ShiftAnchor(Month, ShiftAnchor(Month, a, -1), 1)) == p
  {
    hide Ord, AddDays;
    StartOfNextMonth(a);
    StartOfNextMonth(ShiftAnchor(Month, a, 1));
    StartOfNextMonth(ShiftAnchor(Month, a, -1));
  }

  /** k steps of shift_anchor in one direction. */
  function ShiftMany(g: Granularity, a: Date, k: int): Date
    decreases if k < 0 then -k else k
  {
    if k == 0 then a
    else if k > 0 then ShiftMany(g, ShiftAnchor(g, a, 1), k - 1)
    else ShiftMany(g, ShiftAnchor(g, a, -1), k + 1)
  }

  /** How far x is from the period of a, in days. */
  function Distance(g: Granularity, a: Date, x: Date): (n: nat)
    ensures n == 0 <==> Contains(Resolve(g, a), x)
  {
    PeriodContainsAnchor(g, a);
    var p := Resolve(g, a);
    if Ord(x) < Ord(p.start) then Ord(p.start) - Ord(x) else if Ord(p.end) < Ord(x) then Ord(x) - Ord(p.end) else 0
  }

  lemma ShiftComesCloser(g: Granularity, a: Date, x: Date)
    requires Distance(g, a, x) > 0
    ensures var b := ShiftAnchor(g, a, if Ord(x) > Ord(a) then 1 else -1);
            Distance(g, b, x) < Distance(g, a, x)
            && (Distance(g, b, x) > 0 ==> (Ord(x) > Ord(b) <==> Ord(x) > Ord(a)))
  {
    hide Ord, AddDays, Resolve, ShiftAnchor;
    var p := Resolve(g, a);
    var b := ShiftAnchor(g, a, if Ord(x) > Ord(a) then 1 else -1);
    PeriodContainsAnchor(g, a);
    PeriodContainsAnchor(g, b);
    ShiftIsAdjacent(g, a);
    AddDaysByOrd(p.end, 1);
  }

  /** The navigation reaches every date: stepping towards x, always in the same direction, leads to
    * the period that contains it. */
  lemma {:induction false} EveryDateIsReached(g: Granularity, a: Date, x: Date) returns (k: int)
    ensures Contains(Resolve(g, ShiftMany(g, a, k)), x)
    ensures Ord(x) > Ord(a) ==> k >= 0
    ensures Ord(x) <= Ord(a) ==> k <= 0
    decreases Distance(g, a, x)
  {
    hide Ord, AddDays, Resolve, ShiftAnchor;
    k := 0;
    if Distance(g, a, x) > 0 {
      ShiftComesCloser(g, a, x);
      var step := if Ord(x) > Ord(a) then 1 else -1;
      var b := ShiftAnchor(g, a, step);
      if Distance(g, b, x) == 0 {
        k := step;
        assert ShiftMany(g, a, k) == ShiftMany(g, b, 0);
      } else {
        k := EveryDateIsReached(g, b, x);
        k := k + step;
      }
    }
  }

  // ----- month arithmetic ------------------------------------------------------------------------

  /** (b.replace(day=28) + timedelta(days=4)).replace(day=1) - b, for b on the first of a month, is the
    * length of that month. */
  lemma TwentyEighthPlusFour(b: Date)
    requires b.day == 1
    ensures var next := FirstOfMonth(AddDays(RawDate(b.year, b.month, 28), 4));
            Ord(next) - Ord(b) == DaysIn(b.year, b.month)
  {
    hide DaysBeforeYear;
    var d := RawDate(b.year, b.month, 28);
    var d1 := Next(d);
    var d2 := Next(d1);
    var d3 := Next(d2);
    var d4 := Next(d3);
    assert AddDays(d, 4) == AddDays(d1, 3) == AddDays(d2, 2) == AddDays(d3, 1) == AddDays(d4, 0);
    assert FirstOfMonth(d4) == Next(LastOfMonth(b));
    NeighboursByOrd(LastOfMonth(b));
  }

  function MonthIndex(d: Date): int { d.year * 12 + (d.month - 1) }

  /** The first day of the analyst's window. */
  function WindowStart(last: Date, monthsBack: int): Date {
    var idx := MonthIndex(last) - (monthsBack - 1);
    RawDate(idx / 12, idx % 12 + 1, 1)
  }

  /** The window holds exactly the dates of the monthsBack calendar months that end with the month of
    * the latest data, up to that date. */
  lemma WindowSpansMonthsBack(last: Date, monthsBack: int, x: Date)
    ensures Ord(WindowStart(last, monthsBack)) <= Ord(x) <= Ord(last) <==>
            MonthIndex(last) - monthsBack < MonthIndex(x) && Ord(x) <= Ord(last)
  {
    hide Ord;
    OrdIsMonotone(x, WindowStart(last, monthsBack));
  }
}
