/** Calendar dates and UTC date-times (microseconds), with the two ways a renewal date advances:
    `timedelta(weeks=1)` and `relativedelta(months=1)`, which clamps the day to the end of the month. */
module CivilDate {

  datatype Date = Date(year: int, month: int, day: int) {
    predicate Valid() {
      1 <= year && 1 <= month <= 12 && 1 <= day <= DaysInMonth(year, month)
    }
  }

  predicate IsLeap(year: int) {
    year % 4 == 0 && (year % 100 != 0 || year % 400 == 0)
  }

  function DaysInMonth(year: int, month: int): int {
    if month == 2 then (if IsLeap(year) then 29 else 28)
    else if month == 4 || month == 6 || month == 9 || month == 11 then 30
    else 31
  }

  function NextMonth(year: int, month: int): (int, int) {
    if month == 12 then (year + 1, 1) else (year, month + 1)
  }

  function NextDay(d: Date): (r: Date)
    requires d.Valid()
    ensures r.Valid()
  {
    var (y, m) := NextMonth(d.year, d.month);
    if d.day < DaysInMonth(d.year, d.month) then d.(day := d.day + 1) else Date(y, m, 1)
  }

  /** The date `n` days on, walked through the calendar. */
  function PlusDays(d: Date, n: nat): (r: Date)
    requires d.Valid()
    ensures r.Valid()
  {
    if n == 0 then d else NextDay(PlusDays(d, n - 1))
  }

  /** One month on, the day clamped to the length of that month. */
  function PlusMonth(d: Date): (r: Date)
    requires d.Valid()
    ensures r.Valid()
  {
    var (y, m) := NextMonth(d.year, d.month);
    var last := DaysInMonth(y, m);
    Date(y, m, if d.day <= last then d.day else last)
  }

  // ---- day numbers -----------------------------------------------------------------------------

  function DaysBeforeYear(year: int): int {
    365 * (year - 1) + (year - 1) / 4 - (year - 1) / 100 + (year - 1) / 400
  }

  function DaysBeforeMonth(year: int, month: int): int {
    if month <= 1 then 0 else DaysBeforeMonth(year, month - 1) + DaysInMonth(year, month - 1)
  }

  /** Days since 31 December of year 0, as Python's `date.toordinal`. */
  function DayNumber(d: Date): int {
    DaysBeforeYear(d.year) + DaysBeforeMonth(d.year, d.month) + d.day
  }

  lemma DivStep4(n: int)
    ensures (n + 1) / 4 == n / 4 + if (n + 1) % 4 == 0 then 1 else 0
  {
  }

  lemma DivStep100(n: int)
    ensures (n + 1) / 100 == n / 100 + if (n + 1) % 100 == 0 then 1 else 0
  {
  }

  lemma DivStep400(n: int)
    ensures (n + 1) / 400 == n / 400 + if (n + 1) % 400 == 0 then 1 else 0
  {
  }

  lemma CenturiesAreFourths(n: int)
    ensures n % 100 == 0 ==> n % 4 == 0
  {
    assert n == 100 * (n / 100) + n % 100;
  }

  lemma FourCenturiesAreCenturies(n: int)
    ensures n % 400 == 0 ==> n % 100 == 0
  {
    assert n == 400 * (n / 400) + n % 400;
  }

  lemma DaysInYear(year: int)
    requires 1 <= year
    ensures DaysBeforeYear(year + 1) == DaysBeforeYear(year) + if IsLeap(year) then 366 else 365
  {
    DivStep4(year - 1);
    DivStep100(year - 1);
    DivStep400(year - 1);
    CenturiesAreFourths(year);
    FourCenturiesAreCenturies(year);
  }

  lemma MonthsSumToYear(year: int)
    ensures DaysBeforeMonth(year, 13) == if IsLeap(year) then 366 else 365
  {
    assert DaysBeforeMonth(year, 2) == 31;
    assert DaysBeforeMonth(year, 3) == 31 + DaysInMonth(year, 2);
    assert DaysBeforeMonth(year, 5) == DaysBeforeMonth(year, 3) + 61;
    assert DaysBeforeMonth(year, 7) == DaysBeforeMonth(year, 5) + 61;
    assert DaysBeforeMonth(year, 9) == DaysBeforeMonth(year, 7) + 62;
    assert DaysBeforeMonth(year, 11) == DaysBeforeMonth(year, 9) + 61;
  }

  lemma MonthStart(year: int, month: int)
    requires 1 <= year && 1 <= month <= 12
    ensures var (y, m) := NextMonth(year, month);
      DaysBeforeYear(y) + DaysBeforeMonth(y, m) == DaysBeforeYear(year) + DaysBeforeMonth(year, month + 1)
  {
    if month == 12 {
      DaysInYear(year);
      MonthsSumToYear(year);
    }
  }

  /** Day numbers count calendar days: walking `n` days adds `n`. */
  lemma {:induction false} DayNumberOfPlusDays(d: Date, n: nat)
    requires d.Valid()
    ensures DayNumber(PlusDays(d, n)) == DayNumber(d) + n
  {
    if n > 0 {
      DayNumberOfPlusDays(d, n - 1);
      var p := PlusDays(d, n - 1);
      MonthStart(p.year, p.month);
    }
  }

  lemma {:induction false} PlusDaysInMonth(d: Date, n: nat)
    requires d.Valid() && d.day + n <= DaysInMonth(d.year, d.month)
    ensures PlusDays(d, n) == d.(day := d.day + n)
  {
    if n > 0 {
      PlusDaysInMonth(d, n - 1);
    }
  }

  ghost predicate Earlier(a: Date, b: Date) {
    a.year < b.year || (a.year == b.year && (a.month < b.month || (a.month == b.month && a.day < b.day)))
  }

  lemma {:induction false} EarlierMonths(year: int, m: int, n: int)
    requires 1 <= m < n <= 13
    ensures DaysBeforeMonth(year, m) + DaysInMonth(year, m) <= DaysBeforeMonth(year, n)
  {
    if m + 1 < n {
      EarlierMonths(year, m, n - 1);
    }
  }

  lemma {:induction false} EarlierYears(y: int, z: int)
    requires 1 <= y < z
    ensures DaysBeforeYear(y + 1) <= DaysBeforeYear(z)
    decreases z
  {
    if y + 1 < z {
      EarlierYears(y, z - 1);
      DaysInYear(z - 1);
    }
  }

  lemma EarlierNumbersLess(a: Date, b: Date)
    requires a.Valid() && b.Valid() && Earlier(a, b)
    ensures DayNumber(a) < DayNumber(b)
  {
    if a.year < b.year {
      EarlierYears(a.year, b.year);
      DaysInYear(a.year);
      MonthsSumToYear(a.year);
      EarlierMonths(a.year, a.month, 13);
      if b.month > 1 { EarlierMonths(b.year, 1, b.month); }
    } else if a.month < b.month {
      EarlierMonths(a.year, a.month, b.month);
    }
  }

  /** Dates compare as their day numbers do. */
  lemma DayNumberOrders(a: Date, b: Date)
    requires a.Valid() && b.Valid()
    ensures Earlier(a, b) <==> DayNumber(a) < DayNumber(b)
    ensures a == b <==> DayNumber(a) == DayNumber(b)
  {
    if Earlier(a, b) {
      EarlierNumbersLess(a, b);
    } else if a != b {
      EarlierNumbersLess(b, a);
    }
  }

  // ---- one month on ----------------------------------------------------------------------------

  /** How far a month's step goes. */
  function MonthGap(d: Date): (n: nat)
    requires d.Valid()
    ensures 28 <= n <= 31
  {
    DayNumberOfPlusMonth(d);
    DayNumber(PlusMonth(d)) - DayNumber(d)
  }

  lemma DayNumberOfPlusMonth(d: Date)
    requires d.Valid()
    ensures var (y, m) := NextMonth(d.year, d.month);
      var here, there := DaysInMonth(d.year, d.month), DaysInMonth(y, m);
      var gap := DayNumber(PlusMonth(d)) - DayNumber(d);
      gap == (if d.day <= there then here else here + there - d.day) && 28 <= gap <= 31
  {
    MonthStart(d.year, d.month);
  }

  /** From every valid date, one month on is a walk of 28 to 31 days through the calendar. */
  lemma PlusMonthIsAWalk(d: Date)
    requires d.Valid()
    ensures 28 <= MonthGap(d) <= 31 && PlusMonth(d) == PlusDays(d, MonthGap(d))
  {
    DayNumberOfPlusDays(d, MonthGap(d));
    DayNumberOrders(PlusMonth(d), PlusDays(d, MonthGap(d)));
  }

  /** Two dates land on one day exactly when they are in one month, both at or past the end of the next. */
  lemma PlusMonthMonotone(a: Date, b: Date)
    requires a.Valid() && b.Valid() && Earlier(a, b)
    ensures DayNumber(PlusMonth(a)) <= DayNumber(PlusMonth(b))
    ensures PlusMonth(a) == PlusMonth(b) <==>
      && a.year == b.year && a.month == b.month
      && a.day >= DaysInMonth(PlusMonth(a).year, PlusMonth(a).month)
  {
    DayNumberOrders(PlusMonth(a), PlusMonth(b));
    DayNumberOrders(PlusMonth(b), PlusMonth(a));
  }

  // ---- date-times ------------------------------------------------------------------------------

  const DAY: int := 86_400_000_000

  datatype DateTime = DateTime(date: Date, micros: int) {
    predicate Valid() {
      date.Valid() && 0 <= micros < DAY
    }

    /** Microseconds on the time line; date-times compare as their instants. */
    function Instant(): int {
      DayNumber(date) * DAY + micros
    }

    predicate NotAfter(other: DateTime) {
      Instant() <= other.Instant()
    }
  }

  function AddDays(t: DateTime, n: nat): (r: DateTime)
    requires t.Valid()
    ensures r.Valid() && r.Instant() == t.Instant() + n * DAY
  {
    DayNumberOfPlusDays(t.date, n);
    t.(date := PlusDays(t.date, n))
  }

  function AddMonth(t: DateTime): (r: DateTime)
    requires t.Valid()
    ensures r.Valid() && t.Instant() + 28 * DAY <= r.Instant() <= t.Instant() + 31 * DAY
  {
    DayNumberOfPlusMonth(t.date);
    t.(date := PlusMonth(t.date))
  }

  /** A later start can renew earlier: exactly when both starts are clamped to one day
      and the later one has the earlier time of day. */
  lemma AddMonthOvertakenIff(a: DateTime, b: DateTime)
    requires a.Valid() && b.Valid() && a.NotAfter(b)
    ensures AddMonth(b).Instant() < AddMonth(a).Instant() <==>
      && a.date.year == b.date.year && a.date.month == b.date.month
      && a.date.day < b.date.day
      && a.date.day >= DaysInMonth(AddMonth(a).date.year, AddMonth(a).date.month)
      && a.micros > b.micros
  {
    DayNumberOrders(a.date, b.date);
    if a.date != b.date {
      PlusMonthMonotone(a.date, b.date);
      DayNumberOrders(PlusMonth(a.date), PlusMonth(b.date));
    }
  }

  lemma LaterStartEarlierRenewal()
    ensures var a, b := DateTime(Date(2025, 1, 30), 23 * DAY / 24), DateTime(Date(2025, 1, 31), DAY / 24);
      a.Valid() && b.Valid() && a.NotAfter(b) && AddMonth(b).Instant() < AddMonth(a).Instant()
  {
    var a, b := DateTime(Date(2025, 1, 30), 23 * DAY / 24), DateTime(Date(2025, 1, 31), DAY / 24);
    AddMonthOvertakenIff(a, b);
  }
}
