/** The proleptic Gregorian calendar of Python's `datetime` module: ordinals,
    weekdays and arithmetic on time stamps in microseconds. */
module Calendar {

  const MICROS_PER_HOUR: nat := 3_600_000_000
  const MICROS_PER_DAY: nat := 86_400_000_000

  predicate IsLeap(year: int) {
    year % 4 == 0 && (year % 100 != 0 || year % 400 == 0)
  }

  function LeapDays(year: int): nat {
    if IsLeap(year) then 1 else 0
  }

  function DaysInMonth(year: int, month: int): nat {
    if month == 2 then 28 + LeapDays(year)
    else if month == 4 || month == 6 || month == 9 || month == 11 then 30 else 31
  }

  datatype RawDate = RawDate(year: int, month: int, day: int)

  type Date = d: RawDate | d.year >= 1 && 1 <= d.month <= 12 && 1 <= d.day <= DaysInMonth(d.year, d.month)
    witness RawDate(1, 1, 1)

  function DaysBeforeYear(year: int): int {
    var y := year - 1;
    y * 365 + y / 4 - y / 100 + y / 400
  }

  function DaysBeforeMonth(year: int, month: int): nat
    requires 1 <= month <= 12
  {
    [0, 31, 59, 90, 120, 151, 181, 212, 243, 273, 304, 334][month - 1] + if month > 2 then LeapDays(year) else 0
  }

  /** `date.toordinal`: 1 January of year 1 is day 1. */
  function Ordinal(d: Date): (n: int)
    ensures n >= 1
  {
    YearsGrow(1, d.year);
    DaysBeforeYear(d.year) + DaysBeforeMonth(d.year, d.month) + d.day
  }

  lemma YearLength(year: int)
    ensures DaysBeforeYear(year + 1) == DaysBeforeYear(year) + 365 + LeapDays(year)
  {
    QuotientStep(year, 4);
    QuotientStep(year, 100);
    QuotientStep(year, 400);
    LeapRule(year);
    hide LeapDays;
  }

  function Divides(k: int, n: int): int
    requires k == 4 || k == 100 || k == 400
  {
    if n % k == 0 then 1 else 0
  }

  lemma QuotientStep(n: int, k: int)
    requires k == 4 || k == 100 || k == 400
    ensures n / k - (n - 1) / k == Divides(k, n)
  {
  }

  lemma LeapRule(year: int)
    ensures LeapDays(year) == Divides(4, year) - Divides(100, year) + Divides(400, year)
  {
    if year % 400 == 0 {
      assert year == 100 * (4 * (year / 400));
    }
    if year % 100 == 0 {
      assert year == 4 * (25 * (year / 100));
    }
  }

  lemma {:induction false} YearsGrow(a: int, b: int)
    requires a <= b
    ensures DaysBeforeYear(a) + 365 * (b - a) <= DaysBeforeYear(b)
    decreases b - a
  {
    if a < b {
      YearLength(b - 1);
      YearsGrow(a, b - 1);
    }
  }

  lemma MonthLength(year: int, month: int)
    requires 1 <= month <= 12
    ensures month < 12 ==> DaysBeforeMonth(year, month + 1) == DaysBeforeMonth(year, month) + DaysInMonth(year, month)
    ensures month == 12 ==> DaysBeforeMonth(year, month) + DaysInMonth(year, month) == 365 + LeapDays(year)
  {
  }

  // ---- months as a single count ------------------------------------------------

  function MonthIndex(d: Date): int {
    d.year * 12 + d.month - 1
  }

  function FirstOfMonth(index: int): Date
    requires index >= 12
  {
    RawDate(index / 12, index % 12 + 1, 1)
  }

  function MonthStart(index: int): int
    requires index >= 12
  {
    Ordinal(FirstOfMonth(index))
  }

  lemma NextMonthStart(index: int)
    requires index >= 12
    ensures MonthStart(index + 1) == MonthStart(index) + DaysInMonth(index / 12, index % 12 + 1)
  {
    var year, month := index / 12, index % 12 + 1;
    MonthLength(year, month);
    if month == 12 {
      YearLength(year);
      assert (index + 1) / 12 == year + 1 && (index + 1) % 12 == 0;
    } else {
      assert (index + 1) / 12 == year && (index + 1) % 12 == month;
    }
  }

  lemma MonthsAreLong(year: int, month: int)
    ensures 28 <= DaysInMonth(year, month) <= 31
  {
  }

  lemma {:induction false} MonthStartsGrow(a: int, b: int)
    requires 12 <= a <= b
    ensures MonthStart(a) + 28 * (b - a) <= MonthStart(b)
    decreases b - a
  {
    hide MonthStart, DaysInMonth;
    if a < b {
      NextMonthStart(b - 1);
      MonthsAreLong((b - 1) / 12, (b - 1) % 12 + 1);
      MonthStartsGrow(a, b - 1);
    }
  }

  /** A date lies in the month that its index names. */
  lemma DateInMonth(d: Date)
    ensures MonthIndex(d) >= 12 && FirstOfMonth(MonthIndex(d)) == RawDate(d.year, d.month, 1)
    ensures MonthStart(MonthIndex(d)) <= Ordinal(d) < MonthStart(MonthIndex(d) + 1)
    ensures d.day == Ordinal(d) - MonthStart(MonthIndex(d)) + 1
  {
    var index := MonthIndex(d);
    assert index / 12 == d.year && index % 12 == d.month - 1;
    NextMonthStart(index);
    assert MonthStart(index) == DaysBeforeYear(d.year) + DaysBeforeMonth(d.year, d.month) + 1;
    hide DaysBeforeYear, DaysBeforeMonth, DaysInMonth, MonthStart;
  }

  lemma MonthIsUnique(n: int, a: int, b: int)
    requires a >= 12 && b >= 12
    requires MonthStart(a) <= n < MonthStart(a + 1) && MonthStart(b) <= n < MonthStart(b + 1)
    ensures a == b
  {
    hide MonthStart;
    if a < b {
      MonthStartsGrow(a + 1, b);
    } else if b < a {
      MonthStartsGrow(b + 1, a);
    }
  }

  lemma OrdinalIsInjective(d: Date, e: Date)
    requires Ordinal(d) == Ordinal(e)
    ensures d == e
  {
    DateInMonth(d);
    DateInMonth(e);
    MonthIsUnique(Ordinal(d), MonthIndex(d), MonthIndex(e));
  }

  // ---- from ordinals back to dates ------------------------------------------------

  function DayInMonth(n: int, index: int): (d: Date)
    requires index >= 12 && MonthStart(index) <= n < MonthStart(index + 1)
    ensures Ordinal(d) == n
  {
    NextMonthStart(index);
    var first := FirstOfMonth(index);
    RawDate(first.year, first.month, n - MonthStart(index) + 1)
  }

  function DateFrom(n: int, index: int): (d: Date)
    requires index >= 12 && n >= MonthStart(index)
    ensures Ordinal(d) == n
    decreases n - MonthStart(index)
  {
    NextMonthStart(index);
    if n < MonthStart(index + 1) then DayInMonth(n, index)
    else DateFrom(n, index + 1)
  }

  /** `date.fromordinal`, by walking through the months from January of year 1. */
  function FromOrdinal(n: int): (d: Date)
    requires n >= 1
    ensures Ordinal(d) == n
  {
    assert MonthStart(12) == 1;
    DateFrom(n, 12)
  }

  /** Monday is 0. */
  function Weekday(d: Date): int {
    (Ordinal(d) + 6) % 7
  }

  // ---- time stamps -----------------------------------------------------------------

  datatype RawDateTime = RawDateTime(date: Date, micros: int)

  type DateTime = t: RawDateTime | 0 <= t.micros < MICROS_PER_DAY
    witness RawDateTime(RawDate(1, 1, 1), 0)

  /** Microseconds on the line of all time stamps; comparison is comparison of these. */
  function Instant(t: DateTime): (n: int)
    ensures n >= MICROS_PER_DAY
  {
    Ordinal(t.date) * MICROS_PER_DAY + t.micros
  }

  function FromInstant(n: int): (t: DateTime)
    requires n >= MICROS_PER_DAY
    ensures Instant(t) == n
  {
    RawDateTime(FromOrdinal(n / MICROS_PER_DAY), n % MICROS_PER_DAY)
  }

  lemma InstantParts(t: DateTime)
    ensures Instant(t) / MICROS_PER_DAY == Ordinal(t.date) && Instant(t) % MICROS_PER_DAY == t.micros
  {
  }

  lemma InstantIsInjective(s: DateTime, t: DateTime)
    requires Instant(s) == Instant(t)
    ensures s == t
  {
    InstantParts(s);
    InstantParts(t);
    OrdinalIsInjective(s.date, t.date);
  }

  /** Comparing instants is what comparing year, month, day and time is. */
  predicate FieldsBefore(s: DateTime, t: DateTime) {
    || s.date.year < t.date.year
    || (s.date.year == t.date.year
        && (|| s.date.month < t.date.month
            || (s.date.month == t.date.month
                && (s.date.day < t.date.day || (s.date.day == t.date.day && s.micros < t.micros)))))
  }

  lemma InstantOrderIsFieldOrder(s: DateTime, t: DateTime)
    ensures Instant(s) < Instant(t) <==> FieldsBefore(s, t)
  {
    if FieldsBefore(s, t) {
      FieldOrder(s, t);
    } else if s != t {
      FieldOrder(t, s);
    }
  }

  lemma FieldOrder(s: DateTime, t: DateTime)
    requires MonthIndex(s.date) < MonthIndex(t.date)
      || (MonthIndex(s.date) == MonthIndex(t.date) && (s.date.day < t.date.day || (s.date.day == t.date.day
        && s.micros < t.micros)))
    ensures Instant(s) < Instant(t)
  {
    hide MonthStart, Ordinal, MonthIndex;
    DateInMonth(s.date);
    DateInMonth(t.date);
    if MonthIndex(s.date) < MonthIndex(t.date) {
      MonthStartsGrow(MonthIndex(s.date) + 1, MonthIndex(t.date));
    }
  }

  // ---- years as twelve months ---------------------------------------------------------

  /** The year whose February is among the twelve months from `index` on. */
  function FebruaryYear(index: int): int {
    (index + 10) / 12
  }

  lemma TwelveMonths(index: int)
    requires index >= 12
    ensures MonthStart(index + 12) == MonthStart(index) + 365 + LeapDays(FebruaryYear(index))
  {
    var year, month := index / 12, index % 12 + 1;
    assert (index + 12) / 12 == year + 1 && (index + 12) % 12 == month - 1;
    YearLength(year);
    assert FebruaryYear(index) == if month <= 2 then year else year + 1;
  }

  predicate IsLastOfMonth(d: Date) {
    d.day == DaysInMonth(d.year, d.month)
  }

  function LeapDay(year: int): int
    requires year >= 1 && IsLeap(year)
  {
    Ordinal(RawDate(year, 2, 29))
  }

  /** A 29 February lies after the first date and not after the second. */
  ghost predicate LeapDayWithin(after: Date, upTo: Date) {
    exists y: int :: y >= 1 && IsLeap(y) && Ordinal(after) < LeapDay(y) <= Ordinal(upTo)
  }
}
