/**
 * The proleptic Gregorian calendar of Python's `datetime.date`: validity,
 * ordinals (day 1 is 0001-01-01, a Monday), `weekday`, `isocalendar`, and the
 * `%d-%m-%Y` text the records are keyed by.
 */
module Calendar {
  import opened Options
  import opened Numerals
  import opened Divisions

  datatype Date = Date(year: int, month: int, day: int)

  /** `date.isocalendar()`: ISO week-year, ISO week number, ISO weekday (Monday is 1). */
  datatype IsoDate = IsoDate(year: int, week: int, weekday: int)

  const MinYear: int := 1
  const MaxYear: int := 9999

  predicate IsLeap(y: int) {
    y % 4 == 0 && (y % 100 != 0 || y % 400 == 0)
  }

  function YearLength(y: int): int {
    if IsLeap(y) then 366 else 365
  }

  function DaysInMonth(y: int, m: int): (n: int)
    requires 1 <= m <= 12
    ensures 28 <= n <= 31
  {
    if m == 2 && IsLeap(y) then 29 else [31, 28, 31, 30, 31, 30, 31, 31, 30, 31, 30, 31][m - 1]
  }

  /** The dates `datetime.date` accepts. */
  predicate Valid(d: Date) {
    MinYear <= d.year <= MaxYear && 1 <= d.month <= 12 && 1 <= d.day <= DaysInMonth(d.year, d.month)
  }

  /** Days in the years before `y`; the floor divisions of the library's `_days_before_year`. */
  function DaysBeforeYear(y: int): int {
    var p := y - 1;
    p * 365 + p / 4 - p / 100 + p / 400
  }

  function DaysBeforeMonth(y: int, m: int): int
    requires 1 <= m <= 12
  {
    [0, 31, 59, 90, 120, 151, 181, 212, 243, 273, 304, 334][m - 1] + (if m > 2 && IsLeap(y) then 1 else 0)
  }

  /** `date.toordinal()`. */
  function Ordinal(d: Date): int
    requires Valid(d)
  {
    DaysBeforeYear(d.year) + DaysBeforeMonth(d.year, d.month) + d.day
  }

  /** `weekday()` of the day with ordinal `n`: Monday is 0, Sunday is 6. */
  function Weekday(n: int): int {
    (n + 6) % 7
  }

  /** The month table adds up: each month starts where the previous one ends. */
  lemma DaysBeforeMonthNext(y: int, m: int)
    requires 1 <= m <= 12
    ensures m < 12 ==> DaysBeforeMonth(y, m + 1) == DaysBeforeMonth(y, m) + DaysInMonth(y, m)
    ensures m == 12 ==> DaysBeforeMonth(y, m) + DaysInMonth(y, m) == YearLength(y)
  {
  }

  /** Consecutive year starts are one year length apart. */
  lemma DaysBeforeYearNext(y: int)
    ensures DaysBeforeYear(y + 1) == DaysBeforeYear(y) + YearLength(y)
  {
    Step4(y);
    Step100(y);
    Step400(y);
    Nested(y);
  }

  /** The ordinal of a valid date lies inside its own year. */
  lemma OrdinalInYear(d: Date)
    requires Valid(d)
    ensures DaysBeforeYear(d.year) < Ordinal(d) <= DaysBeforeYear(d.year + 1)
  {
    DaysBeforeYearNext(d.year);
    DaysBeforeMonthNext(d.year, 12);
    if d.month < 12 {
      DaysBeforeMonthNext(d.year, d.month);
      assert DaysBeforeMonth(d.year, d.month) + DaysInMonth(d.year, d.month) <= DaysBeforeMonth(d.year, 12) by {
        MonthsBefore(d.year, d.month);
      }
    }
  }

  /** A month ends no later than December begins. */
  lemma MonthsBefore(y: int, m: int)
    requires 1 <= m < 12
    ensures DaysBeforeMonth(y, m) + DaysInMonth(y, m) <= DaysBeforeMonth(y, 12)
  {
  }

  /** Later years start later. */
  lemma {:induction false} DaysBeforeYearMono(y: int, z: int)
    requires y < z
    ensures DaysBeforeYear(y + 1) <= DaysBeforeYear(z)
    decreases z - y
  {
    if y + 1 < z {
      DaysBeforeYearMono(y, z - 1);
      DaysBeforeYearNext(z - 1);
    }
  }

  /**
   * The library's `_isoweek1monday(y)`: the ordinal of the Monday that starts
   * ISO week 1 of `y`, the week holding the year's first Thursday.
   */
  function Week1Monday(y: int): (n: int)
    ensures Weekday(n) == 0
    ensures DaysBeforeYear(y) < n + 3 <= DaysBeforeYear(y) + 7
  {
    var firstday := DaysBeforeYear(y) + 1;
    var firstweekday := (firstday + 6) % 7;
    var week1monday := firstday - firstweekday;
    MondayOf(firstday);
    if firstweekday > 3 then week1monday + 7 else week1monday
  }

  /** Stepping back by its weekday from any day reaches a Monday, at most six days earlier. */
  lemma MondayOf(n: int)
    ensures 0 <= Weekday(n) <= 6
    ensures Weekday(n - Weekday(n)) == 0 && Weekday(n - Weekday(n) + 7) == 0
  {
    var q := (n + 6) / 7;
    assert n + 6 == 7 * q + Weekday(n);
    assert n - Weekday(n) + 6 == 7 * q;
  }

  /** `date.isocalendar()` as the library computes it from `Week1Monday`. */
  function IsoCalendar(d: Date): IsoDate
    requires Valid(d)
  {
    IsoOfOrdinal(d.year, Ordinal(d))
  }

  /** `isocalendar` of the day numbered `today`, which lies in the year `y`. */
  function IsoOfOrdinal(y: int, today: int): IsoDate {
    IsoDeOrdinal(y, today, Week1Monday(y - 1), Week1Monday(y), Week1Monday(y + 1))
  }

  /**
   * The arithmetic of `isocalendar` on day `today` of year `y`, given the
   * week-1 Mondays `wm0`, `wm`, `wm1` of years `y - 1`, `y`, `y + 1`: count
   * weeks from `wm`; before it, count from `wm0` in the previous year; from
   * week 52 on, a day on or after `wm1` is in week 1 of the next year.
   */
  function IsoDeOrdinal(y: int, today: int, wm0: int, wm: int, wm1: int): IsoDate {
    var week, day := (today - wm) / 7, (today - wm) % 7;
    if week < 0 then
      IsoDate(y - 1, (today - wm0) / 7 + 1, (today - wm0) % 7 + 1)
    else if week >= 52 && today >= wm1 then
      IsoDate(y + 1, 1, day + 1)
    else
      IsoDate(y, week + 1, day + 1)
  }

  /**
   * Day `n` with ISO weekday `weekday` lies in week `week` of the year whose
   * days are `start + 1 .. next`: the Thursday of its Monday-to-Sunday week
   * falls in that year, and `week` counts the year's Thursdays up to it.
   */
  predicate WeekIn(n: int, weekday: int, start: int, next: int, week: int) {
    var thursday := n - (weekday - 1) + 3;
    weekday == Weekday(n) + 1 && start < thursday <= next && week == (thursday - start - 1) / 7 + 1
  }

  /** ISO 8601 week date of day `n`, in the terms of `WeekIn`. */
  predicate IsIsoWeekDate(n: int, r: IsoDate) {
    WeekIn(n, r.weekday, DaysBeforeYear(r.year), DaysBeforeYear(r.year + 1), r.week)
  }

  /** Days counted from a Monday: their weekday is the remainder, their week the quotient. */
  lemma FromMonday(n: int, wm: int)
    requires Weekday(wm) == 0
    ensures Weekday(n) == (n - wm) % 7
    ensures n - (n - wm) % 7 == wm + 7 * ((n - wm) / 7)
  {
    var q := (wm + 6) / 7;
    assert wm == 7 * q - 6;
  }

  /** Two Mondays are a whole number of weeks apart. */
  lemma MondaysApart(a: int, b: int)
    requires Weekday(a) == 0 && Weekday(b) == 0
    ensures b - a == 7 * ((b - a) / 7)
  {
    FromMonday(b, a);
  }

  lemma QuotientOf(q: int, o: int)
    requires 0 <= o < 7
    ensures (7 * q + o) / 7 == q && (7 * q + o) % 7 == o
  {
  }

  /**
   * Counting weeks from the Monday `wm` of week 1 of the year `start + 1 .. next`
   * gives the ISO week date, as long as the day's Thursday is still in that year.
   */
  lemma WeekFromMonday(n: int, wm: int, start: int, next: int)
    requires Weekday(wm) == 0 && start < wm + 3 <= start + 7 && wm <= n
    requires wm + 7 * ((n - wm) / 7) + 3 <= next
    ensures WeekIn(n, (n - wm) % 7 + 1, start, next, (n - wm) / 7 + 1)
  {
    FromMonday(n, wm);
    var q := (n - wm) / 7;
    var thursday := wm + 7 * q + 3;
    assert thursday - start - 1 == 7 * q + (wm + 3 - start - 1);
    QuotientOf(q, wm + 3 - start - 1);
  }

  /**
   * Week 1 of the year after is 52 or 53 weeks later, given where both
   * Mondays sit relative to their year starts and that a year has 365 or 366 days.
   */
  lemma WeeksInYear(wm: int, wm': int, start: int, next: int)
    requires Weekday(wm) == 0 && Weekday(wm') == 0
    requires start < wm + 3 <= start + 7 && next < wm' + 3 <= next + 7
    requires next - start == 365 || next - start == 366
    ensures wm' - wm == 364 || wm' - wm == 371
  {
    MondaysApart(wm, wm');
  }

  /** `IsoCalendar` meets the ISO 8601 definition of week-year, week and weekday. */
  lemma IsoCalendarIsIso(d: Date)
    requires Valid(d)
    ensures IsIsoWeekDate(Ordinal(d), IsoCalendar(d))
  {
    OrdinalInYear(d);
    IsoOfDay(d.year, Ordinal(d));
  }

  /** The same, for any day number inside the year `y`. */
  lemma IsoOfDay(y: int, today: int)
    requires DaysBeforeYear(y) < today <= DaysBeforeYear(y + 1)
    ensures IsIsoWeekDate(today, IsoOfOrdinal(y, today))
  {
    YearLengths(y);
    IsoDeOrdinalIsIso(y, today, Week1Monday(y - 1), Week1Monday(y), Week1Monday(y + 1),
      DaysBeforeYear(y - 1), DaysBeforeYear(y), DaysBeforeYear(y + 1), DaysBeforeYear(y + 2));
    IsoWeekOfYears(today, IsoOfOrdinal(y, today), y);
  }

  /** The three years around `y` have 365 or 366 days each. */
  lemma YearLengths(y: int)
    ensures 365 <= DaysBeforeYear(y) - DaysBeforeYear(y - 1) <= 366
    ensures 365 <= DaysBeforeYear(y + 1) - DaysBeforeYear(y) <= 366
    ensures 365 <= DaysBeforeYear(y + 2) - DaysBeforeYear(y + 1) <= 366
  {
    DaysBeforeYearNext(y - 1);
    DaysBeforeYearNext(y);
    DaysBeforeYearNext(y + 1);
  }

  /** A week date placed in one of the years `y - 1`, `y`, `y + 1` is an ISO week date. */
  lemma IsoWeekOfYears(n: int, r: IsoDate, y: int)
    requires var b0, b, b1, b2 := DaysBeforeYear(y - 1), DaysBeforeYear(y), DaysBeforeYear(y + 1), DaysBeforeYear(y + 2);
      || (r.year == y - 1 && WeekIn(n, r.weekday, b0, b, r.week))
      || (r.year == y && WeekIn(n, r.weekday, b, b1, r.week))
      || (r.year == y + 1 && WeekIn(n, r.weekday, b1, b2, r.week))
    ensures IsIsoWeekDate(n, r)
  {
  }

  lemma IsoDeOrdinalIsIso(y: int, today: int, wm0: int, wm: int, wm1: int, b0: int, b: int, b1: int, b2: int)
    requires Weekday(wm0) == 0 && Weekday(wm) == 0 && Weekday(wm1) == 0
    requires b0 < wm0 + 3 <= b0 + 7 && b < wm + 3 <= b + 7 && b1 < wm1 + 3 <= b1 + 7
    requires 365 <= b - b0 <= 366 && 365 <= b1 - b <= 366 && 365 <= b2 - b1
    requires b < today <= b1
    ensures var r := IsoDeOrdinal(y, today, wm0, wm, wm1);
      || (r.year == y - 1 && WeekIn(today, r.weekday, b0, b, r.week))
      || (r.year == y && WeekIn(today, r.weekday, b, b1, r.week))
      || (r.year == y + 1 && WeekIn(today, r.weekday, b1, b2, r.week))
  {
    WeeksInYear(wm, wm1, b, b1);
    var week := (today - wm) / 7;
    if week < 0 {
      IsoBefore(today, wm0, wm, b0, b);
    } else if week >= 52 && today >= wm1 {
      IsoAfter(today, wm, wm1, b1, b2);
    } else {
      IsoWithin(today, wm, wm1, b, b1);
    }
  }

  /** The first days of a year that still belong to the last week of the previous one. */
  lemma IsoBefore(today: int, wm0: int, wm: int, b0: int, b: int)
    requires Weekday(wm0) == 0 && Weekday(wm) == 0
    requires b0 < wm0 + 3 <= b0 + 7 && b < wm + 3 <= b + 7
    requires 365 <= b - b0 <= 366
    requires b < today < wm
    ensures WeekIn(today, (today - wm0) % 7 + 1, b0, b, (today - wm0) / 7 + 1)
  {
    MondaysApart(wm0, wm);
    FromMonday(today, wm0);
    WeekFromMonday(today, wm0, b0, b);
  }

  /** The last days of a year that already belong to week 1 of the next one. */
  lemma IsoAfter(today: int, wm: int, wm1: int, b1: int, b2: int)
    requires Weekday(wm) == 0 && Weekday(wm1) == 0
    requires b1 < wm1 + 3 <= b1 + 7 && b2 - b1 >= 365
    requires wm1 <= today <= b1
    ensures WeekIn(today, (today - wm) % 7 + 1, b1, b2, 1)
  {
    MondaysApart(wm, wm1);
    FromMonday(today, wm);
    FromMonday(today, wm1);
    QuotientOf(0, today - wm1);
  }

  /** Days whose week starts within their own year's ISO weeks. */
  lemma IsoWithin(today: int, wm: int, wm1: int, b: int, b1: int)
    requires Weekday(wm) == 0 && Weekday(wm1) == 0
    requires b < wm + 3 <= b + 7 && b1 < wm1 + 3 <= b1 + 7
    requires wm1 - wm == 364 || wm1 - wm == 371
    requires wm <= today <= b1
    requires (today - wm) / 7 >= 52 ==> today < wm1
    ensures WeekIn(today, (today - wm) % 7 + 1, b, b1, (today - wm) / 7 + 1)
  {
    MondaysApart(wm, wm1);
    FromMonday(today, wm);
    WeekFromMonday(today, wm, b, b1);
  }

  /** The ISO characterization leaves no choice: at most one week date fits a day. */
  lemma IsoWeekDateUnique(n: int, r: IsoDate, s: IsoDate)
    requires IsIsoWeekDate(n, r) && IsIsoWeekDate(n, s)
    ensures r == s
  {
    if r.year < s.year {
      DaysBeforeYearMono(r.year, s.year);
    } else if s.year < r.year {
      DaysBeforeYearMono(s.year, r.year);
    }
  }

  /** `date.isocalendar()[1]` is a week number from 1 to 53, and the week-year is off by at most one. */
  lemma IsoCalendarRange(d: Date)
    requires Valid(d)
    ensures var r := IsoCalendar(d);
      1 <= r.week <= 53 && 1 <= r.weekday <= 7 && d.year - 1 <= r.year <= d.year + 1
  {
    var r := IsoCalendar(d);
    IsoCalendarIsIso(d);
    DaysBeforeYearNext(r.year);
  }

  /** 2024-12-31 is a Tuesday in week 1 of ISO year 2025. */
  lemma IsoCalendarNewYearsEve()
    ensures IsoCalendar(Date(2024, 12, 31)) == IsoDate(2025, 1, 2)
  {
    assert Ordinal(Date(2024, 12, 31)) == 739251;
    assert Week1Monday(2023) == 738522;
    assert Week1Monday(2024) == 738886;
    assert Week1Monday(2025) == 739250;
  }

  /** 2024-02-01, a Thursday, is in ISO week 5 of 2024. */
  lemma IsoCalendarFebruary()
    ensures IsoCalendar(Date(2024, 2, 1)) == IsoDate(2024, 5, 4)
  {
    assert Ordinal(Date(2024, 2, 1)) == 738917;
    assert Week1Monday(2023) == 738522;
    assert Week1Monday(2024) == 738886;
    assert Week1Monday(2025) == 739250;
  }

  /** 2023-01-01 is a Sunday in week 52 of ISO year 2022. */
  lemma IsoCalendarNewYearsDay()
    ensures IsoCalendar(Date(2023, 1, 1)) == IsoDate(2022, 52, 7)
  {
    assert Ordinal(Date(2023, 1, 1)) == 738521;
    assert Week1Monday(2022) == 738158;
    assert Week1Monday(2023) == 738522;
    assert Week1Monday(2024) == 738886;
  }

  /** `strftime("%d-%m-%Y")`: day and month in two digits, the year in four. */
  function FormatFecha(d: Date): (s: string)
    requires Valid(d)
    ensures |s| == 10 && s[2] == '-' && s[5] == '-'
    ensures AllDigits(s[..2]) && AllDigits(s[3..5]) && AllDigits(s[6..])
  {
    Padded(d.day, 2) + "-" + Padded(d.month, 2) + "-" + Padded(d.year, 4)
  }

  /** Reads a `DD-MM-YYYY` string back into the date it names, or `None`. */
  function ParseFecha(s: string): (r: Option<Date>)
    ensures r.Some? ==> Valid(r.value)
  {
    if |s| == 10 && s[2] == '-' && s[5] == '-'
       && AllDigits(s[..2]) && AllDigits(s[3..5]) && AllDigits(s[6..]) then
      var d := Date(ValueOf(s[6..]), ValueOf(s[3..5]), ValueOf(s[..2]));
      if Valid(d) then Some(d) else None
    else
      None
  }

  /** Formatting a date and reading it back gives the date. */
  lemma ParseFormatFecha(d: Date)
    requires Valid(d)
    ensures ParseFecha(FormatFecha(d)) == Some(d)
  {
    var s := FormatFecha(d);
    assert s[..2] == Padded(d.day, 2);
    assert s[3..5] == Padded(d.month, 2);
    assert s[6..] == Padded(d.year, 4);
  }

  /** Every string `ParseFecha` accepts is the formatting of the date it reads. */
  lemma FormatParseFecha(s: string)
    requires ParseFecha(s).Some?
    ensures FormatFecha(ParseFecha(s).value) == s
  {
    PaddedValueOf(s[..2]);
    PaddedValueOf(s[3..5]);
    PaddedValueOf(s[6..]);
    assert s == s[..2] + "-" + s[3..5] + "-" + s[6..];
  }

  /** Different dates give different `fecha` keys, so grouping by text is grouping by date. */
  lemma FormatFechaInjective(d: Date, e: Date)
    requires Valid(d) && Valid(e) && FormatFecha(d) == FormatFecha(e)
    ensures d == e
  {
    ParseFormatFecha(d);
    ParseFormatFecha(e);
  }
}
