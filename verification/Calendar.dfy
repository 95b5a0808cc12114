/** The Gregorian day arithmetic of support-runtime/src/retry.rs, against a plain count of days. */
module Calendar {
  import opened Arithmetic

  predicate IsLeap(year: int) {
    (year % 4 == 0 && year % 100 != 0) || year % 400 == 0
  }

  function DaysInMonth(year: int, month: int): (days: int)
    ensures 28 <= days <= 31
  {
    if month == 2 then (if IsLeap(year) then 29 else 28)
    else if month == 4 || month == 6 || month == 9 || month == 11 then 30
    else 31
  }

  predicate IsDate(year: int, month: int, day: int) {
    1 <= month <= 12 && 1 <= day <= DaysInMonth(year, month)
  }

  /** Days since 1970-01-01, by eras of 400 years that begin in March. */
  function DaysFromCivil(year: int, month: int, day: int): int {
    var y := if month <= 2 then year - 1 else year;
    var era := y / 400;
    var yearOfEra := y - era * 400;
    var dayOfYear := (153 * ((month + 9) % 12) + 2) / 5 + day - 1;
    var dayOfEra := yearOfEra * 365 + yearOfEra / 4 - yearOfEra / 100 + dayOfYear;
    era * 146_097 + dayOfEra - 719_468
  }

  /** The year of a day counted from 1970-01-01. */
  function YearOfDay(days: int): int {
    var shifted := days + 719_468;
    var era := shifted / 146_097;
    var dayOfEra := shifted - era * 146_097;
    var yearOfEra := (dayOfEra - dayOfEra / 1460 + dayOfEra / 36_524 - dayOfEra / 146_096) / 365;
    var dayOfYear := dayOfEra - (365 * yearOfEra + yearOfEra / 4 - yearOfEra / 100);
    var shiftedMonth := (5 * dayOfYear + 2) / 153;
    var year := yearOfEra + era * 400;
    if shiftedMonth >= 10 then year + 1 else year
  }

  // ----- The plain count -----

  function YearLength(year: int): int {
    if IsLeap(year) then 366 else 365
  }

  /** Days from 1970-01-01 to the first of `year`, one year at a time. */
  function DaysToYear(year: int): int
    decreases if year < 1970 then 1970 - year else year - 1970
  {
    if year == 1970 then 0
    else if year > 1970 then DaysToYear(year - 1) + YearLength(year - 1)
    else DaysToYear(year + 1) - YearLength(year)
  }

  /** Days from the first of `year` to the first of `month`, one month at a time. */
  function DaysToMonth(year: int, month: int): int
    decreases month
  {
    if month <= 1 then 0 else DaysToMonth(year, month - 1) + DaysInMonth(year, month - 1)
  }

  function CountedDays(year: int, month: int, day: int): int {
    DaysToYear(year) + DaysToMonth(year, month) + day - 1
  }

  // ----- The closed form is the plain count -----

  /** Days to the first of March of `year`, up to a constant. */
  function MarchDays(year: int): int {
    365 * year + year / 4 - year / 100 + year / 400
  }

  lemma EraForm(y: int)
    ensures var era := y / 400;
            var yearOfEra := y - era * 400;
            0 <= yearOfEra < 400 && era * 146_097 + yearOfEra * 365 + yearOfEra / 4 - yearOfEra / 100 == MarchDays(y)
  {
    var era := y / 400;
    var yearOfEra := y - era * 400;
    assert y == 400 * era + yearOfEra;
    assert y / 4 == 100 * era + yearOfEra / 4;
    assert y / 100 == 4 * era + yearOfEra / 100;
  }

  lemma MarchDaysStep(y: int)
    ensures MarchDays(y + 1) - MarchDays(y) == YearLength(y + 1)
  {
    DivStep(y, 4);
    DivStep(y, 100);
    DivStep(y, 400);
    assert (y + 1) % 400 == 0 ==> (y + 1) % 100 == 0;
    assert (y + 1) % 100 == 0 ==> (y + 1) % 4 == 0;
  }

  lemma DivStep(y: int, d: int)
    requires d > 1
    ensures (y + 1) / d == y / d + if (y + 1) % d == 0 then 1 else 0
  {
    var q, r := y / d, y % d;
    assert y == d * q + r;
    if r + 1 == d {
      assert y + 1 == d * (q + 1);
      QuotientIs(y + 1, d, q + 1, 0);
    } else {
      QuotientIs(y + 1, d, q, r + 1);
    }
  }

  /** The day of the March-based year a date falls on. */
  function ShiftedDay(month: int, day: int): int {
    (153 * ((month + 9) % 12) + 2) / 5 + day - 1
  }

  lemma ClosedForm(year: int, month: int, day: int)
    ensures DaysFromCivil(year, month, day)
         == MarchDays(if month <= 2 then year - 1 else year) + ShiftedDay(month, day) - 719_468
  {
    EraForm(if month <= 2 then year - 1 else year);
  }

  lemma MonthTable(year: int, month: int)
    requires 1 <= month <= 12
    ensures ShiftedDay(month, 1) == [306, 337, 0, 31, 61, 92, 122, 153, 184, 214, 245, 275][month - 1]
    ensures DaysToMonth(year, month)
         == if month <= 2 then 31 * (month - 1) else ShiftedDay(month, 1) + 31 + DaysInMonth(year, 2)
  {
    assert DaysToMonth(year, 2) == 31;
    assert DaysToMonth(year, 3) == 31 + DaysInMonth(year, 2);
    assert DaysToMonth(year, 5) == DaysToMonth(year, 3) + 61;
    assert DaysToMonth(year, 7) == DaysToMonth(year, 5) + 61;
    assert DaysToMonth(year, 9) == DaysToMonth(year, 7) + 62;
    assert DaysToMonth(year, 11) == DaysToMonth(year, 9) + 61;
    assert DaysToMonth(year, 12) == DaysToMonth(year, 11) + 30;
  }

  lemma DaysByMonth(year: int, month: int, day: int)
    requires 1 <= month <= 12
    ensures DaysFromCivil(year, month, day) == DaysFromCivil(year, 1, 1) + DaysToMonth(year, month) + day - 1
  {
    ClosedForm(year, month, day);
    ClosedForm(year, 1, 1);
    MonthTable(year, month);
    MonthTable(year, 1);
    MarchDaysStep(year - 1);
    hide DaysFromCivil;
    hide MarchDays;
    assert ShiftedDay(month, day) == ShiftedDay(month, 1) + day - 1;
  }

  lemma {:induction false} DaysByYear(year: int)
    ensures DaysFromCivil(year, 1, 1) == DaysToYear(year)
    decreases if year < 1970 then 1970 - year else year - 1970
  {
    ClosedForm(year, 1, 1);
    if year > 1970 {
      ClosedForm(year - 1, 1, 1);
      MarchDaysStep(year - 2);
      DaysByYear(year - 1);
    } else if year < 1970 {
      ClosedForm(year + 1, 1, 1);
      MarchDaysStep(year - 1);
      DaysByYear(year + 1);
    }
  }

  /** The closed form counts days, on every date. */
  lemma ClosedFormCountsDays(year: int, month: int, day: int)
    requires 1 <= month <= 12
    ensures DaysFromCivil(year, month, day) == CountedDays(year, month, day)
  {
    DaysByMonth(year, month, day);
    DaysByYear(year);
  }

  // ----- Order -----

  predicate Before(y1: int, m1: int, d1: int, y2: int, m2: int, d2: int) {
    y1 < y2 || (y1 == y2 && (m1 < m2 || (m1 == m2 && d1 < d2)))
  }

  lemma {:induction false} MonthsFit(year: int, m1: int, m2: int)
    requires 1 <= m1 < m2 <= 13
    ensures DaysToMonth(year, m1) + DaysInMonth(year, m1) <= DaysToMonth(year, m2)
    decreases m2
  {
    if m1 + 1 < m2 {
      MonthsFit(year, m1, m2 - 1);
    }
  }

  lemma YearFits(year: int)
    ensures DaysToMonth(year, 13) == YearLength(year)
  {
    assert DaysToMonth(year, 3) == 31 + DaysInMonth(year, 2);
    assert DaysToMonth(year, 5) == DaysToMonth(year, 3) + 61;
    assert DaysToMonth(year, 7) == DaysToMonth(year, 5) + 61;
    assert DaysToMonth(year, 9) == DaysToMonth(year, 7) + 62;
    assert DaysToMonth(year, 11) == DaysToMonth(year, 9) + 61;
    assert DaysToMonth(year, 13) == DaysToMonth(year, 11) + 61;
  }

  lemma {:induction false} YearsFit(y1: int, y2: int)
    requires y1 < y2
    ensures DaysToYear(y1) + YearLength(y1) <= DaysToYear(y2)
    decreases y2 - y1
  {
    assert DaysToYear(y1 + 1) == DaysToYear(y1) + YearLength(y1);
    if y1 + 1 < y2 {
      YearsFit(y1 + 1, y2);
    }
  }

  /** Later dates have greater day numbers. */
  lemma DaysIncrease(y1: int, m1: int, d1: int, y2: int, m2: int, d2: int)
    requires IsDate(y1, m1, d1) && IsDate(y2, m2, d2) && Before(y1, m1, d1, y2, m2, d2)
    ensures DaysFromCivil(y1, m1, d1) < DaysFromCivil(y2, m2, d2)
  {
    ClosedFormCountsDays(y1, m1, d1);
    ClosedFormCountsDays(y2, m2, d2);
    hide DaysFromCivil;
    if y1 < y2 {
      YearsFit(y1, y2);
      YearFits(y1);
      MonthsFit(y1, m1, 13);
      if m2 > 1 {
        MonthsFit(y2, 1, m2);
      }
    } else if m1 < m2 {
      MonthsFit(y1, m1, m2);
    }
  }

  datatype Date = Date(year: int, month: int, day: int)

  function NextDate(date: Date): Date {
    if date.day < DaysInMonth(date.year, date.month) then date.(day := date.day + 1)
    else if date.month < 12 then Date(date.year, date.month + 1, 1)
    else Date(date.year + 1, 1, 1)
  }

  lemma NextMonthCounts(year: int, month: int)
    requires month >= 1
    ensures CountedDays(year, month + 1, 1) == CountedDays(year, month, DaysInMonth(year, month)) + 1
  {
    hide DaysInMonth;
  }

  lemma NextYearCounts(year: int)
    ensures CountedDays(year + 1, 1, 1) == CountedDays(year, 13, 1)
  {
    YearFits(year);
    hide YearLength;
    assert DaysToMonth(year + 1, 1) == 0;
    assert DaysToYear(year + 1) == DaysToYear(year) + YearLength(year);
    hide DaysToMonth, DaysToYear;
  }

  /** By the plain count, the day after has the next number. */
  lemma CountedNext(date: Date)
    requires IsDate(date.year, date.month, date.day)
    ensures var next := NextDate(date);
            CountedDays(next.year, next.month, next.day) == CountedDays(date.year, date.month, date.day) + 1
  {
    NextMonthCounts(date.year, date.month);
    NextYearCounts(date.year);
    hide DaysInMonth, DaysToMonth, DaysToYear;
  }

  /** The day after has the next number, and 1970-01-01 is day 0. */
  lemma NextDateIsOneMore(date: Date)
    requires IsDate(date.year, date.month, date.day)
    ensures var next := NextDate(date);
            DaysFromCivil(next.year, next.month, next.day) == DaysFromCivil(date.year, date.month, date.day) + 1
    ensures DaysFromCivil(1970, 1, 1) == 0
  {
    hide DaysFromCivil, DaysInMonth;
    var next := NextDate(date);
    CountedNext(date);
    ClosedFormCountsDays(date.year, date.month, date.day);
    ClosedFormCountsDays(next.year, next.month, next.day);
    ClosedFormCountsDays(1970, 1, 1);
    assert CountedDays(1970, 1, 1) == 0;
    hide CountedDays;
  }

  // ----- The year of a day -----

  /** The estimate of the year within an era is exact: `doy` days into year `100 * c + 4 * q + r`. */
  lemma YearOfEraIsExact(c: int, q: int, r: int, doy: int)
    requires 0 <= c < 4 && 0 <= q < 25 && 0 <= r < 4 && 0 <= doy <= 365
    requires doy == 365 ==> r == 3 && (q == 24 ==> c == 3)
    ensures var doe := 36_524 * c + 1461 * q + 365 * r + doy;
            0 <= doe < 146_097 && (doe - doe / 1460 + doe / 36_524 - doe / 146_096) / 365 == 100 * c + 4 * q + r
  {
    var doe := 36_524 * c + 1461 * q + 365 * r + doy;
    var rest := 24 * c + q + 365 * r + doy;
    assert doe == 1460 * (25 * c + q) + rest;
    var e := if rest >= 1460 then 1 else 0;
    QuotientIs(doe, 1460, 25 * c + q + e, rest - 1460 * e);
    if doe == 146_096 {
      assert doe / 36_524 == 4 && doe / 146_096 == 1;
    } else {
      QuotientIs(doe, 36_524, c, doe - 36_524 * c);
    }
    QuotientIs(365 * (100 * c + 4 * q + r) + doy - e, 365, 100 * c + 4 * q + r, doy - e);
  }

  lemma SplitYear(yearOfEra: int) returns (c: int, q: int, r: int)
    requires 0 <= yearOfEra < 400
    ensures 0 <= c < 4 && 0 <= q < 25 && 0 <= r < 4 && yearOfEra == 100 * c + 4 * q + r
    ensures yearOfEra / 4 == 25 * c + q && yearOfEra / 100 == c
  {
    c := yearOfEra / 100;
    q, r := yearOfEra % 100 / 4, yearOfEra % 4;
  }

  lemma ShiftedDayBounds(year: int, month: int, day: int)
    requires IsDate(year, month, day)
    ensures 0 <= ShiftedDay(month, day) <= 365
    ensures ShiftedDay(month, day) == 365 ==> month == 2 && IsLeap(year)
    ensures month <= 2 <==> (5 * ShiftedDay(month, day) + 2) / 153 >= 10
  {
  }

  /** The year of a day, from the quotients it is computed by. */
  lemma YearAssembled(days: int, era: int, doe: int, yearOfEra: int, doy: int)
    requires (days + 719_468) / 146_097 == era && days + 719_468 == era * 146_097 + doe
    requires (doe - doe / 1460 + doe / 36_524 - doe / 146_096) / 365 == yearOfEra
    requires doe == 365 * yearOfEra + yearOfEra / 4 - yearOfEra / 100 + doy
    ensures YearOfDay(days) == yearOfEra + era * 400 + if (5 * doy + 2) / 153 >= 10 then 1 else 0
  {
  }

  /** A day number in eras, years and days gives back its year. */
  lemma YearOfEraDay(era: int, c: int, q: int, r: int, doy: int)
    requires 0 <= c < 4 && 0 <= q < 25 && 0 <= r < 4 && 0 <= doy <= 365
    requires doy == 365 ==> r == 3 && (q == 24 ==> c == 3)
    ensures YearOfDay(era * 146_097 + 36_524 * c + 1461 * q + 365 * r + doy - 719_468)
         == 400 * era + 100 * c + 4 * q + r + if (5 * doy + 2) / 153 >= 10 then 1 else 0
  {
    hide YearOfDay;
    var doe := 36_524 * c + 1461 * q + 365 * r + doy;
    var yearOfEra := 100 * c + 4 * q + r;
    YearOfEraIsExact(c, q, r, doy);
    QuotientIs(era * 146_097 + doe, 146_097, era, doe);
    QuotientIs(yearOfEra, 4, 25 * c + q, r);
    QuotientIs(yearOfEra, 100, c, 4 * q + r);
    YearAssembled(era * 146_097 + doe - 719_468, era, doe, yearOfEra, doy);
  }

  lemma LastDayIsLeap(year: int, month: int, day: int, c: int, q: int, r: int, era: int)
    requires IsDate(year, month, day) && ShiftedDay(month, day) == 365
    requires 0 <= c < 4 && 0 <= q < 25 && 0 <= r < 4 && year == 400 * era + (100 * c + 4 * q + r + 1)
    ensures r == 3 && (q == 24 ==> c == 3)
  {
    ShiftedDayBounds(year, month, day);
    LeapYearOfEra(year, era, 100 * c + 4 * q + r + 1);
  }

  /** The year of a date's day number is its year. */
  lemma YearOfDayInverts(year: int, month: int, day: int)
    requires IsDate(year, month, day)
    ensures YearOfDay(DaysFromCivil(year, month, day)) == year
  {
    hide YearOfDay;
    var doy := ShiftedDay(month, day);
    var y := if month <= 2 then year - 1 else year;
    var era := y / 400;
    var yearOfEra := y - era * 400;
    assert DaysFromCivil(year, month, day)
        == era * 146_097 + (yearOfEra * 365 + yearOfEra / 4 - yearOfEra / 100 + doy) - 719_468;
    hide DaysFromCivil;
    ShiftedDayBounds(year, month, day);
    hide ShiftedDay;
    var c, q, r := SplitYear(yearOfEra);
    if doy == 365 {
      LastDayIsLeap(year, month, day, c, q, r, era);
    }
    hide IsDate;
    YearOfEraDay(era, c, q, r, doy);
  }

  lemma LeapYearOfEra(year: int, era: int, inEra: int)
    requires year == 400 * era + inEra && IsLeap(year)
    ensures inEra % 4 == 0 && (inEra % 100 == 0 ==> inEra % 400 == 0)
  {
    hide IsLeap;
    SameRemainder(inEra, 4, 100 * era);
    SameRemainder(inEra, 100, 4 * era);
    SameRemainder(inEra, 400, era);
    LeapByRemainders(year, inEra);
  }

  lemma LeapByRemainders(year: int, inEra: int)
    requires year % 4 == inEra % 4 && year % 100 == inEra % 100 && year % 400 == inEra % 400 && IsLeap(year)
    ensures inEra % 4 == 0 && (inEra % 100 == 0 ==> inEra % 400 == 0)
  {
  }

  lemma SameRemainder(n: int, d: int, q: int)
    requires d > 0
    ensures (d * q + n) % d == n % d
  {
    assert n == d * (n / d) + n % d;
    assert d * q + n == d * (q + n / d) + n % d;
    QuotientIs(d * q + n, d, q + n / d, n % d);
  }
}
