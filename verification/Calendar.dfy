/** Day numbers of civil dates, from which the trainer's start times are made. */
module Calendar {
  datatype Date = Date(year: int, month: int, day: int)

  const U32: int := 0x1_0000_0000

  /** Signed division as the machine does it: toward zero. */
  function TruncatingDivide(a: int, b: int): int
    requires b > 0
  {
    if a >= 0 then a / b else -(-a / b)
  }

  /** The year that starts in March. */
  function MarchYear(year: int, month: int): int {
    if month <= 2 then year - 1 else year
  }

  /** Whole days since 1970-01-01. The year of the era, the day of the year and the day of the era are
      32-bit unsigned values, and so is the month offset: 3 is taken off by adding 2^32 - 3. */
  function DaysFromCivil(year: int, month: int, day: int): int {
    var y := MarchYear(year, month);
    var era := TruncatingDivide(if y >= 0 then y else y - 399, 400);
    var yearOfEra := (y - era * 400) % U32;
    var fromMarch := (month + if month > 2 then U32 - 3 else 9) % U32;
    var dayOfYear := ((153 * fromMarch + 2) % U32 / 5 + day - 1) % U32;
    var dayOfEra := (yearOfEra * 365 + yearOfEra / 4 - yearOfEra / 100 + dayOfYear) % U32;
    era * 146097 + dayOfEra - 719468
  }

  // ---------------------------------------------------------------- the calendar itself

  predicate Leap(year: int) {
    year % 4 == 0 && (year % 100 != 0 || year % 400 == 0)
  }

  function DaysInMonth(year: int, month: int): int {
    if month == 2 then (if Leap(year) then 29 else 28)
    else if month == 4 || month == 6 || month == 9 || month == 11 then 30
    else 31
  }

  function DaysInYear(year: int): int {
    if Leap(year) then 366 else 365
  }

  /** Dates of the proleptic Gregorian calendar, with years before zero. */
  predicate Valid(d: Date) {
    1 <= d.month <= 12 && 1 <= d.day <= DaysInMonth(d.year, d.month)
  }

  function Number(d: Date): int {
    DaysFromCivil(d.year, d.month, d.day)
  }

  function NextDay(d: Date): Date {
    if d.day < DaysInMonth(d.year, d.month) then d.(day := d.day + 1)
    else if d.month < 12 then Date(d.year, d.month + 1, 1)
    else Date(d.year + 1, 1, 1)
  }

  function PreviousDay(d: Date): Date {
    if d.day > 1 then d.(day := d.day - 1)
    else if d.month > 1 then Date(d.year, d.month - 1, DaysInMonth(d.year, d.month - 1))
    else Date(d.year - 1, 12, 31)
  }

  predicate Earlier(a: Date, b: Date) {
    a.year < b.year || (a.year == b.year && (a.month < b.month || (a.month == b.month && a.day < b.day)))
  }

  /** Counting years and months one at a time, either way from 1970. */
  function YearStart(year: int): int
    decreases if year >= 1970 then year - 1970 else 1970 - year
  {
    if year == 1970 then 0
    else if year > 1970 then YearStart(year - 1) + DaysInYear(year - 1)
    else YearStart(year + 1) - DaysInYear(year)
  }

  function MonthStart(year: int, month: int): int
    decreases month
  {
    if month <= 1 then 0 else MonthStart(year, month - 1) + DaysInMonth(year, month - 1)
  }

  function CountedDays(d: Date): int {
    YearStart(d.year) + MonthStart(d.year, d.month) + d.day - 1
  }

  // ---------------------------------------------------------------- the formula

  /** Days before the March year y, from the start of year zero. */
  function MarchDays(y: int): int {
    365 * y + y / 4 - y / 100 + y / 400
  }

  function MonthOffset(month: int): int {
    (153 * (if month > 2 then month - 3 else month + 9) + 2) / 5
  }

  lemma EraIsFloor(y: int)
    ensures TruncatingDivide(if y >= 0 then y else y - 399, 400) == y / 400
  {
    if y < 0 {
      var q, r := y / 400, y % 400;
      assert y == 400 * q + r;
      assert 399 - y == 400 * (-q) + (399 - r);
      assert (399 - y) / 400 == -q;
    }
  }

  lemma EraSplits(e: int, r: int)
    requires 0 <= r < 400
    ensures MarchDays(400 * e + r) == e * 146097 + r * 365 + r / 4 - r / 100
  {
    var y := 400 * e + r;
    assert y == 4 * (100 * e) + r && y / 4 == 100 * e + r / 4;
    assert y == 100 * (4 * e) + r && y / 100 == 4 * e + r / 100;
    assert y / 400 == e;
  }

  lemma EraPosition(y: int)
    ensures 0 <= y - y / 400 * 400 < 400
    ensures MarchDays(y) == y / 400 * 146097 + (y - y / 400 * 400) * 365 + (y - y / 400 * 400) / 4
                            - (y - y / 400 * 400) / 100
  {
    hide MarchDays;
    EraSplits(y / 400, y - y / 400 * 400);
  }

  lemma FromMarch(month: int)
    requires 1 <= month <= 12
    ensures var m := (month + if month > 2 then U32 - 3 else 9) % U32;
            (153 * m + 2) % U32 / 5 == MonthOffset(month)
    ensures 0 <= MonthOffset(month) <= 337
  {
  }

  lemma NoWrap(x: int)
    requires 0 <= x < U32
    ensures x % U32 == x
  {
  }

  /** None of the 32-bit steps wraps on a valid date. */
  lemma Formula(d: Date)
    requires Valid(d)
    ensures Number(d) == MarchDays(MarchYear(d.year, d.month)) + MonthOffset(d.month) + d.day - 1 - 719468
  {
    hide MarchDays, MarchYear, TruncatingDivide, MonthOffset;
    var y := MarchYear(d.year, d.month);
    EraIsFloor(y);
    EraPosition(y);
    FromMarch(d.month);
    var yearOfEra := y - y / 400 * 400;
    NoWrap(yearOfEra);
    NoWrap(MonthOffset(d.month) + d.day - 1);
    NoWrap(yearOfEra * 365 + yearOfEra / 4 - yearOfEra / 100 + (MonthOffset(d.month) + d.day - 1));
  }

  lemma MarchStep(y: int)
    ensures MarchDays(y) == MarchDays(y - 1) + DaysInYear(y)
  {
    FourStep(y);
    HundredStep(y);
    EraStep(y);
    assert 365 * y == 365 * (y - 1) + 365;
  }

  lemma FourStep(y: int)
    ensures y / 4 == (y - 1) / 4 + if y % 4 == 0 then 1 else 0
  {
  }

  lemma HundredStep(y: int)
    ensures y / 100 == (y - 1) / 100 + if y % 100 == 0 then 1 else 0
  {
  }

  lemma EraStep(y: int)
    ensures y / 400 == (y - 1) / 400 + if y % 400 == 0 then 1 else 0
    ensures y % 400 == 0 ==> y % 100 == 0
    ensures y % 100 == 0 ==> y % 4 == 0
  {
  }

  lemma {:induction false} YearStartFormula(year: int)
    ensures YearStart(year) == MarchDays(year - 1) + 306 - 719468
    decreases if year >= 1970 then year - 1970 else 1970 - year
  {
    hide DaysInYear;
    if year > 1970 {
      hide MarchDays;
      YearStartFormula(year - 1);
      MarchStep(year - 1);
    } else if year < 1970 {
      hide MarchDays;
      YearStartFormula(year + 1);
      MarchStep(year);
    }
  }

  lemma MonthStarts(year: int, month: int)
    requires 1 <= month <= 12
    ensures MonthStart(year, month) ==
            if month == 1 then 0 else if month == 2 then 31
            else MonthOffset(month) + 59 + if Leap(year) then 1 else 0
  {
    hide Leap;
    if month > 1 {
      MonthStarts(year, month - 1);
    }
  }

  /** The closed form equals counting month by month and year by year, for all years. */
  lemma FormulaCounts(d: Date)
    requires Valid(d)
    ensures Number(d) == CountedDays(d)
  {
    hide Leap, MarchDays, YearStart, MonthStart, Number;
    Formula(d);
    YearStartFormula(d.year);
    MonthStarts(d.year, d.month);
    MarchStep(d.year);
  }

  // ---------------------------------------------------------------- consequences

  lemma EpochIsDayZero()
    ensures Number(Date(1970, 1, 1)) == 0
  {
    FormulaCounts(Date(1970, 1, 1));
  }

  lemma {:induction false} MonthEnds(year: int, month: int)
    requires 1 <= month <= 12
    ensures MonthStart(year, 13) == DaysInYear(year)
    ensures MonthStart(year, month) + DaysInMonth(year, month) <= DaysInYear(year)
    decreases 12 - month
  {
    hide Leap;
    MonthStarts(year, 12);
    MonthStarts(year, month);
  }

  lemma YearSteps(year: int)
    ensures YearStart(year + 1) == YearStart(year) + DaysInYear(year)
  {
  }

  lemma NextDayIsOneMore(d: Date)
    requires Valid(d)
    ensures Valid(NextDay(d))
    ensures Number(NextDay(d)) == Number(d) + 1
  {
    hide Leap, YearStart, Number, DaysInYear;
    FormulaCounts(d);
    FormulaCounts(NextDay(d));
    if d.month == 12 {
      MonthEnds(d.year, 12);
      YearSteps(d.year);
    }
  }

  /** Between the firsts of a month and of the next lie 31 days, or 30, or in February 28, but 29 in every
      fourth year other than the centuries that are no multiples of 400. */
  lemma MonthLengths(year: int, month: int)
    requires 1 <= month <= 12
    ensures var next := if month == 12 then Date(year + 1, 1, 1) else Date(year, month + 1, 1);
            Number(next) - Number(Date(year, month, 1)) ==
              if month == 2 then if year % 4 == 0 && (year % 100 != 0 || year % 400 == 0) then 29 else 28
              else if month in {4, 6, 9, 11} then 30 else 31
  {
    var next := if month == 12 then Date(year + 1, 1, 1) else Date(year, month + 1, 1);
    FormulaCounts(Date(year, month, 1));
    FormulaCounts(next);
    MonthEnds(year, 12);
    YearSteps(year);
    hide Number, YearStart, DaysInYear;
  }

  lemma PreviousDayPrecedes(d: Date)
    requires Valid(d)
    ensures Valid(PreviousDay(d)) && NextDay(PreviousDay(d)) == d
  {
  }

  lemma {:induction false} LaterYearStartsLater(a: int, b: int)
    requires a < b
    ensures YearStart(a) + DaysInYear(a) <= YearStart(b)
    decreases b - a
  {
    hide Leap;
    YearSteps(b - 1);
    if a < b - 1 {
      LaterYearStartsLater(a, b - 1);
    }
  }

  lemma {:induction false} LaterMonthStartsLater(year: int, a: int, b: int)
    requires 1 <= a < b
    ensures MonthStart(year, a) + DaysInMonth(year, a) <= MonthStart(year, b)
    decreases b
  {
    if a < b - 1 {
      LaterMonthStartsLater(year, a, b - 1);
    }
  }

  lemma EarlierIsLess(a: Date, b: Date)
    requires Valid(a) && Valid(b) && Earlier(a, b)
    ensures Number(a) < Number(b)
  {
    hide Leap, YearStart, Number, MonthStart;
    FormulaCounts(a);
    FormulaCounts(b);
    if a.year < b.year {
      LaterYearStartsLater(a.year, b.year);
      MonthEnds(a.year, a.month);
      StartsPositive(b.year, b.month);
    } else if a.month < b.month {
      LaterMonthStartsLater(a.year, a.month, b.month);
    }
  }

  lemma {:induction false} StartsPositive(year: int, month: int)
    ensures MonthStart(year, month) >= 0
    decreases month
  {
    if month > 1 {
      StartsPositive(year, month - 1);
    }
  }

  /** Day numbers order dates as the calendar does, so no two dates share one. */
  lemma OrderIsCalendarOrder(a: Date, b: Date)
    requires Valid(a) && Valid(b)
    ensures Number(a) < Number(b) <==> Earlier(a, b)
    ensures Number(a) == Number(b) <==> a == b
  {
    hide Number, DaysInMonth;
    if Earlier(a, b) {
      EarlierIsLess(a, b);
    } else if Earlier(b, a) {
      EarlierIsLess(b, a);
    }
  }

  /** And every day number belongs to a date. */
  lemma {:induction false} EveryNumberIsADate(n: int) returns (d: Date)
    ensures Valid(d) && Number(d) == n
    decreases if n >= 0 then n else -n
  {
    hide Number, NextDay, PreviousDay, Valid;
    if n == 0 {
      d := Date(1970, 1, 1);
      EpochIsDayZero();
      FirstIsValid();
    } else if n > 0 {
      var e := EveryNumberIsADate(n - 1);
      NextDayIsOneMore(e);
      d := NextDay(e);
    } else {
      var e := EveryNumberIsADate(n + 1);
      PreviousDayPrecedes(e);
      d := PreviousDay(e);
      NextDayIsOneMore(d);
    }
  }

  lemma FirstIsValid()
    ensures Valid(Date(1970, 1, 1))
  {
  }

  // ---------------------------------------------------------------- times of day

  datatype Time = Time(date: Date, hour: int, minute: int, second: real)

  /** Epoch seconds of a start time whose six fields were all read. */
  function Seconds(t: Time): real {
    Number(t.date) as real * 86400.0 + t.hour as real * 3600.0 + t.minute as real * 60.0 + t.second
  }

  predicate ValidTime(t: Time) {
    Valid(t.date) && 0 <= t.hour < 24 && 0 <= t.minute < 60 && 0.0 <= t.second < 60.0
  }

  predicate EarlierTime(a: Time, b: Time) {
    || Earlier(a.date, b.date)
    || (a.date == b.date
        && (a.hour < b.hour || (a.hour == b.hour
                                && (a.minute < b.minute || (a.minute == b.minute && a.second < b.second)))))
  }

  lemma EarlierTimeIsLess(a: Time, b: Time)
    requires ValidTime(a) && ValidTime(b) && EarlierTime(a, b)
    ensures Seconds(a) < Seconds(b)
  {
    hide Number, Valid, Earlier;
    var x, y := a.hour * 60 + a.minute, b.hour * 60 + b.minute;
    assert x as real * 60.0 == a.hour as real * 3600.0 + a.minute as real * 60.0;
    assert y as real * 60.0 == b.hour as real * 3600.0 + b.minute as real * 60.0;
    if Earlier(a.date, b.date) {
      EarlierIsLess(a.date, b.date);
      assert Number(a.date) as real + 1.0 <= Number(b.date) as real;
      assert x as real <= 1439.0 && y as real >= 0.0;
    } else {
      assert x < y ==> x as real + 1.0 <= y as real;
    }
  }

  /** Sorting flows by epoch seconds sorts them by date and time of day. */
  lemma SecondsOrderTimes(a: Time, b: Time)
    requires ValidTime(a) && ValidTime(b)
    ensures Seconds(a) < Seconds(b) <==> EarlierTime(a, b)
    ensures Seconds(a) == Seconds(b) <==> a == b
  {
    hide Seconds, Valid;
    if EarlierTime(a, b) {
      EarlierTimeIsLess(a, b);
    } else if EarlierTime(b, a) {
      EarlierTimeIsLess(b, a);
    }
  }

  /** The clock a minute later, into the next hour or day when it is over. */
  function MinuteLater(t: Time): Time {
    if t.minute < 59 then t.(minute := t.minute + 1)
    else if t.hour < 23 then t.(minute := 0, hour := t.hour + 1)
    else t.(minute := 0, hour := 0, date := NextDay(t.date))
  }

  /** Epoch seconds count seconds: from 0 when 1970 began, 60 for every minute of the clock, and those of
      the minute itself. */
  lemma SecondsAreCounted(t: Time, second: real)
    requires ValidTime(t)
    ensures Seconds(Time(Date(1970, 1, 1), 0, 0, 0.0)) == 0.0
    ensures Seconds(MinuteLater(t)) == Seconds(t) + 60.0
    ensures Seconds(t.(second := second)) - Seconds(t) == second - t.second
  {
    EpochIsDayZero();
    NextDayIsOneMore(t.date);
    hide Number, NextDay, Valid;
    assert Number(NextDay(t.date)) as real == Number(t.date) as real + 1.0;
  }
}
