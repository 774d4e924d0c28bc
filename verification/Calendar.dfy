/** Julian day numbers and Gregorian dates. */
module Calendar {
  import opened Numbers

  /** Integer division and remainder as C has them. */
  function TruncDiv(a: int, b: int): int
    requires b > 0
  {
    if a >= 0 then a / b else -(-a / b)
  }

  function TruncMod(a: int, b: int): int
    requires b > 0
  {
    if a >= 0 then a % b else -(-a % b)
  }

  datatype Date = Date(year: int, month: int, day: int)

  function JulianDate(year: int, month: int, day: int): int {
    var a := TruncDiv(14 - month, 12);
    var y := year + 4800 - a;
    var m := month + 12 * a - 3;
    day + TruncDiv(153 * m + 2, 5) + y * 365 + TruncDiv(y, 4) - TruncDiv(y, 100) + TruncDiv(y, 400) - 32045
  }

  // The steps of get_ymd, from the day number a counted from 1 March of year -4800.

  function CenturyOf(a: int): int {
    TruncDiv(4 * a + 3, 146097)
  }

  function DayOfCentury(a: int): int {
    a - TruncDiv(CenturyOf(a) * 146097, 4)
  }

  function YearOfCentury(c: int): int {
    TruncDiv(4 * c + 3, 1461)
  }

  function DayOfYear(c: int): int {
    c - TruncDiv(1461 * YearOfCentury(c), 4)
  }

  /** Counted from March. */
  function MonthOf(e: int): int {
    TruncDiv(5 * e + 2, 153)
  }

  function GetYmd(jday: int): Date {
    var a := jday + 32044;
    var b := CenturyOf(a);
    var c := DayOfCentury(a);
    var d := YearOfCentury(c);
    var e := DayOfYear(c);
    var m := MonthOf(e);
    Date(b * 100 + d - 4800 + TruncDiv(m, 10), m + 3 - 12 * TruncDiv(m, 10), e - TruncDiv(153 * m + 2, 5) + 1)
  }

  /** max_day_in_month_for. */
  function MaxDayInMonthFor(year: int, month: int): int {
    var m := TruncMod(month - 1, 12) + 1;
    var y := year + TruncDiv(m - 1, 12);
    if m == 1 || m == 3 || m == 5 || m == 7 || m == 8 || m == 10 || m == 12 then 31
    else if m == 4 || m == 6 || m == 9 || m == 11 then 30
    else if m == 2 && (0 == TruncMod(y, 400) || (0 != TruncMod(y, 100) && 0 == TruncMod(y, 4))) then 29
    else 28
  }

  // ---- the calendar itself -----------------------------------------------------------------

  predicate IsLeapYear(year: int) {
    year % 4 == 0 && (year % 100 == 0 ==> year % 400 == 0)
  }

  function DaysInMonth(year: int, month: int): int
    requires 1 <= month <= 12
  {
    if month == 2 then (if IsLeapYear(year) then 29 else 28)
    else if month in {4, 6, 9, 11} then 30
    else 31
  }

  predicate IsDate(d: Date) {
    1 <= d.month <= 12 && 1 <= d.day <= DaysInMonth(d.year, d.month)
  }

  /** From 1 March of year -4800 on. */
  predicate IsInEra(year: int, month: int) {
    year > -4800 || (year == -4800 && month >= 3)
  }

  function NextMonth(year: int, month: int): (int, int) {
    if month == 12 then (year + 1, 1) else (year, month + 1)
  }

  function NextDay(d: Date): Date
    requires IsDate(d)
  {
    if d.day < DaysInMonth(d.year, d.month) then d.(day := d.day + 1)
    else var (y, m) := NextMonth(d.year, d.month); Date(y, m, 1)
  }

  function DaysLater(d: Date, n: nat): (r: Date)
    requires IsDate(d)
    ensures IsDate(r)
  {
    if n == 0 then d else NextDay(DaysLater(d, n - 1))
  }

  lemma {:induction false} ModOfNegative(y: int, k: int)
    requires k in {4, 100, 400}
    ensures TruncMod(y, k) == 0 <==> y % k == 0
  {
  }

  lemma {:induction false} LeapTest(year: int)
    ensures IsLeapYear(year) <==>
            0 == TruncMod(year, 400) || (0 != TruncMod(year, 100) && 0 == TruncMod(year, 4))
  {
    ModOfNegative(year, 4);
    ModOfNegative(year, 100);
    ModOfNegative(year, 400);
    LeapByHundreds(year);
  }

  lemma {:induction false} LeapByHundreds(year: int)
    ensures year % 400 == 0 ==> year % 100 == 0 && year % 4 == 0
  {
  }

  /** The function the code uses is the calendar's month length. */
  lemma {:induction false} MaxDayIsDaysInMonth(year: int, month: int)
    requires 1 <= month <= 12
    ensures MaxDayInMonthFor(year, month) == DaysInMonth(year, month)
  {
    assert TruncMod(month - 1, 12) == month - 1 && TruncDiv(month - 1, 12) == 0;
    if month == 2 {
      LeapTest(year);
    }
  }

  // ---- years that start in March ------------------------------------------------------------

  /** Days before March of year y of the era. */
  function DaysBefore(y: int): int {
    365 * y + y / 4 - y / 100 + y / 400
  }

  /** Days before month m, counted from March. */
  function MonthStart(m: int): int {
    (153 * m + 2) / 5
  }

  function MarchYear(year: int, month: int): int {
    if month <= 2 then year + 4799 else year + 4800
  }

  function MarchMonth(month: int): int {
    if month <= 2 then month + 9 else month - 3
  }

  lemma {:induction false} JulianInMarchYears(year: int, month: int, day: int)
    requires 1 <= month <= 12 && IsInEra(year, month)
    ensures MarchYear(year, month) >= 0
    ensures JulianDate(year, month, day) ==
            DaysBefore(MarchYear(year, month)) + MonthStart(MarchMonth(month)) + day - 32045
  {
    assert (14 - month) / 12 == if month <= 2 then 1 else 0;
  }

  lemma {:induction false} YearLength(y: int)
    requires y >= 0
    ensures DaysBefore(y + 1) - DaysBefore(y) == if IsLeapYear(y + 1) then 366 else 365
  {
    StepBy4(y);
    StepBy100(y);
    StepBy400(y);
  }

  lemma {:induction false} StepBy4(y: int)
    ensures (y + 1) / 4 - y / 4 == if (y + 1) % 4 == 0 then 1 else 0
  {
  }

  lemma {:induction false} StepBy100(y: int)
    ensures (y + 1) / 100 - y / 100 == if (y + 1) % 100 == 0 then 1 else 0
    ensures (y + 1) % 100 == 0 ==> (y + 1) % 4 == 0
  {
    if (y + 1) % 100 == 0 {
      assert y + 1 == 4 * (25 * ((y + 1) / 100));
    }
  }

  lemma {:induction false} StepBy400(y: int)
    ensures (y + 1) / 400 - y / 400 == if (y + 1) % 400 == 0 then 1 else 0
    ensures (y + 1) % 400 == 0 ==> (y + 1) % 100 == 0
  {
    if (y + 1) % 400 == 0 {
      assert y + 1 == 100 * (4 * ((y + 1) / 400));
    }
  }

  lemma {:induction false} LeapShift(year: int)
    ensures IsLeapYear(year + 4800) == IsLeapYear(year)
  {
    Shift4(year);
    Shift100(year);
    Shift400(year);
  }

  lemma {:induction false} Shift4(year: int)
    ensures (year + 4800) % 4 == year % 4
  {
    assert (year + 4800) / 4 == year / 4 + 1200;
  }

  lemma {:induction false} Shift100(year: int)
    ensures (year + 4800) % 100 == year % 100
  {
    assert (year + 4800) / 100 == year / 100 + 48;
  }

  lemma {:induction false} Shift400(year: int)
    ensures (year + 4800) % 400 == year % 400
  {
    assert (year + 4800) / 400 == year / 400 + 12;
  }

  lemma {:induction false} MarchStep(year: int, month: int)
    requires 1 <= month <= 12 && IsInEra(year, month)
    ensures var (y, m) := NextMonth(year, month);
      DaysBefore(MarchYear(y, m)) + MonthStart(MarchMonth(m)) ==
      DaysBefore(MarchYear(year, month)) + MonthStart(MarchMonth(month)) + DaysInMonth(year, month)
  {
    if month == 2 {
      YearLength(year + 4799);
      LeapShift(year);
    }
  }

  /** The month after starts when this one is over. */
  lemma {:induction false} MonthStep(year: int, month: int, day: int)
    requires 1 <= month <= 12 && IsInEra(year, month)
    ensures var (y, m) := NextMonth(year, month);
      IsInEra(y, m) && JulianDate(y, m, day) == JulianDate(year, month, DaysInMonth(year, month) + day)
  {
    var (y, m) := NextMonth(year, month);
    JulianInMarchYears(year, month, DaysInMonth(year, month) + day);
    JulianInMarchYears(y, m, day);
    MarchStep(year, month);
  }

  /** The next calendar day has the next day number. */
  lemma {:induction false} NextDayIsNextNumber(d: Date)
    requires IsDate(d) && IsInEra(d.year, d.month)
    ensures var n := NextDay(d);
      IsDate(n) && IsInEra(n.year, n.month) && JulianDate(n.year, n.month, n.day) == JulianDate(d.year, d.month, d.day) + 1
  {
    if d.day == DaysInMonth(d.year, d.month) {
      MonthStep(d.year, d.month, 1);
    }
  }

  // ---- get_ymd inverts julian_date ----------------------------------------------------------

  /** A year of the era, split into century and year of the century. */
  lemma {:induction false} DaysBeforeByCentury(b: int, d: int)
    requires 0 <= b && 0 <= d < 100
    ensures DaysBefore(100 * b + d) == 146097 * b / 4 + 1461 * d / 4
  {
    assert (100 * b + d) / 4 == 25 * b + d / 4;
    assert (100 * b + d) / 100 == b;
    assert (100 * b + d) / 400 == b / 4;
  }

  lemma {:induction false} CenturyIsFound(a: int, b: int)
    requires 0 <= b && 146097 * b / 4 <= a < 146097 * (b + 1) / 4
    ensures CenturyOf(a) == b && DayOfCentury(a) == a - 146097 * b / 4
  {
    assert 146097 * b <= 4 * a + 3 < 146097 * (b + 1);
  }

  lemma {:induction false} YearIsFound(c: int, d: int)
    requires 0 <= d && 1461 * d / 4 <= c < 1461 * (d + 1) / 4
    ensures YearOfCentury(c) == d && DayOfYear(c) == c - 1461 * d / 4
  {
    assert 1461 * d <= 4 * c + 3 < 1461 * (d + 1);
  }

  lemma {:induction false} MonthIsFound(e: int, m: int)
    requires 0 <= m <= 11 && MonthStart(m) <= e < MonthStart(m + 1)
    ensures MonthOf(e) == m
  {
  }

  /** The first day of a March year and the last are in the right century and the right year of it. */
  lemma {:induction false} YearFits(b: int, d: int, e: int)
    requires 0 <= b && 0 <= d < 100 && 0 <= e < DaysBefore(100 * b + d + 1) - DaysBefore(100 * b + d)
    ensures 1461 * d / 4 + e < 1461 * (d + 1) / 4
    ensures 146097 * b / 4 + 1461 * d / 4 + e < 146097 * (b + 1) / 4
  {
    DaysBeforeByCentury(b, d);
    if d < 99 {
      DaysBeforeByCentury(b, d + 1);
      assert 1461 * (d + 1) / 4 <= 1461 * 99 / 4;
    } else {
      DaysBeforeByCentury(b + 1, 0);
    }
  }

  lemma {:induction false} CenturyAndYearAreFound(b: int, d: int, e: int)
    requires 0 <= b && 0 <= d && 0 <= e && 1461 * d / 4 + e < 1461 * (d + 1) / 4
    requires 146097 * b / 4 + 1461 * d / 4 + e < 146097 * (b + 1) / 4
    ensures var a := 146097 * b / 4 + 1461 * d / 4 + e;
      CenturyOf(a) == b && YearOfCentury(DayOfCentury(a)) == d && DayOfYear(DayOfCentury(a)) == e
  {
    var c := 1461 * d / 4 + e;
    CenturyIsFound(146097 * b / 4 + c, b);
    YearIsFound(c, d);
  }

  lemma {:induction false} YearAndDayAreFound(y: int, e: int)
    requires 0 <= y && 0 <= e < DaysBefore(y + 1) - DaysBefore(y)
    ensures var a := DaysBefore(y) + e;
      CenturyOf(a) * 100 + YearOfCentury(DayOfCentury(a)) == y && DayOfYear(DayOfCentury(a)) == e
  {
    var b, d := y / 100, y % 100;
    assert y == 100 * b + d;
    DaysBeforeByCentury(b, d);
    YearFits(b, d, e);
    CenturyAndYearAreFound(b, d, e);
  }

  /** Day `day` of month m of March year y. */
  predicate IsMarchDay(y: int, m: int, day: int) {
    && 0 <= y && 0 <= m <= 11
    && 1 <= day <= if m == 11 then (if IsLeapYear(y + 1) then 29 else 28) else MonthStart(m + 1) - MonthStart(m)
  }

  lemma {:induction false} MonthFits(y: int, m: int, day: int)
    requires IsMarchDay(y, m, day)
    ensures 0 <= MonthStart(m) + day - 1 < DaysBefore(y + 1) - DaysBefore(y)
    ensures MonthStart(m) + day - 1 < MonthStart(m + 1)
  {
    YearLength(y);
  }

  lemma {:induction false} DateInMarchYears(d: Date)
    requires IsDate(d) && IsInEra(d.year, d.month)
    ensures IsMarchDay(MarchYear(d.year, d.month), MarchMonth(d.month), d.day)
  {
    LeapShift(d.year);
  }

  lemma {:induction false} GetYmdInMarchYears(y: int, m: int, day: int, jday: int)
    requires IsMarchDay(y, m, day) && jday == DaysBefore(y) + MonthStart(m) + day - 32045
    ensures GetYmd(jday) ==
            if m >= 10 then Date(y - 4799, m - 9, day) else Date(y - 4800, m + 3, day)
  {
    var e := MonthStart(m) + day - 1;
    MonthFits(y, m, day);
    YearAndDayAreFound(y, e);
    MonthIsFound(e, m);
    assert TruncDiv(m, 10) == if m >= 10 then 1 else 0;
    assert TruncDiv(153 * m + 2, 5) == MonthStart(m);
  }

  /** get_ymd finds every date again from its day number. */
  lemma {:induction false} GetYmdInvertsJulianDate(d: Date)
    requires IsDate(d) && IsInEra(d.year, d.month)
    ensures GetYmd(JulianDate(d.year, d.month, d.day)) == d
  {
    JulianInMarchYears(d.year, d.month, d.day);
    DateInMarchYears(d);
    GetYmdInMarchYears(MarchYear(d.year, d.month), MarchMonth(d.month), d.day, JulianDate(d.year, d.month, d.day));
  }

  lemma {:induction false} DaysLaterNumber(d: Date, n: nat)
    requires IsDate(d) && IsInEra(d.year, d.month)
    ensures var r := DaysLater(d, n);
      IsInEra(r.year, r.month) && JulianDate(r.year, r.month, r.day) == JulianDate(d.year, d.month, d.day) + n
  {
    if n > 0 {
      DaysLaterNumber(d, n - 1);
      NextDayIsNextNumber(DaysLater(d, n - 1));
    }
  }

  const ERA_START := Date(-4800, 3, 1)

  lemma {:induction false} EraStartNumber()
    ensures IsDate(ERA_START) && IsInEra(ERA_START.year, ERA_START.month)
    ensures JulianDate(ERA_START.year, ERA_START.month, ERA_START.day) == -32044
  {
  }

  /** Every day number from the era's first on is the number of the date get_ymd gives. */
  lemma {:induction false} JulianDateInvertsGetYmd(jday: int)
    requires jday >= -32044
    ensures var d := GetYmd(jday);
      && IsDate(d) && IsInEra(d.year, d.month)
      && JulianDate(d.year, d.month, d.day) == jday
      && d == DaysLater(ERA_START, jday + 32044)
  {
    var d := DaysLater(ERA_START, jday + 32044);
    DaysLaterNumber(ERA_START, jday + 32044);
    EraStartNumber();
    GetYmdInvertsJulianDate(d);
  }

  /** Up to the 32-bit bound no intermediate value of get_ymd overflows, and one day later the first product does. */
  lemma {:induction false} GetYmdFits(jday: int)
    requires -32044 <= jday && Fits32(jday)
    ensures Fits32(4 * (jday + 32044) + 3) <==> jday <= 536838867
    ensures jday <= 536838867 ==>
      var a := jday + 32044;
      var c := DayOfCentury(a);
      var d := YearOfCentury(c);
      && Fits32(a) && Fits32(CenturyOf(a) * 146097)
      && Fits32(4 * c + 3) && Fits32(1461 * d) && Fits32(5 * DayOfYear(c) + 2)
      && Fits32(153 * MonthOf(DayOfYear(c)) + 2) && Fits32(CenturyOf(a) * 100 + d)
  {
    if jday <= 536838867 {
      var a := jday + 32044;
      assert 0 <= CenturyOf(a) * 146097 <= 4 * a + 3;
      assert 0 <= DayOfCentury(a) <= 36525;
    }
  }

  /**
   * Nor does any intermediate value of julian_date, on the dates below that bound: its three variables and what they are
   * made of, the products and quotients, then the sum from left to right.
   */
  lemma {:induction false} JulianDateFits(d: Date)
    requires IsDate(d) && IsInEra(d.year, d.month) && JulianDate(d.year, d.month, d.day) <= 536838867
    ensures var a := TruncDiv(14 - d.month, 12);
      var y := d.year + 4800 - a;
      var m := d.month + 12 * a - 3;
      var s1 := d.day + TruncDiv(153 * m + 2, 5);
      var s2 := s1 + y * 365;
      var s3 := s2 + TruncDiv(y, 4);
      var s4 := s3 - TruncDiv(y, 100);
      var s5 := s4 + TruncDiv(y, 400);
      && Fits32(14 - d.month) && Fits32(d.year + 4800) && Fits32(y) && Fits32(12 * a) && Fits32(d.month + 12 * a) && Fits32(m)
      && Fits32(153 * m) && Fits32(153 * m + 2) && Fits32(y * 365)
      && Fits32(s1) && Fits32(s2) && Fits32(s3) && Fits32(s4) && Fits32(s5) && Fits32(s5 - 32045)
      && s5 - 32045 == JulianDate(d.year, d.month, d.day)
  {
    JulianInMarchYears(d.year, d.month, d.day);
    MarchParts(d);
  }

  /** The year and month counted from March are small enough. */
  lemma {:induction false} MarchParts(d: Date)
    requires IsDate(d) && IsInEra(d.year, d.month) && JulianDate(d.year, d.month, d.day) <= 536838867
    ensures var a := TruncDiv(14 - d.month, 12);
      0 <= a <= 1 && 0 <= d.year + 4800 - a <= 1471000 && 0 <= d.month + 12 * a - 3 <= 11
  {
    JulianInMarchYears(d.year, d.month, d.day);
  }
}
