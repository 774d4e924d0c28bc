/** A point in time as a Julian day number and milliseconds since midnight. */
module DateTime {
  import opened Calendar

  const SECONDS_PER_DAY := 86400
  const MILLIS_PER_DAY := 86400000

  function MakeHms(hour: int, minute: int, second: int, millis: int): int {
    1000 * (3600 * hour + 60 * minute + second) + millis
  }

  datatype Hms = Hms(hour: int, minute: int, second: int, millis: int)

  function GetHms(time: int): Hms {
    var ticks := TruncDiv(time, 1000);
    Hms(TruncDiv(ticks, 3600), TruncMod(TruncDiv(ticks, 60), 60), TruncMod(ticks, 60), TruncMod(time, 1000))
  }

  lemma {:induction false} HmsAddUp(time: int)
    requires time >= 0
    ensures var t := GetHms(time);
      && MakeHms(t.hour, t.minute, t.second, t.millis) == time
      && 3600 * t.hour + 60 * t.minute + t.second == time / 1000
      && 0 <= t.hour && 0 <= t.minute < 60 && 0 <= t.second < 60 && 0 <= t.millis < 1000
  {
    var ticks := time / 1000;
    assert ticks / 3600 == ticks / 60 / 60;
  }

  lemma {:induction false} HmsFoundAgain(t: Hms)
    requires 0 <= t.hour && 0 <= t.minute < 60 && 0 <= t.second < 60 && 0 <= t.millis < 1000
    ensures GetHms(MakeHms(t.hour, t.minute, t.second, t.millis)) == t
  {
    var ticks := 3600 * t.hour + 60 * t.minute + t.second;
    assert (1000 * ticks + t.millis) / 1000 == ticks;
    assert ticks / 60 == 60 * t.hour + t.minute;
  }

  /** A parsed duration. */
  datatype Duration = Duration(years: int, months: int, days: int, hours: int, minutes: int, seconds: int)

  predicate IsNonNegative(d: Duration) {
    d.years >= 0 && d.months >= 0 && d.days >= 0 && d.hours >= 0 && d.minutes >= 0 && d.seconds >= 0
  }

  /** The start date moved by whole months, its day clamped to the month arrived in. */
  function MonthsLater(start: Date, months: nat): Date {
    var index := 12 * start.year + (start.month - 1) + months;
    var year, month := index / 12, index % 12 + 1;
    Date(year, month, if start.day > DaysInMonth(year, month) then DaysInMonth(year, month) else start.day)
  }

  lemma {:induction false} MonthsLaterIsDate(start: Date, months: nat)
    requires IsDate(start) && IsInEra(start.year, start.month)
    ensures var d := MonthsLater(start, months); IsDate(d) && IsInEra(d.year, d.month)
  {
  }

  /** The month so many months on, one at a time. */
  function MonthsOn(year: int, month: int, n: nat): (int, int) {
    if n == 0 then (year, month)
    else var (y, m) := MonthsOn(year, month, n - 1); NextMonth(y, m)
  }

  lemma {:induction false} TwelfthsAre(index: int, year: int, rest: int)
    requires index == 12 * year + rest && 0 <= rest < 12
    ensures index / 12 == year && index % 12 == rest
  {
  }

  lemma {:induction false} MonthsOnIs(year: int, month: int, n: nat)
    requires 1 <= month <= 12
    ensures var (y, m) := MonthsOn(year, month, n); 1 <= m <= 12 && 12 * y + (m - 1) == 12 * year + (month - 1) + n
  {
    if n > 0 { MonthsOnIs(year, month, n - 1); }
  }

  /** That many months on, and there the last day that is not past the day started from. */
  lemma {:induction false} MonthsLaterExact(start: Date, months: nat)
    requires IsDate(start)
    ensures var d := MonthsLater(start, months);
      && (d.year, d.month) == MonthsOn(start.year, start.month, months)
      && IsDate(d) && d.day <= start.day
      && forall day :: day <= start.day && IsDate(Date(d.year, d.month, day)) ==> day <= d.day
  {
    var (y, m) := MonthsOn(start.year, start.month, months);
    MonthsOnIs(start.year, start.month, months);
    TwelfthsAre(12 * start.year + (start.month - 1) + months, y, m - 1);
  }

  /** The month arithmetic of the code. */
  lemma {:induction false} MonthCarry(year: int, month: int, years: nat, months: nat)
    requires 1 <= month <= 12
    ensures var index := 12 * year + (month - 1) + (12 * years + months);
      && index / 12 == year + years + TruncDiv(month + months - 1, 12)
      && index % 12 + 1 == TruncMod(month + months - 1, 12) + 1
  {
  }

  lemma {:induction false} ClockCarry(total: int, hour: int, minute: int, second: int, carry: int)
    requires 0 <= second < 60 && 0 <= minute < 60 && 0 <= hour < 24
    requires total == 86400 * carry + 3600 * hour + 60 * minute + second
    ensures total / 86400 == carry && total % 86400 == 3600 * hour + 60 * minute + second
  {
  }

  /** The carry loop: whole months are taken off the day until it fits; the day meant stays the same. */
  method CarryDays(year: int, month: int, day: int) returns (eYear: int, eMonth: int, eDay: int)
    requires 1 <= month <= 12 && IsInEra(year, month) && day >= 1
    ensures IsDate(Date(eYear, eMonth, eDay)) && IsInEra(eYear, eMonth)
    ensures JulianDate(eYear, eMonth, eDay) == JulianDate(year, month, day)
  {
    eYear, eMonth, eDay := year, month, day;
    while true
      invariant 1 <= eMonth <= 12 && IsInEra(eYear, eMonth) && eDay >= 1
      invariant JulianDate(eYear, eMonth, eDay) == JulianDate(year, month, day)
      decreases eDay
    {
      var carryDay := 0;
      if eDay < 1 {
        assert false;
      } else {
        CarryMonth(eYear, eMonth, eDay);
        if eDay > MaxDayInMonthFor(eYear, eMonth) {
          eDay := eDay - MaxDayInMonthFor(eYear, eMonth);
          carryDay := 1;
        } else {
          break;
        }
      }
      var tmpMonth := eMonth + carryDay;
      eMonth := TruncMod(tmpMonth - 1, 12) + 1;
      eYear := eYear + TruncDiv(tmpMonth - 1, 12);
    }
  }

  /** A day that fits makes a date; otherwise the day left over means the same in the next month. */
  lemma {:induction false} CarryMonth(year: int, month: int, day: int)
    requires 1 <= month <= 12 && IsInEra(year, month) && day >= 1
    ensures var max, y, m := MaxDayInMonthFor(year, month), year + TruncDiv(month, 12), TruncMod(month, 12) + 1;
      && 0 < max && (day <= max ==> IsDate(Date(year, month, day)))
      && 1 <= m <= 12 && IsInEra(y, m) && JulianDate(y, m, day - max) == JulianDate(year, month, day)
  {
    MaxDayIsDaysInMonth(year, month);
    MonthStep(year, month, day - MaxDayInMonthFor(year, month));
    NextMonthByCarry(year, month);
  }

  lemma {:induction false} NextMonthByCarry(year: int, month: int)
    requires 1 <= month <= 12
    ensures NextMonth(year, month) == (year + TruncDiv(month, 12), TruncMod(month, 12) + 1)
  {
  }

  class DateTime {
    var date: int
    var time: int

    constructor (date: int, time: int)
      ensures this.date == date && this.time == time
    {
      this.date, this.time := date, time;
    }

    /**
     * operator+=. The instant moves by exactly the seconds given, but a sum of exactly one day is not
     * carried: then, and only then, the time of day is left at 24:00.
     */
    method AddSeconds(seconds: int)
      requires 0 <= time <= MILLIS_PER_DAY
      modifies this
      ensures MILLIS_PER_DAY * date + time == MILLIS_PER_DAY * old(date) + old(time) + 1000 * seconds
      ensures 0 <= time <= MILLIS_PER_DAY
      ensures time == MILLIS_PER_DAY <==> old(time) + 1000 * TruncMod(seconds, SECONDS_PER_DAY) == MILLIS_PER_DAY
    {
      var d := TruncDiv(seconds, SECONDS_PER_DAY);
      var s := TruncMod(seconds, SECONDS_PER_DAY);
      assert seconds == SECONDS_PER_DAY * d + s;
      date := date + d;
      time := time + s * 1000;
      if time > MILLIS_PER_DAY {
        date := date + 1;
        time := TruncMod(time, MILLIS_PER_DAY);
      } else if time < 0 {
        date := date - 1;
        time := time + MILLIS_PER_DAY;
      }
    }

    /** add_duration_date_time, for a parsed duration: months first, then days and clock time. Milliseconds are dropped. */
    method AddDuration(dur: Duration)
      requires IsNonNegative(dur) && date >= -32044 && time >= 0
      modifies this
      ensures var moved := MonthsLater(GetYmd(old(date)), 12 * dur.years + dur.months);
        var clock := old(time) / 1000 + 3600 * dur.hours + 60 * dur.minutes + dur.seconds;
        && date == JulianDate(moved.year, moved.month, moved.day) + dur.days + clock / SECONDS_PER_DAY
        && time == 1000 * (clock % SECONDS_PER_DAY)
    {
      JulianDateInvertsGetYmd(date);
      var s := GetYmd(date);
      var t := GetHms(time);
      HmsAddUp(time);
      var carry, hour, minute, second := AddClock(t, dur);
      date := AddDate(s, dur, carry);
      time := MakeHms(hour, minute, second, 0);
    }
  }

  /** The clock part of add_duration. */
  method AddClock(t: Hms, dur: Duration) returns (carryHr: int, eHour: int, eMin: int, eSec: int)
    requires 0 <= t.hour && 0 <= t.minute && 0 <= t.second && IsNonNegative(dur)
    ensures var clock := 3600 * t.hour + 60 * t.minute + t.second + 3600 * dur.hours + 60 * dur.minutes + dur.seconds;
      carryHr == clock / SECONDS_PER_DAY && 3600 * eHour + 60 * eMin + eSec == clock % SECONDS_PER_DAY
    ensures 0 <= eHour < 24 && 0 <= eMin < 60 && 0 <= eSec < 60 && carryHr >= 0
  {
    var tmpSec := t.second + dur.seconds;
    eSec := TruncMod(tmpSec, 60);
    var carrySec := TruncDiv(tmpSec, 60);
    var tmpMin := t.minute + dur.minutes + carrySec;
    eMin := TruncMod(tmpMin, 60);
    var carryMin := TruncDiv(tmpMin, 60);
    var tmpHour := t.hour + dur.hours + carryMin;
    eHour := TruncMod(tmpHour, 24);
    carryHr := TruncDiv(tmpHour, 24);
    ClockCarry(3600 * t.hour + 60 * t.minute + t.second + 3600 * dur.hours + 60 * dur.minutes + dur.seconds,
               eHour, eMin, eSec, carryHr);
  }

  /** The calendar part of add_duration. */
  method AddDate(s: Date, dur: Duration, carryHr: nat) returns (jday: int)
    requires IsDate(s) && IsInEra(s.year, s.month) && IsNonNegative(dur)
    ensures var moved := MonthsLater(s, 12 * dur.years + dur.months);
      jday == JulianDate(moved.year, moved.month, moved.day) + dur.days + carryHr
  {
    var tmpMonth := s.month + dur.months;
    var eMonth := TruncMod(tmpMonth - 1, 12) + 1;
    var carryMonth := TruncDiv(tmpMonth - 1, 12);
    var eYear := s.year + dur.years + carryMonth;
    MonthCarry(s.year, s.month, dur.years, dur.months);
    MaxDayIsDaysInMonth(eYear, eMonth);
    var tmpDay: int;
    if s.day > MaxDayInMonthFor(eYear, eMonth) {
      tmpDay := MaxDayInMonthFor(eYear, eMonth);
    } else if s.day < 1 {
      assert false;
    } else {
      tmpDay := s.day;
    }
    MonthsLaterIsDate(s, 12 * dur.years + dur.months);
    assert MonthsLater(s, 12 * dur.years + dur.months) == Date(eYear, eMonth, tmpDay);
    var eDay := tmpDay + dur.days + carryHr;
    var y, m, d := CarryDays(eYear, eMonth, eDay);
    jday := JulianDate(y, m, d);
    JulianIsLinear(eYear, eMonth, tmpDay, dur.days + carryHr);
  }

  lemma {:induction false} JulianIsLinear(year: int, month: int, day: int, n: int)
    ensures JulianDate(year, month, day + n) == JulianDate(year, month, day) + n
  {
  }

  /** The day the result names: the moved start date, that many calendar days later. */
  lemma {:induction false} DurationLandsOn(moved: Date, days: nat)
    requires IsDate(moved) && IsInEra(moved.year, moved.month)
    ensures GetYmd(JulianDate(moved.year, moved.month, moved.day) + days) == DaysLater(moved, days)
  {
    DaysLaterNumber(moved, days);
    GetYmdInvertsJulianDate(DaysLater(moved, days));
  }
}
