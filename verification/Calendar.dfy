/**
 Calendar arithmetic of the date metrics: the day number of a civil date, and the
 time of a broken-down date.
 */
module Calendar {
  // ------------------------------------------------------------- the program

  /** Division of the program's language, which truncates towards zero. */
  function Quot(a: int, b: int): int
    requires b > 0
  {
    if a >= 0 then a / b else -((-a) / b)
  }

  /** The year counted from March. */
  function MarchYear(y: int, m: int): int {
    if m <= 2 then y - 1 else y
  }

  /** The day within a year that starts in March. */
  function DayOfYear(m: int, d: int): int {
    Quot(153 * (m + (if m > 2 then -3 else 9)) + 2, 5) + d - 1
  }

  function DaysFromEpoch(y: int, m: int, d: int): int {
    var y1 := MarchYear(y, m);
    var era := Quot(y1, 400);
    var yoe := y1 - era * 400;
    var doe := yoe * 365 + Quot(yoe, 4) - Quot(yoe, 100) + DayOfYear(m, d);
    era * 146097 + doe - 719468
  }

  /** `struct tm`, the year counted from 1900 and the month from 0. */
  datatype Tm = Tm(year: int, mon: int, mday: int, hour: int, min: int, sec: int)

  /** Year and month after the month has been brought into range. */
  function Normalized(t: Tm): (int, int) {
    var year := t.year + 1900;
    if t.mon > 11 then (year + t.mon / 12, t.mon % 12)
    else if t.mon < 0 then
      var yearsDiff := Quot(11 - t.mon, 12);
      (year - yearsDiff, t.mon + 12 * yearsDiff)
    else (year, t.mon)
  }

  function TimeOfDay(days: int, hour: int, min: int, sec: int): int {
    60 * (60 * (24 * days + hour) + min) + sec
  }

  function InternalTimegm(t: Tm): int {
    var (year, month) := Normalized(t);
    TimeOfDay(DaysFromEpoch(year, month + 1, t.mday), t.hour, t.min, t.sec)
  }

  // ----------------------------------------------------------- the reference

  predicate Leap(y: int) {
    y % 4 == 0 && (y % 100 != 0 || y % 400 == 0)
  }

  function YearLength(y: int): int {
    if Leap(y) then 366 else 365
  }

  function MonthLength(y: int, m: int): int {
    if m == 2 then (if Leap(y) then 29 else 28)
    else if m == 4 || m == 6 || m == 9 || m == 11 then 30
    else 31
  }

  /** Days from 1 January 1970 to 1 January of year `y`, year by year. */
  function DaysToYear(y: int): int
    decreases if y < 1970 then 1970 - y else y - 1970
  {
    if y == 1970 then 0
    else if y > 1970 then DaysToYear(y - 1) + YearLength(y - 1)
    else DaysToYear(y + 1) - YearLength(y)
  }

  /** Days from the start of the year to the start of month `m`, month by month. */
  function DaysToMonth(y: int, m: nat): int {
    if m <= 1 then 0 else DaysToMonth(y, m - 1) + MonthLength(y, m - 1)
  }

  /** Days from 1 January 1970, by summing year and month lengths. */
  function DayCount(y: int, m: nat, d: int): int {
    DaysToYear(y) + DaysToMonth(y, m) + d - 1
  }

  /** The date after a date. */
  function NextDate(y: int, m: nat, d: int): (int, nat, int) {
    if d < MonthLength(y, m) then (y, m, d + 1)
    else if m < 12 then (y, m + 1, 1)
    else (y + 1, 1, 1)
  }

  /** Seconds since the Epoch, section 4.16 of the Base Definitions of IEEE Std
      1003.1-2017, from the year since 1900, the day within the year and the time. */
  function PosixSeconds(year: int, yday: int, hour: int, min: int, sec: int): int {
    sec + min * 60 + hour * 3600 + yday * 86400 + (year - 70) * 31536000
    + ((year - 69) / 4) * 86400 - ((year - 1) / 100) * 86400 + ((year + 299) / 400) * 86400
  }

  // ------------------------------------------------------------- day numbers

  /** Days to 1 March of year `y` in closed form. */
  function ToMarch(y: int): int {
    365 * y + y / 4 - y / 100 + y / 400 - 719468
  }

  lemma MarchSteps(y: int)
    ensures ToMarch(y + 1) - ToMarch(y) == YearLength(y + 1)
  {
    assert (y + 1) / 4 - y / 4 == if (y + 1) % 4 == 0 then 1 else 0;
    assert (y + 1) / 100 - y / 100 == if (y + 1) % 100 == 0 then 1 else 0;
    assert (y + 1) / 400 - y / 400 == if (y + 1) % 400 == 0 then 1 else 0;
  }

  lemma {:induction false} SumIsClosed(y: int)
    ensures DaysToYear(y) + 31 + MonthLength(y, 2) == ToMarch(y)
    decreases if y < 1970 then 1970 - y else y - 1970
  {
    if y > 1970 {
      SumIsClosed(y - 1);
      MarchSteps(y - 1);
    } else if y < 1970 {
      SumIsClosed(y + 1);
      MarchSteps(y);
    }
  }

  /** The quotients of the program are those of the closed form, except in years
      before 0 that are not leap years, where truncation gives one day too much. */
  lemma EraIsClosed(y: int)
    ensures var era := Quot(y, 400);
      var yoe := y - era * 400;
      era * 146097 + yoe * 365 + Quot(yoe, 4) - Quot(yoe, 100) - 719468 ==
        ToMarch(y) + if y < 0 && !Leap(y) then 1 else 0
  {
    var era := Quot(y, 400);
    var yoe := y - era * 400;
    assert y / 4 == 100 * era + yoe / 4;
    assert y / 100 == 4 * era + yoe / 100;
    assert y / 400 == era + yoe / 400;
    if y < 0 {
      assert yoe % 4 == y % 4 && yoe % 100 == y % 100 && yoe % 400 == y % 400;
      assert Quot(yoe, 4) == yoe / 4 + if yoe % 4 == 0 then 0 else 1;
      assert Quot(yoe, 100) == yoe / 100 + if yoe % 100 == 0 then 0 else 1;
      assert yoe / 400 == if yoe % 400 == 0 then 0 else -1;
    }
  }

  lemma MonthsFromMarch(y: int, m: nat)
    requires 1 <= m <= 12
    ensures DayOfYear(m, 1) == DaysToMonth(y, m) + if m > 2 then -31 - MonthLength(y, 2) else 306
  {
    var f := MonthLength(y, 2);
    assert DaysToMonth(y, 2) == 31 && DaysToMonth(y, 3) == 31 + f;
    assert DaysToMonth(y, 4) == 62 + f && DaysToMonth(y, 5) == 92 + f && DaysToMonth(y, 6) == 123 + f;
    assert DaysToMonth(y, 7) == 153 + f && DaysToMonth(y, 8) == 184 + f && DaysToMonth(y, 9) == 215 + f;
    assert DaysToMonth(y, 10) == 245 + f && DaysToMonth(y, 11) == 276 + f && DaysToMonth(y, 12) == 306 + f;
  }

  /** For every year and month the day number is the sum of year and month lengths,
      or one more if the year counted from March is negative and not a leap year. */
  lemma DaysAreCounted(y: int, m: nat, d: int)
    requires 1 <= m <= 12
    ensures DaysFromEpoch(y, m, d) ==
      DayCount(y, m, d) + if MarchYear(y, m) < 0 && !Leap(MarchYear(y, m)) then 1 else 0
  {
    EraIsClosed(MarchYear(y, m));
    MonthsFromMarch(y, m);
    SumIsClosed(y);
    SumIsClosed(y - 1);
    assert y != 1970 ==> DaysToYear(y) == DaysToYear(y - 1) + YearLength(y - 1);
  }

  /** So the day number is right exactly from March of the year 0 on, and before that
      in the years, counted from March, that are leap years. */
  lemma DaysAreRightIff(y: int, m: nat, d: int)
    requires 1 <= m <= 12
    ensures DaysFromEpoch(y, m, d) == DayCount(y, m, d) <==> MarchYear(y, m) >= 0 || Leap(MarchYear(y, m))
  {
    DaysAreCounted(y, m, d);
  }

  /** The reference itself: successive dates are one apart, starting at 1970-01-01. */
  lemma DayCountSteps(y: int, m: nat, d: int)
    requires 1 <= m <= 12 && 1 <= d <= MonthLength(y, m)
    ensures DayCount(1970, 1, 1) == 0
    ensures var (y1, m1, d1) := NextDate(y, m, d); DayCount(y1, m1, d1) == DayCount(y, m, d) + 1
  {
    if d == MonthLength(y, m) && m == 12 {
      MonthsFromMarch(y, 12);
      assert y != 1969 ==> DaysToYear(y + 1) == DaysToYear(y) + YearLength(y);
    }
  }

  /** From the year 1 on, the day number of the next date is one more. */
  lemma NextDateIsNextDay(y: int, m: nat, d: int)
    requires y >= 1 && 1 <= m <= 12 && 1 <= d <= MonthLength(y, m)
    ensures var (y1, m1, d1) := NextDate(y, m, d); DaysFromEpoch(y1, m1, d1) == DaysFromEpoch(y, m, d) + 1
    ensures DaysFromEpoch(1970, 1, 1) == 0
  {
    DayCountSteps(y, m, d);
    var (y1, m1, d1) := NextDate(y, m, d);
    DaysAreCounted(y, m, d);
    DaysAreCounted(y1, m1, d1);
    DaysAreCounted(1970, 1, 1);
  }

  // ------------------------------------------------------------------ timegm

  /** Any month is brought into 0..11 without moving the date. */
  lemma MonthIsNormalized(t: Tm)
    ensures var (year, month) := Normalized(t);
      0 <= month <= 11 && 12 * year + month == 12 * (t.year + 1900) + t.mon
  {
  }

  lemma ClosedYears(year: int)
    requires year >= 70
    ensures DaysToYear(year + 1900) == (year - 70) * 365 + (year - 69) / 4 - (year - 1) / 100 + (year + 299) / 400
  {
    var y := year + 1900;
    SumIsClosed(y - 1);
    MarchSteps(y - 1);
    assert (y - 1) / 4 == (year - 69) / 4 + 492;
    assert (y - 1) / 100 == (year - 1) / 100 + 19;
    assert (y - 1) / 400 == (year + 299) / 400 + 4;
    SumIsClosed(y);
  }

  /** The time of a broken-down date from 1970 on is its seconds since the Epoch. */
  lemma TimegmIsPosix(t: Tm)
    requires Normalized(t).0 >= 1970
    ensures var (year, month) := Normalized(t);
      var yday := DaysToMonth(year, month + 1) + t.mday - 1;
      InternalTimegm(t) == PosixSeconds(year - 1900, yday, t.hour, t.min, t.sec)
  {
    var (year, month) := Normalized(t);
    MonthIsNormalized(t);
    DaysAreCounted(year, month + 1, t.mday);
    ClosedYears(year - 1900);
  }

  predicate Int32(x: int) {
    -0x8000_0000 <= x < 0x8000_0000
  }

  /** Every value computed on the way to the day number. */
  predicate DayFits(y: int, m: int, d: int) {
    var y1 := MarchYear(y, m);
    var era := Quot(y1, 400);
    var yoe := y1 - era * 400;
    var days := DaysFromEpoch(y, m, d);
    && Int32(y) && Int32(m) && Int32(era * 400) && Int32(yoe * 365)
    && Int32(yoe * 365 + Quot(yoe, 4)) && Int32(153 * (m + 9) + 2) && Int32(DayOfYear(m, d))
    && Int32(era * 146097) && Int32(days + 719468) && Int32(days)
  }

  /** Every value computed from the day number to the result. */
  predicate TimeFits(days: int, hour: int, min: int, sec: int) {
    && Int32(24 * days) && Int32(24 * days + hour)
    && Int32(60 * (24 * days + hour)) && Int32(60 * (24 * days + hour) + min)
    && Int32(60 * (60 * (24 * days + hour) + min)) && Int32(TimeOfDay(days, hour, min, sec))
  }

  lemma {:induction false} YearsGrow(y: int, z: int)
    requires y <= z
    ensures DaysToYear(y) <= DaysToYear(z)
    decreases z - y
  {
    if y < z {
      YearsGrow(y, z - 1);
      assert z != 1970 ==> DaysToYear(z) == DaysToYear(z - 1) + YearLength(z - 1);
    }
  }

  lemma DayWithinYear(y: int, m: nat, d: int)
    requires 1 <= m <= 12 && 1 <= d <= MonthLength(y, m)
    ensures 0 <= DaysToMonth(y, m) + d - 1 < 366
  {
    MonthsFromMarch(y, m);
  }

  /** Dates of the years 1970 to 2038 and only those have day numbers up to 24854. */
  lemma YearOfDay(y: int, m: nat, d: int)
    requires 1 <= m <= 12 && 1 <= d <= MonthLength(y, m) && y >= 1970
    ensures DayCount(2038, 1, 18) == 24854
    ensures 0 <= DayCount(y, m, d) && (DayCount(y, m, d) <= 24854 ==> y <= 2038)
  {
    ClosedYears(138);
    ClosedYears(139);
    DayWithinYear(y, m, d);
    YearsGrow(1970, y);
    if y > 2038 { YearsGrow(2039, y); }
  }

  lemma SmallDayFits(y: int, m: int, d: int)
    requires 1970 <= y <= 2038 && 1 <= m <= 12 && 1 <= d <= 31 && 0 <= DaysFromEpoch(y, m, d) <= 24854
    ensures DayFits(y, m, d)
  {
    assert Quot(MarchYear(y, m), 400) in {4, 5};
  }

  lemma TimeFitsIff(days: int)
    requires days >= 0
    ensures TimeFits(days, 23, 59, 59) <==> days <= 24854
    ensures days <= 24854 ==>
      forall h, m, s | 0 <= h <= 23 && 0 <= m <= 59 && 0 <= s <= 59 :: TimeFits(days, h, m, s)
  {
  }

  lemma DayPart(y: int, m: nat, d: int)
    requires y >= 1970 && 1 <= m <= 12 && 1 <= d <= MonthLength(y, m)
    ensures DaysFromEpoch(y, m, d) == DayCount(y, m, d) >= 0
    ensures DaysFromEpoch(y, m, d) <= 24854 ==> DayFits(y, m, d)
  {
    DaysAreCounted(y, m, d);
    YearOfDay(y, m, d);
    if DaysFromEpoch(y, m, d) <= 24854 { SmallDayFits(y, m, d); }
  }

  predicate AllTimesFit(y: int, m: int, d: int) {
    DayFits(y, m, d) &&
    forall h, min, s | 0 <= h <= 23 && 0 <= min <= 59 && 0 <= s <= 59 :: TimeFits(DaysFromEpoch(y, m, d), h, min, s)
  }

  /** Among the dates from 1970 on, those with all of their times computed within 32
      bits are the ones up to 18 January 2038. */
  lemma FitsIn32BitsIff(y: int, m: nat, d: int)
    requires y >= 1970 && 1 <= m <= 12 && 1 <= d <= MonthLength(y, m)
    ensures DayCount(2038, 1, 18) == 24854
    ensures AllTimesFit(y, m, d) <==> DayCount(y, m, d) <= 24854
  {
    YearOfDay(y, m, d);
    DayPart(y, m, d);
    TimeFitsIff(DaysFromEpoch(y, m, d));
    assert AllTimesFit(y, m, d) ==> TimeFits(DaysFromEpoch(y, m, d), 23, 59, 59);
  }
}
