/** Calendar arithmetic (src/values.rs, `days_from_civil`) against the Gregorian leap rule. */
module Calendar {
  const I64_MIN: int := -0x8000_0000_0000_0000
  const I64_MAX: int := 0x7fff_ffff_ffff_ffff

  predicate FitsI64(n: int) {
    I64_MIN <= n <= I64_MAX
  }

  /** Two's complement wrap-around, as arithmetic on `i64` does in a release build. */
  function Wrap(n: int): (r: int)
    ensures FitsI64(r)
    ensures FitsI64(n) ==> r == n
  {
    (n - I64_MIN) % 0x1_0000_0000_0000_0000 + I64_MIN
  }

  /** Division that truncates toward zero. */
  function TruncDiv(a: int, b: int): (q: int)
    requires b > 0
  {
    if a >= 0 then a / b else -((-a) / b)
  }

  function TruncMod(a: int, b: int): (r: int)
    requires b > 0
  {
    a - TruncDiv(a, b) * b
  }

  /** `days_from_civil`, with every addition and multiplication wrapping. */
  function DaysFromCivil(year: int, m: int, d: int): (days: int) {
    var y := if m <= 2 then Wrap(year - 1) else year;
    var era := TruncDiv(if y >= 0 then y else Wrap(y - 399), 400);
    var yoe := Wrap(y - Wrap(era * 400));
    var mp := TruncMod(m + 9, 12);
    var doy := TruncDiv(153 * mp + 2, 5) + d - 1;
    var doe := Wrap(Wrap(Wrap(yoe * 365) + TruncDiv(yoe, 4)) - TruncDiv(yoe, 100) + doy);
    Wrap(Wrap(Wrap(era * 146097) + doe) - 719468)
  }

  // ---------------------------------------------------------------- the calendar itself

  predicate IsLeap(y: int) {
    y % 4 == 0 && (y % 100 != 0 || y % 400 == 0)
  }

  function YearLength(y: int): (n: nat) {
    if IsLeap(y) then 366 else 365
  }

  function MonthLength(y: int, m: int): (n: nat)
    requires 1 <= m <= 12
  {
    if m == 2 then (if IsLeap(y) then 29 else 28)
    else if m == 4 || m == 6 || m == 9 || m == 11 then 30
    else 31
  }

  /** Days from 1 January 1970 to 1 January of year `y`, counted year by year. */
  function YearStart(y: int): (n: int)
    decreases if y >= 1970 then y - 1970 else 1970 - y
  {
    if y == 1970 then 0
    else if y > 1970 then YearStart(y - 1) + YearLength(y - 1)
    else YearStart(y + 1) - YearLength(y)
  }

  function MonthStart(y: int, m: int): (n: nat)
    requires 1 <= m <= 12
  {
    if m == 1 then 0 else MonthStart(y, m - 1) + MonthLength(y, m - 1)
  }

  predicate IsDate(y: int, m: int, d: int) {
    1 <= m <= 12 && 1 <= d <= MonthLength(y, m)
  }

  /** Days since 1 January 1970. */
  function DayNumber(y: int, m: int, d: int): (n: int)
    requires 1 <= m <= 12
  {
    YearStart(y) + MonthStart(y, m) + d - 1
  }

  // ---------------------------------------------------------------- closed forms

  /** Days of the years from 1 March of year 0 to 1 March of year `z`. */
  function MarchStart(z: int): (n: int) {
    365 * z + z / 4 - z / 100 + z / 400
  }

  lemma MarchStep(z: int)
    ensures MarchStart(z + 1) == MarchStart(z) + YearLength(z + 1)
  {
    assert (z + 1) / 4 == z / 4 + (if (z + 1) % 4 == 0 then 1 else 0);
    assert (z + 1) / 100 == z / 100 + (if (z + 1) % 100 == 0 then 1 else 0);
    assert (z + 1) / 400 == z / 400 + (if (z + 1) % 400 == 0 then 1 else 0);
    HundredFour(z + 1);
  }

  lemma HundredFour(y: int)
    ensures y % 400 == 0 ==> y % 100 == 0
    ensures y % 100 == 0 ==> y % 4 == 0
  {
    if y % 400 == 0 {
      var k := y / 400;
      assert y == 100 * (4 * k);
    }
    if y % 100 == 0 {
      var k := y / 100;
      assert y == 4 * (25 * k);
    }
  }

  lemma {:induction false} YearStartClosed(y: int)
    ensures YearStart(y) == MarchStart(y - 1) - 719162
    decreases if y >= 1970 then y - 1970 else 1970 - y
  {
    if y > 1970 {
      YearStartClosed(y - 1);
      MarchStep(y - 2);
    } else if y < 1970 {
      YearStartClosed(y + 1);
      MarchStep(y - 1);
    }
  }

  /** The era and the year of the era are the quotient and remainder rounded down. */
  lemma EraFloors(y: int)
    ensures TruncDiv(if y >= 0 then y else y - 399, 400) == y / 400
    ensures 0 <= y - (y / 400) * 400 < 400
  {
  }

  lemma EraClosed(y: int)
    ensures var yoe := y - (y / 400) * 400;
      (y / 400) * 146097 + yoe * 365 + yoe / 4 - yoe / 100 == MarchStart(y)
  {
    var era := y / 400;
    var yoe := y - era * 400;
    assert y == 4 * (100 * era) + yoe && y == 100 * (4 * era) + yoe;
    assert y / 4 == 100 * era + yoe / 4;
    assert y / 100 == 4 * era + yoe / 100;
  }

  /** Days before each month of a year that begins in March. */
  function MarchMonth(m: int): (n: int) {
    if m == 3 then 0 else if m == 4 then 31 else if m == 5 then 61 else if m == 6 then 92
    else if m == 7 then 122 else if m == 8 then 153 else if m == 9 then 184 else if m == 10 then 214
    else if m == 11 then 245 else if m == 12 then 275 else if m == 1 then 306 else 337
  }

  lemma MonthFormula(m: int)
    requires 1 <= m <= 12
    ensures TruncDiv(153 * TruncMod(m + 9, 12) + 2, 5) == MarchMonth(m)
  {
    if m >= 3 {
      assert TruncMod(m + 9, 12) == m - 3;
    } else {
      assert TruncMod(m + 9, 12) == m + 9;
    }
  }

  /** Months counted from March: where each begins in a year that ends with February. */
  lemma MonthClosed(y: int, m: int)
    requires 1 <= m <= 12
    ensures TruncDiv(153 * TruncMod(m + 9, 12) + 2, 5) ==
      if m >= 3 then MonthStart(y, m) - MonthStart(y, 3) else MonthStart(y, m) + 306
  {
    hide TruncDiv, TruncMod, MonthStart, IsLeap;
    MonthFormula(m);
    MonthTable(y);
  }

  lemma MonthTable(y: int)
    ensures var leap := if IsLeap(y) then 1 else 0;
      && MonthStart(y, 1) == 0 && MonthStart(y, 2) == 31 && MonthStart(y, 3) == 59 + leap
      && MonthStart(y, 4) == 90 + leap && MonthStart(y, 5) == 120 + leap && MonthStart(y, 6) == 151 + leap
      && MonthStart(y, 7) == 181 + leap && MonthStart(y, 8) == 212 + leap && MonthStart(y, 9) == 243 + leap
      && MonthStart(y, 10) == 273 + leap && MonthStart(y, 11) == 304 + leap && MonthStart(y, 12) == 334 + leap
  {
    assert MonthStart(y, 2) == 31;
    assert MonthStart(y, 3) == 31 + MonthLength(y, 2);
    assert MonthStart(y, 4) == MonthStart(y, 3) + 31;
    assert MonthStart(y, 5) == MonthStart(y, 4) + 30;
    assert MonthStart(y, 6) == MonthStart(y, 5) + 31;
    assert MonthStart(y, 7) == MonthStart(y, 6) + 30;
    assert MonthStart(y, 8) == MonthStart(y, 7) + 31;
    assert MonthStart(y, 9) == MonthStart(y, 8) + 31;
    assert MonthStart(y, 10) == MonthStart(y, 9) + 30;
    assert MonthStart(y, 11) == MonthStart(y, 10) + 31;
    assert MonthStart(y, 12) == MonthStart(y, 11) + 30;
  }

  // ---------------------------------------------------------------- correctness

  lemma WrapAdd(a: int, b: int)
    ensures Wrap(Wrap(a) + b) == Wrap(a + b)
  {
    var m := 0x1_0000_0000_0000_0000;
    var k := (a - I64_MIN) / m;
    assert Wrap(a) == a - k * m;
    SameMod(a + b - I64_MIN, k);
  }

  lemma SameMod(x: int, k: int)
    ensures (x - k * 0x1_0000_0000_0000_0000) % 0x1_0000_0000_0000_0000 == x % 0x1_0000_0000_0000_0000
  {
    var m := 0x1_0000_0000_0000_0000;
    var q, r := x / m, x % m;
    assert x - k * m == (q - k) * m + r;
  }

  /** The parts of the computation that cannot wrap, for all but the 400 lowest years. */
  lemma PartsExact(y: int, m: int, d: int)
    requires I64_MIN + 399 <= y <= I64_MAX && 1 <= m <= 12 && 1 <= d <= 31
    ensures var era := TruncDiv(if y >= 0 then y else Wrap(y - 399), 400);
      && era == y / 400
      && Wrap(y - Wrap(era * 400)) == y - era * 400
  {
    EraFloors(y);
    assert (y / 400) * 400 <= y && (y / 400) * 400 >= y - 399;
  }

  /** Years as the algorithm counts them, beginning in March. */
  function MarchYear(year: int, m: int): (y: int) {
    if m <= 2 then year - 1 else year
  }

  /** The day of such a year. */
  function MarchDay(m: int, d: int): (n: int) {
    TruncDiv(153 * TruncMod(m + 9, 12) + 2, 5) + d - 1
  }

  lemma CountInMarchYears(year: int, m: int, d: int)
    requires 1 <= m <= 12
    ensures DayNumber(year, m, d) == MarchStart(MarchYear(year, m)) + MarchDay(m, d) - 719468
  {
    hide TruncDiv, TruncMod, MarchStart, YearStart, MonthStart, IsLeap;
    MonthClosed(year, m);
    YearStartClosed(year);
    MarchStep(year - 1);
    MonthTable(year);
    assert YearLength(year) == 365 + if IsLeap(year) then 1 else 0;
  }

  lemma MarchDayBound(m: int, d: int)
    requires 1 <= m <= 12 && 1 <= d <= 31
    ensures 0 <= MarchDay(m, d) <= 400
  {
  }

  function DayOfEra(yoe: int, doy: int): (n: int) {
    yoe * 365 + yoe / 4 - yoe / 100 + doy
  }

  lemma DayOfEraExact(yoe: int, doy: int)
    requires 0 <= yoe < 800 && 0 <= doy <= 400
    ensures Wrap(Wrap(Wrap(yoe * 365) + TruncDiv(yoe, 4)) - TruncDiv(yoe, 100) + doy) == DayOfEra(yoe, doy)
  {
    hide Wrap;
  }

  lemma CodeInMarchYears(year: int, m: int, d: int)
    requires I64_MIN + 399 <= MarchYear(year, m) && year <= I64_MAX && 1 <= m <= 12 && 1 <= d <= 31
    ensures var y := MarchYear(year, m);
      DaysFromCivil(year, m, d) ==
        Wrap(Wrap(Wrap((y / 400) * 146097) + DayOfEra(y - (y / 400) * 400, MarchDay(m, d))) - 719468)
  {
    hide Wrap, TruncMod, TruncDiv, DayOfEra;
    var y := MarchYear(year, m);
    PartsExact(y, m, d);
    EraFloors(y);
    MarchDayBound(m, d);
    DayOfEraExact(y - (y / 400) * 400, MarchDay(m, d));
  }

  lemma WrapSum(a: int, b: int, c: int)
    ensures Wrap(Wrap(Wrap(a) + b) + c) == Wrap(a + b + c)
  {
    hide Wrap;
    WrapAdd(a, b);
    WrapAdd(a + b, c);
  }

  /** `days_from_civil` is the Gregorian day count, wrapped to 64 bits, but for the lowest years. */
  lemma DaysAreCounted(year: int, m: int, d: int)
    requires I64_MIN + 399 <= MarchYear(year, m) && year <= I64_MAX && 1 <= m <= 12 && 1 <= d <= 31
    ensures DaysFromCivil(year, m, d) == Wrap(DayNumber(year, m, d))
  {
    hide DaysFromCivil, DayNumber, MarchStart, Wrap, MarchDay, MarchYear;
    var y := MarchYear(year, m);
    CodeInMarchYears(year, m, d);
    CountInMarchYears(year, m, d);
    EraClosed(y);
    WrapSum((y / 400) * 146097, DayOfEra(y - (y / 400) * 400, MarchDay(m, d)), -719468);
  }

  const TWO64: int := 0x1_0000_0000_0000_0000

  /** Where rounding down an era would underflow, it wraps to a year 2^64 later. */
  lemma PartsWrapped(y: int)
    requires I64_MIN <= y < I64_MIN + 399
    ensures var w := y + TWO64 - 399;
      var era := TruncDiv(if y >= 0 then y else Wrap(y - 399), 400);
      && era == w / 400
      && Wrap(y - Wrap(era * 400)) == 399 + w % 400
  {
    var w := y + TWO64 - 399;
    WrapUp(y - 399);
    assert w == 400 * (w / 400) + w % 400;
    WrapUp(y - w / 400 * 400);
  }

  lemma WrapUp(n: int)
    requires I64_MIN - TWO64 <= n < I64_MIN
    ensures Wrap(n) == n + TWO64
  {
    SameMod(n - I64_MIN, -1);
  }

  /** An era and a year of it that may be beyond its end. */
  lemma EraBeyond(era: int, yoe: int)
    requires 0 <= yoe < 800
    ensures era * 146097 + yoe * 365 + yoe / 4 - yoe / 100 == MarchStart(400 * era + yoe) - yoe / 400
  {
    var y := 400 * era + yoe;
    assert y / 4 == 100 * era + yoe / 4;
    assert y / 100 == 4 * era + yoe / 100;
    assert y / 400 == era + yoe / 400;
  }

  lemma CodeInLowYears(year: int, m: int, d: int)
    requires I64_MIN < year && MarchYear(year, m) < I64_MIN + 399 && 1 <= m <= 12 && 1 <= d <= 31
    ensures var w := MarchYear(year, m) + TWO64 - 399;
      DaysFromCivil(year, m, d) ==
        Wrap(Wrap(Wrap((w / 400) * 146097) + DayOfEra(399 + w % 400, MarchDay(m, d))) - 719468)
  {
    hide Wrap, TruncMod, TruncDiv, DayOfEra;
    var y := MarchYear(year, m);
    PartsWrapped(y);
    MarchDayBound(m, d);
    DayOfEraExact(399 + (y + TWO64 - 399) % 400, MarchDay(m, d));
  }

  /**
   * What the 400 lowest years are read as: the date in the year 2^64 later, wrapped, and, but
   * for one year in 400, the day before.
   */
  lemma LowestYears(year: int, m: int, d: int)
    requires I64_MIN < year && MarchYear(year, m) < I64_MIN + 399 && 1 <= m <= 12 && 1 <= d <= 31
    ensures DaysFromCivil(year, m, d) ==
      Wrap(DayNumber(year + TWO64, m, d) - (if (MarchYear(year, m) + TWO64) % 400 == 399 then 0 else 1))
  {
    hide DaysFromCivil, DayNumber, MarchStart, Wrap, MarchDay, DayOfEra;
    var w := MarchYear(year, m) + TWO64 - 399;
    var yoe := 399 + w % 400;
    BeyondOnce(w);
    CodeInLowYears(year, m, d);
    CountInMarchYears(year + TWO64, m, d);
    EraBeyond(w / 400, yoe);
    DayOfEraIs(yoe, MarchDay(m, d));
    WrapSum((w / 400) * 146097, DayOfEra(yoe, MarchDay(m, d)), -719468);
  }

  lemma BeyondOnce(w: int)
    ensures var yoe := 399 + w % 400;
      && 400 * (w / 400) + yoe == w + 399
      && yoe / 400 == if (w + 399) % 400 == 399 then 0 else 1
  {
    assert (w + 399) % 400 == 399 <==> w % 400 == 0;
  }

  lemma DayOfEraIs(yoe: int, doy: int)
    ensures DayOfEra(yoe, doy) == yoe * 365 + yoe / 4 - yoe / 100 + doy
  {
  }

  /** No day that fits is in one of them. */
  lemma FitsInRange(year: int, m: int, d: int)
    requires 1 <= m <= 12 && 1 <= d <= 31 && FitsI64(DayNumber(year, m, d))
    ensures I64_MIN + 399 <= MarchYear(year, m) && year <= I64_MAX
  {
    hide DayNumber;
    CountInMarchYears(year, m, d);
    MarchDayBound(m, d);
    MarchSlope(MarchYear(year, m));
  }

  lemma MarchSlope(z: int)
    ensures if z >= 0 then MarchStart(z) >= 365 * z else MarchStart(z) <= 365 * z
  {
  }

  /** For every year of 64 bits it is exact precisely when the day count itself fits. */
  lemma ExactIffFits(year: int, m: int, d: int)
    requires I64_MIN <= year <= I64_MAX && 1 <= m <= 12 && 1 <= d <= 31
    ensures DaysFromCivil(year, m, d) == DayNumber(year, m, d) <==> FitsI64(DayNumber(year, m, d))
  {
    hide DayNumber, MarchYear, Wrap;
    if FitsI64(DayNumber(year, m, d)) {
      FitsInRange(year, m, d);
      DaysAreCounted(year, m, d);
    }
  }

  /** In particular for every year up to ten thousand million million, either way. */
  lemma NoOverflow(year: int, m: int, d: int)
    requires -10_000_000_000_000_000 <= year <= 10_000_000_000_000_000 && 1 <= m <= 12 && 1 <= d <= 31
    ensures DaysFromCivil(year, m, d) == DayNumber(year, m, d)
    ensures FitsI64(DayNumber(year, m, d))
  {
    hide DaysFromCivil, DayNumber;
    CountInMarchYears(year, m, d);
    MarchDayBound(m, d);
    MarchBound(MarchYear(year, m));
    ExactIffFits(year, m, d);
  }

  lemma MarchBound(z: int)
    ensures if z >= 0 then 0 <= MarchStart(z) <= 366 * z else 366 * z <= MarchStart(z) <= 0
  {
  }

  // ---------------------------------------------------------------- order

  predicate Earlier(y: int, m: int, d: int, y': int, m': int, d': int) {
    y < y' || (y == y' && (m < m' || (m == m' && d < d')))
  }

  lemma {:induction false} YearsAscend(y: int, y': int)
    requires y < y'
    ensures YearStart(y) + YearLength(y) <= YearStart(y')
    decreases y' - y
  {
    hide YearStart, IsLeap;
    NextYear(y' - 1);
    if y + 1 < y' {
      YearsAscend(y, y' - 1);
    }
  }

  lemma NextYear(y: int)
    ensures YearStart(y + 1) == YearStart(y) + YearLength(y)
  {
  }

  lemma MonthsAscend(y: int, m: int, m': int)
    requires 1 <= m < m' <= 12
    ensures MonthStart(y, m) + MonthLength(y, m) <= MonthStart(y, m')
    decreases m' - m
  {
    if m + 1 < m' {
      MonthsAscend(y, m, m' - 1);
    }
  }

  /** A year is as long as its months together. */
  lemma YearHolds(y: int, m: int)
    requires 1 <= m <= 12
    ensures MonthStart(y, m) + MonthLength(y, m) <= YearLength(y)
    ensures MonthStart(y, 12) + MonthLength(y, 12) == YearLength(y)
  {
    MonthTable(y);
    if m < 12 {
      MonthsAscend(y, m, 12);
    }
  }

  /** Later dates have greater day numbers. */
  lemma Monotone(y: int, m: int, d: int, y': int, m': int, d': int)
    requires IsDate(y, m, d) && IsDate(y', m', d') && Earlier(y, m, d, y', m', d')
    ensures DayNumber(y, m, d) < DayNumber(y', m', d')
  {
    hide YearStart, MonthStart, MonthLength, YearLength;
    if y < y' {
      YearsAscend(y, y');
      YearHolds(y, m);
    } else if m < m' {
      MonthsAscend(y, m, m');
    }
  }

  /** So no two dates share one. */
  lemma Injective(y: int, m: int, d: int, y': int, m': int, d': int)
    requires IsDate(y, m, d) && IsDate(y', m', d') && DayNumber(y, m, d) == DayNumber(y', m', d')
    ensures y == y' && m == m' && d == d'
  {
    hide DayNumber, IsDate;
    if Earlier(y, m, d, y', m', d') {
      Monotone(y, m, d, y', m', d');
    } else if Earlier(y', m', d', y, m, d) {
      Monotone(y', m', d', y, m, d);
    }
  }

  /** The day after a date, and the date before a day. */
  function NextDay(y: int, m: int, d: int): (r: (int, int, int))
    requires IsDate(y, m, d)
    ensures IsDate(r.0, r.1, r.2)
  {
    if d < MonthLength(y, m) then (y, m, d + 1)
    else if m < 12 then (y, m + 1, 1)
    else (y + 1, 1, 1)
  }

  /** Every day is one more than the day before, across months, years and year 0. */
  lemma StepsByOne(y: int, m: int, d: int)
    requires IsDate(y, m, d)
    ensures var (y', m', d') := NextDay(y, m, d); DayNumber(y', m', d') == DayNumber(y, m, d) + 1
  {
    hide YearStart, YearLength;
    NextYear(y);
    YearHolds(y, m);
  }

  /** Every day number is that of a date. */
  lemma {:induction false} Surjective(n: int) returns (y: int, m: int, d: int)
    ensures IsDate(y, m, d) && DayNumber(y, m, d) == n
    decreases if n >= 0 then n else -n
  {
    hide YearStart, MonthLength, MonthStart, YearLength, DayNumber;
    if n == 0 {
      Epoch();
      y, m, d := 1970, 1, 1;
    } else if n > 0 {
      y, m, d := Surjective(n - 1);
      StepsByOne(y, m, d);
      var next := NextDay(y, m, d);
      y, m, d := next.0, next.1, next.2;
    } else {
      y, m, d := Surjective(n + 1);
      var y', m', d' := PreviousDay(y, m, d);
      StepsByOne(y', m', d');
      y, m, d := y', m', d';
    }
  }

  lemma Epoch()
    ensures IsDate(1970, 1, 1) && DayNumber(1970, 1, 1) == 0
  {
  }

  lemma PreviousDay(y: int, m: int, d: int) returns (y': int, m': int, d': int)
    requires IsDate(y, m, d)
    ensures IsDate(y', m', d') && NextDay(y', m', d') == (y, m, d)
  {
    if d > 1 {
      return y, m, d - 1;
    } else if m > 1 {
      return y, m - 1, MonthLength(y, m - 1);
    } else {
      return y - 1, 12, 31;
    }
  }
}
