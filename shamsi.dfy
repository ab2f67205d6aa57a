/**
 * What the Persian half of the kernel satisfies. A Persian year `y` sits at
 * position `r = (y + 1595) % 33` of a 33-year cycle of 12053 days whose
 * leap years are the positions 0, 4, ..., 28; `convertShamsiToJDN` counts
 * whole cycles, whole years and the days of the year, and
 * `convertJDNToShamsi` peels them off again in the same order.
 */
module ShamsiKernel {
  import opened GoInt
  import opened Conversion
  import opened Calendar

  /** The day of the year (0-based) of month `m`, day `d`, as `MonthCount` counts it. */
  function DayIndex(m: int, d: int): int
    requires 1 <= m <= 12
  {
    DaysBefore(m - 1) + d - 1
  }

  /** The month and day that `convertJDNToShamsi` reads off a 0-based day of the year. */
  function MonthDayOf(t: int): Date
    requires t >= 0
  {
    if t < 186 then Date(0, 1 + t / 31, 1 + t % 31) else Date(0, 7 + (t - 186) / 30, 1 + (t - 186) % 30)
  }

  /** Days of the cycle before position `r`: 365 per year plus one per leap year before it. */
  function CycleDays(r: int): int
  {
    365 * r + (r + 3) / 4
  }

  /** The conversion's own day-of-year branches agree with the third column of `pMonthCount`. */
  lemma DayOfYearAgreesWithTable(m: int)
    requires 1 <= m <= 12
    ensures (if m < 7 then (m - 1) * 31 else (m - 7) * 30 + 186) == DaysBefore(m - 1)
  {
  }

  /** Whole cycles, whole years of the cycle and the day of the year make up the forward count. */
  lemma ShamsiForward(y: int, m: int, d: int)
    requires y >= -1595 && 1 <= m <= 12
    ensures var a := y + 1595;
      ShamsiToJdn(y, m, d) - 1365393 == 12053 * (a / 33) + CycleDays(a % 33) + DayIndex(m, d)
  {
    var a := y + 1595;
    assert Quo(a, 33) == a / 33 && Rem(a, 33) == a % 33;
    assert Quo(a % 33 + 3, 4) == (a % 33 + 3) / 4;
    DayOfYearAgreesWithTable(m);
    assert 365 * a == 12053 * (a / 33) - 8 * (a / 33) + 365 * (a % 33);
  }

  /** `convertJDNToShamsi` once its quotients and remainders are known. */
  lemma ShamsiInverseSteps(jdn: int, q: int, g: int, rem2: int, y: int, t: int)
    requires Quo(jdn - 1365393, 12053) == q && Quo(Rem(jdn - 1365393, 12053), 1461) == g
    requires Rem(Rem(jdn - 1365393, 12053), 1461) == rem2
    requires rem2 > 365 ==> Quo(rem2 - 1, 365) == y - (-1595 + 33 * q + 4 * g) && Rem(rem2 - 1, 365) == t
    requires rem2 <= 365 ==> y == -1595 + 33 * q + 4 * g && t == rem2
    requires t >= 0
    ensures JdnToShamsi(jdn) == Date(y, MonthDayOf(t).month, MonthDayOf(t).day)
  {
  }

  /** The way `convertJDNToShamsi` takes a day count apart. */
  lemma ShamsiInverse(jdn: int, q: int, r: int, t: int)
    requires q >= 0 && 0 <= r < 33 && 0 <= t
    requires t < 365 || (t == 365 && r % 4 == 0 && r < 32)
    requires jdn - 1365393 == 12053 * q + CycleDays(r) + t
    ensures JdnToShamsi(jdn) == Date(-1595 + 33 * q + r, MonthDayOf(t).month, MonthDayOf(t).day)
  {
    var g, h := r / 4, r % 4;
    assert CycleDays(r) == 1461 * g + 365 * h + (if h > 0 then 1 else 0);
    var s := CycleDays(r) + t;
    assert 0 <= s < 12053;
    var rem2 := 365 * h + (if h > 0 then 1 else 0) + t;
    assert s == 1461 * g + rem2 && 0 <= rem2 < 1461;
    assert Quo(jdn - 1365393, 12053) == q && Rem(jdn - 1365393, 12053) == s;
    assert Quo(s, 1461) == g && Rem(s, 1461) == rem2;
    if h > 0 {
      assert (rem2 - 1) / 365 == h && (rem2 - 1) % 365 == t;
    }
    ShamsiInverseSteps(jdn, q, g, rem2, -1595 + 33 * q + r, t);
  }

  /** On a legal month and day the day-of-year split recovers them. */
  lemma MonthDaySplit(y: int, m: int, d: int)
    requires IsValidDate(y, m, d)
    ensures var t := DayIndex(m, d);
      0 <= t && MonthDayOf(t) == Date(0, m, d)
      && (t < 365 || (t == 365 && IsLeap(y)))
  {
  }

  /** Each position of a legal day-of-year split is a legal month and day. */
  lemma MonthDayOfValid(y: int, t: int)
    requires 0 <= t && (t < 365 || (t == 365 && IsLeap(y)))
    ensures IsValidDate(y, MonthDayOf(t).month, MonthDayOf(t).day)
    ensures DayIndex(MonthDayOf(t).month, MonthDayOf(t).day) == t
  {
    if t >= 186 {
      var u := t - 186;
      assert u == 30 * (u / 30) + u % 30;
    } else {
      assert t == 31 * (t / 31) + t % 31;
    }
  }

  /**
   * Round trip from a legal Persian date: converting it to a JDN and back
   * returns it unchanged, for every year from -1595 on.
   */
  lemma ShamsiRoundTrip(y: int, m: int, d: int)
    requires y >= -1595 && IsValidDate(y, m, d)
    ensures JdnToShamsi(ShamsiToJdn(y, m, d)) == Date(y, m, d)
  {
    var a := y + 1595;
    var q, r := a / 33, a % 33;
    ShamsiForward(y, m, d);
    MonthDaySplit(y, m, d);
    IsLeapCyclePosition(y);
    ShamsiInverse(ShamsiToJdn(y, m, d), q, r, DayIndex(m, d));
  }

  /** Any day count from the epoch splits into whole cycles, a position in the cycle and a day of that year. */
  lemma CycleSplit(n: int) returns (q: int, r: int, t: int)
    requires n >= 0
    ensures q >= 0 && 0 <= r < 33 && 0 <= t && n == 12053 * q + CycleDays(r) + t
    ensures t < 365 || (t == 365 && r % 4 == 0 && r < 32)
    ensures (33 * q + r) / 33 == q && (33 * q + r) % 33 == r
  {
    q := n / 12053;
    var s := n % 12053;
    var g, rem2 := s / 1461, s % 1461;
    var h;
    if rem2 > 365 {
      h, t := (rem2 - 1) / 365, (rem2 - 1) % 365;
      assert rem2 == 365 * h + 1 + t && 1 <= h <= 3;
    } else {
      h, t := 0, rem2;
    }
    r := 4 * g + h;
    assert g <= 8;
    assert g == 8 ==> rem2 <= 364;
    assert CycleDays(r) == 1461 * g + 365 * h + (if h > 0 then 1 else 0);
  }

  /**
   * Round trip from a JDN: from JDN 1365393 on, `convertJDNToShamsi`
   * returns a legal date that `convertShamsiToJDN` maps back to the same JDN.
   */
  lemma JdnRoundTrip(jdn: int)
    requires jdn >= 1365393
    ensures var p := JdnToShamsi(jdn);
      p.year >= -1595 && IsValidDate(p.year, p.month, p.day) && ShamsiToJdn(p.year, p.month, p.day) == jdn
  {
    var q, r, t := CycleSplit(jdn - 1365393);
    var y := -1595 + 33 * q + r;
    IsLeapCyclePosition(y);
    ShamsiInverse(jdn, q, r, t);
    MonthDayOfValid(y, t);
    var p := MonthDayOf(t);
    ShamsiForwardAt(y, q, r, p.month, p.day);
  }

  /** `ShamsiForward` with the cycle and the position in it already known. */
  lemma ShamsiForwardAt(y: int, q: int, r: int, m: int, d: int)
    requires q >= 0 && 0 <= r < 33 && y == -1595 + 33 * q + r && 1 <= m <= 12
    ensures ShamsiToJdn(y, m, d) - 1365393 == 12053 * q + CycleDays(r) + DayIndex(m, d)
  {
    ShamsiForward(y, m, d);
    assert (y + 1595) / 33 == q && (y + 1595) % 33 == r;
  }

  /** A 33-year cycle is 33 * 365 + 8 = 12053 days long. */
  lemma ShamsiPeriod(y: int, m: int, d: int)
    requires y >= -1595 && 1 <= m <= 12
    ensures ShamsiToJdn(y + 33, m, d) == ShamsiToJdn(y, m, d) + 12053
  {
    ShamsiForward(y, m, d);
    ShamsiForward(y + 33, m, d);
    var a := y + 1595;
    assert (a + 33) / 33 == a / 33 + 1 && (a + 33) % 33 == a % 33;
  }

  /** Moving one year on adds 365 days, and one more from a leap position of the cycle. */
  lemma CycleStep(a: int)
    requires a >= 0
    ensures 12053 * ((a + 1) / 33) + CycleDays((a + 1) % 33) - 12053 * (a / 33) - CycleDays(a % 33)
      == 365 + (if a % 33 % 4 == 0 && a % 33 < 32 then 1 else 0)
  {
    var q, r := a / 33, a % 33;
    if r == 32 {
      assert (a + 1) / 33 == q + 1 && (a + 1) % 33 == 0;
    } else {
      assert (a + 1) / 33 == q && (a + 1) % 33 == r + 1;
      assert CycleDays(r + 1) - CycleDays(r) == 365 + (r + 4) / 4 - (r + 3) / 4;
    }
  }

  /**
   * A year is leap exactly when the kernel puts a day between Esfand 29 and
   * the next Farvardin 1: the gap is 2 for a leap year and 1 otherwise.
   */
  lemma LeapAgreement(y: int)
    requires y >= -1595
    ensures ShamsiToJdn(y + 1, 1, 1) - ShamsiToJdn(y, 12, 29) == (if IsLeap(y) then 2 else 1)
  {
    ShamsiForward(y, 12, 29);
    ShamsiForward(y + 1, 1, 1);
    IsLeapCyclePosition(y);
    CycleStep(y + 1595);
  }

  /** Within one year the kernel counts days exactly as `MonthCount` does. */
  lemma DayOfYearDifference(y: int, m: int, d: int)
    requires y >= -1595 && 1 <= m <= 12
    ensures ShamsiToJdn(y, m, d) - ShamsiToJdn(y, 1, 1) == DayIndex(m, d)
  {
    ShamsiForward(y, m, d);
    ShamsiForward(y, 1, 1);
  }

  /** A Persian year is 365 days long, 366 when `isLeap` holds. */
  lemma YearLength(y: int)
    requires y >= -1595
    ensures ShamsiToJdn(y + 1, 1, 1) - ShamsiToJdn(y, 1, 1) == 365 + LeapColumn(y)
  {
    LeapAgreement(y);
    DayOfYearDifference(y, 12, 29);
  }
}
