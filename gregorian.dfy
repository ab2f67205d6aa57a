/**
 * What the Gregorian and Julian halves of the kernel satisfy. Both formulas
 * of Fliegel and Van Flandern count from a year that starts on 1 March, so
 * that the leap day is the last day of the year; the March-based month `mm`
 * (1 = March, ..., 11 = January, 12 = February) and the 0-based day `k` of
 * that year are what the inverses recover. The Gregorian formula further
 * splits the day count into centuries of 36524 or 36525 days and years of
 * 365 or 366 days; the Julian one into 4-year blocks of 1461 days.
 *
 * The civil calendars are stated here independently of the formulas, as
 * month lengths and leap rules.
 */
module GregorianKernel {
  import opened GoInt
  import opened Conversion

  // ---------------------------------------------------------------------
  // The civil calendars

  /** The Gregorian leap rule: every fourth year, except centuries not divisible by 400. */
  predicate IsGregorianLeap(y: int)
  {
    y % 4 == 0 && (y % 100 != 0 || y % 400 == 0)
  }

  /** Days in month `m` (1 = January) of Gregorian year `y`. */
  function GregorianMonthLength(y: int, m: int): int
    requires 1 <= m <= 12
  {
    if m == 2 then (if IsGregorianLeap(y) then 29 else 28)
    else if m in {4, 6, 9, 11} then 30 else 31
  }

  /** Days in month `m` (1 = January) of Julian year `y`: every fourth year is leap. */
  function JulianMonthLength(y: int, m: int): int
    requires 1 <= m <= 12
  {
    if m == 2 then (if y % 4 == 0 then 29 else 28)
    else if m in {4, 6, 9, 11} then 30 else 31
  }

  // ---------------------------------------------------------------------
  // The March-based year shared by both formulas

  /** Days of month `mm` of a year that starts in March (mm = 1 is March, 12 is February). */
  function MarchMonthLength(mm: int): int
    requires 1 <= mm <= 12
  {
    if mm == 12 then 29 else if mm in {2, 4, 7, 9} then 30 else 31
  }

  /**
   * The month part of both inverses: from the 0-based day `k` of a March-based
   * year, `80 (k + 31) / 2447` is the month and `k + 31 - 2447 mm / 80` the
   * day, where `367 mm / 12 - 30` days precede month `mm`.
   */
  lemma MarchMonthDay(mm: int, d: int)
    requires 1 <= mm <= 12 && 1 <= d <= MarchMonthLength(mm)
    ensures var k := (367 * mm) / 12 + d - 31;
      && 0 <= k && (k <= 336 || (mm == 12 && k == 336 + d))
      && (80 * (k + 31)) / 2447 == mm
      && k + 31 - (2447 * mm) / 80 == d
  {
    if mm == 1 {} else if mm == 2 {} else if mm == 3 {} else if mm == 4 {}
    else if mm == 5 {} else if mm == 6 {} else if mm == 7 {} else if mm == 8 {}
    else if mm == 9 {} else if mm == 10 {} else if mm == 11 {} else {}
  }

  /**
   * The date both inverses read off day `k` of the March-based year that
   * starts in year `base`: January and February belong to `base + 1`.
   */
  function MarchDate(base: int, k: int): Date
    requires k >= 0
  {
    var mf := (80 * (k + 31)) / 2447;
    Date(base + mf / 11, mf + 2 - 12 * (mf / 11), k + 31 - (2447 * mf) / 80)
  }

  /** Day `d` of month `mm` of the March-based year `base` is where `MarchDate` puts it. */
  lemma MarchDateOf(base: int, mm: int, d: int)
    requires 1 <= mm <= 12 && 1 <= d <= MarchMonthLength(mm)
    ensures (367 * mm) / 12 + d - 31 >= 0
    ensures MarchDate(base, (367 * mm) / 12 + d - 31) == Date(base + mm / 11, mm + 2 - 12 * (mm / 11), d)
  {
    MarchMonthDay(mm, d);
  }

  /**
   * Every day of a March-based year of 366 days is read as a legal month
   * and day of it, which the forward formulas count back to the same day;
   * the 29th of the last month (February) is the 366th day only.
   */
  lemma MarchSplit(k: int)
    requires 0 <= k <= 365
    ensures var mf := (80 * (k + 31)) / 2447;
      var d := k + 31 - (2447 * mf) / 80;
      && 1 <= mf <= 12 && 1 <= d <= MarchMonthLength(mf)
      && (367 * mf) / 12 + d - 31 == k
      && (mf == 12 && d == 29 ==> k == 365)
      && (mf >= 11 <==> k >= 306)
  {
    var mm :=
      if k < 31 then 1 else if k < 61 then 2 else if k < 92 then 3 else if k < 122 then 4
      else if k < 153 then 5 else if k < 184 then 6 else if k < 214 then 7 else if k < 245 then 8
      else if k < 275 then 9 else if k < 306 then 10 else if k < 337 then 11 else 12;
    var d := k + 31 - (367 * mm) / 12;
    MarchMonthDay(mm, d);
  }

  /**
   * `MarchDate` in the calendar's own terms: month `m` of year `y`, where
   * the March-based year `y + a` (`a` is -1 in January and February) is
   * `base`, the March-based month `m - 2 - 12a` holds the day, and the
   * forward formulas count it as day `k`.
   */
  lemma MarchDateParts(base: int, k: int)
    requires 0 <= k <= 365
    ensures var g := MarchDate(base, k);
      var a := if g.month <= 2 then -1 else 0;
      && 1 <= g.month <= 12 && g.year + a == base && 1 <= g.day <= MarchMonthLength(g.month - 2 - 12 * a)
      && (367 * (g.month - 2 - 12 * a)) / 12 + g.day - 31 == k
      && (g.month == 2 && g.day == 29 ==> k == 365)
  {
    MarchSplit(k);
  }

  /** The date falls on or after `day` October 1582 (in whichever calendar it is written). */
  predicate OnOrAfterOctober1582(g: Date, day: int)
  {
    g.year > 1582 || (g.year == 1582 && g.month > 10) || (g.year == 1582 && g.month == 10 && g.day >= day)
  }

  /** `isAfterGregorianReform` is "on or after 15 October 1582". */
  lemma AfterReformIsOctober15(g: Date)
    ensures IsAfterGregorianReform(g.year, g.month, g.day) <==> OnOrAfterOctober1582(g, 15)
  {
  }

  /**
   * A date read off a March-based year falls on or after `day` October 1582
   * exactly when the year starts after 1582, or is 1582 and the day of the
   * year is at least that of `day` October.
   */
  lemma MarchDateOrder(base: int, k: int, day: int)
    requires 0 <= k <= 365 && 1 <= day <= 31
    ensures OnOrAfterOctober1582(MarchDate(base, k), day) <==> base > 1582 || (base == 1582 && k >= 213 + day)
  {
    MarchSplit(k);
    var mf := (80 * (k + 31)) / 2447;
    if mf <= 7 {
      assert (367 * mf) / 12 <= 214;
    } else if mf >= 9 {
      assert (367 * mf) / 12 >= 275;
    }
  }

  // ---------------------------------------------------------------------
  // After the reform: centuries of 36524 or 36525 days

  /** The day (counted from the epoch of the formula) on which century `c` starts. */
  function CenturyStart(c: int): int
  {
    36525 * c - (3 * c) / 4
  }

  /** Inside century `c` the inverse recovers `c`, and `(146097 c + 3) / 4` is that century's start. */
  lemma CenturyOf(c: int, w: int)
    requires c >= 0 && 0 <= w < (if c % 4 == 0 then 36525 else 36524)
    ensures (4 * (CenturyStart(c) + w)) / 146097 == c
    ensures (146097 * c + 3) / 4 == CenturyStart(c)
  {
    var q, r := c / 4, c % 4;
    assert c == 4 * q + r;
    assert (3 * c) / 4 == 3 * q + (3 * r) / 4;
  }

  /** Year `i` of a century is 366 days long when `i % 4 == 3` (it holds a 29 February). */
  lemma YearStartStep(i: int)
    requires i >= 0
    ensures (1461 * (i + 1)) / 4 - (1461 * i) / 4 == 365 + (if i % 4 == 3 then 1 else 0)
  {
    var q, r := i / 4, i % 4;
    assert i == 4 * q + r;
    assert (1461 * i) / 4 == 1461 * q + (1461 * r) / 4;
    assert (1461 * (i + 1)) / 4 == 1461 * q + (1461 * (r + 1)) / 4;
  }

  /** The start of year 99 of a century is the latest year start in it. */
  lemma LastYearStart(i: int)
    requires 0 <= i < 100
    ensures (1461 * i) / 4 <= (1461 * 99) / 4
  {
  }

  /** Inside year `i` of a century the inverse's `4000 (w + 1) / 1461001` recovers `i`. */
  lemma YearOf(i: int, k: int)
    requires 0 <= i < 100 && 0 <= k < 365 + (if i % 4 == 3 then 1 else 0)
    ensures (4000 * ((1461 * i) / 4 + k + 1)) / 1461001 == i
  {
    YearStartStep(i);
    var f := (1461 * i) / 4;
    var e := f + k + 1;
    assert 4 * f <= 1461 * i <= 4 * f + 3;
    assert 4 * (1461 * (i + 1) / 4) <= 1461 * (i + 1);
    assert 1461001 * i <= 4000 * e;
    assert 4000 * e < 1461001 * (i + 1);
  }

  /**
   * The forward formula as a day count: century `p / 100`, year `p % 100` of
   * it and day `k` of the March-based year, where `p` is the March-based
   * year plus 4900.
   */
  lemma PostForward(y: int, m: int, d: int)
    requires 1 <= m <= 12 && y + 4800 + (if m <= 2 then -1 else 0) >= 0
    ensures var a := if m <= 2 then -1 else 0;
      var p := y + 4900 + a;
      GregorianPostReformToJdn(y, m, d) + 68569
        == CenturyStart(p / 100) + (1461 * (p % 100)) / 4 + (367 * (m - 2 - 12 * a)) / 12 + d - 31
  {
    var a := if m <= 2 then -1 else 0;
    assert Quo(m - 14, 12) == a;
    var p := y + 4900 + a;
    var c, i := p / 100, p % 100;
    assert (1461 * (p - 100)) / 4 == 36525 * c + (1461 * i) / 4 - 36525 by {
      assert 1461 * (p - 100) == 4 * (36525 * c - 36525) + 1461 * i;
    }
  }

  /** The inverse formula on a day count given as century, year and day of the year. */
  lemma PostInverse(jdn: int, c: int, i: int, k: int)
    requires jdn == CenturyStart(c) + (1461 * i) / 4 + k - 68569
    requires c >= 1 && 0 <= i < 100 && 0 <= k < 365 + (if i % 4 == 3 then 1 else 0)
    requires (1461 * i) / 4 + k < (if c % 4 == 0 then 36525 else 36524)
    ensures JdnToGregorianPostReform(jdn) == MarchDate(100 * (c - 49) + i, k)
  {
    var w := (1461 * i) / 4 + k;
    CenturyOf(c, w);
    YearOf(i, k);
    assert jdn + 68569 == CenturyStart(c) + w && CenturyStart(c) >= 0;
    PostInverseSteps(jdn, c, w, i, k, 100 * (c - 49) + i);
  }

  /** The inverse formula after the reform once its quotients are known. */
  lemma PostInverseSteps(jdn: int, c: int, w: int, i: int, k: int, base: int)
    requires jdn + 68569 >= 0 && Quo(4 * (jdn + 68569), 146097) == c
    requires jdn + 68569 - Quo(146097 * c + 3, 4) == w && w >= 0
    requires Quo(4000 * (w + 1), 1461001) == i && i >= 0
    requires w - Quo(1461 * i, 4) == k && k >= 0
    requires base == 100 * (c - 49) + i
    ensures JdnToGregorianPostReform(jdn) == MarchDate(base, k)
  {
  }

  /**
   * A legal Gregorian date lies in century `c`, year `i` of that century and
   * day `k` of that year, each within the lengths the formula assumes.
   */
  lemma GregorianPlace(y: int, m: int, d: int) returns (c: int, i: int, k: int)
    requires y > -4800 && 1 <= m <= 12 && 1 <= d <= GregorianMonthLength(y, m)
    ensures var a := if m <= 2 then -1 else 0;
      var mm := m - 2 - 12 * a;
      var p := y + 4900 + a;
      && c == p / 100 && i == p % 100 && k == (367 * mm) / 12 + d - 31
      && c >= 1 && 0 <= i < 100 && 0 <= k < 365 + (if i % 4 == 3 then 1 else 0)
      && (1461 * i) / 4 + k < (if c % 4 == 0 then 36525 else 36524)
      && MarchDate(100 * (c - 49) + i, k) == Date(y, m, d)
  {
    var a := if m <= 2 then -1 else 0;
    var mm := m - 2 - 12 * a;
    var p := y + 4900 + a;
    c, i := p / 100, p % 100;
    k := (367 * mm) / 12 + d - 31;
    MarchMonthDay(mm, d);
    if mm == 12 && d == 29 {
      assert IsGregorianLeap(y) && y == 100 * c + i - 4899;
      LeapYearInCentury(y, c, i);
    }
    YearStartStep(99);
    LastYearStart(i);
    assert mm / 11 == -a;
    MarchDateOf(100 * (c - 49) + i, mm, d);
  }

  /** A leap year is year `i % 4 == 3` of its century, and a leap year ending a century ends one of a 400-year cycle. */
  lemma LeapYearInCentury(y: int, c: int, i: int)
    requires IsGregorianLeap(y) && y == 100 * c + i - 4899 && 0 <= i < 100
    ensures i % 4 == 3 && (i == 99 ==> c % 4 == 0)
  {
    LeapYearOffset(y, c, i);
    if i == 99 {
      LeapCenturyEnd(y, c);
    }
  }

  /** A leap year's place in its century is 3 modulo 4. */
  lemma LeapYearOffset(y: int, c: int, i: int)
    requires y % 4 == 0 && y == 100 * c + i - 4899
    ensures i % 4 == 3
  {
    var q := y / 4;
    assert y == 4 * q;
    assert i == 4 * (q - 25 * c + 1224) + 3;
  }

  /** A leap year that closes a century belongs to a century number divisible by 4. */
  lemma LeapCenturyEnd(y: int, c: int)
    requires IsGregorianLeap(y) && y == 100 * (c - 48)
    ensures c % 4 == 0
  {
    assert y / 100 == c - 48;
    assert y % 100 == 0;
    var q := y / 400;
    assert y == 400 * q;
    assert c - 48 == 4 * q;
    assert c == 4 * (q + 12);
  }

  /**
   * Round trip from a Gregorian date: converting a legal date of the
   * (proleptic) Gregorian calendar to a JDN and back returns it unchanged,
   * for every year after -4800, where every dividend is non-negative.
   */
  lemma PostReformRoundTrip(y: int, m: int, d: int)
    requires y > -4800 && 1 <= m <= 12 && 1 <= d <= GregorianMonthLength(y, m)
    ensures JdnToGregorianPostReform(GregorianPostReformToJdn(y, m, d)) == Date(y, m, d)
  {
    var c, i, k := GregorianPlace(y, m, d);
    PostForward(y, m, d);
    var jdn := GregorianPostReformToJdn(y, m, d);
    assert jdn == CenturyStart(c) + (1461 * i) / 4 + k - 68569;
    PostInverse(jdn, c, i, k);
  }

  /** Any day count of the formula from century 1 on splits into a century, a year of it and a day of that year. */
  lemma CenturySplit(o: int) returns (c: int, i: int, k: int)
    requires o >= 36525
    ensures o == CenturyStart(c) + (1461 * i) / 4 + k
    ensures c >= 1 && 0 <= i < 100 && 0 <= k < 365 + (if i % 4 == 3 then 1 else 0)
    ensures (1461 * i) / 4 + k < (if c % 4 == 0 then 36525 else 36524)
  {
    c := (4 * o) / 146097;
    var q, r := c / 4, c % 4;
    assert c == 4 * q + r;
    assert (3 * c) / 4 == 3 * q + (3 * r) / 4;
    var w := o - CenturyStart(c);
    assert 0 <= w < (if r == 0 then 36525 else 36524);
    i := (4 * w + 3) / 1461;
    k := w - (1461 * i) / 4;
    YearStartStep(i);
  }

  /**
   * The day read off century `c`, year `i` and day `k` is a legal Gregorian
   * date, and the forward formula counts it back to the same day.
   */
  lemma PostDateForward(c: int, i: int, k: int)
    requires c >= 1 && 0 <= i < 100 && 0 <= k < 365 + (if i % 4 == 3 then 1 else 0)
    requires (1461 * i) / 4 + k < (if c % 4 == 0 then 36525 else 36524)
    ensures var g := MarchDate(100 * (c - 49) + i, k);
      && 1 <= g.month <= 12 && 1 <= g.day <= GregorianMonthLength(g.year, g.month)
      && g.year + 4800 + (if g.month <= 2 then -1 else 0) >= 0
      && GregorianPostReformToJdn(g.year, g.month, g.day) + 68569 == CenturyStart(c) + (1461 * i) / 4 + k
  {
    var g := MarchDate(100 * (c - 49) + i, k);
    MarchDateParts(100 * (c - 49) + i, k);
    var p := 100 * c + i;
    assert p / 100 == c && p % 100 == i;
    PostForward(g.year, g.month, g.day);
    if g.month == 2 && g.day == 29 {
      LastYearStart(i);
      CenturyLeapYear(c, i);
    }
  }

  /** The year that holds the February of the last year `i` of a century's 4-year block is a Gregorian leap year. */
  lemma CenturyLeapYear(c: int, i: int)
    requires 0 <= i < 100 && i % 4 == 3 && (i == 99 ==> c % 4 == 0)
    ensures IsGregorianLeap(100 * (c - 49) + i + 1)
  {
    if i == 99 {
      CenturyEndLeap(c);
    } else {
      YearInCenturyLeap(c, i);
    }
  }

  /** A century that starts a 400-year cycle ends in a leap year. */
  lemma CenturyEndLeap(c: int)
    requires c % 4 == 0
    ensures IsGregorianLeap(100 * (c - 49) + 100)
  {
    var m := c / 4 - 12;
    var y := 100 * (c - 49) + 100;
    assert y == 400 * m;
    assert y / 400 == m;
    assert y % 400 == 0;
    assert y / 4 == 100 * m;
    assert y % 4 == 0;
  }

  /** Inside a century, a year before the last whose number is a multiple of four is a leap year. */
  lemma YearInCenturyLeap(c: int, i: int)
    requires 0 <= i < 99 && i % 4 == 3
    ensures IsGregorianLeap(100 * (c - 49) + i + 1)
  {
    var y := 100 * (c - 49) + i + 1;
    assert y == 4 * (25 * (c - 49) + i / 4 + 1);
    assert y / 100 == c - 49;
  }

  /**
   * On a day count in century `c`, the date read off it falls after the
   * reform exactly when the count is at least that of 15 October 1582.
   */
  lemma PostReformOrder(c: int, i: int, k: int)
    requires c >= 1 && 0 <= i < 100 && 0 <= k < 365 + (if i % 4 == 3 then 1 else 0)
    requires (1461 * i) / 4 + k < (if c % 4 == 0 then 36525 else 36524)
    ensures var g := MarchDate(100 * (c - 49) + i, k);
      IsAfterGregorianReform(g.year, g.month, g.day)
      <==> CenturyStart(c) + (1461 * i) / 4 + k - 68569 > GregorianReformJulianDay
  {
    MarchDateOrder(100 * (c - 49) + i, k, 15);
    AfterReformIsOctober15(MarchDate(100 * (c - 49) + i, k));
    PostReformCount(c, i, k);
  }

  /** The day count of year `i` of century `c` passes the reform day exactly from 15 October 1582 on. */
  lemma PostReformCount(c: int, i: int, k: int)
    requires c >= 1 && 0 <= i < 100 && 0 <= k < 365 + (if i % 4 == 3 then 1 else 0)
    requires (1461 * i) / 4 + k < (if c % 4 == 0 then 36525 else 36524)
    ensures CenturyStart(c) + (1461 * i) / 4 + k - 68569 > GregorianReformJulianDay
      <==> 100 * (c - 49) + i > 1582 || (100 * (c - 49) + i == 1582 && k >= 228)
  {
    if c >= 65 {
      assert CenturyStart(c) >= CenturyStart(65);
    } else if c <= 63 {
      assert CenturyStart(c) + (if c % 4 == 0 then 36525 else 36524) == CenturyStart(c + 1) <= CenturyStart(64);
    } else if i >= 83 {
      assert (1461 * i) / 4 >= (1461 * 83) / 4;
    } else if i <= 81 {
      YearStartStep(i);
      assert (1461 * (i + 1)) / 4 <= (1461 * 82) / 4;
    }
  }

  /**
   * Round trip from a JDN after the reform's formula: from JDN -32044
   * (1 March -4800) on, `convertJDNToGregorianPostReform` returns a legal
   * Gregorian date that the forward formula maps back to the same JDN, and
   * that date is after 14 October 1582 exactly when the JDN is after
   * `gregorianReformJulianDay`.
   */
  lemma PostJdnRoundTrip(jdn: int)
    requires jdn >= -32044
    ensures var g := JdnToGregorianPostReform(jdn);
      && 1 <= g.month <= 12 && 1 <= g.day <= GregorianMonthLength(g.year, g.month)
      && GregorianPostReformToJdn(g.year, g.month, g.day) == jdn
      && (IsAfterGregorianReform(g.year, g.month, g.day) <==> jdn > GregorianReformJulianDay)
  {
    var c, i, k := CenturySplit(jdn + 68569);
    PostInverse(jdn, c, i, k);
    PostDateForward(c, i, k);
    PostReformOrder(c, i, k);
  }

  /**
   * On legal Gregorian dates the forward formula agrees with
   * `isAfterGregorianReform`: a date is after 14 October 1582 exactly when
   * its JDN is after `gregorianReformJulianDay`.
   */
  lemma PostReformJdnOrder(y: int, m: int, d: int)
    requires y > -4800 && 1 <= m <= 12 && 1 <= d <= GregorianMonthLength(y, m)
    ensures IsAfterGregorianReform(y, m, d) <==> GregorianPostReformToJdn(y, m, d) > GregorianReformJulianDay
  {
    var c, i, k := GregorianPlace(y, m, d);
    PostForward(y, m, d);
    assert CenturyStart(c) >= CenturyStart(1);
    PostReformRoundTrip(y, m, d);
    PostJdnRoundTrip(GregorianPostReformToJdn(y, m, d));
  }

  // ---------------------------------------------------------------------
  // Before the reform: blocks of four Julian years

  /** `275 m / 9` is `367 mm / 12` shifted, so both formulas count the same days before a month. */
  lemma JulianMonthOffset(m: int)
    requires 1 <= m <= 12
    ensures var a := if m <= 2 then -1 else 0;
      (275 * m) / 9 == (367 * (m - 2 - 12 * a)) / 12 + (if m <= 2 then -306 else 61)
  {
    if m == 1 {} else if m == 2 {} else if m == 3 {} else if m == 4 {}
    else if m == 5 {} else if m == 6 {} else if m == 7 {} else if m == 8 {}
    else if m == 9 {} else if m == 10 {} else if m == 11 {} else {}
  }

  /**
   * The forward formula as a day count: `u` is the March-based year plus
   * 5001, `u / 4` the 4-year block and `u % 4` the year in it; the 1461-day
   * block has its leap year at `u % 4 == 0`.
   */
  lemma PreForward(y: int, m: int, d: int)
    requires y >= -5000 && 1 <= m <= 12
    ensures var a := if m <= 2 then -1 else 0;
      var u := y + 5001 + a;
      var e := u % 4;
      GregorianPreReformToJdn(y, m, d) + 1402
        == 1461 * (u / 4) + 365 * e + (if e > 0 then 1 else 0) + (367 * (m - 2 - 12 * a)) / 12 + d - 31 - 104096
  {
    var a := if m <= 2 then -1 else 0;
    assert Quo(m - 9, 7) == a;
    JulianMonthOffset(m);
    var u := y + 5001 + a;
    var w, e := u / 4, u % 4;
    assert u == 4 * w + e;
    assert (7 * u) / 4 == 7 * w + (7 * e) / 4;
  }

  /** The inverse formula once its quotients are known. */
  lemma PreInverseSteps(jdn: int, q: int, ya: int, k: int, base: int)
    requires Quo(jdn + 1402 - 1, 1461) == q
    requires Quo(jdn + 1402 - 1461 * q - 1, 365) - Quo(jdn + 1402 - 1461 * q, 1461) == ya
    requires jdn + 1402 - 1461 * q - 365 * ya == k + 1 && k >= 0
    requires base == 4 * q + ya - 4716
    ensures JdnToGregorianPreReform(jdn) == MarchDate(base, k)
  {}

  /** The inverse formula on a day count given as block, year in block and day of the year. */
  lemma PreInverse(jdn: int, w: int, e: int, k: int)
    requires 0 <= e < 4 && 0 <= k < 365 + (if e == 0 then 1 else 0)
    requires jdn + 1402 == 1461 * w + 365 * e + (if e > 0 then 1 else 0) + k - 104096
    requires jdn + 1402 >= 1
    ensures JdnToGregorianPreReform(jdn) == MarchDate(4 * w + e - 5001, k)
  {
    var l := jdn + 1402;
    if e == 0 {
      var q := w - 72;
      assert l - 1 == 1461 * q + (1095 + k);
      assert (l - 1) / 1461 == q;
      var r := l - 1461 * q;
      assert r == 1096 + k;
      if k == 365 {
        assert (r - 1) / 365 == 4 && r / 1461 == 1;
      } else {
        assert (r - 1) / 365 == 3 && r / 1461 == 0;
      }
      PreInverseSteps(jdn, q, 3, k, 4 * w + e - 5001);
    } else {
      var q := w - 71;
      assert l - 1 == 1461 * q + (365 * (e - 1) + k);
      assert (l - 1) / 1461 == q;
      var r := l - 1461 * q;
      assert r == 365 * (e - 1) + 1 + k;
      assert r - 1 == 365 * (e - 1) + k && 0 <= k < 365;
      assert (r - 1) / 365 == e - 1;
      assert r / 1461 == 0;
      PreInverseSteps(jdn, q, e - 1, k, 4 * w + e - 5001);
    }
  }

  /**
   * A legal Julian date lies in 4-year block `w`, year `e` of that block and
   * day `k` of that year, each within the lengths the formula assumes.
   */
  lemma JulianPlace(y: int, m: int, d: int) returns (w: int, e: int, k: int)
    requires y >= -4712 && 1 <= m <= 12 && 1 <= d <= JulianMonthLength(y, m)
    ensures var a := if m <= 2 then -1 else 0;
      var mm := m - 2 - 12 * a;
      var u := y + 5001 + a;
      && w == u / 4 && e == u % 4 && k == (367 * mm) / 12 + d - 31
      && 0 <= k < 365 + (if e == 0 then 1 else 0)
      && 1461 * w + 365 * e + (if e > 0 then 1 else 0) + k - 104096 >= 1
      && MarchDate(4 * w + e - 5001, k) == Date(y, m, d)
  {
    var a := if m <= 2 then -1 else 0;
    var mm := m - 2 - 12 * a;
    var u := y + 5001 + a;
    w, e := u / 4, u % 4;
    k := (367 * mm) / 12 + d - 31;
    MarchMonthDay(mm, d);
    assert k < 365 + (if e == 0 then 1 else 0) by {
      if mm == 12 && d == 29 {
        assert y % 4 == 0;
        assert u == y + 5000;
      }
    }
    assert mm / 11 == -a;
    MarchDateOf(4 * w + e - 5001, mm, d);
  }

  /**
   * Round trip from a Julian date: converting a legal date of the Julian
   * calendar to a JDN and back returns it unchanged, from year -4712 (JDN 0)
   * on.
   */
  lemma PreReformRoundTrip(y: int, m: int, d: int)
    requires y >= -4712 && 1 <= m <= 12 && 1 <= d <= JulianMonthLength(y, m)
    ensures JdnToGregorianPreReform(GregorianPreReformToJdn(y, m, d)) == Date(y, m, d)
  {
    var w, e, k := JulianPlace(y, m, d);
    PreForward(y, m, d);
    PreInverse(GregorianPreReformToJdn(y, m, d), w, e, k);
  }

  /** Any day count of the formula from JDN -1401 on splits into a 4-year block, a year of it and a day of that year. */
  lemma BlockSplit(jdn: int) returns (w: int, e: int, k: int)
    requires jdn >= -1401
    ensures jdn + 1402 == 1461 * w + 365 * e + (if e > 0 then 1 else 0) + k - 104096
    ensures w >= 71 && 0 <= e < 4 && 0 <= k < 365 + (if e == 0 then 1 else 0)
  {
    var n := jdn + 1402 + 104096;
    w := n / 1461;
    var r := n % 1461;
    if r < 366 {
      e, k := 0, r;
    } else {
      e, k := (r - 1) / 365, (r - 1) % 365;
    }
  }

  /**
   * The day read off block `w`, year `e` and day `k` is a legal Julian
   * date, and the forward formula counts it back to the same day.
   */
  lemma PreDateForward(w: int, e: int, k: int)
    requires w >= 71 && 0 <= e < 4 && 0 <= k < 365 + (if e == 0 then 1 else 0)
    ensures var g := MarchDate(4 * w + e - 5001, k);
      && 1 <= g.month <= 12 && 1 <= g.day <= JulianMonthLength(g.year, g.month) && g.year >= -5000
      && GregorianPreReformToJdn(g.year, g.month, g.day) + 1402
        == 1461 * w + 365 * e + (if e > 0 then 1 else 0) + k - 104096
  {
    var g := MarchDate(4 * w + e - 5001, k);
    MarchDateParts(4 * w + e - 5001, k);
    var u := 4 * w + e;
    assert u / 4 == w && u % 4 == e;
    PreForward(g.year, g.month, g.day);
    if g.month == 2 && g.day == 29 {
      assert g.year == 4 * w - 5000;
    }
  }

  /**
   * On a day count of the Julian formula, the date read off it falls on or
   * after Julian `day` October 1582 exactly when the count is at least that
   * of that day, JDN 2299156 + `day`.
   */
  lemma PreReformOrder(w: int, e: int, k: int, day: int)
    requires w >= 71 && 0 <= e < 4 && 0 <= k < 365 + (if e == 0 then 1 else 0) && 1 <= day <= 31
    ensures OnOrAfterOctober1582(MarchDate(4 * w + e - 5001, k), day)
      <==> 1461 * w + 365 * e + (if e > 0 then 1 else 0) + k - 104096 - 1402 >= 2299156 + day
  {
    MarchDateOrder(4 * w + e - 5001, k, day);
  }

  /**
   * Round trip from a JDN before the reform's formula: from JDN -1401 on,
   * `convertJDNToGregorianPreReform` returns a legal Julian date that the
   * forward formula maps back to the same JDN. The date is up to 4 October
   * 1582 exactly when the JDN is at most `gregorianReformJulianDay`, and
   * after 14 October 1582 only from JDN 2299171 on: the ten JDNs between
   * read as the Julian dates 5 to 14 October 1582.
   */
  lemma PreJdnRoundTrip(jdn: int)
    requires jdn >= -1401
    ensures var g := JdnToGregorianPreReform(jdn);
      && 1 <= g.month <= 12 && 1 <= g.day <= JulianMonthLength(g.year, g.month) && g.year >= -5000
      && GregorianPreReformToJdn(g.year, g.month, g.day) == jdn
      && (OnOrAfterOctober1582(g, 5) <==> jdn > GregorianReformJulianDay)
      && (IsAfterGregorianReform(g.year, g.month, g.day) <==> jdn >= GregorianReformJulianDay + 11)
  {
    var w, e, k := BlockSplit(jdn);
    PreInverse(jdn, w, e, k);
    PreDateForward(w, e, k);
    PreReformOrder(w, e, k, 5);
    PreReformOrder(w, e, k, 15);
  }

  /**
   * On legal Julian dates the forward formula agrees with the reform: a
   * Julian date is up to 4 October 1582 exactly when its JDN is at most
   * `gregorianReformJulianDay`, and after 14 October 1582 (as
   * `isAfterGregorianReform` has it) exactly when its JDN is at least
   * 2299171.
   */
  lemma PreReformJdnOrder(y: int, m: int, d: int)
    requires y >= -4712 && 1 <= m <= 12 && 1 <= d <= JulianMonthLength(y, m)
    ensures OnOrAfterOctober1582(Date(y, m, d), 5) <==> GregorianPreReformToJdn(y, m, d) > GregorianReformJulianDay
    ensures IsAfterGregorianReform(y, m, d) <==> GregorianPreReformToJdn(y, m, d) >= GregorianReformJulianDay + 11
  {
    var w, e, k := JulianPlace(y, m, d);
    PreForward(y, m, d);
    PreReformRoundTrip(y, m, d);
    PreJdnRoundTrip(GregorianPreReformToJdn(y, m, d));
  }
}
