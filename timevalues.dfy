/**
 * The values of ptime.go's `Time` and the pure computations on them: the
 * carry arithmetic of `Set` (`norm`, `normDay`), the clamp of `norm()`,
 * the date half of `Time()` and `SetTime()`, the weekday mapping and the
 * derived accessors. The class in module PTime changes a `Time` in place;
 * its methods are specified by the functions here.
 */
module TimeValues {
  import opened GoInt
  import opened Calendar
  import C = Conversion
  import ShamsiKernel
  import G = GregorianKernel

  /** A `*time.Location` as this package sees it: nil, or a zone with a name. */
  datatype Location = Nil | Zone(name: string)

  /** `(*time.Location).String`: a nil location is UTC. */
  function LocationName(loc: Location): string
  {
    match loc
    case Nil => "UTC"
    case Zone(name) => name
  }

  /** `time.Local`. */
  const Local: Location := Zone("Local")

  /** `Iran()`: the zone Asia/Tehran; loading it is left to the platform, whose offset is an input. */
  const Iran: Location := Zone("Asia/Tehran")

  /** `Afghanistan()`: the zone Asia/Kabul. */
  const Afghanistan: Location := Zone("Asia/Kabul")

  /** The fields of a `Time`, in the order of the struct. */
  datatype TimeValue = TimeValue(
    year: int, month: int, day: int,
    hour: int, min: int, sec: int, nsec: int,
    loc: Location, wday: int)

  /** `Time{}`: month 0, day 0, no location. */
  const ZeroValue := TimeValue(0, 0, 0, 0, 0, 0, 0, Nil, 0)

  /**
   * For a Persian date, the weekday the platform gives the `time.Time` that
   * `Time()` builds for it: `time.Date` of the civil date `GregorianOf`
   * computes, then `.Weekday()` (Sunday = 0 ... Saturday = 6). The time
   * package is not part of this model, so every operation that resets the
   * weekday takes this function as an argument.
   */
  type WeekdayOf = C.Date -> int

  /** Every field in its documented range and the date legal. */
  predicate IsNormal(t: TimeValue)
  {
    0 <= t.nsec <= 999999999 && 0 <= t.sec <= 59 && 0 <= t.min <= 59 && 0 <= t.hour <= 23
    && IsValidDate(t.year, t.month, t.day)
  }

  // ---------------------------------------------------------------------
  // Carry arithmetic

  /**
   * `norm`: moves whole multiples of `base` from `lo` into `hi`, so that
   * `hi * base + lo` is kept and `lo` ends in `0..base-1`, a negative `lo`
   * included.
   */
  function Norm(hi: int, lo: int, base: int): (r: (int, int))
    requires base > 0
    ensures r.0 * base + r.1 == hi * base + lo
    ensures 0 <= r.1 < base
  {
    var (hi1, lo1) :=
      if lo < 0 then
        var n := Quo(-lo - 1, base) + 1;
        assert n == (-lo - 1) / base + 1;
        assert (-lo - 1) == base * ((-lo - 1) / base) + (-lo - 1) % base;
        (hi - n, lo + n * base)
      else (hi, lo);
    assert (hi - (hi - hi1)) * base + lo1 == hi * base + lo;
    if lo1 >= base then
      var n := Quo(lo1, base);
      assert lo1 == base * n + lo1 % base;
      (hi1 + n, lo1 - n * base)
    else (hi1, lo1)
  }

  /** `normDay`: the same carry for a 1-based `lo`; `NormDayCarry` states what it computes. */
  function NormDay(hi: int, lo: int, base: int): (r: (int, int))
    requires base > 0
    ensures r.0 * base + r.1 == hi * base + lo
  {
    if lo < 1 then
      var n := Quo(-lo - 1, base) + 1;
      CarryKeeps(hi, lo, -n, base);
      (hi - n, lo + n * base)
    else if lo > base then
      var n := Quo(lo, base);
      CarryKeeps(hi, lo, n, base);
      (hi + n, lo - n * base)
    else
      (hi, lo)
  }

  /**
   * `normDay` keeps `hi * base + lo`; the remainder is `lo % base` unless
   * that is 0, and then it is `base` for `lo` equal to `base` (or to 0,
   * when `base > 1`) and 0 for every other multiple of `base`.
   */
  lemma NormDayCarry(hi: int, lo: int, base: int)
    requires base > 0
    ensures var r := NormDay(hi, lo, base);
      r.0 * base + r.1 == hi * base + lo
      && r.1 == if lo % base != 0 then lo % base else if (lo == 0 && base > 1) || lo == base then base else 0
  {
    if lo < 1 {
      NormDayLow(lo, base);
      CarryKeeps(hi, lo, -(Quo(-lo - 1, base) + 1), base);
    } else if lo > base {
      NormDayHigh(lo, base);
      CarryKeeps(hi, lo, Quo(lo, base), base);
    } else {
      NormDayMiddle(lo, base);
    }
  }

  /** Moving `n` multiples of `base` from `lo` to `hi` keeps `hi * base + lo`. */
  lemma CarryKeeps(hi: int, lo: int, n: int, base: int)
    ensures (hi + n) * base + (lo - n * base) == hi * base + lo
  {
    assert (hi + n) * base == hi * base + n * base;
  }

  /** The second step of `normDay`, for `lo > base`, leaves `lo % base`. */
  lemma NormDayHigh(lo: int, base: int)
    requires base > 0 && lo > base
    ensures lo - Quo(lo, base) * base == lo % base
  {
    assert lo == base * (lo / base) + lo % base;
  }

  /** Neither step of `normDay` applies to `lo` in `1..base`. */
  lemma NormDayMiddle(lo: int, base: int)
    requires 1 <= lo <= base
    ensures lo % base == (if lo == base then 0 else lo)
  {
    if lo == base {
      EuclideanUnique(lo, base, 1, 0);
    } else {
      EuclideanUnique(lo, base, 0, lo);
    }
  }

  /**
   * The first step of `normDay` for `lo < 1`. Go's `(-lo-1)/base` truncates,
   * so at `lo == 0` it is 0 (for `base > 1`), and `lo` becomes `base`
   * rather than 0.
   */
  lemma NormDayLow(lo: int, base: int)
    requires base > 0 && lo < 1
    ensures var lo1 := lo + (Quo(-lo - 1, base) + 1) * base;
      0 <= lo1 <= base
      && (lo == 0 ==> lo1 == (if base == 1 then 0 else base) && lo % base == 0)
      && (lo < 0 ==> lo1 == lo % base)
  {
    if lo == 0 {
      if base > 1 {
        assert 1 / base == 0;
      }
    } else {
      var u := -lo - 1;
      var q, rho := u / base, u % base;
      assert u == base * q + rho && 0 <= rho < base;
      assert Quo(-lo - 1, base) == q;
      assert (q + 1) * base == base * q + base;
      assert base * (-q - 1) == -(base * q) - base;
      EuclideanUnique(lo, base, -q - 1, base - 1 - rho);
    }
  }

  /**
   * For `lo` in `1-base .. 2*base-1` `normDay` returns a 1-based remainder
   * in `1..base`. Its comment's promise `0 <= nlo < base`, copied from
   * `norm`, does not hold: it returns `base` itself for `lo` 0 and `base`.
   */
  lemma NormDayRange(hi: int, lo: int, base: int)
    requires base > 1 && 1 - base <= lo <= 2 * base - 1
    ensures 1 <= NormDay(hi, lo, base).1 <= base
  {
    NormDayCarry(hi, lo, base);
    if lo % base == 0 {
      var q := lo / base;
      assert lo == base * q;
      assert -1 < q < 2 by {
        if q <= -1 { MulAtLeast(base, -q); }
        if q >= 2 { MulAtLeast(base, q - 1); }
      }
      assert lo == 0 || lo == base;
    }
  }

  /** Outside that window `normDay` can leave day 0: 62 days into a 31-day month is month 2, day 0. */
  lemma NormDayZero()
    ensures NormDay(0, 62, 31) == (2, 0) && NormDay(5, -31, 31) == (4, 0)
  {
  }

  /** Nanoseconds from the start of day 0 to the given day and clock. */
  function Nanoseconds(day: int, hour: int, min: int, sec: int, nsec: int): int
  {
    (((day * 24 + hour) * 60 + min) * 60 + sec) * 1000000000 + nsec
  }

  /**
   * The clock half of `Set`: nanoseconds into seconds, seconds into
   * minutes, minutes into hours, hours into days. The components of the
   * result are (day, hour, min, sec, nsec); each clock field ends in range
   * and the moment, counted in nanoseconds, is kept.
   */
  function CarryClock(day: int, hour: int, min: int, sec: int, nsec: int): (r: (int, int, int, int, int))
    ensures 0 <= r.1 <= 23 && 0 <= r.2 <= 59 && 0 <= r.3 <= 59 && 0 <= r.4 <= 999999999
    ensures Nanoseconds(r.0, r.1, r.2, r.3, r.4) == Nanoseconds(day, hour, min, sec, nsec)
  {
    var (sec1, nsec1) := Norm(sec, nsec, 1000000000);
    var (min1, sec2) := Norm(min, sec1, 60);
    var (hour1, min2) := Norm(hour, min1, 60);
    var (day1, hour2) := Norm(day, hour1, 24);
    (day1, hour2, min2, sec2, nsec1)
  }

  /**
   * The date half of `Set`: the month carried into the year, the day
   * carried into the month by the length of that (clamped) month alone,
   * the month carried into the year once more.
   */
  function CarryDate(year: int, month: int, day: int): (r: C.Date)
    ensures 1 <= r.month <= 12
  {
    var (year1, m1) := Norm(year, month - 1, 12);
    var m2 := Between(m1, 0, 11);
    var (m3, day1) := NormDay(m2, day, MonthLengthAt(m2, LeapColumn(year1)));
    var (year2, m4) := Norm(year1, m3, 12);
    C.Date(year2, m4 + 1, day1)
  }

  /** A day that fits every month leaves the day alone and only carries months into years. */
  lemma CarryDateMonths(year: int, month: int, day: int)
    requires 1 <= day <= 29
    ensures var r := CarryDate(year, month, day);
      r.day == day && 12 * r.year + r.month == 12 * year + month
  {
  }

  /** `norm()`'s clamp of the day: into `1..length` of the month when the month is clamped into `1..12`. */
  function ClampDay(year: int, month: int, day: int): (d: int)
    ensures 1 <= month <= 12 ==> IsValidDate(year, month, d)
    ensures IsValidDate(year, month, day) ==> d == day
  {
    Between(day, 1, MonthLengthAt(Between(month - 1, 0, 11), LeapColumn(year)))
  }

  /**
   * `norm()`: `normNanosecond` ... `normDay` in order, each clamping its
   * field. The result is always normal, and a normal value is left alone.
   */
  function Clamped(t: TimeValue): (r: TimeValue)
    ensures IsNormal(r)
    ensures r.year == t.year && r.loc == t.loc && r.wday == t.wday
    ensures IsNormal(t) ==> r == t
  {
    var month := Between(t.month, 1, 12);
    t.(nsec := Between(t.nsec, 0, 999999999), sec := Between(t.sec, 0, 59),
       min := Between(t.min, 0, 59), hour := Between(t.hour, 0, 23),
       month := month, day := ClampDay(t.year, month, t.day))
  }

  // ---------------------------------------------------------------------
  // Between the calendars

  /**
   * The date `Time()` hands to `time.Date`: the Persian date's JDN read as
   * a Gregorian date after JDN 2299160 and as a Julian one up to it.
   */
  function GregorianOf(year: int, month: int, day: int): C.Date
  {
    var jdn := C.ShamsiToJdn(year, month, day);
    if jdn > C.GregorianReformJulianDay then C.JdnToGregorianPostReform(jdn)
    else C.JdnToGregorianPreReform(jdn)
  }

  /**
   * The JDN `SetTime` computes for a civil date read from a `time.Time`:
   * dates after 14 October 1582 by the Gregorian formula, earlier ones by
   * the Julian formula.
   */
  function CivilJdn(g: C.Date): int
  {
    if C.IsAfterGregorianReform(g.year, g.month, g.day) then C.GregorianPostReformToJdn(g.year, g.month, g.day)
    else C.GregorianPreReformToJdn(g.year, g.month, g.day)
  }

  /** The Persian date `SetTime` stores for a civil date read from a `time.Time`. */
  function ShamsiOf(g: C.Date): C.Date
  {
    C.JdnToShamsi(CivilJdn(g))
  }

  /**
   * A date of the calendar `SetTime` reads a civil date in: a legal
   * Gregorian date after 14 October 1582, a legal Julian date up to
   * 4 October 1582 (the ten days between do not exist in either).
   */
  predicate IsCivilDate(g: C.Date)
  {
    1 <= g.month <= 12 &&
    if C.IsAfterGregorianReform(g.year, g.month, g.day) then 1 <= g.day <= G.GregorianMonthLength(g.year, g.month)
    else 1 <= g.day <= G.JulianMonthLength(g.year, g.month) && !G.OnOrAfterOctober1582(g, 5)
  }

  /**
   * The date half of `Time()` is undone by that of `SetTime`: from year
   * -1595 on, the civil date of a legal Persian date is a date of the
   * reformed calendar, and it converts back to the same Persian date.
   */
  lemma CivilDateRoundTrip(year: int, month: int, day: int)
    requires IsValidDate(year, month, day) && year >= -1595
    ensures IsCivilDate(GregorianOf(year, month, day))
    ensures ShamsiOf(GregorianOf(year, month, day)) == C.Date(year, month, day)
  {
    var jdn := C.ShamsiToJdn(year, month, day);
    ShamsiKernel.ShamsiForward(year, month, day);
    ShamsiKernel.ShamsiRoundTrip(year, month, day);
    if jdn > C.GregorianReformJulianDay {
      G.PostJdnRoundTrip(jdn);
    } else {
      G.PreJdnRoundTrip(jdn);
    }
  }

  /**
   * The date half of `SetTime` is undone by that of `Time()`: a date of the
   * reformed calendar whose JDN is at least 1365393 (Farvardin 1 of year
   * -1595) comes back unchanged.
   */
  lemma ShamsiDateRoundTrip(g: C.Date)
    requires IsCivilDate(g) && g.year >= -4712 && CivilJdn(g) >= 1365393
    ensures var p := ShamsiOf(g);
      IsValidDate(p.year, p.month, p.day) && GregorianOf(p.year, p.month, p.day) == g
  {
    var jdn := CivilJdn(g);
    ShamsiKernel.JdnRoundTrip(jdn);
    if C.IsAfterGregorianReform(g.year, g.month, g.day) {
      G.PostReformJdnOrder(g.year, g.month, g.day);
      G.PostReformRoundTrip(g.year, g.month, g.day);
    } else {
      G.PreReformRoundTrip(g.year, g.month, g.day);
      G.PreReformJdnOrder(g.year, g.month, g.day);
    }
  }

  /**
   * The ten dates the reform removed are read as Julian dates, and `Time()`
   * turns them into the Gregorian dates ten days later: Julian
   * 10 October 1582 comes back as 20 October 1582.
   */
  lemma ReformGapShift()
    ensures var p := ShamsiOf(C.Date(1582, 10, 10));
      GregorianOf(p.year, p.month, p.day) == C.Date(1582, 10, 20)
  {
    assert CivilJdn(C.Date(1582, 10, 10)) == 2299166;
    assert C.JdnToShamsi(2299166) == C.Date(961, 7, 28);
    assert C.ShamsiToJdn(961, 7, 28) == 2299166;
    assert C.GregorianPostReformToJdn(1582, 10, 20) == 2299166;
    G.PostReformRoundTrip(1582, 10, 20);
  }

  /**
   * The parts of a `time.Time` that `Time()` builds and `SetTime` reads:
   * the civil date, the clock, the zone, and the weekday the platform
   * gives it (Sunday = 0). A `time.Time` read in its own zone always shows
   * a date of the proleptic Gregorian calendar, a clock in range and a
   * location that is not nil (`IsPlatformTime`); `SetTime` and `New` are
   * defined on every value of the type all the same.
   */
  datatype GoTime = GoTime(date: C.Date, hour: int, min: int, sec: int, nsec: int, loc: Location, weekday: int)

  /** A legal date of the proleptic Gregorian calendar, the one `time.Time` counts in. */
  predicate IsGregorianDate(g: C.Date)
  {
    1 <= g.month <= 12 && 1 <= g.day <= G.GregorianMonthLength(g.year, g.month)
  }

  /** What the platform can hand to `SetTime`: a Gregorian date, a clock in range and a location. */
  predicate IsPlatformTime(ti: GoTime)
  {
    IsGregorianDate(ti.date) && 0 <= ti.hour <= 23 && 0 <= ti.min <= 59 && 0 <= ti.sec <= 59
    && 0 <= ti.nsec <= 999999999 && ti.loc != Nil
  }

  /**
   * `time.Date`, read back in its own zone: the month is carried into the
   * year and the clock up into the day by Go's `norm` (the carry `Norm`
   * models), and the day is then counted on from the first of that month
   * in the proleptic Gregorian calendar, so a day past the month's end
   * lands in the next month. The day count is the kernel's Gregorian
   * formula, which counts days for years above -4800.
   */
  function GoDate(year: int, month: int, day: int, hour: int, min: int, sec: int, nsec: int,
                  loc: Location, weekday: int): (g: GoTime)
    ensures 0 <= g.hour <= 23 && 0 <= g.min <= 59 && 0 <= g.sec <= 59 && 0 <= g.nsec <= 999999999
    ensures g.loc == loc && g.weekday == weekday
  {
    var (y, m) := Norm(year, month - 1, 12);
    var (s, ns) := Norm(sec, nsec, 1000000000);
    var (mi, s1) := Norm(min, s, 60);
    var (h, mi1) := Norm(hour, mi, 60);
    var (d, h1) := Norm(day, h, 24);
    GoTime(C.JdnToGregorianPostReform(C.GregorianPostReformToJdn(y, m + 1, d)), h1, mi1, s1, ns, loc, weekday)
  }

  /** On a month and a clock in range, `time.Date` carries nothing and only counts the day. */
  lemma GoDateInRange(year: int, month: int, day: int, hour: int, min: int, sec: int, nsec: int, loc: Location, weekday: int)
    requires 1 <= month <= 12
    requires 0 <= hour <= 23 && 0 <= min <= 59 && 0 <= sec <= 59 && 0 <= nsec <= 999999999
    ensures GoDate(year, month, day, hour, min, sec, nsec, loc, weekday)
      == GoTime(C.JdnToGregorianPostReform(C.GregorianPostReformToJdn(year, month, day)), hour, min, sec, nsec, loc, weekday)
  {
    assert Norm(year, month - 1, 12) == (year, month - 1);
    assert Norm(sec, nsec, 1000000000) == (sec, nsec);
    assert Norm(min, sec, 60) == (min, sec);
    assert Norm(hour, min, 60) == (hour, min);
    assert Norm(day, hour, 24) == (day, hour);
  }

  /** `time.Date` keeps a Gregorian date above year -4800 with a clock in range as it is given. */
  lemma GoDateKeeps(g: C.Date, hour: int, min: int, sec: int, nsec: int, loc: Location, weekday: int)
    requires IsGregorianDate(g) && g.year > -4800
    requires 0 <= hour <= 23 && 0 <= min <= 59 && 0 <= sec <= 59 && 0 <= nsec <= 999999999
    ensures GoDate(g.year, g.month, g.day, hour, min, sec, nsec, loc, weekday)
      == GoTime(g, hour, min, sec, nsec, loc, weekday)
  {
    GoDateInRange(g.year, g.month, g.day, hour, min, sec, nsec, loc, weekday);
    G.PostReformRoundTrip(g.year, g.month, g.day);
  }

  /**
   * `time.Date` counts any day from 1 on from the first of its month: for a
   * month in range and a clock in range it returns the Gregorian date with
   * the JDN that day count gives, so a day past the month's end lands in a
   * later month.
   */
  lemma GoDateCounts(year: int, month: int, day: int, hour: int, min: int, sec: int, nsec: int, loc: Location, weekday: int)
    requires year > -4800 && 1 <= month <= 12 && day >= 1
    requires 0 <= hour <= 23 && 0 <= min <= 59 && 0 <= sec <= 59 && 0 <= nsec <= 999999999
    ensures var g := GoDate(year, month, day, hour, min, sec, nsec, loc, weekday).date;
      IsGregorianDate(g) && C.GregorianPostReformToJdn(g.year, g.month, g.day) == C.GregorianPostReformToJdn(year, month, day)
  {
    GoDateInRange(year, month, day, hour, min, sec, nsec, loc, weekday);
    PostJdnLowerBound(year, month, day);
    G.PostJdnRoundTrip(C.GregorianPostReformToJdn(year, month, day));
  }

  /** From year -4799 on, the kernel's Gregorian formula counts from JDN -32044 up. */
  lemma PostJdnLowerBound(year: int, month: int, day: int)
    requires year > -4800 && 1 <= month <= 12 && day >= 1
    ensures C.GregorianPostReformToJdn(year, month, day) >= -32044
  {
    G.PostForward(year, month, day);
    var a := if month <= 2 then -1 else 0;
    var c := (year + 4900 + a) / 100;
    assert c >= 1;
    assert G.CenturyStart(c) >= 36525 by {
      assert 36525 * c - (3 * c) / 4 >= 36525 * c - c;
    }
  }

  /**
   * `Time()`: `time.Date` of the civil date of the Persian date and of the
   * clock as stored, in `time.Local` for a nil location.
   */
  function TimeOf(t: TimeValue, weekdayOf: WeekdayOf): (g: GoTime)
    ensures g.loc != Nil && (t.loc != Nil ==> g.loc == t.loc)
    ensures 0 <= g.hour <= 23 && 0 <= g.min <= 59 && 0 <= g.sec <= 59 && 0 <= g.nsec <= 999999999
  {
    var c := GregorianOf(t.year, t.month, t.day);
    GoDate(c.year, c.month, c.day, t.hour, t.min, t.sec, t.nsec,
           if t.loc == Nil then Local else t.loc, weekdayOf(C.Date(t.year, t.month, t.day)))
  }

  /** `SetTime`: the clock, the zone and the renumbered weekday of `ti`, and the Persian date of its civil date. */
  function SetTimeValue(ti: GoTime): (t: TimeValue)
    ensures t.hour == ti.hour && t.min == ti.min && t.sec == ti.sec && t.nsec == ti.nsec && t.loc == ti.loc
    ensures 0 <= t.wday <= 6
  {
    var p := ShamsiOf(ti.date);
    TimeValue(p.year, p.month, p.day, ti.hour, ti.min, ti.sec, ti.nsec, ti.loc, GetWeekday(ti.weekday))
  }

  /** `New`: the zero value for a civil year before 1097, `SetTime` of `ti` otherwise. */
  function NewValue(ti: GoTime): (t: TimeValue)
    ensures ti.date.year < 1097 ==> t == ZeroValue
    ensures ti.date.year >= 1097 ==>
      t.hour == ti.hour && t.min == ti.min && t.sec == ti.sec && t.nsec == ti.nsec && t.loc == ti.loc && 0 <= t.wday <= 6
  {
    if ti.date.year < 1097 then ZeroValue else SetTimeValue(ti)
  }

  /**
   * `SetTime` stores a legal Persian date with the same JDN as the civil
   * date, whenever that JDN is at least 1365393 (Farvardin 1 of year -1595).
   */
  lemma SetTimeIsLegal(ti: GoTime)
    requires CivilJdn(ti.date) >= 1365393
    ensures var t := SetTimeValue(ti);
      IsValidDate(t.year, t.month, t.day) && C.ShamsiToJdn(t.year, t.month, t.day) == CivilJdn(ti.date)
  {
    ShamsiKernel.JdnRoundTrip(CivilJdn(ti.date));
  }

  /**
   * `New` gives the zero value, whose date is not legal, before 1097; from
   * 1097 on, a date of the reformed calendar becomes a legal Persian date.
   */
  lemma NewIsLegal(ti: GoTime)
    requires IsCivilDate(ti.date)
    ensures ti.date.year < 1097 ==> NewValue(ti) == ZeroValue && !IsValidDate(ZeroValue.year, ZeroValue.month, ZeroValue.day)
    ensures var t := NewValue(ti);
      ti.date.year >= 1097 ==> t == SetTimeValue(ti) && IsValidDate(t.year, t.month, t.day)
  {
    var g := ti.date;
    if g.year >= 1097 {
      if C.IsAfterGregorianReform(g.year, g.month, g.day) {
        G.PostForward(g.year, g.month, g.day);
        var a := if g.month <= 2 then -1 else 0;
        assert G.CenturyStart((g.year + 4900 + a) / 100) >= G.CenturyStart(64);
      } else {
        G.PreForward(g.year, g.month, g.day);
      }
      SetTimeIsLegal(ti);
    }
  }

  /**
   * The civil date `Time()` hands to `time.Date` lies above year -4800,
   * and it is a Gregorian date, which `time.Date` keeps, unless it is
   * 29 February of a century year that is a Julian leap year but not a
   * Gregorian one (1500, 1400, 1300, ...): that day does not exist in the
   * calendar `time.Date` counts in.
   */
  lemma CivilDateIsGregorian(year: int, month: int, day: int)
    requires IsValidDate(year, month, day) && year >= -1595
    ensures var g := GregorianOf(year, month, day);
      g.year > -4800 && (IsGregorianDate(g) <==> !(g.month == 2 && g.day == 29 && !G.IsGregorianLeap(g.year)))
  {
    CivilDateRoundTrip(year, month, day);
    CivilYearBound(year, month, day);
  }

  /** The civil date of a Persian date from year -1595 on lies above year -4800. */
  lemma CivilYearBound(year: int, month: int, day: int)
    requires IsValidDate(year, month, day) && year >= -1595
    ensures GregorianOf(year, month, day).year > -4800
  {
    var jdn := C.ShamsiToJdn(year, month, day);
    ShamsiKernel.ShamsiForward(year, month, day);
    if jdn > C.GregorianReformJulianDay {
      G.PostJdnRoundTrip(jdn);
    } else {
      G.PreJdnRoundTrip(jdn);
      var g := C.JdnToGregorianPreReform(jdn);
      G.PreForward(g.year, g.month, g.day);
    }
  }

  /**
   * `SetTime` after `Time()` keeps a value whose fields are in range, from
   * year -1595 on, when the civil date `Time()` computes is one
   * `time.Date` keeps (`CivilDateIsGregorian` says which are not): the
   * Persian date and the clock come back unchanged, the location
   * (`time.Local` for nil) too, and the weekday is reset from the platform.
   */
  lemma TimeThenSetTime(t: TimeValue, weekdayOf: WeekdayOf)
    requires IsNormal(t) && t.year >= -1595
    requires IsGregorianDate(GregorianOf(t.year, t.month, t.day))
    ensures SetTimeValue(TimeOf(t, weekdayOf)) == WithWeekday(t.(loc := if t.loc == Nil then Local else t.loc), weekdayOf)
  {
    CivilDateRoundTrip(t.year, t.month, t.day);
    CivilDateIsGregorian(t.year, t.month, t.day);
    GoDateKeeps(GregorianOf(t.year, t.month, t.day), t.hour, t.min, t.sec, t.nsec,
                if t.loc == Nil then Local else t.loc, weekdayOf(C.Date(t.year, t.month, t.day)));
  }

  /**
   * Persian 878-12-19 is Julian 29 February 1500. `time.Date` reads that as
   * 1 March 1500, so `SetTime(Time())` moves the date one day on, to
   * 878-12-20.
   */
  lemma TimeThenSetTimeJulianLeapDay(weekdayOf: WeekdayOf)
    ensures GregorianOf(878, 12, 19) == C.Date(1500, 2, 29) && !IsGregorianDate(C.Date(1500, 2, 29))
    ensures var r := SetTimeValue(TimeOf(TimeValue(878, 12, 19, 12, 0, 0, 0, Iran, 0), weekdayOf));
      r.year == 878 && r.month == 12 && r.day == 20
  {
    var t := TimeValue(878, 12, 19, 12, 0, 0, 0, Iran, 0);
    NotGregorianLeap1500();
    JulianLeapDayCivil();
    JulianLeapDayTime(t, weekdayOf);
    JulianLeapDayBack(TimeOf(t, weekdayOf).date);
  }

  /** `Time()` of a Persian date whose civil date is 29 February 1500 shows 1 March 1500. */
  lemma JulianLeapDayTime(t: TimeValue, weekdayOf: WeekdayOf)
    requires GregorianOf(t.year, t.month, t.day) == C.Date(1500, 2, 29)
    requires 0 <= t.hour <= 23 && 0 <= t.min <= 59 && 0 <= t.sec <= 59 && 0 <= t.nsec <= 999999999
    ensures TimeOf(t, weekdayOf).date == C.Date(1500, 3, 1)
  {
    JulianLeapDayMoved(GregorianOf(t.year, t.month, t.day), t.hour, t.min, t.sec, t.nsec,
                       if t.loc == Nil then Local else t.loc, weekdayOf(C.Date(t.year, t.month, t.day)));
  }

  /**
   * Persian 878-12-19 is Julian 29 February 1500, a day the Gregorian
   * calendar does not have.
   */
  lemma JulianLeapDayCivil()
    ensures GregorianOf(878, 12, 19) == C.Date(1500, 2, 29)
  {
    assert C.ShamsiToJdn(878, 12, 19) == 2268992;
    assert C.JdnToGregorianPreReform(2268992) == C.Date(1500, 2, 29);
  }

  /** 1500 is not a Gregorian leap year, so its February has 28 days. */
  lemma NotGregorianLeap1500()
    ensures !IsGregorianDate(C.Date(1500, 2, 29))
  {
    assert !G.IsGregorianLeap(1500);
  }

  /** `time.Date` reads 29 February 1500 as 1 March 1500. */
  lemma JulianLeapDayMoved(c: C.Date, hour: int, min: int, sec: int, nsec: int, loc: Location, weekday: int)
    requires c == C.Date(1500, 2, 29)
    requires 0 <= hour <= 23 && 0 <= min <= 59 && 0 <= sec <= 59 && 0 <= nsec <= 999999999
    ensures GoDate(c.year, c.month, c.day, hour, min, sec, nsec, loc, weekday).date == C.Date(1500, 3, 1)
  {
    GoDateInRange(c.year, c.month, c.day, hour, min, sec, nsec, loc, weekday);
    LeapDayCount();
  }

  /** The Gregorian day count puts 29 February 1500 on 1 March 1500. */
  lemma LeapDayCount()
    ensures C.JdnToGregorianPostReform(C.GregorianPostReformToJdn(1500, 2, 29)) == C.Date(1500, 3, 1)
  {
    assert C.GregorianPostReformToJdn(1500, 2, 29) == C.GregorianPostReformToJdn(1500, 3, 1);
    G.PostReformRoundTrip(1500, 3, 1);
  }

  /** `SetTime` reads 1 March 1500 as a Julian date, Persian 878-12-20. */
  lemma JulianLeapDayBack(g: C.Date)
    requires g == C.Date(1500, 3, 1)
    ensures ShamsiOf(g) == C.Date(878, 12, 20)
  {
    assert CivilJdn(C.Date(1500, 3, 1)) == 2268993;
    assert C.JdnToShamsi(2268993) == C.Date(878, 12, 20);
  }

  /**
   * `Time()` after `SetTime` gives back the civil date, the clock and the
   * zone of a `time.Time` the platform can hold whose date is one of the
   * reformed calendar with a JDN from 1365393 on.
   */
  lemma SetTimeThenTime(ti: GoTime, weekdayOf: WeekdayOf)
    requires IsPlatformTime(ti) && IsCivilDate(ti.date) && ti.date.year >= -4712 && CivilJdn(ti.date) >= 1365393
    ensures var g := TimeOf(SetTimeValue(ti), weekdayOf);
      g.date == ti.date && g.hour == ti.hour && g.min == ti.min && g.sec == ti.sec && g.nsec == ti.nsec
      && g.loc == ti.loc
  {
    ShamsiDateRoundTrip(ti.date);
    var p := ShamsiOf(ti.date);
    GoDateKeeps(ti.date, ti.hour, ti.min, ti.sec, ti.nsec, ti.loc, weekdayOf(p));
  }

  /**
   * `getWeekday`: Go's weekday (Sunday = 0) to this package's (Shanbeh =
   * Saturday = 0); anything that is not a Go weekday maps to 0.
   */
  function GetWeekday(wd: int): (r: int)
    ensures 0 <= r <= 6
    ensures 0 <= wd <= 6 ==> r == (wd + 1) % 7
    ensures !(0 <= wd <= 6) ==> r == 0
  {
    match wd
    case 6 => 0
    case 0 => 1
    case 1 => 2
    case 2 => 3
    case 3 => 4
    case 4 => 5
    case 5 => 6
    case _ => 0
  }

  /** `resetWeekday`: the platform's weekday of `Time()`, renumbered by `getWeekday`. */
  function WithWeekday(t: TimeValue, weekdayOf: WeekdayOf): (r: TimeValue)
    ensures r.(wday := t.wday) == t && 0 <= r.wday <= 6
  {
    t.(wday := GetWeekday(weekdayOf(C.Date(t.year, t.month, t.day))))
  }

  // ---------------------------------------------------------------------
  // Set and the operations built on it

  /**
   * What `Set` leaves in a `Time`: the clock and the date carried, the
   * weekday reset from the carried (not yet clamped) date, then `norm()`.
   */
  function SetValue(year: int, month: int, day: int, hour: int, min: int, sec: int, nsec: int,
                    loc: Location, weekdayOf: WeekdayOf): (r: TimeValue)
    ensures IsNormal(r) && r.loc == loc
  {
    var (day1, hour1, min1, sec1, nsec1) := CarryClock(day, hour, min, sec, nsec);
    var date := CarryDate(year, month, day1);
    Clamped(WithWeekday(TimeValue(date.year, date.month, date.day, hour1, min1, sec1, nsec1, loc, 0), weekdayOf))
  }

  /** `Set` of the fields of a normal value gives that value back, with its weekday reset. */
  lemma SetOfNormal(t: TimeValue, weekdayOf: WeekdayOf)
    requires IsNormal(t)
    ensures SetValue(t.year, t.month, t.day, t.hour, t.min, t.sec, t.nsec, t.loc, weekdayOf) == WithWeekday(t, weekdayOf)
  {
    assert CarryClock(t.day, t.hour, t.min, t.sec, t.nsec) == (t.day, t.hour, t.min, t.sec, t.nsec);
    CarryDateOfValid(t.year, t.month, t.day);
  }

  /** The date carry leaves a legal date alone. */
  lemma CarryDateOfValid(year: int, month: int, day: int)
    requires IsValidDate(year, month, day)
    ensures CarryDate(year, month, day) == C.Date(year, month, day)
  {
    assert Norm(year, month - 1, 12) == (year, month - 1);
  }

  /** The date fields of `t` moved by the given amounts, nothing carried yet. */
  function Moved(t: TimeValue, years: int, months: int, days: int): TimeValue
  {
    t.(year := t.year + years, month := t.month + months, day := t.day + days)
  }

  /** `AddDate`: `Set` of the fields of the copy with its date moved (which needs a location). */
  function AddDateValue(t: TimeValue, years: int, months: int, days: int, weekdayOf: WeekdayOf): (r: TimeValue)
    requires t.loc != Nil
    ensures IsNormal(r) && r.loc == t.loc
  {
    var u := Moved(t, years, months, days);
    SetValue(u.year, u.month, u.day, u.hour, u.min, u.sec, u.nsec, u.loc, weekdayOf)
  }

  /** `Tomorrow`: `AddDate(0, 0, 1)`. */
  function TomorrowValue(t: TimeValue, weekdayOf: WeekdayOf): TimeValue
    requires t.loc != Nil
  {
    AddDateValue(t, 0, 0, 1, weekdayOf)
  }

  /** `Yesterday`: `AddDate(0, 0, -1)`. */
  function YesterdayValue(t: TimeValue, weekdayOf: WeekdayOf): TimeValue
    requires t.loc != Nil
  {
    AddDateValue(t, 0, 0, -1, weekdayOf)
  }

  /** The calendar day after a legal date. */
  function NextDay(year: int, month: int, day: int): C.Date
    requires 1 <= month <= 12
  {
    if day < MonthLength(year, month) then C.Date(year, month, day + 1)
    else if month < 12 then C.Date(year, month + 1, 1)
    else C.Date(year + 1, 1, 1)
  }

  /**
   * What the date carry makes of day 0 of a month: the old month's length
   * in the month before, which `norm()` then clamps into that month.
   */
  function DayBefore(year: int, month: int, day: int): C.Date
    requires 1 <= month <= 12
  {
    if day > 1 then C.Date(year, month, day - 1)
    else if month > 1 then C.Date(year, month - 1, MonthLength(year, month))
    else C.Date(year - 1, 12, 31)
  }

  /** The step of `CarryDate` that `Tomorrow` takes from a legal date. */
  lemma CarryNextDay(year: int, month: int, day: int)
    requires IsValidDate(year, month, day)
    ensures CarryDate(year, month, day + 1) == NextDay(year, month, day)
  {
    assert Norm(year, month - 1, 12) == (year, month - 1);
    var len := MonthLength(year, month);
    if day == len {
      assert NormDay(month - 1, day + 1, len) == (month, 1);
    }
  }

  /** The step of `CarryDate` that `Yesterday` takes from a legal date. */
  lemma CarryPreviousDay(year: int, month: int, day: int)
    requires IsValidDate(year, month, day)
    ensures CarryDate(year, month, day - 1) == DayBefore(year, month, day)
  {
    assert Norm(year, month - 1, 12) == (year, month - 1);
    var len := MonthLength(year, month);
    if day == 1 {
      assert NormDay(month - 1, 0, len) == (month - 2, len);
      if month == 1 {
        assert Norm(year, -1, 12) == (year - 1, 11);
      }
    }
  }

  /**
   * `Set` with the clock in range, given the date `n` the carry reaches:
   * the date is `n` with its day clamped, the clock unchanged.
   */
  lemma SetValueFields(year: int, month: int, day: int, hour: int, min: int, sec: int, nsec: int,
                       loc: Location, weekdayOf: WeekdayOf, n: C.Date)
    requires 0 <= hour <= 23 && 0 <= min <= 59 && 0 <= sec <= 59 && 0 <= nsec <= 999999999
    requires CarryDate(year, month, day) == n
    ensures var r := SetValue(year, month, day, hour, min, sec, nsec, loc, weekdayOf);
      r.year == n.year && r.month == n.month && r.day == ClampDay(n.year, n.month, n.day)
      && r.hour == hour && r.min == min && r.sec == sec && r.nsec == nsec
  {
    assert CarryClock(day, hour, min, sec, nsec) == (day, hour, min, sec, nsec);
  }

  /** The day after a legal date is a legal date. */
  lemma NextDayValid(y: int, m: int, d: int)
    requires IsValidDate(y, m, d)
    ensures var n := NextDay(y, m, d); IsValidDate(n.year, n.month, n.day)
  {
  }

  /** The day after a legal date, as the kernel counts JDNs. */
  lemma NextDayJdn(y: int, m: int, d: int)
    requires IsValidDate(y, m, d) && y >= -1595
    ensures var n := NextDay(y, m, d);
      IsValidDate(n.year, n.month, n.day) && C.ShamsiToJdn(n.year, n.month, n.day) == C.ShamsiToJdn(y, m, d) + 1
  {
    ShamsiKernel.DayOfYearDifference(y, m, d);
    if d < MonthLength(y, m) {
      ShamsiKernel.DayOfYearDifference(y, m, d + 1);
    } else if m < 12 {
      ShamsiKernel.DayOfYearDifference(y, m + 1, 1);
    } else {
      ShamsiKernel.YearLength(y);
    }
  }

  /**
   * `Tomorrow` is exact on a normal value: it gives a legal date one JDN
   * later and keeps the clock.
   */
  lemma TomorrowIsNextDay(t: TimeValue, weekdayOf: WeekdayOf)
    requires IsNormal(t) && t.loc != Nil && t.year >= -1595
    ensures var u := TomorrowValue(t, weekdayOf);
      IsValidDate(u.year, u.month, u.day)
      && C.ShamsiToJdn(u.year, u.month, u.day) == C.ShamsiToJdn(t.year, t.month, t.day) + 1
      && u.hour == t.hour && u.min == t.min && u.sec == t.sec && u.nsec == t.nsec
  {
    TomorrowDate(t, weekdayOf);
    NextDayJdn(t.year, t.month, t.day);
  }

  /** The date and clock `Tomorrow` gives a normal value. */
  lemma TomorrowDate(t: TimeValue, weekdayOf: WeekdayOf)
    requires IsNormal(t) && t.loc != Nil
    ensures var u := TomorrowValue(t, weekdayOf);
      C.Date(u.year, u.month, u.day) == NextDay(t.year, t.month, t.day)
      && u.hour == t.hour && u.min == t.min && u.sec == t.sec && u.nsec == t.nsec
  {
    var n := NextDay(t.year, t.month, t.day);
    CarryNextDay(t.year, t.month, t.day);
    NextDayValid(t.year, t.month, t.day);
    SetValueFields(t.year, t.month, t.day + 1, t.hour, t.min, t.sec, t.nsec, t.loc, weekdayOf, n);
  }

  /**
   * The date `Yesterday` reaches from a legal date: the day before within
   * the month; on the 1st, the day of the old month's length clamped into
   * the month before; four of those are two JDNs back instead of one.
   */
  lemma PreviousDayJdn(y: int, m: int, d: int)
    requires IsValidDate(y, m, d) && y >= -1594
    ensures var p := DayBefore(y, m, d);
      var skips := (m == 7 && d == 1) || (m == 12 && d == 1 && !IsLeap(y));
      var day := ClampDay(p.year, p.month, p.day);
      IsValidDate(p.year, p.month, day)
      && C.ShamsiToJdn(p.year, p.month, day) == C.ShamsiToJdn(y, m, d) - (if skips then 2 else 1)
  {
    ShamsiKernel.DayOfYearDifference(y, m, d);
    if d > 1 {
      ShamsiKernel.DayOfYearDifference(y, m, d - 1);
    } else if m > 1 {
      ShamsiKernel.DayOfYearDifference(y, m - 1, ClampDay(y, m - 1, MonthLength(y, m)));
    } else {
      ShamsiKernel.YearLength(y - 1);
      ShamsiKernel.DayOfYearDifference(y - 1, 12, ClampDay(y - 1, 12, 31));
    }
  }

  /**
   * `Yesterday` from a normal value is one JDN earlier except on the first
   * day of a month that follows a longer one: from Mehr 1 (after the 31
   * days of Shahrivar) and, in a common year, from Esfand 1 (after the 30
   * days of Bahman) it lands two days back, on Shahrivar 30 and Bahman 29,
   * because `Set` carries the day by the length of the month it starts in.
   */
  lemma YesterdayIsPreviousDay(t: TimeValue, weekdayOf: WeekdayOf)
    requires IsNormal(t) && t.loc != Nil && t.year >= -1594
    ensures var u := YesterdayValue(t, weekdayOf);
      var skips := (t.month == 7 && t.day == 1) || (t.month == 12 && t.day == 1 && !IsLeap(t.year));
      IsValidDate(u.year, u.month, u.day)
      && C.ShamsiToJdn(u.year, u.month, u.day) == C.ShamsiToJdn(t.year, t.month, t.day) - (if skips then 2 else 1)
      && u.hour == t.hour && u.min == t.min && u.sec == t.sec && u.nsec == t.nsec
  {
    YesterdayDate(t, weekdayOf);
    PreviousDayJdn(t.year, t.month, t.day);
  }

  /** The date and clock `Yesterday` gives a normal value. */
  lemma YesterdayDate(t: TimeValue, weekdayOf: WeekdayOf)
    requires IsNormal(t) && t.loc != Nil
    ensures var u := YesterdayValue(t, weekdayOf);
      var p := DayBefore(t.year, t.month, t.day);
      C.Date(u.year, u.month, u.day) == C.Date(p.year, p.month, ClampDay(p.year, p.month, p.day))
      && u.hour == t.hour && u.min == t.min && u.sec == t.sec && u.nsec == t.nsec
  {
    CarryPreviousDay(t.year, t.month, t.day);
    SetValueFields(t.year, t.month, t.day - 1, t.hour, t.min, t.sec, t.nsec, t.loc, weekdayOf,
                   DayBefore(t.year, t.month, t.day));
  }

  /** The day pairs of the package's Tomorrow and Yesterday tests, at 12:59:59 in a named zone. */
  lemma TomorrowYesterdayRows(loc: Location, weekdayOf: WeekdayOf)
    requires loc != Nil
    ensures var t := TomorrowValue(TimeValue(1394, 4, 31, 12, 59, 59, 0, loc, 0), weekdayOf); (t.year, t.month, t.day) == (1394, 5, 1)
    ensures var t := TomorrowValue(TimeValue(1394, 12, 29, 12, 59, 59, 0, loc, 0), weekdayOf); (t.year, t.month, t.day) == (1395, 1, 1)
    ensures var t := TomorrowValue(TimeValue(1395, 12, 29, 12, 59, 59, 0, loc, 0), weekdayOf); (t.year, t.month, t.day) == (1395, 12, 30)
    ensures var t := TomorrowValue(TimeValue(1395, 2, 12, 12, 59, 59, 0, loc, 0), weekdayOf); (t.year, t.month, t.day) == (1395, 2, 13)
    ensures var t := YesterdayValue(TimeValue(1394, 5, 1, 12, 59, 59, 0, loc, 0), weekdayOf); (t.year, t.month, t.day) == (1394, 4, 31)
    ensures var t := YesterdayValue(TimeValue(1395, 1, 1, 12, 59, 59, 0, loc, 0), weekdayOf); (t.year, t.month, t.day) == (1394, 12, 29)
    ensures var t := YesterdayValue(TimeValue(1395, 12, 30, 12, 59, 59, 0, loc, 0), weekdayOf); (t.year, t.month, t.day) == (1395, 12, 29)
    ensures var t := YesterdayValue(TimeValue(1395, 2, 13, 12, 59, 59, 0, loc, 0), weekdayOf); (t.year, t.month, t.day) == (1395, 2, 12)
  {
    IsLeapSamples();
    TomorrowDate(TimeValue(1394, 4, 31, 12, 59, 59, 0, loc, 0), weekdayOf);
    TomorrowDate(TimeValue(1394, 12, 29, 12, 59, 59, 0, loc, 0), weekdayOf);
    TomorrowDate(TimeValue(1395, 12, 29, 12, 59, 59, 0, loc, 0), weekdayOf);
    TomorrowDate(TimeValue(1395, 2, 12, 12, 59, 59, 0, loc, 0), weekdayOf);
    YesterdayDate(TimeValue(1394, 5, 1, 12, 59, 59, 0, loc, 0), weekdayOf);
    YesterdayDate(TimeValue(1395, 1, 1, 12, 59, 59, 0, loc, 0), weekdayOf);
    YesterdayDate(TimeValue(1395, 12, 30, 12, 59, 59, 0, loc, 0), weekdayOf);
    YesterdayDate(TimeValue(1395, 2, 13, 12, 59, 59, 0, loc, 0), weekdayOf);
  }

  /** As written, the day before 1394 Mehr 1 comes out as Shahrivar 30, not 31. */
  lemma YesterdayOfMehrFirst(loc: Location, weekdayOf: WeekdayOf)
    requires loc != Nil
    ensures var t := YesterdayValue(TimeValue(1394, 7, 1, 0, 0, 0, 0, loc, 0), weekdayOf); (t.year, t.month, t.day) == (1394, 6, 30)
  {
    YesterdayDate(TimeValue(1394, 7, 1, 0, 0, 0, 0, loc, 0), weekdayOf);
  }

  // ---------------------------------------------------------------------
  // The clamping setters

  /**
   * `SetYear`: the year replaced, the day clamped into its month of the new
   * year, the weekday reset. Only Esfand 30 moves, to Esfand 29, when the
   * new year is not leap.
   */
  function SetYearValue(t: TimeValue, year: int, weekdayOf: WeekdayOf): (r: TimeValue)
    ensures r.(year := t.year, day := t.day, wday := t.wday) == t && r.year == year && 0 <= r.wday <= 6
    ensures IsNormal(t) ==> IsNormal(r) && r.day == (if t.month == 12 && t.day == 30 && !IsLeap(year) then 29 else t.day)
  {
    WithWeekday(t.(year := year, day := ClampDay(year, t.month, t.day)), weekdayOf)
  }

  /**
   * `SetMonth`: the month clamped into Farvardin..Esfand, then the day
   * clamped into that month, the weekday reset. The day only ever moves
   * down, to the last day of the new month.
   */
  function SetMonthValue(t: TimeValue, month: int, weekdayOf: WeekdayOf): (r: TimeValue)
    ensures r.(month := t.month, day := t.day, wday := t.wday) == t && r.month == Between(month, 1, 12) && 0 <= r.wday <= 6
    ensures IsNormal(t) ==>
      IsNormal(r) && r.day == (if t.day <= MonthLength(t.year, r.month) then t.day else MonthLength(t.year, r.month))
  {
    var m := Between(month, 1, 12);
    WithWeekday(t.(month := m, day := ClampDay(t.year, m, t.day)), weekdayOf)
  }

  /**
   * `SetDay`: the day clamped into the month instead of carried into the
   * next one, the weekday reset.
   */
  function SetDayValue(t: TimeValue, day: int, weekdayOf: WeekdayOf): (r: TimeValue)
    ensures r.(day := t.day, wday := t.wday) == t && 0 <= r.wday <= 6
    ensures IsNormal(t) ==>
      IsNormal(r) && (IsValidDate(t.year, t.month, day) ==> r.day == day)
      && (day < 1 ==> r.day == 1) && (day > MonthLength(t.year, t.month) ==> r.day == MonthLength(t.year, t.month))
  {
    WithWeekday(t.(day := ClampDay(t.year, t.month, day)), weekdayOf)
  }

  /** `SetHour`: the hour clamped into 0..23; nothing else changes. */
  function SetHourValue(t: TimeValue, hour: int): (r: TimeValue)
    ensures r.(hour := t.hour) == t && 0 <= r.hour <= 23
    ensures 0 <= hour <= 23 ==> r.hour == hour
    ensures IsNormal(t) ==> IsNormal(r)
  {
    t.(hour := Between(hour, 0, 23))
  }

  /** `SetMinute`: the minute clamped into 0..59; nothing else changes. */
  function SetMinuteValue(t: TimeValue, min: int): (r: TimeValue)
    ensures r.(min := t.min) == t && 0 <= r.min <= 59
    ensures 0 <= min <= 59 ==> r.min == min
    ensures IsNormal(t) ==> IsNormal(r)
  {
    t.(min := Between(min, 0, 59))
  }

  /** `SetSecond`: the second clamped into 0..59; nothing else changes. */
  function SetSecondValue(t: TimeValue, sec: int): (r: TimeValue)
    ensures r.(sec := t.sec) == t && 0 <= r.sec <= 59
    ensures 0 <= sec <= 59 ==> r.sec == sec
    ensures IsNormal(t) ==> IsNormal(r)
  {
    t.(sec := Between(sec, 0, 59))
  }

  /** `SetNanosecond`: the nanosecond clamped into 0..999999999; nothing else changes. */
  function SetNanosecondValue(t: TimeValue, nsec: int): (r: TimeValue)
    ensures r.(nsec := t.nsec) == t && 0 <= r.nsec <= 999999999
    ensures 0 <= nsec <= 999999999 ==> r.nsec == nsec
    ensures IsNormal(t) ==> IsNormal(r)
  {
    t.(nsec := Between(nsec, 0, 999999999))
  }

  /**
   * `At`: `SetHour`, `SetMinute`, `SetSecond` and `SetNanosecond` in turn.
   * The date, the location and the weekday stay, and a clock in range is
   * stored as given.
   */
  function AtValue(t: TimeValue, hour: int, min: int, sec: int, nsec: int): (r: TimeValue)
    ensures r.(hour := t.hour, min := t.min, sec := t.sec, nsec := t.nsec) == t
    ensures 0 <= hour <= 23 && 0 <= min <= 59 && 0 <= sec <= 59 && 0 <= nsec <= 999999999
      ==> r.hour == hour && r.min == min && r.sec == sec && r.nsec == nsec
    ensures IsNormal(t) ==> IsNormal(r)
  {
    SetNanosecondValue(SetSecondValue(SetMinuteValue(SetHourValue(t, hour), min), sec), nsec)
  }

  /** `In`: the location replaced (it must not be nil) and the weekday reset. */
  function InValue(t: TimeValue, loc: Location, weekdayOf: WeekdayOf): (r: TimeValue)
    requires loc != Nil
    ensures r.(loc := t.loc, wday := t.wday) == t && r.loc == loc && 0 <= r.wday <= 6
  {
    WithWeekday(t.(loc := loc), weekdayOf)
  }

  /** The package function `Date`: `Set` with `time.Local` in place of a nil location. */
  function DateValue(year: int, month: int, day: int, hour: int, min: int, sec: int, nsec: int,
                     loc: Location, weekdayOf: WeekdayOf): (r: TimeValue)
    ensures IsNormal(r) && r.loc != Nil && (loc != Nil ==> r.loc == loc)
  {
    SetValue(year, month, day, hour, min, sec, nsec, if loc == Nil then Local else loc, weekdayOf)
  }

  // ---------------------------------------------------------------------
  // Accessors

  /** `YearDay`: days of the year before the (clamped) month, plus the day. */
  function YearDay(t: TimeValue): (r: int)
    ensures IsValidDate(t.year, t.month, t.day) ==> 1 <= r <= 365 + LeapColumn(t.year)
  {
    DaysBefore(Between(t.month - 1, 0, 11)) + t.day
  }

  /** `RYearDay`: the days of the year left after `YearDay`. */
  function RYearDay(t: TimeValue): (r: int)
    ensures IsValidDate(t.year, t.month, t.day) ==> 0 <= r <= 365
  {
    365 + LeapColumn(t.year) - YearDay(t)
  }

  /** `RMonthDay`: the days of the (clamped) month left after the day. */
  function RMonthDay(t: TimeValue): (r: int)
    ensures IsValidDate(t.year, t.month, t.day) ==> 0 <= r <= 30
  {
    MonthLengthAt(Between(t.month - 1, 0, 11), LeapColumn(t.year)) - t.day
  }

  /**
   * On a legal date, `YearDay` is the 1-based count of days since Farvardin
   * 1 of the same year and `RYearDay` the count of days still to come
   * before the next Farvardin 1, both as the kernel counts JDNs.
   */
  lemma YearDayCountsDays(t: TimeValue)
    requires IsValidDate(t.year, t.month, t.day) && t.year >= -1595
    ensures YearDay(t) == C.ShamsiToJdn(t.year, t.month, t.day) - C.ShamsiToJdn(t.year, 1, 1) + 1
    ensures RYearDay(t) == C.ShamsiToJdn(t.year + 1, 1, 1) - C.ShamsiToJdn(t.year, t.month, t.day) - 1
    ensures 1 <= YearDay(t) <= 365 + LeapColumn(t.year) && 0 <= RYearDay(t) <= 365
  {
    ShamsiKernel.DayOfYearDifference(t.year, t.month, t.day);
    ShamsiKernel.YearLength(t.year);
  }

  /** On a legal date, `RMonthDay` days later is the last legal day of the month. */
  lemma RMonthDayReachesMonthEnd(t: TimeValue)
    requires IsValidDate(t.year, t.month, t.day)
    ensures var r := RMonthDay(t);
      0 <= r <= 30 && IsValidDate(t.year, t.month, t.day + r) && !IsValidDate(t.year, t.month, t.day + r + 1)
  {
  }

  /** The accessors on 1394 Mehr 2, a day of a common year: 188 days in, 177 and 28 days left. */
  lemma MehrSecondAccessors(t: TimeValue)
    requires t.year == 1394 && t.month == 7 && t.day == 2
    ensures YearDay(t) == 188 && RYearDay(t) == 177 && RMonthDay(t) == 28
  {
    IsLeapSamples();
  }

  /** `Hour12`. */
  function Hour12(t: TimeValue): (r: int)
    ensures 0 <= t.hour <= 23 ==> 0 <= r <= 11 && r == t.hour % 12
  {
    if t.hour >= 12 then t.hour - 12 else t.hour
  }

  /** `modifyHour`: 0 shown as `max`. */
  function ModifyHour(value: int, max: int): (r: int)
    ensures 0 <= value < max ==> 1 <= r <= max && r % max == value
  {
    if value == 0 then max else value
  }

  /**
   * On an hour in range, `Hour12` is the hour modulo 12, and the clock
   * faces of the `h` and `k` tokens show 1..12 and 1..24 for the same hour.
   */
  lemma HourFaces(t: TimeValue)
    requires 0 <= t.hour <= 23
    ensures 0 <= Hour12(t) <= 11 && Hour12(t) == t.hour % 12
    ensures var h := ModifyHour(Hour12(t), 12); 1 <= h <= 12 && h % 12 == t.hour % 12
    ensures var k := ModifyHour(t.hour, 24); 1 <= k <= 24 && k % 24 == t.hour
  {
  }

  /** `AmPm`: 1 (Pm) after 12:00:00, nanoseconds not counted. */
  function AmPm(t: TimeValue): (r: int)
    ensures r == 0 || r == 1
  {
    if t.hour > 12 || (t.hour == 12 && (t.min > 0 || t.sec > 0)) then 1 else 0
  }

  /** On a clock in range `AmPm` is Pm exactly when the second of the day is past noon. */
  lemma AmPmAfterNoon(t: TimeValue)
    requires 0 <= t.hour <= 23 && 0 <= t.min <= 59 && 0 <= t.sec <= 59
    ensures AmPm(t) == 1 <==> 3600 * t.hour + 60 * t.min + t.sec > 43200
    ensures AmPm(t) == 0 || AmPm(t) == 1
  {
  }

  /** `DayTime`: the three-hour part of the day. */
  function DayTime(t: TimeValue): (r: int)
    ensures 0 <= t.hour <= 23 ==> 0 <= r <= 7
  {
    Quo(t.hour, 3)
  }

  /** On an hour in range, `DayTime` is the part `p` of the day with `3p <= hour < 3p + 3`, one of 0..7. */
  lemma DayTimeParts(t: TimeValue)
    requires 0 <= t.hour <= 23
    ensures 0 <= DayTime(t) <= 7 && 3 * DayTime(t) <= t.hour < 3 * DayTime(t) + 3
  {
  }
}
