/**
 * The integer calendar kernel: Gregorian (after the 1582 reform), Julian
 * (before it) and Persian (Solar Hijri) dates to and from a Julian Day
 * Number. The Gregorian and Julian formulas are those of Fliegel and
 * Van Flandern as published by the US Naval Observatory; the Persian pair
 * counts days through a 33-year cycle of 8 leap years.
 *
 * Every division is Go's truncating division (GoInt.Quo / GoInt.Rem).
 */
module Conversion {
  import opened GoInt

  /** A civil date in whichever calendar the function at hand speaks of. */
  datatype Date = Date(year: int, month: int, day: int)

  /** The JDN of 4 October 1582 (Julian), the last day before the reform. */
  const GregorianReformJulianDay := 2299160

  predicate IsAfterGregorianReform(year: int, month: int, day: int) {
    year > 1582 || (year == 1582 && month > 10) || (year == 1582 && month == 10 && day > 14)
  }

  function GregorianPostReformToJdn(year: int, month: int, day: int): int {
    var adjustedYear := year + 4800 + Quo(month - 14, 12);
    var leapYearFactor := Quo(1461 * adjustedYear, 4);
    var adjustedMonth := month - 2 - 12 * Quo(month - 14, 12);
    var monthFactor := Quo(367 * adjustedMonth, 12);
    var centuryFactor := Quo(3 * Quo(year + 4900 + Quo(month - 14, 12), 100), 4);
    leapYearFactor + monthFactor - centuryFactor + day - 32075
  }

  function GregorianPreReformToJdn(year: int, month: int, day: int): int {
    var adjustedYear := year + 5001 + Quo(month - 9, 7);
    var leapYearFactor := Quo(7 * adjustedYear, 4);
    var monthFactor := Quo(275 * month, 9);
    367 * year - leapYearFactor + monthFactor + day + 1729777
  }

  function JdnToGregorianPostReform(jdn: int): Date {
    var offsetJdn := jdn + 68569;
    var century := Quo(4 * offsetJdn, 146097);
    var offset1 := offsetJdn - Quo(146097 * century + 3, 4);
    var yearBase := Quo(4000 * (offset1 + 1), 1461001);
    var offset2 := offset1 - Quo(1461 * yearBase, 4) + 31;
    var monthFactor := Quo(80 * offset2, 2447);
    var day := offset2 - Quo(2447 * monthFactor, 80);
    var offset3 := Quo(monthFactor, 11);
    var month := monthFactor + 2 - 12 * offset3;
    var year := 100 * (century - 49) + yearBase + offset3;
    Date(year, month, day)
  }

  function JdnToGregorianPreReform(jdn: int): Date {
    var offsetJdn := jdn + 1402;
    var quadrennialCycle := Quo(offsetJdn - 1, 1461);
    var remainingDays := offsetJdn - 1461 * quadrennialCycle;
    var yearAdjustment := Quo(remainingDays - 1, 365) - Quo(remainingDays, 1461);
    var dayOfYear := remainingDays - 365 * yearAdjustment + 30;
    var monthFactor := Quo(80 * dayOfYear, 2447);
    var day := dayOfYear - Quo(2447 * monthFactor, 80);
    var yearFraction := Quo(monthFactor, 11);
    var month := monthFactor + 2 - 12 * yearFraction;
    var year := 4 * quadrennialCycle + yearAdjustment + yearFraction - 4716;
    Date(year, month, day)
  }

  function JdnToShamsi(jdn: int): Date {
    var daysSinceStart := jdn - 1365393;
    var cyclesOf33Years := Quo(daysSinceStart, 12053);
    var year1 := -1595 + 33 * cyclesOf33Years;
    var remaining1 := Rem(daysSinceStart, 12053);
    var cyclesOf4Years := Quo(remaining1, 1461);
    var year2 := year1 + 4 * cyclesOf4Years;
    var remaining2 := Rem(remaining1, 1461);
    var year3 := if remaining2 > 365 then year2 + Quo(remaining2 - 1, 365) else year2;
    var remaining3 := if remaining2 > 365 then Rem(remaining2 - 1, 365) else remaining2;
    if remaining3 < 186 then
      Date(year3, 1 + Quo(remaining3, 31), 1 + Rem(remaining3, 31))
    else
      Date(year3, 7 + Quo(remaining3 - 186, 30), 1 + Rem(remaining3 - 186, 30))
  }

  function ShamsiToJdn(year: int, month: int, day: int): int {
    var adjustedYear := year + 1595;
    var leapDays := Quo(adjustedYear, 33) * 8 + Quo(Rem(adjustedYear, 33) + 3, 4);
    var dayOfYear := if month < 7 then (month - 1) * 31 else (month - 7) * 30 + 186;
    1365392 + 365 * adjustedYear + leapDays + dayOfYear + day
  }
}
