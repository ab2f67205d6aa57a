/**
 * The Persian calendar facts that ptime.go keeps beside the kernel: the
 * month table `pMonthCount`, the leap predicate `isLeap` and its modulus
 * helper `divider`, the clamp `between`, and what a legal Persian date is.
 */
module Calendar {
  import opened GoInt

  /** `between`: `v` moved into `lo..hi`, the nearest end when it lies outside. */
  function Between(v: int, lo: int, hi: int): (r: int)
    requires lo <= hi
    ensures lo <= r <= hi
    ensures lo <= v <= hi ==> r == v
    ensures v < lo ==> r == lo
    ensures v > hi ==> r == hi
  {
    if v < lo then lo else if v > hi then hi else v
  }

  /**
   * `pMonthCount`: for each month, its length in a common year, its length
   * in a leap year, and the number of days of the year before it.
   */
  const MonthCount: seq<(int, int, int)> := [
    (31, 31, 0),   // Farvardin
    (31, 31, 31),  // Ordibehesht
    (31, 31, 62),  // Khordad
    (31, 31, 93),  // Tir
    (31, 31, 124), // Mordad
    (31, 31, 155), // Shahrivar
    (30, 30, 186), // Mehr
    (30, 30, 216), // Aban
    (30, 30, 246), // Azar
    (30, 30, 276), // Dey
    (30, 30, 306), // Bahman
    (29, 30, 336)  // Esfand
  ]

  /** The column of `MonthCount` that `Set`, `normDay` and `RMonthDay` read: 1 in a leap year. */
  function LeapColumn(year: int): int
  {
    if IsLeap(year) then 1 else 0
  }

  /** `MonthCount[m][0]` or `[m][1]`, with `m` a 0-based month index. */
  function MonthLengthAt(m: int, column: int): (n: int)
    requires 0 <= m < 12 && 0 <= column <= 1
    ensures 29 <= n <= 31
    ensures n == (if m < 6 then 31 else if m < 11 then 30 else 29 + column)
  {
    if column == 0 then MonthCount[m].0 else MonthCount[m].1
  }

  /** The length of month `month` (1 = Farvardin) of `year`. */
  function MonthLength(year: int, month: int): int
    requires 1 <= month <= 12
  {
    MonthLengthAt(month - 1, LeapColumn(year))
  }

  /** A legal Persian date: months 1-6 have 31 days, 7-11 have 30, Esfand 29 or 30 in a leap year. */
  predicate IsValidDate(year: int, month: int, day: int)
  {
    1 <= month <= 12 && 1 <= day <= MonthLength(year, month)
  }

  /** The number of days of the year before month `m` (0-based), `MonthCount[m][2]`. */
  function DaysBefore(m: int): (n: int)
    requires 0 <= m < 12
    ensures n == (if m < 6 then 31 * m else 186 + 30 * (m - 6))
  {
    MonthCount[m].2
  }

  /** The third column of the table is the running sum of the first. */
  lemma DaysBeforeIsRunningSum(m: int)
    requires 0 <= m < 11
    ensures DaysBefore(m + 1) == DaysBefore(m) + MonthLengthAt(m, 0)
    ensures DaysBefore(11) + MonthLengthAt(11, 0) == 365
    ensures DaysBefore(11) + MonthLengthAt(11, 1) == 366
  {
  }

  /**
   * `divider`: for a positive `num` Go's `num % den`; otherwise
   * `num - ((num + 1) / den - 1) * den` with truncating division.
   */
  function Divider(num: int, den: int): int
    requires den > 0
  {
    if num > 0 then Rem(num, den) else num - (Quo(num + 1, den) - 1) * den
  }

  /** A quotient and remainder in range are the Euclidean ones. */
  lemma EuclideanUnique(a: int, b: int, q: int, r: int)
    requires b > 0 && 0 <= r < b && a == b * q + r
    ensures a % b == r
  {
    var q0, r0 := a / b, a % b;
    assert b * (q - q0) == r0 - r by {
      assert b * q0 + r0 == b * q + r;
    }
    if q > q0 {
      MulAtLeast(b, q - q0);
    } else if q < q0 {
      MulAtLeast(b, q0 - q);
    }
  }

  lemma MulAtLeast(b: int, k: int)
    requires b > 0 && k >= 1
    ensures b * k >= b
  {
  }

  /** `divider` is the floor modulus except at zero, where it returns `den` (0 when `den` is 1). */
  lemma DividerIsFloorMod(num: int, den: int)
    requires den > 0
    ensures num != 0 ==> Divider(num, den) == num % den
    ensures num == 0 ==> Divider(num, den) == (if den == 1 then 0 else den)
  {
    if num < 0 {
      var u := -(num + 1);
      var q, r := u / den, u % den;
      assert Quo(num + 1, den) == -q;
      assert u == den * q + r;
      assert Divider(num, den) == den - 1 - r by {
        assert num - (-q - 1) * den == -(den * q + r) - 1 + den * q + den;
      }
      EuclideanUnique(num, den, -q - 1, den - 1 - r) by {
        assert num == -(den * q + r) - 1;
        assert den * (-q - 1) == -(den * q) - den;
      }
    } else if num == 0 {
      if den == 1 {
        assert Quo(1, 1) == 1;
      } else {
        assert Quo(1, den) == 0;
      }
    }
  }

  /** `isLeap`: a year is leap when `divider(25 * year + 11, 33) < 8`. */
  predicate IsLeap(year: int)
  {
    Divider(25 * year + 11, 33) < 8
  }

  /** The leap test is a floor modulus: 25y + 11 is never 0, so `divider` never returns 33. */
  lemma IsLeapFloorMod(year: int)
    ensures IsLeap(year) <==> (25 * year + 11) % 33 < 8
  {
    DividerIsFloorMod(25 * year + 11, 33);
  }

  /**
   * The leap years of the 33-year cycle that the kernel counts: year `y`
   * is leap exactly when its position `(y + 1595) % 33` in the cycle is a
   * multiple of 4 below 32, i.e. one of 0, 4, ..., 28.
   */
  lemma IsLeapCyclePosition(year: int)
    ensures IsLeap(year) <==> (year + 1595) % 33 % 4 == 0 && (year + 1595) % 33 < 32
  {
    IsLeapFloorMod(year);
    var r := (year + 1595) % 33;
    var q := (year + 1595) / 33;
    assert year + 1595 == 33 * q + r;
    // 25 * 1595 - 11 == 33 * 1208
    assert 25 * year + 11 == 33 * (25 * q - 1208) + 25 * r;
    var t, s := (25 * r) / 33, (25 * r) % 33;
    EuclideanUnique(25 * year + 11, 33, 25 * q - 1208 + t, s);
    ResiduePositions(r);
  }

  /** The residue `25 r mod 33` is below 8 exactly at the positions 0, 4, ..., 28. */
  lemma ResiduePositions(r: int)
    requires 0 <= r < 33
    ensures (25 * r) % 33 < 8 <==> r % 4 == 0 && r < 32
  {
    if r < 11 {
      if r == 0 {} else if r == 1 {} else if r == 2 {} else if r == 3 {} else if r == 4 {}
      else if r == 5 {} else if r == 6 {} else if r == 7 {} else if r == 8 {} else if r == 9 {}
      else {}
    } else if r < 22 {
      if r == 11 {} else if r == 12 {} else if r == 13 {} else if r == 14 {} else if r == 15 {}
      else if r == 16 {} else if r == 17 {} else if r == 18 {} else if r == 19 {} else if r == 20 {}
      else {}
    } else {
      if r == 22 {} else if r == 23 {} else if r == 24 {} else if r == 25 {} else if r == 26 {}
      else if r == 27 {} else if r == 28 {} else if r == 29 {} else if r == 30 {} else if r == 31 {}
      else {}
    }
  }

  /** The leap pattern repeats every 33 years, 8 leap years to a cycle. */
  lemma IsLeapPeriod(year: int)
    ensures IsLeap(year + 33) <==> IsLeap(year)
  {
    IsLeapCyclePosition(year);
    IsLeapCyclePosition(year + 33);
    assert (year + 33 + 1595) % 33 == (year + 1595) % 33;
  }

  /** Year 1394 is common and 1395 is leap. */
  lemma IsLeapSamples()
    ensures !IsLeap(1394) && IsLeap(1395)
  {
  }
}
