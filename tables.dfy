/**
 * The fixed points of the repository's conversion tests: Persian dates and
 * their JDNs, Gregorian dates and their JDNs, and the two sides of the 1582
 * reform. Each row is proved in both directions; the inverse direction
 * follows from the round-trip theorems rather than by evaluation.
 */
module KernelTables {
  import opened Conversion
  import opened Calendar
  import opened ShamsiKernel
  import opened GregorianKernel

  /** Persian date `y-m-d` is JDN `j` in both directions. */
  predicate ShamsiRow(y: int, m: int, d: int, j: int)
  {
    ShamsiToJdn(y, m, d) == j && JdnToShamsi(j) == Date(y, m, d)
  }

  /** A legal Persian date's forward value is enough to fix its row. */
  lemma ShamsiRowFromForward(y: int, m: int, d: int, j: int)
    requires y >= -1595 && IsValidDate(y, m, d) && ShamsiToJdn(y, m, d) == j
    ensures ShamsiRow(y, m, d, j)
  {
    ShamsiRoundTrip(y, m, d);
  }

  /** Rows 1 to 6 of the Persian table. */
  lemma ShamsiRowsA()
    ensures ShamsiRow(1403, 12, 30, 2460755)
    ensures ShamsiRow(1400, 6, 15, 2459464)
    ensures ShamsiRow(1395, 1, 1, 2457468)
    ensures ShamsiRow(1422, 12, 29, 2467694)
    ensures ShamsiRow(1388, 7, 12, 2455109)
    ensures ShamsiRow(1415, 4, 5, 2464870)
  {
    ShamsiRowFromForward(1403, 12, 30, 2460755);
    ShamsiRowFromForward(1400, 6, 15, 2459464);
    ShamsiRowFromForward(1395, 1, 1, 2457468);
    ShamsiRowFromForward(1422, 12, 29, 2467694);
    ShamsiRowFromForward(1388, 7, 12, 2455109);
    ShamsiRowFromForward(1415, 4, 5, 2464870);
  }

  /** Rows 7 to 12 of the Persian table. */
  lemma ShamsiRowsB()
    ensures ShamsiRow(1390, 10, 20, 2455937)
    ensures ShamsiRow(1435, 2, 9, 2472117)
    ensures ShamsiRow(1377, 5, 3, 2451020)
    ensures ShamsiRow(1405, 7, 25, 2461331)
    ensures ShamsiRow(1399, 12, 29, 2459293)
    ensures ShamsiRow(1385, 8, 15, 2454046)
  {
    ShamsiRowFromForward(1390, 10, 20, 2455937);
    ShamsiRowFromForward(1435, 2, 9, 2472117);
    ShamsiRowFromForward(1377, 5, 3, 2451020);
    ShamsiRowFromForward(1405, 7, 25, 2461331);
    ShamsiRowFromForward(1399, 12, 29, 2459293);
    ShamsiRowFromForward(1385, 8, 15, 2454046);
  }

  /** Rows 13 to 18 of the Persian table. */
  lemma ShamsiRowsC()
    ensures ShamsiRow(1418, 3, 7, 2465937)
    ensures ShamsiRow(1372, 2, 1, 2449099)
    ensures ShamsiRow(1429, 11, 12, 2470204)
    ensures ShamsiRow(1407, 6, 8, 2462013)
    ensures ShamsiRow(1393, 4, 25, 2456855)
    ensures ShamsiRow(1437, 7, 3, 2472997)
  {
    ShamsiRowFromForward(1418, 3, 7, 2465937);
    ShamsiRowFromForward(1372, 2, 1, 2449099);
    ShamsiRowFromForward(1429, 11, 12, 2470204);
    ShamsiRowFromForward(1407, 6, 8, 2462013);
    ShamsiRowFromForward(1393, 4, 25, 2456855);
    ShamsiRowFromForward(1437, 7, 3, 2472997);
  }

  /** Rows 19 to 24 of the Persian table. */
  lemma ShamsiRowsD()
    ensures ShamsiRow(1380, 1, 1, 2451990)
    ensures ShamsiRow(1410, 9, 18, 2463210)
    ensures ShamsiRow(1398, 11, 29, 2458898)
    ensures ShamsiRow(1376, 12, 29, 2450893)
    ensures ShamsiRow(1397, 6, 20, 2458373)
    ensures ShamsiRow(1414, 12, 29, 2464772)
  {
    ShamsiRowFromForward(1380, 1, 1, 2451990);
    ShamsiRowFromForward(1410, 9, 18, 2463210);
    ShamsiRowFromForward(1398, 11, 29, 2458898);
    ShamsiRowFromForward(1376, 12, 29, 2450893);
    ShamsiRowFromForward(1397, 6, 20, 2458373);
    ShamsiRowFromForward(1414, 12, 29, 2464772);
  }

  /** Rows 25 to 30 of the Persian table. */
  lemma ShamsiRowsE()
    ensures ShamsiRow(1388, 11, 10, 2455227)
    ensures ShamsiRow(1400, 1, 1, 2459295)
    ensures ShamsiRow(1422, 7, 25, 2467540)
    ensures ShamsiRow(1375, 9, 8, 2450416)
    ensures ShamsiRow(1396, 2, 20, 2457884)
    ensures ShamsiRow(1411, 3, 1, 2463374)
  {
    ShamsiRowFromForward(1388, 11, 10, 2455227);
    ShamsiRowFromForward(1400, 1, 1, 2459295);
    ShamsiRowFromForward(1422, 7, 25, 2467540);
    ShamsiRowFromForward(1375, 9, 8, 2450416);
    ShamsiRowFromForward(1396, 2, 20, 2457884);
    ShamsiRowFromForward(1411, 3, 1, 2463374);
  }

  /** Rows 31 to 33 of the Persian table. */
  lemma ShamsiRowsF()
    ensures ShamsiRow(1382, 8, 20, 2452955)
    ensures ShamsiRow(1378, 11, 24, 2451588)
    ensures ShamsiRow(1348, 10, 11, 2440588)
  {
    ShamsiRowFromForward(1382, 8, 20, 2452955);
    ShamsiRowFromForward(1378, 11, 24, 2451588);
    ShamsiRowFromForward(1348, 10, 11, 2440588);
  }

  /** Gregorian date `y-m-d` is JDN `j` in both directions. */
  predicate GregorianRow(y: int, m: int, d: int, j: int)
  {
    GregorianPostReformToJdn(y, m, d) == j && JdnToGregorianPostReform(j) == Date(y, m, d)
  }

  /**
   * A legal Gregorian date's forward value is enough to fix its row; the
   * value is given as century `c`, year `i` of it and day `k` of the year.
   */
  lemma GregorianRowFromForward(y: int, m: int, d: int, j: int, c: int, i: int, k: int)
    requires y > -4800 && 1 <= m <= 12 && 1 <= d <= GregorianMonthLength(y, m)
    requires c == (if m <= 2 then y + 4899 else y + 4900) / 100
    requires i == (if m <= 2 then y + 4899 else y + 4900) % 100
    requires (367 * (if m <= 2 then m + 10 else m - 2)) / 12 + d - 31 == k
    requires 36525 * c - (3 * c) / 4 + (1461 * i) / 4 + k - 68569 == j
    ensures GregorianRow(y, m, d, j)
  {
    PostForward(y, m, d);
    PostReformRoundTrip(y, m, d);
  }

  /** Gregorian 2025-03-20 and Persian 1403-12-30 are both JDN 2460755. */
  lemma GregorianRow1()
    ensures GregorianRow(2025, 3, 20, 2460755) && ShamsiRow(1403, 12, 30, 2460755)
  {
    ShamsiRowsA();
    GregorianRowFromForward(2025, 3, 20, 2460755, 69, 25, 19);
  }

  /** Gregorian 2000-02-13 and Persian 1378-11-24 are both JDN 2451588. */
  lemma GregorianRow2()
    ensures GregorianRow(2000, 2, 13, 2451588) && ShamsiRow(1378, 11, 24, 2451588)
  {
    ShamsiRowsF();
    GregorianRowFromForward(2000, 2, 13, 2451588, 68, 99, 349);
  }

  /** Gregorian 1970-01-01 and Persian 1348-10-11 are both JDN 2440588. */
  lemma GregorianRow3()
    ensures GregorianRow(1970, 1, 1, 2440588) && ShamsiRow(1348, 10, 11, 2440588)
  {
    ShamsiRowsF();
    GregorianRowFromForward(1970, 1, 1, 2440588, 68, 69, 306);
  }

  /** Gregorian 1877-08-10 is JDN 2406842. */
  lemma GregorianRow4()
    ensures GregorianRow(1877, 8, 10, 2406842)
  {
    GregorianRowFromForward(1877, 8, 10, 2406842, 67, 77, 162);
  }

  /** Gregorian 2024-07-01 is JDN 2460493. */
  lemma GregorianRow5()
    ensures GregorianRow(2024, 7, 1, 2460493)
  {
    GregorianRowFromForward(2024, 7, 1, 2460493, 69, 24, 122);
  }

  /** Julian date `y-m-d` is JDN `j` in both directions. */
  predicate JulianRow(y: int, m: int, d: int, j: int)
  {
    GregorianPreReformToJdn(y, m, d) == j && JdnToGregorianPreReform(j) == Date(y, m, d)
  }

  /**
   * A legal Julian date's forward value is enough to fix its row; the value
   * is given as 4-year block `w`, year `e` of it and day `k` of the year.
   */
  lemma JulianRowFromForward(y: int, m: int, d: int, j: int, w: int, e: int, k: int)
    requires y >= -4712 && 1 <= m <= 12 && 1 <= d <= JulianMonthLength(y, m)
    requires w == (if m <= 2 then y + 5000 else y + 5001) / 4
    requires e == (if m <= 2 then y + 5000 else y + 5001) % 4
    requires (367 * (if m <= 2 then m + 10 else m - 2)) / 12 + d - 31 == k
    requires 1461 * w + 365 * e + (if e > 0 then 1 else 0) + k - 104096 - 1402 == j
    ensures JulianRow(y, m, d, j)
  {
    PreForward(y, m, d);
    PreReformRoundTrip(y, m, d);
  }

  /** The last Julian day of the reform, 1582-10-04, is `gregorianReformJulianDay` in both directions. */
  lemma JulianReformDay()
    ensures JulianRow(1582, 10, 4, GregorianReformJulianDay)
  {
    JulianRowFromForward(1582, 10, 4, GregorianReformJulianDay, 1645, 3, 217);
  }

  /** The first Gregorian day, 1582-10-15, is the next JDN in both directions. */
  lemma GregorianReformDay()
    ensures GregorianRow(1582, 10, 15, GregorianReformJulianDay + 1)
  {
    GregorianRowFromForward(1582, 10, 15, GregorianReformJulianDay + 1, 64, 82, 228);
  }

  /** `isAfterGregorianReform` holds from 1582-10-15 on and not on 1582-10-14. */
  lemma ReformPredicateBoundary()
    ensures IsAfterGregorianReform(1582, 10, 15) && !IsAfterGregorianReform(1582, 10, 14)
    ensures !IsAfterGregorianReform(1582, 10, 4)
  {
  }
}
