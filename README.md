# go-persian-calendar in Dafny

A model of the core of the Go package `ptime`, a Persian (Solar Hijri,
"Shamsi") calendar. It has two parts, and the model follows both.

- **The integer calendar kernel (`conversion.go`).** These are pure
  functions. They convert Gregorian dates after the 1582 reform, Julian
  dates before it, and Persian dates to and from a Julian Day Number (JDN).
  The Gregorian and Julian sides use the Fliegel–Van Flandern formulas. The
  Persian side uses a 33-year cycle of 12053 days.
- **The `Time` type (`ptime.go`).** It covers:
  - the carry arithmetic of `Set` (`norm`, `normDay`) and the clamping of
    `norm()`;
  - the clamping setters, `At` and `In`;
  - `AddDate`, `Tomorrow` and `Yesterday`;
  - the date part of `Time()` and `SetTime()`, and `New`;
  - the leap test `isLeap` with its helper `divider`;
  - the derived accessors and the clamped name lookups;
  - `getWeekday` and `ZoneOffset`;
  - the two formatters, `Format` and `TimeFormat`.

Go's `/` and `%` truncate toward zero. The module `GoInt` writes them out
(`Quo`, `Rem`), and every division of the source goes through them.

## Module layout

| module | file | what it holds |
|---|---|---|
| `GoInt` | goint.dfy | Go's truncating `/` and `%` |
| `Conversion` | conversion.dfy | the seven kernel functions, as written |
| `Calendar` | calendar.dfy | `pMonthCount`, `isLeap`, `divider`, `between`, and what a legal Persian date is |
| `ShamsiKernel` | shamsi.dfy | the Persian round trips, the 33-year period, and agreement with `isLeap` |
| `GregorianKernel` | gregorian.dfy | the Gregorian and Julian round trips, and the 1582 boundary |
| `KernelTables` | tables.dfy | every fixed point of the conversion tests |
| `Text` | text.dfy | `strconv.Itoa`, the `%d` verbs of `fmt.Sprintf`, `strings.TrimRight`, and `strings.Replacer` on code points |
| `Names` | names.dfy | the name tables and their clamped lookups |
| `TimeValues` | timevalues.dfy | `Time` as a value, with the functions that specify the class's methods |
| `TimeFormats` | timeformats.dfy | `ZoneOffset`, the token scanner of `Format` (`Token`, `Render`), and the `writeD*` helpers |
| `TimeLayouts` | timelayouts.dfy | the two replacers of `TimeFormat` |
| `TimeLayoutFacts` | timelayoutfacts.dfy | what `TimeFormat` writes, including the package's whole test table |
| `PTime` | ptime.dfy | the class `Time`, whose pointer-receiver methods update its fields, plus `New` and `Date` |

**How the class maps onto the values.** Pointer receivers are methods of
`PTime.Time`. Each is specified by a function on `TimeValues.TimeValue`,
and the properties of those functions are proved as lemmas.

**`AddDate`, `Tomorrow`, `Yesterday`, `In`.** These have value receivers,
so each method copies its receiver into a fresh object and changes only
the copy.

**`Format`.** It is a `while` loop over the template, proved against
`Render`. The loop invariant is "text written so far ++ `Render` of the
rest == `Render` of the whole".

**Platform inputs.** Things the Go time package supplies are parameters:
- the Go weekday of a civil date (`weekdayOf`);
- the zone offset, `MonthWeek` and `YearWeek` (`TimeFormats.Env`);
- a `*time.Location`, which is `TimeValues.Location`, where a nil location
  is `Nil`.

**Behaviour modelled as written, where the comments or the natural reading
say otherwise:**
- `normDay` does not meet its comment's `0 <= nlo < base`.
  `TimeValues.NormDayRange` and `TimeValues.NormDayZero` state what it does
  instead.
- `AddDate` carries days by the length of the month it starts in, so
  `Yesterday` of Mehr 1 is Shahrivar 30. See
  `TimeValues.YesterdayIsPreviousDay` and `TimeValues.YesterdayOfMehrFirst`.
- `Time()` hands Julian dates before the reform to `time.Date`, which counts in the proleptic Gregorian calendar. Julian 29 February of 1500, 1400, 1300, ... is not a Gregorian date, so it comes back as 1 March, and `SetTime(Time())` moves the Persian date one day on. See `TimeValues.TimeThenSetTimeJulianLeapDay`.
- `ZoneOffset` truncates the hours and the minutes separately, so an offset
  west of UTC that is off the hour prints a signed minute field, as in
  "-03:-30". See `TimeFormats.ZoneOffsetNegativeMinutes`.

## Model

| member | source | states |
|---|---|---|
| Conversion.IsAfterGregorianReform | conversion.go:7-9 | the reform test as written; its meaning is stated by `GregorianKernel.AfterReformIsOctober15` |
| Conversion.GregorianPostReformToJdn | conversion.go:27-49 | the Gregorian formula as written; `GregorianKernel.PostForward` states it as a day count and `GregorianKernel.PostReformRoundTrip` pairs it with its inverse |
| Conversion.GregorianPreReformToJdn | conversion.go:64-71 | the Julian formula as written; `GregorianKernel.PreForward` states it as a day count and `GregorianKernel.PreReformRoundTrip` pairs it with its inverse |
| Conversion.JdnToGregorianPostReform | conversion.go:76-113 | the Gregorian inverse as written; `GregorianKernel.PostInverse` and `GregorianKernel.PostJdnRoundTrip` state what it reads off |
| Conversion.JdnToGregorianPreReform | conversion.go:117-140 | the Julian inverse as written; `GregorianKernel.PreInverse` and `GregorianKernel.PreJdnRoundTrip` state what it reads off |
| Conversion.JdnToShamsi | conversion.go:156-192 | the Persian inverse as written; `ShamsiKernel.ShamsiInverse` and `ShamsiKernel.JdnRoundTrip` state what it reads off |
| Conversion.ShamsiToJdn | conversion.go:196-226 | the Persian formula as written; `ShamsiKernel.ShamsiForward` states it as a day count and `ShamsiKernel.ShamsiRoundTrip` pairs it with its inverse |
| GoInt.QuoRem | conversion.go:40-46 | Go's truncating quotient and remainder: `a == b*Quo + Rem`, with the remainder carrying the dividend's sign |
| Calendar.Between | ptime.go:1341-1347 | `between` clamps into `lo..hi`: the value itself when it is inside, otherwise the nearer end |
| Calendar.MonthLengthAt | ptime.go:179-192 | `pMonthCount`'s month lengths: 31 for months 1-6, 30 for 7-11, and 29/30 for Esfand by leap column |
| Calendar.DaysBefore | ptime.go:179-192 | the third column of `pMonthCount`: 31m before Mehr, then 186 + 30(m-6) |
| Calendar.DaysBeforeIsRunningSum | ptime.go:179-192 | the third column is the running sum of the first; a year has 365 days, or 366 in the leap column |
| Calendar.Divider | ptime.go:1349-1354 | `divider` as written; `Calendar.DividerIsFloorMod` states what it computes |
| Calendar.IsLeap | ptime.go:828-830 | `isLeap` as written, through `divider`; `Calendar.IsLeapFloorMod` and `ShamsiKernel.LeapAgreement` state what it means |
| Calendar.DividerIsFloorMod | ptime.go:1349-1354 | `divider` is the floor modulus for num != 0, and returns `den` at num == 0 |
| Calendar.IsLeapFloorMod | ptime.go:828-830 | `isLeap(y)` holds iff floor-mod(25y+11, 33) < 8 |
| Calendar.IsLeapCyclePosition | ptime.go:828-830 | `isLeap(y)` holds iff y's position (y+1595) mod 33 in the kernel's cycle is 0, 4, ..., 28 |
| Calendar.IsLeapPeriod | ptime.go:828-830 | the leap pattern repeats every 33 years |
| Calendar.IsLeapSamples | ptime_test.go:528-534 | 1394 is not leap and 1395 is |
| ShamsiKernel.DayOfYearAgreesWithTable | conversion.go:214-219 | the day-of-year branches of `convertShamsiToJDN` equal `pMonthCount`'s third column |
| ShamsiKernel.ShamsiForward | conversion.go:196-226 | `convertShamsiToJDN` counts 12053 days per whole cycle, then the days of the cycle before the year, then the day of the year |
| ShamsiKernel.ShamsiInverse | conversion.go:156-192 | `convertJDNToShamsi` takes a day count apart into cycle, year of the cycle, month and day |
| ShamsiKernel.MonthDayOfValid | conversion.go:182-189 | each day of the year splits into a legal month and day, which counts back to the same day |
| ShamsiKernel.CycleSplit | conversion.go:165-180 | every day count from the epoch splits into a cycle, a position in it and a day of that year |
| ShamsiKernel.ShamsiRoundTrip | conversion.go:156-226 | for a legal Persian date with year >= -1595, `convertJDNToShamsi(convertShamsiToJDN(y,m,d)) == (y,m,d)` |
| ShamsiKernel.JdnRoundTrip | conversion.go:156-226 | for jdn >= 1365393, `convertJDNToShamsi` gives a legal date (year >= -1595) that `convertShamsiToJDN` maps back to jdn |
| ShamsiKernel.ShamsiPeriod | conversion.go:207-211 | moving 33 years adds exactly 12053 days |
| ShamsiKernel.CycleStep | conversion.go:207-211 | one year more adds 365 days, plus one from a leap position of the cycle |
| ShamsiKernel.LeapAgreement | conversion.go:196-226 | JDN(y+1,1,1) - JDN(y,12,29) is 2 when `isLeap(y)` and 1 otherwise |
| ShamsiKernel.DayOfYearDifference | conversion.go:213-223 | within a year the kernel counts days as `pMonthCount` does |
| ShamsiKernel.YearLength | conversion.go:196-226 | a year is 365 days long, or 366 when `isLeap` holds |
| GregorianKernel.MarchMonthDay | conversion.go:106-109 | the month and day read from a day of a March-based year are those the forward formula counted |
| GregorianKernel.MarchSplit | conversion.go:106-110 | every day of a 366-day March-based year reads as a legal month and day that counts back to it |
| GregorianKernel.AfterReformIsOctober15 | conversion.go:7-9 | `isAfterGregorianReform` means "on or after 15 October 1582" |
| GregorianKernel.PostForward | conversion.go:27-49 | the Gregorian forward formula is a count of centuries, years of the century and days of the year |
| GregorianKernel.PostInverse | conversion.go:76-113 | the Gregorian inverse reads century, year and day of the year back off that count |
| GregorianKernel.GregorianPlace | conversion.go:27-49 | a legal Gregorian date lies in the century, year and day the formula assumes, within their lengths |
| GregorianKernel.CenturySplit | conversion.go:95-103 | every day count from century 1 on splits into century, year and day |
| GregorianKernel.PostDateForward | conversion.go:76-113 | the date read off a count is a legal Gregorian date that the forward formula counts back to it |
| GregorianKernel.PostReformRoundTrip | conversion.go:27-113 | for a legal Gregorian date with y > -4800, JDN-to-Gregorian of Gregorian-to-JDN returns the date |
| GregorianKernel.PostJdnRoundTrip | conversion.go:3-113 | from JDN -32044 on, the inverse gives a legal Gregorian date that maps back to jdn; it is after the reform iff jdn > 2299160 |
| GregorianKernel.PostReformJdnOrder | conversion.go:3-49 | on legal Gregorian dates, `isAfterGregorianReform` holds iff the JDN exceeds `gregorianReformJulianDay` |
| GregorianKernel.PreForward | conversion.go:64-71 | the Julian forward formula is a count of 4-year blocks, years of the block and days of the year |
| GregorianKernel.PreInverse | conversion.go:117-140 | the Julian inverse reads block, year and day back off that count |
| GregorianKernel.JulianPlace | conversion.go:64-71 | a legal Julian date lies in the block, year and day the formula assumes |
| GregorianKernel.BlockSplit | conversion.go:124-130 | every day count from JDN -1401 on splits into block, year and day |
| GregorianKernel.PreDateForward | conversion.go:117-140 | the date read off a count is a legal Julian date that the forward formula counts back to it |
| GregorianKernel.PreReformRoundTrip | conversion.go:64-140 | for a legal Julian date with y >= -4712, JDN-to-Julian of Julian-to-JDN returns the date |
| GregorianKernel.PreJdnRoundTrip | conversion.go:3-140 | from JDN -1401 on, the inverse gives a legal Julian date that maps back to jdn; it is up to 1582-10-04 iff jdn <= 2299160 |
| GregorianKernel.PreReformJdnOrder | conversion.go:3-71 | on legal Julian dates, the date is on or after 5 October 1582 iff the JDN exceeds 2299160, and it passes `isAfterGregorianReform` iff the JDN is at least 2299171 |
| KernelTables.ShamsiRowsA | conversion_test.go:92-115 | Persian rows 1-6 hold in both directions, e.g. 1403-12-30 <-> 2460755 |
| KernelTables.ShamsiRowsB | conversion_test.go:116-139 | Persian rows 7-12 hold in both directions, e.g. 1399-12-29 <-> 2459293 |
| KernelTables.ShamsiRowsC | conversion_test.go:140-163 | Persian rows 13-18 hold in both directions |
| KernelTables.ShamsiRowsD | conversion_test.go:164-187 | Persian rows 19-24 hold in both directions |
| KernelTables.ShamsiRowsE | conversion_test.go:188-211 | Persian rows 25-30 hold in both directions, e.g. 1400-01-01 <-> 2459295 |
| KernelTables.ShamsiRowsF | conversion_test.go:212-223 | Persian rows 31-33 hold in both directions, e.g. 1348-10-11 <-> 2440588 |
| KernelTables.GregorianRow1 | conversion_test.go:231-234 | 2025-03-20 <-> 2460755 <-> 1403-12-30 |
| KernelTables.GregorianRow2 | conversion_test.go:235-238 | 2000-02-13 <-> 2451588 <-> 1378-11-24 |
| KernelTables.GregorianRow3 | conversion_test.go:239-242 | 1970-01-01 <-> 2440588 <-> 1348-10-11 |
| KernelTables.GregorianRow4 | conversion_test.go:243-246 | 1877-08-10 <-> 2406842 |
| KernelTables.GregorianRow5 | conversion_test.go:247-250 | 2024-07-01 <-> 2460493 |
| KernelTables.JulianReformDay | conversion.go:3-4 | the pre-reform JDN of 1582-10-04 is `gregorianReformJulianDay` (2299160), in both directions |
| KernelTables.GregorianReformDay | conversion.go:3-4 | the post-reform JDN of 1582-10-15 is 2299161, in both directions |
| KernelTables.ReformPredicateBoundary | conversion.go:7-9 | `isAfterGregorianReform` holds on 1582-10-15 and not on 1582-10-14 or 1582-10-04 |
| Names.MonthName | ptime.go:230-239 | `Month.String` always returns an entry of the month table |
| Names.DariMonthName | ptime.go:218-227 | `Month.Dari` always returns an entry of the Dari month table |
| Names.WeekdayName | ptime.go:242-251 | `Weekday.String` always returns an entry of the weekday table |
| Names.AmPmName | ptime.go:266-272 | `AmPm.String` always returns one of the two half-day names |
| Names.DayTimeName | ptime.go:287-296 | `DayTime.String` always returns an entry of the day-part table |
| Names.MonthNameLookup | ptime.go:230-239 | `Month.String` names the table entry at the month clamped into 1..12 |
| Names.DariMonthNameLookup | ptime.go:218-227 | `Month.Dari` names the Dari entry at the month clamped into 1..12 |
| Names.WeekdayNameLookup | ptime.go:242-263 | `Weekday.String` and `Weekday.Short` name the entry at the day clamped into 0..6 |
| Names.AmPmNameLookup | ptime.go:266-284 | `AmPm.String` is Am only for values <= 0; `AmPm.Short` clamps into 0..1 |
| Names.DayTimeNameLookup | ptime.go:287-296 | `DayTime.String` names the entry at the value clamped into 0..7 |
| Text.ItoaRoundTrip | ptime.go:1224-1253 | `strconv.Itoa` writes a sign only for negatives and reads back as its value |
| Text.ZeroPaddedRoundTrip | ptime.go:1226-1252 | `%0Nd` (and `%+0Nd`) write a sign and digits that read back as the value, exactly N long when shorter |
| Text.TrimRight | ptime.go:1257-1259 | `strings.TrimRight` with a one-character cutset drops exactly the trailing run of that character |
| Text.ReplaceHead | ptime.go:1221-1222 | a replacer substitutes the first matching pair (in argument order) at the head and continues after it |
| Text.ReplaceCopy | ptime.go:1221-1222 | a replacer copies a head that no pair matches |
| Text.ReplaceIdentity | ptime.go:1270-1271 | a replacer leaves unchanged a string in which none of its old strings occurs |
| TimeValues.Norm | ptime.go:411-423 | `norm` keeps hi*base+lo and leaves lo in 0..base-1, a negative lo included |
| TimeValues.NormDay | ptime.go:429-441 | `normDay` keeps hi*base+lo (`NormDayCarry` and `NormDayRange` say where the remainder lies) |
| TimeValues.NormDayCarry | ptime.go:429-441 | `normDay` keeps hi*base+lo; the remainder is lo%base, except that a multiple of base gives base (for lo == base, or lo == 0) or 0 |
| TimeValues.NormDayLow | ptime.go:430-434 | the truncating `(-lo-1)/base` leaves lo == base at lo == 0 |
| TimeValues.NormDayRange | ptime.go:425-441 | for lo in 1-base..2base-1, `normDay` gives a day in 1..base, not the comment's 0..base-1 |
| TimeValues.NormDayZero | ptime.go:429-441 | outside that window `normDay` can give day 0, e.g. (0, 62, 31) -> (2, 0) |
| TimeValues.CarryClock | ptime.go:455-459 | `Set`'s clock carry leaves every clock field in range and keeps the instant, counted in nanoseconds |
| TimeValues.CarryDate | ptime.go:461-477 | `Set`'s date carry leaves the month in 1..12 |
| TimeValues.CarryDateMonths | ptime.go:461-477 | a day that fits every month stays put, and only months carry into years (12y+m is kept) |
| TimeValues.CarryDateOfValid | ptime.go:461-477 | the date carry leaves a legal date unchanged |
| TimeValues.ClampDay | ptime.go:1310-1324 | `normDay()` clamps the day into its month, and leaves a legal day alone |
| TimeValues.Clamped | ptime.go:1281-1324 | `norm()` always leaves a normal value, and leaves a normal value unchanged |
| TimeValues.SetValue | ptime.go:450-489 | `Set` leaves every field in range and the date legal, with the given location |
| TimeValues.SetOfNormal | ptime.go:450-489 | `Set` of a normal value's own fields gives that value back, with only the weekday reset |
| TimeValues.SetValueFields | ptime.go:450-489 | with the clock in range, `Set` keeps the clock and stores the carried date with its day clamped |
| TimeValues.WithWeekday | ptime.go:1376-1378 | `resetWeekday` changes only the weekday, to one in 0..6 |
| TimeValues.NewValue | ptime.go:303-313 | `New` is the zero value before civil year 1097, and otherwise copies the clock and the location and stores a weekday in 0..6 |
| TimeValues.GetWeekday | ptime.go:1356-1374 | `getWeekday` maps Go's Sunday=0 to (wd+1) mod 7 (Saturday=0), and any other value to 0 |
| TimeValues.GoDate | ptime.go:336 | `time.Date` carries the month into the year and the clock into the day, leaving the clock in range, and keeps the location and the weekday |
| TimeValues.GoDateInRange | ptime.go:336 | on a month and a clock in range, `time.Date` carries nothing and only counts the day from the first of the month |
| TimeValues.GoDateKeeps | ptime.go:336 | `time.Date` returns a Gregorian date above year -4800 with a clock in range unchanged |
| TimeValues.GoDateCounts | ptime.go:336 | `time.Date` of any day from 1 on gives a Gregorian date with the same day count, so a day past the month's end lands in a later month |
| TimeValues.PostJdnLowerBound | conversion.go:27-49 | from year -4799 on, the Gregorian formula counts from JDN -32044 up |
| TimeValues.TimeOf | ptime.go:316-337 | `Time()` is `time.Date` of the civil date and the stored clock: the clock comes back in range, the location is kept, and nil becomes `time.Local` |
| TimeValues.SetTimeValue | ptime.go:373-400 | `SetTime` copies the clock and the zone and stores a weekday in 0..6 |
| TimeValues.CivilDateRoundTrip | ptime.go:316-400 | the kernel's half of the round trip: from year -1595 on, the civil date `Time()` computes is a date of the reformed calendar, and the conversion `SetTime` applies takes it back to the same Persian date |
| TimeValues.CivilDateIsGregorian | ptime.go:316-336 | the civil date `Time()` hands to `time.Date` lies above year -4800, and it is a Gregorian date exactly when it is not 29 February of a Julian-only leap year |
| TimeValues.CivilYearBound | conversion.go:117-140 | the civil date of a Persian date from year -1595 on lies above year -4800 |
| TimeValues.ShamsiDateRoundTrip | ptime.go:316-400 | a reformed-calendar date whose JDN is >= 1365393 survives `SetTime` then `Time()` |
| TimeValues.ReformGapShift | ptime.go:320-327 | Julian 1582-10-10 comes back from `Time()` as 1582-10-20 |
| TimeValues.SetTimeIsLegal | ptime.go:373-400 | `SetTime` stores a legal Persian date with the civil date's JDN |
| TimeValues.NewIsLegal | ptime.go:303-313 | `New` gives the (illegal) zero value before civil year 1097, and otherwise a legal date |
| TimeValues.TimeThenSetTime | ptime.go:316-400 | `SetTime(Time())`, with `time.Date` in between, gives back a normal value from year -1595 on whose civil date `time.Date` keeps: the same date and clock, nil read as Local, the weekday reset |
| TimeValues.TimeThenSetTimeJulianLeapDay | ptime.go:316-400 | Persian 878-12-19 is Julian 1500-02-29, which is no Gregorian date; `time.Date` moves it to 1500-03-01, and `SetTime` reads that back as 878-12-20 |
| TimeValues.JulianLeapDayTime | ptime.go:316-337 | `Time()` of a Persian date whose civil date is 1500-02-29 shows 1500-03-01 |
| TimeValues.JulianLeapDayCivil | ptime.go:319-327 | the civil date of Persian 878-12-19 is Julian 1500-02-29 |
| TimeValues.NotGregorianLeap1500 | conversion.go:27-49 | 1500 is not a Gregorian leap year, so 1500-02-29 is not a Gregorian date |
| TimeValues.JulianLeapDayMoved | ptime.go:336 | `time.Date` reads 1500-02-29 as 1500-03-01 |
| TimeValues.LeapDayCount | conversion.go:27-113 | the Gregorian day count gives 1500-02-29 the JDN of 1500-03-01 |
| TimeValues.JulianLeapDayBack | ptime.go:373-400 | `SetTime` reads 1500-03-01 as a Julian date, Persian 878-12-20 |
| TimeValues.SetTimeThenTime | ptime.go:316-400 | `Time()` after `SetTime` of a `time.Time` the platform can hold (a Gregorian date, a clock in range, a location) gives back its civil date, clock and location |
| TimeValues.AddDateValue | ptime.go:813-816 | `AddDate` always gives a normal value in the same location |
| TimeValues.TomorrowIsNextDay | ptime.go:803-805 | `Tomorrow` of a normal value is a legal date exactly one JDN later, with the same clock |
| TimeValues.TomorrowDate | ptime.go:803-805 | `Tomorrow` of a normal value is the calendar's next day, with the same clock |
| TimeValues.YesterdayIsPreviousDay | ptime.go:798-800 | `Yesterday` is one JDN earlier, except two JDNs earlier from Mehr 1 and from a common year's Esfand 1 |
| TimeValues.YesterdayDate | ptime.go:798-800 | `Yesterday` gives the old month's length clamped into the previous month |
| TimeValues.TomorrowYesterdayRows | ptime_test.go:137-154 | the test's day pairs, e.g. 1394-12-29 +1 = 1395-01-01 and 1395-12-29 +1 = 1395-12-30, with `Yesterday` undoing each |
| TimeValues.YesterdayOfMehrFirst | ptime.go:471-475 | `Yesterday` of 1394 Mehr 1 is Shahrivar 30, not 31 |
| TimeValues.NextDayJdn | ptime.go:803-805 | the day after a legal date is legal and one JDN later |
| TimeValues.PreviousDayJdn | ptime.go:798-800 | the date `Yesterday` reaches is legal, one or (after a longer month) two JDNs back |
| TimeValues.SetYearValue | ptime.go:492-496 | `SetYear` changes only the year, the day and the weekday, on any value; on a normal value the result is normal and the day changes only from Esfand 30 to 29 when the new year is not leap |
| TimeValues.SetMonthValue | ptime.go:499-504 | `SetMonth` changes only the month, clamped into 1..12, the day and the weekday, on any value; on a normal value the day is lowered to the month's length if needed |
| TimeValues.SetDayValue | ptime.go:507-511 | `SetDay` changes only the day and the weekday, on any value; on a normal value it clamps the day into 1..month length instead of carrying it |
| TimeValues.SetHourValue | ptime.go:514-517 | `SetHour` clamps into 0..23 and changes nothing else |
| TimeValues.SetMinuteValue | ptime.go:520-523 | `SetMinute` clamps into 0..59 and changes nothing else |
| TimeValues.SetSecondValue | ptime.go:526-529 | `SetSecond` clamps into 0..59 and changes nothing else |
| TimeValues.SetNanosecondValue | ptime.go:532-535 | `SetNanosecond` clamps into 0..999999999 and changes nothing else |
| TimeValues.AtValue | ptime.go:551-556 | `At` changes only the clock, stores a clock in range as given, and keeps a value normal |
| TimeValues.InValue | ptime.go:540-548 | `In` changes only the location and the weekday |
| TimeValues.DateValue | ptime.go:346-357 | `Date` gives a normal value with a non-nil location, the given one when it is not nil |
| TimeValues.YearDay | ptime.go:646-656 | `YearDay` of a legal date lies in 1..365, or 1..366 in a leap year |
| TimeValues.RYearDay | ptime.go:659-665 | `RYearDay` of a legal date lies in 0..365 |
| TimeValues.RMonthDay | ptime.go:673-690 | `RMonthDay` of a legal date lies in 0..30 |
| TimeValues.YearDayCountsDays | ptime.go:646-665 | `YearDay` is the 1-based day of the year and `RYearDay` the days left, both as the kernel counts JDNs |
| TimeValues.RMonthDayReachesMonthEnd | ptime.go:673-690 | `RMonthDay` days later is the month's last legal day |
| TimeValues.MehrSecondAccessors | ptime_test.go:381-411 | on 1394 Mehr 2, `YearDay` is 188, `RYearDay` is 177 and `RMonthDay` is 28 |
| TimeValues.Hour12 | ptime.go:604-610 | `Hour12` of an hour in 0..23 is hour mod 12, in 0..11 |
| TimeValues.ModifyHour | ptime.go:1326-1331 | `modifyHour` of a value in 0..max-1 is a face in 1..max showing the same value mod max |
| TimeValues.HourFaces | ptime.go:604-610 | `Hour12` is hour mod 12; `modifyHour` shows 1..12 and 1..24 faces of the same hour |
| TimeValues.AmPm | ptime.go:833-838 | `AmPm` is Am (0) or Pm (1) |
| TimeValues.AmPmAfterNoon | ptime.go:833-838 | `AmPm` is Pm iff the second of the day is past noon |
| TimeValues.DayTime | ptime.go:636-638 | `DayTime` of an hour in 0..23 is a day part in 0..7 |
| TimeValues.DayTimeParts | ptime.go:636-638 | `DayTime` is the three-hour part p with 3p <= hour < 3p+3 |
| TimeFormats.ZoneLayout | ptime.go:847-854 | `ZoneOffset` uses its first argument when it is a known layout, and "-07:00" otherwise |
| TimeFormats.ZoneOffset | ptime.go:847-882 | `ZoneOffset` writes "Z" exactly for a zero offset in a "Z" layout ("Z0700" or "Z07:00") |
| TimeFormats.ZoneOffsetReadsBack | ptime.go:847-882 | for the "-07:00" layout, the signed hours and the signed minutes read back as the offset |
| TimeFormats.CompactZoneOffsetReadsBack | ptime.go:847-882 | the same for the "-0700" layout |
| TimeFormats.ZoneOffsetRows | ptime.go:847-882 | +03:30 in each layout ("+0330", "+03", "+03:30"), and a zero offset as "+0000", "Z" and "+00:00" |
| TimeFormats.ZoneOffsetNegativeMinutes | ptime.go:871-881 | -03:30 prints as "-03:-30" and -00:30 as "+00:-30" |
| TimeFormats.WriteD2 | ptime.go:934-941 | `writeD2` writes at least two characters |
| TimeFormats.WriteD3 | ptime.go:942-953 | `writeD3` of a non-negative value writes at least three characters |
| TimeFormats.WriteD4 | ptime.go:954-967 | `writeD4` of a non-negative value writes at least four characters |
| TimeFormats.WriteD2Pads | ptime.go:934-941 | `writeD2` of a non-negative value is `%02d`, whose digits read back as the value |
| TimeFormats.WriteD3Pads | ptime.go:942-953 | `writeD3` of a non-negative value is `%03d`, whose digits read back as the value |
| TimeFormats.WriteD4Pads | ptime.go:954-967 | `writeD4` of a non-negative value is `%04d`, whose digits read back as the value |
| TimeFormats.TwoDigitYear | ptime.go:1124-1132 | "yy" always writes exactly two characters: the last two of the year's digits, or a zero-padded one |
| TimeFormats.Render | ptime.go:979-1144 | the text `Format` writes, one `Token` at a time; `TimeFormats.RenderPrefix` and `PTime.Time.Format` tie it to the loop |
| TimeFormats.Token | ptime.go:980-1144 | one step of `Format` consumes between 1 and all of the remaining characters |
| TimeFormats.RenderCopiesLiterals | ptime.go:1139-1142 | a template without token letters is copied verbatim |
| TimeFormats.RenderPrefix | ptime.go:979-1144 | one step of the loop keeps its invariant: output so far ++ `Render`(rest) == `Render`(template) |
| TimeFormats.RenderMonthDigits | ptime.go:1012-1026 | "MM" not followed by M or I writes the month with `writeD2` (longest match) |
| TimeFormats.RenderLongYear | ptime.go:1113-1120 | "yyyy" writes the year with `writeD4` |
| TimeFormats.RenderDateTimeAt | ptime.go:980-1144 | "yyyy/MM/dd HH:mm:ss" writes the six fields with their separators |
| TimeFormats.FormatReadsBack | ptime.go:980-1144 | on a normal value with a four-digit year, "yyyy/MM/dd HH:mm:ss" gives fixed-width digit fields that read back as the fields |
| TimeFormats.RenderDayMonthYear | ptime.go:980-1144 | "d MMM yyyy" / "d MMI yyyy" write the day, the Persian or Dari month name, and the year |
| TimeFormats.FormatDateRows | ptime_test.go:607-633 | at the test instant, "d MMM yyyy" is "2 مهر 1394" and "d MMI yyyy" is "2 میزان 1394" |
| TimeFormats.FormatYearRows | ptime.go:1113-1135 | at the test instant, yyyy/yyy/y give "1394" and yy gives "94" |
| TimeFormats.FormatMonthDayRows | ptime.go:1012-1054 | at the test instant, MM "07", M "7", dd "02", d "2" |
| TimeFormats.FormatHourRows | ptime.go:996-1073 | at 12 o'clock, HH, H, kk and k all give "12" |
| TimeFormats.FormatHalfDayRows | ptime.go:1004-1065 | at 12 o'clock, hh and h give "12"; KK gives "00" and K gives "0" |
| TimeFormats.FormatFractionRows | ptime.go:1035-1089 | at the test instant, S is "050" and ns is "50260050" |
| TimeFormats.FormatZoneRow | ptime.go:1041-1043 | Z writes Iran's offset as "+03:30" |
| TimeLayouts.Initializer | ptime.go:1185-1219 | the first replacer has 33 pairs, each with a non-empty layout element and a placeholder of the form "{...}" |
| TimeLayouts.LocMonthName | ptime.go:1274-1279 | `locMonthName` is a Dari month name in Asia/Kabul and a Persian one elsewhere |
| TimeLayouts.TimeFormatText | ptime.go:1184-1272 | the two passes of `TimeFormat`; `TimeLayoutFacts.TimeFormatElement` and `TimeLayoutFacts.LayoutTestTable` state what they write |
| TimeLayouts.Params | ptime.go:1234-1269 | the second replacer has 33 placeholder pairs, each with its text |
| TimeLayoutFacts.TablesIsolated | ptime.go:1185-1269 | both replacers reach every layout element and every placeholder before any other one matches it |
| TimeLayoutFacts.TimeFormatElement | ptime.go:1184-1272 | a format that is one layout element writes the text of its placeholder |
| TimeLayoutFacts.FirstPassCopy | ptime.go:1221-1222 | the first pass copies a character that starts no layout element |
| TimeLayoutFacts.TimeFormatDayMonthYear | ptime.go:1184-1279 | "2 Jan 2006" writes the day, the zone's month name and the year |
| TimeLayoutFacts.TimeFormatZoneMonthNames | ptime_test.go:636-652 | 1394 Mehr 2 as "2 Jan 2006" is "2 مهر 1394" in Asia/Tehran and "2 میزان 1394" in Asia/Kabul |
| TimeLayoutFacts.LayoutTestTrims | ptime.go:1257-1259 | the trimmed fractions of 52065090 are ".5206509", ".52065" and ".52" |
| TimeLayoutFacts.LayoutTestTable | ptime_test.go:655-688 | at the test instant, every layout of the test table writes the expected text |
| PTime.Time.NormNanosecond | ptime.go:1290-1292 | clamps nsec into 0..999999999; the other fields stay |
| PTime.Time.NormSecond | ptime.go:1294-1296 | clamps sec into 0..59; the other fields stay |
| PTime.Time.NormMinute | ptime.go:1298-1300 | clamps min into 0..59; the other fields stay |
| PTime.Time.NormHour | ptime.go:1302-1304 | clamps hour into 0..23; the other fields stay |
| PTime.Time.NormMonth | ptime.go:1306-1308 | clamps month into 1..12; the other fields stay |
| PTime.Time.NormDay | ptime.go:1310-1324 | clamps day into its month's length by the leap column; the month field is not changed |
| PTime.Time.Norm | ptime.go:1281-1288 | the new state is `Clamped` of the old one, which is normal |
| PTime.Time.ResetWeekday | ptime.go:1376-1378 | the weekday becomes `getWeekday` of the platform weekday |
| PTime.Time.Set | ptime.go:450-489 | the new state is `SetValue` of the arguments: normal, with the given location (nil excluded) |
| PTime.Time.SetYear | ptime.go:492-496 | the new state is `SetYearValue` |
| PTime.Time.SetMonth | ptime.go:499-504 | the new state is `SetMonthValue` |
| PTime.Time.SetDay | ptime.go:507-511 | the new state is `SetDayValue` |
| PTime.Time.SetHour | ptime.go:514-517 | the new state is `SetHourValue` |
| PTime.Time.SetMinute | ptime.go:520-523 | the new state is `SetMinuteValue` |
| PTime.Time.SetSecond | ptime.go:526-529 | the new state is `SetSecondValue` |
| PTime.Time.SetNanosecond | ptime.go:532-535 | the new state is `SetNanosecondValue` |
| PTime.Time.At | ptime.go:551-556 | the new state is `AtValue` |
| PTime.Time.SetTime | ptime.go:373-400 | the new state is `SetTimeValue(ti)` |
| PTime.Time.ToTime | ptime.go:316-337 | returns `TimeOf` of the current state: `time.Date` (`GoDate`) of the civil date and the clock |
| PTime.Time.AddDate | ptime.go:813-816 | returns `AddDateValue`, which is normal; the receiver is unchanged |
| PTime.Time.Tomorrow | ptime.go:803-805 | returns `TomorrowValue` of the current state |
| PTime.Time.Yesterday | ptime.go:798-800 | returns `YesterdayValue` of the current state |
| PTime.Time.In | ptime.go:540-548 | returns `InValue` of the current state |
| PTime.Time.Format | ptime.go:922-1147 | the loop returns `Render` of the template; an empty template gives "" |
| PTime.Time.FormatStep | ptime.go:986-1143 | one pass of the loop body returns the `Token` at position i |
| PTime.New | ptime.go:303-313 | a fresh `Time` whose state is `NewValue(ti)` |
| PTime.Date | ptime.go:346-357 | a fresh `Time` whose state is `DateValue` of the arguments |

## Left out

- The platform's time facility: `Now`, `Unix`, `SetUnix`, `UnixNano`, `Add(time.Duration)`, `Since` and the `Zone()` offset lookup. The zone offset, the zone name and the Go weekday of a civil date are inputs (`Env.offset`, `Location`, `weekdayOf`).
- `Iran()` and `Afghanistan()` load locations from the platform. Here they are fixed zones named Asia/Tehran and Asia/Kabul.
- `MonthWeek`, `YearWeek` and `RYearWeek` use `math.Ceil` on float64. Their values are inputs (`Env.monthWeek`, `Env.yearWeek`). `Since` uses `math.Abs` on float64.
- `Before`, `After`, `Equal` and `Compare` are called by the tests, but they are not defined in ptime.go.
- The field getters (`Year`, `Month`, `Day`, `Hour`, `Minute`, `Second`, `Nanosecond`, `Location`, `Weekday`, `Date`, `Clock`, `IsZero`, `IsLeap`) are not modelled; each reads fields or calls `isLeap`. The week, month and year boundary helpers (`BeginningOfWeek`, `FirstWeekDay`, `LastWeekday`, `BeginningOfMonth`, `FirstMonthDay`, `LastMonthDay`, `BeginningOfYear`, `FirstYearDay`, `LastYearDay`) are not modelled either; each is `AddDate` or `Date` with fixed arguments.
- `String` is `Format` with the fixed template "yyyy-MM-ddTHH:mm:ss.nsZ". Its output follows from `Render`, but it is not stated as a lemma of its own.
- pcalendar/pcalendar.go, pdate/pdate.go and ptime/ptime.go are unfinished stubs that do not compile. ptime/ttt/ttt.go is a program that prints. None of them is part of this model.
- Templates of `Format` and `TimeFormat` are sequences of code points, not bytes. The default branch of `Format` decodes UTF-8 (ptime.go:1140); every token letter is ASCII, so the output is the same.
- Integers are unbounded. Go's 64-bit overflow is not modelled.
- PTime.Time.Set: the source panics on a nil location; the model makes a non-nil location a precondition. The same holds for `AddDate`, `Tomorrow`, `Yesterday` and `In`.
- ShamsiKernel.ShamsiRoundTrip: proved for years from -1595 on (JDN 1365393). Below that the truncating division of negative dividends breaks the cycle arithmetic.
- GregorianKernel.PostReformRoundTrip: proved for years above -4800, where every dividend of the formula is non-negative.
- GregorianKernel.PreReformRoundTrip: proved from year -4712 (JDN 0) on.
- TimeValues.TimeOf: `time.Date` (`GoDate`) does not model the shift of a wall-clock time that a daylight-saving transition in `loc` skips or repeats; its day count uses the kernel's Gregorian formula, which counts days for years above -4800 only.
- TimeValues.TimeThenSetTime: proved for normal values from year -1595 on whose civil date is a Gregorian date. On Julian 29 February of 1500, 1400, 1300, ... the round trip moves the date one day on (`TimeThenSetTimeJulianLeapDay`).
- TimeValues.AddDateValue: states only that the result is normal. `Set` carries days by the starting month's length and then clamps, so `AddDate` is not exact JDN arithmetic. `TomorrowIsNextDay` and `YesterdayIsPreviousDay` state the one-day case exactly.
- TimeFormats.FormatDateRows: the test's long combined template (ptime_test.go:607-633) is proved token by token (the `Format*Rows` lemmas and `RenderPrefix`), not as one string.
