/**
 * The name tables of ptime.go and the lookups that read them. Every lookup
 * clamps its index into the table instead of failing, so a zero or
 * otherwise out-of-range `Time` can still be printed.
 */
module Names {
  import opened Calendar

  /** `months`: the Persian month names, Farvardin first. */
  const Months: seq<string> := [
    "فروردین", // Farvardin,
    "اردیبهشت", // Ordibehesht,
    "خرداد", // Khordad,
    "تیر", // Tir,
    "مرداد", // Mordad,
    "شهریور", // Shahrivar,
    "مهر", // Mehr,
    "آبان", // Aban,
    "آذر", // Azar,
    "دی", // Dey,
    "بهمن", // Bahman,
    "اسفند"  // Esfand
  ]

  /** `dmonths`: the Dari month names used in Afghanistan, Hamal first. */
  const DariMonths: seq<string> := [
    "حمل", // Hamal,
    "ثور", // Sur,
    "جوزا", // Jauza,
    "سرطان", // Saratan,
    "اسد", // Asad,
    "سنبله", // Sonboleh,
    "میزان", // Mizan,
    "عقرب", // Aqrab,
    "قوس", // Qos,
    "جدی", // Jady,
    "دلو", // Dolv,
    "حوت"  // Hut
  ]

  /** `days`: the weekday names, Shanbeh (Saturday) first. */
  const Days: seq<string> := [
    "شنبه", // Shanbeh,
    "یک\U{200C}شنبه", // Yekshanbeh,
    "دوشنبه", // Doshanbeh,
    "سه\U{200C}شنبه", // Seshanbeh,
    "چهارشنبه", // Charshanbeh,
    "پنج\U{200C}شنبه", // Panjshanbeh,
    "جمعه"  // Jomeh
  ]

  /** `sdays`: one-letter weekday names. */
  const ShortDays: seq<string> := [
    "ش",
    "ی",
    "د",
    "س",
    "چ",
    "پ",
    "ج"
  ]

  /** `amPm`: before noon, after noon. */
  const AmPmNames: seq<string> := [
    "قبل از ظهر",
    "بعد از ظهر"
  ]

  /** `sAmPm`: the abbreviated markers. */
  const ShortAmPmNames: seq<string> := [
    "ق.ظ",
    "ب.ظ"
  ]

  /** `daytimes`: the eight three-hour parts of the day, Midnight first. */
  const DayTimes: seq<string> := [
    "نیمه\U{200C}شب", // Midnight,
    "سحر", // Dawn,
    "صبح", // Morning,
    "قبل از ظهر", // BeforeNoon,
    "ظهر", // Noon,
    "بعد از ظهر", // AfterNoon,
    "عصر", // Evening,
    "شب"  // Night
  ]

  /** `Month.String`: months below 1 read as Farvardin, above 11 as Esfand. */
  function MonthName(m: int): (r: string)
    ensures r in Months
  {
    if m < 1 then Months[0] else if m > 11 then Months[11] else Months[m - 1]
  }

  /** `Month.Dari`, clamped like `MonthName`. */
  function DariMonthName(m: int): (r: string)
    ensures r in DariMonths
  {
    if m < 1 then DariMonths[0] else if m > 11 then DariMonths[11] else DariMonths[m - 1]
  }

  /** `Weekday.String`, clamped into Shanbeh..Jomeh. */
  function WeekdayName(d: int): (r: string)
    ensures r in Days
  {
    if d < 0 then Days[0] else if d > 6 then Days[6] else Days[d]
  }

  /** `Weekday.Short`, clamped like `WeekdayName`. */
  function WeekdayShort(d: int): string
  {
    if d < 0 then ShortDays[0] else if d > 6 then ShortDays[6] else ShortDays[d]
  }

  /** `AmPm.String`: everything above Am reads as Pm. */
  function AmPmName(a: int): (r: string)
    ensures r in AmPmNames
  {
    if a <= 0 then AmPmNames[0] else AmPmNames[1]
  }

  /** `AmPm.Short`, clamped into Am..Pm. */
  function AmPmShort(a: int): string
  {
    if a < 0 then ShortAmPmNames[0] else if a > 1 then ShortAmPmNames[1] else ShortAmPmNames[a]
  }

  /** `DayTime.String`, clamped into Midnight..Night. */
  function DayTimeName(d: int): (r: string)
    ensures r in DayTimes
  {
    if d < 0 then DayTimes[0] else if d > 7 then DayTimes[7] else DayTimes[d]
  }

  /** The first position from `i` on where `table` holds `name`, `|table|` when there is none. */
  function IndexFrom(table: seq<string>, name: string, i: nat): (k: nat)
    requires i <= |table|
    ensures i <= k <= |table|
    ensures k < |table| ==> table[k] == name
    ensures forall j :: i <= j < k ==> table[j] != name
    decreases |table| - i
  {
    if i == |table| then i else if table[i] == name then i else IndexFrom(table, name, i + 1)
  }

  /** The position of `name` in `table`, `|table|` when it is not there. */
  function IndexOf(table: seq<string>, name: string): (k: nat)
    ensures k <= |table|
    ensures k < |table| ==> table[k] == name
    ensures forall j :: 0 <= j < k ==> table[j] != name
  {
    IndexFrom(table, name, 0)
  }

  /**
   * Each lookup names the table entry at its index clamped into the table,
   * and different entries have different names, so the name gives the
   * clamped index back.
   */
  lemma MonthNameLookup(m: int)
    ensures IndexOf(Months, MonthName(m)) == Between(m, 1, 12) - 1
  {
    if m <= 6 {
      if m <= 1 {} else if m == 2 {} else if m == 3 {} else if m == 4 {} else if m == 5 {} else {}
    } else {
      if m == 7 {} else if m == 8 {} else if m == 9 {} else if m == 10 {} else if m == 11 {} else {}
    }
  }

  lemma DariMonthNameLookup(m: int)
    ensures IndexOf(DariMonths, DariMonthName(m)) == Between(m, 1, 12) - 1
  {
    if m <= 6 {
      if m <= 1 {} else if m == 2 {} else if m == 3 {} else if m == 4 {} else if m == 5 {} else {}
    } else {
      if m == 7 {} else if m == 8 {} else if m == 9 {} else if m == 10 {} else if m == 11 {} else {}
    }
  }

  lemma WeekdayNameLookup(d: int)
    ensures IndexOf(Days, WeekdayName(d)) == Between(d, 0, 6)
    ensures IndexOf(ShortDays, WeekdayShort(d)) == Between(d, 0, 6)
  {
  }

  lemma AmPmNameLookup(a: int)
    ensures IndexOf(AmPmNames, AmPmName(a)) == (if a <= 0 then 0 else 1)
    ensures IndexOf(ShortAmPmNames, AmPmShort(a)) == Between(a, 0, 1)
  {
  }

  lemma DayTimeNameLookup(d: int)
    ensures IndexOf(DayTimes, DayTimeName(d)) == Between(d, 0, 7)
  {
  }
}
