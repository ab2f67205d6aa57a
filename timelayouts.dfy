/**
 * `TimeFormat` of ptime.go: Go's reference layout ("2006", "Jan", "15",
 * ".000", "-07:00", ...) rewritten in two passes of a `strings.Replacer`,
 * first each layout element to a placeholder in braces, then each
 * placeholder to its text.
 */
module TimeLayouts {
  import opened GoInt
  import opened Calendar
  import opened Text
  import opened Names
  import opened TimeValues
  import opened TimeFormats

  /** The layout elements of the first replacer of `TimeFormat`, in argument order. */
  function LayoutElement(k: int): (r: string)
    ensures |r| > 0
  {
    match k
    case 0 => "January" case 1 => "Jan" case 2 => "Monday" case 3 => "Mon" case 4 => "Morning"
    case 5 => ".000000000" case 6 => ".000000" case 7 => ".000"
    case 8 => ".999999999" case 9 => ".999999" case 10 => ".999"
    case 11 => "2006" case 12 => "PM" case 13 => "pm" case 14 => "MST"
    case 15 => "Z0700" case 16 => "Z07:00" case 17 => "-0700" case 18 => "-07:00" case 19 => "-07"
    case 20 => "15" case 21 => "06" case 22 => "01" case 23 => "02" case 24 => "03" case 25 => "04" case 26 => "05"
    case 27 => "_2" case 28 => "1" case 29 => "2" case 30 => "3" case 31 => "4" case _ => "5"
  }

  /** Which `ParamKey` the first replacer puts for `LayoutElement(k)`. */
  function PlaceholderIndex(k: int): nat
  {
    match k
    case 0 => 2 case 1 => 3 case 2 => 9 case 3 => 10 case 4 => 11
    case 5 => 19 case 6 => 20 case 7 => 21 case 8 => 22 case 9 => 23 case 10 => 24
    case 11 => 0 case 12 => 25 case 13 => 26 case 14 => 27
    case 15 => 28 case 16 => 29 case 17 => 30 case 18 => 31 case 19 => 32
    case 20 => 12 case 21 => 1 case 22 => 4 case 23 => 6 case 24 => 13 case 25 => 15 case 26 => 17
    case 27 => 7 case 28 => 5 case 29 => 8 case 30 => 14 case 31 => 16 case _ => 18
  }

  /** The placeholders of the second replacer of `TimeFormat`, in argument order. */
  function ParamKey(j: int): (r: string)
    ensures |r| >= 3 && r[0] == '{' && r[|r| - 1] == '}'
  {
    match j
    case 0 => "{YYYY}" case 1 => "{YY}" case 2 => "{MMMM}" case 3 => "{MMM}" case 4 => "{MM}" case 5 => "{M}"
    case 6 => "{DD}" case 7 => "{_D}" case 8 => "{D}" case 9 => "{WD}" case 10 => "{W}" case 11 => "{n}"
    case 12 => "{HH}" case 13 => "{hh}" case 14 => "{h}" case 15 => "{mm}" case 16 => "{m}"
    case 17 => "{ss}" case 18 => "{s}" case 19 => "{ns}" case 20 => "{ms}" case 21 => "{mls}"
    case 22 => "{nst}" case 23 => "{mst}" case 24 => "{mlst}" case 25 => "{AFTER}" case 26 => "{after}"
    case 27 => "{LOC}" case 28 => "{Z0700}" case 29 => "{Z07:00}" case 30 => "{-0700}" case 31 => "{-07:00}"
    case _ => "{-07}"
  }

  /** The first replacer of `TimeFormat`: each layout element to its placeholder, in argument order. */
  function Initializer(): (r: Pairs)
    ensures |r| == 33 && NonEmptyKeys(r)
    ensures forall k :: 0 <= k < |r| ==> |r[k].1| >= 3 && r[k].1[0] == '{'
  {
    seq(33, k => (LayoutElement(k), ParamKey(PlaceholderIndex(k))))
  }

  /** The nanoseconds as `TimeFormat` writes them: `strconv.Itoa`, or `%06d` when that is shorter than six. */
  function NsecText(nsec: int): (r: string)
    ensures |r| >= 6
  {
    var s := Itoa(nsec);
    if |s| < 6 then ZeroPaddedRoundTrip(nsec, 6, false); FormatDecimal(nsec, 6, false, true) else s
  }

  /** The year as `TimeFormat` writes it: `strconv.Itoa`, or `%04d` when that is shorter than four. */
  function YearText(year: int): (r: string)
    ensures |r| >= 4
  {
    var s := Itoa(year);
    if |s| < 4 then ZeroPaddedRoundTrip(year, 4, false); FormatDecimal(year, 4, false, true) else s
  }

  /** `locMonthName`: the Dari month name in Afghanistan's zone, the Persian one elsewhere. */
  function LocMonthName(t: TimeValue): (r: string)
    ensures LocationName(t.loc) == "Asia/Kabul" ==> r in DariMonths
    ensures LocationName(t.loc) != "Asia/Kabul" ==> r in Months
  {
    if LocationName(t.loc) == "Asia/Kabul" then DariMonthName(t.month) else MonthName(t.month)
  }

  /** The text that replaces the placeholder `ParamKey(j)`. */
  function ParamValue(t: TimeValue, env: Env, j: int): string
  {
    if j < 12 then DateValue(t, j)
    else if j < 19 then ClockValue(t, j)
    else if j < 25 then FractionValue(t.nsec, j)
    else NameZoneValue(t, env, j)
  }

  /** The texts of the placeholders for the year, the month, the day and the names of the day. */
  function DateValue(t: TimeValue, j: int): string
  {
    var year := YearText(t.year);
    match j
    case 0 => year
    case 1 => year[2..]
    case 2 => LocMonthName(t)
    case 3 => LocMonthName(t)
    case 4 => FormatDecimal(t.month, 2, false, true)
    case 5 => Itoa(t.month)
    case 6 => FormatDecimal(t.day, 2, false, true)
    case 7 => FormatDecimal(t.day, 2, false, false)
    case 8 => Itoa(t.day)
    case 9 => WeekdayName(t.wday)
    case 10 => WeekdayShort(t.wday)
    case _ => DayTimeName(DayTime(t))
  }

  /** The texts of the placeholders for the hour, the minute and the second. */
  function ClockValue(t: TimeValue, j: int): string
  {
    match j
    case 12 => FormatDecimal(t.hour, 2, false, true)
    case 13 => FormatDecimal(Hour12(t), 2, false, true)
    case 14 => Itoa(Hour12(t))
    case 15 => FormatDecimal(t.min, 2, false, true)
    case 16 => Itoa(t.min)
    case 17 => FormatDecimal(t.sec, 2, false, true)
    case _ => Itoa(t.sec)
  }

  /** The texts of the placeholders for the fraction of a second. */
  function FractionValue(nsec: int, j: int): string
  {
    var digits := NsecText(nsec);
    match j
    case 19 => "." + digits
    case 20 => "." + digits[..6]
    case 21 => "." + digits[..3]
    case 22 => TrimRight("." + digits, '0')
    case 23 => TrimRight("." + digits[..6], '0')
    case _ => TrimRight("." + digits[..3], '0')
  }

  /** The texts of the placeholders for the half of the day, the zone name and the zone offset. */
  function NameZoneValue(t: TimeValue, env: Env, j: int): string
  {
    match j
    case 25 => AmPmName(AmPm(t))
    case 26 => AmPmShort(AmPm(t))
    case 27 => LocationName(t.loc)
    case 28 => ZoneOffset(env.offset, ["Z0700"])
    case 29 => ZoneOffset(env.offset, ["Z07:00"])
    case 30 => ZoneOffset(env.offset, ["-0700"])
    case 31 => ZoneOffset(env.offset, ["-07:00"])
    case _ => ZoneOffset(env.offset, ["-07"])
  }

  /** `key` is a prefix of `s` when `s` has each of its characters in place. */
  lemma PrefixByChars(s: string, key: string)
    requires |key| <= |s| && forall p :: 0 <= p < |key| ==> s[p] == key[p]
    ensures HasPrefix(s, key)
  {
    assert s[..|key|] == key;
  }

  /** The second replacer of `TimeFormat`: each placeholder with its text. */
  function Params(t: TimeValue, env: Env): (r: Pairs)
    ensures |r| == 33 && NonEmptyKeys(r)
    ensures forall j :: 0 <= j < |r| ==> r[j] == (ParamKey(j), ParamValue(t, env, j))
  {
    seq(33, j => (ParamKey(j), ParamValue(t, env, j)))
  }

  /** Every placeholder opens with a brace, so none is empty. */
  lemma ParamsKeys(t: TimeValue, env: Env)
    ensures |Params(t, env)| == 33 && NonEmptyKeys(Params(t, env))
    ensures forall j :: 0 <= j < |Params(t, env)| ==> Params(t, env)[j].0[0] == '{'
  {
  }

  /** `TimeFormat`: layout elements to placeholders, then placeholders to text. */
  function TimeFormatText(t: TimeValue, env: Env, format: string): string
  {
    ParamsKeys(t, env);
    Replace(Params(t, env), Replace(Initializer(), format))
  }

  /** `key` is longer than `s`, or the two differ somewhere in their first five characters. */
  predicate Differs(s: string, key: string)
  {
    if |key| > |s| then true
    else if |key| == 0 then false
    else if s[0] != key[0] then true
    else if |key| == 1 then false
    else if s[1] != key[1] then true
    else if |key| == 2 then false
    else if s[2] != key[2] then true
    else if |key| == 3 then false
    else if s[3] != key[3] then true
    else |key| > 4 && s[4] != key[4]
  }

  /** An old string whose first character is not that of `s` does not match at its head. */
  lemma HeadMismatch(s: string, key: string)
    requires |s| > 0 && |key| > 0 && key[0] != s[0]
    ensures !HasPrefix(s, key)
  {
    if |key| <= |s| {
      assert s[..|key|][0] == s[0];
    }
  }

  /** A key that differs from `s` is not a prefix of it. */
  lemma DiffersMisses(s: string, key: string)
    requires Differs(s, key)
    ensures !HasPrefix(s, key)
  {
    if |key| <= |s| {
      var head := s[..|key|];
      assert forall p :: 0 <= p < |key| ==> head[p] == s[p];
    }
  }
}
