/**
 * The `Time` struct of ptime.go as the Go code uses it through pointer
 * receivers: a class whose fields `Set`, `SetTime`, the setters, `At` and
 * the `norm*` helpers update in place. Each method is specified by the
 * function on values in module TimeValues (or TimeFormats) that says what
 * the new state, or the result, is; the properties of those functions are
 * proved there.
 *
 * The value-receiver operations that copy a `Time` and return the copy
 * (`AddDate`, `Tomorrow`, `Yesterday`, `In`) copy the fields into a fresh
 * object, change that one and return its value, so the receiver is left
 * as it was.
 */
module PTime {
  import opened Calendar
  import C = Conversion
  import opened TV = TimeValues
  import opened TimeFormats
  import opened Text
  import opened Names
  import GoInt

  class Time {
    var year: int
    var month: int
    var day: int
    var hour: int
    var min: int
    var sec: int
    var nsec: int
    var loc: Location
    var wday: int

    /** The fields, in the order of the struct. */
    function Value(): TimeValue
      reads this
    {
      TimeValue(year, month, day, hour, min, sec, nsec, loc, wday)
    }

    /** `new(Time)`: the zero value. */
    constructor Zero()
      ensures Value() == ZeroValue
    {
      year, month, day := 0, 0, 0;
      hour, min, sec, nsec := 0, 0, 0, 0;
      loc, wday := Nil, 0;
    }

    /** The copy of a `Time` that a value receiver works on. */
    constructor Copy(v: TimeValue)
      ensures Value() == v
    {
      year, month, day := v.year, v.month, v.day;
      hour, min, sec, nsec := v.hour, v.min, v.sec, v.nsec;
      loc, wday := v.loc, v.wday;
    }

    // -------------------------------------------------------------------
    // The clamps of `norm()`

    /** `normNanosecond`: `between(&t.nsec, 0, 999999999)`. */
    method NormNanosecond()
      modifies this
      ensures Value() == old(Value()).(nsec := Between(old(nsec), 0, 999999999))
    {
      if nsec < 0 {
        nsec := 0;
      } else if nsec > 999999999 {
        nsec := 999999999;
      }
    }

    /** `normSecond`: `between(&t.sec, 0, 59)`. */
    method NormSecond()
      modifies this
      ensures Value() == old(Value()).(sec := Between(old(sec), 0, 59))
    {
      if sec < 0 {
        sec := 0;
      } else if sec > 59 {
        sec := 59;
      }
    }

    /** `normMinute`: `between(&t.min, 0, 59)`. */
    method NormMinute()
      modifies this
      ensures Value() == old(Value()).(min := Between(old(min), 0, 59))
    {
      if min < 0 {
        min := 0;
      } else if min > 59 {
        min := 59;
      }
    }

    /** `normHour`: `between(&t.hour, 0, 23)`. */
    method NormHour()
      modifies this
      ensures Value() == old(Value()).(hour := Between(old(hour), 0, 23))
    {
      if hour < 0 {
        hour := 0;
      } else if hour > 23 {
        hour := 23;
      }
    }

    /** `normMonth`: `betweenMonth(&t.month, Farvardin, Esfand)`. */
    method NormMonth()
      modifies this
      ensures Value() == old(Value()).(month := Between(old(month), 1, 12))
    {
      if month < 1 {
        month := 1;
      } else if month > 12 {
        month := 12;
      }
    }

    /**
     * `normDay`: the day clamped into `1..pMonthCount[m][i]`, where `m` is
     * the month index clamped into `0..11` and `i` the leap column of the
     * year; the month field itself is not changed.
     */
    method NormDay()
      modifies this
      ensures Value() == old(Value()).(day := ClampDay(old(year), old(month), old(day)))
    {
      var i := 0;
      if IsLeap(year) {
        i := 1;
      }
      var m := month - 1;
      if m < 0 {
        m := 0;
      } else if m > 11 {
        m := 11;
      }
      var last := if i == 0 then MonthCount[m].0 else MonthCount[m].1;
      if day < 1 {
        day := 1;
      } else if day > last {
        day := last;
      }
    }

    /** `norm()`: every field clamped into its range, in the order of the source. */
    method Norm()
      modifies this
      ensures Value() == Clamped(old(Value()))
      ensures IsNormal(Value())
    {
      NormNanosecond();
      NormSecond();
      NormMinute();
      NormHour();
      NormMonth();
      NormDay();
    }

    /** `resetWeekday`: the platform weekday of `Time()`, renumbered by `getWeekday`. */
    method ResetWeekday(weekdayOf: WeekdayOf)
      modifies this
      ensures Value() == WithWeekday(old(Value()), weekdayOf)
    {
      wday := GetWeekday(weekdayOf(C.Date(year, month, day)));
    }

    // -------------------------------------------------------------------
    // Set and the setters

    /**
     * `Set`: the clock carried nanoseconds first, up into days; the month
     * carried into the year; the day carried by the length of that month
     * alone; the month carried again; then the weekday reset and `norm()`.
     * The source panics on a nil location.
     */
    method Set(year: int, month: int, day: int, hour: int, min: int, sec: int, nsec: int,
               loc: Location, weekdayOf: WeekdayOf)
      requires loc != Nil
      modifies this
      ensures Value() == SetValue(year, month, day, hour, min, sec, nsec, loc, weekdayOf)
      ensures IsNormal(Value()) && this.loc == loc
    {
      var r := TV.Norm(sec, nsec, 1000000000);
      var s, ns := r.0, r.1;
      r := TV.Norm(min, s, 60);
      var mi := r.0;
      s := r.1;
      r := TV.Norm(hour, mi, 60);
      var h := r.0;
      mi := r.1;
      r := TV.Norm(day, h, 24);
      var d := r.0;
      h := r.1;
      assert (d, h, mi, s, ns) == CarryClock(day, hour, min, sec, nsec);

      r := TV.Norm(year, month - 1, 12);
      var y, m := r.0, r.1;
      if m < 0 {
        m := 0;
      } else if m > 11 {
        m := 11;
      }
      var d0 := d;
      if IsLeap(y) {
        r := TV.NormDay(m, d, MonthCount[m].1);
      } else {
        r := TV.NormDay(m, d, MonthCount[m].0);
      }
      m, d := r.0, r.1;
      r := TV.Norm(y, m, 12);
      y, m := r.0, r.1;
      var date := C.Date(y, m + 1, d);
      assert date == CarryDate(year, month, d0);

      this.year, this.month, this.day := date.year, date.month, date.day;
      this.hour, this.min, this.sec, this.nsec := h, mi, s, ns;
      this.loc := loc;
      assert WithWeekday(Value(), weekdayOf)
          == WithWeekday(TimeValue(date.year, date.month, date.day, h, mi, s, ns, loc, 0), weekdayOf);
      ResetWeekday(weekdayOf);
      Norm();
    }

    /** `SetYear`: the year replaced, the day clamped into its month, the weekday reset. */
    method SetYear(year: int, weekdayOf: WeekdayOf)
      modifies this
      ensures Value() == SetYearValue(old(Value()), year, weekdayOf)
    {
      this.year := year;
      NormDay();
      ResetWeekday(weekdayOf);
    }

    /** `SetMonth`: the month clamped into Farvardin..Esfand, the day clamped into it, the weekday reset. */
    method SetMonth(month: int, weekdayOf: WeekdayOf)
      modifies this
      ensures Value() == SetMonthValue(old(Value()), month, weekdayOf)
    {
      this.month := month;
      NormMonth();
      NormDay();
      ResetWeekday(weekdayOf);
    }

    /** `SetDay`: the day clamped into the month, the weekday reset. */
    method SetDay(day: int, weekdayOf: WeekdayOf)
      modifies this
      ensures Value() == SetDayValue(old(Value()), day, weekdayOf)
    {
      this.day := day;
      NormDay();
      ResetWeekday(weekdayOf);
    }

    /** `SetHour`: the hour clamped into 0..23. */
    method SetHour(hour: int)
      modifies this
      ensures Value() == SetHourValue(old(Value()), hour)
    {
      this.hour := hour;
      NormHour();
    }

    /** `SetMinute`: the minute clamped into 0..59. */
    method SetMinute(min: int)
      modifies this
      ensures Value() == SetMinuteValue(old(Value()), min)
    {
      this.min := min;
      NormMinute();
    }

    /** `SetSecond`: the second clamped into 0..59. */
    method SetSecond(sec: int)
      modifies this
      ensures Value() == SetSecondValue(old(Value()), sec)
    {
      this.sec := sec;
      NormSecond();
    }

    /** `SetNanosecond`: the nanosecond clamped into 0..999999999. */
    method SetNanosecond(nsec: int)
      modifies this
      ensures Value() == SetNanosecondValue(old(Value()), nsec)
    {
      this.nsec := nsec;
      NormNanosecond();
    }

    /** `At`: `SetHour`, `SetMinute`, `SetSecond`, `SetNanosecond` in turn. */
    method At(hour: int, min: int, sec: int, nsec: int)
      modifies this
      ensures Value() == AtValue(old(Value()), hour, min, sec, nsec)
    {
      SetHour(hour);
      SetMinute(min);
      SetSecond(sec);
      SetNanosecond(nsec);
    }

    // -------------------------------------------------------------------
    // Between the calendars

    /**
     * `SetTime`: the clock, the zone and the weekday of `ti`, and the
     * Persian date of the JDN of its civil date, read by the Gregorian
     * formula after 14 October 1582 and by the Julian one before.
     */
    method SetTime(ti: GoTime)
      modifies this
      ensures Value() == SetTimeValue(ti)
    {
      nsec, sec, min, hour := ti.nsec, ti.sec, ti.min, ti.hour;
      loc := ti.loc;
      wday := GetWeekday(ti.weekday);
      var g := ti.date;
      var jdn;
      if C.IsAfterGregorianReform(g.year, g.month, g.day) {
        jdn := C.GregorianPostReformToJdn(g.year, g.month, g.day);
      } else {
        jdn := C.GregorianPreReformToJdn(g.year, g.month, g.day);
      }
      var p := C.JdnToShamsi(jdn);
      year, month, day := p.year, p.month, p.day;
    }

    /**
     * `Time()`: `time.Date` of the civil date of the Persian date's JDN,
     * read as Gregorian after `gregorianReformJulianDay` and as Julian up
     * to it, of the clock as stored and of `time.Local` in place of a nil
     * location.
     */
    method ToTime(weekdayOf: WeekdayOf) returns (g: GoTime)
      ensures g == TimeOf(Value(), weekdayOf)
    {
      var jdn := C.ShamsiToJdn(year, month, day);
      var date;
      if jdn > C.GregorianReformJulianDay {
        date := C.JdnToGregorianPostReform(jdn);
      } else {
        date := C.JdnToGregorianPreReform(jdn);
      }
      var l := loc;
      if l == Nil {
        l := Local;
      }
      g := GoDate(date.year, date.month, date.day, hour, min, sec, nsec, l, weekdayOf(C.Date(year, month, day)));
    }

    // -------------------------------------------------------------------
    // Value-receiver operations: a copy is changed and returned

    /** `AddDate`: `Set` on a copy with the date fields moved; the receiver is unchanged. */
    method AddDate(years: int, months: int, days: int, weekdayOf: WeekdayOf) returns (r: TimeValue)
      requires loc != Nil
      ensures r == AddDateValue(Value(), years, months, days, weekdayOf)
      ensures IsNormal(r) && r.loc == loc
    {
      var c := new Time.Copy(Value());
      var u := Moved(c.Value(), years, months, days);
      c.Set(u.year, u.month, u.day, u.hour, u.min, u.sec, u.nsec, u.loc, weekdayOf);
      r := c.Value();
    }

    /** `Tomorrow`: `AddDate(0, 0, 1)`. */
    method Tomorrow(weekdayOf: WeekdayOf) returns (r: TimeValue)
      requires loc != Nil
      ensures r == TomorrowValue(Value(), weekdayOf)
    {
      r := AddDate(0, 0, 1, weekdayOf);
    }

    /** `Yesterday`: `AddDate(0, 0, -1)`. */
    method Yesterday(weekdayOf: WeekdayOf) returns (r: TimeValue)
      requires loc != Nil
      ensures r == YesterdayValue(Value(), weekdayOf)
    {
      r := AddDate(0, 0, -1, weekdayOf);
    }

    /** `In`: a copy with the location replaced and the weekday reset; the source panics on nil. */
    method In(loc: Location, weekdayOf: WeekdayOf) returns (r: TimeValue)
      requires loc != Nil
      ensures r == InValue(Value(), loc, weekdayOf)
    {
      var c := new Time.Copy(Value());
      c.loc := loc;
      c.ResetWeekday(weekdayOf);
      r := c.Value();
    }

    // -------------------------------------------------------------------
    // Format

    /**
     * `Format`: the loop over the template, which writes the token at
     * position `i` and moves `i` past it. What it writes is `Render` of
     * the template; an empty template gives the empty string.
     */
    method Format(env: Env, format: string) returns (s: string)
      ensures s == Render(Value(), env, format)
    {
      if format == [] {
        return "";
      }
      var t := Value();
      var i := 0;
      s := "";
      assert format[i..] == format;
      while i < |format|
        invariant 0 <= i <= |format|
        invariant s + Render(t, env, format[i..]) == Render(t, env, format)
        invariant Value() == t
        decreases |format| - i
      {
        var out, n := FormatStep(env, format, i);
        var done, from := s, i;
        s, i := s + out, i + n;
        RenderPrefix(t, env, format, from, i, done, out, n);
      }
      assert format[i..] == [];
      assert Render(t, env, format[i..]) == [];
    }

    /**
     * One pass of `Format`'s loop body at position `i`: the text of the
     * token there and the number of characters it takes, the longest
     * token first (MMM and MMI before MM before M, yyyy and yyy before yy
     * before y).
     */
    method FormatStep(env: Env, format: string, i: nat) returns (out: string, n: nat)
      requires i < |format|
      ensures (out, n) == Token(Value(), env, format[i..])
    {
      var current := format[i..];
      var peek := if i + 1 < |format| then format[i + 1] else 0 as char;
      var t := Value();
      match format[i]
      case 'A' => out, n := AmPmName(AmPm(t)), 1;
      case 'D' => out, n := Itoa(YearDay(t)), 1;
      case 'E' => out, n := WeekdayName(wday), 1;
      case 'H' =>
        if peek == 'H' { out, n := WriteD2(hour), 2; } else { out, n := Itoa(hour), 1; }
      case 'K' =>
        if peek == 'K' { out, n := WriteD2(Hour12(t)), 2; } else { out, n := Itoa(Hour12(t)), 1; }
      case 'M' =>
        if HasPrefix(current, "MMM") {
          out, n := MonthName(month), 3;
        } else if HasPrefix(current, "MMI") {
          out, n := DariMonthName(month), 3;
        } else if peek == 'M' {
          out, n := WriteD2(month), 2;
        } else {
          out, n := Itoa(month), 1;
        }
      case 'R' =>
        if peek == 'D' { out, n := Itoa(RYearDay(t)), 2; } else { out, n := "R", 1; }
      case 'S' => out, n := WriteD3(GoInt.Quo(nsec, 1000000)), 1;
      case 'W' => out, n := Itoa(env.monthWeek), 1;
      case 'Z' => out, n := ZoneOffset(env.offset, []), 1;
      case 'a' => out, n := AmPmShort(AmPm(t)), 1;
      case 'd' =>
        if peek == 'd' { out, n := WriteD2(day), 2; } else { out, n := Itoa(day), 1; }
      case 'e' => out, n := WeekdayShort(wday), 1;
      case 'h' =>
        if peek == 'h' {
          out, n := WriteD2(ModifyHour(Hour12(t), 12)), 2;
        } else {
          out, n := Itoa(ModifyHour(Hour12(t), 12)), 1;
        }
      case 'k' =>
        if peek == 'k' {
          out, n := WriteD2(ModifyHour(hour, 24)), 2;
        } else {
          out, n := Itoa(ModifyHour(hour, 24)), 1;
        }
      case 'm' =>
        if peek == 'm' { out, n := WriteD2(min), 2; } else { out, n := Itoa(min), 1; }
      case 'n' =>
        if peek == 's' { out, n := Itoa(nsec), 2; } else { out, n := DayTimeName(DayTime(t)), 1; }
      case 'r' =>
        if peek == 'w' {
          out, n := Itoa(52 - env.yearWeek), 2;
        } else if peek == 'd' {
          out, n := Itoa(RMonthDay(t)), 2;
        } else {
          out, n := "r", 1;
        }
      case 's' =>
        if peek == 's' { out, n := WriteD2(sec), 2; } else { out, n := Itoa(sec), 1; }
      case 'w' => out, n := Itoa(env.yearWeek), 1;
      case 'y' =>
        if HasPrefix(current, "yyyy") {
          out, n := WriteD4(year), 4;
        } else if HasPrefix(current, "yyy") {
          out, n := WriteD4(year), 3;
        } else if peek == 'y' {
          out, n := TwoDigitYear(year), 2;
        } else {
          out, n := WriteD4(year), 1;
        }
      case 'z' => out, n := LocationName(loc), 1;
      case _ => out, n := [format[i]], 1;
    }
  }

  /** `New`: the zero value for a civil year before 1097, otherwise a fresh `Time` set from `ti`. */
  method New(ti: GoTime) returns (t: Time)
    ensures fresh(t) && t.Value() == NewValue(ti)
  {
    t := new Time.Zero();
    if ti.date.year >= 1097 {
      t.SetTime(ti);
    }
  }

  /** The package function `Date`: a fresh `Time` `Set` from the fields, `time.Local` for a nil location. */
  method Date(year: int, month: int, day: int, hour: int, min: int, sec: int, nsec: int,
              loc: Location, weekdayOf: WeekdayOf) returns (t: Time)
    ensures fresh(t) && t.Value() == DateValue(year, month, day, hour, min, sec, nsec, loc, weekdayOf)
  {
    var l := loc;
    if l == Nil {
      l := Local;
    }
    t := new Time.Zero();
    t.Set(year, month, day, hour, min, sec, nsec, l, weekdayOf);
  }
}
