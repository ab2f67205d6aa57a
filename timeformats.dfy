/**
 * The formatters of ptime.go: `ZoneOffset` on an offset in seconds, the
 * token scanner `Format` (the function `Render` here, which the loop of
 * `PTime.Time.Format` is proved against), and `TimeFormat`, two passes of
 * a `strings.Replacer`.
 */
module TimeFormats {
  import opened GoInt
  import opened Calendar
  import opened Text
  import opened Names
  import opened TimeValues

  /**
   * What the platform supplies to the formatters: the zone offset in
   * seconds east of UTC that `Zone()` looks up, and `MonthWeek` and
   * `YearWeek`, which the source computes in floating point from platform
   * weekdays.
   */
  datatype Env = Env(offset: int, monthWeek: int, yearWeek: int)

  // ---------------------------------------------------------------------
  // ZoneOffset

  /** The five layouts `ZoneOffset` knows. */
  predicate IsZoneLayout(f: string)
  {
    f == "-0700" || f == "-07" || f == "-07:00" || f == "Z0700" || f == "Z07:00"
  }

  /** The layout of `ZoneOffset(f...)`: its first argument when that is a known layout, "-07:00" otherwise. */
  function ZoneLayout(f: seq<string>): (r: string)
    ensures IsZoneLayout(r)
  {
    if |f| > 0 && IsZoneLayout(f[0]) then f[0] else "-07:00"
  }

  /**
   * `ZoneOffset`: a zero offset as "+0000", "+00", "+00:00" or "Z"; any
   * other as `%+03d` hours, then `%02d` minutes (after a colon in the
   * "-07:00" layouts). Hours and minutes are truncated separately, so each
   * carries its own sign.
   */
  function ZoneOffset(offset: int, f: seq<string>): (r: string)
    ensures r == "Z" <==> offset == 0 && ZoneLayout(f)[0] == 'Z'
  {
    var layout := ZoneLayout(f);
    if offset == 0 then
      if layout == "-0700" then "+0000"
      else if layout == "-07" then "+00"
      else if layout == "-07:00" then "+00:00"
      else "Z"
    else
      var h := Quo(offset, 3600);
      var m := Quo(offset - h * 3600, 60);
      ZeroPaddedLength(h, 3, true);
      if layout == "-0700" || layout == "Z0700" then FormatDecimal(h, 3, true, true) + FormatDecimal(m, 2, false, true)
      else if layout == "-07" then FormatDecimal(h, 3, true, true)
      else FormatDecimal(h, 3, true, true) + ":" + FormatDecimal(m, 2, false, true)
  }

  /** A whole-minute offset is hours and minutes of the same sign; both fit their fields below 100 hours. */
  lemma ZoneParts(offset: int)
    requires offset % 60 == 0 && -360000 < offset < 360000
    ensures var h := Quo(offset, 3600);
      var m := Quo(offset - h * 3600, 60);
      h * 3600 + m * 60 == offset && -99 <= h <= 99 && -59 <= m <= 59
      && (offset >= 0 ==> h >= 0 && m >= 0) && (offset <= 0 ==> h <= 0 && m <= 0)
  {
    var q := offset / 60;
    assert offset == 60 * q;
    if offset >= 0 {
      var h, r := q / 60, q % 60;
      assert offset == 3600 * h + 60 * r && 0 <= 60 * r < 3600;
      assert Quo(offset, 3600) == h;
      assert offset - h * 3600 == 60 * r;
      assert Quo(offset - h * 3600, 60) == r;
    } else {
      var p := -q;
      var h, r := p / 60, p % 60;
      assert -offset == 3600 * h + 60 * r && 0 <= 60 * r < 3600;
      assert Quo(offset, 3600) == -h;
      assert offset - (-h) * 3600 == -(60 * r);
      assert Quo(offset - (-h) * 3600, 60) == -r;
    }
  }

  /** `%+03d` of an hour count within 99: a sign and two digits that read back as the hours. */
  lemma HourField(h: int)
    requires -99 <= h <= 99
    ensures var r := FormatDecimal(h, 3, true, true);
      |r| == 3 && (r[0] == '+' || r[0] == '-') && (r[0] == '-' <==> h < 0) && IsDigits(r[1..]) && SignedValue(r) == h
  {
    ZeroPaddedRoundTrip(h, 3, true);
    DigitCount(if h < 0 then -h else h);
  }

  /** `%02d` of a minute count within 59: two digits when not negative, a minus sign in front otherwise. */
  lemma MinuteField(m: int)
    requires -59 <= m <= 59
    ensures var r := FormatDecimal(m, 2, false, true);
      2 <= |r| <= 3 && IsDigits(r[1..]) && (r[0] == '-' <==> m < 0)
      && (m >= 0 ==> |r| == 2 && IsDigits(r)) && SignedValue(r) == m
  {
    ZeroPaddedRoundTrip(m, 2, false);
    DigitCount(if m < 0 then -m else m);
  }

  /** A sign and two digits, as `%+03d` writes hours within 99. */
  predicate IsHourField(hs: string)
  {
    |hs| == 3 && (hs[0] == '+' || hs[0] == '-') && IsDigits(hs[1..])
  }

  /** A minus sign or a digit, then digits, as `%02d` writes minutes within 59. */
  predicate IsMinuteField(ms: string)
  {
    2 <= |ms| <= 3 && IsDigits(ms[1..]) && (ms[0] != '-' ==> IsDigits(ms))
  }

  /** Hours, a colon and minutes: the fields are found again at their places. */
  lemma ColonJoin(hs: string, ms: string)
    requires IsHourField(hs) && IsMinuteField(ms)
    ensures var r := hs + ":" + ms;
      |r| >= 6 && r[3] == ':' && r[..3] == hs && r[4..] == ms && r[1..3] == hs[1..]
  {
  }

  /** Hours followed directly by minutes: the fields are found again at their places. */
  lemma CompactJoin(hs: string, ms: string)
    requires IsHourField(hs) && IsMinuteField(ms)
    ensures var r := hs + ms;
      |r| >= 5 && r[..3] == hs && r[3..] == ms && r[1..3] == hs[1..]
  {
  }

  /**
   * The hour and minute fields of any whole-minute offset below 100 hours:
   * their signed values make up the offset; a non-negative offset has a '+'
   * and two plain digits.
   */
  lemma ZoneFields(offset: int) returns (hs: string, ms: string)
    requires offset % 60 == 0 && -360000 < offset < 360000
    ensures IsHourField(hs) && IsMinuteField(ms)
    ensures SignedValue(hs) * 3600 + SignedValue(ms) * 60 == offset
    ensures offset >= 0 ==> hs[0] == '+' && |ms| == 2 && IsDigits(ms)
    ensures offset != 0 ==>
      var h := Quo(offset, 3600);
      hs == FormatDecimal(h, 3, true, true) && ms == FormatDecimal(Quo(offset - h * 3600, 60), 2, false, true)
    ensures offset == 0 ==> hs == "+00" && ms == "00"
  {
    if offset == 0 {
      hs, ms := "+00", "00";
      ZeroZoneFields();
    } else {
      hs, ms := NonZeroZoneFields(offset);
    }
  }

  /** The fields of a zero offset, "+00" and "00". */
  lemma ZeroZoneFields()
    ensures IsHourField("+00") && IsMinuteField("00")
    ensures SignedValue("+00") == 0 && SignedValue("00") == 0
  {
    assert DigitsValue("00") == 0 by {
      assert "00"[..1] == "0";
      assert "0"[..0] == [];
    }
  }

  /** The fields of a non-zero offset, as the hours and minutes `%+03d` and `%02d` write. */
  lemma NonZeroZoneFields(offset: int) returns (hs: string, ms: string)
    requires offset % 60 == 0 && -360000 < offset < 360000 && offset != 0
    ensures IsHourField(hs) && IsMinuteField(ms)
    ensures SignedValue(hs) * 3600 + SignedValue(ms) * 60 == offset
    ensures offset >= 0 ==> hs[0] == '+' && |ms| == 2 && IsDigits(ms)
    ensures var h := Quo(offset, 3600);
      hs == FormatDecimal(h, 3, true, true) && ms == FormatDecimal(Quo(offset - h * 3600, 60), 2, false, true)
  {
    ZoneParts(offset);
    var h := Quo(offset, 3600);
    var m := Quo(offset - h * 3600, 60);
    HourField(h);
    MinuteField(m);
    hs, ms := FormatDecimal(h, 3, true, true), FormatDecimal(m, 2, false, true);
  }

  /** "-07:00", the default layout, once its fields are known. */
  lemma ColonZoneOffset(offset: int, hs: string, ms: string)
    requires offset != 0 ==>
      var h := Quo(offset, 3600);
      hs == FormatDecimal(h, 3, true, true) && ms == FormatDecimal(Quo(offset - h * 3600, 60), 2, false, true)
    requires offset == 0 ==> hs == "+00" && ms == "00"
    ensures ZoneOffset(offset, []) == hs + ":" + ms
  {
  }

  /** "-0700" once its fields are known. */
  lemma CompactZoneOffset(offset: int, hs: string, ms: string)
    requires offset != 0 ==>
      var h := Quo(offset, 3600);
      hs == FormatDecimal(h, 3, true, true) && ms == FormatDecimal(Quo(offset - h * 3600, 60), 2, false, true)
    requires offset == 0 ==> hs == "+00" && ms == "00"
    ensures ZoneOffset(offset, ["-0700"]) == hs + ms
  {
  }

  /**
   * The "-07:00" layout (the default) reads back: the signed hours before
   * the colon and the signed minutes after it make up every whole-minute
   * offset below 100 hours. A non-negative offset has the shape "+HH:MM".
   */
  lemma ZoneOffsetReadsBack(offset: int)
    requires offset % 60 == 0 && -360000 < offset < 360000
    ensures var r := ZoneOffset(offset, []);
      && |r| >= 6 && r[3] == ':' && (r[0] == '+' || r[0] == '-') && IsDigits(r[1..3]) && IsDigits(r[4..][1..])
      && (r[4] != '-' && r[4] != '+' ==> IsDigits(r[4..]))
      && SignedValue(r[..3]) * 3600 + SignedValue(r[4..]) * 60 == offset
      && (offset >= 0 ==> |r| == 6 && r[0] == '+' && IsDigits(r[4..]))
  {
    var hs, ms := ZoneFields(offset);
    ColonZoneOffset(offset, hs, ms);
    ColonJoin(hs, ms);
  }

  /**
   * The "-0700" layout reads back the same way, with the minutes right
   * after the three characters of the hours.
   */
  lemma CompactZoneOffsetReadsBack(offset: int)
    requires offset % 60 == 0 && -360000 < offset < 360000
    ensures var r := ZoneOffset(offset, ["-0700"]);
      && |r| >= 5 && (r[0] == '+' || r[0] == '-') && IsDigits(r[1..3]) && IsDigits(r[3..][1..])
      && (r[3] != '-' && r[3] != '+' ==> IsDigits(r[3..]))
      && SignedValue(r[..3]) * 3600 + SignedValue(r[3..]) * 60 == offset
      && (offset >= 0 ==> |r| == 5 && r[0] == '+' && IsDigits(r[3..]))
  {
    var hs, ms := ZoneFields(offset);
    CompactZoneOffset(offset, hs, ms);
    CompactJoin(hs, ms);
  }

  /** The fields of 3 hours and 30 minutes, either side of UTC. */
  lemma HalfHourFields()
    ensures FormatDecimal(3, 3, true, true) == "+03" && FormatDecimal(-3, 3, true, true) == "-03"
    ensures FormatDecimal(0, 3, true, true) == "+00"
    ensures FormatDecimal(30, 2, false, true) == "30" && FormatDecimal(-30, 2, false, true) == "-30"
  {
    assert Digits(3) == "3" && Digits(0) == "0";
    assert Digits(30) == Digits(3) + [DigitChar(0)];
  }

  /** Iran's standard offset, +03:30, in each layout, and a zero offset. */
  lemma ZoneOffsetRows()
    ensures ZoneOffset(12600, ["-0700"]) == "+0330" && ZoneOffset(12600, ["-07"]) == "+03"
    ensures ZoneOffset(12600, ["-07:00"]) == "+03:30" && ZoneOffset(12600, ["Z0700"]) == "+0330"
    ensures ZoneOffset(12600, ["Z07:00"]) == "+03:30" && ZoneOffset(12600, []) == "+03:30"
    ensures ZoneOffset(12600, ["MST"]) == "+03:30"
    ensures ZoneOffset(0, ["-0700"]) == "+0000" && ZoneOffset(0, ["Z07:00"]) == "Z" && ZoneOffset(0, []) == "+00:00"
  {
    HalfHourFields();
    assert Quo(12600, 3600) == 3 && Quo(12600 - 3 * 3600, 60) == 30;
  }

  /**
   * West of UTC and off the hour the minutes get a sign of their own:
   * -03:30 comes out as "-03:-30", and -00:30 as "+00:-30".
   */
  lemma ZoneOffsetNegativeMinutes()
    ensures ZoneOffset(-12600, []) == "-03:-30"
    ensures ZoneOffset(-1800, []) == "+00:-30"
  {
    HalfHourFields();
    NegativeHalfHour(-12600, -3);
    NegativeHalfHour(-1800, 0);
  }

  /** `ZoneOffset` at `h` hours and minus thirty minutes, west of UTC. */
  lemma NegativeHalfHour(offset: int, h: int)
    requires (offset == -12600 && h == -3) || (offset == -1800 && h == 0)
    ensures ZoneOffset(offset, []) == FormatDecimal(h, 3, true, true) + ":" + "-30"
  {
    HalfHourFields();
    assert Quo(offset, 3600) == h && Quo(offset - h * 3600, 60) == -30;
    ColonZoneOffset(offset, FormatDecimal(h, 3, true, true), "-30");
  }

  // ---------------------------------------------------------------------
  // Format

  /** `writeD2`: a '0' in front of any value below 10, a negative one included. */
  function WriteD2(v: int): (r: string)
    ensures |r| >= 2
  {
    DigitCount(if v < 0 then -v else v);
    if v < 10 then "0" + Itoa(v) else Itoa(v)
  }

  /** `writeD3`: zeros in front of values in 0..99; negative values as they are. */
  function WriteD3(v: int): (r: string)
    ensures v >= 0 ==> |r| >= 3
  {
    DigitCount(if v < 0 then -v else v);
    if v >= 100 then Itoa(v) else if v >= 10 then "0" + Itoa(v) else if v >= 0 then "00" + Itoa(v) else Itoa(v)
  }

  /** `writeD4`: zeros in front of values in 0..999; negative values as they are. */
  function WriteD4(v: int): (r: string)
    ensures v >= 0 ==> |r| >= 4
  {
    DigitCount(if v < 0 then -v else v);
    if v >= 1000 then Itoa(v)
    else if v >= 100 then "0" + Itoa(v)
    else if v >= 10 then "00" + Itoa(v)
    else if v >= 0 then "000" + Itoa(v)
    else Itoa(v)
  }

  /** On a non-negative value `writeD2` is `%02d`: at least two digits that read back as the value. */
  lemma WriteD2Pads(v: int)
    requires v >= 0
    ensures WriteD2(v) == FormatDecimal(v, 2, false, true)
    ensures IsDigits(WriteD2(v)) && DigitsValue(WriteD2(v)) == v
    ensures |WriteD2(v)| == if v < 100 then 2 else |Itoa(v)|
  {
    UnsignedPad(v, 2);
    DigitCount(v);
    var zeros := Repeat('0', 2 - |Digits(v)|);
    if v >= 10 {
      assert zeros == [];
      assert WriteD2(v) == zeros + Digits(v);
    } else {
      assert zeros == "0";
    }
  }

  /** On a non-negative value `writeD3` is `%03d`: at least three digits that read back as the value. */
  lemma WriteD3Pads(v: int)
    requires v >= 0
    ensures WriteD3(v) == FormatDecimal(v, 3, false, true)
    ensures IsDigits(WriteD3(v)) && DigitsValue(WriteD3(v)) == v
    ensures |WriteD3(v)| == if v < 1000 then 3 else |Itoa(v)|
  {
    UnsignedPad(v, 3);
    DigitCount(v);
    var zeros := Repeat('0', 3 - |Digits(v)|);
    if v >= 100 {
      assert zeros == [];
      assert WriteD3(v) == zeros + Digits(v);
    } else if v >= 10 {
      assert zeros == "0";
      assert WriteD3(v) == zeros + Digits(v);
    } else {
      assert zeros == "00";
      assert WriteD3(v) == zeros + Digits(v);
    }
  }

  /** On a non-negative value `writeD4` is `%04d`: at least four digits that read back as the value. */
  lemma WriteD4Pads(v: int)
    requires v >= 0
    ensures WriteD4(v) == FormatDecimal(v, 4, false, true)
    ensures IsDigits(WriteD4(v)) && DigitsValue(WriteD4(v)) == v
    ensures |WriteD4(v)| == if v < 10000 then 4 else |Itoa(v)|
  {
    UnsignedPad(v, 4);
    DigitCount(v);
    var zeros := Repeat('0', 4 - |Digits(v)|);
    if v >= 1000 {
      assert zeros == [];
      assert WriteD4(v) == zeros + Digits(v);
    } else if v >= 100 {
      assert zeros == "0";
      assert WriteD4(v) == zeros + Digits(v);
    } else if v >= 10 {
      assert zeros == "00";
      assert WriteD4(v) == zeros + Digits(v);
    } else {
      assert zeros == "000";
      assert WriteD4(v) == zeros + Digits(v);
    }
  }

  /** The byte `peek` returns: the one after the current one, 0 past the end. */
  function Peek(s: string): char
  {
    if |s| > 1 then s[1] else 0 as char
  }

  /**
   * The `yy` token: the last two characters of the year's decimal form,
   * a '0' in front of a single digit.
   */
  function TwoDigitYear(year: int): (r: string)
    ensures |r| == 2
  {
    var s := Itoa(year);
    if |s| == 1 then "0" + s else if |s| == 2 then s else s[|s| - 2..]
  }

  /**
   * One step of `Format`'s loop on the rest `s` of the template: the text
   * the token at its head writes and the number of characters it takes.
   * Any character that starts no token is copied.
   */
  function Token(t: TimeValue, env: Env, s: string): (r: (string, nat))
    requires |s| > 0
    ensures 1 <= r.1 <= |s|
  {
    match s[0]
    case 'A' => (AmPmName(AmPm(t)), 1)
    case 'D' => (Itoa(YearDay(t)), 1)
    case 'E' => (WeekdayName(t.wday), 1)
    case 'H' => if Peek(s) == 'H' then (WriteD2(t.hour), 2) else (Itoa(t.hour), 1)
    case 'K' => if Peek(s) == 'K' then (WriteD2(Hour12(t)), 2) else (Itoa(Hour12(t)), 1)
    case 'M' =>
      if HasPrefix(s, "MMM") then (MonthName(t.month), 3)
      else if HasPrefix(s, "MMI") then (DariMonthName(t.month), 3)
      else if Peek(s) == 'M' then (WriteD2(t.month), 2)
      else (Itoa(t.month), 1)
    case 'R' => if Peek(s) == 'D' then (Itoa(RYearDay(t)), 2) else ("R", 1)
    case 'S' => (WriteD3(Quo(t.nsec, 1000000)), 1)
    case 'W' => (Itoa(env.monthWeek), 1)
    case 'Z' => (ZoneOffset(env.offset, []), 1)
    case 'a' => (AmPmShort(AmPm(t)), 1)
    case 'd' => if Peek(s) == 'd' then (WriteD2(t.day), 2) else (Itoa(t.day), 1)
    case 'e' => (WeekdayShort(t.wday), 1)
    case 'h' => if Peek(s) == 'h' then (WriteD2(ModifyHour(Hour12(t), 12)), 2) else (Itoa(ModifyHour(Hour12(t), 12)), 1)
    case 'k' => if Peek(s) == 'k' then (WriteD2(ModifyHour(t.hour, 24)), 2) else (Itoa(ModifyHour(t.hour, 24)), 1)
    case 'm' => if Peek(s) == 'm' then (WriteD2(t.min), 2) else (Itoa(t.min), 1)
    case 'n' => if Peek(s) == 's' then (Itoa(t.nsec), 2) else (DayTimeName(DayTime(t)), 1)
    case 'r' =>
      if Peek(s) == 'w' then (Itoa(52 - env.yearWeek), 2)
      else if Peek(s) == 'd' then (Itoa(RMonthDay(t)), 2)
      else ("r", 1)
    case 's' => if Peek(s) == 's' then (WriteD2(t.sec), 2) else (Itoa(t.sec), 1)
    case 'w' => (Itoa(env.yearWeek), 1)
    case 'y' =>
      if HasPrefix(s, "yyyy") then (WriteD4(t.year), 4)
      else if HasPrefix(s, "yyy") then (WriteD4(t.year), 3)
      else if Peek(s) == 'y' then (TwoDigitYear(t.year), 2)
      else (WriteD4(t.year), 1)
    case 'z' => (LocationName(t.loc), 1)
    case _ => ([s[0]], 1)
  }

  /** What `Format` writes for the template `s`: the token at the head, then the rest. */
  function Render(t: TimeValue, env: Env, s: string): string
    decreases |s|
  {
    if s == [] then []
    else
      var r := Token(t, env, s);
      r.0 + Render(t, env, s[r.1..])
  }

  /** The characters that start a token of `Format`. */
  predicate IsTokenLetter(c: char)
  {
    || c == 'A' || c == 'D' || c == 'E' || c == 'H' || c == 'K' || c == 'M' || c == 'R' || c == 'S' || c == 'W' || c == 'Z'
    || c == 'a' || c == 'd' || c == 'e' || c == 'h' || c == 'k' || c == 'm' || c == 'n' || c == 'r' || c == 's'
    || c == 'w' || c == 'y' || c == 'z'
  }

  /** A character that starts no token is copied, and scanning goes on right after it. */
  lemma RenderLiteral(t: TimeValue, env: Env, c: char, s: string)
    requires !IsTokenLetter(c)
    ensures Render(t, env, [c] + s) == [c] + Render(t, env, s)
  {
    assert ([c] + s)[1..] == s;
  }

  /** A template without token letters is copied verbatim. */
  lemma {:induction false} RenderCopiesLiterals(t: TimeValue, env: Env, s: string)
    requires forall k :: 0 <= k < |s| ==> !IsTokenLetter(s[k])
    ensures Render(t, env, s) == s
    decreases |s|
  {
    if s != [] {
      assert s == [s[0]] + s[1..];
      RenderLiteral(t, env, s[0], s[1..]);
      RenderCopiesLiterals(t, env, s[1..]);
    }
  }

  /** One step of the scan at position `i` of the template `s`. */
  lemma RenderStep(t: TimeValue, env: Env, s: string, i: nat, out: string, n: nat)
    requires i < |s| && Token(t, env, s[i..]) == (out, n)
    ensures i + n <= |s|
    ensures Render(t, env, s[i..]) == out + Render(t, env, s[i + n..])
  {
    assert s[i..][n..] == s[i + n..];
  }

  /**
   * The invariant of `Format`'s loop is kept by one step: what is written
   * so far, followed by the rendering of the rest, is the rendering of the
   * whole template.
   */
  lemma RenderPrefix(t: TimeValue, env: Env, s: string, i: nat, next: nat, done: string, out: string, n: nat)
    requires i < |s| && Token(t, env, s[i..]) == (out, n) && next == i + n
    requires done + Render(t, env, s[i..]) == Render(t, env, s)
    ensures next <= |s| && (done + out) + Render(t, env, s[next..]) == Render(t, env, s)
  {
    assert s[i..][n..] == s[next..];
    var rest := Render(t, env, s[next..]);
    assert Render(t, env, s[i..]) == out + rest;
    AppendAssoc(done, out, rest);
  }

  /** A character at position `i` that starts no token is copied. */
  lemma RenderCopy(t: TimeValue, env: Env, s: string, i: nat)
    requires i < |s| && !IsTokenLetter(s[i])
    ensures Render(t, env, s[i..]) == [s[i]] + Render(t, env, s[i + 1..])
  {
    RenderStep(t, env, s, i, [s[i]], 1);
  }

  /** A doubled `H`, `d`, `m` or `s` at position `i` writes its field with `writeD2`. */
  lemma RenderDoubled(t: TimeValue, env: Env, s: string, i: nat)
    requires i + 1 < |s| && s[i] == s[i + 1] && (s[i] == 'H' || s[i] == 'd' || s[i] == 'm' || s[i] == 's')
    ensures Render(t, env, s[i..]) == WriteD2(
      if s[i] == 'H' then t.hour else if s[i] == 'd' then t.day else if s[i] == 'm' then t.min else t.sec)
      + Render(t, env, s[i + 2..])
  {
    var v := if s[i] == 'H' then t.hour else if s[i] == 'd' then t.day else if s[i] == 'm' then t.min else t.sec;
    RenderStep(t, env, s, i, WriteD2(v), 2);
  }

  /** "MM" not followed by `M` or `I` writes the month with `writeD2`. */
  lemma RenderMonthDigits(t: TimeValue, env: Env, s: string, i: nat)
    requires i + 1 < |s| && s[i] == 'M' && s[i + 1] == 'M' && (i + 2 < |s| ==> s[i + 2] != 'M' && s[i + 2] != 'I')
    ensures Render(t, env, s[i..]) == WriteD2(t.month) + Render(t, env, s[i + 2..])
  {
    assert !HasPrefix(s[i..], "MMM") && !HasPrefix(s[i..], "MMI") by {
      if i + 2 < |s| {
        assert s[i..][2] == s[i + 2];
      }
    }
    RenderStep(t, env, s, i, WriteD2(t.month), 2);
  }

  /** "yyyy" writes the year with `writeD4`. */
  lemma RenderLongYear(t: TimeValue, env: Env, s: string, i: nat)
    requires i + 3 < |s| && s[i] == 'y' && s[i + 1] == 'y' && s[i + 2] == 'y' && s[i + 3] == 'y'
    ensures Render(t, env, s[i..]) == WriteD4(t.year) + Render(t, env, s[i + 4..])
  {
    assert s[i..][..4] == "yyyy";
    RenderStep(t, env, s, i, WriteD4(t.year), 4);
  }

  /** A doubled `H`, `d`, `m` or `s` and a separator that starts no token. */
  lemma RenderDoubledThen(t: TimeValue, env: Env, s: string, i: nat)
    requires i + 2 < |s| && s[i] == s[i + 1] && (s[i] == 'H' || s[i] == 'd' || s[i] == 'm' || s[i] == 's')
    requires !IsTokenLetter(s[i + 2])
    ensures Render(t, env, s[i..]) == WriteD2(
      if s[i] == 'H' then t.hour else if s[i] == 'd' then t.day else if s[i] == 'm' then t.min else t.sec)
      + ([s[i + 2]] + Render(t, env, s[i + 3..]))
  {
    RenderCopy(t, env, s, i + 2);
    RenderDoubled(t, env, s, i);
  }

  /** "HH:mm:ss" at position `i`: hour, minute and second with `writeD2`, colons copied. */
  lemma RenderClockAt(t: TimeValue, env: Env, s: string, i: nat)
    requires i + 7 < |s| && s[i] == 'H' && s[i + 1] == 'H' && s[i + 2] == ':' && s[i + 3] == 'm' && s[i + 4] == 'm'
    requires s[i + 5] == ':' && s[i + 6] == 's' && s[i + 7] == 's'
    ensures Render(t, env, s[i..])
      == WriteD2(t.hour) + (":" + (WriteD2(t.min) + (":" + (WriteD2(t.sec) + Render(t, env, s[i + 8..])))))
  {
    RenderDoubled(t, env, s, i + 6);
    RenderDoubledThen(t, env, s, i + 3);
    RenderDoubledThen(t, env, s, i);
    assert [s[i + 2]] == ":" && [s[i + 5]] == ":";
  }

  /** "yyyy/MM" and a separator at position `i`. */
  lemma RenderYearMonthAt(t: TimeValue, env: Env, s: string, i: nat)
    requires i + 7 < |s| && s[i] == 'y' && s[i + 1] == 'y' && s[i + 2] == 'y' && s[i + 3] == 'y' && s[i + 4] == '/'
    requires s[i + 5] == 'M' && s[i + 6] == 'M' && s[i + 7] == '/'
    ensures Render(t, env, s[i..])
      == WriteD4(t.year) + ("/" + (WriteD2(t.month) + ("/" + Render(t, env, s[i + 8..]))))
  {
    RenderCopy(t, env, s, i + 7);
    RenderMonthDigits(t, env, s, i + 5);
    RenderCopy(t, env, s, i + 4);
    RenderLongYear(t, env, s, i);
    assert [s[i + 4]] == "/" && [s[i + 7]] == "/";
  }

  /** "yyyy/MM/dd" at position `i`: year with `writeD4`, month and day with `writeD2`, slashes copied. */
  lemma RenderDateAt(t: TimeValue, env: Env, s: string, i: nat)
    requires i + 9 < |s| && s[i] == 'y' && s[i + 1] == 'y' && s[i + 2] == 'y' && s[i + 3] == 'y' && s[i + 4] == '/'
    requires s[i + 5] == 'M' && s[i + 6] == 'M' && s[i + 7] == '/' && s[i + 8] == 'd' && s[i + 9] == 'd'
    ensures Render(t, env, s[i..])
      == WriteD4(t.year) + ("/" + (WriteD2(t.month) + ("/" + (WriteD2(t.day) + Render(t, env, s[i + 10..])))))
  {
    RenderDoubled(t, env, s, i + 8);
    RenderYearMonthAt(t, env, s, i);
  }

  /** The whole `yyyy/MM/dd HH:mm:ss` template on a template `s` known character by character. */
  lemma RenderDateTimeAt(t: TimeValue, env: Env, s: string)
    requires |s| == 19 && s[0] == 'y' && s[1] == 'y' && s[2] == 'y' && s[3] == 'y' && s[4] == '/'
    requires s[5] == 'M' && s[6] == 'M' && s[7] == '/' && s[8] == 'd' && s[9] == 'd' && s[10] == ' '
    requires s[11] == 'H' && s[12] == 'H' && s[13] == ':' && s[14] == 'm' && s[15] == 'm'
    requires s[16] == ':' && s[17] == 's' && s[18] == 's'
    ensures Render(t, env, s)
      == WriteD4(t.year) + ("/" + (WriteD2(t.month) + ("/" + (WriteD2(t.day) + (" "
      + (WriteD2(t.hour) + (":" + (WriteD2(t.min) + (":" + WriteD2(t.sec))))))))))
  {
    assert s[19..] == [];
    assert WriteD2(t.sec) + Render(t, env, s[19..]) == WriteD2(t.sec);
    RenderClockAt(t, env, s, 11);
    RenderCopy(t, env, s, 10);
    assert [s[10]] == " ";
    RenderDateAt(t, env, s, 0);
    assert s[0..] == s;
  }

  /** The template "yyyy/MM/dd HH:mm:ss" character by character. */
  lemma DateTimeTemplate(s: string)
    requires s == "yyyy/MM/dd HH:mm:ss"
    ensures |s| == 19 && s[0] == 'y' && s[1] == 'y' && s[2] == 'y' && s[3] == 'y' && s[4] == '/'
    ensures s[5] == 'M' && s[6] == 'M' && s[7] == '/' && s[8] == 'd' && s[9] == 'd' && s[10] == ' '
    ensures s[11] == 'H' && s[12] == 'H' && s[13] == ':' && s[14] == 'm' && s[15] == 'm'
    ensures s[16] == ':' && s[17] == 's' && s[18] == 's'
  {
  }

  /** Six fixed-width fields and their separators are found again at their places. */
  lemma DateTimeJoin(y: string, mo: string, d: string, h: string, mi: string, se: string)
    requires |y| == 4 && |mo| == 2 && |d| == 2 && |h| == 2 && |mi| == 2 && |se| == 2
    ensures var r := y + ("/" + (mo + ("/" + (d + (" " + (h + (":" + (mi + (":" + se)))))))));
      |r| == 19 && r[4] == '/' && r[7] == '/' && r[10] == ' ' && r[13] == ':' && r[16] == ':'
      && r[..4] == y && r[5..7] == mo && r[8..10] == d && r[11..13] == h && r[14..16] == mi && r[17..] == se
  {
    var clock := h + (":" + (mi + (":" + se)));
    ClockJoin(h, mi, se);
    var date := y + ("/" + (mo + ("/" + d)));
    DateJoin(y, mo, d);
    var r := y + ("/" + (mo + ("/" + (d + (" " + clock)))));
    assert r == date + (" " + clock);
    assert r[..10] == date && r[10] == ' ' && r[11..] == clock;
    assert r[..4] == date[..4] && r[5..7] == date[5..7] && r[8..10] == date[8..];
    assert r[11..13] == clock[..2] && r[14..16] == clock[3..5] && r[17..] == clock[6..];
  }

  /** "HH:mm:ss"-shaped text: the three fields at offsets 0, 3 and 6. */
  lemma ClockJoin(h: string, mi: string, se: string)
    requires |h| == 2 && |mi| == 2 && |se| == 2
    ensures var r := h + (":" + (mi + (":" + se)));
      |r| == 8 && r[2] == ':' && r[5] == ':' && r[..2] == h && r[3..5] == mi && r[6..] == se
  {
    var tail := mi + (":" + se);
    var r := h + (":" + tail);
    assert r[..2] == h && r[3..] == tail;
    assert tail[..2] == mi && tail[3..] == se;
    assert r[3..5] == tail[..2] && r[6..] == tail[3..];
  }

  /** "yyyy/MM/dd"-shaped text: the three fields at offsets 0, 5 and 8. */
  lemma DateJoin(y: string, mo: string, d: string)
    requires |y| == 4 && |mo| == 2 && |d| == 2
    ensures var r := y + ("/" + (mo + ("/" + d)));
      |r| == 10 && r[4] == '/' && r[7] == '/' && r[..4] == y && r[5..7] == mo && r[8..] == d
  {
    var tail := mo + ("/" + d);
    var r := y + ("/" + tail);
    assert r[..4] == y && r[5..] == tail;
    assert tail[..2] == mo && tail[3..] == d;
    assert r[5..7] == tail[..2] && r[8..] == tail[3..];
  }

  /**
   * The numeric date and clock tokens read back: on a normal value with a
   * four-digit year, "yyyy/MM/dd HH:mm:ss" writes the year, month, day,
   * hour, minute and second as fixed-width digit runs at fixed places.
   */
  lemma FormatReadsBack(t: TimeValue, env: Env)
    requires IsNormal(t) && 1000 <= t.year <= 9999
    ensures var r := Render(t, env, "yyyy/MM/dd HH:mm:ss");
      && |r| == 19 && r[4] == '/' && r[7] == '/' && r[10] == ' ' && r[13] == ':' && r[16] == ':'
      && IsDigits(r[..4]) && IsDigits(r[5..7]) && IsDigits(r[8..10])
      && IsDigits(r[11..13]) && IsDigits(r[14..16]) && IsDigits(r[17..])
      && DigitsValue(r[..4]) == t.year && DigitsValue(r[5..7]) == t.month && DigitsValue(r[8..10]) == t.day
      && DigitsValue(r[11..13]) == t.hour && DigitsValue(r[14..16]) == t.min && DigitsValue(r[17..]) == t.sec
  {
    DateTimeTemplate("yyyy/MM/dd HH:mm:ss");
    RenderDateTimeAt(t, env, "yyyy/MM/dd HH:mm:ss");
    WriteD4Pads(t.year);
    WriteD2Pads(t.month);
    WriteD2Pads(t.day);
    WriteD2Pads(t.hour);
    WriteD2Pads(t.min);
    WriteD2Pads(t.sec);
    DateTimeJoin(WriteD4(t.year), WriteD2(t.month), WriteD2(t.day), WriteD2(t.hour), WriteD2(t.min), WriteD2(t.sec));
  }

  /** The tail " yyyy" of a ten-character template. */
  lemma RenderSpaceYear(t: TimeValue, env: Env, s: string)
    requires |s| == 10 && s[5] == ' ' && s[6] == 'y' && s[7] == 'y' && s[8] == 'y' && s[9] == 'y'
    ensures Render(t, env, s[5..]) == " " + WriteD4(t.year)
  {
    assert s[10..] == [];
    assert WriteD4(t.year) + Render(t, env, s[10..]) == WriteD4(t.year);
    RenderLongYear(t, env, s, 6);
    RenderCopy(t, env, s, 5);
    assert [s[5]] == " ";
  }

  /** "MMM" writes the Persian month name and "MMI" the Dari one. */
  lemma RenderMonthNameAt(t: TimeValue, env: Env, s: string)
    requires |s| == 10 && s[2] == 'M' && s[3] == 'M' && (s[4] == 'M' || s[4] == 'I')
    ensures Render(t, env, s[2..])
      == (if s[4] == 'M' then MonthName(t.month) else DariMonthName(t.month)) + Render(t, env, s[5..])
  {
    var name := if s[4] == 'M' then MonthName(t.month) else DariMonthName(t.month);
    assert s[2..][..3] == s[2..5];
    assert s[4] == 'M' ==> s[2..5] == "MMM";
    assert s[4] == 'I' ==> s[2..5] == "MMI" && !HasPrefix(s[2..], "MMM");
    RenderStep(t, env, s, 2, name, 3);
  }

  /** "d MMM yyyy" and "d MMI yyyy": the day, the Persian or Dari month name and the year. */
  lemma RenderDayMonthYear(t: TimeValue, env: Env, s: string)
    requires |s| == 10 && s[0] == 'd' && s[1] == ' ' && s[2] == 'M' && s[3] == 'M' && (s[4] == 'M' || s[4] == 'I')
    requires s[5] == ' ' && s[6] == 'y' && s[7] == 'y' && s[8] == 'y' && s[9] == 'y'
    ensures Render(t, env, s)
      == Itoa(t.day) + (" " + ((if s[4] == 'M' then MonthName(t.month) else DariMonthName(t.month)) + (" " + WriteD4(t.year))))
  {
    var name := if s[4] == 'M' then MonthName(t.month) else DariMonthName(t.month);
    RenderSpaceYear(t, env, s);
    RenderMonthNameAt(t, env, s);
    RenderCopy(t, env, s, 1);
    RenderSingleDay(t, env, s);
    assert [s[1]] == " ";
  }

  /** A lone `d` writes the day without padding. */
  lemma RenderSingleDay(t: TimeValue, env: Env, s: string)
    requires |s| >= 2 && s[0] == 'd' && s[1] == ' '
    ensures Render(t, env, s) == Itoa(t.day) + Render(t, env, s[1..])
  {
    assert Peek(s) == ' ';
    assert Token(t, env, s) == (Itoa(t.day), 1);
  }

  /** The instant the repository's formatting test prints: Mehr 2, 1394, 12:59:59.050260050, in Iran's zone. */
  predicate IsFormatTestTime(t: TimeValue, env: Env)
  {
    t.year == 1394 && t.month == 7 && t.day == 2 && t.hour == 12 && t.min == 59 && t.sec == 59
    && t.nsec == 50260050 && t.loc == Zone("Asia/Tehran") && env.offset == 12600
  }

  /** The templates of the test, character by character. */
  lemma DayMonthYearTemplates(s: string, u: string)
    requires s == "d MMM yyyy" && u == "d MMI yyyy"
    ensures |s| == 10 && s[0] == 'd' && s[1] == ' ' && s[2] == 'M' && s[3] == 'M' && s[4] == 'M'
    ensures s[5] == ' ' && s[6] == 'y' && s[7] == 'y' && s[8] == 'y' && s[9] == 'y'
    ensures |u| == 10 && u[0] == 'd' && u[1] == ' ' && u[2] == 'M' && u[3] == 'M' && u[4] == 'I'
    ensures u[5] == ' ' && u[6] == 'y' && u[7] == 'y' && u[8] == 'y' && u[9] == 'y'
  {
  }

  /** The day, the four-digit year and the month names of the test instant. */
  lemma FormatTestValues()
    ensures Itoa(2) == "2" && WriteD4(1394) == "1394" && MonthName(7) == "مهر" && DariMonthName(7) == "میزان"
  {
    assert Digits(1394) == Digits(139) + [DigitChar(4)];
    assert Digits(139) == Digits(13) + [DigitChar(9)];
    assert Digits(13) == Digits(1) + [DigitChar(3)];
  }

  /** The texts the test expects, put together from their parts. */
  lemma FormatTestTexts()
    ensures "2" + (" " + (MonthName(7) + (" " + "1394"))) == "2 مهر 1394"
    ensures "2" + (" " + (DariMonthName(7) + (" " + "1394"))) == "2 میزان 1394"
  {
    FormatTestValues();
  }

  /** The Persian and the Dari date of the test. */
  lemma FormatDateRows(t: TimeValue, env: Env)
    requires IsFormatTestTime(t, env)
    ensures Render(t, env, "d MMM yyyy") == "2 مهر 1394"
    ensures Render(t, env, "d MMI yyyy") == "2 میزان 1394"
  {
    DayMonthYearTemplates("d MMM yyyy", "d MMI yyyy");
    FormatTestValues();
    var day, year := Itoa(t.day), WriteD4(t.year);
    assert day == "2" && year == "1394";
    FormatTestTexts();
    RenderDayMonthYear(t, env, "d MMM yyyy");
    assert Render(t, env, "d MMM yyyy") == "2" + (" " + (MonthName(7) + (" " + "1394")));
    RenderDayMonthYear(t, env, "d MMI yyyy");
    assert Render(t, env, "d MMI yyyy") == "2" + (" " + (DariMonthName(7) + (" " + "1394")));
  }

  /** A template that is one whole token writes that token's text. */
  lemma RenderSingle(t: TimeValue, env: Env, s: string)
    requires |s| > 0 && Token(t, env, s).1 == |s|
    ensures Render(t, env, s) == Token(t, env, s).0
  {
    assert s[|s|..] == [];
  }

  /** The year 1394 as `Itoa` and as the two-digit year. */
  lemma YearDigits()
    ensures Itoa(1394) == "1394" && TwoDigitYear(1394) == "94"
  {
    FormatTestValues();
    assert Itoa(1394) == WriteD4(1394);
    assert "1394"[2..] == "94";
  }

  /** The small numbers of the test instant as `Itoa`, `writeD2` and `writeD3` write them. */
  lemma ClockDigits()
    ensures WriteD2(7) == "07" && Itoa(7) == "7" && WriteD2(2) == "02"
    ensures WriteD2(12) == "12" && Itoa(12) == "12" && WriteD2(0) == "00" && Itoa(0) == "0"
  {
    assert Digits(12) == Digits(1) + [DigitChar(2)];
  }

  /** The milliseconds of the test instant as `writeD3` writes them. */
  lemma MillisecondDigits()
    ensures WriteD3(Quo(50260050, 1000000)) == "050"
  {
    assert Quo(50260050, 1000000) == 50;
    assert Digits(50) == Digits(5) + [DigitChar(0)];
  }

  /** The nanoseconds of the test instant, 50260050, as `Itoa` writes them. */
  lemma NanosecondDigits()
    ensures Itoa(50260050) == "50260050"
  {
    assert Digits(50) == Digits(5) + [DigitChar(0)];
    assert Digits(502) == Digits(50) + [DigitChar(2)];
    assert Digits(5026) == Digits(502) + [DigitChar(6)];
    assert Digits(50260) == Digits(5026) + [DigitChar(0)];
    assert Digits(502600) == Digits(50260) + [DigitChar(0)];
    assert Digits(5026005) == Digits(502600) + [DigitChar(5)];
    assert Digits(50260050) == Digits(5026005) + [DigitChar(0)];
  }

  /** The year tokens of the test's long template on their own, with the text the test expects. */
  lemma FormatYearRows(t: TimeValue, env: Env)
    requires IsFormatTestTime(t, env)
    ensures Render(t, env, "yyyy") == "1394" && Render(t, env, "yyy") == "1394"
    ensures Render(t, env, "yy") == "94" && Render(t, env, "y") == "1394"
  {
    FormatTestValues();
    YearDigits();
    RenderSingle(t, env, "yyyy");
    RenderSingle(t, env, "yyy");
    RenderSingle(t, env, "yy");
    RenderSingle(t, env, "y");
  }

  /** The month and day tokens, with and without padding. */
  lemma FormatMonthDayRows(t: TimeValue, env: Env)
    requires IsFormatTestTime(t, env)
    ensures Render(t, env, "MM") == "07" && Render(t, env, "M") == "7"
    ensures Render(t, env, "dd") == "02" && Render(t, env, "d") == "2"
  {
    ClockDigits();
    RenderSingle(t, env, "MM");
    RenderSingle(t, env, "M");
    RenderSingle(t, env, "dd");
    RenderSingle(t, env, "d");
  }

  /** The 24-hour clock tokens at 12 o'clock: `H` and `k` both write the hour. */
  lemma FormatHourRows(t: TimeValue, env: Env)
    requires IsFormatTestTime(t, env)
    ensures Render(t, env, "HH") == "12" && Render(t, env, "H") == "12"
    ensures Render(t, env, "kk") == "12" && Render(t, env, "k") == "12"
  {
    ClockDigits();
    assert ModifyHour(t.hour, 24) == 12;
    RenderSingle(t, env, "HH");
    RenderSingle(t, env, "H");
    RenderSingle(t, env, "kk");
    RenderSingle(t, env, "k");
  }

  /** The 12-hour clock tokens at 12 o'clock: `h` writes 12 and `K` writes 0. */
  lemma FormatHalfDayRows(t: TimeValue, env: Env)
    requires IsFormatTestTime(t, env)
    ensures Render(t, env, "hh") == "12" && Render(t, env, "h") == "12"
    ensures Render(t, env, "KK") == "00" && Render(t, env, "K") == "0"
  {
    ClockDigits();
    assert Hour12(t) == 0 && ModifyHour(Hour12(t), 12) == 12;
    RenderSingle(t, env, "hh");
    RenderSingle(t, env, "h");
    RenderSingle(t, env, "KK");
    RenderSingle(t, env, "K");
  }

  /** The milliseconds and the nanoseconds of the test instant. */
  lemma FormatFractionRows(t: TimeValue, env: Env)
    requires IsFormatTestTime(t, env)
    ensures Render(t, env, "S") == "050" && Render(t, env, "ns") == "50260050"
  {
    FormatMillisecondRow(t, env);
    FormatNanosecondRow(t, env);
  }

  /** The milliseconds token of the test instant. */
  lemma FormatMillisecondRow(t: TimeValue, env: Env)
    requires IsFormatTestTime(t, env)
    ensures Render(t, env, "S") == "050"
  {
    MillisecondDigits();
    RenderSingle(t, env, "S");
  }

  /** The nanoseconds token of the test instant. */
  lemma FormatNanosecondRow(t: TimeValue, env: Env)
    requires IsFormatTestTime(t, env)
    ensures Render(t, env, "ns") == "50260050"
  {
    NanosecondDigits();
    RenderSingle(t, env, "ns");
  }

  /** The zone token of the test instant: Iran's +03:30. */
  lemma FormatZoneRow(t: TimeValue, env: Env)
    requires IsFormatTestTime(t, env)
    ensures Render(t, env, "Z") == "+03:30"
  {
    ZoneOffsetRows();
    RenderSingle(t, env, "Z");
  }
}
