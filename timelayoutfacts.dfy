/**
 * What `TimeFormat` of ptime.go writes. The two replacers scan their
 * argument pairs in order, so the proofs first show that each layout
 * element and each placeholder is reached before any other one matches it,
 * then follow formats through both passes one element at a time.
 */
module TimeLayoutFacts {
  import opened GoInt
  import opened Calendar
  import opened Text
  import opened Names
  import opened TimeValues
  import opened TimeFormats
  import opened TimeLayouts

  /** Every layout element before the `k`-th differs from it, so the first replacer reaches it. */
  predicate ElementIsolated(k: int)
  {
    forall i :: 0 <= i < k ==> Differs(LayoutElement(k), LayoutElement(i))
  }

  /** Every placeholder before the `j`-th differs from it, so the second replacer reaches it. */
  predicate PlaceholderIsolated(j: int)
  {
    forall i :: 0 <= i < j ==> Differs(ParamKey(j), ParamKey(i))
  }

  // The isolation facts are split into sixteen ranges for each table. Each
  // range unfolds only the table entries it compares, which keeps every
  // proof well inside the solver's resource limit; one quantified lemma
  // over a whole table would unfold all 33 entries against each other.

  /** Layout elements 0 to 9 are each reached before any other matches them. */
  lemma ElementsIsolatedA(k: int)
    requires 0 <= k < 10
    ensures ElementIsolated(k)
  {
  }

  /** Layout elements 10 to 12 are each reached before any other matches them. */
  lemma ElementsIsolatedB(k: int)
    requires 10 <= k < 13
    ensures ElementIsolated(k)
  {
  }

  /** Layout elements 13 to 15 are each reached before any other matches them. */
  lemma ElementsIsolatedC(k: int)
    requires 13 <= k < 16
    ensures ElementIsolated(k)
  {
  }

  /** Layout elements 16 to 17 are each reached before any other matches them. */
  lemma ElementsIsolatedD(k: int)
    requires 16 <= k < 18
    ensures ElementIsolated(k)
  {
  }

  /** Layout elements 18 to 19 are each reached before any other matches them. */
  lemma ElementsIsolatedE(k: int)
    requires 18 <= k < 20
    ensures ElementIsolated(k)
  {
  }

  /** Layout elements 20 to 21 are each reached before any other matches them. */
  lemma ElementsIsolatedF(k: int)
    requires 20 <= k < 22
    ensures ElementIsolated(k)
  {
  }

  /** Layout elements 22 to 23 are each reached before any other matches them. */
  lemma ElementsIsolatedG(k: int)
    requires 22 <= k < 24
    ensures ElementIsolated(k)
  {
  }

  /** Layout element 24 is reached before any other matches it. */
  lemma ElementsIsolatedH(k: int)
    requires k == 24
    ensures ElementIsolated(k)
  {
  }

  /** Layout element 25 is reached before any other matches it. */
  lemma ElementsIsolatedI(k: int)
    requires k == 25
    ensures ElementIsolated(k)
  {
  }

  /** Layout element 26 is reached before any other matches it. */
  lemma ElementsIsolatedJ(k: int)
    requires k == 26
    ensures ElementIsolated(k)
  {
  }

  /** Layout element 27 is reached before any other matches it. */
  lemma ElementsIsolatedK(k: int)
    requires k == 27
    ensures ElementIsolated(k)
  {
  }

  /** Layout element 28 is reached before any other matches it. */
  lemma ElementsIsolatedL(k: int)
    requires k == 28
    ensures ElementIsolated(k)
  {
  }

  /** Layout element 29 is reached before any other matches it. */
  lemma ElementsIsolatedM(k: int)
    requires k == 29
    ensures ElementIsolated(k)
  {
  }

  /** Layout element 30 is reached before any other matches it. */
  lemma ElementsIsolatedN(k: int)
    requires k == 30
    ensures ElementIsolated(k)
  {
  }

  /** Layout element 31 is reached before any other matches it. */
  lemma ElementsIsolatedO(k: int)
    requires k == 31
    ensures ElementIsolated(k)
  {
  }

  /** Layout element 32 is reached before any other matches it. */
  lemma ElementsIsolatedP(k: int)
    requires k == 32
    ensures ElementIsolated(k)
  {
  }

  /** Placeholders 0 to 9 are each reached before any other matches them. */
  lemma PlaceholdersIsolatedA(j: int)
    requires 0 <= j < 10
    ensures PlaceholderIsolated(j)
  {
  }

  /** Placeholders 10 to 12 are each reached before any other matches them. */
  lemma PlaceholdersIsolatedB(j: int)
    requires 10 <= j < 13
    ensures PlaceholderIsolated(j)
  {
  }

  /** Placeholders 13 to 15 are each reached before any other matches them. */
  lemma PlaceholdersIsolatedC(j: int)
    requires 13 <= j < 16
    ensures PlaceholderIsolated(j)
  {
  }

  /** Placeholders 16 to 17 are each reached before any other matches them. */
  lemma PlaceholdersIsolatedD(j: int)
    requires 16 <= j < 18
    ensures PlaceholderIsolated(j)
  {
  }

  /** Placeholders 18 to 19 are each reached before any other matches them. */
  lemma PlaceholdersIsolatedE(j: int)
    requires 18 <= j < 20
    ensures PlaceholderIsolated(j)
  {
  }

  /** Placeholders 20 to 21 are each reached before any other matches them. */
  lemma PlaceholdersIsolatedF(j: int)
    requires 20 <= j < 22
    ensures PlaceholderIsolated(j)
  {
  }

  /** Placeholders 22 to 23 are each reached before any other matches them. */
  lemma PlaceholdersIsolatedG(j: int)
    requires 22 <= j < 24
    ensures PlaceholderIsolated(j)
  {
  }

  /** Placeholder 24 is reached before any other matches it. */
  lemma PlaceholdersIsolatedH(j: int)
    requires j == 24
    ensures PlaceholderIsolated(j)
  {
  }

  /** Placeholder 25 is reached before any other matches it. */
  lemma PlaceholdersIsolatedI(j: int)
    requires j == 25
    ensures PlaceholderIsolated(j)
  {
  }

  /** Placeholder 26 is reached before any other matches it. */
  lemma PlaceholdersIsolatedJ(j: int)
    requires j == 26
    ensures PlaceholderIsolated(j)
  {
  }

  /** Placeholder 27 is reached before any other matches it. */
  lemma PlaceholdersIsolatedK(j: int)
    requires j == 27
    ensures PlaceholderIsolated(j)
  {
  }

  /** Placeholder 28 is reached before any other matches it. */
  lemma PlaceholdersIsolatedL(j: int)
    requires j == 28
    ensures PlaceholderIsolated(j)
  {
  }

  /** Placeholder 29 is reached before any other matches it. */
  lemma PlaceholdersIsolatedM(j: int)
    requires j == 29
    ensures PlaceholderIsolated(j)
  {
  }

  /** Placeholder 30 is reached before any other matches it. */
  lemma PlaceholdersIsolatedN(j: int)
    requires j == 30
    ensures PlaceholderIsolated(j)
  {
  }

  /** Placeholder 31 is reached before any other matches it. */
  lemma PlaceholdersIsolatedO(j: int)
    requires j == 31
    ensures PlaceholderIsolated(j)
  {
  }

  /** Placeholder 32 is reached before any other matches it. */
  lemma PlaceholdersIsolatedP(j: int)
    requires j == 32
    ensures PlaceholderIsolated(j)
  {
  }

  /** Both replacers of `TimeFormat` reach every layout element and every placeholder before any other. */
  lemma TablesIsolated(k: int)
    requires 0 <= k < 33
    ensures ElementIsolated(k) && PlaceholderIsolated(PlaceholderIndex(k))
  {
    if k < 10 {
      ElementsIsolatedA(k);
    } else if k < 13 {
      ElementsIsolatedB(k);
    } else if k < 16 {
      ElementsIsolatedC(k);
    } else if k < 18 {
      ElementsIsolatedD(k);
    } else if k < 20 {
      ElementsIsolatedE(k);
    } else if k < 22 {
      ElementsIsolatedF(k);
    } else if k < 24 {
      ElementsIsolatedG(k);
    } else if k < 25 {
      ElementsIsolatedH(k);
    } else if k < 26 {
      ElementsIsolatedI(k);
    } else if k < 27 {
      ElementsIsolatedJ(k);
    } else if k < 28 {
      ElementsIsolatedK(k);
    } else if k < 29 {
      ElementsIsolatedL(k);
    } else if k < 30 {
      ElementsIsolatedM(k);
    } else if k < 31 {
      ElementsIsolatedN(k);
    } else if k < 32 {
      ElementsIsolatedO(k);
    } else {
      ElementsIsolatedP(k);
    }
    var j := PlaceholderIndex(k);
    if j < 10 {
      PlaceholdersIsolatedA(j);
    } else if j < 13 {
      PlaceholdersIsolatedB(j);
    } else if j < 16 {
      PlaceholdersIsolatedC(j);
    } else if j < 18 {
      PlaceholdersIsolatedD(j);
    } else if j < 20 {
      PlaceholdersIsolatedE(j);
    } else if j < 22 {
      PlaceholdersIsolatedF(j);
    } else if j < 24 {
      PlaceholdersIsolatedG(j);
    } else if j < 25 {
      PlaceholdersIsolatedH(j);
    } else if j < 26 {
      PlaceholdersIsolatedI(j);
    } else if j < 27 {
      PlaceholdersIsolatedJ(j);
    } else if j < 28 {
      PlaceholdersIsolatedK(j);
    } else if j < 29 {
      PlaceholdersIsolatedL(j);
    } else if j < 30 {
      PlaceholdersIsolatedM(j);
    } else if j < 31 {
      PlaceholdersIsolatedN(j);
    } else if j < 32 {
      PlaceholdersIsolatedO(j);
    } else {
      PlaceholdersIsolatedP(j);
    }
  }

  /**
   * A format made of exactly one layout element writes the text of its
   * placeholder: both replacers reach that element and that placeholder
   * before any other.
   */
  lemma TimeFormatElement(t: TimeValue, env: Env, k: int)
    requires 0 <= k < 33
    ensures TimeFormatText(t, env, LayoutElement(k)) == ParamValue(t, env, PlaceholderIndex(k))
  {
    TablesIsolated(k);
    var s, j := LayoutElement(k), PlaceholderIndex(k);
    forall i | 0 <= i < k
      ensures !HasPrefix(s, Initializer()[i].0)
    {
      DiffersMisses(s, LayoutElement(i));
    }
    forall i | 0 <= i < j
      ensures !HasPrefix(ParamKey(j), Params(t, env)[i].0)
    {
      DiffersMisses(ParamKey(j), ParamKey(i));
    }
    ParamsKeys(t, env);
    ReplaceOne(Initializer(), s, k);
    ReplaceOne(Params(t, env), ParamKey(j), j);
  }

  // ---------------------------------------------------------------------
  // Longer formats, one step at a time

  /** The first replacer replaces the layout element `k` at the head of `s` when every element before it differs from `s`. */
  lemma FirstPassElement(s: string, k: int)
    requires 0 <= k < 33 && HasPrefix(s, LayoutElement(k))
    requires forall i :: 0 <= i < k ==> Differs(s, LayoutElement(i))
    ensures Replace(Initializer(), s) == ParamKey(PlaceholderIndex(k)) + Replace(Initializer(), s[|LayoutElement(k)|..])
  {
    forall i | 0 <= i < k
      ensures !HasPrefix(s, Initializer()[i].0)
    {
      DiffersMisses(s, LayoutElement(i));
    }
    ReplaceHead(Initializer(), s, k);
  }

  /** A character that starts no layout element. */
  predicate StartsNoElement(c: char)
  {
    forall i :: 0 <= i < 33 ==> LayoutElement(i)[0] != c
  }

  /** The first replacer copies a character that starts no layout element. */
  lemma FirstPassCopy(s: string)
    requires |s| > 0 && StartsNoElement(s[0])
    ensures Replace(Initializer(), s) == [s[0]] + Replace(Initializer(), s[1..])
  {
    forall i | 0 <= i < 33
      ensures !HasPrefix(s, Initializer()[i].0)
    {
      HeadMismatch(s, LayoutElement(i));
    }
    ReplaceCopy(Initializer(), s);
  }

  /** The second replacer replaces the placeholder `j` at the head of `s` when every placeholder before it differs from `s`. */
  lemma SecondPassPlaceholder(t: TimeValue, env: Env, s: string, j: int)
    requires 0 <= j < 33 && HasPrefix(s, ParamKey(j))
    requires forall i :: 0 <= i < j ==> Differs(s, ParamKey(i))
    ensures Replace(Params(t, env), s) == ParamValue(t, env, j) + Replace(Params(t, env), s[|ParamKey(j)|..])
  {
    forall i | 0 <= i < j
      ensures !HasPrefix(s, Params(t, env)[i].0)
    {
      DiffersMisses(s, ParamKey(i));
    }
    ParamsKeys(t, env);
    ReplaceHead(Params(t, env), s, j);
  }

  /** A replacer whose old strings are the placeholders copies any character other than an opening brace. */
  lemma PlaceholderCopy(pairs: Pairs, s: string)
    requires |pairs| == 33 && forall j :: 0 <= j < 33 ==> pairs[j].0 == ParamKey(j)
    requires |s| > 0 && s[0] != '{'
    ensures NonEmptyKeys(pairs) && Replace(pairs, s) == [s[0]] + Replace(pairs, s[1..])
  {
    ReplaceCopyHead(pairs, s);
  }

  /** A space starts no layout element. */
  lemma SpaceStartsNoElement()
    ensures StartsNoElement(' ')
  {
  }

  /** Where the first replacer stands on "2006": element 11, which no earlier element matches. */
  lemma YearElementAt(s: string)
    requires |s| >= 4 && s[0] == '2' && s[1] == '0' && s[2] == '0' && s[3] == '6'
    ensures HasPrefix(s, LayoutElement(11)) && |LayoutElement(11)| == 4
    ensures PlaceholderIndex(11) == 0 && ParamKey(0) == "{YYYY}"
    ensures forall i :: 0 <= i < 11 ==> Differs(s, LayoutElement(i))
  {
    PrefixByChars(s, LayoutElement(11));
  }

  /** Where the first replacer stands on a '2' that does not open "2006": element 29, the day. */
  lemma DayElementAt(s: string)
    requires |s| >= 2 && s[0] == '2' && s[1] != '0'
    ensures HasPrefix(s, LayoutElement(29)) && |LayoutElement(29)| == 1
    ensures PlaceholderIndex(29) == 8 && ParamKey(8) == "{D}"
    ensures forall i :: 0 <= i < 29 ==> Differs(s, LayoutElement(i))
  {
    PrefixByChars(s, LayoutElement(29));
  }

  /** Where the first replacer stands on "Jan" that does not open "January": element 1, the month name. */
  lemma MonthElementAt(s: string)
    requires |s| >= 4 && s[0] == 'J' && s[1] == 'a' && s[2] == 'n' && s[3] != 'u'
    ensures HasPrefix(s, LayoutElement(1)) && |LayoutElement(1)| == 3
    ensures PlaceholderIndex(1) == 3 && ParamKey(3) == "{MMM}"
    ensures Differs(s, LayoutElement(0))
  {
    PrefixByChars(s, LayoutElement(1));
  }

  /** The first pass at "2006": the year. */
  lemma FirstPassYear(s: string)
    requires |s| >= 4 && s[0] == '2' && s[1] == '0' && s[2] == '0' && s[3] == '6'
    ensures Replace(Initializer(), s) == "{YYYY}" + Replace(Initializer(), s[4..])
  {
    YearElementAt(s);
    FirstPassElement(s, 11);
  }

  /** The first pass at a '2' that does not open "2006": the day without padding. */
  lemma FirstPassDay(s: string)
    requires |s| >= 2 && s[0] == '2' && s[1] != '0'
    ensures Replace(Initializer(), s) == "{D}" + Replace(Initializer(), s[1..])
  {
    DayElementAt(s);
    FirstPassElement(s, 29);
  }

  /** The first pass at "Jan" that does not open "January": the month name. */
  lemma FirstPassMonthName(s: string)
    requires |s| >= 4 && s[0] == 'J' && s[1] == 'a' && s[2] == 'n' && s[3] != 'u'
    ensures Replace(Initializer(), s) == "{MMM}" + Replace(Initializer(), s[3..])
  {
    MonthElementAt(s);
    FirstPassElement(s, 1);
  }

  /** The first pass copies a space. */
  lemma FirstPassSpace(s: string)
    requires |s| > 0 && s[0] == ' '
    ensures Replace(Initializer(), s) == " " + Replace(Initializer(), s[1..])
  {
    SpaceStartsNoElement();
    FirstPassCopy(s);
  }

  /** The pieces the first pass writes for "2 Jan 2006", put together. */
  lemma FirstPassPieces()
    ensures "{D}" + (" " + ("{MMM}" + (" " + ("{YYYY}" + [])))) == "{D} {MMM} {YYYY}"
  {
  }

  /** The first pass over a format shaped like "2 Jan 2006". */
  lemma FirstPassDayMonthYearAt(s: string)
    requires |s| == 10 && s[0] == '2' && s[1] == ' ' && s[2] == 'J' && s[3] == 'a' && s[4] == 'n'
    requires s[5] == ' ' && s[6] == '2' && s[7] == '0' && s[8] == '0' && s[9] == '6'
    ensures Replace(Initializer(), s) == "{D}" + (" " + ("{MMM}" + (" " + ("{YYYY}" + []))))
  {
    var s1, s2, s5, s6 := s[1..], s[2..], s[5..], s[6..];
    assert s6[4..] == [];
    FirstPassYear(s6);
    FirstPassSpace(s5);
    assert s5[1..] == s6;
    FirstPassMonthName(s2);
    assert s2[3..] == s5;
    FirstPassSpace(s1);
    assert s1[1..] == s2;
    FirstPassDay(s);
  }

  /** The first pass over "2 Jan 2006": the day, the month name and the year become placeholders. */
  lemma FirstPassDayMonthYear(s: string)
    requires s == "2 Jan 2006"
    ensures Replace(Initializer(), s) == "{D} {MMM} {YYYY}"
  {
    FirstPassDayMonthYearAt(s);
    FirstPassPieces();
  }

  /** Where the second replacer stands on "{D}": placeholder 8, which no earlier placeholder matches. */
  lemma DayPlaceholderAt(s: string)
    requires |s| >= 3 && s[0] == '{' && s[1] == 'D' && s[2] == '}'
    ensures |ParamKey(8)| == 3 && HasPrefix(s, ParamKey(8))
    ensures forall i :: 0 <= i < 8 ==> Differs(s, ParamKey(i))
  {
    PrefixByChars(s, ParamKey(8));
  }

  /** Where the second replacer stands on "{MMM}": placeholder 3, which no earlier placeholder matches. */
  lemma MonthPlaceholderAt(s: string)
    requires |s| >= 5 && s[0] == '{' && s[1] == 'M' && s[2] == 'M' && s[3] == 'M' && s[4] == '}'
    ensures |ParamKey(3)| == 5 && HasPrefix(s, ParamKey(3))
    ensures forall i :: 0 <= i < 3 ==> Differs(s, ParamKey(i))
  {
    PrefixByChars(s, ParamKey(3));
  }

  /** The texts of the year, month name and day placeholders. */
  lemma DateValues(t: TimeValue, env: Env)
    ensures ParamValue(t, env, 0) == YearText(t.year) && ParamValue(t, env, 3) == LocMonthName(t)
    ensures ParamValue(t, env, 8) == Itoa(t.day)
  {
  }

  /** The second pass at a placeholder that begins "{D}": the day without padding. */
  lemma SecondPassDay(t: TimeValue, env: Env, s: string)
    requires |s| >= 3 && s[0] == '{' && s[1] == 'D' && s[2] == '}'
    ensures Replace(Params(t, env), s) == Itoa(t.day) + Replace(Params(t, env), s[3..])
  {
    DayPlaceholderAt(s);
    DateValues(t, env);
    SecondPassPlaceholder(t, env, s, 8);
  }

  /** The second pass at a placeholder that begins "{MMM}": the month name of the zone. */
  lemma SecondPassMonthName(t: TimeValue, env: Env, s: string)
    requires |s| >= 5 && s[0] == '{' && s[1] == 'M' && s[2] == 'M' && s[3] == 'M' && s[4] == '}'
    ensures Replace(Params(t, env), s) == LocMonthName(t) + Replace(Params(t, env), s[5..])
  {
    MonthPlaceholderAt(s);
    DateValues(t, env);
    SecondPassPlaceholder(t, env, s, 3);
  }

  /** Where the second replacer stands on "{YYYY}": placeholder 0, the first one. */
  lemma YearPlaceholderAt(s: string)
    requires |s| >= 6 && s[0] == '{' && s[1] == 'Y' && s[2] == 'Y' && s[3] == 'Y' && s[4] == 'Y' && s[5] == '}'
    ensures |ParamKey(0)| == 6 && HasPrefix(s, ParamKey(0))
  {
    PrefixByChars(s, ParamKey(0));
  }

  /** The second pass at "{YYYY}": the year. */
  lemma SecondPassYear(t: TimeValue, env: Env, s: string)
    requires |s| >= 6 && s[0] == '{' && s[1] == 'Y' && s[2] == 'Y' && s[3] == 'Y' && s[4] == 'Y' && s[5] == '}'
    ensures Replace(Params(t, env), s) == YearText(t.year) + Replace(Params(t, env), s[6..])
  {
    YearPlaceholderAt(s);
    DateValues(t, env);
    SecondPassPlaceholder(t, env, s, 0);
  }

  /** The second pass copies a space. */
  lemma SecondPassSpace(t: TimeValue, env: Env, s: string)
    requires |s| > 0 && s[0] == ' '
    ensures Replace(Params(t, env), s) == " " + Replace(Params(t, env), s[1..])
  {
    PlaceholderCopy(Params(t, env), s);
  }

  /** The second pass over a text shaped like "{MMM} {YYYY}". */
  lemma SecondPassMonthYearAt(t: TimeValue, env: Env, s: string)
    requires |s| == 12 && s[0] == '{' && s[1] == 'M' && s[2] == 'M' && s[3] == 'M' && s[4] == '}' && s[5] == ' '
    requires s[6] == '{' && s[7] == 'Y' && s[8] == 'Y' && s[9] == 'Y' && s[10] == 'Y' && s[11] == '}'
    ensures Replace(Params(t, env), s) == LocMonthName(t) + (" " + (YearText(t.year) + []))
  {
    var s5, s6 := s[5..], s[6..];
    assert s6[6..] == [];
    SecondPassYear(t, env, s6);
    SecondPassSpace(t, env, s5);
    assert s5[1..] == s6;
    SecondPassMonthName(t, env, s);
    assert s[5..] == s5;
  }

  /** The second pass over a text shaped like "{D} {MMM} {YYYY}". */
  lemma SecondPassDayMonthYearAt(t: TimeValue, env: Env, s: string)
    requires |s| == 16 && s[0] == '{' && s[1] == 'D' && s[2] == '}' && s[3] == ' '
    requires s[4] == '{' && s[5] == 'M' && s[6] == 'M' && s[7] == 'M' && s[8] == '}' && s[9] == ' '
    requires s[10] == '{' && s[11] == 'Y' && s[12] == 'Y' && s[13] == 'Y' && s[14] == 'Y' && s[15] == '}'
    ensures Replace(Params(t, env), s) == Itoa(t.day) + (" " + (LocMonthName(t) + (" " + (YearText(t.year) + []))))
  {
    var s3, s4 := s[3..], s[4..];
    SecondPassMonthYearAt(t, env, s4);
    SecondPassSpace(t, env, s3);
    assert s3[1..] == s4;
    SecondPassDay(t, env, s);
  }

  /** The second pass over "{D} {MMM} {YYYY}": the day, the month name of the zone and the year. */
  lemma SecondPassDayMonthYear(t: TimeValue, env: Env, s: string)
    requires s == "{D} {MMM} {YYYY}"
    ensures Replace(Params(t, env), s) == Itoa(t.day) + (" " + (LocMonthName(t) + (" " + YearText(t.year))))
  {
    SecondPassDayMonthYearAt(t, env, s);
    assert YearText(t.year) + [] == YearText(t.year);
  }

  /** "2 Jan 2006" writes the day, the month name of the zone and the year, separated by spaces. */
  lemma TimeFormatDayMonthYear(t: TimeValue, env: Env)
    ensures TimeFormatText(t, env, "2 Jan 2006")
      == Itoa(t.day) + (" " + (LocMonthName(t) + (" " + YearText(t.year))))
  {
    FirstPassDayMonthYear("2 Jan 2006");
    SecondPassDayMonthYear(t, env, "{D} {MMM} {YYYY}");
  }

  /**
   * Mehr 2, 1394 as "2 Jan 2006": the Persian month name in Iran's zone,
   * the Dari one (Mizan) in Afghanistan's.
   */
  lemma TimeFormatZoneMonthNames(t: TimeValue, env: Env)
    requires t.year == 1394 && t.month == 7 && t.day == 2
    ensures t.loc == Iran ==> TimeFormatText(t, env, "2 Jan 2006") == "2 مهر 1394"
    ensures t.loc == Afghanistan ==> TimeFormatText(t, env, "2 Jan 2006") == "2 میزان 1394"
  {
    TimeFormatDayMonthYear(t, env);
    YearDigits();
    FormatTestValues();
    FormatTestTexts();
  }

  // ---------------------------------------------------------------------
  // The repository's TimeFormat test

  /** The instant of the repository's `TimeFormat` test: Mehr 2, 1394, a Thursday, 14:07:08.052065090 in Iran. */
  predicate IsLayoutTestTime(t: TimeValue, env: Env)
  {
    t.year == 1394 && t.month == 7 && t.day == 2 && t.hour == 14 && t.min == 7 && t.sec == 8
    && t.nsec == 52065090 && t.loc == Iran && t.wday == 5 && env.offset == 12600
  }

  /** A one-digit value with `%02d`, with `%2d` and with `strconv.Itoa`. */
  lemma OneDigit(v: int)
    requires 0 <= v < 10
    ensures FormatDecimal(v, 2, false, true) == ['0', DigitChar(v)]
    ensures FormatDecimal(v, 2, false, false) == [' ', DigitChar(v)]
    ensures Itoa(v) == [DigitChar(v)]
  {
  }

  /** The numbers of the test instant as `TimeFormat` writes them. */
  lemma LayoutTestNumbers()
    ensures YearText(1394) == "1394" && "1394"[2..] == "94"
    ensures FormatDecimal(14, 2, false, true) == "14"
    ensures NsecText(52065090) == "52065090"
  {
    YearDigits();
    LayoutTestHour();
    LayoutTestNsec();
  }

  /** The hour 14 as `%02d` writes it. */
  lemma LayoutTestHour()
    ensures FormatDecimal(14, 2, false, true) == "14"
  {
    assert Digits(14) == Digits(1) + [DigitChar(4)];
    FormatDecimalWide(14, 2, true);
  }

  /** The nanoseconds 52065090 as `TimeFormat` writes them. */
  lemma LayoutTestNsec()
    ensures NsecText(52065090) == "52065090"
  {
    assert Digits(52) == Digits(5) + [DigitChar(2)];
    assert Digits(520) == Digits(52) + [DigitChar(0)];
    assert Digits(5206) == Digits(520) + [DigitChar(6)];
    assert Digits(52065) == Digits(5206) + [DigitChar(5)];
    assert Digits(520650) == Digits(52065) + [DigitChar(0)];
    assert Digits(5206509) == Digits(520650) + [DigitChar(9)];
    assert Digits(52065090) == Digits(5206509) + [DigitChar(0)];
  }

  /** Trailing zeros trimmed from the three fractions of the test instant. */
  lemma LayoutTestTrims()
    ensures TrimRight(".52065090", '0') == ".5206509"
    ensures TrimRight(".520650", '0') == ".52065"
    ensures TrimRight(".520", '0') == ".52"
  {
    assert ".52065090"[..8] == ".5206509";
    assert ".520650"[..6] == ".52065";
    assert ".520"[..3] == ".52";
  }

  /** The texts the test expects of the date placeholders. */
  predicate LayoutTestDateTexts(t: TimeValue, env: Env)
  {
    ParamValue(t, env, 0) == "1394"
    && ParamValue(t, env, 1) == "94"
    && ParamValue(t, env, 2) == "مهر"
    && ParamValue(t, env, 3) == "مهر"
    && ParamValue(t, env, 4) == "07"
    && ParamValue(t, env, 5) == "7"
    && ParamValue(t, env, 6) == "02"
    && ParamValue(t, env, 7) == " 2"
    && ParamValue(t, env, 8) == "2"
    && ParamValue(t, env, 9) == "پنج\U{200C}شنبه"
    && ParamValue(t, env, 10) == "پ"
  }

  /** The texts the test expects of the clock placeholders. */
  predicate LayoutTestClockTexts(t: TimeValue, env: Env)
  {
    ParamValue(t, env, 12) == "14"
    && ParamValue(t, env, 13) == "02"
    && ParamValue(t, env, 14) == "2"
    && ParamValue(t, env, 15) == "07"
    && ParamValue(t, env, 16) == "7"
    && ParamValue(t, env, 17) == "08"
    && ParamValue(t, env, 18) == "8"
  }

  /** The texts the test expects of the fraction placeholders. */
  predicate LayoutTestFractionTexts(t: TimeValue, env: Env)
  {
    ParamValue(t, env, 19) == ".52065090"
    && ParamValue(t, env, 20) == ".520650"
    && ParamValue(t, env, 21) == ".520"
    && ParamValue(t, env, 22) == ".5206509"
    && ParamValue(t, env, 23) == ".52065"
    && ParamValue(t, env, 24) == ".52"
  }

  /** The texts the test expects of the half-day, zone name and offset placeholders. */
  predicate LayoutTestZoneTexts(t: TimeValue, env: Env)
  {
    ParamValue(t, env, 25) == "بعد از ظهر"
    && ParamValue(t, env, 26) == "ب.ظ"
    && ParamValue(t, env, 27) == "Asia/Tehran"
    && ParamValue(t, env, 28) == "+0330"
    && ParamValue(t, env, 29) == "+03:30"
    && ParamValue(t, env, 30) == "+0330"
    && ParamValue(t, env, 31) == "+03:30"
    && ParamValue(t, env, 32) == "+03"
  }

  /** The texts of the date placeholders at the test instant. */
  lemma LayoutTestDateValues(t: TimeValue, env: Env)
    requires IsLayoutTestTime(t, env)
    ensures LayoutTestDateTexts(t, env)
  {
    LayoutTestNumbers();
    OneDigit(7);
    OneDigit(2);
  }

  /** The texts of the clock placeholders at the test instant. */
  lemma LayoutTestClockValues(t: TimeValue, env: Env)
    requires IsLayoutTestTime(t, env)
    ensures LayoutTestClockTexts(t, env)
  {
    LayoutTestNumbers();
    assert Hour12(t) == 2;
    OneDigit(2);
    OneDigit(7);
    OneDigit(8);
  }

  /** The texts of the fraction placeholders at the test instant: eight digits, never padded to nine. */
  lemma LayoutTestFractionValues(t: TimeValue, env: Env)
    requires IsLayoutTestTime(t, env)
    ensures LayoutTestFractionTexts(t, env)
  {
    LayoutTestNumbers();
    LayoutTestTrims();
    assert "52065090"[..6] == "520650" && "52065090"[..3] == "520";
  }

  /** The texts of the half-day, zone name and zone offset placeholders at the test instant. */
  lemma LayoutTestZoneValues(t: TimeValue, env: Env)
    requires IsLayoutTestTime(t, env)
    ensures LayoutTestZoneTexts(t, env)
  {
    ZoneOffsetRows();
    assert AmPm(t) == 1;
  }


  /** The layouts of the repository's `TimeFormat` test, 32 of them, and the text each must give at the test instant. */
  function LayoutTestCase(i: int): (string, string)
  {
    match i
    case 0 => ("2006", "1394")
    case 1 => ("06", "94")
    case 2 => ("01", "07")
    case 3 => ("1", "7")
    case 4 => ("Jan", "مهر")
    case 5 => ("January", "مهر")
    case 6 => ("02", "02")
    case 7 => ("2", "2")
    case 8 => ("_2", " 2")
    case 9 => ("Mon", "پ")
    case 10 => ("Monday", "پنج\U{200C}شنبه")
    case 11 => ("03", "02")
    case 12 => ("3", "2")
    case 13 => ("15", "14")
    case 14 => ("04", "07")
    case 15 => ("4", "7")
    case 16 => ("05", "08")
    case 17 => ("5", "8")
    case 18 => (".000", ".520")
    case 19 => (".000000", ".520650")
    case 20 => (".000000000", ".52065090")
    case 21 => (".999", ".52")
    case 22 => (".999999", ".52065")
    case 23 => (".999999999", ".5206509")
    case 24 => ("PM", "بعد از ظهر")
    case 25 => ("pm", "ب.ظ")
    case 26 => ("MST", "Asia/Tehran")
    case 27 => ("-0700", "+0330")
    case 28 => ("-07", "+03")
    case 29 => ("-07:00", "+03:30")
    case 30 => ("Z0700", "+0330")
    case _ => ("Z07:00", "+03:30")
  }

  /** The index in the layout table of each layout of the test. */
  function LayoutTestElement(i: int): (k: int)
    ensures 0 <= k < 33 && k != 4
  {
    match i
    case 0 => 11 case 1 => 21 case 2 => 22 case 3 => 28 case 4 => 1 case 5 => 0 case 6 => 23 case 7 => 29 case 8 => 27 case 9 => 3 case 10 => 2 case 11 => 24 case 12 => 30 case 13 => 20 case 14 => 25 case 15 => 31 case 16 => 26 case 17 => 32 case 18 => 7 case 19 => 6 case 20 => 5 case 21 => 10 case 22 => 9 case 23 => 8 case 24 => 12 case 25 => 13 case 26 => 14 case 27 => 17 case 28 => 19 case 29 => 18 case 30 => 15 case _ => 16
  }

  /** The text the test expects of placeholder `j` (the half-day name `{n}`, which no layout of the test uses, gives none). */
  function LayoutTestText(j: int): string
  {
    match j
    case 0 => "1394"
    case 1 => "94"
    case 2 => "مهر"
    case 3 => "مهر"
    case 4 => "07"
    case 5 => "7"
    case 6 => "02"
    case 7 => " 2"
    case 8 => "2"
    case 9 => "پنج\U{200C}شنبه"
    case 10 => "پ"
    case 12 => "14"
    case 13 => "02"
    case 14 => "2"
    case 15 => "07"
    case 16 => "7"
    case 17 => "08"
    case 18 => "8"
    case 19 => ".52065090"
    case 20 => ".520650"
    case 21 => ".520"
    case 22 => ".5206509"
    case 23 => ".52065"
    case 24 => ".52"
    case 25 => "بعد از ظهر"
    case 26 => "ب.ظ"
    case 27 => "Asia/Tehran"
    case 28 => "+0330"
    case 29 => "+03:30"
    case 30 => "+0330"
    case 31 => "+03:30"
    case 32 => "+03"
    case _ => ""
  }

  /** Rows 0 to 7 of the test: layout elements, with the texts of their placeholders. */
  lemma LayoutTestLayoutsDate(i: int)
    requires 0 <= i < 8
    ensures LayoutTestCase(i).0 == LayoutElement(LayoutTestElement(i))
    ensures LayoutTestCase(i).1 == LayoutTestText(PlaceholderIndex(LayoutTestElement(i)))
  {
  }

  /** Rows 8 to 15 of the test: layout elements, with the texts of their placeholders. */
  lemma LayoutTestLayoutsClock(i: int)
    requires 8 <= i < 16
    ensures LayoutTestCase(i).0 == LayoutElement(LayoutTestElement(i))
    ensures LayoutTestCase(i).1 == LayoutTestText(PlaceholderIndex(LayoutTestElement(i)))
  {
  }

  /** Rows 16 to 23 of the test: layout elements, with the texts of their placeholders. */
  lemma LayoutTestLayoutsFraction(i: int)
    requires 16 <= i < 24
    ensures LayoutTestCase(i).0 == LayoutElement(LayoutTestElement(i))
    ensures LayoutTestCase(i).1 == LayoutTestText(PlaceholderIndex(LayoutTestElement(i)))
  {
  }

  /** Rows 24 to 31 of the test: layout elements, with the texts of their placeholders. */
  lemma LayoutTestLayoutsZone(i: int)
    requires 24 <= i < 32
    ensures LayoutTestCase(i).0 == LayoutElement(LayoutTestElement(i))
    ensures LayoutTestCase(i).1 == LayoutTestText(PlaceholderIndex(LayoutTestElement(i)))
  {
  }

  /** Every placeholder the test uses has the text the test expects. */
  predicate LayoutTestTexts(t: TimeValue, env: Env)
  {
    forall j :: 0 <= j < 33 && j != 11 ==> ParamValue(t, env, j) == LayoutTestText(j)
  }

  /** A date placeholder has the text the test expects. */
  lemma LayoutTestDateParam(t: TimeValue, env: Env, j: int)
    requires LayoutTestDateTexts(t, env) && 0 <= j < 11
    ensures ParamValue(t, env, j) == LayoutTestText(j)
  {
  }

  /** A clock placeholder has the text the test expects. */
  lemma LayoutTestClockParam(t: TimeValue, env: Env, j: int)
    requires LayoutTestClockTexts(t, env) && 12 <= j < 19
    ensures ParamValue(t, env, j) == LayoutTestText(j)
  {
  }

  /** A fraction placeholder has the text the test expects. */
  lemma LayoutTestFractionParam(t: TimeValue, env: Env, j: int)
    requires LayoutTestFractionTexts(t, env) && 19 <= j < 25
    ensures ParamValue(t, env, j) == LayoutTestText(j)
  {
  }

  /** A half-day, zone name or first offset placeholder has the text the test expects. */
  lemma LayoutTestZoneParam(t: TimeValue, env: Env, j: int)
    requires LayoutTestZoneTexts(t, env) && 25 <= j < 29
    ensures ParamValue(t, env, j) == LayoutTestText(j)
  {
  }

  /** One of the other offset placeholders has the text the test expects. */
  lemma LayoutTestOffsetParam(t: TimeValue, env: Env, j: int)
    requires LayoutTestZoneTexts(t, env) && 29 <= j < 33
    ensures ParamValue(t, env, j) == LayoutTestText(j)
  {
  }

  /** The four groups of placeholder texts together. */
  lemma LayoutTestTextsOfGroups(t: TimeValue, env: Env)
    requires LayoutTestDateTexts(t, env) && LayoutTestClockTexts(t, env)
    requires LayoutTestFractionTexts(t, env) && LayoutTestZoneTexts(t, env)
    ensures LayoutTestTexts(t, env)
  {
    forall j | 0 <= j < 33 && j != 11
      ensures ParamValue(t, env, j) == LayoutTestText(j)
    {
      if j < 11 {
        LayoutTestDateParam(t, env, j);
      } else if j < 19 {
        LayoutTestClockParam(t, env, j);
      } else if j < 25 {
        LayoutTestFractionParam(t, env, j);
      } else if j < 29 {
        LayoutTestZoneParam(t, env, j);
      } else {
        LayoutTestOffsetParam(t, env, j);
      }
    }
  }

  /** A layout element whose placeholder has the text the test expects writes that text. */
  lemma LayoutTestElementText(t: TimeValue, env: Env, k: int)
    requires 0 <= k < 33 && ParamValue(t, env, PlaceholderIndex(k)) == LayoutTestText(PlaceholderIndex(k))
    ensures TimeFormatText(t, env, LayoutElement(k)) == LayoutTestText(PlaceholderIndex(k))
  {
    TimeFormatElement(t, env, k);
  }

  /** One row of the test. */
  lemma LayoutTestRow(t: TimeValue, env: Env, i: int)
    requires LayoutTestTexts(t, env) && 0 <= i < 32
    ensures TimeFormatText(t, env, LayoutTestCase(i).0) == LayoutTestCase(i).1
  {
    if i < 8 {
      LayoutTestLayoutsDate(i);
    } else if i < 16 {
      LayoutTestLayoutsClock(i);
    } else if i < 24 {
      LayoutTestLayoutsFraction(i);
    } else {
      LayoutTestLayoutsZone(i);
    }
    var k := LayoutTestElement(i);
    assert PlaceholderIndex(k) != 11;
    LayoutTestElementText(t, env, k);
  }

  /**
   * The repository's `TimeFormat` test: at its instant every layout of the
   * table writes the expected text, the fractions included, whose eight
   * digits are cut without being padded to nine.
   */
  lemma LayoutTestTable(t: TimeValue, env: Env)
    requires IsLayoutTestTime(t, env)
    ensures forall i :: 0 <= i < 32 ==> TimeFormatText(t, env, LayoutTestCase(i).0) == LayoutTestCase(i).1
  {
    LayoutTestDateValues(t, env);
    LayoutTestClockValues(t, env);
    LayoutTestFractionValues(t, env);
    LayoutTestZoneValues(t, env);
    LayoutTestTextsOfGroups(t, env);
    forall i | 0 <= i < 32
      ensures TimeFormatText(t, env, LayoutTestCase(i).0) == LayoutTestCase(i).1
    {
      LayoutTestRow(t, env, i);
    }
  }

}
