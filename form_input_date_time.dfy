/**
 * The date, time and datetime input base component: display-format rewriting
 * for the picker plugins, the option lists of the time selector, the
 * translation between a time value and its hour, minute, second and meridiem
 * parts, and the date-time validation cascade pattern, type, range.
 *
 * The date-time validation mixin (`isCorrectPattern`, `isCorrectType`,
 * `isCorrectRange`, `propertyResolver`, `partsResolver`) is not part of this
 * model; what it provides is passed in as parameters.
 */
module DatetimeInput {
  import opened Js
  import opened Cascade
  import opened FormControl

  // ---------------------------------------------------------------------------
  // Display formats

  /** The default `dateDisplayFormat`. */
  const DefaultDateDisplayFormat := "MM/DD/YYYY"

  /** The default `timeDisplayFormat`. */
  const DefaultTimeDisplayFormat := "HH:mm"

  /** `datetimeDisplayFormat`: the date format, a space, the time format.
      Split on ' ', a date format without spaces is the first piece, and the
      time format follows as at least one more piece. */
  function DatetimeDisplayFormat(dateFormat: string, timeFormat: string): (r: string)
    ensures ' ' !in dateFormat ==> |Split(r, ' ')| >= 2 && Split(r, ' ')[0] == dateFormat
  {
    JoinedFormatPieces(dateFormat, timeFormat);
    dateFormat + " " + timeFormat
  }

  /** The datetime format splits on ' ' into the date format's pieces, then
      the time format's; its first piece is the date format's first piece. */
  lemma DatetimeDisplayFormatPieces(dateFormat: string, timeFormat: string)
    ensures Split(DatetimeDisplayFormat(dateFormat, timeFormat), ' ')[0] == Split(dateFormat, ' ')[0]
    ensures ' ' !in dateFormat ==>
      Split(DatetimeDisplayFormat(dateFormat, timeFormat), ' ') == [dateFormat] + Split(timeFormat, ' ')
  {
    JoinedFormatPieces(dateFormat, timeFormat);
  }

  /** How two formats joined by a space split on ' '. */
  lemma JoinedFormatPieces(a: string, b: string)
    ensures Split(a + " " + b, ' ')[0] == Split(a, ' ')[0]
    ensures ' ' !in a ==> Split(a + " " + b, ' ') == [a] + Split(b, ' ')
  {
    assert a + " " + b == a + [' '] + b;
    PrefixFirstPiece(a, b, ' ');
    if ' ' !in a {
      SplitConcat(a, b, ' ');
    }
  }

  /** The first piece of `a + [c] + b` is the first piece of `a`. */
  lemma {:induction false} PrefixFirstPiece(a: string, b: string, c: char)
    ensures Split(a + [c] + b, c)[0] == Split(a, c)[0]
  {
    var s := a + [c] + b;
    if a == [] {
      assert s[1..] == b;
    } else {
      assert s[1..] == a[1..] + [c] + b;
      PrefixFirstPiece(a[1..], b, c);
    }
  }

  /** `normalizeDateFormat`: the component's date tokens rewritten into the
      tokens of the date picker plugin. The rewrite of 'YYYY' to 'yy' is
      computed and then discarded by the next line, which starts again from
      the display format; `DiscardedYearRewriteHarmless` shows that this makes
      no difference. */
  function NormalizeDateFormat(displayFormat: string): (r: string)
    ensures |r| <= |displayFormat|
    ensures 'Y' !in displayFormat && 'M' !in displayFormat && 'D' !in displayFormat ==> r == displayFormat
  {
    DateRewriteBounds(displayFormat);
    var pluginFormat := ReplaceAll(displayFormat, "YY", "y");
    var pluginFormat := ReplaceAll(pluginFormat, "MMM", "M");
    var pluginFormat := ReplaceAll(pluginFormat, "MM", "mm");
    ReplaceAll(pluginFormat, "DD", "dd")
  }

  /** None of the date rewrites lengthens the text, and text without the
      letters 'Y', 'M' and 'D' passes through all of them unchanged. */
  lemma DateRewriteBounds(s: string)
    ensures var r := ReplaceAll(ReplaceAll(ReplaceAll(ReplaceAll(s, "YY", "y"), "MMM", "M"), "MM", "mm"), "DD", "dd");
      |r| <= |s| && ('Y' !in s && 'M' !in s && 'D' !in s ==> r == s)
  {
    var years := ReplaceAll(s, "YY", "y");
    var months := ReplaceAll(years, "MMM", "M");
    var monthsLower := ReplaceAll(months, "MM", "mm");
    ReplaceAllNoLonger(s, "YY", "y");
    ReplaceAllNoLonger(years, "MMM", "M");
    ReplaceAllNoLonger(months, "MM", "mm");
    ReplaceAllNoLonger(monthsLower, "DD", "dd");
    if 'Y' !in s && 'M' !in s && 'D' !in s {
      PatternAbsent(s, "YY", "y");
      PatternAbsent(s, "MMM", "M");
      PatternAbsent(s, "MM", "mm");
      PatternAbsent(s, "DD", "dd");
    }
  }

  /** The rewrite the code evidently meant: 'YYYY', then 'YY', chained. */
  function ChainedDateFormat(displayFormat: string): string
  {
    var pluginFormat := ReplaceAll(displayFormat, "YYYY", "yy");
    var pluginFormat := ReplaceAll(pluginFormat, "YY", "y");
    var pluginFormat := ReplaceAll(pluginFormat, "MMM", "M");
    var pluginFormat := ReplaceAll(pluginFormat, "MM", "mm");
    ReplaceAll(pluginFormat, "DD", "dd")
  }

  /** Discarding the 'YYYY' rewrite gives the same plugin format as chaining it. */
  lemma DiscardedYearRewriteHarmless(displayFormat: string)
    ensures NormalizeDateFormat(displayFormat) == ChainedDateFormat(displayFormat)
  {
    YearRewrites(displayFormat);
  }

  /** Rewriting 'YYYY' to 'yy' before 'YY' to 'y' gives what 'YY' to 'y'
      alone gives. */
  predicate YearRewritesAgree(s: string)
  {
    ReplaceAll(ReplaceAll(s, "YYYY", "yy"), "YY", "y") == ReplaceAll(s, "YY", "y")
  }

  /** Rewriting 'YYYY' to 'yy' first does not change the result of rewriting
      'YY' to 'y': both turn a run of n letters 'Y' into n/2 letters 'y'
      followed by n%2 letters 'Y'. */
  lemma {:induction false} YearRewrites(s: string)
    ensures YearRewritesAgree(s)
    decreases |s|
  {
    if |s| >= 4 && s[..4] == "YYYY" {
      YearRewrites(s[4..]);
      FourYearsStep(s);
    } else if s != [] && s[0] != 'Y' {
      YearRewrites(s[1..]);
      OtherCharStep(s);
    } else if |s| >= 2 && s[1] == 'Y' {
      YearRewrites(s[2..]);
      TwoYearsStep(s);
    } else if s != [] {
      YearRewrites(s[1..]);
      OneYearStep(s);
    }
  }

  /** The step for a string that starts with 'YYYY'. */
  lemma FourYearsStep(s: string)
    requires |s| >= 4 && s[..4] == "YYYY" && YearRewritesAgree(s[4..])
    ensures YearRewritesAgree(s)
  {
    var rest := s[4..];
    assert s == "YYYY" + rest;
    ReplaceAllMatch("YYYY", rest, "yy");
    var t := ReplaceAll(rest, "YYYY", "yy");
    FirstCharMismatch(['y'] + ("y" + t), "YY");
    ReplaceAllSkip('y', "y" + t, "YY", "y");
    assert "yy" + t == ['y'] + ("y" + t);
    FirstCharMismatch(['y'] + t, "YY");
    ReplaceAllSkip('y', t, "YY", "y");
    assert "y" + t == ['y'] + t;
    ReplaceAllMatch("YY", "YY" + rest, "y");
    assert s == "YY" + ("YY" + rest);
    ReplaceAllMatch("YY", rest, "y");
  }

  /** The step for a string that starts with a character other than 'Y'. */
  lemma OtherCharStep(s: string)
    requires s != [] && s[0] != 'Y' && YearRewritesAgree(s[1..])
    ensures YearRewritesAgree(s)
  {
    NoMatchStep(s);
    var t := ReplaceAll(s[1..], "YYYY", "yy");
    FirstCharMismatch([s[0]] + t, "YY");
    ReplaceAllSkip(s[0], t, "YY", "y");
    ReplaceAllSkip(s[0], s[1..], "YY", "y");
    assert [s[0]] + s[1..] == s;
  }

  /** The step for a string that starts with exactly two or three letters 'Y'. */
  lemma TwoYearsStep(s: string)
    requires |s| >= 2 && s[0] == 'Y' && s[1] == 'Y' && !(|s| >= 4 && s[..4] == "YYYY")
    requires YearRewritesAgree(s[2..])
    ensures YearRewritesAgree(s)
  {
    var tail := s[1..];
    var rest := s[2..];
    assert tail == ['Y'] + rest;
    assert !(|tail| >= 4 && tail[..4] == "YYYY") by {
      if |tail| >= 4 {
        assert s[..4] == [s[0]] + tail[..3];
        assert tail[..4][..3] == tail[..3];
      }
    }
    NoMatchStep(s);
    NoMatchStep(tail);
    assert tail[1..] == rest;
    var u := ReplaceAll(rest, "YYYY", "yy");
    assert ReplaceAll(s, "YYYY", "yy") == "YY" + u;
    ReplaceAllMatch("YY", u, "y");
    assert s == "YY" + rest;
    ReplaceAllMatch("YY", rest, "y");
  }

  /** The step for a string that starts with a single letter 'Y'. */
  lemma OneYearStep(s: string)
    requires s != [] && s[0] == 'Y' && !(|s| >= 2 && s[1] == 'Y')
    requires YearRewritesAgree(s[1..])
    ensures YearRewritesAgree(s)
  {
    NoMatchStep(s);
    var t := ReplaceAll(s[1..], "YYYY", "yy");
    assert !OccursAt(s, "YY", 0);
    assert !OccursAt([s[0]] + t, "YY", 0) by {
      if s[1..] != [] {
        NoMatchStep(s[1..]);
        assert t[0] == s[1];
      }
    }
    ReplaceAllSkip(s[0], t, "YY", "y");
    ReplaceAllSkip(s[0], s[1..], "YY", "y");
    assert [s[0]] + s[1..] == s;
  }

  /** A string that does not start with 'YYYY' keeps its first character
      under the 'YYYY' rewrite. */
  lemma NoMatchStep(s: string)
    requires s != [] && !(|s| >= 4 && s[..4] == "YYYY")
    ensures ReplaceAll(s, "YYYY", "yy") == [s[0]] + ReplaceAll(s[1..], "YYYY", "yy")
  {
    if |s| < 4 {
      assert ReplaceAll(s[1..], "YYYY", "yy") == s[1..];
      assert [s[0]] + s[1..] == s;
    } else {
      assert s[..4] != "YYYY";
    }
  }

  /** The default date format becomes the plugin format 'mm/dd/yy'. */
  lemma DefaultDatePluginFormat()
    ensures NormalizeDateFormat(DefaultDateDisplayFormat) == "mm/dd/yy"
  {
    DefaultYearStep();
    DefaultMonthStep();
    DefaultDayStep();
  }

  lemma DefaultYearStep()
    ensures ReplaceAll("MM/DD/YYYY", "YY", "y") == "MM/DD/yy"
  {
    ReplaceAllMatch("YY", "", "y");
    ReplaceAllMatch("YY", "YY", "y");
    assert "YY" + "YY" == "YYYY";
    SkipPrefix("MM/DD/", "YYYY", "YY", "y");
    assert "MM/DD/" + "YYYY" == "MM/DD/YYYY";
  }

  lemma DefaultMonthStep()
    ensures ReplaceAll(ReplaceAll("MM/DD/yy", "MMM", "M"), "MM", "mm") == "mm/DD/yy"
  {
    MonthRewrite("/DD/yy");
    assert "MM" + "/DD/yy" == "MM/DD/yy";
    assert "mm" + "/DD/yy" == "mm/DD/yy";
  }

  /** A lone 'MM' month token becomes 'mm'. */
  lemma MonthRewrite(r: string)
    requires 'M' !in r && r != []
    ensures ReplaceAll(ReplaceAll("MM" + r, "MMM", "M"), "MM", "mm") == "mm" + r
  {
    var s := ['M'] + (['M'] + r);
    assert s == "MM" + r;
    assert !OccursAt(s, "MMM", 0) by {
      assert s[2] == r[0];
    }
    FirstCharMismatch(r, "MMM");
    ReplaceAllSkip('M', ['M'] + r, "MMM", "M");
    assert !OccursAt(['M'] + r, "MMM", 0) by {
      assert (['M'] + r)[1] == r[0];
    }
    ReplaceAllSkip('M', r, "MMM", "M");
    PatternAbsent(r, "MMM", "M");
    PatternAbsent(r, "MM", "mm");
    ReplaceAllMatch("MM", r, "mm");
  }

  lemma DefaultDayStep()
    ensures ReplaceAll("mm/DD/yy", "DD", "dd") == "mm/dd/yy"
  {
    DayRewrite("mm/", "/yy");
    assert "mm/" + "DD" + "/yy" == "mm/DD/yy";
    assert "mm/" + "dd" + "/yy" == "mm/dd/yy";
  }

  /** A lone 'DD' day token becomes 'dd'. */
  lemma DayRewrite(p: string, r: string)
    requires 'D' !in p && 'D' !in r
    ensures ReplaceAll(p + "DD" + r, "DD", "dd") == p + "dd" + r
  {
    PatternAbsent(r, "DD", "dd");
    ReplaceAllMatch("DD", r, "dd");
    SkipPrefix(p, "DD" + r, "DD", "dd");
    assert p + "DD" + r == p + ("DD" + r);
    assert p + "dd" + r == p + ("dd" + r);
  }

  /** The hour token of a datetime display format: the text before the first
      ':' in the second space-separated token, when that token is non-empty. */
  function DatetimeHourFormat(datetimeFormat: string): (r: Option<string>)
    ensures r.Some? ==> ':' !in r.value && ' ' !in r.value
  {
    var parserArray := Split(datetimeFormat, ' ');
    if |parserArray| > 1 && parserArray[1] != "" then
      SplitJoin(datetimeFormat, ' ');
      SplitJoin(parserArray[1], ':');
      assert ' ' !in parserArray[1];
      SplitFirstIsPrefix(parserArray[1], ':');
      Some(Split(parserArray[1], ':')[0])
    else None
  }

  /** The first piece of a split is a prefix of the string. */
  lemma {:induction false} SplitFirstIsPrefix(s: string, c: char)
    ensures |Split(s, c)[0]| <= |s| && Split(s, c)[0] == s[..|Split(s, c)[0]|]
  {
    if s != [] {
      SplitFirstIsPrefix(s[1..], c);
    }
  }

  /** `normalizeDatetimeFormat`: with a 12-hour hour token, the first 'hh' of
      the whole format loses its leading zero; otherwise the format is kept. */
  function NormalizeDatetimeFormat(datetimeFormat: string): (r: string)
    ensures var hf := DatetimeHourFormat(datetimeFormat);
      !(hf.Some? && 'h' in hf.value) ==> r == datetimeFormat
    ensures var hf := DatetimeHourFormat(datetimeFormat);
      hf.Some? && 'h' in hf.value ==> r == ReplaceFirst(datetimeFormat, "hh", "h")
  {
    var hourFormat := DatetimeHourFormat(datetimeFormat);
    if hourFormat.Some? && hourFormat.value != "" && IndexOf(hourFormat.value, "h") > -1
    then
      assert IndexOf(hourFormat.value, "h") > -1 <==> 'h' in hourFormat.value by {
        IndexOfChar(hourFormat.value, 'h');
      }
      ReplaceFirst(datetimeFormat, "hh", "h")
    else
      assert hourFormat.Some? && hourFormat.value != "" ==> (IndexOf(hourFormat.value, "h") > -1 <==> 'h' in hourFormat.value) by {
        if hourFormat.Some? && hourFormat.value != "" {
          IndexOfChar(hourFormat.value, 'h');
        }
      }
      datetimeFormat
  }

  /** `s.indexOf(c) > -1` holds exactly when `c` occurs in `s`. */
  lemma IndexOfChar(s: string, c: char)
    ensures IndexOf(s, [c]) > -1 <==> c in s
  {
    if c in s {
      var i :| 0 <= i < |s| && s[i] == c;
      assert OccursAt(s, [c], i);
    } else {
      forall i | 0 <= i <= |s| ensures !OccursAt(s, [c], i) {
        if i < |s| {
          assert s[i..i + 1] == [s[i]];
        }
      }
    }
  }

  /** The plugin format differs from the display format only in that one
      'h' of the first 'hh' is removed. */
  lemma DatetimePluginFormatShape(datetimeFormat: string)
    ensures var r := NormalizeDatetimeFormat(datetimeFormat);
      r == datetimeFormat
      || (var k := IndexOf(datetimeFormat, "hh");
          k >= 0 && r == datetimeFormat[..k] + "h" + datetimeFormat[k + 2..])
  {
    ReplaceFirstAtIndexOf(datetimeFormat, "hh", "h");
  }

  /** A 24-hour datetime format is passed to the plugin unchanged. */
  lemma DefaultDatetimePluginFormat()
    ensures NormalizeDatetimeFormat(DatetimeDisplayFormat(DefaultDateDisplayFormat, DefaultTimeDisplayFormat))
      == "MM/DD/YYYY HH:mm"
  {
    DefaultDatetimeDisplayFormat();
    DefaultDatetimeHourFormat();
  }

  /** The default datetime format is 'MM/DD/YYYY HH:mm'. */
  lemma DefaultDatetimeDisplayFormat()
    ensures DatetimeDisplayFormat(DefaultDateDisplayFormat, DefaultTimeDisplayFormat) == "MM/DD/YYYY HH:mm"
  {
  }

  /** The hour token of the default datetime format is 'HH'. */
  lemma DefaultDatetimeHourFormat()
    ensures DatetimeHourFormat("MM/DD/YYYY HH:mm") == Some("HH")
  {
    HourToken("MM/DD/YYYY", "HH", "mm");
    assert "MM/DD/YYYY" + [' '] + ("HH" + [':'] + "mm") == "MM/DD/YYYY HH:mm";
  }

  /** The hour token of a datetime format 'date hour:rest' is 'hour'. */
  lemma HourToken(date: string, hour: string, rest: string)
    requires ' ' !in date && ' ' !in hour && ' ' !in rest && ':' !in hour
    ensures DatetimeHourFormat(date + [' '] + (hour + [':'] + rest)) == Some(hour)
  {
    var time := hour + [':'] + rest;
    assert ' ' !in time;
    SplitConcat(date, time, ' ');
    SplitConcat(hour, rest, ':');
    assert Split(date + [' '] + time, ' ') == [date, time];
  }

  // ---------------------------------------------------------------------------
  // Time-selector option lists

  /** One entry of a drop-down: the value bound to the select and its label. */
  datatype SelectOption = SelectOption(value: string, labelText: string)

  /** The hours list is 12-hour when the first two characters of the time
      format hold an 'h'. */
  predicate TwelveHourList(timeDisplayFormat: string)
  {
    'h' in timeDisplayFormat[..if |timeDisplayFormat| < 2 then |timeDisplayFormat| else 2]
  }

  /** `hoursOptionValues`: '1'..'12' for a 12-hour format, unpadded, else
      '00'..'23', two characters each; every value is its own label. */
  method HoursOptionValues(timeDisplayFormat: string) returns (hours: seq<SelectOption>)
    ensures TwelveHourList(timeDisplayFormat) ==> |hours| == 12
    ensures !TwelveHourList(timeDisplayFormat) ==> |hours| == 24
    ensures forall k :: 0 <= k < |hours| ==> hours[k].value == hours[k].labelText && IsDigits(hours[k].value)
    ensures TwelveHourList(timeDisplayFormat) ==> forall k :: 0 <= k < |hours| ==>
      ParseDecimal(hours[k].value) == k + 1 && hours[k].value[0] != '0'
    ensures !TwelveHourList(timeDisplayFormat) ==> forall k :: 0 <= k < |hours| ==>
      ParseDecimal(hours[k].value) == k && |hours[k].value| == 2
  {
    var hoursFormat := timeDisplayFormat[..if |timeDisplayFormat| < 2 then |timeDisplayFormat| else 2];
    IndexOfChar(hoursFormat, 'h');
    var numHours := if IndexOf(hoursFormat, "h") > -1 then 13 else 24;
    assert numHours == 13 <==> TwelveHourList(timeDisplayFormat);
    var start := if numHours == 24 then 0 else 1;
    hours := [];
    var i := start;
    while i < numHours
      invariant start <= i <= numHours
      invariant |hours| == i - start
      invariant forall k :: 0 <= k < |hours| ==> IsHourOption(hours[k], k + start, numHours == 24)
    {
      var hour := if numHours == 24 && i < 10 then "0" + NatToString(i) else NatToString(i);
      OptionLabel(i, numHours == 24);
      hours := hours + [SelectOption(hour, hour)];
      i := i + 1;
    }
    HourOptionsMeaning(hours, start, numHours == 24);
  }

  /** What a list of hour entries starting at `start` says entry by entry. */
  lemma HourOptionsMeaning(hours: seq<SelectOption>, start: nat, padded: bool)
    requires forall k :: 0 <= k < |hours| ==> IsHourOption(hours[k], k + start, padded)
    ensures forall k :: 0 <= k < |hours| ==> hours[k].value == hours[k].labelText && IsDigits(hours[k].value)
    ensures !padded ==> forall k :: 0 <= k < |hours| ==>
      ParseDecimal(hours[k].value) == k + start && hours[k].value != [] && hours[k].value[0] != '0'
    ensures padded ==> forall k :: 0 <= k < |hours| ==>
      ParseDecimal(hours[k].value) == k + start && |hours[k].value| == 2
  {
  }

  /** An entry of the hours list for hour `n`: its own label, digits that
      read back as `n`, two of them when `padded`, else no leading zero. */
  predicate IsHourOption(option: SelectOption, n: nat, padded: bool)
  {
    && option.value == option.labelText && IsDigits(option.value) && option.value != []
    && ParseDecimal(option.value) == n
    && (padded ==> |option.value| == 2)
    && (!padded ==> option.value[0] != '0')
  }

  /** `minutesSecondsOptionValues`: '00'..'59' in ascending order, two
      characters each, every value its own label. */
  method MinutesSecondsOptionValues() returns (minutesSeconds: seq<SelectOption>)
    ensures |minutesSeconds| == 60
    ensures forall k :: 0 <= k < 60 ==>
      && minutesSeconds[k].value == minutesSeconds[k].labelText
      && |minutesSeconds[k].value| == 2
      && IsDigits(minutesSeconds[k].value)
      && ParseDecimal(minutesSeconds[k].value) == k
  {
    minutesSeconds := [];
    for i := 0 to 60
      invariant |minutesSeconds| == i
      invariant forall k :: 0 <= k < i ==>
        && minutesSeconds[k].value == minutesSeconds[k].labelText
        && |minutesSeconds[k].value| == 2
        && IsDigits(minutesSeconds[k].value)
        && ParseDecimal(minutesSeconds[k].value) == k
    {
      var minuteSecond := if i < 10 then "0" + NatToString(i) else NatToString(i);
      OptionLabel(i, true);
      minutesSeconds := minutesSeconds + [SelectOption(minuteSecond, minuteSecond)];
    }
  }

  /** An option label below 100, zero-padded below 10 when `pad` is set:
      digits that read back as the number, two of them when padded, and no
      leading zero for a positive number when not padded. */
  lemma OptionLabel(i: nat, pad: bool)
    requires i < 100
    ensures var text := if pad && i < 10 then "0" + NatToString(i) else NatToString(i);
      && IsDigits(text) && ParseDecimal(text) == i
      && (pad ==> |text| == 2)
      && text != [] && (!pad && i >= 1 ==> text[0] != '0')
  {
    ParseNatToString(i);
    if pad && i < 10 {
      ParseLeadingZero(NatToString(i));
    }
  }

  /** Digit strings without a leading zero are determined by their value, so
      the 12-hour list holds exactly the numerals of 1..12. */
  lemma {:induction false} CanonicalNumeral(s: string, n: nat)
    requires IsDigits(s) && s != [] && (|s| == 1 || s[0] != '0') && ParseDecimal(s) == n
    ensures s == NatToString(n)
    decreases |s|
  {
    var init := s[..|s| - 1];
    if |s| == 1 {
      assert init == [];
    } else {
      assert init[0] == s[0];
      CanonicalNumeral(init, ParseDecimal(init));
      LeadingDigitPositive(init);
      AppendDigitDivMod(ParseDecimal(init), DigitValue(s[|s| - 1]));
      assert s == init + [s[|s| - 1]];
    }
  }

  /** A digit string of two or more digits without a leading zero is at least 10. */
  lemma LeadingDigitPositive(s: string)
    requires IsDigits(s) && s != [] && s[0] != '0'
    ensures ParseDecimal(s) >= 1
  {
    if |s| > 1 {
      assert s[..|s| - 1][0] == s[0];
      LeadingDigitPositive(s[..|s| - 1]);
    }
  }

  /** Two-digit strings are determined by their value, so the 24-hour and the
      minute/second lists hold exactly '00', '01', ... */
  lemma TwoDigitNumeral(s: string, t: string)
    requires IsDigits(s) && IsDigits(t) && |s| == 2 && |t| == 2
    requires ParseDecimal(s) == ParseDecimal(t)
    ensures s == t
  {
    TwoDigitValue(s);
    TwoDigitValue(t);
    assert DigitChar(DigitValue(s[0])) == s[0] && DigitChar(DigitValue(t[0])) == t[0];
    assert DigitChar(DigitValue(s[1])) == s[1] && DigitChar(DigitValue(t[1])) == t[1];
  }


  // ---------------------------------------------------------------------------
  // Time parts

  /** What `partsResolver` finds in a time value: hour, minute and second as
      integers (absent when not found), the raw millisecond, the meridiem. */
  datatype TimeParts = TimeParts(hour: Option<int>, minute: Option<int>, second: Option<int>,
                                 millisecond: JsValue, meridiem: JsValue)

  /** A 24-hour clock hour on the 12-hour dial: 0 becomes 12, above 12 loses 12. */
  function TwelveHour(h: int): (r: int)
    ensures 0 <= h < 24 ==> 1 <= r <= 12 && r % 12 == h % 12
  {
    if h > 12 then h - 12 else if h == 0 then h + 12 else h
  }

  /** The JavaScript value `'0' + n`. */
  function ZeroPadded(n: int): JsValue
  {
    Str("0" + IntToString(n))
  }

  /** The `hour` set from the parts: the 12-hour dial when the time format
      holds an 'h' anywhere, else the hour with a '0' prefixed below 10. */
  function HourDisplay(timeDisplayFormat: string, hour: Option<int>): JsValue
  {
    if 'h' in timeDisplayFormat then
      if hour.None? then Undefined else Num(TwelveHour(hour.value))
    else if hour.Some? && hour.value < 10 then ZeroPadded(hour.value)
    else if hour.None? then Undefined
    else Num(hour.value)
  }

  /** The `minute` or `second` set from the parts: a '0' is prefixed below 10. */
  function PaddedPart(part: Option<int>): JsValue
  {
    if part.Some? && part.value < 10 then ZeroPadded(part.value)
    else if part.None? then Undefined
    else Num(part.value)
  }

  /** The meridiem selector position: '0' for AM, '1' for PM, else unchanged. */
  function MeridiemNumFor(meridiem: JsValue, current: string): (r: string)
    ensures meridiem == Str("AM") ==> r == "0"
    ensures meridiem == Str("PM") ==> r == "1"
    ensures meridiem != Str("AM") && meridiem != Str("PM") ==> r == current
  {
    if Truthy(meridiem) then
      if meridiem == Str("AM") then "0" else if meridiem == Str("PM") then "1" else current
    else current
  }

  /** On the 12-hour dial every clock hour lands in 1..12, as a number. */
  lemma TwelveHourDisplayRange(timeDisplayFormat: string, h: int)
    requires 'h' in timeDisplayFormat && 0 <= h < 24
    ensures HourDisplay(timeDisplayFormat, Some(h)).Num?
    ensures 1 <= HourDisplay(timeDisplayFormat, Some(h)).n <= 12
    ensures HourDisplay(timeDisplayFormat, Some(h)).n % 12 == h % 12
  {
  }

  /** On the 24-hour dial every clock hour shows as two digits that read back
      as the hour. */
  lemma {:induction false} TwentyFourHourDisplay(timeDisplayFormat: string, h: int)
    requires 'h' !in timeDisplayFormat && 0 <= h < 24
    ensures var text := ToJsString(HourDisplay(timeDisplayFormat, Some(h)));
      |text| == 2 && IsDigits(text) && ParseDecimal(text) == h
  {
    TwoDigitsReadBack(h);
  }

  /** Minutes and seconds show as two digits that read back as the value. */
  lemma {:induction false} PaddedPartDisplay(n: int)
    requires 0 <= n < 60
    ensures var text := ToJsString(PaddedPart(Some(n)));
      |text| == 2 && IsDigits(text) && ParseDecimal(text) == n
  {
    TwoDigitsReadBack(n);
  }

  /** Below 100, a value shown with a '0' prefixed below 10 is two digits
      that read back as the value. */
  lemma TwoDigitsReadBack(n: int)
    requires 0 <= n < 100
    ensures var text := if n < 10 then "0" + IntToString(n) else IntToString(n);
      |text| == 2 && IsDigits(text) && ParseDecimal(text) == n
  {
    ParseNatToString(n);
    if n < 10 {
      ParseLeadingZero(NatToString(n));
    }
  }

  // ---------------------------------------------------------------------------
  // Assembling the time value

  /** The text one time part contributes, or None when its format is set but
      the part is not selected. */
  function TimePiece(format: JsValue, part: JsValue, separator: string): Option<string>
  {
    if !Truthy(format) then Some("")
    else if Truthy(part) then Some(separator + ToJsString(part))
    else None
  }

  /** The meridiem text, or None when a meridiem is expected but not selected.
      A position other than '0' or '1' gives the text 'undefined'. */
  function MeridiemPiece(expected: bool, meridiemNum: string): Option<string>
  {
    if !expected then Some("")
    else if meridiemNum != "" then
      Some(" " + (if meridiemNum == "0" then "AM" else if meridiemNum == "1" then "PM" else "undefined"))
    else None
  }

  /** The time text `syncInputTime` assembles, or None when a required part is
      missing. */
  function AssembledTime(hourFormat: JsValue, hour: JsValue, minuteFormat: JsValue, minute: JsValue,
                         secondFormat: JsValue, second: JsValue,
                         meridiemExpected: bool, meridiemNum: string): Option<string>
  {
    var h := TimePiece(hourFormat, hour, "");
    var m := TimePiece(minuteFormat, minute, ":");
    var s := TimePiece(secondFormat, second, ":");
    var a := MeridiemPiece(meridiemExpected, meridiemNum);
    if h.Some? && m.Some? && s.Some? && a.Some? then Some(h.value + m.value + s.value + a.value) else None
  }

  /** One step of `syncInputTime`: a part whose format is set is appended
      after its separator when selected; a part without a format counts as
      selected and adds nothing. */
  method AppendTimePart(text: string, format: JsValue, part: JsValue, separator: string)
    returns (newText: string, isSelected: bool)
    ensures isSelected == TimePiece(format, part, separator).Some?
    ensures newText == if isSelected then text + TimePiece(format, part, separator).value else text
  {
    newText, isSelected := text, false;
    if Truthy(format) {
      if Truthy(part) {
        isSelected := true;
        newText := text + separator + ToJsString(part);
      }
    } else {
      isSelected := true;
    }
  }

  /** The meridiem step of `syncInputTime`. */
  method AppendMeridiem(text: string, meridiemExpected: bool, meridiemNum: string)
    returns (newText: string, isSelected: bool)
    ensures isSelected == MeridiemPiece(meridiemExpected, meridiemNum).Some?
    ensures newText == if isSelected then text + MeridiemPiece(meridiemExpected, meridiemNum).value else text
  {
    newText, isSelected := text, false;
    if meridiemExpected {
      if meridiemNum != "" {
        isSelected := true;
        var meridiem := if meridiemNum == "0" then "AM" else if meridiemNum == "1" then "PM" else "undefined";
        newText := text + " " + meridiem;
      }
    } else {
      isSelected := true;
    }
  }

  /** The time is missing exactly when some part whose format is set is not
      selected. */
  lemma AssembledTimeMissing(hourFormat: JsValue, hour: JsValue, minuteFormat: JsValue, minute: JsValue,
                             secondFormat: JsValue, second: JsValue,
                             meridiemExpected: bool, meridiemNum: string)
    ensures AssembledTime(hourFormat, hour, minuteFormat, minute, secondFormat, second,
                          meridiemExpected, meridiemNum).None? <==>
      || (Truthy(hourFormat) && !Truthy(hour))
      || (Truthy(minuteFormat) && !Truthy(minute))
      || (Truthy(secondFormat) && !Truthy(second))
      || (meridiemExpected && meridiemNum == "")
  {
  }

  /** With hour, minute and second formats set and no meridiem, the assembled
      time splits on ':' back into the selected parts. */
  lemma {:induction false} AssembledTimeSplits(hourFormat: JsValue, hour: string, minuteFormat: JsValue, minute: string,
                                               secondFormat: JsValue, second: string)
    requires Truthy(hourFormat) && Truthy(minuteFormat) && Truthy(secondFormat)
    requires hour != "" && minute != "" && second != ""
    requires ':' !in hour && ':' !in minute && ':' !in second
    ensures var t := AssembledTime(hourFormat, Str(hour), minuteFormat, Str(minute), secondFormat, Str(second), false, "");
      t.Some? && Split(t.value, ':') == [hour, minute, second]
  {
    var t := AssembledTime(hourFormat, Str(hour), minuteFormat, Str(minute), secondFormat, Str(second), false, "");
    assert t.value == hour + [':'] + (minute + [':'] + second);
    assert Join([hour, minute, second], ':') == hour + [':'] + (minute + [':'] + second) by {
      assert [hour, minute, second][1..] == [minute, second];
      assert [minute, second][1..] == [second];
      assert Join([second], ':') == second;
      assert Join([minute, second], ':') == minute + [':'] + second;
    }
    JoinSplit([hour, minute, second], ':');
  }

  /** With a meridiem expected and selected, the assembled time ends in ' AM'
      for position '0' and ' PM' for position '1'. */
  lemma MeridiemSuffix(hourFormat: JsValue, hour: JsValue, minuteFormat: JsValue, minute: JsValue,
                       secondFormat: JsValue, second: JsValue, meridiemNum: string)
    requires meridiemNum == "0" || meridiemNum == "1"
    requires AssembledTime(hourFormat, hour, minuteFormat, minute, secondFormat, second, true, meridiemNum).Some?
    ensures var t := AssembledTime(hourFormat, hour, minuteFormat, minute, secondFormat, second, true, meridiemNum).value;
      |t| >= 3 && t[|t| - 3..] == (if meridiemNum == "0" then " AM" else " PM")
  {
  }

  // ---------------------------------------------------------------------------
  // Validation

  /** The names the date-time mixin's `propertyResolver` picks for a data
      type, already looked up: the three qualifier texts. */
  datatype QualifierTexts = QualifierTexts(pattern: string, typeText: string, range: string)

  /** What the date-time mixin provides to the component. */
  datatype DatetimeChecks = DatetimeChecks(
    isCorrectPattern: (string, string) -> bool,
    isCorrectType: (string, string) -> bool,
    isCorrectRange: (string, string) -> bool,
    qualifierTexts: string -> QualifierTexts)

  /** The date-time checks in order. */
  function Checks(m: DatetimeChecks, dataType: string, labelText: string, customMessage: string, value: string): (checks: seq<Check>)
    ensures |checks| == 3
  {
    var texts := m.qualifierTexts(dataType);
    [ Check(m.isCorrectPattern(dataType, value),
            if customMessage != "" then customMessage else labelText + texts.pattern),
      Check(m.isCorrectType(dataType, value), labelText + texts.typeText),
      Check(m.isCorrectRange(dataType, value), labelText + texts.range) ]
  }

  /** The date-time checks run only for a non-empty string that the parent
      rule accepted; not-values play no part here. */
  predicate CascadeRuns(parent: Verdict, value: JsValue)
  {
    parent.Pass? && value.Str? && value.s != ""
  }

  /** The verdict the date-time component leaves, given the parent's verdict. */
  function DatetimeVerdict(parent: Verdict, value: JsValue, m: DatetimeChecks,
                           dataType: string, labelText: string, customMessage: string): Verdict
  {
    if CascadeRuns(parent, value)
    then FirstFailure(Checks(m, dataType, labelText, customMessage, value.s))
    else parent
  }

  /** Numbers, absent values and a parent failure keep the parent's verdict. */
  lemma SkippedKeepsParent(parent: Verdict, value: JsValue, m: DatetimeChecks,
                           dataType: string, labelText: string, customMessage: string)
    requires !value.Str? || value == Str("") || parent.Fail?
    ensures DatetimeVerdict(parent, value, m, dataType, labelText, customMessage) == parent
  {
  }

  /** The date-time verdict is valid exactly when the parent passed and, for
      a non-empty string, pattern, type and range all hold. */
  lemma {:induction false} PassExactlyWhenAllHold(parent: Verdict, value: JsValue, m: DatetimeChecks,
                                                  dataType: string, labelText: string, customMessage: string)
    ensures DatetimeVerdict(parent, value, m, dataType, labelText, customMessage).Pass? <==>
      && parent.Pass?
      && (CascadeRuns(parent, value) ==>
        m.isCorrectPattern(dataType, value.s) && m.isCorrectType(dataType, value.s) && m.isCorrectRange(dataType, value.s))
  {
    if CascadeRuns(parent, value) {
      var checks := Checks(m, dataType, labelText, customMessage, value.s);
      FirstFailureIsFirst(checks);
      assert checks[0].passes == m.isCorrectPattern(dataType, value.s);
      assert checks[1].passes == m.isCorrectType(dataType, value.s);
      assert checks[2].passes == m.isCorrectRange(dataType, value.s);
    }
  }

  /** Only a pattern failure may report the custom message: a type or range
      failure reports the label and the data type's qualifier text. */
  lemma {:induction false} CustomMessageOnlyForPattern(parent: Verdict, value: JsValue, m: DatetimeChecks,
                                                       dataType: string, labelText: string, customMessage: string)
    requires CascadeRuns(parent, value) && m.isCorrectPattern(dataType, value.s)
    requires DatetimeVerdict(parent, value, m, dataType, labelText, customMessage).Fail?
    ensures DatetimeVerdict(parent, value, m, dataType, labelText, customMessage).message in
      { labelText + m.qualifierTexts(dataType).typeText, labelText + m.qualifierTexts(dataType).range }
  {
    var checks := Checks(m, dataType, labelText, customMessage, value.s);
    FirstFailureIsFirst(checks);
    var k :| 0 <= k < |checks| && !checks[k].passes
      && FirstFailure(checks).message == checks[k].message
      && forall i :: 0 <= i < k ==> checks[i].passes;
    assert k != 0;
  }

  // ---------------------------------------------------------------------------
  // The component

  /** A date-time control: the form control it extends and its own date and
      time state. */
  class DatetimeControl {
    const base: Control
    var dateDisplayFormat: string
    var timeDisplayFormat: string
    var hourFormat: JsValue
    var minuteFormat: JsValue
    var secondFormat: JsValue
    var meridiemExpected: bool
    var meridiemNum: string
    var hour: JsValue
    var minute: JsValue
    var second: JsValue
    var millisecond: JsValue
    /** The display value bound to the input; `Undefined` until the template binds it. */
    var displayProxy: JsValue
    var timeValue: JsValue
    var dateValue: JsValue
    var datetimeValue: JsValue

    ghost predicate Valid()
      reads this, base
    {
      base.Valid()
    }

    constructor()
      ensures Valid() && fresh(base)
      ensures dateDisplayFormat == DefaultDateDisplayFormat && timeDisplayFormat == DefaultTimeDisplayFormat
      ensures !meridiemExpected && meridiemNum == "0"
      ensures hourFormat == Undefined && minuteFormat == Undefined && secondFormat == Undefined
      ensures hour == Undefined && minute == Undefined && second == Undefined && millisecond == Undefined
      ensures displayProxy == Undefined && timeValue == Undefined && dateValue == Undefined && datetimeValue == Undefined
    {
      base := new Control();
      dateDisplayFormat := DefaultDateDisplayFormat;
      timeDisplayFormat := DefaultTimeDisplayFormat;
      hourFormat, minuteFormat, secondFormat := Undefined, Undefined, Undefined;
      meridiemExpected := false;
      meridiemNum := "0";
      hour, minute, second, millisecond := Undefined, Undefined, Undefined, Undefined;
      displayProxy := Undefined;
      timeValue, dateValue, datetimeValue := Undefined, Undefined, Undefined;
    }

    /** `setTimeFormats`: the first space-separated token of the time format,
        split on ':', gives the hour, minute and second formats; an 'h' in the
        hour format makes a meridiem expected, and nothing resets that. */
    method SetTimeFormats()
      modifies this`hourFormat, this`minuteFormat, this`secondFormat, this`meridiemExpected
      ensures var tokens := TimeTokens(timeDisplayFormat);
        hourFormat == Str(tokens[0]) && minuteFormat == Element(tokens, 1) && secondFormat == Element(tokens, 2)
      ensures meridiemExpected == (old(meridiemExpected) || 'h' in TimeTokens(timeDisplayFormat)[0])
    {
      var timeFormat := Split(timeDisplayFormat, ' ')[0];
      var timeFormatArray := Split(timeFormat, ':');
      hourFormat := Str(timeFormatArray[0]);
      minuteFormat := Element(timeFormatArray, 1);
      secondFormat := Element(timeFormatArray, 2);
      IndexOfChar(timeFormatArray[0], 'h');
      if IndexOf(timeFormatArray[0], "h") > -1 {
        meridiemExpected := true;
      }
    }

    /** `setInitialTimeDisplayValues`, given what `partsResolver` finds in the
        time value. */
    method SetInitialTimeDisplayValues(parts: TimeParts)
      modifies this`hour, this`minute, this`second, this`millisecond, this`meridiemNum
      ensures hour == HourDisplay(timeDisplayFormat, parts.hour)
      ensures minute == PaddedPart(parts.minute) && second == PaddedPart(parts.second)
      ensures millisecond == parts.millisecond
      ensures meridiemNum == MeridiemNumFor(parts.meridiem, old(meridiemNum))
    {
      var newMeridiemNum := meridiemNum;
      if Truthy(parts.meridiem) {
        if parts.meridiem == Str("AM") {
          newMeridiemNum := "0";
        } else if parts.meridiem == Str("PM") {
          newMeridiemNum := "1";
        }
      }
      assert newMeridiemNum == MeridiemNumFor(parts.meridiem, meridiemNum);
      var newHour;
      var twelveHour := IndexOf(timeDisplayFormat, "h") > -1;
      IndexOfChar(timeDisplayFormat, 'h');
      if twelveHour {
        if parts.hour.Some? && parts.hour.value > 12 {
          newHour := Num(parts.hour.value - 12);
        } else if parts.hour.Some? && parts.hour.value == 0 {
          newHour := Num(parts.hour.value + 12);
        } else {
          newHour := if parts.hour.Some? then Num(parts.hour.value) else Undefined;
        }
      } else {
        if parts.hour.Some? && parts.hour.value < 10 {
          newHour := ZeroPadded(parts.hour.value);
        } else {
          newHour := if parts.hour.Some? then Num(parts.hour.value) else Undefined;
        }
      }
      assert newHour == HourDisplay(timeDisplayFormat, parts.hour);
      hour := newHour;
      if parts.minute.Some? && parts.minute.value < 10 {
        minute := ZeroPadded(parts.minute.value);
      } else {
        minute := if parts.minute.Some? then Num(parts.minute.value) else Undefined;
      }
      if parts.second.Some? && parts.second.value < 10 {
        second := ZeroPadded(parts.second.value);
      } else {
        second := if parts.second.Some? then Num(parts.second.value) else Undefined;
      }
      millisecond := parts.millisecond;
      meridiemNum := newMeridiemNum;
    }

    /** `syncInputTime`: assemble the time text from the selected parts and
        write it, or '' when a required part is missing, to the display proxy
        when one is bound and to the time value otherwise. */
    method SyncInputTime()
      modifies this`displayProxy, this`timeValue
      ensures var t := AssembledTime(hourFormat, hour, minuteFormat, minute, secondFormat, second,
                                     meridiemExpected, meridiemNum);
        var text := if t.Some? then t.value else "";
        if old(displayProxy) != Undefined
        then displayProxy == Str(text) && timeValue == old(timeValue)
        else timeValue == Str(text) && displayProxy == Undefined
    {
      var text := "";
      var isHourSelected, isMinuteSelected, isSecondSelected, isMeridiemSelected;
      var isMillisecondSelected := true;
      text, isHourSelected := AppendTimePart(text, hourFormat, hour, "");
      text, isMinuteSelected := AppendTimePart(text, minuteFormat, minute, ":");
      text, isSecondSelected := AppendTimePart(text, secondFormat, second, ":");
      text, isMeridiemSelected := AppendMeridiem(text, meridiemExpected, meridiemNum);
      ghost var assembled := AssembledTime(hourFormat, hour, minuteFormat, minute, secondFormat, second,
                                           meridiemExpected, meridiemNum);
      assert assembled.Some? <==> isHourSelected && isMinuteSelected && isSecondSelected && isMeridiemSelected;
      assert assembled.Some? ==> text == assembled.value by {
        if assembled.Some? {
          var h := TimePiece(hourFormat, hour, "").value;
          assert "" + h == h;
        }
      }
      if !(isHourSelected && isMinuteSelected && isSecondSelected && isMillisecondSelected && isMeridiemSelected) {
        text := "";
      }
      if displayProxy != Undefined {
        displayProxy := Str(text);
      } else {
        timeValue := Str(text);
      }
    }

    /** `updateDateAndTimeValues`: copy the display proxy into the value that
        matches the data type. */
    method UpdateDateAndTimeValues()
      modifies this`datetimeValue, this`dateValue, this`timeValue
      ensures base.dataType == "datetime" ==> datetimeValue == displayProxy && unchanged(this`dateValue, this`timeValue)
      ensures base.dataType == "date" ==> dateValue == displayProxy && unchanged(this`datetimeValue, this`timeValue)
      ensures base.dataType == "time" ==> timeValue == displayProxy && unchanged(this`datetimeValue, this`dateValue)
      ensures base.dataType !in {"datetime", "date", "time"} ==> unchanged(this`datetimeValue, this`dateValue, this`timeValue)
    {
      if base.dataType == "datetime" {
        datetimeValue := displayProxy;
      } else if base.dataType == "date" {
        dateValue := displayProxy;
      } else if base.dataType == "time" {
        timeValue := displayProxy;
      }
    }

    /** The verdict `componentValidate` leaves on a date-time control. */
    function Outcome(value: JsValue, allFieldsRequired: bool, m: DatetimeChecks): Verdict
      reads base
    {
      DatetimeVerdict(base.RequiredVerdict(value, allFieldsRequired), value, m,
                      base.dataType, base.DisplayLabel(), base.customValidationMessage)
    }

    /** `componentValidate` of the date-time component. */
    method ComponentValidate(value: JsValue, allFieldsRequired: bool, m: DatetimeChecks)
      requires Valid()
      modifies base`statusMessage, base`isValid, base`hasFailed
      ensures Valid()
      ensures base.statusMessage == old(Outcome(value, allFieldsRequired, m)).StatusMessage()
      ensures base.isValid == Some(old(Outcome(value, allFieldsRequired, m)).Pass?)
      ensures base.hasFailed == (old(base.hasFailed) || base.isValid == Some(false))
    {
      ghost var parent := base.RequiredVerdict(value, allFieldsRequired);
      var dataType := base.dataType;
      var labelText := base.DisplayLabel();
      var customMessage := base.customValidationMessage;
      assert Outcome(value, allFieldsRequired, m) == DatetimeVerdict(parent, value, m, dataType, labelText, customMessage);
      base.ComponentValidate(value, allFieldsRequired);
      if value.Str? && value.s != "" && base.isValid != Some(false) {
        ghost var checks := Checks(m, dataType, labelText, customMessage, value.s);
        var texts := m.qualifierTexts(dataType);
        if !m.isCorrectPattern(dataType, value.s) {
          FirstFailureAt(checks, 0);
          base.SetValidity(if customMessage != "" then customMessage else labelText + texts.pattern, false);
        } else if !m.isCorrectType(dataType, value.s) {
          FirstFailureAt(checks, 1);
          base.SetValidity(labelText + texts.typeText, false);
        } else if !m.isCorrectRange(dataType, value.s) {
          FirstFailureAt(checks, 2);
          base.SetValidity(labelText + texts.range, false);
        } else {
          FirstFailureIsFirst(checks);
          base.SetValidity("", true);
        }
      }
    }

    /** `triggerValidation` on a date-time control. */
    method TriggerValidation(isNotEditMode: bool, allFieldsRequired: bool, m: DatetimeChecks)
      requires Valid()
      modifies base`statusMessage, base`isValid, base`hasFailed
      ensures Valid()
      ensures base.ValidationTarget(isNotEditMode) == None ==> unchanged(base)
      ensures base.ValidationTarget(isNotEditMode).Some? ==>
        var v := old(Outcome(base.ValidationTarget(isNotEditMode).value, allFieldsRequired, m));
        base.statusMessage == v.StatusMessage() && base.isValid == Some(v.Pass?)
    {
      var target := base.ValidationTarget(isNotEditMode);
      if target.Some? {
        ComponentValidate(target.value, allFieldsRequired, m);
      }
    }

    /** `handleConstraintChanges`, observing the minimum and maximum date,
        time and datetime: validate only when asked to on constraint changes. */
    method HandleConstraintChanges(isNotEditMode: bool, allFieldsRequired: bool, m: DatetimeChecks)
      requires Valid()
      modifies base`statusMessage, base`isValid, base`hasFailed
      ensures Valid()
      ensures !base.shouldValidateOnConstraintChange || base.ValidationTarget(isNotEditMode) == None ==> unchanged(base)
      ensures base.shouldValidateOnConstraintChange && base.ValidationTarget(isNotEditMode).Some? ==>
        var v := old(Outcome(base.ValidationTarget(isNotEditMode).value, allFieldsRequired, m));
        base.statusMessage == v.StatusMessage() && base.isValid == Some(v.Pass?)
    {
      if base.shouldValidateOnConstraintChange {
        TriggerValidation(isNotEditMode, allFieldsRequired, m);
      }
    }
  }

  /** The tokens of a time format: its first space-separated token split on ':'. */
  function TimeTokens(timeDisplayFormat: string): (tokens: seq<string>)
    ensures |tokens| >= 1
    ensures Join(tokens, ':') == Split(timeDisplayFormat, ' ')[0]
    ensures forall i :: 0 <= i < |tokens| ==> ':' !in tokens[i]
  {
    SplitJoin(Split(timeDisplayFormat, ' ')[0], ':');
    Split(Split(timeDisplayFormat, ' ')[0], ':')
  }

  /** `array[i]` in JavaScript: the element, or undefined past the end. */
  function Element(pieces: seq<string>, i: nat): (r: JsValue)
    ensures i < |pieces| ==> r == Str(pieces[i])
    ensures i >= |pieces| ==> r == Undefined
  {
    if i < |pieces| then Str(pieces[i]) else Undefined
  }

  /** The default time format 'HH:mm' has hour and minute formats and no
      second format, and expects no meridiem. */
  lemma DefaultTimeTokens()
    ensures TimeTokens(DefaultTimeDisplayFormat) == ["HH", "mm"]
    ensures 'h' !in TimeTokens(DefaultTimeDisplayFormat)[0]
  {
    assert Split("HH:mm", ' ') == ["HH:mm"];
    assert "HH:mm" == "HH" + [':'] + "mm";
    SplitConcat("HH", "mm", ':');
  }
}
