/** The values of the template variables at the instant the unit tests use,
    2018-03-28T04:21:45.862Z, which is 2018-03-27T21:21:45.862 in Los Angeles. */
module TemplateExamples {
  import opened CivilTime
  import opened IsoFormat
  import opened TextReplace
  import opened Templates

  const TEST_PROCESS_TIME_UTC: int := 1522210905862

  /** The local date-time of the test instant. */
  const TEST_LOCAL: LocalDateTime := LocalDateTime(Date(2018, 3, 27), 21, 21, 45, 862)

  /** In UTC the test instant has the fields 2018-03-28T04:21:45.862; in Los
      Angeles its local date is still 2018-03-27. */
  lemma TestInstantFields()
    ensures WithZone(TEST_PROCESS_TIME_UTC, FixedOffset(0)).local
            == LocalDateTime(Date(2018, 3, 28), 4, 21, 45, 862)
    ensures WithZone(TEST_PROCESS_TIME_UTC, LOCAL_TIME_ZONE).local == TEST_LOCAL
  {
    var u := LocalDateTime(Date(2018, 3, 28), 4, 21, 45, 862);
    assert DaysFromCivil(u.date) == 17618;
    LocalRoundTrip(u);
    assert DaysFromCivil(TEST_LOCAL.date) == 17617;
    assert ToEpochMillis(TEST_LOCAL) == TEST_PROCESS_TIME_UTC - 420 * MS_PER_MINUTE;
    LocalRoundTrip(TEST_LOCAL);
  }

  /** A date of years 0000..9999 prints digit by digit as yyyy-MM-dd. */
  lemma DateText(d: Date, s: string)
    requires ValidDate(d) && 0 <= d.year < 10000
    requires s == [DigitChar(d.year / 10 / 10 / 10 % 10), DigitChar(d.year / 10 / 10 % 10),
                   DigitChar(d.year / 10 % 10), DigitChar(d.year % 10), '-',
                   DigitChar(d.month / 10 % 10), DigitChar(d.month % 10), '-',
                   DigitChar(d.day / 10 % 10), DigitChar(d.day % 10)]
    ensures FormatDate(d) == s
  {
    YearOfFourDigits(d.year);
    PaddedFour(d.year);
    PaddedTwo(d.month);
    PaddedTwo(d.day);
  }

  lemma OffsetText()
    ensures FormatOffset(LOCAL_TIME_ZONE) == "-07:00"
  {
    PaddedTwo(7);
    PaddedTwo(0);
  }

  /** A local time of day prints digit by digit as THH:mm:ss.SSS. */
  lemma TimeText(l: LocalDateTime, s: string)
    requires ValidLocal(l)
    requires s == ['T', DigitChar(l.hour / 10 % 10), DigitChar(l.hour % 10), ':',
                   DigitChar(l.minute / 10 % 10), DigitChar(l.minute % 10), ':',
                   DigitChar(l.second / 10 % 10), DigitChar(l.second % 10), '.',
                   DigitChar(l.millis / 10 / 10 % 10), DigitChar(l.millis / 10 % 10), DigitChar(l.millis % 10)]
    ensures FormatTime(l) == s
  {
    PaddedTwo(l.hour);
    PaddedTwo(l.minute);
    PaddedTwo(l.second);
    PaddedThree(l.millis);
  }

  /** A date-time in Los Angeles daylight time prints as its date, its time and -07:00. */
  lemma DateTimeText(l: LocalDateTime, date: string, time: string)
    requires ValidLocal(l) && FormatDate(l.date) == date && FormatTime(l) == time
    ensures FormatDateTime(DateTime(l, LOCAL_TIME_ZONE)) == date + time + "-07:00"
  {
    OffsetText();
  }

  lemma Spelled0()
    ensures "2018-03-26" + "T23:59:59.999" + "-07:00" == "2018-03-26T23:59:59.999-07:00"
  {
  }

  lemma Spelled1()
    ensures "2018-03-27" + "T00:00:00.000" + "-07:00" == "2018-03-27T00:00:00.000-07:00"
  {
  }

  lemma Spelled2()
    ensures "2018-03-20" + "T00:00:00.000" + "-07:00" == "2018-03-20T00:00:00.000-07:00"
  {
  }

  lemma Spelled3()
    ensures "2018-03-27" + "T21:00:00.000" + "-07:00" == "2018-03-27T21:00:00.000-07:00"
  {
  }

  lemma Spelled4()
    ensures "2018-03-26" + "T00:00:00.000" + "-07:00" == "2018-03-26T00:00:00.000-07:00"
  {
  }

  /** The local dates the values are computed from. */
  lemma TestDaysBefore()
    ensures PreviousDay(Date(2018, 3, 27)) == Date(2018, 3, 26)
    ensures DaysBack(Date(2018, 3, 27), 7) == Date(2018, 3, 20)
  {
  }

  /** The test instant seen in Los Angeles. The instant is a parameter equal
      to the test constant so that the verifier does not evaluate the whole
      calendar computation on literals. */
  lemma TestLocalTime(processTimeUtc: int)
    requires processTimeUtc == TEST_PROCESS_TIME_UTC
    ensures var t := WithZone(processTimeUtc, LOCAL_TIME_ZONE);
      t.local == TEST_LOCAL && t.zone == LOCAL_TIME_ZONE
  {
    TestInstantFields();
  }

  lemma EndOfPreviousDayText()
    ensures FormatDateTime(DateTime(LocalDateTime(Date(2018, 3, 26), 23, 59, 59, 999), LOCAL_TIME_ZONE))
            == "2018-03-26T23:59:59.999-07:00"
  {
    DateText(Date(2018, 3, 26), "2018-03-26");
    TimeText(LocalDateTime(Date(2018, 3, 26), 23, 59, 59, 999), "T23:59:59.999");
    DateTimeText(LocalDateTime(Date(2018, 3, 26), 23, 59, 59, 999), "2018-03-26", "T23:59:59.999");
    Spelled0();
  }

  /** endOfPreviousDay at the test instant: the last millisecond of 2018-03-26. */
  lemma EndOfPreviousDayValue(t: DateTime)
    requires t.Valid() && t.zone == LOCAL_TIME_ZONE
    requires t.local == LocalDateTime(Date(2018, 3, 27), 21, 21, 45, 862)
    ensures ReplacementValue(EndOfPreviousDay, t) == "2018-03-26T23:59:59.999-07:00"
  {
    EndOfPreviousDayIsLastMillisecond(t);
    TestDaysBefore();
    EndOfPreviousDayText();
  }

  lemma TestEndOfPreviousDay(processTimeUtc: int)
    requires processTimeUtc == TEST_PROCESS_TIME_UTC
    ensures Resolve(EndOfPreviousDay, "${endOfPreviousDay}", processTimeUtc, LOCAL_TIME_ZONE) == "2018-03-26T23:59:59.999-07:00"
  {
    assert VarPattern(EndOfPreviousDay) == "${endOfPreviousDay}";
    ResolveTokenOnly(EndOfPreviousDay, processTimeUtc, LOCAL_TIME_ZONE);
    TestLocalTime(processTimeUtc);
    EndOfPreviousDayValue(WithZone(processTimeUtc, LOCAL_TIME_ZONE));
  }

  lemma StartOfDayText()
    ensures FormatDateTime(DateTime(LocalDateTime(Date(2018, 3, 27), 0, 0, 0, 0), LOCAL_TIME_ZONE))
            == "2018-03-27T00:00:00.000-07:00"
  {
    DateText(Date(2018, 3, 27), "2018-03-27");
    TimeText(LocalDateTime(Date(2018, 3, 27), 0, 0, 0, 0), "T00:00:00.000");
    DateTimeText(LocalDateTime(Date(2018, 3, 27), 0, 0, 0, 0), "2018-03-27", "T00:00:00.000");
    Spelled1();
  }

  /** startOfDay at the test instant: local midnight of 2018-03-27. */
  lemma StartOfDayValue(t: DateTime)
    requires t.Valid() && t.zone == LOCAL_TIME_ZONE
    requires t.local == LocalDateTime(Date(2018, 3, 27), 21, 21, 45, 862)
    ensures ReplacementValue(StartOfDay, t) == "2018-03-27T00:00:00.000-07:00"
  {
    StartOfDayText();
  }

  lemma TestStartOfDay(processTimeUtc: int)
    requires processTimeUtc == TEST_PROCESS_TIME_UTC
    ensures Resolve(StartOfDay, "${startOfDay}", processTimeUtc, LOCAL_TIME_ZONE) == "2018-03-27T00:00:00.000-07:00"
  {
    assert VarPattern(StartOfDay) == "${startOfDay}";
    ResolveTokenOnly(StartOfDay, processTimeUtc, LOCAL_TIME_ZONE);
    TestLocalTime(processTimeUtc);
    StartOfDayValue(WithZone(processTimeUtc, LOCAL_TIME_ZONE));
  }

  lemma StartOfDayOneWeekAgoText()
    ensures FormatDateTime(DateTime(LocalDateTime(Date(2018, 3, 20), 0, 0, 0, 0), LOCAL_TIME_ZONE))
            == "2018-03-20T00:00:00.000-07:00"
  {
    DateText(Date(2018, 3, 20), "2018-03-20");
    TimeText(LocalDateTime(Date(2018, 3, 20), 0, 0, 0, 0), "T00:00:00.000");
    DateTimeText(LocalDateTime(Date(2018, 3, 20), 0, 0, 0, 0), "2018-03-20", "T00:00:00.000");
    Spelled2();
  }

  /** startOfDayOneWeekAgo at the test instant: local midnight of 2018-03-20. */
  lemma StartOfDayOneWeekAgoValue(t: DateTime)
    requires t.Valid() && t.zone == LOCAL_TIME_ZONE
    requires t.local == LocalDateTime(Date(2018, 3, 27), 21, 21, 45, 862)
    ensures ReplacementValue(StartOfDayOneWeekAgo, t) == "2018-03-20T00:00:00.000-07:00"
  {
    StartOfDayOneWeekAgoIsSevenDaysBefore(t);
    TestDaysBefore();
    StartOfDayOneWeekAgoText();
  }

  lemma TestStartOfDayOneWeekAgo(processTimeUtc: int)
    requires processTimeUtc == TEST_PROCESS_TIME_UTC
    ensures Resolve(StartOfDayOneWeekAgo, "${startOfDayOneWeekAgo}", processTimeUtc, LOCAL_TIME_ZONE) == "2018-03-20T00:00:00.000-07:00"
  {
    assert VarPattern(StartOfDayOneWeekAgo) == "${startOfDayOneWeekAgo}";
    ResolveTokenOnly(StartOfDayOneWeekAgo, processTimeUtc, LOCAL_TIME_ZONE);
    TestLocalTime(processTimeUtc);
    StartOfDayOneWeekAgoValue(WithZone(processTimeUtc, LOCAL_TIME_ZONE));
  }

  lemma StartOfHourText()
    ensures FormatDateTime(DateTime(LocalDateTime(Date(2018, 3, 27), 21, 0, 0, 0), LOCAL_TIME_ZONE))
            == "2018-03-27T21:00:00.000-07:00"
  {
    DateText(Date(2018, 3, 27), "2018-03-27");
    TimeText(LocalDateTime(Date(2018, 3, 27), 21, 0, 0, 0), "T21:00:00.000");
    DateTimeText(LocalDateTime(Date(2018, 3, 27), 21, 0, 0, 0), "2018-03-27", "T21:00:00.000");
    Spelled3();
  }

  /** startOfHour at the test instant: 21:00 local time. */
  lemma StartOfHourValue(t: DateTime)
    requires t.Valid() && t.zone == LOCAL_TIME_ZONE
    requires t.local == LocalDateTime(Date(2018, 3, 27), 21, 21, 45, 862)
    ensures ReplacementValue(StartOfHour, t) == "2018-03-27T21:00:00.000-07:00"
  {
    StartOfHourText();
  }

  lemma TestStartOfHour(processTimeUtc: int)
    requires processTimeUtc == TEST_PROCESS_TIME_UTC
    ensures Resolve(StartOfHour, "${startOfHour}", processTimeUtc, LOCAL_TIME_ZONE) == "2018-03-27T21:00:00.000-07:00"
  {
    assert VarPattern(StartOfHour) == "${startOfHour}";
    ResolveTokenOnly(StartOfHour, processTimeUtc, LOCAL_TIME_ZONE);
    TestLocalTime(processTimeUtc);
    StartOfHourValue(WithZone(processTimeUtc, LOCAL_TIME_ZONE));
  }

  lemma StartOfPreviousDayText()
    ensures FormatDateTime(DateTime(LocalDateTime(Date(2018, 3, 26), 0, 0, 0, 0), LOCAL_TIME_ZONE))
            == "2018-03-26T00:00:00.000-07:00"
  {
    DateText(Date(2018, 3, 26), "2018-03-26");
    TimeText(LocalDateTime(Date(2018, 3, 26), 0, 0, 0, 0), "T00:00:00.000");
    DateTimeText(LocalDateTime(Date(2018, 3, 26), 0, 0, 0, 0), "2018-03-26", "T00:00:00.000");
    Spelled4();
  }

  /** startOfPreviousDay at the test instant: local midnight of 2018-03-26. */
  lemma StartOfPreviousDayValue(t: DateTime)
    requires t.Valid() && t.zone == LOCAL_TIME_ZONE
    requires t.local == LocalDateTime(Date(2018, 3, 27), 21, 21, 45, 862)
    ensures ReplacementValue(StartOfPreviousDay, t) == "2018-03-26T00:00:00.000-07:00"
  {
    StartOfPreviousDayIsDayBefore(t);
    TestDaysBefore();
    StartOfPreviousDayText();
  }

  lemma TestStartOfPreviousDay(processTimeUtc: int)
    requires processTimeUtc == TEST_PROCESS_TIME_UTC
    ensures Resolve(StartOfPreviousDay, "${startOfPreviousDay}", processTimeUtc, LOCAL_TIME_ZONE) == "2018-03-26T00:00:00.000-07:00"
  {
    assert VarPattern(StartOfPreviousDay) == "${startOfPreviousDay}";
    ResolveTokenOnly(StartOfPreviousDay, processTimeUtc, LOCAL_TIME_ZONE);
    TestLocalTime(processTimeUtc);
    StartOfPreviousDayValue(WithZone(processTimeUtc, LOCAL_TIME_ZONE));
  }

  lemma YesterdaysDateText()
    ensures FormatDate(Date(2018, 3, 26)) == "2018-03-26"
  {
    DateText(Date(2018, 3, 26), "2018-03-26");
  }

  /** yesterdaysDate at the test instant: the local date before 2018-03-27. */
  lemma YesterdaysDateValue(t: DateTime)
    requires t.Valid() && t.zone == LOCAL_TIME_ZONE
    requires t.local == LocalDateTime(Date(2018, 3, 27), 21, 21, 45, 862)
    ensures ReplacementValue(YesterdaysDate, t) == "2018-03-26"
  {
    YesterdaysDateIsPreviousDay(t);
    TestDaysBefore();
    YesterdaysDateText();
  }

  lemma TestYesterdaysDate(processTimeUtc: int)
    requires processTimeUtc == TEST_PROCESS_TIME_UTC
    ensures Resolve(YesterdaysDate, "${yesterdaysDate}", processTimeUtc, LOCAL_TIME_ZONE) == "2018-03-26"
  {
    assert VarPattern(YesterdaysDate) == "${yesterdaysDate}";
    ResolveTokenOnly(YesterdaysDate, processTimeUtc, LOCAL_TIME_ZONE);
    TestLocalTime(processTimeUtc);
    YesterdaysDateValue(WithZone(processTimeUtc, LOCAL_TIME_ZONE));
  }

  lemma JoinOfTwo(a: string, b: string, sep: string)
    ensures Join([a, b], sep) == a + sep + b
  {
    assert [a, b][1..] == [b];
  }

  lemma JoinOfThree(a: string, b: string, c: string, sep: string)
    ensures Join([a, b, c], sep) == a + sep + b + sep + c
  {
    assert [a, b, c][1..] == [b, c];
    JoinOfTwo(b, c, sep);
  }

  /** Text around the token is kept. */
  lemma TestTemplateWithText(processTimeUtc: int)
    requires processTimeUtc == TEST_PROCESS_TIME_UTC
    ensures Resolve(YesterdaysDate, "before ${yesterdaysDate} after", processTimeUtc, LOCAL_TIME_ZONE)
            == "before 2018-03-26 after"
  {
    assert VarPattern(YesterdaysDate) == "${yesterdaysDate}";
    JoinOfTwo("before ", " after", "${yesterdaysDate}");
    JoinOfTwo("before ", " after", "2018-03-26");
    assert "before " + "${yesterdaysDate}" + " after" == "before ${yesterdaysDate} after";
    assert "before " + "2018-03-26" + " after" == "before 2018-03-26 after";
    PatternShape(YesterdaysDate);
    AbsentWithoutStart("before ", VarPattern(YesterdaysDate));
    AbsentWithoutStart(" after", VarPattern(YesterdaysDate));
    ResolveReplacesEveryToken(YesterdaysDate, ["before ", " after"], processTimeUtc, LOCAL_TIME_ZONE);
    TestLocalTime(processTimeUtc);
    YesterdaysDateValue(WithZone(processTimeUtc, LOCAL_TIME_ZONE));
  }

  /** Every instance of the token is replaced. */
  lemma TestMultipleInstances(processTimeUtc: int)
    requires processTimeUtc == TEST_PROCESS_TIME_UTC
    ensures Resolve(YesterdaysDate, "${yesterdaysDate} ${yesterdaysDate}", processTimeUtc, LOCAL_TIME_ZONE)
            == "2018-03-26 2018-03-26"
  {
    assert VarPattern(YesterdaysDate) == "${yesterdaysDate}";
    JoinOfThree("", " ", "", "${yesterdaysDate}");
    JoinOfThree("", " ", "", "2018-03-26");
    assert "" + "${yesterdaysDate}" + " " + "${yesterdaysDate}" + "" == "${yesterdaysDate} ${yesterdaysDate}";
    assert "" + "2018-03-26" + " " + "2018-03-26" + "" == "2018-03-26 2018-03-26";
    PatternShape(YesterdaysDate);
    AbsentWithoutStart("", VarPattern(YesterdaysDate));
    AbsentWithoutStart(" ", VarPattern(YesterdaysDate));
    ResolveReplacesEveryToken(YesterdaysDate, ["", " ", ""], processTimeUtc, LOCAL_TIME_ZONE);
    TestLocalTime(processTimeUtc);
    YesterdaysDateValue(WithZone(processTimeUtc, LOCAL_TIME_ZONE));
  }

  /** An unknown token passes through every variable untouched. */
  lemma TestIgnoresOtherVariables()
    ensures Resolve(YesterdaysDate, "${badVar}", TEST_PROCESS_TIME_UTC, LOCAL_TIME_ZONE) == "${badVar}"
    ensures ResolveAll("${badVar}", VALUES, TEST_PROCESS_TIME_UTC, LOCAL_TIME_ZONE) == "${badVar}"
  {
    forall w | w in VALUES ensures !Occurs("${badVar}", VarPattern(w)) {
      assert |VarPattern(w)| > |"${badVar}"|;
    }
    ResolveWithoutToken(YesterdaysDate, "${badVar}", TEST_PROCESS_TIME_UTC, LOCAL_TIME_ZONE);
    ResolveAllWithoutTokens("${badVar}", VALUES, TEST_PROCESS_TIME_UTC, LOCAL_TIME_ZONE);
  }
}
