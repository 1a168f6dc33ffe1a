/** The request-template variables: each `${name}` token is replaced by a
    value computed from the processing instant seen in the local time zone. */
module Templates {
  import opened CivilTime
  import opened IsoFormat
  import opened TextReplace

  datatype TemplateVariable =
    | EndOfPreviousDay
    | StartOfDay
    | StartOfDayOneWeekAgo
    | StartOfHour
    | StartOfPreviousDay
    | YesterdaysDate

  /** The enum's values(), in declaration order. */
  const VALUES: seq<TemplateVariable> :=
    [EndOfPreviousDay, StartOfDay, StartOfDayOneWeekAgo, StartOfHour, StartOfPreviousDay, YesterdaysDate]

  /** The zone every value is computed in: America/Los_Angeles, reduced to
      its daylight-time offset. */
  const LOCAL_TIME_ZONE: Zone := LOS_ANGELES_DAYLIGHT

  function VarName(v: TemplateVariable): string {
    match v
    case EndOfPreviousDay => "endOfPreviousDay"
    case StartOfDay => "startOfDay"
    case StartOfDayOneWeekAgo => "startOfDayOneWeekAgo"
    case StartOfHour => "startOfHour"
    case StartOfPreviousDay => "startOfPreviousDay"
    case YesterdaysDate => "yesterdaysDate"
  }

  function VarPattern(v: TemplateVariable): string {
    "${" + VarName(v) + "}"
  }

  // ---------------------------------------------------------------------
  // The values, as chains of Joda operations on the local date-time.

  function EndOfPreviousDayTime(t: DateTime): (r: DateTime)
    requires t.Valid()
    ensures r.Valid()
  {
    t.MinusDays(1).WithHourOfDay(23).WithMinuteOfHour(59).WithSecondOfMinute(59).WithMillisOfSecond(999)
  }

  function StartOfDayTime(t: DateTime): (r: DateTime)
    requires t.Valid()
    ensures r.Valid()
  {
    t.WithTimeAtStartOfDay()
  }

  function StartOfDayOneWeekAgoTime(t: DateTime): (r: DateTime)
    requires t.Valid()
    ensures r.Valid()
  {
    t.MinusDays(7).WithTimeAtStartOfDay()
  }

  function StartOfHourTime(t: DateTime): (r: DateTime)
    requires t.Valid()
    ensures r.Valid()
  {
    t.WithMinuteOfHour(0).WithSecondOfMinute(0).WithMillisOfSecond(0)
  }

  function StartOfPreviousDayTime(t: DateTime): (r: DateTime)
    requires t.Valid()
    ensures r.Valid()
  {
    t.MinusDays(1).WithTimeAtStartOfDay()
  }

  function YesterdayTime(t: DateTime): (r: DateTime)
    requires t.Valid()
    ensures r.Valid()
  {
    t.MinusDays(1)
  }

  /** The local date-time each variable's chain computes before rendering. */
  function ValueTime(v: TemplateVariable, t: DateTime): (r: DateTime)
    requires t.Valid()
    ensures r.Valid()
  {
    match v
    case EndOfPreviousDay => EndOfPreviousDayTime(t)
    case StartOfDay => StartOfDayTime(t)
    case StartOfDayOneWeekAgo => StartOfDayOneWeekAgoTime(t)
    case StartOfHour => StartOfHourTime(t)
    case StartOfPreviousDay => StartOfPreviousDayTime(t)
    case YesterdaysDate => YesterdayTime(t)
  }

  /** getReplacementValue: date-times render with toString(); yesterdaysDate
      renders only the local date, with LocalDate.toString(). */
  function ReplacementValue(v: TemplateVariable, t: DateTime): string
    requires t.Valid()
  {
    if v == YesterdaysDate then FormatDate(ValueTime(v, t).ToLocalDate())
    else FormatDateTime(ValueTime(v, t))
  }

  /** resolve(template, processTimeUtc): convert the instant to the local
      zone, compute the value, replace every token. */
  function Resolve(v: TemplateVariable, template: string, processTimeUtc: int, zone: Zone): string
    requires ValidZone(zone)
  {
    ReplaceAll(template, VarPattern(v), ReplacementValue(v, WithZone(processTimeUtc, zone)))
  }

  /** The variables applied to the template one after the other. */
  function ResolveAll(template: string, vars: seq<TemplateVariable>, processTimeUtc: int, zone: Zone): string
    requires ValidZone(zone)
    decreases |vars|
  {
    if vars == [] then template
    else ResolveAll(Resolve(vars[0], template, processTimeUtc, zone), vars[1..], processTimeUtc, zone)
  }

  // ---------------------------------------------------------------------
  // What each value means.

  /** startOfDay is local midnight of the local date: the instant at or
      before the processing instant and less than a day before it. */
  lemma StartOfDayIsLocalMidnight(t: DateTime)
    requires t.Valid()
    ensures var r := StartOfDayTime(t);
      r.zone == t.zone && r.local == LocalDateTime(t.local.date, 0, 0, 0, 0)
      && r.GetMillis() <= t.GetMillis() < r.GetMillis() + MS_PER_DAY
  {
  }

  /** startOfPreviousDay is midnight of the calendar day before, exactly one
      day before startOfDay (across month and year ends). */
  lemma StartOfPreviousDayIsDayBefore(t: DateTime)
    requires t.Valid()
    ensures var r := StartOfPreviousDayTime(t);
      r.zone == t.zone && r.local == LocalDateTime(PreviousDay(t.local.date), 0, 0, 0, 0)
      && r.GetMillis() == StartOfDayTime(t).GetMillis() - MS_PER_DAY
  {
    MinusOneDay(t.local.date);
  }

  /** startOfDayOneWeekAgo is midnight seven calendar days back, exactly
      seven days before startOfDay. */
  lemma StartOfDayOneWeekAgoIsSevenDaysBefore(t: DateTime)
    requires t.Valid()
    ensures var r := StartOfDayOneWeekAgoTime(t);
      r.zone == t.zone && r.local == LocalDateTime(DaysBack(t.local.date, 7), 0, 0, 0, 0)
      && r.GetMillis() == StartOfDayTime(t).GetMillis() - 7 * MS_PER_DAY
  {
    MinusDaysIsDaysBack(t.local.date, 7);
  }

  /** endOfPreviousDay is the last millisecond of the day before: the same
      local date as startOfPreviousDay, one millisecond before startOfDay. */
  lemma EndOfPreviousDayIsLastMillisecond(t: DateTime)
    requires t.Valid()
    ensures var r := EndOfPreviousDayTime(t);
      r.zone == t.zone && r.local == LocalDateTime(PreviousDay(t.local.date), 23, 59, 59, 999)
      && r.local.date == StartOfPreviousDayTime(t).local.date
      && r.GetMillis() == StartOfDayTime(t).GetMillis() - 1
  {
    MinusOneDay(t.local.date);
  }

  /** startOfHour keeps the local date and hour and zeroes the rest: the
      instant at or before the processing instant, less than an hour before. */
  lemma StartOfHourTruncates(t: DateTime)
    requires t.Valid()
    ensures var r := StartOfHourTime(t);
      r.zone == t.zone && r.local == LocalDateTime(t.local.date, t.local.hour, 0, 0, 0)
      && r.GetMillis() <= t.GetMillis() < r.GetMillis() + MS_PER_HOUR
  {
  }

  /** yesterdaysDate is the calendar day before, rendered as a full-date. */
  lemma YesterdaysDateIsPreviousDay(t: DateTime)
    requires t.Valid()
    ensures YesterdayTime(t).ToLocalDate() == PreviousDay(t.local.date)
    ensures ReplacementValue(YesterdaysDate, t) == FormatDate(PreviousDay(t.local.date))
  {
    MinusOneDay(t.local.date);
  }

  /** The yesterdaysDate text is the date part of both startOfPreviousDay
      and endOfPreviousDay. */
  lemma YesterdaysDateStartsPreviousDayValues(t: DateTime)
    requires t.Valid()
    ensures var y := ReplacementValue(YesterdaysDate, t);
      var s := ReplacementValue(StartOfPreviousDay, t);
      var e := ReplacementValue(EndOfPreviousDay, t);
      |y| <= |s| && s[..|y|] == y && |y| <= |e| && e[..|y|] == y
  {
    MinusOneDay(t.local.date);
    DateTimeStartsWithDate(StartOfPreviousDayTime(t));
    DateTimeStartsWithDate(EndOfPreviousDayTime(t));
  }

  // ---------------------------------------------------------------------
  // Values and patterns share no character.

  /** Every value is non-empty and uses only digits and - : T . + Z. */
  lemma ValueInAlphabet(v: TemplateVariable, t: DateTime)
    requires t.Valid()
    ensures ReplacementValue(v, t) != [] && InAlphabet(ReplacementValue(v, t))
  {
    if v == YesterdaysDate {
      DateInAlphabet(ValueTime(v, t).ToLocalDate());
    } else {
      DateTimeInAlphabet(ValueTime(v, t));
    }
  }

  /** The characters variable names are made of: letters other than 'T' and 'Z'. */
  predicate IsNameChar(c: char) {
    ('a' <= c <= 'z' || 'A' <= c <= 'Z') && c != 'T' && c != 'Z'
  }

  /** Variable names are non-empty camel-case words with no capital T or Z. */
  lemma NameLetters(v: TemplateVariable)
    ensures |VarName(v)| > 0 && forall i :: 0 <= i < |VarName(v)| ==> IsNameChar(VarName(v)[i])
  {
  }

  /** No name character is in the value alphabet. */
  lemma NameCharOutsideAlphabet(c: char)
    requires IsNameChar(c)
    ensures c !in VALUE_ALPHABET
  {
  }

  /** No character of a pattern is in the value alphabet. */
  lemma PatternOutsideAlphabet(v: TemplateVariable)
    ensures forall i :: 0 <= i < |VarPattern(v)| ==> VarPattern(v)[i] !in VALUE_ALPHABET
  {
    var p, n := VarPattern(v), VarName(v);
    NameLetters(v);
    forall i | 0 <= i < |p| ensures p[i] !in VALUE_ALPHABET {
      if 2 <= i < |p| - 1 {
        assert p[i] == n[i - 2];
        NameCharOutsideAlphabet(p[i]);
      }
    }
  }

  lemma ValueDisjointFromPattern(v: TemplateVariable, w: TemplateVariable, t: DateTime)
    requires t.Valid()
    ensures ReplacementValue(v, t) != [] && Disjoint(ReplacementValue(v, t), VarPattern(w))
  {
    ValueInAlphabet(v, t);
    PatternOutsideAlphabet(w);
    var a := ReplacementValue(v, t);
    forall i | 0 <= i < |a| ensures a[i] !in VarPattern(w) {
      assert a[i] in VALUE_ALPHABET;
    }
  }

  /** No replacement value contains "${", so none can form a token. */
  lemma ValueHasNoTokenStart(v: TemplateVariable, t: DateTime)
    requires t.Valid()
    ensures '$' !in ReplacementValue(v, t) && !Occurs(ReplacementValue(v, t), "${")
  {
    ValueInAlphabet(v, t);
    var a := ReplacementValue(v, t);
    assert '$' !in VALUE_ALPHABET;
    AbsentWithoutStart(a, "${");
  }

  // ---------------------------------------------------------------------
  // resolve.

  /** Every occurrence of the token is replaced by one and the same value and
      the text around it is kept, for any text around it that does not hold
      the token itself. */
  lemma ResolveReplacesEveryToken(v: TemplateVariable, segs: seq<string>, processTimeUtc: int, zone: Zone)
    requires ValidZone(zone) && |segs| > 0
    requires forall j :: 0 <= j < |segs| ==> !Occurs(segs[j], VarPattern(v))
    ensures Resolve(v, Join(segs, VarPattern(v)), processTimeUtc, zone)
            == Join(segs, ReplacementValue(v, WithZone(processTimeUtc, zone)))
  {
    PatternShape(v);
    ReplaceJoin(segs, VarPattern(v), ReplacementValue(v, WithZone(processTimeUtc, zone)));
  }

  /** A template without the token, such as one holding only unknown tokens,
      comes back unchanged. */
  lemma ResolveWithoutToken(v: TemplateVariable, template: string, processTimeUtc: int, zone: Zone)
    requires ValidZone(zone) && !Occurs(template, VarPattern(v))
    ensures Resolve(v, template, processTimeUtc, zone) == template
  {
    ReplaceWithoutOccurrence(template, VarPattern(v), ReplacementValue(v, WithZone(processTimeUtc, zone)));
  }

  /** After resolve no token of the variable is left, so resolving again
      changes nothing. */
  lemma ResolveIdempotent(v: TemplateVariable, template: string, processTimeUtc: int, zone: Zone)
    requires ValidZone(zone)
    ensures !Occurs(Resolve(v, template, processTimeUtc, zone), VarPattern(v))
    ensures Resolve(v, Resolve(v, template, processTimeUtc, zone), processTimeUtc, zone)
            == Resolve(v, template, processTimeUtc, zone)
  {
    var t := WithZone(processTimeUtc, zone);
    ValueDisjointFromPattern(v, v, t);
    ReplaceIdempotent(template, VarPattern(v), ReplacementValue(v, t));
  }

  /** Resolving one variable never creates a token of another. */
  lemma ResolveCreatesNoToken(v: TemplateVariable, w: TemplateVariable, template: string, processTimeUtc: int, zone: Zone)
    requires ValidZone(zone) && !Occurs(template, VarPattern(w))
    ensures !Occurs(Resolve(v, template, processTimeUtc, zone), VarPattern(w))
  {
    var t := WithZone(processTimeUtc, zone);
    ValueDisjointFromPattern(v, w, t);
    ReplaceCreatesNoOccurrence(template, VarPattern(v), ReplacementValue(v, t), VarPattern(w));
  }

  // ---------------------------------------------------------------------
  // All variables in turn, as process() applies them.

  /** One step of the fold: the variable at position i, then the rest. */
  lemma ResolveAllStep(template: string, vars: seq<TemplateVariable>, i: nat, processTimeUtc: int, zone: Zone)
    requires ValidZone(zone) && i < |vars|
    ensures ResolveAll(template, vars[i..], processTimeUtc, zone)
            == ResolveAll(Resolve(vars[i], template, processTimeUtc, zone), vars[i + 1..], processTimeUtc, zone)
  {
    assert vars[i..][1..] == vars[i + 1..];
  }

  lemma {:induction false} ResolveAllKeepsAbsent(template: string, vars: seq<TemplateVariable>, processTimeUtc: int, zone: Zone, w: TemplateVariable)
    requires ValidZone(zone) && !Occurs(template, VarPattern(w))
    ensures !Occurs(ResolveAll(template, vars, processTimeUtc, zone), VarPattern(w))
    decreases |vars|
  {
    if vars != [] {
      ResolveCreatesNoToken(vars[0], w, template, processTimeUtc, zone);
      ResolveAllKeepsAbsent(Resolve(vars[0], template, processTimeUtc, zone), vars[1..], processTimeUtc, zone, w);
    }
  }

  /** After all variables are applied, no token of any of them is left. */
  lemma {:induction false} ResolveAllRemovesTokens(template: string, vars: seq<TemplateVariable>, processTimeUtc: int, zone: Zone, w: TemplateVariable)
    requires ValidZone(zone) && w in vars
    ensures !Occurs(ResolveAll(template, vars, processTimeUtc, zone), VarPattern(w))
    decreases |vars|
  {
    var next := Resolve(vars[0], template, processTimeUtc, zone);
    if vars[0] == w {
      ResolveIdempotent(w, template, processTimeUtc, zone);
      ResolveAllKeepsAbsent(next, vars[1..], processTimeUtc, zone, w);
    } else {
      ResolveAllRemovesTokens(next, vars[1..], processTimeUtc, zone, w);
    }
  }

  /** A template with no token of the given variables is sent verbatim. */
  lemma {:induction false} ResolveAllWithoutTokens(template: string, vars: seq<TemplateVariable>, processTimeUtc: int, zone: Zone)
    requires ValidZone(zone)
    requires forall w :: w in vars ==> !Occurs(template, VarPattern(w))
    ensures ResolveAll(template, vars, processTimeUtc, zone) == template
    decreases |vars|
  {
    if vars != [] {
      ResolveWithoutToken(vars[0], template, processTimeUtc, zone);
      ResolveAllWithoutTokens(template, vars[1..], processTimeUtc, zone);
    }
  }

  /** Applying all variables a second time changes nothing. */
  lemma ResolveAllIdempotent(template: string, processTimeUtc: int, zone: Zone)
    requires ValidZone(zone)
    ensures var once := ResolveAll(template, VALUES, processTimeUtc, zone);
      ResolveAll(once, VALUES, processTimeUtc, zone) == once
  {
    var once := ResolveAll(template, VALUES, processTimeUtc, zone);
    forall w | w in VALUES ensures !Occurs(once, VarPattern(w)) {
      ResolveAllRemovesTokens(template, VALUES, processTimeUtc, zone, w);
    }
    ResolveAllWithoutTokens(once, VALUES, processTimeUtc, zone);
  }

  /** A pattern starts with "${", ends with its only '}' and holds no
      other '$'. */
  lemma PatternShape(v: TemplateVariable)
    ensures var p := VarPattern(v);
      |p| > 3 && p[0] == '$' && p[|p| - 1] == '}'
      && (forall i :: 0 <= i < |p| - 1 ==> p[i] != '}')
      && (forall i :: 1 <= i < |p| ==> p[i] != '$')
  {
    var p, n := VarPattern(v), VarName(v);
    NameLetters(v);
    forall i | 2 <= i < |p| - 1 ensures p[i] == n[i - 2] {
    }
  }

  lemma NamesDistinct(v: TemplateVariable, w: TemplateVariable)
    requires v != w
    ensures |VarPattern(v)| != |VarPattern(w)|
  {
  }

  /** Distinct variables' patterns can never match at each other's start. */
  lemma PatternsApart(v: TemplateVariable, w: TemplateVariable)
    requires v != w
    ensures NeverPrefix(VarPattern(v), VarPattern(w))
    ensures VarPattern(w)[0] == VarPattern(v)[0] == '$' && '$' !in VarPattern(v)[1..]
  {
    var p, q := VarPattern(v), VarPattern(w);
    PatternShape(v);
    PatternShape(w);
    NamesDistinct(v, w);
    if |q| < |p| {
      assert p[..|q|][|q| - 1] == p[|q| - 1];
    } else {
      assert q[..|p|][|p| - 1] == q[|p| - 1];
    }
    forall i | 0 <= i < |p[1..]| ensures p[1..][i] != '$' {
      assert p[1..][i] == p[i + 1];
    }
  }

  /** A template whose only tokens are those of v, amid text holding no token
      of any variable of the fold: the whole fold replaces each of them by v's
      value and keeps the rest. */
  lemma {:induction false} ResolveAllOneVariable(v: TemplateVariable, segs: seq<string>, vars: seq<TemplateVariable>,
                                                 processTimeUtc: int, zone: Zone)
    requires ValidZone(zone) && |segs| > 0 && v in vars
    requires forall w, j :: w in vars && 0 <= j < |segs| ==> !Occurs(segs[j], VarPattern(w))
    ensures ResolveAll(Join(segs, VarPattern(v)), vars, processTimeUtc, zone)
            == Join(segs, ReplacementValue(v, WithZone(processTimeUtc, zone)))
    decreases |vars|
  {
    var val := ReplacementValue(v, WithZone(processTimeUtc, zone));
    if vars[0] == v {
      ResolveReplacesEveryToken(v, segs, processTimeUtc, zone);
      forall w | w in vars[1..] ensures !Occurs(Join(segs, val), VarPattern(w)) {
        ValueDisjointFromPattern(v, w, WithZone(processTimeUtc, zone));
        PatternShape(w);
        JoinAvoidsTarget(segs, val, VarPattern(w));
      }
      ResolveAllWithoutTokens(Join(segs, val), vars[1..], processTimeUtc, zone);
    } else {
      var w := vars[0];
      PatternsApart(v, w);
      PatternShape(v);
      PatternShape(w);
      ReplaceJoinOther(segs, VarPattern(v), VarPattern(w), ReplacementValue(w, WithZone(processTimeUtc, zone)));
      ResolveAllOneVariable(v, segs, vars[1..], processTimeUtc, zone);
    }
  }

  /** A template that is exactly one token resolves to the value. */
  lemma ResolveTokenOnly(v: TemplateVariable, processTimeUtc: int, zone: Zone)
    requires ValidZone(zone)
    ensures Resolve(v, VarPattern(v), processTimeUtc, zone) == ReplacementValue(v, WithZone(processTimeUtc, zone))
  {
    ReplaceWholeText(VarPattern(v), ReplacementValue(v, WithZone(processTimeUtc, zone)));
  }
}
