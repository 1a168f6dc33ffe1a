/** Three places where the scheduler's code and its own tests part ways,
    each modelled twice: as the code is written, with the input that shows
    the difference, and as the tests evidently intend, with the intended
    property proved. */
module Findings {
  import opened CivilTime
  import opened IsoFormat
  import opened TextReplace
  import opened Templates
  import opened Cron
  import opened Scheduler
  import opened SchedulerExamples
  import opened TemplateExamples

  // ---------------------------------------------------------------------
  // Firings over adjacent windows.

  /** Enumerating from an instant at or after both starts, the firings
      depend on the trigger's cron and end time, not on its start. */
  lemma {:induction false} FireTimesIgnoreStart(lib: CronLibrary, cron: string, s1: int, s2: int, e: int, after: int, count: nat)
    requires Lawful(lib) && s1 <= after && s2 <= after && count <= MAX_EXECUTIONS
    ensures FireTimesFrom(lib, Trigger(cron, s1, e), after, count) == FireTimesFrom(lib, Trigger(cron, s2, e), after, count)
    decreases MAX_EXECUTIONS - count
  {
    match FireTimeAfter(lib, Trigger(cron, s1, e), after)
    case None =>
    case Some(t) =>
      if count + 1 <= MAX_EXECUTIONS {
        FireTimesIgnoreStart(lib, cron, s1, s2, e, t, count + 1);
      }
  }

  /** An enumeration that stayed under the cap with n firings already taken
      is the same with fewer taken. */
  lemma {:induction false} FireTimesFewerTaken(lib: CronLibrary, trigger: Trigger, after: int, m: nat, n: nat)
    requires m <= n <= MAX_EXECUTIONS
    requires FireTimesFrom(lib, trigger, after, n).Enumerated?
    ensures FireTimesFrom(lib, trigger, after, m) == FireTimesFrom(lib, trigger, after, n)
    decreases MAX_EXECUTIONS - n
  {
    match FireTimeAfter(lib, trigger, after)
    case None =>
    case Some(t) =>
      FireTimesFewerTaken(lib, trigger, t, m + 1, n + 1);
  }

  /** One step of FireTimesSplit: the next firing before e2 is the next one
      before e1 when it is no later than e1, and otherwise it is also the
      next firing after e1. */
  lemma FireTimeAfterSplit(lib: CronLibrary, cron: string, s: int, e1: int, e2: int, after: int)
    requires Lawful(lib) && Coherent(lib) && s <= after <= e1 <= e2
    ensures var first := FireTimeAfter(lib, Trigger(cron, s, e1), after);
            var whole := FireTimeAfter(lib, Trigger(cron, s, e2), after);
            (whole.None? ==> first.None? && FireTimeAfter(lib, Trigger(cron, s, e2), e1).None?)
            && (whole.Some? && whole.value <= e1 ==> first == whole)
            && (whole.Some? && whole.value > e1 ==> first.None? && FireTimeAfter(lib, Trigger(cron, s, e2), e1) == whole)
  {
    var pot := lib.timeAfter(cron, after);
    assert lib.timeAfter(cron, e1) == pot || (pot.Some? && pot.value <= e1);
  }

  /** Under a coherent cron library, the firings that a trigger ending at e2
      enumerates after `after` are those of the same cron ending at e1,
      followed by those after e1. */
  lemma {:induction false} FireTimesSplit(lib: CronLibrary, cron: string, s: int, e1: int, e2: int, after: int, count: nat)
    requires Lawful(lib) && Coherent(lib) && s <= after <= e1 <= e2 && count <= MAX_EXECUTIONS
    requires FireTimesFrom(lib, Trigger(cron, s, e2), after, count).Enumerated?
    ensures var whole := FireTimesFrom(lib, Trigger(cron, s, e2), after, count);
            var first := FireTimesFrom(lib, Trigger(cron, s, e1), after, count);
            first.Enumerated? && count + |first.times| <= MAX_EXECUTIONS
            && FireTimesFrom(lib, Trigger(cron, s, e2), e1, count + |first.times|).Enumerated?
            && whole.times == first.times + FireTimesFrom(lib, Trigger(cron, s, e2), e1, count + |first.times|).times
    decreases MAX_EXECUTIONS - count
  {
    var t1, t2 := Trigger(cron, s, e1), Trigger(cron, s, e2);
    FireTimeAfterSplit(lib, cron, s, e1, e2, after);
    match FireTimeAfter(lib, t2, after)
    case None =>
    case Some(t) =>
      assert count + 1 <= MAX_EXECUTIONS;
      var wholeTail := FireTimesFrom(lib, t2, t, count + 1);
      assert FireTimesFrom(lib, t2, after, count) == Prepend(t, wholeTail);
      if t <= e1 {
        assert wholeTail.Enumerated?;
        FireTimesSplit(lib, cron, s, e1, e2, t, count + 1);
        var first' := FireTimesFrom(lib, t1, t, count + 1);
        var rest := FireTimesFrom(lib, t2, e1, count + 1 + |first'.times|);
        assert FireTimesFrom(lib, t1, after, count) == Prepend(t, first');
        assert [t] + (first'.times + rest.times) == ([t] + first'.times) + rest.times;
      } else {
        assert FireTimesFrom(lib, t1, after, count) == Enumerated([]);
      }
  }

  /** The processing times of (s, e] are those of (s, m] followed by those
      of (m, e], for any m in between, when the cron library is lawful and
      coherent. */
  lemma ProcessingTimesSplit(lib: CronLibrary, config: ScheduleConfig, s: int, m: int, e: int)
    requires Lawful(lib) && Coherent(lib) && s <= m <= e
    requires ProcessingTimes(lib, config, s, e).Success?
    ensures ProcessingTimes(lib, config, s, m).Success? && ProcessingTimes(lib, config, m, e).Success?
    ensures ProcessingTimes(lib, config, s, e).value
            == ProcessingTimes(lib, config, s, m).value + ProcessingTimes(lib, config, m, e).value
  {
    var cron := config.cronSchedule;
    FireTimesSplit(lib, cron, s, m, e, s, 0);
    var first := FireTimesFrom(lib, Trigger(cron, s, m), s, 0);
    FireTimesFewerTaken(lib, Trigger(cron, s, e), m, 0, |first.times|);
    FireTimesIgnoreStart(lib, cron, m, s, e, m, 0);
  }

  // ---------------------------------------------------------------------
  // Finding 1: the status row keeps the old window start.

  /** As written, a completed run stores its window start, so the next run
      starts its window at the same instant: every firing this run sent is
      listed, and sent, again. */
  lemma AsWrittenWindowNeverAdvances(lib: CronLibrary, config: ScheduleConfig, statusTable: map<string, StatusRow>,
                                     nowUtc: int, laterUtc: int)
    requires Lawful(lib) && Coherent(lib)
    requires WindowStart(statusTable, nowUtc) <= nowUtc <= laterUtc
    requires ProcessingTimes(lib, config, WindowStart(statusTable, nowUtc), laterUtc).Success?
    ensures var startUtc := WindowStart(statusTable, nowUtc);
            var next := WithStatus(statusTable, startUtc);
            WindowStart(next, laterUtc) == startUtc
            && ProcessingTimes(lib, config, startUtc, nowUtc).Success?
            && IsPrefix(ProcessingTimes(lib, config, startUtc, nowUtc).value,
                        ProcessingTimes(lib, config, WindowStart(next, laterUtc), laterUtc).value)
  {
    var startUtc := WindowStart(statusTable, nowUtc);
    var next := WithStatus(statusTable, startUtc);
    WindowStartCases(next, 0, laterUtc);
    ProcessingTimesSplit(lib, config, startUtc, nowUtc, laterUtc);
  }

  /** basicCase, run again half an hour later: the row written at 19:00
      holds 18:30, not the 19:00 the test expects, and the 19:30 run lists
      19:00 once more. */
  lemma BasicCaseRepeats()
    ensures WindowStart(WithStatus(STATUS_WITH_LAST_PROCESSED_TIME, LAST_PROCESS_TIME_MILLIS), HALF_PAST_SEVEN_MILLIS)
            == LAST_PROCESS_TIME_MILLIS != MOCK_NOW_MILLIS
    ensures ProcessingTimes(TEST_QUARTZ, BASIC_CONFIG, LAST_PROCESS_TIME_MILLIS, HALF_PAST_SEVEN_MILLIS)
            == Success([MOCK_NOW_MILLIS, HALF_PAST_SEVEN_MILLIS])
  {
    GridValues();
    var trigger := Trigger(HALF_HOURLY, LAST_PROCESS_TIME_MILLIS, HALF_PAST_SEVEN_MILLIS);
    WindowStartCases(WithStatus(STATUS_WITH_LAST_PROCESSED_TIME, LAST_PROCESS_TIME_MILLIS), 0, HALF_PAST_SEVEN_MILLIS);
    assert FireTimeAfter(TEST_QUARTZ, trigger, LAST_PROCESS_TIME_MILLIS) == Some(MOCK_NOW_MILLIS);
    assert FireTimeAfter(TEST_QUARTZ, trigger, MOCK_NOW_MILLIS) == Some(HALF_PAST_SEVEN_MILLIS);
    assert FireTimeAfter(TEST_QUARTZ, trigger, HALF_PAST_SEVEN_MILLIS).None?;
    assert FireTimesFrom(TEST_QUARTZ, trigger, HALF_PAST_SEVEN_MILLIS, 2) == Enumerated([]);
    assert FireTimesFrom(TEST_QUARTZ, trigger, MOCK_NOW_MILLIS, 1) == Enumerated([HALF_PAST_SEVEN_MILLIS]);
    assert FireTimesFrom(TEST_QUARTZ, trigger, LAST_PROCESS_TIME_MILLIS, 0) == Enumerated([MOCK_NOW_MILLIS, HALF_PAST_SEVEN_MILLIS]);
  }

  /** Corrected: a completed run stores now, the end of its window, and the
      rest of the status table is kept. */
  function CorrectedStatus(statusTable: map<string, StatusRow>, nowUtc: int): (r: map<string, StatusRow>)
    ensures forall laterUtc :: WindowStart(r, laterUtc) == nowUtc
    ensures forall k :: k in statusTable && k != HASH_KEY_MASTER_SCHEDULER ==> k in r && r[k] == statusTable[k]
  {
    WithStatus(statusTable, nowUtc)
  }

  /** With the corrected status row, two successive runs together list
      exactly the firings of the whole span, each firing once: those of the
      first run all come before those of the second. */
  lemma CorrectedRunsPartitionFirings(lib: CronLibrary, config: ScheduleConfig, statusTable: map<string, StatusRow>,
                                      nowUtc: int, laterUtc: int)
    requires Lawful(lib) && Coherent(lib)
    requires WindowStart(statusTable, nowUtc) <= nowUtc <= laterUtc
    requires ProcessingTimes(lib, config, WindowStart(statusTable, nowUtc), laterUtc).Success?
    ensures var startUtc := WindowStart(statusTable, nowUtc);
            var first := ProcessingTimes(lib, config, startUtc, nowUtc);
            var second := ProcessingTimes(lib, config, WindowStart(CorrectedStatus(statusTable, nowUtc), laterUtc), laterUtc);
            first.Success? && second.Success?
            && ProcessingTimes(lib, config, startUtc, laterUtc).value == first.value + second.value
            && (forall i, j :: 0 <= i < |first.value| && 0 <= j < |second.value| ==> first.value[i] < second.value[j])
  {
    var startUtc := WindowStart(statusTable, nowUtc);
    ProcessingTimesSplit(lib, config, startUtc, nowUtc, laterUtc);
    ProcessingTimesInWindow(lib, config, startUtc, nowUtc);
    ProcessingTimesInWindow(lib, config, nowUtc, laterUtc);
  }

  /** With the corrected row, the second run lists what the whole span
      lists beyond the first run's firings. */
  lemma CorrectedSecondRun(lib: CronLibrary, config: ScheduleConfig, statusTable: map<string, StatusRow>,
                           nowUtc: int, laterUtc: int, first: seq<int>, rest: seq<int>)
    requires Lawful(lib) && Coherent(lib)
    requires WindowStart(statusTable, nowUtc) <= nowUtc <= laterUtc
    requires ProcessingTimes(lib, config, WindowStart(statusTable, nowUtc), nowUtc) == Success(first)
    requires ProcessingTimes(lib, config, WindowStart(statusTable, nowUtc), laterUtc) == Success(first + rest)
    ensures ProcessingTimes(lib, config, WindowStart(CorrectedStatus(statusTable, nowUtc), laterUtc), laterUtc) == Success(rest)
  {
    CorrectedRunsPartitionFirings(lib, config, statusTable, nowUtc, laterUtc);
    var second := ProcessingTimes(lib, config, WindowStart(CorrectedStatus(statusTable, nowUtc), laterUtc), laterUtc);
    assert first + rest == first + second.value;
    assert rest == (first + rest)[|first|..] == (first + second.value)[|first|..] == second.value;
  }

  /** basicCase with the corrected row: 19:00 is stored, and the 19:30 run
      lists 19:30 alone, while as written it lists 19:00 first again. */
  lemma BasicCaseCorrected(nowUtc: int, laterUtc: int)
    requires nowUtc == MOCK_NOW_MILLIS && laterUtc == HALF_PAST_SEVEN_MILLIS
    ensures ProcessingTimes(TEST_QUARTZ, BASIC_CONFIG,
                            WindowStart(CorrectedStatus(STATUS_WITH_LAST_PROCESSED_TIME, nowUtc), laterUtc), laterUtc)
            == Success([laterUtc])
    ensures var asWritten := WithStatus(STATUS_WITH_LAST_PROCESSED_TIME, WindowStart(STATUS_WITH_LAST_PROCESSED_TIME, nowUtc));
            var run := ProcessingTimes(TEST_QUARTZ, BASIC_CONFIG, WindowStart(asWritten, laterUtc), laterUtc);
            run.Success? && |run.value| > 0 && run.value[0] == nowUtc
  {
    assert [nowUtc] + [laterUtc] == [MOCK_NOW_MILLIS, HALF_PAST_SEVEN_MILLIS];
    var start := WindowStart(STATUS_WITH_LAST_PROCESSED_TIME, nowUtc);
    assert start == LAST_PROCESS_TIME_MILLIS by {
      WindowStartCases(STATUS_WITH_LAST_PROCESSED_TIME, nowUtc, nowUtc);
    }
    assert ProcessingTimes(TEST_QUARTZ, BASIC_CONFIG, start, nowUtc) == Success([nowUtc]) by {
      HalfHourlyWindow(BASIC_CONFIG);
    }
    assert ProcessingTimes(TEST_QUARTZ, BASIC_CONFIG, start, laterUtc) == Success([nowUtc] + [laterUtc]) by {
      BasicCaseRepeats();
    }
    assert Lawful(TEST_QUARTZ) && Coherent(TEST_QUARTZ) by {
      TestQuartzLawful();
      TestQuartzCoherent();
    }
    CorrectedSecondRun(TEST_QUARTZ, BASIC_CONFIG, STATUS_WITH_LAST_PROCESSED_TIME, nowUtc, laterUtc, [nowUtc], [laterUtc]);
    assert WindowStart(WithStatus(STATUS_WITH_LAST_PROCESSED_TIME, start), laterUtc) == start by {
      WindowStartCases(WithStatus(STATUS_WITH_LAST_PROCESSED_TIME, start), laterUtc, laterUtc);
    }
  }

  // ---------------------------------------------------------------------
  // Finding 2: one failing config stops the others.

  /** As written, the first config whose run ends in an exception ends the
      whole loop: what goes out is a prefix of what the configs up to and
      including that one send, and no config after it sends anything. */
  lemma {:induction false} AsWrittenFailureStopsLaterConfigs(lib: CronLibrary, sqs: SqsClient, resolve: TemplateResolver,
                                                            configs: seq<ScheduleConfig>, j: nat, s: int, e: int)
    requires j < |configs| && RunConfig(lib, sqs, resolve, configs[j], s, e).error.Some?
    ensures var run := RunConfigs(lib, sqs, resolve, configs, s, e);
            run.error.Some? && IsPrefix(run.sent, IsolatedSent(lib, sqs, resolve, configs[..j + 1], s, e))
    decreases j
  {
    var first := RunConfig(lib, sqs, resolve, configs[0], s, e);
    var upTo := configs[..j + 1];
    assert upTo[0] == configs[0];
    var rest := IsolatedSent(lib, sqs, resolve, upTo[1..], s, e);
    if first.error.Some? {
      assert (first.sent + rest)[..|first.sent|] == first.sent;
    } else {
      assert j > 0;
      AsWrittenFailureStopsLaterConfigs(lib, sqs, resolve, configs[1..], j - 1, s, e);
      assert configs[1..][j - 1] == configs[j];
      assert configs[1..][..j] == upTo[1..];
      var tail := RunConfigs(lib, sqs, resolve, configs[1..], s, e).sent;
      assert (first.sent + rest)[..|first.sent + tail|] == first.sent + rest[..|tail|];
    }
  }

  /** Corrected: each config in its own try block, so a config's exception
      ends that config only and the loop goes on with the next one. */
  function IsolatedSent(lib: CronLibrary, sqs: SqsClient, resolve: TemplateResolver,
                        configs: seq<ScheduleConfig>, s: int, e: int): seq<Message>
    decreases |configs|
  {
    if configs == [] then []
    else RunConfig(lib, sqs, resolve, configs[0], s, e).sent + IsolatedSent(lib, sqs, resolve, configs[1..], s, e)
  }

  /** The corrected run over two lists of configs, one after the other,
      sends what each list sends on its own. */
  lemma {:induction false} IsolatedSentConcat(lib: CronLibrary, sqs: SqsClient, resolve: TemplateResolver,
                                             a: seq<ScheduleConfig>, b: seq<ScheduleConfig>, s: int, e: int)
    ensures IsolatedSent(lib, sqs, resolve, a + b, s, e)
            == IsolatedSent(lib, sqs, resolve, a, s, e) + IsolatedSent(lib, sqs, resolve, b, s, e)
    decreases |a|
  {
    if a == [] {
      assert a + b == b;
    } else {
      assert (a + b)[0] == a[0];
      assert (a + b)[1..] == a[1..] + b;
      IsolatedSentConcat(lib, sqs, resolve, a[1..], b, s, e);
      AppendAssoc(RunConfig(lib, sqs, resolve, a[0], s, e).sent,
                  IsolatedSent(lib, sqs, resolve, a[1..], s, e), IsolatedSent(lib, sqs, resolve, b, s, e));
    }
  }

  /** The corrected run sends, around any one config, what the configs
      before it send, then what that config sends, then what the configs
      after it send, whatever happens in any of them. */
  lemma IsolatedSentAround(lib: CronLibrary, sqs: SqsClient, resolve: TemplateResolver,
                           configs: seq<ScheduleConfig>, j: nat, s: int, e: int)
    requires j < |configs|
    ensures IsolatedSent(lib, sqs, resolve, configs, s, e)
            == IsolatedSent(lib, sqs, resolve, configs[..j], s, e)
               + RunConfig(lib, sqs, resolve, configs[j], s, e).sent
               + IsolatedSent(lib, sqs, resolve, configs[j + 1..], s, e)
  {
    var before, here, after := configs[..j], [configs[j]], configs[j + 1..];
    assert configs == before + (here + after);
    IsolatedSentConcat(lib, sqs, resolve, before, here + after, s, e);
    IsolatedSentConcat(lib, sqs, resolve, here, after, s, e);
    assert here[1..] == [];
    assert IsolatedSent(lib, sqs, resolve, here, s, e) == RunConfig(lib, sqs, resolve, configs[j], s, e).sent + [];
  }

  /** The run as written sends a prefix of what the corrected run sends,
      and all of it when no config fails. */
  lemma {:induction false} AsWrittenIsPrefixOfIsolated(lib: CronLibrary, sqs: SqsClient, resolve: TemplateResolver,
                                                      configs: seq<ScheduleConfig>, s: int, e: int)
    ensures var run := RunConfigs(lib, sqs, resolve, configs, s, e);
            IsPrefix(run.sent, IsolatedSent(lib, sqs, resolve, configs, s, e))
            && (run.error.None? ==> run.sent == IsolatedSent(lib, sqs, resolve, configs, s, e))
    decreases |configs|
  {
    if configs != [] {
      AsWrittenIsPrefixOfIsolated(lib, sqs, resolve, configs[1..], s, e);
      var first := RunConfig(lib, sqs, resolve, configs[0], s, e).sent;
      var rest := IsolatedSent(lib, sqs, resolve, configs[1..], s, e);
      assert IsPrefix(first, first + rest) by { assert (first + rest)[..|first|] == first; }
      var tail := RunConfigs(lib, sqs, resolve, configs[1..], s, e).sent;
      assert (first + rest)[..|first + tail|] == first + rest[..|tail|];
    }
  }

  /** errorHandling, corrected: the send to queue 1 fails, and config 2's
      request at 18:45 still goes out, as the test at line 205 expects. */
  lemma ErrorHandlingIsolated(resolve: TemplateResolver)
    ensures IsolatedSent(TEST_QUARTZ, REJECT_QUEUE_1, resolve, [CONFIG_1, CONFIG_2], LAST_PROCESS_TIME_MILLIS, MOCK_NOW_MILLIS)
            == [Message("dummy-q-url-2", resolve("request-2 ${processTime}", QUARTER_TO_SEVEN_MILLIS))]
  {
    HalfHourlyWindow(CONFIG_1);
    QuarterPastAndToWindow(CONFIG_2);
    assert Requests(resolve, CONFIG_1, [MOCK_NOW_MILLIS]) == [Request(resolve, CONFIG_1, MOCK_NOW_MILLIS)];
    assert Requests(resolve, CONFIG_2, [QUARTER_TO_SEVEN_MILLIS]) == [Request(resolve, CONFIG_2, QUARTER_TO_SEVEN_MILLIS)];
    var m1, m2 := Request(resolve, CONFIG_1, MOCK_NOW_MILLIS), Request(resolve, CONFIG_2, QUARTER_TO_SEVEN_MILLIS);
    assert Deliver(REJECT_QUEUE_1, "schedule-1", [m1]).sent == [];
    assert m2.queueUrl[12] != "dummy-q-url-1"[12];
    assert [m2][1..] == [];
    assert Deliver(REJECT_QUEUE_1, "schedule-2", [m2]) == Run([m2], None);
    var s, e := LAST_PROCESS_TIME_MILLIS, MOCK_NOW_MILLIS;
    assert RunConfig(TEST_QUARTZ, REJECT_QUEUE_1, resolve, CONFIG_1, s, e).sent == [];
    assert RunConfig(TEST_QUARTZ, REJECT_QUEUE_1, resolve, CONFIG_2, s, e).sent == [m2];
    assert [CONFIG_1, CONFIG_2][1..] == [CONFIG_2];
    assert [CONFIG_2][1..] == [];
    assert IsolatedSent(TEST_QUARTZ, REJECT_QUEUE_1, resolve, [CONFIG_2], s, e) == [m2];
  }

  // ---------------------------------------------------------------------
  // Finding 3: ${processTime} and ${todaysDate} are not variables.

  const PROCESS_TIME_TOKEN: string := "${processTime}"
  const TODAYS_DATE_TOKEN: string := "${todaysDate}"

  /** A template left unchanged by each variable is left unchanged by all. */
  lemma {:induction false} ResolveAllFixed(template: string, vars: seq<TemplateVariable>, processTimeUtc: int, zone: Zone)
    requires ValidZone(zone)
    requires forall w :: w in vars ==> Resolve(w, template, processTimeUtc, zone) == template
    ensures ResolveAll(template, vars, processTimeUtc, zone) == template
    decreases |vars|
  {
    if vars != [] {
      assert vars[0] in vars;
      ResolveAllFixed(template, vars[1..], processTimeUtc, zone);
    }
  }

  /** No declared variable's token can match at the start of either token. */
  lemma TokensApart(w: TemplateVariable)
    ensures NeverPrefix(PROCESS_TIME_TOKEN, VarPattern(w))
    ensures NeverPrefix(TODAYS_DATE_TOKEN, VarPattern(w))
  {
    var q := VarPattern(w);
    assert q[2] == VarName(w)[0];
    if |q| <= |PROCESS_TIME_TOKEN| {
      assert PROCESS_TIME_TOKEN[..|q|][2] != q[2];
    }
    if |q| <= |TODAYS_DATE_TOKEN| {
      assert TODAYS_DATE_TOKEN[..|q|][2] != q[2];
    } else {
      assert q[..|TODAYS_DATE_TOKEN|][2] != TODAYS_DATE_TOKEN[2];
    }
  }

  /** Replacing a declared variable's token, by any text, leaves a
      '$'-free prefix followed by ${processTime} or ${todaysDate} as it is. */
  lemma MissingTokensKept(prefix: string, w: TemplateVariable, rep: string)
    requires '$' !in prefix
    ensures ReplaceAll(prefix + PROCESS_TIME_TOKEN, VarPattern(w), rep) == prefix + PROCESS_TIME_TOKEN
    ensures ReplaceAll(prefix + TODAYS_DATE_TOKEN, VarPattern(w), rep) == prefix + TODAYS_DATE_TOKEN
  {
    JoinOfTwo(prefix, "", PROCESS_TIME_TOKEN);
    JoinOfTwo(prefix, "", TODAYS_DATE_TOKEN);
    assert prefix + PROCESS_TIME_TOKEN + "" == prefix + PROCESS_TIME_TOKEN;
    assert prefix + TODAYS_DATE_TOKEN + "" == prefix + TODAYS_DATE_TOKEN;
    TokensApart(w);
    PatternShape(w);
    AbsentWithoutStart(prefix, VarPattern(w));
    ReplaceJoinOther([prefix, ""], PROCESS_TIME_TOKEN, VarPattern(w), rep);
    ReplaceJoinOther([prefix, ""], TODAYS_DATE_TOKEN, VarPattern(w), rep);
  }

  /** No variable of any list changes a template whose only token is
      ${processTime} or ${todaysDate}. */
  lemma MissingTokensFixed(prefix: string, vars: seq<TemplateVariable>, processTimeUtc: int, zone: Zone)
    requires ValidZone(zone) && '$' !in prefix
    ensures ResolveAll(prefix + PROCESS_TIME_TOKEN, vars, processTimeUtc, zone) == prefix + PROCESS_TIME_TOKEN
    ensures ResolveAll(prefix + TODAYS_DATE_TOKEN, vars, processTimeUtc, zone) == prefix + TODAYS_DATE_TOKEN
  {
    forall w | w in vars
      ensures Resolve(w, prefix + PROCESS_TIME_TOKEN, processTimeUtc, zone) == prefix + PROCESS_TIME_TOKEN
      ensures Resolve(w, prefix + TODAYS_DATE_TOKEN, processTimeUtc, zone) == prefix + TODAYS_DATE_TOKEN
    {
      MissingTokensKept(prefix, w, ReplacementValue(w, WithZone(processTimeUtc, zone)));
    }
    ResolveAllFixed(prefix + PROCESS_TIME_TOKEN, vars, processTimeUtc, zone);
    ResolveAllFixed(prefix + TODAYS_DATE_TOKEN, vars, processTimeUtc, zone);
  }

  /** As written, a template whose only token is ${processTime} or
      ${todaysDate} is sent verbatim. */
  lemma AsWrittenKeepsMissingTokens(prefix: string, processTimeUtc: int)
    requires '$' !in prefix
    ensures RESOLVE_TEMPLATE(prefix + PROCESS_TIME_TOKEN, processTimeUtc) == prefix + PROCESS_TIME_TOKEN
    ensures RESOLVE_TEMPLATE(prefix + TODAYS_DATE_TOKEN, processTimeUtc) == prefix + TODAYS_DATE_TOKEN
  {
    MissingTokensFixed(prefix, VALUES, processTimeUtc, LOCAL_TIME_ZONE);
  }

  lemma RequestOneSpelled()
    ensures "request-1 " + PROCESS_TIME_TOKEN == "request-1 ${processTime}"
  {
  }

  /** initialRun as written: the body sent at 18:15 still holds the token,
      where the test at line 102 expects the instant. */
  lemma InitialRunAsWritten(processTimeUtc: int)
    ensures Request(RESOLVE_TEMPLATE, QUARTER_PAST_CONFIG, processTimeUtc)
            == Message("dummy-q-url-1", "request-1 ${processTime}")
  {
    AsWrittenKeepsMissingTokens("request-1 ", processTimeUtc);
    RequestOneSpelled();
  }

  /** Corrected: the variables the tests use, the six declared ones and
      processTime and todaysDate. */
  datatype TestedVariable = Declared(v: TemplateVariable) | ProcessTime | TodaysDate

  const TESTED_VALUES: seq<TestedVariable> :=
    [Declared(EndOfPreviousDay), Declared(StartOfDay), Declared(StartOfDayOneWeekAgo), Declared(StartOfHour),
     Declared(StartOfPreviousDay), Declared(YesterdaysDate), ProcessTime, TodaysDate]

  function TestedPattern(x: TestedVariable): string {
    match x
    case Declared(v) => VarPattern(v)
    case ProcessTime => PROCESS_TIME_TOKEN
    case TodaysDate => TODAYS_DATE_TOKEN
  }

  /** processTime is the processing instant itself and todaysDate its local date. */
  function TestedValue(x: TestedVariable, t: DateTime): string
    requires t.Valid()
  {
    match x
    case Declared(v) => ReplacementValue(v, t)
    case ProcessTime => FormatDateTime(t)
    case TodaysDate => FormatDate(t.ToLocalDate())
  }

  function ResolveTested(x: TestedVariable, template: string, processTimeUtc: int, zone: Zone): string
    requires ValidZone(zone)
  {
    ReplaceAll(template, TestedPattern(x), TestedValue(x, WithZone(processTimeUtc, zone)))
  }

  function ResolveAllTested(template: string, xs: seq<TestedVariable>, processTimeUtc: int, zone: Zone): string
    requires ValidZone(zone)
    decreases |xs|
  {
    if xs == [] then template
    else ResolveAllTested(ResolveTested(xs[0], template, processTimeUtc, zone), xs[1..], processTimeUtc, zone)
  }

  /** The corrected resolver process() would apply. */
  const CORRECTED_RESOLVE: TemplateResolver :=
    (template, processTimeUtc) => ResolveAllTested(template, TESTED_VALUES, processTimeUtc, LOCAL_TIME_ZONE)

  /** The declared variables, as tested ones. */
  function Lifted(vs: seq<TemplateVariable>): (r: seq<TestedVariable>)
    ensures |r| == |vs| && forall i :: 0 <= i < |vs| ==> r[i] == Declared(vs[i])
    decreases |vs|
  {
    if vs == [] then [] else [Declared(vs[0])] + Lifted(vs[1..])
  }

  /** Declared variables resolve as the code resolves them. */
  lemma {:induction false} DeclaredFirst(template: string, vs: seq<TemplateVariable>, rest: seq<TestedVariable>, processTimeUtc: int)
    ensures ResolveAllTested(template, Lifted(vs) + rest, processTimeUtc, LOCAL_TIME_ZONE)
            == ResolveAllTested(ResolveAll(template, vs, processTimeUtc, LOCAL_TIME_ZONE), rest, processTimeUtc, LOCAL_TIME_ZONE)
    decreases |vs|
  {
    if vs == [] {
      assert Lifted(vs) + rest == rest;
    } else {
      var xs := Lifted(vs) + rest;
      assert xs[0] == Declared(vs[0]);
      assert xs[1..] == Lifted(vs[1..]) + rest;
      DeclaredFirst(Resolve(vs[0], template, processTimeUtc, LOCAL_TIME_ZONE), vs[1..], rest, processTimeUtc);
    }
  }

  /** The corrected resolver applies the declared variables exactly as the
      code does, then the two missing ones. */
  lemma CorrectedExtendsDeclared(template: string, processTimeUtc: int)
    ensures CORRECTED_RESOLVE(template, processTimeUtc)
            == ResolveAllTested(RESOLVE_TEMPLATE(template, processTimeUtc), [ProcessTime, TodaysDate], processTimeUtc, LOCAL_TIME_ZONE)
  {
    assert TESTED_VALUES == Lifted(VALUES) + [ProcessTime, TodaysDate];
    DeclaredFirst(template, VALUES, [ProcessTime, TodaysDate], processTimeUtc);
  }

  /** 18:15 in Los Angeles on 2018-03-27, the initialRun firing. */
  lemma QuarterPastSixLocal(processTimeUtc: int)
    requires processTimeUtc == QUARTER_PAST_SIX_MILLIS
    ensures WithZone(processTimeUtc, LOCAL_TIME_ZONE).local == LocalDateTime(Date(2018, 3, 27), 18, 15, 0, 0)
  {
    var l := LocalDateTime(Date(2018, 3, 27), 18, 15, 0, 0);
    assert DaysFromCivil(l.date) == 17617;
    assert ToEpochMillis(l) == processTimeUtc - 420 * MS_PER_MINUTE;
    LocalRoundTrip(l);
  }

  /** Every token starts with '$'. */
  lemma TestedPatternStart(x: TestedVariable)
    ensures |TestedPattern(x)| > 0 && TestedPattern(x)[0] == '$'
  {
  }

  /** No tested variable changes text without '$'. */
  lemma ResolveTestedWithoutStart(x: TestedVariable, s: string, processTimeUtc: int, zone: Zone)
    requires ValidZone(zone) && '$' !in s
    ensures ResolveTested(x, s, processTimeUtc, zone) == s
  {
    TestedPatternStart(x);
    AbsentWithoutStart(s, TestedPattern(x));
    ReplaceWithoutOccurrence(s, TestedPattern(x), TestedValue(x, WithZone(processTimeUtc, zone)));
  }

  /** A token after '$'-free text is replaced by the variable's value. */
  lemma ResolveTestedAfterText(x: TestedVariable, prefix: string, processTimeUtc: int, zone: Zone)
    requires ValidZone(zone) && '$' !in prefix
    ensures ResolveTested(x, prefix + TestedPattern(x), processTimeUtc, zone)
            == prefix + TestedValue(x, WithZone(processTimeUtc, zone))
  {
    var value := TestedValue(x, WithZone(processTimeUtc, zone));
    TestedPatternStart(x);
    NoStartNoMatch(prefix, TestedPattern(x), TestedPattern(x));
    ReplacePassesPrefix(prefix, TestedPattern(x), TestedPattern(x), value);
    ReplaceWholeText(TestedPattern(x), value);
  }

  /** processTime's value is the instant, written without '$'. */
  lemma ProcessTimeValueIsInstant(t: DateTime)
    requires t.Valid()
    ensures TestedValue(ProcessTime, t) == FormatDateTime(t) && '$' !in FormatDateTime(t)
  {
    var value := FormatDateTime(t);
    DateTimeInAlphabet(t);
    assert '$' !in VALUE_ALPHABET;
    forall i | 0 <= i < |value| ensures value[i] != '$' {
      assert value[i] in VALUE_ALPHABET;
    }
  }

  /** ${processTime} after '$'-free text is replaced by the instant, and
      nothing is left for todaysDate to replace. */
  lemma ProcessTimeReplaced(prefix: string, processTimeUtc: int)
    requires '$' !in prefix
    ensures ResolveAllTested(prefix + PROCESS_TIME_TOKEN, [ProcessTime, TodaysDate], processTimeUtc, LOCAL_TIME_ZONE)
            == prefix + FormatDateTime(WithZone(processTimeUtc, LOCAL_TIME_ZONE))
  {
    var t := WithZone(processTimeUtc, LOCAL_TIME_ZONE);
    var body := prefix + FormatDateTime(t);
    ResolveTestedAfterText(ProcessTime, prefix, processTimeUtc, LOCAL_TIME_ZONE);
    ProcessTimeValueIsInstant(t);
    assert '$' !in body;
    ResolveTestedWithoutStart(TodaysDate, body, processTimeUtc, LOCAL_TIME_ZONE);
    assert [ProcessTime, TodaysDate][1..] == [TodaysDate];
  }

  /** The corrected resolver replaces ${processTime} by the instant. */
  lemma CorrectedProcessTimeBody(prefix: string, processTimeUtc: int)
    requires '$' !in prefix
    ensures CORRECTED_RESOLVE(prefix + PROCESS_TIME_TOKEN, processTimeUtc)
            == prefix + FormatDateTime(WithZone(processTimeUtc, LOCAL_TIME_ZONE))
  {
    AsWrittenKeepsMissingTokens(prefix, processTimeUtc);
    CorrectedExtendsDeclared(prefix + PROCESS_TIME_TOKEN, processTimeUtc);
    ProcessTimeReplaced(prefix, processTimeUtc);
  }

  /** initialRun, corrected: the body sent at 18:15 is the one the test at
      line 102 expects. */
  lemma InitialRunCorrected(processTimeUtc: int)
    requires processTimeUtc == QUARTER_PAST_SIX_MILLIS
    ensures Request(CORRECTED_RESOLVE, QUARTER_PAST_CONFIG, processTimeUtc)
            == Message("dummy-q-url-1", "request-1 2018-03-27T18:15:00.000-07:00")
  {
    QuarterPastSixLocal(processTimeUtc);
    RequestOneSpelled();
    CorrectedProcessTimeBody("request-1 ", processTimeUtc);
    QuarterPastSixText();
  }

  lemma QuarterPastSixText()
    ensures "request-1 " + FormatDateTime(DateTime(LocalDateTime(Date(2018, 3, 27), 18, 15, 0, 0), LOCAL_TIME_ZONE))
            == "request-1 2018-03-27T18:15:00.000-07:00"
  {
    var l := LocalDateTime(Date(2018, 3, 27), 18, 15, 0, 0);
    TestDateText();
    QuarterPastSixTimeText();
    DateTimeText(l, "2018-03-27", "T18:15:00.000");
    QuarterPastSixSpelled();
  }

  lemma QuarterPastSixTimeText()
    ensures FormatTime(LocalDateTime(Date(2018, 3, 27), 18, 15, 0, 0)) == "T18:15:00.000"
  {
    TimeText(LocalDateTime(Date(2018, 3, 27), 18, 15, 0, 0), "T18:15:00.000");
  }

  lemma QuarterPastSixSpelled()
    ensures "request-1 " + ("2018-03-27" + "T18:15:00.000" + "-07:00") == "request-1 2018-03-27T18:15:00.000-07:00"
  {
  }

  /** A template that is just the token becomes the value. */
  lemma ResolveTestedTokenOnly(x: TestedVariable, processTimeUtc: int, zone: Zone)
    requires ValidZone(zone)
    ensures ResolveTested(x, TestedPattern(x), processTimeUtc, zone) == TestedValue(x, WithZone(processTimeUtc, zone))
  {
    ReplaceWholeText(TestedPattern(x), TestedValue(x, WithZone(processTimeUtc, zone)));
  }

  lemma TestDateText()
    ensures FormatDate(Date(2018, 3, 27)) == "2018-03-27"
  {
    DateText(Date(2018, 3, 27), "2018-03-27");
  }

  lemma TestTimeText()
    ensures FormatTime(TEST_LOCAL) == "T21:21:45.862"
  {
    TimeText(TEST_LOCAL, "T21:21:45.862");
  }

  lemma ProcessTimeText()
    ensures FormatDateTime(DateTime(TEST_LOCAL, LOCAL_TIME_ZONE)) == "2018-03-27T21:21:45.862-07:00"
  {
    TestDateText();
    TestTimeText();
    DateTimeText(TEST_LOCAL, "2018-03-27", "T21:21:45.862");
    ProcessTimeSpelled();
  }

  lemma ProcessTimeSpelled()
    ensures "2018-03-27" + "T21:21:45.862" + "-07:00" == "2018-03-27T21:21:45.862-07:00"
  {
  }

  /** processTime at the test instant: the instant itself. */
  lemma ProcessTimeValue(t: DateTime)
    requires t.Valid() && t.zone == LOCAL_TIME_ZONE && t.local == TEST_LOCAL
    ensures TestedValue(ProcessTime, t) == "2018-03-27T21:21:45.862-07:00"
  {
    ProcessTimeText();
  }

  /** processTime at the test instant, as the variable test at lines 17-21
      expects. */
  lemma TestProcessTime(processTimeUtc: int)
    requires processTimeUtc == TEST_PROCESS_TIME_UTC
    ensures ResolveTested(ProcessTime, PROCESS_TIME_TOKEN, processTimeUtc, LOCAL_TIME_ZONE) == "2018-03-27T21:21:45.862-07:00"
  {
    assert TestedPattern(ProcessTime) == PROCESS_TIME_TOKEN;
    ResolveTestedTokenOnly(ProcessTime, processTimeUtc, LOCAL_TIME_ZONE);
    TestLocalTime(processTimeUtc);
    ProcessTimeValue(WithZone(processTimeUtc, LOCAL_TIME_ZONE));
  }

  /** todaysDate is the local date of the instant, which is the date part
      of processTime at that instant; at the test instant it is 2018-03-27. */
  lemma TodaysDateValue(t: DateTime)
    requires t.Valid()
    ensures TestedValue(TodaysDate, t) == FormatDate(t.local.date)
    ensures 0 <= t.local.date.year <= 9999
            ==> TestedValue(TodaysDate, t) == TestedValue(ProcessTime, t)[..10]
    ensures t.local == TEST_LOCAL ==> TestedValue(TodaysDate, t) == "2018-03-27"
  {
    DateTimeStartsWithDate(t);
    if 0 <= t.local.date.year <= 9999 {
      FormatDateLayout(t.local.date);
    }
    if t.local == TEST_LOCAL {
      TestDateText();
    }
  }

  /** todaysDate at the test instant, as the variable test at lines 49-53
      expects. */
  lemma TestTodaysDate(processTimeUtc: int)
    requires processTimeUtc == TEST_PROCESS_TIME_UTC
    ensures ResolveTested(TodaysDate, TODAYS_DATE_TOKEN, processTimeUtc, LOCAL_TIME_ZONE) == "2018-03-27"
  {
    assert TestedPattern(TodaysDate) == TODAYS_DATE_TOKEN;
    ResolveTestedTokenOnly(TodaysDate, processTimeUtc, LOCAL_TIME_ZONE);
    TestLocalTime(processTimeUtc);
    TodaysDateValue(WithZone(processTimeUtc, LOCAL_TIME_ZONE));
  }
}
