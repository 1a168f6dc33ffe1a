/** The scheduler's test scenarios: a clock fixed at 2018-03-27T19:00-07:00,
    a stored last processed time of 18:30-07:00, and a stand-in cron library
    that fires the four cron expressions the scenarios use. Request bodies
    are left to the resolver, which is a parameter here. */
module SchedulerExamples {
  import opened CivilTime
  import opened Cron
  import opened Scheduler

  /** 2018-03-27T19:00-07:00 (02:00Z on the 28th). */
  const MOCK_NOW_MILLIS: int := 1522202400000
  /** 2018-03-27T18:30-07:00. */
  const LAST_PROCESS_TIME_MILLIS: int := 1522200600000
  /** 2018-03-27T18:15-07:00. */
  const QUARTER_PAST_SIX_MILLIS: int := 1522199700000
  /** 2018-03-27T18:45-07:00. */
  const QUARTER_TO_SEVEN_MILLIS: int := 1522201500000

  const HALF_HOURLY: string := "0 0,30 * * * ?"
  const QUARTER_PAST_AND_TO: string := "0 15,45 * * * ?"
  const QUARTER_HOURLY: string := "0 0,15,30,45 * * * ?"
  const QUARTER_PAST: string := "0 15 * * * ?"

  /** The first instant after t of the form offset + k * period. */
  function NextOnGrid(period: int, offset: int, t: int): (r: int)
    requires period > 0
    ensures t < r <= t + period
    ensures exists k :: r == offset + k * period
  {
    var k := (t - offset) / period + 1;
    assert t - (t - offset) % period + period == offset + k * period;
    t - (t - offset) % period + period
  }

  /** A grid of whole minutes lies on whole seconds. */
  lemma MinuteGrid(period: int, offset: int, t: int)
    requires period > 0 && period % 60000 == 0 && offset % 60000 == 0
    ensures NextOnGrid(period, offset, t) % 1000 == 0
  {
    var k :| NextOnGrid(period, offset, t) == offset + k * period;
    var p, o := period / 60000, offset / 60000;
    assert period == 60000 * p;
    ScaledMultiple(k, p);
    assert offset + k * period == 1000 * (60 * (o + k * p));
  }

  lemma ScaledMultiple(k: int, p: int)
    ensures k * (60000 * p) == 60000 * (k * p)
  {
  }

  /** Quartz on the four expressions the scenarios use (second 0, the listed
      minutes, every hour); every other string is rejected. */
  const TEST_QUARTZ: CronLibrary := CronLibrary(
    cron => cron == HALF_HOURLY || cron == QUARTER_PAST_AND_TO || cron == QUARTER_HOURLY || cron == QUARTER_PAST,
    (cron, after) =>
      if cron == HALF_HOURLY then Some(NextOnGrid(30 * MS_PER_MINUTE, 0, after))
      else if cron == QUARTER_PAST_AND_TO then Some(NextOnGrid(30 * MS_PER_MINUTE, 15 * MS_PER_MINUTE, after))
      else if cron == QUARTER_HOURLY then Some(NextOnGrid(15 * MS_PER_MINUTE, 0, after))
      else if cron == QUARTER_PAST then Some(NextOnGrid(60 * MS_PER_MINUTE, 15 * MS_PER_MINUTE, after))
      else None)

  /** 2018-03-27T19:15-07:00 and 19:30-07:00. */
  const QUARTER_PAST_SEVEN_MILLIS: int := 1522203300000
  const HALF_PAST_SEVEN_MILLIS: int := 1522204200000

  /** The grid points the scenarios step through. */
  lemma GridValues()
    ensures NextOnGrid(30 * MS_PER_MINUTE, 0, LAST_PROCESS_TIME_MILLIS) == MOCK_NOW_MILLIS
    ensures NextOnGrid(30 * MS_PER_MINUTE, 0, MOCK_NOW_MILLIS) == HALF_PAST_SEVEN_MILLIS
    ensures NextOnGrid(30 * MS_PER_MINUTE, 15 * MS_PER_MINUTE, LAST_PROCESS_TIME_MILLIS) == QUARTER_TO_SEVEN_MILLIS
    ensures NextOnGrid(30 * MS_PER_MINUTE, 15 * MS_PER_MINUTE, QUARTER_TO_SEVEN_MILLIS) == QUARTER_PAST_SEVEN_MILLIS
    ensures NextOnGrid(15 * MS_PER_MINUTE, 0, LAST_PROCESS_TIME_MILLIS) == QUARTER_TO_SEVEN_MILLIS
    ensures NextOnGrid(15 * MS_PER_MINUTE, 0, QUARTER_TO_SEVEN_MILLIS) == MOCK_NOW_MILLIS
    ensures NextOnGrid(15 * MS_PER_MINUTE, 0, MOCK_NOW_MILLIS) == QUARTER_PAST_SEVEN_MILLIS
    ensures NextOnGrid(60 * MS_PER_MINUTE, 15 * MS_PER_MINUTE, LAST_PROCESS_TIME_MILLIS) == QUARTER_PAST_SEVEN_MILLIS
    ensures NextOnGrid(60 * MS_PER_MINUTE, 15 * MS_PER_MINUTE, MOCK_NOW_MILLIS - MS_PER_HOUR) == QUARTER_PAST_SIX_MILLIS
    ensures NextOnGrid(60 * MS_PER_MINUTE, 15 * MS_PER_MINUTE, QUARTER_PAST_SIX_MILLIS) == QUARTER_PAST_SEVEN_MILLIS
  {
  }

  /** The stand-in fires strictly after the instant asked about, on a
      whole second. */
  lemma TestQuartzLawful()
    ensures Lawful(TEST_QUARTZ)
  {
    forall cron: string, after: int | TEST_QUARTZ.timeAfter(cron, after).Some?
      ensures TEST_QUARTZ.timeAfter(cron, after).value > after
      ensures TEST_QUARTZ.timeAfter(cron, after).value % 1000 == 0
    {
      if cron == HALF_HOURLY {
        assert TEST_QUARTZ.timeAfter(cron, after).value == NextOnGrid(30 * MS_PER_MINUTE, 0, after);
        MinuteGrid(30 * MS_PER_MINUTE, 0, after);
      } else if cron == QUARTER_PAST_AND_TO {
        assert TEST_QUARTZ.timeAfter(cron, after).value == NextOnGrid(30 * MS_PER_MINUTE, 15 * MS_PER_MINUTE, after);
        MinuteGrid(30 * MS_PER_MINUTE, 15 * MS_PER_MINUTE, after);
      } else if cron == QUARTER_HOURLY {
        assert TEST_QUARTZ.timeAfter(cron, after).value == NextOnGrid(15 * MS_PER_MINUTE, 0, after);
        MinuteGrid(15 * MS_PER_MINUTE, 0, after);
      } else {
        assert TEST_QUARTZ.timeAfter(cron, after).value == NextOnGrid(60 * MS_PER_MINUTE, 15 * MS_PER_MINUTE, after);
        MinuteGrid(60 * MS_PER_MINUTE, 15 * MS_PER_MINUTE, after);
      }
    }
  }

  /** Two points of one grid in the same half-open span of one period are
      the same point. */
  lemma GridPointUnique(period: int, offset: int, b: int, k1: int, k2: int)
    requires period > 0
    requires b < offset + k1 * period <= b + period
    requires b < offset + k2 * period <= b + period
    ensures k1 == k2
  {
    assert k2 * period - k1 * period == (k2 - k1) * period;
    MultipleAtLeastPeriod(k2 - k1, period);
  }

  /** A non-zero multiple of a period is at least one period away from 0. */
  lemma MultipleAtLeastPeriod(d: int, period: int)
    requires period > 0
    ensures d >= 1 ==> d * period >= period
    ensures d <= -1 ==> d * period <= -period
  {
    if d >= 1 {
      assert d * period == period + (d - 1) * period;
    } else if d <= -1 {
      assert d * period == -period - (-d - 1) * period;
    }
  }

  /** With no grid point in (a, b], the next point after b is the next
      point after a. */
  lemma GridCoherent(period: int, offset: int, a: int, b: int)
    requires period > 0 && a <= b < NextOnGrid(period, offset, a)
    ensures NextOnGrid(period, offset, b) == NextOnGrid(period, offset, a)
  {
    var k1 :| NextOnGrid(period, offset, a) == offset + k1 * period;
    var k2 :| NextOnGrid(period, offset, b) == offset + k2 * period;
    GridPointUnique(period, offset, b, k1, k2);
  }

  /** The stand-in's next firing is the earliest one. */
  lemma TestQuartzCoherent()
    ensures Coherent(TEST_QUARTZ)
  {
    forall cron: string, a: int, b: int |
      a <= b && (TEST_QUARTZ.timeAfter(cron, a).None? || TEST_QUARTZ.timeAfter(cron, a).value > b)
      ensures TEST_QUARTZ.timeAfter(cron, b) == TEST_QUARTZ.timeAfter(cron, a)
    {
      if cron == HALF_HOURLY {
        GridCoherent(30 * MS_PER_MINUTE, 0, a, b);
      } else if cron == QUARTER_PAST_AND_TO {
        GridCoherent(30 * MS_PER_MINUTE, 15 * MS_PER_MINUTE, a, b);
      } else if cron == QUARTER_HOURLY {
        GridCoherent(15 * MS_PER_MINUTE, 0, a, b);
      } else if cron == QUARTER_PAST {
        GridCoherent(60 * MS_PER_MINUTE, 15 * MS_PER_MINUTE, a, b);
      }
    }
  }

  const STATUS_WITH_LAST_PROCESSED_TIME: map<string, StatusRow> :=
    map[HASH_KEY_MASTER_SCHEDULER := map[CONFIG_KEY_LAST_PROCESSED_TIME := LAST_PROCESS_TIME_MILLIS]]

  const ACCEPT_ALL: SqsClient := SqsClient((queueUrl, body) => false)
  /** The client of the error-handling scenario: sends to queue 1 throw. */
  const REJECT_QUEUE_1: SqsClient := SqsClient((queueUrl, body) => queueUrl == "dummy-q-url-1")

  const BASIC_CONFIG: ScheduleConfig :=
    ScheduleConfig("schedule-1", HALF_HOURLY, "${startOfPreviousDay}-${endOfPreviousDay}", "dummy-q-url-1")
  const CONFIG_1: ScheduleConfig := ScheduleConfig("schedule-1", HALF_HOURLY, "request-1 ${processTime}", "dummy-q-url-1")
  const CONFIG_2: ScheduleConfig := ScheduleConfig("schedule-2", QUARTER_PAST_AND_TO, "request-2 ${processTime}", "dummy-q-url-2")
  const QUARTER_HOURLY_CONFIG: ScheduleConfig :=
    ScheduleConfig("schedule-1", QUARTER_HOURLY, "request-1 ${processTime}", "dummy-q-url-1")
  const QUARTER_PAST_CONFIG: ScheduleConfig :=
    ScheduleConfig("schedule-1", QUARTER_PAST, "request-1 ${processTime}", "dummy-q-url-1")

  /** The last firing in a window is followed by none before its end. */
  lemma LastFiring(config: ScheduleConfig, startTimeUtc: int, t: int, count: nat)
    requires count <= MAX_EXECUTIONS
    requires FireTimeAfter(TEST_QUARTZ, Trigger(config.cronSchedule, startTimeUtc, MOCK_NOW_MILLIS), t).None?
    ensures FireTimesFrom(TEST_QUARTZ, Trigger(config.cronSchedule, startTimeUtc, MOCK_NOW_MILLIS), t, count) == Enumerated([])
  {
  }

  /** A half-hourly cron fires once in (18:30, 19:00]: at 19:00. */
  lemma HalfHourlyWindow(config: ScheduleConfig)
    requires config.cronSchedule == HALF_HOURLY
    ensures ProcessingTimes(TEST_QUARTZ, config, LAST_PROCESS_TIME_MILLIS, MOCK_NOW_MILLIS) == Success([MOCK_NOW_MILLIS])
  {
    GridValues();
    var trigger := Trigger(config.cronSchedule, LAST_PROCESS_TIME_MILLIS, MOCK_NOW_MILLIS);
    assert FireTimeAfter(TEST_QUARTZ, trigger, LAST_PROCESS_TIME_MILLIS) == Some(MOCK_NOW_MILLIS);
    assert FireTimeAfter(TEST_QUARTZ, trigger, MOCK_NOW_MILLIS).None?;
    LastFiring(config, LAST_PROCESS_TIME_MILLIS, MOCK_NOW_MILLIS, 1);
    assert FireTimesFrom(TEST_QUARTZ, trigger, LAST_PROCESS_TIME_MILLIS, 0) == Enumerated([MOCK_NOW_MILLIS]);
  }

  /** A cron at a quarter past and to fires once in (18:30, 19:00]: at 18:45. */
  lemma QuarterPastAndToWindow(config: ScheduleConfig)
    requires config.cronSchedule == QUARTER_PAST_AND_TO
    ensures ProcessingTimes(TEST_QUARTZ, config, LAST_PROCESS_TIME_MILLIS, MOCK_NOW_MILLIS) == Success([QUARTER_TO_SEVEN_MILLIS])
  {
    assert |HALF_HOURLY| == 14 && |QUARTER_PAST_AND_TO| == 15 && |QUARTER_HOURLY| == 20 && |QUARTER_PAST| == 12;
    GridValues();
    var trigger := Trigger(config.cronSchedule, LAST_PROCESS_TIME_MILLIS, MOCK_NOW_MILLIS);
    assert FireTimeAfter(TEST_QUARTZ, trigger, LAST_PROCESS_TIME_MILLIS) == Some(QUARTER_TO_SEVEN_MILLIS);
    assert FireTimeAfter(TEST_QUARTZ, trigger, QUARTER_TO_SEVEN_MILLIS).None?;
    LastFiring(config, LAST_PROCESS_TIME_MILLIS, QUARTER_TO_SEVEN_MILLIS, 1);
    assert FireTimesFrom(TEST_QUARTZ, trigger, LAST_PROCESS_TIME_MILLIS, 0) == Enumerated([QUARTER_TO_SEVEN_MILLIS]);
  }

  // basicCase: one config, one firing, and the status row written back.

  /** basicCase: the one firing at 19:00 is sent to queue 1, and the row
      written back holds 18:30, the window start. */
  lemma BasicCaseRun(resolve: TemplateResolver)
    ensures WindowStart(STATUS_WITH_LAST_PROCESSED_TIME, MOCK_NOW_MILLIS) == LAST_PROCESS_TIME_MILLIS
    ensures RunConfigs(TEST_QUARTZ, ACCEPT_ALL, resolve, [BASIC_CONFIG], LAST_PROCESS_TIME_MILLIS, MOCK_NOW_MILLIS)
            == Run([Message("dummy-q-url-1", resolve(BASIC_CONFIG.requestTemplate, MOCK_NOW_MILLIS))], None)
    ensures WithStatus(STATUS_WITH_LAST_PROCESSED_TIME, LAST_PROCESS_TIME_MILLIS)
              [HASH_KEY_MASTER_SCHEDULER][CONFIG_KEY_LAST_PROCESSED_TIME] == LAST_PROCESS_TIME_MILLIS
  {
    HalfHourlyWindow(BASIC_CONFIG);
    var m := Request(resolve, BASIC_CONFIG, MOCK_NOW_MILLIS);
    assert Requests(resolve, BASIC_CONFIG, [MOCK_NOW_MILLIS]) == [m];
    assert !Rejected(ACCEPT_ALL, m);
    assert [m][1..] == [];
    assert Deliver(ACCEPT_ALL, "schedule-1", [m]) == Run([m], None);
    assert RunConfig(TEST_QUARTZ, ACCEPT_ALL, resolve, BASIC_CONFIG, LAST_PROCESS_TIME_MILLIS, MOCK_NOW_MILLIS) == Run([m], None);
    assert [BASIC_CONFIG][1..] == [];
  }

  /** initialRun: with no status row the window is the last hour, (18:00,
      19:00], and a cron at a quarter past fires once, at 18:15. */
  lemma InitialRunRun(resolve: TemplateResolver)
    ensures WindowStart(map[], MOCK_NOW_MILLIS) == MOCK_NOW_MILLIS - MS_PER_HOUR
    ensures RunConfigs(TEST_QUARTZ, ACCEPT_ALL, resolve, [QUARTER_PAST_CONFIG], MOCK_NOW_MILLIS - MS_PER_HOUR, MOCK_NOW_MILLIS)
            == Run([Message("dummy-q-url-1", resolve("request-1 ${processTime}", QUARTER_PAST_SIX_MILLIS))], None)
  {
    assert |HALF_HOURLY| == 14 && |QUARTER_PAST_AND_TO| == 15 && |QUARTER_HOURLY| == 20 && |QUARTER_PAST| == 12;
    GridValues();
    var start := MOCK_NOW_MILLIS - MS_PER_HOUR;
    var trigger := Trigger(QUARTER_PAST, start, MOCK_NOW_MILLIS);
    assert FireTimeAfter(TEST_QUARTZ, trigger, start) == Some(QUARTER_PAST_SIX_MILLIS);
    assert FireTimeAfter(TEST_QUARTZ, trigger, QUARTER_PAST_SIX_MILLIS).None?;
    LastFiring(QUARTER_PAST_CONFIG, start, QUARTER_PAST_SIX_MILLIS, 1);
    assert FireTimesFrom(TEST_QUARTZ, trigger, start, 0) == Enumerated([QUARTER_PAST_SIX_MILLIS]);
    assert ProcessingTimes(TEST_QUARTZ, QUARTER_PAST_CONFIG, start, MOCK_NOW_MILLIS) == Success([QUARTER_PAST_SIX_MILLIS]);
    var m := Request(resolve, QUARTER_PAST_CONFIG, QUARTER_PAST_SIX_MILLIS);
    assert Requests(resolve, QUARTER_PAST_CONFIG, [QUARTER_PAST_SIX_MILLIS]) == [m];
    assert [m][1..] == [];
    assert Deliver(ACCEPT_ALL, "schedule-1", [m]) == Run([m], None);
    assert [QUARTER_PAST_CONFIG][1..] == [];
  }

  /** multipleSchedules: config 1's firing at 19:00 goes out first, then
      config 2's at 18:45, each to its own queue. */
  lemma MultipleSchedulesRun(resolve: TemplateResolver)
    ensures RunConfigs(TEST_QUARTZ, ACCEPT_ALL, resolve, [CONFIG_1, CONFIG_2], LAST_PROCESS_TIME_MILLIS, MOCK_NOW_MILLIS)
            == Run([Message("dummy-q-url-1", resolve("request-1 ${processTime}", MOCK_NOW_MILLIS)),
                    Message("dummy-q-url-2", resolve("request-2 ${processTime}", QUARTER_TO_SEVEN_MILLIS))], None)
  {
    HalfHourlyWindow(CONFIG_1);
    QuarterPastAndToWindow(CONFIG_2);
    assert Requests(resolve, CONFIG_1, [MOCK_NOW_MILLIS]) == [Request(resolve, CONFIG_1, MOCK_NOW_MILLIS)];
    assert Requests(resolve, CONFIG_2, [QUARTER_TO_SEVEN_MILLIS]) == [Request(resolve, CONFIG_2, QUARTER_TO_SEVEN_MILLIS)];
    var m1, m2 := Request(resolve, CONFIG_1, MOCK_NOW_MILLIS), Request(resolve, CONFIG_2, QUARTER_TO_SEVEN_MILLIS);
    assert [m1][1..] == [] && [m2][1..] == [];
    assert Deliver(ACCEPT_ALL, "schedule-1", [m1]) == Run([m1], None);
    assert Deliver(ACCEPT_ALL, "schedule-2", [m2]) == Run([m2], None);
    var s, e := LAST_PROCESS_TIME_MILLIS, MOCK_NOW_MILLIS;
    assert RunConfig(TEST_QUARTZ, ACCEPT_ALL, resolve, CONFIG_1, s, e) == Run([m1], None);
    assert RunConfig(TEST_QUARTZ, ACCEPT_ALL, resolve, CONFIG_2, s, e) == Run([m2], None);
    assert [CONFIG_1, CONFIG_2][1..] == [CONFIG_2];
    assert [CONFIG_2][1..] == [];
    assert RunConfigs(TEST_QUARTZ, ACCEPT_ALL, resolve, [CONFIG_2], s, e) == Run([m2], None);
  }

  /** singleScheduleWithMultipleEvents: a quarter-hourly cron fires at 18:45
      and at 19:00, and the requests go out in that order. */
  lemma SingleScheduleWithMultipleEventsRun(resolve: TemplateResolver)
    ensures ProcessingTimes(TEST_QUARTZ, QUARTER_HOURLY_CONFIG, LAST_PROCESS_TIME_MILLIS, MOCK_NOW_MILLIS)
            == Success([QUARTER_TO_SEVEN_MILLIS, MOCK_NOW_MILLIS])
    ensures RunConfigs(TEST_QUARTZ, ACCEPT_ALL, resolve, [QUARTER_HOURLY_CONFIG], LAST_PROCESS_TIME_MILLIS, MOCK_NOW_MILLIS).sent
            == [Message("dummy-q-url-1", resolve("request-1 ${processTime}", QUARTER_TO_SEVEN_MILLIS)),
                Message("dummy-q-url-1", resolve("request-1 ${processTime}", MOCK_NOW_MILLIS))]
  {
    assert |HALF_HOURLY| == 14 && |QUARTER_PAST_AND_TO| == 15 && |QUARTER_HOURLY| == 20 && |QUARTER_PAST| == 12;
    GridValues();
    var trigger := Trigger(QUARTER_HOURLY, LAST_PROCESS_TIME_MILLIS, MOCK_NOW_MILLIS);
    assert FireTimeAfter(TEST_QUARTZ, trigger, LAST_PROCESS_TIME_MILLIS) == Some(QUARTER_TO_SEVEN_MILLIS);
    assert FireTimeAfter(TEST_QUARTZ, trigger, QUARTER_TO_SEVEN_MILLIS) == Some(MOCK_NOW_MILLIS);
    assert FireTimeAfter(TEST_QUARTZ, trigger, MOCK_NOW_MILLIS).None?;
    LastFiring(QUARTER_HOURLY_CONFIG, LAST_PROCESS_TIME_MILLIS, MOCK_NOW_MILLIS, 2);
    assert FireTimesFrom(TEST_QUARTZ, trigger, QUARTER_TO_SEVEN_MILLIS, 1) == Enumerated([MOCK_NOW_MILLIS]);
    var times := [QUARTER_TO_SEVEN_MILLIS, MOCK_NOW_MILLIS];
    assert FireTimesFrom(TEST_QUARTZ, trigger, LAST_PROCESS_TIME_MILLIS, 0) == Enumerated(times);
    var msgs := Requests(resolve, QUARTER_HOURLY_CONFIG, times);
    assert msgs == [Request(resolve, QUARTER_HOURLY_CONFIG, QUARTER_TO_SEVEN_MILLIS),
                    Request(resolve, QUARTER_HOURLY_CONFIG, MOCK_NOW_MILLIS)];
    assert msgs[1..] == [msgs[1]];
    assert Deliver(ACCEPT_ALL, "schedule-1", msgs[1..]) == Run([msgs[1]], None);
    assert Deliver(ACCEPT_ALL, "schedule-1", msgs) == Run(msgs, None);
    assert [QUARTER_HOURLY_CONFIG][1..] == [];
  }

  /** noEvents: a cron at a quarter past next fires at 19:15, after now, so
      the config sends nothing. */
  lemma NoEventsRun(resolve: TemplateResolver, sqs: SqsClient)
    ensures ProcessingTimes(TEST_QUARTZ, QUARTER_PAST_CONFIG, LAST_PROCESS_TIME_MILLIS, MOCK_NOW_MILLIS) == Success([])
    ensures RunConfigs(TEST_QUARTZ, sqs, resolve, [QUARTER_PAST_CONFIG], LAST_PROCESS_TIME_MILLIS, MOCK_NOW_MILLIS) == Run([], None)
  {
    assert |HALF_HOURLY| == 14 && |QUARTER_PAST_AND_TO| == 15 && |QUARTER_HOURLY| == 20 && |QUARTER_PAST| == 12;
    GridValues();
    var trigger := Trigger(QUARTER_PAST, LAST_PROCESS_TIME_MILLIS, MOCK_NOW_MILLIS);
    assert FireTimeAfter(TEST_QUARTZ, trigger, LAST_PROCESS_TIME_MILLIS).None?;
    NoFiringInWindow(TEST_QUARTZ, QUARTER_PAST_CONFIG, LAST_PROCESS_TIME_MILLIS, MOCK_NOW_MILLIS);
    NoFiringSendsNothing(TEST_QUARTZ, sqs, resolve, QUARTER_PAST_CONFIG, LAST_PROCESS_TIME_MILLIS, MOCK_NOW_MILLIS);
    assert [QUARTER_PAST_CONFIG][1..] == [];
  }

  /** errorHandling, as the code runs it: the send to queue 1 throws, the
      exception leaves the loop, and config 2's request is never sent. */
  lemma ErrorHandlingRun(resolve: TemplateResolver)
    ensures RunConfigs(TEST_QUARTZ, REJECT_QUEUE_1, resolve, [CONFIG_1, CONFIG_2], LAST_PROCESS_TIME_MILLIS, MOCK_NOW_MILLIS)
            == Run([], Some(SendFailed("schedule-1", "dummy-q-url-1")))
  {
    HalfHourlyWindow(CONFIG_1);
    assert Requests(resolve, CONFIG_1, [MOCK_NOW_MILLIS]) == [Request(resolve, CONFIG_1, MOCK_NOW_MILLIS)];
  }
}
