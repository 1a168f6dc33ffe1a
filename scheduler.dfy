/** The master scheduler's run: read the last processed time, enumerate each
    schedule config's cron firings in the window up to now, send each firing's
    resolved request to the config's queue, and write the status row back. */
module Scheduler {
  import opened CivilTime
  import opened Templates
  import opened Cron
  import opened TextReplace

  /** At most this many firings per config and run (60 per hour). */
  const MAX_EXECUTIONS: nat := 60

  // Attribute names of the DynamoDB items.
  const CONFIG_KEY_CRON_SCHEDULE: string := "cronSchedule"
  const CONFIG_KEY_HASH_KEY: string := "hashKey"
  const CONFIG_KEY_LAST_PROCESSED_TIME: string := "lastProcessedTime"
  const CONFIG_KEY_REQUEST_TEMPLATE: string := "requestTemplate"
  const CONFIG_KEY_SCHEDULE_ID: string := "scheduleId"
  const CONFIG_KEY_QUEUE_URL: string := "sqsQueueUrl"
  /** The hash key of the status table's singleton row. */
  const HASH_KEY_MASTER_SCHEDULER: string := "BridgeMasterScheduler"

  /** One item of the config table. */
  datatype ScheduleConfig = ScheduleConfig(scheduleId: string, cronSchedule: string,
                                           requestTemplate: string, sqsQueueUrl: string)

  /** The numeric attributes of a status item, by attribute name. */
  type StatusRow = map<string, int>

  /** One sendMessage call: the queue and the message body. */
  datatype Message = Message(queueUrl: string, body: string)

  /** The SQS client; `rejects` says which sends throw. */
  datatype SqsClient = SqsClient(rejects: (string, string) -> bool)

  /** The exceptions that end a run. */
  datatype RunError =
    | CronUnparsable(scheduleId: string)
    | EndTimeBeforeStart(scheduleId: string)
    | MaxExecutionsExceeded(scheduleId: string)
    | SendFailed(scheduleId: string, queueUrl: string)

  datatype Result<T> = Success(value: T) | Failure(error: RunError)

  // ---------------------------------------------------------------------
  // The window.

  /** The last processed time in the status table, or an hour before now
      when the row or its attribute is missing. */
  function WindowStart(statusTable: map<string, StatusRow>, nowUtc: int): int {
    if HASH_KEY_MASTER_SCHEDULER in statusTable
       && CONFIG_KEY_LAST_PROCESSED_TIME in statusTable[HASH_KEY_MASTER_SCHEDULER]
    then statusTable[HASH_KEY_MASTER_SCHEDULER][CONFIG_KEY_LAST_PROCESSED_TIME]
    else nowUtc - MS_PER_HOUR
  }

  /** A scheduler that has not been bootstrapped looks back exactly one
      hour; otherwise the window starts at the stored millis, whatever now is. */
  lemma WindowStartCases(statusTable: map<string, StatusRow>, nowUtc: int, laterUtc: int)
    ensures HASH_KEY_MASTER_SCHEDULER !in statusTable ==> nowUtc - WindowStart(statusTable, nowUtc) == MS_PER_HOUR
    ensures HASH_KEY_MASTER_SCHEDULER in statusTable
            && CONFIG_KEY_LAST_PROCESSED_TIME !in statusTable[HASH_KEY_MASTER_SCHEDULER]
            ==> nowUtc - WindowStart(statusTable, nowUtc) == MS_PER_HOUR
    ensures HASH_KEY_MASTER_SCHEDULER in statusTable
            && CONFIG_KEY_LAST_PROCESSED_TIME in statusTable[HASH_KEY_MASTER_SCHEDULER]
            ==> WindowStart(statusTable, nowUtc) == WindowStart(statusTable, laterUtc)
                == statusTable[HASH_KEY_MASTER_SCHEDULER][CONFIG_KEY_LAST_PROCESSED_TIME]
  {
  }

  /** The status row a completed run writes: the hash key with the given
      last processed time, replacing any earlier row. */
  function WithStatus(statusTable: map<string, StatusRow>, lastProcessedTime: int): (r: map<string, StatusRow>)
    ensures HASH_KEY_MASTER_SCHEDULER in r
            && r[HASH_KEY_MASTER_SCHEDULER] == map[CONFIG_KEY_LAST_PROCESSED_TIME := lastProcessedTime]
    ensures WindowStart(r, 0) == lastProcessedTime
    ensures forall k :: k in statusTable && k != HASH_KEY_MASTER_SCHEDULER ==> k in r && r[k] == statusTable[k]
    ensures r.Keys == statusTable.Keys + {HASH_KEY_MASTER_SCHEDULER}
  {
    statusTable[HASH_KEY_MASTER_SCHEDULER := map[CONFIG_KEY_LAST_PROCESSED_TIME := lastProcessedTime]]
  }

  // ---------------------------------------------------------------------
  // Fire times.

  /** The enumeration of a trigger's firings: the list, or the cap overflow. */
  datatype Enumeration = Enumerated(times: seq<int>) | CapExceeded

  function Prepend(t: int, e: Enumeration): Enumeration {
    match e
    case Enumerated(ts) => Enumerated([t] + ts)
    case CapExceeded => CapExceeded
  }

  /** The firings after `after`, with `count` already taken: a firing
      beyond the cap overflows before it is added. */
  function FireTimesFrom(lib: CronLibrary, trigger: Trigger, after: int, count: nat): Enumeration
    requires count <= MAX_EXECUTIONS
    decreases MAX_EXECUTIONS - count
  {
    match FireTimeAfter(lib, trigger, after)
    case None => Enumerated([])
    case Some(t) =>
      if count + 1 > MAX_EXECUTIONS then CapExceeded
      else Prepend(t, FireTimesFrom(lib, trigger, t, count + 1))
  }

  /** getProcessingTimes: the config's firings in (startTimeUtc, endTimeUtc]. */
  function ProcessingTimes(lib: CronLibrary, config: ScheduleConfig, startTimeUtc: int, endTimeUtc: int): Result<seq<int>> {
    var trigger := Trigger(config.cronSchedule, startTimeUtc, endTimeUtc);
    if !lib.parses(config.cronSchedule) then Failure(CronUnparsable(config.scheduleId))
    else if EndBeforeStart(trigger) then Failure(EndTimeBeforeStart(config.scheduleId))
    else match FireTimesFrom(lib, trigger, startTimeUtc, 0)
      case Enumerated(ts) => Success(ts)
      case CapExceeded => Failure(MaxExecutionsExceeded(config.scheduleId))
  }

  ghost predicate Increasing(ts: seq<int>) {
    forall i, j :: 0 <= i < j < |ts| ==> ts[i] < ts[j]
  }

  /** The enumeration is exactly the successive firings: it overflows iff
      a firing beyond the cap exists, and otherwise lists every firing and
      stops where getFireTimeAfter comes back empty. */
  lemma {:induction false} FireTimesAreSteps(lib: CronLibrary, trigger: Trigger, after: int, count: nat)
    requires count <= MAX_EXECUTIONS
    ensures FireTimesFrom(lib, trigger, after, count).CapExceeded?
            <==> Steps(lib, trigger, after, MAX_EXECUTIONS + 1 - count).Some?
    ensures FireTimesFrom(lib, trigger, after, count).Enumerated? ==>
            var ts := FireTimesFrom(lib, trigger, after, count).times;
            |ts| <= MAX_EXECUTIONS - count
            && Steps(lib, trigger, after, |ts| + 1).None?
            && forall i :: 0 <= i < |ts| ==> Steps(lib, trigger, after, i + 1) == Some(ts[i])
    decreases MAX_EXECUTIONS - count
  {
    match FireTimeAfter(lib, trigger, after)
    case None =>
    case Some(t) =>
      if count + 1 <= MAX_EXECUTIONS {
        FireTimesAreSteps(lib, trigger, t, count + 1);
        var e := FireTimesFrom(lib, trigger, t, count + 1);
        if e.Enumerated? {
          var ts := [t] + e.times;
          forall i | 0 <= i < |ts| ensures Steps(lib, trigger, after, i + 1) == Some(ts[i]) {
            if i > 0 {
              assert Steps(lib, trigger, after, i + 1) == Steps(lib, trigger, t, i);
            }
          }
        }
      }
  }

  /** With a lawful cron, every enumerated firing lies in (after, end] and
      the list strictly increases. */
  lemma {:induction false} FireTimesInWindow(lib: CronLibrary, trigger: Trigger, after: int, count: nat)
    requires Lawful(lib) && count <= MAX_EXECUTIONS
    ensures FireTimesFrom(lib, trigger, after, count).Enumerated? ==>
            var ts := FireTimesFrom(lib, trigger, after, count).times;
            Increasing(ts) && forall i :: 0 <= i < |ts| ==> after < ts[i] <= trigger.endTime
    decreases MAX_EXECUTIONS - count
  {
    match FireTimeAfter(lib, trigger, after)
    case None =>
    case Some(t) =>
      if count + 1 <= MAX_EXECUTIONS {
        FireTimesInWindow(lib, trigger, t, count + 1);
        var e := FireTimesFrom(lib, trigger, t, count + 1);
        if e.Enumerated? {
          var ts := [t] + e.times;
          forall i, j | 0 <= i < j < |ts| ensures ts[i] < ts[j] {
            assert ts[j] == e.times[j - 1];
            if i > 0 {
              assert ts[i] == e.times[i - 1];
            }
          }
        }
      }
  }

  /** The list getProcessingTimes returns: at most MAX_EXECUTIONS firings,
      each after the window start and at most its end, strictly increasing. */
  lemma ProcessingTimesInWindow(lib: CronLibrary, config: ScheduleConfig, startTimeUtc: int, endTimeUtc: int)
    requires Lawful(lib)
    ensures ProcessingTimes(lib, config, startTimeUtc, endTimeUtc).Success? ==>
            var ts := ProcessingTimes(lib, config, startTimeUtc, endTimeUtc).value;
            |ts| <= MAX_EXECUTIONS && Increasing(ts)
            && forall i :: 0 <= i < |ts| ==> startTimeUtc < ts[i] <= endTimeUtc
  {
    var trigger := Trigger(config.cronSchedule, startTimeUtc, endTimeUtc);
    FireTimesAreSteps(lib, trigger, startTimeUtc, 0);
    FireTimesInWindow(lib, trigger, startTimeUtc, 0);
  }

  /** The outcome of getProcessingTimes in terms of the cron's successive
      firings: a malformed cron fails; so does a window whose start, cut to
      whole seconds, lies after its end; the cap overflows exactly when a
      61st firing exists in the window; otherwise the list is the firings. */
  lemma ProcessingTimesOutcome(lib: CronLibrary, config: ScheduleConfig, startTimeUtc: int, endTimeUtc: int)
    ensures var r := ProcessingTimes(lib, config, startTimeUtc, endTimeUtc);
            var trigger := Trigger(config.cronSchedule, startTimeUtc, endTimeUtc);
            (r == Failure(CronUnparsable(config.scheduleId)) <==> !lib.parses(config.cronSchedule))
            && (r == Failure(EndTimeBeforeStart(config.scheduleId))
                <==> lib.parses(config.cronSchedule) && StoredStart(trigger) > endTimeUtc)
            && (r == Failure(MaxExecutionsExceeded(config.scheduleId))
                <==> lib.parses(config.cronSchedule) && StoredStart(trigger) <= endTimeUtc
                     && Steps(lib, trigger, startTimeUtc, MAX_EXECUTIONS + 1).Some?)
            && (r.Success? ==>
                Steps(lib, trigger, startTimeUtc, |r.value| + 1).None?
                && forall i :: 0 <= i < |r.value| ==> Steps(lib, trigger, startTimeUtc, i + 1) == Some(r.value[i]))
  {
    FireTimesAreSteps(lib, Trigger(config.cronSchedule, startTimeUtc, endTimeUtc), startTimeUtc, 0);
  }

  /** A window that setEndTime accepts and that holds no firing yields an
      empty list; so does every such window that is empty, whatever the cron. */
  lemma NoFiringInWindow(lib: CronLibrary, config: ScheduleConfig, startTimeUtc: int, endTimeUtc: int)
    requires lib.parses(config.cronSchedule) && !EndBeforeStart(Trigger(config.cronSchedule, startTimeUtc, endTimeUtc))
    requires FireTimeAfter(lib, Trigger(config.cronSchedule, startTimeUtc, endTimeUtc), startTimeUtc).None?
             || endTimeUtc <= startTimeUtc
    ensures ProcessingTimes(lib, config, startTimeUtc, endTimeUtc) == Success([])
  {
  }

  // ---------------------------------------------------------------------
  // Dispatch.

  /** Template resolution as process() performs it: every template
      variable applied in declaration order. */
  const RESOLVE_TEMPLATE: (string, int) -> string :=
    (template, processTimeUtc) => ResolveAll(template, VALUES, processTimeUtc, LOCAL_TIME_ZONE)

  /** The loop of process() over TemplateVariable.values(). */
  method ResolveTemplate(template: string, processTimeUtc: int) returns (resolvedTemplate: string)
    ensures resolvedTemplate == RESOLVE_TEMPLATE(template, processTimeUtc)
  {
    resolvedTemplate := template;
    for i := 0 to |VALUES|
      invariant ResolveAll(resolvedTemplate, VALUES[i..], processTimeUtc, LOCAL_TIME_ZONE)
                == ResolveAll(template, VALUES, processTimeUtc, LOCAL_TIME_ZONE)
    {
      ResolveAllStep(resolvedTemplate, VALUES, i, processTimeUtc, LOCAL_TIME_ZONE);
      resolvedTemplate := Resolve(VALUES[i], resolvedTemplate, processTimeUtc, LOCAL_TIME_ZONE);
    }
    assert VALUES[|VALUES|..] == [];
  }

  /** The body process() sends carries no token of any template variable,
      and a template without tokens is sent unchanged. */
  lemma RequestBodyResolved(config: ScheduleConfig, processTimeUtc: int)
    ensures var body := Request(RESOLVE_TEMPLATE, config, processTimeUtc).body;
            (forall w :: w in VALUES ==> !Occurs(body, VarPattern(w)))
            && ((forall w :: w in VALUES ==> !Occurs(config.requestTemplate, VarPattern(w)))
                ==> body == config.requestTemplate)
  {
    var template := config.requestTemplate;
    forall w | w in VALUES
      ensures !Occurs(ResolveAll(template, VALUES, processTimeUtc, LOCAL_TIME_ZONE), VarPattern(w))
    {
      ResolveAllRemovesTokens(template, VALUES, processTimeUtc, LOCAL_TIME_ZONE, w);
    }
    if forall w :: w in VALUES ==> !Occurs(template, VarPattern(w)) {
      ResolveAllWithoutTokens(template, VALUES, processTimeUtc, LOCAL_TIME_ZONE);
    }
  }

  /** How a request template is turned into a request body for a firing
      instant; the scheduler's is RESOLVE_TEMPLATE. */
  type TemplateResolver = (string, int) -> string

  /** The request process() sends for a firing: the resolved template, to
      the config's queue. */
  function Request(resolve: TemplateResolver, config: ScheduleConfig, processTimeUtc: int): Message {
    Message(config.sqsQueueUrl, resolve(config.requestTemplate, processTimeUtc))
  }

  /** The requests for a list of firings, in the same order. */
  function Requests(resolve: TemplateResolver, config: ScheduleConfig, times: seq<int>): (r: seq<Message>)
    ensures |r| == |times|
    ensures forall i :: 0 <= i < |times| ==> r[i] == Request(resolve, config, times[i])
    decreases |times|
  {
    if times == [] then [] else [Request(resolve, config, times[0])] + Requests(resolve, config, times[1..])
  }

  predicate Rejected(sqs: SqsClient, m: Message) {
    sqs.rejects(m.queueUrl, m.body)
  }

  /** What a run (or part of one) did: the messages accepted, in order,
      and the exception that ended it, if any. */
  datatype Run = Run(sent: seq<Message>, error: Option<RunError>)

  /** Messages already sent, followed by a further part of the run. */
  function Continue(sent: seq<Message>, rest: Run): Run {
    Run(sent + rest.sent, rest.error)
  }

  /** sendMessage for each request in turn; the first rejected send throws
      and ends the run. */
  function Deliver(sqs: SqsClient, scheduleId: string, msgs: seq<Message>): Run
    decreases |msgs|
  {
    if msgs == [] then Run([], None)
    else if Rejected(sqs, msgs[0]) then Run([], Some(SendFailed(scheduleId, msgs[0].queueUrl)))
    else Continue([msgs[0]], Deliver(sqs, scheduleId, msgs[1..]))
  }

  /** One iteration of the loop over configs: its firings, then process()
      for each of them. */
  function RunConfig(lib: CronLibrary, sqs: SqsClient, resolve: TemplateResolver, config: ScheduleConfig, startTimeUtc: int, endTimeUtc: int): Run {
    match ProcessingTimes(lib, config, startTimeUtc, endTimeUtc)
    case Failure(e) => Run([], Some(e))
    case Success(ts) => Deliver(sqs, config.scheduleId, Requests(resolve, config, ts))
  }

  /** The loop over configs in scan order; an exception in any config ends
      the whole run (the per-config catch only covers IOException, which
      nothing inside it throws). */
  function RunConfigs(lib: CronLibrary, sqs: SqsClient, resolve: TemplateResolver, configs: seq<ScheduleConfig>, startTimeUtc: int, endTimeUtc: int): Run
    decreases |configs|
  {
    if configs == [] then Run([], None)
    else
      var first := RunConfig(lib, sqs, resolve, configs[0], startTimeUtc, endTimeUtc);
      if first.error.Some? then first
      else Continue(first.sent, RunConfigs(lib, sqs, resolve, configs[1..], startTimeUtc, endTimeUtc))
  }

  /** The requests a config's firings call for (none when its firings
      cannot be enumerated). */
  function ConfigRequests(lib: CronLibrary, resolve: TemplateResolver, config: ScheduleConfig, startTimeUtc: int, endTimeUtc: int): seq<Message> {
    match ProcessingTimes(lib, config, startTimeUtc, endTimeUtc)
    case Failure(_) => []
    case Success(ts) => Requests(resolve, config, ts)
  }

  /** Reference order of the messages: config by config in scan order, and
      within a config firing by firing. */
  function ScheduledRequests(lib: CronLibrary, resolve: TemplateResolver, configs: seq<ScheduleConfig>, startTimeUtc: int, endTimeUtc: int): seq<Message>
    decreases |configs|
  {
    if configs == [] then []
    else ConfigRequests(lib, resolve, configs[0], startTimeUtc, endTimeUtc) + ScheduledRequests(lib, resolve, configs[1..], startTimeUtc, endTimeUtc)
  }

  predicate IsPrefix<T(==)>(a: seq<T>, b: seq<T>) {
    |a| <= |b| && b[..|a|] == a
  }

  predicate NoneRejected(sqs: SqsClient, msgs: seq<Message>) {
    forall i :: 0 <= i < |msgs| ==> !Rejected(sqs, msgs[i])
  }

  /** Delivery sends a prefix of the requests; it completes iff none is
      rejected, and then sends them all; otherwise it stops at the first
      rejected one and reports its queue. */
  lemma {:induction false} DeliverSendsPrefix(sqs: SqsClient, scheduleId: string, msgs: seq<Message>)
    ensures var r := Deliver(sqs, scheduleId, msgs);
            IsPrefix(r.sent, msgs)
            && (r.error.None? <==> NoneRejected(sqs, msgs))
            && (r.error.None? ==> r.sent == msgs)
            && (r.error.Some? ==> |r.sent| < |msgs| && Rejected(sqs, msgs[|r.sent|])
                                  && r.error == Some(SendFailed(scheduleId, msgs[|r.sent|].queueUrl)))
    decreases |msgs|
  {
    if msgs != [] && !Rejected(sqs, msgs[0]) {
      DeliverSendsPrefix(sqs, scheduleId, msgs[1..]);
      NoneRejectedConcat(sqs, [msgs[0]], msgs[1..]);
      assert [msgs[0]] + msgs[1..] == msgs;
    }
  }

  /** No request of a + b is rejected iff none of a and none of b is. */
  lemma NoneRejectedConcat(sqs: SqsClient, a: seq<Message>, b: seq<Message>)
    ensures NoneRejected(sqs, a + b) <==> NoneRejected(sqs, a) && NoneRejected(sqs, b)
  {
    if NoneRejected(sqs, a + b) {
      forall i | 0 <= i < |a| ensures !Rejected(sqs, a[i]) {
        assert (a + b)[i] == a[i];
      }
      forall i | 0 <= i < |b| ensures !Rejected(sqs, b[i]) {
        assert (a + b)[|a| + i] == b[i];
      }
    }
    if NoneRejected(sqs, a) && NoneRejected(sqs, b) {
      forall i | 0 <= i < |a + b| ensures !Rejected(sqs, (a + b)[i]) {
        if i >= |a| {
          assert (a + b)[i] == b[i - |a|];
        }
      }
    }
  }

  predicate AllEnumerable(lib: CronLibrary, configs: seq<ScheduleConfig>, startTimeUtc: int, endTimeUtc: int) {
    forall j :: 0 <= j < |configs| ==> ProcessingTimes(lib, configs[j], startTimeUtc, endTimeUtc).Success?
  }

  /** A run sends a prefix of the scheduled requests. It completes iff every
      config's firings can be enumerated and no request is rejected, and a
      completed run sends exactly the scheduled requests. */
  lemma {:induction false} RunSendsPrefix(lib: CronLibrary, sqs: SqsClient, resolve: TemplateResolver, configs: seq<ScheduleConfig>,
                                          startTimeUtc: int, endTimeUtc: int)
    ensures var r := RunConfigs(lib, sqs, resolve, configs, startTimeUtc, endTimeUtc);
            var all := ScheduledRequests(lib, resolve, configs, startTimeUtc, endTimeUtc);
            IsPrefix(r.sent, all)
            && (r.error.None? <==> AllEnumerable(lib, configs, startTimeUtc, endTimeUtc) && NoneRejected(sqs, all))
            && (r.error.None? ==> r.sent == all)
    decreases |configs|
  {
    if configs != [] {
      var c := configs[0];
      var first := RunConfig(lib, sqs, resolve, c, startTimeUtc, endTimeUtc);
      var mine := ConfigRequests(lib, resolve, c, startTimeUtc, endTimeUtc);
      var later := ScheduledRequests(lib, resolve, configs[1..], startTimeUtc, endTimeUtc);
      assert ScheduledRequests(lib, resolve, configs, startTimeUtc, endTimeUtc) == mine + later;
      RunSendsPrefix(lib, sqs, resolve, configs[1..], startTimeUtc, endTimeUtc);
      EnumerableSplit(lib, configs, startTimeUtc, endTimeUtc);
      NoneRejectedConcat(sqs, mine, later);
      if ProcessingTimes(lib, c, startTimeUtc, endTimeUtc).Success? {
        DeliverSendsPrefix(sqs, c.scheduleId, mine);
        PrefixConcat(first.sent, mine, later);
      }
    }
  }

  lemma EnumerableSplit(lib: CronLibrary, configs: seq<ScheduleConfig>, startTimeUtc: int, endTimeUtc: int)
    requires configs != []
    ensures AllEnumerable(lib, configs, startTimeUtc, endTimeUtc)
            <==> ProcessingTimes(lib, configs[0], startTimeUtc, endTimeUtc).Success?
                 && AllEnumerable(lib, configs[1..], startTimeUtc, endTimeUtc)
  {
    if ProcessingTimes(lib, configs[0], startTimeUtc, endTimeUtc).Success?
       && AllEnumerable(lib, configs[1..], startTimeUtc, endTimeUtc) {
      forall j | 0 <= j < |configs| ensures ProcessingTimes(lib, configs[j], startTimeUtc, endTimeUtc).Success? {
        if j > 0 {
          assert configs[j] == configs[1..][j - 1];
        }
      }
    }
  }

  /** A prefix of a is a prefix of a + b. */
  lemma PrefixConcat<T>(p: seq<T>, a: seq<T>, b: seq<T>)
    requires IsPrefix(p, a)
    ensures IsPrefix(p, a + b)
  {
    assert (a + b)[..|p|] == a[..|p|];
  }

  /** A config whose window holds no firing sends nothing and does not end
      the run. */
  lemma NoFiringSendsNothing(lib: CronLibrary, sqs: SqsClient, resolve: TemplateResolver, config: ScheduleConfig, startTimeUtc: int, endTimeUtc: int)
    requires lib.parses(config.cronSchedule) && !EndBeforeStart(Trigger(config.cronSchedule, startTimeUtc, endTimeUtc))
    requires FireTimeAfter(lib, Trigger(config.cronSchedule, startTimeUtc, endTimeUtc), startTimeUtc).None?
    ensures RunConfig(lib, sqs, resolve, config, startTimeUtc, endTimeUtc) == Run([], None)
    ensures ConfigRequests(lib, resolve, config, startTimeUtc, endTimeUtc) == []
  {
    NoFiringInWindow(lib, config, startTimeUtc, endTimeUtc);
  }

  // ---------------------------------------------------------------------
  // The scheduler.

  class BridgeMasterScheduler {
    /** Quartz, fixed for the scheduler's lifetime. */
    const quartz: CronLibrary
    /** TemplateVariable's substitution, fixed for the scheduler's lifetime. */
    const templateResolver: TemplateResolver
    /** The config table's items, in scan order. */
    var ddbConfigTable: seq<ScheduleConfig>
    /** The status table: rows by hash key. */
    var ddbStatusTable: map<string, StatusRow>
    var sqsClient: SqsClient
    /** Every message SQS has accepted, in the order sent. */
    var sqsOutbox: seq<Message>

    constructor (quartz: CronLibrary, sqsClient: SqsClient)
      ensures this.quartz == quartz && this.sqsClient == sqsClient && templateResolver == RESOLVE_TEMPLATE
      ensures ddbConfigTable == [] && ddbStatusTable == map[] && sqsOutbox == []
    {
      this.quartz := quartz;
      templateResolver := RESOLVE_TEMPLATE;
      this.sqsClient := sqsClient;
      ddbConfigTable := [];
      ddbStatusTable := map[];
      sqsOutbox := [];
    }

    method SetDdbConfigTable(configs: seq<ScheduleConfig>)
      modifies this
      ensures ddbConfigTable == configs
      ensures ddbStatusTable == old(ddbStatusTable) && sqsClient == old(sqsClient) && sqsOutbox == old(sqsOutbox)
    {
      ddbConfigTable := configs;
    }

    method SetDdbStatusTable(statusTable: map<string, StatusRow>)
      modifies this
      ensures ddbStatusTable == statusTable
      ensures ddbConfigTable == old(ddbConfigTable) && sqsClient == old(sqsClient) && sqsOutbox == old(sqsOutbox)
    {
      ddbStatusTable := statusTable;
    }

    method SetSqsClient(client: SqsClient)
      modifies this
      ensures sqsClient == client
      ensures ddbConfigTable == old(ddbConfigTable) && ddbStatusTable == old(ddbStatusTable) && sqsOutbox == old(sqsOutbox)
    {
      sqsClient := client;
    }

    /** schedule(): the messages sent are the run's, and only a completed
        run writes the status row, with the window start. */
    method Schedule(nowUtc: int) returns (error: Option<RunError>)
      modifies this
      ensures var startTimeUtc := WindowStart(old(ddbStatusTable), nowUtc);
              var run := RunConfigs(quartz, old(sqsClient), templateResolver, old(ddbConfigTable), startTimeUtc, nowUtc);
              error == run.error
              && sqsOutbox == old(sqsOutbox) + run.sent
              && ddbStatusTable == (if run.error.None? then WithStatus(old(ddbStatusTable), startTimeUtc)
                                    else old(ddbStatusTable))
      ensures ddbConfigTable == old(ddbConfigTable) && sqsClient == old(sqsClient)
    {
      var lastProcessedTimeUtc;
      if HASH_KEY_MASTER_SCHEDULER !in ddbStatusTable
         || CONFIG_KEY_LAST_PROCESSED_TIME !in ddbStatusTable[HASH_KEY_MASTER_SCHEDULER] {
        lastProcessedTimeUtc := nowUtc - MS_PER_HOUR;
      } else {
        lastProcessedTimeUtc := ddbStatusTable[HASH_KEY_MASTER_SCHEDULER][CONFIG_KEY_LAST_PROCESSED_TIME];
      }
      error := ProcessConfigs(ddbConfigTable, lastProcessedTimeUtc, nowUtc);
      if error.None? {
        ddbStatusTable := ddbStatusTable[HASH_KEY_MASTER_SCHEDULER := map[CONFIG_KEY_LAST_PROCESSED_TIME := lastProcessedTimeUtc]];
      }
    }

    /** The loop of schedule() over the config table; an exception from
        one config ends the loop. */
    method ProcessConfigs(configs: seq<ScheduleConfig>, startTimeUtc: int, endTimeUtc: int) returns (error: Option<RunError>)
      modifies this
      ensures var run := RunConfigs(quartz, old(sqsClient), templateResolver, configs, startTimeUtc, endTimeUtc);
              error == run.error && sqsOutbox == old(sqsOutbox) + run.sent
      ensures ddbConfigTable == old(ddbConfigTable) && ddbStatusTable == old(ddbStatusTable) && sqsClient == old(sqsClient)
    {
      ghost var lib, sqs, resolve := quartz, sqsClient, templateResolver;
      ghost var runs := seq(|configs|, k requires 0 <= k < |configs| =>
                          RunConfig(lib, sqs, resolve, configs[k], startTimeUtc, endTimeUtc));
      RunConfigsChain(lib, sqs, resolve, configs, startTimeUtc, endTimeUtc, runs);
      ghost var sent: seq<Message> := [];
      for i := 0 to |configs|
        invariant sqsOutbox == old(sqsOutbox) + sent
        invariant Continue(sent, Chain(runs[i..])) == Chain(runs)
        invariant ddbConfigTable == old(ddbConfigTable) && ddbStatusTable == old(ddbStatusTable) && sqsClient == old(sqsClient)
      {
        error := ProcessConfig(configs[i], startTimeUtc, endTimeUtc);
        ChainAdvance(runs, i, sent);
        AppendAssoc(old(sqsOutbox), sent, runs[i].sent);
        if error.Some? {
          return;
        }
        sent := sent + runs[i].sent;
      }
      assert runs[|configs|..] == [];
      return None;
    }

    /** The body of schedule()'s try block: the config's firings, each
        handed to process() in turn, stopping at the first exception. */
    method ProcessConfig(config: ScheduleConfig, startTimeUtc: int, endTimeUtc: int) returns (error: Option<RunError>)
      modifies this
      ensures var run := RunConfig(quartz, old(sqsClient), templateResolver, config, startTimeUtc, endTimeUtc);
              error == run.error && sqsOutbox == old(sqsOutbox) + run.sent
      ensures ddbConfigTable == old(ddbConfigTable) && ddbStatusTable == old(ddbStatusTable) && sqsClient == old(sqsClient)
    {
      var processTimeList := GetProcessingTimes(config, startTimeUtc, endTimeUtc);
      if processTimeList.Failure? {
        return Some(processTimeList.error);
      }
      var times := processTimeList.value;
      ghost var msgs := Requests(templateResolver, config, times);
      ghost var dispatched: seq<Message> := [];
      for j := 0 to |times|
        invariant sqsOutbox == old(sqsOutbox) + dispatched
        invariant Continue(dispatched, Deliver(sqsClient, config.scheduleId, msgs[j..]))
                  == Deliver(sqsClient, config.scheduleId, msgs)
        invariant ddbConfigTable == old(ddbConfigTable) && ddbStatusTable == old(ddbStatusTable) && sqsClient == old(sqsClient)
      {
        DeliverStep(sqsClient, config.scheduleId, msgs, j);
        var accepted := Process(config, times[j]);
        if !accepted {
          return Some(SendFailed(config.scheduleId, config.sqsQueueUrl));
        }
        ContinueAssoc(dispatched, [msgs[j]], Deliver(sqsClient, config.scheduleId, msgs[j + 1..]));
        dispatched := dispatched + [msgs[j]];
      }
      assert msgs[|times|..] == [];
      return None;
    }

    /** getProcessingTimes: the bounded loop over getFireTimeAfter. */
    method GetProcessingTimes(config: ScheduleConfig, startTimeUtc: int, endTimeUtc: int) returns (r: Result<seq<int>>)
      ensures r == ProcessingTimes(quartz, config, startTimeUtc, endTimeUtc)
    {
      if !quartz.parses(config.cronSchedule) {
        return Failure(CronUnparsable(config.scheduleId));
      }
      var trigger := Trigger(config.cronSchedule, startTimeUtc, endTimeUtc);
      if EndBeforeStart(trigger) {
        return Failure(EndTimeBeforeStart(config.scheduleId));
      }
      var processTimeList: seq<int> := [];
      var numExecutions: nat := 0;
      var lastProcessDate := startTimeUtc;
      var next := FireTimeAfter(quartz, trigger, lastProcessDate);
      while next.Some?
        invariant numExecutions <= MAX_EXECUTIONS
        invariant next == FireTimeAfter(quartz, trigger, lastProcessDate)
        invariant Concat(processTimeList, FireTimesFrom(quartz, trigger, lastProcessDate, numExecutions))
                  == FireTimesFrom(quartz, trigger, startTimeUtc, 0)
        decreases MAX_EXECUTIONS - numExecutions
      {
        lastProcessDate := next.value;
        numExecutions := numExecutions + 1;
        if numExecutions > MAX_EXECUTIONS {
          return Failure(MaxExecutionsExceeded(config.scheduleId));
        }
        ConcatPrepend(processTimeList, lastProcessDate, FireTimesFrom(quartz, trigger, lastProcessDate, numExecutions));
        processTimeList := processTimeList + [lastProcessDate];
        next := FireTimeAfter(quartz, trigger, lastProcessDate);
      }
      assert FireTimesFrom(quartz, trigger, lastProcessDate, numExecutions) == Enumerated([]);
      assert processTimeList + [] == processTimeList;
      return Success(processTimeList);
    }

    /** process(): resolve every template variable in declaration order,
        then send the request to the config's queue. */
    method Process(config: ScheduleConfig, processTimeUtc: int) returns (accepted: bool)
      modifies this
      ensures accepted == !Rejected(sqsClient, Request(templateResolver, config, processTimeUtc))
      ensures sqsOutbox == old(sqsOutbox) + (if accepted then [Request(templateResolver, config, processTimeUtc)] else [])
      ensures ddbConfigTable == old(ddbConfigTable) && ddbStatusTable == old(ddbStatusTable) && sqsClient == old(sqsClient)
    {
      var resolvedTemplate := templateResolver(config.requestTemplate, processTimeUtc);
      if sqsClient.rejects(config.sqsQueueUrl, resolvedTemplate) {
        return false;
      }
      sqsOutbox := sqsOutbox + [Message(config.sqsQueueUrl, resolvedTemplate)];
      return true;
    }
  }

  /** A list already taken, followed by an enumeration of the rest. */
  function Concat(ts: seq<int>, e: Enumeration): Enumeration {
    match e
    case Enumerated(rest) => Enumerated(ts + rest)
    case CapExceeded => CapExceeded
  }

  lemma ConcatPrepend(ts: seq<int>, t: int, e: Enumeration)
    ensures Concat(ts, Prepend(t, e)) == Concat(ts + [t], e)
  {
    if e.Enumerated? {
      assert ts + ([t] + e.times) == (ts + [t]) + e.times;
    }
  }

  /** A run made of parts in turn: the first part that ends in an
      exception ends the whole. */
  function Chain(runs: seq<Run>): Run
    decreases |runs|
  {
    if runs == [] then Run([], None)
    else if runs[0].error.Some? then runs[0]
    else Continue(runs[0].sent, Chain(runs[1..]))
  }

  /** One more part of a chain taken: either it ends the chain, or the
      rest of the chain follows everything sent so far. */
  lemma ChainAdvance(runs: seq<Run>, i: nat, sent: seq<Message>)
    requires i < |runs| && Continue(sent, Chain(runs[i..])) == Chain(runs)
    ensures runs[i].error.Some? ==> Chain(runs) == Run(sent + runs[i].sent, runs[i].error)
    ensures runs[i].error.None? ==> Continue(sent + runs[i].sent, Chain(runs[i + 1..])) == Chain(runs)
  {
    assert runs[i..][1..] == runs[i + 1..];
    ContinueAssoc(sent, runs[i].sent, Chain(runs[i + 1..]));
  }

  lemma AppendAssoc<T>(a: seq<T>, b: seq<T>, c: seq<T>)
    ensures a + b + c == a + (b + c)
  {
  }

  /** The loop over configs is the chain of its per-config runs. */
  lemma {:induction false} RunConfigsChain(lib: CronLibrary, sqs: SqsClient, resolve: TemplateResolver, configs: seq<ScheduleConfig>,
                                           startTimeUtc: int, endTimeUtc: int, runs: seq<Run>)
    requires |runs| == |configs|
    requires forall k :: 0 <= k < |configs| ==> runs[k] == RunConfig(lib, sqs, resolve, configs[k], startTimeUtc, endTimeUtc)
    ensures RunConfigs(lib, sqs, resolve, configs, startTimeUtc, endTimeUtc) == Chain(runs)
    decreases |configs|
  {
    if configs != [] {
      RunConfigsChain(lib, sqs, resolve, configs[1..], startTimeUtc, endTimeUtc, runs[1..]);
    }
  }

  lemma DeliverStep(sqs: SqsClient, scheduleId: string, msgs: seq<Message>, j: nat)
    requires j < |msgs|
    ensures Deliver(sqs, scheduleId, msgs[j..])
            == if Rejected(sqs, msgs[j]) then Run([], Some(SendFailed(scheduleId, msgs[j].queueUrl)))
               else Continue([msgs[j]], Deliver(sqs, scheduleId, msgs[j + 1..]))
  {
    assert msgs[j..][1..] == msgs[j + 1..];
  }

  lemma ContinueAssoc(a: seq<Message>, b: seq<Message>, r: Run)
    ensures Continue(a, Continue(b, r)) == Continue(a + b, r)
  {
    assert a + (b + r.sent) == (a + b) + r.sent;
  }
}
