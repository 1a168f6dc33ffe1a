# BridgeMasterScheduler in Dafny

BridgeMasterScheduler is Bridge's master scheduler. On each run it:

- takes the current instant;
- reads the last processed time from a singleton row of a DynamoDB status table, falling back to an hour ago when the row is missing;
- scans the schedule-config table;
- for each config, asks a Quartz cron trigger for every firing in (last processed time, now], capped at 60 firings;
- for each firing, resolves the request template and sends it to the config's SQS queue;
- finally writes the status row back.

Template resolution replaces each `${name}` token of the `TemplateVariable` enum by a date or date-time computed from the firing instant in America/Los_Angeles, rendered in ISO 8601.

This project models both core classes and proves properties of the model:

- `BridgeMasterScheduler` is a Dafny class (`Scheduler.BridgeMasterScheduler`) with these fields:
  - the config table as a `seq`;
  - the status table as a `map`;
  - the SQS client;
  - the messages SQS has accepted.

  Its `schedule`, `getProcessingTimes` and `process` are methods. The loop over configs is in `ProcessConfigs`, which `Schedule` calls; the firing loop is in `GetProcessingTimes`; the loop over template variables is in `ResolveTemplate`, which `Process` calls. Each method is proved against specification functions (`WindowStart`, `ProcessingTimes`, `RunConfigs`, `WithStatus`). Those functions' own properties are proved as lemmas.
- `TemplateVariable` is a datatype with pure functions:
  - the six replacement values, built from Joda-style date-time operations (`CivilTime`) and ISO rendering (`IsoFormat`);
  - `resolve`, which is Java's `String.replace` (`TextReplace`) applied to `varPattern`.

Modules:

- `CivilTime`: dates, local date-times and instants, with Joda's `minusDays`, `with…` operations and `withZone`.
- `IsoFormat`: `toString()` of date-times and dates.
- `TextReplace`: `String.replace` and its laws.
- `Templates`: the `TemplateVariable` enum.
- `TemplateExamples`: the enum's unit-test values.
- `Cron`: Quartz cron triggers: the stored start and end time and "next firing after".
- `Scheduler`: the scheduler class and its specification.
- `SchedulerExamples`: the scheduler's unit-test scenarios.
- `Findings`: three places where the code disagrees with its tests, each modelled as written and corrected.

Where the code disagrees with its own tests, the model follows the code: the stored watermark, the abort on unchecked exceptions, and the missing `processTime`/`todaysDate` variables (see "## Findings").

## Model

| member | source | states |
|---|---|---|
| Scheduler.WindowStart | src/main/java/org/sagebionetworks/bridge/scheduler/BridgeMasterScheduler.java:63-71 | The start of the window: the stored lastProcessedTime, or now minus one hour without it. Specified by WindowStartCases. |
| Scheduler.WindowStartCases | src/main/java/org/sagebionetworks/bridge/scheduler/BridgeMasterScheduler.java:63-71 | With no status row, or a row without lastProcessedTime, the window starts exactly one hour before now. Otherwise it starts at the stored millis, whatever now is. |
| Scheduler.WithStatus | src/main/java/org/sagebionetworks/bridge/scheduler/BridgeMasterScheduler.java:92-94 | The row under HASH_KEY_MASTER_SCHEDULER holds exactly lastProcessedTime, the written time, so the next window starts there. Other rows are kept and no other key is added. |
| Scheduler.FireTimesFrom | src/main/java/org/sagebionetworks/bridge/scheduler/BridgeMasterScheduler.java:109-120 | The firing loop as a recursion: successive getFireTimeAfter results, overflowing past MAX_EXECUTIONS. Specified by FireTimesAreSteps and FireTimesInWindow. |
| Scheduler.FireTimesAreSteps | src/main/java/org/sagebionetworks/bridge/scheduler/BridgeMasterScheduler.java:109-120 | The bounded loop overflows exactly when a 61st successive firing exists. Otherwise its list is the successive getFireTimeAfter results, ending where the next call returns null. |
| Scheduler.FireTimesInWindow | src/main/java/org/sagebionetworks/bridge/scheduler/BridgeMasterScheduler.java:103-120 | With a lawful cron, every firing listed is after the start and no later than the trigger's end time, and the list strictly increases. |
| Scheduler.ProcessingTimes | src/main/java/org/sagebionetworks/bridge/scheduler/BridgeMasterScheduler.java:97-123 | getProcessingTimes: parse, setEndTime's check, then the firing loop. Specified by ProcessingTimesOutcome, ProcessingTimesInWindow and NoFiringInWindow. |
| Scheduler.ProcessingTimesInWindow | src/main/java/org/sagebionetworks/bridge/scheduler/BridgeMasterScheduler.java:97-123 | With a lawful cron, a successful getProcessingTimes returns at most MAX_EXECUTIONS firings, strictly increasing, all in (startTimeUtc, endTimeUtc]. |
| Scheduler.ProcessingTimesOutcome | src/main/java/org/sagebionetworks/bridge/scheduler/BridgeMasterScheduler.java:97-123 | It fails for an unparsable cron iff the cron does not parse. It fails in setEndTime iff the cron parses and the start cut to whole seconds is after the end. It throws "max executions exceeded" iff neither holds and a 61st firing exists. A success lists exactly the successive firings. |
| Scheduler.NoFiringInWindow | src/main/java/org/sagebionetworks/bridge/scheduler/BridgeMasterScheduler.java:105-122 | A parsable cron on a window that setEndTime accepts yields the empty list when the window holds no firing, and always when the window is empty. |
| Scheduler.ResolveTemplate | src/main/java/org/sagebionetworks/bridge/scheduler/BridgeMasterScheduler.java:131-134 | The loop over TemplateVariable.values() computes the fold of resolve over all variables in declaration order. |
| Scheduler.RequestBodyResolved | src/main/java/org/sagebionetworks/bridge/scheduler/BridgeMasterScheduler.java:125-140 | The body process() sends contains no token of any declared variable. A template without such tokens is sent unchanged. |
| Scheduler.Request | src/main/java/org/sagebionetworks/bridge/scheduler/BridgeMasterScheduler.java:125-139 | The message process() sends for one firing: the config's queue and the resolved template. Specified by RequestBodyResolved and Requests. |
| Scheduler.Requests | src/main/java/org/sagebionetworks/bridge/scheduler/BridgeMasterScheduler.java:83-85 | One request per firing, in firing order. Each goes to the config's queue with the template resolved at that firing. |
| Scheduler.Deliver | src/main/java/org/sagebionetworks/bridge/scheduler/BridgeMasterScheduler.java:83-85 | The sends of one config's requests, stopping at the first that throws. Specified by DeliverSendsPrefix and DeliverStep. |
| Scheduler.DeliverSendsPrefix | src/main/java/org/sagebionetworks/bridge/scheduler/BridgeMasterScheduler.java:83-85 | Sending a config's requests sends a prefix of them. It completes iff no send throws, and then sends all of them. Otherwise it stops at the first rejected request and reports that request's queue. |
| Scheduler.NoneRejectedConcat | src/main/java/org/sagebionetworks/bridge/scheduler/BridgeMasterScheduler.java:83-85 | No request of a + b is rejected iff none of a and none of b is. |
| Scheduler.RunConfig | src/main/java/org/sagebionetworks/bridge/scheduler/BridgeMasterScheduler.java:80-89 | One config's pass through the try block: its firings, then its sends. Specified by NoFiringSendsNothing and RunSendsPrefix. |
| Scheduler.RunConfigs | src/main/java/org/sagebionetworks/bridge/scheduler/BridgeMasterScheduler.java:78-90 | The loop over configs, ending at the first config that throws. Specified by RunSendsPrefix, EnumerableSplit and RunConfigsChain. |
| Scheduler.RunSendsPrefix | src/main/java/org/sagebionetworks/bridge/scheduler/BridgeMasterScheduler.java:78-90 | A run sends a prefix of the scheduled requests (config by config in scan order, firing by firing). It completes iff every config's firings can be enumerated and no send is rejected, and a completed run sends exactly the scheduled requests. |
| Scheduler.EnumerableSplit | src/main/java/org/sagebionetworks/bridge/scheduler/BridgeMasterScheduler.java:78-90 | Every config is enumerable iff the first one is and all later ones are. |
| Scheduler.NoFiringSendsNothing | src/main/java/org/sagebionetworks/bridge/scheduler/BridgeMasterScheduler.java:82-85 | A config whose window setEndTime accepts and holds no firing sends nothing and does not end the run. |
| Scheduler.BridgeMasterScheduler.constructor | src/main/java/org/sagebionetworks/bridge/scheduler/BridgeMasterScheduler.java:30-50 | A new scheduler has the given Quartz and SQS client, resolves with the TemplateVariable fold, and has empty tables and no sent messages. |
| Scheduler.BridgeMasterScheduler.SetDdbConfigTable | src/main/java/org/sagebionetworks/bridge/scheduler/BridgeMasterScheduler.java:38-40 | The setter replaces the config table and nothing else. |
| Scheduler.BridgeMasterScheduler.SetDdbStatusTable | src/main/java/org/sagebionetworks/bridge/scheduler/BridgeMasterScheduler.java:43-45 | The setter replaces the status table and nothing else. |
| Scheduler.BridgeMasterScheduler.SetSqsClient | src/main/java/org/sagebionetworks/bridge/scheduler/BridgeMasterScheduler.java:48-50 | The setter replaces the SQS client and nothing else. |
| Scheduler.BridgeMasterScheduler.Schedule | src/main/java/org/sagebionetworks/bridge/scheduler/BridgeMasterScheduler.java:57-95 | The messages added to SQS are exactly the run's, computed over the window from WindowStart to now, and the run's exception is returned. Only a completed run writes the status row, and it writes the window start. Config table and client are unchanged. |
| Scheduler.BridgeMasterScheduler.ProcessConfigs | src/main/java/org/sagebionetworks/bridge/scheduler/BridgeMasterScheduler.java:78-90 | The loop over configs appends exactly RunConfigs' messages and returns its exception. The first exception ends the loop. Tables and client are unchanged. |
| Scheduler.BridgeMasterScheduler.ProcessConfig | src/main/java/org/sagebionetworks/bridge/scheduler/BridgeMasterScheduler.java:80-85 | One config's try block appends exactly RunConfig's messages (its firings resolved and sent in order until a send throws) and returns its exception. |
| Scheduler.BridgeMasterScheduler.GetProcessingTimes | src/main/java/org/sagebionetworks/bridge/scheduler/BridgeMasterScheduler.java:97-123 | The loop over getFireTimeAfter returns what ProcessingTimes specifies: the unparsable-cron error, the end-before-start error of setEndTime, the over-the-cap error, or the list of firings. |
| Scheduler.BridgeMasterScheduler.Process | src/main/java/org/sagebionetworks/bridge/scheduler/BridgeMasterScheduler.java:125-140 | It resolves the template and sends it to the config's queue. The message is appended iff the client accepts it, and the result says whether the send went through. |
| Scheduler.RunConfigsChain | src/main/java/org/sagebionetworks/bridge/scheduler/BridgeMasterScheduler.java:78-90 | The loop over configs is the chain of its per-config runs: the first that ends in an exception ends the whole. |
| Scheduler.ChainAdvance | src/main/java/org/sagebionetworks/bridge/scheduler/BridgeMasterScheduler.java:79-89 | One more config taken either ends the chain with its exception or leaves the rest of the chain after everything sent so far. |
| Scheduler.DeliverStep | src/main/java/org/sagebionetworks/bridge/scheduler/BridgeMasterScheduler.java:83-85 | Sending from request j on either throws at request j or sends it and continues with j + 1. |
| Cron.FireTimeAfter | src/main/java/org/sagebionetworks/bridge/scheduler/BridgeMasterScheduler.java:103-111 | getFireTimeAfter returns nothing once the instant asked about (moved to a second before the stored start when it precedes it) reaches the end time. Otherwise it returns the cron's next firing after that instant if it is no later than the end time, and nothing if it is. With a lawful cron a firing lies after the instant asked about and at or after the stored start. |
| Cron.StoredStart | src/main/java/org/sagebionetworks/bridge/scheduler/BridgeMasterScheduler.java:105 | setStartTime stores the start with its milliseconds cleared: the whole second at or before it. |
| Cron.EndBeforeStart | src/main/java/org/sagebionetworks/bridge/scheduler/BridgeMasterScheduler.java:106 | setEndTime throws when the stored start is after the end. Specified by the EndTimeBeforeStart iff of ProcessingTimesOutcome. |
| Cron.ClampedAfter | src/main/java/org/sagebionetworks/bridge/scheduler/BridgeMasterScheduler.java:111 | getFireTimeAfter asks from one second before the stored start when it is asked about an earlier instant. Specified by FireTimeAfter. |
| Cron.StepsIncrease | src/main/java/org/sagebionetworks/bridge/scheduler/BridgeMasterScheduler.java:111-112 | Successive getFireTimeAfter results strictly increase and stay in (start, end]. |
| Templates.ReplacementValue | src/main/java/org/sagebionetworks/bridge/scheduler/TemplateVariable.java:9-47 | Each constant's getReplacementValue. Specified by EndOfPreviousDayTime through YesterdayTime and the Templates lemmas after them. |
| Templates.VarPattern | src/main/java/org/sagebionetworks/bridge/scheduler/TemplateVariable.java:55-57 | The token `${name}`. Specified by PatternShape, PatternOutsideAlphabet and PatternsApart. |
| Templates.Resolve | src/main/java/org/sagebionetworks/bridge/scheduler/TemplateVariable.java:61-68 | resolve: the value at the instant in Los Angeles time replaces every token. Specified by ResolveReplacesEveryToken, ResolveWithoutToken, ResolveIdempotent, ResolveCreatesNoToken and ResolveTokenOnly. |
| Templates.ResolveAll | src/main/java/org/sagebionetworks/bridge/scheduler/BridgeMasterScheduler.java:132-134 | resolve applied for each variable in turn. Specified by ResolveAllStep, ResolveAllKeepsAbsent, ResolveAllRemovesTokens, ResolveAllWithoutTokens, ResolveAllIdempotent and ResolveAllOneVariable. |
| Templates.EndOfPreviousDayTime | src/main/java/org/sagebionetworks/bridge/scheduler/TemplateVariable.java:7-13 | The chain minusDays(1).withHourOfDay(23)…withMillisOfSecond(999) yields a valid date-time. |
| Templates.StartOfDayTime | src/main/java/org/sagebionetworks/bridge/scheduler/TemplateVariable.java:15-20 | withTimeAtStartOfDay yields a valid date-time. |
| Templates.StartOfDayOneWeekAgoTime | src/main/java/org/sagebionetworks/bridge/scheduler/TemplateVariable.java:22-27 | minusDays(7).withTimeAtStartOfDay yields a valid date-time. |
| Templates.StartOfHourTime | src/main/java/org/sagebionetworks/bridge/scheduler/TemplateVariable.java:29-34 | Zeroing minutes, seconds and millis yields a valid date-time. |
| Templates.StartOfPreviousDayTime | src/main/java/org/sagebionetworks/bridge/scheduler/TemplateVariable.java:36-41 | minusDays(1).withTimeAtStartOfDay yields a valid date-time. |
| Templates.YesterdayTime | src/main/java/org/sagebionetworks/bridge/scheduler/TemplateVariable.java:43-48 | minusDays(1) yields a valid date-time. |
| Templates.StartOfDayIsLocalMidnight | src/main/java/org/sagebionetworks/bridge/scheduler/TemplateVariable.java:15-20 | startOfDay is local midnight of the processing day in the same zone, at or before the processing instant and less than a day before it. |
| Templates.StartOfPreviousDayIsDayBefore | src/main/java/org/sagebionetworks/bridge/scheduler/TemplateVariable.java:36-41 | startOfPreviousDay is midnight of the calendar day before, exactly one day before startOfDay, across month and year ends. |
| Templates.StartOfDayOneWeekAgoIsSevenDaysBefore | src/main/java/org/sagebionetworks/bridge/scheduler/TemplateVariable.java:22-27 | startOfDayOneWeekAgo is midnight seven calendar days back, exactly seven days before startOfDay. |
| Templates.EndOfPreviousDayIsLastMillisecond | src/main/java/org/sagebionetworks/bridge/scheduler/TemplateVariable.java:7-13 | endOfPreviousDay is 23:59:59.999 of the day before, on the same date as startOfPreviousDay, one millisecond before startOfDay. |
| Templates.StartOfHourTruncates | src/main/java/org/sagebionetworks/bridge/scheduler/TemplateVariable.java:29-34 | startOfHour truncates to the hour: at or before the processing instant and less than an hour before it. |
| Templates.YesterdaysDateIsPreviousDay | src/main/java/org/sagebionetworks/bridge/scheduler/TemplateVariable.java:43-48 | yesterdaysDate is the calendar day before the processing day, rendered as a full date. |
| Templates.YesterdaysDateStartsPreviousDayValues | src/main/java/org/sagebionetworks/bridge/scheduler/TemplateVariable.java:7-48 | yesterdaysDate is a prefix of both startOfPreviousDay and endOfPreviousDay. |
| Templates.ValueInAlphabet | src/main/java/org/sagebionetworks/bridge/scheduler/TemplateVariable.java:7-48 | Every replacement value is non-empty and uses only digits and the characters `- : T . + Z`. |
| Templates.NameLetters | src/main/java/org/sagebionetworks/bridge/scheduler/TemplateVariable.java:7-48 | Every variable name is a non-empty word of letters without T or Z. |
| Templates.PatternOutsideAlphabet | src/main/java/org/sagebionetworks/bridge/scheduler/TemplateVariable.java:55-57 | No character of a `${name}` pattern can appear in a replacement value. |
| Templates.ValueDisjointFromPattern | src/main/java/org/sagebionetworks/bridge/scheduler/TemplateVariable.java:55-68 | A value shares no character with any variable's pattern. |
| Templates.ValueHasNoTokenStart | src/main/java/org/sagebionetworks/bridge/scheduler/TemplateVariable.java:61-68 | No value contains '$', so no value can form a token. |
| Templates.ResolveReplacesEveryToken | src/main/java/org/sagebionetworks/bridge/scheduler/TemplateVariable.java:61-68 | resolve replaces every token of the variable by its value at the local processing time, and keeps the text around the tokens, for any text that does not itself hold the token. |
| Templates.ResolveWithoutToken | src/main/java/org/sagebionetworks/bridge/scheduler/TemplateVariable.java:61-68 | A template without the variable's token is returned unchanged. |
| Templates.ResolveIdempotent | src/main/java/org/sagebionetworks/bridge/scheduler/TemplateVariable.java:61-68 | After resolve no token of the variable is left, so resolving again changes nothing. |
| Templates.ResolveCreatesNoToken | src/main/java/org/sagebionetworks/bridge/scheduler/TemplateVariable.java:61-68 | Resolving one variable never creates a token of another. |
| Templates.ResolveAllStep | src/main/java/org/sagebionetworks/bridge/scheduler/BridgeMasterScheduler.java:132-134 | The fold from position i is resolve of vars[i] followed by the fold from i + 1. |
| Templates.ResolveAllKeepsAbsent | src/main/java/org/sagebionetworks/bridge/scheduler/BridgeMasterScheduler.java:132-134 | A token absent from the template stays absent after resolving any list of variables. |
| Templates.ResolveAllRemovesTokens | src/main/java/org/sagebionetworks/bridge/scheduler/BridgeMasterScheduler.java:132-134 | After the fold, no token of any variable in the list is left. |
| Templates.ResolveAllWithoutTokens | src/main/java/org/sagebionetworks/bridge/scheduler/BridgeMasterScheduler.java:132-134 | A template with no token of the listed variables is returned verbatim. |
| Templates.ResolveAllIdempotent | src/main/java/org/sagebionetworks/bridge/scheduler/BridgeMasterScheduler.java:132-134 | Resolving all declared variables a second time changes nothing. |
| Templates.PatternShape | src/main/java/org/sagebionetworks/bridge/scheduler/TemplateVariable.java:55-57 | A pattern is `$`, `{`, the name and `}`, with no other '$' and no other '}'. |
| Templates.NamesDistinct | src/main/java/org/sagebionetworks/bridge/scheduler/TemplateVariable.java:7-48 | Distinct variables have patterns of distinct lengths. |
| Templates.PatternsApart | src/main/java/org/sagebionetworks/bridge/scheduler/TemplateVariable.java:55-57 | Neither of two distinct variables' patterns can match where the other starts. |
| Templates.ResolveAllOneVariable | src/main/java/org/sagebionetworks/bridge/scheduler/BridgeMasterScheduler.java:131-134 | For a template made of one variable's tokens between texts holding no token of any variable of the fold, the whole fold replaces each token by that variable's value and keeps the rest. |
| Templates.ResolveTokenOnly | src/main/java/org/sagebionetworks/bridge/scheduler/TemplateVariable.java:61-68 | A template that is exactly the token resolves to the value. |
| TextReplace.ReplaceAll | src/main/java/org/sagebionetworks/bridge/scheduler/TemplateVariable.java:67 | String.replace: left to right, non-overlapping. Specified by the TextReplace lemmas below. |
| TextReplace.ReplaceWithoutOccurrence | src/main/java/org/sagebionetworks/bridge/scheduler/TemplateVariable.java:67 | String.replace on text without the target returns the text. |
| TextReplace.ReplaceRemovesTarget | src/main/java/org/sagebionetworks/bridge/scheduler/TemplateVariable.java:67 | After replacement by text sharing no character with the target, no occurrence of the target is left. |
| TextReplace.ReplaceIdempotent | src/main/java/org/sagebionetworks/bridge/scheduler/TemplateVariable.java:67 | Under the same condition, replacing a second time changes nothing. |
| TextReplace.ReplaceCreatesNoOccurrence | src/main/java/org/sagebionetworks/bridge/scheduler/TemplateVariable.java:67 | A replacement sharing no character with q never creates an occurrence of q. |
| TextReplace.ReplaceKeepsAbsent | src/main/java/org/sagebionetworks/bridge/scheduler/TemplateVariable.java:67 | The same, with a fixed prefix before the replaced text. |
| TextReplace.ReplaceWholeText | src/main/java/org/sagebionetworks/bridge/scheduler/TemplateVariable.java:67 | Text that is exactly the target becomes exactly the replacement. |
| TextReplace.ReplacePassesPrefix | src/main/java/org/sagebionetworks/bridge/scheduler/TemplateVariable.java:67 | A prefix where no occurrence of the target starts passes through untouched. |
| TextReplace.ReplaceJoin | src/main/java/org/sagebionetworks/bridge/scheduler/TemplateVariable.java:67 | For a target whose first character does not recur in it, every occurrence between segments without the target is replaced by the same text, and the segments are kept. |
| TextReplace.ReplaceJoinOther | src/main/java/org/sagebionetworks/bridge/scheduler/TemplateVariable.java:67 | Segments without q, joined by a pattern that q can never start and that begins with q's first character (recurring in neither), hold no occurrence of q and are left unchanged by replacing q. |
| TextReplace.MatchStep | src/main/java/org/sagebionetworks/bridge/scheduler/TemplateVariable.java:67 | Where the target starts, the replacement takes its place and the scan resumes after it. |
| TextReplace.MismatchStep | src/main/java/org/sagebionetworks/bridge/scheduler/TemplateVariable.java:67 | Where the target does not start, the first character is kept. |
| TextReplace.AbsentWithoutStart | src/main/java/org/sagebionetworks/bridge/scheduler/TemplateVariable.java:67 | Text without the first character of q holds no occurrence of q. |
| TextReplace.JoinAvoidsTarget | src/main/java/org/sagebionetworks/bridge/scheduler/TemplateVariable.java:67 | Segments without q joined by text sharing no character with q hold no occurrence of q. |
| CivilTime.DaysInMonth | src/main/java/org/sagebionetworks/bridge/scheduler/TemplateVariable.java:7-48 | Month lengths are 28 to 31 days, and February has 29 iff the year is a Gregorian leap year. |
| CivilTime.LeapYearPeriodic | src/main/java/org/sagebionetworks/bridge/scheduler/TemplateVariable.java:7-48 | Leap years repeat every 400 years. |
| CivilTime.CivilFromDaysOfCivil | src/main/java/org/sagebionetworks/bridge/scheduler/TemplateVariable.java:63 | Converting a valid date to its epoch day and back gives the date. |
| CivilTime.DaysFromCivilOfDays | src/main/java/org/sagebionetworks/bridge/scheduler/TemplateVariable.java:63 | Every epoch day converts to a valid date whose epoch day is that day. |
| CivilTime.PreviousDay | src/main/java/org/sagebionetworks/bridge/scheduler/TemplateVariable.java:36-48 | The calendar day before a valid date is a valid date. |
| CivilTime.PreviousDayIsOneDayEarlier | src/main/java/org/sagebionetworks/bridge/scheduler/TemplateVariable.java:36-48 | The day before is exactly one epoch day earlier, across month, year and leap-day boundaries. |
| CivilTime.DateMinusDays | src/main/java/org/sagebionetworks/bridge/scheduler/TemplateVariable.java:7-48 | Joda's minusDays(n) gives the valid date n epoch days earlier. |
| CivilTime.MinusDaysOfEpochDay | src/main/java/org/sagebionetworks/bridge/scheduler/TemplateVariable.java:7-48 | minusDays(n) yields any valid date that lies n epoch days earlier. |
| CivilTime.MinusDaysIsDaysBack | src/main/java/org/sagebionetworks/bridge/scheduler/TemplateVariable.java:22-27 | minusDays(n) equals stepping back one calendar day n times. |
| CivilTime.FromEpochMillis | src/main/java/org/sagebionetworks/bridge/scheduler/TemplateVariable.java:63 | Every epoch millisecond gives valid local fields. |
| CivilTime.EpochMillisRoundTrip | src/main/java/org/sagebionetworks/bridge/scheduler/TemplateVariable.java:63 | Splitting an epoch millisecond into fields and back gives the same millisecond, negative instants included. |
| CivilTime.LocalRoundTrip | src/main/java/org/sagebionetworks/bridge/scheduler/TemplateVariable.java:63 | Valid local fields converted to millis and back give the same fields. |
| CivilTime.WithZone | src/main/java/org/sagebionetworks/bridge/scheduler/TemplateVariable.java:63 | withZone keeps the instant: the result is in the given zone and has the same epoch millis. |
| CivilTime.WithZoneOfMillis | src/main/java/org/sagebionetworks/bridge/scheduler/TemplateVariable.java:63 | A valid date-time is withZone of its own millis and zone. |
| CivilTime.MinusDays | src/main/java/org/sagebionetworks/bridge/scheduler/TemplateVariable.java:7-48 | DateTime.minusDays keeps the date-time valid. |
| CivilTime.WithHourOfDay | src/main/java/org/sagebionetworks/bridge/scheduler/TemplateVariable.java:9 | withHourOfDay keeps the date-time valid. |
| CivilTime.WithMinuteOfHour | src/main/java/org/sagebionetworks/bridge/scheduler/TemplateVariable.java:7-34 | withMinuteOfHour keeps the date-time valid. |
| CivilTime.WithSecondOfMinute | src/main/java/org/sagebionetworks/bridge/scheduler/TemplateVariable.java:7-34 | withSecondOfMinute keeps the date-time valid. |
| CivilTime.WithMillisOfSecond | src/main/java/org/sagebionetworks/bridge/scheduler/TemplateVariable.java:7-34 | withMillisOfSecond keeps the date-time valid. |
| CivilTime.WithTimeAtStartOfDay | src/main/java/org/sagebionetworks/bridge/scheduler/TemplateVariable.java:15-41 | withTimeAtStartOfDay keeps the date-time valid. |
| IsoFormat.FormatDate | src/main/java/org/sagebionetworks/bridge/scheduler/TemplateVariable.java:46 | LocalDate.toString as yyyy-MM-dd. Specified by FormatDateLayout and DateInAlphabet. |
| IsoFormat.FormatDateTime | src/main/java/org/sagebionetworks/bridge/scheduler/TemplateVariable.java:10-39 | DateTime.toString (lines 11, 18, 25, 32, 39) as yyyy-MM-ddTHH:mm:ss.SSS+-HH:mm. Specified by FormatDateTimeLayout, DateTimeStartsWithDate and DateTimeInAlphabet. |
| IsoFormat.PaddedValue | src/main/java/org/sagebionetworks/bridge/scheduler/TemplateVariable.java:7-48 | A zero-padded field is all digits and reads back as the number it renders. |
| IsoFormat.FormatDateLayout | src/main/java/org/sagebionetworks/bridge/scheduler/TemplateVariable.java:43-48 | LocalDate.toString for years 0000-9999 is yyyy-MM-dd: ten characters whose digit fields read back as year, month and day. |
| IsoFormat.FormatTimeLayout | src/main/java/org/sagebionetworks/bridge/scheduler/TemplateVariable.java:7-41 | The time part is THH:mm:ss.SSS, and its fields read back as the local time. |
| IsoFormat.FormatOffsetLayout | src/main/java/org/sagebionetworks/bridge/scheduler/TemplateVariable.java:51 | The offset renders as Z for zero and as ±HH:MM otherwise. |
| IsoFormat.FormatDateTimeLayout | src/main/java/org/sagebionetworks/bridge/scheduler/TemplateVariable.java:7-41 | DateTime.toString is the date, then the time, then the offset, 24 or 29 characters long. |
| IsoFormat.DateTimeStartsWithDate | src/main/java/org/sagebionetworks/bridge/scheduler/TemplateVariable.java:7-48 | A rendered date-time starts with its rendered date. |
| IsoFormat.DateTimeInAlphabet | src/main/java/org/sagebionetworks/bridge/scheduler/TemplateVariable.java:7-41 | A rendered date-time uses only digits and `- : T . + Z`. |
| IsoFormat.DateInAlphabet | src/main/java/org/sagebionetworks/bridge/scheduler/TemplateVariable.java:43-48 | A rendered date uses only digits and '-'. |
| TemplateExamples.TestInstantFields | src/test/java/org/sagebionetworks/bridge/scheduler/TemplateVariableTest.java:9 | 2018-03-28T04:21:45.862Z has those UTC fields, and in Los Angeles it is 2018-03-27T21:21:45.862. |
| TemplateExamples.OffsetText | src/main/java/org/sagebionetworks/bridge/scheduler/TemplateVariable.java:51 | The local zone renders as -07:00. |
| TemplateExamples.TestDaysBefore | src/test/java/org/sagebionetworks/bridge/scheduler/TemplateVariableTest.java:12-47 | The day before 2018-03-27 is 2018-03-26, and seven days back is 2018-03-20. |
| TemplateExamples.TestEndOfPreviousDay | src/test/java/org/sagebionetworks/bridge/scheduler/TemplateVariableTest.java:11-15 | Resolving `${endOfPreviousDay}` at the test instant gives 2018-03-26T23:59:59.999-07:00. |
| TemplateExamples.TestStartOfDay | src/test/java/org/sagebionetworks/bridge/scheduler/TemplateVariableTest.java:23-27 | Resolving `${startOfDay}` gives 2018-03-27T00:00:00.000-07:00. |
| TemplateExamples.TestStartOfDayOneWeekAgo | src/test/java/org/sagebionetworks/bridge/scheduler/TemplateVariableTest.java:29-34 | Resolving `${startOfDayOneWeekAgo}` gives 2018-03-20T00:00:00.000-07:00. |
| TemplateExamples.TestStartOfHour | src/test/java/org/sagebionetworks/bridge/scheduler/TemplateVariableTest.java:36-40 | Resolving `${startOfHour}` gives 2018-03-27T21:00:00.000-07:00. |
| TemplateExamples.TestStartOfPreviousDay | src/test/java/org/sagebionetworks/bridge/scheduler/TemplateVariableTest.java:42-47 | Resolving `${startOfPreviousDay}` gives 2018-03-26T00:00:00.000-07:00. |
| TemplateExamples.TestYesterdaysDate | src/test/java/org/sagebionetworks/bridge/scheduler/TemplateVariableTest.java:55-59 | Resolving `${yesterdaysDate}` gives 2018-03-26. |
| TemplateExamples.TestTemplateWithText | src/test/java/org/sagebionetworks/bridge/scheduler/TemplateVariableTest.java:61-66 | The text around the token is kept: "before 2018-03-26 after". |
| TemplateExamples.TestMultipleInstances | src/test/java/org/sagebionetworks/bridge/scheduler/TemplateVariableTest.java:68-73 | Both instances of the token are replaced. |
| TemplateExamples.TestIgnoresOtherVariables | src/test/java/org/sagebionetworks/bridge/scheduler/TemplateVariableTest.java:75-79 | `${badVar}` passes through yesterdaysDate, and through every declared variable, unchanged. |
| TemplateExamples.DateTimeText | src/main/java/org/sagebionetworks/bridge/scheduler/TemplateVariable.java:51 | A Los Angeles date-time renders as its date, its time and -07:00. |
| SchedulerExamples.MinuteGrid | src/test/java/org/sagebionetworks/bridge/scheduler/BridgeMasterSchedulerTest.java:57-207 | The stand-in's grids of whole minutes fall on whole seconds. |
| SchedulerExamples.TestQuartzLawful | src/test/java/org/sagebionetworks/bridge/scheduler/BridgeMasterSchedulerTest.java:57-207 | The cron stand-in used for the test scenarios fires strictly after the instant asked about, on a whole second. |
| SchedulerExamples.TestQuartzCoherent | src/test/java/org/sagebionetworks/bridge/scheduler/BridgeMasterSchedulerTest.java:57-207 | The cron stand-in's next firing after an instant is the earliest one: asking from any instant before that firing gives the same firing. |
| SchedulerExamples.HalfHourlyWindow | src/test/java/org/sagebionetworks/bridge/scheduler/BridgeMasterSchedulerTest.java:57-86 | A half-hourly cron has exactly one firing in (18:30, 19:00], at 19:00. |
| SchedulerExamples.QuarterPastAndToWindow | src/test/java/org/sagebionetworks/bridge/scheduler/BridgeMasterSchedulerTest.java:106-133 | A cron at :15 and :45 has exactly one firing in (18:30, 19:00], at 18:45. |
| SchedulerExamples.BasicCaseRun | src/test/java/org/sagebionetworks/bridge/scheduler/BridgeMasterSchedulerTest.java:57-86 | basicCase: the window starts at the stored 18:30, one request at 19:00 goes to queue 1, and the row written holds 18:30 (see Findings). |
| SchedulerExamples.InitialRunRun | src/test/java/org/sagebionetworks/bridge/scheduler/BridgeMasterSchedulerTest.java:88-104 | initialRun: with no status row the window is the last hour, and the one firing at 18:15 sends one request to queue 1. |
| SchedulerExamples.MultipleSchedulesRun | src/test/java/org/sagebionetworks/bridge/scheduler/BridgeMasterSchedulerTest.java:106-133 | multipleSchedules: config 1's 19:00 request goes out, then config 2's 18:45 request, and the run completes. |
| SchedulerExamples.SingleScheduleWithMultipleEventsRun | src/test/java/org/sagebionetworks/bridge/scheduler/BridgeMasterSchedulerTest.java:135-155 | singleScheduleWithMultipleEvents: a quarter-hourly cron fires at 18:45 and at 19:00, and both requests are sent in that order. |
| SchedulerExamples.NoEventsRun | src/test/java/org/sagebionetworks/bridge/scheduler/BridgeMasterSchedulerTest.java:157-175 | noEvents: the next firing at 19:15 is after now, so nothing is sent and the run completes, whatever the client. |
| SchedulerExamples.ErrorHandlingRun | src/test/java/org/sagebionetworks/bridge/scheduler/BridgeMasterSchedulerTest.java:177-207 | errorHandling as the code runs it: the send to queue 1 throws, and the run ends with nothing sent. |
| Findings.FireTimesIgnoreStart | src/main/java/org/sagebionetworks/bridge/scheduler/BridgeMasterScheduler.java:105-120 | With a lawful cron, enumerating from an instant at or after both starts, the firings depend on the trigger's cron and end time and not on its start. |
| Findings.FireTimeAfterSplit | src/main/java/org/sagebionetworks/bridge/scheduler/BridgeMasterScheduler.java:106-112 | With a lawful, coherent cron and e1 <= e2, the next firing under end e2 is the next under end e1 when it is no later than e1. Otherwise there is none under e1, and it is also the next firing under e2 after e1. |
| Findings.FireTimesSplit | src/main/java/org/sagebionetworks/bridge/scheduler/BridgeMasterScheduler.java:109-120 | For a lawful, coherent cron enumerated from at or after the start, the firings up to e2 are those up to e1 followed by those after e1. |
| Findings.ProcessingTimesSplit | src/main/java/org/sagebionetworks/bridge/scheduler/BridgeMasterScheduler.java:97-123 | For a lawful, coherent cron and s <= m <= e, the processing times of (s, e] are those of (s, m] followed by those of (m, e]. |
| Findings.AsWrittenWindowNeverAdvances | src/main/java/org/sagebionetworks/bridge/scheduler/BridgeMasterScheduler.java:92-94 | As written, the next run starts where this one started, so the firings this run sent are again the first firings of the next run. |
| Findings.BasicCaseRepeats | src/test/java/org/sagebionetworks/bridge/scheduler/BridgeMasterSchedulerTest.java:80-85 | After basicCase the stored time is still 18:30, not 19:00. Half an hour later the 19:00 firing is listed again, before 19:30. |
| Findings.CorrectedStatus | src/test/java/org/sagebionetworks/bridge/scheduler/BridgeMasterSchedulerTest.java:85 | The corrected row stores now, so the next window starts at now, whenever it runs. Other rows are kept. |
| Findings.CorrectedRunsPartitionFirings | src/main/java/org/sagebionetworks/bridge/scheduler/BridgeMasterScheduler.java:57-95 | With the corrected row, two successive runs list each firing of the joined window exactly once, in order: all of the first run's firings come before the second's. |
| Findings.CorrectedSecondRun | src/main/java/org/sagebionetworks/bridge/scheduler/BridgeMasterScheduler.java:57-95 | With the corrected row, when the whole span lists first followed by rest and the first run lists first, the second run lists exactly rest. |
| Findings.BasicCaseCorrected | src/test/java/org/sagebionetworks/bridge/scheduler/BridgeMasterSchedulerTest.java:80-85 | basicCase with the corrected row: the 19:30 run lists only 19:30. As written, it lists 19:00 first. |
| Findings.AsWrittenFailureStopsLaterConfigs | src/main/java/org/sagebionetworks/bridge/scheduler/BridgeMasterScheduler.java:79-90 | As written, an exception in config j ends the run, which sends no more than the configs up to j would each have sent on their own. |
| Findings.IsolatedSentConcat | src/test/java/org/sagebionetworks/bridge/scheduler/BridgeMasterSchedulerTest.java:177-207 | With per-config isolation, the run over a + b sends the run over a, then the run over b. |
| Findings.IsolatedSentAround | src/test/java/org/sagebionetworks/bridge/scheduler/BridgeMasterSchedulerTest.java:177-207 | With isolation, config j's own messages appear between the earlier and the later configs' messages, whatever fails. |
| Findings.AsWrittenIsPrefixOfIsolated | src/main/java/org/sagebionetworks/bridge/scheduler/BridgeMasterScheduler.java:79-90 | The run as written sends a prefix of what the isolated run sends, and the same when no exception occurs. |
| Findings.ErrorHandlingIsolated | src/test/java/org/sagebionetworks/bridge/scheduler/BridgeMasterSchedulerTest.java:198-205 | errorHandling, isolated: queue 1 throws and config 2's 18:45 request to queue 2 is still sent, as the test expects. |
| Findings.ResolveAllFixed | src/main/java/org/sagebionetworks/bridge/scheduler/BridgeMasterScheduler.java:132-134 | A template left unchanged by each variable is left unchanged by the whole fold. |
| Findings.TokensApart | src/main/java/org/sagebionetworks/bridge/scheduler/TemplateVariable.java:55-57 | No declared variable's pattern can match at the start of `${processTime}` or `${todaysDate}`. |
| Findings.MissingTokensKept | src/main/java/org/sagebionetworks/bridge/scheduler/TemplateVariable.java:67 | Replacing any declared variable's pattern, by any text, leaves a '$'-free prefix followed by `${processTime}` or `${todaysDate}` unchanged. A prefix holding a token, such as `${startOfDay}${processTime}`, is not covered. |
| Findings.MissingTokensFixed | src/main/java/org/sagebionetworks/bridge/scheduler/TemplateVariable.java:61-68 | No list of declared variables changes such a template. |
| Findings.AsWrittenKeepsMissingTokens | src/main/java/org/sagebionetworks/bridge/scheduler/BridgeMasterScheduler.java:131-134 | As written, process() sends `${processTime}` and `${todaysDate}` verbatim. |
| Findings.InitialRunAsWritten | src/test/java/org/sagebionetworks/bridge/scheduler/BridgeMasterSchedulerTest.java:102 | initialRun as written sends "request-1 ${processTime}", not the expected date-time. |
| Findings.Lifted | src/main/java/org/sagebionetworks/bridge/scheduler/TemplateVariable.java:7-48 | The declared variables, in order, embedded among the tested ones. |
| Findings.DeclaredFirst | src/main/java/org/sagebionetworks/bridge/scheduler/BridgeMasterScheduler.java:132-134 | In the corrected fold, the declared variables resolve exactly as the code resolves them. |
| Findings.CorrectedExtendsDeclared | src/main/java/org/sagebionetworks/bridge/scheduler/BridgeMasterScheduler.java:131-134 | The corrected resolver is the code's resolver followed by processTime and todaysDate. |
| Findings.ResolveTestedWithoutStart | src/main/java/org/sagebionetworks/bridge/scheduler/TemplateVariable.java:61-68 | No variable, old or new, changes text without '$'. |
| Findings.ResolveTestedAfterText | src/main/java/org/sagebionetworks/bridge/scheduler/TemplateVariable.java:61-68 | A token after '$'-free text is replaced by the variable's value. |
| Findings.ProcessTimeValueIsInstant | src/test/java/org/sagebionetworks/bridge/scheduler/TemplateVariableTest.java:17-21 | processTime's value is the processing instant's own ISO rendering, and it contains no '$'. |
| Findings.ProcessTimeReplaced | src/test/java/org/sagebionetworks/bridge/scheduler/TemplateVariableTest.java:17-21 | `${processTime}` after '$'-free text is replaced by the instant, and todaysDate then changes nothing. |
| Findings.CorrectedProcessTimeBody | src/test/java/org/sagebionetworks/bridge/scheduler/BridgeMasterSchedulerTest.java:102 | The corrected resolver turns `prefix${processTime}` into the prefix followed by the instant in Los Angeles time. |
| Findings.InitialRunCorrected | src/test/java/org/sagebionetworks/bridge/scheduler/BridgeMasterSchedulerTest.java:88-104 | initialRun, corrected: the 18:15 request is "request-1 2018-03-27T18:15:00.000-07:00", as the test expects. |
| Findings.ResolveTestedTokenOnly | src/main/java/org/sagebionetworks/bridge/scheduler/TemplateVariable.java:61-68 | A template that is just a tested variable's token becomes its value. |
| Findings.TestProcessTime | src/test/java/org/sagebionetworks/bridge/scheduler/TemplateVariableTest.java:17-21 | Corrected processTime at the test instant is 2018-03-27T21:21:45.862-07:00. |
| Findings.TodaysDateValue | src/test/java/org/sagebionetworks/bridge/scheduler/TemplateVariableTest.java:49-53 | todaysDate at any valid instant is the ISO rendering of its local date, which is the first ten characters of processTime at the same instant when the year has four digits. At the test's local time it is 2018-03-27. |
| Findings.TestTodaysDate | src/test/java/org/sagebionetworks/bridge/scheduler/TemplateVariableTest.java:49-53 | Corrected todaysDate at the test instant is 2018-03-27. |

## Left out

- Time zones: America/Los_Angeles (TemplateVariable.java line 51) is reduced to the fixed offset -07:00, its daylight-saving offset on the test dates. The tz database and daylight-saving transitions are not modelled.
- Quartz: cron parsing and cron semantics are an uninterpreted library value (`Cron.CronLibrary`: whether a string parses, and next firing after an instant). Properties that depend on the semantics assume the library is lawful (each firing lies on a whole second after the instant asked about) or coherent (no firing in (a, b] means the next firing after a and after b agree). The trigger itself is modelled concretely from Quartz's CronTriggerImpl, whose source is not part of the repository: setStartTime clears the milliseconds, setEndTime throws when that start is after the end, and getFireTimeAfter moves an instant before the start to a second before it, returns nothing from the end time on, and cuts off firings after the end time. The scenarios use a stand-in that computes the four expressions the tests use on a grid.
- `inTimeZone(UTC)` on the trigger: instants are epoch milliseconds, so the zone plays no part.
- DynamoDB: the config table is a sequence in scan order, and `scanDdbTable` is the read of that field. The status table is a map from hash key to numeric attributes. Item parsing, missing string attributes and string attributes in general are not modelled.
- SQS: the client is a predicate saying which sends throw. The model records only the messages accepted, in order.
- The clock: `DateTime.now(UTC)` (line 59) becomes the `nowUtc` parameter of `Schedule`.
- Logging (lines 74-75 and 137-138) and `printStackTrace` in the IOException handler (lines 86-89) are left out. No code in the try block throws IOException, so the handler is never taken. Every other exception ends the run, which the model returns as a `RunError`.
- Exceptions carry only the schedule id (and, for a failed send, the queue URL), not their message text.
- Java long overflow of millisecond arithmetic: integers are unbounded. Every instant in the scenarios is far from the limits.
- `SchedulerLauncher.java` is not part of this model (construction from the environment and the AWS clients).
- Scheduler.BridgeMasterScheduler.Process: the resolver is a constant fixed at construction, equal to `RESOLVE_TEMPLATE`, the fold over `TemplateVariable.values()`. The resolve loop itself is the method `Scheduler.ResolveTemplate`. Splitting them keeps every send's verification independent of the calendar.
- The body of `schedule()`'s config loop is split into the methods `ProcessConfigs` (the loop over configs) and `ProcessConfig` (one try block). Together they are the loop at lines 78-90.
- Two operations are modelled on values rather than in place:
  - `Templates.Resolve`: String.replace returns a new string.
  - `getReplacementValue` is the function `Templates.ReplacementValue`.

## Findings

| source | as written | input that shows it | evidently intended | confidence | as-written member | corrected member |
|---|---|---|---|---|---|---|
| src/main/java/org/sagebionetworks/bridge/scheduler/BridgeMasterScheduler.java:93-94 | The status row written after a run holds `lastProcessedTimeUtc`, the start of the window just processed. | basicCase (BridgeMasterSchedulerTest.java lines 57-86): stored 18:30, now 19:00. The row written holds 18:30, while line 85 expects MOCK_NOW (19:00). A run at 19:30 lists the 19:00 firing again. | Store `nowUtc`, so that successive windows meet and each firing is sent once. | not executed | Findings.AsWrittenWindowNeverAdvances, Findings.BasicCaseRepeats | Findings.CorrectedStatus, Findings.CorrectedRunsPartitionFirings, Findings.BasicCaseCorrected |
| src/main/java/org/sagebionetworks/bridge/scheduler/BridgeMasterScheduler.java:80-89 | The try block around each config catches only IOException. The RuntimeException a send throws therefore ends the whole run, skips the later configs and skips the status write. | errorHandling (BridgeMasterSchedulerTest.java lines 177-207): sends to queue 1 throw (line 198), line 204 expects the failed send to queue 1, and line 205 expects config 2's send to queue 2 as well. | Catch every exception per config, so that one failing config does not stop the others. | not executed | Findings.AsWrittenFailureStopsLaterConfigs, SchedulerExamples.ErrorHandlingRun | Findings.IsolatedSentAround, Findings.AsWrittenIsPrefixOfIsolated, Findings.ErrorHandlingIsolated |
| src/main/java/org/sagebionetworks/bridge/scheduler/TemplateVariable.java:7-48 | The enum declares six variables, with no `processTime` and no `todaysDate`. | TemplateVariableTest.java lines 17-21 and 49-53 use `PROCESS_TIME` and `TODAYS_DATE`. initialRun (BridgeMasterSchedulerTest.java line 102) expects "request-1 ${processTime}" to be sent as "request-1 2018-03-27T18:15:00.000-07:00", but as written it is sent verbatim. | Two more variables: processTime renders the processing instant, and todaysDate its local date. | not executed | Findings.AsWrittenKeepsMissingTokens, Findings.InitialRunAsWritten | Findings.CorrectedProcessTimeBody, Findings.InitialRunCorrected, Findings.TestProcessTime, Findings.TestTodaysDate |
