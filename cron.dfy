/** Quartz cron triggers, reduced to what the scheduler relies on: whether a
    cron string parses, the cron's next firing after an instant, and the
    trigger's start and end times. Instants are epoch milliseconds in UTC. */
module Cron {
  datatype Option<T> = None | Some(value: T)

  /** The cron library, left uninterpreted: `parses` says whether
      CronScheduleBuilder.cronSchedule accepts the string, and `timeAfter`
      is the expression's next firing after an instant (None when it never
      fires again). */
  datatype CronLibrary = CronLibrary(parses: string -> bool, timeAfter: (string, int) -> Option<int>)

  /** A cron's next firing lies strictly after the instant asked about, on
      a whole second (CronExpression.getTimeAfter clears the milliseconds). */
  ghost predicate Lawful(lib: CronLibrary) {
    forall cron: string, after: int :: lib.timeAfter(cron, after).Some? ==>
      lib.timeAfter(cron, after).value > after && lib.timeAfter(cron, after).value % 1000 == 0
  }

  /** The next firing is the earliest one: when the cron does not fire in
      (a, b], the next firing after b is the next firing after a. */
  ghost predicate Coherent(lib: CronLibrary) {
    forall cron: string, a: int, b: int
      {:trigger lib.timeAfter(cron, a), lib.timeAfter(cron, b)} ::
      a <= b && (lib.timeAfter(cron, a).None? || lib.timeAfter(cron, a).value > b)
      ==> lib.timeAfter(cron, b) == lib.timeAfter(cron, a)
  }

  /** A cron trigger with the start and end time the scheduler passes to
      setStartTime and setEndTime. */
  datatype Trigger = Trigger(cronSchedule: string, startTime: int, endTime: int)

  /** The start setStartTime stores: the instant with its milliseconds
      cleared, rounded down also before the epoch. */
  function StoredStart(trigger: Trigger): (r: int)
    ensures r <= trigger.startTime < r + 1000 && r % 1000 == 0
  {
    trigger.startTime - trigger.startTime % 1000
  }

  /** setEndTime throws IllegalArgumentException when the stored start lies
      after the end. */
  predicate EndBeforeStart(trigger: Trigger) {
    StoredStart(trigger) > trigger.endTime
  }

  /** The instant getFireTimeAfter asks the cron about: a second before the
      stored start when `after` precedes that start, else `after` itself. */
  function ClampedAfter(trigger: Trigger, after: int): int {
    if StoredStart(trigger) > after then StoredStart(trigger) - 1000 else after
  }

  /** getFireTimeAfter: nothing once `after` has reached the end time;
      otherwise the cron's next firing after the clamped instant, or nothing
      when that firing would fall after the end time. */
  function FireTimeAfter(lib: CronLibrary, trigger: Trigger, after: int): (r: Option<int>)
    ensures ClampedAfter(trigger, after) >= trigger.endTime ==> r.None?
    ensures r.Some? ==> r.value <= trigger.endTime
    ensures r.Some? ==> r == lib.timeAfter(trigger.cronSchedule, ClampedAfter(trigger, after))
    ensures ClampedAfter(trigger, after) < trigger.endTime
            && lib.timeAfter(trigger.cronSchedule, ClampedAfter(trigger, after)).Some?
            && lib.timeAfter(trigger.cronSchedule, ClampedAfter(trigger, after)).value <= trigger.endTime
            ==> r.Some?
    ensures Lawful(lib) && r.Some? ==> after < r.value && StoredStart(trigger) <= r.value
  {
    var a := ClampedAfter(trigger, after);
    if a >= trigger.endTime then None
    else
      var pot := lib.timeAfter(trigger.cronSchedule, a);
      if pot.Some? && pot.value > trigger.endTime then None else pot
  }

  /** The instant reached by k successive getFireTimeAfter calls from a
      (a itself after none); None once a call has come back empty. */
  function Steps(lib: CronLibrary, trigger: Trigger, a: int, k: nat): Option<int>
    decreases k
  {
    if k == 0 then Some(a)
    else match FireTimeAfter(lib, trigger, a)
      case None => None
      case Some(t) => Steps(lib, trigger, t, k - 1)
  }

  /** Every firing reached from a lies after a and no later than the end
      time, and successive firings strictly increase. */
  lemma {:induction false} StepsIncrease(lib: CronLibrary, trigger: Trigger, a: int, k: nat)
    requires Lawful(lib) && k > 0 && Steps(lib, trigger, a, k).Some?
    ensures a < Steps(lib, trigger, a, k).value <= trigger.endTime
    ensures Steps(lib, trigger, a, k - 1).Some?
    ensures Steps(lib, trigger, a, k - 1).value < Steps(lib, trigger, a, k).value
    decreases k
  {
    var t := FireTimeAfter(lib, trigger, a).value;
    if k > 1 {
      StepsIncrease(lib, trigger, t, k - 1);
    }
  }
}
