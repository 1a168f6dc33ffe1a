/** Proleptic Gregorian calendar arithmetic on epoch days and epoch milliseconds,
    the part of Joda-Time that the template variables rely on. Days are counted
    from 1970-01-01; the conversion uses 400-year eras that start on 1 March. */
module CivilTime {

  const MS_PER_SECOND: int := 1000
  const MS_PER_MINUTE: int := 60000
  const MS_PER_HOUR: int := 3600000
  const MS_PER_DAY: int := 86400000

  /** Days in a 400-year era, and the epoch day of 0000-03-01 (negated). */
  const DAYS_PER_ERA: int := 146097
  const EPOCH_SHIFT: int := 719468

  datatype Date = Date(year: int, month: int, day: int)

  predicate IsLeapYear(y: int) {
    y % 4 == 0 && (y % 100 != 0 || y % 400 == 0)
  }

  function DaysInMonth(y: int, m: int): (n: int)
    requires 1 <= m <= 12
    ensures 28 <= n <= 31
    ensures m == 2 ==> (n == 29 <==> IsLeapYear(y))
  {
    if m == 2 then (if IsLeapYear(y) then 29 else 28)
    else if m == 4 || m == 6 || m == 9 || m == 11 then 30
    else 31
  }

  predicate ValidDate(d: Date) {
    1 <= d.month <= 12 && 1 <= d.day <= DaysInMonth(d.year, d.month)
  }

  // ---------------------------------------------------------------------
  // Era arithmetic. A "March year" runs from 1 March to the end of February;
  // within an era, year-of-era yoe (0..399) starts on day DaysBeforeYearOfEra(yoe).

  function DaysBeforeYearOfEra(yoe: int): int {
    365 * yoe + yoe / 4 - yoe / 100
  }

  /** Days before the start of March-based month mp (0 = March, ..., 11 = February). */
  function DaysBeforeMonth(mp: int): int {
    (153 * mp + 2) / 5
  }

  function MarchMonth(m: int): int
    requires 1 <= m <= 12
  {
    if m > 2 then m - 3 else m + 9
  }

  /** Epoch day of a calendar date. */
  function DaysFromCivil(d: Date): int
    requires ValidDate(d)
  {
    var y := if d.month <= 2 then d.year - 1 else d.year;
    var era := y / 400;
    var yoe := y % 400;
    var doy := DaysBeforeMonth(MarchMonth(d.month)) + d.day - 1;
    era * DAYS_PER_ERA + DaysBeforeYearOfEra(yoe) + doy - EPOCH_SHIFT
  }

  /** Year of era of day-of-era doe. */
  function YearOfEra(doe: int): int {
    (doe - doe / 1460 + doe / 36524 - doe / 146096) / 365
  }

  /** Calendar date of an epoch day. */
  function CivilFromDays(z: int): Date {
    var z' := z + EPOCH_SHIFT;
    DateOfEraDay(z' / DAYS_PER_ERA, z' % DAYS_PER_ERA)
  }

  /** Calendar date of day doe of era era. */
  function DateOfEraDay(era: int, doe: int): Date {
    var yoe := YearOfEra(doe);
    DateOfYearDay(era, yoe, doe - DaysBeforeYearOfEra(yoe))
  }

  /** Calendar date of day doy of March year yoe of era era. */
  function DateOfYearDay(era: int, yoe: int, doy: int): Date {
    var mp := (5 * doy + 2) / 153;
    var day := doy - DaysBeforeMonth(mp) + 1;
    var month := if mp < 10 then mp + 3 else mp - 9;
    Date(yoe + era * 400 + (if month <= 2 then 1 else 0), month, day)
  }

  /** Length of March year yoe of an era: it holds February of era year yoe + 1. */
  function YearLength(yoe: int): int {
    365 + (if IsLeapYear(yoe + 1) then 1 else 0)
  }

  lemma YearSplit(yoe: int)
    requires 0 <= yoe <= 399
    ensures var c, q, r := yoe / 100, yoe % 100 / 4, yoe % 4;
      0 <= c <= 3 && 0 <= q <= 24 && yoe == 100 * c + 4 * q + r
      && DaysBeforeYearOfEra(yoe) == 36524 * c + 1461 * q + 365 * r
      && (IsLeapYear(yoe + 1) <==> r == 3 && (q != 24 || c == 3))
  {
    var c, q, r := yoe / 100, yoe % 100 / 4, yoe % 4;
    assert yoe == 100 * c + 4 * q + r;
    assert yoe / 4 == 25 * c + q;
  }

  lemma YearOfEraAt(c: int, q: int, r: int, doy: int)
    requires 0 <= c <= 3 && 0 <= q <= 24 && 0 <= r <= 3
    requires 0 <= doy < 365 + (if r == 3 && (q != 24 || c == 3) then 1 else 0)
    ensures YearOfEra(36524 * c + 1461 * q + 365 * r + doy) == 100 * c + 4 * q + r
  {
    var doe := 36524 * c + 1461 * q + 365 * r + doy;
    var e := (24 * c + q + 365 * r + doy) / 1460;
    assert 0 <= e <= 1;
    assert doe / 1460 == 25 * c + q + e;
    if doe == 146096 {
      assert doe / 36524 == 4 && doe / 146096 == 1;
    } else {
      assert doe / 36524 == c && doe / 146096 == 0;
    }
    assert doe - doe / 1460 + doe / 36524 - doe / 146096 == 365 * (100 * c + 4 * q + r) + (doy - e);
  }

  lemma YearOfEraBounds(doe: int)
    requires 0 <= doe < DAYS_PER_ERA
    ensures var yoe := YearOfEra(doe);
      0 <= yoe <= 399 && DaysBeforeYearOfEra(yoe) <= doe < DaysBeforeYearOfEra(yoe) + YearLength(yoe)
  {
    var c := if doe / 36524 < 3 then doe / 36524 else 3;
    var rc := doe - 36524 * c;
    var q := rc / 1461;
    var rq := rc - 1461 * q;
    var r := if rq / 365 < 3 then rq / 365 else 3;
    var doy := rq - 365 * r;
    assert 0 <= rc <= 36524 && (c < 3 ==> rc < 36524);
    assert 0 <= q <= 24 && 0 <= rq < 1461;
    assert c < 3 && q == 24 ==> rq < 1460;
    assert 0 <= r <= 3 && 0 <= doy && (r < 3 ==> doy < 365);
    assert doe == 36524 * c + 1461 * q + 365 * r + doy;
    YearOfEraAt(c, q, r, doy);
    var yoe := 100 * c + 4 * q + r;
    assert YearOfEra(doe) == yoe;
    YearSplit(yoe);
    assert yoe / 100 == c && yoe % 100 / 4 == q && yoe % 4 == r;
  }

  lemma YearOfEraOf(yoe: int, doy: int)
    requires 0 <= yoe <= 399 && 0 <= doy < YearLength(yoe)
    ensures YearOfEra(DaysBeforeYearOfEra(yoe) + doy) == yoe
  {
    YearSplit(yoe);
    YearOfEraAt(yoe / 100, yoe % 100 / 4, yoe % 4, doy);
  }

  lemma LeapYearPeriodic(era: int, k: int)
    ensures IsLeapYear(era * 400 + k) == IsLeapYear(k)
  {
    var y := era * 400 + k;
    Mod4Shift(y, era * 100, k);
    Mod100Shift(y, era * 4, k);
    Mod400Shift(y, era, k);
  }

  lemma Mod4Shift(y: int, t: int, k: int)
    requires y == 4 * t + k
    ensures y % 4 == k % 4
  {
  }

  lemma Mod100Shift(y: int, t: int, k: int)
    requires y == 100 * t + k
    ensures y % 100 == k % 100
  {
  }

  lemma Mod400Shift(y: int, t: int, k: int)
    requires y == 400 * t + k
    ensures y % 400 == k % 400
  {
  }

  /** March-based month mp of day-of-year doy. */
  lemma MonthOfYearBounds(doy: int)
    requires 0 <= doy <= 365
    ensures var mp := (5 * doy + 2) / 153;
      0 <= mp <= 11 && DaysBeforeMonth(mp) <= doy < DaysBeforeMonth(mp + 1)
  {
  }

  lemma MonthOfYearOf(m: int, day: int)
    requires 1 <= m <= 12 && 1 <= day <= 31
    requires m == 2 ==> day <= 29
    requires m == 4 || m == 6 || m == 9 || m == 11 ==> day <= 30
    ensures var doy := DaysBeforeMonth(MarchMonth(m)) + day - 1;
      (5 * doy + 2) / 153 == MarchMonth(m) && 0 <= doy <= 365
      && (m == 2 ==> doy == 336 + day)
  {
  }

  lemma EraDiv(era: int, doe: int)
    requires 0 <= doe < DAYS_PER_ERA
    ensures (era * DAYS_PER_ERA + doe) / DAYS_PER_ERA == era
    ensures (era * DAYS_PER_ERA + doe) % DAYS_PER_ERA == doe
  {
  }

  /** CivilFromDays on a day given by era and day of era. */
  lemma CivilFromEra(era: int, doe: int, z: int)
    requires 0 <= doe < DAYS_PER_ERA && z == era * DAYS_PER_ERA + doe - EPOCH_SHIFT
    ensures CivilFromDays(z) == DateOfEraDay(era, doe)
  {
    EraDiv(era, doe);
  }

  /** CivilFromDays on a day given by era, year of era and day of March year. */
  lemma CivilFromEraDay(era: int, yoe: int, doy: int, z: int)
    requires 0 <= yoe <= 399 && 0 <= doy < YearLength(yoe)
    requires z == era * DAYS_PER_ERA + DaysBeforeYearOfEra(yoe) + doy - EPOCH_SHIFT
    ensures CivilFromDays(z) == DateOfYearDay(era, yoe, doy)
  {
    var doe := DaysBeforeYearOfEra(yoe) + doy;
    assert 0 <= doe < DAYS_PER_ERA by {
      YearSplit(yoe);
    }
    CivilFromEra(era, doe, z);
    YearOfEraOf(yoe, doy);
    EraDayOfYearDay(era, yoe, doy);
  }

  lemma EraDayOfYearDay(era: int, yoe: int, doy: int)
    requires YearOfEra(DaysBeforeYearOfEra(yoe) + doy) == yoe
    ensures DateOfEraDay(era, DaysBeforeYearOfEra(yoe) + doy) == DateOfYearDay(era, yoe, doy)
  {
  }

  /** Calendar date, then epoch day, then calendar date again is the identity. */
  lemma {:induction false} CivilFromDaysOfCivil(d: Date)
    requires ValidDate(d)
    ensures CivilFromDays(DaysFromCivil(d)) == d
  {
    var y := if d.month <= 2 then d.year - 1 else d.year;
    var era, yoe := y / 400, y % 400;
    var doy := DaysBeforeMonth(MarchMonth(d.month)) + d.day - 1;
    MonthOfYearOf(d.month, d.day);
    LeapYearPeriodic(era, yoe + 1);
    assert y + 1 == era * 400 + (yoe + 1);
    assert doy < YearLength(yoe);
    var z := DaysFromCivil(d);
    assert z == era * DAYS_PER_ERA + DaysBeforeYearOfEra(yoe) + doy - EPOCH_SHIFT;
    CivilFromEraDay(era, yoe, doy, z);
    YearDayOfDate(d, era, yoe, doy);
  }

  /** A date read back from its era, year of era and day of March year. */
  lemma YearDayOfDate(d: Date, era: int, yoe: int, doy: int)
    requires ValidDate(d)
    requires era * 400 + yoe == (if d.month <= 2 then d.year - 1 else d.year)
    requires doy == DaysBeforeMonth(MarchMonth(d.month)) + d.day - 1
    requires (5 * doy + 2) / 153 == MarchMonth(d.month)
    ensures DateOfYearDay(era, yoe, doy) == d
  {
  }

  lemma MonthLengthMarch(y: int, mp: int)
    requires 0 <= mp <= 10
    ensures var month := if mp < 10 then mp + 3 else mp - 9;
      DaysBeforeMonth(mp + 1) - DaysBeforeMonth(mp) == DaysInMonth(y, month)
  {
  }

  lemma YearDiv(y: int, era: int, yoe: int)
    requires 0 <= yoe <= 399 && y == era * 400 + yoe
    ensures y / 400 == era && y % 400 == yoe
  {
  }

  /** DaysFromCivil on a date given by era, year of era and day of March year. */
  lemma DaysFromEraDay(era: int, yoe: int, doy: int, d: Date)
    requires 0 <= yoe <= 399 && 0 <= doy <= 365 && ValidDate(d)
    requires var mp := (5 * doy + 2) / 153;
      d.month == (if mp < 10 then mp + 3 else mp - 9)
      && d.day == doy - DaysBeforeMonth(mp) + 1
      && d.year == yoe + era * 400 + (if d.month <= 2 then 1 else 0)
    ensures DaysFromCivil(d) == era * DAYS_PER_ERA + DaysBeforeYearOfEra(yoe) + doy - EPOCH_SHIFT
  {
    var y := if d.month <= 2 then d.year - 1 else d.year;
    YearDiv(y, era, yoe);
    assert MarchMonth(d.month) == (5 * doy + 2) / 153;
  }

  /** Every epoch day names a valid date, and converting back gives the same day. */
  lemma {:induction false} DaysFromCivilOfDays(z: int)
    ensures ValidDate(CivilFromDays(z))
    ensures DaysFromCivil(CivilFromDays(z)) == z
  {
    var z' := z + EPOCH_SHIFT;
    var era, doe := z' / DAYS_PER_ERA, z' % DAYS_PER_ERA;
    YearOfEraBounds(doe);
    var yoe := YearOfEra(doe);
    var doy := doe - DaysBeforeYearOfEra(yoe);
    assert z == era * DAYS_PER_ERA + DaysBeforeYearOfEra(yoe) + doy - EPOCH_SHIFT;
    MonthOfYearBounds(doy);
    var mp := (5 * doy + 2) / 153;
    var month := if mp < 10 then mp + 3 else mp - 9;
    var day := doy - DaysBeforeMonth(mp) + 1;
    var year := yoe + era * 400 + (if month <= 2 then 1 else 0);
    CivilFromEraDay(era, yoe, doy, z);
    assert CivilFromDays(z) == Date(year, month, day);
    if mp == 11 {
      LeapYearPeriodic(era, yoe + 1);
      assert year == era * 400 + (yoe + 1);
      assert DaysInMonth(year, month) == YearLength(yoe) - 337;
    } else {
      MonthLengthMarch(year, mp);
    }
    assert ValidDate(Date(year, month, day));
    DaysFromEraDay(era, yoe, doy, Date(year, month, day));
  }

  // ---------------------------------------------------------------------
  // Day steps.

  /** The calendar day before d, stated month by month (an independent
      reference for subtracting days through epoch-day arithmetic). */
  function PreviousDay(d: Date): (p: Date)
    requires ValidDate(d)
    ensures ValidDate(p)
  {
    if d.day > 1 then Date(d.year, d.month, d.day - 1)
    else if d.month > 1 then Date(d.year, d.month - 1, DaysInMonth(d.year, d.month - 1))
    else Date(d.year - 1, 12, 31)
  }

  /** Joda's LocalDate.minusDays: n days earlier, through the epoch-day count. */
  function DateMinusDays(d: Date, n: int): (r: Date)
    requires ValidDate(d)
    ensures ValidDate(r) && DaysFromCivil(r) == DaysFromCivil(d) - n
  {
    DaysFromCivilOfDays(DaysFromCivil(d) - n);
    CivilFromDays(DaysFromCivil(d) - n)
  }

  /** Epoch day of 1 March of year y (the first day of March year y). */
  function MarchYearStart(y: int): int {
    (y / 400) * DAYS_PER_ERA + DaysBeforeYearOfEra(y % 400) - EPOCH_SHIFT
  }

  lemma YearOfEraStep(yoe: int)
    requires 0 <= yoe < 399
    ensures DaysBeforeYearOfEra(yoe + 1) == DaysBeforeYearOfEra(yoe) + YearLength(yoe)
  {
    assert (yoe + 1) / 4 == yoe / 4 + (if (yoe + 1) % 4 == 0 then 1 else 0);
    assert (yoe + 1) / 100 == yoe / 100 + (if (yoe + 1) % 100 == 0 then 1 else 0);
    assert (yoe + 1) % 100 == 0 ==> (yoe + 1) % 4 == 0;
  }

  lemma MarchYearStep(y: int)
    ensures MarchYearStart(y + 1) == MarchYearStart(y) + 365 + (if IsLeapYear(y + 1) then 1 else 0)
  {
    var era, yoe := y / 400, y % 400;
    LeapYearPeriodic(era, yoe + 1);
    assert y + 1 == era * 400 + (yoe + 1);
    if yoe < 399 {
      MarchYearStepInEra(y, era, yoe);
    } else {
      MarchYearStepAcrossEras(y, era);
    }
  }

  lemma MarchYearStepInEra(y: int, era: int, yoe: int)
    requires era == y / 400 && yoe == y % 400 && yoe < 399
    ensures MarchYearStart(y + 1) == MarchYearStart(y) + YearLength(yoe)
  {
    YearDiv(y + 1, era, yoe + 1);
    YearOfEraStep(yoe);
  }

  lemma MarchYearStepAcrossEras(y: int, era: int)
    requires era == y / 400 && y % 400 == 399
    ensures MarchYearStart(y + 1) == MarchYearStart(y) + YearLength(399)
  {
    YearDiv(y + 1, era + 1, 0);
    assert DaysBeforeYearOfEra(399) == 145731;
  }

  lemma DaysFromCivilSplit(d: Date)
    requires ValidDate(d)
    ensures DaysFromCivil(d) == MarchYearStart(if d.month <= 2 then d.year - 1 else d.year)
                                + DaysBeforeMonth(MarchMonth(d.month)) + d.day - 1
  {
  }

  /** PreviousDay is exactly one epoch day back. */
  lemma PreviousDayIsOneDayEarlier(d: Date)
    requires ValidDate(d)
    ensures DaysFromCivil(PreviousDay(d)) == DaysFromCivil(d) - 1
  {
    if d.day > 1 {
      PreviousDayInMonth(d);
    } else if d.month == 3 {
      PreviousDayOfMarch(d);
    } else if d.month > 3 {
      PreviousDayOfLaterMonth(d);
    } else {
      PreviousDayOfEarlyMonth(d);
    }
  }

  lemma PreviousDayInMonth(d: Date)
    requires ValidDate(d) && d.day > 1
    ensures DaysFromCivil(PreviousDay(d)) == DaysFromCivil(d) - 1
  {
    DaysFromCivilSplit(d);
    DaysFromCivilSplit(PreviousDay(d));
  }

  /** 1 March follows the last day of February, in the previous March year. */
  lemma PreviousDayOfMarch(d: Date)
    requires ValidDate(d) && d.day == 1 && d.month == 3
    ensures DaysFromCivil(PreviousDay(d)) == DaysFromCivil(d) - 1
  {
    var p := PreviousDay(d);
    assert p == Date(d.year, 2, DaysInMonth(d.year, 2));
    DaysFromCivilSplit(d);
    DaysFromCivilSplit(p);
    MarchYearStep(d.year - 1);
  }

  /** The first of April to December follows the last day of the month before. */
  lemma PreviousDayOfLaterMonth(d: Date)
    requires ValidDate(d) && d.day == 1 && d.month > 3
    ensures DaysFromCivil(PreviousDay(d)) == DaysFromCivil(d) - 1
  {
    DaysFromCivilSplit(d);
    DaysFromCivilSplit(PreviousDay(d));
    MonthLengthMarch(d.year, MarchMonth(d.month) - 1);
  }

  /** 1 January and 1 February follow the last day of the month before, in the
      same March year. */
  lemma PreviousDayOfEarlyMonth(d: Date)
    requires ValidDate(d) && d.day == 1 && d.month <= 2
    ensures DaysFromCivil(PreviousDay(d)) == DaysFromCivil(d) - 1
  {
    DaysFromCivilSplit(d);
    DaysFromCivilSplit(PreviousDay(d));
  }

  /** The date whose epoch day is z. */
  lemma CivilOfDays(z: int, p: Date)
    requires ValidDate(p) && DaysFromCivil(p) == z
    ensures CivilFromDays(z) == p
  {
    CivilFromDaysOfCivil(p);
  }

  /** minusDays(n) is the date n epoch days back. */
  lemma MinusDaysOfEpochDay(d: Date, n: int, p: Date)
    requires ValidDate(d) && ValidDate(p) && DaysFromCivil(p) == DaysFromCivil(d) - n
    ensures DateMinusDays(d, n) == p
  {
    var z := DaysFromCivil(d) - n;
    assert DateMinusDays(d, n) == CivilFromDays(z);
    CivilOfDays(z, p);
  }

  /** Subtracting one day through epoch days agrees with the month-by-month rule,
      across month and year ends and 29 February. */
  lemma MinusOneDay(d: Date)
    requires ValidDate(d)
    ensures DateMinusDays(d, 1) == PreviousDay(d)
  {
    PreviousDayIsOneDayEarlier(d);
    MinusDaysOfEpochDay(d, 1, PreviousDay(d));
  }

  /** n applications of PreviousDay. */
  function DaysBack(d: Date, n: nat): (r: Date)
    requires ValidDate(d)
    ensures ValidDate(r)
  {
    if n == 0 then d else PreviousDay(DaysBack(d, n - 1))
  }

  lemma {:induction false} DaysBackEpochDay(d: Date, n: nat)
    requires ValidDate(d)
    ensures DaysFromCivil(DaysBack(d, n)) == DaysFromCivil(d) - n
  {
    if n > 0 {
      var e := DaysBack(d, n - 1);
      DaysBackEpochDay(d, n - 1);
      PreviousDayIsOneDayEarlier(e);
      assert DaysBack(d, n) == PreviousDay(e);
    }
  }

  /** minusDays(n) is n single steps back: the week-ago date is seven steps. */
  lemma MinusDaysIsDaysBack(d: Date, n: nat)
    requires ValidDate(d)
    ensures DateMinusDays(d, n) == DaysBack(d, n)
  {
    DaysBackEpochDay(d, n);
    MinusDaysOfEpochDay(d, n, DaysBack(d, n));
  }

  // ---------------------------------------------------------------------
  // Local date-times and epoch milliseconds.

  datatype LocalDateTime = LocalDateTime(date: Date, hour: int, minute: int, second: int, millis: int)

  predicate ValidLocal(t: LocalDateTime) {
    ValidDate(t.date) && 0 <= t.hour < 24 && 0 <= t.minute < 60
    && 0 <= t.second < 60 && 0 <= t.millis < 1000
  }

  function MillisOfDay(t: LocalDateTime): int {
    t.hour * MS_PER_HOUR + t.minute * MS_PER_MINUTE + t.second * MS_PER_SECOND + t.millis
  }

  /** Milliseconds since 1970-01-01T00:00:00.000 of a local date-time read as UTC. */
  function ToEpochMillis(t: LocalDateTime): int
    requires ValidLocal(t)
  {
    DaysFromCivil(t.date) * MS_PER_DAY + MillisOfDay(t)
  }

  /** The civil fields of an epoch-millisecond count (floor division, so
      instants before 1970 land on the correct earlier day). */
  function FromEpochMillis(ms: int): (t: LocalDateTime)
    ensures ValidLocal(t)
  {
    var days, rem := ms / MS_PER_DAY, ms % MS_PER_DAY;
    DaysFromCivilOfDays(days);
    LocalDateTime(CivilFromDays(days), rem / MS_PER_HOUR, rem % MS_PER_HOUR / MS_PER_MINUTE,
                  rem % MS_PER_MINUTE / MS_PER_SECOND, rem % MS_PER_SECOND)
  }

  lemma MillisOfDaySplit(rem: int)
    requires 0 <= rem < MS_PER_DAY
    ensures rem == (rem / MS_PER_HOUR) * MS_PER_HOUR + (rem % MS_PER_HOUR / MS_PER_MINUTE) * MS_PER_MINUTE
                   + (rem % MS_PER_MINUTE / MS_PER_SECOND) * MS_PER_SECOND + rem % MS_PER_SECOND
  {
    var h, r1 := rem / MS_PER_HOUR, rem % MS_PER_HOUR;
    var m, r2 := r1 / MS_PER_MINUTE, r1 % MS_PER_MINUTE;
    assert r2 == rem % MS_PER_MINUTE by {
      assert rem == (h * 60 + m) * MS_PER_MINUTE + r2;
    }
    var s, r3 := r2 / MS_PER_SECOND, r2 % MS_PER_SECOND;
    assert r3 == rem % MS_PER_SECOND by {
      assert rem == ((h * 60 + m) * 60 + s) * MS_PER_SECOND + r3;
    }
  }

  /** Epoch milliseconds to civil fields and back is the identity. */
  lemma EpochMillisRoundTrip(ms: int)
    ensures ToEpochMillis(FromEpochMillis(ms)) == ms
  {
    var days, rem := ms / MS_PER_DAY, ms % MS_PER_DAY;
    DaysFromCivilOfDays(days);
    MillisOfDaySplit(rem);
  }

  lemma DivModDay(ms: int, days: int, mod: int)
    requires ms == days * MS_PER_DAY + mod && 0 <= mod < MS_PER_DAY
    ensures ms / MS_PER_DAY == days && ms % MS_PER_DAY == mod
  {
  }

  lemma FieldsOfMillisOfDay(t: LocalDateTime, mod: int)
    requires ValidLocal(t) && mod == MillisOfDay(t)
    ensures 0 <= mod < MS_PER_DAY
    ensures mod / MS_PER_HOUR == t.hour && mod % MS_PER_HOUR / MS_PER_MINUTE == t.minute
    ensures mod % MS_PER_MINUTE / MS_PER_SECOND == t.second && mod % MS_PER_SECOND == t.millis
  {
    assert mod % MS_PER_HOUR == t.minute * MS_PER_MINUTE + t.second * MS_PER_SECOND + t.millis;
    assert mod % MS_PER_MINUTE == t.second * MS_PER_SECOND + t.millis;
  }

  /** Civil fields to epoch milliseconds and back is the identity. */
  lemma LocalRoundTrip(t: LocalDateTime)
    requires ValidLocal(t)
    ensures FromEpochMillis(ToEpochMillis(t)) == t
  {
    var ms := ToEpochMillis(t);
    var days := DaysFromCivil(t.date);
    var mod := MillisOfDay(t);
    FieldsOfMillisOfDay(t, mod);
    DivModDay(ms, days, mod);
    CivilOfDays(days, t.date);
  }

  // ---------------------------------------------------------------------
  // Zones and zoned date-times (Joda's DateTime).

  /** A time zone reduced to a single UTC offset in minutes; the tz database
      rules behind America/Los_Angeles are not part of this model. */
  datatype Zone = FixedOffset(offsetMinutes: int)

  /** Joda accepts offsets strictly inside one day. */
  predicate ValidZone(z: Zone) {
    -1440 < z.offsetMinutes < 1440
  }

  /** America/Los_Angeles on daylight time (UTC-07:00), as on the dates of March 2018. */
  const LOS_ANGELES_DAYLIGHT: Zone := FixedOffset(-420)

  /** An instant seen in a zone: the local fields and the zone. The method
      names follow Joda's immutable with-/minus- operations. */
  datatype DateTime = DateTime(local: LocalDateTime, zone: Zone) {

    ghost predicate Valid() {
      ValidLocal(local) && ValidZone(zone)
    }

    /** Epoch milliseconds of the instant. */
    function GetMillis(): int
      requires Valid()
    {
      ToEpochMillis(local) - zone.offsetMinutes * MS_PER_MINUTE
    }

    function MinusDays(n: int): (r: DateTime)
      requires Valid()
      ensures r.Valid()
    {
      DateTime(local.(date := DateMinusDays(local.date, n)), zone)
    }

    function WithHourOfDay(h: int): (r: DateTime)
      requires Valid() && 0 <= h < 24
      ensures r.Valid()
    {
      DateTime(local.(hour := h), zone)
    }

    function WithMinuteOfHour(m: int): (r: DateTime)
      requires Valid() && 0 <= m < 60
      ensures r.Valid()
    {
      DateTime(local.(minute := m), zone)
    }

    function WithSecondOfMinute(s: int): (r: DateTime)
      requires Valid() && 0 <= s < 60
      ensures r.Valid()
    {
      DateTime(local.(second := s), zone)
    }

    function WithMillisOfSecond(ms: int): (r: DateTime)
      requires Valid() && 0 <= ms < 1000
      ensures r.Valid()
    {
      DateTime(local.(millis := ms), zone)
    }

    function WithTimeAtStartOfDay(): (r: DateTime)
      requires Valid()
      ensures r.Valid()
    {
      DateTime(LocalDateTime(local.date, 0, 0, 0, 0), zone)
    }

    function ToLocalDate(): Date {
      local.date
    }
  }

  /** Joda's withZone: the same instant, shown in another zone. */
  function WithZone(utcMillis: int, zone: Zone): (t: DateTime)
    requires ValidZone(zone)
    ensures t.Valid() && t.zone == zone
    ensures t.GetMillis() == utcMillis
  {
    EpochMillisRoundTrip(utcMillis + zone.offsetMinutes * MS_PER_MINUTE);
    DateTime(FromEpochMillis(utcMillis + zone.offsetMinutes * MS_PER_MINUTE), zone)
  }

  /** A zoned date-time is determined by its instant and its zone. */
  lemma WithZoneOfMillis(t: DateTime)
    requires t.Valid()
    ensures WithZone(t.GetMillis(), t.zone) == t
  {
    var ms := ToEpochMillis(t.local);
    assert t.GetMillis() + t.zone.offsetMinutes * MS_PER_MINUTE == ms;
    LocalRoundTrip(t.local);
    assert WithZone(t.GetMillis(), t.zone) == DateTime(FromEpochMillis(ms), t.zone);
  }
}
