/** Joda's default renderings: DateTime.toString() prints an RFC 3339
    date-time (section 5.6 of RFC 3339) with a three-digit time-secfrac and a
    numeric offset, or "Z" for a zero offset; LocalDate.toString() prints a
    full-date. Years outside 0000..9999 print with at least four digits and a
    leading '-' when negative, as Joda does. */
module IsoFormat {
  import opened CivilTime

  /** Every character a rendered value can contain. */
  const VALUE_ALPHABET: string := "0123456789-:T.+Z"

  predicate InAlphabet(s: string) {
    forall i :: 0 <= i < |s| ==> s[i] in VALUE_ALPHABET
  }

  predicate IsDigit(c: char) {
    '0' <= c <= '9'
  }

  function DigitChar(d: int): (c: char)
    requires 0 <= d < 10
    ensures IsDigit(c)
  {
    (('0' as int) + d) as char
  }

  /** Value of a string of decimal digits, most significant first. */
  function DigitsValue(s: string): int
    requires forall i :: 0 <= i < |s| ==> IsDigit(s[i])
  {
    if s == [] then 0 else DigitsValue(s[..|s| - 1]) * 10 + (s[|s| - 1] as int - '0' as int)
  }

  predicate AllDigits(s: string) {
    forall i :: 0 <= i < |s| ==> IsDigit(s[i])
  }

  /** Decimal digits of n, without leading zeros ("0" for zero). */
  function Decimal(n: nat): (s: string)
    ensures |s| >= 1 && AllDigits(s)
    decreases n
  {
    if n < 10 then [DigitChar(n)] else Decimal(n / 10) + [DigitChar(n % 10)]
  }

  /** n in exactly `width` digits, zero-padded on the left. */
  function Padded(n: nat, width: nat): (s: string)
    ensures |s| == width && AllDigits(s)
  {
    if width == 0 then [] else Padded(n / 10, width - 1) + [DigitChar(n % 10)]
  }

  function Pow10(k: nat): (p: nat)
    ensures p >= 1
  {
    if k == 0 then 1 else 10 * Pow10(k - 1)
  }

  /** Padded digits read back as the number they render. */
  lemma {:induction false} PaddedValue(n: nat, width: nat)
    requires n < Pow10(width)
    ensures DigitsValue(Padded(n, width)) == n
  {
    if width > 0 {
      var s := Padded(n, width);
      assert s[..|s| - 1] == Padded(n / 10, width - 1);
      PaddedValue(n / 10, width - 1);
    }
  }

  /** Two padded digits are the tens and the units. */
  lemma PaddedTwo(n: nat)
    ensures Padded(n, 2) == [DigitChar(n / 10 % 10), DigitChar(n % 10)]
  {
    assert Padded(n / 10 / 10, 0) == [];
  }

  /** Three padded digits are the hundreds, the tens and the units. */
  lemma PaddedThree(n: nat)
    ensures Padded(n, 3) == [DigitChar(n / 10 / 10 % 10), DigitChar(n / 10 % 10), DigitChar(n % 10)]
  {
    PaddedTwo(n / 10);
  }

  lemma PaddedFour(n: nat)
    ensures Padded(n, 4) == [DigitChar(n / 10 / 10 / 10 % 10), DigitChar(n / 10 / 10 % 10),
                             DigitChar(n / 10 % 10), DigitChar(n % 10)]
  {
    PaddedThree(n / 10);
  }

  function Year(y: int): (s: string)
  {
    var a := if y < 0 then -y else y;
    var digits := if a < 10000 then Padded(a, 4) else Decimal(a);
    if y < 0 then "-" + digits else digits
  }

  /** Years 0..9999 print as exactly four digits. */
  lemma YearOfFourDigits(y: int)
    requires 0 <= y < 10000
    ensures Year(y) == Padded(y, 4)
  {
  }

  /** full-date: yyyy-MM-dd. */
  function FormatDate(d: Date): (s: string)
    requires ValidDate(d)
  {
    Year(d.year) + "-" + Padded(d.month, 2) + "-" + Padded(d.day, 2)
  }

  /** time-offset: "Z", or +HH:MM / -HH:MM. */
  function FormatOffset(z: Zone): (s: string)
    requires ValidZone(z)
  {
    var m := z.offsetMinutes;
    if m == 0 then "Z"
    else
      var a := if m < 0 then -m else m;
      (if m < 0 then "-" else "+") + Padded(a / 60, 2) + ":" + Padded(a % 60, 2)
  }

  /** A full-date for years 0000..9999: ten characters, fields at fixed places. */
  lemma FormatDateLayout(d: Date)
    requires ValidDate(d) && 0 <= d.year <= 9999
    ensures var s := FormatDate(d);
      |s| == 10 && s[4] == '-' && s[7] == '-'
      && AllDigits(s[0..4]) && AllDigits(s[5..7]) && AllDigits(s[8..10])
      && DigitsValue(s[0..4]) == d.year && DigitsValue(s[5..7]) == d.month
      && DigitsValue(s[8..10]) == d.day
  {
    var s := FormatDate(d);
    var y, m, dd := Padded(d.year, 4), Padded(d.month, 2), Padded(d.day, 2);
    YearOfFourDigits(d.year);
    assert s == y + "-" + m + "-" + dd;
    assert s[0..4] == y && s[5..7] == m && s[8..10] == dd;
    assert Pow10(4) == 10000 && Pow10(2) == 100;
    PaddedValue(d.year, 4);
    PaddedValue(d.month, 2);
    PaddedValue(d.day, 2);
  }

  /** The time part: THH:mm:ss.SSS. */
  function FormatTime(l: LocalDateTime): string
    requires ValidLocal(l)
  {
    "T" + Padded(l.hour, 2) + ":" + Padded(l.minute, 2) + ":" + Padded(l.second, 2)
    + "." + Padded(l.millis, 3)
  }

  /** date-time: full-date, "T", partial-time with a three-digit fraction, time-offset. */
  function FormatDateTime(t: DateTime): string
    requires t.Valid()
  {
    FormatDate(t.local.date) + FormatTime(t.local) + FormatOffset(t.zone)
  }

  lemma FormatTimeLayout(l: LocalDateTime)
    requires ValidLocal(l)
    ensures var s := FormatTime(l);
      |s| == 13 && s[0] == 'T' && s[3] == ':' && s[6] == ':' && s[9] == '.'
      && AllDigits(s[1..3]) && AllDigits(s[4..6]) && AllDigits(s[7..9]) && AllDigits(s[10..13])
      && DigitsValue(s[1..3]) == l.hour && DigitsValue(s[4..6]) == l.minute
      && DigitsValue(s[7..9]) == l.second && DigitsValue(s[10..13]) == l.millis
  {
    var s := FormatTime(l);
    assert s[1..3] == Padded(l.hour, 2);
    assert s[4..6] == Padded(l.minute, 2);
    assert s[7..9] == Padded(l.second, 2);
    assert s[10..13] == Padded(l.millis, 3);
    PaddedValue(l.hour, 2);
    PaddedValue(l.minute, 2);
    PaddedValue(l.second, 2);
    PaddedValue(l.millis, 3);
  }

  lemma FormatOffsetLayout(z: Zone)
    requires ValidZone(z)
    ensures var s := FormatOffset(z);
      var m := z.offsetMinutes;
      (m == 0 ==> s == "Z")
      && (m != 0 ==>
            |s| == 6 && s[0] == (if m < 0 then '-' else '+') && s[3] == ':'
            && AllDigits(s[1..3]) && AllDigits(s[4..6])
            && DigitsValue(s[1..3]) * 60 + DigitsValue(s[4..6]) == (if m < 0 then -m else m))
  {
    var m := z.offsetMinutes;
    if m != 0 {
      var s := FormatOffset(z);
      var a := if m < 0 then -m else m;
      assert s[1..3] == Padded(a / 60, 2);
      assert s[4..6] == Padded(a % 60, 2);
      PaddedValue(a / 60, 2);
      PaddedValue(a % 60, 2);
    }
  }

  /** A date-time for years 0000..9999: yyyy-MM-dd, then THH:mm:ss.SSS, then
      "Z" for a zero offset and +HH:MM or -HH:MM otherwise. */
  lemma FormatDateTimeLayout(t: DateTime)
    requires t.Valid() && 0 <= t.local.date.year <= 9999
    ensures var s := FormatDateTime(t);
      |s| == (if t.zone.offsetMinutes == 0 then 24 else 29)
      && s[..10] == FormatDate(t.local.date) && s[10..23] == FormatTime(t.local)
      && s[23..] == FormatOffset(t.zone)
  {
    var s := FormatDateTime(t);
    var d, tm, off := FormatDate(t.local.date), FormatTime(t.local), FormatOffset(t.zone);
    FormatDateLayout(t.local.date);
    FormatTimeLayout(t.local);
    FormatOffsetLayout(t.zone);
    assert (d + tm + off)[..10] == d;
    assert (d + tm + off)[10..23] == tm;
    assert (d + tm + off)[23..] == off;
  }

  /** A rendered date-time begins with the rendering of its local date. */
  lemma DateTimeStartsWithDate(t: DateTime)
    requires t.Valid()
    ensures var d := FormatDate(t.local.date);
      |d| <= |FormatDateTime(t)| && FormatDateTime(t)[..|d|] == d
  {
    var d, tm, off := FormatDate(t.local.date), FormatTime(t.local), FormatOffset(t.zone);
    assert (d + tm + off)[..|d|] == d;
  }

  lemma AlphabetConcat(a: string, b: string)
    requires InAlphabet(a) && InAlphabet(b)
    ensures InAlphabet(a + b)
  {
    assert forall i :: |a| <= i < |a + b| ==> (a + b)[i] == b[i - |a|];
  }

  lemma {:induction false} PaddedInAlphabet(n: nat, width: nat)
    ensures InAlphabet(Padded(n, width))
  {
    if width > 0 {
      PaddedInAlphabet(n / 10, width - 1);
      AlphabetConcat(Padded(n / 10, width - 1), [DigitChar(n % 10)]);
    }
  }

  lemma {:induction false} DecimalInAlphabet(n: nat)
    ensures InAlphabet(Decimal(n))
    decreases n
  {
    if n >= 10 {
      DecimalInAlphabet(n / 10);
      AlphabetConcat(Decimal(n / 10), [DigitChar(n % 10)]);
    }
  }

  lemma YearInAlphabet(y: int)
    ensures InAlphabet(Year(y))
  {
    var a := if y < 0 then -y else y;
    PaddedInAlphabet(a, 4);
    DecimalInAlphabet(a);
    var digits := if a < 10000 then Padded(a, 4) else Decimal(a);
    AlphabetConcat("-", digits);
  }

  lemma DateInAlphabet(d: Date)
    requires ValidDate(d)
    ensures InAlphabet(FormatDate(d))
  {
    YearInAlphabet(d.year);
    PaddedInAlphabet(d.month, 2);
    PaddedInAlphabet(d.day, 2);
    AlphabetConcat(Year(d.year), "-");
    AlphabetConcat(Year(d.year) + "-", Padded(d.month, 2));
    AlphabetConcat(Year(d.year) + "-" + Padded(d.month, 2), "-");
    AlphabetConcat(Year(d.year) + "-" + Padded(d.month, 2) + "-", Padded(d.day, 2));
  }

  lemma TimeInAlphabet(l: LocalDateTime)
    requires ValidLocal(l)
    ensures InAlphabet(FormatTime(l))
  {
    var h, mi, se, ms := Padded(l.hour, 2), Padded(l.minute, 2), Padded(l.second, 2), Padded(l.millis, 3);
    PaddedInAlphabet(l.hour, 2);
    PaddedInAlphabet(l.minute, 2);
    PaddedInAlphabet(l.second, 2);
    PaddedInAlphabet(l.millis, 3);
    AlphabetConcat("T", h);
    AlphabetConcat("T" + h, ":");
    AlphabetConcat("T" + h + ":", mi);
    AlphabetConcat("T" + h + ":" + mi, ":");
    AlphabetConcat("T" + h + ":" + mi + ":", se);
    AlphabetConcat("T" + h + ":" + mi + ":" + se, ".");
    AlphabetConcat("T" + h + ":" + mi + ":" + se + ".", ms);
  }

  lemma OffsetInAlphabet(z: Zone)
    requires ValidZone(z)
    ensures InAlphabet(FormatOffset(z))
  {
    var m := z.offsetMinutes;
    if m != 0 {
      var a := if m < 0 then -m else m;
      var sign: string := if m < 0 then "-" else "+";
      PaddedInAlphabet(a / 60, 2);
      PaddedInAlphabet(a % 60, 2);
      AlphabetConcat(sign, Padded(a / 60, 2));
      AlphabetConcat(sign + Padded(a / 60, 2), ":");
      AlphabetConcat(sign + Padded(a / 60, 2) + ":", Padded(a % 60, 2));
    }
  }

  /** Rendered date-times use only digits and the separators - : T . + Z. */
  lemma DateTimeInAlphabet(t: DateTime)
    requires t.Valid()
    ensures InAlphabet(FormatDateTime(t))
  {
    var d, tm, off := FormatDate(t.local.date), FormatTime(t.local), FormatOffset(t.zone);
    DateInAlphabet(t.local.date);
    TimeInAlphabet(t.local);
    OffsetInAlphabet(t.zone);
    AlphabetConcat(d, tm);
    AlphabetConcat(d + tm, off);
  }
}
