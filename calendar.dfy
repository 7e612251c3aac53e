/** Naive `datetime` values with minute resolution, as the enroller uses
    them: the `strptime` format `%d.%m.%Y %H:%M`, subtracting
    `timedelta(days=1)`, the `strftime` format `%d.%m.%y %H:%M`, and the
    instant a value names on the model's clock (whole seconds since
    0001-01-01 00:00, the start of Python's proleptic Gregorian calendar). */
module Calendar {
  import opened Wrappers
  import opened Text

  const SecondsPerDay: nat := 86400

  datatype DateTime = DateTime(year: int, month: int, day: int, hour: int, minute: int)

  predicate IsLeapYear(y: int) {
    y % 4 == 0 && (y % 100 != 0 || y % 400 == 0)
  }

  function DaysInMonth(y: int, m: int): int
    requires 1 <= m <= 12
  {
    if m == 2 then (if IsLeapYear(y) then 29 else 28)
    else if m == 4 || m == 6 || m == 9 || m == 11 then 30
    else 31
  }

  /** The values Python's `datetime` can hold (years 1 to 9999). */
  predicate Valid(t: DateTime) {
    && 1 <= t.year <= 9999
    && 1 <= t.month <= 12
    && 1 <= t.day <= DaysInMonth(t.year, t.month)
    && 0 <= t.hour < 24
    && 0 <= t.minute < 60
  }

  function DaysBeforeYear(y: int): (r: int)
    requires y >= 1
    ensures r >= 365 * (y - 1)
  {
    var p := y - 1;
    365 * p + p / 4 - p / 100 + p / 400
  }

  function DaysBeforeMonth(y: int, m: int): (r: int)
    requires 1 <= m <= 12
    ensures m > 1 ==> r >= 28
    ensures r >= 0
  {
    if m == 1 then 0 else DaysBeforeMonth(y, m - 1) + DaysInMonth(y, m - 1)
  }

  /** `date.toordinal()`: 0001-01-01 is day 1. */
  function Ordinal(t: DateTime): int
    requires Valid(t)
  {
    DaysBeforeYear(t.year) + DaysBeforeMonth(t.year, t.month) + t.day
  }

  /** The instant `t` names on the model's clock. */
  function Instant(t: DateTime): int
    requires Valid(t)
  {
    (Ordinal(t) - 1) * SecondsPerDay + t.hour * 3600 + t.minute * 60
  }

  lemma DivStep4(p: int)
    ensures p / 4 - (p - 1) / 4 == if p % 4 == 0 then 1 else 0
  {
  }

  lemma DivStep100(p: int)
    ensures p / 100 - (p - 1) / 100 == if p % 100 == 0 then 1 else 0
  {
  }

  lemma DivStep400(p: int)
    ensures p / 400 - (p - 1) / 400 == if p % 400 == 0 then 1 else 0
  {
  }

  /** The leap days counted by `DaysBeforeYear` grow by one exactly after
      a leap year. */
  lemma LeapCounts(p: int)
    ensures (p / 4 - (p - 1) / 4) - (p / 100 - (p - 1) / 100) + (p / 400 - (p - 1) / 400)
            == if IsLeapYear(p) then 1 else 0
  {
    DivStep4(p);
    DivStep100(p);
    DivStep400(p);
    Divides(p);
  }

  /** A multiple of 400 is one of 100, and a multiple of 100 one of 4. */
  lemma Divides(p: int)
    ensures p % 400 == 0 ==> p % 100 == 0
    ensures p % 100 == 0 ==> p % 4 == 0
  {
    if p % 400 == 0 {
      Multiple400(p);
    }
    if p % 100 == 0 {
      Multiple100(p);
    }
  }

  lemma Multiple400(p: int)
    requires p % 400 == 0
    ensures p % 100 == 0
  {
    var q := p / 400;
    assert p == 100 * (4 * q) + 0;
  }

  lemma Multiple100(p: int)
    requires p % 100 == 0
    ensures p % 4 == 0
  {
    var q := p / 100;
    assert p == 4 * (25 * q) + 0;
  }

  lemma DaysBeforeDecember(y: int)
    ensures DaysBeforeMonth(y, 12) == if IsLeapYear(y) then 335 else 334
  {
    var f := if IsLeapYear(y) then 29 else 28;
    assert DaysBeforeMonth(y, 2) == 31;
    assert DaysBeforeMonth(y, 3) == 31 + f;
    assert DaysBeforeMonth(y, 4) == 62 + f;
    assert DaysBeforeMonth(y, 5) == 92 + f;
    assert DaysBeforeMonth(y, 6) == 123 + f;
    assert DaysBeforeMonth(y, 7) == 153 + f;
    assert DaysBeforeMonth(y, 8) == 184 + f;
    assert DaysBeforeMonth(y, 9) == 215 + f;
    assert DaysBeforeMonth(y, 10) == 245 + f;
    assert DaysBeforeMonth(y, 11) == 276 + f;
  }

  /** Consecutive years start 365 or, after a leap year, 366 days apart. */
  lemma YearStep(y: int)
    requires y >= 2
    ensures DaysBeforeYear(y) == DaysBeforeYear(y - 1) + DaysBeforeMonth(y - 1, 12) + 31
  {
    LeapCounts(y - 1);
    DaysBeforeDecember(y - 1);
  }

  /** `t - timedelta(days=1)`; `None` where Python raises `OverflowError`,
      which is only for a time on 0001-01-01. */
  function PreviousDay(t: DateTime): (r: Option<DateTime>)
    requires Valid(t)
    ensures r.None? <==> Ordinal(t) == 1
    ensures r.Some? ==> Valid(r.value) && Instant(r.value) == Instant(t) - SecondsPerDay
    ensures r.Some? ==> r.value.hour == t.hour && r.value.minute == t.minute
  {
    if t.day > 1 then Some(t.(day := t.day - 1))
    else if t.month > 1 then Some(t.(month := t.month - 1, day := DaysInMonth(t.year, t.month - 1)))
    else if t.year > 1 then
      YearStep(t.year);
      Some(t.(year := t.year - 1, month := 12, day := 31))
    else None
  }

  /** One numeric field matched by `strptime`, and the text after it. */
  datatype Field = Field(value: int, rest: string)

  /** A numeric directive followed by a non-digit (or the end): the
      directive's regular expression must match the whole run of digits
      there, which it does exactly for runs of 1 to `maxLen` digits whose
      value lies between `lo` and `hi`. */
  function NumberField(s: string, maxLen: nat, lo: int, hi: int): (r: Option<Field>)
    ensures r.Some? ==> lo <= r.value.value <= hi
    ensures r.Some? ==> |r.value.rest| < |s| && r.value.rest == s[|s| - |r.value.rest|..]
  {
    var n := DigitRun(s);
    if 1 <= n <= maxLen && lo <= Value(s[..n]) <= hi then Some(Field(Value(s[..n]), s[n..])) else None
  }

  /** `%Y`: exactly four digits. */
  function YearField(s: string): (r: Option<Field>)
    ensures r.Some? ==> 0 <= r.value.value <= 9999
    ensures r.Some? ==> |r.value.rest| < |s|
  {
    var n := DigitRun(s);
    if n == 4 then
      ValueBelow(s[..4]);
      Some(Field(Value(s[..4]), s[4..]))
    else None
  }

  /** A literal character of the format. */
  function Literal(s: string, c: char): Option<string>
  {
    if s != [] && s[0] == c then Some(s[1..]) else None
  }

  /** `datetime.strptime(s, "%d.%m.%Y %H:%M")`; `None` where Python raises
      `ValueError`: the text does not match the format, leaves unconverted
      characters, names a day the month does not have, or the year 0. The
      space of the format matches one or more white-space characters. The
      directives are matched left to right by the stages below. */
  function ParseLessonTime(s: string): (r: Option<DateTime>)
    ensures r.Some? ==> Valid(r.value)
  {
    var d :- NumberField(s, 2, 1, 31);
    var rest :- Literal(d.rest, '.');
    ParseFromMonth(d.value, rest)
  }

  function ParseFromMonth(day: int, s: string): (r: Option<DateTime>)
    ensures r.Some? ==> Valid(r.value)
  {
    var m :- NumberField(s, 2, 1, 12);
    var rest :- Literal(m.rest, '.');
    ParseFromYear(day, m.value, rest)
  }

  function ParseFromYear(day: int, month: int, s: string): (r: Option<DateTime>)
    ensures r.Some? ==> Valid(r.value)
  {
    var y :- YearField(s);
    var gap := LeadingSpaces(y.rest);
    if gap == 0 then None else ParseFromHour(day, month, y.value, y.rest[gap..])
  }

  function ParseFromHour(day: int, month: int, year: int, s: string): (r: Option<DateTime>)
    ensures r.Some? ==> Valid(r.value)
  {
    var h :- NumberField(s, 2, 0, 23);
    var rest :- Literal(h.rest, ':');
    ParseMinute(day, month, year, h.value, rest)
  }

  function ParseMinute(day: int, month: int, year: int, hour: int, s: string): (r: Option<DateTime>)
    ensures r.Some? ==> Valid(r.value)
  {
    var mi :- NumberField(s, 2, 0, 59);
    if mi.rest != [] || !(1 <= year <= 9999 && 1 <= month <= 12 && 1 <= day && 0 <= hour < 24) then None
    else if day > DaysInMonth(year, month) then None
    else Some(DateTime(year, month, day, hour, mi.value))
  }

  /** How the lesson page writes a start time, `10.05.2021 06:55`. */
  function LessonTimeText(t: DateTime): string
    requires Valid(t)
  {
    Pad2(t.day) + "." + Pad2(t.month) + "." + Pad4(t.year) + " " + Pad2(t.hour) + ":" + Pad2(t.minute)
  }

  lemma NumberFieldPad2(v: nat, rest: string, lo: int, hi: int)
    requires v < 100 && lo <= v <= hi
    requires rest == [] || !IsDigit(rest[0])
    ensures NumberField(Pad2(v) + rest, 2, lo, hi) == Some(Field(v, rest))
  {
    Pad2Value(v);
    DigitRunOfDigits(Pad2(v), rest);
    assert (Pad2(v) + rest)[..2] == Pad2(v);
    assert (Pad2(v) + rest)[2..] == rest;
  }

  lemma YearFieldPad4(v: nat, rest: string)
    requires v < 10000
    requires rest == [] || !IsDigit(rest[0])
    ensures YearField(Pad4(v) + rest) == Some(Field(v, rest))
  {
    Pad4Value(v);
    DigitRunOfDigits(Pad4(v), rest);
    assert (Pad4(v) + rest)[..4] == Pad4(v);
    assert (Pad4(v) + rest)[4..] == rest;
  }

  /** The day stage of the parser reads a padded day and its dot. */
  lemma DayStage(day: nat, x: string)
    requires 1 <= day <= 31
    ensures ParseLessonTime(Pad2(day) + "." + x) == ParseFromMonth(day, x)
  {
    assert Pad2(day) + "." + x == Pad2(day) + ("." + x);
    NumberFieldPad2(day, "." + x, 1, 31);
    assert ("." + x)[1..] == x;
  }

  lemma MonthStage(day: int, month: nat, y: string)
    requires 1 <= month <= 12
    ensures ParseFromMonth(day, Pad2(month) + "." + y) == ParseFromYear(day, month, y)
  {
    assert Pad2(month) + "." + y == Pad2(month) + ("." + y);
    NumberFieldPad2(month, "." + y, 1, 12);
    assert ("." + y)[1..] == y;
  }

  /** The year stage reads four digits and the single space after them. */
  lemma YearStage(day: int, month: int, year: nat, h: string)
    requires year < 10000
    requires h != [] && IsDigit(h[0])
    ensures ParseFromYear(day, month, Pad4(year) + " " + h) == ParseFromHour(day, month, year, h)
  {
    var rest := " " + h;
    assert Pad4(year) + " " + h == Pad4(year) + rest;
    YearFieldPad4(year, rest);
    assert rest[1..] == h;
    assert LeadingSpaces(h) == 0 by {
      assert !IsSpace(h[0]);
    }
    assert LeadingSpaces(rest) == 1;
  }

  lemma HourStage(day: int, month: int, year: int, hour: nat, mi: string)
    requires hour <= 23
    ensures ParseFromHour(day, month, year, Pad2(hour) + ":" + mi) == ParseMinute(day, month, year, hour, mi)
  {
    assert Pad2(hour) + ":" + mi == Pad2(hour) + (":" + mi);
    NumberFieldPad2(hour, ":" + mi, 0, 23);
    assert (":" + mi)[1..] == mi;
  }

  lemma MinuteStage(t: DateTime)
    requires Valid(t)
    ensures ParseMinute(t.day, t.month, t.year, t.hour, Pad2(t.minute)) == Some(t)
  {
    NumberFieldPad2(t.minute, "", 0, 59);
    assert Pad2(t.minute) + "" == Pad2(t.minute);
  }

  /** Every valid time, written the way the lesson page writes it, parses
      back to itself. */
  lemma ParseLessonTimeText(t: DateTime)
    requires Valid(t)
    ensures ParseLessonTime(LessonTimeText(t)) == Some(t)
  {
    var mi := Pad2(t.minute);
    var h := Pad2(t.hour) + ":" + mi;
    var y := Pad4(t.year) + " " + h;
    var x := Pad2(t.month) + "." + y;
    assert LessonTimeText(t) == Pad2(t.day) + "." + x;
    DayStage(t.day, x);
    MonthStage(t.day, t.month, y);
    Pad2Value(t.hour);
    assert h[0] == Pad2(t.hour)[0];
    YearStage(t.day, t.month, t.year, h);
    HourStage(t.day, t.month, t.year, t.hour, mi);
    MinuteStage(t);
  }

  /** `t.strftime('%d.%m.%y %H:%M')`, with a two-digit year. */
  function ShortText(t: DateTime): (r: string)
    requires Valid(t)
    ensures |r| == 14
    ensures r[2] == '.' && r[5] == '.' && r[8] == ' ' && r[11] == ':'
    ensures AllDigits(r[0..2]) && Value(r[0..2]) == t.day
    ensures AllDigits(r[3..5]) && Value(r[3..5]) == t.month
    ensures AllDigits(r[6..8]) && Value(r[6..8]) == t.year % 100
    ensures AllDigits(r[9..11]) && Value(r[9..11]) == t.hour
    ensures AllDigits(r[12..14]) && Value(r[12..14]) == t.minute
  {
    Pad2Value(t.day);
    Pad2Value(t.month);
    Pad2Value(t.year % 100);
    Pad2Value(t.hour);
    Pad2Value(t.minute);
    var r := Pad2(t.day) + "." + Pad2(t.month) + "." + Pad2(t.year % 100) + " " + Pad2(t.hour) + ":" + Pad2(t.minute);
    assert r[0..2] == Pad2(t.day) && r[3..5] == Pad2(t.month) && r[6..8] == Pad2(t.year % 100);
    assert r[9..11] == Pad2(t.hour) && r[12..14] == Pad2(t.minute);
    r
  }

  /** `timedelta(seconds=delta).seconds`: Python keeps a negative or long
      gap as whole days plus a seconds part in [0, 86400). */
  function TimedeltaSeconds(delta: int): (r: nat)
    ensures r < SecondsPerDay
    ensures (delta - r) % SecondsPerDay == 0
  {
    delta % SecondsPerDay
  }
}
