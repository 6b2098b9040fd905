/**
 * JavaScript `Date` values as the application uses them.
 *
 * The local time zone is fixed and equal to UTC, so a date's local fields and its UTC
 * fields coincide. A valid date is a well-formed civil date-time; an invalid date
 * (`new Date('garbage')`) has a NaN time value.
 */
module Dates {
  import opened Js
  import opened Wrappers

  /** Calendar fields as `getFullYear()`, `getMonth()` (0-based), `getDate()`, `getHours()`,
      `getMinutes()`, `getSeconds()` and `getMilliseconds()` report them. */
  datatype CivilTime = CivilTime(year: int, month: int, day: int,
                                 hour: int, minute: int, second: int, millis: int)

  predicate IsLeapYear(y: int) {
    y % 4 == 0 && (y % 100 != 0 || y % 400 == 0)
  }

  /** The number of days in month m (0 = January) of year y. */
  function DaysInMonth(y: int, m: int): int
    requires 0 <= m < 12
  {
    if m == 1 then (if IsLeapYear(y) then 29 else 28)
    else if m == 3 || m == 5 || m == 8 || m == 10 then 30
    else 31
  }

  /** The years in which every instant of every day is inside the ECMAScript time range
      (within 8.64e15 ms of the epoch). */
  const MinYear := -271820
  const MaxYear := 275759

  predicate WellFormed(c: CivilTime) {
    MinYear <= c.year <= MaxYear && 0 <= c.month < 12 && 1 <= c.day <= DaysInMonth(c.year, c.month)
    && 0 <= c.hour < 24 && 0 <= c.minute < 60 && 0 <= c.second < 60 && 0 <= c.millis < 1000
  }

  type Civil = c: CivilTime | WellFormed(c) witness CivilTime(1970, 0, 1, 0, 0, 0, 0)

  /** A `Date` object: either invalid (time value NaN) or a valid civil date-time. */
  datatype JsDate = InvalidDate | ValidDate(at: Civil)

  /**
   * What a field typed `unknown` or `Date | string | null` may hold, as far as the date
   * helpers distinguish it:
   * - Falsy: null, undefined, '', 0, false;
   * - DateObject: a `Date` instance;
   * - Text: a non-empty string or a non-zero number; `new Date(value)` gives `parsed`
   *   (string parsing itself is not modelled);
   * - Other: any other truthy value; `new Date(value)` gives `parsed`.
   */
  datatype DateValue = Falsy | DateObject(date: JsDate) | Text(parsed: JsDate) | Other(parsed: JsDate)

  predicate TruthyDate(v: DateValue) {
    !v.Falsy?
  }

  /** `new Date(v)` for a truthy value: a Date argument is copied, anything else converted. */
  function NewDate(v: DateValue): (d: JsDate)
    requires TruthyDate(v)
    ensures v.DateObject? ==> d == v.date
  {
    match v
    case DateObject(d) => d
    case Text(p) => p
    case Other(p) => p
  }

  /** Days from 1970-01-01 to the given civil day (proleptic Gregorian calendar). */
  function DaysFromCivil(y: int, m: int, d: int): int
    requires 0 <= m < 12
  {
    var y1 := if m < 2 then y - 1 else y;
    var era := y1 / 400;
    var yoe := y1 - era * 400;
    var mp := (m + 10) % 12;
    var doy := (153 * mp + 2) / 5 + d - 1;
    var doe := yoe * 365 + yoe / 4 - yoe / 100 + doy;
    era * 146097 + doe - 719468
  }

  /** Milliseconds since midnight. */
  function MsOfDay(c: Civil): (ms: int)
    ensures 0 <= ms < 86400000
  {
    ((c.hour * 60 + c.minute) * 60 + c.second) * 1000 + c.millis
  }

  /** `getTime()` of a valid date: milliseconds since the epoch. */
  function TimeValue(c: Civil): int {
    DaysFromCivil(c.year, c.month, c.day) * 86400000 + MsOfDay(c)
  }

  /** `date.getTime()` */
  function GetTime(d: JsDate): JsNumber {
    match d
    case InvalidDate => NaN
    case ValidDate(c) => Finite(TimeValue(c))
  }

  predicate SameDay(a: Civil, b: Civil) {
    a.year == b.year && a.month == b.month && a.day == b.day
  }

  /** On one calendar day, the time value orders instants as the time of day does. */
  lemma SameDayTimeValue(a: Civil, b: Civil)
    requires SameDay(a, b)
    ensures TimeValue(a) - TimeValue(b) == MsOfDay(a) - MsOfDay(b)
  {
  }

  /** The time of day determines the hour, minute, second and millisecond. */
  lemma MsOfDayInjective(a: Civil, b: Civil)
    requires MsOfDay(a) == MsOfDay(b)
    ensures a.hour == b.hour && a.minute == b.minute && a.second == b.second && a.millis == b.millis
  {
    var sa := (a.hour * 60 + a.minute) * 60 + a.second;
    var sb := (b.hour * 60 + b.minute) * 60 + b.second;
    assert sa == sb && a.millis == b.millis;
    assert a.hour * 60 + a.minute == b.hour * 60 + b.minute && a.second == b.second;
  }

  /** `setHours(h, m, 0, 0)` for an in-range hour and minute: the same day, at that time. */
  function SetHours(c: Civil, h: int, m: int): (r: Civil)
    requires 0 <= h < 24 && 0 <= m < 60
    ensures SameDay(r, c) && r.hour == h && r.minute == m && r.second == 0 && r.millis == 0
  {
    CivilTime(c.year, c.month, c.day, h, m, 0, 0)
  }

  /** MakeFullYear of ECMAScript: a year argument from 0 to 99 given to the multi-argument
      `Date` constructor or to `Date.UTC` stands for 1900 plus that year. */
  function MakeFullYear(y: int): (r: int)
    ensures 0 <= y <= 99 ==> r == 1900 + y
    ensures !(0 <= y <= 99) ==> r == y
  {
    if 0 <= y <= 99 then 1900 + y else y
  }

  /** Years 1 to 99 and 1901 to 1999 have the same leap years; year 0 is a leap year and
      1900 is not. */
  lemma MakeFullYearLeap(y: int)
    ensures 1 <= y <= 99 ==> IsLeapYear(MakeFullYear(y)) == IsLeapYear(y)
    ensures IsLeapYear(0) && !IsLeapYear(MakeFullYear(0))
  {
    if 1 <= y <= 99 {
      assert (1900 + y) % 4 == y % 4;
      assert (1900 + y) % 100 != 0 && y % 100 != 0;
    }
  }

  /** The midnight `new Date(y, mo, d)` lands on for the fields of `c`: the year goes through
      MakeFullYear, and 29 February of year 0, which 1900 lacks, rolls over to 1 March. */
  function ConstructedDay(c: Civil): (r: Civil)
    ensures r.hour == 0 && r.minute == 0 && r.second == 0 && r.millis == 0
    ensures !(0 <= c.year <= 99) ==> SameDay(r, c)
    ensures 0 <= c.year <= 99 ==> r.year == 1900 + c.year
    ensures 0 <= c.year <= 99 && !(c.year == 0 && c.month == 1 && c.day == 29) ==>
              r.month == c.month && r.day == c.day
    ensures c.year == 0 && c.month == 1 && c.day == 29 ==> r.month == 2 && r.day == 1
  {
    if c.year == 0 && c.month == 1 && c.day == 29 then CivilTime(1900, 2, 1, 0, 0, 0, 0)
    else
      MakeFullYearLeap(c.year);
      CivilTime(MakeFullYear(c.year), c.month, c.day, 0, 0, 0, 0)
  }

  /** Every instant of years 0 to 99 comes before every instant from 1900 on. */
  lemma EarlyYearsBefore1900(a: Civil, b: Civil)
    requires 0 <= a.year <= 99 && 1900 <= b.year
    ensures TimeValue(a) < TimeValue(b)
  {
    var ya := if a.month < 2 then a.year - 1 else a.year;
    var yb := if b.month < 2 then b.year - 1 else b.year;
    assert ya / 400 == 0 || ya / 400 == -1;
    assert yb / 400 >= 4;
    var mpa := (a.month + 10) % 12;
    var doya := (153 * mpa + 2) / 5 + a.day - 1;
    assert doya <= 366;
    var yoea := ya - (ya / 400) * 400;
    assert 0 <= yoea < 400;
    var doea := yoea * 365 + yoea / 4 - yoea / 100 + doya;
    assert doea < 146097;
    assert DaysFromCivil(a.year, a.month, a.day) < 146097 - 719468;
    var mpb := (b.month + 10) % 12;
    var yoeb := yb - (yb / 400) * 400;
    assert 0 <= yoeb < 400;
    assert (153 * mpb + 2) / 5 + b.day - 1 >= 0;
    assert DaysFromCivil(b.year, b.month, b.day) >= 4 * 146097 - 719468;
  }

  /** `new Date(c.getFullYear(), c.getMonth(), c.getDate(), h, m, 0, 0)`, equally
      `Date.UTC` of those fields in the modelled zone, for an in-range hour and minute: the
      day `ConstructedDay` gives, at that time. Outside years 0 to 99 that is the day of `c`. */
  function AtTime(c: Civil, h: int, m: int): (r: Civil)
    requires 0 <= h < 24 && 0 <= m < 60
    ensures SameDay(r, ConstructedDay(c)) && r.hour == h && r.minute == m && r.second == 0 && r.millis == 0
    ensures !(0 <= c.year <= 99) ==> SameDay(r, c)
    ensures MsOfDay(r) == (h * 60 + m) * 60000
  {
    var d := ConstructedDay(c);
    CivilTime(d.year, d.month, d.day, h, m, 0, 0)
  }

  // ---------------------------------------------------------------------------
  // toISOString
  // ---------------------------------------------------------------------------

  /** The year field of an ISO string: four digits for 0..9999, otherwise a sign and six digits. */
  function IsoYear(y: int): (r: string)
    requires MinYear <= y <= MaxYear
    ensures 0 <= y <= 9999 ==> |r| == 4 && AllDigits(r)
    ensures !(0 <= y <= 9999) ==> |r| == 7 && (r[0] == '+' || r[0] == '-') && AllDigits(r[1..])
  {
    if 0 <= y <= 9999 then FixedDigits(y, 4)
    else if y < 0 then "-" + FixedDigits(-y, 6)
    else "+" + FixedDigits(y, 6)
  }

  /** n written with exactly `width` digits, zero-padded on the left. */
  function FixedDigits(n: nat, width: nat): (r: string)
    requires n < Pow10(width)
    ensures |r| == width && AllDigits(r)
    ensures DigitsValue(r) == n
  {
    if width == 0 then ""
    else
      var r := FixedDigits(n / 10, width - 1) + [DigitChar(n % 10)];
      assert r[..|r| - 1] == FixedDigits(n / 10, width - 1);
      r
  }

  function Pow10(k: nat): (p: nat)
    ensures p >= 1
  {
    if k == 0 then 1 else 10 * Pow10(k - 1)
  }

  /** The calendar-day part `YYYY-MM-DD` of an ISO string. */
  function IsoDatePart(c: Civil): string {
    IsoYear(c.year) + "-" + TwoDigits(c.month + 1) + "-" + TwoDigits(c.day)
  }

  /** `date.toISOString()`: `YYYY-MM-DDTHH:mm:ss.sssZ` in UTC (which is local time here).
      An invalid date throws a RangeError, modelled as None. */
  function ToIsoString(d: JsDate): (r: Option<string>)
    ensures r.None? <==> d.InvalidDate?
  {
    match d
    case InvalidDate => None
    case ValidDate(c) =>
      Some(IsoDatePart(c) + "T" + TwoDigits(c.hour) + ":" + TwoDigits(c.minute) + ":"
           + TwoDigits(c.second) + "." + FixedDigits(c.millis, 3) + "Z")
  }

  lemma AllDigitsNoChar(s: string, c: char)
    requires AllDigits(s) && !IsDigit(c)
    ensures c !in s
  {
  }

  /** The calendar-day part of an ISO string carries no 'T': it is what precedes the first 'T'. */
  lemma IsoDatePartHasNoT(c: Civil)
    ensures 'T' !in IsoDatePart(c)
  {
    var y := IsoYear(c.year);
    if 0 <= c.year <= 9999 {
      AllDigitsNoChar(y, 'T');
    } else {
      AllDigitsNoChar(y[1..], 'T');
      assert y == [y[0]] + y[1..];
    }
    AllDigitsNoChar(TwoDigits(c.month + 1), 'T');
    AllDigitsNoChar(TwoDigits(c.day), 'T');
  }
}
