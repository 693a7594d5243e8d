/**
 * Calendar days and their `YYYY-MM-DD` rendering.
 *
 * The source turns a `Date` into a database date with
 * `d.toISOString().split('T')[0]` and turns a database date back into a `Date`
 * with `new Date(s)`. Here a day is a natural number counted from 0000-01-01 in
 * the proleptic Gregorian calendar (UTC), `IsoDate` is the rendering and
 * `ParseIsoDate` the parse of the date-only ISO format.
 */
module Calendar {
  import opened Common

  /** A calendar day: the number of days since 0000-01-01. */
  type Day = nat

  predicate IsLeapYear(y: nat) {
    y % 4 == 0 && (y % 100 != 0 || y % 400 == 0)
  }

  function DaysInYear(y: nat): nat {
    if IsLeapYear(y) then 366 else 365
  }

  /** Days of year `y` that lie before the first of month `m`; month 13 stands for the next January. */
  function DaysBeforeMonth(y: nat, m: nat): (r: nat)
    requires 1 <= m <= 13
    ensures m == 1 ==> r == 0
    ensures m == 13 ==> r == DaysInYear(y)
  {
    var leap := if IsLeapYear(y) then 1 else 0;
    if m == 1 then 0 else if m == 2 then 31 else if m == 3 then 59 + leap
    else if m == 4 then 90 + leap else if m == 5 then 120 + leap
    else if m == 6 then 151 + leap else if m == 7 then 181 + leap
    else if m == 8 then 212 + leap else if m == 9 then 243 + leap
    else if m == 10 then 273 + leap else if m == 11 then 304 + leap
    else if m == 12 then 334 + leap else 365 + leap
  }

  /** Length of month `m` of year `y`: 28 to 31 days, February 29 in leap years. */
  function DaysInMonth(y: nat, m: nat): (r: nat)
    requires 1 <= m <= 12
    ensures 28 <= r <= 31
    ensures m == 2 ==> (r == 29 <==> IsLeapYear(y))
    ensures DaysBeforeMonth(y, m) + r == DaysBeforeMonth(y, m + 1)
  {
    DaysBeforeMonth(y, m + 1) - DaysBeforeMonth(y, m)
  }

  /** Days from 0000-01-01 to the first of January of year `y`. */
  function DaysBeforeYear(y: nat): nat {
    if y == 0 then 0 else DaysBeforeYear(y - 1) + DaysInYear(y - 1)
  }

  /** A year/month/day triple. */
  datatype CivilDate = CivilDate(year: nat, month: nat, day: nat)

  predicate ValidCivil(c: CivilDate) {
    1 <= c.month <= 12 && 1 <= c.day <= DaysInMonth(c.year, c.month)
  }

  /** The day number of a calendar date. */
  function ToDay(c: CivilDate): Day
    requires ValidCivil(c)
  {
    DaysBeforeYear(c.year) + DaysBeforeMonth(c.year, c.month) + c.day - 1
  }

  /** Splits `n` days counted from the first of January of `y0` into a year and a day within that year. */
  function YearSplit(n: nat, y0: nat): (r: (nat, nat))
    ensures r.0 >= y0 && r.1 < DaysInYear(r.0)
    ensures DaysBeforeYear(r.0) + r.1 == DaysBeforeYear(y0) + n
    decreases n
  {
    if n < DaysInYear(y0) then (y0, n) else YearSplit(n - DaysInYear(y0), y0 + 1)
  }

  /** The month (from `m` on) that contains day `r` of year `y`. */
  function MonthOf(y: nat, r: nat, m: nat): (res: nat)
    requires 1 <= m <= 12 && DaysBeforeMonth(y, m) <= r < DaysInYear(y)
    ensures m <= res <= 12
    ensures DaysBeforeMonth(y, res) <= r < DaysBeforeMonth(y, res + 1)
    decreases 12 - m
  {
    if m == 12 || r < DaysBeforeMonth(y, m + 1) then m else MonthOf(y, r, m + 1)
  }

  /** The calendar date of a day number. */
  function ToCivil(d: Day): (c: CivilDate)
    ensures ValidCivil(c)
    ensures ToDay(c) == d
  {
    var (y, r) := YearSplit(d, 0);
    var m := MonthOf(y, r, 1);
    CivilDate(y, m, r - DaysBeforeMonth(y, m) + 1)
  }

  /** Years start further apart than one year's length. */
  lemma {:induction false} DaysBeforeYearGrows(a: nat, b: nat)
    requires a < b
    ensures DaysBeforeYear(a) + DaysInYear(a) <= DaysBeforeYear(b)
    decreases b
  {
    if a + 1 < b {
      DaysBeforeYearGrows(a, b - 1);
    }
  }

  /** A day number has one year/day-of-year decomposition. */
  lemma YearDecompositionUnique(y1: nat, r1: nat, y2: nat, r2: nat)
    requires r1 < DaysInYear(y1) && r2 < DaysInYear(y2)
    requires DaysBeforeYear(y1) + r1 == DaysBeforeYear(y2) + r2
    ensures y1 == y2 && r1 == r2
  {
    if y1 < y2 {
      DaysBeforeYearGrows(y1, y2);
    } else if y2 < y1 {
      DaysBeforeYearGrows(y2, y1);
    }
  }

  /** A calendar date has one day number's worth of decomposition: the two conversions are inverse. */
  lemma CivilRoundTrip(c: CivilDate)
    requires ValidCivil(c)
    ensures ToCivil(ToDay(c)) == c
  {
    ToDayInjective(c, ToCivil(ToDay(c)));
  }

  /** Different valid dates have different day numbers. */
  lemma ToDayInjective(c1: CivilDate, c2: CivilDate)
    requires ValidCivil(c1) && ValidCivil(c2)
    requires ToDay(c1) == ToDay(c2)
    ensures c1 == c2
  {
    var r1 := DaysBeforeMonth(c1.year, c1.month) + c1.day - 1;
    var r2 := DaysBeforeMonth(c2.year, c2.month) + c2.day - 1;
    assert r1 < DaysBeforeMonth(c1.year, c1.month + 1);
    MonthStartsGrow(c1.year, c1.month + 1, 13);
    assert r2 < DaysBeforeMonth(c2.year, c2.month + 1);
    MonthStartsGrow(c2.year, c2.month + 1, 13);
    YearDecompositionUnique(c1.year, r1, c2.year, r2);
    MonthUnique(c1.year, c1.month, c2.month, r1);
  }

  /** Each day of a year falls in one month. */
  lemma MonthUnique(y: nat, m1: nat, m2: nat, r: nat)
    requires 1 <= m1 <= 12 && 1 <= m2 <= 12
    requires DaysBeforeMonth(y, m1) <= r < DaysBeforeMonth(y, m1 + 1)
    requires DaysBeforeMonth(y, m2) <= r < DaysBeforeMonth(y, m2 + 1)
    ensures m1 == m2
  {
    if m1 < m2 {
      MonthStartsGrow(y, m1 + 1, m2);
    } else if m2 < m1 {
      MonthStartsGrow(y, m2 + 1, m1);
    }
  }

  lemma MonthStartsGrow(y: nat, a: nat, b: nat)
    requires 1 <= a <= b <= 13
    ensures DaysBeforeMonth(y, a) <= DaysBeforeMonth(y, b)
  {}

  /** Later days never fall in earlier years. */
  lemma YearMonotonic(d1: Day, d2: Day)
    requires d1 <= d2
    ensures ToCivil(d1).year <= ToCivil(d2).year
  {
    var c1, c2 := ToCivil(d1), ToCivil(d2);
    if c1.year > c2.year {
      DaysBeforeYearGrows(c2.year, c1.year);
    }
  }

  // ---------------------------------------------------------------------------
  // Fixed-width decimal digits

  predicate IsDigit(c: char) {
    '0' <= c <= '9'
  }

  predicate AllDigits(s: string) {
    forall i :: 0 <= i < |s| ==> IsDigit(s[i])
  }

  function Pow10(w: nat): (r: nat)
    ensures r >= 1
  {
    if w == 0 then 1 else 10 * Pow10(w - 1)
  }

  function DigitChar(d: nat): (c: char)
    requires d < 10
    ensures IsDigit(c)
  {
    ('0' as int + d) as char
  }

  /** The last `w` decimal digits of `n`, left-padded with zeros (`String(n).padStart(w, "0")` when `n < 10^w`). */
  function FixedDigits(n: nat, w: nat): (r: string)
    ensures |r| == w && AllDigits(r)
  {
    if w == 0 then "" else FixedDigits(n / 10, w - 1) + [DigitChar(n % 10)]
  }

  /** The number a string of decimal digits denotes. */
  function DigitsValue(s: string): nat
    requires AllDigits(s)
  {
    if |s| == 0 then 0
    else DigitsValue(s[..|s| - 1]) * 10 + (s[|s| - 1] as int - '0' as int)
  }

  /** Reading back `w` digits gives the number, when it fits in `w` digits. */
  lemma {:induction false} FixedDigitsValue(n: nat, w: nat)
    requires n < Pow10(w)
    ensures DigitsValue(FixedDigits(n, w)) == n
  {
    if w > 0 {
      FixedDigitsValue(n / 10, w - 1);
      var s := FixedDigits(n, w);
      assert s[..|s| - 1] == FixedDigits(n / 10, w - 1);
    }
  }

  /** Writing back the value of a digit string in its own width gives the string. */
  lemma {:induction false} DigitsValueFixed(s: string)
    requires AllDigits(s)
    ensures DigitsValue(s) < Pow10(|s|)
    ensures FixedDigits(DigitsValue(s), |s|) == s
  {
    if |s| > 0 {
      var init := s[..|s| - 1];
      DigitsValueFixed(init);
      var v := DigitsValue(s);
      var last := s[|s| - 1] as int - '0' as int;
      assert v / 10 == DigitsValue(init) && v % 10 == last;
      assert s == init + [s[|s| - 1]];
    }
  }

  // ---------------------------------------------------------------------------
  // The date-only ISO format

  /** The year field of `toISOString`: four digits, or `+` and six digits past year 9999. */
  function YearText(y: nat): string {
    if y <= 9999 then FixedDigits(y, 4) else "+" + FixedDigits(y, 6)
  }

  /** `toISOString().split('T')[0]` of the UTC midnight of day `d`. */
  function IsoDate(d: Day): (s: string)
    ensures ToCivil(d).year <= 9999 ==> IsIsoDateShape(s)
  {
    var c := ToCivil(d);
    YearText(c.year) + "-" + FixedDigits(c.month, 2) + "-" + FixedDigits(c.day, 2)
  }

  /** `YYYY-MM-DD`: ten characters, dashes at positions 4 and 7, digits elsewhere. */
  predicate IsIsoDateShape(s: string) {
    && |s| == 10 && s[4] == '-' && s[7] == '-'
    && AllDigits(s[..4]) && AllDigits(s[5..7]) && AllDigits(s[8..])
  }

  /** `new Date(s)` for a date-only ISO string: the day it denotes, or `None` for an Invalid Date. */
  function ParseIsoDate(s: string): (r: Option<Day>)
    ensures r.Some? ==> IsIsoDateShape(s)
  {
    if IsIsoDateShape(s) then
      var c := CivilDate(DigitsValue(s[..4]), DigitsValue(s[5..7]), DigitsValue(s[8..]));
      if ValidCivil(c) then Some(ToDay(c)) else None
    else None
  }

  /** Rendering then parsing gives the day back (four-digit years). */
  lemma ParseRendered(d: Day)
    requires ToCivil(d).year <= 9999
    ensures ParseIsoDate(IsoDate(d)) == Some(d)
  {
    var c := ToCivil(d);
    var s := IsoDate(d);
    assert s[..4] == FixedDigits(c.year, 4);
    assert s[5..7] == FixedDigits(c.month, 2);
    assert s[8..] == FixedDigits(c.day, 2);
    FixedDigitsValue(c.year, 4);
    FixedDigitsValue(c.month, 2);
    FixedDigitsValue(c.day, 2);
  }

  /** Parsing then rendering gives the string back: a date read from the database is written back unchanged. */
  lemma RenderParsed(s: string)
    requires ParseIsoDate(s).Some?
    ensures IsoDate(ParseIsoDate(s).value) == s
  {
    var c := CivilDate(DigitsValue(s[..4]), DigitsValue(s[5..7]), DigitsValue(s[8..]));
    CivilRoundTrip(c);
    DigitsValueFixed(s[..4]);
    DigitsValueFixed(s[5..7]);
    DigitsValueFixed(s[8..]);
    assert s == s[..4] + "-" + s[5..7] + "-" + s[8..];
  }

  /** Distinct days (with four-digit years) render as distinct strings. */
  lemma IsoDateInjective(d1: Day, d2: Day)
    requires ToCivil(d1).year <= 9999 && ToCivil(d2).year <= 9999
    requires IsoDate(d1) == IsoDate(d2)
    ensures d1 == d2
  {
    ParseRendered(d1);
    ParseRendered(d2);
  }

  /** Two different days of four-digit years render as different `YYYY-MM-DD` strings. */
  lemma IsoDateDistinct(d1: Day, d2: Day)
    requires d1 < d2 && ToCivil(d2).year <= 9999
    ensures IsoDate(d1) != IsoDate(d2)
  {
    YearMonotonic(d1, d2);
    if IsoDate(d1) == IsoDate(d2) {
      IsoDateInjective(d1, d2);
    }
  }
}
