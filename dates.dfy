/**
 Calendar dates as Python's `datetime` holds them, and the two ways the
 application renders them: `strftime('%Y-%m')` for the dashboard's month
 keys and `strftime('%Y-%m-%d')` for the exported file.
 */
module Dates {
  import opened StringOrder

  datatype CivilDate = CivilDate(year: int, month: int, day: int)

  predicate IsLeapYear(year: int)
  {
    year % 4 == 0 && (year % 100 != 0 || year % 400 == 0)
  }

  function DaysInMonth(year: int, month: int): (n: int)
    requires 1 <= month <= 12
    ensures 28 <= n <= 31
  {
    if month == 2 then (if IsLeapYear(year) then 29 else 28)
    else if month == 4 || month == 6 || month == 9 || month == 11 then 30
    else 31
  }

  /** The dates a `datetime` can hold: years 1 to 9999 of the Gregorian calendar. */
  predicate IsValid(d: CivilDate)
  {
    && 1 <= d.year <= 9999
    && 1 <= d.month <= 12
    && 1 <= d.day <= DaysInMonth(d.year, d.month)
  }

  type Date = d: CivilDate | IsValid(d) witness CivilDate(1, 1, 1)

  /** Chronological order of the months two dates fall in. */
  predicate MonthBefore(a: Date, b: Date)
  {
    a.year < b.year || (a.year == b.year && a.month < b.month)
  }

  /** Chronological order of two dates (day granularity). */
  predicate DayBefore(a: Date, b: Date)
  {
    MonthBefore(a, b) || (a.year == b.year && a.month == b.month && a.day < b.day)
  }

  predicate IsDigits(s: string)
  {
    forall i :: 0 <= i < |s| ==> '0' <= s[i] <= '9'
  }

  /** The number a string of decimal digits spells. */
  function DigitsValue(s: string): int
    requires IsDigits(s)
  {
    if |s| == 0 then 0
    else DigitsValue(s[..|s| - 1]) * 10 + (s[|s| - 1] as int - '0' as int)
  }

  function Digit(n: int): char
    requires 0 <= n < 10
  {
    ('0' as int + n) as char
  }

  function Pow10(w: nat): (p: nat)
    ensures p >= 1
  {
    if w == 0 then 1 else 10 * Pow10(w - 1)
  }

  /** `n` written with exactly `w` decimal digits, zero-padded on the left. */
  function ZeroPad(n: nat, w: nat): (s: string)
    ensures |s| == w
  {
    if w == 0 then [] else ZeroPad(n / 10, w - 1) + [Digit(n % 10)]
  }

  /** The padded digits read back as the number, whenever it fits the width. */
  lemma {:induction false} ZeroPadDigits(n: nat, w: nat)
    requires n < Pow10(w)
    ensures |ZeroPad(n, w)| == w && IsDigits(ZeroPad(n, w)) && DigitsValue(ZeroPad(n, w)) == n
  {
    if w > 0 {
      ZeroPadDigits(n / 10, w - 1);
      var s := ZeroPad(n, w);
      assert s[..|s| - 1] == ZeroPad(n / 10, w - 1);
    }
  }

  lemma ZeroPadInjective(n: nat, m: nat, w: nat)
    requires n < Pow10(w) && m < Pow10(w)
    ensures ZeroPad(n, w) == ZeroPad(m, w) <==> n == m
  {
    ZeroPadDigits(n, w);
    ZeroPadDigits(m, w);
  }

  lemma DivModOrder(n: nat, m: nat)
    ensures n < m <==> n / 10 < m / 10 || (n / 10 == m / 10 && n % 10 < m % 10)
  {
  }

  /** Among numbers that fit the width, string order of the padded forms is numeric order. */
  lemma {:induction false} ZeroPadOrder(n: nat, m: nat, w: nat)
    requires n < Pow10(w) && m < Pow10(w)
    ensures Less(ZeroPad(n, w), ZeroPad(m, w)) <==> n < m
  {
    if w == 0 {
      LessIrreflexive([]);
    } else {
      ZeroPadDigits(n / 10, w - 1);
      ZeroPadDigits(m / 10, w - 1);
      ZeroPadOrder(n / 10, m / 10, w - 1);
      ZeroPadInjective(n / 10, m / 10, w - 1);
      var dn, dm := [Digit(n % 10)], [Digit(m % 10)];
      LessConcat(ZeroPad(n / 10, w - 1), dn, ZeroPad(m / 10, w - 1), dm);
      assert dn[1..] == [] && dm[1..] == [];
      assert Less(dn, dm) <==> n % 10 < m % 10;
      DivModOrder(n, m);
    }
  }

  /**
   `strftime('%Y-%m')`: the month key, four digits of year, a dash and two
   digits of month.
   */
  function MonthKey(d: Date): (k: string)
    ensures |k| == 7 && k[4] == '-'
  {
    ZeroPad(d.year, 4) + "-" + ZeroPad(d.month, 2)
  }

  /** `strftime('%Y-%m-%d')`: the month key, a dash and two digits of day. */
  function IsoDate(d: Date): (s: string)
    ensures |s| == 10 && s[..7] == MonthKey(d) && s[7] == '-'
  {
    MonthKey(d) + "-" + ZeroPad(d.day, 2)
  }

  /**
   The month key is zero-padded `YYYY-MM`: four digits that read back as the
   year, a dash, two digits that read back as the month.
   */
  lemma MonthKeyFormat(d: Date)
    ensures var k := MonthKey(d);
      && |k| == 7 && k[4] == '-'
      && IsDigits(k[..4]) && DigitsValue(k[..4]) == d.year
      && IsDigits(k[5..]) && DigitsValue(k[5..]) == d.month
  {
    ZeroPadDigits(d.year, 4);
    ZeroPadDigits(d.month, 2);
    var k := MonthKey(d);
    assert k[..4] == ZeroPad(d.year, 4) && k[5..] == ZeroPad(d.month, 2);
  }

  /**
   The exported date is zero-padded `YYYY-MM-DD`: the month key, a dash, and
   two digits that read back as the day.
   */
  lemma IsoDateFormat(d: Date)
    ensures var s := IsoDate(d);
      && |s| == 10 && s[..7] == MonthKey(d) && s[7] == '-'
      && IsDigits(s[8..]) && DigitsValue(s[8..]) == d.day
  {
    MonthKeyFormat(d);
    ZeroPadDigits(d.day, 2);
    var s := IsoDate(d);
    assert s[..7] == MonthKey(d) && s[8..] == ZeroPad(d.day, 2);
  }

  /** Two dates share a month key exactly when they fall in the same month. */
  lemma MonthKeyInjective(a: Date, b: Date)
    ensures MonthKey(a) == MonthKey(b) <==> a.year == b.year && a.month == b.month
  {
    MonthKeyFormat(a);
    MonthKeyFormat(b);
  }

  /** The exported date string determines the date. */
  lemma IsoDateInjective(a: Date, b: Date)
    ensures IsoDate(a) == IsoDate(b) <==> a == b
  {
    if IsoDate(a) == IsoDate(b) {
      IsoDateFormat(a);
      IsoDateFormat(b);
      MonthKeyInjective(a, b);
      assert IsoDate(a)[8..] == IsoDate(b)[8..];
    }
  }

  /**
   For the zero-padded keys, Python's string order is the chronological
   order of the months, so sorting the keys sorts the trend line in time.
   */
  lemma MonthKeyOrder(a: Date, b: Date)
    ensures Less(MonthKey(a), MonthKey(b)) <==> MonthBefore(a, b)
  {
    ZeroPadDigits(a.year, 4);
    ZeroPadDigits(b.year, 4);
    var ya, yb := ZeroPad(a.year, 4), ZeroPad(b.year, 4);
    var ma, mb := "-" + ZeroPad(a.month, 2), "-" + ZeroPad(b.month, 2);
    assert MonthKey(a) == ya + ma && MonthKey(b) == yb + mb;
    LessConcat(ya, ma, yb, mb);
    LessConcat("-", ZeroPad(a.month, 2), "-", ZeroPad(b.month, 2));
    LessIrreflexive("-");
    ZeroPadOrder(a.year, b.year, 4);
    ZeroPadInjective(a.year, b.year, 4);
    ZeroPadOrder(a.month, b.month, 2);
  }
}
