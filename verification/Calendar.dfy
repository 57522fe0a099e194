/**
 * `YYYY-MM-DD` dates: the strings, their order under JavaScript's `<`, and the day numbers of
 * section 21.4.1 of ECMA-262.
 */
module Calendar {
  import opened Wrappers
  import opened Decimal

  // ---- Strings -------------------------------------------------------------

  /** JavaScript's `s < t` on strings. */
  predicate LexLess(s: string, t: string) {
    if t == [] then false
    else if s == [] then true
    else s[0] < t[0] || (s[0] == t[0] && LexLess(s[1..], t[1..]))
  }

  /** `n` in exactly `width` digits. */
  function Pad(n: nat, width: nat): (s: string)
    requires n < Pow10(width)
    ensures |s| == width && AllDigits(s)
  {
    if width == 0 then "" else Pad(n / 10, width - 1) + [DigitOf(n % 10)]
  }

  lemma {:induction false} ValueOfPad(n: nat, width: nat)
    requires n < Pow10(width)
    ensures Value(Pad(n, width)) == n
  {
    if width > 0 {
      ValueOfPad(n / 10, width - 1);
      assert Pad(n, width)[..width - 1] == Pad(n / 10, width - 1);
    }
  }

  lemma {:induction false} PadOfValue(s: string)
    requires AllDigits(s)
    ensures Value(s) < Pow10(|s|) && Pad(Value(s), |s|) == s
  {
    if s != [] {
      PadOfValue(s[..|s| - 1]);
      assert s == s[..|s| - 1] + [s[|s| - 1]];
    }
  }

  /** Comparing two strings with heads of equal length compares the heads first. */
  lemma {:induction false} LexConcat(a: string, c: string, b: string, d: string)
    requires |a| == |b|
    ensures LexLess(a + c, b + d) <==> LexLess(a, b) || (a == b && LexLess(c, d))
  {
    if a == [] {
      assert a + c == c && b + d == d;
    } else {
      LexConcat(a[1..], c, b[1..], d);
      assert (a + c)[1..] == a[1..] + c && (b + d)[1..] == b[1..] + d;
      assert a == [a[0]] + a[1..] && b == [b[0]] + b[1..];
    }
  }

  /** Numerals of equal width are in string order exactly when their values are in order. */
  lemma {:induction false} LexIsNumeric(s: string, t: string)
    requires |s| == |t| && AllDigits(s) && AllDigits(t)
    ensures LexLess(s, t) <==> Value(s) < Value(t)
    ensures s == t <==> Value(s) == Value(t)
  {
    PadOfValue(s);
    PadOfValue(t);
    if s != [] {
      var n := |s| - 1;
      LexIsNumeric(s[..n], t[..n]);
      assert s == s[..n] + [s[n]] && t == t[..n] + [t[n]];
      LexConcat(s[..n], [s[n]], t[..n], [t[n]]);
    }
  }

  // ---- Dates ---------------------------------------------------------------

  datatype Date = Date(year: nat, month: nat, day: nat)

  predicate Leap(year: int) {
    (year % 4 == 0 && year % 100 != 0) || year % 400 == 0
  }

  function DaysInMonth(year: int, month: nat): nat {
    if month == 2 then if Leap(year) then 29 else 28
    else if month in {4, 6, 9, 11} then 30
    else 31
  }

  /** Four, two and two digits, whatever they say. */
  predicate Shaped(d: Date) {
    d.year < 10_000 && d.month < 100 && d.day < 100
  }

  /** A day of the Gregorian calendar. */
  predicate Real(d: Date) {
    d.year < 10_000 && 1 <= d.month <= 12 && 1 <= d.day <= DaysInMonth(d.year, d.month)
  }

  lemma Powers()
    ensures Pow10(2) == 100 && Pow10(4) == 10_000
  {
    assert Pow10(1) == 10 && Pow10(3) == 10 * Pow10(2);
  }

  function Format(d: Date): (s: string)
    requires Shaped(d)
  {
    Powers();
    Pad(d.year, 4) + ("-" + (Pad(d.month, 2) + ("-" + Pad(d.day, 2))))
  }

  /** `/^\d{4}-\d{2}-\d{2}$/`, and the three numbers. */
  function Read(s: string): (r: Option<Date>)
    ensures r.Some? ==> Shaped(r.value)
  {
    if |s| == 10 && AllDigits(s[..4]) && s[4] == '-' && AllDigits(s[5..7]) && s[7] == '-' && AllDigits(s[8..]) then
      Powers();
      PadOfValue(s[..4]);
      PadOfValue(s[5..7]);
      PadOfValue(s[8..]);
      Some(Date(Value(s[..4]), Value(s[5..7]), Value(s[8..])))
    else None
  }

  lemma ReadFormat(d: Date)
    requires Shaped(d)
    ensures Read(Format(d)) == Some(d)
  {
    Powers();
    var s := Format(d);
    assert s[..4] == Pad(d.year, 4) && s[5..7] == Pad(d.month, 2) && s[8..] == Pad(d.day, 2);
    ValueOfPad(d.year, 4);
    ValueOfPad(d.month, 2);
    ValueOfPad(d.day, 2);
  }

  lemma FormatRead(s: string)
    requires Read(s).Some?
    ensures Format(Read(s).value) == s
  {
    Powers();
    PadOfValue(s[..4]);
    PadOfValue(s[5..7]);
    PadOfValue(s[8..]);
    assert s == s[..4] + ([s[4]] + (s[5..7] + ([s[7]] + s[8..])));
  }

  /** Year, then month, then day. */
  predicate Earlier(a: Date, b: Date) {
    a.year < b.year || (a.year == b.year && (a.month < b.month || (a.month == b.month && a.day < b.day)))
  }

  lemma PadOrder(m: nat, n: nat, width: nat)
    requires m < Pow10(width) && n < Pow10(width)
    ensures LexLess(Pad(m, width), Pad(n, width)) <==> m < n
    ensures Pad(m, width) == Pad(n, width) <==> m == n
  {
    LexIsNumeric(Pad(m, width), Pad(n, width));
    ValueOfPad(m, width);
    ValueOfPad(n, width);
  }

  /** The strings are ordered as the dates are. */
  lemma StringOrder(a: Date, b: Date)
    requires Shaped(a) && Shaped(b)
    ensures LexLess(Format(a), Format(b)) <==> Earlier(a, b)
  {
    Powers();
    PadOrder(a.year, b.year, 4);
    PadOrder(a.month, b.month, 2);
    PadOrder(a.day, b.day, 2);
    var da, db := Pad(a.day, 2), Pad(b.day, 2);
    var ma, mb := Pad(a.month, 2) + ("-" + da), Pad(b.month, 2) + ("-" + db);
    LexConcat("-", da, "-", db);
    LexConcat(Pad(a.month, 2), "-" + da, Pad(b.month, 2), "-" + db);
    LexConcat("-", ma, "-", mb);
    LexConcat(Pad(a.year, 4), "-" + ma, Pad(b.year, 4), "-" + mb);
  }

  // ---- Day numbers ---------------------------------------------------------

  /** The day number of 1 January, counted from 1 January 1970. */
  function DayFromYear(year: int): int {
    365 * (year - 1970) + (year - 1969) / 4 - (year - 1901) / 100 + (year - 1601) / 400
  }

  /** Days of the year before the month begins. */
  function MonthStart(year: int, month: nat): nat {
    var leap := if Leap(year) then 1 else 0;
    if month <= 1 then 0
    else if month == 2 then 31
    else if month == 3 then 59 + leap
    else if month == 4 then 90 + leap
    else if month == 5 then 120 + leap
    else if month == 6 then 151 + leap
    else if month == 7 then 181 + leap
    else if month == 8 then 212 + leap
    else if month == 9 then 243 + leap
    else if month == 10 then 273 + leap
    else if month == 11 then 304 + leap
    else if month == 12 then 334 + leap
    else 365 + leap
  }

  /** The day number of a date; a day past the end of its month rolls over into the next. */
  function MakeDay(d: Date): int {
    DayFromYear(d.year) + MonthStart(d.year, d.month) + d.day - 1
  }

  /** `Date.parse(`${s}T00:00:00Z`) / 86_400_000`, or nothing for an invalid date. */
  function DayNumber(s: string): Option<int> {
    match Read(s)
    case None => None
    case Some(d) => if 1 <= d.month <= 12 && 1 <= d.day <= 31 then Some(MakeDay(d)) else None
  }

  lemma FourYears(year: int)
    ensures (year - 1968) / 4 == (year - 1969) / 4 + if year % 4 == 0 then 1 else 0
  {
  }

  lemma Century(year: int)
    ensures (year - 1900) / 100 == (year - 1901) / 100 + if year % 100 == 0 then 1 else 0
  {
  }

  lemma FourCenturies(year: int)
    ensures (year - 1600) / 400 == (year - 1601) / 400 + if year % 400 == 0 then 1 else 0
  {
  }

  lemma Multiples(year: int)
    ensures year % 100 == 0 ==> year % 4 == 0
    ensures year % 400 == 0 ==> year % 100 == 0
  {
    assert year == 100 * (year / 100) + year % 100;
    assert year == 400 * (year / 400) + year % 400;
    if year % 100 == 0 {
      assert year == 4 * (25 * (year / 100));
    }
    if year % 400 == 0 {
      assert year == 100 * (4 * (year / 400));
    }
  }

  lemma YearLength(year: int)
    ensures DayFromYear(year + 1) == DayFromYear(year) + if Leap(year) then 366 else 365
  {
    FourYears(year);
    Century(year);
    FourCenturies(year);
    Multiples(year);
  }

  lemma {:induction false} YearsApart(y: int, z: int)
    requires y <= z
    ensures DayFromYear(y) + 365 * (z - y) <= DayFromYear(z)
    decreases z - y
  {
    if y < z {
      YearsApart(y, z - 1);
      YearLength(z - 1);
    }
  }

  lemma MonthLength(year: int, month: nat)
    requires 1 <= month <= 12
    ensures MonthStart(year, month + 1) == MonthStart(year, month) + DaysInMonth(year, month)
  {
  }

  lemma {:induction false} MonthsApart(year: int, m: nat, n: nat)
    requires 1 <= m <= n <= 13
    ensures MonthStart(year, m) + 28 * (n - m) <= MonthStart(year, n)
    decreases n - m
  {
    if m < n {
      MonthsApart(year, m, n - 1);
      MonthLength(year, n - 1);
    }
  }

  /** A real date lies inside its year and its month. */
  lemma WithinYear(d: Date)
    requires Real(d)
    ensures DayFromYear(d.year) <= MakeDay(d) < DayFromYear(d.year + 1)
    ensures MonthStart(d.year, d.month) <= MakeDay(d) - DayFromYear(d.year) < MonthStart(d.year, d.month + 1)
  {
    YearLength(d.year);
    MonthLength(d.year, d.month);
    MonthsApart(d.year, d.month + 1, 13);
  }

  lemma EarlierIsLess(a: Date, b: Date)
    requires Real(a) && Real(b) && Earlier(a, b)
    ensures MakeDay(a) < MakeDay(b)
  {
    WithinYear(a);
    WithinYear(b);
    if a.year < b.year {
      YearsApart(a.year + 1, b.year);
    } else if a.month < b.month {
      MonthsApart(a.year, a.month + 1, b.month);
    }
  }

  /** The date order theorem: dates compare as strings exactly as they compare as day numbers. */
  lemma DateOrder(a: Date, b: Date)
    requires Real(a) && Real(b)
    ensures LexLess(Format(a), Format(b)) <==> MakeDay(a) < MakeDay(b)
    ensures Format(a) == Format(b) <==> MakeDay(a) == MakeDay(b)
  {
    StringOrder(a, b);
    ReadFormat(a);
    ReadFormat(b);
    if Earlier(a, b) {
      EarlierIsLess(a, b);
    } else if a != b {
      EarlierIsLess(b, a);
    }
  }

  /** The day after, by the calendar. */
  function Tomorrow(d: Date): Date {
    if d.day < DaysInMonth(d.year, d.month) then d.(day := d.day + 1)
    else if d.month < 12 then Date(d.year, d.month + 1, 1)
    else Date(d.year + 1, 1, 1)
  }

  /** ... is the next day number, and a real date up to the end of the year 9999. */
  lemma NextDay(d: Date)
    requires Real(d)
    ensures MakeDay(Tomorrow(d)) == MakeDay(d) + 1
    ensures Real(Tomorrow(d)) <==> d != Date(9999, 12, 31)
  {
    YearLength(d.year);
    MonthLength(d.year, d.month);
  }

  // ---- From day numbers back to dates ----------------------------------------

  /** Day numbers count from 1 January 1970. */
  lemma Epoch()
    ensures MakeDay(Date(1970, 1, 1)) == 0
    ensures MakeDay(Date(2026, 10, 26)) == 20752
  {
  }

  /** Thirty days have four months; February has 28, and one more in a leap year. */
  lemma MonthLengths(year: int)
    ensures DaysInMonth(year, 2) == if Leap(year) then 29 else 28
    ensures DaysInMonth(year, 4) == DaysInMonth(year, 6) == DaysInMonth(year, 9) == DaysInMonth(year, 11) == 30
    ensures DaysInMonth(year, 1) == DaysInMonth(year, 3) == DaysInMonth(year, 5) == DaysInMonth(year, 7) == 31
    ensures DaysInMonth(year, 8) == DaysInMonth(year, 10) == DaysInMonth(year, 12) == 31
  {
  }

  /** Day numbers that `toISOString` prints with a four-digit year. */
  predicate FourDigitDay(n: int) {
    DayFromYear(0) <= n < DayFromYear(10_000)
  }

  /** The last year that does not begin after day `n`. */
  function YearFrom(n: int, from: nat): (year: nat)
    requires from < 10_000 && DayFromYear(from) <= n < DayFromYear(10_000)
    ensures from <= year < 10_000 && DayFromYear(year) <= n < DayFromYear(year + 1)
    decreases 10_000 - from
  {
    if n < DayFromYear(from + 1) then from else YearFrom(n, from + 1)
  }

  /** The last month that does not begin after day `k` of the year. */
  function MonthFrom(year: int, k: nat, from: nat): (month: nat)
    requires 1 <= from <= 12 && MonthStart(year, from) <= k < MonthStart(year, 13)
    ensures from <= month <= 12 && MonthStart(year, month) <= k < MonthStart(year, month + 1)
    decreases 13 - from
  {
    if k < MonthStart(year, from + 1) then from else MonthFrom(year, k, from + 1)
  }

  function DateOf(n: int): (d: Date)
    requires FourDigitDay(n)
    ensures Real(d) && MakeDay(d) == n
  {
    var year := YearFrom(n, 0);
    YearLength(year);
    var k := n - DayFromYear(year);
    var month := MonthFrom(year, k, 1);
    MonthLength(year, month);
    Date(year, month, k - MonthStart(year, month) + 1)
  }

  /** The first ten characters of `toISOString()` at midnight of day `n`. */
  function IsoDay(n: int): (s: string)
    requires FourDigitDay(n)
    ensures Read(s) == Some(DateOf(n))
  {
    ReadFormat(DateOf(n));
    Format(DateOf(n))
  }

  lemma RealIsFourDigit(d: Date)
    requires Real(d)
    ensures FourDigitDay(MakeDay(d))
  {
    WithinYear(d);
    YearsApart(0, d.year);
    YearsApart(d.year + 1, 10_000);
  }

  /** Real dates and four-digit day numbers are in one-to-one correspondence. */
  lemma DateOfMakeDay(d: Date)
    requires Real(d)
    ensures FourDigitDay(MakeDay(d)) && DateOf(MakeDay(d)) == d
  {
    RealIsFourDigit(d);
    DateOrder(DateOf(MakeDay(d)), d);
    ReadFormat(DateOf(MakeDay(d)));
    ReadFormat(d);
  }

  lemma IsoDayOrder(m: int, n: int)
    requires FourDigitDay(m) && FourDigitDay(n)
    ensures LexLess(IsoDay(m), IsoDay(n)) <==> m < n
    ensures IsoDay(m) == IsoDay(n) <==> m == n
  {
    DateOrder(DateOf(m), DateOf(n));
  }

  // ---- Checking a date -------------------------------------------------------

  /** What a check of a string comes to: `toISOString` throws on an invalid date. */
  datatype Check = Accepts | Rejects | Throws

  /** A day that rolls over lands in the next month of the same year, or stays put. */
  lemma RolledOver(d: Date)
    requires d.year < 10_000 && 1 <= d.month <= 12 && 1 <= d.day <= 31 && !Real(d)
    ensures d.month < 12 && Real(Date(d.year, d.month + 1, d.day - DaysInMonth(d.year, d.month)))
    ensures MakeDay(d) == MakeDay(Date(d.year, d.month + 1, d.day - DaysInMonth(d.year, d.month)))
  {
    MonthLength(d.year, d.month);
  }

  lemma AnyDayIsFourDigit(d: Date)
    requires d.year < 10_000 && 1 <= d.month <= 12 && 1 <= d.day <= 31
    ensures FourDigitDay(MakeDay(d))
  {
    if Real(d) {
      RealIsFourDigit(d);
    } else {
      RolledOver(d);
      RealIsFourDigit(Date(d.year, d.month + 1, d.day - DaysInMonth(d.year, d.month)));
    }
  }

  /** The campaign form's `isDate` and the blog's `realDay`: the date must print back as it was written. */
  function CheckDate(s: string): (c: Check) {
    if Read(s).None? then Rejects
    else
      var d := Read(s).value;
      if 1 <= d.month <= 12 && 1 <= d.day <= 31 then
        AnyDayIsFourDigit(d);
        if IsoDay(MakeDay(d)) == s then Accepts else Rejects
      else Throws
  }

  /** A date comes back from its day number exactly when it is real. */
  lemma ComesBack(d: Date)
    requires d.year < 10_000 && 1 <= d.month <= 12 && 1 <= d.day <= 31
    ensures FourDigitDay(MakeDay(d)) && (DateOf(MakeDay(d)) == d <==> Real(d))
  {
    AnyDayIsFourDigit(d);
    if Real(d) {
      DateOfMakeDay(d);
    }
  }

  lemma IsoDayIs(n: int, s: string)
    requires FourDigitDay(n) && Read(s).Some?
    ensures IsoDay(n) == s <==> DateOf(n) == Read(s).value
  {
    FormatRead(s);
  }

  /**
   * A string is accepted exactly when it is a day of the Gregorian calendar, leap years and
   * centuries included; and the check throws exactly on a shaped date whose month or day no
   * calendar has.
   */
  lemma AcceptsExactlyRealDates(s: string)
    ensures CheckDate(s).Accepts? <==> Read(s).Some? && Real(Read(s).value)
    ensures CheckDate(s).Throws? <==>
            Read(s).Some? && !(1 <= Read(s).value.month <= 12 && 1 <= Read(s).value.day <= 31)
  {
    if Read(s).Some? {
      var d := Read(s).value;
      if 1 <= d.month <= 12 && 1 <= d.day <= 31 {
        ComesBack(d);
        IsoDayIs(MakeDay(d), s);
      }
    }
  }
}
