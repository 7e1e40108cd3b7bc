/** Calendar dates as the expiry report sees them: Python's `datetime.date`
    ordinal (so that `(a - b).days` is a difference of two integers), and
    `datetime.strptime(text, '%m/%d/%y')`. */
module Dates {
  import opened Wrappers
  import opened Text

  datatype Date = Date(year: int, month: int, day: int)

  predicate IsLeapYear(y: int) {
    y % 4 == 0 && (y % 100 != 0 || y % 400 == 0)
  }

  function DaysInMonth(y: int, m: int): (n: int)
    requires 1 <= m <= 12
    ensures 28 <= n <= 31
  {
    if m == 2 then (if IsLeapYear(y) then 29 else 28)
    else if m == 4 || m == 6 || m == 9 || m == 11 then 30
    else 31
  }

  function DaysInYear(y: int): int {
    if IsLeapYear(y) then 366 else 365
  }

  /** A date `datetime.date` accepts: years 1 to 9999, a real day of the month. */
  predicate ValidDate(d: Date) {
    1 <= d.year <= 9999 && 1 <= d.month <= 12 && 1 <= d.day <= DaysInMonth(d.year, d.month)
  }

  /** Days in the years before year `y`, counted from 1 January of year 1. */
  function DaysBeforeYear(y: int): int
    requires y >= 1
  {
    var p := y - 1;
    365 * p + p / 4 - p / 100 + p / 400
  }

  /** Days in the months of year `y` before month `m`. */
  function DaysBeforeMonth(y: int, m: int): int
    requires 1 <= m <= 12
  {
    var common := [0, 31, 59, 90, 120, 151, 181, 212, 243, 273, 304, 334][m - 1];
    if m > 2 && IsLeapYear(y) then common + 1 else common
  }

  /** `d.toordinal()`: 1 for 1 January of year 1, one more for each day after. */
  function DayNumber(d: Date): (n: int)
    requires ValidDate(d)
    ensures n >= 1
  {
    DaysBeforeYear(d.year) + DaysBeforeMonth(d.year, d.month) + d.day
  }

  /** `(later - earlier).days`. */
  function DayDifference(later: Date, earlier: Date): int
    requires ValidDate(later) && ValidDate(earlier)
  {
    DayNumber(later) - DayNumber(earlier)
  }

  /** Strict calendar order: by year, then month, then day. */
  predicate Before(a: Date, b: Date) {
    a.year < b.year || (a.year == b.year && (a.month < b.month || (a.month == b.month && a.day < b.day)))
  }

  /** The date after `d`. */
  function NextDay(d: Date): Date
    requires ValidDate(d)
  {
    if d.day < DaysInMonth(d.year, d.month) then Date(d.year, d.month, d.day + 1)
    else if d.month < 12 then Date(d.year, d.month + 1, 1)
    else Date(d.year + 1, 1, 1)
  }

  /** Each year adds its own length to the count of days before it. */
  lemma DaysBeforeYearStep(y: int)
    requires y >= 1
    ensures DaysBeforeYear(y + 1) == DaysBeforeYear(y) + DaysInYear(y)
  {
    var p := y - 1;
    assert (p + 1) / 4 == p / 4 + (if y % 4 == 0 then 1 else 0);
    assert (p + 1) / 100 == p / 100 + (if y % 100 == 0 then 1 else 0);
    assert (p + 1) / 400 == p / 400 + (if y % 400 == 0 then 1 else 0);
  }

  /** A later year starts no earlier than the end of an earlier one. */
  lemma {:induction false} DaysBeforeYearGrows(a: int, b: int)
    requires 1 <= a < b
    ensures DaysBeforeYear(a) + DaysInYear(a) <= DaysBeforeYear(b)
    decreases b - a
  {
    DaysBeforeYearStep(a);
    if a + 1 < b {
      DaysBeforeYearGrows(a + 1, b);
    }
  }

  /** Each month adds its own length; the last ends the year. */
  lemma DaysBeforeMonthStep(y: int, m: int)
    requires 1 <= m <= 12
    ensures m < 12 ==> DaysBeforeMonth(y, m + 1) == DaysBeforeMonth(y, m) + DaysInMonth(y, m)
    ensures m == 12 ==> DaysBeforeMonth(y, m) + DaysInMonth(y, m) == DaysInYear(y)
  {
  }

  /** A later month of the same year starts no earlier than the end of an earlier one. */
  lemma DaysBeforeMonthGrows(y: int, a: int, b: int)
    requires 1 <= a < b <= 12
    ensures DaysBeforeMonth(y, a) + DaysInMonth(y, a) <= DaysBeforeMonth(y, b)
  {
  }

  /** The ordinal respects calendar order: an earlier date has a smaller number. */
  lemma DayNumberOrdered(a: Date, b: Date)
    requires ValidDate(a) && ValidDate(b) && Before(a, b)
    ensures DayNumber(a) < DayNumber(b)
  {
    if a.year < b.year {
      if a.month < 12 {
        DaysBeforeMonthGrows(a.year, a.month, 12);
      }
      DaysBeforeMonthStep(a.year, 12);
      DaysBeforeYearGrows(a.year, b.year);
    } else if a.month < b.month {
      DaysBeforeMonthGrows(a.year, a.month, b.month);
    }
  }

  /** Consecutive dates have consecutive ordinals. */
  lemma NextDayNumber(d: Date)
    requires ValidDate(d) && d.year < 9999
    ensures ValidDate(NextDay(d))
    ensures DayNumber(NextDay(d)) == DayNumber(d) + 1
  {
    if d.day == DaysInMonth(d.year, d.month) {
      DaysBeforeMonthStep(d.year, d.month);
      if d.month == 12 {
        DaysBeforeYearStep(d.year);
      }
    }
  }

  /** What `%m` matches: 1 to 9, with or without a leading zero, or 10 to 12. */
  predicate IsMonthField(t: string) {
    || (|t| == 1 && '1' <= t[0] <= '9')
    || (|t| == 2 && t[0] == '0' && '1' <= t[1] <= '9')
    || (|t| == 2 && t[0] == '1' && '0' <= t[1] <= '2')
  }

  /** What `%d` matches: 1 to 9, with or without a leading zero or space, or 10 to 31. */
  predicate IsDayField(t: string) {
    || (|t| == 1 && '1' <= t[0] <= '9')
    || (|t| == 2 && (t[0] == '0' || t[0] == ' ') && '1' <= t[1] <= '9')
    || (|t| == 2 && (t[0] == '1' || t[0] == '2') && IsDigit(t[1]))
    || (|t| == 2 && t[0] == '3' && (t[1] == '0' || t[1] == '1'))
  }

  /** What `%y` matches: exactly two digits. */
  predicate IsYearField(t: string) {
    |t| == 2 && IsDigit(t[0]) && IsDigit(t[1])
  }

  /** The number a one- or two-character field stands for; a leading space counts as zero. */
  function FieldValue(t: string): nat
    requires 1 <= |t| <= 2 && IsDigit(t[|t| - 1]) && (|t| == 2 ==> IsDigit(t[0]) || t[0] == ' ')
  {
    if |t| == 1 then DigitValue(t[0])
    else (if t[0] == ' ' then 0 else DigitValue(t[0])) * 10 + DigitValue(t[1])
  }

  /** `%y`'s century rule: 00 to 68 are 2000 to 2068, 69 to 99 are 1969 to 1999. */
  function CenturyYear(yy: nat): (y: int)
    requires yy < 100
    ensures 1969 <= y <= 2068
  {
    if yy <= 68 then 2000 + yy else 1900 + yy
  }

  /** The century rule keeps the two digits and, on 1969 to 2068, gives back
      the year they were written from. */
  lemma CenturyYearDigits(yy: nat, y: int)
    requires yy < 100 && 1969 <= y <= 2068
    ensures CenturyYear(yy) % 100 == yy
    ensures CenturyYear(y % 100) == y
  {
  }

  /** `datetime.strptime(s, '%m/%d/%y').date()`, or `None` where it raises
      `ValueError`: the text must be month, slash, day, slash, two-digit
      year and nothing more, and the day must exist in that month. */
  function ParseExpiry(s: string): (r: Option<Date>)
    ensures r.Some? ==> ValidDate(r.value) && 1969 <= r.value.year <= 2068
  {
    var i := IndexOf(s, '/');
    if i == |s| then None
    else
      var rest := s[i + 1..];
      var j := IndexOf(rest, '/');
      if j == |rest| then None
      else ReadFields(s[..i], rest[..j], rest[j + 1..])
  }

  /** The three fields of `%m/%d/%y` once split at the slashes: each must
      match its directive, and the day must exist in that month. */
  function ReadFields(monthText: string, dayText: string, yearText: string): (r: Option<Date>)
    ensures r.Some? ==> ValidDate(r.value) && 1969 <= r.value.year <= 2068
  {
    if !(IsMonthField(monthText) && IsDayField(dayText) && IsYearField(yearText)) then None
    else
      var year := CenturyYear(FieldValue(yearText));
      var month := FieldValue(monthText);
      var day := FieldValue(dayText);
      if 1 <= month <= 12 && 1 <= day <= DaysInMonth(year, month) then Some(Date(year, month, day))
      else None
  }

  /** Two digits, zero-padded: `%y` as `strftime` writes it. */
  function TwoDigits(v: nat): (t: string)
    requires v < 100
    ensures IsYearField(t) && FieldValue(t) == v
  {
    [DigitChar(v / 10), DigitChar(v % 10)]
  }

  /** The date picker's text for a date when its locale's short date
      pattern is "M/d/yy" (that of en_US): month and day without padding,
      two-digit year. Other locales write other patterns. */
  function ShortForm(d: Date): string
    requires ValidDate(d)
  {
    NatText(d.month as nat) + "/" + NatText(d.day as nat) + "/" + TwoDigits(d.year % 100)
  }

  /** Each month number is written as a `%m` field that reads back as itself. */
  lemma MonthTextField(m: int)
    requires 1 <= m <= 12
    ensures IsMonthField(NatText(m as nat)) && FieldValue(NatText(m as nat)) == m
  {
    if m >= 10 {
      assert NatText(m as nat) == NatText(1) + [DigitChar(m % 10)];
    }
  }

  /** Each day number is written as a `%d` field that reads back as itself. */
  lemma DayTextField(d: int)
    requires 1 <= d <= 31
    ensures IsDayField(NatText(d as nat)) && FieldValue(NatText(d as nat)) == d
  {
    if d >= 10 {
      assert NatText(d as nat) == NatText((d / 10) as nat) + [DigitChar(d % 10)];
    }
  }

  /** The first `c` in `a + [c] + b`, when `a` has none, is right after `a`. */
  lemma IndexOfSeparator(a: string, c: char, b: string)
    requires forall k :: 0 <= k < |a| ==> a[k] != c
    ensures IndexOf(a + [c] + b, c) == |a|
  {
    var s := a + [c] + b;
    assert forall k :: 0 <= k < |a| ==> s[k] == a[k];
    assert s[|a|] == c;
  }

  /** Text of the shape month, slash, day, slash, year splits back into those
      three fields when month and day contain no slash. */
  lemma SplitFields(mt: string, dt: string, yt: string)
    requires forall k :: 0 <= k < |mt| ==> mt[k] != '/'
    requires forall k :: 0 <= k < |dt| ==> dt[k] != '/'
    ensures var s := mt + "/" + dt + "/" + yt;
      var rest := s[|mt| + 1..];
      IndexOf(s, '/') == |mt| && s[..|mt|] == mt && rest == dt + "/" + yt &&
      IndexOf(rest, '/') == |dt| && rest[..|dt|] == dt && rest[|dt| + 1..] == yt
  {
    var s := mt + "/" + dt + "/" + yt;
    var rest := dt + "/" + yt;
    assert s == mt + ['/'] + rest;
    IndexOfSeparator(mt, '/', rest);
    assert s[..|mt|] == mt;
    assert s[|mt| + 1..] == rest;
    assert rest == dt + ['/'] + yt;
    IndexOfSeparator(dt, '/', yt);
    assert rest[..|dt|] == dt;
    assert rest[|dt| + 1..] == yt;
  }

  /** The fields of the "M/d/yy" form of a date read back as that date. */
  lemma ReadShortFields(d: Date)
    requires ValidDate(d) && 1969 <= d.year <= 2068
    ensures ReadFields(NatText(d.month as nat), NatText(d.day as nat), TwoDigits(d.year % 100)) == Some(d)
  {
    MonthTextField(d.month);
    DayTextField(d.day);
    assert CenturyYear(d.year % 100) == d.year;
  }

  /** Every date in the "M/d/yy" form, for years 1969 to 2068, is read back
      by `%m/%d/%y` as the same date. */
  lemma ParseShortForm(d: Date)
    requires ValidDate(d) && 1969 <= d.year <= 2068
    ensures ParseExpiry(ShortForm(d)) == Some(d)
  {
    var mt, dt, yt := NatText(d.month as nat), NatText(d.day as nat), TwoDigits(d.year % 100);
    assert forall k :: 0 <= k < |mt| ==> mt[k] != '/' by {
      forall k | 0 <= k < |mt| ensures mt[k] != '/' {
        assert IsDigit(mt[k]);
      }
    }
    assert forall k :: 0 <= k < |dt| ==> dt[k] != '/' by {
      forall k | 0 <= k < |dt| ensures dt[k] != '/' {
        assert IsDigit(dt[k]);
      }
    }
    SplitFields(mt, dt, yt);
    ReadShortFields(d);
  }

  /** `%m/%d/%y` reads 12/15/23 as 15 December 2023. */
  lemma ReadsDecemberDate(text: string)
    requires text == "12/15/23"
    ensures ParseExpiry(text) == Some(Date(2023, 12, 15))
  {
    assert text[0] != '/' && text[1] != '/' && text[2] == '/';
    assert IndexOf(text, '/') == 2;
    var rest := text[3..];
    assert rest[0] != '/' && rest[1] != '/' && rest[2] == '/';
    assert IndexOf(rest, '/') == 2;
    assert text[..2] == "12" && rest[..2] == "15" && rest[3..] == "23";
  }

  /** Past the pivot the round trip fails: the picker writes 1 January 2069
      as 1/1/69, and `%y` reads that back as 1 January 1969. */
  lemma ReadsPastPivotDate(text: string)
    requires text == "1/1/69"
    ensures ShortForm(Date(2069, 1, 1)) == text
    ensures ParseExpiry(text) == Some(Date(1969, 1, 1))
  {
    assert NatText(1) == "1" && TwoDigits(69) == "69";
    assert text[0] != '/' && text[1] == '/';
    assert IndexOf(text, '/') == 1;
    var rest := text[2..];
    assert rest[0] != '/' && rest[1] == '/';
    assert IndexOf(rest, '/') == 1;
    assert text[..1] == "1" && rest[..1] == "1" && rest[2..] == "69";
  }

  /** `%m/%d/%y` reads 01/20/24, with its leading zero, as 20 January 2024. */
  lemma ReadsJanuaryDate(text: string)
    requires text == "01/20/24"
    ensures ParseExpiry(text) == Some(Date(2024, 1, 20))
  {
    assert text[0] != '/' && text[1] != '/' && text[2] == '/';
    assert IndexOf(text, '/') == 2;
    var rest := text[3..];
    assert rest[0] != '/' && rest[1] != '/' && rest[2] == '/';
    assert IndexOf(rest, '/') == 2;
    assert text[..2] == "01" && rest[..2] == "20" && rest[3..] == "24";
  }

  /** `%m/%d/%y` reads 03/01/24 as 1 March 2024. */
  lemma ReadsMarchDate(text: string)
    requires text == "03/01/24"
    ensures ParseExpiry(text) == Some(Date(2024, 3, 1))
  {
    assert text[0] != '/' && text[1] != '/' && text[2] == '/';
    assert IndexOf(text, '/') == 2;
    var rest := text[3..];
    assert rest[0] != '/' && rest[1] != '/' && rest[2] == '/';
    assert IndexOf(rest, '/') == 2;
    assert text[..2] == "03" && rest[..2] == "01" && rest[3..] == "24";
  }
}
