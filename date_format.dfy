/**
 * The date-fns `format` and `parse` patterns the core uses on calendar dates:
 * `dd-MM-yyyy` (the stored form of an event's date), `yyyy-MM-dd` (the value
 * of an HTML date input, the extended calendar date of section 4.1.2.2 of
 * ISO 8601:2004), `d` (day of month) and `EEE` (weekday abbreviation).
 */
module DateFormat {
  import opened Wrappers
  import opened Strings
  import opened Dates

  /** Two digits, zero padded (`dd`, `MM`). */
  function Pad2(n: nat): (s: string)
    requires n < 100
    ensures |s| == 2 && AllDigits(s)
  {
    [DigitChar(n / 10), DigitChar(n % 10)]
  }

  /**
   * `yyyy`: the year of the era, at least four digits. date-fns writes year 0
   * (1 BC) as 0001 and, in general, a year `y <= 0` as `1 - y`.
   */
  function FormatYear(y: int): (s: string)
    ensures |s| >= 4 && AllDigits(s)
  {
    PadLeft(Decimal(if y > 0 then y else 1 - y), 4)
  }

  function FormatDMY(d: CalendarDate): (s: string)
    ensures |s| >= 10 && s[2] == '-' && s[5] == '-'
  {
    Pad2(d.day) + "-" + Pad2(d.month) + "-" + FormatYear(d.year)
  }

  function FormatISO(d: CalendarDate): (s: string)
    ensures |s| >= 10 && AllDigits(s[..4])
  {
    FormatYear(d.year) + "-" + Pad2(d.month) + "-" + Pad2(d.day)
  }

  /** `format(d, 'd')`: the day of the month without padding. */
  function DayLabel(d: CalendarDate): string {
    Decimal(d.day)
  }

  /** `format(d, 'EEE')` in the default English locale. */
  function WeekdayName(w: int): string
    requires 0 <= w < 7
  {
    ["Sun", "Mon", "Tue", "Wed", "Thu", "Fri", "Sat"][w]
  }

  /** The value of the two digits at `i` and `i + 1`. */
  function Field2(s: string, i: nat): (v: nat)
    requires i + 2 <= |s| && AllDigits(s[i..i + 2])
    ensures v < 100
  {
    assert IsDigit(s[i..i + 2][0]) && IsDigit(s[i..i + 2][1]);
    10 * DigitValue(s[i]) + DigitValue(s[i + 1])
  }

  /** The value of the four digits from `i` to `i + 3`. */
  function Field4(s: string, i: nat): (v: nat)
    requires i + 4 <= |s| && AllDigits(s[i..i + 4])
    ensures v < 10000
  {
    assert IsDigit(s[i..i + 4][0]) && IsDigit(s[i..i + 4][1]) && IsDigit(s[i..i + 4][2]) && IsDigit(s[i..i + 4][3]);
    1000 * DigitValue(s[i]) + 100 * DigitValue(s[i + 1]) + 10 * DigitValue(s[i + 2]) + DigitValue(s[i + 3])
  }

  /** The regular expression `^\d{2}-\d{2}-\d{4}$`. */
  predicate MatchesDMY(s: string) {
    |s| == 10 && AllDigits(s[0..2]) && s[2] == '-' && AllDigits(s[3..5]) && s[5] == '-' && AllDigits(s[6..10])
  }

  /** The shape `\d{4}-\d{2}-\d{2}` of a date input's value. */
  predicate MatchesISO(s: string) {
    |s| == 10 && AllDigits(s[0..4]) && s[4] == '-' && AllDigits(s[5..7]) && s[7] == '-' && AllDigits(s[8..10])
  }

  /** A date from year, month and day fields, when date-fns `parse` accepts them (the year must be positive). */
  function Checked(y: int, m: int, d: int): (r: Option<CalendarDate>)
    ensures r.Some? <==> y >= 1 && ValidDate(Date(y, m, d))
    ensures r.Some? ==> r.value == Date(y, m, d)
  {
    var date := Date(y, m, d);
    if y >= 1 && ValidDate(date) then
      var c: CalendarDate := date;
      Some(c)
    else None
  }

  /** `parse(s, 'dd-MM-yyyy', ...)` on strings of that exact shape; `None` is date-fns' Invalid Date. */
  function ParseDMY(s: string): Option<CalendarDate> {
    if MatchesDMY(s) then Checked(Field4(s, 6), Field2(s, 3), Field2(s, 0)) else None
  }

  /** `parse(s, 'yyyy-MM-dd', ...)` on strings of that exact shape. */
  function ParseISO(s: string): Option<CalendarDate> {
    if MatchesISO(s) then Checked(Field4(s, 0), Field2(s, 5), Field2(s, 8)) else None
  }

  // Digit-level facts behind the round trips.

  /** Four digits, zero padded, taken off by repeated division by ten as `Decimal` does. */
  function Pad4(n: nat): string
    requires n < 10000
  {
    [DigitChar(n / 10 / 10 / 10), DigitChar(n / 10 / 10 % 10), DigitChar(n / 10 % 10), DigitChar(n % 10)]
  }

  lemma FormatYearIsPad4(y: int)
    requires 1 <= y <= 9999
    ensures FormatYear(y) == Pad4(y)
  {
    assert FormatYear(y) == PadLeft(Decimal(y), 4);
    if y < 10 {
      YearOneDigit(y);
    } else if y < 100 {
      YearTwoDigits(y);
    } else if y < 1000 {
      YearThreeDigits(y);
    } else {
      YearFourDigits(y);
    }
  }

  lemma YearOneDigit(y: int)
    requires 1 <= y < 10
    ensures PadLeft(Decimal(y), 4) == Pad4(y)
  {
    var z := DigitChar(0);
    assert Decimal(y) == [DigitChar(y)];
    assert PadLeft(Decimal(y), 4) == [z, z, z, DigitChar(y)];
  }

  lemma YearTwoDigits(y: int)
    requires 10 <= y < 100
    ensures PadLeft(Decimal(y), 4) == Pad4(y)
  {
    var z := DigitChar(0);
    var q1 := y / 10;
    assert Decimal(y) == Decimal(q1) + [DigitChar(y % 10)];
    assert Decimal(q1) == [DigitChar(q1)];
    assert PadLeft(Decimal(y), 4) == [z, z] + Decimal(y);
    assert q1 / 10 == 0;
    assert Pad4(y) == [z, z, DigitChar(q1), DigitChar(y % 10)];
  }

  lemma YearThreeDigits(y: int)
    requires 100 <= y < 1000
    ensures PadLeft(Decimal(y), 4) == Pad4(y)
  {
    var z := DigitChar(0);
    var q1 := y / 10;
    var q2 := q1 / 10;
    assert Decimal(y) == Decimal(q1) + [DigitChar(y % 10)];
    assert Decimal(q1) == Decimal(q2) + [DigitChar(q1 % 10)];
    assert Decimal(q2) == [DigitChar(q2)];
    assert Decimal(y) == [DigitChar(q2), DigitChar(q1 % 10), DigitChar(y % 10)];
    assert PadLeft(Decimal(y), 4) == [z] + Decimal(y);
    assert q2 / 10 == 0;
    assert Pad4(y) == [z, DigitChar(q2), DigitChar(q1 % 10), DigitChar(y % 10)];
  }

  lemma YearFourDigits(y: int)
    requires 1000 <= y < 10000
    ensures PadLeft(Decimal(y), 4) == Pad4(y)
  {
    var q1 := y / 10;
    var q2 := q1 / 10;
    var q3 := q2 / 10;
    assert Decimal(y) == Decimal(q1) + [DigitChar(y % 10)];
    assert Decimal(q1) == Decimal(q2) + [DigitChar(q1 % 10)];
    assert Decimal(q2) == Decimal(q3) + [DigitChar(q2 % 10)];
    assert Decimal(q3) == [DigitChar(q3)];
    assert PadLeft(Decimal(y), 4) == Decimal(y);
  }

  lemma Pad2OfField2(s: string, i: nat)
    requires i + 2 <= |s| && AllDigits(s[i..i + 2])
    ensures Pad2(Field2(s, i)) == s[i..i + 2]
  {
    assert IsDigit(s[i..i + 2][0]) && IsDigit(s[i..i + 2][1]);
    DigitCharOfValue(s[i]);
    DigitCharOfValue(s[i + 1]);
  }

  lemma Field2OfPad2(n: nat)
    requires n < 100
    ensures Field2(Pad2(n), 0) == n
  {
    assert Pad2(n)[0..2] == Pad2(n);
  }

  lemma Pad4OfField4(s: string, i: nat)
    requires i + 4 <= |s| && AllDigits(s[i..i + 4])
    ensures Pad4(Field4(s, i)) == s[i..i + 4]
  {
    assert IsDigit(s[i..i + 4][0]) && IsDigit(s[i..i + 4][1]) && IsDigit(s[i..i + 4][2]) && IsDigit(s[i..i + 4][3]);
    DigitCharOfValue(s[i]);
    DigitCharOfValue(s[i + 1]);
    DigitCharOfValue(s[i + 2]);
    DigitCharOfValue(s[i + 3]);
    FourDigits(DigitValue(s[i]), DigitValue(s[i + 1]), DigitValue(s[i + 2]), DigitValue(s[i + 3]));
  }

  lemma FourDigits(a: nat, b: nat, c: nat, e: nat)
    requires a < 10 && b < 10 && c < 10 && e < 10
    ensures var n := 1000 * a + 100 * b + 10 * c + e;
      n / 10 / 10 / 10 == a && n / 10 / 10 % 10 == b && n / 10 % 10 == c && n % 10 == e
  {
    DivMod10(1000 * a + 100 * b + 10 * c + e, 100 * a + 10 * b + c, e);
    DivMod10(100 * a + 10 * b + c, 10 * a + b, c);
    DivMod10(10 * a + b, a, b);
  }

  lemma DivMod10(n: int, q: int, r: int)
    requires n == 10 * q + r && 0 <= r < 10
    ensures n / 10 == q && n % 10 == r
  {
  }

  lemma Field4OfPad4(n: nat)
    requires n < 10000
    ensures Field4(Pad4(n), 0) == n
  {
    var p := Pad4(n);
    assert p[0..4] == p;
    assert DigitValue(p[0]) == n / 10 / 10 / 10 && DigitValue(p[1]) == n / 10 / 10 % 10;
    assert DigitValue(p[2]) == n / 10 % 10 && DigitValue(p[3]) == n % 10;
    TenfoldDigits(n);
  }

  /** A number below 10000 is the sum of its four decimal digits times their place values. */
  lemma TenfoldDigits(n: nat)
    requires n < 10000
    ensures 1000 * (n / 10 / 10 / 10) + 100 * (n / 10 / 10 % 10) + 10 * (n / 10 % 10) + n % 10 == n
  {
  }

  /** Two, two and four digits joined by dashes have the `dd-MM-yyyy` shape, and each field reads back. */
  lemma DMYFields(dd: string, mm: string, yyyy: string)
    requires |dd| == 2 && |mm| == 2 && |yyyy| == 4 && AllDigits(dd) && AllDigits(mm) && AllDigits(yyyy)
    ensures var s := dd + "-" + mm + "-" + yyyy;
      MatchesDMY(s) && Field2(s, 0) == Field2(dd, 0) && Field2(s, 3) == Field2(mm, 0) && Field4(s, 6) == Field4(yyyy, 0)
  {
    var s := dd + "-" + mm + "-" + yyyy;
    assert s[0..2] == dd && s[3..5] == mm && s[6..10] == yyyy;
  }

  /** For years 1 to 9999, parsing the `dd-MM-yyyy` rendering of a date gives the date back. */
  lemma ParseFormatDMY(d: CalendarDate)
    requires 1 <= d.year <= 9999
    ensures ParseDMY(FormatDMY(d)) == Some(d)
  {
    FormatYearIsPad4(d.year);
    DMYFields(Pad2(d.day), Pad2(d.month), Pad4(d.year));
    Field2OfPad2(d.day);
    Field2OfPad2(d.month);
    Field4OfPad4(d.year);
  }

  /** Every string `ParseDMY` accepts is the `dd-MM-yyyy` rendering of the date it yields. */
  lemma FormatParseDMY(s: string)
    requires ParseDMY(s).Some?
    ensures FormatDMY(ParseDMY(s).value) == s
  {
    var d := ParseDMY(s).value;
    Pad2OfField2(s, 0);
    Pad2OfField2(s, 3);
    Pad4OfField4(s, 6);
    FormatYearIsPad4(d.year);
    assert s == s[0..2] + "-" + s[3..5] + "-" + s[6..10];
  }

  /** Four, two and two digits joined by dashes have the `yyyy-MM-dd` shape, and each field reads back. */
  lemma ISOFields(yyyy: string, mm: string, dd: string)
    requires |dd| == 2 && |mm| == 2 && |yyyy| == 4 && AllDigits(dd) && AllDigits(mm) && AllDigits(yyyy)
    ensures var s := yyyy + "-" + mm + "-" + dd;
      MatchesISO(s) && Field4(s, 0) == Field4(yyyy, 0) && Field2(s, 5) == Field2(mm, 0) && Field2(s, 8) == Field2(dd, 0)
  {
    var s := yyyy + "-" + mm + "-" + dd;
    assert s[0..4] == yyyy && s[5..7] == mm && s[8..10] == dd;
  }

  /** For years 1 to 9999, parsing the `yyyy-MM-dd` rendering of a date gives the date back. */
  lemma ParseFormatISO(d: CalendarDate)
    requires 1 <= d.year <= 9999
    ensures ParseISO(FormatISO(d)) == Some(d)
  {
    FormatYearIsPad4(d.year);
    ISOFields(Pad4(d.year), Pad2(d.month), Pad2(d.day));
    Field2OfPad2(d.day);
    Field2OfPad2(d.month);
    Field4OfPad4(d.year);
  }

  /** Every string `ParseISO` accepts is the `yyyy-MM-dd` rendering of the date it yields. */
  lemma FormatParseISO(s: string)
    requires ParseISO(s).Some?
    ensures FormatISO(ParseISO(s).value) == s
  {
    var d := ParseISO(s).value;
    Pad4OfField4(s, 0);
    Pad2OfField2(s, 5);
    Pad2OfField2(s, 8);
    FormatYearIsPad4(d.year);
    assert s == s[0..4] + "-" + s[5..7] + "-" + s[8..10];
  }

  /** No `yyyy-MM-dd` rendering equals any `dd-MM-yyyy` rendering: the third character tells them apart. */
  lemma ISONeverDMY(a: CalendarDate, b: CalendarDate)
    ensures FormatISO(a) != FormatDMY(b)
  {
    assert IsDigit(FormatISO(a)[..4][2]);
  }
}
