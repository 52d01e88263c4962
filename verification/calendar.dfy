/** Proleptic Gregorian dates as Python's `datetime.date` has them, with the
    two `strptime` formats the system reads (`%Y%m%d` in log names,
    `%d.%m.%Y` in birthdays) and the `strftime("%Y.%m.%d")` rendering used in
    report names. */
module Calendar {
  import opened Wrappers
  import opened Text

  datatype Date = Date(year: int, month: int, day: int)

  predicate IsLeap(y: int) {
    y % 4 == 0 && (y % 100 != 0 || y % 400 == 0)
  }

  function DaysInMonth(y: int, m: int): (n: int)
    requires 1 <= m <= 12
    ensures 28 <= n <= 31
  {
    if m == 2 then (if IsLeap(y) then 29 else 28)
    else if m == 4 || m == 6 || m == 9 || m == 11 then 30
    else 31
  }

  /** The dates `datetime.date` accepts (years 1 to 9999). */
  predicate Valid(d: Date) {
    && 1 <= d.year <= 9999
    && 1 <= d.month <= 12
    && 1 <= d.day <= DaysInMonth(d.year, d.month)
  }

  /** `a < b` on `datetime.date`: chronological, i.e. lexicographic on
      (year, month, day). */
  predicate Before(a: Date, b: Date) {
    || a.year < b.year
    || (a.year == b.year && a.month < b.month)
    || (a.year == b.year && a.month == b.month && a.day < b.day)
  }

  lemma BeforeIsStrictTotalOrder(a: Date, b: Date, c: Date)
    ensures !Before(a, a)
    ensures Before(a, b) ==> !Before(b, a)
    ensures Before(a, b) && Before(b, c) ==> Before(a, c)
    ensures a == b || Before(a, b) || Before(b, a)
  {
  }

  /** Why `strptime` fails: the text does not fit the format, or it fits but
      names no date (`datetime.date` rejects year 0 first, then the day). */
  datatype DateError = YearOutOfRange(year: nat) | DayOutOfRange | NoMatch

  /** Validation `datetime.date(y, m, d)` performs for a month the format
      already restricted to 1..12 and a day restricted to 1..31. */
  function CheckDate(y: nat, m: nat, d: nat): (r: Result<Date, DateError>)
    requires 1 <= m <= 12 && 1 <= d <= 31
    ensures r.Ok? <==> Valid(Date(y, m, d))
    ensures r.Ok? ==> r.value == Date(y, m, d)
  {
    if y < 1 || y > 9999 then Err(YearOutOfRange(y))
    else if d > DaysInMonth(y, m) then Err(DayOutOfRange)
    else Ok(Date(y, m, d))
  }

  /** `datetime.strptime(s, "%Y%m%d").date()` on eight ASCII digits.  The
      directive patterns (`%m` is `1[0-2]|0[1-9]|[1-9]`, `%d` is
      `3[01]|[12]\d|0[1-9]|[1-9]`) can only consume all eight digits by reading
      YYYY MM DD with MM in 01..12 and DD in 01..31; every other reading leaves
      "unconverted data" or does not match, which raises. */
  function ParseCompact(s: string): (r: Result<Date, DateError>)
    requires |s| == 8 && AllDigits(s)
    ensures r.Ok? <==> Valid(Date(DigitsValue(s[..4]), DigitsValue(s[4..6]), DigitsValue(s[6..])))
    ensures r.Ok? ==> r.value == Date(DigitsValue(s[..4]), DigitsValue(s[4..6]), DigitsValue(s[6..]))
  {
    var y, m, d := DigitsValue(s[..4]), DigitsValue(s[4..6]), DigitsValue(s[6..]);
    if !(1 <= m <= 12 && 1 <= d <= 31) then Err(NoMatch) else CheckDate(y, m, d)
  }

  /** Shape `\d{2}\.\d{2}\.\d{4}` (ASCII digits, nothing after). */
  predicate DottedShape(s: string) {
    && |s| == 10
    && AllDigits(s[..2]) && s[2] == '.'
    && AllDigits(s[3..5]) && s[5] == '.'
    && AllDigits(s[6..])
  }

  /** `datetime.strptime(s, "%d.%m.%Y")` on a string of the dotted shape. */
  function ParseDotted(s: string): (r: Result<Date, DateError>)
    requires DottedShape(s)
    ensures r.Ok? <==> Valid(Date(DigitsValue(s[6..]), DigitsValue(s[3..5]), DigitsValue(s[..2])))
    ensures r.Ok? ==> r.value == Date(DigitsValue(s[6..]), DigitsValue(s[3..5]), DigitsValue(s[..2]))
  {
    var d, m, y := DigitsValue(s[..2]), DigitsValue(s[3..5]), DigitsValue(s[6..]);
    if !(1 <= m <= 12 && 1 <= d <= 31) then Err(NoMatch) else CheckDate(y, m, d)
  }

  /** `date.strftime("%Y.%m.%d")`. */
  function FormatDotted(d: Date): string
    requires Valid(d)
  {
    Padded(d.year, 4) + "." + Padded(d.month, 2) + "." + Padded(d.day, 2)
  }

  /** A date read from eight digits renders back to exactly those digits, in
      the dotted layout. */
  lemma CompactRoundTrip(s: string)
    requires |s| == 8 && AllDigits(s) && ParseCompact(s).Ok?
    ensures FormatDotted(ParseCompact(s).value) == s[..4] + "." + s[4..6] + "." + s[6..]
  {
    DigitsRoundTrip(s[..4]);
    DigitsRoundTrip(s[4..6]);
    DigitsRoundTrip(s[6..]);
  }

  /** Different valid dates render differently. */
  lemma FormatDottedInjective(a: Date, b: Date)
    requires Valid(a) && Valid(b) && FormatDotted(a) == FormatDotted(b)
    ensures a == b
  {
    var fa, fb := FormatDotted(a), FormatDotted(b);
    PaddedRoundTrip(a.year, 4);
    PaddedRoundTrip(b.year, 4);
    PaddedRoundTrip(a.month, 2);
    PaddedRoundTrip(b.month, 2);
    PaddedRoundTrip(a.day, 2);
    PaddedRoundTrip(b.day, 2);
    assert fa[..4] == Padded(a.year, 4) && fb[..4] == Padded(b.year, 4);
    assert fa[5..7] == Padded(a.month, 2) && fb[5..7] == Padded(b.month, 2);
    assert fa[8..] == Padded(a.day, 2) && fb[8..] == Padded(b.day, 2);
  }

  /** How `strptime`'s failures read once turned into text
      (`str(ValueError)`). */
  function DateErrorMessage(e: DateError, s: string, format: string): string {
    match e
    case NoMatch => "time data '" + s + "' does not match format '" + format + "'"
    case YearOutOfRange(y) => "year " + NatToString(y) + " is out of range"
    case DayOutOfRange => "day is out of range for month"
  }
}
