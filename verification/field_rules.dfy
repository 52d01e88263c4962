/** The per-type value checks of the request fields (`check_value` of each
    field class), shared by both versions of the scoring API: the classes,
    the order of their tests and their messages are the same in both. */
module FieldRules {
  import opened Wrappers
  import opened Text
  import opened Calendar
  import opened PyValue

  /** The field classes. */
  datatype Kind = Char | Arguments | Email | Phone | DateText | BirthDay | Gender | ClientIds

  /** A declared field: its attribute name, class and flags. */
  datatype Field = Field(name: string, kind: Kind, required: bool, nullable: bool)

  /** What a `check_value` objects to. */
  datatype Problem =
    | NotStr | NotDict | NoAt | PhoneType | PhoneDigits | BadDateShape
    | TooOld | GenderType | GenderValue | NotIntList

  /** The outcome of `check_value`: accepted, rejected with the field's own
      message, or an exception raised by `strptime` on the way. */
  datatype Verdict = Pass | Reject(problem: Problem) | Raise(message: string)

  /** The text of each rejection, as the field classes format it. */
  function ProblemMessage(name: string, p: Problem): string {
    match p
    case NotStr => "CharField " + name + " must be a str."
    case NotDict => "ArgumentsField " + name + " must be a dict."
    case NoAt => "EmailField " + name + " must contain '@'."
    case PhoneType => "PhoneField " + name + " must be a str or an int."
    case PhoneDigits => "PhoneField " + name + " must contain 11 digits, starting from 7."
    case BadDateShape => "DateField " + name + " must has pattern DD.MM.YYYY"
    case TooOld => "BirthdayField " + name + " must be less than 70 years ago."
    case GenderType => "GenderField " + name + " must be an int."
    case GenderValue => "GenderField " + name + " must be 0, 1 or 2."
    case NotIntList => "ClientIDsField " + name + " must be a list of int."
  }

  /** `re.match("^7\d{10}$", s)`: `$` also matches just before a final
      newline. */
  predicate PhoneShape(s: string) {
    && (|s| == 11 || (|s| == 12 && s[11] == '\n'))
    && s[0] == '7' && AllDigits(s[1..11])
  }

  /** `re.match("^\d{2}\.\d{2}\.\d{4}$", s)`, again with an optional final
      newline. */
  predicate DateShape(s: string) {
    || DottedShape(s)
    || (|s| == 11 && s[10] == '\n' && DottedShape(s[..10]))
  }

  /** `datetime.now() - relativedelta(years=70)`: supplied by the caller.
      `atMidnight` says whether its time of day is 00:00:00. */
  datatype Boundary = Boundary(date: Date, atMidnight: bool)

  /** `value_date < boundary_date`, where `strptime` yields midnight. */
  predicate OlderThan(d: Date, b: Boundary) {
    Before(d, b.date) || (d == b.date && !b.atMidnight)
  }

  /** `datetime.strptime(s, "%d.%m.%Y")` on a string of the date shape,
      with the text of the `ValueError` it raises. */
  function ParseBirthday(s: string): (r: Result<Date, string>)
    requires DateShape(s)
    ensures r.Ok? <==> DottedShape(s) && ParseDotted(s).Ok?
    ensures r.Ok? ==> r.value == ParseDotted(s).value
  {
    if DottedShape(s) then
      match ParseDotted(s)
      case Ok(d) => Ok(d)
      case Err(e) => Err(DateErrorMessage(e, s, "%d.%m.%Y"))
    else
      assert s[..10][3..5] == s[3..5] && s[..10][..2] == s[..2];
      var m, d := DigitsValue(s[3..5]), DigitsValue(s[..2]);
      if !(1 <= m <= 12 && 1 <= d <= 31) then
        Err("time data '" + s[..10] + "\\n' does not match format '%d.%m.%Y'")
      else
        Err("unconverted data remains: \n")
  }

  /** `check_value` of each field class. */
  function CheckValue(kind: Kind, v: Value, b: Boundary): (r: Verdict)
    ensures r.Raise? ==> kind == BirthDay
  {
    match kind
    case Char => if v.Str? then Pass else Reject(NotStr)
    case Arguments => if v.Dict? then Pass else Reject(NotDict)
    case Email =>
      if !v.Str? then Reject(NotStr)
      else if '@' !in v.s then Reject(NoAt)
      else Pass
    case Phone =>
      if !(v.Str? || IsIntLike(v)) then Reject(PhoneType)
      else if !PhoneShape(if v.Str? then v.s else IntText(v)) then Reject(PhoneDigits)
      else Pass
    case DateText =>
      if !v.Str? then Reject(NotStr)
      else if !DateShape(v.s) then Reject(BadDateShape)
      else Pass
    case BirthDay =>
      if !v.Str? then Reject(NotStr)
      else if !DateShape(v.s) then Reject(BadDateShape)
      else (match ParseBirthday(v.s)
        case Err(m) => Raise(m)
        case Ok(d) => if OlderThan(d, b) then Reject(TooOld) else Pass)
    case Gender =>
      if !IsIntLike(v) then Reject(GenderType)
      else if !(EqualsInt(v, 0) || EqualsInt(v, 1) || EqualsInt(v, 2)) then Reject(GenderValue)
      else Pass
    case ClientIds =>
      if v.List? && forall i :: 0 <= i < |v.items| ==> IsIntLike(v.items[i]) then Pass
      else Reject(NotIntList)
  }

  /** A phone passes exactly when it is the text `7` and ten digits, or an
      integer in the eleven-digit range starting with 7; `True` and `False`
      are integers but their text is not digits. */
  lemma PhoneAccepts(v: Value, b: Boundary)
    ensures CheckValue(Phone, v, b) == Pass <==>
      (v.Str? && PhoneShape(v.s)) || (v.Int? && 70000000000 <= v.i <= 79999999999)
  {
    if v.Int? {
      PhoneIntText(v.i);
    }
    if v.Bool? {
      assert IntText(v)[0] != '7';
    }
  }

  lemma PhoneIntText(i: int)
    ensures PhoneShape(IntToString(i)) <==> 70000000000 <= i <= 79999999999
  {
    if i >= 0 {
      if PhoneShape(IntToString(i)) {
        PhoneTextInRange(i);
      }
      if 70000000000 <= i <= 79999999999 {
        PhoneRangeText(i);
      }
    }
  }

  /** A number whose text has the phone shape lies in the phone range. */
  lemma PhoneTextInRange(i: nat)
    requires PhoneShape(NatToString(i))
    ensures 70000000000 <= i <= 79999999999
  {
    var s := NatToString(i);
    NatToStringLength(i);
    DigitsValueLeading(s);
    DigitsValueBound(s[1..]);
    assert Pow10(10) == 10000000000;
  }

  /** A number in the phone range is written with the phone shape. */
  lemma PhoneRangeText(i: nat)
    requires 70000000000 <= i <= 79999999999
    ensures PhoneShape(NatToString(i))
  {
    var s := NatToString(i);
    NatToStringLength(i);
    assert Pow10(10) == 10000000000 && Pow10(11) == 100000000000;
    LengthFromBounds(|s|, i, 10);
    DigitsValueLeading(s);
    DigitsValueBound(s[1..]);
    assert DigitValue(s[0]) == 7;
    assert AllDigits(s[1..11]) by {
      assert s[1..11] == s[1..];
    }
  }

  /** `date.strftime("%d.%m.%Y")`. */
  function FormatDayFirst(d: Date): string
    requires Valid(d)
  {
    Padded(d.day, 2) + "." + Padded(d.month, 2) + "." + Padded(d.year, 4)
  }

  /** Every valid date written as `DD.MM.YYYY` passes the date field and
      reads back, through `strptime`, as the same date. */
  lemma FormatDayFirstRoundTrip(d: Date)
    requires Valid(d)
    ensures DateShape(FormatDayFirst(d)) && DottedShape(FormatDayFirst(d))
    ensures ParseBirthday(FormatDayFirst(d)) == Ok(d)
  {
    var s := FormatDayFirst(d);
    PaddedRoundTrip(d.day, 2);
    PaddedRoundTrip(d.month, 2);
    PaddedRoundTrip(d.year, 4);
    assert s[..2] == Padded(d.day, 2);
    assert s[3..5] == Padded(d.month, 2);
    assert s[6..] == Padded(d.year, 4);
  }

  /** The date field checks the shape only: a day past the end of its
      month (such as `31.02.2023`) still passes, where the birthday field's
      `strptime` raises. */
  lemma DateShapeOnly(s: string, b: Boundary)
    requires DottedShape(s)
    requires 1 <= DigitsValue(s[3..5]) <= 12 && 1 <= DigitsValue(s[6..])
    requires DaysInMonth(DigitsValue(s[6..]), DigitsValue(s[3..5])) < DigitsValue(s[..2]) <= 31
    ensures CheckValue(DateText, Str(s), b) == Pass
    ensures CheckValue(BirthDay, Str(s), b) == Raise("day is out of range for month")
  {
    DigitsValueBound(s[6..]);
    assert ParseDotted(s) == Err(DayOutOfRange);
  }

  /** A gender passes exactly when it is 0, 1 or 2, or a boolean (which
      compares equal to 0 or 1). */
  lemma GenderAccepts(v: Value, b: Boundary)
    ensures CheckValue(Gender, v, b) == Pass <==> (v.Int? && 0 <= v.i <= 2) || v.Bool?
  {
  }

  /** The birthday field passes exactly the `DD.MM.YYYY` texts that name a
      date no older than the boundary. */
  lemma BirthdayAccepts(v: Value, b: Boundary)
    ensures CheckValue(BirthDay, v, b) == Pass <==>
      v.Str? && DottedShape(v.s) && ParseDotted(v.s).Ok? && !OlderThan(ParseDotted(v.s).value, b)
  {
  }

  /** The text-based classes answer any non-string with the `CharField`
      message alone. */
  lemma NonTextRejected(kind: Kind, v: Value, b: Boundary)
    requires kind == Char || kind == Email || kind == DateText || kind == BirthDay
    requires !v.Str?
    ensures CheckValue(kind, v, b) == Reject(NotStr)
  {
  }
}
