/** Character and string helpers shared by the models: ASCII digits and
    decimal numbers, Python's `str.rstrip()`, `str.upper()` on ASCII letters,
    and splitting at the first occurrence of a character. */
module Text {
  import opened Wrappers

  predicate IsDigit(c: char) {
    '0' <= c <= '9'
  }

  predicate AllDigits(s: string) {
    forall i :: 0 <= i < |s| ==> IsDigit(s[i])
  }

  function DigitValue(c: char): (d: nat)
    requires IsDigit(c)
    ensures d < 10
  {
    (c as int - '0' as int) as nat
  }

  function DigitChar(d: nat): (c: char)
    requires d < 10
    ensures IsDigit(c) && DigitValue(c) == d
  {
    ('0' as int + d) as char
  }

  /** The number a string of ASCII digits spells in base ten (Python's
      `int(s)` on such a string; leading zeros are allowed). */
  function DigitsValue(s: string): nat
    requires AllDigits(s)
  {
    if s == [] then 0 else 10 * DigitsValue(s[..|s| - 1]) + DigitValue(s[|s| - 1])
  }

  function Pow10(n: nat): (p: nat)
    ensures p >= 1
  {
    if n == 0 then 1 else 10 * Pow10(n - 1)
  }

  /** `n` written with exactly `width` decimal digits, zero-padded on the left
      (the `%Y`, `%m`, `%d` directives of `strftime`). */
  function Padded(n: nat, width: nat): string
    requires n < Pow10(width)
  {
    if width == 0 then [] else Padded(n / 10, width - 1) + [DigitChar(n % 10)]
  }

  lemma {:induction false} DigitsValueBound(s: string)
    requires AllDigits(s)
    ensures DigitsValue(s) < Pow10(|s|)
  {
    if s != [] {
      DigitsValueBound(s[..|s| - 1]);
    }
  }

  /** Reading a zero-padded rendering back gives the number. */
  lemma {:induction false} PaddedRoundTrip(n: nat, width: nat)
    requires n < Pow10(width)
    ensures |Padded(n, width)| == width
    ensures AllDigits(Padded(n, width))
    ensures DigitsValue(Padded(n, width)) == n
  {
    if width > 0 {
      PaddedRoundTrip(n / 10, width - 1);
      var p := Padded(n, width);
      assert p[..|p| - 1] == Padded(n / 10, width - 1);
    }
  }

  /** Rendering the number a digit string spells, at the string's own width,
      gives the string back (leading zeros included). */
  lemma {:induction false} DigitsRoundTrip(s: string)
    requires AllDigits(s)
    ensures DigitsValue(s) < Pow10(|s|)
    ensures Padded(DigitsValue(s), |s|) == s
  {
    DigitsValueBound(s);
    if s != [] {
      var init := s[..|s| - 1];
      DigitsRoundTrip(init);
      assert DigitsValue(s) / 10 == DigitsValue(init);
      assert DigitsValue(s) % 10 == DigitValue(s[|s| - 1]);
      assert s == init + [s[|s| - 1]];
    }
  }

  /** Two- and four-digit strings, digit by digit. */
  lemma DigitsValueShort(s: string)
    requires AllDigits(s) && (|s| == 2 || |s| == 4)
    ensures |s| == 2 ==> DigitsValue(s) == 10 * DigitValue(s[0]) + DigitValue(s[1])
    ensures |s| == 4 ==> DigitsValue(s) == 1000 * DigitValue(s[0]) + 100 * DigitValue(s[1])
                                           + 10 * DigitValue(s[2]) + DigitValue(s[3])
  {
    assert s[..|s| - 1][..|s| - 2] == s[..|s| - 2];
    if |s| == 4 {
      assert s[..2][..1] == s[..1] && s[..3][..2] == s[..2];
      assert s[..1][..0] == [];
    } else {
      assert s[..1][..0] == [];
    }
  }

  /** Python's `str(n)` for a natural number: no sign, no leading zeros. */
  function NatToString(n: nat): (s: string)
    ensures |s| >= 1 && AllDigits(s)
    ensures |s| > 1 ==> s[0] != '0'
  {
    if n < 10 then [DigitChar(n)] else NatToString(n / 10) + [DigitChar(n % 10)]
  }

  lemma {:induction false} NatToStringRoundTrip(n: nat)
    ensures DigitsValue(NatToString(n)) == n
  {
    if n >= 10 {
      NatToStringRoundTrip(n / 10);
      var s := NatToString(n);
      assert s[..|s| - 1] == NatToString(n / 10);
    }
  }

  /** Python's `str(i)` for any integer. */
  function IntToString(i: int): (s: string)
    ensures i >= 0 ==> AllDigits(s) && DigitsValue(s) == i && |s| >= 1 && (|s| > 1 ==> s[0] != '0')
    ensures i < 0 ==> |s| >= 2 && s[0] == '-' && AllDigits(s[1..]) && DigitsValue(s[1..]) == -i
                      && (|s| > 2 ==> s[1] != '0')
  {
    if i >= 0 then
      NatToStringRoundTrip(i);
      NatToString(i)
    else
      NatToStringRoundTrip(-i);
      var t := NatToString(-i);
      assert (['-'] + t)[1..] == t;
      ['-'] + t
  }

  /** The characters for which Python's `str.isspace()` holds. */
  predicate IsSpace(c: char) {
    || ('\t' <= c <= '\r') || ('\U{1c}' <= c <= '\U{1f}') || c == ' '
    || c == '\U{85}' || c == '\U{a0}' || c == '\U{1680}'
    || ('\U{2000}' <= c <= '\U{200a}') || c == '\U{2028}' || c == '\U{2029}'
    || c == '\U{202f}' || c == '\U{205f}' || c == '\U{3000}'
  }

  /** Python's `s.rstrip()`: drop trailing whitespace. */
  function RStrip(s: string): (r: string)
    ensures |r| <= |s| && r == s[..|r|]
    ensures r == [] || !IsSpace(r[|r| - 1])
    ensures forall i :: |r| <= i < |s| ==> IsSpace(s[i])
  {
    if s != [] && IsSpace(s[|s| - 1]) then RStrip(s[..|s| - 1]) else s
  }

  /** A lower-case ASCII letter. */
  predicate IsLower(c: char) {
    'a' <= c <= 'z'
  }

  function UpperChar(c: char): (u: char)
    ensures IsLower(c) ==> u as int == c as int - 32 && 'A' <= u <= 'Z'
    ensures !IsLower(c) ==> u == c
    ensures !IsLower(u)
  {
    if 'a' <= c <= 'z' then (c as int - 32) as char else c
  }

  /** `s.upper()` restricted to ASCII letters: each lower-case letter moves
      down by 32 code points to its capital, every other character stays,
      and no lower-case letter is left. */
  function Upper(s: string): (r: string)
    ensures |r| == |s|
    ensures forall i :: 0 <= i < |s| && IsLower(s[i]) ==> r[i] as int == s[i] as int - 32
    ensures forall i :: 0 <= i < |s| && !IsLower(s[i]) ==> r[i] == s[i]
    ensures forall i :: 0 <= i < |r| ==> !IsLower(r[i])
  {
    seq(|s|, i requires 0 <= i < |s| => UpperChar(s[i]))
  }

  /** Upper-casing twice changes nothing more. */
  lemma UpperIdempotent(s: string)
    ensures Upper(Upper(s)) == Upper(s)
  {
  }

  /** Index of the first occurrence of `c` in `s`. */
  function IndexOf(s: string, c: char): (r: Option<nat>)
    ensures r.None? <==> c !in s
    ensures r.Some? ==> r.value < |s| && s[r.value] == c && c !in s[..r.value]
  {
    if s == [] then None
    else if s[0] == c then Some(0)
    else match IndexOf(s[1..], c)
      case None => None
      case Some(k) =>
        assert s[1..][..k] == s[1..k + 1];
        Some(k + 1)
  }

  /** Python's `s.split(c, 1)` when `c` occurs: the part before the first
      `c` and everything after it. */
  function SplitFirst(s: string, c: char): (r: (string, string))
    requires c in s
    ensures c !in r.0
    ensures s == r.0 + [c] + r.1
  {
    var k := IndexOf(s, c).value;
    assert s == s[..k] + [c] + s[k + 1..];
    (s[..k], s[k + 1..])
  }

  /** The first occurrence is the only index with `c` and no earlier `c`. */
  lemma {:induction false} IndexOfUnique(s: string, c: char, k: nat)
    requires k < |s| && s[k] == c && c !in s[..k]
    ensures IndexOf(s, c) == Some(k)
  {
    if k > 0 {
      assert s[0] in s[..k];
      assert s[1..][..k - 1] == s[1..k];
      IndexOfUnique(s[1..], c, k - 1);
    }
  }

  /** Splitting is unambiguous: any decomposition around a first `c` is the
      one `SplitFirst` returns. */
  lemma SplitFirstUnique(s: string, c: char, before: string, after: string)
    requires s == before + [c] + after && c !in before
    ensures SplitFirst(s, c) == (before, after)
  {
    assert s[..|before|] == before;
    IndexOfUnique(s, c, |before|);
    assert s[|before| + 1..] == after;
  }

  lemma {:induction false} Pow10Monotone(a: nat, b: nat)
    requires a <= b
    ensures Pow10(a) <= Pow10(b)
    decreases b
  {
    if a < b {
      Pow10Monotone(a, b - 1);
    }
  }

  /** A digit string's value split at its leading digit. */
  lemma LeadingStep(d: int, p: int, v: int, last: int)
    ensures 10 * (d * p + v) + last == d * (10 * p) + (10 * v + last)
  {
  }

  lemma {:induction false} DigitsValueLeading(s: string)
    requires AllDigits(s) && |s| >= 1
    ensures DigitsValue(s) == DigitValue(s[0]) * Pow10(|s| - 1) + DigitsValue(s[1..])
  {
    if |s| == 1 {
      assert s[..0] == [] && s[1..] == [];
    } else {
      var init, tail := s[..|s| - 1], s[1..];
      DigitsValueLeading(init);
      assert init[0] == s[0];
      assert tail[..|tail| - 1] == init[1..] && tail[|tail| - 1] == s[|s| - 1];
      LeadingStep(DigitValue(s[0]), Pow10(|s| - 2), DigitsValue(init[1..]), DigitValue(s[|s| - 1]));
    }
  }

  /** A number with `n + 1` digits: a text whose length bounds the number
      as `NatToStringLength` states has exactly that length. */
  lemma LengthFromBounds(len: nat, i: nat, n: nat)
    requires (len > 1 ==> Pow10(len - 1) <= i) && i < Pow10(len)
    requires Pow10(n) <= i < Pow10(n + 1) && n >= 1
    ensures len == n + 1
  {
    if len <= n {
      Pow10Monotone(len, n);
    }
    if len >= n + 2 {
      Pow10Monotone(n + 1, len - 1);
    }
  }

  /** Numbers written without leading zeros have exactly as many digits as
      their size says. */
  lemma NatToStringLength(n: nat)
    ensures DigitsValue(NatToString(n)) == n
    ensures |NatToString(n)| > 1 ==> Pow10(|NatToString(n)| - 1) <= n
    ensures n < Pow10(|NatToString(n)|)
  {
    var s := NatToString(n);
    NatToStringRoundTrip(n);
    DigitsValueBound(s);
    if |s| > 1 {
      DigitsValueLeading(s);
      assert DigitValue(s[0]) >= 1;
    }
  }
}

