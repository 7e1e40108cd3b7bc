/** Character classes and number text on the ASCII subset: the Python
    built-ins `str.isalpha`, `str(int)` and `float(str)` that the
    application uses to validate what a user typed. */
module Text {
  import opened Wrappers

  predicate IsLetter(c: char) {
    'a' <= c <= 'z' || 'A' <= c <= 'Z'
  }

  /** `s.isalpha()`: at least one character, and every character a letter. */
  predicate IsAlpha(s: string) {
    |s| > 0 && forall i :: 0 <= i < |s| ==> IsLetter(s[i])
  }

  predicate IsDigit(c: char) {
    '0' <= c <= '9'
  }

  predicate AllDigits(s: string) {
    forall i :: 0 <= i < |s| ==> IsDigit(s[i])
  }

  function DigitValue(c: char): (v: nat)
    requires IsDigit(c)
    ensures v < 10
  {
    c as int - '0' as int
  }

  function DigitChar(v: nat): (c: char)
    requires v < 10
    ensures IsDigit(c) && DigitValue(c) == v
  {
    ('0' as int + v) as char
  }

  /** The value of a run of decimal digits, most significant first. */
  function DigitsValue(s: string): nat
    requires AllDigits(s)
    decreases |s|
  {
    if |s| == 0 then 0 else DigitsValue(s[..|s| - 1]) * 10 + DigitValue(s[|s| - 1])
  }

  /** `str(n)` for a non-negative integer: its decimal digits, without
      leading zeros, so one character exactly for the numbers below ten. */
  function NatText(n: nat): (s: string)
    ensures |s| >= 1 && AllDigits(s)
    ensures |s| == 1 <==> n < 10
    decreases n
  {
    if n < 10 then [DigitChar(n)] else NatText(n / 10) + [DigitChar(n % 10)]
  }

  /** Reading back the digits of `str(n)` gives `n`. */
  lemma {:induction false} NatTextValue(n: nat)
    ensures DigitsValue(NatText(n)) == n
    decreases n
  {
    if n >= 10 {
      var s := NatText(n);
      assert s[..|s| - 1] == NatText(n / 10);
      NatTextValue(n / 10);
    }
  }

  /** What `float` strips from ASCII text: space, tab, and the line and
      page breaks (the C locale's white space). */
  predicate IsSpace(c: char) {
    c == ' ' || c == '\t' || c == '\n' || c == '\r' || c == '\U{000B}' || c == '\U{000C}'
  }

  /** The position of the first `c` in `s`, or `|s|` when there is none. */
  function IndexOf(s: string, c: char): (r: nat)
    ensures r <= |s|
    ensures r < |s| ==> s[r] == c
    ensures forall j :: 0 <= j < r ==> s[j] != c
  {
    if |s| == 0 then 0 else if s[0] == c then 0 else 1 + IndexOf(s[1..], c)
  }

  /** `s` without its leading white space: a suffix of `s`. */
  function TrimStart(s: string): (r: string)
    ensures |r| <= |s|
    ensures |r| > 0 ==> !IsSpace(r[0])
  {
    if |s| > 0 && IsSpace(s[0]) then TrimStart(s[1..]) else s
  }

  /** `s` without its trailing white space: a prefix of `s`. */
  function TrimEnd(s: string): (r: string)
    ensures |r| <= |s|
    ensures |r| > 0 ==> !IsSpace(r[|r| - 1])
  {
    if |s| > 0 && IsSpace(s[|s| - 1]) then TrimEnd(s[..|s| - 1]) else s
  }

  /** `s.strip()`: `s` without its leading and trailing white space. */
  function Strip(s: string): string {
    TrimEnd(TrimStart(s))
  }

  /** Trimming the start leaves a suffix. */
  lemma {:induction false} TrimStartSuffix(s: string)
    ensures TrimStart(s) == s[|s| - |TrimStart(s)|..]
  {
    if |s| > 0 && IsSpace(s[0]) {
      TrimStartSuffix(s[1..]);
    }
  }

  /** Trimming the end leaves a prefix. */
  lemma {:induction false} TrimEndPrefix(s: string)
    ensures TrimEnd(s) == s[..|TrimEnd(s)|]
  {
    if |s| > 0 && IsSpace(s[|s| - 1]) {
      TrimEndPrefix(s[..|s| - 1]);
    }
  }

  /** Stripping leaves a run of the characters of `s`, in their order. */
  lemma StripSlice(s: string) returns (from: nat)
    ensures from + |Strip(s)| <= |s| && Strip(s) == s[from..from + |Strip(s)|]
  {
    var front := TrimStart(s);
    TrimStartSuffix(s);
    TrimEndPrefix(front);
    from := |s| - |front|;
  }

  /** The digits of a numeral from position `i` on, up to a decimal point:
      `value` is what the `digits` digits read so far are worth. */
  function ScanWhole(t: string, i: nat, value: nat, digits: nat): Option<real>
    requires i <= |t|
    decreases |t| - i
  {
    if i == |t| then (if digits > 0 then Some(value as real) else None)
    else if IsDigit(t[i]) then ScanWhole(t, i + 1, value * 10 + DigitValue(t[i]), digits + 1)
    else if t[i] == '.' then ScanFraction(t, i + 1, value, 0, 1, digits)
    else None
  }

  /** The digits after the decimal point, from position `i` on: those read
      so far are worth `numerator / scale`. */
  function ScanFraction(t: string, i: nat, whole: nat, numerator: nat, scale: nat, digits: nat): Option<real>
    requires i <= |t| && scale > 0
    decreases |t| - i
  {
    if i == |t| then (if digits > 0 then Some(whole as real + numerator as real / scale as real) else None)
    else if IsDigit(t[i]) then ScanFraction(t, i + 1, whole, numerator * 10 + DigitValue(t[i]), scale * 10, digits + 1)
    else None
  }

  function Negated(v: Option<real>): Option<real> {
    match v
    case None => None
    case Some(x) => Some(-x)
  }

  /** `float(s)` on decimal notation: optional surrounding white space, an
      optional sign, then digits with at most one decimal point and at least
      one digit; `None` where Python raises `ValueError`. */
  function ParseNumber(s: string): Option<real> {
    var t := Strip(s);
    if |t| > 0 && t[0] == '-' then Negated(ScanWhole(t, 1, 0, 0))
    else if |t| > 0 && t[0] == '+' then ScanWhole(t, 1, 0, 0)
    else ScanWhole(t, 0, 0, 0)
  }

  /** Scanning a run of digits from `from` accumulates the value of the run. */
  lemma {:induction false} ScanDigits(t: string, from: nat, i: nat, digits: nat)
    requires from <= i <= |t|
    requires forall j :: from <= j < |t| ==> IsDigit(t[j])
    requires digits + (|t| - i) > 0
    ensures AllDigits(t[from..i]) && AllDigits(t[from..])
    ensures ScanWhole(t, i, DigitsValue(t[from..i]), digits) == Some(DigitsValue(t[from..]) as real)
    decreases |t| - i
  {
    assert AllDigits(t[from..i]) && AllDigits(t[from..]);
    if i < |t| {
      var run := t[from..i + 1];
      assert run[..|run| - 1] == t[from..i];
      assert AllDigits(run);
      ScanDigits(t, from, i + 1, digits + 1);
    } else {
      assert t[from..i] == t[from..];
    }
  }

  /** Text that neither starts nor ends with white space is its own stripped form. */
  lemma StripUnspaced(s: string)
    requires |s| > 0 && !IsSpace(s[0]) && !IsSpace(s[|s| - 1])
    ensures Strip(s) == s
  {
    assert TrimStart(s) == s;
  }

  /** A run of digits is a number. */
  lemma ParseDigitsNumber(s: string)
    requires |s| > 0 && AllDigits(s)
    ensures ParseNumber(s) == Some(DigitsValue(s) as real)
  {
    assert IsDigit(s[0]) && IsDigit(s[|s| - 1]);
    StripUnspaced(s);
    ScanDigits(s, 0, 0, 0);
    assert s[0..0] == [] && s[0..] == s;
  }

  /** After a leading minus sign, the rest of stripped text is read and negated. */
  lemma ParseMinusSign(t: string)
    requires |t| > 0 && t[0] == '-' && !IsSpace(t[|t| - 1])
    ensures ParseNumber(t) == Negated(ScanWhole(t, 1, 0, 0))
  {
    StripUnspaced(t);
  }

  /** Digits after a minus sign read as the negated number. */
  lemma ParseNegative(t: string)
    requires |t| > 1 && t[0] == '-' && forall j :: 1 <= j < |t| ==> IsDigit(t[j])
    ensures AllDigits(t[1..]) && ParseNumber(t) == Some(-(DigitsValue(t[1..]) as real))
  {
    assert IsDigit(t[|t| - 1]);
    ParseMinusSign(t);
    ScanDigits(t, 1, 1, 0);
    assert t[1..1] == [];
  }

  /** `float(str(n)) == n` for every non-negative integer. */
  lemma ParseNatText(n: nat)
    ensures ParseNumber(NatText(n)) == Some(n as real)
  {
    NatTextValue(n);
    ParseDigitsNumber(NatText(n));
  }

  /** Scanning text without digits finds none, so reads no number. */
  lemma {:induction false} ScanNeedsDigit(t: string, i: nat, value: nat)
    requires i <= |t|
    requires forall j :: i <= j < |t| ==> !IsDigit(t[j])
    ensures ScanWhole(t, i, value, 0) == None
    ensures forall n, sc | sc > 0 :: ScanFraction(t, i, value, n, sc, 0) == None
    decreases |t| - i
  {
    if i < |t| {
      ScanNeedsDigit(t, i + 1, value);
    }
  }

  /** A leading control character that is not white space, such as the
      file separator 0x1C, is not stripped, so the text is no number. */
  lemma SeparatorRefused(text: string)
    requires text == "\U{001C}5"
    ensures ParseNumber(text) == None
  {
    assert !IsSpace(text[0]) && !IsSpace(text[1]);
    assert Strip(text) == text;
  }

  /** Text with no digit at all is never a number in decimal notation
      (`float`'s inf and nan spellings are not part of this model). */
  lemma ParseNeedsDigit(s: string)
    requires forall i :: 0 <= i < |s| ==> !IsDigit(s[i])
    ensures ParseNumber(s) == None
  {
    var t := Strip(s);
    var from := StripSlice(s);
    forall i | 0 <= i < |t| ensures !IsDigit(t[i]) {
      assert t[i] == s[from + i];
    }
    ScanNeedsDigit(t, 0, 0);
    if |t| > 0 {
      ScanNeedsDigit(t, 1, 0);
    }
  }
}
