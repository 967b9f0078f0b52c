/**
 * Byte-string helpers shared by every module. Strings stand for PHP and JavaScript
 * strings of single-byte characters; ASCII means a code below 128. Lower-casing
 * and upper-casing are ASCII-only, as PHP 8's strtolower/strtoupper are.
 */
module Text {
  import opened Wrappers

  predicate IsAscii(c: char) { c as int < 128 }
  predicate IsDigit(c: char) { '0' <= c <= '9' }
  predicate IsLetter(c: char) { 'a' <= c <= 'z' || 'A' <= c <= 'Z' }
  predicate IsAlnum(c: char) { IsLetter(c) || IsDigit(c) }
  /** Letter, digit or hyphen: the character class [a-zA-Z0-9\-]. */
  predicate IsLdh(c: char) { IsAlnum(c) || c == '-' }

  predicate AllAscii(s: string) { forall i :: 0 <= i < |s| ==> IsAscii(s[i]) }

  function LowerChar(c: char): (d: char)
    ensures IsAscii(c) <==> IsAscii(d)
    ensures !IsLetter(c) ==> d == c
  {
    if 'A' <= c <= 'Z' then (c as int + 32) as char else c
  }

  function UpperChar(c: char): (d: char)
    ensures !IsLetter(c) ==> d == c
  {
    if 'a' <= c <= 'z' then (c as int - 32) as char else c
  }

  function Lower(s: string): (r: string)
    ensures |r| == |s|
    ensures forall i :: 0 <= i < |s| ==> r[i] == LowerChar(s[i])
  {
    seq(|s|, i requires 0 <= i < |s| => LowerChar(s[i]))
  }

  function Upper(s: string): (r: string)
    ensures |r| == |s|
    ensures forall i :: 0 <= i < |s| ==> r[i] == UpperChar(s[i])
  {
    seq(|s|, i requires 0 <= i < |s| => UpperChar(s[i]))
  }

  /** The characters PHP's trim() strips: space, \t, \n, \r, NUL and vertical tab. */
  predicate IsTrimChar(c: char) {
    c == ' ' || c == '\t' || c == '\n' || c == '\r' || c == 0 as char || c == 11 as char
  }

  function TrimLeft(s: string): (r: string)
    ensures |r| <= |s| && r == s[|s| - |r|..]
    ensures r == [] || !IsTrimChar(r[0])
  {
    if |s| > 0 && IsTrimChar(s[0]) then TrimLeft(s[1..]) else s
  }

  function TrimRight(s: string): (r: string)
    ensures |r| <= |s| && r == s[..|r|]
    ensures r == [] || !IsTrimChar(r[|r| - 1])
  {
    if |s| > 0 && IsTrimChar(s[|s| - 1]) then TrimRight(s[..|s| - 1]) else s
  }

  /** PHP trim(). */
  function Trim(s: string): string {
    TrimRight(TrimLeft(s))
  }

  /** White space removed by JavaScript's String.prototype.trim. */
  predicate IsJsSpace(c: char) {
    ('\t' <= c <= '\r') || c == ' ' || c == '\U{A0}' || c == '\U{1680}' || ('\U{2000}' <= c <= '\U{200A}')
    || c == '\U{2028}' || c == '\U{2029}' || c == '\U{202F}' || c == '\U{205F}' || c == '\U{3000}' || c == '\U{FEFF}'
  }

  function JsTrimLeft(s: string): (r: string)
    ensures |r| <= |s|
    ensures r == [] || !IsJsSpace(r[0])
  {
    if |s| > 0 && IsJsSpace(s[0]) then JsTrimLeft(s[1..]) else s
  }

  function JsTrimRight(s: string): (r: string)
    ensures |r| <= |s|
    ensures r == [] || !IsJsSpace(r[|r| - 1])
  {
    if |s| > 0 && IsJsSpace(s[|s| - 1]) then JsTrimRight(s[..|s| - 1]) else s
  }

  /** s.trim() in JavaScript. */
  function JsTrim(s: string): string {
    JsTrimRight(JsTrimLeft(s))
  }

  function Digit(d: nat): (c: char)
    requires d < 10
    ensures IsDigit(c) && c as int - '0' as int == d
  {
    "0123456789"[d]
  }

  predicate AllDigits(s: string) { forall i :: 0 <= i < |s| ==> IsDigit(s[i]) }

  /** The decimal digits of a non-negative integer, as `${n}` and PHP's string conversion write it. */
  function DecimalString(n: nat): (r: string)
    ensures |r| >= 1 && AllDigits(r)
    decreases n
  {
    if n < 10 then [Digit(n)] else DecimalString(n / 10) + [Digit(n % 10)]
  }

  /** White space PHP skips before the digits of an integer string. */
  predicate IsPhpSpace(c: char) {
    c == ' ' || c == '\t' || c == '\n' || c == '\r' || c == '\U{B}' || c == '\U{C}'
  }

  function DropPhpSpaces(s: string): (r: string)
    ensures |r| <= |s|
  {
    if |s| > 0 && IsPhpSpace(s[0]) then DropPhpSpaces(s[1..]) else s
  }

  /** The leading run of decimal digits of `s`. */
  function TakeDigits(s: string): (r: string)
    ensures |r| <= |s| && AllDigits(r)
  {
    if |s| > 0 && IsDigit(s[0]) then [s[0]] + TakeDigits(s[1..]) else []
  }

  /** The value of a string of decimal digits; the empty string is 0. */
  function DigitsValue(d: string): nat
    requires AllDigits(d)
  {
    if |d| == 0 then 0 else DigitsValue(d[..|d| - 1]) * 10 + (d[|d| - 1] as int - '0' as int)
  }

  predicate AllPhpSpaces(s: string) { forall i :: 0 <= i < |s| ==> IsPhpSpace(s[i]) }

  /**
   * The leading number of a PHP string: its sign, its digits without the
   * decimal point as one integer (`mantissa`), how many of them follow the
   * point (`scale`), the exponent, and the text after the number.
   */
  datatype NumericPrefix = NumericPrefix(negative: bool, mantissa: nat, scale: nat, exponent: int, rest: string)

  /** An exponent part `[eE][+-]?digits`, or exponent 0 and nothing consumed. */
  function ScanExponent(w: string): (r: (int, string))
    ensures |r.1| <= |w|
  {
    if |w| > 0 && (w[0] == 'e' || w[0] == 'E') then
      var v := w[1..];
      var x := if |v| > 0 && (v[0] == '-' || v[0] == '+') then v[1..] else v;
      var d := TakeDigits(x);
      if |d| == 0 then (0, w)
      else if |v| > 0 && v[0] == '-' then (-(DigitsValue(d) as int), x[|d|..])
      else (DigitsValue(d) as int, x[|d|..])
    else (0, w)
  }

  /**
   * The number at the start of `s`, as PHP reads one: leading white space, an
   * optional sign, digits with an optional decimal point (at least one digit
   * on either side of it), then an optional exponent. None when no digit
   * starts the text. Each stage is its own function below.
   */
  function ScanNumber(s: string): Option<NumericPrefix> {
    ScanSigned(DropPhpSpaces(s))
  }

  function ScanSigned(t: string): Option<NumericPrefix> {
    if |t| > 0 && (t[0] == '-' || t[0] == '+') then ScanUnsigned(t[0] == '-', t[1..]) else ScanUnsigned(false, t)
  }

  function ScanUnsigned(negative: bool, u: string): Option<NumericPrefix> {
    var whole := TakeDigits(u);
    ScanAfterWhole(negative, whole, u[|whole|..])
  }

  function ScanAfterWhole(negative: bool, whole: string, w: string): Option<NumericPrefix>
    requires AllDigits(whole)
  {
    if |w| > 0 && w[0] == '.' then
      var fraction := TakeDigits(w[1..]);
      ScanFinish(negative, whole, fraction, w[1 + |fraction|..])
    else ScanFinish(negative, whole, "", w)
  }

  /** No digit on either side of the point: no number; else the exponent follows. */
  function ScanFinish(negative: bool, whole: string, fraction: string, after: string): (r: Option<NumericPrefix>)
    requires AllDigits(whole) && AllDigits(fraction)
    ensures r.None? <==> |whole| == 0 && |fraction| == 0
  {
    if |whole| == 0 && |fraction| == 0 then None
    else
      assert AllDigits(whole + fraction);
      var e := ScanExponent(after);
      Some(NumericPrefix(negative, DigitsValue(whole + fraction), |fraction|, e.0, e.1))
  }

  function Pow10(n: nat): (p: nat)
    ensures p >= 1
  {
    if n == 0 then 1 else 10 * Pow10(n - 1)
  }

  /** The value a numeric prefix denotes: mantissa / 10^scale * 10^exponent, with its sign. */
  function NumberValue(p: NumericPrefix): real {
    var magnitude := Scaled(p.mantissa as real / Pow10(p.scale) as real, p.exponent);
    if p.negative then -magnitude else magnitude
  }

  /** m * 10^e for an integer exponent of either sign. */
  function Scaled(m: real, e: int): real {
    if e >= 0 then m * Pow10(e) as real else m / Pow10(-e) as real
  }

  /** A real's integer part, rounding toward zero as PHP's (int) cast of a float does. */
  function Truncate(v: real): (n: int)
    ensures v >= 0.0 ==> n as real <= v < n as real + 1.0
    ensures v <= 0.0 ==> n as real - 1.0 < v <= n as real
  {
    if v >= 0.0 then v.Floor else -((-v).Floor)
  }

  /**
   * PHP's (int) cast and intval() of a string: the value of its leading number
   * truncated toward zero, or 0 when it has none.
   */
  function PhpIntval(s: string): int {
    match ScanNumber(s)
    case None => 0
    case Some(p) => Truncate(NumberValue(p))
  }

  /**
   * The value of a numeric string, as is_numeric accepts one: a leading number
   * followed by nothing but white space. None for any other string.
   */
  function PhpNumericValue(s: string): (r: Option<real>)
    ensures r.Some? ==> ScanNumber(s).Some? && AllPhpSpaces(ScanNumber(s).value.rest)
    ensures r.Some? ==> PhpIntval(s) == Truncate(r.value)
  {
    match ScanNumber(s)
    case Some(p) => if AllPhpSpaces(p.rest) then Some(NumberValue(p)) else None
    case None => None
  }

  /** PHP's is_numeric on a string. */
  predicate IsPhpNumeric(s: string) {
    PhpNumericValue(s).Some?
  }

  lemma {:induction false} TakeAllDigits(s: string)
    requires AllDigits(s)
    ensures TakeDigits(s) == s
    decreases |s|
  {
    if |s| > 0 {
      TakeAllDigits(s[1..]);
      assert [s[0]] + s[1..] == s;
    }
  }

  lemma {:induction false} DecimalValue(n: nat)
    ensures DigitsValue(DecimalString(n)) == n
    decreases n
  {
    var r := DecimalString(n);
    if n >= 10 {
      DecimalValue(n / 10);
      assert r[..|r| - 1] == DecimalString(n / 10);
    }
  }

  /** A plain run of digits scans as that integer, with nothing after it. */
  lemma ScanDigits(r: string)
    requires |r| > 0 && AllDigits(r)
    ensures ScanNumber(r) == Some(NumericPrefix(false, DigitsValue(r), 0, 0, ""))
  {
    assert !IsPhpSpace(r[0]) && r[0] != '-' && r[0] != '+';
    assert DropPhpSpaces(r) == r;
    TakeAllDigits(r);
    assert r[|r|..] == [];
    assert r + [] == r;
    assert ScanExponent([]) == (0, []);
  }

  /** A run of digits is numeric, and both its value and its cast are the integer it spells. */
  lemma IntvalOfDigits(r: string)
    requires |r| > 0 && AllDigits(r)
    ensures PhpIntval(r) == DigitsValue(r)
    ensures PhpNumericValue(r) == Some(DigitsValue(r) as real)
  {
    ScanDigits(r);
    IntegerValue(DigitsValue(r));
  }

  /** An integer mantissa with no fraction digits and no exponent denotes that integer. */
  lemma IntegerValue(m: nat)
    ensures NumberValue(NumericPrefix(false, m, 0, 0, "")) == m as real
    ensures Truncate(m as real) == m
  {
    assert Pow10(0) == 1;
  }

  /** Casting the decimal string of a non-negative integer back to int gives the integer. */
  lemma IntvalOfDecimal(n: nat)
    ensures PhpIntval(DecimalString(n)) == n
    ensures PhpNumericValue(DecimalString(n)) == Some(n as real)
  {
    IntvalOfDigits(DecimalString(n));
    DecimalValue(n);
  }

  /** The leading digits of digits followed by a non-digit are those digits. */
  lemma {:induction false} TakeDigitsBefore(d: string, rest: string)
    requires AllDigits(d) && |rest| > 0 && !IsDigit(rest[0])
    ensures TakeDigits(d + rest) == d
    decreases |d|
  {
    if |d| == 0 {
      assert d + rest == rest;
    } else {
      TakeDigitsBefore(d[1..], rest);
      assert (d + rest)[1..] == d[1..] + rest;
      assert [d[0]] + d[1..] == d;
    }
  }

  /** Text starting with a digit scans as an unsigned number from its first character. */
  lemma ScanFromDigit(s: string)
    requires |s| > 0 && IsDigit(s[0])
    ensures ScanNumber(s) == ScanUnsigned(false, s)
  {
    assert DropPhpSpaces(s) == s;
  }

  /** Digits, a decimal point and digits: the point moves into the scale. */
  lemma ScanPointed(w: string, f: string)
    requires |w| > 0 && AllDigits(w) && AllDigits(f)
    ensures ScanNumber(w + "." + f) == Some(NumericPrefix(false, DigitsValue(w + f), |f|, 0, ""))
  {
    var s := w + ("." + f);
    assert w + "." + f == s;
    assert s[0] == w[0];
    ScanFromDigit(s);
    TakeDigitsBefore(w, "." + f);
    assert s[|w|..] == "." + f;
    assert ("." + f)[1..] == f;
    TakeAllDigits(f);
    assert ("." + f)[1 + |f|..] == [];
    assert ScanAfterWhole(false, w, "." + f) == ScanFinish(false, w, f, []);
  }

  /** `e` and digits: the exponent is their value and nothing is left. */
  lemma ExponentDigits(x: string)
    requires |x| > 0 && AllDigits(x)
    ensures ScanExponent("e" + x) == (DigitsValue(x) as int, "")
  {
    assert ("e" + x)[1..] == x;
    assert !(x[0] == '-' || x[0] == '+');
    TakeAllDigits(x);
    assert x[|x|..] == [];
  }

  /** Digits, `e` and digits: an integer mantissa with a non-negative exponent. */
  lemma ScanExponentForm(w: string, x: string)
    requires |w| > 0 && AllDigits(w) && |x| > 0 && AllDigits(x)
    ensures ScanNumber(w + "e" + x) == Some(NumericPrefix(false, DigitsValue(w), 0, DigitsValue(x), ""))
  {
    var s := w + ("e" + x);
    assert w + "e" + x == s;
    assert s[0] == w[0];
    ScanFromDigit(s);
    TakeDigitsBefore(w, "e" + x);
    assert s[|w|..] == "e" + x;
    ExponentDigits(x);
    assert w + "" == w;
    assert ScanAfterWhole(false, w, "e" + x) == ScanFinish(false, w, "", "e" + x);
  }

  /** The value of `w.f` is the digits of w and f over 10^|f|, and its cast truncates that. */
  lemma PointedValue(w: string, f: string)
    requires |w| > 0 && AllDigits(w) && AllDigits(f)
    ensures AllDigits(w + f)
    ensures PhpNumericValue(w + "." + f) == Some(DigitsValue(w + f) as real / Pow10(|f|) as real)
    ensures PhpIntval(w + "." + f) == Truncate(DigitsValue(w + f) as real / Pow10(|f|) as real)
  {
    ScanPointed(w, f);
    assert Pow10(0) == 1;
  }

  /** The value of `w` e `x` is w times 10^x, an integer, and its cast is that integer. */
  lemma ExponentValue(w: string, x: string)
    requires |w| > 0 && AllDigits(w) && |x| > 0 && AllDigits(x)
    ensures PhpNumericValue(w + "e" + x) == Some((DigitsValue(w) * Pow10(DigitsValue(x))) as real)
    ensures PhpIntval(w + "e" + x) == DigitsValue(w) * Pow10(DigitsValue(x))
  {
    ScanExponentForm(w, x);
    var q := NumericPrefix(false, DigitsValue(w), 0, DigitsValue(x), "");
    assert ScanNumber(w + "e" + x) == Some(q);
    ScaledInteger(DigitsValue(w), DigitsValue(x));
  }

  /** An integer with no fraction digits, scaled by a non-negative exponent, is an integer. */
  lemma ScaledInteger(m: nat, e: nat)
    ensures Scaled(m as real / Pow10(0) as real, e) == (m * Pow10(e)) as real
    ensures Truncate((m * Pow10(e)) as real) == m * Pow10(e)
  {
    var p := Pow10(e);
    assert Pow10(0) == 1;
    assert m as real / 1.0 == m as real;
    RealProduct(m, p);
  }

  lemma RealProduct(a: nat, b: nat)
    ensures a as real * b as real == (a * b) as real
  {
  }

  /** The value and cast of a two-digit `a.b`, from the general scan. */
  lemma PointedPair(a: char, b: char)
    requires IsDigit(a) && IsDigit(b)
    ensures var v := ((a as int - '0' as int) * 10 + (b as int - '0' as int)) as real / 10.0;
      PhpNumericValue([a, '.', b]) == Some(v) && PhpIntval([a, '.', b]) == Truncate(v)
  {
    PointedValue([a], [b]);
    assert [a] + "." + [b] == [a, '.', b];
    assert [a] + [b] == [a, b];
    assert [a, b][..1] == [a] && [a][..0] == [];
    assert DigitsValue([a]) == a as int - '0' as int;
    assert DigitsValue([a, b]) == DigitsValue([a]) * 10 + (b as int - '0' as int);
    assert Pow10(1) == 10;
  }

  /** The value and cast of `a` e `b` for single digits: a times 10^b. */
  lemma ExponentPair(a: char, b: char)
    requires IsDigit(a) && IsDigit(b)
    ensures var n := (a as int - '0' as int) * Pow10(b as int - '0' as int);
      PhpNumericValue([a, 'e', b]) == Some(n as real) && PhpIntval([a, 'e', b]) == n
  {
    ExponentValue([a], [b]);
    assert [a] + "e" + [b] == [a, 'e', b];
    assert [a][..0] == [] && [b][..0] == [];
    assert DigitsValue([a]) == a as int - '0' as int;
    assert DigitsValue([b]) == b as int - '0' as int;
  }

  /** "1.0" is a numeric string denoting 1, and casts to 1. */
  lemma OnePointZeroForm()
    ensures PhpNumericValue("1.0") == Some(1.0) && PhpIntval("1.0") == 1
  {
    PointedPair('1', '0');
    assert 10 as real / 10.0 == 1.0;
  }

  /** "1e0" is a numeric string denoting 1, and casts to 1. */
  lemma OneExponentZeroForm()
    ensures PhpNumericValue("1e0") == Some(1.0) && PhpIntval("1e0") == 1
  {
    ExponentPair('1', '0');
    assert Pow10(0) == 1;
  }

  /** "0.5" is numeric with value 0.5, and casts to 0. */
  lemma HalfForm()
    ensures PhpNumericValue("0.5") == Some(0.5) && PhpIntval("0.5") == 0
  {
    PointedPair('0', '5');
    assert 5 as real / 10.0 == 0.5;
  }

  /** "1.5" is numeric with value 1.5, and casts to 1. */
  lemma OneAndHalfForm()
    ensures PhpNumericValue("1.5") == Some(1.5) && PhpIntval("1.5") == 1
  {
    PointedPair('1', '5');
    assert 15 as real / 10.0 == 1.5;
  }

  /** "1e1" is numeric with value 10, and casts to 10. */
  lemma TenForm()
    ensures PhpNumericValue("1e1") == Some(10.0) && PhpIntval("1e1") == 10
  {
    ExponentPair('1', '1');
    assert Pow10(1) == 10;
  }

  /** PHP's empty() on a string: the empty string and "0" are both empty. */
  predicate PhpEmpty(s: string) { s == "" || s == "0" }

  function StartsWith(s: string, prefix: string): bool {
    |prefix| <= |s| && s[..|prefix|] == prefix
  }

  function EndsWith(s: string, suffix: string): bool {
    |suffix| <= |s| && s[|s| - |suffix|..] == suffix
  }

  /** Substring test, as strpos(...) !== false and String.prototype.includes; the empty needle is found everywhere. */
  function Contains(haystack: string, needle: string): bool
    decreases |haystack|
  {
    if |needle| > |haystack| then false
    else if haystack[..|needle|] == needle then true
    else Contains(haystack[1..], needle)
  }

  lemma {:induction false} ContainsAt(haystack: string, needle: string, i: nat)
    requires i + |needle| <= |haystack| && haystack[i..i + |needle|] == needle
    ensures Contains(haystack, needle)
    decreases i
  {
    if haystack[..|needle|] != needle {
      assert i > 0;
      assert haystack[1..][i - 1..i - 1 + |needle|] == haystack[i..i + |needle|];
      ContainsAt(haystack[1..], needle, i - 1);
    }
  }

  lemma {:induction false} ContainsWitness(haystack: string, needle: string) returns (i: nat)
    requires Contains(haystack, needle)
    ensures i + |needle| <= |haystack| && haystack[i..i + |needle|] == needle
    decreases |haystack|
  {
    if haystack[..|needle|] == needle {
      i := 0;
    } else {
      var j := ContainsWitness(haystack[1..], needle);
      i := j + 1;
      assert haystack[1..][j..j + |needle|] == haystack[i..i + |needle|];
    }
  }

  /** Case-insensitive substring test (stripos(...) !== false). */
  predicate ContainsIgnoreCase(haystack: string, needle: string) {
    Contains(Lower(haystack), Lower(needle))
  }

  /** Case-insensitive equality (strcasecmp(...) === 0). */
  predicate EqualsIgnoreCase(a: string, b: string) {
    Lower(a) == Lower(b)
  }

  /** Case-insensitive equality implies the case-insensitive substring test. */
  lemma EqualsIgnoreCaseContains(a: string, b: string)
    requires EqualsIgnoreCase(a, b)
    ensures ContainsIgnoreCase(a, b)
  {
    ContainsAt(Lower(a), Lower(b), 0);
  }

  /** Index of the first occurrence of `c` in `s`. */
  function IndexOf(s: string, c: char): (i: nat)
    requires c in s
    ensures i < |s| && s[i] == c && c !in s[..i]
  {
    if s[0] == c then 0 else 1 + IndexOf(s[1..], c)
  }

  /** Index of the last occurrence of `c` in `s`. */
  function LastIndexOf(s: string, c: char): (i: nat)
    requires c in s
    ensures i < |s| && s[i] == c && c !in s[i + 1..]
  {
    if s[|s| - 1] == c then |s| - 1 else LastIndexOf(s[..|s| - 1], c)
  }

  /** explode(sep, s) / s.split(sep): the maximal pieces between separators, empty ones included. */
  function Split(s: string, sep: char): (parts: seq<string>)
    ensures |parts| >= 1
    ensures forall k :: 0 <= k < |parts| ==> sep !in parts[k]
    decreases |s|
  {
    if sep !in s then [s]
    else
      var i := IndexOf(s, sep);
      [s[..i]] + Split(s[i + 1..], sep)
  }

  /** implode(sep, parts). */
  function Join(parts: seq<string>, sep: char): string
    requires |parts| >= 1
  {
    if |parts| == 1 then parts[0] else parts[0] + [sep] + Join(parts[1..], sep)
  }

  lemma {:induction false} JoinSplit(s: string, sep: char)
    ensures Join(Split(s, sep), sep) == s
    decreases |s|
  {
    if sep in s {
      var i := IndexOf(s, sep);
      JoinSplit(s[i + 1..], sep);
      assert Split(s, sep)[1..] == Split(s[i + 1..], sep);
      assert s == s[..i] + [sep] + s[i + 1..];
    }
  }

  /** Two adjacent separators produce an empty piece. */
  lemma {:induction false} SplitAdjacentSeparators(s: string, sep: char, i: nat)
    requires i + 1 < |s| && s[i] == sep && s[i + 1] == sep
    ensures "" in Split(s, sep)
    decreases |s|
  {
    var j := IndexOf(s, sep);
    if j == i {
      assert Split(s[j + 1..], sep)[0] == "" by {
        assert (s[j + 1..])[0] == sep;
        var t := s[j + 1..];
        assert IndexOf(t, sep) == 0;
      }
      assert Split(s, sep)[1] == Split(s[j + 1..], sep)[0];
    } else {
      assert j < i;
      SplitAdjacentSeparators(s[j + 1..], sep, i - j - 1);
      assert Split(s, sep) == [s[..j]] + Split(s[j + 1..], sep);
    }
  }

  /** A leading separator produces an empty first piece, a trailing one an empty last piece. */
  lemma SplitLeadingSeparator(s: string, sep: char)
    requires |s| > 0 && s[0] == sep
    ensures Split(s, sep)[0] == ""
  {
    assert IndexOf(s, sep) == 0;
  }

  lemma {:induction false} SplitTrailingSeparator(s: string, sep: char)
    requires |s| > 0 && s[|s| - 1] == sep
    ensures "" in Split(s, sep)
    decreases |s|
  {
    var j := IndexOf(s, sep);
    var t := s[j + 1..];
    if j == |s| - 1 {
      assert t == [];
      assert Split(t, sep) == [""];
      assert Split(s, sep)[1] == "";
    } else {
      assert t[|t| - 1] == sep;
      SplitTrailingSeparator(t, sep);
      assert Split(s, sep) == [s[..j]] + Split(t, sep);
    }
  }

  /** Every non-separator character of `s` lies in one of its pieces. */
  lemma {:induction false} SplitCovers(s: string, sep: char, k: nat)
    requires k < |s| && s[k] != sep
    ensures exists p :: p in Split(s, sep) && s[k] in p
    decreases |s|
  {
    if sep !in s {
      assert s in Split(s, sep);
    } else {
      var j := IndexOf(s, sep);
      if k < j {
        assert s[..j][k] == s[k];
        assert s[..j] in Split(s, sep);
      } else {
        assert k > j;
        SplitCovers(s[j + 1..], sep, k - j - 1);
        var p :| p in Split(s[j + 1..], sep) && s[j + 1..][k - j - 1] in p;
        assert p in Split(s, sep);
      }
    }
  }
}
