/**
 * The coercions the handlers rely on: truthiness of request-body values,
 * `parseFloat`, the NaN test `isNaN(string)`, and PostgreSQL's cast of a
 * text parameter to `integer`.
 */
module JsCoerce {
  import opened Wrappers
  import opened JsText

  /** A value of a JSON request body (JSON has no NaN and no Infinity). */
  datatype JsValue = Undefined | Null | Bool(b: bool) | Num(n: real) | Str(s: string)

  /** JavaScript truthiness: false, 0, "", null and undefined are falsy. */
  predicate Truthy(v: JsValue) {
    match v
    case Undefined => false
    case Null => false
    case Bool(b) => b
    case Num(n) => n != 0.0
    case Str(s) => s != ""
  }

  /** StrWhiteSpaceChar of ECMAScript: white space and line terminators. */
  predicate IsJsWhitespace(c: char) {
    c == '\t' || c == '\n' || c == '\U{000B}' || c == '\U{000C}' || c == '\r' || c == ' '
    || c == '\U{00A0}' || c == '\U{1680}' || ('\U{2000}' <= c <= '\U{200A}')
    || c == '\U{2028}' || c == '\U{2029}' || c == '\U{202F}' || c == '\U{205F}'
    || c == '\U{3000}' || c == '\U{FEFF}'
  }

  /** isspace() of the C library, which PostgreSQL's integer input skips. */
  predicate IsCSpace(c: char) {
    c == ' ' || c == '\t' || c == '\n' || c == '\U{000B}' || c == '\U{000C}' || c == '\r'
  }

  /** s without its leading characters that satisfy p. */
  function TrimStart(s: string, p: char -> bool): (r: string)
    ensures |r| <= |s| && r == s[|s| - |r|..]
    ensures r == [] || !p(r[0])
    ensures forall i :: 0 <= i < |s| - |r| ==> p(s[i])
  {
    if s != [] && p(s[0]) then TrimStart(s[1..], p) else s
  }

  /** s without its trailing characters that satisfy p. */
  function TrimEnd(s: string, p: char -> bool): (r: string)
    ensures |r| <= |s| && r == s[..|r|]
    ensures r == [] || !p(r[|r| - 1])
  {
    if s != [] && p(s[|s| - 1]) then TrimEnd(s[..|s| - 1], p) else s
  }

  function Pow10(n: nat): (p: real)
    ensures 1.0 <= p
  {
    if n == 0 then 1.0 else 10.0 * Pow10(n - 1)
  }

  /** The front of a string read as a number: how many characters, and their value. */
  datatype Scan = Scan(length: nat, value: real)

  /**
   * An ExponentPart (`e` or `E`, an optional sign, at least one digit) at
   * position i; length 0 when there is none.
   */
  function ScanExponent(s: string, i: nat): (r: (nat, int))
    requires i <= |s|
    ensures i + r.0 <= |s|
    ensures r.0 == 0 ==> r.1 == 0
  {
    if i < |s| && (s[i] == 'e' || s[i] == 'E') then
      var j := if i + 1 < |s| && (s[i + 1] == '+' || s[i + 1] == '-') then i + 2 else i + 1;
      var d := DigitRun(s, j);
      if d == 0 then (0, 0)
      else
        var magnitude: int := DigitsValue(s[j..j + d]);
        (j + d - i, if s[j - 1] == '-' then -magnitude else magnitude)
    else (0, 0)
  }

  /**
   * The longest StrUnsignedDecimalLiteral at the front of s (digits, an
   * optional fraction, an optional exponent; at least one digit), or None.
   */
  function ScanUnsignedDecimal(s: string): (r: Option<Scan>)
    ensures r.Some? ==> 0 < r.value.length <= |s|
  {
    var intLen := DigitRun(s, 0);
    if intLen < |s| && s[intLen] == '.' then
      var fracLen := DigitRun(s, intLen + 1);
      if intLen + fracLen == 0 then None
      else
        var mantissaEnd := intLen + 1 + fracLen;
        var fraction := FractionValue(s[intLen + 1..mantissaEnd]);
        Some(WithExponent(s, mantissaEnd, DigitsValue(s[..intLen]) as real + fraction))
    else if intLen == 0 then None
    else Some(WithExponent(s, intLen, DigitsValue(s[..intLen]) as real))
  }

  /** The mantissa m, read up to position i, with the exponent that follows it. */
  function WithExponent(s: string, i: nat, m: real): (r: Scan)
    requires i <= |s|
    ensures i <= r.length <= |s|
  {
    var (expLen, exp) := ScanExponent(s, i);
    Scan(i + expLen, Scaled(m, exp))
  }

  /** The value of the digits after a decimal point. */
  function FractionValue(digits: string): real
    requires AllDigits(digits)
  {
    DigitsValue(digits) as real / Pow10(|digits|)
  }

  /** m times ten to the power exp. */
  function Scaled(m: real, exp: int): real {
    if exp >= 0 then m * Pow10(exp) else m / Pow10(-exp)
  }

  /** An optional sign followed by an unsigned decimal literal. */
  function ScanDecimal(s: string): (r: Option<Scan>)
    ensures r.Some? ==> 0 < r.value.length <= |s|
  {
    if s != [] && (s[0] == '+' || s[0] == '-') then
      match ScanUnsignedDecimal(s[1..])
      case None => None
      case Some(sc) => Some(Scan(sc.length + 1, if s[0] == '-' then -sc.value else sc.value))
    else ScanUnsignedDecimal(s)
  }

  /** parseFloat of a string: the number at its front after white space, None for NaN. */
  function ParseFloatText(s: string): (r: Option<real>)
  {
    match ScanDecimal(TrimStart(s, IsJsWhitespace))
    case None => None
    case Some(sc) => Some(sc.value)
  }

  /** parseFloat of a request-body value, None for NaN. */
  function ParseFloat(v: JsValue): (r: Option<real>)
  {
    match v
    case Num(n) => Some(n)
    case Str(s) => ParseFloatText(s)
    case _ => None
  }

  predicate IsHexDigit(c: char) {
    IsDigit(c) || 'a' <= c <= 'f' || 'A' <= c <= 'F'
  }

  /** A NonDecimalIntegerLiteral: 0x, 0o or 0b followed by digits of that base. */
  predicate IsNonDecimalInteger(t: string) {
    && 3 <= |t| && t[0] == '0'
    && (|| ((t[1] == 'x' || t[1] == 'X') && (forall i :: 2 <= i < |t| ==> IsHexDigit(t[i])))
        || ((t[1] == 'o' || t[1] == 'O') && (forall i :: 2 <= i < |t| ==> '0' <= t[i] <= '7'))
        || ((t[1] == 'b' || t[1] == 'B') && (forall i :: 2 <= i < |t| ==> t[i] == '0' || t[i] == '1')))
  }

  /**
   * `!isNaN(s)` for a string s: Number(s) is a number, that is, s with its
   * surrounding white space removed is empty, an (optionally signed)
   * Infinity, a decimal literal, or a hex, octal or binary integer literal.
   */
  predicate IsNumericText(s: string) {
    var t := TrimEnd(TrimStart(s, IsJsWhitespace), IsJsWhitespace);
    || t == []
    || t == "Infinity" || t == "+Infinity" || t == "-Infinity"
    || IsNonDecimalInteger(t)
    || (ScanDecimal(t).Some? && ScanDecimal(t).value.length == |t|)
  }

  /** Outcome of PostgreSQL's cast of text to `integer` (int4). */
  datatype PgInt = PgValue(n: int) | InvalidSyntax | OutOfRange

  /**
   * The text-to-integer cast of PostgreSQL: optional surrounding white
   * space, an optional sign and decimal digits, within the 32-bit range.
   */
  function PgIntegerCast(s: string): (r: PgInt)
    ensures r.PgValue? ==> -0x8000_0000 <= r.n < 0x8000_0000
  {
    var t := TrimEnd(TrimStart(s, IsCSpace), IsCSpace);
    if t != [] && (t[0] == '-' || t[0] == '+') then PgDigits(t[1..], t[0] == '-')
    else PgDigits(t, false)
  }

  /** The digits after the sign: at least one, all decimal, and the signed value within range. */
  function PgDigits(body: string, negative: bool): (r: PgInt)
    ensures r.PgValue? ==> -0x8000_0000 <= r.n < 0x8000_0000
  {
    if body == [] || !AllDigits(body) then InvalidSyntax
    else
      var magnitude: int := DigitsValue(body);
      var n := if negative then -magnitude else magnitude;
      if -0x8000_0000 <= n < 0x8000_0000 then PgValue(n) else OutOfRange
  }

  /** A digit is neither JavaScript nor C white space. */
  lemma DigitIsNotSpace(c: char)
    requires IsDigit(c)
    ensures !IsJsWhitespace(c) && !IsCSpace(c)
  {
  }

  /** Trimming leaves a numeral as it is. */
  lemma NumeralTrim(s: string)
    requires s != [] && AllDigits(s)
    ensures TrimStart(s, IsJsWhitespace) == s && TrimEnd(s, IsJsWhitespace) == s
    ensures TrimStart(s, IsCSpace) == s && TrimEnd(s, IsCSpace) == s
  {
    DigitIsNotSpace(s[0]);
    DigitIsNotSpace(s[|s| - 1]);
  }

  /** The unsigned scanner reads a numeral whole: no fraction, no exponent. */
  lemma UnsignedScanOfNumeral(s: string)
    requires s != [] && AllDigits(s)
    ensures ScanUnsignedDecimal(s) == Some(Scan(|s|, DigitsValue(s) as real))
  {
    DigitRunUpTo(s, 0, |s|);
    assert s[..|s|] == s;
    NoExponentAtEnd(s, DigitsValue(s) as real);
  }

  /** Nothing follows the end of the text, so a mantissa read to the end keeps its value. */
  lemma NoExponentAtEnd(s: string, m: real)
    ensures WithExponent(s, |s|, m) == Scan(|s|, m)
  {
    assert ScanExponent(s, |s|) == (0, 0);
    assert Pow10(0) == 1.0;
  }

  /** The decimal scanner reads a numeral whole. */
  lemma NumeralScan(s: string)
    requires s != [] && AllDigits(s)
    ensures ScanDecimal(s) == Some(Scan(|s|, DigitsValue(s) as real))
  {
    UnsignedScanOfNumeral(s);
    assert IsDigit(s[0]);
  }

  /** parseFloat reads back the numeral `${n}` as n. */
  lemma ParseFloatOfNumeral(n: nat)
    ensures ParseFloat(Str(NatToString(n))) == Some(n as real)
  {
    ParseFloatOfDigits(NatToString(n));
    DigitsValueOfNatToString(n);
  }

  /** parseFloat reads a string of digits as its decimal value. */
  lemma ParseFloatOfDigits(s: string)
    requires s != [] && AllDigits(s)
    ensures ParseFloat(Str(s)) == Some(DigitsValue(s) as real)
  {
    NumeralTrim(s);
    NumeralScan(s);
  }

  /** A non-empty string of digits is numeric text: isNaN of it is false. */
  lemma NumeralIsNumeric(s: string)
    requires s != [] && AllDigits(s)
    ensures IsNumericText(s)
  {
    NumeralTrim(s);
    NumeralScan(s);
  }

  /** PostgreSQL casts the numeral of a 32-bit non-negative n back to n. */
  lemma PgCastOfNumeral(n: nat)
    requires n < 0x8000_0000
    ensures PgIntegerCast(NatToString(n)) == PgValue(n)
  {
    DigitsValueOfNatToString(n);
    PgCastOfDigits(NatToString(n));
  }

  /** PostgreSQL casts a string of digits to its decimal value when that is below 2^31. */
  lemma PgCastOfDigits(s: string)
    requires s != [] && AllDigits(s) && DigitsValue(s) < 0x8000_0000
    ensures PgIntegerCast(s) == PgValue(DigitsValue(s))
  {
    NumeralTrim(s);
    assert IsDigit(s[0]);
  }
}
