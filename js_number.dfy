/**
 * JavaScript's `Number(string)` conversion (ECMAScript "StringToNumber"):
 * surrounding white space is ignored, a blank string is 0, a decimal literal
 * with optional sign, fraction and exponent, `Infinity`, or an unsigned
 * `0x`/`0o`/`0b` literal is read, anything else is NaN. Values are exact
 * reals: rounding to the nearest double is not part of this model.
 */
module JsNumber {
  import opened Numerals
  import opened Options

  datatype Number = NaN | PosInf | NegInf | Finite(value: real)

  /** StrWhiteSpaceChar: the WhiteSpace and LineTerminator code points. */
  predicate IsStrWhiteSpace(c: char) {
    || c == '\t' || c == '\n' || c == '\U{B}' || c == '\U{C}' || c == '\r'
    || c == ' ' || c == '\U{A0}' || c == '\U{1680}'
    || ('\U{2000}' <= c <= '\U{200A}')
    || c == '\U{2028}' || c == '\U{2029}' || c == '\U{202F}' || c == '\U{205F}'
    || c == '\U{3000}' || c == '\U{FEFF}'
  }

  function TrimStart(s: string): (r: string)
    ensures r != [] ==> !IsStrWhiteSpace(r[0])
  {
    if s != [] && IsStrWhiteSpace(s[0]) then TrimStart(s[1..]) else s
  }

  function TrimEnd(s: string): (r: string)
    ensures r != [] ==> !IsStrWhiteSpace(r[|r| - 1])
  {
    if s != [] && IsStrWhiteSpace(s[|s| - 1]) then TrimEnd(s[..|s| - 1]) else s
  }

  function Trim(s: string): string {
    TrimEnd(TrimStart(s))
  }

  function Pow10(e: nat): (p: nat)
    ensures p >= 1
  {
    if e == 0 then 1 else 10 * Pow10(e - 1)
  }

  /** m * 10^e as an exact real. */
  function Scale(m: nat, e: int): (x: real)
    ensures x >= 0.0
  {
    if e >= 0 then (m * Pow10(e)) as real else (m as real) / (Pow10(-e) as real)
  }

  /** The index of the first occurrence of a character of `marks`, or |s| if none. */
  function IndexOfAny(s: string, marks: set<char>): (k: nat)
    ensures k <= |s|
    ensures forall i :: 0 <= i < k ==> s[i] !in marks
    ensures k < |s| ==> s[k] in marks
  {
    if s == [] || s[0] in marks then 0 else 1 + IndexOfAny(s[1..], marks)
  }

  /** SignedInteger of an exponent part: digits with an optional sign, at least one digit. */
  function ParseSignedInteger(x: string): (r: Option<int>)
  {
    var digits := if x != [] && (x[0] == '+' || x[0] == '-') then x[1..] else x;
    if digits == [] || !IsDigits(digits) then None
    else
      var magnitude: int := DigitsValue(digits);
      Some(if x[0] == '-' then -magnitude else magnitude)
  }

  /** A mantissa's digits (whole part then fraction) read as one integer, and the fraction's length. */
  datatype Mantissa = Mantissa(digits: nat, fractionLength: nat)

  /** `digits`, `digits.`, `digits.digits` or `.digits`: at least one digit, at most one point. */
  function ParseMantissa(m: string): Option<Mantissa> {
    var d := IndexOfAny(m, {'.'});
    var whole := m[..d];
    var fraction := if d < |m| then m[d + 1..] else [];
    if !IsDigits(whole) || !IsDigits(fraction) || whole + fraction == [] then None
    else Some(Mantissa(DigitsValue(whole + fraction), |fraction|))
  }

  /** StrUnsignedDecimalLiteral: `Infinity`, or a mantissa with an optional exponent part. */
  function ParseUnsignedDecimal(t: string): (n: Number)
    ensures n.PosInf? <==> t == "Infinity"
    ensures !n.NegInf?
    ensures n.Finite? ==> n.value >= 0.0
  {
    if t == "Infinity" then PosInf
    else
      var k := IndexOfAny(t, {'e', 'E'});
      var exponent := if k < |t| then ParseSignedInteger(t[k + 1..]) else Some(0);
      var mantissa := ParseMantissa(t[..k]);
      if exponent.None? || mantissa.None? then NaN
      else Finite(Scale(mantissa.value.digits, exponent.value - mantissa.value.fractionLength))
  }

  /** The value of a hexadecimal-alphabet digit, or -1 for any other character. */
  function RadixDigit(c: char): (d: int)
    ensures -1 <= d < 16
  {
    if '0' <= c <= '9' then (c as int) - ('0' as int)
    else if 'a' <= c <= 'f' then (c as int) - ('a' as int) + 10
    else if 'A' <= c <= 'F' then (c as int) - ('A' as int) + 10
    else -1
  }

  predicate IsRadixDigits(s: string, radix: nat) {
    forall i :: 0 <= i < |s| ==> 0 <= RadixDigit(s[i]) < radix
  }

  function RadixValue(s: string, radix: nat): nat
    requires IsRadixDigits(s, radix)
  {
    if s == [] then 0 else RadixValue(s[..|s| - 1], radix) * radix + RadixDigit(s[|s| - 1])
  }

  /** The radix a NonDecimalIntegerLiteral prefix letter selects, 0 for any other character. */
  function RadixOf(c: char): nat {
    if c == 'x' || c == 'X' then 16
    else if c == 'o' || c == 'O' then 8
    else if c == 'b' || c == 'B' then 2
    else 0
  }

  function Negate(n: Number): Number {
    match n
    case NaN => NaN
    case PosInf => NegInf
    case NegInf => PosInf
    case Finite(v) => Finite(-v)
  }

  /**
   * `Number(s)` for a string `s`: white space around the literal is ignored, a blank
   * string is 0, `Infinity` may carry a sign, a radix literal is unsigned, and only a
   * leading `-` gives a negative value.
   */
  function StringToNumber(s: string): (r: Number)
    ensures Trim(s) == [] ==> r == Finite(0.0)
    ensures r.PosInf? <==> Trim(s) == "Infinity" || Trim(s) == "+Infinity"
    ensures r.NegInf? <==> Trim(s) == "-Infinity"
    ensures |Trim(s)| >= 2 && Trim(s)[0] == '0' && RadixOf(Trim(s)[1]) > 0 ==>
              r.NaN? || (r.Finite? && r.value >= 0.0)
    ensures r.Finite? && r.value < 0.0 ==> Trim(s)[0] == '-'
  {
    var t := Trim(s);
    if t == [] then Finite(0.0)
    else if |t| >= 2 && t[0] == '0' && RadixOf(t[1]) > 0 then
      (if t[2..] != [] && IsRadixDigits(t[2..], RadixOf(t[1]))
       then Finite(RadixValue(t[2..], RadixOf(t[1])) as real) else NaN)
    else if t[0] == '+' then ParseUnsignedDecimal(t[1..])
    else if t[0] == '-' then Negate(ParseUnsignedDecimal(t[1..]))
    else ParseUnsignedDecimal(t)
  }

  /** A string of white space only (the empty string included) converts to 0. */
  lemma {:induction false} BlankIsZero(s: string)
    requires forall i :: 0 <= i < |s| ==> IsStrWhiteSpace(s[i])
    ensures StringToNumber(s) == Finite(0.0)
  {
    TrimStartBlank(s);
  }

  lemma {:induction false} TrimStartBlank(s: string)
    requires forall i :: 0 <= i < |s| ==> IsStrWhiteSpace(s[i])
    ensures TrimStart(s) == []
  {
    if s != [] {
      TrimStartBlank(s[1..]);
    }
  }

  /** A digit string contains no exponent mark and no decimal point. */
  lemma DigitsHaveNoMark(s: string, marks: set<char>)
    requires IsDigits(s)
    requires forall c :: c in marks ==> !IsDigit(c)
    ensures IndexOfAny(s, marks) == |s|
  {
  }

  /** A digit string is a mantissa without fraction. */
  lemma DigitsAsMantissa(s: string)
    requires |s| > 0 && IsDigits(s)
    ensures ParseMantissa(s) == Some(Mantissa(DigitsValue(s), 0))
  {
    DigitsHaveNoMark(s, {'.'});
    assert s[..|s|] + [] == s;
  }

  /** A digit string read as an unsigned decimal literal is its integer value. */
  lemma DigitsAsDecimal(s: string)
    requires |s| > 0 && IsDigits(s)
    ensures ParseUnsignedDecimal(s) == Finite(DigitsValue(s) as real)
  {
    assert s != "Infinity" by {
      assert IsDigit(s[0]);
    }
    DigitsHaveNoMark(s, {'e', 'E'});
    assert s[..|s|] == s;
    DigitsAsMantissa(s);
    assert Scale(DigitsValue(s), 0) == DigitsValue(s) as real;
  }

  /** A digit string has no white space to trim. */
  lemma DigitsUntrimmed(s: string)
    requires |s| > 0 && IsDigits(s)
    ensures Trim(s) == s
  {
    DigitNotWhiteSpace(s[0]);
    assert TrimStart(s) == s;
    DigitNotWhiteSpace(s[|s| - 1]);
  }

  lemma DigitNotWhiteSpace(c: char)
    requires IsDigit(c)
    ensures !IsStrWhiteSpace(c)
  {
  }

  /** A non-empty string of decimal digits converts to the finite number it denotes. */
  lemma DigitsConvert(s: string)
    requires |s| > 0 && IsDigits(s)
    ensures StringToNumber(s) == Finite(DigitsValue(s) as real)
  {
    DigitsUntrimmed(s);
    assert IsDigit(s[0]);
    assert |s| >= 2 ==> IsDigit(s[1]) && RadixOf(s[1]) == 0;
    assert StringToNumber(s) == ParseUnsignedDecimal(s);
    DigitsAsDecimal(s);
  }

  /** Trimming the end keeps a first character that is not white space. */
  lemma {:induction false} TrimEndKeepsFirst(s: string)
    requires s != [] && !IsStrWhiteSpace(s[0])
    ensures TrimEnd(s) != [] && TrimEnd(s)[0] == s[0]
  {
    if IsStrWhiteSpace(s[|s| - 1]) {
      TrimEndKeepsFirst(s[..|s| - 1]);
    }
  }

  /** A trimmed string has nothing left to trim. */
  lemma TrimIdempotent(s: string)
    ensures Trim(Trim(s)) == Trim(s)
  {
    var u := TrimStart(s);
    if u != [] {
      TrimEndKeepsFirst(u);
    }
  }

  /** White space around any literal is ignored: `Number(s)` is `Number` of the trimmed string. */
  lemma WhiteSpaceIgnored(s: string)
    ensures StringToNumber(s) == StringToNumber(Trim(s))
  {
    TrimIdempotent(s);
  }

  /**
   * A string whose first non-blank character cannot start a numeric literal
   * (not a digit, `.`, `+`, `-` or the `I` of `Infinity`) converts to NaN.
   */
  lemma NonNumericIsNaN(s: string)
    requires Trim(s) != []
    requires var c := Trim(s)[0]; !IsDigit(c) && c != '.' && c != '+' && c != '-' && c != 'I'
    ensures StringToNumber(s) == NaN
  {
    var t := Trim(s);
    assert t != "Infinity";
    var k := IndexOfAny(t, {'e', 'E'});
    var m := t[..k];
    if k > 0 {
      var d := IndexOfAny(m, {'.'});
      assert m[0] == t[0];
      assert d > 0;
      assert m[..d][0] == t[0];
      assert !IsDigits(m[..d]);
    }
    assert ParseMantissa(m) == None;
  }
}
