/**
  The two conversions between text and numbers that the game relies on:
  JavaScript's global `parseInt` called without a radix (used to read a
  guess) and the decimal rendering of an integral Number (used when the
  target is spliced into the loss message).
 */
module JsNumber {

  /** What `parseInt` returns: NaN, or an integral Number. */
  datatype IntOrNaN = NaN | Int(value: int)

  /** The characters that `parseInt` skips at the start of its argument:
      the WhiteSpace and LineTerminator code points of ECMAScript. */
  predicate IsWhiteSpace(c: char) {
    c == '\t' || c == '\U{B}' || c == '\U{C}' || c == ' ' || c == '\U{A0}' ||
    c == '\U{FEFF}' || c == '\U{1680}' || ('\U{2000}' <= c <= '\U{200A}') ||
    c == '\U{202F}' || c == '\U{205F}' || c == '\U{3000}' ||
    c == '\n' || c == '\r' || c == '\U{2028}' || c == '\U{2029}'
  }

  /** The value of an alphanumeric character as a digit (0-9, then a-z and
      A-Z as 10-35); 36 for every other character, a digit in no radix. */
  function DigitValue(c: char): (d: nat)
    ensures d <= 36
    ensures d < 10 <==> '0' <= c <= '9'
  {
    if '0' <= c <= '9' then c as int - '0' as int
    else if 'a' <= c <= 'z' then c as int - 'a' as int + 10
    else if 'A' <= c <= 'Z' then c as int - 'A' as int + 10
    else 36
  }

  predicate IsDigit(c: char, radix: nat) {
    DigitValue(c) < radix
  }

  /** The argument with its leading white space removed. */
  function TrimStart(s: string): (t: string)
    ensures |t| <= |s|
  {
    if s != [] && IsWhiteSpace(s[0]) then TrimStart(s[1..]) else s
  }

  /** `TrimStart` removes a prefix made of white space only, and stops at
      the first character that is not white space. */
  lemma {:induction false} TrimStartRemovesWhiteSpace(s: string)
    ensures TrimStart(s) == s[|s| - |TrimStart(s)|..]
    ensures forall i :: 0 <= i < |s| - |TrimStart(s)| ==> IsWhiteSpace(s[i])
    ensures TrimStart(s) == [] || !IsWhiteSpace(TrimStart(s)[0])
  {
    if s != [] && IsWhiteSpace(s[0]) {
      TrimStartRemovesWhiteSpace(s[1..]);
      forall i | 0 < i < |s| - |TrimStart(s)| ensures IsWhiteSpace(s[i]) {
        assert s[i] == s[1..][i - 1];
      }
    }
  }

  /** The length of the longest prefix of `s` made of digits in `radix`. */
  function DigitPrefixLength(s: string, radix: nat): (n: nat)
    ensures n <= |s|
  {
    if s == [] || !IsDigit(s[0], radix) then 0
    else 1 + DigitPrefixLength(s[1..], radix)
  }

  /** `DigitPrefixLength` measures a run of digits that cannot be
      extended. */
  lemma {:induction false} DigitPrefixIsLongest(s: string, radix: nat)
    ensures forall i :: 0 <= i < DigitPrefixLength(s, radix) ==> IsDigit(s[i], radix)
    ensures DigitPrefixLength(s, radix) < |s| ==> !IsDigit(s[DigitPrefixLength(s, radix)], radix)
  {
    if s != [] && IsDigit(s[0], radix) {
      DigitPrefixIsLongest(s[1..], radix);
      forall i | 0 < i < DigitPrefixLength(s, radix) ensures IsDigit(s[i], radix) {
        assert s[i] == s[1..][i - 1];
      }
    }
  }

  /** The number that a string of digits denotes in `radix`, most
      significant digit first. */
  function DigitsValue(z: string, radix: nat): nat {
    if z == [] then 0
    else DigitsValue(z[..|z| - 1], radix) * radix + DigitValue(z[|z| - 1])
  }

  /** `parseInt(s)`: skip white space, take an optional sign, and read the
      magnitude that follows; NaN when there is none. */
  function ParseInt(s: string): IntOrNaN {
    var t := TrimStart(s);
    if t != [] && t[0] == '-' then Negate(ParseMagnitude(t[1..]))
    else if t != [] && t[0] == '+' then ParseMagnitude(t[1..])
    else ParseMagnitude(t)
  }

  function Negate(x: IntOrNaN): IntOrNaN {
    match x
    case NaN => NaN
    case Int(v) => Int(-v)
  }

  /** An unsigned magnitude: hexadecimal digits after a `0x` or `0X`
      prefix, decimal digits otherwise. */
  function ParseMagnitude(u: string): IntOrNaN {
    if |u| >= 2 && u[0] == '0' && (u[1] == 'x' || u[1] == 'X') then ParseDigits(u[2..], 16)
    else ParseDigits(u, 10)
  }

  /** The value of the longest run of digits in `radix` at the start of
      `v`; NaN when the run is empty. */
  function ParseDigits(v: string, radix: nat): IntOrNaN {
    var n := DigitPrefixLength(v, radix);
    if n == 0 then NaN else Int(DigitsValue(v[..n], radix))
  }

  function DigitChar(d: nat): (c: char)
    requires d < 10
    ensures DigitValue(c) == d
  {
    "0123456789"[d]
  }

  /** The decimal numeral of a natural number, without leading zeros. */
  function NatToString(n: nat): (s: string)
    ensures |s| >= 1
    ensures forall i :: 0 <= i < |s| ==> '0' <= s[i] <= '9'
    decreases n
  {
    if n < 10 then [DigitChar(n)] else NatToString(n / 10) + [DigitChar(n % 10)]
  }

  /** How an integral Number is rendered as text (as in a template literal),
      with a leading '-' when it is negative. */
  function IntToString(n: int): (s: string)
    ensures |s| >= 1
  {
    if n < 0 then "-" + NatToString(-n) else NatToString(n)
  }

  lemma {:induction false} NatToStringValue(n: nat)
    ensures DigitsValue(NatToString(n), 10) == n
    decreases n
  {
    var s := NatToString(n);
    if n >= 10 {
      NatToStringValue(n / 10);
      assert s[..|s| - 1] == NatToString(n / 10);
    }
  }

  /** A decimal numeral followed by text that cannot continue it is read
      as the numeral's value. */
  lemma MagnitudeOfNumeral(m: nat, rest: string)
    requires rest == [] || (DigitValue(rest[0]) >= 10 && rest[0] != 'x' && rest[0] != 'X')
    ensures ParseMagnitude(NatToString(m) + rest) == Int(m)
  {
    var digits := NatToString(m);
    var u := digits + rest;
    assert !(|u| >= 2 && u[0] == '0' && (u[1] == 'x' || u[1] == 'X')) by {
      if |u| >= 2 {
        if |digits| >= 2 {
          assert u[1] == digits[1];
        } else {
          assert u[1] == rest[0];
        }
      }
    }
    assert forall i :: 0 <= i < |digits| ==> IsDigit(digits[i], 10);
    DigitRunPrefix(digits, rest, 10);
    assert u[..|digits|] == digits;
    NatToStringValue(m);
  }

  /** A numeral followed by text that cannot continue it (the end of the
      input, a '.', an exponent 'e', ...) parses back to the number: the
      digits after a decimal point are ignored. */
  lemma ParseIntOfNumeral(n: int, rest: string)
    requires rest == [] || (DigitValue(rest[0]) >= 10 && rest[0] != 'x' && rest[0] != 'X')
    ensures ParseInt(IntToString(n) + rest) == Int(n)
  {
    if n < 0 {
      ParseIntOfNegativeNumeral(n, rest);
    } else {
      ParseIntOfNaturalNumeral(n, rest);
    }
  }

  lemma ParseIntOfNaturalNumeral(n: int, rest: string)
    requires n >= 0
    requires rest == [] || (DigitValue(rest[0]) >= 10 && rest[0] != 'x' && rest[0] != 'X')
    ensures ParseInt(IntToString(n) + rest) == Int(n)
  {
    var s := NatToString(n) + rest;
    MagnitudeOfNumeral(n, rest);
    assert s[0] == NatToString(n)[0];
    ParseIntNoBlank(s);
  }

  lemma ParseIntOfNegativeNumeral(n: int, rest: string)
    requires n < 0
    requires rest == [] || (DigitValue(rest[0]) >= 10 && rest[0] != 'x' && rest[0] != 'X')
    ensures ParseInt(IntToString(n) + rest) == Int(n)
  {
    var m: nat := -n;
    NegativeText(n);
    MagnitudeOfNumeral(m, rest);
    MinusNumeral(IntToString(n), NatToString(m), rest, m);
  }

  lemma NegativeText(n: int)
    requires n < 0
    ensures IntToString(n) == ['-'] + NatToString(-n)
  {
  }

  lemma MinusNumeral(text: string, digits: string, rest: string, m: nat)
    requires text == ['-'] + digits
    requires ParseMagnitude(digits + rest) == Int(m)
    ensures ParseInt(text + rest) == Int(-(m as int))
  {
    var s := text + rest;
    assert s[0] == '-' && s[1..] == digits + rest;
    ParseIntNoBlank(s);
  }

  /** Without leading white space, `parseInt` reads the sign directly. */
  lemma ParseIntNoBlank(s: string)
    requires s != [] && (s[0] == '-' || '0' <= s[0] <= '9')
    ensures s[0] == '-' ==> ParseInt(s) == Negate(ParseMagnitude(s[1..]))
    ensures s[0] != '-' ==> ParseInt(s) == ParseMagnitude(s)
  {
    assert !IsWhiteSpace(s[0]);
    assert TrimStart(s) == s;
  }

  lemma {:induction false} DigitRunPrefix(s: string, rest: string, radix: nat)
    requires forall i :: 0 <= i < |s| ==> IsDigit(s[i], radix)
    requires rest == [] || !IsDigit(rest[0], radix)
    ensures DigitPrefixLength(s + rest, radix) == |s|
  {
    if s != [] {
      assert (s + rest)[1..] == s[1..] + rest;
      DigitRunPrefix(s[1..], rest, radix);
    }
  }

  /** Rendering an integer and parsing it back gives the integer. */
  lemma ParseIntRoundTrip(n: int)
    ensures ParseInt(IntToString(n)) == Int(n)
  {
    ParseIntOfNumeral(n, []);
    assert IntToString(n) + [] == IntToString(n);
  }

  /** An empty input (what a number field holds when it is blank or its
      text is not a number) parses to NaN. */
  lemma EmptyIsNaN()
    ensures ParseInt("") == NaN
  {
  }
}
