/** The two JavaScript string built-ins the forms rely on, `String.prototype.trim`
    and the global `parseInt` with its radix argument omitted, as defined by
    ECMA-262. Strings are sequences of Unicode scalar values here, where
    JavaScript uses UTF-16 code units; none of the characters these functions
    inspect lies outside the Basic Multilingual Plane, so the two agree. */
module JsText {
  import opened Wrappers

  /** The WhiteSpace and LineTerminator code points of ECMA-262, which both
      `trim` and `parseInt` skip: tab, line feed, vertical tab, form feed,
      carriage return, the byte order mark, and the space separators. */
  predicate IsWhitespace(c: char) {
    || c == '\t' || c == '\n' || c == '\U{000B}' || c == '\U{000C}' || c == '\r'
    || c == ' ' || c == '\U{00A0}' || c == '\U{1680}'
    || ('\U{2000}' <= c <= '\U{200A}')
    || c == '\U{2028}' || c == '\U{2029}' || c == '\U{202F}' || c == '\U{205F}'
    || c == '\U{3000}' || c == '\U{FEFF}'
  }

  predicate AllWhitespace(s: string) {
    forall i :: 0 <= i < |s| ==> IsWhitespace(s[i])
  }

  /** Length of the whitespace run that starts `s`. */
  function LeadingWhitespace(s: string): (n: nat)
    ensures n <= |s|
    ensures AllWhitespace(s[..n])
    ensures n < |s| ==> !IsWhitespace(s[n])
    decreases |s|
  {
    if |s| == 0 || !IsWhitespace(s[0]) then 0
    else 1 + LeadingWhitespace(s[1..])
  }

  /** Length of the whitespace run that ends `s`. */
  function TrailingWhitespace(s: string): (n: nat)
    ensures n <= |s|
    ensures AllWhitespace(s[|s| - n..])
    ensures n < |s| ==> !IsWhitespace(s[|s| - n - 1])
    decreases |s|
  {
    if |s| == 0 || !IsWhitespace(s[|s| - 1]) then 0
    else 1 + TrailingWhitespace(s[..|s| - 1])
  }

  /** `s.trim()`: `s` without its leading and trailing whitespace. The result is
      a contiguous piece of `s` that neither starts nor ends with whitespace,
      everything cut away is whitespace, and it is empty exactly when `s` is
      all whitespace. */
  function Trim(s: string): (r: string)
    ensures exists i :: 0 <= i <= |s| - |r| && r == s[i..i + |r|]
                        && AllWhitespace(s[..i]) && AllWhitespace(s[i + |r|..])
    ensures |r| > 0 ==> !IsWhitespace(r[0]) && !IsWhitespace(r[|r| - 1])
    ensures |r| == 0 <==> AllWhitespace(s)
  {
    var i := LeadingWhitespace(s);
    var t := s[i..];
    var n := TrailingWhitespace(t);
    var r := t[..|t| - n];
    assert r == s[i..i + |r|];
    assert s[i + |r|..] == t[|t| - n..];
    assert |r| == 0 ==> AllWhitespace(s) by {
      if |r| == 0 {
        assert s == s[..i] + t[|t| - n..];
        WhitespaceConcat(s[..i], t[|t| - n..]);
      }
    }
    r
  }

  lemma WhitespaceConcat(a: string, b: string)
    requires AllWhitespace(a) && AllWhitespace(b)
    ensures AllWhitespace(a + b)
  {
    forall i | 0 <= i < |a + b|
      ensures IsWhitespace((a + b)[i])
    {
      if i < |a| {
        assert (a + b)[i] == a[i];
      } else {
        assert (a + b)[i] == b[i - |a|];
      }
    }
  }

  /** The digit value ECMA-262 gives a character in `parseInt`: 0-9 for the
      decimal digits, 10-35 for the Latin letters in either case, and 36 (a
      digit in no radix) for anything else. */
  function DigitValue(c: char): (d: nat)
    ensures d <= 36
    ensures d < 10 <==> IsDecimalDigit(c)
  {
    if '0' <= c <= '9' then c as int - '0' as int
    else if 'a' <= c <= 'z' then c as int - 'a' as int + 10
    else if 'A' <= c <= 'Z' then c as int - 'A' as int + 10
    else 36
  }

  predicate IsDecimalDigit(c: char) {
    '0' <= c <= '9'
  }

  /** With its radix argument omitted, `parseInt` reads decimal, or hexadecimal
      after a `0x` prefix; no other radix arises. */
  datatype Radix = Decimal | Hexadecimal {
    function Base(): nat {
      match this
      case Decimal => 10
      case Hexadecimal => 16
    }
  }

  predicate IsRadixDigit(c: char, radix: Radix) {
    DigitValue(c) < radix.Base()
  }

  /** Length of the longest prefix of `s` made of `radix` digits. */
  function DigitRun(s: string, radix: Radix): (n: nat)
    ensures n <= |s|
    ensures n < |s| ==> !IsRadixDigit(s[n], radix)
    decreases |s|
  {
    if |s| == 0 || !IsRadixDigit(s[0], radix) then 0
    else 1 + DigitRun(s[1..], radix)
  }

  /** `s` consists of `radix` digits only. */
  predicate AllRadixDigits(s: string, radix: Radix) {
    DigitRun(s, radix) == |s|
  }

  /** Every character of a digit string is a digit. */
  lemma {:induction false} DigitAt(s: string, radix: Radix, i: nat)
    requires AllRadixDigits(s, radix) && i < |s|
    ensures IsRadixDigit(s[i], radix)
    decreases i
  {
    if i > 0 {
      DigitAt(s[1..], radix, i - 1);
    }
  }

  /** The value of a digit string read most significant digit first. Each
      radix multiplies by its own literal base rather than `radix.Base()`, so
      the solver sees linear arithmetic only. */
  function ValueOf(digits: string, radix: Radix): nat
    decreases |digits|
  {
    if |digits| == 0 then 0
    else
      var high := ValueOf(digits[..|digits| - 1], radix);
      var low := DigitValue(digits[|digits| - 1]);
      match radix
      case Decimal => high * 10 + low
      case Hexadecimal => high * 16 + low
  }

  /** `parseInt(s)` with the radix omitted; `None` stands for `NaN`. Leading
      whitespace is skipped, then one optional sign is read, then the digits.
      A number comes out only when a decimal digit follows the whitespace and
      at most one sign, and it is negative only after a `-`. */
  function ParseInt(s: string): (r: Option<int>)
    ensures r.Some? ==>
              var t := s[LeadingWhitespace(s)..];
              |t| > 0 &&
              (IsDecimalDigit(t[0])
               || ((t[0] == '+' || t[0] == '-') && |t| > 1 && IsDecimalDigit(t[1])))
    ensures r.Some? && r.value < 0 ==> var t := s[LeadingWhitespace(s)..]; |t| > 0 && t[0] == '-'
  {
    ParseSigned(s[LeadingWhitespace(s)..])
  }

  /** An optional `+` or `-` in front of a magnitude. */
  function ParseSigned(t: string): Option<int> {
    var negative := |t| > 0 && t[0] == '-';
    var u := if |t| > 0 && (t[0] == '+' || t[0] == '-') then t[1..] else t;
    ApplySign(negative, ParseMagnitude(u))
  }

  function ApplySign(negative: bool, magnitude: Option<nat>): Option<int> {
    match magnitude
    case None => None
    case Some(m) => Some(if negative then 0 - m else m)
  }

  /** A `0x` or `0X` prefix switches to hexadecimal, otherwise decimal. */
  function ParseMagnitude(u: string): Option<nat> {
    if |u| >= 2 && u[0] == '0' && (u[1] == 'x' || u[1] == 'X') then ParseDigits(u[2..], Hexadecimal)
    else ParseDigits(u, Decimal)
  }

  /** The maximal run of `radix` digits at the start of `body`, converted; an
      empty run is `NaN`. */
  function ParseDigits(body: string, radix: Radix): Option<nat> {
    var n := DigitRun(body, radix);
    if n == 0 then None else Some(ValueOf(body[..n], radix))
  }

  /** The signs `parseInt` accepts in front of the digits. */
  predicate IsSign(sign: string) {
    |sign| == 0 || (|sign| == 1 && (sign[0] == '+' || sign[0] == '-'))
  }

  predicate IsMinus(sign: string) {
    |sign| == 1 && sign[0] == '-'
  }

  /** Decimal reading: whitespace, an optional sign, a run of decimal digits and
      anything that does not continue the run give the signed value of the
      digits, provided the digits are not a lone `0` followed by `x` or `X`
      (which would switch to hexadecimal). */
  lemma ParseIntDecimal(ws: string, sign: string, digits: string, rest: string) returns (m: nat)
    requires AllWhitespace(ws) && IsSign(sign)
    requires |digits| > 0 && AllRadixDigits(digits, Decimal)
    requires |rest| > 0 ==> !IsDecimalDigit(rest[0])
    requires |rest| > 0 && |digits| == 1 && digits[0] == '0' ==> rest[0] != 'x' && rest[0] != 'X'
    ensures m == ValueOf(digits, Decimal)
    ensures ParseInt(ws + sign + (digits + rest)) == Some(if IsMinus(sign) then 0 - m else m)
  {
    m := ValueOf(digits, Decimal);
    MagnitudeDecimal(digits, rest);
    DigitAt(digits, Decimal, 0);
    assert (digits + rest)[0] == digits[0];
    ParseIntSigned(ws, sign, digits + rest, m);
  }

  /** Whitespace and a sign in front of a readable magnitude. */
  lemma ParseIntSigned(ws: string, sign: string, u: string, m: nat)
    requires AllWhitespace(ws) && IsSign(sign)
    requires |u| > 0 && IsDecimalDigit(u[0])
    requires ParseMagnitude(u) == Some(m)
    ensures ParseInt(ws + sign + u) == Some(if IsMinus(sign) then 0 - m else m)
  {
    SkipWhitespaceBeforeSign(ws, sign, u);
    SignedMagnitude(sign, u);
  }

  /** `parseInt` skips exactly the whitespace in front of a sign or digit. */
  lemma SkipWhitespaceBeforeSign(ws: string, sign: string, u: string)
    requires AllWhitespace(ws) && IsSign(sign)
    requires |u| > 0 && IsDecimalDigit(u[0])
    ensures ParseInt(ws + sign + u) == ParseSigned(sign + u)
  {
    var t := sign + u;
    var s := ws + sign + u;
    assert s == ws + t;
    NotWhitespace(t[0]);
    SkipsExactlyWhitespace(ws, t);
    assert s[|ws|..] == t;
  }

  /** Signs and decimal digits are not whitespace. */
  lemma NotWhitespace(c: char)
    requires IsDecimalDigit(c) || c == '+' || c == '-'
    ensures !IsWhitespace(c)
  {
  }

  /** The sign in front of a magnitude applies to it. */
  lemma SignedMagnitude(sign: string, u: string)
    requires IsSign(sign)
    requires |u| > 0 && IsDecimalDigit(u[0])
    ensures ParseSigned(sign + u) == ApplySign(IsMinus(sign), ParseMagnitude(u))
  {
    var t := sign + u;
    if |sign| == 1 {
      assert t[0] == sign[0];
      assert t[1..] == u;
    } else {
      assert t == u;
    }
  }

  /** The magnitude of a decimal digit run followed by something that does not
      continue it. */
  lemma MagnitudeDecimal(digits: string, rest: string)
    requires |digits| > 0 && AllRadixDigits(digits, Decimal)
    requires |rest| > 0 ==> !IsDecimalDigit(rest[0])
    requires |rest| > 0 && |digits| == 1 && digits[0] == '0' ==> rest[0] != 'x' && rest[0] != 'X'
    ensures ParseMagnitude(digits + rest) == Some(ValueOf(digits, Decimal))
  {
    var u := digits + rest;
    assert !(|u| >= 2 && u[0] == '0' && (u[1] == 'x' || u[1] == 'X')) by {
      if |u| >= 2 && u[0] == '0' {
        if |digits| >= 2 {
          assert u[1] == digits[1];
          DigitAt(digits, Decimal, 1);
        } else {
          assert u[1] == rest[0];
        }
      }
    }
    assert ParseMagnitude(u) == ParseDigits(u, Decimal);
    DigitRunAppend(digits, rest, Decimal);
    assert u[..|digits|] == digits;
  }

  /** No decimal digit after the whitespace and one optional sign means
      `NaN`. Once a sign is present, whatever follows it (more whitespace, a
      second sign) is not skipped; without a sign, `rest` must not start with
      what the whitespace or the sign would have taken. */
  lemma ParseIntNaN(ws: string, sign: string, rest: string)
    requires AllWhitespace(ws) && IsSign(sign)
    requires |rest| > 0 ==> !IsDecimalDigit(rest[0])
    requires |rest| > 0 && |sign| == 0 ==>
               !IsWhitespace(rest[0]) && rest[0] != '+' && rest[0] != '-'
    ensures ParseInt(ws + sign + rest) == None
  {
    var t := sign + rest;
    var s := ws + sign + rest;
    assert s == ws + t;
    if |sign| == 1 {
      assert t[0] == sign[0];
      NotWhitespace(t[0]);
      assert t[1..] == rest;
    } else {
      assert t == rest;
    }
    SkipsExactlyWhitespace(ws, t);
    assert s[|ws|..] == t;
  }

  /** Hexadecimal reading: whitespace, an optional sign, `0x` or `0X`, a run
      of hexadecimal digits and anything that does not continue the run give
      the signed value of the digits; with no digit after the prefix the
      result is `NaN` (the `0` is not read on its own). */
  lemma ParseIntHexadecimal(ws: string, sign: string, x: char, digits: string, rest: string)
    returns (m: nat)
    requires AllWhitespace(ws) && IsSign(sign)
    requires x == 'x' || x == 'X'
    requires AllRadixDigits(digits, Hexadecimal)
    requires |rest| > 0 ==> !IsRadixDigit(rest[0], Hexadecimal)
    ensures m == ValueOf(digits, Hexadecimal)
    ensures ParseInt(ws + sign + (['0', x] + (digits + rest)))
            == if |digits| == 0 then None else Some(if IsMinus(sign) then 0 - m else m)
  {
    m := ValueOf(digits, Hexadecimal);
    var u := ['0', x] + (digits + rest);
    HexPrefix(x, digits + rest);
    var magnitude := HexDigits(digits, rest);
    ParseIntApplySign(ws, sign, u, magnitude);
  }

  /** Whitespace and a sign in front of a magnitude that starts with a digit,
      whatever the magnitude reads as. */
  lemma ParseIntApplySign(ws: string, sign: string, u: string, magnitude: Option<nat>)
    requires AllWhitespace(ws) && IsSign(sign)
    requires |u| > 0 && IsDecimalDigit(u[0])
    requires ParseMagnitude(u) == magnitude
    ensures ParseInt(ws + sign + u) == ApplySign(IsMinus(sign), magnitude)
  {
    SkipWhitespaceBeforeSign(ws, sign, u);
    SignedMagnitude(sign, u);
  }

  /** A `0x` or `0X` prefix hands the rest of the input to the hexadecimal
      digit reader. */
  lemma HexPrefix(x: char, body: string)
    requires x == 'x' || x == 'X'
    ensures (['0', x] + body)[0] == '0'
    ensures ParseMagnitude(['0', x] + body) == ParseDigits(body, Hexadecimal)
  {
    var u := ['0', x] + body;
    assert u[1] == x;
    assert u[2..] == body;
  }

  /** The hexadecimal digit run followed by something that does not continue
      it: `NaN` when the run is empty, otherwise the run's value. */
  lemma HexDigits(digits: string, rest: string) returns (magnitude: Option<nat>)
    requires AllRadixDigits(digits, Hexadecimal)
    requires |rest| > 0 ==> !IsRadixDigit(rest[0], Hexadecimal)
    ensures magnitude == ParseDigits(digits + rest, Hexadecimal)
    ensures |digits| == 0 <==> magnitude.None?
    ensures magnitude.Some? ==> magnitude.value == ValueOf(digits, Hexadecimal)
  {
    DigitRunAppend(digits, rest, Hexadecimal);
    assert (digits + rest)[..|digits|] == digits;
    magnitude := ParseDigits(digits + rest, Hexadecimal);
  }

  /** Skipping the whitespace in front of a string that does not itself start
      with whitespace lands exactly after `ws`. */
  lemma {:induction false} SkipsExactlyWhitespace(ws: string, t: string)
    requires AllWhitespace(ws)
    requires |t| > 0 ==> !IsWhitespace(t[0])
    ensures LeadingWhitespace(ws + t) == |ws|
    decreases |ws|
  {
    if |ws| == 0 {
      assert ws + t == t;
    } else {
      assert (ws + t)[1..] == ws[1..] + t;
      SkipsExactlyWhitespace(ws[1..], t);
    }
  }

  /** The digit run of a concatenation whose first part is all digits runs
      on into the second part. */
  lemma {:induction false} DigitRunAppend(digits: string, rest: string, radix: Radix)
    requires AllRadixDigits(digits, radix)
    ensures DigitRun(digits + rest, radix) == |digits| + DigitRun(rest, radix)
    decreases |digits|
  {
    if |digits| == 0 {
      assert digits + rest == rest;
    } else {
      assert (digits + rest)[0] == digits[0];
      assert (digits + rest)[1..] == digits[1..] + rest;
      DigitRunAppend(digits[1..], rest, radix);
    }
  }

  /** Decimal rendering of a natural number, most significant digit first, as
      `String(n)` writes it: no leading zero except for zero itself. */
  function DecimalString(n: nat): (s: string)
    ensures |s| > 0
    ensures AllRadixDigits(s, Decimal)
    ensures |s| > 1 ==> s[0] != '0'
    decreases n
  {
    if n < 10 then
      var s := [('0' as int + n) as char];
      assert DigitRun(s[1..], Decimal) == 0;
      s
    else
      var high := DecimalString(n / 10);
      var low := [('0' as int + n % 10) as char];
      assert DigitRun(low[1..], Decimal) == 0;
      DigitRunAppend(high, low, Decimal);
      high + low
  }

  /** Reading back a decimal rendering gives the number. */
  lemma {:induction false} ValueOfDecimalString(n: nat)
    ensures ValueOf(DecimalString(n), Decimal) == n
    decreases n
  {
    if n >= 10 {
      var s := DecimalString(n);
      ValueOfDecimalString(n / 10);
      DigitRunAppend(DecimalString(n / 10), [s[|s| - 1]], Decimal);
      assert s[..|s| - 1] == DecimalString(n / 10);
    }
  }

  /** `parseInt(String(n))` is `n` for every integer `n`. */
  lemma ParseIntRoundTrip(n: int)
    ensures ParseInt(if n < 0 then "-" + DecimalString(-n) else DecimalString(n)) == Some(n)
  {
    var m: nat := if n < 0 then -n else n;
    var digits := DecimalString(m);
    ValueOfDecimalString(m);
    var sign := if n < 0 then "-" else "";
    var v := ParseIntDecimal("", sign, digits, "");
    assert "" + sign + (digits + "")
           == (if n < 0 then "-" + DecimalString(-n) else DecimalString(n));
  }
}
