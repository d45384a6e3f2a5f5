/** The part of JavaScript's number semantics the scoring code relies on:
    unary `+` on a string, subtraction, strict equality and `Math.sign`.
    Only integer values and NaN are represented. */
module Numbers {

  /** A JavaScript number as the scoring code can meet it: an integer, or NaN. */
  datatype Number = Int(value: int) | NaN

  /** The characters `Number(string)` strips from both ends: the ECMAScript
      WhiteSpace and LineTerminator code points. */
  predicate IsJsSpace(c: char)
  {
    c == '\t' || c == '\n' || c == '\U{000B}' || c == '\U{000C}' || c == '\r' || c == ' '
    || c == '\U{00A0}' || c == '\U{1680}' || ('\U{2000}' <= c <= '\U{200A}')
    || c == '\U{2028}' || c == '\U{2029}' || c == '\U{202F}' || c == '\U{205F}'
    || c == '\U{3000}' || c == '\U{FEFF}'
  }

  /** `s` without its leading white space. */
  function TrimStart(s: string): string
  {
    if s != [] && IsJsSpace(s[0]) then TrimStart(s[1..]) else s
  }

  /** `s` without its trailing white space. */
  function TrimEnd(s: string): string
  {
    if s != [] && IsJsSpace(s[|s| - 1]) then TrimEnd(s[..|s| - 1]) else s
  }

  /** Surrounding white space removed, as `String.prototype.trim` does. */
  function Trim(s: string): string
  {
    TrimEnd(TrimStart(s))
  }

  predicate IsDigit(c: char)
  {
    '0' <= c <= '9'
  }

  /** A non-empty run of decimal digits. */
  predicate IsDigits(s: string)
  {
    |s| > 0 && forall k :: 0 <= k < |s| ==> IsDigit(s[k])
  }

  function DigitValue(c: char): (d: nat)
    requires IsDigit(c)
    ensures d < 10
  {
    (c as int) - ('0' as int)
  }

  /** The value of a run of decimal digits, most significant first. */
  function DigitsValue(s: string): nat
    requires IsDigits(s)
  {
    if |s| == 1 then DigitValue(s[0])
    else DigitsValue(s[..|s| - 1]) * 10 + DigitValue(s[|s| - 1])
  }

  /** `t` without one leading sign character, if it has one. */
  function Unsigned(t: string): string
  {
    if t != [] && (t[0] == '-' || t[0] == '+') then t[1..] else t
  }

  /** `Number(s)`, the conversion behind `+parts[0]`: white space is trimmed,
      the empty string is 0, an optionally signed run of decimal digits is
      its integer value, and anything else is NaN. */
  function ToNumber(s: string): (n: Number)
    ensures Trim(s) == [] ==> n == Int(0)
    ensures n.NaN? <==> Trim(s) != [] && !IsDigits(Unsigned(Trim(s)))
    ensures n.Int? && n.value < 0 ==> Trim(s)[0] == '-'
  {
    var t := Trim(s);
    if t == [] then Int(0)
    else
      var digits := Unsigned(t);
      if !IsDigits(digits) then NaN
      else if t[0] == '-' then Int(0 - DigitsValue(digits))
      else Int(DigitsValue(digits))
  }

  /** A single decimal digit reads as its value. */
  lemma ToNumberOfDigit(c: char)
    requires IsDigit(c)
    ensures ToNumber([c]) == Int(DigitValue(c))
  {
    assert Trim([c]) == [c];
  }

  /** A single character that is neither white space, a sign nor a digit
      reads as NaN. */
  lemma ToNumberOfOther(c: char)
    requires !IsDigit(c) && !IsJsSpace(c) && c != '-' && c != '+'
    ensures ToNumber([c]) == NaN
  {
    assert Trim([c]) == [c];
  }

  /** A space on either side of a text that does not start or end with white
      space does not change the number it reads as. */
  lemma ToNumberIgnoresPadding(s: string)
    requires s != [] && !IsJsSpace(s[0]) && !IsJsSpace(s[|s| - 1])
    ensures ToNumber(" " + s + " ") == ToNumber(s)
  {
    var padded := " " + s + " ";
    assert TrimStart(padded) == s + " " by {
      assert padded[1..] == s + " ";
      assert (s + " ")[0] == s[0];
    }
    assert TrimEnd(s + " ") == s by {
      assert (s + " ")[..|s|] == s;
    }
    TrimNoSpace(s);
  }

  /** A trailing carriage return after a text that does not start or end with
      white space does not change the number it reads as. */
  lemma ToNumberIgnoresCarriageReturn(s: string)
    requires s != [] && !IsJsSpace(s[0]) && !IsJsSpace(s[|s| - 1])
    ensures ToNumber(s + "\r") == ToNumber(s)
  {
    assert TrimStart(s + "\r") == s + "\r" by {
      assert (s + "\r")[0] == s[0];
    }
    assert TrimEnd(s + "\r") == s by {
      assert (s + "\r")[..|s|] == s;
    }
    TrimNoSpace(s);
  }

  /** `undefined` converted to a number, as `+parts[1]` yields when the token
      has no second half. */
  const Undefined: Number := NaN

  function DigitChar(d: nat): (c: char)
    requires d < 10
    ensures IsDigit(c) && DigitValue(c) == d
  {
    (('0' as int) + d) as char
  }

  /** The decimal text of the natural number `n`, most significant digit first. */
  function NatToString(n: nat): (s: string)
    ensures IsDigits(s)
    ensures s[0] != '0' || n == 0
    ensures DigitsValue(s) == n
  {
    if n < 10 then [DigitChar(n)]
    else
      var s := NatToString(n / 10) + [DigitChar(n % 10)];
      assert s[..|s| - 1] == NatToString(n / 10);
      s
  }

  /** The decimal text of an integer, with a leading `-` when negative. */
  function IntToString(i: int): (s: string)
    ensures |s| > 0 && !IsJsSpace(s[0]) && !IsJsSpace(s[|s| - 1])
    ensures forall k :: 0 <= k < |s| ==> IsDigit(s[k]) || s[k] == '-'
  {
    if i < 0 then "-" + NatToString(-i) else NatToString(i)
  }

  lemma TrimNoSpace(s: string)
    requires s != [] && !IsJsSpace(s[0]) && !IsJsSpace(s[|s| - 1])
    ensures Trim(s) == s
  {
  }

  /** Reading back the decimal text of an integer yields that integer. */
  lemma NumberOfIntToString(i: int)
    ensures ToNumber(IntToString(i)) == Int(i)
  {
    var s := IntToString(i);
    TrimNoSpace(s);
    if i < 0 {
      assert s[1..] == NatToString(-i);
    }
  }

  /** `a - b`: NaN if either operand is NaN. */
  function Minus(a: Number, b: Number): (r: Number)
    ensures r.Int? <==> a.Int? && b.Int?
    ensures r.Int? ==> r.value + b.value == a.value
  {
    if a.Int? && b.Int? then Int(a.value - b.value) else NaN
  }

  /** `a === b`: NaN is equal to nothing, itself included. */
  predicate StrictEquals(a: Number, b: Number): (r: bool)
    ensures r <==> a == b && a != NaN
  {
    a.Int? && b.Int? && a.value == b.value
  }

  /** `Math.sign(a)`: -1, 0 or 1, and NaN for NaN. */
  function Sign(a: Number): (r: Number)
    ensures r.Int? <==> a.Int?
    ensures r.Int? ==> -1 <= r.value <= 1
    ensures r.Int? ==> (r.value > 0 <==> a.value > 0) && (r.value < 0 <==> a.value < 0)
  {
    match a
    case NaN => NaN
    case Int(v) => Int(if v > 0 then 1 else if v < 0 then -1 else 0)
  }
}
