/** The JavaScript number operations of src/index.ts:71: `parseInt` with no
    radix, `+ 1`, and rendering the result inside a template string. */
module JsNumbers {
  import opened Strings

  /** A JavaScript number as the counter arithmetic can produce it: an integer or `NaN`. */
  datatype JsNumber = Num(value: int) | NaN

  /** The digit value `parseInt` gives a character (`0`-`9`, then `a`-`z` or `A`-`Z` as 10-35); 36 when it is no digit. */
  function DigitValue(c: char): nat {
    if '0' <= c <= '9' then c as int - '0' as int
    else if 'a' <= c <= 'z' then c as int - 'a' as int + 10
    else if 'A' <= c <= 'Z' then c as int - 'A' as int + 10
    else 36
  }

  /** Length of the longest prefix of `s` made of digits below `radix`. */
  function DigitRun(s: string, radix: nat): (n: nat)
    ensures n <= |s|
    ensures forall i :: 0 <= i < n ==> DigitValue(s[i]) < radix
    ensures n < |s| ==> DigitValue(s[n]) >= radix
  {
    if |s| == 0 || DigitValue(s[0]) >= radix then 0 else 1 + DigitRun(s[1..], radix)
  }

  /** The value of a run of digits below `radix`, most significant first. */
  function RunValue(s: string, radix: nat): nat {
    if |s| == 0 then 0 else radix * RunValue(s[..|s| - 1], radix) + DigitValue(s[|s| - 1])
  }

  /** The characters `parseInt` skips before the sign: the ECMAScript white space
      (tab, vertical tab, form feed, the byte order mark and every space separator)
      and the line terminators. */
  predicate IsJsWhiteSpace(c: char) {
    || c == '\t' || c == '\n' || c == '\U{000B}' || c == '\U{000C}' || c == '\r'
    || c == ' ' || c == '\U{00A0}' || c == '\U{1680}' || '\U{2000}' <= c <= '\U{200A}'
    || c == '\U{2028}' || c == '\U{2029}' || c == '\U{202F}' || c == '\U{205F}'
    || c == '\U{3000}' || c == '\U{FEFF}'
  }

  /** `s` without its leading run of white space. */
  function TrimStart(s: string): string {
    if |s| > 0 && IsJsWhiteSpace(s[0]) then TrimStart(s[1..]) else s
  }

  /** The trim removes a prefix made only of white space, and what is left does not start with white space. */
  lemma {:induction false} TrimStartIsSuffix(s: string)
    ensures |TrimStart(s)| <= |s| && TrimStart(s) == s[|s| - |TrimStart(s)|..]
    ensures forall i :: 0 <= i < |s| - |TrimStart(s)| ==> IsJsWhiteSpace(s[i])
    ensures |TrimStart(s)| > 0 ==> !IsJsWhiteSpace(TrimStart(s)[0])
  {
    if |s| > 0 && IsJsWhiteSpace(s[0]) {
      TrimStartIsSuffix(s[1..]);
      assert s[1..][|s| - 1 - |TrimStart(s)|..] == s[|s| - |TrimStart(s)|..];
      forall i | 0 <= i < |s| - |TrimStart(s)| ensures IsJsWhiteSpace(s[i]) {
        if i > 0 {
          assert s[i] == s[1..][i - 1];
        }
      }
    }
  }

  /** `parseInt(s)`: leading white space skipped, an optional sign, a `0x`/`0X` prefix
      that switches to base 16, then the longest run of digits; `NaN` when that run is empty. */
  function ParseInt(s: string): JsNumber {
    ParseSigned(TrimStart(s))
  }

  /** `parseInt` after the white space: an optional sign, then the number. */
  function ParseSigned(s: string): JsNumber {
    if |s| > 0 && s[0] == '-' then Negate(ParseUnsigned(s[1..]))
    else if |s| > 0 && s[0] == '+' then ParseUnsigned(s[1..])
    else ParseUnsigned(s)
  }

  /** `parseInt` after the sign: base 16 after a `0x`/`0X` prefix, base 10 otherwise. */
  function ParseUnsigned(u: string): JsNumber {
    if |u| >= 2 && u[0] == '0' && (u[1] == 'x' || u[1] == 'X') then ParseRun(u[2..], 16)
    else ParseRun(u, 10)
  }

  /** The value of the leading run of digits below `radix`, or `NaN` when it is empty. */
  function ParseRun(body: string, radix: nat): JsNumber {
    var n := DigitRun(body, radix);
    if n == 0 then NaN else Num(RunValue(body[..n], radix))
  }

  /** `-x`. */
  function Negate(x: JsNumber): JsNumber {
    match x
    case Num(v) => Num(-v)
    case NaN => NaN
  }

  /** `x + 1`. */
  function Increment(x: JsNumber): JsNumber {
    match x
    case Num(v) => Num(v + 1)
    case NaN => NaN
  }

  /** `${x}`. */
  function NumberToString(x: JsNumber): string {
    match x
    case NaN => "NaN"
    case Num(v) => if v < 0 then "-" + NatToString(-v) else NatToString(v)
  }

  /** In base 10, the run value of a digit string is its decimal value. */
  lemma {:induction false} DecimalRunValue(s: string)
    requires AllDigits(s)
    ensures forall i :: 0 <= i < |s| ==> DigitValue(s[i]) < 10
    ensures RunValue(s, 10) == DigitsValue(s)
  {
    if |s| > 0 {
      DecimalRunValue(s[..|s| - 1]);
    }
  }

  /** `parseInt` of a string that starts with a decimal digit and no `0x` prefix:
      the value of its leading run of decimal digits. */
  lemma ParseIntDecimal(s: string)
    requires |s| > 0 && IsDigit(s[0])
    requires !(|s| >= 2 && s[0] == '0' && (s[1] == 'x' || s[1] == 'X'))
    ensures ParseInt(s) == ParseRun(s, 10)
  {
    assert !IsJsWhiteSpace(s[0]);
    assert TrimStart(s) == s;
    assert ParseSigned(s) == ParseUnsigned(s);
  }

  /** Leading white space does not change what `parseInt` reads. */
  lemma {:induction false} ParseIntSkipsWhiteSpace(w: string, s: string)
    requires forall i :: 0 <= i < |w| ==> IsJsWhiteSpace(w[i])
    ensures ParseInt(w + s) == ParseInt(s)
  {
    if |w| > 0 {
      assert (w + s)[0] == w[0];
      assert (w + s)[1..] == w[1..] + s;
      ParseIntSkipsWhiteSpace(w[1..], s);
    } else {
      assert w + s == s;
    }
  }

  /** White space then a digit string reads as the digits' decimal value. */
  lemma ParseIntWhiteSpaceDigits(w: string, d: string)
    requires forall i :: 0 <= i < |w| ==> IsJsWhiteSpace(w[i])
    requires IsDigits(d)
    ensures ParseInt(w + d) == Num(DigitsValue(d))
  {
    ParseIntSkipsWhiteSpace(w, d);
    ParseIntDigits(d);
  }

  /** `parseInt` reads a leading run of decimal digits and ignores whatever follows a non-digit. */
  lemma ParseIntDigitsThen(d: string, rest: string)
    requires IsDigits(d)
    requires |rest| > 0 ==> !IsDigit(rest[0])
    requires !(d == "0" && |rest| > 0 && (rest[0] == 'x' || rest[0] == 'X'))
    ensures ParseInt(d + rest) == Num(DigitsValue(d))
  {
    var s := d + rest;
    DigitRunOfDigits(d, rest);
    assert s[..|d|] == d;
    DecimalRunValue(d);
    assert s[0] == d[0];
    if |d| >= 2 {
      assert s[1] == d[1];
    } else if |rest| > 0 {
      assert s[1] == rest[0];
    }
    ParseIntDecimal(s);
    assert DigitRun(s, 10) == |d|;
  }

  lemma {:induction false} DigitRunOfDigits(d: string, rest: string)
    requires AllDigits(d)
    requires |rest| > 0 ==> !IsDigit(rest[0])
    ensures DigitRun(d + rest, 10) == |d|
  {
    if |d| > 0 {
      assert (d + rest)[0] == d[0] && DigitValue(d[0]) < 10;
      assert (d + rest)[1..] == d[1..] + rest;
      DigitRunOfDigits(d[1..], rest);
    } else {
      assert d + rest == rest;
      if |rest| > 0 {
        assert DigitValue(rest[0]) >= 10;
      }
    }
  }

  /** `parseInt` of a digit string is its decimal value. */
  lemma ParseIntDigits(d: string)
    requires IsDigits(d)
    ensures ParseInt(d) == Num(DigitsValue(d))
  {
    ParseIntDigitsThen(d, "");
    assert d + "" == d;
  }

  /** Round trip: `parseInt` reads back the rendering of a non-negative integer. */
  lemma ParseIntRoundTrip(n: nat)
    ensures ParseInt(NumberToString(Num(n))) == Num(n)
  {
    NatToStringRoundTrip(n);
    ParseIntDigits(NatToString(n));
  }

  /** A minus sign then a digit string reads as the negated decimal value. */
  lemma ParseIntNegative(d: string)
    requires IsDigits(d)
    ensures ParseInt("-" + d) == Num(-(DigitsValue(d) as int))
  {
    var s := "-" + d;
    assert s[0] == '-' && !IsJsWhiteSpace(s[0]);
    assert TrimStart(s) == s;
    assert s[1..] == d;
    ParseIntDigits(d);
    assert IsDigit(d[0]) && !IsJsWhiteSpace(d[0]);
    assert TrimStart(d) == d;
    assert ParseUnsigned(d) == Num(DigitsValue(d));
  }

  /** Round trip over every number the counter can hold: `parseInt` reads back the
      rendering of an integer, negative ones included, and of `NaN`. */
  lemma ParseIntReadsRendering(x: JsNumber)
    ensures ParseInt(NumberToString(x)) == x
  {
    match x
    case NaN =>
      ParseIntNaN("NaN");
    case Num(v) =>
      if v < 0 {
        NatToStringRoundTrip(-v);
        ParseIntNegative(NatToString(-v));
      } else {
        ParseIntRoundTrip(v);
      }
  }

  /** A string that starts with neither white space, a sign nor a decimal digit reads as `NaN`. */
  lemma ParseIntNaN(s: string)
    requires |s| > 0 && !IsJsWhiteSpace(s[0]) && !IsDigit(s[0]) && s[0] != '-' && s[0] != '+'
    ensures ParseInt(s) == NaN
  {
  }
}
