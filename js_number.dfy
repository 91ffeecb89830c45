/** The two conversions between strings and numbers that the census code
    relies on: `parseInt(s, 10)` and the conversion of an integral number to a
    property key (`String(n)`). */
module JsNumber {

  /** A number produced by `parseInt`: either NaN or an integer. */
  datatype Num = NaN | Int(value: int)

  predicate IsDigit(c: char) {
    '0' <= c <= '9'
  }

  /** Value of a decimal digit character (0 for any other character). */
  function DigitValue(c: char): (d: nat)
    ensures d < 10
    ensures IsDigit(c) ==> d == (c as int) - ('0' as int)
  {
    if IsDigit(c) then (c as int) - ('0' as int) else 0
  }

  function DigitChar(d: nat): (c: char)
    requires d < 10
    ensures IsDigit(c) && DigitValue(c) == d
  {
    (('0' as int) + d) as char
  }

  predicate AllDigits(s: string) {
    forall i :: 0 <= i < |s| ==> IsDigit(s[i])
  }

  /** Value of a string of decimal digits, most significant digit first. */
  function DigitsValue(s: string): nat
  {
    if s == [] then 0 else DigitsValue(s[..|s| - 1]) * 10 + DigitValue(s[|s| - 1])
  }

  /** The white space and line terminators that `parseInt` skips before the
      number (StrWhiteSpaceChar of ECMAScript). */
  predicate IsStrWhiteSpace(c: char) {
    c == '\t' || c == '\n' || c == '\U{000B}' || c == '\U{000C}' || c == '\r'
    || c == ' ' || c == '\U{00A0}' || c == '\U{1680}' || ('\U{2000}' <= c <= '\U{200A}')
    || c == '\U{2028}' || c == '\U{2029}' || c == '\U{202F}' || c == '\U{205F}'
    || c == '\U{3000}' || c == '\U{FEFF}'
  }

  /** `s` without its leading white space. */
  function TrimStart(s: string): (r: string)
    ensures |r| <= |s|
  {
    if s != [] && IsStrWhiteSpace(s[0]) then TrimStart(s[1..]) else s
  }

  /** `TrimStart` drops exactly the leading white space: what it drops is
      white space, and what it keeps is a suffix not starting with any. */
  lemma {:induction false} TrimStartSkipsWhiteSpace(s: string)
    ensures var r := TrimStart(s);
      r == s[|s| - |r|..]
      && (forall i :: 0 <= i < |s| - |r| ==> IsStrWhiteSpace(s[i]))
      && (r == [] || !IsStrWhiteSpace(r[0]))
  {
    if s != [] && IsStrWhiteSpace(s[0]) {
      TrimStartSkipsWhiteSpace(s[1..]);
    }
  }

  /** Length of the longest prefix of `s` made of decimal digits. */
  function DigitRun(s: string): (n: nat)
    ensures n <= |s|
  {
    if s != [] && IsDigit(s[0]) then 1 + DigitRun(s[1..]) else 0
  }

  /** `DigitRun` measures the longest run of digits: the prefix it counts is
      all digits and the character after it, if any, is not one. */
  lemma {:induction false} DigitRunIsLongest(s: string)
    ensures var n := DigitRun(s);
      AllDigits(s[..n]) && (n == |s| || !IsDigit(s[n]))
  {
    if s != [] && IsDigit(s[0]) {
      DigitRunIsLongest(s[1..]);
      var m := DigitRun(s[1..]);
      assert s[..m + 1] == [s[0]] + s[1..][..m];
    }
  }

  lemma {:induction false} DigitRunOfDigits(s: string)
    requires AllDigits(s)
    ensures DigitRun(s) == |s|
  {
    if s != [] {
      DigitRunOfDigits(s[1..]);
    }
  }

  /** `parseInt(s, 10)`: skip leading white space, take one optional sign,
      then the longest run of decimal digits; NaN when that run is empty.
      A blank string is NaN and a plain string of digits reads as its
      decimal value. */
  function ParseInt(s: string): (r: Num)
    ensures TrimStart(s) == [] ==> r == NaN
    ensures |s| > 0 && AllDigits(s) ==> r == Int(DigitsValue(s))
  {
    DigitsAreTrimmed(s);
    var t := TrimStart(s);
    var negative := |t| > 0 && t[0] == '-';
    var u := if |t| > 0 && (t[0] == '-' || t[0] == '+') then t[1..] else t;
    var n := DigitRun(u);
    if n == 0 then NaN
    else if negative then Int(-(DigitsValue(u[..n]) as int))
    else Int(DigitsValue(u[..n]))
  }

  /** Decimal digits of `n`, as `Number.prototype.toString` writes a
      non-negative integer (`NatToDigitsCanonical` states what they are). */
  function NatToDigits(n: nat): (s: string)
    ensures |s| > 0
  {
    if n < 10 then [DigitChar(n)] else NatToDigits(n / 10) + [DigitChar(n % 10)]
  }

  /** The digits written for `n` are canonical and read back as `n`. */
  lemma {:induction false} NatToDigitsCanonical(n: nat)
    ensures IsCanonicalDigits(NatToDigits(n))
    ensures DigitsValue(NatToDigits(n)) == n
  {
    if n >= 10 {
      NatToDigitsCanonical(n / 10);
      var p := NatToDigits(n / 10);
      var s := p + [DigitChar(n % 10)];
      assert s[..|s| - 1] == p;
      assert s[0] == p[0];
    }
  }

  /** The property key a number becomes when it indexes an object
      (`row[year]`, `datum.set(year, …)`). */
  function ToString(x: Num): string {
    match x
    case NaN => "NaN"
    case Int(v) => if v < 0 then "-" + NatToDigits(-v) else NatToDigits(v)
  }

  /** A string that is the canonical decimal form of a non-negative integer:
      digits only, no leading zero except for "0" itself. */
  predicate IsCanonicalDigits(s: string) {
    |s| > 0 && AllDigits(s) && (s[0] != '0' || |s| == 1)
  }

  /** A string of digits has no white space to skip and is one run. */
  lemma DigitsAreTrimmed(s: string)
    ensures |s| > 0 && AllDigits(s) ==> TrimStart(s) == s && DigitRun(s) == |s| && s[..|s|] == s
  {
    if |s| > 0 && AllDigits(s) {
      assert !IsStrWhiteSpace(s[0]);
      DigitRunOfDigits(s);
    }
  }

  lemma ParseNegativeDigits(d: string)
    requires |d| > 0 && AllDigits(d)
    ensures ParseInt("-" + d) == Int(-(DigitsValue(d) as int))
  {
    var s := "-" + d;
    assert s[0] == '-' && !IsStrWhiteSpace(s[0]);
    var t := TrimStart(s);
    assert t == s;
    var u := t[1..];
    assert u == d;
    DigitRunOfDigits(d);
    assert u[..DigitRun(u)] == d;
  }

  /** Reading back the key a number is written as gives the same number. */
  lemma {:induction false} ParseIntToString(x: Num)
    ensures ParseInt(ToString(x)) == x
  {
    match x
    case NaN => ParseNaN();
    case Int(v) =>
      if v < 0 {
        ParseNegativeNat(-v);
      } else {
        ParseNat(v);
      }
  }

  lemma ParseNaN()
    ensures ParseInt("NaN") == NaN
  {
    assert !IsStrWhiteSpace('N');
    assert TrimStart("NaN") == "NaN";
    assert DigitRun("NaN") == 0;
  }

  lemma ParseNat(v: nat)
    ensures ParseInt(NatToDigits(v)) == Int(v)
  {
    NatToDigitsCanonical(v);
    var d := NatToDigits(v);
    assert |d| > 0 && AllDigits(d);
  }

  lemma ParseNegativeNat(v: nat)
    requires v > 0
    ensures ParseInt("-" + NatToDigits(v)) == Int(-(v as int))
  {
    NatToDigitsCanonical(v);
    ParseNegativeDigits(NatToDigits(v));
  }

  lemma {:induction false} LeadingDigitBound(s: string)
    requires |s| > 0 && AllDigits(s)
    ensures DigitsValue(s) >= DigitValue(s[0])
  {
    if |s| > 1 {
      var p := s[..|s| - 1];
      assert p[0] == s[0];
      LeadingDigitBound(p);
    }
  }

  lemma DivModTen(a: nat, d: nat)
    requires d < 10
    ensures (a * 10 + d) / 10 == a && (a * 10 + d) % 10 == d
  {
  }

  /** Writing the value of a canonical digit string gives back that string. */
  lemma {:induction false} ToStringOfCanonical(s: string)
    requires IsCanonicalDigits(s)
    ensures NatToDigits(DigitsValue(s)) == s
  {
    var n := DigitsValue(s);
    if |s| > 1 {
      var p := s[..|s| - 1];
      assert p[0] == s[0];
      assert IsCanonicalDigits(p);
      LeadingDigitBound(p);
      DivModTen(DigitsValue(p), DigitValue(s[|s| - 1]));
      ToStringOfCanonical(p);
      assert s == p + [s[|s| - 1]];
    } else {
      assert s == [s[0]];
    }
  }
}
