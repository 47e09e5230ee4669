/** JavaScript's `parseInt(string, 10)`, which the services use to read a
    route parameter as a record id. */
module JsParseInt {
  import opened Common

  /** The characters `parseInt` skips before the number: the ECMAScript
      WhiteSpace and LineTerminator productions (tab, vertical tab, form feed,
      space, no-break space, byte order mark, the Unicode space separators,
      line feed, carriage return, line and paragraph separator). */
  predicate IsJsWhiteSpace(c: char) {
    c == '\t' || c == '\U{B}' || c == '\U{C}' || c == ' ' || c == '\U{A0}' || c == '\U{FEFF}'
    || c == '\U{1680}' || ('\U{2000}' <= c <= '\U{200A}') || c == '\U{202F}' || c == '\U{205F}'
    || c == '\U{3000}' || c == '\n' || c == '\r' || c == '\U{2028}' || c == '\U{2029}'
  }

  /** `s` without its leading white space. */
  function SkipWhiteSpace(s: string): (r: string)
    ensures r == [] || !IsJsWhiteSpace(r[0])
  {
    if s != [] && IsJsWhiteSpace(s[0]) then SkipWhiteSpace(s[1..]) else s
  }

  /** What is skipped is a prefix of white space: the rest is a suffix of `s`. */
  lemma {:induction false} SkipWhiteSpaceIsSuffix(s: string)
    ensures var r := SkipWhiteSpace(s);
      |r| <= |s| && r == s[|s| - |r|..] && forall i :: 0 <= i < |s| - |r| ==> IsJsWhiteSpace(s[i])
  {
    if s != [] && IsJsWhiteSpace(s[0]) {
      SkipWhiteSpaceIsSuffix(s[1..]);
      var r := SkipWhiteSpace(s[1..]);
      assert SkipWhiteSpace(s) == r;
      assert s[1..][|s| - 1 - |r|..] == s[|s| - |r|..];
      forall i | 0 <= i < |s| - |r|
        ensures IsJsWhiteSpace(s[i])
      {
        if i > 0 { assert s[i] == s[1..][i - 1]; }
      }
    }
  }

  /** The length of the longest prefix of `s` made of decimal digits. */
  function DigitPrefixLength(s: string): (k: nat)
    ensures k <= |s|
    ensures forall i :: 0 <= i < k ==> IsDigit(s[i])
    ensures k < |s| ==> !IsDigit(s[k])
  {
    if s != [] && IsDigit(s[0]) then 1 + DigitPrefixLength(s[1..]) else 0
  }

  /** The longest run of decimal digits at the start of `u`, or NaN (`None`) when there is none. */
  function ParseDigits(u: string): Option<nat> {
    var k := DigitPrefixLength(u);
    if k == 0 then None else Some(DigitsValue(u[..k]))
  }

  /** An optional sign, then digits. */
  function ParseSigned(t: string): Option<int> {
    if t != [] && t[0] == '-' then
      match ParseDigits(t[1..])
      case None => None
      case Some(v) => Some(-(v as int))
    else if t != [] && t[0] == '+' then
      match ParseDigits(t[1..])
      case None => None
      case Some(v) => Some(v as int)
    else
      match ParseDigits(t)
      case None => None
      case Some(v) => Some(v as int)
  }

  /** `parseInt(s, 10)`: skip white space, read an optional sign, then the
      longest run of decimal digits; no digit at all is NaN (`None`). A
      negative zero is the integer 0 here. */
  function ParseInt(s: string): Option<int> {
    ParseSigned(SkipWhiteSpace(s))
  }

  /** No leading white space, an optional sign, digits, then anything that
      does not continue the digits. */
  predicate StopsNumber(rest: string) {
    rest == [] || !IsDigit(rest[0])
  }

  lemma {:induction false} SkipWhiteSpaceOver(ws: string, t: string)
    requires forall i :: 0 <= i < |ws| ==> IsJsWhiteSpace(ws[i])
    requires t == [] || !IsJsWhiteSpace(t[0])
    ensures SkipWhiteSpace(ws + t) == t
  {
    if ws != [] {
      assert (ws + t)[1..] == ws[1..] + t;
      SkipWhiteSpaceOver(ws[1..], t);
    }
  }

  lemma {:induction false} DigitPrefixOver(ds: string, rest: string)
    requires forall i :: 0 <= i < |ds| ==> IsDigit(ds[i])
    requires StopsNumber(rest)
    ensures DigitPrefixLength(ds + rest) == |ds|
  {
    if ds != [] {
      assert (ds + rest)[1..] == ds[1..] + rest;
      DigitPrefixOver(ds[1..], rest);
    }
  }

  /** White space before the number does not change what `parseInt` reads. */
  lemma ParseIntAfterWhiteSpace(ws: string, t: string)
    requires forall i :: 0 <= i < |ws| ==> IsJsWhiteSpace(ws[i])
    requires t == [] || !IsJsWhiteSpace(t[0])
    ensures ParseInt(ws + t) == ParseInt(t)
  {
    SkipWhiteSpaceOver(ws, t);
    SkipWhiteSpaceOver("", t);
    assert "" + t == t;
  }

  lemma ParseDigitsOfRun(ds: string, rest: string)
    requires ds != [] && forall i :: 0 <= i < |ds| ==> IsDigit(ds[i])
    requires StopsNumber(rest)
    ensures ParseDigits(ds + rest) == Some(DigitsValue(ds))
  {
    DigitPrefixOver(ds, rest);
    assert (ds + rest)[..|ds|] == ds;
  }

  /** A first character that is not white space is where the parse starts. */
  lemma NoLeadingSpace(t: string)
    requires t != [] && !IsJsWhiteSpace(t[0])
    ensures ParseInt(t) == ParseSigned(t)
  {
  }

  lemma ParseSignedOfDigit(u: string)
    requires u != [] && IsDigit(u[0]) && ParseDigits(u).Some?
    ensures ParseSigned(u) == Some(ParseDigits(u).value as int)
  {
  }

  lemma ParseSignedOfSign(c: char, u: string)
    requires c == '+' || c == '-'
    requires ParseDigits(u).Some?
    ensures ParseSigned([c] + u) == Some(if c == '-' then -(ParseDigits(u).value as int) else ParseDigits(u).value as int)
  {
    assert ([c] + u)[1..] == u;
  }

  lemma ParseIntOfDigits(u: string, v: nat)
    requires ParseDigits(u) == Some(v) && IsDigit(u[0])
    ensures ParseInt(u) == Some(v)
  {
    NoLeadingSpace(u);
    ParseSignedOfDigit(u);
  }

  lemma ParseIntOfSignedDigits(sign: char, u: string, v: nat)
    requires sign == '+' || sign == '-'
    requires ParseDigits(u) == Some(v)
    ensures ParseInt([sign] + u) == Some(if sign == '-' then -(v as int) else v)
  {
    NoLeadingSpace([sign] + u);
    ParseSignedOfSign(sign, u);
  }

  lemma ParseIntOfUnsigned(n: nat, rest: string)
    requires StopsNumber(rest)
    ensures ParseInt(Decimal(n) + rest) == Some(n)
  {
    var d := Decimal(n);
    ParseDigitsOfRun(d, rest);
    DigitsValueOfDecimal(n);
    assert (d + rest)[0] == d[0];
    ParseIntOfDigits(d + rest, n);
  }

  lemma ParseIntOfDigitsAfter(ws: string, sign: string, u: string, v: nat)
    requires forall i :: 0 <= i < |ws| ==> IsJsWhiteSpace(ws[i])
    requires sign == "" || sign == "+" || sign == "-"
    requires ParseDigits(u) == Some(v) && IsDigit(u[0])
    ensures ParseInt(ws + sign + u) == Some(if sign == "-" then -(v as int) else v)
  {
    if sign == "" {
      assert ws + sign + u == ws + u;
      ParseIntAfterWhiteSpace(ws, u);
      ParseIntOfDigits(u, v);
    } else {
      var c := sign[0];
      assert sign == [c];
      assert ws + sign + u == ws + ([c] + u);
      ParseIntAfterWhiteSpace(ws, [c] + u);
      ParseIntOfSignedDigits(c, u, v);
    }
  }

  /** Reading back the decimal spelling of a number, after any white space and
      followed by anything that is not a digit, gives the number; a leading
      `-` negates it and a leading `+` does not. */
  lemma ParseIntOfDecimal(ws: string, sign: string, n: nat, rest: string)
    requires forall i :: 0 <= i < |ws| ==> IsJsWhiteSpace(ws[i])
    requires sign == "" || sign == "+" || sign == "-"
    requires StopsNumber(rest)
    ensures ParseInt(ws + sign + Decimal(n) + rest) == Some(if sign == "-" then -(n as int) else n)
  {
    var d := Decimal(n);
    ParseDigitsOfRun(d, rest);
    DigitsValueOfDecimal(n);
    assert (d + rest)[0] == d[0];
    ParseIntOfDigitsAfter(ws, sign, d + rest, n);
    assert ws + sign + d + rest == ws + sign + (d + rest);
  }

  /** No digit after the white space and the optional sign means NaN, and a
      digit there means a number. */
  lemma ParseIntIsNaN(s: string)
    ensures ParseInt(s).None? <==>
      var t := SkipWhiteSpace(s);
      var u := if t != [] && (t[0] == '-' || t[0] == '+') then t[1..] else t;
      u == [] || !IsDigit(u[0])
  {
  }

  /** The parse stops at the first character that is not a digit: `"12abc"` reads as 12. */
  lemma ParseIntStopsAtLetter()
    ensures ParseInt("12abc") == Some(12)
  {
    assert Decimal(12) + "abc" == "12abc";
    ParseIntOfUnsigned(12, "abc");
  }

  /** There is no hexadecimal prefix with radix 10: `"0x1A"` reads as 0. */
  lemma ParseIntIgnoresHexPrefix()
    ensures ParseInt("0x1A") == Some(0)
  {
    assert Decimal(0) + "x1A" == "0x1A";
    ParseIntOfUnsigned(0, "x1A");
  }

  /** A fraction is cut off: `"3.9"` reads as 3. */
  lemma ParseIntTruncatesFraction()
    ensures ParseInt("3.9") == Some(3)
  {
    assert Decimal(3) + ".9" == "3.9";
    ParseIntOfUnsigned(3, ".9");
  }

  /** White space and a sign before the digits: `" \t-7"` reads as -7. */
  lemma ParseIntSignedExample()
    ensures ParseInt(" \t-7") == Some(-7)
  {
    ParseIntOfDecimal(" \t", "-", 7, "");
    assert " \t" + "-" + Decimal(7) + "" == " \t-7";
  }

  /** `"abc"`, `""` and `"+-1"` are NaN. */
  lemma ParseIntNaNExamples()
    ensures ParseInt("abc") == None
    ensures ParseInt("") == None
    ensures ParseInt("+-1") == None
  {
    NaNWithoutDigits("abc");
    NaNWithoutDigits("");
    NaNWithoutDigits("+-1");
  }

  /** Helper for the examples: no digit after the sign, when no white space leads. */
  lemma NaNWithoutDigits(t: string)
    requires t == [] || !IsJsWhiteSpace(t[0])
    requires var u := if t != [] && (t[0] == '-' || t[0] == '+') then t[1..] else t;
      u == [] || !IsDigit(u[0])
    ensures ParseInt(t) == None
  {
    assert SkipWhiteSpace(t) == t;
    ParseIntIsNaN(t);
  }
}
