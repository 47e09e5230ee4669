/** Values shared by every part of the model: nullable values, results,
    JavaScript truthiness, ASCII case folding, decimal digits and substrings. */
module Common {

  datatype Option<+T> = None | Some(value: T)

  datatype Result<+T, +E> = Success(value: T) | Failure(error: E)

  /** A database or wall-clock timestamp, supplied by the caller. */
  type Time = int

  /** JavaScript truthiness of a nullable string: null, undefined and "" are falsy. */
  predicate Truthy(s: Option<string>) {
    s.Some? && s.value != ""
  }

  /** `s || null` on a nullable string. */
  function OrNull(s: Option<string>): (r: Option<string>)
    ensures r.Some? <==> Truthy(s)
    ensures r.Some? ==> r == s
  {
    if Truthy(s) then s else None
  }

  /** A scalar field of a request body, passed on as it was received: a
      JSON number, or text (every field of a multipart body is text). */
  datatype Scalar = Number(x: real) | Text(s: string)

  /** JavaScript truthiness of a nullable body field: null, undefined, 0 and
      "" are falsy, while the text "0" is truthy. */
  predicate TruthyScalar(v: Option<Scalar>) {
    v.Some? && match v.value
               case Number(x) => x != 0.0
               case Text(s) => s != ""
  }

  /** `x || null` on a nullable body field. */
  function ScalarOrNull(v: Option<Scalar>): (r: Option<Scalar>)
    ensures r.Some? <==> TruthyScalar(v)
    ensures r.Some? ==> r == v
  {
    if TruthyScalar(v) then v else None
  }

  // ---------------------------------------------------------------- characters

  predicate IsUpper(c: char) { 'A' <= c <= 'Z' }
  predicate IsDigit(c: char) { '0' <= c <= '9' }

  /** `toLowerCase` restricted to ASCII letters. */
  function LowerChar(c: char): (d: char)
    ensures IsUpper(c) ==> 'a' <= d <= 'z' && d as int == c as int + 32
    ensures !IsUpper(c) ==> d == c
  {
    if IsUpper(c) then (c as int + 32) as char else c
  }

  function Lower(s: string): (r: string)
    ensures |r| == |s|
    ensures forall i :: 0 <= i < |s| ==> r[i] == LowerChar(s[i])
  {
    seq(|s|, i requires 0 <= i < |s| => LowerChar(s[i]))
  }

  function DigitValue(c: char): (d: nat)
    requires IsDigit(c)
    ensures d < 10
  {
    c as int - '0' as int
  }

  function DigitChar(d: nat): (c: char)
    requires d < 10
    ensures IsDigit(c) && DigitValue(c) == d
  {
    ('0' as int + d) as char
  }

  /** The base-10 spelling of a natural number, as JavaScript's `String(n)` writes it. */
  function Decimal(n: nat): (s: string)
    ensures |s| >= 1
    ensures forall i :: 0 <= i < |s| ==> IsDigit(s[i])
    ensures s[0] == '0' ==> n == 0
  {
    if n < 10 then [DigitChar(n)] else Decimal(n / 10) + [DigitChar(n % 10)]
  }

  /** The value of a non-empty run of decimal digits, most significant first. */
  function DigitsValue(s: string): nat
    requires forall i :: 0 <= i < |s| ==> IsDigit(s[i])
  {
    if s == [] then 0 else DigitsValue(s[..|s| - 1]) * 10 + DigitValue(s[|s| - 1])
  }

  lemma {:induction false} DigitsValueOfDecimal(n: nat)
    ensures DigitsValue(Decimal(n)) == n
  {
    if n >= 10 {
      var s := Decimal(n);
      assert s[..|s| - 1] == Decimal(n / 10);
      DigitsValueOfDecimal(n / 10);
    }
  }

  // ---------------------------------------------------------------- substrings

  /** `w` occurs in `s` starting at index `i`. */
  predicate OccursAt(w: string, s: string, i: int) {
    0 <= i <= |s| - |w| && s[i..i + |w|] == w
  }

  /** `w` occurs in `s` at some position (the specification of substring search). */
  ghost predicate Occurs(w: string, s: string) {
    exists i :: OccursAt(w, s, i)
  }

  /** Dropping a first character at which `w` does not start keeps every other occurrence. */
  lemma OccursAfterFirst(w: string, s: string)
    requires |w| <= |s| && s[..|w|] != w
    ensures Occurs(w, s) <==> Occurs(w, s[1..])
  {
    if Occurs(w, s) {
      var i :| OccursAt(w, s, i);
      assert i != 0;
      assert s[1..][i - 1..i - 1 + |w|] == s[i..i + |w|];
      assert OccursAt(w, s[1..], i - 1);
    }
    if Occurs(w, s[1..]) {
      var i :| OccursAt(w, s[1..], i);
      assert s[i + 1..i + 1 + |w|] == s[1..][i..i + |w|];
      assert OccursAt(w, s, i + 1);
    }
  }

  /** Substring search by scanning `s` from the left, as an unanchored
      pattern test or SQL `LIKE '%w%'` does. */
  function Contains(s: string, w: string): (b: bool)
    ensures b <==> Occurs(w, s)
    decreases |s|
  {
    if |w| > |s| then
      assert forall i :: !OccursAt(w, s, i);
      false
    else if s[..|w|] == w then
      assert OccursAt(w, s, 0);
      true
    else
      OccursAfterFirst(w, s);
      Contains(s[1..], w)
  }
}
