/**
 * `parseInt(string, 10)` as defined in section 19.2.5 of ECMA-262, and the decimal rendering of a
 * non-negative integer that the page links use. Results are mathematical integers: the rounding
 * of very large values to the nearest double, and the sign of a negative zero, are not modelled.
 */
module ParseInt {
  import opened Text

  /** The result of `parseInt`: `NaN` or an integer value. */
  datatype Number = NaN | Int(value: int)

  /** The value of a decimal digit. */
  function DigitValue(c: char): nat
    requires IsDigit(c)
  {
    c as int - '0' as int
  }

  /** The digit character for a value below ten. */
  function DigitChar(d: nat): (c: char)
    requires d < 10
    ensures IsDigit(c) && DigitValue(c) == d
  {
    ('0' as int + d) as char
  }

  predicate AllDigits(s: string) {
    forall i | 0 <= i < |s| :: IsDigit(s[i])
  }

  /** The mathematical value of a string of decimal digits, most significant first. */
  function DecimalValue(ds: string): nat
    requires AllDigits(ds)
  {
    if ds == [] then 0 else DecimalValue(ds[..|ds| - 1]) * 10 + DigitValue(ds[|ds| - 1])
  }

  /** The longest prefix of decimal digits (step 11 of `parseInt`: the text up to the first non-digit). */
  function LeadingDigits(s: string): (r: string)
    ensures |r| <= |s| && r == s[..|r|]
    ensures AllDigits(r)
    ensures |r| == |s| || !IsDigit(s[|r|])
  {
    if s != [] && IsDigit(s[0]) then
      var rest := LeadingDigits(s[1..]);
      assert s[1..][..|rest|] == s[1..|rest| + 1];
      [s[0]] + rest
    else []
  }

  /** The sign of the number: negative exactly when the text starts with `-` (steps 3 and 4). */
  function SignOf(s: string): int {
    if s != [] && s[0] == '-' then -1 else 1
  }

  /** The text with one leading `+` or `-` removed (step 5). */
  function Unsigned(s: string): (r: string)
    ensures r == s || (s != [] && (s[0] == '+' || s[0] == '-') && r == s[1..])
  {
    if s != [] && (s[0] == '+' || s[0] == '-') then s[1..] else s
  }

  /**
   * `parseInt(s, 10)`: leading whitespace is skipped, one sign is read, and the longest run of
   * decimal digits that follows is the value; without such digits the result is `NaN`.
   */
  function ParseInt10(s: string): (r: Number)
    ensures r == NaN <==> var u := Unsigned(TrimStart(s)); u == [] || !IsDigit(u[0])
  {
    var t := TrimStart(s);
    var digits := LeadingDigits(Unsigned(t));
    if digits == [] then NaN else Int(SignOf(t) * DecimalValue(digits))
  }

  /** The decimal rendering of a non-negative integer (`${n}`): no leading zero, except `"0"` itself. */
  function Decimal(n: nat): (s: string)
    ensures s != [] && AllDigits(s) && DecimalValue(s) == n
    ensures s[0] == '0' ==> n == 0
    decreases n
  {
    if n < 10 then [DigitChar(n)]
    else
      var prefix := Decimal(n / 10);
      var s := prefix + [DigitChar(n % 10)];
      assert s[..|s| - 1] == prefix;
      s
  }

  // ---------------------------------------------------------------------------------------------
  // Properties

  /** The digit prefix of a digit string followed by a non-digit is that digit string. */
  lemma {:induction false} LeadingDigitsOf(ds: string, rest: string)
    requires AllDigits(ds)
    requires rest == [] || !IsDigit(rest[0])
    ensures LeadingDigits(ds + rest) == ds
  {
    if ds != [] {
      assert (ds + rest)[1..] == ds[1..] + rest;
      LeadingDigitsOf(ds[1..], rest);
    }
  }

  /**
   * A string made of a digit run followed by anything that does not start with a digit parses as
   * the value of the digits: the tail is ignored. A leading `-` negates, a leading `+` does not.
   */
  lemma ParseDigitsThenTail(sign: string, ds: string, rest: string)
    requires sign == "" || sign == "+" || sign == "-"
    requires ds != [] && AllDigits(ds)
    requires rest == [] || !IsDigit(rest[0])
    ensures ParseInt10(sign + ds + rest) == Int((if sign == "-" then -1 else 1) * DecimalValue(ds))
  {
    var s := sign + ds + rest;
    assert s[0] == if sign == "" then ds[0] else sign[0];
    assert !IsWhiteSpace(s[0]);
    assert TrimStart(s) == s;
    assert Unsigned(s) == ds + rest by {
      if sign != "" {
        assert s[1..] == ds + rest;
      }
    }
    LeadingDigitsOf(ds, rest);
  }

  /** Leading whitespace is skipped by the trim, whatever follows it. */
  lemma {:induction false} TrimStartAfterWhitespace(ws: string, s: string)
    requires forall i | 0 <= i < |ws| :: IsWhiteSpace(ws[i])
    ensures TrimStart(ws + s) == TrimStart(s)
  {
    if ws != [] {
      var t := ws + s;
      assert t[0] == ws[0] && IsWhiteSpace(t[0]);
      assert TrimStart(t) == TrimStart(t[1..]);
      assert t[1..] == ws[1..] + s;
      TrimStartAfterWhitespace(ws[1..], s);
    } else {
      assert ws + s == s;
    }
  }

  /** Leading whitespace never changes what `parseInt` reads (step 2). */
  lemma ParseAfterWhitespace(ws: string, s: string)
    requires forall i | 0 <= i < |ws| :: IsWhiteSpace(ws[i])
    ensures ParseInt10(ws + s) == ParseInt10(s)
  {
    TrimStartAfterWhitespace(ws, s);
  }

  /** Parsing the decimal rendering of `n` gives back `n`. */
  lemma ParseDecimal(n: nat)
    ensures ParseInt10(Decimal(n)) == Int(n)
  {
    var d := Decimal(n);
    var empty: string := [];
    assert empty + d + empty == d;
    ParseDigitsThenTail(empty, d, empty);
  }

  /** A string with no digit after its whitespace and sign parses as `NaN`. */
  lemma ParseNoDigits(s: string)
    requires s == [] || (!IsWhiteSpace(s[0]) && !IsDigit(s[0]) && s[0] != '+' && s[0] != '-')
    ensures ParseInt10(s) == NaN
  {
    if s != [] {
      assert TrimStart(s) == s;
    }
  }
}
