/** `parseInt(value, 10)` as the front end applies it to the value of a
    numeric option: skip leading white space, take an optional sign, read the
    longest run of decimal digits; no digits at all gives NaN (None here). */
module NumberParsing {
  import opened Wrappers

  predicate IsDigit(c: char) { '0' <= c <= '9' }

  function DigitValue(c: char): nat
    requires IsDigit(c)
  {
    c as int - '0' as int
  }

  /** The white-space and line-terminator code points that parseInt trims
      (ECMAScript StrWhiteSpaceChar). */
  predicate IsJsSpace(c: char) {
    c == '\t' || c == '\n' || c == '\U{000B}' || c == '\U{000C}' || c == '\r'
    || c == ' ' || c == '\U{00A0}' || c == '\U{1680}'
    || ('\U{2000}' <= c <= '\U{200A}')
    || c == '\U{2028}' || c == '\U{2029}' || c == '\U{202F}' || c == '\U{205F}'
    || c == '\U{3000}' || c == '\U{FEFF}'
  }

  /** Length of the longest prefix of decimal digits. */
  function LeadingDigits(s: string): (n: nat)
    ensures n <= |s|
  {
    if s == [] || !IsDigit(s[0]) then 0 else 1 + LeadingDigits(s[1..])
  }

  predicate AllDigits(d: string) {
    forall i | 0 <= i < |d| :: IsDigit(d[i])
  }

  /** The value of a run of decimal digits, most significant first. */
  function DigitsValue(d: string): nat
    requires AllDigits(d)
  {
    if d == [] then 0 else DigitsValue(d[..|d| - 1]) * 10 + DigitValue(d[|d| - 1])
  }

  /** `parseInt(s, 10)`, with None for NaN: leading white space is
      skipped one character at a time. */
  function ParseDecimal(s: string): Option<int>
    decreases |s|
  {
    if s != [] && IsJsSpace(s[0]) then ParseDecimal(s[1..]) else ParseSigned(s)
  }

  /** An optional sign, then the digits. */
  function ParseSigned(t: string): Option<int> {
    if t != [] && t[0] == '-' then Negate(ParseDigits(t[1..]))
    else if t != [] && t[0] == '+' then ParseDigits(t[1..])
    else ParseDigits(t)
  }

  function Negate(o: Option<int>): Option<int> {
    if o.Some? then Some(-o.value) else None
  }

  /** The value of the longest run of leading digits; none at all is NaN. */
  function ParseDigits(u: string): Option<int> {
    var n := LeadingDigits(u);
    LeadingDigitsAreDigits(u);
    if n == 0 then None else Some(DigitsValue(u[..n]))
  }

  /** Decimal rendering of a natural number, without leading zeros. */
  function NatToDecimal(n: nat): (r: string)
    ensures |r| > 0 && AllDigits(r)
  {
    if n < 10 then [('0' as int + n) as char]
    else NatToDecimal(n / 10) + [('0' as int + n % 10) as char]
  }

  /** Decimal rendering of an integer, with `-` for a negative one. */
  function IntToDecimal(n: int): string {
    if n < 0 then "-" + NatToDecimal(-n) else NatToDecimal(n)
  }

  lemma {:induction false} LeadingDigitsAreDigits(s: string)
    ensures AllDigits(s[..LeadingDigits(s)])
  {
    if s != [] && IsDigit(s[0]) {
      LeadingDigitsAreDigits(s[1..]);
      assert s[..LeadingDigits(s)] == [s[0]] + s[1..][..LeadingDigits(s[1..])];
    }
  }

  lemma {:induction false} NatToDecimalValue(n: nat)
    ensures DigitsValue(NatToDecimal(n)) == n
  {
    if n >= 10 {
      NatToDecimalValue(n / 10);
      var d := NatToDecimal(n);
      assert d[..|d| - 1] == NatToDecimal(n / 10);
    }
  }

  /** A run of digits followed by a non-digit (or nothing) is read whole. */
  lemma {:induction false} LeadingDigitsOfRun(d: string, rest: string)
    requires AllDigits(d)
    requires rest == [] || !IsDigit(rest[0])
    ensures LeadingDigits(d + rest) == |d|
  {
    if d == [] {
      assert d + rest == rest;
    } else {
      assert (d + rest)[1..] == d[1..] + rest;
      LeadingDigitsOfRun(d[1..], rest);
    }
  }

  /** A non-empty run of digits followed by a non-digit (or nothing) is
      read as the run's value, leading zeros included. */
  lemma DigitsRead(d: string, rest: string)
    requires d != [] && AllDigits(d)
    requires rest == [] || !IsDigit(rest[0])
    ensures ParseDigits(d + rest) == Some(DigitsValue(d))
  {
    LeadingDigitsOfRun(d, rest);
    assert (d + rest)[..|d|] == d;
  }

  /** The digits of a natural number, followed by a non-digit or nothing,
      are read back as that number. */
  lemma DigitsRoundTrip(m: nat, rest: string)
    requires rest == [] || !IsDigit(rest[0])
    ensures ParseDigits(NatToDecimal(m) + rest) == Some(m)
  {
    NatToDecimalValue(m);
    DigitsRead(NatToDecimal(m), rest);
  }

  lemma SignedMinus(t: string)
    ensures ParseSigned(['-'] + t) == Negate(ParseDigits(t))
  {
    assert (['-'] + t)[1..] == t;
  }

  lemma SignedDigit(t: string)
    requires t != [] && IsDigit(t[0])
    ensures ParseSigned(t) == ParseDigits(t)
  {
  }

  /** After any white space, the sign and digits of a rendering are read
      back as the integer. */
  lemma SignedRoundTrip(n: int, rest: string)
    requires rest == [] || !IsDigit(rest[0])
    ensures ParseSigned(IntToDecimal(n) + rest) == Some(n)
  {
    var m: nat := if n < 0 then -n else n;
    var d := NatToDecimal(m) + rest;
    DigitsRoundTrip(m, rest);
    if n < 0 {
      assert IntToDecimal(n) + rest == ['-'] + d;
      SignedMinus(d);
    } else {
      assert IsDigit(NatToDecimal(m)[0]);
      assert d[0] == NatToDecimal(m)[0];
      SignedDigit(d);
    }
  }

  /** A rendering starts with a digit or `-`. */
  lemma RenderingStart(n: int, rest: string)
    ensures var s := IntToDecimal(n) + rest;
      s != [] && (IsDigit(s[0]) || s[0] == '-')
  {
    var m: nat := if n < 0 then -n else n;
    assert IsDigit(NatToDecimal(m)[0]);
  }

  /** parseInt reads back the decimal rendering of any integer, whatever
      non-digit text follows it ("12abc" gives 12). */
  lemma ParseDecimalRoundTrip(n: int, rest: string)
    requires rest == [] || !IsDigit(rest[0])
    ensures ParseDecimal(IntToDecimal(n) + rest) == Some(n)
  {
    var s := IntToDecimal(n) + rest;
    SignedRoundTrip(n, rest);
    RenderingStart(n, rest);
    NoSpaceAhead(s[0], s[1..]);
    assert [s[0]] + s[1..] == s;
  }

  /** parseInt reads a string that starts with a sign or digit from there. */
  lemma NoSpaceAhead(c: char, t: string)
    requires IsDigit(c) || c == '-'
    ensures ParseDecimal([c] + t) == ParseSigned([c] + t)
  {
    assert !IsJsSpace(c);
  }

  /** Leading white space is skipped. */
  lemma {:induction false} ParseDecimalSkipsSpace(ws: string, s: string)
    requires forall i | 0 <= i < |ws| :: IsJsSpace(ws[i])
    ensures ParseDecimal(ws + s) == ParseDecimal(s)
  {
    if ws != [] {
      assert (ws + s)[1..] == ws[1..] + s;
      ParseDecimalSkipsSpace(ws[1..], s);
    } else {
      assert ws + s == s;
    }
  }

  /** Text that starts with neither white space, a sign nor a digit is NaN. */
  lemma NotANumberWithoutDigits(s: string)
    requires s != [] && !IsJsSpace(s[0]) && !IsDigit(s[0]) && s[0] != '-' && s[0] != '+'
    ensures ParseDecimal(s) == None
  {
  }

  /** "12abc" gives 12. */
  lemma TrailingTextIgnored()
    ensures ParseDecimal("12abc") == Some(12)
  {
    ParseDecimalRoundTrip(12, "abc");
    assert IntToDecimal(12) == "12";
    assert "12" + "abc" == "12abc";
  }

  /** " -7" gives -7. */
  lemma SpaceAndSign()
    ensures ParseDecimal(" -7") == Some(-7)
  {
    ParseDecimalRoundTrip(-7, "");
    assert IntToDecimal(-7) + "" == "-7";
    ParseDecimalSkipsSpace(" ", "-7");
    assert " " + "-7" == " -7";
  }

  predicate AllSpace(ws: string) {
    forall i | 0 <= i < |ws| :: IsJsSpace(ws[i])
  }

  predicate IsSign(sign: string) {
    sign == "" || sign == "+" || sign == "-"
  }

  /** After the white space and the sign, what is left is read as
      ParseSigned reads it. */
  lemma SpaceThenSign(ws: string, sign: string, t: string)
    requires AllSpace(ws) && IsSign(sign)
    requires sign != "" || (t != [] && IsDigit(t[0])) || t == []
    ensures ParseDecimal(ws + sign + t) == ParseSigned(sign + t)
  {
    assert ws + sign + t == ws + (sign + t);
    ParseDecimalSkipsSpace(ws, sign + t);
    if sign + t != [] {
      assert !IsJsSpace((sign + t)[0]);
    }
  }

  lemma SignedRead(sign: string, t: string)
    requires IsSign(sign)
    requires sign == "" ==> t == [] || IsDigit(t[0])
    ensures ParseSigned(sign + t) == if sign == "-" then Negate(ParseDigits(t)) else ParseDigits(t)
  {
    if sign != "" {
      assert (sign + t)[0] == sign[0] && (sign + t)[1..] == t;
    } else {
      assert sign + t == t;
    }
  }

  /** The general shape of a number parseInt accepts: white space, an
      optional sign, a run of digits (leading zeros allowed), then anything
      that does not start with a digit. */
  lemma ParseDecimalOfDigits(ws: string, sign: string, d: string, rest: string)
    requires AllSpace(ws) && IsSign(sign)
    requires d != [] && AllDigits(d)
    requires rest == [] || !IsDigit(rest[0])
    ensures ParseDecimal(ws + sign + (d + rest)) ==
      Some(if sign == "-" then -(DigitsValue(d) as int) else DigitsValue(d) as int)
  {
    assert (d + rest)[0] == d[0];
    SpaceThenSign(ws, sign, d + rest);
    SignedRead(sign, d + rest);
    DigitsRead(d, rest);
  }

  /** Without digits after the white space and the sign, parseInt gives NaN:
      this covers the empty string, white space alone, a lone sign and a
      sign followed by text. */
  lemma ParseDecimalNaN(ws: string, sign: string, rest: string)
    requires AllSpace(ws) && IsSign(sign)
    requires rest == [] || !IsDigit(rest[0])
    requires sign == "" ==> rest == []
    ensures ParseDecimal(ws + sign + rest) == None
  {
    SpaceThenSign(ws, sign, rest);
    SignedRead(sign, rest);
    assert LeadingDigits(rest) == 0;
  }
}
