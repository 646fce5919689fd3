/** The order quantity field: `Number.parseInt(text, 10) || 1`. */
module Quantity {
  import opened Wrappers
  import opened Text
  import Money

  predicate IsDigit(c: char) {
    '0' <= c <= '9'
  }

  predicate AllDigits(s: string) {
    forall k :: 0 <= k < |s| ==> IsDigit(s[k])
  }

  function DigitValue(c: char): nat
    requires IsDigit(c)
  {
    c as int - '0' as int
  }

  function DigitChar(n: nat): (c: char)
    requires n < 10
    ensures IsDigit(c) && DigitValue(c) == n
  {
    ('0' as int + n) as char
  }

  /** Length of the longest prefix of decimal digits. */
  function DigitRun(s: string): (n: nat)
    ensures n <= |s|
    ensures forall k :: 0 <= k < n ==> IsDigit(s[k])
    ensures n == |s| || !IsDigit(s[n])
  {
    if |s| > 0 && IsDigit(s[0]) then 1 + DigitRun(s[1..]) else 0
  }

  /** Value of a string of decimal digits, most significant digit first. */
  function DigitsValue(s: string): nat
    requires AllDigits(s)
  {
    if |s| == 0 then 0 else 10 * DigitsValue(s[..|s| - 1]) + DigitValue(s[|s| - 1])
  }

  /** Value of the leading digit run. */
  function ReadDigits(s: string): nat {
    DigitsValue(s[..DigitRun(s)])
  }

  /** The text after one optional leading sign. */
  function AfterSign(t: string): string {
    if |t| > 0 && (t[0] == '-' || t[0] == '+') then t[1..] else t
  }

  /** `Number.parseInt(s, 10)`: skip leading whitespace, accept one optional
      sign, then read the longest run of decimal digits; `None` stands for
      NaN, the result when that run is empty. Anything after the run is
      ignored. */
  function ParseInt(s: string): (r: Option<int>)
    ensures var body := AfterSign(s[LeadingSpace(s)..]);
            r.None? <==> (|body| == 0 || !IsDigit(body[0]))
  {
    ParseSigned(s[LeadingSpace(s)..])
  }

  /** The part of `parseInt` after the whitespace: sign and digit run. */
  function ParseSigned(t: string): Option<int> {
    var body := AfterSign(t);
    if DigitRun(body) == 0 then None
    else
      var v := ReadDigits(body);
      Some(if |t| > 0 && t[0] == '-' then -(v as int) else v)
  }

  /** Decimal rendering of a natural number, the reference the parser is
      checked against. */
  function NatToString(n: nat): (s: string)
    ensures |s| > 0 && AllDigits(s)
    ensures DigitsValue(s) == n
  {
    if n < 10 then [DigitChar(n)]
    else
      var p := NatToString(n / 10);
      var s := p + [DigitChar(n % 10)];
      assert s[..|s| - 1] == p;
      s
  }

  function IntToString(n: int): string {
    if n < 0 then "-" + NatToString(-n) else NatToString(n)
  }

  lemma LeadingSpacePrefix(ws: string, x: string)
    requires forall k :: 0 <= k < |ws| ==> IsWhitespace(ws[k])
    requires |x| > 0 && !IsWhitespace(x[0])
    ensures LeadingSpace(ws + x) == |ws|
    ensures (ws + x)[|ws|..] == x
  {
    if |ws| > 0 {
      assert (ws + x)[1..] == ws[1..] + x;
      LeadingSpacePrefix(ws[1..], x);
    }
  }

  lemma {:induction false} DigitRunOfDigits(d: string, rest: string)
    requires AllDigits(d)
    requires |rest| == 0 || !IsDigit(rest[0])
    ensures DigitRun(d + rest) == |d|
    ensures (d + rest)[..|d|] == d
  {
    if |d| > 0 {
      assert (d + rest)[1..] == d[1..] + rest;
      DigitRunOfDigits(d[1..], rest);
    }
  }

  /** Leading whitespace is skipped. */
  lemma ParseIntSkipsWhitespace(ws: string, x: string)
    requires forall k :: 0 <= k < |ws| ==> IsWhitespace(ws[k])
    requires |x| > 0 && !IsWhitespace(x[0])
    ensures ParseInt(ws + x) == ParseInt(x)
  {
    LeadingSpacePrefix(ws, x);
    assert LeadingSpace(x) == 0;
    assert x[0..] == x;
  }

  lemma ReadDigitsOfDigits(d: string, rest: string)
    requires AllDigits(d)
    requires |rest| == 0 || !IsDigit(rest[0])
    ensures ReadDigits(d + rest) == DigitsValue(d)
  {
    DigitRunOfDigits(d, rest);
  }

  /** Text starting with a digit reads as the value of its digit run. */
  lemma ParseIntRun(body: string, v: nat)
    requires |body| > 0 && IsDigit(body[0])
    requires ReadDigits(body) == v
    ensures ParseInt(body) == Some(v)
  {
    assert LeadingSpace(body) == 0;
    assert body[0..] == body;
  }

  /** The same text after a minus sign reads as the negated value. */
  lemma ParseIntMinusRun(body: string, v: nat)
    requires |body| > 0 && IsDigit(body[0])
    requires ReadDigits(body) == v
    ensures ParseInt("-" + body) == Some(-(v as int))
  {
    var t := "-" + body;
    assert LeadingSpace(t) == 0;
    assert t[0..] == t;
    assert t[1..] == body;
  }

  /** A rendered integer followed by non-digit text reads as that integer. */
  lemma ParseIntRendered(n: int, rest: string)
    requires |rest| == 0 || !IsDigit(rest[0])
    ensures ParseInt(IntToString(n) + rest) == Some(n)
  {
    var digits := NatToString(Money.Abs(n));
    var body := digits + rest;
    ReadDigitsOfDigits(digits, rest);
    assert body[0] == digits[0];
    if n < 0 {
      assert IntToString(n) + rest == "-" + body;
      ParseIntMinusRun(body, Money.Abs(n));
    } else {
      assert IntToString(n) + rest == body;
      ParseIntRun(body, n);
    }
  }

  /** Whitespace before a rendered integer and any non-digit text after it
      do not change what `parseInt` reads: `" 3 Stück"` parses as 3 and
      `"2.5"` as 2. */
  lemma {:induction false} ParseIntReadsRendered(ws: string, n: int, rest: string)
    requires forall k :: 0 <= k < |ws| ==> IsWhitespace(ws[k])
    requires |rest| == 0 || !IsDigit(rest[0])
    ensures ParseInt(ws + (IntToString(n) + rest)) == Some(n)
  {
    var x := IntToString(n) + rest;
    assert x[0] == IntToString(n)[0];
    assert !IsWhitespace(x[0]) by {
      if n >= 0 {
        assert IsDigit(NatToString(n)[0]);
      }
    }
    ParseIntSkipsWhitespace(ws, x);
    ParseIntRendered(n, rest);
  }

  lemma ParseIntRoundTrip(n: int)
    ensures ParseInt(IntToString(n)) == Some(n)
  {
    ParseIntRendered(n, "");
    assert IntToString(n) + "" == IntToString(n);
  }

  /** `Number.parseInt(text, 10) || 1`: NaN and zero both become 1; every
      other parsed value, negative ones included, is kept. */
  function Quantity(text: string): (menge: int)
    ensures menge != 0
    ensures ParseInt(text) == Some(menge)
            || (menge == 1 && (ParseInt(text).None? || ParseInt(text) == Some(0)))
  {
    match ParseInt(text)
    case None => 1
    case Some(n) => if n == 0 then 1 else n
  }

  /** A rendered non-zero integer, surrounded by whitespace and trailing
      text, is taken as the quantity; zero falls back to 1. */
  lemma QuantityOfRendered(ws: string, n: int, rest: string)
    requires forall k :: 0 <= k < |ws| ==> IsWhitespace(ws[k])
    requires |rest| == 0 || !IsDigit(rest[0])
    ensures Quantity(ws + (IntToString(n) + rest)) == (if n == 0 then 1 else n)
  {
    ParseIntReadsRendered(ws, n, rest);
  }

  /** The fallback does not make the quantity positive: a negative entry
      passes through unchanged. */
  lemma QuantityKeepsNegative()
    ensures Quantity("-2") == -2
  {
    QuantityOfRendered("", -2, "");
    assert NatToString(2) == "2";
    assert "" + (IntToString(-2) + "") == "-2";
  }

  /** Empty, non-numeric and zero entries all become 1. */
  lemma QuantityFallsBackToOne()
    ensures Quantity("") == 1
    ensures Quantity("abc") == 1
    ensures Quantity("0") == 1
  {
    assert LeadingSpace("abc") == 0;
    assert "abc"[0..] == "abc";
    assert AfterSign("abc") == "abc";
    assert DigitRun("abc") == 0;
    QuantityOfRendered("", 0, "");
    assert NatToString(0) == "0";
    assert "" + (IntToString(0) + "") == "0";
  }
}
