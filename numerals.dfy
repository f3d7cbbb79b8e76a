// Decimal text for integers: Python's str(int) and int(str).
module Numerals {
  import opened Maybe
  import opened Text

  predicate IsDigit(c: char) {
    '0' <= c <= '9'
  }

  predicate AllDigits(s: string) {
    forall i :: 0 <= i < |s| ==> IsDigit(s[i])
  }

  function DigitChar(d: nat): (c: char)
    requires d < 10
    ensures IsDigit(c)
  {
    (48 + d) as char
  }

  /** Decimal digits of n, most significant first, no leading zeros. */
  function Digits(n: nat): (r: string)
    ensures |r| >= 1 && AllDigits(r)
  {
    if n < 10 then [DigitChar(n)] else Digits(n / 10) + [DigitChar(n % 10)]
  }

  /** The number a string of decimal digits denotes. */
  function Value(s: string): nat
    requires AllDigits(s)
  {
    if s == [] then 0 else Value(s[..|s| - 1]) * 10 + (s[|s| - 1] as int - 48)
  }

  lemma {:induction false} ValueOfDigits(n: nat)
    ensures Value(Digits(n)) == n
  {
    if n >= 10 {
      ValueOfDigits(n / 10);
      var s := Digits(n);
      assert s[..|s| - 1] == Digits(n / 10);
    }
  }

  /** str(i): an optional minus sign followed by the digits of |i|. */
  function IntToStr(i: int): (r: string)
    ensures |r| >= 1 && !IsSpace(r[0])
    ensures forall k :: 0 <= k < |r| ==> IsDigit(r[k]) || r[k] == '-'
  {
    if i < 0 then "-" + Digits(-i) else Digits(i)
  }

  /** int(s): surrounding whitespace, an optional sign and at least one digit;
      anything else is the ValueError of the Python program, here None. */
  function ParseInt(s: string): (r: Option<int>)
  {
    var t := LStrip(RStrip(s));
    if |t| > 1 && (t[0] == '-' || t[0] == '+') && AllDigits(t[1..]) then
      Some(if t[0] == '-' then -(Value(t[1..]) as int) else Value(t[1..]))
    else if |t| > 0 && AllDigits(t) then
      Some(Value(t))
    else None
  }

  /** Stripping leaves alone text that neither starts nor ends with whitespace. */
  lemma StripNoop(s: string)
    requires |s| > 0 && !IsSpace(s[0]) && !IsSpace(s[|s| - 1])
    ensures RStrip(s) == s && LStrip(s) == s
  {
  }

  /** int(str(i)) == i for every integer. */
  lemma IntRoundTrip(i: int)
    ensures ParseInt(IntToStr(i)) == Some(i)
  {
    StripNoop(IntToStr(i));
    if i < 0 {
      NegativeRoundTrip(i);
    } else {
      ValueOfDigits(i);
    }
  }

  lemma NegativeRoundTrip(i: int)
    requires i < 0
    ensures ParseInt(IntToStr(i)) == Some(i)
  {
    var s := IntToStr(i);
    StripNoop(s);
    assert s[1..] == Digits(-i);
    ValueOfDigits(-i);
  }

  /** lstrip removes exactly the padding in front of a string that does not
      start with whitespace. */
  lemma LStripSpaces(n: nat, s: string)
    requires s == [] || !IsSpace(s[0])
    ensures LStrip(Spaces(n) + s) == s
  {
    var u := Spaces(n) + s;
    var r := LStrip(u);
    if s != [] {
      assert u[n] == s[0];
    }
    assert |r| >= |s|;
    if |r| > 0 {
      assert r[0] == u[|u| - |r|];
    }
    assert |r| <= |s|;
    assert u[n..] == s;
  }
}
