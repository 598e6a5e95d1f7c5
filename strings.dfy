/** The text conversions the handlers rely on: Go's strconv.Atoi, decimal formatting and strings.ToUpper. */
module Strings {
  import opened Wrappers
  import Int64

  predicate IsDigit(ch: char) {
    '0' <= ch <= '9'
  }

  predicate AllDigits(s: string) {
    forall i :: 0 <= i < |s| ==> IsDigit(s[i])
  }

  function DigitValue(ch: char): nat
    requires IsDigit(ch)
  {
    ch as int - '0' as int
  }

  function DigitChar(d: nat): (ch: char)
    requires d < 10
    ensures IsDigit(ch) && DigitValue(ch) == d
  {
    ('0' as int + d) as char
  }

  /** The number a string of decimal digits denotes, most significant digit first. */
  function DecimalValue(s: string): nat
    requires AllDigits(s)
  {
    if s == [] then 0 else DecimalValue(s[..|s| - 1]) * 10 + DigitValue(s[|s| - 1])
  }

  /** Decimal digits of n without leading zeros; zero is "0". */
  function FormatNat(n: nat): (r: string)
    ensures |r| >= 1 && AllDigits(r)
    ensures DecimalValue(r) == n
    ensures r[0] == '0' ==> r == "0"
  {
    if n < 10 then [DigitChar(n)]
    else
      var r := FormatNat(n / 10) + [DigitChar(n % 10)];
      assert r[..|r| - 1] == FormatNat(n / 10);
      r
  }

  /** strconv.Itoa: a minus sign for negative values, then the digits of the magnitude. */
  function FormatInt(n: int): (r: string)
    ensures |r| >= 1
    ensures n < 0 <==> r[0] == '-'
  {
    if n < 0 then "-" + FormatNat(-n) else FormatNat(n)
  }

  /**
   * strconv.Atoi on a 64-bit platform: an optional '+' or '-', then one or more
   * decimal digits, denoting a value in the int64 range. Anything else is an error.
   */
  function Atoi(s: string): (r: Option<int>)
    ensures r.Some? ==> Int64.InRange(r.value)
    ensures r.Some? ==> |s| >= 1
  {
    if |s| == 0 then None
    else
      var digits := if s[0] == '+' || s[0] == '-' then s[1..] else s;
      if |digits| == 0 || !AllDigits(digits) then None
      else
        var v: int := if s[0] == '-' then 0 - (DecimalValue(digits) as int) else DecimalValue(digits);
        if Int64.InRange(v) then Some(v) else None
  }

  /** Atoi parses back every int64 FormatInt writes. */
  lemma AtoiFormatInt(n: int)
    requires Int64.InRange(n)
    ensures Atoi(FormatInt(n)) == Some(n)
  {
    var s := FormatInt(n);
    if n < 0 {
      assert s[1..] == FormatNat(-n);
    } else {
      assert IsDigit(s[0]);
    }
  }

  /** Atoi rejects every string that is not a sign followed by digits. */
  lemma AtoiRejectsNonDigit(s: string, i: int)
    requires 0 <= i < |s| && !IsDigit(s[i])
    requires i > 0 || (s[0] != '+' && s[0] != '-')
    ensures Atoi(s) == None
  {
    if s[0] == '+' || s[0] == '-' {
      assert !IsDigit(s[1..][i - 1]);
    }
  }

  /** Go's unicode.ToUpper as far as it can yield an ASCII letter. */
  function UpperChar(ch: char): (r: char)
    ensures 'a' <= ch <= 'z' ==> r as int == ch as int - 32
    ensures ch == '\U{017F}' ==> r == 'S'
    ensures ch == '\U{0131}' ==> r == 'I'
    ensures !('a' <= ch <= 'z') && ch != '\U{017F}' && ch != '\U{0131}' ==> r == ch
    ensures 'A' <= r <= 'Z' <==> 'A' <= ch <= 'Z' || 'a' <= ch <= 'z' || ch == '\U{017F}' || ch == '\U{0131}'
  {
    if 'a' <= ch <= 'z' then (ch as int - 32) as char
    else if ch == '\U{017F}' then 'S'  // LATIN SMALL LETTER LONG S
    else if ch == '\U{0131}' then 'I'  // LATIN SMALL LETTER DOTLESS I
    else ch
  }

  /** strings.ToUpper, character by character. */
  function ToUpper(s: string): (r: string)
    ensures |r| == |s|
    ensures forall i :: 0 <= i < |s| ==> r[i] == UpperChar(s[i])
  {
    if s == [] then [] else [UpperChar(s[0])] + ToUpper(s[1..])
  }
}
