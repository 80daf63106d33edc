/**
 Decimal text of an integer, as JavaScript's `Number.prototype.toString()`
 renders an integral clock reading: an optional '-' followed by the decimal
 digits, most significant first, with no leading zero.

 The photos slice derives a post's `id` from a clock reading this way; the
 round trip `ParseNumber(NumberToString(n)) == n` shows that distinct readings
 give distinct ids.
 */
module NumberText {

  predicate IsDigit(c: char) {
    '0' <= c <= '9'
  }

  predicate AllDigits(s: string) {
    forall i :: 0 <= i < |s| ==> IsDigit(s[i])
  }

  /** A digit string as `toString` produces it: non-empty, no leading zero. */
  predicate IsCanonicalDecimal(s: string) {
    |s| >= 1 && AllDigits(s) && (|s| > 1 ==> s[0] != '0')
  }

  /** The text `toString` produces for some integer. */
  predicate IsNumberText(s: string) {
    IsCanonicalDecimal(s) || (|s| >= 2 && s[0] == '-' && IsCanonicalDecimal(s[1..]) && s[1..] != "0")
  }

  function DigitChar(d: nat): (c: char)
    requires d < 10
    ensures IsDigit(c) && c as int - '0' as int == d
  {
    (d + '0' as int) as char
  }

  function DigitValue(c: char): (d: nat)
    requires IsDigit(c)
    ensures d < 10 && DigitChar(d) == c
  {
    c as int - '0' as int
  }

  /** The digits of `n`, most significant first. */
  function Decimal(n: nat): (s: string)
    ensures IsCanonicalDecimal(s)
    ensures n == 0 <==> s == "0"
  {
    if n < 10 then [DigitChar(n)] else Decimal(n / 10) + [DigitChar(n % 10)]
  }

  /** The value of a digit string, read most significant digit first. */
  function ParseDecimal(s: string): nat
    requires AllDigits(s)
  {
    if s == [] then 0 else ParseDecimal(s[..|s| - 1]) * 10 + DigitValue(s[|s| - 1])
  }

  /**
   `Number.prototype.toString()` on an integral value: a '-' exactly for a
   negative value, then canonical digits.
   */
  function NumberToString(n: int): (s: string)
    ensures IsNumberText(s)
    ensures s[0] == '-' <==> n < 0
  {
    if n < 0 then
      var digits := Decimal(-n);
      assert ("-" + digits)[1..] == digits;
      "-" + digits
    else Decimal(n)
  }

  function ParseNumber(s: string): int
    requires IsNumberText(s)
  {
    if s[0] == '-' then -(ParseDecimal(s[1..]) as int) else ParseDecimal(s)
  }

  lemma {:induction false} ParseDecimalOfDecimal(n: nat)
    ensures ParseDecimal(Decimal(n)) == n
  {
    var s := Decimal(n);
    if n >= 10 {
      ParseDecimalOfDecimal(n / 10);
      assert s[..|s| - 1] == Decimal(n / 10);
    }
  }

  /** A canonical digit string of two or more digits stands for at least 10. */
  lemma {:induction false} ParseDecimalLowerBound(s: string)
    requires IsCanonicalDecimal(s)
    ensures s[0] != '0' ==> ParseDecimal(s) >= 1
    ensures |s| > 1 ==> ParseDecimal(s) >= 10
  {
    if |s| > 1 {
      var p := s[..|s| - 1];
      assert p[0] == s[0];
      ParseDecimalLowerBound(p);
    }
  }

  lemma {:induction false} DecimalOfParseDecimal(s: string)
    requires IsCanonicalDecimal(s)
    ensures Decimal(ParseDecimal(s)) == s
  {
    if |s| > 1 {
      var p := s[..|s| - 1];
      assert p[0] == s[0];
      ParseDecimalLowerBound(p);
      DecimalOfParseDecimal(p);
      var n := ParseDecimal(s);
      assert n / 10 == ParseDecimal(p) && n % 10 == DigitValue(s[|s| - 1]);
      assert s == p + [s[|s| - 1]];
    }
  }

  /** Parsing undoes rendering: every integer is recovered from its text. */
  lemma ParseNumberOfNumberToString(n: int)
    ensures IsNumberText(NumberToString(n))
    ensures ParseNumber(NumberToString(n)) == n
  {
    var s := NumberToString(n);
    if n < 0 {
      assert s[1..] == Decimal(-n);
      ParseDecimalOfDecimal(-n);
    } else {
      ParseDecimalOfDecimal(n);
    }
  }

  /** Rendering undoes parsing: every number text is the rendering of its value. */
  lemma NumberToStringOfParseNumber(s: string)
    requires IsNumberText(s)
    ensures NumberToString(ParseNumber(s)) == s
  {
    if s[0] == '-' {
      DecimalOfParseDecimal(s[1..]);
      ParseDecimalLowerBound(s[1..]);
      assert s == "-" + s[1..];
    } else {
      DecimalOfParseDecimal(s);
    }
  }

  /** Distinct clock readings render as distinct texts. */
  lemma NumberToStringInjective(a: int, b: int)
    ensures NumberToString(a) == NumberToString(b) <==> a == b
  {
    ParseNumberOfNumberToString(a);
    ParseNumberOfNumberToString(b);
  }
}
