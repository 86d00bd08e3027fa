/** The parts of java.lang.String, Character and Integer that the score
    board relies on: blank names, case-insensitive comparison and the
    decimal rendering of an int. */
module JavaText {

  /** Character.isWhitespace: the ASCII controls TAB to CR and FS to US,
      and the Unicode space, line and paragraph separators other than the
      three non-breaking spaces (U+00A0, U+2007, U+202F). */
  predicate IsWhitespace(c: char)
  {
    || ('\t' <= c <= '\r')
    || ('\U{1C}' <= c <= ' ')
    || c == '\U{1680}'
    || ('\U{2000}' <= c <= '\U{2006}')
    || ('\U{2008}' <= c <= '\U{200A}')
    || c == '\U{2028}' || c == '\U{2029}'
    || c == '\U{205F}' || c == '\U{3000}'
  }

  /** String.isBlank: empty or white space only. */
  predicate IsBlank(s: string): (r: bool)
    ensures s == [] ==> r
    ensures |s| > 0 && !IsWhitespace(s[0]) ==> !r
    ensures r ==> forall c :: c in s ==> IsWhitespace(c)
  {
    forall i :: 0 <= i < |s| ==> IsWhitespace(s[i])
  }

  /** The case folding used by equalsIgnoreCase, restricted to ASCII letters. */
  function Fold(c: char): char
  {
    if 'A' <= c <= 'Z' then (c as int + 32) as char else c
  }

  /** String.equalsIgnoreCase: same length, and equal character by
      character after folding. */
  predicate EqualsIgnoreCase(a: string, b: string): (r: bool)
    ensures a == b ==> r
    ensures r ==> |a| == |b|
  {
    |a| == |b| && forall i :: 0 <= i < |a| ==> Fold(a[i]) == Fold(b[i])
  }

  /** A string with every character folded. */
  function FoldString(s: string): (r: string)
    ensures |r| == |s|
    ensures forall i :: 0 <= i < |s| ==> r[i] == Fold(s[i])
  {
    if s == [] then [] else [Fold(s[0])] + FoldString(s[1..])
  }

  /** Two names are equal ignoring case exactly when their folded forms are
      the same string. */
  lemma EqualsIgnoreCaseIsFoldedEquality(a: string, b: string)
    ensures EqualsIgnoreCase(a, b) <==> FoldString(a) == FoldString(b)
  {
    if FoldString(a) == FoldString(b) {
      forall i | 0 <= i < |a|
        ensures Fold(a[i]) == Fold(b[i])
      {
        assert FoldString(a)[i] == FoldString(b)[i];
      }
    }
  }

  predicate IsDigit(c: char)
  {
    '0' <= c <= '9'
  }

  predicate AllDigits(s: string)
  {
    forall i :: 0 <= i < |s| ==> IsDigit(s[i])
  }

  /** The text Integer.toString produces: an optional minus sign, then at
      least one digit. */
  predicate IsDecimal(s: string)
  {
    if |s| > 0 && s[0] == '-' then |s| > 1 && AllDigits(s[1..]) else |s| > 0 && AllDigits(s)
  }

  function DigitChar(d: nat): (c: char)
    requires d < 10
    ensures IsDigit(c)
  {
    ('0' as int + d) as char
  }

  function DigitValue(c: char): (d: nat)
    requires IsDigit(c)
    ensures d < 10
  {
    c as int - '0' as int
  }

  /** The decimal digits of a natural number, most significant first. */
  function NatToString(n: nat): (s: string)
    ensures |s| > 0 && AllDigits(s)
    decreases n
  {
    if n < 10 then [DigitChar(n)] else NatToString(n / 10) + [DigitChar(n % 10)]
  }

  /** Integer.toString, the text an int becomes in string concatenation. */
  function IntToString(n: int): (s: string)
    ensures IsDecimal(s)
  {
    if n < 0 then "-" + NatToString(-n) else NatToString(n)
  }

  /** Reads a string of digits back as a number. */
  function ParseNat(s: string): nat
    requires AllDigits(s)
  {
    if s == [] then 0 else ParseNat(s[..|s| - 1]) * 10 + DigitValue(s[|s| - 1])
  }

  /** Reads the text of an int back (Integer.parseInt without a range check). */
  function ParseInt(s: string): int
    requires IsDecimal(s)
  {
    if s[0] == '-' then 0 - ParseNat(s[1..]) as int else ParseNat(s)
  }

  lemma {:induction false} NatToStringRoundTrip(n: nat)
    ensures ParseNat(NatToString(n)) == n
    decreases n
  {
    if n >= 10 {
      var s := NatToString(n);
      assert s[..|s| - 1] == NatToString(n / 10);
      NatToStringRoundTrip(n / 10);
    }
  }

  /** Reading back the text of any int gives that int. */
  lemma IntToStringRoundTrip(n: int)
    ensures ParseInt(IntToString(n)) == n
  {
    if n < 0 {
      NatToStringRoundTrip(-n);
      assert IntToString(n)[1..] == NatToString(-n);
    } else {
      NatToStringRoundTrip(n);
    }
  }
}
