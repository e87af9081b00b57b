// Character classes and case mapping, for ASCII text.
module Text {
  /** `str.strip()` without arguments, over ASCII. */
  const WHITE_SPACE: set<char> :=
    {'\t', '\n', '\U{B}', '\U{C}', '\r', '\U{1C}', '\U{1D}', '\U{1E}', '\U{1F}', ' '}

  /** The argument of `strip(". \t\r\n")`. */
  const DOTS_AND_BLANKS: set<char> := {'.', ' ', '\t', '\r', '\n'}

  function LowerChar(c: char): char {
    if 'A' <= c <= 'Z' then ((c as int) + 32) as char else c
  }

  function Lower(s: string): (r: string)
    ensures |r| == |s|
    ensures forall i :: 0 <= i < |s| ==> r[i] == LowerChar(s[i])
  {
    seq(|s|, i requires 0 <= i < |s| => LowerChar(s[i]))
  }

  predicate IsLower(s: string) {
    forall i :: 0 <= i < |s| ==> !('A' <= s[i] <= 'Z')
  }

  predicate IsAscii(s: string) {
    forall i :: 0 <= i < |s| ==> (s[i] as int) < 128
  }

  predicate IsDigit(c: char) {
    '0' <= c <= '9'
  }

  /** `str.isdigit()`, over ASCII. */
  predicate AllDigits(s: string) {
    s != [] && forall i :: 0 <= i < |s| ==> IsDigit(s[i])
  }

  /** A hexadecimal digit. */
  function Digit(n: nat): (c: char)
    requires n < 16
    ensures n < 10 ==> IsDigit(c)
  {
    if n < 10 then ('0' as int + n) as char else ('a' as int + n - 10) as char
  }

  /** `str(n)` */
  function Decimal(n: nat): (s: string)
    ensures AllDigits(s)
  {
    if n < 10 then [Digit(n)] else Decimal(n / 10) + [Digit(n % 10)]
  }

  lemma LowerIdentity(s: string)
    ensures Lower(s) == s <==> IsLower(s)
    ensures IsLower(Lower(s))
  {
  }

  lemma CharsOfConcat(a: string, b: string)
    ensures IsLower(a + b) <==> IsLower(a) && IsLower(b)
    ensures IsAscii(a + b) <==> IsAscii(a) && IsAscii(b)
  {
    assert forall i :: 0 <= i < |b| ==> (a + b)[|a| + i] == b[i];
    assert forall i :: 0 <= i < |a| ==> (a + b)[i] == a[i];
  }
}
