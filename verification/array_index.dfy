/**
  Which names are array indices. The builder takes its index parser as a
  parameter; this module gives the one ECMAScript prescribes (an array index is
  an integer from 0 to 2^32 - 2, written in canonical decimal: digits only, no
  sign, no leading zero except "0" itself), and proves it is the exact inverse
  of decimal printing, so two different names never parse to the same index.
 */
module ArrayIndex {
  import opened Environment

  /** The largest array index, 2^32 - 2. */
  const MaxArrayIndex: nat := 0xFFFF_FFFE

  /** An array index. A larger number is no index: as a property key it is
      the name spelled by its decimal text. */
  type ArrayIdx = i: nat | i <= MaxArrayIndex

  predicate IsDigit(c: char)
  {
    '0' <= c <= '9'
  }

  predicate AllDigits(s: string)
  {
    forall k :: 0 <= k < |s| ==> IsDigit(s[k])
  }

  /** Canonical decimal: non-empty, digits only, and no leading zero unless the
      whole text is "0". */
  predicate Canonical(s: string)
  {
    |s| > 0 && AllDigits(s) && (s[0] == '0' ==> |s| == 1)
  }

  function DigitValue(c: char): nat
    requires IsDigit(c)
  {
    c as int - '0' as int
  }

  function DigitChar(d: nat): char
    requires d < 10
  {
    ('0' as int + d) as char
  }

  /** The number a string of digits denotes. */
  function DecimalValue(s: string): nat
    requires AllDigits(s)
  {
    if |s| == 0 then 0
    else DecimalValue(s[..|s| - 1]) * 10 + DigitValue(s[|s| - 1])
  }

  /** Decimal printing. */
  function ToDecimal(i: nat): (s: string)
    ensures Canonical(s)
    ensures i < 10 <==> |s| == 1
  {
    if i < 10 then [DigitChar(i)]
    else ToDecimal(i / 10) + [DigitChar(i % 10)]
  }

  /** The array index a name denotes, if any. */
  function ParseArrayIndex(s: string): (r: Option<ArrayIdx>)
    ensures r.Some? ==> r.value <= MaxArrayIndex && |s| > 0 && IsDigit(s[0])
  {
    if Canonical(s) && DecimalValue(s) <= MaxArrayIndex then Some(DecimalValue(s)) else None
  }

  /** Printing then reading a number gives it back. */
  lemma {:induction false} DecimalOfToDecimal(i: nat)
    ensures DecimalValue(ToDecimal(i)) == i
  {
    var s := ToDecimal(i);
    if i >= 10 {
      DecimalOfToDecimal(i / 10);
      assert s[..|s| - 1] == ToDecimal(i / 10);
    }
  }

  /** A canonical text with a non-zero first digit denotes a positive number. */
  lemma {:induction false} LeadingDigitPositive(s: string)
    requires |s| > 0 && AllDigits(s) && s[0] != '0'
    ensures DecimalValue(s) >= 1
  {
    if |s| > 1 {
      LeadingDigitPositive(s[..|s| - 1]);
    }
  }

  /** Reading then printing canonical text gives it back. */
  lemma {:induction false} ToDecimalOfDecimal(s: string)
    requires Canonical(s)
    ensures ToDecimal(DecimalValue(s)) == s
  {
    if |s| > 1 {
      var p := s[..|s| - 1];
      assert Canonical(p);
      LeadingDigitPositive(p);
      ToDecimalOfDecimal(p);
      assert s == p + [s[|s| - 1]];
    }
  }

  /** Every array index is the parse of its decimal text. */
  lemma ParseToDecimal(i: nat)
    requires i <= MaxArrayIndex
    ensures ParseArrayIndex(ToDecimal(i)) == Some(i)
  {
    DecimalOfToDecimal(i);
  }

  /** A name that parses is the decimal text of its index. */
  lemma ParsedIsCanonical(s: string)
    requires ParseArrayIndex(s).Some?
    ensures s == ToDecimal(ParseArrayIndex(s).value)
  {
    ToDecimalOfDecimal(s);
  }

  /** Two different names never denote the same array index. */
  lemma ParseArrayIndexInjective(a: string, b: string)
    requires ParseArrayIndex(a).Some? && ParseArrayIndex(a) == ParseArrayIndex(b)
    ensures a == b
  {
    ParsedIsCanonical(a);
    ParsedIsCanonical(b);
  }
}
