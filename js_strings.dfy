/**
 * JavaScript strings: sequences of UTF-16 code units. Lengths, indices and
 * `substring` in JavaScript count code units, not Unicode scalar values, so
 * the model does the same.
 */
module JsStrings {

  newtype CodeUnit = x: int | 0 <= x < 0x1_0000

  type JsString = seq<CodeUnit>

  const Newline: CodeUnit := 10

  /**
   * The UTF-16 code units of a string whose characters lie in the Basic
   * Multilingual Plane: one per character, with the same value. Every
   * literal of the model is such a string; a character beyond the plane,
   * which would take two code units, is not used and is shown as U+FFFD.
   */
  function Bmp(s: string): (r: JsString)
    ensures |r| == |s|
    ensures forall i :: 0 <= i < |s| && s[i] as int < 0x1_0000 ==> r[i] as int == s[i] as int
  {
    seq(|s|, i requires 0 <= i < |s| => if s[i] as int < 0x1_0000 then s[i] as int as CodeUnit else 0xFFFD)
  }

  /** A string without a line feed gives code units without one. */
  lemma BmpWithoutNewline(s: string)
    requires '\n' !in s
    ensures Newline !in Bmp(s)
  {
    forall i | 0 <= i < |s| ensures Bmp(s)[i] != Newline {
      assert s[i] != '\n';
    }
  }

  // ---------------------------------------------------------------------
  // Decimal numerals, as `${n}` writes a non-negative integer Number.

  predicate IsDigit(u: CodeUnit) {
    '0' as int <= u as int <= '9' as int
  }

  predicate AllDigits(s: JsString) {
    forall i :: 0 <= i < |s| ==> IsDigit(s[i])
  }

  /** Digits with no superfluous leading zero: the form `${n}` produces. */
  predicate IsCanonicalDecimal(s: JsString) {
    |s| >= 1 && AllDigits(s) && (|s| > 1 ==> s[0] != '0' as int as CodeUnit)
  }

  function DigitUnit(d: nat): CodeUnit
    requires d < 10
  {
    ('0' as int + d) as CodeUnit
  }

  /**
   * The decimal numeral of `n`: what `String(n)` gives for n < 10^21, beyond
   * which JavaScript switches to exponent form.
   */
  function DecimalString(n: nat): (r: JsString)
    ensures IsCanonicalDecimal(r)
    decreases n
  {
    if n < 10 then [DigitUnit(n)] else DecimalString(n / 10) + [DigitUnit(n % 10)]
  }

  /** The number a string of digits denotes. */
  function DecimalValue(s: JsString): nat
    requires AllDigits(s)
  {
    if s == [] then 0
    else DecimalValue(s[..|s| - 1]) * 10 + (s[|s| - 1] as int - '0' as int)
  }

  /** Reading back a rendered numeral gives the number. */
  lemma {:induction false} DecimalValueOfString(n: nat)
    ensures DecimalValue(DecimalString(n)) == n
    decreases n
  {
    if n >= 10 {
      var s := DecimalString(n);
      assert s[..|s| - 1] == DecimalString(n / 10);
      DecimalValueOfString(n / 10);
    }
  }

  /** Rendering the value of a canonical numeral gives the numeral back. */
  lemma {:induction false} DecimalStringOfValue(s: JsString)
    requires IsCanonicalDecimal(s)
    ensures DecimalString(DecimalValue(s)) == s
    decreases |s|
  {
    var n := DecimalValue(s);
    if |s| == 1 {
      assert s[..0] == [] && DecimalValue(s[..0]) == 0;
      assert n < 10 && s == [DigitUnit(n)];
    } else {
      var front := s[..|s| - 1];
      assert front[0] == s[0];
      assert IsCanonicalDecimal(front);
      DecimalStringOfValue(front);
      NonZeroLeadingDigit(front);
      assert n / 10 == DecimalValue(front) && n % 10 == s[|s| - 1] as int - '0' as int;
      assert DecimalString(n) == DecimalString(n / 10) + [DigitUnit(n % 10)];
    }
  }

  /** Digits led by a non-zero digit denote a positive number. */
  lemma {:induction false} NonZeroLeadingDigit(s: JsString)
    requires |s| >= 1 && AllDigits(s) && s[0] != '0' as int as CodeUnit
    ensures DecimalValue(s) >= 1
    decreases |s|
  {
    if |s| > 1 {
      var front := s[..|s| - 1];
      assert front[0] == s[0];
      NonZeroLeadingDigit(front);
    } else {
      assert s[..0] == [];
    }
  }

  /** Two canonical numerals with the same value are the same string. */
  lemma CanonicalDecimalInjective(s: JsString, t: JsString)
    requires IsCanonicalDecimal(s) && IsCanonicalDecimal(t)
    requires DecimalValue(s) == DecimalValue(t)
    ensures s == t
  {
    DecimalStringOfValue(s);
    DecimalStringOfValue(t);
  }

  // ---------------------------------------------------------------------
  // Array.prototype.join and String.prototype.split with a one-unit separator.

  /** `parts.join(sep)`: the parts with `sep` between neighbours. */
  function Join(parts: seq<JsString>, sep: JsString): JsString
  {
    if |parts| == 0 then []
    else if |parts| == 1 then parts[0]
    else parts[0] + sep + Join(parts[1..], sep)
  }

  /** `s.split(sep)` for a separator of one code unit. */
  function Split(s: JsString, sep: CodeUnit): (r: seq<JsString>)
    ensures |r| >= 1
    decreases |s|
  {
    if |s| == 0 then [[]]
    else if s[0] == sep then [[]] + Split(s[1..], sep)
    else
      var rest := Split(s[1..], sep);
      [[s[0]] + rest[0]] + rest[1..]
  }

  lemma {:induction false} SplitWithout(s: JsString, sep: CodeUnit)
    requires sep !in s
    ensures Split(s, sep) == [s]
    decreases |s|
  {
    if |s| > 0 {
      SplitWithout(s[1..], sep);
      assert [s[0]] + s[1..] == s;
    }
  }

  lemma {:induction false} SplitAfter(a: JsString, sep: CodeUnit, b: JsString)
    requires sep !in a
    ensures Split(a + [sep] + b, sep) == [a] + Split(b, sep)
    decreases |a|
  {
    var s := a + [sep] + b;
    if |a| == 0 {
      assert s[0] == sep && s[1..] == b;
    } else {
      assert s[0] == a[0] && s[1..] == a[1..] + [sep] + b;
      SplitAfter(a[1..], sep, b);
      assert [a[0]] + a[1..] == a;
    }
  }

  /** Splitting a join on its separator gives the parts back, when no part contains it. */
  lemma {:induction false} SplitJoin(parts: seq<JsString>, sep: CodeUnit)
    requires |parts| >= 1
    requires forall i :: 0 <= i < |parts| ==> sep !in parts[i]
    ensures Split(Join(parts, [sep]), sep) == parts
    decreases |parts|
  {
    if |parts| == 1 {
      SplitWithout(parts[0], sep);
    } else {
      SplitJoin(parts[1..], sep);
      SplitAfter(parts[0], sep, Join(parts[1..], [sep]));
      assert [parts[0]] + parts[1..] == parts;
    }
  }
}
