/** Text helpers shared by the writer and the reader: an Option type, decimal
    digit strings, zero padding, and the two-decimal rendering of an amount in
    cents together with a parser that reads such renderings back. */
module Text {

  /** A value that may be missing, used for partial parses. */
  datatype Option<+T> = None | Some(value: T)

  predicate IsDigit(c: char) {
    '0' <= c <= '9'
  }

  predicate AllDigits(s: string) {
    forall i | 0 <= i < |s| :: IsDigit(s[i])
  }

  function DigitValue(c: char): (d: nat)
    requires IsDigit(c)
    ensures d < 10
  {
    c as int - '0' as int
  }

  function DigitChar(d: nat): (c: char)
    requires d < 10
    ensures IsDigit(c) && DigitValue(c) == d
  {
    ('0' as int + d) as char
  }

  /** The number a string of decimal digits denotes, most significant digit
      first; the empty string denotes 0. */
  function DigitsValue(s: string): nat
    requires AllDigits(s)
  {
    if |s| == 0 then 0 else 10 * DigitsValue(s[..|s| - 1]) + DigitValue(s[|s| - 1])
  }

  /** The shortest decimal rendering of `n` (no leading zeros, "0" for 0). */
  function Decimal(n: nat): (s: string)
    ensures 1 <= |s| && AllDigits(s)
    ensures DigitsValue(s) == n
    ensures n < 10 <==> |s| == 1
  {
    if n < 10 then [DigitChar(n)]
    else
      var s := Decimal(n / 10) + [DigitChar(n % 10)];
      assert s[..|s| - 1] == Decimal(n / 10);
      s
  }

  function Zeros(k: nat): (z: string)
    ensures |z| == k && AllDigits(z)
    ensures forall i | 0 <= i < k :: z[i] == '0'
  {
    seq(k, _ => '0')
  }

  lemma {:induction false} ZerosValue(k: nat)
    ensures DigitsValue(Zeros(k)) == 0
  {
    if k > 0 {
      assert Zeros(k)[..k - 1] == Zeros(k - 1);
      ZerosValue(k - 1);
    }
  }

  /** Leading zeros do not change the value of a digit string. */
  lemma {:induction false} LeadingZeros(k: nat, s: string)
    requires AllDigits(s)
    ensures AllDigits(Zeros(k) + s)
    ensures DigitsValue(Zeros(k) + s) == DigitsValue(s)
    decreases |s|
  {
    var z := Zeros(k) + s;
    if |s| == 0 {
      assert z == Zeros(k);
      ZerosValue(k);
    } else {
      assert z[..|z| - 1] == Zeros(k) + s[..|s| - 1];
      LeadingZeros(k, s[..|s| - 1]);
    }
  }

  /** `s` left-padded with '0' to at least `width` characters, as a
      zero-filled minimum-width format does. */
  function PadLeft(s: string, width: nat): (p: string)
    ensures |p| == if |s| < width then width else |s|
  {
    if |s| < width then Zeros(width - |s|) + s else s
  }

  /** Padding keeps the digits of `s` at the end and does not change the
      number they denote. */
  lemma PadLeftValue(s: string, width: nat)
    requires AllDigits(s)
    ensures AllDigits(PadLeft(s, width))
    ensures DigitsValue(PadLeft(s, width)) == DigitsValue(s)
    ensures PadLeft(s, width)[|PadLeft(s, width)| - |s|..] == s
  {
    if |s| < width {
      LeadingZeros(width - |s|, s);
    }
  }

  /* ---- amounts in cents, rendered with two fraction digits ---- */

  function Abs(c: int): nat {
    if c < 0 then -c else c
  }

  function TwoDigits(r: nat): (s: string)
    requires r < 100
    ensures |s| == 2 && AllDigits(s)
  {
    [DigitChar(r / 10), DigitChar(r % 10)]
  }

  /** Renders a non-negative number of cents as digits, '.', two digits. */
  function FormatMagnitude(a: nat): string {
    Decimal(a / 100) + "." + TwoDigits(a % 100)
  }

  /** Renders `c` cents with a leading '-' when negative, e.g. 105000 as
      "1050.00" and -5 as "-0.05". */
  function FormatCents(c: int): string {
    (if c < 0 then "-" else "") + FormatMagnitude(Abs(c))
  }

  /** Index of the first '.' in `s`, or |s| when there is none. */
  function FirstDot(s: string): (k: nat)
    ensures k <= |s|
  {
    if |s| == 0 || s[0] == '.' then 0 else 1 + FirstDot(s[1..])
  }

  function FractionCents(f: string): (c: nat)
    requires AllDigits(f) && |f| <= 2
    ensures c < 100
  {
    if |f| == 0 then 0
    else if |f| == 1 then 10 * DigitValue(f[0])
    else 10 * DigitValue(f[0]) + DigitValue(f[1])
  }

  /** Unsigned decimal text: digits, optionally a '.' and at most two
      fraction digits, with at least one digit overall ("7", "7.", ".5",
      "12.34"). Anything else is rejected. */
  function ParseMagnitude(s: string): (r: Option<int>)
    ensures r.Some? ==> r.value >= 0
  {
    var k := FirstDot(s);
    ParseParts(s[..k], if k < |s| then s[k + 1..] else "")
  }

  /** The amount denoted by the digits before and after the point. */
  function ParseParts(whole: string, frac: string): (r: Option<int>)
    ensures r.Some? ==> r.value >= 0
  {
    if AllDigits(whole) && AllDigits(frac) && |frac| <= 2 && 1 <= |whole| + |frac| then
      Some(100 * DigitsValue(whole) + FractionCents(frac))
    else None
  }

  /** Reads decimal text with an optional sign as a number of cents; None
      when the text is not such a number ("NONE", "ERROR", "", "1.2.3"). */
  function ParseCents(s: string): (r: Option<int>)
    ensures |s| == 0 ==> r.None?
    ensures r.Some? && r.value < 0 ==> s[0] == '-'
  {
    if 1 <= |s| && (s[0] == '-' || s[0] == '+') then
      match ParseMagnitude(s[1..])
      case Some(m) => Some(if s[0] == '-' then -m else m)
      case None => None
    else ParseMagnitude(s)
  }

  /** A parser reads back the amounts the writer renders. */
  ghost predicate ReadsBack(parse: string -> Option<int>) {
    forall c :: parse(FormatCents(c)) == Some(c)
  }

  /** Digits, a point, and at most two fraction digits: the unsigned
      amount they denote. */
  lemma MagnitudePointed(w: string, f: string)
    requires 1 <= |w| && AllDigits(w) && AllDigits(f) && |f| <= 2
    ensures ParseMagnitude(w + "." + f) == Some(100 * DigitsValue(w) + FractionCents(f))
  {
    DotAfterDigits(w, f);
    PointedSlices(w, f);
    MagnitudeAt(w + "." + f, w, f);
  }

  /** Where the first point of `s` splits it into digits `w` and `f`, `s`
      denotes `w` whole units and `f` hundredths. */
  lemma MagnitudeAt(s: string, w: string, f: string)
    requires 1 <= |w| && AllDigits(w) && AllDigits(f) && |f| <= 2
    requires FirstDot(s) == |w| < |s| && s[..|w|] == w && s[|w| + 1..] == f
    ensures ParseMagnitude(s) == Some(100 * DigitsValue(w) + FractionCents(f))
  {
  }

  lemma PointedSlices(w: string, f: string)
    ensures |w + "." + f| == |w| + 1 + |f|
    ensures (w + "." + f)[..|w|] == w
    ensures (w + "." + f)[|w| + 1..] == f
  {
  }

  /** In digits, a point and more text, the first point follows the digits. */
  lemma {:induction false} DotAfterDigits(w: string, f: string)
    requires AllDigits(w)
    ensures FirstDot(w + "." + f) == |w|
    decreases |w|
  {
    if |w| > 0 {
      assert (w + "." + f)[1..] == w[1..] + "." + f;
      assert (w + "." + f)[0] == w[0];
      DotAfterDigits(w[1..], f);
    } else {
      assert w + "." + f == "." + f;
    }
  }

  /** The same text read with its (absent) sign. */
  lemma ParsePointed(w: string, f: string)
    requires 1 <= |w| && AllDigits(w) && AllDigits(f) && |f| <= 2
    ensures ParseCents(w + "." + f) == Some(100 * DigitsValue(w) + FractionCents(f))
  {
    MagnitudePointed(w, f);
    assert (w + "." + f)[0] == w[0];
  }

  lemma TwoDigitsValue(r: nat)
    requires r < 100
    ensures FractionCents(TwoDigits(r)) == r
  {
  }

  /** The unsigned part of a rendering starts with a digit and denotes the
      magnitude of the amount. */
  lemma MagnitudeOfRendering(a: nat)
    ensures ParseMagnitude(FormatMagnitude(a)) == Some(a)
    ensures 0 < |FormatMagnitude(a)| && IsDigit(FormatMagnitude(a)[0])
  {
    var q, r := a / 100, a % 100;
    var d, t := Decimal(q), TwoDigits(r);
    assert FormatMagnitude(a)[0] == d[0];
    TwoDigitsValue(r);
    MagnitudePointed(d, t);
    assert 100 * DigitsValue(d) + FractionCents(t) == 100 * q + r == a;
  }

  lemma ParseNegativeRendering(c: int)
    requires c < 0
    ensures ParseCents(FormatCents(c)) == Some(c)
  {
    var body := FormatMagnitude(Abs(c));
    MagnitudeOfRendering(Abs(c));
    assert ("-" + body)[0] == '-' && ("-" + body)[1..] == body;
  }

  lemma ParseNonNegativeRendering(c: int)
    requires c >= 0
    ensures ParseCents(FormatCents(c)) == Some(c)
  {
    MagnitudeOfRendering(c);
    assert FormatCents(c) == FormatMagnitude(c);
    UnsignedAt(FormatMagnitude(c));
  }

  /** Text that starts with a digit has no sign and reads as its magnitude. */
  lemma UnsignedAt(s: string)
    requires 0 < |s| && IsDigit(s[0])
    ensures ParseCents(s) == ParseMagnitude(s)
  {
  }

  /** Every rendered amount parses back to the same number of cents. */
  lemma FormatThenParse(c: int)
    ensures ParseCents(FormatCents(c)) == Some(c)
  {
    if c < 0 {
      ParseNegativeRendering(c);
    } else {
      ParseNonNegativeRendering(c);
    }
  }

  lemma ParseCentsReadsBack()
    ensures ReadsBack(ParseCents)
  {
    forall c: int
      ensures ParseCents(FormatCents(c)) == Some(c)
    {
      FormatThenParse(c);
    }
  }
}
