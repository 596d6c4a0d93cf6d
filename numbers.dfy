/**
 * Numbers as the TypeScript code meets them: the text `Number(…)` reads,
 * `Number.isInteger`, `Math.floor`, and the decimal text a template literal
 * writes for an integer.
 *
 * A parsed number is kept exactly, as a decimal `mantissa / 10^scale`, so
 * there is no floating-point rounding in the model.
 */
module Numbers {
  import opened Results
  import Text

  function Pow10(n: nat): (r: nat)
    ensures r >= 1
  {
    if n == 0 then 1 else 10 * Pow10(n - 1)
  }

  /** The number `mantissa / 10^scale`. */
  datatype Decimal = Decimal(mantissa: int, scale: nat) {
    /** `x < 0` (so that `-0` is not negative, as in JavaScript). */
    predicate IsNegative() {
      mantissa < 0
    }

    /** `Number.isInteger(x)`. */
    predicate IsInteger() {
      mantissa % Pow10(scale) == 0
    }

    /** `Math.floor(x)`: the greatest integer not above the number. */
    function Floor(): (f: int)
      ensures f * Pow10(scale) <= mantissa < f * Pow10(scale) + Pow10(scale)
      ensures !IsNegative() ==> f >= 0
      ensures IsInteger() ==> f * Pow10(scale) == mantissa
    {
      DivFloor(mantissa, Pow10(scale));
      mantissa / Pow10(scale)
    }
  }

  /**
   * `Number.isInteger(x)` holds exactly when `x` equals `Math.floor(x)`,
   * and `x < 0` exactly when `Math.floor(x) < 0`.
   */
  lemma IntegerAndSign(d: Decimal)
    ensures d.IsInteger() <==> d.Floor() * Pow10(d.scale) == d.mantissa
    ensures d.IsNegative() <==> d.Floor() < 0
  {
    var p := Pow10(d.scale);
    assert d.mantissa == (d.mantissa / p) * p + d.mantissa % p;
  }

  lemma DivFloor(m: int, p: int)
    requires p >= 1
    ensures (m / p) * p <= m < (m / p) * p + p
    ensures m >= 0 ==> m / p >= 0
    ensures m % p == 0 ==> (m / p) * p == m
  {
    assert m == (m / p) * p + m % p;
  }

  predicate IsDigit(c: char) {
    '0' <= c <= '9'
  }

  predicate AllDigits(s: string) {
    forall i :: 0 <= i < |s| ==> IsDigit(s[i])
  }

  function DigitValue(c: char): (d: nat)
    requires IsDigit(c)
    ensures d < 10
  {
    c as int - '0' as int
  }

  function DigitChar(d: nat): (c: char)
    requires d < 10
    ensures IsDigit(c) && DigitValue(c) == d
  {
    "0123456789"[d]
  }

  /** The value of a string of decimal digits, most significant first. */
  function DigitsValue(s: string): nat
    requires AllDigits(s)
  {
    if |s| == 0 then 0 else 10 * DigitsValue(s[..|s| - 1]) + DigitValue(s[|s| - 1])
  }

  /** The longest prefix of `s` made of digits. */
  function LeadingDigits(s: string): (r: string)
    ensures |r| <= |s| && r == s[..|r|] && AllDigits(r)
    ensures |r| < |s| ==> !IsDigit(s[|r|])
  {
    if |s| > 0 && IsDigit(s[0]) then
      var r := [s[0]] + LeadingDigits(s[1..]);
      assert r[1..] == LeadingDigits(s[1..]);
      r
    else []
  }

  /**
   * An unsigned decimal literal: digits, optionally a point and more digits,
   * with at least one digit in all (`12`, `12.5`, `12.`, `.5`).
   */
  function ParseUnsigned(s: string): (r: Option<Decimal>)
    ensures r.Some? ==> r.value.mantissa >= 0
  {
    var whole := LeadingDigits(s);
    var rest := s[|whole|..];
    if rest == [] then
      if whole == [] then None else Some(Decimal(DigitsValue(whole), 0))
    else if rest[0] == '.' && AllDigits(rest[1..]) && |whole| + |rest| > 1 then
      Some(Decimal(DigitsValue(whole + rest[1..]), |rest| - 1))
    else None
  }

  /**
   * `Number(s)` on decimal text: surrounding whitespace is ignored, empty
   * text is 0, then an optional sign and an unsigned decimal literal.
   * Everything else is `NaN`, written `None`.
   */
  function ParseNumber(s: string): Option<Decimal> {
    ParseSigned(Text.Trim(s))
  }

  /** Trimmed text as `Number` reads it: empty is 0, else an optional sign and an unsigned literal. */
  function ParseSigned(t: string): Option<Decimal> {
    if t == [] then Some(Decimal(0, 0))
    else if t[0] == '+' then ParseUnsigned(t[1..])
    else if t[0] == '-' then
      match ParseUnsigned(t[1..])
      case None => None
      case Some(d) => Some(Decimal(-d.mantissa, d.scale))
    else ParseUnsigned(t)
  }

  /** The decimal digits of `n`, without leading zeros. */
  function NatToString(n: nat): (s: string)
    ensures |s| >= 1 && AllDigits(s)
  {
    if n < 10 then [DigitChar(n)] else NatToString(n / 10) + [DigitChar(n % 10)]
  }

  /** `${n}` for an integer `n`: a minus sign for negative values, then the digits. */
  function IntToString(n: int): (s: string)
    ensures |s| >= 1
    ensures forall i :: 0 <= i < |s| ==> IsDigit(s[i]) || s[i] == '-'
    ensures n < 0 <==> s[0] == '-'
  {
    if n < 0 then "-" + NatToString(-n) else NatToString(n)
  }

  lemma {:induction false} DigitsValueOfNatToString(n: nat)
    ensures DigitsValue(NatToString(n)) == n
  {
    var s := NatToString(n);
    if n >= 10 {
      DigitsValueOfNatToString(n / 10);
      assert s[..|s| - 1] == NatToString(n / 10);
    }
  }

  lemma {:induction false} LeadingDigitsOfDigits(s: string)
    requires AllDigits(s)
    ensures LeadingDigits(s) == s
  {
    if |s| > 0 {
      LeadingDigitsOfDigits(s[1..]);
      assert [s[0]] + s[1..] == s;
    }
  }

  lemma ParseUnsignedDigits(s: string)
    requires |s| >= 1 && AllDigits(s)
    ensures ParseUnsigned(s) == Some(Decimal(DigitsValue(s), 0))
  {
    LeadingDigitsOfDigits(s);
  }

  /** On text with nothing to trim, `Number` is the signed-literal reading. */
  lemma ParseNumberUntrimmed(t: string)
    requires Text.Trim(t) == t
    ensures ParseNumber(t) == ParseSigned(t)
  {
  }

  /** `Number` reads a digit string as its value. */
  lemma ParseNumberDigits(s: string)
    requires |s| >= 1 && AllDigits(s)
    ensures ParseNumber(s) == Some(Decimal(DigitsValue(s), 0))
  {
    assert IsDigit(s[0]) && IsDigit(s[|s| - 1]);
    Text.TrimUnpadded(s);
    ParseUnsignedDigits(s);
  }

  /** `Number` reads a digit string behind a `+` or `-` as that value or its negation. */
  lemma ParseNumberSignedDigits(t: string, s: string)
    requires |s| >= 1 && AllDigits(s)
    requires t == "-" + s || t == "+" + s
    ensures ParseNumber(t) == Some(Decimal(if t[0] == '-' then -(DigitsValue(s) as int) else DigitsValue(s), 0))
  {
    SignedDigitsUntrimmed(t, s);
    ParseNumberUntrimmed(t);
    ParseSignedDigits(t, s);
  }

  lemma SignedDigitsUntrimmed(t: string, s: string)
    requires |s| >= 1 && AllDigits(s)
    requires t == "-" + s || t == "+" + s
    ensures Text.Trim(t) == t
  {
    assert t[|t| - 1] == s[|s| - 1];
    assert IsDigit(s[|s| - 1]);
    Text.TrimUnpadded(t);
  }

  lemma ParseSignedDigits(t: string, s: string)
    requires |s| >= 1 && AllDigits(s)
    requires t == "-" + s || t == "+" + s
    ensures ParseSigned(t) == Some(Decimal(if t[0] == '-' then -(DigitsValue(s) as int) else DigitsValue(s), 0))
  {
    SignedBody(t, s);
    var d := Decimal(DigitsValue(s), 0);
    assert ParseUnsigned(t[1..]) == Some(d) by {
      ParseUnsignedDigits(s);
    }
    if t[0] == '-' {
      assert ParseSigned(t) == Some(Decimal(-d.mantissa, 0));
    } else {
      assert ParseSigned(t) == Some(d);
    }
  }

  lemma SignedBody(t: string, s: string)
    requires t == "-" + s || t == "+" + s
    ensures |t| >= 1 && (t[0] == '-' || t[0] == '+') && t[1..] == s
  {
  }

  /** `Number` reads a one-digit fraction `a.b` as the decimal `(10a + b) / 10`. */
  lemma ParseOneDecimal(s: string)
    requires |s| == 3 && IsDigit(s[0]) && s[1] == '.' && IsDigit(s[2])
    ensures ParseNumber(s) == Some(Decimal(10 * DigitValue(s[0]) + DigitValue(s[2]), 1))
  {
    Text.TrimUnpadded(s);
    assert LeadingDigits(s) == [s[0]] by {
      assert LeadingDigits(s[1..]) == [];
    }
    assert s[1..][1..] == [s[2]];
    var digits := [s[0]] + [s[2]];
    assert DigitsValue(digits) == 10 * DigitValue(s[0]) + DigitValue(s[2]) by {
      assert digits[..1] == [s[0]] && digits[1] == s[2];
      assert DigitsValue([s[0]]) == DigitValue(s[0]) by {
        assert [s[0]][..0] == [];
      }
    }
  }

  /**
   * Text that starts with a lower-case letter is not a number: `Number`
   * reads it as `NaN`. (No decimal literal, and no `Infinity`, starts so.)
   */
  lemma LowerLetterIsNaN(s: string)
    requires |s| > 0 && 'a' <= s[0] <= 'z'
    ensures ParseNumber(s) == None
  {
    Text.TrimKeepsFirst(s);
    var t := Text.Trim(s);
    assert LeadingDigits(t) == [];
  }

  /** Reading back the decimal text of a natural number gives that number. */
  lemma NatToStringRoundTrip(n: nat)
    ensures ParseNumber(NatToString(n)) == Some(Decimal(n, 0))
  {
    ParseNumberDigits(NatToString(n));
    DigitsValueOfNatToString(n);
  }

  /** Reading back the decimal text of an integer gives that integer, sign included. */
  lemma IntToStringRoundTrip(n: int)
    ensures ParseNumber(IntToString(n)) == Some(Decimal(n, 0))
  {
    if n < 0 {
      NegativeRoundTrip(n, IntToString(n));
    } else {
      NatToStringRoundTrip(n);
    }
  }

  lemma NegativeRoundTrip(n: int, t: string)
    requires n < 0 && t == "-" + NatToString(-n)
    ensures ParseNumber(t) == Some(Decimal(n, 0))
  {
    var digits := NatToString(-n);
    assert t[0] == '-';
    DigitsValueOfNatToString(-n);
    assert DigitsValue(digits) == -n;
    ParseNumberSignedDigits(t, digits);
  }

  /** A leading `+` is accepted, so `+7` reads back as 7. */
  lemma PlusSignRoundTrip(n: nat)
    ensures ParseNumber("+" + NatToString(n)) == Some(Decimal(n, 0))
  {
    ParseNumberSignedDigits("+" + NatToString(n), NatToString(n));
    DigitsValueOfNatToString(n);
  }
}
