/** JavaScript's `parseFloat`, as both forms of the application use it
    (react/src/components/pages/Products/ProductForm.jsx on the product price,
    react/src/components/pages/PDV/PointOfSale.jsx on the amount paid).

    `parseFloat` reads the longest prefix of its argument of the form
    `[+-]? (\d+ (\.\d*)? | \.\d+) ([eE] [+-]? \d+)?` and answers NaN (`None`)
    when there is none. The number read is kept exactly: a sign, a mantissa
    and a power of ten; `Value` is its exact real value. */
module JsNumber {
  import opened Wrappers
  import opened Strings

  function Pow10(n: nat): (p: nat)
    ensures p >= 1
  {
    if n == 0 then 1 else 10 * Pow10(n - 1)
  }

  /** 10^e as a real, for an exponent of either sign. */
  function Scale(e: int): (r: real)
    ensures r > 0.0
  {
    if e >= 0 then Pow10(e) as real else 1.0 / (Pow10(-e) as real)
  }

  // The unsigned decimal literal.

  /** An unsigned decimal read by `parseFloat`: mantissa / 10^scale. */
  datatype Decimal = Decimal(mantissa: nat, scale: nat)

  /** The longest prefix of `s` made of digits. */
  function LeadingDigits(s: string): (r: string)
    ensures AllDigits(r) && |r| <= |s| && r == s[..|r|]
    ensures |r| < |s| ==> !IsDigit(s[|r|])
  {
    if |s| == 0 || !IsDigit(s[0]) then "" else [s[0]] + LeadingDigits(s[1..])
  }

  lemma LeadingDigitsAll(s: string)
    requires AllDigits(s)
    ensures LeadingDigits(s) == s
  {
  }

  lemma LeadingDigitsUpTo(s: string, k: nat)
    requires k < |s| && AllDigits(s[..k]) && !IsDigit(s[k])
    ensures LeadingDigits(s) == s[..k]
  {
    assert forall i :: 0 <= i < k ==> IsDigit(s[i]) by {
      forall i | 0 <= i < k ensures IsDigit(s[i]) {
        assert s[..k][i] == s[i];
      }
    }
  }

  /** The unsigned decimal literal at the start of `s`: the value of the
      longest prefix of the form `\d*(\.\d*)?`, or `None` when that prefix
      holds no digit. */
  function ParseDecimal(s: string): (r: Option<Decimal>)
  {
    var intPart := LeadingDigits(s);
    var rest := s[|intPart|..];
    var frac := if |rest| > 0 && rest[0] == '.' then LeadingDigits(rest[1..]) else "";
    assert AllDigits(intPart + frac);
    if |intPart| + |frac| == 0 then None
    else Some(Decimal(DigitsValue(intPart + frac), |frac|))
  }

  /** How many characters that literal takes up. */
  function LiteralLength(s: string): (n: nat)
    ensures n <= |s|
  {
    var intPart := LeadingDigits(s);
    var rest := s[|intPart|..];
    if |rest| > 0 && rest[0] == '.' then |intPart| + 1 + |LeadingDigits(rest[1..])| else |intPart|
  }

  /** The exponent written right after the literal: `[eE][+-]?\d+`, or 0 when
      `t` does not start with one (an `e` without digits is not read). */
  function ExponentPart(t: string): int {
    if |t| >= 2 && (t[0] == 'e' || t[0] == 'E') then
      var start := if t[1] == '-' || t[1] == '+' then 2 else 1;
      var ds := LeadingDigits(t[start..]);
      if |ds| == 0 then 0
      else if t[1] == '-' then -(DigitsValue(ds) as int)
      else DigitsValue(ds)
    else 0
  }

  // The signed number.

  /** (-1)^negative * mantissa * 10^exponent. */
  datatype Number = Number(negative: bool, mantissa: nat, exponent: int)

  /** The signed mantissa. */
  function Signed(n: Number): int {
    if n.negative then -(n.mantissa as int) else n.mantissa
  }

  /** The exact value of a number: below zero exactly when it carries a minus
      sign and a non-zero mantissa, zero exactly when the mantissa is zero. */
  function Value(n: Number): (v: real)
    ensures v < 0.0 <==> n.negative && n.mantissa > 0
    ensures v == 0.0 <==> n.mantissa == 0
  {
    var s := Scale(n.exponent);
    SignedTimesPositive(Signed(n), s);
    Signed(n) as real * s
  }

  lemma SignedTimesPositive(x: int, s: real)
    requires s > 0.0
    ensures x as real * s < 0.0 <==> x < 0
    ensures x as real * s == 0.0 <==> x == 0
  {
  }

  /** The number read from a string with no sign in front: the unsigned
      literal, with its decimals and the exponent after it as a power of ten. */
  function ParseUnsigned(body: string): (r: Option<Number>)
    ensures r.Some? <==> ParseDecimal(body).Some?
    ensures r.Some? ==> !r.value.negative && r.value.mantissa == ParseDecimal(body).value.mantissa
  {
    match ParseDecimal(body)
    case None => None
    case Some(d) => Some(Number(false, d.mantissa, ExponentPart(body[LiteralLength(body)..]) - d.scale))
  }

  /** `parseFloat(s)` for a string without leading blanks: an optional sign,
      the unsigned literal and an optional exponent. A negative result can
      only come from a leading '-'. */
  function ParseFloat(s: string): (r: Option<Number>)
    ensures r.Some? && Value(r.value) < 0.0 ==> |s| > 0 && s[0] == '-'
    ensures r.Some? ==> exists i :: 0 <= i < |s| && IsDigit(s[i])
  {
    var body := if |s| > 0 && (s[0] == '-' || s[0] == '+') then s[1..] else s;
    var u := ParseUnsigned(body);
    if u.None? then None
    else
      DecimalHasDigit(body);
      assert exists i :: 0 <= i < |s| && IsDigit(s[i]) by {
        var i :| 0 <= i < |body| && IsDigit(body[i]);
        assert IsDigit(s[i + |s| - |body|]);
      }
      Some(u.value.(negative := |s| > 0 && s[0] == '-'))
  }

  /** A literal is only read where there is a digit. */
  lemma DecimalHasDigit(s: string)
    requires ParseDecimal(s).Some?
    ensures exists i :: 0 <= i < |s| && IsDigit(s[i])
  {
    var intPart := LeadingDigits(s);
    if |intPart| > 0 {
      assert IsDigit(s[0]);
    } else {
      var rest := s[|intPart|..];
      var frac := LeadingDigits(rest[1..]);
      assert IsDigit(frac[0]);
      assert s[1] == frac[0];
    }
  }

  /** Without a sign in front, `parseFloat` is the unsigned reading. */
  lemma ParseFloatNoSign(s: string)
    requires |s| == 0 || (s[0] != '-' && s[0] != '+')
    ensures ParseFloat(s) == ParseUnsigned(s)
  {
  }

  /** On a string with no sign in front and no exponent letter, `parseFloat` is
      the unsigned literal, with its decimals as a negative power of ten. */
  lemma ParseFloatUnsigned(s: string)
    requires |s| == 0 || (s[0] != '-' && s[0] != '+')
    requires forall i :: 0 <= i < |s| ==> s[i] != 'e' && s[i] != 'E'
    ensures ParseFloat(s) ==
      match ParseDecimal(s)
      case None => None
      case Some(d) => Some(Number(false, d.mantissa, -(d.scale as int)))
  {
    ParseFloatNoSign(s);
    NoExponent(s);
  }

  lemma NoExponent(s: string)
    requires forall i :: 0 <= i < |s| ==> s[i] != 'e' && s[i] != 'E'
    ensures ParseUnsigned(s) ==
      match ParseDecimal(s)
      case None => None
      case Some(d) => Some(Number(false, d.mantissa, -(d.scale as int)))
  {
    var t := s[LiteralLength(s)..];
    if |t| > 0 {
      assert t[0] == s[LiteralLength(s)];
    }
    assert ExponentPart(t) == 0;
  }

  /** A leading '-' negates what follows it and a leading '+' changes nothing. */
  lemma ParseFloatSign(s: string)
    requires |s| == 0 || (s[0] != '-' && s[0] != '+')
    ensures ParseFloat("-" + s) == if ParseFloat(s).None? then None else Some(ParseFloat(s).value.(negative := true))
    ensures ParseFloat("+" + s) == ParseFloat(s)
    ensures ParseFloat("-" + s).Some? ==> Value(ParseFloat("-" + s).value) == -Value(ParseFloat(s).value)
  {
    ParseFloatMinus(s);
    ParseFloatPlus(s);
    if ParseFloat(s).Some? {
      Negate(ParseFloat(s).value);
    }
  }

  lemma ParseFloatMinus(s: string)
    requires |s| == 0 || (s[0] != '-' && s[0] != '+')
    ensures ParseFloat("-" + s) == if ParseFloat(s).None? then None else Some(ParseFloat(s).value.(negative := true))
  {
    ParseFloatNoSign(s);
    var t := "-" + s;
    assert t[0] == '-' && t[1..] == s;
  }

  lemma ParseFloatPlus(s: string)
    requires |s| == 0 || (s[0] != '-' && s[0] != '+')
    ensures ParseFloat("+" + s) == ParseFloat(s)
  {
    ParseFloatNoSign(s);
    var t := "+" + s;
    assert t[0] == '+' && t[1..] == s;
  }

  /** Setting the minus sign of a number without one negates its value. */
  lemma Negate(n: Number)
    requires !n.negative
    ensures Value(n.(negative := true)) == -Value(n)
  {
  }

  // Inputs the amount field of the point-of-sale page can hold.

  /** An exponent scales the literal: "1e3" is a thousand. */
  lemma ExponentExample(s: string)
    requires s == "1e3"
    ensures ParseFloat(s) == Some(Number(false, 1, 3))
  {
    ParseFloatNoSign(s);
    assert s[..1] == "1";
    LeadingDigitsUpTo(s, 1);
    assert DigitsValue("1") == 1;
    assert ParseDecimal(s) == Some(Decimal(1, 0)) && LiteralLength(s) == 1;
    var t := s[1..];
    assert t[1..] == "3";
    LeadingDigitsAll(t[1..]);
    assert DigitsValue("3") == 3;
    assert ExponentPart(t) == 3;
  }

  /** A minus sign negates: "-5" is minus five. */
  lemma MinusFiveExample(s: string)
    requires s == "-5"
    ensures ParseFloat(s) == Some(Number(true, 5, 0))
  {
    var t := s[1..];
    assert s == "-" + t;
    FiveExample(t);
    ParseFloatMinus(t);
  }

  lemma FiveExample(s: string)
    requires s == "5"
    ensures ParseFloat(s) == Some(Number(false, 5, 0))
  {
    ParseFloatUnsigned(s);
    LeadingDigitsAll(s);
    assert DigitsValue("5") == 5;
    assert ParseDecimal(s) == Some(Decimal(5, 0));
  }

  /** A negative exponent with a capital letter: "12.5E-1" is 1.25. */
  lemma ScientificExample(s: string)
    requires s == "12.5E-1"
    ensures ParseFloat(s) == Some(Number(false, 125, -2))
  {
    ParseFloatNoSign(s);
    ScientificDecimal(s);
    var t := s[4..];
    assert t == "E-1";
    assert t[2..] == "1";
    LeadingDigitsAll(t[2..]);
    assert DigitsValue("1") == 1;
    assert ExponentPart(t) == -1;
  }

  lemma ScientificDecimal(s: string)
    requires s == "12.5E-1"
    ensures ParseDecimal(s) == Some(Decimal(125, 1)) && LiteralLength(s) == 4
  {
    assert s[..2] == "12";
    LeadingDigitsUpTo(s, 2);
    var rest := s[2..];
    assert rest[0] == '.';
    var after := rest[1..];
    assert after[..1] == "5" && after[1] == 'E';
    LeadingDigitsUpTo(after, 1);
    assert "12" + "5" == "125";
    assert DigitsValue("125") == 125 by {
      assert "125"[..2] == "12";
      assert "12"[..1] == "1";
      assert "1"[..0] == "";
    }
  }

  /** An 'e' without digits after it is not read: "2e" is two. */
  lemma BareEExample(s: string)
    requires s == "2e"
    ensures ParseFloat(s) == Some(Number(false, 2, 0))
  {
    ParseFloatNoSign(s);
    assert s[..1] == "2";
    LeadingDigitsUpTo(s, 1);
    assert DigitsValue("2") == 2;
    assert ParseDecimal(s) == Some(Decimal(2, 0)) && LiteralLength(s) == 1;
    assert ExponentPart(s[1..]) == 0;
  }

  /** A sign before a bare fraction: "-.5" is minus one half. */
  lemma MinusHalfExample(s: string)
    requires s == "-.5"
    ensures ParseFloat(s) == Some(Number(true, 5, -1))
  {
    var t := s[1..];
    assert s == "-" + t;
    HalfExample(t);
    ParseFloatMinus(t);
  }

  lemma HalfExample(s: string)
    requires s == ".5"
    ensures ParseFloat(s) == Some(Number(false, 5, -1))
  {
    ParseFloatUnsigned(s);
    assert LeadingDigits(s) == "";
    assert s[1..] == "5";
    LeadingDigitsAll(s[1..]);
    assert DigitsValue("5") == 5;
    assert ParseDecimal(s) == Some(Decimal(5, 1));
  }

  /** No digit, no number: "e3" and "-" read as NaN. */
  lemma NoNumberExample(s: string, t: string)
    requires s == "e3" && t == "-"
    ensures ParseFloat(s) == None && ParseFloat(t) == None
  {
    ParseFloatNoSign(s);
    assert LeadingDigits(s) == "";
    assert |t[1..]| == 0;
  }
}
