/**
 * Amounts of the "Määrä EUROA" column as exact integer cents.
 *
 * The source turns a column of decimal-comma strings into floats with
 * `str.replace(",", ".").astype(float)`. The model reads the same strings
 * into whole cents instead: optional surrounding whitespace, an optional
 * sign, integer digits, and an optional comma followed by at most two
 * fraction digits; at least one digit in all. Anything else gives no
 * result; `float()` accepts more, such as a '.' decimal point, exponents
 * or more fraction digits, which the model rejects.
 */
module Money {
  import opened Wrappers
  import opened Text

  /** The cents denoted by zero, one or two fraction digits ("", "7", "49"). */
  function FractionCents(frac: string): (c: nat)
    requires IsDigits(frac) && |frac| <= 2
    ensures c < 100
  {
    if |frac| == 0 then 0
    else if |frac| == 1 then DigitValue(frac[0]) * 10
    else DigitValue(frac[0]) * 10 + DigitValue(frac[1])
  }

  /** The cents of an amount split into its integer digits `whole` and the
      text after them: nothing, or a comma and at most two digits. */
  function AmountParts(whole: string, rest: string): Option<nat>
    requires IsDigits(whole)
  {
    if rest == [] then
      if whole == [] then None else Some(DigitsValue(whole) * 100)
    else if rest[0] != ',' || |rest| > 3 || !IsDigits(rest[1..]) || (whole == [] && |rest| == 1) then
      None
    else
      Some(DigitsValue(whole) * 100 + FractionCents(rest[1..]))
  }

  /** Reads an unsigned decimal-comma amount ("15,49", "625,7", "3", ",5")
      into cents. */
  function ParseUnsignedCents(body: string): Option<nat>
  {
    var k := SpanLen(body, IsDigit);
    AmountParts(body[..k], body[k..])
  }

  lemma AmountPartsOf(digits: string, frac: string)
    requires IsDigits(digits) && IsDigits(frac) && |frac| <= 2
    requires |digits| + |frac| > 0
    ensures AmountParts(digits, "," + frac) == Some(DigitsValue(digits) * 100 + FractionCents(frac))
  {
    assert ("," + frac)[1..] == frac;
  }

  /** An integer part, a comma and up to two fraction digits read as their cents. */
  lemma ParseUnsignedCentsOf(digits: string, frac: string)
    requires IsDigits(digits) && IsDigits(frac) && |frac| <= 2
    requires |digits| + |frac| > 0
    ensures ParseUnsignedCents(digits + "," + frac) ==
      Some(DigitsValue(digits) * 100 + FractionCents(frac))
  {
    var tail := "," + frac;
    var body := digits + tail;
    assert body == digits + "," + frac;
    var k := SpanLen(body, IsDigit);
    assert k == |digits| by { SpanLenConcat(digits, tail, IsDigit); }
    assert body[..k] == digits;
    assert body[k..] == tail;
    AmountPartsOf(digits, frac);
  }

  /** Reads a trimmed amount: an optional sign, then an unsigned amount. */
  function ParseSigned(s: string): (r: Option<int>)
    ensures r.Some? ==> s != []
    ensures r.Some? && r.value < 0 ==> s[0] == '-'
  {
    var signed := s != [] && (s[0] == '-' || s[0] == '+');
    match ParseUnsignedCents(if signed then s[1..] else s)
    case None => None
    case Some(m) => Some(if signed && s[0] == '-' then -(m as int) else m as int)
  }

  /** Parses a decimal-comma amount such as "-15,49" into signed cents. */
  function ParseCents(text: string): (r: Option<int>)
    ensures r.Some? ==> Strip(text) != []
    ensures r.Some? && r.value < 0 ==> Strip(text)[0] == '-'
  {
    ParseSigned(Strip(text))
  }

  /** Renders non-negative cents as digits, a comma and two fraction digits. */
  function FormatUnsignedCents(a: nat): (text: string)
    ensures text != [] && IsDigit(text[0]) && IsDigit(text[|text| - 1])
  {
    NatToDigits(a / 100) + "," + [DigitChar(a % 100 / 10), DigitChar(a % 10)]
  }

  /** Renders cents the way the bank export writes them: "-15,49", "0,07". */
  function FormatCents(cents: int): (text: string)
    ensures text != [] && !IsSpace(text[0]) && !IsSpace(text[|text| - 1])
    ensures cents < 0 <==> text[0] == '-'
  {
    if cents < 0 then "-" + FormatUnsignedCents(-cents) else FormatUnsignedCents(cents)
  }

  /** "-" followed by an unpadded unsigned amount reads as that amount negated. */
  lemma ParseCentsNegative(text: string, body: string, m: nat)
    requires body != [] && IsDigit(body[0]) && !IsSpace(body[|body| - 1])
    requires text == "-" + body
    requires ParseUnsignedCents(body) == Some(m)
    ensures ParseCents(text) == Some(-(m as int))
  {
    StripUnpadded(text);
    assert text[1..] == body;
  }

  /** An unpadded unsigned amount reads as itself. */
  lemma ParseCentsUnsigned(body: string, m: nat)
    requires body != [] && IsDigit(body[0]) && !IsSpace(body[|body| - 1])
    requires ParseUnsignedCents(body) == Some(m)
    ensures ParseCents(body) == Some(m as int)
  {
    StripUnpadded(body);
  }

  lemma ParseFormatUnsignedRoundTrip(a: nat)
    ensures ParseUnsignedCents(FormatUnsignedCents(a)) == Some(a)
  {
    var digits := NatToDigits(a / 100);
    var frac := [DigitChar(a % 100 / 10), DigitChar(a % 10)];
    assert FormatUnsignedCents(a) == digits + "," + frac;
    assert FractionCents(frac) == a % 100;
    DigitsRoundTrip(a / 100);
    ParseUnsignedCentsOf(digits, frac);
  }

  /** Reading back a formatted amount gives the same cents: no amount is
      changed by a format/parse round trip. */
  lemma ParseFormatRoundTrip(cents: int)
    ensures ParseCents(FormatCents(cents)) == Some(cents)
  {
    if cents < 0 {
      ParseFormatNegativeRoundTrip(-cents);
    } else {
      ParseFormatUnsignedRoundTrip(cents);
      ParseCentsUnsigned(FormatCents(cents), cents);
    }
  }

  lemma ParseFormatNegativeRoundTrip(a: nat)
    requires 0 < a
    ensures ParseCents(FormatCents(-(a as int))) == Some(-(a as int))
  {
    ParseFormatUnsignedRoundTrip(a);
    ParseCentsNegative(FormatCents(-(a as int)), FormatUnsignedCents(a), a);
  }

  /** The first amount of the expense test frame. */
  lemma ParseCentsExampleCents()
    ensures ParseCents("-15,49") == Some(-1549)
  {
    assert ParseUnsignedCents("15,49") == Some(1549) by {
      assert DigitsValue("15") == 15 by {
        assert "15"[..1] == "1";
      }
      ParseUnsignedCentsOf("15", "49");
      assert "15" + "," + "49" == "15,49";
    }
    ParseCentsNegative("-15,49", "15,49", 1549);
  }

  /** The second amount of the expense test frame: one fraction digit means tens of cents. */
  lemma ParseCentsExampleTenths()
    ensures ParseCents("-625,7") == Some(-62570)
  {
    assert ParseUnsignedCents("625,7") == Some(62570) by {
      assert DigitsValue("625") == 625 by {
        assert "625"[..2] == "62";
        assert "62"[..1] == "6";
      }
      ParseUnsignedCentsOf("625", "7");
      assert "625" + "," + "7" == "625,7";
    }
    ParseCentsNegative("-625,7", "625,7", 62570);
  }

  /** A word is not an amount. */
  lemma ParseCentsRejectsWord()
    ensures ParseCents("invalid") == None
  {
    StripUnpadded("invalid");
    assert SpanLen("invalid", IsDigit) == 0;
  }
}
