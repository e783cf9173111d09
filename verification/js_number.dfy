/** `Number.parseInt(s, 16)`, the only numeric parse the application
    performs, and the hexadecimal numeral it reads back. */
module JsNumber {
  import opened Optional
  import Numerals
  import JsText

  /** How many leading characters of `s` are digits of `base`. */
  function LeadingDigitCount(s: string, base: nat): (k: nat)
    ensures k <= |s|
    ensures forall i :: 0 <= i < k ==> Numerals.IsDigitIn(s[i], base)
    ensures k < |s| ==> !Numerals.IsDigitIn(s[k], base)
    decreases |s|
  {
    if |s| > 0 && Numerals.IsDigitIn(s[0], base) then 1 + LeadingDigitCount(s[1..], base) else 0
  }

  predicate HasHexPrefix(s: string)
  {
    |s| >= 2 && s[0] == '0' && (s[1] == 'x' || s[1] == 'X')
  }

  /** The text `parseInt` reads digits from: what follows the leading white
      space, one optional sign and, for base 16, an optional `0x`/`0X`. */
  function HexBody(s: string): string
  {
    var t := JsText.TrimStart(s);
    var unsigned := if |t| > 0 && (t[0] == '+' || t[0] == '-') then t[1..] else t;
    if HasHexPrefix(unsigned) then unsigned[2..] else unsigned
  }

  predicate IsNegated(s: string)
  {
    var t := JsText.TrimStart(s);
    |t| > 0 && t[0] == '-'
  }

  /** `Number.parseInt(s, 16)`: the longest run of hexadecimal digits at the
      start of the body is the magnitude, negated after a `-`. `None` is the
      NaN returned when that run is empty. */
  function ParseInt16(s: string): (r: Option<int>)
    ensures r.None? <==> LeadingDigitCount(HexBody(s), 16) == 0
    ensures r.Some? && !IsNegated(s) ==> r.value >= 0
  {
    var body := HexBody(s);
    var k := LeadingDigitCount(body, 16);
    if k == 0 then None
    else
      var magnitude: int := Numerals.FromDigits(Numerals.CharsToDigits(body[..k]), 16);
      Some(if IsNegated(s) then -magnitude else magnitude)
  }

  /** The hexadecimal numeral of `n` with a `0x` prefix. */
  function FormatHex(n: nat): (r: string)
    ensures HasHexPrefix(r) && |r| >= 3
  {
    "0x" + Numerals.NatToString(n, 16)
  }

  /** A prefixed run of hexadecimal digits parses to its value, whatever
      non-digit text follows it. */
  lemma ParseInt16PrefixedDigits(digits: string, rest: string)
    requires |digits| >= 1
    requires forall i :: 0 <= i < |digits| ==> Numerals.IsDigitIn(digits[i], 16)
    requires |rest| > 0 ==> !Numerals.IsDigitIn(rest[0], 16)
    ensures ParseInt16("0x" + digits + rest) == Some(Numerals.FromDigits(Numerals.CharsToDigits(digits), 16))
  {
    var s := "0x" + digits + rest;
    var body := digits + rest;
    assert s == "0x" + body;
    HexBodyOfPrefixed(body);
    LeadingDigitsOfConcat(digits, rest);
    assert LeadingDigitCount(HexBody(s), 16) == |digits|;
    assert body[..|digits|] == digits;
  }

  lemma HexBodyOfPrefixed(body: string)
    ensures HexBody("0x" + body) == body
    ensures !IsNegated("0x" + body)
  {
    var s := "0x" + body;
    assert s[0] == '0' && s[1] == 'x';
    JsText.TrimStartUnchanged(s);
    assert s[2..] == body;
  }

  lemma {:induction false} LeadingDigitsOfConcat(digits: string, rest: string)
    requires forall i :: 0 <= i < |digits| ==> Numerals.IsDigitIn(digits[i], 16)
    requires |rest| > 0 ==> !Numerals.IsDigitIn(rest[0], 16)
    ensures LeadingDigitCount(digits + rest, 16) == |digits|
    decreases |digits|
  {
    if |digits| > 0 {
      assert (digits + rest)[1..] == digits[1..] + rest;
      LeadingDigitsOfConcat(digits[1..], rest);
    } else {
      assert digits + rest == rest;
    }
  }

  /** Reading back a formatted hexadecimal numeral gives the number. */
  lemma ParseFormatHex(n: nat)
    ensures ParseInt16(FormatHex(n)) == Some(n)
  {
    ParseInt16PrefixedDigits(Numerals.NatToString(n, 16), "");
    assert FormatHex(n) == "0x" + Numerals.NatToString(n, 16) + "";
    Numerals.NatToStringRoundTrip(n, 16);
  }

  /** Text with no hexadecimal digit after the optional prefix is NaN. */
  lemma ParseInt16NoDigits()
    ensures ParseInt16("") == None
    ensures ParseInt16("0x") == None
    ensures ParseInt16("0xzz") == None
  {
    assert JsText.TrimStart("0x") == "0x";
    assert HexBody("0x") == "";
    assert JsText.TrimStart("0xzz") == "0xzz";
    assert HexBody("0xzz") == "zz";
    assert !Numerals.IsDigitIn('z', 16);
  }
}
