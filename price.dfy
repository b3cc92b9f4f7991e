/**
  The two ways the program turns an asking-price text such as "$1,200" into
  a number. The server (app.js) deletes every character that is not a digit
  or a point before `parseFloat`; the listing-details route deletes only `$`
  and `,`. Both fall back to 0 when nothing parses.
*/
module Price {
  import opened Base
  import opened JsStrings
  import opened JsNumbers

  predicate IsPriceChar(c: char) {
    IsDigit(c) || c == '.'
  }

  /** `s.replace(/[^0-9.]/g, '')`: the digits and points of `s`, in order. */
  function StripNonNumeric(s: string): (r: string)
    ensures |r| <= |s|
    ensures forall i :: 0 <= i < |r| ==> IsPriceChar(r[i])
  {
    if s == [] then []
    else (if IsPriceChar(s[0]) then [s[0]] else []) + StripNonNumeric(s[1..])
  }

  /** `parseFloat(s.replace(/[^0-9.]/g, '')) || 0`. */
  function ParsePrice(s: string): real
  {
    OrZero(JsParseFloat(StripNonNumeric(s)))
  }

  /** `s.replace(/[$,]/g, '')`: `s` without its dollar signs and commas. */
  function StripDollarComma(s: string): (r: string)
  {
    if s == [] then []
    else (if s[0] == '$' || s[0] == ',' then [] else [s[0]]) + StripDollarComma(s[1..])
  }

  /** `parseFloat(price.replace(/[$,]/g, '')) || 0`. */
  function ParseListingPrice(s: string): real
  {
    OrZero(JsParseFloat(StripDollarComma(s)))
  }

  // ---------------------------------------------------------------------
  // Stripping.

  /** Stripping distributes over concatenation. */
  lemma {:induction false} StripNonNumericAppend(a: string, b: string)
    ensures StripNonNumeric(a + b) == StripNonNumeric(a) + StripNonNumeric(b)
  {
    if a != [] {
      assert (a + b)[1..] == a[1..] + b;
      StripNonNumericAppend(a[1..], b);
    } else {
      assert a + b == b;
    }
  }

  /** Deleting dollar signs and commas leaves none and never lengthens the text. */
  lemma {:induction false} StripDollarCommaRemoves(s: string)
    ensures |StripDollarComma(s)| <= |s|
    ensures '$' !in StripDollarComma(s) && ',' !in StripDollarComma(s)
  {
    if s != [] {
      StripDollarCommaRemoves(s[1..]);
    }
  }

  /** A text made only of digits and points is left as it is. */
  lemma {:induction false} StripNonNumericKeeps(s: string)
    requires forall i :: 0 <= i < |s| ==> IsPriceChar(s[i])
    ensures StripNonNumeric(s) == s
  {
    if s != [] {
      StripNonNumericKeeps(s[1..]);
    }
  }

  /** Stripping twice is stripping once. */
  lemma StripNonNumericIdempotent(s: string)
    ensures StripNonNumeric(StripNonNumeric(s)) == StripNonNumeric(s)
  {
    StripNonNumericKeeps(StripNonNumeric(s));
  }

  /** On texts made of digits, points, `$` and `,` the two strippings agree. */
  lemma {:induction false} StripsAgree(s: string)
    requires forall i :: 0 <= i < |s| ==> IsPriceChar(s[i]) || s[i] == '$' || s[i] == ','
    ensures StripNonNumeric(s) == StripDollarComma(s)
  {
    if s != [] {
      StripsAgree(s[1..]);
    }
  }

  // ---------------------------------------------------------------------
  // Parsing.

  /** A decimal literal denotes a non-negative number. */
  lemma LiteralValueNonNegative(d: DecimalLiteral)
    requires AllDigits(d.units) && AllDigits(d.fraction)
    ensures LiteralValue(d) >= 0.0
  {
  }

  /** What `parseFloat` reads from a text of digits and points: no sign, no white space. */
  lemma ParseStripped(t: string)
    requires forall i :: 0 <= i < |t| ==> IsPriceChar(t[i])
    ensures JsParseFloat(t) == UnsignedDecimal(t)
    ensures UnsignedDecimal(t).Some? ==> UnsignedDecimal(t).value >= 0.0
  {
    assert TrimStart(t) == t;
    match ScanDecimal(t)
    case None =>
    case Some(d) => LiteralValueNonNegative(d);
  }

  /** The server's parsed price is never negative. */
  lemma ParsePriceNonNegative(s: string)
    ensures ParsePrice(s) >= 0.0
  {
    ParseStripped(StripNonNumeric(s));
  }

  /** A price printed as a whole number of dollars, with or without a leading `$`, reads back as that number. */
  lemma ParsePriceOfDollars(n: nat)
    ensures ParsePrice(NatToString(n)) == n as real
    ensures ParsePrice(['$'] + NatToString(n)) == n as real
  {
    var d := NatToString(n);
    StripNonNumericKeeps(d);
    StripNonNumericAppend(['$'], d);
    assert StripNonNumeric(['$']) == [];
    assert [] + d == d;
    ParseNatToString(n);
  }

  /** On texts made of digits, points, `$` and `,` both parsers give the same number. */
  lemma ParsersAgree(s: string)
    requires forall i :: 0 <= i < |s| ==> IsPriceChar(s[i]) || s[i] == '$' || s[i] == ','
    ensures ParsePrice(s) == ParseListingPrice(s)
  {
    StripsAgree(s);
  }

  /** The digits of "1200" are worth 1200. */
  lemma DigitsOf1200()
    ensures AllDigits("1200") && DigitsValue("1200") == 1200
  {
    assert "1200"[..3] == "120";
    assert "120"[..2] == "12";
    assert "12"[..1] == "1";
    assert "1"[..0] == "";
  }

  /** Stripping "$1,200" leaves "1200". */
  lemma StripThousands()
    ensures StripNonNumeric("$1,200") == "1200"
  {
    assert "$1,200" == ['$', '1'] + [','] + "200";
    StripNonNumericAppend(['$', '1'] + [','], "200");
    StripNonNumericAppend(['$', '1'], [',']);
    StripNonNumericKeeps("200");
    assert StripNonNumeric(['$', '1']) == "1";
  }

  /** "$1,200" is 1200 for the server's parser. */
  lemma ParsePriceThousands()
    ensures ParsePrice("$1,200") == 1200.0
  {
    StripThousands();
    DigitsOf1200();
    UnsignedDecimalOfDigits("1200");
    ParseStripped("1200");
  }

  /** "$1,200" is 1200 for the listing-details parser too. */
  lemma ParseListingPriceThousands()
    ensures ParseListingPrice("$1,200") == 1200.0
  {
    StripDollarCommaThousands();
    DigitsOf1200();
    UnsignedDecimalOfDigits("1200");
    ParseStripped("1200");
  }

  /** Stripping dollar signs and commas from "$1,200" leaves "1200". */
  lemma StripDollarCommaThousands()
    ensures StripDollarComma("$1,200") == "1200"
  {
    var s := "$1,200";
    assert s[1..] == "1,200";
    assert s[2..] == ",200";
    assert s[3..] == "200";
    assert s[4..] == "00";
    assert s[5..] == "0";
    assert s[6..] == "";
  }

  /** "N/A" is 0 for both parsers: nothing in it parses. */
  lemma ParsePriceNotAvailable()
    ensures ParsePrice("N/A") == 0.0 && ParseListingPrice("N/A") == 0.0
  {
    ServerParsesNothing();
    RouteParsesNothing();
  }

  /** The server's parser strips "N/A" to nothing. */
  lemma ServerParsesNothing()
    ensures ParsePrice("N/A") == 0.0
  {
    assert StripNonNumeric("N/A") == [];
    ParseStripped([]);
    assert ScanDecimal([]) == None;
  }

  /** The route's parser keeps "N/A", which has no leading digits. */
  lemma RouteParsesNothing()
    ensures ParseListingPrice("N/A") == 0.0
  {
    assert StripDollarComma("N/A") == "N/A";
    assert TrimStart("N/A") == "N/A";
    assert LeadingDigits("N/A") == 0;
    assert ScanDecimal("N/A") == None;
  }

  /** The digit "5" is worth 5. */
  lemma DigitsOf5()
    ensures AllDigits("5") && DigitsValue("5") == 5
  {
    assert "5"[..0] == "";
  }

  /**
    The parsers disagree on a minus sign: the server drops it and reads 5 from
    "-5", the listing-details route keeps it and reads -5.
  */
  lemma ParsersDisagreeOnSign()
    ensures ParsePrice("-5") == 5.0
    ensures ParseListingPrice("-5") == -5.0
  {
    ServerDropsSign();
    RouteKeepsSign();
  }

  /** The server's parser reads 5 from "-5". */
  lemma ServerDropsSign()
    ensures ParsePrice("-5") == 5.0
  {
    DigitsOf5();
    UnsignedDecimalOfDigits("5");
    assert StripNonNumeric("-5") == "5";
    ParseStripped("5");
  }

  /** The route's parser reads -5 from "-5". */
  lemma RouteKeepsSign()
    ensures ParseListingPrice("-5") == -5.0
  {
    DigitsOf5();
    UnsignedDecimalOfDigits("5");
    assert StripDollarComma("-5") == "-5";
    assert ['-'] + "5" == "-5";
    ParseMinusDigitLed("5");
  }
}
