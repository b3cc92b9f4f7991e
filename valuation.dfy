/**
  How the server values one listing (app.js): the profit rule of
  `calculateProfit`, the synthetic resale value used when the eBay lookup
  comes back as 0, and the sale-time estimate. The three copies of the
  fallback in app.js are modelled once. `Math.random` is replaced by three
  draws in `[0, 1)` passed in as `Draws`.
*/
module Valuation {
  import opened Base
  import opened JsStrings
  import opened JsNumbers
  import opened Price
  import opened ResaleLookup

  const HighValueWords: seq<string> := ["macbook", "iphone", "ipad", "pro", "gaming", "rtx", "premium", "new", "sealed"]
  const LowValueWords: seq<string> := ["broken", "damaged", "parts", "cracked", "as is"]

  /** The value class of a title; a high-value word wins over a low-value word. */
  datatype ValueTier = HighValue | LowValue | Regular

  function Classify(title: string): ValueTier
  {
    if ContainsAnyCI(title, HighValueWords) then HighValue
    else if ContainsAnyCI(title, LowValueWords) then LowValue
    else Regular
  }

  /** The three `Math.random()` results one listing consumes: branch choice, multiplier amount, sale time. */
  datatype Draws = Draws(branch: real, amount: real, saleTime: real)

  predicate ValidDraws(d: Draws) {
    0.0 <= d.branch < 1.0 && 0.0 <= d.amount < 1.0 && 0.0 <= d.saleTime < 1.0
  }

  /** The factor applied to the asking price to make up a resale value. */
  function Multiplier(tier: ValueTier, d: Draws): real
  {
    match tier
    case HighValue => if d.branch > 0.4 then d.amount * 0.6 + 1.2 else d.amount * 0.2 + 0.8
    case LowValue => if d.branch > 0.8 then d.amount * 0.3 + 1.1 else d.amount * 0.5 + 0.5
    case Regular => if d.branch > 0.6 then d.amount * 0.4 + 1.1 else d.amount * 0.3 + 0.7
  }

  /** What `calculateProfit` returns: the number 0, or the difference as `toFixed(2)` text, in cents. */
  datatype Profit = NoProfit | ProfitCents(cents: int)

  /** The text form of a profit. */
  function ProfitText(p: Profit): string
  {
    match p
    case NoProfit => "0"
    case ProfitCents(c) => FixedString(c as real / 100.0)
  }

  /** `parseFloat(profit)`. */
  function ProfitNumber(p: Profit): real
  {
    match p
    case NoProfit => 0.0
    case ProfitCents(c) => c as real / 100.0
  }

  /**
    `calculateProfit(askingPrice, resaleValue)`: the resale value minus the
    asking price, rounded to cents, when the resale value is higher; 0 otherwise.
  */
  function CalculateProfit(askingPrice: string, resaleValue: string): Profit
  {
    var asking := ParsePrice(askingPrice);
    var resale := OrZero(JsParseFloat(resaleValue));
    if resale > asking then ProfitCents(RoundCents(resale - asking)) else NoProfit
  }

  /** How fast a listing is estimated to sell. */
  datatype SpeedTier = VeryFast | Fast | Profitable | Slow

  function SpeedOf(isHighValue: bool, profitValue: real): SpeedTier
  {
    var isFast := isHighValue || profitValue > 50.0;
    var isVeryFast := isHighValue && profitValue > 100.0;
    if isVeryFast then VeryFast
    else if isFast then Fast
    else if profitValue > 0.0 then Profitable
    else Slow
  }

  /** The sale time in days before rounding, from one draw. */
  function RawSaleDays(tier: SpeedTier, draw: real): real
  {
    match tier
    case VeryFast => draw * 2.0 + 1.0
    case Fast => draw * 4.0 + 3.0
    case Profitable => draw * 7.0 + 7.0
    case Slow => draw * 14.0 + 14.0
  }

  /** `Math.round(avgSaleTimeRaw)`. */
  function SaleDays(tier: SpeedTier, draw: real): int
  {
    JsRound(RawSaleDays(tier, draw))
  }

  /** What the server reports for one listing. */
  datatype Evaluation = Evaluation(resaleCents: int, profit: Profit, avgSaleTime: int, hasProfit: bool)

  /** The resale value used: the lookup's average, or a made-up one when the lookup is loosely 0. */
  function FinalResaleCents(title: string, price: string, lookup: LookupValue, d: Draws): int
  {
    if LooseZero(lookup) then FallbackCents(ParsePrice(price), Multiplier(Classify(title), d))
    else lookup.cents
  }

  /** `(price * multiplier).toFixed(2)`, in cents. */
  function FallbackCents(price: real, multiplier: real): int
  {
    RoundCents(price * multiplier)
  }

  /** `calculateProfit(price, resale.toFixed(2))` for a resale value in cents. */
  function ResaleProfit(price: string, resaleCents: int): Profit
  {
    CalculateProfit(price, FixedString(resaleCents as real / 100.0))
  }

  /** The whole valuation of one listing: resale value, profit, sale time and the profit flag. */
  function Evaluate(title: string, price: string, lookup: LookupValue, d: Draws): Evaluation
  {
    var resale := FinalResaleCents(title, price, lookup, d);
    var profit := ResaleProfit(price, resale);
    var profitValue := ProfitNumber(profit);
    var tier := SpeedOf(Classify(title) == HighValue, profitValue);
    Evaluation(resale, profit, SaleDays(tier, d.saleTime), profitValue > 0.0)
  }

  /**
    `/api/getEbayData`: 400 without a title; 500 when the body has no price
    string (`price.replace` throws and the catch answers 500); otherwise the
    valuation of the title and price.
  */
  function GetEbayData(title: string, price: Option<string>, response: EbayResponse, d: Draws): Result<Evaluation, int>
  {
    if title == [] then Err(400)
    else if price.None? then Err(500)
    else Ok(Evaluate(title, price.value, ResaleValue(title, response), d))
  }

  // ---------------------------------------------------------------------
  // Classification and multiplier.

  /** Two titles that differ only in the case of ASCII letters get the same value class. */
  lemma ClassifyIgnoresCase(title: string, other: string)
    requires LowerAsciiString(title) == LowerAsciiString(other)
    ensures Classify(title) == Classify(other)
  {
    ContainsAnyCILower(title, HighValueWords);
    ContainsAnyCILower(other, HighValueWords);
    ContainsAnyCILower(title, LowValueWords);
    ContainsAnyCILower(other, LowValueWords);
  }

  /** The multiplier's range for each tier and branch, and `[0.5, 1.8)` overall. */
  lemma MultiplierRange(tier: ValueTier, d: Draws)
    requires ValidDraws(d)
    ensures tier == HighValue && d.branch > 0.4 ==> 1.2 <= Multiplier(tier, d) < 1.8
    ensures tier == HighValue && d.branch <= 0.4 ==> 0.8 <= Multiplier(tier, d) < 1.0
    ensures tier == LowValue && d.branch > 0.8 ==> 1.1 <= Multiplier(tier, d) < 1.4
    ensures tier == LowValue && d.branch <= 0.8 ==> 0.5 <= Multiplier(tier, d) < 1.0
    ensures tier == Regular && d.branch > 0.6 ==> 1.1 <= Multiplier(tier, d) < 1.5
    ensures tier == Regular && d.branch <= 0.6 ==> 0.7 <= Multiplier(tier, d) < 1.0
    ensures 0.5 <= Multiplier(tier, d) < 1.8
  {
  }

  // ---------------------------------------------------------------------
  // Profit.

  /** `parseFloat` of a profit's text is its number. */
  lemma ProfitNumberIsParsed(p: Profit)
    ensures OrZero(JsParseFloat(ProfitText(p))) == ProfitNumber(p)
  {
    match p
    case NoProfit =>
      UnsignedDecimalOfDigits("0");
      ParseDigitLed("0");
      assert "0"[..0] == [];
    case ProfitCents(c) =>
      ParseFixedString(c as real / 100.0);
      RoundCentsExact(c);
  }

  /**
    The profit rule: never negative; when the resale value exceeds the asking
    price it is their difference to within half a cent, otherwise exactly 0.
  */
  lemma ProfitRule(askingPrice: string, resaleValue: string)
    ensures var asking := ParsePrice(askingPrice);
            var resale := OrZero(JsParseFloat(resaleValue));
            var p := CalculateProfit(askingPrice, resaleValue);
            ProfitNumber(p) >= 0.0 &&
            (resale > asking ==> p.ProfitCents? && -0.005 <= ProfitNumber(p) - (resale - asking) <= 0.005) &&
            (resale <= asking ==> p == NoProfit)
  {
  }

  /**
    With a resale value and an asking price in whole cents, the profit is
    exactly the difference in cents when positive and 0 otherwise.
  */
  lemma ProfitInCents(askingPrice: string, resale: int, asking: int)
    requires ParsePrice(askingPrice) == asking as real / 100.0
    ensures resale > asking ==> CalculateProfit(askingPrice, FixedString(resale as real / 100.0)) == ProfitCents(resale - asking)
    ensures resale <= asking ==> CalculateProfit(askingPrice, FixedString(resale as real / 100.0)) == NoProfit
  {
    CentsTextParses(resale);
    ProfitOfCents(askingPrice, FixedString(resale as real / 100.0), resale, asking);
  }

  /** A resale text read as a whole number of cents gives the profit in cents. */
  lemma ProfitOfCents(askingPrice: string, resaleValue: string, resale: int, asking: int)
    ensures ParsePrice(askingPrice) == asking as real / 100.0 && OrZero(JsParseFloat(resaleValue)) == resale as real / 100.0 ==>
            CalculateProfit(askingPrice, resaleValue) == if resale > asking then ProfitCents(resale - asking) else NoProfit
  {
    CentsDifference(resale, asking);
  }

  /** The `toFixed(2)` text of a whole number of cents reads back as that amount. */
  lemma CentsTextParses(c: int)
    ensures OrZero(JsParseFloat(FixedString(c as real / 100.0))) == c as real / 100.0
  {
    ParseFixedString(c as real / 100.0);
    RoundCentsExact(c);
    ReadBackAs(JsParseFloat(FixedString(c as real / 100.0)), RoundCents(c as real / 100.0), c);
  }

  /** Reading back a rounded amount that equals `c` cents gives `c` cents. */
  lemma ReadBackAs(o: Option<real>, r: int, c: int)
    ensures o == Some(r as real / 100.0) && r == c ==> OrZero(o) == c as real / 100.0
  {
  }

  /** The difference of two amounts in whole cents rounds to the difference of the cents. */
  lemma CentsDifference(a: int, b: int)
    ensures RoundCents(a as real / 100.0 - b as real / 100.0) == a - b
  {
    assert a as real / 100.0 - b as real / 100.0 == (a - b) as real / 100.0;
    RoundCentsExact(a - b);
  }

  // ---------------------------------------------------------------------
  // Sale time.

  /** The rounded sale time of each tier, and 1 to 28 days overall. */
  lemma SaleDaysRange(tier: SpeedTier, draw: real)
    requires 0.0 <= draw < 1.0
    ensures tier == VeryFast ==> 1 <= SaleDays(tier, draw) <= 3
    ensures tier == Fast ==> 3 <= SaleDays(tier, draw) <= 7
    ensures tier == Profitable ==> 7 <= SaleDays(tier, draw) <= 14
    ensures tier == Slow ==> 14 <= SaleDays(tier, draw) <= 28
    ensures 1 <= SaleDays(tier, draw) <= 28
  {
  }

  /** A listing that is not high-value and makes no profit always gets 14 days or more. */
  lemma UnprofitableIsSlow(isHighValue: bool, profitValue: real, draw: real)
    requires 0.0 <= draw < 1.0
    requires !isHighValue && profitValue <= 0.0
    ensures SpeedOf(isHighValue, profitValue) == Slow
    ensures SaleDays(SpeedOf(isHighValue, profitValue), draw) >= 14
  {
    SaleDaysRange(Slow, draw);
  }

  /** More profit never means a slower tier, for the same value class. */
  lemma SpeedMonotone(isHighValue: bool, p: real, q: real)
    requires p <= q
    ensures Rank(SpeedOf(isHighValue, q)) <= Rank(SpeedOf(isHighValue, p))
  {
  }

  /** Tiers from fastest (0) to slowest (3). */
  function Rank(t: SpeedTier): nat
  {
    match t
    case VeryFast => 0
    case Fast => 1
    case Profitable => 2
    case Slow => 3
  }

  // ---------------------------------------------------------------------
  // The whole valuation.

  /**
    With a lookup value that is not loosely 0, the reported resale value is
    that value, and neither it nor the profit nor its flag depends on the
    random draws.
  */
  lemma RealLookupIgnoresDraws(title: string, price: string, lookup: LookupValue, d: Draws, d': Draws)
    requires !LooseZero(lookup)
    ensures Evaluate(title, price, lookup, d).resaleCents == lookup.cents
    ensures Evaluate(title, price, lookup, d).profit == Evaluate(title, price, lookup, d').profit
    ensures Evaluate(title, price, lookup, d).hasProfit == Evaluate(title, price, lookup, d').hasProfit
  {
    var r := FinalResaleCents(title, price, lookup, d);
    assert r == FinalResaleCents(title, price, lookup, d');
    assert Evaluate(title, price, lookup, d).profit == ResaleProfit(price, r) == Evaluate(title, price, lookup, d').profit;
  }

  /** The made-up resale value, used when the lookup is loosely 0, lies within the multiplier's range of the price. */
  lemma FinalResaleRule(title: string, price: string, lookup: LookupValue, d: Draws)
    requires ValidDraws(d)
    requires LooseZero(lookup)
    ensures RoundCents(0.5 * ParsePrice(price)) <= FinalResaleCents(title, price, lookup, d) <= RoundCents(1.8 * ParsePrice(price))
  {
    ParsePriceNonNegative(price);
    MultiplierBounds(Classify(title), d);
    FallbackBounds(ParsePrice(price), Multiplier(Classify(title), d));
  }

  /** Any non-negative price scaled by a multiplier rounds to between half and 1.8 times the price. */
  lemma FallbackBounds(p: real, m: real)
    requires p >= 0.0 && 0.5 <= m <= 1.8
    ensures RoundCents(0.5 * p) <= FallbackCents(p, m) <= RoundCents(1.8 * p)
  {
    ScaleBetween(p, m, 0.5, 1.8);
  }

  /** The overall range of the multiplier. */
  lemma MultiplierBounds(tier: ValueTier, d: Draws)
    requires ValidDraws(d)
    ensures 0.5 <= Multiplier(tier, d) <= 1.8
  {
    MultiplierRange(tier, d);
  }

  /** A non-negative amount times a factor in `[lo, hi]` lies between `lo` and `hi` times the amount, also once rounded to cents. */
  lemma ScaleBetween(p: real, m: real, lo: real, hi: real)
    requires p >= 0.0 && lo <= m <= hi
    ensures lo * p <= p * m <= hi * p
    ensures RoundCents(lo * p) <= RoundCents(p * m) <= RoundCents(hi * p)
  {
    assert (m - lo) * p >= 0.0 && (hi - m) * p >= 0.0;
    assert (m - lo) * p == p * m - lo * p;
    assert (hi - m) * p == hi * p - p * m;
    RoundCentsMonotone(lo * p, p * m);
    RoundCentsMonotone(p * m, hi * p);
  }

  /** The reported flag and numbers agree: `hasProfit` holds exactly when the profit is positive, and the profit is never negative. */
  lemma EvaluateConsistent(title: string, price: string, lookup: LookupValue, d: Draws)
    ensures var e := Evaluate(title, price, lookup, d);
            e.hasProfit <==> e.profit.ProfitCents? && e.profit.cents > 0
    ensures Evaluate(title, price, lookup, d).profit.ProfitCents? ==> Evaluate(title, price, lookup, d).profit.cents >= 0
  {
    var resale := FinalResaleCents(title, price, lookup, d);
    ProfitRule(price, FixedString(resale as real / 100.0));
  }

  /** The sale time always lies between 1 and 28 days, and a profitless listing that is not high-value takes 14 or more. */
  lemma EvaluateSaleTime(title: string, price: string, lookup: LookupValue, d: Draws)
    requires ValidDraws(d)
    ensures 1 <= Evaluate(title, price, lookup, d).avgSaleTime <= 28
    ensures Classify(title) != HighValue && !Evaluate(title, price, lookup, d).hasProfit ==>
      Evaluate(title, price, lookup, d).avgSaleTime >= 14
  {
    var e := Evaluate(title, price, lookup, d);
    var tier := SpeedOf(Classify(title) == HighValue, ProfitNumber(e.profit));
    SaleDaysRange(tier, d.saleTime);
  }

  /**
    `/api/getEbayData` rejects a request without a title with 400, one without
    a price with 500, and otherwise answers with the valuation, whose flag
    and profit agree and whose sale time lies within 1 to 28 days.
  */
  lemma GetEbayDataRule(title: string, price: Option<string>, response: EbayResponse, d: Draws)
    requires ValidDraws(d)
    ensures GetEbayData(title, price, response, d) == Err(400) <==> title == []
    ensures GetEbayData(title, price, response, d) == Err(500) <==> title != [] && price.None?
    ensures GetEbayData(title, price, response, d).Ok? <==> title != [] && price.Some?
    ensures GetEbayData(title, price, response, d).Ok? ==>
              var e := GetEbayData(title, price, response, d).value;
              e == Evaluate(title, price.value, ResaleValue(title, response), d) &&
              (e.hasProfit <==> e.profit.ProfitCents? && e.profit.cents > 0) &&
              1 <= e.avgSaleTime <= 28
  {
    if title != [] && price.Some? {
      EvaluateConsistent(title, price.value, ResaleValue(title, response), d);
      EvaluateSaleTime(title, price.value, ResaleValue(title, response), d);
    }
  }
}
