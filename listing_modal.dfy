/**
  The listing-detail modal of the browser page (public/listing-modal.js):
  which eBay values it trusts, how it fills missing ones from the listing
  card, how it caches responses and retries fetches, how it shows blank
  values, and how it cleans a description.

  The fetches, timers and DOM are inputs: the answer of the `n`-th fetch is
  `outcome(n)`, a delay is recorded as its length in milliseconds, and the
  values on the listing card are read by the caller.
*/
module ListingModal {
  import opened Base
  import opened JsStrings
  import opened JsNumbers
  import opened ListingApi
  import ClientPaging

  // ---------------------------------------------------------------------
  // Values.

  /** A money field the modal counts as blank: missing, falsy, "0" or "0.00". */
  predicate IsBlankMoney(f: Field)
  {
    !Truthy(f) || f == Text("0") || f == Text("0.00")
  }

  /** `hasValidEbayData`: both the resale value and the profit are present and not blank. */
  predicate HasValidEbayData(d: EbayData)
  {
    !IsBlankMoney(d.resaleValue) && !IsBlankMoney(d.profit)
  }

  /** What the modal reads off the listing card: resale value and profit text, and the sale time `parseInt` read (`None` for NaN). */
  datatype CardValues = CardValues(resaleValue: Option<string>, profit: Option<string>, avgSaleTime: Option<int>)

  /** `s.replace(c, '')` for a one-character string: the first `c` is removed, and only that one. */
  function RemoveFirst(s: string, c: char): (r: string)
    ensures c !in s ==> r == s
    ensures c in s ==> |r| == |s| - 1 && s == BeforeFirst(s, c) + [c] + r[|BeforeFirst(s, c)|..]
  {
    BeforeFirst(s, c) + AfterFirst(s, c)
  }

  /** A money text of the card: trimmed, with its first `$` removed. */
  function CardMoney(text: Option<string>): Option<string>
  {
    match text
    case None => None
    case Some(t) => Some(RemoveFirst(Trim(t), '$'))
  }

  /** Only the first dollar sign goes: "$-$5" reads as "-$5". */
  lemma CardMoneyFirstDollarOnly()
    ensures CardMoney(Some("$-$5")) == Some("-$5")
  {
    var s := "$-$5";
    assert TrimStart(s) == s && TrimEnd(s) == s;
    assert IndexOf(s, '$') == 0;
    assert BeforeFirst(s, '$') == [] && AfterFirst(s, '$') == s[1..];
  }

  /**
    The card fills a field of the response only when the card's value is
    truthy and the field is blank (0 for the sale time); `hasProfit` is never
    touched.
  */
  function MergeCard(d: EbayData, e: CardValues): EbayData
  {
    EbayData(
      d.hasProfit,
      if TruthyText(e.profit) && IsBlankMoney(d.profit) then Text(e.profit.value) else d.profit,
      if TruthyText(e.resaleValue) && IsBlankMoney(d.resaleValue) then Text(e.resaleValue.value) else d.resaleValue,
      if e.avgSaleTime.Some? && e.avgSaleTime.value != 0 && d.avgSaleTime == 0 then e.avgSaleTime.value else d.avgSaleTime)
  }

  /** Each field is replaced by the card's value exactly when that value is truthy and the field blank; otherwise it is unchanged. */
  lemma MergeCardRule(d: EbayData, e: CardValues)
    ensures var m := MergeCard(d, e);
            m.hasProfit == d.hasProfit &&
            (m.resaleValue != d.resaleValue ==> TruthyText(e.resaleValue) && IsBlankMoney(d.resaleValue) && m.resaleValue == Text(e.resaleValue.value)) &&
            (TruthyText(e.resaleValue) && IsBlankMoney(d.resaleValue) ==> m.resaleValue == Text(e.resaleValue.value)) &&
            (m.profit != d.profit ==> TruthyText(e.profit) && IsBlankMoney(d.profit) && m.profit == Text(e.profit.value)) &&
            (TruthyText(e.profit) && IsBlankMoney(d.profit) ==> m.profit == Text(e.profit.value)) &&
            (m.avgSaleTime != d.avgSaleTime ==> d.avgSaleTime == 0 && e.avgSaleTime == Some(m.avgSaleTime) && m.avgSaleTime != 0)
  {
  }

  /** Merging the same card twice changes nothing more. */
  lemma MergeCardIdempotent(d: EbayData, e: CardValues)
    ensures MergeCard(MergeCard(d, e), e) == MergeCard(d, e)
  {
  }

  /** Data that is already valid keeps its resale value and profit whatever the card says. */
  lemma MergeCardKeepsValid(d: EbayData, e: CardValues)
    requires HasValidEbayData(d)
    ensures MergeCard(d, e).resaleValue == d.resaleValue && MergeCard(d, e).profit == d.profit
    ensures HasValidEbayData(MergeCard(d, e))
  {
  }

  // ---------------------------------------------------------------------
  // Fetching with retries.

  /** The number of fetches the modal makes at most. */
  const MaxAttempts := 3

  /** How a fetch ended: an error (network, status or timeout), or a response body. */
  datatype FetchOutcome = Failed | Received(data: EbayData)

  /** What the modal ends up showing. */
  datatype Shown = Details(data: EbayData) | Partial(data: EbayData) | ErrorMessage

  /** The end of a fetch sequence: what is shown, how many fetches were made, and the delays waited between them. */
  datatype Run = Run(shown: Shown, fetches: nat, delays: seq<int>)

  /** `p` is a string that `parseFloat` reads as a positive number. */
  predicate ParsesPositive(p: string)
  {
    var x := JsParseFloat(p);
    x.Some? && x.value > 0.0
  }

  /** What is shown when every fetch failed but the card had a resale value or a profit. */
  function PartialData(e: CardValues): EbayData
  {
    EbayData(
      TruthyText(e.profit) && ParsesPositive(e.profit.value),
      Text(if TruthyText(e.profit) then e.profit.value else "0.00"),
      Text(if TruthyText(e.resaleValue) then e.resaleValue.value else "0.00"),
      IntOr(e.avgSaleTime, 0))
  }

  /**
    `fetchListingWithRetry(attempt)`: a response with valid eBay data, or any
    response at the last attempt, is merged with the card and shown; a
    response without valid data or an error before the last attempt is
    retried after `attempt * 1000` ms; an error at the last attempt shows
    the card's values when it has a resale value or a profit, and an error
    message otherwise.
  */
  function Retry(attempt: nat, e: CardValues, outcome: nat -> FetchOutcome): Run
    requires 1 <= attempt <= MaxAttempts
    decreases MaxAttempts - attempt
  {
    var o := outcome(attempt);
    if o.Received? && (HasValidEbayData(o.data) || attempt == MaxAttempts) then
      Run(Details(MergeCard(o.data, e)), 1, [])
    else if attempt < MaxAttempts then
      var rest := Retry(attempt + 1, e, outcome);
      Run(rest.shown, rest.fetches + 1, [attempt * 1000] + rest.delays)
    else if TruthyText(e.resaleValue) || TruthyText(e.profit) then
      Run(Partial(PartialData(e)), 1, [])
    else
      Run(ErrorMessage, 1, [])
  }

  /** The run `r` from attempt `attempt` on, preceded by the fetches and `delays` of the attempts before it. */
  function After(r: Run, attempt: nat, delays: seq<int>): Run
    requires 1 <= attempt
  {
    Run(r.shown, r.fetches + attempt - 1, delays + r.delays)
  }

  /** A failed attempt before the last moves the run on by one fetch and one delay. */
  lemma RetryStep(attempt: nat, e: CardValues, outcome: nat -> FetchOutcome, delays: seq<int>)
    requires 1 <= attempt < MaxAttempts
    requires !(outcome(attempt).Received? && HasValidEbayData(outcome(attempt).data))
    ensures After(Retry(attempt, e, outcome), attempt, delays) ==
            After(Retry(attempt + 1, e, outcome), attempt + 1, delays + [attempt * 1000])
  {
    var rest := Retry(attempt + 1, e, outcome);
    assert delays + ([attempt * 1000] + rest.delays) == (delays + [attempt * 1000]) + rest.delays;
  }

  /**
    From attempt `a`: between 1 and `MaxAttempts - a + 1` fetches are made,
    the delay before fetch `a + i + 1` is `(a + i) * 1000` ms, every fetch but
    the last ended in an error or without valid eBay data, and the last one
    is the final attempt or brought valid data.
  */
  lemma {:induction false} RetryBounds(a: nat, e: CardValues, outcome: nat -> FetchOutcome)
    requires 1 <= a <= MaxAttempts
    ensures var r := Retry(a, e, outcome);
            1 <= r.fetches <= MaxAttempts - a + 1 && |r.delays| == r.fetches - 1 &&
            (forall i :: 0 <= i < |r.delays| ==> r.delays[i] == (a + i) * 1000) &&
            (forall j :: a <= j < a + r.fetches - 1 ==> !(outcome(j).Received? && HasValidEbayData(outcome(j).data))) &&
            (a + r.fetches - 1 == MaxAttempts ||
             (outcome(a + r.fetches - 1).Received? && HasValidEbayData(outcome(a + r.fetches - 1).data)))
    decreases MaxAttempts - a
  {
    var o := outcome(a);
    if !(o.Received? && (HasValidEbayData(o.data) || a == MaxAttempts)) && a < MaxAttempts {
      RetryBounds(a + 1, e, outcome);
      var rest := Retry(a + 1, e, outcome);
      var r := Retry(a, e, outcome);
      assert r.delays == [a * 1000] + rest.delays;
      forall i | 0 <= i < |r.delays|
        ensures r.delays[i] == (a + i) * 1000
      {
        if i > 0 {
          assert r.delays[i] == rest.delays[i - 1];
        }
      }
    }
  }

  /**
    What is shown from attempt `a` comes from the last fetch made: its
    response merged with the card, or, when that fetch failed (which happens
    only at the last attempt), the card's values or an error message.
  */
  lemma {:induction false} RetryShows(a: nat, e: CardValues, outcome: nat -> FetchOutcome)
    requires 1 <= a <= MaxAttempts
    ensures var r := Retry(a, e, outcome);
            var last := a + r.fetches - 1;
            1 <= last <= MaxAttempts &&
            (r.shown.Details? <==> outcome(last).Received?) &&
            (r.shown.Details? ==> r.shown.data == MergeCard(outcome(last).data, e)) &&
            (!r.shown.Details? ==> last == MaxAttempts) &&
            (r.shown.Partial? <==> outcome(last).Failed? && (TruthyText(e.resaleValue) || TruthyText(e.profit))) &&
            (r.shown.Partial? ==> r.shown.data == PartialData(e))
    decreases MaxAttempts - a
  {
    var o := outcome(a);
    if !(o.Received? && (HasValidEbayData(o.data) || a == MaxAttempts)) && a < MaxAttempts {
      RetryShows(a + 1, e, outcome);
    }
  }

  /** When every fetch returns the route's defaults, the modal fetches three times, waits 1 and 2 seconds, and shows the merged defaults. */
  lemma DefaultsAreRetried(e: CardValues, outcome: nat -> FetchOutcome)
    requires forall n :: outcome(n) == Received(DefaultEbayData)
    ensures Retry(1, e, outcome) == Run(Details(MergeCard(DefaultEbayData, e)), 3, [1000, 2000])
  {
    assert !HasValidEbayData(DefaultEbayData);
    assert Retry(3, e, outcome) == Run(Details(MergeCard(DefaultEbayData, e)), 1, []);
    assert Retry(2, e, outcome) == Run(Details(MergeCard(DefaultEbayData, e)), 2, [2000]);
  }

  /**
    The route's eBay data is valid for the modal exactly when the lookup gave
    a non-zero average `a` that does not print as "0.00" and a profit
    `a - price` that does not print as "0.00" either, that is, when neither
    lies in `[0, 0.005)`. A loss under half a cent prints "-0.00" and counts
    as valid.
  */
  lemma EbayDataValidity(price: real, answer: EbayAnswer)
    ensures HasValidEbayData(EbayProfitData(price, answer)) <==>
              HasAverage(answer) &&
              FixedString(answer.averagePrice.value) != "0.00" &&
              FixedString(answer.averagePrice.value - price) != "0.00"
    ensures HasValidEbayData(EbayProfitData(price, answer)) <==>
              HasAverage(answer) &&
              !(0.0 <= answer.averagePrice.value < 0.005) &&
              !(0.0 <= answer.averagePrice.value - price < 0.005)
  {
    if HasAverage(answer) {
      var a := answer.averagePrice.value;
      FixedStringZero(a);
      FixedStringZero(a - price);
    }
  }

  /**
    A listing priced at exactly its eBay average has a profit of "0.00",
    which the modal takes for missing data: it refetches.
  */
  lemma BreakEvenIsRetried(price: real)
    requires price != 0.0
    ensures !HasValidEbayData(EbayProfitData(price, Answer(Some(price), None)))
  {
    EbayDataValidity(price, Answer(Some(price), None));
  }

  /** The listing data the modal holds and patches in place. */
  class ListingData {
    var hasProfit: bool
    var profit: Field
    var resaleValue: Field
    var avgSaleTime: int

    /** The eBay values of the object. */
    function Value(): EbayData
      reads this
    {
      EbayData(hasProfit, profit, resaleValue, avgSaleTime)
    }

    constructor (d: EbayData)
      ensures Value() == d
    {
      hasProfit := d.hasProfit;
      profit := d.profit;
      resaleValue := d.resaleValue;
      avgSaleTime := d.avgSaleTime;
    }

    /** Fill blank fields from the card, one field at a time. */
    method MergeExisting(e: CardValues)
      modifies this
      ensures Value() == MergeCard(old(Value()), e)
    {
      if TruthyText(e.resaleValue) && (!Truthy(resaleValue) || resaleValue == Text("0") || resaleValue == Text("0.00")) {
        resaleValue := Text(e.resaleValue.value);
      }
      if TruthyText(e.profit) && (!Truthy(profit) || profit == Text("0") || profit == Text("0.00")) {
        profit := Text(e.profit.value);
      }
      if e.avgSaleTime.Some? && e.avgSaleTime.value != 0 && avgSaleTime == 0 {
        avgSaleTime := e.avgSaleTime.value;
      }
    }
  }

  /** The cache key of a listing: its id and URL joined by `-`. */
  function CacheKey(listingId: string, listingUrl: string): string
  {
    listingId + "-" + listingUrl
  }

  /** Two different listings can share a key when ids contain `-`. */
  lemma CacheKeyCollides()
    ensures CacheKey("a-b", "c") == CacheKey("a", "b-c")
  {
  }

  /** The ids the server gives (`listing-<n>`) never share a key: the key determines the id and the URL. */
  lemma CacheKeyInjective(i: nat, j: nat, u: string, v: string)
    requires CacheKey("listing-" + NatToString(i), u) == CacheKey("listing-" + NatToString(j), v)
    ensures i == j && u == v
  {
    var p := "listing-";
    PrefixedKey(p, NatToString(i), u);
    PrefixedKey(p, NatToString(j), v);
    DigitsBeforeDash(NatToString(i), u);
    DigitsBeforeDash(NatToString(j), v);
    DigitsValueOfNatToString(i);
    DigitsValueOfNatToString(j);
  }

  /** The key of an id with prefix `p` is `p` followed by the key of the rest of the id. */
  lemma PrefixedKey(p: string, id: string, u: string)
    ensures CacheKey(p + id, u) == p + (id + "-" + u)
    ensures CacheKey(p + id, u)[|p|..] == id + "-" + u
  {
    assert CacheKey(p + id, u) == p + (id + "-" + u);
  }

  /** A run of digits followed by `-` ends right before the first `-`. */
  lemma DigitsBeforeDash(d: string, rest: string)
    requires AllDigits(d)
    ensures IndexOf(d + "-" + rest, '-') == |d|
    ensures BeforeFirst(d + "-" + rest, '-') == d
    ensures (d + "-" + rest)[|d| + 1..] == rest
  {
    var s := d + "-" + rest;
    assert forall k :: 0 <= k < |d| ==> s[k] == d[k] && s[k] != '-';
    assert s[|d|] == '-';
    IndexOfFirst(s, '-', |d|);
  }

  /** The first occurrence is where the character is found with none before it. */
  lemma {:induction false} IndexOfFirst(s: string, c: char, i: nat)
    requires i < |s| && s[i] == c && forall k :: 0 <= k < i ==> s[k] != c
    ensures IndexOf(s, c) == i
  {
    if i > 0 {
      IndexOfFirst(s[1..], c, i - 1);
    }
  }

  /** The page's modal state: the cache of listing data by key. */
  class ModalState {
    var cache: map<string, ListingData>

    /** No two keys share an object, so patching one entry leaves the others alone. */
    ghost predicate Valid()
      reads this
    {
      forall k1, k2 :: k1 in cache && k2 in cache && k1 != k2 ==> cache[k1] != cache[k2]
    }

    /** The values the cache holds. */
    ghost function Entries(): map<string, EbayData>
      reads this, cache.Values
    {
      map k | k in cache :: cache[k].Value()
    }

    constructor ()
      ensures Valid() && Entries() == map[]
    {
      cache := map[];
    }

    /**
      `fetchListingWithRetry`: fetch until the data is valid or the attempts
      run out, and cache and show the merged response, or show the card's
      values or an error.
    */
    method FetchListingWithRetry(key: string, e: CardValues, outcome: nat -> FetchOutcome) returns (run: Run)
      requires Valid()
      modifies this
      ensures Valid()
      ensures run == Retry(1, e, outcome)
      ensures Entries() == if run.shown.Details? then old(Entries())[key := run.shown.data] else old(Entries())
    {
      var attempt := 1;
      var delays: seq<int> := [];
      while true
        invariant 1 <= attempt <= MaxAttempts && |delays| == attempt - 1
        invariant Retry(1, e, outcome) == After(Retry(attempt, e, outcome), attempt, delays)
        invariant cache == old(cache)
        decreases MaxAttempts - attempt
      {
        var response := outcome(attempt);
        if response.Received? && (HasValidEbayData(response.data) || attempt == MaxAttempts) {
          var shown := StoreMerged(key, response.data, e);
          run := Run(Details(shown), attempt, delays);
          assert delays + [] == delays;
          return;
        }
        if attempt < MaxAttempts {
          RetryStep(attempt, e, outcome, delays);
          delays := delays + [attempt * 1000];
          attempt := attempt + 1;
        } else {
          if TruthyText(e.resaleValue) || TruthyText(e.profit) {
            run := Run(Partial(PartialData(e)), attempt, delays);
          } else {
            run := Run(ErrorMessage, attempt, delays);
          }
          assert delays + [] == delays;
          return;
        }
      }
    }

    /**
      `openListingModal` from the cache lookup on: a cached entry is patched
      from the card and shown without any fetch; otherwise the fetches run.
    */
    method Open(listingId: string, listingUrl: string, e: CardValues, outcome: nat -> FetchOutcome) returns (run: Run)
      requires Valid()
      modifies this, cache.Values
      ensures Valid()
      ensures var key := CacheKey(listingId, listingUrl);
              key in old(Entries()) ==>
                run == Run(Details(MergeCard(old(Entries())[key], e)), 0, []) &&
                Entries() == old(Entries())[key := MergeCard(old(Entries())[key], e)]
      ensures var key := CacheKey(listingId, listingUrl);
              key !in old(Entries()) ==>
                run == Retry(1, e, outcome) &&
                Entries() == if run.shown.Details? then old(Entries())[key := run.shown.data] else old(Entries())
    {
      var cacheKey := CacheKey(listingId, listingUrl);
      if cacheKey in cache {
        var data := PatchCached(cacheKey, e);
        run := Run(Details(data), 0, []);
      } else {
        run := FetchListingWithRetry(cacheKey, e, outcome);
      }
    }

    /** Cache a new object holding the response merged with the card, under `key`. */
    method StoreMerged(key: string, d: EbayData, e: CardValues) returns (shown: EbayData)
      requires Valid()
      modifies this
      ensures Valid()
      ensures shown == MergeCard(d, e)
      ensures Entries() == old(Entries())[key := shown]
    {
      var data := new ListingData(d);
      data.MergeExisting(e);
      cache := cache[key := data];
      shown := data.Value();
      StoreEntry(old(cache), key, data);
    }

    /** Patch the cached object under `key` from the card, in place. */
    method PatchCached(key: string, e: CardValues) returns (data: EbayData)
      requires Valid() && key in cache
      modifies cache[key]
      ensures Valid() && cache == old(cache)
      ensures data == MergeCard(old(Entries())[key], e)
      ensures Entries() == old(Entries())[key := data]
    {
      var cachedData := cache[key];
      cachedData.MergeExisting(e);
      data := cachedData.Value();
      assert forall k :: k in cache && k != key ==> cache[k] != cachedData;
    }

    /** Storing a fresh object under a key keeps the objects distinct and sets that key's value. */
    lemma StoreEntry(before: map<string, ListingData>, key: string, data: ListingData)
      requires cache == before[key := data]
      requires forall k1, k2 :: k1 in before && k2 in before && k1 != k2 ==> before[k1] != before[k2]
      requires data !in before.Values
      ensures Valid()
      ensures Entries() == (map k | k in before :: before[k].Value())[key := data.Value()]
    {
    }
  }

  // ---------------------------------------------------------------------
  // Showing the details.

  /** A value as the modal shows it: the placeholder "---" or the value itself. */
  datatype Display<T> = Dashes | Value(value: T)

  /** Resale value and profit: "---" when blank, otherwise unchanged. */
  function DisplayMoney(f: Field): Display<Field>
  {
    if IsBlankMoney(f) then Dashes else Value(f)
  }

  /** The sale time: "---" unless positive. */
  function DisplaySaleTime(days: int): Display<int>
  {
    if days > 0 then Value(days) else Dashes
  }

  /** `parseFloat` of a shown money value. */
  function FieldNumber(f: Field): Option<real>
  {
    match f
    case Missing => None
    case Num(n) => Some(n)
    case Text(s) => JsParseFloat(s)
  }

  /** The class of the shown profit: positive only for a shown value that reads as a positive number. */
  function ProfitClass(profit: Display<Field>): string
  {
    if profit.Value? && FieldNumber(profit.value).Some? && FieldNumber(profit.value).value > 0.0
    then "positive-profit" else "negative-profit"
  }

  /** The class of the shown sale time: none for "---", otherwise by the 3- and 7-day thresholds. */
  function SaleTimeClassOf(days: Display<int>): string
  {
    if days.Value? then ClientPaging.SaleTimeClass(days.value) else ""
  }

  /** The values `displayListingDetails` fills into the modal. */
  datatype View = View(price: string, resaleValue: Display<Field>, profit: Display<Field>, avgSaleTime: Display<int>,
                       profitClass: string, saleTimeClass: string)

  /** `displayListingDetails`: the price (or "$0.00") and the normalised eBay values with their classes. */
  function DetailsView(price: Option<string>, d: EbayData): View
  {
    var profit := DisplayMoney(d.profit);
    var days := DisplaySaleTime(d.avgSaleTime);
    View(if TruthyText(price) then price.value else "$0.00", DisplayMoney(d.resaleValue), profit, days,
         ProfitClass(profit), SaleTimeClassOf(days))
  }

  /** The data is valid exactly when the modal shows both its resale value and its profit. */
  lemma ValidIffBothShown(d: EbayData)
    ensures HasValidEbayData(d) <==> DetailsView(None, d).resaleValue.Value? && DetailsView(None, d).profit.Value?
  {
  }

  /**
    The profit class is "positive-profit" exactly when the profit is shown
    and reads as a positive number; the sale-time class is empty exactly when
    the sale time is not positive.
  */
  lemma DetailsViewClasses(price: Option<string>, d: EbayData)
    ensures var v := DetailsView(price, d);
            (v.profitClass == "positive-profit" <==>
              !IsBlankMoney(d.profit) && FieldNumber(d.profit).Some? && FieldNumber(d.profit).value > 0.0) &&
            (v.saleTimeClass == "" <==> d.avgSaleTime <= 0) &&
            (d.avgSaleTime > 0 ==> v.saleTimeClass == ClientPaging.SaleTimeClass(d.avgSaleTime))
  {
  }

  /** The route's defaults show as "---" everywhere but in the 30-day sale time, with a negative profit class. */
  lemma DefaultsView()
    ensures DetailsView(None, DefaultEbayData) ==
            View("$0.00", Dashes, Dashes, Value(30), "negative-profit", "sale-time-slow")
  {
  }

  // ---------------------------------------------------------------------
  // The description.

  const NoDescription := "No description available"
  const NoDetail := "No detailed description available. Please check the original listing for more information."

  /** The two checks for a description that is only the title and price of a laptop. */
  predicate LooksLikeTitleAndPrice(d: string)
  {
    var condition := Contains(d, "Like New") || Contains(d, "Excellent Condition");
    (Contains(d, "MacBook Pro") && Contains(d, "Laptop") && condition && Contains(d, "$")) ||
    (Contains(d, "Laptop") && Contains(d, "$") && condition && Utf16Length(d) < 200)
  }

  /** The first four lines all hold a white-space character, and at least one line follows them. */
  predicate HasHeaderLines(lines: seq<string>)
  {
    |lines| >= 5 && forall k :: 0 <= k < 4 ==> HasSpace(lines[k])
  }

  /** Drop the first four lines when there are at least five and each of the four has white space. */
  function DropHeaderLines(text: string): string
  {
    var lines := Split(text, '\n');
    if HasHeaderLines(lines) then Join(lines[4..], '\n') else text
  }

  /** Either the text is kept whole, or exactly its first four lines are cut and what is left is a proper end of it. */
  lemma DropHeaderLinesRule(text: string)
    ensures !HasHeaderLines(Split(text, '\n')) ==> DropHeaderLines(text) == text
    ensures HasHeaderLines(Split(text, '\n')) ==>
              DropHeaderLines(text) == Join(Split(text, '\n')[4..], '\n') &&
              exists j :: 0 < j <= |text| && text[j..] == DropHeaderLines(text)
  {
    var lines := Split(text, '\n');
    if HasHeaderLines(lines) {
      JoinSplit(text, '\n');
      JoinSuffix(lines, '\n', 4);
      var j :| 0 <= j <= |Join(lines, '\n')| && Join(lines, '\n')[j..] == Join(lines[4..], '\n');
      JoinPrefixLength(lines, '\n', 4);
      assert j > 0;
    }
  }

  /** Joining from the `k`-th piece on drops at least `k` separators. */
  lemma {:induction false} JoinPrefixLength(parts: seq<string>, sep: char, k: nat)
    requires 0 < k < |parts|
    ensures |Join(parts[k..], sep)| + k <= |Join(parts, sep)|
  {
    assert |Join(parts, sep)| == |parts[0]| + 1 + |Join(parts[1..], sep)|;
    if k > 1 {
      JoinPrefixLength(parts[1..], sep, k - 1);
      assert parts[1..][k - 1..] == parts[k..];
    }
  }

  /**
    `cleanDescription`: a falsy description gives the "no description"
    message, one that looks like a laptop's title and price gives the "no
    detail" message; otherwise the clean-ups run (the HTML and regular
    expression passes, given as `cleanups`), the header lines are dropped,
    the text is trimmed, and a text left empty or "&nbsp;" gives the "no
    detail" message. The result is never blank.
  */
  function CleanDescription(description: Option<string>, cleanups: string -> string): (r: string)
    ensures r != "" && r != "&nbsp;"
    ensures !TruthyText(description) ==> r == NoDescription
  {
    if !TruthyText(description) then NoDescription
    else if LooksLikeTitleAndPrice(description.value) then NoDetail
    else
      var cleanText := Trim(DropHeaderLines(cleanups(description.value)));
      if cleanText == "" || cleanText == "&nbsp;" then NoDetail else cleanText
  }

  /** A non-blank cleaned text is returned as it is, without white space at either end. */
  lemma CleanDescriptionKeeps(description: string, cleanups: string -> string)
    requires description != "" && !LooksLikeTitleAndPrice(description)
    ensures var t := Trim(DropHeaderLines(cleanups(description)));
            t != "" && t != "&nbsp;" ==> CleanDescription(Some(description), cleanups) == t
    ensures var r := CleanDescription(Some(description), cleanups);
            r == NoDetail || (|r| > 0 && !IsJsSpace(r[0]) && !IsJsSpace(r[|r| - 1]))
  {
    var t := Trim(DropHeaderLines(cleanups(description)));
    TrimIsTrimmedSlice(DropHeaderLines(cleanups(description)));
    assert CleanDescription(Some(description), cleanups) == if t == "" || t == "&nbsp;" then NoDetail else t;
  }
}
