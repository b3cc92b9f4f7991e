/**
  The `/api/listing-details` route (routes/listing-api.js): what it does with
  a scraped Craigslist page once the page is in hand. The route rejects a
  request without a URL, collects the image sources of the gallery (or, when
  the gallery has none, of every Craigslist image, rewritten to full size),
  splits the `key: value` attribute spans into a dictionary, and asks eBay for
  an average price to compute a signed profit, keeping fixed defaults when
  the lookup fails.

  The page download and the selector queries are inputs: a page is the texts
  and attribute values the selectors found, in document order.
*/
module ListingApi {
  import opened Base
  import opened JsStrings
  import opened JsNumbers
  import opened Price
  import opened ResaleLookup

  // ---------------------------------------------------------------------
  // JSON values and the eBay data of a listing.

  /** A money field of the JSON response: absent, a number, or a string. */
  datatype Field = Missing | Num(n: real) | Text(s: string)

  /** JavaScript truthiness of a field: absent, 0 and "" are falsy. */
  predicate Truthy(f: Field)
  {
    match f
    case Missing => false
    case Num(n) => n != 0.0
    case Text(s) => s != ""
  }

  /** JavaScript truthiness of a string that may be `null` or `undefined`. */
  predicate TruthyText(s: Option<string>)
  {
    s.Some? && s.value != ""
  }

  /** The eBay part of the response: profit and resale value are numbers by default and `toFixed(2)` strings otherwise. */
  datatype EbayData = EbayData(hasProfit: bool, profit: Field, resaleValue: Field, avgSaleTime: int)

  /** The eBay data sent when there is no average price to go by. */
  const DefaultEbayData := EbayData(false, Num(0.0), Num(0.0), 30)

  /** What the eBay lookup did: threw, resolved to nothing, or answered with an average price and sale time. */
  datatype EbayAnswer = Threw | NoAnswer | Answer(averagePrice: Option<real>, averageSaleDays: Option<int>)

  /** The answer carries a truthy average price. */
  predicate HasAverage(answer: EbayAnswer)
  {
    answer.Answer? && answer.averagePrice.Some? && answer.averagePrice.value != 0.0
  }

  /**
    The eBay data for a listing whose price reads as `listingPrice` (the
    price text with `$` and `,` stripped, through `parseFloat`, or 0): the
    defaults unless the lookup answered with a non-zero average; otherwise
    the signed difference between the average and the price, both printed to
    two decimals, and the average sale time or 30 days.
  */
  function EbayProfitData(listingPrice: real, answer: EbayAnswer): EbayData
  {
    if HasAverage(answer) then
      var ebayPrice := answer.averagePrice.value;
      var profit := ebayPrice - listingPrice;
      EbayData(profit > 0.0, Text(FixedString(profit)), Text(FixedString(ebayPrice)), IntOr(answer.averageSaleDays, 30))
    else
      DefaultEbayData
  }

  /**
    What the eBay data reads back as. Without a non-zero average the defaults
    stay. With an average `resale`, and `profit` the average minus the listing
    price, `parseFloat` reads the profit text back as `profit` rounded to
    cents, sign included, and the resale text as `resale` rounded to cents;
    `hasProfit` holds exactly when `profit` is positive, and the profit never
    reads back with the opposite sign.
  */
  lemma EbayDataReadsBack(listingPrice: real, answer: EbayAnswer, resale: real, profit: real)
    requires HasAverage(answer) ==> resale == answer.averagePrice.value && profit == resale - listingPrice
    ensures !HasAverage(answer) ==> EbayProfitData(listingPrice, answer) == DefaultEbayData
    ensures HasAverage(answer) ==>
              var d := EbayProfitData(listingPrice, answer);
              d.profit.Text? && d.resaleValue.Text? &&
              JsParseFloat(d.profit.s) == Some(RoundCents(profit) as real / 100.0) &&
              JsParseFloat(d.resaleValue.s) == Some(RoundCents(resale) as real / 100.0)
    ensures HasAverage(answer) ==>
              var d := EbayProfitData(listingPrice, answer);
              (d.hasProfit <==> profit > 0.0) &&
              (d.hasProfit ==> RoundCents(profit) >= 0) &&
              (!d.hasProfit ==> RoundCents(profit) <= 0)
  {
    if HasAverage(answer) {
      ProfitReadsBack(listingPrice, answer, profit);
      ResaleReadsBack(listingPrice, answer, resale);
      RoundCentsBounds(profit);
    }
  }

  lemma ProfitReadsBack(listingPrice: real, answer: EbayAnswer, profit: real)
    requires HasAverage(answer) && profit == answer.averagePrice.value - listingPrice
    ensures EbayProfitData(listingPrice, answer).profit.Text?
    ensures EbayProfitData(listingPrice, answer).hasProfit == (profit > 0.0)
    ensures JsParseFloat(EbayProfitData(listingPrice, answer).profit.s) == Some(RoundCents(profit) as real / 100.0)
  {
    EbayTexts(listingPrice, answer);
    ParseFixedString(profit);
  }

  lemma ResaleReadsBack(listingPrice: real, answer: EbayAnswer, resale: real)
    requires HasAverage(answer) && resale == answer.averagePrice.value
    ensures EbayProfitData(listingPrice, answer).resaleValue.Text?
    ensures JsParseFloat(EbayProfitData(listingPrice, answer).resaleValue.s) == Some(RoundCents(resale) as real / 100.0)
  {
    EbayTexts(listingPrice, answer);
    ParseFixedString(resale);
  }

  /** With an average, the two money fields are the `toFixed(2)` texts of the profit and the average. */
  lemma EbayTexts(listingPrice: real, answer: EbayAnswer)
    requires HasAverage(answer)
    ensures EbayProfitData(listingPrice, answer).profit == Text(FixedString(answer.averagePrice.value - listingPrice))
    ensures EbayProfitData(listingPrice, answer).resaleValue == Text(FixedString(answer.averagePrice.value))
    ensures EbayProfitData(listingPrice, answer).hasProfit == (answer.averagePrice.value > listingPrice)
  {
  }

  /** The profit is signed: a $1,200 listing against a $1000 average shows a loss of 200 and no profit. */
  lemma SignedProfitExample()
    ensures var d := EbayProfitData(ParseListingPrice("$1,200"), Answer(Some(1000.0), None));
            !d.hasProfit && JsParseFloat(d.profit.s) == Some(-200.0)
  {
    ParseListingPriceThousands();
    EbayDataReadsBack(1200.0, Answer(Some(1000.0), None), 1000.0, -200.0);
    assert RoundCents(-200.0) == -20000;
  }

  // ---------------------------------------------------------------------
  // Images.

  /**
    The gallery pass over the `src` attributes of the gallery images: each
    truthy source is added once, when first seen.
  */
  function Gallery(srcs: seq<Option<string>>): seq<string>
  {
    if srcs == [] then []
    else
      var images := Gallery(srcs[..|srcs| - 1]);
      var src := srcs[|srcs| - 1];
      if TruthyText(src) && src.value !in images then images + [src.value] else images
  }

  /** No element occurs twice. */
  predicate Distinct<T(==)>(s: seq<T>)
  {
    forall i, j :: 0 <= i < j < |s| ==> s[i] != s[j]
  }

  /** The gallery pass, as the route runs it: a loop that pushes onto `images`. */
  method GalleryImages(srcs: seq<Option<string>>) returns (images: seq<string>)
    ensures images == Gallery(srcs)
  {
    images := [];
    for i := 0 to |srcs|
      invariant images == Gallery(srcs[..i])
    {
      assert srcs[..i + 1][..i] == srcs[..i];
      var src := srcs[i];
      if src.Some? && src.value != "" && src.value !in images {
        images := images + [src.value];
      }
    }
    assert srcs[..|srcs|] == srcs;
  }

  /** The gallery holds no source twice, and holds exactly the truthy sources. */
  lemma {:induction false} GalleryDistinctMembers(srcs: seq<Option<string>>)
    ensures Distinct(Gallery(srcs))
    ensures forall v :: v in Gallery(srcs) <==> v != "" && Some(v) in srcs
  {
    if srcs != [] {
      var init := srcs[..|srcs| - 1];
      GalleryDistinctMembers(init);
      assert srcs == init + [srcs[|srcs| - 1]];
    }
  }

  /** First-seen order: what the first sources contribute stays at the front when more sources follow. */
  lemma {:induction false} GalleryPrefix(srcs: seq<Option<string>>, more: seq<Option<string>>)
    ensures |Gallery(srcs)| <= |Gallery(srcs + more)|
    ensures Gallery(srcs + more)[..|Gallery(srcs)|] == Gallery(srcs)
  {
    if more != [] {
      var init := more[..|more| - 1];
      GalleryPrefix(srcs, init);
      var whole := srcs + more;
      assert whole[..|whole| - 1] == srcs + init;
      var g := Gallery(srcs + init);
      assert whole[|whole| - 1] == more[|more| - 1];
      assert Gallery(whole) == g || Gallery(whole) == g + [more[|more| - 1].value];
      assert Gallery(whole)[..|g|] == g;
      assert Gallery(whole)[..|Gallery(srcs)|] == g[..|Gallery(srcs)|];
    } else {
      assert srcs + more == srcs;
    }
  }

  /** Host every fallback image must come from. */
  const CraigslistHost := "images.craigslist"
  /** Thumbnail size marker in an image URL and its full-size replacement. */
  const Thumbnail := "50x50c"
  const FullSize := "600x450"

  /** `s.replace(pat, rep)` for a plain string pattern: only the first occurrence is replaced. */
  function ReplaceFirst(s: string, pat: string, rep: string): string
    requires pat != []
    decreases |s|
  {
    if |pat| <= |s| && s[..|pat|] == pat then rep + s[|pat|..]
    else if s == [] then []
    else [s[0]] + ReplaceFirst(s[1..], pat, rep)
  }

  /** A string without the pattern is left alone. */
  lemma {:induction false} ReplaceFirstAbsent(s: string, pat: string, rep: string)
    requires pat != [] && !Contains(s, pat)
    ensures ReplaceFirst(s, pat, rep) == s
    decreases |s|
  {
    if s != [] {
      ReplaceFirstAbsent(s[1..], pat, rep);
    }
  }

  /**
    The fallback pass over every image on the page: a truthy source on the
    Craigslist image host is added, with its thumbnail size rewritten to full
    size, unless that same unrewritten source is already in the list.
  */
  function Fallback(srcs: seq<Option<string>>): seq<string>
  {
    if srcs == [] then []
    else
      var images := Fallback(srcs[..|srcs| - 1]);
      var src := srcs[|srcs| - 1];
      if TruthyText(src) && Contains(src.value, CraigslistHost) && src.value !in images
      then images + [ReplaceFirst(src.value, Thumbnail, FullSize)]
      else images
  }

  /** The fallback pass, as the route runs it. */
  method FallbackImages(srcs: seq<Option<string>>) returns (images: seq<string>)
    ensures images == Fallback(srcs)
  {
    images := [];
    for i := 0 to |srcs|
      invariant images == Fallback(srcs[..i])
    {
      assert srcs[..i + 1][..i] == srcs[..i];
      var src := srcs[i];
      if src.Some? && src.value != "" && Contains(src.value, CraigslistHost) && src.value !in images {
        var fullSizeSrc := ReplaceFirst(src.value, Thumbnail, FullSize);
        images := images + [fullSizeSrc];
      }
    }
    assert srcs[..|srcs|] == srcs;
  }

  /**
    Every fallback image comes from a source on the Craigslist host, and when
    no source has a thumbnail marker the sources are taken as they are and
    none is taken twice.
  */
  lemma {:induction false} FallbackSources(srcs: seq<Option<string>>)
    ensures forall v :: v in Fallback(srcs) ==>
              exists k :: 0 <= k < |srcs| && TruthyText(srcs[k]) && Contains(srcs[k].value, CraigslistHost) &&
                          v == ReplaceFirst(srcs[k].value, Thumbnail, FullSize)
    ensures (forall k :: 0 <= k < |srcs| && srcs[k].Some? ==> !Contains(srcs[k].value, Thumbnail)) ==>
              Distinct(Fallback(srcs)) && forall v :: v in Fallback(srcs) ==> Some(v) in srcs
  {
    if srcs != [] {
      var init := srcs[..|srcs| - 1];
      FallbackSources(init);
      var src := srcs[|srcs| - 1];
      if src.Some? && !Contains(src.value, Thumbnail) {
        ReplaceFirstAbsent(src.value, Thumbnail, FullSize);
      }
      forall v | v in Fallback(srcs)
        ensures exists k :: 0 <= k < |srcs| && TruthyText(srcs[k]) && Contains(srcs[k].value, CraigslistHost) &&
                            v == ReplaceFirst(srcs[k].value, Thumbnail, FullSize)
      {
        if v in Fallback(init) {
          var k :| 0 <= k < |init| && TruthyText(init[k]) && Contains(init[k].value, CraigslistHost) &&
                   v == ReplaceFirst(init[k].value, Thumbnail, FullSize);
          assert srcs[k] == init[k];
        } else {
          assert srcs[|srcs| - 1] == src;
        }
      }
      if forall k :: 0 <= k < |srcs| && srcs[k].Some? ==> !Contains(srcs[k].value, Thumbnail) {
        assert forall k :: 0 <= k < |init| ==> init[k] == srcs[k];
        assert srcs == init + [src];
      }
    }
  }

  /**
    The duplicate check compares the unrewritten source with the rewritten
    list, so a thumbnail that occurs twice is added twice.
  */
  lemma RepeatedThumbnailAddedTwice()
    ensures var t := Thumbnail + "/" + CraigslistHost;
            var r := FullSize + "/" + CraigslistHost;
            Fallback([Some(t), Some(t)]) == [r, r]
  {
    var tail := "/" + CraigslistHost;
    var t := Thumbnail + tail;
    var r := FullSize + tail;
    assert t[|Thumbnail| + 1..|Thumbnail| + 1 + |CraigslistHost|] == CraigslistHost;
    ContainsAt(t, CraigslistHost, |Thumbnail| + 1);
    assert t[..|Thumbnail|] == Thumbnail && t[|Thumbnail|..] == tail;
    assert ReplaceFirst(t, Thumbnail, FullSize) == r;
    assert [Some(t), Some(t)][..1] == [Some(t)];
    assert [Some(t)][..0] == [];
    assert Fallback([Some(t)]) == [r];
    assert t[0] != r[0];
    assert Fallback([Some(t), Some(t)]) == [r] + [r];
    assert t == Thumbnail + "/" + CraigslistHost && r == FullSize + "/" + CraigslistHost;
  }

  /** The images of the page: the gallery pass, or the fallback pass when the gallery gave nothing. */
  function Images(gallery: seq<Option<string>>, all: seq<Option<string>>): (images: seq<string>)
    ensures Gallery(gallery) != [] ==> images == Gallery(gallery)
    ensures Gallery(gallery) == [] ==> images == Fallback(all)
  {
    var g := Gallery(gallery);
    if g != [] then g else Fallback(all)
  }

  /** The fallback pass runs exactly when no gallery image has a truthy source. */
  lemma ImagesRule(gallery: seq<Option<string>>, all: seq<Option<string>>)
    ensures (exists k :: 0 <= k < |gallery| && TruthyText(gallery[k])) ==> Images(gallery, all) == Gallery(gallery)
    ensures (forall k :: 0 <= k < |gallery| ==> !TruthyText(gallery[k])) ==> Images(gallery, all) == Fallback(all)
  {
    GalleryDistinctMembers(gallery);
    if Gallery(gallery) != [] {
      var v := Gallery(gallery)[0];
      var k :| 0 <= k < |gallery| && gallery[k] == Some(v);
      assert TruthyText(gallery[k]);
    }
    if k :| 0 <= k < |gallery| && TruthyText(gallery[k]) {
      assert gallery[k].value in Gallery(gallery);
    }
  }

  // ---------------------------------------------------------------------
  // Attributes.

  /** The key of a `key: value` text: the trimmed text before the first `:`. */
  function AttributeKey(text: string): string
  {
    Trim(text[..IndexOf(text, ':')])
  }

  /** The value of a `key: value` text: the trimmed text between the first and the second `:`. */
  function AttributeValue(text: string): string
  {
    var i := IndexOf(text, ':');
    var rest := if i < |text| then text[i + 1..] else [];
    Trim(rest[..IndexOf(rest, ':')])
  }

  /**
    The key and the value are the first two pieces of `text.split(':')`,
    trimmed, as the route destructures them.
  */
  lemma AttributeParts(text: string)
    requires Contains(text, ":")
    ensures |Split(text, ':')| >= 2
    ensures AttributeKey(text) == Trim(Split(text, ':')[0])
    ensures AttributeValue(text) == Trim(Split(text, ':')[1])
  {
    ContainsChar(text, ':');
    SplitHead(text, ':');
    SplitHead(AfterFirst(text, ':'), ':');
    assert Split(text, ':')[1] == Split(text, ':')[1..][0];
  }

  /** A span contributes an attribute when its trimmed text includes a colon. */
  predicate IsPair(span: string)
  {
    Contains(Trim(span), ":")
  }

  /** The key a span sets, when it is a pair. */
  function SpanKey(span: string): string
  {
    AttributeKey(Trim(span))
  }

  /** The value a span sets, when it is a pair. */
  function SpanValue(span: string): string
  {
    AttributeValue(Trim(span))
  }

  /** One step of the attribute pass: a span with a colon sets its key to its value. */
  function AddSpan(attributes: map<string, string>, span: string): map<string, string>
  {
    if IsPair(span) then attributes[SpanKey(span) := SpanValue(span)] else attributes
  }

  /** The attributes of the spans: later spans with the same key overwrite earlier ones. */
  function Attributes(spans: seq<string>): map<string, string>
  {
    if spans == [] then map[] else AddSpan(Attributes(spans[..|spans| - 1]), spans[|spans| - 1])
  }

  /** The attribute pass, as the route runs it: a loop that assigns into `attributes`. */
  method ExtractAttributes(spans: seq<string>) returns (attributes: map<string, string>)
    ensures attributes == Attributes(spans)
  {
    attributes := map[];
    for i := 0 to |spans|
      invariant attributes == Attributes(spans[..i])
    {
      var seen := spans[..i + 1];
      assert seen[..i] == spans[..i] && seen[i] == spans[i];
      ghost var before := attributes;
      var text := Trim(spans[i]);
      if Contains(text, ":") {
        AttributeParts(text);
        var parts := Split(text, ':');
        var key := Trim(parts[0]);
        var value := Trim(parts[1]);
        assert key == SpanKey(spans[i]) && value == SpanValue(spans[i]);
        attributes := attributes[key := value];
      }
      assert attributes == AddSpan(before, spans[i]);
    }
    assert spans[..|spans|] == spans;
  }

  /** One step adds the span's key when the span is a pair, and keeps every other key. */
  lemma AddSpanKeys(attributes: map<string, string>, span: string)
    ensures forall key :: key in AddSpan(attributes, span) <==>
              key in attributes || (IsPair(span) && key == SpanKey(span))
  {
  }

  /** A step sets the span's key to the span's value. */
  lemma AddSpanSets(attributes: map<string, string>, span: string)
    requires IsPair(span)
    ensures SpanKey(span) in AddSpan(attributes, span)
    ensures AddSpan(attributes, span)[SpanKey(span)] == SpanValue(span)
  {
  }

  /** A step leaves every other key's value alone. */
  lemma AddSpanKeeps(attributes: map<string, string>, span: string, key: string)
    requires key in attributes && !(IsPair(span) && key == SpanKey(span))
    ensures key in AddSpan(attributes, span) && AddSpan(attributes, span)[key] == attributes[key]
  {
  }

  /** Every span that is a pair puts its key into the attributes. */
  lemma {:induction false} AttributesHaveSpanKeys(spans: seq<string>)
    ensures forall k :: 0 <= k < |spans| && IsPair(spans[k]) ==> SpanKey(spans[k]) in Attributes(spans)
  {
    if spans != [] {
      var init := spans[..|spans| - 1];
      var last := spans[|spans| - 1];
      AttributesHaveSpanKeys(init);
      AddSpanKeys(Attributes(init), last);
      assert Attributes(spans) == AddSpan(Attributes(init), last);
      forall k | 0 <= k < |spans| - 1 && IsPair(spans[k])
        ensures SpanKey(spans[k]) in Attributes(spans)
      {
        assert init[k] == spans[k];
      }
    }
  }

  /** Every key of the attributes comes from a span that is a pair. */
  lemma {:induction false} AttributesOnlySpanKeys(spans: seq<string>)
    ensures forall key :: key in Attributes(spans) ==>
              exists k :: 0 <= k < |spans| && IsPair(spans[k]) && SpanKey(spans[k]) == key
  {
    if spans != [] {
      var init := spans[..|spans| - 1];
      var last := spans[|spans| - 1];
      AttributesOnlySpanKeys(init);
      AddSpanKeys(Attributes(init), last);
      assert Attributes(spans) == AddSpan(Attributes(init), last);
      forall key | key in Attributes(spans)
        ensures exists k :: 0 <= k < |spans| && IsPair(spans[k]) && SpanKey(spans[k]) == key
      {
        if key in Attributes(init) {
          var k :| 0 <= k < |init| && IsPair(init[k]) && SpanKey(init[k]) == key;
          assert init[k] == spans[k];
        } else {
          assert IsPair(spans[|spans| - 1]) && SpanKey(spans[|spans| - 1]) == key;
        }
      }
    }
  }

  /** The value under a key comes from the last span with that key. */
  lemma {:induction false} AttributesLastWins(spans: seq<string>, k: nat)
    requires k < |spans| && IsPair(spans[k])
    requires forall j :: k < j < |spans| && IsPair(spans[j]) ==> SpanKey(spans[j]) != SpanKey(spans[k])
    ensures SpanKey(spans[k]) in Attributes(spans)
    ensures Attributes(spans)[SpanKey(spans[k])] == SpanValue(spans[k])
  {
    var init := spans[..|spans| - 1];
    var last := spans[|spans| - 1];
    assert Attributes(spans) == AddSpan(Attributes(init), last);
    if k == |spans| - 1 {
      AddSpanSets(Attributes(init), last);
    } else {
      assert init[k] == spans[k];
      assert forall j :: k < j < |init| ==> init[j] == spans[j];
      AttributesLastWins(init, k);
      AddSpanKeeps(Attributes(init), last, SpanKey(spans[k]));
    }
  }

  // ---------------------------------------------------------------------
  // The route.

  /**
    What the selectors found on a Craigslist page: the heading text, the
    `.title` text, the `.price` text, the sources of the gallery images and
    of all images, and the texts of the attribute spans.
  */
  datatype ScrapedPage = ScrapedPage(
    headingText: string, titleText: string, priceText: string,
    gallerySrcs: seq<Option<string>>, imageSrcs: seq<Option<string>>, attributeSpans: seq<string>)

  /** The response of the route (the description, posting date and map data are not part of this model). */
  datatype ListingDetails = ListingDetails(
    id: Option<string>, url: string, title: string, price: string,
    images: seq<string>, attributes: map<string, string>, ebay: EbayData)

  /** The trimmed heading, or the trimmed `.title` text when the heading is empty. */
  function PageTitle(page: ScrapedPage): string
  {
    if Trim(page.headingText) != "" then Trim(page.headingText) else Trim(page.titleText)
  }

  /** The trimmed price, or "Price not specified". */
  function PagePrice(page: ScrapedPage): string
  {
    if Trim(page.priceText) != "" then Trim(page.priceText) else "Price not specified"
  }

  /**
    `/api/listing-details`: 400 without a URL; 500 when the page cannot be
    fetched; otherwise the details of the page, with the eBay data looked up
    under the title's text before the first `-`, trimmed.
  */
  function Details(id: Option<string>, url: Option<string>, fetch: string -> Option<ScrapedPage>,
                   lookup: string -> EbayAnswer): Result<ListingDetails, int>
  {
    if !TruthyText(url) then Err(400)
    else match fetch(url.value)
      case None => Err(500)
      case Some(page) =>
        var title := PageTitle(page);
        var price := PagePrice(page);
        Ok(ListingDetails(id, url.value, title, price, Images(page.gallerySrcs, page.imageSrcs),
                          Attributes(page.attributeSpans), EbayProfitData(ParseListingPrice(price), lookup(CleanTitle(title)))))
  }

  /** The route handler: the passes over the page run as loops. */
  method GetListingDetails(id: Option<string>, url: Option<string>, fetch: string -> Option<ScrapedPage>,
                           lookup: string -> EbayAnswer) returns (r: Result<ListingDetails, int>)
    ensures r == Details(id, url, fetch, lookup)
  {
    if url.None? || url.value == "" {
      return Err(400);
    }
    var response := fetch(url.value);
    if response.None? {
      return Err(500);
    }
    var page := response.value;
    var title := PageTitle(page);
    var price := PagePrice(page);
    var images := ExtractImages(page.gallerySrcs, page.imageSrcs);
    var attributes := ExtractAttributes(page.attributeSpans);
    var searchQuery := Trim(BeforeFirst(title, '-'));
    var ebayData := LookupEbayData(price, lookup(searchQuery));
    r := Ok(ListingDetails(id, url.value, title, price, images, attributes, ebayData));
  }

  /** The image passes: the fallback pass runs when the gallery pass found nothing. */
  method ExtractImages(gallery: seq<Option<string>>, all: seq<Option<string>>) returns (images: seq<string>)
    ensures images == Images(gallery, all)
  {
    images := GalleryImages(gallery);
    if images == [] {
      images := FallbackImages(all);
    }
  }

  /** The eBay step: the defaults, replaced when the answer has a non-zero average price. */
  method LookupEbayData(price: string, answer: EbayAnswer) returns (ebayData: EbayData)
    ensures ebayData == EbayProfitData(ParseListingPrice(price), answer)
  {
    ebayData := DefaultEbayData;
    if answer.Answer? && answer.averagePrice.Some? && answer.averagePrice.value != 0.0 {
      var craigslistPrice := ParseListingPrice(price);
      var ebayPrice := answer.averagePrice.value;
      var profit := ebayPrice - craigslistPrice;
      ebayData := EbayData(profit > 0.0, Text(FixedString(profit)), Text(FixedString(ebayPrice)), IntOr(answer.averageSaleDays, 30));
    }
  }

  /** A request without a URL is rejected with 400 whatever the page or the lookup would have given. */
  lemma MissingUrlRejected(id: Option<string>, url: Option<string>, fetch: string -> Option<ScrapedPage>, lookup: string -> EbayAnswer)
    requires !TruthyText(url)
    ensures Details(id, url, fetch, lookup) == Err(400)
  {
  }

  /** The eBay lookup key is the title cut at its first `-` and trimmed: it has no `-` and no surrounding white space. */
  lemma DetailsSearchKey(title: string)
    ensures '-' !in CleanTitle(title)
    ensures Trim(CleanTitle(title)) == CleanTitle(title)
  {
    TrimAvoids(BeforeFirst(title, '-'), '-');
    TrimIdempotent(BeforeFirst(title, '-'));
  }
}
