# craigslist-ebay-analyzer: the valuation, ranking and display rules in Dafny

craigslist-ebay-analyzer scrapes Craigslist listings and values each one against eBay sold prices. It then ranks the listings by potential profit and shows them page by page in the browser. A detail modal fetches more about one listing. This project models the deterministic rules inside that pipeline and proves their properties. It covers four files:

- **app.js**
  - price parsing;
  - the eBay search key and the averaging of sold prices in `getEbayResaleValue`;
  - `calculateProfit`;
  - the synthetic resale-value fallback, modelled once for the three places it is copied;
  - the sale-time tiers;
  - `/api/getEbayData`;
  - `/api/getAllSortedListings`: ids, the budget filter, the valuation loop and the stable descending sort;
  - `/api/getPage`;
  - the zipcode-to-region table.
- **public/scripts.js**
  - the page slice with the profitable-only filter and rank badges (`displayCurrentPage`);
  - the page count and pagination buttons;
  - the sale-time classes;
  - the re-sort and renumbering of profitable cards (`showProfitableListings`);
  - the class toggling of `updateListingWithData`.
- **public/listing-modal.js**
  - the `'---'` normalisation and classes of `displayListingDetails`;
  - `hasValidEbayData` and the bounded retry of `fetchListingWithRetry`;
  - the listing cache and its key;
  - the fill-only-blank merge with the card's values;
  - the non-DOM rules of `cleanDescription`.
- **routes/listing-api.js**
  - the `/api/listing-details` route: its search key and its `$`/`,` price parse;
  - the default and signed eBay data;
  - image de-duplication and rewriting;
  - `key: value` attribute splitting.

## Layout

| File | Module | Contents |
|---|---|---|
| `js_strings.dfy` | `JsStrings` | JavaScript string built-ins: `trim`, `split`/`join`, `includes`, case-insensitive keyword tests, `String(n)` |
| `js_numbers.dfy` | `JsNumbers` | `parseFloat` (`None` stands for NaN); `toFixed(2)` as rounding to whole cents and as a string; `Math.round`, `Math.ceil` of a quotient, `slice` |
| `price.dfy` | `Price` | the two price parsers |
| `resale_lookup.dfy` | `ResaleLookup` | the search key, the averaging loop, `getEbayResaleValue` |
| `valuation.dfy` | `Valuation` | tiers, multiplier, profit, sale time, `/api/getEbayData` |
| `stable_sort.dfy` | `StableSort` | a stable descending sort, as a function and as an in-place insertion sort on an array |
| `ranking.dfy` | `Ranking` | `/api/getAllSortedListings` and the region table |
| `paging.dfy` | `Paging` | `/api/getPage` |
| `client_paging.dfy` | `ClientPaging` | `displayCurrentPage`, `updatePageInfo`, `updatePaginationButtons`, the stored list |
| `client_cards.dfy` | `ClientCards` | `showProfitableListings` and a listing card as `updateListingWithData` changes it |
| `listing_api.dfy` | `ListingApi` | `/api/listing-details` |
| `listing_modal.dfy` | `ListingModal` | the detail modal |

**Money.** Money is a `real`. `toFixed(2)` is rounding to whole cents, halves away from zero. Its text is digits, a point and two digits, with a leading `-` for negatives.

**Inputs in place of I/O.** Everything nondeterministic becomes a parameter:

- `Math.random` becomes `Draws` values in `[0, 1)`, and the random sample listings the `randomSamples` parameter.
- The eBay lookup's result becomes `EbayResponse`/`LookupValue` values, and `Answer` for the route.
- The scraped page becomes `ScrapedPage`.
- The modal's fetches become an `outcome` function from attempt number to result.

**Imperative parts.** These become methods with loops, each proved against a specification function:

- the averaging loop;
- the valuation loop;
- the in-place sort;
- the button loop;
- the badge loop;
- the image and attribute passes;
- the retry loop.

The objects the source changes in place are classes:

- the browser's stored list (`ListingsView`);
- a listing card (`ListingCard`);
- the modal's cache (`ModalState`) and its cached objects (`ListingData`).

**Behaviour modelled as the code has it:**

- **One fallback, three copies.** The synthetic fallback is copied in `/api/getEbayData`, the valuation loop and `/listing/:id`. The copies are identical and are modelled once (`Valuation.Evaluate`).
- **Loose zero test.** The fallback is used when the lookup value is loosely `== 0`, so an average printed as `"0.00"` counts as missing too, not only the number 0.
- **Closed sale-time ranges.** The raw sale-time ranges are half-open, but `Math.round` makes the reported days fall in the closed ranges `[1,3]`, `[3,7]`, `[7,14]` and `[14,28]`.
- **Budget filter first.** `/api/getAllSortedListings` applies the budget filter before valuing, so listings over budget are never looked up.
- **Negative page numbers.** `/api/getPage` does not reject a negative page number. `slice` then counts from the end.
- **Signed profit.** The listing-details route reports a signed profit, which can be negative. `calculateProfit` clamps it at 0.
- **Client-side copies.** The browser re-implements filtering, ranking and paging. Those copies are modelled as they are and related to the server's rules by lemmas.

## Model

| member | source | states |
|---|---|---|
| JsStrings.TrimIsTrimmedSlice | public/listing-modal.js:372 | `trim` returns a slice of its input that starts and ends with no white space |
| JsStrings.TrimIdempotent | app.js:28 | trimming twice is trimming once |
| JsStrings.SplitHead | routes/listing-api.js:54 | `split(c)[0]` is the text before the first `c`, and the remaining pieces are the split of the text after it |
| JsStrings.JoinSplit | public/listing-modal.js:357-366 | joining the pieces of a split on the same separator gives back the text |
| JsNumbers.RoundCentsBounds | app.js:160 | `toFixed(2)` keeps the sign and moves the amount by at most half a cent |
| JsNumbers.RoundCentsMonotone | app.js:560 | rounding to cents keeps the order of amounts |
| JsNumbers.ParseCentsString | app.js:566 | `parseFloat` reads back exactly the amount `toFixed(2)` printed |
| JsNumbers.ParseFixedString | routes/listing-api.js:121 | `parseFloat(x.toFixed(2))` is `x` rounded to cents, sign included |
| JsNumbers.ParseNatToString | app.js:529 | `parseFloat(String(n)) == n` for every count, so a whole-dollar price reads back as itself |
| JsNumbers.CeilDivIsCeiling | app.js:836 | the page count `q` satisfies `q - 1 < len / n <= q` |
| Price.StripNonNumericAppend | app.js:157 | removing non-`[0-9.]` characters distributes over concatenation |
| Price.StripNonNumericKeeps | app.js:157 | a text of digits and points is left as it is |
| Price.StripNonNumericIdempotent | app.js:157 | stripping twice is stripping once |
| Price.StripDollarCommaRemoves | routes/listing-api.js:115 | the route's stripping leaves no `$` or `,` and never lengthens the text |
| Price.StripsAgree | routes/listing-api.js:115 | on texts of digits, points, `$` and `,` the two strippings agree |
| Price.ParseStripped | app.js:529 | on text of digits and points `parseFloat` reads the longest unsigned decimal prefix, or NaN when there is none, and never a negative number |
| Price.ParsePriceNonNegative | app.js:529 | the server's parsed price is never negative and never NaN |
| Price.ParsePriceOfDollars | app.js:727 | a whole-dollar price, with or without a leading `$`, reads back as that number |
| Price.ParsersAgree | routes/listing-api.js:115 | on texts of digits, points, `$` and `,` both parsers give the same number |
| Price.ParsePriceThousands | app.js:738 | `"$1,200"` reads as 1200 on the server |
| Price.ParseListingPriceThousands | routes/listing-api.js:115 | `"$1,200"` reads as 1200 in the listing-details route |
| Price.ParsePriceNotAvailable | app.js:157 | `"N/A"` reads as 0 for both parsers |
| Price.ParsersDisagreeOnSign | routes/listing-api.js:115 | `"-5"` reads as 5 on the server and as -5 in the listing-details route |
| ResaleLookup.StripWordsIdentity | app.js:28 | removing the accessory words changes the text exactly when one of them occurs in it |
| ResaleLookup.StripWordsShrinks | app.js:28 | when an accessory word occurs, at least one character is removed |
| ResaleLookup.StripWordsSubsequence | app.js:28 | the result is the input with characters deleted |
| ResaleLookup.StripWordsSinglePass | app.js:28 | one left-to-right pass can leave an accessory word: `"cacasese"` becomes `"case"` |
| ResaleLookup.SearchQueryHasNoDash | app.js:25-28 | the search key never contains `-` |
| ResaleLookup.SearchQueryVersusCleanTitle | app.js:25-28 | the server's key equals the clean title exactly when no accessory word occurs in it, and is strictly shorter otherwise |
| ResaleLookup.AverageSoldPrice | app.js:85-100 | the loop's total and count give the mean of the priced items rounded to cents, or 0 when none has a price |
| ResaleLookup.TotalPriceBounds | app.js:88-97 | when every price lies in `[lo, hi]`, the total lies between `count * lo` and `count * hi` |
| ResaleLookup.AverageWithinPrices | app.js:100 | the reported average lies within half a cent of the range of the sold prices |
| ResaleLookup.GetEbayResaleValue | app.js:22-153 | a key shorter than 3 UTF-16 code units gives 0 without a lookup; otherwise the average of the response, or 0 when it had no items |
| ResaleLookup.ResaleValueNonZero | app.js:30-33 | a non-zero value comes only from a key of 3 or more UTF-16 code units and at least one priced item |
| ResaleLookup.KeyLengthInCodeUnits | app.js:30 | the key length counts UTF-16 code units: a key of two emoji above U+FFFF has length 4 and is looked up, `"ab"` is not |
| Valuation.ClassifyIgnoresCase | app.js:536-537 | the keyword tests use the `i` flag: two titles that differ only in the case of ASCII letters get the same value class |
| Valuation.MultiplierRange | app.js:540-557 | the multiplier's range per tier and branch (for example `[1.2, 1.8)` for a high-value title when the first draw is above 0.4), and `[0.5, 1.8)` overall |
| Valuation.ProfitNumberIsParsed | app.js:566 | `parseFloat` of a profit's text is the profit |
| Valuation.ProfitRule | app.js:156-161 | profit is never negative; when resale exceeds asking it is their difference within half a cent, otherwise exactly 0 |
| Valuation.ProfitInCents | app.js:156-161 | with whole-cent amounts the profit is exactly the difference when positive and 0 otherwise |
| Valuation.CentsDifference | app.js:160 | the difference of two whole-cent amounts rounds to itself |
| Valuation.SaleDaysRange | app.js:574-585 | the rounded sale time of each tier lies in `[1,3]`, `[3,7]`, `[7,14]` or `[14,28]`, and between 1 and 28 overall |
| Valuation.UnprofitableIsSlow | app.js:569-583 | a listing that is not high-value and has no profit gets 14 days or more |
| Valuation.SpeedMonotone | app.js:569-583 | more profit never gives a slower tier for the same value class |
| Valuation.RealLookupIgnoresDraws | app.js:533-566 | with a lookup value that is not loosely 0 the reported resale value is that value, and the resale value, profit and `hasProfit` do not depend on `Math.random` |
| Valuation.FinalResaleRule | app.js:533-562 | when the lookup is loosely 0, the made-up resale value lies between 0.5 and 1.8 times the parsed price, each bound rounded to cents |
| Valuation.FallbackBounds | app.js:560 | any non-negative price times a multiplier rounds to between half and 1.8 times the price |
| Valuation.EvaluateConsistent | app.js:565-593 | `hasProfit` holds exactly when the profit is positive, and the profit is never negative |
| Valuation.EvaluateSaleTime | app.js:568-585 | the sale time is between 1 and 28 days, and 14 or more for a profitless listing that is not high-value |
| Valuation.GetEbayDataRule | app.js:515-599 | 400 exactly without a title, 500 exactly with a title but no price string (`price.replace` throws), and otherwise the valuation, whose `hasProfit` agrees with its profit and whose sale time is 1 to 28 days |
| StableSort.InsertSorted | app.js:797-801 | inserting into a sorted sequence keeps it sorted |
| StableSort.InsertElements | app.js:797-801 | insertion adds exactly the new element to the multiset |
| StableSort.InsertWithKey | app.js:797-801 | insertion appends the element to its key class and leaves the other key classes alone |
| StableSort.SortDescSorted | app.js:797-801 | the sorted output has non-increasing keys |
| StableSort.SortDescPermutation | app.js:797-801 | the sorted output is a permutation of the input |
| StableSort.SortDescStable | app.js:797-801 | elements with equal keys keep their input order |
| StableSort.SortDescOfSorted | app.js:797-801 | already-sorted input comes out unchanged |
| StableSort.InsertInPlace | app.js:797-801 | moving `a[i]` into the sorted prefix leaves the prefix `a[..i+1]` equal to the insertion of `a[i]` and the rest of the array unchanged |
| StableSort.SortInPlace | app.js:797-801 | the in-place insertion sort leaves the array equal to the stable descending sort of its old contents |
| Ranking.ProcessListings | app.js:733-794 | the loop pushes each candidate with its valuation, in order |
| Ranking.GetAllSortedListings | app.js:608-812 | 400 without a search query or a zipcode, 500 when the Craigslist fetch fails, and otherwise the valued candidates sorted by profit, taken from the scrape or, when it found nothing, from the random samples followed by the three fixed ones |
| Ranking.ListingIdInjective | app.js:719-722 | different positions get different ids |
| Ranking.AssignIdsDistinct | app.js:719-722 | no two listings get the same id |
| Ranking.BudgetFilterMembers | app.js:725-730 | a listing survives the budget filter exactly when it is in the input and its parsed price is within the budget |
| Ranking.SortedListingsSorted | app.js:797-801 | the answer is sorted by non-increasing `parseFloat(profit) \|\| 0` |
| Ranking.SortedListingsPermutation | app.js:733-801 | the answer holds exactly the valued candidates, each as often as the loop produced it |
| Ranking.SortedListingsStable | app.js:797-801 | listings with equal profit keep scrape order |
| Ranking.SortedListingsWithinBudget | app.js:725-730 | with a positive budget every listing in the answer has a parsed price within it |
| Ranking.SortedListingsComplete | app.js:719-794 | every scraped listing within the budget is in the answer, under the id of its scrape position |
| Ranking.SortedListingsIds | app.js:719-722 | the answer's ids are distinct and each is `listing-<i>` for the listing scraped at position `i` |
| Ranking.RegionForZip | app.js:169-195 | the region is the table's entry for the zipcode's first two characters, `sfbay` when there is none |
| Ranking.RegionByPrefix | app.js:169 | only the first two characters of the zipcode matter |
| Ranking.RegionRange | app.js:170-195 | every region is a table entry or `sfbay`, and a zipcode shorter than two characters gets `sfbay` |
| Ranking.RegionExamples | app.js:173-190 | `"94102"` maps to `sfbay`, `"10001"` to `newyork`, and `"02139"`, whose prefix has no entry, to `sfbay` |
| Paging.GetPage | app.js:816-844 | the request is rejected, with 400, exactly when no list is given; otherwise the answer reports the list's length and a page no longer than the list |
| Paging.GetPageDefaults | app.js:824-825 | a page number or page size that does not parse, or parses as 0, means 1 and 50 |
| Paging.GetPageSlice | app.js:828-832 | for `p >= 1` and `n >= 1` the page is the slice from `(p-1)*n` to `min((p-1)*n + n, len)`, and it is empty once it starts at or past the end |
| Paging.GetPageCount | app.js:836 | the page count is `ceil(len / n)`, and page `p >= 1` is non-empty exactly when `p` is at most the page count |
| Paging.GetPagePosition | app.js:828-832 | the element at index `k` is on page `k / n + 1` at position `k % n` |
| Paging.NegativePageCountsFromEnd | app.js:824-832 | a negative page number is not rejected, and its slice counts from the end of the list |
| ClientPaging.ListingsView.constructor | public/scripts.js:146 | the stored list starts empty |
| ClientPaging.ListingsView.Receive | public/scripts.js:142-152 | for every page and page size, 0 included, the answer is stored, and the shown cards, the page count (`Infinity` included) and the buttons are those of the stored list |
| ClientPaging.PaginationButtons | public/scripts.js:335-383 | the two-step window and the button loop give the controls that `ControlsRule` describes |
| ClientPaging.AppendNumberButtons | public/scripts.js:371-375 | the loop appends one button per page from `first` to `last`, the current page marked active |
| ClientPaging.ProfitableMembers | public/scripts.js:195 | filtering keeps exactly the listings whose profit parses as positive |
| ClientPaging.DisplayedIsProfitablePage | public/scripts.js:185-243 | on a list sorted by profit, the shown cards are that page of the profitable listings, badged from the page's start |
| ClientPaging.BadgedWindow | public/scripts.js:214-215 | the `i`-th card holds the listing at `start + i` and the badge `start + i + 1` |
| ClientPaging.SortedPageProfitable | public/scripts.js:185-195 | on a sorted list, filtering a page gives the same page of the filtered list |
| ClientPaging.DisplayedAreProfitable | public/scripts.js:195-219 | every shown card is profitable and comes from the page slice |
| ClientPaging.TotalPagesRule | public/scripts.js:319-320 | 1 page when nothing is profitable; `Infinity` for size 0 with profitable listings; `ceil(count / size)`, at least 1, for a positive size; at most 1, which hides the control, for a negative size |
| ClientPaging.ZeroPageSize | public/scripts.js:185-187 | a page size of 0 shows no card, and with profitable listings the count is `Infinity` and the control offers Next and a Last button to page `Infinity` |
| ClientPaging.WindowRule | public/scripts.js:365-369 | for a current page from 1 up to the count the window holds the current page, stays within `[1, total]` and has `min(5, total)` pages, or 5 when the count is `Infinity` |
| ClientPaging.NumberButtonsOnly | public/scripts.js:371-375 | the number buttons hold exactly the pages from `first` to `last` |
| ClientPaging.ControlsRule | public/scripts.js:342-383 | the controls are hidden for at most one page; First and Previous appear exactly past the first page, Next and Last exactly before the last (always, for `Infinity`); only the current page's number is active |
| ClientPaging.SaleTimeClassOfTier | public/scripts.js:232-237 | for the days the server estimates, the very fast tier always shows as fast and the slow tier as slow, the fast tier as fast or medium and the profitable tier as medium or slow; a fast class means a fast tier and a slow class a slower one |
| ClientCards.ShowProfitableListings | public/scripts.js:623-718 | the container ends up holding the kept cards, sorted in place and badged `#1`, `#2`, ... |
| ClientCards.RenumberBadges | public/scripts.js:713-718 | the loop badges the card at `index` with `#index+1` and changes nothing else |
| ClientCards.KeptCardsMembers | public/scripts.js:623-638 | the filter keeps exactly the cards whose read profit is positive |
| ClientCards.KeptKey | public/scripts.js:695-700 | a kept card's sort key is the filter's profit when it has a `.profit-value`, and 0 otherwise |
| ClientCards.ProfitableViewSorted | public/scripts.js:695-718 | the shown cards all pass the filter, are sorted by non-increasing key, and carry badges 1, 2, ... in order |
| ClientCards.ProfitableViewComplete | public/scripts.js:623-718 | every card that passes the filter is shown once per occurrence, with only its badge changed |
| ClientCards.IndicatorOnlyCardsLast | public/scripts.js:630-633 | a card kept only for a `$` amount sorts after every card with a `.profit-value` |
| ClientCards.DollarAmountSkips | public/scripts.js:632 | a `$` not followed by a digit or a point is skipped: the amount of `"$ $7"` is `"7"` |
| ClientCards.MarkProfitRule | public/scripts.js:554-560 | afterwards exactly one of the two classes is present, the positive one exactly when there is profit, and every other class is unchanged |
| ClientCards.MarkProfitLastWins | public/scripts.js:554-560 | marking again overrides the earlier mark |
| ClientCards.MarkAllRule | public/scripts.js:539-593 | the card, its container and its row each hold exactly one of their two marks, other classes are kept, and a profitless card is flagged to hide after loading |
| ClientCards.ListingCard.constructor | public/scripts.js:227-266 | a new card holds the given classes, container and row classes and hide flag |
| ClientCards.RenderedCardMarks | public/scripts.js:221-266 | a rendered card carries the profit marks on itself, its container and its row; an update confirming the profit leaves them as they are, and one finding none swaps all three and hides the card |
| ClientCards.ListingCard.UpdateWithData | public/scripts.js:495-594 | shows the resale text and `parseFloat(profit) \|\| 0`; sets the sale time and its class only for a truthy sale time; the marks become `MarkAll` of the old ones |
| ClientCards.ListingCard.ShowValues | public/scripts.js:506-531 | the value updates leave the class marks unchanged |
| ClientCards.ListingCard.Mark | public/scripts.js:539-593 | the marks become `MarkAll` of the old marks |
| ListingApi.MissingUrlRejected | routes/listing-api.js:13-15 | a request without a URL is rejected with 400 whatever the page or lookup would give |
| ListingApi.DetailsSearchKey | routes/listing-api.js:104 | the lookup key is the title before its first `-`, trimmed: no `-` and no surrounding white space |
| ListingApi.GetListingDetails | routes/listing-api.js:8-154 | the route answers 400 without a URL, 500 when the page cannot be fetched, and otherwise the page's details with the eBay data |
| ListingApi.GalleryImages | routes/listing-api.js:28-34 | the loop's `images` are the gallery pass over the sources |
| ListingApi.GalleryDistinctMembers | routes/listing-api.js:29-34 | the gallery holds no source twice, and holds exactly the truthy sources |
| ListingApi.GalleryPrefix | routes/listing-api.js:29-34 | first-seen order: what earlier sources contribute stays in front |
| ListingApi.FallbackImages | routes/listing-api.js:37-46 | the loop's `images` are the fallback pass over the sources |
| ListingApi.FallbackSources | routes/listing-api.js:38-45 | every fallback image comes from a source on the Craigslist host; without thumbnail markers the sources are kept as they are and none twice |
| ListingApi.RepeatedThumbnailAddedTwice | routes/listing-api.js:40-43 | a thumbnail that occurs twice is added twice, rewritten, because the duplicate check compares the unrewritten source |
| ListingApi.ImagesRule | routes/listing-api.js:37 | the fallback pass runs exactly when no gallery image has a truthy source |
| ListingApi.ExtractImages | routes/listing-api.js:28-46 | the image passes give the gallery, or the fallback when the gallery is empty |
| ListingApi.AttributeParts | routes/listing-api.js:54 | the key and value are the first two pieces of `split(':')`, trimmed |
| ListingApi.ExtractAttributes | routes/listing-api.js:49-57 | the loop's `attributes` are the attribute pass over the spans |
| ListingApi.AddSpanSets | routes/listing-api.js:55 | a step sets the span's key to its value |
| ListingApi.AddSpanKeeps | routes/listing-api.js:55 | a step leaves every other key's value alone |
| ListingApi.AttributesHaveSpanKeys | routes/listing-api.js:50-57 | every span containing `:` puts its key into the attributes |
| ListingApi.AttributesOnlySpanKeys | routes/listing-api.js:50-57 | every key of the attributes comes from a span containing `:` |
| ListingApi.AttributesLastWins | routes/listing-api.js:50-57 | the value under a key comes from the last span with that key |
| ListingApi.EbayDataReadsBack | routes/listing-api.js:105-128 | without a non-zero average the defaults stay; with an average `resale` and `profit` = `resale` minus the listing price, `parseFloat` reads the profit text back as `profit` rounded to cents, sign included, and the resale text as `resale` rounded to cents; `hasProfit` holds exactly when `profit` is positive, and the profit never reads back with the opposite sign |
| ListingApi.SignedProfitExample | routes/listing-api.js:117 | a $1,200 listing against a $1000 average shows a loss of 200 and no profit |
| ListingModal.CardMoneyFirstDollarOnly | public/listing-modal.js:90-91 | only the first `$` is removed: `"$-$5"` reads as `"-$5"` |
| ListingModal.MergeCardRule | public/listing-modal.js:164-172 | each field is replaced by the card's value exactly when that value is truthy and the field blank (0 for the sale time); `hasProfit` is untouched |
| ListingModal.MergeCardIdempotent | public/listing-modal.js:107-115 | merging the same card twice changes nothing more |
| ListingModal.MergeCardKeepsValid | public/listing-modal.js:164-169 | valid data keeps its resale value and profit whatever the card says |
| ListingModal.ListingData.constructor | public/listing-modal.js:175 | a new cached object holds the response's values |
| ListingModal.ListingData.MergeExisting | public/listing-modal.js:107-115 | patching field by field leaves the object equal to the merge of its old values with the card |
| ListingModal.RetryBounds | public/listing-modal.js:124-187 | between 1 and 3 fetches are made, the delay before fetch `i + 1` is `i * 1000` ms, every fetch but the last failed or lacked valid data, and the last is the third or brought valid data |
| ListingModal.RetryShows | public/listing-modal.js:163-213 | what is shown comes from the last fetch: its data merged with the card, or after a final failure the card's values when it has a resale value or profit, and an error otherwise |
| ListingModal.DefaultsAreRetried | public/listing-modal.js:156-160 | when every fetch returns the route's defaults, three fetches are made with delays of 1 and 2 seconds and the merged defaults are shown |
| ListingModal.BreakEvenIsRetried | public/listing-modal.js:148-153 | a listing priced exactly at its eBay average has profit `"0.00"`, which counts as invalid, so the modal refetches |
| ListingModal.EbayDataValidity | public/listing-modal.js:148-153 | the route's eBay data is valid for the modal exactly when the answer has a non-zero average and neither the average nor the profit prints as `"0.00"`, that is, neither lies in `[0, 0.005)`; a loss under half a cent prints `"-0.00"` and counts as valid |
| ListingModal.CacheKeyCollides | public/listing-modal.js:101 | two different listings share a key when an id contains `-` |
| ListingModal.CacheKeyInjective | public/listing-modal.js:101 | for the server's ids `listing-<n>` the key determines the id and the URL |
| ListingModal.ModalState.constructor | public/listing-modal.js:66 | the cache starts empty |
| ListingModal.ModalState.Open | public/listing-modal.js:100-219 | on a cache hit the cached object is patched from the card and shown without a fetch; otherwise the retrying fetch runs |
| ListingModal.ModalState.FetchListingWithRetry | public/listing-modal.js:124-216 | the loop's fetches, delays and display are `Retry` from attempt 1, and the cache gains the merged data exactly when data was shown |
| ListingModal.ModalState.StoreMerged | public/listing-modal.js:164-175 | a new object holding the merged response is cached under the key, and no other entry changes |
| ListingModal.ModalState.PatchCached | public/listing-modal.js:106-115 | the cached object is patched in place, and no other entry changes |
| ListingModal.ValidIffBothShown | public/listing-modal.js:148-153 | `hasValidEbayData` holds exactly when the modal would show both the resale value and the profit |
| ListingModal.DetailsViewClasses | public/listing-modal.js:402-411 | the profit class is positive exactly when the profit is shown and parses as positive; the sale-time class is empty exactly when the sale time is not positive, and otherwise uses the 3- and 7-day thresholds |
| ListingModal.DefaultsView | public/listing-modal.js:390-411 | the route's defaults show `$0.00` and `'---'` except for the 30-day sale time, with a negative profit class |
| ListingModal.DropHeaderLinesRule | public/listing-modal.js:355-369 | the text is kept whole, or exactly its first four lines are cut when there are at least five lines and each of the four has white space |
| ListingModal.CleanDescription | public/listing-modal.js:287-380 | a falsy description gives `'No description available'`, and the result is never empty or `'&nbsp;'` |
| ListingModal.CleanDescriptionKeeps | public/listing-modal.js:354-379 | a cleaned text that is not blank is returned trimmed; otherwise the no-detail message is returned |

## Left out

- The unreachable code after the unconditional redirect (app.js:330-504) is not modelled.
- The 120 random sample listings that `/api/getAllSortedListings` uses when a scrape finds nothing (app.js:683-693) are the parameter `randomSamples`; their titles, prices and locations drawn with `Math.random` are not modelled. The three fixed samples after them are.
- Express routing and rendering, `axios` fetches and cheerio selectors are left out. The scraped listings and the scraped detail page (`ScrapedPage`) are parameters. A page fetch that fails is `None` from the `fetch` parameter.
- The eBay API client, its token refresh and its retry (app.js:54-144, `utils/ebay-api`) are left out. The lookup's result is a parameter: no item list, or a list of sold prices.
- An eBay item price that does not parse (NaN in the averaging loop, app.js:92) is not modelled: every present price is a number.
- `Math.random` is replaced by draws in `[0, 1)` given as parameters. Branch probabilities are not modelled.
- IEEE-754 details are left out: binary rounding, NaN arithmetic, `Infinity` in money, and overflow. The one `Infinity` the browser's paging can produce, a page count over a page size of 0, is modelled. Money is exact `real`. `toFixed(2)` is exact rounding to cents, with its text modelled for amounts below 10^21.
- The DOM and HTML are left out: `innerHTML` templates, styles, animations and element lookups. A card's element contents are given as values.
- `cleanDescription`'s DOM-parsing branch and its regular-expression clean-ups (public/listing-modal.js:307-352) are a `cleanups` parameter. The title-and-price checks, the header-line rule, the trim and the defaults are modelled.
- Timers, `AbortController`, the 8-second fetch timeout and the 50 ms display delay are left out. A timed-out fetch is a failed fetch in the `outcome` function. The asynchronous chains of `preloadImages` and `processListingsSequentially` are also left out.
- `parseInt` of the card's sale-time text (public/listing-modal.js:92) is given as the card's sale time, an optional integer.
- The map coordinates, address, posted date and description of the listing-details route are not modelled (routes/listing-api.js:24-25, 59-101).
- `encodeURIComponent`, URL parsing and the history API are library behaviour and are left out.
- The `/listing/:id` page route (app.js:847-990) is not modelled as a route. Its valuation (app.js:925-966) is the same `Valuation.Evaluate`.
- `displayCurrentPage`'s "no profitable listings" message, the status counter and `showProfitableListings`'s development-mode branch (`showAllListings` is constant false) are display-only and are not modelled.
- ClientCards.ProfitableViewSorted: the in-place sort of `showProfitableListings` is modelled by the stable `StableSort.SortDesc`. ECMA-262 requires `Array.prototype.sort` to be stable, so this matches any conforming engine.
- ClientPaging.ListingsView.Receive: a `page` or `itemsPerPage` that `parseInt` reads as NaN (public/scripts.js:21-22) is not modelled; both are integers.
- ListingModal.ModalState.Open: the cache hit's 50 ms `setTimeout` before display is not modelled. The patched object is shown at once.
