/**
  The server's ranking of listings, `/api/getAllSortedListings` in app.js:
  ids in scrape order, the budget filter, the valuation of each listing in a
  loop, and the stable in-place sort by profit, highest first. Then the page
  slicing of `/api/getPage` and the zip-prefix region table used to pick the
  site that is scraped.

  The eBay lookup is a parameter `lookup` from title to how the eBay call
  ended; the random draws are a parameter `draws` from the position of the
  listing in the valuation loop.
*/
module Ranking {
  import opened Base
  import opened JsStrings
  import opened JsNumbers
  import opened Price
  import opened ResaleLookup
  import opened Valuation
  import opened StableSort

  /** A listing as scraped from the search page. */
  datatype Scraped = Scraped(title: string, price: string, link: string, location: string)

  /** A scraped listing with the id the server gives it. */
  datatype Listing = Listing(id: string, title: string, price: string, link: string, location: string)

  /** A listing with its valuation, as the endpoint returns it. */
  datatype Ranked = Ranked(listing: Listing, evaluation: Evaluation)

  /** The id of the listing at `index` in scrape order. */
  function ListingId(index: nat): string
  {
    "listing-" + NatToString(index)
  }

  /** The scraped listings with their ids `listing-0`, `listing-1`, ... */
  function AssignIds(s: seq<Scraped>): (r: seq<Listing>)
    ensures |r| == |s|
  {
    seq(|s|, i requires 0 <= i < |s| => Listing(ListingId(i), s[i].title, s[i].price, s[i].link, s[i].location))
  }

  /** The server's budget test on one listing. */
  predicate WithinBudget(l: Listing, budget: real)
  {
    ParsePrice(l.price) <= budget
  }

  /** `listings.filter(...)`: the listings within the budget, in their order. */
  function BudgetFilter(ls: seq<Listing>, budget: real): (r: seq<Listing>)
    ensures |r| <= |ls|
  {
    if ls == [] then []
    else (if WithinBudget(ls[0], budget) then [ls[0]] else []) + BudgetFilter(ls[1..], budget)
  }

  /** The listings that are valued: all of them, or those within a positive budget. */
  function Candidates(scraped: seq<Scraped>, budget: real): seq<Listing>
  {
    if budget > 0.0 then BudgetFilter(AssignIds(scraped), budget) else AssignIds(scraped)
  }

  /** One listing with its valuation, given its lookup value. */
  function Valued(l: Listing, resale: LookupValue, d: Draws): Ranked
  {
    Ranked(l, Evaluate(l.title, l.price, resale, d))
  }

  /** The listing at position `i` of the valuation loop, valued. */
  function ValuedAt(ls: seq<Listing>, i: nat, lookup: string -> EbayResponse, draws: nat -> Draws): Ranked
    requires i < |ls|
  {
    Valued(ls[i], ResaleValue(ls[i].title, lookup(ls[i].title)), draws(i))
  }

  /** Every listing with its valuation; the listing at position `i` uses `draws(i)`. */
  function Process(ls: seq<Listing>, lookup: string -> EbayResponse, draws: nat -> Draws): (r: seq<Ranked>)
    ensures |r| == |ls|
  {
    seq(|ls|, i requires 0 <= i < |ls| => ValuedAt(ls, i, lookup, draws))
  }

  /** The sort key: `parseFloat(profit) || 0`. */
  function ProfitKey(r: Ranked): real
  {
    ProfitNumber(r.evaluation.profit)
  }

  /** What the endpoint answers on a valid request: the valued candidates sorted by profit. */
  function SortedListings(scraped: seq<Scraped>, budget: real, lookup: string -> EbayResponse, draws: nat -> Draws): seq<Ranked>
  {
    SortDesc(Process(Candidates(scraped, budget), lookup, draws), ProfitKey)
  }

  /** The `for ... of` loop that values each listing and pushes the result. */
  method ProcessListings(ls: seq<Listing>, lookup: string -> EbayResponse, draws: nat -> Draws) returns (processed: seq<Ranked>)
    ensures processed == Process(ls, lookup, draws)
  {
    processed := [];
    var i := 0;
    while i < |ls|
      invariant 0 <= i <= |ls|
      invariant processed == Process(ls, lookup, draws)[..i]
    {
      var l := ls[i];
      var resale := GetEbayResaleValue(l.title, lookup(l.title));
      var item := Valued(l, resale, draws(i));
      assert item == Process(ls, lookup, draws)[i];
      PrefixAppend(Process(ls, lookup, draws), i);
      processed := processed + [item];
      i := i + 1;
    }
    assert Process(ls, lookup, draws)[..|ls|] == Process(ls, lookup, draws);
  }

  /** Extending a prefix by the next element gives the next prefix. */
  lemma PrefixAppend<T>(s: seq<T>, i: nat)
    requires i < |s|
    ensures s[..i] + [s[i]] == s[..i + 1]
  {
  }

  /** The three fixed listings added to the random ones when a scrape finds nothing. */
  const FixedSamples: seq<Scraped> := [
    Scraped("MacBook Pro 2023 - 16GB RAM", "$1200", "https://craigslist.org", "downtown"),
    Scraped("Dell XPS 15 - Like New", "$899", "https://craigslist.org", "south bay"),
    Scraped("HP Pavilion Gaming Laptop", "$650", "https://craigslist.org", "east bay")
  ]

  /**
    `/api/getAllSortedListings`: 400 without a search query or a zipcode;
    500 when the Craigslist fetch fails (`scraped` is `None`); otherwise ids,
    the budget filter when the budget is positive, the valuation loop and the
    in-place sort, over the scraped listings or, when there are none, over
    the 120 random samples (`randomSamples`, made with `Math.random`)
    followed by the three fixed ones.
  */
  method GetAllSortedListings(searchQuery: string, zipcode: string, budget: real, scraped: Option<seq<Scraped>>,
                              randomSamples: seq<Scraped>, lookup: string -> EbayResponse, draws: nat -> Draws)
    returns (r: Result<seq<Ranked>, int>)
    ensures searchQuery == [] || zipcode == [] ==> r == Err(400)
    ensures searchQuery != [] && zipcode != [] && scraped.None? ==> r == Err(500)
    ensures searchQuery != [] && zipcode != [] && scraped.Some? ==>
              r == Ok(SortedListings(if scraped.value == [] then randomSamples + FixedSamples else scraped.value,
                                     budget, lookup, draws))
  {
    if searchQuery == [] || zipcode == [] {
      return Err(400);
    }
    if scraped.None? {
      return Err(500);
    }
    var found := scraped.value;
    if |found| == 0 {
      found := randomSamples + FixedSamples;
    }
    var listings := AssignIds(found);
    if budget > 0.0 {
      listings := BudgetFilter(listings, budget);
    }
    var processed := ProcessListings(listings, lookup, draws);
    var a := new Ranked[|processed|](i requires 0 <= i < |processed| => processed[i]);
    assert a[..] == processed;
    SortInPlace(a, ProfitKey);
    r := Ok(a[..]);
  }

  // ---------------------------------------------------------------------
  // Ids and the budget filter.

  /** Different positions get different ids. */
  lemma ListingIdInjective(i: nat, j: nat)
    requires ListingId(i) == ListingId(j)
    ensures i == j
  {
    var p := "listing-";
    assert NatToString(i) == ListingId(i)[|p|..];
    assert NatToString(j) == ListingId(j)[|p|..];
    DigitsValueOfNatToString(i);
    DigitsValueOfNatToString(j);
  }

  /** No two listings share an id. */
  predicate IdsDistinct(ls: seq<Listing>)
  {
    forall i, j :: 0 <= i < j < |ls| ==> ls[i].id != ls[j].id
  }

  lemma AssignIdsDistinct(s: seq<Scraped>)
    ensures IdsDistinct(AssignIds(s))
  {
    var r := AssignIds(s);
    forall i, j | 0 <= i < j < |r|
      ensures r[i].id != r[j].id
    {
      if r[i].id == r[j].id {
        ListingIdInjective(i, j);
      }
    }
  }

  /** A listing survives the filter exactly when it is in the input and within the budget. */
  lemma {:induction false} BudgetFilterMembers(ls: seq<Listing>, budget: real, x: Listing)
    ensures x in BudgetFilter(ls, budget) <==> x in ls && WithinBudget(x, budget)
  {
    if ls != [] {
      BudgetFilterMembers(ls[1..], budget, x);
      assert ls == [ls[0]] + ls[1..];
    }
  }

  /** The filter keeps ids distinct. */
  lemma {:induction false} BudgetFilterDistinct(ls: seq<Listing>, budget: real)
    requires IdsDistinct(ls)
    ensures IdsDistinct(BudgetFilter(ls, budget))
  {
    if ls != [] {
      var rest := BudgetFilter(ls[1..], budget);
      BudgetFilterDistinct(ls[1..], budget);
      if WithinBudget(ls[0], budget) {
        var r := [ls[0]] + rest;
        forall i, j | 0 <= i < j < |r|
          ensures r[i].id != r[j].id
        {
          if i == 0 {
            BudgetFilterMembers(ls[1..], budget, r[j]);
            var k :| 0 <= k < |ls[1..]| && ls[1..][k] == r[j];
            assert ls[k + 1] == r[j];
          }
        }
      }
    }
  }

  /** Every candidate is a scraped listing with the id of its scrape position. */
  lemma CandidatesFromScrape(scraped: seq<Scraped>, budget: real, x: Listing)
    requires x in Candidates(scraped, budget)
    ensures exists i :: 0 <= i < |scraped| && x == AssignIds(scraped)[i]
  {
    if budget > 0.0 {
      BudgetFilterMembers(AssignIds(scraped), budget, x);
    }
  }

  // ---------------------------------------------------------------------
  // What the endpoint promises.

  /** The answer is sorted by non-increasing profit. */
  lemma SortedListingsSorted(scraped: seq<Scraped>, budget: real, lookup: string -> EbayResponse, draws: nat -> Draws)
    ensures SortedDesc(SortedListings(scraped, budget, lookup, draws), ProfitKey)
  {
    SortDescSorted(Process(Candidates(scraped, budget), lookup, draws), ProfitKey);
  }

  /** The answer holds each valued candidate exactly as often as the loop produced it. */
  lemma SortedListingsPermutation(scraped: seq<Scraped>, budget: real, lookup: string -> EbayResponse, draws: nat -> Draws)
    ensures multiset(SortedListings(scraped, budget, lookup, draws)) == multiset(Process(Candidates(scraped, budget), lookup, draws))
  {
    SortDescPermutation(Process(Candidates(scraped, budget), lookup, draws), ProfitKey);
  }

  /** Listings with equal profit keep the order of the valuation loop, that is, scrape order. */
  lemma SortedListingsStable(scraped: seq<Scraped>, budget: real, lookup: string -> EbayResponse, draws: nat -> Draws, v: real)
    ensures WithKey(SortedListings(scraped, budget, lookup, draws), ProfitKey, v)
         == WithKey(Process(Candidates(scraped, budget), lookup, draws), ProfitKey, v)
  {
    SortDescStable(Process(Candidates(scraped, budget), lookup, draws), ProfitKey, v);
  }

  /** An element of the answer is a candidate with its own valuation. */
  lemma SortedListingsElement(scraped: seq<Scraped>, budget: real, lookup: string -> EbayResponse, draws: nat -> Draws, x: Ranked)
    requires x in SortedListings(scraped, budget, lookup, draws)
    ensures x.listing in Candidates(scraped, budget)
    ensures exists i :: 0 <= i < |Candidates(scraped, budget)| && x == ValuedAt(Candidates(scraped, budget), i, lookup, draws)
  {
    var cs := Candidates(scraped, budget);
    SortedListingsPermutation(scraped, budget, lookup, draws);
    MultisetMember(SortedListings(scraped, budget, lookup, draws), Process(cs, lookup, draws), x);
    ProcessElement(cs, lookup, draws, x);
  }

  /** An element of one of two sequences with the same elements is in the other. */
  lemma MultisetMember<T>(s: seq<T>, t: seq<T>, x: T)
    requires multiset(s) == multiset(t) && x in s
    ensures x in t
  {
    assert x in multiset(s);
  }

  /** An element of the loop's output is some listing with its valuation. */
  lemma ProcessElement(ls: seq<Listing>, lookup: string -> EbayResponse, draws: nat -> Draws, x: Ranked)
    requires x in Process(ls, lookup, draws)
    ensures x.listing in ls
    ensures exists i :: 0 <= i < |ls| && x == ValuedAt(ls, i, lookup, draws)
  {
    var ps := Process(ls, lookup, draws);
    var i :| 0 <= i < |ps| && ps[i] == x;
    assert ps[i] == ValuedAt(ls, i, lookup, draws);
  }

  /** With a positive budget, every listing in the answer is within it. */
  lemma SortedListingsWithinBudget(scraped: seq<Scraped>, budget: real, lookup: string -> EbayResponse, draws: nat -> Draws, x: Ranked)
    requires budget > 0.0
    requires x in SortedListings(scraped, budget, lookup, draws)
    ensures ParsePrice(x.listing.price) <= budget
  {
    SortedListingsElement(scraped, budget, lookup, draws, x);
    BudgetFilterMembers(AssignIds(scraped), budget, x.listing);
  }

  /** Every scraped listing within the budget (any listing when the budget is not positive) is in the answer, under the id of its scrape position. */
  lemma SortedListingsComplete(scraped: seq<Scraped>, budget: real, lookup: string -> EbayResponse, draws: nat -> Draws, i: nat)
    requires i < |scraped|
    requires budget > 0.0 ==> ParsePrice(scraped[i].price) <= budget
    ensures exists x :: x in SortedListings(scraped, budget, lookup, draws) && x.listing == AssignIds(scraped)[i]
  {
    var l := AssignIds(scraped)[i];
    var cs := Candidates(scraped, budget);
    if budget > 0.0 {
      BudgetFilterMembers(AssignIds(scraped), budget, l);
    }
    assert l in cs;
    var k :| 0 <= k < |cs| && cs[k] == l;
    var ps := Process(cs, lookup, draws);
    assert ps[k].listing == l;
    SortedListingsPermutation(scraped, budget, lookup, draws);
    assert ps[k] in multiset(SortedListings(scraped, budget, lookup, draws));
  }

  /** The ids in the answer are distinct, and each is `listing-<i>` for the scraped listing at position `i`. */
  lemma SortedListingsIds(scraped: seq<Scraped>, budget: real, lookup: string -> EbayResponse, draws: nat -> Draws, x: Ranked, y: Ranked)
    requires x in SortedListings(scraped, budget, lookup, draws)
    ensures exists i :: 0 <= i < |scraped| && x.listing.id == ListingId(i) && x.listing.title == scraped[i].title && x.listing.price == scraped[i].price
    ensures y in SortedListings(scraped, budget, lookup, draws) && x.listing.id == y.listing.id ==> x.listing == y.listing
  {
    SortedListingsElement(scraped, budget, lookup, draws, x);
    CandidatesFromScrape(scraped, budget, x.listing);
    if y in SortedListings(scraped, budget, lookup, draws) && x.listing.id == y.listing.id {
      SortedListingsElement(scraped, budget, lookup, draws, y);
      CandidatesFromScrape(scraped, budget, y.listing);
      var ls := AssignIds(scraped);
      AssignIdsDistinct(scraped);
      var i :| 0 <= i < |scraped| && x.listing == ls[i];
      var j :| 0 <= j < |scraped| && y.listing == ls[j];
      assert i == j;
    }
  }

  // ---------------------------------------------------------------------
  // The site that is scraped.

  /** Zip-code prefixes with their own site; every other prefix uses `sfbay`. */
  const RegionTable: map<string, string> := map[
    "90" := "losangeles", "91" := "losangeles", "92" := "orangecounty", "93" := "ventura",
    "94" := "sfbay", "95" := "sfbay", "96" := "sacramento", "97" := "portland",
    "98" := "seattle", "99" := "spokane", "10" := "newyork", "11" := "newyork",
    "12" := "albany", "60" := "chicago", "75" := "dallas", "77" := "houston"]

  /** `zipcode.substring(0, 2)`. */
  function ZipPrefix(zipcode: string): (r: string)
    ensures |r| <= 2 && r <= zipcode
  {
    zipcode[..Min(2, |zipcode|)]
  }

  /** The site for a zipcode: the table's entry for its prefix, `sfbay` when there is none. */
  function Region(zipcode: string): string
  {
    var prefix := ZipPrefix(zipcode);
    if prefix in RegionTable then RegionTable[prefix] else "sfbay"
  }

  /** The region lookup of `fetchCraigslistListings`: a default, overwritten by a table hit. */
  method RegionForZip(zipcode: string) returns (region: string)
    ensures region == Region(zipcode)
  {
    var prefix := zipcode[..Min(2, |zipcode|)];
    region := "sfbay";
    if prefix in RegionTable {
      region := RegionTable[prefix];
    }
  }

  /** Only the first two characters of the zipcode matter. */
  lemma RegionByPrefix(z1: string, z2: string)
    requires |z1| >= 2 && |z2| >= 2 && z1[0] == z2[0] && z1[1] == z2[1]
    ensures Region(z1) == Region(z2)
  {
    assert ZipPrefix(z1) == ZipPrefix(z2);
  }

  /** Every region is a table entry or `sfbay`; a zipcode shorter than two characters always gets `sfbay`. */
  lemma RegionRange(zipcode: string)
    ensures Region(zipcode) in RegionTable.Values || Region(zipcode) == "sfbay"
    ensures |zipcode| < 2 ==> Region(zipcode) == "sfbay"
  {
    if |zipcode| < 2 {
      assert forall k :: k in RegionTable ==> |k| == 2;
    }
  }

  /** Two table entries, and a prefix with no entry. */
  lemma RegionExamples()
    ensures Region("94102") == "sfbay"
    ensures Region("10001") == "newyork"
    ensures Region("02139") == "sfbay"
  {
    assert ZipPrefix("94102") == "94";
    assert ZipPrefix("10001") == "10";
    assert ZipPrefix("02139") == "02";
  }
}
