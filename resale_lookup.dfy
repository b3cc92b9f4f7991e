/**
  The eBay resale lookup of the server (`getEbayResaleValue` in app.js):
  the search key derived from a listing title, the rule that skips the
  lookup for short keys, and the average of the sold prices that come back.
  The eBay call itself is not modelled: its outcome is a parameter.
*/
module ResaleLookup {
  import opened Base
  import opened JsStrings
  import opened JsNumbers

  /** The accessory words the search key drops, in the order the pattern lists them. */
  const Accessories: seq<string> := ["bag", "case", "charger", "stand", "sleeve", "adapter"]

  predicate NonEmptyWords(words: seq<string>) {
    forall k :: 0 <= k < |words| ==> |words[k]| > 0
  }

  /** Length of the first alternative that matches at the start of `s` (ignoring case), 0 when none does. */
  function MatchAt(s: string, words: seq<string>): (n: nat)
    requires NonEmptyWords(words)
    ensures n <= |s|
    ensures n == 0 <==> forall k :: 0 <= k < |words| ==> !StartsWithCI(s, words[k])
  {
    if words == [] then 0
    else if StartsWithCI(s, words[0]) then |words[0]|
    else MatchAt(s, words[1..])
  }

  /**
    `s.replace(/w1|w2|.../gi, '')`: scanning from the left, an occurrence of
    the first alternative that matches is deleted and the scan resumes after
    it; elsewhere the character is kept.
  */
  function StripWords(s: string, words: seq<string>): (r: string)
    requires NonEmptyWords(words)
    ensures |r| <= |s|
    decreases |s|
  {
    if s == [] then []
    else
      var n := MatchAt(s, words);
      if n > 0 then StripWords(s[n..], words) else [s[0]] + StripWords(s[1..], words)
  }

  /** The title text before its first `-`, trimmed: `title.split('-')[0].trim()`. */
  function CleanTitle(title: string): string
  {
    Trim(BeforeFirst(title, '-'))
  }

  /** The eBay search key the server uses: the clean title without accessory words, trimmed again. */
  function SearchQuery(title: string): string
  {
    Trim(StripWords(CleanTitle(title), Accessories))
  }

  /** The lookup is made only for a key of at least 3 UTF-16 code units (`!q || q.length < 3` skips it). */
  predicate ShouldLookup(query: string) {
    Utf16Length(query) >= 3
  }

  /** `r` is `s` with some characters deleted. */
  predicate IsSubsequence(r: string, s: string)
    decreases |s|
  {
    r == [] || (s != [] && ((r[0] == s[0] && IsSubsequence(r[1..], s[1..])) || IsSubsequence(r, s[1..])))
  }

  // ---------------------------------------------------------------------
  // Properties of the accessory-word removal.

  /** A text in which no accessory word occurs is left unchanged, and only such a text. */
  lemma {:induction false} StripWordsIdentity(s: string, words: seq<string>)
    requires NonEmptyWords(words)
    ensures StripWords(s, words) == s <==> !ContainsAnyCI(s, words)
    decreases |s|
  {
    if s != [] {
      StripWordsIdentity(s[1..], words);
      var n := MatchAt(s, words);
      if ContainsAnyCI(s, words) {
        StripWordsShrinks(s, words);
      } else {
        forall k | 0 <= k < |words|
          ensures !StartsWithCI(s, words[k]) && !ContainsCI(s[1..], words[k])
        {
          assert !ContainsCI(s, words[k]);
        }
        assert n == 0;
      }
    } else {
      assert forall k :: 0 <= k < |words| ==> !StartsWithCI(s, words[k]);
    }
  }

  /** When an accessory word occurs somewhere, at least one character is deleted. */
  lemma {:induction false} StripWordsShrinks(s: string, words: seq<string>)
    requires NonEmptyWords(words)
    requires ContainsAnyCI(s, words)
    ensures |StripWords(s, words)| < |s|
    decreases |s|
  {
    var k :| 0 <= k < |words| && ContainsCI(s, words[k]);
    if s == [] {
      assert false;
    }
    var n := MatchAt(s, words);
    if n == 0 {
      assert !StartsWithCI(s, words[k]);
      assert ContainsCI(s[1..], words[k]);
      StripWordsShrinks(s[1..], words);
    }
  }

  /** What is left is the input with characters deleted. */
  lemma {:induction false} StripWordsSubsequence(s: string, words: seq<string>)
    requires NonEmptyWords(words)
    ensures IsSubsequence(StripWords(s, words), s)
    decreases |s|
  {
    if s != [] {
      var n := MatchAt(s, words);
      if n > 0 {
        StripWordsSubsequence(s[n..], words);
        SubsequenceOfSuffix(StripWords(s[n..], words), s, n);
      } else {
        StripWordsSubsequence(s[1..], words);
        var r := StripWords(s, words);
        assert r[1..] == StripWords(s[1..], words);
      }
    }
  }

  /** A subsequence of a suffix is a subsequence of the whole. */
  lemma {:induction false} SubsequenceOfSuffix(r: string, s: string, n: nat)
    requires n <= |s|
    requires IsSubsequence(r, s[n..])
    ensures IsSubsequence(r, s)
    decreases n
  {
    if n > 0 {
      assert s[1..][n - 1..] == s[n..];
      SubsequenceOfSuffix(r, s[1..], n - 1);
    } else {
      assert s[0..] == s;
    }
  }

  /** A character absent from a text is absent from every subsequence of it. */
  lemma {:induction false} SubsequenceAvoids(r: string, s: string, c: char)
    requires IsSubsequence(r, s) && c !in s
    ensures c !in r
    decreases |s|
  {
    if r != [] {
      if r[0] == s[0] && IsSubsequence(r[1..], s[1..]) {
        SubsequenceAvoids(r[1..], s[1..], c);
        assert r == [r[0]] + r[1..];
      } else {
        SubsequenceAvoids(r, s[1..], c);
      }
    }
  }

  /** `trim` only deletes characters. */
  lemma TrimAvoids(s: string, c: char)
    requires c !in s
    ensures c !in Trim(s)
  {
    TrimIsTrimmedSlice(s);
  }

  // ---------------------------------------------------------------------
  // Properties of the search key.

  /** The search key never contains a `-`: everything from the first one on is cut off. */
  lemma SearchQueryHasNoDash(title: string)
    ensures '-' !in SearchQuery(title)
  {
    var b := BeforeFirst(title, '-');
    TrimAvoids(b, '-');
    var c := CleanTitle(title);
    StripWordsSubsequence(c, Accessories);
    SubsequenceAvoids(StripWords(c, Accessories), c, '-');
    TrimAvoids(StripWords(c, Accessories), '-');
  }

  /**
    The server's key and the listing-details route's key (the clean title)
    coincide exactly when no accessory word occurs in the clean title;
    otherwise the server's key is strictly shorter.
  */
  lemma SearchQueryVersusCleanTitle(title: string)
    ensures !ContainsAnyCI(CleanTitle(title), Accessories) ==> SearchQuery(title) == CleanTitle(title)
    ensures ContainsAnyCI(CleanTitle(title), Accessories) ==> |SearchQuery(title)| < |CleanTitle(title)|
  {
    var c := CleanTitle(title);
    if ContainsAnyCI(c, Accessories) {
      StripWordsShrinks(c, Accessories);
      TrimIsTrimmedSlice(StripWords(c, Accessories));
    } else {
      StripWordsIdentity(c, Accessories);
      TrimIdempotent(BeforeFirst(title, '-'));
    }
  }

  /** None of the accessory words starts at the front of `s`, judged by its first three characters. */
  lemma NoAccessoryAtFront(s: string)
    requires |s| >= 3
    requires LowerAscii(s[0]) != 'b' || LowerAscii(s[1]) != 'a'
    requires LowerAscii(s[0]) != 'c' || LowerAscii(s[1]) != 'a' || LowerAscii(s[2]) != 's'
    requires LowerAscii(s[0]) != 'c' || LowerAscii(s[1]) != 'h'
    requires LowerAscii(s[0]) != 's' || (LowerAscii(s[1]) != 't' && LowerAscii(s[1]) != 'l')
    requires LowerAscii(s[0]) != 'a' || LowerAscii(s[1]) != 'd'
    ensures MatchAt(s, Accessories) == 0
  {
    assert Accessories[0][..2] == "ba";
    assert Accessories[1][..3] == "cas";
    assert Accessories[2][..2] == "ch";
    assert Accessories[3][..2] == "st";
    assert Accessories[4][..2] == "sl";
    assert Accessories[5][..2] == "ad";
  }

  /** Where no word matches, the first character is kept and the scan moves on by one. */
  lemma StripWordsKeepsFront(s: string, words: seq<string>)
    requires NonEmptyWords(words) && s != [] && MatchAt(s, words) == 0
    ensures StripWords(s, words) == [s[0]] + StripWords(s[1..], words)
  {
  }

  /** The tail of the single-pass example: "casese" loses its leading "case". */
  lemma StripCasese()
    ensures StripWords("casese", Accessories) == "se"
  {
    assert Accessories[0] == "bag" && Accessories[1] == "case";
    assert LowerAscii('c') == 'c' && LowerAscii('a') == 'a' && LowerAscii('s') == 's' && LowerAscii('e') == 'e';
    assert "casese"[0] == 'c' && "bag"[0] == 'b';
    assert LowerAscii("casese"[0]) != "bag"[0];
    assert !StartsWithCI("casese", Accessories[0]);
    assert StartsWithCI("casese", Accessories[1]);
    assert Accessories[1..][0] == Accessories[1];
    assert MatchAt("casese", Accessories) == 4;
    assert "casese"[4..] == "se";
    assert forall k :: 0 <= k < |Accessories| ==> !StartsWithCI("se", Accessories[k]);
    assert MatchAt("se", Accessories) == 0;
    assert MatchAt("e", Accessories) == 0;
    StripWordsKeepsFront("e", Accessories);
    assert "e"[1..] == [];
    FirstAndRest("e");
    StripWordsKeepsFront("se", Accessories);
    assert "se"[1..] == "e";
    FirstAndRest("se");
  }

  /** The middle of the single-pass example: "acasese" keeps its "a" and loses the "case" after it. */
  lemma StripAcasese()
    ensures StripWords("acasese", Accessories) == "ase"
  {
    var s := "acasese";
    NoAccessoryAtFront(s);
    StripWordsKeepsFront(s, Accessories);
    assert s[0] == 'a' && s[1..] == "casese";
    StripCasese();
    assert "ase"[0] == 'a' && "ase"[1..] == "se";
    FirstAndRest("ase");
  }

  /** One left-to-right pass can leave an accessory word behind: "cacasese" becomes "case". */
  lemma StripWordsSinglePass()
    ensures StripWords("cacasese", Accessories) == "case"
    ensures ContainsAnyCI("case", Accessories)
  {
    var s := "cacasese";
    NoAccessoryAtFront(s);
    StripWordsKeepsFront(s, Accessories);
    assert s[0] == 'c' && s[1..] == "acasese";
    StripAcasese();
    assert "case"[0] == 'c' && "case"[1..] == "ase";
    FirstAndRest("case");
    CaseIsAccessory();
  }

  /** A non-empty text is its first character followed by the rest. */
  lemma FirstAndRest(t: string)
    ensures t != [] ==> t == [t[0]] + t[1..]
  {
  }

  /** "case" is itself one of the accessory words. */
  lemma CaseIsAccessory()
    ensures ContainsAnyCI("case", Accessories)
  {
    assert Accessories[1] == "case";
    assert StartsWithCI("case", Accessories[1]);
  }

  // ---------------------------------------------------------------------
  // Averaging the sold prices.

  /** Sum of the prices of the items that carry one. */
  function TotalPrice(items: seq<Option<real>>): real
  {
    if items == [] then 0.0
    else TotalPrice(items[..|items| - 1]) + OrZero(items[|items| - 1])
  }

  /** Number of items that carry a price. */
  function PricedCount(items: seq<Option<real>>): (n: nat)
    ensures n <= |items|
  {
    if items == [] then 0
    else PricedCount(items[..|items| - 1]) + (if items[|items| - 1].Some? then 1 else 0)
  }

  /** What the lookup returns: the number 0, or the average as `toFixed(2)` text, in cents. */
  datatype LookupValue = Zero | Average(cents: int)

  /** `value == 0` with JavaScript's loose equality: 0 itself and any text that reads as zero. */
  predicate LooseZero(v: LookupValue) {
    v.Zero? || v.cents == 0
  }

  /** The average the lookup reports for a list of sold items. */
  function AverageOf(items: seq<Option<real>>): LookupValue
  {
    MeanCents(TotalPrice(items), PricedCount(items))
  }

  /** `(total / count).toFixed(2)` in cents, or 0 when nothing was counted. */
  function MeanCents(total: real, count: nat): LookupValue
  {
    if count > 0 then Average(RoundCents(total / count as real)) else Zero
  }

  /**
    The averaging loop: sums the prices of the items that have one and
    counts them, then rounds the mean to cents (0 when nothing had a price).
  */
  method AverageSoldPrice(items: seq<Option<real>>) returns (average: LookupValue)
    ensures average == AverageOf(items)
  {
    var totalPrice := 0.0;
    var count := 0;
    var i := 0;
    while i < |items|
      invariant 0 <= i <= |items|
      invariant totalPrice == TotalPrice(items[..i])
      invariant count == PricedCount(items[..i])
    {
      assert items[..i + 1][..i] == items[..i];
      if items[i].Some? {
        totalPrice := totalPrice + items[i].value;
        count := count + 1;
      }
      i := i + 1;
    }
    assert items[..i] == items;
    average := if count > 0 then Average(RoundCents(totalPrice / count as real)) else Zero;
  }

  /** When every price lies in `[lo, hi]`, so does the sum, scaled by the count. */
  lemma TotalPriceBounds(items: seq<Option<real>>, lo: real, hi: real)
    requires forall i :: 0 <= i < |items| && items[i].Some? ==> lo <= items[i].value <= hi
    ensures PricedCount(items) as real * lo <= TotalPrice(items) <= PricedCount(items) as real * hi
  {
    TotalPriceBetween(items, lo, hi);
    PricedTimes(items, lo);
    PricedTimes(items, hi);
  }

  /** `v` added once for every item that carries a price. */
  function PricedSum(items: seq<Option<real>>, v: real): real
  {
    if items == [] then 0.0
    else PricedSum(items[..|items| - 1], v) + (if items[|items| - 1].Some? then v else 0.0)
  }

  /** The sum of prices in `[lo, hi]` lies between `lo` and `hi` added once per priced item. */
  lemma {:induction false} TotalPriceBetween(items: seq<Option<real>>, lo: real, hi: real)
    requires forall i :: 0 <= i < |items| && items[i].Some? ==> lo <= items[i].value <= hi
    ensures PricedSum(items, lo) <= TotalPrice(items) <= PricedSum(items, hi)
  {
    if items != [] {
      var init := items[..|items| - 1];
      assert forall i :: 0 <= i < |init| ==> init[i] == items[i];
      TotalPriceBetween(init, lo, hi);
    }
  }

  /** Adding `v` once per priced item is the count times `v`. */
  lemma {:induction false} PricedTimes(items: seq<Option<real>>, v: real)
    ensures PricedSum(items, v) == PricedCount(items) as real * v
  {
    if items != [] {
      var init := items[..|items| - 1];
      PricedTimes(init, v);
      var m := PricedCount(init) as real;
      if items[|items| - 1].Some? {
        assert (m + 1.0) * v == m * v + v;
      }
    }
  }

  /** The reported average lies within half a cent of the range of the sold prices. */
  lemma AverageWithinPrices(items: seq<Option<real>>, lo: real, hi: real)
    requires forall i :: 0 <= i < |items| && items[i].Some? ==> lo <= items[i].value <= hi
    requires PricedCount(items) > 0
    ensures AverageOf(items).Average?
    ensures lo - 0.005 <= AverageOf(items).cents as real / 100.0 <= hi + 0.005
  {
    TotalPriceBounds(items, lo, hi);
    AverageOfBounds(items, lo, hi);
  }

  /** The rounded mean of a total that lies between `n * lo` and `n * hi`. */
  lemma AverageOfBounds(items: seq<Option<real>>, lo: real, hi: real)
    requires PricedCount(items) > 0
    requires PricedCount(items) as real * lo <= TotalPrice(items) <= PricedCount(items) as real * hi
    ensures AverageOf(items).Average?
    ensures lo - 0.005 <= AverageOf(items).cents as real / 100.0 <= hi + 0.005
  {
    MeanCentsWithin(TotalPrice(items), PricedCount(items), lo, hi);
  }

  /** The rounded mean of a total between `count * lo` and `count * hi` lies within half a cent of `[lo, hi]`. */
  lemma MeanCentsWithin(total: real, count: nat, lo: real, hi: real)
    ensures count > 0 && count as real * lo <= total <= count as real * hi ==>
            MeanCents(total, count).Average? && lo - 0.005 <= MeanCents(total, count).cents as real / 100.0 <= hi + 0.005
  {
    if count > 0 && count as real * lo <= total <= count as real * hi {
      MeanBetween(total, count as real, lo, hi);
    }
  }

  /** A total between `n * lo` and `n * hi` has its mean between `lo` and `hi`, within half a cent once rounded. */
  lemma MeanBetween(total: real, n: real, lo: real, hi: real)
    requires n > 0.0 && n * lo <= total <= n * hi
    ensures lo <= total / n <= hi
    ensures lo - 0.005 <= RoundCents(total / n) as real / 100.0 <= hi + 0.005
  {
    RoundCentsBounds(total / n);
  }

  /** How the eBay call ended: no usable item list (an error, or no results), or a list of sold items. */
  datatype EbayResponse = NoItems | SoldItems(items: seq<Option<real>>)

  /** The value `getEbayResaleValue(title)` resolves to, given how the eBay call ended. */
  function ResaleValue(title: string, response: EbayResponse): (v: LookupValue)
  {
    if !ShouldLookup(SearchQuery(title)) then Zero
    else match response
      case NoItems => Zero
      case SoldItems(items) => AverageOf(items)
  }

  /** `getEbayResaleValue`: the key rule, then the averaging loop over the response. */
  method GetEbayResaleValue(title: string, response: EbayResponse) returns (v: LookupValue)
    ensures v == ResaleValue(title, response)
  {
    var query := SearchQuery(title);
    if Utf16Length(query) < 3 {
      return Zero;
    }
    match response {
      case NoItems => v := Zero;
      case SoldItems(items) => v := AverageSoldPrice(items);
    }
  }

  /**
    The key's length is counted in UTF-16 code units: two emoji outside the
    Basic Multilingual Plane make a key of length 4, which is looked up,
    while two Latin letters are not.
  */
  lemma KeyLengthInCodeUnits()
    ensures SearchQuery("\U{1F4F1}\U{1F4F1}") == "\U{1F4F1}\U{1F4F1}"
    ensures ShouldLookup("\U{1F4F1}\U{1F4F1}") && !ShouldLookup("ab")
  {
    EmojiKeyLength();
    EmojiSearchKey();
  }

  /** Two emoji, with no space, dash or accessory word in them, are their own search key. */
  lemma EmojiSearchKey()
    ensures SearchQuery("\U{1F4F1}\U{1F4F1}") == "\U{1F4F1}\U{1F4F1}"
  {
    var e := "\U{1F4F1}\U{1F4F1}";
    assert !IsJsSpace(e[0]) && !IsJsSpace(e[1]) && '-' !in e;
    assert BeforeFirst(e, '-') == e;
    assert LeadingSpaces(e) == 0;
    assert TrimEnd(e) == e;
    assert Trim(e) == e;
    forall k | 0 <= k < |Accessories|
      ensures !ContainsCI(e, Accessories[k])
    {
      ContainsCIFits(e, Accessories[k]);
    }
    StripWordsIdentity(e, Accessories);
  }

  /** A word found in a text is no longer than the text. */
  lemma {:induction false} ContainsCIFits(s: string, w: string)
    ensures ContainsCI(s, w) ==> |w| <= |s|
    decreases |s|
  {
    if s != [] {
      ContainsCIFits(s[1..], w);
    }
  }

  lemma EmojiKeyLength()
    ensures Utf16Length("\U{1F4F1}\U{1F4F1}") == 4 && Utf16Length("ab") == 2
  {
  }

  /** A value other than 0 comes only from a key of 3 or more characters and at least one priced sold item. */
  lemma ResaleValueNonZero(title: string, response: EbayResponse)
    requires ResaleValue(title, response).Average?
    ensures ShouldLookup(SearchQuery(title))
    ensures response.SoldItems? && PricedCount(response.items) > 0
  {
  }
}
