/**
  The listing cards in the browser (public/scripts.js): how
  `showProfitableListings` keeps the profitable cards, re-sorts them by the
  profit shown on them and renumbers their badges, and how
  `updateListingWithData` marks a card as profitable or not.
*/
module ClientCards {
  import opened Base
  import opened JsStrings
  import opened JsNumbers
  import opened Price
  import opened StableSort
  import opened ClientPaging

  /**
    A card as `showProfitableListings` reads it: the text of its first
    `.profit-value` element and of its `.profit-value-container`, each `None`
    when the card has no such element, and the number on its rank badge.
  */
  datatype Card = Card(id: string, profitValue: Option<string>, indicator: Option<string>, rank: int)

  /** The longest run of digits and points at the front of `s`: what `[0-9.]+` takes. */
  function PriceRun(s: string): (r: string)
    ensures |r| <= |s| && r == s[..|r|]
    ensures forall i :: 0 <= i < |r| ==> IsPriceChar(r[i])
    ensures |r| < |s| ==> !IsPriceChar(s[|r|])
  {
    if s == [] || !IsPriceChar(s[0]) then [] else [s[0]] + PriceRun(s[1..])
  }

  /** The group of the first match of `/\$([0-9.]+)/` in `s`, if any. */
  function DollarAmount(s: string): (r: Option<string>)
  {
    if |s| < 2 then None
    else if s[0] == '$' && IsPriceChar(s[1]) then Some(PriceRun(s[1..]))
    else DollarAmount(s[1..])
  }

  /** The profit the filter reads from a card; `None` stands for NaN. */
  function FilterProfit(c: Card): Option<real>
  {
    match c.profitValue
    case Some(t) => JsParseFloat(if t == [] then "0" else t)
    case None =>
      if c.indicator.Some? && '$' in c.indicator.value then
        match DollarAmount(c.indicator.value)
        case Some(amount) => JsParseFloat(amount)
        case None => Some(0.0)
      else Some(0.0)
  }

  /** The filter's test: `profit > 0`, which NaN fails. */
  predicate Kept(c: Card)
  {
    FilterProfit(c).Some? && FilterProfit(c).value > 0.0
  }

  /** `allListings.filter(...)`: the cards that pass, in page order. */
  function KeptCards(cards: seq<Card>): (r: seq<Card>)
    ensures |r| <= |cards|
  {
    if cards == [] then []
    else (if Kept(cards[0]) then [cards[0]] else []) + KeptCards(cards[1..])
  }

  /**
    The sort key: the `.profit-value` text parsed, and 0 for a card without
    one, even when the filter kept it for a `$` amount in its container.
  */
  function SortKey(c: Card): real
  {
    match c.profitValue
    case Some(t) => OrZero(JsParseFloat(if t == [] then "0" else t))
    case None => 0.0
  }

  /** The cards with badges `#1`, `#2`, ... in order. */
  function Badged(cards: seq<Card>): (r: seq<Card>)
    ensures |r| == |cards|
  {
    seq(|cards|, i requires 0 <= i < |cards| => cards[i].(rank := i + 1))
  }

  /** What `showProfitableListings` leaves in the container. */
  function ProfitableView(cards: seq<Card>): seq<Card>
  {
    Badged(SortDesc(KeptCards(cards), SortKey))
  }

  /** `showProfitableListings`: filter, sort in place, then renumber the badges in a loop. */
  method ShowProfitableListings(cards: seq<Card>) returns (shown: seq<Card>)
    ensures shown == ProfitableView(cards)
  {
    var profitable := KeptCards(cards);
    if |profitable| == 0 {
      return [];
    }
    var a := new Card[|profitable|](i requires 0 <= i < |profitable| => profitable[i]);
    assert a[..] == profitable;
    SortInPlace(a, SortKey);
    RenumberBadges(a);
    shown := a[..];
  }

  /** The loop that sets the badge of the card at `index` to `#index+1`. */
  method RenumberBadges(a: array<Card>)
    modifies a
    ensures a[..] == Badged(old(a[..]))
  {
    ghost var cards := a[..];
    var i := 0;
    while i < a.Length
      invariant 0 <= i <= a.Length
      invariant forall k :: 0 <= k < i ==> a[k] == cards[k].(rank := k + 1)
      invariant forall k :: i <= k < a.Length ==> a[k] == cards[k]
    {
      a[i] := a[i].(rank := i + 1);
      i := i + 1;
    }
  }

  // ---------------------------------------------------------------------
  // What the re-sort promises.

  /** The filter keeps exactly the cards that pass. */
  lemma {:induction false} KeptCardsMembers(cards: seq<Card>, c: Card)
    ensures c in KeptCards(cards) <==> c in cards && Kept(c)
  {
    if cards != [] {
      KeptCardsMembers(cards[1..], c);
      assert cards == [cards[0]] + cards[1..];
    }
  }

  /** A kept card's key is the profit the filter read when it has a `.profit-value`, and 0 otherwise. */
  lemma KeptKey(c: Card)
    ensures Kept(c) && c.profitValue.Some? ==> SortKey(c) == FilterProfit(c).value && SortKey(c) > 0.0
    ensures c.profitValue.None? ==> SortKey(c) == 0.0
  {
  }

  /** Renumbering changes no sort key. */
  lemma BadgedKeys(cards: seq<Card>, i: nat)
    requires i < |cards|
    ensures SortKey(Badged(cards)[i]) == SortKey(cards[i])
    ensures Kept(Badged(cards)[i]) == Kept(cards[i])
  {
  }

  /** The shown cards all pass the filter, are sorted by non-increasing key, and carry badges 1, 2, ... */
  lemma ProfitableViewSorted(cards: seq<Card>)
    ensures var v := ProfitableView(cards);
            SortedDesc(v, SortKey) &&
            forall i :: 0 <= i < |v| ==> Kept(v[i]) && v[i].rank == i + 1
  {
    var s := SortDesc(KeptCards(cards), SortKey);
    var v := ProfitableView(cards);
    SortDescSorted(KeptCards(cards), SortKey);
    SortDescPermutation(KeptCards(cards), SortKey);
    forall i | 0 <= i < |v|
      ensures Kept(v[i]) && v[i].rank == i + 1
    {
      assert s[i] in multiset(KeptCards(cards));
      KeptCardsMembers(cards, s[i]);
      BadgedKeys(s, i);
    }
    forall i, j | 0 <= i < j < |v|
      ensures SortKey(v[i]) >= SortKey(v[j])
    {
      BadgedKeys(s, i);
      BadgedKeys(s, j);
    }
  }

  /** Every card that passes the filter is shown, once per occurrence, with only its badge changed. */
  lemma ProfitableViewComplete(cards: seq<Card>, c: Card)
    requires c in cards && Kept(c)
    ensures exists i :: 0 <= i < |ProfitableView(cards)| && ProfitableView(cards)[i] == c.(rank := i + 1)
  {
    KeptCardsMembers(cards, c);
    var s := SortDesc(KeptCards(cards), SortKey);
    SortDescPermutation(KeptCards(cards), SortKey);
    assert c in multiset(s);
    var i :| 0 <= i < |s| && s[i] == c;
    assert ProfitableView(cards)[i] == c.(rank := i + 1);
  }

  /**
    A card kept only for a `$` amount in its container sorts after every card
    with a `.profit-value`, whatever the amounts.
  */
  lemma IndicatorOnlyCardsLast(cards: seq<Card>, i: nat, j: nat)
    requires i < |ProfitableView(cards)| && j < |ProfitableView(cards)|
    requires ProfitableView(cards)[i].profitValue.None?
    requires ProfitableView(cards)[j].profitValue.Some?
    ensures j < i
  {
    var v := ProfitableView(cards);
    ProfitableViewSorted(cards);
    KeptKey(v[i]);
    KeptKey(v[j]);
    ZeroKeyAfterPositive(v, SortKey, i, j);
  }

  /** In a sequence sorted by non-increasing key, an element keyed 0 comes after every element with a positive key. */
  lemma ZeroKeyAfterPositive<T>(v: seq<T>, key: T -> real, i: nat, j: nat)
    ensures SortedDesc(v, key) && i < |v| && j < |v| && key(v[i]) == 0.0 && key(v[j]) > 0.0 ==> j < i
  {
  }

  /** A `$` that is not followed by a digit or a point is skipped: the amount of "$ $7" is "7". */
  lemma DollarAmountSkips()
    ensures DollarAmount("$ $7") == Some("7")
  {
    var s := "$ $7";
    assert s[1..] == " $7" && s[1..][1..] == "$7" && "$7"[1..] == "7";
    assert PriceRun("7") == "7" by {
      assert "7"[1..] == [];
    }
  }

  // ---------------------------------------------------------------------
  // `updateListingWithData`.

  /** Mark a class list: add `yes` and remove `no`, or the other way round. */
  function MarkProfit(classes: set<string>, hasProfit: bool, yes: string, no: string): set<string>
  {
    if hasProfit then classes + {yes} - {no} else classes + {no} - {yes}
  }

  /**
    The two marks exclude each other: afterwards exactly one of them is
    present, `yes` exactly when there is profit, and every other class is as
    it was.
  */
  lemma MarkProfitRule(classes: set<string>, hasProfit: bool, yes: string, no: string)
    requires yes != no
    ensures var r := MarkProfit(classes, hasProfit, yes, no);
            (yes in r <==> hasProfit) && (no in r <==> !hasProfit) &&
            r - {yes, no} == classes - {yes, no}
  {
  }

  /** Marking again overrides the earlier mark: only the last update counts. */
  lemma MarkProfitLastWins(classes: set<string>, first: bool, second: bool, yes: string, no: string)
    requires yes != no
    ensures MarkProfit(MarkProfit(classes, first, yes, no), second, yes, no) == MarkProfit(classes, second, yes, no)
  {
  }

  /** The classes of a card, of its profit container and of its profit row, and whether it hides after loading. */
  datatype Marks = Marks(classes: set<string>, container: set<string>, row: set<string>, hide: bool)

  /** The class updates at the end of `updateListingWithData`, on all three class lists. */
  function MarkAll(m: Marks, hasProfit: bool): Marks
  {
    Marks(MarkProfit(m.classes, hasProfit, "has-profit-listing", "no-profit-listing"),
          MarkProfit(m.container, hasProfit, "has-profit", "no-profit"),
          MarkProfit(m.row, hasProfit, "positive-profit", "negative-profit"),
          m.hide || !hasProfit)
  }

  /**
    After marking, the card holds exactly one of `has-profit-listing` and
    `no-profit-listing` and keeps its other classes; its container and its
    row likewise hold exactly one of their two marks, and a profitless card
    hides after loading.
  */
  lemma MarkAllRule(m: Marks, hasProfit: bool)
    ensures var r := MarkAll(m, hasProfit);
            ("has-profit-listing" in r.classes <==> hasProfit) && ("no-profit-listing" in r.classes <==> !hasProfit) &&
            r.classes - {"has-profit-listing", "no-profit-listing"} == m.classes - {"has-profit-listing", "no-profit-listing"} &&
            ("has-profit" in r.container <==> hasProfit) && ("no-profit" in r.container <==> !hasProfit) &&
            ("positive-profit" in r.row <==> hasProfit) && ("negative-profit" in r.row <==> !hasProfit) &&
            (r.hide <==> m.hide || !hasProfit)
  {
    MarkProfitRule(m.classes, hasProfit, "has-profit-listing", "no-profit-listing");
    MarkProfitRule(m.container, hasProfit, "has-profit", "no-profit");
    MarkProfitRule(m.row, hasProfit, "positive-profit", "negative-profit");
  }

  /**
    The marks of a card `displayCurrentPage` renders: it renders only
    profitable listings, so the card, its profit container and its profit row
    all carry the profit marks, and nothing hides it yet.
  */
  const RenderedMarks := Marks({"listing", "has-profit-listing"}, {"profit-container", "has-profit"},
                               {"price-row", "profit-row", "positive-profit"}, false)

  /**
    On a rendered card, an update that confirms the profit leaves every mark
    as it was, and one that finds no profit swaps all three marks and hides
    the card.
  */
  lemma RenderedCardMarks()
    ensures MarkAll(RenderedMarks, true) == RenderedMarks
    ensures MarkAll(RenderedMarks, false) ==
            Marks({"listing", "no-profit-listing"}, {"profit-container", "no-profit"},
                  {"price-row", "profit-row", "negative-profit"}, true)
  {
    assert MarkAll(RenderedMarks, false).classes == {"listing", "no-profit-listing"};
    assert MarkAll(RenderedMarks, false).container == {"profit-container", "no-profit"};
    assert MarkAll(RenderedMarks, false).row == {"price-row", "profit-row", "negative-profit"};
  }

  /** A listing card as `updateListingWithData` changes it. */
  class ListingCard {
    var resaleText: string
    /** The number shown in the card's `.profit-value`, and its `data-profit`. */
    var shownProfit: real
    var dataProfit: real
    var saleTimeDays: int
    var saleTimeClasses: set<string>
    var classes: set<string>
    var containerClasses: set<string>
    var rowClasses: set<string>
    var hideAfterLoading: bool

    /** A card with the given marks; `RenderedMarks` are those of a card the page renders. */
    constructor (marks: Marks)
      ensures CurrentMarks() == marks
    {
      resaleText := "";
      shownProfit := 0.0;
      dataProfit := 0.0;
      saleTimeDays := 0;
      saleTimeClasses := {};
      classes := marks.classes;
      containerClasses := marks.container;
      rowClasses := marks.row;
      hideAfterLoading := marks.hide;
    }

    /**
      `updateListingWithData(listing, data)`: `profit` is the text of
      `data.profit`, `avgSaleTime` is `None` when `data.avgSaleTime` is missing.
    */
    method UpdateWithData(resaleValue: string, profit: string, avgSaleTime: Option<int>)
      modifies this
      ensures resaleText == resaleValue
      ensures shownProfit == OrZero(JsParseFloat(profit)) && dataProfit == shownProfit
      ensures CurrentMarks() == MarkAll(old(CurrentMarks()), shownProfit > 0.0)
      ensures avgSaleTime.Some? && avgSaleTime.value != 0 ==>
              saleTimeDays == avgSaleTime.value && saleTimeClasses == {"avg-sale-time", SaleTimeClass(avgSaleTime.value)}
      ensures avgSaleTime.None? || avgSaleTime.value == 0 ==>
              saleTimeDays == old(saleTimeDays) && saleTimeClasses == old(saleTimeClasses)
    {
      var profitValue := OrZero(JsParseFloat(profit));
      ShowValues(resaleValue, profitValue, avgSaleTime);
      Mark(profitValue > 0.0);
    }

    /** The text and number updates of `updateListingWithData`, before the classes are marked. */
    method ShowValues(resaleValue: string, profitValue: real, avgSaleTime: Option<int>)
      modifies this
      ensures resaleText == resaleValue && shownProfit == profitValue && dataProfit == profitValue
      ensures CurrentMarks() == old(CurrentMarks())
      ensures avgSaleTime.Some? && avgSaleTime.value != 0 ==>
              saleTimeDays == avgSaleTime.value && saleTimeClasses == {"avg-sale-time", SaleTimeClass(avgSaleTime.value)}
      ensures avgSaleTime.None? || avgSaleTime.value == 0 ==>
              saleTimeDays == old(saleTimeDays) && saleTimeClasses == old(saleTimeClasses)
    {
      resaleText := resaleValue;
      shownProfit := profitValue;
      if avgSaleTime.Some? && avgSaleTime.value != 0 {
        saleTimeDays := avgSaleTime.value;
        saleTimeClasses := {"avg-sale-time", SaleTimeClass(avgSaleTime.value)};
      }
      dataProfit := profitValue;
    }

    /** The card's profit classes and its hide-after-loading flag. */
    function CurrentMarks(): Marks
      reads this
    {
      Marks(classes, containerClasses, rowClasses, hideAfterLoading)
    }

    /** The class updates at the end of `updateListingWithData`. */
    method Mark(hasProfit: bool)
      modifies this
      ensures CurrentMarks() == MarkAll(old(CurrentMarks()), hasProfit)
      ensures resaleText == old(resaleText) && shownProfit == old(shownProfit) && dataProfit == old(dataProfit)
      ensures saleTimeDays == old(saleTimeDays) && saleTimeClasses == old(saleTimeClasses)
    {
      classes := MarkProfit(classes, hasProfit, "has-profit-listing", "no-profit-listing");
      containerClasses := MarkProfit(containerClasses, hasProfit, "has-profit", "no-profit");
      rowClasses := MarkProfit(rowClasses, hasProfit, "positive-profit", "negative-profit");
      if !hasProfit {
        hideAfterLoading := true;
      }
    }
  }
}
