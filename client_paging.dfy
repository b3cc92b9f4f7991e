/**
  The browser's view of the sorted listings (public/scripts.js): the page
  slice of the stored list, of which only the profitable listings are shown,
  each with a rank badge; the page count taken from the profitable listings
  alone; the pagination buttons around a window of at most five page
  numbers; and the sale-time class.
*/
module ClientPaging {
  import opened Base
  import opened JsNumbers
  import opened Valuation
  import opened Ranking
  import opened StableSort

  /**
    `parseFloat(listing.profit) > 0`. The profit travels as the text of
    `calculateProfit`'s result, and `Valuation.ProfitNumberIsParsed` shows
    that `parseFloat` of that text is `ProfitKey`.
  */
  predicate IsProfitable(r: Ranked)
  {
    ProfitKey(r) > 0.0
  }

  /** `listings.filter(listing => parseFloat(listing.profit) > 0)`. */
  function ProfitableListings(s: seq<Ranked>): (r: seq<Ranked>)
    ensures |r| <= |s|
  {
    if s == [] then []
    else (if IsProfitable(s[0]) then [s[0]] else []) + ProfitableListings(s[1..])
  }

  /** The listings of page `page`: the window starting at `(page - 1) * size`. */
  function PageSlice<T>(s: seq<T>, page: int, size: int): seq<T>
  {
    WindowSlice(s, (page - 1) * size, size)
  }

  /** `slice(start, min(start + size, length))`. */
  function WindowSlice<T>(s: seq<T>, start: int, size: int): seq<T>
  {
    JsSlice(s, start, Min(start + size, |s|))
  }

  /** A card on the page: the listing and the number on its rank badge. */
  datatype Shown = Shown(listing: Ranked, rank: int)

  /**
    `displayCurrentPage`: the profitable listings of the page slice, in slice
    order, the `i`-th of them badged `startIndex + i + 1`.
  */
  function DisplayedCards(all: seq<Ranked>, page: int, size: int): seq<Shown>
  {
    WindowCards(all, (page - 1) * size, size)
  }

  /** The cards of the profitable listings of the window starting at `start`. */
  function WindowCards(all: seq<Ranked>, start: int, size: int): seq<Shown>
  {
    Badged(ProfitableListings(WindowSlice(all, start, size)), start)
  }

  /** The `i`-th listing of `q` badged `start + i + 1`. */
  function Badged(q: seq<Ranked>, start: int): seq<Shown>
  {
    seq(|q|, i requires 0 <= i < |q| => Shown(q[i], start + i + 1))
  }

  /** A page count as the browser computes it: a whole number, or `Infinity` after a division by 0. */
  datatype PageCount = Pages(n: int) | Infinite

  /** `k < totalPages`. */
  predicate Before(k: int, total: PageCount)
  {
    total.Infinite? || k < total.n
  }

  /** `totalPages <= 1`: the control is hidden. */
  predicate SinglePage(total: PageCount)
  {
    total.Pages? && total.n <= 1
  }

  /**
    `Math.ceil(profitableCount / itemsPerPage) || 1`. With `itemsPerPage` 0
    the quotient is `NaN` (so 1) for no profitable listing and `Infinity`
    otherwise; a quotient of 0 or -0 also becomes 1.
  */
  function TotalPages(profitableCount: nat, itemsPerPage: int): PageCount
  {
    if itemsPerPage == 0 then
      if profitableCount == 0 then Pages(1) else Infinite
    else
      var q := CeilDiv(profitableCount, itemsPerPage);
      Pages(if q == 0 then 1 else q)
  }

  /** The CSS class of a sale time in days. */
  function SaleTimeClass(days: int): string
  {
    if days <= 3 then "sale-time-fast"
    else if days <= 7 then "sale-time-medium"
    else "sale-time-slow"
  }

  // ---------------------------------------------------------------------
  // The pagination buttons.

  /** A button of the pagination control, with the page it leads to. */
  datatype Button = First | Previous(target: int) | Number(target: int, active: bool) | Next(target: int) | Last(lastPage: PageCount)

  /** The first and the last page number shown: five around the current page, moved back inside `[1, total]`. */
  function Window(current: int, total: PageCount): (int, int)
  {
    var startPage := Max(1, current - 2);
    var endPage := if total.Infinite? then startPage + 4 else Min(total.n, startPage + 4);
    if endPage - startPage < 4 then (Max(1, endPage - 4), endPage) else (startPage, endPage)
  }

  /** The page-number buttons from `first` to `last`, the current one marked active. */
  function NumberButtons(first: int, last: int, current: int): (r: seq<Button>)
    decreases last - first
  {
    if first > last then [] else [Number(first, first == current)] + NumberButtons(first + 1, last, current)
  }

  /** The buttons of `updatePaginationButtons`; `None` when the control is hidden. */
  function Controls(current: int, total: PageCount): Option<seq<Button>>
  {
    if SinglePage(total) then None
    else
      var (first, last) := Window(current, total);
      Some((if current > 1 then [First, Previous(current - 1)] else [])
           + NumberButtons(first, last, current)
           + (if Before(current, total) then [Next(current + 1), Last(total)] else []))
  }

  /** `updatePaginationButtons`: the window is computed in two steps and the number buttons appended in a loop. */
  method PaginationButtons(current: int, total: PageCount) returns (buttons: Option<seq<Button>>)
    ensures buttons == Controls(current, total)
  {
    if SinglePage(total) {
      return None;
    }
    var b: seq<Button> := [];
    if current > 1 {
      b := b + [First, Previous(current - 1)];
    }
    var startPage := Max(1, current - 2);
    var endPage := if total.Infinite? then startPage + 4 else Min(total.n, startPage + 4);
    if endPage - startPage < 4 {
      startPage := Max(1, endPage - 4);
    }
    assert (startPage, endPage) == Window(current, total);
    ghost var head := b;
    assert head == if current > 1 then [First, Previous(current - 1)] else [];
    b := AppendNumberButtons(b, startPage, endPage, current);
    ghost var numbers := b;
    if Before(current, total) {
      b := b + [Next(current + 1), Last(total)];
    }
    assert b == numbers + (if Before(current, total) then [Next(current + 1), Last(total)] else []);
    buttons := Some(b);
  }

  /** The loop of `updatePaginationButtons` that appends the page-number buttons from `first` to `last`. */
  method AppendNumberButtons(b0: seq<Button>, first: int, last: int, current: int) returns (b: seq<Button>)
    ensures b == b0 + NumberButtons(first, last, current)
  {
    b := b0;
    if first > last {
      return;
    }
    var i := first;
    while i <= last
      invariant first <= i <= last + 1
      invariant b == b0 + NumberButtons(first, i - 1, current)
      decreases last - i
    {
      NumberButtonsSnoc(first, i, current);
      b := b + [Number(i, i == current)];
      i := i + 1;
    }
  }

  /** Appending one more number button. */
  lemma {:induction false} NumberButtonsSnoc(first: int, last: int, current: int)
    requires first <= last
    ensures NumberButtons(first, last, current) == NumberButtons(first, last - 1, current) + [Number(last, last == current)]
    decreases last - first
  {
    if first < last {
      NumberButtonsSnoc(first + 1, last, current);
      assert NumberButtons(first, last - 1, current) == [Number(first, first == current)] + NumberButtons(first + 1, last - 1, current);
    }
  }

  // ---------------------------------------------------------------------
  // The stored list, as `loadAllSortedListings` keeps it.

  class ListingsView {
    /** `allSortedListings`: the server's sorted answer, kept for paging. */
    var allSortedListings: seq<Ranked>

    constructor ()
      ensures allSortedListings == []
    {
      allSortedListings := [];
    }

    /** What the page shows of the stored list. */
    function Cards(page: int, size: int): seq<Shown>
      reads this
    {
      DisplayedCards(allSortedListings, page, size)
    }

    /**
      The success handler of `loadAllSortedListings`: store the answer, show
      the current page, and compute the page count and the buttons.
    */
    method Receive(listings: seq<Ranked>, page: int, size: int) returns (cards: seq<Shown>, totalPages: PageCount, buttons: Option<seq<Button>>)
      modifies this
      ensures allSortedListings == listings
      ensures cards == DisplayedCards(listings, page, size)
      ensures totalPages == TotalPages(|ProfitableListings(listings)|, size)
      ensures buttons == Controls(page, totalPages)
    {
      allSortedListings := listings;
      cards := Cards(page, size);
      totalPages := TotalPages(|ProfitableListings(allSortedListings)|, size);
      buttons := PaginationButtons(page, totalPages);
    }
  }

  // ---------------------------------------------------------------------
  // The profitable listings of a sorted list.

  /** Filtering keeps exactly the profitable listings. */
  lemma {:induction false} ProfitableMembers(s: seq<Ranked>, x: Ranked)
    ensures x in ProfitableListings(s) <==> x in s && IsProfitable(x)
  {
    if s != [] {
      ProfitableMembers(s[1..], x);
      assert s == [s[0]] + s[1..];
    }
  }

  /** When the first `m` listings are the profitable ones, filtering keeps exactly them. */
  lemma {:induction false} ProfitablePrefix(s: seq<Ranked>, m: nat)
    requires m <= |s|
    requires forall k :: 0 <= k < m ==> IsProfitable(s[k])
    requires forall k :: m <= k < |s| ==> !IsProfitable(s[k])
    ensures ProfitableListings(s) == s[..m]
  {
    if s != [] {
      if m > 0 {
        ProfitablePrefix(s[1..], m - 1);
        assert s[..m] == [s[0]] + s[1..][..m - 1];
      } else {
        ProfitablePrefix(s[1..], 0);
      }
    }
  }

  /** In a list sorted by non-increasing profit, the profitable listings come first. */
  lemma SortedSplits(s: seq<Ranked>) returns (m: nat)
    requires SortedDesc(s, ProfitKey)
    ensures m <= |s|
    ensures forall k :: 0 <= k < m ==> IsProfitable(s[k])
    ensures forall k :: m <= k < |s| ==> !IsProfitable(s[k])
  {
    m := 0;
    while m < |s| && IsProfitable(s[m])
      invariant m <= |s|
      invariant forall k :: 0 <= k < m ==> IsProfitable(s[k])
    {
      m := m + 1;
    }
    forall k | m <= k < |s|
      ensures !IsProfitable(s[k])
    {
      assert ProfitKey(s[k]) <= ProfitKey(s[m]);
    }
  }

  /** A window starting at `start >= 0`, written without `slice`. */
  lemma WindowSliceBounds<T>(s: seq<T>, start: nat, size: nat)
    ensures start < |s| ==> WindowSlice(s, start, size) == s[start..Min(start + size, |s|)]
    ensures start >= |s| ==> WindowSlice(s, start, size) == []
  {
  }

  lemma MulNonNegative(a: int, b: int)
    requires a >= 0 && b >= 0
    ensures a * b >= 0
  {
  }

  /**
    On a list sorted by profit, the cards of page `page` are page `page` of
    the profitable listings, badged from the page's start: the client's
    ranks are positions among all profitable listings (see `BadgedWindow`).
  */
  lemma DisplayedIsProfitablePage(all: seq<Ranked>, page: int, size: int)
    requires SortedDesc(all, ProfitKey)
    requires page >= 1 && size >= 1
    ensures DisplayedCards(all, page, size) == Badged(PageSlice(ProfitableListings(all), page, size), (page - 1) * size)
  {
    MulNonNegative(page - 1, size);
    SortedWindowProfitable(all, (page - 1) * size, size);
  }

  /** The `i`-th card of a badged window holds the listing at `start + i` and the badge `start + i + 1`. */
  lemma BadgedWindow(p: seq<Ranked>, start: nat, size: nat)
    ensures var d := Badged(WindowSlice(p, start, size), start);
            |d| <= size &&
            forall i :: 0 <= i < |d| ==> start + i < |p| && d[i].listing == p[start + i] && d[i].rank == start + i + 1
  {
    WindowSliceBounds(p, start, size);
  }

  /** On a list sorted by profit, filtering a page gives the same page of the filtered list. */
  lemma SortedPageProfitable(all: seq<Ranked>, page: int, size: int)
    requires SortedDesc(all, ProfitKey)
    requires page >= 1 && size >= 1
    ensures ProfitableListings(PageSlice(all, page, size)) == PageSlice(ProfitableListings(all), page, size)
  {
    MulNonNegative(page - 1, size);
    SortedWindowProfitable(all, (page - 1) * size, size);
  }

  /** The same, for a window given by its start: filtering the window of a sorted list gives the window of the filtered list. */
  lemma SortedWindowProfitable(all: seq<Ranked>, start: nat, size: nat)
    requires SortedDesc(all, ProfitKey)
    ensures ProfitableListings(WindowSlice(all, start, size)) == WindowSlice(ProfitableListings(all), start, size)
  {
    WindowSliceBounds(all, start, size);
    WindowSliceBounds(ProfitableListings(all), start, size);
    var m := SortedSplits(all);
    ProfitablePrefix(all, m);
    if start < |all| {
      var end := Min(start + size, |all|);
      var cut := if m <= start then 0 else Min(m, end) - start;
      WindowSplits(all, m, start, end, cut);
      ProfitablePrefix(all[start..end], cut);
      PrefixWindow(all, m, start, size);
    }
  }

  /** The first `cut` listings of a window are the window of the first `m` listings. */
  lemma PrefixWindow(all: seq<Ranked>, m: nat, start: nat, size: nat)
    requires m <= |all| && start < |all|
    ensures var end := Min(start + size, |all|);
            var cut := if m <= start then 0 else Min(m, end) - start;
            cut <= end - start &&
            all[start..end][..cut] == if start < m then all[..m][start..Min(start + size, m)] else []
  {
    var end := Min(start + size, |all|);
    if start < m {
      var e := Min(start + size, m);
      assert Min(m, end) == e;
      assert all[start..end][..e - start] == all[start..e];
      assert all[..m][start..e] == all[start..e];
    }
  }

  /** A window of a list whose first `m` listings are the profitable ones has its profitable listings first, `cut` of them. */
  lemma WindowSplits(all: seq<Ranked>, m: nat, start: nat, end: nat, cut: nat)
    requires m <= |all| && start <= end <= |all|
    requires forall k :: 0 <= k < m ==> IsProfitable(all[k])
    requires forall k :: m <= k < |all| ==> !IsProfitable(all[k])
    requires cut == if m <= start then 0 else Min(m, end) - start
    ensures cut <= end - start
    ensures forall k :: 0 <= k < cut ==> IsProfitable(all[start..end][k])
    ensures forall k :: cut <= k < end - start ==> !IsProfitable(all[start..end][k])
  {
    forall k | 0 <= k < end - start
      ensures all[start..end][k] == all[start + k]
    {
    }
  }

  /** Every displayed card is profitable and comes from the page slice. */
  lemma DisplayedAreProfitable(all: seq<Ranked>, page: int, size: int, i: nat)
    requires i < |DisplayedCards(all, page, size)|
    ensures IsProfitable(DisplayedCards(all, page, size)[i].listing)
    ensures DisplayedCards(all, page, size)[i].listing in PageSlice(all, page, size)
  {
    var profitable := ProfitableListings(PageSlice(all, page, size));
    ProfitableMembers(PageSlice(all, page, size), profitable[i]);
  }

  // ---------------------------------------------------------------------
  // Page count, window and buttons.

  /**
    The page count: 1 without profitable listings; `Infinity` for a page
    size of 0 with some; for a positive size the ceiling of the count over
    the size, at least 1; for a negative size at most 1, which hides the
    control.
  */
  lemma TotalPagesRule(profitableCount: nat, itemsPerPage: int)
    ensures profitableCount == 0 ==> TotalPages(profitableCount, itemsPerPage) == Pages(1)
    ensures itemsPerPage == 0 && profitableCount > 0 ==> TotalPages(profitableCount, itemsPerPage) == Infinite
    ensures itemsPerPage > 0 ==> TotalPages(profitableCount, itemsPerPage).Pages? && TotalPages(profitableCount, itemsPerPage).n >= 1
    ensures itemsPerPage > 0 && profitableCount > 0 ==>
      var t := TotalPages(profitableCount, itemsPerPage).n;
      (t - 1) * itemsPerPage < profitableCount <= t * itemsPerPage
    ensures itemsPerPage < 0 ==> SinglePage(TotalPages(profitableCount, itemsPerPage))
  {
  }

  /**
    A page size of 0 shows no card. With some profitable listing the page
    count is `Infinity`, and the control, shown, always offers Next and a Last
    button to page `Infinity`.
  */
  lemma ZeroPageSize(all: seq<Ranked>, page: int)
    ensures DisplayedCards(all, page, 0) == []
    ensures ProfitableListings(all) != [] ==>
              TotalPages(|ProfitableListings(all)|, 0) == Infinite &&
              Controls(page, Infinite).Some? &&
              Next(page + 1) in Controls(page, Infinite).value && Last(Infinite) in Controls(page, Infinite).value
  {
    ControlsRule(page, Infinite);
  }

  /**
    For a current page from 1 up to the count the window lies in `[1, total]`
    (no upper end for `Infinity`), holds the current page, and has
    `min(5, total)` pages (5 for `Infinity`).
  */
  lemma WindowRule(current: int, total: PageCount)
    requires 1 <= current && (total.Infinite? || current <= total.n)
    ensures var (first, last) := Window(current, total);
            1 <= first <= current <= last &&
            (total.Pages? ==> last <= total.n && last - first + 1 == Min(5, total.n)) &&
            (total.Infinite? ==> last - first + 1 == 5)
  {
  }

  /** The button holding page `n` in a run of number buttons. */
  lemma {:induction false} NumberButtonsAt(first: int, last: int, current: int, k: nat)
    requires first + k <= last
    ensures k < |NumberButtons(first, last, current)|
    ensures NumberButtons(first, last, current)[k] == Number(first + k, first + k == current)
    decreases last - first
  {
    if k > 0 {
      NumberButtonsAt(first + 1, last, current, k - 1);
    }
  }

  /** A run of number buttons holds only number buttons for the pages from `first` to `last`. */
  lemma {:induction false} NumberButtonsOnly(first: int, last: int, current: int, b: Button)
    requires b in NumberButtons(first, last, current)
    ensures b.Number? && first <= b.target <= last && (b.active <==> b.target == current)
    decreases last - first
  {
    if first <= last && b != Number(first, first == current) {
      NumberButtonsOnly(first + 1, last, current, b);
    }
  }

  /**
    The control is hidden when there is at most one page. Otherwise First and
    Previous are there exactly when the current page is past the first, Next
    and Last exactly when it is before the last, and for a current page in
    range exactly the current page's number is active.
  */
  lemma ControlsRule(current: int, total: PageCount)
    ensures Controls(current, total).None? <==> SinglePage(total)
    ensures !SinglePage(total) ==> (First in Controls(current, total).value <==> current > 1)
    ensures !SinglePage(total) ==> (Previous(current - 1) in Controls(current, total).value <==> current > 1)
    ensures !SinglePage(total) ==> (Next(current + 1) in Controls(current, total).value <==> Before(current, total))
    ensures !SinglePage(total) ==> (Last(total) in Controls(current, total).value <==> Before(current, total))
    ensures !SinglePage(total) && 1 <= current && (total.Infinite? || current <= total.n) ==>
      forall b :: b in Controls(current, total).value && b.Number? && b.active ==> b.target == current
    ensures !SinglePage(total) && 1 <= current && (total.Infinite? || current <= total.n) ==>
      Number(current, true) in Controls(current, total).value
  {
    if !SinglePage(total) {
      var (first, last) := Window(current, total);
      var front: seq<Button> := if current > 1 then [First, Previous(current - 1)] else [];
      var numbers := NumberButtons(first, last, current);
      var back: seq<Button> := if Before(current, total) then [Next(current + 1), Last(total)] else [];
      var all := front + numbers + back;
      assert Controls(current, total).value == all;
      forall b | b in numbers
        ensures b.Number? && (b.active ==> b.target == current)
      {
        NumberButtonsOnly(first, last, current, b);
      }
      if 1 <= current && (total.Infinite? || current <= total.n) {
        WindowRule(current, total);
        NumberButtonsAt(first, last, current, current - first);
        assert Number(current, true) in numbers;
      }
    }
  }

  /**
    The class a card shows for the sale time the server estimated: the
    very fast tier (1 to 3 days) always shows as fast and the slow tier
    (14 to 28 days) as slow; the fast tier shows as fast or medium and the
    profitable tier as medium (only at exactly 7 days) or slow. A fast class
    therefore means one of the two fast tiers, and a slow class one of the
    two others.
  */
  lemma SaleTimeClassOfTier(tier: SpeedTier, draw: real)
    requires 0.0 <= draw < 1.0
    ensures var c := SaleTimeClass(SaleDays(tier, draw));
            (tier == VeryFast ==> c == "sale-time-fast") &&
            (tier == Fast ==> c == "sale-time-fast" || c == "sale-time-medium") &&
            (tier == Profitable ==> c == "sale-time-medium" || c == "sale-time-slow") &&
            (tier == Slow ==> c == "sale-time-slow") &&
            (c == "sale-time-fast" ==> tier == VeryFast || tier == Fast) &&
            (c == "sale-time-slow" ==> tier == Profitable || tier == Slow)
  {
    SaleDaysRange(tier, draw);
  }
}
