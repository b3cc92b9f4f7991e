/**
  `/api/getPage` in app.js: one page of an already sorted list. The page
  number and the page size go through `parseInt(x) || default`; the page is
  `slice(start, min(start + size, length))` with `start = (page - 1) * size`,
  and the page count is `Math.ceil(length / size)`.
*/
module Paging {
  import opened Base
  import opened JsNumbers

  /** The response body of `/api/getPage`. */
  datatype Page<T> = Page(page: int, totalPages: int, totalListings: nat, listings: seq<T>)

  /** `/api/getPage`: 400 when no list is given, otherwise the requested slice of it. */
  function GetPage<T>(page: Option<int>, itemsPerPage: Option<int>, allListings: Option<seq<T>>): (r: Result<Page<T>, int>)
    ensures r.Err? <==> allListings.None?
    ensures r.Err? ==> r.error == 400
    ensures r.Ok? ==> r.value.totalListings == |allListings.value| && |r.value.listings| <= |allListings.value|
  {
    match allListings
    case None => Err(400)
    case Some(all) =>
      var p := IntOr(page, 1);
      var n := IntOr(itemsPerPage, 50);
      var start := (p - 1) * n;
      var end := Min(start + n, |all|);
      Ok(Page(p, CeilDiv(|all|, n), |all|, JsSlice(all, start, end)))
  }

  /** A page number or a page size that does not parse, or parses as 0, means 1 and 50. */
  lemma GetPageDefaults<T>(page: Option<int>, itemsPerPage: Option<int>, all: seq<T>)
    ensures page.None? || page == Some(0) ==> GetPage(page, itemsPerPage, Some(all)) == GetPage(Some(1), itemsPerPage, Some(all))
    ensures itemsPerPage.None? || itemsPerPage == Some(0) ==> GetPage(page, itemsPerPage, Some(all)) == GetPage(page, Some(50), Some(all))
  {
  }

  /**
    For a page `p >= 1` and a size `n >= 1`: the page is the slice from
    `s = (p - 1) * n` to `min(s + n, length)`, and it is empty once it starts
    at or past the end.
  */
  lemma GetPageSlice<T>(p: int, n: int, all: seq<T>)
    requires p >= 1 && n >= 1
    ensures var r := GetPage(Some(p), Some(n), Some(all)).value;
            var s := (p - 1) * n;
            r.page == p && 0 <= s &&
            (s < |all| ==> r.listings == all[s..Min(s + n, |all|)]) &&
            (s >= |all| ==> r.listings == [])
  {
    PageStart(p, n);
    var start := (p - 1) * n;
    var r := GetPage(Some(p), Some(n), Some(all)).value;
    assert r.listings == JsSlice(all, start, Min(start + n, |all|));
  }

  /** Where page `p` of size `n` starts, and where the next one starts. */
  lemma PageStart(p: int, n: int)
    requires p >= 1 && n >= 1
    ensures 0 <= (p - 1) * n && (p - 1) * n + n == p * n
  {
    assert (p - 1) * n == p * n - n;
  }

  /** The page count is the ceiling of length over size, and a page is non-empty exactly when its number is at most the page count. */
  lemma GetPageCount<T>(p: int, n: int, all: seq<T>)
    requires p >= 1 && n >= 1
    ensures var r := GetPage(Some(p), Some(n), Some(all)).value;
            (r.totalPages - 1) * n < |all| <= r.totalPages * n &&
            (r.listings != [] <==> p <= r.totalPages)
  {
    var t := CeilDiv(|all|, n);
    GetPageSlice(p, n, all);
    if p <= t {
      MulMonotone(p - 1, t - 1, n);
    } else {
      MulMonotone(t, p - 1, n);
    }
  }

  /** Scaling by a non-negative page size keeps the order of page numbers. */
  lemma MulMonotone(a: int, b: int, n: int)
    requires a <= b && n >= 0
    ensures a * n <= b * n
  {
    assert b * n - a * n == (b - a) * n;
  }

  /** The element at index `k` is on page `k / n + 1`, at position `k % n`. */
  lemma GetPagePosition<T>(k: nat, n: int, all: seq<T>)
    requires n >= 1 && k < |all|
    ensures var r := GetPage(Some(k / n + 1), Some(n), Some(all)).value;
            k % n < |r.listings| && r.listings[k % n] == all[k]
  {
    var p := k / n + 1;
    assert (p - 1) * n == k - k % n;
    GetPageSlice(p, n, all);
  }

  /** A negative page number is not rejected: the slice then counts from the end of the list. */
  lemma NegativePageCountsFromEnd()
    ensures GetPage(Some(-1), Some(1), Some([10, 20, 30, 40])).value.listings == [30]
  {
  }
}
