/** Pagination of the view: the page count, the slice shown for a page, and the rule
    that sends an out-of-range page back to the first one. */
module Paging {

  function Min(a: int, b: int): int { if a <= b then a else b }
  function Max(a: int, b: int): int { if a >= b then a else b }

  /** Math.ceil(n / d) for a non-negative n and a positive d: the least whole number
      of d-sized pieces that covers n. */
  function CeilDiv(n: nat, d: int): (r: int)
    requires d > 0
    ensures n <= r * d && (r - 1) * d < n
  {
    var x := n + d - 1;
    assert x == (x / d) * d + x % d;
    x / d
  }

  /** Math.max(1, Math.ceil(n / perPage)): never zero, and the fewest pages of
      perPage items that hold n items. */
  function PageCount(n: nat, perPage: int): (r: int)
    requires perPage > 0
    ensures r >= 1
    ensures n <= r * perPage
    ensures n > 0 ==> (r - 1) * perPage < n
    ensures n == 0 ==> r == 1
  {
    Max(1, CeilDiv(n, perPage))
  }

  /** The start or end argument of Array.prototype.slice turned into an index:
      negative values count back from the end, and the result is clamped to [0, len]. */
  function SliceIndex(k: int, len: nat): (r: nat)
    ensures r <= len
    ensures 0 <= k ==> r == Min(k, len)
    ensures k < 0 ==> r == Max(len + k, 0)
  {
    if k < 0 then Max(len + k, 0) else Min(k, len)
  }

  /** Array.prototype.slice(start, end). */
  function JsSlice<T>(s: seq<T>, start: int, end: int): (r: seq<T>)
    ensures var from, to := SliceIndex(start, |s|), SliceIndex(end, |s|);
      |r| == Max(to - from, 0) && (from < to ==> r == s[from..to])
  {
    var from, to := SliceIndex(start, |s|), SliceIndex(end, |s|);
    if from < to then s[from..to] else []
  }

  /** The items shown for a 1-based page. */
  function PageItems<T>(view: seq<T>, page: int, perPage: int): (r: seq<T>)
    requires perPage > 0
    ensures page >= 1 ==> |r| <= perPage
    ensures forall x :: x in r ==> x in view
  {
    JsSlice(view, (page - 1) * perPage, page * perPage)
  }

  /** A page from 1 on is the contiguous run of at most perPage items starting at
      (page - 1) * perPage, and empty once that start is past the end. */
  lemma PageItemsWindow<T>(view: seq<T>, page: int, perPage: int)
    requires perPage > 0 && page >= 1
    ensures var start, r := (page - 1) * perPage, PageItems(view, page, perPage);
      && |r| <= perPage
      && (start >= |view| ==> r == [])
      && (start < |view| ==> r == view[start..Min(start + perPage, |view|)])
  {
    var start, end := (page - 1) * perPage, page * perPage;
    MulMono(0, page - 1, perPage);
    MulNext(page - 1, perPage);
    assert PageItems(view, page, perPage) == JsSlice(view, start, end);
  }

  /** Item k of the view is shown as item k % perPage of page k / perPage + 1, and that
      page is within the page count: paging loses no item. */
  lemma ItemOnItsPage<T>(view: seq<T>, perPage: int, k: nat)
    requires perPage > 0 && k < |view|
    ensures var page := k / perPage + 1;
      && page <= PageCount(|view|, perPage)
      && k % perPage < |PageItems(view, page, perPage)|
      && PageItems(view, page, perPage)[k % perPage] == view[k]
  {
    var q := k / perPage;
    DivBounds(k, perPage);
    MulCancel(q, PageCount(|view|, perPage), perPage);
    ItemInWindow(view, q + 1, perPage, k);
  }

  lemma DivBounds(k: nat, d: int)
    requires d > 0
    ensures var q := k / d;
      q >= 0 && q * d <= k < q * d + d && k % d == k - q * d
  {
  }

  /** An item whose index lies in a page's window is on that page, at its offset. */
  lemma ItemInWindow<T>(view: seq<T>, page: int, perPage: int, k: nat)
    requires perPage > 0 && page >= 1 && k < |view|
    requires (page - 1) * perPage <= k < (page - 1) * perPage + perPage
    ensures var r := PageItems(view, page, perPage);
      k - (page - 1) * perPage < |r| && r[k - (page - 1) * perPage] == view[k]
  {
    PageItemsWindow(view, page, perPage);
  }

  lemma MulMono(a: int, b: int, c: int)
    requires a <= b && c >= 0
    ensures a * c <= b * c
  {
  }

  lemma MulNext(a: int, c: int)
    ensures (a + 1) * c == a * c + c
  {
  }

  lemma MulCancel(a: int, b: int, c: int)
    requires c > 0 && a * c < b * c
    ensures a < b
  {
    if b <= a { MulMono(b, a, c); }
  }

  /** Every page from 1 to the page count of a non-empty view shows something. */
  lemma InRangePageNotEmpty<T>(view: seq<T>, page: int, perPage: int)
    requires perPage > 0 && |view| > 0 && 1 <= page <= PageCount(|view|, perPage)
    ensures PageItems(view, page, perPage) != []
  {
    PageStartInRange(|view|, page, perPage);
    PageItemsWindow(view, page, perPage);
  }

  /** An in-range page starts before the end of a non-empty view. */
  lemma PageStartInRange(n: nat, page: int, perPage: int)
    requires perPage > 0 && n > 0 && 1 <= page <= PageCount(n, perPage)
    ensures (page - 1) * perPage < n
  {
    var count := PageCount(n, perPage);
    MulMono(page - 1, count - 1, perPage);
  }

  /** The page after the reset rule: a page past the last one becomes page 1. */
  function SettledPage(page: int, pageCount: int): (r: int)
    requires page >= 1 && pageCount >= 1
    ensures 1 <= r <= pageCount
    ensures r == page || r == 1
    ensures page <= pageCount ==> r == page
  {
    if page > pageCount then 1 else page
  }
}
