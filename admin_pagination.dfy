/**
 * The pagination bar under the admin data grid: a window of at most three
 * pages around the current one, the first and last page, ellipses where
 * pages are skipped, and the previous/next buttons.
 */
module AdminPagination {
  import opened Wrappers

  /** A page button (`isCurrent`: drawn as "default" and disabled), or an ellipsis. */
  datatype PageItem = PageLink(page: int, isCurrent: bool) | Ellipsis

  /**
   * What the component renders when there is more than one page. `previous`
   * and `next` hold the page their link targets, `None` when disabled.
   */
  datatype Bar = Bar(startPage: int, endPage: int, items: seq<PageItem>, previous: Option<int>, next: Option<int>)

  function Max(a: int, b: int): int { if a >= b then a else b }
  function Min(a: int, b: int): int { if a <= b then a else b }

  /** The buttons of pages `lo` to `hi`. */
  function MiddlePages(lo: int, hi: int, currentPage: int): (m: seq<PageItem>)
    ensures |m| == Max(0, hi - lo + 1)
    ensures forall k :: 0 <= k < |m| ==> m[k] == PageLink(lo + k, lo + k == currentPage)
  {
    if hi < lo then [] else seq(hi - lo + 1, k => PageLink(lo + k, lo + k == currentPage))
  }

  lemma MiddleSnoc(lo: int, hi: int, currentPage: int)
    requires hi + 1 >= lo
    ensures MiddlePages(lo, hi + 1, currentPage) == MiddlePages(lo, hi, currentPage) + [PageLink(hi + 1, hi + 1 == currentPage)]
  {
  }

  /** The items of the bar for a window `startPage..endPage`: a reference definition of the rendering. */
  function Layout(startPage: int, endPage: int, currentPage: int, totalPages: int): seq<PageItem>
  {
    [PageLink(1, currentPage == 1)]
      + (if startPage > 2 then [Ellipsis] else [])
      + MiddlePages(Max(startPage, 2), Min(endPage, totalPages - 1), currentPage)
      + (if endPage < totalPages - 1 then [Ellipsis] else [])
      + [PageLink(totalPages, currentPage == totalPages)]
  }

  /** The button drawn as the current page. */
  predicate Marked(item: PageItem)
  {
    item.PageLink? && item.isCurrent
  }

  ghost predicate PagesIncrease(items: seq<PageItem>)
  {
    forall i, j :: 0 <= i < j < |items| && items[i].PageLink? && items[j].PageLink? ==> items[i].page < items[j].page
  }

  /** Neighbouring page buttons are consecutive pages; an ellipsis stands between two pages that are not. */
  ghost predicate EllipsisExactlyAtGaps(items: seq<PageItem>)
  {
    && (forall k :: 0 <= k < |items| - 1 && items[k].PageLink? && items[k + 1].PageLink? ==>
          items[k + 1].page == items[k].page + 1)
    && (forall k :: 0 < k < |items| - 1 && items[k].Ellipsis? ==>
          items[k - 1].PageLink? && items[k + 1].PageLink? && items[k + 1].page - items[k - 1].page >= 2)
  }

  /** The window the component computes, for a current page within range. */
  ghost predicate WindowInRange(startPage: int, endPage: int, currentPage: int, totalPages: int)
  {
    && 2 <= totalPages
    && 1 <= startPage <= currentPage <= endPage <= totalPages
    && endPage - startPage <= 2
    && (totalPages > 2 ==> endPage - startPage == 2)
  }

  /**
   * Which window that is: centred on a current page strictly inside the
   * range, the first three pages on the first page, the last three on the
   * last (two pages when there are only two).
   */
  ghost predicate WindowPinned(startPage: int, endPage: int, currentPage: int, totalPages: int)
  {
    && (1 < currentPage < totalPages ==> startPage == currentPage - 1 && endPage == currentPage + 1)
    && (currentPage == 1 ==> startPage == 1 && endPage == Min(3, totalPages))
    && (currentPage == totalPages ==> startPage == Max(1, totalPages - 2) && endPage == totalPages)
  }

  /** Item `k` of the layout, by position. */
  lemma LayoutAt(s: int, e: int, cp: int, tp: int)
    ensures var items := Layout(s, e, cp, tp);
      var lead := if s > 2 then 1 else 0;
      var lo := Max(s, 2);
      var m := Max(0, Min(e, tp - 1) - lo + 1);
      var trail := if e < tp - 1 then 1 else 0;
      && |items| == 2 + lead + m + trail
      && items[0] == PageLink(1, cp == 1)
      && items[|items| - 1] == PageLink(tp, cp == tp)
      && (lead == 1 ==> items[1] == Ellipsis)
      && (trail == 1 ==> items[|items| - 2] == Ellipsis)
      && (forall k :: 1 + lead <= k < 1 + lead + m ==> items[k] == PageLink(lo + k - 1 - lead, lo + k - 1 - lead == cp))
  {
    var lead := if s > 2 then 1 else 0;
    var items := Layout(s, e, cp, tp);
    var mid := MiddlePages(Max(s, 2), Min(e, tp - 1), cp);
    var front := [PageLink(1, cp == 1)] + (if s > 2 then [Ellipsis] else []);
    var back := (if e < tp - 1 then [Ellipsis] else []) + [PageLink(tp, cp == tp)];
    assert items == front + mid + back;
    forall k | 1 + lead <= k < 1 + lead + |mid|
      ensures items[k] == mid[k - 1 - lead]
    {
      assert items[k] == (front + mid)[k];
    }
  }

  lemma LayoutPagesIncrease(s: int, e: int, cp: int, tp: int)
    requires tp >= 2
    ensures PagesIncrease(Layout(s, e, cp, tp))
  {
    LayoutAt(s, e, cp, tp);
  }

  lemma LayoutCurrent(s: int, e: int, cp: int, tp: int)
    ensures var items := Layout(s, e, cp, tp);
      forall k :: 0 <= k < |items| && items[k].PageLink? ==> (items[k].isCurrent <==> items[k].page == cp)
  {
    LayoutAt(s, e, cp, tp);
  }

  lemma LayoutShowsCurrent(s: int, e: int, cp: int, tp: int)
    requires WindowInRange(s, e, cp, tp)
    ensures PageLink(cp, true) in Layout(s, e, cp, tp)
  {
    LayoutAt(s, e, cp, tp);
    var items := Layout(s, e, cp, tp);
    var lead := if s > 2 then 1 else 0;
    if 1 < cp < tp {
      assert items[1 + lead + cp - Max(s, 2)] == PageLink(cp, true);
    } else if cp == 1 {
      assert items[0] == PageLink(cp, true);
    } else {
      assert items[|items| - 1] == PageLink(cp, true);
    }
  }

  lemma LayoutGaps(s: int, e: int, cp: int, tp: int)
    requires WindowInRange(s, e, cp, tp)
    ensures EllipsisExactlyAtGaps(Layout(s, e, cp, tp))
    ensures var items := Layout(s, e, cp, tp);
      && (items[1] == Ellipsis <==> s > 2)
      && (items[|items| - 2] == Ellipsis <==> e < tp - 1)
  {
    LayoutAt(s, e, cp, tp);
    LayoutNeighbours(s, e, cp, tp);
    LayoutEllipses(s, e, cp, tp);
  }

  /** Page buttons side by side show consecutive pages. */
  lemma LayoutNeighbours(s: int, e: int, cp: int, tp: int)
    requires WindowInRange(s, e, cp, tp)
    ensures var items := Layout(s, e, cp, tp);
      forall k :: 0 <= k < |items| - 1 && items[k].PageLink? && items[k + 1].PageLink? ==>
        items[k + 1].page == items[k].page + 1
  {
    LayoutAt(s, e, cp, tp);
  }

  /** An ellipsis sits between two page buttons at least two pages apart. */
  lemma LayoutEllipses(s: int, e: int, cp: int, tp: int)
    requires WindowInRange(s, e, cp, tp)
    ensures var items := Layout(s, e, cp, tp);
      forall k :: 0 < k < |items| - 1 && items[k].Ellipsis? ==>
        items[k - 1].PageLink? && items[k + 1].PageLink? && items[k + 1].page - items[k - 1].page >= 2
  {
    LayoutAt(s, e, cp, tp);
  }

  /** Everything the rendered items promise, for the window the component computed. */
  lemma LayoutProperties(s: int, e: int, cp: int, tp: int)
    requires tp >= 2
    requires 1 <= cp <= tp ==> WindowInRange(s, e, cp, tp)
    ensures var items := Layout(s, e, cp, tp);
      && |items| >= 2
      && items[0] == PageLink(1, cp == 1)
      && items[|items| - 1] == PageLink(tp, cp == tp)
      && PagesIncrease(items)
      && (forall k :: 0 <= k < |items| && items[k].PageLink? ==> (items[k].isCurrent <==> items[k].page == cp))
      && (forall i, j :: 0 <= i < j < |items| ==> !(Marked(items[i]) && Marked(items[j])))
    ensures 1 <= cp <= tp ==>
      var items := Layout(s, e, cp, tp);
      && PageLink(cp, true) in items
      && EllipsisExactlyAtGaps(items)
      && (items[1] == Ellipsis <==> s > 2)
      && (items[|items| - 2] == Ellipsis <==> e < tp - 1)
  {
    LayoutAt(s, e, cp, tp);
    LayoutPagesIncrease(s, e, cp, tp);
    LayoutCurrent(s, e, cp, tp);
    if 1 <= cp <= tp {
      LayoutShowsCurrent(s, e, cp, tp);
      LayoutGaps(s, e, cp, tp);
    }
  }

  /** The loop over `startPage..endPage` that adds every page other than the first and the last. */
  method PushMiddle(items: seq<PageItem>, startPage: int, endPage: int, currentPage: int, totalPages: int)
    returns (pushed: seq<PageItem>)
    requires endPage <= totalPages
    ensures pushed == items + MiddlePages(Max(startPage, 2), Min(endPage, totalPages - 1), currentPage)
  {
    pushed := items;
    ghost var lo := Max(startPage, 2);
    var i := startPage;
    while i <= endPage
      invariant startPage <= i <= Max(startPage, endPage + 1)
      invariant pushed == items + MiddlePages(lo, Min(i - 1, totalPages - 1), currentPage)
    {
      ghost var before := MiddlePages(lo, Min(i - 1, totalPages - 1), currentPage);
      if i != 1 && i != totalPages && i > 1 {
        pushed := pushed + [PageLink(i, currentPage == i)];
        MiddleSnoc(lo, i - 1, currentPage);
      } else {
        assert MiddlePages(lo, Min(i, totalPages - 1), currentPage) == before;
      }
      i := i + 1;
    }
    assert MiddlePages(lo, Min(i - 1, totalPages - 1), currentPage)
        == MiddlePages(lo, Min(endPage, totalPages - 1), currentPage);
  }

  /**
   * The page window: one page either side of the current one, widened to
   * three pages at either end of the range.
   */
  method Window(currentPage: int, totalPages: int) returns (startPage: int, endPage: int)
    requires totalPages >= 2
    ensures endPage <= totalPages && endPage - startPage <= 2
    ensures 1 <= currentPage <= totalPages ==> WindowInRange(startPage, endPage, currentPage, totalPages)
    ensures WindowPinned(startPage, endPage, currentPage, totalPages)
  {
    startPage := Max(1, currentPage - 1);
    endPage := Min(totalPages, currentPage + 1);
    if endPage - startPage < 2 && totalPages > 2 {
      if startPage == 1 {
        endPage := Min(totalPages, 3);
      } else if endPage == totalPages {
        startPage := Max(1, totalPages - 2);
      }
    }
  }

  /** The buttons the component pushes, in order, for the window `startPage..endPage`. */
  method RenderItems(startPage: int, endPage: int, currentPage: int, totalPages: int) returns (items: seq<PageItem>)
    requires 2 <= totalPages && endPage <= totalPages
    ensures items == Layout(startPage, endPage, currentPage, totalPages)
  {
    items := [];
    items := items + [PageLink(1, currentPage == 1)];
    if startPage > 2 {
      items := items + [Ellipsis];
    }
    items := PushMiddle(items, startPage, endPage, currentPage, totalPages);
    if endPage < totalPages - 1 {
      items := items + [Ellipsis];
    }
    if totalPages > 1 {
      items := items + [PageLink(totalPages, currentPage == totalPages)];
    }
  }

  /** `AdminPagination({ currentPage, totalPages })`; `None` when nothing is rendered. */
  method AdminPagination(currentPage: int, totalPages: int) returns (bar: Option<Bar>)
    ensures bar.None? <==> totalPages <= 1
    ensures bar.Some? ==> bar.value.items == Layout(bar.value.startPage, bar.value.endPage, currentPage, totalPages)
    ensures bar.Some? ==> bar.value.endPage - bar.value.startPage <= 2
    ensures bar.Some? && 1 <= currentPage <= totalPages ==>
      WindowInRange(bar.value.startPage, bar.value.endPage, currentPage, totalPages)
    ensures bar.Some? ==> WindowPinned(bar.value.startPage, bar.value.endPage, currentPage, totalPages)
    ensures bar.Some? ==>
      var items := bar.value.items;
      && |items| >= 2
      && items[0] == PageLink(1, currentPage == 1)
      && items[|items| - 1] == PageLink(totalPages, currentPage == totalPages)
      && PagesIncrease(items)
      && (forall k :: 0 <= k < |items| && items[k].PageLink? ==> (items[k].isCurrent <==> items[k].page == currentPage))
      && (forall i, j :: 0 <= i < j < |items| ==> !(Marked(items[i]) && Marked(items[j])))
    ensures bar.Some? && 1 <= currentPage <= totalPages ==>
      var items := bar.value.items;
      && PageLink(currentPage, true) in items
      && EllipsisExactlyAtGaps(items)
      && (items[1] == Ellipsis <==> bar.value.startPage > 2)
      && (items[|items| - 2] == Ellipsis <==> bar.value.endPage < totalPages - 1)
    ensures bar.Some? ==> bar.value.previous == (if currentPage > 1 then Some(currentPage - 1) else None)
    ensures bar.Some? ==> bar.value.next == (if currentPage < totalPages then Some(currentPage + 1) else None)
  {
    if totalPages <= 1 {
      return None;
    }
    var startPage, endPage := Window(currentPage, totalPages);
    var items := RenderItems(startPage, endPage, currentPage, totalPages);
    var previous := if currentPage > 1 then Some(currentPage - 1) else None;
    var next := if currentPage < totalPages then Some(currentPage + 1) else None;
    bar := Some(Bar(startPage, endPage, items, previous, next));
    LayoutProperties(startPage, endPage, currentPage, totalPages);
  }
}
