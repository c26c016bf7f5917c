/** frontend/src/components/Pagination.jsx: the page-number window of the pagination
    widget, the "Showing a-b of n" range and the rule that hides the widget. */
module Pagination {
  import opened OfferService

  /** A button of the widget: a page number or the '...' placeholder. */
  datatype PageEntry = Number(n: int) | Ellipsis

  const MaxVisiblePages := 5

  /** Page buttons lo, lo+1, ..., hi. */
  function Run(lo: int, hi: int): (r: seq<PageEntry>)
    ensures |r| == if hi < lo then 0 else hi - lo + 1
    ensures forall i :: 0 <= i < |r| ==> r[i] == Number(lo + i)
    decreases hi - lo
  {
    if hi < lo then [] else [Number(lo)] + Run(lo + 1, hi)
  }

  /** What `getPageNumbers()` returns. */
  function PageNumbers(current: int, total: int): seq<PageEntry> {
    if total <= MaxVisiblePages then Run(1, total)
    else if current <= 3 then Run(1, 4) + [Ellipsis, Number(total)]
    else if current >= total - 2 then [Number(1), Ellipsis] + Run(total - 3, total)
    else [Number(1), Ellipsis] + Run(current - 1, current + 1) + [Ellipsis, Number(total)]
  }

  /** `getPageNumbers()`, pushing onto `pages` as the component does. */
  method GetPageNumbers(current: int, total: int) returns (pages: seq<PageEntry>)
    ensures pages == PageNumbers(current, total)
  {
    pages := [];
    if total <= MaxVisiblePages {
      var i := 1;
      while i <= total
        invariant 1 <= i <= (if total >= 1 then total + 1 else 1)
        invariant pages == Run(1, i - 1)
        decreases total - i
      {
        AppendToRun(1, i - 1);
        pages := pages + [Number(i)];
        i := i + 1;
      }
    } else {
      if current <= 3 {
        for i := 1 to 5
          invariant pages == Run(1, i - 1)
        {
          AppendToRun(1, i - 1);
          pages := pages + [Number(i)];
        }
        pages := pages + [Ellipsis];
        pages := pages + [Number(total)];
        assert pages == Run(1, 4) + [Ellipsis, Number(total)];
      } else if current >= total - 2 {
        pages := pages + [Number(1)];
        pages := pages + [Ellipsis];
        for i := total - 3 to total + 1
          invariant pages == [Number(1), Ellipsis] + Run(total - 3, i - 1)
        {
          AppendToRun(total - 3, i - 1);
          pages := pages + [Number(i)];
        }
      } else {
        pages := pages + [Number(1)];
        pages := pages + [Ellipsis];
        for i := current - 1 to current + 2
          invariant pages == [Number(1), Ellipsis] + Run(current - 1, i - 1)
        {
          AppendToRun(current - 1, i - 1);
          pages := pages + [Number(i)];
        }
        pages := pages + [Ellipsis];
        pages := pages + [Number(total)];
        assert pages == [Number(1), Ellipsis] + Run(current - 1, current + 1) + [Ellipsis, Number(total)];
      }
    }
  }

  lemma AppendToRun(lo: int, hi: int)
    requires lo <= hi + 1
    ensures Run(lo, hi) + [Number(hi + 1)] == Run(lo, hi + 1)
  {
  }

  /** A window of page buttons for `total` pages: it starts at page 1, ends at the
      last page, shows at most 7 buttons, numbers lie within 1..total, adjacent numbers
      are consecutive pages, and a '...' stands between two numbers exactly where at
      least one page is skipped. */
  predicate IsWindow(p: seq<PageEntry>, total: int) {
    |p| <= 7
    && (total >= 1 ==> p != [] && p[0] == Number(1) && p[|p| - 1] == Number(total))
    && (forall i :: 0 <= i < |p| && p[i].Number? ==> 1 <= p[i].n <= total)
    && (forall i :: 0 <= i < |p| - 1 && p[i].Number? && p[i + 1].Number? ==> p[i + 1].n == p[i].n + 1)
    && (forall i :: 0 <= i < |p| && p[i].Ellipsis? ==>
          0 < i < |p| - 1 && p[i - 1].Number? && p[i + 1].Number? && p[i + 1].n >= p[i - 1].n + 2)
  }

  /** With at most 5 pages every page has a button; in every case the buttons form a
      window as `IsWindow` describes. */
  lemma PageNumbersWindow(current: int, total: int)
    ensures total <= MaxVisiblePages ==> PageNumbers(current, total) == Run(1, total)
    ensures IsWindow(PageNumbers(current, total), total)
  {
    if total <= MaxVisiblePages {
      SmallWindow(total);
    } else if current <= 3 {
      HeadWindow(total);
    } else if current >= total - 2 {
      TailWindow(total);
    } else {
      MiddleWindow(current, total);
    }
  }

  lemma SmallWindow(total: int)
    requires total <= MaxVisiblePages
    ensures IsWindow(Run(1, total), total)
  {
  }

  lemma HeadWindow(total: int)
    requires total > MaxVisiblePages
    ensures IsWindow(Run(1, 4) + [Ellipsis, Number(total)], total)
  {
    var p := Run(1, 4) + [Ellipsis, Number(total)];
    assert p == [Number(1), Number(2), Number(3), Number(4), Ellipsis, Number(total)];
  }

  lemma TailWindow(total: int)
    requires total > MaxVisiblePages
    ensures IsWindow([Number(1), Ellipsis] + Run(total - 3, total), total)
  {
    var p := [Number(1), Ellipsis] + Run(total - 3, total);
    assert p == [Number(1), Ellipsis, Number(total - 3), Number(total - 2), Number(total - 1), Number(total)];
  }

  lemma MiddleWindow(current: int, total: int)
    requires total > MaxVisiblePages && 3 < current < total - 2
    ensures IsWindow([Number(1), Ellipsis] + Run(current - 1, current + 1) + [Ellipsis, Number(total)], total)
  {
    var p := [Number(1), Ellipsis] + Run(current - 1, current + 1) + [Ellipsis, Number(total)];
    assert p == [Number(1), Ellipsis, Number(current - 1), Number(current), Number(current + 1), Ellipsis, Number(total)];
  }

  /** The current page, when it exists, always has a button. */
  lemma CurrentPageShown(current: int, total: int)
    requires 1 <= current <= total
    ensures Number(current) in PageNumbers(current, total)
  {
    var p := PageNumbers(current, total);
    if total <= MaxVisiblePages {
      assert p[current - 1] == Number(current);
    } else if current <= 3 {
      assert p[current - 1] == Number(current);
    } else if current >= total - 2 {
      assert p[current - total + 5] == Number(current);
    } else {
      assert p[3] == Number(current);
    }
  }

  /** `startItem` */
  function StartItem(current: int, itemsPerPage: int): int {
    (current - 1) * itemsPerPage + 1
  }

  /** `endItem` */
  function EndItem(current: int, itemsPerPage: int, totalItems: int): int {
    if current * itemsPerPage < totalItems then current * itemsPerPage else totalItems
  }

  /** The range shown is the 1-based position of the first item of the page, one past
      the backend's offset, through the last item of the page or of the list; it
      counts the page's items, at most `itemsPerPage`. */
  lemma ShownRange(current: int, itemsPerPage: int, totalItems: int)
    requires current >= 1 && itemsPerPage >= 1
    requires totalItems > (current - 1) * itemsPerPage
    ensures StartItem(current, itemsPerPage) == Offset(current, itemsPerPage) + 1
    ensures 1 <= StartItem(current, itemsPerPage) <= EndItem(current, itemsPerPage, totalItems) <= totalItems
    ensures EndItem(current, itemsPerPage, totalItems) - StartItem(current, itemsPerPage) + 1
         == (if totalItems - Offset(current, itemsPerPage) < itemsPerPage
             then totalItems - Offset(current, itemsPerPage) else itemsPerPage)
  {
  }

  /** `if (totalPages <= 1) return null` */
  predicate Rendered(totalPages: int) {
    totalPages > 1
  }

  /** A rendered widget always has page 1, a '...' or page 2 after it, and the last page. */
  lemma RenderedHasTwoPages(current: int, total: int)
    requires Rendered(total)
    ensures var p := PageNumbers(current, total);
            |p| >= 2 && p[0] == Number(1) && p[|p| - 1] == Number(total)
  {
    PageNumbersWindow(current, total);
  }
}
