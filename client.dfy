/**
 * The browser side of the tool list (static/js/main.js): the pagination
 * state kept in globals, the handlers that change it, the page-number
 * buttons and the pagination bar drawn from it, and the category list.
 */
module Client {
  import opened Wrappers
  import opened Text
  import opened Store
  import opened Listing

  const PerPage: int := 10
  const MaxVisiblePages: int := 5

  function Max(a: int, b: int): int { if a >= b then a else b }

  // ---------------------------------------------------------------------
  // renderPageNumbers
  // ---------------------------------------------------------------------

  /**
   * The first page of the window: `cur - 2`, moved right to stay at or
   * after page 1 and moved left so that the window can still hold five
   * pages before `total`.
   */
  function WindowStart(cur: int, total: int): int {
    Min(Max(1, cur - MaxVisiblePages / 2), Max(1, total - MaxVisiblePages + 1))
  }

  function WindowEnd(cur: int, total: int): int {
    Min(total, WindowStart(cur, total) + MaxVisiblePages - 1)
  }

  /** For a current page that exists, the window holds it and min(5, total) pages. */
  lemma WindowBounds(cur: int, total: int)
    requires 1 <= cur <= total
    ensures var s, e := WindowStart(cur, total), WindowEnd(cur, total);
            1 <= s <= cur <= e <= total && e - s + 1 == Min(MaxVisiblePages, total)
  {
  }

  /** A page button (`active` for the current page) or an ellipsis. */
  datatype PageItem = NumberButton(page: int, active: bool) | Ellipsis

  /** The buttons for pages lo..hi, the current one active. */
  function Buttons(lo: int, hi: int, cur: int): seq<PageItem> {
    seq(Max(0, hi - lo + 1), k => NumberButton(lo + k, lo + k == cur))
  }

  /** Page 1 and an ellipsis when the window starts past page 2. */
  function Lead(start: int): seq<PageItem> {
    if start > 1 then [NumberButton(1, false)] + (if start > 2 then [Ellipsis] else []) else []
  }

  /** An ellipsis when the window ends before the second-last page, then the last page. */
  function Trail(end: int, total: int): seq<PageItem> {
    if end < total then (if end < total - 1 then [Ellipsis] else []) + [NumberButton(total, false)] else []
  }

  /**
   * The items renderPageNumbers draws, in order. For a page that exists the
   * bar shows min(5, total) numbered pages in its window and never more
   * than nine items, whatever the page count.
   */
  function PageItems(cur: int, total: int): (items: seq<PageItem>)
    ensures 1 <= cur <= total ==> Min(MaxVisiblePages, total) <= |items| <= MaxVisiblePages + 4
  {
    var s, e := WindowStart(cur, total), WindowEnd(cur, total);
    Lead(s) + Buttons(s, e, cur) + Trail(e, total)
  }

  /** The JS reassignment of startPage computes the window defined above. */
  lemma ScriptWindow(cur: int, total: int)
    ensures var s0 := Max(1, cur - MaxVisiblePages / 2);
            var e := Min(total, s0 + MaxVisiblePages - 1);
            var s := if e - s0 + 1 < MaxVisiblePages then Max(1, e - MaxVisiblePages + 1) else s0;
            s == WindowStart(cur, total) && e == WindowEnd(cur, total)
  {
  }

  /** renderPageNumbers: the window arithmetic, then the buttons pushed in order. */
  method RenderPageNumbers(currentPage: int, totalPages: int) returns (items: seq<PageItem>)
    ensures items == PageItems(currentPage, totalPages)
  {
    var startPage := Max(1, currentPage - MaxVisiblePages / 2);
    var endPage := Min(totalPages, startPage + MaxVisiblePages - 1);
    if endPage - startPage + 1 < MaxVisiblePages {
      startPage := Max(1, endPage - MaxVisiblePages + 1);
    }
    ScriptWindow(currentPage, totalPages);
    items := [];
    if startPage > 1 {
      items := items + [NumberButton(1, false)];
      if startPage > 2 {
        items := items + [Ellipsis];
      }
    }
    assert items == Lead(startPage);
    var i := startPage;
    while i <= endPage
      invariant startPage <= i && (i <= endPage + 1 || i == startPage)
      invariant items == Lead(startPage) + Buttons(startPage, i - 1, currentPage)
    {
      ButtonsExtend(Lead(startPage), startPage, i, currentPage);
      items := items + [NumberButton(i, i == currentPage)];
      i := i + 1;
    }
    ghost var body := items;
    assert body == Lead(startPage) + Buttons(startPage, endPage, currentPage);
    if endPage < totalPages {
      if endPage < totalPages - 1 {
        items := items + [Ellipsis];
      }
      items := items + [NumberButton(totalPages, false)];
    }
    TrailAppend(body, endPage, totalPages);
  }

  lemma TrailAppend(body: seq<PageItem>, end: int, total: int)
    ensures body + Trail(end, total)
         == if end < total then (if end < total - 1 then body + [Ellipsis] else body) + [NumberButton(total, false)] else body
  {
  }

  lemma ButtonsExtend(lead: seq<PageItem>, lo: int, i: int, cur: int)
    requires lo <= i
    ensures lead + Buttons(lo, i, cur) == lead + Buttons(lo, i - 1, cur) + [NumberButton(i, i == cur)]
  {
    assert Buttons(lo, i, cur) == Buttons(lo, i - 1, cur) + [NumberButton(i, i == cur)];
  }

  /** Items k and k+1, when both exist: not two ellipses, and two buttons show consecutive pages. */
  ghost predicate AdjacentAt(items: seq<PageItem>, k: int) {
    0 <= k < |items| - 1 ==>
      && !(items[k].Ellipsis? && items[k + 1].Ellipsis?)
      && (items[k].NumberButton? && items[k + 1].NumberButton? ==> items[k + 1].page == items[k].page + 1)
  }

  /** An ellipsis at k stands between two buttons whose pages differ by more than one. */
  ghost predicate BridgeAt(items: seq<PageItem>, k: int) {
    0 < k < |items| - 1 && items[k].Ellipsis? ==>
      items[k - 1].NumberButton? && items[k + 1].NumberButton? && items[k + 1].page > items[k - 1].page + 1
  }

  /** Buttons at both ends, neighbouring buttons on neighbouring pages, an ellipsis only across a gap. */
  ghost predicate Spaced(items: seq<PageItem>) {
    && (items != [] ==> items[0].NumberButton? && items[|items| - 1].NumberButton?)
    && (forall k :: AdjacentAt(items, k))
    && (forall k :: BridgeAt(items, k))
  }

  /** Every button's page lies in lo..hi and exactly the one for `cur` is active. */
  ghost predicate Marked(items: seq<PageItem>, lo: int, hi: int, cur: int) {
    forall k :: 0 <= k < |items| && items[k].NumberButton? ==>
      lo <= items[k].page <= hi && (items[k].active <==> items[k].page == cur)
  }

  ghost predicate StartsWith(items: seq<PageItem>, page: int) {
    items != [] && items[0].NumberButton? && items[0].page == page
  }

  ghost predicate EndsWith(items: seq<PageItem>, page: int) {
    items != [] && items[|items| - 1].NumberButton? && items[|items| - 1].page == page
  }

  lemma ButtonsShape(lo: int, hi: int, cur: int)
    requires lo <= hi
    ensures var b := Buttons(lo, hi, cur);
            Spaced(b) && Marked(b, lo, hi, cur) && StartsWith(b, lo) && EndsWith(b, hi)
  {
  }

  /** Two spaced runs joined where the pages meet. */
  lemma JoinSpaced(a: seq<PageItem>, b: seq<PageItem>, x: int)
    requires Spaced(a) && Spaced(b) && EndsWith(a, x) && StartsWith(b, x + 1)
    ensures Spaced(a + b) && StartsWith(a + b, a[0].page) && EndsWith(a + b, b[|b| - 1].page)
  {
    var j := a + b;
    forall k
      ensures AdjacentAt(j, k)
    {
      if 0 <= k < |j| - 1 {
        if k + 1 < |a| {
          assert AdjacentAt(a, k);
          assert j[k] == a[k] && j[k + 1] == a[k + 1];
        } else if k >= |a| {
          assert AdjacentAt(b, k - |a|);
          assert j[k] == b[k - |a|] && j[k + 1] == b[k + 1 - |a|];
        } else {
          assert j[k] == a[k] && j[k + 1] == b[0];
        }
      }
    }
    forall k
      ensures BridgeAt(j, k)
    {
      if 0 < k < |j| - 1 {
        if k < |a| {
          assert BridgeAt(a, k);
          assert j[k - 1] == a[k - 1] && j[k] == a[k];
          assert k < |a| - 1 ==> j[k + 1] == a[k + 1];
        } else {
          assert BridgeAt(b, k - |a|);
          assert j[k + 1] == b[k + 1 - |a|] && j[k] == b[k - |a|];
          assert k > |a| ==> j[k - 1] == b[k - 1 - |a|];
        }
      }
    }
  }

  /** Two spaced runs joined across an ellipsis where pages are skipped. */
  lemma JoinAcrossGap(a: seq<PageItem>, b: seq<PageItem>, x: int, y: int)
    requires Spaced(a) && Spaced(b) && EndsWith(a, x) && StartsWith(b, y) && x + 1 < y
    ensures var j := a + [Ellipsis] + b;
            Spaced(j) && StartsWith(j, a[0].page) && EndsWith(j, b[|b| - 1].page)
  {
    var j := a + [Ellipsis] + b;
    var m := |a| + 1;
    forall k
      ensures AdjacentAt(j, k)
    {
      if 0 <= k < |j| - 1 {
        if k + 1 < |a| {
          assert AdjacentAt(a, k);
          assert j[k] == a[k] && j[k + 1] == a[k + 1];
        } else if k >= m {
          assert AdjacentAt(b, k - m);
          assert j[k] == b[k - m] && j[k + 1] == b[k + 1 - m];
        } else if k + 1 == |a| {
          assert j[k] == a[k] && j[k + 1] == Ellipsis;
        } else {
          assert j[k] == Ellipsis && j[k + 1] == b[0];
        }
      }
    }
    forall k
      ensures BridgeAt(j, k)
    {
      if 0 < k < |j| - 1 {
        if k < |a| {
          assert BridgeAt(a, k);
          assert j[k - 1] == a[k - 1] && j[k] == a[k];
          assert k < |a| - 1 ==> j[k + 1] == a[k + 1];
          assert k == |a| - 1 ==> j[k + 1] == Ellipsis;
        } else if k > |a| {
          assert BridgeAt(b, k - m);
          assert j[k + 1] == b[k + 1 - m] && j[k] == b[k - m];
          assert k > m ==> j[k - 1] == b[k - 1 - m];
          assert k == m ==> j[k - 1] == Ellipsis;
        } else {
          assert j[k - 1] == a[|a| - 1] && j[k + 1] == b[0];
        }
      }
    }
  }

  lemma JoinMarked(a: seq<PageItem>, b: seq<PageItem>, lo: int, hi: int, cur: int)
    requires Marked(a, lo, hi, cur) && Marked(b, lo, hi, cur)
    ensures Marked(a + b, lo, hi, cur) && Marked(a + [Ellipsis] + b, lo, hi, cur)
  {
    assert forall k :: |a| <= k < |a + b| ==> (a + b)[k] == b[k - |a|];
    assert forall k :: |a| + 1 <= k < |a| + 1 + |b| ==> (a + [Ellipsis] + b)[k] == b[k - |a| - 1];
  }

  lemma MarkedWider(a: seq<PageItem>, lo: int, hi: int, lo': int, hi': int, cur: int)
    requires Marked(a, lo, hi, cur) && lo' <= lo && hi <= hi'
    ensures Marked(a, lo', hi', cur)
  {
  }

  /** The window with page 1 (and an ellipsis when needed) in front. */
  lemma LeftShape(cur: int, total: int)
    requires 1 <= cur <= total
    ensures var s, e := WindowStart(cur, total), WindowEnd(cur, total);
            var l := Lead(s) + Buttons(s, e, cur);
            && Spaced(l) && Marked(l, 1, e, cur) && StartsWith(l, 1) && EndsWith(l, e)
  {
    WindowBounds(cur, total);
    var s, e := WindowStart(cur, total), WindowEnd(cur, total);
    var b := Buttons(s, e, cur);
    ButtonsShape(s, e, cur);
    MarkedWider(b, s, e, 1, e, cur);
    var one := [NumberButton(1, false)];
    if s > 1 {
      assert Spaced(one) && Marked(one, 1, e, cur) && EndsWith(one, 1);
      JoinMarked(one, b, 1, e, cur);
      if s > 2 {
        JoinAcrossGap(one, b, 1, s);
        assert Lead(s) + b == one + [Ellipsis] + b;
      } else {
        JoinSpaced(one, b, 1);
        assert Lead(s) + b == one + b;
      }
    } else {
      assert Lead(s) + b == b;
    }
  }

  /** The second item is an ellipsis exactly when the window starts after page 2. */
  lemma LeadSecond(cur: int, total: int)
    requires 1 <= cur <= total
    ensures var items, s := PageItems(cur, total), WindowStart(cur, total);
            |items| > 1 ==> (items[1] == Ellipsis <==> s > 2)
  {
    WindowBounds(cur, total);
    var s, e := WindowStart(cur, total), WindowEnd(cur, total);
    var items, b := PageItems(cur, total), Buttons(s, e, cur);
    if s == 2 {
      assert items[1] == b[0];
    } else if s == 1 && |items| > 1 {
      assert items[1] == b[1];
    }
  }

  /** The second-last item is an ellipsis exactly when the window ends before page total-1. */
  lemma TrailSecond(cur: int, total: int)
    requires 1 <= cur <= total
    ensures var items, e := PageItems(cur, total), WindowEnd(cur, total);
            |items| > 1 ==> (items[|items| - 2] == Ellipsis <==> e < total - 1)
  {
    WindowBounds(cur, total);
    var s, e := WindowStart(cur, total), WindowEnd(cur, total);
    var items, b := PageItems(cur, total), Buttons(s, e, cur);
    var n := |items|;
    if e == total - 1 {
      assert items[n - 2] == b[|b| - 1];
    } else if e == total && n > 1 {
      assert items[n - 2] == b[|b| - 2];
    }
  }

  /** The properties of all the items that renderPageNumbers draws. */
  lemma PageItemsShape(cur: int, total: int)
    requires 1 <= cur <= total
    ensures var items, s, e := PageItems(cur, total), WindowStart(cur, total), WindowEnd(cur, total);
            && Spaced(items) && Marked(items, 1, total, cur) && StartsWith(items, 1) && EndsWith(items, total)
            && NumberButton(cur, true) in items
  {
    WindowBounds(cur, total);
    LeftShape(cur, total);
    var s, e := WindowStart(cur, total), WindowEnd(cur, total);
    var l := Lead(s) + Buttons(s, e, cur);
    var last := [NumberButton(total, false)];
    assert PageItems(cur, total) == l + Trail(e, total);
    MarkedWider(l, 1, e, 1, total, cur);
    if e < total {
      assert Spaced(last) && Marked(last, 1, total, cur) && StartsWith(last, total);
      JoinMarked(l, last, 1, total, cur);
      if e < total - 1 {
        JoinAcrossGap(l, last, e, total);
        assert l + Trail(e, total) == l + [Ellipsis] + last;
      } else {
        JoinSpaced(l, last, e);
        assert l + Trail(e, total) == l + last;
      }
    } else {
      assert l + Trail(e, total) == l;
    }
    assert Buttons(s, e, cur)[cur - s] == NumberButton(cur, true);
    assert l[|Lead(s)| + (cur - s)] == NumberButton(cur, true);
    assert PageItems(cur, total)[|Lead(s)| + (cur - s)] == NumberButton(cur, true);
  }

  /** In a spaced run the button pages strictly increase. */
  lemma {:induction false} SpacedIncreasing(items: seq<PageItem>, j: int, k: int)
    requires Spaced(items) && 0 <= j < k < |items|
    requires items[j].NumberButton? && items[k].NumberButton?
    ensures items[j].page < items[k].page
    decreases k - j
  {
    assert AdjacentAt(items, j) && BridgeAt(items, j + 1);
    if items[j + 1].NumberButton? {
      if j + 1 < k {
        SpacedIncreasing(items, j + 1, k);
      }
    } else {
      if j + 2 < k {
        SpacedIncreasing(items, j + 2, k);
      }
    }
  }

  /**
   * Besides the window's buttons there is a page-1 button exactly when the
   * window starts after page 1, a leading ellipsis exactly when it starts
   * after page 2, and the same at the other end; so the first item is
   * always page 1 and the last always page `total`.
   */
  lemma PageItemsEnds(cur: int, total: int)
    requires 1 <= cur <= total
    ensures var items, s, e := PageItems(cur, total), WindowStart(cur, total), WindowEnd(cur, total);
            && |items| == (e - s + 1) + (if s > 2 then 2 else if s > 1 then 1 else 0)
                                      + (if e < total - 1 then 2 else if e < total then 1 else 0)
            && items[0] == NumberButton(1, cur == 1)
            && items[|items| - 1] == NumberButton(total, cur == total)
            && (|items| > 1 ==> (items[1] == Ellipsis <==> s > 2))
            && (|items| > 1 ==> (items[|items| - 2] == Ellipsis <==> e < total - 1))
  {
    WindowBounds(cur, total);
    PageItemsShape(cur, total);
    LeadSecond(cur, total);
    TrailSecond(cur, total);
  }

  /**
   * Button pages increase along the items and lie in 1..total, exactly
   * the current page's button is active, and it is drawn.
   */
  lemma PageItemsOrdered(cur: int, total: int)
    requires 1 <= cur <= total
    ensures var items := PageItems(cur, total);
            && (forall j, k :: 0 <= j < k < |items| && items[j].NumberButton? && items[k].NumberButton? ==>
                  items[j].page < items[k].page)
            && (forall k :: 0 <= k < |items| && items[k].NumberButton? ==> 1 <= items[k].page <= total)
            && (forall k :: 0 <= k < |items| && items[k].NumberButton? ==> (items[k].active <==> items[k].page == cur))
            && NumberButton(cur, true) in items
  {
    PageItemsShape(cur, total);
    var items := PageItems(cur, total);
    forall j, k | 0 <= j < k < |items| && items[j].NumberButton? && items[k].NumberButton?
      ensures items[j].page < items[k].page
    {
      SpacedIncreasing(items, j, k);
    }
  }

  // ---------------------------------------------------------------------
  // renderPagination
  // ---------------------------------------------------------------------

  /** The pagination bar: hidden, or the "start-end of total" range, the two buttons and the numbers. */
  datatype PaginationView =
    | Hidden
    | Shown(start: int, end: int, prevDisabled: bool, nextDisabled: bool, numbers: seq<PageItem>)

  /**
   * What the bar shows for an answer of the server: it is hidden exactly
   * when every row fits on one page; otherwise its range counts exactly the
   * rows on the page, starting at the page's first row, and the two
   * buttons are disabled exactly when the server reports no previous or
   * no next page.
   */
  lemma BarMatchesAnswer(all: seq<Row>, page: int)
    requires page >= 1
    ensures var r := Paginate(all, page, PerPage);
            && (r.info.pages <= 1 <==> |all| <= PerPage)
            && (r.items != [] ==>
                  && Min(page * PerPage, |all|) - ((page - 1) * PerPage + 1) + 1 == |r.items|
                  && r.items[0] == all[(page - 1) * PerPage])
            && (page <= 1 <==> !r.info.hasPrev)
            && (page >= r.info.pages <==> !r.info.hasNext)
  {
    var r := Paginate(all, page, PerPage);
    PageCount(all, page, PerPage);
    assert page * PerPage == (page - 1) * PerPage + PerPage;
  }

  // ---------------------------------------------------------------------
  // The page state and its handlers
  // ---------------------------------------------------------------------

  /** The globals main.js keeps for the listing. */
  class Pager {
    var currentPage: int
    var totalPages: int
    var totalTools: int
    var currentSearch: string
    var currentCategoryId: string

    /** The page asked for next is at least 1; the counts are never negative. */
    predicate Valid()
      reads this
    {
      currentPage >= 1 && totalPages >= 0 && totalTools >= 0
    }

    /** The current page is one the listing has. */
    predicate InRange()
      reads this
    {
      1 <= currentPage <= totalPages
    }

    /** The initial values of the globals. */
    constructor ()
      ensures Valid() && InRange()
      ensures currentPage == 1 && totalPages == 1 && totalTools == 0
      ensures currentSearch == "" && currentCategoryId == "0"
    {
      currentPage, totalPages, totalTools := 1, 1, 0;
      currentSearch, currentCategoryId := "", "0";
    }

    /**
     * The success path of loadTools: the counts and the page come from the
     * answer, which may be the answer to an earlier request that was still
     * under way when the page changed.
     */
    method ReceivePage(info: PageInfo)
      requires Valid() && info.page >= 1 && info.total >= 0 && info.pages >= 0
      modifies this
      ensures Valid()
      ensures totalTools == info.total && totalPages == info.pages && currentPage == info.page
      ensures currentSearch == old(currentSearch) && currentCategoryId == old(currentCategoryId)
    {
      totalTools := info.total;
      totalPages := info.pages;
      currentPage := info.page;
    }

    /** The previous-page button: steps back only from a page after the first. */
    method Prev() returns (reload: bool)
      requires Valid()
      modifies this
      ensures Valid() && (old(InRange()) ==> InRange())
      ensures reload <==> old(currentPage) > 1
      ensures currentPage == if reload then old(currentPage) - 1 else old(currentPage)
      ensures totalPages == old(totalPages) && totalTools == old(totalTools)
      ensures currentSearch == old(currentSearch) && currentCategoryId == old(currentCategoryId)
    {
      reload := false;
      if currentPage > 1 {
        currentPage := currentPage - 1;
        reload := true;
      }
    }

    /** The next-page button: steps on only from a page before the last. */
    method Next() returns (reload: bool)
      requires Valid()
      modifies this
      ensures Valid() && (old(InRange()) ==> InRange())
      ensures reload <==> old(currentPage) < old(totalPages)
      ensures currentPage == if reload then old(currentPage) + 1 else old(currentPage)
      ensures currentPage <= Max(old(currentPage), totalPages)
      ensures totalPages == old(totalPages) && totalTools == old(totalTools)
      ensures currentSearch == old(currentSearch) && currentCategoryId == old(currentCategoryId)
    {
      reload := false;
      if currentPage < totalPages {
        currentPage := currentPage + 1;
        reload := true;
      }
    }

    /**
     * A page-number button of a bar drawn for the current page count, maybe
     * for an earlier current page when a reload is still under way
     * (ButtonPagesExist: every such button names a page in 1..totalPages).
     * It changes the page only to another one.
     */
    method GoToPage(button: PageItem) returns (reload: bool)
      requires Valid() && button.NumberButton? && 1 <= button.page <= totalPages
      modifies this
      ensures Valid() && InRange()
      ensures reload <==> button.page != old(currentPage)
      ensures currentPage == button.page
      ensures totalPages == old(totalPages) && totalTools == old(totalTools)
      ensures currentSearch == old(currentSearch) && currentCategoryId == old(currentCategoryId)
    {
      reload := false;
      if button.page != currentPage {
        currentPage := button.page;
        reload := true;
      }
    }

    /** handleSearch (and the debounced input handler): a new trimmed term restarts at page 1. */
    method HandleSearch(input: string) returns (reload: bool)
      requires Valid()
      modifies this
      ensures Valid()
      ensures reload <==> JsTrim(input) != old(currentSearch)
      ensures reload ==> currentSearch == JsTrim(input) && currentPage == 1
      ensures !reload ==> currentSearch == old(currentSearch) && currentPage == old(currentPage)
      ensures totalPages == old(totalPages) && totalTools == old(totalTools)
      ensures currentCategoryId == old(currentCategoryId)
    {
      var value := JsTrim(input);
      reload := false;
      if currentSearch != value {
        currentSearch := value;
        currentPage := 1;
        reload := true;
      }
    }

    /** The clear button: always empties the term, restarts at page 1 and reloads. */
    method ClearSearch() returns (reload: bool)
      requires Valid()
      modifies this
      ensures Valid() && reload
      ensures currentSearch == "" && currentPage == 1
      ensures totalPages == old(totalPages) && totalTools == old(totalTools)
      ensures currentCategoryId == old(currentCategoryId)
    {
      currentSearch := "";
      currentPage := 1;
      reload := true;
    }

    /**
     * handleCategoryClick: `link` is the clicked category link's
     * `data-category-id`, None when the click was not on a link. Another
     * category restarts at page 1.
     */
    method HandleCategoryClick(link: Option<string>) returns (reload: bool)
      requires Valid()
      modifies this
      ensures Valid()
      ensures reload <==> link.Some? && link.value != old(currentCategoryId)
      ensures reload ==> currentCategoryId == link.value && currentPage == 1
      ensures !reload ==> currentCategoryId == old(currentCategoryId) && currentPage == old(currentPage)
      ensures totalPages == old(totalPages) && totalTools == old(totalTools)
      ensures currentSearch == old(currentSearch)
    {
      reload := false;
      if link.None? {
        return;
      }
      if link.value == currentCategoryId {
        return;
      }
      currentCategoryId := link.value;
      currentPage := 1;
      reload := true;
    }

    /**
     * renderPagination: hidden for at most one page; otherwise the range
     * of rows shown, the two buttons' disabled states and the numbers.
     */
    method RenderPagination() returns (v: PaginationView)
      ensures v.Hidden? <==> totalPages <= 1
      ensures v.Shown? ==>
                && v.start == (currentPage - 1) * PerPage + 1
                && v.end == Min(currentPage * PerPage, totalTools)
                && (v.prevDisabled <==> currentPage <= 1)
                && (v.nextDisabled <==> currentPage >= totalPages)
                && v.numbers == PageItems(currentPage, totalPages)
    {
      if totalPages <= 1 {
        return Hidden;
      }
      var start := (currentPage - 1) * PerPage + 1;
      var end := Min(currentPage * PerPage, totalTools);
      var numbers := RenderPageNumbers(currentPage, totalPages);
      v := Shown(start, end, currentPage <= 1, currentPage >= totalPages, numbers);
    }
  }

  /** Every page button drawn, whatever the state, names a page of the listing. */
  lemma ButtonPagesExist(cur: int, total: int, button: PageItem)
    requires button.NumberButton? && button in PageItems(cur, total)
    ensures 1 <= button.page <= total
  {
    var s, e := WindowStart(cur, total), WindowEnd(cur, total);
    var b := Buttons(s, e, cur);
    if button in b {
      var k :| 0 <= k < |b| && b[k] == button;
    }
  }

  // ---------------------------------------------------------------------
  // renderCategories
  // ---------------------------------------------------------------------

  /** The "all" entry the list starts with. */
  const AllEntry: Category := Category(0, "all", "\U{5168}\U{90E8}")

  /** `categories.filter(cat => cat.name !== 'all')`: the others, in order. */
  function WithoutAll(cats: seq<Category>): (r: seq<Category>)
    ensures |r| <= |cats|
    ensures forall i :: 0 <= i < |r| ==> r[i].name != "all"
  {
    if cats == [] then []
    else (if cats[0].name == "all" then [] else [cats[0]]) + WithoutAll(cats[1..])
  }

  /** The filter keeps each category not named "all" as often as it occurs and drops the others. */
  lemma {:induction false} WithoutAllCounts(cats: seq<Category>)
    ensures forall c :: multiset(WithoutAll(cats))[c] == if c.name == "all" then 0 else multiset(cats)[c]
  {
    if cats != [] {
      WithoutAllCounts(cats[1..]);
      assert cats == [cats[0]] + cats[1..];
    }
  }

  /** The rendered list: the "all" entry, then every fetched category not named "all". */
  function CategoryEntries(fetched: seq<Category>): (r: seq<Category>)
    ensures |r| >= 1 && r[0] == AllEntry
    ensures forall c :: multiset(r[1..])[c] == if c.name == "all" then 0 else multiset(fetched)[c]
  {
    var r := [AllEntry] + WithoutAll(fetched);
    WithoutAllCounts(fetched);
    assert r[1..] == WithoutAll(fetched);
    r
  }

  /** The filter keeps order: it distributes over concatenation. */
  lemma {:induction false} WithoutAllConcat(a: seq<Category>, b: seq<Category>)
    ensures WithoutAll(a + b) == WithoutAll(a) + WithoutAll(b)
  {
    if a == [] {
      assert a + b == b;
    } else {
      assert (a + b)[0] == a[0] && (a + b)[1..] == a[1..] + b;
      WithoutAllConcat(a[1..], b);
    }
  }

  /** Without a category named "all", the list is the fetched categories in their order. */
  lemma {:induction false} NoAllNamedKeepsList(fetched: seq<Category>)
    requires forall i :: 0 <= i < |fetched| ==> fetched[i].name != "all"
    ensures CategoryEntries(fetched) == [AllEntry] + fetched
  {
    NoAllNamedKeepsOrder(fetched);
  }

  lemma {:induction false} NoAllNamedKeepsOrder(fetched: seq<Category>)
    requires forall i :: 0 <= i < |fetched| ==> fetched[i].name != "all"
    ensures WithoutAll(fetched) == fetched
  {
    if fetched != [] {
      assert forall i :: 0 <= i < |fetched[1..]| ==> fetched[1..][i] == fetched[i + 1];
      NoAllNamedKeepsOrder(fetched[1..]);
      assert fetched == [fetched[0]] + fetched[1..];
    }
  }
}
