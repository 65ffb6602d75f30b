/**
 * GET /api/tools (get_tools) without its search term: the preset tools and
 * the uploaded components, each joined with its category and filtered by
 * the requested category, merged, sorted by date string newest first, and
 * cut into one page.
 */
module Listing {
  import opened Wrappers
  import opened Text
  import opened Store

  datatype Source = Preset | Uploaded

  /** One entry of the `tools` array the endpoint answers. */
  datatype Row = Row(
    id: int, name: string, description: string, url: string, categoryId: int,
    publishDate: string, categoryName: string, source: Source)

  /**
   * The requested `category_id` text: absent, empty or "0" selects every
   * category; any other text selects the category whose id it names as an
   * integer, and a text that is not an integer selects none.
   */
  predicate Selected(filter: Option<string>, categoryId: int) {
    !CategoryGiven(filter) || IntegerText(filter.value) == Some(categoryId)
  }

  /** A record survives `JOIN categories` and the `category_id = ?` condition. */
  predicate Joined(cats: seq<Category>, filter: Option<string>, categoryId: int) {
    FindCategory(cats, categoryId).Some? && Selected(filter, categoryId)
  }

  /** An uploaded record survives the join: its category is an integer naming a category. */
  predicate UploadJoined(cats: seq<Category>, filter: Option<string>, c: Component) {
    c.categoryId.Some? && Joined(cats, filter, c.categoryId.value)
  }

  /** `?category_id=00` selects category 0 alone, while "0" selects every category. */
  lemma ZeroSpellingFilters(categoryId: int)
    ensures Selected(Some("00"), categoryId) <==> categoryId == 0
    ensures Selected(Some("0"), categoryId)
  {
    ZeroSpellings();
  }

  function DisplayNameOf(cats: seq<Category>, categoryId: int): string
    requires FindCategory(cats, categoryId).Some?
  {
    cats[FindCategory(cats, categoryId).value].displayName
  }

  /** The preset query's columns: the title as name, "#" as url. */
  function PresetRow(t: PresetTool, cats: seq<Category>): Row
    requires FindCategory(cats, t.categoryId).Some?
  {
    Row(t.id, t.title, t.description, "#", t.categoryId, t.publishDate,
        DisplayNameOf(cats, t.categoryId), Preset)
  }

  /** The upload query's columns: the title as name and description, the slug as url. */
  function UploadedRow(c: Component, cats: seq<Category>): Row
    requires c.categoryId.Some? && FindCategory(cats, c.categoryId.value).Some?
  {
    Row(c.id, c.title, c.title, c.pathName, c.categoryId.value, c.uploadDate,
        DisplayNameOf(cats, c.categoryId.value), Uploaded)
  }

  // ---------------------------------------------------------------------
  // The two queries
  // ---------------------------------------------------------------------

  /**
   * The preset query in table order: exactly the tools whose category
   * exists and is selected, each with its category's display name.
   */
  function PresetRows(ts: seq<PresetTool>, cats: seq<Category>, filter: Option<string>): (rows: seq<Row>)
    ensures |rows| <= |ts|
    ensures forall i :: 0 <= i < |ts| && Joined(cats, filter, ts[i].categoryId) ==>
              PresetRow(ts[i], cats) in rows
    ensures forall r :: r in rows ==>
              exists i :: 0 <= i < |ts| && Joined(cats, filter, ts[i].categoryId) && r == PresetRow(ts[i], cats)
  {
    if ts == [] then []
    else
      var rest := PresetRows(ts[1..], cats, filter);
      var head := if Joined(cats, filter, ts[0].categoryId) then [PresetRow(ts[0], cats)] else [];
      forall i | 0 <= i < |ts| && Joined(cats, filter, ts[i].categoryId)
        ensures PresetRow(ts[i], cats) in head + rest
      {
        if i > 0 {
          assert ts[1..][i - 1] == ts[i];
        }
      }
      assert forall r :: r in rest ==>
               exists i :: 0 <= i < |ts| && Joined(cats, filter, ts[i].categoryId) && r == PresetRow(ts[i], cats) by {
        forall r | r in rest
          ensures exists i :: 0 <= i < |ts| && Joined(cats, filter, ts[i].categoryId) && r == PresetRow(ts[i], cats)
        {
          var i :| 0 <= i < |ts[1..]| && Joined(cats, filter, ts[1..][i].categoryId) && r == PresetRow(ts[1..][i], cats);
          assert ts[i + 1] == ts[1..][i];
        }
      }
      head + rest
  }

  /** The upload query in table order, under the same join and filter. */
  function UploadedRows(cs: seq<Component>, cats: seq<Category>, filter: Option<string>): (rows: seq<Row>)
    ensures |rows| <= |cs|
    ensures forall i :: 0 <= i < |cs| && UploadJoined(cats, filter, cs[i]) ==>
              UploadedRow(cs[i], cats) in rows
    ensures forall r :: r in rows ==>
              exists i :: 0 <= i < |cs| && UploadJoined(cats, filter, cs[i]) && r == UploadedRow(cs[i], cats)
  {
    if cs == [] then []
    else
      var rest := UploadedRows(cs[1..], cats, filter);
      var head := if UploadJoined(cats, filter, cs[0]) then [UploadedRow(cs[0], cats)] else [];
      forall i | 0 <= i < |cs| && UploadJoined(cats, filter, cs[i])
        ensures UploadedRow(cs[i], cats) in head + rest
      {
        if i > 0 {
          assert cs[1..][i - 1] == cs[i];
        }
      }
      assert forall r :: r in rest ==>
               exists i :: 0 <= i < |cs| && UploadJoined(cats, filter, cs[i]) && r == UploadedRow(cs[i], cats) by {
        forall r | r in rest
          ensures exists i :: 0 <= i < |cs| && UploadJoined(cats, filter, cs[i]) && r == UploadedRow(cs[i], cats)
        {
          var i :| 0 <= i < |cs[1..]| && UploadJoined(cats, filter, cs[1..][i]) && r == UploadedRow(cs[1..][i], cats);
          assert cs[i + 1] == cs[1..][i];
        }
      }
      head + rest
  }

  // ---------------------------------------------------------------------
  // all_tools.sort(key=lambda x: x['publish_date'], reverse=True)
  // ---------------------------------------------------------------------

  /** Newest first: no row's date string is below a later row's. */
  predicate SortedByDateDesc(s: seq<Row>) {
    forall i, j :: 0 <= i < j < |s| ==> !StrLt(s[i].publishDate, s[j].publishDate)
  }

  /** Puts `x`, which came before every row of `s`, behind the rows strictly newer than it. */
  function InsertByDate(x: Row, s: seq<Row>): (r: seq<Row>)
    ensures |r| == |s| + 1 && multiset(r) == multiset(s) + multiset{x}
    ensures forall e :: e in r ==> e == x || e in s
  {
    if s == [] || !StrLt(x.publishDate, s[0].publishDate) then [x] + s
    else
      assert s == [s[0]] + s[1..];
      [s[0]] + InsertByDate(x, s[1..])
  }

  /**
   * Python's stable sort with `reverse=True`: a permutation of the input,
   * newest first, with rows of equal date in their input order (see
   * SortKeepsTies).
   */
  function SortByDateDesc(s: seq<Row>): (r: seq<Row>)
    ensures |r| == |s| && multiset(r) == multiset(s)
    ensures SortedByDateDesc(r)
  {
    if s == [] then []
    else
      var rest := SortByDateDesc(s[1..]);
      InsertKeepsSorted(s[0], rest);
      assert s == [s[0]] + s[1..];
      InsertByDate(s[0], rest)
  }

  /** "Not older than" chains. */
  lemma NotOlderTransitive(a: string, b: string, c: string)
    requires !StrLt(a, b) && !StrLt(b, c)
    ensures !StrLt(a, c)
  {
    StrLtTotal(a, b);
    if StrLt(a, c) && StrLt(b, a) {
      StrLtTransitive(b, a, c);
    }
  }

  /** A row not older than any row of a sorted list may go in front of it. */
  lemma ConsSorted(y: Row, t: seq<Row>)
    requires SortedByDateDesc(t)
    requires forall e :: e in t ==> !StrLt(y.publishDate, e.publishDate)
    ensures SortedByDateDesc([y] + t)
  {
    var r := [y] + t;
    forall i, j | 0 <= i < j < |r| ensures !StrLt(r[i].publishDate, r[j].publishDate) {
      assert r[j] == t[j - 1];
      if i > 0 {
        assert r[i] == t[i - 1];
      }
    }
  }

  lemma {:induction false} InsertKeepsSorted(x: Row, s: seq<Row>)
    requires SortedByDateDesc(s)
    ensures SortedByDateDesc(InsertByDate(x, s))
  {
    if s == [] || !StrLt(x.publishDate, s[0].publishDate) {
      forall e | e in s ensures !StrLt(x.publishDate, e.publishDate) {
        var k :| 0 <= k < |s| && s[k] == e;
        if k > 0 {
          NotOlderTransitive(x.publishDate, s[0].publishDate, e.publishDate);
        }
      }
      ConsSorted(x, s);
    } else {
      var tail := InsertByDate(x, s[1..]);
      InsertKeepsSorted(x, s[1..]);
      StrLtAsymmetric(x.publishDate, s[0].publishDate);
      forall e | e in tail ensures !StrLt(s[0].publishDate, e.publishDate) {
        if e != x {
          var k :| 0 <= k < |s[1..]| && s[1..][k] == e;
          assert s[k + 1] == e;
        }
      }
      assert SortedByDateDesc(s[1..]) by {
        forall i, j | 0 <= i < j < |s[1..]|
          ensures !StrLt(s[1..][i].publishDate, s[1..][j].publishDate)
        {
          assert s[1..][i] == s[i + 1] && s[1..][j] == s[j + 1];
        }
      }
      ConsSorted(s[0], tail);
    }
  }

  /** The rows dated `d`, in order. */
  function WithDate(s: seq<Row>, d: string): (r: seq<Row>)
    ensures |r| <= |s|
    ensures forall e :: e in r ==> e in s && e.publishDate == d
  {
    if s == [] then []
    else (if s[0].publishDate == d then [s[0]] else []) + WithDate(s[1..], d)
  }

  lemma {:induction false} WithDateConcat(a: seq<Row>, b: seq<Row>, d: string)
    ensures WithDate(a + b, d) == WithDate(a, d) + WithDate(b, d)
  {
    if a != [] {
      var h := if a[0].publishDate == d then [a[0]] else [];
      calc {
        WithDate(a + b, d);
        { assert (a + b)[0] == a[0]; assert (a + b)[1..] == a[1..] + b; }
        h + WithDate(a[1..] + b, d);
        { WithDateConcat(a[1..], b, d); }
        h + (WithDate(a[1..], d) + WithDate(b, d));
        (h + WithDate(a[1..], d)) + WithDate(b, d);
      }
    } else {
      assert a + b == b;
    }
  }

  /** Inserting `x` puts it in front of every row already there with its date. */
  lemma {:induction false} WithDateInsert(x: Row, s: seq<Row>, d: string)
    ensures WithDate(InsertByDate(x, s), d) == WithDate([x] + s, d)
  {
    if s != [] && StrLt(x.publishDate, s[0].publishDate) {
      var h0 := if s[0].publishDate == d then [s[0]] else [];
      var hx := if x.publishDate == d then [x] else [];
      StrLtIrreflexive(x.publishDate);
      assert h0 == [] || hx == [];
      var ins := InsertByDate(x, s[1..]);
      calc {
        WithDate(InsertByDate(x, s), d);
        WithDate([s[0]] + ins, d);
        { assert ([s[0]] + ins)[1..] == ins; }
        h0 + WithDate(ins, d);
        { WithDateInsert(x, s[1..], d); }
        h0 + WithDate([x] + s[1..], d);
        { assert ([x] + s[1..])[1..] == s[1..]; }
        h0 + (hx + WithDate(s[1..], d));
        hx + (h0 + WithDate(s[1..], d));
        hx + WithDate(s, d);
        { assert ([x] + s)[1..] == s; }
        WithDate([x] + s, d);
      }
    }
  }

  /** Stability: for every date, the rows of that date keep their input order. */
  lemma {:induction false} SortKeepsTies(s: seq<Row>, d: string)
    ensures WithDate(SortByDateDesc(s), d) == WithDate(s, d)
  {
    if s != [] {
      SortKeepsTies(s[1..], d);
      WithDateInsert(s[0], SortByDateDesc(s[1..]), d);
      assert ([s[0]] + SortByDateDesc(s[1..]))[1..] == SortByDateDesc(s[1..]);
    }
  }

  /** On equal dates, preset rows come before uploaded ones, each group in table order. */
  lemma PresetsFirstOnTies(presets: seq<Row>, uploaded: seq<Row>, d: string)
    ensures WithDate(SortByDateDesc(presets + uploaded), d) == WithDate(presets, d) + WithDate(uploaded, d)
  {
    SortKeepsTies(presets + uploaded, d);
    WithDateConcat(presets, uploaded, d);
  }

  /** Of two rows, the strictly newer one is listed first, whichever query it came from. */
  lemma NewerListedFirst(p: Row, u: Row)
    requires StrLt(p.publishDate, u.publishDate)
    ensures SortByDateDesc([p, u]) == [u, p]
  {
    assert [p, u][1..] == [u];
    assert SortByDateDesc([u]) == [u] by {
      assert [u][1..] == [];
    }
  }

  /** ISO dates compare as strings in calendar order: 2024-01-10 is before 2024-01-12. */
  lemma IsoDatesExample()
    ensures StrLt("2024-01-10", "2024-01-12")
  {
    var a, b := "2024-01-10", "2024-01-12";
    assert a[..9] == b[..9];
    StrLtAtFirstDifference(a, b, 9);
  }

  // ---------------------------------------------------------------------
  // Pagination
  // ---------------------------------------------------------------------

  /** The `pagination` object of the answer. */
  datatype PageInfo = PageInfo(
    page: int, perPage: int, total: int, pages: int, hasPrev: bool, hasNext: bool)

  /** The answer: the page's rows and the pagination object. */
  datatype Page<T> = Page(items: seq<T>, info: PageInfo)

  /** Index of the first row of `page`: `(page - 1) * per_page`. */
  function PageStart(page: int, perPage: int): nat
    requires page >= 1 && perPage >= 1
  {
    (page - 1) * perPage
  }

  function Min(a: int, b: int): int { if a <= b then a else b }

  /** Python's `s[start:end]` for 0 <= start <= end: both ends are clipped to the length. */
  function Slice<T>(s: seq<T>, start: nat, end: nat): (r: seq<T>)
    requires start <= end
    ensures |r| == if start < |s| then Min(end, |s|) - start else 0
    ensures forall i :: 0 <= i < |r| ==> r[i] == s[start + i]
  {
    if start >= |s| then [] else s[start..Min(end, |s|)]
  }

  /** A window of n rows from `start` is full exactly when the list reaches its end. */
  lemma SliceWindow<T>(s: seq<T>, start: nat, n: nat)
    requires n >= 1
    ensures |Slice(s, start, start + n)| == n <==> start + n <= |s|
    ensures Slice(s, start, start + n) != [] <==> start < |s|
  {
  }

  lemma MulMonotone(a: int, b: int, c: nat)
    requires a <= b
    ensures a * c <= b * c
  {
  }

  /** (total + perPage - 1) / perPage is the least page count that covers total. */
  lemma CeilingBounds(total: nat, perPage: int)
    requires perPage >= 1
    ensures var pages := (total + perPage - 1) / perPage;
            pages >= 0 && (pages - 1) * perPage < total <= pages * perPage
  {
    var pages := (total + perPage - 1) / perPage;
    var rem := (total + perPage - 1) % perPage;
    assert total + perPage - 1 == pages * perPage + rem;
    assert (pages - 1) * perPage == pages * perPage - perPage;
  }

  /** With `pages` the ceiling, `page * perPage < total` says that `page` is not the last page. */
  lemma HasNextIsNotLast(total: nat, perPage: int, page: int)
    requires perPage >= 1 && page >= 1
    ensures page * perPage < total <==> page < (total + perPage - 1) / perPage
  {
    var pages := (total + perPage - 1) / perPage;
    CeilingBounds(total, perPage);
    if page < pages {
      MulMonotone(page, pages - 1, perPage);
    } else {
      MulMonotone(pages, page, perPage);
    }
  }

  /**
   * The page window and the pagination fields: the window holds the rows
   * from index (page-1)*perPage on, at most perPage of them, and is full
   * unless it reaches the end of the list. PageCount states what `pages`
   * and `hasNext` mean.
   */
  function Paginate<T>(all: seq<T>, page: int, perPage: int): (r: Page<T>)
    requires page >= 1 && perPage >= 1
    ensures var items, start := r.items, PageStart(page, perPage);
            && |items| <= perPage
            && (items != [] <==> start < |all|)
            && (items != [] ==> start + |items| <= |all|)
            && (forall i :: 0 <= i < |items| ==> items[i] == all[start + i])
            && (|items| == perPage <==> start + perPage <= |all|)
            && (start < |all| ==> |items| == Min(perPage, |all| - start))
    ensures r.info.total == |all| && r.info.page == page && r.info.perPage == perPage
    ensures r.info.hasPrev <==> page > 1
  {
    var total := |all|;
    var start := PageStart(page, perPage);
    SliceWindow(all, start, perPage);
    Page(Slice(all, start, start + perPage),
         PageInfo(page, perPage, total, (total + perPage - 1) / perPage, page > 1, page * perPage < total))
  }

  /**
   * `pages` is the least number of pages that covers every row, and
   * `hasNext` holds exactly when `page` is not the last of them.
   */
  lemma PageCount<T>(all: seq<T>, page: int, perPage: int)
    requires page >= 1 && perPage >= 1
    ensures var info := Paginate(all, page, perPage).info;
            && info.pages >= 0
            && (info.pages - 1) * perPage < |all| <= info.pages * perPage
            && (info.hasNext <==> page < info.pages)
  {
    CeilingBounds(|all|, perPage);
    HasNextIsNotLast(|all|, perPage, page);
  }

  /** Row i is shown on page i/perPage + 1, a page that exists, at position i%perPage. */
  lemma RowPage<T>(all: seq<T>, perPage: int, i: nat)
    requires perPage >= 1 && i < |all|
    ensures var p := i / perPage + 1;
            var r := Paginate(all, p, perPage);
            && 1 <= p <= r.info.pages
            && i % perPage < |r.items| && r.items[i % perPage] == all[i]
  {
    var p := i / perPage + 1;
    assert i == (p - 1) * perPage + i % perPage;
    var pages := (|all| + perPage - 1) / perPage;
    CeilingBounds(|all|, perPage);
    if p > pages {
      MulMonotone(pages, p - 1, perPage);
    }
  }

  /** No other page's window covers row i. */
  lemma RowOnOnePage<T>(all: seq<T>, perPage: int, i: nat, q: int)
    requires perPage >= 1 && i < |all| && q >= 1
    ensures var items := Paginate(all, q, perPage).items;
            (q - 1) * perPage <= i < (q - 1) * perPage + |items| <==> q == i / perPage + 1
  {
    var p := i / perPage + 1;
    assert i == (p - 1) * perPage + i % perPage;
    assert q * perPage == (q - 1) * perPage + perPage;
    assert p * perPage == (p - 1) * perPage + perPage;
    if q < p {
      MulMonotone(q, p - 1, perPage);
    } else if q > p {
      MulMonotone(p, q - 1, perPage);
    }
  }

  /** 25 rows at 10 per page: the third page holds the last 5 and is the last. */
  lemma ThirdOfTwentyFive<T>(all: seq<T>)
    requires |all| == 25
    ensures var r := Paginate(all, 3, 10);
            && r.items == all[20..] && r.info.pages == 3 && r.info.hasPrev && !r.info.hasNext
  {
    var r := Paginate(all, 3, 10);
    PageCount(all, 3, 10);
    assert |r.items| == 5;
  }

  // ---------------------------------------------------------------------
  // The endpoint
  // ---------------------------------------------------------------------

  /**
   * The merged listing before slicing: a permutation of the preset rows
   * followed by the uploaded rows, newest first, each of which passed the
   * join and the filter.
   */
  function AllTools(cats: seq<Category>, ts: seq<PresetTool>, cs: seq<Component>, filter: Option<string>): (all: seq<Row>)
    ensures multiset(all) == multiset(PresetRows(ts, cats, filter) + UploadedRows(cs, cats, filter))
    ensures |all| == |PresetRows(ts, cats, filter)| + |UploadedRows(cs, cats, filter)|
    ensures SortedByDateDesc(all)
    ensures forall row :: row in all ==> Joined(cats, filter, row.categoryId)
  {
    var presets := PresetRows(ts, cats, filter);
    var uploads := UploadedRows(cs, cats, filter);
    MergedJoined(cats, ts, cs, filter, presets, uploads);
    SortByDateDesc(presets + uploads)
  }

  /** Every row of either query passed the join and the filter. */
  lemma MergedJoined(cats: seq<Category>, ts: seq<PresetTool>, cs: seq<Component>, filter: Option<string>,
                     presets: seq<Row>, uploads: seq<Row>)
    requires presets == PresetRows(ts, cats, filter) && uploads == UploadedRows(cs, cats, filter)
    ensures forall row :: row in SortByDateDesc(presets + uploads) ==> Joined(cats, filter, row.categoryId)
  {
    forall row | row in SortByDateDesc(presets + uploads) ensures Joined(cats, filter, row.categoryId) {
      assert row in multiset(presets + uploads);
      if row in presets {
        var i :| 0 <= i < |ts| && Joined(cats, filter, ts[i].categoryId) && row == PresetRow(ts[i], cats);
      } else {
        assert row in uploads;
        var i :| 0 <= i < |cs| && UploadJoined(cats, filter, cs[i]) && row == UploadedRow(cs[i], cats);
      }
    }
  }

  /**
   * `r` answers page `page` of `all`: it holds the run of rows that starts
   * at row (page-1)*perPage, a page long or up to the end of the list; it
   * echoes the page and its size and counts every row; `pages` is the least
   * page count that covers them; the flags say whether a page exists before
   * and after this one.
   */
  ghost predicate IsPageOf<T>(r: Page<T>, all: seq<T>, page: int, perPage: int)
    requires page >= 1 && perPage >= 1
  {
    var start := PageStart(page, perPage);
    && |r.items| == (if start < |all| then Min(perPage, |all| - start) else 0)
    && (forall i :: 0 <= i < |r.items| ==> start + i < |all| && r.items[i] == all[start + i])
    && r.info.total == |all| && r.info.page == page && r.info.perPage == perPage
    && (r.info.pages - 1) * perPage < r.info.total <= r.info.pages * perPage
    && (r.info.hasPrev <==> page > 1)
    && (r.info.hasNext <==> page < r.info.pages)
  }

  /** The answer get_tools builds for a list is a page of it in the sense above. */
  lemma PageOfList<T>(all: seq<T>, page: int, perPage: int)
    requires page >= 1 && perPage >= 1
    ensures IsPageOf(Paginate(all, page, perPage), all, page, perPage)
  {
    PageCount(all, page, perPage);
  }

  /** A page of a listing shows rows of the listing, and keeps it newest first. */
  lemma PageOfListing(all: seq<Row>, page: int, perPage: int)
    requires page >= 1 && perPage >= 1
    ensures forall row :: row in Paginate(all, page, perPage).items ==> row in all
    ensures SortedByDateDesc(all) ==> SortedByDateDesc(Paginate(all, page, perPage).items)
  {
    var items := Paginate(all, page, perPage).items;
    var start := PageStart(page, perPage);
    if items != [] {
      WindowOfListing(all, items, start);
    }
  }

  /** A run of consecutive rows of a listing. */
  lemma WindowOfListing(all: seq<Row>, items: seq<Row>, start: int)
    requires 0 <= start && start + |items| <= |all|
    requires forall i :: 0 <= i < |items| ==> items[i] == all[start + i]
    ensures forall row :: row in items ==> row in all
    ensures SortedByDateDesc(all) ==> SortedByDateDesc(items)
  {
    assert items == all[start..start + |items|];
  }

  /**
   * get_tools with an empty search term: one page of the merged listing.
   * The page is the run of the listing that starts at row (page-1)*perPage,
   * as long as a page or the rest of the listing; `total` counts the rows of
   * both queries, `pages` is the least page count that covers them, and the
   * two flags say whether a page exists before and after this one. Every
   * row on it passes the join and the filter, and the page is newest first.
   */
  function GetTools(cats: seq<Category>, ts: seq<PresetTool>, cs: seq<Component>, filter: Option<string>,
                    page: int, perPage: int): (r: Page<Row>)
    requires page >= 1 && perPage >= 1
    ensures IsPageOf(r, AllTools(cats, ts, cs, filter), page, perPage)
    ensures r.info.total == |PresetRows(ts, cats, filter)| + |UploadedRows(cs, cats, filter)|
    ensures forall row :: row in r.items ==> Joined(cats, filter, row.categoryId)
    ensures SortedByDateDesc(r.items)
  {
    var all := AllTools(cats, ts, cs, filter);
    PageOfList(all, page, perPage);
    PageOfListing(all, page, perPage);
    Paginate(all, page, perPage)
  }
}
