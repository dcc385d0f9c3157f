/** The search-result pages of the web application: the page specification that says which
    page numbers get a link and which of the first-page, last-page and ellipsis links are
    shown, and the reduction of a catalog answer to the base stamps of one page. */
module SearchPage {
  import opened PyStr
  import opened Seqs
  import opened Outcomes
  import opened StampIds
  import opened CatalogRecords
  import CatalogApi
  import AcceptLanguage

  /** The fields of a page specification. */
  datatype PageSpec = PageSpec(
    rpp: int, pageCount: int, currentPage: int, linkedPages: seq<int>,
    nextPage: bool, previousPage: bool, firstPage: bool, lastPage: bool,
    leftEllipsis: bool, rightEllipsis: bool)

  /** What the function asserts of its arguments. */
  predicate ValidRequest(count: int, start: int, rpp: int, linkedPages: int)
  {
    count >= 0 && start >= 0 && rpp > 0 && start % rpp == 0 && linkedPages >= 0
  }

  /** The pages `a, a + 1, ..., b - 1` (`range(a, b)`). */
  function Interval(a: int, b: int): (r: seq<int>)
    ensures |r| == if a <= b then b - a else 0
    ensures forall k :: 0 <= k < |r| ==> r[k] == a + k
  {
    if a < b then seq(b - a, k requires 0 <= k < b - a => a + k) else []
  }

  lemma IntervalMembers(a: int, b: int, x: int)
    ensures x in Interval(a, b) <==> a <= x < b
  {
    if a <= x < b {
      assert Interval(a, b)[x - a] == x;
    }
  }

  function Min(a: int, b: int): int { if a <= b then a else b }
  function Max(a: int, b: int): int { if a <= b then b else a }

  /** The number of pages of `count` results, `rpp` to a page. */
  function PageCount(count: nat, rpp: int): nat
    requires rpp > 0
  {
    if count == 0 then 0 else (count - 1) / rpp + 1
  }

  /** The first and the last linked page, closed-form: every page when there are few enough,
      none for `0`, the current page alone for `1`, and otherwise the window of `linkedPages`
      pages that puts `linkedPages / 2` pages before the current one, moved right or left just
      far enough to stay within `1..pageCount`. */
  function LinkedRange(pageCount: int, currentPage: int, linkedPages: int): (int, int)
  {
    if linkedPages >= pageCount then (1, pageCount)
    else if linkedPages == 0 then (0, -1)
    else if linkedPages == 1 then (currentPage, currentPage)
    else
      var first := Max(1, Min(currentPage - linkedPages / 2, pageCount - linkedPages + 1));
      (first, first + linkedPages - 1)
  }

  /** The page specification, stated on the linked range: with no results everything is zero,
      empty or false; otherwise the first-page link is shown when page 1 lies outside the
      range, the last-page link when the last page does, the left ellipsis when the range
      starts after page 1 and the right ellipsis when it stops before the last page. */
  function Spec(count: nat, start: nat, rpp: int, linkedPages: nat,
                firstPage: bool, lastPage: bool, previousPage: bool, nextPage: bool): PageSpec
    requires rpp > 0
  {
    if count == 0 then PageSpec(rpp, 0, 0, [], false, false, false, false, false, false)
    else
      var pageCount := PageCount(count, rpp);
      var currentPage := start / rpp + 1;
      var (lo, hi) := LinkedRange(pageCount, currentPage, linkedPages);
      PageSpec(rpp, pageCount, currentPage, Interval(lo, hi + 1), nextPage, previousPage,
        !(lo <= 1 <= hi), !(lo <= pageCount <= hi), lo <= hi && lo > 1, lo <= hi && hi < pageCount)
  }

  /** `search_result_page_spec`: computes the page count and the current page, moves
      `first` and `last` step by step, appends the linked pages one by one and then sets the
      four flags from the list. */
  method SearchResultPageSpec(count: int, start: int, rpp: int, linkedPages: int,
                              firstPage: bool, lastPage: bool, previousPage: bool, nextPage: bool)
    returns (result: PageSpec)
    requires ValidRequest(count, start, rpp, linkedPages)
    ensures result == Spec(count, start, rpp, linkedPages, firstPage, lastPage, previousPage, nextPage)
  {
    if count == 0 {
      result := PageSpec(rpp, 0, 0, [], false, false, false, false, false, false);
      return;
    }
    var pageCount := (count - 1) / rpp + 1;
    var currentPage := start / rpp + 1;
    result := PageSpec(rpp, pageCount, currentPage, [], nextPage, previousPage,
      firstPage, lastPage, false, false);
    var first, last := Window(pageCount, currentPage, linkedPages);
    var linked := LinkPages(first, last);
    result := result.(linkedPages := linked);
    assert pageCount == PageCount(count, rpp);
    result := SetLinkFlags(result, first, last);
  }

  /** The four flags set from the linked pages: the first-page and last-page links are shown
      when those pages have no link of their own, an ellipsis when the linked pages stop short
      of that end. */
  method SetLinkFlags(spec: PageSpec, first: int, last: int) returns (result: PageSpec)
    requires first <= last + 1 && spec.linkedPages == Interval(first, last + 1)
    ensures result == spec.(firstPage := !(first <= 1 <= last),
      lastPage := !(first <= spec.pageCount <= last),
      leftEllipsis := first <= last && first > 1,
      rightEllipsis := first <= last && last < spec.pageCount)
  {
    var linked := spec.linkedPages;
    var showFirst, showLast, leftEllipsis, rightEllipsis;
    IntervalMembers(first, last + 1, 1);
    if 1 in linked {
      showFirst := false;
    } else {
      showFirst := true;
    }
    IntervalMembers(first, last + 1, spec.pageCount);
    if spec.pageCount in linked {
      showLast := false;
    } else {
      showLast := true;
    }
    assert |linked| > 0 <==> first <= last;
    if |linked| > 0 && linked[0] > 1 {
      leftEllipsis := true;
    } else {
      leftEllipsis := false;
    }
    assert |linked| > 0 ==> linked[|linked| - 1] == last;
    if |linked| > 0 && linked[|linked| - 1] < spec.pageCount {
      rightEllipsis := true;
    } else {
      rightEllipsis := false;
    }
    result := spec.(firstPage := showFirst, lastPage := showLast,
      leftEllipsis := leftEllipsis, rightEllipsis := rightEllipsis);
  }

  /** `for i in range(first, last+1): result.linked_pages.append(i)`. */
  method LinkPages(first: int, last: int) returns (linked: seq<int>)
    requires first <= last + 1
    ensures linked == Interval(first, last + 1)
  {
    linked := [];
    for i := first to last + 1
      invariant linked == Interval(first, i)
    {
      linked := linked + [i];
    }
  }

  /** The `first` and `last` of the linked pages, moved as the source moves them: centred on
      the current page (one page fewer on the right for an even number of links), then
      shifted right when they start before page 1 and left when they end after the last page. */
  method Window(pageCount: int, currentPage: int, linkedPages: int) returns (first: int, last: int)
    requires pageCount >= 1 && currentPage >= 1 && linkedPages >= 0
    ensures (first, last) == LinkedRange(pageCount, currentPage, linkedPages)
    ensures first <= last + 1
  {
    first := 0;
    last := 0;
    if linkedPages >= pageCount {
      first := 1;
      last := pageCount;
    } else if linkedPages == 0 {
      first := 0;
      last := -1;
    } else if linkedPages == 1 {
      first := currentPage;
      last := currentPage;
    } else if linkedPages > 1 {
      first := currentPage - linkedPages / 2;
      last := currentPage + linkedPages / 2;
      if linkedPages % 2 == 0 {
        last := last - 1;
      }
      assert last == first + linkedPages - 1;
      if first <= 0 {
        last := last + 1 - first;
        first := 1;
      }
      if last > pageCount {
        first := first - (last - pageCount);
        last := pageCount;
      }
    }
  }

  /** Without results the page has no pages, no links and no flags, whatever flags it was
      given. */
  lemma NoResults(start: nat, rpp: int, linkedPages: nat, f: bool, l: bool, p: bool, n: bool)
    requires rpp > 0
    ensures var r := Spec(0, start, rpp, linkedPages, f, l, p, n);
      && r.pageCount == 0 && r.currentPage == 0 && r.linkedPages == []
      && !r.nextPage && !r.previousPage && !r.firstPage && !r.lastPage
      && !r.leftEllipsis && !r.rightEllipsis
  {
  }

  /** The page count is the least number of pages that holds every result. */
  lemma PageCountCeiling(count: nat, rpp: int)
    requires rpp > 0 && count > 0
    ensures PageCount(count, rpp) >= 1
    ensures (PageCount(count, rpp) - 1) * rpp < count <= PageCount(count, rpp) * rpp
  {
    var k := (count - 1) / rpp;
    assert count - 1 == k * rpp + (count - 1) % rpp;
    assert (k + 1) * rpp == k * rpp + rpp;
  }

  /** A start among the results is on a page that exists. */
  lemma CurrentPageBounds(count: nat, start: nat, rpp: int)
    requires rpp > 0 && start % rpp == 0 && start < count
    ensures 1 <= start / rpp + 1 <= PageCount(count, rpp)
  {
    var k := start / rpp;
    var m := (count - 1) / rpp;
    assert start == k * rpp;
    assert count - 1 == m * rpp + (count - 1) % rpp;
    assert (m + 1 - k) * rpp == m * rpp + rpp - k * rpp;
  }

  /** The linked pages are the run of consecutive pages from the first to the last link. */
  lemma LinkedPagesContiguous(count: nat, start: nat, rpp: int, linkedPages: nat,
                              f: bool, l: bool, p: bool, n: bool)
    requires rpp > 0
    ensures var r := Spec(count, start, rpp, linkedPages, f, l, p, n);
      forall k :: 0 <= k < |r.linkedPages| ==> r.linkedPages[k] == r.linkedPages[0] + k
  {
  }

  /** Enough links for every page link every page; `0` links none; `1` links the current
      page alone. */
  lemma FewPagesOrLinks(count: nat, start: nat, rpp: int, linkedPages: nat,
                        f: bool, l: bool, p: bool, n: bool)
    requires rpp > 0 && count > 0
    ensures var r := Spec(count, start, rpp, linkedPages, f, l, p, n);
      && (linkedPages >= r.pageCount ==> r.linkedPages == Interval(1, r.pageCount + 1))
      && (linkedPages == 0 < r.pageCount ==> r.linkedPages == [])
      && (linkedPages == 1 < r.pageCount ==> r.linkedPages == [r.currentPage])
  {
    var r := Spec(count, start, rpp, linkedPages, f, l, p, n);
    if linkedPages == 1 < r.pageCount {
      assert Interval(r.currentPage, r.currentPage + 1) == [r.currentPage];
    }
    if linkedPages == 0 < r.pageCount {
      assert Interval(0, 0) == [];
    }
  }

  /** Between two links and the page count, exactly `linkedPages` pages are linked, all of
      them existing pages, the current page among them. */
  lemma WindowWidth(count: nat, start: nat, rpp: int, linkedPages: nat,
                    f: bool, l: bool, p: bool, n: bool)
    requires rpp > 0 && count > 0
    ensures var r := Spec(count, start, rpp, linkedPages, f, l, p, n);
      1 < linkedPages < r.pageCount ==>
        && |r.linkedPages| == linkedPages
        && (forall k :: 0 <= k < |r.linkedPages| ==> 1 <= r.linkedPages[k] <= r.pageCount)
        && (r.currentPage <= r.pageCount ==> r.currentPage in r.linkedPages)
  {
    var r := Spec(count, start, rpp, linkedPages, f, l, p, n);
    if 1 < linkedPages < r.pageCount {
      var (lo, hi) := LinkedRange(r.pageCount, r.currentPage, linkedPages);
      if r.currentPage <= r.pageCount {
        assert r.currentPage >= 1;
        IntervalMembers(lo, hi + 1, r.currentPage);
      }
    }
  }

  /** Away from both ends an even number of links puts `linkedPages / 2` pages before the
      current page and one fewer after it; an odd number puts the same number on each side. */
  lemma CentredWindow(count: nat, start: nat, rpp: int, linkedPages: nat,
                      f: bool, l: bool, p: bool, n: bool)
    requires rpp > 0 && count > 0
    ensures var r := Spec(count, start, rpp, linkedPages, f, l, p, n);
      var half := linkedPages / 2;
      1 < linkedPages < r.pageCount && half < r.currentPage &&
      r.currentPage + linkedPages - 1 - half <= r.pageCount ==>
        && r.linkedPages[0] == r.currentPage - half
        && r.linkedPages[|r.linkedPages| - 1] ==
             if linkedPages % 2 == 0 then r.currentPage + half - 1 else r.currentPage + half
  {
  }

  /** 2735 results, 20 to a page, 10 links, from the first result: 137 pages, pages 1 to 10
      linked, the right ellipsis and the last-page link shown, neither on the left. */
  lemma FirstOfManyPages()
    ensures var r := Spec(2735, 0, 20, 10, false, false, false, false);
      && r.pageCount == 137 && r.currentPage == 1
      && r.linkedPages == Interval(1, 11)
      && r.rightEllipsis && r.lastPage && !r.leftEllipsis && !r.firstPage
  {
  }

  /** With results, the flags say what the list shows: the first-page link when page 1 is not
      linked, the last-page link when the last page is not, an ellipsis on a side where the
      list stops short, and the next and previous links as given. */
  lemma Flags(count: nat, start: nat, rpp: int, linkedPages: nat,
              f: bool, l: bool, p: bool, n: bool)
    requires rpp > 0 && count > 0
    ensures var r := Spec(count, start, rpp, linkedPages, f, l, p, n);
      && (r.firstPage <==> 1 !in r.linkedPages)
      && (r.lastPage <==> r.pageCount !in r.linkedPages)
      && (r.leftEllipsis <==> |r.linkedPages| > 0 && r.linkedPages[0] > 1)
      && (r.rightEllipsis <==> |r.linkedPages| > 0 && r.linkedPages[|r.linkedPages| - 1] < r.pageCount)
      && r.nextPage == n && r.previousPage == p
  {
    var r := Spec(count, start, rpp, linkedPages, f, l, p, n);
    var (lo, hi) := LinkedRange(r.pageCount, r.currentPage, linkedPages);
    IntervalMembers(lo, hi + 1, 1);
    IntervalMembers(lo, hi + 1, r.pageCount);
  }

  /** The search results a page is rendered from (`search_time` aside). */
  datatype SearchResults = SearchResults(
    query: string, count: int, stampsCount: int, variantStampsCount: int, stamps: seq<Dict>)

  /** A stamp of a catalog answer: its `id` is a nested identifier. */
  predicate HasId(d: Dict)
  {
    Id in d && d[Id].IdCell?
  }

  /** The stamps kept on the page: those whose variant code is empty. */
  predicate IsBaseStamp(d: Dict)
    requires HasId(d)
  {
    d[Id].id.ytVariant == ""
  }

  function BaseTest(stamps: seq<Dict>): Dict -> bool
    requires forall d :: d in stamps ==> HasId(d)
  {
    d => d in stamps && IsBaseStamp(d)
  }

  function VariantTest(stamps: seq<Dict>): Dict -> bool
    requires forall d :: d in stamps ==> HasId(d)
  {
    d => !(d in stamps && IsBaseStamp(d))
  }

  /** The base stamps of an answer, in its order. */
  function BaseStamps(stamps: seq<Dict>): (r: seq<Dict>)
    requires forall d :: d in stamps ==> HasId(d)
    ensures forall d :: d in r <==> d in stamps && IsBaseStamp(d)
  {
    Filter(stamps, BaseTest(stamps))
  }

  /** `stamp_search_results`: the base stamps of the answer are counted, the rest of the
      answer's `count` is reported as variants, and the page keeps
      `stamps[start:start + results_per_page]` of the base stamps. */
  function StampSearchResults(query: string, results: ValuesList<Dict>, start: int, resultsPerPage: int)
    : (r: SearchResults)
    requires forall d :: d in results.values ==> HasId(d)
    ensures r.query == query && r.count == results.count
    ensures r.stampsCount + r.variantStampsCount == results.count
    ensures 0 <= r.stampsCount <= |results.values|
    ensures forall d :: d in r.stamps ==> d in results.values && IsBaseStamp(d)
    ensures resultsPerPage >= 0 ==> |r.stamps| <= resultsPerPage
  {
    var stamps := BaseStamps(results.values);
    var page := Slice(stamps, start, start + resultsPerPage);
    assert forall d :: d in page ==> d in stamps;
    SearchResults(query, results.count, |stamps|, results.count - |stamps|, page)
  }

  /** From a non-negative `start`, the page is the run of at most `resultsPerPage` base stamps
      that begins with the base stamp at position `start`. */
  lemma PageOfBaseStamps(query: string, results: ValuesList<Dict>, start: nat, resultsPerPage: nat)
    requires forall d :: d in results.values ==> HasId(d)
    ensures var base := BaseStamps(results.values);
      var r := StampSearchResults(query, results, start, resultsPerPage);
      && r.stampsCount == |base|
      && |r.stamps| == (if |base| <= start then 0 else Min(resultsPerPage, |base| - start))
      && forall k :: 0 <= k < |r.stamps| ==> r.stamps[k] == base[start + k]
  {
    SliceFrom(BaseStamps(results.values), start, start + resultsPerPage);
  }

  /** When the answer's `count` is its number of stamps, as the catalog API's is, the variant
      count is the number of variant stamps in the answer. */
  lemma VariantCount(query: string, results: ValuesList<Dict>, start: int, resultsPerPage: int)
    requires forall d :: d in results.values ==> HasId(d)
    requires results.count == |results.values|
    ensures StampSearchResults(query, results, start, resultsPerPage).variantStampsCount
      == |Filter(results.values, VariantTest(results.values))|
  {
    FilterComplement(results.values, BaseTest(results.values), VariantTest(results.values));
  }

  /** Every stamp the catalog API answers with has the nested `id` the page reads. */
  lemma CatalogStampsHaveIds(db: seq<DbStamp>, q: CatalogApi.StampsQuery)
    requires AcceptLanguage.HeaderParses(q.acceptLanguage)
    requires CatalogApi.StampsResource(db, q).Ok?
    ensures forall d :: d in CatalogApi.StampsResource(db, q).value.values ==> HasId(d)
  {
    var values := CatalogApi.StampsResource(db, q).value.values;
    forall d | d in values ensures HasId(d) {
      var k :| 0 <= k < |values| && values[k] == d;
      CatalogApi.StampsAreApiStamps(db, q, k);
      var s :| s in db && d == CatalogApi.ApiStamp(s);
      ApiDictOfRow(s);
    }
  }
}
