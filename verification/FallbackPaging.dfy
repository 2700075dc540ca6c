// What the fallback's responses carry, and pressing Next through them.
module FallbackPaging {
  import opened Prelude
  import opened Records
  import opened SearchCache
  import opened PricingApi
  import opened SearchPageUi

  // The response to a search echoes the page and its size and counts all rows that pass; a
  // meta request gets nothing.
  lemma FallbackResponse(t: Table, order: seq<Id>, like: (string, string) -> bool, r: Request)
    requires InQueryOrder(t, order)
    ensures var response := Fallback(t, order, like, r);
            && (r.scope.MetaScope? ==> response == Meta(0, [], []))
            && (r.scope.SearchScope? ==>
                  && response.Page?
                  && response.page == (if r.page.Some? then r.page.value else 1)
                  && response.perPage == (if r.perPage.Some? then r.perPage.value else 25)
                  && response.total == |PassingRows(t, like, r)|)
  {
    hide FallbackRows, PassingRows, PageSlice, InQueryOrder;
    FallbackFindsAll(t, order, like, r);
  }

  // Its rows are those from the page's offset on, as many as the page takes.
  lemma FallbackRowsOfPage(t: Table, order: seq<Id>, like: (string, string) -> bool, r: Request, start: nat)
    requires r.scope.SearchScope?
    requires start == ((if r.page.Some? then r.page.value else 1) - 1) * (if r.perPage.Some? then r.perPage.value else 25)
    ensures var all, rows := FallbackRows(t, order, like, r), Fallback(t, order, like, r).rows;
            && |rows| == (if start >= |all| then 0 else Min(Fallback(t, order, like, r).perPage, |all| - start))
            && forall j :: 0 <= j < |rows| ==> rows[j] == all[start + j]
  {
    hide FallbackRows, Slice;
    SliceAt(FallbackRows(t, order, like, r), start, PerPageOf(r));
  }

  lemma SliceAt<T>(rows: seq<T>, start: nat, limit: nat)
    ensures var slice := Slice(rows, start, limit);
            && |slice| == (if start >= |rows| then 0 else Min(limit, |rows| - start))
            && forall j :: 0 <= j < |slice| ==> slice[j] == rows[start + j]
  {
  }

  lemma {:induction false} RowsOnAnyPage(
    t: Table, order: seq<Id>, like: (string, string) -> bool, r: Request, page: nat, perPage: nat)
    ensures FallbackRows(t, order, like, OnPage(r, page, perPage)) == FallbackRows(t, order, like, r)
  {
    if order != [] {
      RowsOnAnyPage(t, order[1..], like, r, page, perPage);
    }
  }

  // One page, as a slice of all the rows.
  lemma FallbackPage(
    t: Table, order: seq<Id>, like: (string, string) -> bool, r: Request, page: nat, perPage: nat)
    requires r.scope.SearchScope? && page > 0
    ensures var all := FallbackRows(t, order, like, r);
            Fallback(t, order, like, OnPage(r, page, perPage)) == Page(PageSlice(all, page, perPage), page, perPage, |all|)
  {
    hide FallbackRows, PageSlice;
    RowsOnAnyPage(t, order, like, r, page, perPage);
  }

  // The rows of the pages fetched from `page` on, each response deciding whether Next is
  // offered.
  ghost function Fetched(
    t: Table, order: seq<Id>, like: (string, string) -> bool, r: Request, page: nat, perPage: nat): seq<seq<(Id, Row)>>
    requires r.scope.SearchScope? && page > 0 && perPage > 0
    decreases |FallbackRows(t, order, like, r)| - page
  {
    FallbackPage(t, order, like, r, page, perPage);
    CanGoNextExactlyWhen(|FallbackRows(t, order, like, r)|, perPage, page);
    var response := Fallback(t, order, like, OnPage(r, page, perPage));
    [response.rows] +
    if CanGoNext(response.total, perPage, page) then Fetched(t, order, like, r, page + 1, perPage) else []
  }

  lemma {:induction false} FetchedIsWalk(
    t: Table, order: seq<Id>, like: (string, string) -> bool, r: Request, page: nat, perPage: nat)
    requires r.scope.SearchScope? && page > 0 && perPage > 0
    ensures Fetched(t, order, like, r, page, perPage) == Walk(FallbackRows(t, order, like, r), perPage, page)
    decreases |FallbackRows(t, order, like, r)| - page
  {
    hide FallbackRows, Fallback, PageSlice, CanGoNext;
    var all := FallbackRows(t, order, like, r);
    FallbackPage(t, order, like, r, page, perPage);
    CanGoNextExactlyWhen(|all|, perPage, page);
    if CanGoNext(|all|, perPage, page) {
      FetchedIsWalk(t, order, like, r, page + 1, perPage);
    }
  }

  // Pressing Next from page 1 as long as the responses offer it fetches every row that
  // passes once, latest dates first, and nothing else.
  lemma FallbackWalkFindsAll(t: Table, order: seq<Id>, like: (string, string) -> bool, r: Request, perPage: nat)
    requires InQueryOrder(t, order) && r.scope.SearchScope? && perPage > 0
    ensures var all := Concat(Fetched(t, order, like, r, 1, perPage));
            && (forall p :: p in all <==> p in PassingRows(t, like, r))
            && Distinct(all) && DatesDescend(all) && |all| == |PassingRows(t, like, r)|
  {
    hide FallbackRows, PassingRows, Distinct, DatesDescend, Concat;
    FetchedIsWalk(t, order, like, r, 1, perPage);
    WalkFetchesEverything(FallbackRows(t, order, like, r), perPage);
    FallbackFindsAll(t, order, like, r);
  }
}
