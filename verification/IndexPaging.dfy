// Pressing Next through the pages of the index path: nothing that should be found is missed.
module IndexPaging {
  import opened Prelude
  import opened Records
  import opened IngestProtocol
  import opened SearchFilter
  import opened SearchCache
  import opened PricingApi
  import opened AnswerChanges
  import opened SearchPageUi

  // The index ranks the documents it lets through and serves the ranking page by page.
  ghost predicate Serves(engine: Engine, index: Index, r: Request, rank: seq<Doc>) {
    forall page: nat, perPage: nat :: page > 0 && perPage > 0 ==>
      engine.hits(Admitted(index, r.filters), EngineQuery(r), page, perPage) == (PageSlice(rank, page, perPage), |rank|)
  }

  lemma DbIdsSlice(docs: seq<Doc>, offset: nat, limit: nat)
    ensures DbIds(Slice(docs, offset, limit)) == Slice(DbIds(docs), offset, limit)
  {
  }

  lemma DbIdsPage(docs: seq<Doc>, page: nat, perPage: nat)
    requires page > 0
    ensures DbIds(PageSlice(docs, page, perPage)) == PageSlice(DbIds(docs), page, perPage)
  {
    hide Slice;
    DbIdsSlice(docs, (page - 1) * perPage, perPage);
  }

  lemma IndexPage(t: Table, index: Index, engine: Engine, r: Request, rank: seq<Doc>, page: nat, perPage: nat)
    requires Serves(engine, index, r, rank) && page > 0 && perPage > 0
    requires r.scope.SearchScope? && ReadFilter(FilterText(r.filters)).Some?
    ensures Answer(t, index, engine, OnPage(r, page, perPage)) ==
            Some(Page(GetByIds(t, PageSlice(DbIds(rank), page, perPage)), page, perPage, |rank|))
  {
    hide ReadFilter, FilterText, Admitted, PageSlice, GetByIds, DbIds;
    DbIdsPage(rank, page, perPage);
    var asked := OnPage(r, page, perPage);
    assert EngineQuery(asked) == EngineQuery(r) && PageOf(asked) == page && PerPageOf(asked) == perPage;
  }

  // The rows of the pages fetched from `page` on, each answer deciding whether Next is offered.
  ghost function Fetched(
    t: Table, index: Index, engine: Engine, r: Request, rank: seq<Doc>, page: nat, perPage: nat): seq<seq<(Id, Row)>>
    requires Serves(engine, index, r, rank) && page > 0 && perPage > 0
    requires r.scope.SearchScope? && ReadFilter(FilterText(r.filters)).Some?
    decreases |rank| - page
  {
    IndexPage(t, index, engine, r, rank, page, perPage);
    CanGoNextExactlyWhen(|rank|, perPage, page);
    var answer := Answer(t, index, engine, OnPage(r, page, perPage)).value;
    [answer.rows] +
    if CanGoNext(answer.total, perPage, page) then Fetched(t, index, engine, r, rank, page + 1, perPage) else []
  }

  function Hydrate(t: Table, pages: seq<seq<Id>>): seq<seq<(Id, Row)>> {
    if pages == [] then [] else [GetByIds(t, pages[0])] + Hydrate(t, pages[1..])
  }

  lemma {:induction false} HydrateConcat(t: Table, pages: seq<seq<Id>>)
    ensures Concat(Hydrate(t, pages)) == GetByIds(t, Concat(pages))
  {
    if pages != [] {
      HydrateConcat(t, pages[1..]);
      GetByIdsConcat(t, pages[0], Concat(pages[1..]));
      ConcatCons(GetByIds(t, pages[0]), Hydrate(t, pages[1..]));
    }
  }

  lemma {:induction false} FetchedIsWalk(
    t: Table, index: Index, engine: Engine, r: Request, rank: seq<Doc>, page: nat, perPage: nat)
    requires Serves(engine, index, r, rank) && page > 0 && perPage > 0
    requires r.scope.SearchScope? && ReadFilter(FilterText(r.filters)).Some?
    ensures Fetched(t, index, engine, r, rank, page, perPage) == Hydrate(t, Walk(DbIds(rank), perPage, page))
    decreases |rank| - page
  {
    hide ReadFilter, FilterText, Admitted, PageSlice, Answer, CanGoNext, GetByIds, Serves;
    IndexPage(t, index, engine, r, rank, page, perPage);
    CanGoNextExactlyWhen(|rank|, perPage, page);
    var first := PageSlice(DbIds(rank), page, perPage);
    var rest := if CanGoNext(|rank|, perPage, page) then Walk(DbIds(rank), perPage, page + 1) else [];
    assert ([first] + rest)[0] == first && ([first] + rest)[1..] == rest;
    if CanGoNext(|rank|, perPage, page) {
      FetchedIsWalk(t, index, engine, r, rank, page + 1, perPage);
    }
  }

  // Walking the pages fetches the rows of the whole ranking, in its order, whatever orphan
  // documents leave gaps in the pages.
  lemma IndexWalkFetchesEverything(t: Table, index: Index, engine: Engine, r: Request, rank: seq<Doc>, perPage: nat)
    requires Serves(engine, index, r, rank) && perPage > 0
    requires r.scope.SearchScope? && ReadFilter(FilterText(r.filters)).Some?
    ensures Concat(Fetched(t, index, engine, r, rank, 1, perPage)) == GetByIds(t, DbIds(rank))
  {
    hide ReadFilter, FilterText, Serves, GetByIds;
    FetchedIsWalk(t, index, engine, r, rank, 1, perPage);
    HydrateConcat(t, Walk(DbIds(rank), perPage, 1));
    WalkFetchesEverything(DbIds(rank), perPage);
  }

  // So with a query that ranks every document let through, the walk finds a clean row
  // exactly when its columns pass the filter.
  lemma IndexWalkFindsExactly(w: World, engine: Engine, r: Request, rank: seq<Doc>, perPage: nat, id: Id)
    requires IndexInv(w) && Serves(engine, w.index, r, rank) && perPage > 0
    requires r.scope.SearchScope? && ReadFilter(FilterText(r.filters)).Some?
    requires forall d :: d in rank <==> d in Admitted(w.index, r.filters).Values
    requires id in w.table && id !in w.dirty
    ensures var rows := Concat(Fetched(w.table, w.index, engine, r, rank, 1, perPage));
            && ((id, w.table[id]) in rows <==> IndexAdmits(r.filters, DocOf(id, w.table[id].values)))
            && (QuoteFreeRequest(r.filters) ==> ((id, w.table[id]) in rows <==> Requested(r.filters, w.table[id].values)))
  {
    hide ReadFilter, FilterText, Serves, GetByIds, IndexAdmits, Requested, Fetched, Concat, Admitted, DbIds, Agrees;
    IndexWalkFetchesEverything(w.table, w.index, engine, r, rank, perPage);
    GetByIdsExactly(w.table, DbIds(rank));
    CleanRowsAdmitted(w, r, id);
    AdmittedOwnIds(w.index, r);
    RankedIds(Admitted(w.index, r.filters), rank, id);
  }

  lemma AdmittedOwnIds(index: Index, r: Request)
    requires OwnIds(index)
    ensures OwnIds(Admitted(index, r.filters))
  {
  }

  lemma RankedIds(docs: Index, rank: seq<Doc>, id: Id)
    requires OwnIds(docs) && forall d :: d in rank <==> d in docs.Values
    ensures id in DbIds(rank) <==> id in docs
  {
    if id in docs {
      assert docs[id] in docs.Values && docs[id] in rank;
      var i :| 0 <= i < |rank| && rank[i] == docs[id];
      assert DbIds(rank)[i] == id;
    }
    if id in DbIds(rank) {
      var i :| 0 <= i < |rank| && DbIds(rank)[i] == id;
      assert rank[i] in rank && rank[i] in docs.Values;
    }
  }
}
