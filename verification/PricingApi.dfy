// The search and update endpoints over the caches, the index and the table
// (backend/app/api/pricing.py).
module PricingApi {
  import opened Prelude
  import opened Calendar
  import opened Records
  import opened IndexClient
  import opened IngestProtocol
  import opened PricingService
  import opened SearchFilter
  import opened FilterAgreement
  import opened SearchCache
  import Ttl = TtlCache

  datatype Response =
    | Page(rows: seq<(Id, Row)>, page: nat, perPage: nat, total: nat)
    | Meta(found: nat, facets: seq<(string, string, nat)>, suggestions: seq<string>)

  // The index's ranking, taken as given: from the documents that pass the filter, the query
  // text and the page it yields the hits of that page and the number found.
  datatype Engine = Engine(
    hits: (Index, string, nat, nat) -> (seq<Doc>, nat),
    meta: (Index, string) -> Response)

  // An empty or absent query asks the index for everything.
  function EngineQuery(r: Request): string {
    if QueryText(r) == "" then "*" else QueryText(r)
  }

  function PageOf(r: Request): nat {
    if r.page.Some? then r.page.value else 1
  }

  function PerPageOf(r: Request): nat {
    if r.perPage.Some? then r.perPage.value else 25
  }

  function OnPage(r: Request, page: nat, perPage: nat): Request {
    r.(page := Some(page), perPage := Some(perPage))
  }

  function Admitted(index: Index, f: Filters): Index {
    map id | id in index && IndexAdmits(f, index[id]) :: index[id]
  }

  // The rows of the given ids, in the ids' order; an id without a row is passed over.
  function GetByIds(t: Table, ids: seq<Id>): seq<(Id, Row)> {
    if ids == [] then []
    else (if ids[0] in t then [(ids[0], t[ids[0]])] else []) + GetByIds(t, ids[1..])
  }

  function DbIds(docs: seq<Doc>): (ids: seq<Id>)
    ensures |ids| == |docs|
    ensures forall i :: 0 <= i < |ids| ==> ids[i] == docs[i].dbId
  {
    if docs == [] then [] else [docs[0].dbId] + DbIds(docs[1..])
  }

  // What the index path answers now; None when the index rejects the filter.
  function Answer(t: Table, index: Index, engine: Engine, r: Request): Option<Response> {
    if ReadFilter(FilterText(r.filters)).None? then None
    else
      var docs := Admitted(index, r.filters);
      match r.scope
      case SearchScope =>
        var (hits, total) := engine.hits(docs, EngineQuery(r), PageOf(r), PerPageOf(r));
        Some(Page(GetByIds(t, DbIds(hits)), PageOf(r), PerPageOf(r), total))
      case MetaScope => Some(engine.meta(docs, EngineQuery(r)))
  }

  // The index is asked for everything when q is absent or empty, and for page 1 of 25 when the
  // request does not say; a search carries the page asked for and the number the index
  // found, and a meta request what the index says about the documents that pass the filter.
  lemma AnswerMeans(t: Table, index: Index, engine: Engine, r: Request)
    ensures var docs := Admitted(index, r.filters);
            var q := if r.q.Some? && r.q.value != "" then r.q.value else "*";
            var page, perPage := if r.page.Some? then r.page.value else 1, if r.perPage.Some? then r.perPage.value else 25;
            var hits := engine.hits(docs, q, page, perPage);
            && (ReadFilter(FilterText(r.filters)).None? ==> Answer(t, index, engine, r) == None)
            && (ReadFilter(FilterText(r.filters)).Some? && r.scope.MetaScope? ==>
                  Answer(t, index, engine, r) == Some(engine.meta(docs, q)))
            && (ReadFilter(FilterText(r.filters)).Some? && r.scope.SearchScope? ==>
                  && Answer(t, index, engine, r) == Some(Page(GetByIds(t, DbIds(hits.0)), page, perPage, hits.1)))
  {
    hide ReadFilter, FilterText, Admitted, GetByIds, DbIds;
  }

  // ---------- the fallback ----------

  // The WHERE conditions; `like` is the case-insensitive search for q in the product name.
  predicate Passes(like: (string, string) -> bool, r: Request, row: Row) {
    SqlAdmits(r.filters, row.values) && (QueryText(r) != "" ==> like(row.values.product, QueryText(r)))
  }

  // The rows that pass, in the order in which the database goes through the table.
  function FallbackRows(t: Table, order: seq<Id>, like: (string, string) -> bool, r: Request): seq<(Id, Row)> {
    if order == [] then []
    else
      (if order[0] in t && Passes(like, r, t[order[0]]) then [(order[0], t[order[0]])] else [])
      + FallbackRows(t, order[1..], like, r)
  }

  // The rows from `offset` on, at most `limit` of them.
  function Slice<T>(rows: seq<T>, offset: nat, limit: nat): seq<T> {
    if offset >= |rows| then [] else Take(rows[offset..], limit)
  }

  function PageSlice<T>(rows: seq<T>, page: nat, perPage: nat): seq<T>
    requires page >= 1
  {
    Slice(rows, (page - 1) * perPage, perPage)
  }

  // The database's promise for the statement's order: every row once, latest date first.
  ghost predicate InQueryOrder(t: Table, order: seq<Id>) {
    Distinct(order) && (forall id :: id in order <==> id in t) && NewestFirst(t, order)
  }

  ghost predicate NewestFirst(t: Table, order: seq<Id>) {
    forall i, j :: 0 <= i < j < |order| && order[i] in t && order[j] in t ==>
      NotAfter(t[order[j]].values.date, t[order[i]].values.date)
  }

  ghost predicate DatesDescend(rows: seq<(Id, Row)>) {
    forall i, j :: 0 <= i < j < |rows| ==> NotAfter(rows[j].1.values.date, rows[i].1.values.date)
  }

  // A row is found exactly when its id is gone through and it passes the conditions.
  lemma {:induction false} FallbackRowsExactly(t: Table, order: seq<Id>, like: (string, string) -> bool, r: Request)
    ensures forall p :: p in FallbackRows(t, order, like, r) <==>
              p.0 in order && p.0 in t && p.1 == t[p.0] && Passes(like, r, p.1)
  {
    hide Passes;
    if order != [] {
      assert order == [order[0]] + order[1..];
      FallbackRowsExactly(t, order[1..], like, r);
    }
  }

  lemma DatesDescendCons(first: (Id, Row), rest: seq<(Id, Row)>)
    requires DatesDescend(rest)
    requires forall p :: p in rest ==> NotAfter(p.1.values.date, first.1.values.date)
    ensures DatesDescend([first] + rest)
  {
    hide NotAfter;
    var all := [first] + rest;
    forall i, j | 0 <= i < j < |all|
      ensures NotAfter(all[j].1.values.date, all[i].1.values.date)
    {
      assert all[j] == rest[j - 1] && rest[j - 1] in rest;
      if i > 0 {
        assert all[i] == rest[i - 1];
      }
    }
  }

  lemma {:induction false} FallbackRowsDescend(t: Table, order: seq<Id>, like: (string, string) -> bool, r: Request)
    requires NewestFirst(t, order)
    ensures DatesDescend(FallbackRows(t, order, like, r))
  {
    hide Passes, NotAfter, DatesDescend;
    if order == [] {
      NoDates();
    } else {
      var first, others := order[0], order[1..];
      assert forall i :: 0 <= i < |others| ==> others[i] == order[i + 1];
      FallbackRowsDescend(t, others, like, r);
      var rest := FallbackRows(t, others, like, r);
      if first in t {
        FallbackRowsExactly(t, others, like, r);
        DatesDescendCons((first, t[first]), rest);
      }
      assert [] + rest == rest;
    }
  }

  lemma NoDates()
    ensures DatesDescend([])
  {
  }

  lemma {:induction false} FallbackRowsDistinct(t: Table, order: seq<Id>, like: (string, string) -> bool, r: Request)
    requires Distinct(order)
    ensures Distinct(FallbackRows(t, order, like, r))
  {
    hide Passes;
    if order != [] {
      assert forall i :: 0 <= i < |order| - 1 ==> order[1..][i] == order[i + 1];
      FallbackRowsDistinct(t, order[1..], like, r);
      FallbackRowsExactly(t, order[1..], like, r);
    }
  }

  ghost function PassingRows(t: Table, like: (string, string) -> bool, r: Request): set<(Id, Row)> {
    set id | id in t && SqlAdmits(r.filters, t[id].values)
             && (r.q.None? || r.q.value == "" || like(t[id].values.product, r.q.value)) :: (id, t[id])
  }

  // The fallback finds exactly the table's rows that pass, each once, the latest dates
  // first, and its total is their number.
  lemma FallbackFindsAll(t: Table, order: seq<Id>, like: (string, string) -> bool, r: Request)
    requires InQueryOrder(t, order)
    ensures var rows := FallbackRows(t, order, like, r);
            && (forall p :: p in rows <==> p in PassingRows(t, like, r))
            && Distinct(rows) && DatesDescend(rows)
            && |rows| == |PassingRows(t, like, r)|
  {
    hide SqlAdmits, DatesDescend;
    var rows := FallbackRows(t, order, like, r);
    FallbackRowsExactly(t, order, like, r);
    FallbackRowsDescend(t, order, like, r);
    FallbackRowsDistinct(t, order, like, r);
    DistinctLength(rows);
    assert (set p | p in rows) == PassingRows(t, like, r);
  }

  function Fallback(t: Table, order: seq<Id>, like: (string, string) -> bool, r: Request): Response {
    match r.scope
    case SearchScope =>
      var rows := FallbackRows(t, order, like, r);
      Page(if PageOf(r) >= 1 then PageSlice(rows, PageOf(r), PerPageOf(r)) else [], PageOf(r), PerPageOf(r), |rows|)
    case MetaScope => Meta(0, [], [])
  }

  // ---------- the endpoints ----------

  type ResponseCaches = Caches<Response>

  // Whether a Redis server answers the lookup of a request, and then its store.
  datatype Server = Server(looks: bool, keeps: bool)

  // One request against the caches: the new caches and the answer. Only what the index path
  // found is kept.
  function Ask(
    caches: ResponseCaches, config: Ttl.Config, key: CacheKey, now: int, server: Server,
    found: Option<Response>, fallback: Response): (ResponseCaches, Response)
  {
    var (looked, hit) := Look(caches, config, key, now, server.looks);
    match hit
    case Some(cached) => (looked, cached)
    case None =>
      match found
      case Some(response) => (Keep(looked, config, key, response, now, server.keeps), response)
      case None => (looked, fallback)
  }

  // The index path is open when the index is up and accepts the filter.
  function IndexPath(t: Table, index: Index, engine: Engine, r: Request, up: bool): Option<Response> {
    if up then Answer(t, index, engine, r) else None
  }

  // What the index answered is served again to the same key exactly until its ttl is over,
  // whatever the index would find by then.
  lemma RepeatIsHit(
    caches: ResponseCaches, config: Ttl.Config, key: CacheKey, now: int, server: Server, page: Response,
    fallback: Response, later: int, again: Server, found: Option<Response>)
    requires caches.shared.None? ==> Ttl.WellFormed(caches.Memory(key.scope), config)
    requires Look(caches, config, key, now, server.looks).1.None?
    requires if caches.shared.Some? then server.keeps && config.ttl > 0 else !config.Disabled()
    ensures var (kept, response) := Ask(caches, config, key, now, server, Some(page), fallback);
            && response == page
            && Ask(kept, config, key, later, again, found, fallback).1 ==
               if later < now + config.ttl && (caches.shared.Some? ==> again.looks) then page
               else if found.Some? then found.value else fallback
  {
    hide Keep;
    var looked := Look(caches, config, key, now, server.looks).0;
    if caches.shared.None? {
      Ttl.GetKeepsWellFormed(caches.Memory(key.scope), config, key, now);
    }
    KeptIsFound(looked, config, key, page, now, server.keeps, later, again.looks);
  }

  method SearchPricing(
    caches: PricingCaches<Response>, db: Database, index: SearchIndex, engine: Engine, strip: string -> string,
    r: Request, now: int, server: Server, up: bool, order: seq<Id>, like: (string, string) -> bool)
    returns (response: Response)
    requires caches.Valid() && InQueryOrder(db.table, order)
    modifies caches, caches.search, caches.meta
    ensures caches.Valid()
    ensures (caches.State(), response) ==
            Ask(old(caches.State()), caches.search.config, MakePricingCacheKey(r, strip), now, server,
                IndexPath(db.table, index.docs, engine, r, up), Fallback(db.table, order, like, r))
    ensures var hit := Look(old(caches.State()), caches.search.config, MakePricingCacheKey(r, strip), now, server.looks).1;
            if hit.Some? then response == hit.value
            else if up && ReadFilter(FilterText(r.filters)).Some? then
              Some(response) == Answer(db.table, index.docs, engine, r)
            else response == Fallback(db.table, order, like, r)
  {
    hide Look, Keep, Fallback, FilterText, ReadFilter, MakePricingCacheKey;
    var key := MakePricingCacheKey(r, strip);
    var cached := caches.GetCachedPricingResponse(key, now, server.looks);
    if cached.Some? {
      return cached.value;
    }
    var found := IndexPath(db.table, index.docs, engine, r, up);
    if found.Some? {
      response := found.value;
      caches.SetCachedPricingResponse(key, response, now, server.keeps);
      return;
    }
    response := Fallback(db.table, order, like, r);
  }

  method UpdatePricingRecord(
    caches: PricingCaches<Response>, db: Database, index: SearchIndex,
    id: Id, user: Id, fields: Edit, now: Instant, env: Env, cleared: bool)
    returns (r: Result<Row, Failure>)
    requires db.Clean() && caches.Valid()
    modifies db, index, caches, caches.search, caches.meta
    ensures db.Clean() && caches.Valid()
    ensures (WorldOf(db, index), r) == EditStep(old(WorldOf(db, index)), id, user, fields, now, env)
    ensures r.Err? && r.error != IndexDown ==> WorldOf(db, index) == old(WorldOf(db, index))
    ensures r == Err(NotFound) <==> id !in old(db.table)
    ensures r == Err(Conflict) <==>
              id in old(db.table) &&
              var v := Edited(old(db.table)[id].values, fields); v.cents >= 0 && OtherHas(old(db.table), id, v)
    ensures caches.State() == if r.Ok? then Cleared(old(caches.State()), cleared) else old(caches.State())
  {
    hide EditStep;
    ghost var requested: Values :| true;
    if id in db.table {
      requested := Edited(db.table[id].values, fields);
    }
    EditOutcome(WorldOf(db, index), id, user, fields, now, env, requested);
    r := UpdateRecord(db, index, id, user, fields, now, env);
    if r.Err? {
      // The session ends with the request.
      db.Rollback();
      return;
    }
    caches.ClearPricingSearchCaches(cleared);
  }

  // ---------- search soundness ----------

  // The engine returns only documents it was given.
  ghost predicate Selects(engine: Engine) {
    forall docs: Index, q: string, page: nat, perPage: nat, d: Doc ::
      d in engine.hits(docs, q, page, perPage).0 ==> d in docs.Values
  }

  // The rows of an answer are the current rows of the hits that are in the table, in order.
  lemma {:induction false} GetByIdsExactly(t: Table, ids: seq<Id>)
    ensures forall p :: p in GetByIds(t, ids) <==> p.0 in ids && p.0 in t && p.1 == t[p.0]
    ensures (forall id :: id in ids ==> id in t) ==>
              |GetByIds(t, ids)| == |ids| && forall i :: 0 <= i < |ids| ==> GetByIds(t, ids)[i] == (ids[i], t[ids[i]])
  {
    if ids != [] {
      GetByIdsExactly(t, ids[1..]);
      assert ids == [ids[0]] + ids[1..];
    }
  }

  lemma {:induction false} GetByIdsConcat(t: Table, a: seq<Id>, b: seq<Id>)
    ensures GetByIds(t, a + b) == GetByIds(t, a) + GetByIds(t, b)
  {
    if a == [] {
      assert a + b == b;
    } else {
      assert (a + b)[0] == a[0] && (a + b)[1..] == a[1..] + b;
      GetByIdsConcat(t, a[1..], b);
    }
  }

  // An id without a row disturbs nothing around it.
  lemma GetByIdsDropsMissing(t: Table, a: seq<Id>, b: seq<Id>, missing: Id)
    requires missing !in t
    ensures GetByIds(t, a + [missing] + b) == GetByIds(t, a + b) == GetByIds(t, a) + GetByIds(t, b)
  {
    GetByIdsConcat(t, a + [missing], b);
    GetByIdsConcat(t, a, [missing]);
    GetByIdsConcat(t, a, b);
    assert [missing][1..] == [];
  }

  // Whatever ranks it: a clean row is among the documents that the index lets through exactly
  // when its columns pass the filter, which is when the request wants them, as long as no
  // value of the request holds a double quote.
  lemma CleanRowsAdmitted(w: World, r: Request, id: Id)
    requires IndexInv(w) && id in w.table && id !in w.dirty
    ensures id in Admitted(w.index, r.filters) <==> IndexAdmits(r.filters, DocOf(id, w.table[id].values))
    ensures QuoteFreeRequest(r.filters) ==>
              (id in Admitted(w.index, r.filters) <==> Requested(r.filters, w.table[id].values))
  {
    hide IndexAdmits, Requested;
    assert Agrees(w, id);
    assert w.index[id] == DocOf(id, w.table[id].values);
    if QuoteFreeRequest(r.filters) {
      IndexAdmitsMeans(r.filters, id, w.table[id].values);
    }
  }

  // A row on the index path is the current row of the table under a hit's id, and unless it
  // is dirty its columns pass the filter, so that the request wants them, orphan documents
  // notwithstanding.
  lemma SearchIsSound(w: World, engine: Engine, r: Request, id: Id, row: Row)
    requires IndexInv(w) && Selects(engine) && r.scope.SearchScope?
    requires Answer(w.table, w.index, engine, r).Some?
    requires Answer(w.table, w.index, engine, r).value.Page?
    requires (id, row) in Answer(w.table, w.index, engine, r).value.rows
    ensures id in w.table && row == w.table[id]
    ensures id !in w.dirty ==> IndexAdmits(r.filters, DocOf(id, row.values))
    ensures id !in w.dirty && QuoteFreeRequest(r.filters) ==> Requested(r.filters, row.values)
  {
    hide IndexAdmits, Requested;
    var docs := Admitted(w.index, r.filters);
    var hits := engine.hits(docs, EngineQuery(r), PageOf(r), PerPageOf(r)).0;
    GetByIdsExactly(w.table, DbIds(hits));
    var i :| 0 <= i < |hits| && DbIds(hits)[i] == id;
    assert hits[i] in hits;
    var key :| key in docs && docs[key] == hits[i];
    assert key in w.index && w.index[key].dbId == key;
    if id !in w.dirty {
      CleanRowsAdmitted(w, r, id);
    }
  }

  // So it passes the SQL conditions too, unless a list holds nothing but empty values.
  lemma SearchIsSoundForSql(w: World, engine: Engine, r: Request, id: Id, row: Row)
    requires IndexInv(w) && Selects(engine) && r.scope.SearchScope?
    requires Answer(w.table, w.index, engine, r).Some?
    requires Answer(w.table, w.index, engine, r).value.Page?
    requires (id, row) in Answer(w.table, w.index, engine, r).value.rows
    ensures id !in w.dirty && QuoteFreeRequest(r.filters) && !AllEmpty(r.filters.storeIds) && !AllEmpty(r.filters.skus) ==>
              SqlAdmits(r.filters, row.values)
  {
    SearchIsSound(w, engine, r, id, row);
  }

  // What the endpoint returns on a miss: each row of the page is the current row under its
  // id. From the index, a clean row passes the filter as the index reads it, and is what a
  // request without quoted values wants; from the fallback, it passes the SQL conditions.
  lemma ResponseIsSound(
    w: World, caches: ResponseCaches, config: Ttl.Config, engine: Engine, strip: string -> string, r: Request,
    now: int, server: Server, up: bool, order: seq<Id>, like: (string, string) -> bool, id: Id, row: Row)
    requires IndexInv(w) && Selects(engine) && InQueryOrder(w.table, order) && r.scope.SearchScope?
    requires Look(caches, config, MakePricingCacheKey(r, strip), now, server.looks).1.None?
    requires var response := Ask(caches, config, MakePricingCacheKey(r, strip), now, server,
                                 IndexPath(w.table, w.index, engine, r, up), Fallback(w.table, order, like, r)).1;
             response.Page? && (id, row) in response.rows
    ensures id in w.table && row == w.table[id]
    ensures if up && ReadFilter(FilterText(r.filters)).Some? then
              id !in w.dirty ==>
                && IndexAdmits(r.filters, DocOf(id, row.values))
                && (QuoteFreeRequest(r.filters) ==> Requested(r.filters, row.values))
            else SqlAdmits(r.filters, row.values) && (r.q.None? || r.q.value == "" || like(row.values.product, r.q.value))
  {
    hide Look, Keep, FilterText, ReadFilter, MakePricingCacheKey, IndexAdmits, Requested, SqlAdmits, IndexInv, FallbackRows,
         InQueryOrder, Slice;
    if up && ReadFilter(FilterText(r.filters)).Some? {
      SearchIsSound(w, engine, r, id, row);
    } else {
      SliceMembers(FallbackRows(w.table, order, like, r), (PageOf(r) - 1) * PerPageOf(r), PerPageOf(r), (id, row));
      FallbackFindsAll(w.table, order, like, r);
    }
  }

  lemma SliceMembers<T>(rows: seq<T>, offset: int, limit: nat, x: T)
    ensures offset >= 0 && x in Slice(rows, offset, limit) ==> x in rows
  {
  }
}
