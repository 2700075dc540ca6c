// Which writes change the answers to a request: edits, chunks, uploads and retention.
module AnswerChanges {
  import opened Prelude
  import opened Records
  import opened IndexClient
  import opened IngestProtocol
  import opened SearchFilter
  import opened SearchCache
  import opened PricingApi

  // ---------- one request before and after a write ----------

  ghost predicate SameRow(t: Table, t': Table, id: Id) {
    (id in t <==> id in t') && (id in t ==> t[id] == t'[id])
  }

  lemma {:induction false} SameRowsSamePage(t: Table, t': Table, ids: seq<Id>)
    requires forall id :: id in ids ==> SameRow(t, t', id)
    ensures GetByIds(t', ids) == GetByIds(t, ids)
  {
    if ids != [] {
      assert SameRow(t, t', ids[0]);
      SameRowsSamePage(t, t', ids[1..]);
    }
  }

  lemma PageRowsStayExactlyWhen(t: Table, t': Table, ids: seq<Id>)
    ensures GetByIds(t', ids) == GetByIds(t, ids) <==> forall id :: id in ids ==> SameRow(t, t', id)
  {
    if GetByIds(t', ids) == GetByIds(t, ids) {
      GetByIdsExactly(t, ids);
      GetByIdsExactly(t', ids);
      forall id | id in ids
        ensures SameRow(t, t', id)
      {
        assert id in t ==> (id, t[id]) in GetByIds(t, ids);
        assert id in t' ==> (id, t'[id]) in GetByIds(t', ids);
      }
    } else if forall id :: id in ids ==> SameRow(t, t', id) {
      SameRowsSamePage(t, t', ids);
    }
  }

  function Hits(index: Index, engine: Engine, r: Request): seq<Doc> {
    engine.hits(Admitted(index, r.filters), EngineQuery(r), PageOf(r), PerPageOf(r)).0
  }

  // Writes that leave the admitted documents alone: a page stays right exactly when the rows
  // of its hits do, those that are missing included.
  lemma PageStaysRightExactlyWhen(t: Table, index: Index, t': Table, index': Index, engine: Engine, r: Request)
    requires r.scope.SearchScope? && ReadFilter(FilterText(r.filters)).Some?
    requires Admitted(index', r.filters) == Admitted(index, r.filters)
    ensures Answer(t', index', engine, r) == Answer(t, index, engine, r) <==>
            forall d :: d in Hits(index, engine, r) ==> SameRow(t, t', d.dbId)
  {
    hide ReadFilter, FilterText, Admitted, SameRow, GetByIds;
    var hits := Hits(index, engine, r);
    PageRowsStayExactlyWhen(t, t', DbIds(hits));
    if forall d :: d in hits ==> SameRow(t, t', d.dbId) {
      forall id | id in DbIds(hits)
        ensures SameRow(t, t', id)
      {
        var i :| 0 <= i < |hits| && DbIds(hits)[i] == id;
        assert hits[i] in hits;
      }
    } else {
      var d :| d in hits && !SameRow(t, t', d.dbId);
      var i :| 0 <= i < |hits| && hits[i] == d;
      assert DbIds(hits)[i] in DbIds(hits);
    }
  }

  // The document under the id, and for searches the row it leads to, play the same part in
  // the answer before and after.
  ghost predicate Unmoved(w: World, w': World, r: Request, id: Id) {
    var before, after := Admitted(w.index, r.filters), Admitted(w'.index, r.filters);
    || (id !in before && id !in after)
    || (&& id in before && id in after && before[id] == after[id]
        && (r.scope.SearchScope? ==> SameRow(w.table, w'.table, before[id].dbId)))
  }

  lemma UnmovedAdmits(w: World, w': World, r: Request)
    requires forall id :: Unmoved(w, w', r, id)
    ensures Admitted(w'.index, r.filters) == Admitted(w.index, r.filters)
  {
    hide Admitted, SameRow;
    var before, after := Admitted(w.index, r.filters), Admitted(w'.index, r.filters);
    forall id: Id
      ensures id in before <==> id in after
      ensures id in before ==> before[id] == after[id]
    {
      assert Unmoved(w, w', r, id);
    }
  }

  lemma UnmovedKeepsAnswer(w: World, w': World, engine: Engine, r: Request)
    requires Selects(engine) && forall id :: Unmoved(w, w', r, id)
    ensures Answer(w'.table, w'.index, engine, r) == Answer(w.table, w.index, engine, r)
  {
    hide ReadFilter, FilterText, Admitted, SameRow, GetByIds;
    UnmovedAdmits(w, w', r);
    if r.scope.SearchScope? && ReadFilter(FilterText(r.filters)).Some? {
      PageStaysRightExactlyWhen(w.table, w.index, w'.table, w'.index, engine, r);
      forall d | d in Hits(w.index, engine, r)
        ensures SameRow(w.table, w'.table, d.dbId)
      {
        var docs := Admitted(w.index, r.filters);
        assert d in docs.Values;
        var id :| id in docs && docs[id] == d;
        assert Unmoved(w, w', r, id);
      }
    }
  }

  // An engine that counts whether it sees exactly these documents.
  ghost function Counting(docs: Index): Engine {
    Engine((seen: Index, q: string, page: nat, perPage: nat) => ([], if seen == docs then 1 else 0),
           (seen: Index, q: string) => Meta(if seen == docs then 1 else 0, [], []))
  }

  // An engine that, over exactly these documents, finds the one under the id.
  ghost function Finding(docs: Index, id: Id): Engine
    requires id in docs
  {
    Engine((seen: Index, q: string, page: nat, perPage: nat) => (if seen == docs then [docs[id]] else [], 0),
           (seen: Index, q: string) => Meta(0, [], []))
  }

  // Two states of table and index answer a request alike, whatever the ranking, exactly when
  // every id is unmoved.
  lemma AnswersStayExactlyWhen(w: World, w': World, r: Request)
    ensures (forall engine: Engine :: Selects(engine) ==>
               Answer(w'.table, w'.index, engine, r) == Answer(w.table, w.index, engine, r))
            <==> forall id :: Unmoved(w, w', r, id)
  {
    hide ReadFilter, FilterText, Admitted, SameRow, GetByIds, Unmoved;
    if id :| !Unmoved(w, w', r, id) {
      MovedIsReadable(w, w', r, id);
      var engine := MovedShows(w, w', r, id);
      assert Selects(engine);
    } else {
      forall engine: Engine | Selects(engine)
        ensures Answer(w'.table, w'.index, engine, r) == Answer(w.table, w.index, engine, r)
      {
        UnmovedKeepsAnswer(w, w', engine, r);
      }
    }
  }

  // Nothing passes a filter that the index rejects.
  lemma MovedIsReadable(w: World, w': World, r: Request, id: Id)
    requires !Unmoved(w, w', r, id)
    ensures ReadFilter(FilterText(r.filters)).Some?
  {
    hide ReadFilter, FilterText;
  }

  // A moved id shows under some ranking.
  lemma MovedShows(w: World, w': World, r: Request, id: Id) returns (engine: Engine)
    requires ReadFilter(FilterText(r.filters)).Some? && !Unmoved(w, w', r, id)
    ensures Selects(engine) && Answer(w'.table, w'.index, engine, r) != Answer(w.table, w.index, engine, r)
  {
    hide ReadFilter, FilterText, Admitted, SameRow, GetByIds;
    var before, after := Admitted(w.index, r.filters), Admitted(w'.index, r.filters);
    if before != after {
      engine := Counting(before);
    } else {
      engine := Finding(before, id);
      assert before[id] in before.Values;
      PageStaysRightExactlyWhen(w.table, w.index, w'.table, w'.index, engine, r);
      assert before[id] in Hits(w.index, engine, r);
    }
  }

  // ---------- writes to given ids ----------

  // The answers to the request are the same in both states, whatever the ranking.
  ghost predicate SameAnswers(w: World, w': World, r: Request) {
    forall engine: Engine :: Selects(engine) ==>
      Answer(w'.table, w'.index, engine, r) == Answer(w.table, w.index, engine, r)
  }

  // The document passes the request's filter.
  predicate Shows(r: Request, doc: Option<Doc>) {
    doc.Some? && IndexAdmits(r.filters, doc.value)
  }

  // The request does not see one document replaced with the other: neither passes its
  // filter, or they are the same and, for a search, the row stays as it was.
  predicate Unseen(r: Request, before: Option<Doc>, after: Option<Doc>, rowStays: bool) {
    (!Shows(r, before) && !Shows(r, after)) || (before == after && (r.scope.SearchScope? ==> rowStays))
  }

  ghost predicate OwnIds(index: Index) {
    forall id :: id in index ==> index[id].dbId == id
  }

  lemma UnmovedMeans(w: World, w': World, r: Request, id: Id)
    requires OwnIds(w.index)
    ensures Unmoved(w, w', r, id) <==> Unseen(r, At(w.index, id), At(w'.index, id), SameRow(w.table, w'.table, id))
  {
    hide IndexAdmits, SameRow;
  }

  // A write that leaves rows and documents outside `ids` alone.
  ghost predicate Confined(w: World, w': World, ids: set<Id>) {
    forall id :: id !in ids ==> At(w'.index, id) == At(w.index, id) && SameRow(w.table, w'.table, id)
  }

  lemma SameAnswersExactlyWhen(w: World, w': World, r: Request, ids: set<Id>)
    requires OwnIds(w.index) && Confined(w, w', ids)
    ensures SameAnswers(w, w', r) <==>
            forall id :: id in ids ==> Unseen(r, At(w.index, id), At(w'.index, id), SameRow(w.table, w'.table, id))
  {
    hide Unmoved, Unseen, SameRow, Answer;
    AnswersStayExactlyWhen(w, w', r);
    forall id
      ensures Unmoved(w, w', r, id) <==> Unseen(r, At(w.index, id), At(w'.index, id), SameRow(w.table, w'.table, id))
      ensures id !in ids ==> Unmoved(w, w', r, id)
    {
      UnmovedMeans(w, w', r, id);
      UnseenIfSame(r, At(w.index, id));
    }
  }

  lemma UnseenIfSame(r: Request, doc: Option<Doc>)
    ensures Unseen(r, doc, doc, true)
  {
  }

  // ---------- edits ----------

  // An edit, as the caller and the index's reply to it determine: answers change unless the
  // edit is not committed, or the request does not see the document that the update leaves.
  lemma EditKeepsAnswersExactlyWhen(w: World, id: Id, user: Id, e: Edit, now: Instant, env: Env, r: Request)
    requires IndexInv(w)
    ensures SameAnswers(w, EditStep(w, id, user, e, now, env).0, r) <==>
            || EditFailure(w.table, id, e, env.dbOk).Some?
            || var doc := At(w.index, id);
               var applied := doc.Some? && Applies(ReplyAt(env.replies, 0), id);
               Unseen(r, doc, if applied then Some(DocOf(id, Edited(w.table[id].values, e))) else doc,
                      EditedRow(w.table[id], user, e, now) == w.table[id])
  {
    hide Unseen, Answer, ReplyAt, IndexAdmits, SameAnswers;
    var w' := EditStep(w, id, user, e, now, env).0;
    assert Confined(w, w', {id});
    SameAnswersExactlyWhen(w, w', r, {id});
    if EditFailure(w.table, id, e, env.dbOk).Some? {
      UnseenIfSame(r, At(w.index, id));
    }
  }

  // ---------- retention ----------

  // Retention takes rows away and tells neither the index nor the caches: the answers to a
  // search change exactly when it deletes a row whose document passes the filter.
  lemma RetentionKeepsAnswersExactlyWhen(w: World, cutoff: int, dbOk: bool, r: Request)
    requires IndexInv(w)
    ensures SameAnswers(w, RetentionStep(w, cutoff, dbOk).0, r) <==>
            || !dbOk || Expired(w.table, cutoff) * Audited(w.audits) != {}
            || r.scope.MetaScope?
            || forall id :: id in Expired(w.table, cutoff) ==> id !in Admitted(w.index, r.filters)
  {
    hide Unseen, Answer, IndexAdmits, SameAnswers;
    var w', expired := RetentionStep(w, cutoff, dbOk).0, Expired(w.table, cutoff);
    assert Confined(w, w', expired);
    SameAnswersExactlyWhen(w, w', r, expired);
    forall id | id in expired
      ensures var rowStays := SameRow(w.table, w'.table, id);
              Unseen(r, At(w.index, id), At(w'.index, id), rowStays) <==>
              id !in Admitted(w.index, r.filters) || r.scope.MetaScope? || rowStays
    {
      UnseenKept(r, At(w.index, id), SameRow(w.table, w'.table, id));
    }
  }

  lemma UnseenKept(r: Request, doc: Option<Doc>, rowStays: bool)
    ensures Unseen(r, doc, doc, rowStays) <==> !Shows(r, doc) || r.scope.MetaScope? || rowStays
  {
  }

  // ---------- chunks ----------

  // The statement would write the row that is there.
  predicate Rewrites(t: Table, p: Proposed, now: Instant)
    requires UniqueKeys(t)
  {
    HasKey(t, KeyOf(p.values)) &&
    var row := t[IdOf(t, KeyOf(p.values))];
    row == Row(p.values, p.prov, now, row.createdAt, now)
  }

  // What a committed statement leaves for one of its rows.
  lemma WrittenRow(w: World, ps: seq<Proposed>, now: Instant, env: Env, i: nat)
    requires IndexInv(w) && BulkUpsert(w.table, ps, now, env.dbOk).Ok? && i < |ps|
    ensures var w', id, p := ChunkStep(w, ps, now, env).0, TargetId(w.table, ps[i]), ps[i];
            && id in w'.table && w'.table[id].values == p.values && w'.table[id].prov == p.prov
            && (SameRow(w.table, w'.table, id) <==> Rewrites(w.table, p, now))
            && At(w'.index, id) == if Sends(env.replies, id) then Some(DocOf(id, p.values)) else At(w.index, id)
  {
    hide Upsert, IndexAfter, Sends, Agrees;
    var (t, records) := BulkUpsert(w.table, ps, now, env.dbOk).value;
    BulkUpsertMeans(w.table, ps, now, env.dbOk);
    UpsertTargets(w.table, ps, now, {}, i);
    assert StoredAs(t, ps[i], records[i]) && records[i] in records;
    var d := DocOf(records[i].id, records[i].values);
    assert DocsOf(records)[i] == d && d in DocsOf(records);
    SendsWrites(w.index, DocsOf(records), env.replies, d);
  }

  ghost function TargetIds(t: Table, ps: seq<Proposed>): set<Id>
    requires UniqueKeys(t)
  {
    set p | p in ps :: TargetId(t, p)
  }

  lemma RecordsAreTargets(t: Table, ps: seq<Proposed>, now: Instant, dbOk: bool)
    requires UniqueKeys(t) && BulkUpsert(t, ps, now, dbOk).Ok?
    ensures CanonicalIds(BulkUpsert(t, ps, now, dbOk).value.1) <= TargetIds(t, ps)
  {
    hide Upsert, TargetId, UniqueKeys, Kept, StoredAs;
    var records := BulkUpsert(t, ps, now, dbOk).value.1;
    BulkUpsertMeans(t, ps, now, dbOk);
    forall id | id in CanonicalIds(records)
      ensures id in TargetIds(t, ps)
    {
      var i := RecordFor(records, id);
      UpsertTargets(t, ps, now, {}, i);
      assert ps[i] in ps;
    }
  }

  lemma ChunkIsConfined(w: World, ps: seq<Proposed>, now: Instant, env: Env)
    requires IndexInv(w)
    ensures Confined(w, ChunkStep(w, ps, now, env).0, TargetIds(w.table, ps))
  {
    hide BulkUpsert, IndexAfter, Agrees, TargetIds, CanonicalIds;
    if BulkUpsert(w.table, ps, now, env.dbOk).Ok? {
      var (t, records) := BulkUpsert(w.table, ps, now, env.dbOk).value;
      BulkUpsertMeans(w.table, ps, now, env.dbOk);
      IndexAfterMeans(w.index, DocsOf(records), env.replies);
      DocIds(records);
      RecordsAreTargets(w.table, ps, now, env.dbOk);
    }
  }

  // A chunk, as its rows, the table and the index's replies determine: answers change unless
  // the statement is not committed, or the request sees none of the documents that change.
  lemma ChunkKeepsAnswersExactlyWhen(w: World, ps: seq<Proposed>, now: Instant, env: Env, r: Request)
    requires IndexInv(w)
    ensures SameAnswers(w, ChunkStep(w, ps, now, env).0, r) <==>
            || BulkUpsert(w.table, ps, now, env.dbOk).Err?
            || forall p :: p in ps ==>
                 var id := TargetId(w.table, p);
                 var doc := At(w.index, id);
                 Unseen(r, doc, if Sends(env.replies, id) then Some(DocOf(id, p.values)) else doc, Rewrites(w.table, p, now))
  {
    hide Unseen, Answer, IndexAdmits, SameAnswers, BulkUpsert, ChunkStep, Sends, Rewrites, SameRow, Agrees;
    var w' := ChunkStep(w, ps, now, env).0;
    ChunkIsConfined(w, ps, now, env);
    SameAnswersExactlyWhen(w, w', r, TargetIds(w.table, ps));
    if BulkUpsert(w.table, ps, now, env.dbOk).Ok? {
      forall p | p in ps
        ensures var id := TargetId(w.table, p);
                var doc := At(w.index, id);
                && SameRow(w.table, w'.table, id) == Rewrites(w.table, p, now)
                && At(w'.index, id) == if Sends(env.replies, id) then Some(DocOf(id, p.values)) else doc
      {
        var i :| 0 <= i < |ps| && ps[i] == p;
        WrittenRow(w, ps, now, env, i);
      }
    } else {
      RefusedChunk(w, ps, now, env, r);
    }
  }

  lemma RefusedChunk(w: World, ps: seq<Proposed>, now: Instant, env: Env, r: Request)
    requires UniqueKeys(w.table) && BulkUpsert(w.table, ps, now, env.dbOk).Err?
    ensures ChunkStep(w, ps, now, env).0 == w && SameAnswers(w, w, r)
  {
  }
}
