// Six runs after which a cache hit differs from what the index path answers. A write that does
// not end in a clear leaves the caches as they are: a retention pass, which never clears, and
// an edit or an upload that committed and does not return, whether its index step failed or a
// later chunk did not parse. And a write that clears them may miss a Redis server, or be
// overtaken by a query that stores what it computed before.
module StalePages {
  import opened Prelude
  import opened Calendar
  import opened Records
  import opened IndexClient
  import opened IngestProtocol
  import opened SearchFilter
  import opened SearchCache
  import opened TableContent
  import opened Upload
  import opened UploadResults
  import opened PricingApi
  import opened CacheFreshness
  import Ttl = TtlCache

  const CONFIG := Ttl.Config(10, 60)

  // One row, indexed.
  const LISTED := Values("DE", "s", "k", "p", 100, "EUR", true, Date(2024, 1, 1))
  const START_ROW := Row(LISTED, Provenance(None, None, None, Source.Ingest, None), 0, 0, 0)
  const START := World(map[1 := START_ROW], [], map[1 := DocOf(1, LISTED)], {}, {1}, {1}, [])

  lemma StartSatisfiesInv()
    ensures Inv(START)
  {
  }

  // A ranking that finds document 1 if it passes the filter.
  ghost function One(): Engine {
    Engine((docs: Index, q: string, page: nat, perPage: nat) => if 1 in docs then ([docs[1]], 1) else ([], 0),
           (docs: Index, q: string) => Meta(|docs|, [], []))
  }

  // A first page, of one country or of all.
  function FirstPage(country: Option<string>): Request {
    Request(SearchScope, None, Filters(country, None, None, None, None), Some(1), Some(25))
  }

  lemma FirstPageReads(country: Option<string>)
    requires country.Some? ==> NoQuote(country.value)
    ensures ReadFilter(FilterText(FirstPage(country).filters)).Some?
    ensures forall id: Id, v: Values ::
              IndexAdmits(FirstPage(country).filters, DocOf(id, v)) <==>
              country.None? || country.value == "" || v.country == country.value
  {
    hide ReadFilter, FilterText, IndexAdmits;
    var f := FirstPage(country).filters;
    FilterTextReadsBack(f);
    forall id: Id, v: Values
      ensures IndexAdmits(f, DocOf(id, v)) <==> Requested(f, v)
    {
      IndexAdmitsMeans(f, id, v);
    }
  }

  lemma AnswerIs(t: Table, index: Index, r: Request)
    requires r.scope.SearchScope? && ReadFilter(FilterText(r.filters)).Some?
    ensures var docs := Admitted(index, r.filters);
            Answer(t, index, One(), r) ==
            Some(if 1 in docs then Page(GetByIds(t, [docs[1].dbId]), PageOf(r), PerPageOf(r), 1)
                 else Page([], PageOf(r), PerPageOf(r), 0))
  {
    hide ReadFilter, FilterText, Admitted;
    var docs := Admitted(index, r.filters);
    if 1 in docs {
      assert DbIds([docs[1]]) == [docs[1].dbId];
    }
  }

  lemma RowAt(t: Table, id: Id)
    requires id in t
    ensures GetByIds(t, [id]) == [(id, t[id])]
  {
    assert [id][1..] == [];
  }

  // Asking for the page, uninterrupted.
  function AskedAlone(r: Request): seq<Op> {
    [Begin(r, 0, true, true), Finish(0, 0, true)]
  }

  // The site after the steps, from empty caches in memory or on a Redis server.
  ghost function After(redis: bool, strip: string -> string, ops: seq<Op>): Site {
    SiteRun(Quiet(START, redis), CONFIG, One(), strip, ops)
  }

  ghost function Hit(s: Site, strip: string -> string, r: Request): Option<Response> {
    Look(s.caches, CONFIG, MakePricingCacheKey(r, strip), 1, true).1
  }

  // A hit that differs from what the index path answers.
  ghost predicate Stale(s: Site, strip: string -> string, r: Request) {
    Hit(s, strip, r).Some? && Hit(s, strip, r) != Answer(s.w.table, s.w.index, One(), r)
  }

  lemma AskedIsKept(redis: bool, strip: string -> string, r: Request)
    requires r.scope.SearchScope? && Answer(START.table, START.index, One(), r).Some?
    ensures var page := Answer(START.table, START.index, One(), r).value;
            After(redis, strip, AskedAlone(r)) ==
            Site(START, Keep(NoEntries(redis), CONFIG, MakePricingCacheKey(r, strip), page, 0, true), [])
  {
    hide Answer, MakePricingCacheKey, SiteRun;
    UninterruptedIsAsk(Quiet(START, redis), CONFIG, One(), strip, r, 0, Server(true, true), true, Meta(0, [], []));
    NothingFound(redis, MakePricingCacheKey(r, strip));
  }

  lemma NothingFound(redis: bool, key: CacheKey)
    ensures Look<Response>(NoEntries(redis), CONFIG, key, 0, true) == (NoEntries(redis), None)
  {
  }

  // The page stays a hit for the next minute through writes that do not clear the caches, or
  // clear them without reaching a Redis server.
  lemma AskedBefore(redis: bool, strip: string -> string, r: Request, es: seq<Event>, clears: bool)
    requires r.scope.SearchScope? && Answer(START.table, START.index, One(), r).Some? && (clears ==> redis)
    ensures var s := After(redis, strip, AskedAlone(r) + (Writes(es) + if clears then [Clear(false)] else []));
            s.w == Run(START, es) && Hit(s, strip, r) == Answer(START.table, START.index, One(), r)
  {
    hide Answer, MakePricingCacheKey, SiteRun, Run;
    var key, page := MakePricingCacheKey(r, strip), Answer(START.table, START.index, One(), r).value;
    AskedIsKept(redis, strip, r);
    SiteRunConcat(Quiet(START, redis), CONFIG, One(), strip, AskedAlone(r),
                  Writes(es) + if clears then [Clear(false)] else []);
    WritesThenClear(After(redis, strip, AskedAlone(r)), CONFIG, One(), strip, es, clears, false);
    KeptIsFound(NoEntries(redis), CONFIG, key, page, 0, true, 1, true);
  }

  // A query that is under way during the writes stores the page after their clear.
  lemma AskedAcross(redis: bool, strip: string -> string, r: Request, es: seq<Event>)
    requires r.scope.SearchScope? && Answer(START.table, START.index, One(), r).Some?
    ensures var s := After(redis, strip, [Begin(r, 0, true, true)] + (Writes(es) + [Clear(true)]) + [Finish(0, 0, true)]);
            s.w == Run(START, es) && Hit(s, strip, r) == Answer(START.table, START.index, One(), r)
  {
    hide Answer, MakePricingCacheKey, SiteRun, Run;
    var start, begin, finish := Quiet(START, redis), [Begin(r, 0, true, true)], [Finish(0, 0, true)];
    var key, page := MakePricingCacheKey(r, strip), Answer(START.table, START.index, One(), r).value;
    NothingFound(redis, key);
    OneStep(start, CONFIG, One(), strip, begin[0]);
    SiteRunConcat(start, CONFIG, One(), strip, begin, Writes(es) + [Clear(true)]);
    var begun := After(redis, strip, begin);
    assert begun == Site(START, NoEntries(redis), [Pending(r, page)]);
    WritesThenClear(begun, CONFIG, One(), strip, es, true, true);
    SiteRunConcat(start, CONFIG, One(), strip, begin + (Writes(es) + [Clear(true)]), finish);
    OneStep(Site(Run(START, es), NoEntries(redis), [Pending(r, page)]), CONFIG, One(), strip, finish[0]);
    KeptIsFound(NoEntries(redis), CONFIG, key, page, 0, true, 1, true);
  }

  // ---------- retention ----------

  // A pass that finds the row expired, and succeeds.
  const PASS := Retire(1000000, true)

  lemma PassOutcome()
    ensures RetentionStep(START, 1000000, true).1 == Ok(1)
    ensures Run(START, [PASS]) == START.(table := map[])
  {
    OrdinalBound(LISTED.date);
    assert Expired(START.table, 1000000) == {1};
    assert [PASS][1..] == [];
    assert START.table - {1} == map[];
  }

  lemma OrdinalBound(d: Date)
    requires d == Date(2024, 1, 1)
    ensures Ordinal(d) < 1000000
  {
  }

  // Nothing fails, and the cached page lists a row that is gone.
  lemma RetentionLeavesStalePage(redis: bool, strip: string -> string)
    ensures var r, s := FirstPage(None), After(redis, strip, AskedAlone(FirstPage(None)) + Writes([PASS]));
            && Stale(s, strip, r)
            && Hit(s, strip, r) == Some(Page([(1, START_ROW)], 1, 25, 1))
            && Answer(s.w.table, s.w.index, One(), r) == Some(Page([], 1, 25, 1))
  {
    hide MakePricingCacheKey, SiteRun, Run, Answer, GetByIds;
    PassOutcome();
    AllRowsPage(START);
    AllRowsPage(START.(table := map[]));
    RowAt(START.table, 1);
    RowGone(1);
    AskedBefore(redis, strip, FirstPage(None), [PASS], false);
    assert Writes([PASS]) + [] == Writes([PASS]);
  }

  lemma RowGone(id: Id)
    ensures GetByIds(map[], [id]) == []
  {
    assert [id][1..] == [];
  }

  // The first page of all rows over an index with one document.
  lemma AllRowsPage(w: World)
    requires 1 in w.index && w.index[1].dbId == 1
    ensures Answer(w.table, w.index, One(), FirstPage(None)) == Some(Page(GetByIds(w.table, [1]), 1, 25, 1))
  {
    hide ReadFilter, FilterText, IndexAdmits, Answer, GetByIds;
    var r := FirstPage(None);
    FirstPageReads(None);
    EveryDocumentPasses(r.filters, w.index);
    AnswerIs(w.table, w.index, r);
  }

  // ---------- edits ----------

  // The edit moves the row to another country.
  const MOVE := Edit(Some("US"), None, None, None, None, None, None, None, None)

  function Moving(reply: Reply): Event {
    Amend(1, 7, MOVE, 1, Env(true, [reply]))
  }

  lemma MoveOutcome(reply: Reply)
    requires Applies(reply, 1)
    ensures var w' := Run(START, [Moving(reply)]);
            && 1 in w'.table && w'.index == map[1 := DocOf(1, LISTED.(country := "US"))]
    ensures EditStep(START, 1, 7, MOVE, 1, Env(true, [reply])).1.Ok? <==> reply.Accepted?
  {
    assert EditFailure(START.table, 1, MOVE, true).None?;
    assert [Moving(reply)][1..] == [];
    assert Run(START, [Moving(reply)]) == Step(START, Moving(reply));
  }

  // A page of the new country, stored while it was empty, does not list the row before the
  // edit nor after it.
  ghost predicate LacksTheRow(s: Site, strip: string -> string) {
    var r := FirstPage(Some("US"));
    && Stale(s, strip, r)
    && Hit(s, strip, r) == Some(Page([], 1, 25, 0))
    && 1 in s.w.table && Answer(s.w.table, s.w.index, One(), r) == Some(Page([(1, s.w.table[1])], 1, 25, 1))
  }

  lemma MoveLacksTheRow(s: Site, strip: string -> string, reply: Reply)
    requires Applies(reply, 1) && s.w == Run(START, [Moving(reply)])
    requires Hit(s, strip, FirstPage(Some("US"))) == Answer(START.table, START.index, One(), FirstPage(Some("US")))
    ensures LacksTheRow(s, strip)
  {
    hide MakePricingCacheKey, Run, Answer, Hit;
    MoveOutcome(reply);
    CountryPage(START.table, LISTED);
    CountryPage(s.w.table, LISTED.(country := "US"));
  }

  lemma CountryPageAnswered()
    ensures Answer(START.table, START.index, One(), FirstPage(Some("US"))).Some?
  {
    hide Answer;
    CountryPage(START.table, LISTED);
  }

  // The index applies the update and then raises: the request fails and clears nothing.
  lemma LostEditLeavesStalePage(redis: bool, strip: string -> string)
    ensures EditStep(START, 1, 7, MOVE, 1, Env(true, [Broken({1})])).1 == Err(IndexDown)
    ensures LacksTheRow(After(redis, strip, AskedAlone(FirstPage(Some("US"))) + Writes([Moving(Broken({1}))])), strip)
  {
    hide After, Hit, LacksTheRow, Run, Answer;
    MoveOutcome(Broken({1}));
    CountryPageAnswered();
    AskedBefore(redis, strip, FirstPage(Some("US")), [Moving(Broken({1}))], false);
    var es := Writes([Moving(Broken({1}))]);
    assert es + [] == es;
    MoveLacksTheRow(After(redis, strip, AskedAlone(FirstPage(Some("US"))) + es), strip, Broken({1}));
  }

  // The request returns, but its delete does not reach the Redis server.
  lemma UnclearedEditLeavesStalePage(strip: string -> string)
    ensures var ops := EditOps(START, 1, 7, MOVE, 1, Env(true, [Accepted]), false);
            LacksTheRow(After(true, strip, AskedAlone(FirstPage(Some("US"))) + ops), strip)
  {
    hide After, Hit, LacksTheRow, Run, Answer, EditStep;
    MoveOutcome(Accepted);
    CountryPageAnswered();
    AskedBefore(true, strip, FirstPage(Some("US")), [Moving(Accepted)], true);
    var ops := EditOps(START, 1, 7, MOVE, 1, Env(true, [Accepted]), false);
    MoveLacksTheRow(After(true, strip, AskedAlone(FirstPage(Some("US"))) + ops), strip, Accepted);
  }

  // The request returns and clears the caches, and a query under way stores its page then.
  lemma OvertakenQueryLeavesStalePage(redis: bool, strip: string -> string)
    ensures var r, ops := FirstPage(Some("US")), EditOps(START, 1, 7, MOVE, 1, Env(true, [Accepted]), true);
            LacksTheRow(After(redis, strip, [Begin(r, 0, true, true)] + ops + [Finish(0, 0, true)]), strip)
  {
    hide After, Hit, LacksTheRow, Run, Answer, EditStep;
    MoveOutcome(Accepted);
    CountryPageAnswered();
    var r, ops := FirstPage(Some("US")), EditOps(START, 1, 7, MOVE, 1, Env(true, [Accepted]), true);
    AskedAcross(redis, strip, r, [Moving(Accepted)]);
    MoveLacksTheRow(After(redis, strip, [Begin(r, 0, true, true)] + ops + [Finish(0, 0, true)]), strip, Accepted);
  }

  // The first page of the new country over an index that holds one document.
  lemma CountryPage(t: Table, v: Values)
    requires 1 in t
    ensures Answer(t, map[1 := DocOf(1, v)], One(), FirstPage(Some("US"))) ==
            Some(if v.country == "US" then Page([(1, t[1])], 1, 25, 1) else Page([], 1, 25, 0))
  {
    hide ReadFilter, FilterText, IndexAdmits, Answer, GetByIds;
    var f, index := FirstPage(Some("US")).filters, map[1 := DocOf(1, v)];
    FirstPageReads(Some("US"));
    assert 1 in Admitted(index, f) <==> v.country == "US";
    AnswerIs(t, index, FirstPage(Some("US")));
    RowAt(t, 1);
  }

  // ---------- uploads ----------

  // The first row of the file sets another price for the row.
  const REPRICED := Good(CsvRecord("s", "k", "p", 250, Date(2024, 1, 1)))

  function RepriceJob(file: seq<Line>, replies: seq<Reply>): Job {
    Job(REQUIRED_CSV_COLUMNS, file, 1, "DE", "EUR", 3, None, n => 5, n => 1, n => Env(true, replies))
  }

  // Its chunk commits, whatever the index replies.
  lemma RepricedStored(p: Proposed, replies: seq<Reply>)
    requires p.values == LISTED.(cents := 250) && p.id == 5
    ensures var (w', r) := ChunkStep(START, [p], 1, Env(true, replies));
            && (if Delivered(replies) then r == Ok(1) && w'.dirty == {} else r == Err(IndexDown))
            && 1 in w'.table && w'.table[1].values == p.values
            && 1 in w'.index && w'.index[1].dbId == 1
  {
    hide Upsert, IndexAfter, Agrees, Delivered;
    var t, ps, k := START.table, [p], KeyOf(LISTED);
    StartSatisfiesInv();
    StatementSucceedsExactlyWhen(t, ps, 1);
    BulkUpsertMeans(t, ps, 1, true);
    UpsertKeepsIds(t, ps, 1, true, k);
    IdOfIs(t, 1);
    var (t', records) := BulkUpsert(t, ps, 1, true).value;
    assert StoredAs(t', p, records[0]);
    IdOfIs(t', records[0].id);
    ChunkKeepsIndexInv(START, ps, 1, Env(true, replies));
    IndexAfterMeans(START.index, DocsOf(records), replies);
  }

  // The page of all rows still shows the old price.
  ghost predicate ShowsOldPrice(s: Site, strip: string -> string) {
    var r := FirstPage(None);
    && Stale(s, strip, r)
    && Hit(s, strip, r) == Some(Page([(1, START_ROW)], 1, 25, 1)) && START_ROW.values.cents == 100
    && 1 in s.w.table && s.w.table[1].values.cents == 250
    && Answer(s.w.table, s.w.index, One(), r) == Some(Page([(1, s.w.table[1])], 1, 25, 1))
  }

  lemma StoppedUploadShowsOldPrice(redis: bool, strip: string -> string, job: Job)
    requires var end := ChunkLoop(START, job, 0, 0, 0);
             && 1 in end.world.table && end.world.table[1].values == LISTED.(cents := 250)
             && 1 in end.world.index && end.world.index[1].dbId == 1
             && end.verdict.Err?
    ensures ShowsOldPrice(After(redis, strip, AskedAlone(FirstPage(None)) + UploadOps(START, job, true, true)), strip)
  {
    hide MakePricingCacheKey, SiteRun, Run, ChunkLoop, ChunkEvents, Answer, GetByIds;
    var end, es := ChunkLoop(START, job, 0, 0, 0), ChunkEvents(START, job, 0, 0);
    LoopIsRun(START, job, 0, 0, 0);
    AllRowsPage(START);
    RowAt(START.table, 1);
    AllRowsPage(end.world);
    RowAt(end.world.table, 1);
    AskedBefore(redis, strip, FirstPage(None), es, false);
  }

  // No import succeeds.
  lemma LostUploadLeavesStalePage(redis: bool, strip: string -> string)
    ensures var job := RepriceJob([REPRICED], []);
            && ChunkLoop(START, job, 0, 0, 0).verdict == Err(IndexDown)
            && ShowsOldPrice(After(redis, strip, AskedAlone(FirstPage(None)) + UploadOps(START, job, true, true)), strip)
  {
    hide ChunkStep, ShowsOldPrice, After, UploadOps;
    var job := RepriceJob([REPRICED], []);
    assert ChunkEnd(job, 0) == 1 && Readable(job, 0, 1);
    assert ProposedRows(job, 0, 1) == [ProposedAt(job, 0)];
    RepricedStored(ProposedAt(job, 0), []);
    StoppedUploadShowsOldPrice(redis, strip, job);
  }

  // Every import succeeds, no row is left dirty, and the file's second row does not parse.
  lemma StoppedUploadLeavesStalePage(redis: bool, strip: string -> string)
    ensures var job := RepriceJob([REPRICED, Malformed], [Accepted]);
            && ChunkLoop(START, job, 0, 0, 0).verdict == Err(BadChunk)
            && ChunkLoop(START, job, 0, 0, 0).world.dirty == {}
            && ShowsOldPrice(After(redis, strip, AskedAlone(FirstPage(None)) + UploadOps(START, job, true, true)), strip)
  {
    hide ChunkStep, ShowsOldPrice, After, UploadOps;
    var job := RepriceJob([REPRICED, Malformed], [Accepted]);
    assert ChunkEnd(job, 0) == 1 && Readable(job, 0, 1);
    assert ProposedRows(job, 0, 1) == [ProposedAt(job, 0)];
    assert ReplyAt([Accepted], 0).Accepted?;
    RepricedStored(ProposedAt(job, 0), [Accepted]);
    var (w', r) := ChunkStep(START, ProposedRows(job, 0, 1), 1, Env(true, [Accepted]));
    assert ChunkEnd(job, 1) == 2 && !job.file[1].Good? && !Readable(job, 1, 2);
    assert ChunkLoop(w', job, 1, 1, 1) == End(w', Err(BadChunk), 1, 1);
    StoppedUploadShowsOldPrice(redis, strip, job);
  }

  lemma EveryDocumentPasses(f: Filters, index: Index)
    requires f == Filters(None, None, None, None, None)
    ensures Admitted(index, f) == index
  {
    assert ClausesOf(f) == [];
  }
}
