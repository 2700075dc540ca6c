// Uploading a CSV file chunk by chunk (backend/app/api/upload.py).
module Upload {
  import opened Prelude
  import opened Calendar
  import opened Records
  import opened IndexClient
  import opened IngestProtocol
  import opened TableContent
  import opened PricingService
  import opened SearchCache

  const REQUIRED_CSV_COLUMNS := {"store_id", "sku", "product_name", "price", "date"}

  // The endpoint reads 2000 rows at a time; uploads below take any positive size.
  type Size = n: nat | n > 0 witness 1

  datatype CsvRecord = CsvRecord(store: string, sku: string, product: string, cents: int, date: Date)

  // A data row of the file, or one whose date or price does not parse.
  datatype Line = Good(rec: CsvRecord) | Malformed

  // One request: the file, the settings, the uuids drawn for the data rows, and what the
  // environment does at each chunk.
  datatype Job = Job(
    columns: set<string>, file: seq<Line>, chunkSize: Size,
    country: string, currency: string, feed: Id, actor: Option<Id>,
    uuid: nat -> Id, clock: nat -> Instant, env: nat -> Env)

  function ChunkEnd(job: Job, offset: nat): nat
    requires offset <= |job.file|
  {
    Min(offset + job.chunkSize, |job.file|)
  }

  predicate AllGood(job: Job, from: nat, to: nat)
    requires from <= to <= |job.file|
  {
    forall i | from <= i < to :: job.file[i].Good?
  }

  predicate Readable(job: Job, from: nat, to: nat)
    requires from <= to <= |job.file|
  {
    REQUIRED_CSV_COLUMNS <= job.columns && AllGood(job, from, to)
  }

  // The table row proposed for data row i, which stands on line i + 2 of the file.
  function ProposedAt(job: Job, i: nat): Proposed
    requires i < |job.file| && job.file[i].Good?
  {
    var rec := job.file[i].rec;
    Proposed(
      job.uuid(i),
      Values(job.country, rec.store, rec.sku, rec.product, rec.cents, job.currency, true, rec.date),
      Provenance(Some(job.feed), Some(i + 2), job.actor, Source.Ingest, None))
  }

  function ProposedRows(job: Job, from: nat, to: nat): (rows: seq<Proposed>)
    requires from <= to <= |job.file| && AllGood(job, from, to)
    ensures |rows| == to - from
    ensures forall i :: 0 <= i < |rows| ==> rows[i] == ProposedAt(job, from + i)
  {
    if from == to then [] else ProposedRows(job, from, to - 1) + [ProposedAt(job, to - 1)]
  }

  // How the chunk loop ends: the world, the verdict, and the number of rows and of chunks
  // before the chunk that ended it.
  datatype End = End(world: World, verdict: Result<nat, Failure>, offset: nat, chunks: nat)

  ghost function ChunkLoop(w: World, job: Job, n: nat, offset: nat, inserted: nat): (end: End)
    requires UniqueKeys(w.table) && offset <= |job.file|
    ensures UniqueKeys(end.world.table) && end.offset <= |job.file|
    decreases |job.file| - offset, if n == 0 then 1 else 0
  {
    var to := ChunkEnd(job, offset);
    if n > 0 && offset == |job.file| then End(w, Ok(inserted), offset, n)
    else if !Readable(job, offset, to) then End(w, Err(BadChunk), offset, n)
    else
      var (w', r) := ChunkStep(w, ProposedRows(job, offset, to), job.clock(n), job.env(n));
      match r
      case Err(failure) => End(w', Err(failure), offset, n)
      case Ok(count) => ChunkLoop(w', job, n + 1, to, inserted + count)
  }

  // The next chunk of the reader; the reader of an empty file still yields one empty chunk.
  method ReadAndPrepareChunk(job: Job, offset: nat, first: bool) returns (prepared: Result<Option<seq<CsvRecord>>, Failure>)
    requires offset <= |job.file|
    ensures if !first && offset == |job.file| then prepared == Ok(None)
            else if !Readable(job, offset, ChunkEnd(job, offset)) then prepared == Err(BadChunk)
            else && prepared.Ok? && prepared.value.Some? && |prepared.value.value| == ChunkEnd(job, offset) - offset
                 && forall i :: 0 <= i < |prepared.value.value| ==> prepared.value.value[i] == job.file[offset + i].rec
  {
    if !first && offset == |job.file| {
      return Ok(None);
    }
    var to := ChunkEnd(job, offset);
    if !Readable(job, offset, to) {
      return Err(BadChunk);
    }
    prepared := Ok(Some(seq(to - offset, i requires 0 <= i < to - offset => job.file[offset + i].rec)));
  }

  // The rows of a chunk: uuids are drawn and source lines counted row by row.
  method BuildRows(job: Job, rowOffset: nat, records: seq<CsvRecord>) returns (rows: seq<Proposed>)
    requires rowOffset + |records| <= |job.file| && AllGood(job, rowOffset, rowOffset + |records|)
    requires forall i :: 0 <= i < |records| ==> records[i] == job.file[rowOffset + i].rec
    ensures rows == ProposedRows(job, rowOffset, rowOffset + |records|)
  {
    rows := [];
    for idx := 0 to |records|
      invariant rows == ProposedRows(job, rowOffset, rowOffset + idx)
    {
      var rec, sourceLine := records[idx], rowOffset + idx + 2;
      rows := rows + [Proposed(
                        job.uuid(rowOffset + idx),
                        Values(job.country, rec.store, rec.sku, rec.product, rec.cents, job.currency, true, rec.date),
                        Provenance(Some(job.feed), Some(sourceLine), job.actor, Source.Ingest, None))];
    }
  }

  // The loop over the chunks.
  method PersistChunks(db: Database, index: SearchIndex, job: Job) returns (verdict: Result<nat, Failure>, rowOffset: nat)
    requires db.Clean() && UniqueKeys(db.table)
    modifies db, index
    ensures var end := ChunkLoop(old(WorldOf(db, index)), job, 0, 0, 0);
            WorldOf(db, index) == end.world && verdict == end.verdict && rowOffset == end.offset
    ensures verdict.Ok? ==> db.Clean()
    ensures db.committed.feeds == old(db.committed.feeds)
  {
    hide ChunkStep, ProposedRows, AllGood;
    var inserted, n := 0, 0;
    rowOffset := 0;
    ghost var end := ChunkLoop(WorldOf(db, index), job, 0, 0, 0);
    while true
      invariant db.Clean() && rowOffset <= |job.file| && UniqueKeys(db.table)
      invariant ChunkLoop(WorldOf(db, index), job, n, rowOffset, inserted) == end
      invariant db.committed.feeds == old(db.committed.feeds)
      decreases |job.file| - rowOffset, if n == 0 then 1 else 0
    {
      var prepared := ReadAndPrepareChunk(job, rowOffset, n == 0);
      if prepared.Err? {
        return Err(prepared.error), rowOffset;
      }
      if prepared.value.None? {
        return Ok(inserted), rowOffset;
      }
      var records := prepared.value.value;
      var rows := BuildRows(job, rowOffset, records);
      var persisted := PersistAndIndexChunk(db, index, rows, job.clock(n), job.env(n));
      if persisted.Err? {
        return Err(persisted.error), rowOffset;
      }
      inserted := inserted + persisted.value;
      rowOffset, n := rowOffset + |records|, n + 1;
    }
  }

  // The request: commit the feed as received, persist the chunks, then commit the feed as
  // processed and clear the caches, or commit it as failed.
  method UploadCsv<V>(
    db: Database, index: SearchIndex, caches: PricingCaches<V>, job: Job,
    feedCommits: bool, finalCommits: bool, failureCommits: bool, cleared: bool)
    returns (r: Result<nat, Failure>)
    requires db.Clean() && UniqueKeys(db.table) && job.feed !in db.feeds && caches.Valid()
    modifies db, index, caches, caches.search, caches.meta
    ensures db.Clean() && caches.Valid()
    ensures var end := ChunkLoop(old(WorldOf(db, index)), job, 0, 0, 0);
            && WorldOf(db, index) == (if feedCommits then end.world else old(WorldOf(db, index)))
            && (r.Ok? <==> feedCommits && end.verdict.Ok? && finalCommits)
            && (r.Ok? ==> r == end.verdict && db.feeds == old(db.feeds)[job.feed := Feed(Processed, end.offset)])
    ensures r.Err? ==>
              db.feeds == if failureCommits then old(db.feeds)[job.feed := Feed(Failed, 0)]
                          else if feedCommits then old(db.feeds)[job.feed := Feed(Received, 0)]
                          else old(db.feeds)
    ensures caches.State() == if r.Ok? then Cleared(old(caches.State()), cleared) else old(caches.State())
  {
    hide ChunkLoop, UniqueKeys, Cleared;
    var committed := CommitFeed(db, job.feed, Feed(Received, 0), feedCommits);
    if !committed {
      FailFeed(db, job.feed, failureCommits);
      return Err(DatabaseDown);
    }
    var verdict, rowOffset := PersistChunks(db, index, job);
    if verdict.Err? {
      FailFeed(db, job.feed, failureCommits);
      return verdict;
    }
    committed := CommitFeed(db, job.feed, Feed(Processed, rowOffset), finalCommits);
    if !committed {
      FailFeed(db, job.feed, failureCommits);
      return Err(DatabaseDown);
    }
    caches.ClearPricingSearchCaches(cleared);
    r := verdict;
  }

  // One commit of the feed's state, with whatever else is pending.
  method CommitFeed(db: Database, id: Id, feed: Feed, succeeds: bool) returns (ok: bool)
    modifies db`feeds, db`committed
    ensures ok == succeeds
    ensures db.committed == if ok then Snapshot(db.table, db.audits, old(db.feeds)[id := feed]) else old(db.committed)
    ensures ok ==> db.Clean()
  {
    db.feeds := db.feeds[id := feed];
    ok := db.Commit(succeeds);
  }

  // The exception handlers: roll back, then commit the feed as failed. A commit that fails
  // once more ends the request, and with it the session.
  method FailFeed(db: Database, feed: Id, commits: bool)
    modifies db`table, db`audits, db`feeds, db`committed
    ensures db.Clean()
    ensures db.committed == if commits then old(db.committed).(feeds := old(db.committed).feeds[feed := Feed(Failed, 0)])
                            else old(db.committed)
  {
    db.Rollback();
    var committed := CommitFeed(db, feed, Feed(Failed, 0), commits);
    if !committed {
      db.Rollback();
    }
  }

  // ---------- where an upload stops ----------

  // The rows of the leading chunks that reached the table: the failing chunk counts only
  // when it was its index step that failed.
  ghost function Covered(end: End, job: Job): nat
    requires end.offset <= |job.file|
  {
    if end.verdict == Err(IndexDown) then ChunkEnd(job, end.offset) else end.offset
  }

  lemma ProposedRowsConcat(job: Job, from: nat, mid: nat, to: nat)
    requires from <= mid <= to <= |job.file| && AllGood(job, from, to)
    ensures ProposedRows(job, from, to) == ProposedRows(job, from, mid) + ProposedRows(job, mid, to)
  {
  }

  lemma ChunkStepContent(w: World, ps: seq<Proposed>, now: Instant, env: Env)
    requires UniqueKeys(w.table)
    ensures var (w', r) := ChunkStep(w, ps, now, env);
            && UniqueKeys(w'.table)
            && (if r.Ok? || r == Err(IndexDown) then ContentOf(w'.table) == Overlay(ContentOf(w.table), ps) else w' == w)
            && (r.Ok? ==> r.value == |ps|)
  {
    if BulkUpsert(w.table, ps, now, env.dbOk).Ok? {
      ContentBulkUpsert(w.table, ps, now, env.dbOk);
      BulkUpsertMeans(w.table, ps, now, env.dbOk);
    } else {
      BulkUpsertErrors(w.table, ps, now, env.dbOk);
    }
  }

  lemma {:induction false} UpsertErrors(t: Table, ps: seq<Proposed>, now: Instant, touched: set<Key>)
    requires UniqueKeys(t)
    ensures Upsert(t, ps, now, touched) != Err(IndexDown)
    decreases |ps|
  {
    if ps != [] && RowFailure(t, ps[0], touched).None? {
      UpsertRowMeans(t, ps[0], now);
      UpsertErrors(UpsertRow(t, ps[0], now).0, ps[1..], now, touched + {KeyOf(ps[0].values)});
    }
  }

  lemma BulkUpsertErrors(t: Table, ps: seq<Proposed>, now: Instant, dbOk: bool)
    requires UniqueKeys(t)
    ensures BulkUpsert(t, ps, now, dbOk) != Err(IndexDown)
  {
    UpsertErrors(t, ps, now, {});
  }

  // The number of data rows in the first n chunks.
  ghost function Boundary(job: Job, n: nat): (b: nat)
    ensures b <= |job.file|
  {
    if n == 0 then 0 else ChunkEnd(job, Boundary(job, n - 1))
  }

  lemma {:induction false} BoundaryIsMultiple(job: Job, n: nat)
    ensures Boundary(job, n) == Min(n * job.chunkSize, |job.file|)
  {
    if n > 0 {
      BoundaryIsMultiple(job, n - 1);
      assert n * job.chunkSize == (n - 1) * job.chunkSize + job.chunkSize;
    }
  }

  // The table is upserted with exactly the rows covered from `offset` on, a whole number of
  // chunks; a normal end covers and counts every row.
  ghost predicate Covers(start: Content, job: Job, offset: nat, inserted: nat, end: End)
    requires UniqueKeys(end.world.table) && end.offset <= |job.file|
  {
    && end.offset == Boundary(job, end.chunks)
    && offset <= Covered(end, job) <= |job.file| && AllGood(job, offset, Covered(end, job))
    && ContentOf(end.world.table) == Overlay(start, ProposedRows(job, offset, Covered(end, job)))
    && (end.verdict.Ok? ==> end.offset == |job.file| && end.verdict == Ok(inserted + |job.file| - offset))
  }

  // The loop ends before the chunk at `offset`: nothing more is stored.
  lemma StopsBefore(w: World, job: Job, n: nat, offset: nat, inserted: nat, verdict: Result<nat, Failure>)
    requires UniqueKeys(w.table) && offset == Boundary(job, n) && verdict != Err(IndexDown)
    requires verdict.Ok? ==> offset == |job.file| && verdict == Ok(inserted)
    ensures Covers(ContentOf(w.table), job, offset, inserted, End(w, verdict, offset, n))
  {
  }

  // The index step of the chunk at `offset` failed: that chunk is stored.
  lemma StopsAfter(w: World, w': World, job: Job, n: nat, offset: nat, inserted: nat)
    requires UniqueKeys(w.table) && UniqueKeys(w'.table) && offset == Boundary(job, n)
    requires AllGood(job, offset, ChunkEnd(job, offset))
    requires ContentOf(w'.table) == Overlay(ContentOf(w.table), ProposedRows(job, offset, ChunkEnd(job, offset)))
    ensures Covers(ContentOf(w.table), job, offset, inserted, End(w', Err(IndexDown), offset, n))
  {
  }

  lemma CoversOneMore(start: Content, job: Job, offset: nat, to: nat, inserted: nat, end: End)
    requires UniqueKeys(end.world.table) && end.offset <= |job.file|
    requires offset <= to <= |job.file| && AllGood(job, offset, to)
    requires Covers(Overlay(start, ProposedRows(job, offset, to)), job, to, inserted + to - offset, end)
    ensures Covers(start, job, offset, inserted, end)
  {
    ProposedRowsConcat(job, offset, to, Covered(end, job));
    OverlayConcat(start, ProposedRows(job, offset, to), ProposedRows(job, to, Covered(end, job)));
  }

  lemma {:induction false} LoopCovers(w: World, job: Job, n: nat, offset: nat, inserted: nat)
    requires UniqueKeys(w.table) && offset == Boundary(job, n)
    ensures Covers(ContentOf(w.table), job, offset, inserted, ChunkLoop(w, job, n, offset, inserted))
    decreases |job.file| - offset, if n == 0 then 1 else 0
  {
    hide ChunkStep, ContentOf, Overlay, ProposedRows, Covers, UniqueKeys;
    var to := ChunkEnd(job, offset);
    if n > 0 && offset == |job.file| {
      StopsBefore(w, job, n, offset, inserted, Ok(inserted));
    } else if !Readable(job, offset, to) {
      StopsBefore(w, job, n, offset, inserted, Err(BadChunk));
    } else {
      var rows := ProposedRows(job, offset, to);
      var (w', r) := ChunkStep(w, rows, job.clock(n), job.env(n));
      ChunkStepContent(w, rows, job.clock(n), job.env(n));
      if r.Ok? {
        LoopCovers(w', job, n + 1, to, inserted + r.value);
        CoversOneMore(ContentOf(w.table), job, offset, to, inserted, ChunkLoop(w', job, n + 1, to, inserted + r.value));
      } else if r.error == IndexDown {
        StopsAfter(w, w', job, n, offset, inserted);
      } else {
        StopsBefore(w, job, n, offset, inserted, Err(r.error));
      }
    }
  }

  // The number of leading chunks that reached the table.
  ghost function ChunksStored(end: End): nat {
    if end.verdict == Err(IndexDown) then end.chunks + 1 else end.chunks
  }

  // Whatever step an upload stops at, the table's content is the start content upserted,
  // row by row, with a whole number of leading chunks; a normal end stores and counts all.
  lemma UploadStoresLeadingChunks(w: World, job: Job)
    requires UniqueKeys(w.table)
    ensures var end := ChunkLoop(w, job, 0, 0, 0);
            var stored := Min(ChunksStored(end) * job.chunkSize, |job.file|);
            && stored == Covered(end, job) && AllGood(job, 0, stored)
            && ContentOf(end.world.table) == Overlay(ContentOf(w.table), ProposedRows(job, 0, stored))
            && (end.verdict.Ok? ==> stored == end.offset == |job.file| && end.verdict == Ok(|job.file|))
  {
    hide ChunkLoop;
    LoopCovers(w, job, 0, 0, 0);
    BoundaryIsMultiple(job, ChunksStored(ChunkLoop(w, job, 0, 0, 0)));
  }

  // The row holds the data of the file line it names, under the upload's settings and feed.
  ghost predicate OnItsLine(job: Job, row: Row, stored: nat)
    requires stored <= |job.file|
  {
    && row.prov.line.Some? && 2 <= row.prov.line.value < stored + 2
    && job.file[row.prov.line.value - 2].Good?
    && var rec := job.file[row.prov.line.value - 2].rec;
       && row.values.store == rec.store && row.values.sku == rec.sku && row.values.product == rec.product
       && row.values.cents == rec.cents && row.values.date == rec.date
       && row.values.country == job.country && row.values.currency == job.currency && row.values.taxInclusive
       && row.prov.feed == Some(job.feed) && row.prov.actor == job.actor
       && row.prov.source.Ingest? && row.prov.reason == None
  }

  // Each row that carries this feed after the upload is on its line.
  lemma RowsCarryTheirLine(w: World, job: Job, id: Id)
    requires UniqueKeys(w.table)
    requires forall x :: x in w.table ==> w.table[x].prov.feed != Some(job.feed)
    requires id in ChunkLoop(w, job, 0, 0, 0).world.table
    ensures var end := ChunkLoop(w, job, 0, 0, 0);
            var row := end.world.table[id];
            row.prov.feed == Some(job.feed) ==> OnItsLine(job, row, Covered(end, job))
  {
    hide ChunkLoop;
    var end := ChunkLoop(w, job, 0, 0, 0);
    LoopCovers(w, job, 0, 0, 0);
    FromStartOrFile(ContentOf(w.table), job, Covered(end, job), end.world.table, id);
    var k := KeyOf(end.world.table[id].values);
    assert k in ContentOf(w.table) ==> ContentOf(w.table)[k].prov.feed != Some(job.feed);
  }

  // A row after the upload is a row of the file, or has the content it started with.
  lemma FromStartOrFile(start: Content, job: Job, stored: nat, t: Table, id: Id)
    requires UniqueKeys(t) && id in t && stored <= |job.file| && AllGood(job, 0, stored)
    requires ContentOf(t) == Overlay(start, ProposedRows(job, 0, stored))
    ensures var k := KeyOf(t[id].values);
            || (k in start && start[k] == Stored(t[id].values, t[id].prov))
            || OnItsLine(job, t[id], stored)
  {
    var k, rows := KeyOf(t[id].values), ProposedRows(job, 0, stored);
    IdOfIs(t, id);
    assert ContentOf(t)[k] == Stored(t[id].values, t[id].prov);
    OverlayLastWins(start, rows, k);
    var i := LastAt(rows, k);
    if i >= 0 {
      assert rows[i] == ProposedAt(job, i);
    }
  }
}
