// What uploads achieve as a whole: independence of the chunk size, when they succeed,
// uploading a file again, and repairing the index.
module UploadResults {
  import opened Prelude
  import opened Records
  import opened IndexClient
  import opened IngestProtocol
  import opened TableContent
  import opened Upload

  ghost function Whole(w: World, job: Job): End
    requires UniqueKeys(w.table)
  {
    ChunkLoop(w, job, 0, 0, 0)
  }

  // The same file under the same settings, possibly in other chunks, with other uuids, at
  // another time and through another environment.
  ghost predicate SameFile(a: Job, b: Job) {
    a.file == b.file && a.columns == b.columns && a.country == b.country && a.currency == b.currency
  }

  // ---------- the chunk size does not matter ----------

  lemma {:induction false} OverlaySame(c: Content, ps: seq<Proposed>, qs: seq<Proposed>)
    requires |ps| == |qs|
    requires forall i :: 0 <= i < |ps| ==> ps[i].values == qs[i].values && ps[i].prov == qs[i].prov
    ensures Overlay(c, ps) == Overlay(c, qs)
    decreases |ps|
  {
    if ps != [] {
      assert ps[0].values == qs[0].values;
      OverlaySame(c[KeyOf(ps[0].values) := Stored(ps[0].values, ps[0].prov)], ps[1..], qs[1..]);
    }
  }

  // Two uploads of one file by one actor for one feed that both return normally leave the
  // same content, the row-by-row upsert of the file, whatever their chunk sizes.
  lemma ChunkSizeIrrelevant(w: World, a: Job, b: Job)
    requires UniqueKeys(w.table)
    requires SameFile(a, b) && a.feed == b.feed && a.actor == b.actor
    requires Whole(w, a).verdict.Ok? && Whole(w, b).verdict.Ok?
    ensures AllGood(a, 0, |a.file|)
    ensures ContentOf(Whole(w, a).world.table) == Overlay(ContentOf(w.table), ProposedRows(a, 0, |a.file|))
    ensures ContentOf(Whole(w, b).world.table) == ContentOf(Whole(w, a).world.table)
    ensures Whole(w, a).verdict == Whole(w, b).verdict == Ok(|a.file|)
  {
    hide ChunkLoop;
    UploadStoresLeadingChunks(w, a);
    UploadStoresLeadingChunks(w, b);
    OverlaySame(ContentOf(w.table), ProposedRows(a, 0, |a.file|), ProposedRows(b, 0, |b.file|));
  }

  // ---------- when an upload succeeds ----------

  ghost predicate Healthy(job: Job) {
    forall n: nat :: job.env(n).dbOk && Delivered(job.env(n).replies)
  }

  ghost predicate FreshUuids(t: Table, job: Job, from: nat) {
    && (forall i: nat :: from <= i < |job.file| ==> job.uuid(i) !in t)
    && (forall i: nat, j: nat :: from <= i < j < |job.file| ==> job.uuid(i) != job.uuid(j))
  }

  // The columns a file cannot do without.
  ghost predicate HasColumns(job: Job) {
    && "store_id" in job.columns && "sku" in job.columns && "product_name" in job.columns
    && "price" in job.columns && "date" in job.columns
  }

  lemma ColumnsRequired(job: Job)
    ensures REQUIRED_CSV_COLUMNS <= job.columns <==> HasColumns(job)
  {
  }

  // Every chunk parses, has no negative price and no key twice.
  ghost predicate ChunksAcceptable(job: Job, offset: nat)
    requires offset <= |job.file|
    decreases |job.file| - offset
  {
    offset == |job.file| ||
    var to := ChunkEnd(job, offset);
    && AllGood(job, offset, to)
    && Priced(ProposedRows(job, offset, to)) && SameKeysApart(ProposedRows(job, offset, to))
    && ChunksAcceptable(job, to)
  }

  lemma ChunkFresh(t: Table, job: Job, offset: nat, to: nat)
    requires offset <= to <= |job.file| && AllGood(job, offset, to) && FreshUuids(t, job, offset)
    ensures Fresh(t, ProposedRows(job, offset, to))
  {
  }

  lemma StaysFresh(t: Table, t': Table, job: Job, offset: nat, to: nat)
    requires offset <= to <= |job.file| && AllGood(job, offset, to) && FreshUuids(t, job, offset)
    requires t'.Keys <= t.Keys + ProposedIds(ProposedRows(job, offset, to))
    ensures FreshUuids(t', job, to)
  {
    var rows := ProposedRows(job, offset, to);
    forall i: nat | to <= i < |job.file|
      ensures job.uuid(i) !in t'
    {
      assert job.uuid(i) !in t;
      assert forall p :: p in rows ==> exists j :: 0 <= j < |rows| && rows[j] == p;
      assert job.uuid(i) !in ProposedIds(rows);
    }
  }

  lemma StatementGrows(w: World, job: Job, n: nat, offset: nat, to: nat)
    requires UniqueKeys(w.table) && offset <= to <= |job.file|
    requires FreshUuids(w.table, job, offset) && AllGood(job, offset, to)
    ensures var (w', r) := ChunkStep(w, ProposedRows(job, offset, to), job.clock(n), job.env(n));
            r.Ok? ==> FreshUuids(w'.table, job, to)
  {
    hide FreshUuids, ProposedRows;
    var rows := ProposedRows(job, offset, to);
    if BulkUpsert(w.table, rows, job.clock(n), job.env(n).dbOk).Ok? {
      if rows != [] {
        UpsertGrowsBy(w.table, rows, job.clock(n), {});
      }
      StaysFresh(w.table, BulkUpsert(w.table, rows, job.clock(n), job.env(n).dbOk).value.0, job, offset, to);
    }
  }

  lemma HealthyChunk(w: World, job: Job, n: nat, offset: nat)
    requires UniqueKeys(w.table) && offset <= |job.file|
    requires Healthy(job) && FreshUuids(w.table, job, offset) && AllGood(job, offset, ChunkEnd(job, offset))
    ensures var rows := ProposedRows(job, offset, ChunkEnd(job, offset));
            var (w', r) := ChunkStep(w, rows, job.clock(n), job.env(n));
            && (r.Ok? <==> Priced(rows) && SameKeysApart(rows))
            && (r.Ok? ==> FreshUuids(w'.table, job, ChunkEnd(job, offset)))
  {
    hide Priced, SameKeysApart, FreshUuids, Fresh;
    var to, rows := ChunkEnd(job, offset), ProposedRows(job, offset, ChunkEnd(job, offset));
    ChunkFresh(w.table, job, offset, to);
    ChunkOutcome(w, rows, job.clock(n), job.env(n));
    StatementGrows(w, job, n, offset, to);
  }

  lemma {:induction false} LoopSucceedsExactlyWhen(w: World, job: Job, n: nat, offset: nat, inserted: nat)
    requires UniqueKeys(w.table) && offset <= |job.file|
    requires Healthy(job) && FreshUuids(w.table, job, offset)
    ensures ChunkLoop(w, job, n, offset, inserted).verdict.Ok? <==>
            (n == 0 || offset < |job.file| ==> HasColumns(job)) && ChunksAcceptable(job, offset)
    decreases |job.file| - offset, if n == 0 then 1 else 0
  {
    hide ChunkStep, HasColumns;
    ColumnsRequired(job);
    var to := ChunkEnd(job, offset);
    if !(n > 0 && offset == |job.file|) && Readable(job, offset, to) {
      var rows := ProposedRows(job, offset, to);
      var (w', r) := ChunkStep(w, rows, job.clock(n), job.env(n));
      HealthyChunk(w, job, n, offset);
      if r.Ok? {
        LoopSucceedsExactlyWhen(w', job, n + 1, to, inserted + r.value);
      } else {
        assert rows != [];
      }
    }
  }

  // With fresh uuids, a committing database and a reachable index, an upload returns
  // normally exactly when the columns are there and every chunk is acceptable.
  lemma UploadSucceedsExactlyWhen(w: World, job: Job)
    requires UniqueKeys(w.table)
    requires Healthy(job) && FreshUuids(w.table, job, 0)
    ensures Whole(w, job).verdict.Ok? <==> HasColumns(job) && ChunksAcceptable(job, 0)
  {
    LoopSucceedsExactlyWhen(w, job, 0, 0, 0);
  }

  // ---------- where and why an upload stops ----------

  ghost predicate Parses(job: Job, k: nat) {
    HasColumns(job) && AllGood(job, Boundary(job, k), Boundary(job, k + 1))
  }

  ghost function ChunkRows(job: Job, k: nat): seq<Proposed>
    requires Parses(job, k)
  {
    ProposedRows(job, Boundary(job, k), Boundary(job, k + 1))
  }

  // One of the five imports that chunk k may make is accepted.
  ghost predicate Imported(job: Job, k: nat) {
    exists a :: 0 <= a < 5 && ReplyAt(job.env(k).replies, a).Accepted?
  }

  // Chunk k goes through: it parses, its rows fit the table, and unless it is empty its
  // commit succeeds and its documents are imported.
  ghost predicate Passes(job: Job, k: nat) {
    && Parses(job, k)
    && var rows := ChunkRows(job, k);
       && Priced(rows) && SameKeysApart(rows)
       && (rows != [] ==> job.env(k).dbOk && Imported(job, k))
  }

  // Chunk k ends the upload with the given failure.
  ghost predicate Fails(job: Job, k: nat, failure: Failure) {
    if !Parses(job, k) then failure == BadChunk
    else
      var rows := ChunkRows(job, k);
      match failure
      case NegativePrice => !Priced(rows)
      case SameKeyTwice => !SameKeysApart(rows)
      case DatabaseDown => Priced(rows) && SameKeysApart(rows) && rows != [] && !job.env(k).dbOk
      case IndexDown => Priced(rows) && SameKeysApart(rows) && rows != [] && job.env(k).dbOk && !Imported(job, k)
      case _ => false
  }

  lemma ChunkPassesOrFails(w: World, job: Job, n: nat, offset: nat)
    requires UniqueKeys(w.table) && offset == Boundary(job, n) && FreshUuids(w.table, job, offset)
    requires Parses(job, n)
    ensures var (w', r) := ChunkStep(w, ChunkRows(job, n), job.clock(n), job.env(n));
            && (if r.Ok? then Passes(job, n) else Fails(job, n, r.error))
            && (r.Ok? ==> FreshUuids(w'.table, job, Boundary(job, n + 1)))
  {
    hide Priced, SameKeysApart, ProposedRows, FreshUuids, Fresh, AllGood, HasColumns;
    var to, rows := ChunkEnd(job, offset), ChunkRows(job, n);
    ChunkFresh(w.table, job, offset, to);
    ChunkOutcome(w, rows, job.clock(n), job.env(n));
    StatementGrows(w, job, n, offset, to);
  }

  lemma {:induction false} LoopStopsAtFirstFailure(w: World, job: Job, n: nat, offset: nat, inserted: nat)
    requires UniqueKeys(w.table) && offset == Boundary(job, n) && FreshUuids(w.table, job, offset)
    ensures var end := ChunkLoop(w, job, n, offset, inserted);
            && n <= end.chunks && (n == 0 && end.verdict.Ok? ==> end.chunks > 0)
            && (forall k :: n <= k < end.chunks ==> Passes(job, k))
            && if end.verdict.Ok? then Boundary(job, end.chunks) == |job.file| else Fails(job, end.chunks, end.verdict.error)
    decreases |job.file| - offset, if n == 0 then 1 else 0
  {
    hide ChunkStep, HasColumns, Passes, FreshUuids;
    ColumnsRequired(job);
    var to := ChunkEnd(job, offset);
    if !(n > 0 && offset == |job.file|) && Readable(job, offset, to) {
      ChunkPassesOrFails(w, job, n, offset);
      var (w', r) := ChunkStep(w, ChunkRows(job, n), job.clock(n), job.env(n));
      if r.Ok? {
        LoopStopsAtFirstFailure(w', job, n + 1, to, inserted + r.value);
      }
    }
  }

  // In every environment an upload stops at its first chunk that does not go through, with
  // that chunk's failure, and returns exactly when every chunk goes through.
  lemma UploadStopsAtFirstFailure(w: World, job: Job)
    requires UniqueKeys(w.table) && FreshUuids(w.table, job, 0)
    ensures var end := Whole(w, job);
            && (forall k :: 0 <= k < end.chunks ==> Passes(job, k))
            && (end.verdict.Err? ==> Fails(job, end.chunks, end.verdict.error))
            && (end.verdict.Ok? <==>
                Passes(job, 0) && forall k :: 0 <= k && Boundary(job, k) < |job.file| ==> Passes(job, k))
  {
    hide ChunkLoop;
    LoopStopsAtFirstFailure(w, job, 0, 0, 0);
    var end := Whole(w, job);
    if end.verdict.Ok? {
      forall k: nat | Boundary(job, k) < |job.file|
        ensures Passes(job, k)
      {
        BoundariesAscend(job, end.chunks, k);
      }
    } else {
      FailsIsNotPass(job, end.chunks, end.verdict.error);
      ChunkAfterEnd(job, end.chunks);
    }
  }

  lemma FailsIsNotPass(job: Job, k: nat, failure: Failure)
    requires Fails(job, k, failure)
    ensures !Passes(job, k)
  {
  }

  // A chunk beyond the end of the file is empty.
  lemma ChunkAfterEnd(job: Job, k: nat)
    ensures Boundary(job, k) == |job.file| && Passes(job, 0) ==> Passes(job, k)
  {
  }

  lemma {:induction false} BoundariesAscend(job: Job, n: nat, k: nat)
    ensures n <= k ==> Boundary(job, n) <= Boundary(job, k)
  {
    if n < k { BoundariesAscend(job, n, k - 1); }
  }

  // Every data row parses, no price is negative, and no two rows share a key.
  ghost predicate CleanFile(job: Job) {
    && AllGood(job, 0, |job.file|)
    && Priced(ProposedRows(job, 0, |job.file|)) && SameKeysApart(ProposedRows(job, 0, |job.file|))
  }

  lemma {:induction false} CleanFileFitsAnyChunks(job: Job, offset: nat)
    requires offset <= |job.file| && CleanFile(job)
    ensures ChunksAcceptable(job, offset)
    decreases |job.file| - offset
  {
    if offset < |job.file| {
      var to := ChunkEnd(job, offset);
      var all, rows := ProposedRows(job, 0, |job.file|), ProposedRows(job, offset, to);
      assert forall i :: 0 <= i < |rows| ==> rows[i] == all[offset + i];
      CleanFileFitsAnyChunks(job, to);
    }
  }

  // The file read in chunks of the given size.
  function InChunksOf(job: Job, size: Size): Job {
    job.(chunkSize := size)
  }

  lemma RowsIgnoreChunks(job: Job, size: Size, from: nat, to: nat)
    requires from <= to <= |job.file| && AllGood(job, from, to)
    ensures ProposedRows(InChunksOf(job, size), from, to) == ProposedRows(job, from, to)
  {
    var chunked := InChunksOf(job, size);
    assert forall i :: from <= i < to ==> ProposedAt(chunked, i) == ProposedAt(job, i);
  }

  lemma PricedConcat(a: seq<Proposed>, b: seq<Proposed>)
    ensures Priced(a + b) <==> Priced(a) && Priced(b)
  {
    if Priced(a + b) {
      assert forall i :: 0 <= i < |a| ==> (a + b)[i] == a[i];
      assert forall i :: 0 <= i < |b| ==> (a + b)[|a| + i] == b[i];
    }
  }

  // Row by row, repeated keys do not matter.
  lemma {:induction false} SingleRowsAcceptable(job: Job, offset: nat)
    requires job.chunkSize == 1 && offset <= |job.file|
    ensures ChunksAcceptable(job, offset) <==>
            AllGood(job, offset, |job.file|) && Priced(ProposedRows(job, offset, |job.file|))
    decreases |job.file| - offset
  {
    if offset < |job.file| {
      var to := offset + 1;
      assert ChunkEnd(job, offset) == to;
      SingleRowsAcceptable(job, to);
      if AllGood(job, offset, |job.file|) {
        ProposedRowsConcat(job, offset, to, |job.file|);
        PricedConcat(ProposedRows(job, offset, to), ProposedRows(job, to, |job.file|));
      }
    }
  }

  // All at once, the file must be clean.
  lemma OneChunkAcceptable(job: Job)
    requires job.chunkSize >= |job.file|
    ensures ChunksAcceptable(job, 0) <==> CleanFile(job)
  {
    if |job.file| > 0 {
      assert ChunkEnd(job, 0) == |job.file| && ChunksAcceptable(job, |job.file|);
    }
  }

  ghost predicate Returns(w: World, job: Job, size: Size)
    requires UniqueKeys(w.table)
  {
    Whole(w, InChunksOf(job, size)).verdict.Ok?
  }

  // Uploads of the file return under every positive chunk size exactly when the columns are
  // there and the file is clean; and every upload that returns has counted all rows.
  lemma AnyChunkSizeExactlyWhen(w: World, job: Job)
    requires UniqueKeys(w.table) && Healthy(job) && FreshUuids(w.table, job, 0)
    ensures (forall size: Size :: Returns(w, job, size)) <==> HasColumns(job) && CleanFile(job)
    ensures forall size: Size :: Returns(w, job, size) ==> Whole(w, InChunksOf(job, size)).verdict == Ok(|job.file|)
  {
    hide ChunkLoop;
    forall size: Size
      ensures Returns(w, job, size) ==> Whole(w, InChunksOf(job, size)).verdict == Ok(|job.file|)
    {
      UploadStoresLeadingChunks(w, InChunksOf(job, size));
    }
    forall size: Size
      ensures HasColumns(job) && CleanFile(job) ==> Returns(w, job, size)
    {
      var chunked := InChunksOf(job, size);
      UploadSucceedsExactlyWhen(w, chunked);
      if CleanFile(job) {
        RowsIgnoreChunks(job, size, 0, |job.file|);
        CleanFileFitsAnyChunks(chunked, 0);
      }
    }
    var all: Size := if |job.file| == 0 then 1 else |job.file|;
    assert (forall size: Size :: Returns(w, job, size)) ==> Returns(w, job, all);
    UploadSucceedsExactlyWhen(w, InChunksOf(job, all));
    OneChunkAcceptable(InChunksOf(job, all));
    if CleanFile(InChunksOf(job, all)) {
      RowsIgnoreChunks(job, all, 0, |job.file|);
    }
  }

  // So the condition on keys is about chunks: a parsed and priced file with a repeated key
  // goes through row by row and fails in one chunk.
  lemma RepeatedKeyDependsOnChunks(w: World, job: Job)
    requires UniqueKeys(w.table) && Healthy(job) && FreshUuids(w.table, job, 0)
    requires HasColumns(job) && AllGood(job, 0, |job.file|)
    requires Priced(ProposedRows(job, 0, |job.file|)) && !SameKeysApart(ProposedRows(job, 0, |job.file|))
    ensures Whole(w, InChunksOf(job, 1)).verdict == Ok(|job.file|)
    ensures |job.file| > 0 && Whole(w, InChunksOf(job, |job.file|)).verdict.Err?
  {
    hide ChunkLoop;
    var single, whole := InChunksOf(job, 1), InChunksOf(job, |job.file|);
    RowsIgnoreChunks(job, 1, 0, |job.file|);
    RowsIgnoreChunks(job, |job.file|, 0, |job.file|);
    SingleRowsAcceptable(single, 0);
    OneChunkAcceptable(whole);
    UploadSucceedsExactlyWhen(w, single);
    UploadSucceedsExactlyWhen(w, whole);
    UploadStoresLeadingChunks(w, single);
  }

  // ---------- ids, and uploading again ----------

  lemma ChunkKeepsIds(w: World, ps: seq<Proposed>, now: Instant, env: Env, k: Key)
    requires UniqueKeys(w.table) && HasKey(w.table, k)
    ensures var w' := ChunkStep(w, ps, now, env).0;
            HasKey(w'.table, k) && IdOf(w'.table, k) == IdOf(w.table, k)
  {
    if BulkUpsert(w.table, ps, now, env.dbOk).Ok? {
      UpsertKeepsIds(w.table, ps, now, env.dbOk, k);
    }
  }

  lemma {:induction false} LoopKeepsIds(w: World, job: Job, n: nat, offset: nat, inserted: nat, k: Key)
    requires UniqueKeys(w.table) && offset <= |job.file| && HasKey(w.table, k)
    ensures var t := ChunkLoop(w, job, n, offset, inserted).world.table;
            HasKey(t, k) && IdOf(t, k) == IdOf(w.table, k)
    decreases |job.file| - offset, if n == 0 then 1 else 0
  {
    hide ChunkStep;
    var to := ChunkEnd(job, offset);
    if !(n > 0 && offset == |job.file|) && Readable(job, offset, to) {
      var (w', r) := ChunkStep(w, ProposedRows(job, offset, to), job.clock(n), job.env(n));
      ChunkKeepsIds(w, ProposedRows(job, offset, to), job.clock(n), job.env(n), k);
      if r.Ok? {
        LoopKeepsIds(w', job, n + 1, to, inserted + r.value, k);
      }
    }
  }

  lemma {:induction false} LastAtSame(ps: seq<Proposed>, qs: seq<Proposed>, k: Key)
    requires |ps| == |qs| && forall i :: 0 <= i < |ps| ==> ps[i].values == qs[i].values
    ensures LastAt(ps, k) == LastAt(qs, k)
  {
    var i, j := LastAt(ps, k), LastAt(qs, k);
    assert i >= 0 ==> KeyOf(qs[i].values) == k;
    assert j >= 0 ==> KeyOf(ps[j].values) == k;
  }

  // Writing a file over itself: a key's values do not change, and no key is new.
  lemma OverlayAgain(c: Content, ps: seq<Proposed>, qs: seq<Proposed>, k: Key)
    requires |ps| == |qs| && forall i :: 0 <= i < |ps| ==> ps[i].values == qs[i].values
    ensures var once := Overlay(c, ps);
            var twice := Overlay(once, qs);
            && (k in twice <==> k in once)
            && (k in twice ==> twice[k].values == once[k].values)
  {
    OverlayLastWins(c, ps, k);
    OverlayLastWins(Overlay(c, ps), qs, k);
    LastAtSame(ps, qs, k);
  }

  // Uploading the file again, in any chunks, keeps every row's id and business columns and
  // adds no row.
  lemma UploadAgainChangesNothing(w: World, a: Job, b: Job)
    requires UniqueKeys(w.table) && SameFile(a, b)
    requires Whole(w, a).verdict.Ok? && Whole(Whole(w, a).world, b).verdict.Ok?
    ensures var t := Whole(w, a).world.table;
            var t' := Whole(Whole(w, a).world, b).world.table;
            t'.Keys == t.Keys && forall id :: id in t ==> t'[id].values == t[id].values
  {
    hide ChunkLoop;
    var w1 := Whole(w, a).world;
    var w2 := Whole(w1, b).world;
    var ps := Stores(w, a);
    var qs := Stores(w1, b);
    forall id
      ensures id in w1.table ==> id in w2.table && w2.table[id].values == w1.table[id].values
      ensures id in w2.table ==> id in w1.table
    {
      if id in w1.table {
        IdOfIs(w1.table, id);
        AgainAt(w, w1, w2, b, ps, qs, KeyOf(w1.table[id].values));
      }
      if id in w2.table {
        IdOfIs(w2.table, id);
        AgainAt(w, w1, w2, b, ps, qs, KeyOf(w2.table[id].values));
      }
    }
  }

  lemma Stores(w: World, job: Job) returns (rows: seq<Proposed>)
    requires UniqueKeys(w.table) && Whole(w, job).verdict.Ok?
    ensures AllGood(job, 0, |job.file|) && rows == ProposedRows(job, 0, |job.file|)
    ensures ContentOf(Whole(w, job).world.table) == Overlay(ContentOf(w.table), rows)
  {
    hide ChunkLoop;
    UploadStoresLeadingChunks(w, job);
    rows := ProposedRows(job, 0, |job.file|);
  }

  lemma AgainAt(w: World, w1: World, w2: World, job: Job, ps: seq<Proposed>, qs: seq<Proposed>, k: Key)
    requires UniqueKeys(w.table) && UniqueKeys(w1.table) && w2 == Whole(w1, job).world
    requires |ps| == |qs| && forall i :: 0 <= i < |ps| ==> ps[i].values == qs[i].values
    requires ContentOf(w1.table) == Overlay(ContentOf(w.table), ps)
    requires ContentOf(w2.table) == Overlay(ContentOf(w1.table), qs)
    ensures HasKey(w1.table, k) <==> HasKey(w2.table, k)
    ensures HasKey(w1.table, k) ==>
              && IdOf(w2.table, k) == IdOf(w1.table, k)
              && w2.table[IdOf(w1.table, k)].values == w1.table[IdOf(w1.table, k)].values
  {
    hide ChunkLoop, ContentOf, Overlay, HasKey;
    OverlayAgain(ContentOf(w.table), ps, qs, k);
    ContentAt(w1.table, k);
    ContentAt(w2.table, k);
    if HasKey(w1.table, k) {
      LoopKeepsIds(w1, job, 0, 0, 0, k);
    }
  }

  // ---------- an upload as a run of the protocol ----------

  // The chunks that an upload comes to, one event each.
  ghost function ChunkEvents(w: World, job: Job, n: nat, offset: nat): seq<Event>
    requires UniqueKeys(w.table) && offset <= |job.file|
    decreases |job.file| - offset, if n == 0 then 1 else 0
  {
    var to := ChunkEnd(job, offset);
    if n > 0 && offset == |job.file| then []
    else if !Readable(job, offset, to) then []
    else
      var rows := ProposedRows(job, offset, to);
      var (w', r) := ChunkStep(w, rows, job.clock(n), job.env(n));
      [Event.Ingest(rows, job.clock(n), job.env(n))] + if r.Ok? then ChunkEvents(w', job, n + 1, to) else []
  }

  // The chunk loop is the run of its chunks.
  lemma {:induction false} LoopIsRun(w: World, job: Job, n: nat, offset: nat, inserted: nat)
    requires UniqueKeys(w.table) && offset <= |job.file|
    ensures ChunkLoop(w, job, n, offset, inserted).world == Run(w, ChunkEvents(w, job, n, offset))
    ensures FromUploads(ChunkEvents(w, job, n, offset))
    decreases |job.file| - offset, if n == 0 then 1 else 0
  {
    hide ChunkStep;
    var to := ChunkEnd(job, offset);
    if !(n > 0 && offset == |job.file|) && Readable(job, offset, to) {
      var rows := ProposedRows(job, offset, to);
      var (w', r) := ChunkStep(w, rows, job.clock(n), job.env(n));
      var first := Event.Ingest(rows, job.clock(n), job.env(n));
      ProposedAreIngested(job, offset, to);
      var rest := if r.Ok? then ChunkEvents(w', job, n + 1, to) else [];
      assert ([first] + rest)[0] == first && ([first] + rest)[1..] == rest;
      assert Run(w, [first] + rest) == Run(w', rest);
      if r.Ok? {
        LoopIsRun(w', job, n + 1, to, inserted + r.value);
      }
    }
  }

  // ---------- the invariant and the index across an upload ----------

  lemma ProposedAreIngested(job: Job, from: nat, to: nat)
    requires from <= to <= |job.file| && AllGood(job, from, to)
    ensures forall i :: 0 <= i < to - from ==> ProposedRows(job, from, to)[i].prov.source.Ingest?
  {
  }

  // An upload, complete or not, keeps the protocol's invariant.
  lemma LoopKeepsInv(w: World, job: Job, n: nat, offset: nat, inserted: nat)
    requires Inv(w) && offset <= |job.file|
    ensures Inv(ChunkLoop(w, job, n, offset, inserted).world)
  {
    hide ChunkLoop, ChunkEvents, AuditInv;
    LoopIsRun(w, job, n, offset, inserted);
    RunKeepsInv(w, ChunkEvents(w, job, n, offset));
  }

  // The row with the key is in the table and its last index step succeeded.
  ghost predicate CleanAt(w: World, k: Key)
    requires UniqueKeys(w.table)
  {
    HasKey(w.table, k) && IdOf(w.table, k) !in w.dirty
  }

  lemma OkChunkCleans(w: World, ps: seq<Proposed>, now: Instant, env: Env, k: Key)
    requires IndexInv(w) && ChunkStep(w, ps, now, env).1.Ok?
    requires CleanAt(w, k) || exists i :: 0 <= i < |ps| && KeyOf(ps[i].values) == k
    ensures CleanAt(ChunkStep(w, ps, now, env).0, k)
  {
    if i :| 0 <= i < |ps| && KeyOf(ps[i].values) == k {
      ReuploadRecovers(w, ps, now, env, i);
    } else {
      ChunkKeepsIds(w, ps, now, env, k);
    }
  }

  lemma {:induction false} LoopCleans(w: World, job: Job, n: nat, offset: nat, inserted: nat, k: Key)
    requires IndexInv(w) && offset <= |job.file|
    requires ChunkLoop(w, job, n, offset, inserted).verdict.Ok?
    requires CleanAt(w, k) ||
             exists i :: offset <= i < |job.file| && job.file[i].Good? && KeyOf(ProposedAt(job, i).values) == k
    ensures CleanAt(ChunkLoop(w, job, n, offset, inserted).world, k)
    decreases |job.file| - offset, if n == 0 then 1 else 0
  {
    hide ChunkStep, ProposedAt, CleanAt;
    var to := ChunkEnd(job, offset);
    if !(n > 0 && offset == |job.file|) {
      var rows := ProposedRows(job, offset, to);
      var (w', r) := ChunkStep(w, rows, job.clock(n), job.env(n));
      ChunkKeepsIndexInv(w, rows, job.clock(n), job.env(n));
      if CleanAt(w, k) {
        OkChunkCleans(w, rows, job.clock(n), job.env(n), k);
      } else {
        var i :| offset <= i < |job.file| && job.file[i].Good? && KeyOf(ProposedAt(job, i).values) == k;
        if i < to {
          assert rows[i - offset] == ProposedAt(job, i);
          OkChunkCleans(w, rows, job.clock(n), job.env(n), k);
        }
      }
      LoopCleans(w', job, n + 1, to, inserted + r.value, k);
    }
  }

  // A successful upload repairs the index for every key it covers: the row with that key,
  // whatever failed for it before, agrees with its document afterwards.
  lemma UploadRepairs(w: World, job: Job, i: nat)
    requires Inv(w) && i < |job.file| && Whole(w, job).verdict.Ok?
    ensures var w' := Whole(w, job).world;
            && Inv(w') && job.file[i].Good?
            && var k := KeyOf(ProposedAt(job, i).values);
               CleanAt(w', k) && Agrees(w', IdOf(w'.table, k))
  {
    hide ChunkLoop, AuditInv;
    UploadStoresLeadingChunks(w, job);
    LoopKeepsInv(w, job, 0, 0, 0);
    assert job.file[i].Good?;
    LoopCleans(w, job, 0, 0, 0, KeyOf(ProposedAt(job, i).values));
  }
}
