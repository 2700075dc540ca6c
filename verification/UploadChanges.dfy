// Which answers an upload changes, wherever it stops.
module UploadChanges {
  import opened Prelude
  import opened Records
  import opened IndexClient
  import opened IngestProtocol
  import opened TableContent
  import opened Upload
  import opened UploadResults
  import opened SearchCache
  import opened AnswerChanges

  // ---------- the first and the last row of a key ----------

  // The position of the first row with the key, or the number of rows.
  ghost function FirstAt(ps: seq<Proposed>, k: Key): (i: nat)
    ensures i <= |ps|
    ensures i < |ps| ==> KeyOf(ps[i].values) == k
    ensures forall j :: 0 <= j < i ==> KeyOf(ps[j].values) != k
  {
    if ps == [] || KeyOf(ps[0].values) == k then 0 else 1 + FirstAt(ps[1..], k)
  }

  lemma LastAtConcat(a: seq<Proposed>, b: seq<Proposed>, k: Key)
    ensures LastAt(a + b, k) == if LastAt(b, k) >= 0 then |a| + LastAt(b, k) else LastAt(a, k)
  {
    var x, y, z := LastAt(a + b, k), LastAt(a, k), LastAt(b, k);
    assert forall i :: 0 <= i < |b| ==> (a + b)[|a| + i] == b[i];
    assert forall i :: 0 <= i < |a| ==> (a + b)[i] == a[i];
    assert z >= 0 ==> KeyOf((a + b)[|a| + z].values) == k;
    assert y >= 0 ==> KeyOf((a + b)[y].values) == k;
    assert x >= |a| ==> KeyOf(b[x - |a|].values) == k;
  }

  // The document under the id once the rows are indexed: that of the last row with the key,
  // if there is one.
  ghost function DocOver(doc: Option<Doc>, ps: seq<Proposed>, k: Key, id: Id): Option<Doc> {
    if LastAt(ps, k) >= 0 then Some(DocOf(id, ps[LastAt(ps, k)].values)) else doc
  }

  lemma DocOverConcat(doc: Option<Doc>, a: seq<Proposed>, b: seq<Proposed>, k: Key, id: Id)
    ensures DocOver(DocOver(doc, a, k, id), b, k, id) == DocOver(doc, a + b, k, id)
  {
    LastAtConcat(a, b, k);
  }

  // ---------- one chunk ----------

  ghost predicate KeyIs(t: Table, id: Id, k: Key) {
    id in t ==> KeyOf(t[id].values) == k
  }

  lemma OnlyRowOfKey(ps: seq<Proposed>, i: nat)
    requires SameKeysApart(ps) && i < |ps|
    ensures LastAt(ps, KeyOf(ps[i].values)) == i
  {
  }

  lemma TargetDocs(w: World, ps: seq<Proposed>, now: Instant, env: Env, i: nat)
    requires IndexInv(w) && BulkUpsert(w.table, ps, now, env.dbOk).Ok? && i < |ps|
    ensures var w', k, id := ChunkStep(w, ps, now, env).0, KeyOf(ps[i].values), TargetId(w.table, ps[i]);
            && id in w'.table && KeyOf(w'.table[id].values) == k && LastAt(ps, k) == i
            && At(w'.index, id) ==
               if Sends(env.replies, id) then DocOver(At(w.index, id), ps, k, id) else At(w.index, id)
  {
    hide BulkUpsert, ChunkStep, Sends, Rewrites, Agrees, SameRow, TargetId, SameKeysApart, Kept, AllStored;
    BulkUpsertMeans(w.table, ps, now, env.dbOk);
    WrittenRow(w, ps, now, env, i);
    OnlyRowOfKey(ps, i);
  }

  lemma ChunkDocs(w: World, ps: seq<Proposed>, now: Instant, env: Env, k: Key, id: Id)
    requires IndexInv(w) && BulkUpsert(w.table, ps, now, env.dbOk).Ok?
    requires KeyIs(ChunkStep(w, ps, now, env).0.table, id, k)
    ensures var w' := ChunkStep(w, ps, now, env).0;
            At(w'.index, id) ==
            if id in w'.table && Sends(env.replies, id) then DocOver(At(w.index, id), ps, k, id) else At(w.index, id)
  {
    hide BulkUpsert, ChunkStep, Sends, Agrees, SameRow;
    ChunkIsConfined(w, ps, now, env);
    if id in TargetIds(w.table, ps) {
      var p :| p in ps && TargetId(w.table, p) == id;
      var i :| 0 <= i < |ps| && ps[i] == p;
      TargetDocs(w, ps, now, env, i);
    } else if LastAt(ps, k) >= 0 {
      var i := LastAt(ps, k);
      TargetDocs(w, ps, now, env, i);
      assert ps[i] in ps;
    }
  }

  // ---------- the whole loop ----------

  lemma {:induction false} LoopShape(w: World, job: Job, n: nat, offset: nat, inserted: nat)
    requires UniqueKeys(w.table) && offset <= |job.file|
    ensures var end := ChunkLoop(w, job, n, offset, inserted);
            offset <= end.offset <= Covered(end, job) <= |job.file| && AllGood(job, offset, Covered(end, job))
    decreases |job.file| - offset, if n == 0 then 1 else 0
  {
    hide ChunkStep;
    var to := ChunkEnd(job, offset);
    if !(n > 0 && offset == |job.file|) && Readable(job, offset, to) {
      var rows := ProposedRows(job, offset, to);
      var (w', r) := ChunkStep(w, rows, job.clock(n), job.env(n));
      if r.Ok? {
        LoopShape(w', job, n + 1, to, inserted + r.value);
      }
    }
  }

  // Ids keep their keys to the end of the loop.
  lemma LoopKeepsKey(w: World, job: Job, n: nat, offset: nat, inserted: nat, id: Id)
    requires UniqueKeys(w.table) && offset <= |job.file| && id in w.table
    ensures var t := ChunkLoop(w, job, n, offset, inserted).world.table;
            id in t && KeyOf(t[id].values) == KeyOf(w.table[id].values)
  {
    hide ChunkLoop;
    var k := KeyOf(w.table[id].values);
    IdOfIs(w.table, id);
    LoopKeepsIds(w, job, n, offset, inserted, k);
  }

  // The document that an upload leaves under an id: the chunks before the last one were
  // delivered; of the one that ended the upload, what its imports wrote.
  ghost function DocAfter(w: World, job: Job, offset: nat, end: End, k: Key, id: Id): Option<Doc>
    requires offset <= end.offset <= |job.file| && end.offset <= Covered(end, job) <= |job.file|
    requires AllGood(job, offset, Covered(end, job))
  {
    var delivered := DocOver(At(w.index, id), ProposedRows(job, offset, end.offset), k, id);
    if Sends(job.env(end.chunks).replies, id)
    then DocOver(delivered, ProposedRows(job, end.offset, Covered(end, job)), k, id)
    else delivered
  }

  // The document after a delivered chunk, told by the key that its id has at the end.
  lemma DeliveredDocs(w: World, ps: seq<Proposed>, now: Instant, env: Env, t: Table, k: Key, id: Id)
    requires IndexInv(w) && ChunkStep(w, ps, now, env).1.Ok?
    requires UniqueKeys(t) && KeyIs(t, id, k)
    requires forall x :: x in ChunkStep(w, ps, now, env).0.table ==>
               x in t && KeyOf(t[x].values) == KeyOf(ChunkStep(w, ps, now, env).0.table[x].values)
    ensures At(ChunkStep(w, ps, now, env).0.index, id) ==
            if id in t then DocOver(At(w.index, id), ps, k, id) else At(w.index, id)
  {
    hide BulkUpsert, Sends, Rewrites, Agrees, IndexAfter, Delivered;
    var w' := ChunkStep(w, ps, now, env).0;
    BulkUpsertMeans(w.table, ps, now, env.dbOk);
    ChunkDocs(w, ps, now, env, k, id);
    DeliveredSends(env.replies, id);
    if LastAt(ps, k) >= 0 {
      WrittenRow(w, ps, now, env, LastAt(ps, k));
    }
  }

  lemma DocAfterJoins(w: World, w': World, job: Job, offset: nat, to: nat, end: End, k: Key, id: Id)
    requires offset <= to <= end.offset <= |job.file| && end.offset <= Covered(end, job) <= |job.file|
    requires AllGood(job, offset, Covered(end, job))
    requires At(w'.index, id) == DocOver(At(w.index, id), ProposedRows(job, offset, to), k, id)
    ensures DocAfter(w', job, to, end, k, id) == DocAfter(w, job, offset, end, k, id)
  {
    hide DocOver, Sends;
    ProposedRowsConcat(job, offset, to, end.offset);
    DocOverConcat(At(w.index, id), ProposedRows(job, offset, to), ProposedRows(job, to, end.offset), k, id);
  }

  lemma EndingDocAfter(w: World, job: Job, offset: nat, end: End, k: Key, id: Id)
    requires end.offset == offset <= |job.file| && offset <= Covered(end, job) <= |job.file|
    requires AllGood(job, offset, Covered(end, job))
    ensures DocAfter(w, job, offset, end, k, id) ==
            if end.verdict == Err(IndexDown) && Sends(job.env(end.chunks).replies, id)
            then DocOver(At(w.index, id), ProposedRows(job, offset, ChunkEnd(job, offset)), k, id)
            else At(w.index, id)
  {
  }

  lemma {:induction false} LoopDocs(w: World, job: Job, n: nat, offset: nat, inserted: nat, k: Key, id: Id)
    requires IndexInv(w) && offset <= |job.file|
    requires KeyIs(ChunkLoop(w, job, n, offset, inserted).world.table, id, k)
    ensures var end := ChunkLoop(w, job, n, offset, inserted);
            && offset <= end.offset <= Covered(end, job) <= |job.file| && AllGood(job, offset, Covered(end, job))
            && At(end.world.index, id) ==
               if id in end.world.table then DocAfter(w, job, offset, end, k, id) else At(w.index, id)
    decreases |job.file| - offset, if n == 0 then 1 else 0
  {
    hide ChunkStep, Agrees, DocOver, Sends, DocAfter, UniqueKeys, ProposedRows, Describes;
    LoopShape(w, job, n, offset, inserted);
    var to, end := ChunkEnd(job, offset), ChunkLoop(w, job, n, offset, inserted);
    if !(n > 0 && offset == |job.file|) && Readable(job, offset, to) {
      var rows := ProposedRows(job, offset, to);
      var (w', r) := ChunkStep(w, rows, job.clock(n), job.env(n));
      if r.Ok? {
        ChunkKeepsIndexInv(w, rows, job.clock(n), job.env(n));
        LoopDocs(w', job, n + 1, to, inserted + r.value, k, id);
        forall x | x in w'.table
          ensures x in end.world.table && KeyOf(end.world.table[x].values) == KeyOf(w'.table[x].values)
        {
          LoopKeepsKey(w', job, n + 1, to, inserted + r.value, x);
        }
        DeliveredDocs(w, rows, job.clock(n), job.env(n), end.world.table, k, id);
        if id in end.world.table {
          DocAfterJoins(w, w', job, offset, to, end, k, id);
        }
      } else {
        EndingDocs(w, rows, job.clock(n), job.env(n), k, id);
        EndingDocAfter(w, job, offset, end, k, id);
      }
    } else {
      EndingDocAfter(w, job, offset, end, k, id);
    }
  }

  // The chunk that ended the upload.
  lemma EndingDocs(w: World, ps: seq<Proposed>, now: Instant, env: Env, k: Key, id: Id)
    requires IndexInv(w) && ChunkStep(w, ps, now, env).1.Err? && KeyIs(ChunkStep(w, ps, now, env).0.table, id, k)
    ensures var (w', r) := ChunkStep(w, ps, now, env);
            At(w'.index, id) ==
            if r.error == IndexDown && id in w'.table && Sends(env.replies, id) then DocOver(At(w.index, id), ps, k, id)
            else At(w.index, id)
  {
    hide Sends, DocOver, Agrees, IndexAfter;
    if BulkUpsert(w.table, ps, now, env.dbOk).Ok? {
      ChunkDocs(w, ps, now, env, k, id);
    } else {
      BulkUpsertErrors(w.table, ps, now, env.dbOk);
    }
  }

  // ---------- the ids of the covered rows ----------

  // The id of a key after an upload: the one it had, or the uuid of its first row.
  ghost function UploadTarget(t: Table, rows: seq<Proposed>, k: Key): Id
    requires UniqueKeys(t) && (HasKey(t, k) || FirstAt(rows, k) < |rows|)
  {
    if HasKey(t, k) then IdOf(t, k) else rows[FirstAt(rows, k)].id
  }

  lemma FirstAtConcat(a: seq<Proposed>, b: seq<Proposed>, k: Key)
    ensures FirstAt(a + b, k) == if FirstAt(a, k) < |a| then FirstAt(a, k) else |a| + FirstAt(b, k)
  {
    var x, y, z := FirstAt(a + b, k), FirstAt(a, k), FirstAt(b, k);
    assert forall i :: 0 <= i < |b| ==> (a + b)[|a| + i] == b[i];
    assert forall i :: 0 <= i < |a| ==> (a + b)[i] == a[i];
    assert y < |a| ==> KeyOf((a + b)[y].values) == k;
    assert z < |b| ==> KeyOf((a + b)[|a| + z].values) == k;
    assert x < |a| ==> KeyOf(a[x].values) == k;
    assert |a| <= x < |a| + |b| ==> KeyOf(b[x - |a|].values) == k;
  }

  // After the rows were written, the key is present if it was or if one of them has it, and
  // under that id.
  ghost predicate Targets(t: Table, t': Table, rows: seq<Proposed>, k: Key) {
    && UniqueKeys(t) && UniqueKeys(t')
    && (HasKey(t', k) <==> HasKey(t, k) || FirstAt(rows, k) < |rows|)
    && (HasKey(t', k) ==> IdOf(t', k) == UploadTarget(t, rows, k))
  }

  lemma TargetsTwice(t: Table, a: seq<Proposed>, t1: Table, b: seq<Proposed>, t': Table, k: Key)
    requires Targets(t, t1, a, k) && Targets(t1, t', b, k)
    ensures Targets(t, t', a + b, k)
  {
    hide HasKey, UniqueKeys;
    FirstAtConcat(a, b, k);
  }

  lemma NoTargets(t: Table, k: Key)
    requires UniqueKeys(t)
    ensures Targets(t, t, [], k)
  {
    hide HasKey;
  }

  lemma NewKeys(w: World, ps: seq<Proposed>, now: Instant, env: Env, k: Key)
    requires IndexInv(w) && HasKey(ChunkStep(w, ps, now, env).0.table, k) && !HasKey(w.table, k)
    ensures FirstAt(ps, k) < |ps|
  {
    hide BulkUpsert, Agrees, IndexAfter, Sends, Rewrites;
    var t' := ChunkStep(w, ps, now, env).0.table;
    var id := IdOf(t', k);
    ChunkIsConfined(w, ps, now, env);
    assert id in TargetIds(w.table, ps);
    var p :| p in ps && TargetId(w.table, p) == id;
    var j :| 0 <= j < |ps| && ps[j] == p;
    WrittenRow(w, ps, now, env, j);
  }

  lemma FirstRowTarget(w: World, ps: seq<Proposed>, now: Instant, env: Env, k: Key)
    requires IndexInv(w) && BulkUpsert(w.table, ps, now, env.dbOk).Ok? && FirstAt(ps, k) < |ps|
    ensures var t' := ChunkStep(w, ps, now, env).0.table;
            HasKey(t', k) && IdOf(t', k) == UploadTarget(w.table, ps, k)
  {
    hide BulkUpsert, Agrees, IndexAfter, Sends, Rewrites, ChunkStep;
    var i := FirstAt(ps, k);
    WrittenRow(w, ps, now, env, i);
    IdOfIs(ChunkStep(w, ps, now, env).0.table, TargetId(w.table, ps[i]));
  }

  lemma ChunkTargets(w: World, ps: seq<Proposed>, now: Instant, env: Env, k: Key)
    requires IndexInv(w) && BulkUpsert(w.table, ps, now, env.dbOk).Ok?
    ensures Targets(w.table, ChunkStep(w, ps, now, env).0.table, ps, k)
  {
    hide HasKey, BulkUpsert, Agrees, IndexAfter;
    if HasKey(w.table, k) {
      UpsertKeepsIds(w.table, ps, now, env.dbOk, k);
    } else if FirstAt(ps, k) < |ps| {
      FirstRowTarget(w, ps, now, env, k);
    } else if HasKey(ChunkStep(w, ps, now, env).0.table, k) {
      NewKeys(w, ps, now, env, k);
    }
  }

  lemma OkChunkTargets(w: World, ps: seq<Proposed>, now: Instant, env: Env, k: Key)
    requires IndexInv(w) && ChunkStep(w, ps, now, env).1.Ok?
    ensures Targets(w.table, ChunkStep(w, ps, now, env).0.table, ps, k)
  {
    hide Targets, Agrees;
    ChunkTargets(w, ps, now, env, k);
  }

  lemma EndingTargets(w: World, ps: seq<Proposed>, now: Instant, env: Env, k: Key)
    requires IndexInv(w) && ChunkStep(w, ps, now, env).1.Err?
    ensures var (w', r) := ChunkStep(w, ps, now, env);
            if r.error == IndexDown then Targets(w.table, w'.table, ps, k) else w' == w
  {
    hide Targets, Agrees, IndexAfter;
    if BulkUpsert(w.table, ps, now, env.dbOk).Ok? {
      ChunkTargets(w, ps, now, env, k);
    } else {
      BulkUpsertErrors(w.table, ps, now, env.dbOk);
    }
  }

  lemma {:induction false} LoopTargets(w: World, job: Job, n: nat, offset: nat, inserted: nat, k: Key)
    requires IndexInv(w) && offset <= |job.file|
    ensures var end := ChunkLoop(w, job, n, offset, inserted);
            && offset <= Covered(end, job) && AllGood(job, offset, Covered(end, job))
            && Targets(w.table, end.world.table, ProposedRows(job, offset, Covered(end, job)), k)
    decreases |job.file| - offset, if n == 0 then 1 else 0
  {
    hide ChunkStep, Agrees, Targets;
    LoopShape(w, job, n, offset, inserted);
    NoTargets(w.table, k);
    var to, end := ChunkEnd(job, offset), ChunkLoop(w, job, n, offset, inserted);
    if !(n > 0 && offset == |job.file|) && Readable(job, offset, to) {
      var rows := ProposedRows(job, offset, to);
      var (w', r) := ChunkStep(w, rows, job.clock(n), job.env(n));
      if r.Ok? {
        ChunkKeepsIndexInv(w, rows, job.clock(n), job.env(n));
        OkChunkTargets(w, rows, job.clock(n), job.env(n), k);
        LoopTargets(w', job, n + 1, to, inserted + r.value, k);
        var rest := ProposedRows(job, to, Covered(end, job));
        ProposedRowsConcat(job, offset, to, Covered(end, job));
        TargetsTwice(w.table, rows, w'.table, rest, end.world.table, k);
      } else {
        EndingTargets(w, rows, job.clock(n), job.env(n), k);
      }
    }
  }

  // ---------- what an upload leaves alone ----------

  // No row of the sequence has the key that the id ends up with.
  ghost predicate Beside(t: Table, rows: seq<Proposed>, id: Id) {
    id in t ==> LastAt(rows, KeyOf(t[id].values)) < 0
  }

  lemma ChunkLeavesRow(w: World, ps: seq<Proposed>, now: Instant, env: Env, t: Table, id: Id)
    requires IndexInv(w) && Beside(t, ps, id)
    requires forall x :: x in ChunkStep(w, ps, now, env).0.table ==>
               x in t && KeyOf(t[x].values) == KeyOf(ChunkStep(w, ps, now, env).0.table[x].values)
    ensures SameRow(w.table, ChunkStep(w, ps, now, env).0.table, id)
  {
    hide BulkUpsert, Agrees, IndexAfter, Sends, Rewrites;
    ChunkIsConfined(w, ps, now, env);
    if BulkUpsert(w.table, ps, now, env.dbOk).Ok? && id in TargetIds(w.table, ps) {
      var p :| p in ps && TargetId(w.table, p) == id;
      var i :| 0 <= i < |ps| && ps[i] == p;
      WrittenRow(w, ps, now, env, i);
    }
  }

  // A chunk whose rows reach the table only if its statement was committed.
  lemma EndingLeavesRow(w: World, ps: seq<Proposed>, now: Instant, env: Env, id: Id)
    requires IndexInv(w) && ChunkStep(w, ps, now, env).1.Err?
    requires ChunkStep(w, ps, now, env).1 == Err(IndexDown) ==> Beside(ChunkStep(w, ps, now, env).0.table, ps, id)
    ensures SameRow(w.table, ChunkStep(w, ps, now, env).0.table, id)
  {
    hide Agrees, IndexAfter, SameRow;
    SameRowTwice(w.table, w.table, w.table, id);
    if BulkUpsert(w.table, ps, now, env.dbOk).Ok? {
      ChunkLeavesRow(w, ps, now, env, ChunkStep(w, ps, now, env).0.table, id);
    } else {
      BulkUpsertErrors(w.table, ps, now, env.dbOk);
    }
  }

  lemma {:induction false} LoopLeavesRow(w: World, job: Job, n: nat, offset: nat, inserted: nat, id: Id)
    requires IndexInv(w) && offset <= |job.file|
    requires var end := ChunkLoop(w, job, n, offset, inserted);
             && offset <= Covered(end, job) && AllGood(job, offset, Covered(end, job))
             && Beside(end.world.table, ProposedRows(job, offset, Covered(end, job)), id)
    ensures SameRow(w.table, ChunkLoop(w, job, n, offset, inserted).world.table, id)
    decreases |job.file| - offset, if n == 0 then 1 else 0
  {
    hide ChunkStep, Agrees, SameRow, Beside, ProposedRows, UniqueKeys;
    var to, end := ChunkEnd(job, offset), ChunkLoop(w, job, n, offset, inserted);
    if !(n > 0 && offset == |job.file|) && Readable(job, offset, to) {
      var rows := ProposedRows(job, offset, to);
      var (w', r) := ChunkStep(w, rows, job.clock(n), job.env(n));
      if r.Ok? {
        ChunkKeepsIndexInv(w, rows, job.clock(n), job.env(n));
        LoopShape(w', job, n + 1, to, inserted + r.value);
        ProposedRowsConcat(job, offset, to, Covered(end, job));
        BesideParts(end.world.table, rows, ProposedRows(job, to, Covered(end, job)), id);
        forall x | x in w'.table
          ensures x in end.world.table && KeyOf(end.world.table[x].values) == KeyOf(w'.table[x].values)
        {
          LoopKeepsKey(w', job, n + 1, to, inserted + r.value, x);
        }
        ChunkLeavesRow(w, rows, job.clock(n), job.env(n), end.world.table, id);
        LoopLeavesRow(w', job, n + 1, to, inserted + r.value, id);
        SameRowTwice(w.table, w'.table, end.world.table, id);
      } else {
        EndingLeavesRow(w, rows, job.clock(n), job.env(n), id);
      }
    } else {
      SameRowTwice(w.table, w.table, w.table, id);
    }
  }

  lemma SameRowTwice(t: Table, t1: Table, t': Table, id: Id)
    ensures SameRow(t, t, id)
    ensures SameRow(t, t1, id) && SameRow(t1, t', id) ==> SameRow(t, t', id)
  {
  }

  lemma BesideParts(t: Table, a: seq<Proposed>, b: seq<Proposed>, id: Id)
    requires Beside(t, a + b, id)
    ensures Beside(t, a, id) && Beside(t, b, id)
  {
    if id in t {
      LastAtConcat(a, b, KeyOf(t[id].values));
    }
  }

  // ---------- the answers that an upload changes ----------

  // The feed is made for the upload, so no row carries it yet.
  ghost predicate NewFeed(t: Table, job: Job) {
    forall id :: id in t ==> t[id].prov.feed != Some(job.feed)
  }

  // The key of data row i.
  ghost function KeyAt(job: Job, i: nat): Key
    requires i < |job.file| && job.file[i].Good?
  {
    KeyOf(ProposedAt(job, i).values)
  }

  // A covered row stands under its target id, marked with the feed.
  lemma CoveredRow(w: World, job: Job, i: nat)
    requires IndexInv(w)
    requires i < Covered(ChunkLoop(w, job, 0, 0, 0), job) <= |job.file|
    requires AllGood(job, 0, Covered(ChunkLoop(w, job, 0, 0, 0), job))
    ensures var t := ChunkLoop(w, job, 0, 0, 0).world.table;
            var rows := ProposedRows(job, 0, Covered(ChunkLoop(w, job, 0, 0, 0), job));
            && HasKey(t, KeyAt(job, i)) && FirstAt(rows, KeyAt(job, i)) < |rows|
            && var id := UploadTarget(w.table, rows, KeyAt(job, i));
               && id in t && KeyOf(t[id].values) == KeyAt(job, i) && t[id].prov.feed == Some(job.feed)
               && IdOf(t, KeyAt(job, i)) == id
  {
    hide ChunkLoop, HasKey;
    var end := ChunkLoop(w, job, 0, 0, 0);
    var rows, k := ProposedRows(job, 0, Covered(end, job)), KeyAt(job, i);
    assert KeyOf(rows[i].values) == k;
    LoopTargets(w, job, 0, 0, 0, k);
    UploadStoresLeadingChunks(w, job);
    ContentAt(end.world.table, k);
    OverlayLastWins(ContentOf(w.table), rows, k);
    assert rows[LastAt(rows, k)] == ProposedAt(job, LastAt(rows, k));
  }

  // How far the upload came.
  ghost predicate Reached(job: Job, end: End) {
    end.offset <= |job.file| && end.offset <= Covered(end, job) <= |job.file| && AllGood(job, 0, Covered(end, job))
  }

  // The id under which data row i stands after the upload.
  ghost function TargetAt(w: World, job: Job, end: End, i: nat): Id
    requires UniqueKeys(w.table) && Reached(job, end) && i < Covered(end, job)
  {
    var rows := ProposedRows(job, 0, Covered(end, job));
    assert KeyOf(rows[i].values) == KeyAt(job, i);
    UploadTarget(w.table, rows, KeyAt(job, i))
  }

  // The document that the upload leaves there.
  ghost function DocAt(w: World, job: Job, end: End, i: nat): Option<Doc>
    requires UniqueKeys(w.table) && Reached(job, end) && i < Covered(end, job)
  {
    DocAfter(w, job, 0, end, KeyAt(job, i), TargetAt(w, job, end, i))
  }

  // Wherever an upload stops, and whether it returns or not: it changes the answers to a
  // request exactly when, for some row it covered, the request sees the document that stood
  // under the row's id before or the one that the upload left there.
  lemma UploadKeepsAnswersExactlyWhen(w: World, job: Job, r: Request)
    requires IndexInv(w) && NewFeed(w.table, job)
    ensures var end := ChunkLoop(w, job, 0, 0, 0);
            && Reached(job, end)
            && (SameAnswers(w, end.world, r) <==>
                forall i :: 0 <= i < Covered(end, job) ==>
                  Unseen(r, At(w.index, TargetAt(w, job, end, i)), DocAt(w, job, end, i), false))
  {
    hide ChunkLoop, SameAnswers, Unseen, Agrees, SameRow, TargetAt, DocAt, Covered;
    var end := ChunkLoop(w, job, 0, 0, 0);
    LoopShape(w, job, 0, 0, 0);
    var ids := set i | 0 <= i < Covered(end, job) :: TargetAt(w, job, end, i);
    UploadIsConfined(w, job, ids);
    SameAnswersExactlyWhen(w, end.world, r, ids);
    forall i | 0 <= i < Covered(end, job)
      ensures !SameRow(w.table, end.world.table, TargetAt(w, job, end, i))
      ensures At(end.world.index, TargetAt(w, job, end, i)) == DocAt(w, job, end, i)
    {
      CoveredDoc(w, job, i);
    }
  }

  // The document and the row under a covered row's id.
  lemma CoveredDoc(w: World, job: Job, i: nat)
    requires IndexInv(w) && NewFeed(w.table, job)
    requires Reached(job, ChunkLoop(w, job, 0, 0, 0)) && i < Covered(ChunkLoop(w, job, 0, 0, 0), job)
    ensures var end := ChunkLoop(w, job, 0, 0, 0);
            && !SameRow(w.table, end.world.table, TargetAt(w, job, end, i))
            && At(end.world.index, TargetAt(w, job, end, i)) == DocAt(w, job, end, i)
  {
    hide ChunkLoop, HasKey, DocAfter, KeyAt, Agrees, UploadTarget;
    CoveredRow(w, job, i);
    LoopDocs(w, job, 0, 0, 0, KeyAt(job, i), TargetAt(w, job, ChunkLoop(w, job, 0, 0, 0), i));
  }

  lemma UploadIsConfined(w: World, job: Job, ids: set<Id>)
    requires IndexInv(w)
    requires var end := ChunkLoop(w, job, 0, 0, 0);
             Reached(job, end) && forall i :: 0 <= i < Covered(end, job) ==> TargetAt(w, job, end, i) in ids
    ensures Confined(w, ChunkLoop(w, job, 0, 0, 0).world, ids)
  {
    hide ChunkLoop, SameRow, TargetAt, Agrees;
    var end := ChunkLoop(w, job, 0, 0, 0);
    forall id | id !in ids
      ensures At(end.world.index, id) == At(w.index, id) && SameRow(w.table, end.world.table, id)
    {
      OutsideIsBeside(w, job, ids, id);
      LoopLeavesRow(w, job, 0, 0, 0, id);
      LoopLeavesDoc(w, job, id);
    }
  }

  lemma CoveredId(w: World, job: Job, id: Id) returns (i: nat)
    requires IndexInv(w)
    requires var end := ChunkLoop(w, job, 0, 0, 0);
             Reached(job, end) && !Beside(end.world.table, ProposedRows(job, 0, Covered(end, job)), id)
    ensures var end := ChunkLoop(w, job, 0, 0, 0); i < Covered(end, job) && TargetAt(w, job, end, i) == id
  {
    hide ChunkLoop, HasKey, UploadTarget, Agrees;
    var end := ChunkLoop(w, job, 0, 0, 0);
    var rows, t := ProposedRows(job, 0, Covered(end, job)), end.world.table;
    i := LastAt(rows, KeyOf(t[id].values));
    CoveredRow(w, job, i);
    IdOfIs(t, id);
  }

  lemma OutsideIsBeside(w: World, job: Job, ids: set<Id>, id: Id)
    requires IndexInv(w) && id !in ids
    requires var end := ChunkLoop(w, job, 0, 0, 0);
             Reached(job, end) && forall i :: 0 <= i < Covered(end, job) ==> TargetAt(w, job, end, i) in ids
    ensures var end := ChunkLoop(w, job, 0, 0, 0);
            Beside(end.world.table, ProposedRows(job, 0, Covered(end, job)), id)
  {
    hide ChunkLoop, TargetAt, Beside, Agrees;
    var end := ChunkLoop(w, job, 0, 0, 0);
    if !Beside(end.world.table, ProposedRows(job, 0, Covered(end, job)), id) {
      var i := CoveredId(w, job, id);
    }
  }

  lemma LoopLeavesDoc(w: World, job: Job, id: Id)
    requires IndexInv(w)
    requires var end := ChunkLoop(w, job, 0, 0, 0);
             Reached(job, end) && Beside(end.world.table, ProposedRows(job, 0, Covered(end, job)), id)
    ensures At(ChunkLoop(w, job, 0, 0, 0).world.index, id) == At(w.index, id)
  {
    hide ChunkLoop, Sends, Agrees;
    var end := ChunkLoop(w, job, 0, 0, 0);
    if id in end.world.table {
      var k := KeyOf(end.world.table[id].values);
      LoopDocs(w, job, 0, 0, 0, k, id);
      ProposedRowsConcat(job, 0, end.offset, Covered(end, job));
      LastAtConcat(ProposedRows(job, 0, end.offset), ProposedRows(job, end.offset, Covered(end, job)), k);
    } else {
      var k: Key :| true;
      LoopDocs(w, job, 0, 0, 0, k, id);
    }
  }
}
