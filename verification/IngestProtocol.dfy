// Ingest, edit and retention over the pricing table and the search index: every step first
// commits to the table and then copies to the index, and either part may fail.
module IngestProtocol {
  import opened Prelude
  import opened Calendar
  import opened Records
  import opened IndexClient

  // ---------- the upsert statement ----------

  ghost predicate UniqueKeys(t: Table) {
    forall i, j :: i in t && j in t && SamePrice(t[i].values, t[j].values) ==> i == j
  }

  predicate HasKey(t: Table, k: Key) {
    exists i | i in t :: KeyOf(t[i].values) == k
  }

  function IdOf(t: Table, k: Key): (id: Id)
    requires UniqueKeys(t) && HasKey(t, k)
    ensures id in t && KeyOf(t[id].values) == k
  {
    var i :| i in t && KeyOf(t[i].values) == k;
    i
  }

  // A row of the INSERT: a fresh uuid, the business columns and where they come from.
  datatype Proposed = Proposed(id: Id, values: Values, prov: Provenance)

  datatype Failure =
    | SameKeyTwice
    | NegativePrice
    | IdTaken
    | DatabaseDown
    | NotFound
    | Conflict
    | IndexDown
    | BadChunk

  // A new row, or on a key conflict new contents of every non-key column but the id and the
  // creation time.
  function UpsertRow(t: Table, p: Proposed, now: Instant): (Table, Id)
    requires UniqueKeys(t)
  {
    var k := KeyOf(p.values);
    if HasKey(t, k) then
      var id := IdOf(t, k);
      (t[id := Row(p.values, p.prov, now, t[id].createdAt, now)], id)
    else (t[p.id := Row(p.values, p.prov, now, now, now)], p.id)
  }

  // Whether one proposed row is acceptable to the statement that already touched some keys.
  function RowFailure(t: Table, p: Proposed, touched: set<Key>): Option<Failure> {
    if p.values.cents < 0 then Some(NegativePrice)
    else if KeyOf(p.values) in touched then Some(SameKeyTwice)
    else if !HasKey(t, KeyOf(p.values)) && p.id in t then Some(IdTaken)
    else None
  }

  lemma UpsertRowKeepsUnique(t: Table, p: Proposed, now: Instant)
    requires UniqueKeys(t) && (HasKey(t, KeyOf(p.values)) || p.id !in t)
    ensures UniqueKeys(UpsertRow(t, p, now).0)
  {
  }

  // One upsert statement over all rows: it fails as a whole.
  function Upsert(t: Table, ps: seq<Proposed>, now: Instant, touched: set<Key>): (r: Result<(Table, seq<Canonical>), Failure>)
    requires UniqueKeys(t)
    ensures r.Ok? ==> UniqueKeys(r.value.0)
    decreases |ps|
  {
    if ps == [] then Ok((t, []))
    else
      var p := ps[0];
      match RowFailure(t, p, touched)
      case Some(failure) => Err(failure)
      case None =>
        UpsertRowKeepsUnique(t, p, now);
        var (t', id) := UpsertRow(t, p, now);
        match Upsert(t', ps[1..], now, touched + {KeyOf(p.values)})
        case Err(failure) => Err(failure)
        case Ok((final, rest)) => Ok((final, [Canonical(id, p.values)] + rest))
  }

  // ---------- the state ----------

  datatype Audit = Audit(record: Id, user: Id, reason: Option<string>, before: Values, after: Values)

  // The table, the audit trail and the index, with four history variables: the ids whose
  // last index step failed, the ids ever committed, the ids whose last write was an ingest,
  // and for each audit whether an ingest wrote the row since its previous audit.
  datatype World = World(
    table: Table, audits: seq<Audit>, index: Index,
    dirty: set<Id>, seen: set<Id>, ingested: set<Id>, gaps: seq<bool>)

  // The part of the environment a step meets: whether the database commits, and what the
  // index does at each call.
  datatype Env = Env(dbOk: bool, replies: seq<Reply>)

  // bulk_upsert_by_store_sku_date and the commit that follows it: the statement is executed
  // as a whole or refused, and counts only once it is committed.
  function BulkUpsert(t: Table, ps: seq<Proposed>, now: Instant, dbOk: bool): (r: Result<(Table, seq<Canonical>), Failure>)
    requires UniqueKeys(t)
    ensures r.Ok? ==> UniqueKeys(r.value.0)
  {
    if ps == [] then Ok((t, []))
    else
      var executed := Upsert(t, ps, now, {});
      if executed.Ok? && !dbOk then Err(DatabaseDown) else executed
  }

  // persist_and_index_chunk: upsert, commit, then index.
  function ChunkStep(w: World, ps: seq<Proposed>, now: Instant, env: Env): (r: (World, Result<nat, Failure>))
    requires UniqueKeys(w.table)
    ensures UniqueKeys(r.0.table)
  {
    match BulkUpsert(w.table, ps, now, env.dbOk)
    case Err(failure) => (w, Err(failure))
    case Ok((t, records)) =>
      var ids := CanonicalIds(records);
      var ok := records == [] || Delivered(env.replies);
      (w.(table := t,
          index := IndexAfter(w.index, DocsOf(records), env.replies),
          dirty := Doubt(w.dirty, ids, ok),
          seen := w.seen + ids,
          ingested := w.ingested + ids),
       if ok then Ok(|records|) else Err(IndexDown))
  }

  // The requested columns; None leaves a column as it is.
  datatype Edit = Edit(
    country: Option<string>, store: Option<string>, sku: Option<string>, product: Option<string>,
    cents: Option<int>, currency: Option<string>, taxInclusive: Option<bool>, date: Option<Date>,
    reason: Option<string>)

  function Or<T>(o: Option<T>, default: T): T {
    if o.Some? then o.value else default
  }

  function Edited(v: Values, e: Edit): Values {
    Values(Or(e.country, v.country), Or(e.store, v.store), Or(e.sku, v.sku), Or(e.product, v.product),
           Or(e.cents, v.cents), Or(e.currency, v.currency), Or(e.taxInclusive, v.taxInclusive), Or(e.date, v.date))
  }

  function EditedRow(r: Row, user: Id, e: Edit, now: Instant): Row {
    r.(values := Edited(r.values, e),
       prov := r.prov.(actor := Some(user), source := Manual, reason := e.reason),
       updatedAt := now)
  }

  function TakenByOther(t: Table, id: Id, k: Key): bool {
    exists j | j in t :: j != id && KeyOf(t[j].values) == k
  }

  function EditFailure(t: Table, id: Id, e: Edit, dbOk: bool): Option<Failure> {
    if id !in t then Some(NotFound)
    else if Edited(t[id].values, e).cents < 0 then Some(NegativePrice)
    else if TakenByOther(t, id, KeyOf(Edited(t[id].values, e))) then Some(Conflict)
    else if !dbOk then Some(DatabaseDown)
    else None
  }

  // update_record: update the row and add its audit, commit, then update the document.
  function EditStep(w: World, id: Id, user: Id, e: Edit, now: Instant, env: Env): (World, Result<Row, Failure>) {
    match EditFailure(w.table, id, e, env.dbOk)
    case Some(failure) => (w, Err(failure))
    case None =>
      var row := EditedRow(w.table[id], user, e, now);
      var (index, ok) := UpdateDoc(w.index, id, row.values, ReplyAt(env.replies, 0));
      (w.(table := w.table[id := row],
          audits := w.audits + [Audit(id, user, e.reason, w.table[id].values, row.values)],
          gaps := w.gaps + [id in w.ingested],
          ingested := w.ingested - {id},
          index := index,
          dirty := Doubt(w.dirty, {id}, ok)),
       if ok then Ok(row) else Err(IndexDown))
  }

  function Expired(t: Table, cutoff: int): set<Id> {
    set id | id in t && Ordinal(t[id].values.date) < cutoff
  }

  function Audited(audits: seq<Audit>): set<Id> {
    set a | a in audits :: a.record
  }

  // run_retention: one DELETE. An audit references its row without cascade, so hitting an
  // audited row fails the whole statement. The index is not told.
  function RetentionStep(w: World, cutoff: int, dbOk: bool): (World, Result<nat, Failure>) {
    var expired := Expired(w.table, cutoff);
    if expired * Audited(w.audits) != {} then (w, Err(Conflict))
    else if !dbOk then (w, Err(DatabaseDown))
    else (w.(table := w.table - expired), Ok(|expired|))
  }

  // ---------- runs ----------

  datatype Event =
    | Ingest(rows: seq<Proposed>, now: Instant, env: Env)
    | Amend(id: Id, user: Id, edit: Edit, now: Instant, env: Env)
    | Retire(cutoff: int, dbOk: bool)

  function Step(w: World, e: Event): (r: World)
    requires UniqueKeys(w.table)
    ensures UniqueKeys(r.table)
  {
    match e
    case Ingest(rows, now, env) => ChunkStep(w, rows, now, env).0
    case Amend(id, user, edit, now, env) =>
      EditStepKeepsUnique(w, id, user, edit, now, env);
      EditStep(w, id, user, edit, now, env).0
    case Retire(cutoff, dbOk) => RetentionStep(w, cutoff, dbOk).0
  }

  // The world after the events, whatever fails on the way.
  ghost function Run(w: World, es: seq<Event>): (r: World)
    requires UniqueKeys(w.table)
    ensures UniqueKeys(r.table)
    decreases |es|
  {
    if es == [] then w else Run(Step(w, es[0]), es[1..])
  }

  ghost predicate Agrees(w: World, id: Id)
    requires id in w.table
  {
    id in w.index && Describes(w.index[id], id, w.table[id].values)
  }

  function NewestAudit(audits: seq<Audit>, id: Id): Option<Audit> {
    if audits == [] then None
    else if audits[|audits| - 1].record == id then Some(audits[|audits| - 1])
    else NewestAudit(audits[..|audits| - 1], id)
  }

  // Table and index: unique keys, agreement outside the dirty ids, no document without a
  // committed row behind it, documents under their own id.
  ghost predicate IndexInv(w: World) {
    && UniqueKeys(w.table)
    && (forall id :: id in w.table && id !in w.dirty ==> Agrees(w, id))
    && (forall id :: id in w.table ==> id in w.seen && w.table[id].values.cents >= 0)
    && (forall id :: id in w.index ==> id in w.seen && w.index[id].dbId == id)
  }

  // Audits: each names a live row; a row is marked manual exactly when its last write was an
  // edit, and then its newest audit holds its values; without an ingest in between, an
  // audit starts from the values its predecessor left.
  ghost predicate AuditInv(w: World) {
    && (forall j :: 0 <= j < |w.audits| ==> w.audits[j].record in w.table)
    && (forall id :: id in w.table ==> (id in w.ingested <==> w.table[id].prov.source.Ingest?))
    && (forall id :: id in w.table && w.table[id].prov.source.Manual? ==>
          NewestAudit(w.audits, id).Some? && NewestAudit(w.audits, id).value.after == w.table[id].values)
    && Chained(w.audits, w.gaps)
  }

  // The newest audit of the row among `earlier` left the values that `a` starts from.
  ghost predicate Continues(earlier: seq<Audit>, a: Audit) {
    var previous := NewestAudit(earlier, a.record);
    previous.Some? && previous.value.after == a.before
  }

  ghost predicate Chained(audits: seq<Audit>, gaps: seq<bool>) {
    |gaps| == |audits| && forall j :: 0 <= j < |audits| && !gaps[j] ==> Continues(audits[..j], audits[j])
  }

  ghost predicate Inv(w: World) {
    IndexInv(w) && AuditInv(w)
  }

  const EMPTY := World(map[], [], map[], {}, {}, {}, [])

  // ---------- what one upsert statement does ----------

  ghost predicate SameKeysApart(ps: seq<Proposed>) {
    forall i, j :: 0 <= i < j < |ps| ==> !SamePrice(ps[i].values, ps[j].values)
  }

  ghost predicate Untouched(ps: seq<Proposed>, touched: set<Key>) {
    forall i :: 0 <= i < |ps| ==> KeyOf(ps[i].values) !in touched
  }

  // Nothing is lost, an id keeps its key and creation time, and only `ids` change or appear,
  // stamped with the statement's time.
  ghost predicate Kept(t: Table, t': Table, ids: set<Id>, now: Instant) {
    && (forall id :: id in t ==>
          id in t' && SamePrice(t'[id].values, t[id].values) && t'[id].createdAt == t[id].createdAt)
    && (forall id :: id in t' && id !in ids ==> id in t && t'[id] == t[id])
    && (forall id :: id in t' && id in ids ==>
          t'[id].updatedAt == now && t'[id].observedAt == now && (id !in t ==> t'[id].createdAt == now))
  }

  // The proposed row is stored under the id the statement returned for it.
  ghost predicate StoredAs(t: Table, p: Proposed, c: Canonical) {
    c.values == p.values && c.id in t && t[c.id].values == p.values && t[c.id].prov == p.prov && p.values.cents >= 0
  }

  ghost predicate AllStored(t: Table, ps: seq<Proposed>, records: seq<Canonical>) {
    && |records| == |ps|
    && forall i :: 0 <= i < |ps| ==> StoredAs(t, ps[i], records[i])
  }

  lemma CanonicalIdsCons(c: Canonical, rest: seq<Canonical>)
    ensures CanonicalIds([c] + rest) == {c.id} + CanonicalIds(rest)
  {
    var all := [c] + rest;
    assert all[0] == c && all[1..] == rest;
  }

  lemma UpsertRowMeans(t: Table, p: Proposed, now: Instant)
    requires UniqueKeys(t) && RowFailure(t, p, {}).None?
    ensures var (t', id) := UpsertRow(t, p, now);
            UniqueKeys(t') && Kept(t, t', {id}, now) && StoredAs(t', p, Canonical(id, p.values))
  {
  }

  // A row with another key than every row still to come is left alone by them.
  lemma StoredStays(t: Table, t': Table, p: Proposed, c: Canonical, ps: seq<Proposed>, rest: seq<Canonical>, now: Instant)
    requires StoredAs(t, p, c) && Kept(t, t', CanonicalIds(rest), now) && AllStored(t', ps, rest)
    requires forall i :: 0 <= i < |ps| ==> KeyOf(ps[i].values) != KeyOf(p.values)
    ensures c.id !in CanonicalIds(rest) && StoredAs(t', p, c)
  {
  }

  lemma AllStoredCons(t: Table, p: Proposed, c: Canonical, ps: seq<Proposed>, rest: seq<Canonical>)
    requires StoredAs(t, p, c) && AllStored(t, ps, rest)
    ensures AllStored(t, [p] + ps, [c] + rest)
  {
  }

  lemma SameKeysApartCons(p: Proposed, ps: seq<Proposed>)
    requires SameKeysApart(ps) && forall i :: 0 <= i < |ps| ==> KeyOf(ps[i].values) != KeyOf(p.values)
    ensures SameKeysApart([p] + ps)
  {
  }

  lemma KeptTwice(t: Table, t1: Table, t': Table, id: Id, ids: set<Id>, now: Instant)
    requires Kept(t, t1, {id}, now) && Kept(t1, t', ids, now) && id !in ids
    ensures Kept(t, t', {id} + ids, now)
  {
  }

  lemma NothingUpserted(t: Table, now: Instant, touched: set<Key>)
    ensures AllStored(t, [], []) && Kept(t, t, CanonicalIds([]), now)
    ensures SameKeysApart([]) && Untouched([], touched)
  {
  }

  lemma UntouchedCons(p: Proposed, ps: seq<Proposed>, touched: set<Key>)
    requires Untouched(ps, touched + {KeyOf(p.values)}) && KeyOf(p.values) !in touched
    ensures Untouched([p] + ps, touched)
    ensures forall i :: 0 <= i < |ps| ==> KeyOf(ps[i].values) != KeyOf(p.values)
  {
  }

  // What the statement over all rows did, from what it did for the first row and the rest.
  lemma UpsertStep(
    t: Table, p: Proposed, t1: Table, c: Canonical, ps: seq<Proposed>, t': Table, rest: seq<Canonical>, now: Instant, touched: set<Key>)
    requires Kept(t, t1, {c.id}, now) && StoredAs(t1, p, c)
    requires AllStored(t', ps, rest) && Kept(t1, t', CanonicalIds(rest), now)
    requires SameKeysApart(ps) && Untouched(ps, touched + {KeyOf(p.values)}) && KeyOf(p.values) !in touched
    ensures AllStored(t', [p] + ps, [c] + rest) && Kept(t, t', CanonicalIds([c] + rest), now)
    ensures SameKeysApart([p] + ps) && Untouched([p] + ps, touched)
  {
    hide CanonicalIds;
    UntouchedCons(p, ps, touched);
    StoredStays(t1, t', p, c, ps, rest, now);
    AllStoredCons(t', p, c, ps, rest);
    CanonicalIdsCons(c, rest);
    KeptTwice(t, t1, t', c.id, CanonicalIds(rest), now);
    SameKeysApartCons(p, ps);
  }

  lemma {:induction false} UpsertMeans(t: Table, ps: seq<Proposed>, now: Instant, touched: set<Key>)
    requires UniqueKeys(t) && Upsert(t, ps, now, touched).Ok?
    ensures var (t', records) := Upsert(t, ps, now, touched).value;
            AllStored(t', ps, records) && Kept(t, t', CanonicalIds(records), now)
    ensures SameKeysApart(ps) && Untouched(ps, touched)
    decreases |ps|
  {
    hide Kept, StoredAs, AllStored, SameKeysApart, Untouched, CanonicalIds, UpsertRow;
    if ps == [] {
      NothingUpserted(t, now, touched);
    } else {
      var p, others := ps[0], ps[1..];
      var (t1, id) := UpsertRow(t, p, now);
      UpsertRowMeans(t, p, now);
      UpsertMeans(t1, others, now, touched + {KeyOf(p.values)});
      var (t', rest) := Upsert(t1, others, now, touched + {KeyOf(p.values)}).value;
      UpsertStep(t, p, t1, Canonical(id, p.values), others, t', rest, now, touched);
      assert [p] + others == ps;
    }
  }

  lemma RecordsApart(t: Table, ps: seq<Proposed>, records: seq<Canonical>)
    requires AllStored(t, ps, records) && SameKeysApart(ps)
    ensures DistinctIds(DocsOf(records))
  {
    forall i, j | 0 <= i < j < |records|
      ensures records[i].id != records[j].id
    {
      assert StoredAs(t, ps[i], records[i]) && StoredAs(t, ps[j], records[j]);
    }
  }

  lemma BulkUpsertMeans(t: Table, ps: seq<Proposed>, now: Instant, dbOk: bool)
    requires UniqueKeys(t) && BulkUpsert(t, ps, now, dbOk).Ok?
    ensures var (t', records) := BulkUpsert(t, ps, now, dbOk).value;
            && AllStored(t', ps, records) && Kept(t, t', CanonicalIds(records), now)
            && DistinctIds(DocsOf(records))
    ensures SameKeysApart(ps)
  {
    if ps != [] {
      UpsertMeans(t, ps, now, {});
    }
    var (t', records) := BulkUpsert(t, ps, now, dbOk).value;
    RecordsApart(t', ps, records);
  }

  // Ids stay with their keys: an upsert never changes the id of a key that is present.
  lemma UpsertKeepsIds(t: Table, ps: seq<Proposed>, now: Instant, dbOk: bool, k: Key)
    requires UniqueKeys(t) && HasKey(t, k) && BulkUpsert(t, ps, now, dbOk).Ok?
    ensures var t' := BulkUpsert(t, ps, now, dbOk).value.0;
            HasKey(t', k) && IdOf(t', k) == IdOf(t, k)
  {
    BulkUpsertMeans(t, ps, now, dbOk);
    var id, t' := IdOf(t, k), BulkUpsert(t, ps, now, dbOk).value.0;
    assert id in t' && KeyOf(t'[id].values) == k;
  }

  // The id under which the table holds the proposed row once it is written.
  function TargetId(t: Table, p: Proposed): Id
    requires UniqueKeys(t)
  {
    if HasKey(t, KeyOf(p.values)) then IdOf(t, KeyOf(p.values)) else p.id
  }

  lemma TargetStays(t: Table, p: Proposed, now: Instant, q: Proposed)
    requires UniqueKeys(t) && RowFailure(t, p, {}).None? && KeyOf(p.values) != KeyOf(q.values)
    ensures UniqueKeys(UpsertRow(t, p, now).0) && TargetId(UpsertRow(t, p, now).0, q) == TargetId(t, q)
  {
    UpsertRowMeans(t, p, now);
    var (t', id) := UpsertRow(t, p, now);
    var k := KeyOf(q.values);
    if HasKey(t, k) {
      assert IdOf(t, k) in t' && KeyOf(t'[IdOf(t, k)].values) == k;
    }
  }

  // The ids returned are known beforehand: that of the row with the key, or the fresh one.
  lemma {:induction false} UpsertTargets(t: Table, ps: seq<Proposed>, now: Instant, touched: set<Key>, i: nat)
    requires UniqueKeys(t) && Upsert(t, ps, now, touched).Ok? && i < |ps|
    ensures var records := Upsert(t, ps, now, touched).value.1;
            i < |records| && records[i].id == TargetId(t, ps[i])
    decreases |ps|
  {
    hide Kept, StoredAs;
    UpsertMeans(t, ps, now, touched);
    var p := ps[0];
    UpsertRowMeans(t, p, now);
    if i > 0 {
      TargetStays(t, p, now, ps[i]);
      UpsertTargets(UpsertRow(t, p, now).0, ps[1..], now, touched + {KeyOf(p.values)}, i - 1);
    }
  }

  // ---------- the statement, told in columns ----------

  // No row of the table agrees with the values in country, store, sku and date.
  ghost predicate NewPrice(t: Table, v: Values) {
    forall id :: id in t ==> !SamePrice(t[id].values, v)
  }

  lemma NewPriceMeans(t: Table, v: Values)
    ensures NewPrice(t, v) <==> !HasKey(t, KeyOf(v))
  {
    if !NewPrice(t, v) {
      var id :| id in t && SamePrice(t[id].values, v);
      assert KeyOf(t[id].values) == KeyOf(v);
    }
  }

  // One row of a committed statement: it replaces the row that agrees with it, or is new.
  lemma UpsertedRow(t: Table, ps: seq<Proposed>, now: Instant, dbOk: bool, i: nat)
    requires UniqueKeys(t) && BulkUpsert(t, ps, now, dbOk).Ok? && i < |ps|
    ensures var (t', records) := BulkUpsert(t, ps, now, dbOk).value;
            var p := ps[i];
            && |records| == |ps| && records[i].values == p.values
            && (forall id :: id in t && SamePrice(t[id].values, p.values) ==>
                  records[i].id == id && id in t' && t'[id] == Row(p.values, p.prov, now, t[id].createdAt, now))
            && (NewPrice(t, p.values) ==>
                  records[i].id == p.id && p.id !in t && p.id in t' && t'[p.id] == Row(p.values, p.prov, now, now, now))
  {
    hide Upsert;
    var (t', records) := BulkUpsert(t, ps, now, dbOk).value;
    BulkUpsertMeans(t, ps, now, dbOk);
    UpsertTargets(t, ps, now, {}, i);
    NewPriceMeans(t, ps[i].values);
    assert StoredAs(t', ps[i], records[i]) && records[i] in records;
  }

  // The table after a committed statement: each row that agrees with a proposed one in
  // country, store, sku and date is replaced with it, under its id and creation time; each
  // other proposed row is new; the rest is as it was.
  lemma UpsertByColumns(t: Table, ps: seq<Proposed>, now: Instant, dbOk: bool)
    requires UniqueKeys(t) && BulkUpsert(t, ps, now, dbOk).Ok?
    ensures var t' := BulkUpsert(t, ps, now, dbOk).value.0;
            && (forall id, i :: id in t && 0 <= i < |ps| && SamePrice(t[id].values, ps[i].values) ==>
                  id in t' && t'[id] == Row(ps[i].values, ps[i].prov, now, t[id].createdAt, now))
            && (forall id :: id in t && (forall i :: 0 <= i < |ps| ==> !SamePrice(t[id].values, ps[i].values)) ==>
                  id in t' && t'[id] == t[id])
            && (forall i :: 0 <= i < |ps| && NewPrice(t, ps[i].values) ==>
                  ps[i].id in t' && t'[ps[i].id] == Row(ps[i].values, ps[i].prov, now, now, now))
            && (forall id :: id in t' && id !in t ==> exists i :: 0 <= i < |ps| && ps[i].id == id && NewPrice(t, ps[i].values))
  {
    hide BulkUpsert, NewPrice;
    var (t', records) := BulkUpsert(t, ps, now, dbOk).value;
    BulkUpsertMeans(t, ps, now, dbOk);
    forall i | 0 <= i < |ps|
      ensures NewPrice(t, ps[i].values) ==> records[i].id == ps[i].id && ps[i].id !in t
      ensures NewPrice(t, ps[i].values) ==> ps[i].id in t' && t'[ps[i].id] == Row(ps[i].values, ps[i].prov, now, now, now)
      ensures !NewPrice(t, ps[i].values) ==> records[i].id in t && SamePrice(t[records[i].id].values, ps[i].values)
    {
      UpsertedRow(t, ps, now, dbOk, i);
      SomeSamePrice(t, ps[i].values);
    }
    forall id, i | id in t && 0 <= i < |ps| && SamePrice(t[id].values, ps[i].values)
      ensures id in t' && t'[id] == Row(ps[i].values, ps[i].prov, now, t[id].createdAt, now)
    {
      UpsertedRow(t, ps, now, dbOk, i);
    }
    UnlistedIds(t, t', ps, records, now);
  }

  lemma SomeSamePrice(t: Table, v: Values)
    ensures !NewPrice(t, v) ==> exists id :: id in t && SamePrice(t[id].values, v)
  {
  }

  // Ids that the statement did not return keep their rows; those that it did belong to its rows.
  lemma UnlistedIds(t: Table, t': Table, ps: seq<Proposed>, records: seq<Canonical>, now: Instant)
    requires Kept(t, t', CanonicalIds(records), now) && |records| == |ps|
    requires forall i :: 0 <= i < |ps| && NewPrice(t, ps[i].values) ==> records[i].id == ps[i].id
    requires forall i :: 0 <= i < |ps| && !NewPrice(t, ps[i].values) ==>
               records[i].id in t && SamePrice(t[records[i].id].values, ps[i].values)
    requires forall i :: 0 <= i < |ps| && NewPrice(t, ps[i].values) ==> ps[i].id !in t
    ensures forall id :: id in t && (forall i :: 0 <= i < |ps| ==> !SamePrice(t[id].values, ps[i].values)) ==>
              id in t' && t'[id] == t[id]
    ensures forall id :: id in t' && id !in t ==> exists i :: 0 <= i < |ps| && ps[i].id == id && NewPrice(t, ps[i].values)
  {
    hide NewPrice, SamePrice;
    forall id | id in CanonicalIds(records)
      ensures exists i :: 0 <= i < |ps| && records[i].id == id
    {
      var i := RecordFor(records, id);
    }
  }

  // ---------- every step keeps the invariant ----------

  // The returned record of an id, and its document.
  lemma RecordFor(records: seq<Canonical>, id: Id) returns (i: nat)
    requires id in CanonicalIds(records)
    ensures i < |records| && records[i].id == id
    ensures DocsOf(records)[i] == DocOf(id, records[i].values) && DocsOf(records)[i] in DocsOf(records)
  {
    var c :| c in records && c.id == id;
    i :| 0 <= i < |records| && records[i] == c;
  }

  lemma DocIds(records: seq<Canonical>)
    ensures IdsOf(DocsOf(records)) == CanonicalIds(records)
  {
    var docs := DocsOf(records);
    forall id | id in IdsOf(docs)
      ensures id in CanonicalIds(records)
    {
      var d :| d in docs && d.dbId == id;
      var i :| 0 <= i < |docs| && docs[i] == d;
      assert records[i] in records;
    }
    forall id | id in CanonicalIds(records)
      ensures id in IdsOf(docs)
    {
      var i := RecordFor(records, id);
    }
  }

  // Agreement after the rows of `records` were stored and their documents sent.
  lemma IndexedAgree(w: World, w': World, ps: seq<Proposed>, records: seq<Canonical>, ok: bool, now: Instant)
    requires IndexInv(w)
    requires Kept(w.table, w'.table, CanonicalIds(records), now) && AllStored(w'.table, ps, records)
    requires Mixed(w.index, w'.index, DocsOf(records)) && (ok ==> HoldsAll(w'.index, DocsOf(records)))
    requires w'.dirty == Doubt(w.dirty, CanonicalIds(records), ok)
    ensures forall id :: id in w'.table && id !in w'.dirty ==> Agrees(w', id)
  {
    DocIds(records);
    forall id | id in w'.table && id !in w'.dirty
      ensures Agrees(w', id)
    {
      if id in CanonicalIds(records) {
        var i := RecordFor(records, id);
        assert StoredAs(w'.table, ps[i], records[i]);
      } else {
        assert Agrees(w, id);
      }
    }
  }

  lemma StoredSeen(w: World, w': World, ps: seq<Proposed>, records: seq<Canonical>, now: Instant)
    requires IndexInv(w)
    requires Kept(w.table, w'.table, CanonicalIds(records), now) && AllStored(w'.table, ps, records)
    requires w'.seen == w.seen + CanonicalIds(records)
    ensures forall id :: id in w'.table ==> id in w'.seen && w'.table[id].values.cents >= 0
  {
    forall id | id in w'.table
      ensures id in w'.seen && w'.table[id].values.cents >= 0
    {
      if id in CanonicalIds(records) {
        var i := RecordFor(records, id);
        assert StoredAs(w'.table, ps[i], records[i]);
      }
    }
  }

  lemma IndexedSeen(w: World, w': World, records: seq<Canonical>)
    requires IndexInv(w)
    requires Mixed(w.index, w'.index, DocsOf(records))
    requires w'.seen == w.seen + CanonicalIds(records)
    ensures forall id :: id in w'.index ==> id in w'.seen && w'.index[id].dbId == id
  {
    DocIds(records);
    forall id | id in w'.index
      ensures id in w'.seen && w'.index[id].dbId == id
    {
      if id in CanonicalIds(records) {
        var i := RecordFor(records, id);
      }
    }
  }

  lemma ChunkKeepsIndexInv(w: World, ps: seq<Proposed>, now: Instant, env: Env)
    requires IndexInv(w)
    ensures IndexInv(ChunkStep(w, ps, now, env).0)
  {
    if BulkUpsert(w.table, ps, now, env.dbOk).Ok? {
      var w' := ChunkStep(w, ps, now, env).0;
      var (t, records) := BulkUpsert(w.table, ps, now, env.dbOk).value;
      BulkUpsertMeans(w.table, ps, now, env.dbOk);
      IndexAfterMeans(w.index, DocsOf(records), env.replies);
      IndexedAgree(w, w', ps, records, records == [] || Delivered(env.replies), now);
      StoredSeen(w, w', ps, records, now);
      IndexedSeen(w, w', records);
    }
  }

  lemma ChunkKeepsAuditInv(w: World, ps: seq<Proposed>, now: Instant, env: Env)
    requires Inv(w) && forall i :: 0 <= i < |ps| ==> ps[i].prov.source.Ingest?
    ensures AuditInv(ChunkStep(w, ps, now, env).0)
  {
    if BulkUpsert(w.table, ps, now, env.dbOk).Ok? {
      var w' := ChunkStep(w, ps, now, env).0;
      var (t, records) := BulkUpsert(w.table, ps, now, env.dbOk).value;
      BulkUpsertMeans(w.table, ps, now, env.dbOk);
      forall id | id in w'.table
        ensures id in w'.ingested <==> w'.table[id].prov.source.Ingest?
        ensures w'.table[id].prov.source.Manual? ==> id in w.table && w'.table[id] == w.table[id]
      {
        if id in CanonicalIds(records) {
          var i := RecordFor(records, id);
          assert StoredAs(t, ps[i], records[i]);
        }
      }
    }
  }

  lemma EditKeepsUnique(t: Table, id: Id, row: Row)
    requires UniqueKeys(t) && id in t && !TakenByOther(t, id, KeyOf(row.values))
    ensures UniqueKeys(t[id := row])
  {
  }

  lemma EditStepKeepsUnique(w: World, id: Id, user: Id, e: Edit, now: Instant, env: Env)
    requires UniqueKeys(w.table)
    ensures UniqueKeys(EditStep(w, id, user, e, now, env).0.table)
  {
    if EditFailure(w.table, id, e, env.dbOk).None? {
      EditKeepsUnique(w.table, id, EditedRow(w.table[id], user, e, now));
    }
  }

  lemma EditKeepsIndexInv(w: World, id: Id, user: Id, e: Edit, now: Instant, env: Env)
    requires IndexInv(w)
    ensures IndexInv(EditStep(w, id, user, e, now, env).0)
  {
    if EditFailure(w.table, id, e, env.dbOk).None? {
      var w' := EditStep(w, id, user, e, now, env).0;
      EditKeepsUnique(w.table, id, EditedRow(w.table[id], user, e, now));
      forall x | x in w'.table && x !in w'.dirty
        ensures Agrees(w', x)
      {
        assert x != id ==> Agrees(w, x);
      }
    }
  }

  lemma {:induction false} NewestAuditAppend(audits: seq<Audit>, a: Audit, id: Id)
    ensures NewestAudit(audits + [a], id) == if a.record == id then Some(a) else NewestAudit(audits, id)
  {
    assert (audits + [a])[..|audits|] == audits;
  }

  lemma ChainedAppend(audits: seq<Audit>, gaps: seq<bool>, a: Audit, gap: bool)
    requires Chained(audits, gaps) && (!gap ==> Continues(audits, a))
    ensures Chained(audits + [a], gaps + [gap])
  {
    hide Continues;
    forall j | 0 <= j <= |audits|
      ensures (audits + [a])[..j] == audits[..j]
    {
    }
    assert audits[..|audits|] == audits;
  }

  // Each row's mark and newest audit after an edit of row `id`.
  lemma EditKeepsMarks(w: World, id: Id, row: Row, audit: Audit, x: Id)
    requires AuditInv(w) && id in w.table && (x in w.table || x == id)
    requires audit.record == id && audit.after == row.values && row.prov.source.Manual?
    ensures var row' := w.table[id := row][x];
            && (x in w.ingested - {id} <==> row'.prov.source.Ingest?)
            && (row'.prov.source.Manual? ==>
                  NewestAudit(w.audits + [audit], x).Some? && NewestAudit(w.audits + [audit], x).value.after == row'.values)
  {
    hide Chained, NewestAudit;
    NewestAuditAppend(w.audits, audit, x);
  }

  lemma EditKeepsAuditInv(w: World, id: Id, user: Id, e: Edit, now: Instant, env: Env)
    requires Inv(w)
    ensures AuditInv(EditStep(w, id, user, e, now, env).0)
  {
    hide IndexInv, UpdateDoc, Chained, NewestAudit, Edited, KeyOf;
    if EditFailure(w.table, id, e, env.dbOk).None? {
      var row := EditedRow(w.table[id], user, e, now);
      var audit := Audit(id, user, e.reason, w.table[id].values, row.values);
      forall x | x in w.table
      {
        EditKeepsMarks(w, id, row, audit, x);
      }
      assert !(id in w.ingested) ==> Continues(w.audits, audit);
      ChainedAppend(w.audits, w.gaps, audit, id in w.ingested);
    }
  }

  lemma AuditedRowsStay(w: World, cutoff: int)
    requires AuditInv(w) && Expired(w.table, cutoff) * Audited(w.audits) == {}
    ensures forall j :: 0 <= j < |w.audits| ==> w.audits[j].record in w.table - Expired(w.table, cutoff)
  {
    forall j | 0 <= j < |w.audits|
      ensures w.audits[j].record !in Expired(w.table, cutoff)
    {
      var id := w.audits[j].record;
      assert w.audits[j] in w.audits && id in Audited(w.audits);
      assert id !in Expired(w.table, cutoff) * Audited(w.audits);
    }
  }

  lemma RetentionKeepsInv(w: World, cutoff: int, dbOk: bool)
    requires Inv(w)
    ensures Inv(RetentionStep(w, cutoff, dbOk).0)
  {
    if RetentionStep(w, cutoff, dbOk).1.Ok? {
      var w' := RetentionStep(w, cutoff, dbOk).0;
      assert IndexInv(w') by {
        assert forall id :: id in w'.table && id !in w'.dirty ==> Agrees(w, id);
      }
      AuditedRowsStay(w, cutoff);
    }
  }

  // Uploads propose rows marked as ingested.
  ghost predicate FromUpload(e: Event) {
    e.Ingest? ==> forall i :: 0 <= i < |e.rows| ==> e.rows[i].prov.source.Ingest?
  }

  lemma StepKeepsInv(w: World, e: Event)
    requires Inv(w) && FromUpload(e)
    ensures Inv(Step(w, e))
  {
    match e {
      case Ingest(rows, now, env) =>
        ChunkKeepsIndexInv(w, rows, now, env);
        ChunkKeepsAuditInv(w, rows, now, env);
      case Amend(id, user, edit, now, env) =>
        EditKeepsIndexInv(w, id, user, edit, now, env);
        EditKeepsAuditInv(w, id, user, edit, now, env);
      case Retire(cutoff, dbOk) =>
        RetentionKeepsInv(w, cutoff, dbOk);
    }
  }

  ghost predicate FromUploads(es: seq<Event>) {
    forall i :: 0 <= i < |es| ==> FromUpload(es[i])
  }

  // Every run of uploads' chunks, edits and retention passes, with any part failing at any
  // point, keeps the invariant.
  lemma {:induction false} RunKeepsInv(w: World, es: seq<Event>)
    requires Inv(w) && FromUploads(es)
    ensures Inv(Run(w, es))
    decreases |es|
  {
    hide AuditInv, Step, FromUpload;
    if es != [] {
      assert FromUpload(es[0]);
      StepKeepsInv(w, es[0]);
      assert forall i :: 0 <= i < |es| - 1 ==> es[1..][i] == es[i + 1];
      RunKeepsInv(Step(w, es[0]), es[1..]);
    }
  }

  // From the empty table and index on, every reachable state satisfies the invariant.
  lemma ReachableInv(es: seq<Event>)
    requires FromUploads(es)
    ensures Inv(Run(EMPTY, es))
  {
    RunKeepsInv(EMPTY, es);
  }

  // In every reachable table, two rows that agree in country, store, sku and date are one.
  lemma OneRowPerPrice(es: seq<Event>, i: Id, j: Id)
    requires i in Run(EMPTY, es).table && j in Run(EMPTY, es).table
    requires var a, b := Run(EMPTY, es).table[i].values, Run(EMPTY, es).table[j].values;
             a.country == b.country && a.store == b.store && a.sku == b.sku && a.date == b.date
    ensures i == j
  {
    assert UniqueKeys(Run(EMPTY, es).table);
  }

  // The index never loses a document and the audit trail only grows, whatever a run does.
  lemma {:induction false} RunKeepsDocsAndAudits(w: World, es: seq<Event>)
    requires UniqueKeys(w.table)
    ensures w.index.Keys <= Run(w, es).index.Keys && w.audits <= Run(w, es).audits
    decreases |es|
  {
    hide Step;
    if es != [] {
      StepKeepsDocsAndAudits(w, es[0]);
      RunKeepsDocsAndAudits(Step(w, es[0]), es[1..]);
    }
  }

  lemma StepKeepsDocsAndAudits(w: World, e: Event)
    requires UniqueKeys(w.table)
    ensures w.index.Keys <= Step(w, e).index.Keys && w.audits <= Step(w, e).audits
  {
    if e.Ingest? && BulkUpsert(w.table, e.rows, e.now, e.env.dbOk).Ok? {
      BulkUpsertMeans(w.table, e.rows, e.now, e.env.dbOk);
      IndexAfterMeans(w.index, DocsOf(BulkUpsert(w.table, e.rows, e.now, e.env.dbOk).value.1), e.env.replies);
    }
  }

  // ---------- recovery, rejection, and the audit trail ----------

  // A chunk that returns normally leaves every row it covers clean: the row with that key,
  // under the id it had before if it was there, is out of the dirty set and agrees with
  // its document.
  lemma ReuploadRecovers(w: World, ps: seq<Proposed>, now: Instant, env: Env, i: nat)
    requires IndexInv(w) && i < |ps|
    requires ChunkStep(w, ps, now, env).1.Ok?
    ensures var w', k := ChunkStep(w, ps, now, env).0, KeyOf(ps[i].values);
            && UniqueKeys(w'.table) && HasKey(w'.table, k)
            && var id := IdOf(w'.table, k);
               && id !in w'.dirty && Agrees(w', id) && w'.table[id].values == ps[i].values
               && (HasKey(w.table, k) ==> id == IdOf(w.table, k))
  {
    var w', k := ChunkStep(w, ps, now, env).0, KeyOf(ps[i].values);
    var (t, records) := BulkUpsert(w.table, ps, now, env.dbOk).value;
    ChunkKeepsIndexInv(w, ps, now, env);
    BulkUpsertMeans(w.table, ps, now, env.dbOk);
    assert StoredAs(t, ps[i], records[i]) && records[i] in records;
    assert records[i].id == IdOf(t, k);
    if HasKey(w.table, k) {
      UpsertKeepsIds(w.table, ps, now, env.dbOk, k);
    }
  }

  // A committed edit leaves its row clean exactly when the index accepts the update and
  // already holds a document for the row: a row that was never indexed stays dirty.
  lemma EditCleansExactlyWhen(w: World, id: Id, user: Id, e: Edit, now: Instant, env: Env)
    requires IndexInv(w) && EditFailure(w.table, id, e, env.dbOk).None?
    ensures var w' := EditStep(w, id, user, e, now, env).0;
            && (id !in w'.dirty <==> id in w.index && ReplyAt(env.replies, 0).Accepted?)
            && (id !in w'.dirty ==> Agrees(w', id))
            && (EditStep(w, id, user, e, now, env).1.Ok? <==> id !in w'.dirty)
  {
    EditKeepsIndexInv(w, id, user, e, now, env);
  }

  // The columns after an edit: the requested value where there is one.
  ghost predicate AsRequested(v: Values, e: Edit, v': Values) {
    && v'.country == (if e.country.Some? then e.country.value else v.country)
    && v'.store == (if e.store.Some? then e.store.value else v.store)
    && v'.sku == (if e.sku.Some? then e.sku.value else v.sku)
    && v'.product == (if e.product.Some? then e.product.value else v.product)
    && v'.cents == (if e.cents.Some? then e.cents.value else v.cents)
    && v'.currency == (if e.currency.Some? then e.currency.value else v.currency)
    && v'.taxInclusive == (if e.taxInclusive.Some? then e.taxInclusive.value else v.taxInclusive)
    && v'.date == (if e.date.Some? then e.date.value else v.date)
  }

  // Another row of the table agrees with the values in country, store, sku and date.
  ghost predicate OtherHas(t: Table, id: Id, v: Values) {
    exists j :: j in t && j != id && SamePrice(t[j].values, v)
  }

  lemma OtherHasMeans(t: Table, id: Id, v: Values)
    ensures OtherHas(t, id, v) <==> TakenByOther(t, id, KeyOf(v))
  {
    if OtherHas(t, id, v) {
      var j :| j in t && j != id && SamePrice(t[j].values, v);
      assert KeyOf(t[j].values) == KeyOf(v);
    }
  }

  // What becomes of an edit, told from the request, the table and the environment. It is
  // committed exactly when the id has a row, the new price is not negative, no other row has
  // the new country, store, sku and date, and the commit succeeds; each refusal has its own
  // condition, and changes nothing.
  lemma EditOutcome(w: World, id: Id, user: Id, e: Edit, now: Instant, env: Env, v: Values)
    requires id in w.table ==> AsRequested(w.table[id].values, e, v)
    ensures var (w', r) := EditStep(w, id, user, e, now, env);
            var allowed := id in w.table && v.cents >= 0 && !OtherHas(w.table, id, v);
            && (r == Err(NotFound) <==> id !in w.table)
            && (r == Err(NegativePrice) <==> id in w.table && v.cents < 0)
            && (r == Err(Conflict) <==> id in w.table && v.cents >= 0 && OtherHas(w.table, id, v))
            && (r == Err(DatabaseDown) <==> allowed && !env.dbOk)
            && (r == Err(IndexDown) <==> allowed && env.dbOk && !(id in w.index && ReplyAt(env.replies, 0).Accepted?))
            && (r.Ok? <==> allowed && env.dbOk && id in w.index && ReplyAt(env.replies, 0).Accepted?)
            && (!(allowed && env.dbOk) ==> w' == w)
            && (allowed && env.dbOk ==>
                  && id in w'.table && w'.table[id].values == v && w'.table[id].updatedAt == now
                  && w'.table[id].prov.actor == Some(user) && w'.table[id].prov.source.Manual?
                  && w'.table[id].prov.reason == e.reason
                  && w'.audits == w.audits + [Audit(id, user, e.reason, w.table[id].values, v)]
                  && (r.Ok? ==> r.value == w'.table[id]))
  {
    hide UpdateDoc, TakenByOther, OtherHas, KeyOf;
    UpdateDocSucceeds(w.index, id, v, ReplyAt(env.replies, 0));
    OtherHasMeans(w.table, id, v);
    if id in w.table {
      assert Edited(w.table[id].values, e) == v;
    }
  }

  lemma UpdateDocSucceeds(index: Index, id: Id, v: Values, reply: Reply)
    ensures UpdateDoc(index, id, v, reply).1 <==> id in index && reply.Accepted?
  {
  }

  // The columns an edit did not ask for, the other rows, the id and the row's origin stay.
  lemma EditChangesOnlyRequested(w: World, id: Id, user: Id, e: Edit, now: Instant, env: Env)
    requires id in w.table
    ensures var t, t' := w.table, EditStep(w, id, user, e, now, env).0.table;
            && t'.Keys == t.Keys && (forall x :: x in t && x != id ==> t'[x] == t[x])
            && var v, v' := t[id].values, t'[id].values;
               && (v'.country != v.country ==> e.country == Some(v'.country))
               && (v'.store != v.store ==> e.store == Some(v'.store))
               && (v'.sku != v.sku ==> e.sku == Some(v'.sku))
               && (v'.product != v.product ==> e.product == Some(v'.product))
               && (v'.cents != v.cents ==> e.cents == Some(v'.cents))
               && (v'.currency != v.currency ==> e.currency == Some(v'.currency))
               && (v'.taxInclusive != v.taxInclusive ==> e.taxInclusive == Some(v'.taxInclusive))
               && (v'.date != v.date ==> e.date == Some(v'.date))
               && t'[id].createdAt == t[id].createdAt && t'[id].observedAt == t[id].observedAt
               && t'[id].prov.feed == t[id].prov.feed && t'[id].prov.line == t[id].prov.line
    ensures EditFailure(w.table, id, e, env.dbOk).None? ==>
              var row := EditStep(w, id, user, e, now, env).0.table[id];
              && (e.country.Some? ==> row.values.country == e.country.value)
              && (e.store.Some? ==> row.values.store == e.store.value)
              && (e.sku.Some? ==> row.values.sku == e.sku.value)
              && (e.product.Some? ==> row.values.product == e.product.value)
              && (e.cents.Some? ==> row.values.cents == e.cents.value)
              && (e.currency.Some? ==> row.values.currency == e.currency.value)
              && (e.taxInclusive.Some? ==> row.values.taxInclusive == e.taxInclusive.value)
              && (e.date.Some? ==> row.values.date == e.date.value)
              && row.prov.source.Manual? && row.prov.actor == Some(user) && row.prov.reason == e.reason
              && row.updatedAt == now
  {
  }

  // The event does not ingest into the row.
  ghost predicate Spares(w: World, e: Event, id: Id)
    requires UniqueKeys(w.table)
  {
    e.Ingest? && BulkUpsert(w.table, e.rows, e.now, e.env.dbOk).Ok? ==>
      id !in CanonicalIds(BulkUpsert(w.table, e.rows, e.now, e.env.dbOk).value.1)
  }

  ghost predicate RunSpares(w: World, es: seq<Event>, id: Id)
    requires UniqueKeys(w.table)
    decreases |es|
  {
    es != [] ==> Spares(w, es[0], id) && RunSpares(Step(w, es[0]), es[1..], id)
  }

  // An edited row is never retired, and stays manual until an ingest writes it.
  lemma {:induction false} EditedRowStays(w: World, es: seq<Event>, id: Id)
    requires Inv(w) && FromUploads(es) && RunSpares(w, es, id)
    requires id in w.table && w.table[id].prov.source.Manual?
    ensures var w' := Run(w, es); Inv(w') && id in w'.table && w'.table[id].prov.source.Manual?
    decreases |es|
  {
    if es != [] {
      assert FromUpload(es[0]);
      StepKeepsInv(w, es[0]);
      StepKeepsManual(w, es[0], id);
      assert forall i :: 0 <= i < |es| - 1 ==> es[1..][i] == es[i + 1];
      EditedRowStays(Step(w, es[0]), es[1..], id);
    }
  }

  lemma StepKeepsManual(w: World, e: Event, id: Id)
    requires Inv(w) && Spares(w, e, id)
    requires id in w.table && w.table[id].prov.source.Manual?
    ensures id in Step(w, e).table && Step(w, e).table[id].prov.source.Manual?
  {
    if e.Ingest? && BulkUpsert(w.table, e.rows, e.now, e.env.dbOk).Ok? {
      BulkUpsertMeans(w.table, e.rows, e.now, e.env.dbOk);
    } else if e.Retire? {
      NewestAuditIsAudit(w.audits, id);
      assert id !in Expired(w.table, e.cutoff) * Audited(w.audits) ==> id !in Expired(w.table, e.cutoff);
    }
  }

  lemma {:induction false} NewestAuditIsAudit(audits: seq<Audit>, id: Id)
    requires NewestAudit(audits, id).Some?
    ensures id in Audited(audits)
  {
    var last := audits[|audits| - 1];
    if last.record == id {
      assert last in audits;
    } else {
      NewestAuditIsAudit(audits[..|audits| - 1], id);
    }
  }

  // Two committed edits of a row, with any run between them that does not ingest into it:
  // the second audit starts from the values the newest audit before it left.
  lemma AuditsChain(w: World, es: seq<Event>, id: Id, user: Id, e: Edit, now: Instant, env: Env)
    requires Inv(w) && FromUploads(es) && RunSpares(w, es, id)
    requires id in w.table && w.table[id].prov.source.Manual?
    requires EditFailure(Run(w, es).table, id, e, env.dbOk).None?
    ensures var w' := Run(w, es);
            var w'' := EditStep(w', id, user, e, now, env).0;
            var second := w''.audits[|w''.audits| - 1];
            && w''.audits == w'.audits + [second]
            && second.record == id && second.user == user && second.reason == e.reason
            && NewestAudit(w'.audits, id).Some? && second.before == NewestAudit(w'.audits, id).value.after
            && second.after == w''.table[id].values
  {
    EditedRowStays(w, es, id);
  }

  // Retention deletes all expired rows or, when one of them has an audit or the commit fails,
  // none, and says which; the index and the audits stay as they are.
  lemma RetentionIsAllOrNothing(w: World, cutoff: int, dbOk: bool)
    ensures var (w', r) := RetentionStep(w, cutoff, dbOk);
            var audited := exists a ::
              a in w.audits && a.record in w.table && Ordinal(w.table[a.record].values.date) < cutoff;
            && w' == w.(table := w'.table)
            && (r.Ok? ==> r.value == |w.table.Keys - w'.table.Keys|)
            && (r == Err(Conflict) <==> audited) && (r == Err(DatabaseDown) <==> !audited && !dbOk)
            && (if audited || !dbOk then w'.table == w.table && r.Err?
                else r.Ok? && forall id :: id in w'.table <==> id in w.table && Ordinal(w.table[id].values.date) >= cutoff)
            && (forall id :: id in w'.table ==> w'.table[id] == w.table[id])
  {
    hide Ordinal;
    var expired := Expired(w.table, cutoff);
    if a :| a in w.audits && a.record in w.table && Ordinal(w.table[a.record].values.date) < cutoff {
      assert a.record in expired * Audited(w.audits);
    } else {
      assert expired * Audited(w.audits) == {};
      assert w.table.Keys - (w.table - expired).Keys == expired;
    }
  }
}
