// The services over one database and one index (backend/app/services/pricing_service.py,
// backend/app/repositories/pricing_repository.py, backend/app/jobs/retention.py).
module PricingService {
  import opened Prelude
  import opened Records
  import opened IndexClient
  import opened IngestProtocol

  datatype FeedStatus = Received | Processed | Failed

  datatype Feed = Feed(status: FeedStatus, rowCount: nat)

  // What a commit makes durable.
  datatype Snapshot = Snapshot(table: Table, audits: seq<Audit>, feeds: map<Id, Feed>)

  // The state the open transaction sees, the state last committed, and the history of the
  // committed writes.
  class Database {
    var table: Table
    var audits: seq<Audit>
    var feeds: map<Id, Feed>
    var committed: Snapshot
    ghost var seen: set<Id>
    ghost var ingested: set<Id>
    ghost var gaps: seq<bool>

    constructor ()
      ensures Clean() && committed == Snapshot(map[], [], map[])
      ensures seen == {} && ingested == {} && gaps == []
    {
      table, audits, feeds := map[], [], map[];
      committed := Snapshot(map[], [], map[]);
      seen, ingested, gaps := {}, {}, [];
    }

    // Nothing is pending.
    ghost predicate Clean()
      reads this
    {
      committed == Snapshot(table, audits, feeds)
    }

    method Commit(succeeds: bool) returns (ok: bool)
      modifies this`committed
      ensures ok == succeeds
      ensures if ok then Clean() else committed == old(committed)
    {
      if succeeds {
        committed := Snapshot(table, audits, feeds);
      }
      ok := succeeds;
    }

    method Rollback()
      modifies this`table, this`audits, this`feeds
      ensures Clean()
    {
      table, audits, feeds := committed.table, committed.audits, committed.feeds;
    }
  }

  // The protocol's world is the committed state.
  ghost function WorldOf(db: Database, index: SearchIndex): World
    reads db, index
  {
    World(db.committed.table, db.committed.audits, index.docs, index.dirty, db.seen, db.ingested, db.gaps)
  }

  // Appending to the records of a statement that is still to return.
  ghost function Prepend(
    done: seq<Canonical>, rest: Result<(Table, seq<Canonical>), Failure>): Result<(Table, seq<Canonical>), Failure>
  {
    match rest
    case Ok((t, records)) => Ok((t, done + records))
    case Err(failure) => Err(failure)
  }

  // The statement after its first row.
  lemma FirstRowWritten(done: seq<Canonical>, t: Table, ps: seq<Proposed>, now: Instant, touched: set<Key>)
    requires UniqueKeys(t) && ps != []
    ensures RowFailure(t, ps[0], touched).Some? ==>
              Upsert(t, ps, now, touched) == Err(RowFailure(t, ps[0], touched).value)
    ensures RowFailure(t, ps[0], touched).None? ==>
              var (t', id) := UpsertRow(t, ps[0], now);
              && UniqueKeys(t')
              && Prepend(done, Upsert(t, ps, now, touched)) ==
                 Prepend(done + [Canonical(id, ps[0].values)],
                         Upsert(t', ps[1..], now, touched + {KeyOf(ps[0].values)}))
  {
    if RowFailure(t, ps[0], touched).None? {
      UpsertRowKeepsUnique(t, ps[0], now);
      var (t', id) := UpsertRow(t, ps[0], now);
      var rest := Upsert(t', ps[1..], now, touched + {KeyOf(ps[0].values)});
      if rest.Ok? {
        assert done + ([Canonical(id, ps[0].values)] + rest.value.1) == done + [Canonical(id, ps[0].values)] + rest.value.1;
      }
    }
  }

  lemma NothingDone(rest: Result<(Table, seq<Canonical>), Failure>)
    ensures Prepend([], rest) == rest
  {
    if rest.Ok? { assert [] + rest.value.1 == rest.value.1; }
  }

  // The statement writes row after row; the first row it cannot write ends it, and leaves
  // the transaction to be rolled back.
  method BulkUpsertByStoreSkuDate(db: Database, rows: seq<Proposed>, now: Instant)
    returns (r: Result<seq<Canonical>, Failure>)
    requires UniqueKeys(db.table)
    modifies db`table
    ensures match Upsert(old(db.table), rows, now, {})
            case Err(failure) => r == Err(failure)
            case Ok((t, records)) => r == Ok(records) && db.table == t
  {
    if rows == [] {
      return Ok([]);
    }
    var touched: set<Key>, out: seq<Canonical> := {}, [];
    assert rows[0..] == rows;
    NothingDone(Upsert(db.table, rows, now, {}));
    for i := 0 to |rows|
      invariant UniqueKeys(db.table)
      invariant Prepend(out, Upsert(db.table, rows[i..], now, touched)) == Upsert(old(db.table), rows, now, {})
    {
      var row := rows[i];
      var key := KeyOf(row.values);
      FirstRowWritten(out, db.table, rows[i..], now, touched);
      assert rows[i..][0] == row && rows[i..][1..] == rows[i + 1..];
      if row.values.cents < 0 {
        return Err(NegativePrice);
      }
      if key in touched {
        return Err(SameKeyTwice);
      }
      var id := row.id;
      if HasKey(db.table, key) {
        id := IdOf(db.table, key);
        db.table := db.table[id := db.table[id].(values := row.values, prov := row.prov, observedAt := now, updatedAt := now)];
      } else if row.id in db.table {
        return Err(IdTaken);
      } else {
        db.table := db.table[id := Row(row.values, row.prov, now, now, now)];
      }
      touched, out := touched + {key}, out + [Canonical(id, db.table[id].values)];
    }
    assert rows[|rows|..] == [] && out + [] == out;
    r := Ok(out);
  }

  method PersistAndIndexChunk(db: Database, index: SearchIndex, rows: seq<Proposed>, now: Instant, env: Env)
    returns (r: Result<nat, Failure>)
    requires db.Clean() && UniqueKeys(db.table)
    modifies db, index
    ensures (WorldOf(db, index), r) == ChunkStep(old(WorldOf(db, index)), rows, now, env)
    ensures r.Ok? ==> db.Clean()
    ensures db.committed.feeds == old(db.committed.feeds)
  {
    hide IndexAfter, Delivered, DocsOf;
    var canonical := BulkUpsertByStoreSkuDate(db, rows, now);
    if canonical.Err? {
      return Err(canonical.error);
    }
    if rows != [] {
      var committed := db.Commit(env.dbOk);
      if !committed {
        return Err(DatabaseDown);
      }
    }
    ghost var ids := CanonicalIds(canonical.value);
    db.seen, db.ingested := db.seen + ids, db.ingested + ids;
    var ok := index.UpsertPricingRecords(canonical.value, env.replies);
    r := if ok then Ok(|canonical.value|) else Err(IndexDown);
  }

  lemma TakenAsBefore(t: Table, id: Id, row: Row, k: Key)
    ensures TakenByOther(t[id := row], id, k) == TakenByOther(t, id, k)
  {
    if j :| j in t && j != id && KeyOf(t[j].values) == k {
      assert j in t[id := row] && t[id := row][j] == t[j];
    }
  }

  // Only the columns that the request names are set.
  method SetRequested(stored: Values, fields: Edit) returns (values: Values)
    ensures values == Edited(stored, fields)
  {
    var country, store, sku, product := stored.country, stored.store, stored.sku, stored.product;
    var cents, currency, taxInclusive, date := stored.cents, stored.currency, stored.taxInclusive, stored.date;
    if fields.country.Some? { country := fields.country.value; }
    if fields.store.Some? { store := fields.store.value; }
    if fields.sku.Some? { sku := fields.sku.value; }
    if fields.product.Some? { product := fields.product.value; }
    if fields.cents.Some? { cents := fields.cents.value; }
    if fields.currency.Some? { currency := fields.currency.value; }
    if fields.taxInclusive.Some? { taxInclusive := fields.taxInclusive.value; }
    if fields.date.Some? { date := fields.date.value; }
    values := Values(country, store, sku, product, cents, currency, taxInclusive, date);
  }

  // The UPDATE sets the requested columns and the editor's mark; the table's constraints are
  // checked on what it wrote.
  method UpdateFields(db: Database, id: Id, user: Id, fields: Edit, now: Instant) returns (r: Result<Row, Failure>)
    requires id in db.table
    modifies db`table
    ensures match EditFailure(old(db.table), id, fields, true)
            case Some(failure) => r == Err(failure)
            case None =>
              && r == Ok(EditedRow(old(db.table)[id], user, fields, now))
              && db.table == old(db.table)[id := r.value]
  {
    var rec := db.table[id];
    var values := SetRequested(rec.values, fields);
    var prov := rec.prov.(actor := Some(user), source := Manual, reason := fields.reason);
    db.table := db.table[id := rec.(values := values, prov := prov, updatedAt := now)];
    if db.table[id].values.cents < 0 {
      return Err(NegativePrice);
    }
    TakenAsBefore(old(db.table), id, db.table[id], KeyOf(values));
    if TakenByOther(db.table, id, KeyOf(values)) {
      return Err(Conflict);
    }
    r := Ok(db.table[id]);
  }

  // Whatever is refused after the UPDATE ran stays uncommitted.
  method UpdateRecord(db: Database, index: SearchIndex, id: Id, user: Id, fields: Edit, now: Instant, env: Env)
    returns (r: Result<Row, Failure>)
    requires db.Clean()
    modifies db, index
    ensures (WorldOf(db, index), r) == EditStep(old(WorldOf(db, index)), id, user, fields, now, env)
    ensures r.Ok? ==> db.Clean()
    ensures db.committed.feeds == old(db.committed.feeds)
  {
    if id !in db.table {
      return Err(NotFound);
    }
    var oldValues := db.table[id].values;
    var updated := UpdateFields(db, id, user, fields, now);
    if updated.Err? {
      return updated;
    }
    var rec := updated.value;
    db.audits := db.audits + [Audit(id, user, fields.reason, oldValues, rec.values)];
    var committed := db.Commit(env.dbOk);
    if !committed {
      return Err(DatabaseDown);
    }
    db.gaps, db.ingested := db.gaps + [id in db.ingested], db.ingested - {id};
    var ok := index.UpdatePricingRecord(id, rec.values, ReplyAt(env.replies, 0));
    r := if ok then Ok(rec) else Err(IndexDown);
  }

  // One DELETE in a transaction of its own; the audits' foreign key refuses it after the fact.
  method RunRetention(db: Database, index: SearchIndex, cutoff: int, dbOk: bool) returns (r: Result<nat, Failure>)
    requires db.Clean()
    modifies db
    ensures (WorldOf(db, index), r) == RetentionStep(old(WorldOf(db, index)), cutoff, dbOk)
    ensures db.Clean() && db.feeds == old(db.feeds)
  {
    var expired := Expired(db.table, cutoff);
    db.table := db.table - expired;
    if expired * Audited(db.audits) != {} {
      db.Rollback();
      return Err(Conflict);
    }
    var committed := db.Commit(dbOk);
    if !committed {
      db.Rollback();
      return Err(DatabaseDown);
    }
    r := Ok(|expired|);
  }
}
