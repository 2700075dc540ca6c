// The pricing table's rows, the audit trail's values and the search index's documents
// (backend/app/models, backend/app/core/typesense_client.py).
module Records {
  import opened Prelude
  import opened Calendar

  // A uuid, as the number its bytes spell; PostgreSQL orders uuids this way.
  type Id = nat

  type Instant = int

  // The natural key of a price.
  datatype Key = Key(country: string, store: string, sku: string, date: Date)

  // The eight business columns. The price is in cents.
  datatype Values = Values(
    country: string, store: string, sku: string, product: string,
    cents: int, currency: string, taxInclusive: bool, date: Date)

  datatype Source = Ingest | Manual

  datatype Provenance = Provenance(
    feed: Option<Id>, line: Option<int>, actor: Option<Id>, source: Source, reason: Option<string>)

  datatype Row = Row(values: Values, prov: Provenance, observedAt: Instant, createdAt: Instant, updatedAt: Instant)

  type Table = map<Id, Row>

  datatype Doc = Doc(
    dbId: Id, country: string, store: string, sku: string, product: string,
    cents: int, currency: string, taxInclusive: bool, date: int)

  type Index = map<Id, Doc>

  function KeyOf(v: Values): Key {
    Key(v.country, v.store, v.sku, v.date)
  }

  // Two rows price the same thing: country, store, sku and date agree.
  predicate SamePrice(a: Values, b: Values) {
    a.country == b.country && a.store == b.store && a.sku == b.sku && a.date == b.date
  }

  // The document of a row: the same columns, with the date as a stamp.
  function DocOf(id: Id, v: Values): Doc {
    Doc(id, v.country, v.store, v.sku, v.product, v.cents, v.currency, v.taxInclusive, ToTypesenseDate(v.date))
  }

  // The document holds the row's columns and its date at midnight UTC.
  ghost predicate Describes(d: Doc, id: Id, v: Values) {
    && d.dbId == id
    && d.country == v.country && d.store == v.store && d.sku == v.sku && d.product == v.product
    && d.cents == v.cents && d.currency == v.currency && d.taxInclusive == v.taxInclusive
    && d.date == ToTypesenseDate(v.date)
  }

  // What an upsert returns for each proposed row: the id it ended up under and its columns.
  datatype Canonical = Canonical(id: Id, values: Values)

  function DocsOf(records: seq<Canonical>): (docs: seq<Doc>)
    ensures |docs| == |records|
    ensures forall i :: 0 <= i < |docs| ==> docs[i] == DocOf(records[i].id, records[i].values)
  {
    if records == [] then [] else [DocOf(records[0].id, records[0].values)] + DocsOf(records[1..])
  }

  function CanonicalIds(records: seq<Canonical>): set<Id> {
    set c | c in records :: c.id
  }
}
