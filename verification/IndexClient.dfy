// Writing documents to the search index (backend/app/services/typesense_service.py).
module IndexClient {
  import opened Prelude
  import opened Calendar
  import opened Records

  // What one import call does: it writes every document and returns, or it raises after
  // an arbitrary part of the documents was written.
  datatype Reply = Accepted | Broken(written: set<Id>)

  const MAX_ATTEMPTS := 5

  function ReplyAt(replies: seq<Reply>, attempt: nat): Reply {
    if attempt < |replies| then replies[attempt] else Broken({})
  }

  function IdsOf(docs: seq<Doc>): set<Id> {
    set d | d in docs :: d.dbId
  }

  // Whether a call leaves the id's document written.
  predicate Applies(reply: Reply, id: Id) {
    reply.Accepted? || id in reply.written
  }

  // The document under an id, if there is one.
  function At(index: Index, id: Id): Option<Doc> {
    if id in index then Some(index[id]) else None
  }

  // Documents are written one by one under their own id, here those with an id in `written`.
  function Put(index: Index, docs: seq<Doc>, written: set<Id>): Index
    decreases |docs|
  {
    if docs == [] then index
    else Put(if docs[0].dbId in written then index[docs[0].dbId := docs[0]] else index, docs[1..], written)
  }

  function Import(index: Index, docs: seq<Doc>, reply: Reply): Index {
    Put(index, docs, if reply.Accepted? then IdsOf(docs) else reply.written)
  }

  // The index after the first n imports of the same documents.
  function AfterImports(index: Index, docs: seq<Doc>, replies: seq<Reply>, n: nat): Index {
    if n == 0 then index
    else Import(AfterImports(index, docs, replies, n - 1), docs, ReplyAt(replies, n - 1))
  }

  // The number of imports the retry loop makes: up to the first that succeeds, or all.
  function ImportsMade(replies: seq<Reply>, from: nat, maxAttempts: nat): nat
    requires from < maxAttempts
    decreases maxAttempts - from
  {
    if ReplyAt(replies, from).Accepted? || from + 1 == maxAttempts then from + 1
    else ImportsMade(replies, from + 1, maxAttempts)
  }

  // Pauses in seconds: the first is 0.3, each next one doubles, none exceeds 3.
  function Pause(k: nat): real {
    if k == 0 then 0.3 else if Pause(k - 1) * 2.0 <= 3.0 then Pause(k - 1) * 2.0 else 3.0
  }

  function Pow2(k: nat): nat {
    if k == 0 then 1 else 2 * Pow2(k - 1)
  }

  lemma {:induction false} PauseIsCappedPower(k: nat)
    ensures Pause(k) == if 0.3 * Pow2(k) as real <= 3.0 then 0.3 * Pow2(k) as real else 3.0
  {
    if k > 0 {
      PauseIsCappedPower(k - 1);
      assert Pow2(k) as real == 2.0 * Pow2(k - 1) as real;
    }
  }

  class SearchIndex {
    var docs: Index
    // The ids whose latest index step did not succeed.
    ghost var dirty: set<Id>

    constructor ()
      ensures docs == map[] && dirty == {}
    {
      docs, dirty := map[], {};
    }

    // One import call of the client.
    method ImportOnce(docs: seq<Doc>, reply: Reply) returns (ok: bool)
      modifies this`docs
      ensures this.docs == Import(old(this.docs), docs, reply)
      ensures ok == reply.Accepted?
    {
      this.docs := Import(this.docs, docs, reply);
      ok := reply.Accepted?;
    }

    // The first attempt that succeeds ends the loop; the last failure is raised.
    method UpsertDocumentsWithRetry(docs: seq<Doc>, maxAttempts: int, replies: seq<Reply>)
      returns (ok: bool, imports: nat, sleeps: seq<real>)
      modifies this`docs
      ensures docs == [] || maxAttempts <= 0 ==> ok && imports == 0 && sleeps == [] && this.docs == old(this.docs)
      ensures docs != [] && maxAttempts >= 1 ==>
                && (ok <==> exists a :: 0 <= a < maxAttempts && ReplyAt(replies, a).Accepted?)
                && 1 <= imports == ImportsMade(replies, 0, maxAttempts) <= maxAttempts
                && (forall a :: 0 <= a < imports - 1 ==> ReplyAt(replies, a).Broken?)
                && (if ok then ReplyAt(replies, imports - 1).Accepted? else imports == maxAttempts)
                && |sleeps| == imports - 1
                && (forall k :: 0 <= k < |sleeps| ==> sleeps[k] == Pause(k))
                && this.docs == AfterImports(old(this.docs), docs, replies, imports)
    {
      ok, imports, sleeps := true, 0, [];
      if docs == [] {
        return;
      }
      var delay, attempt := 0.3, 1;
      while attempt <= maxAttempts
        invariant 1 <= attempt && imports == attempt - 1 == |sleeps|
        invariant maxAttempts >= 1 ==> attempt <= maxAttempts
        invariant maxAttempts < 1 ==> attempt == 1
        invariant delay == Pause(imports)
        invariant forall k :: 0 <= k < |sleeps| ==> sleeps[k] == Pause(k)
        invariant forall a :: 0 <= a < imports ==> ReplyAt(replies, a).Broken?
        invariant this.docs == AfterImports(old(this.docs), docs, replies, imports)
        decreases maxAttempts - attempt
      {
        var done := ImportOnce(docs, ReplyAt(replies, attempt - 1));
        imports := imports + 1;
        if done {
          ImportsMadeIs(replies, 0, maxAttempts, imports);
          return;
        }
        if attempt == maxAttempts {
          ImportsMadeIs(replies, 0, maxAttempts, imports);
          ok := false;
          return;
        }
        sleeps := sleeps + [delay];
        delay := if delay * 2.0 <= 3.0 then delay * 2.0 else 3.0;
        attempt := attempt + 1;
      }
    }

    method UpsertPricingRecords(records: seq<Canonical>, replies: seq<Reply>) returns (ok: bool)
      modifies this
      ensures this.docs == IndexAfter(old(this.docs), DocsOf(records), replies)
      ensures ok <==> records == [] || Delivered(replies)
      ensures ok <==> records == [] || exists a :: 0 <= a < 5 && ReplyAt(replies, a).Accepted?
      ensures dirty == Doubt(old(dirty), CanonicalIds(records), ok)
    {
      var docs: seq<Doc> := [];
      for i := 0 to |records|
        invariant |docs| == i
        invariant forall j :: 0 <= j < i ==> docs[j] == DocOf(records[j].id, records[j].values)
      {
        docs := docs + [DocOf(records[i].id, records[i].values)];
      }
      assert docs == DocsOf(records);
      var imports, sleeps;
      ok, imports, sleeps := UpsertDocumentsWithRetry(docs, MAX_ATTEMPTS, replies);
      dirty := Doubt(dirty, CanonicalIds(records), ok);
    }

    // The partial update of one document sends the eight business columns.
    method UpdatePricingRecord(id: Id, values: Values, reply: Reply) returns (ok: bool)
      modifies this
      ensures ok <==> id in old(this.docs) && reply.Accepted?
      ensures id !in old(this.docs) ==> this.docs == old(this.docs)
      ensures id in old(this.docs) ==> this.docs.Keys == old(this.docs.Keys)
      ensures forall x :: x in old(this.docs) && x != id ==> x in this.docs && this.docs[x] == old(this.docs)[x]
      ensures id in old(this.docs) && Applies(reply, id) ==> Describes(this.docs[id], old(this.docs)[id].dbId, values)
      ensures !Applies(reply, id) ==> this.docs == old(this.docs)
      ensures dirty == if ok then old(dirty) - {id} else old(dirty) + {id}
      ensures (this.docs, ok) == UpdateDoc(old(this.docs), id, values, reply)
    {
      ok := false;
      if id in docs {
        ok := reply.Accepted?;
        if ok || id in reply.written {
          docs := docs[id := docs[id].(
            country := values.country, store := values.store, sku := values.sku, product := values.product,
            cents := values.cents, currency := values.currency, taxInclusive := values.taxInclusive,
            date := ToTypesenseDate(values.date))];
        }
      }
      dirty := if ok then dirty - {id} else dirty + {id};
    }
  }

  // The partial update fails when the document is not in the index, and may have been applied
  // when the call raises.
  function UpdateDoc(index: Index, id: Id, values: Values, reply: Reply): (Index, bool) {
    if id !in index then (index, false)
    else
      var updated := index[id := DocOf(id, values).(dbId := index[id].dbId)];
      if reply.Accepted? then (updated, true)
      else if id in reply.written then (updated, false)
      else (index, false)
  }

  // The ids left in doubt once an index step over `ids` has ended.
  function Doubt(dirty: set<Id>, ids: set<Id>, ok: bool): set<Id> {
    if ok then dirty - ids else dirty + ids
  }

  lemma {:induction false} ImportsMadeIs(replies: seq<Reply>, from: nat, maxAttempts: nat, n: nat)
    requires from < n <= maxAttempts
    requires forall a :: from <= a < n - 1 ==> ReplyAt(replies, a).Broken?
    requires ReplyAt(replies, n - 1).Accepted? || n == maxAttempts
    ensures ImportsMade(replies, from, maxAttempts) == n
    decreases maxAttempts - from
  {
    if from < n - 1 {
      ImportsMadeIs(replies, from + 1, maxAttempts, n);
    }
  }

  // ---------- what a retried import leaves behind ----------

  predicate Delivered(replies: seq<Reply>) {
    exists a | 0 <= a < MAX_ATTEMPTS :: ReplyAt(replies, a).Accepted?
  }

  // The index after the retry loop with its default number of attempts.
  function IndexAfter(index: Index, docs: seq<Doc>, replies: seq<Reply>): Index {
    if docs == [] then index
    else AfterImports(index, docs, replies, ImportsMade(replies, 0, MAX_ATTEMPTS))
  }

  ghost predicate DistinctIds(docs: seq<Doc>) {
    forall i, j :: 0 <= i < j < |docs| ==> docs[i].dbId != docs[j].dbId
  }

  // Only the documents' own ids change, and each of them holds its old or its new document.
  ghost predicate Mixed(before: Index, after: Index, docs: seq<Doc>) {
    && (forall id :: id in before ==> id in after)
    && (forall id :: id in after && id !in IdsOf(docs) ==> id in before && after[id] == before[id])
    && (forall d :: d in docs && d.dbId in after ==>
          after[d.dbId] == d || (d.dbId in before && after[d.dbId] == before[d.dbId]))
  }

  ghost predicate HoldsAll(index: Index, docs: seq<Doc>) {
    forall d :: d in docs ==> d.dbId in index && index[d.dbId] == d
  }

  lemma IdsOfSplit(docs: seq<Doc>)
    requires docs != []
    ensures IdsOf(docs) == {docs[0].dbId} + IdsOf(docs[1..])
    ensures DistinctIds(docs) ==> DistinctIds(docs[1..]) && docs[0].dbId !in IdsOf(docs[1..])
  {
    assert docs == [docs[0]] + docs[1..];
  }

  lemma {:induction false} PutMeans(index: Index, docs: seq<Doc>, written: set<Id>)
    requires DistinctIds(docs)
    ensures Mixed(index, Put(index, docs, written), docs)
    ensures forall d :: d in docs && d.dbId in written ==>
              d.dbId in Put(index, docs, written) && Put(index, docs, written)[d.dbId] == d
    decreases |docs|
  {
    if docs != [] {
      var first, rest := docs[0], docs[1..];
      var next := if first.dbId in written then index[first.dbId := first] else index;
      IdsOfSplit(docs);
      PutMeans(next, rest, written);
      assert docs == [first] + rest;
    }
  }

  lemma {:induction false} ImportsMix(index: Index, docs: seq<Doc>, replies: seq<Reply>, n: nat)
    requires DistinctIds(docs)
    ensures Mixed(index, AfterImports(index, docs, replies, n), docs)
    ensures n > 0 && ReplyAt(replies, n - 1).Accepted? ==> HoldsAll(AfterImports(index, docs, replies, n), docs)
  {
    if n > 0 {
      ImportsMix(index, docs, replies, n - 1);
      var before, reply := AfterImports(index, docs, replies, n - 1), ReplyAt(replies, n - 1);
      var written := if reply.Accepted? then IdsOf(docs) else reply.written;
      PutMeans(before, docs, written);
    }
  }

  lemma {:induction false} ImportsMadeEnds(replies: seq<Reply>, from: nat, maxAttempts: nat)
    requires from < maxAttempts
    ensures var n := ImportsMade(replies, from, maxAttempts);
            && from < n <= maxAttempts
            && ((exists a :: from <= a < maxAttempts && ReplyAt(replies, a).Accepted?) <==> ReplyAt(replies, n - 1).Accepted?)
    decreases maxAttempts - from
  {
    if !ReplyAt(replies, from).Accepted? && from + 1 < maxAttempts {
      ImportsMadeEnds(replies, from + 1, maxAttempts);
    }
  }

  // After the retry loop every document is in the index if the loop returned, and otherwise
  // each of them is there or left as it was; nothing else changes.
  lemma IndexAfterMeans(index: Index, docs: seq<Doc>, replies: seq<Reply>)
    requires DistinctIds(docs)
    ensures Mixed(index, IndexAfter(index, docs, replies), docs)
    ensures Delivered(replies) ==> HoldsAll(IndexAfter(index, docs, replies), docs)
  {
    if docs != [] {
      ImportsMadeEnds(replies, 0, MAX_ATTEMPTS);
      ImportsMix(index, docs, replies, ImportsMade(replies, 0, MAX_ATTEMPTS));
    }
  }

  // Whether one of the imports that the retry loop makes writes the id's document.
  predicate Sends(replies: seq<Reply>, id: Id) {
    exists a | 0 <= a < ImportsMade(replies, 0, MAX_ATTEMPTS) :: Applies(ReplyAt(replies, a), id)
  }

  lemma DeliveredSends(replies: seq<Reply>, id: Id)
    ensures Delivered(replies) ==> Sends(replies, id)
  {
    ImportsMadeEnds(replies, 0, MAX_ATTEMPTS);
    assert Delivered(replies) ==> Applies(ReplyAt(replies, ImportsMade(replies, 0, MAX_ATTEMPTS) - 1), id);
  }

  lemma {:induction false} PutSpares(index: Index, docs: seq<Doc>, written: set<Id>, id: Id)
    ensures id !in written || id !in IdsOf(docs) ==> At(Put(index, docs, written), id) == At(index, id)
    decreases |docs|
  {
    if docs != [] {
      assert docs[0] in docs;
      assert forall d :: d in docs[1..] ==> d in docs;
      PutSpares(if docs[0].dbId in written then index[docs[0].dbId := docs[0]] else index, docs[1..], written, id);
    }
  }

  lemma {:induction false} ImportsWriteExactly(index: Index, docs: seq<Doc>, replies: seq<Reply>, n: nat, d: Doc)
    requires DistinctIds(docs) && d in docs
    ensures At(AfterImports(index, docs, replies, n), d.dbId) ==
            if exists a :: 0 <= a < n && Applies(ReplyAt(replies, a), d.dbId) then Some(d) else At(index, d.dbId)
  {
    if n > 0 {
      ImportsWriteExactly(index, docs, replies, n - 1, d);
      var before, reply := AfterImports(index, docs, replies, n - 1), ReplyAt(replies, n - 1);
      var written := if reply.Accepted? then IdsOf(docs) else reply.written;
      PutMeans(before, docs, written);
      PutSpares(before, docs, written, d.dbId);
      assert d.dbId in IdsOf(docs);
    }
  }

  // A document is sent by one of the first five attempts that no accepted one precedes.
  lemma SendsMeans(replies: seq<Reply>, id: Id)
    ensures Sends(replies, id) <==>
            exists a :: 0 <= a < 5 && Applies(ReplyAt(replies, a), id)
                        && forall b :: 0 <= b < a ==> ReplyAt(replies, b).Broken?
  {
    ImportsMadeEnds(replies, 0, MAX_ATTEMPTS);
    if a :| 0 <= a < 5 && Applies(ReplyAt(replies, a), id) && forall b :: 0 <= b < a ==> ReplyAt(replies, b).Broken? {
      assert a < ImportsMade(replies, 0, MAX_ATTEMPTS);
    }
    if Sends(replies, id) {
      var a :| 0 <= a < ImportsMade(replies, 0, MAX_ATTEMPTS) && Applies(ReplyAt(replies, a), id);
      assert forall b :: 0 <= b < a ==> ReplyAt(replies, b).Broken?;
    }
  }

  // Document by document: what the retry loop leaves under a document's id is the document
  // if one of its imports wrote it, and else what was there.
  lemma IndexAfterExactly(index: Index, docs: seq<Doc>, replies: seq<Reply>, d: Doc)
    requires DistinctIds(docs) && d in docs
    ensures At(IndexAfter(index, docs, replies), d.dbId) ==
            if exists a :: 0 <= a < 5 && Applies(ReplyAt(replies, a), d.dbId)
                           && forall b :: 0 <= b < a ==> ReplyAt(replies, b).Broken?
            then Some(d) else At(index, d.dbId)
  {
    hide Applies, Sends;
    SendsMeans(replies, d.dbId);
    SendsWrites(index, docs, replies, d);
  }

  lemma SendsWrites(index: Index, docs: seq<Doc>, replies: seq<Reply>, d: Doc)
    requires DistinctIds(docs) && d in docs
    ensures At(IndexAfter(index, docs, replies), d.dbId) == if Sends(replies, d.dbId) then Some(d) else At(index, d.dbId)
  {
    ImportsWriteExactly(index, docs, replies, ImportsMade(replies, 0, MAX_ATTEMPTS), d);
  }
}
