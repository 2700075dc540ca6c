// What a table holds once generated ids and timestamps are put aside, and how an upsert
// changes it: row by row, the last row of a key wins.
module TableContent {
  import opened Prelude
  import opened Records
  import opened IndexClient
  import opened IngestProtocol

  datatype Stored = Stored(values: Values, prov: Provenance)

  type Content = map<Key, Stored>

  ghost function ContentOf(t: Table): Content
    requires UniqueKeys(t)
  {
    map k | k in KeysOf(t) :: Stored(t[IdOf(t, k)].values, t[IdOf(t, k)].prov)
  }

  ghost function KeysOf(t: Table): (ks: set<Key>)
    ensures forall k :: k in ks <==> HasKey(t, k)
  {
    set id | id in t :: KeyOf(t[id].values)
  }

  lemma ContentAt(t: Table, k: Key)
    requires UniqueKeys(t)
    ensures k in ContentOf(t) <==> HasKey(t, k)
    ensures HasKey(t, k) ==> ContentOf(t)[k] == Stored(t[IdOf(t, k)].values, t[IdOf(t, k)].prov)
  {
  }

  // The rows written one after the other.
  ghost function Overlay(c: Content, ps: seq<Proposed>): Content
    decreases |ps|
  {
    if ps == [] then c
    else Overlay(c[KeyOf(ps[0].values) := Stored(ps[0].values, ps[0].prov)], ps[1..])
  }

  lemma {:induction false} OverlayConcat(c: Content, a: seq<Proposed>, b: seq<Proposed>)
    ensures Overlay(c, a + b) == Overlay(Overlay(c, a), b)
    decreases |a|
  {
    if a == [] {
      assert a + b == b;
    } else {
      assert (a + b)[0] == a[0] && (a + b)[1..] == a[1..] + b;
      OverlayConcat(c[KeyOf(a[0].values) := Stored(a[0].values, a[0].prov)], a[1..], b);
    }
  }

  lemma IdOfIs(t: Table, id: Id)
    requires UniqueKeys(t) && id in t
    ensures HasKey(t, KeyOf(t[id].values)) && IdOf(t, KeyOf(t[id].values)) == id
  {
  }

  // Where one key stands after one row was upserted.
  lemma KeyAfterRow(t: Table, p: Proposed, now: Instant, k: Key)
    requires UniqueKeys(t) && RowFailure(t, p, {}).None?
    ensures var t' := UpsertRow(t, p, now).0;
            && UniqueKeys(t')
            && (HasKey(t', k) <==> HasKey(t, k) || k == KeyOf(p.values))
            && (k == KeyOf(p.values) ==> t'[IdOf(t', k)].values == p.values && t'[IdOf(t', k)].prov == p.prov)
            && (k != KeyOf(p.values) && HasKey(t, k) ==> t'[IdOf(t', k)] == t[IdOf(t, k)])
  {
    UpsertRowMeans(t, p, now);
    var (t', id) := UpsertRow(t, p, now);
    IdOfIs(t', id);
    if k != KeyOf(p.values) {
      if HasKey(t, k) {
        IdOfIs(t', IdOf(t, k));
      } else if HasKey(t', k) {
        IdOfIs(t, IdOf(t', k));
      }
    }
  }

  lemma ContentUpsertRow(t: Table, p: Proposed, now: Instant)
    requires UniqueKeys(t) && RowFailure(t, p, {}).None?
    ensures var t' := UpsertRow(t, p, now).0;
            UniqueKeys(t') && ContentOf(t') == ContentOf(t)[KeyOf(p.values) := Stored(p.values, p.prov)]
  {
    KeyAfterRow(t, p, now, KeyOf(p.values));
    var c, c' := ContentOf(UpsertRow(t, p, now).0), ContentOf(t)[KeyOf(p.values) := Stored(p.values, p.prov)];
    forall k: Key
      ensures k in c <==> k in c'
      ensures k in c ==> c[k] == c'[k]
    {
      KeyAfterRow(t, p, now, k);
    }
  }

  lemma {:induction false} ContentUpsert(t: Table, ps: seq<Proposed>, now: Instant, touched: set<Key>)
    requires UniqueKeys(t) && Upsert(t, ps, now, touched).Ok?
    ensures ContentOf(Upsert(t, ps, now, touched).value.0) == Overlay(ContentOf(t), ps)
    decreases |ps|
  {
    if ps != [] {
      var p := ps[0];
      ContentUpsertRow(t, p, now);
      ContentUpsert(UpsertRow(t, p, now).0, ps[1..], now, touched + {KeyOf(p.values)});
    }
  }

  // A successful upsert statement is the row-by-row upsert of its rows.
  lemma ContentBulkUpsert(t: Table, ps: seq<Proposed>, now: Instant, dbOk: bool)
    requires UniqueKeys(t) && BulkUpsert(t, ps, now, dbOk).Ok?
    ensures ContentOf(BulkUpsert(t, ps, now, dbOk).value.0) == Overlay(ContentOf(t), ps)
  {
    if ps != [] {
      ContentUpsert(t, ps, now, {});
    }
  }

  // ---------- what the rows of a key leave behind ----------

  // The position of the last row with the key, or -1.
  ghost function LastAt(ps: seq<Proposed>, k: Key): (i: int)
    ensures -1 <= i < |ps|
    ensures i >= 0 ==> KeyOf(ps[i].values) == k
    ensures forall j :: i < j < |ps| ==> KeyOf(ps[j].values) != k
  {
    if ps == [] then -1
    else if KeyOf(ps[|ps| - 1].values) == k then |ps| - 1
    else LastAt(ps[..|ps| - 1], k)
  }

  lemma {:induction false} OverlayLastWins(c: Content, ps: seq<Proposed>, k: Key)
    ensures var i := LastAt(ps, k);
            if i >= 0 then k in Overlay(c, ps) && Overlay(c, ps)[k] == Stored(ps[i].values, ps[i].prov)
            else (k in Overlay(c, ps) <==> k in c) && (k in c ==> Overlay(c, ps)[k] == c[k])
  {
    if ps != [] {
      var init, last := ps[..|ps| - 1], ps[|ps| - 1];
      assert ps == init + [last];
      OverlayConcat(c, init, [last]);
      OverlayOne(Overlay(c, init), last);
      OverlayLastWins(c, init, k);
    }
  }

  lemma OverlayOne(c: Content, p: Proposed)
    ensures Overlay(c, [p]) == c[KeyOf(p.values) := Stored(p.values, p.prov)]
  {
    assert [p][1..] == [];
  }

  // ---------- when the statement succeeds ----------

  // Fresh uuids: none of them is in the table and no two are equal.
  ghost predicate Fresh(t: Table, ps: seq<Proposed>) {
    && (forall i :: 0 <= i < |ps| ==> ps[i].id !in t)
    && (forall i, j :: 0 <= i < j < |ps| ==> ps[i].id != ps[j].id)
  }

  ghost predicate Priced(ps: seq<Proposed>) {
    forall i :: 0 <= i < |ps| ==> ps[i].values.cents >= 0
  }

  ghost function ProposedIds(ps: seq<Proposed>): set<Id> {
    set p | p in ps :: p.id
  }

  lemma FreshTail(t: Table, ps: seq<Proposed>, now: Instant)
    requires UniqueKeys(t) && ps != [] && Fresh(t, ps)
    ensures Fresh(UpsertRow(t, ps[0], now).0, ps[1..])
  {
  }

  lemma PricedTail(ps: seq<Proposed>)
    requires ps != []
    ensures Priced(ps) <==> ps[0].values.cents >= 0 && Priced(ps[1..])
  {
    assert ps == [ps[0]] + ps[1..];
    assert forall i :: 0 <= i < |ps| - 1 ==> ps[1..][i] == ps[i + 1];
  }

  lemma ApartTail(ps: seq<Proposed>)
    requires ps != []
    ensures SameKeysApart(ps) <==>
            SameKeysApart(ps[1..]) && forall i :: 0 <= i < |ps| - 1 ==> !SamePrice(ps[0].values, ps[1..][i].values)
  {
    hide SamePrice;
    assert forall i :: 0 <= i < |ps| - 1 ==> ps[1..][i] == ps[i + 1];
    if SameKeysApart(ps[1..]) && forall i :: 0 <= i < |ps| - 1 ==> !SamePrice(ps[0].values, ps[1..][i].values) {
      forall i, j | 0 <= i < j < |ps|
        ensures !SamePrice(ps[i].values, ps[j].values)
      {
        assert ps[j] == ps[1..][j - 1];
        if i > 0 { assert ps[i] == ps[1..][i - 1]; }
      }
    }
  }

  lemma UntouchedTail(ps: seq<Proposed>, touched: set<Key>)
    requires ps != []
    ensures Untouched(ps, touched) <==> KeyOf(ps[0].values) !in touched && Untouched(ps[1..], touched)
  {
    hide KeyOf;
    assert forall i :: 0 <= i < |ps| - 1 ==> ps[1..][i] == ps[i + 1];
    if KeyOf(ps[0].values) !in touched && Untouched(ps[1..], touched) {
      forall i | 0 <= i < |ps|
        ensures KeyOf(ps[i].values) !in touched
      {
        if i > 0 { assert ps[i] == ps[1..][i - 1]; }
      }
    }
  }

  lemma UntouchedMore(qs: seq<Proposed>, touched: set<Key>, p: Proposed)
    ensures Untouched(qs, touched + {KeyOf(p.values)}) <==>
            Untouched(qs, touched) && forall i :: 0 <= i < |qs| ==> !SamePrice(p.values, qs[i].values)
  {
    if Untouched(qs, touched + {KeyOf(p.values)}) {
      forall i | 0 <= i < |qs|
        ensures KeyOf(qs[i].values) !in touched && !SamePrice(p.values, qs[i].values)
      {
        assert KeyOf(qs[i].values) !in touched + {KeyOf(p.values)};
      }
    }
  }

  lemma KeysTail(ps: seq<Proposed>, touched: set<Key>)
    requires ps != []
    ensures SameKeysApart(ps) && Untouched(ps, touched) <==>
            && KeyOf(ps[0].values) !in touched
            && SameKeysApart(ps[1..]) && Untouched(ps[1..], touched + {KeyOf(ps[0].values)})
  {
    hide SameKeysApart, Untouched, SamePrice, KeyOf;
    ApartTail(ps);
    UntouchedTail(ps, touched);
    UntouchedMore(ps[1..], touched, ps[0]);
  }

  lemma {:induction false} UpsertSucceedsExactlyWhen(t: Table, ps: seq<Proposed>, now: Instant, touched: set<Key>)
    requires UniqueKeys(t) && Fresh(t, ps)
    ensures Upsert(t, ps, now, touched).Ok? <==> Priced(ps) && SameKeysApart(ps) && Untouched(ps, touched)
    decreases |ps|
  {
    if ps != [] {
      var p := ps[0];
      PricedTail(ps);
      KeysTail(ps, touched);
      if RowFailure(t, p, touched).None? {
        UpsertRowMeans(t, p, now);
        FreshTail(t, ps, now);
        UpsertSucceedsExactlyWhen(UpsertRow(t, p, now).0, ps[1..], now, touched + {KeyOf(p.values)});
      }
    }
  }

  // With fresh ids, a healthy database accepts the statement exactly when no two of its rows
  // share a key and no price is negative.
  lemma StatementSucceedsExactlyWhen(t: Table, ps: seq<Proposed>, now: Instant)
    requires UniqueKeys(t) && Fresh(t, ps)
    ensures BulkUpsert(t, ps, now, true).Ok? <==> Priced(ps) && SameKeysApart(ps)
  {
    UpsertSucceedsExactlyWhen(t, ps, now, {});
  }

  // Whatever the statement refuses, it refuses for its rows.
  lemma {:induction false} UpsertRefusals(t: Table, ps: seq<Proposed>, now: Instant, touched: set<Key>)
    requires UniqueKeys(t) && Fresh(t, ps)
    ensures var r := Upsert(t, ps, now, touched);
            && (r.Err? ==> r.error == NegativePrice || r.error == SameKeyTwice)
            && (r == Err(NegativePrice) ==> !Priced(ps))
            && (r == Err(SameKeyTwice) ==> !(SameKeysApart(ps) && Untouched(ps, touched)))
    decreases |ps|
  {
    if ps != [] {
      PricedTail(ps);
      KeysTail(ps, touched);
      if RowFailure(t, ps[0], touched).None? {
        UpsertRowMeans(t, ps[0], now);
        FreshTail(t, ps, now);
        UpsertRefusals(UpsertRow(t, ps[0], now).0, ps[1..], now, touched + {KeyOf(ps[0].values)});
      }
    }
  }

  // What becomes of a chunk whose uuids are fresh: the statement is refused for a negative
  // price or for two rows that agree in country, store, sku and date, and only then; what it
  // takes is committed, or nothing changes; what is committed returns the number of rows
  // exactly when there are none or one of the five imports is accepted.
  lemma ChunkOutcome(w: World, ps: seq<Proposed>, now: Instant, env: Env)
    requires UniqueKeys(w.table) && Fresh(w.table, ps)
    ensures var (w', r) := ChunkStep(w, ps, now, env);
            var taken := Priced(ps) && SameKeysApart(ps);
            var delivered := ps == [] || exists a :: 0 <= a < 5 && ReplyAt(env.replies, a).Accepted?;
            && (r == Ok(|ps|) <==> taken && (env.dbOk || ps == []) && delivered)
            && (r.Ok? ==> r == Ok(|ps|))
            && (r == Err(IndexDown) <==> taken && (env.dbOk || ps == []) && !delivered)
            && (r == Err(DatabaseDown) <==> taken && ps != [] && !env.dbOk)
            && (!taken <==> r == Err(NegativePrice) || r == Err(SameKeyTwice))
            && (r == Err(NegativePrice) ==> !Priced(ps)) && (r == Err(SameKeyTwice) ==> !SameKeysApart(ps))
            && (!taken || (ps != [] && !env.dbOk) ==> w' == w)
  {
    hide Upsert, IndexAfter, SameKeysApart, Priced, Fresh;
    UpsertSucceedsExactlyWhen(w.table, ps, now, {});
    UpsertRefusals(w.table, ps, now, {});
    NothingTouched(ps);
    NoRows();
    if BulkUpsert(w.table, ps, now, env.dbOk).Ok? {
      BulkUpsertMeans(w.table, ps, now, env.dbOk);
    }
  }

  lemma NothingTouched(ps: seq<Proposed>)
    ensures Untouched(ps, {})
  {
  }

  lemma NoRows()
    ensures Priced([]) && SameKeysApart([])
  {
  }

  // The statement adds rows only under the ids it was given.
  lemma {:induction false} UpsertGrowsBy(t: Table, ps: seq<Proposed>, now: Instant, touched: set<Key>)
    requires UniqueKeys(t) && Upsert(t, ps, now, touched).Ok?
    ensures Upsert(t, ps, now, touched).value.0.Keys <= t.Keys + ProposedIds(ps)
    decreases |ps|
  {
    if ps != [] {
      var p := ps[0];
      UpsertRowMeans(t, p, now);
      UpsertGrowsBy(UpsertRow(t, p, now).0, ps[1..], now, touched + {KeyOf(p.values)});
      assert ps == [p] + ps[1..];
      assert ProposedIds(ps) == {p.id} + ProposedIds(ps[1..]);
    }
  }
}
