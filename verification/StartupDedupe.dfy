// Startup: delete duplicate rows, then add the unique index (backend/app/main.py).
module StartupDedupe {
  import opened Prelude
  import opened Records
  import opened IngestProtocol
  import opened PricingService

  // The order of a partition puts i before j: later update first, then later creation, then
  // the greater id.
  predicate RanksBefore(t: Table, i: Id, j: Id)
    requires i in t && j in t
  {
    || t[i].updatedAt > t[j].updatedAt
    || (t[i].updatedAt == t[j].updatedAt && t[i].createdAt > t[j].createdAt)
    || (t[i].updatedAt == t[j].updatedAt && t[i].createdAt == t[j].createdAt && i > j)
  }

  // The other rows of the partition that come first.
  function Ahead(t: Table, id: Id): set<Id>
    requires id in t
  {
    set j | j in t && KeyOf(t[j].values) == KeyOf(t[id].values) && RanksBefore(t, j, id)
  }

  // The row's number within its key's partition, counted from one.
  function RowNumber(t: Table, id: Id): nat
    requires id in t
  {
    1 + |Ahead(t, id)|
  }

  function Duplicates(t: Table): set<Id> {
    set id | id in t && RowNumber(t, id) > 1
  }

  // The DELETE; like any delete it fails whole when it hits an audited row.
  function Dedupe(t: Table, audits: seq<Audit>): Result<Table, Failure> {
    if Duplicates(t) * Audited(audits) != {} then Err(Conflict) else Ok(t - Duplicates(t))
  }

  // The migration's transaction: the delete, then the unique index, which cannot be built on
  // a table with two rows of one key, then the commit.
  method MigrateKeys(db: Database, commits: bool) returns (r: Result<(), Failure>)
    requires db.Clean()
    modifies db`table, db`audits, db`feeds, db`committed
    ensures db.Clean() && db.audits == old(db.audits) && db.feeds == old(db.feeds)
    ensures match Dedupe(old(db.table), old(db.audits))
            case Ok(t) =>
              if commits then r == Ok(()) && db.table == t && UniqueKeys(db.table)
              else r == Err(DatabaseDown) && db.table == old(db.table)
            case Err(failure) => r == Err(failure) && db.table == old(db.table)
  {
    hide Duplicates, FirstOf, Group, UniqueKeys;
    var duplicates := Duplicates(db.table);
    DedupeLeavesBest(db.table);
    db.table := db.table - duplicates;
    if duplicates * Audited(db.audits) != {} {
      db.Rollback();
      return Err(Conflict);
    }
    assert UniqueKeys(db.table);
    var committed := db.Commit(commits);
    if !committed {
      db.Rollback();
      return Err(DatabaseDown);
    }
    r := Ok(());
  }

  lemma NewerTotal(t: Table, i: Id, j: Id, k: Id)
    requires i in t && j in t && k in t
    ensures i != j ==> Newer(t, i, j) || Newer(t, j, i)
    ensures i != j ==> !(Newer(t, i, j) && Newer(t, j, i))
    ensures i != j && j != k && Newer(t, i, j) && Newer(t, j, k) ==> Newer(t, i, k)
  {
  }

  // The newest of the group: latest updated_at, then latest created_at, then greatest id.
  ghost predicate FirstOf(t: Table, group: set<Id>, id: Id) {
    && (forall j :: j in group ==> j in t)
    && id in group
    && forall j :: j in group && j != id ==> Newer(t, id, j)
  }

  ghost predicate Newer(t: Table, id: Id, j: Id) {
    && id in t && j in t
    && t[j].updatedAt <= t[id].updatedAt
    && (t[j].updatedAt == t[id].updatedAt ==>
          && t[j].createdAt <= t[id].createdAt
          && (t[j].createdAt == t[id].createdAt ==> j < id))
  }

  lemma RanksBeforeIsNewer(t: Table, i: Id, j: Id)
    requires i in t && j in t && i != j
    ensures RanksBefore(t, i, j) <==> Newer(t, i, j)
  {
  }

  lemma {:induction false} FirstExists(t: Table, group: set<Id>) returns (id: Id)
    requires group != {} && forall j :: j in group ==> j in t
    ensures FirstOf(t, group, id)
    decreases |group|
  {
    var some :| some in group;
    var rest := group - {some};
    if rest == {} {
      id := some;
      assert group == {some};
    } else {
      var best := FirstExists(t, rest);
      NewerTotal(t, some, best, best);
      id := if Newer(t, some, best) then some else best;
      forall j | j in group && j != id
        ensures Newer(t, id, j)
      {
        NewerTotal(t, some, best, j);
      }
    }
  }

  // The rows that price the same thing.
  ghost function Group(t: Table, v: Values): set<Id> {
    set id | id in t && SamePrice(t[id].values, v)
  }

  // A row survives exactly when it is the first of its group.
  lemma SurvivesExactlyWhen(t: Table, id: Id)
    requires id in t
    ensures id !in Duplicates(t) <==> FirstOf(t, Group(t, t[id].values), id)
  {
    var group := Group(t, t[id].values);
    if id !in Duplicates(t) {
      assert |Ahead(t, id)| == 0;
      forall j | j in group && j != id
        ensures Newer(t, id, j)
      {
        assert j !in Ahead(t, id);
        RanksBeforeIsNewer(t, j, id);
        RanksBeforeIsNewer(t, id, j);
      }
    } else if FirstOf(t, group, id) {
      var j :| j in Ahead(t, id);
      assert j in group;
      RanksBeforeIsNewer(t, j, id);
      NewerTotal(t, id, j, j);
      assert false;
    }
  }

  // The delete leaves exactly one row of those that agree in country, store, sku and date:
  // unchanged, and the first of them by updated_at, created_at and id.
  lemma DedupeLeavesBest(t: Table)
    ensures var t' := t - Duplicates(t);
            && UniqueKeys(t')
            && (forall id :: id in t ==> exists kept :: kept in t' && SamePrice(t'[kept].values, t[id].values))
            && (forall id :: id in t' ==> id in t && t'[id] == t[id] && FirstOf(t, Group(t, t[id].values), id))
  {
    var t' := t - Duplicates(t);
    forall id | id in t'
      ensures FirstOf(t, Group(t, t[id].values), id)
    {
      SurvivesExactlyWhen(t, id);
    }
    forall i, j | i in t' && j in t' && SamePrice(t'[i].values, t'[j].values)
      ensures i == j
    {
      NewerTotal(t, i, j, j);
    }
    forall id | id in t
      ensures exists kept :: kept in t' && SamePrice(t'[kept].values, t[id].values)
    {
      var group := Group(t, t[id].values);
      assert id in group;
      var first := FirstExists(t, group);
      assert Group(t, t[first].values) == group;
      SurvivesExactlyWhen(t, first);
      assert first in t' && SamePrice(t'[first].values, t[id].values);
    }
  }

  // On a table with unique keys, as every later startup finds it, nothing is deleted.
  lemma DedupeIsIdempotent(t: Table, audits: seq<Audit>)
    ensures UniqueKeys(t) ==> Dedupe(t, audits) == Ok(t)
    ensures Dedupe(t, audits).Ok? ==> Dedupe(Dedupe(t, audits).value, audits) == Dedupe(t, audits)
  {
    DedupeLeavesBest(t);
    UniqueHasNoDuplicates(t);
    UniqueHasNoDuplicates(t - Duplicates(t));
  }

  lemma UniqueHasNoDuplicates(t: Table)
    ensures UniqueKeys(t) ==> Duplicates(t) == {} && t - Duplicates(t) == t
  {
    if UniqueKeys(t) {
      forall id | id in t
        ensures id !in Duplicates(t)
      {
        forall j | j in Ahead(t, id)
          ensures false
        {
          NewerTotal(t, id, j, j);
        }
        assert Ahead(t, id) == {};
      }
    }
  }

  // The startup goes through exactly when no audited row is outranked in its group.
  lemma DedupeSucceedsExactlyWhen(t: Table, audits: seq<Audit>)
    ensures Dedupe(t, audits).Ok? <==>
            forall a :: a in audits && a.record in t ==> FirstOf(t, Group(t, t[a.record].values), a.record)
  {
    forall a | a in audits && a.record in t
      ensures a.record !in Duplicates(t) <==> FirstOf(t, Group(t, t[a.record].values), a.record)
    {
      SurvivesExactlyWhen(t, a.record);
    }
    if Duplicates(t) * Audited(audits) != {} {
      var id :| id in Duplicates(t) * Audited(audits);
      var a :| a in audits && a.record == id;
    } else {
      forall a | a in audits && a.record in t
        ensures a.record !in Duplicates(t)
      {
        assert a.record in Audited(audits);
        assert a.record !in Duplicates(t) * Audited(audits);
      }
    }
  }

  // After a startup that went through, every run of ingests, edits and retention passes
  // keeps one row per key, and every later startup goes through and deletes nothing.
  lemma UniqueEverAfter(t: Table, w: World, es: seq<Event>)
    requires Dedupe(t, w.audits) == Ok(w.table)
    ensures UniqueKeys(w.table)
    ensures var w' := Run(w, es);
            UniqueKeys(w'.table) && Dedupe(w'.table, w'.audits) == Ok(w'.table)
  {
    DedupeLeavesBest(t);
    DedupeIsIdempotent(Run(w, es).table, Run(w, es).audits);
  }
}
