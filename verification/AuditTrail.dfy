// The audits account for every change of a row that no ingest made: replayed in order, they
// lead from the values the row had to the values it has.
module AuditTrail {
  import opened Records
  import opened IndexClient
  import opened IngestProtocol

  // The row's audits among these, in order: each starts from the values reached so far.
  ghost predicate Replays(audits: seq<Audit>, id: Id, from: Values, to: Values) {
    if audits == [] then from == to
    else if audits[0].record == id then audits[0].before == from && Replays(audits[1..], id, audits[0].after, to)
    else Replays(audits[1..], id, from, to)
  }

  lemma {:induction false} ReplaysConcat(a: seq<Audit>, b: seq<Audit>, id: Id, from: Values, mid: Values, to: Values)
    requires Replays(a, id, from, mid) && Replays(b, id, mid, to)
    ensures Replays(a + b, id, from, to)
  {
    if a == [] {
      assert a + b == b;
    } else {
      assert (a + b)[1..] == a[1..] + b;
      ReplaysConcat(a[1..], b, id, if a[0].record == id then a[0].after else from, mid, to);
    }
  }

  // The audits that a step adds.
  ghost function Added(w: World, w': World): seq<Audit>
    requires w.audits <= w'.audits
  {
    w'.audits[|w.audits|..]
  }

  lemma StepReplays(w: World, e: Event, id: Id)
    requires UniqueKeys(w.table) && Spares(w, e, id) && id in w.table && id in Step(w, e).table
    ensures w.audits <= Step(w, e).audits
    ensures Replays(Added(w, Step(w, e)), id, w.table[id].values, Step(w, e).table[id].values)
  {
    var w' := Step(w, e);
    match e {
      case Ingest(rows, now, env) =>
        if BulkUpsert(w.table, rows, now, env.dbOk).Ok? {
          BulkUpsertMeans(w.table, rows, now, env.dbOk);
        }
      case Amend(x, user, edit, now, env) =>
        EditReplays(w, x, user, edit, now, env, id);
      case Retire(cutoff, dbOk) =>
    }
  }

  lemma EditReplays(w: World, x: Id, user: Id, e: Edit, now: Instant, env: Env, id: Id)
    requires id in w.table
    ensures var w' := EditStep(w, x, user, e, now, env).0;
            && w.audits <= w'.audits && id in w'.table
            && Replays(Added(w, w'), id, w.table[id].values, w'.table[id].values)
  {
    hide UpdateDoc;
    var w' := EditStep(w, x, user, e, now, env).0;
    if EditFailure(w.table, x, e, env.dbOk).None? {
      var audit := Audit(x, user, e.reason, w.table[x].values, w'.table[x].values);
      assert Added(w, w') == [audit] && [audit][1..] == [];
    }
  }

  lemma {:induction false} GoneStaysGone(w: World, es: seq<Event>, id: Id)
    requires UniqueKeys(w.table) && RunSpares(w, es, id) && id !in w.table
    ensures id !in Run(w, es).table
    decreases |es|
  {
    if es != [] {
      StepKeepsGone(w, es[0], id);
      GoneStaysGone(Step(w, es[0]), es[1..], id);
    }
  }

  lemma StepKeepsGone(w: World, e: Event, id: Id)
    requires UniqueKeys(w.table) && Spares(w, e, id) && id !in w.table
    ensures id !in Step(w, e).table
  {
    if e.Ingest? && BulkUpsert(w.table, e.rows, e.now, e.env.dbOk).Ok? {
      BulkUpsertMeans(w.table, e.rows, e.now, e.env.dbOk);
    }
  }

  // Over any run that does not ingest into a row and does not end with the row retired, the
  // audits the run added replay the row's values from its start to its end.
  lemma {:induction false} RunReplays(w: World, es: seq<Event>, id: Id)
    requires UniqueKeys(w.table) && RunSpares(w, es, id)
    requires id in w.table && id in Run(w, es).table
    ensures w.audits <= Run(w, es).audits
    ensures Replays(Added(w, Run(w, es)), id, w.table[id].values, Run(w, es).table[id].values)
    decreases |es|
  {
    hide Step, Replays, Spares;
    if es == [] {
      NothingReplays(w, id);
    } else {
      var w1, end := Step(w, es[0]), Run(w, es);
      if id !in w1.table {
        GoneStaysGone(w1, es[1..], id);
        assert false;
      }
      StepReplays(w, es[0], id);
      RunReplays(w1, es[1..], id);
      ReplaysConcat(Added(w, w1), Added(w1, end), id, w.table[id].values, w1.table[id].values, end.table[id].values);
      assert Added(w, end) == Added(w, w1) + Added(w1, end);
    }
  }

  lemma NothingReplays(w: World, id: Id)
    requires id in w.table
    ensures Replays(Added(w, w), id, w.table[id].values, w.table[id].values)
  {
  }
}
