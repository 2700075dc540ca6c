// What cached answers are worth: which requests may share one, what keeps a cache hit what
// the index path would answer now, and how old a hit can be.
module CacheFreshness {
  import opened Prelude
  import opened Records
  import opened IngestProtocol
  import opened SearchFilter
  import opened SearchCache
  import opened Upload
  import opened UploadResults
  import opened PricingApi
  import opened AnswerChanges
  import Ttl = TtlCache

  // ---------- requests with equal keys ----------

  lemma SameAdmitted(index: Index, strip: string -> string, a: Request, b: Request)
    requires Settled(a.filters) && MakePricingCacheKey(a, strip) == MakePricingCacheKey(b, strip)
    ensures Admitted(index, a.filters) == Admitted(index, b.filters)
  {
    hide IndexAdmits, MakePricingCacheKey, Settled;
    forall id | id in index
      ensures IndexAdmits(a.filters, index[id]) <==> IndexAdmits(b.filters, index[id])
    {
      EqualKeysSamePredicate(a, b, strip, index[id]);
    }
  }

  lemma SameReadable(strip: string -> string, a: Request, b: Request)
    requires Settled(a.filters) && MakePricingCacheKey(a, strip) == MakePricingCacheKey(b, strip)
    ensures ReadFilter(FilterText(a.filters)).Some? <==> ReadFilter(FilterText(b.filters)).Some?
  {
    EqualKeysSamePredicate(a, b, strip, Doc(0, "", "", "", "", 0, "", true, 0));
  }

  lemma EqualKeysSameAnswer(t: Table, index: Index, engine: Engine, strip: string -> string, a: Request, b: Request)
    requires Settled(a.filters) && EngineQuery(a) == EngineQuery(b)
    requires MakePricingCacheKey(a, strip) == MakePricingCacheKey(b, strip)
    ensures Answer(t, index, engine, a) == Answer(t, index, engine, b)
  {
    hide Admitted, FilterText, ReadFilter, MakePricingCacheKey, Settled;
    KeysEqualExactlyWhen(a, b, strip);
    SameReadable(strip, a, b);
    SameAdmitted(index, strip, a, b);
  }

  // The same query text, where none at all counts as asking for everything.
  predicate SameQuery(a: Request, b: Request) {
    a.q == b.q || (a.q in {None, Some(""), Some("*")} && b.q in {None, Some(""), Some("*")})
  }

  lemma SameQueryMeans(a: Request, b: Request)
    ensures SameQuery(a, b) <==> EngineQuery(a) == EngineQuery(b)
  {
  }

  // An engine that tells this query text from all others.
  ghost function Asking(query: string): Engine {
    Engine((seen: Index, q: string, page: nat, perPage: nat) => ([], if q == query then 1 else 0),
           (seen: Index, q: string) => Meta(if q == query then 1 else 0, [], []))
  }

  // The index rejects both requests, or takes both for the same query over the same documents.
  ghost predicate SameMeaning(a: Request, b: Request) {
    var rejected := ReadFilter(FilterText(a.filters)).None?;
    && rejected == ReadFilter(FilterText(b.filters)).None?
    && (!rejected ==> SameQuery(a, b) && forall doc: Doc :: IndexAdmits(a.filters, doc) <==> IndexAdmits(b.filters, doc))
  }

  // Two requests with one key are answered alike, over every table, index and ranking,
  // exactly when they mean the same; if the order of their values does not matter, that is
  // when the white space around q does not reach the index, or it rejects them both.
  lemma EqualKeysSameAnswerExactlyWhen(strip: string -> string, a: Request, b: Request)
    requires MakePricingCacheKey(a, strip) == MakePricingCacheKey(b, strip)
    ensures (forall t: Table, index: Index, engine: Engine :: Answer(t, index, engine, a) == Answer(t, index, engine, b))
            <==> SameMeaning(a, b)
    ensures Settled(a.filters) ==> (SameMeaning(a, b) <==> SameQuery(a, b) || ReadFilter(FilterText(a.filters)).None?)
  {
    hide Admitted, FilterText, ReadFilter, MakePricingCacheKey, Settled, EngineQuery, SameQuery, IndexAdmits;
    if SameMeaning(a, b) {
      forall t: Table, index: Index, engine: Engine
        ensures Answer(t, index, engine, a) == Answer(t, index, engine, b)
      {
        SameMeaningSameAnswer(t, index, engine, strip, a, b);
      }
    } else {
      var t, index, engine := Tells(strip, a, b);
      assert Answer(t, index, engine, a) != Answer(t, index, engine, b);
    }
    if Settled(a.filters) {
      SameReadable(strip, a, b);
      forall doc: Doc
        ensures IndexAdmits(a.filters, doc) <==> IndexAdmits(b.filters, doc)
      {
        EqualKeysSamePredicate(a, b, strip, doc);
      }
    }
  }

  lemma SameMeaningSameAnswer(t: Table, index: Index, engine: Engine, strip: string -> string, a: Request, b: Request)
    requires MakePricingCacheKey(a, strip) == MakePricingCacheKey(b, strip) && SameMeaning(a, b)
    ensures Answer(t, index, engine, a) == Answer(t, index, engine, b)
  {
    hide FilterText, ReadFilter, MakePricingCacheKey, EngineQuery, SameQuery, IndexAdmits, GetByIds;
    KeysEqualExactlyWhen(a, b, strip);
    SameQueryMeans(a, b);
    if ReadFilter(FilterText(a.filters)).Some? {
      assert Admitted(index, a.filters) == Admitted(index, b.filters);
    }
  }

  // Requests that do not mean the same are told apart somewhere.
  lemma Tells(strip: string -> string, a: Request, b: Request) returns (t: Table, index: Index, engine: Engine)
    requires MakePricingCacheKey(a, strip) == MakePricingCacheKey(b, strip) && !SameMeaning(a, b)
    ensures Answer(t, index, engine, a) != Answer(t, index, engine, b)
  {
    hide FilterText, ReadFilter, MakePricingCacheKey, EngineQuery, SameQuery, IndexAdmits;
    KeyHasScope(a, strip);
    KeyHasScope(b, strip);
    SameQueryMeans(a, b);
    t, index, engine := map[], map[], Asking(EngineQuery(a));
    if ReadFilter(FilterText(a.filters)).Some? && ReadFilter(FilterText(b.filters)).Some? && SameQuery(a, b) {
      var doc: Doc :| IndexAdmits(a.filters, doc) != IndexAdmits(b.filters, doc);
      index := map[0 := doc];
      engine := Counting(Admitted(index, a.filters));
      assert (0 in Admitted(index, a.filters)) != (0 in Admitted(index, b.filters));
    }
  }

  lemma KeyHasScope(r: Request, strip: string -> string)
    ensures MakePricingCacheKey(r, strip).scope == r.scope
  {
  }

  // ---------- interleaved queries and writes ----------

  // An answer that the index path has computed and not yet stored.
  datatype Pending = Pending(r: Request, response: Response)

  // The table and the index, the caches in front of them, and the queries under way.
  datatype Site = Site(w: World, caches: ResponseCaches, pending: seq<Pending>)

  // Steps of all processes in front of one Redis server, or of one process with caches in
  // memory. A query looks into the cache and computes its answer, and stores it later, at
  // its turn among those under way. A chunk, an edit or a retention pass writes; a clear
  // comes on its own, and a Redis server, if there is one, answers the delete or not.
  datatype Op =
    | Begin(r: Request, now: int, looks: bool, up: bool)
    | Finish(turn: nat, now: int, keeps: bool)
    | Write(e: Event)
    | Clear(reached: bool)

  function BeginQuery(
    s: Site, config: Ttl.Config, engine: Engine, key: CacheKey, r: Request, now: int, looks: bool, up: bool): Site
  {
    var (looked, hit) := Look(s.caches, config, key, now, looks);
    var found := IndexPath(s.w.table, s.w.index, engine, r, up);
    Site(s.w, looked, if hit.None? && found.Some? then s.pending + [Pending(r, found.value)] else s.pending)
  }

  function FinishQuery(s: Site, config: Ttl.Config, strip: string -> string, turn: nat, now: int, keeps: bool): Site {
    if turn < |s.pending| then
      var done := s.pending[turn];
      Site(s.w, Keep(s.caches, config, MakePricingCacheKey(done.r, strip), done.response, now, keeps),
           s.pending[..turn] + s.pending[turn + 1..])
    else s
  }

  ghost function SiteStep(s: Site, config: Ttl.Config, engine: Engine, strip: string -> string, op: Op): (s': Site)
    requires UniqueKeys(s.w.table)
    ensures UniqueKeys(s'.w.table)
  {
    match op
    case Begin(r, now, looks, up) => BeginQuery(s, config, engine, MakePricingCacheKey(r, strip), r, now, looks, up)
    case Finish(turn, now, keeps) => FinishQuery(s, config, strip, turn, now, keeps)
    case Write(e) => s.(w := Step(s.w, e))
    case Clear(reached) => s.(caches := Cleared(s.caches, reached))
  }

  ghost function SiteRun(s: Site, config: Ttl.Config, engine: Engine, strip: string -> string, ops: seq<Op>): (s': Site)
    requires UniqueKeys(s.w.table)
    ensures UniqueKeys(s'.w.table)
    decreases |ops|
  {
    if ops == [] then s else SiteRun(SiteStep(s, config, engine, strip, ops[0]), config, engine, strip, ops[1..])
  }

  lemma {:induction false} SiteRunConcat(
    s: Site, config: Ttl.Config, engine: Engine, strip: string -> string, a: seq<Op>, b: seq<Op>)
    requires UniqueKeys(s.w.table)
    ensures SiteRun(s, config, engine, strip, a + b) ==
            SiteRun(SiteRun(s, config, engine, strip, a), config, engine, strip, b)
    decreases |a|
  {
    hide SiteStep;
    if a == [] {
      assert a + b == b;
    } else {
      assert (a + b)[0] == a[0] && (a + b)[1..] == a[1..] + b;
      SiteRunConcat(SiteStep(s, config, engine, strip, a[0]), config, engine, strip, a[1..], b);
    }
  }

  lemma OneStep(s: Site, config: Ttl.Config, engine: Engine, strip: string -> string, op: Op)
    requires UniqueKeys(s.w.table)
    ensures SiteRun(s, config, engine, strip, [op]) == SiteStep(s, config, engine, strip, op)
  {
    hide SiteStep;
    var next := SiteStep(s, config, engine, strip, op);
    assert [op][1..] == [] && SiteRun(next, config, engine, strip, []) == next;
  }

  // ---------- what the requests do, as steps ----------

  // A query that is not interrupted is the endpoint's search.
  lemma UninterruptedIsAsk(
    s: Site, config: Ttl.Config, engine: Engine, strip: string -> string, r: Request,
    now: int, server: Server, up: bool, fallback: Response)
    requires UniqueKeys(s.w.table) && s.pending == []
    ensures var found := IndexPath(s.w.table, s.w.index, engine, r, up);
            SiteRun(s, config, engine, strip, [Begin(r, now, server.looks, up), Finish(0, now, server.keeps)]) ==
            s.(caches := Ask(s.caches, config, MakePricingCacheKey(r, strip), now, server, found, fallback).0)
  {
    hide MakePricingCacheKey, Look, Keep, IndexPath, SiteRun;
    var begin, finish := Begin(r, now, server.looks, up), Finish(0, now, server.keeps);
    SiteRunConcat(s, config, engine, strip, [begin], [finish]);
    assert [begin] + [finish] == [begin, finish];
    OneStep(s, config, engine, strip, begin);
    OneStep(SiteStep(s, config, engine, strip, begin), config, engine, strip, finish);
  }

  function Writes(es: seq<Event>): (ops: seq<Op>)
    ensures |ops| == |es| && forall i :: 0 <= i < |es| ==> ops[i] == Write(es[i])
  {
    seq(|es|, i requires 0 <= i < |es| => Write(es[i]))
  }

  lemma {:induction false} WritesAreRun(s: Site, config: Ttl.Config, engine: Engine, strip: string -> string, es: seq<Event>)
    requires UniqueKeys(s.w.table)
    ensures SiteRun(s, config, engine, strip, Writes(es)) == s.(w := Run(s.w, es))
    decreases |es|
  {
    hide Step;
    if es != [] {
      assert Writes(es)[1..] == Writes(es[1..]);
      WritesAreRun(s.(w := Step(s.w, es[0])), config, engine, strip, es[1..]);
    }
  }

  // The steps of an edit: the write, and the clear if the request returns.
  ghost function EditOps(w: World, id: Id, user: Id, e: Edit, now: Instant, env: Env, reached: bool): seq<Op> {
    Writes([Amend(id, user, e, now, env)]) + if EditStep(w, id, user, e, now, env).1.Ok? then [Clear(reached)] else []
  }

  // The steps of an upload: its chunks, and the clear if the request returns.
  ghost function UploadOps(w: World, job: Job, finalCommits: bool, reached: bool): seq<Op>
    requires UniqueKeys(w.table)
  {
    Writes(ChunkEvents(w, job, 0, 0)) +
    if ChunkLoop(w, job, 0, 0, 0).verdict.Ok? && finalCommits then [Clear(reached)] else []
  }

  lemma WritesThenClear(
    s: Site, config: Ttl.Config, engine: Engine, strip: string -> string, es: seq<Event>, clears: bool, reached: bool)
    requires UniqueKeys(s.w.table)
    ensures SiteRun(s, config, engine, strip, Writes(es) + if clears then [Clear(reached)] else []) ==
            Site(Run(s.w, es), if clears then Cleared(s.caches, reached) else s.caches, s.pending)
  {
    hide Run;
    WritesAreRun(s, config, engine, strip, es);
    SiteRunConcat(s, config, engine, strip, Writes(es), if clears then [Clear(reached)] else []);
    if clears {
      OneStep(s.(w := Run(s.w, es)), config, engine, strip, Clear(reached));
    }
  }

  // Uninterrupted, they end in the world and the caches of the endpoints' contracts.
  lemma RequestsAreSteps(
    s: Site, config: Ttl.Config, engine: Engine, strip: string -> string,
    id: Id, user: Id, e: Edit, now: Instant, env: Env, job: Job, finalCommits: bool, reached: bool)
    requires UniqueKeys(s.w.table)
    ensures var (w', r) := EditStep(s.w, id, user, e, now, env);
            SiteRun(s, config, engine, strip, EditOps(s.w, id, user, e, now, env, reached)) ==
            Site(w', if r.Ok? then Cleared(s.caches, reached) else s.caches, s.pending)
    ensures var end := ChunkLoop(s.w, job, 0, 0, 0);
            SiteRun(s, config, engine, strip, UploadOps(s.w, job, finalCommits, reached)) ==
            Site(end.world, if end.verdict.Ok? && finalCommits then Cleared(s.caches, reached) else s.caches, s.pending)
  {
    hide SiteRun, EditStep, ChunkLoop, ChunkEvents, Cleared;
    var amend := [Amend(id, user, e, now, env)];
    assert amend[1..] == [] && Run(Step(s.w, amend[0]), []) == Step(s.w, amend[0]);
    WritesThenClear(s, config, engine, strip, amend, EditStep(s.w, id, user, e, now, env).1.Ok?, reached);
    LoopIsRun(s.w, job, 0, 0, 0);
    WritesThenClear(s, config, engine, strip, ChunkEvents(s.w, job, 0, 0),
                    ChunkLoop(s.w, job, 0, 0, 0).verdict.Ok? && finalCommits, reached);
  }

  // ---------- fresh hits ----------

  // The write changes nothing, or nothing that this request's answers depend on.
  ghost predicate Spared(w: World, w': World, engine: Engine, r: Request) {
    || (w'.table == w.table && w'.index == w.index)
    || (Selects(engine) && SameAnswers(w, w', r))
  }

  // Harmless to request r: queries with its key send the index the same query text, and
  // writes spare its answers.
  ghost predicate Harmless(s: Site, engine: Engine, strip: string -> string, op: Op, r: Request)
    requires UniqueKeys(s.w.table)
  {
    match op
    case Begin(asked, _, _, _) =>
      MakePricingCacheKey(asked, strip) == MakePricingCacheKey(r, strip) ==> SameQuery(asked, r)
    case Write(e) => Spared(s.w, Step(s.w, e), engine, r)
    case _ => true
  }

  ghost predicate HarmlessRun(s: Site, config: Ttl.Config, engine: Engine, strip: string -> string, ops: seq<Op>, r: Request)
    requires UniqueKeys(s.w.table)
    decreases |ops|
  {
    ops != [] ==>
      && Harmless(s, engine, strip, ops[0], r)
      && HarmlessRun(SiteStep(s, config, engine, strip, ops[0]), config, engine, strip, ops[1..], r)
  }

  // What the caches hold for the request, and what is about to be stored for it, is what the
  // index path would answer now.
  ghost predicate FreshFor(s: Site, engine: Engine, strip: string -> string, r: Request) {
    var key, answer := MakePricingCacheKey(r, strip), Answer(s.w.table, s.w.index, engine, r);
    && (Held(s.caches, key).Some? ==> Some(Held(s.caches, key).value.value) == answer)
    && (forall p :: p in s.pending && MakePricingCacheKey(p.r, strip) == key ==> Some(p.response) == answer)
  }

  lemma BeginKeepsFresh(s: Site, config: Ttl.Config, engine: Engine, strip: string -> string, op: Op, r: Request)
    requires UniqueKeys(s.w.table) && op.Begin? && Settled(r.filters)
    requires Harmless(s, engine, strip, op, r) && FreshFor(s, engine, strip, r)
    ensures FreshFor(SiteStep(s, config, engine, strip, op), engine, strip, r)
  {
    hide Answer, MakePricingCacheKey, Settled, Look, EngineQuery, SameQuery, Held;
    var key, mine := MakePricingCacheKey(op.r, strip), MakePricingCacheKey(r, strip);
    if key == mine {
      SameQueryMeans(op.r, r);
      EqualKeysSameAnswer(s.w.table, s.w.index, engine, strip, r, op.r);
    }
    LookMeans(s.caches, config, key, op.now, op.looks, mine);
  }

  lemma FinishKeepsFresh(s: Site, config: Ttl.Config, engine: Engine, strip: string -> string, op: Op, r: Request)
    requires UniqueKeys(s.w.table) && op.Finish? && FreshFor(s, engine, strip, r)
    ensures FreshFor(SiteStep(s, config, engine, strip, op), engine, strip, r)
  {
    hide Answer, MakePricingCacheKey, Keep, Held;
    if op.turn < |s.pending| {
      var done := s.pending[op.turn];
      assert done in s.pending;
      var key, mine := MakePricingCacheKey(done.r, strip), MakePricingCacheKey(r, strip);
      KeepChangesOnlyKey(s.caches, config, key, done.response, op.now, op.keeps, mine);
    }
  }

  lemma StepKeepsFresh(s: Site, config: Ttl.Config, engine: Engine, strip: string -> string, op: Op, r: Request)
    requires UniqueKeys(s.w.table) && Settled(r.filters)
    requires Harmless(s, engine, strip, op, r) && FreshFor(s, engine, strip, r)
    ensures FreshFor(SiteStep(s, config, engine, strip, op), engine, strip, r)
  {
    match op {
      case Begin(_, _, _, _) => BeginKeepsFresh(s, config, engine, strip, op, r);
      case Finish(_, _, _) => FinishKeepsFresh(s, config, engine, strip, op, r);
      case Write(e) =>
        hide Answer, MakePricingCacheKey, Step;
      case Clear(reached) =>
        hide Answer, MakePricingCacheKey;
        ClearedMeans(s.caches, reached, MakePricingCacheKey(r, strip));
    }
  }

  lemma {:induction false} RunKeepsFresh(
    s: Site, config: Ttl.Config, engine: Engine, strip: string -> string, ops: seq<Op>, r: Request)
    requires UniqueKeys(s.w.table) && Settled(r.filters)
    requires HarmlessRun(s, config, engine, strip, ops, r) && FreshFor(s, engine, strip, r)
    ensures FreshFor(SiteRun(s, config, engine, strip, ops), engine, strip, r)
    decreases |ops|
  {
    hide FreshFor, Harmless, SiteStep, Settled;
    if ops != [] {
      StepKeepsFresh(s, config, engine, strip, ops[0], r);
      RunKeepsFresh(SiteStep(s, config, engine, strip, ops[0]), config, engine, strip, ops[1..], r);
    }
  }

  // No query with the request's key has its answer yet to store.
  ghost predicate NoneUnderWay(s: Site, strip: string -> string, r: Request) {
    forall p :: p in s.pending ==> MakePricingCacheKey(p.r, strip) != MakePricingCacheKey(r, strip)
  }

  // From any state of the site, whatever led to it: once the caches are cleared, a Redis
  // server among them, while no query for the request is under way, every hit for it after
  // steps that are harmless to it is what the index path would answer at that moment.
  lemma CacheHitsAreFresh(
    s: Site, reached: bool, config: Ttl.Config, engine: Engine, strip: string -> string, ops: seq<Op>,
    r: Request, now: int, looks: bool)
    requires UniqueKeys(s.w.table) && Settled(r.filters)
    requires NoneUnderWay(s, strip, r) && (s.caches.shared.None? || reached)
    requires HarmlessRun(SiteStep(s, config, engine, strip, Clear(reached)), config, engine, strip, ops, r)
    ensures var s' := SiteRun(s, config, engine, strip, [Clear(reached)] + ops);
            var hit := Look(s'.caches, config, MakePricingCacheKey(r, strip), now, looks).1;
            hit.Some? ==> hit == Answer(s'.w.table, s'.w.index, engine, r)
  {
    hide HarmlessRun, SiteRun, Answer, MakePricingCacheKey, Settled, Look, Held;
    var cleared, key := SiteStep(s, config, engine, strip, Clear(reached)), MakePricingCacheKey(r, strip);
    ClearedMeans(s.caches, reached, key);
    RunKeepsFresh(cleared, config, engine, strip, ops, r);
    OneStep(s, config, engine, strip, Clear(reached));
    SiteRunConcat(s, config, engine, strip, [Clear(reached)], ops);
    LookMeans(SiteRun(cleared, config, engine, strip, ops).caches, config, key, now, looks, key);
  }

  // What the endpoint returns for the request in this state of the site.
  ghost function Respond(
    s: Site, config: Ttl.Config, engine: Engine, strip: string -> string, r: Request,
    now: int, server: Server, up: bool, fallback: Response): Response
  {
    Ask(s.caches, config, MakePricingCacheKey(r, strip), now, server,
        IndexPath(s.w.table, s.w.index, engine, r, up), fallback).1
  }

  // Under the same conditions, the endpoint returns what the index path would answer at that
  // moment, cached or not; only with the index down or the filter rejected may it return the
  // fallback instead, and then only on a miss.
  lemma ResponsesAreFresh(
    s: Site, reached: bool, config: Ttl.Config, engine: Engine, strip: string -> string, ops: seq<Op>,
    r: Request, now: int, server: Server, up: bool, fallback: Response)
    requires UniqueKeys(s.w.table) && Settled(r.filters)
    requires NoneUnderWay(s, strip, r) && (s.caches.shared.None? || reached)
    requires HarmlessRun(SiteStep(s, config, engine, strip, Clear(reached)), config, engine, strip, ops, r)
    ensures var s' := SiteRun(s, config, engine, strip, [Clear(reached)] + ops);
            var response := Respond(s', config, engine, strip, r, now, server, up, fallback);
            || Some(response) == Answer(s'.w.table, s'.w.index, engine, r)
            || (&& response == fallback && (!up || ReadFilter(FilterText(r.filters)).None?)
                && Look(s'.caches, config, MakePricingCacheKey(r, strip), now, server.looks).1.None?)
  {
    hide HarmlessRun, SiteRun, MakePricingCacheKey, Settled, Look, Keep, ReadFilter, FilterText, Admitted;
    CacheHitsAreFresh(s, reached, config, engine, strip, ops, r, now, server.looks);
  }

  // Nothing cached, in memory or on a Redis server, and no query under way.
  function Quiet(w: World, redis: bool): Site {
    Site(w, NoEntries(redis), [])
  }

  // ---------- the age of a hit ----------

  ghost function SiteAt(
    s: Site, config: Ttl.Config, engine: Engine, strip: string -> string, ops: seq<Op>, i: nat): Site
    requires UniqueKeys(s.w.table) && i <= |ops|
  {
    SiteRun(s, config, engine, strip, ops[..i])
  }

  // At step i a query with the key computed the value from the table and the index.
  ghost predicate Computed(
    s: Site, config: Ttl.Config, engine: Engine, strip: string -> string, ops: seq<Op>,
    i: nat, key: CacheKey, value: Response)
    requires UniqueKeys(s.w.table)
  {
    && i < |ops| && ops[i].Begin? && MakePricingCacheKey(ops[i].r, strip) == key
    && var at := SiteAt(s, config, engine, strip, ops, i);
       Answer(at.w.table, at.w.index, engine, ops[i].r) == Some(value)
  }

  ghost predicate ComputedBefore(
    s: Site, config: Ttl.Config, engine: Engine, strip: string -> string, ops: seq<Op>,
    n: nat, key: CacheKey, value: Response)
    requires UniqueKeys(s.w.table)
  {
    exists i: nat :: i < n && Computed(s, config, engine, strip, ops, i, key, value)
  }

  // At step j a query stored the value, having computed it before.
  ghost predicate Stored(
    s: Site, config: Ttl.Config, engine: Engine, strip: string -> string, ops: seq<Op>,
    j: nat, key: CacheKey, entry: Ttl.Entry<Response>)
    requires UniqueKeys(s.w.table)
  {
    && j < |ops| && ops[j].Finish? && entry.expiresAt == ops[j].now + config.ttl
    && ComputedBefore(s, config, engine, strip, ops, j, key, entry.value)
  }

  // All that is held was stored, and all that is under way was computed, in the run.
  ghost predicate Explained(s: Site, config: Ttl.Config, engine: Engine, strip: string -> string, ops: seq<Op>)
    requires UniqueKeys(s.w.table)
  {
    var end := SiteRun(s, config, engine, strip, ops);
    && (forall key :: Held(end.caches, key).Some? ==>
          exists j: nat :: Stored(s, config, engine, strip, ops, j, key, Held(end.caches, key).value))
    && (forall p :: p in end.pending ==>
          ComputedBefore(s, config, engine, strip, ops, |ops|, MakePricingCacheKey(p.r, strip), p.response))
  }

  lemma ComputedStays(
    s: Site, config: Ttl.Config, engine: Engine, strip: string -> string, ops: seq<Op>, op: Op,
    n: nat, key: CacheKey, value: Response)
    requires UniqueKeys(s.w.table) && ComputedBefore(s, config, engine, strip, ops, n, key, value)
    ensures ComputedBefore(s, config, engine, strip, ops + [op], n, key, value)
    ensures ComputedBefore(s, config, engine, strip, ops + [op], |ops| + 1, key, value)
  {
    hide SiteRun, Answer, MakePricingCacheKey;
    var i: nat :| i < n && Computed(s, config, engine, strip, ops, i, key, value);
    assert (ops + [op])[..i] == ops[..i];
    assert Computed(s, config, engine, strip, ops + [op], i, key, value);
  }

  lemma StoredStays(
    s: Site, config: Ttl.Config, engine: Engine, strip: string -> string, ops: seq<Op>, op: Op,
    j: nat, key: CacheKey, entry: Ttl.Entry<Response>)
    requires UniqueKeys(s.w.table) && Stored(s, config, engine, strip, ops, j, key, entry)
    ensures Stored(s, config, engine, strip, ops + [op], j, key, entry)
  {
    hide ComputedBefore;
    ComputedStays(s, config, engine, strip, ops, op, j, key, entry.value);
  }

  lemma QuietIsExplained(w: World, redis: bool, config: Ttl.Config, engine: Engine, strip: string -> string)
    requires UniqueKeys(w.table)
    ensures Explained(Quiet(w, redis), config, engine, strip, [])
  {
  }

  lemma RunSnoc(s: Site, config: Ttl.Config, engine: Engine, strip: string -> string, ops: seq<Op>, op: Op)
    requires UniqueKeys(s.w.table)
    ensures SiteRun(s, config, engine, strip, ops + [op]) ==
            SiteStep(SiteRun(s, config, engine, strip, ops), config, engine, strip, op)
    ensures SiteAt(s, config, engine, strip, ops + [op], |ops|) == SiteRun(s, config, engine, strip, ops)
  {
    hide SiteStep;
    SiteRunConcat(s, config, engine, strip, ops, [op]);
    OneStep(SiteRun(s, config, engine, strip, ops), config, engine, strip, op);
    assert (ops + [op])[..|ops|] == ops;
  }

  // What the run held before the step, it explains after it.
  lemma HeldStays(
    s: Site, config: Ttl.Config, engine: Engine, strip: string -> string, ops: seq<Op>, op: Op, key: CacheKey)
    requires UniqueKeys(s.w.table) && Explained(s, config, engine, strip, ops)
    requires Held(SiteRun(s, config, engine, strip, ops).caches, key).Some?
    ensures exists j: nat ::
              Stored(s, config, engine, strip, ops + [op], j, key,
                     Held(SiteRun(s, config, engine, strip, ops).caches, key).value)
  {
    hide SiteRun, Held, ComputedBefore, Stored;
    var entry := Held(SiteRun(s, config, engine, strip, ops).caches, key).value;
    var j: nat :| Stored(s, config, engine, strip, ops, j, key, entry);
    StoredStays(s, config, engine, strip, ops, op, j, key, entry);
  }

  lemma NewlyStored(
    s: Site, config: Ttl.Config, engine: Engine, strip: string -> string, ops: seq<Op>, op: Op, p: Pending)
    requires UniqueKeys(s.w.table) && Explained(s, config, engine, strip, ops)
    requires op.Finish? && p in SiteRun(s, config, engine, strip, ops).pending
    ensures Stored(s, config, engine, strip, ops + [op], |ops|, MakePricingCacheKey(p.r, strip),
                   Ttl.Entry(p.response, op.now + config.ttl))
  {
    hide SiteRun, Held, ComputedBefore, MakePricingCacheKey;
    ComputedStays(s, config, engine, strip, ops, op, |ops|, MakePricingCacheKey(p.r, strip), p.response);
  }

  lemma NewlyComputed(
    s: Site, config: Ttl.Config, engine: Engine, strip: string -> string, ops: seq<Op>, op: Op, value: Response)
    requires UniqueKeys(s.w.table) && op.Begin?
    requires var end := SiteRun(s, config, engine, strip, ops); Answer(end.w.table, end.w.index, engine, op.r) == Some(value)
    ensures ComputedBefore(s, config, engine, strip, ops + [op], |ops| + 1, MakePricingCacheKey(op.r, strip), value)
  {
    hide SiteRun, Answer, MakePricingCacheKey;
    RunSnoc(s, config, engine, strip, ops, op);
    assert Computed(s, config, engine, strip, ops + [op], |ops|, MakePricingCacheKey(op.r, strip), value);
  }

  lemma HeldIsExplained(
    s: Site, config: Ttl.Config, engine: Engine, strip: string -> string, ops: seq<Op>, op: Op, key: CacheKey)
    requires UniqueKeys(s.w.table) && Explained(s, config, engine, strip, ops)
    requires Held(SiteRun(s, config, engine, strip, ops + [op]).caches, key).Some?
    ensures exists j: nat ::
              Stored(s, config, engine, strip, ops + [op], j, key,
                     Held(SiteRun(s, config, engine, strip, ops + [op]).caches, key).value)
  {
    hide SiteRun, Held, Stored, MakePricingCacheKey, Look, Keep, Cleared, IndexPath, Explained;
    var end := SiteRun(s, config, engine, strip, ops);
    RunSnoc(s, config, engine, strip, ops, op);
    match op {
      case Begin(r, now, looks, up) =>
        LookMeans(end.caches, config, MakePricingCacheKey(r, strip), now, looks, key);
      case Finish(turn, now, keeps) =>
        if turn < |end.pending| {
          var done := end.pending[turn];
          KeepChangesOnlyKey(end.caches, config, MakePricingCacheKey(done.r, strip), done.response, now, keeps, key);
          NewlyStored(s, config, engine, strip, ops, op, done);
        }
      case Clear(reached) =>
        ClearedMeans(end.caches, reached, key);
      case _ =>
    }
    if Held(end.caches, key).Some? {
      HeldStays(s, config, engine, strip, ops, op, key);
    }
  }

  lemma PendingIsExplained(
    s: Site, config: Ttl.Config, engine: Engine, strip: string -> string, ops: seq<Op>, op: Op, p: Pending)
    requires UniqueKeys(s.w.table) && Explained(s, config, engine, strip, ops)
    requires p in SiteRun(s, config, engine, strip, ops + [op]).pending
    ensures ComputedBefore(s, config, engine, strip, ops + [op], |ops| + 1, MakePricingCacheKey(p.r, strip), p.response)
  {
    hide SiteRun, Held, ComputedBefore, MakePricingCacheKey, Look, Keep, Answer;
    var end := SiteRun(s, config, engine, strip, ops);
    RunSnoc(s, config, engine, strip, ops, op);
    if p in end.pending {
      ComputedStays(s, config, engine, strip, ops, op, |ops|, MakePricingCacheKey(p.r, strip), p.response);
    } else if op.Begin? {
      NewlyComputed(s, config, engine, strip, ops, op, p.response);
    }
  }

  lemma {:induction false} RunIsExplained(
    w: World, redis: bool, config: Ttl.Config, engine: Engine, strip: string -> string, ops: seq<Op>)
    requires UniqueKeys(w.table)
    ensures Explained(Quiet(w, redis), config, engine, strip, ops)
    decreases |ops|
  {
    hide SiteRun, Held, ComputedBefore, Stored, MakePricingCacheKey;
    var s := Quiet(w, redis);
    if ops == [] {
      QuietIsExplained(w, redis, config, engine, strip);
    } else {
      var init, last := ops[..|ops| - 1], ops[|ops| - 1];
      assert ops == init + [last];
      RunIsExplained(w, redis, config, engine, strip, init);
      forall key | Held(SiteRun(s, config, engine, strip, ops).caches, key).Some?
        ensures exists j: nat ::
                  Stored(s, config, engine, strip, ops, j, key, Held(SiteRun(s, config, engine, strip, ops).caches, key).value)
      {
        HeldIsExplained(s, config, engine, strip, init, last, key);
      }
      forall p | p in SiteRun(s, config, engine, strip, ops).pending
        ensures ComputedBefore(s, config, engine, strip, ops, |ops|, MakePricingCacheKey(p.r, strip), p.response)
      {
        PendingIsExplained(s, config, engine, strip, init, last, p);
      }
    }
  }

  // Stored at step j, less than the ttl before `now`.
  ghost predicate StoredRecently(
    s: Site, config: Ttl.Config, engine: Engine, strip: string -> string, ops: seq<Op>, j: nat,
    key: CacheKey, value: Response, now: int)
    requires UniqueKeys(s.w.table)
  {
    && j < |ops| && ops[j].Finish? && now < ops[j].now + config.ttl
    && ComputedBefore(s, config, engine, strip, ops, j, key, value)
  }

  // Every hit, in every run, harmful or not, is an answer that the index path had for a
  // request with that key at some moment of the run, stored less than the ttl ago.
  lemma HitsAreRecentAnswers(
    w: World, redis: bool, config: Ttl.Config, engine: Engine, strip: string -> string, ops: seq<Op>,
    key: CacheKey, now: int, looks: bool)
    requires UniqueKeys(w.table)
    ensures var s := Quiet(w, redis);
            var hit := Look(SiteRun(s, config, engine, strip, ops).caches, config, key, now, looks).1;
            hit.Some? ==> exists j: nat :: StoredRecently(s, config, engine, strip, ops, j, key, hit.value, now)
  {
    hide SiteRun, Held, Look, ComputedBefore;
    var s := Quiet(w, redis);
    var end := SiteRun(s, config, engine, strip, ops);
    RunIsExplained(w, redis, config, engine, strip, ops);
    LookMeans(end.caches, config, key, now, looks, key);
    var hit := Look(end.caches, config, key, now, looks).1;
    if hit.Some? {
      var j: nat :| Stored(s, config, engine, strip, ops, j, key, Held(end.caches, key).value);
      assert StoredRecently(s, config, engine, strip, ops, j, key, hit.value, now);
    }
  }

  // So is every response, in every run: such a recent answer, or the index path's answer of
  // the moment, or, on a miss with the index down or the filter rejected, the fallback.
  lemma ResponsesAreRecentAnswers(
    w: World, redis: bool, config: Ttl.Config, engine: Engine, strip: string -> string, ops: seq<Op>,
    r: Request, now: int, server: Server, up: bool, fallback: Response)
    requires UniqueKeys(w.table)
    ensures var s := Quiet(w, redis);
            var end, key := SiteRun(s, config, engine, strip, ops), MakePricingCacheKey(r, strip);
            var response := Respond(end, config, engine, strip, r, now, server, up, fallback);
            if Look(end.caches, config, key, now, server.looks).1.Some? then
              exists j: nat :: StoredRecently(s, config, engine, strip, ops, j, key, response, now)
            else if up && ReadFilter(FilterText(r.filters)).Some? then
              Some(response) == Answer(end.w.table, end.w.index, engine, r)
            else response == fallback
  {
    hide SiteRun, Look, Keep, StoredRecently, MakePricingCacheKey, ReadFilter, FilterText, Admitted;
    var s, key := Quiet(w, redis), MakePricingCacheKey(r, strip);
    HitsAreRecentAnswers(w, redis, config, engine, strip, ops, key, now, server.looks);
    var end := SiteRun(s, config, engine, strip, ops);
    var hit := Look(end.caches, config, key, now, server.looks).1;
    if hit.Some? {
      var j: nat :| StoredRecently(s, config, engine, strip, ops, j, key, hit.value, now);
      assert Respond(end, config, engine, strip, r, now, server, up, fallback) == hit.value;
    }
  }
}
