// The cache key of a search request and the two caches behind it
// (backend/app/services/pricing_search_cache.py).
module SearchCache {
  import opened Prelude
  import opened Calendar
  import opened Records
  import opened SearchFilter
  import Ttl = TtlCache

  datatype Scope = SearchScope | MetaScope

  // The query parameters. Page numbers are absent from meta requests.
  datatype Request = Request(
    scope: Scope, q: Option<string>, filters: Filters, page: Option<nat>, perPage: Option<nat>)

  datatype CacheKey = CacheKey(
    scope: Scope, q: string, country: string, stores: seq<string>, skus: seq<string>,
    dateFrom: string, dateTo: string, page: Option<nat>, perPage: Option<nat>)

  // An absent query is an empty one.
  function QueryText(r: Request): string {
    if r.q.Some? then r.q.value else ""
  }

  // ---------- the order of strings ----------

  predicate Leq(a: string, b: string) {
    if a == "" then true
    else if b == "" then false
    else a[0] < b[0] || (a[0] == b[0] && Leq(a[1..], b[1..]))
  }

  lemma {:induction false} LeqIsTotalOrder(a: string, b: string, c: string)
    ensures Leq(a, b) || Leq(b, a)
    ensures Leq(a, b) && Leq(b, a) ==> a == b
    ensures Leq(a, b) && Leq(b, c) ==> Leq(a, c)
  {
    if a != "" && b != "" {
      LeqIsTotalOrder(a[1..], b[1..], if c == "" then "" else c[1..]);
      if a[0] == b[0] {
        assert a == [a[0]] + a[1..] && b == [b[0]] + b[1..];
      }
    }
  }

  ghost predicate Ascending(xs: seq<string>) {
    forall i, j :: 0 <= i < j < |xs| ==> Leq(xs[i], xs[j])
  }

  function Insert(x: string, xs: seq<string>): (r: seq<string>)
    ensures multiset(r) == multiset(xs) + multiset{x}
  {
    if xs == [] || Leq(x, xs[0]) then
      assert multiset([x] + xs) == multiset([x]) + multiset(xs);
      [x] + xs
    else
      assert xs == [xs[0]] + xs[1..];
      [xs[0]] + Insert(x, xs[1..])
  }

  // The values in ascending order.
  function Sorted(xs: seq<string>): (r: seq<string>)
    ensures multiset(r) == multiset(xs)
  {
    if xs == [] then []
    else
      assert xs == [xs[0]] + xs[1..];
      Insert(xs[0], Sorted(xs[1..]))
  }

  lemma {:induction false} InsertKeepsAscending(x: string, xs: seq<string>)
    requires Ascending(xs)
    ensures Ascending(Insert(x, xs))
  {
    if xs == [] {
    } else if Leq(x, xs[0]) {
      forall j | 0 <= j < |xs|
        ensures Leq(x, xs[j])
      {
        LeqIsTotalOrder(x, xs[0], xs[j]);
      }
    } else {
      var rest := Insert(x, xs[1..]);
      InsertKeepsAscending(x, xs[1..]);
      LeqIsTotalOrder(x, xs[0], xs[0]);
      forall j | 0 <= j < |rest|
        ensures Leq(xs[0], rest[j])
      {
        assert rest[j] in multiset(rest);
        assert rest[j] == x || rest[j] in xs[1..];
      }
    }
  }

  lemma {:induction false} SortedAscends(xs: seq<string>)
    ensures Ascending(Sorted(xs))
  {
    if xs != [] {
      SortedAscends(xs[1..]);
      InsertKeepsAscending(xs[0], Sorted(xs[1..]));
    }
  }

  lemma TailMultiset(xs: seq<string>)
    requires xs != []
    ensures multiset(xs[1..]) == multiset(xs) - multiset{xs[0]}
  {
    assert xs == [xs[0]] + xs[1..];
  }

  lemma SameHead(xs: seq<string>, ys: seq<string>)
    requires Ascending(xs) && Ascending(ys) && xs != [] && ys != [] && multiset(xs) == multiset(ys)
    ensures xs[0] == ys[0]
  {
    assert xs[0] in multiset(ys) && ys[0] in multiset(xs);
    var i :| 0 <= i < |ys| && ys[i] == xs[0];
    var j :| 0 <= j < |xs| && xs[j] == ys[0];
    LeqIsTotalOrder(xs[0], ys[0], ys[0]);
  }

  // There is only one ascending arrangement of a multiset of strings.
  lemma {:induction false} AscendingIsUnique(xs: seq<string>, ys: seq<string>)
    requires Ascending(xs) && Ascending(ys) && multiset(xs) == multiset(ys)
    ensures xs == ys
  {
    assert |multiset(xs)| == |xs| && |multiset(ys)| == |ys|;
    if xs != [] {
      SameHead(xs, ys);
      TailMultiset(xs);
      TailMultiset(ys);
      AscendingIsUnique(xs[1..], ys[1..]);
      assert xs == [xs[0]] + xs[1..] && ys == [ys[0]] + ys[1..];
    }
  }

  lemma SortedIsCanonical(xs: seq<string>, ys: seq<string>)
    ensures Sorted(xs) == Sorted(ys) <==> multiset(xs) == multiset(ys)
  {
    if multiset(xs) == multiset(ys) {
      SortedAscends(xs);
      SortedAscends(ys);
      AscendingIsUnique(Sorted(xs), Sorted(ys));
    }
  }

  // ---------- dates as text ----------

  function DateText(d: Option<Date>): string {
    if d.Some? then IsoFormat(d.value) else ""
  }

  lemma DateTextInjective(a: Option<Date>, b: Option<Date>)
    ensures DateText(a) == DateText(b) <==> a == b
  {
    if a.Some? && b.Some? {
      IsoFormatInjective(a.value, b.value);
    } else if a.Some? {
      assert |IsoFormat(a.value)| == 10;
    } else if b.Some? {
      assert |IsoFormat(b.value)| == 10;
    }
  }

  // ---------- the key ----------

  // `strip` takes the white space off both ends.
  function MakePricingCacheKey(r: Request, strip: string -> string): CacheKey {
    CacheKey(
      r.scope,
      strip(QueryText(r)),
      CountryText(r.filters),
      Sorted(NonEmpty(OrEmpty(r.filters.storeIds))),
      Sorted(NonEmpty(OrEmpty(r.filters.skus))),
      DateText(r.filters.dateFrom),
      DateText(r.filters.dateTo),
      r.page,
      r.perPage)
  }

  // Both absent or empty, or the same text.
  predicate SameText(a: Option<string>, b: Option<string>) {
    a == b || (a in {None, Some("")} && b in {None, Some("")})
  }

  // How often the value is listed.
  function Occurrences(values: Option<seq<string>>, v: string): nat {
    if values.Some? then multiset(values.value)[v] else 0
  }

  // The same values in some order, empty ones aside.
  ghost predicate SameListed(a: Option<seq<string>>, b: Option<seq<string>>) {
    forall v: string :: v != "" ==> Occurrences(a, v) == Occurrences(b, v)
  }

  lemma {:induction false} NonEmptyOccurs(values: seq<string>, v: string)
    ensures multiset(NonEmpty(values))[v] == if v == "" then 0 else multiset(values)[v]
  {
    if values != [] {
      NonEmptyOccurs(values[1..], v);
      assert values == [values[0]] + values[1..];
    }
  }

  lemma SameListedMeans(a: Option<seq<string>>, b: Option<seq<string>>)
    ensures SameListed(a, b) <==> multiset(NonEmpty(OrEmpty(a))) == multiset(NonEmpty(OrEmpty(b)))
  {
    forall v: string
      ensures multiset(NonEmpty(OrEmpty(a)))[v] == if v == "" then 0 else Occurrences(a, v)
      ensures multiset(NonEmpty(OrEmpty(b)))[v] == if v == "" then 0 else Occurrences(b, v)
    {
      NonEmptyOccurs(OrEmpty(a), v);
      NonEmptyOccurs(OrEmpty(b), v);
    }
  }

  // Two requests share a key exactly when they agree on everything but the order of the
  // listed values, empty values among them, absent against empty parameters, and the white
  // space around q.
  lemma KeysEqualExactlyWhen(a: Request, b: Request, strip: string -> string)
    ensures MakePricingCacheKey(a, strip) == MakePricingCacheKey(b, strip) <==>
            && a.scope == b.scope && a.page == b.page && a.perPage == b.perPage
            && strip(if a.q.Some? then a.q.value else "") == strip(if b.q.Some? then b.q.value else "")
            && SameText(a.filters.country, b.filters.country)
            && SameListed(a.filters.storeIds, b.filters.storeIds) && SameListed(a.filters.skus, b.filters.skus)
            && a.filters.dateFrom == b.filters.dateFrom && a.filters.dateTo == b.filters.dateTo
  {
    hide IsoFormat, DateText, SameListed, NonEmpty, Sorted;
    SameListedMeans(a.filters.storeIds, b.filters.storeIds);
    SameListedMeans(a.filters.skus, b.filters.skus);
    SortedIsCanonical(NonEmpty(OrEmpty(a.filters.storeIds)), NonEmpty(OrEmpty(b.filters.storeIds)));
    SortedIsCanonical(NonEmpty(OrEmpty(a.filters.skus)), NonEmpty(OrEmpty(b.filters.skus)));
    DateTextInjective(a.filters.dateFrom, b.filters.dateFrom);
    DateTextInjective(a.filters.dateTo, b.filters.dateTo);
  }

  lemma SameTerms(field: Field, a: Option<seq<string>>, b: Option<seq<string>>, doc: Doc)
    requires SameListed(a, b)
    ensures AllHold(AnyOfClause(field, a), doc) <==> AllHold(AnyOfClause(field, b), doc)
    ensures (forall v :: v in OrEmpty(a) ==> NoQuote(v)) ==> (forall v :: v in OrEmpty(b) ==> NoQuote(v))
  {
    SameListedMeans(a, b);
    var xs, ys := NonEmpty(OrEmpty(a)), NonEmpty(OrEmpty(b));
    AnyOfMeans(field, a, doc);
    AnyOfMeans(field, b, doc);
    ListedMeans(a, FieldOf(field, doc));
    ListedMeans(b, FieldOf(field, doc));
    assert |multiset(xs)| == |xs| && |multiset(ys)| == |ys|;
    forall v: string
      ensures v in xs <==> v in ys
    {
      assert v in multiset(xs) <==> v in multiset(ys);
    }
  }

  // No two different values are listed, empty ones aside: then the key forgets no order.
  predicate Uniform(values: Option<seq<string>>) {
    values.Some? ==> forall u, v | u in values.value && v in values.value :: u == "" || v == "" || u == v
  }

  // Reordering the listed values cannot change what the printed filter reads as.
  predicate Settled(f: Filters) {
    QuoteFreeRequest(f) || (Uniform(f.storeIds) && Uniform(f.skus))
  }

  lemma UniformSame(a: Option<seq<string>>, b: Option<seq<string>>)
    requires SameListed(a, b) && Uniform(a)
    ensures NonEmpty(OrEmpty(b)) == NonEmpty(OrEmpty(a)) && Uniform(b)
  {
    SameListedMeans(a, b);
    var xs, ys := NonEmpty(OrEmpty(a)), NonEmpty(OrEmpty(b));
    assert |multiset(xs)| == |xs| && |multiset(ys)| == |ys|;
    forall i | 0 <= i < |xs|
      ensures xs[i] == ys[i]
    {
      assert ys[i] in multiset(ys);
      assert ys[i] in xs && xs[i] in xs;
    }
  }

  lemma UniformSamePrint(f: Filters, g: Filters)
    requires SameText(f.country, g.country) && f.dateFrom == g.dateFrom && f.dateTo == g.dateTo
    requires SameListed(f.storeIds, g.storeIds) && SameListed(f.skus, g.skus)
    requires Uniform(f.storeIds) && Uniform(f.skus)
    ensures FilterText(f) == FilterText(g) && Uniform(g.storeIds) && Uniform(g.skus)
  {
    hide SameListed, Uniform, NonEmpty, TermsOf, PrintClauses, Join;
    UniformSame(f.storeIds, g.storeIds);
    UniformSame(f.skus, g.skus);
  }

  lemma QuoteFreeSamePredicate(f: Filters, g: Filters, doc: Doc)
    requires SameText(f.country, g.country) && f.dateFrom == g.dateFrom && f.dateTo == g.dateTo
    requires SameListed(f.storeIds, g.storeIds) && SameListed(f.skus, g.skus)
    requires QuoteFreeRequest(f)
    ensures QuoteFreeRequest(g)
    ensures ReadFilter(FilterText(f)).Some? && ReadFilter(FilterText(g)).Some?
    ensures IndexAdmits(f, doc) <==> IndexAdmits(g, doc)
  {
    hide FilterText, ReadFilter, QuoteFreeRequest, ClausesOf, AllHold, AnyOfClause, SameListed;
    SameTerms(Store, f.storeIds, g.storeIds, doc);
    SameTerms(Sku, f.skus, g.skus, doc);
    QuoteFreeSame(f, g);
    FilterTextReadsBack(f);
    FilterTextReadsBack(g);
    SplitClauses(f, doc);
    SplitClauses(g, doc);
  }

  lemma QuoteFreeSame(f: Filters, g: Filters)
    requires SameText(f.country, g.country) && SameListed(f.storeIds, g.storeIds) && SameListed(f.skus, g.skus)
    requires QuoteFreeRequest(f)
    ensures QuoteFreeRequest(g)
  {
    hide AllHold, AnyOfClause, SameListed;
    var doc := Doc(0, "", "", "", "", 0, "", true, 0);
    SameTerms(Store, f.storeIds, g.storeIds, doc);
    SameTerms(Sku, f.skus, g.skus, doc);
  }

  // Requests with equal keys are both rejected by the index, or pass the same documents.
  lemma EqualKeysSamePredicate(a: Request, b: Request, strip: string -> string, doc: Doc)
    requires MakePricingCacheKey(a, strip) == MakePricingCacheKey(b, strip)
    requires Settled(a.filters)
    ensures Settled(b.filters)
    ensures ReadFilter(FilterText(a.filters)).Some? <==> ReadFilter(FilterText(b.filters)).Some?
    ensures IndexAdmits(a.filters, doc) <==> IndexAdmits(b.filters, doc)
  {
    hide QuoteFreeRequest, IndexAdmits, ReadFilter, MakePricingCacheKey, FilterText, SameListed, Uniform, SameText;
    KeysEqualExactlyWhen(a, b, strip);
    var f, g := a.filters, b.filters;
    if QuoteFreeRequest(f) {
      QuoteFreeSamePredicate(f, g, doc);
    } else {
      UniformSamePrint(f, g);
      SameTextSamePredicate(f, g, doc);
    }
  }

  lemma SameTextSamePredicate(f: Filters, g: Filters, doc: Doc)
    requires FilterText(f) == FilterText(g)
    ensures IndexAdmits(f, doc) <==> IndexAdmits(g, doc)
  {
  }

  function ForStores(stores: seq<string>): Request {
    Request(SearchScope, None, Filters(None, Some(stores), None, None, None), Some(1), Some(25))
  }

  const QUOTED_STORE := "x\") && (sku:=\"a"

  // Unsettled requests may share a key and mean different things: these two list the same
  // stores, and one of the two admits the document of store z and sku a.
  lemma QuotedListsShareKey(strip: string -> string, doc: Doc)
    requires doc.store == "z" && doc.sku == "a"
    ensures var a, b := ForStores([QUOTED_STORE, "z"]), ForStores(["z", QUOTED_STORE]);
            && MakePricingCacheKey(a, strip) == MakePricingCacheKey(b, strip)
            && !IndexAdmits(a.filters, doc) && IndexAdmits(b.filters, doc)
  {
    hide IndexAdmits, MakePricingCacheKey;
    ReversedSharesKey(QUOTED_STORE, "z", strip);
    QuotedStoreMeans(doc);
  }

  lemma ReversedSharesKey(x: string, y: string, strip: string -> string)
    requires x != "" && y != ""
    ensures MakePricingCacheKey(ForStores([x, y]), strip) == MakePricingCacheKey(ForStores([y, x]), strip)
  {
    hide MakePricingCacheKey;
    KeptInOrder(x, y);
    KeptInOrder(y, x);
    KeysEqualExactlyWhen(ForStores([x, y]), ForStores([y, x]), strip);
  }

  lemma QuotedStoreMeans(doc: Doc)
    requires doc.store == "z" && doc.sku == "a"
    ensures !IndexAdmits(ForStores([QUOTED_STORE, "z"]).filters, doc)
    ensures IndexAdmits(ForStores(["z", QUOTED_STORE]).filters, doc)
  {
    hide ReadFilter, FilterText;
    var x, sku, z := Is(Store, "x"), Is(Sku, "a"), Is(Store, "z");
    QuotedStoreReads();
    assert !ClauseHolds(AnyOf([x]), doc) && AnyOf([x]) in [AnyOf([x]), AnyOf([sku, z])];
    assert TermHolds(sku, doc) && TermHolds(z, doc);
  }

  lemma QuotedStoreReads()
    ensures ReadFilter(FilterText(ForStores([QUOTED_STORE, "z"]).filters)) ==
            Some([AnyOf([Is(Store, "x")]), AnyOf([Is(Sku, "a"), Is(Store, "z")])])
    ensures ReadFilter(FilterText(ForStores(["z", QUOTED_STORE]).filters)) ==
            Some([AnyOf([Is(Store, "z"), Is(Store, "x")]), AnyOf([Is(Sku, "a")])])
  {
    hide ReadFilter, FilterText, PrintTerm, Join;
    var x, sku, z := Is(Store, "x"), Is(Sku, "a"), Is(Store, "z");
    TwoStoresPrint(QUOTED_STORE, "z");
    TwoStoresPrint("z", QUOTED_STORE);
    TwoListsRead([x], [sku, z]);
    TwoListsRead([z, x], [sku]);
    JoinOne(x);
    JoinOne(sku);
    JoinTwo(sku, z);
    JoinTwo(z, x);
    QuotedStorePrints();
    assert "(" + (PrintTerm(Is(Store, QUOTED_STORE)) + " || " + PrintTerm(z)) + ")" ==
           "(" + PrintTerm(x) + ") && (" + (PrintTerm(sku) + " || " + PrintTerm(z)) + ")";
    assert "(" + (PrintTerm(z) + " || " + PrintTerm(Is(Store, QUOTED_STORE))) + ")" ==
           "(" + (PrintTerm(z) + " || " + PrintTerm(x)) + ") && (" + PrintTerm(sku) + ")";
  }

  lemma QuotedStorePrints()
    ensures PrintTerm(Is(Store, QUOTED_STORE)) == PrintTerm(Is(Store, "x")) + ") && (" + PrintTerm(Is(Sku, "a"))
  {
  }

  lemma TwoStoresPrint(x: string, y: string)
    requires x != "" && y != ""
    ensures FilterText(ForStores([x, y]).filters) ==
            Some("(" + (PrintTerm(Is(Store, x)) + " || " + PrintTerm(Is(Store, y))) + ")")
  {
    var terms := [Is(Store, x), Is(Store, y)];
    KeptInOrder(x, y);
    assert TermsOf(Store, [x, y]) == terms by { assert [x, y][1..] == [y]; }
    var f := ForStores([x, y]).filters;
    assert CountryClause(f) == [] && AnyOfClause(Sku, f.skus) == [] && DateClause(f) == [];
    assert AnyOfClause(Store, f.storeIds) == [AnyOf(terms)];
    assert ClausesOf(f) == [AnyOf(terms)];
    PrintOne(AnyOf(terms));
    JoinTwo(terms[0], terms[1]);
  }

  lemma TwoListsRead(xs: seq<Term>, ys: seq<Term>)
    requires QuoteFree(AnyOf(xs)) && QuoteFree(AnyOf(ys))
    ensures ReadFilter(Some("(" + Join(" || ", PrintTerms(xs)) + ") && (" + Join(" || ", PrintTerms(ys)) + ")")) ==
            Some([AnyOf(xs), AnyOf(ys)])
  {
    hide ReadClauses, PrintTerms, QuoteFree;
    var cs := [AnyOf(xs), AnyOf(ys)];
    PrintClausesStep(cs);
    assert cs[1..] == [AnyOf(ys)];
    PrintOne(AnyOf(ys));
    ClausesRead(cs);
    var a, b := Join(" || ", PrintTerms(xs)), Join(" || ", PrintTerms(ys));
    assert "(" + a + ")" + (" && " + ("(" + b + ")")) == "(" + a + ") && (" + b + ")";
  }

  lemma JoinOne(t: Term)
    ensures Join(" || ", PrintTerms([t])) == PrintTerm(t)
  {
  }

  lemma JoinTwo(t: Term, u: Term)
    ensures Join(" || ", PrintTerms([t, u])) == PrintTerm(t) + " || " + PrintTerm(u)
  {
    assert [t, u][1..] == [u];
    PrintTermsStep([t, u]);
    JoinOne(u);
  }

  lemma KeptInOrder(x: string, y: string)
    requires x != "" && y != ""
    ensures NonEmpty([x, y]) == [x, y]
  {
    assert [x, y][1..] == [y] && NonEmpty([y]) == [y];
  }

  lemma SplitClauses(f: Filters, doc: Doc)
    ensures AllHold(ClausesOf(f), doc) <==>
            && AllHold(CountryClause(f), doc) && AllHold(AnyOfClause(Store, f.storeIds), doc)
            && AllHold(AnyOfClause(Sku, f.skus), doc) && AllHold(DateClause(f), doc)
  {
    var country, stores, skus := CountryClause(f), AnyOfClause(Store, f.storeIds), AnyOfClause(Sku, f.skus);
    AllHoldConcat(country + stores + skus, DateClause(f), doc);
    AllHoldConcat(country + stores, skus, doc);
    AllHoldConcat(country, stores, doc);
  }

  // ---------- the caches ----------

  // One memory cache for searches and one for meta requests; where a Redis server is
  // configured, its entries stand in for both.
  datatype Caches<V> = Caches(
    search: Ttl.Cache<CacheKey, V>, meta: Ttl.Cache<CacheKey, V>, shared: Option<map<CacheKey, Ttl.Entry<V>>>)
  {
    function Memory(scope: Scope): Ttl.Cache<CacheKey, V> {
      if scope == MetaScope then meta else search
    }

    function WithMemory(scope: Scope, cache: Ttl.Cache<CacheKey, V>): Caches<V> {
      if scope == MetaScope then this.(meta := cache) else this.(search := cache)
    }
  }

  function NoEntries<V>(shared: bool): Caches<V> {
    Caches(Ttl.Empty(), Ttl.Empty(), if shared then Some(map[]) else None)
  }

  // A lookup. `reached` says that the server answers; a server that does not is a miss.
  function Look<V>(c: Caches<V>, config: Ttl.Config, key: CacheKey, now: int, reached: bool): (Caches<V>, Option<V>) {
    match c.shared
    case Some(entries) =>
      (c, if reached && key in entries && now < entries[key].expiresAt then Some(entries[key].value) else None)
    case None =>
      var (cache, hit) := Ttl.GetFrom(c.Memory(key.scope), config, key, now);
      (c.WithMemory(key.scope, cache), hit)
  }

  function Keep<V>(c: Caches<V>, config: Ttl.Config, key: CacheKey, value: V, now: int, reached: bool): Caches<V> {
    match c.shared
    case Some(entries) =>
      if reached && config.ttl > 0 then c.(shared := Some(entries[key := Ttl.Entry(value, now + config.ttl)])) else c
    case None => c.WithMemory(key.scope, Ttl.SetIn(c.Memory(key.scope), config, key, value, now))
  }

  // A failed delete on the server is swallowed and leaves its entries.
  function Cleared<V>(c: Caches<V>, reached: bool): Caches<V> {
    Caches(Ttl.Empty(), Ttl.Empty(), if c.shared.Some? && reached then Some(map[]) else c.shared)
  }

  // What the caches hold for a key, expired or not.
  ghost function Held<V>(c: Caches<V>, key: CacheKey): Option<Ttl.Entry<V>> {
    var entries := if c.shared.Some? then c.shared.value else c.Memory(key.scope).entries;
    if key in entries then Some(entries[key]) else None
  }

  // A lookup yields exactly what is held and has not expired, if the server answers or the
  // memory cache is on; all it changes is that an expired memory entry goes.
  lemma LookMeans<V>(c: Caches<V>, config: Ttl.Config, key: CacheKey, now: int, reached: bool, k: CacheKey)
    ensures var (looked, hit) := Look(c, config, key, now, reached);
            var held := Held(c, key);
            var open := if c.shared.Some? then reached else !config.Disabled();
            && hit == (if open && held.Some? && now < held.value.expiresAt then Some(held.value.value) else None)
            && Held(looked, k) == (if k == key && c.shared.None? && open && hit.None? then None else Held(c, k))
            && looked.shared == c.shared
  {
  }

  // Storing under a key changes at most what is held for it.
  lemma KeepChangesOnlyKey<V>(
    c: Caches<V>, config: Ttl.Config, key: CacheKey, value: V, now: int, reached: bool, k: CacheKey)
    ensures var held := Held(Keep(c, config, key, value, now, reached), k);
            held.Some? ==> held == Held(c, k) || (k == key && held.value == Ttl.Entry(value, now + config.ttl))
  {
    if c.shared.None? && k in Ttl.SetIn(c.Memory(key.scope), config, key, value, now).entries {
      Ttl.SetAddsOnlyItsEntry(c.Memory(key.scope), config, key, value, now, k);
    }
  }

  // What is held after storing under a key: the new entry, if the server answers or the
  // memory cache is on, and all that was held before, but for the oldest entry of a full
  // memory cache of the key's scope when the key is new to it.
  lemma KeepMeans<V>(c: Caches<V>, config: Ttl.Config, key: CacheKey, value: V, now: int, reached: bool, k: CacheKey)
    requires c.shared.None? ==> Ttl.WellFormed(c.Memory(key.scope), config)
    ensures var held := Held(Keep(c, config, key, value, now, reached), k);
            var stored := if c.shared.Some? then reached && config.ttl > 0 else !config.Disabled();
            var order := c.Memory(key.scope).order;
            var pushed := && c.shared.None? && stored && key !in order && |order| == config.maxSize
                          && k.scope == key.scope && k == order[0];
            held == if stored && k == key then Some(Ttl.Entry(value, now + config.ttl))
                    else if pushed then None else Held(c, k)
  {
    if c.shared.None? && !config.Disabled() {
      var cache := c.Memory(key.scope);
      Ttl.SetEvictsOldest(cache, config, key, value, now);
      Ttl.WithoutMembers(cache.order, key);
    }
  }

  // Clearing leaves nothing, unless a Redis server is not reached, which then keeps all.
  lemma ClearedMeans<V>(c: Caches<V>, reached: bool, key: CacheKey)
    ensures Held(Cleared(c, reached), key) == if c.shared.Some? && !reached then Held(c, key) else None
  {
  }

  // What was just stored is found exactly until its ttl is over.
  lemma KeptIsFound<V>(
    c: Caches<V>, config: Ttl.Config, key: CacheKey, value: V, now: int, reached: bool, later: int, answers: bool)
    requires c.shared.None? ==> Ttl.WellFormed(c.Memory(key.scope), config)
    requires if c.shared.Some? then reached && config.ttl > 0 else !config.Disabled()
    ensures Look(Keep(c, config, key, value, now, reached), config, key, later, answers).1 ==
            if later < now + config.ttl && (c.shared.Some? ==> answers) then Some(value) else None
  {
    hide Look, Held;
    KeepMeans(c, config, key, value, now, reached, key);
    LookMeans(Keep(c, config, key, value, now, reached), config, key, later, answers, key);
  }

  class PricingCaches<V> {
    const search: Ttl.TTLCache<CacheKey, V>
    const meta: Ttl.TTLCache<CacheKey, V>
    // The entries on the Redis server, if one is configured.
    var shared: Option<map<CacheKey, Ttl.Entry<V>>>

    constructor (maxEntries: int, ttlSeconds: int, redisUrl: bool)
      ensures Valid() && fresh(search) && fresh(meta)
      ensures State() == NoEntries(redisUrl)
      ensures search.config == Ttl.Config(if maxEntries < 0 then 0 else maxEntries, if ttlSeconds < 0 then 0 else ttlSeconds)
    {
      search := new Ttl.TTLCache(maxEntries, ttlSeconds);
      meta := new Ttl.TTLCache(maxEntries, ttlSeconds);
      shared := if redisUrl then Some(map[]) else None;
    }

    ghost predicate Valid()
      reads search, meta
    {
      search != meta && search.Valid() && meta.Valid() && search.config == meta.config
    }

    ghost function State(): Caches<V>
      reads this, search, meta
    {
      Caches(search.State(), meta.State(), shared)
    }

    function MemoryCache(scope: Scope): Ttl.TTLCache<CacheKey, V> {
      if scope == MetaScope then meta else search
    }

    method GetCachedPricingResponse(key: CacheKey, now: int, reached: bool) returns (hit: Option<V>)
      requires Valid()
      modifies search, meta
      ensures Valid()
      ensures (State(), hit) == Look(old(State()), search.config, key, now, reached)
    {
      if shared.Some? {
        if !reached || key !in shared.value || shared.value[key].expiresAt <= now {
          return None;
        }
        return Some(shared.value[key].value);
      }
      hit := MemoryCache(key.scope).Get(key, now);
    }

    method SetCachedPricingResponse(key: CacheKey, value: V, now: int, reached: bool)
      requires Valid()
      modifies this, search, meta
      ensures Valid()
      ensures State() == Keep(old(State()), search.config, key, value, now, reached)
    {
      if search.config.ttl == 0 {
        return;
      }
      if shared.Some? {
        if reached {
          shared := Some(shared.value[key := Ttl.Entry(value, now + search.config.ttl)]);
        }
        return;
      }
      MemoryCache(key.scope).Set(key, value, now);
    }

    method ClearPricingSearchCaches(reached: bool)
      requires Valid()
      modifies this, search, meta
      ensures Valid()
      ensures State() == Cleared(old(State()), reached)
    {
      search.Clear();
      meta.Clear();
      if shared.Some? && reached {
        shared := Some(map[]);
      }
    }
  }
}
