// backend/app/core/ttl_cache.py: a bounded cache with expiry and least-recently-used eviction.
module TtlCache {
  import opened Prelude

  datatype Entry<+V> = Entry(value: V, expiresAt: int)

  // The OrderedDict: its keys from least to most recently used, and what they map to.
  datatype Cache<K, +V> = Cache(order: seq<K>, entries: map<K, Entry<V>>)

  datatype Config = Config(maxSize: nat, ttl: nat) {
    predicate Disabled() {
      maxSize == 0 || ttl == 0
    }
  }

  function Empty<K, V>(): Cache<K, V> {
    Cache([], map[])
  }

  function Without<K(==)>(xs: seq<K>, k: K): seq<K> {
    if xs == [] then []
    else if xs[0] == k then Without(xs[1..], k)
    else [xs[0]] + Without(xs[1..], k)
  }

  function Evict<K(==), V>(c: Cache<K, V>, maxSize: nat): Cache<K, V>
    decreases |c.order|
  {
    if |c.order| <= maxSize then c
    else Evict(Cache(c.order[1..], c.entries - {c.order[0]}), maxSize)
  }

  function GetFrom<K(==), V>(c: Cache<K, V>, config: Config, key: K, now: int): (Cache<K, V>, Option<V>) {
    if config.Disabled() || key !in c.entries then (c, None)
    else if c.entries[key].expiresAt <= now then (Cache(Without(c.order, key), c.entries - {key}), None)
    else (c.(order := Without(c.order, key) + [key]), Some(c.entries[key].value))
  }

  function SetIn<K(==), V>(c: Cache<K, V>, config: Config, key: K, value: V, now: int): Cache<K, V> {
    if config.Disabled() then c
    else Evict(Cache(Without(c.order, key) + [key], c.entries[key := Entry(value, now + config.ttl)]), config.maxSize)
  }

  ghost predicate Ordered<K, V>(c: Cache<K, V>) {
    && Distinct(c.order)
    && (forall k :: k in c.order ==> k in c.entries)
    && (forall k :: k in c.entries ==> k in c.order)
  }

  ghost predicate WellFormed<K, V>(c: Cache<K, V>, config: Config) {
    Ordered(c) && |c.order| <= config.maxSize
  }

  class TTLCache<K(==), V> {
    const config: Config
    var order: seq<K>
    var entries: map<K, Entry<V>>

    ghost function State(): Cache<K, V>
      reads this
    {
      Cache(order, entries)
    }

    ghost predicate Valid()
      reads this
    {
      WellFormed(State(), config)
    }

    constructor (maxSize: int, ttlSeconds: int)
      ensures Valid() && State() == Empty()
      ensures config == Config(if maxSize < 0 then 0 else maxSize, if ttlSeconds < 0 then 0 else ttlSeconds)
    {
      config := Config(if maxSize < 0 then 0 else maxSize, if ttlSeconds < 0 then 0 else ttlSeconds);
      order, entries := [], map[];
    }

    method Get(key: K, now: int) returns (hit: Option<V>)
      requires Valid()
      modifies this
      ensures Valid()
      ensures (State(), hit) == GetFrom(old(State()), config, key, now)
    {
      GetKeepsWellFormed(State(), config, key, now);
      if config.maxSize == 0 || config.ttl == 0 {
        return None;
      }
      if key !in entries {
        return None;
      }
      var entry := entries[key];
      if entry.expiresAt <= now {
        order, entries := Without(order, key), entries - {key};
        return None;
      }
      order := Without(order, key) + [key];
      return Some(entry.value);
    }

    method Set(key: K, value: V, now: int)
      requires Valid()
      modifies this
      ensures Valid()
      ensures State() == SetIn(old(State()), config, key, value, now)
    {
      SetKeepsWellFormed(State(), config, key, value, now);
      if config.maxSize == 0 || config.ttl == 0 {
        return;
      }
      entries := entries[key := Entry(value, now + config.ttl)];
      order := Without(order, key) + [key];
      ghost var filled := State();
      while |order| > config.maxSize
        invariant Evict(State(), config.maxSize) == Evict(filled, config.maxSize)
        decreases |order|
      {
        order, entries := order[1..], entries - {order[0]};
      }
    }

    method Clear()
      modifies this
      ensures Valid() && State() == Empty()
    {
      order, entries := [], map[];
    }
  }

  // ---------- sequences with one element taken out ----------

  lemma {:induction false} WithoutMembers<K>(xs: seq<K>, k: K)
    ensures forall x :: x in Without(xs, k) ==> x in xs && x != k
    ensures forall x :: x in xs && x != k ==> x in Without(xs, k)
    ensures Distinct(xs) ==> Distinct(Without(xs, k))
    ensures Distinct(xs) ==> |Without(xs, k)| == |xs| - if k in xs then 1 else 0
    ensures k !in xs ==> Without(xs, k) == xs
  {
    if xs != [] {
      assert xs == [xs[0]] + xs[1..];
      WithoutMembers(xs[1..], k);
      assert Distinct(xs) ==> xs[0] !in xs[1..];
    }
  }

  lemma WithoutLength<K>(xs: seq<K>, k: K)
    requires Distinct(xs)
    ensures |Without(xs, k)| == |xs| - if k in xs then 1 else 0
  {
    WithoutMembers(xs, k);
  }

  lemma {:induction false} WithoutConcat<K>(xs: seq<K>, ys: seq<K>, k: K)
    ensures Without(xs + ys, k) == Without(xs, k) + Without(ys, k)
  {
    if xs == [] {
      assert xs + ys == ys;
    } else {
      assert (xs + ys)[0] == xs[0] && (xs + ys)[1..] == xs[1..] + ys;
      WithoutConcat(xs[1..], ys, k);
      assert [xs[0]] + (Without(xs[1..], k) + Without(ys, k)) == ([xs[0]] + Without(xs[1..], k)) + Without(ys, k);
    }
  }

  // Taking out the head of a duplicate-free sequence leaves its tail.
  lemma WithoutHead<K>(xs: seq<K>)
    requires xs != [] && Distinct(xs)
    ensures Without(xs, xs[0]) == xs[1..]
  {
    WithoutMembers(xs[1..], xs[0]);
  }

  ghost function Only<K>(xs: seq<K>, keep: set<K>): seq<K> {
    if xs == [] then []
    else (if xs[0] in keep then [xs[0]] else []) + Only(xs[1..], keep)
  }

  lemma {:induction false} OnlyConcat<K>(xs: seq<K>, ys: seq<K>, keep: set<K>)
    ensures Only(xs + ys, keep) == Only(xs, keep) + Only(ys, keep)
  {
    if xs == [] {
      assert xs + ys == ys;
    } else {
      var head := if xs[0] in keep then [xs[0]] else [];
      assert (xs + ys)[0] == xs[0] && (xs + ys)[1..] == xs[1..] + ys;
      OnlyConcat(xs[1..], ys, keep);
      assert head + (Only(xs[1..], keep) + Only(ys, keep)) == (head + Only(xs[1..], keep)) + Only(ys, keep);
    }
  }

  lemma {:induction false} OnlyWithout<K>(xs: seq<K>, k: K, keep: set<K>)
    ensures Only(Without(xs, k), keep) == Without(Only(xs, keep), k)
  {
    if xs != [] {
      OnlyWithout(xs[1..], k, keep);
      if xs[0] != k {
        assert Without(xs, k)[1..] == Without(xs[1..], k);
      }
      WithoutConcat(if xs[0] in keep then [xs[0]] else [], Only(xs[1..], keep), k);
    }
  }

  lemma {:induction false} OnlyAgree<K>(xs: seq<K>, keep: set<K>, keep': set<K>)
    requires forall x :: x in xs ==> (x in keep <==> x in keep')
    ensures Only(xs, keep) == Only(xs, keep')
  {
    if xs != [] {
      OnlyAgree(xs[1..], keep, keep');
    }
  }

  lemma {:induction false} OnlyMinus<K>(xs: seq<K>, keep: set<K>, k: K)
    ensures Only(xs, keep - {k}) == Without(Only(xs, keep), k)
  {
    if xs != [] {
      OnlyMinus(xs[1..], keep, k);
      WithoutConcat(if xs[0] in keep then [xs[0]] else [], Only(xs[1..], keep), k);
    }
  }

  // ---------- every operation keeps the cache well formed and bounded ----------

  lemma GetKeepsWellFormed<K, V>(c: Cache<K, V>, config: Config, key: K, now: int)
    requires WellFormed(c, config)
    ensures WellFormed(GetFrom(c, config, key, now).0, config)
  {
    WithoutMembers(c.order, key);
  }

  // The cache just after the new entry is stored, before the eviction loop.
  function Filled<K(==), V>(c: Cache<K, V>, config: Config, key: K, value: V, now: int): Cache<K, V> {
    Cache(Without(c.order, key) + [key], c.entries[key := Entry(value, now + config.ttl)])
  }

  function Trim<K(==), V>(c: Cache<K, V>, maxSize: nat): Cache<K, V> {
    if |c.order| <= maxSize then c
    else Cache(Without(c.order, c.order[0]), c.entries - {c.order[0]})
  }

  // One insertion overfills the cache by at most one entry, so at most the oldest one goes.
  lemma SetEvictsOldest<K, V>(c: Cache<K, V>, config: Config, key: K, value: V, now: int)
    requires WellFormed(c, config) && !config.Disabled()
    ensures Ordered(Filled(c, config, key, value, now))
    ensures var f := Filled(c, config, key, value, now);
            && |f.order| <= config.maxSize + 1
            && SetIn(c, config, key, value, now) == Trim(f, config.maxSize)
  {
    WithoutMembers(c.order, key);
    var f := Filled(c, config, key, value, now);
    WithoutHead(f.order);
    if |f.order| > config.maxSize {
      var g := Cache(f.order[1..], f.entries - {f.order[0]});
      assert Evict(f, config.maxSize) == Evict(g, config.maxSize) == g;
    }
  }

  lemma SetKeepsWellFormed<K, V>(c: Cache<K, V>, config: Config, key: K, value: V, now: int)
    requires WellFormed(c, config)
    ensures WellFormed(SetIn(c, config, key, value, now), config)
  {
    if !config.Disabled() {
      SetEvictsOldest(c, config, key, value, now);
      var f := Filled(c, config, key, value, now);
      WithoutMembers(f.order, f.order[0]);
    }
  }

  // ---------- what an operation can leave in the cache ----------

  lemma {:induction false} EvictOnlyRemoves<K, V>(c: Cache<K, V>, maxSize: nat, k: K)
    requires k in Evict(c, maxSize).entries
    ensures k in c.entries && Evict(c, maxSize).entries[k] == c.entries[k]
    decreases |c.order|
  {
    if |c.order| > maxSize {
      EvictOnlyRemoves(Cache(c.order[1..], c.entries - {c.order[0]}), maxSize, k);
    }
  }

  lemma SetAddsOnlyItsEntry<K, V>(c: Cache<K, V>, config: Config, key: K, value: V, now: int, k: K)
    requires k in SetIn(c, config, key, value, now).entries
    ensures var after := SetIn(c, config, key, value, now).entries[k];
            if k == key && !config.Disabled() then after == Entry(value, now + config.ttl)
            else k in c.entries && after == c.entries[k]
  {
    if !config.Disabled() {
      EvictOnlyRemoves(Filled(c, config, key, value, now), config.maxSize, k);
    }
  }

  // ---------- runs ----------

  datatype Op<K, V> = Get(key: K, now: int) | Set(key: K, value: V, now: int) | Clear

  ghost function Apply<K, V>(c: Cache<K, V>, config: Config, op: Op<K, V>): Cache<K, V> {
    match op
    case Get(key, now) => GetFrom(c, config, key, now).0
    case Set(key, value, now) => SetIn(c, config, key, value, now)
    case Clear => Empty()
  }

  ghost function Run<K, V>(config: Config, ops: seq<Op<K, V>>): Cache<K, V> {
    if ops == [] then Empty() else Apply(Run(config, ops[..|ops| - 1]), config, ops[|ops| - 1])
  }

  ghost predicate Hits<K, V>(config: Config, ops: seq<Op<K, V>>, key: K, now: int) {
    GetFrom(Run(config, ops), config, key, now).1.Some?
  }

  // In every run the cache is well formed and holds at most maxSize entries.
  lemma {:induction false} RunStaysBounded<K, V>(config: Config, ops: seq<Op<K, V>>)
    ensures WellFormed(Run(config, ops), config)
    ensures |Run(config, ops).entries| <= config.maxSize
  {
    if ops != [] {
      var init, last := ops[..|ops| - 1], ops[|ops| - 1];
      RunStaysBounded(config, init);
      match last {
        case Get(key, now) => GetKeepsWellFormed(Run(config, init), config, key, now);
        case Set(key, value, now) => SetKeepsWellFormed(Run(config, init), config, key, value, now);
        case Clear =>
      }
    }
    var c := Run(config, ops);
    DistinctLength(c.order);
    assert (set k | k in c.order) == c.entries.Keys;
  }

  // ---------- a hit is the latest value set ----------

  datatype Stored<V> = Stored(value: V, at: int)

  // The value of the latest Set of the key that no Clear has followed.
  ghost function LatestSet<K, V>(ops: seq<Op<K, V>>, key: K): Option<Stored<V>> {
    if ops == [] then None
    else match ops[|ops| - 1]
      case Clear => None
      case Get(_, _) => LatestSet(ops[..|ops| - 1], key)
      case Set(k, v, at) => if k == key then Some(Stored(v, at)) else LatestSet(ops[..|ops| - 1], key)
  }

  lemma {:induction false} EntriesAreLatestSets<K, V>(config: Config, ops: seq<Op<K, V>>, key: K)
    requires key in Run(config, ops).entries
    ensures LatestSet(ops, key).Some?
    ensures var s := LatestSet(ops, key).value;
            Run(config, ops).entries[key] == Entry(s.value, s.at + config.ttl)
  {
    var init, last := ops[..|ops| - 1], ops[|ops| - 1];
    var before := Run(config, init);
    if last.Set? {
      RunStaysBounded(config, init);
      if !config.Disabled() {
        SetEvictsOldest(before, config, last.key, last.value, last.now);
      }
    }
    if !(last.Set? && last.key == key) {
      assert key in before.entries;
      EntriesAreLatestSets(config, init, key);
    } else if config.Disabled() {
      DisabledStaysEmpty(config, init);
    }
  }

  lemma {:induction false} DisabledStaysEmpty<K, V>(config: Config, ops: seq<Op<K, V>>)
    requires config.Disabled()
    ensures Run(config, ops) == Empty()
  {
    if ops != [] {
      DisabledStaysEmpty(config, ops[..|ops| - 1]);
    }
  }

  // A hit returns the value of the latest Set of that key since the last Clear, and only
  // while less than ttl has passed since.
  lemma HitIsLatestSet<K, V>(config: Config, ops: seq<Op<K, V>>, key: K, now: int)
    requires Hits(config, ops, key, now)
    ensures LatestSet(ops, key).Some?
    ensures var s := LatestSet(ops, key).value;
            now < s.at + config.ttl && GetFrom(Run(config, ops), config, key, now).1 == Some(s.value)
  {
    EntriesAreLatestSets(config, ops, key);
  }

  // ---------- a recently used key is still there ----------

  // The other keys set, or read with a hit, since the key itself was last set or hit.
  ghost function Rivals<K, V>(config: Config, ops: seq<Op<K, V>>, key: K): Option<set<K>> {
    if ops == [] then None
    else
      var init, last := ops[..|ops| - 1], ops[|ops| - 1];
      if last.Clear? then None
      else if last.Get? && !Hits(config, init, last.key, last.now) then Rivals(config, init, key)
      else if last.key == key then Some({})
      else
        var earlier := Rivals(config, init, key);
        if earlier.None? then None else Some(earlier.value + {last.key})
  }

  ghost function After<K>(xs: seq<K>, k: K): seq<K> {
    if xs == [] then [] else if xs[0] == k then xs[1..] else After(xs[1..], k)
  }

  lemma {:induction false} AfterWithout<K>(xs: seq<K>, k: K, j: K)
    requires j != k
    ensures After(Without(xs, j), k) == Without(After(xs, k), j)
  {
    if xs != [] && xs[0] != k {
      AfterWithout(xs[1..], k, j);
    }
  }

  lemma {:induction false} AfterAppend<K>(xs: seq<K>, k: K, j: K)
    requires k in xs
    ensures After(xs + [j], k) == After(xs, k) + [j]
  {
    assert (xs + [j])[1..] == xs[1..] + [j];
    if xs[0] != k {
      AfterAppend(xs[1..], k, j);
    }
  }

  lemma {:induction false} AfterLast<K>(xs: seq<K>, k: K)
    requires k !in xs
    ensures After(xs + [k], k) == []
  {
    if xs != [] {
      assert (xs + [k])[1..] == xs[1..] + [k];
      AfterLast(xs[1..], k);
    }
  }

  ghost predicate AfterWithin<K>(xs: seq<K>, k: K, bound: set<K>) {
    k in xs && forall x :: x in After(xs, k) ==> x in bound
  }

  lemma TouchOther<K>(xs: seq<K>, k: K, j: K, bound: set<K>)
    requires AfterWithin(xs, k, bound) && j != k
    ensures AfterWithin(Without(xs, j), k, bound)
    ensures AfterWithin(Without(xs, j) + [j], k, bound + {j})
  {
    WithoutMembers(xs, j);
    AfterWithout(xs, k, j);
    WithoutMembers(After(xs, k), j);
    AfterAppend(Without(xs, j), k, j);
  }

  lemma TouchSelf<K>(xs: seq<K>, k: K)
    ensures AfterWithin(Without(xs, k) + [k], k, {})
  {
    WithoutMembers(xs, k);
    AfterLast(Without(xs, k), k);
  }

  // Evicting the oldest key cannot hit k while fewer than maxSize keys were used after it.
  lemma EvictionSpares<K>(xs: seq<K>, k: K, bound: set<K>, maxSize: nat)
    requires Distinct(xs) && AfterWithin(xs, k, bound) && |bound| < maxSize < |xs|
    ensures AfterWithin(Without(xs, xs[0]), k, bound)
  {
    if xs[0] == k {
      var newer := set x | x in xs[1..];
      DistinctLength(xs[1..]);
      assert newer <= bound;
      SubsetSize(newer, bound);
      assert false;
    }
    WithoutHead(xs);
  }

  lemma {:induction false} SubsetSize<K>(a: set<K>, b: set<K>)
    requires a <= b
    ensures |a| <= |b|
  {
    assert b == a + (b - a);
  }

  ghost predicate NoReadAfter<K, V>(ops: seq<Op<K, V>>, now: int) {
    forall i :: 0 <= i < |ops| && ops[i].Get? ==> ops[i].now <= now
  }

  lemma {:induction false} RecentKeyKept<K, V>(config: Config, ops: seq<Op<K, V>>, key: K, now: int)
    requires !config.Disabled() && NoReadAfter(ops, now)
    requires LatestSet(ops, key).Some? && now < LatestSet(ops, key).value.at + config.ttl
    requires Rivals(config, ops, key).Some? && |Rivals(config, ops, key).value| < config.maxSize
    ensures AfterWithin(Run(config, ops).order, key, Rivals(config, ops, key).value)
  {
    var init, last := ops[..|ops| - 1], ops[|ops| - 1];
    var before, rivals := Run(config, init), Rivals(config, ops, key).value;
    RunStaysBounded(config, init);
    if last.key != key || last.Get? {
      assert NoReadAfter(init, now);
      if Rivals(config, init, key).Some? {
        SubsetSize(Rivals(config, init, key).value, rivals + Rivals(config, init, key).value);
      }
    }
    if last.key == key {
      TouchSelf(before.order, key);
      if last.Set? {
        SetEvictsOldest(before, config, key, last.value, last.now);
        var f := Filled(before, config, key, last.value, last.now);
        if |f.order| > config.maxSize {
          EvictionSpares(f.order, key, {}, config.maxSize);
        }
      } else if !Hits(config, init, key, last.now) {
        RecentKeyKept(config, init, key, now);
        EntriesAreLatestSets(config, init, key);
        assert false;
      }
    } else {
      var earlier := Rivals(config, init, key).value;
      SubsetSize(earlier, rivals);
      RecentKeyKept(config, init, key, now);
      TouchOther(before.order, key, last.key, earlier);
      if last.Set? {
        SetEvictsOldest(before, config, last.key, last.value, last.now);
        var f := Filled(before, config, last.key, last.value, last.now);
        if |f.order| > config.maxSize {
          EvictionSpares(f.order, key, rivals, config.maxSize);
        }
      }
    }
  }

  // Under a clock that has not passed `now`, an unexpired key hits if fewer than maxSize
  // distinct other keys were set or hit since it was.
  lemma RecentKeyHits<K, V>(config: Config, ops: seq<Op<K, V>>, key: K, now: int)
    requires !config.Disabled() && NoReadAfter(ops, now)
    requires LatestSet(ops, key).Some? && now < LatestSet(ops, key).value.at + config.ttl
    requires Rivals(config, ops, key).Some? && |Rivals(config, ops, key).value| < config.maxSize
    ensures GetFrom(Run(config, ops), config, key, now).1 == Some(LatestSet(ops, key).value.value)
  {
    RecentKeyKept(config, ops, key, now);
    RunStaysBounded(config, ops);
    EntriesAreLatestSets(config, ops, key);
  }

  // ---------- LRU inclusion ----------

  // The smaller cache's keys are the larger one's in the same order with some left out, and
  // its entries are the larger one's.
  ghost predicate Included<K, V>(small: Cache<K, V>, big: Cache<K, V>) {
    && small.order == Only(big.order, small.entries.Keys)
    && forall k :: k in small.entries ==> k in big.entries && small.entries[k] == big.entries[k]
  }

  lemma {:induction false} OnlyMembers<K>(xs: seq<K>, keep: set<K>)
    ensures forall x :: x in Only(xs, keep) ==> x in xs && x in keep
    ensures forall x :: x in xs && x in keep ==> x in Only(xs, keep)
    ensures |Only(xs, keep)| <= |xs|
  {
    if xs != [] {
      OnlyMembers(xs[1..], keep);
    }
  }

  lemma {:induction false} OnlyNone<K>(xs: seq<K>)
    ensures Only(xs, {}) == []
  {
    if xs != [] {
      OnlyNone(xs[1..]);
    }
  }

  // Both caches drop the same key, which both may hold.
  lemma IncludedDrop<K, V>(small: Cache<K, V>, big: Cache<K, V>, k: K)
    requires Included(small, big)
    ensures Included(Cache(Without(small.order, k), small.entries - {k}), Cache(Without(big.order, k), big.entries - {k}))
    ensures Included(Cache(Without(small.order, k), small.entries - {k}), big)
  {
    OnlyMinus(big.order, small.entries.Keys, k);
    OnlyWithout(big.order, k, small.entries.Keys - {k});
    OnlyMembers(big.order, small.entries.Keys - {k});
    WithoutMembers(Only(big.order, small.entries.Keys - {k}), k);
    assert (small.entries - {k}).Keys == small.entries.Keys - {k};
  }

  lemma IncludedTouch<K, V>(small: Cache<K, V>, big: Cache<K, V>, k: K, entry: Entry<V>)
    requires Included(small, big)
    ensures Included(Cache(Without(small.order, k) + [k], small.entries[k := entry]),
                     Cache(Without(big.order, k) + [k], big.entries[k := entry]))
  {
    var keep := small.entries.Keys;
    var rest := Without(big.order, k);
    OnlyConcat(rest, [k], keep + {k});
    WithoutMembers(big.order, k);
    OnlyAgree(rest, keep + {k}, keep);
    OnlyWithout(big.order, k, keep);
    assert small.entries[k := entry].Keys == keep + {k};
  }

  lemma IncludedBigMoves<K, V>(small: Cache<K, V>, big: Cache<K, V>, k: K)
    requires Included(small, big) && k !in small.entries
    ensures Included(small, big.(order := Without(big.order, k) + [k]))
    ensures Included(small, Cache(Without(big.order, k), big.entries - {k}))
  {
    var keep := small.entries.Keys;
    OnlyConcat(Without(big.order, k), [k], keep);
    OnlyWithout(big.order, k, keep);
    OnlyMembers(big.order, keep);
    WithoutMembers(Only(big.order, keep), k);
  }

  // When both are full, or only the smaller one is, dropping the oldest keeps inclusion.
  lemma IncludedEvict<K, V>(small: Cache<K, V>, big: Cache<K, V>)
    requires Included(small, big) && Ordered(small) && Ordered(big)
    requires small.order != [] && big.order != []
    ensures var small' := Cache(Without(small.order, small.order[0]), small.entries - {small.order[0]});
            && Included(small', big)
            && Included(small', Cache(Without(big.order, big.order[0]), big.entries - {big.order[0]}))
  {
    IncludedDrop(small, big, small.order[0]);
    if big.order[0] in small.entries {
      assert small.order[0] == big.order[0];
    } else {
      var small' := Cache(Without(small.order, small.order[0]), small.entries - {small.order[0]});
      IncludedBigMoves(small', big, big.order[0]);
    }
  }

  ghost predicate InStep<K, V>(small: Cache<K, V>, n: Config, big: Cache<K, V>, m: Config) {
    && WellFormed(small, n) && WellFormed(big, m)
    && Included(small, big)
    && |big.order| - |small.order| <= m.maxSize - n.maxSize
  }

  lemma IncludedHit<K, V>(small: Cache<K, V>, big: Cache<K, V>, key: K)
    requires Included(small, big) && key in small.entries
    ensures Included(small.(order := Without(small.order, key) + [key]), big.(order := Without(big.order, key) + [key]))
  {
    IncludedTouch(small, big, key, small.entries[key]);
    assert small.entries[key := small.entries[key]] == small.entries;
    assert big.entries[key := small.entries[key]] == big.entries;
  }

  lemma GetInStep<K, V>(small: Cache<K, V>, n: Config, big: Cache<K, V>, m: Config, key: K, now: int)
    requires n.maxSize <= m.maxSize && n.ttl == m.ttl
    requires InStep(small, n, big, m)
    ensures InStep(GetFrom(small, n, key, now).0, n, GetFrom(big, m, key, now).0, m)
    ensures GetFrom(small, n, key, now).1.Some? ==> GetFrom(small, n, key, now).1 == GetFrom(big, m, key, now).1
  {
    GetKeepsWellFormed(small, n, key, now);
    GetKeepsWellFormed(big, m, key, now);
    if key !in small.entries {
      WithoutLength(big.order, key);
      IncludedBigMoves(small, big, key);
    } else if small.entries[key].expiresAt <= now {
      WithoutLength(small.order, key);
      WithoutLength(big.order, key);
      IncludedDrop(small, big, key);
    } else {
      WithoutLength(small.order, key);
      WithoutLength(big.order, key);
      IncludedHit(small, big, key);
    }
  }

  lemma TrimInStep<K, V>(small: Cache<K, V>, n: Config, big: Cache<K, V>, m: Config)
    requires n.maxSize <= m.maxSize
    requires Ordered(small) && Ordered(big) && Included(small, big)
    requires 0 < |small.order| <= n.maxSize + 1 && 0 < |big.order| <= m.maxSize + 1
    requires |big.order| - |small.order| <= m.maxSize - n.maxSize
    ensures InStep(Trim(small, n.maxSize), n, Trim(big, m.maxSize), m)
  {
    WithoutMembers(small.order, small.order[0]);
    WithoutMembers(big.order, big.order[0]);
    IncludedEvict(small, big);
  }

  lemma FilledStaysIncluded<K, V>(small: Cache<K, V>, big: Cache<K, V>, n: Config, m: Config, key: K, value: V, now: int)
    requires Included(small, big) && Ordered(small) && Ordered(big) && n.ttl == m.ttl
    ensures var fs, fb := Filled(small, n, key, value, now), Filled(big, m, key, value, now);
            && Included(fs, fb)
            && |fb.order| - |fs.order| <= |big.order| - |small.order|
  {
    assert |Without(big.order, key)| - |Without(small.order, key)| <= |big.order| - |small.order| by {
      WithoutLength(small.order, key);
      WithoutLength(big.order, key);
    }
    IncludedTouch(small, big, key, Entry(value, now + n.ttl));
  }

  lemma SetInStep<K, V>(small: Cache<K, V>, n: Config, big: Cache<K, V>, m: Config, key: K, value: V, now: int)
    requires n.maxSize <= m.maxSize && n.ttl == m.ttl && !n.Disabled()
    requires InStep(small, n, big, m)
    ensures InStep(SetIn(small, n, key, value, now), n, SetIn(big, m, key, value, now), m)
  {
    var fs, fb := Filled(small, n, key, value, now), Filled(big, m, key, value, now);
    SetEvictsOldest(small, n, key, value, now);
    SetEvictsOldest(big, m, key, value, now);
    FilledStaysIncluded(small, big, n, m, key, value, now);
    assert InStep(Trim(fs, n.maxSize), n, Trim(fb, m.maxSize), m) by {
      TrimInStep(fs, n, fb, m);
    }
  }

  // Two caches of sizes n <= m with the same ttl, driven by the same operations, stay in step.
  lemma {:induction false} Inclusion<K, V>(n: Config, m: Config, ops: seq<Op<K, V>>)
    requires n.maxSize <= m.maxSize && n.ttl == m.ttl
    ensures InStep(Run(n, ops), n, Run(m, ops), m)
  {
    RunStaysBounded(n, ops);
    RunStaysBounded(m, ops);
    if n.Disabled() {
      DisabledStaysEmpty(n, ops);
      if m.Disabled() { DisabledStaysEmpty(m, ops); }
      OnlyNone(Run(m, ops).order);
    } else if ops != [] {
      var init, last := ops[..|ops| - 1], ops[|ops| - 1];
      Inclusion(n, m, init);
      match last {
        case Get(key, now) => GetInStep(Run(n, init), n, Run(m, init), m, key, now);
        case Set(key, value, now) => SetInStep(Run(n, init), n, Run(m, init), m, key, value, now);
        case Clear =>
      }
    }
  }

  // Every hit in the smaller cache is the same hit in the larger one.
  lemma SmallerHitsAreLargerHits<K, V>(n: Config, m: Config, ops: seq<Op<K, V>>, key: K, now: int)
    requires n.maxSize <= m.maxSize && n.ttl == m.ttl
    requires Hits(n, ops, key, now)
    ensures GetFrom(Run(m, ops), m, key, now).1 == GetFrom(Run(n, ops), n, key, now).1
  {
    Inclusion(n, m, ops);
    GetInStep(Run(n, ops), n, Run(m, ops), m, key, now);
  }
}
