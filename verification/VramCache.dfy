/** The VRAM-pressure-aware cache (apohara_context_forge/registry/vram_aware_cache.py). Clock
    readings, VRAM pressure and what a step graph answers are inputs; values are opaque. */
module VramCache {
  import opened Arithmetic
  import opened Wrappers
  import opened Maps
  import opened Sorting
  import StepGraph

  datatype EvictionMode = RELAXED | NORMAL | PRESSURE | CRITICAL | EMERGENCY | WORKFLOW_AWARE

  datatype CacheEntry<V> = CacheEntry(
    priority: real, lastAccessed: real, accessCount: nat, tokenCount: int, key: string, value: V, offloaded: bool)

  function PressureToMode(pressure: real): EvictionMode {
    if pressure < 0.70 then RELAXED
    else if pressure < 0.85 then NORMAL
    else if pressure < 0.92 then PRESSURE
    else if pressure < 0.96 then CRITICAL
    else EMERGENCY
  }

  /** The five ranges of pressure, from its bounds alone. */
  predicate InRange(mode: EvictionMode, pressure: real) {
    && (mode == RELAXED <==> pressure < 0.70)
    && (mode == NORMAL <==> 0.70 <= pressure < 0.85)
    && (mode == PRESSURE <==> 0.85 <= pressure < 0.92)
    && (mode == CRITICAL <==> 0.92 <= pressure < 0.96)
    && (mode == EMERGENCY <==> 0.96 <= pressure)
  }

  function Tokens<V>(e: CacheEntry<V>): int { e.tokenCount }

  /** Tokens per access; an entry is evicted under pressure before any with a smaller ratio. */
  function Ratio<V>(e: CacheEntry<V>): real {
    e.tokenCount as real / (if e.accessCount >= 1 then e.accessCount else 1) as real
  }

  function HeaviestFirst<V>(e: CacheEntry<V>): real { -Ratio(e) }

  predicate Idle<V>(e: CacheEntry<V>, now: real, limit: real) { now - e.lastAccessed > limit }

  /** What eviction under pressure leaves: the target many entries (or all) are gone, each at
      least as heavy per access as any that stayed. */
  ghost predicate HeavyGone<V>(full: map<string, CacheEntry<V>>, kept: map<string, CacheEntry<V>>) {
    && IsPart(kept, full)
    && |full| - |kept| == (if Quarter(|full|) <= |full| then Quarter(|full|) else |full|)
    && forall e, s :: e in full && e !in kept && s in kept ==> Ratio(full[e]) >= Ratio(kept[s])
  }

  ghost predicate IsPart<V>(part: map<string, CacheEntry<V>>, full: map<string, CacheEntry<V>>) {
    forall k :: k in part ==> k in full && part[k] == full[k]
  }

  function ContextKey(agent: string): string { "context:" + agent }

  /** What get_eviction_priority_order of the step graph yields, None without a graph. */
  type Workflow = Option<StepGraph.Result<seq<string>>>

  /** A cyclic step graph raises instead of yielding an order. */
  predicate Raises(mode: EvictionMode, graph: Workflow) {
    mode == WORKFLOW_AWARE && graph.Some? && graph.value.CycleDetected?
  }

  /** What a policy application in a mode leaves of the store. */
  ghost predicate Applied<V>(mode: EvictionMode, now: real, graph: Workflow,
                             full: map<string, CacheEntry<V>>, kept: map<string, CacheEntry<V>>)
  {
    match mode
    case RELAXED => kept == full
    case EMERGENCY => kept == full - IdleKeys(full, now, 30.0)
    case NORMAL => kept == full - IdleKeys(full, now, 120.0)
    case CRITICAL => kept == OffloadIdle(full, now)
    case PRESSURE => HeavyGone(full, kept)
    case WORKFLOW_AWARE =>
      kept == if graph.Some? && graph.value.Ok? then full - ContextKeys(graph.value.value) else full
  }

  /** What that is for each entry, from its fields alone. */
  ghost predicate Prescribed<V>(mode: EvictionMode, now: real, graph: Workflow,
                                full: map<string, CacheEntry<V>>, kept: map<string, CacheEntry<V>>)
  {
    match mode
    case RELAXED => kept == full
    case EMERGENCY => RecentKept(full, kept, now, 30.0)
    case NORMAL => RecentKept(full, kept, now, 120.0)
    case CRITICAL => kept.Keys == full.Keys && forall k :: k in full ==> MarkedIfIdle(full[k], kept[k], now)
    case PRESSURE =>
      && IsPart(kept, full) && (full != map[] ==> IsQuarter(|full| - |kept|, |full|))
      && forall e, s :: e in full && e !in kept && s in kept ==> Outweighs(full[e], full[s])
    case WORKFLOW_AWARE =>
      match graph
      case Some(Ok(agents)) =>
        && IsPart(kept, full)
        && forall k :: k in full ==> (k in kept <==> forall a :: a in agents ==> k != "context:" + a)
      case _ => kept == full
  }

  lemma AppliedIsPrescribed<V>(mode: EvictionMode, now: real, graph: Workflow,
                               full: map<string, CacheEntry<V>>, kept: map<string, CacheEntry<V>>)
    requires Applied(mode, now, graph, full, kept)
    ensures Prescribed(mode, now, graph, full, kept)
  {
    match mode {
      case RELAXED =>
      case EMERGENCY => RecentAreKept(full, now, 30.0);
      case NORMAL => RecentAreKept(full, now, 120.0);
      case CRITICAL =>
      case PRESSURE => HeavyIsQuarter(full, kept);
      case WORKFLOW_AWARE =>
        if graph.Some? && graph.value.Ok? {
          OthersAreKept(full, graph.value.value);
        }
    }
  }

  ghost predicate RecentKept<V>(full: map<string, CacheEntry<V>>, kept: map<string, CacheEntry<V>>,
                                now: real, limit: real) {
    IsPart(kept, full) && forall k :: k in full ==> (k in kept <==> now - full[k].lastAccessed <= limit)
  }

  lemma RecentAreKept<V>(full: map<string, CacheEntry<V>>, now: real, limit: real)
    ensures RecentKept(full, full - IdleKeys(full, now, limit), now, limit)
  {
  }

  lemma HeavyIsQuarter<V>(full: map<string, CacheEntry<V>>, kept: map<string, CacheEntry<V>>)
    requires HeavyGone(full, kept)
    ensures full != map[] ==> IsQuarter(|full| - |kept|, |full|)
    ensures forall e, s :: e in full && e !in kept && s in kept ==> Outweighs(full[e], full[s])
  {
    QuarterIs(|full|);
    forall e, s | e in full && e !in kept && s in kept ensures Outweighs(full[e], full[s]) {
      Crosswise(full[e], kept[s]);
    }
  }

  lemma OthersAreKept<V>(full: map<string, CacheEntry<V>>, agents: seq<string>)
    ensures var kept := full - ContextKeys(agents);
            forall k :: k in full ==> (k in kept <==> forall a :: a in agents ==> k != "context:" + a)
  {
    forall a | a in agents ensures ContextKey(a) in ContextKeys(agents) {
    }
  }

  /** Idle for more than 30 seconds, an entry is marked; nothing else about it changes. */
  ghost predicate MarkedIfIdle<V>(was: CacheEntry<V>, e: CacheEntry<V>, now: real) {
    (e.offloaded <==> was.offloaded || now - was.lastAccessed > 30.0) && e == was.(offloaded := e.offloaded)
  }

  function Accesses<V>(e: CacheEntry<V>): nat {
    if e.accessCount == 0 then 1 else e.accessCount
  }

  /** At least as many tokens per access, compared crosswise. */
  predicate Outweighs<V>(e: CacheEntry<V>, s: CacheEntry<V>) {
    e.tokenCount as real * Accesses(s) as real >= s.tokenCount as real * Accesses(e) as real
  }

  lemma Crosswise<V>(e: CacheEntry<V>, s: CacheEntry<V>)
    ensures Ratio(e) >= Ratio(s) <==> Outweighs(e, s)
  {
    QuotientOrder(e.tokenCount as real, Accesses(e) as real, s.tokenCount as real, Accesses(s) as real);
  }

  lemma QuotientOrder(x: real, n: real, y: real, m: real)
    requires n > 0.0 && m > 0.0
    ensures x / n >= y / m <==> x * m >= y * n
  {
    var p, q := x / n, y / m;
    assert p * n == x && q * m == y;
    var w := n * m;
    assert x * m == p * w && y * n == q * w;
    if p >= q {
      assert (p - q) * w >= 0.0;
    } else {
      assert (q - p) * w > 0.0;
    }
  }

  function IdleKeys<V>(store: map<string, CacheEntry<V>>, now: real, limit: real): set<string> {
    set k | k in store && Idle(store[k], now, limit)
  }

  function OffloadIdle<V>(store: map<string, CacheEntry<V>>, now: real): map<string, CacheEntry<V>> {
    map k | k in store :: store[k].(offloaded := store[k].offloaded || Idle(store[k], now, 30.0))
  }

  ghost function ContextKeys(agents: seq<string>): set<string> {
    set a | a in agents :: ContextKey(a)
  }

  function ReversedContexts(agents: seq<string>): seq<string> {
    if agents == [] then [] else ReversedContexts(agents[1..]) + [ContextKey(agents[0])]
  }

  lemma {:induction false} ReversedHaveAll(agents: seq<string>)
    ensures Elements(ReversedContexts(agents)) == ContextKeys(agents)
  {
    if agents != [] {
      ReversedHaveAll(agents[1..]);
      assert agents == [agents[0]] + agents[1..];
      assert ContextKeys(agents) == {ContextKey(agents[0])} + ContextKeys(agents[1..]);
    }
  }

  class VRAMAwareCache<V> {
    var store: map<string, CacheEntry<V>>
    var totalTokens: int
    var mode: EvictionMode
    var blocked: bool

    /** The running total is the sum over the store, every entry knows its key, and new
        registrations are blocked exactly in an emergency. */
    ghost predicate Valid()
      reads this
    {
      && totalTokens == SumBy(store, Tokens)
      && (forall k :: k in store ==> store[k].key == k)
      && (blocked <==> mode == EMERGENCY)
    }

    constructor ()
      ensures Valid() && store == map[] && mode == RELAXED
    {
      store, totalTokens, mode, blocked := map[], 0, RELAXED, false;
    }

    method Set(key: string, value: V, tokenCount: int, now: real) returns (ok: bool)
      requires Valid()
      modifies this
      ensures Valid() && mode == old(mode)
      ensures ok <==> old(mode) != EMERGENCY
      ensures !ok ==> store == old(store)
      ensures ok ==>
                var put := old(store)[key := CacheEntry(now, now, 1, tokenCount, key, value, false)];
                if mode == PRESSURE || mode == CRITICAL then Applied(mode, now, None, put, store) else store == put
    {
      if blocked {
        return false;
      }
      var entry := CacheEntry(now, now, 1, tokenCount, key, value, false);
      SumPut(store, Tokens, key, entry);
      if key in store {
        totalTokens := totalTokens - store[key].tokenCount;
      }
      store := store[key := entry];
      totalTokens := totalTokens + tokenCount;
      if mode == PRESSURE || mode == CRITICAL || mode == EMERGENCY {
        var _ := ApplyEvictionPolicy(None, now, None);
      }
      ok := true;
    }

    method Get(key: string, now: real) returns (r: Option<V>)
      requires Valid()
      modifies this
      ensures Valid() && mode == old(mode)
      ensures r == if key in old(store) then Some(old(store)[key].value) else None
      ensures store == if key !in old(store) then old(store) else
                var e, n := old(store)[key], old(store)[key].accessCount + 1;
                old(store)[key := e.(lastAccessed := now, accessCount := n, priority := now - (n * 10) as real)]
    {
      if key !in store {
        return None;
      }
      var e, n := store[key], store[key].accessCount + 1;
      var hit := e.(lastAccessed := now, accessCount := n, priority := now - (n * 10) as real);
      SumPut(store, Tokens, key, hit);
      store := store[key := hit];
      r := Some(hit.value);
    }

    method Delete(key: string) returns (found: bool)
      requires Valid()
      modifies this
      ensures Valid() && mode == old(mode) && (found <==> key in old(store)) && store == old(store) - {key}
    {
      found := key in store;
      Evict(key);
    }

    method Clear()
      requires Valid()
      modifies this
      ensures Valid() && mode == old(mode) && store == map[] && totalTokens == 0
    {
      store, totalTokens := map[], 0;
    }

    /** Removes an entry, if it is there, and its tokens. */
    method Evict(key: string)
      requires totalTokens == SumBy(store, Tokens) && forall k :: k in store ==> store[k].key == k
      modifies this`store, this`totalTokens
      ensures totalTokens == SumBy(store, Tokens) && store == old(store) - {key}
    {
      if key in store {
        SumRemove(store, Tokens, key);
        totalTokens := totalTokens - store[key].tokenCount;
      } else {
        assert store - {key} == store;
      }
      store := store - {key};
    }

    method EvictAll(keys: seq<string>) returns (evicted: nat)
      requires totalTokens == SumBy(store, Tokens) && forall k :: k in store ==> store[k].key == k
      modifies this`store, this`totalTokens
      ensures totalTokens == SumBy(store, Tokens)
      ensures store == old(store) - Elements(keys) && evicted == |old(store)| - |store|
    {
      evicted := 0;
      for i := 0 to |keys|
        invariant totalTokens == SumBy(store, Tokens)
        invariant store == old(store) - Elements(keys[..i]) && evicted + |store| == |old(store)|
      {
        DropOne(old(store), store, keys, i);
        if keys[i] in store {
          evicted := evicted + 1;
        }
        Evict(keys[i]);
      }
      assert keys[..|keys|] == keys;
    }

    /** Applies the policy of the given pressure, or else of the current mode. Blocking follows
        the mode that was applied. None when the step graph is cyclic and asked for its order;
        nothing is evicted then. */
    method ApplyEvictionPolicy(pressure: Option<real>, now: real, graph: Workflow) returns (r: Option<nat>)
      requires totalTokens == SumBy(store, Tokens) && forall k :: k in store ==> store[k].key == k
      modifies this
      ensures Valid()
      ensures if pressure.Some? then InRange(mode, pressure.value) else mode == old(mode)
      ensures r.None? <==> Raises(mode, graph)
      ensures Applied(mode, now, graph, old(store), store)
      ensures r.Some? ==> r.value == |old(store)| - |store|
    {
      if pressure.Some? {
        mode := PressureToMode(pressure.value);
      }
      blocked := mode == EMERGENCY;
      var evicted := 0;
      match mode {
        case EMERGENCY =>
          evicted := EvictIdle(now, 30.0);
        case CRITICAL =>
          Offload(now);
        case NORMAL =>
          evicted := EvictIdle(now, 120.0);
        case PRESSURE =>
          evicted := EvictHeaviest();
        case RELAXED =>
        case WORKFLOW_AWARE =>
          if graph.Some? {
            if graph.value.CycleDetected? {
              return None;
            }
            evicted := EvictContexts(graph.value.value);
          }
      }
      r := Some(evicted);
    }

    /** Marks idle entries as offloaded instead of removing them. */
    method Offload(now: real)
      requires totalTokens == SumBy(store, Tokens) && forall k :: k in store ==> store[k].key == k
      modifies this`store
      ensures totalTokens == SumBy(store, Tokens) && forall k :: k in store ==> store[k].key == k
      ensures store == OffloadIdle(old(store), now) && |store| == |old(store)|
    {
      SumSame(store, OffloadIdle(store, now), Tokens);
      assert |OffloadIdle(store, now).Keys| == |store.Keys|;
      store := OffloadIdle(store, now);
    }

    method EvictIdle(now: real, limit: real) returns (evicted: nat)
      requires totalTokens == SumBy(store, Tokens) && forall k :: k in store ==> store[k].key == k
      modifies this`store, this`totalTokens
      ensures totalTokens == SumBy(store, Tokens)
      ensures store == old(store) - IdleKeys(old(store), now, limit) && evicted == |old(store)| - |store|
    {
      var idle := map k | k in store && Idle(store[k], now, limit) :: store[k];
      var toEvict := ListKeys(idle);
      assert Elements(toEvict) == IdleKeys(store, now, limit);
      evicted := EvictAll(toEvict);
    }

    /** Evicts the keys of the agents of a step graph, last in priority first. */
    method EvictContexts(agents: seq<string>) returns (evicted: nat)
      requires totalTokens == SumBy(store, Tokens) && forall k :: k in store ==> store[k].key == k
      modifies this`store, this`totalTokens
      ensures totalTokens == SumBy(store, Tokens)
      ensures store == old(store) - ContextKeys(agents) && evicted == |old(store)| - |store|
    {
      ReversedHaveAll(agents);
      evicted := EvictAll(ReversedContexts(agents));
    }

    /** Evicts the first quarter (at least one) in order of tokens per access. */
    method EvictHeaviest() returns (evicted: nat)
      requires totalTokens == SumBy(store, Tokens) && forall k :: k in store ==> store[k].key == k
      modifies this`store, this`totalTokens
      ensures totalTokens == SumBy(store, Tokens)
      ensures HeavyGone(old(store), store) && evicted == |old(store)| - |store|
    {
      var keys := ListKeys(store);
      forall i | 0 <= i < |keys| ensures keys[i] in store {
        assert keys[i] in keys;
      }
      var current := store;
      var values := seq(|keys|, i requires 0 <= i < |keys| && keys[i] in current => current[keys[i]]);
      var candidates := SortBy(values, HeaviestFirst);
      var target := Quarter(|candidates|);
      var chosen := if target <= |candidates| then candidates[..target] else candidates;
      var toEvict := seq(|chosen|, i requires 0 <= i < |chosen| => chosen[i].key);
      CandidatesList(store, keys, values, candidates, HeaviestFirst);
      ChosenAreFirst(store, candidates, |chosen|, toEvict, HeaviestFirst);
      FirstAreHeaviest(store, store - Elements(toEvict));
      evicted := EvictAll(toEvict);
    }

    /** One round of the background monitor: it acts on a change of mode only. */
    method MonitorTick(pressure: real, now: real, graph: Workflow)
      requires Valid()
      modifies this
      ensures Valid() && InRange(mode, pressure)
      ensures if mode == old(mode) then store == old(store) else Applied(mode, now, graph, old(store), store)
    {
      var newMode := PressureToMode(pressure);
      if newMode != mode {
        mode := newMode;
        if newMode == EMERGENCY {
          blocked := true;
        }
        var _ := ApplyEvictionPolicy(None, now, graph);
      }
    }
  }

  lemma DropOne<V>(full: map<string, CacheEntry<V>>, store: map<string, CacheEntry<V>>, keys: seq<string>, i: nat)
    requires i < |keys| && store == full - Elements(keys[..i])
    ensures store - {keys[i]} == full - Elements(keys[..i + 1])
    ensures |store - {keys[i]}| == |store| - if keys[i] in store then 1 else 0
  {
    assert Elements(keys[..i + 1]) == Elements(keys[..i]) + {keys[i]};
    RemoveTwice(full, Elements(keys[..i]), {keys[i]});
    RemoveOne(store, keys[i]);
  }

  /** An enumeration of a store, each entry once, in the order of a key. */
  ghost predicate Enumerates<V>(candidates: seq<CacheEntry<V>>, store: map<string, CacheEntry<V>>,
                                key: CacheEntry<V> -> real) {
    && SortedBy(candidates, key) && Distinct(candidates)
    && (forall e :: e in candidates ==> e.key in store && store[e.key] == e)
    && (forall k :: k in store ==> store[k] in candidates)
  }

  lemma CandidatesList<V>(store: map<string, CacheEntry<V>>, keys: seq<string>, values: seq<CacheEntry<V>>,
                          candidates: seq<CacheEntry<V>>, key: CacheEntry<V> -> real)
    requires forall k :: k in store ==> store[k].key == k
    requires Distinct(keys) && forall k :: k in keys <==> k in store
    requires |values| == |keys| && forall i :: 0 <= i < |keys| ==> keys[i] in store && values[i] == store[keys[i]]
    requires candidates == SortBy(values, key)
    ensures Enumerates(candidates, store, key) && |candidates| == |keys|
  {
    SortByIsStable(values, key);
    SortByElements(values, key);
    ValuesList(store, keys, values);
    DistinctPerm(values, candidates);
  }

  lemma ValuesList<V>(store: map<string, CacheEntry<V>>, keys: seq<string>, values: seq<CacheEntry<V>>)
    requires forall k :: k in store ==> store[k].key == k
    requires Distinct(keys) && forall k :: k in keys <==> k in store
    requires |values| == |keys| && forall i :: 0 <= i < |keys| ==> keys[i] in store && values[i] == store[keys[i]]
    ensures Distinct(values)
    ensures forall e :: e in values ==> e.key in store && store[e.key] == e
    ensures forall k :: k in store ==> store[k] in values
  {
    forall i, j | 0 <= i < j < |values| ensures values[i] != values[j] {
      assert values[i].key == keys[i] && values[j].key == keys[j];
    }
    forall e | e in values ensures e.key in store && store[e.key] == e {
      var i :| 0 <= i < |values| && values[i] == e;
      assert e.key == keys[i];
    }
    forall k | k in store ensures store[k] in values {
      var i :| 0 <= i < |keys| && keys[i] == k;
      assert values[i] == store[k];
    }
  }

  lemma ChosenAreFirst<V>(store: map<string, CacheEntry<V>>, candidates: seq<CacheEntry<V>>, n: nat,
                          toEvict: seq<string>,
                          key: CacheEntry<V> -> real)
    requires Enumerates(candidates, store, key) && n <= |candidates| && forall k :: k in store ==> store[k].key == k
    requires |toEvict| == n && forall i :: 0 <= i < n ==> toEvict[i] == candidates[i].key
    ensures |store| - |store - Elements(toEvict)| == n
    ensures forall e, s :: e in store && e in toEvict && s in store && s !in toEvict ==> key(store[e]) <= key(store[s])
  {
    forall i | 0 <= i < n
      ensures toEvict[i] in store && store[toEvict[i]] == candidates[i] && candidates[i].key in toEvict
    {
      assert candidates[i] in candidates && toEvict[i] in toEvict;
    }
    DistinctSize(toEvict);
    PartSize(store, Elements(toEvict));
    forall e, s | e in store && e in toEvict && s in store && s !in toEvict ensures key(store[e]) <= key(store[s]) {
      var i :| 0 <= i < n && toEvict[i] == e;
      var j :| 0 <= j < |candidates| && candidates[j] == store[s];
    }
  }

  lemma FirstAreHeaviest<V>(full: map<string, CacheEntry<V>>, kept: map<string, CacheEntry<V>>)
    requires IsPart(kept, full)
    requires forall e, s :: e in full && e !in kept && s in kept ==> HeaviestFirst(full[e]) <= HeaviestFirst(full[s])
    ensures forall e, s :: e in full && e !in kept && s in kept ==> Ratio(full[e]) >= Ratio(kept[s])
  {
  }
}
