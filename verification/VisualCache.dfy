/** The visual embedding cache (apohara_context_forge/multimodal/visual_kv_cache.py). Its
    OrderedDict is a key order and a dictionary; the floor of a queueing controller is an
    input of each call, None without a controller. */
module VisualCache {
  import opened Wrappers
  import opened Sorting
  import opened NdArrays

  datatype Embedding = Embedding(shape: seq<nat>, itemSize: nat)

  datatype VisualBlock = VisualBlock(
    contentHash: string, modality: string, embedding: Embedding, encoderModel: string, createdAt: real,
    accessCount: nat, bytes: nat)

  /** num_patches * hidden_dim * dtype size, for a leading batch axis too. */
  function EstimatedBytes(e: Embedding): nat
    requires |e.shape| >= 2
  {
    var item := if e.itemSize > 0 then e.itemSize else 4;
    if |e.shape| == 3 then e.shape[0] * e.shape[1] * e.shape[2] * item else e.shape[0] * e.shape[1] * item
  }

  type Cache = map<string, VisualBlock>

  /** Total bytes of the listed keys. */
  function Total(order: seq<string>, cache: Cache): nat
    requires forall k :: k in order ==> k in cache
  {
    if order == [] then 0 else cache[order[0]].bytes + Total(order[1..], cache)
  }

  /** With a controller, an eviction never takes the cache below its floor. */
  predicate AtFloor(n: nat, floor: Option<int>) {
    n == 0 || (floor.Some? && n <= floor.value)
  }

  /** What is left after evicting from the front for an incoming item. */
  function Shed(order: seq<string>, cache: Cache, incoming: nat, budget: nat, floor: Option<int>): seq<string>
    requires forall k :: k in order ==> k in cache
  {
    if AtFloor(|order|, floor) || Total(order, cache) + incoming <= budget then order
    else Shed(order[1..], cache, incoming, budget, floor)
  }

  /** What is left after evicting from the front down to fewer than `most` entries. */
  function Trim(order: seq<string>, most: int): seq<string> {
    if most < 1 then [] else if |order| < most then order else order[|order| - most + 1..]
  }

  function Without(order: seq<string>, key: string): (rest: seq<string>)
    ensures forall k :: k in rest <==> k in order && k != key
    ensures |rest| <= |order| && (key in order ==> |rest| < |order|)
  {
    if order == [] then []
    else if order[0] == key then Without(order[1..], key)
    else [order[0]] + Without(order[1..], key)
  }

  /** The order after a store: the front evicted, the stored key touched last. */
  function Stored(order: seq<string>, cache: Cache, key: string, incoming: nat, budget: nat, most: int,
                  floor: Option<int>): seq<string>
    requires forall k :: k in order ==> k in cache
  {
    Kept(Shed(order, cache, incoming, budget, floor), key, most) + [key]
  }

  /** The keys a store leaves in front of its own. */
  function Kept(left: seq<string>, key: string, most: int): seq<string> {
    if key in left then Without(left, key) else Trim(left, most)
  }

  /** Whether the capacity loop of a store can never end: the key is new, the cache is full, and
      there is no room to make or the floor forbids to make it. */
  predicate Stuck(order: seq<string>, key: string, most: int, floor: Option<int>) {
    key !in order && |order| >= most && (most < 1 || (floor.Some? && floor.value >= most))
  }

  // ----- which evictions happen

  /** What is left after evicting for a byte budget: the front is gone, every eviction found the
      total over the budget and the cache above its floor, and no further one was called for. */
  ghost predicate BudgetEviction(order: seq<string>, cache: Cache, left: seq<string>, incoming: nat, budget: nat,
                                 floor: Option<int>)
    requires forall k :: k in order ==> k in cache
  {
    var n := |order| - |left|;
    && n >= 0 && left == order[n..]
    && (forall m :: 0 <= m < n ==> Forced(order, cache, m, incoming, budget, floor))
    && (Total(order[n..], cache) + incoming <= budget || left == [] || (floor.Some? && |left| <= floor.value))
  }

  /** After m evictions the total was still over the budget and the cache above its floor. */
  ghost predicate Forced(order: seq<string>, cache: Cache, m: nat, incoming: nat, budget: nat, floor: Option<int>)
    requires (forall k :: k in order ==> k in cache) && m <= |order|
  {
    Total(order[m..], cache) + incoming > budget && (floor.Some? ==> |order| - m > floor.value)
  }

  lemma {:induction false} ShedIsBudgetEviction(order: seq<string>, cache: Cache, incoming: nat, budget: nat,
                                                floor: Option<int>)
    requires forall k :: k in order ==> k in cache
    ensures BudgetEviction(order, cache, Shed(order, cache, incoming, budget, floor), incoming, budget, floor)
  {
    assert order[0..] == order;
    if !(AtFloor(|order|, floor) || Total(order, cache) + incoming <= budget) {
      var left := Shed(order[1..], cache, incoming, budget, floor);
      ShedIsBudgetEviction(order[1..], cache, incoming, budget, floor);
      var n := |order| - |left|;
      assert order[1..][n - 1..] == order[n..];
      forall m | 0 <= m < n ensures Forced(order, cache, m, incoming, budget, floor) {
        if m > 0 {
          assert order[1..][m - 1..] == order[m..];
          assert Forced(order[1..], cache, m - 1, incoming, budget, floor);
        }
      }
    }
  }

  /** The order after a store in full: after the evictions for the budget a cached key moves to
      the end, and a new one goes behind what fits with it into the capacity. */
  ghost predicate StoredAs(order: seq<string>, cache: Cache, now: seq<string>, key: string, incoming: nat, budget: nat,
                           most: int, floor: Option<int>)
    requires forall k :: k in order ==> k in cache
  {
    exists left :: BudgetEviction(order, cache, left, incoming, budget, floor) &&
      if key in left then now == Without(left, key) + [key]
      else if |left| < most then now == left + [key]
      else 1 <= most && now == left[|left| - most + 1..] + [key]
  }

  lemma StoredIsStoredAs(order: seq<string>, cache: Cache, key: string, incoming: nat, budget: nat, most: int,
                         floor: Option<int>)
    requires (forall k :: k in order ==> k in cache) && (order == [] || |order| <= most)
    requires !Stuck(order, key, most, floor)
    ensures StoredAs(order, cache, Stored(order, cache, key, incoming, budget, most, floor), key, incoming, budget,
                     most, floor)
  {
    var left := Shed(order, cache, incoming, budget, floor);
    ShedIsBudgetEviction(order, cache, incoming, budget, floor);
    StuckAfterShed(order, cache, key, incoming, budget, most, floor);
    assert BudgetEviction(order, cache, left, incoming, budget, floor);
  }

  /** A store that fits the budget, of a cached key or with room left, drops nothing. */
  lemma FittingDropsNothing(order: seq<string>, cache: Cache, now: seq<string>, key: string, incoming: nat, budget: nat,
                            most: int, floor: Option<int>)
    requires (forall k :: k in order ==> k in cache) && StoredAs(order, cache, now, key, incoming, budget, most, floor)
    requires Total(order, cache) + incoming <= budget
    ensures key in order || |order| < most ==> now == Without(order, key) + [key]
    ensures key !in order && |order| == most ==> now == order[1..] + [key]
  {
    var left :| BudgetEviction(order, cache, left, incoming, budget, floor) &&
      if key in left then now == Without(left, key) + [key]
      else if |left| < most then now == left + [key]
      else 1 <= most && now == left[|left| - most + 1..] + [key];
    assert order[0..] == order;
    assert |left| < |order| ==> Forced(order, cache, 0, incoming, budget, floor);
    if key !in order {
      WithoutAbsent(order, key);
    }
  }

  /** The estimate is the size of the embedding for two and three axes; of four or more it sees
      the first two only. */
  lemma BytesAre(e: Embedding)
    requires |e.shape| >= 2
    ensures var item := if e.itemSize > 0 then e.itemSize else 4;
            EstimatedBytes(e) == Volume(if |e.shape| <= 3 then e.shape else e.shape[..2]) * item
  {
    var s := e.shape;
    TwoAxes(s[0], s[1]);
    assert s[..2] == [s[0], s[1]];
    if |s| == 2 {
      assert s[..2] == s;
    } else if |s| == 3 {
      assert Volume(s) == Volume(s[..2]) * s[2];
    }
  }

  lemma TwoAxes(a: nat, b: nat)
    ensures Volume([a, b]) == a * b
  {
    assert [a, b][..1] == [a] && [a][..0] == [];
    assert Volume([a]) == Volume([]) * a == a;
  }

  // ----- facts about eviction from the front

  ghost predicate IsSuffix(s: seq<string>, order: seq<string>) {
    s == order || (order != [] && IsSuffix(s, order[1..]))
  }

  lemma {:induction false} SuffixIs(s: seq<string>, order: seq<string>)
    requires IsSuffix(s, order)
    ensures |s| <= |order| && s == order[|order| - |s|..]
  {
    if s != order {
      SuffixIs(s, order[1..]);
    }
  }

  lemma {:induction false} ShedIsSuffix(order: seq<string>, cache: Cache, incoming: nat, budget: nat,
                                        floor: Option<int>)
    requires forall k :: k in order ==> k in cache
    ensures var left := Shed(order, cache, incoming, budget, floor);
            && IsSuffix(left, order) && (forall k :: k in left ==> k in order)
            && (AtFloor(|left|, floor) || Total(left, cache) + incoming <= budget)
            && (floor.Some? && floor.value <= |order| ==> floor.value <= |left|)
            && (floor.Some? && floor.value > |order| ==> left == order)
  {
    if !(AtFloor(|order|, floor) || Total(order, cache) + incoming <= budget) {
      ShedIsSuffix(order[1..], cache, incoming, budget, floor);
    }
  }

  lemma {:induction false} TotalSuffix(order: seq<string>, cache: Cache, n: nat)
    requires forall k :: k in order ==> k in cache
    requires n <= |order|
    ensures Total(order[n..], cache) <= Total(order, cache)
  {
    if n > 0 {
      TotalSuffix(order[1..], cache, n - 1);
      assert order[1..][n - 1..] == order[n..];
    }
  }

  lemma {:induction false} TotalAppend(order: seq<string>, cache: Cache, key: string)
    requires (forall k :: k in order ==> k in cache) && key in cache
    ensures Total(order + [key], cache) == Total(order, cache) + cache[key].bytes
  {
    if order != [] {
      assert (order + [key])[1..] == order[1..] + [key];
      TotalAppend(order[1..], cache, key);
    }
  }

  lemma {:induction false} TotalWithout(order: seq<string>, cache: Cache, key: string)
    requires forall k :: k in order ==> k in cache
    ensures Total(Without(order, key), cache) <= Total(order, cache)
  {
    if order != [] {
      TotalWithout(order[1..], cache, key);
      if order[0] != key {
        var rest := [order[0]] + Without(order[1..], key);
        assert rest[1..] == Without(order[1..], key);
      }
    }
  }

  lemma {:induction false} TotalFrame(order: seq<string>, cache: Cache, other: Cache)
    requires forall k :: k in order ==> k in cache && k in other && cache[k] == other[k]
    ensures Total(order, cache) == Total(order, other)
  {
    if order != [] {
      TotalFrame(order[1..], cache, other);
    }
  }

  /** Without a controller the cache fits its budget after a store exactly when the stored
      item fits it alone, whatever was cached before. */
  lemma StoreFitsIff(order: seq<string>, cache: Cache, after: Cache, key: string, budget: nat, most: int)
    requires (forall k :: k in order ==> k in cache) && key in after
    requires forall k :: k in order && k != key ==> k in after && after[k] == cache[k]
    ensures var now := Stored(order, cache, key, after[key].bytes, budget, most, None);
            && (forall k :: k in now ==> k in after)
            && (Total(now, after) <= budget <==> after[key].bytes <= budget)
  {
    var incoming := after[key].bytes;
    var left := Shed(order, cache, incoming, budget, None);
    ShedIsSuffix(order, cache, incoming, budget, None);
    var kept := Kept(left, key, most);
    KeptIsSmaller(left, cache, key, most);
    TotalFrame(kept, cache, after);
    TotalAppend(kept, after, key);
  }

  lemma KeptIsSmaller(left: seq<string>, cache: Cache, key: string, most: int)
    requires forall k :: k in left ==> k in cache
    ensures (forall k :: k in Kept(left, key, most) ==> k in left && k != key)
    ensures Total(Kept(left, key, most), cache) <= Total(left, cache)
  {
    if key in left {
      TotalWithout(left, cache, key);
    } else if 1 <= most <= |left| {
      TotalSuffix(left, cache, |left| - most + 1);
    }
  }

  lemma {:induction false} WithoutOne(order: seq<string>, key: string)
    requires Distinct(order)
    ensures |Without(order, key)| >= |order| - 1
  {
    if order != [] {
      if order[0] == key {
        WithoutAbsent(order[1..], key);
      } else {
        WithoutOne(order[1..], key);
      }
    }
  }

  /** Evicting for the byte budget first neither helps nor hurts. */
  lemma StuckAfterShed(order: seq<string>, cache: Cache, key: string, incoming: nat, budget: nat, most: int,
                       floor: Option<int>)
    requires (forall k :: k in order ==> k in cache) && (order == [] || |order| <= most)
    ensures Stuck(Shed(order, cache, incoming, budget, floor), key, most, floor) <==> Stuck(order, key, most, floor)
  {
    ShedIsSuffix(order, cache, incoming, budget, floor);
    SuffixIs(Shed(order, cache, incoming, budget, floor), order);
  }

  /** A store that returns leaves at most `most` entries and, under a controller, never fewer
      than its floor or than there were. */
  lemma StoreStaysInBounds(order: seq<string>, cache: Cache, key: string, incoming: nat, budget: nat, most: int,
                           floor: Option<int>)
    requires Distinct(order) && (forall k :: k in order ==> k in cache) && (order == [] || |order| <= most)
    requires !Stuck(order, key, most, floor)
    ensures var now := Stored(order, cache, key, incoming, budget, most, floor);
            && |now| <= most
            && (floor.Some? ==> |now| >= floor.value || |now| >= |order|)
  {
    ShedInBounds(order, cache, incoming, budget, floor);
    StuckAfterShed(order, cache, key, incoming, budget, most, floor);
    KeptInBounds(Shed(order, cache, incoming, budget, floor), key, most, floor, |order|);
  }

  lemma ShedInBounds(order: seq<string>, cache: Cache, incoming: nat, budget: nat, floor: Option<int>)
    requires Distinct(order) && forall k :: k in order ==> k in cache
    ensures var left := Shed(order, cache, incoming, budget, floor);
            Distinct(left) && |left| <= |order| && (floor.Some? ==> |left| >= floor.value || |left| == |order|)
  {
    ShedIsSuffix(order, cache, incoming, budget, floor);
    SuffixIs(Shed(order, cache, incoming, budget, floor), order);
  }

  lemma KeptInBounds(left: seq<string>, key: string, most: int, floor: Option<int>, before: nat)
    requires Distinct(left) && |left| <= before && (before == 0 || before <= most) && !Stuck(left, key, most, floor)
    requires floor.Some? ==> |left| >= floor.value || |left| == before
    ensures var now := Kept(left, key, most) + [key];
            |now| <= most && (floor.Some? ==> |now| >= floor.value || |now| >= before)
  {
    if key in left {
      WithoutOne(left, key);
    }
  }

  // ----- the cache object

  datatype Outcome = StoredOk | IndexError | NeverReturns

  class VisualKVCache {
    const maxEntries: int
    const maxVramBytes: nat
    var order: seq<string>
    var cache: Cache
    var hits: nat
    var misses: nat
    var vramSavedBytes: nat
    /** When each cached key was last looked up with success or stored. */
    ghost var touched: map<string, nat>
    ghost var clock: nat

    /** The dictionary order is last-touch order, without repetition, within capacity. */
    ghost predicate Valid()
      reads this
    {
      Tracks(order, cache.Keys, touched, clock) && (order == [] || |order| <= maxEntries)
    }

    constructor (maxEntries: int, maxVramBytes: nat)
      ensures Valid() && cache == map[] && this.maxEntries == maxEntries && this.maxVramBytes == maxVramBytes
    {
      this.maxEntries, this.maxVramBytes := maxEntries, maxVramBytes;
      order, cache, hits, misses, vramSavedBytes, touched, clock := [], map[], 0, 0, 0, map[], 0;
    }

    method Lookup(key: string) returns (r: Option<VisualBlock>)
      requires Valid()
      modifies this
      ensures Valid() && (r.Some? <==> key in old(cache))
      ensures r.None? ==> order == old(order) && cache == old(cache) && misses == old(misses) + 1 && hits == old(hits)
      ensures r.Some? ==>
                && var hit := old(cache)[key].(accessCount := old(cache)[key].accessCount + 1);
                && r.value == hit && cache == old(cache)[key := hit] && order == Without(old(order), key) + [key]
                && hits == old(hits) + 1 && misses == old(misses) && vramSavedBytes == old(vramSavedBytes) + hit.bytes
    {
      if key !in cache {
        misses := misses + 1;
        return None;
      }
      var block := cache[key].(accessCount := cache[key].accessCount + 1);
      PutLast(key, block);
      hits, vramSavedBytes := hits + 1, vramSavedBytes + block.bytes;
      r := Some(block);
    }

    /** move_to_end, where the key is cached, and assignment. */
    method PutLast(key: string, block: VisualBlock)
      requires Valid() && (key in cache || |order| < maxEntries)
      modifies this`order, this`cache, this`touched, this`clock
      ensures Valid() && order == Without(old(order), key) + [key] && cache == old(cache)[key := block]
      ensures touched == old(touched)[key := old(clock)]
    {
      TouchTracks(order, cache.Keys, touched, clock, key);
      assert cache[key := block].Keys == cache.Keys + {key};
      order := Without(order, key) + [key];
      touched, clock := touched[key := clock], clock + 1;
      cache := cache[key := block];
    }

    /** Pops the first entry, unless there is none or the floor forbids it. */
    method EvictLfu(floor: Option<int>) returns (r: Option<VisualBlock>)
      requires Valid()
      modifies this`order, this`cache, this`touched
      ensures Valid() && (r.None? <==> old(order) == [] || (floor.Some? && |old(order)| <= floor.value))
      ensures r.None? ==> order == old(order) && cache == old(cache) && touched == old(touched)
      ensures r.Some? ==>
                && old(order) != [] && order == old(order)[1..] && r.value == old(cache)[old(order)[0]]
                && cache == old(cache) - {old(order)[0]} && touched == old(touched) - {old(order)[0]}
    {
      if AtFloor(|order|, floor) {
        return None;
      }
      var key := order[0];
      r := Some(cache[key]);
      DropOldest(order, cache.Keys, touched, clock);
      assert (cache - {key}).Keys == cache.Keys - {key};
      order, cache, touched := order[1..], cache - {key}, touched - {key};
    }

    method TotalBytes() returns (total: nat)
      requires Valid()
      ensures total == Total(order, cache)
    {
      total := 0;
      for i := 0 to |order|
        invariant total + Total(order[i..], cache) == Total(order, cache)
      {
        assert order[i..][1..] == order[i + 1..];
        total := total + cache[order[i]].bytes;
      }
    }

    /** Nothing but evictions happened: the entries that are left are what they were. */
    twostate predicate OnlyEvicted()
      reads this
    {
      && IsSuffix(order, old(order)) && clock == old(clock)
      && (forall k :: k in cache ==> k in old(cache) && cache[k] == old(cache)[k])
      && (forall k :: k in touched ==> k in old(touched) && touched[k] == old(touched)[k])
    }

    method EvictIfNeeded(incoming: nat, floor: Option<int>)
      requires Valid()
      modifies this`order, this`cache, this`touched
      ensures Valid() && OnlyEvicted() && order == Shed(old(order), old(cache), incoming, maxVramBytes, floor)
      ensures BudgetEviction(old(order), old(cache), order, incoming, maxVramBytes, floor)
    {
      ShedIsBudgetEviction(order, cache, incoming, maxVramBytes, floor);
      var current := TotalBytes();
      ghost var cache0 := cache;
      while current + incoming > maxVramBytes && order != []
        invariant Valid() && OnlyEvicted()
        invariant current == Total(order, cache0)
        invariant Shed(order, cache0, incoming, maxVramBytes, floor) ==
                  Shed(old(order), cache0, incoming, maxVramBytes, floor)
        decreases |order|
      {
        SuffixStep(order, old(order));
        var evicted := EvictLfu(floor);
        if evicted.Some? {
          current := current - evicted.value.bytes;
        } else {
          break;
        }
      }
    }

    /** Evicts down to fewer than maxEntries, which the source attempts for ever when it may
        not evict that far; false stands for that. */
    method EvictToCapacity(floor: Option<int>) returns (fits: bool)
      requires Valid()
      modifies this`order, this`cache, this`touched
      ensures Valid() && OnlyEvicted()
      ensures fits <==> |old(order)| < maxEntries || (maxEntries >= 1 && !(floor.Some? && floor.value >= maxEntries))
      ensures fits ==> order == Trim(old(order), maxEntries)
      ensures fits ==> order == if |old(order)| < maxEntries then old(order)
                                else old(order)[|old(order)| - maxEntries + 1..]
    {
      while |order| >= maxEntries
        invariant Valid() && OnlyEvicted()
        invariant order == old(order) || (maxEntries >= 1 && |order| >= maxEntries - 1)
        invariant order == old(order) || !(floor.Some? && floor.value >= |order| + 1)
        decreases |order|
      {
        if order != [] {
          SuffixStep(order, old(order));
        }
        var evicted := EvictLfu(floor);
        if evicted.None? {
          return false;
        }
      }
      SuffixIs(order, old(order));
      fits := true;
    }

    /** All evictions of a store: for the byte budget, then for the capacity if the key is new. */
    method MakeRoom(key: string, bytes: nat, floor: Option<int>) returns (fits: bool)
      requires Valid()
      modifies this`order, this`cache, this`touched
      ensures Valid() && OnlyEvicted()
      ensures !fits <==> Stuck(old(order), key, maxEntries, floor)
      ensures fits ==> key in cache || |order| < maxEntries
      ensures fits ==> Without(order, key) + [key] ==
                       Stored(old(order), old(cache), key, bytes, maxVramBytes, maxEntries, floor)
    {
      StuckAfterShed(order, cache, key, bytes, maxVramBytes, maxEntries, floor);
      EvictIfNeeded(bytes, floor);
      fits := true;
      ghost var left := order;
      if key !in cache {
        fits := EvictToCapacity(floor);
        SuffixTrans(order, left, old(order));
        WithoutAbsent(order, key);
      }
    }

    /** Stores a block last in touch order. Fails without two axes, and never returns when
        capacity would need evictions that the floor forbids. */
    method Store(key: string, e: Embedding, modality: string, encoderModel: string, now: real, floor: Option<int>)
      returns (outcome: Outcome)
      requires Valid()
      modifies this
      ensures Valid()
      ensures outcome == IndexError <==> |e.shape| < 2
      ensures outcome == IndexError ==> order == old(order) && cache == old(cache)
      ensures outcome == NeverReturns <==>
                |e.shape| >= 2 && Stuck(old(order), key, maxEntries, floor)
      ensures outcome == StoredOk ==>
                && order == Stored(old(order), old(cache), key, EstimatedBytes(e), maxVramBytes, maxEntries, floor)
                && key in cache && cache[key] == VisualBlock(key, modality, e, encoderModel, now, 0, EstimatedBytes(e))
                && forall k :: k in cache && k != key ==> k in old(cache) && cache[k] == old(cache)[k]
      ensures outcome == StoredOk ==> VictimsAreOldest(old(touched), order, touched)
      ensures outcome == StoredOk ==>
                StoredAs(old(order), old(cache), order, key, cache[key].bytes, maxVramBytes, maxEntries, floor)
      ensures outcome == StoredOk && Total(old(order), old(cache)) + cache[key].bytes <= maxVramBytes ==>
                && (key in old(cache) || |old(order)| < maxEntries ==> order == Without(old(order), key) + [key])
                && (key !in old(cache) && |old(order)| == maxEntries ==> order == old(order)[1..] + [key])
    {
      if |e.shape| < 2 {
        return IndexError;
      }
      var bytes := EstimatedBytes(e);
      var fits := MakeRoom(key, bytes, floor);
      if !fits {
        return NeverReturns;
      }
      ghost var last, kept, when := order, touched, clock;
      PutLast(key, VisualBlock(key, modality, e, encoderModel, now, 0, bytes));
      VictimsAre(old(order), old(touched), when, last, key, kept);
      StoredIsStoredAs(old(order), old(cache), key, bytes, maxVramBytes, maxEntries, floor);
      if Total(old(order), old(cache)) + bytes <= maxVramBytes {
        FittingDropsNothing(old(order), old(cache), order, key, bytes, maxVramBytes, maxEntries, floor);
      }
      outcome := StoredOk;
    }
  }

  /** Whatever was evicted had been touched before everything that stayed. */
  ghost predicate VictimsAreOldest(touched0: map<string, nat>, order: seq<string>, touched: map<string, nat>) {
    forall v, k :: v in touched0 && v !in order && k in order ==> touched0[v] < TouchOf(touched, k)
  }

  lemma VictimsAre(order0: seq<string>, touched0: map<string, nat>, clock: nat, last: seq<string>, key: string,
                   kept: map<string, nat>)
    requires InTouchOrder(order0, touched0) && IsSuffix(last, order0)
    requires forall k :: k in touched0 <==> k in order0
    requires forall k :: k in touched0 ==> touched0[k] < clock
    requires forall k :: k in last ==> k in kept && k in touched0 && kept[k] == touched0[k]
    ensures VictimsAreOldest(touched0, Without(last, key) + [key], kept[key := clock])
  {
    SuffixIs(last, order0);
    var n := |order0| - |last|;
    assert order0 == order0[..n] + last;
    forall v, k | v in touched0 && v !in last && k in last ensures touched0[v] < touched0[k] {
      assert v in order0[..n];
      FrontIsOlder(order0, touched0, n, v, k);
    }
  }

  lemma {:induction false} SuffixTrans(a: seq<string>, b: seq<string>, c: seq<string>)
    requires IsSuffix(a, b) && IsSuffix(b, c)
    ensures IsSuffix(a, c)
  {
    if b != c {
      SuffixTrans(a, b, c[1..]);
    }
  }

  lemma {:induction false} WithoutAbsent(order: seq<string>, key: string)
    requires key !in order
    ensures Without(order, key) == order
  {
    if order != [] {
      WithoutAbsent(order[1..], key);
    }
  }

  ghost function TouchOf(touched: map<string, nat>, k: string): int {
    if k in touched then touched[k] else -1
  }

  ghost predicate AllLater(t: int, keys: seq<string>, touched: map<string, nat>) {
    forall k :: k in keys ==> t < TouchOf(touched, k)
  }

  /** Every key was touched before all keys behind it. */
  ghost predicate InTouchOrder(order: seq<string>, touched: map<string, nat>) {
    order == [] || (AllLater(TouchOf(touched, order[0]), order[1..], touched) && InTouchOrder(order[1..], touched))
  }

  ghost predicate Tracks(order: seq<string>, keys: set<string>, touched: map<string, nat>, clock: nat) {
    && (forall k :: k in order <==> k in keys)
    && touched.Keys == keys && (forall k :: k in touched ==> touched[k] < clock)
    && InTouchOrder(order, touched)
  }

  /** Touch order allows no repetition. */
  lemma {:induction false} InTouchOrderIsDistinct(order: seq<string>, touched: map<string, nat>)
    requires InTouchOrder(order, touched)
    ensures Distinct(order)
  {
    if order != [] {
      InTouchOrderIsDistinct(order[1..], touched);
      assert order[0] !in order[1..];
      assert forall i :: 0 < i < |order| ==> order[i] in order[1..];
      assert forall i :: 0 < i < |order| ==> order[i] == order[1..][i - 1];
    }
  }

  lemma {:induction false} SuffixStep(s: seq<string>, order: seq<string>)
    requires IsSuffix(s, order) && s != []
    ensures IsSuffix(s[1..], order) && |s[1..]| < |s| <= |order|
  {
    SuffixIs(s, order);
    if s != order {
      SuffixStep(s, order[1..]);
    }
  }

  lemma {:induction false} WithoutKeepsOrder(order: seq<string>, touched: map<string, nat>, key: string)
    requires InTouchOrder(order, touched)
    ensures InTouchOrder(Without(order, key), touched)
  {
    if order != [] {
      WithoutKeepsOrder(order[1..], touched, key);
      var rest := [order[0]] + Without(order[1..], key);
      assert rest[1..] == Without(order[1..], key);
    }
  }

  lemma {:induction false} AppendLatest(order: seq<string>, touched: map<string, nat>, key: string, now: nat)
    requires InTouchOrder(order, touched) && key !in order
    requires forall k :: k in order ==> k in touched && touched[k] < now
    ensures InTouchOrder(order + [key], touched[key := now])
  {
    if order != [] {
      AppendLatest(order[1..], touched, key, now);
      assert (order + [key])[1..] == order[1..] + [key];
    } else {
      assert [key][1..] == [];
    }
  }

  /** Taking a key off the front leaves the rest tracked. */
  lemma DropOldest(order: seq<string>, keys: set<string>, touched: map<string, nat>, clock: nat)
    requires Tracks(order, keys, touched, clock) && order != []
    ensures Tracks(order[1..], keys - {order[0]}, touched - {order[0]}, clock)
  {
    var first := order[0];
    assert first !in order[1..] by {
      assert AllLater(TouchOf(touched, first), order[1..], touched);
    }
    TouchFrame(order[1..], touched, touched - {first});
    assert order == [first] + order[1..];
  }

  lemma {:induction false} TouchFrame(order: seq<string>, touched: map<string, nat>, other: map<string, nat>)
    requires InTouchOrder(order, touched) && forall k :: k in order ==> TouchOf(touched, k) == TouchOf(other, k)
    ensures InTouchOrder(order, other)
  {
    if order != [] {
      TouchFrame(order[1..], touched, other);
    }
  }

  /** Touching a key, cached or new, moves it behind all others. */
  lemma TouchTracks(order: seq<string>, keys: set<string>, touched: map<string, nat>, clock: nat, key: string)
    requires Tracks(order, keys, touched, clock)
    ensures Tracks(Without(order, key) + [key], keys + {key}, touched[key := clock], clock + 1)
  {
    WithoutKeepsOrder(order, touched, key);
    AppendLatest(Without(order, key), touched, key, clock);
  }

  /** In touch order, whatever lies in front of a suffix was touched before all of it. */
  lemma {:induction false} FrontIsOlder(order: seq<string>, touched: map<string, nat>, n: nat, k: string, later: string)
    requires InTouchOrder(order, touched) && n <= |order| && k in order[..n] && later in order[n..]
    ensures TouchOf(touched, k) < TouchOf(touched, later)
  {
    if k == order[0] {
      assert later in order[1..];
    } else {
      assert order[..n][1..] == order[1..][..n - 1] && order[1..][n - 1..] == order[n..];
      assert k in order[..n][1..];
      FrontIsOlder(order[1..], touched, n - 1, k, later);
    }
  }
}
