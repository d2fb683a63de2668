/** The bounded pool of KV-offset anchors (apohara_context_forge/kv_offset/anchor_pool.py).
    Fingerprint, embedding and clock reading of an update are its inputs. */
module AnchorPool {
  import opened Arithmetic
  import opened Wrappers

  type Offset = seq<real>

  datatype Anchor = Anchor(
    baseKvHash: nat, agentOffsets: map<string, Offset>, embedding: seq<real>, tokenLength: nat,
    prefixOffsets: map<string, Offset>, accessCount: nat, createdAt: real)

  /** The heap entry of an anchor. */
  datatype Rank = Rank(accessCount: nat, createdAt: real, hash: nat)

  function RankOf(anchors: map<nat, Anchor>, h: nat): Rank
    requires h in anchors
  {
    Rank(anchors[h].accessCount, anchors[h].createdAt, h)
  }

  /** Tuple order: the one evicted first. */
  predicate Before(r: Rank, s: Rank) {
    || r.accessCount < s.accessCount
    || (r.accessCount == s.accessCount && r.createdAt < s.createdAt)
    || (r.accessCount == s.accessCount && r.createdAt == s.createdAt && r.hash < s.hash)
  }

  lemma RanksAreOrdered(r: Rank, s: Rank, t: Rank)
    ensures r == s || Before(r, s) || Before(s, r)
    ensures Before(r, s) && Before(s, t) ==> Before(r, t)
  {
  }

  /** kept is what a prune leaves of full: a quarter (at least one) is gone, and every anchor
      that is gone ranks before every one that stayed. */
  ghost predicate Pruned(full: map<nat, Anchor>, kept: map<nat, Anchor>) {
    && kept.Keys <= full.Keys && (forall h :: h in kept ==> kept[h] == full[h])
    && |full.Keys - kept.Keys| == Quarter(|full|)
    && forall e, s :: e in full.Keys - kept.Keys && s in kept ==> Before(RankOf(full, e), RankOf(full, s))
  }

  /** Less often accessed, or as often and created earlier, or at the same time with a smaller
      hash. */
  predicate OlderOrLessUsed(a: Anchor, h: nat, b: Anchor, k: nat) {
    && a.accessCount <= b.accessCount
    && (a.accessCount == b.accessCount ==> a.createdAt <= b.createdAt)
    && (a.accessCount == b.accessCount && a.createdAt == b.createdAt ==> h < k)
  }

  /** What a prune leaves, from the fields of the anchors alone. */
  lemma PrunedMeans(full: map<nat, Anchor>, kept: map<nat, Anchor>)
    requires Pruned(full, kept)
    ensures IsQuarter(|full.Keys - kept.Keys|, |full|)
    ensures forall e, s :: e in full.Keys - kept.Keys && s in kept ==> OlderOrLessUsed(full[e], e, full[s], s)
  {
    QuarterIs(|full|);
    forall e, s | e in full.Keys - kept.Keys && s in kept ensures OlderOrLessUsed(full[e], e, full[s], s) {
      assert Before(RankOf(full, e), RankOf(full, s));
    }
  }

  /** The anchors after an update and before any prune. */
  function Touched(anchors: map<nat, Anchor>, h: nat, agent: string, offset: Offset, neighbour: Option<Offset>,
                   embedding: seq<real>, tokenLength: nat, now: real): (full: map<nat, Anchor>)
    ensures full.Keys == anchors.Keys + {h} && forall k :: k in anchors && k != h ==> full[k] == anchors[k]
    ensures agent in full[h].agentOffsets && full[h].agentOffsets[agent] == offset
    ensures full[h].agentOffsets == (if h in anchors then anchors[h].agentOffsets else map[])[agent := offset]
    ensures full[h].accessCount == 1 + (if h in anchors then anchors[h].accessCount else 0)
    ensures h in anchors ==> full[h].createdAt == anchors[h].createdAt && full[h].embedding == anchors[h].embedding
    ensures h in anchors ==> full[h].baseKvHash == anchors[h].baseKvHash
    ensures h in anchors ==> full[h].tokenLength == anchors[h].tokenLength
    ensures h !in anchors ==> full[h].createdAt == now && full[h].embedding == embedding
    ensures h !in anchors ==> full[h].baseKvHash == h && full[h].tokenLength == tokenLength
    ensures var kept := if h in anchors then anchors[h].prefixOffsets else map[];
            && (neighbour.None? ==> full[h].prefixOffsets == kept)
            && (neighbour.Some? ==> full[h].prefixOffsets == kept[agent := neighbour.value])
  {
    var prefix := if h in anchors then anchors[h].prefixOffsets else map[];
    var prefix' := if neighbour.Some? then prefix[agent := neighbour.value] else prefix;
    if h in anchors then
      var a := anchors[h];
      anchors[h := a.(agentOffsets := a.agentOffsets[agent := offset], prefixOffsets := prefix',
                      accessCount := a.accessCount + 1)]
    else
      anchors[h := Anchor(h, map[agent := offset], embedding, tokenLength, prefix', 1, now)]
  }

  /** heapq.heappop on a heap of distinct entries. */
  method PopLeast(heap: set<Rank>) returns (least: Rank, rest: set<Rank>)
    requires heap != {}
    ensures least in heap && rest == heap - {least} && forall r :: r in rest ==> Before(least, r)
  {
    var todo := heap;
    least :| least in todo;
    todo := todo - {least};
    while todo != {}
      invariant todo <= heap && least in heap
      invariant forall r :: r in heap - todo ==> r == least || Before(least, r)
      decreases |todo|
    {
      var r :| r in todo;
      ghost var was, seen := least, heap - todo;
      forall s | s in seen + {r} ensures s == least || Before(least, s) || Before(r, least) {
        RanksAreOrdered(r, least, s);
      }
      if Before(r, least) {
        least := r;
      }
      forall s | s in seen + {r} ensures s == least || Before(least, s) {
        RanksAreOrdered(r, was, s);
      }
      todo := todo - {r};
    }
    rest := heap - {least};
  }

  ghost predicate Listed(lists: map<string, set<nat>>, a: string, h: nat) {
    a in lists && h in lists[a]
  }

  /** An agent lists exactly the live anchors it created, and each holds its offset. Offsets
      added to an existing anchor are not listed. */
  ghost predicate Consistent(anchors: map<nat, Anchor>, lists: map<string, set<nat>>, creator: map<nat, string>) {
    && creator.Keys == anchors.Keys
    && (forall h :: h in anchors ==> creator[h] in anchors[h].agentOffsets)
    && (forall h :: h in anchors ==> Listed(lists, creator[h], h))
    && (forall a, h :: Listed(lists, a, h) ==> h in anchors && creator[h] == a)
  }

  function AddListing(lists: map<string, set<nat>>, agent: string, h: nat): (after: map<string, set<nat>>)
    ensures forall a, k :: Listed(after, a, k) <==> Listed(lists, a, k) || (a == agent && k == h)
  {
    var own := if agent in lists then lists[agent] else {};
    lists[agent := own + {h}]
  }

  /** Discards h from the list of every agent in `holders`. */
  function DropListings(lists: map<string, set<nat>>, holders: set<string>, h: nat): (after: map<string, set<nat>>)
    ensures forall a, k :: Listed(after, a, k) <==> Listed(lists, a, k) && !(a in holders && k == h)
  {
    map a | a in lists :: if a in holders then lists[a] - {h} else lists[a]
  }

  class Pool {
    const maxSize: nat
    var anchors: map<nat, Anchor>
    var agentAnchors: map<string, set<nat>>
    /** Who brought each live anchor into the pool. */
    ghost var creator: map<nat, string>

    ghost predicate Valid()
      reads this
    {
      |anchors| <= maxSize && Consistent(anchors, agentAnchors, creator)
    }

    constructor (maxSize: nat)
      ensures Valid() && anchors == map[] && this.maxSize == maxSize
    {
      this.maxSize := maxSize;
      anchors, agentAnchors, creator := map[], map[], map[];
    }

    method UpdatePool(h: nat, agent: string, offset: Offset, neighbour: Option<Offset>,
                      embedding: seq<real>, tokenLength: nat, now: real)
      requires Valid()
      modifies this
      ensures Valid()
      ensures var full := Touched(old(anchors), h, agent, offset, neighbour, embedding, tokenLength, now);
              if |full| <= maxSize then anchors == full else Pruned(full, anchors)
    {
      Touch(h, agent, offset, neighbour, embedding, tokenLength, now);
      if |anchors| > maxSize {
        PruneAnchors();
      }
    }

    /** Stores the offsets in the anchor, and lists it under the agent if that brings it in. */
    method Touch(h: nat, agent: string, offset: Offset, neighbour: Option<Offset>,
                 embedding: seq<real>, tokenLength: nat, now: real)
      requires Consistent(anchors, agentAnchors, creator)
      modifies this
      ensures Consistent(anchors, agentAnchors, creator) && |anchors| <= |old(anchors)| + 1
      ensures anchors == Touched(old(anchors), h, agent, offset, neighbour, embedding, tokenLength, now)
    {
      var full := Touched(anchors, h, agent, offset, neighbour, embedding, tokenLength, now);
      TouchStaysConsistent(anchors, full, agentAnchors, creator, h, agent);
      if h !in anchors {
        agentAnchors := AddListing(agentAnchors, agent, h);
        creator := creator[h := agent];
      }
      anchors := full;
    }

    method PruneAnchors()
      requires Consistent(anchors, agentAnchors, creator)
      modifies this
      ensures Consistent(anchors, agentAnchors, creator)
      ensures if |old(anchors)| <= maxSize then anchors == old(anchors) else Pruned(old(anchors), anchors)
      ensures |old(anchors)| <= maxSize + 1 ==> |anchors| <= maxSize
    {
      if |anchors| <= maxSize {
        return;
      }
      ghost var full := anchors;
      var heap := set h | h in anchors :: RankOf(anchors, h);
      var count := Quarter(|anchors|);
      NothingGone(full, heap);
      for i := 0 to count
        invariant Consistent(anchors, agentAnchors, creator)
        invariant PrunedBy(full, anchors, heap, i)
      {
        HeapNotEmpty(full, anchors, heap, i);
        ghost var kept, before := anchors, heap;
        var least;
        least, heap := PopLeast(heap);
        PopStays(full, kept, before, i, least, heap);
        Evict(least.hash);
        assert anchors == kept - {least.hash};
      }
      PrunedIs(full, anchors, heap);
    }

    /** Removes an anchor from the pool and from the list of every agent that has an offset in it. */
    method Evict(h: nat)
      requires Consistent(anchors, agentAnchors, creator) && h in anchors
      modifies this
      ensures Consistent(anchors, agentAnchors, creator) && anchors == old(anchors) - {h}
    {
      agentAnchors := DropListings(agentAnchors, anchors[h].agentOffsets.Keys, h);
      anchors := anchors - {h};
      creator := creator - {h};
    }
  }

  lemma TouchStaysConsistent(anchors: map<nat, Anchor>, full: map<nat, Anchor>, lists: map<string, set<nat>>,
                             creator: map<nat, string>, h: nat, agent: string)
    requires Consistent(anchors, lists, creator) && full.Keys == anchors.Keys + {h}
    requires forall k :: k in anchors && k != h ==> full[k] == anchors[k]
    requires h in anchors ==> anchors[h].agentOffsets.Keys <= full[h].agentOffsets.Keys
    requires agent in full[h].agentOffsets
    ensures |full| <= |anchors| + 1
    ensures h in anchors ==> |full| == |anchors| && Consistent(full, lists, creator)
    ensures h !in anchors ==> Consistent(full, AddListing(lists, agent, h), creator[h := agent])
  {
    if h in anchors {
      SameSize(anchors, full);
    } else {
      GrowsByOne(anchors, full, h);
      NewIsConsistent(anchors, full, lists, creator, h, agent);
    }
  }

  lemma NewIsConsistent(anchors: map<nat, Anchor>, full: map<nat, Anchor>, lists: map<string, set<nat>>,
                        creator: map<nat, string>, h: nat, agent: string)
    requires Consistent(anchors, lists, creator) && h !in anchors && full.Keys == anchors.Keys + {h}
    requires forall k :: k in anchors ==> full[k] == anchors[k]
    requires agent in full[h].agentOffsets
    ensures Consistent(full, AddListing(lists, agent, h), creator[h := agent])
  {
    var after, who := AddListing(lists, agent, h), creator[h := agent];
    forall k | k in full ensures Listed(after, who[k], k) && who[k] in full[k].agentOffsets {
      if k != h {
        assert k in anchors && Listed(lists, creator[k], k);
      }
    }
  }

  /** The state of a prune after i evictions. */
  ghost predicate PrunedBy(full: map<nat, Anchor>, kept: map<nat, Anchor>, heap: set<Rank>, i: nat) {
    && kept.Keys <= full.Keys && (forall h :: h in kept ==> kept[h] == full[h])
    && |full.Keys - kept.Keys| == i && |full| == |kept| + i
    && (forall h :: h in kept ==> RankOf(full, h) in heap)
    && (forall r :: r in heap ==> r.hash in kept && r == RankOf(full, r.hash))
    && forall e, s :: e in full.Keys - kept.Keys && s in kept ==> Before(RankOf(full, e), RankOf(full, s))
  }

  lemma NothingGone(full: map<nat, Anchor>, heap: set<Rank>)
    requires heap == set h | h in full :: RankOf(full, h)
    ensures PrunedBy(full, full, heap, 0)
  {
    assert full.Keys - full.Keys == {};
  }

  lemma HeapNotEmpty(full: map<nat, Anchor>, kept: map<nat, Anchor>, heap: set<Rank>, i: nat)
    requires PrunedBy(full, kept, heap, i) && i < Quarter(|full|) && full != map[]
    ensures heap != {}
  {
    assert kept != map[];
    var h :| h in kept;
    assert RankOf(full, h) in heap;
  }

  lemma PopStays(full: map<nat, Anchor>, kept: map<nat, Anchor>, heap: set<Rank>, i: nat, least: Rank, rest: set<Rank>)
    requires PrunedBy(full, kept, heap, i) && least in heap && rest == heap - {least}
    requires forall r :: r in rest ==> Before(least, r)
    ensures least.hash in kept && PrunedBy(full, kept - {least.hash}, rest, i + 1)
  {
    var now := kept - {least.hash};
    PopCounts(full, kept, now, least.hash, i);
    PopKeepsHeap(full, kept, heap, i, least);
    forall e, s | e in full.Keys - now.Keys && s in now ensures Before(RankOf(full, e), RankOf(full, s)) {
      assert RankOf(full, s) in rest;
      assert e == least.hash || e in full.Keys - kept.Keys;
    }
  }

  lemma PopCounts(full: map<nat, Anchor>, kept: map<nat, Anchor>, now: map<nat, Anchor>, h: nat, i: nat)
    requires kept.Keys <= full.Keys && h in kept && now == kept - {h}
    requires |full.Keys - kept.Keys| == i && |full| == |kept| + i
    ensures |full.Keys - now.Keys| == i + 1 && |full| == |now| + i + 1
  {
    assert full.Keys - now.Keys == (full.Keys - kept.Keys) + {h};
    assert now.Keys == kept.Keys - {h};
    assert |kept.Keys| == |now.Keys| + 1;
  }

  lemma PopKeepsHeap(full: map<nat, Anchor>, kept: map<nat, Anchor>, heap: set<Rank>, i: nat, least: Rank)
    requires PrunedBy(full, kept, heap, i) && least in heap
    ensures forall h :: h in kept - {least.hash} ==> RankOf(full, h) in heap - {least}
    ensures forall r :: r in heap - {least} ==> r.hash in kept - {least.hash}
  {
    forall h | h in kept - {least.hash} ensures RankOf(full, h) in heap - {least} {
      assert RankOf(full, h).hash != least.hash;
    }
  }

  lemma PrunedIs(full: map<nat, Anchor>, kept: map<nat, Anchor>, heap: set<Rank>)
    requires PrunedBy(full, kept, heap, Quarter(|full|))
    ensures Pruned(full, kept) && |kept| < |full|
  {
  }

  lemma GrowsByOne(small: map<nat, Anchor>, large: map<nat, Anchor>, h: nat)
    requires h !in small && large.Keys == small.Keys + {h}
    ensures |large| == |small| + 1
  {
    assert |large.Keys| == |small.Keys| + 1;
  }

  lemma SameSize(a: map<nat, Anchor>, b: map<nat, Anchor>)
    requires a.Keys == b.Keys
    ensures |a| == |b|
  {
    assert |a.Keys| == |b.Keys|;
  }
}
