/** The inverted index of fixed-size token blocks by SimHash
    (apohara_context_forge/dedup/lsh_engine.py). Texts are given as their token ids. */
module LshIndex {
  import opened Wrappers
  import opened TokenMixing
  import opened SimHash
  import opened Sorting
  import opened Blocks
  import opened Arithmetic

  type Store = map<nat, map<string, seq<Token>>>

  datatype TokenBlockMatch = TokenBlockMatch(
    blockIndex: nat, cachedHash: nat, distance: nat, confidence: real, agent: string)

  function BlockHash(tokens: seq<Token>, hashBits: nat): nat {
    Fingerprint(tokens, TokenBit, hashBits)
  }

  /** The consecutive whole blocks of a prompt; a shorter rest is skipped. */
  function WholeBlocks(tokens: seq<Token>, size: nat): seq<seq<Token>>
    requires size > 0
  {
    if |tokens| < size then [] else [tokens[..size]] + WholeBlocks(tokens[size..], size)
  }

  function HashesOf(blocks: seq<seq<Token>>, hashBits: nat): (hashes: seq<nat>)
    ensures |hashes| == |blocks| && forall i :: 0 <= i < |blocks| ==> hashes[i] == BlockHash(blocks[i], hashBits)
  {
    seq(|blocks|, i requires 0 <= i < |blocks| => BlockHash(blocks[i], hashBits))
  }

  /** block is block i of the prompt, the size tokens from token i * size on. */
  ghost predicate IsBlock(block: seq<Token>, tokens: seq<Token>, i: nat, size: nat) {
    && 0 <= i * size <= (i + 1) * size <= |tokens|
    && block == tokens[i * size..(i + 1) * size]
  }

  /** h is the fingerprint of block i of the prompt. */
  ghost predicate IsBlockHash(h: nat, tokens: seq<Token>, i: nat, size: nat, hashBits: nat) {
    exists block :: IsBlock(block, tokens, i, size) && h == Fingerprint(block, TokenBit, hashBits)
  }

  /** hashes holds the fingerprints of all whole blocks of the prompt, in order. */
  ghost predicate HashesOfBlocks(hashes: seq<nat>, tokens: seq<Token>, size: nat, hashBits: nat)
    requires size > 0
  {
    && |hashes| == |tokens| / size
    && forall i :: 0 <= i < |hashes| ==> IsBlockHash(hashes[i], tokens, i, size, hashBits)
  }

  lemma {:induction false} WholeBlocksAre(tokens: seq<Token>, size: nat)
    requires size > 0
    ensures |WholeBlocks(tokens, size)| == |tokens| / size
    ensures forall i :: 0 <= i < |WholeBlocks(tokens, size)| ==> IsBlock(WholeBlocks(tokens, size)[i], tokens, i, size)
  {
    var blocks := WholeBlocks(tokens, size);
    if |tokens| >= size {
      var rest := tokens[size..];
      DivStep(|tokens|, size);
      WholeBlocksAre(rest, size);
      forall i | 0 <= i < |blocks| ensures IsBlock(blocks[i], tokens, i, size) {
        if i > 0 {
          assert blocks[i] == WholeBlocks(rest, size)[i - 1];
          NextBlock(blocks[i], tokens, i, size);
        }
      }
    } else {
      DivisionIs(|tokens|, size, 0, |tokens|);
    }
  }

  lemma NextBlock(block: seq<Token>, tokens: seq<Token>, i: nat, size: nat)
    requires i > 0 && size <= |tokens| && IsBlock(block, tokens[size..], i - 1, size)
    ensures IsBlock(block, tokens, i, size)
  {
    assert i * size == (i - 1) * size + size && (i + 1) * size == i * size + size;
    SliceBehind(tokens, size, (i - 1) * size, i * size);
  }

  lemma SliceBehind(tokens: seq<Token>, n: nat, a: nat, b: nat)
    requires a <= b && n + b <= |tokens|
    ensures tokens[n..][a..b] == tokens[n + a..n + b]
  {
  }

  ghost predicate Owns(store: Store, h: nat, a: string) {
    h in store && a in store[h]
  }

  ghost predicate NoEmptyOwners(store: Store) {
    forall h :: h in store ==> store[h] != map[]
  }

  ghost predicate Lists(lists: map<string, seq<nat>>, h: nat, a: string) {
    a in lists && h in lists[a]
  }

  /** The block store is exactly the inverse of the per-agent hash lists. */
  ghost predicate Inverse(store: Store, lists: map<string, seq<nat>>) {
    NoEmptyOwners(store) && forall h, a :: Owns(store, h, a) <==> Lists(lists, h, a)
  }

  /** Whether an agent is left out: the excluded agent itself or a role of it. */
  predicate Excluded(a: string, exclude: Option<string>) {
    exclude.Some? && exclude.value != "" && (a == exclude.value || exclude.value + ":" <= a)
  }

  /** Left out are the agent of the given name and those whose name continues it with a colon. */
  lemma ExcludedIff(a: string, exclude: Option<string>)
    ensures Excluded(a, exclude) <==>
            && exclude.Some? && exclude.value != ""
            && var e := exclude.value;
            a == e || (|a| > |e| && a[..|e|] == e && a[|e|] == ':')
  {
    if exclude.Some? {
      var e := exclude.value;
      if |a| > |e| && a[..|e|] == e && a[|e|] == ':' {
        assert a[..|e| + 1] == e + ":";
      }
      if e + ":" <= a {
        assert a[..|e| + 1] == e + ":";
        assert a[..|e|] == a[..|e| + 1][..|e|] && a[|e|] == a[..|e| + 1][|e|];
      }
    }
  }

  /** Brute force over the per-agent lists: agent a holds, for block i of the new prompt, a
      block within the threshold. */
  ghost predicate ListedMatch(m: TokenBlockMatch, lists: map<string, seq<nat>>, hashes: seq<nat>,
                              exclude: Option<string>, hashBits: nat, threshold: int)
    requires hashBits > 0
  {
    && Lists(lists, m.cachedHash, m.agent) && !Excluded(m.agent, exclude)
    && m.blockIndex < |hashes| && m.distance == Hamming(hashes[m.blockIndex], m.cachedHash) <= threshold
    && m.confidence == 1.0 - m.distance as real / hashBits as real
  }

  /** m matches one block of a new prompt against what a store holds. */
  ghost predicate MatchIn(store: Store, m: TokenBlockMatch, index: nat, hash: nat, exclude: Option<string>,
                          hashBits: nat, threshold: int)
    requires hashBits > 0
  {
    && Owns(store, m.cachedHash, m.agent) && !Excluded(m.agent, exclude)
    && m.blockIndex == index && m.distance == Hamming(hash, m.cachedHash) <= threshold
    && m.confidence == 1.0 - m.distance as real / hashBits as real
  }

  class LSHTokenMatcher {
    const blockSize: nat
    const hashBits: nat
    const threshold: int
    var blockStore: Store
    var agentBlocks: map<string, seq<nat>>

    ghost predicate Valid() {
      blockSize > 0 && hashBits > 0
    }

    constructor (blockSize: nat, hashBits: nat, threshold: int)
      requires blockSize > 0 && hashBits > 0
      ensures Valid() && Inverse(blockStore, agentBlocks) && agentBlocks == map[]
      ensures this.blockSize == blockSize && this.hashBits == hashBits && this.threshold == threshold
    {
      this.blockSize, this.hashBits, this.threshold := blockSize, hashBits, threshold;
      blockStore, agentBlocks := map[], map[];
    }

    function PromptHashes(tokens: seq<Token>): seq<nat>
      requires Valid()
    {
      HashesOf(WholeBlocks(tokens, blockSize), hashBits)
    }

    lemma PromptHashesAre(tokens: seq<Token>)
      requires Valid()
      ensures HashesOfBlocks(PromptHashes(tokens), tokens, blockSize, hashBits)
    {
      WholeBlocksAre(tokens, blockSize);
      var blocks, hashes := WholeBlocks(tokens, blockSize), PromptHashes(tokens);
      forall i | 0 <= i < |hashes| ensures IsBlockHash(hashes[i], tokens, i, blockSize, hashBits) {
        assert IsBlock(blocks[i], tokens, i, blockSize) && hashes[i] == Fingerprint(blocks[i], TokenBit, hashBits);
      }
    }

    /** Adds the prompt's blocks under the agent and replaces its list. The store stays the
        inverse of the lists exactly when no hash of a replaced list is missing from the new
        one; a hash that is missing keeps the agent as a stale owner. */
    method IndexPrompt(agent: string, tokens: seq<Token>) returns (hashes: seq<nat>)
      requires Valid()
      modifies this
      ensures hashes == PromptHashes(tokens) && HashesOfBlocks(hashes, tokens, blockSize, hashBits)
      ensures agentBlocks == old(agentBlocks)[agent := hashes]
      ensures forall h, a :: Owns(blockStore, h, a) <==> Owns(old(blockStore), h, a) || (a == agent && h in hashes)
      ensures NoEmptyOwners(old(blockStore)) ==> NoEmptyOwners(blockStore)
      ensures old(Inverse(blockStore, agentBlocks)) ==>
                (Inverse(blockStore, agentBlocks) <==>
                 agent !in old(agentBlocks) || forall h :: h in old(agentBlocks)[agent] ==> h in hashes)
    {
      var blocks := WholeBlocks(tokens, blockSize);
      hashes := [];
      for i := 0 to |blocks|
        invariant hashes == PromptHashes(tokens)[..i]
        invariant forall h, a :: Owns(blockStore, h, a) <==> Owns(old(blockStore), h, a) || (a == agent && h in hashes)
        invariant NoEmptyOwners(old(blockStore)) ==> NoEmptyOwners(blockStore)
        invariant agentBlocks == old(agentBlocks)
      {
        var h := BlockHash(blocks[i], hashBits);
        blockStore := AddOwner(blockStore, h, agent, blocks[i]);
        hashes := hashes + [h];
      }
      PromptHashesAre(tokens);
      agentBlocks := agentBlocks[agent := hashes];
      if old(Inverse(blockStore, agentBlocks)) {
        ReindexKeepsInverse(old(blockStore), old(agentBlocks), blockStore, agent, hashes);
      }
    }

    /** The matches of one block of the new prompt. */
    ghost predicate BlockMatch(m: TokenBlockMatch, index: nat, hash: nat, exclude: Option<string>)
      requires Valid()
      reads this
    {
      MatchIn(blockStore, m, index, hash, exclude, hashBits, threshold)
    }

    /** The owners of one stored hash that are not excluded, as matches at a given distance. */
    method OwnerMatches(index: nat, h: nat, hd: nat, exclude: Option<string>) returns (found: seq<TokenBlockMatch>)
      requires Valid() && h in blockStore
      ensures Distinct(found)
      ensures forall m :: m in found <==>
                && m.agent in blockStore[h] && !Excluded(m.agent, exclude)
                && m == TokenBlockMatch(index, h, hd, 1.0 - hd as real / hashBits as real, m.agent)
    {
      found := [];
      var confidence := 1.0 - hd as real / hashBits as real;
      var owners := blockStore[h];
      var rest := owners.Keys;
      while rest != {}
        invariant rest <= owners.Keys && Distinct(found)
        invariant forall m :: m in found <==>
                    && m.agent in owners.Keys - rest && !Excluded(m.agent, exclude)
                    && m == TokenBlockMatch(index, h, hd, confidence, m.agent)
        decreases |rest|
      {
        var a :| a in rest;
        if !Excluded(a, exclude) {
          found := found + [TokenBlockMatch(index, h, hd, confidence, a)];
        }
        rest := rest - {a};
      }
    }

    method MatchesForBlock(index: nat, hash: nat, exclude: Option<string>) returns (found: seq<TokenBlockMatch>)
      requires Valid()
      ensures Distinct(found) && forall m :: m in found <==> BlockMatch(m, index, hash, exclude)
    {
      found := [];
      var rest := blockStore.Keys;
      while rest != {}
        invariant rest <= blockStore.Keys && Distinct(found)
        invariant forall m :: m in found <==> m.cachedHash !in rest && BlockMatch(m, index, hash, exclude)
        decreases |rest|
      {
        var h :| h in rest;
        var hd := Hamming(hash, h);
        if hd <= threshold {
          var more := OwnerMatches(index, h, hd, exclude);
          DistinctConcat(found, more);
          found := found + more;
        }
        rest := rest - {h};
      }
    }

    /** Exactly the matches brute force finds over the agents that are not excluded, each
        once, best first, whenever the store is the inverse of the lists. */
    method FindReusableBlocks(tokens: seq<Token>, exclude: Option<string>) returns (matches: seq<TokenBlockMatch>)
      requires Valid()
      ensures Distinct(matches)
      ensures HashesOfBlocks(PromptHashes(tokens), tokens, blockSize, hashBits)
      ensures forall i, j :: 0 <= i < j < |matches| ==> matches[i].distance <= matches[j].distance
      ensures forall m :: m in matches <==>
                && m.blockIndex < |PromptHashes(tokens)|
                && BlockMatch(m, m.blockIndex, PromptHashes(tokens)[m.blockIndex], exclude)
      ensures Inverse(blockStore, agentBlocks) ==>
                forall m :: m in matches <==>
                  ListedMatch(m, agentBlocks, PromptHashes(tokens), exclude, hashBits, threshold)
    {
      PromptHashesAre(tokens);
      var hashes := PromptHashes(tokens);
      var found: seq<TokenBlockMatch> := [];
      for i := 0 to |hashes|
        invariant Distinct(found)
        invariant forall m :: m in found <==>
                    m.blockIndex < i && BlockMatch(m, m.blockIndex, hashes[m.blockIndex], exclude)
      {
        var more := MatchesForBlock(i, hashes[i], exclude);
        DistinctConcat(found, more);
        found := found + more;
      }
      matches := SortBy(found, DistanceKey);
      SortByElements(found, DistanceKey);
      SortByIsStable(found, DistanceKey);
      DistinctPerm(found, matches);
      forall i, j | 0 <= i < j < |matches| ensures matches[i].distance <= matches[j].distance {
        assert DistanceKey(matches[i]) <= DistanceKey(matches[j]);
      }
    }

    /** Drops the agent from the owners of its listed hashes. Whether or not the store is the
        inverse of the lists, every other agent keeps exactly its matches, for every prompt and
        exclusion, and the cleared agent keeps only those of stale hashes it no longer lists. */
    method ClearAgent(agent: string) returns (count: nat)
      requires Valid()
      modifies this
      ensures agentBlocks == old(agentBlocks) - {agent}
      ensures count == if agent in old(agentBlocks) then |old(agentBlocks)[agent]| else 0
      ensures forall h, a :: Owns(blockStore, h, a) <==>
                Owns(old(blockStore), h, a) && !(a == agent && Lists(old(agentBlocks), h, agent))
      ensures NoEmptyOwners(old(blockStore)) ==> NoEmptyOwners(blockStore)
      ensures old(Inverse(blockStore, agentBlocks)) ==> Inverse(blockStore, agentBlocks)
      ensures forall m, index, hash, exclude :: BlockMatch(m, index, hash, exclude) <==>
                && MatchIn(old(blockStore), m, index, hash, exclude, hashBits, threshold)
                && (m.agent == agent ==> !Lists(old(agentBlocks), m.cachedHash, agent))
    {
      var hashes: seq<nat> := if agent in agentBlocks then agentBlocks[agent] else [];
      agentBlocks := agentBlocks - {agent};
      for i := 0 to |hashes|
        invariant agentBlocks == old(agentBlocks) - {agent}
        invariant forall h, a :: Owns(blockStore, h, a) <==>
                    Owns(old(blockStore), h, a) && !(a == agent && h in hashes[..i])
        invariant NoEmptyOwners(old(blockStore)) ==> NoEmptyOwners(blockStore)
      {
        var h := hashes[i];
        blockStore := DropOwner(blockStore, h, agent);
      }
      assert hashes[..|hashes|] == hashes;
      count := |hashes|;
    }
  }

  function DistanceKey(m: TokenBlockMatch): real { m.distance as real }

  lemma DistinctConcat<T>(a: seq<T>, b: seq<T>)
    requires Distinct(a) && Distinct(b) && forall x :: x in a ==> x !in b
    ensures Distinct(a + b)
  {
    forall i, j | 0 <= i < j < |a + b| ensures (a + b)[i] != (a + b)[j] {
      if i < |a| <= j {
        assert a[i] in a && b[j - |a|] in b;
      }
    }
  }

  /** Makes the agent an owner of h, unless it is one already. */
  function AddOwner(store: Store, h: nat, agent: string, block: seq<Token>): (after: Store)
    ensures forall k, a :: Owns(after, k, a) <==> Owns(store, k, a) || (k == h && a == agent)
    ensures NoEmptyOwners(store) ==> NoEmptyOwners(after)
    ensures forall k, a :: Owns(store, k, a) ==> Owns(after, k, a) && after[k][a] == store[k][a]
    ensures !Owns(store, h, agent) ==> Owns(after, h, agent) && after[h][agent] == block
  {
    var owners := if h in store then store[h] else map[];
    store[h := if agent in owners then owners else owners[agent := block]]
  }

  /** Takes the agent out of the owners of h, and h out of the store when it was the last. */
  function DropOwner(store: Store, h: nat, agent: string): (after: Store)
    ensures forall k, a :: Owns(after, k, a) <==> Owns(store, k, a) && !(k == h && a == agent)
    ensures NoEmptyOwners(store) ==> NoEmptyOwners(after)
  {
    if h !in store || store[h] == map[] then store
    else
      var owners := store[h] - {agent};
      assert forall a :: a in owners <==> a in store[h] && a != agent;
      if owners == map[] then store - {h} else store[h := owners]
  }

  lemma ReindexKeepsInverse(store: Store, lists: map<string, seq<nat>>, after: Store, agent: string, hashes: seq<nat>)
    requires Inverse(store, lists) && NoEmptyOwners(after)
    requires forall h, a :: Owns(after, h, a) <==> Owns(store, h, a) || (a == agent && h in hashes)
    ensures Inverse(after, lists[agent := hashes]) <==>
            agent !in lists || forall h :: h in lists[agent] ==> h in hashes
  {
    var now := lists[agent := hashes];
    if agent in lists {
      forall h | h in lists[agent] && h !in hashes ensures !Inverse(after, now) {
        assert Lists(lists, h, agent) && Owns(store, h, agent);
        assert Owns(after, h, agent) && !Lists(now, h, agent);
      }
    }
  }
}
