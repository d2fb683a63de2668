/** Bit k (k below 32) of what a token id is mixed into, shared by all three SimHash loops.
    Token ids fit in 32 bits. */
module TokenMixing {

  type Token = bv32

  function Middle(h: bv64): bv64 {
    var a := h ^ (h << 13);
    a ^ (a >> 7)
  }

  /** One round of mixing, on 64-bit words. */
  function MixRound(h: bv64): bv64 {
    var b := Middle(h);
    (b ^ (b << 17)) & 0xFFFF_FFFF
  }

  /** Neither left shift of a round pushes a bit out of the 64-bit word, as none is lost from
      the unbounded integers of the original, and the mixed value again fits in 32 bits. */
  lemma MixRoundFits(h: bv64)
    requires h < 0x1_0000_0000
    ensures (h << 13) >> 13 == h && (Middle(h) << 17) >> 17 == Middle(h)
    ensures MixRound(h) < 0x1_0000_0000
  {
  }

  function Mix(t: Token): bv64 {
    MixRound(MixRound(MixRound(MixRound(t as bv64))))
  }

  /** The four rounds on the smallest and the largest token ids, worked out by hand. */
  lemma MixedValues()
    ensures Mix(0) == 0 && Mix(1) == 0x7458025 && Mix(0xFFFF_FFFF) == 0x6AFD700B
  {
  }

  function TokenBit(t: Token, k: nat): bool {
    k < 32 && (Mix(t) >> k) & 1 == 1
  }
}

/** The SimHash fingerprints of token sequences: the per-bit voting loops of
    apohara_context_forge/dedup/lsh_engine.py and kv_offset/anchor_pool.py, and the vectorised
    form of embeddings/embedding_engine.py, over any reading of bits from tokens. Vote counts
    are exact. */
module SimHash {
  import opened Arithmetic
  import opened BitOps

  /** How many tokens have bit k of their mixed value set. */
  function Ones<T>(tokens: seq<T>, bit: (T, nat) -> bool, k: nat): nat {
    if tokens == [] then 0
    else Ones(tokens[..|tokens| - 1], bit, k) + if bit(tokens[|tokens| - 1], k) then 1 else 0
  }

  /** Whether the tokens with the bit outnumber those without. */
  predicate Majority<T>(tokens: seq<T>, bit: (T, nat) -> bool, i: nat) {
    2 * Ones(tokens, bit, i % 32) > |tokens|
  }

  function Bits<T>(tokens: seq<T>, bit: (T, nat) -> bool, n: nat): (bits: seq<bool>)
    ensures |bits| == n && forall i :: 0 <= i < n ==> bits[i] == Majority(tokens, bit, i)
  {
    seq(n, i requires 0 <= i < n => Majority(tokens, bit, i))
  }

  // ----- packing

  /** The integer whose bit i is bits[i]. */
  function Pack(bits: seq<bool>): nat {
    if bits == [] then 0 else (if bits[0] then 1 else 0) + 2 * Pack(bits[1..])
  }

  /** The majority bits, packed from bit 0 up. */
  function Fingerprint<T>(tokens: seq<T>, bit: (T, nat) -> bool, n: nat): nat {
    Pack(Bits(tokens, bit, n))
  }

  lemma {:induction false} PackConcat(a: seq<bool>, b: seq<bool>)
    ensures Pack(a + b) == Pack(a) + Shifted(Pack(b), |a|)
    ensures Pack(a) < Pow2(|a|)
  {
    if a == [] {
      assert a + b == b;
    } else {
      assert (a + b)[1..] == a[1..] + b;
      PackConcat(a[1..], b);
      ShiftOnce(Pack(b), |a| - 1);
    }
  }

  // ----- the voting loops

  /** _simhash_block with hash_bits = n, and _simhash_token_ids with n = 64. */
  method VotingSimhash<T>(tokens: seq<T>, bit: (T, nat) -> bool, n: nat) returns (result: nat)
    ensures result == Fingerprint(tokens, bit, n)
  {
    var v := new int[n](_ => 0);
    for t := 0 to |tokens|
      invariant forall i :: 0 <= i < n ==> v[i] == 2 * Ones(tokens[..t], bit, i % 32) - t
    {
      assert tokens[..t + 1][..t] == tokens[..t];
      for i := 0 to n
        invariant forall j :: 0 <= j < i ==> v[j] == 2 * Ones(tokens[..t + 1], bit, j % 32) - (t + 1)
        invariant forall j :: i <= j < n ==> v[j] == 2 * Ones(tokens[..t], bit, j % 32) - t
      {
        if bit(tokens[t], i % 32) {
          v[i] := v[i] + 1;
        } else {
          v[i] := v[i] - 1;
        }
      }
    }
    assert tokens[..|tokens|] == tokens;
    var binarized := seq(n, i requires 0 <= i < n reads v => v[i] > 0);
    assert binarized == Bits(tokens, bit, n);
    result := UnionBits(binarized);
  }

  /** result |= int(b) << i, over all bits. */
  method UnionBits(bits: seq<bool>) returns (result: nat)
    ensures result == Pack(bits)
  {
    result := 0;
    for i := 0 to |bits|
      invariant result == Pack(bits[..i]) < Pow2(i)
    {
      PackConcat(bits[..i], [bits[i]]);
      assert bits[..i + 1] == bits[..i] + [bits[i]];
      PackConcat(bits[..i + 1], []);
      var b := if bits[i] then 1 else 0;
      UnionIsSum(result, b, i);
      result := BitOr(result, Shifted(b, i));
    }
    assert bits[..|bits|] == bits;
  }

  // ----- what a fingerprint is

  lemma {:induction false} OnesCount<T>(tokens: seq<T>, bit: (T, nat) -> bool, k: nat)
    ensures Ones(tokens, bit, k) == |set j | 0 <= j < |tokens| && bit(tokens[j], k)|
  {
    if tokens != [] {
      var n := |tokens| - 1;
      OnesCount(tokens[..n], bit, k);
      var voters := set j | 0 <= j < n && bit(tokens[..n][j], k);
      assert (set j | 0 <= j < |tokens| && bit(tokens[j], k)) == voters + if bit(tokens[n], k) then {n} else {};
    }
  }

  lemma {:induction false} PackBit(bits: seq<bool>, i: nat)
    requires i < |bits|
    ensures Bit(Pack(bits), i) == 1 <==> bits[i]
  {
    FirstBit(bits);
    if i > 0 {
      PackBit(bits[1..], i - 1);
      BitAbove(Pack(bits), i);
    }
  }

  lemma FirstBit(bits: seq<bool>)
    requires bits != []
    ensures Bit(Pack(bits), 0) == (if bits[0] then 1 else 0) && Pack(bits) / 2 == Pack(bits[1..])
  {
  }

  /** Bit i of the n bits is set exactly when more than half of the tokens have bit i mod 32. */
  lemma FingerprintBits<T>(tokens: seq<T>, bit: (T, nat) -> bool, n: nat, i: nat)
    requires i < n
    ensures Fingerprint(tokens, bit, n) < Pow2(n)
    ensures Bit(Fingerprint(tokens, bit, n), i) == 1 <==>
            2 * |set j | 0 <= j < |tokens| && bit(tokens[j], i % 32)| > |tokens|
  {
    OnesCount(tokens, bit, i % 32);
    PackBit(Bits(tokens, bit, n), i);
    PackConcat(Bits(tokens, bit, n), []);
  }

  // ----- the vectorised form

  function PackByte(bits: seq<bool>): nat
    requires |bits| == 8
  {
    Pack(bits)
  }

  /** np.packbits with bitorder "little" */
  function PackBits(bits: seq<bool>): seq<nat>
    requires |bits| % 8 == 0
  {
    if bits == [] then [] else [PackByte(bits[..8])] + PackBits(bits[8..])
  }

  /** int.from_bytes with byteorder "little" */
  function FromBytes(bytes: seq<nat>): nat {
    if bytes == [] then 0 else bytes[0] + 256 * FromBytes(bytes[1..])
  }

  lemma {:induction false} BytesArePack(bits: seq<bool>)
    requires |bits| % 8 == 0
    ensures FromBytes(PackBits(bits)) == Pack(bits)
  {
    if bits != [] {
      BytesArePack(bits[8..]);
      assert bits == bits[..8] + bits[8..];
      PackConcat(bits[..8], bits[8..]);
      ShiftedIsProduct(Pack(bits[8..]), 8);
      assert Pow2(8) == 256;
      assert PackBits(bits)[1..] == PackBits(bits[8..]);
    }
  }

  /** _simhash_impl: the column sums of 32 bits, the half doubled and packed into bytes. */
  method VectorSimhash<T>(tokens: seq<T>, bit: (T, nat) -> bool) returns (result: nat)
    ensures result == Fingerprint(tokens, bit, 64)
  {
    if tokens == [] {
      NothingVotes(tokens, bit);
      return 0;
    }
    var n := |tokens|;
    var bits32 := seq(32, k requires 0 <= k < 32 => 2 * Ones(tokens, bit, k) - n > 0);
    var bits64 := bits32 + bits32;
    DoubledBits(tokens, bit);
    assert bits32 == Bits(tokens, bit, 32);
    BytesArePack(bits64);
    result := FromBytes(PackBits(bits64));
  }

  /** The upper half of the bits repeats the lower. */
  lemma DoubledBits<T>(tokens: seq<T>, bit: (T, nat) -> bool)
    ensures Bits(tokens, bit, 64) == Bits(tokens, bit, 32) + Bits(tokens, bit, 32)
  {
    var half := Bits(tokens, bit, 32);
    forall i | 0 <= i < 64 ensures Bits(tokens, bit, 64)[i] == (half + half)[i] {
      assert i >= 32 ==> i % 32 == (i - 32) % 32;
    }
  }

  lemma {:induction false} AllFalse(bits: seq<bool>)
    requires forall i :: 0 <= i < |bits| ==> !bits[i]
    ensures Pack(bits) == 0
  {
    if bits != [] {
      AllFalse(bits[1..]);
    }
  }

  lemma NothingVotes<T>(tokens: seq<T>, bit: (T, nat) -> bool)
    requires tokens == []
    ensures Fingerprint(tokens, bit, 64) == 0
  {
    AllFalse(Bits(tokens, bit, 64));
  }

  // ----- properties of fingerprints

  lemma {:induction false} OnesRemove<T>(tokens: seq<T>, bit: (T, nat) -> bool, i: nat, k: nat)
    requires i < |tokens|
    ensures Ones(tokens, bit, k) == Ones(tokens[..i] + tokens[i + 1..], bit, k) + if bit(tokens[i], k) then 1 else 0
  {
    var n := |tokens| - 1;
    if i == n {
      assert tokens[..i] + tokens[i + 1..] == tokens[..n];
    } else {
      OnesRemove(tokens[..n], bit, i, k);
      var rest := tokens[..i] + tokens[i + 1..];
      assert rest[..n - 1] == tokens[..n][..i] + tokens[..n][i + 1..];
    }
  }

  lemma {:induction false} OnesPermuted<T>(a: seq<T>, b: seq<T>, bit: (T, nat) -> bool, k: nat)
    requires multiset(a) == multiset(b)
    ensures Ones(a, bit, k) == Ones(b, bit, k) && |a| == |b|
  {
    if a == [] {
      assert |multiset(b)| == 0;
    } else {
      var n := |a| - 1;
      assert a == a[..n] + [a[n]];
      assert a[n] in multiset(b);
      var i :| 0 <= i < |b| && b[i] == a[n];
      var rest := b[..i] + b[i + 1..];
      RemoveOne(b, i);
      assert multiset(a[..n]) == multiset(a) - multiset{a[n]};
      OnesPermuted(a[..n], rest, bit, k);
      OnesRemove(b, bit, i, k);
    }
  }

  lemma RemoveOne<T>(b: seq<T>, i: nat)
    requires i < |b|
    ensures multiset(b[..i] + b[i + 1..]) == multiset(b) - multiset{b[i]}
  {
    assert b == b[..i] + [b[i]] + b[i + 1..];
  }

  /** A fingerprint does not depend on the order of the tokens. */
  lemma OrderIsIrrelevant<T>(a: seq<T>, b: seq<T>, bit: (T, nat) -> bool, n: nat)
    requires multiset(a) == multiset(b)
    ensures Fingerprint(a, bit, n) == Fingerprint(b, bit, n)
  {
    forall i | 0 <= i < n ensures Bits(a, bit, n)[i] == Bits(b, bit, n)[i] {
      OnesPermuted(a, b, bit, i % 32);
    }
    assert Bits(a, bit, n) == Bits(b, bit, n);
  }

  /** The high and the low 32-bit half of a 64-bit fingerprint are always equal. */
  lemma HalvesAgree<T>(tokens: seq<T>, bit: (T, nat) -> bool)
    ensures var f := Fingerprint(tokens, bit, 64);
            f / 0x1_0000_0000 == f % 0x1_0000_0000 == Fingerprint(tokens, bit, 32)
  {
    DoubledBits(tokens, bit);
    DoubledHalves(Bits(tokens, bit, 32));
  }

  lemma DoubledHalves(half: seq<bool>)
    requires |half| == 32
    ensures var f := Pack(half + half);
            f / 0x1_0000_0000 == f % 0x1_0000_0000 == Pack(half)
  {
    PackConcat(half, half);
    ShiftedIsProduct(Pack(half), 32);
    Pow32();
    DivisionIs(Pack(half + half), 0x1_0000_0000, Pack(half), Pack(half));
  }

  lemma Pow32()
    ensures Pow2(32) == 0x1_0000_0000
  {
    assert Pow2(8) == 256;
    assert Pow2(16) == 256 * 256;
    assert Pow2(24) == 256 * 256 * 256;
  }

  /** (a ^ b).bit_count() */
  function Hamming(a: nat, b: nat): nat {
    if a == 0 && b == 0 then 0
    else (if a % 2 != b % 2 then 1 else 0) + Hamming(a / 2, b / 2)
  }

  ghost function Differing(a: nat, b: nat, n: nat): set<nat> {
    set k: nat | k < n && Bit(a, k) != Bit(b, k)
  }

  /** It counts the positions at which the bits differ. */
  lemma {:induction false} HammingCounts(a: nat, b: nat, n: nat)
    requires a < Pow2(n) && b < Pow2(n)
    ensures Hamming(a, b) == |Differing(a, b, n)|
  {
    if n > 0 {
      HammingCounts(a / 2, b / 2, n - 1);
      var upper := Differing(a / 2, b / 2, n - 1);
      DifferingIs(a, b, n);
      UpSize(upper);
      UpHas(upper, 0);
      if a % 2 != b % 2 {
        assert |Up(upper) + {0}| == |Up(upper)| + 1;
      }
    }
  }

  lemma DifferingIs(a: nat, b: nat, n: nat)
    requires n > 0
    ensures Differing(a, b, n) == Up(Differing(a / 2, b / 2, n - 1)) + (if a % 2 != b % 2 then {0} else {})
  {
    var upper, all := Differing(a / 2, b / 2, n - 1), Differing(a, b, n);
    forall k: nat ensures k in all <==> k in Up(upper) + (if a % 2 != b % 2 then {0} else {}) {
      if k > 0 {
        UpHas(upper, k - 1);
      } else {
        UpHas(upper, 0);
      }
    }
  }

  ghost function Up(s: set<nat>): set<nat> {
    set k | k in s :: k + 1
  }

  lemma {:induction false} UpHas(s: set<nat>, k: nat)
    ensures k + 1 in Up(s) <==> k in s
    ensures 0 !in Up(s)
  {
  }

  lemma {:induction false} UpSize(s: set<nat>)
    ensures |Up(s)| == |s|
    decreases |s|
  {
    if s != {} {
      var k :| k in s;
      UpSize(s - {k});
      forall j: nat ensures j in Up(s) <==> j in Up(s - {k}) + {k + 1} {
        if j > 0 {
          UpHas(s, j - 1);
          UpHas(s - {k}, j - 1);
        }
      }
      UpHas(s - {k}, k);
      assert Up(s) == Up(s - {k}) + {k + 1};
    }
  }

  ghost function Mismatches(x: seq<bool>, y: seq<bool>): nat
    requires |x| == |y|
  {
    if x == [] then 0 else (if x[0] != y[0] then 1 else 0) + Mismatches(x[1..], y[1..])
  }

  lemma {:induction false} HammingIsMismatches(x: seq<bool>, y: seq<bool>)
    requires |x| == |y|
    ensures Hamming(Pack(x), Pack(y)) == Mismatches(x, y)
  {
    if x != [] {
      HammingIsMismatches(x[1..], y[1..]);
      assert Pack(x) / 2 == Pack(x[1..]) && Pack(y) / 2 == Pack(y[1..]);
    }
  }

  lemma {:induction false} MismatchesConcat(a: seq<bool>, b: seq<bool>, c: seq<bool>, d: seq<bool>)
    requires |a| == |b| && |c| == |d|
    ensures Mismatches(a + c, b + d) == Mismatches(a, b) + Mismatches(c, d)
  {
    if a == [] {
      assert a + c == c && b + d == d;
    } else {
      assert (a + c)[1..] == a[1..] + c && (b + d)[1..] == b[1..] + d;
      MismatchesConcat(a[1..], b[1..], c, d);
    }
  }

  /** Every distance between two 64-bit fingerprints is even: twice that of their halves. */
  lemma DistanceIsEven<T>(a: seq<T>, b: seq<T>, bit: (T, nat) -> bool)
    ensures Hamming(Fingerprint(a, bit, 64), Fingerprint(b, bit, 64)) ==
            2 * Hamming(Fingerprint(a, bit, 32), Fingerprint(b, bit, 32))
  {
    DoubledBits(a, bit);
    DoubledBits(b, bit);
    DoubledDistance(Bits(a, bit, 32), Bits(b, bit, 32));
  }

  lemma DoubledDistance(x: seq<bool>, y: seq<bool>)
    requires |x| == |y|
    ensures Hamming(Pack(x + x), Pack(y + y)) == 2 * Hamming(Pack(x), Pack(y))
  {
    HammingIsMismatches(x + x, y + y);
    HammingIsMismatches(x, y);
    MismatchesConcat(x, y, x, y);
  }
}
