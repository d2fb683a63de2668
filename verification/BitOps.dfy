/** Bitwise operations on non-negative integers, least significant bit first. */
module BitOps {
  import opened Arithmetic

  function Pow2(k: nat): nat {
    if k == 0 then 1 else 2 * Pow2(k - 1)
  }

  /** a & b */
  function BitAnd(a: nat, b: nat): nat {
    if a == 0 || b == 0 then 0
    else (if a % 2 == 1 && b % 2 == 1 then 1 else 0) + 2 * BitAnd(a / 2, b / 2)
  }

  /** a | b */
  function BitOr(a: nat, b: nat): nat {
    if a == 0 && b == 0 then 0
    else (if a % 2 == 1 || b % 2 == 1 then 1 else 0) + 2 * BitOr(a / 2, b / 2)
  }

  /** v << k */
  function Shifted(v: nat, k: nat): nat {
    if k == 0 then v else 2 * Shifted(v, k - 1)
  }

  /** v >> k */
  function ShiftedRight(v: nat, k: nat): nat {
    if k == 0 then v else ShiftedRight(v / 2, k - 1)
  }

  lemma {:induction false} ShiftOnce(v: nat, k: nat)
    ensures Shifted(v, k + 1) == 2 * Shifted(v, k)
  {
  }

  lemma {:induction false} ShiftedIsProduct(v: nat, k: nat)
    ensures Shifted(v, k) == v * Pow2(k)
  {
    if k > 0 {
      ShiftedIsProduct(v, k - 1);
    }
  }

  lemma {:induction false} ShiftedRightIsQuotient(v: nat, k: nat)
    ensures Pow2(k) > 0 && ShiftedRight(v, k) == v / Pow2(k)
  {
    if k > 0 {
      ShiftedRightIsQuotient(v / 2, k - 1);
      HalveDivision(v, Pow2(k - 1));
    }
  }

  lemma HalveDivision(v: nat, p: nat)
    requires p > 0
    ensures v / (2 * p) == v / 2 / p && v % (2 * p) == v % 2 + 2 * (v / 2 % p)
  {
    var q, r := v / 2 / p, v / 2 % p;
    assert v == (2 * p) * q + (2 * r + v % 2);
    DivisionIs(v, 2 * p, q, 2 * r + v % 2);
  }

  lemma {:induction false} BitAndSelf(a: nat)
    ensures BitAnd(a, a) == a
  {
    if a > 0 {
      BitAndSelf(a / 2);
    }
  }

  /** The mask of k ones keeps the remainder by 2^k. */
  lemma {:induction false} LowBits(v: nat, k: nat)
    ensures Pow2(k) > 0 && BitAnd(v, Pow2(k) - 1) == v % Pow2(k)
  {
    if k > 0 {
      LowBits(v / 2, k - 1);
      var p := Pow2(k - 1);
      assert (2 * p - 1) / 2 == p - 1;
      HalveDivision(v, p);
    }
  }

  lemma {:induction false} OrZero(b: nat)
    ensures BitOr(0, b) == b
  {
    if b > 0 {
      OrZero(b / 2);
    }
  }

  /** Below bit k, and from bit k up: the union of the two is their sum. */
  lemma {:induction false} UnionIsSum(a: nat, b: nat, k: nat)
    requires a < Pow2(k)
    ensures BitOr(a, Shifted(b, k)) == a + Shifted(b, k)
  {
    if k == 0 {
      OrZero(b);
    } else {
      UnionIsSum(a / 2, b, k - 1);
    }
  }

  /** Bit k of a number. */
  function Bit(v: nat, k: nat): nat {
    ShiftedRight(v, k) % 2
  }

  lemma BitAbove(v: nat, k: nat)
    requires k > 0
    ensures Bit(v, k) == Bit(v / 2, k - 1)
  {
  }

  /** And and or, bit by bit. */
  lemma {:induction false} BitwiseAt(a: nat, b: nat, k: nat)
    ensures Bit(BitAnd(a, b), k) == 1 <==> Bit(a, k) == 1 && Bit(b, k) == 1
    ensures Bit(BitOr(a, b), k) == 1 <==> Bit(a, k) == 1 || Bit(b, k) == 1
  {
    if a == 0 || b == 0 {
      ZeroBits(k);
    }
    if k > 0 {
      BitwiseAt(a / 2, b / 2, k - 1);
    }
  }

  lemma {:induction false} ZeroBits(k: nat)
    ensures Bit(0, k) == 0
  {
    if k > 0 {
      ZeroBits(k - 1);
    }
  }

  /** bit_count() */
  function BitCount(v: nat): nat {
    if v == 0 then 0 else v % 2 + BitCount(v / 2)
  }
}
