/** Facts about division, and the share of its entries that a full pool gives up. */
module Arithmetic {

  lemma MulAtLeast(g: int, j: int)
    requires g > 0
    ensures j >= 1 ==> g * j >= g
    ensures j <= -1 ==> g * j <= -g
  {
  }

  lemma DivisionIs(v: int, m: int, q: int, r: int)
    requires v == m * q + r && 0 <= r < m
    ensures v / m == q && v % m == r
  {
    var k := v / m - q;
    assert m * k == r - v % m;
    MulAtLeast(m, k);
  }

  /** n copies of c added up. */
  function Copies(n: nat, c: nat): nat {
    if n == 0 then 0 else Copies(n - 1, c) + c
  }

  lemma {:induction false} CopiesIsProduct(n: nat, c: nat)
    ensures Copies(n, c) == n * c
  {
    if n > 0 {
      CopiesIsProduct(n - 1, c);
    }
  }

  /** max(1, int(n * 0.25)) */
  function Quarter(n: nat): nat {
    if n / 4 >= 1 then n / 4 else 1
  }

  /** It is the quarter rounded down from eight entries on, and one below. */
  predicate IsQuarter(amount: int, n: nat) {
    if n < 8 then amount == 1 else 4 * amount <= n < 4 * amount + 4
  }

  lemma QuarterIs(n: nat)
    ensures IsQuarter(Quarter(n), n)
  {
  }
}
