/** Rounding to the nearest integer with ties to even (roundTiesToEven, section 4.3.1 of
    IEEE 754-2019), on exact reals. */
module Rounding {

  function Rint(x: real): (n: int) {
    var below := x.Floor;
    var rest := x - below as real;
    if rest < 0.5 then below
    else if rest > 0.5 then below + 1
    else if below % 2 == 0 then below else below + 1
  }

  /** Being nearest, and even when two integers are equally near. */
  ghost predicate IsNearestEven(x: real, n: int) {
    && -0.5 <= x - n as real <= 0.5
    && (x - n as real == 0.5 || x - n as real == -0.5 ==> n % 2 == 0)
  }

  /** Rint is the one integer that is nearest with ties to even. */
  lemma RintIsNearestEven(x: real, n: int)
    ensures n == Rint(x) <==> IsNearestEven(x, n)
  {
    var below := x.Floor;
    var k := n - below;
    if IsNearestEven(x, n) {
      assert k as real == n as real - below as real;
      assert -0.5 <= k as real <= 1.5;
      assert k == 0 || k == 1;
    }
  }
}
