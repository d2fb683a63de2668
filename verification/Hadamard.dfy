/** The Walsh-Hadamard transform as a mathematical object: the recursively defined
    matrix H_d, the product of that matrix with a vector, and the divide-and-conquer
    form of the product that the butterfly loops compute. Vectors are over exact reals. */
module Hadamard {
  import opened Vectors
  import opened BitOps

  ghost predicate IsPow2(n: int) {
    n == 1 || (n > 1 && n % 2 == 0 && IsPow2(n / 2))
  }

  /** Where H_d holds -1: H_1 = [[1]], and H_2n is four copies of H_n with the lower
      right one negated. */
  ghost predicate Negative(d: nat, i: nat, j: nat)
    requires IsPow2(d) && i < d && j < d
  {
    d > 1 &&
    var n := d / 2;
    Negative(n, if i < n then i else i - n, if j < n then j else j - n) != (i >= n && j >= n)
  }

  /** Entry (i, j) of H_d. */
  ghost function Entry(d: nat, i: nat, j: nat): real
    requires IsPow2(d) && i < d && j < d
  {
    if Negative(d, i, j) then -1.0 else 1.0
  }

  ghost function Signed(negative: bool, u: real): real {
    if negative then -u else u
  }

  /** The first k terms of row i of H_d times x, each an entry of x under its sign. */
  ghost function RowTimes(d: nat, i: nat, x: seq<real>, k: nat): (sum: real)
    requires IsPow2(d) && i < d == |x| && k <= d
  {
    if k == 0 then 0.0 else RowTimes(d, i, x, k - 1) + Signed(Negative(d, i, k - 1), x[k - 1])
  }

  /** The matrix-vector product H_d x. */
  ghost function MatVec(x: seq<real>): (y: seq<real>)
    requires IsPow2(|x|)
  {
    seq(|x|, i requires 0 <= i < |x| => RowTimes(|x|, i, x, |x|))
  }

  /** v times d for a power of two d, by repeated doubling. */
  ghost function Times(d: int, v: real): real {
    if d <= 1 then v else Times(d / 2, v) + Times(d / 2, v)
  }

  ghost function Scale(d: int, a: seq<real>): (c: seq<real>)
    ensures |c| == |a| && forall i :: 0 <= i < |a| ==> c[i] == Times(d, a[i])
  {
    seq(|a|, i requires 0 <= i < |a| => Times(d, a[i]))
  }

  /** The divide-and-conquer form of H_d x. */
  ghost function Transform(x: seq<real>): (y: seq<real>)
    requires IsPow2(|x|)
    ensures |y| == |x|
  {
    if |x| == 1 then x else
      var n := |x| / 2;
      var lo, hi := Transform(x[..n]), Transform(x[n..]);
      Add(lo, hi) + Sub(lo, hi)
  }

  // ----- the recursive form is the matrix product

  lemma EntryQuadrant(n: nat, i: nat, j: nat)
    requires IsPow2(n) && i < 2 * n && j < 2 * n
    ensures IsPow2(2 * n)
    ensures var e := Negative(n, if i < n then i else i - n, if j < n then j else j - n);
            Negative(2 * n, i, j) == (e != (i >= n && j >= n))
  {
    assert 2 * n / 2 == n;
  }

  /** Row i of H_2n reads the left half of x through row i mod n of H_n. */
  lemma {:induction false} RowLeft(n: nat, i: nat, x: seq<real>, k: nat)
    requires IsPow2(n) && IsPow2(2 * n) && i < 2 * n == |x| && k <= n
    ensures RowTimes(2 * n, i, x, k) == RowTimes(n, if i < n then i else i - n, x[..n], k)
  {
    if k > 0 {
      RowLeft(n, i, x, k - 1);
      EntryQuadrant(n, i, k - 1);
      assert x[..n][k - 1] == x[k - 1];
    }
  }

  /** ... and the right half through the same row, negated in the lower half of H_2n. */
  lemma {:induction false} RowRight(n: nat, i: nat, x: seq<real>, m: nat)
    requires IsPow2(n) && IsPow2(2 * n) && i < 2 * n == |x| && m <= n
    ensures var r := if i < n then i else i - n;
            RowTimes(2 * n, i, x, n + m) ==
            RowTimes(n, r, x[..n], n) + (if i < n then RowTimes(n, r, x[n..], m) else -RowTimes(n, r, x[n..], m))
  {
    if m == 0 {
      RowLeft(n, i, x, n);
    } else {
      RowRight(n, i, x, m - 1);
      EntryQuadrant(n, i, n + m - 1);
      assert x[n..][m - 1] == x[n + m - 1];
    }
  }

  lemma MatVecHalves(n: nat, x: seq<real>)
    requires IsPow2(n) && IsPow2(2 * n) && |x| == 2 * n
    ensures MatVec(x) == Add(MatVec(x[..n]), MatVec(x[n..])) + Sub(MatVec(x[..n]), MatVec(x[n..]))
  {
    var a, b := MatVec(x[..n]), MatVec(x[n..]);
    forall i | 0 <= i < 2 * n ensures MatVec(x)[i] == (Add(a, b) + Sub(a, b))[i] {
      RowRight(n, i, x, n);
    }
  }

  /** The butterfly recursion computes exactly the product with the recursive matrix. */
  lemma {:induction false} TransformIsMatVec(x: seq<real>)
    requires IsPow2(|x|)
    ensures Transform(x) == MatVec(x)
  {
    if |x| == 1 {
      assert RowTimes(1, 0, x, 1) == RowTimes(1, 0, x, 0) + x[0];
    } else {
      var n := |x| / 2;
      TransformIsMatVec(x[..n]);
      TransformIsMatVec(x[n..]);
      MatVecHalves(n, x);
    }
  }

  // ----- the signs in closed form

  /** Row i and column j of H_d meet in -1 exactly when i and j have an odd number of bits in
      common. */
  lemma {:induction false} SignIsParity(d: nat, i: nat, j: nat)
    requires IsPow2(d) && i < d && j < d
    ensures Negative(d, i, j) <==> BitCount(BitAnd(i, j)) % 2 == 1
  {
    if d > 1 {
      var n := d / 2;
      var i', j' := if i < n then i else i - n, if j < n then j else j - n;
      SignIsParity(n, i', j');
      CommonBits(n, i, j);
      assert Negative(d, i, j) <==> Negative(n, i', j') != (i >= n && j >= n);
    }
  }

  /** The top bit in common adds one to the count. */
  lemma CommonBits(n: nat, i: nat, j: nat)
    requires IsPow2(n) && i < 2 * n && j < 2 * n
    ensures var i', j' := if i < n then i else i - n, if j < n then j else j - n;
            BitCount(BitAnd(i, j)) == BitCount(BitAnd(i', j')) + if i >= n && j >= n then 1 else 0
  {
    var i', j' := if i < n then i else i - n, if j < n then j else j - n;
    AndOfHalves(n, i, j);
    AndAtMost(i', j');
    if i >= n && j >= n {
      CountOfHalves(n, BitAnd(i', j'));
    }
  }

  lemma {:induction false} AndOfHalves(n: nat, i: nat, j: nat)
    requires IsPow2(n) && i < 2 * n && j < 2 * n
    ensures var i', j' := if i < n then i else i - n, if j < n then j else j - n;
            BitAnd(i, j) == BitAnd(i', j') + if i >= n && j >= n then n else 0
  {
    if n > 1 {
      AndOfHalves(n / 2, i / 2, j / 2);
      HalfOfRest(n, i);
      HalfOfRest(n, j);
    } else {
      assert BitAnd(1, 1) == 1 + 2 * BitAnd(0, 0);
    }
  }

  lemma HalfOfRest(n: nat, i: nat)
    requires n > 1 && n % 2 == 0 && i < 2 * n
    ensures i / 2 < n / 2 <==> i < n
    ensures i >= n ==> (i - n) / 2 == i / 2 - n / 2 && (i - n) % 2 == i % 2
  {
  }

  lemma {:induction false} AndAtMost(a: nat, b: nat)
    ensures BitAnd(a, b) <= a
  {
    if a > 0 && b > 0 {
      AndAtMost(a / 2, b / 2);
    }
  }

  lemma {:induction false} CountOfHalves(n: nat, v: nat)
    requires IsPow2(n) && v < n
    ensures BitCount(v + n) == BitCount(v) + 1
  {
    if n > 1 {
      CountOfHalves(n / 2, v / 2);
      assert (v + n) / 2 == v / 2 + n / 2 && (v + n) % 2 == v % 2;
    } else {
      assert BitCount(1) == 1 + BitCount(0);
    }
  }

  // ----- linearity, self-inverse, energy

  lemma RegroupSums(a: seq<real>, b: seq<real>, c: seq<real>, d: seq<real>)
    requires |a| == |b| == |c| == |d|
    ensures Add(Add(a, c), Add(b, d)) + Sub(Add(a, c), Add(b, d)) ==
            Add(Add(a, b) + Sub(a, b), Add(c, d) + Sub(c, d))
  {
  }

  lemma RegroupDifferences(a: seq<real>, b: seq<real>, c: seq<real>, d: seq<real>)
    requires |a| == |b| == |c| == |d|
    ensures Add(Sub(a, c), Sub(b, d)) + Sub(Sub(a, c), Sub(b, d)) ==
            Sub(Add(a, b) + Sub(a, b), Add(c, d) + Sub(c, d))
  {
  }

  lemma {:induction false} TransformAdd(a: seq<real>, b: seq<real>)
    requires |a| == |b| && IsPow2(|a|)
    ensures Transform(Add(a, b)) == Add(Transform(a), Transform(b))
  {
    if |a| != 1 {
      var n := |a| / 2;
      assert Add(a, b)[..n] == Add(a[..n], b[..n]);
      assert Add(a, b)[n..] == Add(a[n..], b[n..]);
      TransformAdd(a[..n], b[..n]);
      TransformAdd(a[n..], b[n..]);
      RegroupSums(Transform(a[..n]), Transform(a[n..]), Transform(b[..n]), Transform(b[n..]));
    }
  }

  lemma {:induction false} TransformSub(a: seq<real>, b: seq<real>)
    requires |a| == |b| && IsPow2(|a|)
    ensures Transform(Sub(a, b)) == Sub(Transform(a), Transform(b))
  {
    if |a| != 1 {
      var n := |a| / 2;
      assert Sub(a, b)[..n] == Sub(a[..n], b[..n]);
      assert Sub(a, b)[n..] == Sub(a[n..], b[n..]);
      TransformSub(a[..n], b[..n]);
      TransformSub(a[n..], b[n..]);
      RegroupDifferences(Transform(a[..n]), Transform(a[n..]), Transform(b[..n]), Transform(b[n..]));
    }
  }

  lemma {:induction false} TimesIsProduct(d: nat, v: real)
    requires IsPow2(d)
    ensures Times(d, v) == d as real * v
  {
    if d > 1 {
      TimesIsProduct(d / 2, v);
      var h := (d / 2) as real;
      assert d as real == 2.0 * h;
    }
  }

  lemma {:induction false} TimesAdds(d: int, u: real, v: real)
    ensures Times(d, u + v) == Times(d, u) + Times(d, v)
    ensures Times(d, u - v) == Times(d, u) - Times(d, v)
  {
    if d > 1 {
      TimesAdds(d / 2, u, v);
    }
  }

  lemma SumAndDifference(n: nat, u: seq<real>, v: seq<real>)
    requires |u| == |v| && n > 0
    ensures Add(Add(Scale(n, u), Scale(n, v)), Sub(Scale(n, u), Scale(n, v))) +
            Sub(Add(Scale(n, u), Scale(n, v)), Sub(Scale(n, u), Scale(n, v))) == Scale(2 * n, u + v)
  {
    assert 2 * n / 2 == n;
    var w := u + v;
    assert forall i :: 0 <= i < |u| ==> w[i] == u[i] && w[|u| + i] == v[i];
  }

  lemma TransformConcat(a: seq<real>, b: seq<real>)
    requires |a| == |b| && IsPow2(|a|) && IsPow2(2 * |a|)
    ensures Transform(a + b) ==
            Add(Transform(a), Transform(b)) + Sub(Transform(a), Transform(b))
  {
    assert (a + b)[..|a|] == a && (a + b)[|a|..] == b;
  }

  lemma TwiceHalves(a: seq<real>, b: seq<real>)
    requires |a| == |b| && IsPow2(|a|) && IsPow2(2 * |a|)
    requires Transform(Transform(a)) == Scale(|a|, a) && Transform(Transform(b)) == Scale(|a|, b)
    ensures Transform(Transform(a + b)) == Scale(2 * |a|, a + b)
  {
    var lo, hi := Transform(a), Transform(b);
    TransformConcat(a, b);
    TransformConcat(Add(lo, hi), Sub(lo, hi));
    TransformAdd(lo, hi);
    TransformSub(lo, hi);
    SumAndDifference(|a|, a, b);
  }

  lemma Halve(x: seq<real>) returns (a: seq<real>, b: seq<real>)
    requires IsPow2(|x|) && |x| > 1
    ensures x == a + b && |a| == |b| && |x| == 2 * |a| && IsPow2(|a|)
  {
    var n := |x| / 2;
    a, b := x[..n], x[n..];
  }

  /** H_d (H_d x) = d x. */
  lemma {:induction false} TransformTwice(x: seq<real>)
    requires IsPow2(|x|)
    ensures Transform(Transform(x)) == Scale(|x|, x)
    decreases |x|
  {
    if |x| > 1 {
      var a, b := Halve(x);
      TransformTwice(a);
      TransformTwice(b);
      TwiceHalves(a, b);
    }
  }

  lemma {:induction false} SumSquaresConcat(a: seq<real>, b: seq<real>)
    ensures SumSquares(a + b) == SumSquares(a) + SumSquares(b)
  {
    if a == [] {
      assert a + b == b;
    } else {
      assert (a + b)[1..] == a[1..] + b;
      SumSquaresConcat(a[1..], b);
    }
  }

  lemma {:induction false} ParallelogramLaw(a: seq<real>, b: seq<real>)
    requires |a| == |b|
    ensures SumSquares(Add(a, b)) + SumSquares(Sub(a, b)) == 2.0 * (SumSquares(a) + SumSquares(b))
  {
    if a != [] {
      assert Add(a, b)[1..] == Add(a[1..], b[1..]);
      assert Sub(a, b)[1..] == Sub(a[1..], b[1..]);
      ParallelogramLaw(a[1..], b[1..]);
      var u, v := a[0], b[0];
      assert (u + v) * (u + v) + (u - v) * (u - v) == 2.0 * (u * u + v * v);
    }
  }

  lemma EnergyHalves(n: nat, lo: seq<real>, hi: seq<real>, a: seq<real>, b: seq<real>)
    requires |lo| == |hi| && n > 0
    requires SumSquares(lo) == Times(n, SumSquares(a))
    requires SumSquares(hi) == Times(n, SumSquares(b))
    ensures SumSquares(Add(lo, hi) + Sub(lo, hi)) == Times(2 * n, SumSquares(a + b))
  {
    SumSquaresConcat(Add(lo, hi), Sub(lo, hi));
    ParallelogramLaw(lo, hi);
    SumSquaresConcat(a, b);
    TimesAdds(n, SumSquares(a), SumSquares(b));
    assert 2 * n / 2 == n;
  }

  /** The transform scales the sum of squares by exactly d. */
  lemma {:induction false} TransformEnergy(x: seq<real>)
    requires IsPow2(|x|)
    ensures SumSquares(Transform(x)) == Times(|x|, SumSquares(x))
    decreases |x|
  {
    if |x| > 1 {
      var a, b := Halve(x);
      TransformEnergy(a);
      TransformEnergy(b);
      EnergyJoins(a, b);
    }
  }

  lemma EnergyJoins(a: seq<real>, b: seq<real>)
    requires |a| == |b| && IsPow2(|a|) && IsPow2(2 * |a|)
    requires SumSquares(Transform(a)) == Times(|a|, SumSquares(a))
    requires SumSquares(Transform(b)) == Times(|b|, SumSquares(b))
    ensures SumSquares(Transform(a + b)) == Times(2 * |a|, SumSquares(a + b))
  {
    var lo, hi := Transform(a), Transform(b);
    TransformConcat(a, b);
    EnergyHalves(|a|, lo, hi, a, b);
  }
}
