/** The fast Walsh-Hadamard transform of one row (apohara_context_forge/quantization/fwht.py
    and fwht_inplace.py): the in-place butterfly loops, the padding and the normalisation,
    over exact reals. `root` stands for the square root of the padded length. */
module Fwht {
  import opened Vectors
  import opened Hadamard
  import opened BitOps

  // ----- _next_pow2

  function BitLength(n: nat): nat {
    if n == 0 then 0 else 1 + BitLength(n / 2)
  }

  function NextPow2(n: nat): (d: nat) {
    if n <= 1 then 1 else Pow2(BitLength(n - 1))
  }

  lemma {:induction false} ShiftBrackets(m: nat)
    ensures IsPow2(Pow2(BitLength(m)))
    ensures m < Pow2(BitLength(m))
    ensures m > 0 ==> Pow2(BitLength(m)) <= 2 * m
  {
    if m > 0 {
      ShiftBrackets(m / 2);
    }
  }

  /** d is a whole number of runs of m. */
  ghost predicate Multiple(d: nat, m: nat)
    requires m > 0
  {
    d == 0 || (d >= m && Multiple(d - m, m))
  }

  lemma {:induction false} DoubleMultiple(d: nat, m: nat)
    requires m > 0 && Multiple(d, m)
    ensures Multiple(2 * d, 2 * m)
  {
    if d > 0 {
      DoubleMultiple(d - m, m);
    }
  }

  lemma {:induction false} MultipleOfOne(d: nat)
    ensures Multiple(d, 1)
  {
    if d > 0 {
      MultipleOfOne(d - 1);
    }
  }

  /** Between two powers of two lies at least a doubling, and it divides the larger. */
  lemma {:induction false} Pow2Gap(p: nat, q: nat)
    requires IsPow2(p) && IsPow2(q) && p < q
    ensures 2 * p <= q && IsPow2(2 * p) && Multiple(q, 2 * p)
  {
    assert 2 * p / 2 == p;
    if p == 1 {
      MultipleOfOne(q / 2);
      DoubleMultiple(q / 2, 1);
    } else {
      Pow2Gap(p / 2, q / 2);
      DoubleMultiple(q / 2, p);
    }
  }

  /** The padded length is the least power of two that is not below the row length. */
  lemma NextPow2IsLeast(n: nat)
    ensures IsPow2(NextPow2(n)) && n <= NextPow2(n)
    ensures forall p: nat | IsPow2(p) && n <= p :: NextPow2(n) <= p
    ensures IsPow2(n) ==> NextPow2(n) == n
  {
    if n > 1 {
      ShiftBrackets(n - 1);
      var d := NextPow2(n);
      forall p: nat | IsPow2(p) && n <= p ensures d <= p {
        if p < d {
          Pow2Gap(p, d);
        }
      }
    }
  }

  // ----- the power-of-two guard of fwht_inplace

  /** The guard d & (d - 1) accepts, among the positive lengths, exactly the powers of two. */
  lemma {:induction false} GuardIsPow2(d: nat)
    requires d > 0
    ensures BitAnd(d, d - 1) == 0 <==> IsPow2(d)
  {
    if d == 1 {
    } else if d % 2 == 0 {
      GuardIsPow2(d / 2);
      assert (d - 1) / 2 == d / 2 - 1;
    } else {
      BitAndSelf(d / 2);
      assert (d - 1) / 2 == d / 2;
    }
  }

  // ----- one butterfly stage

  /** Whether position i lies in the first half of its aligned run of 2h entries. */
  predicate InFirstHalf(i: nat, h: nat)
    requires h > 0
  {
    if i < 2 * h then i < h else InFirstHalf(i - 2 * h, h)
  }

  lemma {:induction false} HasPartner(d: nat, h: nat, i: nat)
    requires h > 0 && Multiple(d, 2 * h) && i < d
    ensures InFirstHalf(i, h) ==> i + h < d && !InFirstHalf(i + h, h)
    ensures !InFirstHalf(i, h) ==> i >= h && InFirstHalf(i - h, h)
  {
    if i >= 2 * h {
      HasPartner(d - 2 * h, h, i - 2 * h);
    }
  }

  lemma HalvesPair(d: nat, h: nat)
    requires h > 0 && Multiple(d, 2 * h)
    ensures forall i: nat :: i < d && InFirstHalf(i, h) ==> i + h < d && !InFirstHalf(i + h, h)
    ensures forall i: nat :: i < d && !InFirstHalf(i, h) ==> i >= h && InFirstHalf(i - h, h)
  {
    forall i: nat | i < d
      ensures InFirstHalf(i, h) ==> i + h < d && !InFirstHalf(i + h, h)
      ensures !InFirstHalf(i, h) ==> i >= h && InFirstHalf(i - h, h)
    {
      HasPartner(d, h, i);
    }
  }

  /** One butterfly stage of half-width h: in every aligned run of 2h entries the first
      half becomes the sums and the second half the differences. */
  ghost function Stage(s: seq<real>, h: nat): (t: seq<real>)
    requires h > 0 && Multiple(|s|, 2 * h)
    ensures |t| == |s|
  {
    HalvesPair(|s|, h);
    seq(|s|, i requires 0 <= i < |s| =>
      if InFirstHalf(i, h) then s[i] + s[i + h] else s[i - h] - s[i])
  }

  ghost predicate RunStart(o: nat, h: nat, d: nat)
    requires h > 0
  {
    o + h <= d && Multiple(o, h)
  }

  ghost predicate RunDone(x: seq<real>, t: seq<real>, h: nat, o: nat)
    requires IsPow2(h) && |t| == |x| && o + h <= |x|
  {
    t[o..o + h] == Transform(x[o..o + h])
  }

  /** Every aligned run of h entries of t holds the transform of the same run of x. */
  ghost predicate RunsTransformed(x: seq<real>, t: seq<real>, h: nat)
    requires IsPow2(h)
  {
    && |t| == |x|
    && forall o: nat :: RunStart(o, h, |x|) ==> RunDone(x, t, h, o)
  }

  lemma {:induction false} MultipleSplits(o: nat, h: nat)
    requires h > 0 && Multiple(o, 2 * h)
    ensures Multiple(o, h) && Multiple(o + h, h)
  {
    if o > 0 {
      MultipleSplits(o - 2 * h, h);
    }
  }

  lemma {:induction false} FirstHalfOfRun(o: nat, h: nat, j: nat)
    requires h > 0 && Multiple(o, 2 * h) && j < 2 * h
    ensures InFirstHalf(o + j, h) <==> j < h
  {
    if o > 0 {
      FirstHalfOfRun(o - 2 * h, h, j);
    }
  }

  lemma StageOnRun(s: seq<real>, h: nat, o: nat)
    requires h > 0 && Multiple(|s|, 2 * h) && RunStart(o, 2 * h, |s|)
    ensures var lo, hi := s[o..o + h], s[o + h..o + 2 * h];
            Stage(s, h)[o..o + 2 * h] == Add(lo, hi) + Sub(lo, hi)
  {
    var lo, hi := s[o..o + h], s[o + h..o + 2 * h];
    var t := Stage(s, h)[o..o + 2 * h];
    forall j | 0 <= j < 2 * h ensures t[j] == (Add(lo, hi) + Sub(lo, hi))[j] {
      StageAt(s, h, o, j);
    }
  }

  lemma StageAt(s: seq<real>, h: nat, o: nat, j: nat)
    requires h > 0 && Multiple(|s|, 2 * h) && RunStart(o, 2 * h, |s|) && j < 2 * h
    ensures Stage(s, h)[o + j] == if j < h then s[o + j] + s[o + j + h] else s[o + j - h] - s[o + j]
  {
    HalvesPair(|s|, h);
    FirstHalfOfRun(o, h, j);
  }

  lemma RunDoubles(x: seq<real>, s: seq<real>, h: nat, o: nat)
    requires IsPow2(h) && IsPow2(2 * h) && |s| == |x| && Multiple(|x|, 2 * h) && RunStart(o, 2 * h, |x|)
    requires RunDone(x, s, h, o) && RunDone(x, s, h, o + h)
    ensures RunDone(x, Stage(s, h), 2 * h, o)
  {
    var a, b := x[o..o + h], x[o + h..o + 2 * h];
    var lo, hi := s[o..o + h], s[o + h..o + 2 * h];
    assert o + h + h == o + 2 * h;
    assert lo == Transform(a) && hi == Transform(b);
    assert x[o..o + 2 * h] == a + b;
    assert Transform(a + b) == Add(lo, hi) + Sub(lo, hi) by {
      TransformConcat(a, b);
    }
    assert Stage(s, h)[o..o + 2 * h] == Add(lo, hi) + Sub(lo, hi) by {
      StageOnRun(s, h, o);
    }
  }

  /** A stage joins transformed runs of h into transformed runs of 2h. */
  lemma StageDoublesRuns(x: seq<real>, s: seq<real>, h: nat)
    requires IsPow2(h) && IsPow2(2 * h) && Multiple(|x|, 2 * h)
    requires RunsTransformed(x, s, h)
    ensures RunsTransformed(x, Stage(s, h), 2 * h)
  {
    var t := Stage(s, h);
    forall o: nat | RunStart(o, 2 * h, |x|) ensures RunDone(x, t, 2 * h, o) {
      MultipleSplits(o, h);
      assert RunStart(o, h, |x|) && RunStart(o + h, h, |x|);
      RunDoubles(x, s, h, o);
    }
  }

  // ----- the in-place loops

  /** A stage with both halves copied before they are overwritten
      (_fwht_butterfly_numpy and _fwht_butterfly_torch). */
  method StageCopyBoth(x: array<real>, h: nat)
    requires h > 0 && Multiple(x.Length, 2 * h)
    modifies x
    ensures x[..] == Stage(old(x[..]), h)
  {
    HalvesPair(x.Length, h);
    var before := x[..];
    forall i | 0 <= i < x.Length && InFirstHalf(i, h) {
      x[i] := before[i] + before[i + h];
    }
    forall i | 0 <= i < x.Length && !InFirstHalf(i, h) {
      x[i] := before[i - h] - before[i];
    }
  }

  /** A stage that clones one half only: t = b; b = a; b -= t; a += t
      (_fwht_butterfly_torch_inplace and fwht_inplace). */
  method StageSingleClone(x: array<real>, h: nat)
    requires h > 0 && Multiple(x.Length, 2 * h)
    modifies x
    ensures x[..] == Stage(old(x[..]), h)
  {
    HalvesPair(x.Length, h);
    var t := x[..];
    CopyFirstToSecond(x, h);
    SubtractClone(x, h, t);
    forall i | 0 <= i < x.Length && InFirstHalf(i, h) {
      x[i] := x[i] + t[i + h];
    }
  }

  method SubtractClone(x: array<real>, h: nat, t: seq<real>)
    requires h > 0 && |t| == x.Length
    modifies x
    ensures forall i: nat :: i < x.Length ==> x[i] == if InFirstHalf(i, h) then old(x[i]) else old(x[i]) - t[i]
  {
    forall i | 0 <= i < x.Length && !InFirstHalf(i, h) {
      x[i] := x[i] - t[i];
    }
  }

  method CopyFirstToSecond(x: array<real>, h: nat)
    requires h > 0 && Multiple(x.Length, 2 * h)
    modifies x
    ensures forall i: nat :: i < x.Length && InFirstHalf(i, h) ==> x[i] == old(x[i])
    ensures forall i: nat :: i < x.Length && !InFirstHalf(i, h) ==> i >= h && x[i] == old(x[i - h])
  {
    HalvesPair(x.Length, h);
    forall i | 0 <= i < x.Length && !InFirstHalf(i, h) {
      x[i] := x[i - h];
    }
  }

  /** The state of the loop on reaching half-width h: every aligned run of h is transformed. */
  ghost predicate Reached(x: seq<real>, s: seq<real>, h: nat) {
    IsPow2(|x|) && IsPow2(h) && h <= |x| && RunsTransformed(x, s, h)
  }

  /** The butterfly loop over h = 1, 2, 4, ... on either schedule. */
  method Butterfly(x: array<real>, singleClone: bool)
    requires IsPow2(x.Length)
    modifies x
    ensures x[..] == MatVec(old(x[..]))
  {
    ghost var x0 := x[..];
    var h := 1;
    ReachedFirst(x0);
    while h < x.Length
      invariant 0 < h <= x.Length && Reached(x0, x[..], h)
      decreases x.Length - h
    {
      RunStage(x, h, singleClone, x0);
      h := h * 2;
    }
    ReachedLast(x0, x[..]);
  }

  method RunStage(x: array<real>, h: nat, singleClone: bool, ghost x0: seq<real>)
    requires |x0| == x.Length && 0 < h < x.Length && Reached(x0, x[..], h)
    modifies x
    ensures 2 * h <= x.Length && Reached(x0, x[..], 2 * h)
  {
    ReachedNext(x0, x[..], h);
    if singleClone {
      StageSingleClone(x, h);
    } else {
      StageCopyBoth(x, h);
    }
  }

  lemma ReachedFirst(x: seq<real>)
    requires IsPow2(|x|)
    ensures Reached(x, x, 1)
  {
  }

  lemma ReachedNext(x: seq<real>, s: seq<real>, h: nat)
    requires 0 < h < |x| && Reached(x, s, h)
    ensures Multiple(|s|, 2 * h) && Reached(x, Stage(s, h), 2 * h)
  {
    Pow2Gap(h, |x|);
    StageDoublesRuns(x, s, h);
  }

  lemma ReachedLast(x: seq<real>, t: seq<real>)
    requires Reached(x, t, |x|)
    ensures t == MatVec(x)
  {
    assert RunStart(0, |x|, |x|);
    assert x[0..0 + |x|] == x && t[0..0 + |x|] == t;
    TransformIsMatVec(x);
  }

  // ----- fwht, ifwht and fwht_inplace

  /** The row followed by zeros up to length d. */
  function PadTo(x: seq<real>, d: nat): (y: seq<real>)
    requires |x| <= d
    ensures |y| == d && y[..|x|] == x
    ensures forall i :: |x| <= i < d ==> y[i] == 0.0
  {
    x + seq(d - |x|, _ => 0.0)
  }

  function Pad(x: seq<real>): (y: seq<real>)
    ensures |y| == NextPow2(|x|) >= |x| && y == PadTo(x, |y|)
  {
    NextPow2IsLeast(|x|);
    PadTo(x, NextPow2(|x|))
  }

  ghost function Divide(x: seq<real>, root: real): (y: seq<real>)
    requires root != 0.0
    ensures |y| == |x| && forall i :: 0 <= i < |x| ==> y[i] == x[i] / root
  {
    seq(|x|, i requires 0 <= i < |x| => x[i] / root)
  }

  ghost predicate IsRoot(root: real, d: nat) {
    root > 0.0 && root * root == d as real
  }

  /** d is the least power of two that is not below n. */
  ghost predicate IsLeastPow2(d: nat, n: nat) {
    IsPow2(d) && n <= d && forall p: nat :: IsPow2(p) && n <= p ==> d <= p
  }

  /** y is the product of the Hadamard matrix with the zero-padded row, divided by the square
      root of the padded length, entry by entry. */
  ghost predicate IsFwht(x: seq<real>, y: seq<real>, root: real) {
    && IsLeastPow2(|y|, |x|) && IsRoot(root, |y|)
    && forall i :: 0 <= i < |y| ==> y[i] * root == RowTimes(|y|, i, PadTo(x, |y|), |y|)
  }

  lemma IsFwhtIsOrthonormal(x: seq<real>, y: seq<real>, root: real)
    ensures IsFwht(x, y, root) <==> IsRoot(root, NextPow2(|x|)) && y == Orthonormal(x, root)
  {
    LengthIsNextPow2(|y|, |x|);
    if |y| == NextPow2(|x|) && IsRoot(root, |y|) {
      forall i | 0 <= i < |y|
        ensures y[i] == Orthonormal(x, root)[i] <==> y[i] * root == RowTimes(|y|, i, PadTo(x, |y|), |y|)
      {
        OrthonormalAt(x, root, i);
        QuotientIff(y[i], RowTimes(|y|, i, PadTo(x, |y|), |y|), root);
      }
    }
  }

  lemma LengthIsNextPow2(d: nat, n: nat)
    ensures IsLeastPow2(d, n) <==> d == NextPow2(n)
  {
    NextPow2IsLeast(n);
  }

  lemma OrthonormalAt(x: seq<real>, root: real, i: nat)
    requires IsRoot(root, NextPow2(|x|)) && i < NextPow2(|x|)
    ensures IsPow2(NextPow2(|x|)) && |x| <= NextPow2(|x|)
    ensures var d := NextPow2(|x|); Orthonormal(x, root)[i] == RowTimes(d, i, PadTo(x, d), d) / root
  {
    NextPow2IsLeast(|x|);
  }

  lemma QuotientIff(v: real, m: real, root: real)
    requires root != 0.0
    ensures v == m / root <==> v * root == m
  {
  }

  lemma RootIsOne(a: real, b: real)
    requires a > 0.0 && b > 0.0 && a * a == b * b
    ensures a == b
  {
    assert (a - b) * (a + b) == 0.0;
  }

  /** H_d x / sqrt(d) of the zero-padded row. */
  ghost function Orthonormal(x: seq<real>, root: real): (y: seq<real>)
    requires IsRoot(root, NextPow2(|x|))
    ensures |y| == NextPow2(|x|)
  {
    NextPow2IsLeast(|x|);
    Divide(MatVec(Pad(x)), root)
  }

  lemma DivideHalves(root: real, a: seq<real>, b: seq<real>)
    requires |a| == |b| && root != 0.0
    ensures Add(Divide(a, root), Divide(b, root)) + Sub(Divide(a, root), Divide(b, root)) ==
            Divide(Add(a, b) + Sub(a, b), root)
  {
    var y := Add(a, b) + Sub(a, b);
    forall i | 0 <= i < |a|
      ensures Divide(y, root)[i] == a[i] / root + b[i] / root
      ensures Divide(y, root)[|a| + i] == a[i] / root - b[i] / root
    {
    }
  }

  lemma {:induction false} TransformDivides(a: seq<real>, root: real)
    requires IsPow2(|a|) && root != 0.0
    ensures Transform(Divide(a, root)) == Divide(Transform(a), root)
  {
    if |a| > 1 {
      var n := |a| / 2;
      assert Divide(a, root)[..n] == Divide(a[..n], root);
      assert Divide(a, root)[n..] == Divide(a[n..], root);
      TransformDivides(a[..n], root);
      TransformDivides(a[n..], root);
      DivideHalves(root, Transform(a[..n]), Transform(a[n..]));
    }
  }

  lemma CancelRoot(root: real, v: real, w: real)
    requires root > 0.0 && w == root * root * v
    ensures w / root / root == v
  {
    var a := w / root;
    assert a * root == w;
    assert (a - root * v) * root == 0.0;
    assert a == root * v;
  }

  lemma DivideTwice(x: seq<real>, d: nat, root: real)
    requires IsPow2(d) && IsRoot(root, d)
    ensures Divide(Divide(Scale(d, x), root), root) == x
  {
    forall i | 0 <= i < |x| ensures Divide(Divide(Scale(d, x), root), root)[i] == x[i] {
      EntryTwice(x[i], d, root);
    }
  }

  lemma EntryTwice(v: real, d: nat, root: real)
    requires IsPow2(d) && IsRoot(root, d)
    ensures Times(d, v) / root / root == v
  {
    TimesIsProduct(d, v);
    CancelRoot(root, v, Times(d, v));
  }

  /** ifwht(fwht(x)) is x zero-padded to the least power of two. */
  lemma FwhtSelfInverse(x: seq<real>, y: seq<real>, z: seq<real>, root: real, root': real)
    requires IsFwht(x, y, root) && IsFwht(y, z, root')
    ensures IsLeastPow2(|z|, |x|) && z == PadTo(x, |z|)
  {
    IsFwhtIsOrthonormal(x, y, root);
    IsFwhtIsOrthonormal(y, z, root');
    OrthonormalTwice(x, root);
    RootIsOne(root, root');
  }

  lemma OrthonormalTwice(x: seq<real>, root: real)
    requires IsRoot(root, NextPow2(|x|))
    ensures NextPow2(NextPow2(|x|)) == NextPow2(|x|)
    ensures Orthonormal(Orthonormal(x, root), root) == Pad(x)
  {
    var p, d := Pad(x), NextPow2(|x|);
    NextPow2IsLeast(|x|);
    NextPow2IsLeast(d);
    TransformIsMatVec(p);
    var y := Divide(Transform(p), root);
    assert Pad(y) == y;
    TransformIsMatVec(y);
    TransformDivides(Transform(p), root);
    TransformTwice(p);
    DivideTwice(p, d, root);
  }

  lemma {:induction false} DivideEnergy(x: seq<real>, d: nat, root: real)
    requires IsPow2(d) && IsRoot(root, d)
    ensures Times(d, SumSquares(Divide(x, root))) == SumSquares(x)
  {
    if x == [] {
      TimesIsProduct(d, 0.0);
    } else {
      DivideEnergy(x[1..], d, root);
      var y, rest := Divide(x, root), Divide(x[1..], root);
      var u := y[0];
      assert y[1..] == rest;
      assert SumSquares(y) == u * u + SumSquares(rest);
      TimesAdds(d, u * u, SumSquares(rest));
      SquareUnderRoot(x[0], u, d, root);
    }
  }

  lemma SquareUnderRoot(v: real, u: real, d: nat, root: real)
    requires IsPow2(d) && IsRoot(root, d) && u == v / root
    ensures Times(d, u * u) == v * v
  {
    TimesIsProduct(d, u * u);
    assert root * u == v;
    assert root * root * (u * u) == (root * u) * (root * u);
  }

  lemma PadEnergy(x: seq<real>)
    ensures SumSquares(Pad(x)) == SumSquares(x)
  {
    var zeros := Pad(x)[|x|..];
    assert Pad(x) == x + zeros;
    SumSquaresConcat(x, zeros);
    ZerosHaveNoEnergy(zeros);
  }

  /** The normalised transform preserves the sum of squares of the row. */
  lemma FwhtPreservesEnergy(x: seq<real>, y: seq<real>, root: real)
    requires IsFwht(x, y, root)
    ensures SumSquares(y) == SumSquares(x)
  {
    IsFwhtIsOrthonormal(x, y, root);
    NextPow2IsLeast(|x|);
    PadEnergy(x);
    OrthonormalEnergy(Pad(x), root);
  }

  lemma OrthonormalEnergy(p: seq<real>, root: real)
    requires IsPow2(|p|) && IsRoot(root, |p|)
    ensures SumSquares(Divide(MatVec(p), root)) == SumSquares(p)
  {
    TransformIsMatVec(p);
    var y := Transform(p);
    TransformEnergy(p);
    DivideEnergy(y, |p|, root);
    TimesCancels(|p|, SumSquares(Divide(y, root)), SumSquares(p));
  }

  lemma {:induction false} TimesCancels(d: int, a: real, b: real)
    requires Times(d, a) == Times(d, b)
    ensures a == b
  {
    if d > 1 {
      TimesCancels(d / 2, a, b);
    }
  }

  lemma {:induction false} ZerosHaveNoEnergy(z: seq<real>)
    requires forall i :: 0 <= i < |z| ==> z[i] == 0.0
    ensures SumSquares(z) == 0.0
  {
    if z != [] {
      ZerosHaveNoEnergy(z[1..]);
    }
  }

  /** fwht on one row, on any of its paths: the torch path runs the single-clone schedule
      unless fp32_upcast asks for the copying one; the numpy path always copies. */
  method FwhtRow(x: seq<real>, torch: bool, fp32Upcast: bool, root: real) returns (y: seq<real>)
    requires IsRoot(root, NextPow2(|x|))
    ensures IsFwht(x, y, root)
  {
    NextPow2IsLeast(|x|);
    var padded := Pad(x);
    var work := new real[|padded|](i requires 0 <= i < |padded| => padded[i]);
    assert work[..] == padded;
    Butterfly(work, torch && !fp32Upcast);
    forall i | 0 <= i < work.Length {
      work[i] := work[i] / root;
    }
    y := work[..];
    IsFwhtIsOrthonormal(x, y, root);
  }

  /** fwht_inplace: refuses a length that fails d & (d - 1) == 0. Length 0 passes the guard
      in the original and then divides by sqrt(0); it is reported as a failure too. */
  method FwhtInPlace(x: array<real>, root: real) returns (ok: bool)
    requires IsRoot(root, x.Length) || x.Length == 0
    modifies x
    ensures ok <==> IsPow2(x.Length)
    ensures ok ==> IsFwht(old(x[..]), x[..], root)
    ensures !ok ==> x[..] == old(x[..])
  {
    var d := x.Length;
    if d == 0 {
      return false;
    }
    GuardIsPow2(d);
    if BitAnd(d, d - 1) != 0 {
      return false;
    }
    Butterfly(x, true);
    forall i | 0 <= i < d {
      x[i] := x[i] / root;
    }
    ok := true;
    NextPow2IsLeast(d);
    assert Pad(old(x[..])) == old(x[..]);
    IsFwhtIsOrthonormal(old(x[..]), x[..], root);
  }
}
