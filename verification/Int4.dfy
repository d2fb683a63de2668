/** The scalar arithmetic shared by both INT4 codecs
    (apohara_context_forge/quantization/rotate_kv.py and codec_v8.py): one scale and zero
    point calibrated on a group of values, codes, nibbles and bytes. Scales are exact
    reals; `bits` is the configured width, and only the low nibble of a code is stored. */
module Int4 {
  import opened Rounding
  import opened BitOps

  function MaxRange(bits: nat): nat {
    if bits == 4 then 15 else 255
  }

  datatype Params = Params(scale: real, zero: int)

  function MinOf(values: seq<real>): (m: real)
    requires values != []
    ensures m in values && forall x :: x in values ==> m <= x
  {
    if |values| == 1 then values[0] else
      var m := MinOf(values[1..]);
      assert values == [values[0]] + values[1..];
      if values[0] <= m then values[0] else m
  }

  function MaxOf(values: seq<real>): (m: real)
    requires values != []
    ensures m in values && forall x :: x in values ==> x <= m
  {
    if |values| == 1 then values[0] else
      var m := MaxOf(values[1..]);
      assert values == [values[0]] + values[1..];
      if values[0] >= m then values[0] else m
  }

  function Calibrate(lo: real, hi: real, bits: nat): (p: Params)
    requires lo <= hi
    ensures p.scale > 0.0
  {
    var scale := if hi - lo > 0.0 then (hi - lo) / MaxRange(bits) as real else 1.0;
    Params(scale, -Rint(lo / scale))
  }

  function GroupParams(values: seq<real>, bits: nat): (p: Params)
    requires values != []
    ensures p.scale > 0.0
  {
    Calibrate(MinOf(values), MaxOf(values), bits)
  }

  function Clip(n: int, most: nat): (c: nat) {
    if n < 0 then 0 else if n > most then most else n
  }

  function Code(x: real, p: Params, bits: nat): (code: nat)
    requires p.scale > 0.0
    ensures code <= MaxRange(bits) < 256
  {
    Clip(Rint(x / p.scale + p.zero as real), MaxRange(bits))
  }

  /** The code of any buffered value: a scale of 0, that of a group without values, is not
      divided by. */
  function SafeCode(x: real, p: Params, bits: nat): (code: nat)
    requires p.scale >= 0.0
  {
    Code(x, if p.scale == 0.0 then Params(1.0, p.zero) else p, bits)
  }

  /** The low four bits, code & 0xF. */
  function Nibble(code: nat): (n: nat)
    ensures n < 16
  {
    code % 16
  }

  function Restore(nibble: int, p: Params): real {
    (nibble as real - p.zero as real) * p.scale
  }

  ghost predicate Within(a: real, b: real, tolerance: real) {
    -tolerance <= a - b <= tolerance
  }

  /** What comes back for x from its stored nibble is within half a scale of x. */
  ghost predicate ValueRestored(x: real, p: Params, bits: nat)
    requires p.scale > 0.0
  {
    HalfScaleOff(Stored(Nibble(Code(x, p, bits)), p), x)
  }

  /** A nibble as it is stored, with the parameters it is read back under. */
  datatype Stored = Stored(nibble: nat, p: Params)

  ghost predicate HalfScaleOff(e: Stored, x: real) {
    Within(Restore(e.nibble, e.p), x, e.p.scale * 0.5)
  }

  // ----- how fine the quantization is

  /** The scale cuts the range of the values into 15 steps at width 4 and into 255 otherwise,
      and is 1 if they are all the same; minus the zero point is the integer nearest to the
      least value in units of the scale. */
  ghost predicate ScaleFits(scale: real, zero: int, values: seq<real>, bits: nat)
    requires values != []
  {
    var lo, hi := MinOf(values), MaxOf(values);
    && scale > 0.0
    && (lo < hi ==> scale * (if bits == 4 then 15.0 else 255.0) == hi - lo)
    && (lo == hi ==> scale == 1.0)
    && IsNearestEven(lo / scale, -zero)
  }

  lemma GroupScaleFits(values: seq<real>, bits: nat)
    requires values != []
    ensures var p := GroupParams(values, bits); ScaleFits(p.scale, p.zero, values, bits)
  {
    var lo, hi, p := MinOf(values), MaxOf(values), GroupParams(values, bits);
    RintIsNearestEven(lo / p.scale, -p.zero);
  }

  /** At width 4 a value may be off by a thirtieth of the range of its group, and in a group of
      one value by a half. */
  ghost function Tolerance(values: seq<real>): real
    requires values != []
  {
    var lo, hi := MinOf(values), MaxOf(values);
    if lo < hi then (hi - lo) / 30.0 else 0.5
  }

  lemma HalfScaleIsTolerance(values: seq<real>, bits: nat)
    requires values != [] && (bits == 4 || MinOf(values) == MaxOf(values))
    ensures GroupParams(values, bits).scale * 0.5 == Tolerance(values)
  {
    GroupScaleFits(values, bits);
  }

  /** The integer nearest to a place above the zero point, clipped to the width and then cut to
      four bits. */
  ghost predicate NibbleFits(nibble: int, place: real, bits: nat) {
    var most := if bits == 4 then 15 else 255;
    exists n: int :: IsNearestEven(place, n) && nibble == (if n < 0 then 0 else if n > most then most else n) % 16
  }

  /** The two nibbles of a byte fit two values, each under its own scale and zero point. */
  ghost predicate ByteFitsTwo(byte: nat, x: real, s: real, z: int, y: real, s': real, z': int, bits: nat) {
    && s > 0.0 && NibbleFits(LowNibble(byte), x / s + z as real, bits)
    && s' > 0.0 && NibbleFits(HighNibble(byte), y / s' + z' as real, bits)
  }

  lemma PackedFits(byte: nat, x: real, p: Params, y: real, q: Params, bits: nat)
    requires p.scale > 0.0 && q.scale > 0.0
    requires byte == PackByte(Code(x, p, bits), Code(y, q, bits))
    ensures ByteFitsTwo(byte, x, p.scale, p.zero, y, q.scale, q.zero, bits)
  {
    UnpackPacked(Code(x, p, bits), Code(y, q, bits));
    CodeFits(x, p, bits);
    CodeFits(y, q, bits);
  }

  lemma CodeFits(x: real, p: Params, bits: nat)
    requires p.scale > 0.0
    ensures NibbleFits(Nibble(Code(x, p, bits)), x / p.scale + p.zero as real, bits)
  {
    var place := x / p.scale + p.zero as real;
    RintIsNearestEven(place, Rint(place));
  }

  // ----- the error of one value

  /** In units of the scale: where x sits above the rounded minimum. */
  lemma UnitPosition(x: real, lo: real, hi: real, bits: nat) returns (w: real)
    requires lo <= x <= hi
    ensures var p := Calibrate(lo, hi, bits);
            && w == x / p.scale + p.zero as real
            && x == (w - p.zero as real) * p.scale
            && -0.5 <= w <= MaxRange(bits) as real + 0.5
            && (lo == hi ==> w <= 0.5)
            && (lo < hi && x == hi ==> w >= MaxRange(bits) as real - 0.5)
  {
    var p := Calibrate(lo, hi, bits);
    var u, l, m := x / p.scale, lo / p.scale, MaxRange(bits) as real;
    RintIsNearestEven(l, -p.zero);
    w := u + p.zero as real;
    assert u * p.scale == x && l * p.scale == lo;
    assert (u - l) * p.scale == x - lo;
    QuotientBounds(u - l, p.scale, 0.0);
    if lo < hi {
      assert m * p.scale == hi - lo;
      QuotientBounds(u - l - m, p.scale, 0.0);
      assert (u - l - m) * p.scale == x - hi;
    }
  }

  lemma QuotientBounds(a: real, s: real, zero: real)
    requires s > 0.0 && zero == 0.0
    ensures a * s >= zero <==> a >= 0.0
    ensures a * s <= zero <==> a <= 0.0
  {
  }

  lemma ScaledGap(n: int, w: real, p: Params, x: real, c: real)
    requires p.scale > 0.0 && x == (w - p.zero as real) * p.scale
    ensures Within(Restore(n, p), x, p.scale * c) <==> -c <= n as real - w <= c
  {
    GapOf(n as real, w, p.zero as real, p.scale, c, Restore(n, p), x);
  }

  lemma GapOf(n: real, w: real, z: real, s: real, c: real, y: real, x: real)
    requires s > 0.0 && y == (n - z) * s && x == (w - z) * s
    ensures Within(y, x, s * c) <==> -c <= n - w <= c
  {
    assert y - x == (n - w) * s;
    QuotientBounds(n - w - c, s, 0.0);
    QuotientBounds(n - w + c, s, 0.0);
    assert (n - w - c) * s == (n - w) * s - s * c;
    assert (n - w + c) * s == (n - w) * s + s * c;
  }

  lemma RestoreNear(code: nat, w: real, p: Params, x: real)
    requires p.scale > 0.0 && x == (w - p.zero as real) * p.scale
    requires -0.5 <= code as real - w <= 0.5
    ensures Within(Restore(code, p), x, p.scale * 0.5)
  {
    ScaledGap(code, w, p, x, 0.5);
  }

  lemma ClipStaysNear(w: real, most: nat)
    requires -0.5 <= w <= most as real + 0.5
    ensures -0.5 <= Clip(Rint(w), most) as real - w <= 0.5
  {
    RintIsNearestEven(w, Rint(w));
  }

  /** The full code, before its upper bits are masked away, restores x to within half a
      scale: neither clipping nor ties to even nor a flat group spoils the bound. */
  lemma CodeError(x: real, lo: real, hi: real, bits: nat)
    requires lo <= x <= hi
    ensures var p := Calibrate(lo, hi, bits);
            Within(Restore(Code(x, p, bits), p), x, p.scale * 0.5)
  {
    var w := UnitPosition(x, lo, hi, bits);
    CodeNear(x, w, Calibrate(lo, hi, bits), bits);
  }

  lemma CodeNear(x: real, w: real, p: Params, bits: nat)
    requires p.scale > 0.0 && w == x / p.scale + p.zero as real && x == (w - p.zero as real) * p.scale
    requires -0.5 <= w <= MaxRange(bits) as real + 0.5
    ensures Within(Restore(Code(x, p, bits), p), x, p.scale * 0.5)
  {
    ClipStaysNear(w, MaxRange(bits));
    RestoreNear(Code(x, p, bits), w, p, x);
  }

  lemma FlatCode(x: real, bits: nat)
    ensures Code(x, Calibrate(x, x, bits), bits) == 0
  {
    var w := UnitPosition(x, x, x, bits);
    RintIsNearestEven(w, Rint(w));
  }

  /** With a width other than 4, the largest value of a group that is not flat loses the
      upper half of its code, and with it the bound. */
  lemma WideCodeLosesTop(lo: real, hi: real, bits: nat)
    requires lo < hi && bits != 4
    ensures !ValueRestored(hi, Calibrate(lo, hi, bits), bits)
  {
    var p := Calibrate(lo, hi, bits);
    var w := UnitPosition(hi, lo, hi, bits);
    RintIsNearestEven(w, Rint(w));
    var code := Code(hi, p, bits);
    assert code == Clip(Rint(w), 255) && code >= 254;
    assert Nibble(code) as real <= 15.0;
    ScaledGap(Nibble(code), w, p, hi, 0.5);
  }

  lemma SafeValue(x: real, lo: real, hi: real, bits: nat)
    requires lo <= x <= hi && (bits == 4 || lo == hi)
    ensures ValueRestored(x, Calibrate(lo, hi, bits), bits)
  {
    CodeError(x, lo, hi, bits);
    if lo == hi {
      FlatCode(x, bits);
    }
    var code := Code(x, Calibrate(lo, hi, bits), bits);
    assert Nibble(code) == code;
  }

  // ----- the error of a group

  /** What is stored for one value of a group that shares its parameters. */
  function StoredFor(values: seq<real>, i: nat, bits: nat): Stored
    requires i < |values|
  {
    var p := GroupParams(values, bits);
    Stored(Nibble(Code(values[i], p, bits)), p)
  }

  /** What is stored for each value of a group. */
  ghost function Coded(values: seq<real>, bits: nat): (stored: seq<Stored>)
    ensures |stored| == |values| && forall i :: 0 <= i < |values| ==> stored[i] == StoredFor(values, i, bits)
  {
    seq(|values|, i requires 0 <= i < |values| => StoredFor(values, i, bits))
  }

  ghost predicate AllHalfScaleOff(stored: seq<Stored>, values: seq<real>) {
    |stored| == |values| && forall i :: 0 <= i < |values| ==> HalfScaleOff(stored[i], values[i])
  }

  ghost predicate GroupRestored(values: seq<real>, bits: nat) {
    AllHalfScaleOff(Coded(values, bits), values)
  }

  /** Every value of a group comes back within half its scale exactly when the width is 4
      or the group is flat. */
  lemma GroupRestoredIff(values: seq<real>, bits: nat)
    requires values != []
    ensures GroupRestored(values, bits) <==> bits == 4 || MinOf(values) == MaxOf(values)
  {
    var lo, hi := MinOf(values), MaxOf(values);
    if bits != 4 && lo != hi {
      WideCodeLosesTop(lo, hi, bits);
      var i :| 0 <= i < |values| && values[i] == hi;
      assert !HalfScaleOff(Coded(values, bits)[i], values[i]);
    } else {
      forall i | 0 <= i < |values| ensures HalfScaleOff(Coded(values, bits)[i], values[i]) {
        assert values[i] in values;
        SafeValue(values[i], lo, hi, bits);
      }
    }
  }

  /** One channel's own scale (V8) is at most the scale it would share with its pair (V7)
      exactly when the channel is not flat, or the pair is flat or at least MaxRange wide. */
  lemma OwnScaleAtMostJoint(own: seq<real>, joint: seq<real>, bits: nat)
    requires own != [] && joint != [] && forall x :: x in own ==> x in joint
    ensures var width := MaxOf(joint) - MinOf(joint);
            GroupParams(own, bits).scale <= GroupParams(joint, bits).scale <==>
            MinOf(own) != MaxOf(own) || width == 0.0 || width >= MaxRange(bits) as real
  {
    var m := MaxRange(bits) as real;
    var a, b := MaxOf(own) - MinOf(own), MaxOf(joint) - MinOf(joint);
    assert MinOf(own) in joint && MaxOf(own) in joint;
    QuotientOrder(a, b, m);
  }

  lemma QuotientOrder(a: real, b: real, m: real)
    requires m > 0.0 && a <= b
    ensures a / m <= b / m
    ensures b / m >= 1.0 <==> b >= m
  {
    QuotientBounds(b / m - a / m, m, 0.0);
    assert (b / m - a / m) * m == b - a;
    QuotientBounds(b / m - 1.0, m, 0.0);
    assert (b / m - 1.0) * m == b - m;
  }

  // ----- two nibbles to a byte

  /** (q_lo & 0xF) | ((q_hi & 0xF) << 4) */
  function PackByte(lo: nat, hi: nat): (byte: nat)
    ensures byte < 256
  {
    Nibble(lo) + 16 * Nibble(hi)
  }

  function LowNibble(byte: nat): nat { byte % 16 }

  function HighNibble(byte: nat): nat { byte / 16 % 16 }

  /** The low nibble holds the even channel of a pair, the high nibble the odd one. */
  function StoredNibble(byte: nat, c: nat): nat {
    if c % 2 == 0 then LowNibble(byte) else HighNibble(byte)
  }

  /** The byte of value i of group a and value j of group b. */
  function PackTwo(a: seq<real>, i: nat, b: seq<real>, j: nat, bits: nat): nat
    requires i < |a| && j < |b|
  {
    PackByte(Code(a[i], GroupParams(a, bits), bits), Code(b[j], GroupParams(b, bits), bits))
  }

  lemma PackTwoIs(a: seq<real>, i: nat, b: seq<real>, j: nat, bits: nat, x: real, p: Params, y: real, q: Params)
    requires i < |a| && j < |b| && x == a[i] && y == b[j]
    requires p == GroupParams(a, bits) && q == GroupParams(b, bits)
    ensures PackTwo(a, i, b, j, bits) == PackByte(Code(x, p, bits), Code(y, q, bits))
  {
  }

  /** Each nibble of a packed byte is read back as it was coded. */
  lemma UnpackTwo(a: seq<real>, i: nat, b: seq<real>, j: nat, bits: nat)
    requires i < |a| && j < |b|
    ensures LowNibble(PackTwo(a, i, b, j, bits)) == StoredFor(a, i, bits).nibble
    ensures HighNibble(PackTwo(a, i, b, j, bits)) == StoredFor(b, j, bits).nibble
  {
    UnpackPacked(Code(a[i], GroupParams(a, bits), bits), Code(b[j], GroupParams(b, bits), bits));
  }

  lemma UnpackPacked(lo: nat, hi: nat)
    ensures LowNibble(PackByte(lo, hi)) == Nibble(lo)
    ensures HighNibble(PackByte(lo, hi)) == Nibble(hi)
  {
  }

  /** The byte is (lo & 0xF) | ((hi & 0xF) << 4). */
  lemma PackIsBitwise(lo: nat, hi: nat)
    ensures PackByte(lo, hi) == BitOr(BitAnd(lo, 0xF), Shifted(BitAnd(hi, 0xF), 4))
  {
    assert Pow2(4) == 16;
    LowBits(lo, 4);
    LowBits(hi, 4);
    UnionIsSum(Nibble(lo), Nibble(hi), 4);
    ShiftedIsProduct(Nibble(hi), 4);
  }

  /** The nibbles are byte & 0xF and (byte >> 4) & 0xF. */
  lemma UnpackIsBitwise(byte: nat)
    ensures LowNibble(byte) == BitAnd(byte, 0xF)
    ensures HighNibble(byte) == BitAnd(ShiftedRight(byte, 4), 0xF)
  {
    assert Pow2(4) == 16;
    LowBits(byte, 4);
    LowBits(byte / 16, 4);
    ShiftedRightIsQuotient(byte, 4);
  }
}
