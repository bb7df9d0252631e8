/** The meaning of float32, half and bfloat16 bit patterns.

    Every finite value of the three formats is an integer multiple of 2^-149, so magnitudes are
    integers in that unit. Dropping the sign bit leaves the magnitude code. */
module FloatFormats {
  import opened Words
  import opened Rounding

  const INF32 := 0x7f80_0000
  const INF16 := 0x7c00
  const INF_BF := 0x7f80

  predicate IsNaN32(b: Word32) {
    b % 0x8000_0000 > INF32
  }

  predicate IsNaN16(h: Word16) {
    h % 0x8000 > INF16
  }

  predicate IsNaNBF(u: Word16) {
    u % 0x8000 > INF_BF
  }

  /** The biased exponent field of a float32. */
  function Exp32(b: Word32): (e: nat)
    ensures e < 0x100
  {
    b / 0x80_0000 % 0x100
  }

  function Mant32(b: Word32): (m: nat)
    ensures m < 0x80_0000
  {
    b % 0x80_0000
  }

  /** The biased exponent field of a half. */
  function Exp16(h: Word16): (e: nat)
    ensures e < 0x20
  {
    h / 0x400 % 0x20
  }

  function Mant16(h: Word16): (m: nat)
    ensures m < 0x400
  {
    h % 0x400
  }

  /** The scale of exponent field e: the gap between neighbours, in units of the smallest subnormal. */
  function Scale(e: nat): (p: nat)
    ensures p > 0
  {
    Pow2(if e == 0 then 0 else e - 1)
  }

  /** Magnitude of a float32 magnitude code, in units of 2^-149. */
  function Mag32(c: nat): nat {
    var e, m := c / 0x80_0000, c % 0x80_0000;
    if e == 0 then m else (0x80_0000 + m) * Scale(e)
  }

  /** Magnitude of a half magnitude code, in units of 2^-24. */
  function HalfUnits(c: nat): nat {
    var e, m := c / 0x400, c % 0x400;
    if e == 0 then m else (0x400 + m) * Scale(e)
  }

  /** The smallest half subnormal, 2^-24, in units of 2^-149. */
  const HALF_UNIT: nat := 0x2000_0000_0000_0000_0000_0000_0000_0000

  /** Magnitude of a half magnitude code, in units of 2^-149. */
  function HalfGrid(c: nat): nat {
    HalfUnits(c) * HALF_UNIT
  }

  /** Magnitude of a bfloat16 magnitude code, in units of 2^-149: bfloat16 is the upper half of a float32. */
  function BFloatGrid(c: nat): nat {
    Mag32(c * 0x1_0000)
  }

  function Value32(b: Word32): int {
    Signed(b >= 0x8000_0000, Mag32(b % 0x8000_0000))
  }

  function HalfValue(h: Word16): int {
    Signed(h >= 0x8000, HalfGrid(h % 0x8000))
  }

  function BFloatValue(u: Word16): int {
    Signed(u >= 0x8000, BFloatGrid(u % 0x8000))
  }

  /** Half codes are evenly spaced by the scale of their exponent, across binade boundaries too. */
  lemma HalfStep(c: nat)
    ensures HalfGrid(c + 1) == HalfGrid(c) + Scale(c / 0x400) * HALF_UNIT
  {
    var e, m := c / 0x400, c % 0x400;
    if m == 0x3ff {
      assert (c + 1) / 0x400 == e + 1 && (c + 1) % 0x400 == 0;
    } else {
      assert (c + 1) / 0x400 == e && (c + 1) % 0x400 == m + 1;
    }
    assert HalfUnits(c + 1) == HalfUnits(c) + Scale(e);
  }

  lemma Distribute(a: nat, b: nat, k: nat)
    ensures (a + b) * k == a * k + b * k
  {
  }

  /** Within one bfloat16 cell the float32 values are evenly spaced. */
  lemma Mag32InCell(c: nat, r: nat)
    requires r <= 0x1_0000
    ensures Mag32(c * 0x1_0000 + r) == BFloatGrid(c) + r * Scale(c / 0x80)
  {
    var e, m := c / 0x80, c % 0x80;
    var b := c * 0x1_0000;
    assert b / 0x80_0000 == e && b % 0x80_0000 == m * 0x1_0000;
    if m == 0x7f && r == 0x1_0000 {
      assert (b + r) / 0x80_0000 == e + 1 && (b + r) % 0x80_0000 == 0;
    } else {
      assert (b + r) / 0x80_0000 == e && (b + r) % 0x80_0000 == m * 0x1_0000 + r;
      Distribute(0x80_0000 + m * 0x1_0000, r, Scale(e));
    }
  }

  lemma {:induction false} HalfOrdered(a: nat, b: nat)
    requires a < b
    ensures HalfGrid(a) < HalfGrid(b)
    decreases b
  {
    HalfStep(b - 1);
    if a < b - 1 {
      HalfOrdered(a, b - 1);
    }
  }

  lemma {:induction false} BFloatOrdered(a: nat, b: nat)
    requires a < b
    ensures BFloatGrid(a) < BFloatGrid(b)
    decreases b
  {
    Mag32InCell(b - 1, 0x1_0000);
    if a < b - 1 {
      BFloatOrdered(a, b - 1);
    }
  }

  lemma HalfIncreasing()
    ensures Increasing(HalfGrid) && HalfGrid(0) == 0
  {
    forall a: nat, b: nat | a < b ensures HalfGrid(a) < HalfGrid(b) {
      HalfOrdered(a, b);
    }
  }

  lemma BFloatIncreasing()
    ensures Increasing(BFloatGrid) && BFloatGrid(0) == 0
  {
    forall a: nat, b: nat | a < b ensures BFloatGrid(a) < BFloatGrid(b) {
      BFloatOrdered(a, b);
    }
  }

  /** The reference narrowing to half: a quiet NaN, or the sign and the rounded magnitude. */
  ghost function NarrowHalf(b: Word32): (h: Word16) {
    var sign := if b >= 0x8000_0000 then 0x8000 else 0;
    if IsNaN32(b) then sign + 0x7e00
    else
      HalfIncreasing();
      sign + RoundCode(HalfGrid, INF16, Mag32(b % 0x8000_0000))
  }

  /** The reference narrowing to bfloat16: a NaN keeps its upper half made quiet. */
  ghost function NarrowBFloat(b: Word32): (u: Word16) {
    var sign := if b >= 0x8000_0000 then 0x8000 else 0;
    if IsNaN32(b) then
      var upper := b / 0x1_0000;
      if upper / 0x40 % 2 == 1 then upper else upper + 0x40
    else
      BFloatIncreasing();
      sign + RoundCode(BFloatGrid, INF_BF, Mag32(b % 0x8000_0000))
  }
}
