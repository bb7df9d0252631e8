/** Conversions between float32, half and bfloat16 bit patterns (vectors/vectors.go:142-228). */
module Narrowing {
  import opened Words
  import opened Rounding
  import opened FloatFormats

  function SignBit(b: Word32): Word16 {
    b / 0x8000_0000 * 0x8000
  }

  /** A code that the magnitude rounds to is the reference result. */
  lemma HalfResult(b: Word32, c: nat)
    requires !IsNaN32(b)
    requires RoundsTo(HalfGrid, INF16, Mag32(b % 0x8000_0000), c)
    ensures NarrowHalf(b) == SignBit(b) + c
  {
    hide HalfGrid, Mag32, RoundsTo;
    HalfIncreasing();
    var v := Mag32(b % 0x8000_0000);
    RoundingUnique(HalfGrid, INF16, v, c, RoundCode(HalfGrid, INF16, v));
  }

  lemma {:induction false} Fields32(b: Word32)
    ensures var e, m := Exp32(b), Mant32(b);
            && b % 0x8000_0000 == e * 0x80_0000 + m
            && Mag32(b % 0x8000_0000) == Significand(e, m) * Scale(e)
  {
    assert b == (b / 0x8000_0000) * 0x8000_0000 + Exp32(b) * 0x80_0000 + Mant32(b);
    Composed32(b / 0x8000_0000, Exp32(b), Mant32(b));
  }

  /** The mantissa with its leading one, which subnormals lack. */
  function Significand(e: nat, m: nat): nat {
    if e == 0 then m else 0x80_0000 + m
  }

  lemma SmallPowers()
    ensures Pow2(10) == 0x400 && Pow2(11) == 0x800 && Pow2(13) == 0x2000 && Pow2(14) == 0x4000 && Pow2(15) == 0x8000
    ensures Pow2(24) == 0x100_0000 && Pow2(25) == 0x200_0000
  {
  }

  lemma HalfUnitIsPow2()
    ensures Pow2(125) == HALF_UNIT
  {
    hide Pow2;
    SmallPowers();
    Pow2Add(25, 25);
    Pow2Add(50, 50);
    Pow2Add(100, 25);
  }

  /** Normal results: the float32 value is the half cell of the truncated mantissa plus 13 dropped bits. */
  lemma {:induction false} NormalCell(e: nat, m: nat)
    requires 113 <= e <= 142 && m < 0x80_0000
    ensures var c := (e - 112) * 0x400 + m / 0x2000;
            && (0x80_0000 + m) * Scale(e) == HalfGrid(c) + (m % 0x2000) * Scale(e)
            && HalfGrid(c + 1) == HalfGrid(c) + (2 * 0x1000) * Scale(e)
  {
    var exp, q, r := e - 112, m / 0x2000, m % 0x2000;
    var c := exp * 0x400 + q;
    assert c / 0x400 == exp && c % 0x400 == q;
    NormalScale(e);
    HalfStep(c);
    assert HalfGrid(c) == ((0x400 + q) * Scale(exp)) * HALF_UNIT;
    Regroup(0x400 + q, Scale(exp), HALF_UNIT, 0x2000, Scale(e));
    assert 0x80_0000 + m == (0x400 + q) * 0x2000 + r;
    Distribute((0x400 + q) * 0x2000, r, Scale(e));
  }

  lemma {:induction false} NormalScale(e: nat)
    requires 113 <= e <= 142
    ensures Scale(e - 112) * HALF_UNIT == 0x2000 * Scale(e)
  {
    SmallPowers();
    HalfUnitIsPow2();
    Pow2Add(e - 113, 125);
    Pow2Add(13, e - 1);
  }

  lemma Regroup(a: nat, s: nat, k: nat, d: nat, t: nat)
    requires s * k == d * t
    ensures (a * s) * k == (a * d) * t
  {
    assert (a * s) * k == a * (s * k);
    assert (a * d) * t == a * (d * t);
  }

  /** Subnormal results: the significand with its leading one, shifted down by 126 - e. */
  lemma {:induction false} SubnormalCell(e: nat, s: nat, w: nat, q: nat, r: nat)
    requires 102 <= e <= 112 && s < 0x100_0000
    requires w == Pow2(126 - e) && s == q * w + r && r < w
    ensures q < 0x400
    ensures s * Scale(e) == HalfGrid(q) + r * Scale(e)
    ensures HalfGrid(q + 1) == HalfGrid(q) + w * Scale(e)
  {
    SubnormalScale(e);
    SmallQuotient(w, q);
    SubnormalGrid(q);
    SubnormalGrid(q + 1);
    Distribute(q * w, r, Scale(e));
    assert (q * w) * Scale(e) == q * (w * Scale(e));
  }

  lemma SmallQuotient(w: nat, q: nat)
    requires q * w < 0x100_0000 && w >= 0x4000
    ensures q < 0x400
  {
    if q >= 0x400 {
      ScaleMonotone(w, 0x400, q);
      assert false;
    }
  }

  lemma SubnormalGrid(c: nat)
    requires c <= 0x400
    ensures HalfGrid(c) == c * HALF_UNIT
  {
    assert HalfUnits(c) == c;
  }

  lemma SubnormalScale(e: nat)
    requires 102 <= e <= 112
    ensures Pow2(126 - e) >= 0x4000
    ensures Pow2(126 - e) * Scale(e) == HALF_UNIT
    ensures Pow2(126 - e) == 2 * Pow2(125 - e)
  {
    SmallPowers();
    HalfUnitIsPow2();
    Pow2Add(126 - e, e - 1);
    Pow2Monotone(14, 126 - e);
  }

  /** Values under half the smallest subnormal. */
  lemma UnderflowBound(e: nat, m: nat)
    requires e <= 101 && m < 0x80_0000
    ensures 2 * (Significand(e, m) * Scale(e)) < HalfGrid(1)
  {
    var s := Significand(e, m);
    Pow2Monotone(if e == 0 then 0 else e - 1, 100);
    Pow2Add(25, 100);
    SmallPowers();
    HalfUnitIsPow2();
    assert HalfGrid(1) == 0x200_0000 * Pow2(100);
    ScaleMonotone(s, Scale(e), Pow2(100));
    ScaleMonotone(Pow2(100), s, 0xff_ffff);
  }

  /** Values of at least 2^16, and infinity. */
  lemma OverflowBound(e: nat, m: nat)
    requires e >= 143
    ensures Significand(e, m) * Scale(e) >= HalfGrid(INF16)
  {
    Pow2Monotone(142, e - 1);
    InfinityValue();
    ProductBound(0x80_0000, 0x80_0000 + m, Pow2(142), Scale(e));
  }

  lemma ProductBound(a: nat, a': nat, k: nat, k': nat)
    requires a <= a' && k <= k'
    ensures a * k <= a' * k'
  {
    ScaleMonotone(a, k, k');
    ScaleMonotone(k', a, a');
  }

  lemma InfinityValue()
    ensures HalfGrid(INF16) == 0x80_0000 * Pow2(142)
  {
    assert HalfUnits(INF16) == 0x400 * Scale(31);
    SmallPowers();
    HalfUnitIsPow2();
    Pow2Add(30, 125);
    Pow2Add(13, 142);
    Regroup(0x400, Pow2(30), HALF_UNIT, 0x2000, Pow2(142));
  }

  /** The test on the dropped bits: the highest one is set, and a lower one is set or the quotient is odd. */
  predicate RoundsUp(m: nat, half: nat, q: nat)
    requires half > 0
  {
    m / half % 2 != 0 && (m % half != 0 || q % 2 == 1)
  }

  /** The test compares the remainder r with the midpoint; a tie is decided by the quotient's last bit. */
  lemma RoundsUpIff(m: nat, half: nat, q: nat, r: nat)
    requires half > 0 && m == q * (2 * half) + r && r < 2 * half
    ensures RoundsUp(m, half, q) <==> r > half || (r == half && q % 2 == 1)
  {
    var bit := if r >= half then 1 else 0;
    assert q * (2 * half) == half * (2 * q);
    assert m == half * (2 * q + bit) + (r - half * bit) by {
      Distribute(2 * q, bit, half);
    }
    DivModUnique(half, 2 * q + bit, r - half * bit);
  }

  lemma SignBits(b: Word32)
    ensures SignBit(b) == b / 0x1_0000 / 0x8000 * 0x8000
    ensures SignBit(b) == 0 || SignBit(b) == 0x8000
    ensures SignBit(b) % 0x8000 == 0
  {
  }

  lemma OverflowBranch(b: Word32)
    requires Exp32(b) >= 143
    requires Exp32(b) == 0xff ==> Mant32(b) == 0
    ensures NarrowHalf(b) == SignBit(b) + 0x7c00
  {
    Fields32(b);
    OverflowBound(Exp32(b), Mant32(b));
    HalfIncreasing();
    assert HalfGrid(INF16 - 1) < HalfGrid(INF16);
    HalfResult(b, INF16);
  }

  lemma UnderflowBranch(b: Word32)
    requires Exp32(b) <= 101
    ensures NarrowHalf(b) == SignBit(b)
  {
    Fields32(b);
    UnderflowBound(Exp32(b), Mant32(b));
    HalfIncreasing();
    HalfResult(b, 0);
  }

  /** Rounding by the bits that a shift drops: base plus the quotient, and one more when they round up. */
  lemma {:induction false} HalfByShift(b: Word32, m: nat, half: nat, unit: nat, base: nat, q: nat, r: nat)
    requires !IsNaN32(b)
    requires half > 0 && unit > 0 && base % 2 == 0
    requires m == q * (2 * half) + r && r < 2 * half
    requires base + q < INF16
    requires Mag32(b % 0x8000_0000) == HalfGrid(base + q) + r * unit
    requires HalfGrid(base + q + 1) == HalfGrid(base + q) + (2 * half) * unit
    ensures NarrowHalf(b) == SignBit(b) + base + q + if RoundsUp(m, half, q) then 1 else 0
  {
    hide NarrowHalf, HalfGrid, Mag32, RoundsUp, RoundsTo, SignBit;
    RoundsUpIff(m, half, q, r);
    HalfIncreasing();
    var v, c := Mag32(b % 0x8000_0000), base + q;
    assert c % 2 == q % 2;
    CellRounds(HalfGrid, INF16, v, c, r, half, unit);
    HalfResult(b, if RoundsUp(m, half, q) then c + 1 else c);
  }

  lemma {:induction false} SubnormalBranch(b: Word32, m: nat, shift: nat, half: nat, q: nat)
    requires var e := Exp32(b);
             102 <= e <= 112 && shift == 126 - e
    requires m == Mant32(b) + 0x80_0000
    requires half == Pow2(shift - 1) && q == m / Pow2(shift)
    ensures q < 0x400
    ensures NarrowHalf(b) == SignBit(b) + q + if RoundsUp(m, half, q) then 1 else 0
  {
    var e, r := Exp32(b), m % Pow2(shift);
    assert m == q * Pow2(shift) + r;
    Fields32(b);
    SubnormalScale(e);
    SubnormalCell(e, m, Pow2(shift), q, r);
    HalfByShift(b, m, half, Scale(e), 0, q, r);
  }

  lemma {:induction false} NormalBranch(b: Word32, e: nat, m: nat, q: nat)
    requires e == Exp32(b) && 113 <= e <= 142
    requires m == Mant32(b) && q == m / 0x2000
    ensures NarrowHalf(b) == SignBit(b) + (e - 112) * 0x400 + q + if RoundsUp(m, 0x1000, q) then 1 else 0
  {
    hide NarrowHalf, HalfGrid, Mag32, RoundsUp, SignBit, Scale, Exp32, Mant32;
    Fields32(b);
    NormalCell(e, m);
    HalfByShift(b, m, 0x1000, Scale(e), (e - 112) * 0x400, q, m % 0x2000);
  }

  lemma NaNBranch(b: Word32)
    requires Exp32(b) == 0xff && Mant32(b) != 0
    ensures NarrowHalf(b) == SignBit(b) + 0x7e00
  {
    hide HalfGrid, Mag32, RoundsTo, RoundCode;
  }

  /** sign | exp << 10 | mant */
  function Pack16(sign: nat, exp: nat, mant: nat): (h: Word16)
    requires sign == 0 || sign == 0x8000
    requires exp < 0x20 && mant < 0x400
    ensures h == sign + exp * 0x400 + mant
  {
    Or(Or(sign, exp * 0x400, 0x8000), mant, 0x400)
  }

  method Float32ToFloat16(b: Word32) returns (h: Word16)
    ensures h == NarrowHalf(b)
  {
    hide NarrowHalf, RoundsUp, Pow2, SignBit, Pack16, Exp32, Mant32;
    var sign: Word16 := b / 0x1_0000 / 0x8000 * 0x8000;
    var exp32: int := Exp32(b);
    var mant := Mant32(b);
    SignBits(b);

    if exp32 == 0xff {
      if mant != 0 {
        NaNBranch(b);
        return Or(sign, 0x7e00, 0x8000);
      }
      OverflowBranch(b);
      return Or(sign, 0x7c00, 0x8000);
    }

    var exp := exp32 - 127 + 15;
    if exp >= 0x1f {
      OverflowBranch(b);
      return Or(sign, 0x7c00, 0x8000);
    }
    if exp <= 0 {
      if exp < -10 {
        UnderflowBranch(b);
        return sign;
      }
      var m := mant + 0x80_0000;
      var shift := 14 - exp;
      var halfMant := m / Pow2(shift);
      var roundMask := Pow2(shift - 1);
      SubnormalBranch(b, m, shift, roundMask, halfMant);
      if RoundsUp(m, roundMask, halfMant) {
        halfMant := halfMant + 1;
      }
      return Or(sign, halfMant, 0x8000);
    }

    var halfMant := mant / 0x2000;
    NormalBranch(b, exp32, mant, halfMant);
    if RoundsUp(mant, 0x1000, halfMant) {
      halfMant := halfMant + 1;
      if halfMant == 0x400 {
        halfMant := 0;
        exp := exp + 1;
        if exp >= 0x1f {
          return Or(sign, 0x7c00, 0x8000);
        }
      }
    }
    h := Pack16(sign, exp, halfMant);
  }

  lemma BFloatSum(b: Word32)
    requires !IsNaN32(b)
    ensures b + 0x7fff + b / 0x1_0000 % 2 < 0x1_0000_0000
    ensures var c, r := b % 0x8000_0000 / 0x1_0000, b % 0x1_0000;
            (b + 0x7fff + b / 0x1_0000 % 2) / 0x1_0000
            == SignBit(b) + if r > 0x8000 || (r == 0x8000 && c % 2 == 1) then c + 1 else c
  {
    var c, r := b % 0x8000_0000 / 0x1_0000, b % 0x1_0000;
    var upper := SignBit(b) + c;
    assert b == upper * 0x1_0000 + r;
    assert b / 0x1_0000 == upper && upper % 2 == c % 2;
    var low := r + 0x7fff + c % 2;
    if low < 0x1_0000 {
      DivModUnique(0x1_0000, upper, low);
    } else {
      DivModUnique(0x1_0000, upper + 1, low - 0x1_0000);
    }
  }

  lemma BFloatRounds(a: nat, c: nat, r: nat)
    requires a == c * 0x1_0000 + r && r < 0x1_0000 && a <= INF32
    ensures RoundsTo(BFloatGrid, INF_BF, Mag32(a), if r > 0x8000 || (r == 0x8000 && c % 2 == 1) then c + 1 else c)
  {
    hide Mag32, RoundsTo;
    Mag32InCell(c, r);
    Mag32InCell(c, 0x1_0000);
    assert BFloatGrid(c + 1) == Mag32(c * 0x1_0000 + 0x1_0000);
    BFloatIncreasing();
    if c < INF_BF {
      CellRounds(BFloatGrid, INF_BF, Mag32(a), c, r, 0x8000, Scale(c / 0x80));
    } else {
      RoundingExact(BFloatGrid, INF_BF, c);
    }
  }

  lemma BFloatResult(b: Word32, c: nat)
    requires !IsNaN32(b)
    requires RoundsTo(BFloatGrid, INF_BF, Mag32(b % 0x8000_0000), c)
    ensures NarrowBFloat(b) == SignBit(b) + c
  {
    hide BFloatGrid, Mag32, RoundsTo;
    BFloatIncreasing();
    var v := Mag32(b % 0x8000_0000);
    RoundingUnique(BFloatGrid, INF_BF, v, c, RoundCode(BFloatGrid, INF_BF, v));
  }

  /** The trick of adding 0x7fff and the last kept bit: no carry leaves the word, and the upper half is the rounding. */
  lemma BFloatBranch(b: Word32)
    requires !IsNaN32(b)
    ensures b + 0x7fff + b / 0x1_0000 % 2 < 0x1_0000_0000
    ensures NarrowBFloat(b) == (b + 0x7fff + b / 0x1_0000 % 2) / 0x1_0000
  {
    hide NarrowBFloat, RoundsTo, SignBit;
    var a := b % 0x8000_0000;
    var c, r := a / 0x1_0000, b % 0x1_0000;
    assert a == c * 0x1_0000 + r;
    BFloatSum(b);
    BFloatRounds(a, c, r);
    BFloatResult(b, if r > 0x8000 || (r == 0x8000 && c % 2 == 1) then c + 1 else c);
  }

  lemma BFloatNaN(b: Word32)
    requires IsNaN32(b)
    ensures NarrowBFloat(b)
         == if b / 0x1_0000 / 0x40 % 2 == 1 then b / 0x1_0000 else b / 0x1_0000 + 0x40
  {
    hide RoundCode, Mag32, BFloatGrid;
  }

  method Float32ToBFloat16(b: Word32) returns (u: Word16)
    ensures u == NarrowBFloat(b)
  {
    hide NarrowBFloat;
    var w := b;
    if w % 0x8000_0000 > 0x7f80_0000 {
      BFloatNaN(b);
      var upper: Word16 := w / 0x1_0000;
      return if upper / 0x40 % 2 == 1 then upper else upper + 0x40;
    }
    BFloatBranch(b);
    w := (w + (0x7fff + w / 0x1_0000 % 2)) % 0x1_0000_0000;
    u := w / 0x1_0000;
  }

  /** uint32(u) << 16 */
  function WidenBFloat(u: Word16): Word32 {
    u * 0x1_0000
  }

  /** How often the mantissa of a subnormal must be doubled to reach its leading bit. */
  function LeadingShift(mant: nat): nat
    requires 0 < mant < 0x800
    decreases 0x800 - mant
  {
    if mant >= 0x400 then 0 else 1 + LeadingShift(2 * mant)
  }

  /** The mantissa of a subnormal with its leading bit in place. */
  function Normalized(mant: nat): (m: nat)
    requires 0 < mant < 0x800
    ensures 0x400 <= m < 0x800
    decreases 0x800 - mant
  {
    if mant >= 0x400 then mant else Normalized(2 * mant)
  }

  lemma {:induction false} Doubled(a: nat, p: nat)
    ensures (2 * a) * p == a * (2 * p)
  {
  }

  lemma {:induction false} NormalizedValue(mant: nat)
    requires 0 < mant < 0x800
    ensures Normalized(mant) == mant * Pow2(LeadingShift(mant))
    decreases 0x800 - mant
  {
    if mant < 0x400 {
      NormalizedValue(2 * mant);
      Doubled(mant, Pow2(LeadingShift(2 * mant)));
    }
  }

  lemma ShiftAtMostTen(mant: nat)
    requires 0 < mant < 0x800
    ensures LeadingShift(mant) <= 10
  {
    var s := LeadingShift(mant);
    NormalizedValue(mant);
    ScaleMonotone(Pow2(s), 1, mant);
    SmallPowers();
    if s > 10 {
      Pow2Monotone(11, s);
    }
  }

  /** The reference widening of a half: same sign and value; an infinity stays one and a NaN keeps its payload. */
  function WidenHalf(h: Word16): (b: Word32) {
    var exp, mant := Exp16(h), Mant16(h);
    var sign := h / 0x8000 * 0x8000_0000;
    if exp == 0x1f then sign + INF32 + mant * 0x2000
    else if exp != 0 then sign + (exp + 112) * 0x80_0000 + mant * 0x2000
    else if mant == 0 then sign
    else
      ShiftAtMostTen(mant);
      sign + (113 - LeadingShift(mant)) * 0x80_0000 + (Normalized(mant) - 0x400) * 0x2000
  }

  /** sign | exp << 23 | mant */
  function Pack32(sign: nat, exp: nat, mant: nat): (b: Word32)
    requires sign == 0 || sign == 0x8000_0000
    requires exp < 0x100 && mant < 0x80_0000
    ensures b == sign + exp * 0x80_0000 + mant
  {
    Or(Or(sign, exp * 0x80_0000, 0x8000_0000), mant, 0x80_0000)
  }

  /** The branches by their parts. */
  lemma WidenCases(h: Word16, sign: nat, exp: nat, mant: nat)
    requires sign == h / 0x8000 * 0x8000 * 0x1_0000 && exp == Exp16(h) && mant == Mant16(h)
    ensures (sign == 0 || sign == 0x8000_0000) && exp <= 0x1f && mant < 0x400
    ensures exp == 0x1f ==> WidenHalf(h) == sign + 0xff * 0x80_0000 + mant * 0x2000
    ensures 0 < exp < 0x1f ==> WidenHalf(h) == sign + (exp + 112) * 0x80_0000 + mant * 0x2000
    ensures exp == 0 && mant == 0 ==> WidenHalf(h) == sign
    ensures exp == 0 && mant > 0 ==>
              && LeadingShift(mant) <= 10
              && WidenHalf(h) == sign + (113 - LeadingShift(mant)) * 0x80_0000 + (Normalized(mant) - 0x400) * 0x2000
  {
    hide LeadingShift, Normalized;
    if mant > 0 {
      ShiftAtMostTen(mant);
    }
  }

  /** The normalising loop. */
  method Normalize(mant: nat) returns (m: nat, e: nat)
    requires 0 < mant < 0x400
    ensures 0x400 <= m < 0x800 && m == Normalized(mant) && e == LeadingShift(mant)
  {
    m, e := mant, 0;
    while m / 0x400 % 2 == 0
      invariant 0 < m < 0x800
      invariant e + LeadingShift(m) == LeadingShift(mant) && Normalized(m) == Normalized(mant)
      decreases 0x800 - m
    {
      assert m < 0x400;
      m := m * 2;
      e := e + 1;
    }
  }

  method Float16ToFloat32(h: Word16) returns (b: Word32)
    ensures b == WidenHalf(h)
  {
    hide Pack32, Exp16, Mant16, WidenHalf, Normalized, LeadingShift;
    var sign := h / 0x8000 * 0x8000 * 0x1_0000;
    var exp := Exp16(h);
    var mant := Mant16(h);
    WidenCases(h, sign, exp, mant);
    match exp {
      case 0 =>
        if mant == 0 {
          return sign;
        }
        var m, e := Normalize(mant);
        mant := m % 0x400;
        b := Pack32(sign, 113 - e, mant * 0x2000);
      case 31 =>
        b := Pack32(sign, 0xff, mant * 0x2000);
      case _ =>
        b := Pack32(sign, exp + 112, mant * 0x2000);
    }
  }

  lemma {:induction false} Composed32(s: nat, e: nat, m: nat)
    requires s <= 1 && e < 0x100 && m < 0x80_0000
    ensures var b := s * 0x8000_0000 + e * 0x80_0000 + m;
            && b / 0x8000_0000 == s
            && b % 0x8000_0000 == e * 0x80_0000 + m
            && Mag32(b % 0x8000_0000) == Significand(e, m) * Scale(e)
  {
    var b := s * 0x8000_0000 + e * 0x80_0000 + m;
    assert b % 0x8000_0000 == e * 0x80_0000 + m;
    assert (e * 0x80_0000 + m) / 0x80_0000 == e && (e * 0x80_0000 + m) % 0x80_0000 == m;
  }

  /** Widening is exact on every half that is not a NaN; infinity stays infinity. */
  lemma {:induction false} WideningExact(h: Word16)
    requires !IsNaN16(h)
    ensures WidenHalf(h) / 0x8000_0000 == h / 0x8000
    ensures h % 0x8000 < INF16 ==>
              WidenHalf(h) % 0x8000_0000 < INF32 && Mag32(WidenHalf(h) % 0x8000_0000) == HalfGrid(h % 0x8000)
    ensures h % 0x8000 == INF16 ==> WidenHalf(h) % 0x8000_0000 == INF32
  {
    hide Mag32, HalfGrid, Scale;
    var s, exp, mant := h / 0x8000, Exp16(h), Mant16(h);
    assert h == s * 0x8000 + exp * 0x400 + mant;
    assert h % 0x8000 == exp * 0x400 + mant;
    WidenCases(h, s * 0x8000_0000, exp, mant);
    hide WidenHalf, LeadingShift, Exp16, Mant16;
    if exp == 0x1f {
      Composed32(s, 0xff, mant * 0x2000);
    } else if exp != 0 {
      NormalCell(exp + 112, mant * 0x2000);
      ExactAt(h, s, exp + 112, mant * 0x2000);
    } else if mant == 0 {
      SubnormalGrid(0);
      ExactAt(h, s, 0, 0);
    } else {
      var e := LeadingShift(mant);
      NormalizedValue(mant);
      SubnormalWidened(mant, e);
      ExactAt(h, s, 113 - e, (Normalized(mant) - 0x400) * 0x2000);
    }
  }

  lemma ExactAt(h: Word16, s: nat, e: nat, m: nat)
    requires s == h / 0x8000 && e < 0xff && m < 0x80_0000
    requires WidenHalf(h) == s * 0x8000_0000 + e * 0x80_0000 + m
    requires Significand(e, m) * Scale(e) == HalfGrid(h % 0x8000)
    ensures WidenHalf(h) / 0x8000_0000 == h / 0x8000
    ensures WidenHalf(h) % 0x8000_0000 < INF32 && Mag32(WidenHalf(h) % 0x8000_0000) == HalfGrid(h % 0x8000)
  {
    hide WidenHalf, HalfGrid, Mag32, Scale, Significand;
    Composed32(s, e, m);
  }

  lemma {:induction false} SubnormalWidened(mant: nat, e: nat)
    requires 0 < mant < 0x400 && e <= 10
    ensures ((mant * Pow2(e)) * 0x2000) * Scale(113 - e) == HalfGrid(mant)
  {
    SmallPowers();
    HalfUnitIsPow2();
    SubnormalGrid(mant);
    hide Pow2, HalfGrid;
    Pow2Add(e, 112 - e);
    Pow2Add(13, 112);
    Reassociate(mant, Pow2(e), Pow2(112 - e), Pow2(112));
  }

  lemma Reassociate(a: nat, p: nat, q: nat, pq: nat)
    requires p * q == pq
    ensures ((a * p) * 0x2000) * q == a * (0x2000 * pq)
  {
    assert ((a * p) * 0x2000) * q == 0x2000 * (a * (p * q));
  }
}
