/** What the conversions of vectors/vectors.go:142-228 promise, proved of the functions that the
    methods of module Narrowing are shown to compute. */
module NarrowingTheorems {
  import opened Words
  import opened Rounding
  import opened FloatFormats
  import opened Narrowing

  lemma NarrowHalfFields(b: Word32)
    requires !IsNaN32(b)
    ensures NarrowHalf(b) / 0x8000 == b / 0x8000_0000
    ensures RoundsTo(HalfGrid, INF16, Mag32(b % 0x8000_0000), NarrowHalf(b) % 0x8000)
  {
    hide HalfGrid, Mag32, RoundsTo;
    HalfIncreasing();
    HalfResult(b, RoundCode(HalfGrid, INF16, Mag32(b % 0x8000_0000)));
    assert RoundCode(HalfGrid, INF16, Mag32(b % 0x8000_0000)) <= INF16;
  }

  lemma NarrowBFloatFields(b: Word32)
    requires !IsNaN32(b)
    ensures NarrowBFloat(b) / 0x8000 == b / 0x8000_0000
    ensures RoundsTo(BFloatGrid, INF_BF, Mag32(b % 0x8000_0000), NarrowBFloat(b) % 0x8000)
  {
    hide BFloatGrid, Mag32, RoundsTo;
    BFloatIncreasing();
    BFloatResult(b, RoundCode(BFloatGrid, INF_BF, Mag32(b % 0x8000_0000)));
    assert RoundCode(BFloatGrid, INF_BF, Mag32(b % 0x8000_0000)) <= INF_BF;
  }

  /** Half narrowing keeps the sign and is nearest, ties to even, against every finite half h'. */
  lemma HalfNearestEven(b: Word32, h': Word16)
    requires !IsNaN32(b) && h' % 0x8000 < INF16
    ensures NarrowHalf(b) / 0x8000 == b / 0x8000_0000
    ensures !IsNaN16(NarrowHalf(b))
    ensures NarrowHalf(b) % 0x8000 < INF16 ==>
              var error := Abs(Value32(b) - HalfValue(NarrowHalf(b)));
              && error <= Abs(Value32(b) - HalfValue(h'))
              && (error == Abs(Value32(b) - HalfValue(h')) && HalfValue(NarrowHalf(b)) != HalfValue(h')
                  ==> NarrowHalf(b) % 2 == 0)
  {
    hide NarrowHalf, HalfGrid, Mag32, RoundsTo;
    var h := NarrowHalf(b);
    NarrowHalfFields(b);
    HalfIncreasing();
    CodeBounded(HalfGrid, INF16, Mag32(b % 0x8000_0000), h % 0x8000);
    if h % 0x8000 < INF16 {
      SignedNearest(HalfGrid, INF16, Mag32(b % 0x8000_0000), h >= 0x8000, h % 0x8000, h' >= 0x8000, h' % 0x8000);
    }
  }

  lemma CodeBounded(g: nat -> nat, top: nat, v: nat, c: nat)
    requires RoundsTo(g, top, v, c)
    ensures c <= top
  {
  }

  /** Half narrowing gives infinity exactly from 65520 on. */
  lemma HalfOverflow(b: Word32)
    requires !IsNaN32(b)
    ensures NarrowHalf(b) % 0x8000 == INF16 <==> Mag32(b % 0x8000_0000) >= 65520 * Pow2(149)
  {
    hide NarrowHalf, HalfGrid, Mag32, RoundsTo;
    NarrowHalfFields(b);
    HalfIncreasing();
    InfiniteIff(HalfGrid, INF16, Mag32(b % 0x8000_0000), NarrowHalf(b) % 0x8000);
    HalfLimit();
  }

  lemma HalfLimit()
    ensures HalfGrid(INF16 - 1) + HalfGrid(INF16) == 2 * (65520 * Pow2(149))
  {
    assert HalfUnits(INF16 - 1) == 0x7ff * Scale(30);
    assert HalfUnits(INF16) == 0x400 * Scale(31);
    SmallPowers();
    HalfUnitIsPow2();
    hide Pow2;
    Pow2Add(24, 125);
    assert Scale(30) == Pow2(29) && Scale(31) == Pow2(30);
    Pow2Add(14, 15);
    Pow2Add(15, 15);
  }

  /** Narrowing undoes widening on every half that is not a NaN, and keeps the sign of a NaN and its being one. */
  lemma HalfRoundTrip(h: Word16)
    ensures !IsNaN16(h) ==> NarrowHalf(WidenHalf(h)) == h
    ensures IsNaN16(h) ==> IsNaN32(WidenHalf(h)) && NarrowHalf(WidenHalf(h)) == h / 0x8000 * 0x8000 + 0x7e00
  {
    hide NarrowHalf, HalfGrid, Mag32, RoundsTo;
    var b := WidenHalf(h);
    if IsNaN16(h) {
      hide LeadingShift, Normalized;
      NaNWidened(h);
      NaNBranch(b);
    } else {
      hide WidenHalf;
      WideningExact(h);
      HalfIncreasing();
      if h % 0x8000 < INF16 {
        RoundingExact(HalfGrid, INF16, h % 0x8000);
        HalfResult(b, h % 0x8000);
      } else {
        InfinityExponent(b);
        OverflowBranch(b);
      }
    }
  }

  lemma InfinityExponent(b: Word32)
    requires b % 0x8000_0000 == INF32
    ensures Exp32(b) == 0xff && Mant32(b) == 0
  {
  }

  /** A NaN half has all exponent bits set and widens to a NaN with the same sign and payload. */
  lemma NaNWidened(h: Word16)
    requires IsNaN16(h)
    ensures Exp32(WidenHalf(h)) == 0xff && Mant32(WidenHalf(h)) == Mant16(h) * 0x2000 && Mant16(h) != 0
    ensures WidenHalf(h) / 0x8000_0000 == h / 0x8000 && IsNaN32(WidenHalf(h))
  {
    assert h % 0x8000 == Exp16(h) * 0x400 + Mant16(h);
  }

  /** Greater float32 values narrow to halves at least as great; an infinity counts as the value 2^16. */
  lemma HalfMonotone(a: Word32, b: Word32)
    requires !IsNaN32(a) && !IsNaN32(b) && Value32(a) <= Value32(b)
    ensures HalfValue(NarrowHalf(a)) <= HalfValue(NarrowHalf(b))
  {
    hide NarrowHalf, HalfGrid, Mag32, RoundsTo;
    NarrowHalfFields(a);
    NarrowHalfFields(b);
    HalfIncreasing();
    SignedMonotone(HalfGrid, INF16, a >= 0x8000_0000, Mag32(a % 0x8000_0000), NarrowHalf(a) % 0x8000,
                   b >= 0x8000_0000, Mag32(b % 0x8000_0000), NarrowHalf(b) % 0x8000);
  }

  lemma SignedMonotone(g: nat -> nat, top: nat, n: bool, v: nat, c: nat, n': bool, v': nat, c': nat)
    requires Increasing(g) && g(0) == 0
    requires RoundsTo(g, top, v, c) && RoundsTo(g, top, v', c')
    requires Signed(n, v) <= Signed(n', v')
    ensures Signed(n, g(c)) <= Signed(n', g(c'))
  {
    if v <= v' {
      RoundingMonotone(g, top, v, c, v', c');
    }
    if v' <= v {
      RoundingMonotone(g, top, v', c', v, c);
    }
    assert 0 < c ==> g(0) < g(c);
    assert 0 < c' ==> g(0) < g(c');
  }

  /** Bfloat16 narrowing keeps the sign and is nearest, ties to even, against every finite bfloat16 u'. */
  lemma BFloatNearestEven(b: Word32, u': Word16)
    requires !IsNaN32(b) && u' % 0x8000 < INF_BF
    ensures NarrowBFloat(b) / 0x8000 == b / 0x8000_0000
    ensures !IsNaNBF(NarrowBFloat(b))
    ensures NarrowBFloat(b) % 0x8000 < INF_BF ==>
              var error := Abs(Value32(b) - BFloatValue(NarrowBFloat(b)));
              && error <= Abs(Value32(b) - BFloatValue(u'))
              && (error == Abs(Value32(b) - BFloatValue(u')) && BFloatValue(NarrowBFloat(b)) != BFloatValue(u')
                  ==> NarrowBFloat(b) % 2 == 0)
  {
    hide NarrowBFloat, BFloatGrid, Mag32, RoundsTo;
    var u := NarrowBFloat(b);
    NarrowBFloatFields(b);
    BFloatIncreasing();
    CodeBounded(BFloatGrid, INF_BF, Mag32(b % 0x8000_0000), u % 0x8000);
    if u % 0x8000 < INF_BF {
      SignedNearest(BFloatGrid, INF_BF, Mag32(b % 0x8000_0000), u >= 0x8000, u % 0x8000, u' >= 0x8000, u' % 0x8000);
    }
  }

  /** Bfloat16 narrowing gives infinity exactly from (2 - 2^-8) * 2^127 on. */
  lemma BFloatOverflow(b: Word32)
    requires !IsNaN32(b)
    ensures NarrowBFloat(b) % 0x8000 == INF_BF <==> Mag32(b % 0x8000_0000) >= 511 * Pow2(268)
  {
    hide NarrowBFloat, BFloatGrid, Mag32, RoundsTo;
    NarrowBFloatFields(b);
    BFloatIncreasing();
    InfiniteIff(BFloatGrid, INF_BF, Mag32(b % 0x8000_0000), NarrowBFloat(b) % 0x8000);
    BFloatLimit();
  }

  lemma BFloatLimit()
    ensures BFloatGrid(INF_BF - 1) + BFloatGrid(INF_BF) == 2 * (511 * Pow2(268))
  {
    assert BFloatGrid(INF_BF - 1) == 0xff_0000 * Scale(254);
    assert BFloatGrid(INF_BF) == 0x80_0000 * Scale(255);
    SmallPowers();
    hide Pow2, BFloatGrid;
    assert Scale(254) == Pow2(253) && Scale(255) == Pow2(254);
    Pow2Add(1, 253);
    Pow2Add(15, 253);
    assert Pow2(1) == 2 by { Pow2One(); }
  }

  lemma Pow2One()
    ensures Pow2(1) == 2
  {
  }

  /** Narrowing undoes widening on every bfloat16 that is not a NaN; a NaN only becomes quiet. */
  lemma BFloatRoundTrip(u: Word16)
    ensures !IsNaNBF(u) ==> Value32(WidenBFloat(u)) == BFloatValue(u) && NarrowBFloat(WidenBFloat(u)) == u
    ensures IsNaNBF(u) ==>
              && IsNaN32(WidenBFloat(u))
              && NarrowBFloat(WidenBFloat(u)) == if u / 0x40 % 2 == 1 then u else u + 0x40
  {
    hide NarrowBFloat, Mag32, RoundsTo;
    var b := WidenBFloat(u);
    assert b % 0x8000_0000 == (u % 0x8000) * 0x1_0000;
    if IsNaNBF(u) {
      BFloatNaN(b);
    } else {
      BFloatIncreasing();
      RoundingExact(BFloatGrid, INF_BF, u % 0x8000);
      BFloatResult(b, u % 0x8000);
    }
  }

  /** A NaN narrows to a NaN of the same sign in both formats: to one pattern in half, and to its upper half
      with the quiet bit set in bfloat16. */
  lemma NaNsStayNaNs(b: Word32)
    requires IsNaN32(b)
    ensures IsNaN16(NarrowHalf(b)) && NarrowHalf(b) / 0x8000 == b / 0x8000_0000
    ensures NarrowHalf(b) % 0x8000 == 0x7e00
    ensures IsNaNBF(NarrowBFloat(b)) && NarrowBFloat(b) / 0x8000 == b / 0x8000_0000
    ensures NarrowBFloat(b) == b / 0x1_0000 + if b / 0x40_0000 % 2 == 1 then 0 else 0x40
  {
    hide NarrowHalf, NarrowBFloat;
    NaNFields(b);
    NaNBranch(b);
    BFloatNaN(b);
  }

  lemma NaNFields(b: Word32)
    requires IsNaN32(b)
    ensures Exp32(b) == 0xff && Mant32(b) != 0
  {
  }

  lemma BFloatMonotone(a: Word32, b: Word32)
    requires !IsNaN32(a) && !IsNaN32(b) && Value32(a) <= Value32(b)
    ensures BFloatValue(NarrowBFloat(a)) <= BFloatValue(NarrowBFloat(b))
  {
    hide NarrowBFloat, BFloatGrid, Mag32, RoundsTo;
    NarrowBFloatFields(a);
    NarrowBFloatFields(b);
    BFloatIncreasing();
    SignedMonotone(BFloatGrid, INF_BF, a >= 0x8000_0000, Mag32(a % 0x8000_0000), NarrowBFloat(a) % 0x8000,
                   b >= 0x8000_0000, Mag32(b % 0x8000_0000), NarrowBFloat(b) % 0x8000);
  }
}
