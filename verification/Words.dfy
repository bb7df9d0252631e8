/** Machine words as bounded integers, and powers of two.
    A right shift is a division, a mask of low bits a remainder, and an OR of disjoint bit fields a sum. */
module Words {
  type Word8 = x: int | 0 <= x < 0x100
  type Word16 = x: int | 0 <= x < 0x1_0000
  type Word32 = x: int | 0 <= x < 0x1_0000_0000
  type Word64 = x: int | 0 <= x < 0x1_0000_0000_0000_0000

  function Abs(x: int): nat {
    if x < 0 then -x else x
  }

  function Pow2(n: nat): (p: nat)
    ensures p > 0
  {
    if n == 0 then 1 else 2 * Pow2(n - 1)
  }

  lemma {:induction false} Pow2Add(a: nat, b: nat)
    ensures Pow2(a + b) == Pow2(a) * Pow2(b)
  {
    if a == 0 {
    } else {
      Pow2Add(a - 1, b);
      assert 2 * (Pow2(a - 1) * Pow2(b)) == (2 * Pow2(a - 1)) * Pow2(b);
    }
  }

  lemma {:induction false} Pow2Monotone(a: nat, b: nat)
    requires a <= b
    ensures Pow2(a) <= Pow2(b)
  {
    Pow2Add(a, b - a);
    ScaleMonotone(Pow2(a), 1, Pow2(b - a));
  }

  lemma ScaleMonotone(k: nat, x: int, y: int)
    requires x <= y
    ensures k * x <= k * y
  {
  }

  /** The OR of a multiple of unit, a power of two, with a value below unit. */
  function Or(high: nat, low: nat, unit: nat): nat
    requires unit > 0 && high % unit == 0 && low < unit
  {
    high + low
  }

  lemma DivModUnique(p: nat, q: nat, r: nat)
    requires r < p
    ensures (p * q + r) / p == q && (p * q + r) % p == r
  {
    var n := p * q + r;
    var q', r' := n / p, n % p;
    assert n == p * q' + r';
    assert p * (q - q') == r' - r;
    if q > q' {
      ScaleMonotone(p, 1, q - q');
      assert false;
    } else if q < q' {
      ScaleMonotone(p, q - q', -1);
      assert false;
    }
  }
}
