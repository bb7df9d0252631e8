/** Rounding to nearest even on an increasing grid of codes.

    A floating-point format without its sign bit is a grid: code c has value g(c), and greater codes
    have greater values. The code of infinity, top, stands where the next finite value would be, so
    that rounding with overflow (section 4.3.1 of IEEE 754-2019) is rounding to the nearest grid
    point, where a tie goes to the even code. */
module Rounding {
  import opened Words

  ghost predicate Increasing(g: nat -> nat) {
    forall a: nat, b: nat | a < b :: g(a) < g(b)
  }

  function Signed(negative: bool, v: int): int {
    if negative then -v else v
  }

  /** v lies between the midpoints on either side of code c; on a midpoint, c is even. */
  ghost predicate RoundsTo(g: nat -> nat, top: nat, v: nat, c: nat) {
    && c <= top
    && (c > 0 ==>
          && g(c - 1) + g(c) <= 2 * v
          && (g(c - 1) + g(c) == 2 * v ==> c % 2 == 0))
    && (c < top ==>
          && 2 * v <= g(c) + g(c + 1)
          && (2 * v == g(c) + g(c + 1) ==> c % 2 == 0))
  }

  /** Rounding preserves order. */
  lemma RoundingMonotone(g: nat -> nat, top: nat, v: nat, c: nat, v': nat, c': nat)
    requires Increasing(g)
    requires RoundsTo(g, top, v, c) && RoundsTo(g, top, v', c') && v <= v'
    ensures c <= c'
  {
    if c > c' {
      assert false;
    }
  }

  lemma RoundingUnique(g: nat -> nat, top: nat, v: nat, c: nat, c': nat)
    requires Increasing(g)
    requires RoundsTo(g, top, v, c) && RoundsTo(g, top, v, c')
    ensures c == c'
  {
    RoundingMonotone(g, top, v, c, v, c');
    RoundingMonotone(g, top, v, c', v, c);
  }

  /** A value of the grid rounds to itself. */
  lemma RoundingExact(g: nat -> nat, top: nat, c: nat)
    requires Increasing(g) && c <= top
    ensures RoundsTo(g, top, g(c), c)
  {
    assert g(c) < g(c + 1);
    assert c > 0 ==> g(c - 1) < g(c);
  }

  /** No finite code is nearer than the one v rounds to, and an equally near one loses only to an even one. */
  lemma RoundsToNearest(g: nat -> nat, top: nat, v: nat, c: nat, c': nat)
    requires Increasing(g)
    requires RoundsTo(g, top, v, c)
    requires c < top && c' != c
    ensures Abs(v - g(c)) <= Abs(v - g(c'))
    ensures Abs(v - g(c)) == Abs(v - g(c')) ==> c % 2 == 0
  {
    if c' < c {
      assert g(c') <= g(c - 1) < g(c);
    } else {
      assert g(c) < g(c + 1) <= g(c');
    }
  }

  /** Over both signs: no finite signed code is nearer, and an equally near one of another value loses
      only to an even one. */
  lemma SignedNearest(g: nat -> nat, top: nat, v: nat, negative: bool, c: nat, negative': bool, c': nat)
    requires Increasing(g) && g(0) == 0
    requires RoundsTo(g, top, v, c)
    requires c < top && c' < top
    ensures var x, y, y' := Signed(negative, v), Signed(negative, g(c)), Signed(negative', g(c'));
            && Abs(x - y) <= Abs(x - y')
            && (Abs(x - y) == Abs(x - y') && y != y' ==> c % 2 == 0)
  {
    if c != c' {
      RoundsToNearest(g, top, v, c, c');
    }
    if c != 0 {
      RoundsToNearest(g, top, v, c, 0);
    }
  }

  /** Infinity results exactly from the midpoint between the largest finite value and the next one on. */
  lemma InfiniteIff(g: nat -> nat, top: nat, v: nat, c: nat)
    requires Increasing(g)
    requires top > 0 && top % 2 == 0
    requires RoundsTo(g, top, v, c)
    ensures c == top <==> g(top - 1) + g(top) <= 2 * v
  {
    if c < top - 1 {
      assert g(c) < g(top - 1) && g(c + 1) < g(top);
    }
  }

  /** The largest code up to top whose value does not exceed v. */
  ghost function Floor(g: nat -> nat, v: nat, top: nat): (c: nat)
    requires g(0) <= v
    ensures c <= top
    ensures g(c) <= v
    ensures c < top ==> v < g(c + 1)
  {
    if top == 0 || g(top) <= v then top else Floor(g, v, top - 1)
  }

  /** Reference rounding: of the two neighbours of v take the nearer, and the even one on a tie. */
  ghost function RoundCode(g: nat -> nat, top: nat, v: nat): (c: nat)
    requires Increasing(g) && g(0) == 0
    ensures RoundsTo(g, top, v, c)
  {
    var c := Floor(g, v, top);
    if c == top then c
    else
      var twice, mid := 2 * v, g(c) + g(c + 1);
      if twice < mid || (twice == mid && c % 2 == 0) then c else c + 1
  }

  /** Where r units are in a cell of 2 * half units. */
  lemma {:induction false} CellOrder(r: nat, half: nat, unit: nat)
    requires unit > 0 && r < 2 * half
    ensures (2 * half) * unit == 2 * (half * unit) && r * unit < (2 * half) * unit
    ensures r < half ==> r * unit < half * unit
    ensures r > half ==> r * unit > half * unit
  {
    assert (2 * half) * unit == 2 * (half * unit);
    assert (2 * half - r) * unit > 0;
    if r > half {
      assert (r - half) * unit > 0;
    } else if r < half {
      assert (half - r) * unit > 0;
    }
  }


  /** Rounding within one cell of the grid, from the remainder r of a shift that drops 2 * half:
      the code goes up past the midpoint, and on it when it is odd. */
  lemma {:induction false} CellRounds(g: nat -> nat, top: nat, v: nat, c: nat, r: nat, half: nat, unit: nat)
    requires Increasing(g)
    requires c < top
    requires unit > 0 && r < 2 * half
    requires v == g(c) + r * unit
    requires g(c + 1) == g(c) + (2 * half) * unit
    ensures RoundsTo(g, top, v, if r > half || (r == half && c % 2 == 1) then c + 1 else c)
  {
    assert g(c) < g(c + 1) < g(c + 2);
    assert c > 0 ==> g(c - 1) < g(c);
    CellOrder(r, half, unit);
  }
}
