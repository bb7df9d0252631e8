/** ULID generation (utils.go:13-45). The clock and the random bytes are inputs. */
module Ulid {
  import opened Words

  const CROCKFORD := "0123456789ABCDEFGHJKMNPQRSTVWXYZ"

  /** The character of a digit: the digits and the letters in order, without I, L, O and U. */
  function DigitChar(d: nat): char
    requires d < 32
  {
    if d < 10 then (48 + d) as char
    else if d < 18 then (55 + d) as char
    else if d < 20 then (56 + d) as char
    else if d < 22 then (57 + d) as char
    else if d < 27 then (58 + d) as char
    else (59 + d) as char
  }

  lemma CrockfordChars(d: nat)
    requires d < 32
    ensures |CROCKFORD| == 32 && CROCKFORD[d] == DigitChar(d)
  {
  }

  /** The digit that a character stands for; other characters give 32. */
  function DigitOf(c: char): nat {
    if '0' <= c <= '9' then c as int - 48
    else if 'A' <= c <= 'H' then c as int - 55
    else if 'J' <= c <= 'K' then c as int - 56
    else if 'M' <= c <= 'N' then c as int - 57
    else if 'P' <= c <= 'T' then c as int - 58
    else if 'V' <= c <= 'Z' then c as int - 59
    else 32
  }

  function Digits(s: string): (ds: seq<nat>)
    ensures |ds| == |s|
  {
    seq(|s|, i requires 0 <= i < |s| => DigitOf(s[i]))
  }

  /** The number that big-endian digits write. */
  function Number(base: nat, ds: seq<nat>): nat {
    if ds == [] then 0 else Number(base, ds[..|ds| - 1]) * base + ds[|ds| - 1]
  }

  function Power(base: nat, n: nat): nat {
    if n == 0 then 1 else base * Power(base, n - 1)
  }

  /** The count big-endian digits of n. */
  function ToDigits(base: nat, n: nat, count: nat): (ds: seq<nat>)
    requires base > 0
    ensures |ds| == count
    decreases count
  {
    if count == 0 then []
    else
      QuotientNotNegative(n, base);
      ToDigits(base, n / base, count - 1) + [n % base]
  }

  lemma QuotientNotNegative(n: nat, base: nat)
    requires base > 0
    ensures n / base >= 0 && n % base >= 0
  {
    if n / base < 0 {
      ScaleMonotone(base, n / base, -1);
    }
  }

  predicate InBase(base: nat, ds: seq<nat>) {
    forall i | 0 <= i < |ds| :: ds[i] < base
  }

  lemma {:induction false} NumberFront(base: nat, d: nat, ds: seq<nat>)
    ensures Number(base, [d] + ds) == d * Power(base, |ds|) + Number(base, ds)
  {
    var all := [d] + ds;
    if ds == [] {
      assert all[..0] == [];
    } else {
      var front := ds[..|ds| - 1];
      NumberFront(base, d, front);
      assert all[..|all| - 1] == [d] + front;
      assert (d * Power(base, |front|) + Number(base, front)) * base
          == d * (base * Power(base, |front|)) + Number(base, front) * base;
    }
  }

  lemma LastDigit(base: nat, n: nat, d: nat, p: nat)
    requires d < base && n < p
    ensures n * base + d < base * p
  {
    ScaleMonotone(base, n + 1, p);
  }

  lemma {:induction false} DigitsRoundTrip(base: nat, ds: seq<nat>)
    requires base > 0 && InBase(base, ds)
    ensures ToDigits(base, Number(base, ds), |ds|) == ds
  {
    if ds == [] {
    } else {
      var front, last := ds[..|ds| - 1], ds[|ds| - 1];
      DigitsRoundTrip(base, front);
      DivModUnique(base, Number(base, front), last);
      assert Number(base, ds) == base * Number(base, front) + last;
      assert ds == front + [last];
    }
  }

  /** The millisecond timestamp and the random bytes that a ULID carries. */
  function TimeOf(s: string): nat
    requires |s| == 26
  {
    Number(32, Digits(s[..10]))
  }

  function RandomOf(s: string): seq<nat>
    requires |s| == 26
  {
    ToDigits(0x100, Number(32, Digits(s[10..])), 10)
  }

  lemma CrockfordDigit(d: nat)
    requires d < 32
    ensures |CROCKFORD| == 32 && DigitOf(CROCKFORD[d]) == d
  {
    CrockfordChars(d);
  }

  /** Among characters of the alphabet, the greater one stands for the greater digit. */
  lemma CrockfordOrder(c: char, c': char)
    requires DigitOf(c) < 32 && DigitOf(c') < 32
    ensures DigitOf(c) < DigitOf(c') <==> c < c'
  {
  }

  lemma DigitAppended(base: nat, ds: seq<nat>, d: nat)
    ensures Number(base, ds + [d]) == Number(base, ds) * base + d
  {
    assert (ds + [d])[..|ds|] == ds;
  }

  /** Shifting a byte in: the high bits that the 64-bit accumulator drops are none of the pending ones. */
  lemma ShiftIn(acc: Word64, b: Word8, bits: nat)
    requires bits < 5
    ensures (acc * 0x100 + b) % 0x1_0000_0000_0000_0000 % Pow2(bits + 8) == (acc % Pow2(bits)) * 0x100 + b
    ensures Pow2(bits + 8) == 0x100 * Pow2(bits)
  {
    SmallPowers();
    hide Pow2;
    Pow2Add(8, bits);
    if bits == 0 {
      DropsMultiples(acc, b, 1, 0x100_0000_0000_0000);
    } else if bits == 1 {
      DropsMultiples(acc, b, 2, 0x80_0000_0000_0000);
    } else if bits == 2 {
      DropsMultiples(acc, b, 4, 0x40_0000_0000_0000);
    } else if bits == 3 {
      DropsMultiples(acc, b, 8, 0x20_0000_0000_0000);
    } else {
      DropsMultiples(acc, b, 16, 0x10_0000_0000_0000);
    }
  }

  /** Wrapping around subtracts a multiple of 0x100 * p. */
  lemma DropsMultiples(acc: Word64, b: Word8, p: nat, m: nat)
    requires p > 0 && 0x100 * p * m == 0x1_0000_0000_0000_0000
    ensures (acc * 0x100 + b) % 0x1_0000_0000_0000_0000 % (0x100 * p) == (acc % p) * 0x100 + b
  {
    var x := acc * 0x100 + b;
    var k, y := x / 0x1_0000_0000_0000_0000, x % 0x1_0000_0000_0000_0000;
    var q, r := acc / p, acc % p;
    var n := q - m * k;
    assert x == (0x100 * p) * q + (0x100 * r + b) by {
      assert acc == p * q + r;
      assert 0x100 * (p * q) == (0x100 * p) * q;
    }
    assert y == (0x100 * p) * n + (0x100 * r + b) by {
      assert x == 0x1_0000_0000_0000_0000 * k + y;
      assert (0x100 * p * m) * k == (0x100 * p) * (m * k);
      assert (0x100 * p) * n == (0x100 * p) * q - (0x100 * p) * (m * k);
    }
    if n < 0 {
      ScaleMonotone(0x100 * p, n, -1);
      assert false;
    }
    DivModUnique(0x100 * p, n, 0x100 * r + b);
  }

  lemma SmallPowers()
    ensures Pow2(0) == 1 && Pow2(1) == 2 && Pow2(2) == 4 && Pow2(3) == 8 && Pow2(4) == 16 && Pow2(5) == 32
    ensures Pow2(8) == 0x100
  {
  }

  /** Taking the five highest pending bits out. */
  lemma ShiftOut(acc: Word64, bits: nat)
    requires bits < 8
    ensures acc % Pow2(bits + 5) == (acc / Pow2(bits) % 32) * Pow2(bits) + acc % Pow2(bits)
    ensures Pow2(bits + 5) == 32 * Pow2(bits)
  {
    SmallPowers();
    hide Pow2;
    Pow2Add(5, bits);
    SplitFive(acc, Pow2(bits), acc / Pow2(bits), acc % Pow2(bits));
  }

  lemma SplitFive(acc: nat, p: nat, q: nat, r: nat)
    requires acc == p * q + r && r < p
    ensures acc % (32 * p) == (q % 32) * p + r
  {
    var q', d := q / 32, q % 32;
    assert p * (32 * q' + d) == (32 * p) * q' + d * p;
    LastDigit(p, d, r, 32);
    DivModUnique(32 * p, q', d * p + r);
  }

  /** Emitting a digit keeps the number that the digits and the pending bits make. */
  lemma Emits(n: nat, d: nat, p: nat, r: nat)
    ensures (n * 32 + d) * p + r == n * (32 * p) + (d * p + r)
  {
  }

  lemma Absorbs(n: nat, p: nat, r: nat, b: nat)
    ensures (n * p + r) * 0x100 + b == n * (0x100 * p) + (r * 0x100 + b)
  {
  }

  lemma Starts()
    ensures Number(32, []) == 0 && Number(0x100, []) == 0 && Power(32, 0) == 1 && Pow2(0) == 1
  {
  }

  lemma PowerStep(base: nat, n: nat)
    ensures Power(base, n + 1) == base * Power(base, n)
  {
  }

  /** Fills the first ten characters, from the last one back. */
  method TimeDigits(out: array<char>, millis: int) returns (ghost ds: seq<nat>)
    requires out.Length == 26
    modifies out
    ensures |ds| == 10 && InBase(32, ds) && Number(32, ds) == millis % 0x1_0000_0000_0000
    ensures forall j | 0 <= j < 10 :: DigitOf(out[j]) == ds[j]
  {
    hide Number, Power, DigitOf;
    ds := [];
    var t: Word64 := millis % 0x1_0000_0000_0000;
    ghost var t0 := t;
    Starts();
    var i := 9;
    while i >= 0
      invariant -1 <= i <= 9 && |ds| == 9 - i && InBase(32, ds)
      invariant forall j | 0 <= j < |ds| :: DigitOf(out[i + 1 + j]) == ds[j]
      invariant t * Power(32, |ds|) + Number(32, ds) == t0
    {
      CrockfordDigit(t % 32);
      NumberFront(32, t % 32, ds);
      TimeStep(t, Power(32, |ds|));
      PowerStep(32, |ds|);
      out[i] := CROCKFORD[t % 32];
      ds := [t % 32] + ds;
      t := t / 32;
      i := i - 1;
    }
    TimeFits(t, ds, t0);
  }

  /** Fills the other sixteen with the random bytes, through a 64-bit accumulator. */
  method RandomDigits(out: array<char>, random: seq<Word8>) returns (ghost ds: seq<nat>)
    requires out.Length == 26 && |random| == 10
    modifies out
    ensures |ds| == 16 && InBase(32, ds) && Number(32, ds) == Number(0x100, random)
    ensures forall j | 0 <= j < 16 :: DigitOf(out[10 + j]) == ds[j]
    ensures out[..10] == old(out[..10])
  {
    hide Number, Pow2, DigitOf;
    var acc: Word64 := 0;
    var bits := 0;
    var pos := 10;
    ds := [];
    Starts();
    for k := 0 to 10
      invariant 0 <= bits < 5 && pos == 10 + |ds| && 8 * k == 5 * |ds| + bits
      invariant InBase(32, ds)
      invariant out[..10] == old(out[..10])
      invariant forall j | 0 <= j < |ds| :: DigitOf(out[10 + j]) == ds[j]
      invariant Number(0x100, random[..k]) == Number(32, ds) * Pow2(bits) + acc % Pow2(bits)
    {
      ShiftIn(acc, random[k], bits);
      Absorbs(Number(32, ds), Pow2(bits), acc % Pow2(bits), random[k]);
      assert random[..k + 1] == random[..k] + [random[k]];
      DigitAppended(0x100, random[..k], random[k]);
      acc := (acc * 0x100 + random[k]) % 0x1_0000_0000_0000_0000;
      bits := bits + 8;
      while bits >= 5
        invariant 0 <= bits < 13 && pos == 10 + |ds| && 8 * (k + 1) == 5 * |ds| + bits
        invariant InBase(32, ds)
        invariant out[..10] == old(out[..10])
        invariant forall j | 0 <= j < |ds| :: DigitOf(out[10 + j]) == ds[j]
        invariant Number(0x100, random[..k + 1]) == Number(32, ds) * Pow2(bits) + acc % Pow2(bits)
        decreases bits
      {
        bits := bits - 5;
        ShiftOut(acc, bits);
        var d := acc / Pow2(bits) % 32;
        CrockfordDigit(d);
        DigitAppended(32, ds, d);
        Emits(Number(32, ds), d, Pow2(bits), acc % Pow2(bits));
        out[pos] := CROCKFORD[d];
        ds := ds + [d];
        pos := pos + 1;
      }
    }
    assert random[..10] == random;
  }

  method NewULID(millis: int, random: seq<Word8>) returns (s: string)
    requires |random| == 10
    ensures |s| == 26 && forall i | 0 <= i < 26 :: DigitOf(s[i]) < 32
    ensures TimeOf(s) == millis % 0x1_0000_0000_0000
    ensures RandomOf(s) == random
  {
    hide Number, DigitOf, ToDigits;
    var out := new char[26](_ => '0');
    ghost var time := TimeDigits(out, millis);
    ghost var head := out[..10];
    ghost var ds := RandomDigits(out, random);
    s := out[..];
    assert forall j | 0 <= j < 10 :: s[j] == head[j];
    assert forall i | 0 <= i < 26 :: DigitOf(s[i]) == if i < 10 then time[i] else ds[i - 10];
    assert Digits(s[..10]) == time;
    assert Digits(s[10..]) == ds;
    DigitsRoundTrip(0x100, random);
  }

  lemma TimeStep(t: nat, p: nat)
    ensures t * p == (t / 32) * (32 * p) + (t % 32) * p
  {
    assert t == 32 * (t / 32) + t % 32;
  }

  lemma TimeFits(t: nat, ds: seq<nat>, t0: nat)
    requires |ds| == 10 && t * Power(32, 10) + Number(32, ds) == t0 && t0 < 0x1_0000_0000_0000
    ensures t == 0 && Number(32, ds) == t0
  {
    assert Power(32, 10) == 0x4_0000_0000_0000;
  }

  /** a comes before b in the order of strings of the same length. */
  predicate Before(a: string, b: string)
    requires |a| == |b|
  {
    exists i | 0 <= i < |a| :: a[..i] == b[..i] && a[i] < b[i]
  }

  lemma LeadingDecides(base: nat, x: nat, y: nat, d: nat, d': nat)
    requires d < base && d' < base && x * base + d < y * base + d'
    ensures x < y || (x == y && d < d')
  {
    if x > y {
      ScaleMonotone(base, y + 1, x);
    }
  }

  lemma {:induction false} LessDigits(base: nat, ds: seq<nat>, ds': seq<nat>) returns (i: nat)
    requires base > 0 && |ds| == |ds'| && InBase(base, ds) && InBase(base, ds')
    requires Number(base, ds) < Number(base, ds')
    ensures i < |ds| && ds[..i] == ds'[..i] && ds[i] < ds'[i]
  {
    var n := |ds| - 1;
    var front, front' := ds[..n], ds'[..n];
    var x, y := Number(base, front), Number(base, front');
    assert Number(base, ds) == x * base + ds[n] && Number(base, ds') == y * base + ds'[n];
    hide Number, ToDigits;
    LeadingDecides(base, x, y, ds[n], ds'[n]);
    if x < y {
      i := LessDigits(base, front, front');
      assert ds[..i] == front[..i] && ds'[..i] == front'[..i];
    } else {
      i := n;
      DigitsRoundTrip(base, front);
      DigitsRoundTrip(base, front');
    }
  }

  /** ULIDs sort by their timestamps. */
  lemma LaterSortsAfter(a: string, b: string)
    requires |a| == |b| == 26
    requires forall i | 0 <= i < 26 :: DigitOf(a[i]) < 32 && DigitOf(b[i]) < 32
    requires TimeOf(a) < TimeOf(b)
    ensures Before(a, b)
  {
    var ds, ds' := Digits(a[..10]), Digits(b[..10]);
    var i := LessDigits(32, ds, ds');
    CrockfordOrder(a[i], b[i]);
    forall j | 0 <= j < i ensures a[j] == b[j] {
      assert ds[..i][j] == ds'[..i][j];
      CrockfordOrder(a[j], b[j]);
      CrockfordOrder(b[j], a[j]);
    }
    assert a[..i] == b[..i];
  }

  /** A ULID is determined by the timestamp and the random number it carries. */
  lemma NumbersDetermine(a: string, b: string)
    requires |a| == |b| == 26
    requires forall i | 0 <= i < 26 :: DigitOf(a[i]) < 32 && DigitOf(b[i]) < 32
    requires TimeOf(a) == TimeOf(b) && Number(32, Digits(a[10..])) == Number(32, Digits(b[10..]))
    ensures a == b
  {
    hide Number, ToDigits, DigitOf;
    DigitsRoundTrip(32, Digits(a[..10]));
    DigitsRoundTrip(32, Digits(b[..10]));
    DigitsRoundTrip(32, Digits(a[10..]));
    DigitsRoundTrip(32, Digits(b[10..]));
    forall i | 0 <= i < 26 ensures a[i] == b[i] {
      if i < 10 {
        assert Digits(a[..10])[i] == Digits(b[..10])[i];
      } else {
        assert Digits(a[10..])[i - 10] == Digits(b[10..])[i - 10];
      }
      CrockfordOrder(a[i], b[i]);
      CrockfordOrder(b[i], a[i]);
    }
  }
}
