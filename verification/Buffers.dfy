/** The byte buffers of vectors/vectors.go:27-140. A float64 is its bit pattern; its conversions to
    and from float32 and small integers, which the hardware performs, are given functions. */
module Buffers {
  import opened Common
  import opened Words
  import opened FloatFormats
  import opened Narrowing
  import opened NarrowingTheorems

  datatype DataType = BFloat16 | Float16 | Float32 | Float64 | Int8 | Uint8

  datatype Error = InvalidDataType(dtype: string) | BadLength(length: nat, size: nat)

  function Parse(dtype: string): Result<DataType, Error> {
    var dt := ToLower(dtype);
    if dt == "bfloat16" then Ok(BFloat16)
    else if dt == "float16" then Ok(Float16)
    else if dt == "float32" then Ok(Float32)
    else if dt == "float64" then Ok(Float64)
    else if dt == "int8" then Ok(Int8)
    else if dt == "uint8" then Ok(Uint8)
    else Err(InvalidDataType(dtype))
  }

  function Size(dt: DataType): (n: nat)
    ensures 1 <= n <= 8
  {
    match dt
    case Float32 => 4
    case Float64 => 8
    case Float16 => 2
    case BFloat16 => 2
    case Int8 => 1
    case Uint8 => 1
  }

  /** The conversions of float64 patterns; out of range, toInt8 and toUint8 give an arbitrary byte. */
  datatype Conversions = Conversions(
    narrow: Word64 -> Word32,
    widen: Word32 -> Word64,
    toInt8: Word64 -> Word8,
    toUint8: Word64 -> Word8,
    fromInt: int -> Word64)

  /** What IEEE 754-2019 and Go promise of them: float32 and small integers are float64 values. */
  ghost predicate Faithful(conv: Conversions) {
    && (forall b: Word32 | !IsNaN32(b) :: conv.narrow(conv.widen(b)) == b)
    && (forall n | -0x80 <= n < 0x80 :: conv.toInt8(conv.fromInt(n)) == n % 0x100)
    && (forall n | 0 <= n < 0x100 :: conv.toUint8(conv.fromInt(n)) == n)
  }

  function LittleEndian(width: nat, w: nat): (s: seq<Word8>)
    ensures |s| == width
  {
    if width == 0 then [] else [w % 0x100] + LittleEndian(width - 1, w / 0x100)
  }

  function FromLittleEndian(s: seq<Word8>): nat {
    if s == [] then 0 else s[0] + 0x100 * FromLittleEndian(s[1..])
  }

  function Pow256(n: nat): (p: nat)
    ensures p > 0
  {
    if n == 0 then 1 else 0x100 * Pow256(n - 1)
  }

  lemma {:induction false} LittleEndianRoundTrip(width: nat, w: nat)
    requires w < Pow256(width)
    ensures FromLittleEndian(LittleEndian(width, w)) == w
  {
    if width == 0 {
    } else {
      LittleEndianRoundTrip(width - 1, w / 0x100);
      assert LittleEndian(width, w)[1..] == LittleEndian(width - 1, w / 0x100);
    }
  }

  lemma {:induction false} FromLittleEndianRoundTrip(s: seq<Word8>)
    ensures FromLittleEndian(s) < Pow256(|s|)
    ensures LittleEndian(|s|, FromLittleEndian(s)) == s
  {
    if s == [] {
    } else {
      FromLittleEndianRoundTrip(s[1..]);
      var rest := FromLittleEndian(s[1..]);
      assert (s[0] + 0x100 * rest) % 0x100 == s[0] && (s[0] + 0x100 * rest) / 0x100 == rest;
    }
  }

  lemma Pow256Small()
    ensures Pow256(1) == 0x100 && Pow256(2) == 0x1_0000
    ensures Pow256(4) == 0x1_0000_0000 && Pow256(8) == 0x1_0000_0000_0000_0000
  {
  }

  /** The bit pattern of one element. */
  ghost function ElementWord(conv: Conversions, dt: DataType, v: Word64): (w: nat)
    ensures w < Pow256(Size(dt))
  {
    Pow256Small();
    match dt
    case Float32 => conv.narrow(v)
    case Float64 => v
    case Float16 => NarrowHalf(conv.narrow(v))
    case BFloat16 => NarrowBFloat(conv.narrow(v))
    case Int8 => conv.toInt8(v)
    case Uint8 => conv.toUint8(v)
  }

  function ElementValue(conv: Conversions, dt: DataType, w: nat): Word64
    requires w < Pow256(Size(dt))
  {
    Pow256Small();
    match dt
    case Float32 => conv.widen(w)
    case Float64 => w
    case Float16 => conv.widen(WidenHalf(w))
    case BFloat16 => conv.widen(WidenBFloat(w))
    case Int8 => conv.fromInt(if w >= 0x80 then w - 0x100 else w)
    case Uint8 => conv.fromInt(w)
  }

  ghost function Encode(conv: Conversions, dt: DataType, values: seq<Word64>): (s: seq<Word8>)
    ensures |s| == |values| * Size(dt)
  {
    if values == [] then []
    else
      var last := |values| - 1;
      Encode(conv, dt, values[..last]) + LittleEndian(Size(dt), ElementWord(conv, dt, values[last]))
  }

  function Decode(conv: Conversions, dt: DataType, s: seq<Word8>): seq<Word64> {
    if |s| < Size(dt) then []
    else
      FromLittleEndianRoundTrip(s[..Size(dt)]);
      [ElementValue(conv, dt, FromLittleEndian(s[..Size(dt)]))] + Decode(conv, dt, s[Size(dt)..])
  }

  lemma DecodeStep(conv: Conversions, dt: DataType, s: seq<Word8>)
    ensures |s| >= Size(dt) ==>
              && FromLittleEndian(s[..Size(dt)]) < Pow256(Size(dt))
              && Decode(conv, dt, s)
                 == [ElementValue(conv, dt, FromLittleEndian(s[..Size(dt)]))] + Decode(conv, dt, s[Size(dt)..])
    ensures |s| < Size(dt) ==> Decode(conv, dt, s) == []
  {
    if |s| >= Size(dt) {
      FromLittleEndianRoundTrip(s[..Size(dt)]);
    }
  }

  /** Decoding from x on takes one element and goes on behind it. */
  lemma {:induction false} DecodeAt(conv: Conversions, dt: DataType, s: seq<Word8>, x: nat)
    requires x + Size(dt) <= |s|
    ensures var head := FromLittleEndian(s[x..x + Size(dt)]);
            && head < Pow256(Size(dt))
            && Decode(conv, dt, s[x..]) == [ElementValue(conv, dt, head)] + Decode(conv, dt, s[x + Size(dt)..])
  {
    hide Decode, ElementValue, FromLittleEndian;
    DecodeStep(conv, dt, s[x..]);
    assert s[x..][..Size(dt)] == s[x..x + Size(dt)] && s[x..][Size(dt)..] == s[x + Size(dt)..];
  }

  lemma EncodeOne(conv: Conversions, dt: DataType, v: Word64)
    ensures Encode(conv, dt, [v]) == LittleEndian(Size(dt), ElementWord(conv, dt, v))
  {
    assert [v][..0] == [];
  }

  lemma EncodeNone(conv: Conversions, dt: DataType)
    ensures Encode(conv, dt, []) == []
  {
  }

  lemma NextFits(i: nat, n: nat, size: nat)
    requires i < n
    ensures (i + 1) * size == i * size + size <= n * size
  {
    ScaleMonotone(size, i + 1, n);
  }

  /** The unsigned numbers that two, four and eight bytes write, least significant byte first. */
  function Uint16(s: seq<Word8>, at: nat): nat
    requires at + 2 <= |s|
  {
    var low: nat, high: nat := s[at], s[at + 1];
    low + 0x100 * high
  }

  function Uint32(s: seq<Word8>, at: nat): nat
    requires at + 4 <= |s|
  {
    Uint16(s, at) + 0x1_0000 * Uint16(s, at + 2)
  }

  function Uint64(s: seq<Word8>, at: nat): nat
    requires at + 8 <= |s|
  {
    Uint32(s, at) + 0x1_0000_0000 * Uint32(s, at + 4)
  }

  /** What the buffer of a data type's name must be. */
  ghost predicate IsBufferOf(conv: Conversions, name: string, values: seq<Word64>, buf: seq<Word8>) {
    var n := |values|;
    if name == "bfloat16" then
      |buf| == 2 * n && forall i | 0 <= i < n :: Uint16(buf, 2 * i) == NarrowBFloat(conv.narrow(values[i]))
    else if name == "float16" then
      |buf| == 2 * n && forall i | 0 <= i < n :: Uint16(buf, 2 * i) == NarrowHalf(conv.narrow(values[i]))
    else if name == "float32" then
      |buf| == 4 * n && forall i | 0 <= i < n :: Uint32(buf, 4 * i) == conv.narrow(values[i])
    else if name == "float64" then
      |buf| == 8 * n && forall i | 0 <= i < n :: Uint64(buf, 8 * i) == values[i]
    else if name == "int8" then
      |buf| == n && forall i | 0 <= i < n :: buf[i] == conv.toInt8(values[i])
    else
      name == "uint8" && |buf| == n && forall i | 0 <= i < n :: buf[i] == conv.toUint8(values[i])
  }

  /** The number of a byte in two's complement. */
  function Signed(b: int): int {
    if b < 0x80 then b else b - 0x100
  }

  /** What reading such a buffer must give. */
  ghost predicate AreElementsOf(conv: Conversions, name: string, buf: seq<Word8>, values: seq<Word64>) {
    var n := |values|;
    if name == "bfloat16" then
      |buf| == 2 * n && forall i | 0 <= i < n :: values[i] == conv.widen(WidenBFloat(Uint16(buf, 2 * i)))
    else if name == "float16" then
      |buf| == 2 * n && forall i | 0 <= i < n :: values[i] == conv.widen(WidenHalf(Uint16(buf, 2 * i)))
    else if name == "float32" then
      |buf| == 4 * n && forall i | 0 <= i < n :: values[i] == conv.widen(Uint32(buf, 4 * i))
    else if name == "float64" then
      |buf| == 8 * n && forall i | 0 <= i < n :: values[i] == Uint64(buf, 8 * i)
    else if name == "int8" then
      |buf| == n && forall i | 0 <= i < n :: values[i] == conv.fromInt(Signed(buf[i]))
    else
      name == "uint8" && |buf| == n && forall i | 0 <= i < n :: values[i] == conv.fromInt(buf[i])
  }

  /** The bytes of an element, zero for a name that is no data type. */
  function Width(name: string): nat {
    if name == "float64" then 8
    else if name == "float32" then 4
    else if name == "float16" || name == "bfloat16" then 2
    else if name == "int8" || name == "uint8" then 1
    else 0
  }

  /** The number that width bytes write, least significant byte first. */
  lemma {:induction false} BytesOf(s: seq<Word8>, at: nat)
    ensures at + 1 <= |s| ==> FromLittleEndian(s[at..at + 1]) == s[at]
    ensures at + 2 <= |s| ==> FromLittleEndian(s[at..at + 2]) == Uint16(s, at)
  {
    if at + 1 <= |s| {
      assert s[at..at + 1][1..] == [];
    }
    if at + 2 <= |s| {
      assert s[at..at + 2][1..] == s[at + 1..at + 2] && s[at + 1..at + 2][1..] == [];
    }
  }

  lemma {:induction false} FromLittleEndianAppend(s: seq<Word8>, t: seq<Word8>)
    ensures FromLittleEndian(s + t) == FromLittleEndian(s) + Pow256(|s|) * FromLittleEndian(t)
  {
    if s == [] {
      assert s + t == t;
    } else {
      FromLittleEndianAppend(s[1..], t);
      assert (s + t)[1..] == s[1..] + t;
      Regroup(FromLittleEndian(s[1..]), Pow256(|s| - 1), FromLittleEndian(t));
    }
  }

  lemma Regroup(low: nat, p: nat, high: nat)
    ensures 0x100 * (low + p * high) == 0x100 * low + 0x100 * p * high
  {
  }

  lemma {:induction false} MoreBytesOf(s: seq<Word8>, at: nat)
    ensures at + 4 <= |s| ==> FromLittleEndian(s[at..at + 4]) == Uint32(s, at)
    ensures at + 8 <= |s| ==> FromLittleEndian(s[at..at + 8]) == Uint64(s, at)
  {
    Pow256Small();
    if at + 4 <= |s| {
      FourBytesOf(s, at);
    }
    if at + 8 <= |s| {
      FourBytesOf(s, at + 4);
      assert s[at..at + 8] == s[at..at + 4] + s[at + 4..at + 8];
      FromLittleEndianAppend(s[at..at + 4], s[at + 4..at + 8]);
    }
  }

  lemma {:induction false} FourBytesOf(s: seq<Word8>, at: nat)
    requires at + 4 <= |s|
    ensures FromLittleEndian(s[at..at + 4]) == Uint32(s, at)
  {
    Pow256Small();
    BytesOf(s, at);
    BytesOf(s, at + 2);
    assert s[at..at + 4] == s[at..at + 2] + s[at + 2..at + 4];
    FromLittleEndianAppend(s[at..at + 2], s[at + 2..at + 4]);
  }

  lemma {:induction false} EncodedPrefix(conv: Conversions, dt: DataType, values: seq<Word64>, i: nat)
    requires i < |values|
    ensures Encode(conv, dt, values[..i]) + LittleEndian(Size(dt), ElementWord(conv, dt, values[i]))
            <= Encode(conv, dt, values)
    decreases |values|
  {
    hide ElementWord, LittleEndian, Size;
    var front := values[..|values| - 1];
    var tail := LittleEndian(Size(dt), ElementWord(conv, dt, values[|values| - 1]));
    assert Encode(conv, dt, values) == Encode(conv, dt, front) + tail;
    hide Encode;
    if i < |front| {
      EncodedPrefix(conv, dt, front, i);
      assert front[..i] == values[..i] && front[i] == values[i];
      PrefixStep(Encode(conv, dt, values[..i]) + LittleEndian(Size(dt), ElementWord(conv, dt, values[i])),
                 Encode(conv, dt, front), tail);
    }
  }

  lemma PrefixStep(s: seq<Word8>, t: seq<Word8>, more: seq<Word8>)
    requires s <= t
    ensures s <= t + more
  {
  }

  lemma MiddlePart(s: seq<Word8>, front: seq<Word8>, part: seq<Word8>)
    requires front + part <= s
    ensures s[|front|..|front| + |part|] == part
  {
    assert s[..|front| + |part|] == front + part;
  }

  /** The number that element i of an encoding writes. */
  lemma {:induction false} EncodedAt(conv: Conversions, dt: DataType, values: seq<Word64>, i: nat)
    requires i < |values|
    ensures i * Size(dt) + Size(dt) <= |Encode(conv, dt, values)|
    ensures FromLittleEndian(Encode(conv, dt, values)[i * Size(dt)..i * Size(dt) + Size(dt)])
         == ElementWord(conv, dt, values[i])
  {
    hide ElementWord, LittleEndian, FromLittleEndian, Size, Pow256, Encode;
    var w := ElementWord(conv, dt, values[i]);
    EncodedPrefix(conv, dt, values, i);
    MiddlePart(Encode(conv, dt, values), Encode(conv, dt, values[..i]), LittleEndian(Size(dt), w));
    LittleEndianRoundTrip(Size(dt), w);
  }

  /** Where element i begins. */
  function Offset(i: nat, size: nat): nat {
    if i == 0 then 0 else Offset(i - 1, size) + size
  }

  lemma {:induction false} OffsetIs(i: nat, size: nat)
    ensures Offset(i, size) == i * size
  {
    if i > 0 {
      OffsetIs(i - 1, size);
    }
  }

  lemma {:induction false} SameBytes(s: seq<Word8>, size: nat, x: nat)
    requires x + size + size <= |s|
    ensures s[size..][x..x + size] == s[x + size..x + size + size]
  {
  }

  lemma {:induction false} DecodedFrom(conv: Conversions, dt: DataType, s: seq<Word8>, i: nat)
    requires |s| % Size(dt) == 0
    ensures Offset(|Decode(conv, dt, s)|, Size(dt)) == |s|
    ensures i < |Decode(conv, dt, s)| ==>
              && Offset(i, Size(dt)) + Size(dt) <= |s|
              && var w := FromLittleEndian(s[Offset(i, Size(dt))..Offset(i, Size(dt)) + Size(dt)]);
                 w < Pow256(Size(dt)) && Decode(conv, dt, s)[i] == ElementValue(conv, dt, w)
    decreases |s|
  {
    hide ElementValue, FromLittleEndian, Size, Pow256, Decode;
    var size := Size(dt);
    DecodeStep(conv, dt, s);
    ModDrop(|s|, size);
    if |s| >= size {
      DecodedFrom(conv, dt, s[size..], if i == 0 then 0 else i - 1);
      if 0 < i < |Decode(conv, dt, s)| {
        SameBytes(s, size, Offset(i - 1, size));
      }
    }
  }

  /** The element that is decoded at place i. */
  lemma {:induction false} DecodedAt(conv: Conversions, dt: DataType, s: seq<Word8>, i: nat)
    requires |s| % Size(dt) == 0
    ensures |Decode(conv, dt, s)| * Size(dt) == |s|
    ensures i < |Decode(conv, dt, s)| ==>
              && i * Size(dt) + Size(dt) <= |s|
              && var w := FromLittleEndian(s[i * Size(dt)..i * Size(dt) + Size(dt)]);
                 w < Pow256(Size(dt)) && Decode(conv, dt, s)[i] == ElementValue(conv, dt, w)
  {
    hide ElementValue, FromLittleEndian, Size, Pow256, Decode, Offset;
    DecodedFrom(conv, dt, s, i);
    OffsetIs(i, Size(dt));
    OffsetIs(|Decode(conv, dt, s)|, Size(dt));
  }

  lemma {:induction false} EncodesAs(conv: Conversions, dtype: string, values: seq<Word64>)
    requires Parse(dtype).Ok?
    ensures IsBufferOf(conv, ToLower(dtype), values, Encode(conv, Parse(dtype).value, values))
  {
    hide ToLower, Encode, NarrowHalf, NarrowBFloat, FromLittleEndian, LittleEndian, Pow256, Uint16, Uint32, Uint64;
    var dt := Parse(dtype).value;
    var buf := Encode(conv, dt, values);
    forall i | 0 <= i < |values|
      ensures i * Size(dt) + Size(dt) <= |buf|
      ensures FromLittleEndian(buf[i * Size(dt)..i * Size(dt) + Size(dt)]) == ElementWord(conv, dt, values[i])
    {
      EncodedAt(conv, dt, values, i);
    }
    forall i | 0 <= i < |values| ensures Reads(buf, Size(dt), i * Size(dt), ElementWord(conv, dt, values[i])) {
      BytesOf(buf, i * Size(dt));
      MoreBytesOf(buf, i * Size(dt));
    }
  }

  /** The bytes at a place write the number w. */
  predicate Reads(s: seq<Word8>, size: nat, at: nat, w: nat) {
    && at + size <= |s|
    && (size == 1 ==> w == s[at])
    && (size == 2 ==> w == Uint16(s, at))
    && (size == 4 ==> w == Uint32(s, at))
    && (size == 8 ==> w == Uint64(s, at))
  }

  lemma {:induction false} DecodesAs(conv: Conversions, dtype: string, buf: seq<Word8>)
    requires Parse(dtype).Ok? && |buf| % Size(Parse(dtype).value) == 0
    ensures AreElementsOf(conv, ToLower(dtype), buf, Decode(conv, Parse(dtype).value, buf))
  {
    hide ToLower, Decode, WidenHalf, WidenBFloat, FromLittleEndian, Uint16, Uint32, Uint64;
    var dt := Parse(dtype).value;
    DecodedAt(conv, dt, buf, 0);
    var values := Decode(conv, dt, buf);
    Pow256Small();
    hide Pow256;
    forall i | 0 <= i < |values|
      ensures i * Size(dt) + Size(dt) <= |buf|
      ensures exists w: nat ::
                && w < Pow256(Size(dt)) && Reads(buf, Size(dt), i * Size(dt), w)
                && values[i] == ElementValue(conv, dt, w)
    {
      DecodedAt(conv, dt, buf, i);
      BytesOf(buf, i * Size(dt));
      MoreBytesOf(buf, i * Size(dt));
      var w := FromLittleEndian(buf[i * Size(dt)..i * Size(dt) + Size(dt)]);
      assert Reads(buf, Size(dt), i * Size(dt), w);
    }
  }

  method PutWord(buf: array<Word8>, at: nat, width: nat, w: nat)
    requires at + width <= buf.Length
    modifies buf
    ensures buf[..at] == old(buf[..at])
    ensures buf[at..at + width] == LittleEndian(width, w)
    ensures buf[at + width..] == old(buf[at + width..])
  {
    var rest := w;
    for k := 0 to width
      invariant buf[..at] == old(buf[..at])
      invariant buf[at + width..] == old(buf[at + width..])
      invariant buf[at..at + k] + LittleEndian(width - k, rest) == LittleEndian(width, w)
    {
      var low: Word8 := rest % 0x100;
      assert LittleEndian(width - k, rest) == [low] + LittleEndian(width - k - 1, rest / 0x100);
      buf[at + k] := low;
      assert buf[at..at + k + 1] == buf[at..at + k] + [low];
      rest := rest / 0x100;
    }
  }

  /** The body of the encoding loops. */
  method ElementBits(conv: Conversions, dt: DataType, v: Word64) returns (w: nat)
    ensures w == ElementWord(conv, dt, v)
  {
    hide NarrowHalf, NarrowBFloat;
    match dt {
      case Float32 => w := conv.narrow(v);
      case Float64 => w := v;
      case Float16 => w := Float32ToFloat16(conv.narrow(v));
      case BFloat16 => w := Float32ToBFloat16(conv.narrow(v));
      case Int8 => w := conv.toInt8(v);
      case Uint8 => w := conv.toUint8(v);
    }
  }

  lemma ParsesNames(dtype: string)
    ensures Width(ToLower(dtype)) == 0 ==> Parse(dtype) == Err(InvalidDataType(dtype))
    ensures Width(ToLower(dtype)) != 0 ==> Parse(dtype).Ok? && Size(Parse(dtype).value) == Width(ToLower(dtype))
  {
    hide ToLower;
  }

  method ToBuffer(conv: Conversions, values: seq<Word64>, dtype: string) returns (r: Result<seq<Word8>, Error>)
    ensures Parse(dtype).Err? ==> r == Err(Parse(dtype).error)
    ensures Parse(dtype).Ok? ==> r == Ok(Encode(conv, Parse(dtype).value, values))
    ensures Width(ToLower(dtype)) == 0 ==> r == Err(InvalidDataType(dtype))
    ensures Width(ToLower(dtype)) != 0 ==> r.Ok? && IsBufferOf(conv, ToLower(dtype), values, r.value)
  {
    ParsesNames(dtype);
    hide IsBufferOf, Width, ToLower, ElementWord, LittleEndian, Size, Parse;
    var parsed := Parse(dtype);
    if parsed.Err? {
      return Err(parsed.error);
    }
    var dt := parsed.value;
    var size := Size(dt);
    var buf := new Word8[|values| * size](_ => 0);
    for i := 0 to |values|
      invariant i * size <= buf.Length
      invariant buf[..i * size] == Encode(conv, dt, values[..i])
    {
      var w := ElementBits(conv, dt, values[i]);
      NextFits(i, |values|, size);
      PutWord(buf, i * size, size, w);
      assert values[..i + 1][..i] == values[..i];
      assert buf[..(i + 1) * size] == buf[..i * size] + buf[i * size..i * size + size];
    }
    assert values[..|values|] == values && buf[..|values| * size] == buf[..];
    EncodesAs(conv, dtype, values);
    return Ok(buf[..]);
  }

  /** The body of the decoding loop. */
  method ElementFloat(conv: Conversions, dt: DataType, w: nat) returns (v: Word64)
    requires w < Pow256(Size(dt))
    ensures v == ElementValue(conv, dt, w)
  {
    hide WidenHalf;
    Pow256Small();
    match dt {
      case Float32 => v := conv.widen(w);
      case Float64 => v := w;
      case Float16 =>
        var b := Float16ToFloat32(w);
        v := conv.widen(b);
      case BFloat16 => v := conv.widen(WidenBFloat(w));
      case Int8 => v := conv.fromInt(if w >= 0x80 then w - 0x100 else w);
      case Uint8 => v := conv.fromInt(w);
    }
  }

  /** The decoding loop. */
  method DecodeAll(conv: Conversions, dt: DataType, buf: seq<Word8>) returns (values: seq<Word64>)
    requires |buf| % Size(dt) == 0
    ensures values == Decode(conv, dt, buf)
  {
    hide ElementValue, FromLittleEndian, LittleEndian, Size, Pow256, Decode;
    var size := Size(dt);
    var n := |buf| / size;
    var out := new Word64[n];
    for i := 0 to n
      invariant n * size == |buf| && i * size <= |buf|
      invariant out[..i] + Decode(conv, dt, buf[i * size..]) == Decode(conv, dt, buf)
    {
      NextFits(i, n, size);
      var head := buf[i * size..i * size + size];
      DecodeAt(conv, dt, buf, i * size);
      out[i] := ElementFloat(conv, dt, FromLittleEndian(head));
      assert out[..i + 1] == out[..i] + [ElementValue(conv, dt, FromLittleEndian(head))];
    }
    var none := buf[n * size..];
    DecodeStep(conv, dt, none);
    assert out[..] == out[..n] + Decode(conv, dt, none);
    values := out[..];
  }

  method FromBuffer(conv: Conversions, buf: seq<Word8>, dtype: string) returns (r: Result<seq<Word64>, Error>)
    ensures Parse(dtype).Err? ==> r == Err(Parse(dtype).error)
    ensures Parse(dtype).Ok? ==>
              var dt := Parse(dtype).value;
              r == if |buf| % Size(dt) != 0 then Err(BadLength(|buf|, Size(dt))) else Ok(Decode(conv, dt, buf))
    ensures var width := Width(ToLower(dtype));
            if width == 0 then r == Err(InvalidDataType(dtype))
            else if |buf| % width != 0 then r == Err(BadLength(|buf|, width))
            else r.Ok? && AreElementsOf(conv, ToLower(dtype), buf, r.value)
  {
    ParsesNames(dtype);
    hide AreElementsOf, Width, ToLower, Size, Parse, Decode;
    var parsed := Parse(dtype);
    if parsed.Err? {
      return Err(parsed.error);
    }
    var dt := parsed.value;
    var size := Size(dt);
    if |buf| % size != 0 {
      return Err(BadLength(|buf|, size));
    }
    var values := DecodeAll(conv, dt, buf);
    DecodesAs(conv, dtype, buf);
    return Ok(values);
  }

  /** Encoding distributes over concatenation. */
  lemma {:induction false} EncodeAppend(conv: Conversions, dt: DataType, vs: seq<Word64>, ws: seq<Word64>)
    ensures Encode(conv, dt, vs + ws) == Encode(conv, dt, vs) + Encode(conv, dt, ws)
  {
    hide ElementWord, LittleEndian, Size;
    if ws == [] {
      assert vs + ws == vs;
    } else {
      var last := |ws| - 1;
      EncodeAppend(conv, dt, vs, ws[..last]);
      assert (vs + ws)[..|vs + ws| - 1] == vs + ws[..last];
    }
  }

  /** The element-wise rounding that a round trip through the buffer performs. */
  ghost function Rounded(conv: Conversions, dt: DataType, values: seq<Word64>): (s: seq<Word64>)
    ensures |s| == |values|
  {
    seq(|values|, i requires 0 <= i < |values| => ElementValue(conv, dt, ElementWord(conv, dt, values[i])))
  }

  /** Decoding an encoding rounds each element and keeps the order. */
  lemma {:induction false} DecodeEncode(conv: Conversions, dt: DataType, values: seq<Word64>)
    ensures Decode(conv, dt, Encode(conv, dt, values)) == Rounded(conv, dt, values)
  {
    hide ElementWord, ElementValue, LittleEndian, FromLittleEndian, Size, Pow256;
    if values == [] {
    } else {
      var v, rest := values[0], values[1..];
      var head := LittleEndian(Size(dt), ElementWord(conv, dt, v));
      EncodeAppend(conv, dt, [v], rest);
      assert values == [v] + rest;
      EncodeOne(conv, dt, v);
      var s := Encode(conv, dt, values);
      assert s == head + Encode(conv, dt, rest);
      assert s[..Size(dt)] == head && s[Size(dt)..] == Encode(conv, dt, rest);
      LittleEndianRoundTrip(Size(dt), ElementWord(conv, dt, v));
      DecodeEncode(conv, dt, rest);
    }
  }

  /** Small integers come back unchanged from int8 and uint8 buffers. */
  lemma {:induction false} IntegersKept(conv: Conversions, dt: DataType, ns: seq<int>, values: seq<Word64>)
    requires Faithful(conv) && |values| == |ns| && forall i | 0 <= i < |ns| :: values[i] == conv.fromInt(ns[i])
    requires || (dt == Int8 && forall i | 0 <= i < |ns| :: -0x80 <= ns[i] < 0x80)
             || (dt == Uint8 && forall i | 0 <= i < |ns| :: 0 <= ns[i] < 0x100)
    ensures Decode(conv, dt, Encode(conv, dt, values)) == values
  {
    hide Encode, Decode, NarrowHalf, NarrowBFloat;
    DecodeEncode(conv, dt, values);
    forall i | 0 <= i < |ns| ensures ElementValue(conv, dt, ElementWord(conv, dt, values[i])) == values[i] {
      assert values[i] == conv.fromInt(ns[i]);
    }
  }

  /** Whether no element of the buffer is a NaN of the narrower float formats. */
  ghost predicate NaNFree(dt: DataType, s: seq<Word8>) {
    |s| < Size(dt) ||
    (&& NotNaN(dt, FromLittleEndian(s[..Size(dt)]))
     && NaNFree(dt, s[Size(dt)..]))
  }

  predicate NotNaN(dt: DataType, w: nat) {
    match dt
    case Float32 => w % 0x8000_0000 <= INF32
    case Float16 => w % 0x8000 <= INF16
    case BFloat16 => w % 0x8000 <= INF_BF
    case _ => true
  }

  lemma HalfElement(conv: Conversions, h: Word16)
    requires Faithful(conv) && !IsNaN16(h)
    ensures NarrowHalf(conv.narrow(conv.widen(WidenHalf(h)))) == h
  {
    hide WidenHalf, NarrowHalf, Mag32, HalfGrid;
    HalfRoundTrip(h);
    WideningExact(h);
  }

  lemma BFloatElement(conv: Conversions, u: Word16)
    requires Faithful(conv) && !IsNaNBF(u)
    ensures NarrowBFloat(conv.narrow(conv.widen(WidenBFloat(u)))) == u
  {
    hide NarrowBFloat, Value32, BFloatValue;
    BFloatRoundTrip(u);
    assert u * 0x1_0000 % 0x8000_0000 == (u % 0x8000) * 0x1_0000;
  }

  lemma ElementRoundTrip(conv: Conversions, dt: DataType, w: nat)
    requires Faithful(conv)
    requires w < Pow256(Size(dt)) && NotNaN(dt, w)
    ensures ElementWord(conv, dt, ElementValue(conv, dt, w)) == w
  {
    hide WidenHalf, WidenBFloat, NarrowHalf, NarrowBFloat;
    Pow256Small();
    hide Pow256;
    match dt
    case Float16 => HalfElement(conv, w);
    case BFloat16 => BFloatElement(conv, w);
    case _ =>
  }

  lemma ModDrop(n: nat, size: nat)
    requires size > 0 && n % size == 0
    ensures n < size ==> n == 0
    ensures n >= size ==> (n - size) % size == 0
  {
    if n >= size {
      var q := n / size;
      assert n - size == size * (q - 1);
      DivModUnique(size, q - 1, 0);
    }
  }

  /** Re-encoding a decoded buffer without NaNs gives back the same bytes. */
  lemma {:induction false} EncodeDecode(conv: Conversions, dt: DataType, s: seq<Word8>)
    requires Faithful(conv)
    requires |s| % Size(dt) == 0 && NaNFree(dt, s)
    ensures Encode(conv, dt, Decode(conv, dt, s)) == s
    decreases |s|
  {
    hide ElementWord, ElementValue, NotNaN, LittleEndian, FromLittleEndian, Size, Pow256, Faithful, Decode, Encode;
    var size := Size(dt);
    ModDrop(|s|, size);
    if |s| < size {
      DecodeStep(conv, dt, s);
      EncodeNone(conv, dt);
    } else {
      var head, rest := s[..size], s[size..];
      var w := FromLittleEndian(head);
      FromLittleEndianRoundTrip(head);
      DecodeStep(conv, dt, s);
      var v := ElementValue(conv, dt, w);
      ElementRoundTrip(conv, dt, w);
      EncodeDecode(conv, dt, rest);
      EncodeAppend(conv, dt, [v], Decode(conv, dt, rest));
      EncodeOne(conv, dt, v);
      assert s == head + rest;
    }
  }
}
