/** Truncation and padding of token rows (extensions/vectorize/hf/tokenize.go:37-138). */
module Tokenize {
  import opened Pooling

  datatype Encoding = Encoding(ids: seq<int>, typeIDs: seq<int>, attentionMask: seq<int>, specialTokenMask: seq<int>)

  datatype TokenRow = TokenRow(ids: seq<int>, typeIDs: seq<int>)

  /** The length without the trailing tokens that the attention mask marks as padding. */
  function RealLength(mask: seq<int>, n: nat): (k: nat)
    requires n <= |mask|
    ensures k <= n
    ensures k > 0 ==> mask[k - 1] != 0
    ensures forall i | k <= i < n :: mask[i] == 0
  {
    if n > 0 && mask[n - 1] == 0 then RealLength(mask, n - 1) else n
  }

  function Kept(enc: Encoding): nat {
    if |enc.attentionMask| == |enc.ids| then RealLength(enc.attentionMask, |enc.ids|) else |enc.ids|
  }

  function Zeros(n: nat): (s: seq<int>)
    ensures |s| == n
  {
    seq(n, _ => 0)
  }

  /** A row is cut to maxSeq tokens, the last of which is the row's last token when that is special. */
  function Cut(s: seq<int>, maxSeq: nat, keepLast: bool): (t: seq<int>)
    requires 0 < maxSeq <= |s|
    ensures |t| == maxSeq
  {
    s[..maxSeq - 1] + [if keepLast then s[|s| - 1] else s[maxSeq - 1]]
  }

  lemma CutInTwoSteps(s: seq<int>, maxSeq: nat)
    requires 0 < maxSeq <= |s|
    ensures s[..maxSeq] == Cut(s, maxSeq, false)
    ensures s[..maxSeq][maxSeq - 1 := s[|s| - 1]] == Cut(s, maxSeq, true)
  {
  }

  /** What a truncated row must be. */
  function RowOf(enc: Encoding, maxSeq: int): TokenRow {
    var n := Kept(enc);
    var ids := enc.ids[..n];
    var types := if n <= |enc.typeIDs| then enc.typeIDs[..n] else Zeros(n);
    var special := n > 0 && |enc.specialTokenMask| >= n && enc.specialTokenMask[n - 1] == 1;
    if maxSeq > 0 && n > maxSeq then TokenRow(Cut(ids, maxSeq, special), Cut(types, maxSeq, special))
    else TokenRow(ids, types)
  }

  /** The row has the first n tokens of the encoding, up to the last one that is not padding, with type zero if
      there are too few types; or, if they are more than maxSeq, as many of them, and then the last one takes
      the last place if it is special. */
  ghost predicate IsRowOf(enc: Encoding, maxSeq: int, row: TokenRow) {
    exists n: nat ::
      && IsKept(enc, n)
      && var cut := 0 < maxSeq < n;
         && |row.ids| == |row.typeIDs| == (if cut then maxSeq else n)
         && forall i | 0 <= i < |row.ids| ::
              var special := cut && i == maxSeq - 1 && |enc.specialTokenMask| >= n && enc.specialTokenMask[n - 1] == 1;
              var source := if special then n - 1 else i;
              && row.ids[i] == enc.ids[source]
              && row.typeIDs[i] == if n <= |enc.typeIDs| then enc.typeIDs[source] else 0
  }

  /** n tokens are kept: all, or those up to the last that a mask of the same length does not mark as padding. */
  predicate IsKept(enc: Encoding, n: nat) {
    && n <= |enc.ids|
    && (|enc.attentionMask| != |enc.ids| ==> n == |enc.ids|)
    && (|enc.attentionMask| == |enc.ids| ==>
          (n > 0 ==> enc.attentionMask[n - 1] != 0) && forall i | n <= i < |enc.ids| :: enc.attentionMask[i] == 0)
  }

  lemma RowIs(enc: Encoding, maxSeq: int)
    ensures IsRowOf(enc, maxSeq, RowOf(enc, maxSeq))
  {
    assert IsKept(enc, Kept(enc));
    hide Kept, IsKept;
  }

  method RowFromEncoding(enc: Encoding, maxSeq: int) returns (row: TokenRow)
    ensures |row.typeIDs| == |row.ids|
    ensures maxSeq > 0 ==> |row.ids| <= maxSeq
    ensures row == RowOf(enc, maxSeq)
    ensures IsRowOf(enc, maxSeq, row)
  {
    RowIs(enc, maxSeq);
    hide IsRowOf;
    var n := |enc.ids|;
    if |enc.attentionMask| == n {
      while n > 0 && enc.attentionMask[n - 1] == 0
        invariant 0 <= n <= |enc.ids|
        invariant RealLength(enc.attentionMask, n) == RealLength(enc.attentionMask, |enc.ids|)
      {
        n := n - 1;
      }
    }
    row := TokenRow(enc.ids[..n], enc.typeIDs[..if n < |enc.typeIDs| then n else |enc.typeIDs|]);
    if |row.typeIDs| != |row.ids| {
      row := row.(typeIDs := seq(|row.ids|, _ => 0));
    }
    assert n == Kept(enc);
    hide RealLength, Kept;
    assert row.ids == enc.ids[..n] && row.typeIDs == if n <= |enc.typeIDs| then enc.typeIDs[..n] else Zeros(n);
    hide Zeros, Cut;
    if maxSeq > 0 && |row.ids| > maxSeq {
      CutInTwoSteps(row.ids, maxSeq);
      CutInTwoSteps(row.typeIDs, maxSeq);
      var last := |row.ids| - 1;
      var endsSpecial := |enc.specialTokenMask| > last && enc.specialTokenMask[last] == 1;
      var lastID, lastType := row.ids[last], row.typeIDs[last];
      row := TokenRow(row.ids[..maxSeq], row.typeIDs[..maxSeq]);
      if endsSpecial {
        row := TokenRow(row.ids[maxSeq - 1 := lastID], row.typeIDs[maxSeq - 1 := lastType]);
      }
    }
  }

  datatype BatchInput = BatchInput(
    batch: nat, seqLen: nat, ids: seq<int>, mask: seq<int>, typeIDs: seq<int>, rowMasks: seq<seq<int>>)

  /** The longest row's length, and at least one. */
  function LongestRow(rows: seq<TokenRow>): (n: nat)
    ensures n >= 1
    ensures forall b | 0 <= b < |rows| :: |rows[b].ids| <= n
    ensures n == 1 || exists b | 0 <= b < |rows| :: |rows[b].ids| == n
  {
    if rows == [] then 1
    else
      var rest, last := LongestRow(rows[..|rows| - 1]), rows[|rows| - 1];
      if |last.ids| > rest then |last.ids| else rest
  }

  function Padded(s: seq<int>, seqLen: nat, pad: int): (t: seq<int>)
    requires |s| <= seqLen
    ensures |t| == seqLen
  {
    s + seq(seqLen - |s|, _ => pad)
  }

  predicate Fits(rows: seq<TokenRow>, seqLen: nat) {
    forall b | 0 <= b < |rows| :: |rows[b].ids| <= seqLen && |rows[b].typeIDs| == |rows[b].ids|
  }

  datatype Matrix = Ids(pad: int) | Types | MaskOf

  /** One padded row of a matrix. */
  function MatrixRow(m: Matrix, row: TokenRow, seqLen: nat): (t: seq<int>)
    requires |row.ids| <= seqLen && |row.typeIDs| == |row.ids|
    ensures |t| == seqLen
  {
    match m
    case Ids(pad) => Padded(row.ids, seqLen, pad)
    case Types => Padded(row.typeIDs, seqLen, 0)
    case MaskOf => RowMask(|row.ids|, seqLen)
  }

  /** The rows of a matrix, one after the other. */
  function Flat(m: Matrix, rows: seq<TokenRow>, seqLen: nat): (s: seq<int>)
    requires Fits(rows, seqLen)
    ensures |s| == |rows| * seqLen
  {
    if rows == [] then []
    else
      RowFits(|rows| - 1, |rows|, seqLen);
      Flat(m, rows[..|rows| - 1], seqLen) + MatrixRow(m, rows[|rows| - 1], seqLen)
  }

  lemma FlatSplit(m: Matrix, rows: seq<TokenRow>, seqLen: nat)
    requires Fits(rows, seqLen) && rows != []
    ensures var front, last := rows[..|rows| - 1], rows[|rows| - 1];
            && Fits(front, seqLen) && |last.ids| <= seqLen && |last.typeIDs| == |last.ids|
            && Flat(m, rows, seqLen) == Flat(m, front, seqLen) + MatrixRow(m, last, seqLen)
  {
    hide MatrixRow;
  }

  lemma {:induction false} FlatPrefix(m: Matrix, rows: seq<TokenRow>, seqLen: nat, b: nat)
    requires Fits(rows, seqLen) && b < |rows|
    ensures Fits(rows[..b], seqLen)
    ensures Flat(m, rows[..b], seqLen) + MatrixRow(m, rows[b], seqLen) <= Flat(m, rows, seqLen)
    decreases |rows|
  {
    FlatSplit(m, rows, seqLen);
    var front := rows[..|rows| - 1];
    assert Fits(rows[..b], seqLen);
    hide Flat, MatrixRow, Fits;
    if b < |front| {
      FlatPrefix(m, front, seqLen, b);
      assert front[..b] == rows[..b] && front[b] == rows[b];
      PrefixStep(Flat(m, rows[..b], seqLen) + MatrixRow(m, rows[b], seqLen), Flat(m, front, seqLen),
                 MatrixRow(m, rows[|rows| - 1], seqLen));
    } else {
      assert rows[..b] == front;
    }
  }

  lemma PrefixStep(s: seq<int>, t: seq<int>, more: seq<int>)
    requires s <= t
    ensures s <= t + more
  {
  }

  /** Row b of the flat matrix is row b of the batch, padded. */
  lemma FlatRow(m: Matrix, rows: seq<TokenRow>, seqLen: nat, b: nat)
    requires Fits(rows, seqLen) && b < |rows|
    ensures b * seqLen <= (b + 1) * seqLen <= |rows| * seqLen
    ensures Flat(m, rows, seqLen)[b * seqLen..(b + 1) * seqLen] == MatrixRow(m, rows[b], seqLen)
  {
    hide Flat, MatrixRow;
    RowFits(b, |rows|, seqLen);
    FlatPrefix(m, rows, seqLen, b);
    hide Fits;
    MiddlePart(Flat(m, rows, seqLen), Flat(m, rows[..b], seqLen), MatrixRow(m, rows[b], seqLen), b * seqLen,
               (b + 1) * seqLen);
  }

  /** The cell of row b and column k: the token, its type or 1, and beyond the row the padding, 0 or 0. */
  lemma FlatCell(m: Matrix, rows: seq<TokenRow>, seqLen: nat, b: nat, k: nat)
    requires Fits(rows, seqLen) && b < |rows| && k < seqLen
    ensures b * seqLen + k < |Flat(m, rows, seqLen)|
    ensures Flat(m, rows, seqLen)[b * seqLen + k]
         == match m
            case Ids(pad) => if k < |rows[b].ids| then rows[b].ids[k] else pad
            case Types => if k < |rows[b].ids| then rows[b].typeIDs[k] else 0
            case MaskOf => if k < |rows[b].ids| then 1 else 0
  {
    MatrixCell(m, rows[b], seqLen, k);
    FlatPrefix(m, rows, seqLen, b);
    hide Flat, MatrixRow;
    CellAfter(Flat(m, rows, seqLen), Flat(m, rows[..b], seqLen), MatrixRow(m, rows[b], seqLen), k);
  }

  lemma MatrixCell(m: Matrix, row: TokenRow, seqLen: nat, k: nat)
    requires |row.ids| <= seqLen && |row.typeIDs| == |row.ids| && k < seqLen
    ensures MatrixRow(m, row, seqLen)[k]
         == match m
            case Ids(pad) => if k < |row.ids| then row.ids[k] else pad
            case Types => if k < |row.ids| then row.typeIDs[k] else 0
            case MaskOf => if k < |row.ids| then 1 else 0
  {
  }

  lemma CellAfter(s: seq<int>, front: seq<int>, part: seq<int>, k: nat)
    requires front + part <= s && k < |part|
    ensures |front| + k < |s| && s[|front| + k] == part[k]
  {
    assert (front + part)[|front| + k] == part[k];
  }

  lemma MiddlePart(s: seq<int>, front: seq<int>, part: seq<int>, x: nat, y: nat)
    requires front + part <= s && x == |front| && y == x + |part|
    ensures y <= |s| && s[x..y] == part
  {
    assert s[..y] == front + part;
  }

  method MaxLength(rows: seq<TokenRow>) returns (maxLen: nat)
    ensures maxLen == LongestRow(rows)
  {
    maxLen := 1;
    for b := 0 to |rows|
      invariant maxLen == LongestRow(rows[..b])
    {
      assert rows[..b + 1][..b] == rows[..b];
      if |rows[b].ids| > maxLen {
        maxLen := |rows[b].ids|;
      }
    }
    assert rows[..|rows|] == rows;
  }

  /** The first b rows of a matrix are written, and zeros follow. */
  ghost predicate Packed(m: Matrix, s: seq<int>, rows: seq<TokenRow>, seqLen: nat, b: nat) {
    && b <= |rows| && Fits(rows[..b], seqLen)
    && b * seqLen <= |s|
    && s[..b * seqLen] == Flat(m, rows[..b], seqLen)
    && forall k | b * seqLen <= k < |s| :: s[k] == 0
  }

  /** s' is s with row written at offset. */
  ghost predicate Wrote(s: seq<int>, s': seq<int>, offset: nat, row: seq<int>) {
    && |s'| == |s| && offset + |row| <= |s|
    && s' == s[..offset] + row + s[offset + |row|..]
  }

  lemma PackedStep(m: Matrix, s: seq<int>, s': seq<int>, rows: seq<TokenRow>, seqLen: nat, b: nat)
    requires b < |rows| && Fits(rows, seqLen)
    requires Packed(m, s, rows, seqLen, b)
    requires Wrote(s, s', b * seqLen, MatrixRow(m, rows[b], seqLen))
    ensures Packed(m, s', rows, seqLen, b + 1)
  {
    hide MatrixRow;
    RowFits(b, b + 1, seqLen);
    assert rows[..b + 1][..b] == rows[..b] && rows[..b + 1][b] == rows[b];
    assert s'[..(b + 1) * seqLen] == s[..b * seqLen] + MatrixRow(m, rows[b], seqLen);
  }

  /** The three matrices of a batch are packed as far as row b. */
  ghost predicate PackedAll(padID: int, ids: seq<int>, types: seq<int>, mask: seq<int>, rows: seq<TokenRow>,
                            seqLen: nat, b: nat) {
    && Packed(Ids(padID), ids, rows, seqLen, b)
    && Packed(Types, types, rows, seqLen, b)
    && Packed(MaskOf, mask, rows, seqLen, b)
  }

  lemma AllStep(padID: int, ids: seq<int>, ids': seq<int>, types: seq<int>, types': seq<int>, mask: seq<int>,
                mask': seq<int>, rows: seq<TokenRow>, seqLen: nat, b: nat)
    requires b < |rows| && Fits(rows, seqLen) && PackedAll(padID, ids, types, mask, rows, seqLen, b)
    requires Wrote(ids, ids', b * seqLen, MatrixRow(Ids(padID), rows[b], seqLen))
    requires Wrote(types, types', b * seqLen, MatrixRow(Types, rows[b], seqLen))
    requires Wrote(mask, mask', b * seqLen, MatrixRow(MaskOf, rows[b], seqLen))
    ensures PackedAll(padID, ids', types', mask', rows, seqLen, b + 1)
  {
    hide Packed, Wrote, MatrixRow;
    PackedStep(Ids(padID), ids, ids', rows, seqLen, b);
    PackedStep(Types, types, types', rows, seqLen, b);
    PackedStep(MaskOf, mask, mask', rows, seqLen, b);
  }

  lemma NothingPacked(padID: int, ids: seq<int>, types: seq<int>, mask: seq<int>, rows: seq<TokenRow>, seqLen: nat)
    requires forall k | 0 <= k < |ids| :: ids[k] == 0
    requires forall k | 0 <= k < |types| :: types[k] == 0
    requires forall k | 0 <= k < |mask| :: mask[k] == 0
    ensures PackedAll(padID, ids, types, mask, rows, seqLen, 0)
  {
    assert rows[..0] == [];
  }

  lemma AllPacked(padID: int, ids: seq<int>, types: seq<int>, mask: seq<int>, rows: seq<TokenRow>, seqLen: nat)
    requires PackedAll(padID, ids, types, mask, rows, seqLen, |rows|)
    requires |ids| == |types| == |mask| == |rows| * seqLen
    ensures Fits(rows, seqLen) && ids == Flat(Ids(padID), rows, seqLen)
    ensures types == Flat(Types, rows, seqLen) && mask == Flat(MaskOf, rows, seqLen)
  {
    assert rows[..|rows|] == rows;
    hide Flat, Fits;
  }

  method BuildBatch(rows: seq<TokenRow>, padID: int) returns (input: BatchInput)
    requires forall b | 0 <= b < |rows| :: |rows[b].typeIDs| == |rows[b].ids|
    ensures input.batch == |rows| && input.seqLen == LongestRow(rows)
    ensures Fits(rows, input.seqLen)
    ensures input.ids == Flat(Ids(padID), rows, input.seqLen)
    ensures input.typeIDs == Flat(Types, rows, input.seqLen)
    ensures input.mask == Flat(MaskOf, rows, input.seqLen)
    ensures |input.rowMasks| == |rows|
    ensures forall b | 0 <= b < |rows| :: input.rowMasks[b] == RowMask(|rows[b].ids|, input.seqLen)
  {
    var maxLen := MaxLength(rows);
    hide PackedAll, Flat, RowMask, LongestRow;
    var size := |rows| * maxLen;
    var ids := new int[size](_ => 0);
    var mask := new int[size](_ => 0);
    var typeIDs := new int[size](_ => 0);
    var rowMasks: seq<seq<int>> := [];
    NothingPacked(padID, ids[..], typeIDs[..], mask[..], rows, maxLen);
    for b := 0 to |rows|
      invariant PackedAll(padID, ids[..], typeIDs[..], mask[..], rows, maxLen, b)
      invariant |rowMasks| == b && forall c | 0 <= c < b :: rowMasks[c] == RowMask(|rows[c].ids|, maxLen)
    {
      var rowMask := PackRow(ids, mask, typeIDs, rows, b, maxLen, padID);
      rowMasks := rowMasks + [rowMask];
    }
    AllPacked(padID, ids[..], typeIDs[..], mask[..], rows, maxLen);
    input := BatchInput(|rows|, maxLen, ids[..], mask[..], typeIDs[..], rowMasks);
  }

  lemma ZerosFollow(padID: int, ids: seq<int>, types: seq<int>, mask: seq<int>, rows: seq<TokenRow>, seqLen: nat,
                    b: nat)
    requires PackedAll(padID, ids, types, mask, rows, seqLen, b)
    ensures forall k | b * seqLen <= k < |types| :: types[k] == 0
    ensures forall k | b * seqLen <= k < |mask| :: mask[k] == 0
  {
  }

  /** The body of the packing loop. */
  method PackRow(ids: array<int>, mask: array<int>, typeIDs: array<int>, rows: seq<TokenRow>, b: nat, maxLen: nat,
                 padID: int)
    returns (rowMask: seq<int>)
    requires ids != mask && ids != typeIDs && mask != typeIDs
    requires ids.Length == mask.Length == typeIDs.Length == |rows| * maxLen
    requires b < |rows| && Fits(rows, maxLen) && PackedAll(padID, ids[..], typeIDs[..], mask[..], rows, maxLen, b)
    modifies ids, mask, typeIDs
    ensures PackedAll(padID, ids[..], typeIDs[..], mask[..], rows, maxLen, b + 1)
    ensures rowMask == RowMask(|rows[b].ids|, maxLen)
  {
    hide PackedAll, Wrote, MatrixRow, RowMask;
    RowFits(b, |rows|, maxLen);
    ghost var ids0, types0, mask0 := ids[..], typeIDs[..], mask[..];
    ZerosFollow(padID, ids0, types0, mask0, rows, maxLen, b);
    rowMask := FillRow(ids, mask, typeIDs, rows[b], b * maxLen, maxLen, padID);
    AllStep(padID, ids0, ids[..], types0, typeIDs[..], mask0, mask[..], rows, maxLen, b);
  }

  /** One row of the three matrices. */
  method FillRow(ids: array<int>, mask: array<int>, typeIDs: array<int>, row: TokenRow, offset: nat, maxLen: nat,
                 padID: int)
    returns (rowMask: seq<int>)
    requires ids != mask && ids != typeIDs && mask != typeIDs
    requires offset + maxLen <= ids.Length == mask.Length == typeIDs.Length
    requires |row.ids| <= maxLen && |row.typeIDs| == |row.ids|
    requires forall k | offset <= k < mask.Length :: typeIDs[..][k] == 0 && mask[..][k] == 0
    modifies ids, mask, typeIDs
    ensures Wrote(old(ids[..]), ids[..], offset, MatrixRow(Ids(padID), row, maxLen))
    ensures Wrote(old(mask[..]), mask[..], offset, MatrixRow(MaskOf, row, maxLen))
    ensures Wrote(old(typeIDs[..]), typeIDs[..], offset, MatrixRow(Types, row, maxLen))
    ensures rowMask == RowMask(|row.ids|, maxLen)
  {
    var marks := new int[maxLen](_ => 0);
    var n := |row.ids|;
    for j := 0 to n
      invariant forall k | 0 <= k < ids.Length ::
                  ids[k] == if offset <= k < offset + j then row.ids[k - offset] else old(ids[k])
      invariant forall k | 0 <= k < typeIDs.Length ::
                  typeIDs[k] == if offset <= k < offset + j then row.typeIDs[k - offset] else old(typeIDs[k])
      invariant forall k | 0 <= k < mask.Length ::
                  mask[k] == if offset <= k < offset + j then 1 else old(mask[k])
      invariant forall k | 0 <= k < maxLen :: marks[k] == if k < j then 1 else 0
    {
      ids[offset + j] := row.ids[j];
      typeIDs[offset + j] := row.typeIDs[j];
      mask[offset + j] := 1;
      marks[j] := 1;
    }
    for j := n to maxLen
      modifies ids
      invariant forall k | 0 <= k < ids.Length ::
                  ids[k] == if offset <= k < offset + n then row.ids[k - offset]
                            else if offset <= k < offset + j then padID
                            else old(ids[k])
    {
      ids[offset + j] := padID;
    }
    rowMask := marks[..];
    WroteAt(old(ids[..]), ids[..], offset, MatrixRow(Ids(padID), row, maxLen));
    WroteAt(old(typeIDs[..]), typeIDs[..], offset, MatrixRow(Types, row, maxLen));
    WroteAt(old(mask[..]), mask[..], offset, MatrixRow(MaskOf, row, maxLen));
  }

  lemma WroteAt(s: seq<int>, s': seq<int>, offset: nat, row: seq<int>)
    requires |s'| == |s| && offset + |row| <= |s|
    requires forall k | 0 <= k < |s| :: s'[k] == if offset <= k < offset + |row| then row[k - offset] else s[k]
    ensures Wrote(s, s', offset, row)
  {
  }

  /** The embedding of each row does not depend on the batch it is padded in: pooling the slice of row b out
      of the model's flat output, under the mask that BuildBatch made, is pooling the row's own tokens. */
  lemma {:induction false} BatchPaddingInvariant<F>(a: Arithmetic<F>, rows: seq<TokenRow>, rowMask: seq<int>,
                                                    data: seq<F>, hidden: nat, b: nat, start: nat, size: nat,
                                                    mode: Mode)
    requires b < |rows| && size == LongestRow(rows) * hidden && start == b * size && |data| >= |rows| * size
    requires rowMask == RowMask(|rows[b].ids|, LongestRow(rows))
    requires mode == CLS ==> rows[b].ids != []
    ensures var n := |rows[b].ids|;
            && start + size <= |data| && n * hidden <= size && (mode == CLS ==> hidden <= n * hidden)
            && Pooled(a, data[start..start + size], LongestRow(rows), hidden, rowMask, mode)
               == Pooled(a, data[start..start + n * hidden], n, hidden, RowMask(n, n), mode)
  {
    hide Pooled, RowMask, LongestRow;
    RowFits(b, |rows|, size);
    PooledSlice(a, data, start, size, |rows[b].ids|, LongestRow(rows), hidden, mode);
  }

  lemma {:induction false} PooledSlice<F>(a: Arithmetic<F>, data: seq<F>, start: nat, size: nat, n: nat, seqLen: nat,
                                          hidden: nat, mode: Mode)
    requires size == seqLen * hidden && start + size <= |data| && n <= seqLen && (mode == CLS ==> n > 0)
    ensures n * hidden <= size && (mode == CLS ==> hidden <= n * hidden)
    ensures Pooled(a, data[start..start + size], seqLen, hidden, RowMask(n, seqLen), mode)
         == Pooled(a, data[start..start + n * hidden], n, hidden, RowMask(n, n), mode)
  {
    hide Pooled, RowMask;
    var tokens := data[start..start + size];
    PaddingInvariant(a, tokens, n, seqLen, hidden, mode);
    assert tokens[..n * hidden] == data[start..start + n * hidden];
  }
}
