/** Pooling of token embeddings under an attention mask (extensions/vectorize/hf/pooling.go:8-58).
    The float operations are given, so what is proved holds of the rounded arithmetic as it is. */
module Pooling {
  import opened Words

  datatype Arithmetic<!F> = Arithmetic(
    zero: F,
    negativeInfinity: F,
    add: (F, F) -> F,
    greater: (F, F) -> bool,
    /** sum / max(count, 1e-9) */
    mean: (F, nat) -> F)

  datatype Mode = Mean | CLS | Max

  /** The loops skip a token whose mask entry is zero; a token beyond the mask counts. */
  predicate Masked(mask: seq<int>, i: nat) {
    i < |mask| && mask[i] == 0
  }

  function CountTo(mask: seq<int>, i: nat): nat {
    if i == 0 then 0 else CountTo(mask, i - 1) + if Masked(mask, i - 1) then 0 else 1
  }

  /** The result of folding the first i tokens that are not masked, component by component. */
  function FoldTo<F>(step: (F, F) -> F, init: F, tokens: seq<F>, hidden: nat, mask: seq<int>, i: nat): (out: seq<F>)
    requires i * hidden <= |tokens|
    ensures |out| == hidden
  {
    if i == 0 then seq(hidden, _ => init)
    else
      RowFits(i - 1, i, hidden);
      var before := FoldTo(step, init, tokens, hidden, mask, i - 1);
      if Masked(mask, i - 1) then before else StepRow(step, before, tokens[(i - 1) * hidden..i * hidden])
  }

  function StepRow<F>(step: (F, F) -> F, before: seq<F>, row: seq<F>): (out: seq<F>)
    requires |before| == |row|
    ensures |out| == |row|
  {
    seq(|row|, j requires 0 <= j < |row| => step(before[j], row[j]))
  }

  lemma RowFits(i: nat, n: nat, hidden: nat)
    requires i < n
    ensures i * hidden + hidden == (i + 1) * hidden <= n * hidden
  {
    ScaleMonotone(hidden, i + 1, n);
  }

  function Larger<F>(a: Arithmetic<F>): (F, F) -> F {
    (best, v) => if a.greater(v, best) then v else best
  }

  /** The specification of pooling. */
  function Pooled<F>(a: Arithmetic<F>, tokens: seq<F>, seqLen: nat, hidden: nat, mask: seq<int>, mode: Mode): seq<F>
    requires seqLen * hidden <= |tokens|
    requires mode == CLS ==> hidden <= |tokens|
  {
    match mode
    case CLS => tokens[..hidden]
    case Max =>
      if CountTo(mask, seqLen) == 0 then seq(hidden, _ => a.zero)
      else FoldTo(Larger(a), a.negativeInfinity, tokens, hidden, mask, seqLen)
    case Mean =>
      var sums := FoldTo(a.add, a.zero, tokens, hidden, mask, seqLen);
      seq(hidden, j requires 0 <= j < hidden => a.mean(sums[j], CountTo(mask, seqLen)))
  }

  method PoolTokens<F>(a: Arithmetic<F>, tokens: seq<F>, seqLen: nat, hidden: nat, mask: seq<int>, mode: Mode)
    returns (pooled: seq<F>)
    requires seqLen * hidden <= |tokens|
    requires mode == CLS ==> hidden <= |tokens|
    ensures pooled == Pooled(a, tokens, seqLen, hidden, mask, mode)
    ensures |pooled| == hidden && (mode == CLS ==> forall j | 0 <= j < hidden :: pooled[j] == tokens[j])
  {
    var out := new F[hidden](_ => a.zero);
    match mode {
      case CLS =>
        for j := 0 to hidden
          invariant out[..j] == tokens[..j]
        {
          out[j] := tokens[j];
        }
      case Max =>
        PoolMax(a, tokens, seqLen, hidden, mask, out);
      case Mean =>
        PoolMean(a, tokens, seqLen, hidden, mask, out);
    }
    pooled := out[..];
  }

  method PoolMax<F>(a: Arithmetic<F>, tokens: seq<F>, seqLen: nat, hidden: nat, mask: seq<int>, out: array<F>)
    requires seqLen * hidden <= |tokens| && out.Length == hidden
    modifies out
    ensures out[..] == Pooled(a, tokens, seqLen, hidden, mask, Max)
  {
    for j := 0 to hidden
      invariant forall k | 0 <= k < j :: out[k] == a.negativeInfinity
    {
      out[j] := a.negativeInfinity;
    }
    var any := false;
    for i := 0 to seqLen
      invariant any <==> CountTo(mask, i) > 0
      invariant i * hidden <= seqLen * hidden
      invariant out[..] == FoldTo(Larger(a), a.negativeInfinity, tokens, hidden, mask, i)
    {
      RowFits(i, seqLen, hidden);
      if i < |mask| && mask[i] == 0 {
        continue;
      }
      any := true;
      var row := tokens[i * hidden..(i + 1) * hidden];
      ghost var before := out[..];
      for j := 0 to hidden
        invariant forall k | 0 <= k < j :: out[k] == Larger(a)(before[k], row[k])
        invariant forall k | j <= k < hidden :: out[k] == before[k]
      {
        if a.greater(row[j], out[j]) {
          out[j] := row[j];
        }
      }
      assert out[..] == StepRow(Larger(a), before, row);
    }
    if !any {
      for j := 0 to hidden
        invariant forall k | 0 <= k < j :: out[k] == a.zero
      {
        out[j] := a.zero;
      }
    }
  }

  method PoolMean<F>(a: Arithmetic<F>, tokens: seq<F>, seqLen: nat, hidden: nat, mask: seq<int>, out: array<F>)
    requires seqLen * hidden <= |tokens| && out.Length == hidden
    requires forall k | 0 <= k < hidden :: out[k] == a.zero
    modifies out
    ensures out[..] == Pooled(a, tokens, seqLen, hidden, mask, Mean)
  {
    var count := 0;
    for i := 0 to seqLen
      invariant count == CountTo(mask, i)
      invariant i * hidden <= seqLen * hidden
      invariant out[..] == FoldTo(a.add, a.zero, tokens, hidden, mask, i)
    {
      RowFits(i, seqLen, hidden);
      if i < |mask| && mask[i] == 0 {
        continue;
      }
      count := count + 1;
      var row := tokens[i * hidden..(i + 1) * hidden];
      ghost var before := out[..];
      for j := 0 to hidden
        invariant forall k | 0 <= k < j :: out[k] == a.add(before[k], row[k])
        invariant forall k | j <= k < hidden :: out[k] == before[k]
      {
        out[j] := a.add(out[j], row[j]);
      }
      assert out[..] == StepRow(a.add, before, row);
    }
    ghost var sums := out[..];
    for j := 0 to hidden
      invariant forall k | 0 <= k < j :: out[k] == a.mean(sums[k], count)
      invariant forall k | j <= k < hidden :: out[k] == sums[k]
    {
      out[j] := a.mean(out[j], count);
    }
  }

  /** The mask of a row of n tokens, padded to seqLen. */
  function RowMask(n: nat, seqLen: nat): (mask: seq<int>)
    requires n <= seqLen
    ensures |mask| == seqLen
  {
    seq(seqLen, j => if j < n then 1 else 0)
  }

  /** Up to the row's length, folding under the padded mask is folding the row alone; past it nothing is added. */
  lemma {:induction false} PaddingIgnored<F>(step: (F, F) -> F, init: F, tokens: seq<F>, hidden: nat, n: nat,
                                             seqLen: nat, i: nat)
    requires n <= seqLen && i <= seqLen && seqLen * hidden <= |tokens|
    ensures i * hidden <= seqLen * hidden && n * hidden <= seqLen * hidden
    ensures (if i < n then i else n) * hidden <= n * hidden
    ensures FoldTo(step, init, tokens, hidden, RowMask(n, seqLen), i)
         == FoldTo(step, init, tokens[..n * hidden], hidden, RowMask(n, n), if i < n then i else n)
  {
    ScaleMonotone(hidden, i, seqLen);
    ScaleMonotone(hidden, n, seqLen);
    ScaleMonotone(hidden, if i < n then i else n, n);
    hide StepRow;
    if i == 0 {
    } else {
      PaddingIgnored(step, init, tokens, hidden, n, seqLen, i - 1);
      assert Masked(RowMask(n, seqLen), i - 1) <==> i > n;
      assert i <= n ==> !Masked(RowMask(n, n), i - 1);
      FoldToNext(step, init, tokens, hidden, RowMask(n, seqLen), i);
      hide FoldTo, Masked, RowMask;
      if i <= n {
        RowFits(i - 1, n, hidden);
        FoldToNext(step, init, tokens[..n * hidden], hidden, RowMask(n, n), i);
        SameRow(tokens, n * hidden, (i - 1) * hidden, i * hidden);
      }
    }
  }

  lemma FoldToNext<F>(step: (F, F) -> F, init: F, tokens: seq<F>, hidden: nat, mask: seq<int>, i: nat)
    requires 0 < i && i * hidden <= |tokens|
    ensures 0 <= (i - 1) * hidden <= i * hidden == (i - 1) * hidden + hidden
    ensures var before := FoldTo(step, init, tokens, hidden, mask, i - 1);
            FoldTo(step, init, tokens, hidden, mask, i)
            == if Masked(mask, i - 1) then before else StepRow(step, before, tokens[(i - 1) * hidden..i * hidden])
  {
    RowFits(i - 1, i, hidden);
  }

  lemma {:induction false} SameRow<F>(tokens: seq<F>, n: nat, from: nat, to: nat)
    requires from <= to <= n <= |tokens|
    ensures tokens[..n][from..to] == tokens[from..to]
  {
  }

  lemma {:induction false} CountIgnoresPadding(n: nat, seqLen: nat, i: nat)
    requires n <= seqLen && i <= seqLen
    ensures CountTo(RowMask(n, seqLen), i) == CountTo(RowMask(n, n), if i < n then i else n)
  {
    if i > 0 {
      CountIgnoresPadding(n, seqLen, i - 1);
    }
  }

  /** Padding never changes a pooled embedding: pooling a padded row under its mask is pooling its tokens alone. */
  lemma PaddingInvariant<F>(a: Arithmetic<F>, tokens: seq<F>, n: nat, seqLen: nat, hidden: nat, mode: Mode)
    requires n <= seqLen && seqLen * hidden <= |tokens|
    requires mode == CLS ==> n > 0
    ensures n * hidden <= |tokens| && (mode == CLS ==> hidden <= n * hidden)
    ensures Pooled(a, tokens, seqLen, hidden, RowMask(n, seqLen), mode)
         == Pooled(a, tokens[..n * hidden], n, hidden, RowMask(n, n), mode)
  {
    ScaleMonotone(hidden, n, seqLen);
    CountIgnoresPadding(n, seqLen, seqLen);
    match mode
    case CLS =>
      ScaleMonotone(hidden, 1, n);
      assert tokens[..n * hidden][..hidden] == tokens[..hidden];
    case Max =>
      PaddingIgnored(Larger(a), a.negativeInfinity, tokens, hidden, n, seqLen, seqLen);
    case Mean =>
      PaddingIgnored(a.add, a.zero, tokens, hidden, n, seqLen, seqLen);
  }

  /** Component j of the first i tokens that are not masked, in order. */
  function Column<F>(tokens: seq<F>, hidden: nat, mask: seq<int>, i: nat, j: nat): seq<F>
    requires i * hidden <= |tokens| && j < hidden
  {
    if i == 0 then []
    else
      RowFits(i - 1, i, hidden);
      Column(tokens, hidden, mask, i - 1, j)
      + if i <= |mask| && mask[i - 1] == 0 then [] else [tokens[(i - 1) * hidden + j]]
  }

  function Fold<F>(step: (F, F) -> F, init: F, s: seq<F>): F {
    if s == [] then init else step(Fold(step, init, s[..|s| - 1]), s[|s| - 1])
  }

  lemma FoldAppend<F>(step: (F, F) -> F, init: F, s: seq<F>, x: F)
    ensures Fold(step, init, s + [x]) == step(Fold(step, init, s), x)
  {
    assert (s + [x])[..|s|] == s;
  }

  lemma CellInside(i: nat, n: nat, hidden: nat, j: nat)
    requires i < n && j < hidden
    ensures i * hidden + j < (i + 1) * hidden == i * hidden + hidden <= n * hidden
  {
    RowFits(i, n, hidden);
  }

  lemma ColumnStep<F>(tokens: seq<F>, hidden: nat, mask: seq<int>, i: nat, j: nat)
    requires (i + 1) * hidden <= |tokens| && j < hidden
    ensures i * hidden + j < |tokens| && i * hidden <= |tokens|
    ensures Column(tokens, hidden, mask, i + 1, j)
            == Column(tokens, hidden, mask, i, j) + if Masked(mask, i) then [] else [tokens[i * hidden + j]]
  {
    CellInside(i, i + 1, hidden, j);
  }

  lemma FoldToStep<F>(step: (F, F) -> F, init: F, tokens: seq<F>, hidden: nat, mask: seq<int>, i: nat, j: nat)
    requires (i + 1) * hidden <= |tokens| && j < hidden
    ensures i * hidden + j < |tokens| && i * hidden <= |tokens|
    ensures var before := FoldTo(step, init, tokens, hidden, mask, i)[j];
            FoldTo(step, init, tokens, hidden, mask, i + 1)[j]
            == if Masked(mask, i) then before else step(before, tokens[i * hidden + j])
  {
    CellInside(i, i + 1, hidden, j);
    assert tokens[i * hidden..(i + 1) * hidden][j] == tokens[i * hidden + j];
  }

  lemma {:induction false} FoldIsColumn<F>(step: (F, F) -> F, init: F, tokens: seq<F>, hidden: nat, mask: seq<int>,
                                           i: nat, j: nat)
    requires i * hidden <= |tokens| && j < hidden
    ensures FoldTo(step, init, tokens, hidden, mask, i)[j] == Fold(step, init, Column(tokens, hidden, mask, i, j))
    ensures |Column(tokens, hidden, mask, i, j)| == CountTo(mask, i)
    decreases i, 1
  {
    hide Masked, StepRow;
    if i == 0 {
    } else {
      FoldColumnStep(step, init, tokens, hidden, mask, i, j);
    }
  }

  lemma {:induction false} FoldColumnStep<F>(step: (F, F) -> F, init: F, tokens: seq<F>, hidden: nat, mask: seq<int>,
                                             i: nat, j: nat)
    requires i > 0 && i * hidden <= |tokens| && j < hidden
    ensures FoldTo(step, init, tokens, hidden, mask, i)[j] == Fold(step, init, Column(tokens, hidden, mask, i, j))
    ensures |Column(tokens, hidden, mask, i, j)| == CountTo(mask, i)
    decreases i, 0
  {
    hide FoldTo, Column, Fold, Masked;
    ColumnStep(tokens, hidden, mask, i - 1, j);
    FoldToStep(step, init, tokens, hidden, mask, i - 1, j);
    FoldIsColumn(step, init, tokens, hidden, mask, i - 1, j);
    FoldAppend(step, init, Column(tokens, hidden, mask, i - 1, j), tokens[(i - 1) * hidden + j]);
    var before := Column(tokens, hidden, mask, i - 1, j);
    assert before + [] == before;
  }

  /** The order of float values other than NaN. */
  ghost predicate Ordered<F(!new)>(a: Arithmetic<F>) {
    && (forall x: F :: !a.greater(x, x) && !a.greater(a.negativeInfinity, x))
    && (forall x: F, y: F :: !a.greater(x, y) || !a.greater(y, x))
    && (forall x: F, y: F, z: F :: !a.greater(x, y) && !a.greater(y, z) ==> !a.greater(x, z))
  }

  lemma {:induction false} LargestOf<F(!new)>(a: Arithmetic<F>, s: seq<F>)
    requires Ordered(a)
    ensures var best := Fold(Larger(a), a.negativeInfinity, s);
            (best == a.negativeInfinity || best in s) && forall x | x in s :: !a.greater(x, best)
  {
    if s == [] {
    } else {
      var front, last := s[..|s| - 1], s[|s| - 1];
      LargestOf(a, front);
      assert s == front + [last];
      var before := Fold(Larger(a), a.negativeInfinity, front);
      assert a.greater(last, before) ==> !a.greater(before, last);
    }
  }

  /** A component pooled by CLS is that of the first token, whatever the mask and the other tokens are. */
  lemma CLSComponent<F>(a: Arithmetic<F>, tokens: seq<F>, seqLen: nat, hidden: nat, mask: seq<int>, j: nat)
    requires seqLen * hidden <= |tokens| && j < hidden <= |tokens|
    ensures var pooled := Pooled(a, tokens, seqLen, hidden, mask, CLS); |pooled| == hidden && pooled[j] == tokens[j]
  {
  }

  /** A mean-pooled component is the mean of that component over the unmasked tokens. */
  lemma {:induction false} MeanComponent<F>(a: Arithmetic<F>, tokens: seq<F>, seqLen: nat, hidden: nat,
                                            mask: seq<int>, j: nat)
    requires seqLen * hidden <= |tokens| && j < hidden
    ensures var column := Column(tokens, hidden, mask, seqLen, j);
            Pooled(a, tokens, seqLen, hidden, mask, Mean)[j] == a.mean(Fold(a.add, a.zero, column), |column|)
  {
    hide Fold, Column, FoldTo, CountTo;
    FoldIsColumn(a.add, a.zero, tokens, hidden, mask, seqLen, j);
  }

  /** A max-pooled component is the greatest of that component over the unmasked tokens, or zero without any. */
  lemma {:induction false} MaxComponent<F(!new)>(a: Arithmetic<F>, tokens: seq<F>, seqLen: nat, hidden: nat,
                                          mask: seq<int>, j: nat)
    requires seqLen * hidden <= |tokens| && j < hidden && Ordered(a)
    ensures var column := Column(tokens, hidden, mask, seqLen, j);
            var best := Pooled(a, tokens, seqLen, hidden, mask, Max)[j];
            if column == [] then best == a.zero
            else (best == a.negativeInfinity || best in column) && forall x | x in column :: !a.greater(x, best)
  {
    hide Fold, Column, FoldTo, CountTo, Ordered;
    FoldIsColumn(Larger(a), a.negativeInfinity, tokens, hidden, mask, seqLen, j);
    LargestOf(a, Column(tokens, hidden, mask, seqLen, j));
  }
}
