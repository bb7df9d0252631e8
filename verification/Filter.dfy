/** Filter expressions and their rendering (filter/filter.go). Numbers are their formatted literals. */
module Filter {
  import opened Common
  import opened Escaper

  datatype Op = And | Or

  /** Nil is a nil *Expression, which the source accepts everywhere. */
  datatype Expression =
    | Nil
    | Leaf(raw: string, err: Option<string>)
    | Combined(op: Op, left: Expression, right: Expression)

  function All(): Expression {
    Leaf("*", None)
  }

  function Symbol(op: Op): string {
    match op
    case And => " "
    case Or => " | "
  }

  function Render(e: Expression): string {
    match e
    case Nil => "*"
    case Leaf(raw, _) => if raw == "" then "*" else raw
    case Combined(op, left, right) =>
      var l, r := Render(left), Render(right);
      if l == "*" && r == "*" then "*"
      else if l == "*" then r
      else if r == "*" then l
      else "(" + l + Symbol(op) + r + ")"
  }

  function Err(e: Expression): Option<string> {
    match e
    case Nil => None
    case Leaf(_, err) => err
    case Combined(_, left, right) =>
      match Err(left)
      case Some(err) => Some(err)
      case None => Err(right)
  }

  /** The leaves from left to right. */
  function Leaves(e: Expression): seq<Expression> {
    match e
    case Combined(_, left, right) => Leaves(left) + Leaves(right)
    case _ => [e]
  }

  predicate HasError(e: Expression) {
    e.Leaf? && e.err.Some?
  }

  /** The error of the first leaf that carries one. */
  function FirstError(xs: seq<Expression>): (r: Option<string>)
    ensures r.None? <==> forall i | 0 <= i < |xs| :: !HasError(xs[i])
  {
    if xs == [] then None
    else if HasError(xs[0]) then xs[0].err
    else FirstError(xs[1..])
  }

  lemma {:induction false} FirstErrorAppend(xs: seq<Expression>, ys: seq<Expression>)
    ensures FirstError(xs + ys) == if FirstError(xs).Some? then FirstError(xs) else FirstError(ys)
  {
    if xs == [] {
      assert xs + ys == ys;
    } else {
      FirstErrorAppend(xs[1..], ys);
      assert (xs + ys)[1..] == xs[1..] + ys;
    }
  }

  /** Err is nil exactly when no leaf carries an error, and otherwise the error of the first leaf that does. */
  lemma {:induction false} ErrIsFirstLeafError(e: Expression)
    ensures Err(e) == FirstError(Leaves(e))
    ensures Err(e).None? <==> forall i | 0 <= i < |Leaves(e)| :: !HasError(Leaves(e)[i])
  {
    match e
    case Combined(_, left, right) =>
      ErrIsFirstLeafError(left);
      ErrIsFirstLeafError(right);
      FirstErrorAppend(Leaves(left), Leaves(right));
    case _ =>
  }

  /** e op others[0] op ... grouped to the left. */
  function Fold(op: Op, e: Expression, others: seq<Expression>): Expression {
    if others == [] then e
    else Combined(op, Fold(op, e, others[..|others| - 1]), others[|others| - 1])
  }

  method AndAll(e: Expression, others: seq<Expression>) returns (out: Expression)
    ensures out == Fold(And, e, others)
  {
    out := e;
    for i := 0 to |others|
      invariant out == Fold(And, e, others[..i])
    {
      assert others[..i + 1][..i] == others[..i];
      out := Combined(And, out, others[i]);
    }
    assert others[..|others|] == others;
  }

  method OrAll(e: Expression, others: seq<Expression>) returns (out: Expression)
    ensures out == Fold(Or, e, others)
  {
    out := e;
    for i := 0 to |others|
      invariant out == Fold(Or, e, others[..i])
    {
      assert others[..i + 1][..i] == others[..i];
      out := Combined(Or, out, others[i]);
    }
    assert others[..|others|] == others;
  }

  /** Whether one document matches each leaf, by the leaf's position in the tree: a path of lefts (false)
      and rights (true). Positions let every occurrence of a leaf have a meaning of its own. */
  type Meaning = seq<bool> -> bool

  predicate MatchAll(e: Expression) {
    e.Nil? || (e.Leaf? && (e.raw == "" || e.raw == "*"))
  }

  /** Whether the document matches the expression as built. */
  predicate Matches(e: Expression, m: Meaning, p: seq<bool>) {
    MatchAll(e) ||
    match e
    case Nil => true
    case Leaf(_, _) => m(p)
    case Combined(And, left, right) => Matches(left, m, p + [false]) && Matches(right, m, p + [true])
    case Combined(Or, left, right) => Matches(left, m, p + [false]) || Matches(right, m, p + [true])
  }

  /** Whether it matches the rendered string, from which operands that print as "*" are missing. */
  predicate MatchesRendered(e: Expression, m: Meaning, p: seq<bool>) {
    match e
    case Nil => true
    case Leaf(_, _) => MatchAll(e) || m(p)
    case Combined(op, left, right) =>
      var l, r := Render(left), Render(right);
      if l == "*" && r == "*" then true
      else if l == "*" then MatchesRendered(right, m, p + [true])
      else if r == "*" then MatchesRendered(left, m, p + [false])
      else if op == And then MatchesRendered(left, m, p + [false]) && MatchesRendered(right, m, p + [true])
      else MatchesRendered(left, m, p + [false]) || MatchesRendered(right, m, p + [true])
  }

  /** An expression prints as "*" only when all its leaves match everything. */
  lemma {:induction false} RenderedAllMatchesAll(e: Expression, m: Meaning, p: seq<bool>)
    requires Render(e) == "*"
    ensures Matches(e, m, p) && MatchesRendered(e, m, p)
  {
    match e
    case Combined(_, left, right) =>
      RenderedAllMatchesAll(left, m, p + [false]);
      RenderedAllMatchesAll(right, m, p + [true]);
    case _ =>
  }

  /** Whatever the leaves mean, a document that matches the rendered expression matches the tree. */
  lemma {:induction false} RenderingNarrows(e: Expression, m: Meaning, p: seq<bool>)
    ensures MatchesRendered(e, m, p) ==> Matches(e, m, p)
  {
    match e
    case Combined(_, left, right) =>
      RenderingNarrows(left, m, p + [false]);
      RenderingNarrows(right, m, p + [true]);
      if Render(left) == "*" {
        RenderedAllMatchesAll(left, m, p + [false]);
      }
      if Render(right) == "*" {
        RenderedAllMatchesAll(right, m, p + [true]);
      }
    case _ =>
  }

  /** No Or has exactly one operand that prints as "*". */
  predicate NoOneSidedOr(e: Expression) {
    match e
    case Combined(op, left, right) =>
      && NoOneSidedOr(left) && NoOneSidedOr(right)
      && (op == Or ==> (Render(left) == "*" <==> Render(right) == "*"))
    case _ => true
  }

  lemma {:induction false} RenderingExact(e: Expression, m: Meaning, p: seq<bool>)
    requires NoOneSidedOr(e)
    ensures MatchesRendered(e, m, p) <==> Matches(e, m, p)
  {
    match e
    case Combined(_, left, right) =>
      RenderingExact(left, m, p + [false]);
      RenderingExact(right, m, p + [true]);
      if Render(left) == "*" {
        RenderedAllMatchesAll(left, m, p + [false]);
      }
      if Render(right) == "*" {
        RenderedAllMatchesAll(right, m, p + [true]);
      }
    case _ =>
  }

  /** The meaning where no leaf matches. */
  const NO: Meaning := p => false

  lemma {:induction false} EveryMatches(e: Expression, m: Meaning, p: seq<bool>)
    requires forall q | Below(p, q) :: m(q)
    ensures Matches(e, m, p) && MatchesRendered(e, m, p)
  {
    match e
    case Combined(_, left, right) =>
      Extend(p, false);
      Extend(p, true);
      EveryMatches(left, m, p + [false]);
      EveryMatches(right, m, p + [true]);
    case _ =>
  }

  predicate Below(p: seq<bool>, q: seq<bool>) {
    p <= q
  }

  lemma Extend(p: seq<bool>, side: bool)
    ensures forall q | Below(p + [side], q) :: Below(p, q)
  {
    forall q | Below(p + [side], q) ensures Below(p, q) {
      assert q[..|p|] == p;
    }
  }

  lemma {:induction false} NoneMatchesRendered(e: Expression, m: Meaning, p: seq<bool>)
    requires forall q | Below(p, q) :: !m(q)
    requires Render(e) != "*"
    ensures !MatchesRendered(e, m, p)
  {
    match e
    case Combined(_, left, right) =>
      Extend(p, false);
      Extend(p, true);
      if Render(left) != "*" {
        NoneMatchesRendered(left, m, p + [false]);
      }
      if Render(right) != "*" {
        NoneMatchesRendered(right, m, p + [true]);
      }
    case _ =>
  }

  /** Meanings that agree below a position agree on the expression there. */
  lemma {:induction false} Local(e: Expression, m: Meaning, m': Meaning, p: seq<bool>)
    requires forall q | Below(p, q) :: m(q) == m'(q)
    ensures Matches(e, m, p) == Matches(e, m', p)
    ensures MatchesRendered(e, m, p) == MatchesRendered(e, m', p)
  {
    match e
    case Combined(_, left, right) =>
      Extend(p, false);
      Extend(p, true);
      Local(left, m, m', p + [false]);
      Local(right, m, m', p + [true]);
    case _ =>
  }

  /** m below the side's operand, and value elsewhere. */
  function Splice(m: Meaning, at: seq<bool>, value: bool): Meaning {
    q => if Below(at, q) then m(q) else value
  }

  lemma SideApart(p: seq<bool>, side: bool, q: seq<bool>)
    requires Below(p + [!side], q)
    ensures !Below(p + [side], q)
  {
    assert (p + [!side])[|p|] == q[|p|];
    assert (p + [side])[|p|] == side;
  }

  /** With a one-sided Or somewhere, some meaning of the leaves tells the rendered string from the tree. */
  lemma {:induction false} OneSidedOrDiffers(e: Expression, p: seq<bool>) returns (m: Meaning)
    requires !NoOneSidedOr(e)
    ensures Matches(e, m, p) && !MatchesRendered(e, m, p)
  {
    var Combined(op, left, right) := e;
    if op == Or && (Render(left) == "*") != (Render(right) == "*") {
      m := NO;
      if Render(left) == "*" {
        RenderedAllMatchesAll(left, m, p + [false]);
        NoneMatchesRendered(right, m, p + [true]);
      } else {
        RenderedAllMatchesAll(right, m, p + [true]);
        NoneMatchesRendered(left, m, p + [false]);
      }
    } else {
      var side := NoOneSidedOr(left);
      var inner := if side then right else left;
      var outer := if side then left else right;
      var m' := OneSidedOrDiffers(inner, p + [side]);
      m := Splice(m', p + [side], op == And);
      Local(inner, m, m', p + [side]);
      RenderedNotAll(inner, m, p + [side]);
      forall q | Below(p + [!side], q) ensures m(q) == (op == And) {
        SideApart(p, side, q);
      }
      if op == And {
        EveryMatches(outer, m, p + [!side]);
      } else if Render(outer) != "*" {
        NoneMatchesRendered(outer, m, p + [!side]);
      }
    }
  }

  lemma RenderedNotAll(e: Expression, m: Meaning, p: seq<bool>)
    requires !MatchesRendered(e, m, p)
    ensures Render(e) != "*"
  {
    if Render(e) == "*" {
      RenderedAllMatchesAll(e, m, p);
    }
  }

  /** If every occurrence of a leaf may mean something of its own, rendering keeps the meaning of an
      expression exactly when no Or has a single operand that prints as "*". */
  lemma RenderingKeepsMeaningIff(e: Expression, p: seq<bool>)
    ensures NoOneSidedOr(e) <==> forall m: Meaning :: MatchesRendered(e, m, p) == Matches(e, m, p)
  {
    if NoOneSidedOr(e) {
      forall m: Meaning ensures MatchesRendered(e, m, p) == Matches(e, m, p) {
        RenderingExact(e, m, p);
      }
    } else {
      var m := OneSidedOrDiffers(e, p);
    }
  }

  /** The text of the leaf at a position, if it does not match everything. */
  function TextAt(e: Expression, p: seq<bool>): Option<string> {
    match e
    case Nil => None
    case Leaf(raw, _) => if p == [] && !MatchAll(e) then Some(raw) else None
    case Combined(_, left, right) => if p == [] then None else TextAt(if p[0] then right else left, p[1..])
  }

  /** A meaning that depends on the text of the leaf alone. */
  function ByText(e: Expression, t: string -> bool): Meaning {
    p => TextAt(e, p).Some? && t(TextAt(e, p).value)
  }

  /** No text occurs twice among the leaves that do not match everything. */
  ghost predicate DistinctTexts(e: Expression) {
    forall p, q | TextAt(e, p).Some? && TextAt(e, p) == TextAt(e, q) :: p == q
  }

  /** Only the meaning of leaves that do not match everything counts. */
  lemma {:induction false} LeavesDecide(e: Expression, m: Meaning, m': Meaning, p: seq<bool>)
    requires forall q | TextAt(e, q).Some? :: m(p + q) == m'(p + q)
    ensures Matches(e, m, p) == Matches(e, m', p)
    ensures MatchesRendered(e, m, p) == MatchesRendered(e, m', p)
  {
    match e
    case Leaf(_, _) =>
      assert p + [] == p;
      assert MatchAll(e) || TextAt(e, []).Some?;
    case Combined(_, left, right) =>
      SideLeaves(e, m, m', p, false);
      SideLeaves(e, m, m', p, true);
      LeavesDecide(left, m, m', p + [false]);
      LeavesDecide(right, m, m', p + [true]);
    case _ =>
  }

  lemma {:induction false} SideLeaves(e: Expression, m: Meaning, m': Meaning, p: seq<bool>, side: bool)
    requires e.Combined? && forall q | TextAt(e, q).Some? :: m(p + q) == m'(p + q)
    ensures forall q | TextAt(if side then e.right else e.left, q).Some? :: m(p + [side] + q) == m'(p + [side] + q)
  {
    forall q | TextAt(if side then e.right else e.left, q).Some? ensures m(p + [side] + q) == m'(p + [side] + q) {
      assert ([side] + q)[1..] == q && TextAt(e, [side] + q).Some?;
      assert p + [side] + q == p + ([side] + q);
    }
  }

  /** When no text occurs twice, every meaning by position is a meaning by text. */
  lemma {:induction false} TextsDecide(e: Expression, m: Meaning) returns (t: string -> bool)
    requires DistinctTexts(e)
    ensures Matches(e, ByText(e, t), []) == Matches(e, m, [])
    ensures MatchesRendered(e, ByText(e, t), []) == MatchesRendered(e, m, [])
  {
    t := text => exists p :: TextAt(e, p) == Some(text) && m(p);
    forall q | TextAt(e, q).Some? ensures ByText(e, t)([] + q) == m([] + q) {
      assert [] + q == q;
      if p :| TextAt(e, p) == TextAt(e, q) && m(p) {
        assert p == q;
      }
    }
    LeavesDecide(e, ByText(e, t), m, []);
  }

  /** If equal leaves mean the same, which is what the rendered string says, and no text occurs twice,
      rendering keeps the meaning exactly when no Or has a single operand that prints as "*". */
  lemma {:induction false} RenderingKeepsTextMeaningIff(e: Expression)
    requires DistinctTexts(e)
    ensures NoOneSidedOr(e) <==>
              forall t: string -> bool :: MatchesRendered(e, ByText(e, t), []) == Matches(e, ByText(e, t), [])
  {
    if NoOneSidedOr(e) {
      forall t: string -> bool ensures MatchesRendered(e, ByText(e, t), []) == Matches(e, ByText(e, t), []) {
        RenderingExact(e, ByText(e, t), []);
      }
    } else {
      var m := OneSidedOrDiffers(e, []);
      var t := TextsDecide(e, m);
      assert MatchesRendered(e, ByText(e, t), []) != Matches(e, ByText(e, t), []);
    }
  }

  /** With a text that occurs twice an Or with a match-all operand may do no harm: x | (x (* | y)) and its
      rendering x | (x y) both match what x matches. */
  lemma {:induction false} RepeatedTextKeepsMeaning(x: string, y: string, t: string -> bool)
    requires x != "" && x != "*" && y != "" && y != "*"
    ensures var e := Combined(Or, Leaf(x, None), Combined(And, Leaf(x, None), Combined(Or, All(), Leaf(y, None))));
            && !NoOneSidedOr(e) && !DistinctTexts(e)
            && MatchesRendered(e, ByText(e, t), []) == Matches(e, ByText(e, t), [])
  {
    var inner := Combined(And, Leaf(x, None), Combined(Or, All(), Leaf(y, None)));
    var e := Combined(Or, Leaf(x, None), inner);
    assert [false][1..] == [] && [true, false][1..] == [false];
    var leaf: Expression := Leaf(x, None);
    assert TextAt(leaf, []) == Some(x);
    assert TextAt(e, [false]) == Some(x) && TextAt(inner, [false]) == Some(x);
    assert TextAt(e, [true, false]) == Some(x);
    assert [] + [false] == [false] && [] + [true] + [false] == [true, false];
    var m := ByText(e, t);
    assert m([false]) == t(x) == m([true, false]);
    assert Render(inner.right) == y && !NoOneSidedOr(inner.right);
    assert !NoOneSidedOr(inner);
    assert Render(inner)[0] == '(' && Render(leaf) == x;
    assert [true] + [false] == [true, false];
    assert Matches(leaf, m, [true] + [false]) == MatchesRendered(leaf, m, [true] + [false]) == m([true, false]);
    assert Matches(inner, m, [true]) ==> m([true, false]);
    assert MatchesRendered(inner, m, [true]) ==> m([true, false]);
    assert [] + [true] == [true];
    assert Matches(leaf, m, [false]) == MatchesRendered(leaf, m, [false]) == t(x);
  }

  function Lefts(n: nat): seq<bool> {
    seq(n, _ => false)
  }

  /** The position of operand i of n after e, in the left-grouped fold. */
  function Operand(p: seq<bool>, n: nat, i: nat): seq<bool>
    requires i < n
  {
    p + Lefts(n - 1 - i) + [true]
  }

  /** Variadic And is the intersection of all its operands, and Or the union. */
  lemma {:induction false} FoldMeaning(op: Op, e: Expression, others: seq<Expression>, m: Meaning, p: seq<bool>)
    ensures var n := |others|;
            var first := Matches(e, m, p + Lefts(n));
            Matches(Fold(op, e, others), m, p) <==>
              if op == And then first && forall i | 0 <= i < n :: Matches(others[i], m, Operand(p, n, i))
              else first || exists i | 0 <= i < n :: Matches(others[i], m, Operand(p, n, i))
  {
    var n := |others|;
    if n == 0 {
      assert p + Lefts(0) == p;
    } else {
      var front := others[..n - 1];
      FoldMeaning(op, e, front, m, p + [false]);
      assert p + [false] + Lefts(n - 1) == p + Lefts(n);
      assert Operand(p, n, n - 1) == p + [true];
      forall i | 0 <= i < n - 1 ensures Operand(p + [false], n - 1, i) == Operand(p, n, i) && front[i] == others[i] {
        assert p + [false] + Lefts(n - 2 - i) == p + Lefts(n - 1 - i);
      }
      var f := Fold(op, e, others);
      assert f == Combined(op, Fold(op, e, front), others[n - 1]);
      if op == Or {
        if i :| 0 <= i < n && Matches(others[i], m, Operand(p, n, i)) {
          assert i < n - 1 ==> Matches(front[i], m, Operand(p + [false], n - 1, i));
        }
        if i :| 0 <= i < n - 1 && Matches(front[i], m, Operand(p + [false], n - 1, i)) {
          assert Matches(others[i], m, Operand(p, n, i));
        }
      }
    }
  }

  /** The values that formatValues keeps, escaped and joined with bars. */
  function FormatValues(values: seq<string>, preserveWildcards: bool): string {
    JoinBars(EscapedValues(values, preserveWildcards))
  }

  function EscapedValues(values: seq<string>, preserveWildcards: bool): seq<string> {
    if values == [] then []
    else
      var last := |values| - 1;
      EscapedValues(values[..last], preserveWildcards)
      + if values[last] == "" then [] else [EscapeToken(values[last], preserveWildcards)]
  }

  /** strings.Join(parts, "|") */
  function JoinBars(parts: seq<string>): string {
    if |parts| == 0 then ""
    else if |parts| == 1 then parts[0]
    else parts[0] + "|" + JoinBars(parts[1..])
  }

  method FormatTagValues(values: seq<string>, preserveWildcards: bool) returns (s: string)
    ensures s == FormatValues(values, preserveWildcards)
  {
    var escaped: seq<string> := [];
    for i := 0 to |values|
      invariant escaped == EscapedValues(values[..i], preserveWildcards)
    {
      assert values[..i + 1][..i] == values[..i];
      if values[i] == "" {
        continue;
      }
      escaped := escaped + [EscapeToken(values[i], preserveWildcards)];
    }
    assert values[..|values|] == values;
    s := JoinBars(escaped);
  }

  function TagEq(field: string, values: seq<string>): Expression {
    var formatted := FormatValues(values, false);
    if formatted == "" then All() else Leaf("@" + field + ":{" + formatted + "}", None)
  }

  function TagNe(field: string, values: seq<string>): Expression {
    var formatted := FormatValues(values, false);
    if formatted == "" then All() else Leaf("(-@" + field + ":{" + formatted + "})", None)
  }

  function IsMissing(field: string): Expression {
    Leaf("ismissing(@" + field + ")", None)
  }

  function NumEq(field: string, v: string): Expression {
    Leaf("@" + field + ":[" + v + " " + v + "]", None)
  }

  function NumNe(field: string, v: string): Expression {
    Leaf("(-@" + field + ":[" + v + " " + v + "])", None)
  }

  function NumGt(field: string, v: string): Expression {
    Leaf("@" + field + ":[(" + v + " +inf]", None)
  }

  function NumLt(field: string, v: string): Expression {
    Leaf("@" + field + ":[-inf (" + v + "]", None)
  }

  function NumGe(field: string, v: string): Expression {
    Leaf("@" + field + ":[" + v + " +inf]", None)
  }

  function NumLe(field: string, v: string): Expression {
    Leaf("@" + field + ":[-inf " + v + "]", None)
  }

  /** An inclusive argument other than the three named ones means both sides, as in the source. */
  function NumBetween(field: string, start: string, end: string, inclusive: string): Expression {
    if inclusive == "neither" then Leaf("@" + field + ":[(" + start + " (" + end + "]", None)
    else if inclusive == "left" then Leaf("@" + field + ":[" + start + " (" + end + "]", None)
    else if inclusive == "right" then Leaf("@" + field + ":[(" + start + " " + end + "]", None)
    else Leaf("@" + field + ":[" + start + " " + end + "]", None)
  }
}
