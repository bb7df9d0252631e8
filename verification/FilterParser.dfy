/** A parser of the rendered filter language, as the specification that rendering must meet: parsing
    a rendered tree of builder calls gives back the tree without its match-all operands. */
module FilterParser {
  import opened Common
  import opened Escaper
  import opened Filter

  /** What a query string says. */
  datatype Query =
    | Everything
    | Tags(field: string, negated: bool, values: seq<string>)
    | Range(field: string, negated: bool, lowOpen: bool, low: string, highOpen: bool, high: string)
    | Missing(field: string)
    | Joined(op: Op, left: Query, right: Query)

  /** The part of s before the first c, and the part after it. */
  function Cut(s: string, c: char): (r: Option<(string, string)>)
    ensures r.Some? ==> |r.value.0| + |r.value.1| + 1 == |s|
  {
    if s == "" then None
    else if s[0] == c then Some(("", s[1..]))
    else
      match Cut(s[1..], c)
      case Some((before, after)) => Some(([s[0]] + before, after))
      case None => None
  }

  /** The characters that mean something in a query unless a backslash comes before them. */
  const PUNCTUATION := "!\"#$%&'()*+,-./:;<=>?@[\\]^{}~ "

  /** Tag values up to the closing brace; cur is the part of the current value already read. Every other
      punctuation must come after a backslash. */
  function ReadTags(s: string, cur: string): (r: Option<(seq<string>, string)>)
    ensures r.Some? ==> |r.value.1| < |s|
  {
    if s == "" then None
    else if s[0] == '}' then Some(([cur], s[1..]))
    else if s[0] == '|' then Prepend([cur], ReadTags(s[1..], ""))
    else if s[0] == '\\' && |s| > 1 then ReadTags(s[2..], cur + [s[1]])
    else if s[0] in PUNCTUATION then None
    else ReadTags(s[1..], cur + [s[0]])
  }

  function Prepend(done: seq<string>, r: Option<(seq<string>, string)>): Option<(seq<string>, string)> {
    match r
    case Some((values, rest)) => Some((done + values, rest))
    case None => None
  }

  /** An open mark, or none. */
  function ReadOpen(s: string): (bool, string) {
    if |s| > 0 && s[0] == '(' then (true, s[1..]) else (false, s)
  }

  function ReadRange(field: string, negated: bool, s: string): (r: Option<(Query, string)>)
    ensures r.Some? ==> |r.value.1| < |s|
  {
    var (lowOpen, s1) := ReadOpen(s);
    match Cut(s1, ' ')
    case None => None
    case Some((low, s2)) =>
      var (highOpen, s3) := ReadOpen(s2);
      match Cut(s3, ']')
      case None => None
      case Some((high, rest)) => Some((Range(field, negated, lowOpen, low, highOpen, high), rest))
  }

  /** A field clause after its "@". */
  function ReadField(negated: bool, s: string): (r: Option<(Query, string)>)
    ensures r.Some? ==> |r.value.1| < |s|
  {
    match Cut(s, ':')
    case None => None
    case Some((field, body)) =>
      if body == "" then None
      else if body[0] == '{' then
        match ReadTags(body[1..], "")
        case Some((values, rest)) => Some((Tags(field, negated, values), rest))
        case None => None
      else if body[0] == '[' then ReadRange(field, negated, body[1..])
      else None
  }

  function Close(r: Option<(Query, string)>): Option<(Query, string)> {
    match r
    case Some((q, rest)) => if |rest| > 0 && rest[0] == ')' then Some((q, rest[1..])) else None
    case None => None
  }

  function ReadQuery(s: string): (r: Option<(Query, string)>)
    ensures r.Some? ==> |r.value.1| < |s|
    decreases |s|
  {
    if "@" <= s then ReadField(false, s[1..])
    else if "(-@" <= s then Close(ReadField(true, s[3..]))
    else if "ismissing(@" <= s then
      match Cut(s[11..], ')')
      case Some((field, rest)) => Some((Missing(field), rest))
      case None => None
    else if "(" <= s then
      match ReadQuery(s[1..])
      case None => None
      case Some((left, rest)) =>
        if " | " <= rest then Close(Join(Or, left, ReadQuery(rest[3..])))
        else if " " <= rest then Close(Join(And, left, ReadQuery(rest[1..])))
        else None
    else None
  }

  function Join(op: Op, left: Query, r: Option<(Query, string)>): Option<(Query, string)> {
    match r
    case Some((right, rest)) => Some((Joined(op, left, right), rest))
    case None => None
  }

  function Parse(s: string): Option<Query> {
    if s == "*" then Some(Everything)
    else
      match ReadQuery(s)
      case Some((q, rest)) => if rest == "" then Some(q) else None
      case None => None
  }

  /** A call of one of the leaf builders. */
  datatype Call =
    | CallAll
    | CallTagEq(field: string, values: seq<string>)
    | CallTagNe(field: string, values: seq<string>)
    | CallMissing(field: string)
    | CallNumEq(field: string, v: string)
    | CallNumNe(field: string, v: string)
    | CallNumGt(field: string, v: string)
    | CallNumLt(field: string, v: string)
    | CallNumGe(field: string, v: string)
    | CallNumLe(field: string, v: string)
    | CallNumBetween(field: string, start: string, end: string, inclusive: string)

  datatype Tree = Builder(call: Call) | Combine(op: Op, left: Tree, right: Tree)

  function BuildCall(c: Call): Expression {
    match c
    case CallAll => All()
    case CallTagEq(f, values) => TagEq(f, values)
    case CallTagNe(f, values) => TagNe(f, values)
    case CallMissing(f) => IsMissing(f)
    case CallNumEq(f, v) => NumEq(f, v)
    case CallNumNe(f, v) => NumNe(f, v)
    case CallNumGt(f, v) => NumGt(f, v)
    case CallNumLt(f, v) => NumLt(f, v)
    case CallNumGe(f, v) => NumGe(f, v)
    case CallNumLe(f, v) => NumLe(f, v)
    case CallNumBetween(f, start, end, inclusive) => NumBetween(f, start, end, inclusive)
  }

  function Build(t: Tree): Expression {
    match t
    case Builder(c) => BuildCall(c)
    case Combine(op, left, right) => Combined(op, Build(left), Build(right))
  }

  /** Values that the printed v stands for: bars are not escaped, so each one splits v. The last piece is apart. */
  function Pieces(v: string, cur: string): (seq<string>, string) {
    if v == "" then ([], cur)
    else if v[0] == '|' then
      var (done, last) := Pieces(v[1..], "");
      ([cur] + done, last)
    else Pieces(v[1..], cur + [v[0]])
  }

  /** The values that a tag filter prints: those that are not empty, split at their bars. */
  function PrintedValues(values: seq<string>): seq<string> {
    if values == [] then []
    else
      var (done, last) := Pieces(values[0], "");
      (if values[0] == "" then [] else done + [last]) + PrintedValues(values[1..])
  }

  /** What a builder call means. */
  function CallQuery(c: Call): Query {
    match c
    case CallAll => Everything
    case CallTagEq(f, values) =>
      if PrintedValues(values) == [] then Everything else Tags(f, false, PrintedValues(values))
    case CallTagNe(f, values) =>
      if PrintedValues(values) == [] then Everything else Tags(f, true, PrintedValues(values))
    case CallMissing(f) => Missing(f)
    case CallNumEq(f, v) => Range(f, false, false, v, false, v)
    case CallNumNe(f, v) => Range(f, true, false, v, false, v)
    case CallNumGt(f, v) => Range(f, false, true, v, false, "+inf")
    case CallNumLt(f, v) => Range(f, false, false, "-inf", true, v)
    case CallNumGe(f, v) => Range(f, false, false, v, false, "+inf")
    case CallNumLe(f, v) => Range(f, false, false, "-inf", false, v)
    case CallNumBetween(f, start, end, inclusive) =>
      Range(f, false, inclusive == "neither" || inclusive == "right", start,
            inclusive == "neither" || inclusive == "left", end)
  }

  /** The tree with its match-all operands removed. */
  function Normalize(t: Tree): Query {
    match t
    case Builder(c) => CallQuery(c)
    case Combine(op, left, right) =>
      var l, r := Normalize(left), Normalize(right);
      if l == Everything then r
      else if r == Everything then l
      else Joined(op, l, r)
  }

  /** A formatted number has no delimiter. */
  predicate IsNumber(s: string) {
    forall i | 0 <= i < |s| :: s[i] !in " ()[]"
  }

  predicate WellFormedCall(c: Call) {
    match c
    case CallAll => true
    case CallMissing(f) => ')' !in f
    case CallNumBetween(f, start, end, _) => ':' !in f && IsNumber(start) && IsNumber(end)
    case CallTagEq(f, _) => ':' !in f
    case CallTagNe(f, _) => ':' !in f
    case _ => ':' !in c.field && IsNumber(c.v)
  }

  predicate WellFormed(t: Tree) {
    match t
    case Builder(c) => WellFormedCall(c)
    case Combine(_, left, right) => WellFormed(left) && WellFormed(right)
  }

  lemma {:induction false} CutAt(before: string, c: char, after: string)
    requires c !in before
    ensures Cut(before + [c] + after, c) == Some((before, after))
  {
    var s := before + [c] + after;
    if before == "" {
      assert s[1..] == after;
    } else {
      CutAt(before[1..], c, after);
      assert before == [before[0]] + before[1..];
      assert s[0] == before[0] && s[1..] == before[1..] + [c] + after;
    }
  }

  lemma ReadStep(c: char, s: string, cur: string)
    ensures ReadTags(['\\', c] + s, cur) == ReadTags(s, cur + [c])
    ensures ReadTags(['|'] + s, cur) == Prepend([cur], ReadTags(s, ""))
    ensures c !in PUNCTUATION && c != '|' ==> ReadTags([c] + s, cur) == ReadTags(s, cur + [c])
  {
    assert PUNCTUATION[23] == '\\' && PUNCTUATION[27] == '}';
    assert (['\\', c] + s)[2..] == s;
    assert (['|'] + s)[1..] == s;
    assert ([c] + s)[1..] == s;
  }

  lemma EscapeHead(v: string, rest: string)
    requires v != ""
    ensures EscapeToken(v, false) + rest
         == (if IsSpecial(v[0], false) then ['\\', v[0]] else [v[0]]) + (EscapeToken(v[1..], false) + rest)
  {
    hide IsSpecial;
  }

  lemma EscapeNothing(rest: string)
    ensures EscapeToken("", false) + rest == rest
  {
  }

  lemma PunctuationEscaped(c: char)
    ensures c in PUNCTUATION <==> IsSpecial(c, false)
    ensures !IsSpecial('|', false)
  {
    if c in PUNCTUATION {
      var i :| 0 <= i < |PUNCTUATION| && PUNCTUATION[i] == c;
    }
  }

  /** Reading past one escaped value. */
  lemma {:induction false} ReadEscaped(v: string, cur: string, rest: string)
    ensures var (done, last) := Pieces(v, cur);
            ReadTags(EscapeToken(v, false) + rest, cur) == Prepend(done, ReadTags(rest, last))
  {
    hide IsSpecial, ReadTags, Prepend, EscapeToken;
    if v == "" {
      EscapeNothing(rest);
      PrependNone(ReadTags(rest, cur));
    } else {
      var c, s := v[0], EscapeToken(v[1..], false) + rest;
      PunctuationEscaped(c);
      EscapeHead(v, rest);
      ReadStep(c, s, cur);
      if c == '|' {
        ReadEscaped(v[1..], "", rest);
        var (done, last) := Pieces(v[1..], "");
        PrependTwice([cur], done, ReadTags(rest, last));
      } else {
        ReadEscaped(v[1..], cur + [c], rest);
      }
    }
  }

  lemma PrependNone(r: Option<(seq<string>, string)>)
    ensures Prepend([], r) == r
  {
    if r.Some? {
      assert [] + r.value.0 == r.value.0;
    }
  }

  lemma PrependTwice(a: seq<string>, b: seq<string>, r: Option<(seq<string>, string)>)
    ensures Prepend(a, Prepend(b, r)) == Prepend(a + b, r)
  {
    if r.Some? {
      assert a + (b + r.value.0) == (a + b) + r.value.0;
    }
  }

  /** The values that formatValues keeps. */
  function NonEmpty(values: seq<string>): seq<string> {
    if values == [] then []
    else (if values[0] == "" then [] else [values[0]]) + NonEmpty(values[1..])
  }

  function Escaped(values: seq<string>, preserveWildcards: bool): seq<string> {
    if values == [] then []
    else [EscapeToken(values[0], preserveWildcards)] + Escaped(values[1..], preserveWildcards)
  }

  lemma {:induction false} EscapedValuesFront(v: string, values: seq<string>, preserveWildcards: bool)
    ensures EscapedValues([v] + values, preserveWildcards)
         == (if v == "" then [] else [EscapeToken(v, preserveWildcards)]) + EscapedValues(values, preserveWildcards)
  {
    hide EscapeToken;
    var all := [v] + values;
    if values == [] {
      assert all[..0] == [];
    } else {
      EscapedValuesFront(v, values[..|values| - 1], preserveWildcards);
      assert all[..|all| - 1] == [v] + values[..|values| - 1];
    }
  }

  /** The values that are formatted are those that are not empty, each of them escaped, in order. */
  lemma {:induction false} EscapedValuesKeep(values: seq<string>, preserveWildcards: bool)
    ensures EscapedValues(values, preserveWildcards) == Escaped(NonEmpty(values), preserveWildcards)
  {
    hide EscapeToken;
    if values == [] {
    } else {
      assert values == [values[0]] + values[1..];
      EscapedValuesFront(values[0], values[1..], preserveWildcards);
      EscapedValuesKeep(values[1..], preserveWildcards);
      var rest := NonEmpty(values[1..]);
      assert NonEmpty(values) == if values[0] == "" then rest else [values[0]] + rest;
      assert ([values[0]] + rest)[1..] == rest;
    }
  }

  lemma {:induction false} PrintedValuesKeep(values: seq<string>)
    ensures PrintedValues(NonEmpty(values)) == PrintedValues(values)
  {
    if values == [] {
    } else {
      PrintedValuesKeep(values[1..]);
      var rest := NonEmpty(values[1..]);
      if values[0] != "" {
        assert NonEmpty(values) == [values[0]] + rest;
        assert ([values[0]] + rest)[1..] == rest;
      } else {
        assert NonEmpty(values) == rest;
        assert PrintedValues(values) == PrintedValues(values[1..]);
      }
    }
  }

  predicate NoneEmpty(values: seq<string>) {
    forall i | 0 <= i < |values| :: values[i] != ""
  }

  lemma {:induction false} NonEmptyHolds(values: seq<string>)
    ensures NoneEmpty(NonEmpty(values))
  {
    if values == [] {
    } else {
      NonEmptyHolds(values[1..]);
    }
  }

  /** The reader gets back every printed value and stops behind the closing brace. */
  lemma {:induction false} ReadJoined(values: seq<string>, rest: string)
    requires |values| > 0 && NoneEmpty(values)
    ensures ReadTags(JoinBars(Escaped(values, false)) + "}" + rest, "") == Some((PrintedValues(values), rest))
    ensures JoinBars(Escaped(values, false)) != "" && PrintedValues(values) != []
  {
    hide ReadTags, EscapeToken, Pieces;
    var head := EscapeToken(values[0], false);
    EscapedNotEmpty(values[0]);
    var (done, last) := Pieces(values[0], "");
    if |values| == 1 {
      var tail := "}" + rest;
      assert JoinBars(Escaped(values, false)) + "}" + rest == head + tail;
      ReadEscaped(values[0], "", tail);
      ReadClose(last, rest);
      assert PrintedValues(values) == done + [last];
    } else {
      var joined := JoinBars(Escaped(values[1..], false));
      var next := joined + "}" + rest;
      assert Escaped(values, false)[1..] == Escaped(values[1..], false);
      assert JoinBars(Escaped(values, false)) + "}" + rest == head + (['|'] + next);
      ReadEscaped(values[0], "", ['|'] + next);
      ReadStep('|', next, last);
      ReadJoined(values[1..], rest);
      PrependTwice(done, [last], ReadTags(next, ""));
      assert PrintedValues(values) == done + [last] + PrintedValues(values[1..]);
    }
  }

  lemma ReadClose(cur: string, rest: string)
    ensures ReadTags("}" + rest, cur) == Some(([cur], rest))
  {
    assert ("}" + rest)[1..] == rest;
  }

  lemma EscapedNotEmpty(v: string)
    requires v != ""
    ensures EscapeToken(v, false) != ""
  {
  }

  /** What a tag filter prints in its braces, and what reading it gives. */
  lemma {:induction false} TagBody(values: seq<string>, rest: string)
    ensures FormatValues(values, false) == "" <==> PrintedValues(values) == []
    ensures PrintedValues(values) != [] ==>
              ReadTags(FormatValues(values, false) + "}" + rest, "") == Some((PrintedValues(values), rest))
  {
    hide ReadTags, EscapeToken, Pieces;
    var kept := NonEmpty(values);
    EscapedValuesKeep(values, false);
    PrintedValuesKeep(values);
    NonEmptyHolds(values);
    if kept != [] {
      ReadJoined(kept, rest);
    }
  }

  function Mark(open: bool): string {
    if open then "(" else ""
  }

  /** A numeric clause after its "@". */
  function RangeText(field: string, lowOpen: bool, low: string, highOpen: bool, high: string): string {
    field + ":[" + Mark(lowOpen) + low + " " + Mark(highOpen) + high + "]"
  }

  lemma ReadMark(open: bool, number: string, c: char, rest: string)
    requires IsNumber(number)
    requires c != '('
    ensures ReadOpen(Mark(open) + number + [c] + rest) == (open, number + [c] + rest)
  {
    var s := Mark(open) + number + [c] + rest;
    if open {
      assert s[1..] == number + [c] + rest;
    } else {
      assert s == number + [c] + rest;
      assert s[0] == if number == "" then c else number[0];
    }
  }

  lemma NumberHasNo(s: string, c: char)
    requires IsNumber(s) && (c == ' ' || c == ']')
    ensures c !in s
  {
    assert " ()[]"[0] == ' ' && " ()[]"[4] == ']';
  }

  lemma {:induction false} ReadRangeText(field: string, negated: bool, lowOpen: bool, low: string, highOpen: bool,
                                         high: string, rest: string)
    requires ':' !in field && IsNumber(low) && IsNumber(high)
    ensures ReadField(negated, RangeText(field, lowOpen, low, highOpen, high) + rest)
         == Some((Range(field, negated, lowOpen, low, highOpen, high), rest))
  {
    hide IsNumber, Cut, Mark, ReadOpen;
    var upper := Mark(highOpen) + high + "]" + rest;
    var body := "[" + (Mark(lowOpen) + low + " " + upper);
    assert RangeText(field, lowOpen, low, highOpen, high) + rest == field + ":" + body;
    CutAt(field, ':', body);
    assert body[1..] == Mark(lowOpen) + low + " " + upper;
    ReadMark(lowOpen, low, ' ', upper);
    NumberHasNo(low, ' ');
    CutAt(low, ' ', upper);
    ReadMark(highOpen, high, ']', rest);
    NumberHasNo(high, ']');
    CutAt(high, ']', rest);
  }

  lemma {:induction false} ReadTagText(field: string, negated: bool, values: seq<string>, rest: string)
    requires ':' !in field && PrintedValues(values) != []
    ensures ReadField(negated, field + ":{" + FormatValues(values, false) + "}" + rest)
         == Some((Tags(field, negated, PrintedValues(values)), rest))
  {
    hide Cut, ReadTags, PrintedValues, FormatValues;
    var inner := FormatValues(values, false) + "}" + rest;
    assert field + ":{" + FormatValues(values, false) + "}" + rest == field + ":" + ("{" + inner);
    CutAt(field, ':', "{" + inner);
    assert ("{" + inner)[1..] == inner;
    TagBody(values, rest);
  }

  /** A clause, plain or negated in parentheses, is read as its field clause is. */
  lemma {:induction false} ReadClause(text: string, negated: bool, q: Query, rest: string)
    requires ReadField(negated, text + (if negated then ")" + rest else rest))
          == Some((q, if negated then ")" + rest else rest))
    ensures ReadQuery((if negated then "(-@" + text + ")" else "@" + text) + rest) == Some((q, rest))
  {
    hide ReadField;
    if negated {
      assert "(-@" + text + ")" + rest == "(-@" + (text + (")" + rest));
      NegatedQuery(text + (")" + rest));
      assert (")" + rest)[1..] == rest;
    } else {
      assert "@" + text + rest == "@" + (text + rest);
      PlainQuery(text + rest);
    }
  }

  lemma {:induction false} NegatedQuery(tail: string)
    ensures ReadQuery("(-@" + tail) == Close(ReadField(true, tail))
  {
    hide ReadField, Close;
    var s := "(-@" + tail;
    assert s[0] == '(' && s[1] == '-' && s[2] == '@' && s[3..] == tail;
  }

  lemma {:induction false} PlainQuery(tail: string)
    ensures ReadQuery("@" + tail) == ReadField(false, tail)
  {
    hide ReadField, Close;
    var s := "@" + tail;
    assert s[0] == '@' && s[1..] == tail;
  }

  lemma ReadRangeCall(c: Call, q: Query, rest: string)
    requires WellFormedCall(c) && q == CallQuery(c) && q.Range?
    ensures var raw := (if q.negated then "(-@" else "@")
                       + RangeText(q.field, q.lowOpen, q.low, q.highOpen, q.high)
                       + (if q.negated then ")" else "");
            && Render(BuildCall(c)) == raw
            && ReadQuery(raw + rest) == Some((q, rest))
  {
    hide ReadField, ReadQuery, IsNumber;
    InfinitiesAreNumbers();
    var text := RangeText(q.field, q.lowOpen, q.low, q.highOpen, q.high);
    ReadRangeText(q.field, q.negated, q.lowOpen, q.low, q.highOpen, q.high, if q.negated then ")" + rest else rest);
    ReadClause(text, q.negated, q, rest);
    RangeRaw(c, q);
    var raw := Render(BuildCall(c));
    assert raw + rest == (if q.negated then "(-@" + text + ")" else "@" + text) + rest;
  }

  lemma InfinitiesAreNumbers()
    ensures IsNumber("+inf") && IsNumber("-inf")
  {
  }

  /** Every numeric builder prints its range in the one canonical form. */
  lemma RangeRaw(c: Call, q: Query)
    requires q == CallQuery(c) && q.Range?
    ensures Render(BuildCall(c))
         == (if q.negated then "(-@" else "@") + RangeText(q.field, q.lowOpen, q.low, q.highOpen, q.high)
            + (if q.negated then ")" else "")
  {
    if c.CallNumBetween? {
      RangeRawBetween(c.field, c.start, c.end, c.inclusive);
    } else if c.CallNumEq? || c.CallNumNe? {
      RangeRawPoint(c.field, c.v);
    } else {
      RangeRawHalf(c.field, c.v);
    }
  }

  lemma RangeRawPoint(f: string, v: string)
    ensures Render(NumEq(f, v)) == "@" + RangeText(f, false, v, false, v) + ""
    ensures Render(NumNe(f, v)) == "(-@" + RangeText(f, false, v, false, v) + ")"
  {
    assert NumEq(f, v).raw == "@" + RangeText(f, false, v, false, v) + "";
    assert NumNe(f, v).raw == "(-@" + RangeText(f, false, v, false, v) + ")";
  }

  lemma RangeRawHalf(f: string, v: string)
    ensures Render(NumGt(f, v)) == "@" + RangeText(f, true, v, false, "+inf") + ""
    ensures Render(NumLt(f, v)) == "@" + RangeText(f, false, "-inf", true, v) + ""
    ensures Render(NumGe(f, v)) == "@" + RangeText(f, false, v, false, "+inf") + ""
    ensures Render(NumLe(f, v)) == "@" + RangeText(f, false, "-inf", false, v) + ""
  {
    assert NumGt(f, v).raw == "@" + RangeText(f, true, v, false, "+inf") + "";
    assert NumLt(f, v).raw == "@" + RangeText(f, false, "-inf", true, v) + "";
    assert NumGe(f, v).raw == "@" + RangeText(f, false, v, false, "+inf") + "";
    assert NumLe(f, v).raw == "@" + RangeText(f, false, "-inf", false, v) + "";
  }

  lemma RangeRawBetween(f: string, a: string, b: string, inclusive: string)
    ensures var lowOpen := inclusive == "neither" || inclusive == "right";
            var highOpen := inclusive == "neither" || inclusive == "left";
            Render(NumBetween(f, a, b, inclusive)) == "@" + RangeText(f, lowOpen, a, highOpen, b) + ""
  {
    var lowOpen := inclusive == "neither" || inclusive == "right";
    var highOpen := inclusive == "neither" || inclusive == "left";
    assert NumBetween(f, a, b, inclusive).raw == "@" + RangeText(f, lowOpen, a, highOpen, b) + "";
  }

  /** What a tag filter prints around its values. */
  lemma {:induction false} TagRaw(c: Call)
    requires c.CallTagEq? || c.CallTagNe?
    ensures var inner := FormatValues(c.values, false);
            var text := c.field + ":{" + inner + "}";
            Render(BuildCall(c)) == if inner == "" then "*" else if c.CallTagNe? then "(-@" + text + ")" else "@" + text
  {
    hide FormatValues;
  }

  lemma {:induction false} ReadTagCall(c: Call, rest: string)
    requires WellFormedCall(c) && (c.CallTagEq? || c.CallTagNe?)
    ensures CallQuery(c) == Everything <==> Render(BuildCall(c)) == "*"
    ensures CallQuery(c) != Everything ==> ReadQuery(Render(BuildCall(c)) + rest) == Some((CallQuery(c), rest))
  {
    hide ReadField, ReadQuery, PrintedValues, FormatValues, BuildCall, Render;
    TagRaw(c);
    TagBody(c.values, rest);
    if PrintedValues(c.values) != [] {
      var text := c.field + ":{" + FormatValues(c.values, false) + "}";
      var negated := c.CallTagNe?;
      var after := if negated then ")" + rest else rest;
      assert Render(BuildCall(c))[0] != '*';
      ReadTagText(c.field, negated, c.values, after);
      ReadClause(text, negated, CallQuery(c), rest);
    }
  }

  lemma ReadMissing(field: string, rest: string)
    requires ')' !in field
    ensures ReadQuery("ismissing(@" + field + ")" + rest) == Some((Missing(field), rest))
  {
    hide ReadField, Cut;
    var s := "ismissing(@" + field + ")" + rest;
    assert s[0] == 'i' && s[..11] == "ismissing(@";
    assert s[11..] == field + ")" + rest;
    CutAt(field, ')', rest);
  }

  lemma ReadCall(c: Call, rest: string)
    requires WellFormedCall(c)
    ensures CallQuery(c) == Everything <==> Render(BuildCall(c)) == "*"
    ensures CallQuery(c) != Everything ==> ReadQuery(Render(BuildCall(c)) + rest) == Some((CallQuery(c), rest))
  {
    hide ReadQuery, PrintedValues, FormatValues, RangeText, IsNumber;
    match c
    case CallAll =>
    case CallTagEq(_, _) => ReadTagCall(c, rest);
    case CallTagNe(_, _) => ReadTagCall(c, rest);
    case CallMissing(f) =>
      ReadMissing(f, rest);
      assert ("ismissing(@" + f + ")")[0] == 'i';
    case _ =>
      var q := CallQuery(c);
      ReadRangeCall(c, q, rest);
      assert Render(BuildCall(c))[0] == (if q.negated then '(' else '@');
  }

  /** What cannot start a query: the reader tells a group from a negated clause, and And from Or. */
  lemma ReadStarts(s: string)
    requires ReadQuery(s).Some?
    ensures s != "" && s[0] != '-' && s[0] != '|'
  {
  }

  lemma {:induction false} ReadGroup(op: Op, l: string, r: string, left: Query, right: Query, rest: string)
    requires ReadQuery(l + (Symbol(op) + r + ")" + rest)) == Some((left, Symbol(op) + r + ")" + rest))
    requires ReadQuery(r + (")" + rest)) == Some((right, ")" + rest))
    ensures ReadQuery("(" + l + Symbol(op) + r + ")" + rest) == Some((Joined(op, left, right), rest))
  {
    hide ReadQuery;
    var s := "(" + l + Symbol(op) + r + ")" + rest;
    var afterLeft := Symbol(op) + r + ")" + rest;
    assert s[1..] == l + afterLeft;
    ReadStarts(l + afterLeft);
    ReadStarts(r + (")" + rest));
    assert s[0] == '(' && s[1] == (l + afterLeft)[0];
    assert (")" + rest)[1..] == rest;
    var tail := r + (")" + rest);
    if op == Or {
      assert afterLeft[..3] == " | " && afterLeft[3..] == tail;
    } else {
      assert afterLeft[0] == ' ' && afterLeft[1..] == tail;
      assert afterLeft[1] == tail[0];
    }
    SplitGroup(s, left, afterLeft);
  }

  /** Reading a group, in steps. */
  lemma {:induction false} SplitGroup(s: string, left: Query, afterLeft: string)
    requires |s| > 1 && s[0] == '(' && s[1] != '-'
    requires ReadQuery(s[1..]) == Some((left, afterLeft))
    ensures ReadQuery(s)
         == if " | " <= afterLeft then Close(Join(Or, left, ReadQuery(afterLeft[3..])))
            else if " " <= afterLeft then Close(Join(And, left, ReadQuery(afterLeft[1..])))
            else None
  {
    assert !("@" <= s) && !("(-@" <= s) && !("ismissing(@" <= s) && "(" <= s;
  }

  /** A rendered tree prints as "*" exactly when nothing remains of it; otherwise the reader gets back what
      remains, whatever follows. */
  lemma {:induction false} ReadRendered(t: Tree, rest: string)
    requires WellFormed(t)
    ensures Normalize(t) == Everything <==> Render(Build(t)) == "*"
    ensures Normalize(t) != Everything ==> ReadQuery(Render(Build(t)) + rest) == Some((Normalize(t), rest))
  {
    hide ReadQuery, CallQuery, BuildCall, WellFormedCall;
    match t
    case Builder(c) =>
      ReadCall(c, rest);
    case Combine(op, left, right) =>
      var l, r := Render(Build(left)), Render(Build(right));
      ReadRendered(left, rest);
      ReadRendered(right, rest);
      if l != "*" && r != "*" {
        ReadRendered(left, Symbol(op) + r + ")" + rest);
        ReadRendered(right, ")" + rest);
        ReadGroup(op, l, r, Normalize(left), Normalize(right), rest);
        assert Render(Build(t)) == "(" + l + Symbol(op) + r + ")";
        assert Render(Build(t))[0] == '(';
      }
  }

  /** Parsing a rendered tree gives back the tree with its match-all operands removed. */
  lemma ParseRendered(t: Tree)
    requires WellFormed(t)
    ensures Parse(Render(Build(t))) == Some(Normalize(t))
  {
    hide ReadQuery, Build, Render, Normalize;
    ReadRendered(t, "");
    assert Render(Build(t)) + "" == Render(Build(t));
  }

  /** Only trees that are equal up to match-all operands render alike. */
  lemma RenderedApart(t: Tree, t': Tree)
    requires WellFormed(t) && WellFormed(t')
    requires Render(Build(t)) == Render(Build(t'))
    ensures Normalize(t) == Normalize(t')
  {
    ParseRendered(t);
    ParseRendered(t');
  }

  predicate NoBars(values: seq<string>) {
    forall i | 0 <= i < |values| :: '|' !in values[i]
  }

  lemma {:induction false} PiecesOfOne(v: string, cur: string)
    ensures '|' !in v ==> Pieces(v, cur) == ([], cur + v)
    ensures '|' in v ==> |Pieces(v, cur).0| > 0
  {
    if v == "" {
      assert cur + v == cur;
    } else if v[0] != '|' {
      PiecesOfOne(v[1..], cur + [v[0]]);
      assert cur + [v[0]] + v[1..] == cur + v;
      assert '|' in v <==> '|' in v[1..];
    }
  }

  lemma {:induction false} PrintedAtLeast(values: seq<string>)
    ensures |PrintedValues(values)| >= |NonEmpty(values)|
    ensures |NonEmpty(values)| <= |values|
  {
    if values == [] {
    } else {
      PrintedAtLeast(values[1..]);
    }
  }

  /** The values read back from a tag filter are those it was given, without the empty ones, exactly when
      none contains a bar, as bars are not escaped. */
  lemma {:induction false} TagValuesKeptIff(values: seq<string>)
    ensures PrintedValues(values) == NonEmpty(values) <==> NoBars(values)
  {
    if values == [] {
    } else {
      var v, rest := values[0], values[1..];
      TagValuesKeptIff(rest);
      PiecesOfOne(v, "");
      PrintedAtLeast(rest);
      assert "" + v == v;
      assert NoBars(values) <==> '|' !in v && NoBars(rest) by {
        assert forall i | 1 <= i < |values| :: values[i] == rest[i - 1];
        assert forall i | 0 <= i < |rest| :: rest[i] == values[i + 1];
      }
      if v != "" && '|' !in v {
        assert PrintedValues(values) == [v] + PrintedValues(rest);
        assert NonEmpty(values) == [v] + NonEmpty(rest);
        assert PrintedValues(values)[1..] == PrintedValues(rest) && NonEmpty(values)[1..] == NonEmpty(rest);
      } else if v == "" {
        assert PrintedValues(values) == PrintedValues(rest) && NonEmpty(values) == NonEmpty(rest);
      } else {
        assert |PrintedValues(values)| >= 2 + |PrintedValues(rest)|;
        assert |NonEmpty(values)| == 1 + |NonEmpty(rest)|;
      }
    }
  }

  /** The value "a|b" and the two values "a" and "b" render alike. */
  lemma {:induction false} BarIsNotEscaped(field: string)
    ensures TagEq(field, ["a|b"]) == TagEq(field, ["a", "b"])
  {
    EscapedLetters();
    hide EscapeToken, TagEq;
    assert ["a|b"][..0] == [] && FormatValues(["a|b"], false) == "a|b";
    assert ["a", "b"][..1] == ["a"] && ["a"][..0] == [] && ["a", "b"][1..] == ["b"];
    assert FormatValues(["a", "b"], false) == "a|b";
    SameFormat(field, ["a|b"], ["a", "b"]);
  }

  lemma {:induction false} EscapedLetters()
    ensures EscapeToken("a", false) == "a" && EscapeToken("b", false) == "b" && EscapeToken("a|b", false) == "a|b"
  {
    assert EscapeToken("b", false) == "b" + EscapeToken("", false);
    assert EscapeToken("|b", false) == "|" + EscapeToken("b", false);
    assert EscapeToken("a", false) == "a" + EscapeToken("", false);
  }

  lemma {:induction false} SameFormat(field: string, values: seq<string>, values': seq<string>)
    requires FormatValues(values, false) == FormatValues(values', false)
    ensures TagEq(field, values) == TagEq(field, values')
  {
  }

  /** Whether a number lies in the range of a query; num reads a formatted number. */
  predicate InRange(q: Query, num: string -> real, x: real)
    requires q.Range?
  {
    && (q.low == "-inf" || (if q.lowOpen then num(q.low) < x else num(q.low) <= x))
    && (q.high == "+inf" || (if q.highOpen then x < num(q.high) else x <= num(q.high)))
  }

  /** What the numeric builders mean of the number x of a field. */
  predicate CallHolds(c: Call, num: string -> real, x: real)
    requires c.CallNumEq? || c.CallNumNe? || c.CallNumGt? || c.CallNumLt? || c.CallNumGe? || c.CallNumLe?
             || c.CallNumBetween?
  {
    match c
    case CallNumEq(_, v) => x == num(v)
    case CallNumNe(_, v) => x != num(v)
    case CallNumGt(_, v) => x > num(v)
    case CallNumLt(_, v) => x < num(v)
    case CallNumGe(_, v) => x >= num(v)
    case CallNumLe(_, v) => x <= num(v)
    case CallNumBetween(_, start, end, inclusive) =>
      && (if inclusive == "neither" || inclusive == "right" then num(start) < x else num(start) <= x)
      && (if inclusive == "neither" || inclusive == "left" then x < num(end) else x <= num(end))
  }

  /** A formatted number is none of the two literals that stand for no bound. */
  predicate IsFinite(s: string) {
    IsNumber(s) && s != "-inf" && s != "+inf"
  }

  /** The query that a numeric builder renders holds of the numbers that the builder is named for. */
  lemma NumericMeaning(c: Call, num: string -> real, x: real)
    requires c.CallNumEq? || c.CallNumNe? || c.CallNumGt? || c.CallNumLt? || c.CallNumGe? || c.CallNumLe?
             || c.CallNumBetween?
    requires WellFormedCall(c)
    requires if c.CallNumBetween? then IsFinite(c.start) && IsFinite(c.end) else IsFinite(c.v)
    ensures var q := Parse(Render(BuildCall(c)));
            && q.Some? && q.value.Range? && q.value.field == c.field
            && (InRange(q.value, num, x) != q.value.negated <==> CallHolds(c, num, x))
  {
    hide Parse, Render, BuildCall, IsNumber;
    ParseRendered(Builder(c));
  }

  /** The query that a tag builder renders holds of the tags that it is given, or of the others. */
  lemma {:induction false} TagMeaning(c: Call, tag: string)
    requires c.CallTagEq? || c.CallTagNe?
    requires WellFormedCall(c) && NoBars(c.values) && tag != ""
    ensures var q := Parse(Render(BuildCall(c)));
            && q.Some?
            && (if forall i | 0 <= i < |c.values| :: c.values[i] == "" then q.value == Everything
                else && q.value.Tags? && q.value.field == c.field
                     && ((tag in q.value.values) != q.value.negated <==> (if c.CallTagEq? then tag in c.values
                                                                          else tag !in c.values)))
  {
    hide Parse, Render, BuildCall, PrintedValues;
    ParseRendered(Builder(c));
    TagValuesKeptIff(c.values);
    NonEmptyAre(c.values, tag);
  }

  lemma {:induction false} NonEmptyAre(values: seq<string>, tag: string)
    requires tag != ""
    ensures tag in NonEmpty(values) <==> tag in values
    ensures NonEmpty(values) == [] <==> forall i | 0 <= i < |values| :: values[i] == ""
  {
    if values == [] {
    } else {
      var rest := values[1..];
      NonEmptyAre(rest, tag);
      assert values == [values[0]] + rest;
      assert forall i | 1 <= i < |values| :: values[i] == rest[i - 1];
      assert forall i | 0 <= i < |rest| :: rest[i] == values[i + 1];
    }
  }

  /** Whether a document matches a query, given what its clauses mean. */
  predicate Satisfies(q: Query, clause: Query -> bool) {
    match q
    case Everything => true
    case Joined(And, left, right) => Satisfies(left, clause) && Satisfies(right, clause)
    case Joined(Or, left, right) => Satisfies(left, clause) || Satisfies(right, clause)
    case _ => clause(q)
  }

  /** Every builder call of t at or below position p means at its position what its clause means. */
  predicate Agree(t: Tree, clause: Query -> bool, m: Meaning, p: seq<bool>) {
    match t
    case Builder(c) => CallQuery(c) != Everything ==> m(p) == clause(CallQuery(c))
    case Combine(_, left, right) => Agree(left, clause, m, p + [false]) && Agree(right, clause, m, p + [true])
  }

  lemma {:induction false} NormalizedMeaning(t: Tree, clause: Query -> bool, m: Meaning, p: seq<bool>)
    requires WellFormed(t) && Agree(t, clause, m, p)
    ensures Satisfies(Normalize(t), clause) == MatchesRendered(Build(t), m, p)
  {
    match t
    case Builder(c) =>
      BuilderMeaning(c, clause, m, p);
    case Combine(_, left, right) =>
      hide CallQuery, BuildCall, WellFormedCall, Render;
      NormalizesAll(left);
      NormalizesAll(right);
      NormalizedMeaning(left, clause, m, p + [false]);
      NormalizedMeaning(right, clause, m, p + [true]);
  }

  lemma {:induction false} NormalizesAll(t: Tree)
    requires WellFormed(t)
    ensures Normalize(t) == Everything <==> Render(Build(t)) == "*"
  {
    hide WellFormed, Normalize, Build, Render, ReadQuery;
    ReadRendered(t, "");
  }

  lemma {:induction false} BuilderMeaning(c: Call, clause: Query -> bool, m: Meaning, p: seq<bool>)
    requires WellFormedCall(c) && (CallQuery(c) != Everything ==> m(p) == clause(CallQuery(c)))
    ensures Satisfies(CallQuery(c), clause) == MatchesRendered(BuildCall(c), m, p)
  {
    BuildsLeaf(c);
    NormalizesAll(Builder(c));
    LeafQuery(c);
    hide CallQuery, BuildCall;
  }

  /** A builder call means a clause, or everything. */
  lemma {:induction false} LeafQuery(c: Call)
    ensures !CallQuery(c).Joined?
  {
  }

  lemma BuildsLeaf(c: Call)
    ensures BuildCall(c).Leaf?
  {
  }

  /** A document that satisfies what the rendered string parses to matches the tree as built. */
  lemma RenderedQuerySound(t: Tree, clause: Query -> bool, m: Meaning, q: Query)
    requires WellFormed(t) && Agree(t, clause, m, [])
    requires Parse(Render(Build(t))) == Some(q)
    ensures Satisfies(q, clause) ==> Matches(Build(t), m, [])
    ensures NoOneSidedOr(Build(t)) ==> (Satisfies(q, clause) <==> Matches(Build(t), m, []))
  {
    ParseRendered(t);
    NormalizedMeaning(t, clause, m, []);
    RenderingNarrows(Build(t), m, []);
    if NoOneSidedOr(Build(t)) {
      RenderingExact(Build(t), m, []);
    }
  }
}
