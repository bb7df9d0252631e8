/** The FT.CREATE arguments of fields (schema/fields.go:248-434), and a reader that shows the flat
    argument list to be uniquely decodable. */
module SchemaArgs {
  import opened Common
  import opened Fields

  datatype Arg = Str(s: string) | Int(n: int) | Float(r: real)

  /** An optional modifier: a keyword and the arguments that follow it. */
  datatype Item = Item(keyword: string, present: bool, args: seq<Arg>)

  /** What follows a keyword. */
  datatype Operand = Nothing | Text | Integer | Decimal

  /** A modifier as the reader expects it. A nested one comes directly after the one before it, if that is there. */
  datatype Slot = Slot(keyword: string, operand: Operand, nested: bool := false)

  function Arity(slot: Slot): nat {
    if slot.operand.Nothing? then 0 else 1
  }

  predicate Accepts(operand: Operand, arg: Arg) {
    match operand
    case Nothing => false
    case Text => arg.Str?
    case Integer => arg.Int?
    case Decimal => arg.Float?
  }

  /** The arguments begin with the modifier. */
  predicate Starts(slot: Slot, args: seq<Arg>) {
    && |args| > Arity(slot) && args[0] == Str(slot.keyword)
    && (slot.operand.Nothing? || Accepts(slot.operand, args[1]))
  }

  function Piece(i: Item): seq<Arg> {
    if i.present then [Str(i.keyword)] + i.args else []
  }

  function Print(items: seq<Item>): seq<Arg> {
    if items == [] then [] else Print(items[..|items| - 1]) + Piece(items[|items| - 1])
  }

  /** Reads the modifiers of the slots in order, each one if it is next; before tells whether the one before
      was there. */
  function Read(slots: seq<Slot>, args: seq<Arg>, before: bool): (seq<Item>, seq<Arg>)
    decreases |slots|
  {
    if slots == [] then ([], args)
    else
      var slot := slots[0];
      var present := (slot.nested ==> before) && Starts(slot, args);
      var item := Item(slot.keyword, present, if present then args[1..Arity(slot) + 1] else []);
      var (items, rest) := Read(slots[1..], if present then args[Arity(slot) + 1..] else args, present);
      ([item] + items, rest)
  }

  /** Whether the item before the one at j is there. */
  predicate Preceded(items: seq<Item>, before: bool, j: nat)
    requires j <= |items|
  {
    if j == 0 then before else items[j - 1].present
  }

  predicate FitsSlot(item: Item, slot: Slot) {
    && item.keyword == slot.keyword && |item.args| == (if item.present then Arity(slot) else 0)
    && (item.present ==> slot.operand.Nothing? || Accepts(slot.operand, item.args[0]))
  }

  /** items fit the slots: absent ones carry no arguments, and nested ones come after one that is there. */
  predicate Fits(items: seq<Item>, slots: seq<Slot>, before: bool) {
    && |items| == |slots|
    && (forall i | 0 <= i < |items| :: FitsSlot(items[i], slots[i]))
    && (forall i | 0 <= i < |items| && items[i].present && slots[i].nested :: Preceded(items, before, i))
  }

  predicate Distinct(slots: seq<Slot>) {
    forall i, j | 0 <= i < j < |slots| :: slots[i].keyword != slots[j].keyword
  }

  predicate AbsentFrom(items: seq<Item>, j: nat) {
    forall i | j <= i < |items| :: !items[i].present
  }

  /** rest does not begin with a modifier from which on all are absent, and which could come now. */
  predicate Apart(items: seq<Item>, slots: seq<Slot>, before: bool, rest: seq<Arg>)
    requires |items| == |slots|
  {
    forall j | 0 <= j < |items| && AbsentFrom(items, j) && (slots[j].nested ==> Preceded(items, before, j)) ::
      !Starts(slots[j], rest)
  }

  lemma Assoc<T>(a: seq<T>, b: seq<T>, c: seq<T>)
    ensures a + (b + c) == (a + b) + c
  {
  }

  lemma PrintEmpty()
    ensures Print([]) == []
  {
  }

  lemma {:induction false} PrintFront(item: Item, items: seq<Item>)
    ensures Print([item] + items) == Piece(item) + Print(items)
  {
    hide Piece;
    var all := [item] + items;
    if items == [] {
      assert all[..0] == [] && all[0] == item;
    } else {
      var last := items[|items| - 1];
      assert all[..|all| - 1] == [item] + items[..|items| - 1] && all[|all| - 1] == last;
      PrintFront(item, items[..|items| - 1]);
      assert Print(items) == Print(items[..|items| - 1]) + Piece(last);
    }
  }

  /** The first modifier, and then the others and what follows. */
  lemma {:induction false} PrintSplit(items: seq<Item>, rest: seq<Arg>)
    ensures items == [] ==> Print(items) + rest == rest
    ensures items != [] ==> Print(items) + rest == Piece(items[0]) + (Print(items[1..]) + rest)
  {
    if items == [] {
      PrintEmpty();
    } else {
      hide Print, Piece;
      assert items == [items[0]] + items[1..];
      PrintFront(items[0], items[1..]);
      Assoc(Piece(items[0]), Print(items[1..]), rest);
    }
  }

  lemma {:induction false} PrintAppend(items: seq<Item>, more: seq<Item>)
    ensures Print(items + more) == Print(items) + Print(more)
    decreases |more|
  {
    hide Piece;
    if more == [] {
      assert items + more == items;
    } else {
      hide Print;
      var front, last := more[..|more| - 1], more[|more| - 1];
      PrintAppend(items, front);
      PrintLast(more);
      PrintLast(items + more);
      assert (items + more)[..|items + more| - 1] == items + front;
      Assoc(Print(items), Print(front), Piece(last));
    }
  }

  lemma {:induction false} PrintLast(items: seq<Item>)
    requires items != []
    ensures Print(items) == Print(items[..|items| - 1]) + Piece(items[|items| - 1])
  {
  }

  lemma {:induction false} PrintsNothing(items: seq<Item>)
    requires AbsentFrom(items, 0)
    ensures Print(items) == []
  {
    if items != [] {
      PrintsNothing(items[..|items| - 1]);
    }
  }

  /** What is printed begins with the keyword of a present item, if there is one. */
  lemma {:induction false} FirstPrinted(items: seq<Item>, rest: seq<Arg>)
    ensures AbsentFrom(items, 0) ==> Print(items) + rest == rest
    ensures !AbsentFrom(items, 0) ==>
              var args := Print(items) + rest;
              exists i | 0 <= i < |items| :: items[i].present && args != [] && args[0] == Str(items[i].keyword)
  {
    hide Print;
    PrintSplit(items, rest);
    if items != [] {
      var tail := Print(items[1..]) + rest;
      FirstPrinted(items[1..], rest);
      if items[0].present {
        assert (Piece(items[0]) + tail)[0] == Str(items[0].keyword);
      } else {
        assert Piece(items[0]) + tail == tail;
        assert AbsentFrom(items[1..], 0) == AbsentFrom(items, 0) by {
          assert forall i | 0 <= i < |items[1..]| :: items[1..][i] == items[i + 1];
          assert forall i | 1 <= i < |items| :: items[i] == items[1..][i - 1];
        }
      }
    }
  }

  lemma {:induction false} ReadPiece(item: Item, slots: seq<Slot>, before: bool, tail: seq<Arg>)
    requires slots != [] && FitsSlot(item, slots[0])
    requires item.present ==> slots[0].nested ==> before
    requires !item.present ==> !((slots[0].nested ==> before) && Starts(slots[0], tail))
    ensures var read := Read(slots[1..], tail, item.present);
            Read(slots, Piece(item) + tail, before) == ([item] + read.0, read.1)
  {
    var args := Piece(item) + tail;
    if item.present {
      assert args[0] == Str(item.keyword);
      assert args[1..Arity(slots[0]) + 1] == item.args;
      assert args[Arity(slots[0]) + 1..] == tail;
    } else {
      assert args == tail;
    }
  }

  lemma {:induction false} TailAbsent(items: seq<Item>, j: nat)
    requires items != []
    ensures AbsentFrom(items[1..], j) <==> AbsentFrom(items, j + 1)
  {
    assert forall i | 0 <= i < |items[1..]| :: items[1..][i] == items[i + 1];
    assert forall i | 1 <= i < |items| :: items[i] == items[1..][i - 1];
  }

  lemma {:induction false} TailFits(items: seq<Item>, slots: seq<Slot>, before: bool)
    requires items != [] && Fits(items, slots, before)
    ensures Fits(items[1..], slots[1..], items[0].present) && FitsSlot(items[0], slots[0])
    ensures items[0].present && slots[0].nested ==> before
  {
    hide FitsSlot;
    assert items[0].present && slots[0].nested ==> Preceded(items, before, 0);
    forall i | 0 <= i < |items[1..]| && items[1..][i].present && slots[1..][i].nested
      ensures Preceded(items[1..], items[0].present, i)
    {
      assert items[1..][i] == items[i + 1] && Preceded(items, before, i + 1);
    }
  }

  lemma {:induction false} TailDistinct(slots: seq<Slot>)
    requires slots != [] && Distinct(slots)
    ensures Distinct(slots[1..])
  {
  }

  lemma {:induction false} TailApart(items: seq<Item>, slots: seq<Slot>, before: bool, rest: seq<Arg>)
    requires items != [] && |items| == |slots| && Apart(items, slots, before, rest)
    ensures Apart(items[1..], slots[1..], items[0].present, rest)
  {
    hide AbsentFrom, Starts;
    forall j | && 0 <= j < |items[1..]| && AbsentFrom(items[1..], j)
               && (slots[1..][j].nested ==> Preceded(items[1..], items[0].present, j))
      ensures !Starts(slots[1..][j], rest)
    {
      TailAbsent(items, j);
      assert slots[1..][j] == slots[j + 1];
      assert slots[j + 1].nested ==> Preceded(items, before, j + 1);
    }
  }

  /** What follows an absent first item is not taken for it. */
  lemma {:induction false} NotTaken(items: seq<Item>, slots: seq<Slot>, before: bool, rest: seq<Arg>)
    requires items != [] && Fits(items, slots, before) && Distinct(slots) && !items[0].present
    requires AbsentFrom(items, 0) && (slots[0].nested ==> before) ==> !Starts(slots[0], rest)
    ensures !((slots[0].nested ==> before) && Starts(slots[0], Print(items[1..]) + rest))
  {
    hide Print;
    FirstPrinted(items[1..], rest);
    TailAbsent(items, 0);
    assert AbsentFrom(items, 1) ==> AbsentFrom(items, 0);
    if !AbsentFrom(items[1..], 0) {
      var tail := Print(items[1..]) + rest;
      var i :| 0 <= i < |items[1..]| && tail != [] && tail[0] == Str(items[1..][i].keyword);
      assert FitsSlot(items[i + 1], slots[i + 1]);
      assert items[1..][i] == items[i + 1] && slots[0].keyword != slots[i + 1].keyword;
    }
  }

  /** The reader gives back the printed modifiers and stops where they end. */
  lemma {:induction false} ReadPrint(items: seq<Item>, slots: seq<Slot>, before: bool, rest: seq<Arg>)
    requires Fits(items, slots, before) && Distinct(slots) && Apart(items, slots, before, rest)
    ensures Read(slots, Print(items) + rest, before) == (items, rest)
    decreases |items|
  {
    hide Piece, Print, AbsentFrom, Starts, FitsSlot;
    PrintSplit(items, rest);
    if items != [] {
      hide Read;
      var item, tail := items[0], Print(items[1..]) + rest;
      TailApart(items, slots, before, rest);
      TailFits(items, slots, before);
      TailDistinct(slots);
      ReadPrint(items[1..], slots[1..], item.present, rest);
      if !item.present {
        assert slots[0].nested ==> Preceded(items, before, 0) == before;
        NotTaken(items, slots, before, rest);
      }
      ReadPiece(item, slots, before, tail);
      assert items == [item] + items[1..];
    }
  }

  /** Whatever follows, the reader takes at least what is printed. */
  lemma {:induction false} ReadConsumes(items: seq<Item>, slots: seq<Slot>, before: bool, rest: seq<Arg>)
    requires Fits(items, slots, before) && Distinct(slots)
    ensures |Read(slots, Print(items) + rest, before).1| <= |rest|
    decreases |items|
  {
    hide Piece, Print, AbsentFrom, Starts, FitsSlot;
    PrintSplit(items, rest);
    if items != [] {
      hide Read;
      var item, tail := items[0], Print(items[1..]) + rest;
      TailFits(items, slots, before);
      TailDistinct(slots);
      if item.present || !AbsentFrom(items, 0) {
        ReadConsumes(items[1..], slots[1..], item.present, rest);
        if !item.present {
          NotTaken(items, slots, before, rest);
        }
        ReadPiece(item, slots, before, tail);
      } else {
        PrintsNothing(items);
        assert [] + rest == rest;
        ReadShrinks(slots, rest, before);
      }
    }
  }

  lemma {:induction false} ReadShrinks(slots: seq<Slot>, args: seq<Arg>, before: bool)
    ensures var read := Read(slots, args, before); |read.0| == |slots| && |read.1| <= |args|
    decreases |slots|
  {
    if slots == [] {
    } else {
      var slot := slots[0];
      var present := (slot.nested ==> before) && Starts(slot, args);
      ReadShrinks(slots[1..], if present then args[Arity(slot) + 1..] else args, present);
    }
  }

  lemma Regroup(item: Item, items: seq<Item>, j: nat, more: seq<Item>)
    requires 0 < j <= |items| && item == items[0]
    ensures [item] + (items[1..][..j - 1] + more) == items[..j] + more
  {
    assert items[..j] == [item] + items[1..][..j - 1];
  }

  /** If no item from j on is present, what follows the printed modifiers is read at slot j. */
  lemma {:induction false} ReadReaches(items: seq<Item>, slots: seq<Slot>, before: bool, j: nat, rest: seq<Arg>)
    requires Fits(items, slots, before) && Distinct(slots) && j <= |items| && AbsentFrom(items, j)
    requires rest == [] || forall i | 0 <= i < j :: rest[0] != Str(slots[i].keyword)
    ensures var read := Read(slots[j..], rest, Preceded(items, before, j));
            Read(slots, Print(items) + rest, before) == (items[..j] + read.0, read.1)
    decreases j
  {
    hide Piece, Print, AbsentFrom, Read, FitsSlot;
    if j == 0 {
      PrintsNothing(items);
      assert [] + rest == rest && slots[0..] == slots;
      assert items[..0] + Read(slots, rest, before).0 == Read(slots, rest, before).0;
    } else {
      PrintSplit(items, rest);
      var item, tail := items[0], Print(items[1..]) + rest;
      TailAbsent(items, j - 1);
      TailFits(items, slots, before);
      TailDistinct(slots);
      ReadReaches(items[1..], slots[1..], item.present, j - 1, rest);
      assert Preceded(items[1..], item.present, j - 1) == Preceded(items, before, j);
      if !item.present {
        NotTaken(items, slots, before, rest);
      }
      ReadPiece(item, slots, before, tail);
      assert slots[1..][j - 1..] == slots[j..];
      Regroup(item, items, j, Read(slots[j..], rest, Preceded(items, before, j)).0);
    }
  }

  /** What follows is taken for item j if it begins with it and no item from there on is present. */
  lemma {:induction false} ReadTaken(items: seq<Item>, slots: seq<Slot>, before: bool, j: nat, rest: seq<Arg>)
    requires Fits(items, slots, before) && Distinct(slots) && j < |items| && AbsentFrom(items, j)
    requires Starts(slots[j], rest) && (slots[j].nested ==> Preceded(items, before, j))
    ensures var read := Read(slots, Print(items) + rest, before);
            && |read.0| > j && slots[j].keyword == items[j].keyword && !items[j].present
            && read.0[j] == Item(slots[j].keyword, true, rest[1..Arity(slots[j]) + 1])
  {
    hide Print, Read;
    assert FitsSlot(items[j], slots[j]);
    ReadReaches(items, slots, before, j, rest);
    hide Fits, Distinct, AbsentFrom;
    var from := slots[j..];
    assert from[0] == slots[j];
    ReadFirst(from, rest, Preceded(items, before, j));
    PrefixThen(items, j, Read(from, rest, Preceded(items, before, j)).0);
  }

  lemma {:induction false} PrefixThen(items: seq<Item>, j: nat, more: seq<Item>)
    requires j <= |items|
    ensures more != [] ==> (items[..j] + more)[j] == more[0]
  {
  }

  lemma {:induction false} ReadFirst(slots: seq<Slot>, rest: seq<Arg>, before: bool)
    requires slots != [] && Starts(slots[0], rest) && (slots[0].nested ==> before)
    ensures var read := Read(slots, rest, before);
            read.0 != [] && read.0[0] == Item(slots[0].keyword, true, rest[1..Arity(slots[0]) + 1])
  {
  }

  /** The modifiers that end text and numeric fields: [INDEXMISSING] [SORTABLE [UNF]] [NOINDEX]. Tag and geo
      fields have no UNF. */
  const BASE_SLOTS := [
    Slot("INDEXMISSING", Nothing), Slot("SORTABLE", Nothing), Slot("UNF", Nothing, true), Slot("NOINDEX", Nothing)]
  const PLAIN_SLOTS := [Slot("INDEXMISSING", Nothing), Slot("SORTABLE", Nothing), Slot("NOINDEX", Nothing)]
  const TEXT_SLOTS := [
    Slot("NOSTEM", Nothing), Slot("WEIGHT", Decimal), Slot("PHONETIC", Text), Slot("WITHSUFFIXTRIE", Nothing),
    Slot("INDEXEMPTY", Nothing)]
  const TAG_SLOTS := [
    Slot("SEPARATOR", Text), Slot("CASESENSITIVE", Nothing), Slot("WITHSUFFIXTRIE", Nothing),
    Slot("INDEXEMPTY", Nothing)]
  const VECTOR_SLOTS := [Slot("INDEXMISSING", Nothing)]
  const COMMON_SLOTS := [
    Slot("TYPE", Text), Slot("DIM", Integer), Slot("DISTANCE_METRIC", Text), Slot("INITIAL_CAP", Integer)]
  const FLAT_SLOTS := [Slot("BLOCK_SIZE", Integer)]
  const HNSW_SLOTS := [
    Slot("M", Integer), Slot("EF_CONSTRUCTION", Integer), Slot("EF_RUNTIME", Integer), Slot("EPSILON", Decimal)]
  const SVS_SLOTS := [
    Slot("GRAPH_MAX_DEGREE", Integer), Slot("CONSTRUCTION_WINDOW_SIZE", Integer),
    Slot("SEARCH_WINDOW_SIZE", Integer), Slot("EPSILON", Decimal), Slot("COMPRESSION", Text),
    Slot("REDUCE", Integer), Slot("TRAINING_THRESHOLD", Integer)]

  function Flag(keyword: string, present: bool): Item {
    Item(keyword, present, [])
  }

  function With(keyword: string, present: bool, arg: Arg): Item {
    Item(keyword, present, if present then [arg] else [])
  }

  function Number(keyword: string, n: Option<int>): Item {
    match n
    case Some(k) => With(keyword, true, Int(k))
    case None => Flag(keyword, false)
  }

  function BaseItems(b: BaseAttrs, unf: bool): seq<Item> {
    [ Flag("INDEXMISSING", b.indexMissing),
      Flag("SORTABLE", b.sortable),
      Flag("UNF", b.sortable && unf),
      Flag("NOINDEX", b.noIndex)]
  }

  /** The same for tag and geo fields. */
  function PlainItems(b: BaseAttrs): seq<Item> {
    [ Flag("INDEXMISSING", b.indexMissing),
      Flag("SORTABLE", b.sortable),
      Flag("NOINDEX", b.noIndex)]
  }

  /** Without UNF the two print alike. */
  lemma {:induction false} PlainPrints(b: BaseAttrs)
    ensures Print(PlainItems(b)) == Print(BaseItems(b, false))
  {
    hide Piece, Print;
    var index, sort, unf, no := Flag("INDEXMISSING", b.indexMissing), Flag("SORTABLE", b.sortable), Flag("UNF", false),
                                Flag("NOINDEX", b.noIndex);
    NoPiece("UNF");
    PrintFour(index, sort, unf, no);
    PrintFront(index, [sort, no]);
    PrintFront(sort, [no]);
    PrintFront(no, []);
    PrintEmpty();
    assert [index] + [sort, no] == PlainItems(b) && [sort] + [no] == [sort, no] && [no] + [] == [no];
    assert Piece(sort) + [] == Piece(sort) && Piece(no) + [] == Piece(no);
    Assoc(Piece(index), Piece(sort), Piece(no));
  }

  lemma NoPiece(keyword: string)
    ensures Piece(Flag(keyword, false)) == []
  {
  }

  function TextItems(a: TextAttrs): seq<Item> {
    [ Flag("NOSTEM", a.noStem),
      With("WEIGHT", a.weight != 0.0 && a.weight != 1.0, Float(a.weight)),
      With("PHONETIC", a.phoneticMatcher != "", Str(a.phoneticMatcher)),
      Flag("WITHSUFFIXTRIE", a.withSuffixTrie),
      Flag("INDEXEMPTY", a.indexEmpty)]
  }

  function TagItems(a: TagAttrs): seq<Item> {
    [ With("SEPARATOR", true, Str(OrElse(a.separator, ","))),
      Flag("CASESENSITIVE", a.caseSensitive),
      Flag("WITHSUFFIXTRIE", a.withSuffixTrie),
      Flag("INDEXEMPTY", a.indexEmpty)]
  }

  function OrDefault(p: Option<int>, default: int): int {
    if p.Some? then p.value else default
  }

  function OrDefaultF(p: Option<real>, default: real): real {
    if p.Some? then p.value else default
  }

  /** The attributes that every algorithm prints. */
  function CommonItems(v: VectorAttrs): seq<Item> {
    [ With("TYPE", true, Str(ToUpper(v.dataType))),
      With("DIM", true, Int(v.dims)),
      With("DISTANCE_METRIC", true, Str(v.distanceMetric)),
      Number("INITIAL_CAP", v.initialCap)]
  }

  function FlatItems(v: VectorAttrs): seq<Item> {
    [Number("BLOCK_SIZE", v.blockSize)]
  }

  function HNSWItems(v: VectorAttrs): seq<Item> {
    [ With("M", true, Int(OrDefault(v.m, 16))),
      With("EF_CONSTRUCTION", true, Int(OrDefault(v.efConstruction, 200))),
      With("EF_RUNTIME", true, Int(OrDefault(v.efRuntime, 10))),
      With("EPSILON", true, Float(OrDefaultF(v.epsilon, 0.01)))]
  }

  function SVSItems(v: VectorAttrs): seq<Item> {
    [ With("GRAPH_MAX_DEGREE", true, Int(OrDefault(v.graphMaxDegree, 40))),
      With("CONSTRUCTION_WINDOW_SIZE", true, Int(OrDefault(v.constructionWindowSize, 250))),
      With("SEARCH_WINDOW_SIZE", true, Int(OrDefault(v.searchWindowSize, 20))),
      With("EPSILON", true, Float(OrDefaultF(v.epsilon, 0.01))),
      With("COMPRESSION", v.compression != "", Str(v.compression)),
      Number("REDUCE", v.reduce),
      Number("TRAINING_THRESHOLD", v.trainingThreshold)]
  }

  function AlgorithmItems(v: VectorAttrs): seq<Item> {
    if v.algorithm == "FLAT" then FlatItems(v)
    else if v.algorithm == "HNSW" then HNSWItems(v)
    else SVSItems(v)
  }

  function Head(f: Field): seq<Arg> {
    if f.path != "" && f.name != "" then [Str(f.path), Str("AS"), Str(f.name)]
    else if f.path != "" then [Str(f.path)]
    else [Str(f.name)]
  }

  function VectorArgs(v: VectorAttrs): seq<Arg> {
    var kv := Print(CommonItems(v)) + Print(AlgorithmItems(v));
    [Str("VECTOR"), Str(v.algorithm), Int(|kv|)] + kv + Print([Flag("INDEXMISSING", v.indexMissing)])
  }

  /** The specification of the arguments of one field. */
  function FieldArgs(f: Field): Result<seq<Arg>, Error> {
    match f.typ
    case TypeText =>
      var a := if f.text.Some? then f.text.value else DEFAULT_TEXT;
      Ok(Head(f) + [Str("TEXT")] + Print(TextItems(a)) + Print(BaseItems(a.base, a.unf)))
    case TypeTag =>
      var a := if f.tag.Some? then f.tag.value else DEFAULT_TAG;
      Ok(Head(f) + [Str("TAG")] + Print(TagItems(a)) + Print(BaseItems(a.base, false)))
    case TypeNumeric =>
      var a := if f.numeric.Some? then f.numeric.value else NumericAttrs(NO_BASE, false);
      Ok(Head(f) + [Str("NUMERIC")] + Print(BaseItems(a.base, a.unf)))
    case TypeGeo =>
      var a := if f.geo.Some? then f.geo.value else GeoAttrs(NO_BASE);
      Ok(Head(f) + [Str("GEO")] + Print(BaseItems(a.base, false)))
    case TypeVector =>
      if f.vector.None? then Err(NoVectorAttributes)
      else
        var v := Normalized(f.vector.value);
        if Fault(v).Some? then Err(Fault(v).value) else Ok(Head(f) + VectorArgs(v))
    case TypeUnknown(name) => Err(UnknownFieldType(name))
  }

  /** Appending one modifier: args holds the first k pieces after start, and then the first k + 1. */
  lemma Appended(items: seq<Item>, k: nat, start: seq<Arg>, args: seq<Arg>, args': seq<Arg>)
    requires k < |items|
    requires args == start + Print(items[..k])
    requires args' == args + Piece(items[k])
    ensures args' == start + Print(items[..k + 1])
    ensures k + 1 == |items| ==> args' == start + Print(items)
  {
    hide Print, Piece;
    PrintStep(items, k);
    Assoc(start, Print(items[..k]), Piece(items[k]));
    if k + 1 == |items| {
      assert items[..k + 1] == items;
    }
  }

  lemma PrintStep(items: seq<Item>, k: nat)
    requires k < |items|
    ensures Print(items[..k + 1]) == Print(items[..k]) + Piece(items[k])
  {
    assert items[..k + 1][..k] == items[..k];
  }

  lemma PrintNone(items: seq<Item>, start: seq<Arg>)
    ensures start == start + Print(items[..0])
  {
  }

  method AppendBase(start: seq<Arg>, b: BaseAttrs, unf: bool) returns (args: seq<Arg>)
    ensures args == start + Print(BaseItems(b, unf))
  {
    hide Print;
    ghost var items := BaseItems(b, unf);
    PrintNone(items, start);
    args := start;
    if b.indexMissing {
      args := args + [Str("INDEXMISSING")];
    }
    Appended(items, 0, start, start, args);
    ghost var before := args;
    if b.sortable {
      args := args + [Str("SORTABLE")];
      Appended(items, 1, start, before, args);
      before := args;
      if unf {
        args := args + [Str("UNF")];
      }
    } else {
      Appended(items, 1, start, before, args);
    }
    Appended(items, 2, start, before, args);
    before := args;
    if b.noIndex {
      args := args + [Str("NOINDEX")];
    }
    Appended(items, 3, start, before, args);
  }

  lemma TextPieces(a: TextAttrs)
    ensures var items := TextItems(a);
            && |items| == 5
            && Piece(items[0]) == (if a.noStem then [Str("NOSTEM")] else [])
            && Piece(items[1])
               == (if a.weight != 0.0 && a.weight != 1.0 then [Str("WEIGHT"), Float(a.weight)] else [])
            && Piece(items[2])
               == (if a.phoneticMatcher != "" then [Str("PHONETIC"), Str(a.phoneticMatcher)] else [])
            && Piece(items[3]) == (if a.withSuffixTrie then [Str("WITHSUFFIXTRIE")] else [])
            && Piece(items[4]) == (if a.indexEmpty then [Str("INDEXEMPTY")] else [])
  {
  }

  method AppendText(start: seq<Arg>, a: TextAttrs) returns (args: seq<Arg>)
    ensures args == start + Print(TextItems(a)) + Print(BaseItems(a.base, a.unf))
  {
    hide Print, Piece, BaseItems, TextItems;
    ghost var items := TextItems(a);
    TextPieces(a);
    PrintNone(items, start);
    args := start;
    if a.noStem {
      args := args + [Str("NOSTEM")];
    }
    Appended(items, 0, start, start, args);
    ghost var before := args;
    if a.weight != 0.0 && a.weight != 1.0 {
      args := args + [Str("WEIGHT"), Float(a.weight)];
    }
    Appended(items, 1, start, before, args);
    before := args;
    if a.phoneticMatcher != "" {
      args := args + [Str("PHONETIC"), Str(a.phoneticMatcher)];
    }
    Appended(items, 2, start, before, args);
    before := args;
    if a.withSuffixTrie {
      args := args + [Str("WITHSUFFIXTRIE")];
    }
    Appended(items, 3, start, before, args);
    before := args;
    if a.indexEmpty {
      args := args + [Str("INDEXEMPTY")];
    }
    Appended(items, 4, start, before, args);
    args := AppendBase(args, a.base, a.unf);
  }

  method AppendTag(start: seq<Arg>, a: TagAttrs) returns (args: seq<Arg>)
    ensures args == start + Print(TagItems(a)) + Print(BaseItems(a.base, false))
  {
    hide Print, BaseItems;
    ghost var items := TagItems(a);
    PrintNone(items, start);
    var sep := a.separator;
    if sep == "" {
      sep := ",";
    }
    args := start + [Str("SEPARATOR"), Str(sep)];
    Appended(items, 0, start, start, args);
    ghost var before := args;
    if a.caseSensitive {
      args := args + [Str("CASESENSITIVE")];
    }
    Appended(items, 1, start, before, args);
    before := args;
    if a.withSuffixTrie {
      args := args + [Str("WITHSUFFIXTRIE")];
    }
    Appended(items, 2, start, before, args);
    before := args;
    if a.indexEmpty {
      args := args + [Str("INDEXEMPTY")];
    }
    Appended(items, 3, start, before, args);
    args := AppendBase(args, a.base, false);
  }

  method AppendFlat(start: seq<Arg>, v: VectorAttrs) returns (kv: seq<Arg>)
    ensures kv == start + Print(FlatItems(v))
  {
    hide Print;
    ghost var items := FlatItems(v);
    PrintNone(items, start);
    kv := start;
    if v.blockSize.Some? {
      kv := kv + [Str("BLOCK_SIZE"), Int(v.blockSize.value)];
    }
    Appended(items, 0, start, start, kv);
  }

  lemma PrintFour(a: Item, b: Item, c: Item, d: Item)
    ensures Print([a, b, c, d]) == Piece(a) + Piece(b) + Piece(c) + Piece(d)
  {
    hide Piece;
    var items := [a, b, c, d];
    assert items[..3] == [a, b, c] && items[..3][..2] == [a, b] && [a, b][..1] == [a] && [a][..0] == [];
    assert Print([a]) == Print([]) + Piece(a);
    assert Print([a, b]) == Print([a]) + Piece(b);
    assert Print([a, b, c]) == Print([a, b]) + Piece(c);
  }

  method AppendHNSW(start: seq<Arg>, v: VectorAttrs) returns (kv: seq<Arg>)
    ensures kv == start + Print(HNSWItems(v))
  {
    hide Print;
    var items := HNSWItems(v);
    PrintFour(items[0], items[1], items[2], items[3]);
    kv := start + [
      Str("M"), Int(OrDefault(v.m, 16)),
      Str("EF_CONSTRUCTION"), Int(OrDefault(v.efConstruction, 200)),
      Str("EF_RUNTIME"), Int(OrDefault(v.efRuntime, 10)),
      Str("EPSILON"), Float(OrDefaultF(v.epsilon, 0.01))];
  }

  method AppendSVS(start: seq<Arg>, v: VectorAttrs) returns (kv: seq<Arg>)
    ensures kv == start + Print(SVSItems(v))
  {
    hide Print;
    ghost var items := SVSItems(v);
    kv := start + [
      Str("GRAPH_MAX_DEGREE"), Int(OrDefault(v.graphMaxDegree, 40)),
      Str("CONSTRUCTION_WINDOW_SIZE"), Int(OrDefault(v.constructionWindowSize, 250)),
      Str("SEARCH_WINDOW_SIZE"), Int(OrDefault(v.searchWindowSize, 20)),
      Str("EPSILON"), Float(OrDefaultF(v.epsilon, 0.01))];
    PrintFour(items[0], items[1], items[2], items[3]);
    assert items[..4] == [items[0], items[1], items[2], items[3]];
    ghost var before := kv;
    if v.compression != "" {
      kv := kv + [Str("COMPRESSION"), Str(v.compression)];
    }
    Appended(items, 4, start, before, kv);
    before := kv;
    if v.reduce.Some? {
      kv := kv + [Str("REDUCE"), Int(v.reduce.value)];
    }
    Appended(items, 5, start, before, kv);
    before := kv;
    if v.trainingThreshold.Some? {
      kv := kv + [Str("TRAINING_THRESHOLD"), Int(v.trainingThreshold.value)];
    }
    Appended(items, 6, start, before, kv);
  }

  method CommonKV(v: VectorAttrs) returns (kv: seq<Arg>)
    ensures kv == Print(CommonItems(v))
  {
    hide Print;
    ghost var items := CommonItems(v);
    PrintFour(items[0], items[1], items[2], items[3]);
    kv := [
      Str("TYPE"), Str(ToUpper(v.dataType)),
      Str("DIM"), Int(v.dims),
      Str("DISTANCE_METRIC"), Str(v.distanceMetric)];
    if v.initialCap.Some? {
      kv := kv + [Str("INITIAL_CAP"), Int(v.initialCap.value)];
    }
  }

  method AppendVector(start: seq<Arg>, v: VectorAttrs) returns (args: seq<Arg>)
    requires Fault(v).None?
    ensures args == start + VectorArgs(v)
  {
    hide Print, CommonItems, FlatItems, HNSWItems, SVSItems;
    var kv := CommonKV(v);
    if v.algorithm == "FLAT" {
      kv := AppendFlat(kv, v);
    } else if v.algorithm == "HNSW" {
      kv := AppendHNSW(kv, v);
    } else {
      assert v.algorithm == "SVS-VAMANA";
      kv := AppendSVS(kv, v);
    }
    assert kv == Print(CommonItems(v)) + Print(AlgorithmItems(v));
    args := start + [Str("VECTOR"), Str(v.algorithm), Int(|kv|)];
    args := args + kv;
    ghost var items := [Flag("INDEXMISSING", v.indexMissing)];
    PrintNone(items, args);
    ghost var before := args;
    if v.indexMissing {
      args := args + [Str("INDEXMISSING")];
    }
    Appended(items, 0, before, before, args);
    assert args == start + VectorArgs(v);
  }

  method RedisArgs(f: Field) returns (r: Result<seq<Arg>, Error>)
    ensures r == FieldArgs(f)
  {
    hide Print, VectorArgs, Normalized, Fault, TextItems, TagItems, BaseItems;
    var name, alias := f.name, "";
    if f.path != "" {
      name, alias := f.path, f.name;
    }
    var args := [Str(name)];
    if alias != "" {
      args := args + [Str("AS"), Str(alias)];
    }
    assert args == Head(f);
    match f.typ {
      case TypeText =>
        args := AppendText(args + [Str("TEXT")], if f.text.Some? then f.text.value else DEFAULT_TEXT);
      case TypeTag =>
        args := AppendTag(args + [Str("TAG")], if f.tag.Some? then f.tag.value else DEFAULT_TAG);
      case TypeNumeric =>
        var a := if f.numeric.Some? then f.numeric.value else NumericAttrs(NO_BASE, false);
        args := AppendBase(args + [Str("NUMERIC")], a.base, a.unf);
      case TypeGeo =>
        var a := if f.geo.Some? then f.geo.value else GeoAttrs(NO_BASE);
        args := AppendBase(args + [Str("GEO")], a.base, false);
      case TypeVector =>
        if f.vector.None? {
          return Err(NoVectorAttributes);
        }
        var v := new VectorObject(f.vector.value);
        var err := v.Validate();
        if err.Some? {
          return Err(err.value);
        }
        args := AppendVector(args, v.value);
      case TypeUnknown(name) =>
        return Err(UnknownFieldType(name));
    }
    r := Ok(args);
  }

  /** The arguments of a list of fields, one after the other. */
  function AllArgs(fields: seq<Field>): Result<seq<Arg>, Error> {
    if fields == [] then Ok([])
    else
      var last := |fields| - 1;
      match AllArgs(fields[..last])
      case Err(e) => Err(e)
      case Ok(args) =>
        match FieldArgs(fields[last])
        case Err(e) => Err(e)
        case Ok(more) => Ok(args + more)
  }
}
