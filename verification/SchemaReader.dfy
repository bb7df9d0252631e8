/** A reader of the flat SCHEMA argument list. It recovers the fields of a schema, up to the defaults that
    printing fills in, exactly when none would take the start of the next one for one of its modifiers. */
module SchemaReader {
  import opened Common
  import opened Fields
  import opened SchemaArgs

  function NumberOf(i: Item): int {
    if |i.args| == 1 && i.args[0].Int? then i.args[0].n else 0
  }

  function StringOf(i: Item): string {
    if |i.args| == 1 && i.args[0].Str? then i.args[0].s else ""
  }

  function RealOf(i: Item): real {
    if |i.args| == 1 && i.args[0].Float? then i.args[0].r else 0.0
  }

  function Optional(i: Item): Option<int> {
    if i.present then Some(NumberOf(i)) else None
  }

  /** The attributes that all lexical types share, and UNF. */
  function BaseOf(items: seq<Item>): BaseAttrs
    requires |items| == 4
  {
    BaseAttrs(items[1].present, items[0].present, items[3].present)
  }

  function UnfOf(items: seq<Item>): bool
    requires |items| == 4
  {
    items[2].present
  }

  function PlainOf(items: seq<Item>): BaseAttrs
    requires |items| == 3
  {
    BaseAttrs(items[1].present, items[0].present, items[2].present)
  }

  function TextOf(items: seq<Item>): TextAttrs
    requires |items| == 9
  {
    TextAttrs(BaseOf(items[5..]), if items[1].present then RealOf(items[1]) else 1.0, items[0].present,
              items[3].present, StringOf(items[2]), items[4].present, UnfOf(items[5..]))
  }

  function TagOf(items: seq<Item>): TagAttrs
    requires |items| == 7
  {
    TagAttrs(PlainOf(items[4..]), StringOf(items[0]), items[1].present, items[2].present, items[3].present)
  }

  function CommonOf(algorithm: string, common: seq<Item>, indexMissing: bool): VectorAttrs
    requires |common| == 4
  {
    VectorAttrs(NumberOf(common[1]), algorithm, ToLower(StringOf(common[0])), StringOf(common[2]), Optional(common[3]),
                indexMissing, None, None, None, None, None, None, None, None, "", None, None)
  }

  function SlotsOf(algorithm: string): seq<Slot> {
    if algorithm == "FLAT" then FLAT_SLOTS
    else if algorithm == "HNSW" then HNSW_SLOTS
    else SVS_SLOTS
  }

  /** v with the attributes of the algorithm's own modifiers. */
  function OwnOf(v: VectorAttrs, algorithm: string, own: seq<Item>): VectorAttrs
    requires |own| == |SlotsOf(algorithm)|
  {
    if algorithm == "FLAT" then v.(blockSize := Optional(own[0]))
    else if algorithm == "HNSW" then
      v.(m := Optional(own[0]), efConstruction := Optional(own[1]), efRuntime := Optional(own[2]),
         epsilon := Some(RealOf(own[3])))
    else
      v.(graphMaxDegree := Optional(own[0]), constructionWindowSize := Optional(own[1]),
         searchWindowSize := Optional(own[2]), epsilon := Some(RealOf(own[3])), compression := StringOf(own[4]),
         reduce := Optional(own[5]), trainingThreshold := Optional(own[6]))
  }

  function VectorOf(algorithm: string, common: seq<Item>, own: seq<Item>, indexMissing: bool): VectorAttrs
    requires |common| == 4 && |own| == |SlotsOf(algorithm)|
  {
    OwnOf(CommonOf(algorithm, common, indexMissing), algorithm, own)
  }

  /** The field with its name and path set, before its type. */
  function ReadHead(args: seq<Arg>): (r: Option<(Field, seq<Arg>)>)
    ensures r.Some? ==> |r.value.1| < |args|
  {
    if |args| >= 3 && args[0].Str? && args[1] == Str("AS") && args[2].Str? then
      Some((Bare(args[2].s, TypeText).(path := args[0].s), args[3..]))
    else if |args| >= 1 && args[0].Str? then Some((Bare(args[0].s, TypeText), args[1..]))
    else None
  }

  /** The attributes of a vector field, from the algorithm on. */
  function ReadVector(f: Field, args: seq<Arg>): (r: Option<(Field, seq<Arg>)>)
    ensures r.Some? ==> |r.value.1| <= |args|
  {
    if |args| < 2 || !args[0].Str? || !args[1].Int? || args[1].n < 0 || args[1].n > |args| - 2 then None
    else
      var algorithm, n := args[0].s, args[1].n;
      var (common, kv) := Read(COMMON_SLOTS, args[2..n + 2], false);
      var (own, extra) := Read(SlotsOf(algorithm), kv, false);
      var (flags, rest) := Read(VECTOR_SLOTS, args[n + 2..], false);
      ReadShrinks(COMMON_SLOTS, args[2..n + 2], false);
      ReadShrinks(SlotsOf(algorithm), kv, false);
      ReadShrinks(VECTOR_SLOTS, args[n + 2..], false);
      if extra != [] then None
      else
        Some((f.(typ := TypeVector, vector := Some(VectorOf(algorithm, common, own, flags[0].present))), rest))
  }

  predicate IsLexical(typ: FieldType) {
    typ.TypeText? || typ.TypeTag? || typ.TypeNumeric? || typ.TypeGeo?
  }

  function LexicalType(keyword: Arg): (typ: Option<FieldType>)
    ensures typ.Some? ==> IsLexical(typ.value)
  {
    if keyword == Str("TEXT") then Some(TypeText)
    else if keyword == Str("TAG") then Some(TypeTag)
    else if keyword == Str("NUMERIC") then Some(TypeNumeric)
    else if keyword == Str("GEO") then Some(TypeGeo)
    else None
  }

  /** The modifiers at the end of a field's arguments. */
  function FieldSlots(typ: FieldType): seq<Slot> {
    match typ
    case TypeText => TEXT_SLOTS + BASE_SLOTS
    case TypeTag => TAG_SLOTS + PLAIN_SLOTS
    case TypeNumeric => BASE_SLOTS
    case TypeGeo => PLAIN_SLOTS
    case TypeVector => VECTOR_SLOTS
    case TypeUnknown(_) => []
  }

  /** The field that the modifiers read make of its name and path. */
  function Attributed(f: Field, typ: FieldType, items: seq<Item>): Field
    requires IsLexical(typ) && |items| == |FieldSlots(typ)|
  {
    match typ
    case TypeText => f.(typ := TypeText, text := Some(TextOf(items)))
    case TypeTag => f.(typ := TypeTag, tag := Some(TagOf(items)))
    case TypeNumeric => f.(typ := TypeNumeric, numeric := Some(NumericAttrs(BaseOf(items), UnfOf(items))))
    case TypeGeo => f.(typ := TypeGeo, geo := Some(GeoAttrs(PlainOf(items))))
  }

  function ReadField(args: seq<Arg>): (r: Option<(Field, seq<Arg>)>)
    ensures r.Some? ==> |r.value.1| < |args|
  {
    match ReadHead(args)
    case None => None
    case Some((f, rest)) =>
      if rest == [] then None
      else if rest[0] == Str("VECTOR") then ReadVector(f, rest[1..])
      else
        match LexicalType(rest[0])
        case None => None
        case Some(typ) =>
          ReadShrinks(FieldSlots(typ), rest[1..], false);
          var (items, end) := Read(FieldSlots(typ), rest[1..], false);
          Some((Attributed(f, typ, items), end))
  }

  function ReadAll(args: seq<Arg>): Option<seq<Field>>
    decreases |args|
  {
    if args == [] then Some([])
    else
      match ReadField(args)
      case None => None
      case Some((f, rest)) =>
        match ReadAll(rest)
        case None => None
        case Some(fs) => Some([f] + fs)
  }

  function PrintedText(a: TextAttrs): TextAttrs {
    a.(weight := if a.weight == 0.0 then 1.0 else a.weight, unf := a.base.sortable && a.unf)
  }

  function PrintedTag(a: TagAttrs): TagAttrs {
    a.(separator := OrElse(a.separator, ","))
  }

  function PrintedNumeric(a: NumericAttrs): NumericAttrs {
    a.(unf := a.base.sortable && a.unf)
  }

  /** The attributes that every algorithm prints. */
  function Blank(v: VectorAttrs): VectorAttrs {
    VectorAttrs(v.dims, v.algorithm, v.dataType, v.distanceMetric, v.initialCap, v.indexMissing,
                None, None, None, None, None, None, None, None, "", None, None)
  }

  /** v with the attributes that its algorithm prints, with their defaults. */
  function PrintedOwn(v: VectorAttrs, blank: VectorAttrs): VectorAttrs {
    if v.algorithm == "FLAT" then blank.(blockSize := v.blockSize)
    else if v.algorithm == "HNSW" then
      blank.(m := Some(OrDefault(v.m, 16)), efConstruction := Some(OrDefault(v.efConstruction, 200)),
             efRuntime := Some(OrDefault(v.efRuntime, 10)), epsilon := Some(OrDefaultF(v.epsilon, 0.01)))
    else
      blank.(graphMaxDegree := Some(OrDefault(v.graphMaxDegree, 40)),
             constructionWindowSize := Some(OrDefault(v.constructionWindowSize, 250)),
             searchWindowSize := Some(OrDefault(v.searchWindowSize, 20)), epsilon := Some(OrDefaultF(v.epsilon, 0.01)),
             compression := v.compression, reduce := v.reduce, trainingThreshold := v.trainingThreshold)
  }

  /** The attributes that a vector field prints. */
  function PrintedVector(v: VectorAttrs): VectorAttrs {
    PrintedOwn(v, Blank(v))
  }

  /** The name and path that the printed arguments determine: a path without a name is printed as a name. */
  function Named(f: Field, typ: FieldType): Field {
    if f.name == "" then Bare(f.path, typ) else Bare(f.name, typ).(path := f.path)
  }

  /** The field that the printed arguments determine. */
  function Printed(f: Field): Field {
    var bare := Named(f, f.typ);
    match f.typ
    case TypeText => bare.(text := Some(PrintedText(if f.text.Some? then f.text.value else DEFAULT_TEXT)))
    case TypeTag => bare.(tag := Some(PrintedTag(if f.tag.Some? then f.tag.value else DEFAULT_TAG)))
    case TypeNumeric =>
      bare.(numeric := Some(PrintedNumeric(if f.numeric.Some? then f.numeric.value else NumericAttrs(NO_BASE, false))))
    case TypeGeo => bare.(geo := Some(if f.geo.Some? then f.geo.value else GeoAttrs(NO_BASE)))
    case TypeVector => bare.(vector := if f.vector.Some? then Some(PrintedVector(Normalized(f.vector.value))) else None)
    case TypeUnknown(_) => bare
  }

  /** The first argument that a field prints. */
  function LeadName(f: Field): string {
    if f.path != "" then f.path else f.name
  }

  /** The modifiers at the end of a field's arguments, as the field prints them. */
  function FieldItems(f: Field): seq<Item> {
    match f.typ
    case TypeText =>
      var a := if f.text.Some? then f.text.value else DEFAULT_TEXT;
      TextItems(a) + BaseItems(a.base, a.unf)
    case TypeTag =>
      var a := if f.tag.Some? then f.tag.value else DEFAULT_TAG;
      TagItems(a) + PlainItems(a.base)
    case TypeNumeric =>
      var a := if f.numeric.Some? then f.numeric.value else NumericAttrs(NO_BASE, false);
      BaseItems(a.base, a.unf)
    case TypeGeo =>
      var a := if f.geo.Some? then f.geo.value else GeoAttrs(NO_BASE);
      PlainItems(a.base)
    case TypeVector => [Flag("INDEXMISSING", f.vector.Some? && f.vector.value.indexMissing)]
    case TypeUnknown(_) => []
  }

  /** The modifier at j can come next, when no later one is there, and may begin with two strings. */
  predicate Open(items: seq<Item>, slots: seq<Slot>, j: nat)
    requires |items| == |slots| && j < |items|
  {
    && AbsentFrom(items, j) && (slots[j].nested ==> Preceded(items, false, j))
    && (slots[j].operand.Nothing? || slots[j].operand.Text?)
  }

  /** k would be read as a modifier of f: it is the keyword of one that can come next. */
  predicate Takes(f: Field, k: string) {
    ItemsFit(f);
    exists j | 0 <= j < |FieldItems(f)| :: FieldItems(f)[j].keyword == k && Open(FieldItems(f), FieldSlots(f.typ), j)
  }

  /** No field would take the name or path that the next one starts with for a modifier. */
  predicate NoneTaken(fields: seq<Field>) {
    forall i | 1 <= i < |fields| :: !Takes(fields[i - 1], LeadName(fields[i]))
  }

  /** What begins with two strings, of which f does not take the first, does not go on with a modifier of f. */
  lemma {:induction false} TakesApart(f: Field, rest: seq<Arg>)
    requires rest != [] ==> |rest| > 1 && rest[0].Str? && rest[1].Str? && !Takes(f, rest[0].s)
    ensures |FieldItems(f)| == |FieldSlots(f.typ)| && Apart(FieldItems(f), FieldSlots(f.typ), false, rest)
  {
    ItemsFit(f);
    var items, slots := FieldItems(f), FieldSlots(f.typ);
    hide FieldItems, FieldSlots, AbsentFrom;
    forall j | 0 <= j < |items| && AbsentFrom(items, j) && (slots[j].nested ==> Preceded(items, false, j))
      ensures !Starts(slots[j], rest)
    {
      assert FitsSlot(items[j], slots[j]);
      assert rest != [] ==> !(items[j].keyword == rest[0].s && Open(items, slots, j));
    }
  }

  lemma {:induction false} DistinctBoth(slots: seq<Slot>, slots': seq<Slot>)
    requires Distinct(slots) && Distinct(slots')
    requires forall i, j | 0 <= i < |slots| && 0 <= j < |slots'| :: slots[i].keyword != slots'[j].keyword
    ensures Distinct(slots + slots')
  {
    var all := slots + slots';
    assert forall i | 0 <= i < |slots| :: all[i] == slots[i];
    assert forall j | |slots| <= j < |all| :: all[j] == slots'[j - |slots|];
  }

  lemma {:induction false} LexicalSlots()
    ensures Distinct(TEXT_SLOTS) && Distinct(TAG_SLOTS) && Distinct(BASE_SLOTS) && Distinct(PLAIN_SLOTS)
  {
  }

  lemma {:induction false} TextBaseApart()
    ensures forall i, j | 0 <= i < |TEXT_SLOTS| && 0 <= j < |BASE_SLOTS| ::
              TEXT_SLOTS[i].keyword != BASE_SLOTS[j].keyword
  {
  }

  lemma {:induction false} TagPlainApart()
    ensures forall i, j | 0 <= i < |TAG_SLOTS| && 0 <= j < |PLAIN_SLOTS| ::
              TAG_SLOTS[i].keyword != PLAIN_SLOTS[j].keyword
  {
  }

  lemma {:induction false} SlotsDistinct(typ: FieldType)
    ensures Distinct(FieldSlots(typ))
  {
    LexicalSlots();
    match typ
    case TypeText =>
      hide Distinct;
      TextBaseApart();
      DistinctBoth(TEXT_SLOTS, BASE_SLOTS);
    case TypeTag =>
      hide Distinct;
      TagPlainApart();
      DistinctBoth(TAG_SLOTS, PLAIN_SLOTS);
    case _ =>
  }

  lemma {:induction false} FitsText(a: TextAttrs)
    ensures Fits(TextItems(a), TEXT_SLOTS, false)
  {
  }

  lemma {:induction false} FitsTag(a: TagAttrs)
    ensures Fits(TagItems(a), TAG_SLOTS, false)
  {
  }

  lemma {:induction false} FitsBase(base: BaseAttrs, unf: bool)
    ensures Fits(BaseItems(base, unf), BASE_SLOTS, false) && Fits(PlainItems(base), PLAIN_SLOTS, false)
  {
  }

  lemma {:induction false} FitsBoth(items: seq<Item>, slots: seq<Slot>, items': seq<Item>, slots': seq<Slot>)
    requires Fits(items, slots, false) && Fits(items', slots', false)
    requires slots' != [] ==> !slots'[0].nested
    ensures Fits(items + items', slots + slots', false)
  {
    hide FitsSlot;
    var all, allSlots := items + items', slots + slots';
    forall i | 0 <= i < |all| && all[i].present && allSlots[i].nested ensures Preceded(all, false, i) {
      if i < |items| {
        assert all[i] == items[i] && allSlots[i] == slots[i] && Preceded(items, false, i);
      } else {
        assert all[i] == items'[i - |items|] && allSlots[i] == slots'[i - |items|];
        assert Preceded(items', false, i - |items|);
      }
    }
  }

  lemma {:induction false} ItemsFit(f: Field)
    ensures Fits(FieldItems(f), FieldSlots(f.typ), false)
  {
    match f.typ
    case TypeText =>
      var a := if f.text.Some? then f.text.value else DEFAULT_TEXT;
      FitsText(a);
      FitsBase(a.base, a.unf);
      hide Fits, TextItems, BaseItems;
      FitsBoth(TextItems(a), TEXT_SLOTS, BaseItems(a.base, a.unf), BASE_SLOTS);
    case TypeTag =>
      var a := if f.tag.Some? then f.tag.value else DEFAULT_TAG;
      FitsTag(a);
      FitsBase(a.base, false);
      hide Fits, TagItems, PlainItems;
      FitsBoth(TagItems(a), TAG_SLOTS, PlainItems(a.base), PLAIN_SLOTS);
    case TypeNumeric =>
      var a := if f.numeric.Some? then f.numeric.value else NumericAttrs(NO_BASE, false);
      FitsBase(a.base, a.unf);
    case TypeGeo =>
      FitsBase((if f.geo.Some? then f.geo.value else GeoAttrs(NO_BASE)).base, false);
    case _ =>
  }

  lemma {:induction false} VectorSlots(algorithm: string)
    ensures Distinct(COMMON_SLOTS + SlotsOf(algorithm))
  {
    if algorithm == "FLAT" {
    } else if algorithm == "HNSW" {
    } else {
    }
  }

  lemma {:induction false} HeadRead(f: Field, keyword: string, body: seq<Arg>)
    requires keyword != "AS"
    ensures ReadHead(Head(f) + ([Str(keyword)] + body))
         == Some((Named(f, TypeText), [Str(keyword)] + body))
  {
    var args := Head(f) + ([Str(keyword)] + body);
    if f.path != "" && f.name != "" {
      assert args[3..] == [Str(keyword)] + body;
    } else {
      assert args[1..] == [Str(keyword)] + body;
    }
  }

  function TypeKeyword(typ: FieldType): string {
    match typ
    case TypeText => "TEXT"
    case TypeTag => "TAG"
    case TypeNumeric => "NUMERIC"
    case TypeGeo => "GEO"
    case TypeVector => "VECTOR"
    case TypeUnknown(name) => name
  }

  lemma TypeKeywords(typ: FieldType)
    ensures !typ.TypeUnknown? ==> TypeKeyword(typ) != "AS"
    ensures IsLexical(typ) ==> TypeKeyword(typ) != "VECTOR" && LexicalType(Str(TypeKeyword(typ))) == Some(typ)
  {
    assert "TEXT" != "AS" && "TAG" != "AS" && "NUMERIC" != "AS" && "GEO" != "AS" && "VECTOR" != "AS";
    assert "TEXT" != "TAG" && "TEXT" != "NUMERIC" && "TEXT" != "GEO" && "TEXT" != "VECTOR";
    assert "TAG" != "NUMERIC" && "TAG" != "GEO" && "TAG" != "VECTOR";
    assert "NUMERIC" != "GEO" && "NUMERIC" != "VECTOR" && "GEO" != "VECTOR";
  }

  lemma {:induction false} LexicalArgs(f: Field)
    requires IsLexical(f.typ)
    ensures FieldArgs(f) == Ok(Head(f) + ([Str(TypeKeyword(f.typ))] + Print(FieldItems(f))))
  {
    hide Print, Head, TextItems, TagItems, BaseItems, PlainItems;
    match f.typ
    case TypeText =>
      var a := if f.text.Some? then f.text.value else DEFAULT_TEXT;
      PrintAppend(TextItems(a), BaseItems(a.base, a.unf));
      Assoc(Head(f) + [Str("TEXT")], Print(TextItems(a)), Print(BaseItems(a.base, a.unf)));
      Assoc(Head(f), [Str("TEXT")], Print(FieldItems(f)));
    case TypeTag =>
      var a := if f.tag.Some? then f.tag.value else DEFAULT_TAG;
      PlainPrints(a.base);
      PrintAppend(TagItems(a), PlainItems(a.base));
      Assoc(Head(f) + [Str("TAG")], Print(TagItems(a)), Print(PlainItems(a.base)));
      Assoc(Head(f), [Str("TAG")], Print(FieldItems(f)));
    case TypeGeo =>
      PlainPrints((if f.geo.Some? then f.geo.value else GeoAttrs(NO_BASE)).base);
      Assoc(Head(f), [Str("GEO")], Print(FieldItems(f)));
    case _ =>
      Assoc(Head(f), [Str(TypeKeyword(f.typ))], Print(FieldItems(f)));
  }

  /** A lexical field is read as the modifiers found after its type tell. */
  lemma {:induction false} LexicalRead(f: Field, rest: seq<Arg>)
    requires IsLexical(f.typ)
    ensures var read := Read(FieldSlots(f.typ), Print(FieldItems(f)) + rest, false);
            && |read.0| == |FieldSlots(f.typ)| && FieldArgs(f).Ok?
            && ReadField(FieldArgs(f).value + rest) == Some((Attributed(Named(f, TypeText), f.typ, read.0), read.1))
  {
    hide Print, Read, ReadHead, ReadVector, Head, FieldItems, FieldSlots, Attributed, FieldArgs;
    var keyword, body := TypeKeyword(f.typ), Print(FieldItems(f)) + rest;
    LexicalArgs(f);
    TypeKeywords(f.typ);
    HeadRead(f, keyword, body);
    ReadShrinks(FieldSlots(f.typ), body, false);
    assert FieldArgs(f).value + rest == Head(f) + ([Str(keyword)] + body);
    assert ([Str(keyword)] + body)[1..] == body;
  }

  lemma {:induction false} AttributedPrinted(f: Field)
    requires IsLexical(f.typ)
    ensures |FieldItems(f)| == |FieldSlots(f.typ)| && Attributed(Named(f, TypeText), f.typ, FieldItems(f)) == Printed(f)
  {
  }

  lemma {:induction false} LexicalFieldRead(f: Field, rest: seq<Arg>)
    requires IsLexical(f.typ) && |FieldItems(f)| == |FieldSlots(f.typ)|
    requires Apart(FieldItems(f), FieldSlots(f.typ), false, rest)
    ensures FieldArgs(f).Ok? && ReadField(FieldArgs(f).value + rest) == Some((Printed(f), rest))
  {
    ItemsFit(f);
    SlotsDistinct(f.typ);
    hide Print, Read, ReadField, FieldItems, FieldSlots, Attributed, FieldArgs, Fits, Distinct, Apart, Printed;
    LexicalRead(f, rest);
    ReadPrint(FieldItems(f), FieldSlots(f.typ), false, rest);
    AttributedPrinted(f);
  }

  lemma {:induction false} FitsVector(v: VectorAttrs)
    requires IsAlgorithm(v.algorithm)
    ensures Fits(CommonItems(v), COMMON_SLOTS, false) && Fits(AlgorithmItems(v), SlotsOf(v.algorithm), false)
  {
  }

  /** The data type is printed in upper case and read back in lower case. */
  lemma DataTypeCase(s: string)
    requires IsDataType(s)
    ensures ToLower(ToUpper(s)) == s
  {
  }

  lemma {:induction false} CommonValue(v: VectorAttrs)
    requires IsDataType(v.dataType)
    ensures |CommonItems(v)| == 4 && CommonOf(v.algorithm, CommonItems(v), v.indexMissing) == Blank(v)
  {
    DataTypeCase(v.dataType);
    hide ToLower, ToUpper, IsDataType;
  }

  lemma {:induction false} FlatValue(v: VectorAttrs, blank: VectorAttrs)
    ensures |FlatItems(v)| == 1 && blank.(blockSize := Optional(FlatItems(v)[0])) == blank.(blockSize := v.blockSize)
  {
  }

  lemma {:induction false} OwnValue(v: VectorAttrs, blank: VectorAttrs)
    requires v.algorithm == "HNSW" || v.algorithm == "SVS-VAMANA"
    ensures |AlgorithmItems(v)| == |SlotsOf(v.algorithm)|
    ensures OwnOf(blank, v.algorithm, AlgorithmItems(v)) == PrintedOwn(v, blank)
  {
    if v.algorithm == "HNSW" {
      var own := HNSWItems(v);
      assert AlgorithmItems(v) == own && SlotsOf(v.algorithm) == HNSW_SLOTS;
    } else {
      var own := SVSItems(v);
      assert AlgorithmItems(v) == own && SlotsOf(v.algorithm) == SVS_SLOTS;
    }
  }

  lemma {:induction false} VectorValue(v: VectorAttrs)
    requires ValidVector(v)
    ensures |CommonItems(v)| == 4 && |AlgorithmItems(v)| == |SlotsOf(v.algorithm)|
    ensures VectorOf(v.algorithm, CommonItems(v), AlgorithmItems(v), v.indexMissing) == PrintedVector(v)
  {
    hide Normalized, IsMetric;
    CommonValue(v);
    hide CommonOf, CommonItems, Blank, IsDataType;
    if v.algorithm == "FLAT" {
      FlatValue(v, Blank(v));
    } else {
      assert v.algorithm == "HNSW" || v.algorithm == "SVS-VAMANA";
      hide OwnOf, PrintedOwn, AlgorithmItems, SlotsOf;
      OwnValue(v, Blank(v));
    }
  }

  lemma {:induction false} IndexMissingOnly(algorithm: string, common: seq<Item>, own: seq<Item>, b: bool, c: bool)
    requires |common| == 4 && |own| == |SlotsOf(algorithm)|
    ensures VectorOf(algorithm, common, own, c) == VectorOf(algorithm, common, own, b).(indexMissing := c)
  {
  }

  /** A vector field's arguments after VECTOR, and what follows. */
  function VectorBody(algorithm: string, kv: seq<Arg>, flags: seq<Arg>, rest: seq<Arg>): seq<Arg> {
    [Str(algorithm), Int(|kv|)] + (kv + (flags + rest))
  }

  lemma {:induction false} VectorShape(v: VectorAttrs, rest: seq<Arg>)
    ensures var kv := Print(CommonItems(v)) + Print(AlgorithmItems(v));
            var flags := Print([Flag("INDEXMISSING", v.indexMissing)]);
            VectorArgs(v) + rest == [Str("VECTOR")] + VectorBody(v.algorithm, kv, flags, rest)
  {
    hide Print, CommonItems, AlgorithmItems;
  }

  lemma {:induction false} BodyParts(algorithm: string, kv: seq<Arg>, flags: seq<Arg>, rest: seq<Arg>)
    ensures var args := VectorBody(algorithm, kv, flags, rest);
            && |args| >= |kv| + 2 && args[0] == Str(algorithm) && args[1] == Int(|kv|)
            && args[2..|kv| + 2] == kv && args[|kv| + 2..] == flags + rest
  {
  }

  lemma {:induction false} VectorGroups(v: VectorAttrs)
    requires ValidVector(v)
    ensures var kv := Print(CommonItems(v)) + Print(AlgorithmItems(v));
            && Read(COMMON_SLOTS, kv, false) == (CommonItems(v), Print(AlgorithmItems(v)))
            && Read(SlotsOf(v.algorithm), Print(AlgorithmItems(v)), false) == (AlgorithmItems(v), [])
  {
    FitsVector(v);
    VectorSlots(v.algorithm);
    hide Print, Read, Apart, Fits, SlotsOf, CommonItems, AlgorithmItems, ValidVector;
    var common, own := CommonItems(v), AlgorithmItems(v);
    ReadTwo(common, COMMON_SLOTS, own, SlotsOf(v.algorithm));
  }

  lemma DistinctParts(slots: seq<Slot>, slots': seq<Slot>)
    requires Distinct(slots + slots')
    ensures Distinct(slots) && Distinct(slots')
    ensures forall i, j | 0 <= i < |slots| && 0 <= j < |slots'| :: slots[i].keyword != slots'[j].keyword
  {
    var all := slots + slots';
    assert forall i | 0 <= i < |slots| :: all[i] == slots[i];
    assert forall j | 0 <= j < |slots'| :: all[|slots| + j] == slots'[j];
  }

  /** Reading two printed groups of modifiers, one after the other. */
  lemma {:induction false} ReadTwo(own: seq<Item>, slots: seq<Slot>, more: seq<Item>, slots': seq<Slot>)
    requires Fits(own, slots, false) && Fits(more, slots', false) && Distinct(slots + slots')
    ensures Read(slots, Print(own) + Print(more), false) == (own, Print(more))
    ensures Read(slots', Print(more), false) == (more, [])
  {
    DistinctParts(slots, slots');
    hide Print, Read, Distinct, AbsentFrom;
    FirstPrinted(more, []);
    assert Print(more) + [] == Print(more);
    forall j | 0 <= j < |own| ensures !Starts(slots[j], Print(more)) {
      if i :| 0 <= i < |more| && Print(more) != [] && Print(more)[0] == Str(more[i].keyword) {
        assert FitsSlot(more[i], slots'[i]);
      }
    }
    ReadPrint(own, slots, false, Print(more));
    ReadPrint(more, slots', false, []);
  }

  /** The vector field that is read when read is what the flags are read as. */
  lemma {:induction false} VectorRead(f: Field, v: VectorAttrs, rest: seq<Arg>)
    requires ValidVector(v)
    ensures var kv := Print(CommonItems(v)) + Print(AlgorithmItems(v));
            var flags := Print([Flag("INDEXMISSING", v.indexMissing)]);
            var read := Read(VECTOR_SLOTS, flags + rest, false);
            && |read.0| == 1
            && ReadVector(f, VectorBody(v.algorithm, kv, flags, rest))
               == Some((f.(typ := TypeVector, vector := Some(PrintedVector(v).(indexMissing := read.0[0].present))),
                        read.1))
  {
    hide Print, Read, SlotsOf, CommonItems, AlgorithmItems, ValidVector, VectorOf, PrintedVector, VectorBody;
    var kv, flags := Print(CommonItems(v)) + Print(AlgorithmItems(v)), Print([Flag("INDEXMISSING", v.indexMissing)]);
    ReadShrinks(VECTOR_SLOTS, flags + rest, false);
    BodyParts(v.algorithm, kv, flags, rest);
    VectorValue(v);
    IndexMissingOnly(v.algorithm, CommonItems(v), AlgorithmItems(v), v.indexMissing,
                     Read(VECTOR_SLOTS, flags + rest, false).0[0].present);
    VectorGroups(v);
  }

  /** A vector field is read up to its INDEXMISSING flag, which is read from what follows. */
  lemma {:induction false} VectorFieldReads(f: Field, rest: seq<Arg>)
    requires f.typ.TypeVector? && FieldArgs(f).Ok?
    ensures var read := Read(VECTOR_SLOTS, Print(FieldItems(f)) + rest, false);
            && |read.0| == 1 && Printed(f).vector.Some?
            && ReadField(FieldArgs(f).value + rest)
               == Some((Printed(f).(vector := Some(Printed(f).vector.value.(indexMissing := read.0[0].present))),
                        read.1))
  {
    hide Print, Read, ReadHead, ReadVector, Head, Normalized, Fault, VectorArgs, VectorBody, PrintedVector;
    hide CommonItems, AlgorithmItems, ReadField, TextItems, TagItems, BaseItems;
    var v := Normalized(f.vector.value);
    NormalizedTwice(f.vector.value);
    KeepsIndexMissing(f.vector.value);
    var kv, flags := Print(CommonItems(v)) + Print(AlgorithmItems(v)), Print([Flag("INDEXMISSING", v.indexMissing)]);
    var body := VectorBody(v.algorithm, kv, flags, rest);
    VectorShape(v, rest);
    VectorRead(Named(f, TypeText), v, rest);
    assert FieldArgs(f).value + rest == Head(f) + ([Str("VECTOR")] + body);
    TypeKeywords(TypeVector);
    HeadRead(f, "VECTOR", body);
    ReadsVector(FieldArgs(f).value + rest, Named(f, TypeText), body);
  }

  lemma KeepsIndexMissing(v: VectorAttrs)
    ensures Normalized(v).indexMissing == v.indexMissing
    ensures PrintedVector(Normalized(v)).indexMissing == v.indexMissing
  {
  }

  lemma ReadsVector(args: seq<Arg>, start: Field, body: seq<Arg>)
    requires ReadHead(args) == Some((start, [Str("VECTOR")] + body))
    ensures ReadField(args) == ReadVector(start, body)
  {
    hide ReadHead, ReadVector, Read;
    assert ([Str("VECTOR")] + body)[1..] == body;
  }

  lemma {:induction false} VectorFieldRead(f: Field, rest: seq<Arg>)
    requires f.typ.TypeVector? && FieldArgs(f).Ok? && |FieldItems(f)| == |FieldSlots(f.typ)|
    requires Apart(FieldItems(f), FieldSlots(f.typ), false, rest)
    ensures ReadField(FieldArgs(f).value + rest) == Some((Printed(f), rest))
  {
    ItemsFit(f);
    SlotsDistinct(f.typ);
    hide Print, Read, ReadField, FieldArgs, Fits, Distinct, Apart, PrintedVector, Normalized;
    VectorFieldReads(f, rest);
    ReadPrint(FieldItems(f), VECTOR_SLOTS, false, rest);
    KeepsIndexMissing(f.vector.value);
  }

  /** The arguments of one field are read back, whatever follows that it does not take for a modifier. */
  lemma {:induction false} FieldRead(f: Field, rest: seq<Arg>)
    requires FieldArgs(f).Ok? && |FieldItems(f)| == |FieldSlots(f.typ)|
    requires Apart(FieldItems(f), FieldSlots(f.typ), false, rest)
    ensures ReadField(FieldArgs(f).value + rest) == Some((Printed(f), rest))
  {
    hide ReadField, Printed, Print, VectorArgs, Normalized, Fault, Apart, FieldItems;
    if IsLexical(f.typ) {
      LexicalFieldRead(f, rest);
    } else {
      VectorFieldRead(f, rest);
    }
  }

  function PrintedFields(fields: seq<Field>): seq<Field> {
    seq(|fields|, i requires 0 <= i < |fields| => Printed(fields[i]))
  }

  lemma {:induction false} AllArgsFront(f: Field, fields: seq<Field>)
    requires AllArgs([f] + fields).Ok?
    ensures FieldArgs(f).Ok? && AllArgs(fields).Ok?
    ensures AllArgs([f] + fields).value == FieldArgs(f).value + AllArgs(fields).value
  {
    hide FieldArgs;
    var all := [f] + fields;
    if fields == [] {
      assert all[..0] == [];
    } else {
      assert all[..|all| - 1] == [f] + fields[..|fields| - 1];
      AllArgsFront(f, fields[..|fields| - 1]);
    }
  }

  lemma {:induction false} LeadsField(f: Field, more: seq<Arg>)
    requires FieldArgs(f).Ok?
    ensures var args := FieldArgs(f).value + more; |args| > 1 && args[0] == Str(LeadName(f))
  {
    if IsLexical(f.typ) {
      hide FieldArgs, FieldItems, Print;
      LexicalArgs(f);
    } else {
      hide Print, Normalized, Fault;
      assert |VectorArgs(Normalized(f.vector.value))| >= 1;
    }
  }

  /** The argument after the first one of a field. */
  function SecondName(f: Field): string {
    if f.path != "" && f.name != "" then "AS" else TypeKeyword(f.typ)
  }

  lemma {:induction false} SecondArg(f: Field, more: seq<Arg>)
    requires FieldArgs(f).Ok?
    ensures var args := FieldArgs(f).value + more; |args| > 1 && args[1] == Str(SecondName(f))
    ensures SecondName(f) != ""
  {
    if IsLexical(f.typ) {
      hide FieldArgs, FieldItems, Print;
      LexicalArgs(f);
    } else {
      hide Print, Normalized, Fault;
      assert VectorArgs(Normalized(f.vector.value))[0] == Str("VECTOR");
    }
  }

  lemma {:induction false} LeadsApart(f: Field, g: Field, more: seq<Arg>)
    requires FieldArgs(g).Ok? && !Takes(f, LeadName(g))
    ensures |FieldItems(f)| == |FieldSlots(f.typ)|
    ensures Apart(FieldItems(f), FieldSlots(f.typ), false, FieldArgs(g).value + more)
  {
    hide FieldArgs, FieldItems, FieldSlots, Apart, Takes, SecondName, LeadName;
    LeadsField(g, more);
    SecondArg(g, more);
    TakesApart(f, FieldArgs(g).value + more);
  }

  /** A modifier that is read although the field has none of it changes the field. */
  lemma {:induction false} TakenDiffers(f: Field, j: nat, items: seq<Item>, arg: string)
    requires IsLexical(f.typ) && |items| == |FieldSlots(f.typ)| == |FieldItems(f)| && j < |items|
    requires !FieldItems(f)[j].present && items[j].present && arg != ""
    requires FieldSlots(f.typ)[j].operand.Nothing? || items[j].args == [Str(arg)]
    ensures Attributed(Named(f, TypeText), f.typ, items) != Printed(f)
  {
    match f.typ
    case TypeText => TextDiffers(if f.text.Some? then f.text.value else DEFAULT_TEXT, j, items, arg);
    case TypeTag => TagDiffers(if f.tag.Some? then f.tag.value else DEFAULT_TAG, j, items);
    case _ =>
  }

  lemma {:induction false} BaseDiffers(b: BaseAttrs, unf: bool, j: nat, items: seq<Item>)
    requires |items| == 4 && j < 4 && !BaseItems(b, unf)[j].present && items[j].present
    ensures j == 2 ==> UnfOf(items) != (b.sortable && unf)
    ensures j != 2 ==> BaseOf(items) != b
  {
  }

  lemma {:induction false} TextDiffers(a: TextAttrs, j: nat, items: seq<Item>, arg: string)
    requires |items| == 9 && j < 9 && arg != ""
    requires !(TextItems(a) + BaseItems(a.base, a.unf))[j].present && items[j].present
    requires j == 1 || j == 2 ==> items[j].args == [Str(arg)]
    ensures TextOf(items) != PrintedText(a)
  {
    if j >= 5 {
      BaseDiffers(a.base, a.unf, j - 5, items[5..]);
    }
  }

  lemma {:induction false} TagDiffers(a: TagAttrs, j: nat, items: seq<Item>)
    requires |items| == 7 && j < 7 && !(TagItems(a) + PlainItems(a.base))[j].present && items[j].present
    ensures TagOf(items) != PrintedTag(a)
  {
    if j >= 4 {
      assert items[4..][j - 4] == items[j] && !PlainItems(a.base)[j - 4].present;
    }
  }

  /** The reader gets the first field wrong. */
  predicate Misread(args: seq<Arg>, f: Field) {
    ReadField(args).Some? ==> ReadField(args).value.0 != f
  }

  lemma {:induction false} LexicalTaken(f: Field, g: Field, more: seq<Arg>)
    requires IsLexical(f.typ) && FieldArgs(g).Ok? && Takes(f, LeadName(g))
    ensures FieldArgs(f).Ok? && Misread(FieldArgs(f).value + (FieldArgs(g).value + more), Printed(f))
  {
    hide Print, Read, ReadField, FieldItems, FieldSlots, FieldArgs, Printed, AbsentFrom, LeadName, Starts;
    hide Distinct, Attributed, SecondName;
    var rest, items, slots := FieldArgs(g).value + more, FieldItems(f), FieldSlots(f.typ);
    ItemsFit(f);
    SlotsDistinct(f.typ);
    var j :| 0 <= j < |items| && items[j].keyword == LeadName(g) && Open(items, slots, j);
    LeadsField(g, more);
    SecondArg(g, more);
    LexicalRead(f, rest);
    TakenAt(items, slots, j, rest);
    TakenDiffers(f, j, Read(slots, Print(items) + rest, false).0, SecondName(g));
  }

  lemma {:induction false} TakenAt(items: seq<Item>, slots: seq<Slot>, j: nat, rest: seq<Arg>)
    requires Fits(items, slots, false) && Distinct(slots) && j < |items| && Open(items, slots, j)
    requires |rest| > 1 && rest[0] == Str(items[j].keyword) && rest[1].Str?
    ensures var read := Read(slots, Print(items) + rest, false);
            && |read.0| > j && read.0[j].present && !items[j].present
            && (slots[j].operand.Nothing? || read.0[j].args == [rest[1]])
  {
    hide Print, Read;
    assert FitsSlot(items[j], slots[j]);
    ReadTaken(items, slots, false, j, rest);
    assert rest[1..2] == [rest[1]];
  }

  lemma {:induction false} VectorTaken(f: Field, g: Field, more: seq<Arg>)
    requires f.typ.TypeVector? && FieldArgs(f).Ok? && FieldArgs(g).Ok? && Takes(f, LeadName(g))
    ensures Misread(FieldArgs(f).value + (FieldArgs(g).value + more), Printed(f))
  {
    var items := FieldItems(f);
    assert items[0].keyword == LeadName(g) && !items[0].present && AbsentFrom(items, 0);
    ItemsFit(f);
    SlotsDistinct(f.typ);
    KeepsIndexMissing(f.vector.value);
    hide Print, Read, ReadField, FieldArgs, Fits, Distinct, AbsentFrom, LeadName, PrintedVector, Normalized;
    var rest := FieldArgs(g).value + more;
    LeadsField(g, more);
    ReadTaken(items, VECTOR_SLOTS, false, 0, rest);
    VectorFieldReads(f, rest);
  }

  lemma {:induction false} FirstRead(args: seq<Arg>, f: Field, others: seq<Field>)
    requires ReadAll(args) == Some([f] + others)
    ensures ReadField(args).Some? && ReadField(args).value.0 == f
  {
    hide ReadField;
    assert ([f] + others)[0] == f;
  }

  lemma {:induction false} MisreadFails(args: seq<Arg>, f: Field, others: seq<Field>)
    requires args != [] && Misread(args, f)
    ensures ReadAll(args) != Some([f] + others)
  {
    hide ReadField;
    if ReadAll(args) == Some([f] + others) {
      FirstRead(args, f, others);
      assert false;
    }
  }

  /** The reader recovers every field of a schema in order, up to the printed defaults, exactly when no field
      would take the name or path that the next one starts with for one of its own modifiers. */
  lemma {:induction false} SchemaRead(fields: seq<Field>)
    requires AllArgs(fields).Ok?
    ensures ReadAll(AllArgs(fields).value) == Some(PrintedFields(fields)) <==> NoneTaken(fields)
    decreases |fields|, 0
  {
    hide FieldArgs, ReadField, Printed, LeadName, Takes, Misread, Apart, FieldItems;
    if fields == [] {
      assert PrintedFields(fields) == [];
    } else {
      var f, others := fields[0], fields[1..];
      assert fields == [f] + others;
      AllArgsFront(f, others);
      if others == [] {
        NothingApart(f);
        FieldRead(f, []);
        ReadAllStep(f, [], []);
        assert AllArgs([]) == Ok([]);
        assert PrintedFields(fields) == [Printed(f)] + [];
      } else {
        SchemaReadStep(f, others);
      }
    }
  }

  lemma NothingApart(f: Field)
    ensures |FieldItems(f)| == |FieldSlots(f.typ)| && Apart(FieldItems(f), FieldSlots(f.typ), false, [])
  {
    ItemsFit(f);
  }

  lemma {:induction false} SchemaReadStep(f: Field, others: seq<Field>)
    requires others != [] && FieldArgs(f).Ok? && AllArgs(others).Ok?
    ensures ReadAll(FieldArgs(f).value + AllArgs(others).value) == Some(PrintedFields([f] + others)) <==>
              NoneTaken([f] + others)
    decreases |others|, 1
  {
    hide FieldArgs, ReadField, Printed, LeadName, Takes, Misread, Apart, FieldItems;
    var g, later, rest := others[0], others[1..], AllArgs(others).value;
    assert others == [g] + later;
    AllArgsFront(g, later);
    SplitTaken(f, others);
    assert PrintedFields([f] + others) == [Printed(f)] + PrintedFields(others);
    if Takes(f, LeadName(g)) {
      Taken(f, g, AllArgs(later).value);
      MisreadFails(FieldArgs(f).value + rest, Printed(f), PrintedFields(others));
    } else {
      LeadsApart(f, g, AllArgs(later).value);
      FieldRead(f, rest);
      SchemaRead(others);
      ReadAllFirst(f, rest);
      if ReadAll(rest).Some? {
        SameTail(Printed(f), ReadAll(rest).value, PrintedFields(others));
      }
    }
  }

  lemma {:induction false} SameTail(f: Field, fs: seq<Field>, gs: seq<Field>)
    ensures [f] + fs == [f] + gs <==> fs == gs
  {
    assert ([f] + fs)[1..] == fs && ([f] + gs)[1..] == gs;
  }

  lemma {:induction false} SplitTaken(f: Field, others: seq<Field>)
    requires others != []
    ensures NoneTaken([f] + others) <==> !Takes(f, LeadName(others[0])) && NoneTaken(others)
  {
    hide Takes, LeadName;
    var all := [f] + others;
    assert all[0] == f && all[1] == others[0];
    if NoneTaken(all) {
      forall i | 1 <= i < |others| ensures !Takes(others[i - 1], LeadName(others[i])) {
        assert others[i] == all[i + 1] && others[i - 1] == all[i];
      }
    }
    if !Takes(f, LeadName(others[0])) && NoneTaken(others) {
      forall i | 1 <= i < |all| ensures !Takes(all[i - 1], LeadName(all[i])) {
        assert i > 1 ==> all[i] == others[i - 1] && all[i - 1] == others[i - 2];
      }
    }
  }

  lemma {:induction false} Taken(f: Field, g: Field, more: seq<Arg>)
    requires FieldArgs(f).Ok? && FieldArgs(g).Ok? && Takes(f, LeadName(g))
    ensures Misread(FieldArgs(f).value + (FieldArgs(g).value + more), Printed(f))
    ensures FieldArgs(f).value + (FieldArgs(g).value + more) != []
  {
    if IsLexical(f.typ) {
      hide Misread, Takes, Printed, Print, FieldArgs;
      LexicalTaken(f, g, more);
      LeadsField(g, more);
    } else {
      LeadsField(g, more);
      VectorTaken(f, g, more);
    }
  }

  /** A field that is read back is the first of those read. */
  lemma {:induction false} ReadAllFirst(f: Field, rest: seq<Arg>)
    requires FieldArgs(f).Ok? && ReadField(FieldArgs(f).value + rest) == Some((Printed(f), rest))
    ensures ReadAll(FieldArgs(f).value + rest)
         == match ReadAll(rest) case None => None case Some(fs) => Some([Printed(f)] + fs)
  {
    hide FieldArgs, ReadField, Printed;
  }

  lemma {:induction false} ReadAllStep(f: Field, rest: seq<Arg>, fields: seq<Field>)
    requires FieldArgs(f).Ok? && ReadField(FieldArgs(f).value + rest) == Some((Printed(f), rest))
    requires ReadAll(rest) == Some(fields)
    ensures ReadAll(FieldArgs(f).value + rest) == Some([Printed(f)] + fields)
  {
    hide FieldArgs, ReadField, Printed;
  }

  /** Whatever follows, the reader takes at least what the field prints. */
  lemma {:induction false} FieldConsumes(f: Field, rest: seq<Arg>)
    requires FieldArgs(f).Ok?
    ensures var read := ReadField(FieldArgs(f).value + rest); read.Some? && |read.value.1| <= |rest|
  {
    ItemsFit(f);
    SlotsDistinct(f.typ);
    hide Print, Read, ReadField, FieldItems, FieldArgs, Fits, Distinct, Printed, Attributed;
    ReadConsumes(FieldItems(f), FieldSlots(f.typ), false, rest);
    if IsLexical(f.typ) {
      LexicalRead(f, rest);
    } else {
      assert f.typ.TypeVector? by {
        OnlyVector(f);
      }
      VectorFieldReads(f, rest);
    }
  }

  lemma OnlyVector(f: Field)
    requires FieldArgs(f).Ok? && !IsLexical(f.typ)
    ensures f.typ.TypeVector?
  {
  }

  /** Some field prints what f does, and then some of the arguments of g. */
  ghost predicate GoesOn(f: Field, g: Field)
    requires FieldArgs(f).Ok? && FieldArgs(g).Ok?
  {
    exists h ::
      && FieldArgs(h).Ok? && FieldArgs(f).value < FieldArgs(h).value
      && FieldArgs(h).value <= FieldArgs(f).value + FieldArgs(g).value
  }

  /** f takes the start of g for a modifier exactly when some field prints what f does and then some of the
      arguments of g. */
  lemma {:induction false} TakesIff(f: Field, g: Field)
    requires FieldArgs(f).Ok? && FieldArgs(g).Ok?
    ensures Takes(f, LeadName(g)) <==> GoesOn(f, g)
  {
    hide FieldArgs, Takes, LeadName;
    if Takes(f, LeadName(g)) {
      hide GoesOn;
      TakesGoesOn(f, g);
    } else if h :| && FieldArgs(h).Ok? && FieldArgs(f).value < FieldArgs(h).value
                   && FieldArgs(h).value <= FieldArgs(f).value + FieldArgs(g).value {
      NothingLonger(f, g, h);
      assert false;
    }
  }

  lemma {:induction false} NothingLonger(f: Field, g: Field, h: Field)
    requires FieldArgs(f).Ok? && FieldArgs(g).Ok? && FieldArgs(h).Ok? && !Takes(f, LeadName(g))
    requires FieldArgs(h).value <= FieldArgs(f).value + FieldArgs(g).value
    ensures |FieldArgs(h).value| <= |FieldArgs(f).value|
  {
    hide FieldArgs, Takes, LeadName, ReadField, Apart, FieldItems, FieldSlots, Printed;
    var mine, next, long := FieldArgs(f).value, FieldArgs(g).value, FieldArgs(h).value;
    var more := (mine + next)[|long|..];
    LeadsApart(f, g, []);
    assert next + [] == next && long + more == mine + next;
    FieldRead(f, next);
    FieldConsumes(h, more);
  }

  lemma {:induction false} TakesGoesOn(f: Field, g: Field)
    requires FieldArgs(f).Ok? && FieldArgs(g).Ok? && Takes(f, LeadName(g))
    ensures GoesOn(f, g)
  {
    ItemsFit(f);
    hide FieldArgs, FieldItems, FieldSlots, AbsentFrom, LeadName, SecondName;
    var items, slots, args := FieldItems(f), FieldSlots(f.typ), FieldArgs(g).value;
    LeadsField(g, []);
    SecondArg(g, []);
    assert args + [] == args;
    var j :| 0 <= j < |items| && items[j].keyword == LeadName(g) && Open(items, slots, j);
    var item := Item(LeadName(g), true, if slots[j].operand.Nothing? then [] else [Str(SecondName(g))]);
    WithItem(f, j, item, SecondName(g));
    var h :| FieldArgs(h).Ok? && FieldArgs(h).value == FieldArgs(f).value + Piece(item);
    GoesOnWith(f, g, h, Piece(item));
  }

  lemma GoesOnWith(f: Field, g: Field, h: Field, more: seq<Arg>)
    requires FieldArgs(f).Ok? && FieldArgs(g).Ok? && FieldArgs(h).Ok?
    requires more != [] && more <= FieldArgs(g).value && FieldArgs(h).value == FieldArgs(f).value + more
    ensures GoesOn(f, g)
  {
    hide FieldArgs;
    assert FieldArgs(f).value + FieldArgs(g).value == FieldArgs(h).value + FieldArgs(g).value[|more|..];
  }

  /** The modifier of an open slot is the last one that some field prints. */
  lemma {:induction false} WithItem(f: Field, j: nat, item: Item, arg: string)
    requires FieldArgs(f).Ok? && Fits(FieldItems(f), FieldSlots(f.typ), false)
    requires j < |FieldItems(f)| && Open(FieldItems(f), FieldSlots(f.typ), j) && arg != ""
    requires item == Item(FieldItems(f)[j].keyword, true,
                          if FieldSlots(f.typ)[j].operand.Nothing? then [] else [Str(arg)])
    ensures exists h :: FieldArgs(h).Ok? && FieldArgs(h).value == FieldArgs(f).value + Piece(item)
  {
    if IsLexical(f.typ) {
      LexicalWith(f, j, item, arg);
    } else {
      OnlyVector(f);
      VectorWith(f, j, item);
    }
  }

  lemma {:induction false} LexicalWith(f: Field, j: nat, item: Item, arg: string)
    requires IsLexical(f.typ) && Fits(FieldItems(f), FieldSlots(f.typ), false)
    requires j < |FieldItems(f)| && Open(FieldItems(f), FieldSlots(f.typ), j) && arg != ""
    requires item == Item(FieldItems(f)[j].keyword, true,
                          if FieldSlots(f.typ)[j].operand.Nothing? then [] else [Str(arg)])
    ensures FieldArgs(f).Ok?
    ensures exists h :: FieldArgs(h).Ok? && FieldArgs(h).value == FieldArgs(f).value + Piece(item)
  {
    hide FieldArgs, FieldItems, FieldSlots, AbsentFrom, Piece, FitsSlot, Attributed, Head;
    var items := FieldItems(f)[j := item];
    assert |items| == |FieldSlots(f.typ)|;
    hide Fits;
    var h := Attributed(Named(f, TypeText), f.typ, items);
    AttributedItems(f, j, item, arg);
    LexicalArgs(f);
    LexicalArgs(h);
    PrintSet(FieldItems(f), j, item);
    assert FieldArgs(h).value == FieldArgs(f).value + Piece(item);
  }

  lemma {:induction false} PrintSet(items: seq<Item>, j: nat, item: Item)
    requires j < |items| && AbsentFrom(items, j)
    ensures Print(items[j := item]) == Print(items) + Piece(item)
  {
    hide Print, Piece;
    var front, back := items[..j], items[j + 1..];
    assert items[j := item] == front + ([item] + back) && items == front + items[j..];
    PrintsNothing(items[j..]);
    PrintsNothing(back);
    PrintAppend(front, [item] + back);
    PrintAppend(front, items[j..]);
    PrintFront(item, back);
  }

  /** The modifiers are those of some field: they fit, and hold no value that is not printed. */
  predicate Proper(typ: FieldType, items: seq<Item>) {
    && Fits(items, FieldSlots(typ), false)
    && (typ.TypeText? && items[1].present ==> items[1].args[0].r != 0.0 && items[1].args[0].r != 1.0)
    && (typ.TypeText? && items[2].present ==> items[2].args[0].s != "")
    && (typ.TypeTag? ==> items[0].present && items[0].args[0].s != "")
  }

  lemma {:induction false} FlagBack(items: seq<Item>, slots: seq<Slot>, i: nat)
    requires Fits(items, slots, false) && i < |items| && slots[i].operand.Nothing?
    ensures items[i] == Flag(slots[i].keyword, items[i].present)
  {
    assert FitsSlot(items[i], slots[i]);
  }

  lemma {:induction false} BaseBack(items: seq<Item>)
    requires Fits(items, BASE_SLOTS, false)
    ensures BaseItems(BaseOf(items), UnfOf(items)) == items
  {
    FlagBack(items, BASE_SLOTS, 0);
    FlagBack(items, BASE_SLOTS, 1);
    FlagBack(items, BASE_SLOTS, 2);
    FlagBack(items, BASE_SLOTS, 3);
    hide FitsSlot;
    assert items[2].present ==> Preceded(items, false, 2);
  }

  lemma {:induction false} PlainBack(items: seq<Item>)
    requires Fits(items, PLAIN_SLOTS, false)
    ensures PlainItems(PlainOf(items)) == items
  {
    FlagBack(items, PLAIN_SLOTS, 0);
    FlagBack(items, PLAIN_SLOTS, 1);
    FlagBack(items, PLAIN_SLOTS, 2);
    hide FitsSlot;
  }

  /** The two parts of the modifiers fit their slots. */
  lemma {:induction false} FitsParts(items: seq<Item>, slots: seq<Slot>, slots': seq<Slot>)
    requires Fits(items, slots + slots', false) && slots != [] && slots' != [] && !slots'[0].nested
    ensures Fits(items[..|slots|], slots, false) && Fits(items[|slots|..], slots', false)
  {
    hide FitsSlot;
    var all, k := slots + slots', |slots|;
    forall i | 0 <= i < k ensures FitsSlot(items[..k][i], slots[i]) {
      assert FitsSlot(items[i], all[i]);
    }
    forall i | 0 <= i < |slots'| ensures FitsSlot(items[k..][i], slots'[i]) {
      assert FitsSlot(items[k + i], all[k + i]);
    }
    forall i | 0 <= i < k && items[..k][i].present && slots[i].nested ensures Preceded(items[..k], false, i) {
      assert all[i] == slots[i] && Preceded(items, false, i);
    }
    forall i | 0 <= i < |slots'| && items[k..][i].present && slots'[i].nested ensures Preceded(items[k..], false, i) {
      assert all[k + i] == slots'[i] && Preceded(items, false, k + i);
    }
  }

  lemma {:induction false} TextBack(items: seq<Item>, a: TextAttrs)
    requires Fits(items, TEXT_SLOTS, false)
    requires items[1].present ==> items[1].args[0].r == a.weight != 0.0 && a.weight != 1.0
    requires !items[1].present ==> a.weight == 1.0
    requires items[2].present ==> items[2].args[0].s == a.phoneticMatcher != ""
    requires !items[2].present ==> a.phoneticMatcher == ""
    requires (a.noStem, a.withSuffixTrie, a.indexEmpty) == (items[0].present, items[3].present, items[4].present)
    ensures TextItems(a) == items
  {
    FlagBack(items, TEXT_SLOTS, 0);
    FlagBack(items, TEXT_SLOTS, 3);
    FlagBack(items, TEXT_SLOTS, 4);
    assert FitsSlot(items[1], TEXT_SLOTS[1]) && FitsSlot(items[2], TEXT_SLOTS[2]);
    hide Fits;
    assert items[1] == TextItems(a)[1];
    assert items[2] == TextItems(a)[2];
  }

  lemma {:induction false} TagBack(items: seq<Item>, a: TagAttrs)
    requires Fits(items, TAG_SLOTS, false) && items[0].present && items[0].args[0].s == a.separator != ""
    requires (a.caseSensitive, a.withSuffixTrie, a.indexEmpty) == (items[1].present, items[2].present, items[3].present)
    ensures TagItems(a) == items
  {
    FlagBack(items, TAG_SLOTS, 1);
    FlagBack(items, TAG_SLOTS, 2);
    FlagBack(items, TAG_SLOTS, 3);
    assert FitsSlot(items[0], TAG_SLOTS[0]);
    hide Fits;
    assert items[0] == TagItems(a)[0];
  }

  /** Proper modifiers are the ones printed by the field that is read from them. */
  lemma {:induction false} ItemsBack(f: Field, typ: FieldType, items: seq<Item>)
    requires IsLexical(typ) && Proper(typ, items)
    ensures FieldItems(Attributed(f, typ, items)) == items
  {
    match typ
    case TypeText =>
      FitsParts(items, TEXT_SLOTS, BASE_SLOTS);
      BaseBack(items[5..]);
      TextParts(items);
      hide Fits, TextItems, BaseItems;
      assert items == items[..5] + items[5..];
    case TypeTag =>
      FitsParts(items, TAG_SLOTS, PLAIN_SLOTS);
      PlainBack(items[4..]);
      TagParts(items);
      hide Fits, TagItems, PlainItems;
      assert items == items[..4] + items[4..];
    case TypeNumeric => BaseBack(items);
    case TypeGeo => PlainBack(items);
  }

  lemma {:induction false} TextParts(items: seq<Item>)
    requires Proper(TypeText, items) && Fits(items[..5], TEXT_SLOTS, false)
    ensures TextItems(TextOf(items)) == items[..5]
  {
    assert FitsSlot(items[..5][1], TEXT_SLOTS[1]) && FitsSlot(items[..5][2], TEXT_SLOTS[2]);
    hide Fits, TextItems;
    TextBack(items[..5], TextOf(items));
  }

  lemma {:induction false} TagParts(items: seq<Item>)
    requires Proper(TypeTag, items) && Fits(items[..4], TAG_SLOTS, false)
    ensures TagItems(TagOf(items)) == items[..4]
  {
    assert FitsSlot(items[..4][0], TAG_SLOTS[0]);
    hide Fits, TagItems;
    TagBack(items[..4], TagOf(items));
  }

  lemma {:induction false} FitsSet(items: seq<Item>, slots: seq<Slot>, j: nat, item: Item)
    requires Fits(items, slots, false) && j < |items| && FitsSlot(item, slots[j])
    requires item.present && AbsentFrom(items, j) && (slots[j].nested ==> Preceded(items, false, j))
    ensures Fits(items[j := item], slots, false)
  {
    hide FitsSlot;
    var all := items[j := item];
    forall i | 0 <= i < |all| && all[i].present && slots[i].nested ensures Preceded(all, false, i) {
      assert i <= j && (i < j ==> all[i] == items[i]);
      assert Preceded(items, false, i);
    }
  }

  lemma {:induction false} SameHead(f: Field, items: seq<Item>)
    requires IsLexical(f.typ) && |items| == |FieldSlots(f.typ)|
    ensures var h := Attributed(Named(f, TypeText), f.typ, items); h.typ == f.typ && Head(h) == Head(f)
  {
    hide TextOf, TagOf, BaseOf, PlainOf, UnfOf;
  }

  lemma {:induction false} SetProper(f: Field, j: nat, item: Item, arg: string)
    requires IsLexical(f.typ) && Proper(f.typ, FieldItems(f))
    requires j < |FieldItems(f)| && Open(FieldItems(f), FieldSlots(f.typ), j) && arg != ""
    requires item == Item(FieldItems(f)[j].keyword, true,
                          if FieldSlots(f.typ)[j].operand.Nothing? then [] else [Str(arg)])
    ensures Proper(f.typ, FieldItems(f)[j := item])
  {
    assert !FieldItems(f)[j].present;
    assert FitsSlot(FieldItems(f)[j], FieldSlots(f.typ)[j]);
    FitsSet(FieldItems(f), FieldSlots(f.typ), j, item);
    hide Fits, FieldItems, AbsentFrom, FitsSlot;
  }

  lemma {:induction false} AttributedItems(f: Field, j: nat, item: Item, arg: string)
    requires IsLexical(f.typ) && Fits(FieldItems(f), FieldSlots(f.typ), false)
    requires j < |FieldItems(f)| && Open(FieldItems(f), FieldSlots(f.typ), j) && arg != ""
    requires item == Item(FieldItems(f)[j].keyword, true,
                          if FieldSlots(f.typ)[j].operand.Nothing? then [] else [Str(arg)])
    ensures var h := Attributed(Named(f, TypeText), f.typ, FieldItems(f)[j := item]);
            FieldItems(h) == FieldItems(f)[j := item] && h.typ == f.typ && Head(h) == Head(f)
  {
    ItemsProper(f);
    hide FieldItems, FieldSlots, AbsentFrom, Named, Head, Attributed;
    SetProper(f, j, item, arg);
    SameHead(f, FieldItems(f)[j := item]);
    ItemsBack(Named(f, TypeText), f.typ, FieldItems(f)[j := item]);
  }

  lemma {:induction false} ItemsProper(f: Field)
    requires IsLexical(f.typ)
    ensures Proper(f.typ, FieldItems(f))
  {
    ItemsFit(f);
    hide Fits;
    if f.typ.TypeTag? {
      assert OrElse((if f.tag.Some? then f.tag.value else DEFAULT_TAG).separator, ",") != "";
    }
  }

  lemma {:induction false} VectorWith(f: Field, j: nat, item: Item)
    requires f.typ.TypeVector? && FieldArgs(f).Ok? && Fits(FieldItems(f), FieldSlots(f.typ), false)
    requires j < |FieldItems(f)| && Open(FieldItems(f), FieldSlots(f.typ), j)
    requires item == Flag(FieldItems(f)[j].keyword, true)
    ensures exists h :: FieldArgs(h).Ok? && FieldArgs(h).value == FieldArgs(f).value + Piece(item)
  {
    var h := f.(vector := Some(f.vector.value.(indexMissing := true)));
    assert !FieldItems(f)[j].present && !f.vector.value.indexMissing && item == Flag("INDEXMISSING", true);
    VectorArgsSet(f);
    MissingSet(f.vector.value);
    hide FieldArgs, Normalized, Fault, VectorArgs, Print, Piece, FieldItems, FieldSlots, Fits, Open, Head;
    VectorGrows(Normalized(f.vector.value), item);
    Assoc(Head(f), VectorArgs(Normalized(f.vector.value)), Piece(item));
    assert FieldArgs(h).value == FieldArgs(f).value + Piece(item);
  }

  lemma VectorArgsSet(f: Field)
    requires f.typ.TypeVector? && FieldArgs(f).Ok?
    ensures var h := f.(vector := Some(f.vector.value.(indexMissing := true)));
            && FieldArgs(h) == Ok(Head(f) + VectorArgs(Normalized(f.vector.value).(indexMissing := true)))
            && FieldArgs(f) == Ok(Head(f) + VectorArgs(Normalized(f.vector.value)))
  {
    MissingSet(f.vector.value);
    hide Normalized, Fault, VectorArgs;
  }

  lemma MissingSet(v: VectorAttrs)
    ensures Normalized(v.(indexMissing := true)) == Normalized(v).(indexMissing := true)
    ensures Fault(Normalized(v.(indexMissing := true))) == Fault(Normalized(v))
    ensures Normalized(v).indexMissing == v.indexMissing
  {
  }

  lemma {:induction false} VectorGrows(v: VectorAttrs, item: Item)
    requires !v.indexMissing && item == Flag("INDEXMISSING", true)
    ensures VectorArgs(v.(indexMissing := true)) == VectorArgs(v) + Piece(item)
  {
    var v' := v.(indexMissing := true);
    assert Print(CommonItems(v')) + Print(AlgorithmItems(v')) == Print(CommonItems(v)) + Print(AlgorithmItems(v));
    PrintsNothing([Flag("INDEXMISSING", false)]);
    PrintFront(item, []);
    PrintEmpty();
    assert [item] + [] == [item];
    hide Print, Piece, CommonItems, AlgorithmItems;
  }

  /** A schema with the same arguments as one that is read back has the same fields, up to the printed
      defaults, exactly when it is read back too. */
  lemma {:induction false} ArgsApart(fields: seq<Field>, fields': seq<Field>)
    requires AllArgs(fields).Ok? && AllArgs(fields') == AllArgs(fields) && NoneTaken(fields)
    ensures PrintedFields(fields) == PrintedFields(fields') <==> NoneTaken(fields')
  {
    hide AllArgs, ReadAll, PrintedFields, NoneTaken;
    SchemaRead(fields);
    SchemaRead(fields');
  }

  /** Without the condition on names schemas collide: a text field named PHONETIC reads as the phonetic
      matcher of the text field before it. */
  lemma ModifierNamesCollide()
    ensures var two := [NewTextField("a", None), NewTextField("PHONETIC", None)];
            var one := [NewTextField("a", Some(DEFAULT_TEXT.(phoneticMatcher := "TEXT")))];
            && AllArgs(two) == AllArgs(one) == Ok([Str("a"), Str("TEXT"), Str("PHONETIC"), Str("TEXT")])
            && PrintedFields(two) != PrintedFields(one)
  {
    var a, p := NewTextField("a", None), NewTextField("PHONETIC", None);
    var m := NewTextField("a", Some(DEFAULT_TEXT.(phoneticMatcher := "TEXT")));
    PlainText("a");
    PlainText("PHONETIC");
    PhoneticText();
    hide FieldArgs, Printed, NewTextField;
    AllArgsOne(a);
    AllArgsOne(m);
    AllArgsTwo(a, p);
    assert [Str("a"), Str("TEXT")] + [Str("PHONETIC"), Str("TEXT")]
        == [Str("a"), Str("TEXT"), Str("PHONETIC"), Str("TEXT")];
    assert |PrintedFields([a, p])| == 2 && |PrintedFields([m])| == 1;
  }

  lemma AllArgsOne(f: Field)
    requires FieldArgs(f).Ok?
    ensures AllArgs([f]) == FieldArgs(f)
  {
    hide FieldArgs;
    assert [f][..0] == [];
    assert [] + FieldArgs(f).value == FieldArgs(f).value;
  }

  lemma AllArgsTwo(f: Field, g: Field)
    requires FieldArgs(f).Ok? && FieldArgs(g).Ok?
    ensures AllArgs([f, g]) == Ok(FieldArgs(f).value + FieldArgs(g).value)
  {
    hide FieldArgs;
    AllArgsOne(f);
    assert [f, g][..1] == [f];
  }

  lemma PlainText(name: string)
    ensures FieldArgs(NewTextField(name, None)) == Ok([Str(name), Str("TEXT")])
  {
    hide Print, VectorArgs, Normalized, Fault, TagItems;
    PrintsNothing(TextItems(DEFAULT_TEXT));
    PrintsNothing(BaseItems(NO_BASE, false));
    assert [Str(name)] + [Str("TEXT")] + [] + [] == [Str(name), Str("TEXT")];
  }

  lemma PhoneticText()
    ensures FieldArgs(NewTextField("a", Some(DEFAULT_TEXT.(phoneticMatcher := "TEXT"))))
         == Ok([Str("a"), Str("TEXT"), Str("PHONETIC"), Str("TEXT")])
  {
    var a := DEFAULT_TEXT.(phoneticMatcher := "TEXT");
    var items, start := TextItems(a), [Str("a"), Str("TEXT")];
    var args := start + [Str("PHONETIC"), Str("TEXT")];
    hide Print, VectorArgs, Normalized, Fault, TagItems;
    PrintNone(items, start);
    PrintsNothing(BaseItems(NO_BASE, false));
    assert start + Piece(items[0]) == start && start + Piece(items[1]) == start;
    assert args + Piece(items[3]) == args && args + Piece(items[4]) == args;
    Appended(items, 0, start, start, start);
    Appended(items, 1, start, start, start);
    Appended(items, 2, start, start, args);
    Appended(items, 3, start, args, args);
    Appended(items, 4, start, args, args);
    var f := NewTextField("a", Some(a));
    assert Head(f) + [Str("TEXT")] == start;
    assert f.text == Some(a) && BaseItems(a.base, a.unf) == BaseItems(NO_BASE, false);
    assert FieldArgs(f) == Ok(start + Print(items) + []);
    assert args + [] == [Str("a"), Str("TEXT"), Str("PHONETIC"), Str("TEXT")];
  }
}
