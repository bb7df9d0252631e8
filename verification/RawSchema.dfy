/** The raw form of a schema, to and from which it is converted for YAML (schema/schema.go:159-518). */
module RawSchema {
  import opened Common
  import opened Fields
  import opened Schema

  /** A dynamically typed value. Strings is a list of strings, List one of dynamically typed values. */
  datatype Any =
    | Null
    | Bool(b: bool)
    | String(s: string)
    | Int(n: int)
    | Float(r: real)
    | Strings(ss: seq<string>)
    | List(values: seq<Any>)

  /** The attribute names. */
  datatype Key =
    | Sortable | IndexMissing | NoIndex | Weight | NoStem | WithSuffixTrie | PhoneticMatcher | IndexEmpty | UNF
    | Separator | CaseSensitive
    | Dims | Algorithm | DataType | DistanceMetric | InitialCap | BlockSize | M | EfConstruction | EfRuntime | Epsilon
    | GraphMaxDegree | ConstructionWindowSize | SearchWindowSize | Compression | Reduce | TrainingThreshold

  type Attrs = map<Key, Any>

  datatype RawField = RawField(name: string, typ: string, path: string, attrs: Option<Attrs>)

  datatype RawIndex = RawIndex(
    name: string, prefix: Any, keySeparator: string, storageType: string, stopwords: Option<seq<string>>)

  datatype RawSchema = RawSchema(version: string, index: RawIndex, fields: seq<RawField>)

  function Get(m: Option<Attrs>, k: Key): Any {
    if m.Some? && k in m.value then m.value[k] else Null
  }

  function GetBool(m: Option<Attrs>, k: Key): bool {
    match Get(m, k)
    case Bool(b) => b
    case _ => false
  }

  function GetString(m: Option<Attrs>, k: Key): string {
    match Get(m, k)
    case String(s) => s
    case _ => ""
  }

  /** Conversion of a float to an int truncates toward zero. */
  function Truncate(r: real): int {
    if r >= 0.0 then r.Floor else -((-r).Floor)
  }

  function GetInt(m: Option<Attrs>, k: Key): Option<int> {
    match Get(m, k)
    case Int(n) => Some(n)
    case Float(r) => Some(Truncate(r))
    case _ => None
  }

  function GetFloat(m: Option<Attrs>, k: Key): Option<real> {
    match Get(m, k)
    case Float(r) => Some(r)
    case Int(n) => Some(n as real)
    case _ => None
  }

  function TypeName(t: FieldType): string {
    match t
    case TypeTag => "tag"
    case TypeText => "text"
    case TypeNumeric => "numeric"
    case TypeGeo => "geo"
    case TypeVector => "vector"
    case TypeUnknown(name) => name
  }

  function ParseType(s: string): FieldType {
    if s == "tag" then TypeTag
    else if s == "text" then TypeText
    else if s == "numeric" then TypeNumeric
    else if s == "geo" then TypeGeo
    else if s == "vector" then TypeVector
    else TypeUnknown(s)
  }

  function BaseFrom(m: Option<Attrs>): BaseAttrs {
    BaseAttrs(GetBool(m, Sortable), GetBool(m, IndexMissing), GetBool(m, NoIndex))
  }

  function VectorFrom(m: Option<Attrs>, dims: int, algorithm: string): VectorAttrs {
    VectorAttrs(dims, ToUpper(algorithm), GetString(m, DataType), ToUpper(GetString(m, DistanceMetric)),
                GetInt(m, InitialCap), GetBool(m, IndexMissing), GetInt(m, BlockSize), GetInt(m, M),
                GetInt(m, EfConstruction), GetInt(m, EfRuntime), GetFloat(m, Epsilon), GetInt(m, GraphMaxDegree),
                GetInt(m, ConstructionWindowSize), GetInt(m, SearchWindowSize), GetString(m, Compression),
                GetInt(m, Reduce), GetInt(m, TrainingThreshold))
  }

  function FieldFromRaw(rf: RawField): Result<Field, Error> {
    var m := rf.attrs;
    match ParseType(ToLower(rf.typ))
    case TypeText =>
      var weight := match GetFloat(m, Weight) case Some(w) => w case None => 1.0;
      var a := TextAttrs(BaseFrom(m), weight, GetBool(m, NoStem), GetBool(m, WithSuffixTrie),
                         GetString(m, PhoneticMatcher), GetBool(m, IndexEmpty), GetBool(m, UNF));
      Ok(Bare(rf.name, TypeText).(text := Some(a)))
    case TypeTag =>
      var a := TagAttrs(BaseFrom(m), OrElse(GetString(m, Separator), ","), GetBool(m, CaseSensitive),
                        GetBool(m, WithSuffixTrie), GetBool(m, IndexEmpty));
      Ok(Bare(rf.name, TypeTag).(tag := Some(a)))
    case TypeNumeric => Ok(Bare(rf.name, TypeNumeric).(numeric := Some(NumericAttrs(BaseFrom(m), GetBool(m, UNF)))))
    case TypeGeo => Ok(Bare(rf.name, TypeGeo).(geo := Some(GeoAttrs(BaseFrom(m)))))
    case TypeVector =>
      if m.None? then Err(AttrsRequired)
      else if GetInt(m, Dims).None? then Err(DimsRequired)
      else if GetString(m, Algorithm) == "" then Err(AlgorithmRequired)
      else NewVectorField(rf.name, VectorFrom(m, GetInt(m, Dims).value, GetString(m, Algorithm)))
    case TypeUnknown(_) => Err(UnknownFieldType(rf.typ))
  }

  predicate Has(m: Option<Attrs>, k: Key, value: Any) {
    m.Some? && k in m.value && m.value[k] == value
  }

  /** s is the text of the attribute, or the default when there is none or a blank one. */
  ghost predicate ReadsText(m: Option<Attrs>, k: Key, default: string, s: string) {
    && (forall t | Has(m, k, String(t)) && t != "" :: s == t)
    && ((forall t | Has(m, k, String(t)) :: t == "") ==> s == default)
  }

  /** n is r without its fraction. */
  predicate IsTruncated(r: real, n: int) {
    if r < 0.0 then r <= n as real < r + 1.0 && n <= 0 else r - 1.0 < n as real <= r && n >= 0
  }

  lemma Truncates(r: real)
    ensures IsTruncated(r, Truncate(r))
  {
  }

  /** n is the integer of the attribute, or its float without the fraction. */
  ghost predicate ReadsInt(m: Option<Attrs>, k: Key, n: Option<int>) {
    && (forall i | Has(m, k, Int(i)) :: n == Some(i))
    && (forall r | Has(m, k, Float(r)) :: n.Some? && IsTruncated(r, n.value))
    && (n.Some? ==> m.Some? && k in m.value && (m.value[k].Int? || m.value[k].Float?))
  }

  /** r is the number of the attribute, which may be an integer. */
  ghost predicate ReadsFloat(m: Option<Attrs>, k: Key, r: Option<real>) {
    && (forall x | Has(m, k, Float(x)) :: r == Some(x))
    && (forall i | Has(m, k, Int(i)) :: r == Some(i as real))
    && (r.Some? ==> m.Some? && k in m.value && (m.value[k].Int? || m.value[k].Float?))
  }

  predicate ReadsBase(m: Option<Attrs>, b: BaseAttrs) {
    && (b.sortable <==> Has(m, Sortable, Bool(true)))
    && (b.indexMissing <==> Has(m, IndexMissing, Bool(true)))
    && (b.noIndex <==> Has(m, NoIndex, Bool(true)))
  }

  ghost predicate ReadsVector(m: Option<Attrs>, v: VectorAttrs) {
    && ReadsInt(m, Dims, Some(v.dims)) && ReadsText(m, Algorithm, "", v.algorithm)
    && ReadsText(m, DataType, "", v.dataType) && ReadsText(m, DistanceMetric, "", v.distanceMetric)
    && ReadsInt(m, InitialCap, v.initialCap) && (v.indexMissing <==> Has(m, IndexMissing, Bool(true)))
    && ReadsInt(m, BlockSize, v.blockSize) && ReadsInt(m, M, v.m) && ReadsInt(m, EfConstruction, v.efConstruction)
    && ReadsInt(m, EfRuntime, v.efRuntime) && ReadsFloat(m, Epsilon, v.epsilon)
    && ReadsInt(m, GraphMaxDegree, v.graphMaxDegree)
    && ReadsInt(m, ConstructionWindowSize, v.constructionWindowSize)
    && ReadsInt(m, SearchWindowSize, v.searchWindowSize) && ReadsText(m, Compression, "", v.compression)
    && ReadsInt(m, Reduce, v.reduce) && ReadsInt(m, TrainingThreshold, v.trainingThreshold)
  }

  /** The field has the attributes of the map; those that are absent or of another kind have their defaults. */
  ghost predicate ReadsField(m: Option<Attrs>, f: Field) {
    match f.typ
    case TypeText =>
      f.text.Some? &&
      var a := f.text.value;
      && ReadsBase(m, a.base)
      && (exists w :: ReadsFloat(m, Weight, w) && a.weight == if w.Some? then w.value else 1.0)
      && (a.noStem <==> Has(m, NoStem, Bool(true))) && (a.withSuffixTrie <==> Has(m, WithSuffixTrie, Bool(true)))
      && ReadsText(m, PhoneticMatcher, "", a.phoneticMatcher)
      && (a.indexEmpty <==> Has(m, IndexEmpty, Bool(true))) && (a.unf <==> Has(m, UNF, Bool(true)))
    case TypeTag =>
      f.tag.Some? &&
      var a := f.tag.value;
      && ReadsBase(m, a.base) && ReadsText(m, Separator, ",", a.separator)
      && (a.caseSensitive <==> Has(m, CaseSensitive, Bool(true)))
      && (a.withSuffixTrie <==> Has(m, WithSuffixTrie, Bool(true)))
      && (a.indexEmpty <==> Has(m, IndexEmpty, Bool(true)))
    case TypeNumeric =>
      f.numeric.Some? && ReadsBase(m, f.numeric.value.base) && (f.numeric.value.unf <==> Has(m, UNF, Bool(true)))
    case TypeGeo => f.geo.Some? && ReadsBase(m, f.geo.value.base)
    case TypeVector =>
      f.vector.Some? && exists v :: ReadsVector(m, v) && Acceptable(v) && IsCanonical(f.vector.value, v)
    case TypeUnknown(_) => false
  }

  lemma GetReads(m: Option<Attrs>, k: Key)
    ensures GetBool(m, k) <==> Has(m, k, Bool(true))
    ensures ReadsText(m, k, "", GetString(m, k)) && ReadsText(m, k, ",", OrElse(GetString(m, k), ","))
    ensures ReadsInt(m, k, GetInt(m, k)) && ReadsFloat(m, k, GetFloat(m, k))
  {
    GetTextReads(m, k);
    GetIntReads(m, k);
    GetFloatReads(m, k);
    hide ReadsText, ReadsInt, ReadsFloat;
  }

  lemma GetTextReads(m: Option<Attrs>, k: Key)
    ensures ReadsText(m, k, "", GetString(m, k)) && ReadsText(m, k, ",", OrElse(GetString(m, k), ","))
  {
  }

  lemma GetIntReads(m: Option<Attrs>, k: Key)
    ensures ReadsInt(m, k, GetInt(m, k))
  {
    hide Truncate, IsTruncated;
    if Get(m, k).Float? {
      Truncates(Get(m, k).r);
    }
  }

  lemma GetFloatReads(m: Option<Attrs>, k: Key)
    ensures ReadsFloat(m, k, GetFloat(m, k))
  {
  }

  /** The vector attributes with the names as they are in the map. */
  function GivenVector(m: Option<Attrs>, dims: int): VectorAttrs {
    VectorFrom(m, dims, GetString(m, Algorithm)).(algorithm := GetString(m, Algorithm),
                                                  distanceMetric := GetString(m, DistanceMetric))
  }

  lemma {:induction false} GivenReads(m: Option<Attrs>, dims: int)
    requires GetInt(m, Dims) == Some(dims)
    ensures ReadsVector(m, GivenVector(m, dims))
  {
    hide GetBool, GetString, GetInt, GetFloat, ReadsText, ReadsInt, ReadsFloat, Has;
    forall k: Key
      ensures GetBool(m, k) <==> Has(m, k, Bool(true))
      ensures ReadsText(m, k, "", GetString(m, k)) && ReadsInt(m, k, GetInt(m, k)) && ReadsFloat(m, k, GetFloat(m, k))
    {
      GetReads(m, k);
    }
  }

  /** Upper case before validation makes no difference. */
  lemma {:induction false} UpperFirst(v: VectorAttrs, w: VectorAttrs)
    requires w == v.(algorithm := ToUpper(v.algorithm), distanceMetric := ToUpper(v.distanceMetric))
    ensures Acceptable(w) <==> Acceptable(v)
    ensures forall c: VectorAttrs :: IsCanonical(c, w) ==> IsCanonical(c, v)
  {
    ToUpperIdempotent(v.algorithm);
    ToUpperIdempotent(v.distanceMetric);
    BlankCase(v.distanceMetric);
    hide ToUpper, ToLower;
  }

  /** What a raw field is read as, and when it is refused. */
  lemma {:induction false} FieldFromRawReads(rf: RawField)
    ensures var r, t := FieldFromRaw(rf), ToLower(rf.typ);
            && (t !in {"text", "tag", "numeric", "geo", "vector"} ==> r == Err(UnknownFieldType(rf.typ)))
            && (t in {"text", "tag", "numeric", "geo"} ==> r.Ok?)
            && (r.Ok? ==> TypeName(r.value.typ) == t && r.value.name == rf.name && ReadsField(rf.attrs, r.value))
  {
    var m := rf.attrs;
    hide ToLower, GetBool, GetString, GetInt, GetFloat, ReadsText, ReadsInt, ReadsFloat, Has, ReadsVector, VectorFrom;
    hide OrElse, Acceptable, IsCanonical;
    forall k: Key
      ensures GetBool(m, k) <==> Has(m, k, Bool(true))
      ensures ReadsText(m, k, "", GetString(m, k)) && ReadsText(m, k, ",", OrElse(GetString(m, k), ","))
      ensures ReadsInt(m, k, GetInt(m, k)) && ReadsFloat(m, k, GetFloat(m, k))
    {
      GetReads(m, k);
    }
    var r := FieldFromRaw(rf);
    if r.Ok? && r.value.typ.TypeVector? {
      VectorReads(rf);
    }
    if r.Ok? && r.value.typ.TypeText? {
      assert ReadsFloat(m, Weight, GetFloat(m, Weight));
    }
  }

  /** A vector field is read exactly when dims and algorithm are there and the attributes are acceptable. */
  lemma {:induction false} VectorReads(rf: RawField)
    requires ToLower(rf.typ) == "vector"
    ensures var r, m := FieldFromRaw(rf), rf.attrs;
            if m.None? then r == Err(AttrsRequired)
            else if GetInt(m, Dims).None? then r == Err(DimsRequired)
            else if GetString(m, Algorithm) == "" then r == Err(AlgorithmRequired)
            else
              var v := GivenVector(m, GetInt(m, Dims).value);
              && ReadsVector(m, v) && (r.Ok? <==> Acceptable(v))
              && (r.Ok? ==> && r.value.typ == TypeVector && r.value.name == rf.name && r.value.vector.Some?
                            && IsCanonical(r.value.vector.value, v))
  {
    var m := rf.attrs;
    if m.Some? && GetInt(m, Dims).Some? {
      var v := GivenVector(m, GetInt(m, Dims).value);
      var w := VectorFrom(m, v.dims, v.algorithm);
      GivenReads(m, v.dims);
      MadeFrom(rf.name, v, w);
      hide GetBool, GetString, GetInt, GetFloat, ReadsVector, Acceptable, IsCanonical, NewVectorField, ToLower;
      hide VectorFrom, BaseFrom;
    }
  }

  lemma MadeFrom(name: string, v: VectorAttrs, w: VectorAttrs)
    requires w == v.(algorithm := ToUpper(v.algorithm), distanceMetric := ToUpper(v.distanceMetric))
    ensures var r := NewVectorField(name, w);
            && (r.Ok? <==> Acceptable(v))
            && (r.Ok? ==> && r.value.typ == TypeVector && r.value.name == name && r.value.vector.Some?
                          && IsCanonical(r.value.vector.value, v))
  {
    UpperFirst(v, w);
    FaultIsFirst(w);
    hide Acceptable, IsCanonical, Normalized, Fault, ToUpper;
  }

  /** The value that a field's raw form has for an attribute, if any. */
  function BaseValue(b: BaseAttrs, k: Key): Option<Any> {
    match k
    case Sortable => Some(Bool(b.sortable))
    case IndexMissing => Some(Bool(b.indexMissing))
    case NoIndex => Some(Bool(b.noIndex))
    case _ => None
  }

  function TextValue(a: TextAttrs, k: Key): Option<Any> {
    match k
    case Weight => Some(Float(a.weight))
    case NoStem => Some(Bool(a.noStem))
    case WithSuffixTrie => Some(Bool(a.withSuffixTrie))
    case IndexEmpty => Some(Bool(a.indexEmpty))
    case UNF => Some(Bool(a.unf))
    case PhoneticMatcher => if a.phoneticMatcher == "" then None else Some(String(a.phoneticMatcher))
    case _ => BaseValue(a.base, k)
  }

  function TagValue(a: TagAttrs, k: Key): Option<Any> {
    match k
    case Separator => Some(String(a.separator))
    case CaseSensitive => Some(Bool(a.caseSensitive))
    case WithSuffixTrie => Some(Bool(a.withSuffixTrie))
    case IndexEmpty => Some(Bool(a.indexEmpty))
    case _ => BaseValue(a.base, k)
  }

  function OptionalInt(n: Option<int>): Option<Any> {
    match n
    case Some(k) => Some(Int(k))
    case None => None
  }

  function VectorValue(v: VectorAttrs, k: Key): Option<Any> {
    match k
    case Dims => Some(Int(v.dims))
    case Algorithm => Some(String(v.algorithm))
    case DataType => Some(String(v.dataType))
    case DistanceMetric => Some(String(v.distanceMetric))
    case IndexMissing => Some(Bool(v.indexMissing))
    case InitialCap => OptionalInt(v.initialCap)
    case BlockSize => OptionalInt(v.blockSize)
    case M => OptionalInt(v.m)
    case EfConstruction => OptionalInt(v.efConstruction)
    case EfRuntime => OptionalInt(v.efRuntime)
    case Epsilon => if v.epsilon.Some? then Some(Float(v.epsilon.value)) else None
    case GraphMaxDegree => OptionalInt(v.graphMaxDegree)
    case ConstructionWindowSize => OptionalInt(v.constructionWindowSize)
    case SearchWindowSize => OptionalInt(v.searchWindowSize)
    case Compression => if v.compression == "" then None else Some(String(v.compression))
    case Reduce => OptionalInt(v.reduce)
    case TrainingThreshold => OptionalInt(v.trainingThreshold)
    case _ => None
  }

  function AttrValue(f: Field, k: Key): Option<Any> {
    match f.typ
    case TypeText => if f.text.Some? then TextValue(f.text.value, k) else None
    case TypeTag => if f.tag.Some? then TagValue(f.tag.value, k) else None
    case TypeNumeric =>
      if f.numeric.None? then None
      else if k == UNF then Some(Bool(f.numeric.value.unf))
      else BaseValue(f.numeric.value.base, k)
    case TypeGeo => if f.geo.Some? then BaseValue(f.geo.value.base, k) else None
    case TypeVector => if f.vector.Some? then VectorValue(f.vector.value, k) else None
    case TypeUnknown(_) => None
  }

  function RawOf(f: Field): RawField {
    RawField(f.name, TypeName(f.typ), f.path, Some(map k: Key | AttrValue(f, k).Some? :: AttrValue(f, k).value))
  }

  lemma GetRaw(f: Field, k: Key)
    ensures Get(RawOf(f).attrs, k) == if AttrValue(f, k).Some? then AttrValue(f, k).value else Null
  {
  }

  lemma TypeRoundTrip(t: FieldType)
    requires !t.TypeUnknown?
    ensures ParseType(ToLower(TypeName(t))) == t
  {
    assert ToLower("tag") == "tag" && ToLower("text") == "text" && ToLower("geo") == "geo";
    assert ToLower("numeric") == "numeric" && ToLower("vector") == "vector";
  }

  lemma GetBoolRaw(f: Field, k: Key, b: bool)
    requires AttrValue(f, k) == Some(Bool(b))
    ensures GetBool(RawOf(f).attrs, k) == b
  {
    hide AttrValue;
    GetRaw(f, k);
  }

  lemma GetIntRaw(f: Field, k: Key, n: Option<int>)
    requires AttrValue(f, k) == OptionalInt(n)
    ensures GetInt(RawOf(f).attrs, k) == n
  {
    hide AttrValue;
    GetRaw(f, k);
  }

  lemma GetFloatRaw(f: Field, k: Key, r: Option<real>)
    requires AttrValue(f, k) == if r.Some? then Some(Float(r.value)) else None
    ensures GetFloat(RawOf(f).attrs, k) == r
  {
    hide AttrValue;
    GetRaw(f, k);
  }

  lemma GetStringRaw(f: Field, k: Key, s: string)
    requires AttrValue(f, k) == Some(String(s)) || (s == "" && AttrValue(f, k) == None)
    ensures GetString(RawOf(f).attrs, k) == s
  {
    hide AttrValue;
    GetRaw(f, k);
  }

  lemma BaseRaw(f: Field, b: BaseAttrs)
    requires forall k: Key | k == Sortable || k == IndexMissing || k == NoIndex :: AttrValue(f, k) == BaseValue(b, k)
    ensures BaseFrom(RawOf(f).attrs) == b
  {
    hide AttrValue, RawOf, GetBool;
    GetBoolRaw(f, Sortable, b.sortable);
    GetBoolRaw(f, IndexMissing, b.indexMissing);
    GetBoolRaw(f, NoIndex, b.noIndex);
  }

  lemma ReadsType(f: Field)
    requires !f.typ.TypeUnknown?
    ensures ParseType(ToLower(RawOf(f).typ)) == f.typ && RawOf(f).name == f.name && RawOf(f).attrs.Some?
  {
    TypeRoundTrip(f.typ);
  }

  lemma TextRoundTrip(f: Field)
    requires Constructed(f) && f.typ.TypeText?
    ensures FieldFromRaw(RawOf(f)) == Ok(f.(path := ""))
  {
    hide RawOf, GetBool, GetFloat, GetString, BaseFrom, ParseType, ToLower, VectorFrom;
    ReadsType(f);
    var a := f.text.value;
    BaseRaw(f, a.base);
    GetFloatRaw(f, Weight, Some(a.weight));
    GetBoolRaw(f, NoStem, a.noStem);
    GetBoolRaw(f, WithSuffixTrie, a.withSuffixTrie);
    GetStringRaw(f, PhoneticMatcher, a.phoneticMatcher);
    GetBoolRaw(f, IndexEmpty, a.indexEmpty);
    GetBoolRaw(f, UNF, a.unf);
  }

  lemma TagRoundTrip(f: Field)
    requires Constructed(f) && f.typ.TypeTag?
    ensures FieldFromRaw(RawOf(f)) == Ok(f.(path := ""))
  {
    hide RawOf, GetBool, GetFloat, GetString, BaseFrom, ParseType, ToLower, VectorFrom;
    ReadsType(f);
    var a := f.tag.value;
    BaseRaw(f, a.base);
    GetStringRaw(f, Separator, a.separator);
    GetBoolRaw(f, CaseSensitive, a.caseSensitive);
    GetBoolRaw(f, WithSuffixTrie, a.withSuffixTrie);
    GetBoolRaw(f, IndexEmpty, a.indexEmpty);
  }

  lemma NumericOrGeoRoundTrip(f: Field)
    requires Constructed(f) && (f.typ.TypeNumeric? || f.typ.TypeGeo?)
    ensures FieldFromRaw(RawOf(f)) == Ok(f.(path := ""))
  {
    hide RawOf, GetBool, GetFloat, GetString, BaseFrom, ParseType, ToLower, VectorFrom;
    ReadsType(f);
    if f.typ.TypeNumeric? {
      BaseRaw(f, f.numeric.value.base);
      GetBoolRaw(f, UNF, f.numeric.value.unf);
    } else {
      BaseRaw(f, f.geo.value.base);
    }
  }

  lemma {:induction false} CommonAttrsRaw(f: Field, v: VectorAttrs, m: Option<Attrs>)
    requires f.typ.TypeVector? && f.vector == Some(v) && m == RawOf(f).attrs
    ensures GetInt(m, Dims) == Some(v.dims) && GetString(m, Algorithm) == v.algorithm
    ensures GetString(m, DataType) == v.dataType && GetString(m, DistanceMetric) == v.distanceMetric
  {
    hide TextValue, TagValue, BaseValue, RawOf, GetBool, GetInt, GetFloat, GetString;
    GetIntRaw(f, Dims, Some(v.dims));
    GetStringRaw(f, Algorithm, v.algorithm);
    GetStringRaw(f, DataType, v.dataType);
    GetStringRaw(f, DistanceMetric, v.distanceMetric);
  }

  lemma {:induction false} OptionalAttrsRaw(f: Field, v: VectorAttrs, m: Option<Attrs>)
    requires f.typ.TypeVector? && f.vector == Some(v) && m == RawOf(f).attrs
    ensures GetInt(m, InitialCap) == v.initialCap && GetBool(m, IndexMissing) == v.indexMissing
    ensures GetInt(m, Reduce) == v.reduce && GetInt(m, TrainingThreshold) == v.trainingThreshold
  {
    hide TextValue, TagValue, BaseValue, RawOf, GetBool, GetInt, GetFloat, GetString;
    GetIntRaw(f, InitialCap, v.initialCap);
    GetBoolRaw(f, IndexMissing, v.indexMissing);
    GetIntRaw(f, Reduce, v.reduce);
    GetIntRaw(f, TrainingThreshold, v.trainingThreshold);
  }

  lemma {:induction false} GraphAttrsRaw(f: Field, v: VectorAttrs, m: Option<Attrs>)
    requires f.typ.TypeVector? && f.vector == Some(v) && m == RawOf(f).attrs
    ensures GetInt(m, BlockSize) == v.blockSize && GetInt(m, M) == v.m
    ensures GetInt(m, EfConstruction) == v.efConstruction && GetInt(m, EfRuntime) == v.efRuntime
    ensures GetFloat(m, Epsilon) == v.epsilon
  {
    hide TextValue, TagValue, BaseValue, RawOf, GetBool, GetInt, GetFloat, GetString;
    GetIntRaw(f, BlockSize, v.blockSize);
    GetIntRaw(f, M, v.m);
    GetIntRaw(f, EfConstruction, v.efConstruction);
    GetIntRaw(f, EfRuntime, v.efRuntime);
    GetFloatRaw(f, Epsilon, v.epsilon);
  }

  lemma {:induction false} SVSAttrsRaw(f: Field, v: VectorAttrs, m: Option<Attrs>)
    requires f.typ.TypeVector? && f.vector == Some(v) && m == RawOf(f).attrs
    ensures GetInt(m, GraphMaxDegree) == v.graphMaxDegree
    ensures GetInt(m, ConstructionWindowSize) == v.constructionWindowSize
    ensures GetInt(m, SearchWindowSize) == v.searchWindowSize && GetString(m, Compression) == v.compression
  {
    hide TextValue, TagValue, BaseValue, RawOf, GetBool, GetInt, GetFloat, GetString;
    GetIntRaw(f, GraphMaxDegree, v.graphMaxDegree);
    GetIntRaw(f, ConstructionWindowSize, v.constructionWindowSize);
    GetIntRaw(f, SearchWindowSize, v.searchWindowSize);
    GetStringRaw(f, Compression, v.compression);
  }

  lemma VectorAttrsRaw(f: Field)
    requires f.typ.TypeVector? && f.vector.Some?
    requires var v := f.vector.value;
             ToUpper(v.algorithm) == v.algorithm && ToUpper(v.distanceMetric) == v.distanceMetric
    ensures VectorFrom(RawOf(f).attrs, f.vector.value.dims, f.vector.value.algorithm) == f.vector.value
    ensures GetInt(RawOf(f).attrs, Dims) == Some(f.vector.value.dims)
    ensures GetString(RawOf(f).attrs, Algorithm) == f.vector.value.algorithm
  {
    hide RawOf, GetBool, GetInt, GetFloat, GetString, ToUpper;
    var v, m := f.vector.value, RawOf(f).attrs;
    CommonAttrsRaw(f, v, m);
    OptionalAttrsRaw(f, v, m);
    GraphAttrsRaw(f, v, m);
    SVSAttrsRaw(f, v, m);
  }

  lemma VectorRoundTrip(f: Field)
    requires Constructed(f) && f.typ.TypeVector?
    ensures FieldFromRaw(RawOf(f)) == Ok(f.(path := ""))
  {
    CanonicalNames(f.vector.value);
    hide RawOf, GetBool, GetInt, GetFloat, GetString, BaseFrom, ParseType;
    hide ToLower, ToUpper, VectorFrom, Normalized, Fault;
    ReadsType(f);
    VectorAttrsRaw(f);
  }

  lemma CanonicalNames(v: VectorAttrs)
    requires ValidVector(v)
    ensures v.algorithm != "" && ToUpper(v.algorithm) == v.algorithm && ToUpper(v.distanceMetric) == v.distanceMetric
  {
    ToUpperIdempotent(OrElse(v.distanceMetric, "COSINE"));
  }

  /** The raw form of a field that a constructor made gives the field back, but for its path. */
  lemma FieldRoundTrip(f: Field)
    requires Constructed(f)
    ensures FieldFromRaw(RawOf(f)) == Ok(f.(path := ""))
  {
    hide FieldFromRaw, RawOf, ValidVector;
    match f.typ
    case TypeText => TextRoundTrip(f);
    case TypeTag => TagRoundTrip(f);
    case TypeNumeric => NumericOrGeoRoundTrip(f);
    case TypeGeo => NumericOrGeoRoundTrip(f);
    case TypeVector => VectorRoundTrip(f);
  }

  datatype SchemaValue = SchemaValue(index: IndexInfo, version: string, fields: seq<Field>)

  /** The raw form of a whole schema. A prefix list of one becomes a string; other lists stay lists of strings. */
  function RawSchemaOf(s: SchemaValue): RawSchema {
    var i := s.index;
    RawSchema(
      s.version,
      RawIndex(i.name, if |i.prefixes| == 1 then String(i.prefixes[0]) else Strings(i.prefixes), i.keySeparator,
               i.storageType, i.stopwords),
      RawFields(s.fields))
  }

  function RawFields(fields: seq<Field>): (raws: seq<RawField>)
    ensures |raws| == |fields|
  {
    seq(|fields|, k requires 0 <= k < |fields| => RawOf(fields[k]))
  }

  function Dynamic(ss: seq<string>): seq<Any> {
    seq(|ss|, k requires 0 <= k < |ss| => String(ss[k]))
  }

  function SprintAll(values: seq<Any>, sprint: Any -> string): seq<string> {
    seq(|values|, k requires 0 <= k < |values| => sprint(values[k]))
  }

  /** Writing YAML and reading it back: the identity, but that a list of strings comes back as a list of any. */
  function ThroughYAML(raw: RawSchema): RawSchema {
    match raw.index.prefix
    case Strings(ss) =>
      raw.(index := raw.index.(prefix := List(Dynamic(ss))))
    case _ => raw
  }

  function Prefixes(prefix: Any, sprint: Any -> string): Result<seq<string>, Error> {
    match prefix
    case String(p) => Ok([p])
    case List(values) => Ok(SprintAll(values, sprint))
    case Null => Ok([])
    case _ => Err(InvalidPrefix)
  }

  /** A raw field with its path, ready to be added. */
  function Loaded(rf: RawField): Result<Field, Error> {
    match FieldFromRaw(rf)
    case Err(e) => Err(e)
    case Ok(f) => Ok(if rf.path != "" then f.(path := rf.path) else f)
  }

  function Load(index: IndexInfo, raws: seq<RawField>): Result<seq<Field>, Error> {
    if raws == [] then Ok([])
    else
      match Load(index, raws[..|raws| - 1])
      case Err(e) => Err(e)
      case Ok(fields) =>
        match Loaded(raws[|raws| - 1])
        case Err(e) => Err(e)
        case Ok(f) => Add(index, fields, f)
  }

  function RawInfo(raw: RawIndex, prefixes: seq<string>): IndexInfo {
    IndexInfo(raw.name, prefixes, raw.keySeparator, ToLower(raw.storageType), raw.stopwords)
  }

  /** The specification of fromRaw. */
  function Read(raw: RawSchema, sprint: Any -> string): Result<SchemaValue, Error> {
    match Prefixes(raw.index.prefix, sprint)
    case Err(e) => Err(e)
    case Ok(prefixes) =>
      var info := RawInfo(raw.index, prefixes);
      if InfoFault(info).Some? then Err(InfoFault(info).value)
      else
        match Load(Defaulted(info), raw.fields)
        case Err(e) => Err(e)
        case Ok(fields) => Ok(SchemaValue(Defaulted(info), if raw.version == "" then "0.1.0" else raw.version, fields))
  }

  /** The settings and fields of a schema that is read: blank settings have their defaults, the storage type counts
      in any case, and each raw field is read and stored with its path. */
  lemma ReadSettings(raw: RawSchema, sprint: Any -> string)
    requires Read(raw, sprint).Ok?
    ensures var s, storage := Read(raw, sprint).value, ToLower(raw.index.storageType);
            && s.version == (if raw.version == "" then "0.1.0" else raw.version)
            && s.index.name == raw.index.name && s.index.stopwords == raw.index.stopwords
            && s.index.keySeparator == (if raw.index.keySeparator == "" then ":" else raw.index.keySeparator)
            && s.index.storageType == (if storage == "" then "hash" else storage)
            && |s.fields| == |raw.fields|
            && forall i | 0 <= i < |raw.fields| :: IsLoaded(s.index, raw.fields[i], s.fields[i])
  {
    var prefixes := Prefixes(raw.index.prefix, sprint);
    DefaultsAre(RawInfo(raw.index, prefixes.value));
    hide ToLower, Defaulted, Load, IsLoaded, Prefixes, InfoFault;
    LoadsEach(Defaulted(RawInfo(raw.index, prefixes.value)), raw.fields);
  }

  predicate IsLoaded(index: IndexInfo, rf: RawField, f: Field) {
    FieldFromRaw(rf).Ok? && IsStored(index, FieldFromRaw(rf).value.(path := rf.path), f)
  }

  lemma {:induction false} LoadsEach(index: IndexInfo, raws: seq<RawField>)
    requires Load(index, raws).Ok?
    ensures |Load(index, raws).value| == |raws|
    ensures forall i | 0 <= i < |raws| :: IsLoaded(index, raws[i], Load(index, raws).value[i])
  {
    hide Loaded, FieldFromRaw, IsStored, Stored;
    if raws == [] {
    } else {
      var front, rf := raws[..|raws| - 1], raws[|raws| - 1];
      LoadStep(index, raws);
      hide Load;
      LoadsEach(index, front);
      LoadedPath(rf);
      StoredIs(index, Loaded(rf).value);
      assert IsLoaded(index, rf, Stored(index, Loaded(rf).value));
      hide IsLoaded;
      forall i | 0 <= i < |raws| ensures IsLoaded(index, raws[i], Load(index, raws).value[i]) {
        if i < |front| {
          assert IsLoaded(index, front[i], Load(index, front).value[i]);
        }
      }
    }
  }

  lemma {:induction false} LoadStep(index: IndexInfo, raws: seq<RawField>)
    requires raws != [] && Load(index, raws).Ok?
    ensures var front, last := Load(index, raws[..|raws| - 1]), Loaded(raws[|raws| - 1]);
            front.Ok? && last.Ok? && Load(index, raws).value == front.value + [Stored(index, last.value)]
  {
    hide Loaded, Stored, Normalized, Fault, HasName;
  }

  lemma {:induction false} LoadedPath(rf: RawField)
    ensures Loaded(rf).Ok? ==> FieldFromRaw(rf).Ok? && Loaded(rf).value == FieldFromRaw(rf).value.(path := rf.path)
  {
    hide ToLower, GetBool, GetFloat, GetInt, GetString, BaseFrom, VectorFrom, Normalized, Fault;
  }

  /** The attributes of the field's type are there, which toRaw does not check. */
  predicate HasAttributes(f: Field) {
    match f.typ
    case TypeText => f.text.Some?
    case TypeTag => f.tag.Some?
    case TypeNumeric => f.numeric.Some?
    case TypeGeo => f.geo.Some?
    case TypeVector => f.vector.Some?
    case TypeUnknown(_) => true
  }

  method ToRaw(s: IndexSchema) returns (raw: RawSchema)
    requires s.Valid()
    requires forall i | 0 <= i < |s.View()| :: HasAttributes(s.View()[i])
    ensures raw == RawSchemaOf(SchemaValue(s.index, s.version, s.View()))
  {
    hide RawOf, HasAttributes;
    var prefix;
    if |s.index.prefixes| == 1 {
      prefix := String(s.index.prefixes[0]);
    } else {
      prefix := Strings(s.index.prefixes);
    }
    raw := RawSchema(
      s.version, RawIndex(s.index.name, prefix, s.index.keySeparator, s.index.storageType, s.index.stopwords), []);
    var fields := s.FieldList();
    for i := 0 to |fields|
      invariant raw == RawSchemaOf(SchemaValue(s.index, s.version, fields[..i]))
    {
      raw := raw.(fields := raw.fields + [RawOf(fields[i])]);
    }
    assert fields[..|fields|] == fields;
  }

  /** The prefixes, which are a string, a list or absent. */
  method ReadPrefixes(prefix: Any, sprint: Any -> string) returns (r: Result<seq<string>, Error>)
    ensures r == Prefixes(prefix, sprint)
    ensures prefix.Null? ==> r == Ok([])
    ensures prefix.String? ==> r == Ok([prefix.s])
    ensures prefix.List? ==> r.Ok? && |r.value| == |prefix.values|
                             && forall k | 0 <= k < |prefix.values| :: r.value[k] == sprint(prefix.values[k])
    ensures !prefix.Null? && !prefix.String? && !prefix.List? ==> r == Err(InvalidPrefix)
  {
    match prefix {
      case String(p) =>
        return Ok([p]);
      case List(values) =>
        var prefixes: seq<string> := [];
        for k := 0 to |values|
          invariant prefixes == SprintAll(values[..k], sprint)
        {
          prefixes := prefixes + [sprint(values[k])];
        }
        assert values[..|values|] == values;
        return Ok(prefixes);
      case Null =>
        return Ok([]);
      case _ =>
        return Err(InvalidPrefix);
    }
  }

  method FromRaw(raw: RawSchema, sprint: Any -> string) returns (r: Result<IndexSchema, Error>)
    ensures match r
            case Err(e) => Read(raw, sprint) == Err(e)
            case Ok(s) => fresh(s) && s.Valid() && Read(raw, sprint) == Ok(SchemaValue(s.index, s.version, s.View()))
  {
    hide FieldFromRaw, Add, ToLower, InfoFault, Defaulted, RawInfo, WellFormed, Consistent, InOrder;
    hide AddOutcome, Prefixes;
    var prefixes := ReadPrefixes(raw.index.prefix, sprint);
    if prefixes.Err? {
      return Err(prefixes.error);
    }
    var info := RawInfo(raw.index, prefixes.value);
    var created := NewIndexSchema(info, []);
    NothingAdded(Defaulted(info));
    if created.Err? {
      return Err(created.error);
    }
    var s := created.value;
    if raw.version != "" {
      s.version := raw.version;
    }
    for k := 0 to |raw.fields|
      invariant fresh(s) && s.Valid() && s.index == Defaulted(info)
      invariant s.version == if raw.version == "" then "0.1.0" else raw.version
      invariant Load(s.index, raw.fields[..k]) == Ok(s.View())
    {
      var rf := raw.fields[k];
      assert raw.fields[..k + 1][..k] == raw.fields[..k];
      var loaded := FieldFromRaw(rf);
      if loaded.Err? {
        LoadFails(s.index, raw.fields, k + 1);
        return Err(loaded.error);
      }
      var f := loaded.value;
      if rf.path != "" {
        f := f.(path := rf.path);
      }
      var err := s.AddField(f);
      if err.Some? {
        LoadFails(s.index, raw.fields, k + 1);
        return Err(err.value);
      }
    }
    assert raw.fields[..|raw.fields|] == raw.fields;
    r := Ok(s);
  }

  lemma NothingAdded(index: IndexInfo)
    ensures AddMany(index, [], []) == Ok([])
  {
  }

  lemma {:induction false} LoadFails(index: IndexInfo, raws: seq<RawField>, k: nat)
    requires k <= |raws| && Load(index, raws[..k]).Err?
    ensures Load(index, raws) == Load(index, raws[..k])
    decreases |raws| - k
  {
    hide Loaded, Add;
    if k == |raws| {
      assert raws[..k] == raws;
    } else {
      assert raws[..k + 1][..k] == raws[..k];
      LoadFails(index, raws, k + 1);
    }
  }

  /** What the constructors make: defaulted index settings and well-formed fields from the field constructors. */
  predicate ConstructedSchema(s: SchemaValue) {
    && Defaulted(s.index) == s.index && InfoFault(s.index).None?
    && s.version != ""
    && WellFormed(s.index, s.fields)
    && forall i | 0 <= i < |s.fields| :: Constructed(s.fields[i])
  }

  lemma StoredConstructed(index: IndexInfo, f: Field)
    requires Constructed(f)
    ensures Constructed(Stored(index, f))
  {
  }

  /** A schema made by NewIndexSchema from constructed fields is one. */
  lemma {:induction false} NewSchemaConstructed(info: IndexInfo, more: seq<Field>)
    requires InfoFault(info).None?
    requires forall i | 0 <= i < |more| :: Constructed(more[i])
    ensures match AddMany(Defaulted(info), [], more)
            case Ok(fields) => ConstructedSchema(SchemaValue(Defaulted(info), "0.1.0", fields))
            case Err(_) => true
  {
    hide Add, Constructed, WellFormed;
    if more == [] {
      NoFieldsWellFormed(Defaulted(info));
    } else {
      var front := more[..|more| - 1];
      NewSchemaConstructed(info, front);
      var before := AddMany(Defaulted(info), [], front);
      if before.Ok? {
        AddKeeps(Defaulted(info), before.value, more[|more| - 1]);
        AddKeepsConstructed(Defaulted(info), before.value, more[|more| - 1]);
      }
    }
  }

  lemma AddKeepsConstructed(index: IndexInfo, fields: seq<Field>, f: Field)
    requires Constructed(f) && forall i | 0 <= i < |fields| :: Constructed(fields[i])
    ensures Add(index, fields, f).Ok? ==>
              forall i | 0 <= i < |Add(index, fields, f).value| :: Constructed(Add(index, fields, f).value[i])
  {
    StoredConstructed(index, f);
    hide Constructed, Stored, Normalized, Fault, HasName;
  }

  /** A stored field is stored as it is when it is loaded from its raw form. */
  lemma LoadedAgain(index: IndexInfo, f: Field)
    requires Constructed(f) && WellStored(index, f)
    ensures Loaded(RawOf(f)) == Ok(f)
    ensures f.name != "" && Stored(index, f) == f && (HasVector(f) ==> Fault(Normalized(f.vector.value)).None?)
  {
    hide FieldFromRaw, ToLower;
    FieldRoundTrip(f);
    assert f.(path := "").(path := f.path) == f;
  }

  lemma {:induction false} LoadRaw(index: IndexInfo, fields: seq<Field>)
    requires WellFormed(index, fields)
    requires forall i | 0 <= i < |fields| :: Constructed(fields[i])
    ensures Load(index, RawFields(fields)) == Ok(fields)
  {
    hide Constructed, WellStored, Stored, RawOf, Loaded, Normalized, Fault;
    var raws := RawFields(fields);
    if fields == [] {
    } else {
      var front, last := fields[..|fields| - 1], fields[|fields| - 1];
      LoadRaw(index, front);
      assert raws[..|raws| - 1] == RawFields(front);
      LoadedAgain(index, last);
      assert !HasName(front, last.name) by {
        assert forall i | 0 <= i < |front| :: front[i] == fields[i];
      }
      assert Add(index, front, last) == Ok(front + [last]);
      assert fields == front + [last];
    }
  }

  /** Converting any constructed schema to raw form, through YAML and back gives the same schema. */
  lemma SchemaRoundTrip(s: SchemaValue, sprint: Any -> string)
    requires ConstructedSchema(s)
    requires forall p: string :: sprint(String(p)) == p
    ensures Read(ThroughYAML(RawSchemaOf(s)), sprint) == Ok(s)
  {
    hide WellFormed, Constructed, RawOf;
    var raw := ThroughYAML(RawSchemaOf(s));
    var ps := s.index.prefixes;
    LoadRaw(s.index, s.fields);
    if |ps| == 1 {
      assert [ps[0]] == ps;
    }
    assert SprintAll(Dynamic(ps), sprint) == ps;
    assert Prefixes(raw.index.prefix, sprint) == Ok(ps);
    StorageCase(s.index);
    assert RawInfo(raw.index, ps) == s.index;
  }

  lemma StorageCase(i: IndexInfo)
    requires Defaulted(i) == i && InfoFault(i).None?
    ensures ToLower(i.storageType) == i.storageType
  {
  }

  /** Without YAML in between, the raw form is accepted exactly when there is a single prefix, as a bare list
      of strings is rejected. */
  lemma DirectRoundTripIff(s: SchemaValue, sprint: Any -> string)
    requires ConstructedSchema(s)
    requires forall p: string :: sprint(String(p)) == p
    ensures Read(RawSchemaOf(s), sprint).Ok? <==> |s.index.prefixes| == 1
    ensures |s.index.prefixes| == 1 ==> Read(RawSchemaOf(s), sprint) == Ok(s)
    ensures |s.index.prefixes| != 1 ==> Read(RawSchemaOf(s), sprint) == Err(InvalidPrefix)
  {
    hide WellFormed, Constructed, RawOf, Load, ConstructedSchema;
    if |s.index.prefixes| == 1 {
      SchemaRoundTrip(s, sprint);
      assert ThroughYAML(RawSchemaOf(s)) == RawSchemaOf(s);
    }
  }
}
