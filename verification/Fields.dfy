/** Schema fields, their validation and their FT.CREATE arguments (schema/fields.go). */
module Fields {
  import opened Common

  datatype FieldType = TypeTag | TypeText | TypeNumeric | TypeGeo | TypeVector | TypeUnknown(name: string)

  datatype BaseAttrs = BaseAttrs(sortable: bool, indexMissing: bool, noIndex: bool)

  datatype TextAttrs = TextAttrs(
    base: BaseAttrs, weight: real, noStem: bool, withSuffixTrie: bool, phoneticMatcher: string, indexEmpty: bool,
    unf: bool)

  datatype TagAttrs = TagAttrs(
    base: BaseAttrs, separator: string, caseSensitive: bool, withSuffixTrie: bool, indexEmpty: bool)

  datatype NumericAttrs = NumericAttrs(base: BaseAttrs, unf: bool)

  datatype GeoAttrs = GeoAttrs(base: BaseAttrs)

  datatype VectorAttrs = VectorAttrs(
    dims: int, algorithm: string, dataType: string, distanceMetric: string, initialCap: Option<int>,
    indexMissing: bool, blockSize: Option<int>,
    m: Option<int>, efConstruction: Option<int>, efRuntime: Option<int>, epsilon: Option<real>,
    graphMaxDegree: Option<int>, constructionWindowSize: Option<int>, searchWindowSize: Option<int>,
    compression: string, reduce: Option<int>, trainingThreshold: Option<int>)

  /** The attributes that go with typ are the ones that count; the others may be absent. */
  datatype Field = Field(
    name: string, typ: FieldType, path: string,
    text: Option<TextAttrs>, tag: Option<TagAttrs>, numeric: Option<NumericAttrs>, geo: Option<GeoAttrs>,
    vector: Option<VectorAttrs>)

  datatype Error =
    | DimsNotPositive
    | InvalidDataType
    | InvalidMetric
    | UnknownAlgorithm
    | DataTypeNotForSVS
    | ReduceNotBelowDims
    | ReduceWithoutCompression
    | ReduceWithoutLeanVec
    | NoVectorAttributes
    | UnknownFieldType(name: string)
    | NameRequired
    | DuplicateName(name: string)
    | NoFields
    | IndexNameRequired
    | InvalidStorageType(storage: string)
    | InvalidPrefix
    | DimsRequired
    | AlgorithmRequired
    | AttrsRequired

  predicate IsDataType(s: string) {
    s in {"bfloat16", "float16", "float32", "float64", "int8", "uint8"}
  }

  predicate IsMetric(s: string) {
    s in {"COSINE", "L2", "IP"}
  }

  predicate IsAlgorithm(s: string) {
    s in {"FLAT", "HNSW", "SVS-VAMANA"}
  }

  function OrElse(s: string, default: string): string {
    if s == "" then default else s
  }

  /** The attributes with their names in the canonical case and the defaults filled in. */
  function Normalized(v: VectorAttrs): VectorAttrs {
    v.(dataType := OrElse(ToLower(v.dataType), "float32"),
       distanceMetric := ToUpper(OrElse(v.distanceMetric, "COSINE")),
       algorithm := ToUpper(v.algorithm))
  }

  /** The first constraint that normalized attributes violate. */
  function Fault(v: VectorAttrs): Option<Error> {
    if v.dims <= 0 then Some(DimsNotPositive)
    else if !IsDataType(v.dataType) then Some(InvalidDataType)
    else if !IsMetric(v.distanceMetric) then Some(InvalidMetric)
    else if !IsAlgorithm(v.algorithm) then Some(UnknownAlgorithm)
    else if v.algorithm != "SVS-VAMANA" then None
    else if v.dataType != "float16" && v.dataType != "float32" then Some(DataTypeNotForSVS)
    else if v.reduce.None? then None
    else if v.reduce.value >= v.dims then Some(ReduceNotBelowDims)
    else if v.compression == "" then Some(ReduceWithoutCompression)
    else if !("LeanVec" <= v.compression) then Some(ReduceWithoutLeanVec)
    else None
  }

  /** Attributes that validation accepts and leaves as they are. */
  predicate ValidVector(v: VectorAttrs) {
    Normalized(v) == v && Fault(v).None?
  }

  /** The constraints on vector attributes, in the order in which they are checked. */
  const CONSTRAINTS := [
    DimsNotPositive, InvalidDataType, InvalidMetric, UnknownAlgorithm, DataTypeNotForSVS, ReduceNotBelowDims,
    ReduceWithoutCompression, ReduceWithoutLeanVec]

  /** Whether the attributes as given violate the constraint. Names count in any case; a blank data type or
      metric stands for its default. */
  predicate Violates(v: VectorAttrs, constraint: Error) {
    var reduces := ToUpper(v.algorithm) == "SVS-VAMANA" && v.reduce.Some?;
    match constraint
    case DimsNotPositive => v.dims < 1
    case InvalidDataType =>
      ToLower(v.dataType) !in {"", "bfloat16", "float16", "float32", "float64", "int8", "uint8"}
    case InvalidMetric => ToUpper(v.distanceMetric) !in {"", "COSINE", "L2", "IP"}
    case UnknownAlgorithm => ToUpper(v.algorithm) !in {"FLAT", "HNSW", "SVS-VAMANA"}
    case DataTypeNotForSVS =>
      ToUpper(v.algorithm) == "SVS-VAMANA" && ToLower(v.dataType) !in {"", "float16", "float32"}
    case ReduceNotBelowDims => reduces && v.reduce.value >= v.dims
    case ReduceWithoutCompression => reduces && v.compression == ""
    case ReduceWithoutLeanVec => reduces && !("LeanVec" <= v.compression)
    case _ => false
  }

  predicate Acceptable(v: VectorAttrs) {
    forall i | 0 <= i < |CONSTRAINTS| :: !Violates(v, CONSTRAINTS[i])
  }

  predicate IsFirstViolated(v: VectorAttrs, constraint: Error) {
    exists i | 0 <= i < |CONSTRAINTS| ::
      CONSTRAINTS[i] == constraint && Violates(v, constraint) && forall j | 0 <= j < i :: !Violates(v, CONSTRAINTS[j])
  }

  /** v is w but for the names, which are those of w in canonical case, or the defaults for blank ones. */
  predicate IsCanonical(v: VectorAttrs, w: VectorAttrs) {
    && v == w.(dataType := v.dataType, distanceMetric := v.distanceMetric, algorithm := v.algorithm)
    && v.dataType == (if w.dataType == "" then "float32" else ToLower(w.dataType))
    && v.distanceMetric == (if w.distanceMetric == "" then "COSINE" else ToUpper(w.distanceMetric))
    && v.algorithm == ToUpper(w.algorithm)
  }

  /** The fault of the normalized attributes is the first constraint that they violate as given. */
  lemma FaultIsFirst(v: VectorAttrs)
    ensures match Fault(Normalized(v)) case None => Acceptable(v) case Some(e) => IsFirstViolated(v, e)
    ensures Fault(Normalized(v)).None? <==> Acceptable(v)
    ensures IsCanonical(Normalized(v), v)
  {
    BlankCase(v.dataType);
    BlankCase(v.distanceMetric);
    assert ToUpper("COSINE") == "COSINE";
    hide ToLower, ToUpper;
    match Fault(Normalized(v))
    case None =>
    case Some(e) =>
      var k := match e
               case DimsNotPositive => 0
               case InvalidDataType => 1
               case InvalidMetric => 2
               case UnknownAlgorithm => 3
               case DataTypeNotForSVS => 4
               case ReduceNotBelowDims => 5
               case ReduceWithoutCompression => 6
               case _ => 7;
      assert CONSTRAINTS[k] == e && Violates(v, e);
  }

  lemma BlankCase(s: string)
    ensures (ToLower(s) == "" <==> s == "") && (ToUpper(s) == "" <==> s == "")
  {
  }

  lemma NormalizedTwice(v: VectorAttrs)
    ensures Normalized(Normalized(v)) == Normalized(v)
  {
    ToLowerIdempotent(v.dataType);
    ToUpperIdempotent(OrElse(v.distanceMetric, "COSINE"));
    ToUpperIdempotent(v.algorithm);
    assert ToLower("float32") == "float32";
  }

  /** A vector field's attributes, which validation normalizes in place. */
  class VectorObject {
    var value: VectorAttrs

    constructor (v: VectorAttrs)
      ensures value == v
    {
      value := v;
    }

    /** On failure the names normalized so far stay so; on success validating again changes nothing. */
    method Validate() returns (err: Option<Error>)
      modifies this
      ensures err == Fault(Normalized(old(value)))
      ensures if err.None? then Acceptable(old(value)) && IsCanonical(value, old(value))
              else IsFirstViolated(old(value), err.value)
      ensures err.None? ==> value == Normalized(old(value)) && ValidVector(value)
      ensures exists d, m, a ::
                && value == old(value).(dataType := d, distanceMetric := m, algorithm := a)
                && d in {old(value).dataType, Normalized(old(value)).dataType}
                && m in {old(value).distanceMetric, Normalized(old(value)).distanceMetric}
                && a in {old(value).algorithm, Normalized(old(value)).algorithm}
    {
      ghost var n := Normalized(value);
      NormalizedTwice(value);
      FaultIsFirst(value);
      hide Acceptable, IsFirstViolated, IsCanonical;
      if value.dims <= 0 {
        return Some(DimsNotPositive);
      }
      value := value.(dataType := ToLower(value.dataType));
      if value.dataType == "" {
        value := value.(dataType := "float32");
      }
      if !IsDataType(value.dataType) {
        return Some(InvalidDataType);
      }
      if value.distanceMetric == "" {
        value := value.(distanceMetric := "COSINE");
      }
      value := value.(distanceMetric := ToUpper(value.distanceMetric));
      if !IsMetric(value.distanceMetric) {
        return Some(InvalidMetric);
      }
      value := value.(algorithm := ToUpper(value.algorithm));
      if !IsAlgorithm(value.algorithm) {
        return Some(UnknownAlgorithm);
      }
      if value.algorithm == "SVS-VAMANA" {
        if value.dataType != "float16" && value.dataType != "float32" {
          return Some(DataTypeNotForSVS);
        }
        if value.reduce.Some? {
          if value.reduce.value >= value.dims {
            return Some(ReduceNotBelowDims);
          }
          if value.compression == "" {
            return Some(ReduceWithoutCompression);
          }
          if !("LeanVec" <= value.compression) {
            return Some(ReduceWithoutLeanVec);
          }
        }
      }
      err := None;
    }
  }

  function Bare(name: string, typ: FieldType): Field {
    Field(name, typ, "", None, None, None, None, None)
  }

  const NO_BASE := BaseAttrs(false, false, false)
  const DEFAULT_TEXT := TextAttrs(NO_BASE, 1.0, false, false, "", false, false)
  const DEFAULT_TAG := TagAttrs(NO_BASE, ",", false, false, false)

  function NewTextField(name: string, attrs: Option<TextAttrs>): Field {
    var a := match attrs
             case None => DEFAULT_TEXT
             case Some(a) => if a.weight == 0.0 then a.(weight := 1.0) else a;
    Bare(name, TypeText).(text := Some(a))
  }

  function NewTagField(name: string, attrs: Option<TagAttrs>): Field {
    var a := match attrs
             case None => DEFAULT_TAG
             case Some(a) => if a.separator == "" then a.(separator := ",") else a;
    Bare(name, TypeTag).(tag := Some(a))
  }

  function NewNumericField(name: string, attrs: Option<NumericAttrs>): Field {
    var a := match attrs
             case None => NumericAttrs(NO_BASE, false)
             case Some(a) => a;
    Bare(name, TypeNumeric).(numeric := Some(a))
  }

  function NewGeoField(name: string, attrs: Option<GeoAttrs>): Field {
    var a := match attrs
             case None => GeoAttrs(NO_BASE)
             case Some(a) => a;
    Bare(name, TypeGeo).(geo := Some(a))
  }

  function NewVectorField(name: string, attrs: VectorAttrs): Result<Field, Error> {
    var v := Normalized(attrs);
    match Fault(v)
    case Some(e) => Err(e)
    case None => Ok(Bare(name, TypeVector).(vector := Some(v)))
  }

  /** What the constructors make: the one set of attributes that goes with the type, without blank defaults. */
  predicate Constructed(f: Field) {
    && (f.text.Some? <==> f.typ.TypeText?)
    && (f.tag.Some? <==> f.typ.TypeTag?)
    && (f.numeric.Some? <==> f.typ.TypeNumeric?)
    && (f.geo.Some? <==> f.typ.TypeGeo?)
    && (f.vector.Some? <==> f.typ.TypeVector?)
    && !f.typ.TypeUnknown?
    && (f.text.Some? ==> f.text.value.weight != 0.0)
    && (f.tag.Some? ==> f.tag.value.separator != "")
    && (f.vector.Some? ==> ValidVector(f.vector.value))
  }

  lemma ConstructorsConstruct(name: string, text: Option<TextAttrs>, tag: Option<TagAttrs>,
                              numeric: Option<NumericAttrs>, geo: Option<GeoAttrs>, vector: VectorAttrs)
    ensures Constructed(NewTextField(name, text)) && Constructed(NewTagField(name, tag))
    ensures Constructed(NewNumericField(name, numeric)) && Constructed(NewGeoField(name, geo))
    ensures NewVectorField(name, vector).Ok? ==> Constructed(NewVectorField(name, vector).value)
  {
    NormalizedTwice(vector);
  }

  /** The constructors keep the name and the attributes they are given; only a blank weight becomes 1, a blank
      separator a comma, and blank vector names their defaults. Without attributes all flags are off. */
  lemma ConstructorsKeep(name: string, text: Option<TextAttrs>, tag: Option<TagAttrs>,
                         numeric: Option<NumericAttrs>, geo: Option<GeoAttrs>, vector: VectorAttrs)
    ensures var f := NewTextField(name, text);
            && f.name == name && f.typ == TypeText && f.path == "" && f.text.Some?
            && if text.Some? then
                 && f.text.value == text.value.(weight := f.text.value.weight)
                 && f.text.value.weight == (if text.value.weight == 0.0 then 1.0 else text.value.weight)
               else f.text.value == TextAttrs(BaseAttrs(false, false, false), 1.0, false, false, "", false, false)
    ensures var f := NewTagField(name, tag);
            && f.name == name && f.typ == TypeTag && f.path == "" && f.tag.Some?
            && if tag.Some? then
                 && f.tag.value == tag.value.(separator := f.tag.value.separator)
                 && f.tag.value.separator == (if tag.value.separator == "" then "," else tag.value.separator)
               else f.tag.value == TagAttrs(BaseAttrs(false, false, false), ",", false, false, false)
    ensures var f := NewNumericField(name, numeric);
            && f.name == name && f.typ == TypeNumeric && f.path == ""
            && (if numeric.Some? then f.numeric == numeric
                else f.numeric == Some(NumericAttrs(BaseAttrs(false, false, false), false)))
    ensures var f := NewGeoField(name, geo);
            && f.name == name && f.typ == TypeGeo && f.path == ""
            && (if geo.Some? then f.geo == geo else f.geo == Some(GeoAttrs(BaseAttrs(false, false, false))))
    ensures NewVectorField(name, vector).Ok? <==> Acceptable(vector)
    ensures NewVectorField(name, vector).Ok? ==>
              var f := NewVectorField(name, vector).value;
              && f.name == name && f.typ == TypeVector && f.path == ""
              && f.vector.Some? && IsCanonical(f.vector.value, vector)
  {
    FaultIsFirst(vector);
    hide Acceptable, IsFirstViolated, IsCanonical, Normalized, Fault;
  }
}
