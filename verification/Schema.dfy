/** Index schemas: a map of fields and their order, edited in place (schema/schema.go:20-157). */
module Schema {
  import opened Common
  import opened Fields
  import opened SchemaArgs

  datatype IndexInfo = IndexInfo(
    name: string, prefixes: seq<string>, keySeparator: string, storageType: string, stopwords: Option<seq<string>>)

  function Defaulted(i: IndexInfo): IndexInfo {
    i.(prefixes := if i.prefixes == [] then ["rvl"] else i.prefixes,
       keySeparator := OrElse(i.keySeparator, ":"),
       storageType := OrElse(i.storageType, "hash"))
  }

  function InfoFault(i: IndexInfo): Option<Error> {
    if i.name == "" then Some(IndexNameRequired)
    else if Defaulted(i).storageType != "hash" && Defaulted(i).storageType != "json" then
      Some(InvalidStorageType(Defaulted(i).storageType))
    else None
  }

  /** The defaults are the prefix rvl, the separator colon and hash storage; nothing else changes. */
  lemma DefaultsAre(i: IndexInfo)
    ensures i.name == "" ==> InfoFault(i) == Some(IndexNameRequired)
    ensures i.name != "" && i.storageType !in {"", "hash", "json"} ==>
              InfoFault(i) == Some(InvalidStorageType(i.storageType))
    ensures i.name != "" && i.storageType in {"", "hash", "json"} ==> InfoFault(i).None?
    ensures var d := Defaulted(i);
            && d.name == i.name && d.stopwords == i.stopwords
            && d.prefixes == (if i.prefixes == [] then ["rvl"] else i.prefixes)
            && d.keySeparator == (if i.keySeparator == "" then ":" else i.keySeparator)
            && d.storageType == (if i.storageType == "" then "hash" else i.storageType)
  {
  }

  predicate HasName(fields: seq<Field>, name: string) {
    exists i | 0 <= i < |fields| :: fields[i].name == name
  }

  /** The field as it is stored: JSON fields have a path, hash fields have none, vector attributes are normalized. */
  function Stored(index: IndexInfo, f: Field): Field {
    var path := if index.storageType == "json" then OrElse(f.path, "$." + f.name) else "";
    f.(path := path, vector := if HasVector(f) then Some(Normalized(f.vector.value)) else f.vector)
  }

  /** g is f as stored: only its path and the names in its vector attributes may differ. */
  predicate IsStored(index: IndexInfo, f: Field, g: Field) {
    && g == f.(path := g.path, vector := g.vector)
    && g.path == (if index.storageType != "json" then "" else if f.path == "" then "$." + f.name else f.path)
    && (if f.typ.TypeVector? && f.vector.Some? then g.vector.Some? && IsCanonical(g.vector.value, f.vector.value)
        else g.vector == f.vector)
  }

  /** What adding f to a schema's map and order makes of them. */
  predicate AddOutcome(index: IndexInfo, fields: map<string, Field>, order: seq<string>, f: Field,
                       err: Option<Error>, fields': map<string, Field>, order': seq<string>)
  {
    if f.name == "" then err == Some(NameRequired)
    else if f.name in fields then err == Some(DuplicateName(f.name))
    else if f.typ.TypeVector? && f.vector.Some? && !Acceptable(f.vector.value) then
      err.Some? && IsFirstViolated(f.vector.value, err.value)
    else
      && err.None? && f.name in fields' && order' == order + [f.name]
      && fields' == fields[f.name := fields'[f.name]] && IsStored(index, f, fields'[f.name])
  }

  lemma AddOutcomes(index: IndexInfo, fields: map<string, Field>, order: seq<string>, f: Field)
    ensures f.name == "" ==> AddOutcome(index, fields, order, f, Some(NameRequired), fields, order)
    ensures f.name != "" && f.name in fields ==>
              AddOutcome(index, fields, order, f, Some(DuplicateName(f.name)), fields, order)
    ensures f.name != "" && f.name !in fields ==>
              var fault := if HasVector(f) then Fault(Normalized(f.vector.value)) else None;
              if fault.Some? then AddOutcome(index, fields, order, f, fault, fields, order)
              else AddOutcome(index, fields, order, f, None, fields[f.name := Stored(index, f)], order + [f.name])
  {
    if HasVector(f) {
      FaultIsFirst(f.vector.value);
    }
    StoredIs(index, f);
    hide Acceptable, IsFirstViolated, IsStored, Normalized, Fault, IsCanonical, Stored;
  }

  lemma StoredIs(index: IndexInfo, f: Field)
    ensures IsStored(index, f, Stored(index, f))
  {
    if HasVector(f) {
      FaultIsFirst(f.vector.value);
    }
    hide Normalized, IsCanonical;
  }

  predicate HasVector(f: Field) {
    f.typ.TypeVector? && f.vector.Some?
  }

  /** Adding a field to the fields of a schema, in order. */
  function Add(index: IndexInfo, fields: seq<Field>, f: Field): Result<seq<Field>, Error> {
    if f.name == "" then Err(NameRequired)
    else if HasName(fields, f.name) then Err(DuplicateName(f.name))
    else if HasVector(f) && Fault(Normalized(f.vector.value)).Some? then Err(Fault(Normalized(f.vector.value)).value)
    else Ok(fields + [Stored(index, f)])
  }

  /** Adding fields one by one, up to the first that fails. */
  function AddMany(index: IndexInfo, fields: seq<Field>, more: seq<Field>): Result<seq<Field>, Error> {
    if more == [] then Ok(fields)
    else
      match AddMany(index, fields, more[..|more| - 1])
      case Err(e) => Err(e)
      case Ok(fs) => Add(index, fs, more[|more| - 1])
  }

  /** The fields that are not called name, in their order. */
  function Without(fields: seq<Field>, name: string): seq<Field> {
    if fields == [] then []
    else
      var last := fields[|fields| - 1];
      Without(fields[..|fields| - 1], name) + if last.name == name then [] else [last]
  }

  predicate WellStored(index: IndexInfo, f: Field) {
    && f.name != ""
    && (index.storageType == "json" <==> f.path != "")
    && (HasVector(f) ==> ValidVector(f.vector.value))
  }

  predicate DistinctNames(fields: seq<Field>) {
    forall i, j | 0 <= i < j < |fields| :: fields[i].name != fields[j].name
  }

  /** What every schema keeps about its fields. */
  predicate WellFormed(index: IndexInfo, fields: seq<Field>) {
    && DistinctNames(fields)
    && forall i | 0 <= i < |fields| :: WellStored(index, fields[i])
  }

  lemma StoredWell(index: IndexInfo, f: Field)
    requires f.name != ""
    requires HasVector(f) ==> Fault(Normalized(f.vector.value)).None?
    ensures WellStored(index, Stored(index, f)) && Stored(index, f).name == f.name
  {
    hide Normalized, Fault;
    if HasVector(f) {
      NormalizedTwice(f.vector.value);
    }
  }

  lemma AddKeeps(index: IndexInfo, fields: seq<Field>, f: Field)
    requires WellFormed(index, fields)
    ensures Add(index, fields, f).Ok? ==> WellFormed(index, Add(index, fields, f).value)
  {
    hide Normalized, Fault, WellStored, Stored;
    if Add(index, fields, f).Ok? {
      StoredWell(index, f);
    }
  }

  lemma {:induction false} WithoutMembers(fields: seq<Field>, name: string)
    ensures forall f :: f in Without(fields, name) <==> f in fields && f.name != name
  {
    if fields == [] {
    } else {
      var front, last := fields[..|fields| - 1], fields[|fields| - 1];
      WithoutMembers(front, name);
      assert fields == front + [last];
    }
  }

  lemma {:induction false} WithoutDistinct(fields: seq<Field>, name: string)
    requires DistinctNames(fields)
    ensures DistinctNames(Without(fields, name))
  {
    if fields == [] {
    } else {
      var front, last := fields[..|fields| - 1], fields[|fields| - 1];
      WithoutDistinct(front, name);
      WithoutMembers(front, name);
      var kept := Without(front, name);
      forall i | 0 <= i < |kept| ensures kept[i].name != last.name {
        assert kept[i] in front;
      }
    }
  }

  /** Removal keeps the other fields, no more than those, and the schema well formed. */
  lemma WithoutKeeps(index: IndexInfo, fields: seq<Field>, name: string)
    requires WellFormed(index, fields)
    ensures WellFormed(index, Without(fields, name))
    ensures forall f :: f in Without(fields, name) <==> f in fields && f.name != name
  {
    hide WellStored, Without, DistinctNames;
    WithoutMembers(fields, name);
    WithoutDistinct(fields, name);
    var kept := Without(fields, name);
    forall i | 0 <= i < |kept| ensures WellStored(index, kept[i]) {
      assert kept[i] in fields;
    }
  }

  lemma {:induction false} WithoutNone(fields: seq<Field>, name: string)
    requires !HasName(fields, name)
    ensures Without(fields, name) == fields
  {
    if fields == [] {
    } else {
      var front := fields[..|fields| - 1];
      assert !HasName(front, name) by {
        assert forall i | 0 <= i < |front| :: front[i] == fields[i];
      }
      WithoutNone(front, name);
    }
  }

  /** Removing the field just added gives back the fields as they were. */
  lemma RemoveUndoesAdd(index: IndexInfo, fields: seq<Field>, f: Field)
    ensures Add(index, fields, f).Ok? ==> Without(Add(index, fields, f).value, f.name) == fields
  {
    hide Normalized, Fault;
    if Add(index, fields, f).Ok? {
      var all := fields + [Stored(index, f)];
      assert all[..|all| - 1] == fields;
      WithoutNone(fields, f.name);
    }
  }

  datatype Edit = AddEdit(f: Field) | RemoveEdit(name: string)

  /** The fields after any sequence of edits; an edit that fails changes nothing. */
  function Edited(index: IndexInfo, edits: seq<Edit>): seq<Field> {
    if edits == [] then []
    else
      var fields := Edited(index, edits[..|edits| - 1]);
      match edits[|edits| - 1]
      case AddEdit(f) => (match Add(index, fields, f) case Ok(fs) => fs case Err(_) => fields)
      case RemoveEdit(name) => Without(fields, name)
  }

  lemma {:induction false} EveryStateWellFormed(index: IndexInfo, edits: seq<Edit>)
    ensures WellFormed(index, Edited(index, edits))
  {
    hide WellFormed, Add, Without;
    if edits == [] {
      NoFieldsWellFormed(index);
    } else {
      var before := Edited(index, edits[..|edits| - 1]);
      EveryStateWellFormed(index, edits[..|edits| - 1]);
      match edits[|edits| - 1]
      case AddEdit(f) => AddKeeps(index, before, f);
      case RemoveEdit(name) => WithoutKeeps(index, before, name);
    }
  }

  lemma NoFieldsWellFormed(index: IndexInfo)
    ensures WellFormed(index, [])
  {
  }

  /** Removal cuts out the one field and keeps the relative order of the others. */
  lemma {:induction false} WithoutAt(fields: seq<Field>, k: nat)
    requires DistinctNames(fields) && k < |fields|
    ensures Without(fields, fields[k].name) == fields[..k] + fields[k + 1..]
  {
    var front, last := fields[..|fields| - 1], fields[|fields| - 1];
    if k == |fields| - 1 {
      WithoutNone(front, last.name);
      assert fields[..k] + fields[k + 1..] == front;
    } else {
      WithoutAt(front, k);
      assert fields[..k] + fields[k + 1..] == (front[..k] + front[k + 1..]) + [last];
    }
  }

  /** The order lists exactly the keys of the map, each once, and each field is stored under its own name. */
  ghost predicate Consistent(index: IndexInfo, fields: map<string, Field>, order: seq<string>) {
    && (forall i, j | 0 <= i < j < |order| :: order[i] != order[j])
    && (forall n :: n in order <==> n in fields)
    && (forall n | n in fields :: fields[n].name == n && WellStored(index, fields[n]))
  }

  /** The fields in order. */
  ghost function InOrder(index: IndexInfo, fields: map<string, Field>, order: seq<string>): (fs: seq<Field>)
    requires Consistent(index, fields, order)
    ensures |fs| == |order|
    ensures forall i | 0 <= i < |fs| :: order[i] in fields && fs[i] == fields[order[i]] && fs[i].name == order[i]
  {
    seq(|order|, i requires 0 <= i < |order| => assert order[i] in order; fields[order[i]])
  }

  lemma InOrderWell(index: IndexInfo, fields: map<string, Field>, order: seq<string>)
    requires Consistent(index, fields, order)
    ensures WellFormed(index, InOrder(index, fields, order))
    ensures forall n :: n in fields <==> HasName(InOrder(index, fields, order), n)
  {
    hide WellStored;
    var fs := InOrder(index, fields, order);
    forall n | n in fields ensures HasName(fs, n) {
      assert n in order;
      var i :| 0 <= i < |order| && order[i] == n;
      assert fs[i].name == n;
    }
  }

  lemma Appends(index: IndexInfo, fields: map<string, Field>, order: seq<string>, g: Field)
    requires Consistent(index, fields, order)
    requires g.name !in fields && WellStored(index, g)
    ensures Consistent(index, fields[g.name := g], order + [g.name])
    ensures InOrder(index, fields[g.name := g], order + [g.name]) == InOrder(index, fields, order) + [g]
  {
    hide WellStored;
    assert forall n :: n in order + [g.name] <==> n in order || n == g.name;
  }

  lemma RemovesConsistent(index: IndexInfo, fields: map<string, Field>, order: seq<string>, k: nat)
    requires Consistent(index, fields, order) && k < |order|
    ensures Consistent(index, fields - {order[k]}, order[..k] + order[k + 1..])
  {
    hide WellStored;
    OrderWithout(order, k);
  }

  lemma Removes(index: IndexInfo, fields: map<string, Field>, order: seq<string>, k: nat, order': seq<string>)
    requires Consistent(index, fields, order) && k < |order|
    requires order' == order[..k] + order[k + 1..]
    requires Consistent(index, fields - {order[k]}, order')
    requires DistinctNames(InOrder(index, fields, order))
    ensures InOrder(index, fields - {order[k]}, order') == Without(InOrder(index, fields, order), order[k])
  {
    hide Consistent, InOrder, DistinctNames, Without;
    var fs, fs' := InOrder(index, fields, order), InOrder(index, fields - {order[k]}, order');
    forall i | 0 <= i < |fs'| ensures fs'[i] == fs[if i < k then i else i + 1] {
      assert order'[i] == order[if i < k then i else i + 1];
    }
    assert fs' == fs[..k] + fs[k + 1..];
    assert fs[k].name == order[k];
    WithoutAt(fs, k);
  }

  lemma KeysListed(index: IndexInfo, fields: map<string, Field>, order: seq<string>)
    requires Consistent(index, fields, order)
    ensures forall n | n in fields :: n in order
  {
  }

  lemma OrderWithout(order: seq<string>, k: nat)
    requires k < |order|
    requires forall i, j | 0 <= i < j < |order| :: order[i] != order[j]
    ensures var order' := order[..k] + order[k + 1..];
            && (forall i, j | 0 <= i < j < |order'| :: order'[i] != order'[j])
            && forall n :: n in order' <==> n in order && n != order[k]
  {
    var order' := order[..k] + order[k + 1..];
    assert forall i | 0 <= i < |order'| :: order'[i] == if i < k then order[i] else order[i + 1];
    forall n | n in order && n != order[k] ensures n in order' {
      var i :| 0 <= i < |order| && order[i] == n;
      assert order'[if i < k then i else i - 1] == n;
    }
  }

  class IndexSchema {
    var index: IndexInfo
    var version: string
    var fields: map<string, Field>
    var fieldOrder: seq<string>

    ghost predicate Valid()
      reads this
    {
      Consistent(index, fields, fieldOrder)
    }

    /** The fields in order. */
    ghost function View(): (fs: seq<Field>)
      requires Valid()
      reads this
      ensures WellFormed(index, fs)
    {
      InOrderWell(index, fields, fieldOrder);
      InOrder(index, fields, fieldOrder)
    }

    constructor (info: IndexInfo)
      ensures Valid() && View() == [] && index == info && version == "0.1.0"
    {
      index := info;
      version := "0.1.0";
      fields := map[];
      fieldOrder := [];
    }

    method AddField(f: Field) returns (err: Option<Error>)
      requires Valid()
      modifies this
      ensures Valid() && index == old(index) && version == old(version)
      ensures match Add(index, old(View()), f)
              case Ok(fs) => err == None && View() == fs
              case Err(e) => err == Some(e) && fields == old(fields) && fieldOrder == old(fieldOrder)
      ensures AddOutcome(index, old(fields), old(fieldOrder), f, err, fields, fieldOrder)
    {
      hide Normalized, Fault, WellStored, WellFormed, ValidVector, Consistent, InOrder, HasName;
      InOrderWell(index, fields, fieldOrder);
      AddOutcomes(index, fields, fieldOrder, f);
      hide AddOutcome;
      if f.name == "" {
        return Some(NameRequired);
      }
      if f.name in fields {
        return Some(DuplicateName(f.name));
      }
      var g := f;
      if index.storageType == "json" {
        if g.path == "" {
          g := g.(path := "$." + g.name);
        }
      } else {
        g := g.(path := "");
      }
      if g.typ.TypeVector? && g.vector.Some? {
        var v := new VectorObject(g.vector.value);
        err := v.Validate();
        if err.Some? {
          return;
        }
        g := g.(vector := Some(v.value));
      }
      assert g == Stored(index, f);
      StoredWell(index, f);
      Appends(index, fields, fieldOrder, g);
      fields := fields[g.name := g];
      fieldOrder := fieldOrder + [g.name];
      err := None;
    }

    method RemoveField(name: string)
      requires Valid()
      modifies this
      ensures Valid() && index == old(index) && version == old(version)
      ensures View() == Without(old(View()), name)
    {
      InOrderWell(index, fields, fieldOrder);
      assert DistinctNames(View());
      hide Consistent, InOrder, WellFormed, HasName, Without, DistinctNames;
      KeysListed(index, fields, fieldOrder);
      if name !in fields {
        WithoutNone(View(), name);
        return;
      }
      fields := fields - {name};
      for i := 0 to |fieldOrder|
        invariant fieldOrder == old(fieldOrder) && index == old(index) && version == old(version)
        invariant fields == old(fields) - {name}
        invariant forall j | 0 <= j < i :: fieldOrder[j] != name
      {
        if fieldOrder[i] == name {
          RemovesConsistent(index, old(fields), fieldOrder, i);
          Removes(index, old(fields), fieldOrder, i, fieldOrder[..i] + fieldOrder[i + 1..]);
          fieldOrder := fieldOrder[..i] + fieldOrder[i + 1..];
          return;
        }
      }
      assert false;
    }

    method FieldList() returns (out: seq<Field>)
      requires Valid()
      ensures out == View()
    {
      out := [];
      for i := 0 to |fieldOrder|
        invariant out == View()[..i]
      {
        out := out + [fields[fieldOrder[i]]];
      }
    }

    method SchemaArgs() returns (r: Result<seq<Arg>, Error>)
      requires Valid()
      ensures r == if View() == [] then Err(NoFields) else AllArgs(View())
    {
      hide FieldArgs, WellStored, WellFormed;
      if |fieldOrder| == 0 {
        return Err(NoFields);
      }
      ghost var fs := View();
      var args: seq<Arg> := [];
      for i := 0 to |fieldOrder|
        invariant fs == View()
        invariant AllArgs(fs[..i]) == Ok(args)
      {
        var fa := RedisArgs(fields[fieldOrder[i]]);
        assert fs[..i + 1][..i] == fs[..i];
        if fa.Err? {
          AllArgsFails(fs, i + 1);
          return Err(fa.error);
        }
        args := args + fa.value;
      }
      assert fs[..|fs|] == fs;
      r := Ok(args);
    }
  }

  /** Once the arguments of a field fail, those of the whole list do, in the same way. */
  lemma {:induction false} AllArgsFails(fields: seq<Field>, k: nat)
    requires k <= |fields| && AllArgs(fields[..k]).Err?
    ensures AllArgs(fields) == AllArgs(fields[..k])
    decreases |fields| - k
  {
    hide FieldArgs;
    if k == |fields| {
      assert fields[..k] == fields;
    } else {
      assert fields[..k + 1][..k] == fields[..k];
      AllArgsFails(fields, k + 1);
    }
  }

  /** NewIndexSchema: the defaults, and then the fields one by one. */
  method NewIndexSchema(info: IndexInfo, more: seq<Field>) returns (r: Result<IndexSchema, Error>)
    ensures match r
            case Err(e) =>
              if InfoFault(info).Some? then e == InfoFault(info).value
              else AddMany(Defaulted(info), [], more) == Err(e)
            case Ok(s) =>
              && fresh(s) && s.Valid() && InfoFault(info).None?
              && s.index == Defaulted(info) && s.version == "0.1.0"
              && AddMany(Defaulted(info), [], more) == Ok(s.View())
  {
    hide Add;
    if info.name == "" {
      return Err(IndexNameRequired);
    }
    var i := info;
    if |i.prefixes| == 0 {
      i := i.(prefixes := ["rvl"]);
    }
    if i.keySeparator == "" {
      i := i.(keySeparator := ":");
    }
    if i.storageType == "" {
      i := i.(storageType := "hash");
    }
    if i.storageType != "hash" && i.storageType != "json" {
      return Err(InvalidStorageType(i.storageType));
    }
    var s := new IndexSchema(i);
    for k := 0 to |more|
      invariant fresh(s) && s.Valid() && s.index == Defaulted(info) && s.version == "0.1.0"
      invariant AddMany(Defaulted(info), [], more[..k]) == Ok(s.View())
    {
      var err := s.AddField(more[k]);
      assert more[..k + 1][..k] == more[..k];
      if err.Some? {
        AddManyFails(Defaulted(info), [], more, k + 1);
        return Err(err.value);
      }
    }
    assert more[..|more|] == more;
    r := Ok(s);
  }

  lemma {:induction false} AddManyFails(index: IndexInfo, fields: seq<Field>, more: seq<Field>, k: nat)
    requires k <= |more| && AddMany(index, fields, more[..k]).Err?
    ensures AddMany(index, fields, more) == AddMany(index, fields, more[..k])
    decreases |more| - k
  {
    hide Add;
    if k == |more| {
      assert more[..k] == more;
    } else {
      assert more[..k + 1][..k] == more[..k];
      AddManyFails(index, fields, more, k + 1);
    }
  }
}
