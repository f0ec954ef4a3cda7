/** The model loader of worst_crm/models.py: each schema is a JSON Schema
    document whose `properties` become `(type, FieldInfo)` entries
    (`build_model_tuple`, lines 20-41), turned into an `Update` model and a
    default model (lines 94-101). */
module CrmModels {
  import opened PyCore
  import opened Shapes

  /** The inner `get_type(x)`: `{"string": str, "integer": int, "null": None}[x]`.
      Any other hashable value is a missing key; a list or dict cannot be
      hashed. */
  function CrmScalarType(x: Json): (r: Result<PyType>)
    ensures r.Ok? <==> x.JStr? && x.s in {"string", "integer", "null"}
    ensures (x.JArr? || x.JObj?) ==> r == Err(TypeError)
    ensures r.Err? && !x.JArr? && !x.JObj? ==> r == Err(KeyError)
    ensures r.Ok? ==> r.value in {Str, Int, NoneT}
  {
    match x
    case JStr(s) =>
      if s == "string" then Ok(Str)
      else if s == "integer" then Ok(Int)
      else if s == "null" then Ok(NoneT)
      else Err(KeyError)
    case JArr(_) => Err(TypeError)
    case JObj(_) => Err(TypeError)
    case _ => Err(KeyError)
  }

  /** `get_type(alts[i]["type"])` for one alternative of `anyOf`. */
  function AlternativeType(alts: Json, i: nat): (r: Result<PyType>)
    ensures r.Ok? ==> r.value in {Str, Int, NoneT}
    ensures r.Err? ==> r.error in {IndexError, KeyError, TypeError}
    ensures alts.JArr? && i >= |alts.items| ==> r == Err(IndexError)
  {
    match At(alts, i)
    case Err(e) => Err(e)
    case Ok(alt) =>
      match Subscript(alt, "type")
      case Err(e) => Err(e)
      case Ok(x) => CrmScalarType(x)
  }

  /** The type of one property `v` (a dict): the union of the first two
      `anyOf` alternatives when `anyOf` is present and truthy, else
      `get_type(v["type"])`. The left alternative is evaluated first. */
  function PropertyType(es: Dict<Json>): (r: Result<PyType>)
    ensures r.Ok? ==> r.value in {Str, Int, NoneT} || r.value.Union?
    ensures r.Err? ==> r.error in {IndexError, KeyError, TypeError}
    ensures !(Get(es, "anyOf").Some? && Truthy(Get(es, "anyOf").value)) && "type" !in Keys(es) ==> r == Err(KeyError)
  {
    var anyOf := Get(es, "anyOf");
    if anyOf.Some? && Truthy(anyOf.value) then
      match AlternativeType(anyOf.value, 0)
      case Err(e) => Err(e)
      case Ok(a) =>
        match AlternativeType(anyOf.value, 1)
        case Err(e) => Err(e)
        case Ok(b) => TypeOr(a, b)
    else
      match Get(es, "type")
      case None => Err(KeyError)
      case Some(x) => CrmScalarType(x)
  }

  /** The entry one property becomes; `v.get(...)` on anything but a dict is
      an AttributeError. */
  function PropertyEntry(v: Json): (r: Result<FieldDef>)
    ensures !v.JObj? ==> r == Err(AttributeError)
    ensures v.JObj? ==> (r.Ok? <==> PropertyType(v.entries).Ok?)
    ensures r.Ok? ==> r.value == FieldDef(PropertyType(v.entries).value, FieldInfoDefault(v.entries))
  {
    match v
    case JObj(es) =>
      (match PropertyType(es)
       case Err(e) => Err(e)
       case Ok(t) => Ok(FieldDef(t, FieldInfoDefault(es))))
    case _ => Err(AttributeError)
  }

  /** `d.get("properties", {})`, which must then support `.items()`. */
  function Properties(d: Json): (r: Result<Dict<Json>>)
    ensures !d.JObj? ==> r == Err(AttributeError)
    ensures d.JObj? && "properties" !in Keys(d.entries) ==> r == Ok([])
    ensures d.JObj? && "properties" in Keys(d.entries) ==>
      (r.Ok? <==> Get(d.entries, "properties").value.JObj?)
  {
    match d
    case JObj(es) =>
      (match Get(es, "properties")
       case None => Ok([])
       case Some(p) => if p.JObj? then Ok(p.entries) else Err(AttributeError))
    case _ => Err(AttributeError)
  }

  /** `fields` once the loop has seen the properties `ps`. */
  function FieldsOf(ps: Dict<Json>): (r: Result<Dict<FieldDef>>)
    ensures r.Ok? ==> |r.value| <= |ps|
    ensures r.Err? ==> r.error in {IndexError, KeyError, TypeError, AttributeError}
  {
    if ps == [] then Ok([])
    else
      match FieldsOf(ps[..|ps| - 1])
      case Err(e) => Err(e)
      case Ok(acc) =>
        var (k, v) := ps[|ps| - 1];
        match PropertyEntry(v)
        case Err(e) => Err(e)
        case Ok(entry) => Ok(Put(acc, k, entry))
  }

  /** What `build_model_tuple(d)` returns or raises. */
  function ModelTupleOf(d: Json): (r: Result<Dict<FieldDef>>)
    ensures r.Err? ==> r.error in {IndexError, KeyError, TypeError, AttributeError}
    ensures r.Ok? ==> Properties(d).Ok? && |r.value| <= |Properties(d).value|
  {
    match Properties(d)
    case Err(e) => Err(e)
    case Ok(ps) => FieldsOf(ps)
  }

  lemma {:induction false} FieldsOfStopsAtError(ps: Dict<Json>, n: nat)
    requires n <= |ps|
    requires FieldsOf(ps[..n]).Err?
    ensures FieldsOf(ps) == FieldsOf(ps[..n])
    decreases |ps| - n
  {
    if n < |ps| {
      var init := ps[..|ps| - 1];
      assert init[..n] == ps[..n];
      FieldsOfStopsAtError(init, n);
    } else {
      assert ps[..n] == ps;
    }
  }

  /** `build_model_tuple(d)`. */
  method BuildModelTuple(d: Json) returns (r: Result<Dict<FieldDef>>)
    ensures r == ModelTupleOf(d)
  {
    var props := Properties(d);
    if props.Err? {
      return Err(props.error);
    }
    var ps := props.value;
    var fields: Dict<FieldDef> := [];
    var i := 0;
    while i < |ps|
      invariant 0 <= i <= |ps|
      invariant FieldsOf(ps[..i]) == Ok(fields)
    {
      assert ps[..i + 1][..i] == ps[..i];
      var (k, v) := ps[i];
      var entry := PropertyEntry(v);
      if entry.Err? {
        FieldsOfStopsAtError(ps, i + 1);
        return Err(entry.error);
      }
      fields := Put(fields, k, entry.value);
      i := i + 1;
    }
    assert ps[..i] == ps;
    r := Ok(fields);
  }

  /** A property `get_type` and the property lookups accept. */
  predicate Readable(p: (string, Json))
  {
    PropertyEntry(p.1).Ok?
  }

  lemma FieldsOfStepOk(ps: Dict<Json>)
    requires ps != []
    ensures FieldsOf(ps).Ok? <==> FieldsOf(ps[..|ps| - 1]).Ok? && Readable(ps[|ps| - 1])
  {
  }

  lemma {:induction false} FieldsOfFailsAlong(ps: Dict<Json>)
    ensures FieldsOf(ps).Ok? <==> AllAlong(ps, Readable)
  {
    if ps != [] {
      FieldsOfFailsAlong(ps[..|ps| - 1]);
      FieldsOfStepOk(ps);
    }
  }

  /** Reading the properties fails exactly when one of them is unreadable. */
  lemma FieldsOfFails(ps: Dict<Json>)
    ensures FieldsOf(ps).Err? <==> exists i :: 0 <= i < |ps| && !Readable(ps[i])
  {
    FieldsOfFailsAlong(ps);
    AllAlongEach(ps, Readable);
  }

  /** There is one field per property name. */
  lemma {:induction false} FieldsOfKeys(ps: Dict<Json>)
    requires FieldsOf(ps).Ok?
    ensures forall k :: k in Keys(FieldsOf(ps).value) <==> k in Keys(ps)
  {
    if ps != [] {
      var init := ps[..|ps| - 1];
      var (k, v) := ps[|ps| - 1];
      FieldsOfKeys(init);
      PutKeys(FieldsOf(init).value, k, PropertyEntry(v).value);
      KeysLast(ps);
    }
  }

  /** No field is entered twice. */
  lemma {:induction false} FieldsOfDistinct(ps: Dict<Json>)
    requires FieldsOf(ps).Ok?
    ensures DistinctKeys(FieldsOf(ps).value)
  {
    if ps != [] {
      var init := ps[..|ps| - 1];
      var (k, v) := ps[|ps| - 1];
      FieldsOfDistinct(init);
      PutDistinct(FieldsOf(init).value, k, PropertyEntry(v).value);
    }
  }

  /** The field of a property is the entry of the last property with that
      name. Decoded JSON objects never repeat a key, so for the dicts the
      source sees this is the property's own entry; repeated keys are
      covered only because a `Dict` value can hold them. */
  lemma {:induction false} FieldsOfEntry(ps: Dict<Json>, i: nat)
    requires FieldsOf(ps).Ok?
    requires i < |ps|
    requires forall j :: i < j < |ps| ==> ps[j].0 != ps[i].0
    ensures PropertyEntry(ps[i].1).Ok?
    ensures Get(FieldsOf(ps).value, ps[i].0) == Some(PropertyEntry(ps[i].1).value)
  {
    var n := |ps| - 1;
    var init := ps[..n];
    var (k, v) := ps[n];
    var acc := FieldsOf(init).value;
    if i == n {
      PutGetSame(acc, k, PropertyEntry(v).value);
    } else {
      assert init[i] == ps[i];
      assert forall j :: i < j < |init| ==> init[j].0 != init[i].0 by {
        assert forall j :: i < j < |init| ==> init[j] == ps[j];
      }
      FieldsOfEntry(init, i);
      PutGetOther(acc, k, PropertyEntry(v).value, ps[i].0);
    }
  }

  /** A schema without `properties` gives a model with no fields of its own;
      a schema that is not a dict, or whose `properties` is not a dict, is
      rejected with AttributeError. */
  lemma ModelTupleOfShape(d: Json)
    ensures !d.JObj? ==> ModelTupleOf(d) == Err(AttributeError)
    ensures d.JObj? && "properties" !in Keys(d.entries) ==> ModelTupleOf(d) == Ok([])
    ensures d.JObj? && "properties" in Keys(d.entries) && !Get(d.entries, "properties").value.JObj?
        ==> ModelTupleOf(d) == Err(AttributeError)
    ensures d.JObj? && Get(d.entries, "properties") == Some(JObj([])) ==> ModelTupleOf(d) == Ok([])
  {
  }

  /** With a truthy list `anyOf`, only its first two alternatives matter:
      a one-element list is an IndexError once the first alternative is
      read, and the type is the union of the two alternatives' types. */
  lemma AnyOfFirstTwo(es: Dict<Json>)
    requires Get(es, "anyOf").Some? && Get(es, "anyOf").value.JArr?
    requires Get(es, "anyOf").value.items != []
    ensures var alts := Get(es, "anyOf").value.items;
      var first := AlternativeType(JArr(alts), 0);
      && (|alts| == 1 && first.Ok? ==> PropertyType(es) == Err(IndexError))
      && (|alts| >= 2 && first.Ok? && AlternativeType(JArr(alts), 1).Ok? ==>
            PropertyType(es) == TypeOr(first.value, AlternativeType(JArr(alts), 1).value))
      && (first.Err? ==> PropertyType(es) == first)
  {
  }

  /** The optional-string shape `anyOf: [{type: string}, {type: null}]` is
      `str | None`; two `null` alternatives raise TypeError (`None | None`). */
  lemma OptionalStringProperty(es: Dict<Json>, t0: Json, t1: Json)
    requires Get(es, "anyOf") == Some(JArr([JObj([("type", t0)]), JObj([("type", t1)])]))
    ensures t0 == JStr("string") && t1 == JStr("null") ==> PropertyType(es) == Ok(Union(Str, NoneT))
    ensures t0 == JStr("null") && t1 == JStr("null") ==> PropertyType(es) == Err(TypeError)
  {
    var one := [("type", t0)];
    var two := [("type", t1)];
    assert Get(one, "type") == Some(t0) by { KeyIndexAt(one, "type", 0); }
    assert Get(two, "type") == Some(t1) by { KeyIndexAt(two, "type", 0); }
  }

  // ---------------------------------------------------------------------
  // The models of one schema (lines 94-101)

  datatype CrmModelSet = CrmModelSet(update: ModelClass, default: ModelClass)

  /** What the loader stores in `pyd_models[n]`, or the exception that stops
      the import. */
  function CrmModelSetOf(n: string, d: Json): (r: Result<CrmModelSet>)
    ensures r.Ok? ==> r.value.update.name == n + "Update" && r.value.update.bases == [BaseName("BaseFields")]
    ensures r.Ok? ==> r.value.default.name == n && r.value.default.fields == []
    ensures r.Ok? ==> Properties(d).Ok? && |r.value.update.fields| <= |Properties(d).value|
  {
    match ModelTupleOf(d)
    case Err(e) => Err(e)
    case Ok(f) =>
      match ExtendSpec(n + "Update", [BaseName("BaseFields")], Tuples(f))
      case Err(e) => Err(e)
      case Ok(update) =>
        match ExtendSpec(n, [BaseModel(update), BaseName("AuditFields")], [])
        case Err(e) => Err(e)
        case Ok(model) => Ok(CrmModelSet(update, model))
  }

  /** The body of the loop over `skemas` for one schema named `n`. */
  method SynthesizeModels(n: string, d: Json) returns (r: Result<CrmModelSet>)
    ensures r == CrmModelSetOf(n, d)
  {
    var f := BuildModelTuple(d);
    if f.Err? {
      return Err(f.error);
    }
    var update := ExtendModel(n + "Update", [BaseName("BaseFields")], Tuples(f.value));
    if update.Err? {
      return Err(update.error);
    }
    var model := ExtendModel(n, [BaseModel(update.value), BaseName("AuditFields")], []);
    ExtendTuples(n, [BaseModel(update.value), BaseName("AuditFields")], []);
    r := Ok(CrmModelSet(update.value, model.value));
  }

  /** `{n}Update` extends BaseFields with one field per property and `{n}`
      adds no field of its own to the update model and AuditFields; both
      are built exactly when the properties can be read. */
  lemma CrmModelSetShape(n: string, d: Json)
    ensures CrmModelSetOf(n, d).Ok? <==> ModelTupleOf(d).Ok?
    ensures CrmModelSetOf(n, d).Ok? ==>
      var s := CrmModelSetOf(n, d).value;
      && s.update == ModelClass(n + "Update", [BaseName("BaseFields")], ModelTupleOf(d).value)
      && s.default == ModelClass(n, [BaseModel(s.update), BaseName("AuditFields")], [])
      && forall k :: k in Keys(s.update.fields) <==> k in Keys(Properties(d).value)
  {
    if ModelTupleOf(d).Ok? {
      var ps := Properties(d).value;
      var f := FieldsOf(ps).value;
      FieldsOfDistinct(ps);
      FieldsOfKeys(ps);
      ExtendTuples(n + "Update", [BaseName("BaseFields")], f);
      var update := ModelClass(n + "Update", [BaseName("BaseFields")], f);
      ExtendTuples(n, [BaseModel(update), BaseName("AuditFields")], []);
    }
  }
}
