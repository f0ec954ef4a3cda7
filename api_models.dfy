/** The model loader of apiserver/models.py: each field descriptor of a
    stored schema becomes a `(type, FieldInfo)` entry (`build_model_tuple`),
    and the entries become the `Update`, default and `Overview` models of
    that schema (lines 99-114). */
module ApiModels {
  import opened PyCore
  import opened Skema
  import opened Shapes

  /** The inner `get_type(x)`: a five-entry dict looked up with `.get(x, str)`,
      so every other tag, `string`, `markdown` and `enum` included, is `str`. */
  function ScalarType(tag: string): (t: PyType)
    ensures t in {Str, Int, Date, DateTime, Float, NoneT}
    ensures t == Str <==> tag !in {"integer", "date", "datetime", "decimal", "null"}
    ensures t == NoneT <==> tag == "null"
    ensures tag == "integer" ==> t == Int
    ensures tag == "date" ==> t == Date
    ensures tag == "datetime" ==> t == DateTime
    ensures tag == "decimal" ==> t == Float
  {
    if tag == "integer" then Int
    else if tag == "date" then Date
    else if tag == "datetime" then DateTime
    else if tag == "decimal" then Float
    else if tag == "null" then NoneT
    else Str
  }

  /** `not is_overview or (is_overview and f["in_overview"])`. */
  predicate Selected(f: FieldDescriptor, isOverview: bool)
  {
    !isOverview || Truthy(f.inOverview)
  }

  /** The entry one descriptor becomes: `get_type(t) | None` when `nullable`
      is truthy (TypeError for the `null` tag, as `None | None`), the bare
      type otherwise, with the default `get_fieldinfo` keeps. */
  function EntryOf(f: FieldDescriptor): (r: Result<FieldDef>)
    ensures r.Err? <==> Truthy(f.nullable) && f.typeTag == "null"
    ensures r.Err? ==> r.error == TypeError
    ensures r.Ok? ==> r.value.default == FieldInfoDefault(f.args)
  {
    var t := ScalarType(f.typeTag);
    if Truthy(f.nullable) then
      match TypeOr(t, NoneT)
      case Err(e) => Err(e)
      case Ok(u) => Ok(FieldDef(u, FieldInfoDefault(f.args)))
    else Ok(FieldDef(t, FieldInfoDefault(f.args)))
  }

  /** A nullable field accepts `None` besides its type; any other field has
      exactly its type. */
  lemma NullableMeansOptional(f: FieldDescriptor)
    requires EntryOf(f).Ok?
    ensures Truthy(f.nullable) ==> EntryOf(f).value.ty == Union(ScalarType(f.typeTag), NoneT)
    ensures !Truthy(f.nullable) ==> EntryOf(f).value.ty == ScalarType(f.typeTag)
  {
  }

  /** `pyd_fields` once the loop of `build_model_tuple` has seen `fields`. */
  function ModelTuple(fields: seq<FieldDescriptor>, isOverview: bool): (r: Result<Dict<FieldDef>>)
    ensures r.Ok? ==> |r.value| <= |fields|
  {
    if fields == [] then Ok([])
    else
      match ModelTuple(fields[..|fields| - 1], isOverview)
      case Err(e) => Err(e)
      case Ok(acc) =>
        var f := fields[|fields| - 1];
        if !Selected(f, isOverview) then Ok(acc)
        else
          match EntryOf(f)
          case Err(e) => Err(e)
          case Ok(entry) => Ok(Put(acc, f.name, entry))
  }

  lemma {:induction false} ModelTupleStopsAtError(fields: seq<FieldDescriptor>, isOverview: bool, n: nat)
    requires n <= |fields|
    requires ModelTuple(fields[..n], isOverview).Err?
    ensures ModelTuple(fields, isOverview) == ModelTuple(fields[..n], isOverview)
    decreases |fields| - n
  {
    if n < |fields| {
      var init := fields[..|fields| - 1];
      assert init[..n] == fields[..n];
      ModelTupleStopsAtError(init, isOverview, n);
    } else {
      assert fields[..n] == fields;
    }
  }

  /** `build_model_tuple(fields, is_overview)`. */
  method BuildModelTuple(fields: seq<FieldDescriptor>, isOverview: bool) returns (r: Result<Dict<FieldDef>>)
    ensures r == ModelTuple(fields, isOverview)
  {
    var pydFields: Dict<FieldDef> := [];
    var i := 0;
    while i < |fields|
      invariant 0 <= i <= |fields|
      invariant ModelTuple(fields[..i], isOverview) == Ok(pydFields)
    {
      assert fields[..i + 1][..i] == fields[..i];
      var f := fields[i];
      if !isOverview || Truthy(f.inOverview) {
        var entry := EntryOf(f);
        if entry.Err? {
          ModelTupleStopsAtError(fields, isOverview, i + 1);
          return Err(entry.error);
        }
        pydFields := Put(pydFields, f.name, entry.value);
      }
      i := i + 1;
    }
    assert fields[..i] == fields;
    r := Ok(pydFields);
  }

  /** A descriptor that is selected and whose type is rejected. */
  predicate Rejected(f: FieldDescriptor, isOverview: bool)
  {
    Selected(f, isOverview) && Truthy(f.nullable) && f.typeTag == "null"
  }

  lemma ModelTupleStepErr(fields: seq<FieldDescriptor>, isOverview: bool)
    requires fields != []
    ensures ModelTuple(fields, isOverview).Err?
        <==> ModelTuple(fields[..|fields| - 1], isOverview).Err? || Rejected(fields[|fields| - 1], isOverview)
  {
  }

  /** The descriptors building the entries accepts. */
  function AcceptedBy(isOverview: bool): FieldDescriptor -> bool
  {
    f => !Rejected(f, isOverview)
  }

  lemma {:induction false} ModelTupleFailsAlong(fields: seq<FieldDescriptor>, isOverview: bool)
    ensures ModelTuple(fields, isOverview).Ok? <==> AllAlong(fields, AcceptedBy(isOverview))
  {
    if fields != [] {
      ModelTupleFailsAlong(fields[..|fields| - 1], isOverview);
      ModelTupleStepErr(fields, isOverview);
    }
  }

  /** Building the entries raises exactly when a selected descriptor is a
      nullable `null`. */
  lemma ModelTupleFails(fields: seq<FieldDescriptor>, isOverview: bool)
    ensures ModelTuple(fields, isOverview).Ok?
        <==> forall i :: 0 <= i < |fields| ==> !Rejected(fields[i], isOverview)
  {
    ModelTupleFailsAlong(fields, isOverview);
    AllAlongEach(fields, AcceptedBy(isOverview));
  }

  /** The only exception building the entries raises is TypeError. */
  lemma {:induction false} ModelTupleRaisesTypeError(fields: seq<FieldDescriptor>, isOverview: bool)
    requires ModelTuple(fields, isOverview).Err?
    ensures ModelTuple(fields, isOverview).error == TypeError
  {
    var init := fields[..|fields| - 1];
    if ModelTuple(init, isOverview).Err? {
      ModelTupleRaisesTypeError(init, isOverview);
    }
  }

  /** The names of the descriptors the loop selects, in order. */
  function SelectedNames(fields: seq<FieldDescriptor>, isOverview: bool): (ns: seq<string>)
    ensures forall i :: 0 <= i < |fields| && Selected(fields[i], isOverview) ==> fields[i].name in ns
    ensures forall k :: k in ns ==> exists i :: 0 <= i < |fields| && Selected(fields[i], isOverview) && fields[i].name == k
  {
    if fields == [] then []
    else
      var init := fields[..|fields| - 1];
      var f := fields[|fields| - 1];
      assert forall i :: 0 <= i < |init| ==> init[i] == fields[i];
      SelectedNames(init, isOverview) + if Selected(f, isOverview) then [f.name] else []
  }

  /** The entry keys are exactly the names of the selected descriptors. */
  lemma {:induction false} ModelTupleKeys(fields: seq<FieldDescriptor>, isOverview: bool)
    requires ModelTuple(fields, isOverview).Ok?
    ensures forall k :: k in Keys(ModelTuple(fields, isOverview).value) <==> k in SelectedNames(fields, isOverview)
  {
    if fields != [] {
      var init := fields[..|fields| - 1];
      var f := fields[|fields| - 1];
      ModelTupleKeys(init, isOverview);
      if Selected(f, isOverview) {
        PutKeys(ModelTuple(init, isOverview).value, f.name, EntryOf(f).value);
      }
    }
  }

  /** No key is entered twice. */
  lemma {:induction false} ModelTupleDistinct(fields: seq<FieldDescriptor>, isOverview: bool)
    requires ModelTuple(fields, isOverview).Ok?
    ensures DistinctKeys(ModelTuple(fields, isOverview).value)
  {
    if fields != [] {
      var init := fields[..|fields| - 1];
      var f := fields[|fields| - 1];
      ModelTupleDistinct(init, isOverview);
      if Selected(f, isOverview) {
        PutDistinct(ModelTuple(init, isOverview).value, f.name, EntryOf(f).value);
      }
    }
  }

  /** The overview entries are a subset of the default ones: whenever the
      default entries can be built so can the overview entries, and every
      overview key is a default key. */
  lemma OverviewWithinDefault(fields: seq<FieldDescriptor>)
    requires ModelTuple(fields, false).Ok?
    ensures ModelTuple(fields, true).Ok?
    ensures forall k :: k in Keys(ModelTuple(fields, true).value) ==> k in Keys(ModelTuple(fields, false).value)
  {
    ModelTupleFails(fields, false);
    ModelTupleFails(fields, true);
    ModelTupleKeys(fields, true);
    ModelTupleKeys(fields, false);
    forall k | k in SelectedNames(fields, true)
      ensures k in SelectedNames(fields, false)
    {
      var i :| 0 <= i < |fields| && Selected(fields[i], true) && fields[i].name == k;
    }
  }

  /** Without the overview filter, every descriptor gives an entry. */
  lemma DefaultKeepsEveryField(fields: seq<FieldDescriptor>, i: nat)
    requires ModelTuple(fields, false).Ok? && i < |fields|
    ensures fields[i].name in Keys(ModelTuple(fields, false).value)
  {
    ModelTupleKeys(fields, false);
  }

  /** The entry of the last selected descriptor with a given name: its
      type, made optional when `nullable` is truthy, and its kept default. */
  lemma {:induction false} ModelTupleEntry(fields: seq<FieldDescriptor>, isOverview: bool, i: nat)
    requires ModelTuple(fields, isOverview).Ok?
    requires i < |fields| && Selected(fields[i], isOverview)
    requires forall j :: i < j < |fields| ==> fields[j].name != fields[i].name
    ensures EntryOf(fields[i]).Ok?
    ensures Get(ModelTuple(fields, isOverview).value, fields[i].name) == Some(EntryOf(fields[i]).value)
  {
    var n := |fields| - 1;
    var init := fields[..n];
    var f := fields[n];
    var acc := ModelTuple(init, isOverview).value;
    if i == n {
      PutGetSame(acc, f.name, EntryOf(f).value);
    } else {
      assert init[i] == fields[i];
      assert forall j :: i < j < |init| ==> init[j].name != init[i].name by {
        assert forall j :: i < j < |init| ==> init[j] == fields[j];
      }
      ModelTupleEntry(init, isOverview, i);
      if Selected(f, isOverview) {
        PutGetOther(acc, f.name, EntryOf(f).value, fields[i].name);
      }
    }
  }

  // ---------------------------------------------------------------------
  // The three models of one schema (lines 99-114)

  datatype ModelSet = ModelSet(update: ModelClass, default: ModelClass, overview: ModelClass)

  /** What the loader stores in `pyd_models[n]`, or the exception that
      stops the import. */
  function ModelSetOf(n: string, fields: seq<FieldDescriptor>): (r: Result<ModelSet>)
    ensures r.Ok? ==> r.value.update.name == n + "Update" && r.value.update.bases == [BaseName("BaseFields")]
    ensures r.Ok? ==> r.value.default.name == n && r.value.default.fields == []
    ensures r.Ok? ==> r.value.overview.name == n + "Overview"
    ensures r.Ok? ==> |r.value.overview.fields| <= |fields| && |r.value.update.fields| <= |fields|
  {
    match ModelTuple(fields, false)
    case Err(e) => Err(e)
    case Ok(f) =>
      match ExtendSpec(n + "Update", [BaseName("BaseFields")], Tuples(f))
      case Err(e) => Err(e)
      case Ok(update) =>
        match ExtendSpec(n, [BaseModel(update), BaseName("AuditFields"), BaseName("Attachments")], [])
        case Err(e) => Err(e)
        case Ok(model) =>
          match ModelTuple(fields, true)
          case Err(e) => Err(e)
          case Ok(o) =>
            match ExtendSpec(n + "Overview", [BaseName("BaseFields"), BaseName("AuditFields")], Tuples(o))
            case Err(e) => Err(e)
            case Ok(overview) => Ok(ModelSet(update, model, overview))
  }

  /** The body of the loop over `skemas` for one schema named `n`. */
  method SynthesizeModels(n: string, fields: seq<FieldDescriptor>) returns (r: Result<ModelSet>)
    ensures r == ModelSetOf(n, fields)
  {
    var f := BuildModelTuple(fields, false);
    if f.Err? {
      return Err(f.error);
    }
    var update := ExtendModel(n + "Update", [BaseName("BaseFields")], Tuples(f.value));
    if update.Err? {
      return Err(update.error);
    }
    var model := ExtendModel(n, [BaseModel(update.value), BaseName("AuditFields"), BaseName("Attachments")], []);
    ExtendTuples(n, [BaseModel(update.value), BaseName("AuditFields"), BaseName("Attachments")], []);
    var o := BuildModelTuple(fields, true);
    if o.Err? {
      return Err(o.error);
    }
    var overview := ExtendModel(n + "Overview", [BaseName("BaseFields"), BaseName("AuditFields")], Tuples(o.value));
    if overview.Err? {
      return Err(overview.error);
    }
    r := Ok(ModelSet(update.value, model.value, overview.value));
  }

  /** The three models of a schema: `{n}Update` over BaseFields with one
      field per descriptor; `{n}` with no fields of its own over the update
      model, AuditFields and Attachments; `{n}Overview` over BaseFields and
      AuditFields with the overview entries, a subset of the update fields.
      They are built exactly when no descriptor is a nullable `null`. */
  lemma ModelSetShape(n: string, fields: seq<FieldDescriptor>)
    ensures ModelSetOf(n, fields).Ok? <==> forall i :: 0 <= i < |fields| ==> !Rejected(fields[i], false)
    ensures ModelSetOf(n, fields).Ok? ==>
      var s := ModelSetOf(n, fields).value;
      && s.update == ModelClass(n + "Update", [BaseName("BaseFields")], ModelTuple(fields, false).value)
      && s.default == ModelClass(n, [BaseModel(s.update), BaseName("AuditFields"), BaseName("Attachments")], [])
      && s.overview == ModelClass(n + "Overview", [BaseName("BaseFields"), BaseName("AuditFields")], ModelTuple(fields, true).value)
      && forall k :: k in Keys(s.overview.fields) ==> k in Keys(s.update.fields)
  {
    ModelTupleFails(fields, false);
    if ModelTuple(fields, false).Ok? {
      var f := ModelTuple(fields, false).value;
      OverviewWithinDefault(fields);
      ModelTupleDistinct(fields, false);
      ModelTupleDistinct(fields, true);
      ExtendTuples(n + "Update", [BaseName("BaseFields")], f);
      var update := ModelClass(n + "Update", [BaseName("BaseFields")], f);
      ExtendTuples(n, [BaseModel(update), BaseName("AuditFields"), BaseName("Attachments")], []);
      ExtendTuples(n + "Overview", [BaseName("BaseFields"), BaseName("AuditFields")], ModelTuple(fields, true).value);
    }
  }
}
