/** The validation models both model loaders build with pydantic, reduced to
    what the loaders decide: each model's name, its bases and its named
    fields, each field with a Python type and an optional default. The
    `extend_model` helper is the same in apiserver/models.py and
    worst_crm/models.py and is modelled once here. */
module Shapes {
  import opened PyCore

  /** The Python types a field can be given: the scalar types the type maps
      produce, `X | Y` unions, and a nested model class. */
  datatype PyType =
    | Str
    | Int
    | Date
    | DateTime
    | Float
    | NoneT
    | Union(left: PyType, right: PyType)
    | Nested(model: ModelClass)

  /** A `(type, FieldInfo)` pair. `default` is `None` for a required field
      (a bare `FieldInfo()` or the `...` marker). */
  datatype FieldDef = FieldDef(ty: PyType, default: Option<Json>)

  /** A base class: one of the fixed classes of the source, by name, or a
      model built earlier. */
  datatype Base = BaseName(name: string) | BaseModel(model: ModelClass)

  /** What `create_model(name, __base__=bases, **fields)` returns. */
  datatype ModelClass = ModelClass(name: string, bases: seq<Base>, fields: Dict<FieldDef>)

  /** A value of the field dict handed to `extend_model`: a tuple, a nested
      dict, or anything else. */
  datatype DefValue =
    | Tuple(def: FieldDef)
    | SubDict(entries: Dict<DefValue>)
    | Invalid(value: Json)

  /** Python's `a | b` on two types: `None | None` raises TypeError, a type
      or'ed with itself is that type, and otherwise the union is formed. */
  function TypeOr(a: PyType, b: PyType): (r: Result<PyType>)
    ensures r.Err? <==> a == NoneT && b == NoneT
    ensures r.Ok? && a != b ==> r.value == Union(a, b)
    ensures r.Ok? && a == b ==> r.value == a
  {
    if a == NoneT && b == NoneT then Err(TypeError)
    else if a == b then Ok(a)
    else Ok(Union(a, b))
  }

  /** `get_fieldinfo(meta)`: `meta["default"]` becomes the default only when
      `meta.get("default", None)` is truthy; 0, "", false and null are
      dropped. */
  function FieldInfoDefault(meta: Dict<Json>): (r: Option<Json>)
    ensures r.Some? <==> Get(meta, "default").Some? && Truthy(Get(meta, "default").value)
    ensures r.Some? ==> Get(meta, "default") == r
  {
    match Get(meta, "default")
    case Some(d) => if Truthy(d) then Some(d) else None
    case None => None
  }

  /** Wraps every entry of a built field dict as a tuple value. */
  function Tuples(d: Dict<FieldDef>): (r: Dict<DefValue>)
    ensures |r| == |d|
    ensures forall i :: 0 <= i < |d| ==> r[i] == (d[i].0, Tuple(d[i].1))
  {
    seq(|d|, i requires 0 <= i < |d| => (d[i].0, Tuple(d[i].1)))
  }

  // ---------------------------------------------------------------------
  // extend_model

  /** The `fields` dict of `extend_model` after the loop has seen the first
      `n` entries, or the ValueError it raised. */
  function FieldsUpTo(name: string, bases: seq<Base>, es: Dict<DefValue>, n: nat): (r: Result<Dict<FieldDef>>)
    requires n <= |es|
    ensures r.Ok? ==> |r.value| <= n
    decreases SubDict(es), n
  {
    if n == 0 then Ok([])
    else
      match FieldsUpTo(name, bases, es, n - 1)
      case Err(e) => Err(e)
      case Ok(acc) =>
        var (fieldName, value) := es[n - 1];
        match value
        case Tuple(d) => Ok(Put(acc, fieldName, d))
        case SubDict(sub) =>
          assert es[n - 1] in es;
          (match ExtendSpec(name + "_" + fieldName, bases, sub)
           case Err(e) => Err(e)
           case Ok(m) => Ok(Put(acc, fieldName, FieldDef(Nested(m), None))))
        case Invalid(_) => Err(ValueError)
  }

  /** What `extend_model(name, bases, es)` returns or raises. */
  function ExtendSpec(name: string, bases: seq<Base>, es: Dict<DefValue>): (r: Result<ModelClass>)
    ensures r.Ok? ==> r.value.name == name && r.value.bases == bases && |r.value.fields| <= |es|
    decreases SubDict(es), |es| + 1
  {
    match FieldsUpTo(name, bases, es, |es|)
    case Err(e) => Err(e)
    case Ok(fs) => Ok(ModelClass(name, bases, fs))
  }

  /** `extend_model`: tuples are copied, nested dicts become required fields
      typed by a nested model named `{name}_{field}`, and any other value
      raises ValueError. */
  method ExtendModel(name: string, bases: seq<Base>, es: Dict<DefValue>) returns (r: Result<ModelClass>)
    ensures r == ExtendSpec(name, bases, es)
    decreases SubDict(es), 1
  {
    var fields: Result<Dict<FieldDef>> := Ok([]);
    var i := 0;
    while i < |es| && fields.Ok?
      invariant 0 <= i <= |es|
      invariant FieldsUpTo(name, bases, es, i) == fields
    {
      fields := AddField(name, bases, es, i, fields.value);
      i := i + 1;
    }
    match fields {
      case Err(e) =>
        FieldsStopAtError(name, bases, es, i);
        r := Err(e);
      case Ok(fs) =>
        ExtendOfFields(name, bases, es, fs);
        r := Ok(ModelClass(name, bases, fs));
    }
  }

  /** One turn of the loop of `extend_model`. */
  method AddField(name: string, bases: seq<Base>, es: Dict<DefValue>, i: nat, fields: Dict<FieldDef>)
    returns (r: Result<Dict<FieldDef>>)
    requires i < |es| && FieldsUpTo(name, bases, es, i) == Ok(fields)
    ensures r == FieldsUpTo(name, bases, es, i + 1)
    decreases SubDict(es), 0
  {
    var (fieldName, value) := es[i];
    match value {
      case Tuple(d) =>
        r := Ok(Put(fields, fieldName, d));
      case SubDict(sub) =>
        assert es[i] in es;
        var nested := ExtendModel(name + "_" + fieldName, bases, sub);
        if nested.Err? {
          return Err(nested.error);
        }
        r := Ok(Put(fields, fieldName, FieldDef(Nested(nested.value), None)));
      case Invalid(_) =>
        r := Err(ValueError);
    }
  }

  /** A field dict built from every entry gives the model. */
  lemma ExtendOfFields(name: string, bases: seq<Base>, es: Dict<DefValue>, fields: Dict<FieldDef>)
    requires FieldsUpTo(name, bases, es, |es|) == Ok(fields)
    ensures ExtendSpec(name, bases, es) == Ok(ModelClass(name, bases, fields))
  {
  }

  /** One more entry after an error keeps the error. */
  lemma FieldsErrStep(name: string, bases: seq<Base>, es: Dict<DefValue>, n: nat)
    requires n < |es| && FieldsUpTo(name, bases, es, n).Err?
    ensures FieldsUpTo(name, bases, es, n + 1) == FieldsUpTo(name, bases, es, n)
  {
  }

  /** An entry `extend_model` accepts: a tuple, or a dict whose nested
      model builds. */
  predicate Buildable(name: string, bases: seq<Base>, k: string, v: DefValue)
  {
    v.Tuple? || (v.SubDict? && ExtendSpec(name + "_" + k, bases, v.entries).Ok?)
  }

  /** The field a tuple or nested-dict entry `k: v` adds: the tuple itself,
      or a required field typed by the model built from the nested dict. */
  function Written(name: string, bases: seq<Base>, k: string, v: DefValue): FieldDef
    requires Buildable(name, bases, k, v)
  {
    if v.Tuple? then v.def else FieldDef(Nested(ExtendSpec(name + "_" + k, bases, v.entries).value), None)
  }

  /** One more entry without an error: the entry is a tuple or a dict whose
      nested model builds, and the field dict takes it with `d[k] = v`. */
  lemma FieldsOkStep(name: string, bases: seq<Base>, es: Dict<DefValue>, n: nat)
    requires 0 < n <= |es| && FieldsUpTo(name, bases, es, n).Ok?
    ensures FieldsUpTo(name, bases, es, n - 1).Ok?
    ensures Buildable(name, bases, es[n - 1].0, es[n - 1].1)
    ensures FieldsUpTo(name, bases, es, n).value
      == Put(FieldsUpTo(name, bases, es, n - 1).value, es[n - 1].0, Written(name, bases, es[n - 1].0, es[n - 1].1))
  {
  }

  /** A tuple entry after no error is put into the field dict. */
  lemma FieldsTupleStep(name: string, bases: seq<Base>, es: Dict<DefValue>, n: nat)
    requires 0 < n <= |es| && es[n - 1].1.Tuple? && FieldsUpTo(name, bases, es, n - 1).Ok?
    ensures FieldsUpTo(name, bases, es, n)
      == Ok(Put(FieldsUpTo(name, bases, es, n - 1).value, es[n - 1].0, es[n - 1].1.def))
  {
  }

  lemma {:induction false} FieldsStopAtError(name: string, bases: seq<Base>, es: Dict<DefValue>, n: nat)
    requires n <= |es|
    requires FieldsUpTo(name, bases, es, n).Err?
    ensures ExtendSpec(name, bases, es) == Err(FieldsUpTo(name, bases, es, n).error)
    decreases |es| - n
  {
    if n < |es| {
      FieldsErrStep(name, bases, es, n);
      FieldsStopAtError(name, bases, es, n + 1);
    }
  }

  /** The only exception `extend_model` raises is ValueError. */
  lemma {:induction false} ExtendRaisesOnlyValueError(name: string, bases: seq<Base>, es: Dict<DefValue>)
    ensures ExtendSpec(name, bases, es).Err? ==> ExtendSpec(name, bases, es).error == ValueError
    decreases SubDict(es), |es| + 1
  {
    FieldsRaiseOnlyValueError(name, bases, es, |es|);
  }

  lemma {:induction false} FieldsRaiseOnlyValueError(name: string, bases: seq<Base>, es: Dict<DefValue>, n: nat)
    requires n <= |es|
    ensures FieldsUpTo(name, bases, es, n).Err? ==> FieldsUpTo(name, bases, es, n).error == ValueError
    decreases SubDict(es), n
  {
    if n > 0 {
      FieldsRaiseOnlyValueError(name, bases, es, n - 1);
      var (fieldName, value) := es[n - 1];
      if value.SubDict? {
        assert es[n - 1] in es;
        ExtendRaisesOnlyValueError(name + "_" + fieldName, bases, value.entries);
      }
    }
  }

  /** The built model keeps the given name and bases and has one field per
      key of the definition dict. */
  lemma {:induction false} ExtendKeys(name: string, bases: seq<Base>, es: Dict<DefValue>)
    requires ExtendSpec(name, bases, es).Ok?
    ensures var m := ExtendSpec(name, bases, es).value;
      && m.name == name && m.bases == bases
      && forall k :: k in Keys(m.fields) <==> k in Keys(es)
  {
    FieldKeys(name, bases, es, |es|);
    assert es[..|es|] == es;
  }

  lemma {:induction false} FieldKeys(name: string, bases: seq<Base>, es: Dict<DefValue>, n: nat)
    requires n <= |es| && FieldsUpTo(name, bases, es, n).Ok?
    ensures forall k :: k in Keys(FieldsUpTo(name, bases, es, n).value) <==> k in Keys(es[..n])
  {
    if n > 0 {
      FieldsOkStep(name, bases, es, n);
      FieldKeys(name, bases, es, n - 1);
      KeysSnoc(es, n);
      PutKeys(FieldsUpTo(name, bases, es, n - 1).value, es[n - 1].0, Written(name, bases, es[n - 1].0, es[n - 1].1));
    }
  }

  /** With distinct keys, each entry adds its field at the end. */
  lemma FieldsAppend(name: string, bases: seq<Base>, es: Dict<DefValue>, n: nat)
    requires DistinctKeys(es) && 0 < n <= |es| && FieldsUpTo(name, bases, es, n).Ok?
    ensures FieldsUpTo(name, bases, es, n - 1).Ok?
    ensures Buildable(name, bases, es[n - 1].0, es[n - 1].1)
    ensures FieldsUpTo(name, bases, es, n).value
      == FieldsUpTo(name, bases, es, n - 1).value + [(es[n - 1].0, Written(name, bases, es[n - 1].0, es[n - 1].1))]
  {
    FieldsOkStep(name, bases, es, n);
    FieldKeys(name, bases, es, n - 1);
    LastKeyFresh(es, n);
  }

  /** Every one of the first `n` entries is accepted. */
  predicate AllBuildable(name: string, bases: seq<Base>, es: Dict<DefValue>, n: nat)
    requires n <= |es|
  {
    n == 0 || (AllBuildable(name, bases, es, n - 1) && Buildable(name, bases, es[n - 1].0, es[n - 1].1))
  }

  lemma {:induction false} AllBuildableAt(name: string, bases: seq<Base>, es: Dict<DefValue>, n: nat, i: nat)
    requires i < n <= |es| && AllBuildable(name, bases, es, n)
    ensures Buildable(name, bases, es[i].0, es[i].1)
  {
    if i < n - 1 {
      AllBuildableAt(name, bases, es, n - 1, i);
    }
  }

  /** One field per accepted entry, in entry order. */
  function FieldsInOrder(name: string, bases: seq<Base>, es: Dict<DefValue>, n: nat): Dict<FieldDef>
    requires n <= |es| && AllBuildable(name, bases, es, n)
  {
    if n == 0 then []
    else FieldsInOrder(name, bases, es, n - 1) + [(es[n - 1].0, Written(name, bases, es[n - 1].0, es[n - 1].1))]
  }

  lemma {:induction false} FieldsInOrderAt(name: string, bases: seq<Base>, es: Dict<DefValue>, n: nat, i: nat)
    requires i < n <= |es| && AllBuildable(name, bases, es, n)
    ensures Buildable(name, bases, es[i].0, es[i].1)
    ensures |FieldsInOrder(name, bases, es, n)| == n
    ensures FieldsInOrder(name, bases, es, n)[i] == (es[i].0, Written(name, bases, es[i].0, es[i].1))
  {
    AllBuildableAt(name, bases, es, n, i);
    if i < n - 1 {
      FieldsInOrderAt(name, bases, es, n - 1, i);
    } else if n > 1 {
      FieldsInOrderAt(name, bases, es, n - 1, 0);
    }
  }

  /** With distinct keys, `extend_model` accepts every entry and builds one
      field per entry, in entry order. */
  lemma {:induction false} FieldsUpToInOrder(name: string, bases: seq<Base>, es: Dict<DefValue>, n: nat)
    requires DistinctKeys(es) && n <= |es| && FieldsUpTo(name, bases, es, n).Ok?
    ensures AllBuildable(name, bases, es, n)
    ensures FieldsUpTo(name, bases, es, n) == Ok(FieldsInOrder(name, bases, es, n))
  {
    if n > 0 {
      FieldsAppend(name, bases, es, n);
      FieldsUpToInOrder(name, bases, es, n - 1);
    }
  }

  /** With distinct keys, a tuple entry is copied unchanged and a dict entry
      becomes a required field typed by the model `{name}_{key}` built from
      it. */
  lemma ExtendEntry(name: string, bases: seq<Base>, es: Dict<DefValue>, i: nat)
    requires DistinctKeys(es) && i < |es|
    requires ExtendSpec(name, bases, es).Ok?
    ensures var m := ExtendSpec(name, bases, es).value;
      var (k, v) := es[i];
      && (v.Tuple? ==> Get(m.fields, k) == Some(v.def))
      && (v.SubDict? ==>
            && ExtendSpec(name + "_" + k, bases, v.entries).Ok?
            && ExtendSpec(name + "_" + k, bases, v.entries).value.name == name + "_" + k
            && Get(m.fields, k) == Some(FieldDef(Nested(ExtendSpec(name + "_" + k, bases, v.entries).value), None)))
      && !v.Invalid?
  {
    var fs := FieldsUpTo(name, bases, es, |es|).value;
    ExtendOfFields(name, bases, es, fs);
    FieldsUpToInOrder(name, bases, es, |es|);
    FieldsInOrderAt(name, bases, es, |es|, i);
    forall j | 0 <= j < i ensures fs[j].0 != es[i].0 {
      FieldsInOrderAt(name, bases, es, |es|, j);
    }
    KeyIndexAt(fs, es[i].0, i);
  }

  /** A field dict made only of tuples, with distinct keys, becomes a model
      with exactly those fields in the same order. */
  lemma ExtendTuples(name: string, bases: seq<Base>, d: Dict<FieldDef>)
    requires DistinctKeys(d)
    ensures ExtendSpec(name, bases, Tuples(d)) == Ok(ModelClass(name, bases, d))
  {
    TuplesUpTo(name, bases, d, |d|);
    assert d[..|d|] == d;
  }

  lemma {:induction false} TuplesUpTo(name: string, bases: seq<Base>, d: Dict<FieldDef>, n: nat)
    requires DistinctKeys(d) && n <= |d|
    ensures FieldsUpTo(name, bases, Tuples(d), n) == Ok(d[..n])
  {
    if n > 0 {
      TuplesUpTo(name, bases, d, n - 1);
      FieldsTupleStep(name, bases, Tuples(d), n);
      LastKeyFresh(d, n);
      PrefixSnoc(d, n);
    }
  }
}
