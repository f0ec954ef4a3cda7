/** The schema-to-DDL planning of apiserver/db.py: the column and placeholder
    lists of `get_fields`/`get_placeholders`, the two column-type maps, the
    reserved-word gate and `CREATE TABLE` text of `create_model`, and the
    column diff and `ALTER TABLE` statements of `update_model`. The
    statements are produced as text; running them is not modelled. */
module SchemaDdl {
  import opened PyCore
  import opened SqlText
  import opened Skema

  // ---------------------------------------------------------------------
  // Column lists

  /** `get_fields`: the field names joined by `", "`. */
  function GetFields(names: seq<string>): (r: string)
    ensures names == [] ==> r == ""
    ensures |names| == 1 ==> r == names[0]
    ensures |names| >= 2 ==> names[0] + ", " <= r
  {
    Join(names, ", ")
  }

  /** `get_placeholders`: one `%s` per field name, joined by `", "`. */
  function GetPlaceholders(names: seq<string>): (r: string)
    ensures CountChar(r, '%') == |names|
    ensures r == "" <==> names == []
  {
    PlaceholderCounts(|names|);
    Placeholders(|names|)
  }

  lemma CommaSpaceHoldsOneComma()
    ensures CountChar(", ", ',') == 1 && CountChar(", ", '%') == 0
  {
    assert multiset(", ")[','] == 1;
  }

  /** A column list with n names (none containing a comma) has n - 1 commas. */
  lemma {:induction false} FieldCommas(names: seq<string>)
    requires forall i :: 0 <= i < |names| ==> CountChar(names[i], ',') == 0
    ensures CountChar(GetFields(names), ',') == if names == [] then 0 else |names| - 1
  {
    CommaSpaceHoldsOneComma();
    CountCharJoin(names, ", ", ',');
  }

  /** The placeholder list matches the column list: one `%s` per column, the
      same number of commas, and empty exactly when there are no columns. */
  lemma PlaceholdersMatchFields(names: seq<string>)
    requires forall i :: 0 <= i < |names| ==> CountChar(names[i], ',') == 0
    ensures CountChar(GetPlaceholders(names), '%') == |names|
    ensures CountChar(GetPlaceholders(names), ',') == CountChar(GetFields(names), ',')
    ensures GetPlaceholders(names) == "" <==> names == []
    ensures GetPlaceholders(names) == Join(seq(|names|, _ => "%s"), ", ")
  {
    PlaceholderCounts(|names|);
    FieldCommas(names);
    PlaceholdersAreJoined(|names|);
  }

  // ---------------------------------------------------------------------
  // Column types

  /** The module-level `get_type`: a dict subscript over four JSON type names. */
  const StrictTypes: Dict<string> :=
    [("string", "STRING"), ("integer", "INT8"), ("datetime", "TIMESTAMPTZ"), ("date", "DATE")]

  /** `get_type(tag)` at module level: the column type, or KeyError for a
      tag the dict lacks. */
  function StrictType(tag: string): (r: Result<string>)
    ensures r.Ok? <==> tag in Keys(StrictTypes)
    ensures r.Err? ==> r.error == KeyError
    ensures r.Ok? ==> r.value in {"STRING", "INT8", "TIMESTAMPTZ", "DATE"}
  {
    match Get(StrictTypes, tag)
    case Some(t) => Ok(t)
    case None => Err(KeyError)
  }

  /** The module-level map knows the four JSON type names and raises on any
      other tag. */
  lemma StrictTypeMap(tag: string)
    ensures tag == "string" ==> StrictType(tag) == Ok("STRING")
    ensures tag == "integer" ==> StrictType(tag) == Ok("INT8")
    ensures tag == "datetime" ==> StrictType(tag) == Ok("TIMESTAMPTZ")
    ensures tag == "date" ==> StrictType(tag) == Ok("DATE")
    ensures tag !in {"string", "integer", "datetime", "date"} ==> StrictType(tag) == Err(KeyError)
  {
    assert Keys(StrictTypes) == ["string", "integer", "datetime", "date"];
  }

  /** The `get_type` nested in `create_model`: `dict.get(x, x)`. */
  const LooseTypes: Dict<string> :=
    [("markdown", "STRING"), ("enum", "STRING"), ("timestamp", "TIMESTAMPTZ")]

  /** The inner `get_type(tag)`. */
  function LooseType(tag: string): (r: string)
    ensures tag !in Keys(LooseTypes) ==> r == tag
    ensures r != tag ==> r in {"STRING", "TIMESTAMPTZ"}
  {
    match Get(LooseTypes, tag)
    case Some(t) => t
    case None => tag
  }

  /** The inner map turns the editor-only tags into column types and passes
      every other tag through unchanged. */
  lemma LooseTypeMap(tag: string)
    ensures tag == "markdown" || tag == "enum" ==> LooseType(tag) == "STRING"
    ensures tag == "timestamp" ==> LooseType(tag) == "TIMESTAMPTZ"
    ensures tag !in {"markdown", "enum", "timestamp"} ==> LooseType(tag) == tag
  {
    assert Keys(LooseTypes) == ["markdown", "enum", "timestamp"];
  }

  /** The tags the model editor offers beyond JSON's own are accepted by
      `create_model` and rejected by `update_model`, as is `decimal`. */
  lemma TypeMapsDisagree(tag: string)
    requires tag in {"markdown", "enum", "timestamp", "decimal"}
    ensures StrictType(tag) == Err(KeyError)
    ensures tag != "decimal" ==> LooseType(tag) in {"STRING", "TIMESTAMPTZ"}
  {
    StrictTypeMap(tag);
    LooseTypeMap(tag);
  }

  // ---------------------------------------------------------------------
  // create_model

  const SqlReservedWords: seq<string> := [
    "all", "analyse", "analyze", "and", "any", "array", "as", "asc", "asymmetric", "both",
    "case", "cast", "check", "collate", "column", "concurrently", "constraint", "create",
    "current_catalog", "current_date", "current_role", "current_schema", "current_time",
    "current_timestamp", "current_user", "default", "deferrable", "desc", "distinct", "do",
    "else", "end", "except", "false", "fetch", "for", "foreign", "from", "grant", "group",
    "having", "in", "index", "initially", "intersect", "into", "lateral", "leading", "limit",
    "localtime", "localtimestamp", "not", "nothing", "null", "offset", "on", "only", "or",
    "order", "placing", "primary", "references", "returning", "select", "session_user", "some",
    "symmetric", "table", "then", "to", "trailing", "true", "union", "unique", "user", "using",
    "variadic", "when", "where", "window", "with"
  ]

  const BaseColumnNames: seq<string> := [
    "id", "created_at", "created_by", "updated_at", "updated_by", "name", "owned_by",
    "permissions", "tags", "parent_type", "parent_id", "attachments"
  ]

  /** `RESERVED_WORDS`: the base-table columns, then the SQL keywords. */
  const ReservedWords: seq<string> := BaseColumnNames + SqlReservedWords

  /** `name.lower() in RESERVED_WORDS`. */
  predicate Reserved(name: string)
  {
    Lower(name) in ReservedWords
  }

  /** The `additions` dict once the first loop of `create_model` has put
      every field's column type. */
  function ColumnsOf(fields: seq<FieldDescriptor>): (r: Dict<string>)
    ensures |r| <= |fields|
    ensures fields != [] ==> r != []
  {
    if fields == [] then []
    else
      var f := fields[|fields| - 1];
      Put(ColumnsOf(fields[..|fields| - 1]), f.name, LooseType(f.typeTag))
  }

  /** One custom-column line, `"{k} {v},\n"`. */
  function Line(column: (string, string)): string
  {
    column.0 + " " + column.1 + ",\n"
  }

  /** The custom-column lines, in dict order. */
  function ColumnLines(additions: Dict<string>): string
  {
    if additions == [] then ""
    else ColumnLines(additions[..|additions| - 1]) + Line(additions[|additions| - 1])
  }

  /** `stmt_prefix`: the fixed columns of every model table. */
  function TablePrefix(table: string): string
  {
    "\n    CREATE TABLE " + table + "(\n"
    + "        -- pk\n"
    + "        id UUID NOT NULL,\n"
    + "        -- default fields\n"
    + "        name STRING NULL,\n"
    + "        owned_by STRING NULL,\n"
    + "        permissions STRING NULL,\n"
    + "        tags STRING [] NULL DEFAULT ARRAY[],\n"
    + "        parent_type STRING NULL,\n"
    + "        parent_id UUID NULL,\n"
    + "        attachments STRING[] NULL DEFAULT ARRAY[],\n"
    + "        -- custom fields\n"
    + "    "
  }

  /** `stmt_suffix`: the audit columns, the key and the two indexes. */
  function TableSuffix(table: string): string
  {
    "\n        -- audit info\n"
    + "        created_at TIMESTAMPTZ NOT NULL,\n"
    + "        created_by STRING NULL,\n"
    + "        updated_at TIMESTAMPTZ NOT NULL,\n"
    + "        updated_by STRING NULL,\n"
    + "        -- pk\n"
    + "        CONSTRAINT pk PRIMARY KEY (id)\n"
    + "        );\n"
    + "        CREATE INDEX " + table + "_parent ON " + table + "(parent_type, parent_id);\n"
    + "        CREATE INVERTED INDEX " + table + "_tags_gin ON " + table + "(tags);\n"
    + "    "
  }

  /** What `create_model` decides: `None` when the model name or some field
      name is reserved, otherwise the `CREATE TABLE` statement it executes. */
  function CreateTablePlan(table: string, fields: seq<FieldDescriptor>): (r: Option<string>)
    ensures r.Some? <==> !Reserved(table) && forall i :: 0 <= i < |fields| ==> !Reserved(fields[i].name)
  {
    if Reserved(table) || exists i :: 0 <= i < |fields| && Reserved(fields[i].name) then None
    else Some(TablePrefix(table) + ColumnLines(ColumnsOf(fields)) + TableSuffix(table))
  }

  lemma ColumnsOfExtend(fields: seq<FieldDescriptor>, i: nat)
    requires i < |fields|
    ensures ColumnsOf(fields[..i + 1]) == Put(ColumnsOf(fields[..i]), fields[i].name, LooseType(fields[i].typeTag))
  {
    assert fields[..i + 1][..i] == fields[..i];
  }

  /** No field name among the first n is reserved. */
  predicate NoneReserved(fields: seq<FieldDescriptor>, n: nat)
    requires n <= |fields|
  {
    n == 0 || (NoneReserved(fields, n - 1) && !Reserved(fields[n - 1].name))
  }

  lemma {:induction false} NoneReservedBefore(fields: seq<FieldDescriptor>, n: nat)
    requires n <= |fields|
    ensures NoneReserved(fields, n) <==> forall j :: 0 <= j < n ==> !Reserved(fields[j].name)
  {
    if n > 0 {
      NoneReservedBefore(fields, n - 1);
      var last := Reserved(fields[n - 1].name);
      assert NoneReserved(fields, n) == (NoneReserved(fields, n - 1) && !last);
      if !last && NoneReserved(fields, n - 1) {
        forall j | 0 <= j < n ensures !Reserved(fields[j].name) {
          if j < n - 1 {
            assert !Reserved(fields[j].name);
          }
        }
      }
    }
  }

  /** The first loop of `create_model`: `None` at the first reserved field
      name, otherwise the filled `additions` dict. */
  method CollectColumns(fields: seq<FieldDescriptor>) returns (r: Option<Dict<string>>)
    ensures r.None? <==> exists i :: 0 <= i < |fields| && Reserved(fields[i].name)
    ensures r.Some? ==> r.value == ColumnsOf(fields)
  {
    var additions: Dict<string> := [];
    var i := 0;
    while i < |fields|
      invariant 0 <= i <= |fields|
      invariant additions == ColumnsOf(fields[..i])
      invariant NoneReserved(fields, i)
    {
      var f := fields[i];
      if Reserved(f.name) {
        NoneReservedBefore(fields, i + 1);
        return None;
      }
      ColumnsOfExtend(fields, i);
      additions := Put(additions, f.name, LooseType(f.typeTag));
      i := i + 1;
    }
    NoneReservedBefore(fields, i);
    assert fields[..i] == fields;
    r := Some(additions);
  }

  /** The second loop of `create_model`: `stmt += f"{k} {v},\n"`. */
  method RenderColumns(additions: Dict<string>) returns (stmt: string)
    ensures stmt == ColumnLines(additions)
  {
    stmt := "";
    var j := 0;
    while j < |additions|
      invariant 0 <= j <= |additions|
      invariant stmt == ColumnLines(additions[..j])
    {
      assert additions[..j + 1][..j] == additions[..j];
      stmt := stmt + Line(additions[j]);
      j := j + 1;
    }
    assert additions[..j] == additions;
  }

  /** The statement-building part of `create_model`: the reserved-word gate
      on the model name, the two loops, and the fixed prefix and suffix. */
  method CreateTableStatement(table: string, fields: seq<FieldDescriptor>) returns (r: Option<string>)
    ensures r == CreateTablePlan(table, fields)
  {
    if Reserved(table) {
      return None;
    }
    var additions := CollectColumns(fields);
    if additions.None? {
      return None;
    }
    var stmt := RenderColumns(additions.value);
    r := Some(TablePrefix(table) + stmt + TableSuffix(table));
  }

  /** No statement is built when the lower-cased model name or some
      lower-cased field name is in `RESERVED_WORDS`, and one is built
      otherwise. */
  lemma ReservedNamesRejected(table: string, fields: seq<FieldDescriptor>)
    ensures CreateTablePlan(table, fields).None?
        <==> Lower(table) in ReservedWords
             || exists i :: 0 <= i < |fields| && Lower(fields[i].name) in ReservedWords
  {
  }

  /** The gate is case-insensitive: `Tags`, `ID` or `Select` are refused like
      their lower-case forms. */
  lemma ReservedIgnoresCase()
    ensures Reserved("Tags") && Reserved("ID") && Reserved("Select")
  {
    assert Lower("Tags") == "tags";
    assert Lower("ID") == "id";
    assert Lower("Select") == "select";
    assert ReservedWords[8] == "tags";
    assert ReservedWords[0] == "id";
    assert ReservedWords[12 + 63] == "select";
  }

  /** No column name appears twice in `additions`. */
  lemma {:induction false} ColumnsOfDistinctKeys(fields: seq<FieldDescriptor>)
    ensures DistinctKeys(ColumnsOf(fields))
  {
    if fields != [] {
      var init := fields[..|fields| - 1];
      var f := fields[|fields| - 1];
      ColumnsOfDistinctKeys(init);
      PutDistinct(ColumnsOf(init), f.name, LooseType(f.typeTag));
    }
  }

  /** The column names in `additions` are exactly the field names. */
  lemma {:induction false} ColumnsOfKeys(fields: seq<FieldDescriptor>)
    ensures forall k :: k in Keys(ColumnsOf(fields)) <==> k in Names(fields)
  {
    if fields != [] {
      var init := fields[..|fields| - 1];
      var f := fields[|fields| - 1];
      ColumnsOfKeys(init);
      PutKeys(ColumnsOf(init), f.name, LooseType(f.typeTag));
      NamesLast(fields);
    }
  }

  /** A field's column gets the type of the LAST descriptor with that name. */
  lemma {:induction false} ColumnsOfLastWins(fields: seq<FieldDescriptor>, i: nat)
    requires i < |fields|
    requires forall j :: i < j < |fields| ==> fields[j].name != fields[i].name
    ensures Get(ColumnsOf(fields), fields[i].name) == Some(LooseType(fields[i].typeTag))
  {
    var n := |fields| - 1;
    var init := fields[..n];
    var f := fields[n];
    var d := ColumnsOf(init);
    assert ColumnsOf(fields) == Put(d, f.name, LooseType(f.typeTag));
    if i == n {
      PutGetSame(d, f.name, LooseType(f.typeTag));
    } else {
      assert init[i] == fields[i];
      assert forall j :: i < j < |init| ==> init[j].name != init[i].name by {
        assert forall j :: i < j < |init| ==> init[j] == fields[j];
      }
      ColumnsOfLastWins(init, i);
      PutGetOther(d, f.name, LooseType(f.typeTag), fields[i].name);
    }
  }

  /** One column per field, in field order, typed by the inner type map. */
  function Columns(fields: seq<FieldDescriptor>): Dict<string>
  {
    seq(|fields|, i requires 0 <= i < |fields| => (fields[i].name, LooseType(fields[i].typeTag)))
  }

  lemma ColumnsLast(fields: seq<FieldDescriptor>)
    requires fields != []
    ensures Columns(fields)
      == Columns(fields[..|fields| - 1]) + [(fields[|fields| - 1].name, LooseType(fields[|fields| - 1].typeTag))]
  {
    var init := fields[..|fields| - 1];
    assert forall i :: 0 <= i < |init| ==> init[i] == fields[i];
  }

  lemma LastNameFresh(fields: seq<FieldDescriptor>)
    requires fields != [] && DistinctNames(fields)
    ensures fields[|fields| - 1].name !in Keys(Columns(fields[..|fields| - 1]))
  {
    DistinctNamesInit(fields);
    var cs := Columns(fields[..|fields| - 1]);
    forall j | 0 <= j < |cs| ensures Keys(cs)[j] != fields[|fields| - 1].name {
      assert cs[j].0 == fields[j].name;
    }
  }

  /** With distinct field names, `additions` holds one column per field, in
      field order, typed by the inner type map. */
  lemma {:induction false} ColumnsOfDistinct(fields: seq<FieldDescriptor>)
    requires DistinctNames(fields)
    ensures ColumnsOf(fields) == Columns(fields)
  {
    if fields != [] {
      DistinctNamesInit(fields);
      ColumnsOfDistinct(fields[..|fields| - 1]);
      LastNameFresh(fields);
      ColumnsLast(fields);
    }
  }

  /** With distinct field names and none reserved, the table gets one
      `name TYPE,` line per field, in field order. */
  lemma CreateTableLines(table: string, fields: seq<FieldDescriptor>)
    requires DistinctNames(fields)
    requires !Reserved(table) && forall i :: 0 <= i < |fields| ==> !Reserved(fields[i].name)
    ensures CreateTablePlan(table, fields) == Some(TablePrefix(table) + ColumnLines(Columns(fields)) + TableSuffix(table))
  {
    ColumnsOfDistinct(fields);
  }

  // ---------------------------------------------------------------------
  // update_model

  /** The first loop of `update_model`: old columns missing from the new
      schema, in old order. */
  function Removals(oldProps: Dict<Json>, newProps: Dict<Json>): (r: seq<string>)
    ensures |r| <= |oldProps|
    ensures forall i :: 0 <= i < |r| ==> r[i] !in Keys(newProps)
  {
    if oldProps == [] then []
    else
      var k := oldProps[|oldProps| - 1].0;
      Removals(oldProps[..|oldProps| - 1], newProps) + (if k in Keys(newProps) then [] else [k])
  }

  /** The second loop: `additions[k] = v["type"]` for each new property not
      in the old schema; a value without `type` raises. */
  function Additions(oldProps: Dict<Json>, newProps: Dict<Json>): (r: Result<Dict<Json>>)
    ensures r.Err? ==> r.error == KeyError || r.error == TypeError
    ensures r.Ok? ==> |r.value| <= |newProps|
  {
    if newProps == [] then Ok([])
    else
      match Additions(oldProps, newProps[..|newProps| - 1])
      case Err(e) => Err(e)
      case Ok(acc) =>
        var (k, v) := newProps[|newProps| - 1];
        if k in Keys(oldProps) then Ok(acc)
        else
          match Subscript(v, "type")
          case Err(e) => Err(e)
          case Ok(t) => Ok(Put(acc, k, t))
  }

  datatype ColumnDiff = ColumnDiff(removals: seq<string>, additions: Dict<Json>)

  function DiffOf(oldProps: Dict<Json>, newProps: Dict<Json>): (r: Result<ColumnDiff>)
    ensures r.Err? ==> r.error == KeyError || r.error == TypeError
    ensures r.Ok? ==> |r.value.removals| <= |oldProps| && |r.value.additions| <= |newProps|
    ensures r.Ok? ==> forall i :: 0 <= i < |r.value.removals| ==> r.value.removals[i] !in Keys(newProps)
  {
    match Additions(oldProps, newProps)
    case Err(e) => Err(e)
    case Ok(a) => Ok(ColumnDiff(Removals(oldProps, newProps), a))
  }

  lemma AdditionsStopAtError(oldProps: Dict<Json>, newProps: Dict<Json>, n: nat)
    requires n <= |newProps|
    requires Additions(oldProps, newProps[..n]).Err?
    ensures Additions(oldProps, newProps) == Additions(oldProps, newProps[..n])
    decreases |newProps| - n
  {
    if n < |newProps| {
      var init := newProps[..|newProps| - 1];
      assert init[..n] == newProps[..n];
      AdditionsStopAtError(oldProps, init, n);
    } else {
      assert newProps[..n] == newProps;
    }
  }

  /** The two diff loops of `update_model`. */
  method ComputeDiff(oldProps: Dict<Json>, newProps: Dict<Json>) returns (r: Result<ColumnDiff>)
    ensures r == DiffOf(oldProps, newProps)
  {
    var removals: seq<string> := [];
    var i := 0;
    while i < |oldProps|
      invariant 0 <= i <= |oldProps|
      invariant removals == Removals(oldProps[..i], newProps)
    {
      assert oldProps[..i + 1][..i] == oldProps[..i];
      var k := oldProps[i].0;
      if k !in Keys(newProps) {
        removals := removals + [k];
      }
      i := i + 1;
    }
    assert oldProps[..i] == oldProps;
    var additions: Dict<Json> := [];
    var j := 0;
    while j < |newProps|
      invariant 0 <= j <= |newProps|
      invariant Additions(oldProps, newProps[..j]) == Ok(additions)
    {
      assert newProps[..j + 1][..j] == newProps[..j];
      var (k, v) := newProps[j];
      if k !in Keys(oldProps) {
        var t := Subscript(v, "type");
        if t.Err? {
          AdditionsStopAtError(oldProps, newProps, j + 1);
          return Err(t.error);
        }
        additions := Put(additions, k, t.value);
      }
      j := j + 1;
    }
    assert newProps[..j] == newProps;
    r := Ok(ColumnDiff(removals, additions));
  }

  /** A column is removed exactly when the old schema has it and the new one
      does not. */
  lemma {:induction false} RemovalsExact(oldProps: Dict<Json>, newProps: Dict<Json>)
    ensures forall k :: k in Removals(oldProps, newProps) <==> k in Keys(oldProps) && k !in Keys(newProps)
  {
    if oldProps != [] {
      var init := oldProps[..|oldProps| - 1];
      RemovalsExact(init, newProps);
      assert Keys(oldProps) == Keys(init) + [oldProps[|oldProps| - 1].0];
    }
  }

  /** `xs` is `ys` with some elements left out, the rest kept in order. */
  predicate SubsequenceOf(xs: seq<string>, ys: seq<string>)
    decreases |ys|
  {
    xs == []
    || (ys != []
        && ((xs[|xs| - 1] == ys[|ys| - 1] && SubsequenceOf(xs[..|xs| - 1], ys[..|ys| - 1]))
            || SubsequenceOf(xs, ys[..|ys| - 1])))
  }

  /** Removals keep the order of the old schema: they are the old keys with
      the retained ones left out. */
  lemma {:induction false} RemovalsInOldOrder(oldProps: Dict<Json>, newProps: Dict<Json>)
    ensures SubsequenceOf(Removals(oldProps, newProps), Keys(oldProps))
  {
    if oldProps != [] {
      var n := |oldProps| - 1;
      var init := oldProps[..n];
      var k := oldProps[n].0;
      RemovalsInOldOrder(init, newProps);
      var ks := Keys(oldProps);
      assert ks[..n] == Keys(init);
      assert ks[n] == k;
      var rs := Removals(oldProps, newProps);
      if k !in Keys(newProps) {
        assert rs == Removals(init, newProps) + [k];
        assert rs[..|rs| - 1] == Removals(init, newProps);
      } else {
        assert rs == Removals(init, newProps);
      }
    }
  }

  /** Added columns are exactly the new properties the old schema lacks. */
  lemma {:induction false} AdditionsExact(oldProps: Dict<Json>, newProps: Dict<Json>)
    requires Additions(oldProps, newProps).Ok?
    ensures forall k :: k in Keys(Additions(oldProps, newProps).value) <==> k in Keys(newProps) && k !in Keys(oldProps)
  {
    if newProps != [] {
      var init := newProps[..|newProps| - 1];
      var (k', v) := newProps[|newProps| - 1];
      AdditionsExact(oldProps, init);
      assert Keys(newProps) == Keys(init) + [k'];
      if k' !in Keys(oldProps) {
        PutKeys(Additions(oldProps, init).value, k', Subscript(v, "type").value);
      }
    }
  }

  /** A new property the old schema lacks, without a readable `type`. */
  predicate MissingType(oldProps: Dict<Json>, p: (string, Json))
  {
    p.0 !in Keys(oldProps) && Subscript(p.1, "type").Err?
  }

  /** One more new property makes the diff raise exactly when it lacks a
      readable `type`, unless the diff already raised. */
  lemma AdditionsStepErr(oldProps: Dict<Json>, newProps: Dict<Json>)
    requires newProps != []
    ensures Additions(oldProps, newProps).Err?
        <==> Additions(oldProps, newProps[..|newProps| - 1]).Err? || MissingType(oldProps, newProps[|newProps| - 1])
  {
  }

  /** The diff raises exactly when some new property lacks a `type`. */
  lemma {:induction false} AdditionsFailOnMissingType(oldProps: Dict<Json>, newProps: Dict<Json>)
    ensures Additions(oldProps, newProps).Err?
        <==> exists i :: 0 <= i < |newProps| && MissingType(oldProps, newProps[i])
  {
    if newProps != [] {
      var n := |newProps| - 1;
      var init := newProps[..n];
      AdditionsFailOnMissingType(oldProps, init);
      AdditionsStepErr(oldProps, newProps);
      if exists i :: 0 <= i < |init| && MissingType(oldProps, init[i]) {
        var i :| 0 <= i < |init| && MissingType(oldProps, init[i]);
        assert newProps[i] == init[i];
      } else if exists i :: 0 <= i < |newProps| && MissingType(oldProps, newProps[i]) {
        var i :| 0 <= i < |newProps| && MissingType(oldProps, newProps[i]);
        assert i == n || (i < n && MissingType(oldProps, init[i]));
      }
    }
  }

  /** An added column carries the `type` of the last new property with its
      name. A dict decoded by `json.loads` never repeats a key (a repeated
      key in the text keeps its last value), so for the dicts the source
      sees this is simply the property's own `type`; the lemma covers
      repeated keys only because a `Dict` value can hold them. */
  lemma {:induction false} AdditionLastWins(oldProps: Dict<Json>, newProps: Dict<Json>, i: nat)
    requires Additions(oldProps, newProps).Ok?
    requires i < |newProps| && newProps[i].0 !in Keys(oldProps)
    requires forall j :: i < j < |newProps| ==> newProps[j].0 != newProps[i].0
    ensures Subscript(newProps[i].1, "type").Ok?
    ensures Get(Additions(oldProps, newProps).value, newProps[i].0) == Some(Subscript(newProps[i].1, "type").value)
  {
    var n := |newProps| - 1;
    var init := newProps[..n];
    var (k', v) := newProps[n];
    var acc := Additions(oldProps, init).value;
    if i == n {
      PutGetSame(acc, k', Subscript(v, "type").value);
    } else {
      assert init[i] == newProps[i];
      assert forall j :: i < j < |init| ==> init[j].0 != init[i].0 by {
        assert forall j :: i < j < |init| ==> init[j] == newProps[j];
      }
      AdditionLastWins(oldProps, init, i);
      if k' !in Keys(oldProps) {
        PutGetOther(acc, k', Subscript(v, "type").value, newProps[i].0);
      }
    }
  }

  /** A column kept by the new schema is neither dropped nor added, and no
      column is both. */
  lemma DiffDisjoint(oldProps: Dict<Json>, newProps: Dict<Json>)
    requires DiffOf(oldProps, newProps).Ok?
    ensures var d := DiffOf(oldProps, newProps).value;
      && (forall k :: k in Keys(oldProps) && k in Keys(newProps) ==> k !in d.removals && k !in Keys(d.additions))
      && (forall k :: k in d.removals ==> k !in Keys(d.additions))
  {
    RemovalsExact(oldProps, newProps);
    AdditionsExact(oldProps, newProps);
  }

  /** The statement `update_model` issues to drop one column. */
  function DropStatement(table: string, column: string): string
  {
    "SET sql_safe_updates = false;\n            ALTER TABLE " + table + " DROP COLUMN " + column
      + ";\n            SET sql_safe_updates = true;\n            "
  }

  /** The statement `update_model` issues to add one column. */
  function AddStatement(table: string, column: string, columnType: string): string
  {
    "ALTER TABLE " + table + " ADD COLUMN " + column + " " + columnType + ";"
  }

  /** `get_type(y)` on the decoded `type` value: a string goes through the
      strict map; a list or dict cannot be a dict key (TypeError); anything
      else is simply not a key (KeyError). */
  function ColumnType(y: Json): (r: Result<string>)
    ensures r.Ok? ==> y.JStr? && r.value in {"STRING", "INT8", "TIMESTAMPTZ", "DATE"}
    ensures (y.JArr? || y.JObj?) ==> r == Err(TypeError)
    ensures r.Err? && !y.JArr? && !y.JObj? ==> r == Err(KeyError)
  {
    match y
    case JStr(s) => StrictType(s)
    case JArr(_) => Err(TypeError)
    case JObj(_) => Err(TypeError)
    case _ => Err(KeyError)
  }

  /** Only the four JSON type names, given as strings, have a column type. */
  lemma ColumnTypeAccepts(y: Json)
    ensures ColumnType(y).Ok? <==> y.JStr? && y.s in {"string", "integer", "datetime", "date"}
  {
    if y.JStr? {
      StrictTypeMap(y.s);
    }
  }

  /** The statements issued, and the exception raised if the loop stops. */
  datatype UpdateOutcome = UpdateOutcome(issued: seq<string>, error: Option<PyError>)

  function DropAll(table: string, removals: seq<string>): (stmts: seq<string>)
    ensures |stmts| == |removals|
    ensures forall i :: 0 <= i < |removals| ==> stmts[i] == DropStatement(table, removals[i])
  {
    seq(|removals|, i requires 0 <= i < |removals| => DropStatement(table, removals[i]))
  }

  /** The `ADD COLUMN` loop: stops at the first column whose type the strict
      map rejects, after issuing the statements before it. */
  function AddAll(table: string, additions: Dict<Json>): (out: UpdateOutcome)
    ensures |out.issued| <= |additions|
    ensures out.error.None? <==> |out.issued| == |additions|
    ensures out.error.Some? ==> out.error.value == KeyError || out.error.value == TypeError
  {
    if additions == [] then UpdateOutcome([], None)
    else
      var prev := AddAll(table, additions[..|additions| - 1]);
      if prev.error.Some? then prev
      else
        var (x, y) := additions[|additions| - 1];
        match ColumnType(y)
        case Err(e) => UpdateOutcome(prev.issued, Some(e))
        case Ok(t) => UpdateOutcome(prev.issued + [AddStatement(table, x, t)], None)
  }

  /** What `update_model` issues before its final `UPDATE internal.models`,
      given the old and new `properties` dicts. */
  function UpdatePlan(table: string, oldProps: Dict<Json>, newProps: Dict<Json>): (out: UpdateOutcome)
    ensures out.error.Some? ==> out.error.value == KeyError || out.error.value == TypeError
    ensures Additions(oldProps, newProps).Err? ==> out.issued == []
    ensures out.error.None? ==>
              Additions(oldProps, newProps).Ok?
              && |out.issued| == |Removals(oldProps, newProps)| + |Additions(oldProps, newProps).value|
  {
    match DiffOf(oldProps, newProps)
    case Err(e) => UpdateOutcome([], Some(e))
    case Ok(d) =>
      var adds := AddAll(table, d.additions);
      UpdateOutcome(DropAll(table, d.removals) + adds.issued, adds.error)
  }

  lemma AddAllStopsAtError(table: string, additions: Dict<Json>, n: nat)
    requires n <= |additions|
    requires AddAll(table, additions[..n]).error.Some?
    ensures AddAll(table, additions) == AddAll(table, additions[..n])
    decreases |additions| - n
  {
    if n < |additions| {
      var init := additions[..|additions| - 1];
      assert init[..n] == additions[..n];
      AddAllStopsAtError(table, init, n);
    } else {
      assert additions[..n] == additions;
    }
  }

  /** The `DROP COLUMN` loop of `update_model`. */
  method DropColumns(table: string, removals: seq<string>) returns (issued: seq<string>)
    ensures issued == DropAll(table, removals)
  {
    issued := [];
    var i := 0;
    while i < |removals|
      invariant 0 <= i <= |removals|
      invariant issued == DropAll(table, removals[..i])
    {
      issued := issued + [DropStatement(table, removals[i])];
      i := i + 1;
    }
  }

  /** The `ADD COLUMN` loop of `update_model`, up to the first rejected type. */
  method AddColumns(table: string, additions: Dict<Json>) returns (out: UpdateOutcome)
    ensures out == AddAll(table, additions)
  {
    var issued: seq<string> := [];
    var j := 0;
    while j < |additions|
      invariant 0 <= j <= |additions|
      invariant AddAll(table, additions[..j]) == UpdateOutcome(issued, None)
    {
      assert additions[..j + 1][..j] == additions[..j];
      var (x, y) := additions[j];
      var t := ColumnType(y);
      if t.Err? {
        AddAllStopsAtError(table, additions, j + 1);
        return UpdateOutcome(issued, Some(t.error));
      }
      issued := issued + [AddStatement(table, x, t.value)];
      j := j + 1;
    }
    assert additions[..j] == additions;
    out := UpdateOutcome(issued, None);
  }

  /** The statement part of `update_model`: the diff, every drop, then the
      adds. */
  method UpdateStatements(table: string, oldProps: Dict<Json>, newProps: Dict<Json>) returns (out: UpdateOutcome)
    ensures out == UpdatePlan(table, oldProps, newProps)
  {
    var diff := ComputeDiff(oldProps, newProps);
    if diff.Err? {
      return UpdateOutcome([], Some(diff.error));
    }
    var drops := DropColumns(table, diff.value.removals);
    var adds := AddColumns(table, diff.value.additions);
    out := UpdateOutcome(drops + adds.issued, adds.error);
  }

  /** Every `DROP COLUMN` is issued before the first `ADD COLUMN`, and even
      when an added column's type is later rejected. */
  lemma DropsComeFirst(table: string, oldProps: Dict<Json>, newProps: Dict<Json>)
    requires DiffOf(oldProps, newProps).Ok?
    ensures var d := DiffOf(oldProps, newProps).value;
      var out := UpdatePlan(table, oldProps, newProps);
      |out.issued| >= |d.removals|
      && forall i :: 0 <= i < |d.removals| ==> out.issued[i] == DropStatement(table, d.removals[i])
  {
  }

  /** One more column: the loop still completes exactly when that column's
      type is accepted, adding one statement. */
  lemma AddAllStep(table: string, additions: Dict<Json>)
    requires additions != []
    ensures var prev := AddAll(table, additions[..|additions| - 1]);
      var out := AddAll(table, additions);
      && (out.error.None? <==> prev.error.None? && ColumnType(additions[|additions| - 1].1).Ok?)
      && (out.error.None? ==> |out.issued| == |prev.issued| + 1)
  {
  }

  /** An added column whose `type` the strict map rejects. */
  predicate Unmapped(column: (string, Json))
  {
    ColumnType(column.1).Err?
  }

  /** The add loop raises exactly when some added type is not one of the
      four JSON type names the strict map knows; when it completes it has
      issued one statement per column. */
  lemma {:induction false} AddAllCompletes(table: string, additions: Dict<Json>)
    ensures var out := AddAll(table, additions);
      && (out.error.Some? <==> exists i :: 0 <= i < |additions| && Unmapped(additions[i]))
      && (out.error.None? ==> |out.issued| == |additions|)
  {
    if additions != [] {
      var n := |additions| - 1;
      var init := additions[..n];
      AddAllCompletes(table, init);
      AddAllStep(table, additions);
      if exists i :: 0 <= i < |init| && Unmapped(init[i]) {
        var i :| 0 <= i < |init| && Unmapped(init[i]);
        assert additions[i] == init[i];
      } else if exists i :: 0 <= i < |additions| && Unmapped(additions[i]) {
        var i :| 0 <= i < |additions| && Unmapped(additions[i]);
        assert i == n || (i < n && Unmapped(init[i]));
      }
    }
  }

  /** When the add loop raises, it has issued one statement for each column
      before the first rejected one, and raises that column's error. */
  lemma {:induction false} AddAllStops(table: string, additions: Dict<Json>)
    requires AddAll(table, additions).error.Some?
    ensures var out := AddAll(table, additions);
      var n := |out.issued|;
      && n < |additions|
      && ColumnType(additions[n].1) == Err(out.error.value)
      && forall i :: 0 <= i < n ==> ColumnType(additions[i].1).Ok?
  {
    var init := additions[..|additions| - 1];
    var prev := AddAll(table, init);
    if prev.error.Some? {
      AddAllStops(table, init);
      assert forall i :: 0 <= i < |init| ==> init[i] == additions[i];
    } else {
      AddAllCompletes(table, init);
      assert forall i :: 0 <= i < |init| ==> init[i] == additions[i];
    }
  }

  /** The whole update for a diff that evaluates: every `DROP COLUMN` first,
      then one `ADD COLUMN` per added column, and no exception exactly when
      every added type is one the strict map knows. */
  lemma UpdatePlanCompletes(table: string, oldProps: Dict<Json>, newProps: Dict<Json>)
    requires DiffOf(oldProps, newProps).Ok?
    ensures var d := DiffOf(oldProps, newProps).value;
      var out := UpdatePlan(table, oldProps, newProps);
      && (out.error.None? <==> forall i :: 0 <= i < |d.additions| ==> !Unmapped(d.additions[i]))
      && (out.error.None? ==> |out.issued| == |d.removals| + |d.additions|)
      && forall i :: 0 <= i < |d.removals| ==> out.issued[i] == DropStatement(table, d.removals[i])
  {
    AddAllCompletes(table, DiffOf(oldProps, newProps).value.additions);
  }

  // ---------------------------------------------------------------------
  // update_model as written (lines 332-347)

  /** A `Model` row as `get_model` returns it: the fields of `ModelUpdate`
      and `AuditFields`, the schema kept as its decoded JSON. */
  datatype StoredModel = StoredModel(
    name: string, skema: Json,
    createdBy: Json, createdAt: Json, updatedBy: Json, updatedAt: Json)

  /** The attributes a `Model` instance has, by name. */
  function Attributes(m: StoredModel): (attrs: Dict<Json>)
    ensures Keys(attrs) == ["name", "skema", "created_by", "created_at", "updated_by", "updated_at"]
  {
    [("name", JStr(m.name)), ("skema", m.skema),
     ("created_by", m.createdBy), ("created_at", m.createdAt),
     ("updated_by", m.updatedBy), ("updated_at", m.updatedAt)]
  }

  /** `obj.attr`: the attribute's value, or AttributeError for a name the
      object does not have. */
  function GetAttr(attrs: Dict<Json>, attr: string): (r: Result<Json>)
    ensures r.Ok? <==> attr in Keys(attrs)
    ensures r.Ok? ==> Get(attrs, attr) == Some(r.value)
    ensures r.Err? ==> r.error == AttributeError
  {
    match Get(attrs, attr)
    case Some(v) => Ok(v)
    case None => Err(AttributeError)
  }

  /** `m.fields.properties` on the model `get_model` returned; `None` stands
      for no stored row, whose attributes are none at all. A decoded JSON
      value has no attribute `properties` either. */
  function FieldsProperties(m: Option<StoredModel>): (r: Result<Dict<Json>>)
    ensures r.Err? ==> r.error == AttributeError
  {
    var attrs := if m.Some? then Attributes(m.value) else [];
    match GetAttr(attrs, "fields")
    case Err(e) => Err(e)
    case Ok(_) => Err(AttributeError)
  }

  /** The statements `update_model` issues as written, given what
      `get_model` returned for the old model and the new model. */
  function UpdateModelAsWritten(oldModel: Option<StoredModel>, model: StoredModel): (out: UpdateOutcome)
    ensures out.error.None? ==>
              FieldsProperties(oldModel).Ok? && FieldsProperties(Some(model)).Ok?
              && out == UpdatePlan(model.name, FieldsProperties(oldModel).value, FieldsProperties(Some(model)).value)
  {
    match FieldsProperties(oldModel)
    case Err(e) => UpdateOutcome([], Some(e))
    case Ok(oldProps) =>
      match FieldsProperties(Some(model))
      case Err(e) => UpdateOutcome([], Some(e))
      case Ok(newProps) => UpdatePlan(model.name, oldProps, newProps)
  }

  /** As written, `update_model` never reaches a `DROP` or `ADD`: a `Model`
      has no attribute `fields`, so the first read of
      `old_model.fields.properties` raises AttributeError. */
  lemma {:induction false} UpdateModelAsWrittenRaises(oldModel: Option<StoredModel>, model: StoredModel)
    ensures UpdateModelAsWritten(oldModel, model) == UpdateOutcome([], Some(AttributeError))
  {
    var attrs := if oldModel.Some? then Attributes(oldModel.value) else [];
    assert "fields" !in Keys(attrs);
  }
}
