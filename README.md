# worst_api_server: schema-driven transformations in Dafny

worst_api_server is a FastAPI back end. Users define their own tables
("models") as JSON schemas. The server turns each schema into DDL, into
pydantic validation models and into parameterised SQL filters, and a Vue
front end shows the rows. This project models the deterministic
transformations beneath that glue and proves what they guarantee.

- **`WhereClause`** models the filter compiler `__get_where_clause` of
  `apiserver/db.py`.
  - A `tags` key becomes a containment test.
  - A `_from` or `_to` suffix becomes an inclusive bound.
  - Any other key becomes an `IN (...)` list.
  - Falsy values are skipped, and the predicates are joined by `AND` and
    trimmed.
  - The two loops are `while` methods, each proved equal to a left-fold
    specification. The clause provably holds one `%s` per bind parameter.
- **`SchemaDdl`** models the DDL planning of `apiserver/db.py`:
  - the column and placeholder lists;
  - both type maps, the strict module-level one and the lenient one inside
    `create_model`;
  - the case-insensitive reserved-word gate and the `CREATE TABLE`
    statement of `create_model`;
  - the old/new column diff of `update_model` and the `DROP COLUMN` and
    `ADD COLUMN` statements it issues.
- **`Shapes`** models `extend_model`, which is identical in both loaders.
  Pydantic's `create_model` is modelled as building a record: a name, its
  bases and an insertion-ordered dict of `(type, default)` fields. The
  module also holds the Python `X | Y` type union and `get_fieldinfo`'s
  default rule.
- **`ApiModels`** models `build_model_tuple` of `apiserver/models.py`. It has
  a total type map, nullable fields become `T | None`, and there is an
  overview filter. It also models the three models built per schema.
- **`CrmModels`** models `build_model_tuple` of `worst_crm/models.py`. It
  works over JSON Schema `properties`, has a partial type map, and unions the
  first two `anyOf` alternatives. It also models the two models built per
  schema.
- **`WebUtils`** models the helpers of `webapp/src/utils/utils.ts`:
  - `nextElementInList`;
  - `hashCode`, with explicit 32-bit wrap-around over UTF-16 code units;
  - `getLabel`, with JavaScript's sign-keeping `%`;
  - `titleCase`, with the backtracking of its two regular expressions.
- **`PyCore`**, **`SqlText`** and **`Skema`** hold shared pieces:
  - decoded JSON values and Python's truth test;
  - the exceptions the code raises;
  - insertion-ordered dicts, with `d[k] = v` keeping the position of an
    existing key;
  - string joins, `s * n`, `s[:-k]` and character counts;
  - the field descriptors stored in `skema.fields`.

The exceptions the modelled operations raise on the inputs they take are
values: `KeyError`, `IndexError`, `TypeError`, `ValueError` or
`AttributeError` in a `Result`. A loop that stops at an exception is proved
to give the same error as the prefix that raised it. Two kinds of input are
outside this: field descriptors missing one of their keys, and non-string
names or types (see "Left out").

Where the prose description of the system and the code differ, the model
follows the code:
- Updating a model looks up column types with the four-tag module-level map
  (`apiserver/db.py:211-220`). So an added `markdown`, `enum` or
  `timestamp` column raises, although creating a table maps those tags.
- `update_model` reads `fields.properties` of the old and new model, an
  attribute the `Model` class does not have. As written, it therefore
  raises AttributeError before issuing any statement
  (`SchemaDdl.UpdateModelAsWritten`, see "Findings"). The diff and the
  statements the code evidently intends are modelled over the two property
  dicts, taken as inputs (`SchemaDdl.UpdatePlan`).

## Model

| member | source | states |
|---|---|---|
| PyCore.Get | apiserver/models.py:31 | `d.get(k)` finds a value exactly when `k` is a key, and the pair is in the dict |
| PyCore.Put | apiserver/db.py:273 | `d[k] = v` keeps the length and key order when `k` is present, and appends `(k, v)` when it is absent |
| PyCore.PutGetSame | apiserver/db.py:273 | after `d[k] = v`, `d.get(k)` is `v` |
| PyCore.PutGetOther | apiserver/db.py:273 | after `d[k] = v`, every other key reads as before |
| PyCore.PutKeys | apiserver/db.py:273 | after `d[k] = v` the keys are the old keys plus `k` |
| PyCore.PutDistinct | apiserver/db.py:273 | `d[k] = v` never duplicates a key |
| PyCore.Subscript | worst_crm/models.py:35-39 | `obj[key]` succeeds exactly on a dict that has the key, giving the value `get` finds; a dict without the key raises KeyError and anything else TypeError |
| PyCore.At | worst_crm/models.py:35 | `xs[i]` on a list is its i-th element, or IndexError past the end; the only errors are IndexError, KeyError and TypeError |
| PyCore.LowerChar | apiserver/db.py:255 | `c.lower()` maps an ASCII capital to the letter 32 code points above it and keeps every other character |
| PyCore.Lower | apiserver/db.py:255 | `s.lower()` keeps the length and lower-cases each ASCII letter |
| SqlText.DropLast | apiserver/db.py:201 | `s[:-k]` is `s` without its last k characters, or empty when `s` is shorter |
| SqlText.PlaceholdersAreJoined | apiserver/db.py:191 | `("%s, " * n)[:-2]` equals n copies of `%s` joined by `", "` |
| SqlText.PlaceholderCounts | apiserver/db.py:191 | that list has n `%` and n - 1 commas, and is empty exactly when n is 0 |
| WhereClause.Elements | apiserver/db.py:191-192 | what `len(v)` counts and `bind_params += v` appends: a list's items, a string's characters as one-character strings, a dict's keys, each in order; TypeError for a number, a boolean or None |
| WhereClause.CompileFilter | apiserver/db.py:179-192 | one filter adds nothing exactly when its value is falsy and raises (TypeError) exactly for a truthy number or boolean under an `IN` key; every predicate is qualified by `table.`, and the `tags`, `_from` and `_to` rules bind the value itself |
| WhereClause.CompileAll | apiserver/db.py:178-192 | the loop raises only TypeError, yields at most one predicate per filter, and every predicate is qualified by `table.` |
| WhereClause.WhereClauseOf | apiserver/db.py:167-201 | an empty filter list returns `("", ())`; the call raises exactly when the filter loop does, and then with TypeError |
| WhereClause.CompileFilters | apiserver/db.py:176-192 | the filter loop fills `where` and `bind_params` exactly as the left-fold specification `CompileAll` does, including where it raises |
| WhereClause.AppendPredicates | apiserver/db.py:198-199 | the `+=` loop yields the head followed by each predicate and `" AND "`, in order |
| WhereClause.GetWhereClause | apiserver/db.py:167-201 | the whole function, early return included, equals `WhereClauseOf` |
| WhereClause.CompileAllStopsAtError | apiserver/db.py:178-192 | once a prefix of the filters raises, the whole call raises the same exception |
| WhereClause.FalsyFiltersCompileToNothing | apiserver/db.py:178-179 | filters whose values are all falsy add no predicate and no parameter |
| WhereClause.PredicatesComeFromTruthyValues | apiserver/db.py:179-192 | there is a predicate exactly when some filter value is truthy |
| WhereClause.FalsyFiltersGiveEmptyClause | apiserver/db.py:173-201 | an empty filter list, or one whose values are all falsy, returns `("", ())` |
| WhereClause.AndTerminatedIsJoin | apiserver/db.py:198-199 | the accumulated string is the predicates joined by `" AND "` plus a trailing `" AND "` |
| WhereClause.TrimmedLayout | apiserver/db.py:194-201 | after `[:-4]`: empty without predicates; otherwise `WHERE ` (only if `include_where`), the predicates joined by `" AND "`, and one trailing space with no dangling `AND` |
| WhereClause.ClauseLayout | apiserver/db.py:194-201 | the returned clause: empty with no parameters when every value is falsy; otherwise the optional `WHERE `, the predicates in filter order joined by `" AND "`, and a space |
| WhereClause.ComparisonPlaceholder | apiserver/db.py:182-188 | a `table.col @>/>=/<= %s` predicate holds exactly one `%` when the names hold none |
| WhereClause.InListPlaceholders | apiserver/db.py:191 | an `IN (...)` predicate over n values holds exactly n `%` |
| WhereClause.FilterPlaceholders | apiserver/db.py:180-192 | every compiled predicate holds as many placeholders as it binds parameters |
| WhereClause.CompiledPlaceholders | apiserver/db.py:178-192 | over the whole loop, the `%` count of the predicates equals the number of bind parameters |
| WhereClause.PlaceholdersMatchParams | apiserver/db.py:167-201 | the returned clause holds exactly as many `%s` as the returned tuple has parameters (table name and keys free of `%`) |
| WhereClause.SingleFilter | apiserver/db.py:178-201 | one filter compiling to predicate p gives the clause `[WHERE ]p ` and p's parameters |
| WhereClause.TagsFilter | apiserver/db.py:181-183 | the key `tags` gives `{table}.tags @> %s` with the value as its one parameter; this rule comes before the suffix rules |
| WhereClause.FromFilter | apiserver/db.py:184-186 | a key ending in `_from` gives `{table}.{key minus 5 chars} >= %s` with one parameter |
| WhereClause.ToFilter | apiserver/db.py:187-189 | a key ending in `_to` gives `{table}.{key minus 3 chars} <= %s` with one parameter |
| WhereClause.InListFilter | apiserver/db.py:190-192 | any other key with a non-empty list gives `IN (%s, ..., %s)` with one `%s` per element, and binds the elements in order |
| WhereClause.ScalarInListRaises | apiserver/db.py:191 | a truthy number or boolean under an `IN` key makes the call raise TypeError |
| SchemaDdl.FieldCommas | apiserver/db.py:159-160 | `get_fields` over n comma-free names holds n - 1 commas |
| SchemaDdl.PlaceholdersMatchFields | apiserver/db.py:159-164 | `get_placeholders` holds one `%s` per field, as many commas as `get_fields`, and is empty exactly for zero fields |
| SchemaDdl.GetFields | apiserver/db.py:159-160 | no names give the empty list, one name gives itself, and with more the first name comes first followed by `", "` |
| SchemaDdl.GetPlaceholders | apiserver/db.py:163-164 | one `%` per name, and empty exactly for no names |
| SchemaDdl.StrictType | apiserver/db.py:211-220 | the module-level `get_type` succeeds exactly on the four keys of its dict, gives one of STRING, INT8, TIMESTAMPTZ and DATE, and otherwise raises KeyError |
| SchemaDdl.LooseType | apiserver/db.py:247-250 | `create_model`'s `get_type` passes a tag outside its dict through unchanged, and anything it changes becomes STRING or TIMESTAMPTZ |
| SchemaDdl.StrictTypeMap | apiserver/db.py:211-220 | the module-level `get_type` maps string, integer, datetime and date to STRING, INT8, TIMESTAMPTZ and DATE, and raises KeyError on anything else |
| SchemaDdl.LooseTypeMap | apiserver/db.py:247-250 | `create_model`'s `get_type` maps markdown and enum to STRING and timestamp to TIMESTAMPTZ, and passes every other tag through |
| SchemaDdl.TypeMapsDisagree | apiserver/db.py:211-250 | the editor-only tags, and decimal, are refused by the strict map although the lenient map accepts them |
| SchemaDdl.NoneReservedBefore | apiserver/db.py:260-264 | the gate has passed the first n fields exactly when none of their names is reserved |
| SchemaDdl.ColumnsOf | apiserver/db.py:253-273 | the `additions` dict holds at most one column per field, and at least one when there are fields |
| SchemaDdl.CreateTablePlan | apiserver/db.py:246-306 | a statement is built exactly when neither the lower-cased model name nor any lower-cased field name is in `RESERVED_WORDS` |
| SchemaDdl.CollectColumns | apiserver/db.py:253-273 | the first loop of `create_model` returns None exactly when some lower-cased field name is reserved; otherwise it returns the `additions` dict |
| SchemaDdl.RenderColumns | apiserver/db.py:275-278 | the second loop yields one `"{k} {v},\n"` line per column, in dict order |
| SchemaDdl.CreateTableStatement | apiserver/db.py:246-306 | the statement-building part of `create_model` equals the plan: None on a reserved name, else prefix, column lines and suffix |
| SchemaDdl.ReservedNamesRejected | apiserver/db.py:255-264 | no statement is built exactly when the lower-cased model name or some lower-cased field name is in `RESERVED_WORDS` |
| SchemaDdl.ReservedIgnoresCase | apiserver/db.py:255-261 | `Tags`, `ID` and `Select` are refused like their lower-case forms |
| SchemaDdl.ColumnsOfExtend | apiserver/db.py:273 | each field does `additions[name] = get_type(type)` |
| SchemaDdl.ColumnsOfDistinctKeys | apiserver/db.py:253-273 | `additions` holds no column twice |
| SchemaDdl.ColumnsOfKeys | apiserver/db.py:260-273 | the column names are exactly the field names |
| SchemaDdl.ColumnsOfLastWins | apiserver/db.py:273 | a repeated field name keeps the type of its last descriptor |
| SchemaDdl.ColumnsOfDistinct | apiserver/db.py:260-273 | with distinct names, `additions` is one `(name, type)` column per field, in field order |
| SchemaDdl.CreateTableLines | apiserver/db.py:246-306 | with distinct, non-reserved names the statement is the fixed prefix, one `name TYPE,` line per field in order, and the fixed suffix |
| SchemaDdl.ComputeDiff | apiserver/db.py:338-347 | the two diff loops equal `DiffOf`: removals, additions, or the KeyError or TypeError of `v["type"]` |
| SchemaDdl.Removals | apiserver/db.py:341-343 | at most one removal per old property, and no removed column is in the new schema |
| SchemaDdl.Additions | apiserver/db.py:345-347 | at most one addition per new property; the only exceptions are the KeyError and TypeError of `v["type"]` |
| SchemaDdl.DiffOf | apiserver/db.py:338-347 | the diff raises only KeyError or TypeError; it has at most one removal per old and one addition per new property, and no removal is a new key |
| SchemaDdl.AdditionsStopAtError | apiserver/db.py:345-347 | once a prefix of the new properties raises, the diff raises the same |
| SchemaDdl.RemovalsExact | apiserver/db.py:341-343 | a column is removed exactly when the old schema has it and the new one does not |
| SchemaDdl.RemovalsInOldOrder | apiserver/db.py:341-343 | removals are a subsequence of the old keys, in old order |
| SchemaDdl.AdditionsExact | apiserver/db.py:345-347 | added columns are exactly the new keys the old schema lacks |
| SchemaDdl.AdditionsStepErr | apiserver/db.py:345-347 | one more new property makes the diff raise exactly when it lacks a readable `type` |
| SchemaDdl.AdditionsFailOnMissingType | apiserver/db.py:345-347 | the diff raises exactly when some new property the old schema lacks has no readable `type` |
| SchemaDdl.AdditionLastWins | apiserver/db.py:345-347 | an added column carries the `type` of the last new property with its name |
| SchemaDdl.DiffDisjoint | apiserver/db.py:341-347 | a kept column is neither dropped nor added, and no column is both |
| SchemaDdl.ColumnTypeAccepts | apiserver/db.py:359-363 | an added type is accepted exactly when it is one of the four strings the strict map knows |
| SchemaDdl.ColumnType | apiserver/db.py:211-220 | an accepted `type` is a string mapped to one of the four column types; a list or dict raises TypeError and any other value KeyError |
| SchemaDdl.AddAll | apiserver/db.py:359-363 | the add loop issues at most one statement per column, all of them exactly when it does not raise, and raises only KeyError or TypeError |
| SchemaDdl.UpdatePlan | apiserver/db.py:341-363 | an update raises only KeyError or TypeError, issues nothing when the diff raises, and otherwise issues one statement per removal and per addition when it completes |
| SchemaDdl.DropAll | apiserver/db.py:350-357 | one `DROP COLUMN` statement per removal, in order |
| SchemaDdl.DropColumns | apiserver/db.py:350-357 | the drop loop issues exactly `DropAll` |
| SchemaDdl.AddColumns | apiserver/db.py:359-363 | the add loop issues exactly `AddAll`, stopping at the first rejected type |
| SchemaDdl.UpdateStatements | apiserver/db.py:341-363 | the statement part of `update_model` equals `UpdatePlan` |
| SchemaDdl.AddAllStopsAtError | apiserver/db.py:359-363 | once a prefix of the additions raises, the add loop raises the same |
| SchemaDdl.DropsComeFirst | apiserver/db.py:349-363 | every `DROP COLUMN` is issued, in order, before the first `ADD COLUMN`, even when an add later raises |
| SchemaDdl.AddAllStep | apiserver/db.py:359-363 | one more column: the loop still completes exactly when its type is mapped, and then issues one more statement |
| SchemaDdl.AddAllCompletes | apiserver/db.py:359-363 | the add loop raises exactly when some added type is unmapped; otherwise it issues one statement per column |
| SchemaDdl.AddAllStops | apiserver/db.py:359-363 | when the add loop raises, it has issued one statement per preceding mapped column, and the error is the first unmapped column's |
| SchemaDdl.UpdatePlanCompletes | apiserver/db.py:341-363 | for a diff that evaluates, every `DROP COLUMN` comes first in order, the update completes exactly when every added type is mapped, and then it issues one statement per removal and per addition |
| SchemaDdl.Attributes | apiserver/models.py:149-160 | a `Model` has exactly the attributes name and skema of `ModelUpdate` and the four audit fields of `AuditFields` |
| SchemaDdl.GetAttr | apiserver/db.py:341 | `obj.attr` gives the attribute's value exactly when the object has it, and otherwise raises AttributeError |
| SchemaDdl.FieldsProperties | apiserver/db.py:341 | `m.fields.properties` can only raise AttributeError |
| SchemaDdl.UpdateModelAsWritten | apiserver/db.py:332-363 | `update_model` as written issues statements only after both property reads succeed, and then issues what `UpdatePlan` does |
| SchemaDdl.UpdateModelAsWrittenRaises | apiserver/db.py:332-347 | as written, `update_model` raises AttributeError on `old_model.fields` and issues no statement, whatever the two models are |
| Shapes.TypeOr | apiserver/models.py:40 | Python's type union raises TypeError exactly when both sides are None; otherwise it is the union, or the type itself when both sides are equal |
| Shapes.FieldInfoDefault | apiserver/models.py:29-34 | a default is kept exactly when `meta["default"]` is present and truthy, so `0` and `""` are dropped |
| Shapes.ExtendModel | apiserver/models.py:49-61 | the `extend_model` loop with its recursion equals `ExtendSpec` |
| Shapes.FieldsUpTo | apiserver/models.py:51-60 | after n entries the field dict holds at most n fields |
| Shapes.ExtendSpec | apiserver/models.py:49-61 | the built model keeps the given name and bases and has at most one field per entry |
| Shapes.AddField | apiserver/models.py:51-60 | one turn of the loop adds the next entry, or raises |
| Shapes.FieldsStopAtError | apiserver/models.py:51-60 | once an entry raises, `extend_model` raises the same |
| Shapes.ExtendRaisesOnlyValueError | apiserver/models.py:59-60 | the only exception `extend_model` raises, at any depth, is ValueError |
| Shapes.FieldsRaiseOnlyValueError | apiserver/models.py:51-60 | the same, for every prefix of the loop |
| Shapes.ExtendKeys | apiserver/models.py:49-61 | the built model has exactly one field per entry key |
| Shapes.FieldKeys | apiserver/models.py:51-58 | after n entries, the field keys are the first n entry keys |
| Shapes.FieldsAppend | apiserver/models.py:51-58 | with distinct keys, each accepted entry appends its field at the end |
| Shapes.FieldsUpToInOrder | apiserver/models.py:51-58 | with distinct keys, a loop that does not raise accepts every entry and builds one field per entry, in entry order |
| Shapes.ExtendEntry | apiserver/models.py:52-58 | a tuple entry is copied unchanged; a dict entry becomes a required nested model named `{name}_{field}`; no other value gets through |
| Shapes.ExtendTuples | apiserver/models.py:49-61 | a dict of tuples with distinct keys becomes a model whose fields are exactly those tuples |
| Shapes.TuplesUpTo | apiserver/models.py:51-53 | the loop over such a dict rebuilds its prefixes unchanged |
| ApiModels.ScalarType | apiserver/models.py:20-27 | the type map is total: `integer`, `date`, `datetime` and `decimal` map to int, date, datetime and float, `null` to None, and every other tag to str |
| ApiModels.EntryOf | apiserver/models.py:37-44 | a descriptor's entry raises TypeError exactly for a nullable `null` field; otherwise its default is `get_fieldinfo`'s |
| ApiModels.NullableMeansOptional | apiserver/models.py:39-44 | a truthy `nullable` gives the union of `T` and None; otherwise the bare `T` |
| ApiModels.BuildModelTuple | apiserver/models.py:19-46 | the loop of `build_model_tuple` equals `ModelTuple` |
| ApiModels.ModelTuple | apiserver/models.py:19-46 | `build_model_tuple` gives at most one entry per descriptor |
| ApiModels.ModelTupleStopsAtError | apiserver/models.py:37-44 | once a prefix raises, the whole call raises the same |
| ApiModels.ModelTupleStepErr | apiserver/models.py:37-44 | one more descriptor makes the call raise exactly when it is selected and rejected |
| ApiModels.ModelTupleFailsAlong | apiserver/models.py:37-44 | the call succeeds exactly when every descriptor is accepted, stated along the loop |
| ApiModels.ModelTupleFails | apiserver/models.py:37-44 | the call succeeds exactly when no selected descriptor is a nullable `null` field |
| ApiModels.ModelTupleRaisesTypeError | apiserver/models.py:39-42 | the only exception is TypeError |
| ApiModels.SelectedNames | apiserver/models.py:38 | exactly the names of the selected descriptors |
| ApiModels.ModelTupleKeys | apiserver/models.py:36-46 | the entry keys are exactly the selected descriptors' names |
| ApiModels.ModelTupleDistinct | apiserver/models.py:36-46 | no key is entered twice |
| ApiModels.OverviewWithinDefault | apiserver/models.py:37-38 | when the default entries build, so do the overview ones, and their keys are a subset |
| ApiModels.DefaultKeepsEveryField | apiserver/models.py:37-38 | without the overview filter every descriptor gives an entry |
| ApiModels.ModelTupleEntry | apiserver/models.py:37-44 | a name's entry is that of its last selected descriptor |
| ApiModels.SynthesizeModels | apiserver/models.py:99-114 | the body of the schema loop equals `ModelSetOf` |
| ApiModels.ModelSetOf | apiserver/models.py:99-114 | the three models are named `{n}Update`, `{n}` and `{n}Overview`; the update model extends BaseFields, `{n}` has no fields of its own, and neither the update nor the overview model has more fields than there are descriptors |
| ApiModels.ModelSetShape | apiserver/models.py:99-114 | the loop body succeeds exactly when no descriptor is a nullable `null`. It builds `{n}Update` over BaseFields with the default entries, `{n}` over `{n}Update`, AuditFields and Attachments with no fields of its own, and `{n}Overview` over BaseFields and AuditFields; overview fields are a subset of update fields |
| CrmModels.CrmScalarType | worst_crm/models.py:21-22 | the type map is partial: only `string`, `integer` and `null` are accepted, giving str, int or None. Any other string or scalar raises KeyError, and a list or dict raises TypeError |
| CrmModels.AlternativeType | worst_crm/models.py:35-37 | one `anyOf` alternative's type is str, int or None; a missing alternative raises IndexError, and the only errors are IndexError, KeyError and TypeError |
| CrmModels.PropertyType | worst_crm/models.py:33-39 | a property's type is str, int, None or a union; without a truthy `anyOf`, a property without `type` raises KeyError; the only errors are IndexError, KeyError and TypeError |
| CrmModels.PropertyEntry | worst_crm/models.py:33-39 | a non-dict property raises AttributeError; otherwise its entry is its type and the `get_fieldinfo` default |
| CrmModels.Properties | worst_crm/models.py:32 | a missing `properties` gives no properties, and one that is not a dict raises |
| CrmModels.FieldsOf | worst_crm/models.py:32-39 | the loop gives at most one field per property and raises only IndexError, KeyError, TypeError or AttributeError |
| CrmModels.ModelTupleOf | worst_crm/models.py:20-41 | `build_model_tuple` raises only IndexError, KeyError, TypeError or AttributeError, and succeeds only on readable `properties`, with at most one field per property |
| CrmModels.BuildModelTuple | worst_crm/models.py:20-41 | the loop of `build_model_tuple` equals `ModelTupleOf` |
| CrmModels.FieldsOfStopsAtError | worst_crm/models.py:32-39 | once a prefix raises, the whole call raises the same |
| CrmModels.FieldsOfStepOk | worst_crm/models.py:32-39 | one more property keeps the loop going exactly when it is readable |
| CrmModels.FieldsOfFailsAlong | worst_crm/models.py:32-39 | the loop succeeds exactly when every property is readable, stated along the loop |
| CrmModels.FieldsOfFails | worst_crm/models.py:32-39 | the loop raises exactly when some property is unreadable |
| CrmModels.FieldsOfKeys | worst_crm/models.py:32-41 | each key of `properties` yields exactly one field |
| CrmModels.FieldsOfDistinct | worst_crm/models.py:31-41 | no field is entered twice |
| CrmModels.FieldsOfEntry | worst_crm/models.py:32-39 | a key's field is the entry of its last property |
| CrmModels.ModelTupleOfShape | worst_crm/models.py:31-41 | a schema without `properties`, or with an empty one, gives no fields; a non-dict schema or `properties` raises AttributeError |
| CrmModels.AnyOfFirstTwo | worst_crm/models.py:33-37 | with a truthy `anyOf`, the type is the union of the first two alternatives, further ones are ignored, and a single alternative raises IndexError |
| CrmModels.OptionalStringProperty | worst_crm/models.py:33-37 | `anyOf: [string, null]` gives the union of str and None, and `[null, null]` raises TypeError |
| CrmModels.SynthesizeModels | worst_crm/models.py:91-101 | the body of the schema loop equals `CrmModelSetOf` |
| CrmModels.CrmModelSetOf | worst_crm/models.py:91-101 | the two models are named `{n}Update` and `{n}`; the update model extends BaseFields with at most one field per property, and `{n}` has no fields of its own |
| CrmModels.CrmModelSetShape | worst_crm/models.py:91-101 | the loop body succeeds exactly when the properties build. `{n}Update` is over BaseFields with one field per property, and `{n}` is over `{n}Update` and AuditFields |
| WebUtils.IndexOf | webapp/src/utils/utils.ts:5 | `indexOf` is the first index holding the value, or -1 exactly when it is absent |
| WebUtils.NextElementInList | webapp/src/utils/utils.ts:4-8 | there is a result exactly for a non-empty array, and it is an element of it |
| WebUtils.WrapIndex | webapp/src/utils/utils.ts:6 | `(idx + 1) % length` is the next index, or 0 past the end |
| WebUtils.NextElementAfter | webapp/src/utils/utils.ts:4-8 | the element after the first occurrence, wrapping from the last index to 0 |
| WebUtils.NextElementAbsent | webapp/src/utils/utils.ts:4-8 | an absent value gives `arr[0]` |
| WebUtils.NextElementInjective | webapp/src/utils/utils.ts:4-8 | on a list without repeats, different elements have different successors |
| WebUtils.Utf16 | webapp/src/utils/utils.ts:37 | the code units `charCodeAt` reads: at least one per character, and none only for the empty string |
| WebUtils.ToInt32 | webapp/src/utils/utils.ts:39 | the 32-bit conversion gives a value in [-2^31, 2^31) congruent to its argument modulo 2^32 |
| WebUtils.HashFold | webapp/src/utils/utils.ts:36-41 | the fold `h = int32(31 * h + unit)` from 0 stays in [-2^31, 2^31) |
| WebUtils.ShiftSubtractStep | webapp/src/utils/utils.ts:38-39 | shifting by 5, subtracting, adding the unit and converting to 32 bits is `int32(31 * h + c)` |
| WebUtils.HashCode | webapp/src/utils/utils.ts:29-42 | the loop computes the fold over the string's UTF-16 units; the result is a 32-bit integer, and 0 for the empty string |
| WebUtils.JsRemNine | webapp/src/utils/utils.ts:46 | `crc % 9` lies in -8..8, equals the non-negative remainder for a non-negative hash, and is negative for a negative hash unless it is a multiple of 9 |
| WebUtils.GetLabel | webapp/src/utils/utils.ts:44-66 | a returned label is one of the nine class strings, and every string with a non-negative hash gets one |
| WebUtils.GetLabelDefined | webapp/src/utils/utils.ts:44-66 | a label is returned exactly when the hash is non-negative or a multiple of 9; it is then case `hash % 9` |
| WebUtils.StatusHasNoLabel | webapp/src/utils/utils.ts:44-66 | `hashCode("status")` is -892481550, so `getLabel("status")` is `undefined` |
| WebUtils.GetLabelTotal | webapp/src/utils/utils.ts:44-66 | the intended `getLabel` always returns one of the nine labels |
| WebUtils.GetLabelTotalAgrees | webapp/src/utils/utils.ts:44-66 | wherever the written `getLabel` gives a label the intended one gives the same; on "status" only the intended one does |
| WebUtils.UpperChar | webapp/src/utils/utils.ts:70 | `toUpperCase` maps an ASCII lower-case letter to the capital 32 code points below it and keeps everything else |
| WebUtils.DashRun | webapp/src/utils/utils.ts:70 | the leading run of `-` and `_` is maximal |
| WebUtils.CapitalizeFirst | webapp/src/utils/utils.ts:70 | the first replace never lengthens a string, empties only the empty string, and never leaves a lower-case ASCII letter in front |
| WebUtils.ReplaceRuns | webapp/src/utils/utils.ts:71 | the second replace empties only the empty string, copies a non-dash first character and keeps a dash (or `_`) in front of a leading run |
| WebUtils.TitleCase | webapp/src/utils/utils.ts:68-71 | `titleCase` empties only the empty string and never returns a lower-case ASCII letter in front |
| WebUtils.ReplaceRunsDashFree | webapp/src/utils/utils.ts:71 | a string without `-` and `_` passes the second replace unchanged |
| WebUtils.ReplaceRunsDashFreePrefix | webapp/src/utils/utils.ts:71 | a dash-free prefix is copied and the replace continues after it |
| WebUtils.ReplaceRunsShorter | webapp/src/utils/utils.ts:71 | the second replace never lengthens a string |
| WebUtils.ReplaceRunsFront | webapp/src/utils/utils.ts:71 | a non-dash first character, or a lone dash before the end or a line terminator, is copied |
| WebUtils.ReplaceRunsIdempotent | webapp/src/utils/utils.ts:71 | applying the second replace twice does what once does |
| WebUtils.CapitalizeFirstFixes | webapp/src/utils/utils.ts:70 | the first replace leaves alone a string starting with an upper-case or caseless character |
| WebUtils.TitleCaseIdempotent | webapp/src/utils/utils.ts:68-71 | `titleCase` is idempotent |
| WebUtils.ReplaceRunsNoLowerAfterDash | webapp/src/utils/utils.ts:71 | after the second replace no `-` or `_` is followed by a lower-case ASCII letter |
| WebUtils.TitleCaseNoLowerAfterDash | webapp/src/utils/utils.ts:68-71 | the result of `titleCase` starts with no lower-case ASCII letter and has none right after a `-` or `_` |
| WebUtils.CapitalizeSnakeName | webapp/src/utils/utils.ts:70 | the leading run is dropped and the next character is upper-cased: `_id-no` becomes `Id-no` |
| WebUtils.ReplaceInnerRun | webapp/src/utils/utils.ts:71 | a later run becomes `_` and the next character upper-cased: `-no` becomes `_No` |
| WebUtils.TitleCaseSnakeName | webapp/src/utils/utils.ts:68-71 | `titleCase("_id-no")` is `Id_No` |
| WebUtils.TitleCaseTrailingRun | webapp/src/utils/utils.ts:68-71 | a trailing double dash keeps its last dash behind the `_`: `titleCase("a__")` is `A__` |

## Left out

- Database I/O is not modelled:
  - `execute_stmt`, `execute_sql`, the connection pools and `log_event`;
  - `get_watch`, `update_watch` and `load_schema`;
  - the execution of the generated DDL and DML, and the `INSERT`/`UPDATE internal.models` statements around them.
  The model stops at the statement text and the list of statements that
  would be issued. The `print` calls on a reserved name are also left out.
- The module-level reads that fill `skemas` in both model loaders are I/O.
  The loop over schemas is modelled one schema at a time (`SynthesizeModels`).
- Pydantic internals are not modelled:
  - `create_model` is a record of name, bases and fields, without validation
    behaviour;
  - `FieldInfo._collect_metadata` and field metadata are dropped, and only
    the default is kept.
- `AuditFields`, `BaseFields` and `Attachments` are bases named by string;
  their own fields are not modelled.
- `update_model` reads `old_model.fields.properties`, which the `Model`
  class of `apiserver/models.py` does not have; its schema sits in
  `skema.fields`. That read is modelled as written
  (`SchemaDdl.UpdateModelAsWritten`). The intended diff takes the two
  property dicts as inputs, because the code names no attribute that holds
  them.
- Field descriptors are modelled as records. A descriptor missing `name`,
  `type`, `nullable`, `in_overview` or `args` (a KeyError in the source), or
  holding a non-string name or type, is not modelled.
- `str.lower()` and `toUpperCase()` are modelled for ASCII letters only.
  Other characters are left unchanged.
- Only the regular-expression behaviour `titleCase` needs is modelled.
  Line terminators stop `.`, and the greedy runs backtrack. There is no
  general regular-expression engine.
- WebUtils.HashCode: `hashCode` of a falsy non-string argument (`null`,
  `undefined`) is not modelled, because the model's parameter is a string.
- `formatDecimal`, `formatDate` and `axiosWrapper` of `utils.ts` are left
  out. They are locale formatting, `Date` parsing and network calls.
- The parent chain, child and attachment queries of `apiserver/db.py` are
  left out, because their meaning lives in SQL run by the database. So are
  authentication and storage (`apiserver/dependencies.py`), the HTTP
  routing and the `watch_it` polling thread.
- WebUtils.IndexOf: compares with value equality. JavaScript's `===`
  compares objects and arrays by identity, and never finds `NaN`, so
  `indexOf` on such values is not modelled.
- WebUtils.NextElementInList: inherits that equality, so the model does not
  capture that `nextElementInList([NaN, 1], NaN)` gives `arr[0]`, nor
  identity comparison of objects.
- JSON objects with a repeated key are not modelled faithfully. `json.loads`
  keeps the last value of a repeated key, so a decoded dict never repeats a
  key; `Get` on a `Dict` holding one takes the first occurrence. Lemmas
  such as `SchemaDdl.AdditionLastWins` and `CrmModels.FieldsOfEntry` also
  cover such dicts; for decoded dicts, which never repeat a key, they state
  the property's own entry.
- JSON numbers are modelled as reals. Large-integer and floating-point
  detail is not modelled.

## Findings

| source | as written | input that shows it | evidently intended | confidence | as-written member | corrected member |
|---|---|---|---|---|---|---|
| apiserver/db.py:341-347 | the diff reads `old_model.fields.properties` and `model.fields.properties`, but a `Model` (`apiserver/models.py:149-160`, with `AuditFields` at 74-78) has no attribute `fields`, so every call raises AttributeError before any `DROP` or `ADD` | any call, e.g. a stored model and a new model with the same `skema` | the old and new property dicts are diffed, all drops are issued, then one `ADD COLUMN` per new property | not executed | SchemaDdl.UpdateModelAsWrittenRaises | SchemaDdl.UpdatePlanCompletes |
| webapp/src/utils/utils.ts:44-66 | `switch (crc % 9)` matches only cases 0..8, but JavaScript's `%` keeps the sign of a negative hash, so `getLabel` returns `undefined` for about 8 in 9 strings whose hash is negative | `getLabel("status")`: the hash is -892481550 and -892481550 % 9 is -6 | every string gets one of the nine labels, with the remainder taken non-negative | not executed | WebUtils.StatusHasNoLabel | WebUtils.GetLabelTotalAgrees |
