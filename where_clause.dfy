/** The filter compiler of apiserver/db.py (`__get_where_clause`): a list of
    (key, value) filters becomes a predicate string and the positional bind
    parameters its `%s` placeholders stand for. */
module WhereClause {
  import opened PyCore
  import opened SqlText

  /** What `len(v)` counts and `bind_params += v` appends for a truthy value:
      a list gives its items, a string its one-character strings, a dict its
      keys; `len` of a number or a boolean raises TypeError. */
  function Elements(v: Json): (r: Result<seq<Json>>)
    ensures v.JArr? ==> r == Ok(v.items)
    ensures v.JStr? ==> r.Ok? && |r.value| == |v.s|
    ensures v.JStr? ==> forall i :: 0 <= i < |v.s| ==> r.value[i] == JStr([v.s[i]])
    ensures v.JObj? ==> r.Ok? && |r.value| == |v.entries|
    ensures v.JObj? ==> forall i :: 0 <= i < |v.entries| ==> r.value[i] == JStr(v.entries[i].0)
    ensures (v.JNum? || v.JBool? || v.JNull?) ==> r == Err(TypeError)
  {
    match v
    case JArr(xs) => Ok(xs)
    case JStr(s) => Ok(seq(|s|, i requires 0 <= i < |s| => JStr([s[i]])))
    case JObj(es) => Ok(seq(|es|, i requires 0 <= i < |es| => JStr(es[i].0)))
    case _ => Err(TypeError)
  }

  /** `k[-n:] == suffix` for a suffix of length n. */
  predicate EndsWith(k: string, suffix: string)
  {
    |suffix| <= |k| && k[|k| - |suffix|..] == suffix
  }

  /** One predicate and the parameters bound to its placeholders. */
  datatype Predicate = Predicate(text: string, params: seq<Json>)

  /** One turn of the filter loop: `Ok(None)` when the value is falsy and the
      filter is skipped. */
  function CompileFilter(table: string, k: string, v: Json): (r: Result<Option<Predicate>>)
    ensures r == Ok(None) <==> !Truthy(v)
    ensures r.Err? <==> Truthy(v) && (v.JNum? || v.JBool?)
                        && k != "tags" && !EndsWith(k, "_from") && !EndsWith(k, "_to")
    ensures r.Err? ==> r.error == TypeError
    ensures r.Ok? && r.value.Some? ==> table + "." <= r.value.value.text
    ensures r.Ok? && r.value.Some? && (k == "tags" || EndsWith(k, "_from") || EndsWith(k, "_to")) ==>
              r.value.value.params == [v]
  {
    if !Truthy(v) then Ok(None)
    else if k == "tags" then Ok(Some(Predicate(table + "." + k + " @> %s", [v])))
    else if EndsWith(k, "_from") then Ok(Some(Predicate(table + "." + k[..|k| - 5] + " >= %s", [v])))
    else if EndsWith(k, "_to") then Ok(Some(Predicate(table + "." + k[..|k| - 3] + " <= %s", [v])))
    else
      match Elements(v)
      case Err(e) => Err(e)
      case Ok(xs) => Ok(Some(Predicate(table + "." + k + " IN (" + Placeholders(|xs|) + ")", xs)))
  }

  /** The `where` and `bind_params` lists. */
  datatype Compiled = Compiled(preds: seq<string>, params: seq<Json>)

  /** One turn of the loop applied to the lists built so far. */
  function Step(acc: Result<Compiled>, table: string, f: (string, Json)): Result<Compiled>
  {
    match acc
    case Err(e) => Err(e)
    case Ok(c) =>
      match CompileFilter(table, f.0, f.1)
      case Err(e) => Err(e)
      case Ok(None) => Ok(c)
      case Ok(Some(p)) => Ok(Compiled(c.preds + [p.text], c.params + p.params))
  }

  /** The two lists once the loop has run over all of `filters`. */
  function CompileAll(filters: seq<(string, Json)>, table: string): (r: Result<Compiled>)
    ensures r.Err? ==> r.error == TypeError
    ensures r.Ok? ==> |r.value.preds| <= |filters|
    ensures r.Ok? ==> forall i :: 0 <= i < |r.value.preds| ==> table + "." <= r.value.preds[i]
  {
    if filters == [] then Ok(Compiled([], []))
    else Step(CompileAll(filters[..|filters| - 1], table), table, filters[|filters| - 1])
  }

  /** Every predicate followed by `" AND "`, in order. */
  function AndTerminated(preds: seq<string>): string
  {
    if preds == [] then "" else AndTerminated(preds[..|preds| - 1]) + preds[|preds| - 1] + " AND "
  }

  /** `where_clause` before its final `[:-4]`. */
  function Untrimmed(preds: seq<string>, includeWhere: bool): string
  {
    (if preds != [] && includeWhere then "WHERE " else "") + AndTerminated(preds)
  }

  /** What `__get_where_clause(filters, table, include_where)` returns, or the
      exception it raises. */
  function WhereClauseOf(filters: seq<(string, Json)>, table: string, includeWhere: bool): (r: Result<(string, seq<Json>)>)
    ensures filters == [] ==> r == Ok(("", []))
    ensures r.Err? <==> CompileAll(filters, table).Err?
    ensures r.Err? ==> r.error == TypeError
  {
    if filters == [] then Ok(("", []))
    else
      match CompileAll(filters, table)
      case Err(e) => Err(e)
      case Ok(c) => Ok((DropLast(Untrimmed(c.preds, includeWhere), 4), c.params))
  }

  /** Once a prefix of the filters raises, the whole call raises the same. */
  lemma {:induction false} CompileAllStopsAtError(filters: seq<(string, Json)>, table: string, n: nat)
    requires n <= |filters|
    requires CompileAll(filters[..n], table).Err?
    ensures CompileAll(filters, table) == CompileAll(filters[..n], table)
    decreases |filters| - n
  {
    if n == |filters| {
      assert filters[..n] == filters;
    } else {
      var init := filters[..|filters| - 1];
      assert init[..n] == filters[..n];
      CompileAllStopsAtError(init, table, n);
    }
  }

  /** Running the loop one filter further is one more Step. */
  lemma CompileAllExtend(filters: seq<(string, Json)>, table: string, i: nat)
    requires i < |filters|
    ensures CompileAll(filters[..i + 1], table) == Step(CompileAll(filters[..i], table), table, filters[i])
  {
    assert filters[..i + 1][..i] == filters[..i];
  }

  /** The filter loop of `__get_where_clause`: fills `where` and
      `bind_params`, skipping falsy values. */
  method CompileFilters(filters: seq<(string, Json)>, table: string) returns (r: Result<Compiled>)
    ensures r == CompileAll(filters, table)
  {
    var preds: seq<string> := [];
    var params: seq<Json> := [];
    var i := 0;
    while i < |filters|
      invariant 0 <= i <= |filters|
      invariant CompileAll(filters[..i], table) == Ok(Compiled(preds, params))
    {
      var (k, v) := filters[i];
      CompileAllExtend(filters, table, i);
      if Truthy(v) {
        var text: string;
        var bound: seq<Json>;
        if k == "tags" {
          text, bound := table + "." + k + " @> %s", [v];
        } else if |k| >= 5 && k[|k| - 5..] == "_from" {
          text, bound := table + "." + k[..|k| - 5] + " >= %s", [v];
        } else if |k| >= 3 && k[|k| - 3..] == "_to" {
          text, bound := table + "." + k[..|k| - 3] + " <= %s", [v];
        } else {
          var elements := Elements(v);
          if elements.Err? {
            assert CompileFilter(table, k, v) == Err(elements.error);
            CompileAllStopsAtError(filters, table, i + 1);
            return Err(elements.error);
          }
          text, bound := table + "." + k + " IN (" + Placeholders(|elements.value|) + ")", elements.value;
        }
        assert CompileFilter(table, k, v) == Ok(Some(Predicate(text, bound)));
        preds := preds + [text];
        params := params + bound;
      }
      i := i + 1;
    }
    assert filters[..i] == filters;
    r := Ok(Compiled(preds, params));
  }

  /** The assembly loop of `__get_where_clause`: `head`, then each predicate
      followed by `" AND "`. */
  method AppendPredicates(head: string, preds: seq<string>) returns (clause: string)
    ensures clause == head + AndTerminated(preds)
  {
    clause := head;
    var j := 0;
    while j < |preds|
      invariant 0 <= j <= |preds|
      invariant clause == head + AndTerminated(preds[..j])
    {
      assert preds[..j + 1][..j] == preds[..j];
      clause := clause + preds[j] + " AND ";
      j := j + 1;
    }
    assert preds[..j] == preds;
  }

  /** `__get_where_clause` as written: the early return, the two loops, the trim. */
  method GetWhereClause(filters: seq<(string, Json)>, table: string, includeWhere: bool)
    returns (r: Result<(string, seq<Json>)>)
    ensures r == WhereClauseOf(filters, table, includeWhere)
  {
    if |filters| == 0 {
      return Ok(("", []));
    }
    var compiled := CompileFilters(filters, table);
    if compiled.Err? {
      return Err(compiled.error);
    }
    var preds := compiled.value.preds;
    var head := if |preds| > 0 && includeWhere then "WHERE " else "";
    var clause := AppendPredicates(head, preds);
    r := Ok((DropLast(clause, 4), compiled.value.params));
  }

  // ---------------------------------------------------------------------
  // Properties of the compiled clause

  /** A filter list none of whose values is truthy compiles to no predicate. */
  lemma {:induction false} FalsyFiltersCompileToNothing(filters: seq<(string, Json)>, table: string)
    requires forall i :: 0 <= i < |filters| ==> !Truthy(filters[i].1)
    ensures CompileAll(filters, table) == Ok(Compiled([], []))
  {
    if filters != [] {
      FalsyFiltersCompileToNothing(filters[..|filters| - 1], table);
    }
  }

  /** Predicates appear exactly when some filter value is truthy. */
  lemma {:induction false} PredicatesComeFromTruthyValues(filters: seq<(string, Json)>, table: string)
    requires CompileAll(filters, table).Ok?
    ensures CompileAll(filters, table).value.preds == [] <==> forall i :: 0 <= i < |filters| ==> !Truthy(filters[i].1)
  {
    if filters != [] {
      var init := filters[..|filters| - 1];
      PredicatesComeFromTruthyValues(init, table);
      assert forall i :: 0 <= i < |init| ==> init[i] == filters[i];
    }
  }

  /** An empty filter list, or one whose values are all falsy, yields `("", ())`. */
  lemma FalsyFiltersGiveEmptyClause(filters: seq<(string, Json)>, table: string, includeWhere: bool)
    requires forall i :: 0 <= i < |filters| ==> !Truthy(filters[i].1)
    ensures WhereClauseOf(filters, table, includeWhere) == Ok(("", []))
  {
    FalsyFiltersCompileToNothing(filters, table);
  }

  /** The predicates joined by `" AND "`, each followed by the separator. */
  lemma {:induction false} AndTerminatedIsJoin(preds: seq<string>)
    requires preds != []
    ensures AndTerminated(preds) == Join(preds, " AND ") + " AND "
  {
    if |preds| > 1 {
      var init := preds[..|preds| - 1];
      AndTerminatedIsJoin(init);
      JoinSnoc(init, preds[|preds| - 1], " AND ");
      assert init + [preds[|preds| - 1]] == preds;
    }
  }

  /** The trimmed clause: empty without predicates; otherwise the optional
      `"WHERE "`, the predicates in order joined by `" AND "`, and one trailing
      space where the last `" AND "` was cut. */
  lemma TrimmedLayout(preds: seq<string>, includeWhere: bool)
    ensures preds == [] ==> DropLast(Untrimmed(preds, includeWhere), 4) == ""
    ensures preds != [] ==>
      DropLast(Untrimmed(preds, includeWhere), 4)
        == (if includeWhere then "WHERE " else "") + Join(preds, " AND ") + " "
  {
    if preds != [] {
      AndTerminatedIsJoin(preds);
      var head := if includeWhere then "WHERE " else "";
      var body := head + Join(preds, " AND ") + " ";
      assert Untrimmed(preds, includeWhere) == body + "AND ";
    }
  }

  /** The shape of a successful result: no clause and no parameters when every
      value is falsy; otherwise `"WHERE "` exactly when asked for, then the
      predicates in filter order joined by `" AND "`, then a space. */
  lemma ClauseLayout(filters: seq<(string, Json)>, table: string, includeWhere: bool)
    requires filters != [] && CompileAll(filters, table).Ok?
    ensures var c := CompileAll(filters, table).value;
      var clause := WhereClauseOf(filters, table, includeWhere).value.0;
      && ((forall i :: 0 <= i < |filters| ==> !Truthy(filters[i].1)) ==> clause == "" && c.params == [])
      && ((exists i :: 0 <= i < |filters| && Truthy(filters[i].1)) ==>
            clause == (if includeWhere then "WHERE " else "") + Join(c.preds, " AND ") + " ")
  {
    var c := CompileAll(filters, table).value;
    PredicatesComeFromTruthyValues(filters, table);
    TrimmedLayout(c.preds, includeWhere);
    if forall i :: 0 <= i < |filters| ==> !Truthy(filters[i].1) {
      FalsyFiltersCompileToNothing(filters, table);
    }
  }

  // ---------------------------------------------------------------------
  // Placeholders and bind parameters

  /** No `%` in the table name or in any filter key: the only `%` in the
      clause are then those of `%s` placeholders. */
  predicate PercentFree(filters: seq<(string, Json)>, table: string)
  {
    CountChar(table, '%') == 0 && forall i :: 0 <= i < |filters| ==> CountChar(filters[i].0, '%') == 0
  }

  /** A comparison predicate `table.col OP %s` holds one placeholder. */
  lemma ComparisonPlaceholder(table: string, col: string, op: string)
    requires CountChar(table, '%') == 0 && CountChar(col, '%') == 0
    requires op == " @> %s" || op == " >= %s" || op == " <= %s"
    ensures CountChar(table + "." + col + op, '%') == 1
  {
    if op == " @> %s" {
      ContainsOperatorPercent();
    } else if op == " >= %s" {
      AtLeastOperatorPercent();
    } else {
      AtMostOperatorPercent();
    }
    CountCharAppend(table + "." + col, op, '%');
    CountCharAppend(table + ".", col, '%');
    CountCharAppend(table, ".", '%');
  }

  /** An `IN` predicate holds one placeholder per element. */
  lemma InListPlaceholders(table: string, k: string, n: nat)
    requires CountChar(table, '%') == 0 && CountChar(k, '%') == 0
    ensures CountChar(table + "." + k + " IN (" + Placeholders(n) + ")", '%') == n
  {
    PlaceholderCounts(n);
    InOpenerNoPercent();
    var list := Placeholders(n);
    CountCharAppend(table + "." + k + " IN (" + list, ")", '%');
    CountCharAppend(table + "." + k + " IN (", list, '%');
    CountCharAppend(table + "." + k, " IN (", '%');
    CountCharAppend(table + ".", k, '%');
    CountCharAppend(table, ".", '%');
  }

  /** Cutting a suffix off a key leaves no `%` where there was none. */
  lemma PrefixPercentFree(k: string, n: nat)
    requires n <= |k| && CountChar(k, '%') == 0
    ensures CountChar(k[..n], '%') == 0
  {
    assert k == k[..n] + k[n..];
    CountCharAppend(k[..n], k[n..], '%');
  }

  /** One predicate holds as many placeholders as it binds parameters. */
  lemma FilterPlaceholders(table: string, k: string, v: Json)
    requires CountChar(table, '%') == 0 && CountChar(k, '%') == 0
    requires CompileFilter(table, k, v).Ok? && CompileFilter(table, k, v).value.Some?
    ensures var p := CompileFilter(table, k, v).value.value;
      CountChar(p.text, '%') == |p.params|
  {
    var p := CompileFilter(table, k, v).value.value;
    if k == "tags" {
      assert p.text == table + "." + k + " @> %s" && |p.params| == 1;
      ComparisonPlaceholder(table, k, " @> %s");
    } else if EndsWith(k, "_from") {
      var col := k[..|k| - 5];
      assert p.text == table + "." + col + " >= %s" && |p.params| == 1;
      PrefixPercentFree(k, |k| - 5);
      ComparisonPlaceholder(table, col, " >= %s");
    } else if EndsWith(k, "_to") {
      var col := k[..|k| - 3];
      assert p.text == table + "." + col + " <= %s" && |p.params| == 1;
      PrefixPercentFree(k, |k| - 3);
      ComparisonPlaceholder(table, col, " <= %s");
    } else {
      var xs := Elements(v).value;
      assert p.text == table + "." + k + " IN (" + Placeholders(|xs|) + ")" && p.params == xs;
      InListPlaceholders(table, k, |xs|);
    }
  }

  /** One turn of the filter loop keeps placeholders and parameters in step. */
  lemma StepPlaceholders(c: Compiled, table: string, f: (string, Json))
    requires CountChar(table, '%') == 0 && CountChar(f.0, '%') == 0
    requires CountChar(AndTerminated(c.preds), '%') == |c.params|
    requires Step(Ok(c), table, f).Ok?
    ensures var c' := Step(Ok(c), table, f).value;
      CountChar(AndTerminated(c'.preds), '%') == |c'.params|
  {
    var p := CompileFilter(table, f.0, f.1).value;
    if p.Some? {
      FilterPlaceholders(table, f.0, f.1);
      AndTerminatedCount(c.preds, p.value.text);
    }
  }

  /** Dropping the last filter keeps the keys free of `%`. */
  lemma PercentFreeInit(filters: seq<(string, Json)>, table: string)
    requires filters != [] && PercentFree(filters, table)
    ensures PercentFree(filters[..|filters| - 1], table)
    ensures CountChar(filters[|filters| - 1].0, '%') == 0
  {
    var init := filters[..|filters| - 1];
    assert forall i :: 0 <= i < |init| ==> init[i] == filters[i];
  }

  /** The predicates of the loop hold as many placeholders as it binds parameters. */
  lemma {:induction false} CompiledPlaceholders(filters: seq<(string, Json)>, table: string)
    requires PercentFree(filters, table)
    requires CompileAll(filters, table).Ok?
    ensures var c := CompileAll(filters, table).value;
      CountChar(AndTerminated(c.preds), '%') == |c.params|
  {
    if filters != [] {
      var init := filters[..|filters| - 1];
      PercentFreeInit(filters, table);
      CompiledPlaceholders(init, table);
      StepPlaceholders(CompileAll(init, table).value, table, filters[|filters| - 1]);
    }
  }

  /** Appending a predicate adds its own `%` markers and none from `" AND "`. */
  lemma AndTerminatedCount(preds: seq<string>, t: string)
    ensures CountChar(AndTerminated(preds + [t]), '%') == CountChar(AndTerminated(preds), '%') + CountChar(t, '%')
  {
    var all := preds + [t];
    assert all[..|all| - 1] == preds;
    AndNoPercent();
    CountCharAppend(AndTerminated(preds) + t, " AND ", '%');
    CountCharAppend(AndTerminated(preds), t, '%');
  }

  /** Cutting the last `"AND "` leaves the trailing space. */
  lemma DropTrailingAnd(front: string)
    ensures DropLast(front + " AND ", 4) == front + " "
  {
    assert front + " AND " == (front + " ") + "AND ";
  }

  /** `Untrimmed` split before its last `" AND "`. */
  lemma UntrimmedSplit(preds: seq<string>, includeWhere: bool)
    requires preds != []
    ensures var body := AndTerminated(preds[..|preds| - 1]) + preds[|preds| - 1];
      && AndTerminated(preds) == body + " AND "
      && Untrimmed(preds, includeWhere) == ((if includeWhere then "WHERE " else "") + body) + " AND "
  {
  }

  /** The keyword and the final trim add and remove no `%`. */
  lemma TrimmedCount(preds: seq<string>, includeWhere: bool)
    ensures CountChar(DropLast(Untrimmed(preds, includeWhere), 4), '%') == CountChar(AndTerminated(preds), '%')
  {
    if preds != [] {
      var head := if includeWhere then "WHERE " else "";
      var body := AndTerminated(preds[..|preds| - 1]) + preds[|preds| - 1];
      UntrimmedSplit(preds, includeWhere);
      DropTrailingAnd(head + body);
      CountCharAppend(head + body, " ", '%');
      CountCharAppend(head, body, '%');
      CountCharAppend(body, " AND ", '%');
      AndNoPercent();
      WhereNoPercent();
    }
  }

  /** The returned clause holds exactly as many `%s` placeholders as the
      returned tuple holds bind parameters. */
  lemma PlaceholdersMatchParams(filters: seq<(string, Json)>, table: string, includeWhere: bool)
    requires PercentFree(filters, table)
    requires WhereClauseOf(filters, table, includeWhere).Ok?
    ensures CountChar(WhereClauseOf(filters, table, includeWhere).value.0, '%')
         == |WhereClauseOf(filters, table, includeWhere).value.1|
  {
    if filters != [] {
      var c := CompileAll(filters, table).value;
      CompiledPlaceholders(filters, table);
      TrimmedCount(c.preds, includeWhere);
    }
  }

  // ---------------------------------------------------------------------
  // The three kinds of predicate, one filter at a time

  /** A single filter that compiles to predicate `p` gives the clause `p`
      followed by a space, with `p`'s parameters. */
  lemma SingleFilter(table: string, k: string, v: Json, includeWhere: bool, p: Predicate)
    requires CompileFilter(table, k, v) == Ok(Some(p))
    ensures WhereClauseOf([(k, v)], table, includeWhere)
      == Ok(((if includeWhere then "WHERE " else "") + p.text + " ", p.params))
  {
    assert [(k, v)][..0] == [];
    assert [] + [p.text] == [p.text] && [] + p.params == p.params;
    assert CompileAll([(k, v)], table) == Ok(Compiled([p.text], p.params));
    TrimmedLayout([p.text], includeWhere);
  }

  /** The key `tags` becomes a containment test with one parameter. */
  lemma TagsFilter(table: string, v: Json, includeWhere: bool)
    requires Truthy(v)
    ensures WhereClauseOf([("tags", v)], table, includeWhere)
      == Ok(((if includeWhere then "WHERE " else "") + (table + "." + "tags" + " @> %s") + " ", [v]))
  {
    SingleFilter(table, "tags", v, includeWhere, Predicate(table + "." + "tags" + " @> %s", [v]));
  }

  /** A key ending in `_from` becomes an inclusive lower bound on the column
      named by the rest of the key, with one parameter. */
  lemma FromFilter(table: string, k: string, v: Json, includeWhere: bool)
    requires Truthy(v) && EndsWith(k, "_from")
    ensures WhereClauseOf([(k, v)], table, includeWhere)
      == Ok(((if includeWhere then "WHERE " else "") + (table + "." + k[..|k| - 5] + " >= %s") + " ", [v]))
  {
    assert |k| >= 5;
    assert k != "tags";
    SingleFilter(table, k, v, includeWhere, Predicate(table + "." + k[..|k| - 5] + " >= %s", [v]));
  }

  /** A key ending in `_to` (and so not in `_from`) becomes an inclusive upper
      bound, with one parameter. */
  lemma ToFilter(table: string, k: string, v: Json, includeWhere: bool)
    requires Truthy(v) && EndsWith(k, "_to")
    ensures WhereClauseOf([(k, v)], table, includeWhere)
      == Ok(((if includeWhere then "WHERE " else "") + (table + "." + k[..|k| - 3] + " <= %s") + " ", [v]))
  {
    assert k[|k| - 1] == k[|k| - 3..][2] == 'o';
    assert k != "tags" by {
      assert |k| != 4 || k[3] != "tags"[3];
    }
    assert !EndsWith(k, "_from") by {
      assert |k| < 5 || k[|k| - 5..][4] != "_from"[4];
    }
    SingleFilter(table, k, v, includeWhere, Predicate(table + "." + k[..|k| - 3] + " <= %s", [v]));
  }

  /** Any other key with a non-empty list becomes an `IN` test with one `%s`
      per element, binding the elements in order. */
  lemma InListFilter(table: string, k: string, xs: seq<Json>, includeWhere: bool)
    requires xs != []
    requires k != "tags" && !EndsWith(k, "_from") && !EndsWith(k, "_to")
    ensures WhereClauseOf([(k, JArr(xs))], table, includeWhere)
      == Ok(((if includeWhere then "WHERE " else "")
             + (table + "." + k + " IN (" + Join(seq(|xs|, _ => "%s"), ", ") + ")") + " ", xs))
  {
    PlaceholdersAreJoined(|xs|);
    SingleFilter(table, k, JArr(xs), includeWhere, Predicate(table + "." + k + " IN (" + Placeholders(|xs|) + ")", xs));
  }

  /** A truthy number or boolean under any other key makes `len(v)` raise. */
  lemma ScalarInListRaises(filters: seq<(string, Json)>, table: string, includeWhere: bool, n: nat)
    requires n < |filters|
    requires var (k, v) := filters[n];
      Truthy(v) && (v.JNum? || v.JBool?) && k != "tags" && !EndsWith(k, "_from") && !EndsWith(k, "_to")
    requires CompileAll(filters[..n], table).Ok?
    ensures WhereClauseOf(filters, table, includeWhere) == Err(TypeError)
  {
    assert filters[..n + 1][..n] == filters[..n];
    CompileAllStopsAtError(filters, table, n + 1);
  }
}
