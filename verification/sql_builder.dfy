/** The SQLite adapter's query builder (`TableQueryBuilder` of the SQLite
    client): chained `select`/`eq`/`insert`/`update`/`delete` calls fill a
    builder, and `execute` turns it into SQL text with positional `?`
    parameters. The cursor is an abstract sink: the model produces the
    statements `execute` would send and post-processes the rows it would
    get back. */
module SqlBuilder {
  import opened Text
  import opened Results
  import opened Rows

  /** The builder's state. An empty `insertData` or `updateData` stands for
      both `None` and `{}`, which `execute` treats alike. */
  datatype Query = Query(table: string, fields: string,
                         whereClauses: seq<string>, whereValues: seq<Value>,
                         insertData: Record, updateData: Record, deleteFlag: bool)

  /** One SQL statement with its positional parameters. */
  datatype Statement = Statement(sql: string, params: seq<Value>)

  /** What `execute` sends, by branch: INSERT and UPDATE are followed by a
      SELECT that fetches the affected rows. */
  datatype Plan =
    | InsertPlan(write: Statement, fetch: Statement)
    | UpdatePlan(write: Statement, fetch: Statement)
    | DeletePlan(write: Statement)
    | SelectPlan(fetch: Statement)

  // ---------------------------------------------------------------------
  // Records

  /** Every dict value replaced by its JSON text, keys and order kept. */
  function EncodeDicts(r: Record, dumps: seq<(string, Value)> -> string): (e: Record)
    ensures |e| == |r|
    ensures forall i :: 0 <= i < |r| ==> e[i].0 == r[i].0
    ensures forall i :: 0 <= i < |r| ==> e[i].1 == if r[i].1.Dict? then Str(dumps(r[i].1.entries)) else r[i].1
  {
    if |r| == 0 then []
    else
      var v := r[0].1;
      [(r[0].0, if v.Dict? then Str(dumps(v.entries)) else v)] + EncodeDicts(r[1..], dumps)
  }

  // ---------------------------------------------------------------------
  // Building

  function NewQuery(table: string): Query {
    Query(table, "*", [], [], [], [], false)
  }

  function Select(q: Query, fields: string): Query {
    q.(fields := fields)
  }

  /** `eq(field, value)`: a clause and its value are appended together. */
  function Eq(q: Query, field: string, value: Value): Query {
    q.(whereClauses := q.whereClauses + [field + " = ?"], whereValues := q.whereValues + [value])
  }

  function Insert(q: Query, data: Record): Query {
    q.(insertData := data)
  }

  function Update(q: Query, data: Record): Query {
    q.(updateData := data)
  }

  function Delete(q: Query): Query {
    q.(deleteFlag := true)
  }

  /** A chained call on the builder. */
  datatype Call = SelectCall(fields: string) | EqCall(field: string, value: Value)
                | InsertCall(data: Record) | UpdateCall(data: Record) | DeleteCall

  function Apply(q: Query, c: Call): Query {
    match c
    case SelectCall(f) => Select(q, f)
    case EqCall(f, v) => Eq(q, f, v)
    case InsertCall(d) => Insert(q, d)
    case UpdateCall(d) => Update(q, d)
    case DeleteCall => Delete(q)
  }

  /** `db.table(name).call1(...).call2(...)...`. */
  function Build(table: string, calls: seq<Call>): Query
    decreases |calls|
  {
    if |calls| == 0 then NewQuery(table)
    else Apply(Build(table, calls[..|calls| - 1]), calls[|calls| - 1])
  }

  /** The `eq` calls of a chain, in order. */
  function EqCalls(calls: seq<Call>): (r: seq<(string, Value)>)
    ensures |r| <= |calls|
  {
    if |calls| == 0 then []
    else
      var last := calls[|calls| - 1];
      EqCalls(calls[..|calls| - 1]) + (if last.EqCall? then [(last.field, last.value)] else [])
  }

  // ---------------------------------------------------------------------
  // Statements

  /** `', '.join(['?'] * n)`'s pieces. */
  function Marks(n: nat): (r: seq<string>)
    ensures |r| == n && forall i :: 0 <= i < n ==> r[i] == "?"
  {
    seq(n, i => "?")
  }

  function SetClauses(keys: seq<string>): (r: seq<string>)
    ensures |r| == |keys| && forall i :: 0 <= i < |keys| ==> r[i] == keys[i] + " = ?"
  {
    seq(|keys|, i requires 0 <= i < |keys| => keys[i] + " = ?")
  }

  function WhereSql(q: Query): string {
    Join(" AND ", q.whereClauses)
  }

  /** The INSERT branch: an id is added when the data has none, dict values
      become JSON text, and every column gets one `?`. */
  function InsertRow(data: Record, newId: string, dumps: seq<(string, Value)> -> string): (row: Record)
    ensures HasKey(row, "id")
    ensures HasKey(data, "id") ==> |row| == |data|
    ensures !HasKey(data, "id") ==> |row| == |data| + 1 && row[|data|] == ("id", Str(newId))
    ensures forall i :: 0 <= i < |data| ==>
      row[i].0 == data[i].0 && row[i].1 == if data[i].1.Dict? then Str(dumps(data[i].1.entries)) else data[i].1
  {
    var withId := if HasKey(data, "id") then data else data + [("id", Str(newId))];
    var row := EncodeDicts(withId, dumps);
    assert HasKey(row, "id") by {
      var i :| 0 <= i < |withId| && withId[i].0 == "id";
      assert row[i].0 == "id";
    }
    assert forall i :: 0 <= i < |data| ==> withId[i] == data[i];
    row
  }

  function InsertSql(table: string, columns: seq<string>): string {
    "INSERT INTO " + table + " (" + Join(", ", columns) + ") VALUES (" + Join(", ", Marks(|columns|)) + ")"
  }

  function UpdateSql(table: string, columns: seq<string>, where: string): string {
    "UPDATE " + table + " SET " + Join(", ", SetClauses(columns)) + " WHERE " + where
  }

  function DeleteSql(table: string, where: string): string {
    "DELETE FROM " + table + " WHERE " + where
  }

  /** `SELECT fields FROM table ` followed by the optional WHERE part. */
  function SelectSql(fields: string, table: string, whereClause: string): string {
    "SELECT " + fields + " FROM " + table + " " + whereClause
  }

  /** `execute`'s statements for a builder, in branch order: INSERT when
      there is insert data; else UPDATE when there is update data and at
      least one `eq`; else DELETE when flagged and at least one `eq`; else
      SELECT. `newId` is the fresh uuid, `dumps` is `json.dumps`. */
  function PlanOf(q: Query, newId: string, dumps: seq<(string, Value)> -> string): Plan {
    if |q.insertData| > 0 then
      var row := InsertRow(q.insertData, newId, dumps);
      InsertPlan(Statement(InsertSql(q.table, Keys(row)), Values(row)),
                 Statement(SelectSql("*", q.table, "WHERE id = ?"), [Lookup(row, "id")]))
    else if |q.updateData| > 0 && |q.whereClauses| > 0 then
      var row := EncodeDicts(q.updateData, dumps);
      UpdatePlan(Statement(UpdateSql(q.table, Keys(row), WhereSql(q)), Values(row) + q.whereValues),
                 Statement(SelectSql("*", q.table, "WHERE " + WhereSql(q)), q.whereValues))
    else if q.deleteFlag && |q.whereClauses| > 0 then
      DeletePlan(Statement(DeleteSql(q.table, WhereSql(q)), q.whereValues))
    else
      var where := if |q.whereClauses| == 0 then "" else "WHERE " + WhereSql(q);
      SelectPlan(Statement(SelectSql(q.fields, q.table, where), q.whereValues))
  }

  // ---------------------------------------------------------------------
  // Rows coming back

  const WidgetConfig: string := "chat_widget_config"

  /** Only a `chat_widget_config` string is parsed back; text that does not
      parse (`loads` gives `None`) is left as it is. */
  function DecodeRow(row: Record, loads: string -> Option<Value>): (r: Record)
    ensures |r| == |row|
    ensures forall i :: 0 <= i < |row| ==> r[i].0 == row[i].0
    ensures forall i :: 0 <= i < |row| && (row[i].0 != WidgetConfig || !row[i].1.Str?) ==> r[i] == row[i]
    ensures forall i :: 0 <= i < |row| && row[i].0 == WidgetConfig && row[i].1.Str? ==>
      r[i].1 == match loads(row[i].1.s) case Some(v) => v case None => row[i].1
  {
    if |row| == 0 then []
    else
      var (k, v) := row[0];
      var v' := if k == WidgetConfig && v.Str? then (match loads(v.s) case Some(p) => p case None => v) else v;
      [(k, v')] + DecodeRow(row[1..], loads)
  }

  /** `QueryResponse.data`: DELETE answers `[]`; the other branches answer
      the fetched rows, decoded. */
  function Response(p: Plan, fetched: seq<Record>, loads: string -> Option<Value>): (data: seq<Record>)
    ensures p.DeletePlan? ==> data == []
    ensures !p.DeletePlan? ==> |data| == |fetched|
    ensures !p.DeletePlan? ==> forall i :: 0 <= i < |fetched| ==> data[i] == DecodeRow(fetched[i], loads)
  {
    if p.DeletePlan? then [] else seq(|fetched|, i requires 0 <= i < |fetched| => DecodeRow(fetched[i], loads))
  }

  // ---------------------------------------------------------------------
  // Facts

  /** `eq` keeps clauses and values aligned: after any chain of calls the
      i-th clause is the i-th `eq`'s field with `= ?` and the i-th value is
      that call's value. */
  lemma {:induction false} WhereAligned(table: string, calls: seq<Call>)
    ensures var q := Build(table, calls); var eqs := EqCalls(calls);
      && |q.whereClauses| == |q.whereValues| == |eqs|
      && (forall i :: 0 <= i < |eqs| ==> q.whereClauses[i] == eqs[i].0 + " = ?" && q.whereValues[i] == eqs[i].1)
    decreases |calls|
  {
    if |calls| > 0 {
      WhereAligned(table, calls[..|calls| - 1]);
    }
  }

  /** UPDATE and DELETE are only ever issued with a WHERE clause: each
      branch is taken exactly under its guard. */
  lemma Dispatch(q: Query, newId: string, dumps: seq<(string, Value)> -> string)
    ensures var p := PlanOf(q, newId, dumps);
      && (p.InsertPlan? <==> |q.insertData| > 0)
      && (p.UpdatePlan? <==> |q.insertData| == 0 && |q.updateData| > 0 && |q.whereClauses| > 0)
      && (p.DeletePlan? <==> |q.insertData| == 0 && !(|q.updateData| > 0 && |q.whereClauses| > 0)
                               && q.deleteFlag && |q.whereClauses| > 0)
      && (p.UpdatePlan? || p.DeletePlan? ==> Contains(p.write.sql, " WHERE "))
  {
    var p := PlanOf(q, newId, dumps);
    if p.UpdatePlan? {
      var row := EncodeDicts(q.updateData, dumps);
      ContainsInfix("UPDATE " + q.table + " SET " + Join(", ", SetClauses(Keys(row))), " WHERE ", WhereSql(q));
    } else if p.DeletePlan? {
      ContainsInfix("DELETE FROM " + q.table, " WHERE ", WhereSql(q));
    }
  }

  /** INSERT: columns and parameters come in the same key order, the data's
      own entries first; an id is added only when absent, and the row is
      fetched back by that id. */
  lemma InsertColumns(q: Query, newId: string, dumps: seq<(string, Value)> -> string)
    requires |q.insertData| > 0
    ensures var p := PlanOf(q, newId, dumps); var d := q.insertData;
      var row := InsertRow(d, newId, dumps);
      && p.InsertPlan?
      && p.write.params == Values(row)
      && (HasKey(d, "id") ==> |row| == |d|)
      && (!HasKey(d, "id") ==> |row| == |d| + 1 && row[|d|] == ("id", Str(newId)))
      && (forall i :: 0 <= i < |d| ==>
            row[i].0 == d[i].0 && row[i].1 == if d[i].1.Dict? then Str(dumps(d[i].1.entries)) else d[i].1)
      && p.fetch.params == [Lookup(row, "id")]
  {
    var row := InsertRow(q.insertData, newId, dumps);
    var p := PlanOf(q, newId, dumps);
    assert p.InsertPlan? && p.write.params == Values(row) && p.fetch.params == [Lookup(row, "id")] by {
      assert p == InsertPlan(Statement(InsertSql(q.table, Keys(row)), Values(row)),
                             Statement(SelectSql("*", q.table, "WHERE id = ?"), [Lookup(row, "id")]));
    }
  }

  /** UPDATE: the parameters are the (dict-encoded) update values in key
      order followed by the `eq` values, and the rows are fetched back with
      the `eq` values alone. */
  lemma UpdateParams(q: Query, newId: string, dumps: seq<(string, Value)> -> string)
    requires |q.insertData| == 0 && |q.updateData| > 0 && |q.whereClauses| > 0
    ensures var p := PlanOf(q, newId, dumps); var u := q.updateData;
      && p.UpdatePlan?
      && |p.write.params| == |u| + |q.whereValues|
      && (forall i :: 0 <= i < |u| ==>
            p.write.params[i] == if u[i].1.Dict? then Str(dumps(u[i].1.entries)) else u[i].1)
      && (forall j :: 0 <= j < |q.whereValues| ==> p.write.params[|u| + j] == q.whereValues[j])
      && p.fetch.params == q.whereValues
  {
  }

  predicate NoMark(s: string) {
    Count('?', s) == 0
  }

  /** The identifiers a builder puts into SQL text carry no `?` of their own. */
  predicate PlainIdentifiers(q: Query) {
    && NoMark(q.table) && NoMark(q.fields)
    && (forall i :: 0 <= i < |q.insertData| ==> NoMark(q.insertData[i].0))
    && (forall i :: 0 <= i < |q.updateData| ==> NoMark(q.updateData[i].0))
    && (forall i :: 0 <= i < |q.whereClauses| ==> Count('?', q.whereClauses[i]) == 1)
  }

  /** Every statement has exactly one `?` per parameter, as long as the
      table, column and field names have none. */
  lemma PlaceholdersMatch(q: Query, newId: string, dumps: seq<(string, Value)> -> string)
    requires PlainIdentifiers(q) && |q.whereClauses| == |q.whereValues|
    ensures var p := PlanOf(q, newId, dumps);
      && (!p.SelectPlan? ==> Count('?', p.write.sql) == |p.write.params|)
      && (!p.DeletePlan? ==> Count('?', p.fetch.sql) == |p.fetch.params|)
  {
    if |q.insertData| > 0 {
      InsertRowKeys(q.insertData, newId, dumps);
      InsertCount(q.table, Keys(InsertRow(q.insertData, newId, dumps)));
      IdFetchCount(q.table);
    } else {
      WhereCount(q);
      if |q.updateData| > 0 && |q.whereClauses| > 0 {
        UpdateCount(q.table, Keys(EncodeDicts(q.updateData, dumps)), WhereSql(q));
        FetchCount(q.table, WhereSql(q));
      } else if q.deleteFlag && |q.whereClauses| > 0 {
        DeleteCount(q.table, WhereSql(q));
      } else {
        FilterCount(q.fields, q.table, WhereSql(q), |q.whereClauses| == 0);
      }
    }
  }

  /** The names a call puts into SQL text carry no `?`. */
  predicate PlainCall(c: Call) {
    match c
    case SelectCall(f) => NoMark(f)
    case EqCall(f, _) => NoMark(f)
    case InsertCall(d) => forall i :: 0 <= i < |d| ==> NoMark(d[i].0)
    case UpdateCall(d) => forall i :: 0 <= i < |d| ==> NoMark(d[i].0)
    case DeleteCall => true
  }

  /** A chain of calls with plain names yields a builder with plain
      identifiers and aligned filters. */
  lemma {:induction false} BuiltPlain(table: string, calls: seq<Call>)
    requires NoMark(table) && forall i :: 0 <= i < |calls| ==> PlainCall(calls[i])
    ensures PlainIdentifiers(Build(table, calls))
    ensures |Build(table, calls).whereClauses| == |Build(table, calls).whereValues|
    decreases |calls|
  {
    if |calls| == 0 {
      Unmarked(Star);
    } else {
      var init := calls[..|calls| - 1];
      BuiltPlain(table, init);
      var last := calls[|calls| - 1];
      assert PlainCall(last);
      if last.EqCall? {
        EqClauseMark(last.field);
      }
    }
  }

  /** Whatever chain of calls built the query, its statements carry one `?`
      per parameter when the names in the chain carry none. */
  lemma ChainPlaceholders(table: string, calls: seq<Call>, newId: string, dumps: seq<(string, Value)> -> string)
    requires NoMark(table) && forall i :: 0 <= i < |calls| ==> PlainCall(calls[i])
    ensures var p := PlanOf(Build(table, calls), newId, dumps);
      && (!p.SelectPlan? ==> Count('?', p.write.sql) == |p.write.params|)
      && (!p.DeletePlan? ==> Count('?', p.fetch.sql) == |p.fetch.params|)
  {
    BuiltPlain(table, calls);
    PlaceholdersMatch(Build(table, calls), newId, dumps);
  }

  /** The keys of the row INSERT writes carry no `?` when the data's keys carry none. */
  lemma InsertRowKeys(data: Record, newId: string, dumps: seq<(string, Value)> -> string)
    requires forall i :: 0 <= i < |data| ==> NoMark(data[i].0)
    ensures var ks := Keys(InsertRow(data, newId, dumps)); forall i :: 0 <= i < |ks| ==> NoMark(ks[i])
  {
    var row := InsertRow(data, newId, dumps);
    var ks := Keys(row);
    forall i | 0 <= i < |ks| ensures NoMark(ks[i]) {
      if i < |data| {
        assert ks[i] == data[i].0;
      } else {
        assert ks[i] == Word(IdWord);
        Unmarked(IdWord);
      }
    }
  }

  lemma WhereCount(q: Query)
    requires forall i :: 0 <= i < |q.whereClauses| ==> Count('?', q.whereClauses[i]) == 1
    ensures Count('?', WhereSql(q)) == |q.whereClauses|
  {
    CountJoin('?', " AND ", q.whereClauses, 1);
  }

  /** The fixed words of the statements. */
  datatype Keyword = InsertInto | OpenColumns | ValuesOpen | CloseParen | Comma | UpdateWord | SetWord
                   | WhereWord | DeleteFrom | SelectWord | FromWord | Space | Star | WhereStart | WhereId
                   | Equals | IdWord | Empty

  function Word(k: Keyword): string {
    match k
    case InsertInto => "INSERT INTO "
    case OpenColumns => " ("
    case ValuesOpen => ") VALUES ("
    case CloseParen => ")"
    case Comma => ", "
    case UpdateWord => "UPDATE "
    case SetWord => " SET "
    case WhereWord => " WHERE "
    case DeleteFrom => "DELETE FROM "
    case SelectWord => "SELECT "
    case FromWord => " FROM "
    case Space => " "
    case Star => "*"
    case WhereStart => "WHERE "
    case WhereId => "WHERE id = "
    case Equals => " = "
    case IdWord => "id"
    case Empty => ""
  }

  /** None of the fixed words carries a `?`. */
  lemma Unmarked(k: Keyword)
    ensures NoMark(Word(k))
  {
    CountAbsent('?', Word(k));
  }

  lemma Count3(c: char, a: string, b: string, d: string)
    ensures Count(c, a + b + d) == Count(c, a) + Count(c, b) + Count(c, d)
  {
    CountConcat(c, a + b, d);
    CountConcat(c, a, b);
  }

  lemma Count4(c: char, a: string, b: string, d: string, e: string)
    ensures Count(c, a + b + d + e) == Count(c, a) + Count(c, b) + Count(c, d) + Count(c, e)
  {
    CountConcat(c, a + b + d, e);
    Count3(c, a, b, d);
  }

  lemma InsertCount(table: string, columns: seq<string>)
    requires NoMark(table) && forall i :: 0 <= i < |columns| ==> NoMark(columns[i])
    ensures Count('?', InsertSql(table, columns)) == |columns|
  {
    var cols := Join(", ", columns);
    var marks := Join(", ", Marks(|columns|));
    ListCounts(columns);
    var head := "INSERT INTO " + table + " (" + cols;
    assert NoMark(head) by {
      Unmarked(InsertInto);
      Unmarked(OpenColumns);
      Count4('?', "INSERT INTO ", table, " (", cols);
    }
    assert Count('?', head + ") VALUES (" + marks + ")") == |columns| by {
      Unmarked(ValuesOpen);
      Unmarked(CloseParen);
      Count4('?', head, ") VALUES (", marks, ")");
    }
  }

  /** The column list has no `?` and the value list one per column. */
  lemma ListCounts(columns: seq<string>)
    requires forall i :: 0 <= i < |columns| ==> NoMark(columns[i])
    ensures NoMark(Join(", ", columns))
    ensures Count('?', Join(", ", Marks(|columns|))) == |columns|
  {
    Unmarked(Comma);
    CountJoin('?', ", ", columns, 0);
    var marks := Marks(|columns|);
    forall i | 0 <= i < |marks| ensures Count('?', marks[i]) == 1 {
      assert marks[i] == "?";
    }
    CountJoin('?', ", ", marks, 1);
  }

  lemma UpdateCount(table: string, columns: seq<string>, where: string)
    requires NoMark(table) && forall i :: 0 <= i < |columns| ==> NoMark(columns[i])
    ensures Count('?', UpdateSql(table, columns, where)) == |columns| + Count('?', where)
  {
    var sets := Join(", ", SetClauses(columns));
    SetCounts(columns);
    Unmarked(UpdateWord);
    Unmarked(SetWord);
    Unmarked(WhereWord);
    Count3('?', "UPDATE " + table + " SET " + sets, " WHERE ", where);
    Count4('?', "UPDATE ", table, " SET ", sets);
  }

  /** The SET list has one `?` per column. */
  lemma SetCounts(columns: seq<string>)
    requires forall i :: 0 <= i < |columns| ==> NoMark(columns[i])
    ensures Count('?', Join(", ", SetClauses(columns))) == |columns|
  {
    var sets := SetClauses(columns);
    forall i | 0 <= i < |sets| ensures Count('?', sets[i]) == 1 {
      EqClauseMark(columns[i]);
    }
    Unmarked(Comma);
    CountJoin('?', ", ", sets, 1);
  }

  lemma DeleteCount(table: string, where: string)
    requires NoMark(table)
    ensures Count('?', DeleteSql(table, where)) == Count('?', where)
  {
    Unmarked(DeleteFrom);
    Unmarked(WhereWord);
    Count4('?', "DELETE FROM ", table, " WHERE ", where);
  }

  lemma SelectCount(fields: string, table: string, whereClause: string)
    requires NoMark(fields) && NoMark(table)
    ensures Count('?', SelectSql(fields, table, whereClause)) == Count('?', whereClause)
  {
    Unmarked(SelectWord);
    Unmarked(FromWord);
    Unmarked(Space);
    Count3('?', "SELECT " + fields + " FROM " + table, " ", whereClause);
    Count4('?', "SELECT ", fields, " FROM ", table);
  }

  /** The row fetched back after an INSERT is selected by one `?`. */
  lemma IdFetchCount(table: string)
    requires NoMark(table)
    ensures Count('?', SelectSql("*", table, "WHERE id = ?")) == 1
  {
    Unmarked(Star);
    Unmarked(WhereId);
    CountConcat('?', "WHERE id = ", "?");
    SelectCount("*", table, "WHERE id = ?");
  }

  /** The rows fetched back after an UPDATE are selected by its own filter. */
  lemma FetchCount(table: string, where: string)
    requires NoMark(table)
    ensures Count('?', SelectSql("*", table, "WHERE " + where)) == Count('?', where)
  {
    Unmarked(Star);
    Unmarked(WhereStart);
    CountConcat('?', "WHERE ", where);
    SelectCount("*", table, "WHERE " + where);
  }

  /** A plain SELECT has the filter's marks, or none without a filter. */
  lemma FilterCount(fields: string, table: string, where: string, unfiltered: bool)
    requires NoMark(fields) && NoMark(table)
    ensures Count('?', SelectSql(fields, table, if unfiltered then "" else "WHERE " + where))
         == if unfiltered then 0 else Count('?', where)
  {
    if unfiltered {
      SelectCount(fields, table, "");
    } else {
      Unmarked(WhereStart);
      CountConcat('?', "WHERE ", where);
      SelectCount(fields, table, "WHERE " + where);
    }
  }

  /** A clause made by `eq` from a field name without `?` has exactly one. */
  lemma EqClauseMark(field: string)
    requires NoMark(field)
    ensures Count('?', field + " = ?") == 1
  {
    CountConcat('?', field, " = ?");
  }

  /** SELECT with no filter has no WHERE (and a trailing space); with
      filters, the clauses are joined by AND. */
  lemma SelectText(q: Query, newId: string, dumps: seq<(string, Value)> -> string)
    requires |q.insertData| == 0 && !(|q.updateData| > 0 && |q.whereClauses| > 0)
    requires !(q.deleteFlag && |q.whereClauses| > 0)
    ensures var p := PlanOf(q, newId, dumps);
      && p.SelectPlan?
      && p.fetch.params == q.whereValues
      && (|q.whereClauses| == 0 ==> p.fetch.sql == "SELECT " + q.fields + " FROM " + q.table + " ")
      && (|q.whereClauses| > 0 ==> p.fetch.sql == "SELECT " + q.fields + " FROM " + q.table + " WHERE " + Join(" AND ", q.whereClauses))
  {
  }
}
