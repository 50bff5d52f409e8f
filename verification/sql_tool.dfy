/** The string handling of the health SQL tool (src/agent_graph/sql_tool.py):
    the table-description text, the extracted table names, the splitting of
    generated SQL into statements and their in-order execution, and the
    tool wrapper that turns every exception into an answer string.

    The language model (table extraction, query generation, answer
    rephrasing), the CSV reader and the SQLite database are oracles held in
    a `SqlBackend` value.
 */
module SqlTool {
  import opened Outcomes
  import opened Text
  import opened Llm
  import opened Seqs

  /** One row of the table-description CSV (its `Table` and `Description`
      columns). */
  datatype TableRow = TableRow(table: string, description: string)

  /** A table record produced by the extraction chain. */
  datatype Table = Table(name: string)

  /** The row count `run` asks the query generator for (its `top_k`). */
  const TopK: nat := 5

  const SqlErrorPrefix: string := "Error querying SQL health database: "

  // ---------------------------------------------------------------------
  // _get_table_details
  // ---------------------------------------------------------------------

  /** The text one CSV row contributes. */
  function RowDetails(row: TableRow): string {
    "Table Name: " + row.table + "\nTable Description: " + row.description + "\n\n"
  }

  /** `_get_table_details` over the rows of the CSV: the rows' texts, in row
      order. */
  function TableDetails(rows: seq<TableRow>): string {
    FlatMap(rows, RowDetails)
  }

  /** The text of a concatenation of row lists is the concatenation of
      their texts; with `TableDetails([]) == ""` this fixes the text as the
      in-order concatenation of `RowDetails`. */
  lemma {:induction false} TableDetailsConcat(a: seq<TableRow>, b: seq<TableRow>)
    ensures TableDetails(a + b) == TableDetails(a) + TableDetails(b)
  {
    FlatMapConcat(a, b, RowDetails);
  }

  /** The loop of `_get_table_details` appends each row's text to an
      accumulator; the result is the in-order concatenation. */
  method AccumulateTableDetails(rows: seq<TableRow>) returns (details: string)
    ensures details == TableDetails(rows)
    ensures rows == [] ==> details == ""
  {
    details := "";
    var i := 0;
    while i < |rows|
      invariant 0 <= i <= |rows|
      invariant details == TableDetails(rows[..i])
    {
      TableDetailsConcat(rows[..i], [rows[i]]);
      FlatMapSingleton(rows[i], RowDetails);
      assert rows[..i + 1] == rows[..i] + [rows[i]];
      details := details + RowDetails(rows[i]);
      i := i + 1;
    }
    assert rows[..i] == rows;
  }

  // ---------------------------------------------------------------------
  // _get_tables
  // ---------------------------------------------------------------------

  /** `_get_tables`: the names of the extracted tables. */
  function GetTables(tables: seq<Table>): (names: seq<string>)
    ensures |names| == |tables|
    ensures forall i :: 0 <= i < |tables| ==> names[i] == tables[i].name
  {
    Map(tables, (t: Table) => t.name)
  }

  // ---------------------------------------------------------------------
  // _execute_multiple_sql_queries
  // ---------------------------------------------------------------------

  /** One field of the comprehension: its stripped text, or nothing when
      that is empty. */
  function KeepStripped(field: string): seq<string> {
    var q := Strip(field);
    if q != [] then [q] else []
  }

  /** The comprehension `[q.strip() for q in fields if q.strip()]`. */
  function NonBlankStripped(fields: seq<string>): seq<string> {
    FlatMap(fields, KeepStripped)
  }

  /** The SQL statements found in the generated code: the pieces between ';'
      characters, stripped, with the blank ones dropped. Every ';' splits,
      including one inside a string literal. */
  function Statements(sqlCode: string): seq<string> {
    NonBlankStripped(Split(sqlCode, ';'))
  }

  /** What the statement list promises of each of its entries. */
  predicate IsStatement(q: string) {
    q != [] && IsStripped(q) && ';' !in q
  }

  lemma {:induction false} NonBlankStrippedWellFormed(fields: seq<string>)
    requires forall i :: 0 <= i < |fields| ==> ';' !in fields[i]
    ensures forall q :: q in NonBlankStripped(fields) ==> IsStatement(q)
    decreases |fields|
  {
    if |fields| > 0 {
      var q := Strip(fields[0]);
      StripChars(fields[0]);
      assert ';' !in q;
      assert forall i :: 0 <= i < |fields| - 1 ==> fields[1..][i] == fields[i + 1];
      NonBlankStrippedWellFormed(fields[1..]);
    }
  }

  /** Every statement is non-empty, carries no surrounding whitespace and
      contains no ';'. */
  lemma StatementsWellFormed(sqlCode: string)
    ensures forall q :: q in Statements(sqlCode) ==> IsStatement(q)
  {
    NonBlankStrippedWellFormed(Split(sqlCode, ';'));
  }

  /** A ';' separates the statements of the two sides, which keep their
      order. */
  lemma StatementsConcat(a: string, b: string)
    ensures Statements(a + ";" + b) == Statements(a) + Statements(b)
  {
    SplitConcat(a, ';', b);
    FlatMapConcat(Split(a, ';'), Split(b, ';'), KeepStripped);
  }

  predicate BlankOrSemicolons(s: string) {
    forall i :: 0 <= i < |s| ==> IsSpace(s[i]) || s[i] == ';'
  }

  predicate AllFieldsBlank(fields: seq<string>)
    decreases |fields|
  {
    |fields| == 0 || (AllSpace(fields[0]) && AllFieldsBlank(fields[1..]))
  }

  lemma {:induction false} NonBlankStrippedEmptyIff(fields: seq<string>)
    ensures NonBlankStripped(fields) == [] <==> AllFieldsBlank(fields)
    decreases |fields|
  {
    if |fields| > 0 {
      NonBlankStrippedEmptyIff(fields[1..]);
    }
  }

  lemma AllSpaceCons(c: char, x: string)
    ensures AllSpace([c] + x) <==> IsSpace(c) && AllSpace(x)
  {
    var s := [c] + x;
    assert s[0] == c;
    assert forall i :: 0 <= i < |x| ==> x[i] == s[i + 1];
    if IsSpace(c) && AllSpace(x) {
      forall i | 0 <= i < |s| ensures IsSpace(s[i]) {
        if i > 0 { assert s[i] == x[i - 1]; }
      }
    }
  }

  lemma BlankOrSemicolonsCons(s: string)
    requires |s| > 0
    ensures BlankOrSemicolons(s) <==> (IsSpace(s[0]) || s[0] == ';') && BlankOrSemicolons(s[1..])
  {
    assert forall i :: 1 <= i < |s| ==> s[1..][i - 1] == s[i];
  }

  lemma {:induction false} FieldsBlankIff(s: string)
    ensures AllFieldsBlank(Split(s, ';')) <==> BlankOrSemicolons(s)
    decreases |s|
  {
    if |s| > 0 {
      FieldsBlankIff(s[1..]);
      BlankOrSemicolonsCons(s);
      var rest := Split(s[1..], ';');
      if s[0] == ';' {
        assert ([""] + rest)[1..] == rest;
        assert AllSpace("");
      } else {
        assert ([[s[0]] + rest[0]] + rest[1..])[1..] == rest[1..];
        AllSpaceCons(s[0], rest[0]);
      }
    }
  }

  /** Input that is blank or consists only of ';' and whitespace yields no
      statements, and only such input does. */
  lemma StatementsEmptyIff(sqlCode: string)
    ensures Statements(sqlCode) == [] <==> BlankOrSemicolons(sqlCode)
  {
    FieldsBlankIff(sqlCode);
    NonBlankStrippedEmptyIff(Split(sqlCode, ';'));
  }

  lemma {:induction false} SplitWithoutSeparator(s: string, c: char)
    requires c !in s
    ensures Split(s, c) == [s]
    decreases |s|
  {
    if |s| > 0 {
      SplitWithoutSeparator(s[1..], c);
      assert [s[0]] + s[1..] == s;
    }
  }

  /** Non-blank input without ';' is one statement: the stripped input. */
  lemma SingleStatement(sqlCode: string)
    requires ';' !in sqlCode && !AllSpace(sqlCode)
    ensures Statements(sqlCode) == [Strip(sqlCode)]
  {
    SplitWithoutSeparator(sqlCode, ';');
    assert [sqlCode][1..] == [];
    assert NonBlankStripped([sqlCode]) == [Strip(sqlCode)] + NonBlankStripped([]);
  }

  /** The list comprehension `[db_tool.invoke(q) for q in queries]`: one
      tool call per statement, in order. `calls` lists the statements handed
      to the tool; the first exception ends the loop and propagates. */
  method InvokeEach(qs: seq<string>, db: string -> Outcome<string>)
    returns (r: Outcome<seq<string>>, calls: seq<string>)
    ensures r == MapAll(qs, db)
    ensures |calls| <= |qs| && calls == qs[..|calls|]
    ensures r.Ok? ==> calls == qs
    ensures r.Raised? ==> (|calls| > 0 && db(calls[|calls| - 1]) == Raised(r.error)
      && forall i :: 0 <= i < |calls| - 1 ==> db(calls[i]).Ok?)
  {
    var results: seq<string> := [];
    calls := [];
    var i := 0;
    while i < |qs|
      invariant 0 <= i <= |qs|
      invariant calls == qs[..i]
      invariant MapAll(qs[..i], db) == Ok(results)
    {
      MapAllSnoc(qs[..i], qs[i], db);
      assert qs[..i + 1] == qs[..i] + [qs[i]];
      calls := calls + [qs[i]];
      match db(qs[i])
      case Raised(e) =>
        r := Raised(e);
        assert qs[..i + 1] + qs[i + 1..] == qs;
        MapAllStopsAtFailure(qs[..i + 1], qs[i + 1..], db);
        assert forall j :: 0 <= j < i ==> db(calls[j]) == Ok(results[j]);
        return;
      case Ok(v) =>
        results := results + [v];
        i := i + 1;
    }
    assert qs[..i] == qs;
    r := Ok(results);
  }

  /** `_execute_multiple_sql_queries`: splits the generated code into
      statements and runs each through the database tool, in order, with one
      result per statement. */
  method ExecuteMultipleSqlQueries(sqlCode: string, db: string -> Outcome<string>)
    returns (r: Outcome<seq<string>>, calls: seq<string>)
    ensures r == MapAll(Statements(sqlCode), db)
    ensures forall q :: q in calls ==> IsStatement(q)
    ensures r.Ok? ==> (calls == Statements(sqlCode) && |r.value| == |calls|
      && forall i :: 0 <= i < |calls| ==> db(calls[i]) == Ok(r.value[i]))
    ensures |calls| <= |Statements(sqlCode)| && calls == Statements(sqlCode)[..|calls|]
    ensures r.Raised? ==> (|calls| > 0 && db(calls[|calls| - 1]) == Raised(r.error)
      && forall i :: 0 <= i < |calls| - 1 ==> db(calls[i]).Ok?)
  {
    StatementsWellFormed(sqlCode);
    r, calls := InvokeEach(Statements(sqlCode), db);
  }

  // ---------------------------------------------------------------------
  // ask_health_sql
  // ---------------------------------------------------------------------

  /** The collaborators of the SQL agent. */
  datatype SqlBackend = SqlBackend(
    /** Opening the SQLite database. */
    connect: Outcome<()>,
    /** Reading the table-description CSV. */
    descriptions: Outcome<seq<TableRow>>,
    /** The extraction chain, given the question and the table-details text. */
    selectTables: (string, string) -> Outcome<seq<Table>>,
    /** The query-generation chain, given the question, the table names and `top_k`. */
    generateQuery: (string, seq<string>, nat) -> Outcome<string>,
    /** The database tool, run on one statement. */
    db: string -> Outcome<string>,
    /** The rephrasing chain, given the question, the query and the results. */
    rephrase: (string, string, seq<string>) -> Outcome<string>)

  /** Building the agent and running the question through the full chain. */
  function SqlPipeline(modelName: string, question: string, backend: SqlBackend): Outcome<string> {
    var _ :- GetLlm(modelName);
    var _ :- backend.connect;
    var rows :- backend.descriptions;
    var tables :- backend.selectTables(question, TableDetails(rows));
    var query :- backend.generateQuery(question, GetTables(tables), TopK);
    var results :- MapAll(Statements(query), backend.db);
    backend.rephrase(question, query, results)
  }

  /** `ask_health_sql`: the chain's answer, or the error message built from
      whatever was raised. It never raises. */
  function AskHealthSql(modelName: string, question: string, backend: SqlBackend): string {
    match SqlPipeline(modelName, question, backend)
    case Ok(answer) => answer
    case Raised(e) => SqlErrorPrefix + e
  }

  /** An unsupported model name surfaces as the tool's answer, not as an
      exception; a raised step anywhere in the chain does the same. */
  lemma AskHealthSqlNeverRaises(modelName: string, question: string, backend: SqlBackend)
    ensures GetLlm(modelName).Raised? ==>
      AskHealthSql(modelName, question, backend) == SqlErrorPrefix + UnsupportedPrefix + modelName
    ensures SqlPipeline(modelName, question, backend).Raised? ==>
      AskHealthSql(modelName, question, backend) == SqlErrorPrefix + SqlPipeline(modelName, question, backend).error
    ensures backend.connect.Raised? ==>
      AskHealthSql(modelName, question, backend) == SqlErrorPrefix +
        (if GetLlm(modelName).Raised? then GetLlm(modelName).error else backend.connect.error)
  {
  }

  /** The statements of a successful chain reach the database in order and
      the rephrasing step sees one result per statement. */
  lemma PipelineRunsEveryStatement(modelName: string, question: string, backend: SqlBackend,
                                   rows: seq<TableRow>, tables: seq<Table>, query: string)
    requires GetLlm(modelName).Ok? && backend.connect.Ok?
    requires backend.descriptions == Ok(rows)
    requires backend.selectTables(question, TableDetails(rows)) == Ok(tables)
    requires backend.generateQuery(question, GetTables(tables), TopK) == Ok(query)
    requires forall q :: q in Statements(query) ==> backend.db(q).Ok?
    ensures var qs := Statements(query);
      var results := MapAll(qs, backend.db);
      && results.Ok?
      && |results.value| == |qs|
      && (forall i :: 0 <= i < |qs| ==> backend.db(qs[i]) == Ok(results.value[i]))
      && SqlPipeline(modelName, question, backend) == backend.rephrase(question, query, results.value)
  {
    MapAllSucceeds(Statements(query), backend.db);
  }

  /** The first statement whose execution raises decides the tool's answer:
      the statements before it ran, the ones after it did not, and the answer
      is the error message built from that statement's exception. */
  lemma FailingStatementFails(modelName: string, question: string, backend: SqlBackend,
                              rows: seq<TableRow>, tables: seq<Table>, query: string, k: nat)
    requires GetLlm(modelName).Ok? && backend.connect.Ok?
    requires backend.descriptions == Ok(rows)
    requires backend.selectTables(question, TableDetails(rows)) == Ok(tables)
    requires backend.generateQuery(question, GetTables(tables), TopK) == Ok(query)
    requires var qs := Statements(query);
      k < |qs| && backend.db(qs[k]).Raised? && forall j :: 0 <= j < k ==> backend.db(qs[j]).Ok?
    ensures AskHealthSql(modelName, question, backend)
      == SqlErrorPrefix + backend.db(Statements(query)[k]).error
  {
    MapAllFirstFailure(Statements(query), backend.db, k);
  }
}
