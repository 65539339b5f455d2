/**
  The statement layer: `list_tables` (the schema catalog as a list of
  normalised table definitions) and `run_sql` (one statement or script
  against the database, with every engine error turned into a result).

  SQLite itself is an oracle. The catalog query's rows (already filtered
  and ordered by the engine) are an input to `ListTables`; each execution is
  a call of an `engine` function that returns the cursor's state or the
  text of the `sqlite3.Error` raised. Whether the database file exists is a
  boolean input.
 */
module SqlParser {
  import opened Text
  import opened Optional
  import opened Json
  import Ddl

  // ---------------------------------------------------------------------
  // list_tables
  // ---------------------------------------------------------------------

  /** One row of the catalog query: name, type and the stored DDL (NULL for some objects). */
  datatype CatalogRow = CatalogRow(name: string, kind: string, sql: Option<string>)

  /** The catalog query's rows, or the text of the `sqlite3.Error` it raised. */
  datatype CatalogReply = CatalogRows(rows: seq<CatalogRow>) | CatalogFailure(message: string)

  /** `{"table_name": ..., "table_sql": ...}`. */
  datatype TableEntry = TableEntry(tableName: string, tableSql: string)

  /** What `list_tables` returns: the empty dict `{}` or a list of entries. */
  datatype Listing = EmptyDict | TableList(entries: seq<TableEntry>)

  /** `list_tables` returns a listing, or the catalog error escapes it:
      its `try` has a `finally` and no `except`. */
  datatype ListOutcome = Listed(listing: Listing) | ListRaised(message: string)

  function EntryOf(row: CatalogRow): TableEntry {
    TableEntry(row.name, Ddl.CleanSql(row.sql.GetOr("")))
  }

  function EntriesOf(rows: seq<CatalogRow>): (es: seq<TableEntry>)
    ensures |es| == |rows|
    ensures forall i :: 0 <= i < |rows| ==> es[i] == EntryOf(rows[i])
  {
    if |rows| == 0 then [] else [EntryOf(rows[0])] + EntriesOf(rows[1..])
  }

  /** `list_tables(db_path)`. A missing file or an empty catalog gives `{}`;
      otherwise one entry per catalog row, in the engine's order, holding the
      row's name and its normalised DDL (a NULL definition normalises to ""). */
  function ListTables(dbExists: bool, catalog: CatalogReply): (r: ListOutcome)
    ensures !dbExists ==> r == Listed(EmptyDict)
    ensures dbExists && catalog.CatalogFailure? ==> r == ListRaised(catalog.message)
    ensures dbExists && catalog == CatalogRows([]) ==> r == Listed(EmptyDict)
    ensures r.Listed? && r.listing.TableList? ==>
      && dbExists && catalog.CatalogRows?
      && |r.listing.entries| == |catalog.rows| > 0
      && forall i :: 0 <= i < |catalog.rows| ==>
           && r.listing.entries[i].tableName == catalog.rows[i].name
           && (catalog.rows[i].sql.None? ==> r.listing.entries[i].tableSql == "")
           && (catalog.rows[i].sql.Some? ==> r.listing.entries[i].tableSql == Ddl.CleanSql(catalog.rows[i].sql.value))
    ensures dbExists && catalog.CatalogRows? && catalog.rows != [] ==> r.Listed? && r.listing.TableList?
    ensures r.Listed? && r.listing.TableList? ==>
      forall i, k :: 0 <= i < |r.listing.entries| && 0 <= k < |r.listing.entries[i].tableSql| ==>
        Ddl.Flattened(r.listing.entries[i].tableSql[k])
  {
    if !dbExists then Listed(EmptyDict)
    else
      match catalog
      case CatalogFailure(m) => ListRaised(m)
      case CatalogRows(rows) =>
        if |rows| == 0 then Listed(EmptyDict) else Listed(TableList(EntriesOf(rows)))
  }

  // ---------------------------------------------------------------------
  // run_sql
  // ---------------------------------------------------------------------

  /** How a statement is handed to the engine: `cur.execute` followed by a
      fetch, `cur.executescript`, or `cur.execute` of one mutation. */
  datatype ExecMode = Query | Script | Single

  /** A column value as SQLite returns it. */
  datatype Cell = NullCell | IntCell(i: int) | RealCell(literal: string) | TextCell(text: string) | BlobCell(bytes: seq<int>)

  /** `dict(row)`: column name to value. */
  type Row = map<string, Cell>

  /** What the cursor holds after a successful execution. */
  datatype Cursor = Cursor(description: Option<seq<string>>, rows: seq<Row>, rowCount: int, lastRowId: Option<int>)

  /** The engine's answer to one execution (with its fetch or commit). */
  datatype EngineReply = Executed(cursor: Cursor) | EngineError(message: string)

  /** The dict `run_sql` returns: `status` "ok" with columns and rows, with
      `rows_affected`, or with `rows_affected` and `lastrowid`; or `status`
      "error" with the message. */
  datatype SqlResult =
    | Selected(columns: seq<string>, rows: seq<Row>)
    | ScriptDone(rowsAffected: int)
    | StatementDone(rowsAffected: int, lastRowId: Option<int>)
    | Failed(error: string)
  {
    predicate IsOk() { !Failed? }
  }

  /** `run_sql` returns a result, or an exception that is not an `sqlite3.Error` escapes it. */
  datatype SqlOutcome = Returned(result: SqlResult) | Uncaught

  /** What `run_sql` does to the connection, in order. */
  datatype DbAction = Connect | Execute(mode: ExecMode, sql: string) | Commit | Close

  datatype SqlRun = SqlRun(outcome: SqlOutcome, actions: seq<DbAction>)

  const EmptyQueryError := "Empty SQL query"

  function MissingDatabaseError(dbPath: string): string {
    "Database not found: " + dbPath
  }

  /** `(sql_query or "")` ready for `.strip()`: falsy values become "", a
      string stays itself, and any other truthy value has no `.strip()`. */
  function QueryText(query: Value): Option<string> {
    match query
    case Null => Some("")
    case Str(t) => Some(t)
    case NonString(_, truthy) => if truthy then None else Some("")
  }

  /** The dispatch of a trimmed, non-empty statement: the first
      whitespace-delimited word, lower-cased, decides whether it is a query;
      otherwise a `;` anywhere makes it a script. */
  function Classify(sql: string): ExecMode {
    if AsciiLower(FirstWord(sql)) == "select" then Query
    else if ';' in sql then Script
    else Single
  }

  /** The result `run_sql` builds from a successful execution in each mode. */
  function ResultOf(mode: ExecMode, c: Cursor): SqlResult {
    match mode
    case Query => Selected(c.description.GetOr([]), c.rows)
    case Script => ScriptDone(c.rowCount)
    case Single => StatementDone(c.rowCount, c.lastRowId)
  }

  /** The connection is opened first and closed last, once each. */
  predicate OpenedOnce(actions: seq<DbAction>) {
    && |actions| >= 2 && actions[0] == Connect && actions[|actions| - 1] == Close
    && Connect !in actions[1..|actions| - 1] && Close !in actions[1..|actions| - 1]
  }

  /** The part of `run_sql` after the blank check: a trimmed, non-empty
      statement is executed once in the mode its text selects. */
  function RunStatement(sql: string, engine: (ExecMode, string) -> EngineReply): (r: SqlRun)
    requires sql != ""
    ensures OpenedOnce(r.actions) && r.outcome.Returned?
    ensures r.actions[1] == Execute(Classify(sql), sql)
    ensures engine(Classify(sql), sql).EngineError? ==> r.outcome.result == Failed(engine(Classify(sql), sql).message)
    ensures engine(Classify(sql), sql).Executed? ==>
      r.outcome.result == ResultOf(Classify(sql), engine(Classify(sql), sql).cursor)
    // Exactly the successful mutations commit.
    ensures Commit in r.actions <==> r.outcome.result.ScriptDone? || r.outcome.result.StatementDone?
    // The shape of an ok result follows the dispatch.
    ensures r.outcome.result.Selected? ==> |r.actions| == 3 && Classify(sql) == Query
    ensures r.outcome.result.ScriptDone? ==> |r.actions| == 4 && Classify(sql) == Script
    ensures r.outcome.result.StatementDone? ==> |r.actions| == 4 && Classify(sql) == Single
  {
    var mode := Classify(sql);
    match engine(mode, sql)
    case EngineError(m) =>
      var actions := [Connect, Execute(mode, sql), Close];
      assert actions[1..2] == [Execute(mode, sql)];
      SqlRun(Returned(Failed(m)), actions)
    case Executed(c) =>
      if mode == Query then
        var actions := [Connect, Execute(mode, sql), Close];
        assert actions[1..2] == [Execute(mode, sql)];
        SqlRun(Returned(ResultOf(mode, c)), actions)
      else
        var actions := [Connect, Execute(mode, sql), Commit, Close];
        assert actions[1..3] == [Execute(mode, sql), Commit];
        SqlRun(Returned(ResultOf(mode, c)), actions)
  }

  /** `run_sql(db_path, sql_query)`. */
  function RunSql(dbPath: string, dbExists: bool, query: Value, engine: (ExecMode, string) -> EngineReply): (r: SqlRun)
    // A missing file is reported without connecting.
    ensures !dbExists ==> r == SqlRun(Returned(Failed(MissingDatabaseError(dbPath))), [])
    // Otherwise the connection is opened first and closed last, exactly once each.
    ensures dbExists ==> OpenedOnce(r.actions)
    // Only a truthy non-string statement escapes as an exception.
    ensures r.outcome.Uncaught? <==> dbExists && query.NonString? && query.truthy
    // Blank statements are refused without executing anything.
    ensures dbExists && QueryText(query).Some? && Strip(QueryText(query).value) == "" ==>
      r == SqlRun(Returned(Failed(EmptyQueryError)), [Connect, Close])
    // A non-blank statement is run trimmed.
    ensures dbExists && QueryText(query).Some? && Strip(QueryText(query).value) != "" ==>
      r == RunStatement(Strip(QueryText(query).value), engine)
  {
    if !dbExists then SqlRun(Returned(Failed(MissingDatabaseError(dbPath))), [])
    else
      match QueryText(query)
      case None =>
        assert [Connect, Close][1..1] == [];
        SqlRun(Uncaught, [Connect, Close])
      case Some(text) =>
        var sql := Strip(text);
        if sql == "" then
          assert [Connect, Close][1..1] == [];
          SqlRun(Returned(Failed(EmptyQueryError)), [Connect, Close])
        else RunStatement(sql, engine)
  }

  /** The query path is taken exactly when the trimmed text begins with the
      word `select`, in any letter case, followed by whitespace or the end. */
  lemma ClassifyQueryIff(sql: string)
    ensures Classify(sql) == Query <==>
      |sql| >= 6 && AsciiLower(sql[..6]) == "select" && (|sql| == 6 || IsSpace(sql[6]))
  {
    var w := FirstWord(sql);
    if |sql| >= 6 && AsciiLower(sql[..6]) == "select" && (|sql| == 6 || IsSpace(sql[6])) {
      assert forall i :: 0 <= i < 6 ==> !IsSpace(sql[i]) by {
        forall i | 0 <= i < 6 ensures !IsSpace(sql[i]) {
          assert AsciiLower(sql[..6])[i] == AsciiLowerChar(sql[i]);
        }
      }
      FirstWordOfWord(sql, 6);
      assert w == sql[..6];
    }
    if AsciiLower(w) == "select" {
      assert |w| == 6 && w == sql[..6];
    }
  }

  lemma {:induction false} FirstWordOfWord(s: string, n: nat)
    requires n <= |s| && (n == |s| || IsSpace(s[n]))
    requires forall i :: 0 <= i < n ==> !IsSpace(s[i])
    ensures FirstWord(s) == s[..n]
    decreases n
  {
    if n > 0 {
      FirstWordOfWord(s[1..], n - 1);
      assert s[..n] == [s[0]] + s[1..][..n - 1];
    }
  }

  /** The first word has to be exactly `select`: with anything but
      whitespace glued to it (`SELECT*FROM t`, `SELECT(1)`, `selected`) the
      statement is not run as a query, so nothing is fetched. */
  lemma GluedStarIsNotQuery(sql: string)
    requires |sql| > 6 && !IsSpace(sql[6])
    ensures Classify(sql) != Query
  {
    ClassifyQueryIff(sql);
  }

  /** A query that opens with a WITH clause, in any letter case, takes the
      mutation path too. */
  lemma WithClauseIsNotQuery(sql: string)
    requires |sql| >= 4 && AsciiLower(sql[..4]) == "with"
    ensures Classify(sql) != Query
  {
    ClassifyQueryIff(sql);
    assert AsciiLower(sql[..4])[0] == AsciiLowerChar(sql[0]) == 'w';
    if |sql| >= 6 {
      assert AsciiLower(sql[..6])[0] == AsciiLowerChar(sql[0]);
    }
  }

  /** A statement that is not a query runs as a script exactly when it
      holds a `;` anywhere, even inside a string literal or after a comment. */
  lemma ScriptIff(sql: string)
    ensures Classify(sql) == Script <==>
      ';' in sql && !(|sql| >= 6 && AsciiLower(sql[..6]) == "select" && (|sql| == 6 || IsSpace(sql[6])))
    ensures Classify(sql) == Single <==>
      ';' !in sql && !(|sql| >= 6 && AsciiLower(sql[..6]) == "select" && (|sql| == 6 || IsSpace(sql[6])))
  {
    ClassifyQueryIff(sql);
  }
}
