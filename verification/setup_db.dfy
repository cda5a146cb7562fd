/**
 * The database set-up script (expense-tracker/backend/setup-db.js): create and
 * select the database, then split the schema text at `;`, drop the blank
 * pieces and run the rest in order. The connection is a class that records
 * the queries it is sent.
 */
module SetupDb {
  import JsText
  import ListOps

  const CreateDatabase := "CREATE DATABASE IF NOT EXISTS expense_tracker"
  const UseDatabase := "USE expense_tracker"

  /** The filter's test, `stmt.trim().length > 0`. */
  function IsStatement(piece: string): bool {
    JsText.Trim(piece) != ""
  }

  /** A piece with at least one character that is not white space. */
  predicate NotBlank(piece: string) {
    !JsText.IsBlank(piece)
  }

  /** `schema.split(';').filter(stmt => stmt.trim().length > 0)`. */
  function Statements(schema: string): seq<string> {
    ListOps.Filter(JsText.Split(schema, ';'), IsStatement)
  }

  /** No statement contains `;`, and none is blank. */
  lemma StatementsWellFormed(schema: string)
    ensures forall i :: 0 <= i < |Statements(schema)| ==> ';' !in Statements(schema)[i]
    ensures forall i :: 0 <= i < |Statements(schema)| ==> !JsText.IsBlank(Statements(schema)[i])
  {
    var pieces := JsText.Split(schema, ';');
    JsText.SplitPiecesHaveNoSeparator(schema, ';');
    var r := Statements(schema);
    ListOps.FilterMembers(pieces, IsStatement);
    forall i | 0 <= i < |r| ensures ';' !in r[i] && !JsText.IsBlank(r[i]) {
      assert r[i] in r;
      JsText.TrimEmptyIffBlank(r[i]);
    }
  }

  /** There are at most one more statements than there are `;` in the text. */
  lemma StatementCount(schema: string)
    ensures |Statements(schema)| <= JsText.Count(';', schema) + 1
  {
    JsText.SplitLength(schema, ';');
  }

  /** A piece is kept exactly when it is not blank. */
  lemma {:induction false} StatementsKeepOrder(pieces: seq<string>)
    ensures ListOps.Filter(pieces, IsStatement) == ListOps.Filter(pieces, NotBlank)
  {
    if pieces != [] {
      StatementsKeepOrder(pieces[1..]);
      JsText.TrimEmptyIffBlank(pieces[0]);
    }
  }

  /** The statements of two schema texts joined by `;` are those of the first
      followed by those of the second: the order of the text is kept. */
  lemma StatementsOfJoin(a: string, b: string)
    ensures Statements(a + ";" + b) == Statements(a) + Statements(b)
  {
    JsText.SplitJoined(a, ';', b);
    ListOps.FilterAppend(JsText.Split(a, ';'), JsText.Split(b, ';'), IsStatement);
  }

  /** The loop's own test lets every statement of the filter through. */
  lemma StatementsAllSent(schema: string)
    ensures ListOps.Filter(Statements(schema), NotBlank) == Statements(schema)
  {
    var pieces := JsText.Split(schema, ';');
    StatementsKeepOrder(pieces);
    ListOps.FilterIdempotent(pieces, NotBlank);
  }

  /** A MySQL connection, reduced to the queries sent to it, in order. */
  class Connection {
    var executed: seq<string>

    constructor ()
      ensures executed == []
    {
      executed := [];
    }

    method Query(sql: string)
      modifies this
      ensures executed == old(executed) + [sql]
    {
      executed := executed + [sql];
    }
  }

  /** `setupDatabase`: create the database, select it, then run every statement
      of the schema in order. */
  method SetupDatabase(connection: Connection, schema: string)
    modifies connection
    ensures connection.executed == old(connection.executed) + [CreateDatabase, UseDatabase] + Statements(schema)
  {
    ghost var before := connection.executed;
    connection.Query(CreateDatabase);
    connection.Query(UseDatabase);
    assert connection.executed == before + [CreateDatabase, UseDatabase];
    var statements := Statements(schema);
    RunStatements(connection, statements);
    StatementsAllSent(schema);
  }

  /** The `for` loop: each statement that is not blank after trimming is sent,
      in order. */
  method RunStatements(connection: Connection, statements: seq<string>)
    modifies connection
    ensures connection.executed == old(connection.executed) + ListOps.Filter(statements, NotBlank)
  {
    ghost var before := connection.executed;
    var i := 0;
    while i < |statements|
      invariant 0 <= i <= |statements|
      invariant connection.executed == before + ListOps.Filter(statements[..i], NotBlank)
    {
      var statement := statements[i];
      assert statements[..i + 1] == statements[..i] + [statement];
      ListOps.FilterSnoc(statements[..i], statement, NotBlank);
      RunStatement(connection, statement);
      i := i + 1;
    }
    assert statements[..i] == statements;
  }

  /** The loop's body: a statement is sent only when it is not blank after
      trimming. */
  method RunStatement(connection: Connection, statement: string)
    modifies connection
    ensures connection.executed == old(connection.executed) + (if NotBlank(statement) then [statement] else [])
  {
    JsText.TrimEmptyIffBlank(statement);
    if JsText.Trim(statement) != "" {
      connection.Query(statement);
    }
  }
}
