/** pkg/db: rows put into prepared statements. */
module StatementSplitting {
  // As many statements as it takes to stay under the limit on arguments, in the data importer and in the plain
  // MySQL fixture writer.

  import opened Bytes

  type Value = int
  type Row = seq<Value>

  const MAX_ARGS := 65536

  /** The rows of a statement; its arguments are their values, row after row. */
  type Statement = seq<Row>

  function Args(s: Statement): seq<Value> {
    if s == [] then [] else Args(s[..|s| - 1]) + s[|s| - 1]
  }

  function Rows(stmts: seq<Statement>): seq<Row> {
    if stmts == [] then [] else Rows(stmts[..|stmts| - 1]) + stmts[|stmts| - 1]
  }

  lemma {:induction false} OneTimesMore(n: nat, c: nat)
    ensures (n + 1) * c == n * c + c
  {}

  lemma {:induction false} ArgsCount(s: Statement, c: nat)
    requires forall r <- s :: |r| == c
    ensures |Args(s)| == |s| * c
  {
    if s == [] {
      assert 0 * c == 0;
    } else {
      var before := s[..|s| - 1];
      assert forall r <- before :: r in s;
      ArgsCount(before, c);
      assert s[|s| - 1] in s;
      OneTimesMore(|before|, c);
    }
  }

  /** The insert builder: a statement without rows cannot be built. */
  function ToSql(s: Statement): Option<Statement> {
    if s == [] then None else Some(s)
  }

  lemma {:induction false} OneMoreFits(k: nat, c: nat)
    requires 1 <= c
    ensures (k + 1) * c > MAX_ARGS <==> k >= MAX_ARGS / c
  {
    var q := MAX_ARGS / c;
    if k >= q {
      assert (k + 1) * c >= (q + 1) * c;
    } else {
      assert (k + 1) * c <= q * c;
    }
  }

  lemma {:induction false} NoMoreThanFit(k: nat, c: nat)
    requires 1 <= c && k <= MAX_ARGS / c
    ensures k * c <= MAX_ARGS
  {
    if k > 0 {
      OneMoreFits(k - 1, c);
    }
  }

  /** How many rows go into a full statement. */
  function PerStatement(c: nat): nat
    requires c >= 1
  {
    MAX_ARGS / c
  }

  /** The statements are the rows, cut: none empty, all but the last full. */
  ghost predicate Cut(stmts: seq<Statement>, rows: seq<Row>, c: nat)
    requires c >= 1
  {
    && Rows(stmts) == rows
    && (forall i :: 0 <= i < |stmts| ==> 0 < |stmts[i]| <= PerStatement(c))
    && (forall i :: 0 <= i < |stmts| - 1 ==> |stmts[i]| == PerStatement(c))
  }

  lemma {:induction false} RowsSnoc(stmts: seq<Statement>, s: Statement)
    ensures Rows(stmts + [s]) == Rows(stmts) + s
  {
    assert (stmts + [s])[..|stmts|] == stmts;
  }

  /** The loop of both buildSql, from the first row on; None when a statement would have no row. */
  method SplitRows(rows: seq<Row>, c: nat) returns (stmts: Option<seq<Statement>>)
    requires rows != []
    ensures 1 <= c <= MAX_ARGS ==> stmts.Some? && Cut(stmts.value, rows, c)
    ensures c == 0 ==> stmts == Some([rows])
    ensures c > MAX_ARGS ==> stmts == None
  {
    var done: seq<Statement> := [];
    var current: Statement := [];
    var offset := 0;
    for i := 0 to |rows|
      invariant |current| <= i && offset == (i - |current|) * c
      invariant Rows(done) + current == rows[..i]
      invariant c == 0 ==> done == []
      invariant c > MAX_ARGS ==> i == 0
      invariant i > 0 ==> current != []
      invariant 1 <= c <= MAX_ARGS ==> |current| <= PerStatement(c)
      invariant 1 <= c <= MAX_ARGS ==> forall k :: 0 <= k < |done| ==> |done[k]| == PerStatement(c)
    {
      assert (i + 1) * c - (i - |current|) * c == (|current| + 1) * c;
      if c >= 1 {
        OneMoreFits(|current|, c);
      }
      if (i + 1) * c - offset > MAX_ARGS {
        offset := i * c;
        var stmt := ToSql(current);
        if stmt == None {
          return None;
        }
        RowsSnoc(done, current);
        done := done + [stmt.value];
        current := [];
      }
      current := current + [rows[i]];
      assert rows[..i + 1] == rows[..i] + [rows[i]];
    }
    var stmt := ToSql(current);
    if stmt == None {
      return None;
    }
    RowsSnoc(done, current);
    assert rows[..|rows|] == rows;
    return Some(done + [stmt.value]);
  }

  /** What the cutting promises for the arguments: never more than allowed, and full statements take no other row. */
  lemma {:induction false} ArgumentsStayUnderTheLimit(stmts: seq<Statement>, rows: seq<Row>, c: nat, i: nat)
    requires 1 <= c <= MAX_ARGS && Cut(stmts, rows, c) && i < |stmts|
    requires forall r <- rows :: |r| == c
    ensures |Args(stmts[i])| == |stmts[i]| * c <= MAX_ARGS
    ensures i < |stmts| - 1 ==> |Args(stmts[i])| + c > MAX_ARGS
  {
    hide Args, Rows;
    RowsOf(stmts, rows, i);
    ArgsCount(stmts[i], c);
    NoMoreThanFit(|stmts[i]|, c);
    OneMoreFits(|stmts[i]|, c);
    OneTimesMore(|stmts[i]|, c);
  }

  lemma {:induction false} RowsOf(stmts: seq<Statement>, rows: seq<Row>, i: nat)
    requires i < |stmts| && Rows(stmts) == rows
    ensures forall r <- stmts[i] :: r in rows
  {
    if i < |stmts| - 1 {
      RowsOf(stmts[..|stmts| - 1], Rows(stmts[..|stmts| - 1]), i);
    }
  }

  /** The limit is met with as few statements as possible: each holds as many rows as any statement can. */
  lemma {:induction false} StatementCount(stmts: seq<Statement>, rows: seq<Row>, c: nat)
    requires 1 <= c <= MAX_ARGS && Cut(stmts, rows, c) && stmts != []
    ensures (|stmts| - 1) * PerStatement(c) < |rows| <= |stmts| * PerStatement(c)
  {
    var q := PerStatement(c);
    FullRows(stmts[..|stmts| - 1], q);
    assert |rows| == |Rows(stmts[..|stmts| - 1])| + |stmts[|stmts| - 1]|;
    assert (|stmts| - 1) * q + q == |stmts| * q;
  }

  lemma {:induction false} FullRows(stmts: seq<Statement>, q: nat)
    requires forall i :: 0 <= i < |stmts| ==> |stmts[i]| == q
    ensures |Rows(stmts)| == |stmts| * q
  {
    if stmts != [] {
      FullRows(stmts[..|stmts| - 1], q);
      assert (|stmts| - 1) * q + q == |stmts| * q;
    }
  }

  // ---- the two places

  /** dataImporter.buildSql: the columns are those of the first row; no rows make no statement. */
  method ImporterBuildSql(rows: seq<Row>) returns (stmts: Option<seq<Statement>>)
    ensures rows == [] ==> stmts == Some([])
    ensures rows != [] && 1 <= |rows[0]| <= MAX_ARGS ==> stmts.Some? && Cut(stmts.value, rows, |rows[0]|)
    ensures rows != [] && |rows[0]| > MAX_ARGS ==> stmts == None
  {
    if rows == [] {
      return Some([]);
    }
    stmts := SplitRows(rows, |rows[0]|);
  }

  /** mysqlPlainFixtureWriter.buildSql: a fixture of another type, or none at all, is an error. */
  method WriterBuildSql(fixtures: seq<Option<Row>>, columns: nat) returns (stmts: Option<seq<Statement>>)
    ensures stmts.Some? <==> fixtures != [] && columns <= MAX_ARGS && None !in fixtures
    ensures stmts.Some? && columns >= 1 ==>
      exists rows: seq<Row> ::
        |rows| == |fixtures| && (forall i :: 0 <= i < |rows| ==> fixtures[i] == Some(rows[i]))
        && Cut(stmts.value, rows, columns)
  {
    if fixtures == [] {
      return None;
    }
    var rows: seq<Row> := [];
    for i := 0 to |fixtures|
      invariant |rows| == i && forall k :: 0 <= k < i ==> fixtures[k] == Some(rows[k])
    {
      if fixtures[i] == None {
        return None;
      }
      rows := rows + [fixtures[i].value];
    }
    stmts := SplitRows(rows, columns);
  }
}
