/** pkg/dbx: SELECT, UPDATE and DELETE, clause by clause. */
module SqlStatements {
  import opened Bytes
  import opened SqlPieces
  import opened SqlFragments
  import opened SqlExpressions
  import opened SqlPlaceholders

  datatype SelectData = SelectData(
    format: PlaceholderFormat,
    options: seq<string>,
    columns: seq<Sqlizer>,
    from: Option<Sqlizer>,
    joins: seq<Sqlizer>,
    whereParts: seq<Sqlizer>,
    groupBys: seq<string>,
    havingParts: seq<Sqlizer>,
    orderByParts: seq<Sqlizer>,
    limit: string,
    offset: string)

  datatype SetClause = SetClause(column: string, value: Arg)

  datatype UpdateData = UpdateData(
    format: PlaceholderFormat,
    options: seq<string>,
    table: string,
    setClauses: seq<SetClause>,
    whereParts: seq<Sqlizer>,
    orderBys: seq<string>,
    limit: string)

  datatype DeleteData = DeleteData(
    format: PlaceholderFormat,
    options: seq<string>,
    from: string,
    whereParts: seq<Sqlizer>,
    orderBys: seq<string>,
    limit: string)

  // ---- what a statement means: its clauses one after the other

  function OptionsText(options: seq<string>): string {
    if options == [] then "" else StringsJoin(options, " ") + " "
  }

  /** A keyword with what it introduces; nothing is written when it introduces nothing. */
  datatype ClauseDef =
    | Keyword(kw: string, parts: seq<Sqlizer>, sep: string)
    | Words(kw: string, words: seq<string>, sep: string)
    | Setters(kw: string, clauses: seq<SetClause>)

  function SetTerm(c: SetClause): Option<SqlParts> {
    match (match c.value case Value(_) => Some([Hole(c.value)]) case Nested(s) => Meaning(s))
    case None => None
    case Some(p) => Some(Raw(c.column) + Lits(" = ") + p)
  }

  function SetTerms(cs: seq<SetClause>): (ms: seq<Option<SqlParts>>)
    ensures |ms| == |cs|
  {
    seq(|cs|, i requires 0 <= i < |cs| => SetTerm(cs[i]))
  }

  function MeaningOf(c: ClauseDef): Option<SqlParts> {
    match c
    case Keyword(kw, parts, sep) =>
      if parts == [] then Some([])
      else (match All(Meanings(parts)) case None => None case Some(ts) => Some(Raw(kw) + Clause(ts, sep)))
    case Words(kw, words, sep) => Some(if words == [] then [] else Raw(kw) + Raw(StringsJoin(words, sep)))
    case Setters(kw, clauses) =>
      match All(SetTerms(clauses)) case None => None case Some(ts) => Some(Raw(kw) + Joined(ts, ", "))
  }

  function MeaningsOf(cs: seq<ClauseDef>): (ms: seq<Option<SqlParts>>)
    ensures |ms| == |cs|
  {
    seq(|cs|, i requires 0 <= i < |cs| => MeaningOf(cs[i]))
  }

  function Sequenced(cs: seq<ClauseDef>): Option<SqlParts> {
    match All(MeaningsOf(cs)) case None => None case Some(ts) => Some(Flat(ts))
  }

  function NonBlank(s: string): seq<string> { if s == "" then [] else [s] }

  function FromParts(from: Option<Sqlizer>): seq<Sqlizer> { if from.Some? then [from.value] else [] }

  function SelectClauses(d: SelectData): seq<ClauseDef> {
    [ Keyword("SELECT " + OptionsText(d.options), d.columns, ", "),
      Keyword(" FROM ", FromParts(d.from), ""),
      Keyword(" ", d.joins, " "),
      Keyword(" WHERE ", d.whereParts, " AND "),
      Words(" GROUP BY ", d.groupBys, ", "),
      Keyword(" HAVING ", d.havingParts, " AND "),
      Keyword(" ORDER BY ", d.orderByParts, ", "),
      Words(" LIMIT ", NonBlank(d.limit), ""),
      Words(" OFFSET ", NonBlank(d.offset), "") ]
  }

  function UpdateClauses(d: UpdateData): seq<ClauseDef> {
    [ Setters("UPDATE " + OptionsText(d.options) + d.table + " SET ", d.setClauses),
      Keyword(" WHERE ", d.whereParts, " AND "),
      Words(" ORDER BY ", d.orderBys, ", "),
      Words(" LIMIT ", NonBlank(d.limit), "") ]
  }

  function DeleteClauses(d: DeleteData): seq<ClauseDef> {
    [ Words("DELETE " + OptionsText(d.options) + "FROM ", NonBlank(d.from), ""),
      Keyword(" WHERE ", d.whereParts, " AND "),
      Words(" ORDER BY ", d.orderBys, ", "),
      Words(" LIMIT ", NonBlank(d.limit), "") ]
  }

  function SelectMeaning(d: SelectData): Option<SqlParts> {
    if d.columns == [] then None else Sequenced(SelectClauses(d))
  }

  function UpdateMeaning(d: UpdateData): Option<SqlParts> {
    if d.table == "" || d.setClauses == [] then None else Sequenced(UpdateClauses(d))
  }

  function DeleteMeaning(d: DeleteData): Option<SqlParts> {
    if d.from == "" then None else Sequenced(DeleteClauses(d))
  }

  // ---- the code

  /** r2 is r with one more clause written. */
  ghost predicate Extends(sql: string, args: seq<Arg>, clause: Option<SqlParts>, r: Built) {
    match clause
    case None => r == Failed
    case Some(p) => r == Ok(sql + Text(p), args + Args(p))
  }

  lemma {:induction false} ClauseGrows(ts: seq<SqlParts>, m: SqlParts, sep: string)
    ensures Text(Clause(ts + [m], sep)) == Text(Clause(ts, sep)) + Text(ClauseItem(m, ts == [], sep))
    ensures Args(Clause(ts + [m], sep)) == Args(Clause(ts, sep)) + Args(ClauseItem(m, ts == [], sep))
  {
    assert (ts + [m])[..|ts|] == ts;
    Written(Clause(ts, sep), ClauseItem(m, ts == [], sep));
  }

  /** What the loop has written once the blocks ts are done. */
  ghost predicate Appended(ts: seq<SqlParts>, sep: string, w0: string, args0: seq<Arg>, w: string, args: seq<Arg>) {
    w == w0 + Text(Clause(ts, sep)) && args == args0 + Args(Clause(ts, sep))
  }

  lemma {:induction false} AppendStep(ts: seq<SqlParts>, m: SqlParts, sep: string, w0: string, args0: seq<Arg>,
          w: string, args: seq<Arg>)
    requires Appended(ts, sep, w0, args0, w, args)
    ensures Text(m) == "" ==> Appended(ts + [m], sep, w0, args0, w, args)
    ensures Text(m) != "" && ts == [] ==> Appended(ts + [m], sep, w0, args0, w + Text(m), args + Args(m))
    ensures Text(m) != "" && ts != [] ==> Appended(ts + [m], sep, w0, args0, w + sep + Text(m), args + Args(m))
  {
    ClauseGrows(ts, m, sep);
    ClauseItemText(m, ts == [], sep);
    var item := ClauseItem(m, ts == [], sep);
    Reassociate(w0, Text(Clause(ts, sep)), Text(item));
    Reassociate(args0, Args(Clause(ts, sep)), Args(item));
    Reassociate(w, sep, Text(m));
  }

  method AppendToSql(parts: seq<Sqlizer>, w0: string, sep: string, args0: seq<Arg>) returns (r: Built)
    ensures match All(Meanings(parts)) case None => r == Failed
            case Some(ts) => r.Ok? && Appended(ts, sep, w0, args0, r.sql, r.args)
  {
    var w, args := w0, args0;
    ghost var ms, ts := Meanings(parts), [];
    for i := 0 to |parts|
      invariant All(ms[..i]) == Some(ts)
      invariant Appended(ts, sep, w0, args0, w, args)
    {
      AllGrows(ms, i);
      var part := ToSql(parts[i]);
      if part == Failed {
        return Failed;
      }
      ghost var m := ms[i].value;
      AppendStep(ts, m, sep, w0, args0, w, args);
      ts := ts + [m];
      if part.sql == "" {
        continue;
      }
      if i > 0 {
        w := w + sep;
      }
      w := w + part.sql;
      args := args + part.args;
    }
    assert ms[..|parts|] == ms;
    return Ok(w, args);
  }

  lemma {:induction false} KeywordText(kw: string, ts: seq<SqlParts>, sep: string, w: string)
    ensures w + kw + Text(Clause(ts, sep)) == w + Text(Raw(kw) + Clause(ts, sep))
    ensures Args(Raw(kw) + Clause(ts, sep)) == Args(Clause(ts, sep))
  {
    Written(Raw(kw), Clause(ts, sep));
    Reassociate(w, kw, Text(Clause(ts, sep)));
  }

  /** The first n clauses are written, or one of them cannot be. */
  ghost predicate Wrote(cs: seq<ClauseDef>, n: nat, r: Built) {
    var ms := MeaningsOf(cs);
    if r == Failed then Sequenced(cs) == None
    else n <= |ms| && All(ms[..n]).Some? && r == Ok(Text(Flat(All(ms[..n]).value)), Args(Flat(All(ms[..n]).value)))
  }

  lemma {:induction false} WroteNext(cs: seq<ClauseDef>, n: nat, r: Built, r2: Built)
    requires Wrote(cs, n, r) && r.Ok? && n < |cs| && Extends(r.sql, r.args, MeaningOf(cs[n]), r2)
    ensures Wrote(cs, n + 1, r2)
  {
    FlatGrows(MeaningsOf(cs), n);
  }

  lemma {:induction false} WroteAll(cs: seq<ClauseDef>, r: Built)
    requires Wrote(cs, |cs|, r)
    ensures Is(r, Sequenced(cs))
  {
    var ms := MeaningsOf(cs);
    assert ms[..|ms|] == ms;
  }

  lemma {:induction false} WroteNothing(cs: seq<ClauseDef>)
    ensures Wrote(cs, 0, Ok("", []))
  {
    assert MeaningsOf(cs)[..0] == [];
  }

  /** "if len(parts) > 0" around a keyword and its parts; nothing more is written once a clause has failed. */
  method WriteKeyword(kw: string, parts: seq<Sqlizer>, sep: string, w: Built, ghost cs: seq<ClauseDef>, ghost n: nat)
    returns (r: Built)
    requires Wrote(cs, n, w) && n < |cs| && cs[n] == Keyword(kw, parts, sep)
    ensures Wrote(cs, n + 1, r)
  {
    if w == Failed {
      return Failed;
    }
    if |parts| > 0 {
      r := AppendToSql(parts, w.sql + kw, sep, w.args);
      if r != Failed {
        KeywordText(kw, All(Meanings(parts)).value, sep, w.sql);
      }
    } else {
      r := w;
    }
    WroteNext(cs, n, w, r);
  }

  method WriteWords(kw: string, words: seq<string>, sep: string, w: Built, ghost cs: seq<ClauseDef>, ghost n: nat)
    returns (r: Built)
    requires Wrote(cs, n, w) && n < |cs| && cs[n] == Words(kw, words, sep)
    ensures Wrote(cs, n + 1, r)
  {
    if w == Failed {
      return Failed;
    }
    if |words| > 0 {
      Written(Raw(kw), Raw(StringsJoin(words, sep)));
      Reassociate(w.sql, kw, StringsJoin(words, sep));
      r := Ok(w.sql + kw + StringsJoin(words, sep), w.args);
    } else {
      r := w;
    }
    WroteNext(cs, n, w, r);
  }

  lemma {:induction false} NothingBuilt()
    ensures Is(Failed, None)
  {}

  method SelectToSqlRaw(d: SelectData) returns (r: Built)
    ensures Is(r, SelectMeaning(d))
  {
    hide Wrote, Is, Sequenced, StringsJoin, FromParts, NonBlank;
    if |d.columns| == 0 {
      NothingBuilt();
      return Failed;
    }
    ghost var cs := SelectClauses(d);
    WroteNothing(cs);
    var sql := "SELECT ";
    if |d.options| > 0 {
      sql := sql + (StringsJoin(d.options, " ") + " ");
    }
    assert "SELECT " + OptionsText(d.options) == sql;
    r := WriteKeyword(sql, d.columns, ", ", Ok("", []), cs, 0);
    r := WriteKeyword(" FROM ", FromParts(d.from), "", r, cs, 1);
    r := WriteKeyword(" ", d.joins, " ", r, cs, 2);
    r := WriteKeyword(" WHERE ", d.whereParts, " AND ", r, cs, 3);
    r := WriteWords(" GROUP BY ", d.groupBys, ", ", r, cs, 4);
    r := WriteKeyword(" HAVING ", d.havingParts, " AND ", r, cs, 5);
    r := WriteKeyword(" ORDER BY ", d.orderByParts, ", ", r, cs, 6);
    r := WriteWords(" LIMIT ", NonBlank(d.limit), "", r, cs, 7);
    r := WriteWords(" OFFSET ", NonBlank(d.offset), "", r, cs, 8);
    WroteAll(cs, r);
  }

  lemma {:induction false} SetTermText(c: SetClause, p: SqlParts)
    ensures Text(Raw(c.column) + Lits(" = ") + p) == c.column + " = " + Text(p)
    ensures Args(Raw(c.column) + Lits(" = ") + p) == Args(p)
  {
    TermText(c.column, " = ", p);
  }

  method SetTermToSql(c: SetClause) returns (r: Built)
    ensures Is(r, SetTerm(c))
  {
    match c.value {
      case Nested(s) =>
        r := ToSql(s);
        if r != Failed {
          SetTermText(c, Meaning(s).value);
          r := Ok(c.column + " = " + r.sql, r.args);
        }
      case Value(_) =>
        OneHole(c.value);
        SetTermText(c, [Hole(c.value)]);
        r := Ok(c.column + " = " + "?", [c.value]);
    }
  }

  lemma {:induction false} NothingJoined()
    ensures StringsJoin([], ", ") == Text(Joined<Arg>([], ", ")) && Args(Joined<Arg>([], ", ")) == []
  {}

  method SettersToSql(clauses: seq<SetClause>) returns (r: Built)
    ensures match All(SetTerms(clauses)) case None => r == Failed
            case Some(ts) => Is(r, Some(Joined(ts, ", ")))
  {
    hide SetTerm, Joined, StringsJoin, Text, Args;
    NothingJoined();
    var setSqls, args := [], [];
    ghost var ms := SetTerms(clauses);
    for i := 0 to |clauses|
      invariant |setSqls| == i && All(ms[..i]).Some?
      invariant StringsJoin(setSqls, ", ") == Text(Joined(All(ms[..i]).value, ", "))
      invariant args == Args(Joined(All(ms[..i]).value, ", "))
    {
      JoinedGrows(ms, setSqls, ", ", i);
      var term := SetTermToSql(clauses[i]);
      if term == Failed {
        return Failed;
      }
      args := args + term.args;
      setSqls := setSqls + [term.sql];
    }
    assert ms[..|clauses|] == ms;
    return Ok(StringsJoin(setSqls, ", "), args);
  }

  method WriteSetters(kw: string, clauses: seq<SetClause>, ghost cs: seq<ClauseDef>) returns (r: Built)
    requires |cs| > 0 && cs[0] == Setters(kw, clauses)
    ensures Wrote(cs, 1, r)
  {
    hide Wrote, Sequenced, Joined, Text, Args, Raw;
    WroteNothing(cs);
    r := SettersToSql(clauses);
    if r != Failed {
      Written(Raw(kw), Joined(All(SetTerms(clauses)).value, ", "));
      r := Ok(kw + r.sql, r.args);
    }
    WroteNext(cs, 0, Ok("", []), r);
  }

  method UpdateToSqlRaw(d: UpdateData) returns (r: Built)
    ensures Is(r, UpdateMeaning(d))
  {
    hide Wrote, Is, Sequenced;
    if d.table == "" || |d.setClauses| == 0 {
      NothingBuilt();
      return Failed;
    }
    ghost var cs := UpdateClauses(d);
    r := WriteSetters("UPDATE " + OptionsText(d.options) + d.table + " SET ", d.setClauses, cs);
    r := WriteKeyword(" WHERE ", d.whereParts, " AND ", r, cs, 1);
    r := WriteWords(" ORDER BY ", d.orderBys, ", ", r, cs, 2);
    r := WriteWords(" LIMIT ", NonBlank(d.limit), "", r, cs, 3);
    WroteAll(cs, r);
  }

  method DeleteToSqlRaw(d: DeleteData) returns (r: Built)
    ensures Is(r, DeleteMeaning(d))
  {
    hide Wrote, Is, Sequenced;
    if d.from == "" {
      NothingBuilt();
      return Failed;
    }
    ghost var cs := DeleteClauses(d);
    WroteNothing(cs);
    r := WriteWords("DELETE " + OptionsText(d.options) + "FROM ", [d.from], "", Ok("", []), cs, 0);
    r := WriteKeyword(" WHERE ", d.whereParts, " AND ", r, cs, 1);
    r := WriteWords(" ORDER BY ", d.orderBys, ", ", r, cs, 2);
    r := WriteWords(" LIMIT ", NonBlank(d.limit), "", r, cs, 3);
    WroteAll(cs, r);
  }

  /** What toSql hands to the database: the holes in the form the database wants. */
  ghost predicate Delivers(r: Built, f: PlaceholderFormat, m: Option<SqlParts>) {
    match m
    case None => r == Failed
    case Some(p) => r == Ok(if f.Question? then Text(p) else Numbered(Raw(Text(p)), Prefix(f), 0), Args(p))
  }

  method Deliver(f: PlaceholderFormat, raw: Built, ghost m: Option<SqlParts>) returns (r: Built)
    requires Is(raw, m)
    ensures Delivers(r, f, m)
  {
    if raw == Failed {
      return Failed;
    }
    var sql := ReplacePlaceholders(f, raw.sql);
    return Ok(sql, raw.args);
  }

  method SelectToSql(d: SelectData) returns (r: Built)
    ensures Delivers(r, d.format, SelectMeaning(d))
  {
    var raw := SelectToSqlRaw(d);
    r := Deliver(d.format, raw, SelectMeaning(d));
  }

  method UpdateToSql(d: UpdateData) returns (r: Built)
    ensures Delivers(r, d.format, UpdateMeaning(d))
  {
    var raw := UpdateToSqlRaw(d);
    r := Deliver(d.format, raw, UpdateMeaning(d));
  }

  method DeleteToSql(d: DeleteData) returns (r: Built)
    ensures Delivers(r, d.format, DeleteMeaning(d))
  {
    var raw := DeleteToSqlRaw(d);
    r := Deliver(d.format, raw, DeleteMeaning(d));
  }
}
