/** pkg/dbx: the rows a statement is about. */
module SqlRows {
  // A statement whose WHERE parts are conditions, read by a database: it finds a WHERE clause that is true of exactly
  // the rows for which every part holds.

  import opened Bytes
  import opened SqlPieces
  import opened SqlFragments
  import opened SqlExpressions
  import opened SqlStatements
  import opened SqlStatementSoundness
  import opened SqlReader
  import opened SqlSyntax
  import opened SqlConditions
  import opened SqlConditionLaw
  import opened SqlClauseReader
  import opened SqlClauses

  predicate Conditions(parts: seq<Sqlizer>) {
    forall i :: 0 <= i < |parts| ==> IsCondition(parts[i])
  }

  /** All parts that say something hold of the row. */
  ghost predicate AllHold(parts: seq<Sqlizer>, db: Database, row: Row) {
    forall i :: 0 <= i < |parts| ==> Says(parts[i]) ==> Holds(parts[i], db, row)
  }

  lemma {:induction false} PartsWritten(parts: seq<Sqlizer>)
    requires Conditions(parts) && CanBuild(parts)
    ensures KeptWritten(parts, BuiltParts(parts)) && |BuiltParts(parts)| == |parts| && AllBuilt(parts)
  {
    hide KeptWritten, WrittenAs, IsCondition, Meaning;
    BuiltAll(parts);
    var ts := BuiltParts(parts);
    forall i | 0 <= i < |ts| ensures WrittenAs(parts[i], ts[i]) {
      assert Meanings(parts)[i] == Some(ts[i]);
      ConditionTokens(parts[i]);
    }
    KeptTokens(parts, ts);
  }

  /** The text between WHERE and the next clause is a condition, true of the rows for which every part holds. */
  lemma {:induction false} WhereHolds(parts: seq<Sqlizer>, db: Database, row: Row)
    requires Conditions(parts) && CanBuild(parts) && SomeSay(parts) && FirstHasText(parts)
    ensures var c := ReadPieces(ListOf(parts, " AND "));
      c.Some? && (AnyTrue(db, row, c.value).True? <==> AllHold(parts, db, row))
  {
    hide IsCondition, Meaning, Tokens, ReadAny, AnyTrue, AllTrue, Together, SomeSay, AllTokens, Says, Holds;
    PartsWritten(parts);
    ListIs(parts, " AND ");
    PartsOk(parts);
    ReadsBack(Together(parts));
    PartsTruth(db, row, parts);
    OneAlternative(db, row, Together(parts));
  }

  // ---- such a clause can stand in front of any other

  predicate NoClauseWord(toks: seq<Token>) {
    forall t <- toks :: t.Word? ==> Upper(t.s) !in CLAUSE_WORDS
  }

  function Balance(toks: seq<Token>): int {
    if toks == [] then 0
    else (if toks[0] == Sign('(') then 1 else if toks[0] == Sign(')') then -1 else 0) + Balance(toks[1..])
  }

  lemma {:induction false} BalanceAppend(a: seq<Token>, b: seq<Token>)
    ensures Balance(a + b) == Balance(a) + Balance(b)
  {
    if a == [] {
      assert a + b == b;
    } else {
      assert (a + b)[0] == a[0] && (a + b)[1..] == a[1..] + b;
      BalanceAppend(a[1..], b);
    }
  }

  lemma {:induction false} TokensOfRest(first: Token, rest: seq<Token>)
    requires NoClauseWord([first] + rest)
    ensures NoClauseWord(rest) && (first.Word? ==> Upper(first.s) !in CLAUSE_WORDS)
    ensures Balance([first] + rest) == Balance([first]) + Balance(rest)
  {
    hide Upper, CLAUSE_WORDS;
    var toks := [first] + rest;
    assert toks[0] in toks && forall t <- rest :: t in toks;
    BalanceAppend([first], rest);
  }

  lemma {:induction false} BalanceOfOne(t: Token)
    ensures Balance([t]) == if t == Sign('(') then 1 else if t == Sign(')') then -1 else 0
  {
    assert [t][1..] == [];
  }

  /** Text whose words are no keywords of clauses starts none, and its parentheses are those of its tokens. */
  lemma {:induction false} QuietFromTokens(p: SqlParts, depth: int)
    requires NoClauseWord(Tokens(p))
    ensures Quiet(p, depth) && DepthAfter(p, depth) == depth + Balance(Tokens(p))
    decreases |p|
  {
    hide Upper, CLAUSE_WORDS, NoClauseWord, Text;
    if p != [] {
      OneClass(p[0]);
      if Belongs(InWord, p[0]) {
        var n := Run(InWord, p);
        NotBlank(InWord, p[0]);
        BalanceOfOne(Word(Text(p[..n])));
        TokensOfRest(Word(Text(p[..n])), Tokens(p[n..]));
        QuietFromTokens(p[n..], depth);
      } else {
        QuietOtherwise(p, depth);
      }
    }
  }

  lemma {:induction false} QuietOtherwise(p: SqlParts, depth: int)
    requires p != [] && !Belongs(InWord, p[0]) && NoClauseWord(Tokens(p))
    ensures Quiet(p, depth) && DepthAfter(p, depth) == depth + Balance(Tokens(p))
    decreases |p|, 0
  {
    hide Upper, CLAUSE_WORDS, NoClauseWord, Text;
    if Belongs(InOperator, p[0]) {
      var n := Run(InOperator, p);
      NotBlank(InOperator, p[0]);
      BalanceOfOne(Rel(Text(p[..n])));
      TokensOfRest(Rel(Text(p[..n])), Tokens(p[n..]));
      QuietFromTokens(p[n..], depth);
      OperatorsAreQuiet(p, n, depth);
    } else if p[0] == Lit(' ') {
      QuietFromTokens(p[1..], depth);
    } else {
      var t := if p[0].Hole? then Given(p[0].arg) else if p[0].Lit? then Sign(p[0].c) else Odd;
      BalanceOfOne(t);
      TokensOfRest(t, Tokens(p[1..]));
      QuietFromTokens(p[1..], depth + Deeper(p[0]));
    }
  }

  lemma {:induction false} OperatorsAreQuiet(p: SqlParts, n: nat, depth: int)
    requires n <= Run(InOperator, p) && Quiet(p[n..], depth)
    ensures Quiet(p, depth) && DepthAfter(p, depth) == DepthAfter(p[n..], depth)
    decreases n
  {
    hide Upper, CLAUSE_WORDS, Text;
    if n == 0 {
      assert p[0..] == p;
    } else {
      OneClass(p[0]);
      assert p[1..][n - 1..] == p[n..];
      OperatorsAreQuiet(p[1..], n - 1, depth);
      NoParenthesis(p[0]);
    }
  }

  lemma {:induction false} NoParenthesis(x: Piece<Arg>)
    requires Belongs(InOperator, x)
    ensures Deeper(x) == 0
  {}

  // ---- the words of conditions are no keywords of clauses

  predicate Plain(toks: seq<Token>) {
    NoClauseWord(toks) && Balance(toks) == 0
  }

  lemma {:induction false} PlainAppend(a: seq<Token>, b: seq<Token>)
    requires Plain(a) && Plain(b)
    ensures Plain(a + b)
  {
    hide Upper, CLAUSE_WORDS;
    BalanceAppend(a, b);
  }

  lemma {:induction false} PlainOne(t: Token)
    requires !t.Sign? || t == Sign(',')
    requires t.Word? ==> Upper(t.s) !in CLAUSE_WORDS
    ensures Plain([t])
  {
    hide Upper, CLAUSE_WORDS;
    BalanceOfOne(t);
  }

  lemma {:induction false} InsideParentheses(toks: seq<Token>)
    requires Plain(toks)
    ensures Plain([Sign('(')] + toks + [Sign(')')])
  {
    hide Upper, CLAUSE_WORDS;
    BalanceOfOne(Sign('('));
    BalanceOfOne(Sign(')'));
    BalanceAppend([Sign('(')], toks);
    BalanceAppend([Sign('(')] + toks, [Sign(')')]);
  }

  lemma {:induction false} ConditionWords()
    ensures Upper("AND") !in CLAUSE_WORDS && Upper("OR") !in CLAUSE_WORDS && Upper("NOT") !in CLAUSE_WORDS
    ensures Upper("IS") !in CLAUSE_WORDS && Upper("NULL") !in CLAUSE_WORDS && Upper("IN") !in CLAUSE_WORDS
    ensures Upper("LIKE") !in CLAUSE_WORDS && Upper("ILIKE") !in CLAUSE_WORDS
  {
    UpperStays("AND");
    UpperStays("OR");
    UpperStays("NOT");
    UpperStays("IS");
    UpperStays("NULL");
    UpperStays("IN");
    UpperStays("LIKE");
    UpperStays("ILIKE");
  }

  lemma {:induction false} LettersFirst(w: string)
    requires w in CLAUSE_WORDS
    ensures w != "" && 'A' <= w[0] <= 'Z'
  {}

  lemma {:induction false} SidePlain(o: Side)
    requires SideOk(o)
    ensures Plain([SideToken(o)])
  {
    match o
    case Column(name) =>
      assert CLAUSE_WORDS <= RESERVED;
      PlainOne(Word(name));
    case Number(digits) =>
      if Upper(digits) in CLAUSE_WORDS {
        LettersFirst(Upper(digits));
      }
      PlainOne(Word(digits));
    case Param(arg) => PlainOne(Given(arg));
  }

  lemma {:induction false} NotPlain(not: bool)
    ensures Plain(NotToken(not))
  {
    ConditionWords();
    PlainOne(Word("NOT"));
  }

  lemma {:induction false} ItemsPlain(items: seq<Side>)
    requires SidesOk(items)
    ensures Plain(ItemTokens(items))
  {
    hide Plain, SideOk;
    NothingPlain();
    if items != [] {
      assert items[0] in items && forall o <- items[1..] :: o in items;
      SidePlain(items[0]);
      if |items| > 1 {
        ItemsPlain(items[1..]);
        PlainOne(Sign(','));
        PlainAppend([SideToken(items[0])], [Sign(',')]);
        assert [SideToken(items[0])] + [Sign(',')] == [SideToken(items[0]), Sign(',')];
        PlainAppend([SideToken(items[0]), Sign(',')], ItemTokens(items[1..]));
      }
    }
  }

  lemma {:induction false} NothingPlain()
    ensures Plain([])
  {}

  lemma {:induction false} LeftPlain(left: Side, not: bool, word: string)
    requires SideOk(left) && Upper(word) !in CLAUSE_WORDS
    ensures Plain([SideToken(left)] + NotToken(not) + [Word(word)])
    ensures Plain([SideToken(left), Word(word)])
  {
    hide Plain, SideOk, Upper, CLAUSE_WORDS;
    SidePlain(left);
    NotPlain(not);
    PlainOne(Word(word));
    PlainAppend([SideToken(left)], NotToken(not));
    PlainAppend([SideToken(left)] + NotToken(not), [Word(word)]);
    PlainAppend([SideToken(left)], [Word(word)]);
    assert [SideToken(left)] + [Word(word)] == [SideToken(left), Word(word)];
  }

  lemma {:induction false} AtomPlain(a: Atom)
    requires AtomOk(a)
    ensures Plain(AtomTokens(a))
    decreases a
  {
    hide Plain, SideOk, Upper, CLAUSE_WORDS, SideToken, NotToken, ItemTokens, AnyTokens, AnyOk, SidesOk;
    ConditionWords();
    match a
    case Test(left, operator, right) =>
      SidePlain(left);
      PlainOne(Rel(operator));
      SidePlain(right);
      PlainAppend([SideToken(left)], [Rel(operator)]);
      PlainAppend([SideToken(left)] + [Rel(operator)], [SideToken(right)]);
      assert [SideToken(left)] + [Rel(operator)] + [SideToken(right)] == AtomTokens(a);
    case NullTest(left, not) =>
      LeftPlain(left, not, "IS");
      NotPlain(not);
      PlainOne(Word("NULL"));
      PlainAppend([SideToken(left), Word("IS")], NotToken(not));
      PlainAppend([SideToken(left), Word("IS")] + NotToken(not), [Word("NULL")]);
    case ListTest(left, not, items) =>
      LeftPlain(left, not, "IN");
      ItemsPlain(items);
      InsideParentheses(ItemTokens(items));
      var head, list := [SideToken(left)] + NotToken(not) + [Word("IN")], [Sign('(')] + ItemTokens(items) + [Sign(')')];
      PlainAppend(head, list);
      assert AtomTokens(a) == head + list;
    case LikeTest(left, not, anyCase, right) =>
      var like := if anyCase then "ILIKE" else "LIKE";
      LeftPlain(left, not, like);
      SidePlain(right);
      PlainAppend([SideToken(left)] + NotToken(not) + [Word(like)], [SideToken(right)]);
      assert AtomTokens(a) == [SideToken(left)] + NotToken(not) + [Word(like)] + [SideToken(right)];
    case Group(alternatives) =>
      AnyPlain(alternatives);
      InsideParentheses(AnyTokens(alternatives));
  }

  lemma {:induction false} AllPlainTokens(atoms: seq<Atom>)
    requires AllOk(atoms)
    ensures Plain(AllTokens(atoms))
    decreases atoms
  {
    hide Plain, AtomOk, AtomTokens, Upper, CLAUSE_WORDS;
    NothingPlain();
    ConditionWords();
    if atoms != [] {
      AtomPlain(atoms[0]);
      if |atoms| > 1 {
        AllPlainTokens(atoms[1..]);
        PlainOne(Word("AND"));
        PlainAppend(AtomTokens(atoms[0]), [Word("AND")]);
        PlainAppend(AtomTokens(atoms[0]) + [Word("AND")], AllTokens(atoms[1..]));
      }
    }
  }

  lemma {:induction false} AnyPlain(alternatives: seq<Terms>)
    requires AnyOk(alternatives)
    ensures Plain(AnyTokens(alternatives))
    decreases alternatives
  {
    hide Plain, AllOk, AllTokens, Upper, CLAUSE_WORDS;
    NothingPlain();
    ConditionWords();
    if alternatives != [] {
      AllPlainTokens(alternatives[0].atoms);
      if |alternatives| > 1 {
        AnyPlain(alternatives[1..]);
        PlainOne(Word("OR"));
        PlainAppend(AllTokens(alternatives[0].atoms), [Word("OR")]);
        PlainAppend(AllTokens(alternatives[0].atoms) + [Word("OR")], AnyTokens(alternatives[1..]));
      }
    }
  }

  lemma {:induction false} WhereIsClosed(parts: seq<Sqlizer>)
    requires Conditions(parts) && CanBuild(parts) && SomeSay(parts) && FirstHasText(parts)
    ensures Closed(ListOf(parts, " AND "))
  {
    hide IsCondition, Meaning, Tokens, Together, SomeSay, AllTokens, Says, NoClauseWord, Quiet;
    PartsWritten(parts);
    ListIs(parts, " AND ");
    PartsOk(parts);
    AllPlainTokens(Together(parts));
    QuietFromTokens(ListOf(parts, " AND "), 0);
  }

  // ---- and they do not end in a blank

  predicate Solid(p: SqlParts) {
    p != [] && !EndsBlank(p)
  }

  lemma {:induction false} SolidBehind(p: SqlParts, q: SqlParts)
    requires Solid(q)
    ensures Solid(p + q)
  {}

  lemma {:induction false} SolidText(text: string)
    requires text != "" && text[|text| - 1] != ' '
    ensures Solid(Lits(text))
  {
    LitsAt(text, |text| - 1);
  }

  lemma {:induction false} EqTermSolid(useNotOpr: bool, e: Entry)
    ensures EqTerm(useNotOpr, e).Some? ==> Solid(EqTerm(useNotOpr, e).value)
  {
    hide Raw, Lits, Holes, Solid;
    if Valued(e.value).Some? {
      match Dereferenced(Valued(e.value).value)
      case Null =>
        SolidText(if useNotOpr then " IS NOT NULL" else " IS NULL");
        SolidBehind(Raw(e.key), Lits(if useNotOpr then " IS NOT NULL" else " IS NULL"));
      case List(items) =>
        if items == [] {
          SolidText(if useNotOpr then SQL_TRUE else SQL_FALSE);
        } else {
          SolidText(")");
          SolidBehind(Raw(e.key) + Lits(if useNotOpr then " NOT IN (" else " IN (") + Holes(items), Lits(")"));
        }
      case o =>
        SolidHole(o.arg);
        SolidBehind(Raw(e.key) + Lits(if useNotOpr then " <> " else " = "), [Hole(o.arg)]);
    }
  }

  lemma {:induction false} SolidHole(a: Arg)
    ensures Solid([Hole(a)])
  {}

  lemma {:induction false} CompareTermSolid(o: Operator, e: Entry)
    ensures CompareTerm(o, e).Some? ==> Solid(CompareTerm(o, e).value)
  {
    hide Raw, Lits, Solid;
    var v := Valued(e.value);
    if v.Some? && !v.value.Null? && !v.value.List? {
      SolidHole(AsArg(v.value));
      SolidBehind(Raw(e.key) + Lits(" " + Symbol(o) + " "), [Hole(AsArg(v.value))]);
    }
  }

  lemma {:induction false} JoinedSolid(ts: seq<SqlParts>, sep: string)
    requires ts != [] && forall t <- ts :: Solid(t)
    ensures Solid(Joined(ts, sep))
  {
    hide Solid, Lits;
    var last := ts[|ts| - 1];
    assert last in ts;
    if |ts| > 1 {
      SolidBehind(Joined(ts[..|ts| - 1], sep) + Lits(sep), last);
    }
  }

  lemma {:induction false} TermsSolid(ms: seq<Option<SqlParts>>)
    requires ms != [] && forall i :: 0 <= i < |ms| && ms[i].Some? ==> Solid(ms[i].value)
    ensures JoinedTerms(All(ms)).Some? ==> Solid(JoinedTerms(All(ms)).value)
  {
    hide Solid;
    if All(ms).Some? {
      forall t <- All(ms).value ensures Solid(t) {
        var i :| 0 <= i < |ms| && All(ms).value[i] == t;
        assert ms[i] == Some(t);
      }
      JoinedSolid(All(ms).value, " AND ");
    }
  }

  lemma {:induction false} EqSolid(useNotOpr: bool, entries: seq<Entry>)
    ensures EqMeaning(useNotOpr, entries).Some? ==> Solid(EqMeaning(useNotOpr, entries).value)
  {
    hide Solid, Lits, EqTerm;
    if entries == [] {
      SolidText(SQL_TRUE);
    } else {
      var ms := seq(|entries|, i requires 0 <= i < |entries| => EqTerm(useNotOpr, entries[i]));
      forall i | 0 <= i < |ms| && ms[i].Some? ensures Solid(ms[i].value) {
        EqTermSolid(useNotOpr, entries[i]);
      }
      TermsSolid(ms);
    }
  }

  lemma {:induction false} CompareSolid(o: Operator, entries: seq<Entry>)
    requires entries != []
    ensures CompareMeaning(o, entries).Some? ==> Solid(CompareMeaning(o, entries).value)
  {
    hide Solid, CompareTerm;
    var ms := seq(|entries|, i requires 0 <= i < |entries| => CompareTerm(o, entries[i]));
    forall i | 0 <= i < |ms| && ms[i].Some? ensures Solid(ms[i].value) {
      CompareTermSolid(o, entries[i]);
    }
    TermsSolid(ms);
  }

  lemma {:induction false} JunctionSolid(t: Sqlizer)
    requires (t.And? || t.Or?) && Meaning(t).Some? && Meaning(t).value != []
    ensures Solid(Meaning(t).value)
  {
    hide Solid, Lits, Joined, NonEmpty;
    MeaningOfJunction(t);
    var ts := All(Meanings(t.conj)).value;
    SolidText(SQL_TRUE);
    SolidText(SQL_FALSE);
    SolidText(")");
    SolidBehind(Lits("(") + Joined(NonEmpty(ts), if t.And? then " AND " else " OR "), Lits(")"));
  }

  lemma {:induction false} NothingCompared(o: Operator)
    ensures CompareMeaning(o, []) == Some([])
  {}

  lemma {:induction false} ConditionSolid(t: Sqlizer)
    requires IsCondition(t) && Meaning(t).Some? && Meaning(t).value != []
    ensures Solid(Meaning(t).value)
  {
    hide Solid;
    match t
    case Eq(useNotOpr, entries) => EqSolid(useNotOpr, entries);
    case Compare(o, entries) =>
      NothingCompared(o);
      if entries != [] {
        CompareSolid(o, entries);
      }
    case And(conj) => JunctionSolid(t);
    case Or(conj) => JunctionSolid(t);
    case Part(pred, _) =>
      if pred.SqlPredicate? {
        ConditionSolid(pred.sqlizer);
      }
    case WherePart(pred, _) =>
      if pred.SqlPredicate? {
        ConditionSolid(pred.sqlizer);
      } else {
        EqSolid(false, pred.entries);
      }
    case _ =>
  }

  lemma {:induction false} WhereIsSolid(parts: seq<Sqlizer>)
    requires Conditions(parts) && CanBuild(parts) && SomeSay(parts) && FirstHasText(parts)
    ensures Solid(ListOf(parts, " AND "))
  {
    hide Solid, IsCondition, Meaning, Tokens, SomeSay, Says;
    PartsWritten(parts);
    ListIs(parts, " AND ");
    BuiltAll(parts);
    var ts := BuiltParts(parts);
    NoText();
    forall t <- NonEmpty(ts) ensures Solid(t) {
      assert t in ts && Text(t) != "";
      var i :| 0 <= i < |ts| && ts[i] == t;
      assert Meanings(parts)[i] == Some(t);
      ConditionSolid(parts[i]);
    }
    JoinedSolid(NonEmpty(ts), " AND ");
  }

  /** A WHERE clause of conditions can stand in front of any other clause. */
  lemma {:induction false} WhereIsTidy(parts: seq<Sqlizer>)
    requires Conditions(parts) && CanBuild(parts) && SomeSay(parts) && FirstHasText(parts)
    ensures Tidy(Section("WHERE", ListOf(parts, " AND ")))
  {
    hide Closed, IsClauseWord, ListOf;
    ClauseWords();
    WhereIsClosed(parts);
    WhereIsSolid(parts);
  }

  // ---- the rows

  function WhereOf(ss: seq<Section>): Option<SqlParts> {
    if ss == [] then None else if ss[0].word == "WHERE" then Some(ss[0].body) else WhereOf(ss[1..])
  }

  /**
   What a database makes of a statement: it is about the rows for which its WHERE clause is true, or about all rows.
   */
  ghost predicate IsAbout(sql: string, args: seq<Arg>, db: Database, row: Row, holds: bool) {
    match ReadStatement(sql, args)
    case None => false
    case Some(ss) =>
      match WhereOf(ss)
      case None => holds
      case Some(body) => ReadPieces(body).Some? && (AnyTrue(db, row, ReadPieces(body).value).True? <==> holds)
  }

  predicate NoWhere(ss: seq<Section>) {
    forall s <- ss :: s.word != "WHERE"
  }

  lemma {:induction false} NotFound(ss: seq<Section>)
    requires NoWhere(ss)
    ensures WhereOf(ss) == None
  {
    if ss != [] {
      assert ss[0] in ss && forall s <- ss[1..] :: s in ss;
      NotFound(ss[1..]);
    }
  }

  lemma {:induction false} WhereFound(front: seq<Section>, parts: seq<Sqlizer>, more: seq<Section>)
    requires NoWhere(front) && NoWhere(more)
    ensures WhereOf(front + (ListClause("WHERE", parts, " AND ") + more))
         == if parts == [] then None else Some(ListOf(parts, " AND "))
  {
    hide ListOf;
    var rest := ListClause("WHERE", parts, " AND ") + more;
    if front == [] {
      assert front + rest == rest;
      if parts == [] {
        assert rest == more;
        NotFound(more);
      }
    } else {
      assert front[0] in front && forall s <- front[1..] :: s in front;
      assert (front + rest)[0] == front[0] && (front + rest)[1..] == front[1..] + rest;
      WhereFound(front[1..], parts, more);
    }
  }

  /** Once the clauses are found: what the WHERE clause says. */
  lemma {:induction false} AboutItsRows(sql: string, args: seq<Arg>, front: seq<Section>, parts: seq<Sqlizer>,
                                        more: seq<Section>, db: Database, row: Row)
    requires ReadStatement(sql, args) == Some(front + (ListClause("WHERE", parts, " AND ") + more))
    requires NoWhere(front) && NoWhere(more)
    requires Conditions(parts) && CanBuild(parts) && FirstHasText(parts) && (parts == [] || SomeSay(parts))
    ensures IsAbout(sql, args, db, row, AllHold(parts, db, row))
  {
    hide Conditions, SomeSay, CanBuild, ListOf, ReadPieces, AnyTrue, ReadStatement;
    WhereFound(front, parts, more);
    if parts != [] {
      WhereHolds(parts, db, row);
    }
  }

  lemma {:induction false} Regrouped3(a: seq<Section>, b: seq<Section>, c: seq<Section>, e: seq<Section>)
    ensures a + (b + c + e) == a + (b + (c + e))
  {}

  /** A built DELETE whose parts are conditions is about exactly the rows for which all of them hold. */
  lemma {:induction false} DeleteIsAbout(d: DeleteData, r: Built, db: Database, row: Row)
    requires d.format.Question? && Delivers(r, d.format, DeleteMeaning(d)) && r.Ok? && DeleteMatched(d)
    requires FirstHasText(d.whereParts) && AllTidy(DeleteSections(d))
    requires Conditions(d.whereParts) && (d.whereParts == [] || SomeSay(d.whereParts))
    ensures IsAbout(r.sql, r.args, db, row, AllHold(d.whereParts, db, row))
  {
    hide Conditions, SomeSay, FirstHasText, AllTidy, DeleteMatched, CanBuild, ListClause, AllHold;
    hide IsAbout, ReadStatement;
    DeleteReadClauseByClause(d, r);
    var front := [Section("DELETE", if d.options == [] then [] else Options(d.options)), Section("FROM", Raw(d.from))];
    var orderBy, limit := ByClause("ORDER", d.orderBys), TextClause("LIMIT", d.limit);
    Regrouped3(front, ListClause("WHERE", d.whereParts, " AND "), orderBy, limit);
    AboutItsRows(r.sql, r.args, front, d.whereParts, orderBy + limit, db, row);
  }

  /** So is a built UPDATE. */
  lemma {:induction false} UpdateIsAbout(d: UpdateData, r: Built, db: Database, row: Row)
    requires d.format.Question? && Delivers(r, d.format, UpdateMeaning(d)) && r.Ok? && UpdateMatched(d)
    requires FirstHasText(d.whereParts) && All(SetTerms(d.setClauses)).Some? && AllTidy(UpdateSections(d))
    requires Conditions(d.whereParts) && (d.whereParts == [] || SomeSay(d.whereParts))
    ensures IsAbout(r.sql, r.args, db, row, AllHold(d.whereParts, db, row))
  {
    hide Conditions, SomeSay, FirstHasText, AllTidy, UpdateMatched, CanBuild, ListClause, AllHold;
    hide IsAbout, ReadStatement;
    hide Settings;
    UpdateReadClauseByClause(d, r);
    var front := [UpdateVerb(d), Section("SET", Settings(d.setClauses))];
    var orderBy, limit := ByClause("ORDER", d.orderBys), TextClause("LIMIT", d.limit);
    Regrouped3(front, ListClause("WHERE", d.whereParts, " AND "), orderBy, limit);
    AboutItsRows(r.sql, r.args, front, d.whereParts, orderBy + limit, db, row);
  }

  /** And so is what FROM and WHERE of a built SELECT take into account. */
  lemma {:induction false} SelectIsAbout(d: SelectData, r: Built, db: Database, row: Row)
    requires d.format.Question? && Delivers(r, d.format, SelectMeaning(d)) && r.Ok? && SelectMatched(d)
    requires FirstHasText(d.whereParts) && AllTidy(SelectSections(d))
    requires Conditions(d.whereParts) && (d.whereParts == [] || SomeSay(d.whereParts))
    ensures IsAbout(r.sql, r.args, db, row, AllHold(d.whereParts, db, row))
  {
    hide Conditions, SomeSay, FirstHasText, AllTidy, SelectMatched, CanBuild, ListClause, AllHold;
    hide IsAbout, ReadStatement;
    SelectReadClauseByClause(d, r);
    SelectSplit(d);
    var front, more := [SelectVerb(d)] + FromClause(d), BehindWhere(d);
    SelectRegrouped(d);
    NoWhereElsewhere(d);
    AboutItsRows(r.sql, r.args, front, d.whereParts, more, db, row);
  }

  function BehindWhere(d: SelectData): seq<Section> {
    ByClause("GROUP", d.groupBys) + ListClause("HAVING", d.havingParts, " AND ") + OrderClause(d.orderByParts)
    + TextClause("LIMIT", d.limit) + TextClause("OFFSET", d.offset)
  }

  lemma {:induction false} SelectRegrouped(d: SelectData)
    ensures [SelectVerb(d)] + (FromClause(d) + SelectTail(d))
         == [SelectVerb(d)] + FromClause(d) + (ListClause("WHERE", d.whereParts, " AND ") + BehindWhere(d))
  {
    hide ListClause, ByClause, TextClause, OrderClause, SelectVerb, FromClause;
    var w, g, h := ListClause("WHERE", d.whereParts, " AND "), ByClause("GROUP", d.groupBys),
                   ListClause("HAVING", d.havingParts, " AND ");
    var o, l, f := OrderClause(d.orderByParts), TextClause("LIMIT", d.limit), TextClause("OFFSET", d.offset);
    assert w + g + h + o + l + f == w + (g + h + o + l + f);
  }

  lemma {:induction false} NoWhereElsewhere(d: SelectData)
    ensures NoWhere([SelectVerb(d)] + FromClause(d)) && NoWhere(BehindWhere(d))
  {
    hide ListOf, Joins, SelectColumns;
  }
}
