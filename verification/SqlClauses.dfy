/** pkg/dbx: statements, read clause by clause. */
module SqlClauses {
  // What a database finds when it takes a built SELECT, UPDATE or DELETE apart at the keywords: the clauses that were
  // asked for, in the order of SQL, each with its own parts and arguments and nothing else.

  import opened Bytes
  import opened SqlPieces
  import opened SqlFragments
  import opened SqlExpressions
  import opened SqlPlaceholders
  import opened SqlStatements
  import opened SqlStatementSoundness
  import opened SqlReader
  import opened SqlClauseReader

  // ---- the clauses that are asked for

  /** The parts that can be built, in order. */
  function BuiltParts(parts: seq<Sqlizer>): seq<SqlParts> {
    match All(Meanings(parts)) case None => [] case Some(ts) => ts
  }

  /** The first part has text, or none has. */
  predicate FirstHasText(parts: seq<Sqlizer>) {
    var ts := BuiltParts(parts);
    ts == [] || Text(ts[0]) != "" || NonEmpty(ts) == []
  }

  /**
   A list: its parts with the separator between them; parts without text are left out. When the first part is one of
   these, the code leaves its separator in front of the list.
   */
  function ListOf(parts: seq<Sqlizer>, sep: string): SqlParts {
    (if FirstHasText(parts) then [] else Lits(sep)) + Joined(NonEmpty(BuiltParts(parts)), sep)
  }

  lemma {:induction false} ListIs(parts: seq<Sqlizer>, sep: string)
    requires FirstHasText(parts)
    ensures ListOf(parts, sep) == Joined(NonEmpty(BuiltParts(parts)), sep)
  {
    var list := Joined(NonEmpty(BuiltParts(parts)), sep);
    assert [] + list == list;
  }

  function ListClause(word: string, parts: seq<Sqlizer>, sep: string): seq<Section> {
    if parts == [] then [] else [Section(word, ListOf(parts, sep))]
  }

  function TextClause(word: string, text: string): seq<Section> {
    if text == "" then [] else [Section(word, Raw(text))]
  }

  function ByClause(word: string, words: seq<string>): seq<Section> {
    if words == [] then [] else [Section(word, Lits("BY ") + Raw(StringsJoin(words, ", ")))]
  }

  function Options(options: seq<string>): SqlParts {
    Raw(StringsJoin(options, " "))
  }

  function SelectSections(d: SelectData): seq<Section> {
    var columns := (if d.options == [] then [] else Options(d.options) + Lits(" ")) + ListOf(d.columns, ", ");
    var joins := if d.joins == [] then [] else Lits(" ") + ListOf(d.joins, " ");
    (match d.from
     case None => [Section("SELECT", columns + joins)]
     case Some(from) => [Section("SELECT", columns), Section("FROM", ListOf([from], "") + joins)])
    + (ListClause("WHERE", d.whereParts, " AND ") + ByClause("GROUP", d.groupBys)
       + ListClause("HAVING", d.havingParts, " AND ")
       + (if d.orderByParts == [] then [] else [Section("ORDER", Lits("BY ") + ListOf(d.orderByParts, ", "))])
       + TextClause("LIMIT", d.limit) + TextClause("OFFSET", d.offset))
  }

  /** SET: each column with its value, an argument or an expression of its own. */
  function Settings(clauses: seq<SetClause>): SqlParts
    requires All(SetTerms(clauses)).Some?
  {
    Joined(All(SetTerms(clauses)).value, ", ")
  }

  function UpdateSections(d: UpdateData): seq<Section>
    requires All(SetTerms(d.setClauses)).Some?
  {
    [Section("UPDATE", (if d.options == [] then [] else Options(d.options) + Lits(" ")) + Raw(d.table)),
     Section("SET", Settings(d.setClauses))]
    + (ListClause("WHERE", d.whereParts, " AND ") + ByClause("ORDER", d.orderBys) + TextClause("LIMIT", d.limit))
  }

  function DeleteSections(d: DeleteData): seq<Section> {
    [Section("DELETE", if d.options == [] then [] else Options(d.options)), Section("FROM", Raw(d.from))]
    + (ListClause("WHERE", d.whereParts, " AND ") + ByClause("ORDER", d.orderBys) + TextClause("LIMIT", d.limit))
  }

  // ---- lists

  lemma {:induction false} NonEmptySnoc<A>(ts: seq<Pieces<A>>, t: Pieces<A>)
    ensures NonEmpty(ts + [t]) == if Text(t) == "" then NonEmpty(ts) else NonEmpty(ts) + [t]
  {
    assert (ts + [t])[..|ts|] == ts;
  }

  lemma {:induction false} NoneKept<A>(ts: seq<Pieces<A>>, sep: string)
    requires NonEmpty(ts) == []
    ensures Clause(ts, sep) == []
  {
    if ts != [] {
      NoneKept(ts[..|ts| - 1], sep);
    }
  }

  lemma {:induction false} FirstKept<A>(ts: seq<Pieces<A>>)
    requires ts != [] && Text(ts[0]) != ""
    ensures NonEmpty(ts) != []
  {
    if |ts| > 1 {
      FirstKept(ts[..|ts| - 1]);
    }
  }

  lemma {:induction false} ClauseIsList<A>(ts: seq<Pieces<A>>, sep: string)
    requires ts != [] && Text(ts[0]) != ""
    ensures Clause(ts, sep) == Joined(NonEmpty(ts), sep)
  {
    var n := |ts| - 1;
    var before, last := ts[..n], ts[n];
    assert before + [last] == ts;
    NonEmptySnoc(before, last);
    if n == 0 {
      assert Clause(before, sep) == [] && [] + last == last && NonEmpty(before) == [] && [] + [last] == [last];
    } else {
      ClauseIsList(before, sep);
      FirstKept(before);
      if Text(last) == "" {
        assert Clause(before, sep) + [] == Clause(before, sep);
      } else {
        var kept := NonEmpty(before);
        assert (kept + [last])[..|kept|] == kept;
        Reassociate(Joined(kept, sep), Lits(sep), last);
      }
    }
  }

  /** Otherwise a separator stands in front of the list: the clause reads as something else. */
  lemma {:induction false} SeparatorInFront<A>(ts: seq<Pieces<A>>, sep: string)
    requires ts != [] && Text(ts[0]) == "" && NonEmpty(ts) != []
    ensures Clause(ts, sep) == Lits(sep) + Joined(NonEmpty(ts), sep)
  {
    hide Clause, Joined, NonEmpty, Lits;
    var n := |ts| - 1;
    var before, last := ts[..n], ts[n];
    assert before + [last] == ts;
    NonEmptySnoc(before, last);
    ClauseSnoc(before, last, sep);
    EmptyLists<A>(sep);
    if NonEmpty(before) == [] {
      NoneKept(before, sep);
      JustOne(last, sep);
      assert [] + (Lits(sep) + last) == Lits(sep) + last;
      assert NonEmpty(before) + [last] == [last];
    } else {
      SeparatorInFront(before, sep);
      if Text(last) == "" {
        assert Clause(before, sep) + [] == Clause(before, sep);
      } else {
        OneMoreBehind(NonEmpty(before), last, sep);
      }
    }
  }

  lemma {:induction false} ClauseSnoc<A>(ts: seq<Pieces<A>>, t: Pieces<A>, sep: string)
    ensures Clause(ts + [t], sep) == Clause(ts, sep) + ClauseItem(t, ts == [], sep)
  {
    assert (ts + [t])[..|ts|] == ts;
  }

  lemma {:induction false} EmptyLists<A>(sep: string)
    ensures NonEmpty<A>([]) == [] && Clause<A>([], sep) == []
  {}

  lemma {:induction false} JustOne<A>(t: Pieces<A>, sep: string)
    ensures Joined([t], sep) == t
  {}

  lemma {:induction false} ListWritten(parts: seq<Sqlizer>, sep: string)
    requires All(Meanings(parts)).Some?
    ensures Clause(All(Meanings(parts)).value, sep) == ListOf(parts, sep)
  {
    hide Clause, Joined, Lits;
    var ts := All(Meanings(parts)).value;
    if FirstHasText(parts) {
      ListIs(parts, sep);
      if ts != [] && Text(ts[0]) != "" {
        ClauseIsList(ts, sep);
      } else {
        NoneKept(ts, sep);
        NothingJoined<Arg>(sep);
      }
    } else {
      SeparatorInFront(ts, sep);
    }
  }

  lemma {:induction false} NothingJoined<A>(sep: string)
    ensures Joined<A>([], sep) == []
  {}

  /** A clause is the list of its parts if and only if the first of them has text or none has. */
  lemma {:induction false} ClauseIsListExactlyWhen(parts: seq<Sqlizer>, sep: string)
    requires All(Meanings(parts)).Some? && sep != ""
    ensures Clause(All(Meanings(parts)).value, sep) == Joined(NonEmpty(BuiltParts(parts)), sep) <==> FirstHasText(parts)
  {
    ListWritten(parts, sep);
    if FirstHasText(parts) {
      ListIs(parts, sep);
    } else {
      assert |ListOf(parts, sep)| == |sep| + |Joined(NonEmpty(BuiltParts(parts)), sep)|;
    }
  }

  lemma {:induction false} OneMoreBehind<A>(kept: seq<Pieces<A>>, last: Pieces<A>, sep: string)
    requires kept != []
    ensures Lits(sep) + Joined(kept, sep) + (Lits(sep) + last) == Lits(sep) + Joined(kept + [last], sep)
  {
    hide Lits;
    assert (kept + [last])[..|kept|] == kept;
    var l, j: Pieces<A> := Lits(sep), Joined(kept, sep);
    assert l + j + (l + last) == l + (j + l + last);
  }

  // ---- texts side by side

  /** The first piece of a text, and how many characters it takes. */
  function FirstPiece(s: string): Piece<Arg>
    requires s != ""
  {
    if StartsEscape(s) then Mark else if s[0] == '?' then Unbound else Lit(s[0])
  }

  function Step(s: string): (n: nat)
    requires s != ""
    ensures 0 < n <= |s|
  {
    if StartsEscape(s) then 2 else 1
  }

  lemma {:induction false} RawAppend(a: string, b: string)
    requires b == "" || b[0] != '?'
    ensures Raw(a + b) == Raw(a) + Raw(b)
  {
    hide Raw, FirstPiece, Step, StartsEscape;
    if a == "" {
      assert a + b == b;
      RawNothing();
      assert [] + Raw(b) == Raw(b);
    } else {
      var n := Step(a);
      RawFirst(a + b);
      RawFirst(a);
      SameStart(a, b);
      RawAppend(a[n..], b);
      Reassociate([FirstPiece(a)], Raw(a[n..]), Raw(b));
    }
  }

  lemma {:induction false} SameStart(a: string, b: string)
    requires a != "" && (b == "" || b[0] != '?')
    ensures FirstPiece(a + b) == FirstPiece(a) && Step(a + b) == Step(a) && (a + b)[Step(a)..] == a[Step(a)..] + b
  {
    if |a| >= 2 {
      assert (a + b)[0] == a[0] && (a + b)[1] == a[1];
    } else if b != "" {
      assert (a + b)[1] == b[0];
    }
  }

  lemma {:induction false} RawNothing()
    ensures Raw("") == []
  {
    FillRest<Arg>("", [], []);
  }

  lemma {:induction false} RawFirst(s: string)
    requires s != ""
    ensures Raw(s) == [FirstPiece(s)] + Raw(s[Step(s)..])
  {
    if s[0] == '?' {
      RawAtMark(s);
    } else {
      RawCopies(s, 1);
      assert s[..1] == [s[0]];
      assert Lits<Arg>([s[0]]) == [Lit(s[0])];
    }
  }

  lemma {:induction false} RawLits(s: string)
    requires '?' !in s
    ensures Raw(s) == Lits(s)
  {
    assert s[..|s|] == s && s[|s|..] == "";
    RawCopies(s, |s|);
    RawNothing();
    assert Lits<Arg>(s) + [] == Lits(s);
  }

  lemma {:induction false} BlankLit()
    ensures Lits<Arg>(" ") == [Lit(' ')]
  {}

  lemma {:induction false} WordIsPlain(word: string)
    requires IsClauseWord(word)
    ensures '?' !in word
  {
    hide Upper;
  }

  /** " WORD " as pieces. */
  lemma {:induction false} KeywordPieces(word: string)
    requires IsClauseWord(word)
    ensures Raw(" " + word + " ") == [Lit(' ')] + Lits(word) + [Lit(' ')]
  {
    WordIsPlain(word);
    RawLits(" " + word + " ");
    LitsAppend<Arg>(" " + word, " ");
    LitsAppend<Arg>(" ", word);
    BlankLit();
  }

  lemma {:induction false} BehindOne(s: Section)
    ensures Behind([s]) == [Lit(' ')] + Lits(s.word) + [Lit(' ')] + s.body
  {
    assert [s][1..] == [];
    var a, b, c: SqlParts := [Lit(' ')], Lits(s.word), [Lit(' ')];
    Regroup(a, b + c, s.body);
    Regroup(a, b, c);
    assert a + (b + c + s.body) + [] == a + (b + c + s.body);
  }

  // ---- one clause

  lemma {:induction false} ListClauseWritten(word: string, parts: seq<Sqlizer>, sep: string)
    requires IsClauseWord(word)
    ensures var m := MeaningOf(Keyword(" " + word + " ", parts, sep));
      m.Some? ==> m.value == Behind(ListClause(word, parts, sep))
  {
    hide IsClauseWord, FirstHasText;
    var m := MeaningOf(Keyword(" " + word + " ", parts, sep));
    if m.Some? && parts != [] {
      ListWritten(parts, sep);
      KeywordPieces(word);
      BehindOne(Section(word, ListOf(parts, sep)));
    }
  }

  lemma {:induction false} TextClauseWritten(word: string, text: string)
    requires IsClauseWord(word)
    ensures MeaningOf(Words(" " + word + " ", NonBlank(text), "")) == Some(Behind(TextClause(word, text)))
  {
    hide IsClauseWord;
    if text != "" {
      KeywordPieces(word);
      BehindOne(Section(word, Raw(text)));
    }
  }

  lemma {:induction false} ByPieces(word: string, body: SqlParts)
    requires IsClauseWord(word)
    ensures Raw(" " + word + " BY ") + body == Behind([Section(word, Lits("BY ") + body)])
  {
    WordIsPlain(word);
    assert " " + word + " BY " == " " + word + " " + "BY ";
    RawAppend(" " + word + " ", "BY ");
    KeywordPieces(word);
    RawLits("BY ");
    BehindOne(Section(word, Lits("BY ") + body));
    Regroup([Lit(' ')] + Lits(word) + [Lit(' ')], Lits("BY "), body);
  }

  lemma {:induction false} ByClauseWritten(word: string, words: seq<string>)
    requires IsClauseWord(word)
    ensures MeaningOf(Words(" " + word + " BY ", words, ", ")) == Some(Behind(ByClause(word, words)))
  {
    hide IsClauseWord;
    if words != [] {
      ByPieces(word, Raw(StringsJoin(words, ", ")));
    }
  }

  lemma {:induction false} OrderIsWord()
    ensures IsClauseWord("ORDER") && " " + "ORDER" + " BY " == " ORDER BY "
  {
    UpperStays("ORDER");
  }

  lemma {:induction false} NothingBehind()
    ensures Behind([]) == []
  {}

  lemma {:induction false} OrderPartsWritten(parts: seq<Sqlizer>)
    ensures var m := MeaningOf(Keyword(" ORDER BY ", parts, ", "));
      m.Some? ==>
        m.value == Behind(if parts == [] then [] else [Section("ORDER", Lits("BY ") + ListOf(parts, ", "))])
  {
    hide IsClauseWord, Raw, Lits, ListOf, Clause, Behind;
    OrderIsWord();
    var m := MeaningOf(Keyword(" ORDER BY ", parts, ", "));
    if m.Some? && parts != [] {
      ListWritten(parts, ", ");
      ByPieces("ORDER", ListOf(parts, ", "));
    } else {
      NothingBehind();
    }
  }

  // ---- all clauses of a statement behind its first

  lemma {:induction false} FlatFirst(ts: seq<SqlParts>)
    requires ts != []
    ensures Flat(ts) == ts[0] + Flat(ts[1..])
  {
    var n := |ts| - 1;
    if n == 0 {
      assert ts[..0] == [] && ts[1..] == [];
      assert [] + ts[0] == ts[0] + [];
    } else {
      FlatFirst(ts[..n]);
      assert ts[..n][1..] == ts[1..][..n - 1] && ts[1..][n - 1] == ts[n];
      Reassociate(ts[0], Flat(ts[1..][..n - 1]), ts[n]);
    }
  }

  function AllOf(sss: seq<seq<Section>>): seq<Section> {
    if sss == [] then [] else sss[0] + AllOf(sss[1..])
  }

  lemma {:induction false} AllWritten(ts: seq<SqlParts>, sss: seq<seq<Section>>)
    requires |ts| == |sss| && forall i :: 0 <= i < |ts| ==> ts[i] == Behind(sss[i])
    ensures Flat(ts) == Behind(AllOf(sss))
    decreases |ts|
  {
    if ts != [] {
      FlatFirst(ts);
      forall i | 0 <= i < |ts| - 1 ensures ts[1..][i] == Behind(sss[1..][i]) {
        assert ts[1..][i] == ts[i + 1];
      }
      AllWritten(ts[1..], sss[1..]);
      BehindAppend(sss[0], AllOf(sss[1..]));
    }
  }

  // ---- the heads of the statements

  lemma {:induction false} RawBehindPlain(a: string, b: string)
    requires '?' !in a
    ensures Raw(a + b) == Lits(a) + Raw(b)
  {
    assert (a + b)[..|a|] == a && (a + b)[|a|..] == b;
    RawCopies(a + b, |a|);
  }

  lemma {:induction false} RawBlankBetween(a: string, b: string)
    ensures Raw(a + " " + b) == Raw(a) + Lits(" ") + Raw(b)
  {
    assert a + " " + b == a + (" " + b);
    RawAppend(a, " " + b);
    RawBehindPlain(" ", b);
    Regroup(Raw(a), Lits(" "), Raw(b));
  }

  function OptionsPieces(options: seq<string>): SqlParts {
    if options == [] then [] else Options(options) + Lits(" ")
  }

  /** "VERB options rest" */
  lemma {:induction false} HeadPieces(verb: string, options: seq<string>, rest: string)
    requires IsClauseWord(verb)
    ensures Raw(verb + " " + OptionsText(options) + rest)
         == Lits(verb) + [Lit(' ')] + (OptionsPieces(options) + Raw(rest))
  {
    hide Raw, Lits, IsClauseWord;
    WordIsPlain(verb);
    NoMarkAdded(verb);
    var more := OptionsText(options) + rest;
    assert verb + " " + OptionsText(options) + rest == verb + " " + more;
    RawBehindPlain(verb + " ", more);
    LitsAppend<Arg>(verb, " ");
    BlankLit();
    if options == [] {
      assert more == rest && OptionsPieces(options) + Raw(rest) == Raw(rest);
    } else {
      assert more == StringsJoin(options, " ") + " " + rest;
      RawBlankBetween(StringsJoin(options, " "), rest);
    }
  }

  lemma {:induction false} NoMarkAdded(verb: string)
    requires '?' !in verb
    ensures '?' !in verb + " "
  {}

  lemma {:induction false} ClauseTextIs(s: Section, body: SqlParts)
    requires s.body == body
    ensures ClauseText(s) == Lits(s.word) + [Lit(' ')] + body
  {}

  // ---- DELETE

  function DeleteOptions(options: seq<string>): SqlParts {
    if options == [] then [] else Options(options)
  }

  /** "DELETE options FROM table" */
  lemma {:induction false} DeleteHead(options: seq<string>, from: string)
    ensures var verb := Section("DELETE", DeleteOptions(options));
      Raw("DELETE " + OptionsText(options) + "FROM ") + Raw(from)
      == (if options == [] then Lits("DELETE") else ClauseText(verb)) + Behind([Section("FROM", Raw(from))])
  {
    hide Raw, Lits, ClauseText, Behind, OptionsText, Options;
    BehindOne(Section("FROM", Raw(from)));
    var keyword := [Lit(' ')] + Lits("FROM") + [Lit(' ')];
    if options == [] {
      DeleteFromText();
      Regroup(Lits("DELETE"), keyword, Raw(from));
    } else {
      DeleteOptionsText(options);
      ClauseTextIs(Section("DELETE", DeleteOptions(options)), Options(options));
      Regroup(Lits("DELETE") + [Lit(' ')] + Options(options), keyword, Raw(from));
    }
  }

  lemma {:induction false} FromIsWord()
    ensures IsClauseWord("FROM") && " " + "FROM" + " " == " FROM "
  {
    UpperStays("FROM");
  }

  lemma {:induction false} DeleteFromText()
    ensures Raw("DELETE " + OptionsText([]) + "FROM ") == Lits("DELETE") + ([Lit(' ')] + Lits("FROM") + [Lit(' ')])
  {
    hide Raw, Lits, IsClauseWord;
    FromIsWord();
    KeywordPieces("FROM");
    assert "DELETE " + "" + "FROM " == "DELETE" + " FROM ";
    RawBehindPlain("DELETE", " FROM ");
  }

  lemma {:induction false} DeleteOptionsText(options: seq<string>)
    requires options != []
    ensures Raw("DELETE " + OptionsText(options) + "FROM ")
         == Lits("DELETE") + [Lit(' ')] + Options(options) + ([Lit(' ')] + Lits("FROM") + [Lit(' ')])
  {
    hide Raw, Lits, IsClauseWord;
    FromIsWord();
    KeywordPieces("FROM");
    BlankLit();
    var text := StringsJoin(options, " ");
    assert "DELETE " + (text + " ") + "FROM " == "DELETE " + (text + " FROM ");
    RawBehindPlain("DELETE ", text + " FROM ");
    RawAppend(text, " FROM ");
    LitsAppend<Arg>("DELETE", " ");
    assert "DELETE" + " " == "DELETE ";
    Regroup(Lits("DELETE") + [Lit(' ')], Raw(text), [Lit(' ')] + Lits("FROM") + [Lit(' ')]);
  }

  predicate CanBuild(parts: seq<Sqlizer>) {
    forall i :: 0 <= i < |parts| ==> Meaning(parts[i]).Some?
  }

  lemma {:induction false} BuiltAll(parts: seq<Sqlizer>)
    ensures All(Meanings(parts)).Some? <==> CanBuild(parts)
  {
    AllOrNone(Meanings(parts));
    if !CanBuild(parts) {
      var i :| 0 <= i < |parts| && Meaning(parts[i]).None?;
      assert Meanings(parts)[i] == None;
    }
  }

  /** What a statement read from its text and arguments consists of. */
  function ReadStatement(sql: string, args: seq<Arg>): Option<seq<Section>> {
    match Bind(sql, args)
    case None => None
    case Some(p) => Clauses(p)
  }

  lemma {:induction false} WhereIsWord()
    ensures IsClauseWord("WHERE") && " " + "WHERE" + " " == " WHERE "
  {
    UpperStays("WHERE");
  }

  lemma {:induction false} WhereWritten(parts: seq<Sqlizer>)
    requires CanBuild(parts)
    ensures MeaningOf(Keyword(" WHERE ", parts, " AND ")) == Some(Behind(ListClause("WHERE", parts, " AND ")))
  {
    hide Behind, ListClause, CanBuild, Raw, IsClauseWord, MeaningOf;
    WhereIsWord();
    KeywordBuilt(Keyword(" WHERE ", parts, " AND "));
    ListClauseWritten("WHERE", parts, " AND ");
  }

  lemma {:induction false} HavingIsWord()
    ensures IsClauseWord("HAVING") && " " + "HAVING" + " " == " HAVING "
  {
    UpperStays("HAVING");
  }

  lemma {:induction false} HavingWritten(parts: seq<Sqlizer>)
    requires CanBuild(parts)
    ensures MeaningOf(Keyword(" HAVING ", parts, " AND ")) == Some(Behind(ListClause("HAVING", parts, " AND ")))
  {
    hide Behind, ListClause, CanBuild, Raw, IsClauseWord, MeaningOf;
    HavingIsWord();
    KeywordBuilt(Keyword(" HAVING ", parts, " AND "));
    ListClauseWritten("HAVING", parts, " AND ");
  }

  lemma {:induction false} OrderByWritten(words: seq<string>)
    ensures MeaningOf(Words(" ORDER BY ", words, ", ")) == Some(Behind(ByClause("ORDER", words)))
  {
    hide Behind, ByClause, Raw, IsClauseWord, MeaningOf;
    ClauseWords();
    ByClauseWritten("ORDER", words);
    assert " " + "ORDER" + " BY " == " ORDER BY ";
  }

  lemma {:induction false} GroupByWritten(words: seq<string>)
    ensures MeaningOf(Words(" GROUP BY ", words, ", ")) == Some(Behind(ByClause("GROUP", words)))
  {
    hide Behind, ByClause, Raw, IsClauseWord, MeaningOf;
    ClauseWords();
    ByClauseWritten("GROUP", words);
    assert " " + "GROUP" + " BY " == " GROUP BY ";
  }

  lemma {:induction false} LimitWritten(text: string)
    ensures MeaningOf(Words(" LIMIT ", NonBlank(text), "")) == Some(Behind(TextClause("LIMIT", text)))
  {
    hide Behind, TextClause, Raw, IsClauseWord, MeaningOf, NonBlank;
    ClauseWords();
    TextClauseWritten("LIMIT", text);
    assert " " + "LIMIT" + " " == " LIMIT ";
  }

  lemma {:induction false} OffsetWritten(text: string)
    ensures MeaningOf(Words(" OFFSET ", NonBlank(text), "")) == Some(Behind(TextClause("OFFSET", text)))
  {
    hide Behind, TextClause, Raw, IsClauseWord, MeaningOf, NonBlank;
    ClauseWords();
    TextClauseWritten("OFFSET", text);
    assert " " + "OFFSET" + " " == " OFFSET ";
  }

  lemma {:induction false} AllPresent(ms: seq<Option<SqlParts>>, ts: seq<SqlParts>)
    requires |ms| == |ts| && forall i :: 0 <= i < |ms| ==> ms[i] == Some(ts[i])
    ensures All(ms) == Some(ts)
  {
    AllOrNone(ms);
    assert forall i :: 0 <= i < |ms| ==> ms[i].Some?;
    assert All(ms).value == ts;
  }

  function DeleteTail(d: DeleteData): seq<Section> {
    ListClause("WHERE", d.whereParts, " AND ") + ByClause("ORDER", d.orderBys) + TextClause("LIMIT", d.limit)
  }

  lemma {:induction false} DeletePieces(d: DeleteData)
    requires d.from != "" && CanBuild(d.whereParts)
    ensures DeleteMeaning(d).Some?
    ensures var first := Section("DELETE", DeleteOptions(d.options));
      DeleteMeaning(d).value == (if d.options == [] then Lits("DELETE") else ClauseText(first))
                                + Behind([Section("FROM", Raw(d.from))] + DeleteTail(d))
  {
    hide Raw, Lits, Behind, ListClause, ByClause, TextClause, ClauseText, CanBuild, MeaningOf;
    var cs := DeleteClauses(d);
    var head := Raw("DELETE " + OptionsText(d.options) + "FROM ") + Raw(d.from);
    var where, orderBy := ListClause("WHERE", d.whereParts, " AND "), ByClause("ORDER", d.orderBys);
    var limit := TextClause("LIMIT", d.limit);
    DeleteFrom(d);
    WhereWritten(d.whereParts);
    OrderByWritten(d.orderBys);
    LimitWritten(d.limit);
    var behind := [Behind(where), Behind(orderBy), Behind(limit)];
    AllPresent(MeaningsOf(cs), [head] + behind);
    FlatFirst([head] + behind);
    assert ([head] + behind)[1..] == behind;
    AllWritten(behind, [where, orderBy, limit]);
    ThreeOf(where, orderBy, limit);
    DeleteHead(d.options, d.from);
    var from := [Section("FROM", Raw(d.from))];
    BehindAppend(from, DeleteTail(d));
    var verb := if d.options == [] then Lits("DELETE") else ClauseText(Section("DELETE", DeleteOptions(d.options)));
    Regroup(verb, Behind(from), Behind(DeleteTail(d)));
  }

  lemma {:induction false} AllOfCons(first: seq<Section>, more: seq<seq<Section>>)
    ensures AllOf([first] + more) == first + AllOf(more)
  {
    assert ([first] + more)[1..] == more;
  }

  lemma {:induction false} ThreeOf(a: seq<Section>, b: seq<Section>, c: seq<Section>)
    ensures AllOf([a, b, c]) == a + b + c
  {
    hide AllOf;
    NoneOf();
    AllOfCons(c, []);
    AllOfCons(b, [c]);
    AllOfCons(a, [b, c]);
    assert [c] + [] == [c] && [b] + [c] == [b, c] && [a] + [b, c] == [a, b, c];
    assert a + (b + (c + [])) == a + b + c;
  }

  lemma {:induction false} NoneOf()
    ensures AllOf([]) == []
  {}

  lemma {:induction false} DeleteFrom(d: DeleteData)
    requires d.from != ""
    ensures MeaningOf(DeleteClauses(d)[0]) == Some(Raw("DELETE " + OptionsText(d.options) + "FROM ") + Raw(d.from))
  {}

  /**
   A database that takes a built DELETE apart finds: the options behind DELETE, the table behind FROM, exactly the WHERE
   parts that have text, in order and with their arguments, then ORDER BY and LIMIT with theirs, and nothing else.
   */
  lemma {:induction false} DeleteReadClauseByClause(d: DeleteData, r: Built)
    requires d.format.Question? && Delivers(r, d.format, DeleteMeaning(d)) && DeleteMatched(d)
    requires AllTidy(DeleteSections(d))
    ensures r.Ok? <==> d.from != "" && CanBuild(d.whereParts)
    ensures r.Ok? ==> ReadStatement(r.sql, r.args) == Some(DeleteSections(d))
  {
    hide Raw, Lits, Behind, ClauseText, CanBuild, DeleteMatched, AllTidy, Clauses, Sequenced, Tidy;
    hide DeleteTail;
    DeleteBuilt(d);
    if r.Ok? {
      DeleteReadsAsMeant(d, r);
      DeleteClausesFound(d);
    }
  }

  lemma {:induction false} DeleteClausesFound(d: DeleteData)
    requires DeleteMeaning(d).Some? && AllTidy(DeleteSections(d))
    ensures Clauses(DeleteMeaning(d).value) == Some(DeleteSections(d))
  {
    hide Raw, Lits, Behind, ClauseText, CanBuild, AllTidy, Clauses, Sequenced, DeleteTail, Tidy;
    DeleteBuilt(d);
    DeletePieces(d);
    var first, more := Section("DELETE", DeleteOptions(d.options)), [Section("FROM", Raw(d.from))] + DeleteTail(d);
    DeleteSplit(d);
    TidySplit(first, more);
    ClausesFoundAgain(first, more);
  }

  lemma {:induction false} DeleteSplit(d: DeleteData)
    ensures DeleteSections(d)
         == [Section("DELETE", DeleteOptions(d.options))] + ([Section("FROM", Raw(d.from))] + DeleteTail(d))
  {
    hide DeleteOptions;
    DeleteOptionsAre(d.options);
    InFront(Section("DELETE", DeleteOptions(d.options)), Section("FROM", Raw(d.from)), DeleteTail(d));
  }

  lemma {:induction false} DeleteOptionsAre(options: seq<string>)
    ensures DeleteOptions(options) == if options == [] then [] else Options(options)
  {}

  lemma {:induction false} InFront(a: Section, b: Section, more: seq<Section>)
    ensures [a, b] + more == [a] + ([b] + more)
  {}

  lemma {:induction false} TidySplit(first: Section, more: seq<Section>)
    requires AllTidy([first] + more)
    ensures Tidy(first) && AllTidy(more)
  {
    assert ([first] + more)[1..] == more;
  }

  lemma {:induction false} DeleteBuilt(d: DeleteData)
    ensures DeleteMeaning(d).Some? <==> d.from != "" && CanBuild(d.whereParts)
  {
    hide CanBuild, MeaningOf;
    var cs := DeleteClauses(d);
    var ms := MeaningsOf(cs);
    AllOrNone(ms);
    WhereBuilt(d.whereParts);
    WordsBuilt(cs[0]);
    WordsBuilt(cs[2]);
    WordsBuilt(cs[3]);
    assert ms[0].Some? && ms[2].Some? && ms[3].Some?;
    assert ms[1] == MeaningOf(cs[1]);
  }

  lemma {:induction false} WhereBuilt(parts: seq<Sqlizer>)
    ensures MeaningOf(Keyword(" WHERE ", parts, " AND ")).Some? <==> CanBuild(parts)
  {
    BuiltAll(parts);
  }

  lemma {:induction false} WordsBuilt(c: ClauseDef)
    requires c.Words?
    ensures MeaningOf(c).Some?
  {}

  // ---- UPDATE

  function UpdateVerb(d: UpdateData): Section {
    Section("UPDATE", OptionsPieces(d.options) + Raw(d.table))
  }

  /** "UPDATE options table SET settings" */
  lemma {:induction false} UpdateHead(d: UpdateData, settings: SqlParts)
    ensures Raw("UPDATE " + OptionsText(d.options) + d.table + " SET ") + settings
         == ClauseText(UpdateVerb(d)) + Behind([Section("SET", settings)])
  {
    hide Raw, Lits, IsClauseWord, OptionsPieces, OptionsText, Behind;
    ClauseWords();
    var rest := d.table + " SET ";
    assert "UPDATE " + OptionsText(d.options) + d.table + " SET " == "UPDATE" + " " + OptionsText(d.options) + rest;
    HeadPieces("UPDATE", d.options, rest);
    RawAppend(d.table, " SET ");
    KeywordPieces("SET");
    assert " " + "SET" + " " == " SET ";
    BehindOne(Section("SET", settings));
    UpdateRegrouped(Lits("UPDATE") + [Lit(' ')], OptionsPieces(d.options), Raw(d.table),
                    [Lit(' ')] + Lits("SET") + [Lit(' ')], settings);
  }

  lemma {:induction false} UpdateRegrouped(a: SqlParts, b: SqlParts, c: SqlParts, e: SqlParts, f: SqlParts)
    ensures a + (b + (c + e)) + f == a + (b + c) + (e + f)
  {}

  function UpdateTail(d: UpdateData): seq<Section> {
    ListClause("WHERE", d.whereParts, " AND ") + ByClause("ORDER", d.orderBys) + TextClause("LIMIT", d.limit)
  }

  predicate SettersCanBuild(clauses: seq<SetClause>) {
    forall i :: 0 <= i < |clauses| ==> clauses[i].value.Nested? ==> Meaning(clauses[i].value.sqlizer).Some?
  }

  lemma {:induction false} SettersBuilt(clauses: seq<SetClause>)
    ensures All(SetTerms(clauses)).Some? <==> SettersCanBuild(clauses)
  {
    AllOrNone(SetTerms(clauses));
    if !SettersCanBuild(clauses) {
      var i :| 0 <= i < |clauses| && clauses[i].value.Nested? && Meaning(clauses[i].value.sqlizer).None?;
      assert SetTerms(clauses)[i] == None;
    }
  }

  lemma {:induction false} UpdateSetters(d: UpdateData)
    requires All(SetTerms(d.setClauses)).Some?
    ensures MeaningOf(UpdateClauses(d)[0])
         == Some(Raw("UPDATE " + OptionsText(d.options) + d.table + " SET ") + Settings(d.setClauses))
  {}

  lemma {:induction false} UpdatePieces(d: UpdateData)
    requires d.table != "" && d.setClauses != [] && All(SetTerms(d.setClauses)).Some?
    requires CanBuild(d.whereParts)
    ensures UpdateMeaning(d)
         == Some(ClauseText(UpdateVerb(d)) + Behind([Section("SET", Settings(d.setClauses))] + UpdateTail(d)))
  {
    hide Raw, Lits, Behind, ListClause, ByClause, TextClause, ClauseText, CanBuild, MeaningOf, Settings;
    var cs := UpdateClauses(d);
    var head := Raw("UPDATE " + OptionsText(d.options) + d.table + " SET ") + Settings(d.setClauses);
    var where, orderBy := ListClause("WHERE", d.whereParts, " AND "), ByClause("ORDER", d.orderBys);
    var limit := TextClause("LIMIT", d.limit);
    UpdateSetters(d);
    WhereWritten(d.whereParts);
    OrderByWritten(d.orderBys);
    LimitWritten(d.limit);
    var behind := [Behind(where), Behind(orderBy), Behind(limit)];
    AllPresent(MeaningsOf(cs), [head] + behind);
    FlatFirst([head] + behind);
    assert ([head] + behind)[1..] == behind;
    AllWritten(behind, [where, orderBy, limit]);
    ThreeOf(where, orderBy, limit);
    UpdateHead(d, Settings(d.setClauses));
    var setting := [Section("SET", Settings(d.setClauses))];
    BehindAppend(setting, UpdateTail(d));
    Regroup(ClauseText(UpdateVerb(d)), Behind(setting), Behind(UpdateTail(d)));
  }

  lemma {:induction false} UpdateBuilt(d: UpdateData)
    ensures UpdateMeaning(d).Some? <==>
      d.table != "" && d.setClauses != [] && SettersCanBuild(d.setClauses) && CanBuild(d.whereParts)
  {
    hide CanBuild, MeaningOf, SettersCanBuild;
    var cs := UpdateClauses(d);
    var ms := MeaningsOf(cs);
    AllOrNone(ms);
    WhereBuilt(d.whereParts);
    SetBuilt(d);
    WordsBuilt(cs[2]);
    WordsBuilt(cs[3]);
    assert ms[0] == MeaningOf(cs[0]) && ms[1] == MeaningOf(cs[1]);
    assert ms[2].Some? && ms[3].Some?;
  }

  lemma {:induction false} SetBuilt(d: UpdateData)
    ensures MeaningOf(UpdateClauses(d)[0]).Some? <==> SettersCanBuild(d.setClauses)
  {
    SettersBuilt(d.setClauses);
  }

  /**
   The same for UPDATE, with the options and the table behind UPDATE, and each column with its own value behind SET.
   */
  lemma {:induction false} UpdateReadClauseByClause(d: UpdateData, r: Built)
    requires d.format.Question? && Delivers(r, d.format, UpdateMeaning(d)) && UpdateMatched(d)
    ensures r.Ok? <==> d.table != "" && d.setClauses != [] && SettersCanBuild(d.setClauses) && CanBuild(d.whereParts)
    ensures r.Ok? ==> All(SetTerms(d.setClauses)).Some?
    ensures r.Ok? ==> AllTidy(UpdateSections(d)) ==> ReadStatement(r.sql, r.args) == Some(UpdateSections(d))
  {
    hide Raw, Lits, Behind, ClauseText, CanBuild, UpdateMatched, AllTidy, Clauses, Sequenced, UpdateTail;
    hide Tidy, UpdateVerb, SettersCanBuild;
    UpdateBuilt(d);
    SettersBuilt(d.setClauses);
    if r.Ok? && AllTidy(UpdateSections(d)) {
      UpdateReadsAsMeant(d, r);
      UpdateClausesFound(d);
    }
  }

  lemma {:induction false} UpdateClausesFound(d: UpdateData)
    requires UpdateMeaning(d).Some? && All(SetTerms(d.setClauses)).Some?
    requires AllTidy(UpdateSections(d))
    ensures Clauses(UpdateMeaning(d).value) == Some(UpdateSections(d))
  {
    hide Raw, Lits, Behind, ClauseText, CanBuild, AllTidy, Clauses, Sequenced, UpdateTail, Tidy;
    hide UpdateVerb, SettersCanBuild;
    UpdateBuilt(d);
    UpdatePieces(d);
    var more := [Section("SET", Settings(d.setClauses))] + UpdateTail(d);
    UpdateSplit(d);
    TidySplit(UpdateVerb(d), more);
    ClausesFoundAgain(UpdateVerb(d), more);
  }

  lemma {:induction false} UpdateSplit(d: UpdateData)
    requires All(SetTerms(d.setClauses)).Some?
    ensures UpdateSections(d) == [UpdateVerb(d)] + ([Section("SET", Settings(d.setClauses))] + UpdateTail(d))
  {
    hide Settings;
    InFront(UpdateVerb(d), Section("SET", Settings(d.setClauses)), UpdateTail(d));
  }

  // ---- SELECT

  function SelectColumns(d: SelectData): SqlParts {
    OptionsPieces(d.options) + ListOf(d.columns, ", ")
  }

  function Joins(d: SelectData): SqlParts {
    if d.joins == [] then [] else Lits(" ") + ListOf(d.joins, " ")
  }

  function SelectVerb(d: SelectData): Section {
    Section("SELECT", if d.from.None? then SelectColumns(d) + Joins(d) else SelectColumns(d))
  }

  function FromClause(d: SelectData): seq<Section> {
    match d.from
    case None => []
    case Some(from) => [Section("FROM", ListOf([from], "") + Joins(d))]
  }

  function OrderClause(parts: seq<Sqlizer>): seq<Section> {
    if parts == [] then [] else [Section("ORDER", Lits("BY ") + ListOf(parts, ", "))]
  }

  function SelectTail(d: SelectData): seq<Section> {
    ListClause("WHERE", d.whereParts, " AND ") + ByClause("GROUP", d.groupBys)
    + ListClause("HAVING", d.havingParts, " AND ") + OrderClause(d.orderByParts)
    + TextClause("LIMIT", d.limit) + TextClause("OFFSET", d.offset)
  }

  predicate SelectCanBuild(d: SelectData) {
    && d.columns != [] && CanBuild(d.columns) && CanBuild(FromParts(d.from)) && CanBuild(d.joins)
    && CanBuild(d.whereParts) && CanBuild(d.havingParts) && CanBuild(d.orderByParts)
  }

  lemma {:induction false} ColumnsWritten(d: SelectData)
    requires d.columns != [] && CanBuild(d.columns)
    ensures MeaningOf(SelectClauses(d)[0]) == Some(ClauseText(Section("SELECT", SelectColumns(d))))
  {
    hide Raw, Lits, IsClauseWord, OptionsPieces, OptionsText, CanBuild, ListOf, Clause, ClauseText;
    BuiltAll(d.columns);
    ListWritten(d.columns, ", ");
    SelectText(d.options, ListOf(d.columns, ", "));
  }

  lemma {:induction false} SelectText(options: seq<string>, columns: SqlParts)
    ensures Raw("SELECT " + OptionsText(options)) + columns
         == ClauseText(Section("SELECT", OptionsPieces(options) + columns))
  {
    hide Raw, Lits, IsClauseWord, OptionsPieces, OptionsText;
    SelectIsWord();
    HeadPieces("SELECT", options, "");
    RawNothing();
    assert "SELECT" + " " + OptionsText(options) + "" == "SELECT " + OptionsText(options);
    assert OptionsPieces(options) + [] == OptionsPieces(options);
    Regroup(Lits("SELECT") + [Lit(' ')], OptionsPieces(options), columns);
  }

  lemma {:induction false} SelectIsWord()
    ensures IsClauseWord("SELECT") && "SELECT" + " " == "SELECT "
  {
    UpperStays("SELECT");
  }

  lemma {:induction false} FromWritten(from: Option<Sqlizer>)
    requires CanBuild(FromParts(from))
    ensures MeaningOf(Keyword(" FROM ", FromParts(from), ""))
         == Some(Behind(ListClause("FROM", FromParts(from), "")))
  {
    hide Behind, ListClause, CanBuild, Raw, IsClauseWord, FromParts;
    ClauseWords();
    BuiltAll(FromParts(from));
    ListClauseWritten("FROM", FromParts(from), "");
    assert " " + "FROM" + " " == " FROM ";
  }

  lemma {:induction false} JoinsWritten(d: SelectData)
    requires CanBuild(d.joins)
    ensures MeaningOf(Keyword(" ", d.joins, " ")) == Some(Joins(d))
  {
    hide CanBuild, Raw, ListOf, Clause, Lits;
    BuiltAll(d.joins);
    ListWritten(d.joins, " ");
    RawLits(" ");
  }

  lemma {:induction false} OrderPartsBuilt(parts: seq<Sqlizer>)
    requires CanBuild(parts)
    ensures MeaningOf(Keyword(" ORDER BY ", parts, ", ")) == Some(Behind(OrderClause(parts)))
  {
    hide CanBuild, Raw, ListOf, Clause, Lits, Behind;
    BuiltAll(parts);
    OrderPartsWritten(parts);
  }

  /** "SELECT options columns FROM source joins" */
  lemma {:induction false} SelectHead(d: SelectData)
    ensures ClauseText(Section("SELECT", SelectColumns(d)))
            + (Behind(ListClause("FROM", FromParts(d.from), "")) + Joins(d))
         == ClauseText(SelectVerb(d)) + Behind(FromClause(d))
  {
    hide Lits, ListOf, Joins, SelectColumns;
    match d.from
    case None =>
      assert Behind([]) + Joins(d) == Joins(d);
      Regroup(Lits("SELECT") + [Lit(' ')], SelectColumns(d), Joins(d));
      assert ClauseText(SelectVerb(d)) + [] == ClauseText(SelectVerb(d));
    case Some(from) =>
      BehindOne(Section("FROM", ListOf([from], "")));
      BehindOne(Section("FROM", ListOf([from], "") + Joins(d)));
      Regroup([Lit(' ')] + Lits("FROM") + [Lit(' ')], ListOf([from], ""), Joins(d));
      assert FromParts(d.from) == [from];
  }

  lemma {:induction false} SixOf(a: seq<Section>, b: seq<Section>, c: seq<Section>, e: seq<Section>, f: seq<Section>,
                                 g: seq<Section>)
    ensures AllOf([a, b, c, e, f, g]) == a + b + c + e + f + g
  {
    hide AllOf;
    ThreeOf(e, f, g);
    AllOfCons(c, [e, f, g]);
    AllOfCons(b, [c, e, f, g]);
    AllOfCons(a, [b, c, e, f, g]);
    assert [c] + [e, f, g] == [c, e, f, g] && [b] + [c, e, f, g] == [b, c, e, f, g];
    assert [a] + [b, c, e, f, g] == [a, b, c, e, f, g];
    assert a + (b + (c + (e + f + g))) == a + b + c + e + f + g;
  }

  /** The six clauses behind FROM. */
  lemma {:induction false} SelectTailWritten(d: SelectData, ts: seq<SqlParts>)
    requires CanBuild(d.whereParts) && CanBuild(d.havingParts) && CanBuild(d.orderByParts)
    requires |ts| == 6 && forall i :: 0 <= i < 6 ==> MeaningOf(SelectClauses(d)[3 + i]) == Some(ts[i])
    ensures Flat(ts) == Behind(SelectTail(d))
  {
    hide Raw, Lits, Behind, ListClause, ByClause, TextClause, OrderClause, CanBuild, MeaningOf, Flat;
    var a, b, c := ListClause("WHERE", d.whereParts, " AND "), ByClause("GROUP", d.groupBys),
                   ListClause("HAVING", d.havingParts, " AND ");
    var e, f, g := OrderClause(d.orderByParts), TextClause("LIMIT", d.limit), TextClause("OFFSET", d.offset);
    WhereWritten(d.whereParts);
    GroupByWritten(d.groupBys);
    HavingWritten(d.havingParts);
    OrderPartsBuilt(d.orderByParts);
    LimitWritten(d.limit);
    OffsetWritten(d.offset);
    var sss := [a, b, c, e, f, g];
    var cs := SelectClauses(d);
    assert MeaningOf(cs[3]) == Some(ts[0]) && MeaningOf(cs[4]) == Some(ts[1]) && MeaningOf(cs[5]) == Some(ts[2]);
    assert MeaningOf(cs[6]) == Some(ts[3]) && MeaningOf(cs[7]) == Some(ts[4]) && MeaningOf(cs[8]) == Some(ts[5]);
    AllWritten(ts, sss);
    SixOf(a, b, c, e, f, g);
  }

  lemma {:induction false} FirstThree(ts: seq<SqlParts>)
    requires |ts| >= 3
    ensures Flat(ts) == ts[0] + (ts[1] + ts[2]) + Flat(ts[3..])
  {
    hide Flat;
    FlatFirst(ts);
    FlatFirst(ts[1..]);
    FlatFirst(ts[2..]);
    assert ts[1..][1..] == ts[2..] && ts[2..][1..] == ts[3..];
    var rest := Flat(ts[3..]);
    assert ts[0] + (ts[1] + (ts[2] + rest)) == ts[0] + (ts[1] + ts[2]) + rest;
  }

  lemma {:induction false} SelectPieces(d: SelectData)
    requires SelectCanBuild(d) && SelectMeaning(d).Some?
    ensures SelectMeaning(d).value == ClauseText(SelectVerb(d)) + Behind(FromClause(d) + SelectTail(d))
  {
    hide Raw, Lits, Behind, ListClause, CanBuild, MeaningOf, ClauseText, Flat, SelectTail, FromClause;
    hide SelectVerb, Joins, SelectColumns, FromParts;
    var cs := SelectClauses(d);
    var ts := All(MeaningsOf(cs)).value;
    ColumnsWritten(d);
    FromWritten(d.from);
    JoinsWritten(d);
    forall i | 0 <= i < 9 ensures MeaningOf(cs[i]) == Some(ts[i]) {
      assert MeaningsOf(cs)[i] == Some(ts[i]);
    }
    assert MeaningOf(cs[0]) == Some(ts[0]) && MeaningOf(cs[1]) == Some(ts[1]) && MeaningOf(cs[2]) == Some(ts[2]);
    SelectTailWritten(d, ts[3..]);
    FirstThree(ts);
    SelectHead(d);
    BehindAppend(FromClause(d), SelectTail(d));
    Regroup(ClauseText(SelectVerb(d)), Behind(FromClause(d)), Behind(SelectTail(d)));
  }

  lemma {:induction false} KeywordBuilt(c: ClauseDef)
    requires c.Keyword?
    ensures MeaningOf(c).Some? <==> CanBuild(c.parts)
  {
    BuiltAll(c.parts);
  }

  lemma {:induction false} SelectBuilt(d: SelectData)
    ensures SelectMeaning(d).Some? <==> SelectCanBuild(d)
  {
    hide CanBuild, MeaningOf, FromParts, NonBlank;
    var cs := SelectClauses(d);
    var ms := MeaningsOf(cs);
    AllOrNone(ms);
    KeywordBuilt(cs[0]);
    KeywordBuilt(cs[1]);
    KeywordBuilt(cs[2]);
    KeywordBuilt(cs[3]);
    WordsBuilt(cs[4]);
    KeywordBuilt(cs[5]);
    KeywordBuilt(cs[6]);
    WordsBuilt(cs[7]);
    WordsBuilt(cs[8]);
    assert ms[0] == MeaningOf(cs[0]) && ms[1] == MeaningOf(cs[1]) && ms[2] == MeaningOf(cs[2]);
    assert ms[3] == MeaningOf(cs[3]) && ms[5] == MeaningOf(cs[5]) && ms[6] == MeaningOf(cs[6]);
    assert ms[4].Some? && ms[7].Some? && ms[8].Some?;
  }

  /**
   The same for SELECT: options and columns behind SELECT, the source and the joins behind FROM, and so on to OFFSET.
   */
  lemma {:induction false} SelectReadClauseByClause(d: SelectData, r: Built)
    requires d.format.Question? && Delivers(r, d.format, SelectMeaning(d)) && SelectMatched(d)
    requires AllTidy(SelectSections(d))
    ensures r.Ok? <==> SelectCanBuild(d)
    ensures r.Ok? ==> ReadStatement(r.sql, r.args) == Some(SelectSections(d))
  {
    hide Raw, Lits, Behind, ClauseText, SelectMatched, AllTidy, Clauses, Sequenced, Tidy, SelectCanBuild;
    hide SelectSections, SelectVerb, FromClause, SelectTail;
    SelectBuilt(d);
    if r.Ok? {
      SelectReadsAsMeant(d, r);
      SelectClausesFound(d);
    }
  }

  lemma {:induction false} SelectClausesFound(d: SelectData)
    requires SelectMeaning(d).Some? && AllTidy(SelectSections(d))
    ensures Clauses(SelectMeaning(d).value) == Some(SelectSections(d))
  {
    hide Raw, Lits, Behind, ClauseText, AllTidy, Clauses, Sequenced, Tidy, SelectCanBuild;
    hide SelectSections, SelectVerb, FromClause, SelectTail;
    SelectBuilt(d);
    SelectPieces(d);
    SelectSplit(d);
    TidySplit(SelectVerb(d), FromClause(d) + SelectTail(d));
    ClausesFoundAgain(SelectVerb(d), FromClause(d) + SelectTail(d));
  }

  lemma {:induction false} SelectSplit(d: SelectData)
    ensures SelectSections(d) == [SelectVerb(d)] + (FromClause(d) + SelectTail(d))
  {
    hide ListOf, ListClause, ByClause, TextClause, Lits, Options;
    var tail := SelectTail(d);
    match d.from
    case None => assert FromClause(d) + tail == tail;
    case Some(from) => InFront(SelectVerb(d), FromClause(d)[0], tail);
  }

  // ---- with numbered holes

  function UnescapedSections(ss: seq<Section>): (r: seq<Section>)
    ensures |r| == |ss| && forall i :: 0 <= i < |r| ==> r[i] == Section(ss[i].word, Unescaped(ss[i].body))
  {
    seq(|ss|, i requires 0 <= i < |ss| => Section(ss[i].word, Unescaped(ss[i].body)))
  }

  lemma {:induction false} UnescapedFrom(p: SqlParts, n: nat)
    requires n <= |p|
    ensures |Unescaped(p)| == |p|
    ensures Unescaped(p)[n..] == Unescaped(p[n..]) && Unescaped(p)[..n] == Unescaped(p[..n])
  {
    UnescapedStart(p);
    if n == 0 {
      assert p[0..] == p && Unescaped(p)[0..] == Unescaped(p) && p[..0] == [];
    } else {
      UnescapedFrom(p[1..], n - 1);
      var x := if p[0].Mark? then Lit('?') else p[0];
      assert p[1..][n - 1..] == p[n..] && p[..n][1..] == p[1..][..n - 1] && p[..n][0] == p[0];
      assert Unescaped(p)[n..] == Unescaped(p[1..])[n - 1..];
      assert Unescaped(p)[..n] == [x] + Unescaped(p[1..])[..n - 1];
    }
  }

  lemma {:induction false} UnescapedAppend(p: SqlParts, q: SqlParts)
    ensures Unescaped(p + q) == Unescaped(p) + Unescaped(q)
  {
    UnescapedFrom(p + q, |p|);
    assert (p + q)[..|p|] == p && (p + q)[|p|..] == q;
    assert Unescaped(p + q) == Unescaped(p + q)[..|p|] + Unescaped(p + q)[|p|..];
  }

  lemma {:induction false} UnescapedRun(p: SqlParts)
    ensures Run(InWord, Unescaped(p)) == Run(InWord, p)
    ensures var n := Run(InWord, p); Unescaped(p[..n]) == p[..n]
  {
    if p != [] && Belongs(InWord, p[0]) {
      UnescapedRun(p[1..]);
      var n := Run(InWord, p);
      assert Unescaped(p)[1..] == Unescaped(p[1..]);
      assert p[..n][1..] == p[1..][..n - 1];
    } else {
      assert p[..0] == [];
    }
  }

  lemma {:induction false} UnescapedCut(p: SqlParts, depth: int)
    ensures var c := Sections(p, depth);
      Sections(Unescaped(p), depth) == Cut(Unescaped(c.head), UnescapedSections(c.sections))
    decreases |p|
  {
    hide Upper, CLAUSE_WORDS, Text, Run;
    UnescapedStart(p);
    if p != [] {
      if Belongs(InWord, p[0]) {
        UnescapedWord(p, depth);
      } else {
        UnescapedOther(p, depth);
      }
    } else {
      assert UnescapedSections([]) == [];
    }
  }

  lemma {:induction false} UnescapedWord(p: SqlParts, depth: int)
    requires p != [] && Belongs(InWord, p[0])
    ensures var c := Sections(p, depth);
      Sections(Unescaped(p), depth) == Cut(Unescaped(c.head), UnescapedSections(c.sections))
    decreases |p|, 0
  {
    hide Upper, CLAUSE_WORDS, Text;
    var n := Run(InWord, p);
    UnescapedRun(p);
    UnescapedFrom(p, n);
    UnescapedCut(p[n..], depth);
    var rest := Sections(p[n..], depth);
    UnescapedAppend(p[..n], rest.head);
    UnescapedBlank(rest.head);
    var word := Upper(Text(p[..n]));
    assert UnescapedSections([Section(word, WithoutBlank(rest.head))] + rest.sections)
        == [Section(word, Unescaped(WithoutBlank(rest.head)))] + UnescapedSections(rest.sections);
    assert Unescaped<Arg>([]) == [];
  }

  lemma {:induction false} UnescapedBlank(p: SqlParts)
    ensures Unescaped(WithoutBlank(p)) == WithoutBlank(Unescaped(p))
  {
    if p != [] {
      UnescapedFrom(p, 1);
    }
  }

  lemma {:induction false} UnescapedOther(p: SqlParts, depth: int)
    requires p != [] && !Belongs(InWord, p[0])
    ensures var c := Sections(p, depth);
      Sections(Unescaped(p), depth) == Cut(Unescaped(c.head), UnescapedSections(c.sections))
    decreases |p|, 0
  {
    hide Upper, CLAUSE_WORDS, Text, Sections, Run, UnescapedSections;
    UnescapedFrom(p, 1);
    var x := if p[0].Mark? then Lit('?') else p[0];
    var d := depth + Deeper(p[0]);
    SamePiece(p[0]);
    UnescapedCut(p[1..], d);
    OtherPiece(p[0], p[1..], depth);
    OtherPiece(x, Unescaped(p[1..]), depth);
    var rest := Sections(p[1..], d);
    assert [p[0]] + p[1..] == p && [x] + Unescaped(p[1..]) == Unescaped(p);
    UnescapedStart(rest.head);
    NoSections(rest.sections);
    UnescapedCons(p[0], rest.head);
  }

  lemma {:induction false} UnescapedCons(x: Piece<Arg>, p: SqlParts)
    ensures Unescaped([x] + p) == [if x.Mark? then Lit('?') else x] + Unescaped(p)
  {
    assert ([x] + p)[1..] == p;
  }

  lemma {:induction false} NoSections(ss: seq<Section>)
    ensures UnescapedSections(ss) == [] <==> ss == []
  {}

  lemma {:induction false} SamePiece(x: Piece<Arg>)
    ensures var y := if x.Mark? then Lit('?') else x;
      Belongs(InWord, y) == Belongs(InWord, x) && Deeper(y) == Deeper(x) && (y == Lit(' ') <==> x == Lit(' '))
  {}

  lemma {:induction false} OtherPiece(x: Piece<Arg>, q: SqlParts, depth: int)
    requires !Belongs(InWord, x)
    ensures var rest := Sections(q, depth + Deeper(x));
      Sections([x] + q, depth)
      == if x == Lit(' ') && rest.head == [] && rest.sections != [] then rest
         else Cut([x] + rest.head, rest.sections)
  {
    assert ([x] + q)[0] == x && ([x] + q)[1..] == q;
  }

  /**
   With numbered holes a database finds the same clauses, with escapes undone, when no placeholder is spelled out in the
   statement and no digit follows a hole.
   */
  lemma {:induction false} NumberedClausesFound(r: Built, f: PlaceholderFormat, m: SqlParts, ss: seq<Section>)
    requires !f.Question? && Delivers(r, f, Some(m)) && Sound(m) && Clauses(m) == Some(ss)
    requires NowhereSpelled(m, Prefix(f)) && NoDigitAfterHole(m)
    ensures var read := BindNumbered(r.sql, Prefix(f), r.args);
      read.Some? && Clauses(read.value) == Some(UnescapedSections(ss))
  {
    DeliveredReadsAs(r, f, m);
    UnescapedCut(m, 0);
  }
}
