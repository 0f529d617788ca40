/** pkg/dbx: the law for statements. */
module SqlStatementSoundness {
  // The law of the SQL builder for whole SELECT, UPDATE and DELETE statements, for holes written as `?` and for
  // numbered holes, whatever the options, joins and clauses.

  import opened Bytes
  import opened SqlPieces
  import opened SqlFragments
  import opened SqlExpressions
  import opened SqlSoundness
  import opened SqlPlaceholders
  import opened SqlStatements

  // ---- texts without holes

  predicate NoHoles(words: seq<string>) {
    forall w <- words :: HoleCount(w) == 0
  }

  lemma {:induction false} HoleCountAppend(a: string, b: string)
    requires HoleCount(a) == 0
    ensures HoleCount(a + b) == HoleCount(b)
  {
    if a == "" {
      assert a + b == b;
    } else if StartsEscape(a) {
      HoleCountAppend(a[2..], b);
      assert (a + b)[2..] == a[2..] + b;
    } else {
      HoleCountAppend(a[1..], b);
      assert (a + b)[1..] == a[1..] + b;
    }
  }

  lemma {:induction false} NoMarkNoHole(text: string)
    requires '?' !in text
    ensures HoleCount(text) == 0
  {
    if text != "" {
      assert text[0] in text;
      assert forall c <- text[1..] :: c in text;
      NoMarkNoHole(text[1..]);
    }
  }

  lemma {:induction false} JoinNoHoles(words: seq<string>, sep: string)
    requires NoHoles(words) && '?' !in sep
    ensures HoleCount(StringsJoin(words, sep)) == 0
  {
    if |words| > 1 {
      JoinNoHoles(words[..|words| - 1], sep);
      NoMarkNoHole(sep);
      HoleCountAppend(StringsJoin(words[..|words| - 1], sep), sep);
      HoleCountAppend(StringsJoin(words[..|words| - 1], sep) + sep, words[|words| - 1]);
    }
  }

  // ---- one clause

  predicate PartsSound(parts: seq<Sqlizer>) {
    forall t <- parts :: Matched(t) && SeamsOk(t)
  }

  predicate ValueSound(a: Arg) {
    a.Nested? ==> Matched(a.sqlizer) && SeamsOk(a.sqlizer)
  }

  predicate SettersSound(clauses: seq<SetClause>) {
    forall c <- clauses :: HoleCount(c.column) == 0 && ValueSound(c.value)
  }

  predicate ClauseSoundDef(c: ClauseDef) {
    && c.kw != "" && c.kw[0] != '?' && HoleCount(c.kw) == 0
    && match c
       case Keyword(_, parts, sep) => PartsSound(parts) && '?' !in sep && (sep != "" || |parts| <= 1)
       case Words(_, words, sep) => NoHoles(words) && '?' !in sep
       case Setters(_, clauses) => SettersSound(clauses)
  }

  /** A clause starts with its keyword, so it fits behind anything. */
  ghost predicate Opens(p: SqlParts) {
    Sound(p) && (p == [] || p[0].Lit?)
  }

  lemma {:induction false} NoHolePieces(text: string)
    ensures forall x <- Raw(text) :: !x.Hole?
  {
    FillRest<Arg>(text, [], []);
    if text == "" {
    } else if StartsEscape(text) {
      NoHolePieces(text[2..]);
      FillRest<Arg>(text[2..], [], []);
    } else {
      NoHolePieces(text[1..]);
      FillRest<Arg>(text[1..], [], []);
    }
  }

  lemma {:induction false} KeywordOpens(kw: string, p: SqlParts)
    requires kw != "" && kw[0] != '?' && HoleCount(kw) == 0 && Sound(p)
    ensures Opens(Raw(kw) + p)
  {
    FillSound<Arg>(kw, [], []);
    FillRest<Arg>(kw, [], []);
    NoHolePieces(kw);
    assert Raw(kw)[|Raw(kw)| - 1] in Raw(kw);
    SoundAppend(Raw(kw), p);
  }

  lemma {:induction false} NothingOpens()
    ensures Opens([])
  {}

  lemma {:induction false} MeaningsSound(parts: seq<Sqlizer>)
    requires PartsSound(parts)
    ensures forall i :: 0 <= i < |parts| && Meanings(parts)[i].Some? ==> Sound(Meanings(parts)[i].value)
  {
    forall i | 0 <= i < |parts| && Meanings(parts)[i].Some? ensures Sound(Meanings(parts)[i].value) {
      MeaningSound(parts[i]);
    }
  }

  lemma {:induction false} SetTermsSound(clauses: seq<SetClause>)
    requires SettersSound(clauses)
    ensures forall i :: 0 <= i < |clauses| && SetTerms(clauses)[i].Some? ==> Sound(SetTerms(clauses)[i].value)
  {
    forall i | 0 <= i < |clauses| && SetTerms(clauses)[i].Some? ensures Sound(SetTerms(clauses)[i].value) {
      var c := clauses[i];
      RawSound(c.column);
      match c.value
      case Value(_) =>
        OneHoleSound(c.value);
        SeparatorSound(Raw(c.column), " = ", [Hole(c.value)]);
      case Nested(s) =>
        MeaningSound(s);
        SeparatorSound(Raw(c.column), " = ", Meaning(s).value);
    }
  }

  lemma {:induction false} ClauseOpens(c: ClauseDef)
    requires ClauseSoundDef(c)
    ensures MeaningOf(c).Some? ==> Opens(MeaningOf(c).value)
  {
    hide Opens, Sound;
    NothingOpens();
    if MeaningOf(c).Some? {
      match c
      case Keyword(kw, parts, sep) =>
        if parts != [] {
          MeaningsSound(parts);
          AllSound(Meanings(parts));
          ClauseSound(All(Meanings(parts)).value, sep);
          KeywordOpens(kw, Clause(All(Meanings(parts)).value, sep));
        }
      case Words(kw, words, sep) =>
        JoinNoHoles(words, sep);
        RawSound(StringsJoin(words, sep));
        KeywordOpens(kw, Raw(StringsJoin(words, sep)));
      case Setters(kw, clauses) =>
        SetTermsSound(clauses);
        AllSound(SetTerms(clauses));
        JoinedSound(All(SetTerms(clauses)).value, ", ");
        KeywordOpens(kw, Joined(All(SetTerms(clauses)).value, ", "));
    }
  }

  // ---- the whole statement

  lemma {:induction false} SequencedSound(cs: seq<ClauseDef>)
    requires forall c <- cs :: ClauseSoundDef(c)
    ensures Sequenced(cs).Some? ==> Sound(Sequenced(cs).value)
  {
    var ms := MeaningsOf(cs);
    if All(ms).Some? {
      var ts := All(ms).value;
      forall i | 0 <= i < |ts| ensures Opens(ts[i]) {
        ClauseOpens(cs[i]);
        assert ms[i] == Some(ts[i]);
      }
      forall t <- ts ensures Sound(t) {
        var i :| 0 <= i < |ts| && ts[i] == t;
        assert Opens(ts[i]);
      }
      forall i | 0 <= i < |ts| ensures Fits(Flat(ts[..i]), ts[i]) {
        assert Opens(ts[i]);
      }
      FlatSound(ts);
    }
  }

  predicate SelectMatched(d: SelectData) {
    && NoHoles(d.options) && PartsSound(d.columns) && (d.from.Some? ==> Matched(d.from.value) && SeamsOk(d.from.value))
    && PartsSound(d.joins) && PartsSound(d.whereParts) && NoHoles(d.groupBys) && PartsSound(d.havingParts)
    && PartsSound(d.orderByParts) && HoleCount(d.limit) == 0 && HoleCount(d.offset) == 0
  }

  predicate UpdateMatched(d: UpdateData) {
    && NoHoles(d.options) && HoleCount(d.table) == 0 && SettersSound(d.setClauses) && PartsSound(d.whereParts)
    && NoHoles(d.orderBys) && HoleCount(d.limit) == 0
  }

  predicate DeleteMatched(d: DeleteData) {
    && NoHoles(d.options) && HoleCount(d.from) == 0 && PartsSound(d.whereParts)
    && NoHoles(d.orderBys) && HoleCount(d.limit) == 0
  }

  lemma {:induction false} HeadHasNoHoles(verb: string, options: seq<string>)
    requires NoHoles(options) && '?' !in verb
    ensures HoleCount(verb + OptionsText(options)) == 0
  {
    NoMarkNoHole(verb);
    if options != [] {
      JoinNoHoles(options, " ");
      HoleCountAppend(StringsJoin(options, " "), " ");
      NoMarkNoHole(" ");
    }
    HoleCountAppend(verb, OptionsText(options));
  }

  lemma {:induction false} PlainClause(c: ClauseDef)
    requires HoleCount(c.kw) == 0 && c.kw != "" && c.kw[0] != '?'
    requires match c
      case Keyword(_, parts, sep) => PartsSound(parts) && '?' !in sep && (sep != "" || |parts| <= 1)
      case Words(_, words, sep) => NoHoles(words) && '?' !in sep
      case Setters(_, clauses) => SettersSound(clauses)
    ensures ClauseSoundDef(c)
  {}

  lemma {:induction false} KeywordClause(kw: string, parts: seq<Sqlizer>, sep: string)
    requires kw != "" && '?' !in kw && PartsSound(parts) && '?' !in sep && (sep != "" || |parts| <= 1)
    ensures ClauseSoundDef(Keyword(kw, parts, sep))
  {
    NoMarkNoHole(kw);
    assert kw[0] in kw;
  }

  lemma {:induction false} WordsClause(kw: string, words: seq<string>, sep: string)
    requires kw != "" && '?' !in kw && NoHoles(words) && '?' !in sep
    ensures ClauseSoundDef(Words(kw, words, sep))
  {
    NoMarkNoHole(kw);
    assert kw[0] in kw;
  }

  lemma {:induction false} SelectSound(d: SelectData)
    requires SelectMatched(d)
    ensures SelectMeaning(d).Some? ==> Sound(SelectMeaning(d).value)
  {
    hide HoleCount, NoHoles, PartsSound, SettersSound, Sound, ClauseSoundDef;
    hide Sequenced, OptionsText, FromParts, NonBlank;
    var cs := SelectClauses(d);
    HeadHasNoHoles("SELECT ", d.options);
    JustOne(d.limit);
    JustOne(d.offset);
    FromIsSound(d.from);
    PlainClause(cs[0]);
    KeywordClause(" FROM ", FromParts(d.from), "");
    KeywordClause(" ", d.joins, " ");
    KeywordClause(" WHERE ", d.whereParts, " AND ");
    WordsClause(" GROUP BY ", d.groupBys, ", ");
    KeywordClause(" HAVING ", d.havingParts, " AND ");
    KeywordClause(" ORDER BY ", d.orderByParts, ", ");
    WordsClause(" LIMIT ", NonBlank(d.limit), "");
    WordsClause(" OFFSET ", NonBlank(d.offset), "");
    SequencedSound(cs);
  }

  lemma {:induction false} JustOne(s: string)
    requires HoleCount(s) == 0
    ensures NoHoles(NonBlank(s))
  {}

  lemma {:induction false} FromIsSound(from: Option<Sqlizer>)
    requires from.Some? ==> Matched(from.value) && SeamsOk(from.value)
    ensures PartsSound(FromParts(from)) && |FromParts(from)| <= 1
  {}

  lemma {:induction false} UpdateSound(d: UpdateData)
    requires UpdateMatched(d)
    ensures UpdateMeaning(d).Some? ==> Sound(UpdateMeaning(d).value)
  {
    hide HoleCount, NoHoles, PartsSound, SettersSound, Sound, ClauseSoundDef;
    hide Sequenced, OptionsText, FromParts, NonBlank;
    var cs := UpdateClauses(d);
    HeadHasNoHoles("UPDATE ", d.options);
    HoleCountAppend("UPDATE " + OptionsText(d.options), d.table);
    NoMarkNoHole(" SET ");
    HoleCountAppend("UPDATE " + OptionsText(d.options) + d.table, " SET ");
    JustOne(d.limit);
    PlainClause(cs[0]);
    KeywordClause(" WHERE ", d.whereParts, " AND ");
    WordsClause(" ORDER BY ", d.orderBys, ", ");
    WordsClause(" LIMIT ", NonBlank(d.limit), "");
    SequencedSound(cs);
  }

  lemma {:induction false} DeleteSound(d: DeleteData)
    requires DeleteMatched(d)
    ensures DeleteMeaning(d).Some? ==> Sound(DeleteMeaning(d).value)
  {
    hide HoleCount, NoHoles, PartsSound, SettersSound, Sound, ClauseSoundDef;
    hide Sequenced, OptionsText, FromParts, NonBlank;
    var cs := DeleteClauses(d);
    HeadHasNoHoles("DELETE ", d.options);
    NoMarkNoHole("FROM ");
    HoleCountAppend("DELETE " + OptionsText(d.options), "FROM ");
    JustOne(d.from);
    JustOne(d.limit);
    PlainClause(cs[0]);
    KeywordClause(" WHERE ", d.whereParts, " AND ");
    WordsClause(" ORDER BY ", d.orderBys, ", ");
    WordsClause(" LIMIT ", NonBlank(d.limit), "");
    SequencedSound(cs);
  }

  /**
   What the database reads. With `?` it is the meaning itself if `??` is an escape for the database, and if it is not,
   the meaning with its escapes undone exactly when there are none. With numbered holes it is the meaning with its
   escapes undone, exactly when the statement nowhere spells out a placeholder and no digit follows a hole.
   */
  ghost predicate ReadsAs(r: Built, f: PlaceholderFormat, m: SqlParts) {
    r.Ok?
    && if f.Question? then
         Bind(r.sql, r.args) == Some(m) && (BindPlain(r.sql, r.args) == Some(Unescaped(m)) <==> NoMarks(m))
       else
         BindNumbered(r.sql, Prefix(f), r.args) == Some(Unescaped(m)) <==>
         NowhereSpelled(m, Prefix(f)) && NoDigitAfterHole(m)
  }

  lemma {:induction false} DeliveredReadsAs(r: Built, f: PlaceholderFormat, m: SqlParts)
    requires Delivers(r, f, Some(m)) && Sound(m)
    ensures ReadsAs(r, f, m)
  {
    if f.Question? {
      ReadBack(m);
      PlainReadsBack(m);
    } else {
      NumberedText(m, Prefix(f), 0);
      assert Args(m)[0..] == Args(m);
      NumberedReadsBack(m, Prefix(f), Args(m), 0);
      ClearExactlyWhen(m, f, 0);
    }
  }

  lemma {:induction false} SelectReadsAsMeant(d: SelectData, r: Built)
    requires Delivers(r, d.format, SelectMeaning(d)) && r.Ok? && SelectMatched(d)
    ensures ReadsAs(r, d.format, SelectMeaning(d).value)
  {
    SelectSound(d);
    DeliveredReadsAs(r, d.format, SelectMeaning(d).value);
  }

  lemma {:induction false} UpdateReadsAsMeant(d: UpdateData, r: Built)
    requires Delivers(r, d.format, UpdateMeaning(d)) && r.Ok? && UpdateMatched(d)
    ensures ReadsAs(r, d.format, UpdateMeaning(d).value)
  {
    UpdateSound(d);
    DeliveredReadsAs(r, d.format, UpdateMeaning(d).value);
  }

  lemma {:induction false} DeleteReadsAsMeant(d: DeleteData, r: Built)
    requires Delivers(r, d.format, DeleteMeaning(d)) && r.Ok? && DeleteMatched(d)
    ensures ReadsAs(r, d.format, DeleteMeaning(d).value)
  {
    DeleteSound(d);
    DeliveredReadsAs(r, d.format, DeleteMeaning(d).value);
  }
}
