/** pkg/dbx: the law for statements, both ways. */
module SqlStatementSeams {
  // A statement with holes written as `?`, whose texts match their arguments, is read as it was meant if and only if
  // no seam inside any of its clauses is wrong.

  import opened Bytes
  import opened SqlPieces
  import opened SqlFragments
  import opened SqlExpressions
  import opened SqlSoundness
  import opened SqlSeams
  import opened SqlPlaceholders
  import opened SqlStatements
  import opened SqlStatementSoundness

  // ---- the two conditions that make up ClauseSoundDef

  predicate PartsMatched(parts: seq<Sqlizer>) {
    forall t <- parts :: Matched(t)
  }

  predicate SettersMatched(clauses: seq<SetClause>) {
    forall c <- clauses :: HoleCount(c.column) == 0 && (c.value.Nested? ==> Matched(c.value.sqlizer))
  }

  /** As many holes as arguments in every text of the clause. */
  predicate ClauseMatched(c: ClauseDef) {
    && c.kw != "" && c.kw[0] != '?' && HoleCount(c.kw) == 0
    && match c
       case Keyword(_, parts, sep) => PartsMatched(parts) && '?' !in sep && (sep != "" || |parts| <= 1)
       case Words(_, words, sep) => NoHoles(words) && '?' !in sep
       case Setters(_, clauses) => SettersMatched(clauses)
  }

  /** No ConcatExpr inside the clause puts a hole right in front of a question mark. */
  predicate ClauseSeams(c: ClauseDef) {
    match c
    case Keyword(_, parts, _) => forall t <- parts :: SeamsOk(t)
    case Words(_, _, _) => true
    case Setters(_, clauses) => forall s <- clauses :: s.value.Nested? ==> SeamsOk(s.value.sqlizer)
  }

  predicate AllMatched(cs: seq<ClauseDef>) {
    forall c <- cs :: ClauseMatched(c)
  }

  predicate AllSeams(cs: seq<ClauseDef>) {
    forall c <- cs :: ClauseSeams(c)
  }

  lemma {:induction false} BothMakeSound(c: ClauseDef)
    requires ClauseMatched(c) && ClauseSeams(c)
    ensures ClauseSoundDef(c)
  {
    hide HoleCount, NoHoles, Matched, SeamsOk;
  }

  // ---- a sound clause has sound parts

  lemma {:induction false} BlocksOfClause<A>(ts: seq<Pieces<A>>, sep: string)
    requires Sound(Clause(ts, sep))
    ensures forall t <- ts :: Text(t) == "" || Sound(t)
  {
    hide Sound;
    if ts != [] {
      var before, last := ts[..|ts| - 1], ts[|ts| - 1];
      SoundOfParts(Clause(before, sep), ClauseItem(last, |ts| == 1, sep));
      BlocksOfClause(before, sep);
      if Text(last) != "" && |ts| > 1 {
        SoundOfParts(Lits(sep), last);
      }
      assert forall t <- ts :: t == last || t in before;
    }
  }

  lemma {:induction false} SeamsOfPart(t: Sqlizer)
    requires Matched(t) && Meaning(t).Some? && (Text(Meaning(t).value) == "" || Sound(Meaning(t).value))
    ensures SeamsOk(t)
  {
    hide Matched, SeamsOk;
    if Text(Meaning(t).value) == "" {
      MeaningBalanced(t);
      if Meaning(t).value != [] {
        SomethingWritten(Meaning(t).value);
      }
      NoPiecesSound();
    }
    SoundMeansSeamsOk(t);
  }

  lemma {:induction false} SeamsOfKeyword(c: ClauseDef)
    requires c.Keyword? && ClauseMatched(c) && MeaningOf(c).Some? && Sound(MeaningOf(c).value)
    ensures ClauseSeams(c)
  {
    hide Sound, Matched, SeamsOk, HoleCount;
    if c.parts != [] {
      var ts := All(Meanings(c.parts)).value;
      SoundOfParts(Raw(c.kw), Clause(ts, c.sep));
      BlocksOfClause(ts, c.sep);
      forall t <- c.parts ensures SeamsOk(t) {
        var i :| 0 <= i < |c.parts| && c.parts[i] == t;
        assert Meanings(c.parts)[i] == Some(ts[i]) && ts[i] in ts;
        SeamsOfPart(t);
      }
    }
  }

  lemma {:induction false} SeamsOfSetters(c: ClauseDef)
    requires c.Setters? && ClauseMatched(c) && MeaningOf(c).Some? && Sound(MeaningOf(c).value)
    ensures ClauseSeams(c)
  {
    hide Sound, Matched, SeamsOk, HoleCount;
    var ts := All(SetTerms(c.clauses)).value;
    SoundOfParts(Raw(c.kw), Joined(ts, ", "));
    BlocksOfJoined(ts, ", ");
    forall s <- c.clauses | s.value.Nested? ensures SeamsOk(s.value.sqlizer) {
      var i :| 0 <= i < |c.clauses| && c.clauses[i] == s;
      assert SetTerms(c.clauses)[i] == Some(ts[i]) && ts[i] in ts;
      SoundOfParts(Raw(s.column) + Lits(" = "), Meaning(s.value.sqlizer).value);
      SoundMeansSeamsOk(s.value.sqlizer);
    }
  }

  // ---- the statement

  lemma {:induction false} SequencedExactlyWhen(cs: seq<ClauseDef>)
    requires AllMatched(cs) && Sequenced(cs).Some?
    ensures Sound(Sequenced(cs).value) <==> AllSeams(cs)
  {
    hide Sound, ClauseMatched, ClauseSeams, ClauseSoundDef;
    if AllSeams(cs) {
      forall c <- cs ensures ClauseSoundDef(c) {
        BothMakeSound(c);
      }
      SequencedSound(cs);
    }
    if Sound(Sequenced(cs).value) {
      var ts := All(MeaningsOf(cs)).value;
      BlocksOfFlat(ts);
      forall c <- cs ensures ClauseSeams(c) {
        var i :| 0 <= i < |cs| && cs[i] == c;
        assert MeaningsOf(cs)[i] == Some(ts[i]) && ts[i] in ts;
        SeamsOfClause(c);
      }
    }
  }

  lemma {:induction false} SeamsOfClause(c: ClauseDef)
    requires ClauseMatched(c) && MeaningOf(c).Some? && Sound(MeaningOf(c).value)
    ensures ClauseSeams(c)
  {
    match c
    case Keyword(_, _, _) => SeamsOfKeyword(c);
    case Words(_, _, _) =>
    case Setters(_, _) => SeamsOfSetters(c);
  }

  /** The clauses of a statement, one behind the other: for SELECT, UPDATE and DELETE alike. */
  lemma {:induction false} StatementReadAsMeantExactlyWhen(cs: seq<ClauseDef>, r: Built)
    requires AllMatched(cs) && Delivers(r, Question, Sequenced(cs)) && r.Ok?
    ensures Bind(r.sql, r.args) == Sequenced(cs) <==> AllSeams(cs)
  {
    ReadsBackExactlyWhen(Sequenced(cs).value);
    SequencedExactlyWhen(cs);
  }
}
