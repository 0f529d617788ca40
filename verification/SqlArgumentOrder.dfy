/** pkg/dbx: the arguments of a statement come in the order of its clauses and their parts. */
module SqlArgumentOrder {
  import opened Bytes
  import opened SqlPieces
  import opened SqlFragments
  import opened SqlExpressions
  import opened SqlStatements

  /** What one part supplies; a part without text is left out with its arguments. */
  function ArgsOfPart(t: Sqlizer): seq<Arg> {
    match Meaning(t)
    case None => []
    case Some(p) => if Text(p) == "" then [] else Args(p)
  }

  function ArgsOfParts(parts: seq<Sqlizer>): seq<Arg> {
    if parts == [] then [] else ArgsOfParts(parts[..|parts| - 1]) + ArgsOfPart(parts[|parts| - 1])
  }

  function ArgsOfSetter(c: SetClause): seq<Arg> {
    match c.value
    case Value(_) => [c.value]
    case Nested(s) => (match Meaning(s) case None => [] case Some(p) => Args(p))
  }

  function ArgsOfSetters(cs: seq<SetClause>): seq<Arg> {
    if cs == [] then [] else ArgsOfSetters(cs[..|cs| - 1]) + ArgsOfSetter(cs[|cs| - 1])
  }

  function ArgsOfClause(c: ClauseDef): seq<Arg> {
    match c
    case Keyword(_, parts, _) => ArgsOfParts(parts)
    case Words(_, _, _) => []
    case Setters(_, clauses) => ArgsOfSetters(clauses)
  }

  function ArgsOfClauses(cs: seq<ClauseDef>): seq<Arg> {
    if cs == [] then [] else ArgsOfClauses(cs[..|cs| - 1]) + ArgsOfClause(cs[|cs| - 1])
  }

  lemma {:induction false} AllLast(ms: seq<Option<SqlParts>>)
    requires ms != [] && All(ms).Some?
    ensures All(ms[..|ms| - 1]).Some? && ms[|ms| - 1].Some?
    ensures All(ms).value == All(ms[..|ms| - 1]).value + [ms[|ms| - 1].value]
  {}

  lemma {:induction false} ClauseArguments(parts: seq<Sqlizer>, sep: string)
    requires All(Meanings(parts)).Some?
    ensures Args(Clause(All(Meanings(parts)).value, sep)) == ArgsOfParts(parts)
  {
    hide Meaning, Text, Lits, ClauseItem;
    if parts == [] {
      NoArgs();
    } else {
      var ms, before := Meanings(parts), parts[..|parts| - 1];
      assert ms[..|ms| - 1] == Meanings(before);
      AllLast(ms);
      ClauseArguments(before, sep);
      var ts, m := All(Meanings(before)).value, ms[|ms| - 1].value;
      ClauseGrows(ts, m, sep);
      ClauseItemText(m, ts == [], sep);
    }
  }

  lemma {:induction false} NoArgs()
    ensures Args<Arg>([]) == [] && Args(Clause<Arg>([], "")) == []
  {}

  lemma {:induction false} SetterArguments(cs: seq<SetClause>)
    requires All(SetTerms(cs)).Some?
    ensures Args(Joined(All(SetTerms(cs)).value, ", ")) == ArgsOfSetters(cs)
  {
    if cs == [] {
    } else {
      var ms, before := SetTerms(cs), cs[..|cs| - 1];
      assert ms[..|ms| - 1] == SetTerms(before);
      AllLast(ms);
      SetterArguments(before);
      var ts := All(SetTerms(before)).value;
      SetterTermArguments(cs[|cs| - 1]);
      JoinedArguments(ts, ms[|ms| - 1].value);
    }
  }

  lemma {:induction false} JoinedArguments(ts: seq<SqlParts>, t: SqlParts)
    ensures Args(Joined(ts + [t], ", ")) == Args(Joined(ts, ", ")) + Args(t)
  {
    assert (ts + [t])[..|ts|] == ts;
    if ts != [] {
      WrittenLits(Joined(ts, ", "), ", ");
      Written(Joined(ts, ", ") + Lits(", "), t);
    }
  }

  lemma {:induction false} SetterTermArguments(c: SetClause)
    requires SetTerm(c).Some?
    ensures Args(SetTerm(c).value) == ArgsOfSetter(c)
  {
    match c.value
    case Value(_) =>
      OneHole(c.value);
      SetTermText(c, [Hole(c.value)]);
    case Nested(s) => SetTermText(c, Meaning(s).value);
  }

  lemma {:induction false} OneClause(c: ClauseDef)
    requires MeaningOf(c).Some?
    ensures Args(MeaningOf(c).value) == ArgsOfClause(c)
  {
    match c
    case Keyword(kw, parts, sep) =>
      if parts != [] {
        ClauseArguments(parts, sep);
        Written(Raw(kw), Clause(All(Meanings(parts)).value, sep));
      }
    case Words(kw, words, sep) =>
      if words != [] {
        Written(Raw(kw), Raw(StringsJoin(words, sep)));
      }
    case Setters(kw, clauses) =>
      SetterArguments(clauses);
      Written(Raw(kw), Joined(All(SetTerms(clauses)).value, ", "));
  }

  lemma {:induction false} StatementArguments(cs: seq<ClauseDef>)
    requires Sequenced(cs).Some?
    ensures Args(Sequenced(cs).value) == ArgsOfClauses(cs)
  {
    hide MeaningOf, ArgsOfClause;
    if cs != [] {
      var ms, before := MeaningsOf(cs), cs[..|cs| - 1];
      assert ms[..|ms| - 1] == MeaningsOf(before);
      AllLast(ms);
      StatementArguments(before);
      OneClause(cs[|cs| - 1]);
      var ts := All(MeaningsOf(before)).value;
      assert (ts + [ms[|ms| - 1].value])[..|ts|] == ts;
      Written(Flat(ts), ms[|ms| - 1].value);
    }
  }

  lemma {:induction false} ClausesSnoc(cs: seq<ClauseDef>, c: ClauseDef)
    ensures ArgsOfClauses(cs + [c]) == ArgsOfClauses(cs) + ArgsOfClause(c)
  {
    assert (cs + [c])[..|cs|] == cs;
  }

  lemma {:induction false} FourClauses(a: ClauseDef, b: ClauseDef, c: ClauseDef, d: ClauseDef)
    ensures ArgsOfClauses([a, b, c, d]) == ArgsOfClause(a) + ArgsOfClause(b) + ArgsOfClause(c) + ArgsOfClause(d)
  {
    hide ArgsOfClause, ArgsOfClauses;
    NoClauses();
    ClausesSnoc([], a);
    ClausesSnoc([a], b);
    ClausesSnoc([a, b], c);
    ClausesSnoc([a, b, c], d);
    assert [] + [a] == [a] && [a] + [b] == [a, b] && [a, b] + [c] == [a, b, c] && [a, b, c] + [d] == [a, b, c, d];
  }

  lemma {:induction false} ClausesAppend(cs: seq<ClauseDef>, more: seq<ClauseDef>)
    ensures ArgsOfClauses(cs + more) == ArgsOfClauses(cs) + ArgsOfClauses(more)
  {
    hide ArgsOfClause, ArgsOfClauses;
    NoClauses();
    if more == [] {
      assert cs + more == cs;
    } else {
      var before, last := more[..|more| - 1], more[|more| - 1];
      assert before + [last] == more;
      ClausesAppend(cs, before);
      ClausesSnoc(before, last);
      ClausesSnoc(cs + before, last);
      Reassociate(cs, before, [last]);
      Reassociate(ArgsOfClauses(cs), ArgsOfClauses(before), ArgsOfClause(last));
    }
  }

  /** Columns, then FROM, joins, WHERE, HAVING, ORDER BY. */
  lemma {:induction false} SelectArguments(d: SelectData)
    requires SelectMeaning(d).Some?
    ensures Args(SelectMeaning(d).value)
         == ArgsOfParts(d.columns) + ArgsOfParts(FromParts(d.from)) + ArgsOfParts(d.joins) + ArgsOfParts(d.whereParts)
            + ArgsOfParts(d.havingParts) + ArgsOfParts(d.orderByParts)
  {
    hide Sequenced, ArgsOfParts, ArgsOfClauses, ArgsOfClause, FromParts, OptionsText, NonBlank;
    var cs := SelectClauses(d);
    StatementArguments(cs);
    NineClauses(cs);
    KeywordArguments(cs[0]);
    KeywordArguments(cs[1]);
    KeywordArguments(cs[2]);
    KeywordArguments(cs[3]);
    WordsHaveNoArguments(cs[4]);
    KeywordArguments(cs[5]);
    KeywordArguments(cs[6]);
    WordsHaveNoArguments(cs[7]);
    WordsHaveNoArguments(cs[8]);
  }

  lemma {:induction false} KeywordArguments(c: ClauseDef)
    requires c.Keyword?
    ensures ArgsOfClause(c) == ArgsOfParts(c.parts)
  {}

  lemma {:induction false} WordsHaveNoArguments(c: ClauseDef)
    requires c.Words?
    ensures ArgsOfClause(c) == []
  {}

  lemma {:induction false} NineClauses(cs: seq<ClauseDef>)
    requires |cs| == 9
    ensures ArgsOfClauses(cs)
         == ArgsOfClause(cs[0]) + ArgsOfClause(cs[1]) + ArgsOfClause(cs[2]) + ArgsOfClause(cs[3])
            + (ArgsOfClause(cs[4]) + ArgsOfClause(cs[5]) + ArgsOfClause(cs[6]) + ArgsOfClause(cs[7]))
            + ArgsOfClause(cs[8])
  {
    hide ArgsOfClauses, ArgsOfClause;
    var a, b := [cs[0], cs[1], cs[2], cs[3]], [cs[4], cs[5], cs[6], cs[7]];
    assert cs == a + b + [cs[8]];
    FourClauses(cs[0], cs[1], cs[2], cs[3]);
    FourClauses(cs[4], cs[5], cs[6], cs[7]);
    ClausesAppend(a, b);
    ClausesSnoc(a + b, cs[8]);
  }

  lemma {:induction false} NoClauses()
    ensures ArgsOfClauses([]) == []
  {}

  /** The SET arguments come before the WHERE arguments. */
  lemma {:induction false} UpdateArguments(d: UpdateData)
    requires UpdateMeaning(d).Some?
    ensures Args(UpdateMeaning(d).value) == ArgsOfSetters(d.setClauses) + ArgsOfParts(d.whereParts)
  {
    hide Sequenced, ArgsOfParts, ArgsOfSetters, ArgsOfClauses;
    var cs := UpdateClauses(d);
    StatementArguments(cs);
    FourClauses(cs[0], cs[1], cs[2], cs[3]);
  }
}
