/** pkg/dbx: conditions hold of the rows they are for. */
module SqlConditionLaw {
  // The law of the conditions: read by a database, the built text and arguments of a tree of Eq, NotEq, comparisons,
  // And and Or are true of exactly the rows that the tree is for.

  import opened Bytes
  import opened SqlPieces
  import opened SqlFragments
  import opened SqlExpressions
  import opened SqlSoundness
  import opened SqlSeams
  import opened SqlReader
  import opened SqlSyntax
  import opened SqlConditions

  // ---- a tree as a condition of the reader

  function EntryAtom(useNotOpr: bool, e: Entry): Atom {
    match Valued(e.value)
    case None => ONE_IS_ONE
    case Some(v) => EqAtom(useNotOpr, e.key, Dereferenced(v))
  }

  function CompareEntryAtom(o: Operator, e: Entry): Atom {
    match Valued(e.value)
    case None => ONE_IS_ONE
    case Some(v) => if v.Null? || v.List? then ONE_IS_ONE else CompareAtom(o, e.key, AsArg(v))
  }

  function EqAtoms(useNotOpr: bool, entries: seq<Entry>): (r: seq<Atom>)
    ensures entries == [] ==> r == [ONE_IS_ONE]
    ensures entries != [] ==>
      |r| == |entries| && forall i :: 0 <= i < |r| ==> r[i] == EntryAtom(useNotOpr, entries[i])
  {
    if entries == [] then [ONE_IS_ONE]
    else seq(|entries|, i requires 0 <= i < |entries| => EntryAtom(useNotOpr, entries[i]))
  }

  function CompareAtoms(o: Operator, entries: seq<Entry>): (r: seq<Atom>)
    ensures |r| == |entries| && forall i :: 0 <= i < |r| ==> r[i] == CompareEntryAtom(o, entries[i])
  {
    seq(|entries|, i requires 0 <= i < |entries| => CompareEntryAtom(o, entries[i]))
  }

  function Syntax(t: Sqlizer): seq<Atom>
    decreases t, 0
  {
    match t
    case Eq(useNotOpr, entries) => EqAtoms(useNotOpr, entries)
    case Compare(o, entries) => CompareAtoms(o, entries)
    case And(conj) => if conj == [] then [ONE_IS_ONE] else [Group([Terms(Together(conj))])]
    case Or(conj) => if conj == [] then [ONE_IS_ZERO] else [Group(Alternatives(conj))]
    case Part(pred, _) => if pred.SqlPredicate? then Syntax(pred.sqlizer) else []
    case WherePart(pred, _) =>
      if pred.SqlPredicate? then Syntax(pred.sqlizer)
      else if pred.MapPredicate? then EqAtoms(false, pred.entries) else []
    case _ => []
  }

  /** The terms of all that say something, in one row. */
  function Together(conj: seq<Sqlizer>): seq<Atom>
    decreases conj, 1
  {
    if conj == [] then []
    else
      var n := |conj| - 1;
      Together(conj[..n]) + if Says(conj[n]) then Syntax(conj[n]) else []
  }

  function Alternatives(conj: seq<Sqlizer>): seq<Terms>
    decreases conj, 1
  {
    if conj == [] then []
    else
      var n := |conj| - 1;
      Alternatives(conj[..n]) + if Says(conj[n]) then [Terms(Syntax(conj[n]))] else []
  }

  // ---- its tokens are those of the built pieces

  lemma {:induction false} EqTermTokens(useNotOpr: bool, e: Entry)
    requires IsName(e.key)
    ensures EqTerm(useNotOpr, e).Some? ==>
      Tokens(EqTerm(useNotOpr, e).value) == AtomTokens(EntryAtom(useNotOpr, e))
  {
    hide Tokens, IsName, AtomTokens, IsRun;
    if Valued(e.value).Some? {
      match Dereferenced(Valued(e.value).value)
      case Null => NullTokens(e.key, useNotOpr);
      case List(items) =>
        if items == [] {
          ConstantTokens(!useNotOpr);
        } else {
          ListTokens(e.key, useNotOpr, items);
        }
      case o =>
        Relations();
        TestTokens(e.key, if useNotOpr then "<>" else "=", o.arg);
        assert " " + (if useNotOpr then "<>" else "=") + " " == if useNotOpr then " <> " else " = ";
    }
  }

  lemma {:induction false} Relations()
    ensures IsRun(InOperator, "=") && IsRun(InOperator, "<>") && IsRun(InOperator, "<") && IsRun(InOperator, ">")
    ensures IsRun(InOperator, "<=") && IsRun(InOperator, ">=")
  {}

  lemma {:induction false} CompareTermTokens(o: Operator, e: Entry)
    requires IsName(e.key)
    ensures CompareTerm(o, e).Some? ==> Tokens(CompareTerm(o, e).value) == AtomTokens(CompareEntryAtom(o, e))
  {
    hide Tokens, IsName, AtomTokens, IsRun;
    var v := Valued(e.value);
    if v.Some? && !v.value.Null? && !v.value.List? {
      var arg := AsArg(v.value);
      Relations();
      match o
      case Less => TestTokens(e.key, "<", arg);
      case Greater => TestTokens(e.key, ">", arg);
      case LessOrEq => TestTokens(e.key, "<=", arg);
      case GreaterOrEq => TestTokens(e.key, ">=", arg);
      case Like => LikeTokens(e.key, false, "LIKE", arg);
      case NotLike => LikeSymbols(); LikeTokens(e.key, true, "LIKE", arg);
      case ILike => LikeTokens(e.key, false, "ILIKE", arg);
      case NotILike => LikeSymbols(); LikeTokens(e.key, true, "ILIKE", arg);
    }
  }

  lemma {:induction false} LikeSymbols()
    ensures "NOT " + "LIKE" == "NOT LIKE" && "NOT " + "ILIKE" == "NOT ILIKE"
  {}

  lemma {:induction false} JoinTokens(p: SqlParts, word: string, q: SqlParts)
    requires word == "AND" || word == "OR"
    ensures Tokens(p + Lits(" " + word + " ") + q) == Tokens(p) + [Word(word)] + Tokens(q)
  {
    hide Tokens, IsRun;
    Keywords();
    var sep := " " + word + " ";
    WordToken(word);
    BlankLast(word);
    BlankFirst(word + " ");
    assert sep == " " + (word + " ");
    LitsAt(sep, |sep| - 1);
    ApartBefore(p, Lits(sep));
    TokensAppend(p, Lits(sep));
    assert (p + Lits(sep))[|p + Lits(sep)| - 1] == Lits<Arg>(sep)[|sep| - 1];
    ApartAfter(p + Lits(sep), q);
    TokensAppend(p + Lits(sep), q);
  }

  lemma {:induction false} AndSeparator()
    ensures " AND " == " " + "AND" + " " && " OR " == " " + "OR" + " "
  {}

  lemma {:induction false} JoinedTermsTokens(ps: seq<SqlParts>, atoms: seq<Atom>)
    requires |ps| == |atoms| && ps != []
    requires forall i :: 0 <= i < |ps| ==> Tokens(ps[i]) == AtomTokens(atoms[i])
    ensures Tokens(Joined(ps, " AND ")) == AllTokens(atoms)
  {
    hide Tokens, AtomTokens;
    if |ps| > 1 {
      var n := |ps| - 1;
      JoinedTermsTokens(ps[..n], atoms[..n]);
      AndSeparator();
      JoinTokens(Joined(ps[..n], " AND "), "AND", ps[n]);
      AllTokensAppend(atoms[..n], [atoms[n]]);
      assert atoms[..n] + [atoms[n]] == atoms;
    }
  }

  lemma {:induction false} EqTokens(useNotOpr: bool, entries: seq<Entry>)
    requires KeysAreNames(entries)
    ensures EqMeaning(useNotOpr, entries).Some? ==>
      Tokens(EqMeaning(useNotOpr, entries).value) == AllTokens(EqAtoms(useNotOpr, entries))
  {
    hide Tokens, AtomTokens, IsName, EntryAtom;
    if entries == [] {
      ConstantTokens(false);
    } else {
      var ms := seq(|entries|, i requires 0 <= i < |entries| => EqTerm(useNotOpr, entries[i]));
      if All(ms).Some? {
        forall i | 0 <= i < |ms| ensures Tokens(All(ms).value[i]) == AtomTokens(EntryAtom(useNotOpr, entries[i])) {
          EqTermTokens(useNotOpr, entries[i]);
          assert ms[i] == Some(All(ms).value[i]);
        }
        JoinedTermsTokens(All(ms).value, EqAtoms(useNotOpr, entries));
      }
    }
  }

  lemma {:induction false} CompareTokens(o: Operator, entries: seq<Entry>)
    requires KeysAreNames(entries) && entries != []
    ensures CompareMeaning(o, entries).Some? ==>
      Tokens(CompareMeaning(o, entries).value) == AllTokens(CompareAtoms(o, entries))
  {
    hide Tokens, AtomTokens, IsName, CompareEntryAtom;
    var ms := seq(|entries|, i requires 0 <= i < |entries| => CompareTerm(o, entries[i]));
    if All(ms).Some? {
      forall i | 0 <= i < |ms| ensures Tokens(All(ms).value[i]) == AtomTokens(CompareEntryAtom(o, entries[i])) {
        CompareTermTokens(o, entries[i]);
        assert ms[i] == Some(All(ms).value[i]);
      }
      JoinedTermsTokens(All(ms).value, CompareAtoms(o, entries));
    }
  }

  /** The pieces of a tree that says something have the tokens of its syntax; those of one that does not are none. */
  ghost predicate WrittenAs(t: Sqlizer, p: SqlParts) {
    if Says(t) then Text(p) != "" && Syntax(t) != [] && Tokens(p) == AllTokens(Syntax(t)) else p == []
  }

  predicate SomeSay(conj: seq<Sqlizer>) {
    exists i :: 0 <= i < |conj| && Says(conj[i])
  }

  lemma {:induction false} SomeSayStep(conj: seq<Sqlizer>)
    requires conj != []
    ensures SomeSay(conj) <==> SomeSay(conj[..|conj| - 1]) || Says(conj[|conj| - 1])
  {
    var n := |conj| - 1;
    if SomeSay(conj[..n]) {
      var i :| 0 <= i < n && Says(conj[..n][i]);
      assert Says(conj[i]);
    }
    if SomeSay(conj) && !Says(conj[n]) {
      var i :| 0 <= i < |conj| && Says(conj[i]);
      assert Says(conj[..n][i]);
    }
  }

  /** What is left of the parts without text, joined, has the tokens of their terms. */
  ghost predicate KeptWritten(conj: seq<Sqlizer>, ts: seq<SqlParts>) {
    && (NonEmpty(ts) != [] <==> SomeSay(conj))
    && (Together(conj) != [] <==> SomeSay(conj))
    && (Alternatives(conj) != [] <==> SomeSay(conj))
    && (SomeSay(conj) ==>
          && Tokens(Joined(NonEmpty(ts), " AND ")) == AllTokens(Together(conj))
          && Tokens(Joined(NonEmpty(ts), " OR ")) == AnyTokens(Alternatives(conj)))
  }

  lemma {:induction false} KeptTokens(conj: seq<Sqlizer>, ts: seq<SqlParts>)
    requires |conj| == |ts| && forall i :: 0 <= i < |ts| ==> WrittenAs(conj[i], ts[i])
    ensures KeptWritten(conj, ts)
  {
    hide KeptWritten, WrittenAs;
    if conj == [] {
      NobodySays();
    } else {
      var n := |conj| - 1;
      assert WrittenAs(conj[n], ts[n]);
      KeptTokens(conj[..n], ts[..n]);
      if Says(conj[n]) {
        OneMoreKept(conj[..n], ts[..n], conj[n], ts[n]);
      } else {
        OneLeftOut(conj[..n], ts[..n], conj[n], ts[n]);
      }
      assert conj[..n] + [conj[n]] == conj && ts[..n] + [ts[n]] == ts;
    }
  }

  lemma {:induction false} NobodySays()
    ensures KeptWritten([], [])
  {}

  lemma {:induction false} OneLeftOut(conj: seq<Sqlizer>, ts: seq<SqlParts>, c: Sqlizer, p: SqlParts)
    requires |conj| == |ts| && KeptWritten(conj, ts) && !Says(c) && WrittenAs(c, p)
    ensures KeptWritten(conj + [c], ts + [p])
  {
    hide Tokens, Says, Syntax, SomeSay, AllTokens, AnyTokens;
    assert (ts + [p])[..|ts|] == ts && (conj + [c])[..|conj|] == conj;
    NoText();
    assert Together(conj) + [] == Together(conj) && Alternatives(conj) + [] == Alternatives(conj);
    SomeSayStep(conj + [c]);
  }

  lemma {:induction false} NoText()
    ensures Text<Arg>([]) == ""
  {}

  lemma {:induction false} OneMoreKept(conj: seq<Sqlizer>, ts: seq<SqlParts>, c: Sqlizer, p: SqlParts)
    requires |conj| == |ts| && KeptWritten(conj, ts) && Says(c) && WrittenAs(c, p)
    ensures KeptWritten(conj + [c], ts + [p])
  {
    hide Tokens, Says, Syntax, SomeSay, AllTokens, AnyTokens;
    assert (ts + [p])[..|ts|] == ts && (conj + [c])[..|conj|] == conj;
    var kept, terms := NonEmpty(ts), Syntax(c);
    SomeSayStep(conj + [c]);
    assert NonEmpty(ts + [p]) == kept + [p];
    assert Together(conj + [c]) == Together(conj) + terms;
    assert Alternatives(conj + [c]) == Alternatives(conj) + [Terms(terms)];
    if kept == [] {
      AnyOfOne(terms);
      assert kept + [p] == [p] && Together(conj) + terms == terms;
      assert Alternatives(conj) + [Terms(terms)] == [Terms(terms)];
    } else {
      OneMoreJoined(kept, p, Together(conj), Alternatives(conj), terms);
    }
  }

  lemma {:induction false} OneMoreJoined(kept: seq<SqlParts>, p: SqlParts, together: seq<Atom>,
                                         alternatives: seq<Terms>, terms: seq<Atom>)
    requires kept != [] && together != [] && alternatives != [] && terms != [] && Tokens(p) == AllTokens(terms)
    requires Tokens(Joined(kept, " AND ")) == AllTokens(together)
    requires Tokens(Joined(kept, " OR ")) == AnyTokens(alternatives)
    ensures Tokens(Joined(kept + [p], " AND ")) == AllTokens(together + terms)
    ensures Tokens(Joined(kept + [p], " OR ")) == AnyTokens(alternatives + [Terms(terms)])
  {
    hide Tokens, AllTokens, AnyTokens;
    assert (kept + [p])[..|kept|] == kept;
    AnyOfOne(terms);
    AndSeparator();
    JoinTokens(Joined(kept, " AND "), "AND", p);
    JoinTokens(Joined(kept, " OR "), "OR", p);
    AllTokensAppend(together, terms);
    AnyTokensAppend(alternatives, [Terms(terms)]);
  }

  lemma {:induction false} AnyOfOne(terms: seq<Atom>)
    ensures AnyTokens([Terms(terms)]) == AllTokens(terms)
  {}

  lemma {:induction false} InParentheses(p: SqlParts)
    ensures Tokens(Lits("(") + p + Lits(")")) == [Sign('(')] + Tokens(p) + [Sign(')')]
    ensures Text(Lits("(") + p + Lits(")")) != ""
  {
    hide Tokens;
    SignToken('(');
    assert Lits<Arg>(['(']) == [Lit('(')];
    ApartAfter(Lits("("), p);
    TokensAppend(Lits("("), p);
    SignBehind(Lits("(") + p, ')');
    Parenthesized(p);
  }

  lemma {:induction false} EmptyJunction(t: Sqlizer)
    requires (t.And? || t.Or?) && t.conj == []
    ensures WrittenAs(t, Lits(if t.And? then SQL_TRUE else SQL_FALSE))
  {
    hide Tokens, AllTokens;
    ConstantTokens(t.Or?);
    LitsRender<Arg>(SQL_TRUE);
    LitsRender<Arg>(SQL_FALSE);
    OneTerm(if t.Or? then ONE_IS_ZERO else ONE_IS_ONE);
  }

  lemma {:induction false} GroupTokens(t: Sqlizer, ts: seq<SqlParts>)
    requires (t.And? || t.Or?) && t.conj != [] && KeptWritten(t.conj, ts) && NonEmpty(ts) != []
    ensures WrittenAs(t, Lits("(") + Joined(NonEmpty(ts), if t.And? then " AND " else " OR ") + Lits(")"))
  {
    hide Tokens, AllTokens, AnyTokens, Together, Alternatives, NonEmpty, Joined, Lits;
    InParentheses(Joined(NonEmpty(ts), if t.And? then " AND " else " OR "));
    assert Says(t) <==> SomeSay(t.conj);
    OneTerm(Syntax(t)[0]);
    assert Syntax(t) == [Syntax(t)[0]];
    AnyOfOne(Together(t.conj));
  }

  lemma {:induction false} JunctionTokens(t: Sqlizer, ts: seq<SqlParts>, p: SqlParts)
    requires (t.And? || t.Or?) && |ts| == |t.conj| && forall i :: 0 <= i < |ts| ==> WrittenAs(t.conj[i], ts[i])
    requires Junction(Some(ts), if t.And? then " AND " else " OR ", if t.And? then SQL_TRUE else SQL_FALSE) == Some(p)
    ensures WrittenAs(t, p)
  {
    hide Tokens, Syntax, Joined, Lits, AllTokens;
    if t.conj == [] {
      EmptyJunction(t);
    } else {
      KeptTokens(t.conj, ts);
      if NonEmpty(ts) != [] {
        GroupTokens(t, ts);
      } else {
        assert !SomeSay(t.conj);
      }
    }
  }

  lemma {:induction false} OneTerm(a: Atom)
    ensures AllTokens([a]) == AtomTokens(a)
  {}

  lemma {:induction false} IsMatched(t: Sqlizer)
    requires IsCondition(t)
    ensures Matched(t) && NoConcat(t)
  {
    match t
    case Eq(_, entries) => NamesMatched(entries);
    case Compare(_, entries) => NamesMatched(entries);
    case And(conj) =>
      forall i | 0 <= i < |conj| ensures Matched(conj[i]) && NoConcat(conj[i]) {
        IsMatched(conj[i]);
      }
    case Or(conj) =>
      forall i | 0 <= i < |conj| ensures Matched(conj[i]) && NoConcat(conj[i]) {
        IsMatched(conj[i]);
      }
    case Part(pred, _) =>
      if pred.SqlPredicate? {
        IsMatched(pred.sqlizer);
      }
    case WherePart(pred, _) =>
      if pred.SqlPredicate? {
        IsMatched(pred.sqlizer);
      } else {
        NamesMatched(pred.entries);
      }
    case _ =>
  }

  lemma {:induction false} NamesMatched(entries: seq<Entry>)
    requires KeysAreNames(entries)
    ensures KeysMatched(entries)
  {
    forall i | 0 <= i < |entries| ensures HoleCount(entries[i].key) == 0 {
      KeyTokens(entries[i].key);
    }
  }

  lemma {:induction false} TokensMeanText(t: Sqlizer)
    requires Matched(t) && Meaning(t).Some? && Tokens(Meaning(t).value) != []
    ensures Text(Meaning(t).value) != ""
  {
    hide Matched;
    NoTokens();
    MeaningBalanced(t);
    SomethingWritten(Meaning(t).value);
  }

  lemma {:induction false} TermsHaveTokens(atoms: seq<Atom>)
    requires atoms != []
    ensures AllTokens(atoms) != []
  {}

  lemma {:induction false} ConditionTokens(t: Sqlizer)
    requires IsCondition(t) && Meaning(t).Some?
    ensures WrittenAs(t, Meaning(t).value)
    decreases t, 1
  {
    hide Tokens, AllTokens;
    match t
    case Eq(useNotOpr, entries) =>
      EqTokens(useNotOpr, entries);
      BaseWritten(t);
    case Compare(o, entries) =>
      if entries == [] {
        assert CompareMeaning(o, entries) == Some([]);
      } else {
        CompareTokens(o, entries);
        BaseWritten(t);
      }
    case And(conj) => ConjTokens(t);
    case Or(conj) => ConjTokens(t);
    case Part(pred, _) =>
      if pred.SqlPredicate? {
        ConditionTokens(pred.sqlizer);
      }
    case WherePart(pred, _) =>
      if pred.SqlPredicate? {
        ConditionTokens(pred.sqlizer);
      } else {
        EqTokens(false, pred.entries);
        BaseWritten(t);
      }
    case _ =>
  }

  lemma {:induction false} BaseWritten(t: Sqlizer)
    requires IsCondition(t) && Meaning(t).Some? && Says(t) && Syntax(t) != []
    requires Tokens(Meaning(t).value) == AllTokens(Syntax(t))
    ensures WrittenAs(t, Meaning(t).value)
  {
    hide Tokens, AllTokens, Syntax, Says;
    TermsHaveTokens(Syntax(t));
    IsMatched(t);
    TokensMeanText(t);
  }

  lemma {:induction false} ConjTokens(t: Sqlizer)
    requires (t.And? || t.Or?) && IsCondition(t) && Meaning(t).Some?
    ensures WrittenAs(t, Meaning(t).value)
    decreases t, 0
  {
    hide WrittenAs;
    MeaningOfJunction(t);
    var ts := All(Meanings(t.conj)).value;
    forall i | 0 <= i < |ts| ensures WrittenAs(t.conj[i], ts[i]) {
      assert Meanings(t.conj)[i] == Some(ts[i]);
      ConditionTokens(t.conj[i]);
    }
    JunctionTokens(t, ts, Meaning(t).value);
  }

  // ---- the syntax can be read

  lemma {:induction false} AllOkFrom(atoms: seq<Atom>)
    requires forall i :: 0 <= i < |atoms| ==> AtomOk(atoms[i])
    ensures AllOk(atoms)
    decreases |atoms|
  {
    hide AtomOk;
    if atoms != [] {
      assert forall i :: 0 <= i < |atoms| - 1 ==> atoms[1..][i] == atoms[i + 1];
      AllOkFrom(atoms[1..]);
    }
  }

  lemma {:induction false} ConstantsOk()
    ensures AtomOk(ONE_IS_ONE) && AtomOk(ONE_IS_ZERO)
  {
    var digits := [Test(Number("1"), "=", Number("1"))];
    var zero := [Test(Number("1"), "=", Number("0"))];
    assert digits[1..] == [] && zero[1..] == [];
    assert [Terms(digits)][1..] == [] && [Terms(zero)][1..] == [];
    assert AllOk(digits) && AllOk(zero);
  }

  lemma {:induction false} EntryAtomOk(useNotOpr: bool, e: Entry)
    requires IsName(e.key)
    ensures AtomOk(EntryAtom(useNotOpr, e))
  {
    hide IsName;
    ConstantsOk();
  }

  lemma {:induction false} CompareEntryAtomOk(o: Operator, e: Entry)
    requires IsName(e.key)
    ensures AtomOk(CompareEntryAtom(o, e))
  {
    hide IsName;
    ConstantsOk();
  }

  lemma {:induction false} EqAtomsOk(useNotOpr: bool, entries: seq<Entry>)
    requires KeysAreNames(entries)
    ensures AllOk(EqAtoms(useNotOpr, entries))
  {
    hide AtomOk, AllOk, EntryAtom, IsName;
    var atoms := EqAtoms(useNotOpr, entries);
    ConstantsOk();
    forall i | 0 <= i < |atoms| ensures AtomOk(atoms[i]) {
      if entries != [] {
        EntryAtomOk(useNotOpr, entries[i]);
      }
    }
    AllOkFrom(atoms);
  }

  lemma {:induction false} CompareAtomsOk(o: Operator, entries: seq<Entry>)
    requires KeysAreNames(entries)
    ensures AllOk(CompareAtoms(o, entries))
  {
    hide AtomOk, AllOk, CompareEntryAtom, IsName;
    var atoms := CompareAtoms(o, entries);
    forall i | 0 <= i < |atoms| ensures AtomOk(atoms[i]) {
      CompareEntryAtomOk(o, entries[i]);
    }
    AllOkFrom(atoms);
  }

  lemma {:induction false} SyntaxOk(t: Sqlizer)
    requires IsCondition(t) && Says(t)
    ensures AllOk(Syntax(t)) && Syntax(t) != []
    decreases t, 0
  {
    hide AllOk, AnyOk, EqAtoms, CompareAtoms, KeysAreNames;
    match t
    case Eq(useNotOpr, entries) => EqAtomsOk(useNotOpr, entries);
    case Compare(o, entries) => CompareAtomsOk(o, entries);
    case And(conj) =>
      ConstantsOk();
      if conj == [] {
        OneOk(ONE_IS_ONE);
      } else {
        PartsOk(conj);
        OneAlternativeOk(Together(conj));
        OneOk(Syntax(t)[0]);
      }
    case Or(conj) =>
      ConstantsOk();
      if conj == [] {
        OneOk(ONE_IS_ZERO);
      } else {
        PartsOk(conj);
        OneOk(Syntax(t)[0]);
      }
    case Part(pred, _) => SyntaxOk(pred.sqlizer);
    case WherePart(pred, _) =>
      if pred.SqlPredicate? {
        SyntaxOk(pred.sqlizer);
      } else {
        EqAtomsOk(false, pred.entries);
      }
    case _ =>
  }

  lemma {:induction false} PartsOk(conj: seq<Sqlizer>)
    requires forall i :: 0 <= i < |conj| ==> IsCondition(conj[i])
    ensures AllOk(Together(conj)) && AnyOk(Alternatives(conj))
    ensures SomeSay(conj) ==> Together(conj) != [] && Alternatives(conj) != []
    decreases conj, 1
  {
    hide AllOk, AnyOk, Syntax, IsCondition, Says, SomeSay;
    if conj == [] {
      NoneOk();
      NobodySays();
    } else {
      var n := |conj| - 1;
      PartsOk(conj[..n]);
      SomeSayStep(conj);
      if Says(conj[n]) {
        SyntaxOk(conj[n]);
        AllOkAppend(Together(conj[..n]), Syntax(conj[n]));
        OneAlternativeOk(Syntax(conj[n]));
        AnyOkAppend(Alternatives(conj[..n]), [Terms(Syntax(conj[n]))]);
      } else {
        assert Together(conj[..n]) + [] == Together(conj[..n]);
        assert Alternatives(conj[..n]) + [] == Alternatives(conj[..n]);
      }
    }
  }

  lemma {:induction false} NoneOk()
    ensures AllOk([]) && AnyOk([])
  {}

  lemma {:induction false} OneOk(a: Atom)
    requires AtomOk(a)
    ensures AllOk([a])
  {
    assert [a][1..] == [];
  }

  lemma {:induction false} OneAlternativeOk(atoms: seq<Atom>)
    requires AllOk(atoms) && atoms != []
    ensures AnyOk([Terms(atoms)])
  {
    assert [Terms(atoms)][1..] == [];
  }

  // ---- and is true of the rows the tree is for

  lemma {:induction false} AllTrueIf(db: Database, row: Row, atoms: seq<Atom>)
    ensures AllTrue(db, row, atoms).True? <==> forall i :: 0 <= i < |atoms| ==> Evaluate(db, row, atoms[i]).True?
    decreases |atoms|
  {
    hide Evaluate;
    if atoms != [] {
      AllTrueIf(db, row, atoms[1..]);
      assert forall i :: 0 <= i < |atoms| - 1 ==> atoms[1..][i] == atoms[i + 1];
      if AllTrue(db, row, atoms).True? {
        forall i | 0 <= i < |atoms| ensures Evaluate(db, row, atoms[i]).True? {
          assert i > 0 ==> atoms[i] == atoms[1..][i - 1];
        }
      }
    }
  }

  lemma {:induction false} AllTrueAppend(db: Database, row: Row, a: seq<Atom>, b: seq<Atom>)
    ensures AllTrue(db, row, a + b).True? <==> AllTrue(db, row, a).True? && AllTrue(db, row, b).True?
    decreases |a|
  {
    hide Evaluate;
    if a == [] {
      assert a + b == b;
    } else {
      AllTrueAppend(db, row, a[1..], b);
      assert (a + b)[0] == a[0] && (a + b)[1..] == a[1..] + b;
    }
  }

  lemma {:induction false} AnyTrueAppend(db: Database, row: Row, a: seq<Terms>, b: seq<Terms>)
    ensures AnyTrue(db, row, a + b).True? <==> AnyTrue(db, row, a).True? || AnyTrue(db, row, b).True?
    decreases |a|
  {
    hide AllTrue;
    if a == [] {
      assert a + b == b;
    } else {
      AnyTrueAppend(db, row, a[1..], b);
      assert (a + b)[0] == a[0] && (a + b)[1..] == a[1..] + b;
    }
  }

  lemma {:induction false} OneTrue(db: Database, row: Row, a: Atom)
    ensures AllTrue(db, row, [a]).True? <==> Evaluate(db, row, a).True?
  {
    assert [a][1..] == [];
  }

  lemma {:induction false} OneAlternative(db: Database, row: Row, atoms: seq<Atom>)
    ensures AnyTrue(db, row, [Terms(atoms)]).True? <==> AllTrue(db, row, atoms).True?
  {
    assert [Terms(atoms)][1..] == [];
  }

  lemma {:induction false} Constants(db: Database, row: Row)
    ensures Evaluate(db, row, ONE_IS_ONE).True? && !Evaluate(db, row, ONE_IS_ZERO).True?
  {
    var one, zero := Test(Number("1"), "=", Number("1")), Test(Number("1"), "=", Number("0"));
    assert "1"[..0] == "" && "0"[..0] == "";
    assert NumberOf("1") == 1 && NumberOf("0") == 0;
    OneTrue(db, row, one);
    OneTrue(db, row, zero);
    OneAlternative(db, row, [one]);
    OneAlternative(db, row, [zero]);
  }

  lemma {:induction false} ListTruth(db: Database, row: Row, x: Option<int>, items: seq<Arg>)
    ensures InList(db, row, x, Params(items)).True? <==> exists i :: 0 <= i < |items| && Same(x, db.value(items[i]))
    ensures InList(db, row, x, Params(items)).False? <==>
            forall i :: 0 <= i < |items| ==> Differs(x, db.value(items[i]))
  {
    if items != [] {
      ListTruth(db, row, x, items[1..]);
      assert Params(items)[1..] == Params(items[1..]);
      assert forall i :: 0 <= i < |items| - 1 ==> items[1..][i] == items[i + 1];
      if i :| 0 <= i < |items| && Same(x, db.value(items[i])) {
        assert i > 0 ==> Same(x, db.value(items[1..][i - 1]));
      }
      if forall i :: 0 <= i < |items[1..]| ==> Differs(x, db.value(items[1..][i])) {
        assert forall i :: 0 < i < |items| ==> items[i] == items[1..][i - 1];
      }
    }
  }

  lemma {:induction false} EntryTruth(db: Database, row: Row, useNotOpr: bool, e: Entry)
    requires Valued(e.value).Some?
    ensures Evaluate(db, row, EntryAtom(useNotOpr, e)).True? <==>
            if useNotOpr then EntryFails(db, row, e) else EntryHolds(db, row, e)
  {
    hide InList;
    Constants(db, row);
    match Dereferenced(Valued(e.value).value)
    case List(items) => ListTruth(db, row, row(e.key), items);
    case _ =>
  }

  lemma {:induction false} CompareTruth(db: Database, row: Row, o: Operator, e: Entry)
    requires CompareTerm(o, e).Some?
    ensures Evaluate(db, row, CompareEntryAtom(o, e)).True? <==> CompareHolds(o, db, row, e)
  {}

  lemma {:induction false} EqTruth(db: Database, row: Row, useNotOpr: bool, entries: seq<Entry>)
    requires EqMeaning(useNotOpr, entries).Some?
    ensures AllTrue(db, row, EqAtoms(useNotOpr, entries)).True? <==>
      forall i :: 0 <= i < |entries| ==>
        if useNotOpr then EntryFails(db, row, entries[i]) else EntryHolds(db, row, entries[i])
  {
    hide Evaluate, EntryAtom, EntryFails, EntryHolds;
    var atoms := EqAtoms(useNotOpr, entries);
    if entries == [] {
      Constants(db, row);
      OneTrue(db, row, ONE_IS_ONE);
    } else {
      var ms := seq(|entries|, i requires 0 <= i < |entries| => EqTerm(useNotOpr, entries[i]));
      AllTrueIf(db, row, atoms);
      forall i | 0 <= i < |entries|
        ensures Evaluate(db, row, atoms[i]).True? <==>
                if useNotOpr then EntryFails(db, row, entries[i]) else EntryHolds(db, row, entries[i])
      {
        assert ms[i] == Some(All(ms).value[i]);
        EntryTruth(db, row, useNotOpr, entries[i]);
      }
    }
  }

  lemma {:induction false} ComparesTruth(db: Database, row: Row, o: Operator, entries: seq<Entry>)
    requires CompareMeaning(o, entries).Some?
    ensures AllTrue(db, row, CompareAtoms(o, entries)).True? <==>
      forall i :: 0 <= i < |entries| ==> CompareHolds(o, db, row, entries[i])
  {
    hide Evaluate, CompareEntryAtom, CompareHolds, CompareTerm;
    var atoms := CompareAtoms(o, entries);
    var ms := seq(|entries|, i requires 0 <= i < |entries| => CompareTerm(o, entries[i]));
    AllTrueIf(db, row, atoms);
    forall i | 0 <= i < |entries| ensures Evaluate(db, row, atoms[i]).True? <==> CompareHolds(o, db, row, entries[i]) {
      assert ms[i] == Some(All(ms).value[i]);
      CompareTruth(db, row, o, entries[i]);
    }
  }

  ghost predicate SayAndHold(conj: seq<Sqlizer>, db: Database, row: Row) {
    forall i :: 0 <= i < |conj| ==> Says(conj[i]) ==> Holds(conj[i], db, row)
  }

  ghost predicate SomeHolds(conj: seq<Sqlizer>, db: Database, row: Row) {
    exists i :: 0 <= i < |conj| && Says(conj[i]) && Holds(conj[i], db, row)
  }

  lemma {:induction false} HoldsStep(conj: seq<Sqlizer>, db: Database, row: Row)
    requires conj != []
    ensures var n := |conj| - 1;
      && (SayAndHold(conj, db, row) <==> SayAndHold(conj[..n], db, row) && (Says(conj[n]) ==> Holds(conj[n], db, row)))
      && (SomeHolds(conj, db, row) <==> SomeHolds(conj[..n], db, row) || (Says(conj[n]) && Holds(conj[n], db, row)))
  {
    hide Says, Holds;
    var n := |conj| - 1;
    assert forall i :: 0 <= i < n ==> conj[..n][i] == conj[i];
    if SomeHolds(conj, db, row) {
      var i :| 0 <= i < |conj| && Says(conj[i]) && Holds(conj[i], db, row);
      if i < n {
        assert Says(conj[..n][i]) && Holds(conj[..n][i], db, row);
      }
    }
    if SomeHolds(conj[..n], db, row) {
      var i :| 0 <= i < n && Says(conj[..n][i]) && Holds(conj[..n][i], db, row);
      assert Says(conj[i]) && Holds(conj[i], db, row);
    }
    if SayAndHold(conj, db, row) {
      forall i | 0 <= i < n ensures Says(conj[..n][i]) ==> Holds(conj[..n][i], db, row) {
        assert conj[..n][i] == conj[i];
      }
    }
    if SayAndHold(conj[..n], db, row) {
      forall i | 0 <= i < n ensures Says(conj[i]) ==> Holds(conj[i], db, row) {
        assert conj[..n][i] == conj[i];
      }
    }
  }

  /** Whether the built tree is a condition whose parts can all be built. */
  predicate AllBuilt(conj: seq<Sqlizer>) {
    forall i :: 0 <= i < |conj| ==> IsCondition(conj[i]) && Meaning(conj[i]).Some?
  }

  lemma {:induction false} PartsTruth(db: Database, row: Row, conj: seq<Sqlizer>)
    requires AllBuilt(conj)
    ensures AllTrue(db, row, Together(conj)).True? <==> SayAndHold(conj, db, row)
    ensures AnyTrue(db, row, Alternatives(conj)).True? <==> SomeHolds(conj, db, row)
    decreases conj, 1
  {
    hide Syntax, IsCondition, Says, Holds, Meaning, SayAndHold, SomeHolds;
    if conj == [] {
      NothingHolds(db, row);
    } else {
      var n := |conj| - 1;
      PartsTruth(db, row, conj[..n]);
      HoldsStep(conj, db, row);
      if Says(conj[n]) {
        SyntaxHolds(db, row, conj[n]);
        AllTrueAppend(db, row, Together(conj[..n]), Syntax(conj[n]));
        OneAlternative(db, row, Syntax(conj[n]));
        AnyTrueAppend(db, row, Alternatives(conj[..n]), [Terms(Syntax(conj[n]))]);
      } else {
        assert Together(conj[..n]) + [] == Together(conj[..n]);
        assert Alternatives(conj[..n]) + [] == Alternatives(conj[..n]);
      }
    }
  }

  lemma {:induction false} NothingHolds(db: Database, row: Row)
    ensures SayAndHold([], db, row) && !SomeHolds([], db, row)
    ensures AllTrue(db, row, []).True? && !AnyTrue(db, row, []).True?
  {}

  lemma {:induction false} SyntaxHolds(db: Database, row: Row, t: Sqlizer)
    requires IsCondition(t) && Meaning(t).Some? && Says(t)
    ensures AllTrue(db, row, Syntax(t)).True? <==> Holds(t, db, row)
    decreases t, 1
  {
    hide AllTrue, AnyTrue, EntryFails, EntryHolds, CompareHolds, EqAtoms, CompareAtoms, Together, Alternatives;
    hide EqMeaning, CompareMeaning, KeysAreNames;
    match t
    case Eq(useNotOpr, entries) => EqTruth(db, row, useNotOpr, entries);
    case Compare(o, entries) => ComparesTruth(db, row, o, entries);
    case And(conj) => JunctionTruth(db, row, t);
    case Or(conj) => JunctionTruth(db, row, t);
    case Part(pred, _) => SyntaxHolds(db, row, pred.sqlizer);
    case WherePart(pred, _) =>
      if pred.SqlPredicate? {
        SyntaxHolds(db, row, pred.sqlizer);
      } else {
        EqTruth(db, row, false, pred.entries);
      }
    case _ =>
  }

  lemma {:induction false} PartsBuilt(t: Sqlizer)
    requires (t.And? || t.Or?) && IsCondition(t) && Meaning(t).Some?
    ensures AllBuilt(t.conj)
  {
    hide Meaning, IsCondition;
    MeaningOfJunction(t);
    ConditionsInside(t);
    forall i | 0 <= i < |t.conj| ensures IsCondition(t.conj[i]) && Meaning(t.conj[i]).Some? {
      assert Meanings(t.conj)[i] == Some(All(Meanings(t.conj)).value[i]);
    }
  }

  lemma {:induction false} ConditionsInside(t: Sqlizer)
    requires (t.And? || t.Or?) && IsCondition(t)
    ensures forall i :: 0 <= i < |t.conj| ==> IsCondition(t.conj[i])
  {}

  lemma {:induction false} JunctionHolds(t: Sqlizer, db: Database, row: Row)
    ensures t.And? ==> (Holds(t, db, row) <==> SayAndHold(t.conj, db, row))
    ensures t.Or? ==> (Holds(t, db, row) <==> SomeHolds(t.conj, db, row))
  {}

  lemma {:induction false} JunctionEvaluates(db: Database, row: Row, t: Sqlizer)
    requires t.And? || t.Or?
    ensures AllTrue(db, row, Syntax(t)).True? <==>
      if t.And? then t.conj == [] || AllTrue(db, row, Together(t.conj)).True?
      else t.conj != [] && AnyTrue(db, row, Alternatives(t.conj)).True?
  {
    hide AllTrue, AnyTrue, Together, Alternatives;
    Constants(db, row);
    var a := if t.conj == [] then if t.And? then ONE_IS_ONE else ONE_IS_ZERO
             else if t.And? then Group([Terms(Together(t.conj))]) else Group(Alternatives(t.conj));
    assert Syntax(t) == [a];
    OneTrue(db, row, a);
    OneAlternative(db, row, Together(t.conj));
  }

  lemma {:induction false} JunctionTruth(db: Database, row: Row, t: Sqlizer)
    requires (t.And? || t.Or?) && IsCondition(t) && Meaning(t).Some?
    ensures AllTrue(db, row, Syntax(t)).True? <==> Holds(t, db, row)
    decreases t, 0
  {
    hide AllTrue, AnyTrue, Together, Alternatives, Holds, Meaning, IsCondition, SayAndHold, SomeHolds, Syntax, AllBuilt;
    PartsBuilt(t);
    PartsTruth(db, row, t.conj);
    JunctionHolds(t, db, row);
    JunctionEvaluates(db, row, t);
    if t.conj == [] {
      NothingHolds(db, row);
    }
  }

  // ---- the law

  /** What a condition needs to be built: values of valuers, and no NULL and no list where values are compared. */
  predicate EntriesBuildable(entries: seq<Entry>) {
    forall i :: 0 <= i < |entries| ==> Valued(entries[i].value).Some?
  }

  predicate EntriesComparable(entries: seq<Entry>) {
    forall i :: 0 <= i < |entries| ==>
      var v := Valued(entries[i].value); v.Some? && !v.value.Null? && !v.value.List?
  }

  predicate Buildable(t: Sqlizer) {
    match t
    case Eq(_, entries) => EntriesBuildable(entries)
    case Compare(_, entries) => EntriesComparable(entries)
    case And(conj) => forall i :: 0 <= i < |conj| ==> Buildable(conj[i])
    case Or(conj) => forall i :: 0 <= i < |conj| ==> Buildable(conj[i])
    case Part(pred, _) => pred.SqlPredicate? ==> Buildable(pred.sqlizer)
    case WherePart(pred, _) =>
      && (pred.SqlPredicate? ==> Buildable(pred.sqlizer))
      && (pred.MapPredicate? ==> EntriesBuildable(pred.entries))
    case _ => true
  }

  lemma {:induction false} EqBuilt(useNotOpr: bool, entries: seq<Entry>)
    ensures EqMeaning(useNotOpr, entries).Some? <==> EntriesBuildable(entries)
  {
    if entries != [] {
      var ms := seq(|entries|, i requires 0 <= i < |entries| => EqTerm(useNotOpr, entries[i]));
      AllOrNone(ms);
      assert forall i :: 0 <= i < |entries| ==> (ms[i].Some? <==> Valued(entries[i].value).Some?);
      if !EntriesBuildable(entries) {
        var i :| 0 <= i < |entries| && Valued(entries[i].value).None?;
        assert ms[i] == None;
      }
    }
  }

  lemma {:induction false} CompareBuilt(o: Operator, entries: seq<Entry>)
    ensures CompareMeaning(o, entries).Some? <==> EntriesComparable(entries)
  {
    var ms := seq(|entries|, i requires 0 <= i < |entries| => CompareTerm(o, entries[i]));
    AllOrNone(ms);
    if !EntriesComparable(entries) {
      var i :| 0 <= i < |entries|
        && !(var v := Valued(entries[i].value); v.Some? && !v.value.Null? && !v.value.List?);
      assert ms[i] == None;
    }
  }

  lemma {:induction false} BuiltExactlyWhen(t: Sqlizer)
    requires IsCondition(t)
    ensures Meaning(t).Some? <==> Buildable(t)
    decreases t, 1
  {
    match t
    case Eq(useNotOpr, entries) => EqBuilt(useNotOpr, entries);
    case Compare(o, entries) => CompareBuilt(o, entries);
    case And(conj) => ConjBuilt(t);
    case Or(conj) => ConjBuilt(t);
    case Part(pred, _) =>
      if pred.SqlPredicate? {
        BuiltExactlyWhen(pred.sqlizer);
      }
    case WherePart(pred, _) =>
      if pred.SqlPredicate? {
        BuiltExactlyWhen(pred.sqlizer);
      } else {
        EqBuilt(false, pred.entries);
      }
    case _ =>
  }

  lemma {:induction false} ConjBuilt(t: Sqlizer)
    requires (t.And? || t.Or?) && IsCondition(t)
    ensures Meaning(t).Some? <==> Buildable(t)
    decreases t, 0
  {
    MeaningOfJunction(t);
    AllOrNone(Meanings(t.conj));
    forall i | 0 <= i < |t.conj| ensures Meanings(t.conj)[i].Some? <==> Buildable(t.conj[i]) {
      BuiltExactlyWhen(t.conj[i]);
    }
    if !Buildable(t) {
      var i :| 0 <= i < |t.conj| && !Buildable(t.conj[i]);
      assert Meanings(t.conj)[i] == None;
    }
  }

  /**
   A condition is built exactly when its values can be. What is built has text exactly when the tree says something; and
   then a database that reads the text with its arguments finds a condition that is true of exactly the rows for which
   the tree holds: each column equal to, different from, or in its relation to its value, NULL or in its list, all of
   them for And, one of them for Or.
   */
  lemma {:induction false} ConditionsHoldOfTheirRows(t: Sqlizer, r: Built, db: Database, row: Row)
    requires IsCondition(t) && SqlExpressions.Is(r, Meaning(t))
    ensures r.Ok? <==> Buildable(t)
    ensures r.Ok? ==> (r.sql != "" <==> Says(t))
    ensures r.Ok? && Says(t) ==>
      var c := ReadCondition(r.sql, r.args);
      c.Some? && (AnyTrue(db, row, c.value).True? <==> Holds(t, db, row))
  {
    hide Holds, Says, IsCondition, AnyTrue, AllTrue, ReadAny, Tokens, Matched, SeamsOk, NoConcat, Buildable, Meaning;
    hide Syntax;
    BuiltExactlyWhen(t);
    if r.Ok? {
      ConditionTokens(t);
      NoText();
      if Says(t) {
        IsMatched(t);
        JoinsAreSafe(t);
        HolesGetTheirArguments(t, r);
        SyntaxOk(t);
        ReadsBack(Syntax(t));
        SyntaxHolds(db, row, t);
        OneAlternative(db, row, Syntax(t));
      }
    }
  }

  lemma {:induction false} ReadsBack(atoms: seq<Atom>)
    requires atoms != [] && AllOk(atoms)
    ensures ReadAny(AllTokens(atoms)) == Parsed([Terms(atoms)], [])
  {
    OneAlternativeOk(atoms);
    AnyReads([Terms(atoms)], []);
    AnyOfOne(atoms);
    assert AllTokens(atoms) + [] == AllTokens(atoms);
  }
}
