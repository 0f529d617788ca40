/** pkg/dbx: the law of the SQL builder. */
module SqlSoundness {
  // When every text has as many holes as arguments, each hole of the statement is bound to the argument that its own
  // fragment supplied, and only pieces put side by side by ConcatExpr can break that.

  import opened Bytes
  import opened SqlPieces
  import opened SqlFragments
  import opened SqlExpressions

  /** As many holes as arguments in every text, and holes in no text that brings no arguments. */
  predicate Matched(t: Sqlizer) {
    match t
    case Expr(sql, args) =>
      HoleCount(sql) == |args|
      && forall i :: 0 <= i < |args| ==> args[i].Nested? ==> Matched(args[i].sqlizer)
    case Concat(parts) =>
      forall i :: 0 <= i < |parts| ==>
        (parts[i].TextPart? ==> HoleCount(parts[i].text) == 0) && (parts[i].SubPart? ==> Matched(parts[i].sqlizer))
    case Alias(expr, alias) => Matched(expr) && HoleCount(alias) == 0
    case Eq(_, entries) => KeysMatched(entries)
    case Compare(_, entries) => KeysMatched(entries)
    case And(conj) => forall i :: 0 <= i < |conj| ==> Matched(conj[i])
    case Or(conj) => forall i :: 0 <= i < |conj| ==> Matched(conj[i])
    case Part(pred, args) => PredicateMatched(pred, args)
    case WherePart(pred, args) => PredicateMatched(pred, args)
  }

  predicate PredicateMatched(pred: Predicate, args: seq<Arg>) {
    match pred
    case TextPredicate(text) => HoleCount(text) == |args|
    case SqlPredicate(s) => Matched(s)
    case MapPredicate(entries) => KeysMatched(entries)
    case _ => true
  }

  predicate KeysMatched(entries: seq<Entry>) {
    forall i :: 0 <= i < |entries| ==> HoleCount(entries[i].key) == 0
  }

  /** Inside the tree no ConcatExpr puts a hole right in front of a question mark. */
  predicate SeamsOk(t: Sqlizer) {
    match t
    case Expr(_, args) => forall i :: 0 <= i < |args| ==> args[i].Nested? ==> SeamsOk(args[i].sqlizer)
    case Concat(parts) =>
      && (forall i :: 0 <= i < |parts| ==> parts[i].SubPart? ==> SeamsOk(parts[i].sqlizer))
      && (var ts := All(PartMeanings(parts)); ts.Some? ==> SeamsFit(ts.value))
    case Alias(expr, _) => SeamsOk(expr)
    case And(conj) => forall i :: 0 <= i < |conj| ==> SeamsOk(conj[i])
    case Or(conj) => forall i :: 0 <= i < |conj| ==> SeamsOk(conj[i])
    case Part(pred, _) => pred.SqlPredicate? ==> SeamsOk(pred.sqlizer)
    case WherePart(pred, _) => pred.SqlPredicate? ==> SeamsOk(pred.sqlizer)
    case _ => true
  }

  // ---- the pieces of the blocks

  lemma {:induction false} RawSound(text: string)
    requires HoleCount(text) == 0
    ensures Sound(Raw(text))
  {
    FillSound<Arg>(text, [], []);
    FillRest<Arg>(text, [], []);
    assert Raw(text) == Fill<Arg>(text, [], []).value;
  }

  lemma {:induction false} LitsSound(text: string)
    requires '?' !in text
    ensures Sound<Arg>(Lits(text))
  {
    LitsRender<Arg>(text);
  }

  lemma {:induction false} Followed(p: SqlParts, text: string)
    requires Sound(p) && '?' !in text
    ensures Sound(p + Lits(text))
  {
    LitsSound(text);
    if text != "" {
      assert Lits<Arg>(text)[0] in Lits<Arg>(text);
    }
    SoundAppend(p, Lits(text));
  }

  lemma {:induction false} Preceded(text: string, p: SqlParts)
    requires Sound(p) && '?' !in text
    ensures Sound(Lits(text) + p)
  {
    LitsSound(text);
    if text != "" {
      assert Lits<Arg>(text)[|text| - 1] in Lits<Arg>(text);
    }
    SoundAppend(Lits(text), p);
  }

  lemma {:induction false} OneHoleSound(a: Arg)
    ensures Sound<Arg>([Hole(a)])
  {}

  lemma {:induction false} HolesSound(items: seq<Arg>)
    ensures Sound(Holes(items))
  {
    if |items| == 1 {
      OneHoleSound(items[0]);
    } else if |items| > 1 {
      HolesSound(items[..|items| - 1]);
      OneHoleSound(items[|items| - 1]);
      SeparatorSound(Holes(items[..|items| - 1]), ",", [Hole(items[|items| - 1])]);
      assert Lits<Arg>(",") == [Lit(',')];
    }
  }

  lemma {:induction false} OperandSound(useNotOpr: bool, key: string, val: Operand)
    requires HoleCount(key) == 0
    ensures Sound(EqOperand(useNotOpr, key, val))
  {
    RawSound(key);
    match val
    case Null => Followed(Raw(key), if useNotOpr then " IS NOT NULL" else " IS NULL");
    case List(items) =>
      if items == [] {
        LitsSound(if useNotOpr then SQL_TRUE else SQL_FALSE);
      } else {
        var opr := if useNotOpr then " NOT IN (" else " IN (";
        HolesSound(items);
        SeparatorSound(Raw(key), opr, Holes(items));
        Followed(Raw(key) + Lits(opr) + Holes(items), ")");
      }
    case _ =>
      OneHoleSound(AsArg(val));
      SeparatorSound(Raw(key), if useNotOpr then " <> " else " = ", [Hole(AsArg(val))]);
  }

  lemma {:induction false} CompareTermSound(o: Operator, e: Entry)
    requires HoleCount(e.key) == 0
    ensures CompareTerm(o, e).Some? ==> Sound(CompareTerm(o, e).value)
  {
    RawSound(e.key);
    var v := Valued(e.value);
    if v.Some? && !v.value.Null? && !v.value.List? {
      OneHoleSound(AsArg(v.value));
      SeparatorSound(Raw(e.key), " " + Symbol(o) + " ", [Hole(AsArg(v.value))]);
    }
  }

  lemma {:induction false} JoinedTermsSound(ms: seq<Option<SqlParts>>)
    requires forall i :: 0 <= i < |ms| && ms[i].Some? ==> Sound(ms[i].value)
    ensures JoinedTerms(All(ms)).Some? ==> Sound(JoinedTerms(All(ms)).value)
  {
    if All(ms).Some? {
      AllSound(ms);
      JoinedSound(All(ms).value, " AND ");
    }
  }

  lemma {:induction false} AllSound(ms: seq<Option<SqlParts>>)
    requires forall i :: 0 <= i < |ms| && ms[i].Some? ==> Sound(ms[i].value)
    ensures All(ms).Some? ==> forall t <- All(ms).value :: Sound(t)
  {
    if All(ms).Some? {
      forall t <- All(ms).value ensures Sound(t) {
        var i :| 0 <= i < |ms| && All(ms).value[i] == t;
        assert ms[i] == Some(t);
      }
    }
  }

  lemma {:induction false} EqSound(useNotOpr: bool, entries: seq<Entry>)
    requires KeysMatched(entries)
    ensures EqMeaning(useNotOpr, entries).Some? ==> Sound(EqMeaning(useNotOpr, entries).value)
  {
    if entries == [] {
      LitsSound(SQL_TRUE);
    } else {
      var ms := seq(|entries|, i requires 0 <= i < |entries| => EqTerm(useNotOpr, entries[i]));
      forall i | 0 <= i < |ms| && ms[i].Some? ensures Sound(ms[i].value) {
        OperandSound(useNotOpr, entries[i].key, Dereferenced(Valued(entries[i].value).value));
      }
      JoinedTermsSound(ms);
    }
  }

  lemma {:induction false} CompareSound(o: Operator, entries: seq<Entry>)
    requires KeysMatched(entries)
    ensures CompareMeaning(o, entries).Some? ==> Sound(CompareMeaning(o, entries).value)
  {
    var ms := seq(|entries|, i requires 0 <= i < |entries| => CompareTerm(o, entries[i]));
    forall i | 0 <= i < |ms| && ms[i].Some? ensures Sound(ms[i].value) {
      CompareTermSound(o, entries[i]);
    }
    JoinedTermsSound(ms);
  }

  lemma {:induction false} JunctionSound(ms: seq<Option<SqlParts>>, sep: string, empty: string)
    requires forall i :: 0 <= i < |ms| && ms[i].Some? ==> Sound(ms[i].value)
    requires sep != "" && '?' !in sep && '?' !in empty
    ensures var p := Junction(All(ms), sep, empty); p.Some? ==> Sound(p.value)
  {
    if All(ms).Some? {
      AllSound(ms);
      var kept := NonEmpty(All(ms).value);
      LitsSound(empty);
      JoinedSound(kept, sep);
      Preceded("(", Joined(kept, sep));
      Followed(Lits("(") + Joined(kept, sep), ")");
    }
  }

  lemma {:induction false} TextSound(text: string, args: seq<Arg>)
    requires HoleCount(text) == |args|
    ensures var p := Fill(text, args, seq(|args|, i requires 0 <= i < |args| => Some([Hole(args[i])])));
      p.Some? ==> Sound(p.value)
  {
    var fillings := seq(|args|, i requires 0 <= i < |args| => Some([Hole(args[i])]));
    forall f <- fillings ensures f.Some? ==> Sound(f.value) {
      OneHoleSound(f.value[0].arg);
    }
    FillSound(text, args, fillings);
  }

  // ---- every tree

  lemma {:induction false} ExprSound(t: Sqlizer)
    requires t.Expr? && Matched(t) && SeamsOk(t)
    ensures Meaning(t).Some? ==> Sound(Meaning(t).value)
    decreases t, 0
  {
    MeaningOfExpr(t);
    forall i | 0 <= i < |t.args| && Fillings(t.args)[i].Some? ensures Sound(Fillings(t.args)[i].value) {
      if t.args[i].Nested? {
        MeaningSound(t.args[i].sqlizer);
      } else {
        OneHoleSound(t.args[i]);
      }
    }
    FillSound(t.sql, t.args, Fillings(t.args));
  }

  /** A ConcatExpr of sound parts is sound exactly when its seams fit. */
  lemma {:induction false} ConcatSound(t: Sqlizer)
    requires t.Concat? && Matched(t)
    requires forall i :: 0 <= i < |t.parts| ==> t.parts[i].SubPart? ==> SeamsOk(t.parts[i].sqlizer)
    ensures Meaning(t).Some? ==> (Sound(Meaning(t).value) <==> SeamsFit(All(PartMeanings(t.parts)).value))
    decreases t, 0
  {
    MeaningOfConcat(t);
    var ms := PartMeanings(t.parts);
    forall i | 0 <= i < |ms| && ms[i].Some? ensures Sound(ms[i].value) {
      match t.parts[i]
      case TextPart(text) => RawSound(text);
      case SubPart(s) => MeaningSound(s);
    }
    if All(ms).Some? {
      AllSound(ms);
      FlatSound(All(ms).value);
    }
  }

  lemma {:induction false} MeaningSound(t: Sqlizer)
    requires Matched(t) && SeamsOk(t)
    ensures Meaning(t).Some? ==> Sound(Meaning(t).value)
    decreases t, 1
  {
    match t
    case Expr(_, _) => ExprSound(t);
    case Concat(_) =>
      ConcatSound(t);
      MeaningOfConcat(t);
    case Alias(expr, alias) =>
      MeaningSound(expr);
      if Meaning(expr).Some? {
        Preceded("(", Meaning(expr).value);
        RawSound(alias);
        SeparatorSound(Lits("(") + Meaning(expr).value, ") AS ", Raw(alias));
      }
    case Eq(useNotOpr, entries) => EqSound(useNotOpr, entries);
    case Compare(o, entries) => CompareSound(o, entries);
    case And(conj) => ConjSound(t, conj);
    case Or(conj) => ConjSound(t, conj);
    case Part(pred, args) => PredicateSound(t, pred, args);
    case WherePart(pred, args) => PredicateSound(t, pred, args);
  }

  lemma {:induction false} ConjSound(t: Sqlizer, conj: seq<Sqlizer>)
    requires t == And(conj) || t == Or(conj)
    requires Matched(t) && SeamsOk(t)
    ensures Meaning(t).Some? ==> Sound(Meaning(t).value)
    decreases t, 0
  {
    MeaningOfJunction(t);
    var ms := Meanings(conj);
    forall i | 0 <= i < |ms| && ms[i].Some? ensures Sound(ms[i].value) {
      MeaningSound(conj[i]);
    }
    JunctionSound(ms, " AND ", SQL_TRUE);
    JunctionSound(ms, " OR ", SQL_FALSE);
  }

  lemma {:induction false} PredicateSound(t: Sqlizer, pred: Predicate, args: seq<Arg>)
    requires t == Part(pred, args) || t == WherePart(pred, args)
    requires Matched(t) && SeamsOk(t)
    ensures Meaning(t).Some? ==> Sound(Meaning(t).value)
    decreases t, 0
  {
    match pred
    case TextPredicate(text) => TextSound(text, args);
    case SqlPredicate(s) => MeaningSound(s);
    case MapPredicate(entries) => EqSound(false, entries);
    case _ =>
  }

  /**
   The law, for the text and arguments that ToSql builds: read by the database they are the meaning of the tree, hole by
   hole.
   */
  lemma {:induction false} HolesGetTheirArguments(t: Sqlizer, r: Built)
    requires Is(r, Meaning(t)) && r.Ok?
    requires Matched(t) && SeamsOk(t)
    ensures Bind(r.sql, r.args) == Meaning(t)
  {
    MeaningSound(t);
    ReadBack(Meaning(t).value);
  }

  /** An alias puts the expression into parentheses in front of its name. */
  lemma {:induction false} AliasedText(expr: Sqlizer, alias: string)
    requires Meaning(expr).Some?
    ensures Meaning(Alias(expr, alias)).Some?
    ensures var m, p := Meaning(Alias(expr, alias)).value, Meaning(expr).value;
      Text(m) == "(" + Text(p) + ") AS " + alias && Args(m) == Args(p)
  {
    SqlExpressions.AliasText(Meaning(expr).value, alias);
  }

  /** A concatenation is its parts in order. */
  lemma {:induction false} ConcatText(parts: seq<ConcatPart>, last: ConcatPart)
    requires Meaning(Concat(parts)).Some? && PartMeanings([last])[0].Some?
    ensures Meaning(Concat(parts + [last])).Some?
    ensures var m, p := Meaning(Concat(parts + [last])).value, Meaning(Concat(parts)).value;
      var q := match last case TextPart(text) => Raw(text) case SubPart(s) => Meaning(s).value case OtherPart => [];
      Text(m) == Text(p) + Text(q) && Args(m) == Args(p) + Args(q)
  {
    MeaningOfConcat(Concat(parts));
    MeaningOfConcat(Concat(parts + [last]));
    var ms := PartMeanings(parts + [last]);
    assert ms[..|parts|] == PartMeanings(parts) && ms[|parts|] == PartMeanings([last])[0];
    var ts, q := All(PartMeanings(parts)).value, PartMeanings([last])[0].value;
    assert All(ms) == Some(ts + [q]);
    assert (ts + [q])[..|ts|] == ts;
    RenderAppend(Flat(ts), q);
  }

  /**
   Expr fills its holes from left to right: the text before the first hole is copied, the hole becomes the argument, or
   the expression that the argument is, and the rest is filled with the remaining arguments.
   */
  lemma {:induction false} ExprFillsInOrder(before: string, after: string, arg: Arg, args: seq<Arg>)
    requires '?' !in before && (after == "" || after[0] != '?')
    ensures var first := match arg case Value(_) => Some([Hole(arg)]) case Nested(s) => Meaning(s);
      Meaning(Expr(before + "?" + after, [arg] + args))
      == if first.None? then None else Prepend(Lits(before) + first.value, Meaning(Expr(after, args)))
  {
    var sql, all := before + "?" + after, [arg] + args;
    MeaningOfExpr(Expr(sql, all));
    MeaningOfExpr(Expr(after, args));
    var f := Fillings(all);
    assert all[1..] == args && f[1..] == Fillings(args);
    assert sql[..|before|] == before && sql[|before|..] == "?" + after;
    FillCopies(sql, |before|, all, f);
    assert ("?" + after)[1..] == after;
    assert !StartsEscape("?" + after);
    if f[0].Some? {
      PrependTwice(Lits(before), f[0].value, Fill(after, args, Fillings(args)));
    }
  }

  /** For any tree at all: it is read as meant exactly when its pieces are balanced and separated. */
  lemma {:induction false} ReadAsMeantExactlyWhen(t: Sqlizer, r: Built)
    requires Is(r, Meaning(t)) && r.Ok?
    ensures Bind(r.sql, r.args) == Meaning(t) <==> Sound(Meaning(t).value)
  {
    ReadsBackExactlyWhen(Meaning(t).value);
  }

  /** No ConcatExpr anywhere. */
  predicate NoConcat(t: Sqlizer) {
    match t
    case Expr(_, args) => forall i :: 0 <= i < |args| ==> args[i].Nested? ==> NoConcat(args[i].sqlizer)
    case Concat(_) => false
    case Alias(expr, _) => NoConcat(expr)
    case And(conj) => forall i :: 0 <= i < |conj| ==> NoConcat(conj[i])
    case Or(conj) => forall i :: 0 <= i < |conj| ==> NoConcat(conj[i])
    case Part(pred, _) => pred.SqlPredicate? ==> NoConcat(pred.sqlizer)
    case WherePart(pred, _) => pred.SqlPredicate? ==> NoConcat(pred.sqlizer)
    case _ => true
  }

  /** Nesting, joining and negating never create or destroy an escape: without ConcatExpr there is no seam to check. */
  lemma {:induction false} JoinsAreSafe(t: Sqlizer)
    requires NoConcat(t)
    ensures SeamsOk(t)
  {
    match t
    case Expr(_, args) =>
      forall i | 0 <= i < |args| && args[i].Nested? ensures SeamsOk(args[i].sqlizer) {
        JoinsAreSafe(args[i].sqlizer);
      }
    case Alias(expr, _) => JoinsAreSafe(expr);
    case And(conj) =>
      forall i | 0 <= i < |conj| ensures SeamsOk(conj[i]) {
        JoinsAreSafe(conj[i]);
      }
    case Or(conj) =>
      forall i | 0 <= i < |conj| ensures SeamsOk(conj[i]) {
        JoinsAreSafe(conj[i]);
      }
    case Part(pred, _) =>
      if pred.SqlPredicate? {
        JoinsAreSafe(pred.sqlizer);
      }
    case WherePart(pred, _) =>
      if pred.SqlPredicate? {
        JoinsAreSafe(pred.sqlizer);
      }
    case _ =>
  }

  /** A ConcatExpr of sound parts is read as meant exactly when no hole stands right in front of a question mark. */
  lemma {:induction false} ConcatReadAsMeantExactlyWhen(t: Sqlizer, r: Built)
    requires t.Concat? && Matched(t) && Is(r, Meaning(t)) && r.Ok?
    requires forall i :: 0 <= i < |t.parts| ==> t.parts[i].SubPart? ==> SeamsOk(t.parts[i].sqlizer)
    ensures Bind(r.sql, r.args) == Meaning(t) <==> SeamsFit(All(PartMeanings(t.parts)).value)
  {
    ConcatSound(t);
    ReadAsMeantExactlyWhen(t, r);
  }

  /** A seam that does not fit: two holes side by side are read as an escape, and both arguments are lost. */
  lemma {:induction false} ConcatCanMakeAnEscape(a: Arg, b: Arg)
    requires a.Value? && b.Value?
    ensures var t := Concat([SubPart(Expr("?", [a])), SubPart(Expr("?", [b]))]);
      Matched(t) && Is(Ok("??", [a, b]), Meaning(t)) && Bind("??", [a, b]) == None
  {
    hide Meaning, Matched;
    var t := Concat([SubPart(Expr("?", [a])), SubPart(Expr("?", [b]))]);
    var p, q: SqlParts := [Hole(a)], [Hole(b)];
    SingleHole(a);
    SingleHole(b);
    assert PartMeanings(t.parts) == [Some(p), Some(q)];
    MeaningOfConcat(t);
    TwoParts(p, q);
    OneHole(a);
    OneHole(b);
    Written(p, q);
    EscapeRead(a, b);
    MatchedParts(t);
  }

  lemma {:induction false} MatchedParts(t: Sqlizer)
    requires t.Concat? && forall i :: 0 <= i < |t.parts| ==> t.parts[i].SubPart? && Matched(t.parts[i].sqlizer)
    ensures Matched(t)
  {}

  lemma {:induction false} TwoParts(p: SqlParts, q: SqlParts)
    ensures All([Some(p), Some(q)]) == Some([p, q]) && Flat([p, q]) == p + q
  {
    var ms, ts := [Some(p), Some(q)], [p, q];
    AllOrNone(ms);
    assert forall i :: 0 <= i < |ms| ==> ms[i].Some?;
    assert All(ms).value == ts;
    assert ts[..1] == [p] && ts[..1][..0] == [];
    assert Flat(ts[..1]) == Flat(ts[..1][..0]) + p;
    assert [] + p == p;
  }

  lemma {:induction false} EscapeRead(a: Arg, b: Arg)
    ensures Bind("??", [a, b]) == None
  {
    assert "??"[2..] == "";
    assert Bind("", [a, b]) == None;
  }

  lemma {:induction false} SingleHole(a: Arg)
    requires a.Value?
    ensures Matched(Expr("?", [a])) && Meaning(Expr("?", [a])) == Some([Hole(a)])
  {
    MeaningOfExpr(Expr("?", [a]));
    var f := Fillings([a]);
    assert f == [Some([Hole(a)])];
    assert "?"[1..] == "" && [a][1..] == [] && f[1..] == [];
    assert Fill("", [], f[1..]) == Some([]);
    assert [Hole(a)] + [] == [Hole(a)];
    assert HoleCount("?") == 1 + HoleCount("");
  }
}
